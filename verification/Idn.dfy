/** Internationalized host names: the labels outside ASCII become ASCII before a URL is parsed. */
module Idn {
  import opened Nostr
  import opened Strings

  /** The conversion of a label that has a character outside ASCII; `None` is an error. */
  type Idna = string -> Option<string>

  /** ASCII and the KELVIN SIGN. */
  predicate NearAscii(s: string) {
    forall i :: 0 <= i < |s| ==> s[i] < '\U{0080}' || s[i] == KELVIN
  }

  /**
   What is assumed of the conversion: it maps a label of ASCII characters and KELVIN
   SIGNs to lower case, section 4 of RFC 3490 with the case folding of RFC 3491, and
   rejects one that is too long.
   */
  ghost predicate IdnaLaws(idna: Idna) {
    forall part :: NearAscii(part) && KELVIN in part ==> IdnaLaw(idna, part)
  }

  ghost predicate IdnaLaw(idna: Idna, part: string) {
    idna(part) == if |part| <= 63 then Some(Lower(part)) else None
  }

  /** Where the first "://" is. */
  function FindMark(s: string): (r: Option<nat>)
    ensures r.Some? ==> r.value + 3 <= |s|
  {
    if |s| < 3 then None
    else if s[..3] == "://" then Some(0)
    else
      var k := FindMark(s[1..]);
      if k.Some? then Some(k.value + 1) else None
  }

  /** ASCII labels are left alone. */
  function AsciiLabel(idna: Idna, part: string): Option<string> {
    if IsAscii(part) then Some(part) else idna(part)
  }

  function AsciiLabels(idna: Idna, labels: seq<string>): (r: Option<seq<string>>)
    ensures r.Some? ==> |r.value| == |labels|
  {
    if labels == [] then Some([])
    else
      var most, last := AsciiLabels(idna, labels[..|labels| - 1]), AsciiLabel(idna, labels[|labels| - 1]);
      if most.Some? && last.Some? then Some(most.value + [last.value]) else None
  }

  function AsciiName(idna: Idna, host: string): Option<string> {
    var labels := AsciiLabels(idna, Split(host, '.'));
    if labels.Some? then Some(Join(labels.value, '.')) else None
  }

  /** The URL with an ASCII host; `None` is a `ValueError`. */
  function AsciiHost(idna: Idna, raw: string): Option<string> {
    var mark := FindMark(raw);
    if IsAscii(raw) || mark.None? then Some(raw)
    else
      var prefix, after := raw[..mark.value + 3], raw[mark.value + 3..];
      var host, rest := TakeUntil(after, "/:?#"), DropUntil(after, "/:?#");
      if IsAscii(host) then Some(raw)
      else
        var name := AsciiName(idna, host);
        if name.Some? then Some(prefix + (name.value + rest)) else None
  }

  lemma {:induction false} NoMoreLabels(idna: Idna, labels: seq<string>, n: nat)
    requires n <= |labels| && AsciiLabels(idna, labels[..n]).None?
    ensures AsciiLabels(idna, labels).None?
    decreases |labels|
  {
    if n == |labels| {
      assert labels[..n] == labels;
    } else {
      assert labels[..|labels| - 1][..n] == labels[..n];
      NoMoreLabels(idna, labels[..|labels| - 1], n);
    }
  }

  /** The loop over the labels. */
  method PreprocessIdn(idna: Idna, raw: string) returns (r: Option<string>)
    ensures r == AsciiHost(idna, raw)
  {
    var schemeEnd := FindMark(raw);
    if IsAscii(raw) || schemeEnd.None? {
      return Some(raw);
    }
    var prefix, after := raw[..schemeEnd.value + 3], raw[schemeEnd.value + 3..];
    var host, rest := TakeUntil(after, "/:?#"), DropUntil(after, "/:?#");
    if IsAscii(host) {
      return Some(raw);
    }
    var labels := Split(host, '.');
    var converted := [];
    for i := 0 to |labels|
      invariant AsciiLabels(idna, labels[..i]) == Some(converted)
    {
      assert labels[..i + 1][..i] == labels[..i];
      var part := labels[i];
      if IsAscii(part) {
        converted := converted + [part];
      } else {
        var ascii := idna(part);
        if ascii.None? {
          NoMoreLabels(idna, labels, i + 1);
          return None;
        }
        converted := converted + [ascii.value];
      }
    }
    assert labels[..|labels|] == labels;
    r := Some(prefix + (Join(converted, '.') + rest));
  }

  ghost predicate IsConverted(idna: Idna, part: string, ascii: string) {
    if forall i :: 0 <= i < |part| ==> part[i] < '\U{0080}' then ascii == part else idna(part) == Some(ascii)
  }

  /** Each label is kept if it is ASCII and converted if not; one that cannot be converted fails all of them. */
  lemma {:induction false} LabelsAreConverted(idna: Idna, labels: seq<string>)
    ensures var r := AsciiLabels(idna, labels);
            && (r.Some? <==> forall k :: 0 <= k < |labels| ==> IsAscii(labels[k]) || idna(labels[k]).Some?)
            && (r.Some? ==> forall k :: 0 <= k < |labels| ==> IsConverted(idna, labels[k], r.value[k]))
  {
    if labels != [] {
      LabelsAreConverted(idna, labels[..|labels| - 1]);
    }
  }

  // ----- Names with a KELVIN SIGN -----

  predicate ShortParts(labels: seq<string>) {
    forall i :: 0 <= i < |labels| ==> |labels[i]| <= 63
  }

  lemma NearLabel(idna: Idna, part: string)
    requires IdnaLaws(idna) && NearAscii(part)
    ensures var r := AsciiLabel(idna, part);
            && (r.Some? ==> IsAscii(r.value) && Lower(r.value) == Lower(part))
            && (|part| <= 63 ==> r.Some?)
  {
    if !IsAscii(part) {
      var i :| 0 <= i < |part| && part[i] == KELVIN;
      assert IdnaLaw(idna, part);
      LowerIsFixed(part);
      LowerIsAscii(part);
    }
  }

  lemma LowerIsAscii(s: string)
    requires NearAscii(s)
    ensures IsAscii(Lower(s))
  {
  }

  lemma {:induction false} NearLabels(idna: Idna, labels: seq<string>)
    requires IdnaLaws(idna) && forall i :: 0 <= i < |labels| ==> NearAscii(labels[i])
    ensures var r := AsciiLabels(idna, labels);
            && (r.Some? ==>
                  forall i :: 0 <= i < |labels| ==> IsAscii(r.value[i]) && Lower(r.value[i]) == Lower(labels[i]))
            && (ShortParts(labels) ==> r.Some?)
  {
    if labels != [] {
      var n := |labels| - 1;
      NearLabels(idna, labels[..n]);
      NearLabel(idna, labels[n]);
    }
  }

  lemma {:induction false} JoinIsAscii(parts: seq<string>)
    requires forall i :: 0 <= i < |parts| ==> IsAscii(parts[i])
    ensures IsAscii(Join(parts, '.'))
  {
    if |parts| > 1 {
      JoinIsAscii(parts[1..]);
    }
  }

  lemma NearParts(s: string)
    requires NearAscii(s)
    ensures forall i :: 0 <= i < |Split(s, '.')| ==> NearAscii(Split(s, '.')[i])
  {
    PartChars(s, '.');
    var parts := Split(s, '.');
    forall i, j | 0 <= i < |parts| && 0 <= j < |parts[i]| ensures parts[i][j] < '\U{0080}' || parts[i][j] == KELVIN {
      assert parts[i] in parts && parts[i][j] in s;
    }
  }

  /** The ASCII form of a name has the same lower-case form; it exists if no label is too long. */
  lemma NearName(idna: Idna, host: string)
    requires IdnaLaws(idna) && NearAscii(host)
    ensures var r := AsciiName(idna, host);
            && (r.Some? ==> IsAscii(r.value) && Lower(r.value) == Lower(host))
            && (ShortParts(Split(host, '.')) ==> r.Some?)
  {
    var labels := Split(host, '.');
    NearParts(host);
    NearLabels(idna, labels);
    var r := AsciiLabels(idna, labels);
    if r.Some? {
      JoinIsAscii(r.value);
      LowerJoin(r.value, labels, '.');
      JoinOfSplit(host, '.');
    }
  }

  // ----- URLs with such a name -----

  lemma {:induction false} FirstMark(scheme: string, rest: string)
    requires ':' !in scheme
    ensures FindMark(scheme + ([':'] + ("//" + rest))) == Some(|scheme|)
  {
    var s := scheme + ([':'] + ("//" + rest));
    if scheme == [] {
      assert s[..3] == "://";
    } else {
      FirstMark(scheme[1..], rest);
      assert s[1..] == scheme[1..] + ([':'] + ("//" + rest));
      assert s[..3][0] == scheme[0];
    }
  }

  /** Only the host of a URL is converted. */
  lemma HostIsConverted(idna: Idna, scheme: string, host: string, rest: string)
    requires ':' !in scheme && !IsAscii(host) && forall c :: c in host ==> c !in "/:?#"
    requires rest == [] || rest[0] in "/:?#"
    ensures AsciiHost(idna, scheme + ([':'] + ("//" + (host + rest))))
         == match AsciiName(idna, host)
            case Some(name) => Some(scheme + ([':'] + ("//" + (name + rest))))
            case None => None
  {
    var raw := scheme + ([':'] + ("//" + (host + rest)));
    FirstMark(scheme, host + rest);
    TakeAndDrop(host, rest, "/:?#");
    assert raw[|scheme| + 3..] == host + rest;
    assert raw[..|scheme| + 3] == scheme + ([':'] + "//");
    var i :| 0 <= i < |host| && host[i] >= '\U{0080}';
    assert raw[|scheme| + 3 + i] == host[i];
    var name := AsciiName(idna, host);
    if name.Some? {
      assert (scheme + ([':'] + "//")) + (name.value + rest) == scheme + ([':'] + ("//" + (name.value + rest)));
    }
  }
}
