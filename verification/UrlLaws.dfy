/** Paths and host names, told without the functions that check them. */
module UrlLaws {
  import opened Batches
  import opened HostNames
  import opened Networks
  import opened Nostr
  import opened Strings
  import opened UrlPath

  // ----- Paths -----

  /** The segments that are not empty, each after a slash. */
  function Rooted(segments: seq<string>): string {
    if segments == [] then []
    else if segments[0] == [] then Rooted(segments[1..])
    else (['/'] + segments[0]) + Rooted(segments[1..])
  }

  lemma RootedFirst(a: string, rest: seq<string>)
    ensures Rooted([a] + rest) == if a == [] then Rooted(rest) else (['/'] + a) + Rooted(rest)
  {
    assert ([a] + rest)[1..] == rest;
  }

  lemma {:induction false} CollapseLabel(a: string, rest: string)
    requires '/' !in a
    ensures Collapse(a + rest) == a + Collapse(rest)
    ensures a != [] ==> Collapse(['/'] + (a + rest)) == (['/'] + a) + Collapse(rest)
  {
    if a == [] {
      assert a + rest == rest && [] + Collapse(rest) == Collapse(rest);
    } else {
      var c, more := a[0], a[1..];
      assert a == [c] + more;
      CollapseLabel(more, rest);
      Regroup([c], more, rest);
      CollapseStep(c, more + rest);
      Regroup([c], more, Collapse(rest));
      CollapseStep('/', a + rest);
      Regroup(['/'], a, Collapse(rest));
    }
  }

  lemma CollapseStep(c: char, s: string)
    requires s != [] ==> c != '/' || s[0] != '/'
    ensures Collapse([c] + s) == [c] + Collapse(s)
  {
    assert ([c] + s)[1..] == s;
  }

  lemma {:induction false} TrimAfter(a: string, b: string, c: char)
    requires a != [] && a[|a| - 1] != c
    ensures TrimRight(a + b, c) == a + TrimRight(b, c)
  {
    var s := a + b;
    if b != [] && b[|b| - 1] == c {
      TrimAfter(a, b[..|b| - 1], c);
      assert s[..|s| - 1] == a + b[..|b| - 1];
    }
  }

  /** A slash, then `s`: collapsing and trimming leaves the segments of `s`. */
  lemma {:induction false} TrimmedIsRooted(s: string)
    ensures TrimRight(Collapse(['/'] + s), '/') == Rooted(Split(s, '/'))
    decreases |s|
  {
    if s == [] {
      assert TrimRight(['/'], '/') == TrimRight([], '/');
      RootedFirst([], []);
    } else if s[0] == '/' {
      TrimmedIsRooted(s[1..]);
      assert (['/'] + s)[1..] == s && s == ['/'] + s[1..];
      RootedFirst([], Split(s[1..], '/'));
    } else {
      var a, rest := TakeUntil(s, "/"), DropUntil(s, "/");
      LabelAndRest(s);
      CollapseLabel(a, rest);
      TrimAfter(['/'] + a, Collapse(rest), '/');
      if rest == [] {
        SplitNone(a, '/');
        assert s == a;
        RootedFirst(a, []);
      } else {
        TrimmedIsRooted(rest[1..]);
        SplitFirst(a, '/', rest[1..]);
        assert rest == ['/'] + rest[1..];
        RootedFirst(a, Split(rest[1..], '/'));
      }
    }
  }

  lemma {:induction false} LabelAndRest(s: string)
    ensures var a, rest := TakeUntil(s, "/"), DropUntil(s, "/");
            && s == a + rest && '/' !in a && (rest == [] || rest[0] == '/')
            && (s != [] && s[0] != '/' ==> a != [] && a[|a| - 1] != '/' && |rest| < |s|)
  {
    if s != [] && s[0] != '/' {
      LabelAndRest(s[1..]);
      OneMoreOfLabel(s, TakeUntil(s[1..], "/"), DropUntil(s[1..], "/"));
    }
  }

  lemma OneMoreOfLabel(s: string, a: string, rest: string)
    requires s != [] && s[0] != '/' && s[1..] == a + rest && '/' !in a
    ensures var name := [s[0]] + a;
            s == name + rest && '/' !in name && name[|name| - 1] != '/'
  {
    assert s == [s[0]] + s[1..];
    var name := [s[0]] + a;
    assert name[|name| - 1] in name;
  }

  /** What the decoded segments of a path have to look like. */
  ghost predicate HasPlainSegments(decoded: string) {
    forall part, i :: part in Split(decoded, '/') && 0 <= i < |part| ==>
      || 'a' <= part[i] <= 'z' || 'A' <= part[i] <= 'Z' || '0' <= part[i] <= '9'
      || (0 < i < |part| - 1 && part[i] in "-._~:")
  }

  /** A sanitized path has the segments of the raw one that are not empty, in order, or is empty if one is bad. */
  lemma SanitizedPathIsItsSegments(raw: string)
    requires raw == [] || raw[0] == '/'
    ensures var p := Rooted(Split(raw, '/'));
            SanitizedPath(raw) == if HasPlainSegments(Unquote(p)) then p else []
  {
    if raw == [] {
      assert Collapse([]) == [] && TrimRight([], '/') == [];
      RootedFirst([], []);
    } else {
      TrimmedIsRooted(raw[1..]);
      assert raw == ['/'] + raw[1..];
      RootedFirst([], Split(raw[1..], '/'));
    }
    PlainIsGood(Unquote(Rooted(Split(raw, '/'))));
  }

  lemma PlainIsGood(decoded: string)
    ensures GoodSegments(decoded) <==> HasPlainSegments(decoded)
  {
    if HasPlainSegments(decoded) {
      forall part | part in Split(decoded, '/') ensures GoodSegment(part) {
      }
    }
    if GoodSegments(decoded) {
      forall part, i | part in Split(decoded, '/') && 0 <= i < |part|
        ensures || 'a' <= part[i] <= 'z' || 'A' <= part[i] <= 'Z' || '0' <= part[i] <= '9'
                || (0 < i < |part| - 1 && part[i] in "-._~:")
      {
        assert GoodSegment(part);
      }
    }
  }

  /** A segment and the two dots after it disappear together, one dot disappears alone. */
  lemma {:induction false} DotSegments(before: seq<string>, part: string, after: seq<string>, output: seq<string>)
    requires part != "." && part != ".."
    ensures WithoutDots(before + ([part, ".."] + after), output) == WithoutDots(before + after, output)
    ensures WithoutDots(before + (["."] + after), output) == WithoutDots(before + after, output)
    decreases |before|
  {
    if before == [] {
      assert before + ([part, ".."] + after) == [part, ".."] + after && before + (["."] + after) == ["."] + after;
      assert before + after == after;
      DotSegmentsFirst(part, after, output);
    } else {
      var first, rest := before[0], before[1..];
      var next := if first == "." then output
                  else if first != ".." then output + [first]
                  else if output == [] then [] else output[..|output| - 1];
      DotSegments(rest, part, after, next);
      assert before == [first] + rest;
      FirstSegment(first, rest, [part, ".."] + after, output, next);
      FirstSegment(first, rest, ["."] + after, output, next);
      FirstSegment(first, rest, after, output, next);
    }
  }

  lemma DotSegmentsFirst(part: string, after: seq<string>, output: seq<string>)
    requires part != "." && part != ".."
    ensures WithoutDots([part, ".."] + after, output) == WithoutDots(after, output)
    ensures WithoutDots(["."] + after, output) == WithoutDots(after, output)
  {
    var s := [part, ".."] + after;
    assert s[1..] == [".."] + after && s[1..][1..] == after;
    assert (["."] + after)[1..] == after;
    assert (output + [part])[..|output|] == output;
  }

  lemma FirstSegment(first: string, rest: seq<string>, more: seq<string>, output: seq<string>, next: seq<string>)
    requires next == if first == "." then output
                     else if first != ".." then output + [first]
                     else if output == [] then [] else output[..|output| - 1]
    ensures WithoutDots(([first] + rest) + more, output) == WithoutDots(rest + more, next)
  {
    assert (([first] + rest) + more)[1..] == rest + more;
  }

  /** Two dots at the start go nowhere. */
  lemma LeadingDots(after: seq<string>)
    ensures WithoutDots([".."] + after, []) == WithoutDots(after, [])
  {
    assert ([".."] + after)[1..] == after;
  }

  // ----- Percent-encoding -----

  function HexChar(n: nat): (c: char)
    requires n < 16
    ensures IsHex(c) && HexValue(c) == n
  {
    if n < 10 then ('0' as int + n) as char else ('A' as int + n - 10) as char
  }

  function Triple(b: nat): string
    requires b < 256
  {
    ['%', HexChar(b / 16), HexChar(b % 16)]
  }

  function Two(n: nat): string
    requires 0x80 <= n < 0x800
  {
    Triple(0xC0 + n / 0x40) + Triple(0x80 + n % 0x40)
  }

  function Three(n: nat): string
    requires 0x800 <= n < 0x10000
  {
    Triple(0xE0 + n / 0x1000) + (Triple(0x80 + n / 0x40 % 0x40) + Triple(0x80 + n % 0x40))
  }

  function Four(n: nat): string
    requires 0x10000 <= n < 0x110000
  {
    Triple(0xF0 + n / 0x40000)
    + (Triple(0x80 + n / 0x1000 % 0x40) + (Triple(0x80 + n / 0x40 % 0x40) + Triple(0x80 + n % 0x40)))
  }

  /** The bytes of a character, percent-encoded: section 3 of RFC 3629. */
  function Encoded(c: char): string {
    var n := c as int;
    if n < 0x80 then Triple(n) else if n < 0x800 then Two(n) else if n < 0x10000 then Three(n) else Four(n)
  }

  function EncodedText(s: string): string {
    if s == [] then [] else Encoded(s[0]) + EncodedText(s[1..])
  }

  lemma TripleIsRead(b: nat, rest: string)
    requires b < 256
    ensures StartsTriple(Triple(b) + rest) && Byte(Triple(b) + rest) == b && (Triple(b) + rest)[3..] == rest
  {
    var s := Triple(b) + rest;
    assert s[0] == '%' && s[1] == HexChar(b / 16) && s[2] == HexChar(b % 16);
  }

  lemma TwoAreRead(a: nat, b: nat, rest: string)
    requires 0xC2 <= a <= 0xDF && 0x80 <= b <= 0xBF
    ensures var s := Triple(a) + (Triple(b) + rest);
            StartsTriple(s) && EncodedChar(s) == (Scalar((a - 0xC0) * 0x40 + (b - 0x80)), 2) && s[6..] == rest
  {
    TripleIsRead(b, rest);
    TripleIsRead(a, Triple(b) + rest);
  }

  lemma ThreeAreRead(a: nat, b: nat, c: nat, rest: string)
    requires 0xE0 <= a <= 0xEF && 0x80 <= b <= 0xBF && 0x80 <= c <= 0xBF
    requires (a == 0xE0 ==> b >= 0xA0) && (a == 0xED ==> b <= 0x9F)
    ensures var s := Triple(a) + (Triple(b) + (Triple(c) + rest));
            && StartsTriple(s) && s[9..] == rest
            && EncodedChar(s) == (Scalar((a - 0xE0) * 0x1000 + (b - 0x80) * 0x40 + (c - 0x80)), 3)
  {
    var s := Triple(a) + (Triple(b) + (Triple(c) + rest));
    TripleIsRead(c, rest);
    TripleIsRead(b, Triple(c) + rest);
    TripleIsRead(a, Triple(b) + (Triple(c) + rest));
    assert s[6..] == s[3..][3..] && s[9..] == s[6..][3..];
  }

  lemma FourAreRead(a: nat, b: nat, c: nat, d: nat, rest: string)
    requires 0xF0 <= a <= 0xF4 && 0x80 <= b <= 0xBF && 0x80 <= c <= 0xBF && 0x80 <= d <= 0xBF
    requires (a == 0xF0 ==> b >= 0x90) && (a == 0xF4 ==> b <= 0x8F)
    ensures var s := Triple(a) + (Triple(b) + (Triple(c) + (Triple(d) + rest)));
            && StartsTriple(s) && s[12..] == rest
            && EncodedChar(s)
            == (Scalar((a - 0xF0) * 0x40000 + (b - 0x80) * 0x1000 + (c - 0x80) * 0x40 + (d - 0x80)), 4)
  {
    var s := Triple(a) + (Triple(b) + (Triple(c) + (Triple(d) + rest)));
    TripleIsRead(d, rest);
    TripleIsRead(c, Triple(d) + rest);
    TripleIsRead(b, Triple(c) + (Triple(d) + rest));
    TripleIsRead(a, Triple(b) + (Triple(c) + (Triple(d) + rest)));
    assert s[6..] == s[3..][3..] && s[9..] == s[6..][3..] && s[12..] == s[9..][3..];
  }

  lemma CharIsDecoded(s: string, c: char, n: nat, rest: string)
    requires StartsTriple(s) && EncodedChar(s) == (c, n) && s[3 * n..] == rest
    ensures Unquote(s) == [c] + Unquote(rest)
  {
  }

  lemma TwoBytes(n: nat, rest: string)
    requires 0x80 <= n < 0x800
    ensures Unquote(Two(n) + rest) == [n as char] + Unquote(rest)
  {
    var a, b := 0xC0 + n / 0x40, 0x80 + n % 0x40;
    TwoAreRead(a, b, rest);
    Regroup(Triple(a), Triple(b), rest);
    CharIsDecoded(Triple(a) + (Triple(b) + rest), n as char, 2, rest);
  }

  lemma ThreeIs(n: nat) returns (a: nat, b: nat, c: nat)
    requires 0x800 <= n < 0xD800 || 0xE000 <= n < 0x10000
    ensures 0xE0 <= a <= 0xEF && 0x80 <= b <= 0xBF && 0x80 <= c <= 0xBF
    ensures (a == 0xE0 ==> b >= 0xA0) && (a == 0xED ==> b <= 0x9F)
    ensures n == (a - 0xE0) * 0x1000 + (b - 0x80) * 0x40 + (c - 0x80)
    ensures Three(n) == Triple(a) + (Triple(b) + Triple(c))
  {
    a, b, c := 0xE0 + n / 0x1000, 0x80 + n / 0x40 % 0x40, 0x80 + n % 0x40;
  }

  lemma ThreeBytes(n: nat, rest: string)
    requires 0x800 <= n < 0xD800 || 0xE000 <= n < 0x10000
    ensures Unquote(Three(n) + rest) == [n as char] + Unquote(rest)
  {
    var a, b, c := ThreeIs(n);
    ThreeAreRead(a, b, c, rest);
    Regroup(Triple(b), Triple(c), rest);
    Regroup(Triple(a), Triple(b) + Triple(c), rest);
    CharIsDecoded(Triple(a) + (Triple(b) + (Triple(c) + rest)), n as char, 3, rest);
  }

  lemma FourIs(n: nat) returns (a: nat, b: nat, c: nat, d: nat)
    requires 0x10000 <= n < 0x110000
    ensures 0xF0 <= a <= 0xF4 && 0x80 <= b <= 0xBF && 0x80 <= c <= 0xBF && 0x80 <= d <= 0xBF
    ensures (a == 0xF0 ==> b >= 0x90) && (a == 0xF4 ==> b <= 0x8F)
    ensures n == (a - 0xF0) * 0x40000 + (b - 0x80) * 0x1000 + (c - 0x80) * 0x40 + (d - 0x80)
    ensures Four(n) == Triple(a) + (Triple(b) + (Triple(c) + Triple(d)))
  {
    a, b, c, d := 0xF0 + n / 0x40000, 0x80 + n / 0x1000 % 0x40, 0x80 + n / 0x40 % 0x40, 0x80 + n % 0x40;
  }

  lemma FourBytes(n: nat, rest: string)
    requires 0x10000 <= n < 0x110000
    ensures Unquote(Four(n) + rest) == [n as char] + Unquote(rest)
  {
    var a, b, c, d := FourIs(n);
    FourAreRead(a, b, c, d, rest);
    Regroup(Triple(c), Triple(d), rest);
    Regroup(Triple(b), Triple(c) + Triple(d), rest);
    Regroup(Triple(a), Triple(b) + (Triple(c) + Triple(d)), rest);
    CharIsDecoded(Triple(a) + (Triple(b) + (Triple(c) + (Triple(d) + rest))), n as char, 4, rest);
  }

  /** An encoded character is decoded to itself. */
  lemma EncodedIsRead(c: char, rest: string)
    ensures Unquote(Encoded(c) + rest) == [c] + Unquote(rest)
  {
    var n := c as int;
    if n < 0x80 {
      TripleIsRead(n, rest);
      CharIsDecoded(Triple(n) + rest, c, 1, rest);
    } else if n < 0x800 {
      TwoBytes(n, rest);
    } else if n < 0x10000 {
      ThreeBytes(n, rest);
    } else {
      FourBytes(n, rest);
    }
  }

  /** Percent-decoding inverts the percent-encoding of UTF-8, for all of Unicode. */
  lemma {:induction false} DecodingIsInverse(s: string)
    ensures Unquote(EncodedText(s)) == s
  {
    if s != [] {
      DecodingIsInverse(s[1..]);
      EncodedIsRead(s[0], EncodedText(s[1..]));
    }
  }

  // ----- Names -----

  /** Each part as a label: letters, digits and underscores, and hyphens inside. */
  ghost predicate AreLabels(labels: seq<string>) {
    && (forall k :: 0 <= k < |labels| ==> 1 <= |labels[k]| <= 63)
    && (forall k, i :: 0 <= k < |labels| && 0 <= i < |labels[k]| ==>
          || 'a' <= labels[k][i] <= 'z' || '0' <= labels[k][i] <= '9' || labels[k][i] == '_'
          || (0 < i < |labels[k]| - 1 && labels[k][i] == '-'))
  }

  /** At least two labels joined by dots, not too long, the last one with something else than digits in it. */
  ghost predicate IsDnsNameOf(s: string, labels: seq<string>) {
    && |labels| >= 2 && s == Join(labels, '.') && |s| <= 253 && AreLabels(labels)
    && HasNonDigit(labels[|labels| - 1])
  }

  predicate HasNonDigit(s: string) {
    exists i :: 0 <= i < |s| && !('0' <= s[i] <= '9')
  }

  ghost predicate IsDnsName(s: string) {
    exists labels :: IsDnsNameOf(s, labels)
  }

  lemma {:induction false} SplitOfJoin(labels: seq<string>, c: char)
    requires labels != [] && forall k :: 0 <= k < |labels| ==> c !in labels[k]
    ensures Split(Join(labels, c), c) == labels
  {
    if |labels| == 1 {
      SplitNone(labels[0], c);
    } else {
      SplitOfJoin(labels[1..], c);
      SplitFirst(labels[0], c, Join(labels[1..], c));
    }
  }

  lemma {:induction false} MorePartsThanOne(s: string, c: char)
    ensures |Split(s, c)| >= 2 <==> c in s
  {
    if s != [] {
      MorePartsThanOne(s[1..], c);
    }
  }

  lemma LabelsAreValid(labels: seq<string>)
    ensures AreLabels(labels) <==> forall part :: part in labels ==> ValidLabel(part)
  {
    if AreLabels(labels) {
      forall part | part in labels ensures ValidLabel(part) {
        var k :| 0 <= k < |labels| && labels[k] == part;
      }
    }
    if forall part :: part in labels ==> ValidLabel(part) {
      forall k | 0 <= k < |labels| ensures ValidLabel(labels[k]) {
        assert labels[k] in labels;
      }
    }
  }

  /** The check of host names accepts exactly the names of labels. */
  lemma ValidIffDnsName(s: string)
    ensures ValidHostname(s) <==> IsDnsName(s)
  {
    if ValidHostname(s) {
      var labels := Split(s, '.');
      JoinOfSplit(s, '.');
      MorePartsThanOne(s, '.');
      LabelsAreValid(labels);
      assert IsDnsNameOf(s, labels);
    }
    if IsDnsName(s) {
      var labels :| IsDnsNameOf(s, labels);
      SplitOfJoin(labels, '.');
      MorePartsThanOne(s, '.');
      LabelsAreValid(labels);
    }
  }

  // ----- Networks -----

  /** So many characters of the alphabet of base 32. */
  ghost predicate IsHash(s: string, size: nat) {
    |s| == size && forall i :: 0 <= i < size ==> 'a' <= s[i] <= 'z' || '2' <= s[i] <= '7'
  }

  ghost predicate IsOnionHash(s: string) {
    IsHash(s, 56) || IsHash(s, 16)
  }

  /** A name, a dot, a hash, and the ending; with the ending the name has to be one that is accepted. */
  ghost predicate IsSubdomain(s: string, name: string, hash: string) {
    IsOnionHash(hash) && IsDnsName(name + ".onion") && s == (name + (['.'] + hash)) + ".onion"
  }

  /** A hash of version 3 or 2, with labels in front of it or without. */
  ghost predicate IsOnion(s: string) {
    || (exists hash :: IsOnionHash(hash) && s == hash + ".onion")
    || (exists name, hash :: IsSubdomain(s, name, hash))
  }

  /** A hash, or a name that does not look like one. */
  ghost predicate IsI2p(s: string) {
    || (exists hash :: IsHash(hash, 52) && s == hash + ".b32.i2p")
    || (IsDnsName(s) && EndsWith(s, ".i2p") && !EndsWith(s, ".b32.i2p"))
  }

  ghost predicate IsLokinet(s: string) {
    exists hash :: IsHash(hash, 52) && s == hash + ".loki"
  }

  predicate HasOverlayEnd(s: string) {
    EndsWith(s, ".onion") || EndsWith(s, ".i2p") || EndsWith(s, ".loki")
  }

  predicate IsLocalName(s: string) { s == "localhost" || s == "localhost.localdomain" }

  lemma HashIsBase32(s: string, size: nat)
    ensures IsHash(s, size) <==> |s| == size && IsBase32(s)
    ensures IsHash(s, size) ==> '.' !in s
  {
  }

  lemma {:induction false} LastOfName(name: string, last: string)
    requires '.' !in last
    ensures LastLabel(last) == last && LastLabel(name + (['.'] + last)) == last
    decreases |last|
  {
    var s := name + (['.'] + last);
    if last != [] {
      var n := |last| - 1;
      LastOfName(name, last[..n]);
      assert s[..|s| - 1] == name + (['.'] + last[..n]);
      assert last == last[..n] + [last[n]];
    }
  }

  lemma OnionIff(name: string)
    ensures ValidOverlayHostname(name, Tor) <==> IsOnion(name + ".onion")
  {
    var s := name + ".onion";
    if ValidOverlayHostname(name, Tor) {
      var hash, front := LastLabel(name), BeforeLastLabel(name);
      LastLabelEnds(name);
      HashIsBase32(hash, |hash|);
      ValidIffDnsName(front + ".onion");
      assert IsOnionHash(hash);
      if '.' in name {
        assert IsSubdomain(s, front, hash);
      }
    }
    if IsOnion(s) {
      if hash :| IsOnionHash(hash) && s == hash + ".onion" {
        assert name == s[..|name|] == hash;
        HashIsBase32(hash, |hash|);
        LastOfName([], hash);
      } else {
        var front, hash :| IsSubdomain(s, front, hash);
        assert name == s[..|name|] == front + (['.'] + hash);
        HashIsBase32(hash, |hash|);
        LastOfName(front, hash);
        ValidIffDnsName(front + ".onion");
        assert name[|front|] == '.';
        assert BeforeLastLabel(name) == front;
      }
    }
  }

  lemma EndsOfConcat(name: string, end: string, longer: string)
    requires longer == ".b32" + end
    ensures EndsWith(name + end, end) && (name + end)[..|name|] == name
    ensures EndsWith(name + end, longer) <==> EndsWith(name, ".b32")
  {
    var s := name + end;
    if |name| >= 4 {
      assert s[|s| - |longer|..] == name[|name| - 4..] + end;
      assert longer[..4] == ".b32";
      assert (name[|name| - 4..] + end)[..4] == name[|name| - 4..];
    }
  }

  lemma I2pIff(name: string)
    ensures ValidOverlayHostname(name, I2p) <==> IsI2p(name + ".i2p")
  {
    var s := name + ".i2p";
    EndsOfConcat(name, ".i2p", ".b32.i2p");
    ValidIffDnsName(s);
    if IsDnsName(s) {
      NamesStartWithALabel(s);
    }
    if EndsWith(name, ".b32") {
      var hash := name[..|name| - 4];
      assert name == hash + ".b32";
      assert s == hash + ".b32.i2p";
      HashIsBase32(hash, 52);
    }
    if hash :| IsHash(hash, 52) && s == hash + ".b32.i2p" {
      assert name == s[..|name|] == hash + ".b32";
      assert name[..|name| - 4] == hash && EndsWith(name, ".b32");
      HashIsBase32(hash, 52);
    }
  }

  lemma NamesStartWithALabel(s: string)
    requires IsDnsName(s)
    ensures s != [] && s[0] != '.'
  {
    var labels :| IsDnsNameOf(s, labels);
    assert s == labels[0] + (['.'] + Join(labels[1..], '.'));
    assert s[0] == labels[0][0];
  }

  lemma LokiIff(name: string)
    ensures ValidOverlayHostname(name, Loki) <==> IsLokinet(name + ".loki")
  {
    var s := name + ".loki";
    HashIsBase32(name, 52);
    if hash :| IsHash(hash, 52) && s == hash + ".loki" {
      assert name == s[..|name|] == hash;
    }
  }

  /** The end of an overlay name, and what precedes it. */
  lemma OverlayParts(s: string, end: string)
    requires EndsWith(s, end)
    ensures s == s[..|s| - |end|] + end
  {
    assert s == s[..|s| - |end|] + s[|s| - |end|..];
  }

  lemma OneEnd(s: string)
    ensures EndsWith(s, ".onion") ==> !EndsWith(s, ".i2p") && !EndsWith(s, ".loki")
    ensures EndsWith(s, ".i2p") ==> !EndsWith(s, ".loki")
  {
    if EndsWith(s, ".onion") {
      EndsWithLast(s, ".onion");
    }
    if EndsWith(s, ".i2p") {
      EndsWithLast(s, ".i2p");
    }
    if EndsWith(s, ".loki") {
      EndsWithLast(s, ".loki");
    }
  }

  lemma OverlayNamesEnd(s: string)
    ensures IsOnion(s) ==> EndsWith(s, ".onion")
    ensures IsI2p(s) ==> EndsWith(s, ".i2p")
    ensures IsLokinet(s) ==> EndsWith(s, ".loki")
  {
    if hash :| IsHash(hash, 52) && s == hash + ".b32.i2p" {
      assert s == (hash + ".b32") + ".i2p";
    }
  }

  /** The network of a host without brackets, in lower case. */
  lemma NetworkIsItsForm(ip: IpParser, s: string)
    ensures Classify(ip, s) == Tor <==> IsOnion(s)
    ensures Classify(ip, s) == I2p <==> IsI2p(s)
    ensures Classify(ip, s) == Loki <==> IsLokinet(s)
    ensures Classify(ip, s) == Local <==>
              !HasOverlayEnd(s) && (IsLocalName(s) || (ip(s).Some? && ip(s).value.local))
    ensures Classify(ip, s) == Clearnet <==>
              && !HasOverlayEnd(s) && !IsLocalName(s)
              && (if ip(s).Some? then !ip(s).value.local else IsDnsName(s))
  {
    OneEnd(s);
    OverlayNamesEnd(s);
    ValidIffDnsName(s);
    if EndsWith(s, ".onion") {
      OverlayParts(s, ".onion");
      OnionIff(s[..|s| - 6]);
    } else if EndsWith(s, ".i2p") {
      OverlayParts(s, ".i2p");
      I2pIff(s[..|s| - 4]);
    } else if EndsWith(s, ".loki") {
      OverlayParts(s, ".loki");
      LokiIff(s[..|s| - 5]);
    }
  }
}
