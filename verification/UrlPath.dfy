/** The path of a relay URL: percent-encoding, dot segments, slashes. */
module UrlPath {
  import opened Nostr
  import opened Strings

  predicate IsHex(c: char) {
    '0' <= c <= '9' || 'a' <= c <= 'f' || 'A' <= c <= 'F'
  }

  function HexValue(c: char): nat
    requires IsHex(c)
  {
    if c <= '9' then c as int - '0' as int
    else if c <= 'F' then c as int - 'A' as int + 10
    else c as int - 'a' as int + 10
  }

  predicate StartsTriple(s: string) {
    |s| >= 3 && s[0] == '%' && IsHex(s[1]) && IsHex(s[2])
  }

  /** The encoded byte. */
  function Byte(s: string): (b: nat)
    requires StartsTriple(s)
    ensures b < 256
  {
    16 * HexValue(s[1]) + HexValue(s[2])
  }

  /** The bits of a continuation byte at the start of `s`, if one in the range is there. */
  function Continuation(s: string, low: nat, high: nat): Option<nat>
    requires 0x80 <= low <= high < 0xC0
  {
    if StartsTriple(s) && low <= Byte(s) <= high then Some(Byte(s) - 0x80) else None
  }

  const REPLACEMENT := '\U{FFFD}'

  /** The Unicode character of this number. */
  function Scalar(n: nat): char {
    if n < 0xD800 || 0xE000 <= n < 0x110000 then n as char else REPLACEMENT
  }

  /**
   The character that the encoded bytes at the start of `s` denote, and how many of
   them it takes: section 3 of RFC 3629. A sequence that is cut short becomes one
   replacement character.
   */
  function EncodedChar(s: string): (r: (char, nat))
    requires StartsTriple(s)
    ensures 1 <= r.1 && 3 * r.1 <= |s|
    ensures r.0 < '\U{0080}' ==> r.1 == 1
  {
    var b := Byte(s);
    if b < 0x80 then (b as char, 1)
    else if 0xC2 <= b <= 0xDF then
      match Continuation(s[3..], 0x80, 0xBF)
      case None => (REPLACEMENT, 1)
      case Some(c) => (Scalar((b - 0xC0) * 0x40 + c), 2)
    else if 0xE0 <= b <= 0xEF then
      match Continuation(s[3..], if b == 0xE0 then 0xA0 else 0x80, if b == 0xED then 0x9F else 0xBF)
      case None => (REPLACEMENT, 1)
      case Some(c) =>
        (match Continuation(s[6..], 0x80, 0xBF)
         case None => (REPLACEMENT, 2)
         case Some(d) => (Scalar((b - 0xE0) * 0x1000 + c * 0x40 + d), 3))
    else if 0xF0 <= b <= 0xF4 then
      match Continuation(s[3..], if b == 0xF0 then 0x90 else 0x80, if b == 0xF4 then 0x8F else 0xBF)
      case None => (REPLACEMENT, 1)
      case Some(c) =>
        (match Continuation(s[6..], 0x80, 0xBF)
         case None => (REPLACEMENT, 2)
         case Some(d) =>
           (match Continuation(s[9..], 0x80, 0xBF)
            case None => (REPLACEMENT, 3)
            case Some(e) => (Scalar((b - 0xF0) * 0x40000 + c * 0x1000 + d * 0x40 + e), 4)))
    else (REPLACEMENT, 1)
  }

  /** Percent-decoding of ASCII text to UTF-8. */
  function Unquote(s: string): string {
    if s == [] then []
    else if StartsTriple(s) then [EncodedChar(s).0] + Unquote(s[3 * EncodedChar(s).1..])
    else [s[0]] + Unquote(s[1..])
  }

  /** The digits of an encoded character. */
  lemma EncodedDigits(s: string)
    requires StartsTriple(s)
    ensures var n := 3 * EncodedChar(s).1;
            '/' !in s[..n] && '%' in s[..n]
  {
    var n := 3 * EncodedChar(s).1;
    assert s[..n][0] == '%';
    BytesInARow(s);
    TriplesHaveDigits(s, EncodedChar(s).1);
  }

  /** So many encoded bytes in a row. */
  predicate StartsTriples(s: string, n: nat) {
    n == 0 || (StartsTriple(s) && StartsTriples(s[3..], n - 1))
  }

  lemma BytesInARow(s: string)
    requires StartsTriple(s)
    ensures StartsTriples(s, EncodedChar(s).1)
  {
    var n := EncodedChar(s).1;
    assert n >= 2 ==> StartsTriple(s[3..]);
    assert n >= 3 ==> s[3..][3..] == s[6..] && StartsTriple(s[6..]);
    assert n >= 4 ==> s[6..][3..] == s[9..] && StartsTriple(s[9..]);
    assert n == 1 || n == 2 || n == 3 || n == 4;
  }

  lemma {:induction false} TriplesHaveDigits(s: string, n: nat)
    requires StartsTriples(s, n) && 3 * n <= |s|
    ensures '/' !in s[..3 * n]
  {
    if n > 0 {
      TriplesHaveDigits(s[3..], n - 1);
      assert s[..3 * n] == [s[0], s[1], s[2]] + s[3..][..3 * (n - 1)];
    }
  }

  function UpperHex(c: char): char {
    if 'a' <= c <= 'f' then (c as int - 32) as char else c
  }

  /** Case normalization of percent-encodings, section 6.2.2.1 of RFC 3986. */
  function UpperTriples(s: string): string {
    if s == [] then []
    else if StartsTriple(s) then ['%'] + ([UpperHex(s[1])] + ([UpperHex(s[2])] + UpperTriples(s[3..])))
    else [s[0]] + UpperTriples(s[1..])
  }

  // ----- Dot segments -----

  function WithoutDots(segments: seq<string>, output: seq<string>): seq<string>
    decreases |segments|
  {
    if segments == [] then output
    else if segments[0] == "." then WithoutDots(segments[1..], output)
    else if segments[0] != ".." then WithoutDots(segments[1..], output + [segments[0]])
    else WithoutDots(segments[1..], if output == [] then [] else output[..|output| - 1])
  }

  /** The removal of dot segments, section 5.2.4 of RFC 3986. */
  function RemoveDotSegments(s: string): string {
    var output := WithoutDots(Split(s, '/'), []);
    var rooted := if s != [] && s[0] == '/' && (output == [] || output[0] != []) then [[]] + output else output;
    var closed := if EndsWith(s, "/.") || EndsWith(s, "/..") then rooted + [[]] else rooted;
    Join(closed, '/')
  }

  predicate HasDotSegment(s: string) {
    "." in Split(s, '/') || ".." in Split(s, '/')
  }

  lemma {:induction false} WithoutDotsKeeps(segments: seq<string>, output: seq<string>)
    requires "." !in segments && ".." !in segments
    ensures WithoutDots(segments, output) == output + segments
    decreases |segments|
  {
    if segments != [] {
      WithoutDotsKeeps(segments[1..], output + [segments[0]]);
    }
  }

  /** The last segment is not the first one. */
  lemma {:induction false} LastIs(s: string, last: string) returns (i: nat)
    requires '/' !in last && EndsWith(s, ['/'] + last)
    ensures 0 < i < |Split(s, '/')| && Split(s, '/')[i] == last
  {
    if |s| == |last| + 1 {
      assert s == ['/'] + last && s[1..] == last;
      SplitNone(last, '/');
      i := 1;
    } else {
      assert s[1..][|s| - 1 - |last| - 1..] == ['/'] + last;
      i := LastIs(s[1..], last);
      if s[0] == '/' {
        i := i + 1;
      }
    }
  }

  /** A path without dot segments is left as it is. */
  lemma NoDotsAreRemoved(s: string)
    requires !HasDotSegment(s)
    ensures RemoveDotSegments(s) == s
  {
    var parts := Split(s, '/');
    WithoutDotsKeeps(parts, []);
    assert [] + parts == parts;
    JoinOfSplit(s, '/');
    if EndsWith(s, "/.") {
      var i := LastIs(s, ".");
    }
    if EndsWith(s, "/..") {
      var i := LastIs(s, "..");
    }
  }

  // ----- Slashes -----

  predicate DoubleSlashAt(s: string, i: nat) {
    i + 1 < |s| && s[i] == '/' && s[i + 1] == '/'
  }

  predicate HasDoubleSlash(s: string) {
    exists i: nat | i < |s| :: DoubleSlashAt(s, i)
  }

  /** `s.replace("//", "/")`: from the left, without looking at the result again. */
  function ReplaceDoubleSlashes(s: string): (r: string)
    ensures |r| <= |s|
  {
    if |s| < 2 then s
    else if s[0] == '/' && s[1] == '/' then ['/'] + ReplaceDoubleSlashes(s[2..])
    else [s[0]] + ReplaceDoubleSlashes(s[1..])
  }

  /** Every run of slashes as one slash. */
  function Collapse(s: string): string {
    if |s| < 2 then s
    else if s[0] == '/' && s[1] == '/' then Collapse(s[1..])
    else [s[0]] + Collapse(s[1..])
  }

  lemma {:induction false} CollapseFirst(s: string)
    ensures Collapse(s) == [] <==> s == []
    ensures s != [] ==> Collapse(s)[0] == s[0]
  {
    if |s| >= 2 {
      CollapseFirst(s[1..]);
    }
  }

  lemma {:induction false} CollapsedHasNoDoubleSlash(s: string)
    ensures !HasDoubleSlash(Collapse(s))
  {
    if |s| >= 2 {
      CollapsedHasNoDoubleSlash(s[1..]);
      CollapseFirst(s[1..]);
      if !(s[0] == '/' && s[1] == '/') {
        forall i: nat | i < |Collapse(s)| ensures !DoubleSlashAt(Collapse(s), i) {
          assert i > 0 ==> !DoubleSlashAt(Collapse(s[1..]), i - 1);
        }
      }
    }
  }

  lemma {:induction false} SimpleIsCollapsed(s: string)
    requires !HasDoubleSlash(s)
    ensures Collapse(s) == s
  {
    if |s| >= 2 {
      assert !DoubleSlashAt(s, 0);
      forall i: nat | i < |s[1..]| ensures !DoubleSlashAt(s[1..], i) {
        assert !DoubleSlashAt(s, i + 1);
      }
      SimpleIsCollapsed(s[1..]);
    }
  }

  /** A slash in front of collapsed text. */
  lemma CollapseSlash(a: string, b: string)
    requires Collapse(a) == Collapse(b)
    ensures Collapse(['/'] + a) == Collapse(['/'] + b)
  {
    CollapseFirst(a);
    CollapseFirst(b);
    assert (['/'] + a)[1..] == a && (['/'] + b)[1..] == b;
  }

  lemma CollapseOther(c: char, a: string, b: string)
    requires c != '/' && Collapse(a) == Collapse(b)
    ensures Collapse([c] + a) == Collapse([c] + b)
  {
    CollapseFirst(a);
    CollapseFirst(b);
    assert ([c] + a)[1..] == a && ([c] + b)[1..] == b;
  }

  lemma {:induction false} ReplaceKeepsCollapse(s: string)
    ensures Collapse(ReplaceDoubleSlashes(s)) == Collapse(s)
    ensures HasDoubleSlash(s) ==> |ReplaceDoubleSlashes(s)| < |s|
  {
    if |s| >= 2 {
      if s[0] == '/' && s[1] == '/' {
        ReplaceKeepsCollapse(s[2..]);
        CollapseSlash(ReplaceDoubleSlashes(s[2..]), s[2..]);
        assert ['/'] + s[2..] == s[1..];
      } else {
        ReplaceKeepsCollapse(s[1..]);
        if s[0] == '/' {
          CollapseSlash(ReplaceDoubleSlashes(s[1..]), s[1..]);
        } else {
          CollapseOther(s[0], ReplaceDoubleSlashes(s[1..]), s[1..]);
        }
        assert [s[0]] + s[1..] == s;
        if HasDoubleSlash(s) {
          var i: nat :| i < |s| && DoubleSlashAt(s, i);
          assert DoubleSlashAt(s[1..], i - 1);
        }
      }
    }
  }

  // ----- Segments -----

  predicate IsAlnum(c: char) {
    'a' <= c <= 'z' || 'A' <= c <= 'Z' || '0' <= c <= '9'
  }

  predicate IsPathChar(c: char) {
    IsAlnum(c) || c in "-._~:"
  }

  predicate GoodSegment(s: string) {
    s == [] || (IsAlnum(s[0]) && IsAlnum(s[|s| - 1]) && forall i :: 0 <= i < |s| ==> IsPathChar(s[i]))
  }

  predicate GoodSegments(decoded: string) {
    forall part :: part in Split(decoded, '/') ==> GoodSegment(part)
  }

  /**
   The sanitized path: slash runs collapsed, trailing slashes removed, and nothing at all
   if a segment is not good.
   */
  function SanitizedPath(raw: string): string {
    var path := TrimRight(Collapse(raw), '/');
    if GoodSegments(Unquote(path)) then path else []
  }

  method SanitizePath(rawPath: string) returns (path: string)
    ensures path == SanitizedPath(rawPath)
  {
    path := rawPath;
    while HasDoubleSlash(path)
      invariant Collapse(path) == Collapse(rawPath)
      decreases |path|
    {
      ReplaceKeepsCollapse(path);
      path := ReplaceDoubleSlashes(path);
    }
    SimpleIsCollapsed(path);
    path := TrimRight(path, '/');
    if path == [] {
      return [];
    }
    var segments := Split(Unquote(path), '/');
    if !(forall s :: s in segments ==> GoodSegment(s)) {
      path := [];
    }
  }

  // ----- A sanitized path is in normal form -----

  predicate LowerTripleAt(s: string, i: nat) {
    && i + 2 < |s| && s[i] == '%' && IsHex(s[i + 1]) && IsHex(s[i + 2])
    && ('a' <= s[i + 1] <= 'f' || 'a' <= s[i + 2] <= 'f')
  }

  /** No percent-encoding with a lower-case digit. */
  ghost predicate UpperOnly(s: string) {
    forall i: nat :: !LowerTripleAt(s, i)
  }

  predicate ValidAt(s: string, i: nat)
    requires i < |s|
  {
    IsPathChar(s[i]) || s[i] in "/!$&'()*+,;=@" || (s[i] == '%' && i + 2 < |s| && IsHex(s[i + 1]) && IsHex(s[i + 2]))
  }

  /** The characters of a path, with well-formed percent-encodings: section 3.3 of RFC 3986. */
  predicate ValidPath(s: string) {
    forall i: nat | i < |s| :: ValidAt(s, i)
  }

  /** What a path is after normalization. */
  function NormalizedPath(s: string): string {
    RemoveDotSegments(UpperTriples(s))
  }

  lemma UpperTail(s: string, n: nat)
    requires UpperOnly(s) && n <= |s|
    ensures UpperOnly(s[n..])
  {
    forall i: nat ensures !LowerTripleAt(s[n..], i) {
      assert !LowerTripleAt(s, i + n);
    }
  }

  lemma UpperPrefix(s: string, p: string)
    requires UpperOnly(s) && p <= s
    ensures UpperOnly(p)
  {
    forall i: nat ensures !LowerTripleAt(p, i) {
      assert !LowerTripleAt(s, i);
    }
  }

  /** One more character in front. */
  lemma UpperMore(c: char, s: string)
    requires UpperOnly(s) && !LowerTripleAt([c] + s, 0)
    ensures UpperOnly([c] + s)
  {
    forall i: nat ensures !LowerTripleAt([c] + s, i) {
      if i > 0 {
        assert !LowerTripleAt(s, i - 1);
      }
    }
  }

  lemma {:induction false} UpperOnlyIsFixed(s: string)
    requires UpperOnly(s)
    ensures UpperTriples(s) == s
  {
    if StartsTriple(s) {
      assert !LowerTripleAt(s, 0);
      UpperTail(s, 3);
      UpperOnlyIsFixed(s[3..]);
      assert ['%'] + ([s[1]] + ([s[2]] + s[3..])) == s;
    } else if s != [] {
      UpperTail(s, 1);
      UpperOnlyIsFixed(s[1..]);
    }
  }

  lemma {:induction false} TriplesBecomeUpper(s: string)
    ensures UpperOnly(UpperTriples(s))
  {
    if StartsTriple(s) {
      var r := UpperTriples(s[3..]);
      TriplesBecomeUpper(s[3..]);
      UpperMore(UpperHex(s[2]), r);
      UpperMore(UpperHex(s[1]), [UpperHex(s[2])] + r);
      UpperMore('%', [UpperHex(s[1])] + ([UpperHex(s[2])] + r));
    } else if s != [] {
      TriplesBecomeUpper(s[1..]);
      NoNewTriple(s);
      UpperMore(s[0], UpperTriples(s[1..]));
    }
  }

  lemma FirstOfUpper(s: string)
    ensures UpperTriples(s) == [] <==> s == []
    ensures s != [] ==> UpperTriples(s)[0] == s[0]
  {
  }

  lemma NoNewTriple(s: string)
    requires s != [] && !StartsTriple(s)
    ensures !StartsTriple([s[0]] + UpperTriples(s[1..]))
  {
    var t := [s[0]] + UpperTriples(s[1..]);
    FirstOfUpper(s[1..]);
    if |s| > 1 && IsHex(s[1]) {
      FirstOfUpper(s[2..]);
      assert s[1..][1..] == s[2..];
      assert UpperTriples(s[1..]) == [s[1]] + UpperTriples(s[2..]);
      assert |t| >= 3 ==> t[2] == s[2];
    }
  }

  lemma CollapseStart(s: string)
    requires s != []
    ensures Collapse(s) != [] && Collapse(s)[0] == s[0]
    ensures s[0] != '/' ==> (|Collapse(s)| > 1 <==> |s| > 1) && (|s| > 1 ==> Collapse(s)[1] == s[1])
  {
    CollapseFirst(s);
    if |s| > 1 {
      CollapseFirst(s[1..]);
    }
  }

  lemma {:induction false} CollapseKeepsUpper(s: string)
    requires UpperOnly(s)
    ensures UpperOnly(Collapse(s))
  {
    if |s| >= 2 {
      UpperTail(s, 1);
      CollapseKeepsUpper(s[1..]);
      if !(s[0] == '/' && s[1] == '/') {
        assert !LowerTripleAt(s, 0);
        CollapseStart(s[1..]);
        UpperMore(s[0], Collapse(s[1..]));
      }
    }
  }

  lemma {:induction false} SegmentsAreUpper(s: string)
    requires UpperOnly(s)
    ensures forall part :: part in Split(s, '/') ==> UpperOnly(part)
    ensures Split(s, '/')[0] <= s
  {
    if s != [] {
      UpperTail(s, 1);
      SegmentsAreUpper(s[1..]);
      var rest := Split(s[1..], '/');
      if s[0] != '/' {
        var first := [s[0]] + rest[0];
        assert first <= s;
        UpperPrefix(s, first);
      }
    }
  }

  lemma {:induction false} JoinTwoUpper(a: string, b: string)
    requires UpperOnly(a) && UpperOnly(b)
    ensures UpperOnly(a + (['/'] + b))
  {
    if a == [] {
      assert a + (['/'] + b) == ['/'] + b;
      UpperMore('/', b);
    } else {
      var rest := a[1..] + (['/'] + b);
      UpperTail(a, 1);
      JoinTwoUpper(a[1..], b);
      assert a + (['/'] + b) == [a[0]] + rest;
      assert !LowerTripleAt(a, 0);
      UpperMore(a[0], rest);
    }
  }

  lemma {:induction false} JoinUpper(parts: seq<string>)
    requires forall part :: part in parts ==> UpperOnly(part)
    ensures UpperOnly(Join(parts, '/'))
  {
    if |parts| > 1 {
      JoinUpper(parts[1..]);
      JoinTwoUpper(parts[0], Join(parts[1..], '/'));
    }
  }

  lemma {:induction false} WithoutDotsIsUpper(segments: seq<string>, output: seq<string>)
    requires forall part :: part in segments ==> UpperOnly(part)
    requires forall part :: part in output ==> UpperOnly(part)
    ensures forall part :: part in WithoutDots(segments, output) ==> UpperOnly(part)
    decreases |segments|
  {
    if segments != [] {
      var next := if segments[0] == "." then output
                  else if segments[0] != ".." then output + [segments[0]]
                  else if output == [] then [] else output[..|output| - 1];
      assert forall part :: part in next ==> part in output || part == segments[0];
      WithoutDotsIsUpper(segments[1..], next);
    }
  }

  lemma NormalizedIsUpper(s: string)
    ensures UpperOnly(NormalizedPath(s))
  {
    var u := UpperTriples(s);
    TriplesBecomeUpper(s);
    SegmentsAreUpper(u);
    var output := WithoutDots(Split(u, '/'), []);
    WithoutDotsIsUpper(Split(u, '/'), []);
    var rooted := if u != [] && u[0] == '/' && (output == [] || output[0] != []) then [[]] + output else output;
    var closed := if EndsWith(u, "/.") || EndsWith(u, "/..") then rooted + [[]] else rooted;
    assert forall part :: part in closed ==> part in output || part == [];
    JoinUpper(closed);
  }

  /** A rooted path stays rooted, or becomes empty. */
  lemma NormalizedIsRooted(s: string)
    requires s == [] || s[0] == '/'
    ensures NormalizedPath(s) == [] || NormalizedPath(s)[0] == '/'
  {
    var u := UpperTriples(s);
    FirstOfUpper(s);
    if s == [] {
      SplitNone(u, '/');
      assert WithoutDots([[]], []) == [[]];
    } else {
      var output := WithoutDots(Split(u, '/'), []);
      var rooted := if output == [] || output[0] != [] then [[]] + output else output;
      var closed := if EndsWith(u, "/.") || EndsWith(u, "/..") then rooted + [[]] else rooted;
      assert closed[0] == [];
      assert |closed| > 1 ==> Join(closed, '/') == [] + (['/'] + Join(closed[1..], '/'));
    }
  }

  /** A segment without percent-encodings is a segment of the decoded path. */
  lemma {:induction false} PlainSegments(s: string)
    ensures var a, b := Split(s, '/'), Split(Unquote(s), '/');
            && ('%' !in a[0] ==> a[0] == b[0])
            && forall i :: 0 < i < |a| && '%' !in a[i] ==> a[i] in b[1..]
  {
    var a, b := Split(s, '/'), Split(Unquote(s), '/');
    if StartsTriple(s) {
      var n := 3 * EncodedChar(s).1;
      PlainSegments(s[n..]);
      EncodedDigits(s);
      SplitPrefix(s[..n], s[n..], '/');
      assert s == s[..n] + s[n..];
      assert Unquote(s)[1..] == Unquote(s[n..]);
    } else if s != [] {
      PlainSegments(s[1..]);
      assert Unquote(s)[1..] == Unquote(s[1..]);
    }
  }

  /** An accepted path has no dot segment. */
  lemma NoDotSegment(s: string)
    requires GoodSegments(Unquote(s))
    ensures !HasDotSegment(s)
  {
    var a, b := Split(s, '/'), Split(Unquote(s), '/');
    PlainSegments(s);
    forall part | part in a && '%' !in part ensures part in b {
      var i :| 0 <= i < |a| && a[i] == part;
    }
    assert !GoodSegment(".") && !GoodSegment("..");
  }

  /** The characters of an accepted path, decoded. */
  lemma DecodedChars(decoded: string, c: char)
    requires GoodSegments(decoded) && c in decoded
    ensures c == '/' || IsPathChar(c)
  {
    if c != '/' {
      SplitChars(decoded, '/', c);
    }
  }

  lemma {:induction false} DecodedIsValid(s: string)
    requires forall c :: c in Unquote(s) ==> c == '/' || IsPathChar(c)
    ensures ValidPath(s)
  {
    if StartsTriple(s) {
      assert EncodedChar(s).0 in Unquote(s);
      assert EncodedChar(s).1 == 1;
      assert forall c :: c in Unquote(s[3..]) ==> c in Unquote(s);
      DecodedIsValid(s[3..]);
      assert IsPathChar(s[1]) && IsPathChar(s[2]);
      forall i: nat | i < |s| ensures ValidAt(s, i) {
        if i >= 3 {
          assert ValidAt(s[3..], i - 3);
        }
      }
    } else if s != [] {
      assert s[0] in Unquote(s);
      assert forall c :: c in Unquote(s[1..]) ==> c in Unquote(s);
      DecodedIsValid(s[1..]);
      forall i: nat | i < |s| ensures ValidAt(s, i) {
        if i >= 1 {
          assert ValidAt(s[1..], i - 1);
        }
      }
    }
  }

  lemma EmptyIsNormal()
    ensures GoodSegments(Unquote([])) && UpperOnly([]) && SanitizedPath([]) == []
  {
    assert Split([], '/') == [[]];
  }

  lemma AcceptedIsNormal(p: string)
    requires UpperOnly(p) && GoodSegments(Unquote(p))
    ensures ValidPath(p) && NormalizedPath(p) == p && !HasDotSegment(p)
  {
    NoDotSegment(p);
    UpperOnlyIsFixed(p);
    NoDotsAreRemoved(p);
    forall c | c in Unquote(p) ensures c == '/' || IsPathChar(c) {
      DecodedChars(Unquote(p), c);
    }
    DecodedIsValid(p);
  }

  /**
   A sanitized path is valid, in normal form, and sanitized to itself: no slash runs,
   no trailing slash, no dot segments.
   */
  lemma SanitizedPathIsFixed(raw: string)
    requires UpperOnly(raw) && (raw == [] || raw[0] == '/')
    ensures var p := SanitizedPath(raw);
            && ValidPath(p) && NormalizedPath(p) == p && SanitizedPath(p) == p
            && !HasDotSegment(p) && !HasDoubleSlash(p)
            && (p == [] || (p[0] == '/' && p[|p| - 1] != '/'))
  {
    var collapsed := Collapse(raw);
    CollapsedHasNoDoubleSlash(raw);
    CollapseFirst(raw);
    CollapseKeepsUpper(raw);
    var path := TrimRight(collapsed, '/');
    UpperPrefix(collapsed, path);
    forall i: nat | i < |path| ensures !DoubleSlashAt(path, i) {
      assert !DoubleSlashAt(collapsed, i);
    }
    SimpleIsCollapsed(path);
    EmptyIsNormal();
    AcceptedIsNormal(SanitizedPath(raw));
  }
}
