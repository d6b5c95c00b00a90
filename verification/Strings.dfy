/** Splitting, joining and case of strings. */
module Strings {

  /** What comes before the first `c`, and what follows it. */
  function Before(s: string, c: char): string {
    if s == [] || s[0] == c then [] else [s[0]] + Before(s[1..], c)
  }

  function After(s: string, c: char): string {
    if s == [] then [] else if s[0] == c then s[1..] else After(s[1..], c)
  }

  lemma {:induction false} BeforeAndAfter(s: string, c: char, rest: string)
    requires c !in s
    ensures Before(s + ([c] + rest), c) == s && After(s + ([c] + rest), c) == rest && c in s + ([c] + rest)
    ensures Before(s, c) == s
  {
    var t := s + ([c] + rest);
    if s != [] {
      assert t[1..] == s[1..] + ([c] + rest);
      BeforeAndAfter(s[1..], c, rest);
    } else {
      assert t == [c] + rest && t[1..] == rest;
    }
  }

  /** The characters before the first one in `stops`, and the others. */
  function TakeUntil(s: string, stops: string): string {
    if s == [] || s[0] in stops then [] else [s[0]] + TakeUntil(s[1..], stops)
  }

  function DropUntil(s: string, stops: string): string {
    if s == [] || s[0] in stops then s else DropUntil(s[1..], stops)
  }

  lemma {:induction false} TakeAndDrop(s: string, rest: string, stops: string)
    requires forall c :: c in s ==> c !in stops
    requires rest == [] || rest[0] in stops
    ensures TakeUntil(s + rest, stops) == s && DropUntil(s + rest, stops) == rest
  {
    if s == [] {
      assert s + rest == rest;
    } else {
      assert (s + rest)[1..] == s[1..] + rest;
      TakeAndDrop(s[1..], rest, stops);
    }
  }

  function Split(s: string, c: char): (parts: seq<string>)
    ensures parts != []
  {
    if s == [] then [[]]
    else
      var rest := Split(s[1..], c);
      if s[0] == c then [[]] + rest else [[s[0]] + rest[0]] + rest[1..]
  }

  function Join(parts: seq<string>, c: char): string {
    if parts == [] then []
    else if |parts| == 1 then parts[0]
    else parts[0] + ([c] + Join(parts[1..], c))
  }

  lemma {:induction false} JoinOfSplit(s: string, c: char)
    ensures Join(Split(s, c), c) == s
  {
    if s != [] {
      JoinOfSplit(s[1..], c);
      var rest := Split(s[1..], c);
      var parts := Split(s, c);
      if s[0] == c {
        assert parts[1..] == rest;
      } else if |rest| > 1 {
        assert parts[1..] == rest[1..];
        assert parts[0] + ([c] + Join(rest[1..], c)) == [s[0]] + (rest[0] + ([c] + Join(rest[1..], c)));
      } else {
        assert parts == [[s[0]] + rest[0]];
      }
    }
  }

  lemma {:induction false} SplitNone(s: string, c: char)
    requires c !in s
    ensures Split(s, c) == [s]
  {
    if s != [] {
      SplitNone(s[1..], c);
      assert [s[0]] + s[1..] == s;
    }
  }

  lemma {:induction false} SplitFirst(a: string, c: char, b: string)
    requires c !in a
    ensures Split(a + ([c] + b), c) == [a] + Split(b, c)
  {
    var s := a + ([c] + b);
    if a == [] {
      assert s == [c] + b && s[1..] == b;
    } else {
      assert s[1..] == a[1..] + ([c] + b);
      SplitFirst(a[1..], c, b);
      assert [a[0]] + a[1..] == a;
    }
  }

  lemma PartsInFront(d: char, parts: seq<string>, more: seq<string>)
    requires parts != []
    ensures [[]] + (parts + more) == ([[]] + parts) + more
    ensures [[d] + (parts + more)[0]] + (parts + more)[1..] == ([[d] + parts[0]] + parts[1..]) + more
  {
  }

  lemma {:induction false} SplitConcat(a: string, c: char, b: string)
    ensures Split(a + ([c] + b), c) == Split(a, c) + Split(b, c)
  {
    var s := a + ([c] + b);
    if a == [] {
      assert s == [c] + b && s[1..] == b;
    } else {
      SplitConcat(a[1..], c, b);
      assert s[1..] == a[1..] + ([c] + b);
      PartsInFront(a[0], Split(a[1..], c), Split(b, c));
    }
  }

  /** The characters of a string are those of its parts, and the separator. */
  lemma {:induction false} SplitChars(s: string, c: char, d: char)
    requires d in s && d != c
    ensures exists part :: part in Split(s, c) && d in part
  {
    var rest := Split(s[1..], c);
    var parts := Split(s, c);
    if d in s[1..] {
      SplitChars(s[1..], c, d);
      var part :| part in rest && d in part;
      var i :| 0 <= i < |rest| && rest[i] == part;
      if s[0] == c {
        assert parts[i + 1] == part;
      } else if i == 0 {
        assert d in parts[0];
      } else {
        assert parts[i] == part;
      }
    } else {
      assert d == s[0] && d in parts[0];
    }
  }

  predicate EndsWith(s: string, end: string) {
    |s| >= |end| && s[|s| - |end|..] == end
  }

  /** Without the trailing occurrences of `c`. */
  function TrimRight(s: string, c: char): (r: string)
    ensures r <= s && (r != [] ==> r[|r| - 1] != c)
  {
    if s != [] && s[|s| - 1] == c then TrimRight(s[..|s| - 1], c) else s
  }

  predicate IsAscii(s: string) {
    forall i :: 0 <= i < |s| ==> s[i] < '\U{0080}'
  }

  lemma AsciiConcat(a: string, b: string)
    requires IsAscii(a) && IsAscii(b)
    ensures IsAscii(a + b)
  {
  }

  /** The KELVIN SIGN, the one character outside ASCII whose lower-case form is ASCII. */
  const KELVIN := '\U{212A}'

  /** Lower case, up to characters outside ASCII that keep one: they are left alone here. */
  function LowerChar(c: char): char {
    if 'A' <= c <= 'Z' then (c as int + 32) as char else if c == KELVIN then 'k' else c
  }

  predicate IsUpper(c: char) {
    'A' <= c <= 'Z' || c == KELVIN
  }

  function Lower(s: string): (r: string)
    ensures |r| == |s|
    ensures forall i :: 0 <= i < |s| ==> r[i] == LowerChar(s[i])
  {
    if s == [] then [] else [LowerChar(s[0])] + Lower(s[1..])
  }

  predicate HasUpper(s: string) {
    exists i :: 0 <= i < |s| && IsUpper(s[i])
  }

  lemma LowerIsFixed(s: string)
    ensures Lower(s) == s <==> !HasUpper(s)
    ensures !HasUpper(Lower(s)) && Lower(Lower(s)) == Lower(s)
  {
  }

  lemma LowerContains(s: string, c: char)
    requires !IsUpper(c) && !('a' <= c <= 'z')
    ensures c in Lower(s) <==> c in s
  {
    var low := Lower(s);
    if c in low {
      var i :| 0 <= i < |low| && low[i] == c;
      assert s[i] == c;
    }
    if c in s {
      var i :| 0 <= i < |s| && s[i] == c;
      assert low[i] == c;
    }
  }

  lemma LowerConcat(a: string, b: string)
    ensures Lower(a + b) == Lower(a) + Lower(b)
  {
  }

  lemma {:induction false} LowerJoin(a: seq<string>, b: seq<string>, c: char)
    requires |a| == |b| && forall i :: 0 <= i < |a| ==> Lower(a[i]) == Lower(b[i])
    ensures Lower(Join(a, c)) == Lower(Join(b, c))
  {
    if |a| > 1 {
      LowerJoin(a[1..], b[1..], c);
      LowerConcat([c], Join(a[1..], c));
      LowerConcat([c], Join(b[1..], c));
      LowerConcat(a[0], [c] + Join(a[1..], c));
      LowerConcat(b[0], [c] + Join(b[1..], c));
    }
  }

  ghost predicate LowerParts(low: seq<string>, parts: seq<string>) {
    |low| == |parts| && forall i :: 0 <= i < |parts| ==> low[i] == Lower(parts[i])
  }

  /** Lower case does not move a separator that is no letter. */
  lemma {:induction false} SplitLower(s: string, c: char)
    requires !IsUpper(c) && !('a' <= c <= 'z')
    ensures LowerParts(Split(Lower(s), c), Split(s, c))
  {
    if s == [] {
      assert Lower([]) == [];
    } else {
      SplitLower(s[1..], c);
      assert Lower(s)[1..] == Lower(s[1..]);
      OneMorePart(s[0], Split(s[1..], c), Split(Lower(s[1..]), c));
    }
  }

  lemma OneMorePart(d: char, rest: seq<string>, low: seq<string>)
    requires rest != [] && LowerParts(low, rest)
    ensures LowerParts([[]] + low, [[]] + rest)
    ensures LowerParts([[LowerChar(d)] + low[0]] + low[1..], [[d] + rest[0]] + rest[1..])
  {
    LowerConcat([d], rest[0]);
    assert Lower([d]) == [LowerChar(d)];
  }

  /** Text without the separator, in front. */
  lemma {:induction false} SplitPrefix(a: string, s: string, c: char)
    requires c !in a
    ensures Split(a + s, c) == [a + Split(s, c)[0]] + Split(s, c)[1..]
  {
    if a == [] {
      assert a + s == s;
      assert [] + Split(s, c)[0] == Split(s, c)[0];
    } else {
      SplitPrefix(a[1..], s, c);
      assert (a + s)[1..] == a[1..] + s;
      assert [a[0]] + (a[1..] + Split(s, c)[0]) == a + Split(s, c)[0];
    }
  }

  /** A part has no separator, and only characters of the whole. */
  lemma {:induction false} PartChars(s: string, c: char)
    ensures forall part, d :: part in Split(s, c) && d in part ==> d in s && d != c
  {
    if s != [] {
      PartChars(s[1..], c);
      var rest := Split(s[1..], c);
      assert forall d :: d in s[1..] ==> d in s;
      assert rest[0] in rest;
      assert forall part :: part in Split(s, c) ==> part == [] || part in rest || part == [s[0]] + rest[0];
    }
  }
}
