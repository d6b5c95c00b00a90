/** The key=value text of structured log records, and a parser for it. */
module KvPairs {
  import opened Batches
  import opened Decimal
  import opened Nostr
  import opened Strings

  datatype Pair = Pair(key: string, value: string)

  function Replace(s: string, c: char, with: string): string {
    if s == [] then [] else (if s[0] == c then with else [s[0]]) + Replace(s[1..], c, with)
  }

  function Escaped(s: string): string {
    Replace(Replace(s, '\\', "\\\\"), '"', "\\\"")
  }

  predicate NeedsQuotes(s: string) {
    s == [] || ' ' in s || '=' in s || '"' in s || '\'' in s
  }

  /** Truncation; a limit of zero, like none, disables it. */
  function Shortened(s: string, maxLength: Option<nat>): string {
    if maxLength.Some? && maxLength.value > 0 && |s| > maxLength.value
    then s[..maxLength.value] + "...<truncated " + Digits(|s| - maxLength.value) + " chars>"
    else s
  }

  function Shown(s: string): string {
    if NeedsQuotes(s) then ['"'] + Escaped(s) + ['"'] else s
  }

  function Part(p: Pair, maxLength: Option<nat>): string {
    p.key + (['='] + Shown(Shortened(p.value, maxLength)))
  }

  function Parts(pairs: seq<Pair>, maxLength: Option<nat>): seq<string> {
    if pairs == [] then [] else [Part(pairs[0], maxLength)] + Parts(pairs[1..], maxLength)
  }

  function Formatted(pairs: seq<Pair>, maxLength: Option<nat>, prefix: string): string {
    if pairs == [] then [] else prefix + Join(Parts(pairs, maxLength), ' ')
  }

  lemma PartsMore(parts: seq<string>, pairs: seq<Pair>, i: nat, maxLength: Option<nat>)
    requires i < |pairs|
    ensures parts + Parts(pairs[i..], maxLength)
         == parts + [Part(pairs[i], maxLength)] + Parts(pairs[i + 1..], maxLength)
  {
    assert pairs[i..][1..] == pairs[i + 1..];
  }

  method FormatKvPairs(pairs: seq<Pair>, maxLength: Option<nat>, prefix: string) returns (text: string)
    ensures text == Formatted(pairs, maxLength, prefix)
  {
    if pairs == [] {
      return [];
    }
    var parts := [];
    for i := 0 to |pairs|
      invariant parts + Parts(pairs[i..], maxLength) == Parts(pairs, maxLength)
    {
      var s := Shortened(pairs[i].value, maxLength);
      var part;
      if NeedsQuotes(s) {
        part := pairs[i].key + (['='] + (['"'] + Escaped(s) + ['"']));
      } else {
        part := pairs[i].key + (['='] + s);
      }
      PartsMore(parts, pairs, i, maxLength);
      parts := parts + [part];
    }
    assert parts + [] == parts;
    text := prefix + Join(parts, ' ');
  }

  // ----- The parser -----

  /** A quoted value up to its closing quote, and what follows. */
  datatype Quoted = Quoted(value: string, rest: string) | Unclosed

  function Unquote(s: string): Quoted {
    if s == [] then Unclosed
    else if s[0] == '"' then Quoted([], s[1..])
    else if s[0] == '\\' then
      if |s| == 1 then Unclosed else Prefixed(s[1], Unquote(s[2..]))
    else Prefixed(s[0], Unquote(s[1..]))
  }

  function Prefixed(c: char, q: Quoted): Quoted {
    if q.Quoted? then Quoted([c] + q.value, q.rest) else q
  }

  /** One pair, and what follows it. */
  datatype Read = Read(pair: Pair, rest: string) | Malformed

  function ReadPair(s: string): Read {
    if '=' !in s then Malformed else ReadValue(Before(s, '='), After(s, '='))
  }

  function ReadValue(key: string, v: string): Read {
    if v != [] && v[0] == '"' then
      var q := Unquote(v[1..]);
      if q.Quoted? then Read(Pair(key, q.value), q.rest) else Malformed
    else Read(Pair(key, Before(v, ' ')), if ' ' in v then [' '] + After(v, ' ') else [])
  }

  /** Pairs separated by one space. */
  function ReadPairs(s: string, fuel: nat): Option<seq<Pair>>
    decreases fuel
  {
    if fuel == 0 then None
    else
      match ReadPair(s)
      case Malformed => None
      case Read(pair, rest) =>
        if rest == [] then Some([pair])
        else if rest[0] != ' ' then None
        else
          var others := ReadPairs(rest[1..], fuel - 1);
          if others.Some? then Some([pair] + others.value) else None
  }

  /** The pairs of a text that was printed with this prefix; every pair takes a character at least. */
  function Parsed(text: string, prefix: string): Option<seq<Pair>> {
    if text == [] then Some([])
    else if |text| < |prefix| || text[..|prefix|] != prefix then None
    else ReadPairs(text[|prefix|..], |text|)
  }

  // ----- The round trip -----

  /** Both replacements in one pass. */
  function EscapedChar(c: char): string {
    if c == '\\' then "\\\\" else if c == '"' then "\\\"" else [c]
  }

  lemma {:induction false} ReplaceConcat(a: string, b: string, c: char, with: string)
    ensures Replace(a + b, c, with) == Replace(a, c, with) + Replace(b, c, with)
  {
    if a == [] {
      assert a + b == b;
    } else {
      assert (a + b)[1..] == a[1..] + b;
      ReplaceConcat(a[1..], b, c, with);
    }
  }

  lemma EscapedStep(s: string)
    requires s != []
    ensures Escaped(s) == EscapedChar(s[0]) + Escaped(s[1..])
  {
    var first := if s[0] == '\\' then "\\\\" else [s[0]];
    assert Replace(s, '\\', "\\\\") == first + Replace(s[1..], '\\', "\\\\");
    ReplaceConcat(first, Replace(s[1..], '\\', "\\\\"), '"', "\\\"");
    if s[0] == '\\' {
      assert first[1..][1..] == [];
      assert Replace(first[1..], '"', "\\\"") == "\\";
    } else {
      assert first[1..] == [];
    }
    assert Replace(first, '"', "\\\"") == EscapedChar(s[0]);
  }

  lemma UnquoteStep(c: char, tail: string)
    ensures Unquote(EscapedChar(c) + tail) == Prefixed(c, Unquote(tail))
  {
    var t := EscapedChar(c) + tail;
    assert t[|EscapedChar(c)|..] == tail;
  }

  lemma {:induction false} UnquoteEscaped(s: string, rest: string)
    ensures Unquote(Escaped(s) + (['"'] + rest)) == Quoted(s, rest)
  {
    if s == [] {
      assert Escaped(s) + (['"'] + rest) == ['"'] + rest && (['"'] + rest)[1..] == rest;
    } else {
      var tail := Escaped(s[1..]) + (['"'] + rest);
      EscapedStep(s);
      Regroup(EscapedChar(s[0]), Escaped(s[1..]), ['"'] + rest);
      UnquoteStep(s[0], tail);
      UnquoteEscaped(s[1..], rest);
      assert s == [s[0]] + s[1..];
    }
  }

  predicate EndsPair(rest: string) { rest == [] || rest[0] == ' ' }

  lemma ReadQuoted(key: string, s: string, rest: string)
    requires NeedsQuotes(s)
    ensures ReadValue(key, Shown(s) + rest) == Read(Pair(key, s), rest)
  {
    var v := Shown(s) + rest;
    assert v[0] == '"' && v[1..] == Escaped(s) + (['"'] + rest);
    UnquoteEscaped(s, rest);
  }

  lemma ReadPlain(key: string, s: string, rest: string)
    requires !NeedsQuotes(s) && EndsPair(rest)
    ensures ReadValue(key, Shown(s) + rest) == Read(Pair(key, s), rest)
  {
    var v := s + rest;
    assert v[0] == s[0] && s[0] in s;
    if rest == [] {
      assert v == s;
      BeforeAndAfter(s, ' ', []);
    } else {
      assert rest == [' '] + rest[1..];
      BeforeAndAfter(s, ' ', rest[1..]);
    }
  }

  lemma ReadPart(p: Pair, maxLength: Option<nat>, rest: string)
    requires '=' !in p.key && EndsPair(rest)
    ensures ReadPair(Part(p, maxLength) + rest) == Read(Pair(p.key, Shortened(p.value, maxLength)), rest)
  {
    var s := Shortened(p.value, maxLength);
    var v := Shown(s) + rest;
    assert Part(p, maxLength) + rest == p.key + (['='] + v);
    BeforeAndAfter(p.key, '=', v);
    if NeedsQuotes(s) {
      ReadQuoted(p.key, s, rest);
    } else {
      ReadPlain(p.key, s, rest);
    }
  }

  function ShortenedPairs(pairs: seq<Pair>, maxLength: Option<nat>): seq<Pair> {
    if pairs == [] then []
    else [Pair(pairs[0].key, Shortened(pairs[0].value, maxLength))] + ShortenedPairs(pairs[1..], maxLength)
  }

  lemma {:induction false} NothingShortened(pairs: seq<Pair>)
    ensures ShortenedPairs(pairs, None) == pairs
  {
    if pairs != [] {
      NothingShortened(pairs[1..]);
    }
  }

  lemma JoinedStep(pairs: seq<Pair>, maxLength: Option<nat>)
    requires |pairs| > 1
    ensures Join(Parts(pairs, maxLength), ' ')
         == Part(pairs[0], maxLength) + ([' '] + Join(Parts(pairs[1..], maxLength), ' '))
  {
    assert Parts(pairs[1..], maxLength) != [];
    assert Parts(pairs, maxLength)[1..] == Parts(pairs[1..], maxLength);
  }

  lemma {:induction false} ReadJoined(pairs: seq<Pair>, maxLength: Option<nat>, fuel: nat)
    requires pairs != [] && fuel >= |pairs|
    requires forall p :: p in pairs ==> '=' !in p.key
    ensures ReadPairs(Join(Parts(pairs, maxLength), ' '), fuel) == Some(ShortenedPairs(pairs, maxLength))
  {
    if |pairs| == 1 {
      ReadLast(pairs[0], maxLength, fuel);
      JustOne(pairs, maxLength);
    } else {
      JoinedStep(pairs, maxLength);
      ReadJoined(pairs[1..], maxLength, fuel - 1);
      ReadMore(pairs[0], maxLength, Join(Parts(pairs[1..], maxLength), ' '), fuel,
          ShortenedPairs(pairs[1..], maxLength));
    }
  }

  lemma ReadLast(p: Pair, maxLength: Option<nat>, fuel: nat)
    requires '=' !in p.key && fuel > 0
    ensures ReadPairs(Part(p, maxLength), fuel) == Some([Pair(p.key, Shortened(p.value, maxLength))])
  {
    assert Part(p, maxLength) + [] == Part(p, maxLength);
    ReadPart(p, maxLength, []);
  }

  lemma JustOne(pairs: seq<Pair>, maxLength: Option<nat>)
    requires |pairs| == 1
    ensures Join(Parts(pairs, maxLength), ' ') == Part(pairs[0], maxLength)
    ensures ShortenedPairs(pairs, maxLength) == [Pair(pairs[0].key, Shortened(pairs[0].value, maxLength))]
  {
    assert pairs == [pairs[0]] && pairs[1..] == [];
    assert Parts(pairs, maxLength) == [Part(pairs[0], maxLength)];
  }

  lemma ReadMore(p: Pair, maxLength: Option<nat>, others: string, fuel: nat, read: seq<Pair>)
    requires '=' !in p.key && fuel > 0 && ReadPairs(others, fuel - 1) == Some(read)
    ensures ReadPairs(Part(p, maxLength) + ([' '] + others), fuel)
         == Some([Pair(p.key, Shortened(p.value, maxLength))] + read)
  {
    ReadPart(p, maxLength, [' '] + others);
    assert ([' '] + others)[1..] == others;
  }

  lemma {:induction false} JoinedIsLong(pairs: seq<Pair>, maxLength: Option<nat>)
    ensures |Join(Parts(pairs, maxLength), ' ')| >= |pairs|
  {
    if |pairs| > 1 {
      JoinedStep(pairs, maxLength);
      JoinedIsLong(pairs[1..], maxLength);
    }
  }

  /**
   The text determines the pairs, values of any characters included: the parser
   gives them back, each value as it was after truncation.
   */
  lemma ParseIsInverse(pairs: seq<Pair>, maxLength: Option<nat>, prefix: string)
    requires forall p :: p in pairs ==> '=' !in p.key
    ensures Parsed(Formatted(pairs, maxLength, prefix), prefix) == Some(ShortenedPairs(pairs, maxLength))
    ensures maxLength == None ==> Parsed(Formatted(pairs, maxLength, prefix), prefix) == Some(pairs)
  {
    if pairs != [] {
      var body := Join(Parts(pairs, maxLength), ' ');
      var text := prefix + body;
      JoinedIsLong(pairs, maxLength);
      ReadJoined(pairs, maxLength, |text|);
      assert text[..|prefix|] == prefix && text[|prefix|..] == body;
    }
    NothingShortened(pairs);
  }

  // ----- How a value is spelled -----

  /** The quotes and backslashes in it. */
  function Specials(s: string): nat {
    if s == [] then 0 else (if s[0] == '\U{0022}' || s[0] == '\U{005C}' then 1 else 0) + Specials(s[1..])
  }

  lemma {:induction false} EscapedLength(s: string)
    ensures |Escaped(s)| == |s| + Specials(s)
  {
    if s != [] {
      EscapedStep(s);
      EscapedLength(s[1..]);
    }
  }

  /** A value that is too long is cut, and the number of characters left out is written after it. */
  ghost predicate IsCut(text: string, value: string, limit: nat) {
    exists digits :: IsDigits(digits) && digits != [] && digits[0] != '0' && Number(digits) == |value| - limit
      && limit < |value| && text == value[..limit] + "...<truncated " + digits + " chars>"
  }

  lemma CutIsCut(text: string, value: string, limit: nat)
    requires limit < |value| && text == value[..limit] + "...<truncated " + Digits(|value| - limit) + " chars>"
    ensures IsCut(text, value, limit)
  {
    DigitsAreReadable(|value| - limit);
    NoLeadingZero(|value| - limit);
  }

  lemma LongValuesAreCut(value: string, maxLength: Option<nat>)
    ensures var s := Shortened(value, maxLength);
            if maxLength == None || maxLength == Some(0) || |value| <= maxLength.value then s == value
            else IsCut(s, value, maxLength.value)
  {
    if maxLength.Some? && 0 < maxLength.value < |value| {
      CutIsCut(Shortened(value, maxLength), value, maxLength.value);
    }
  }

  /** A character that makes a value ambiguous. */
  predicate Breaks(c: char) {
    c == ' ' || c == '=' || c == '\U{0022}' || c == '\U{0027}'
  }

  /**
   The text of a pair is its key, an equals sign and its value. A value is quoted exactly
   if it is empty or has a space, an equals sign or a quote in it; in quotes, only the
   quotes and backslashes have a backslash added.
   */
  lemma QuotedIfNeeded(p: Pair, maxLength: Option<nat>)
    ensures var s := Shortened(p.value, maxLength);
            if s != [] && forall c :: c in s ==> !Breaks(c) then Part(p, maxLength) == p.key + (['='] + s)
            else exists e :: Part(p, maxLength) == p.key + (['='] + (['"'] + e + ['"']))
                   && |e| == |s| + Specials(s) && Unquote(e + ['"']) == Quoted(s, [])
  {
    var s := Shortened(p.value, maxLength);
    if s == [] || exists c :: c in s && Breaks(c) {
      var e := Escaped(s);
      EscapedLength(s);
      UnquoteEscaped(s, []);
      assert ['"'] + [] == ['"'];
      assert Part(p, maxLength) == p.key + (['='] + (['"'] + e + ['"']));
    }
  }

  /** No pair has no text, and one pair has the prefix and its own. */
  lemma OnePairAlone(p: Pair, maxLength: Option<nat>, prefix: string)
    ensures Formatted([], maxLength, prefix) == []
    ensures Formatted([p], maxLength, prefix) == prefix + Part(p, maxLength)
  {
    JustOne([p], maxLength);
  }

  /** Several pairs are one space apart. */
  lemma PairsAreSpaced(pairs: seq<Pair>, maxLength: Option<nat>, prefix: string, space: string)
    requires |pairs| > 1 && space == [' ']
    ensures Formatted(pairs, maxLength, prefix)
         == (prefix + Part(pairs[0], maxLength)) + Formatted(pairs[1..], maxLength, space)
  {
    JoinedStep(pairs, maxLength);
    Regroup(prefix, Part(pairs[0], maxLength), space + Join(Parts(pairs[1..], maxLength), ' '));
  }
}
