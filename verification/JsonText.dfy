/**
 Compact JSON text with sorted keys and without ASCII escaping. A function named
 `...To` gives the text of its argument followed by `rest`.
 */
module JsonText {
  import opened Decimal
  import opened Json
  import opened JsonReader

  function Hex(n: nat): char
    requires n < 16
  {
    "0123456789abcdef"[n]
  }

  /** The letter of a two-character escape; a space if the character has none. */
  function Letter(c: char): char {
    if c == '"' then '"'
    else if c == '\\' then '\\'
    else if c == '\n' then 'n'
    else if c == '\r' then 'r'
    else if c == '\t' then 't'
    else if c == '\U{000C}' then 'f'
    else if c == '\U{0008}' then 'b'
    else ' '
  }

  function UnicodeTo(n: nat, rest: string): string
    requires n < 256
  {
    ['u'] + (['0'] + (['0'] + ([Hex(n / 16)] + ([Hex(n % 16)] + rest))))
  }

  /** The escapes of section 7 of RFC 8259, in the short form where there is one. */
  function CharTo(c: char, rest: string): string {
    if Letter(c) != ' ' then ['\\'] + ([Letter(c)] + rest)
    else if c < ' ' then ['\\'] + UnicodeTo(c as int, rest)
    else [c] + rest
  }

  /** The escaped characters and the closing quote. */
  function CharsTo(s: string, rest: string): string {
    if s == [] then ['"'] + rest else CharTo(s[0], CharsTo(s[1..], rest))
  }

  function IntToken(i: int): string {
    if i < 0 then ['-'] + Digits(-i) else Digits(i)
  }

  function ValueTo(v: Value, rest: string): string {
    match v
    case Bool(b) => (if b then "true" else "false") + rest
    case Int(i) => IntToken(i) + rest
    case Float(token) => token + rest
    case Str(text) => ['"'] + CharsTo(text, rest)
    case Dict(entries) => ['{'] + if entries.NoEntries? then ['}'] + rest else MembersTo(entries, rest)
    case List(items) => ['['] + if items.NoValues? then [']'] + rest else ItemsTo(items, rest)
    case _ => "null" + rest
  }

  function ItemsTo(vs: Values, rest: string): string
    requires vs.Values?
  {
    ValueTo(vs.head, if vs.tail.NoValues? then [']'] + rest else [','] + ItemsTo(vs.tail, rest))
  }

  function MembersTo(es: Entries, rest: string): string
    requires es.Entries?
  {
    ['"'] + CharsTo(if es.key.StrKey? then es.key.text else [],
      [':'] + ValueTo(es.value, if es.tail.NoEntries? then ['}'] + rest else [','] + MembersTo(es.tail, rest)))
  }

  /** The JSON text of a value. */
  function Text(v: Value): string { ValueTo(v, []) }

  // ----- Characters -----

  lemma UnicodeIsReadBack(n: nat, rest: string)
    requires n < 256
    ensures ReadEscape(UnicodeTo(n, rest)) == Read(n as char, rest)
  {
    var s := UnicodeTo(n, rest);
    assert s[1..][0] == '0' && s[1..][1] == '0' && s[1..][2] == Hex(n / 16) && s[1..][3] == Hex(n % 16);
    assert s[1..][4..] == rest;
    HexIsReadBack(n / 16);
    HexIsReadBack(n % 16);
  }

  lemma HexIsReadBack(n: nat)
    requires n < 16
    ensures HexDigit(Hex(n)) == n && !('A' <= Hex(n) <= 'F')
  {
  }

  lemma CharIsReadBack(c: char, rest: string)
    ensures ReadChar(CharTo(c, rest)) == Read(c, rest) && CharTo(c, rest)[0] != '"'
  {
    var s := CharTo(c, rest);
    if Letter(c) != ' ' {
      assert s[1..] == [Letter(c)] + rest && s[1..][1..] == rest;
    } else if c < ' ' {
      assert s[1..] == UnicodeTo(c as int, rest);
      UnicodeIsReadBack(c as int, rest);
    }
  }

  /** An escaped string is read back, and so is what follows its closing quote. */
  lemma {:induction false} CharsAreReadBack(s: string, rest: string)
    ensures ReadChars(CharsTo(s, rest)) == Read(s, rest)
  {
    if s != [] {
      CharIsReadBack(s[0], CharsTo(s[1..], rest));
      CharsAreReadBack(s[1..], rest);
      assert s == [s[0]] + s[1..];
    }
  }

  /** So an escaped string determines the string and what follows it. */
  lemma CharsAreReadable(s: string, t: string, rest: string, rest': string)
    requires CharsTo(s, rest) == CharsTo(t, rest')
    ensures s == t && rest == rest'
  {
    CharsAreReadBack(s, rest);
    CharsAreReadBack(t, rest');
  }

  predicate HasShortEscape(c: char) {
    || c == '\U{0022}' || c == '\U{005C}' || c == '\U{0008}' || c == '\U{0009}' || c == '\U{000A}'
    || c == '\U{000C}' || c == '\U{000D}'
  }

  /** Nothing is escaped without need, and hexadecimal digits are lower-case. */
  lemma EscapesAreShort(c: char, rest: string)
    ensures var s := CharTo(c, rest);
            && |s| - |rest| == (if HasShortEscape(c) then 2 else if c < '\U{0020}' then 6 else 1)
            && (c < '\U{0020}' ==> forall i :: 0 <= i < |s| - |rest| ==> !('A' <= s[i] <= 'Z'))
  {
    var s := CharTo(c, rest);
    if Letter(c) == ' ' && c < ' ' {
      HexIsReadBack(c as int / 16);
      HexIsReadBack(c as int % 16);
    }
  }

  // ----- Numbers -----

  /** Nothing that belongs to a number follows. */
  predicate Ends(rest: string) {
    rest == [] || !IsNumberChar(rest[0])
  }

  lemma {:induction false} TokenIsTaken(token: string, rest: string)
    requires forall i :: 0 <= i < |token| ==> IsNumberChar(token[i])
    requires Ends(rest)
    ensures NumberChars(token + rest) == token
  {
    if token == [] {
      assert token + rest == rest;
    } else {
      TokenIsTaken(token[1..], rest);
      assert (token + rest)[1..] == token[1..] + rest;
      assert token == [token[0]] + token[1..];
    }
  }

  lemma {:induction false} OneMoreDecimal(n: nat, s: string, d: char)
    requires (forall i :: 0 <= i < |s| ==> '0' <= s[i] <= '9') && '0' <= d <= '9'
    ensures DecimalValue(n, s + [d]) == 10 * DecimalValue(n, s) + (d as int - 0x30)
    decreases |s|
  {
    var t := s + [d];
    if s == [] {
      assert t[1..] == [];
    } else {
      OneMoreDecimal(10 * n + (s[0] as int - 0x30), s[1..], d);
      assert t[1..] == s[1..] + [d];
    }
  }

  /** The digits of a number, read from the left, and no leading zero. */
  lemma {:induction false} DigitsAreReadBack(n: nat)
    ensures IsDecimal(Digits(n)) && DecimalValue(0, Digits(n)) == n
    ensures Digits(n)[0] == '0' ==> |Digits(n)| == 1 && n == 0
  {
    if n >= 10 {
      DigitsAreReadBack(n / 10);
      OneMoreDecimal(0, Digits(n / 10), Digit(n % 10));
      assert Digits(n)[0] == Digits(n / 10)[0];
    }
  }

  lemma IntIsReadBack(i: int, rest: string)
    requires Ends(rest)
    ensures ReadNumber(IntToken(i) + rest) == Read(Int(i), rest)
    ensures IntToken(i) != [] && IsNumberChar(IntToken(i)[0])
  {
    var token := IntToken(i);
    var n := if i < 0 then -i else i;
    DigitsAreReadBack(n);
    if i < 0 {
      assert token[1..] == Digits(n);
    }
    forall k | 0 <= k < |token| ensures token[k] == '-' || '0' <= token[k] <= '9' {
      assert i < 0 && k > 0 ==> token[k] == Digits(n)[k - 1];
    }
    TokenIsTaken(token, rest);
    assert (token + rest)[|token|..] == rest;
  }

  lemma FloatIsReadBack(token: string, rest: string)
    requires IsFloatToken(token) && Ends(rest)
    ensures ReadNumber(token + rest) == Read(Float(token), rest)
  {
    TokenIsTaken(token, rest);
    assert (token + rest)[|token|..] == rest;
  }

  // ----- Values -----

  /** Something with a JSON text of its own. */
  predicate Printable(v: Value) {
    match v
    case Dict(entries) => PrintableEntries(entries)
    case List(items) => PrintableItems(items)
    case Tuple(_) => false
    case NonFinite => false
    case Other => false
    case Float(token) => IsFloatToken(token)
    case _ => true
  }

  predicate PrintableItems(vs: Values) {
    vs.NoValues? || (Printable(vs.head) && PrintableItems(vs.tail))
  }

  predicate PrintableEntries(es: Entries) {
    es.NoEntries? || (es.key.StrKey? && Printable(es.value) && PrintableEntries(es.tail))
  }

  /** What follows an item, and what follows a member. */
  function AfterItem(tail: Values, rest: string): string {
    if tail.NoValues? then [']'] + rest else [','] + ItemsTo(tail, rest)
  }

  function AfterMember(tail: Entries, rest: string): string {
    if tail.NoEntries? then ['}'] + rest else [','] + MembersTo(tail, rest)
  }

  lemma NumberIsValue(s: string, rest: string)
    requires s != [] && IsNumberChar(s[0])
    ensures ReadValue(s + rest) == ReadNumber(s + rest) && (s + rest)[0] == s[0]
  {
    NumberCharIsNoOther(s[0]);
  }

  lemma NumberCharIsNoOther(c: char)
    requires IsNumberChar(c)
    ensures c != '"' && c != '[' && c != '{' && c != 't' && c != 'f' && c != 'n' && c != ']'
  {
    var others := "-+.e";
    assert others[0] == '-' && others[1] == '+' && others[2] == '.' && others[3] == 'e';
  }

  lemma WordIsReadBack(word: string, v: Value, rest: string)
    requires word != []
    ensures ReadWord(word + rest, word, v) == Read(v, rest) && (word + rest)[0] == word[0]
  {
    var s := word + rest;
    assert s[..|word|] == word && s[|word|..] == rest;
  }

  lemma EmptyIsReadBack(open: char, close: char, rest: string)
    ensures var s := [open] + ([close] + rest);
            |s| >= 2 && s[0] == open && s[1] == close && s[2..] == rest && s[1..] == [close] + rest
  {
  }

  /** The text of a value is read back, and so is what follows it. */
  lemma {:induction false} ValueIsReadBack(v: Value, rest: string)
    requires Printable(v) && Ends(rest)
    ensures ReadValue(ValueTo(v, rest)) == Read(v, rest)
    ensures ValueTo(v, rest) != [] && ValueTo(v, rest)[0] != ']'
    decreases v, 1
  {
    match v {
      case Null => WordIsReadBack("null", v, rest);
      case Bool(b) => WordIsReadBack(if b then "true" else "false", v, rest);
      case Int(i) =>
        IntIsReadBack(i, rest);
        NumberIsValue(IntToken(i), rest);
      case Float(token) =>
        FloatIsReadBack(token, rest);
        NumberIsValue(token, rest);
      case Str(text) =>
        CharsAreReadBack(text, rest);
      case List(items) => ListIsReadBack(items, rest);
      case Dict(entries) => DictIsReadBack(entries, rest);
    }
  }

  lemma {:induction false} ListIsReadBack(vs: Values, rest: string)
    requires PrintableItems(vs)
    ensures ReadValue(ValueTo(List(vs), rest)) == Read(List(vs), rest) && ValueTo(List(vs), rest)[0] == '['
    decreases vs, 1
  {
    var s := ValueTo(List(vs), rest);
    if vs.Values? {
      ItemsAreReadBack(vs, rest);
      assert s[1..] == ItemsTo(vs, rest);
    } else {
      EmptyIsReadBack('[', ']', rest);
    }
  }

  lemma {:induction false} DictIsReadBack(es: Entries, rest: string)
    requires PrintableEntries(es)
    ensures ReadValue(ValueTo(Dict(es), rest)) == Read(Dict(es), rest) && ValueTo(Dict(es), rest)[0] == '{'
    decreases es, 1
  {
    var s := ValueTo(Dict(es), rest);
    if es.Entries? {
      MembersAreReadBack(es, rest);
      assert s[1..] == MembersTo(es, rest);
    } else {
      EmptyIsReadBack('{', '}', rest);
    }
  }

  lemma {:induction false} ItemsAreReadBack(vs: Values, rest: string)
    requires vs.Values? && PrintableItems(vs)
    ensures ReadItems(ItemsTo(vs, rest)) == Read(vs, rest)
    ensures ItemsTo(vs, rest) != [] && ItemsTo(vs, rest)[0] != ']'
    decreases vs, 0
  {
    var after := AfterItem(vs.tail, rest);
    ValueIsReadBack(vs.head, after);
    if vs.tail.Values? {
      ItemsAreReadBack(vs.tail, rest);
      assert after[1..] == ItemsTo(vs.tail, rest);
    } else {
      assert after[1..] == rest;
    }
  }

  lemma {:induction false} MembersAreReadBack(es: Entries, rest: string)
    requires es.Entries? && PrintableEntries(es)
    ensures ReadMembers(MembersTo(es, rest)) == Read(es, rest)
    decreases es, 0
  {
    var after := AfterMember(es.tail, rest);
    var member := [':'] + ValueTo(es.value, after);
    CharsAreReadBack(es.key.text, member);
    ValueIsReadBack(es.value, after);
    assert MembersTo(es, rest)[1..] == CharsTo(es.key.text, member);
    assert member[1..] == ValueTo(es.value, after);
    if es.tail.Entries? {
      MembersAreReadBack(es.tail, rest);
      assert after[1..] == MembersTo(es.tail, rest);
    } else {
      assert after[1..] == rest;
    }
  }

  /** Different values have different texts. */
  lemma TextIsInjective(v: Value, w: Value)
    requires Printable(v) && Printable(w) && Text(v) == Text(w)
    ensures v == w
  {
    ValueIsReadBack(v, []);
    ValueIsReadBack(w, []);
  }
}
