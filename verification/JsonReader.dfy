/** A reader of compact JSON text: sections 2 to 7 of RFC 8259, without white space. */
module JsonReader {
  import opened Json

  datatype Read<+T> = Read(value: T, rest: string) | Bad

  // ----- Strings -----

  function HexDigit(c: char): int {
    if '0' <= c <= '9' then c as int - 0x30
    else if 'a' <= c <= 'f' then c as int - 0x61 + 10
    else if 'A' <= c <= 'F' then c as int - 0x41 + 10
    else -1
  }

  /** Four hexadecimal digits that denote a character. */
  function ReadUnicode(s: string): (r: Read<char>)
    ensures r.Read? ==> |r.rest| < |s|
  {
    if |s| < 4 || exists i :: 0 <= i < 4 && HexDigit(s[i]) < 0 then Bad
    else
      var n := 0x1000 * HexDigit(s[0]) + 0x100 * HexDigit(s[1]) + 0x10 * HexDigit(s[2]) + HexDigit(s[3]);
      if 0 <= n < 0xD800 || 0xE000 <= n < 0x10000 then Read(n as char, s[4..]) else Bad
  }

  /** What follows a backslash. */
  function ReadEscape(s: string): (r: Read<char>)
    ensures r.Read? ==> |r.rest| < |s|
  {
    if s == [] then Bad
    else
      match s[0]
      case '"' => Read('\U{0022}', s[1..])
      case '\\' => Read('\U{005C}', s[1..])
      case '/' => Read('\U{002F}', s[1..])
      case 'b' => Read('\U{0008}', s[1..])
      case 'f' => Read('\U{000C}', s[1..])
      case 'n' => Read('\U{000A}', s[1..])
      case 'r' => Read('\U{000D}', s[1..])
      case 't' => Read('\U{0009}', s[1..])
      case 'u' => ReadUnicode(s[1..])
      case _ => Bad
  }

  function ReadChar(s: string): (r: Read<char>)
    ensures r.Read? ==> |r.rest| < |s|
  {
    if s == [] || s[0] < '\U{0020}' then Bad
    else if s[0] == '\U{005C}' then ReadEscape(s[1..])
    else Read(s[0], s[1..])
  }

  /** The characters up to the closing quote. */
  function ReadChars(s: string): (r: Read<string>)
    ensures r.Read? ==> |r.rest| < |s|
  {
    if s == [] then Bad
    else if s[0] == '"' then Read([], s[1..])
    else
      match ReadChar(s)
      case Bad => Bad
      case Read(c, more) =>
        match ReadChars(more)
        case Bad => Bad
        case Read(text, rest) => Read([c] + text, rest)
  }

  // ----- Numbers -----

  function NumberChars(s: string): (token: string)
    ensures |token| <= |s|
  {
    if s != [] && IsNumberChar(s[0]) then [s[0]] + NumberChars(s[1..]) else []
  }

  predicate IsDecimal(s: string) {
    s != [] && forall i :: 0 <= i < |s| ==> '0' <= s[i] <= '9'
  }

  /** The value of the digits, after those that make `n`. */
  function DecimalValue(n: nat, s: string): nat
    requires forall i :: 0 <= i < |s| ==> '0' <= s[i] <= '9'
    decreases |s|
  {
    if s == [] then n else DecimalValue(10 * n + (s[0] as int - 0x30), s[1..])
  }

  /** An integer has no leading zeros; a number with a fraction or an exponent is known by its token. */
  function ReadNumber(s: string): (r: Read<Value>)
    ensures r.Read? ==> |r.rest| < |s|
  {
    var token := NumberChars(s);
    var rest := s[|token|..];
    var digits := if token != [] && token[0] == '-' then token[1..] else token;
    if token == [] then Bad
    else if exists i :: 0 <= i < |token| && (token[i] == '.' || token[i] == 'e') then Read(Float(token), rest)
    else if !IsDecimal(digits) || (digits[0] == '0' && |digits| > 1) then Bad
    else
      var n: int := DecimalValue(0, digits);
      Read(Int(if token[0] == '-' then -n else n), rest)
  }

  // ----- Values -----

  function ReadWord(s: string, word: string, v: Value): (r: Read<Value>)
    requires word != []
    ensures r.Read? ==> |r.rest| < |s|
  {
    if |s| >= |word| && s[..|word|] == word then Read(v, s[|word|..]) else Bad
  }

  function ReadValue(s: string): (r: Read<Value>)
    ensures r.Read? ==> |r.rest| < |s|
    decreases |s|, 1
  {
    if s == [] then Bad
    else if s[0] == '"' then
      match ReadChars(s[1..])
      case Bad => Bad
      case Read(text, rest) => Read(Str(text), rest)
    else if s[0] == '[' then
      if |s| >= 2 && s[1] == ']' then Read(List(NoValues), s[2..])
      else
        match ReadItems(s[1..])
        case Bad => Bad
        case Read(items, rest) => Read(List(items), rest)
    else if s[0] == '{' then
      if |s| >= 2 && s[1] == '}' then Read(Dict(NoEntries), s[2..])
      else
        match ReadMembers(s[1..])
        case Bad => Bad
        case Read(entries, rest) => Read(Dict(entries), rest)
    else if s[0] == 't' then ReadWord(s, "true", Bool(true))
    else if s[0] == 'f' then ReadWord(s, "false", Bool(false))
    else if s[0] == 'n' then ReadWord(s, "null", Null)
    else ReadNumber(s)
  }

  /** Items up to the closing bracket. */
  function ReadItems(s: string): (r: Read<Values>)
    ensures r.Read? ==> |r.rest| < |s|
    decreases |s|, 2
  {
    match ReadValue(s)
    case Bad => Bad
    case Read(head, rest) =>
      if rest != [] && rest[0] == ']' then Read(Values(head, NoValues), rest[1..])
      else if rest != [] && rest[0] == ',' then
        match ReadItems(rest[1..])
        case Bad => Bad
        case Read(tail, more) => Read(Values(head, tail), more)
      else Bad
  }

  /** Members up to the closing brace. */
  function ReadMembers(s: string): (r: Read<Entries>)
    ensures r.Read? ==> |r.rest| < |s|
    decreases |s|, 2
  {
    if s == [] || s[0] != '"' then Bad
    else
      match ReadChars(s[1..])
      case Bad => Bad
      case Read(key, afterKey) =>
        if afterKey == [] || afterKey[0] != ':' then Bad
        else
          match ReadValue(afterKey[1..])
          case Bad => Bad
          case Read(value, rest) =>
            if rest != [] && rest[0] == '}' then Read(Entries(StrKey(key), value, NoEntries), rest[1..])
            else if rest != [] && rest[0] == ',' then
              match ReadMembers(rest[1..])
              case Bad => Bad
              case Read(tail, more) => Read(Entries(StrKey(key), value, tail), more)
            else Bad
  }
}
