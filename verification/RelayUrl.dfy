/** The canonical form of relay URLs: parsing, sanitizing, printing. */
module RelayUrl {
  import opened Decimal
  import opened HostNames
  import opened Idn
  import opened Networks
  import opened Nostr
  import opened Strings
  import opened UrlPath

  /** A parsed and normalized URL; the host of an address of version 6 is in brackets, an absent port is empty. */
  datatype Uri = Uri(scheme: string, host: string, port: string, path: string)

  const PORT_WS := 80
  const PORT_WSS := 443
  const MAX_URL_LENGTH := 2048

  // ----- Parsing: the generic syntax of RFC 3986, and its normalization -----

  /** The characters that `str.strip` takes for white space. */
  predicate IsSpace(c: char) {
    || c == ' ' || '\t' <= c <= '\r' || '\U{001C}' <= c <= '\U{001F}' || c == '\U{0085}' || c == '\U{00A0}'
    || c == '\U{1680}' || '\U{2000}' <= c <= '\U{200A}' || c == '\U{2028}' || c == '\U{2029}'
    || c == '\U{202F}' || c == '\U{205F}' || c == '\U{3000}'
  }

  /** `s.strip()`. */
  function Strip(s: string): string {
    if s != [] && IsSpace(s[0]) then Strip(s[1..])
    else if s != [] && IsSpace(s[|s| - 1]) then Strip(s[..|s| - 1])
    else s
  }

  /** A registered name: section 3.2.2 of RFC 3986. */
  predicate IsRegName(s: string) {
    forall i: nat | i < |s| :: IsRegNameAt(s, i)
  }

  predicate IsRegNameAt(s: string, i: nat)
    requires i < |s|
  {
    || IsAlnum(s[i]) || s[i] in "-._~!$&'()*+,;="
    || (s[i] == '%' && i + 2 < |s| && IsHex(s[i + 1]) && IsHex(s[i + 2]))
  }

  /** What follows the host: nothing, or a colon and at most five digits. */
  function PortOf(s: string): Option<string> {
    if s == [] then Some([])
    else if s[0] == ':' && |s| <= 6 && IsDigits(s[1..]) then Some(s[1..])
    else None
  }

  /** Host and port of an authority without user information; the host becomes lower-case. */
  function ParseAuthority(ip: IpParser, s: string): Option<(string, string)> {
    if s != [] && s[0] == '[' then
      var literal, rest := TakeUntil(s[1..], "]"), DropUntil(s[1..], "]");
      if rest == [] || ':' !in literal || ip(literal).None? then None
      else
        var port := PortOf(rest[1..]);
        if port.Some? then Some((['['] + (Lower(literal) + [']']), port.value)) else None
    else
      var name, rest := TakeUntil(s, ":"), DropUntil(s, ":");
      if name == [] || !IsRegName(name) then None
      else
        var port := PortOf(rest);
        if port.Some? then Some((Lower(name), port.value)) else None
  }

  function ParseUrl(ip: IpParser, s: string): Option<Uri> {
    if ':' !in s then None
    else
      var scheme, rest := Lower(Before(s, ':')), After(s, ':');
      if |rest| < 2 || rest[..2] != "//" then None
      else
        var authority, tail := TakeUntil(rest[2..], "/?#"), DropUntil(rest[2..], "/?#");
        var hostAndPort := ParseAuthority(ip, if '@' in authority then After(authority, '@') else authority);
        var path := NormalizedPath(TakeUntil(tail, "?#"));
        if hostAndPort.None? || !ValidPath(path) then None
        else Some(Uri(scheme, hostAndPort.value.0, hostAndPort.value.1, path))
  }

  // ----- Sanitizing and printing -----

  function FormattedHost(host: string): string {
    if ':' in host then ['['] + (host + [']']) else host
  }

  function SchemeOf(network: Network): string {
    if network == Clearnet then "wss" else "ws"
  }

  function DefaultPort(scheme: string): nat {
    if scheme == "wss" then PORT_WSS else PORT_WS
  }

  /** The printed port; the default one is left out, and so is an absent one. */
  function PortText(scheme: string, port: Option<nat>): string {
    if port.Some? && port.value != DefaultPort(scheme) then [':'] + Digits(port.value) else []
  }

  function Printed(scheme: string, host: string, port: Option<nat>, path: string): string {
    scheme + ([':'] + ("//" + ((FormattedHost(host) + PortText(scheme, port)) + path)))
  }

  /** The percent-decoded host, without brackets around the whole and without trailing dots. */
  function DecodedHost(uri: Uri): string {
    TrimRight(Unquote(StripBrackets(uri.host)), '.')
  }

  predicate HasBadChar(host: string) {
    exists i :: 0 <= i < |host| && (host[i] in " \t\n\r\\" || host[i] == '\0')
  }

  function SanitizeUri(ip: IpParser, uri: Uri): Option<string> {
    var host := DecodedHost(uri);
    var network := DetectNetwork(ip, host);
    if uri.scheme != "ws" && uri.scheme != "wss" then None
    else if host != Strip(host) || HasBadChar(host) || !Accepted(network) then None
    else if !IsDigits(uri.port) || (uri.port != [] && !(1 <= Number(uri.port) <= 65535)) then None
    else
      var port := if uri.port == [] then None else Some(Number(uri.port));
      var url := Printed(SchemeOf(network), NormalizeIp(ip, host), port, SanitizedPath(uri.path));
      if |url| > MAX_URL_LENGTH then None else Some(url)
  }

  /** A raw URL as it is parsed: without white space around it, and with an ASCII host. */
  function Prepared(idna: Idna, raw: string): Option<string> {
    AsciiHost(idna, Strip(raw))
  }

  function ParseRaw(ip: IpParser, idna: Idna, raw: string): Option<Uri> {
    var s := Prepared(idna, raw);
    if s.Some? then ParseUrl(ip, s.value) else None
  }

  /** The canonical form of a URL; `None` is a `ValueError`. */
  function SanitizeRelayUrl(ip: IpParser, idna: Idna, raw: string): Option<string> {
    var uri := ParseRaw(ip, idna, raw);
    if uri.Some? then SanitizeUri(ip, uri.value) else None
  }

  predicate AllSpaces(s: string) {
    forall i :: 0 <= i < |s| ==> IsSpace(s[i])
  }

  lemma Wrapped(c: char, front: string, r: string, back: string)
    ensures [c] + (front + (r + back)) == ([c] + front) + (r + back)
    ensures AllSpaces(front) && IsSpace(c) ==> AllSpaces([c] + front)
  {
  }

  lemma WrappedBack(front: string, r: string, back: string, c: char)
    ensures (front + (r + back)) + [c] == front + (r + (back + [c]))
    ensures AllSpaces(back) && IsSpace(c) ==> AllSpaces(back + [c])
  {
  }

  /** Stripping takes white space off both ends, and nothing else. */
  lemma {:induction false} StripTakesSpaces(s: string) returns (front: string, back: string)
    ensures s == front + (Strip(s) + back) && AllSpaces(front) && AllSpaces(back)
    ensures var r := Strip(s); r == [] || (!IsSpace(r[0]) && !IsSpace(r[|r| - 1]))
  {
    front, back := [], [];
    if s != [] && IsSpace(s[0]) {
      var rest;
      rest, back := StripTakesSpaces(s[1..]);
      front := [s[0]] + rest;
      Wrapped(s[0], rest, Strip(s), back);
      assert s == [s[0]] + s[1..];
    } else if s != [] && IsSpace(s[|s| - 1]) {
      var rest;
      front, rest := StripTakesSpaces(s[..|s| - 1]);
      back := rest + [s[|s| - 1]];
      WrappedBack(front, Strip(s), rest, s[|s| - 1]);
      assert s == s[..|s| - 1] + [s[|s| - 1]];
    } else {
      assert [] + (s + []) == s;
    }
  }

  // ----- Parsing what was printed -----

  lemma {:induction false} NoSpacesToStrip(s: string)
    requires NoSpaces(s)
    ensures Strip(s) == s
  {
  }

  lemma DigitsHaveFive(n: nat)
    requires n <= 65535
    ensures |Digits(n)| <= 5
  {
    assert n / 10 <= 6553 && n / 10 / 10 <= 655 && n / 10 / 10 / 10 <= 65 && n / 10 / 10 / 10 / 10 <= 6;
    assert |Digits(n / 10 / 10 / 10 / 10)| == 1;
    assert |Digits(n / 10 / 10 / 10)| <= 2;
    assert |Digits(n / 10 / 10)| <= 3;
    assert |Digits(n / 10)| <= 4;
  }

  predicate IsPort(port: Option<nat>) {
    port.Some? ==> 1 <= port.value <= 65535
  }

  lemma PortIsReadable(scheme: string, port: Option<nat>)
    requires IsPort(port)
    ensures var text := PortText(scheme, port);
            && PortOf(text).Some?
            && var digits := PortOf(text).value;
               if text == [] then digits == []
               else text == [':'] + digits && digits != [] && IsDigits(digits) && Number(digits) == port.value
  {
    if port.Some? {
      DigitsAreReadable(port.value);
      DigitsHaveFive(port.value);
      assert ([':'] + Digits(port.value))[1..] == Digits(port.value);
    }
  }

  /** A host whose lower-case form is canonical. */
  predicate IsHostAnyCase(ip: IpParser, host: string) {
    IsHost(ip, Lower(host))
  }

  predicate IsHostChar(c: char) {
    IsAlnum(c) || c == '-' || c == '_' || c == '.' || c == ':'
  }

  predicate AllHostChars(s: string) {
    forall i :: 0 <= i < |s| ==> IsHostChar(s[i])
  }

  /** The characters of a host in any case. */
  predicate AnyCaseChars(s: string) {
    forall i :: 0 <= i < |s| ==> IsHostChar(s[i]) || s[i] == KELVIN
  }

  lemma CharsInAnyCase(host: string)
    requires HasHostChars(Lower(host))
    ensures AnyCaseChars(host)
  {
    var low := Lower(host);
    forall i | 0 <= i < |host| ensures IsHostChar(host[i]) || host[i] == KELVIN {
      assert IsNameChar(low[i]) || low[i] == ':';
    }
  }

  /** An address is ASCII. */
  lemma HostChars(ip: IpParser, host: string)
    requires IpLaws(ip) && IsHostAnyCase(ip, host)
    ensures host != [] && AnyCaseChars(host)
    ensures ':' in host <==> ':' in Lower(host)
    ensures ':' in host ==> ip(host).Some?
    ensures ip(host).Some? ==> AllHostChars(host)
    ensures ip(host).None? <==> ip(Lower(host)).None?
  {
    CharsInAnyCase(host);
    LowerContains(host, ':');
    assert '%' !in host;
    assert IpLaw(ip, host);
  }

  lemma LiteralIsReadable(ip: IpParser, host: string, rest: string)
    requires AllHostChars(host) && ':' in host && ip(host).Some? && PortOf(rest).Some?
    ensures ParseAuthority(ip, (['['] + (host + [']'])) + rest)
         == Some((['['] + (Lower(host) + [']']), PortOf(rest).value))
  {
    var s := (['['] + (host + [']'])) + rest;
    var tail := [']'] + rest;
    assert s[0] == '[' && s[1..] == host + tail;
    TakeAndDrop(host, tail, "]");
    assert tail[1..] == rest;
  }

  lemma NameIsReadable(ip: IpParser, host: string, rest: string)
    requires host != [] && AllHostChars(host) && ':' !in host && PortOf(rest).Some?
    ensures ParseAuthority(ip, host + rest) == Some((Lower(host), PortOf(rest).value))
  {
    assert rest == [] || rest[0] == ':';
    TakeAndDrop(host, rest, ":");
    assert (host + rest)[0] == host[0];
    assert IsRegName(host);
  }

  predicate HostOrBrackets(s: string) {
    forall i :: 0 <= i < |s| ==> IsHostChar(s[i]) || IsBracket(s[i])
  }

  /** Those of a host that was printed: in any case, brackets included. */
  predicate PrintedChars(s: string) {
    forall i :: 0 <= i < |s| ==> IsHostChar(s[i]) || IsBracket(s[i]) || s[i] == KELVIN
  }

  /** A printed authority without a KELVIN SIGN has no other characters either. */
  lemma AuthorityChars(scheme: string, host: string, port: Option<nat>)
    requires IsPort(port) && PrintedChars(host)
    ensures var a := FormattedHost(host) + PortText(scheme, port);
            PrintedChars(a) && (HostOrBrackets(host) ==> HostOrBrackets(a))
  {
    PortChars(scheme, port);
    FormattedChars(host);
    PrintedConcat(FormattedHost(host), PortText(scheme, port));
  }

  lemma PortChars(scheme: string, port: Option<nat>)
    requires IsPort(port)
    ensures HostOrBrackets(PortText(scheme, port))
  {
    PortIsReadable(scheme, port);
  }

  lemma FormattedChars(host: string)
    requires PrintedChars(host)
    ensures PrintedChars(FormattedHost(host)) && (HostOrBrackets(host) ==> HostOrBrackets(FormattedHost(host)))
  {
  }

  lemma PrintedConcat(a: string, b: string)
    requires PrintedChars(a) && HostOrBrackets(b)
    ensures PrintedChars(a + b) && (HostOrBrackets(a) ==> HostOrBrackets(a + b))
  {
  }

  predicate IsPath(path: string) {
    ValidPath(path) && NormalizedPath(path) == path && (path == [] || path[0] == '/')
  }

  lemma PathChars(path: string)
    requires ValidPath(path)
    ensures NoSpaces(path) && forall i :: 0 <= i < |path| ==> path[i] !in "?#"
  {
    forall i: nat | i < |path| ensures path[i] !in "?#" && !IsSpace(path[i]) && path[i] != '\0' {
      assert ValidAt(path, i);
    }
  }

  predicate IsScheme(s: string) { s == "ws" || s == "wss" }

  lemma PrintedHasNoSpaces(scheme: string, host: string, port: Option<nat>, path: string)
    requires IsScheme(scheme) && PrintedChars(host) && IsPort(port) && ValidPath(path)
    ensures Strip(Printed(scheme, host, port, path)) == Printed(scheme, host, port, path)
    ensures NoSpaces(Printed(scheme, host, port, path))
  {
    var a := FormattedHost(host) + PortText(scheme, port);
    AuthorityChars(scheme, host, port);
    NoSpacesInAuthority(a);
    PathChars(path);
    assert NoSpaces(path);
    NoSpacesConcat(a, path);
    PrefixHasNoSpaces(scheme, a + path);
    NoSpacesToStrip(Printed(scheme, host, port, path));
  }

  lemma NoSpacesInAuthority(a: string)
    requires PrintedChars(a)
    ensures NoSpaces(a)
  {
  }

  lemma PrefixHasNoSpaces(scheme: string, rest: string)
    requires IsScheme(scheme)
    ensures NoSpaces(rest) ==> NoSpaces(scheme + ([':'] + ("//" + rest)))
  {
    assert NoSpaces("//") && NoSpaces([':']) && NoSpaces("ws") && NoSpaces("wss");
    if NoSpaces(rest) {
      NoSpacesConcat("//", rest);
      NoSpacesConcat([':'], "//" + rest);
      NoSpacesConcat(scheme, [':'] + ("//" + rest));
    }
  }

  predicate NoSpaces(s: string) {
    forall i :: 0 <= i < |s| ==> !IsSpace(s[i]) && s[i] != '\0'
  }

  lemma NoSpacesConcat(a: string, b: string)
    requires NoSpaces(a) && NoSpaces(b)
    ensures NoSpaces(a + b)
  {
  }

  lemma AfterScheme(scheme: string, rest: string)
    requires IsScheme(scheme)
    ensures var s := scheme + ([':'] + ("//" + rest));
            && ':' in s && Lower(Before(s, ':')) == scheme
            && |After(s, ':')| >= 2 && After(s, ':')[..2] == "//" && After(s, ':')[2..] == rest
  {
    BeforeAndAfter(scheme, ':', "//" + rest);
    LowerIsFixed(scheme);
  }

  lemma AuthorityHasNoEnd(a: string)
    requires HostOrBrackets(a)
    ensures '@' !in a && forall c :: c in a ==> c !in "/?#"
  {
  }

  lemma PathIsWhole(path: string)
    requires ValidPath(path)
    ensures TakeUntil(path, "?#") == path
  {
    PathChars(path);
    TakeAndDrop(path, [], "?#");
    assert path + [] == path;
  }

  lemma AfterAuthority(a: string, path: string)
    requires HostOrBrackets(a) && IsPath(path)
    ensures TakeUntil(a + path, "/?#") == a && DropUntil(a + path, "/?#") == path && '@' !in a
    ensures TakeUntil(path, "?#") == path
  {
    AuthorityHasNoEnd(a);
    TakeAndDrop(a, path, "/?#");
    PathIsWhole(path);
  }

  /** What is printed is parsed again as its authority is. */
  lemma ReadAgain(ip: IpParser, scheme: string, a: string, path: string)
    requires IsScheme(scheme) && HostOrBrackets(a) && IsPath(path)
    ensures ParseUrl(ip, scheme + ([':'] + ("//" + (a + path))))
         == match ParseAuthority(ip, a)
            case Some((host, port)) => Some(Uri(scheme, host, port, path))
            case None => None
  {
    AfterScheme(scheme, a + path);
    AfterAuthority(a, path);
  }

  lemma PrintedIsAscii(scheme: string, host: string, port: Option<nat>, path: string)
    requires IsScheme(scheme) && HostOrBrackets(host) && IsPort(port) && ValidPath(path)
    ensures IsAscii(Printed(scheme, host, port, path))
  {
    var a := FormattedHost(host) + PortText(scheme, port);
    AuthorityChars(scheme, host, port);
    AuthorityIsAscii(a);
    PathIsAscii(path);
    AsciiConcat(a, path);
    AsciiConcat("//", a + path);
    AsciiConcat([':'], "//" + (a + path));
    AsciiConcat(scheme, [':'] + ("//" + (a + path)));
  }

  lemma AuthorityIsAscii(a: string)
    requires HostOrBrackets(a)
    ensures IsAscii(a)
  {
  }

  lemma PathIsAscii(path: string)
    requires ValidPath(path)
    ensures IsAscii(path)
  {
    forall i: nat | i < |path| ensures path[i] < '\U{0080}' {
      assert ValidAt(path, i);
    }
  }

  /** What follows the host. */
  function Tail(scheme: string, port: Option<nat>, path: string): string {
    PortText(scheme, port) + path
  }

  /** A host without colons is printed as it is. */
  lemma PrintedTail(scheme: string, host: string, port: Option<nat>, path: string)
    requires ':' !in host
    ensures Printed(scheme, host, port, path) == scheme + ([':'] + ("//" + (host + Tail(scheme, port, path))))
  {
    var text := PortText(scheme, port);
    assert (host + text) + path == host + (text + path);
  }

  lemma TailStops(scheme: string, port: Option<nat>, path: string)
    requires IsPort(port) && IsPath(path)
    ensures var tail := Tail(scheme, port, path); tail == [] || tail[0] in "/:?#"
  {
    var text := PortText(scheme, port);
    PortIsReadable(scheme, port);
    assert text == [] ==> text + path == path;
  }

  lemma PrintedNoEnd(host: string)
    requires PrintedChars(host) && ':' !in host
    ensures forall c :: c in host ==> c !in "/:?#"
  {
  }

  /** An ASCII host is parsed as it was printed; the labels of another one are converted first. */
  lemma PrintedIsPrepared(idna: Idna, scheme: string, host: string, port: Option<nat>, path: string)
    requires IsScheme(scheme) && PrintedChars(host) && IsPort(port) && IsPath(path)
    requires IsAscii(host) || ':' !in host
    ensures IsAscii(host) ==>
              Prepared(idna, Printed(scheme, host, port, path)) == Some(Printed(scheme, host, port, path))
    ensures !IsAscii(host) ==>
              var name := AsciiName(idna, host);
              Prepared(idna, Printed(scheme, host, port, path)) ==
                if name.None? then None else Some(scheme + ([':'] + ("//" + (name.value + Tail(scheme, port, path)))))
  {
    PrintedHasNoSpaces(scheme, host, port, path);
    if IsAscii(host) {
      PrintedIsAscii(scheme, host, port, path);
    } else {
      PrintedTail(scheme, host, port, path);
      TailStops(scheme, port, path);
      PrintedNoEnd(host);
      HostIsConverted(idna, scheme, host, Tail(scheme, port, path));
    }
  }

  /** The converted host: ASCII, and the same but for the case of some letters. */
  lemma KelvinIsPrepared(idna: Idna, scheme: string, host: string, port: Option<nat>, path: string)
    requires IdnaLaws(idna) && IsScheme(scheme) && PrintedChars(host) && !IsAscii(host) && ':' !in host
    requires IsPort(port) && IsPath(path)
    ensures var r := AsciiName(idna, host);
            && (r.Some? ==> IsAscii(r.value) && Lower(r.value) == Lower(host))
            && Prepared(idna, Printed(scheme, host, port, path))
            == if r.Some? then Some(Printed(scheme, r.value, port, path)) else None
  {
    PrintedIsPrepared(idna, scheme, host, port, path);
    PrintedIsNear(host);
    NearName(idna, host);
    var r := AsciiName(idna, host);
    if r.Some? {
      NoColonInAnyCase(r.value, host);
      PrintedTail(scheme, r.value, port, path);
    }
  }

  lemma PrintedIsNear(host: string)
    requires PrintedChars(host)
    ensures NearAscii(host)
  {
  }

  lemma NoColonInAnyCase(a: string, b: string)
    requires Lower(a) == Lower(b) && ':' !in b
    ensures ':' !in a
  {
    LowerContains(a, ':');
    LowerContains(b, ':');
  }

  /** The labels of the host are short enough to be converted, if they have to be. */
  ghost predicate IsConvertible(host: string) {
    IsAscii(host) || (':' !in host && ShortParts(Split(host, '.')))
  }

  /** The host as it is parsed again: the same but for the case of some letters. */
  lemma HostIsPrepared(idna: Idna, scheme: string, host: string, port: Option<nat>, path: string)
    returns (name: string)
    requires IdnaLaws(idna) && IsScheme(scheme) && PrintedChars(host) && IsConvertible(host)
    requires IsPort(port) && IsPath(path)
    ensures IsAscii(name) && Lower(name) == Lower(host)
    ensures Prepared(idna, Printed(scheme, host, port, path)) == Some(Printed(scheme, name, port, path))
  {
    if IsAscii(host) {
      name := host;
      PrintedIsPrepared(idna, scheme, host, port, path);
    } else {
      PrintedIsNear(host);
      NearName(idna, host);
      name := AsciiName(idna, host).value;
      KelvinIsPrepared(idna, scheme, host, port, path);
    }
  }

  lemma AsciiInAnyCase(name: string, host: string)
    requires IsAscii(name) && Lower(name) == Lower(host)
    ensures AnyCaseChars(host) ==> AllHostChars(name)
    ensures PrintedChars(host) ==> HostOrBrackets(name)
    ensures HasBracket(name) <==> HasBracket(host)
  {
    var low := Lower(host);
    assert |name| == |host|;
    forall i | 0 <= i < |host| ensures LowerChar(name[i]) == LowerChar(host[i]) && name[i] != KELVIN {
      assert low[i] == LowerChar(host[i]);
    }
    forall i | 0 <= i < |host| ensures IsBracket(name[i]) <==> IsBracket(host[i]) {
    }
  }

  /** Parsing what was printed gives the parts back, the host in lower case. */
  lemma PrintedIsReadable(ip: IpParser, idna: Idna, scheme: string, host: string, port: Option<nat>, path: string)
    requires IpLaws(ip) && IdnaLaws(idna) && IsConvertible(host)
    requires IsScheme(scheme) && IsHostAnyCase(ip, host) && IsPort(port) && IsPath(path)
    ensures PortOf(PortText(scheme, port)).Some?
    ensures ParseRaw(ip, idna, Printed(scheme, host, port, path))
         == Some(Uri(scheme, FormattedHost(Lower(host)), PortOf(PortText(scheme, port)).value, path))
  {
    HostChars(ip, host);
    var name := HostIsPrepared(idna, scheme, host, port, path);
    AsciiInAnyCase(name, host);
    HostChars(ip, name);
    NameIsParsed(ip, scheme, name, port, path);
  }

  lemma NameIsParsed(ip: IpParser, scheme: string, host: string, port: Option<nat>, path: string)
    requires AllHostChars(host) && host != [] && (':' in host ==> ip(host).Some? && ':' in Lower(host))
    requires ':' in Lower(host) ==> ':' in host
    requires IsScheme(scheme) && IsPort(port) && IsPath(path)
    ensures PortOf(PortText(scheme, port)).Some?
    ensures ParseUrl(ip, Printed(scheme, host, port, path))
         == Some(Uri(scheme, FormattedHost(Lower(host)), PortOf(PortText(scheme, port)).value, path))
  {
    var rest := PortText(scheme, port);
    PortIsReadable(scheme, port);
    AuthorityChars(scheme, host, port);
    ReadAgain(ip, scheme, FormattedHost(host) + rest, path);
    if ':' in host {
      LiteralIsReadable(ip, host, rest);
    } else {
      NameIsReadable(ip, host, rest);
    }
  }

  // ----- The second pass -----

  lemma {:induction false} NothingToUnquote(s: string)
    requires '%' !in s
    ensures Unquote(s) == s
  {
    if s != [] {
      NothingToUnquote(s[1..]);
    }
  }

  lemma BracketsAreStripped(s: string)
    requires s != [] && !HasBracket(s)
    ensures StripBrackets(FormattedHost(s)) == s
  {
    NothingToStrip(s);
    if ':' in s {
      var t := FormattedHost(s);
      assert t[0] == '[' && t[1..] == s + [']'];
      assert (s + [']'])[0] == s[0] && (s + [']'])[..|s|] == s;
    }
  }

  /** A canonical host is decoded to itself and passes the checks. */
  lemma HostIsDecoded(ip: IpParser, host: string, scheme: string, port: string, path: string)
    requires IsHost(ip, host)
    ensures DecodedHost(Uri(scheme, FormattedHost(host), port, path)) == host
    ensures Strip(host) == host && !HasBadChar(host)
  {
    HostHasNoOthers(host);
    BracketsAreStripped(host);
    NothingToUnquote(host);
    NoSpacesToStrip(host);
  }

  lemma HostHasNoOthers(s: string)
    requires HasHostChars(s)
    ensures '%' !in s && !HasBracket(s) && NoSpaces(s) && !HasBadChar(s)
  {
  }

  function ParsedPort(port: string): Option<nat>
    requires IsDigits(port)
  {
    if port == [] then None else Some(Number(port))
  }

  lemma PortIsKept(scheme: string, port: Option<nat>)
    requires IsPort(port)
    ensures PortOf(PortText(scheme, port)).Some?
    ensures var digits := PortOf(PortText(scheme, port)).value;
            && IsDigits(digits) && (digits != [] ==> 1 <= Number(digits) <= 65535)
            && PortText(scheme, ParsedPort(digits)) == PortText(scheme, port)
  {
    PortIsReadable(scheme, port);
  }

  /** The labels of an accepted name are short in any case. */
  lemma AcceptedIsConvertible(ip: IpParser, host: string)
    requires IpLaws(ip) && IsHostAnyCase(ip, host) && Accepted(DetectNetwork(ip, Lower(host)))
    ensures IsConvertible(host)
  {
    HostChars(ip, host);
    if ip(host).None? {
      LowerHasShortLabels(ip, Lower(host));
      ShortInAnyCase(host);
    } else {
      HostCharsAreAscii(host);
    }
  }

  lemma LowerHasShortLabels(ip: IpParser, low: string)
    requires IsHost(ip, low) && ip(low).None? && Accepted(DetectNetwork(ip, low))
    ensures ShortLabels(low)
  {
    HostHasNoOthers(low);
    LowerIsFixed(low);
    NothingToStrip(low);
    AcceptedHasShortLabels(ip, low);
  }

  lemma HostCharsAreAscii(host: string)
    requires AllHostChars(host)
    ensures IsAscii(host)
  {
  }

  lemma ShortInAnyCase(host: string)
    requires ShortLabels(Lower(host))
    ensures ShortParts(Split(host, '.'))
  {
    var parts, low := Split(host, '.'), Split(Lower(host), '.');
    SplitLower(host, '.');
    forall i | 0 <= i < |parts| ensures |parts[i]| <= 63 {
      assert low[i] in low;
    }
  }

  /** Sanitizing a printed URL makes its host lower-case and changes nothing else. */
  lemma PrintedIsSanitized(ip: IpParser, idna: Idna, network: Network, host: string, port: Option<nat>, path: string)
    requires IpLaws(ip) && IdnaLaws(idna)
    requires IsHostAnyCase(ip, host) && IsPort(port) && IsPath(path) && SanitizedPath(path) == path
    requires Accepted(network) && DetectNetwork(ip, Lower(host)) == network
    requires |Printed(SchemeOf(network), host, port, path)| <= MAX_URL_LENGTH
    ensures SanitizeRelayUrl(ip, idna, Printed(SchemeOf(network), host, port, path))
         == Some(Printed(SchemeOf(network), Lower(host), port, path))
  {
    var scheme, low := SchemeOf(network), Lower(host);
    AcceptedIsConvertible(ip, host);
    PrintedIsReadable(ip, idna, scheme, host, port, path);
    PortIsKept(scheme, port);
    HostIsDecoded(ip, low, scheme, PortOf(PortText(scheme, port)).value, path);
    HostChars(ip, host);
  }

  lemma ParsedPathIsNormal(ip: IpParser, s: string)
    requires ParseUrl(ip, s).Some?
    ensures var p := ParseUrl(ip, s).value.path; UpperOnly(p) && (p == [] || p[0] == '/')
  {
    var tail := DropUntil(After(s, ':')[2..], "/?#");
    var raw := TakeUntil(tail, "?#");
    DropUntilStops(After(s, ':')[2..], "/?#");
    NormalizedIsUpper(raw);
    NormalizedIsRooted(raw);
  }

  lemma {:induction false} DropUntilStops(s: string, stops: string)
    ensures var r := DropUntil(s, stops); r == [] || r[0] in stops
  {
    if s != [] && s[0] !in stops {
      DropUntilStops(s[1..], stops);
    }
  }

  /** The host of a raw URL after decoding. */
  function RawHost(ip: IpParser, idna: Idna, raw: string): string {
    var uri := ParseRaw(ip, idna, raw);
    if uri.Some? then DecodedHost(uri.value) else []
  }

  /** A second pass over what was accepted: the host becomes lower-case. */
  lemma SecondPass(ip: IpParser, idna: Idna, raw: string)
    returns (network: Network, host: string, port: Option<nat>, path: string)
    requires IpLaws(ip) && IdnaLaws(idna) && SanitizeRelayUrl(ip, idna, raw).Some?
    requires '%' !in RawHost(ip, idna, raw) && !HasBracket(RawHost(ip, idna, raw))
    ensures host == NormalizeIp(ip, RawHost(ip, idna, raw))
    ensures IsHostAnyCase(ip, host) && IsPort(port) && IsPath(path) && SanitizedPath(path) == path
    ensures Accepted(network) && DetectNetwork(ip, Lower(host)) == network
    ensures SanitizeRelayUrl(ip, idna, raw) == Some(Printed(SchemeOf(network), host, port, path))
    ensures SanitizeRelayUrl(ip, idna, SanitizeRelayUrl(ip, idna, raw).value)
         == Some(Printed(SchemeOf(network), Lower(host), port, path))
  {
    var uri := ParseRaw(ip, idna, raw).value;
    var d := DecodedHost(uri);
    network, host, port, path :=
        DetectNetwork(ip, d), NormalizeIp(ip, d), ParsedPort(uri.port), SanitizedPath(uri.path);
    AcceptedIsHost(ip, d);
    ParsedPathIsNormal(ip, Prepared(idna, raw).value);
    SanitizedPathIsFixed(uri.path);
    PrintedIsSanitized(ip, idna, network, host, port, path);
  }

  // ----- Hosts with brackets -----

  lemma {:induction false} TakeAndDropAreAll(s: string, stops: string)
    ensures TakeUntil(s, stops) + DropUntil(s, stops) == s
    ensures forall c :: c in TakeUntil(s, stops) ==> c !in stops
  {
    if s != [] && s[0] !in stops {
      TakeAndDropAreAll(s[1..], stops);
      var head, taken, left := [s[0]], TakeUntil(s[1..], stops), DropUntil(s[1..], stops);
      assert head + (taken + left) == (head + taken) + left;
      assert s == head + s[1..];
    }
  }

  lemma {:induction false} TakeUntilWithin(s: string, rest: string, stops: string)
    requires TakeUntil(s, stops) != s
    ensures TakeUntil(s + rest, stops) == TakeUntil(s, stops)
    ensures DropUntil(s + rest, stops) == DropUntil(s, stops) + rest
  {
    if s[0] !in stops {
      assert (s + rest)[1..] == s[1..] + rest && s == [s[0]] + s[1..];
      TakeUntilWithin(s[1..], rest, stops);
    }
  }

  lemma NotAPort(s: string)
    requires ']' in s
    ensures PortOf(s).None?
  {
    if s[0] == ':' {
      var i :| 0 <= i < |s| && s[i] == ']';
      assert s[1..][i - 1] == ']';
    }
  }

  lemma BracketIsNoIp(ip: IpParser, s: string)
    requires IpLaw(ip, s) && HasBracket(s)
    ensures ip(s).None?
  {
  }

  lemma BracketIsNoName(s: string)
    requires HasBracket(s)
    ensures !IsRegName(s)
  {
    var i: nat :| i < |s| && IsBracket(s[i]);
    assert !IsRegNameAt(s, i);
  }

  lemma NoPercent(s: string)
    requires HostOrBrackets(s)
    ensures '%' !in s
  {
  }

  lemma LiteralFails(ip: IpParser, s: string, literal: string, rest: string)
    requires s != [] && s[0] == '[' && literal == TakeUntil(s[1..], "]") && rest == DropUntil(s[1..], "]")
    requires rest == [] || ':' !in literal || ip(literal).None? || PortOf(rest[1..]).None?
    ensures ParseAuthority(ip, s) == None
  {
  }

  /** No authority with a bracket in the host can be parsed, in brackets or not. */
  lemma LiteralIsRejected(ip: IpParser, host: string, rest: string)
    requires IpLaws(ip) && HostOrBrackets(host) && HasBracket(host)
    ensures ParseAuthority(ip, (['['] + (host + [']'])) + rest) == None
  {
    var s := (['['] + (host + [']'])) + rest;
    var tail := [']'] + rest;
    var literal, after := TakeUntil(host, "]"), DropUntil(host, "]");
    assert s[0] == '[' && s[1..] == host + tail;
    TakeAndDropAreAll(host, "]");
    if literal == host {
      TakeAndDrop(host, tail, "]");
      NoPercent(host);
      assert IpLaw(ip, host);
      BracketIsNoIp(ip, host);
      LiteralFails(ip, s, host, tail);
    } else {
      assert after == [] ==> literal + [] == literal;
      TakeUntilWithin(host, tail, "]");
      assert (after + tail)[1..] == after[1..] + tail;
      NotAPort(after[1..] + tail);
      LiteralFails(ip, s, literal, after + tail);
    }
  }

  lemma UnclosedIsRejected(ip: IpParser, host: string, rest: string)
    requires host != [] && host[0] == '[' && ':' !in host && ']' !in rest
    ensures ParseAuthority(ip, host + rest) == None
  {
    var s, inner := host + rest, host[1..];
    assert s[0] == '[' && s[1..] == inner + rest;
    TakeAndDropAreAll(inner, "]");
    if TakeUntil(inner, "]") == inner {
      assert forall c :: c in inner + rest ==> c in inner || c in rest;
      TakeAndDrop(inner + rest, [], "]");
      assert (inner + rest) + [] == inner + rest;
      LiteralFails(ip, s, inner + rest, []);
    } else {
      var literal := TakeUntil(inner, "]");
      TakeUntilWithin(inner, rest, "]");
      assert forall c :: c in literal ==> c in literal + DropUntil(inner, "]");
      assert forall c :: c in inner ==> c in host;
      LiteralFails(ip, s, literal, DropUntil(inner, "]") + rest);
    }
  }

  lemma NameIsRejected(ip: IpParser, host: string, rest: string)
    requires HasBracket(host) && ':' !in host
    requires rest == [] || rest[0] == ':'
    requires ']' !in rest
    ensures ParseAuthority(ip, host + rest) == None
  {
    if host[0] == '[' {
      UnclosedIsRejected(ip, host, rest);
    } else {
      assert (host + rest)[0] == host[0];
      TakeAndDrop(host, rest, ":");
      BracketIsNoName(host);
    }
  }

  lemma {:induction false} StripChars(s: string)
    ensures forall i :: 0 <= i < |s| ==> IsBracket(s[i]) || s[i] in StripBrackets(s)
  {
    if s != [] && IsBracket(s[0]) {
      StripChars(s[1..]);
      assert forall i :: 0 < i < |s| ==> s[i] == s[1..][i - 1];
    } else if s != [] && IsBracket(s[|s| - 1]) {
      StripChars(s[..|s| - 1]);
    }
  }

  lemma AcceptedChars(ip: IpParser, host: string)
    requires IpLaws(ip) && '%' !in host && Accepted(DetectNetwork(ip, host))
    ensures PrintedChars(host)
  {
    var low := Lower(host);
    var bare := StripBrackets(low);
    AcceptedIsNameOrIp(ip, bare);
    StripChars(low);
    LowerContains(host, '%');
    StrippedHasNoMore(low, '%');
    assert IpLaw(ip, bare);
    forall i | 0 <= i < |host| ensures IsHostChar(host[i]) || IsBracket(host[i]) || host[i] == KELVIN {
      assert IsBracket(low[i]) || low[i] in bare;
    }
  }

  lemma KelvinBecomesK(host: string)
    requires PrintedChars(host) && !IsAscii(host)
    ensures 'k' in StripBrackets(Lower(host))
  {
    var low := Lower(host);
    var i :| 0 <= i < |host| && host[i] >= '\U{0080}';
    assert low[i] == 'k';
    StripChars(low);
  }

  /** A host outside ASCII is no address. */
  lemma NoAddressOutsideAscii(ip: IpParser, host: string)
    requires IpLaws(ip) && '%' !in host && Accepted(DetectNetwork(ip, host)) && !IsAscii(host)
    ensures ':' !in host
  {
    AcceptedChars(ip, host);
    KelvinBecomesK(host);
    LowerContains(host, '%');
    StrippedHasNoMore(Lower(host), '%');
    LowerContains(host, ':');
    NoColonBesideK(ip, Lower(host), StripBrackets(Lower(host)));
  }

  lemma NoColonBesideK(ip: IpParser, low: string, bare: string)
    requires IpLaws(ip) && bare == StripBrackets(low) && '%' !in bare && 'k' in bare && Accepted(Classify(ip, bare))
    ensures ':' !in low
  {
    NoAddressHasK(ip, bare);
    AcceptedIsNameOrIp(ip, bare);
    NamesHaveHostChars(bare);
    if ':' in low {
      ColonStays(low);
    }
  }

  lemma NoAddressHasK(ip: IpParser, s: string)
    requires IpLaws(ip) && '%' !in s && 'k' in s
    ensures ip(s).None?
  {
    assert IpLaw(ip, s);
    var i :| 0 <= i < |s| && s[i] == 'k';
    assert !IsIpChar(s[i]);
  }

  lemma ColonStays(s: string)
    requires ':' in s
    ensures ':' in StripBrackets(s)
  {
    StripChars(s);
    var i :| 0 <= i < |s| && s[i] == ':';
  }

  lemma {:induction false} StrippedHasNoMore(s: string, c: char)
    requires c !in s
    ensures c !in StripBrackets(s)
  {
    if s != [] && IsBracket(s[0]) {
      StrippedHasNoMore(s[1..], c);
    } else if s != [] && IsBracket(s[|s| - 1]) {
      StrippedHasNoMore(s[..|s| - 1], c);
    }
  }

  /** A printed URL with a bracket in its host is rejected. */
  lemma BracketsAreRejected(ip: IpParser, idna: Idna, scheme: string, host: string, port: Option<nat>, path: string)
    requires IpLaws(ip) && IdnaLaws(idna)
    requires PrintedChars(host) && (IsAscii(host) || ':' !in host) && HasBracket(host)
    requires IsScheme(scheme) && IsPort(port) && IsPath(path)
    ensures SanitizeRelayUrl(ip, idna, Printed(scheme, host, port, path)) == None
  {
    if IsAscii(host) {
      PrintedIsPrepared(idna, scheme, host, port, path);
      BracketsAreNotParsed(ip, scheme, host, port, path);
    } else {
      KelvinIsPrepared(idna, scheme, host, port, path);
      if AsciiName(idna, host).Some? {
        AsciiInAnyCase(AsciiName(idna, host).value, host);
        BracketsAreNotParsed(ip, scheme, AsciiName(idna, host).value, port, path);
      }
    }
  }

  lemma BracketsAreNotParsed(ip: IpParser, scheme: string, host: string, port: Option<nat>, path: string)
    requires IpLaws(ip) && HostOrBrackets(host) && HasBracket(host)
    requires IsScheme(scheme) && IsPort(port) && IsPath(path)
    ensures ParseUrl(ip, Printed(scheme, host, port, path)) == None
  {
    var rest := PortText(scheme, port);
    var a := FormattedHost(host) + rest;
    PortIsReadable(scheme, port);
    BracketedChars(host, rest);
    ReadAgain(ip, scheme, a, path);
    if ':' in host {
      LiteralIsRejected(ip, host, rest);
    } else {
      NameIsRejected(ip, host, rest);
    }
  }

  lemma BracketedChars(host: string, rest: string)
    requires HostOrBrackets(host) && PortOf(rest).Some?
    ensures HostOrBrackets(FormattedHost(host) + rest) && ']' !in rest
  {
    assert forall i :: 0 < i < |rest| ==> rest[i] == rest[1..][i - 1];
  }

  // ----- Fixpoints -----

  lemma SameStart(a: string, b: string, rest: string, rest': string)
    requires |a| == |b| && a + rest == b + rest'
    ensures a == b && rest == rest'
  {
    assert a == (a + rest)[..|a|] && b == (b + rest')[..|a|];
    assert rest == (a + rest)[|a|..] && rest' == (b + rest')[|a|..];
  }

  lemma PrintedHostIsReadable(scheme: string, host: string, host': string, port: Option<nat>, path: string)
    requires |host| == |host'| && (':' in host <==> ':' in host')
    requires Printed(scheme, host, port, path) == Printed(scheme, host', port, path)
    ensures host == host'
  {
    var text := PortText(scheme, port);
    var a, b := (FormattedHost(host) + text) + path, (FormattedHost(host') + text) + path;
    SameStart(scheme, scheme, [':'] + ("//" + a), [':'] + ("//" + b));
    SameStart([':'], [':'], "//" + a, "//" + b);
    SameStart("//", "//", a, b);
    SameStart(FormattedHost(host) + text, FormattedHost(host') + text, path, path);
    SameStart(FormattedHost(host), FormattedHost(host'), text, text);
    if ':' in host {
      SameStart(['['], ['['], host + [']'], host' + [']']);
      SameStart(host, host', [']'], [']']);
    }
  }

  predicate HasAsciiUpper(s: string) {
    exists i :: 0 <= i < |s| && 'A' <= s[i] <= 'Z'
  }

  /** Nothing that percent-decoding can bring back after the normalization of the host. */
  predicate IsPlain(ip: IpParser, decoded: string) {
    !HasBracket(decoded) && IsAscii(decoded) && !HasAsciiUpper(NormalizeIp(ip, decoded))
  }

  /** Among accepted hosts without brackets, the plain ones are those in lower case. */
  lemma PlainIsLower(ip: IpParser, decoded: string)
    requires IpLaws(ip) && '%' !in decoded && !HasBracket(decoded) && Accepted(DetectNetwork(ip, decoded))
    ensures IsPlain(ip, decoded) <==> !HasUpper(NormalizeIp(ip, decoded))
  {
    AcceptedChars(ip, decoded);
    assert IpLaw(ip, decoded);
    if ip(decoded).Some? {
      assert IsAscii(decoded);
    } else if !IsAscii(decoded) {
      var i :| 0 <= i < |decoded| && decoded[i] >= '\U{0080}';
      assert IsUpper(decoded[i]);
    }
  }

  /**
   The result of sanitizing is a fixpoint exactly when the decoded host has no
   brackets and is ASCII, and the canonical host has no upper-case letters:
   percent-decoding comes after the normalization that would have removed them.
   */
  lemma FixpointIffPlainHost(ip: IpParser, idna: Idna, raw: string)
    requires IpLaws(ip) && IdnaLaws(idna)
    ensures var once, d := SanitizeRelayUrl(ip, idna, raw), RawHost(ip, idna, raw);
            once.Some? && '%' !in d ==> (SanitizeRelayUrl(ip, idna, once.value) == once <==> IsPlain(ip, d))
  {
    var d := RawHost(ip, idna, raw);
    if SanitizeRelayUrl(ip, idna, raw).None? || '%' in d {
      return;
    }
    if HasBracket(d) {
      BracketsAreNoFixpoint(ip, idna, raw);
    } else {
      var network, host, port, path := SecondPass(ip, idna, raw);
      PlainIsLower(ip, d);
      LowerIsFixed(host);
      LowerContains(host, ':');
      if Printed(SchemeOf(network), host, port, path) == Printed(SchemeOf(network), Lower(host), port, path) {
        PrintedHostIsReadable(SchemeOf(network), host, Lower(host), port, path);
      }
    }
  }

  lemma BracketsAreNoFixpoint(ip: IpParser, idna: Idna, raw: string)
    requires IpLaws(ip) && IdnaLaws(idna) && SanitizeRelayUrl(ip, idna, raw).Some?
    requires '%' !in RawHost(ip, idna, raw) && HasBracket(RawHost(ip, idna, raw))
    ensures SanitizeRelayUrl(ip, idna, SanitizeRelayUrl(ip, idna, raw).value) == None
  {
    var uri := ParseRaw(ip, idna, raw).value;
    var d := DecodedHost(uri);
    AcceptedChars(ip, d);
    if !IsAscii(d) {
      NoAddressOutsideAscii(ip, d);
    }
    assert IpLaw(ip, d);
    BracketIsNoIp(ip, d);
    ParsedPathIsNormal(ip, Prepared(idna, raw).value);
    SanitizedPathIsFixed(uri.path);
    BracketsAreRejected(ip, idna, SchemeOf(DetectNetwork(ip, d)), d, ParsedPort(uri.port), SanitizedPath(uri.path));
  }

  /** Without brackets, two passes always reach a fixpoint. */
  lemma TwoPassesReachAFixpoint(ip: IpParser, idna: Idna, raw: string)
    requires IpLaws(ip) && IdnaLaws(idna)
    ensures var once, d := SanitizeRelayUrl(ip, idna, raw), RawHost(ip, idna, raw);
            once.Some? && '%' !in d && !HasBracket(d) ==>
              && SanitizeRelayUrl(ip, idna, once.value).Some?
              && var twice := SanitizeRelayUrl(ip, idna, once.value);
                 SanitizeRelayUrl(ip, idna, twice.value) == twice
  {
    var d := RawHost(ip, idna, raw);
    if SanitizeRelayUrl(ip, idna, raw).None? || '%' in d || HasBracket(d) {
      return;
    }
    var network, host, port, path := SecondPass(ip, idna, raw);
    LowerIsFixed(host);
    LowerContains(host, ':');
    PrintedIsSanitized(ip, idna, network, Lower(host), port, path);
  }

  /** A URL of the given scheme and host only. */
  function Bare(scheme: string, name: string): string { scheme + ([':'] + ("//" + name)) }

  lemma NamedIsPrepared(idna: Idna, scheme: string, name: string)
    requires IsScheme(scheme) && IsPlainName(name)
    ensures Prepared(idna, Bare(scheme, name)) == Some(Bare(scheme, name))
  {
    PrefixHasNoSpaces(scheme, name);
    NoSpacesToStrip(Bare(scheme, name));
    forall i: nat | i < |name| ensures name[i] < '\U{0080}' {
      assert IsRegNameAt(name, i);
    }
  }

  lemma NamedUrl(ip: IpParser, idna: Idna, scheme: string, name: string)
    requires IsScheme(scheme) && IsPlainName(name)
    ensures ParseRaw(ip, idna, Bare(scheme, name)) == Some(Uri(scheme, Lower(name), [], []))
  {
    NamedIsPrepared(idna, scheme, name);
    AfterScheme(scheme, name);
    TakeAndDrop(name, [], "/?#");
    assert name + [] == name;
    assert name[0] in name && '@' !in name && ':' !in name;
    NamedAuthority(ip, name);
    EmptyPath([]);
  }

  lemma PrintedBare(scheme: string, host: string)
    requires ':' !in host
    ensures Printed(scheme, host, None, []) == Bare(scheme, host)
  {
    assert (host + []) + [] == host;
  }

  lemma NamedIsSanitized(ip: IpParser, idna: Idna, raw: string, uri: Uri, scheme: string, host: string)
    requires ParseRaw(ip, idna, raw) == Some(uri)
    requires uri.scheme == scheme == SchemeOf(DetectNetwork(ip, host)) && uri.port == uri.path == []
    requires DecodedHost(uri) == host && Accepted(DetectNetwork(ip, host)) && NormalizeIp(ip, host) == host
    requires NoSpaces(host) && !HasBadChar(host) && ':' !in host && |host| <= 2000
    ensures SanitizeRelayUrl(ip, idna, raw) == Some(Bare(scheme, host))
  {
    EmptyPath(uri.path);
    NoSpacesToStrip(host);
    PrintedBare(scheme, host);
  }

  lemma NamedAuthority(ip: IpParser, name: string)
    requires name != [] && IsRegName(name) && ':' !in name && name[0] != '['
    ensures ParseAuthority(ip, name) == Some((Lower(name), []))
  {
    TakeAndDrop(name, [], ":");
    assert name + [] == name;
  }

  lemma EmptyPath(path: string)
    requires path == []
    ensures NormalizedPath(path) == path && ValidPath(path) && SanitizedPath(path) == path
  {
    EmptyIsNormal();
    UpperOnlyIsFixed(path);
    NoDotSegment(path);
    NoDotsAreRemoved(path);
  }

  lemma ShortNameIsValid(name: string)
    requires name == "x.y"
    ensures ValidHostname(name)
  {
    SplitFirst("x", '.', "y");
    SplitNone("y", '.');
    assert "x" + (['.'] + "y") == name;
    var parts := Split(name, '.');
    assert parts == ["x", "y"] && '.' in name;
    assert ValidLabel("x") && ValidLabel("y");
  }

  lemma ShortNameIsClassified(ip: IpParser, name: string)
    requires name == "x.y" && ip(name).None?
    ensures Classify(ip, name) == Clearnet
  {
    ShortNameIsValid(name);
  }

  lemma ShortName(ip: IpParser, name: string, upper: string)
    requires IpLaws(ip) && name == "x.y" && upper == "X.y"
    ensures DetectNetwork(ip, upper) == Clearnet && DetectNetwork(ip, name) == Clearnet
    ensures NormalizeIp(ip, upper) == upper && IsHost(ip, name) && Lower(upper) == name
  {
    assert IpLaw(ip, name) && IpLaw(ip, upper);
    assert !IsIpChar(name[0]) && !IsIpChar(upper[0]);
    assert Lower(name) == name && Lower(upper) == name;
    NothingToStrip(name);
    ShortNameIsClassified(ip, name);
  }

  lemma ShortNameIsDecoded(uri: Uri, upper: string)
    requires upper == "X.y" && uri.host == "%58.y"
    ensures DecodedHost(uri) == upper
  {
    var raw := uri.host;
    NothingToStrip(raw);
    NothingToUnquote(raw[3..]);
    assert EncodedChar(raw) == ('X', 1);
    assert ['X'] + raw[3..] == upper;
  }

  predicate IsPlainName(name: string) {
    name != [] && IsRegName(name) && NoSpaces(name) && forall c :: c in name ==> c !in "/?#@:["
  }

  /** An encoded character in front of letters, digits and dots. */
  lemma TripleIsPlain(name: string)
    requires StartsTriple(name) && forall i :: 1 <= i < |name| ==> IsAlnum(name[i]) || name[i] == '.'
    ensures IsPlainName(name)
  {
    forall i: nat | i < |name| ensures IsRegNameAt(name, i) {
    }
    forall c | c in name ensures c !in "/?#@:[" {
      var i :| 0 <= i < |name| && name[i] == c;
      assert i == 0 || IsAlnum(name[i]) || name[i] == '.';
    }
  }

  lemma EncodedIsPlain(encoded: string)
    requires encoded == "%58.y"
    ensures IsPlainName(encoded) && Lower(encoded) == encoded
  {
    TripleIsPlain(encoded);
  }

  lemma UpperIsPlain(upper: string)
    requires upper == "X.y"
    ensures NoSpaces(upper) && !HasBadChar(upper) && HasAsciiUpper(upper)
    ensures ':' !in upper && '%' !in upper && |upper| <= 2000
  {
    assert 'A' <= upper[0] <= 'Z';
  }

  /** An upper-case letter that comes out of a percent-encoding: the result is not canonical. */
  lemma EncodedUpperCase(ip: IpParser, idna: Idna, scheme: string, encoded: string, upper: string, lower: string)
    requires IpLaws(ip) && IdnaLaws(idna)
    requires scheme == "wss" && encoded == "%58.y" && upper == "X.y" && lower == "x.y"
    ensures SanitizeRelayUrl(ip, idna, Bare(scheme, encoded)) == Some(Bare(scheme, upper))
    ensures SanitizeRelayUrl(ip, idna, Bare(scheme, upper)) != Some(Bare(scheme, upper))
  {
    var uri := Uri(scheme, encoded, [], []);
    EncodedIsPlain(encoded);
    NamedUrl(ip, idna, scheme, encoded);
    ShortName(ip, lower, upper);
    ShortNameIsDecoded(uri, upper);
    UpperIsPlain(upper);
    NamedIsSanitized(ip, idna, Bare(scheme, encoded), uri, scheme, upper);
    FixpointIffPlainHost(ip, idna, Bare(scheme, encoded));
  }

  lemma BracketedName(ip: IpParser, name: string, bracketed: string)
    requires IpLaws(ip) && name == "x.y" && bracketed == "[x.y"
    ensures DetectNetwork(ip, bracketed) == Clearnet && NormalizeIp(ip, bracketed) == bracketed
  {
    assert IpLaw(ip, name) && IpLaw(ip, bracketed);
    assert !IsIpChar(name[0]) && !IsIpChar(bracketed[0]);
    assert Lower(bracketed) == bracketed && bracketed[1..] == name;
    NothingToStrip(name);
    assert StripBrackets(bracketed) == StripBrackets(name);
    ShortNameIsClassified(ip, name);
  }

  lemma BracketedNameIsDecoded(uri: Uri, name: string, bracketed: string)
    requires name == "x.y" && bracketed == "[x.y" && uri.host == "%5bx.y"
    ensures DecodedHost(uri) == bracketed
  {
    var raw := uri.host;
    NothingToStrip(raw);
    assert raw[3..] == name;
    NothingToUnquote(name);
    assert EncodedChar(raw) == ('[', 1);
    assert ['['] + name == bracketed;
  }

  lemma EncodedBracketIsPlain(encoded: string, lowered: string)
    requires encoded == "%5Bx.y" && lowered == "%5bx.y"
    ensures IsPlainName(encoded) && Lower(encoded) == lowered
  {
    TripleIsPlain(encoded);
    assert Lower(encoded) == lowered;
  }

  lemma BracketedIsPlain(bracketed: string)
    requires bracketed == "[x.y"
    ensures HostOrBrackets(bracketed) && HasBracket(bracketed) && NoSpaces(bracketed) && !HasBadChar(bracketed)
    ensures ':' !in bracketed && |bracketed| <= 2000
  {
    assert IsBracket(bracketed[0]);
  }

  /** A bracket that comes out of a percent-encoding: the URL is accepted, and its printed form is not. */
  lemma EncodedBracket(ip: IpParser, idna: Idna, scheme: string, encoded: string, lowered: string, name: string,
          bracketed: string)
    requires IpLaws(ip) && IdnaLaws(idna) && scheme == "wss" && encoded == "%5Bx.y" && lowered == "%5bx.y"
    requires name == "x.y" && bracketed == "[x.y"
    ensures SanitizeRelayUrl(ip, idna, Bare(scheme, encoded)) == Some(Bare(scheme, bracketed))
    ensures SanitizeRelayUrl(ip, idna, Bare(scheme, bracketed)) == None
  {
    var uri := Uri(scheme, lowered, [], []);
    EncodedBracketIsPlain(encoded, lowered);
    NamedUrl(ip, idna, scheme, encoded);
    BracketedName(ip, name, bracketed);
    BracketedNameIsDecoded(uri, name, bracketed);
    BracketedIsPlain(bracketed);
    NamedIsSanitized(ip, idna, Bare(scheme, encoded), uri, scheme, bracketed);
    EmptyPath([]);
    PrintedBare(scheme, bracketed);
    BracketsAreRejected(ip, idna, scheme, bracketed, None, []);
  }

  /** A valid name without a special ending. */
  lemma NameIsClearnet(ip: IpParser, name: string)
    requires IpLaws(ip) && ValidHostname(name) && '%' !in name && name[|name| - 1] == 'y'
    ensures ip(name).None? && Classify(ip, name) == Clearnet
  {
    assert IpLaw(ip, name) && !IsIpChar(name[|name| - 1]);
    if EndsWith(name, ".onion") {
      EndsWithLast(name, ".onion");
    } else if EndsWith(name, ".i2p") {
      EndsWithLast(name, ".i2p");
    } else if EndsWith(name, ".loki") {
      EndsWithLast(name, ".loki");
    }
  }

  /** The network of a host depends on its lower-case form only. */
  lemma NameInAnyCase(ip: IpParser, name: string, host: string)
    requires IpLaws(ip) && ValidHostname(name) && name[|name| - 1] == 'y' && Lower(host) == name
    ensures DetectNetwork(ip, host) == Clearnet && NormalizeIp(ip, host) == host
  {
    ValidHostnameIsName(name);
    NamesHaveHostChars(name);
    HostHasNoOthers(name);
    LowerContains(host, '%');
    NameIsClearnet(ip, name);
    NothingToStrip(name);
    assert IpLaw(ip, host);
  }

  lemma KelvinIsClassified(ip: IpParser, name: string, decoded: string)
    requires IpLaws(ip) && name == "k.x.y" && decoded == "\U{212A}.x.y"
    ensures DetectNetwork(ip, decoded) == Clearnet && NormalizeIp(ip, decoded) == decoded && Lower(decoded) == name
    ensures DetectNetwork(ip, name) == Clearnet && IsHost(ip, name)
  {
    ThreeLabels(name);
    assert Lower(decoded) == name && Lower(name) == name;
    LowerIsFixed(name);
    ValidHostnameIsName(name);
    NamesHaveHostChars(name);
    NameInAnyCase(ip, name, name);
    NameInAnyCase(ip, name, decoded);
  }

  lemma ThreeLabels(name: string)
    requires name == "k.x.y"
    ensures ValidHostname(name)
  {
    var k, x := "k", "x.y";
    ShortNameIsValid(x);
    SplitFirst(k, '.', x);
    assert name == k + (['.'] + x);
    assert ValidLabel(k);
    var parts := Split(name, '.');
    assert parts == [k] + Split(x, '.') && '.' in name;
  }

  lemma KelvinBytes(s: string)
    requires |s| >= 9 && s[..9] == "%e2%84%aa"
    ensures StartsTriple(s) && EncodedChar(s) == (KELVIN, 3)
  {
    var t := s[..9];
    assert s[3..][0] == t[3] && s[3..][1] == t[4] && s[3..][2] == t[5];
    assert s[6..][0] == t[6] && s[6..][1] == t[7] && s[6..][2] == t[8];
    assert Byte(s) == 0xE2 && Byte(s[3..]) == 0x84 && Byte(s[6..]) == 0xAA;
  }

  lemma KelvinIsDecoded(uri: Uri, tail: string, decoded: string)
    requires uri.host == "%e2%84%aa" + tail && decoded == [KELVIN] + tail
    requires '%' !in tail && tail != [] && tail[|tail| - 1] == 'y'
    ensures DecodedHost(uri) == decoded
  {
    var raw := uri.host;
    assert raw[..9] == "%e2%84%aa" && raw[9..] == tail && raw[|raw| - 1] == 'y';
    assert StripBrackets(raw) == raw;
    KelvinBytes(raw);
    NothingToUnquote(tail);
  }

  lemma PlainConcat(a: string, b: string)
    requires IsPlainName(a) && IsPlainName(b)
    ensures IsPlainName(a + b)
  {
    forall i: nat | i < |a + b| ensures IsRegNameAt(a + b, i) {
      assert if i < |a| then IsRegNameAt(a, i) else IsRegNameAt(b, i - |a|);
    }
  }

  lemma EncodedByteIsPlain(byte: string, lowered: string)
    requires StartsTriple(byte) && |byte| == |lowered| == 3
    requires forall i :: 0 <= i < 3 ==> lowered[i] == LowerChar(byte[i])
    ensures IsPlainName(byte) && Lower(byte) == lowered
  {
    TripleIsPlain(byte);
  }

  lemma EncodedKelvinIsPlain(encoded: string, lowered: string)
    requires encoded == "%E2%84%AA" && lowered == "%e2%84%aa"
    ensures IsPlainName(encoded) && Lower(encoded) == lowered
  {
    var a, b, c := encoded[..3], encoded[3..6], encoded[6..];
    EncodedByteIsPlain(a, lowered[..3]);
    EncodedByteIsPlain(b, lowered[3..6]);
    EncodedByteIsPlain(c, lowered[6..]);
    PlainConcat(a, b);
    PlainConcat(a + b, c);
    LowerConcat(a, b);
    LowerConcat(a + b, c);
    assert encoded == (a + b) + c && lowered == (lowered[..3] + lowered[3..6]) + lowered[6..];
  }

  lemma TailIsPlain(tail: string)
    requires tail == ".x.y"
    ensures IsPlainName(tail) && Lower(tail) == tail
  {
    forall i: nat | i < |tail| ensures IsRegNameAt(tail, i) {
    }
  }

  lemma AnyCaseIsClean(s: string)
    requires AnyCaseChars(s)
    ensures NoSpaces(s) && !HasBadChar(s)
  {
  }

  lemma FirstOfTwo(ip: IpParser, idna: Idna, raw: string, uri: Uri, scheme: string, decoded: string)
    requires ParseRaw(ip, idna, raw) == Some(uri) && scheme == SchemeOf(Clearnet)
    requires uri.scheme == scheme && uri.port == uri.path == [] && DecodedHost(uri) == decoded
    requires NormalizeIp(ip, decoded) == decoded && DetectNetwork(ip, decoded) == Clearnet
    requires AnyCaseChars(decoded) && ':' !in decoded && |decoded| <= 2000
    ensures SanitizeRelayUrl(ip, idna, raw) == Some(Bare(scheme, decoded))
  {
    AnyCaseIsClean(decoded);
    NamedIsSanitized(ip, idna, raw, uri, scheme, decoded);
  }

  lemma SecondOfTwo(ip: IpParser, idna: Idna, scheme: string, decoded: string)
    requires IpLaws(ip) && IdnaLaws(idna) && scheme == SchemeOf(Clearnet) && |decoded| <= 2000
    requires IsHostAnyCase(ip, decoded) && DetectNetwork(ip, Lower(decoded)) == Clearnet && ':' !in Lower(decoded)
    ensures SanitizeRelayUrl(ip, idna, Bare(scheme, decoded)) == Some(Bare(scheme, Lower(decoded)))
  {
    LowerContains(decoded, ':');
    EmptyPath([]);
    PrintedBare(scheme, decoded);
    PrintedBare(scheme, Lower(decoded));
    PrintedIsSanitized(ip, idna, Clearnet, decoded, None, []);
  }

  lemma KelvinIsParsed(ip: IpParser, idna: Idna, scheme: string, encoded: string, lowered: string, tail: string)
    returns (uri: Uri)
    requires IsScheme(scheme) && encoded == "%E2%84%AA" && lowered == "%e2%84%aa" && tail == ".x.y"
    ensures ParseRaw(ip, idna, Bare(scheme, encoded + tail)) == Some(uri)
    ensures uri.scheme == scheme && uri.port == uri.path == [] && DecodedHost(uri) == [KELVIN] + tail
  {
    uri := Uri(scheme, lowered + tail, [], []);
    EncodedKelvinIsPlain(encoded, lowered);
    TailIsPlain(tail);
    PlainConcat(encoded, tail);
    LowerConcat(encoded, tail);
    NamedUrl(ip, idna, scheme, encoded + tail);
    KelvinIsDecoded(uri, tail, [KELVIN] + tail);
  }

  lemma TwoPasses(ip: IpParser, idna: Idna, raw: string, uri: Uri, scheme: string, decoded: string)
    requires IpLaws(ip) && IdnaLaws(idna) && ParseRaw(ip, idna, raw) == Some(uri) && scheme == SchemeOf(Clearnet)
    requires uri.scheme == scheme && uri.port == uri.path == [] && DecodedHost(uri) == decoded
    requires NormalizeIp(ip, decoded) == decoded && IsHostAnyCase(ip, decoded) && ':' !in Lower(decoded)
    requires DetectNetwork(ip, decoded) == DetectNetwork(ip, Lower(decoded)) == Clearnet && |decoded| <= 2000
    ensures SanitizeRelayUrl(ip, idna, raw) == Some(Bare(scheme, decoded))
    ensures SanitizeRelayUrl(ip, idna, Bare(scheme, decoded)) == Some(Bare(scheme, Lower(decoded)))
  {
    CharsInAnyCase(decoded);
    LowerContains(decoded, ':');
    FirstOfTwo(ip, idna, raw, uri, scheme, decoded);
    SecondOfTwo(ip, idna, scheme, decoded);
  }

  /**
   A KELVIN SIGN that comes out of a percent-encoding: the network detection reads it
   as k, it is printed as it is, and the next pass prints k.
   */
  lemma EncodedKelvin(ip: IpParser, idna: Idna, scheme: string, encoded: string, tail: string, decoded: string,
          name: string)
    requires IpLaws(ip) && IdnaLaws(idna) && scheme == "wss" && encoded == "%E2%84%AA" && tail == ".x.y"
    requires decoded == "\U{212A}.x.y" && name == "k.x.y"
    ensures SanitizeRelayUrl(ip, idna, Bare(scheme, encoded + tail)) == Some(Bare(scheme, decoded))
    ensures SanitizeRelayUrl(ip, idna, Bare(scheme, decoded)) == Some(Bare(scheme, name))
  {
    var uri := KelvinIsParsed(ip, idna, scheme, encoded, "%e2%84%aa", tail);
    KelvinIsClassified(ip, name, decoded);
    assert decoded == [KELVIN] + tail;
    TwoPasses(ip, idna, Bare(scheme, encoded + tail), uri, scheme, decoded);
  }

  // ----- The relay record -----

  datatype Relay = Relay(url: string, discoveredAt: int, network: Network, scheme: string, host: string,
      port: Option<nat>, path: string)

  predicate HasNullChar(s: string) {
    exists i :: 0 <= i < |s| && s[i] == '\0'
  }

  /** The constructor takes canonical URLs only; `None` is a `ValueError`. An absent path is empty. */
  function NewRelay(ip: IpParser, idna: Idna, url: string, discoveredAt: int): Option<Relay> {
    if HasNullChar(url) || discoveredAt < 0 || SanitizeRelayUrl(ip, idna, url) != Some(url) then None
    else
      var uri := ParseUrl(ip, url);
      if uri.None? || !IsDigits(uri.value.port) then None
      else
        var host := StripBrackets(uri.value.host);
        var network := DetectNetwork(ip, host);
        Some(Relay(url, discoveredAt, network, SchemeOf(network), host, ParsedPort(uri.value.port), uri.value.path))
  }

  /** The record of a canonical URL. */
  lemma RecordOfPrinted(ip: IpParser, idna: Idna, network: Network, host: string, port: Option<nat>, path: string,
          discoveredAt: nat)
    returns (printed: Option<nat>)
    requires IpLaws(ip) && IsHost(ip, host) && IsPort(port) && IsPath(path)
    requires Accepted(network) && DetectNetwork(ip, host) == network
    requires SanitizeRelayUrl(ip, idna, Printed(SchemeOf(network), host, port, path))
         == Some(Printed(SchemeOf(network), host, port, path))
    ensures PortText(SchemeOf(network), printed) == PortText(SchemeOf(network), port)
    ensures var url := Printed(SchemeOf(network), host, port, path);
            NewRelay(ip, idna, url, discoveredAt)
                == Some(Relay(url, discoveredAt, network, SchemeOf(network), host, printed, path))
  {
    var scheme := SchemeOf(network);
    var url := Printed(scheme, host, port, path);
    LowerIsFixed(host);
    HostChars(ip, host);
    NameIsParsed(ip, scheme, host, port, path);
    PrintedHasNoSpaces(scheme, host, port, path);
    PortIsKept(scheme, port);
    HostHasNoOthers(host);
    BracketsAreStripped(host);
    var digits := PortOf(PortText(scheme, port)).value;
    printed := ParsedPort(digits);
    RecordOfParsed(ip, idna, url, Uri(scheme, FormattedHost(host), digits, path), host, discoveredAt);
  }

  lemma RecordOfParsed(ip: IpParser, idna: Idna, url: string, uri: Uri, host: string, discoveredAt: nat)
    requires NoSpaces(url) && SanitizeRelayUrl(ip, idna, url) == Some(url)
    requires ParseUrl(ip, url) == Some(uri) && IsDigits(uri.port) && StripBrackets(uri.host) == host
    ensures NewRelay(ip, idna, url, discoveredAt)
         == Some(Relay(url, discoveredAt, DetectNetwork(ip, host), SchemeOf(DetectNetwork(ip, host)), host,
                ParsedPort(uri.port), uri.path))
  {
  }

  /**
   Only a fixpoint of sanitizing is accepted, and the fields of its record print back to
   it: the scheme is the one of the network, the host has lost its brackets, the
   default port is left out.
   */
  lemma FieldsPrintBack(ip: IpParser, idna: Idna, url: string, discoveredAt: nat)
    requires IpLaws(ip) && IdnaLaws(idna)
    ensures NewRelay(ip, idna, url, discoveredAt).Some? ==> SanitizeRelayUrl(ip, idna, url) == Some(url)
    ensures var r := NewRelay(ip, idna, url, discoveredAt);
            SanitizeRelayUrl(ip, idna, url) == Some(url) && '%' !in RawHost(ip, idna, url) ==>
              && r.Some?
              && r.value.url == url && r.value.discoveredAt == discoveredAt
              && r.value.network == Classify(ip, r.value.host) && r.value.network in {Clearnet, Tor, I2p, Loki}
              && r.value.scheme == (if r.value.network == Clearnet then "wss" else "ws") && IsHost(ip, r.value.host)
              && url == Printed(r.value.scheme, r.value.host, r.value.port, r.value.path)
  {
    if SanitizeRelayUrl(ip, idna, url) != Some(url) || '%' in RawHost(ip, idna, url) {
      return;
    }
    FixpointIffPlainHost(ip, idna, url);
    var network, host, port, path := SecondPass(ip, idna, url);
    PlainIsLower(ip, RawHost(ip, idna, url));
    LowerIsFixed(host);
    var printed := RecordOfPrinted(ip, idna, network, host, port, path, discoveredAt);
    HostHasNoOthers(host);
    NothingToStrip(host);
  }
}
