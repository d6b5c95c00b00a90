/** What sanitizing a relay URL accepts and what it prints, told by the parts of the parsed URL. */
module SanitizedUrl {
  import opened Decimal
  import opened HostNames
  import opened Idn
  import opened Networks
  import opened Nostr
  import opened RelayUrl
  import opened Strings
  import opened UrlLaws
  import opened UrlPath

  /** A character that no host may have. */
  predicate IsBad(c: char) {
    c == ' ' || c == '\t' || c == '\n' || c == '\r' || c == '\0' || c == '\\'
  }

  /** The scheme, the host and the port are fit for a relay. */
  ghost predicate IsAcceptable(ip: IpParser, uri: Uri) {
    var host := DecodedHost(uri);
    && (uri.scheme == "ws" || uri.scheme == "wss")
    && (host != [] ==> !IsSpace(host[0]) && !IsSpace(host[|host| - 1]))
    && (forall c :: c in host ==> !IsBad(c))
    && DetectNetwork(ip, host) in {Clearnet, Tor, I2p, Loki}
    && (forall i :: 0 <= i < |uri.port| ==> '0' <= uri.port[i] <= '9')
    && (uri.port != [] ==> 1 <= Number(uri.port) <= 65535)
  }

  ghost predicate SpellsScheme(text: string, network: Network) {
    text == if network == Clearnet then "wss" else "ws"
  }

  /** An address of version 6 is in brackets. */
  ghost predicate SpellsHost(text: string, host: string) {
    text == if ':' in host then ['['] + (host + [']']) else host
  }

  /** Nothing for an absent port and for the standard one; else a colon and the number, without leading zeros. */
  ghost predicate SpellsPort(text: string, port: string, standard: nat)
    requires IsDigits(port)
  {
    if port == [] || Number(port) == standard then text == []
    else
      && |text| >= 2 && text[0] == ':' && text[1] != '0'
      && IsDigits(text[1..]) && Number(text[1..]) == Number(port)
  }

  /** The segments that are not empty, unless one of them is bad. */
  ghost predicate SpellsPath(text: string, path: string) {
    var whole := Rooted(Split(path, '/'));
    text == if HasPlainSegments(Unquote(whole)) then whole else []
  }

  /** The four parts of the canonical form of an acceptable URL. */
  ghost predicate Spells(ip: IpParser, uri: Uri, scheme: string, host: string, port: string, path: string)
    requires IsDigits(uri.port)
  {
    && SpellsScheme(scheme, DetectNetwork(ip, DecodedHost(uri)))
    && SpellsHost(host, NormalizeIp(ip, DecodedHost(uri)))
    && SpellsPort(port, uri.port, if scheme == "wss" then 443 else 80)
    && SpellsPath(path, uri.path)
  }

  lemma {:induction false} StripShortens(s: string)
    ensures |Strip(s)| <= |s|
  {
    if s != [] && IsSpace(s[0]) {
      StripShortens(s[1..]);
    } else if s != [] && IsSpace(s[|s| - 1]) {
      StripShortens(s[..|s| - 1]);
    }
  }

  lemma StripIsFixed(s: string)
    ensures s == Strip(s) <==> s == [] || (!IsSpace(s[0]) && !IsSpace(s[|s| - 1]))
  {
    if s != [] {
      StripShortens(s[1..]);
      StripShortens(s[..|s| - 1]);
    }
  }

  lemma BadChar(c: char)
    ensures IsBad(c) <==> c in " \t\n\r\\" || c == '\0'
  {
    var bad := " \t\n\r\\";
    assert bad[0] == ' ' && bad[1] == '\t' && bad[2] == '\n' && bad[3] == '\r' && bad[4] == '\\';
  }

  lemma BadChars(host: string)
    ensures HasBadChar(host) <==> exists c :: c in host && IsBad(c)
  {
    if c :| c in host && IsBad(c) {
      var i :| 0 <= i < |host| && host[i] == c;
      BadChar(host[i]);
    }
    if HasBadChar(host) {
      var i :| 0 <= i < |host| && (host[i] in " \t\n\r\\" || host[i] == '\0');
      BadChar(host[i]);
    }
  }

  lemma PortIsSpelled(text: string, port: string, scheme: string)
    requires IsScheme(scheme) && IsDigits(port) && (port != [] ==> Number(port) >= 1)
    ensures SpellsPort(text, port, if scheme == "wss" then 443 else 80) <==> text == PortText(scheme, ParsedPort(port))
  {
    var printed := PortText(scheme, ParsedPort(port));
    if port != [] {
      DigitsAreReadable(Number(port));
      NoLeadingZero(Number(port));
      assert printed != [] ==> printed[1..] == Digits(Number(port));
    }
    if text != [] && text[0] == ':' && text[1..] != [] && text[1] != '0' && IsDigits(text[1..]) {
      NumeralIsUnique(text[1..]);
      assert text == [':'] + text[1..];
    }
  }

  lemma Concatenated(scheme: string, host: string, port: string, path: string)
    ensures scheme + "://" + host + port + path == scheme + ([':'] + ("//" + ((host + port) + path)))
  {
    assert "://" == [':'] + "//";
  }

  lemma AcceptableIff(ip: IpParser, uri: Uri, host: string)
    requires host == DecodedHost(uri)
    ensures IsAcceptable(ip, uri) <==>
              && (uri.scheme == "ws" || uri.scheme == "wss")
              && host == Strip(host) && !HasBadChar(host) && Accepted(DetectNetwork(ip, host))
              && IsDigits(uri.port) && (uri.port == [] || 1 <= Number(uri.port) <= 65535)
  {
    StripIsFixed(host);
    BadChars(host);
    AcceptedNetworks(DetectNetwork(ip, host));
    assert IsDigits(uri.port) <==> forall i :: 0 <= i < |uri.port| ==> '0' <= uri.port[i] <= '9';
  }

  lemma AcceptedNetworks(network: Network)
    ensures Accepted(network) <==> network in {Clearnet, Tor, I2p, Loki}
  {
  }

  lemma PartsArePrinted(ip: IpParser, idna: Idna, raw: string, uri: Uri, scheme: string, host: string,
          port: string, path: string)
    requires ParseRaw(ip, idna, raw) == Some(uri) && IsAcceptable(ip, uri)
    requires Spells(ip, uri, scheme, host, port, path)
    ensures scheme == SchemeOf(DetectNetwork(ip, DecodedHost(uri))) && path == SanitizedPath(uri.path)
    ensures Printed(scheme, NormalizeIp(ip, DecodedHost(uri)), ParsedPort(uri.port), path)
         == scheme + "://" + host + port + path
  {
    PortIsSpelled(port, uri.port, scheme);
    ParsedPathIsNormal(ip, Prepared(idna, raw).value);
    SanitizedPathIsItsSegments(uri.path);
    Concatenated(scheme, host, port, path);
  }

  /**
   A parsed URL is sanitized exactly if it is acceptable and its canonical form has at
   most 2048 characters; the canonical form is the four parts in a row.
   */
  lemma SanitizedIffAcceptable(ip: IpParser, idna: Idna, raw: string, uri: Uri, scheme: string, host: string,
          port: string, path: string)
    requires ParseRaw(ip, idna, raw) == Some(uri) && IsDigits(uri.port) && Spells(ip, uri, scheme, host, port, path)
    ensures var url := scheme + "://" + host + port + path;
            SanitizeRelayUrl(ip, idna, raw) == if IsAcceptable(ip, uri) && |url| <= 2048 then Some(url) else None
  {
    AcceptableIff(ip, uri, DecodedHost(uri));
    if IsAcceptable(ip, uri) {
      PartsArePrinted(ip, idna, raw, uri, scheme, host, port, path);
    }
  }

  /** Every acceptable URL has such parts. */
  lemma PartsExist(ip: IpParser, idna: Idna, raw: string, uri: Uri)
    returns (scheme: string, host: string, port: string, path: string)
    requires ParseRaw(ip, idna, raw) == Some(uri) && IsAcceptable(ip, uri)
    ensures IsDigits(uri.port) && Spells(ip, uri, scheme, host, port, path)
  {
    var network := DetectNetwork(ip, DecodedHost(uri));
    scheme := SchemeOf(network);
    host := FormattedHost(NormalizeIp(ip, DecodedHost(uri)));
    port := PortText(scheme, ParsedPort(uri.port));
    path := SanitizedPath(uri.path);
    PortIsSpelled(port, uri.port, scheme);
    ParsedPathIsNormal(ip, Prepared(idna, raw).value);
    SanitizedPathIsItsSegments(uri.path);
  }

  /** The port that a printed URL is parsed to. */
  ghost predicate KeepsPort(port: string, raw: string, standard: nat)
    requires IsDigits(raw)
  {
    if raw == [] || Number(raw) == standard then port == []
    else port != [] && IsDigits(port) && Number(port) == Number(raw)
  }

  lemma SpelledPortIsRead(text: string, raw: string, standard: nat)
    requires IsDigits(raw) && SpellsPort(text, raw, standard) && PortOf(text).Some?
    ensures KeepsPort(PortOf(text).value, raw, standard)
  {
  }

  /**
   Parsing the canonical form gives back the scheme of the network, the host in lower
   case, the sanitized path, and the port of the raw URL unless it is the standard one:
   443 for wss and 80 for ws.
   */
  lemma CanonicalFormIsReadBack(ip: IpParser, idna: Idna, raw: string, uri: Uri, url: string)
    returns (again: Uri)
    requires IpLaws(ip) && IdnaLaws(idna)
    requires ParseRaw(ip, idna, raw) == Some(uri) && SanitizeRelayUrl(ip, idna, raw) == Some(url)
    requires '%' !in RawHost(ip, idna, raw) && !HasBracket(RawHost(ip, idna, raw))
    ensures ParseRaw(ip, idna, url) == Some(again) && IsDigits(uri.port)
    ensures SpellsScheme(again.scheme, DetectNetwork(ip, DecodedHost(uri)))
    ensures SpellsHost(again.host, Lower(NormalizeIp(ip, DecodedHost(uri))))
    ensures KeepsPort(again.port, uri.port, if again.scheme == "wss" then 443 else 80)
    ensures SpellsPath(again.path, uri.path)
  {
    var d := DecodedHost(uri);
    var network, host, port, path :=
      DetectNetwork(ip, d), NormalizeIp(ip, d), ParsedPort(uri.port), SanitizedPath(uri.path);
    var scheme := SchemeOf(network);
    AcceptedIsHost(ip, d);
    ParsedPathIsNormal(ip, Prepared(idna, raw).value);
    SanitizedPathIsFixed(uri.path);
    SanitizedPathIsItsSegments(uri.path);
    AcceptedIsConvertible(ip, host);
    PrintedIsReadable(ip, idna, scheme, host, port, path);
    PortIsSpelled(PortText(scheme, port), uri.port, scheme);
    SpelledPortIsRead(PortText(scheme, port), uri.port, if scheme == "wss" then 443 else 80);
    again := Uri(scheme, FormattedHost(Lower(host)), PortOf(PortText(scheme, port)).value, path);
  }

  // ----- What is left out of the canonical form -----

  lemma {:induction false} TrimDots(host: string, dots: string)
    requires host == [] || host[|host| - 1] != '.'
    requires forall i :: 0 <= i < |dots| ==> dots[i] == '.'
    ensures TrimRight(host + dots, '.') == host
  {
    var s := host + dots;
    if dots == [] {
      assert s == host;
    } else {
      TrimDots(host, dots[..|dots| - 1]);
      assert s[..|s| - 1] == host + dots[..|dots| - 1] && s[|s| - 1] == dots[|dots| - 1];
    }
  }

  /** Dots after a host do not count. */
  lemma TrailingDotsAreDropped(uri: Uri, host: string, dots: string)
    requires uri.host == host + dots && '%' !in host && !HasBracket(host)
    requires host == [] || host[|host| - 1] != '.'
    requires forall i :: 0 <= i < |dots| ==> dots[i] == '.'
    ensures DecodedHost(uri) == host
  {
    var s := uri.host;
    forall i | 0 <= i < |s| ensures !IsBracket(s[i]) && s[i] != '%' {
      assert if i < |host| then s[i] == host[i] else s[i] == dots[i - |host|];
    }
    NothingToStrip(s);
    NothingToUnquote(s);
    TrimDots(host, dots);
  }

  lemma {:induction false} BeforeStaysFirst(s: string, tail: string, c: char)
    requires c in s
    ensures Before(s + tail, c) == Before(s, c) && After(s + tail, c) == After(s, c) + tail
  {
    assert (s + tail)[1..] == s[1..] + tail;
    if s[0] != c {
      BeforeStaysFirst(s[1..], tail, c);
    }
  }

  lemma {:induction false} TailIsNotTaken(s: string, tail: string, stops: string)
    requires tail != [] && tail[0] in stops
    ensures TakeUntil(s + tail, stops) == TakeUntil(s, stops)
    ensures DropUntil(s + tail, stops) == DropUntil(s, stops) + tail
  {
    if s == [] {
      assert s + tail == tail && [] + tail == tail;
    } else if s[0] !in stops {
      TailIsNotTaken(s[1..], tail, stops);
      assert (s + tail)[1..] == s[1..] + tail;
    }
  }

  /** A query or a fragment after a URL is not looked at. */
  lemma QueryAndFragmentAreDropped(ip: IpParser, s: string, tail: string)
    requires ':' in s && tail != [] && (tail[0] == '?' || tail[0] == '#')
    ensures ParseUrl(ip, s + tail) == ParseUrl(ip, s)
  {
    var rest := After(s, ':');
    BeforeStaysFirst(s, tail, ':');
    assert ':' in s + tail;
    if |rest| >= 2 {
      var inner := rest[2..];
      assert (rest + tail)[..2] == rest[..2] && (rest + tail)[2..] == inner + tail;
      TailIsNotTaken(inner, tail, "/?#");
      TailIsNotTaken(DropUntil(inner, "/?#"), tail, "?#");
    } else if |rest + tail| >= 2 {
      assert (rest + tail)[..2][|rest|] == tail[0] && "//"[|rest|] == '/';
    }
  }
}
