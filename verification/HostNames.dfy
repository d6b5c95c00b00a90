/** Host names: the network they belong to, and which ones are accepted. */
module HostNames {
  import opened Batches
  import opened Decimal
  import opened Networks
  import opened Nostr
  import opened Strings

  /** An IP address: its canonical text, and whether it is private or reserved. */
  datatype Ip = Ip(text: string, local: bool)

  type IpParser = string -> Option<Ip>

  predicate IsIpChar(c: char) {
    '0' <= c <= '9' || 'a' <= c <= 'f' || 'A' <= c <= 'F' || c == ':' || c == '.'
  }

  predicate IsIpText(s: string) {
    && s != [] && !HasUpper(s) && s[|s| - 1] != '.'
    && forall i :: 0 <= i < |s| ==> IsIpChar(s[i])
  }

  /**
   What is assumed of the parser of IP addresses, zone identifiers apart: addresses
   are written with hexadecimal digits, colons and dots, in any case, and the
   canonical text is lower-case and denotes the same address.
   */
  ghost predicate IpLaws(ip: IpParser) {
    forall s :: '%' !in s ==> IpLaw(ip, s)
  }

  ghost predicate IpLaw(ip: IpParser, s: string) {
    && ip(Lower(s)) == ip(s)
    && (ip(s).Some? ==>
          && (forall i :: 0 <= i < |s| ==> IsIpChar(s[i]))
          && IsIpText(ip(s).value.text) && ip(ip(s).value.text) == ip(s))
  }

  predicate IsLabelChar(c: char) {
    'a' <= c <= 'z' || '0' <= c <= '9' || c == '-' || c == '_'
  }

  predicate IsBase32(s: string) {
    forall i :: 0 <= i < |s| ==> 'a' <= s[i] <= 'z' || '2' <= s[i] <= '7'
  }

  predicate ValidLabel(s: string) {
    && 1 <= |s| <= 63 && s[0] != '-' && s[|s| - 1] != '-'
    && forall i :: 0 <= i < |s| ==> IsLabelChar(s[i])
  }

  /** A host name of at least two labels whose last one is not a number. */
  predicate ValidHostname(host: string) {
    var labels := Split(host, '.');
    && '.' in host && |host| <= 253
    && (forall part :: part in labels ==> ValidLabel(part))
    && !IsDigits(labels[|labels| - 1])
  }

  /** Splitting at the last dot: what precedes it, if there is one, and the last label. */
  function LastLabel(name: string): (r: string)
    ensures |r| <= |name|
  {
    var n := |name| - 1;
    if name == [] || name[n] == '.' then [] else LastLabel(name[..n]) + [name[n]]
  }

  function BeforeLastLabel(name: string): string {
    var n := |name| - |LastLabel(name)|;
    if n > 0 then name[..n - 1] else []
  }

  predicate ValidOverlayHostname(name: string, network: Network) {
    name != [] &&
    match network
    case Tor =>
      && |LastLabel(name)| in {56, 16} && IsBase32(LastLabel(name))
      && ('.' !in name || ValidHostname(BeforeLastLabel(name) + ".onion"))
    case Loki => |name| == 52 && IsBase32(name)
    case I2p =>
      if EndsWith(name, ".b32") then |name| == 56 && IsBase32(name[..|name| - 4])
      else ValidHostname(name + ".i2p")
    case _ => false
  }

  predicate IsBracket(c: char) { c == '[' || c == ']' }

  predicate HasBracket(s: string) {
    exists i :: 0 <= i < |s| && IsBracket(s[i])
  }

  /** `s.strip("[]")`. */
  function StripBrackets(s: string): string {
    if s != [] && IsBracket(s[0]) then StripBrackets(s[1..])
    else if s != [] && IsBracket(s[|s| - 1]) then StripBrackets(s[..|s| - 1])
    else s
  }

  function Overlay(bare: string, tld: string, network: Network): Network {
    if |bare| >= |tld| && ValidOverlayHostname(bare[..|bare| - |tld|], network) then network else Unknown
  }

  /** The network of a lower-case host without brackets. */
  function Classify(ip: IpParser, bare: string): Network {
    if EndsWith(bare, ".onion") then Overlay(bare, ".onion", Tor)
    else if EndsWith(bare, ".i2p") then Overlay(bare, ".i2p", I2p)
    else if EndsWith(bare, ".loki") then Overlay(bare, ".loki", Loki)
    else if bare == "localhost" || bare == "localhost.localdomain" then Local
    else
      var address := ip(bare);
      if address.Some? then (if address.value.local then Local else Clearnet)
      else if ValidHostname(bare) then Clearnet
      else Unknown
  }

  function DetectNetwork(ip: IpParser, host: string): Network {
    if host == [] then Unknown else Classify(ip, StripBrackets(Lower(host)))
  }

  function NormalizeIp(ip: IpParser, host: string): string {
    if ip(host).Some? then ip(host).value.text else host
  }

  predicate Accepted(n: Network) {
    n == Clearnet || n == Tor || n == I2p || n == Loki
  }

  predicate IsNameChar(c: char) { IsLabelChar(c) || c == '.' }

  predicate IsName(s: string) {
    forall i :: 0 <= i < |s| ==> IsNameChar(s[i])
  }

  lemma ValidHostnameIsName(host: string)
    requires ValidHostname(host)
    ensures IsName(host)
  {
    forall i | 0 <= i < |host| ensures IsNameChar(host[i]) {
      if host[i] != '.' {
        SplitChars(host, '.', host[i]);
      }
    }
  }

  lemma {:induction false} LastLabelEnds(name: string)
    ensures var last := LastLabel(name);
            if '.' in name
            then |last| < |name| && name == name[..|name| - |last| - 1] + (['.'] + last)
            else last == name
  {
    var n := |name| - 1;
    if name != [] && name[n] != '.' {
      var most, c := name[..n], name[n];
      LastLabelEnds(most);
      assert name == most + [c];
      assert '.' in name <==> '.' in most;
      if '.' in most {
        var last := LastLabel(most);
        Regroup(most[..n - |last| - 1], ['.'] + last, [c]);
        Regroup(['.'], last, [c]);
        assert name[..n - |last| - 1] == most[..n - |last| - 1];
      }
    } else if name != [] {
      assert name == name[..n] + ['.'];
    }
  }

  lemma OverlayIsName(name: string, network: Network)
    requires ValidOverlayHostname(name, network)
    ensures IsName(name)
  {
    if network == Tor {
      LastLabelEnds(name);
      if '.' in name {
        var host := BeforeLastLabel(name) + ".onion";
        ValidHostnameIsName(host);
        assert forall i :: 0 <= i < |BeforeLastLabel(name)| ==> name[i] == host[i];
      }
    } else if network == I2p && EndsWith(name, ".b32") {
      var n := |name| - 4;
      assert name == name[..n] + name[n..];
    } else if network == I2p {
      var host := name + ".i2p";
      ValidHostnameIsName(host);
      assert forall i :: 0 <= i < |name| ==> name[i] == host[i];
    }
  }

  lemma TldsAreNames()
    ensures IsName(".onion") && IsName(".i2p") && IsName(".loki")
  {
  }

  lemma OverlayBareIsName(bare: string, tld: string, network: Network)
    requires EndsWith(bare, tld) && IsName(tld) && Overlay(bare, tld, network) != Unknown
    ensures IsName(bare) && bare != []
  {
    var n := |bare| - |tld|;
    OverlayIsName(bare[..n], network);
    assert bare == bare[..n] + bare[n..];
  }

  /** An accepted host is a name or an address. */
  lemma AcceptedIsNameOrIp(ip: IpParser, bare: string)
    requires Accepted(Classify(ip, bare))
    ensures (IsName(bare) && bare != []) || ip(bare).Some?
  {
    TldsAreNames();
    if EndsWith(bare, ".onion") {
      OverlayBareIsName(bare, ".onion", Tor);
    } else if EndsWith(bare, ".i2p") {
      OverlayBareIsName(bare, ".i2p", I2p);
    } else if EndsWith(bare, ".loki") {
      OverlayBareIsName(bare, ".loki", Loki);
    } else if !ip(bare).Some? {
      ValidHostnameIsName(bare);
    }
  }

  // ----- Lengths of labels -----

  ghost predicate ShortLabels(s: string) {
    forall part :: part in Split(s, '.') ==> 1 <= |part| <= 63
  }

  lemma LabelsOfTwo(a: string, b: string)
    ensures ShortLabels(a + (['.'] + b)) <==> ShortLabels(a) && ShortLabels(b)
  {
    SplitConcat(a, '.', b);
    assert forall part :: part in Split(a, '.') + Split(b, '.') <==> part in Split(a, '.') || part in Split(b, '.');
  }

  lemma OneLabel(s: string)
    requires '.' !in s && 1 <= |s| <= 63
    ensures ShortLabels(s)
  {
    SplitNone(s, '.');
  }

  lemma OnionLabels(name: string)
    requires ValidOverlayHostname(name, Tor)
    ensures ShortLabels(name + (['.'] + "onion"))
  {
    var last, before, tld := LastLabel(name), BeforeLastLabel(name), "onion";
    LastLabelEnds(name);
    OneLabel(last);
    if '.' in name {
      assert name == before + (['.'] + last) && before + ".onion" == before + (['.'] + tld);
      LabelsOfThree(before, last, tld);
    } else {
      OneLabel(tld);
      LabelsOfTwo(name, tld);
    }
  }

  lemma LabelsOfThree(a: string, b: string, c: string)
    requires ShortLabels(a + (['.'] + c)) && ShortLabels(b)
    ensures ShortLabels((a + (['.'] + b)) + (['.'] + c))
  {
    LabelsOfTwo(a, c);
    LabelsOfTwo(a, b);
    LabelsOfTwo(a + (['.'] + b), c);
  }

  lemma I2pLabels(name: string)
    requires ValidOverlayHostname(name, I2p)
    ensures ShortLabels(name + (['.'] + "i2p"))
  {
    assert name + ".i2p" == name + (['.'] + "i2p");
    if EndsWith(name, ".b32") {
      var hash := name[..|name| - 4];
      assert name == hash + (['.'] + "b32");
      OneLabel(hash);
      OneLabel("b32");
      OneLabel("i2p");
      LabelsOfTwo(hash, "b32");
      LabelsOfTwo(name, "i2p");
    }
  }

  lemma LokiLabels(name: string)
    requires ValidOverlayHostname(name, Loki)
    ensures ShortLabels(name + (['.'] + "loki"))
  {
    OneLabel(name);
    OneLabel("loki");
    LabelsOfTwo(name, "loki");
  }

  /** The labels of an accepted name have at most 63 characters, and at least one. */
  lemma AcceptedHasShortLabels(ip: IpParser, bare: string)
    requires Accepted(Classify(ip, bare)) && ip(bare).None?
    ensures ShortLabels(bare)
  {
    if EndsWith(bare, ".onion") {
      assert bare == bare[..|bare| - 6] + (['.'] + "onion");
      OnionLabels(bare[..|bare| - 6]);
    } else if EndsWith(bare, ".i2p") {
      assert bare == bare[..|bare| - 4] + (['.'] + "i2p");
      I2pLabels(bare[..|bare| - 4]);
    } else if EndsWith(bare, ".loki") {
      assert bare == bare[..|bare| - 5] + (['.'] + "loki");
      LokiLabels(bare[..|bare| - 5]);
    }
  }

  lemma {:induction false} NothingToStrip(s: string)
    requires !HasBracket(s)
    ensures StripBrackets(s) == s
  {
  }

  lemma EndsWithLast(s: string, end: string)
    requires end != [] && EndsWith(s, end)
    ensures s != [] && s[|s| - 1] == end[|end| - 1]
  {
    assert s[|s| - |end|..][|end| - 1] == s[|s| - 1];
  }

  lemma AddressHasNoTld(s: string, end: string)
    requires forall i :: 0 <= i < |s| ==> IsIpChar(s[i])
    requires end != [] && !IsIpChar(end[|end| - 1])
    ensures !EndsWith(s, end)
  {
    if EndsWith(s, end) {
      EndsWithLast(s, end);
    }
  }

  /** Overlay and local names have a letter that no address has. */
  lemma AddressesAreNotNames(ip: IpParser, s: string)
    requires ip(s).Some? && forall i :: 0 <= i < |s| ==> IsIpChar(s[i])
    ensures Classify(ip, s) == if ip(s).value.local then Local else Clearnet
  {
    AddressHasNoTld(s, ".onion");
    AddressHasNoTld(s, ".i2p");
    AddressHasNoTld(s, ".loki");
    assert s != [] ==> s[0] != 'l';
  }

  predicate HasHostChars(s: string) {
    forall i :: 0 <= i < |s| ==> IsNameChar(s[i]) || s[i] == ':'
  }

  /** A lower-case host in canonical form; only an address has colons. */
  predicate IsHost(ip: IpParser, s: string) {
    && s != [] && !HasUpper(s) && s[|s| - 1] != '.' && HasHostChars(s)
    && (':' in s ==> ip(s).Some?)
    && NormalizeIp(ip, s) == s
  }

  lemma DetectIsClassify(ip: IpParser, host: string)
    requires host != [] && StripBrackets(Lower(host)) == Lower(host)
    ensures DetectNetwork(ip, host) == Classify(ip, Lower(host))
  {
  }

  lemma IpTextIsPlain(t: string)
    requires IsIpText(t)
    ensures HasHostChars(t) && !HasBracket(t) && '%' !in t && Lower(t) == t
  {
    LowerIsFixed(t);
    forall i | 0 <= i < |t| ensures IsNameChar(t[i]) || t[i] == ':' {
      assert IsIpChar(t[i]) && !('A' <= t[i] <= 'Z');
    }
  }

  lemma AddressIsHost(ip: IpParser, host: string)
    requires IpLaws(ip) && '%' !in host && ip(host).Some?
    ensures var t := NormalizeIp(ip, host);
            Lower(t) == t && IsHost(ip, t) && DetectNetwork(ip, t) == Classify(ip, Lower(host))
  {
    var t, low := NormalizeIp(ip, host), Lower(host);
    assert IpLaw(ip, host);
    IpTextIsPlain(t);
    LowerIsPlain(t);
    DetectIsClassify(ip, t);
    AddressesAreNotNames(ip, t);
    LowerIpChars(host);
    AddressesAreNotNames(ip, low);
  }

  lemma LowerIpChars(s: string)
    requires forall i :: 0 <= i < |s| ==> IsIpChar(s[i])
    ensures forall i :: 0 <= i < |s| ==> IsIpChar(Lower(s)[i])
  {
  }

  lemma LowerIsPlain(host: string)
    requires '%' !in host && !HasBracket(host)
    ensures '%' !in Lower(host) && !HasBracket(Lower(host)) && StripBrackets(Lower(host)) == Lower(host)
  {
    LowerContains(host, '%');
    var low := Lower(host);
    assert forall i :: 0 <= i < |low| ==> !IsBracket(low[i]);
    NothingToStrip(low);
  }

  lemma LowerLast(host: string)
    requires host != [] && host[|host| - 1] != '.'
    ensures Lower(host) != [] && Lower(host)[|host| - 1] != '.'
  {
  }

  lemma NameIsHost(ip: IpParser, host: string)
    requires IpLaws(ip) && '%' !in host && !ip(host).Some? && !HasBracket(host) && host != []
    requires Accepted(Classify(ip, Lower(host))) && host[|host| - 1] != '.'
    ensures IsHost(ip, Lower(host))
  {
    var low := Lower(host);
    assert IpLaw(ip, host);
    LowerIsFixed(host);
    LowerLast(host);
    AcceptedIsNameOrIp(ip, low);
    NamesHaveHostChars(low);
  }

  lemma NamesHaveHostChars(s: string)
    requires IsName(s)
    ensures HasHostChars(s) && ':' !in s
  {
  }

  /** The lower-case form of an accepted host without brackets is a host of the same network. */
  lemma AcceptedIsHost(ip: IpParser, host: string)
    requires IpLaws(ip) && '%' !in host && !HasBracket(host)
    requires Accepted(DetectNetwork(ip, host)) && host[|host| - 1] != '.'
    ensures var low := Lower(NormalizeIp(ip, host));
            IsHost(ip, low) && DetectNetwork(ip, low) == DetectNetwork(ip, host)
  {
    LowerIsPlain(host);
    DetectIsClassify(ip, host);
    if ip(host).Some? {
      AddressIsHost(ip, host);
    } else {
      NameIsHost(ip, host);
      LowerIsFixed(host);
      LowerIsPlain(Lower(host));
      DetectIsClassify(ip, Lower(host));
    }
  }
}
