/**
  Patterns that select session targets: their parser, printer and matcher
  (session-server-forwarder/src/target_pattern.rs).

  A string is a sequence of bytes here, one `char` each.  Reading and printing IP addresses and
  CIDR blocks belongs to other libraries; `IpText` is their interface and `IpText.Lawful` what is
  asked of it.
 */
module TargetPattern {
  import opened Wrappers
  import opened Text

  type Network(==,!new)

  /** An IP address, by version and number. */
  datatype Address = V4(bits: nat) | V6(bits: nat)

  datatype IpText = IpText(
    readAddress: string -> Option<Address>,
    showAddress: Address -> string,
    readNetwork: string -> Option<Network>,
    showNetwork: Network -> string)
  {
    /** Both notations read back, and consist of hexadecimal digits, dots, colons and, for blocks
        only, a slash; an IPv4 address has no colon. */
    ghost predicate Lawful() {
      && (forall a :: readAddress(showAddress(a)) == Some(a) && showAddress(a) != [])
      && (forall a :: ConsistsOf(showAddress(a), if a.V6? then {'.', ':'} else {'.'}))
      && (forall n :: readNetwork(showNetwork(n)) == Some(n) && '/' in showNetwork(n))
      && (forall n :: ConsistsOf(showNetwork(n), {'.', ':', '/'}))
    }
  }

  ghost predicate ConsistsOf(s: string, others: set<char>) {
    forall c :: c in s ==> IsHexDigit(c) || c in others
  }

  type U16 = n: nat | n < 0x1_0000
  type U32 = n: nat | n < 0x1_0000_0000

  datatype Protocol = TCP | UDP

  datatype ProtocolPattern = AnyProtocol | Only(protocol: Protocol)

  datatype HostPattern =
    | AnyHost
    | Name(name: string)
    | Subdomain(suffix: string)
    | Address(address: Address)
    | Network(network: Network)

  datatype PortPattern = AnyPort | Exact(port: U16)

  datatype TargetPattern =
    | Any
    | Service(id: Option<U32>)
    | Stream(protocol: ProtocolPattern, host: HostPattern, port: PortPattern)

  datatype Reason =
    | MissingColon | BadServiceId | UnknownProtocol | MissingPort | BadPort
    | BadNetwork | BadAddress | EmptyHost | NotDnsName

  datatype Parsed<+T> = Ok(value: T) | Err(reason: Reason)

  // ----- Names -----

  predicate IsDnsCharset(name: string) {
    forall c :: c in name ==> IsAlphanumeric(c) || c in {'-', '.', '_'}
  }

  function WithoutRootDot(name: string): string {
    if name != [] && name[|name| - 1] == '.' then name[..|name| - 1] else name
  }

  function DnsName(written: string): Parsed<string> {
    var name := WithoutRootDot(written);
    if name == [] then Err(EmptyHost)
    else if !IsDnsCharset(name) then Err(NotDnsName)
    else Ok(ToLower(name))
  }

  // ----- Parsing -----

  function ParseProtocol(s: string): Parsed<ProtocolPattern> {
    if s == "*" then Ok(AnyProtocol)
    else if ToLower(s) == "tcp" then Ok(Only(TCP))
    else if ToLower(s) == "udp" then Ok(Only(UDP))
    else Err(UnknownProtocol)
  }

  function ParsePort(s: string): Parsed<PortPattern> {
    if s == "*" then Ok(AnyPort)
    else
      match ReadNumber(s)
      case Some(n) => if n < 0x1_0000 then Ok(Exact(n)) else Err(BadPort)
      case None => Err(BadPort)
  }

  function ParseHost(ip: IpText, host: string): Parsed<HostPattern> {
    if host == "*" then Ok(AnyHost)
    else if "*." <= host then
      match DnsName(host[2..])
      case Ok(suffix) => Ok(Subdomain(suffix))
      case Err(reason) => Err(reason)
    else if '/' in host then
      match ip.readNetwork(host)
      case Some(network) => Ok(Network(network))
      case None => Err(BadNetwork)
    else if "[" <= host && |host| > 1 && host[|host| - 1] == ']' then
      match ip.readAddress(host[1..|host| - 1])
      case Some(address) => Ok(Address(address))
      case None => Err(BadAddress)
    else
      match ip.readAddress(host)
      case Some(address) => Ok(Address(address))
      case None =>
        match DnsName(host)
        case Ok(name) => Ok(Name(name))
        case Err(reason) => Err(reason)
  }

  function ParseService(rest: string): Parsed<TargetPattern> {
    if rest == "*" then Ok(Service(None))
    else
      match ReadNumber(rest)
      case Some(n) => if n < 0x1_0000_0000 then Ok(Service(Some(n))) else Err(BadServiceId)
      case None => Err(BadServiceId)
  }

  function ParseStream(ip: IpText, protocol: string, rest: string): Parsed<TargetPattern> {
    match ParseProtocol(protocol)
    case Err(reason) => Err(reason)
    case Ok(p) =>
      match SplitLast(rest, ':')
      case None => Err(MissingPort)
      case Some((host, port)) =>
        match ParsePort(port)
        case Err(reason) => Err(reason)
        case Ok(o) =>
          match ParseHost(ip, host)
          case Err(reason) => Err(reason)
          case Ok(h) => Ok(Stream(p, h, o))
  }

  function Parse(ip: IpText, s: string): Parsed<TargetPattern> {
    var pattern := Trim(s);
    if pattern == "*" then Ok(Any)
    else
      match SplitFirst(pattern, ':')
      case None => Err(MissingColon)
      case Some((protocol, rest)) =>
        if ToLower(protocol) == "service" then ParseService(rest) else ParseStream(ip, protocol, rest)
  }

  // ----- Printing -----

  function ShowProtocol(p: ProtocolPattern): string {
    match p
    case AnyProtocol => "*"
    case Only(TCP) => "tcp"
    case Only(UDP) => "udp"
  }

  function ShowHost(ip: IpText, h: HostPattern): string {
    match h
    case AnyHost => "*"
    case Name(name) => name
    case Subdomain(suffix) => "*." + suffix
    case Address(a) => if a.V6? then "[" + ip.showAddress(a) + "]" else ip.showAddress(a)
    case Network(n) => ip.showNetwork(n)
  }

  function ShowPort(p: PortPattern): string {
    match p
    case AnyPort => "*"
    case Exact(n) => ShowNumber(n)
  }

  function Show(ip: IpText, p: TargetPattern): string {
    match p
    case Any => "*"
    case Service(None) => "service" + ":" + "*"
    case Service(Some(id)) => "service" + ":" + ShowNumber(id)
    case Stream(protocol, host, port) =>
      ShowProtocol(protocol) + ":" + (ShowHost(ip, host) + ":" + ShowPort(port))
  }

  // ----- The round trip -----

  /** Lower-case letters, digits, hyphens, underscores and dots, with no dot at the end. */
  ghost predicate IsNormalName(name: string) {
    && name != [] && name[|name| - 1] != '.'
    && forall c :: c in name ==> 'a' <= c <= 'z' || '0' <= c <= '9' || c in {'-', '.', '_'}
  }

  lemma NormalIsLowerDns(name: string)
    ensures IsNormalName(name) <==> name != [] && !EndsWithDot(name) && IsDnsCharset(name) && ToLower(name) == name
  {
    ToLowerKeeps(name);
    if IsNormalName(name) {
      LowerIsItself(name);
    } else if name != [] && IsDnsCharset(name) && ToLower(name) == name {
      forall i | 0 <= i < |name| ensures !IsUpper(name[i]) && (IsAlphanumeric(name[i]) || name[i] in {'-', '.', '_'}) {
        assert name[i] in name;
      }
    }
  }

  /** The patterns that read back as themselves: names are normal, and an exact name does not
      read as an address. */
  ghost predicate IsWellFormed(ip: IpText, p: TargetPattern) {
    p.Stream? ==>
      match p.host
      case Name(name) => IsNormalName(name) && ip.readAddress(name) == None
      case Subdomain(suffix) => IsNormalName(suffix)
      case _ => true
  }

  lemma DnsNameIsNormal(written: string)
    ensures DnsName(written) == Ok(written) <==> IsNormalName(written)
  {
    NormalIsLowerDns(written);
    if DnsName(written) == Ok(written) {
      ToLowerKeeps(WithoutRootDot(written));
      assert |written| == |WithoutRootDot(written)|;
    }
  }

  lemma PortRoundTrip(p: PortPattern)
    ensures ParsePort(ShowPort(p)) == Ok(p) && ':' !in ShowPort(p)
    ensures ShowPort(p) != [] && !IsWhitespace(ShowPort(p)[|ShowPort(p)| - 1])
  {
    if p.Exact? {
      NumberRoundTrip(p.port);
    }
  }

  lemma AddressRoundTrip(ip: IpText, a: Address)
    requires ip.Lawful()
    ensures ParseHost(ip, ShowHost(ip, Address(a))) == Ok(Address(a))
  {
    var s, text := ShowHost(ip, Address(a)), ip.showAddress(a);
    assert ConsistsOf(text, if a.V6? then {'.', ':'} else {'.'});
    assert forall c :: c in text ==> c != '/' && c != '*' && c != '[';
    if a.V6? {
      assert s[0] == '[' && s[|s| - 1] == ']' && s[1..|s| - 1] == text;
      assert forall c :: c in s ==> c in text || c == '[' || c == ']';
      assert '/' !in s && !("*." <= s) && s != "*";
    } else {
      assert text[0] in text;
      assert '/' !in s && !("*." <= s) && s != "*" && !("[" <= s);
    }
  }

  lemma HostRoundTrip(ip: IpText, h: HostPattern)
    requires ip.Lawful()
    ensures ParseHost(ip, ShowHost(ip, h)) == Ok(h) <==>
            match h
            case Name(name) => IsNormalName(name) && ip.readAddress(name) == None
            case Subdomain(suffix) => IsNormalName(suffix)
            case _ => true
  {
    var s := ShowHost(ip, h);
    match h
    case AnyHost =>
    case Name(name) => NameRoundTrip(ip, name);
    case Subdomain(suffix) =>
      DnsNameIsNormal(suffix);
      assert s[2..] == suffix && s != "*" && "*." <= s;
    case Address(a) => AddressRoundTrip(ip, a);
    case Network(n) => assert s[0] in s;
  }

  lemma NameRoundTrip(ip: IpText, name: string)
    ensures ParseHost(ip, name) == Ok(Name(name)) <==> IsNormalName(name) && ip.readAddress(name) == None
  {
    DnsNameIsNormal(name);
    if IsNormalName(name) {
      assert name[0] in name;
    }
  }

  lemma ShowIsTrimmed(ip: IpText, p: TargetPattern)
    ensures Trim(Show(ip, p)) == Show(ip, p)
  {
    var s := Show(ip, p);
    match p
    case Any => TrimKeeps(s);
    case Service(id) =>
      if id.Some? {
        NumberRoundTrip(id.value);
      }
      assert s[0] == 's';
      TrimKeeps(s);
    case Stream(protocol, host, port) =>
      PortRoundTrip(port);
      TrimmedBetween(ShowProtocol(protocol), ":", ShowHost(ip, host) + ":", ShowPort(port));
  }

  lemma TrimmedBetween(first: string, colon: string, middle: string, last: string)
    requires first != [] && !IsWhitespace(first[0]) && last != [] && !IsWhitespace(last[|last| - 1])
    ensures Trim(first + colon + (middle + last)) == first + colon + (middle + last)
  {
    var s := first + colon + (middle + last);
    assert s[0] == first[0] && s[|s| - 1] == last[|last| - 1];
    TrimKeeps(s);
  }

  /** Printing a pattern and parsing the result gives the pattern back exactly when the pattern
      is well formed. */
  lemma RoundTrip(ip: IpText, p: TargetPattern)
    requires ip.Lawful()
    ensures Parse(ip, Show(ip, p)) == Ok(p) <==> IsWellFormed(ip, p)
  {
    ShowIsTrimmed(ip, p);
    match p
    case Any =>
    case Service(id) => ServiceRoundTrip(ip, id);
    case Stream(protocol, host, port) => StreamRoundTrip(ip, protocol, host, port);
  }

  lemma ServiceRoundTrip(ip: IpText, id: Option<U32>)
    ensures Parse(ip, Show(ip, Service(id))) == Ok(Service(id))
  {
    ShowIsTrimmed(ip, Service(id));
    var rest := if id.None? then "*" else ShowNumber(id.value);
    SplitFirstAt("service", ':', rest);
    assert Show(ip, Service(id)) == "service" + [':'] + rest;
    assert Show(ip, Service(id))[0] == 's';
    LowerIsItself("service");
    if id.Some? {
      NumberRoundTrip(id.value);
    }
  }

  /** A text of three parts is parsed part by part, whatever colons the host contains; the first
      part that fails, host last, is the reason it gives. */
  lemma ParseParts(ip: IpText, front: string, host: string, port: string)
    requires ':' !in front && ToLower(front) != "service" && ':' !in port
    requires front != [] ==> !IsWhitespace(front[0])
    requires port != [] ==> !IsWhitespace(port[|port| - 1])
    ensures var (p, h, o) := (ParseProtocol(front), ParseHost(ip, host), ParsePort(port));
            Parse(ip, front + ":" + (host + ":" + port)) ==
            if p.Err? then Err(p.reason)
            else if o.Err? then Err(o.reason)
            else if h.Err? then Err(h.reason)
            else Ok(Stream(p.value, h.value, o.value))
  {
    var rest := host + ":" + port;
    var s := front + ":" + rest;
    assert |s| > 1 && s[0] == if front == [] then ':' else front[0];
    assert s[|s| - 1] == if port == [] then ':' else port[|port| - 1];
    TrimKeeps(s);
    SplitFirstAt(front, ':', rest);
    SplitLastAt(host, ':', port);
  }

  lemma ProtocolRoundTrip(p: ProtocolPattern)
    ensures ParseProtocol(ShowProtocol(p)) == Ok(p)
    ensures ToLower(ShowProtocol(p)) == ShowProtocol(p) && ShowProtocol(p) in {"*", "tcp", "udp"}
  {
    LowerIsItself(ShowProtocol(p));
  }

  lemma StreamRoundTrip(ip: IpText, protocol: ProtocolPattern, host: HostPattern, port: PortPattern)
    requires ip.Lawful()
    ensures var p := Stream(protocol, host, port);
            Parse(ip, Show(ip, p)) == Ok(p) <==> IsWellFormed(ip, p)
  {
    PortRoundTrip(port);
    HostRoundTrip(ip, host);
    ProtocolRoundTrip(protocol);
    ParseParts(ip, ShowProtocol(protocol), ShowHost(ip, host), ShowPort(port));
  }

  lemma DnsNameIsLower(written: string)
    ensures var r := DnsName(written);
            r.Ok? ==> r.value != [] && IsDnsCharset(r.value) && ToLower(r.value) == r.value
  {
    var name := WithoutRootDot(written);
    ToLowerKeeps(name);
    ToLowerKeeps(ToLower(name));
    if DnsName(written).Ok? {
      forall i | 0 <= i < |name| ensures IsAlphanumeric(ToLower(name)[i]) || ToLower(name)[i] in {'-', '.', '_'} {
        assert name[i] in name;
      }
    }
  }

  predicate EndsWithDot(name: string) {
    name != [] && name[|name| - 1] == '.'
  }

  /** A parsed name is normal but for a dot that may be left at its end. */
  lemma ParsedHostIsNormal(ip: IpText, host: string)
    ensures match ParseHost(ip, host)
            case Ok(Name(name)) => IsNormalName(name) <==> !EndsWithDot(name)
            case Ok(Subdomain(suffix)) => IsNormalName(suffix) <==> !EndsWithDot(suffix)
            case _ => true
  {
    DnsNameIsLower(host);
    if DnsName(host).Ok? {
      NormalIsLowerDns(DnsName(host).value);
    }
    if "*." <= host {
      DnsNameIsLower(host[2..]);
      if DnsName(host[2..]).Ok? {
        NormalIsLowerDns(DnsName(host[2..]).value);
      }
    }
  }

  lemma ParsedStream(ip: IpText, s: string, p: TargetPattern) returns (host: string)
    requires Parse(ip, s) == Ok(p) && p.Stream?
    ensures ParseHost(ip, host) == Ok(p.host)
  {
    var parts := SplitFirst(Trim(s), ':').value;
    host := SplitLast(parts.1, ':').value.0;
  }

  /** A parsed pattern prints back to itself exactly when its name keeps no dot at the end and
      an exact name does not read as an address. */
  lemma ParsedPatternReadsBack(ip: IpText, s: string, p: TargetPattern)
    requires ip.Lawful() && Parse(ip, s) == Ok(p)
    ensures Parse(ip, Show(ip, p)) == Ok(p) <==>
            (p.Stream? ==>
              match p.host
              case Name(name) => !EndsWithDot(name) && ip.readAddress(name) == None
              case Subdomain(suffix) => !EndsWithDot(suffix)
              case _ => true)
  {
    RoundTrip(ip, p);
    if p.Stream? {
      var host := ParsedStream(ip, s, p);
      ParsedHostIsNormal(ip, host);
    }
  }

  lemma RootDotIsDropped(ip: IpText, name: string)
    requires IsNormalName(name) && ip.readAddress(name + ".") == None
    ensures ParseHost(ip, name + ".") == Ok(Name(name))
  {
    var host := name + ".";
    NormalIsLowerDns(name);
    assert name[0] in name && host[0] == name[0];
    assert forall c :: c in host ==> c in name || c == '.';
    assert WithoutRootDot(host) == name;
  }

  /** What parsing accepts need not read back: a name that is an address but for a root dot is
      taken as a name, printed without the dot, and then read as that address. */
  lemma RootDotHidesAnAddress(ip: IpText, a: Address)
    requires ip.Lawful() && IsNormalName(ip.showAddress(a)) && ip.readAddress(ip.showAddress(a) + ".") == None
    ensures var p := Stream(Only(TCP), Name(ip.showAddress(a)), AnyPort);
            && Parse(ip, "tcp" + ":" + (ip.showAddress(a) + "." + ":" + "*")) == Ok(p)
            && Parse(ip, Show(ip, p)) != Ok(p)
  {
    RootDotIsDropped(ip, ip.showAddress(a));
    LowerIsItself("tcp");
    ParseParts(ip, "tcp", ip.showAddress(a) + ".", "*");
    RoundTrip(ip, Stream(Only(TCP), Name(ip.showAddress(a)), AnyPort));
  }

  // ----- Matching -----

  /** The host of an unsealed target, with its port. */
  datatype IpOrHost = Dns(name: string, port: U16) | Ip(address: Address, port: U16)

  datatype Target = StreamTo(protocol: Protocol, host: IpOrHost) | ToService(id: U32)

  /** `contains` says which addresses lie in a block. */
  predicate MatchesHost(h: HostPattern, host: IpOrHost, contains: (Network, Address) -> bool) {
    match (h, host)
    case (AnyHost, _) => true
    case (Name(wanted), Dns(name, _)) => ToLower(wanted) == ToLower(WithoutRootDot(name))
    case (Subdomain(suffix), Dns(written, _)) =>
      var name := WithoutRootDot(written);
      var dot := |name| - |suffix| - 1;
      dot >= 0 && name[dot] == '.' && ToLower(suffix) == ToLower(name[dot + 1..])
    case (Address(wanted), Ip(address, _)) => wanted == address
    case (Network(network), Ip(address, _)) => contains(network, address)
    case (_, _) => false
  }

  predicate Matches(p: TargetPattern, t: Target, contains: (Network, Address) -> bool) {
    match (p, t)
    case (Any, _) => true
    case (Service(None), ToService(_)) => true
    case (Service(Some(wanted)), ToService(id)) => wanted == id
    case (Stream(protocol, host, port), StreamTo(targetProtocol, target)) =>
      && (protocol.Only? ==> protocol.protocol == targetProtocol)
      && (port.Exact? ==> port.port == target.port)
      && MatchesHost(host, target, contains)
    case (_, _) => false
  }

  /** A subdomain pattern matches the names that continue its suffix to the left after a dot. */
  lemma SubdomainMatches(suffix: string, written: string, port: U16, contains: (Network, Address) -> bool)
    ensures MatchesHost(Subdomain(suffix), Dns(written, port), contains) <==>
            exists front :: ToLower(WithoutRootDot(written)) == front + "." + ToLower(suffix)
  {
    var name := WithoutRootDot(written);
    var dot := |name| - |suffix| - 1;
    ToLowerKeeps(name);
    ToLowerKeeps(suffix);
    if MatchesHost(Subdomain(suffix), Dns(written, port), contains) {
      LowerFrom(name, dot + 1);
      assert ToLower(name) == ToLower(name)[..dot] + "." + ToLower(suffix);
    }
    if front :| ToLower(name) == front + "." + ToLower(suffix) {
      EndsWithSuffix(name, front, ToLower(suffix));
    }
  }

  lemma EndsWithSuffix(name: string, front: string, suffix: string)
    requires ToLower(name) == front + "." + suffix
    ensures |name| == |front| + 1 + |suffix| && name[|front|] == '.' && ToLower(name[|front| + 1..]) == suffix
  {
    ToLowerKeeps(name);
    AfterFront(front, suffix);
    LowerFrom(name, |front| + 1);
    LowerDot(name[|front|]);
  }

  lemma AfterFront(front: string, suffix: string)
    ensures var s := front + "." + suffix;
            |s| == |front| + 1 + |suffix| && s[|front|] == '.' && s[|front| + 1..] == suffix
  {
  }

  lemma LowerDot(c: char)
    ensures LowerChar(c) == '.' <==> c == '.'
  {
  }

  lemma LowerFrom(s: string, i: nat)
    requires i <= |s|
    ensures |ToLower(s)| == |s| && ToLower(s)[i..] == ToLower(s[i..])
  {
    ToLowerKeeps(s);
    ToLowerKeeps(s[i..]);
  }

  /** The same with a label, of the host's own, in front of the suffix. */
  ghost predicate IsSubdomain(suffix: string, written: string) {
    exists front :: front != [] && !EndsWithDot(front)
                    && ToLower(WithoutRootDot(written)) == front + "." + ToLower(suffix)
  }

  /** The name has an empty label in front of a suffix of length `n`. */
  predicate LacksLabel(written: string, n: nat) {
    var name := WithoutRootDot(written);
    var dot := |name| - n - 1;
    dot == 0 || (0 < dot && name[dot - 1] == '.')
  }

  /** A name that a subdomain pattern matches is a subdomain unless the label in front of the
      suffix is empty. */
  lemma MatchIsSubdomain(suffix: string, written: string, port: U16, contains: (Network, Address) -> bool)
    ensures IsSubdomain(suffix, written) <==>
            MatchesHost(Subdomain(suffix), Dns(written, port), contains) && !LacksLabel(written, |suffix|)
  {
    var name := WithoutRootDot(written);
    var dot := |name| - |suffix| - 1;
    SubdomainMatches(suffix, written, port, contains);
    ToLowerKeeps(name);
    ToLowerKeeps(suffix);
    if front :| ToLower(name) == front + "." + ToLower(suffix) {
      assert |front| == dot;
      assert forall i :: 0 <= i < dot ==> front[i] == ToLower(name)[i];
    }
  }

  /** `.example.com` matches `*.example.com`, although it is no subdomain. */
  lemma EmptyLabelMatches(suffix: string, port: U16, contains: (Network, Address) -> bool)
    requires IsNormalName(suffix)
    ensures MatchesHost(Subdomain(suffix), Dns("." + suffix, port), contains) && !IsSubdomain(suffix, "." + suffix)
  {
    var written := "." + suffix;
    assert written[|written| - 1] == suffix[|suffix| - 1] != '.';
    assert WithoutRootDot(written) == written && written[1..] == suffix;
    MatchIsSubdomain(suffix, written, port, contains);
  }

  lemma SameSpelling(name: string, other: string)
    requires !EndsWithDot(name)
    requires ToLower(other) == ToLower(name) || other == name + "."
    ensures ToLower(WithoutRootDot(name)) == ToLower(WithoutRootDot(other))
  {
    if other != name + "." {
      CaseKeepsEnd(name, other);
      assert WithoutRootDot(name) == name && WithoutRootDot(other) == other;
    }
  }

  lemma CaseKeepsEnd(name: string, other: string)
    requires ToLower(other) == ToLower(name)
    ensures EndsWithDot(name) <==> EndsWithDot(other)
  {
    ToLowerKeeps(name);
    ToLowerKeeps(other);
    assert name != [] ==> ToLower(name)[|name| - 1] == ToLower(other)[|name| - 1];
  }

  lemma SpellingOfHost(h: HostPattern, name: string, other: string, port: U16, contains: (Network, Address) -> bool)
    requires ToLower(WithoutRootDot(name)) == ToLower(WithoutRootDot(other))
    ensures MatchesHost(h, Dns(name, port), contains) == MatchesHost(h, Dns(other, port), contains)
  {
    if h.Subdomain? {
      SubdomainMatches(h.suffix, name, port, contains);
      SubdomainMatches(h.suffix, other, port, contains);
    }
  }

  /** The pattern that names every part of a target. */
  function PatternOf(t: Target): TargetPattern {
    match t
    case ToService(id) => Service(Some(id))
    case StreamTo(protocol, Dns(name, port)) =>
      Stream(Only(protocol), Name(ToLower(WithoutRootDot(name))), Exact(port))
    case StreamTo(protocol, Ip(address, port)) => Stream(Only(protocol), Address(address), Exact(port))
  }

  /** The same target, but for the spelling of its name. */
  predicate IsSameTarget(t: Target, u: Target) {
    match (t, u)
    case (StreamTo(p, Dns(name, o)), StreamTo(q, Dns(other, r))) =>
      p == q && o == r && ToLower(WithoutRootDot(name)) == ToLower(WithoutRootDot(other))
    case (_, _) => t == u
  }

  lemma MatchesItsTargetOnly(t: Target, u: Target, contains: (Network, Address) -> bool)
    ensures Matches(PatternOf(t), u, contains) <==> IsSameTarget(t, u)
  {
    if t.StreamTo? && t.host.Dns? {
      var name := WithoutRootDot(t.host.name);
      ToLowerKeeps(name);
      ToLowerKeeps(ToLower(name));
      assert ToLower(ToLower(name)) == ToLower(name);
    }
  }

  /** Neither one root dot after a name that has none nor the case of its letters changes what
      matches it. */
  lemma SpellingDoesNotMatter(p: TargetPattern, protocol: Protocol, name: string, other: string, port: U16,
                              contains: (Network, Address) -> bool)
    requires !EndsWithDot(name)
    requires ToLower(other) == ToLower(name) || other == name + "."
    ensures Matches(p, StreamTo(protocol, Dns(name, port)), contains)
            == Matches(p, StreamTo(protocol, Dns(other, port)), contains)
  {
    SameSpelling(name, other);
    if p.Stream? {
      SpellingOfHost(p.host, name, other, port, contains);
    }
  }

  // ----- What the open parts of a pattern stand for -----

  lemma AnyProtocolIsUnion(h: HostPattern, o: PortPattern, t: Target, contains: (Network, Address) -> bool)
    ensures Matches(Stream(AnyProtocol, h, o), t, contains) <==>
            exists q: Protocol :: Matches(Stream(Only(q), h, o), t, contains)
  {
    if t.StreamTo? && Matches(Stream(AnyProtocol, h, o), t, contains) {
      assert Matches(Stream(Only(t.protocol), h, o), t, contains);
    }
  }

  lemma AnyPortIsUnion(p: ProtocolPattern, h: HostPattern, t: Target, contains: (Network, Address) -> bool)
    ensures Matches(Stream(p, h, AnyPort), t, contains) <==>
            exists n: U16 :: Matches(Stream(p, h, Exact(n)), t, contains)
  {
    if t.StreamTo? && Matches(Stream(p, h, AnyPort), t, contains) {
      assert Matches(Stream(p, h, Exact(t.host.port)), t, contains);
    }
  }

  lemma AnyServiceIsUnion(t: Target, contains: (Network, Address) -> bool)
    ensures Matches(Service(None), t, contains) <==> exists id: U32 :: Matches(Service(Some(id)), t, contains)
  {
    if t.ToService? {
      assert Matches(Service(Some(t.id)), t, contains);
    }
  }

  /** A block stands for the addresses in it. */
  lemma NetworkIsUnion(p: ProtocolPattern, n: Network, o: PortPattern, t: Target, contains: (Network, Address) -> bool)
    ensures Matches(Stream(p, HostPattern.Network(n), o), t, contains) <==>
            exists a: Address :: contains(n, a) && Matches(Stream(p, HostPattern.Address(a), o), t, contains)
  {
    if Matches(Stream(p, HostPattern.Network(n), o), t, contains) {
      assert contains(n, t.host.address) && Matches(Stream(p, HostPattern.Address(t.host.address), o), t, contains);
    }
  }

  /** Any host: every stream that the protocol and the port admit; any target: all of them. */
  lemma OpenPatterns(p: ProtocolPattern, o: PortPattern, t: Target, contains: (Network, Address) -> bool)
    ensures Matches(Any, t, contains)
    ensures Matches(Stream(p, AnyHost, o), t, contains) <==>
            && t.StreamTo?
            && (p == AnyProtocol || p == Only(t.protocol))
            && (o == AnyPort || o == Exact(t.host.port))
  {
  }

  /** Protocol, host and port of a pattern are asked for one by one. */
  lemma PartsAreIndependent(p: ProtocolPattern, h: HostPattern, o: PortPattern, t: Target,
                            contains: (Network, Address) -> bool)
    ensures Matches(Stream(p, h, o), t, contains) <==>
            Matches(Stream(p, AnyHost, o), t, contains) && Matches(Stream(AnyProtocol, h, AnyPort), t, contains)
  {
  }

  /** Names and suffixes stand for hosts that are named, addresses for hosts that are not. */
  lemma HostKinds(h: HostPattern, t: Target, contains: (Network, Address) -> bool)
    requires Matches(Stream(AnyProtocol, h, AnyPort), t, contains) && !h.AnyHost?
    ensures t.StreamTo? && (t.host.Dns? <==> h.Name? || h.Subdomain?)
  {
  }

  // ----- What a written pattern stands for -----

  lemma WithoutRootDotOnce(name: string)
    requires !EndsWithDot(name)
    ensures WithoutRootDot(name) == name
  {
  }

  /** A rule written with a name matches the target of that name, however either is spelled. */
  lemma WrittenNameMatches(ip: IpText, host: string, name: string, port: U16, contains: (Network, Address) -> bool)
    requires ParseHost(ip, host) == Ok(Name(name))
    ensures MatchesHost(Name(name), Dns(host, port), contains)
  {
    ToLowerTwice(WithoutRootDot(host));
  }

  /** A rule written with a leading wildcard label matches every name that ends in the rest. */
  lemma WrittenSuffixMatches(ip: IpText, rest: string, suffix: string, front: string, port: U16,
                             contains: (Network, Address) -> bool)
    requires ParseHost(ip, "*." + rest) == Ok(Subdomain(suffix))
    ensures MatchesHost(Subdomain(suffix), Dns(front + "." + rest, port), contains)
  {
    assert ("*." + rest)[2..] == rest;
    var written := front + "." + rest;
    assert rest != [] && written[|written| - 1] == rest[|rest| - 1];
    assert WithoutRootDot(written) == front + "." + WithoutRootDot(rest);
    ToLowerTwice(WithoutRootDot(rest));
    ToLowerKeeps(WithoutRootDot(rest));
    var name := WithoutRootDot(written);
    assert name[|front|] == '.' && name[|front| + 1..] == WithoutRootDot(rest);
  }

  lemma ToLowerTwice(s: string)
    ensures ToLower(ToLower(s)) == ToLower(s)
  {
    ToLowerKeeps(s);
    ToLowerKeeps(ToLower(s));
  }

  /** The case of the protocol does not matter. */
  lemma ProtocolIgnoresCase(s: string, r: string)
    requires ToLower(s) == ToLower(r)
    ensures ParseProtocol(s) == ParseProtocol(r)
  {
    ToLowerKeeps(s);
    ToLowerKeeps(r);
    LowerIsItself("*");
    assert s == "*" <==> ToLower(s) == "*";
    assert r == "*" <==> ToLower(r) == "*";
  }

  /** Nor does the case of `service`, nor space around the whole pattern. */
  lemma ParseIgnoresCaseAndSpace(ip: IpText, front: string, other: string, rest: string, before: string, after: string)
    requires ToLower(front) == ToLower(other) && ':' !in front && ':' !in other
    requires front != [] && !IsWhitespace(front[0]) && !IsWhitespace(other[0])
    requires rest != [] && !IsWhitespace(rest[|rest| - 1])
    requires forall c :: c in before || c in after ==> IsWhitespace(c)
    ensures Parse(ip, before + (other + ":" + rest) + after) == Parse(ip, front + ":" + rest)
  {
    var (s, r) := (front + ":" + rest, other + ":" + rest);
    TrimIgnoresSpace(before, r, after);
    ToLowerKeeps(front);
    ToLowerKeeps(other);
    assert s[0] == front[0] && r[0] == other[0] && s[|s| - 1] == rest[|rest| - 1] == r[|r| - 1];
    TrimKeeps(s);
    TrimKeeps(r);
    SplitFirstAt(front, ':', rest);
    SplitFirstAt(other, ':', rest);
    ProtocolIgnoresCase(front, other);
  }
}
