/** Network policy of the WASM plugin sandbox
    (crates/opencrust-plugins/src/runtime.rs): which addresses count as
    private, how allowlisted domains become a set of permitted IPs, and which
    socket operations a plugin may perform. */
module PluginNet {
  import opened Common
  import opened Errors

  type u8 = x: int | 0 <= x < 0x100

  /** An IPv6 address as its eight 16-bit segments. */
  type Segments = s: seq<bv16> | |s| == 8 witness [0, 0, 0, 0, 0, 0, 0, 0]

  datatype IpAddr = V4(a: u8, b: u8, c: u8, d: u8) | V6(segments: Segments)

  /** `Ipv4Addr::is_loopback`: 127.0.0.0/8. */
  predicate V4Loopback(ip: IpAddr) requires ip.V4? { ip.a == 127 }

  /** `Ipv4Addr::is_unspecified`: 0.0.0.0. */
  predicate V4Unspecified(ip: IpAddr) requires ip.V4? {
    ip.a == 0 && ip.b == 0 && ip.c == 0 && ip.d == 0
  }

  /** `Ipv6Addr::is_loopback`: ::1. */
  predicate V6Loopback(ip: IpAddr) requires ip.V6? {
    ip.segments == [0, 0, 0, 0, 0, 0, 0, 1]
  }

  /** `Ipv6Addr::is_unspecified`: ::. */
  predicate V6Unspecified(ip: IpAddr) requires ip.V6? {
    ip.segments == [0, 0, 0, 0, 0, 0, 0, 0]
  }

  /** `is_private_ip`, check by check as the source writes it. */
  predicate IsPrivateIp(ip: IpAddr) {
    match ip
    case V4(a, b, _, _) =>
      V4Loopback(ip)
      || a == 10
      || (a == 172 && 16 <= b <= 31)
      || (a == 192 && b == 168)
      || (a == 169 && b == 254)
      || V4Unspecified(ip)
    case V6(seg) =>
      V6Loopback(ip)
      || V6Unspecified(ip)
      || seg[0] & 0xfe00 == 0xfc00
      || seg[0] & 0xffc0 == 0xfe80
  }

  /** The IPv4 address as one 32-bit number. */
  function V4Value(ip: IpAddr): (n: nat)
    requires ip.V4?
    ensures n < 0x1_0000_0000
  {
    ip.a * 0x100_0000 + ip.b * 0x1_0000 + ip.c * 0x100 + ip.d
  }

  /** Membership in the CIDR block `base/len` of a `width`-bit address space:
      the top `len` bits agree. */
  predicate InCidr(n: nat, base: nat, len: nat, width: nat)
    requires len <= width
  {
    n / Pow2(width - len) == base / Pow2(width - len)
  }

  function Pow2(k: nat): (p: nat)
    ensures p >= 1
  {
    if k == 0 then 1 else 2 * Pow2(k - 1)
  }

  lemma Pow2Values()
    ensures Pow2(8) == 0x100 && Pow2(16) == 0x1_0000 && Pow2(20) == 0x10_0000
    ensures Pow2(24) == 0x100_0000 && Pow2(9) == 0x200 && Pow2(6) == 0x40
  {
    assert Pow2(6) == 0x40;
    assert Pow2(8) == 0x100;
    assert Pow2(9) == 0x200;
    assert Pow2(16) == 0x1_0000 by { assert Pow2(12) == 0x1000; }
    assert Pow2(20) == 0x10_0000;
    assert Pow2(24) == 0x100_0000;
  }

  /** The IPv4 half of the classification is exactly membership in the
      special-purpose blocks of RFC 1918 section 3 (10/8, 172.16/12,
      192.168/16) and RFC 6890 section 2.2.2 (127/8, 169.254/16, and the
      single address 0.0.0.0). */
  lemma PrivateV4Blocks(ip: IpAddr)
    requires ip.V4?
    ensures IsPrivateIp(ip) <==>
      var n := V4Value(ip);
      InCidr(n, 0x7f00_0000, 8, 32) || InCidr(n, 0x0a00_0000, 8, 32)
      || InCidr(n, 0xac10_0000, 12, 32) || InCidr(n, 0xc0a8_0000, 16, 32)
      || InCidr(n, 0xa9fe_0000, 16, 32) || n == 0
  {
    Pow2Values();
    var n := V4Value(ip);
    var rest := ip.b * 0x1_0000 + ip.c * 0x100 + ip.d;
    assert n / 0x100_0000 == ip.a by { assert n == ip.a * 0x100_0000 + rest && rest < 0x100_0000; }
    var low := ip.c * 0x100 + ip.d;
    assert n / 0x1_0000 == ip.a * 0x100 + ip.b by {
      assert n == (ip.a * 0x100 + ip.b) * 0x1_0000 + low && low < 0x1_0000;
    }
    assert n / 0x10_0000 == ip.a * 0x10 + ip.b / 0x10 by {
      assert n == (ip.a * 0x10 + ip.b / 0x10) * 0x10_0000 + (ip.b % 0x10) * 0x1_0000 + low;
    }
  }

  /** Membership of a 16-bit segment in a prefix of length `len`: the top
      `len` bits agree with those of `base`. */
  predicate InPrefix16(s: bv16, base: bv16, len: nat)
    requires len <= 16
  {
    s >> (16 - len) == base >> (16 - len)
  }

  /** The IPv6 half: `::1` and `::` of RFC 4291 sections 2.5.3 and 2.5.2, the
      unique-local block fc00::/7 of RFC 4193 section 3.1, and the link-local
      block fe80::/10 of RFC 4291 section 2.5.6; for the two blocks only the
      first segment matters, and each block is a contiguous range of it. */
  lemma PrivateV6Blocks(ip: IpAddr)
    requires ip.V6?
    ensures IsPrivateIp(ip) <==>
      var s0 := ip.segments[0];
      V6Loopback(ip) || V6Unspecified(ip) || InPrefix16(s0, 0xfc00, 7) || InPrefix16(s0, 0xfe80, 10)
    ensures InPrefix16(ip.segments[0], 0xfc00, 7) <==> 0xfc00 <= ip.segments[0] <= 0xfdff
    ensures InPrefix16(ip.segments[0], 0xfe80, 10) <==> 0xfe80 <= ip.segments[0] <= 0xfebf
  {
  }

  /** The addresses the test suite classifies. */
  lemma PrivateIpExamples()
    ensures IsPrivateIp(V4(127, 0, 0, 1)) && IsPrivateIp(V4(10, 0, 0, 1))
    ensures IsPrivateIp(V4(172, 16, 0, 1)) && IsPrivateIp(V4(192, 168, 1, 1))
    ensures IsPrivateIp(V4(169, 254, 1, 1)) && IsPrivateIp(V4(0, 0, 0, 0))
    ensures IsPrivateIp(V6([0, 0, 0, 0, 0, 0, 0, 1]))
    ensures IsPrivateIp(V6([0xfd00, 0, 0, 0, 0, 0, 0, 1]))
    ensures IsPrivateIp(V6([0xfe80, 0, 0, 0, 0, 0, 0, 1]))
    ensures !IsPrivateIp(V4(8, 8, 8, 8)) && !IsPrivateIp(V4(172, 32, 0, 1))
    ensures !IsPrivateIp(V6([0x2001, 0x4860, 0x4860, 0, 0, 0, 0, 0x8888]))
  {
  }

  /** Why a guest wants to use a socket address (`SocketAddrUse`). */
  datatype SocketAddrUse = TcpBind | TcpConnect | UdpBind | UdpConnect | UdpOutgoingDatagram

  predicate IsBind(u: SocketAddrUse) { u == TcpBind || u == UdpBind }

  /** The `socket_addr_check` closure installed by `configure_network`. */
  function SocketAddrAllowed(allowed: set<IpAddr>, ip: IpAddr, u: SocketAddrUse): (ok: bool)
    ensures IsBind(u) ==> !ok
    ensures ok ==> ip in allowed
    ensures !IsBind(u) && ip in allowed ==> ok
  {
    match u
    case TcpConnect | UdpConnect | UdpOutgoingDatagram => ip in allowed
    case TcpBind | UdpBind => false
  }

  /** What the system resolver returns for `"<domain>:0"`. */
  datatype Lookup = Resolved(addrs: seq<IpAddr>) | LookupFailed(reason: string)

  /** Name resolution, and the `Display` text of an address; both belong to
      the standard library and the operating system. */
  datatype Resolver = Resolver(lookup: string -> Lookup, show: IpAddr -> string)

  /** The first private address in resolver order, if any. */
  function FirstPrivate(addrs: seq<IpAddr>): (r: Option<IpAddr>)
    ensures r.None? <==> forall i :: 0 <= i < |addrs| ==> !IsPrivateIp(addrs[i])
    ensures r.Some? ==> r.value in addrs && IsPrivateIp(r.value)
  {
    if addrs == [] then None
    else if IsPrivateIp(addrs[0]) then Some(addrs[0])
    else FirstPrivate(addrs[1..])
  }

  function PrivateMessage(domain: string, shown: string): string {
    "allowlisted domain '" + domain + "' resolved to " + "private/loopback" + " address "
    + shown + ", which is blocked to prevent " + "SSRF"
  }

  lemma PrivateMessageMentionsLoopback(domain: string, shown: string)
    ensures IsSubstring("private/loopback", PrivateMessage(domain, shown))
  {
    var head := "allowlisted domain '" + domain + "' resolved to ";
    var tail := " address " + shown + ", which is blocked to prevent " + "SSRF";
    assert PrivateMessage(domain, shown) == head + "private/loopback" + tail;
    SubstringOfConcat(head, "private/loopback", tail);
  }

  lemma PrivateMessageMentionsSsrf(domain: string, shown: string)
    ensures IsSubstring("SSRF", PrivateMessage(domain, shown))
  {
    var front := "allowlisted domain '" + domain + "' resolved to " + "private/loopback" + " address " + shown + ", which is blocked to prevent ";
    assert PrivateMessage(domain, shown) == front + "SSRF" + "";
    SubstringOfConcat(front, "SSRF", "");
  }

  /** The rejection names the reason, whatever the domain and address. */
  lemma PrivateMessageMentions(domain: string, shown: string)
    ensures IsSubstring("private/loopback", PrivateMessage(domain, shown))
    ensures IsSubstring("SSRF", PrivateMessage(domain, shown))
  {
    PrivateMessageMentionsLoopback(domain, shown);
    PrivateMessageMentionsSsrf(domain, shown);
  }

  /** The outcome for one trimmed, non-blank domain. */
  function ResolveDomain(domain: string, dns: Resolver): Result<set<IpAddr>> {
    match dns.lookup(domain + ":0")
    case LookupFailed(e) =>
      Err(Plugin("failed to resolve allowlisted domain '" + domain + "': " + e))
    case Resolved(addrs) =>
      match FirstPrivate(addrs)
      case Some(ip) =>
        Err(Plugin(PrivateMessage(domain, dns.show(ip))))
      case None =>
        if addrs == [] then Err(Plugin("allowlisted domain '" + domain + "' resolved to no addresses"))
        else Ok(set i | 0 <= i < |addrs| :: addrs[i])
  }

  /** The loop of `resolve_allowlisted_ips` over the domains, accumulating
      into `ips`; blank entries are skipped and the first failure ends it. */
  function ResolveAll(domains: seq<string>, dns: Resolver, ips: set<IpAddr>): Result<set<IpAddr>>
    decreases |domains|
  {
    if domains == [] then Ok(ips)
    else
      var d := Trim(domains[0]);
      if d == [] then ResolveAll(domains[1..], dns, ips)
      else
        match ResolveDomain(d, dns)
        case Err(e) => Err(e)
        case Ok(found) => ResolveAll(domains[1..], dns, ips + found)
  }

  /** `resolve_allowlisted_ips`. */
  function ResolveAllowlistedIps(domains: seq<string>, dns: Resolver): (r: Result<set<IpAddr>>)
    ensures r.Ok? ==> r.value != {}
  {
    match ResolveAll(domains, dns, {})
    case Err(e) => Err(e)
    case Ok(ips) =>
      if ips == {} then Err(Plugin("network permission enabled but no allowlisted domains were resolved"))
      else Ok(ips)
  }

  /** A domain entry resolves acceptably: blank, or mapped to a non-empty
      list of public addresses. */
  predicate DomainAcceptable(raw: string, dns: Resolver) {
    var d := Trim(raw);
    d == [] || (dns.lookup(d + ":0").Resolved? && dns.lookup(d + ":0").addrs != []
                && forall i :: 0 <= i < |dns.lookup(d + ":0").addrs| ==> !IsPrivateIp(dns.lookup(d + ":0").addrs[i]))
  }

  /** The addresses an acceptable entry contributes. */
  function Contribution(raw: string, dns: Resolver): set<IpAddr> {
    var d := Trim(raw);
    if d != [] && dns.lookup(d + ":0").Resolved? then
      set i | 0 <= i < |dns.lookup(d + ":0").addrs| :: dns.lookup(d + ":0").addrs[i]
    else {}
  }

  function Union(domains: seq<string>, dns: Resolver): set<IpAddr> {
    if domains == [] then {} else Contribution(domains[0], dns) + Union(domains[1..], dns)
  }

  /** One non-blank entry: the per-domain outcome agrees with the reference
      predicates. */
  lemma ResolveDomainMeaning(raw: string, dns: Resolver)
    requires Trim(raw) != []
    ensures ResolveDomain(Trim(raw), dns).Ok? <==> DomainAcceptable(raw, dns)
    ensures ResolveDomain(Trim(raw), dns).Ok? ==> ResolveDomain(Trim(raw), dns).value == Contribution(raw, dns)
  {
    var d := Trim(raw);
    match dns.lookup(d + ":0") {
      case LookupFailed(_) =>
      case Resolved(addrs) =>
        if FirstPrivate(addrs).None? {
          assert forall i :: 0 <= i < |addrs| ==> !IsPrivateIp(addrs[i]);
        }
    }
  }

  /** The loop succeeds iff every entry is acceptable. */
  lemma {:induction false} ResolveAllOk(domains: seq<string>, dns: Resolver, ips: set<IpAddr>)
    ensures ResolveAll(domains, dns, ips).Ok? <==> forall k :: 0 <= k < |domains| ==> DomainAcceptable(domains[k], dns)
    decreases |domains|
  {
    if domains != [] {
      var d := Trim(domains[0]);
      var next := if d == [] then ips else
                  (var found := ResolveDomain(d, dns); if found.Ok? then ips + found.value else ips);
      ResolveAllOk(domains[1..], dns, next);
      if d != [] {
        ResolveDomainMeaning(domains[0], dns);
      }
      TailAcceptable(domains, dns);
    }
  }

  lemma TailAcceptable(domains: seq<string>, dns: Resolver)
    requires domains != []
    ensures (forall k :: 0 <= k < |domains| ==> DomainAcceptable(domains[k], dns)) <==>
            DomainAcceptable(domains[0], dns) && forall k :: 0 <= k < |domains[1..]| ==> DomainAcceptable(domains[1..][k], dns)
  {
    assert forall k :: 1 <= k < |domains| ==> domains[k] == domains[1..][k - 1];
  }

  /** On success the loop adds exactly the union of the entries' addresses. */
  lemma {:induction false} ResolveAllValue(domains: seq<string>, dns: Resolver, ips: set<IpAddr>)
    requires ResolveAll(domains, dns, ips).Ok?
    ensures ResolveAll(domains, dns, ips).value == ips + Union(domains, dns)
    decreases |domains|
  {
    if domains != [] {
      var d := Trim(domains[0]);
      if d == [] {
        ResolveAllValue(domains[1..], dns, ips);
      } else {
        ResolveDomainMeaning(domains[0], dns);
        var found := ResolveDomain(d, dns);
        ResolveAllValue(domains[1..], dns, ips + found.value);
      }
    }
  }

  /** Success iff every entry is acceptable and at least one address comes
      out; the result is then exactly the union of the resolved addresses. */
  lemma ResolveAllowlistedIpsMeaning(domains: seq<string>, dns: Resolver)
    ensures ResolveAllowlistedIps(domains, dns).Ok? <==>
            (forall k :: 0 <= k < |domains| ==> DomainAcceptable(domains[k], dns)) && Union(domains, dns) != {}
    ensures ResolveAllowlistedIps(domains, dns).Ok? ==> ResolveAllowlistedIps(domains, dns).value == Union(domains, dns)
  {
    ResolveAllOk(domains, dns, {});
    if ResolveAll(domains, dns, {}).Ok? {
      ResolveAllValue(domains, dns, {});
    }
  }

  /** Every address the union draws from an acceptable list is public. */
  lemma {:induction false} UnionPublic(domains: seq<string>, dns: Resolver, ip: IpAddr)
    requires forall k :: 0 <= k < |domains| ==> DomainAcceptable(domains[k], dns)
    requires ip in Union(domains, dns)
    ensures !IsPrivateIp(ip)
    decreases |domains|
  {
    if ip !in Contribution(domains[0], dns) {
      assert forall k :: 1 <= k < |domains[1..]| ==> domains[1..][k] == domains[k + 1];
      UnionPublic(domains[1..], dns, ip);
    }
  }

  /** The SSRF guarantee: once the allowlist resolved, a plugin can reach a
      private, loopback or link-local address by no socket operation. */
  lemma NoPrivateConnections(domains: seq<string>, dns: Resolver, ip: IpAddr, u: SocketAddrUse)
    requires ResolveAllowlistedIps(domains, dns).Ok?
    requires SocketAddrAllowed(ResolveAllowlistedIps(domains, dns).value, ip, u)
    ensures !IsPrivateIp(ip) && !IsBind(u)
  {
    ResolveAllowlistedIpsMeaning(domains, dns);
    UnionPublic(domains, dns, ip);
  }

  /** `configure_network`: no allowlist means no socket policy is installed;
      otherwise connections are checked against the resolved addresses. */
  function ConfigureNetwork(domains: seq<string>, dns: Resolver): (r: Result<Option<set<IpAddr>>>)
    ensures domains == [] <==> r == Ok(None)
    ensures domains != [] ==> r.Ok? == ResolveAllowlistedIps(domains, dns).Ok?
  {
    if domains == [] then Ok(None)
    else
      match ResolveAllowlistedIps(domains, dns)
      case Err(e) => Err(e)
      case Ok(ips) => Ok(Some(ips))
  }

  /** The installed policy never admits a private address. */
  lemma ConfigureNetworkPublic(domains: seq<string>, dns: Resolver, ip: IpAddr)
    requires ConfigureNetwork(domains, dns).Ok? && ConfigureNetwork(domains, dns).value.Some?
    requires ip in ConfigureNetwork(domains, dns).value.value
    ensures !IsPrivateIp(ip)
  {
    ResolveAllowlistedIpsMeaning(domains, dns);
    UnionPublic(domains, dns, ip);
  }

  lemma TrimLocalhost()
    ensures Trim("localhost") == "localhost"
  {
    var s := "localhost";
    assert s[0] == 'l' && s[|s| - 1] == 't';
    assert TrimStart(s) == s;
    assert TrimEnd(s) == s;
  }

  lemma LocalhostQuery()
    ensures "localhost" + ":0" == "localhost:0"
  {
  }

  lemma LoopbackIsFirstPrivate()
    ensures FirstPrivate([V4(127, 0, 0, 1)]) == Some(V4(127, 0, 0, 1))
  {
  }

  lemma ResolveLocalhost(dns: Resolver)
    requires dns.lookup("localhost:0") == Resolved([V4(127, 0, 0, 1)])
    ensures ResolveDomain("localhost", dns) == Err(Plugin(PrivateMessage("localhost", dns.show(V4(127, 0, 0, 1)))))
  {
    LocalhostQuery();
    LoopbackIsFirstPrivate();
  }

  /** `localhost` resolving to 127.0.0.1 makes the whole resolution fail with
      the SSRF message. */
  lemma LocalhostRejected(dns: Resolver)
    requires dns.lookup("localhost:0") == Resolved([V4(127, 0, 0, 1)])
    ensures var r := ResolveAllowlistedIps(["localhost"], dns);
            r.Err? && r.error == Plugin(PrivateMessage("localhost", dns.show(V4(127, 0, 0, 1))))
            && IsSubstring("private/loopback", r.error.msg)
  {
    TrimLocalhost();
    ResolveLocalhost(dns);
    assert ["localhost"][0] == "localhost";
    PrivateMessageMentionsLoopback("localhost", dns.show(V4(127, 0, 0, 1)));
  }
}
