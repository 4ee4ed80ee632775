/** Allocation of docker bridges: names, subnets, gateways (QemuUserRunner). */
module Bridges {
  import opened Options
  import opened Strings

  // ----- decimal text -----

  function Digit(n: nat): char
    requires n < 10
  {
    '0' + n as char
  }

  function Decimal(n: nat): (s: string)
    ensures s != "" && forall k :: 0 <= k < |s| ==> '0' <= s[k] <= '9'
  {
    if n < 10 then [Digit(n)] else Decimal(n / 10) + [Digit(n % 10)]
  }

  lemma {:induction false} DecimalInjective(m: nat, n: nat)
    requires Decimal(m) == Decimal(n)
    ensures m == n
  {
    var s := Decimal(m);
    assert s[|s| - 1] == Digit(m % 10) == Digit(n % 10);
    if m >= 10 && n >= 10 {
      assert s[..|s| - 1] == Decimal(m / 10) == Decimal(n / 10);
      DecimalInjective(m / 10, n / 10);
    }
  }

  // ----- bridge names -----

  function BaseName(hash: string, count: nat): string {
    hash + "ghbridge" + Decimal(count)
  }

  function Suffixed(name: string, suffix: nat): string {
    name + "_" + Decimal(suffix)
  }

  lemma SuffixedInjective(name: string, i: nat, j: nat)
    requires Suffixed(name, i) == Suffixed(name, j)
    ensures i == j
  {
    var n := |name + "_"|;
    assert Suffixed(name, i)[n..] == Decimal(i) && Suffixed(name, j)[n..] == Decimal(j);
    DecimalInjective(i, j);
  }

  /** The base name if it is free, or else the base name with the least free suffix. */
  ghost predicate LeastFree(base: string, taken: set<string>, name: string) {
    if base !in taken then name == base
    else exists k: nat :: LeastSuffix(base, taken, k) && name == Suffixed(base, k)
  }

  ghost predicate LeastSuffix(base: string, taken: set<string>, k: nat) {
    k >= 1 && Suffixed(base, k) !in taken && forall j :: 1 <= j < k ==> Suffixed(base, j) in taken
  }

  // ----- gateways -----

  /** subnet.rsplit(".", maxsplit=1)[0] */
  function BeforeLastDot(s: string): string {
    if '.' !in s then s
    else if s[|s| - 1] == '.' then s[..|s| - 1]
    else BeforeLastDot(s[..|s| - 1])
  }

  function Host(base: string, n: nat): string {
    base + "." + Decimal(n)
  }

  type Octet = n: nat | n < 256

  /** An address as the library parses it; anything else makes it raise an error. */
  datatype Address = Ipv4(a: Octet, b: Octet, c: Octet, d: Octet) | Invalid(text: string)

  function Net(ip: Address): string
    requires ip.Ipv4?
  {
    Decimal(ip.a) + "." + Decimal(ip.b) + "." + Decimal(ip.c)
  }

  function Text(ip: Address): string {
    if ip.Ipv4? then Host(Net(ip), ip.d) else ip.text
  }

  /** The address of the enclosing /24 network. */
  function SubnetAddress(ip: Address): string
    requires ip.Ipv4?
  {
    Host(Net(ip), 0)
  }

  function Subnet(ip: Address): string
    requires ip.Ipv4?
  {
    SubnetAddress(ip) + "/24"
  }

  /** The subnet address is the text of the address with last octet 0. */
  lemma SubnetIsNetwork(ip: Address)
    requires ip.Ipv4?
    ensures SubnetAddress(ip) == Text(Ipv4(ip.a, ip.b, ip.c, 0)) && Subnet(ip) == Text(Ipv4(ip.a, ip.b, ip.c, 0)) + "/24"
  {
  }

  predicate SameNetwork(p: Address, q: Address) {
    p.Ipv4? && q.Ipv4? && p.a == q.a && p.b == q.b && p.c == q.c
  }

  /** Two addresses share a subnet address exactly when their first three octets agree. */
  lemma SameSubnetIff(p: Address, q: Address)
    requires p.Ipv4? && q.Ipv4?
    ensures SubnetAddress(p) == SubnetAddress(q) <==> SameNetwork(p, q)
  {
    hide Decimal;
    if SubnetAddress(p) == SubnetAddress(q) {
      TextInjective(Ipv4(p.a, p.b, p.c, 0), Ipv4(q.a, q.b, q.c, 0));
    }
  }

  /** Different addresses have different texts. */
  lemma TextInjective(p: Address, q: Address)
    requires p.Ipv4? && q.Ipv4? && Text(p) == Text(q)
    ensures p == q
  {
    hide Decimal;
    DottedText(p);
    DottedText(q);
    FirstPart(p.a, q.a, Decimal(p.b) + "." + (Decimal(p.c) + "." + Decimal(p.d)),
      Decimal(q.b) + "." + (Decimal(q.c) + "." + Decimal(q.d)));
    FirstPart(p.b, q.b, Decimal(p.c) + "." + Decimal(p.d), Decimal(q.c) + "." + Decimal(q.d));
    FirstPart(p.c, q.c, Decimal(p.d), Decimal(q.d));
    DecimalInjective(p.d, q.d);
  }

  lemma DottedText(p: Address)
    requires p.Ipv4?
    ensures Text(p) == Decimal(p.a) + "." + (Decimal(p.b) + "." + (Decimal(p.c) + "." + Decimal(p.d)))
  {
    hide Decimal;
  }

  /** A number ends at the first dot. */
  lemma FirstPart(m: nat, n: nat, s: string, t: string)
    requires Decimal(m) + "." + s == Decimal(n) + "." + t
    ensures m == n && s == t
  {
    hide Decimal;
    var x, y := Decimal(m), Decimal(n);
    var u, v := x + "." + s, y + "." + t;
    assert u[|x|] == '.' && v[|y|] == '.';
    assert (forall k :: 0 <= k < |y| ==> v[k] == y[k]) && (forall k :: 0 <= k < |x| ==> u[k] == x[k]);
    assert |x| == |y|;
    assert x == u[..|x|] == v[..|y|] == y;
    assert s == u[|x| + 1..] == v[|y| + 1..] == t;
    DecimalInjective(m, n);
  }

  lemma {:induction false} BaseOfSubnet(base: string, t: string)
    requires '.' !in t
    ensures BeforeLastDot(base + "." + t) == base
    decreases |t|
  {
    var s := base + "." + t;
    assert s[|base|] == '.';
    if t != "" {
      var n := |t| - 1;
      assert s[..|s| - 1] == base + "." + t[..n];
      BaseOfSubnet(base, t[..n]);
    }
  }

  /** What the substring test means here: one digit after the dot occurs in an address of the
      same network exactly when the last octet starts with that digit. */
  lemma GatewayInAddress(base: string, digit: nat, d: nat)
    requires digit < 10
    ensures Contains(Host(base, d), Host(base, digit)) <==> Decimal(d)[0] == Digit(digit)
  {
    var text, part := Host(base, d), Host(base, digit);
    var n := |base|;
    assert text[n] == part[n] == '.' && part[n + 1] == Digit(digit) && text[n + 1] == Decimal(d)[0];
    assert forall k :: n < k < |text| ==> text[k] == Decimal(d)[k - n - 1];
    if Decimal(d)[0] == Digit(digit) {
      assert part <= text[0..];
    }
    if Contains(text, part) {
      var k :| 0 <= k <= |text| - |part| && part <= text[k..];
      assert text[k..][n] == text[k + n] == '.';
      assert k == 0;
      assert text[0..][n + 1] == part[n + 1];
    }
  }

  /** The first octet from 1 on whose address is no substring of a reserved one; 254 at last. */
  ghost predicate FirstUnreserved(base: string, reserved: seq<string>, n: nat) {
    && 1 <= n <= 254
    && (forall k :: 1 <= k < n ==> Reserved(Host(base, k), reserved))
    && (n < 254 ==> !Reserved(Host(base, n), reserved))
  }

  predicate Reserved(gateway: string, reserved: seq<string>) {
    exists r :: r in reserved && Contains(r, gateway)
  }

  method GetGateway(subnet: string, reserved: seq<string>) returns (gateway: string)
    ensures exists n: nat :: FirstUnreserved(BeforeLastDot(subnet), reserved, n) && gateway == Host(BeforeLastDot(subnet), n)
  {
    var base := BeforeLastDot(subnet);
    gateway := "";
    for count := 1 to 255
      invariant forall k :: 1 <= k < count ==> Reserved(Host(base, k), reserved)
      invariant count > 1 ==> gateway == Host(base, count - 1)
    {
      gateway := Host(base, count);
      var isReserved := false;
      for k := 0 to |reserved|
        invariant isReserved <==> exists j :: 0 <= j < k && Contains(reserved[j], gateway)
      {
        if Contains(reserved[k], gateway) {
          isReserved := true;
          break;
        }
      }
      if isReserved {
        continue;
      }
      assert FirstUnreserved(base, reserved, count);
      return;
    }
    assert FirstUnreserved(base, reserved, 254);
  }

  /** The gateway of a container's own subnet is .1, or .2 when the container's last octet
      starts with a 1; it is never the container's address. */
  lemma GatewayAvoidsContainer(ip: Address, n: nat)
    requires ip.Ipv4? && FirstUnreserved(Net(ip), [Text(ip)], n)
    ensures n == if Decimal(ip.d)[0] == '1' then 2 else 1
    ensures Host(Net(ip), n) != Text(ip)
  {
    var base, reserved := Net(ip), [Text(ip)];
    GatewayInAddress(base, 1, ip.d);
    GatewayInAddress(base, 2, ip.d);
    assert forall g :: Reserved(g, reserved) <==> Contains(Text(ip), g);
    assert Digit(1) == '1' && Digit(2) == '2';
    assert Text(ip) <= Text(ip)[0..];
  }

  // ----- the allocation -----

  /** A created bridge: without addresses, or on the subnet of a container address. */
  datatype Bridge = Plain(name: string) | Routed(name: string, ip: Address, subnet: string, gateway: string)

  /** The docker networks found at the start: names and subnet addresses. */
  datatype Existing = Existing(names: set<string>, subnets: seq<string>)

  function PlainCount(bs: seq<Bridge>): nat {
    if bs == [] then 0
    else PlainCount(bs[..|bs| - 1]) + if bs[|bs| - 1].Plain? then 1 else 0
  }

  /** How many of the interfaces other than lo have no address. */
  function BareCount(config: seq<(string, seq<Address>)>): nat {
    if config == [] then 0
    else
      var c := config[|config| - 1];
      BareCount(config[..|config| - 1]) + if c.0 != "lo" && c.1 == [] then 1 else 0
  }

  lemma PlainCountSnoc(bs: seq<Bridge>, b: Bridge)
    ensures PlainCount(bs + [b]) == PlainCount(bs) + if b.Plain? then 1 else 0
  {
    assert (bs + [b])[..|bs|] == bs;
  }

  predicate GatewayOk(b: Bridge) {
    b.Routed? ==>
      && b.ip.Ipv4? && b.subnet == Subnet(b.ip) && b.gateway != Text(b.ip)
      && b.gateway == Host(Net(b.ip), if Decimal(b.ip.d)[0] == '1' then 2 else 1)
  }

  ghost predicate DistinctBridges(bs: seq<Bridge>) {
    forall i, j :: 0 <= i < j < |bs| ==>
      bs[i].name != bs[j].name && (bs[i].Routed? && bs[j].Routed? ==> bs[i].subnet != bs[j].subnet)
  }

  predicate NewBridge(found: Existing, b: Bridge) {
    b.name !in found.names && (b.Routed? ==> b.ip.Ipv4? && SubnetAddress(b.ip) !in found.subnets)
  }

  /** What holds of the tables after any number of creations. */
  ghost predicate TablesOk(found: Existing, names: set<string>, subnets: seq<string>, bs: seq<Bridge>) {
    && found.names <= names && (forall x :: x in found.subnets ==> x in subnets)
    && (forall k :: 0 <= k < |bs| ==> NewBridge(found, bs[k]) && GatewayOk(bs[k]) && Tabled(names, subnets, bs[k]))
    && (forall x :: x in subnets ==> x in found.subnets || Served(bs, x))
    && DistinctBridges(bs)
  }

  predicate Tabled(names: set<string>, subnets: seq<string>, b: Bridge) {
    b.name in names && (b.Routed? && b.ip.Ipv4? ==> SubnetAddress(b.ip) in subnets)
  }

  /** Some created bridge is on this subnet. */
  ghost predicate Served(bs: seq<Bridge>, subnetAddress: string) {
    exists k :: 0 <= k < |bs| && bs[k].Routed? && bs[k].ip.Ipv4? && SubnetAddress(bs[k].ip) == subnetAddress
  }

  lemma AddBridge(found: Existing, names: set<string>, subnets: seq<string>, bs: seq<Bridge>, b: Bridge)
    requires TablesOk(found, names, subnets, bs) && b.name !in names && GatewayOk(b)
    requires b.Routed? ==> b.ip.Ipv4? && SubnetAddress(b.ip) !in subnets
    ensures TablesOk(found, names + {b.name},
      subnets + (if b.Routed? then [SubnetAddress(b.ip)] else []), bs + [b])
  {
    hide GatewayOk, SubnetAddress;
    var names', subnets', all :=
      names + {b.name}, subnets + (if b.Routed? then [SubnetAddress(b.ip)] else []), bs + [b];
    if b.Routed? {
      RoutedSubnet(b);
    }
    forall k | 0 <= k < |all|
      ensures NewBridge(found, all[k]) && GatewayOk(all[k]) && Tabled(names', subnets', all[k])
    {
      assert k < |bs| ==> all[k] == bs[k];
    }
    forall x | x in subnets' ensures x in found.subnets || Served(all, x) {
      if x in subnets && x !in found.subnets {
        var k :| 0 <= k < |bs| && bs[k].Routed? && bs[k].ip.Ipv4? && SubnetAddress(bs[k].ip) == x;
        assert all[k] == bs[k];
      } else if x !in subnets {
        assert all[|bs|] == b;
      }
    }
    forall i, j | 0 <= i < j < |all|
      ensures all[i].name != all[j].name
      ensures all[i].Routed? && all[j].Routed? ==> all[i].subnet != all[j].subnet
    {
      assert all[i] == bs[i] && Tabled(names, subnets, bs[i]);
      if j == |bs| && bs[i].Routed? && b.Routed? {
        assert GatewayOk(bs[i]);
        RoutedSubnet(bs[i]);
        assert SubnetAddress(bs[i].ip) in subnets;
        DifferentSubnets(bs[i].ip, b.ip);
      }
    }
  }

  lemma RoutedSubnet(b: Bridge)
    requires GatewayOk(b) && b.Routed?
    ensures b.ip.Ipv4? && b.subnet == Subnet(b.ip)
  {
  }

  lemma DifferentSubnets(p: Address, q: Address)
    requires p.Ipv4? && q.Ipv4? && SubnetAddress(p) != SubnetAddress(q)
    ensures Subnet(p) != Subnet(q)
  {
    var x, y := SubnetAddress(p), SubnetAddress(q);
    assert (x + "/24")[..|x|] == x && (y + "/24")[..|y|] == y;
  }

  lemma SuffixTaken(base: string, taken: set<string>, tried: set<string>, suffix: nat)
    requires suffix >= 1 && Suffixed(base, suffix) in taken
    requires tried <= taken && forall x :: x in tried ==> exists j :: 1 <= j < suffix && x == Suffixed(base, j)
    ensures Suffixed(base, suffix) !in tried && |tried| < |taken|
  {
    var now := Suffixed(base, suffix);
    if now in tried {
      var j: nat :| 1 <= j < suffix && now == Suffixed(base, j);
      SuffixedInjective(base, suffix, j);
      assert false;
    }
    assert taken == (tried + {now}) + (taken - tried - {now});
  }

  // ----- the tables as a function of the configuration -----

  /** The names and subnet addresses that are known, and the bridges created so far. */
  datatype Tables = Tables(names: set<string>, subnets: seq<string>, bridges: seq<Bridge>)

  lemma LeastFreeUnique(base: string, taken: set<string>, x: string, y: string)
    requires LeastFree(base, taken, x) && LeastFree(base, taken, y)
    ensures x == y
  {
    if base in taken {
      var i: nat :| LeastSuffix(base, taken, i) && x == Suffixed(base, i);
      var j: nat :| LeastSuffix(base, taken, j) && y == Suffixed(base, j);
      assert !(i < j) && !(j < i);
    }
  }

  /** The name of the next bridge. */
  ghost function FreeName(base: string, taken: set<string>): string {
    if exists x :: LeastFree(base, taken, x) then
      var x :| LeastFree(base, taken, x);
      x
    else base
  }

  lemma FreeNameIs(base: string, taken: set<string>, x: string)
    requires LeastFree(base, taken, x)
    ensures FreeName(base, taken) == x
  {
    LeastFreeUnique(base, taken, x, FreeName(base, taken));
  }

  /** One address: nothing when it is invalid or its subnet is known; the name stays taken and
      the subnet free when docker refuses. */
  ghost function AddressStep(hash: string, creates: string -> bool, t: Tables, ip: Address): Tables {
    if ip.Invalid? || SubnetAddress(ip) in t.subnets then t
    else
      var name := FreeName(BaseName(hash, |t.bridges|), t.names);
      if !creates(name) then t.(names := t.names + {name})
      else
        var gateway := Host(Net(ip), if Decimal(ip.d)[0] == '1' then 2 else 1);
        Tables(t.names + {name}, t.subnets + [SubnetAddress(ip)], t.bridges + [Routed(name, ip, Subnet(ip), gateway)])
  }

  ghost function AddressSteps(hash: string, creates: string -> bool, t: Tables, ips: seq<Address>): Tables {
    if ips == [] then t
    else AddressStep(hash, creates, AddressSteps(hash, creates, t, ips[..|ips| - 1]), ips[|ips| - 1])
  }

  /** An interface without addresses; None when docker refuses, which is not caught. */
  ghost function PlainStep(hash: string, creates: string -> bool, t: Tables): Option<Tables> {
    var name := FreeName(BaseName(hash, |t.bridges|), t.names);
    if creates(name) then Some(Tables(t.names + {name}, t.subnets, t.bridges + [Plain(name)])) else None
  }

  ghost function InterfaceStep(hash: string, creates: string -> bool, t: Tables, name: string,
                               ips: seq<Address>): Option<Tables> {
    if name == "lo" then Some(t)
    else if ips == [] then PlainStep(hash, creates, t)
    else Some(AddressSteps(hash, creates, t, ips))
  }

  /** All interfaces in configuration order. */
  ghost function AllSteps(hash: string, creates: string -> bool, t: Tables,
                          config: seq<(string, seq<Address>)>): Option<Tables> {
    if config == [] then Some(t)
    else
      var c := config[|config| - 1];
      match AllSteps(hash, creates, t, config[..|config| - 1])
      case None => None
      case Some(now) => InterfaceStep(hash, creates, now, c.0, c.1)
  }

  /** What docker refuses for an interface without addresses ends everything. */
  lemma {:induction false} RefusedForGood(hash: string, creates: string -> bool, t: Tables,
                                          config: seq<(string, seq<Address>)>, n: nat)
    requires n <= |config| && AllSteps(hash, creates, t, config[..n]).None?
    ensures AllSteps(hash, creates, t, config).None?
  {
    if n < |config| {
      var rest := config[..|config| - 1];
      assert rest[..n] == config[..n];
      RefusedForGood(hash, creates, t, rest, n);
    } else {
      assert config[..n] == config;
    }
  }

  // ----- what is promised of the bridges, by address -----

  /** No two bridges serve addresses that agree in the first three octets. */
  ghost predicate NoSharedNetwork(bs: seq<Bridge>) {
    forall i, j :: 0 <= i < j < |bs| && bs[i].Routed? && bs[j].Routed? ==> !SameNetwork(bs[i].ip, bs[j].ip)
  }

  /** No bridge serves an address of a network a.b.c.0 that is listed. */
  ghost predicate NoListedNetwork(found: Existing, bs: seq<Bridge>) {
    forall b :: b in bs && b.Routed? ==> b.ip.Ipv4? && Text(Ipv4(b.ip.a, b.ip.b, b.ip.c, 0)) !in found.subnets
  }

  lemma NetworksApart(found: Existing, names: set<string>, subnets: seq<string>, bs: seq<Bridge>)
    requires TablesOk(found, names, subnets, bs)
    ensures NoSharedNetwork(bs) && NoListedNetwork(found, bs)
  {
    hide SubnetAddress, Decimal;
    forall i, j | 0 <= i < j < |bs| && bs[i].Routed? && bs[j].Routed? ensures !SameNetwork(bs[i].ip, bs[j].ip) {
      RoutedSubnet(bs[i]);
      RoutedSubnet(bs[j]);
      SameSubnetIff(bs[i].ip, bs[j].ip);
      assert bs[i].subnet != bs[j].subnet;
    }
    forall b | b in bs && b.Routed? ensures b.ip.Ipv4? && Text(Ipv4(b.ip.a, b.ip.b, b.ip.c, 0)) !in found.subnets {
      var k :| 0 <= k < |bs| && bs[k] == b;
      assert NewBridge(found, bs[k]);
      SubnetIsNetwork(b.ip);
    }
  }

  /** A bridge serves the network of ip, or that network was listed before. */
  ghost predicate Reached(found: Existing, bs: seq<Bridge>, ip: Address) {
    ip.Ipv4? ==>
      || Text(Ipv4(ip.a, ip.b, ip.c, 0)) in found.subnets
      || exists b :: b in bs && b.Routed? && SameNetwork(b.ip, ip)
  }

  lemma KnownIsReached(found: Existing, names: set<string>, subnets: seq<string>, bs: seq<Bridge>, ip: Address)
    requires TablesOk(found, names, subnets, bs) && (ip.Ipv4? ==> SubnetAddress(ip) in subnets)
    ensures Reached(found, bs, ip)
  {
    hide SubnetAddress, Decimal, GatewayOk, NewBridge;
    if ip.Ipv4? {
      SubnetIsNetwork(ip);
      if SubnetAddress(ip) !in found.subnets {
        var k :| 0 <= k < |bs| && bs[k].Routed? && bs[k].ip.Ipv4? && SubnetAddress(bs[k].ip) == SubnetAddress(ip);
        SameSubnetIff(bs[k].ip, ip);
        assert bs[k] in bs;
      }
    }
  }

  class QemuUserRunner {
    const hash: string
    var names: set<string>
    var subnets: seq<string>
    var bridges: seq<Bridge>
    var count: nat
    ghost var failures: map<Address, string>  // the name whose creation failed, by address

    constructor (hash: string)
      ensures this.hash == hash
    {
      this.hash := hash;
      names, subnets, bridges, count, failures := {}, [], [], 0, map[];
    }

    /** The suffix search ends because each taken candidate is another element of a finite set. */
    method GenerateUniqueBridgeName(count: nat, taken: set<string>) returns (name: string)
      ensures name !in taken && LeastFree(BaseName(hash, count), taken, name)
    {
      hide BaseName, Suffixed;
      var base := BaseName(hash, count);
      if base !in taken {
        return base;
      }
      var suffix := 1;
      ghost var tried: set<string> := {};
      while Suffixed(base, suffix) in taken
        invariant suffix >= 1
        invariant tried <= taken && |tried| == suffix - 1
        invariant forall x :: x in tried ==> exists j :: 1 <= j < suffix && x == Suffixed(base, j)
        invariant forall j :: 1 <= j < suffix ==> Suffixed(base, j) in tried
        decreases |taken| - |tried|
      {
        SuffixTaken(base, taken, tried, suffix);
        tried := tried + {Suffixed(base, suffix)};
        suffix := suffix + 1;
      }
      name := Suffixed(base, suffix);
      assert LeastSuffix(base, taken, suffix);
    }

    ghost function Now(): Tables
      reads this
    {
      Tables(names, subnets, bridges)
    }

    ghost predicate Valid(found: Existing)
      reads this
    {
      TablesOk(found, names, subnets, bridges) && count == |bridges|
    }

    /** Each recorded failure is a creation that was tried, under a name now taken, and refused. */
    ghost predicate FailuresOk(creates: string -> bool)
      reads this
    {
      forall ip :: ip in failures ==> failures[ip] in names && !creates(failures[ip])
    }

    /** The address is on a known subnet, or a creation tried for it failed. */
    ghost predicate Handled(ip: Address)
      reads this
    {
      ip.Ipv4? ==> SubnetAddress(ip) in subnets || ip in failures
    }

    ghost predicate AllHandled(ips: seq<Address>)
      reads this
    {
      forall k :: 0 <= k < |ips| ==> Handled(ips[k])
    }

    /** One address of an interface. `creates` says whether docker creates a network of that
        name; when it fails, the name stays taken and the subnet stays free. */
    method AddAddress(ghost found: Existing, ip: Address, creates: string -> bool)
      requires Valid(found) && FailuresOk(creates)
      modifies this
      ensures Valid(found) && old(bridges) <= bridges && old(subnets) <= subnets
      ensures PlainCount(bridges) == PlainCount(old(bridges))
      ensures FailuresOk(creates) && old(failures).Keys <= failures.Keys && Handled(ip)
      ensures Now() == AddressStep(hash, creates, old(Now()), ip)
    {
      hide TablesOk, NewBridge, GatewayOk, SubnetAddress, Subnet, LeastFree, BaseName, FreeName, DistinctBridges;
      if ip.Invalid? {
        return;
      }
      var subnetAddress := SubnetAddress(ip);
      if subnetAddress in subnets {
        return;
      }
      var gateway := GetGateway(Subnet(ip), [Text(ip)]);
      var name := GenerateUniqueBridgeName(count, names);
      var b := Routed(name, ip, Subnet(ip), gateway);
      GatewayOfSubnet(b);
      GatewayIs(b);
      FreeNameIs(BaseName(hash, count), names, name);
      TakeName(found, names, subnets, bridges, name);
      AddBridge(found, names, subnets, bridges, b);
      names := names + {name};
      if !creates(name) {
        failures := failures[ip := name];
        return;
      }
      PlainCountSnoc(bridges, b);
      bridges, subnets, count := bridges + [b], subnets + [subnetAddress], count + 1;
    }

    /** An interface without addresses gets a plain bridge; a failure here is not caught. */
    method AddPlain(ghost found: Existing, creates: string -> bool) returns (raised: bool)
      requires Valid(found) && FailuresOk(creates)
      modifies this
      ensures Valid(found) && old(bridges) <= bridges && old(subnets) <= subnets
      ensures FailuresOk(creates) && failures == old(failures)
      ensures !raised ==> PlainCount(bridges) == PlainCount(old(bridges)) + 1
      ensures raised ==> exists x :: !creates(x)
      ensures (if raised then None else Some(Now())) == PlainStep(hash, creates, old(Now()))
    {
      hide TablesOk, NewBridge, SubnetAddress, LeastFree, BaseName, FreeName;
      var name := GenerateUniqueBridgeName(count, names);
      FreeNameIs(BaseName(hash, count), names, name);
      TakeName(found, names, subnets, bridges, name);
      AddBridge(found, names, subnets, bridges, Plain(name));
      assert subnets + [] == subnets;
      names := names + {name};
      if !creates(name) {
        return true;
      }
      PlainCountSnoc(bridges, Plain(name));
      bridges, count := bridges + [Plain(name)], count + 1;
      raised := false;
    }

    lemma Initially(found: Existing, creates: string -> bool)
      requires names == found.names && subnets == found.subnets && bridges == [] && count == 0 && failures == map[]
      ensures Valid(found) && FailuresOk(creates)
    {
      InitialTables(found);
    }

    lemma Apart(found: Existing)
      requires Valid(found)
      ensures NoSharedNetwork(bridges) && NoListedNetwork(found, bridges)
    {
      NetworksApart(found, names, subnets, bridges);
    }

    lemma KnownReached(found: Existing, ip: Address)
      requires Valid(found) && Handled(ip) && ip !in failures
      ensures Reached(found, bridges, ip)
    {
      hide TablesOk, SubnetAddress, Reached;
      KnownIsReached(found, names, subnets, bridges, ip);
    }

    /** The addresses of one interface. */
    method AddAddresses(ghost found: Existing, ips: seq<Address>, creates: string -> bool)
      requires Valid(found) && FailuresOk(creates)
      modifies this
      ensures Valid(found) && FailuresOk(creates) && AllHandled(ips)
      ensures old(subnets) <= subnets && old(failures).Keys <= failures.Keys
      ensures PlainCount(bridges) == PlainCount(old(bridges))
      ensures Now() == AddressSteps(hash, creates, old(Now()), ips)
    {
      hide TablesOk, SubnetAddress, AddressStep, Valid, FailuresOk;
      for j := 0 to |ips|
        invariant Valid(found) && FailuresOk(creates)
        invariant old(subnets) <= subnets && old(failures).Keys <= failures.Keys
        invariant PlainCount(bridges) == PlainCount(old(bridges))
        invariant forall k :: 0 <= k < j ==> Handled(ips[k])
        invariant Now() == AddressSteps(hash, creates, old(Now()), ips[..j])
      {
        assert ips[..j + 1][..j] == ips[..j];
        AddAddress(found, ips[j], creates);
      }
      assert ips[..|ips|] == ips;
    }

    /** All interfaces in configuration order. */
    method SetupBridges(found: Existing, config: seq<(string, seq<Address>)>, creates: string -> bool)
      returns (raised: bool)
      modifies this
      ensures Valid(found)
      ensures (forall x :: creates(x)) ==> !raised
      ensures !raised ==> PlainCount(bridges) == BareCount(config)
      // each address is on a known subnet, or a creation tried for it failed
      ensures FailuresOk(creates)
      ensures !raised ==> forall i :: 0 <= i < |config| && config[i].0 != "lo" ==> AllHandled(config[i].1)
      // in terms of the addresses
      ensures NoSharedNetwork(bridges) && NoListedNetwork(found, bridges)
      ensures !raised ==> forall i, ip :: 0 <= i < |config| && config[i].0 != "lo" && ip in config[i].1 ==>
        Reached(found, bridges, ip) || ip in failures
      // the tables are a function of the configuration and of what docker refuses
      ensures (if raised then None else Some(Now())) ==
        AllSteps(hash, creates, Tables(found.names, found.subnets, []), config)
    {
      hide TablesOk, SubnetAddress, AddressSteps, PlainStep, Valid, FailuresOk, NoSharedNetwork, NoListedNetwork,
           Reached;
      names, subnets, bridges, count, failures := found.names, found.subnets, [], 0, map[];
      Initially(found, creates);
      for i := 0 to |config|
        invariant Valid(found) && PlainCount(bridges) == BareCount(config[..i])
        invariant FailuresOk(creates)
        invariant forall k :: 0 <= k < i && config[k].0 != "lo" ==> AllHandled(config[k].1)
        invariant AllSteps(hash, creates, Tables(found.names, found.subnets, []), config[..i]) == Some(Now())
      {
        var ips := config[i].1;
        assert config[..i + 1][..i] == config[..i];
        if config[i].0 == "lo" {
          continue;
        }
        if ips == [] {
          raised := AddPlain(found, creates);
          if raised {
            Apart(found);
            RefusedForGood(hash, creates, Tables(found.names, found.subnets, []), config, i + 1);
            return;
          }
          continue;
        }
        AddAddresses(found, ips, creates);
      }
      raised := false;
      assert config[..|config|] == config;
      Apart(found);
      forall i, ip | 0 <= i < |config| && config[i].0 != "lo" && ip in config[i].1
        ensures Reached(found, bridges, ip) || ip in failures
      {
        if ip !in failures {
          assert Handled(ip);
          KnownReached(found, ip);
        }
      }
    }
  }

  lemma InitialTables(found: Existing)
    ensures TablesOk(found, found.names, found.subnets, [])
  {
  }

  lemma TakeName(found: Existing, names: set<string>, subnets: seq<string>, bs: seq<Bridge>, name: string)
    requires TablesOk(found, names, subnets, bs)
    ensures TablesOk(found, names + {name}, subnets, bs)
  {
    hide GatewayOk, NewBridge, SubnetAddress, Served, DistinctBridges;
    forall k | 0 <= k < |bs| ensures Tabled(names + {name}, subnets, bs[k]) {
      assert Tabled(names, subnets, bs[k]);
    }
  }

  lemma GatewayIs(b: Bridge)
    requires b.Routed? && GatewayOk(b)
    ensures b.ip.Ipv4? && b.gateway == Host(Net(b.ip), if Decimal(b.ip.d)[0] == '1' then 2 else 1)
  {
  }

  lemma GatewayOfSubnet(b: Bridge)
    requires b.Routed? && b.ip.Ipv4? && b.subnet == Subnet(b.ip)
    requires exists n: nat :: FirstUnreserved(BeforeLastDot(b.subnet), [Text(b.ip)], n) && b.gateway == Host(BeforeLastDot(b.subnet), n)
    ensures GatewayOk(b)
  {
    assert b.subnet == Net(b.ip) + "." + (Decimal(0) + "/24");
    BaseOfSubnet(Net(b.ip), Decimal(0) + "/24");
    var n: nat :| FirstUnreserved(Net(b.ip), [Text(b.ip)], n) && b.gateway == Host(Net(b.ip), n);
    GatewayAvoidsContainer(b.ip, n);
  }

  // ----- a known configuration -----

  lemma SmallDecimals()
    ensures Decimal(0) == "0" && Decimal(1) == "1" && Decimal(2) == "2" && Decimal(10) == "10"
  {
    assert Decimal(10) == Decimal(1) + [Digit(0)];
  }

  /** The texts of an address 10.0.c.d and of its network. */
  lemma TenTexts(c: Octet, d: Octet)
    requires c < 2 && d < 3
    ensures Text(Ipv4(10, 0, c, d)) == "10.0." + [Digit(c)] + "." + [Digit(d)]
    ensures Net(Ipv4(10, 0, c, d)) == "10.0." + [Digit(c)]
    ensures Subnet(Ipv4(10, 0, c, d)) == "10.0." + [Digit(c)] + ".0/24"
  {
    SmallDecimals();
  }

  /** An interface with two addresses of one network and one of a listed network, and one
      without addresses; the loopback is skipped, and one name is taken. */
  method TwoInterfaces() returns (bridges: seq<Bridge>, subnets: seq<string>, names: set<string>)
    ensures bridges == [
      Routed("abghbridge0_1", Ipv4(10, 0, 1, 1), "10.0.1.0/24", "10.0.1.2"),
      Plain("abghbridge1")]
    ensures subnets == ["10.0.0.0", "10.0.1.0"] && names == {"abghbridge0", "abghbridge0_1", "abghbridge1"}
  {
    hide AllSteps, AddressSteps, PlainStep, NoSharedNetwork, NoListedNetwork, Reached, PlainCount, BareCount;
    var found := Existing({"abghbridge0"}, ["10.0.0.0"]);
    var lo, eth0, eth1 := ("lo", [Ipv4(127, 0, 0, 1)]), ("eth0", EthernetIps()), ("eth1", []);
    var creates := (x: string) => true;
    var runner := new QemuUserRunner("ab");
    var raised := runner.SetupBridges(found, [lo, eth0, eth1], creates);
    bridges, subnets, names := runner.bridges, runner.subnets, runner.names;
    var t := Tables({"abghbridge0"}, ["10.0.0.0"], []);
    EthernetSteps(creates, t);
    ghost var t1 := AddressSteps("ab", creates, t, EthernetIps());
    PlainLast(creates, t1);
    OneMore("ab", creates, t, [], lo);
    OneMore("ab", creates, t, [lo], eth0);
    OneMore("ab", creates, t, [lo, eth0], eth1);
    NoInterfaces("ab", creates, t);
    assert [] + [lo] == [lo] && [lo] + [eth0] == [lo, eth0] && [lo, eth0] + [eth1] == [lo, eth0, eth1];
  }

  function EthernetIps(): seq<Address> {
    [Ipv4(10, 0, 1, 1), Ipv4(10, 0, 1, 2), Ipv4(10, 0, 0, 1)]
  }

  lemma NoInterfaces(hash: string, creates: string -> bool, t: Tables)
    ensures AllSteps(hash, creates, t, []) == Some(t)
  {
  }

  lemma OneMore(hash: string, creates: string -> bool, t: Tables, config: seq<(string, seq<Address>)>,
                c: (string, seq<Address>))
    ensures AllSteps(hash, creates, t, config + [c]) ==
      var now := AllSteps(hash, creates, t, config);
      if now.None? then None else InterfaceStep(hash, creates, now.value, c.0, c.1)
  {
    assert (config + [c])[..|config|] == config;
  }

  lemma OneAddressMore(hash: string, creates: string -> bool, t: Tables, ips: seq<Address>, ip: Address)
    ensures AddressSteps(hash, creates, t, ips + [ip]) == AddressStep(hash, creates, AddressSteps(hash, creates, t, ips), ip)
  {
    assert (ips + [ip])[..|ips|] == ips;
  }

  lemma EthernetSteps(creates: string -> bool, t: Tables)
    requires (forall x :: creates(x)) && t == Tables({"abghbridge0"}, ["10.0.0.0"], [])
    ensures AddressSteps("ab", creates, t, EthernetIps()) ==
      Tables({"abghbridge0", "abghbridge0_1"}, ["10.0.0.0", "10.0.1.0"],
        [Routed("abghbridge0_1", Ipv4(10, 0, 1, 1), "10.0.1.0/24", "10.0.1.2")])
  {
    hide AddressSteps, AddressStep;
    var ips := EthernetIps();
    NoAddresses("ab", creates, t);
    OneAddressMore("ab", creates, t, [], ips[0]);
    OneAddressMore("ab", creates, t, [ips[0]], ips[1]);
    OneAddressMore("ab", creates, t, [ips[0], ips[1]], ips[2]);
    assert [] + [ips[0]] == [ips[0]] && [ips[0]] + [ips[1]] == [ips[0], ips[1]] && [ips[0], ips[1]] + [ips[2]] == ips;
    FirstBridge(creates, t);
    ghost var t1 := AddressStep("ab", creates, t, ips[0]);
    KnownNetwork(creates, t1, 1, 2);
    KnownNetwork(creates, t1, 0, 1);
  }

  lemma NoAddresses(hash: string, creates: string -> bool, t: Tables)
    ensures AddressSteps(hash, creates, t, []) == t
  {
  }

  lemma FirstBridge(creates: string -> bool, t: Tables)
    requires (forall x :: creates(x)) && t == Tables({"abghbridge0"}, ["10.0.0.0"], [])
    ensures AddressStep("ab", creates, t, Ipv4(10, 0, 1, 1)) ==
      Tables({"abghbridge0", "abghbridge0_1"}, ["10.0.0.0", "10.0.1.0"],
        [Routed("abghbridge0_1", Ipv4(10, 0, 1, 1), "10.0.1.0/24", "10.0.1.2")])
  {
    hide Decimal;
    var ip, base := Ipv4(10, 0, 1, 1), "abghbridge0";
    SmallDecimals();
    TenTexts(1, 1);
    TenTexts(1, 0);
    SubnetIsNetwork(ip);
    assert BaseName("ab", 0) == base && Suffixed(base, 1) == "abghbridge0_1";
    assert LeastSuffix(base, t.names, 1) && LeastFree(base, t.names, "abghbridge0_1");
    FreeNameIs(base, t.names, "abghbridge0_1");
    assert Digit(0) == '0' && Digit(1) == '1' && Digit(2) == '2';
    assert SubnetAddress(ip) == "10.0.1.0" && Subnet(ip) == "10.0.1.0/24";
    assert SubnetAddress(ip) !in t.subnets;
    assert Host(Net(ip), 2) == "10.0.1" + "." + "2" == "10.0.1.2";
  }

  lemma KnownNetwork(creates: string -> bool, t: Tables, c: Octet, d: Octet)
    requires c < 2 && d < 3 && t.subnets == ["10.0.0.0", "10.0.1.0"]
    ensures AddressStep("ab", creates, t, Ipv4(10, 0, c, d)) == t
  {
    hide Decimal;
    TenTexts(c, 0);
    SubnetIsNetwork(Ipv4(10, 0, c, d));
    assert Digit(0) == '0' && Digit(1) == '1';
    assert SubnetAddress(Ipv4(10, 0, c, d)) == t.subnets[c];
  }

  lemma PlainLast(creates: string -> bool, t: Tables)
    requires (forall x :: creates(x)) && |t.bridges| == 1 && "abghbridge1" !in t.names
    ensures PlainStep("ab", creates, t) ==
      Some(Tables(t.names + {"abghbridge1"}, t.subnets, t.bridges + [Plain("abghbridge1")]))
  {
    SmallDecimals();
    assert BaseName("ab", 1) == "abghbridge1";
    FreeNameIs("abghbridge1", t.names, "abghbridge1");
  }
}
