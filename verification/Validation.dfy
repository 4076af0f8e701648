/** Config.Validate: checks, migrations of retired shapes, and defaults, as one function of the
    configuration. */
module Validation {
  import opened Text
  import Firewall
  import FirewallHoist
  import QosCompile
  import Shaping

  // ---------------------------------------------------------------- the configuration

  datatype RelayLink = RelayLink(iface: string, servers: seq<string>, maxHops: int, disabled: bool)

  datatype Relay = Relay(links: seq<RelayLink>, oldIfaces: seq<string>, oldServers: seq<string>, oldMaxHops: int)

  datatype Dhcp = Dhcp(mode: string, relay: Relay, retiredServer: bool)

  datatype Community = Community(text: string, disabled: bool)

  datatype Snmp = Snmp(community: string, communities: seq<Community>)

  /** What a NAT rule matches; Validate does not look at it. */
  datatype NatMatch = NatMatch(
    source: string, dest: string, sourceNeg: bool, destNeg: bool, destPort: string, proto: string, iface: string)

  datatype NatRule = NatRule(match_: NatMatch, translate: string, direction: string, scope: string, enabled: bool)

  datatype Nat = Nat(on: bool, rules: seq<NatRule>, stateTimeout: int)

  datatype Qos = Qos(on: bool, classes: int, defaultClass: int, rules: seq<QosCompile.Rule>, classDSCP: seq<int>)

  datatype FirewallSection = FirewallSection(on: bool, rules: seq<Firewall.Rule>, nextID: nat)

  datatype Reject = Reject(cidr: string, inclusive: bool, disabled: bool)

  /** `rest` stands for the fields that are only read: mesh mode, keys, routes, preferences,
      hosts and DNS entries. `seeds` and `cached` count the seed and peer-cache entries. */
  datatype Network = Network(
    id: string, name: string, tun: string, mtu: int,
    translation: Nat, qos: Qos, rate: Option<Shaping.Throttle>, firewall: FirewallSection,
    subnet4: string, subnet6: string, seeds: nat, cached: nat,
    rejects: Option<seq<Reject>>, rest: string)

  datatype Bgp = Bgp(on: bool, asn: nat, auto: bool, hold: int, keepalive: int)

  /** `rest` stands for host VLANs, dynamic DNS, the firewall catalog and the exemptions. */
  datatype Config = Config(
    udpPorts: seq<int>, tcpPorts: seq<int>, logMaxSize: string, ipv4: bool, ipv6: bool,
    confirmSeconds: int, bgp: Bgp, rest: string,
    dhcp: Dhcp, snmp: Snmp, natTimeout: int, translation: Nat, qos: Qos,
    rate: Shaping.Throttle, shaping: seq<Shaping.Entry>, shapingDisabled: bool,
    firewallOn: bool, rulebase: Firewall.Rulebase, nets: seq<Network>)

  /** Library calls and read-only checks. */
  datatype Lib = Lib(
    strings: Strings,
    lower: string -> string,
    sizeOK: string -> bool,
    prefixOK: string -> bool,
    linksOK: seq<RelayLink> -> bool,
    restOK: string -> bool,
    netRestOK: string -> bool)

  ghost predicate Sound(lib: Lib) {
    && Shaping.Trims(lib.strings)
    && (forall s: string :: lib.strings.fold(s) == lib.strings.fold("") ==> s == "")
    && lib.prefixOK("0.0.0.0/0") && lib.prefixOK("::/0")
  }

  /** Trimming and lower-casing as in Text, with checks that accept everything, are sound. */
  lemma SomeLibraryIsSound() returns (lib: Lib)
    ensures Sound(lib)
  {
    lib := Lib(Strings(TrimSpace, Lower), Lower, _ => true, _ => true, _ => true, _ => true, _ => true);
    TrimSpaceLawful(lib.strings);
    assert forall s: string :: |Lower(s)| == |s|;
  }

  const DEFAULT_MTU := 8915
  const DEFAULT_UP := 125_000_000
  const NO_NAT := Nat(false, [], 0)
  const NO_QOS := Qos(false, 0, 0, [], [])
  const NO_FIREWALL := FirewallSection(false, [], 0)
  const DEFAULT_REJECTS := [Reject("0.0.0.0/0", false, false), Reject("::/0", false, false)]

  // ---------------------------------------------------------------- checks on fields never written

  predicate InRange(ports: seq<int>) {
    forall i :: 0 <= i < |ports| ==> 1 <= ports[i] <= 65535
  }

  predicate BgpOK(b: Bgp) {
    b.on ==>
      && (b.asn != 0 || b.auto)
      && (0 < b.hold ==> 3 <= b.hold && b.keepalive < b.hold)
  }

  predicate ReadOnlyOK(lib: Lib, c: Config) {
    && InRange(c.udpPorts) && InRange(c.tcpPorts) && (c.udpPorts != [] || c.tcpPorts != [])
    && (lib.strings.trim(c.logMaxSize) != "" ==> lib.sizeOK(c.logMaxSize))
    && (c.ipv4 || c.ipv6) && c.confirmSeconds >= 0 && BgpOK(c.bgp) && lib.restOK(c.rest)
  }

  // ---------------------------------------------------------------- DHCP, SNMP, NAT timeout

  function TrimAll(lib: Lib, texts: seq<string>): seq<string> {
    if texts == [] then []
    else
      var s := lib.strings.trim(texts[|texts| - 1]);
      TrimAll(lib, texts[..|texts| - 1]) + if s != "" then [s] else []
  }

  function LinksFor(ifaces: seq<string>, servers: seq<string>, maxHops: int): (links: seq<RelayLink>)
    ensures |links| == |ifaces|
  {
    seq(|ifaces|, i requires 0 <= i < |ifaces| => RelayLink(ifaces[i], servers, maxHops, false))
  }

  /** migrateServerMode and migrateRelay */
  function DhcpMigrated(lib: Lib, d: Dhcp): Dhcp {
    var r := d.relay;
    var links := if r.links != [] then r.links
                 else LinksFor(TrimAll(lib, r.oldIfaces), TrimAll(lib, r.oldServers), r.oldMaxHops);
    Dhcp(if d.mode == "server" then "" else d.mode, Relay(links, [], [], 0), d.retiredServer || d.mode == "server")
  }

  predicate DhcpOK(lib: Lib, d: Dhcp) {
    d.mode in ["", "relay"] && lib.linksOK(d.relay.links)
  }

  function SnmpMigrated(s: Snmp): Snmp {
    Snmp("", if s.communities == [] && s.community != "" then [Community(s.community, false)] else s.communities)
  }

  function Largest(nets: seq<Network>, start: int): int {
    if nets == [] then start
    else
      var m := Largest(nets[..|nets| - 1], start);
      var t := nets[|nets| - 1].translation.stateTimeout;
      if t > m then t else m
  }

  function TimeoutMigrated(t: int, nets: seq<Network>): int {
    if t == 0 then Largest(nets, 0) else t
  }

  // ---------------------------------------------------------------- NAT and QoS hoists

  function LiftedNat(n: Nat): (out: seq<NatRule>)
    ensures |out| == |n.rules|
  {
    seq(|n.rules|, i requires 0 <= i < |n.rules| => n.rules[i].(enabled := n.rules[i].enabled && n.on))
  }

  function HoistedNat(nets: seq<Network>): seq<NatRule> {
    if nets == [] then [] else HoistedNat(nets[..|nets| - 1]) + LiftedNat(nets[|nets| - 1].translation)
  }

  function AnyNatOn(nets: seq<Network>): bool {
    nets != [] && (nets[|nets| - 1].translation.on || AnyNatOn(nets[..|nets| - 1]))
  }

  function NatMigrated(n: Nat, nets: seq<Network>): Nat {
    if n.rules == [] then Nat(n.on || AnyNatOn(nets), HoistedNat(nets), n.stateTimeout) else n
  }

  function NameOf(n: Network): Firewall.NetName {
    Firewall.NetName(n.name, n.id)
  }

  function NamesOf(nets: seq<Network>): (names: seq<Firewall.NetName>)
    ensures |names| == |nets| && forall i :: 0 <= i < |nets| ==> names[i] == NameOf(nets[i])
  {
    seq(|nets|, i requires 0 <= i < |nets| => NameOf(nets[i]))
  }

  /** qosScopeName, which is fwScopeName */
  function ScopeName(lib: Lib, n: Network): string {
    FirewallHoist.ScopeName(lib.strings, NameOf(n))
  }

  function LiftedQos(lib: Lib, n: Network): (out: seq<QosCompile.Rule>)
    ensures |out| == |n.qos.rules|
  {
    seq(|n.qos.rules|, i requires 0 <= i < |n.qos.rules| =>
      n.qos.rules[i].(scope := ScopeName(lib, n), disabled := n.qos.rules[i].disabled || !n.qos.on))
  }

  function HoistedQos(lib: Lib, nets: seq<Network>): seq<QosCompile.Rule> {
    if nets == [] then [] else HoistedQos(lib, nets[..|nets| - 1]) + LiftedQos(lib, nets[|nets| - 1])
  }

  function AnyQosOn(nets: seq<Network>): bool {
    nets != [] && (nets[|nets| - 1].qos.on || AnyQosOn(nets[..|nets| - 1]))
  }

  /** The first network with QoS on or with rules of its own, or the length. */
  function Geometry(nets: seq<Network>): (g: nat)
    ensures g <= |nets|
    ensures g < |nets| ==> nets[g].qos.on || nets[g].qos.rules != []
    ensures forall i :: 0 <= i < g ==> !nets[i].qos.on && nets[i].qos.rules == []
  {
    if nets == [] || nets[0].qos.on || nets[0].qos.rules != [] then 0 else 1 + Geometry(nets[1..])
  }

  function QosMigrated(lib: Lib, q: Qos, nets: seq<Network>): Qos {
    if q.rules != [] then q
    else
      var g := Geometry(nets);
      var shape := if g < |nets| then nets[g].qos else q;
      Qos(q.on || AnyQosOn(nets), shape.classes, shape.defaultClass, HoistedQos(lib, nets), shape.classDSCP)
  }

  // ---------------------------------------------------------------- shaping and firewall hoists

  function ShapingNets(nets: seq<Network>): (out: seq<Shaping.Network>)
    ensures |out| == |nets|
  {
    seq(|nets|, i requires 0 <= i < |nets| => Shaping.Network(nets[i].id, nets[i].name, nets[i].tun, nets[i].rate))
  }

  function FirewallNets(nets: seq<Network>): (out: seq<FirewallHoist.Network>)
    ensures |out| == |nets|
  {
    seq(|nets|, i requires 0 <= i < |nets| =>
      var f := nets[i].firewall;
      FirewallHoist.Network(NameOf(nets[i]), f.on, f.rules, f.nextID))
  }

  function ShapingMigrated(lib: Lib, c: Config): Shaping.Node {
    Shaping.Migrated(lib.strings, Shaping.Node(c.rate, ShapingNets(c.nets), c.shaping, c.shapingDisabled))
  }

  function FirewallMigrated(lib: Lib, c: Config): FirewallHoist.Node {
    FirewallHoist.Migrated(lib.strings, FirewallHoist.Node(c.firewallOn, c.rulebase, FirewallNets(c.nets)))
  }

  /** A network with everything that moved to node level taken out. */
  function Emptied(n: Network): Network {
    n.(translation := NO_NAT, qos := NO_QOS, rate := None, firewall := NO_FIREWALL)
  }

  function AllEmptied(nets: seq<Network>): (out: seq<Network>)
    ensures |out| == |nets| && forall i :: 0 <= i < |nets| ==> out[i] == Emptied(nets[i])
  {
    seq(|nets|, i requires 0 <= i < |nets| => Emptied(nets[i]))
  }

  /** All migrations up to the firewall's, each reading the networks as they came. */
  function Migrated(lib: Lib, c: Config): Config {
    var shaping, firewall := ShapingMigrated(lib, c), FirewallMigrated(lib, c);
    c.(dhcp := DhcpMigrated(lib, c.dhcp), snmp := SnmpMigrated(c.snmp),
       natTimeout := TimeoutMigrated(c.natTimeout, c.nets), translation := NatMigrated(c.translation, c.nets),
       qos := QosMigrated(lib, c.qos, c.nets), rate := shaping.rate, shaping := shaping.list,
       firewallOn := firewall.on, rulebase := firewall.base, nets := AllEmptied(c.nets))
  }

  // ---------------------------------------------------------------- NAT directions

  /** A retired direction becomes a port-forward target; direction and scope are dropped. */
  function Directed(lib: Lib, r: NatRule): NatRule {
    var t := lib.strings.trim(r.translate);
    var forward :=
      && lib.strings.fold(r.direction) == lib.strings.fold("underlay2overlay")
      && t != "" && lib.strings.fold(t) != lib.strings.fold("masquerade")
      && !HasPrefix(lib.lower(t), "port-forward:");
    NatRule(r.match_, if forward then "port-forward:" + t else r.translate, "", "", r.enabled)
  }

  function AllDirected(lib: Lib, rules: seq<NatRule>): (out: seq<NatRule>)
    ensures |out| == |rules| && forall i :: 0 <= i < |rules| ==> out[i] == Directed(lib, rules[i])
  {
    seq(|rules|, i requires 0 <= i < |rules| => Directed(lib, rules[i]))
  }

  // ---------------------------------------------------------------- networks

  predicate RejectsOK(lib: Lib, rejects: Option<seq<Reject>>) {
    rejects.Some? ==> forall i :: 0 <= i < |rejects.value| ==> lib.prefixOK(rejects.value[i].cidr)
  }

  function Defaulted(n: Network): Network {
    n.(mtu := if n.mtu == 0 then DEFAULT_MTU else n.mtu,
       rejects := if n.rejects.None? then Some(DEFAULT_REJECTS) else n.rejects)
  }

  predicate NetOK(lib: Lib, n: Network) {
    && n.id != ""
    && (n.mtu == 0 || 576 <= n.mtu <= 65535)
    && (n.subnet4 != "" ==> lib.prefixOK(n.subnet4))
    && (n.subnet6 != "" ==> lib.prefixOK(n.subnet6))
    && (n.subnet4 != "" || n.subnet6 != "" || n.seeds > 0 || n.cached > 0)
    && RejectsOK(lib, n.rejects) && lib.netRestOK(n.rest)
  }

  predicate NetsOK(lib: Lib, nets: seq<Network>) {
    && (forall i :: 0 <= i < |nets| ==> NetOK(lib, nets[i]))
    && (forall i, j :: 0 <= i < j < |nets| ==> nets[i].id != nets[j].id)
  }

  function AllDefaulted(nets: seq<Network>): (out: seq<Network>)
    ensures |out| == |nets| && forall i :: 0 <= i < |nets| ==> out[i] == Defaulted(nets[i])
  {
    seq(|nets|, i requires 0 <= i < |nets| => Defaulted(nets[i]))
  }

  lemma SameIfaces(nets: seq<Network>)
    ensures ShapingNets(AllDefaulted(nets)) == ShapingNets(nets)
  {
  }

  lemma SameNames(nets: seq<Network>)
    ensures NamesOf(AllDefaulted(nets)) == NamesOf(nets)
  {
  }

  // ---------------------------------------------------------------- QoS needs a cap

  function Capped(t: Shaping.Throttle): Shaping.Throttle {
    t.(enabled := true, up := if t.up <= 0 then DEFAULT_UP else t.up)
  }

  /** Switch the entry of one interface on, creating it if need be. */
  function CapOne(lib: Lib, list: seq<Shaping.Entry>, iface: string): seq<Shaping.Entry> {
    var f := lib.strings.trim(iface);
    var k := Shaping.Find(list, f);
    if f != "" && k < |list| then list[k := list[k].(rate := Capped(list[k].rate))]
    else list + [Shaping.Entry(iface, Capped(Shaping.NONE))]
  }

  /** Entries for the interfaces of the first n networks. */
  function CapAll(lib: Lib, list: seq<Shaping.Entry>, nets: seq<Shaping.Network>, n: nat): seq<Shaping.Entry>
    requires n <= |nets|
  {
    if n == 0 then list
    else CapOne(lib, CapAll(lib, list, nets, n - 1), Shaping.IfaceAt(lib.strings, nets, n - 1))
  }

  /** checkQoSScope, which is checkFirewallScope */
  predicate ScopesOK(lib: Lib, nets: seq<Network>, rules: seq<QosCompile.Rule>) {
    forall i :: 0 <= i < |rules| ==> Firewall.ScopeOK(Firewall.Scopes(lib.strings, NamesOf(nets)), rules[i].scope)
  }

  function Shaped(q: Qos): Qos {
    var classes := if q.classes < 5 then 5 else q.classes;
    q.(classes := classes,
       defaultClass := if q.defaultClass <= 0 || q.defaultClass >= classes then 3 else q.defaultClass)
  }

  /** Directions, network defaults, and what QoS needs. */
  function Finished(lib: Lib, m: Config): Config {
    var lists := m.translation.(rules := AllDirected(lib, m.translation.rules));
    var d := m.(translation := lists, nets := AllDefaulted(m.nets));
    if m.qos.on
    then d.(shaping := CapAll(lib, m.shaping, ShapingNets(m.nets), |m.nets|), qos := Shaped(m.qos))
    else d
  }

  /** Validate: the configuration it leaves behind, or None when it refuses. */
  function Validated(lib: Lib, c: Config): Option<Config> {
    var m := Migrated(lib, c);
    if !ReadOnlyOK(lib, c) || !DhcpOK(lib, m.dhcp) || m.natTimeout < 0 || m.natTimeout > 86400 then None
    else if !NetsOK(lib, m.nets) then None
    else if m.qos.on && !ScopesOK(lib, m.nets, m.qos.rules) then None
    else Some(Finished(lib, m))
  }
}
