/** Which configurations Validate accepts, in terms of the fields as they come, and what it leaves in
    the fields it fills or moves. */
module Accepting {
  import opened Text
  import opened Validation
  import Firewall
  import Loading
  import QosCaps
  import QosCompile
  import RulebaseEdits
  import Shaping
  import ValidationFixed

  // ---------------------------------------------------------------- values that migrations compute

  lemma {:induction false} LargestIs(nets: seq<Network>, start: int)
    ensures var m := Largest(nets, start);
            && m >= start && (forall i :: 0 <= i < |nets| ==> nets[i].translation.stateTimeout <= m)
            && (m == start || exists i :: 0 <= i < |nets| && nets[i].translation.stateTimeout == m)
  {
    if nets != [] {
      LargestIs(nets[..|nets| - 1], start);
    }
  }

  /** The node's NAT timeout: its own, or the largest of its networks' when it has none. */
  ghost predicate TimeoutIs(c: Config, t: int) {
    if c.natTimeout != 0 then t == c.natTimeout
    else
      && t >= 0 && (forall i :: 0 <= i < |c.nets| ==> c.nets[i].translation.stateTimeout <= t)
      && (t == 0 || exists i :: 0 <= i < |c.nets| && c.nets[i].translation.stateTimeout == t)
  }

  lemma TimeoutExactly(c: Config, t: int)
    ensures TimeoutIs(c, t) <==> t == TimeoutMigrated(c.natTimeout, c.nets)
  {
    LargestIs(c.nets, 0);
  }

  /** `ys` are the texts at these places, trimmed, and all others are blank. */
  ghost predicate Trimmings(lib: Lib, xs: seq<string>, at: seq<nat>, ys: seq<string>) {
    && |at| == |ys| && (forall i, j :: 0 <= i < j < |at| ==> at[i] < at[j])
    && (forall j :: 0 <= j < |ys| ==> at[j] < |xs| && ys[j] == lib.strings.trim(xs[at[j]]) != "")
    && (forall i: nat :: i < |xs| && i !in at ==> lib.strings.trim(xs[i]) == "")
  }

  lemma {:induction false} TrimAllIs(lib: Lib, xs: seq<string>) returns (at: seq<nat>)
    ensures Trimmings(lib, xs, at, TrimAll(lib, xs))
  {
    if xs == [] {
      at := [];
    } else {
      var n := |xs| - 1;
      at := TrimAllIs(lib, xs[..n]);
      if lib.strings.trim(xs[n]) != "" {
        at := at + [n];
      }
    }
  }

  /** The relay's links: its own, or one per legacy interface that is not blank, each with the legacy
      servers and hop limit, switched on. */
  lemma LinksAre(lib: Lib, r: Relay) returns (ifaces: seq<nat>, servers: seq<nat>)
    ensures var links := DhcpMigrated(lib, Dhcp("", r, false)).relay.links;
            if r.links != [] then links == r.links
            else
              && Trimmings(lib, r.oldIfaces, ifaces, seq(|links|, i requires 0 <= i < |links| => links[i].iface))
              && forall i :: 0 <= i < |links| ==>
                   && Trimmings(lib, r.oldServers, servers, links[i].servers)
                   && links[i].maxHops == r.oldMaxHops && !links[i].disabled
  {
    ifaces := TrimAllIs(lib, r.oldIfaces);
    servers := TrimAllIs(lib, r.oldServers);
    var links := DhcpMigrated(lib, Dhcp("", r, false)).relay.links;
    if r.links == [] {
      assert seq(|links|, i requires 0 <= i < |links| => links[i].iface) == TrimAll(lib, r.oldIfaces);
    }
  }

  lemma {:induction false} SomeOn(nets: seq<Network>)
    ensures AnyQosOn(nets) <==> exists i :: 0 <= i < |nets| && nets[i].qos.on
    ensures AnyNatOn(nets) <==> exists i :: 0 <= i < |nets| && nets[i].translation.on
  {
    if nets != [] {
      SomeOn(nets[..|nets| - 1]);
    }
  }

  // ---------------------------------------------------------------- acceptance

  /** Fields Validate only looks at. */
  ghost predicate NodeFieldsOK(lib: Lib, c: Config) {
    && (forall p :: p in c.udpPorts || p in c.tcpPorts ==> 1 <= p <= 65535)
    && |c.udpPorts| + |c.tcpPorts| > 0
    && (lib.strings.trim(c.logMaxSize) == "" || lib.sizeOK(c.logMaxSize))
    && (c.ipv4 || c.ipv6) && c.confirmSeconds >= 0 && lib.restOK(c.rest)
    && (c.bgp.on && !c.bgp.auto ==> c.bgp.asn > 0)
    && (c.bgp.on && c.bgp.hold > 0 ==> c.bgp.hold >= 3 && c.bgp.hold > c.bgp.keepalive)
  }

  predicate NetworkOK(lib: Lib, n: Network) {
    && n.id != "" && (n.mtu == 0 || (576 <= n.mtu && n.mtu <= 65535))
    && (n.subnet4 == "" || lib.prefixOK(n.subnet4)) && (n.subnet6 == "" || lib.prefixOK(n.subnet6))
    && (n.subnet4 != "" || n.subnet6 != "" || n.seeds + n.cached > 0)
    && (n.rejects.Some? ==> forall r :: r in n.rejects.value ==> lib.prefixOK(r.cidr)) && lib.netRestOK(n.rest)
  }

  /** QoS comes up on this node. */
  ghost predicate QosOn(c: Config) {
    c.qos.on || (c.qos.rules == [] && exists i :: 0 <= i < |c.nets| && c.nets[i].qos.on)
  }

  /** Every scope QoS will use, the node's or those written for networks with rules, is known. */
  ghost predicate QosScopesKnown(lib: Lib, c: Config) {
    var sc := Firewall.Scopes(lib.strings, NamesOf(c.nets));
    if c.qos.rules != [] then forall r :: r in c.qos.rules ==> RulebaseEdits.Known(sc, r.scope)
    else forall i :: 0 <= i < |c.nets| && c.nets[i].qos.rules != [] ==>
      RulebaseEdits.Known(sc, if lib.strings.trim(c.nets[i].name) != "" then c.nets[i].name else c.nets[i].id)
  }

  ghost predicate MayLoad(lib: Lib, c: Config) {
    && NodeFieldsOK(lib, c)
    && (c.dhcp.mode == "" || c.dhcp.mode == "relay" || c.dhcp.mode == "server")
    && lib.linksOK(DhcpMigrated(lib, c.dhcp).relay.links)
    && (exists t :: TimeoutIs(c, t) && 0 <= t <= 86400)
    && (forall i :: 0 <= i < |c.nets| ==> NetworkOK(lib, c.nets[i]))
    && (forall i, j :: 0 <= i < j < |c.nets| ==> c.nets[i].id != c.nets[j].id)
    && (QosOn(c) ==> QosScopesKnown(lib, c))
  }

  lemma NodeFieldsExactly(lib: Lib, c: Config)
    ensures ReadOnlyOK(lib, c) <==> NodeFieldsOK(lib, c)
  {
    if ReadOnlyOK(lib, c) {
      forall p | p in c.udpPorts || p in c.tcpPorts
        ensures 1 <= p <= 65535
      {
      }
    }
    if NodeFieldsOK(lib, c) {
      assert forall i :: 0 <= i < |c.udpPorts| ==> c.udpPorts[i] in c.udpPorts;
      assert forall i :: 0 <= i < |c.tcpPorts| ==> c.tcpPorts[i] in c.tcpPorts;
    }
  }

  lemma RejectsExactly(lib: Lib, rejects: Option<seq<Reject>>)
    ensures RejectsOK(lib, rejects) <==>
            (rejects.Some? ==> forall r :: r in rejects.value ==> lib.prefixOK(r.cidr))
  {
    if RejectsOK(lib, rejects) && rejects.Some? {
      forall r | r in rejects.value
        ensures lib.prefixOK(r.cidr)
      {
      }
    }
  }

  lemma NetworksExactly(lib: Lib, nets: seq<Network>)
    ensures NetsOK(lib, AllEmptied(nets)) <==>
            && (forall i :: 0 <= i < |nets| ==> NetworkOK(lib, nets[i]))
            && (forall i, j :: 0 <= i < j < |nets| ==> nets[i].id != nets[j].id)
  {
    Loading.EmptiedOK(lib, nets);
    forall i | 0 <= i < |nets|
      ensures NetOK(lib, nets[i]) <==> NetworkOK(lib, nets[i])
    {
      RejectsExactly(lib, nets[i].rejects);
    }
  }

  lemma ScopesExactly(lib: Lib, c: Config)
    ensures ScopesOK(lib, AllEmptied(c.nets), QosMigrated(lib, c.qos, c.nets).rules) <==> QosScopesKnown(lib, c)
  {
    var sc := Firewall.Scopes(lib.strings, NamesOf(c.nets));
    assert NamesOf(AllEmptied(c.nets)) == NamesOf(c.nets);
    Loading.ScopesListed(lib, AllEmptied(c.nets), QosMigrated(lib, c.qos, c.nets).rules);
    forall scope
      ensures RulebaseEdits.Known(sc, scope) <==> Firewall.ScopeOK(sc, scope)
    {
      RulebaseEdits.KnownIsAccepted(sc, scope);
    }
    if c.qos.rules == [] {
      if QosScopesKnown(lib, c) {
        Loading.HoistedScopes(lib, c.nets, sc);
      }
      forall i | 0 <= i < |c.nets| && c.nets[i].qos.rules != []
        ensures exists r :: r in HoistedQos(lib, c.nets) && r.scope == ScopeName(lib, c.nets[i])
      {
        Loading.ScopeWritten(lib, c.nets, i);
      }
    }
  }

  lemma DhcpExactly(lib: Lib, d: Dhcp)
    ensures var m := DhcpMigrated(lib, d);
            DhcpOK(lib, m) <==>
            (d.mode == "" || d.mode == "relay" || d.mode == "server") && lib.linksOK(m.relay.links)
  {
    ValidationFixed.RetiredServerLoads(lib, d);
  }

  lemma TimeoutFits(c: Config)
    ensures (exists t :: TimeoutIs(c, t) && 0 <= t <= 86400) <==>
            0 <= TimeoutMigrated(c.natTimeout, c.nets) <= 86400
  {
    var t := TimeoutMigrated(c.natTimeout, c.nets);
    TimeoutExactly(c, t);
    forall u
      ensures TimeoutIs(c, u) <==> u == t
    {
      TimeoutExactly(c, u);
    }
  }

  lemma ChecksExactly(lib: Lib, c: Config, m: Config)
    requires m == Migrated(lib, c)
    ensures ValidationFixed.ChecksOK(lib, m) <==>
            && ReadOnlyOK(lib, c) && DhcpOK(lib, DhcpMigrated(lib, c.dhcp))
            && 0 <= TimeoutMigrated(c.natTimeout, c.nets) <= 86400 && NetsOK(lib, AllEmptied(c.nets))
            && (QosMigrated(lib, c.qos, c.nets).on ==>
                  ScopesOK(lib, AllEmptied(c.nets), QosMigrated(lib, c.qos, c.nets).rules))
  {
    ValidationFixed.ReadOnlyKept(lib, c);
  }

  /** Validate accepts exactly the configurations that may load. */
  lemma LoadsExactly(lib: Lib, c: Config)
    ensures Validated(lib, c).Some? <==> MayLoad(lib, c)
  {
    ValidationFixed.ValidatedIs(lib, c);
    ChecksExactly(lib, c, Migrated(lib, c));
    NodeFieldsExactly(lib, c);
    DhcpExactly(lib, c.dhcp);
    TimeoutFits(c);
    NetworksExactly(lib, c.nets);
    ScopesExactly(lib, c);
    SomeOn(c.nets);
    assert QosMigrated(lib, c.qos, c.nets).on <==> QosOn(c);
  }

  // ---------------------------------------------------------------- what is left in the fields

  /** A network keeps what is its own, gives up the sections that moved, and gets an MTU and a reject
      list where it had none. */
  predicate NetworkLoaded(n: Network, m: Network) {
    && m == n.(mtu := m.mtu, rejects := m.rejects, translation := m.translation, qos := m.qos, rate := m.rate,
               firewall := m.firewall)
    && m.mtu == (if n.mtu == 0 then 8915 else n.mtu)
    && m.rejects == (if n.rejects.Some? then n.rejects
                     else Some([Reject("0.0.0.0/0", false, false), Reject("::/0", false, false)]))
    && m.translation == Nat(false, [], 0) && m.qos == Qos(false, 0, 0, [], []) && m.rate == None
    && m.firewall == FirewallSection(false, [], 0)
  }

  /** Only the sections that migrations work on change. */
  lemma LoadedNode(lib: Lib, c: Config, d: Config)
    requires Validated(lib, c) == Some(d)
    ensures d == c.(dhcp := d.dhcp, snmp := d.snmp, natTimeout := d.natTimeout, translation := d.translation,
                    qos := d.qos, rate := Shaping.Throttle(false, 0, 0, 0, 0), shaping := d.shaping,
                    firewallOn := d.firewallOn, rulebase := d.rulebase, nets := d.nets)
    ensures d.dhcp == DhcpMigrated(lib, c.dhcp) && d.snmp == SnmpMigrated(c.snmp)
    ensures d.natTimeout == TimeoutMigrated(c.natTimeout, c.nets) && d.nets == AllDefaulted(AllEmptied(c.nets))
  {
  }

  /** What Validate leaves outside the hoisted sections. */
  lemma LoadedFields(lib: Lib, c: Config, d: Config)
    requires Validated(lib, c) == Some(d)
    ensures TimeoutIs(c, d.natTimeout) && |d.nets| == |c.nets|
    ensures forall i :: 0 <= i < |c.nets| ==> NetworkLoaded(c.nets[i], d.nets[i])
    ensures d.snmp.community == "" && d.snmp.communities ==
            if c.snmp.communities == [] && c.snmp.community != "" then [Community(c.snmp.community, false)]
            else c.snmp.communities
    ensures var (r, mode) := (d.dhcp.relay, c.dhcp.mode);
            && d.dhcp.mode == (if mode == "relay" then "relay" else "")
            && (d.dhcp.retiredServer <==> c.dhcp.retiredServer || mode == "server")
            && r.oldIfaces == [] && r.oldServers == [] && r.oldMaxHops == 0
            && r.links == DhcpMigrated(lib, Dhcp("", c.dhcp.relay, false)).relay.links
  {
    LoadedNode(lib, c, d);
    TimeoutExactly(c, d.natTimeout);
    ValidationFixed.RetiredServerLoads(lib, c.dhcp);
    LoadsExactly(lib, c);
  }

  /** The section QoS takes its geometry from: the node's when it has rules, else the first network's
      that is on or has rules, else the node's. */
  ghost predicate GeometryFrom(c: Config, q: Qos) {
    if c.qos.rules != [] then q == c.qos
    else
      || (q == c.qos && forall i :: 0 <= i < |c.nets| ==> !c.nets[i].qos.on && c.nets[i].qos.rules == [])
      || exists g :: 0 <= g < |c.nets| && q == c.nets[g].qos && (q.on || q.rules != []) &&
           forall i :: 0 <= i < g ==> !c.nets[i].qos.on && c.nets[i].qos.rules == []
  }

  /** QoS where it comes up: at least five classes, a default class that is one of them and not the
      first, or else class 3, and the overrides as they were. */
  predicate QosShaped(q: Qos, d: Qos) {
    && d.classes == (if q.classes > 5 then q.classes else 5)
    && d.defaultClass == (if 0 < q.defaultClass && q.defaultClass < d.classes then q.defaultClass else 3)
    && d.classDSCP == q.classDSCP
  }

  lemma GeometryTaken(lib: Lib, c: Config) returns (q: Qos)
    ensures GeometryFrom(c, q)
    ensures var m := QosMigrated(lib, c.qos, c.nets);
            m.classes == q.classes && m.defaultClass == q.defaultClass && m.classDSCP == q.classDSCP
  {
    var g := Geometry(c.nets);
    if c.qos.rules == [] && g < |c.nets| {
      q := c.nets[g].qos;
    } else {
      q := c.qos;
    }
  }

  ghost predicate QosLoaded(q: Qos, d: Qos) {
    if d.on then QosShaped(q, d)
    else d.classes == q.classes && d.defaultClass == q.defaultClass && d.classDSCP == q.classDSCP
  }

  lemma QosOfParts(lib: Lib, c: Config, d: Config) returns (q: Qos)
    requires Loading.LoadedAs(lib, c, d)
    ensures (d.qos.on <==> QosOn(c)) && GeometryFrom(c, q) && QosLoaded(q, d.qos)
  {
    SomeOn(c.nets);
    q := GeometryTaken(lib, c);
  }

  lemma LoadedQos(lib: Lib, c: Config, d: Config) returns (q: Qos)
    requires Validated(lib, c) == Some(d)
    ensures (d.qos.on <==> QosOn(c)) && GeometryFrom(c, q) && QosLoaded(q, d.qos)
  {
    Loading.ValidatedParts(lib, c, d);
    q := QosOfParts(lib, c, d);
  }

  /** The entry QoS needs: switched on, with an upstream limit of a gigabit where it had none. */
  function WithCap(t: Shaping.Throttle): Shaping.Throttle {
    Shaping.Throttle(true, if t.up > 0 then t.up else 125_000_000, t.down, t.burst, t.queue)
  }

  /** Where QoS comes up, the interfaces of the node's networks, and no others, are capped. */
  lemma LoadedCaps(lib: Lib, c: Config, d: Config, f: string)
    requires Sound(lib) && Validated(lib, c) == Some(d)
    ensures var before := Shaping.Stored(ShapingMigrated(lib, c).list, f);
            Shaping.Stored(d.shaping, f) ==
            if QosOn(c) && QosCaps.OnMesh(lib, ShapingNets(c.nets), |c.nets|, f) then WithCap(before) else before
  {
    Loading.ValidatedParts(lib, c, d);
    var q := LoadedQos(lib, c, d);
    var nets := ShapingNets(d.nets);
    if QosOn(c) {
      QosCaps.CapsMeshOnly(lib, ShapingMigrated(lib, c).list, nets, |nets|, f);
      forall i | 0 <= i < |c.nets|
        ensures Shaping.IfaceAt(lib.strings, nets, i) == Shaping.IfaceAt(lib.strings, ShapingNets(c.nets), i)
      {
      }
    }
  }
}
