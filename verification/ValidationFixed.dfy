/** Validate is a normaliser: when a second call changes nothing. */
module ValidationFixed {
  import opened Text
  import opened Validation
  import Firewall
  import FirewallHoist
  import RuleIDs
  import Shaping

  // ---------------------------------------------------------------- nothing left to do

  /** No retired shape is left in these networks. */
  ghost predicate AllEmpty(nets: seq<Network>) {
    forall i :: 0 <= i < |nets| ==> nets[i] == Emptied(nets[i])
  }

  /** Every mesh interface has an entry that is on and has an upstream rate. */
  ghost predicate AllCapped(lib: Lib, list: seq<Shaping.Entry>, nets: seq<Shaping.Network>, n: nat)
    requires n <= |nets|
  {
    forall i :: 0 <= i < n ==> IsCapped(list, Shaping.IfaceAt(lib.strings, nets, i))
  }

  ghost predicate IsCapped(list: seq<Shaping.Entry>, f: string) {
    var k := Shaping.Find(list, f);
    k < |list| && list[k].rate == Capped(list[k].rate)
  }

  /** What the migrations leave: no legacy field holds anything. */
  ghost predicate NoLegacy(c: Config) {
    && c.dhcp.mode != "server" && c.dhcp.relay == Relay(c.dhcp.relay.links, [], [], 0)
    && c.snmp.community == "" && c.rate == Shaping.NONE && AllEmpty(c.nets)
  }

  /** What the rest of Validate leaves. */
  ghost predicate Complete(lib: Lib, c: Config) {
    && (forall i :: 0 <= i < |c.translation.rules| ==> c.translation.rules[i] == Directed(lib, c.translation.rules[i]))
    && (forall i :: 0 <= i < |c.nets| ==> c.nets[i] == Defaulted(c.nets[i]))
    && (c.qos.on ==> Shaped(c.qos) == c.qos && AllCapped(lib, c.shaping, ShapingNets(c.nets), |c.nets|))
  }

  // ---------------------------------------------------------------- migrations have nothing to do

  lemma {:induction false} NothingToHoist(lib: Lib, nets: seq<Network>)
    requires AllEmpty(nets)
    ensures HoistedNat(nets) == [] && !AnyNatOn(nets) && Largest(nets, 0) == 0
    ensures HoistedQos(lib, nets) == [] && !AnyQosOn(nets)
  {
    if nets != [] {
      var n := nets[|nets| - 1];
      assert n.translation == NO_NAT && n.qos == NO_QOS;
      NothingToHoist(lib, nets[..|nets| - 1]);
    }
  }

  lemma NoGeometry(nets: seq<Network>)
    requires AllEmpty(nets)
    ensures Geometry(nets) == |nets|
  {
    assert forall i :: 0 <= i < |nets| ==> nets[i].qos == NO_QOS;
  }

  lemma {:induction false} NoRules(lib: Strings, nets: seq<FirewallHoist.Network>)
    requires forall i :: 0 <= i < |nets| ==> !nets[i].on && nets[i].rules == []
    ensures FirewallHoist.Hoisted(lib, nets) == [] && !FirewallHoist.AnyOn(nets)
  {
    if nets != [] {
      NoRules(lib, nets[..|nets| - 1]);
    }
  }

  lemma {:induction false} NoRates(lib: Strings, c: Shaping.Node, n: nat)
    requires c.rate == Shaping.NONE && n <= |c.nets|
    requires forall i :: 0 <= i < |c.nets| ==> c.nets[i].rate.None?
    ensures Shaping.Gathered(lib, c, n) == c.list
  {
    if n > 0 {
      NoRates(lib, c, n - 1);
    }
  }

  lemma FirewallAgain(lib: Lib, c: Config)
    requires AllEmpty(c.nets)
    ensures var m := FirewallMigrated(lib, c);
            m.on == c.firewallOn && m.base == Firewall.Assigned(c.rulebase)
  {
    var nets := FirewallNets(c.nets);
    forall i | 0 <= i < |nets|
      ensures !nets[i].on && nets[i].rules == []
    {
      assert c.nets[i].firewall == NO_FIREWALL;
    }
    NoRules(lib.strings, nets);
    if c.rulebase.rules == [] {
      assert c.rulebase.(rules := []) == c.rulebase;
    }
  }

  lemma ShapingAgain(lib: Lib, c: Config)
    requires AllEmpty(c.nets) && c.rate == Shaping.NONE
    ensures var m := ShapingMigrated(lib, c);
            m.rate == c.rate && m.list == c.shaping
  {
    var part := Shaping.Node(c.rate, ShapingNets(c.nets), c.shaping, c.shapingDisabled);
    forall i | 0 <= i < |part.nets|
      ensures part.nets[i].rate.None?
    {
      assert c.nets[i].rate.None?;
    }
    NoRates(lib.strings, part, |part.nets|);
  }

  /** Migrating a configuration without legacy fields only assigns rule ids. */
  lemma MigratedAgain(lib: Lib, c: Config)
    requires NoLegacy(c)
    ensures Migrated(lib, c) == c.(rulebase := Firewall.Assigned(c.rulebase))
  {
    ListsAgain(lib, c);
    FirewallAgain(lib, c);
    ShapingAgain(lib, c);
    assert AllEmptied(c.nets) == c.nets;
  }

  lemma ListsAgain(lib: Lib, c: Config)
    requires NoLegacy(c)
    ensures DhcpMigrated(lib, c.dhcp) == c.dhcp && SnmpMigrated(c.snmp) == c.snmp
    ensures TimeoutMigrated(c.natTimeout, c.nets) == c.natTimeout
    ensures NatMigrated(c.translation, c.nets) == c.translation && QosMigrated(lib, c.qos, c.nets) == c.qos
  {
    NothingToHoist(lib, c.nets);
    NoGeometry(c.nets);
  }

  lemma MigratedHasNoLegacy(lib: Lib, c: Config)
    ensures NoLegacy(Migrated(lib, c))
  {
  }

  // ---------------------------------------------------------------- caps

  lemma FindUnchanged(list: seq<Shaping.Entry>, k: nat, t: Shaping.Throttle, f: string)
    requires k < |list|
    ensures Shaping.Find(list[k := list[k].(rate := t)], f) == Shaping.Find(list, f)
  {
    var after := list[k := list[k].(rate := t)];
    assert forall j :: 0 <= j < |list| ==> after[j].iface == list[j].iface;
  }

  lemma CapKeeps(lib: Lib, list: seq<Shaping.Entry>, iface: string, f: string)
    requires lib.strings.trim(iface) == iface != ""
    ensures f == iface || IsCapped(list, f) ==> IsCapped(CapOne(lib, list, iface), f)
  {
    var k := Shaping.Find(list, iface);
    if k < |list| {
      FindUnchanged(list, k, Capped(list[k].rate), f);
    } else {
      Shaping.FindAppend(list, Shaping.Entry(iface, Capped(Shaping.NONE)), f);
    }
  }

  lemma CapStep(lib: Lib, list: seq<Shaping.Entry>, nets: seq<Shaping.Network>, n: nat)
    requires Shaping.Trims(lib.strings) && n < |nets| && AllCapped(lib, list, nets, n)
    ensures AllCapped(lib, CapOne(lib, list, Shaping.IfaceAt(lib.strings, nets, n)), nets, n + 1)
  {
    var iface := Shaping.IfaceAt(lib.strings, nets, n);
    Shaping.IfaceIsClean(lib.strings, nets, n);
    forall i | 0 <= i < n + 1
      ensures IsCapped(CapOne(lib, list, iface), Shaping.IfaceAt(lib.strings, nets, i))
    {
      CapKeeps(lib, list, iface, Shaping.IfaceAt(lib.strings, nets, i));
    }
  }

  lemma {:induction false} CapAllCaps(lib: Lib, list: seq<Shaping.Entry>, nets: seq<Shaping.Network>, n: nat)
    requires Shaping.Trims(lib.strings) && n <= |nets|
    ensures AllCapped(lib, CapAll(lib, list, nets, n), nets, n)
  {
    if n > 0 {
      CapAllCaps(lib, list, nets, n - 1);
      CapStep(lib, CapAll(lib, list, nets, n - 1), nets, n - 1);
    }
  }

  lemma CapAgain(lib: Lib, list: seq<Shaping.Entry>, iface: string)
    requires lib.strings.trim(iface) == iface != "" && IsCapped(list, iface)
    ensures CapOne(lib, list, iface) == list
  {
    var k := Shaping.Find(list, iface);
    assert list[k].(rate := list[k].rate) == list[k];
  }

  lemma {:induction false} CapAllAgain(lib: Lib, list: seq<Shaping.Entry>, nets: seq<Shaping.Network>, n: nat)
    requires Shaping.Trims(lib.strings) && n <= |nets| && AllCapped(lib, list, nets, n)
    ensures CapAll(lib, list, nets, n) == list
  {
    if n > 0 {
      CapAllAgain(lib, list, nets, n - 1);
      Shaping.IfaceIsClean(lib.strings, nets, n - 1);
      CapAgain(lib, list, Shaping.IfaceAt(lib.strings, nets, n - 1));
    }
  }

  // ---------------------------------------------------------------- finishing has nothing to do

  lemma DirectedAgain(lib: Lib, r: NatRule)
    requires Sound(lib)
    ensures Directed(lib, Directed(lib, r)) == Directed(lib, r)
  {
    assert lib.strings.fold("underlay2overlay") != lib.strings.fold("");
  }

  lemma FinishedHasNoLegacy(lib: Lib, m: Config)
    requires NoLegacy(m)
    ensures NoLegacy(Finished(lib, m))
  {
    EmptyStaysEmpty(m.nets);
  }

  lemma EmptyStaysEmpty(nets: seq<Network>)
    requires AllEmpty(nets)
    ensures AllEmpty(AllDefaulted(nets))
  {
    forall i | 0 <= i < |nets|
      ensures AllDefaulted(nets)[i] == Emptied(AllDefaulted(nets)[i])
    {
      assert nets[i] == Emptied(nets[i]);
    }
  }

  lemma AllDirectedAgain(lib: Lib, rules: seq<NatRule>)
    requires Sound(lib)
    ensures forall i :: 0 <= i < |rules| ==> AllDirected(lib, rules)[i] == Directed(lib, AllDirected(lib, rules)[i])
  {
    forall i | 0 <= i < |rules|
      ensures AllDirected(lib, rules)[i] == Directed(lib, AllDirected(lib, rules)[i])
    {
      DirectedAgain(lib, rules[i]);
    }
  }

  lemma FinishedIsComplete(lib: Lib, m: Config)
    requires Sound(lib)
    ensures Complete(lib, Finished(lib, m))
  {
    AllDirectedAgain(lib, m.translation.rules);
    SameIfaces(m.nets);
    if m.qos.on {
      CapAllCaps(lib, m.shaping, ShapingNets(m.nets), |m.nets|);
    }
  }

  lemma FinishedAgain(lib: Lib, d: Config)
    requires Sound(lib) && Complete(lib, d)
    ensures Finished(lib, d) == d
  {
    assert AllDirected(lib, d.translation.rules) == d.translation.rules;
    assert AllDefaulted(d.nets) == d.nets;
    if d.qos.on {
      CapAllAgain(lib, d.shaping, ShapingNets(d.nets), |d.nets|);
    }
  }

  // ---------------------------------------------------------------- checks pass again

  lemma NetsPassAgain(lib: Lib, nets: seq<Network>)
    requires NetsOK(lib, nets) && lib.prefixOK("0.0.0.0/0") && lib.prefixOK("::/0")
    ensures NetsOK(lib, AllDefaulted(nets))
  {
    var out := AllDefaulted(nets);
    forall i | 0 <= i < |out|
      ensures NetOK(lib, out[i])
    {
      assert NetOK(lib, nets[i]) && out[i] == Defaulted(nets[i]);
    }
  }

  /** The checks Validate makes between migrating and finishing. */
  ghost predicate ChecksOK(lib: Lib, m: Config) {
    && ReadOnlyOK(lib, m) && DhcpOK(lib, m.dhcp) && 0 <= m.natTimeout <= 86400
    && NetsOK(lib, m.nets) && (m.qos.on ==> ScopesOK(lib, m.nets, m.qos.rules))
  }

  lemma ReadOnlyKept(lib: Lib, c: Config)
    ensures ReadOnlyOK(lib, Migrated(lib, c)) == ReadOnlyOK(lib, c)
  {
  }

  lemma ValidatedIs(lib: Lib, c: Config)
    ensures var m := Migrated(lib, c);
            Validated(lib, c) == if ChecksOK(lib, m) then Some(Finished(lib, m)) else None
  {
    ReadOnlyKept(lib, c);
  }

  lemma ChecksPassAgain(lib: Lib, m: Config)
    requires Sound(lib) && ChecksOK(lib, m)
    ensures ChecksOK(lib, Finished(lib, m))
  {
    NetsPassAgain(lib, m.nets);
    SameNames(m.nets);
  }

  /** A configuration that carries the retired server mode is not refused for it, and comes up with
      DHCP off rather than relaying; every other unknown mode is refused. */
  lemma RetiredServerLoads(lib: Lib, d: Dhcp)
    ensures var m := DhcpMigrated(lib, d);
            && (DhcpOK(lib, m) <==> d.mode in ["", "relay", "server"] && lib.linksOK(m.relay.links))
            && (m.mode == "relay" <==> d.mode == "relay")
            && (m.retiredServer <==> d.retiredServer || d.mode == "server")
  {
    assert "server" != "relay" && "" != "relay";
  }

  // ---------------------------------------------------------------- the main results

  /** The rulebase that ids are assigned in: the node's own, or the hoisted one. */
  function Loaded(lib: Lib, c: Config): Firewall.Rulebase {
    if c.rulebase.rules != [] then c.rulebase
    else c.rulebase.(rules := FirewallHoist.Hoisted(lib.strings, FirewallNets(c.nets)))
  }

  lemma IDsDoNotMatter(lib: Lib, d: Config, b: Firewall.Rulebase)
    requires Complete(lib, d) && ChecksOK(lib, d)
    ensures Complete(lib, d.(rulebase := b)) && ChecksOK(lib, d.(rulebase := b))
  {
  }

  /** A second call accepts what the first one left, and touches nothing but rule ids. */
  lemma SecondCallOnlyRenumbers(lib: Lib, c: Config)
    requires Sound(lib) && Validated(lib, c).Some?
    ensures var d := Validated(lib, c).value;
            Validated(lib, d) == Some(d.(rulebase := Firewall.Assigned(d.rulebase)))
  {
    var m := Migrated(lib, c);
    var d := Finished(lib, m);
    var e := d.(rulebase := Firewall.Assigned(d.rulebase));
    ValidatedIs(lib, c);
    ValidatedIs(lib, d);
    MigratedHasNoLegacy(lib, c);
    FinishedHasNoLegacy(lib, m);
    FinishedIsComplete(lib, m);
    MigratedAgain(lib, d);
    ChecksPassAgain(lib, m);
    IDsDoNotMatter(lib, d, e.rulebase);
    FinishedAgain(lib, e);
  }

  lemma RulebaseLoaded(lib: Lib, c: Config)
    requires Validated(lib, c).Some?
    ensures Validated(lib, c).value.rulebase == Firewall.Assigned(Loaded(lib, c))
  {
    assert Finished(lib, Migrated(lib, c)).rulebase == Migrated(lib, c).rulebase;
  }

  /** Validate is a fixed point on every configuration it accepts, if and only if the id counter
      is calm: it does not wrap while the rules are numbered. */
  lemma ValidateSettlesExactly(lib: Lib, c: Config)
    requires Sound(lib) && Validated(lib, c).Some? && RuleIDs.Fits(Loaded(lib, c))
    ensures var d := Validated(lib, c).value;
            Validated(lib, d) == Some(d) <==> RuleIDs.Calm(Loaded(lib, c))
  {
    var d := Validated(lib, c).value;
    SecondCallOnlyRenumbers(lib, c);
    RulebaseLoaded(lib, c);
    RuleIDs.LoadSettlesExactly(Loaded(lib, c));
    assert d == d.(rulebase := Firewall.Assigned(d.rulebase)) <==> d.rulebase == Firewall.Assigned(d.rulebase);
  }
}
