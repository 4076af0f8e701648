/** What a configuration written before sections became node-global means once Validate has loaded
    it: firewall verdicts, QoS classes, rates and NAT, all migrations and defaults together. */
module Loading {
  import opened Text
  import opened Validation
  import Firewall
  import FirewallHoist
  import NatHoist
  import QosCaps
  import QosCompile
  import QosHoist
  import Shaping

  // ---------------------------------------------------------------- what loading leaves alone

  /** What Validate makes of the parts that say what a node does. */
  ghost predicate LoadedAs(lib: Lib, c: Config, d: Config) {
    var q, list, firewall := QosMigrated(lib, c.qos, c.nets), ShapingMigrated(lib, c).list, FirewallMigrated(lib, c);
    && NetsOK(lib, c.nets) && |d.nets| == |c.nets|
    && NamesOf(d.nets) == NamesOf(c.nets) && ShapingNets(d.nets) == Shaping.Cleared(ShapingNets(c.nets))
    && d.firewallOn == firewall.on && d.rulebase == firewall.base
    && d.translation.on == NatMigrated(c.translation, c.nets).on
    && d.translation.rules == AllDirected(lib, NatMigrated(c.translation, c.nets).rules)
    && d.qos == (if q.on then Shaped(q) else q)
    && d.shaping == (if q.on then CapAll(lib, list, ShapingNets(d.nets), |d.nets|) else list)
    && d.shapingDisabled == c.shapingDisabled
  }

  lemma ValidatedParts(lib: Lib, c: Config, d: Config)
    requires Validated(lib, c) == Some(d)
    ensures LoadedAs(lib, c, d)
  {
    var m := Migrated(lib, c);
    assert d == Finished(lib, m) && m.nets == AllEmptied(c.nets);
    SameNames(m.nets);
    SameIfaces(m.nets);
    assert NamesOf(m.nets) == NamesOf(c.nets);
    assert ShapingNets(m.nets) == Shaping.Cleared(ShapingNets(c.nets));
    EmptiedOK(lib, c.nets);
  }

  lemma EmptiedOK(lib: Lib, nets: seq<Network>)
    ensures NetsOK(lib, AllEmptied(nets)) == NetsOK(lib, nets)
  {
    assert forall i :: 0 <= i < |nets| ==> NetOK(lib, AllEmptied(nets)[i]) == NetOK(lib, nets[i]);
    if NetsOK(lib, AllEmptied(nets)) {
      assert forall i :: 0 <= i < |nets| ==> nets[i].id == AllEmptied(nets)[i].id;
    }
  }

  /** These networks differ only in sections that are moved without a check. */
  ghost predicate Alike(a: seq<Network>, b: seq<Network>) {
    |a| == |b| && forall i :: 0 <= i < |a| ==> b[i] == a[i].(firewall := b[i].firewall, rate := b[i].rate)
  }

  lemma {:induction false} AlikeLists(lib: Lib, a: seq<Network>, b: seq<Network>)
    requires Alike(a, b)
    ensures HoistedQos(lib, a) == HoistedQos(lib, b) && AnyQosOn(a) == AnyQosOn(b)
    ensures HoistedNat(a) == HoistedNat(b) && AnyNatOn(a) == AnyNatOn(b)
    ensures Largest(a, 0) == Largest(b, 0)
  {
    if a != [] {
      var k := |a| - 1;
      AlikeLists(lib, a[..k], b[..k]);
      assert LiftedQos(lib, a[k]) == LiftedQos(lib, b[k]);
    }
  }

  lemma AlikeGeometry(lib: Lib, q: Qos, a: seq<Network>, b: seq<Network>)
    requires Alike(a, b)
    ensures QosMigrated(lib, q, a) == QosMigrated(lib, q, b)
  {
    AlikeLists(lib, a, b);
    assert Geometry(a) == Geometry(b);
  }

  lemma AlikeMigrated(lib: Lib, c: Config, nets: seq<Network>)
    requires Alike(c.nets, nets)
    ensures var m, e := Migrated(lib, c), Migrated(lib, c.(nets := nets));
            m.qos == e.qos && m.nets == e.nets && m.natTimeout == e.natTimeout && m.dhcp == e.dhcp
  {
    AlikeLists(lib, c.nets, nets);
    AlikeGeometry(lib, c.qos, c.nets, nets);
    assert AllEmptied(c.nets) == AllEmptied(nets);
  }

  lemma AlikeLoad(lib: Lib, c: Config, nets: seq<Network>)
    requires Alike(c.nets, nets)
    ensures Validated(lib, c).Some? == Validated(lib, c.(nets := nets)).Some?
  {
    AlikeMigrated(lib, c, nets);
  }

  // ---------------------------------------------------------------- firewall verdicts

  /** The verdict of network i under its own rulebase. */
  predicate VerdictBefore(c: Config, i: nat, p: FirewallHoist.Packet)
    requires i < |c.nets|
  {
    FirewallHoist.Allow(c.nets[i].firewall.on, c.nets[i].firewall.rules, p)
  }

  /** The verdict of network i under its share of the node's rulebase. */
  predicate Verdict(lib: Lib, d: Config, i: nat, p: FirewallHoist.Packet)
    requires i < |d.nets|
  {
    FirewallHoist.Allow(d.firewallOn, FirewallHoist.RulesFor(lib.strings, d.rulebase.rules, NameOf(d.nets[i])), p)
  }

  ghost predicate SameVerdicts(lib: Lib, c: Config, d: Config) {
    |d.nets| == |c.nets| &&
    forall i: nat, p: FirewallHoist.Packet :: i < |c.nets| ==> Verdict(lib, d, i, p) == VerdictBefore(c, i, p)
  }

  /** The configuration loads, and no verdict on any network differs. */
  ghost predicate KeepsVerdicts(lib: Lib, c: Config) {
    Validated(lib, c).Some? && SameVerdicts(lib, c, Validated(lib, c).value)
  }

  /** The firewall part of a configuration. */
  function FirewallPart(c: Config): FirewallHoist.Node {
    FirewallHoist.Node(c.firewallOn, c.rulebase, FirewallNets(c.nets))
  }

  /** Loading does to verdicts what the firewall's hoist does. */
  lemma VerdictsAreHoisted(lib: Lib, c: Config, d: Config, i: nat, p: FirewallHoist.Packet)
    requires LoadedAs(lib, c, d) && i < |c.nets|
    ensures var part := FirewallPart(c);
            && VerdictBefore(c, i, p) == FirewallHoist.VerdictBefore(part, i, p)
            && Verdict(lib, d, i, p) ==
               FirewallHoist.VerdictAfter(lib.strings, FirewallHoist.Migrated(lib.strings, part), i, p)
  {
    var after := FirewallHoist.Migrated(lib.strings, FirewallPart(c));
    assert d.firewallOn == after.on && d.rulebase == after.base;
    assert NamesOf(d.nets)[i] == NamesOf(c.nets)[i];
  }

  lemma SameAsHoisted(lib: Lib, c: Config, d: Config)
    requires LoadedAs(lib, c, d)
    ensures SameVerdicts(lib, c, d) <==> FirewallHoist.KeepsVerdicts(lib.strings, FirewallPart(c))
  {
    forall i: nat, p: FirewallHoist.Packet | i < |c.nets|
      ensures var part := FirewallPart(c);
              Verdict(lib, d, i, p) == VerdictBefore(c, i, p) <==>
              FirewallHoist.VerdictAfter(lib.strings, FirewallHoist.Migrated(lib.strings, part), i, p) ==
              FirewallHoist.VerdictBefore(part, i, p)
    {
      VerdictsAreHoisted(lib, c, d, i, p);
    }
  }

  lemma KeptAsHoisted(lib: Lib, c: Config)
    requires Validated(lib, c).Some?
    ensures KeepsVerdicts(lib, c) <==> FirewallHoist.KeepsVerdicts(lib.strings, FirewallPart(c))
  {
    var d := Validated(lib, c).value;
    ValidatedParts(lib, c, d);
    SameAsHoisted(lib, c, d);
  }

  lemma SameNamesBefore(nets: seq<Network>)
    ensures FirewallHoist.Names(FirewallNets(nets)) == NamesOf(nets)
  {
  }

  /** These networks, with rulebases as in FirewallHoist.Lonely. */
  function Lonely(nets: seq<Network>, i: nat, r: Firewall.Rule): (out: seq<Network>)
    ensures Alike(nets, out)
    ensures FirewallNets(out) == FirewallHoist.Lonely(NamesOf(nets), i, r)
  {
    seq(|nets|, k requires 0 <= k < |nets| =>
      nets[k].(firewall := FirewallSection(k == i, if k == i then [r] else [], 0)))
  }

  lemma VerdictsKept(lib: Lib, c: Config)
    requires Validated(lib, c).Some? && c.rulebase.rules == []
    requires FirewallHoist.Separate(lib.strings, NamesOf(c.nets))
    ensures KeepsVerdicts(lib, c)
  {
    SameNamesBefore(c.nets);
    FirewallHoist.HoistPreservesVerdicts(lib.strings, FirewallPart(c));
    KeptAsHoisted(lib, c);
  }

  lemma AlikeVerdictsKept(lib: Lib, c: Config, nets: seq<Network>)
    requires Validated(lib, c).Some? && c.rulebase.rules == [] && Alike(c.nets, nets)
    requires FirewallHoist.Separate(lib.strings, NamesOf(c.nets))
    ensures KeepsVerdicts(lib, c.(nets := nets))
  {
    AlikeLoad(lib, c, nets);
    assert NamesOf(nets) == NamesOf(c.nets);
    VerdictsKept(lib, c.(nets := nets));
  }

  lemma LonelyKept(lib: Lib, c: Config, i: nat, r: Firewall.Rule)
    requires i < |c.nets| && c.rulebase.rules == [] && KeepsVerdicts(lib, c.(nets := Lonely(c.nets, i, r)))
    ensures FirewallHoist.KeepsVerdicts(
              lib.strings,
              FirewallHoist.Node(c.firewallOn, Firewall.Rulebase([], c.rulebase.nextID),
                                 FirewallHoist.Lonely(NamesOf(c.nets), i, r)))
  {
    KeptAsHoisted(lib, c.(nets := Lonely(c.nets, i, r)));
  }

  /** A configuration without node-global rules: it keeps every verdict when it is loaded,
      whatever the rulebases under its networks, if and only if each scope reaches its own
      network and no other. */
  lemma LoadKeepsVerdictsExactly(lib: Lib, c: Config)
    requires Validated(lib, c).Some? && c.rulebase.rules == []
    ensures (forall nets :: Alike(c.nets, nets) ==> KeepsVerdicts(lib, c.(nets := nets)))
            <==> FirewallHoist.Separate(lib.strings, NamesOf(c.nets))
  {
    if FirewallHoist.Separate(lib.strings, NamesOf(c.nets)) {
      forall nets | Alike(c.nets, nets)
        ensures KeepsVerdicts(lib, c.(nets := nets))
      {
        AlikeVerdictsKept(lib, c, nets);
      }
    }
    if forall nets :: Alike(c.nets, nets) ==> KeepsVerdicts(lib, c.(nets := nets)) {
      var r := Firewall.Rule(
        0, false, "", Firewall.Body("", "", "", "", "", false, false, 0, 0, 0, 0, [], false, false, ""));
      forall i | 0 <= i < |c.nets|
        ensures FirewallHoist.KeepsVerdicts(
                  lib.strings,
                  FirewallHoist.Node(c.firewallOn, Firewall.Rulebase([], c.rulebase.nextID),
                                     FirewallHoist.Lonely(NamesOf(c.nets), i, r)))
      {
        LonelyKept(lib, c, i, r);
      }
      FirewallHoist.OnlySeparateNamesHoist(lib.strings, c.firewallOn, c.rulebase.nextID, NamesOf(c.nets), r);
    }
  }

  // ---------------------------------------------------------------- rates

  /** The shaping part of a configuration. */
  function ShapingPart(c: Config): Shaping.Node {
    Shaping.Node(c.rate, ShapingNets(c.nets), c.shaping, c.shapingDisabled)
  }

  /** The rate network i gets. */
  function Rate(lib: Lib, d: Config, i: nat): Shaping.Throttle
    requires i < |d.nets|
  {
    Shaping.RateFor(lib.strings, ShapingPart(d), ShapingNets(d.nets)[i])
  }

  /** The rate network i had, which QoS switches on and gives an upstream limit. */
  function RateWanted(c: Config, d: Config, i: nat): Shaping.Throttle
    requires i < |c.nets|
  {
    var t := Shaping.RateBefore(ShapingPart(c), i);
    if d.qos.on then Capped(t) else t
  }

  ghost predicate SameRates(lib: Lib, c: Config, d: Config) {
    |d.nets| == |c.nets| && forall i :: 0 <= i < |c.nets| ==> Rate(lib, d, i) == RateWanted(c, d, i)
  }

  /** The configuration loads, and every network gets the rate it had, capped where QoS needs it. */
  ghost predicate KeepsRates(lib: Lib, c: Config) {
    Validated(lib, c).Some? && SameRates(lib, c, Validated(lib, c).value)
  }

  /** IfaceForNetworkAt, the device network i runs on. */
  function IfaceAt(lib: Lib, nets: seq<Network>, i: nat): string
    requires i < |nets|
  {
    Shaping.IfaceAt(lib.strings, ShapingNets(nets), i)
  }

  ghost predicate DistinctIfaces(lib: Lib, nets: seq<Network>) {
    forall i, j :: 0 <= i < j < |nets| ==> IfaceAt(lib, nets, i) != IfaceAt(lib, nets, j)
  }

  lemma Identify(lib: Lib, nets: seq<Network>)
    requires NetsOK(lib, nets)
    ensures Shaping.Identified(ShapingNets(nets))
  {
    forall i | 0 <= i < |nets|
      ensures ShapingNets(nets)[i].id != ""
    {
      assert NetOK(lib, nets[i]);
    }
  }

  lemma LoadedIface(lib: Lib, c: Config, d: Config, i: nat)
    requires LoadedAs(lib, c, d) && i < |c.nets|
    ensures var f := Shaping.IfaceAt(lib.strings, ShapingNets(c.nets), i);
            && Shaping.IfaceAt(lib.strings, ShapingNets(d.nets), i) == f
            && Shaping.IfaceOf(lib.strings, ShapingNets(d.nets), i) == f
  {
    Identify(lib, c.nets);
    var nets := ShapingNets(d.nets);
    assert Shaping.Identified(nets);
    Shaping.OwnIface(lib.strings, nets, i);
  }

  /** Loading stores for every mesh interface the last limit among the networks on it. */
  lemma LoadedStored(lib: Lib, c: Config, d: Config, i: nat)
    requires Sound(lib) && LoadedAs(lib, c, d) && c.shaping == [] && i < |c.nets|
    ensures var part := ShapingPart(c);
            var f := Shaping.IfaceAt(lib.strings, part.nets, i);
            var last := Shaping.LastRate(lib.strings, part, f, |part.nets|);
            Shaping.Stored(d.shaping, f) == if d.qos.on then Capped(last) else last
  {
    var part := ShapingPart(c);
    var f := Shaping.IfaceAt(lib.strings, part.nets, i);
    Shaping.GatheredStored(lib.strings, part, f, |part.nets|);
    if d.qos.on {
      LoadedIface(lib, c, d, i);
      var nets := ShapingNets(d.nets);
      assert QosCaps.OnMesh(lib, nets, |nets|, f);
      QosCaps.CapsMeshOnly(lib, ShapingMigrated(lib, c).list, nets, |nets|, f);
    }
  }

  /** After loading, a network has the last limit among the networks on its interface. */
  lemma LoadedRate(lib: Lib, c: Config, d: Config, i: nat)
    requires Sound(lib) && LoadedAs(lib, c, d) && c.shaping == [] && !c.shapingDisabled && i < |c.nets|
    ensures var part := ShapingPart(c);
            var last := Shaping.LastRate(lib.strings, part, Shaping.IfaceAt(lib.strings, part.nets, i), |part.nets|);
            Rate(lib, d, i) == if d.qos.on then Capped(last) else last
  {
    LoadedIface(lib, c, d, i);
    LoadedStored(lib, c, d, i);
    Shaping.IfaceIsClean(lib.strings, ShapingNets(c.nets), i);
  }

  lemma OwnRate(lib: Lib, c: Config, i: nat)
    requires i < |c.nets| && DistinctIfaces(lib, c.nets)
    ensures Shaping.LastRate(lib.strings, ShapingPart(c), IfaceAt(lib, c.nets, i), |c.nets|) ==
            Shaping.RateBefore(ShapingPart(c), i)
  {
    var part, f := ShapingPart(c), IfaceAt(lib, c.nets, i);
    forall j | 0 <= j < |part.nets| && j != i
      ensures Shaping.IfaceAt(lib.strings, part.nets, j) != f
    {
      assert IfaceAt(lib, c.nets, j) != f;
    }
    Shaping.SoleRate(lib.strings, part, f, i, |part.nets|);
  }

  lemma RatesSame(lib: Lib, c: Config, d: Config)
    requires Sound(lib) && LoadedAs(lib, c, d) && c.shaping == [] && !c.shapingDisabled
    requires DistinctIfaces(lib, c.nets)
    ensures SameRates(lib, c, d)
  {
    forall i | 0 <= i < |c.nets|
      ensures Rate(lib, d, i) == RateWanted(c, d, i)
    {
      LoadedRate(lib, c, d, i);
      OwnRate(lib, c, i);
    }
  }

  lemma RatesKept(lib: Lib, c: Config)
    requires Sound(lib) && Validated(lib, c).Some? && c.shaping == [] && !c.shapingDisabled
    requires DistinctIfaces(lib, c.nets)
    ensures KeepsRates(lib, c)
  {
    var d := Validated(lib, c).value;
    ValidatedParts(lib, c, d);
    RatesSame(lib, c, d);
  }

  /** These networks, with a rate on network j alone. */
  function Rated(nets: seq<Network>, j: nat, t: Shaping.Throttle): (out: seq<Network>)
    ensures Alike(nets, out)
    ensures forall k :: 0 <= k < |nets| ==> out[k].rate == Some(if k == j then t else Shaping.NONE)
  {
    seq(|nets|, k requires 0 <= k < |nets| => nets[k].(rate := Some(if k == j then t else Shaping.NONE)))
  }

  /** A network on the interface of the only one with a rate gets that rate. */
  lemma RateShared(lib: Lib, c: Config, d: Config, i: nat, j: nat, t: Shaping.Throttle)
    requires Sound(lib) && LoadedAs(lib, c, d) && c.shaping == [] && !c.shapingDisabled && i < j < |c.nets|
    requires IfaceAt(lib, c.nets, i) == IfaceAt(lib, c.nets, j) && Capped(t) == t
    requires forall k :: 0 <= k < |c.nets| ==> c.nets[k].rate == Some(if k == j then t else Shaping.NONE)
    ensures Rate(lib, d, i) == t && Shaping.RateBefore(ShapingPart(c), i) == Shaping.NONE
  {
    LoadedRate(lib, c, d, i);
    Shaping.SoleRate(lib.strings, ShapingPart(c), IfaceAt(lib, c.nets, i), j, |c.nets|);
  }

  lemma SharedIface(lib: Lib, c: Config, i: nat, j: nat)
    requires Sound(lib) && c.shaping == [] && !c.shapingDisabled && i < j < |c.nets|
    requires KeepsRates(lib, c.(nets := Rated(c.nets, j, Shaping.Throttle(true, 1, 0, 0, 0))))
    ensures IfaceAt(lib, c.nets, i) != IfaceAt(lib, c.nets, j)
  {
    var t := Shaping.Throttle(true, 1, 0, 0, 0);
    var e := c.(nets := Rated(c.nets, j, t));
    var d := Validated(lib, e).value;
    ValidatedParts(lib, e, d);
    if IfaceAt(lib, c.nets, i) == IfaceAt(lib, c.nets, j) {
      RateShared(lib, e, d, i, j, t);
    }
  }

  lemma AlikeRatesKept(lib: Lib, c: Config, nets: seq<Network>)
    requires Sound(lib) && Validated(lib, c).Some? && c.shaping == [] && !c.shapingDisabled
    requires DistinctIfaces(lib, c.nets) && Alike(c.nets, nets)
    ensures KeepsRates(lib, c.(nets := nets))
  {
    AlikeLoad(lib, c, nets);
    assert forall i :: 0 <= i < |nets| ==> IfaceAt(lib, nets, i) == IfaceAt(lib, c.nets, i);
    RatesKept(lib, c.(nets := nets));
  }

  /** A configuration without a shaping list: every network keeps its rate when it is loaded,
      whatever the rates, if and only if no two networks are on one interface. */
  lemma LoadKeepsRatesExactly(lib: Lib, c: Config)
    requires Sound(lib) && Validated(lib, c).Some? && c.shaping == [] && !c.shapingDisabled
    ensures (forall nets :: Alike(c.nets, nets) ==> KeepsRates(lib, c.(nets := nets)))
            <==> DistinctIfaces(lib, c.nets)
  {
    if DistinctIfaces(lib, c.nets) {
      forall nets | Alike(c.nets, nets)
        ensures KeepsRates(lib, c.(nets := nets))
      {
        AlikeRatesKept(lib, c, nets);
      }
    }
    if forall nets :: Alike(c.nets, nets) ==> KeepsRates(lib, c.(nets := nets)) {
      forall i, j | 0 <= i < j < |c.nets|
        ensures IfaceAt(lib, c.nets, i) != IfaceAt(lib, c.nets, j)
      {
        SharedIface(lib, c, i, j);
      }
    }
  }

  // ---------------------------------------------------------------- classes

  /** The class and mark a packet gets on network i. */
  ghost function Outcome(
    q: QosCompile.Lib, svcs: seq<QosCompile.Service>, d: Config, i: nat, p: QosCompile.Packet): QosHoist.Outcome
    requires i < |d.nets|
  {
    var n := NameOf(d.nets[i]);
    if !d.qos.on then QosHoist.Unclassified
    else
      QosHoist.OutcomeOf(
        d.qos, QosCompile.FirstMatch(q, svcs, QosCompile.Scoped(q, d.qos.rules, n.name, n.id), p))
  }

  /** Every packet on a network with QoS on keeps class and mark. */
  ghost predicate SameClasses(q: QosCompile.Lib, svcs: seq<QosCompile.Service>, c: Config, d: Config) {
    |d.nets| == |c.nets| &&
    forall i: nat, p: QosCompile.Packet :: i < |c.nets| && c.nets[i].qos.on ==>
      Outcome(q, svcs, d, i, p) == QosHoist.OutcomeBefore(q, svcs, c.nets[i], p)
  }

  ghost predicate KeepsClasses(lib: Lib, q: QosCompile.Lib, svcs: seq<QosCompile.Service>, c: Config) {
    Validated(lib, c).Some? && SameClasses(q, svcs, c, Validated(lib, c).value)
  }

  lemma LoadedOutcome(
    lib: Lib, q: QosCompile.Lib, svcs: seq<QosCompile.Service>, c: Config, d: Config, i: nat, p: QosCompile.Packet)
    requires LoadedAs(lib, c, d) && i < |c.nets|
    ensures Outcome(q, svcs, d, i, p) == QosHoist.OutcomeAfter(lib, q, svcs, c.qos, c.nets, c.nets[i], p)
  {
    assert NamesOf(d.nets)[i] == NamesOf(c.nets)[i];
  }

  /** Loading does to classes what the hoist of QoS does. */
  lemma ClassesAreHoisted(lib: Lib, q: QosCompile.Lib, svcs: seq<QosCompile.Service>, c: Config, d: Config)
    requires LoadedAs(lib, c, d)
    ensures SameClasses(q, svcs, c, d) <==> QosHoist.KeepsClasses(lib, q, svcs, c.qos, c.nets)
  {
    forall i: nat, p: QosCompile.Packet | i < |c.nets|
      ensures Outcome(q, svcs, d, i, p) == QosHoist.OutcomeAfter(lib, q, svcs, c.qos, c.nets, c.nets[i], p)
    {
      LoadedOutcome(lib, q, svcs, c, d, i, p);
    }
  }

  lemma ClassesKept(lib: Lib, q: QosCompile.Lib, svcs: seq<QosCompile.Service>, c: Config)
    requires Validated(lib, c).Some?
    ensures KeepsClasses(lib, q, svcs, c) <==> QosHoist.KeepsClasses(lib, q, svcs, c.qos, c.nets)
  {
    var d := Validated(lib, c).value;
    ValidatedParts(lib, c, d);
    ClassesAreHoisted(lib, q, svcs, c, d);
  }

  /** The configuration with these QoS rules under its networks. */
  function WithRules(c: Config, rs: seq<seq<QosCompile.Rule>>): Config
    requires |rs| == |c.nets|
  {
    c.(nets := QosHoist.WithRules(c.nets, rs))
  }

  /** Every scope the hoist writes names a network, once blanks around it are cut off. */
  predicate ScopesKnown(lib: Lib, nets: seq<Network>) {
    forall i :: 0 <= i < |nets| ==>
      Firewall.ScopeOK(Firewall.Scopes(lib.strings, NamesOf(nets)), ScopeName(lib, nets[i]))
  }

  lemma {:induction false} HoistedScopes(lib: Lib, nets: seq<Network>, sc: Firewall.Scopes)
    requires forall i :: 0 <= i < |nets| && nets[i].qos.rules != [] ==> Firewall.ScopeOK(sc, ScopeName(lib, nets[i]))
    ensures forall r :: r in HoistedQos(lib, nets) ==> Firewall.ScopeOK(sc, r.scope)
  {
    if nets != [] {
      HoistedScopes(lib, nets[..|nets| - 1], sc);
    }
  }

  lemma {:induction false} ScopeWritten(lib: Lib, nets: seq<Network>, i: nat)
    requires i < |nets| && nets[i].qos.rules != []
    ensures exists r :: r in HoistedQos(lib, nets) && r.scope == ScopeName(lib, nets[i])
  {
    var k := |nets| - 1;
    if i < k {
      ScopeWritten(lib, nets[..k], i);
      var r :| r in HoistedQos(lib, nets[..k]) && r.scope == ScopeName(lib, nets[i]);
      assert r in HoistedQos(lib, nets);
    } else {
      var r := LiftedQos(lib, nets[i])[0];
      assert r in LiftedQos(lib, nets[i]);
      assert r in HoistedQos(lib, nets);
    }
  }

  lemma {:induction false} RulesApart(nets: seq<Network>, rs: seq<seq<QosCompile.Rule>>)
    requires |rs| == |nets|
    ensures AnyQosOn(QosHoist.WithRules(nets, rs)) == AnyQosOn(nets)
    ensures Largest(QosHoist.WithRules(nets, rs), 0) == Largest(nets, 0)
  {
    if nets != [] {
      var k := |nets| - 1;
      assert QosHoist.WithRules(nets, rs)[..k] == QosHoist.WithRules(nets[..k], rs[..k]);
      RulesApart(nets[..k], rs[..k]);
    }
  }

  lemma RulesMigrated(lib: Lib, c: Config, rs: seq<seq<QosCompile.Rule>>)
    requires |rs| == |c.nets| && c.qos.rules == []
    ensures var m, e := Migrated(lib, c), Migrated(lib, WithRules(c, rs));
            && m.qos.on == e.qos.on == (c.qos.on || AnyQosOn(c.nets))
            && m.nets == e.nets && m.natTimeout == e.natTimeout && m.dhcp == e.dhcp
            && e.qos.rules == HoistedQos(lib, WithRules(c, rs).nets) && NamesOf(e.nets) == NamesOf(c.nets)
  {
    RulesApart(c.nets, rs);
    assert AllEmptied(c.nets) == AllEmptied(QosHoist.WithRules(c.nets, rs));
  }

  lemma ScopesListed(lib: Lib, nets: seq<Network>, rules: seq<QosCompile.Rule>)
    ensures ScopesOK(lib, nets, rules) <==>
            var sc := Firewall.Scopes(lib.strings, NamesOf(nets));
            forall r :: r in rules ==> Firewall.ScopeOK(sc, r.scope)
  {
    if ScopesOK(lib, nets, rules) {
      forall r | r in rules
        ensures Firewall.ScopeOK(Firewall.Scopes(lib.strings, NamesOf(nets)), r.scope)
      {
        var i :| 0 <= i < |rules| && rules[i] == r;
      }
    }
  }

  lemma OnlyScopesDecide(lib: Lib, c: Config, e: Config)
    requires Validated(lib, c).Some? && ReadOnlyOK(lib, e)
    requires var m, n := Migrated(lib, c), Migrated(lib, e);
             m.nets == n.nets && m.natTimeout == n.natTimeout && m.dhcp == n.dhcp
    ensures var n := Migrated(lib, e);
            Validated(lib, e).Some? <==> (n.qos.on ==> ScopesOK(lib, n.nets, n.qos.rules))
  {
  }

  /** Other rules make a configuration that loads fail only by their scopes. */
  lemma RulesLoad(lib: Lib, c: Config, rs: seq<seq<QosCompile.Rule>>)
    requires |rs| == |c.nets| && c.qos.rules == [] && Validated(lib, c).Some?
    ensures Validated(lib, WithRules(c, rs)).Some? <==>
            (c.qos.on || AnyQosOn(c.nets) ==>
               var sc := Firewall.Scopes(lib.strings, NamesOf(c.nets));
               forall r :: r in HoistedQos(lib, WithRules(c, rs).nets) ==> Firewall.ScopeOK(sc, r.scope))
  {
    var e := WithRules(c, rs);
    RulesMigrated(lib, c, rs);
    OnlyScopesDecide(lib, c, e);
    ScopesListed(lib, Migrated(lib, e).nets, Migrated(lib, e).qos.rules);
  }

  lemma KnownScopesLoad(lib: Lib, c: Config, rs: seq<seq<QosCompile.Rule>>)
    requires |rs| == |c.nets| && c.qos.rules == [] && Validated(lib, c).Some?
    requires !(c.qos.on || AnyQosOn(c.nets)) || ScopesKnown(lib, c.nets)
    ensures Validated(lib, WithRules(c, rs)).Some?
  {
    var nets := WithRules(c, rs).nets;
    if c.qos.on || AnyQosOn(c.nets) {
      assert forall i :: 0 <= i < |nets| ==> ScopeName(lib, nets[i]) == ScopeName(lib, c.nets[i]);
      HoistedScopes(lib, nets, Firewall.Scopes(lib.strings, NamesOf(c.nets)));
    }
    RulesLoad(lib, c, rs);
  }

  /** A rule under a network whose scope names no network makes Validate refuse. */
  lemma UnknownScopeRefused(lib: Lib, c: Config, rs: seq<seq<QosCompile.Rule>>, i: nat)
    requires |rs| == |c.nets| && i < |rs| && rs[i] != [] && c.qos.rules == [] && Validated(lib, c).Some?
    requires c.qos.on || AnyQosOn(c.nets)
    requires !Firewall.ScopeOK(Firewall.Scopes(lib.strings, NamesOf(c.nets)), ScopeName(lib, c.nets[i]))
    ensures Validated(lib, WithRules(c, rs)).None?
  {
    ScopeWritten(lib, WithRules(c, rs).nets, i);
    assert ScopeName(lib, WithRules(c, rs).nets[i]) == ScopeName(lib, c.nets[i]);
    RulesLoad(lib, c, rs);
  }

  ghost predicate LoadsWithAnyRules(lib: Lib, c: Config) {
    forall rs :: |rs| == |c.nets| ==> Validated(lib, WithRules(c, rs)).Some?
  }

  /** A rule on every network. */
  function RuleEach(n: nat): (rs: seq<seq<QosCompile.Rule>>)
    ensures |rs| == n && forall i :: 0 <= i < n ==> rs[i] != []
  {
    seq(n, i requires 0 <= i < n => [QosHoist.CatchAll(0)])
  }

  lemma UnknownScopeBreaksOne(lib: Lib, c: Config, i: nat)
    requires i < |c.nets| && c.qos.rules == [] && Validated(lib, c).Some?
    requires c.qos.on || AnyQosOn(c.nets)
    requires !Firewall.ScopeOK(Firewall.Scopes(lib.strings, NamesOf(c.nets)), ScopeName(lib, c.nets[i]))
    ensures !LoadsWithAnyRules(lib, c)
  {
    UnknownScopeRefused(lib, c, RuleEach(|c.nets|), i);
  }

  /** From no node-global rules: a configuration that loads does so whatever the QoS rules under
      its networks, if and only if QoS stays off on the node or every scope written names a
      network. */
  lemma RulesLoadExactly(lib: Lib, c: Config)
    requires Validated(lib, c).Some? && c.qos.rules == []
    ensures LoadsWithAnyRules(lib, c) <==> !(c.qos.on || AnyQosOn(c.nets)) || ScopesKnown(lib, c.nets)
  {
    if !(c.qos.on || AnyQosOn(c.nets)) || ScopesKnown(lib, c.nets) {
      forall rs | |rs| == |c.nets|
        ensures Validated(lib, WithRules(c, rs)).Some?
      {
        KnownScopesLoad(lib, c, rs);
      }
    } else {
      var i :| 0 <= i < |c.nets| &&
        !Firewall.ScopeOK(Firewall.Scopes(lib.strings, NamesOf(c.nets)), ScopeName(lib, c.nets[i]));
      UnknownScopeBreaksOne(lib, c, i);
    }
  }

  /** Where every scope is known, loading is a matter of the hoist alone. */
  lemma KeptWithRules(
    lib: Lib, q: QosCompile.Lib, svcs: seq<QosCompile.Service>, c: Config, rs: seq<seq<QosCompile.Rule>>)
    requires |rs| == |c.nets| && Validated(lib, c).Some? && c.qos.rules == []
    requires !(c.qos.on || AnyQosOn(c.nets)) || ScopesKnown(lib, c.nets)
    ensures KeepsClasses(lib, q, svcs, WithRules(c, rs)) <==>
            QosHoist.KeepsClasses(lib, q, svcs, c.qos, QosHoist.WithRules(c.nets, rs))
  {
    KnownScopesLoad(lib, c, rs);
    ClassesKept(lib, q, svcs, WithRules(c, rs));
  }

  ghost predicate KeepsClassesWithAnyRules(
    lib: Lib, q: QosCompile.Lib, svcs: seq<QosCompile.Service>, c: Config)
  {
    forall rs :: |rs| == |c.nets| ==> KeepsClasses(lib, q, svcs, WithRules(c, rs))
  }

  lemma KeptMeansLoaded(lib: Lib, q: QosCompile.Lib, svcs: seq<QosCompile.Service>, c: Config)
    requires KeepsClassesWithAnyRules(lib, q, svcs, c)
    ensures LoadsWithAnyRules(lib, c)
  {
    forall rs | |rs| == |c.nets|
      ensures Validated(lib, WithRules(c, rs)).Some?
    {
      assert KeepsClasses(lib, q, svcs, WithRules(c, rs));
    }
  }

  lemma KnownScopesKeep(lib: Lib, q: QosCompile.Lib, svcs: seq<QosCompile.Service>, c: Config)
    requires Validated(lib, c).Some? && c.qos.rules == [] && q.strings == lib.strings
    requires !(c.qos.on || AnyQosOn(c.nets)) || ScopesKnown(lib, c.nets)
    ensures KeepsClassesWithAnyRules(lib, q, svcs, c)
            <==> QosHoist.SeparateOn(lib, c.nets) && QosHoist.OneGeometry(c.nets)
  {
    forall rs | |rs| == |c.nets|
      ensures KeepsClasses(lib, q, svcs, WithRules(c, rs)) <==>
              QosHoist.KeepsClasses(lib, q, svcs, c.qos, QosHoist.WithRules(c.nets, rs))
    {
      KeptWithRules(lib, q, svcs, c, rs);
    }
    QosHoist.QosHoistKeepsClassesExactly(lib, q, svcs, c.qos, c.nets);
  }

  /** From no node-global rules: the configuration loads and every packet on a network with QoS on
      keeps class and mark, whatever the rules, if and only if every scope is known where QoS is on,
      and scopes and geometries are as in QosHoistKeepsClassesExactly. */
  lemma LoadKeepsClassesExactly(lib: Lib, q: QosCompile.Lib, svcs: seq<QosCompile.Service>, c: Config)
    requires Validated(lib, c).Some? && c.qos.rules == [] && q.strings == lib.strings
    ensures KeepsClassesWithAnyRules(lib, q, svcs, c) <==>
            && (!(c.qos.on || AnyQosOn(c.nets)) || ScopesKnown(lib, c.nets))
            && QosHoist.SeparateOn(lib, c.nets) && QosHoist.OneGeometry(c.nets)
  {
    if KeepsClassesWithAnyRules(lib, q, svcs, c) {
      KeptMeansLoaded(lib, q, svcs, c);
      RulesLoadExactly(lib, c);
    }
    if !(c.qos.on || AnyQosOn(c.nets)) || ScopesKnown(lib, c.nets) {
      KnownScopesKeep(lib, q, svcs, c);
    }
  }

  // ---------------------------------------------------------------- NAT

  lemma {:induction false} DirectedEnabled(lib: Lib, rules: seq<NatRule>)
    ensures NatHoist.EnabledNat(AllDirected(lib, rules)) == AllDirected(lib, NatHoist.EnabledNat(rules))
  {
    if rules != [] {
      var k := |rules| - 1;
      assert AllDirected(lib, rules)[..k] == AllDirected(lib, rules[..k]);
      DirectedEnabled(lib, rules[..k]);
    }
  }

  lemma {:induction false} DirectedApplying(lib: Lib, rules: seq<NatRule>, dev: string)
    ensures NatHoist.Applying(lib.strings, AllDirected(lib, rules), dev) ==
            AllDirected(lib, NatHoist.Applying(lib.strings, rules, dev))
  {
    if rules != [] {
      var k := |rules| - 1;
      assert AllDirected(lib, rules)[..k] == AllDirected(lib, rules[..k]);
      DirectedApplying(lib, rules[..k], dev);
    }
  }

  /** The overlay table of network i. */
  function Table(lib: Lib, d: Config, i: nat): seq<NatRule>
    requires i < |d.nets|
  {
    NatHoist.Overlay(lib.strings, d.translation, NatHoist.Device(lib, d.nets, i))
  }

  /** Directions rewritten, every overlay table holds the rules that were in force under its
      network. */
  ghost predicate SameTables(lib: Lib, c: Config, d: Config) {
    |d.nets| == |c.nets| && forall i :: 0 <= i < |c.nets| ==>
      Table(lib, d, i) == AllDirected(lib, NatHoist.Effective(c.nets[i].translation))
  }

  lemma LoadedInForce(lib: Lib, c: Config, d: Config)
    requires LoadedAs(lib, c, d)
    ensures NatHoist.Effective(d.translation) ==
            AllDirected(lib, NatHoist.Effective(NatMigrated(c.translation, c.nets)))
  {
    DirectedEnabled(lib, NatMigrated(c.translation, c.nets).rules);
  }

  lemma LoadedTable(lib: Lib, c: Config, d: Config, i: nat)
    requires LoadedAs(lib, c, d) && i < |c.nets|
    ensures var dev := NatHoist.Device(lib, c.nets, i);
            Table(lib, d, i) ==
            AllDirected(lib, NatHoist.Overlay(lib.strings, NatMigrated(c.translation, c.nets), dev))
  {
    LoadedIface(lib, c, d, i);
    Identify(lib, c.nets);
    Shaping.OwnIface(lib.strings, ShapingNets(c.nets), i);
    LoadedInForce(lib, c, d);
    DirectedApplying(
      lib, NatHoist.Effective(NatMigrated(c.translation, c.nets)), NatHoist.Device(lib, c.nets, i));
  }

  /** Which rules apply does not hang on directions. */
  lemma DirectedApply(lib: Lib, a: seq<NatRule>, b: seq<NatRule>, dev: string)
    requires AllDirected(lib, a) == AllDirected(lib, b)
    requires forall r :: r in a ==> NatHoist.Applies(lib.strings, r, dev)
    ensures |a| == |b| && forall r :: r in b ==> NatHoist.Applies(lib.strings, r, dev)
  {
    assert |a| == |AllDirected(lib, a)| == |b|;
    forall r | r in b
      ensures NatHoist.Applies(lib.strings, r, dev)
    {
      var k :| 0 <= k < |b| && b[k] == r;
      assert Directed(lib, a[k]) == Directed(lib, b[k]);
      assert a[k] in a;
    }
  }

  /** So rewriting them does not hide that a table changed. */
  lemma DirectedTable(lib: Lib, n: Nat, nets: seq<Network>, i: nat)
    requires n.rules == [] && i < |nets|
    ensures var table := NatHoist.Overlay(lib.strings, NatMigrated(n, nets), NatHoist.Device(lib, nets, i));
            var own := NatHoist.Effective(nets[i].translation);
            AllDirected(lib, table) == AllDirected(lib, own) <==> table == own
  {
    var dev, own := NatHoist.Device(lib, nets, i), NatHoist.Effective(nets[i].translation);
    var table := NatHoist.Overlay(lib.strings, NatMigrated(n, nets), dev);
    if AllDirected(lib, table) == AllDirected(lib, own) {
      NatHoist.NatHoistKeepsKernel(n, nets);
      NatHoist.ApplyingIs(lib.strings, NatHoist.AllEffective(nets), dev);
      DirectedApply(lib, table, own, dev);
      NatHoist.ApplyingIs(lib.strings, own, dev);
      NatHoist.SoleShare(lib.strings, nets, i, dev);
    }
  }

  /** From no node-global rules: the kernel gets what the networks' NAT had in force, in order, and
      every overlay table stays what it was if and only if every rule in force under a network
      applies to that network's device and to no other's. */
  lemma LoadKeepsTablesExactly(lib: Lib, c: Config, d: Config)
    requires Validated(lib, c) == Some(d) && c.translation.rules == []
    ensures NatHoist.Effective(d.translation) == AllDirected(lib, NatHoist.AllEffective(c.nets))
    ensures SameTables(lib, c, d) <==> NatHoist.StayHome(lib, c.nets)
  {
    ValidatedParts(lib, c, d);
    TablesAreHoisted(lib, c, d);
    LoadedInForce(lib, c, d);
    NatHoist.NatHoistKeepsKernel(c.translation, c.nets);
    NatHoist.NatHoistKeepsOverlaysExactly(lib, c.translation, c.nets);
  }

  lemma TablesAreHoisted(lib: Lib, c: Config, d: Config)
    requires LoadedAs(lib, c, d) && c.translation.rules == []
    ensures SameTables(lib, c, d) <==> NatHoist.KeepsOverlays(lib, c.translation, c.nets)
  {
    forall i | 0 <= i < |c.nets|
      ensures Table(lib, d, i) == AllDirected(lib, NatHoist.Effective(c.nets[i].translation)) <==>
              NatHoist.Overlay(lib.strings, NatMigrated(c.translation, c.nets), NatHoist.Device(lib, c.nets, i)) ==
              NatHoist.Effective(c.nets[i].translation)
    {
      LoadedTable(lib, c, d, i);
      DirectedTable(lib, c.translation, c.nets, i);
    }
  }

  // ---------------------------------------------------------------- all together

  lemma SeparateWhereOn(lib: Lib, nets: seq<Network>)
    requires FirewallHoist.Separate(lib.strings, NamesOf(nets))
    ensures QosHoist.SeparateOn(lib, nets)
  {
    forall i, j | 0 <= i < |nets| && 0 <= j < |nets|
      ensures QosHoist.Reached(lib, nets, j, i) <==> i == j
    {
      var names := NamesOf(nets);
      assert FirewallHoist.Reaches(lib.strings, FirewallHoist.ScopeName(lib.strings, names[j]), names[i]) <==> j == i;
    }
  }

  /** A configuration from before, with nothing node-global, whose networks have separate names and
      devices, one QoS geometry, and NAT rules about their own device: once loaded, every verdict,
      class, mark, rate and overlay table is what it was. */
  lemma LoadKeepsMeaning(lib: Lib, q: QosCompile.Lib, svcs: seq<QosCompile.Service>, c: Config, d: Config)
    requires Sound(lib) && q.strings == lib.strings && Validated(lib, c) == Some(d)
    requires c.rulebase.rules == [] && c.qos.rules == [] && c.translation.rules == []
    requires c.shaping == [] && !c.shapingDisabled
    requires FirewallHoist.Separate(lib.strings, NamesOf(c.nets)) && DistinctIfaces(lib, c.nets)
    requires QosHoist.OneGeometry(c.nets) && NatHoist.StayHome(lib, c.nets)
    ensures SameVerdicts(lib, c, d) && SameClasses(q, svcs, c, d)
    ensures SameRates(lib, c, d) && SameTables(lib, c, d)
  {
    VerdictsKept(lib, c);
    RatesKept(lib, c);
    SeparateWhereOn(lib, c.nets);
    QosHoist.ConditionsSuffice(lib, q, svcs, c.qos, c.nets);
    ClassesKept(lib, q, svcs, c);
    LoadKeepsTablesExactly(lib, c, d);
  }
}
