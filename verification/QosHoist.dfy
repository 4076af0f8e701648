/** Hoisting per-network QoS into one rulebase and one class geometry: when does every packet keep
    its class and mark? */
module QosHoist {
  import opened Text
  import opened Validation
  import Firewall
  import FirewallHoist
  import QosCaps
  import QosCompile
  import Shaping

  // ---------------------------------------------------------------- first matches

  lemma {:induction false} MatchConcat(
    q: QosCompile.Lib, svcs: seq<QosCompile.Service>, a: seq<QosCompile.Rule>, b: seq<QosCompile.Rule>,
    p: QosCompile.Packet)
    ensures QosCompile.FirstMatch(q, svcs, a + b, p) ==
            if QosCompile.FirstMatch(q, svcs, a, p).Some? then QosCompile.FirstMatch(q, svcs, a, p)
            else QosCompile.FirstMatch(q, svcs, b, p)
  {
    if b == [] {
      assert a + b == a;
    } else {
      assert (a + b)[..|a + b| - 1] == a + b[..|b| - 1];
      MatchConcat(q, svcs, a, b[..|b| - 1], p);
    }
  }

  lemma {:induction false} ScopedConcat(
    q: QosCompile.Lib, a: seq<QosCompile.Rule>, b: seq<QosCompile.Rule>, name: string, id: string)
    ensures QosCompile.Scoped(q, a + b, name, id) ==
            QosCompile.Scoped(q, a, name, id) + QosCompile.Scoped(q, b, name, id)
  {
    if b == [] {
      assert a + b == a;
    } else {
      assert (a + b)[..|a + b| - 1] == a + b[..|b| - 1];
      ScopedConcat(q, a, b[..|b| - 1], name, id);
    }
  }

  /** The first k rules lifted out of network n, as network m sees them. */
  lemma {:induction false} LiftedMatches(
    lib: Lib, q: QosCompile.Lib, svcs: seq<QosCompile.Service>, n: Network, k: nat,
    m: Firewall.NetName, p: QosCompile.Packet)
    requires q.strings == lib.strings && k <= |n.qos.rules|
    ensures QosCompile.FirstMatch(q, svcs, QosCompile.Scoped(q, LiftedQos(lib, n)[..k], m.name, m.id), p) ==
            if n.qos.on && FirewallHoist.Reaches(lib.strings, ScopeName(lib, n), m)
            then QosCompile.FirstMatch(q, svcs, n.qos.rules[..k], p) else None
  {
    if k > 0 {
      var lifted, rules := LiftedQos(lib, n)[..k], n.qos.rules[..k];
      var last := lifted[k - 1];
      assert lifted[..k - 1] == LiftedQos(lib, n)[..k - 1] && rules[..k - 1] == n.qos.rules[..k - 1];
      LiftedMatches(lib, q, svcs, n, k - 1, m, p);
      LiftedLast(lib, q, svcs, n, rules[k - 1], m, p);
      MatchConcat(q, svcs, QosCompile.Scoped(q, lifted[..k - 1], m.name, m.id),
                  if QosCompile.InScope(q, last, m.name, m.id) then [last] else [], p);
    }
  }

  lemma LiftedLast(
    lib: Lib, q: QosCompile.Lib, svcs: seq<QosCompile.Service>, n: Network, r: QosCompile.Rule,
    m: Firewall.NetName, p: QosCompile.Packet)
    requires q.strings == lib.strings
    ensures var lifted := r.(scope := ScopeName(lib, n), disabled := r.disabled || !n.qos.on);
            && QosCompile.InScope(q, lifted, m.name, m.id) == FirewallHoist.Reaches(lib.strings, ScopeName(lib, n), m)
            && QosCompile.Matches(q, svcs, lifted, p) == QosCompile.Matches(q, svcs, r, p)
  {
  }

  lemma {:induction false} HoistedMatches(
    lib: Lib, q: QosCompile.Lib, svcs: seq<QosCompile.Service>, nets: seq<Network>, i: nat,
    m: Firewall.NetName, p: QosCompile.Packet)
    requires q.strings == lib.strings
    requires forall k :: 0 <= k < |nets| && k != i ==>
               || !nets[k].qos.on || nets[k].qos.rules == []
               || !FirewallHoist.Reaches(lib.strings, ScopeName(lib, nets[k]), m)
    ensures QosCompile.FirstMatch(q, svcs, QosCompile.Scoped(q, HoistedQos(lib, nets), m.name, m.id), p) ==
            if i < |nets| && nets[i].qos.on && FirewallHoist.Reaches(lib.strings, ScopeName(lib, nets[i]), m)
            then QosCompile.FirstMatch(q, svcs, nets[i].qos.rules, p) else None
  {
    if nets != [] {
      var k := |nets| - 1;
      HoistedMatches(lib, q, svcs, nets[..k], i, m, p);
      ScopedConcat(q, HoistedQos(lib, nets[..k]), LiftedQos(lib, nets[k]), m.name, m.id);
      MatchConcat(q, svcs, QosCompile.Scoped(q, HoistedQos(lib, nets[..k]), m.name, m.id),
                  QosCompile.Scoped(q, LiftedQos(lib, nets[k]), m.name, m.id), p);
      var rules := nets[k].qos.rules;
      LiftedMatches(lib, q, svcs, nets[k], |rules|, m, p);
      assert LiftedQos(lib, nets[k])[..|rules|] == LiftedQos(lib, nets[k]) && rules[..|rules|] == rules;
    }
  }

  // ---------------------------------------------------------------- classes and marks

  /** What QoS makes of a packet: nothing, or a class and the mark it leaves with. */
  datatype Outcome = Unclassified | Classed(level: int, mark: int)

  function OutcomeOf(q: Qos, m: Option<int>): Outcome {
    var level := QosCompile.ClassFor(q.classes, q.defaultClass, m);
    Classed(level, QosCompile.MarkFor(q.classDSCP, q.classes, q.defaultClass, level))
  }

  /** On network n by its own section, whose geometry is brought into shape as Validate does. */
  ghost function OutcomeBefore(
    q: QosCompile.Lib, svcs: seq<QosCompile.Service>, n: Network, p: QosCompile.Packet): Outcome
  {
    if !n.qos.on then Unclassified
    else OutcomeOf(Shaped(n.qos), QosCompile.FirstMatch(q, svcs, n.qos.rules, p))
  }

  /** On network n by the node's section. */
  ghost function OutcomeAfter(
    lib: Lib, q: QosCompile.Lib, svcs: seq<QosCompile.Service>, c: Qos, nets: seq<Network>, n: Network,
    p: QosCompile.Packet): Outcome
  {
    var node := Shaped(QosMigrated(lib, c, nets));
    if !node.on then Unclassified
    else OutcomeOf(node, QosCompile.FirstMatch(q, svcs, QosCompile.Scoped(q, node.rules, n.name, n.id), p))
  }

  /** Every network with QoS on treats every packet as before. */
  ghost predicate KeepsClasses(
    lib: Lib, q: QosCompile.Lib, svcs: seq<QosCompile.Service>, c: Qos, nets: seq<Network>)
  {
    forall i: nat, p: QosCompile.Packet :: i < |nets| && nets[i].qos.on ==>
      OutcomeAfter(lib, q, svcs, c, nets, nets[i], p) == OutcomeBefore(q, svcs, nets[i], p)
  }

  predicate Reached(lib: Lib, nets: seq<Network>, j: nat, i: nat)
    requires i < |nets| && j < |nets|
  {
    FirewallHoist.Reaches(lib.strings, ScopeName(lib, nets[j]), NameOf(nets[i]))
  }

  /** Among networks with QoS on, each scope reaches its own network and no other. */
  ghost predicate SeparateOn(lib: Lib, nets: seq<Network>) {
    forall i, j :: 0 <= i < |nets| && 0 <= j < |nets| && nets[i].qos.on && nets[j].qos.on ==>
      (Reached(lib, nets, j, i) <==> i == j)
  }

  /** One normalised geometry: as many classes, the same default, the same mark for each class. */
  ghost predicate SameGeometry(a: Qos, b: Qos) {
    var x, y := Shaped(a), Shaped(b);
    && x.classes == y.classes && x.defaultClass == y.defaultClass
    && forall l :: 0 <= l < x.classes ==>
         QosCompile.MarkFor(x.classDSCP, x.classes, x.defaultClass, l) ==
         QosCompile.MarkFor(y.classDSCP, y.classes, y.defaultClass, l)
  }

  /** Network k can be the one the geometry is taken from: its QoS is on, or none before it is. */
  predicate MayDecide(nets: seq<Network>, k: nat)
    requires k < |nets|
  {
    nets[k].qos.on || forall j :: 0 <= j < k ==> !nets[j].qos.on
  }

  ghost predicate OneGeometry(nets: seq<Network>) {
    forall i, k :: 0 <= i < |nets| && 0 <= k < |nets| && nets[i].qos.on && MayDecide(nets, k) ==>
      SameGeometry(nets[i].qos, nets[k].qos)
  }

  // ---------------------------------------------------------------- the conditions are enough

  lemma {:induction false} OnMakesNodeOn(nets: seq<Network>, i: nat)
    requires i < |nets| && nets[i].qos.on
    ensures AnyQosOn(nets)
  {
    if i < |nets| - 1 {
      OnMakesNodeOn(nets[..|nets| - 1], i);
    }
  }

  lemma SameGeometrySameOutcome(a: Qos, b: Qos, m: Option<int>)
    requires SameGeometry(a, b)
    ensures OutcomeOf(Shaped(a), m) == OutcomeOf(Shaped(b), m)
  {
  }

  /** The node's geometry is that of the network it is taken from. */
  lemma NodeOutcome(lib: Lib, c: Qos, nets: seq<Network>, m: Option<int>)
    requires c.rules == [] && Geometry(nets) < |nets|
    ensures OutcomeOf(Shaped(QosMigrated(lib, c, nets)), m) == OutcomeOf(Shaped(nets[Geometry(nets)].qos), m)
  {
  }

  lemma FirstMatchKept(
    lib: Lib, q: QosCompile.Lib, svcs: seq<QosCompile.Service>, nets: seq<Network>, i: nat, p: QosCompile.Packet)
    requires q.strings == lib.strings && i < |nets| && nets[i].qos.on && SeparateOn(lib, nets)
    ensures QosCompile.FirstMatch(q, svcs, QosCompile.Scoped(q, HoistedQos(lib, nets), nets[i].name, nets[i].id), p) ==
            QosCompile.FirstMatch(q, svcs, nets[i].qos.rules, p)
  {
    forall k | 0 <= k < |nets| && nets[k].qos.on
      ensures FirewallHoist.Reaches(lib.strings, ScopeName(lib, nets[k]), NameOf(nets[i])) <==> k == i
    {
      assert Reached(lib, nets, k, i) <==> k == i;
    }
    HoistedMatches(lib, q, svcs, nets, i, NameOf(nets[i]), p);
  }

  lemma ConditionsSuffice(
    lib: Lib, q: QosCompile.Lib, svcs: seq<QosCompile.Service>, c: Qos, nets: seq<Network>)
    requires q.strings == lib.strings && c.rules == [] && SeparateOn(lib, nets) && OneGeometry(nets)
    ensures KeepsClasses(lib, q, svcs, c, nets)
  {
    forall i: nat, p: QosCompile.Packet | i < |nets| && nets[i].qos.on
      ensures OutcomeAfter(lib, q, svcs, c, nets, nets[i], p) == OutcomeBefore(q, svcs, nets[i], p)
    {
      var g := Geometry(nets);
      var m := QosCompile.FirstMatch(q, svcs, nets[i].qos.rules, p);
      OnMakesNodeOn(nets, i);
      FirstMatchKept(lib, q, svcs, nets, i, p);
      NodeOutcome(lib, c, nets, m);
      assert MayDecide(nets, g);
      SameGeometrySameOutcome(nets[i].qos, nets[g].qos, m);
    }
  }

  // ---------------------------------------------------------------- and necessary

  /** The same networks with these rulebases. */
  function WithRules(nets: seq<Network>, rs: seq<seq<QosCompile.Rule>>): (out: seq<Network>)
    requires |rs| == |nets|
    ensures |out| == |nets| && forall i :: 0 <= i < |nets| ==> out[i] == nets[i].(qos := nets[i].qos.(rules := rs[i]))
  {
    seq(|nets|, i requires 0 <= i < |nets| => nets[i].(qos := nets[i].qos.(rules := rs[i])))
  }

  /** A rule that matches every packet. */
  function CatchAll(level: int): QosCompile.Rule {
    QosCompile.Rule("", 0, 0, [], None, level, false, "")
  }

  function Sole(m: Option<int>): seq<QosCompile.Rule> {
    match m
    case None => []
    case Some(l) => [CatchAll(l)]
  }

  /** Rulebases for n networks: that of network i gives the level m, network k has a rule too. */
  function RulesAt(n: nat, i: nat, m: Option<int>, k: nat): (rs: seq<seq<QosCompile.Rule>>)
    ensures |rs| == n
    ensures forall j :: 0 <= j < n ==> rs[j] == if j == i then Sole(m) else if j == k then [CatchAll(0)] else []
  {
    seq(n, j requires 0 <= j < n => if j == i then Sole(m) else if j == k then [CatchAll(0)] else [])
  }

  lemma SoleMatches(q: QosCompile.Lib, svcs: seq<QosCompile.Service>, m: Option<int>, p: QosCompile.Packet)
    ensures QosCompile.FirstMatch(q, svcs, Sole(m), p) == m
  {
    if m.Some? {
      assert Sole(m)[..0] == [];
      assert QosCompile.Matches(q, svcs, CatchAll(m.value), p);
    }
  }

  /** With a rule on one network only, every other network whose scope it reaches matches it. */
  lemma SoleReaches(
    lib: Lib, q: QosCompile.Lib, svcs: seq<QosCompile.Service>, nets: seq<Network>, j: nat, k: nat, m: Option<int>,
    i: nat, p: QosCompile.Packet)
    requires q.strings == lib.strings && i < |nets| && j < |nets| && nets[j].qos.on
    requires k == j || (k < |nets| && !nets[k].qos.on)
    ensures var given := WithRules(nets, RulesAt(|nets|, j, m, k));
            QosCompile.FirstMatch(
              q, svcs, QosCompile.Scoped(q, HoistedQos(lib, given), nets[i].name, nets[i].id), p) ==
            if Reached(lib, nets, j, i) then m else None
  {
    var given := WithRules(nets, RulesAt(|nets|, j, m, k));
    SoleMatches(q, svcs, m, p);
    HoistedMatches(lib, q, svcs, given, j, NameOf(nets[i]), p);
  }

  lemma AfterSole(
    lib: Lib, q: QosCompile.Lib, svcs: seq<QosCompile.Service>, c: Qos, nets: seq<Network>, j: nat, k: nat,
    m: Option<int>, i: nat, p: QosCompile.Packet)
    requires q.strings == lib.strings && c.rules == [] && i < |nets| && j < |nets| && nets[j].qos.on
    requires k == j || (k < |nets| && !nets[k].qos.on)
    ensures var given := WithRules(nets, RulesAt(|nets|, j, m, k));
            OutcomeAfter(lib, q, svcs, c, given, given[i], p) ==
            OutcomeOf(Shaped(QosMigrated(lib, c, given)), if Reached(lib, nets, j, i) then m else None)
  {
    var given := WithRules(nets, RulesAt(|nets|, j, m, k));
    OnMakesNodeOn(given, j);
    SoleReaches(lib, q, svcs, nets, j, k, m, i, p);
  }

  lemma BeforeSole(
    q: QosCompile.Lib, svcs: seq<QosCompile.Service>, nets: seq<Network>, j: nat, k: nat, m: Option<int>, i: nat,
    p: QosCompile.Packet)
    requires i < |nets| && nets[i].qos.on && (k == j || k != i)
    ensures var given := WithRules(nets, RulesAt(|nets|, j, m, k));
            OutcomeBefore(q, svcs, given[i], p) == OutcomeOf(Shaped(nets[i].qos), if i == j then m else None)
  {
    SoleMatches(q, svcs, if i == j then m else None, p);
  }

  /** Class 0 is never the default. */
  lemma ZeroIsNotDefault(q: Qos)
    ensures OutcomeOf(Shaped(q), Some(0)).level == 0 && OutcomeOf(Shaped(q), None).level > 0
  {
  }

  lemma SeparateIsNeeded(
    lib: Lib, q: QosCompile.Lib, svcs: seq<QosCompile.Service>, c: Qos, nets: seq<Network>, i: nat, j: nat)
    requires q.strings == lib.strings && c.rules == []
    requires i < |nets| && j < |nets| && nets[i].qos.on && nets[j].qos.on
    requires KeepsClasses(lib, q, svcs, c, WithRules(nets, RulesAt(|nets|, j, Some(0), j)))
    ensures Reached(lib, nets, j, i) <==> i == j
  {
    var given := WithRules(nets, RulesAt(|nets|, j, Some(0), j));
    var p := QosCompile.Packet(0, 0, 0, 0);
    AfterSole(lib, q, svcs, c, nets, j, j, Some(0), i, p);
    BeforeSole(q, svcs, nets, j, j, Some(0), i, p);
    ZeroIsNotDefault(nets[i].qos);
    ZeroIsNotDefault(QosMigrated(lib, c, given));
    assert given[i].qos.on;
  }

  /** Two geometries that give every match the same outcome are one. */
  lemma SameOutcomesSameGeometry(a: Qos, b: Qos)
    requires forall m: Option<int> :: OutcomeOf(Shaped(a), m) == OutcomeOf(Shaped(b), m)
    ensures SameGeometry(a, b)
  {
    var x, y := Shaped(a), Shaped(b);
    assert OutcomeOf(x, None) == OutcomeOf(y, None);
    assert OutcomeOf(x, Some(x.classes)) == OutcomeOf(y, Some(x.classes));
    assert OutcomeOf(x, Some(y.classes)) == OutcomeOf(y, Some(y.classes));
    forall l | 0 <= l < x.classes
      ensures QosCompile.MarkFor(x.classDSCP, x.classes, x.defaultClass, l) ==
              QosCompile.MarkFor(y.classDSCP, y.classes, y.defaultClass, l)
    {
      assert OutcomeOf(x, Some(l)) == OutcomeOf(y, Some(l));
    }
  }

  /** Network k decides the geometry where it is the first that is on, or precedes all that are. */
  lemma DecidesGeometry(nets: seq<Network>, i: nat, k: nat, m: Option<int>)
    requires i < |nets| && k < |nets| && nets[i].qos.on && forall j :: 0 <= j < k ==> !nets[j].qos.on
    ensures Geometry(WithRules(nets, RulesAt(|nets|, i, m, if nets[k].qos.on then i else k))) == k
  {
    var given := WithRules(nets, RulesAt(|nets|, i, m, if nets[k].qos.on then i else k));
    assert k <= i;
    assert given[k].qos.on || given[k].qos.rules != [];
    assert forall j :: 0 <= j < k ==> !given[j].qos.on && given[j].qos.rules == [];
  }

  lemma OutcomesAgree(
    lib: Lib, q: QosCompile.Lib, svcs: seq<QosCompile.Service>, c: Qos, nets: seq<Network>, i: nat, k: nat,
    m: Option<int>)
    requires q.strings == lib.strings && c.rules == [] && i < |nets| && k < |nets| && nets[i].qos.on
    requires Reached(lib, nets, i, i) && forall j :: 0 <= j < k ==> !nets[j].qos.on
    requires var with := if nets[k].qos.on then i else k;
             KeepsClasses(lib, q, svcs, c, WithRules(nets, RulesAt(|nets|, i, m, with)))
    ensures OutcomeOf(Shaped(nets[i].qos), m) == OutcomeOf(Shaped(nets[k].qos), m)
  {
    var with := if nets[k].qos.on then i else k;
    var given := WithRules(nets, RulesAt(|nets|, i, m, with));
    var p := QosCompile.Packet(0, 0, 0, 0);
    AfterSole(lib, q, svcs, c, nets, i, with, m, i, p);
    BeforeSole(q, svcs, nets, i, with, m, i, p);
    DecidesGeometry(nets, i, k, m);
    NodeOutcome(lib, c, given, m);
    assert given[i].qos.on;
    assert OutcomeOf(Shaped(given[k].qos), m) == OutcomeOf(Shaped(nets[k].qos), m);
  }

  lemma GeometryIsNeeded(
    lib: Lib, q: QosCompile.Lib, svcs: seq<QosCompile.Service>, c: Qos, nets: seq<Network>, i: nat, k: nat)
    requires q.strings == lib.strings && c.rules == []
    requires i < |nets| && k < |nets| && nets[i].qos.on && forall j :: 0 <= j < k ==> !nets[j].qos.on
    requires Reached(lib, nets, i, i)
    requires forall rs :: |rs| == |nets| ==> KeepsClasses(lib, q, svcs, c, WithRules(nets, rs))
    ensures SameGeometry(nets[i].qos, nets[k].qos)
  {
    forall m: Option<int>
      ensures OutcomeOf(Shaped(nets[i].qos), m) == OutcomeOf(Shaped(nets[k].qos), m)
    {
      var rs := RulesAt(|nets|, i, m, if nets[k].qos.on then i else k);
      assert KeepsClasses(lib, q, svcs, c, WithRules(nets, rs));
      OutcomesAgree(lib, q, svcs, c, nets, i, k, m);
    }
    SameOutcomesSameGeometry(nets[i].qos, nets[k].qos);
  }

  lemma {:induction false} FirstOn(nets: seq<Network>, i: nat) returns (k: nat)
    requires i < |nets| && nets[i].qos.on
    ensures k <= i && nets[k].qos.on && forall j :: 0 <= j < k ==> !nets[j].qos.on
    decreases i
  {
    if j :| 0 <= j < i && nets[j].qos.on {
      k := FirstOn(nets, j);
    } else {
      k := i;
    }
  }

  lemma ConditionsAreNeeded(
    lib: Lib, q: QosCompile.Lib, svcs: seq<QosCompile.Service>, c: Qos, nets: seq<Network>)
    requires q.strings == lib.strings && c.rules == []
    requires forall rs :: |rs| == |nets| ==> KeepsClasses(lib, q, svcs, c, WithRules(nets, rs))
    ensures SeparateOn(lib, nets) && OneGeometry(nets)
  {
    forall i, j | 0 <= i < |nets| && 0 <= j < |nets| && nets[i].qos.on && nets[j].qos.on
      ensures Reached(lib, nets, j, i) <==> i == j
    {
      SeparateIsNeeded(lib, q, svcs, c, nets, i, j);
    }
    forall i, k | 0 <= i < |nets| && 0 <= k < |nets| && nets[i].qos.on && MayDecide(nets, k)
      ensures SameGeometry(nets[i].qos, nets[k].qos)
    {
      var first := FirstOn(nets, i);
      GeometryIsNeeded(lib, q, svcs, c, nets, i, first);
      if nets[k].qos.on {
        GeometryIsNeeded(lib, q, svcs, c, nets, k, first);
      } else {
        GeometryIsNeeded(lib, q, svcs, c, nets, i, k);
      }
    }
  }

  /** The hoist keeps every packet's class and mark on every network with QoS on, whatever the
      rulebases, if and only if scopes reach their own network only and every network the geometry
      may be taken from has the geometry of those that are on. */
  lemma QosHoistKeepsClassesExactly(
    lib: Lib, q: QosCompile.Lib, svcs: seq<QosCompile.Service>, c: Qos, nets: seq<Network>)
    requires q.strings == lib.strings && c.rules == []
    ensures (forall rs :: |rs| == |nets| ==> KeepsClasses(lib, q, svcs, c, WithRules(nets, rs)))
            <==> SeparateOn(lib, nets) && OneGeometry(nets)
  {
    if SeparateOn(lib, nets) && OneGeometry(nets) {
      forall rs | |rs| == |nets|
        ensures KeepsClasses(lib, q, svcs, c, WithRules(nets, rs))
      {
        RulesDoNotMatter(lib, nets, rs);
        ConditionsSuffice(lib, q, svcs, c, WithRules(nets, rs));
      }
    }
    if forall rs :: |rs| == |nets| ==> KeepsClasses(lib, q, svcs, c, WithRules(nets, rs)) {
      ConditionsAreNeeded(lib, q, svcs, c, nets);
    }
  }

  /** Neither condition looks at rules. */
  lemma RulesDoNotMatter(lib: Lib, nets: seq<Network>, rs: seq<seq<QosCompile.Rule>>)
    requires |rs| == |nets| && SeparateOn(lib, nets) && OneGeometry(nets)
    ensures SeparateOn(lib, WithRules(nets, rs)) && OneGeometry(WithRules(nets, rs))
  {
    var given := WithRules(nets, rs);
    forall i, j | 0 <= i < |nets| && 0 <= j < |nets|
      ensures Reached(lib, given, j, i) == Reached(lib, nets, j, i)
    {
    }
    forall i, k | 0 <= i < |nets| && 0 <= k < |nets| && given[i].qos.on && MayDecide(given, k)
      ensures SameGeometry(given[i].qos, given[k].qos)
    {
      assert MayDecide(nets, k);
      assert SameGeometry(nets[i].qos, nets[k].qos);
    }
  }

  // ---------------------------------------------------------------- what changes otherwise

  /** Five classes on the first network, eight on the second: a rule for class 6 on the second
      gives the default class 3 once the first network's geometry holds for both. */
  lemma GeometryChangesClass(
    lib: Lib, q: QosCompile.Lib, svcs: seq<QosCompile.Service>, c: Qos, a: Network, b: Network, p: QosCompile.Packet)
    requires q.strings == lib.strings && c.rules == []
    requires a.qos == Qos(true, 5, 3, [], []) && b.qos == Qos(true, 8, 3, [CatchAll(6)], [])
    requires FirewallHoist.Reaches(lib.strings, ScopeName(lib, b), NameOf(b))
    ensures OutcomeBefore(q, svcs, b, p).level == 6
    ensures OutcomeAfter(lib, q, svcs, c, [a, b], b, p).level == 3
  {
    var nets := [a, b];
    OnMakesNodeOn(nets, 0);
    SoleMatches(q, svcs, Some(6), p);
    HoistedMatches(lib, q, svcs, nets, 1, NameOf(b), p);
    assert Geometry(nets) == 0;
  }

  /** A network whose QoS was off, on a node where it comes on: packets that met no classifier get
      the default class and its mark, and its interface gets a cap that is on, with a rate. */
  lemma OffNetworkIsClassified(
    lib: Lib, q: QosCompile.Lib, svcs: seq<QosCompile.Service>, c: Qos, nets: seq<Network>, i: nat,
    list: seq<Shaping.Entry>, p: QosCompile.Packet)
    requires Sound(lib) && q.strings == lib.strings && c.rules == [] && i < |nets| && !nets[i].qos.on
    requires AnyQosOn(nets) && forall j :: 0 <= j < |nets| && nets[j].qos.on ==> !Reached(lib, nets, j, i)
    ensures OutcomeBefore(q, svcs, nets[i], p) == Unclassified
    ensures OutcomeAfter(lib, q, svcs, c, nets, nets[i], p) == OutcomeOf(Shaped(QosMigrated(lib, c, nets)), None)
    ensures var part := ShapingNets(nets);
            var t := Shaping.Stored(CapAll(lib, list, part, |part|), Shaping.IfaceAt(lib.strings, part, i));
            t.enabled && t.up > 0
  {
    forall k | 0 <= k < |nets| && k != i
      ensures !nets[k].qos.on || !FirewallHoist.Reaches(lib.strings, ScopeName(lib, nets[k]), NameOf(nets[i]))
    {
      assert nets[k].qos.on ==> !Reached(lib, nets, k, i);
    }
    HoistedMatches(lib, q, svcs, nets, i, NameOf(nets[i]), p);
    var part := ShapingNets(nets);
    var f := Shaping.IfaceAt(lib.strings, part, i);
    assert QosCaps.OnMesh(lib, part, |part|, f);
    QosCaps.CapsMeshOnly(lib, list, part, |part|, f);
  }
}
