/** QoS rules flattened into the classifier's list, one entry per protocol and port leg. */
module QosCompile {
  import opened Text

  datatype Port = Port(proto: string, min: int, max: int)

  datatype Service = Service(name: string, ports: seq<Port>)

  datatype Rule = Rule(
    protocol: string, portMin: int, portMax: int, services: seq<string>, dscp: Option<int>,
    level: int, disabled: bool, scope: string)

  /** One protocol and port range; ports (0, 0) are any port, protocol 0 any protocol. */
  datatype Leg = Leg(proto: nat, lo: nat, hi: nat)

  /** mesh.ClassRule: a leg with the rule's DSCP value (negative for any) and class. */
  datatype ClassRule = ClassRule(leg: Leg, dscp: int, level: int)

  datatype Packet = Packet(proto: nat, sport: nat, dport: nat, dscp: int)

  datatype Lib = Lib(strings: Strings, lower: string -> string)

  /** A uint16 conversion. */
  function Narrow(p: int): nat {
    p % 0x1_0000
  }

  /** protoNumber */
  function ProtoNumber(lib: Lib, name: string): nat {
    var s := lib.lower(lib.strings.trim(name));
    if s == "" || s == "any" then 0
    else if s == "tcp" then 6
    else if s == "udp" then 17
    else if s == "icmp" then 1
    else
      match Atoi(lib.strings.trim(name))
      case Some(n) => if 0 < n < 256 then n else 0
      case None => 0
  }

  // ---------------------------------------------------------------- what a rule means

  function Key(lib: Lib, name: string): string {
    lib.lower(lib.strings.trim(name))
  }

  /** A leg of a named service; a missing upper port means the lower one. */
  function ServiceLeg(lib: Lib, p: Port): Leg {
    var lo, hi := Narrow(p.min), Narrow(p.max);
    Leg(ProtoNumber(lib, p.proto), lo, if hi == 0 then lo else hi)
  }

  predicate LegHits(l: Leg, p: Packet) {
    && (l.proto == 0 || l.proto == p.proto)
    && ((l.lo == 0 && l.hi == 0) || l.lo <= p.sport <= l.hi || l.lo <= p.dport <= l.hi)
  }

  /** The service a key names is the last one of the catalog with that key. */
  predicate Names(lib: Lib, svcs: seq<Service>, key: string, i: nat) {
    && i < |svcs| && key != "" && Key(lib, svcs[i].name) == key
    && forall j :: i < j < |svcs| ==> Key(lib, svcs[j].name) != key
  }

  ghost predicate ServiceHits(lib: Lib, svcs: seq<Service>, name: string, p: Packet) {
    exists i: nat, j: nat :: Names(lib, svcs, Key(lib, name), i) && j < |svcs[i].ports| &&
      LegHits(ServiceLeg(lib, svcs[i].ports[j]), p)
  }

  predicate HasLiteral(lib: Lib, r: Rule) {
    (r.protocol != "" && lib.strings.fold(r.protocol) != lib.strings.fold("any")) || r.portMin != 0 || r.portMax != 0
  }

  function LiteralLeg(lib: Lib, r: Rule): Leg {
    Leg(ProtoNumber(lib, r.protocol), Narrow(r.portMin), Narrow(r.portMax))
  }

  predicate DscpFits(dscp: Option<int>, p: Packet) {
    dscp.Some? && dscp.value >= 0 ==> dscp.value == p.dscp
  }

  /** Some leg of the first n named services, or the literal leg, matches. */
  ghost predicate SomeLegHits(lib: Lib, svcs: seq<Service>, r: Rule, n: nat, p: Packet)
    requires n <= |r.services|
  {
    || (HasLiteral(lib, r) && LegHits(LiteralLeg(lib, r), p))
    || exists k :: 0 <= k < n && ServiceHits(lib, svcs, r.services[k], p)
  }

  /** A rule matches through any of its legs; with no leg and no service named it matches all. */
  ghost predicate Matches(lib: Lib, svcs: seq<Service>, r: Rule, p: Packet) {
    && DscpFits(r.dscp, p)
    && (SomeLegHits(lib, svcs, r, |r.services|, p) || (!HasLiteral(lib, r) && r.services == []))
  }

  predicate InScope(lib: Lib, r: Rule, netName: string, netID: string) {
    var scope := lib.strings.trim(r.scope);
    scope == "" || lib.strings.fold(scope) == lib.strings.fold(netName)
    || lib.strings.fold(scope) == lib.strings.fold(netID)
  }

  /** The class of the first enabled rule that matches. */
  ghost function FirstMatch(lib: Lib, svcs: seq<Service>, rules: seq<Rule>, p: Packet): Option<int> {
    if rules == [] then None
    else
      var r := rules[|rules| - 1];
      var earlier := FirstMatch(lib, svcs, rules[..|rules| - 1], p);
      if earlier.Some? then earlier
      else if !r.disabled && Matches(lib, svcs, r, p) then Some(r.level)
      else None
  }

  // ---------------------------------------------------------------- the flat list

  predicate Hits(c: ClassRule, p: Packet) {
    (c.dscp >= 0 ==> c.dscp == p.dscp) && LegHits(c.leg, p)
  }

  function FirstHit(flat: seq<ClassRule>, p: Packet): Option<int> {
    if flat == [] then None
    else
      var c := flat[|flat| - 1];
      var earlier := FirstHit(flat[..|flat| - 1], p);
      if earlier.Some? then earlier else if Hits(c, p) then Some(c.level) else None
  }

  lemma FirstHitAppend(flat: seq<ClassRule>, c: ClassRule, p: Packet)
    ensures FirstHit(flat + [c], p) ==
            if FirstHit(flat, p).Some? then FirstHit(flat, p) else if Hits(c, p) then Some(c.level) else None
  {
    assert (flat + [c])[..|flat|] == flat;
  }

  /** The catalog holds, for each key, the legs of the last service with that key. */
  ghost predicate IsCatalog(lib: Lib, svcs: seq<Service>, cat: map<string, seq<Leg>>) {
    && (forall key: string :: key in cat ==>
          exists i: nat :: Names(lib, svcs, key, i) && Legs(lib, svcs[i].ports, cat[key]))
    && (forall key: string, i: nat :: Names(lib, svcs, key, i) ==> key in cat && Legs(lib, svcs[i].ports, cat[key]))
  }

  predicate Legs(lib: Lib, ports: seq<Port>, legs: seq<Leg>) {
    |legs| == |ports| && forall j :: 0 <= j < |ports| ==> legs[j] == ServiceLeg(lib, ports[j])
  }

  lemma CatalogStep(lib: Lib, svcs: seq<Service>, s: Service, cat: map<string, seq<Leg>>, legs: seq<Leg>)
    requires IsCatalog(lib, svcs, cat) && Legs(lib, s.ports, legs)
    ensures IsCatalog(lib, svcs + [s], if Key(lib, s.name) == "" then cat else cat[Key(lib, s.name) := legs])
  {
    var all, mine := svcs + [s], Key(lib, s.name);
    forall key: string, i: nat
      ensures Names(lib, all, key, i) <==>
              if i == |svcs| then key == mine != "" else Names(lib, svcs, key, i) && key != mine
    {
      assert all[|svcs|] == s;
      assert forall j :: 0 <= j < |svcs| ==> all[j] == svcs[j];
    }
    var after := if mine == "" then cat else cat[mine := legs];
    forall key: string | key in after
      ensures exists i: nat :: Names(lib, all, key, i) && Legs(lib, all[i].ports, after[key])
    {
      if key == mine && mine != "" {
        assert Names(lib, all, key, |svcs|);
      } else {
        var i: nat :| Names(lib, svcs, key, i) && Legs(lib, svcs[i].ports, cat[key]);
        assert Names(lib, all, key, i);
      }
    }
  }

  /** qosServiceCatalog */
  method ServiceCatalog(lib: Lib, svcs: seq<Service>) returns (cat: map<string, seq<Leg>>)
    ensures IsCatalog(lib, svcs, cat)
  {
    cat := map[];
    for i := 0 to |svcs|
      invariant IsCatalog(lib, svcs[..i], cat)
    {
      var s := svcs[i];
      var key := Key(lib, s.name);
      var legs: seq<Leg> := [];
      for j := 0 to |s.ports|
        invariant Legs(lib, s.ports[..j], legs)
      {
        var lo, hi := Narrow(s.ports[j].min), Narrow(s.ports[j].max);
        if hi == 0 {
          hi := lo;
        }
        legs := legs + [Leg(ProtoNumber(lib, s.ports[j].proto), lo, hi)];
      }
      CatalogStep(lib, svcs[..i], s, cat, legs);
      assert svcs[..i + 1] == svcs[..i] + [s];
      if key != "" {
        cat := cat[key := legs];
      }
    }
    assert svcs[..|svcs|] == svcs;
  }

  /** An earlier match stands; otherwise this one decides when it matches. */
  function OrElse(earlier: Option<int>, hit: bool, level: int): Option<int> {
    if earlier.Some? then earlier else if hit then Some(level) else None
  }

  /** The flat list `out` is `flat` with entries of rule r for exactly the legs so far: the
      literal one, the first n services, and the first m legs of one more. */
  ghost predicate LegsAdded(
    lib: Lib, svcs: seq<Service>, r: Rule, n: nat, more: seq<Leg>, flat: seq<ClassRule>, out: seq<ClassRule>)
    requires n <= |r.services|
  {
    forall p: Packet :: FirstHit(out, p) ==
      OrElse(FirstHit(flat, p), DscpFits(r.dscp, p) && (SomeLegHits(lib, svcs, r, n, p) || AnyHits(more, p)), r.level)
  }

  ghost predicate AnyHits(legs: seq<Leg>, p: Packet) {
    exists j :: 0 <= j < |legs| && LegHits(legs[j], p)
  }

  function Dscp(r: Rule): int {
    if r.dscp.Some? then r.dscp.value else -1
  }

  lemma LegAdded(
    lib: Lib, svcs: seq<Service>, r: Rule, n: nat, more: seq<Leg>, l: Leg, flat: seq<ClassRule>, out: seq<ClassRule>)
    requires n <= |r.services| && LegsAdded(lib, svcs, r, n, more, flat, out)
    ensures LegsAdded(lib, svcs, r, n, more + [l], flat, out + [ClassRule(l, Dscp(r), r.level)])
  {
    forall p: Packet
      ensures FirstHit(out + [ClassRule(l, Dscp(r), r.level)], p) ==
              OrElse(FirstHit(flat, p),
                     DscpFits(r.dscp, p) && (SomeLegHits(lib, svcs, r, n, p) || AnyHits(more + [l], p)), r.level)
    {
      FirstHitAppend(out, ClassRule(l, Dscp(r), r.level), p);
      assert AnyHits(more + [l], p) <==> AnyHits(more, p) || LegHits(l, p) by {
        var all := more + [l];
        assert all[|more|] == l && forall j :: 0 <= j < |more| ==> all[j] == more[j];
      }
    }
  }

  /** The legs of service n, all added, count as that service. */
  lemma ServiceAdded(
    lib: Lib, svcs: seq<Service>, cat: map<string, seq<Leg>>, r: Rule, n: nat, legs: seq<Leg>,
    flat: seq<ClassRule>, out: seq<ClassRule>)
    requires n < |r.services| && IsCatalog(lib, svcs, cat)
    requires var key := Key(lib, r.services[n]); legs == if key in cat then cat[key] else []
    requires LegsAdded(lib, svcs, r, n, legs, flat, out)
    ensures LegsAdded(lib, svcs, r, n + 1, [], flat, out)
  {
    forall p: Packet
      ensures SomeLegHits(lib, svcs, r, n + 1, p) <==> SomeLegHits(lib, svcs, r, n, p) || AnyHits(legs, p)
      ensures !AnyHits([], p)
    {
      ServiceIsItsLegs(lib, svcs, cat, r.services[n], legs, p);
    }
  }

  lemma ServiceIsItsLegs(
    lib: Lib, svcs: seq<Service>, cat: map<string, seq<Leg>>, name: string, legs: seq<Leg>, p: Packet)
    requires IsCatalog(lib, svcs, cat)
    requires var key := Key(lib, name); legs == if key in cat then cat[key] else []
    ensures ServiceHits(lib, svcs, name, p) <==> AnyHits(legs, p)
  {
    var key := Key(lib, name);
    if key in cat {
      var i: nat :| Names(lib, svcs, key, i) && Legs(lib, svcs[i].ports, cat[key]);
      if j :| 0 <= j < |legs| && LegHits(legs[j], p) {
        assert LegHits(ServiceLeg(lib, svcs[i].ports[j]), p);
      }
    }
  }

  /** The part of the loop of qosClassRules that handles one rule. */
  method AddRule(lib: Lib, ghost svcs: seq<Service>, cat: map<string, seq<Leg>>, r: Rule, flat: seq<ClassRule>)
    returns (out: seq<ClassRule>)
    requires IsCatalog(lib, svcs, cat)
    ensures forall p: Packet :: FirstHit(out, p) ==
              OrElse(FirstHit(flat, p), !r.disabled && Matches(lib, svcs, r, p), r.level)
  {
    out := flat;
    if r.disabled {
      return;
    }
    var added := 0;
    if HasLiteral(lib, r) {
      forall p: Packet {
        FirstHitAppend(out, ClassRule(LiteralLeg(lib, r), Dscp(r), r.level), p);
      }
      out := out + [ClassRule(LiteralLeg(lib, r), Dscp(r), r.level)];
      added := added + 1;
    }
    for k := 0 to |r.services|
      invariant LegsAdded(lib, svcs, r, k, [], flat, out)
      invariant k == 0 ==> (added == 0 <==> !HasLiteral(lib, r))
    {
      var key := Key(lib, r.services[k]);
      var legs: seq<Leg> := [];
      if key != "" && key in cat {
        legs := cat[key];
        for j := 0 to |legs|
          invariant LegsAdded(lib, svcs, r, k, legs[..j], flat, out)
        {
          LegAdded(lib, svcs, r, k, legs[..j], legs[j], flat, out);
          assert legs[..j + 1] == legs[..j] + [legs[j]];
          out := out + [ClassRule(legs[j], Dscp(r), r.level)];
          added := added + 1;
        }
        assert legs[..|legs|] == legs;
      }
      ServiceAdded(lib, svcs, cat, r, k, legs, flat, out);
    }
    if added == 0 && |r.services| == 0 {
      forall p: Packet {
        FirstHitAppend(out, ClassRule(Leg(0, 0, 0), Dscp(r), r.level), p);
      }
      out := out + [ClassRule(Leg(0, 0, 0), Dscp(r), r.level)];
    }
  }

  /** qosClassRules: the flat list decides every packet as the source rules do. */
  method ClassRules(lib: Lib, rules: seq<Rule>, svcs: seq<Service>) returns (flat: seq<ClassRule>)
    ensures forall p: Packet :: FirstHit(flat, p) == FirstMatch(lib, svcs, rules, p)
  {
    var cat := ServiceCatalog(lib, svcs);
    flat := [];
    for i := 0 to |rules|
      invariant forall p: Packet :: FirstHit(flat, p) == FirstMatch(lib, svcs, rules[..i], p)
    {
      assert rules[..i + 1][..i] == rules[..i];
      flat := AddRule(lib, svcs, cat, rules[i], flat);
    }
    assert rules[..|rules|] == rules;
  }

  // ---------------------------------------------------------------- the classifier of one network

  datatype Qos = Qos(classes: int, defaultClass: int, rules: seq<Rule>)

  datatype Classifier = Classifier(rules: seq<ClassRule>, classes: int, defaultClass: int)

  function Scoped(lib: Lib, rules: seq<Rule>, netName: string, netID: string): seq<Rule> {
    if rules == [] then []
    else
      var r := rules[|rules| - 1];
      Scoped(lib, rules[..|rules| - 1], netName, netID) + if InScope(lib, r, netName, netID) then [r] else []
  }

  function OrDefault(level: int, classes: int, default: int): int {
    if level < 0 || level >= classes then default else level
  }

  /** The class of a packet whose first match has this level, in a geometry of this many classes. */
  function ClassFor(classes: int, defaultClass: int, m: Option<int>): int {
    var n := if classes < 1 then 5 else classes;
    var default := OrDefault(defaultClass, n, n - 1);
    match m
    case Some(l) => OrDefault(l, n, default)
    case None => default
  }

  /** DefaultClassDSCP: the standard codepoint of a class by its place among the others. */
  function DefaultMark(level: int, classes: int, defaultClass: int): int {
    if classes <= 1 then 0
    else
      var l := if level < 0 then 0 else if level > classes - 1 then classes - 1 else level;
      var middle := if classes / 2 == 0 then 1 else classes / 2;
      var d := if defaultClass <= 0 || defaultClass >= classes - 1 then middle else defaultClass;
      if l == 0 then 46
      else if l == d then 0
      else if l == classes - 1 then 8
      else if l < d then
        var k := (l - 1) * 4 / d;
        if k == 0 then 34 else if k == 1 then 26 else if k == 2 then 18 else 10
      else if classes - 1 > d then (l - d) * 8 / (classes - 1 - d)
      else 0
  }

  /** dscpFor: the mark a class gets, an override first. */
  function MarkFor(overrides: seq<int>, classes: int, defaultClass: int, level: int): int {
    if 0 <= level < |overrides| && overrides[level] >= 0 then overrides[level]
    else DefaultMark(level, classes, defaultClass)
  }

  /** NewClassifier */
  method NewClassifier(classes: int, defaultClass: int, flat: seq<ClassRule>) returns (c: Classifier)
    ensures c.classes == (if classes < 1 then 1 else classes)
    ensures c.defaultClass == OrDefault(defaultClass, c.classes, c.classes - 1)
    ensures forall p: Packet :: FirstHit(c.rules, p) ==
              match FirstHit(flat, p)
              case Some(l) => Some(OrDefault(l, c.classes, c.defaultClass))
              case None => None
  {
    var n := if classes < 1 then 1 else classes;
    var default := if defaultClass < 0 || defaultClass >= n then n - 1 else defaultClass;
    var rs: seq<ClassRule> := [];
    for i := 0 to |flat|
      invariant forall p: Packet :: FirstHit(rs, p) ==
                  match FirstHit(flat[..i], p)
                  case Some(l) => Some(OrDefault(l, n, default))
                  case None => None
    {
      assert flat[..i + 1][..i] == flat[..i];
      var level := flat[i].level;
      if level < 0 || level >= n {
        level := default;
      }
      forall p: Packet {
        FirstHitAppend(rs, flat[i].(level := level), p);
      }
      rs := rs + [flat[i].(level := level)];
    }
    assert flat[..|flat|] == flat;
    c := Classifier(rs, n, default);
  }

  /** classify, for a packet whose headers could be read. */
  method Classify(c: Classifier, p: Packet) returns (level: int)
    ensures level == if FirstHit(c.rules, p).Some? then FirstHit(c.rules, p).value else c.defaultClass
  {
    for i := 0 to |c.rules|
      invariant FirstHit(c.rules[..i], p).None?
    {
      assert c.rules[..i + 1][..i] == c.rules[..i];
      if Hits(c.rules[i], p) {
        HitStands(c.rules, i + 1, p);
        return c.rules[i].level;
      }
    }
    assert c.rules[..|c.rules|] == c.rules;
    level := c.defaultClass;
  }

  lemma {:induction false} HitStands(flat: seq<ClassRule>, n: nat, p: Packet)
    requires n <= |flat| && FirstHit(flat[..n], p).Some?
    ensures FirstHit(flat, p) == FirstHit(flat[..n], p)
  {
    if n < |flat| {
      var init := flat[..|flat| - 1];
      assert init[..n] == flat[..n];
      HitStands(init, n, p);
    } else {
      assert flat[..n] == flat;
    }
  }

  /** The class a packet gets on a network's tunnel: that of the first enabled rule in scope that
      matches it, always one of the node's classes. */
  method ClassOnNetwork(lib: Lib, q: Qos, svcs: seq<Service>, netName: string, netID: string, p: Packet)
    returns (level: int)
    ensures 0 <= level < if q.classes < 1 then 5 else q.classes
    ensures level == ClassFor(q.classes, q.defaultClass, FirstMatch(lib, svcs, Scoped(lib, q.rules, netName, netID), p))
  {
    var mine: seq<Rule> := [];
    for i := 0 to |q.rules|
      invariant mine == Scoped(lib, q.rules[..i], netName, netID)
    {
      assert q.rules[..i + 1][..i] == q.rules[..i];
      if InScope(lib, q.rules[i], netName, netID) {
        mine := mine + [q.rules[i]];
      }
    }
    assert q.rules[..|q.rules|] == q.rules;
    var flat := ClassRules(lib, mine, svcs);
    var c := NewClassifier(if q.classes < 1 then 5 else q.classes, q.defaultClass, flat);
    level := Classify(c, p);
  }

  // ---------------------------------------------------------------- edges of the meaning

  /** Naming only services the catalog does not have (or only blanks) matches nothing, while
      naming none at all matches everything of that DSCP. */
  lemma UnknownIsNotEmpty(lib: Lib, svcs: seq<Service>, r: Rule, p: Packet)
    requires !HasLiteral(lib, r)
    requires forall k, i: nat :: 0 <= k < |r.services| ==> !Names(lib, svcs, Key(lib, r.services[k]), i)
    ensures Matches(lib, svcs, r, p) <==> r.services == [] && DscpFits(r.dscp, p)
  {
  }

  predicate InLeg(lo: nat, hi: nat, port: nat) {
    (lo == 0 && hi == 0) || lo <= port <= hi
  }

  /** A port range written past 65535 keeps its meaning on every port exactly when the cut upper
      end is still 65535, or the whole range is cut to "any port" and that was what it said. */
  lemma WideRangeExactly(min: nat, max: nat)
    requires min <= 65535 && min <= max && 0 < max
    ensures (forall port: nat :: port <= 65535 ==> (InLeg(Narrow(min), Narrow(max), port) <==> min <= port <= max))
            <==> max <= 65535 || Narrow(max) == 65535 || (min == 0 && Narrow(max) == 0)
  {
    assert Narrow(min) == min;
    if max > 65535 {
      assert InLeg(min, Narrow(max), 65535) <==> Narrow(max) == 65535 || (min == 0 && Narrow(max) == 0);
    }
  }

  // ---------------------------------------------------------------- fields and packets

  /** A protocol field stands for this number, zero for any: a known name in any case, a number from
      1 to 255, and every other text means any. */
  ghost predicate Denotes(lib: Lib, name: string, number: int) {
    var s := lib.lower(lib.strings.trim(name));
    if s == "tcp" then number == 6
    else if s == "udp" then number == 17
    else if s == "icmp" then number == 1
    else if s == "" || s == "any" then number == 0
    else
      match Atoi(lib.strings.trim(name))
      case Some(n) => if 1 <= n <= 255 then number == n else number == 0
      case None => number == 0
  }

  /** A packet has the protocol, if one is meant, and its source or its destination port is in the
      range, if one is given. */
  predicate InLine(number: int, min: int, max: int, p: Packet) {
    && (number == 0 || p.proto == number)
    && (min == 0 == max || min <= p.sport <= max || min <= p.dport <= max)
  }

  /** A rule without services matches by its own protocol and ports, and by its codepoint. */
  lemma PlainRuleExactly(lib: Lib, svcs: seq<Service>, r: Rule, number: int, p: Packet)
    requires r.services == [] && 0 <= r.portMin <= 65535 && 0 <= r.portMax <= 65535
    requires Denotes(lib, r.protocol, number)
    requires lib.strings.fold(r.protocol) == lib.strings.fold("any") || r.protocol == "" ==> number == 0
    ensures Matches(lib, svcs, r, p) <==>
            && InLine(number, r.portMin, r.portMax, p)
            && (r.dscp.None? || r.dscp.value < 0 || r.dscp.value == p.dscp)
  {
    assert ProtoNumber(lib, r.protocol) == number;
  }

  /** A rule that only names a service matches by the entries of the last service so named, an entry
      without an upper port meaning the lower one alone. */
  lemma ServiceRuleExactly(lib: Lib, svcs: seq<Service>, r: Rule, i: nat, p: Packet)
    requires !HasLiteral(lib, r) && |r.services| == 1 && r.dscp.None?
    requires Names(lib, svcs, Key(lib, r.services[0]), i)
    requires forall j :: 0 <= j < |svcs[i].ports| ==>
               0 <= svcs[i].ports[j].min <= 65535 && 0 <= svcs[i].ports[j].max <= 65535
    ensures Matches(lib, svcs, r, p) <==>
            exists j, number :: 0 <= j < |svcs[i].ports| && Denotes(lib, svcs[i].ports[j].proto, number) &&
              InLine(number, svcs[i].ports[j].min,
                     if svcs[i].ports[j].max == 0 then svcs[i].ports[j].min else svcs[i].ports[j].max, p)
  {
    var ports := svcs[i].ports;
    forall j | 0 <= j < |ports|
      ensures Denotes(lib, ports[j].proto, ProtoNumber(lib, ports[j].proto))
      ensures LegHits(ServiceLeg(lib, ports[j]), p) <==>
              InLine(ProtoNumber(lib, ports[j].proto), ports[j].min,
                     if ports[j].max == 0 then ports[j].min else ports[j].max, p)
    {
    }
    assert Matches(lib, svcs, r, p) <==> ServiceHits(lib, svcs, r.services[0], p);
  }

  /** The marks of a classifier whose default class lies between the first and the last: 46 for the
      first, 0 for the default, 8 for the last, one of four falling steps before the default, and a
      ramp from 0 to 8 behind it; an override replaces the mark of its class. */
  lemma MarksExactly(overrides: seq<int>, classes: int, d: int, l: int)
    requires 0 < d < classes - 1 && 0 <= l < classes
    ensures l < |overrides| && overrides[l] >= 0 ==> MarkFor(overrides, classes, d, l) == overrides[l]
    ensures l >= |overrides| || overrides[l] < 0 ==>
              var mark := MarkFor(overrides, classes, d, l);
              && (l == 0 ==> mark == 46) && (l == d ==> mark == 0) && (l == classes - 1 ==> mark == 8)
              && (0 < l < d ==> mark == [34, 26, 18, 10][(l - 1) * 4 / d])
              && (d < l < classes - 1 ==> mark == (l - d) * 8 / (classes - 1 - d))
  {
    if 0 < l < d {
      StepInRange(l, d);
    }
  }

  lemma StepInRange(l: int, d: int)
    requires 0 < l < d
    ensures 0 <= (l - 1) * 4 / d < 4
  {
  }

  /** Five classes with class 3 as the default. */
  lemma FiveClasses()
    ensures forall l :: 0 <= l < 5 ==> MarkFor([], 5, 3, l) == [46, 34, 26, 0, 8][l]
  {
  }

  /** A match in range is the class; otherwise the default is, or the last class when the default is
      out of range; of five classes when the section says none. */
  lemma ClassForExactly(classes: int, defaultClass: int, m: Option<int>)
    ensures var n := if classes > 0 then classes else 5;
            var level := ClassFor(classes, defaultClass, m);
            if m.Some? && 0 <= m.value < n then level == m.value
            else if 0 <= defaultClass < n then level == defaultClass
            else level == n - 1
  {
  }

  /** A port past 65535 loses its upper bits. */
  lemma PortsWrap(k: nat, m: nat)
    requires k <= 65535
    ensures Narrow(m * 0x1_0000 + k) == k
  {
  }
}
