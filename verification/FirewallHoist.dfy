/** Hoisting per-network rulebases into the node-global one must not change any verdict. */
module FirewallHoist {
  import opened Text
  import opened Firewall

  /** A network with the rulebase it carried before rulebases became node-global. */
  datatype Network = Network(names: NetName, on: bool, rules: seq<Rule>, nextID: nat)

  /** The node: its switch, its rulebase and its networks. */
  datatype Node = Node(on: bool, base: Rulebase, nets: seq<Network>)

  /** fwScopeName */
  function ScopeName(lib: Strings, n: NetName): string {
    if lib.trim(n.name) != "" then n.name else n.id
  }

  /** The scope a rule names takes in this network. */
  predicate Reaches(lib: Strings, scope: string, n: NetName) {
    lib.trim(scope) == "" || ScopeNames(lib, n, lib.trim(scope))
  }

  // ---------------------------------------------------------------- the migration

  function LiftedRule(lib: Strings, n: Network, r: Rule): Rule {
    r.(scope := ScopeName(lib, n.names), disabled := r.disabled || !n.on)
  }

  function Lifted(lib: Strings, n: Network, k: nat): (out: seq<Rule>)
    requires k <= |n.rules|
    ensures |out| == k && forall i :: 0 <= i < k ==> out[i] == LiftedRule(lib, n, n.rules[i])
  {
    seq(k, i requires 0 <= i < k => LiftedRule(lib, n, n.rules[i]))
  }

  function Hoisted(lib: Strings, nets: seq<Network>): seq<Rule> {
    if nets == [] then []
    else
      var n := nets[|nets| - 1];
      Hoisted(lib, nets[..|nets| - 1]) + Lifted(lib, n, |n.rules|)
  }

  function Cleared(nets: seq<Network>): (out: seq<Network>)
    ensures |out| == |nets|
    ensures forall i :: 0 <= i < |nets| ==> out[i] == Network(nets[i].names, false, [], 0)
  {
    seq(|nets|, i requires 0 <= i < |nets| => Network(nets[i].names, false, [], 0))
  }

  function AnyOn(nets: seq<Network>): (on: bool)
    ensures on <==> exists i :: 0 <= i < |nets| && nets[i].on
  {
    nets != [] && (nets[|nets| - 1].on || AnyOn(nets[..|nets| - 1]))
  }

  /** What migrateFirewall leaves behind. */
  function Migrated(lib: Strings, c: Node): Node {
    if c.base.rules == []
    then Node(c.on || AnyOn(c.nets), Assigned(c.base.(rules := Hoisted(lib, c.nets))), Cleared(c.nets))
    else Node(c.on, Assigned(c.base), Cleared(c.nets))
  }

  class FirewallConfig {
    var node: Config
    var on: bool
    var nets: seq<Network>
    const lib: Strings

    ghost function Value(): Node
      reads this, node
    {
      Node(on, node.Value(), nets)
    }

    constructor (lib: Strings, c: Node)
      ensures Value() == c && this.lib == lib && fresh(node)
    {
      this.lib, on, nets := lib, c.on, c.nets;
      node := new Config(c.base, Scopes(lib, []));
    }

    method MigrateFirewall()
      modifies this, node
      ensures Value() == Migrated(lib, old(Value())) && node == old(node)
    {
      if |node.rules| == 0 {
        for i := 0 to |nets|
          invariant nets == old(nets) && node == old(node) && node.nextID == old(node.nextID)
          invariant node.rules == Hoisted(lib, nets[..i])
          invariant on == (old(on) || AnyOn(nets[..i]))
        {
          assert nets[..i + 1][..i] == nets[..i];
          var n := nets[i];
          for k := 0 to |n.rules|
            invariant nets == old(nets) && node == old(node) && node.nextID == old(node.nextID)
            invariant node.rules == Hoisted(lib, nets[..i]) + Lifted(lib, n, k)
            invariant on == (old(on) || AnyOn(nets[..i]))
          {
            var r := n.rules[k].(scope := ScopeName(lib, n.names));
            if !n.on {
              r := r.(disabled := true);
            }
            assert Lifted(lib, n, k + 1) == Lifted(lib, n, k) + [r];
            node.rules := node.rules + [r];
          }
          if n.on {
            on := true;
          }
        }
        assert nets[..|nets|] == nets;
      }
      for i := 0 to |nets|
        invariant |nets| == |old(nets)| && node == old(node)
        invariant node.Value() == if old(node.rules) == [] then Rulebase(Hoisted(lib, old(nets)), old(node.nextID))
                                  else old(node.Value())
        invariant on == if old(node.rules) == [] then old(on) || AnyOn(old(nets)) else old(on)
        invariant forall j :: 0 <= j < |nets| ==>
                    nets[j] == if j < i then Network(old(nets)[j].names, false, [], 0) else old(nets)[j]
      {
        nets := nets[i := Network(nets[i].names, false, [], 0)];
      }
      assert nets == Cleared(old(nets));
      node.AssignFirewallIDs();
    }

    /** FirewallRulesFor */
    method FirewallRulesFor(n: NetName) returns (out: seq<Rule>)
      ensures out == RulesFor(lib, node.rules, n)
    {
      out := [];
      for i := 0 to |node.rules|
        invariant out == RulesFor(lib, node.rules[..i], n)
      {
        assert node.rules[..i + 1][..i] == node.rules[..i];
        var scope := lib.trim(node.rules[i].scope);
        if scope == "" || lib.fold(scope) == lib.fold(n.name) || lib.fold(scope) == lib.fold(n.id) {
          out := out + [node.rules[i]];
        }
      }
      assert node.rules[..|node.rules|] == node.rules;
    }
  }

  /** The rules enforced on a network, in rulebase order. */
  function RulesFor(lib: Strings, rules: seq<Rule>, n: NetName): seq<Rule> {
    if rules == [] then []
    else
      var r := rules[|rules| - 1];
      RulesFor(lib, rules[..|rules| - 1], n) + if Reaches(lib, r.scope, n) then [r] else []
  }

  // ---------------------------------------------------------------- verdicts

  /** A packet, as far as rules can tell: which bodies match it, and which actions allow. */
  datatype Packet = Packet(hit: Body -> bool, allows: Body -> bool)

  /** The first rule that is not disabled and matches decides. */
  function Decide(rules: seq<Rule>, p: Packet): Option<bool> {
    if rules == [] then None
    else if !rules[0].disabled && p.hit(rules[0].body) then Some(p.allows(rules[0].body))
    else Decide(rules[1..], p)
  }

  /** With the switch off, or nothing matching, the packet passes. */
  predicate Allow(on: bool, rules: seq<Rule>, p: Packet) {
    !on || Decide(rules, p) != Some(false)
  }

  /** The verdict of network i over its own rulebase, as before the migration. */
  predicate VerdictBefore(c: Node, i: nat, p: Packet)
    requires i < |c.nets|
  {
    Allow(c.nets[i].on, c.nets[i].rules, p)
  }

  /** The verdict of network i over its share of the node's rulebase. */
  predicate VerdictAfter(lib: Strings, c: Node, i: nat, p: Packet)
    requires i < |c.nets|
  {
    Allow(c.on, RulesFor(lib, c.base.rules, c.nets[i].names), p)
  }

  /** The scope written for a network reaches that network and no other. */
  ghost predicate Separate(lib: Strings, names: seq<NetName>) {
    forall i, j :: 0 <= i < |names| && 0 <= j < |names| ==>
      (Reaches(lib, ScopeName(lib, names[i]), names[j]) <==> i == j)
  }

  function Names(nets: seq<Network>): (out: seq<NetName>)
    ensures |out| == |nets| && forall i :: 0 <= i < |nets| ==> out[i] == nets[i].names
  {
    seq(|nets|, i requires 0 <= i < |nets| => nets[i].names)
  }

  /** No verdict of any network changes, for any packet. */
  ghost predicate KeepsVerdicts(lib: Strings, c: Node) {
    forall i: nat, p: Packet :: i < |c.nets| ==>
      VerdictAfter(lib, Migrated(lib, c), i, p) == VerdictBefore(c, i, p)
  }

  // ---------------------------------------------------------------- preservation

  lemma {:induction false} DecideConcat(a: seq<Rule>, b: seq<Rule>, p: Packet)
    ensures Decide(a + b, p) == if Decide(a, p).Some? then Decide(a, p) else Decide(b, p)
  {
    if a == [] {
      assert a + b == b;
    } else {
      assert (a + b)[1..] == a[1..] + b;
      DecideConcat(a[1..], b, p);
    }
  }

  lemma {:induction false} RulesForConcat(lib: Strings, a: seq<Rule>, b: seq<Rule>, n: NetName)
    ensures RulesFor(lib, a + b, n) == RulesFor(lib, a, n) + RulesFor(lib, b, n)
  {
    if b == [] {
      assert a + b == a;
    } else {
      var k := |b| - 1;
      assert (a + b)[..|a + b| - 1] == a + b[..k];
      RulesForConcat(lib, a, b[..k], n);
    }
  }

  /** Rules that differ in nothing but their ids. */
  ghost predicate SameButIDs(a: seq<Rule>, b: seq<Rule>) {
    |a| == |b| && forall i :: 0 <= i < |a| ==> a[i] == b[i].(id := a[i].id)
  }

  lemma {:induction false} NumberedSame(rules: seq<Rule>, next: nat, n: nat)
    requires n <= |rules|
    ensures SameButIDs(Numbered(rules, next, n).rules, rules)
  {
    if n > 0 {
      NumberedSame(rules, next, n - 1);
    }
  }

  lemma {:induction false} IDsDoNotDecide(lib: Strings, a: seq<Rule>, b: seq<Rule>, n: NetName, p: Packet)
    requires SameButIDs(a, b)
    ensures Decide(RulesFor(lib, a, n), p) == Decide(RulesFor(lib, b, n), p)
  {
    if a != [] {
      var k := |a| - 1;
      IDsDoNotDecide(lib, a[..k], b[..k], n, p);
      DecideConcat(RulesFor(lib, a[..k], n), if Reaches(lib, a[k].scope, n) then [a[k]] else [], p);
      DecideConcat(RulesFor(lib, b[..k], n), if Reaches(lib, b[k].scope, n) then [b[k]] else [], p);
    }
  }

  lemma {:induction false} LiftedFor(lib: Strings, n: Network, k: nat, m: NetName)
    requires k <= |n.rules|
    ensures RulesFor(lib, Lifted(lib, n, k), m) ==
            if Reaches(lib, ScopeName(lib, n.names), m) then Lifted(lib, n, k) else []
  {
    if k > 0 {
      assert Lifted(lib, n, k)[..k - 1] == Lifted(lib, n, k - 1);
      LiftedFor(lib, n, k - 1, m);
    }
  }

  lemma {:induction false} LiftedDecides(lib: Strings, n: Network, rules: seq<Rule>, p: Packet)
    ensures var lifted := Lifted(lib, n.(rules := rules), |rules|);
            Decide(lifted, p) == if n.on then Decide(rules, p) else None
  {
    var lifted := Lifted(lib, n.(rules := rules), |rules|);
    if rules != [] {
      LiftedDecides(lib, n, rules[1..], p);
      assert lifted[1..] == Lifted(lib, n.(rules := rules[1..]), |rules[1..]|);
    }
  }

  /** What the rules hoisted from one network say about traffic of another. */
  lemma ShareDecides(lib: Strings, n: Network, m: NetName, p: Packet)
    ensures Decide(RulesFor(lib, Lifted(lib, n, |n.rules|), m), p) ==
            if n.on && Reaches(lib, ScopeName(lib, n.names), m) then Decide(n.rules, p) else None
  {
    LiftedFor(lib, n, |n.rules|, m);
    LiftedDecides(lib, n, n.rules, p);
  }

  /** Only the networks whose scope reaches m contribute; with one such network it decides alone. */
  lemma {:induction false} HoistedDecides(lib: Strings, nets: seq<Network>, i: nat, m: NetName, p: Packet)
    requires forall k :: 0 <= k < |nets| && k != i ==>
               !nets[k].on || nets[k].rules == [] || !Reaches(lib, ScopeName(lib, nets[k].names), m)
    ensures Decide(RulesFor(lib, Hoisted(lib, nets), m), p) ==
            if i < |nets| && nets[i].on && Reaches(lib, ScopeName(lib, nets[i].names), m)
            then Decide(nets[i].rules, p) else None
  {
    if nets != [] {
      var k := |nets| - 1;
      HoistedDecides(lib, nets[..k], i, m, p);
      RulesForConcat(lib, Hoisted(lib, nets[..k]), Lifted(lib, nets[k], |nets[k].rules|), m);
      DecideConcat(RulesFor(lib, Hoisted(lib, nets[..k]), m),
                   RulesFor(lib, Lifted(lib, nets[k], |nets[k].rules|), m), p);
      ShareDecides(lib, nets[k], m, p);
    }
  }

  lemma MigratedDecides(lib: Strings, c: Node, m: NetName, p: Packet)
    requires c.base.rules == []
    ensures Decide(RulesFor(lib, Migrated(lib, c).base.rules, m), p) ==
            Decide(RulesFor(lib, Hoisted(lib, c.nets), m), p)
  {
    var rules := Hoisted(lib, c.nets);
    var next := Bumped(rules, c.base.nextID, |rules|);
    NumberedSame(rules, if next == 0 then 1 else next, |rules|);
    IDsDoNotDecide(lib, Migrated(lib, c).base.rules, rules, m, p);
  }

  /** The hoist preserves meaning: where every scope reaches its own network only, no packet on
      any network gets a different verdict. */
  lemma HoistPreservesVerdicts(lib: Strings, c: Node)
    requires c.base.rules == [] && Separate(lib, Names(c.nets))
    ensures KeepsVerdicts(lib, c)
  {
    forall i: nat, p: Packet | i < |c.nets|
      ensures VerdictAfter(lib, Migrated(lib, c), i, p) == VerdictBefore(c, i, p)
    {
      var names := Names(c.nets);
      assert forall k :: 0 <= k < |names| ==> (Reaches(lib, ScopeName(lib, names[k]), names[i]) <==> k == i);
      MigratedDecides(lib, c, names[i], p);
      HoistedDecides(lib, c.nets, i, names[i], p);
    }
  }

  /** One network switched on with a single rule; the others off and empty. */
  function Lonely(names: seq<NetName>, i: nat, r: Rule): (nets: seq<Network>)
    ensures Names(nets) == names
  {
    seq(|names|, k requires 0 <= k < |names| => Network(names[k], k == i, if k == i then [r] else [], 0))
  }

  /** And it is necessary: if some scope misses its network, or reaches another, there are
      rulebases on networks of those names whose verdicts the hoist changes. */
  lemma OnlySeparateNamesHoist(lib: Strings, on: bool, next: nat, names: seq<NetName>, r: Rule)
    requires !r.disabled
    requires forall i :: 0 <= i < |names| ==> KeepsVerdicts(lib, Node(on, Rulebase([], next), Lonely(names, i, r)))
    ensures Separate(lib, names)
  {
    forall i, j | 0 <= i < |names| && 0 <= j < |names|
      ensures Reaches(lib, ScopeName(lib, names[i]), names[j]) <==> i == j
    {
      var c := Node(on, Rulebase([], next), Lonely(names, i, r));
      var p := Packet(_ => true, _ => false);
      MigratedDecides(lib, c, names[j], p);
      HoistedDecides(lib, c.nets, i, names[j], p);
      assert Decide([r], p) == Some(false);
      assert VerdictAfter(lib, Migrated(lib, c), j, p) == VerdictBefore(c, j, p);
      assert c.nets[i].on && (j != i ==> !c.nets[j].on);
    }
  }

  /** A rulebase already node-global is left as it is, ids apart. */
  lemma GlobalRulesStay(lib: Strings, c: Node, m: NetName, p: Packet)
    requires c.base.rules != []
    ensures Decide(RulesFor(lib, Migrated(lib, c).base.rules, m), p) == Decide(RulesFor(lib, c.base.rules, m), p)
    ensures Migrated(lib, c).on == c.on
  {
    var rules := c.base.rules;
    var next := Bumped(rules, c.base.nextID, |rules|);
    NumberedSame(rules, if next == 0 then 1 else next, |rules|);
    IDsDoNotDecide(lib, Migrated(lib, c).base.rules, rules, m, p);
  }

  // ---------------------------------------------------------------- which names are separate

  /** Each network answers to one trimmed text, its name or, unnamed, its id; these differ
      ignoring case, and none is the name or id of another network. */
  ghost predicate Tidy(lib: Strings, names: seq<NetName>) {
    && (forall i :: 0 <= i < |names| ==>
          lib.trim(ScopeName(lib, names[i])) == ScopeName(lib, names[i]) != "")
    && (forall i, j :: 0 <= i < |names| && 0 <= j < |names| && i != j ==>
          && lib.fold(ScopeName(lib, names[i])) != lib.fold(names[j].name)
          && lib.fold(ScopeName(lib, names[i])) != lib.fold(names[j].id))
  }

  lemma TidyNamesAreSeparate(lib: Strings, names: seq<NetName>)
    requires Tidy(lib, names)
    ensures Separate(lib, names)
  {
  }

  /** A name with a blank beside it loses its rules: the scope is trimmed, the name it is
      compared with is not. */
  lemma PaddedNameLosesItsRules(lib: Strings, n: NetName, r: Rule)
    requires lib.trim(n.name) != "" && !r.disabled
    requires lib.fold(lib.trim(n.name)) != lib.fold(n.name) && lib.fold(lib.trim(n.name)) != lib.fold(n.id)
    ensures !KeepsVerdicts(lib, Node(false, Rulebase([], 0), Lonely([n], 0, r)))
  {
    var c := Node(false, Rulebase([], 0), Lonely([n], 0, r));
    assert KeepsVerdicts(lib, c) ==> Separate(lib, [n]) by {
      if KeepsVerdicts(lib, c) {
        OnlySeparateNamesHoist(lib, false, 0, [n], r);
      }
    }
    assert !Reaches(lib, ScopeName(lib, [n][0]), [n][0]);
  }
}
