/** The node's firewall rulebase: rules, scopes and stable ids. */
module Firewall {
  import opened Text

  /** What a rule matches and does; nothing here depends on it. */
  datatype Body = Body(
    action: string, direction: string, proto: string,
    src: string, dst: string, srcNegate: bool, dstNegate: bool,
    srcPortMin: int, srcPortMax: int, dstPortMin: int, dstPortMax: int,
    services: seq<string>, servicesNegate: bool, log: bool, notes: string)

  datatype Rule = Rule(id: nat, disabled: bool, scope: string, body: Body)

  /** The ordered rulebase and the counter ids come from. */
  datatype Rulebase = Rulebase(rules: seq<Rule>, nextID: nat)

  /** A mesh network as far as scopes are concerned. */
  datatype NetName = NetName(name: string, id: string)

  const MAX_ID: nat := 0xFFFF_FFFF_FFFF_FFFF

  /** The counter is a uint64. */
  function Inc(n: nat): nat {
    if n >= MAX_ID then 0 else n + 1
  }

  /** The networks of the configuration and the text library scopes are compared with. */
  datatype Scopes = Scopes(lib: Strings, nets: seq<NetName>)

  predicate ScopeNames(lib: Strings, n: NetName, scope: string) {
    lib.fold(n.name) == lib.fold(scope) || lib.fold(n.id) == lib.fold(scope)
  }

  /** checkFirewallScope accepts the empty scope and any that names a network. */
  predicate ScopeOK(sc: Scopes, scope: string) {
    var s := sc.lib.trim(scope);
    s == "" || exists i :: 0 <= i < |sc.nets| && ScopeNames(sc.lib, sc.nets[i], s)
  }

  // ---------------------------------------------------------------- id assignment

  function Bumped(rules: seq<Rule>, next: nat, n: nat): nat
    requires n <= |rules|
  {
    if n == 0 then next
    else
      var m := Bumped(rules, next, n - 1);
      if rules[n - 1].id >= m then Inc(rules[n - 1].id) else m
  }

  function Numbered(rules: seq<Rule>, next: nat, n: nat): (b: Rulebase)
    requires n <= |rules|
    ensures |b.rules| == |rules|
  {
    if n == 0 then Rulebase(rules, next)
    else
      var b := Numbered(rules, next, n - 1);
      if b.rules[n - 1].id == 0
      then Rulebase(b.rules[n - 1 := b.rules[n - 1].(id := b.nextID)], Inc(b.nextID))
      else b
  }

  /** assignFirewallIDs */
  function Assigned(b: Rulebase): (a: Rulebase)
    ensures |a.rules| == |b.rules|
  {
    var m := Bumped(b.rules, b.nextID, |b.rules|);
    Numbered(b.rules, if m == 0 then 1 else m, |b.rules|)
  }

  // ---------------------------------------------------------------- edits

  function Insert(rules: seq<Rule>, r: Rule, at: int): seq<Rule> {
    if at < 0 || at > |rules| then rules + [r] else rules[..at] + [r] + rules[at..]
  }

  function Added(b: Rulebase, sc: Scopes, r: Rule, at: int): Option<Rulebase> {
    if !ScopeOK(sc, r.scope) then None
    else
      var a := Assigned(b);
      var stored := r.(id := a.nextID, scope := sc.lib.trim(r.scope));
      Some(Rulebase(Insert(a.rules, stored, at), Inc(a.nextID)))
  }

  /** firewallIndexOf: the first rule with the id, or -1. */
  function IndexOfID(rules: seq<Rule>, id: nat): (i: int)
    ensures -1 <= i < |rules|
    ensures i >= 0 ==> rules[i].id == id
    ensures forall j :: 0 <= j < (if i < 0 then |rules| else i) ==> rules[j].id != id
  {
    if rules == [] then -1
    else
      var i := IndexOfID(rules[..|rules| - 1], id);
      if i >= 0 then i else if rules[|rules| - 1].id == id then |rules| - 1 else -1
  }

  function Updated(b: Rulebase, sc: Scopes, id: nat, r: Rule): Option<Rulebase> {
    var i := IndexOfID(b.rules, id);
    if i < 0 || !ScopeOK(sc, r.scope) then None
    else Some(b.(rules := b.rules[i := r.(id := id, scope := sc.lib.trim(r.scope))]))
  }

  function Without(rules: seq<Rule>, ids: seq<nat>): (out: seq<Rule>)
    ensures |out| <= |rules|
  {
    if rules == [] then []
    else
      var n := |rules| - 1;
      Without(rules[..n], ids) + (if rules[n].id in ids then [] else [rules[n]])
  }

  function Deleted(b: Rulebase, ids: seq<nat>): Option<Rulebase> {
    var out := Without(b.rules, ids);
    if ids == [] || |out| == |b.rules| then None else Some(b.(rules := out))
  }

  function Moved(b: Rulebase, id: nat, to: int): Option<Rulebase> {
    var from := IndexOfID(b.rules, id);
    if from < 0 || to < 0 || to >= |b.rules| then None
    else
      var rest := b.rules[..from] + b.rules[from + 1..];
      Some(b.(rules := rest[..to] + [b.rules[from]] + rest[to..]))
  }

  function Toggled(b: Rulebase, id: nat, on: bool): Option<Rulebase> {
    var i := IndexOfID(b.rules, id);
    if i < 0 then None else Some(b.(rules := b.rules[i := b.rules[i].(disabled := !on)]))
  }

  /** pickFirewallRules: the rules with these ids, in rulebase order. */
  function Picked(rules: seq<Rule>, ids: seq<nat>): seq<Rule> {
    if rules == [] then []
    else
      var n := |rules| - 1;
      Picked(rules[..n], ids) + (if rules[n].id in ids then [rules[n]] else [])
  }

  /** The rulebase after clip rule i is added where it belongs. */
  function PastedOne(b: Rulebase, sc: Scopes, clip: seq<Rule>, at: int, i: nat): Option<Rulebase>
    requires i < |clip|
  {
    Added(b, sc, clip[i].(id := 0), if at >= 0 then at + i else at)
  }

  /** The rulebase after the first n rules of the clip are pasted at `at`. */
  function Pasted(b: Rulebase, sc: Scopes, clip: seq<Rule>, at: int, n: nat): Option<Rulebase>
    requires n <= |clip|
  {
    if n == 0 then Some(b)
    else match Pasted(b, sc, clip, at, n - 1)
      case None => None
      case Some(c) =>
        PastedOne(c, sc, clip, at, n - 1)
  }

  // ---------------------------------------------------------------- the configuration

  class Config {
    var rules: seq<Rule>
    var nextID: nat
    const sc: Scopes

    ghost function Value(): Rulebase
      reads this
    {
      Rulebase(rules, nextID)
    }

    constructor (b: Rulebase, sc: Scopes)
      ensures Value() == b && this.sc == sc
    {
      rules, nextID, this.sc := b.rules, b.nextID, sc;
    }

    method AssignFirewallIDs()
      modifies this
      ensures Value() == Assigned(old(Value()))
    {
      for i := 0 to |rules|
        invariant rules == old(rules) && nextID == Bumped(rules, old(nextID), i)
      {
        if rules[i].id >= nextID {
          nextID := Inc(rules[i].id);
        }
      }
      if nextID == 0 {
        nextID := 1;
      }
      ghost var start := nextID;
      for i := 0 to |rules|
        invariant |rules| == |old(rules)| && Value() == Numbered(old(rules), start, i)
      {
        if rules[i].id == 0 {
          rules := rules[i := rules[i].(id := nextID)];
          nextID := Inc(nextID);
        }
      }
    }

    method CheckFirewallScope(scope: string) returns (ok: bool)
      ensures ok == ScopeOK(sc, scope)
    {
      var s := sc.lib.trim(scope);
      if s == "" {
        return true;
      }
      for i := 0 to |sc.nets|
        invariant forall j :: 0 <= j < i ==> !ScopeNames(sc.lib, sc.nets[j], s)
      {
        if ScopeNames(sc.lib, sc.nets[i], s) {
          return true;
        }
      }
      return false;
    }

    method FirewallIndexOf(id: nat) returns (i: int)
      ensures i == IndexOfID(rules, id)
    {
      for k := 0 to |rules|
        invariant forall j :: 0 <= j < k ==> rules[j].id != id
      {
        if rules[k].id == id {
          return k;
        }
      }
      i := -1;
    }

    method FirewallRuleAdd(r: Rule, at: int) returns (ok: bool)
      modifies this
      ensures match Added(old(Value()), sc, r, at)
              case Some(b) => ok && Value() == b
              case None => !ok && Value() == old(Value())
    {
      ok := CheckFirewallScope(r.scope);
      if !ok {
        return;
      }
      AssignFirewallIDs();
      var stored := r.(id := nextID, scope := sc.lib.trim(r.scope));
      nextID := Inc(nextID);
      if at < 0 || at > |rules| {
        rules := rules + [stored];
        return;
      }
      rules := rules[..at] + ([stored] + rules[at..]);
    }

    method FirewallRuleUpdate(id: nat, r: Rule) returns (ok: bool)
      modifies this
      ensures match Updated(old(Value()), sc, id, r)
              case Some(b) => ok && Value() == b
              case None => !ok && Value() == old(Value())
    {
      var i := FirewallIndexOf(id);
      if i < 0 {
        return false;
      }
      ok := CheckFirewallScope(r.scope);
      if ok {
        rules := rules[i := r.(id := id, scope := sc.lib.trim(r.scope))];
      }
    }

    method FirewallRuleDelete(ids: seq<nat>) returns (ok: bool)
      modifies this
      ensures match Deleted(old(Value()), ids)
              case Some(b) => ok && Value() == b
              case None => !ok && Value() == old(Value())
    {
      if |ids| == 0 {
        return false;
      }
      var out: seq<Rule> := [];
      var n := 0;
      for i := 0 to |rules|
        invariant out == Without(rules[..i], ids) && |out| + n == i
      {
        assert rules[..i + 1][..i] == rules[..i];
        if rules[i].id in ids {
          n := n + 1;
          continue;
        }
        out := out + [rules[i]];
      }
      assert rules[..|rules|] == rules;
      if n == 0 {
        return false;
      }
      rules := out;
      return true;
    }

    method FirewallRuleMove(id: nat, to: int) returns (ok: bool)
      modifies this
      ensures match Moved(old(Value()), id, to)
              case Some(b) => ok && Value() == b
              case None => !ok && Value() == old(Value())
    {
      var from := FirewallIndexOf(id);
      if from < 0 || to < 0 || to >= |rules| {
        return false;
      }
      var r := rules[from];
      var rest := rules[..from] + rules[from + 1..];
      rules := rest[..to] + ([r] + rest[to..]);
      return true;
    }

    method FirewallRuleSetEnabled(id: nat, on: bool) returns (ok: bool)
      modifies this
      ensures match Toggled(old(Value()), id, on)
              case Some(b) => ok && Value() == b
              case None => !ok && Value() == old(Value())
    {
      var i := FirewallIndexOf(id);
      if i < 0 {
        return false;
      }
      rules := rules[i := rules[i].(disabled := !on)];
      return true;
    }
  }
}
