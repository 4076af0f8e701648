/** Rule identity and order over whole runs of edits through the control surface. */
module RulebaseRuns {
  import opened Text
  import opened Firewall

  // ---------------------------------------------------------------- ids

  /** Ids are assigned, pairwise distinct, and the counter is ahead of all of them. */
  ghost predicate Good(b: Rulebase) {
    && 0 < b.nextID <= MAX_ID
    && (forall i :: 0 <= i < |b.rules| ==> 0 < b.rules[i].id < b.nextID)
    && (forall i, j :: 0 <= i < j < |b.rules| ==> b.rules[i].id != b.rules[j].id)
  }

  lemma {:induction false} GoodBump(b: Rulebase, n: nat)
    requires Good(b) && n <= |b.rules|
    ensures Bumped(b.rules, b.nextID, n) == b.nextID
    ensures Numbered(b.rules, b.nextID, n) == b
  {
    if n > 0 {
      GoodBump(b, n - 1);
    }
  }

  /** Where ids are in order, reassigning them (as every reload does) changes nothing. */
  lemma GoodAssigned(b: Rulebase)
    requires Good(b)
    ensures Assigned(b) == b
  {
    GoodBump(b, |b.rules|);
  }

  ghost predicate SameIDs(r: seq<Rule>, s: seq<Rule>) {
    |r| == |s| && forall i :: 0 <= i < |r| ==> r[i].id == s[i].id
  }

  lemma InsertAt(rules: seq<Rule>, r: Rule, at: int) returns (k: nat)
    ensures k == (if at < 0 || at > |rules| then |rules| else at)
    ensures Insert(rules, r, at) == rules[..k] + [r] + rules[k..]
  {
    k := if at < 0 || at > |rules| then |rules| else at;
  }

  /** An added rule gets the counter's value as its id; every other rule stays as it was, in
      order, around it. */
  lemma AddKeepsGood(b: Rulebase, sc: Scopes, r: Rule, at: int)
    requires Good(b) && ScopeOK(sc, r.scope)
    ensures Added(b, sc, r, at).Some?
    ensures var c, k := Added(b, sc, r, at).value, if at < 0 || at > |b.rules| then |b.rules| else at;
            && c.rules == b.rules[..k] + [r.(id := b.nextID, scope := sc.lib.trim(r.scope))] + b.rules[k..]
            && c.nextID == Inc(b.nextID)
            && (b.nextID < MAX_ID ==> Good(c))
  {
    GoodAssigned(b);
    var k := InsertAt(b.rules, r.(id := b.nextID, scope := sc.lib.trim(r.scope)), at);
  }

  lemma UpdateKeepsGood(b: Rulebase, sc: Scopes, id: nat, r: Rule)
    requires Good(b) && Updated(b, sc, id, r).Some?
    ensures Good(Updated(b, sc, id, r).value) && SameIDs(Updated(b, sc, id, r).value.rules, b.rules)
  {
  }

  lemma ToggleKeepsGood(b: Rulebase, id: nat, on: bool)
    requires Good(b) && Toggled(b, id, on).Some?
    ensures Good(Toggled(b, id, on).value) && SameIDs(Toggled(b, id, on).value.rules, b.rules)
  {
  }

  lemma {:induction false} WithoutIDs(rules: seq<Rule>, ids: seq<nat>)
    ensures var out := Without(rules, ids);
            && (forall r :: r in out ==> r in rules && r.id !in ids)
            && (forall r :: r in rules && r.id !in ids ==> r in out)
  {
    if rules != [] {
      WithoutIDs(rules[..|rules| - 1], ids);
    }
  }

  ghost predicate DistinctRules(rules: seq<Rule>) {
    forall i, j :: 0 <= i < j < |rules| ==> rules[i].id != rules[j].id
  }

  lemma {:induction false} WithoutDistinct(rules: seq<Rule>, ids: seq<nat>)
    requires DistinctRules(rules)
    ensures DistinctRules(Without(rules, ids))
  {
    if rules != [] {
      var n := |rules| - 1;
      var out := Without(rules[..n], ids);
      WithoutDistinct(rules[..n], ids);
      WithoutIDs(rules[..n], ids);
      forall i | 0 <= i < |out|
        ensures out[i].id != rules[n].id
      {
        assert out[i] in out;
      }
    }
  }

  lemma DeleteKeepsGood(b: Rulebase, ids: seq<nat>)
    requires Good(b) && Deleted(b, ids).Some?
    ensures Good(Deleted(b, ids).value)
    ensures var c := Deleted(b, ids).value;
            c.nextID == b.nextID && forall r :: r in c.rules <==> r in b.rules && r.id !in ids
  {
    WithoutIDs(b.rules, ids);
    WithoutDistinct(b.rules, ids);
    var c := Deleted(b, ids).value;
    forall i | 0 <= i < |c.rules|
      ensures 0 < c.rules[i].id < c.nextID
    {
      assert c.rules[i] in c.rules;
    }
  }

  // ---------------------------------------------------------------- order

  function Remove<T>(s: seq<T>, k: nat): seq<T>
    requires k < |s|
  {
    s[..k] + s[k + 1..]
  }

  /** Moving puts the rule at the asked position and leaves the order of all others alone: the
      list without the rule is the same before and after. */
  lemma MoveIsExact(b: Rulebase, id: nat, to: int)
    requires Moved(b, id, to).Some?
    ensures var c, from := Moved(b, id, to).value, IndexOfID(b.rules, id);
            && |c.rules| == |b.rules| && c.nextID == b.nextID
            && c.rules[to] == b.rules[from] && b.rules[from].id == id
            && Remove(c.rules, to) == Remove(b.rules, from)
  {
    var rest := Remove(b.rules, IndexOfID(b.rules, id));
    var c := Moved(b, id, to).value;
    assert rest[..to] + rest[to..] == rest;
    assert c.rules[..to] == rest[..to] && c.rules[to + 1..] == rest[to..];
  }

  lemma RemoveIDs(rules: seq<Rule>, k: nat)
    requires k < |rules|
    ensures forall r :: r in rules <==> r == rules[k] || r in Remove(rules, k)
    ensures DistinctRules(rules) ==>
              DistinctRules(Remove(rules, k)) && forall r :: r in Remove(rules, k) ==> r.id != rules[k].id
  {
    var rest := Remove(rules, k);
    assert rules == rules[..k] + [rules[k]] + rules[k + 1..];
  }

  lemma InsertIDs(rest: seq<Rule>, r: Rule, k: nat)
    requires k <= |rest|
    ensures var rules := rest[..k] + [r] + rest[k..];
            && (forall s :: s in rules <==> s == r || s in rest)
            && (DistinctRules(rest) && (forall s :: s in rest ==> s.id != r.id) ==> DistinctRules(rules))
  {
    assert rest == rest[..k] + rest[k..];
  }

  lemma MoveKeepsGood(b: Rulebase, id: nat, to: int)
    requires Good(b) && Moved(b, id, to).Some?
    ensures Good(Moved(b, id, to).value)
    ensures forall r :: r in Moved(b, id, to).value.rules <==> r in b.rules
  {
    var from := IndexOfID(b.rules, id);
    var c, rest := Moved(b, id, to).value, Remove(b.rules, from);
    assert DistinctRules(b.rules);
    RemoveIDs(b.rules, from);
    InsertIDs(rest, b.rules[from], to);
    forall i | 0 <= i < |c.rules|
      ensures 0 < c.rules[i].id < c.nextID
    {
      assert c.rules[i] in c.rules;
    }
    assert DistinctRules(c.rules);
  }

  function PasteAt(rules: seq<Rule>, at: int): (k: nat)
    ensures k <= |rules|
  {
    if at < 0 || at > |rules| then |rules| else at
  }

  /** The rules a paste stores: the clip in order, with fresh consecutive ids. */
  function Block(sc: Scopes, clip: seq<Rule>, next: nat, n: nat): (s: seq<Rule>)
    requires n <= |clip|
    ensures |s| == n
    ensures forall i :: 0 <= i < n ==> s[i] == clip[i].(id := next + i, scope := sc.lib.trim(clip[i].scope))
  {
    if n == 0 then []
    else Block(sc, clip, next, n - 1) + [clip[n - 1].(id := next + (n - 1), scope := sc.lib.trim(clip[n - 1].scope))]
  }

  lemma PasteStep(rules: seq<Rule>, k: nat, block: seq<Rule>, r: Rule, at: int)
    requires k <= |rules| && if 0 <= at <= |rules| then k == at else k == |rules|
    ensures var all, where := rules[..k] + block + rules[k..], if at >= 0 then at + |block| else at;
            Insert(all, r, where) == rules[..k] + (block + [r]) + rules[k..]
  {
  }

  ghost predicate BlockPasted(b: Rulebase, sc: Scopes, clip: seq<Rule>, at: int, n: nat, c: Rulebase)
    requires n <= |clip|
  {
    var k := PasteAt(b.rules, at);
    && c.rules == b.rules[..k] + Block(sc, clip, b.nextID, n) + b.rules[k..]
    && c.nextID == b.nextID + n && Good(c)
  }

  lemma PasteOneMore(b: Rulebase, sc: Scopes, clip: seq<Rule>, at: int, n: nat, c: Rulebase)
    requires n < |clip| && b.nextID + n < MAX_ID && BlockPasted(b, sc, clip, at, n, c)
    ensures match PastedOne(c, sc, clip, at, n)
            case Some(d) => BlockPasted(b, sc, clip, at, n + 1, d)
            case None => true
  {
    var r, where := clip[n].(id := 0), if at >= 0 then at + n else at;
    if Added(c, sc, r, where).Some? {
      AddedTo(c, sc, r, where);
      var k, block := PasteAt(b.rules, at), Block(sc, clip, b.nextID, n);
      var stored := r.(id := c.nextID, scope := sc.lib.trim(r.scope));
      assert Block(sc, clip, b.nextID, n + 1) == block + [stored];
      assert Insert(c.rules, stored, where) == b.rules[..k] + (block + [stored]) + b.rules[k..] by {
        PasteStep(b.rules, k, block, stored, at);
      }
    }
  }

  lemma PasteNothing(b: Rulebase, sc: Scopes, clip: seq<Rule>, at: int)
    requires Good(b)
    ensures BlockPasted(b, sc, clip, at, 0, b)
  {
  }

  lemma PasteGrows(b: Rulebase, sc: Scopes, clip: seq<Rule>, at: int, n: nat, c: Rulebase)
    requires n < |clip| && b.nextID + n < MAX_ID
    requires Pasted(b, sc, clip, at, n) == Some(c) && BlockPasted(b, sc, clip, at, n, c)
    ensures match Pasted(b, sc, clip, at, n + 1)
            case Some(d) => BlockPasted(b, sc, clip, at, n + 1, d)
            case None => true
  {
    PasteOneMore(b, sc, clip, at, n, c);
  }

  lemma PasteStops(b: Rulebase, sc: Scopes, clip: seq<Rule>, at: int, n: nat)
    requires n < |clip| && Pasted(b, sc, clip, at, n).None?
    ensures Pasted(b, sc, clip, at, n + 1).None?
  {
  }

  /** Wherever a paste is asked for, in range or not, it inserts the clip as one block in the
      clip's order; nothing else moves. */
  lemma {:induction false} PasteIsOneBlock(b: Rulebase, sc: Scopes, clip: seq<Rule>, at: int, n: nat)
    requires Good(b) && n <= |clip| && b.nextID + n <= MAX_ID
    ensures match Pasted(b, sc, clip, at, n)
            case Some(c) => BlockPasted(b, sc, clip, at, n, c)
            case None => true
  {
    if n == 0 {
      PasteNothing(b, sc, clip, at);
    } else {
      var k := n - 1;
      PasteIsOneBlock(b, sc, clip, at, k);
      match Pasted(b, sc, clip, at, k) {
        case Some(c) => PasteGrows(b, sc, clip, at, k, c);
        case None => PasteStops(b, sc, clip, at, k);
      }
    }
  }

  lemma AddedTo(b: Rulebase, sc: Scopes, r: Rule, at: int)
    requires Good(b) && b.nextID < MAX_ID && Added(b, sc, r, at).Some?
    ensures Added(b, sc, r, at).value ==
            Rulebase(Insert(b.rules, r.(id := b.nextID, scope := sc.lib.trim(r.scope)), at), b.nextID + 1)
    ensures Good(Added(b, sc, r, at).value)
  {
    GoodAssigned(b);
    AddKeepsGood(b, sc, r, at);
  }

  // ---------------------------------------------------------------- the control surface

  datatype Op =
    | Add(rule: Rule, at: int)
    | Update(id: nat, rule: Rule)
    | Delete(ids: seq<nat>)
    | Move(id: nat, to: int)
    | SetEnabled(id: nat, on: bool)
    | Copy(ids: seq<nat>)
    | Cut(ids: seq<nat>)
    | Paste(at: int)
    | Reload

  /** The configuration file's rulebase and the cut/copy buffer. */
  datatype State = State(base: Rulebase, clip: seq<Rule>)

  /** What an edit leaves; a refused edit saves nothing. */
  function Done(s: State, sc: Scopes, op: Op): State {
    var picked := if op.Copy? || op.Cut? then Picked(s.base.rules, op.ids) else [];
    var after := match op
      case Add(r, at) => Added(s.base, sc, r, at)
      case Update(id, r) => Updated(s.base, sc, id, r)
      case Delete(ids) => Deleted(s.base, ids)
      case Move(id, to) => Moved(s.base, id, to)
      case SetEnabled(id, on) => Toggled(s.base, id, on)
      case Copy(ids) => None
      case Cut(ids) => if picked == [] then None else Deleted(s.base, ids)
      case Paste(at) => if s.clip == [] then None else Pasted(s.base, sc, s.clip, at, |s.clip|)
      case Reload => Some(Assigned(s.base));
    State(if after.Some? then after.value else s.base, if picked == [] then s.clip else picked)
  }

  class Control {
    var base: Rulebase
    var clip: seq<Rule>
    const sc: Scopes

    constructor (b: Rulebase, sc: Scopes)
      ensures base == b && clip == [] && this.sc == sc
    {
      base, clip, this.sc := b, [], sc;
    }

    ghost function Now(): State
      reads this
    {
      State(base, clip)
    }

    /** The rule reported back is the one that was stored, and it is where the caller asked. */
    method FirewallAdd(r: Rule, at: int) returns (ok: bool, added: Rule)
      modifies this
      ensures Now() == Done(old(Now()), sc, Add(r, at))
      ensures ok == Added(old(base), sc, r, at).Some?
      ensures ok ==> var a := Assigned(old(base));
                added == r.(id := a.nextID, scope := sc.lib.trim(r.scope))
                && base.rules == a.rules[..PasteAt(a.rules, at)] + [added] + a.rules[PasteAt(a.rules, at)..]
    {
      var cfg := new Config(base, sc);
      added := r;
      ok := cfg.FirewallRuleAdd(r, at);
      if !ok {
        return;
      }
      var idx := |cfg.rules| - 1;
      if at >= 0 && at < |cfg.rules| {
        idx := at;
      }
      added := cfg.rules[idx];
      base := Rulebase(cfg.rules, cfg.nextID);
    }

    method FirewallDelete(ids: seq<nat>) returns (ok: bool)
      modifies this
      ensures Now() == Done(old(Now()), sc, Delete(ids))
      ensures ok == Deleted(old(base), ids).Some?
    {
      var cfg := new Config(base, sc);
      ok := cfg.FirewallRuleDelete(ids);
      if ok {
        base := Rulebase(cfg.rules, cfg.nextID);
      }
    }

    method FirewallMove(id: nat, to: int) returns (ok: bool)
      modifies this
      ensures Now() == Done(old(Now()), sc, Move(id, to))
      ensures ok == Moved(old(base), id, to).Some?
    {
      var cfg := new Config(base, sc);
      ok := cfg.FirewallRuleMove(id, to);
      if ok {
        base := Rulebase(cfg.rules, cfg.nextID);
      }
    }

    method FirewallCopy(ids: seq<nat>) returns (ok: bool)
      modifies this
      ensures Now() == Done(old(Now()), sc, Copy(ids))
      ensures ok == (Picked(old(base).rules, ids) != [])
    {
      var picked := PickFirewallRules(base.rules, ids);
      ok := |picked| > 0;
      if ok {
        clip := picked;
      }
    }

    method FirewallCut(ids: seq<nat>) returns (ok: bool)
      modifies this
      ensures Now() == Done(old(Now()), sc, Cut(ids))
    {
      ok := FirewallCopy(ids);
      if ok {
        ok := FirewallDelete(ids);
      }
    }

    method FirewallPaste(at: int) returns (count: nat)
      modifies this
      ensures Now() == Done(old(Now()), sc, Paste(at))
    {
      count := 0;
      if |clip| == 0 {
        return;
      }
      var cfg := new Config(base, sc);
      var ok := PasteInto(cfg, clip, at);
      if ok {
        base := Rulebase(cfg.rules, cfg.nextID);
        count := |clip|;
      }
    }
  }

  /** The edit FirewallPaste applies to the loaded configuration. */
  method PasteInto(cfg: Config, clip: seq<Rule>, at: int) returns (ok: bool)
    modifies cfg
    ensures Pasted(old(cfg.Value()), cfg.sc, clip, at, |clip|) == if ok then Some(cfg.Value()) else None
  {
    ghost var b := cfg.Value();
    for i := 0 to |clip|
      invariant Pasted(b, cfg.sc, clip, at, i) == Some(cfg.Value())
    {
      var pos := at;
      if pos >= 0 {
        pos := pos + i;
      }
      ghost var next := Added(cfg.Value(), cfg.sc, clip[i].(id := 0), pos);
      assert Pasted(b, cfg.sc, clip, at, i + 1) == next;
      ok := cfg.FirewallRuleAdd(clip[i].(id := 0), pos);
      assert next == if ok then Some(cfg.Value()) else None;
      if !ok {
        RefusedPaste(b, cfg.sc, clip, at, i + 1, |clip|);
        return;
      }
    }
    ok := true;
  }

  method PickFirewallRules(rules: seq<Rule>, ids: seq<nat>) returns (out: seq<Rule>)
    ensures out == Picked(rules, ids)
  {
    out := [];
    for i := 0 to |rules|
      invariant out == Picked(rules[..i], ids)
    {
      assert rules[..i + 1][..i] == rules[..i];
      if rules[i].id in ids {
        out := out + [rules[i]];
      }
    }
    assert rules[..|rules|] == rules;
  }

  lemma {:induction false} RefusedPaste(b: Rulebase, sc: Scopes, clip: seq<Rule>, at: int, m: nat, n: nat)
    requires m <= n <= |clip| && Pasted(b, sc, clip, at, m).None?
    ensures Pasted(b, sc, clip, at, n).None?
  {
    if m < n {
      RefusedPaste(b, sc, clip, at, m, n - 1);
    }
  }

  // ---------------------------------------------------------------- cutting and pasting

  ghost predicate Before(rules: seq<Rule>, r: Rule, s: Rule) {
    exists i, j :: 0 <= i < j < |rules| && rules[i] == r && rules[j] == s
  }

  /** Any two rules of `out` stand in `rules` in the same order. */
  ghost predicate InOrder(out: seq<Rule>, rules: seq<Rule>) {
    && (forall r :: r in out ==> r in rules)
    && (forall i, j :: 0 <= i < j < |out| ==> Before(rules, out[i], out[j]))
  }

  lemma InOrderMore(out: seq<Rule>, rules: seq<Rule>, r: Rule)
    requires InOrder(out, rules)
    ensures InOrder(out, rules + [r]) && InOrder(out + [r], rules + [r])
  {
    var more := rules + [r];
    forall i, j | 0 <= i < j < |out|
      ensures Before(more, out[i], out[j])
    {
      var p, q :| 0 <= p < q < |rules| && rules[p] == out[i] && rules[q] == out[j];
      assert more[p] == out[i] && more[q] == out[j];
    }
    forall i | 0 <= i < |out|
      ensures Before(more, out[i], r)
    {
      assert out[i] in out;
      var p :| 0 <= p < |rules| && rules[p] == out[i];
      assert more[p] == out[i] && more[|rules|] == r;
    }
  }

  /** Copying and deleting split the rulebase: each rule goes to exactly one side, and both sides
      keep rulebase order whatever the order of the ids. */
  lemma {:induction false} SplitInOrder(rules: seq<Rule>, ids: seq<nat>)
    ensures var picked, rest := Picked(rules, ids), Without(rules, ids);
            && InOrder(picked, rules) && InOrder(rest, rules) && |picked| + |rest| == |rules|
            && (forall r :: r in picked <==> r in rules && r.id in ids)
            && (forall r :: r in rest <==> r in rules && r.id !in ids)
  {
    if rules != [] {
      var init, last := rules[..|rules| - 1], rules[|rules| - 1];
      SplitInOrder(init, ids);
      assert rules == init + [last];
      InOrderMore(Picked(init, ids), init, last);
      InOrderMore(Without(init, ids), init, last);
    }
  }

  lemma CutGives(b: Rulebase, sc: Scopes, clip: seq<Rule>, ids: seq<nat>)
    requires Picked(b.rules, ids) != []
    ensures Deleted(b, ids) == Some(b.(rules := Without(b.rules, ids)))
    ensures Done(State(b, clip), sc, Cut(ids)) == State(b.(rules := Without(b.rules, ids)), Picked(b.rules, ids))
  {
    var picked := Picked(b.rules, ids);
    SplitInOrder(b.rules, ids);
    assert picked[0] in picked;
  }

  lemma PasteGives(b: Rulebase, sc: Scopes, clip: seq<Rule>, at: int)
    requires Good(b) && clip != [] && b.nextID + |clip| <= MAX_ID && Pasted(b, sc, clip, at, |clip|).Some?
    ensures var k := PasteAt(b.rules, at);
            Done(State(b, clip), sc, Paste(at)).base.rules ==
            b.rules[..k] + Block(sc, clip, b.nextID, |clip|) + b.rules[k..]
  {
    PasteIsOneBlock(b, sc, clip, at, |clip|);
  }

  /** Cutting rules and pasting them anywhere moves them as one block, in rulebase order, under
      fresh ids; the rules that stayed keep their order and ids. */
  lemma CutThenPaste(b: Rulebase, sc: Scopes, clip: seq<Rule>, ids: seq<nat>, at: int)
    requires Good(b) && Picked(b.rules, ids) != [] && b.nextID + |Picked(b.rules, ids)| <= MAX_ID
    requires Pasted(b.(rules := Without(b.rules, ids)), sc, Picked(b.rules, ids), at, |Picked(b.rules, ids)|).Some?
    ensures var picked, rest := Picked(b.rules, ids), Without(b.rules, ids);
            var k := PasteAt(rest, at);
            Done(Done(State(b, clip), sc, Cut(ids)), sc, Paste(at)).base.rules ==
            rest[..k] + Block(sc, picked, b.nextID, |picked|) + rest[k..]
  {
    CutGives(b, sc, clip, ids);
    DeleteKeepsGood(b, ids);
    PasteGives(b.(rules := Without(b.rules, ids)), sc, Picked(b.rules, ids), at);
  }

  // ---------------------------------------------------------------- identity over whole runs

  datatype Run = Start(base: Rulebase) | Then(run: Run, op: Op)

  function Origin(run: Run): Rulebase {
    match run
    case Start(b) => b
    case Then(r, _) => Origin(r)
  }

  function End(run: Run, sc: Scopes): State {
    match run
    case Start(b) => State(b, [])
    case Then(r, op) => Done(End(r, sc), sc, op)
  }

  /** The ids an edit hands out. */
  function Issues(s: State, sc: Scopes, op: Op): seq<nat> {
    match op
    case Add(r, at) => if Added(s.base, sc, r, at).Some? then [s.base.nextID] else []
    case Paste(at) =>
      if s.clip != [] && Pasted(s.base, sc, s.clip, at, |s.clip|).Some?
      then seq(|s.clip|, i => s.base.nextID + i) else []
    case _ => []
  }

  /** Every id handed out in a run, in order. */
  function Issued(run: Run, sc: Scopes): seq<nat> {
    match run
    case Start(_) => []
    case Then(r, op) => Issued(r, sc) + Issues(End(r, sc), sc, op)
  }

  /** The 64-bit counter is never exhausted. */
  predicate HasRoom(run: Run, sc: Scopes) {
    match run
    case Start(_) => true
    case Then(r, op) =>
      HasRoom(r, sc) && End(r, sc).base.nextID + |Issues(End(r, sc), sc, op)| <= MAX_ID
  }

  lemma DoneKeepsGood(s: State, sc: Scopes, op: Op)
    requires Good(s.base) && s.base.nextID + |Issues(s, sc, op)| <= MAX_ID
    ensures var t := Done(s, sc, op);
            Good(t.base) && t.base.nextID == s.base.nextID + |Issues(s, sc, op)|
  {
    match op {
      case Add(r, at) =>
        if ScopeOK(sc, r.scope) {
          AddKeepsGood(s.base, sc, r, at);
        }
      case Update(id, r) =>
        if Updated(s.base, sc, id, r).Some? {
          UpdateKeepsGood(s.base, sc, id, r);
        }
      case Delete(ids) =>
        if Deleted(s.base, ids).Some? {
          DeleteKeepsGood(s.base, ids);
        }
      case Move(id, to) =>
        if Moved(s.base, id, to).Some? {
          MoveKeepsGood(s.base, id, to);
        }
      case SetEnabled(id, on) =>
        if Toggled(s.base, id, on).Some? {
          ToggleKeepsGood(s.base, id, on);
        }
      case Copy(ids) =>
      case Cut(ids) =>
        if Deleted(s.base, ids).Some? {
          DeleteKeepsGood(s.base, ids);
        }
      case Paste(at) =>
        if s.clip != [] && Pasted(s.base, sc, s.clip, at, |s.clip|).Some? {
          PasteIsOneBlock(s.base, sc, s.clip, at, |s.clip|);
        }
      case Reload => GoodAssigned(s.base);
    }
  }

  ghost predicate Increasing(s: seq<nat>) {
    forall i, j :: 0 <= i < j < |s| ==> s[i] < s[j]
  }

  lemma IssuesCountUp(earlier: seq<nat>, s: State, sc: Scopes, op: Op)
    requires Increasing(earlier) && forall i :: 0 <= i < |earlier| ==> earlier[i] < s.base.nextID
    ensures var ids := Issues(s, sc, op);
            && Increasing(earlier + ids)
            && (forall i :: 0 <= i < |ids| ==> ids[i] == s.base.nextID + i)
  {
  }

  /** Over every run: rule ids stay assigned, distinct and below the counter, and the ids handed
      out are strictly increasing and above every id the run started with, so none is ever handed
      out twice, even after the rule that had it is deleted. */
  lemma {:induction false} IDsAreNeverReused(run: Run, sc: Scopes)
    requires Good(Origin(run)) && HasRoom(run, sc)
    ensures Good(End(run, sc).base)
    ensures Increasing(Issued(run, sc)) && Origin(run).nextID <= End(run, sc).base.nextID
    ensures forall i :: 0 <= i < |Issued(run, sc)| ==>
              Origin(run).nextID <= Issued(run, sc)[i] < End(run, sc).base.nextID
  {
    if run.Then? {
      IDsAreNeverReused(run.run, sc);
      DoneKeepsGood(End(run.run, sc), sc, run.op);
      IssuesCountUp(Issued(run.run, sc), End(run.run, sc), sc, run.op);
    }
  }

  /** At the top of the 64-bit range the counter wraps: the last id is followed by one that a
      rule already has. */
  lemma ExhaustedCounterReusesID(sc: Scopes, r: Rule, s: Rule)
    requires r.id == 1 && ScopeOK(sc, s.scope)
    ensures var b := Rulebase([r], MAX_ID);
            && Good(b)
            && Added(b, sc, s, -1).Some?
            && var c := Added(b, sc, s, -1).value;
               && Added(c, sc, s, -1).Some?
               && var d := Added(c, sc, s, -1).value;
                  |d.rules| == 3 && d.rules[2].id == d.rules[0].id == 1
  {
    var b := Rulebase([r], MAX_ID);
    AddKeepsGood(b, sc, s, -1);
    var c := Added(b, sc, s, -1).value;
    assert c.rules == [r, s.(id := MAX_ID, scope := sc.lib.trim(s.scope))];
    assert Bumped(c.rules, c.nextID, 1) == 2;
    assert Bumped(c.rules, c.nextID, 2) == 0;
    assert Numbered(c.rules, 1, 1) == Rulebase(c.rules, 1);
    assert Numbered(c.rules, 1, 2) == Rulebase(c.rules, 1);
    assert Assigned(c) == Rulebase(c.rules, 1);
  }
}
