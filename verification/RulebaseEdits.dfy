/** What each edit of the rulebase accepts and what it leaves, stated on the rules themselves. */
module RulebaseEdits {
  import opened Text
  import opened Firewall
  import opened RulebaseRuns

  // ---------------------------------------------------------------- terms

  /** Rule i is the first that carries the id. */
  ghost predicate FirstAt(rules: seq<Rule>, id: nat, i: nat) {
    i < |rules| && rules[i].id == id && forall j :: 0 <= j < i ==> rules[j].id != id
  }

  ghost predicate SomeHas(rules: seq<Rule>, id: nat) {
    exists i :: 0 <= i < |rules| && rules[i].id == id
  }

  /** A scope, once trimmed, is blank or is the name or the id of a network, ignoring case. */
  ghost predicate Known(sc: Scopes, scope: string) {
    var s := sc.lib.trim(scope);
    || s == ""
    || (exists k :: 0 <= k < |sc.nets| && sc.lib.fold(sc.nets[k].name) == sc.lib.fold(s))
    || (exists k :: 0 <= k < |sc.nets| && sc.lib.fold(sc.nets[k].id) == sc.lib.fold(s))
  }

  /** The rulebases differ in rule i only, and not in the counter. */
  ghost predicate OnlyAt(a: Rulebase, b: Rulebase, i: nat) {
    && b.nextID == a.nextID && |b.rules| == |a.rules|
    && forall j :: 0 <= j < |a.rules| && j != i ==> b.rules[j] == a.rules[j]
  }

  lemma FirstFound(rules: seq<Rule>, id: nat)
    ensures SomeHas(rules, id) <==> IndexOfID(rules, id) >= 0
    ensures IndexOfID(rules, id) >= 0 ==> FirstAt(rules, id, IndexOfID(rules, id))
  {
  }

  lemma KnownIsAccepted(sc: Scopes, scope: string)
    ensures Known(sc, scope) <==> ScopeOK(sc, scope)
  {
    var s := sc.lib.trim(scope);
    assert forall k :: 0 <= k < |sc.nets| ==>
        (ScopeNames(sc.lib, sc.nets[k], s) <==>
         sc.lib.fold(sc.nets[k].name) == sc.lib.fold(s) || sc.lib.fold(sc.nets[k].id) == sc.lib.fold(s));
  }

  // ---------------------------------------------------------------- one edit

  /** An update is accepted if and only if some rule has the id and the scope is known. The first
      such rule then does and matches exactly what was given, switch included, under the id it
      had; every other rule and the counter are as before. */
  lemma UpdateExactly(b: Rulebase, sc: Scopes, id: nat, r: Rule)
    ensures Updated(b, sc, id, r).Some? <==> SomeHas(b.rules, id) && Known(sc, r.scope)
    ensures forall i: nat :: Updated(b, sc, id, r).Some? && FirstAt(b.rules, id, i) ==>
              var c := Updated(b, sc, id, r).value;
              OnlyAt(b, c, i) && c.rules[i] == Rule(id, r.disabled, sc.lib.trim(r.scope), r.body)
  {
    FirstFound(b.rules, id);
    KnownIsAccepted(sc, r.scope);
  }

  /** Switching is accepted if and only if some rule has the id, and changes nothing but that
      rule's switch. */
  lemma SwitchExactly(b: Rulebase, id: nat, on: bool)
    ensures Toggled(b, id, on).Some? <==> SomeHas(b.rules, id)
    ensures forall i: nat :: SomeHas(b.rules, id) && FirstAt(b.rules, id, i) ==>
              var c := Toggled(b, id, on).value;
              OnlyAt(b, c, i) && c.rules[i] == Rule(id, !on, b.rules[i].scope, b.rules[i].body)
  {
    FirstFound(b.rules, id);
  }

  /** A move is accepted if and only if some rule has the id and the place is one of the rulebase's. */
  lemma MoveAccepted(b: Rulebase, id: nat, to: int)
    ensures Moved(b, id, to).Some? <==> SomeHas(b.rules, id) && 0 <= to < |b.rules|
  {
    FirstFound(b.rules, id);
  }

  lemma {:induction false} NoneTaken(rules: seq<Rule>, ids: seq<nat>)
    ensures |Without(rules, ids)| == |rules| <==> forall r :: r in rules ==> r.id !in ids
    ensures |Without(rules, ids)| <= |rules|
  {
    if rules != [] {
      var n := |rules| - 1;
      assert rules == rules[..n] + [rules[n]];
      NoneTaken(rules[..n], ids);
    }
  }

  /** A deletion is accepted if and only if some rule has one of the ids. */
  lemma DeleteAccepted(b: Rulebase, ids: seq<nat>)
    ensures Deleted(b, ids).Some? <==> exists r :: r in b.rules && r.id in ids
  {
    NoneTaken(b.rules, ids);
  }

  /** An addition is accepted if and only if the scope is known. */
  lemma AddAccepted(b: Rulebase, sc: Scopes, r: Rule, at: int)
    ensures Added(b, sc, r, at).Some? <==> Known(sc, r.scope)
  {
    KnownIsAccepted(sc, r.scope);
  }

  lemma PasteOneAccepted(b: Rulebase, sc: Scopes, clip: seq<Rule>, at: int, i: nat)
    requires i < |clip|
    ensures PastedOne(b, sc, clip, at, i).Some? <==> Known(sc, clip[i].scope)
  {
    AddAccepted(b, sc, clip[i].(id := 0), if at >= 0 then at + i else at);
  }

  lemma PasteGoesOn(b: Rulebase, sc: Scopes, clip: seq<Rule>, at: int, n: nat)
    requires n < |clip|
    ensures Pasted(b, sc, clip, at, n + 1).Some? <==> Pasted(b, sc, clip, at, n).Some? && Known(sc, clip[n].scope)
  {
    match Pasted(b, sc, clip, at, n) {
      case Some(c) =>
        PasteOneAccepted(c, sc, clip, at, n);
        assert Pasted(b, sc, clip, at, n + 1) == PastedOne(c, sc, clip, at, n);
      case None => PasteStops(b, sc, clip, at, n);
    }
  }

  /** The scopes of the first n rules of the clip are known. */
  ghost predicate AllKnown(sc: Scopes, clip: seq<Rule>, n: nat)
    requires n <= |clip|
  {
    forall i :: 0 <= i < n ==> Known(sc, clip[i].scope)
  }

  lemma OneMoreKnown(sc: Scopes, clip: seq<Rule>, n: nat)
    requires n < |clip|
    ensures AllKnown(sc, clip, n + 1) <==> AllKnown(sc, clip, n) && Known(sc, clip[n].scope)
  {
  }

  /** A paste is accepted if and only if every scope of the clip is known. */
  lemma {:induction false} PasteAccepted(b: Rulebase, sc: Scopes, clip: seq<Rule>, at: int, n: nat)
    requires n <= |clip|
    ensures Pasted(b, sc, clip, at, n).Some? <==> AllKnown(sc, clip, n)
  {
    if n > 0 {
      PasteAccepted(b, sc, clip, at, n - 1);
      PasteGoesOn(b, sc, clip, at, n - 1);
      OneMoreKnown(sc, clip, n - 1);
    }
  }

  // ---------------------------------------------------------------- through the control surface

  /** A refused edit saves nothing. */
  ghost predicate Accepted(s: State, sc: Scopes, op: Op) {
    match op
    case Add(r, _) => Known(sc, r.scope)
    case Update(id, r) => SomeHas(s.base.rules, id) && Known(sc, r.scope)
    case Delete(ids) => exists r :: r in s.base.rules && r.id in ids
    case Move(id, to) => SomeHas(s.base.rules, id) && 0 <= to < |s.base.rules|
    case SetEnabled(id, _) => SomeHas(s.base.rules, id)
    case Copy(_) => false
    case Cut(ids) => exists r :: r in s.base.rules && r.id in ids
    case Paste(_) => s.clip != [] && AllKnown(sc, s.clip, |s.clip|)
    case Reload => true
  }

  lemma PickedSome(rules: seq<Rule>, ids: seq<nat>)
    ensures Picked(rules, ids) != [] <==> exists r :: r in rules && r.id in ids
  {
    SplitInOrder(rules, ids);
    if Picked(rules, ids) != [] {
      assert Picked(rules, ids)[0] in Picked(rules, ids);
    }
  }

  /** Every edit that is not accepted leaves the saved rulebase alone, and every edit but copying
      and cutting leaves the clip alone; these two replace it by the rules picked, if there are
      any. */
  lemma RefusedSavesNothing(s: State, sc: Scopes, op: Op)
    ensures !Accepted(s, sc, op) ==> Done(s, sc, op).base == s.base
    ensures var picks := op.Copy? || op.Cut?;
            Done(s, sc, op).clip ==
            if picks && Picked(s.base.rules, op.ids) != [] then Picked(s.base.rules, op.ids) else s.clip
  {
    match op {
      case Add(r, at) => AddAccepted(s.base, sc, r, at);
      case Update(id, r) => UpdateExactly(s.base, sc, id, r);
      case Delete(ids) => DeleteAccepted(s.base, ids);
      case Move(id, to) => MoveAccepted(s.base, id, to);
      case SetEnabled(id, on) => SwitchExactly(s.base, id, on);
      case Copy(_) =>
      case Cut(ids) => PickedSome(s.base.rules, ids);
      case Paste(at) => PasteAccepted(s.base, sc, s.clip, at, |s.clip|);
      case Reload =>
    }
  }

  /** Saved edits of one rule: each touches exactly what it names. */
  lemma SavedEdits(s: State, sc: Scopes, id: nat, i: nat, r: Rule, on: bool)
    requires FirstAt(s.base.rules, id, i)
    ensures Known(sc, r.scope) ==>
              var b := Done(s, sc, Update(id, r)).base;
              OnlyAt(s.base, b, i) && b.rules[i] == Rule(id, r.disabled, sc.lib.trim(r.scope), r.body)
    ensures var b := Done(s, sc, SetEnabled(id, on)).base;
            OnlyAt(s.base, b, i) && b.rules[i] == Rule(id, !on, s.base.rules[i].scope, s.base.rules[i].body)
  {
    UpdateExactly(s.base, sc, id, r);
    SwitchExactly(s.base, id, on);
    assert SomeHas(s.base.rules, id);
  }

  /** A saved move puts the rule at its new place and leaves the others in order. */
  lemma SavedMove(s: State, sc: Scopes, id: nat, i: nat, to: nat)
    requires FirstAt(s.base.rules, id, i) && to < |s.base.rules|
    ensures var b := Done(s, sc, Move(id, to)).base;
            && |b.rules| == |s.base.rules| && b.nextID == s.base.nextID && b.rules[to] == s.base.rules[i]
            && Remove(b.rules, to) == Remove(s.base.rules, i)
  {
    assert SomeHas(s.base.rules, id);
    MoveAccepted(s.base, id, to);
    assert IndexOfID(s.base.rules, id) == i;
    MoveIsExact(s.base, id, to);
  }

  /** A deletion or a cut saves exactly the other rules, in order, and the counter as it was. */
  lemma SavedRemovals(s: State, sc: Scopes, ids: seq<nat>)
    requires exists r :: r in s.base.rules && r.id in ids
    ensures Done(s, sc, Cut(ids)).base == Done(s, sc, Delete(ids)).base
    ensures var b := Done(s, sc, Delete(ids)).base;
            && b.nextID == s.base.nextID && InOrder(b.rules, s.base.rules)
            && |b.rules| + |Picked(s.base.rules, ids)| == |s.base.rules|
            && forall r :: r in b.rules <==> r in s.base.rules && r.id !in ids
  {
    DeleteAccepted(s.base, ids);
    PickedSome(s.base.rules, ids);
    SplitInOrder(s.base.rules, ids);
  }

  // ---------------------------------------------------------------- assigning ids

  lemma {:induction false} NumberedKeeps(rules: seq<Rule>, next: nat, n: nat)
    requires n <= |rules|
    ensures var b := Numbered(rules, next, n);
            && |b.rules| == |rules|
            && forall i :: 0 <= i < |rules| ==>
                 && b.rules[i] == rules[i].(id := b.rules[i].id)
                 && (rules[i].id != 0 || i >= n ==> b.rules[i].id == rules[i].id)
  {
    if n > 0 {
      NumberedKeeps(rules, next, n - 1);
    }
  }

  /** Assigning ids touches nothing but the ids of rules that have none. */
  lemma AssignedKeeps(b: Rulebase)
    ensures var a := Assigned(b);
            && |a.rules| == |b.rules|
            && forall i :: 0 <= i < |b.rules| ==>
                 && a.rules[i] == b.rules[i].(id := a.rules[i].id)
                 && (b.rules[i].id != 0 ==> a.rules[i].id == b.rules[i].id)
  {
    var m := Bumped(b.rules, b.nextID, |b.rules|);
    NumberedKeeps(b.rules, if m == 0 then 1 else m, |b.rules|);
  }
}
