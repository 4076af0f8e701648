/** Which rules carry which ids over a whole run of edits, and exactly when the counter lasts. */
module RuleHistory {
  import opened Text
  import opened Firewall
  import opened RulebaseRuns

  ghost predicate HasID(rules: seq<Rule>, id: nat) {
    exists i :: 0 <= i < |rules| && rules[i].id == id
  }

  lemma HasIDConcat(a: seq<Rule>, b: seq<Rule>, id: nat)
    ensures HasID(a + b, id) <==> HasID(a, id) || HasID(b, id)
  {
    var all := a + b;
    assert forall i :: 0 <= i < |a| ==> all[i] == a[i];
    assert forall i :: 0 <= i < |b| ==> all[|a| + i] == b[i];
  }

  lemma HasIDMember(rules: seq<Rule>, id: nat)
    ensures HasID(rules, id) <==> exists r :: r in rules && r.id == id
  {
    if HasID(rules, id) {
      var i :| 0 <= i < |rules| && rules[i].id == id;
      assert rules[i] in rules;
    }
  }

  lemma SameMembers(a: seq<Rule>, b: seq<Rule>, id: nat)
    requires forall r :: r in a ==> r in b
    ensures HasID(a, id) ==> HasID(b, id)
  {
    HasIDMember(a, id);
    HasIDMember(b, id);
  }

  /** What an edit brings in: the ids of `issued` and no other. */
  ghost predicate BringsIn(before: seq<Rule>, after: seq<Rule>, issued: seq<nat>) {
    && (forall id: nat :: HasID(after, id) ==> HasID(before, id) || id in issued)
    && (forall id: nat :: id in issued ==> HasID(after, id) && !HasID(before, id))
  }

  lemma InsertedBlock(rules: seq<Rule>, k: nat, block: seq<Rule>, next: nat)
    requires k <= |rules| && forall i :: 0 <= i < |rules| ==> rules[i].id < next
    requires forall i :: 0 <= i < |block| ==> block[i].id == next + i
    ensures BringsIn(rules, rules[..k] + block + rules[k..], seq(|block|, i => next + i))
  {
    var issued := seq(|block|, i => next + i);
    forall id: nat
      ensures HasID(rules[..k] + block + rules[k..], id) <==> HasID(rules, id) || HasID(block, id)
      ensures HasID(block, id) <==> id in issued
      ensures HasID(block, id) ==> !HasID(rules, id)
    {
      assert rules == rules[..k] + rules[k..];
      HasIDConcat(rules[..k], rules[k..], id);
      HasIDConcat(rules[..k], block, id);
      HasIDConcat(rules[..k] + block, rules[k..], id);
      if id in issued {
        var i :| 0 <= i < |issued| && issued[i] == id;
        assert block[i].id == id;
      }
      if HasID(block, id) {
        var i :| 0 <= i < |block| && block[i].id == id;
        assert issued[i] == id;
      }
    }
  }

  lemma SameIDsBringNothing(before: seq<Rule>, after: seq<Rule>)
    requires SameIDs(after, before)
    ensures BringsIn(before, after, [])
  {
    forall id: nat | HasID(after, id)
      ensures HasID(before, id)
    {
      var i :| 0 <= i < |after| && after[i].id == id;
      assert before[i].id == id;
    }
  }

  lemma FewerBringNothing(before: seq<Rule>, after: seq<Rule>)
    requires forall r :: r in after ==> r in before
    ensures BringsIn(before, after, [])
  {
    forall id: nat
      ensures HasID(after, id) ==> HasID(before, id)
    {
      SameMembers(after, before, id);
    }
  }

  lemma AddBringsIn(s: State, sc: Scopes, r: Rule, at: int)
    requires Good(s.base) && Added(s.base, sc, r, at).Some?
    ensures BringsIn(s.base.rules, Added(s.base, sc, r, at).value.rules, [s.base.nextID])
  {
    var b := s.base;
    var stored := r.(id := b.nextID, scope := sc.lib.trim(r.scope));
    AddKeepsGood(b, sc, r, at);
    InsertedBlock(b.rules, PasteAt(b.rules, at), [stored], b.nextID);
    assert seq(1, i => b.nextID + i) == [b.nextID];
  }

  lemma PasteBringsIn(s: State, sc: Scopes, at: int)
    requires Good(s.base) && s.clip != [] && Pasted(s.base, sc, s.clip, at, |s.clip|).Some?
    requires s.base.nextID + |s.clip| <= MAX_ID
    ensures BringsIn(s.base.rules, Pasted(s.base, sc, s.clip, at, |s.clip|).value.rules,
                     seq(|s.clip|, i => s.base.nextID + i))
  {
    PasteIsOneBlock(s.base, sc, s.clip, at, |s.clip|);
    InsertedBlock(s.base.rules, PasteAt(s.base.rules, at), Block(sc, s.clip, s.base.nextID, |s.clip|), s.base.nextID);
  }

  lemma KeepBringsNothing(s: State, sc: Scopes, op: Op)
    requires Good(s.base) && !op.Add? && !op.Paste?
    ensures BringsIn(s.base.rules, Done(s, sc, op).base.rules, [])
  {
    var rules, after := s.base.rules, Done(s, sc, op).base.rules;
    match op {
      case Update(id, r) =>
        if Updated(s.base, sc, id, r).Some? {
          UpdateKeepsGood(s.base, sc, id, r);
        }
        SameIDsBringNothing(rules, after);
      case Delete(ids) =>
        WithoutIDs(rules, ids);
        FewerBringNothing(rules, after);
      case Move(id, to) =>
        if Moved(s.base, id, to).Some? {
          MoveKeepsGood(s.base, id, to);
        }
        FewerBringNothing(rules, after);
      case SetEnabled(id, on) =>
        if Toggled(s.base, id, on).Some? {
          ToggleKeepsGood(s.base, id, on);
        }
        SameIDsBringNothing(rules, after);
      case Copy(_) => SameIDsBringNothing(rules, after);
      case Cut(ids) =>
        WithoutIDs(rules, ids);
        FewerBringNothing(rules, after);
      case Reload =>
        GoodAssigned(s.base);
        SameIDsBringNothing(rules, after);
    }
  }

  /** The ids an edit is said to issue are exactly those of the rules it brings in: every id in the
      rulebase afterwards was there before or is issued, and every issued one is new and there. */
  lemma EditBringsInWhatItIssues(s: State, sc: Scopes, op: Op)
    requires Good(s.base) && s.base.nextID + |Issues(s, sc, op)| <= MAX_ID
    ensures BringsIn(s.base.rules, Done(s, sc, op).base.rules, Issues(s, sc, op))
  {
    var rules := s.base.rules;
    match op {
      case Add(r, at) =>
        if Added(s.base, sc, r, at).Some? {
          AddBringsIn(s, sc, r, at);
        } else {
          SameIDsBringNothing(rules, rules);
        }
      case Paste(at) =>
        if s.clip != [] && Pasted(s.base, sc, s.clip, at, |s.clip|).Some? {
          PasteBringsIn(s, sc, at);
        } else {
          SameIDsBringNothing(rules, rules);
        }
      case _ => KeepBringsNothing(s, sc, op);
    }
  }

  // ---------------------------------------------------------------- ids that left

  /** `run` goes on from `prefix`. */
  predicate Continues(run: Run, prefix: Run) {
    run == prefix || (run.Then? && Continues(run.run, prefix))
  }

  lemma {:induction false} RoomBefore(run: Run, prefix: Run, sc: Scopes)
    requires Continues(run, prefix) && HasRoom(run, sc)
    ensures HasRoom(prefix, sc) && Origin(prefix) == Origin(run)
  {
    if run != prefix {
      RoomBefore(run.run, prefix, sc);
    }
  }

  /** An id below the counter that no rule has (it was deleted, or never used) is never seen
      again, however the run goes on. */
  lemma {:induction false} NoIDReturns(run: Run, prefix: Run, sc: Scopes, id: nat)
    requires Good(Origin(run)) && HasRoom(run, sc) && Continues(run, prefix)
    requires id < End(prefix, sc).base.nextID && !HasID(End(prefix, sc).base.rules, id)
    ensures !HasID(End(run, sc).base.rules, id) && id < End(run, sc).base.nextID
  {
    if run != prefix {
      var s := End(run.run, sc);
      NoIDReturns(run.run, prefix, sc, id);
      IDsAreNeverReused(run.run, sc);
      EditBringsInWhatItIssues(s, sc, run.op);
      IssuesCountUp([], s, sc, run.op);
      DoneKeepsGood(s, sc, run.op);
    }
  }

  /** In particular a rule deleted or cut by the last edit of a run never lends its id again. */
  lemma DeletedIDNeverReturns(run: Run, prefix: Run, sc: Scopes, id: nat)
    requires Good(Origin(run)) && HasRoom(run, sc) && Continues(run, prefix) && prefix.Then?
    requires HasID(End(prefix.run, sc).base.rules, id) && !HasID(End(prefix, sc).base.rules, id)
    ensures !HasID(End(run, sc).base.rules, id)
  {
    RoomBefore(run, prefix, sc);
    IDsAreNeverReused(prefix.run, sc);
    DoneKeepsGood(End(prefix.run, sc), sc, prefix.op);
    NoIDReturns(run, prefix, sc, id);
  }

  // ---------------------------------------------------------------- the counter's room is exact

  /** Ids are in order at every point of the run. */
  ghost predicate GoodAlong(run: Run, sc: Scopes) {
    Good(End(run, sc).base) && (run.Then? ==> GoodAlong(run.run, sc))
  }

  lemma {:induction false} NumberedKeeps(rules: seq<Rule>, next: nat, n: nat, i: nat)
    requires n <= |rules| && i < |rules| && rules[i].id != 0
    ensures Numbered(rules, next, n).rules[i] == rules[i]
  {
    if n > 0 {
      NumberedKeeps(rules, next, n - 1, i);
    }
  }

  lemma AssignedKeepsLargest(b: Rulebase)
    requires HasID(b.rules, MAX_ID)
    ensures HasID(Assigned(b).rules, MAX_ID)
  {
    var i :| 0 <= i < |b.rules| && b.rules[i].id == MAX_ID;
    var m := Bumped(b.rules, b.nextID, |b.rules|);
    NumberedKeeps(b.rules, if m == 0 then 1 else m, |b.rules|, i);
    assert Assigned(b).rules[i].id == MAX_ID;
  }

  lemma InsertHasID(rules: seq<Rule>, r: Rule, at: int, id: nat)
    ensures HasID(Insert(rules, r, at), id) <==> HasID(rules, id) || r.id == id
  {
    var k := InsertAt(rules, r, at);
    assert rules == rules[..k] + rules[k..];
    assert HasID([r], id) <==> r.id == id by {
      assert [r][0] == r;
    }
    HasIDConcat(rules[..k], rules[k..], id);
    HasIDConcat(rules[..k], [r], id);
    HasIDConcat(rules[..k] + [r], rules[k..], id);
  }

  /** A rule with the largest id stays, and the last id handed out is that id. */
  lemma AddedHasLargest(b: Rulebase, sc: Scopes, r: Rule, at: int)
    requires Added(b, sc, r, at).Some?
    requires HasID(b.rules, MAX_ID) || (Good(b) && b.nextID == MAX_ID)
    ensures HasID(Added(b, sc, r, at).value.rules, MAX_ID)
  {
    var a := Assigned(b);
    InsertHasID(a.rules, r.(id := a.nextID, scope := sc.lib.trim(r.scope)), at, MAX_ID);
    if HasID(b.rules, MAX_ID) {
      AssignedKeepsLargest(b);
    } else {
      GoodAssigned(b);
    }
  }

  lemma LargestIsNotGood(b: Rulebase)
    requires HasID(b.rules, MAX_ID)
    ensures !Good(b)
  {
  }

  lemma {:induction false} PastedHasLargest(b: Rulebase, sc: Scopes, clip: seq<Rule>, at: int, n: nat)
    requires Good(b) && n <= |clip| && Pasted(b, sc, clip, at, n).Some? && b.nextID + n > MAX_ID
    ensures HasID(Pasted(b, sc, clip, at, n).value.rules, MAX_ID)
  {
    var k := n - 1;
    var c := Pasted(b, sc, clip, at, k).value;
    if b.nextID + k > MAX_ID {
      PastedHasLargest(b, sc, clip, at, k);
    } else {
      PasteIsOneBlock(b, sc, clip, at, k);
    }
    AddedHasLargest(c, sc, clip[k].(id := 0), if at >= 0 then at + k else at);
  }

  lemma NoRoomIsNotGood(s: State, sc: Scopes, op: Op)
    requires Good(s.base) && s.base.nextID + |Issues(s, sc, op)| > MAX_ID
    ensures !Good(Done(s, sc, op).base)
  {
    match op {
      case Add(r, at) => AddedHasLargest(s.base, sc, r, at);
      case Paste(at) => PastedHasLargest(s.base, sc, s.clip, at, |s.clip|);
    }
    LargestIsNotGood(Done(s, sc, op).base);
  }

  /** From ids in order, they are in order at every point of a run if and only if the counter has
      room for every id the run issues. */
  lemma {:induction false} RoomIsExact(run: Run, sc: Scopes)
    requires Good(Origin(run))
    ensures GoodAlong(run, sc) <==> HasRoom(run, sc)
  {
    if run.Then? {
      var s := End(run.run, sc);
      RoomIsExact(run.run, sc);
      if GoodAlong(run.run, sc) {
        if s.base.nextID + |Issues(s, sc, run.op)| <= MAX_ID {
          DoneKeepsGood(s, sc, run.op);
        } else {
          NoRoomIsNotGood(s, sc, run.op);
        }
      }
    }
  }
}
