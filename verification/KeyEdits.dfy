/** What the slots hold after a fold, an import or an edit, slot by slot. */
module KeyEdits {
  import opened Text
  import opened Keys
  import opened Sets

  // ---------------------------------------------------------------- folding

  /** Entry j of the first n is the learned key that slot i of s already holds first. */
  ghost predicate Reconciles(s: Slots, ps: seq<Learned>, n: nat, i: nat, j: nat)
    requires n <= |ps| && i < SLOTS
  {
    j < n && ps[j].key == s[i].key != "" && forall k :: 0 <= k < i ==> s[k].key != s[i].key
  }

  /** A free slot now has a learned key that was in no slot: under the mesh's label and expiry,
      enabled, distributed, without notes. */
  ghost predicate FilledFrom(s: Slots, ps: seq<Learned>, n: nat, k: KeySlot)
    requires n <= |ps|
  {
    exists j :: 0 <= j < n && !HasKey(s, ps[j].key) &&
      k == KeySlot(ps[j].key, ps[j].title, true, ps[j].expires, true, "")
  }

  /** Slot i after the first n learned keys. */
  ghost predicate FoldsTo(s: Slots, ps: seq<Learned>, n: nat, i: nat, k: KeySlot)
    requires n <= |ps| && i < SLOTS
  {
    if s[i].key == "" then k == s[i] || FilledFrom(s, ps, n, k)
    else
      && (forall j: nat :: Reconciles(s, ps, n, i, j) ==>
            k == KeySlot(s[i].key, ps[j].title, s[i].enabled, ps[j].expires, s[i].distributed, s[i].notes))
      && ((forall j: nat :: !Reconciles(s, ps, n, i, j)) ==> k == s[i])
  }

  lemma HasIsFound(s: Slots, key: string)
    ensures HasKey(s, key) <==> Find(s, key) >= 0
  {
  }

  /** The next learned key is in u exactly if it was in s, and then in the same first slot. */
  lemma FoundWhereItWas(s: Slots, ps: seq<Learned>, n: nat)
    requires n < |ps| && DistinctLearned(ps)
    requires forall i :: 0 <= i < SLOTS ==> FoldsTo(s, ps, n, i, Folded(s, ps, n)[i])
    ensures Find(Folded(s, ps, n), ps[n].key) == Find(s, ps[n].key)
  {
    var u, key := Folded(s, ps, n), ps[n].key;
    FoldKeeps(s, ps, n);
    forall i | 0 <= i < SLOTS
      ensures u[i].key == key <==> s[i].key == key
    {
      assert FoldsTo(s, ps, n, i, u[i]);
    }
  }

  lemma FoldStep(s: Slots, ps: seq<Learned>, n: nat, i: nat)
    requires n < |ps| && i < SLOTS && DistinctLearned(ps)
    requires Find(Folded(s, ps, n), ps[n].key) == Find(s, ps[n].key) && FoldsTo(s, ps, n, i, Folded(s, ps, n)[i])
    ensures FoldsTo(s, ps, n + 1, i, Folded(s, ps, n + 1)[i])
  {
    var u, t, p := Folded(s, ps, n), Folded(s, ps, n + 1), ps[n];
    FoldKeeps(s, ps, n);
    HasIsFound(s, p.key);
    assert FilledFrom(s, ps, n, u[i]) ==> FilledFrom(s, ps, n + 1, u[i]);
    if s[i].key == "" {
      if t[i] != u[i] {
        assert t[i] == KeySlot(p.key, p.title, true, p.expires, true, "");
        assert FilledFrom(s, ps, n + 1, t[i]);
      }
    } else if Find(s, p.key) == i {
      var more := n + 1;
      assert Reconciles(s, ps, more, i, n);
      assert forall j: nat :: Reconciles(s, ps, more, i, j) ==> j == n;
      assert forall j: nat :: !Reconciles(s, ps, n, i, j);
    } else {
      assert t[i] == u[i];
      assert forall j: nat :: Reconciles(s, ps, n + 1, i, j) <==> Reconciles(s, ps, n, i, j);
    }
  }

  /** Every slot after a fold: a slot that held a key keeps it, its switch, its mark and its notes,
      and has the mesh's label and expiry if it is the first with a learned key; a free slot is as
      it was or holds one new learned key, enabled and marked; and a learned key is in no slot only
      if none is free. */
  lemma {:induction false} FoldHolds(s: Slots, ps: seq<Learned>, n: nat)
    requires n <= |ps| && DistinctLearned(ps)
    ensures forall i :: 0 <= i < SLOTS ==> FoldsTo(s, ps, n, i, Folded(s, ps, n)[i])
    ensures forall j :: 0 <= j < n ==> HasKey(Folded(s, ps, n), ps[j].key) || !HasKey(Folded(s, ps, n), "")
  {
    var t := Folded(s, ps, n);
    if n > 0 {
      FoldHolds(s, ps, n - 1);
      FoundWhereItWas(s, ps, n - 1);
      forall i | 0 <= i < SLOTS
        ensures FoldsTo(s, ps, n, i, t[i])
      {
        FoldStep(s, ps, n - 1, i);
      }
    }
    forall j | 0 <= j < n
      ensures HasKey(t, ps[j].key) || !HasKey(t, "")
    {
      FoldSettles(s, ps, n, j);
      HasIsFound(t, ps[j].key);
      HasIsFound(t, "");
    }
  }

  /** The lowest slot without a key. */
  ghost predicate LowestFree(s: Slots, i: nat) {
    i < SLOTS && s[i].key == "" && forall k :: 0 <= k < i ==> s[k].key != ""
  }

  /** A key that is new when its turn comes goes to the slot it hints at when that is free, and to
      the lowest free one otherwise. */
  lemma FoldPlaces(s: Slots, ps: seq<Learned>, j: nat, i: nat)
    requires j < |ps| && ps[j].key != "" && !HasKey(Folded(s, ps, j), ps[j].key)
    requires var u := Folded(s, ps, j);
             if 0 <= ps[j].hint < SLOTS && u[ps[j].hint].key == "" then i == ps[j].hint else LowestFree(u, i)
    ensures Folded(s, ps, j + 1) ==
            Folded(s, ps, j)[i := KeySlot(ps[j].key, ps[j].title, true, ps[j].expires, true, "")]
  {
    var u := Folded(s, ps, j);
    HasIsFound(u, ps[j].key);
    assert LowestFree(u, i) ==> Find(u, "") == i;
  }

  // ---------------------------------------------------------------- importing

  /** The keys among the first n that no slot of s has. */
  function Lacking(s: Slots, ks: seq<TokenKey>, n: nat): set<string>
    requires n <= |ks|
  {
    set i | 0 <= i < n && !HasKey(s, ks[i].key) :: ks[i].key
  }

  function FreeSlots(s: Slots): set<nat> {
    set i | 0 <= i < SLOTS && s[i].key == ""
  }

  /** A free slot now has a token's key that was in no slot, under its label or a default one,
      enabled, not distributed, without notes. */
  ghost predicate ImportedInto(s: Slots, ks: seq<TokenKey>, n: nat, i: nat, k: KeySlot)
    requires n <= |ks|
  {
    exists j :: 0 <= j < n && !HasKey(s, ks[j].key) &&
      k == KeySlot(ks[j].key, if ks[j].title == "" then "key" + Decimal(i) else ks[j].title,
                   true, ks[j].expires, false, "")
  }

  /** Occupied slots are as before; a free one is as before or holds a key that was missing, the
      lowest being filled first; the keys held are those held before and those offered; and as many
      slots were filled as keys were missing. */
  ghost predicate ImportsTo(s: Slots, ks: seq<TokenKey>, n: nat, t: Slots)
    requires n <= |ks|
  {
    && (forall i :: 0 <= i < SLOTS ==> t[i] == s[i] || (s[i].key == "" && ImportedInto(s, ks, n, i, t[i])))
    && (forall i, k :: 0 <= i < k < SLOTS && t[i].key == "" ==> t[k] == s[k])
    && (forall key :: key != "" ==> (HasKey(t, key) <==> HasKey(s, key) || key in Lacking(s, ks, n)))
    && FreeSlots(t) <= FreeSlots(s)
    && |FreeSlots(t)| + |Lacking(s, ks, n)| == |FreeSlots(s)|
  }

  lemma LackingStep(s: Slots, ks: seq<TokenKey>, n: nat)
    requires n < |ks|
    ensures Lacking(s, ks, n + 1) == Lacking(s, ks, n) + if HasKey(s, ks[n].key) then {} else {ks[n].key}
  {
  }

  lemma FillStep(t: Slots, f: nat, k: KeySlot)
    requires f < SLOTS && t[f].key == "" != k.key
    ensures FreeSlots(t[f := k]) == FreeSlots(t) - {f} && f in FreeSlots(t)
    ensures forall key :: key != "" ==> (HasKey(t[f := k], key) <==> HasKey(t, key) || key == k.key)
  {
    var u := t[f := k];
    assert u[f].key == k.key;
    forall key | key != "" && HasKey(t, key)
      ensures HasKey(u, key)
    {
      var i :| 0 <= i < SLOTS && t[i].key == key;
      assert u[i].key == key;
    }
  }

  lemma MoreOffered(s: Slots, ks: seq<TokenKey>, n: nat, i: nat, k: KeySlot)
    requires n < |ks| && ImportedInto(s, ks, n, i, k)
    ensures ImportedInto(s, ks, n + 1, i, k)
  {
  }

  lemma ImportHeld(s: Slots, ks: seq<TokenKey>, n: nat, t: Slots)
    requires n < |ks| && ks[n].key != "" && ImportsTo(s, ks, n, t) && HasKey(t, ks[n].key)
    ensures ImportsTo(s, ks, n + 1, t)
  {
    LackingStep(s, ks, n);
    assert Lacking(s, ks, n + 1) == Lacking(s, ks, n);
    forall i | 0 <= i < SLOTS && t[i] != s[i]
      ensures ImportedInto(s, ks, n + 1, i, t[i])
    {
      MoreOffered(s, ks, n, i, t[i]);
    }
  }

  lemma ImportCounts(s: Slots, ks: seq<TokenKey>, n: nat, t: Slots, f: nat, slot: KeySlot)
    requires n < |ks| && ks[n].key != "" && ImportsTo(s, ks, n, t) && !HasKey(t, ks[n].key)
    requires f < SLOTS && t[f].key == "" && slot.key == ks[n].key
    ensures var u := t[f := slot];
            && FreeSlots(u) <= FreeSlots(s) && f in FreeSlots(s)
            && |FreeSlots(u)| + |Lacking(s, ks, n + 1)| == |FreeSlots(s)|
  {
    LackingStep(s, ks, n);
    FillStep(t, f, slot);
    assert ks[n].key !in Lacking(s, ks, n) && !HasKey(s, ks[n].key);
  }

  lemma ImportedKeys(s: Slots, ks: seq<TokenKey>, n: nat, t: Slots, f: nat, slot: KeySlot, key: string)
    requires n < |ks| && ks[n].key != "" && ImportsTo(s, ks, n, t) && !HasKey(t, ks[n].key) && key != ""
    requires f < SLOTS && t[f].key == "" && slot.key == ks[n].key
    ensures HasKey(t[f := slot], key) <==> HasKey(s, key) || key in Lacking(s, ks, n + 1)
  {
    LackingStep(s, ks, n);
    FillStep(t, f, slot);
  }

  lemma ImportedSlots(s: Slots, ks: seq<TokenKey>, n: nat, t: Slots, f: nat, slot: KeySlot, i: nat)
    requires n < |ks| && ImportsTo(s, ks, n, t) && f < SLOTS && t[f].key == "" && i < SLOTS
    requires ImportedInto(s, ks, n + 1, f, slot) && forall j :: 0 <= j < f ==> t[j].key != ""
    ensures var u := t[f := slot];
            && (u[i] == s[i] || (s[i].key == "" && ImportedInto(s, ks, n + 1, i, u[i])))
            && (slot.key != "" && u[i].key == "" ==> forall k :: i < k < SLOTS ==> u[k] == s[k])
  {
    assert f in FreeSlots(t);
    if i != f && t[i] != s[i] {
      MoreOffered(s, ks, n, i, t[i]);
    }
  }

  lemma ImportFills(s: Slots, ks: seq<TokenKey>, n: nat, t: Slots, f: nat, slot: KeySlot)
    requires n < |ks| && ks[n].key != "" && ImportsTo(s, ks, n, t) && !HasKey(t, ks[n].key)
    requires f < SLOTS && t[f].key == "" && slot.key == ks[n].key
    requires ImportedInto(s, ks, n + 1, f, slot) && forall j :: 0 <= j < f ==> t[j].key != ""
    ensures ImportsTo(s, ks, n + 1, t[f := slot])
  {
    var u := t[f := slot];
    ImportCounts(s, ks, n, t, f, slot);
    forall i | 0 <= i < SLOTS
      ensures u[i] == s[i] || (s[i].key == "" && ImportedInto(s, ks, n + 1, i, u[i]))
      ensures u[i].key == "" ==> forall k :: i < k < SLOTS ==> u[k] == s[k]
    {
      ImportedSlots(s, ks, n, t, f, slot, i);
    }
    forall key | key != ""
      ensures HasKey(u, key) <==> HasKey(s, key) || key in Lacking(s, ks, n + 1)
    {
      ImportedKeys(s, ks, n, t, f, slot, key);
    }
  }

  lemma ImportSteps(s: Slots, ks: seq<TokenKey>, n: nat, t: Slots)
    requires n < |ks| && ks[n].key != "" && ImportsTo(s, ks, n, t)
    ensures match ImportOne(t, ks[n])
            case Some(u) => ImportsTo(s, ks, n + 1, u)
            case None => |Lacking(s, ks, n + 1)| > |FreeSlots(s)|
  {
    var k, f := ks[n], Find(t, "");
    HasIsFound(t, k.key);
    if HasKey(t, k.key) {
      ImportHeld(s, ks, n, t);
    } else if f < 0 {
      LackingStep(s, ks, n);
      assert FreeSlots(t) == {};
    } else {
      var slot := KeySlot(k.key, if k.title == "" then "key" + Decimal(f) else k.title, true, k.expires, false, "");
      assert !HasKey(s, k.key) && ImportedInto(s, ks, n + 1, f, slot);
      ImportFills(s, ks, n, t, f, slot);
    }
  }

  lemma ImportNothing(s: Slots, ks: seq<TokenKey>)
    ensures Lacking(s, ks, 0) == {} && ImportsTo(s, ks, 0, s)
  {
  }

  lemma MoreLacking(s: Slots, ks: seq<TokenKey>, n: nat)
    requires n < |ks|
    ensures |Lacking(s, ks, n)| <= |Lacking(s, ks, n + 1)|
  {
    LackingStep(s, ks, n);
    SubsetCard(Lacking(s, ks, n), Lacking(s, ks, n + 1));
  }

  ghost predicate ImportGives(s: Slots, ks: seq<TokenKey>, n: nat, given: Option<Slots>)
    requires n <= |ks|
  {
    match given
    case Some(t) => ImportsTo(s, ks, n, t)
    case None => |Lacking(s, ks, n)| > |FreeSlots(s)|
  }

  lemma ImportGoesOn(s: Slots, ks: seq<TokenKey>, n: nat, given: Option<Slots>)
    requires n < |ks| && ks[n].key != "" && ImportGives(s, ks, n, given)
    ensures ImportGives(s, ks, n + 1, if given.Some? then ImportOne(given.value, ks[n]) else None)
  {
    match given {
      case Some(t) => ImportSteps(s, ks, n, t);
      case None => MoreLacking(s, ks, n);
    }
  }

  lemma {:induction false} ImportRuns(s: Slots, ks: seq<TokenKey>, n: nat)
    requires n <= |ks| && forall i :: 0 <= i < |ks| ==> ks[i].key != ""
    ensures ImportGives(s, ks, n, Imported(s, ks, n))
  {
    if n == 0 {
      ImportNothing(s, ks);
    } else {
      ImportRuns(s, ks, n - 1);
      ImportGoesOn(s, ks, n - 1, Imported(s, ks, n - 1));
    }
  }

  /** A token's keys are imported if and only if those missing fit the free slots. */
  lemma ImportExactly(s: Slots, ks: seq<TokenKey>)
    requires forall i :: 0 <= i < |ks| ==> ks[i].key != ""
    ensures Imported(s, ks, |ks|).Some? <==> |Lacking(s, ks, |ks|)| <= |FreeSlots(s)|
    ensures Imported(s, ks, |ks|).Some? ==> ImportsTo(s, ks, |ks|, Imported(s, ks, |ks|).value)
  {
    ImportRuns(s, ks, |ks|);
  }

  // ---------------------------------------------------------------- one slot

  /** A key an operator puts into slot i: under the label given or a default one, enabled, without
      expiry, not distributed, without notes. */
  function OperatorKey(key: string, title: string, i: nat): KeySlot {
    KeySlot(key, if title == "" then "key" + Decimal(i) else title, true, "", false, "")
  }

  predicate Filled(s: Slots, slot: int) {
    0 <= slot < SLOTS && s[slot].key != ""
  }

  /** Some other slot can still authenticate joiners. */
  ghost predicate AnotherLive(s: Slots, slot: int) {
    exists i :: 0 <= i < SLOTS && i != slot && s[i].enabled && s[i].key != ""
  }

  /** A generated key is refused only when no slot is free; it goes to the lowest free slot. */
  lemma GenerateExactly(lib: Lib, s: Slots, title: string, minted: string, i: nat)
    ensures Edited(lib, s, Generate(title, minted)).Some? <==> HasKey(s, "")
    ensures LowestFree(s, i) ==>
              Edited(lib, s, Generate(title, minted)) == Some(s[i := OperatorKey(minted, title, i)])
  {
    assert LowestFree(s, i) ==> Find(s, "") == i;
    HasIsFound(s, "");
  }

  /** Into a slot by number: only a free one takes a generated key, and any slot takes a key that
      decodes, whose label is kept when none is given. */
  lemma PlaceExactly(lib: Lib, s: Slots, slot: int, title: string, key: string)
    ensures Edited(lib, s, GenerateInto(slot, title, key)) ==
            if 0 <= slot < SLOTS && s[slot].key == "" then Some(s[slot := OperatorKey(key, title, slot)]) else None
    ensures Edited(lib, s, Set(slot, key, title)) ==
            if 0 <= slot < SLOTS && lib.decodes(key)
            then Some(s[slot := OperatorKey(key, if title == "" then s[slot].title else title, slot)]) else None
  {
  }

  /** Label and notes can be changed on a filled slot, and nothing else changes with them. */
  lemma RelabelExactly(lib: Lib, s: Slots, slot: int, text: string)
    ensures var t := TrimSpace(text);
            && Edited(lib, s, SetTitle(slot, text)) ==
               (if !Filled(s, slot) then None
                else Some(s[slot := s[slot].(title := if t == "" then "key" + Decimal(slot) else t)]))
            && Edited(lib, s, SetNotes(slot, text)) ==
               (if !Filled(s, slot) then None else Some(s[slot := s[slot].(notes := t)]))
  {
  }

  /** So can the expiry, which must be blank or a time, and the mark. */
  lemma MarkExactly(lib: Lib, s: Slots, slot: int, text: string, on: bool)
    ensures var t := TrimSpace(text);
            Edited(lib, s, SetExpiry(slot, text)) ==
            if !Filled(s, slot) || (t != "" && !lib.isTime(t)) then None
            else Some(s[slot := s[slot].(expires := t)])
    ensures Edited(lib, s, SetDistributed(slot, on)) ==
            if !Filled(s, slot) then None else Some(s[slot := s[slot].(distributed := on)])
  {
  }

  /** Switching off and deleting are refused, on a filled slot, exactly when the slot is enabled and
      no other is. */
  lemma LastKeyExactly(lib: Lib, s: Slots, slot: int)
    requires Filled(s, slot)
    ensures Edited(lib, s, SetEnabled(slot, true)) == Some(s[slot := s[slot].(enabled := true)])
    ensures var last := s[slot].enabled && !AnotherLive(s, slot);
            && Edited(lib, s, SetEnabled(slot, false)) ==
               (if last then None else Some(s[slot := s[slot].(enabled := false)]))
            && Edited(lib, s, Delete(slot)) ==
               (if last then None else Some(s[slot := KeySlot("", "", false, "", false, "")]))
  {
  }

  /** An empty or missing slot is neither switched nor deleted. */
  lemma EmptySlotStays(lib: Lib, s: Slots, slot: int, on: bool)
    requires !Filled(s, slot)
    ensures Edited(lib, s, SetEnabled(slot, on)).None? && Edited(lib, s, Delete(slot)).None?
  {
  }
}
