/** The eight key slots of a network: operator edits, token imports, keys distributed by the
    mesh and their retraction. (A slot's label is called `title`; `label` is a Dafny keyword.) */
module Keys {
  import opened Text

  datatype KeySlot = KeySlot(
    key: string, title: string, enabled: bool, expires: string, distributed: bool, notes: string)

  const EMPTY := KeySlot("", "", false, "", false, "")

  const SLOTS: nat := 8

  type Slots = s: seq<KeySlot> | |s| == SLOTS
    witness [EMPTY, EMPTY, EMPTY, EMPTY, EMPTY, EMPTY, EMPTY, EMPTY]

  /** Library calls: whether a text decodes as a key, the id derived from it, and whether a text
      is an RFC 3339 time. */
  datatype Lib = Lib(decodes: string -> bool, keyID: string -> nat, isTime: string -> bool)

  /** A key as a join token carries it. */
  datatype TokenKey = TokenKey(key: string, title: string, expires: string)

  /** A key learned from the mesh. */
  datatype Learned = Learned(key: string, title: string, expires: string, hint: int)

  predicate Live(k: KeySlot) {
    k.enabled && k.key != ""
  }

  /** Some enabled key can authenticate joiners. */
  ghost predicate Alive(s: Slots) {
    exists i :: 0 <= i < SLOTS && Live(s[i])
  }

  /** IsLastEnabledKey */
  predicate IsLastEnabled(s: Slots, slot: int) {
    0 <= slot < SLOTS && Live(s[slot]) && forall i :: 0 <= i < SLOTS && i != slot ==> !Live(s[i])
  }

  predicate HasKey(s: Slots, key: string) {
    exists j :: 0 <= j < SLOTS && s[j].key == key
  }

  ghost predicate IsFirst(s: Slots, key: string, r: int) {
    -1 <= r < SLOTS && (r >= 0 ==> s[r].key == key)
    && forall j :: 0 <= j < (if r < 0 then SLOTS else r) ==> s[j].key != key
  }

  lemma {:induction false} SomeFirst(s: Slots, key: string, i: nat)
    requires i <= SLOTS && forall j :: 0 <= j < i ==> s[j].key != key
    ensures exists r :: IsFirst(s, key, r)
    decreases SLOTS - i
  {
    if i == SLOTS {
      assert IsFirst(s, key, -1);
    } else if s[i].key == key {
      assert IsFirst(s, key, i);
    } else {
      SomeFirst(s, key, i + 1);
    }
  }

  /** Index of the first slot that holds exactly `key`, or -1. */
  ghost function Find(s: Slots, key: string): (r: int)
    ensures IsFirst(s, key, r)
  {
    SomeFirst(s, key, 0);
    var r :| IsFirst(s, key, r);
    r
  }

  function DefaultTitle(slot: nat): string {
    "key" + Decimal(slot)
  }

  function Titled(title: string, slot: nat): string {
    if title == "" then DefaultTitle(slot) else title
  }

  // ---------------------------------------------------------------- fold

  /** Where a key not present yet goes: its hint when that slot is free, else the first free. */
  ghost function Target(s: Slots, p: Learned): (t: int)
    ensures t == -1 || (0 <= t < SLOTS && s[t].key == "")
  {
    if 0 <= p.hint < SLOTS && s[p.hint].key == "" then p.hint else Find(s, "")
  }

  function Placed(p: Learned): KeySlot {
    KeySlot(p.key, p.title, true, p.expires, true, "")
  }

  ghost function FoldOne(s: Slots, p: Learned): Slots {
    var have := Find(s, p.key);
    if have >= 0 then s[have := s[have].(title := p.title, expires := p.expires)]
    else if Target(s, p) >= 0 then s[Target(s, p) := Placed(p)]
    else s
  }

  ghost predicate Unplaced(s: Slots, p: Learned) {
    Find(s, p.key) < 0 && Target(s, p) < 0
  }

  /** The slots after the first n learned keys. */
  ghost function Folded(s: Slots, ps: seq<Learned>, n: nat): Slots
    requires n <= |ps|
  {
    if n == 0 then s else FoldOne(Folded(s, ps, n - 1), ps[n - 1])
  }

  ghost function UnplacedCount(s: Slots, ps: seq<Learned>, n: nat): nat
    requires n <= |ps|
  {
    if n == 0 then 0
    else UnplacedCount(s, ps, n - 1) + (if Unplaced(Folded(s, ps, n - 1), ps[n - 1]) then 1 else 0)
  }

  ghost predicate FoldChanged(s: Slots, ps: seq<Learned>, n: nat)
    requires n <= |ps|
  {
    n > 0 && (FoldChanged(s, ps, n - 1) || Folded(s, ps, n) != Folded(s, ps, n - 1))
  }

  /** One scan of the slots: where `key` already is and, if nowhere, the first free slot. */
  method Scan(s: Slots, key: string) returns (have: int, free: int)
    ensures have == Find(s, key)
    ensures have < 0 ==> free == Find(s, "")
  {
    have, free := -1, -1;
    for i := 0 to SLOTS
      invariant have == -1 && forall j :: 0 <= j < i ==> s[j].key != key
      invariant if free < 0 then free == -1 && forall j :: 0 <= j < i ==> s[j].key != "" else IsFirst(s, "", free)
    {
      if s[i].key == key {
        have := i;
        return;
      }
      if free < 0 && s[i].key == "" {
        free := i;
      }
    }
  }

  /** The loop body of foldPropagatedKeys: one learned key. */
  method FoldKey(s: Slots, p: Learned) returns (updated: Slots, placed: bool, touched: bool)
    ensures updated == FoldOne(s, p) && placed == !Unplaced(s, p)
    ensures touched == (updated != s)
  {
    updated, placed, touched := s, true, false;
    var have, free := Scan(updated, p.key);
    if have >= 0 {
      if updated[have].title != p.title {
        updated := updated[have := updated[have].(title := p.title)];
        touched := true;
      }
      if updated[have].expires != p.expires {
        updated := updated[have := updated[have].(expires := p.expires)];
        touched := true;
      }
      assert updated == FoldOne(s, p);
      assert updated == s <==> updated[have] == s[have];
      return;
    }
    var target := free;
    if 0 <= p.hint < SLOTS && updated[p.hint].key == "" {
      target := p.hint;
    }
    if target < 0 {
      placed := false;
      return;
    }
    updated := updated[target := Placed(p)];
    touched := true;
    assert updated[target] != s[target];
  }

  method FoldPropagatedKeys(keys: Slots, propagated: seq<Learned>)
    returns (updated: Slots, unplaced: nat, changed: bool)
    ensures updated == Folded(keys, propagated, |propagated|)
    ensures unplaced == UnplacedCount(keys, propagated, |propagated|)
    ensures changed == FoldChanged(keys, propagated, |propagated|)
  {
    updated, unplaced, changed := keys, 0, false;
    for n := 0 to |propagated|
      invariant updated == Folded(keys, propagated, n)
      invariant unplaced == UnplacedCount(keys, propagated, n)
      invariant changed == FoldChanged(keys, propagated, n)
    {
      var placed, touched;
      updated, placed, touched := FoldKey(updated, propagated[n]);
      if !placed {
        unplaced := unplaced + 1;
      }
      changed := changed || touched;
    }
  }

  // ---------------------------------------------------------------- retraction

  predicate HasID(lib: Lib, k: KeySlot, id: nat) {
    k.key != "" && lib.decodes(k.key) && lib.keyID(k.key) == id
  }

  ghost predicate IsFirstID(lib: Lib, s: Slots, id: nat, r: int) {
    -1 <= r < SLOTS && (r >= 0 ==> HasID(lib, s[r], id))
    && forall j :: 0 <= j < (if r < 0 then SLOTS else r) ==> !HasID(lib, s[j], id)
  }

  lemma {:induction false} SomeFirstID(lib: Lib, s: Slots, id: nat, i: nat)
    requires i <= SLOTS && forall j :: 0 <= j < i ==> !HasID(lib, s[j], id)
    ensures exists r :: IsFirstID(lib, s, id, r)
    decreases SLOTS - i
  {
    if i == SLOTS {
      assert IsFirstID(lib, s, id, -1);
    } else if HasID(lib, s[i], id) {
      assert IsFirstID(lib, s, id, i);
    } else {
      SomeFirstID(lib, s, id, i + 1);
    }
  }

  /** Index of the first slot whose key has this id, or -1. */
  ghost function FindID(lib: Lib, s: Slots, id: nat): (r: int)
    ensures IsFirstID(lib, s, id, r)
  {
    SomeFirstID(lib, s, id, 0);
    var r :| IsFirstID(lib, s, id, r);
    r
  }

  ghost predicate Refuses(lib: Lib, s: Slots, id: nat) {
    IsLastEnabled(s, FindID(lib, s, id))
  }

  ghost function RetractOne(lib: Lib, s: Slots, id: nat): Slots {
    var slot := FindID(lib, s, id);
    if slot < 0 || IsLastEnabled(s, slot) then s else s[slot := EMPTY]
  }

  ghost function Retracted(lib: Lib, s: Slots, ids: seq<nat>, n: nat): Slots
    requires n <= |ids|
  {
    if n == 0 then s else RetractOne(lib, Retracted(lib, s, ids, n - 1), ids[n - 1])
  }

  ghost function Refused(lib: Lib, s: Slots, ids: seq<nat>, n: nat): seq<nat>
    requires n <= |ids|
  {
    if n == 0 then []
    else
      Refused(lib, s, ids, n - 1)
      + (if Refuses(lib, Retracted(lib, s, ids, n - 1), ids[n - 1]) then [ids[n - 1]] else [])
  }

  ghost predicate RetractChanged(lib: Lib, s: Slots, ids: seq<nat>, n: nat)
    requires n <= |ids|
  {
    n > 0 && (RetractChanged(lib, s, ids, n - 1)
              || Retracted(lib, s, ids, n) != Retracted(lib, s, ids, n - 1))
  }

  method ScanID(lib: Lib, s: Slots, id: nat) returns (slot: int)
    ensures slot == FindID(lib, s, id)
  {
    slot := -1;
    for i := 0 to SLOTS
      invariant slot == -1 && forall j :: 0 <= j < i ==> !HasID(lib, s[j], id)
    {
      if s[i].key == "" {
        continue;
      }
      if !lib.decodes(s[i].key) || lib.keyID(s[i].key) != id {
        continue;
      }
      slot := i;
      break;
    }
  }

  method ApplyKeyRetractions(lib: Lib, keys: Slots, retracted: seq<nat>)
    returns (updated: Slots, refused: seq<nat>, changed: bool)
    ensures updated == Retracted(lib, keys, retracted, |retracted|)
    ensures refused == Refused(lib, keys, retracted, |retracted|)
    ensures changed == RetractChanged(lib, keys, retracted, |retracted|)
  {
    updated, refused, changed := keys, [], false;
    for n := 0 to |retracted|
      invariant updated == Retracted(lib, keys, retracted, n)
      invariant refused == Refused(lib, keys, retracted, n)
      invariant changed == RetractChanged(lib, keys, retracted, n)
    {
      var id := retracted[n];
      ghost var before := updated;
      var slot := ScanID(lib, updated, id);
      if slot < 0 {
        continue;
      }
      if IsLastEnabled(updated, slot) {
        refused := refused + [id];
        continue;
      }
      updated := updated[slot := EMPTY];
      changed := true;
      assert updated[slot] != before[slot];
    }
  }

  // ---------------------------------------------------------------- fold: what it keeps

  predicate DistinctKeys(s: Slots) {
    forall i, j :: 0 <= i < j < SLOTS && s[i].key != "" ==> s[i].key != s[j].key
  }

  /** The mesh's list names each key once, and none is empty. */
  predicate DistinctLearned(ps: seq<Learned>) {
    && (forall i :: 0 <= i < |ps| ==> ps[i].key != "")
    && (forall i, j :: 0 <= i < j < |ps| ==> ps[i].key != ps[j].key)
  }

  /** Every slot that holds a key keeps it, and whether it is enabled, distributed and noted. */
  predicate KeepsMaterial(s: Slots, t: Slots) {
    forall i :: 0 <= i < SLOTS && s[i].key != "" ==>
      t[i] == s[i].(title := t[i].title, expires := t[i].expires)
  }

  lemma FoldOneKeeps(s: Slots, p: Learned)
    requires p.key != ""
    ensures KeepsMaterial(s, FoldOne(s, p))
    ensures DistinctKeys(s) ==> DistinctKeys(FoldOne(s, p))
  {
  }

  /** Folding never changes existing key material or re-enables a slot, and keeps distinct keys
      distinct. */
  lemma {:induction false} FoldKeeps(s: Slots, ps: seq<Learned>, n: nat)
    requires n <= |ps| && forall i :: 0 <= i < |ps| ==> ps[i].key != ""
    ensures KeepsMaterial(s, Folded(s, ps, n))
    ensures DistinctKeys(s) ==> DistinctKeys(Folded(s, ps, n))
  {
    if n > 0 {
      FoldKeeps(s, ps, n - 1);
      FoldOneKeeps(Folded(s, ps, n - 1), ps[n - 1]);
    }
  }

  /** A learned key is accounted for: it is in a slot with the mesh's label and expiry, or it is
      in none and none is free. */
  ghost predicate Settled(s: Slots, p: Learned) {
    var have := Find(s, p.key);
    if have >= 0 then s[have].title == p.title && s[have].expires == p.expires
    else Find(s, "") < 0
  }

  lemma FoldOneSettles(s: Slots, p: Learned)
    requires p.key != ""
    ensures Settled(FoldOne(s, p), p)
    ensures Find(FoldOne(s, p), p.key) < 0 <==> Unplaced(s, p)
  {
    var t := FoldOne(s, p);
    var have := Find(s, p.key);
    if have >= 0 {
      assert IsFirst(t, p.key, have);
    } else if Target(s, p) >= 0 {
      assert t[Target(s, p)].key == p.key;
      assert IsFirst(t, p.key, Target(s, p));
    }
  }

  lemma FoldOneKeepsSettled(s: Slots, p: Learned, q: Learned)
    requires p.key != "" && q.key != "" && p.key != q.key && Settled(s, q)
    ensures Settled(FoldOne(s, p), q)
    ensures Find(FoldOne(s, p), q.key) == Find(s, q.key)
  {
    var t := FoldOne(s, p);
    assert forall i :: 0 <= i < SLOTS && s[i].key != "" ==> t[i].key == s[i].key;
    if Find(s, q.key) < 0 {
      assert forall i :: 0 <= i < SLOTS ==> s[i].key != "";
      assert forall i :: 0 <= i < SLOTS ==> t[i].key == s[i].key;
    } else {
      assert Find(t, q.key) == Find(s, q.key);
    }
  }

  lemma {:induction false} FoldSettles(s: Slots, ps: seq<Learned>, n: nat, j: nat)
    requires j < n <= |ps| && DistinctLearned(ps)
    ensures Settled(Folded(s, ps, n), ps[j])
    ensures Find(Folded(s, ps, n), ps[j].key) < 0 <==> Unplaced(Folded(s, ps, j), ps[j])
  {
    var before := Folded(s, ps, n - 1);
    if j == n - 1 {
      FoldOneSettles(before, ps[j]);
    } else {
      FoldSettles(s, ps, n - 1, j);
      FoldOneKeepsSettled(before, ps[n - 1], ps[j]);
    }
  }

  lemma FoldOneOfSettled(s: Slots, p: Learned)
    requires p.key != "" && Settled(s, p)
    ensures FoldOne(s, p) == s && (Unplaced(s, p) <==> Find(s, p.key) < 0)
  {
    var have := Find(s, p.key);
    if have >= 0 {
      assert s[have := s[have].(title := p.title, expires := p.expires)] == s;
    }
  }

  /** How many of the first n learned keys are in no slot. */
  ghost function Missing(s: Slots, ps: seq<Learned>, n: nat): nat
    requires n <= |ps|
  {
    if n == 0 then 0 else Missing(s, ps, n - 1) + (if Find(s, ps[n - 1].key) < 0 then 1 else 0)
  }

  lemma {:induction false} UnplacedAreMissing(s: Slots, ps: seq<Learned>, n: nat)
    requires n <= |ps| && DistinctLearned(ps)
    ensures UnplacedCount(s, ps, n) == Missing(Folded(s, ps, |ps|), ps, n)
  {
    if n > 0 {
      UnplacedAreMissing(s, ps, n - 1);
      FoldSettles(s, ps, |ps|, n - 1);
    }
  }

  lemma {:induction false} FoldOfSettled(s: Slots, ps: seq<Learned>, n: nat)
    requires n <= |ps| && DistinctLearned(ps)
    requires forall j :: 0 <= j < |ps| ==> Settled(s, ps[j])
    ensures Folded(s, ps, n) == s && UnplacedCount(s, ps, n) == Missing(s, ps, n)
    ensures !FoldChanged(s, ps, n)
  {
    if n > 0 {
      FoldOfSettled(s, ps, n - 1);
      FoldOneOfSettled(s, ps[n - 1]);
    }
  }

  /** Folding converges: the count reported is exactly the number of learned keys that are in no
      slot afterwards, and folding the same list again changes nothing, reports no change and
      reports the same count. */
  lemma FoldConverges(s: Slots, ps: seq<Learned>)
    requires DistinctLearned(ps)
    ensures var t := Folded(s, ps, |ps|);
            && UnplacedCount(s, ps, |ps|) == Missing(t, ps, |ps|)
            && Folded(t, ps, |ps|) == t
            && !FoldChanged(t, ps, |ps|)
            && UnplacedCount(t, ps, |ps|) == UnplacedCount(s, ps, |ps|)
  {
    var t := Folded(s, ps, |ps|);
    forall j | 0 <= j < |ps|
      ensures Settled(t, ps[j])
    {
      FoldSettles(s, ps, |ps|, j);
    }
    UnplacedAreMissing(s, ps, |ps|);
    FoldOfSettled(t, ps, |ps|);
  }

  lemma HintTaken(s: Slots, p: Learned)
    requires p.key != "" && 0 <= p.hint < SLOTS && Find(s, p.key) < 0 && s[p.hint].key == ""
    ensures Find(FoldOne(s, p), p.key) == p.hint
  {
    assert FoldOne(s, p)[p.hint].key == p.key;
  }

  /** A learned key that is new and whose hinted slot is free when its turn comes ends there. */
  lemma {:induction false} FreeHintStays(s: Slots, ps: seq<Learned>, n: nat, j: nat)
    requires j < n <= |ps| && DistinctLearned(ps) && 0 <= ps[j].hint < SLOTS
    requires Find(Folded(s, ps, j), ps[j].key) < 0 && Folded(s, ps, j)[ps[j].hint].key == ""
    ensures Find(Folded(s, ps, n), ps[j].key) == ps[j].hint
  {
    if j == n - 1 {
      HintTaken(Folded(s, ps, j), ps[j]);
    } else {
      FreeHintStays(s, ps, n - 1, j);
      FoldSettles(s, ps, n - 1, j);
      FoldOneKeepsSettled(Folded(s, ps, n - 1), ps[n - 1], ps[j]);
    }
  }

  ghost predicate IsNew(s: Slots, p: Learned) {
    Find(s, p.key) < 0
  }

  /** Each new key among the first m hints at a slot that is free at the start, no two at one. */
  ghost predicate HintsFit(s: Slots, ps: seq<Learned>, m: nat)
    requires m <= |ps|
  {
    forall j :: 0 <= j < m && IsNew(s, ps[j]) ==>
      && 0 <= ps[j].hint < SLOTS && s[ps[j].hint].key == ""
      && forall k :: 0 <= k < j && IsNew(s, ps[k]) ==> ps[k].hint != ps[j].hint
  }

  ghost predicate TakenBy(s: Slots, ps: seq<Learned>, m: nat, i: nat, key: string)
    requires m <= |ps|
  {
    exists k :: 0 <= k < m && IsNew(s, ps[k]) && ps[k].hint == i && ps[k].key == key
  }

  /** Every slot has the key it had, or the new key that hinted at it. */
  ghost predicate OnlyHintsTaken(s: Slots, ps: seq<Learned>, m: nat)
    requires m <= |ps|
  {
    forall i :: 0 <= i < SLOTS ==>
      var key := Folded(s, ps, m)[i].key; key == s[i].key || TakenBy(s, ps, m, i, key)
  }

  lemma StillNew(s: Slots, ps: seq<Learned>, j: nat)
    requires j < |ps| && DistinctLearned(ps) && OnlyHintsTaken(s, ps, j) && IsNew(s, ps[j])
    ensures IsNew(Folded(s, ps, j), ps[j])
  {
    forall i | 0 <= i < SLOTS
      ensures Folded(s, ps, j)[i].key != ps[j].key
    {
      assert s[i].key != ps[j].key && !TakenBy(s, ps, j, i, ps[j].key);
    }
  }

  lemma FittingHint(s: Slots, ps: seq<Learned>, j: nat)
    requires j < |ps| && DistinctLearned(ps) && HintsFit(s, ps, j + 1) && OnlyHintsTaken(s, ps, j)
    ensures var u := Folded(s, ps, j);
            if IsNew(s, ps[j]) then FoldOne(u, ps[j]) == u[ps[j].hint := Placed(ps[j])]
            else forall i :: 0 <= i < SLOTS ==> FoldOne(u, ps[j])[i].key == u[i].key
  {
    if IsNew(s, ps[j]) {
      StillNew(s, ps, j);
      assert !TakenBy(s, ps, j, ps[j].hint, Folded(s, ps, j)[ps[j].hint].key);
    } else {
      FoldKeeps(s, ps, j);
      assert !IsNew(Folded(s, ps, j), ps[j]);
    }
  }

  lemma {:induction false} FittingHints(s: Slots, ps: seq<Learned>, m: nat)
    requires m <= |ps| && DistinctLearned(ps) && HintsFit(s, ps, m)
    ensures OnlyHintsTaken(s, ps, m)
  {
    if m > 0 {
      var j := m - 1;
      FittingHints(s, ps, j);
      FittingHint(s, ps, j);
      forall i | 0 <= i < SLOTS
        ensures var key := Folded(s, ps, m)[i].key; key == s[i].key || TakenBy(s, ps, m, i, key)
      {
        assert TakenBy(s, ps, j, i, Folded(s, ps, j)[i].key) ==> TakenBy(s, ps, m, i, Folded(s, ps, j)[i].key);
      }
    }
  }

  predicate AtHint(t: Slots, p: Learned) {
    0 <= p.hint < SLOTS && t[p.hint].key == p.key
  }

  /** The new keys among the first m all land in the slots they hint at, if and only if each hints
      at a slot free at the start and no two of them at one. */
  lemma FoldHonoursHints(s: Slots, ps: seq<Learned>, m: nat)
    requires m <= |ps| && DistinctLearned(ps)
    ensures (forall j :: 0 <= j < m && IsNew(s, ps[j]) ==> AtHint(Folded(s, ps, |ps|), ps[j]))
            <==> HintsFit(s, ps, m)
  {
    var t := Folded(s, ps, |ps|);
    FoldKeeps(s, ps, |ps|);
    if HintsFit(s, ps, m) {
      forall j | 0 <= j < m && IsNew(s, ps[j])
        ensures AtHint(t, ps[j])
      {
        FittingHints(s, ps, j);
        StillNew(s, ps, j);
        assert !TakenBy(s, ps, j, ps[j].hint, Folded(s, ps, j)[ps[j].hint].key);
        FreeHintStays(s, ps, |ps|, j);
      }
    }
    if forall j :: 0 <= j < m && IsNew(s, ps[j]) ==> AtHint(t, ps[j]) {
      forall j | 0 <= j < m && IsNew(s, ps[j])
        ensures 0 <= ps[j].hint < SLOTS && s[ps[j].hint].key == ""
        ensures forall k :: 0 <= k < j && IsNew(s, ps[k]) ==> ps[k].hint != ps[j].hint
      {
        assert AtHint(t, ps[j]);
        assert s[ps[j].hint].key != ps[j].key;
      }
    }
  }

  ghost predicate Named(ps: seq<Learned>, n: nat, key: string)
    requires n <= |ps|
  {
    exists j :: 0 <= j < n && ps[j].key == key
  }

  /** Every slot that differs from the start holds one of the first n learned keys. */
  ghost predicate ChangesNamed(s: Slots, t: Slots, ps: seq<Learned>, n: nat)
    requires n <= |ps|
  {
    forall i :: 0 <= i < SLOTS && t[i] != s[i] ==> Named(ps, n, t[i].key)
  }

  lemma ChangeStep(s: Slots, u: Slots, ps: seq<Learned>, n: nat)
    requires n < |ps| && DistinctLearned(ps) && ChangesNamed(s, u, ps, n)
    ensures var t := FoldOne(u, ps[n]);
            ChangesNamed(s, t, ps, n + 1) && (t != s <==> u != s || t != u)
  {
    var p, t := ps[n], FoldOne(u, ps[n]);
    forall i | 0 <= i < SLOTS && t[i] != u[i]
      ensures t[i].key == p.key && u[i] == s[i]
    {
      assert u[i].key == "" || u[i].key == p.key;
      assert !Named(ps, n, u[i].key);
    }
    assert Named(ps, n + 1, p.key);
    assert forall key :: Named(ps, n, key) ==> Named(ps, n + 1, key);
  }

  /** The change flag is exact: no step ever undoes an earlier one. */
  lemma {:induction false} ChangedMeansChanged(s: Slots, ps: seq<Learned>, n: nat)
    requires n <= |ps| && DistinctLearned(ps)
    ensures FoldChanged(s, ps, n) <==> Folded(s, ps, n) != s
    ensures ChangesNamed(s, Folded(s, ps, n), ps, n)
  {
    if n > 0 {
      ChangedMeansChanged(s, ps, n - 1);
      ChangeStep(s, Folded(s, ps, n - 1), ps, n - 1);
    }
  }

  // ---------------------------------------------------------------- retraction: exact and safe

  /** Both slots hold material with one key id. */
  predicate Twins(lib: Lib, s: Slots, i: nat, j: nat)
    requires i < SLOTS && j < SLOTS
  {
    i != j && s[i].key != "" && lib.decodes(s[i].key) && HasID(lib, s[j], lib.keyID(s[i].key))
  }

  /** No two slots hold material with the same key id. */
  ghost predicate DistinctIDs(lib: Lib, s: Slots) {
    forall i, j :: 0 <= i < SLOTS && 0 <= j < SLOTS ==> !Twins(lib, s, i, j)
  }

  ghost predicate HasAny(lib: Lib, k: KeySlot, ids: seq<nat>, n: nat)
    requires n <= |ids|
  {
    exists m :: 0 <= m < n && HasID(lib, k, ids[m])
  }

  /** Slot i after the first n retractions: cleared exactly when its id was retracted and it is
      not the sole enabled key, and otherwise as it was. */
  ghost predicate Exact(lib: Lib, s: Slots, t: Slots, ids: seq<nat>, n: nat, i: nat)
    requires n <= |ids| && i < SLOTS
  {
    t[i] == if HasAny(lib, s[i], ids, n) && !IsLastEnabled(t, i) then EMPTY else s[i]
  }

  ghost predicate AllExact(lib: Lib, s: Slots, t: Slots, ids: seq<nat>, n: nat)
    requires n <= |ids|
  {
    forall i :: 0 <= i < SLOTS ==> Exact(lib, s, t, ids, n, i)
  }

  /** Two slots share an id only as the one pair that contains every enabled key, the later slot
      being enabled. */
  ghost predicate TwinsAreLast(lib: Lib, s: Slots) {
    forall i, j :: 0 <= i < j < SLOTS && Twins(lib, s, i, j) ==>
      Live(s[j]) && forall l :: 0 <= l < SLOTS && l != i && l != j ==> !Live(s[l]) && !Twins(lib, s, i, l)
  }

  lemma RetractOneKeepsExact(lib: Lib, s: Slots, u: Slots, ids: seq<nat>, n: nat)
    requires n < |ids| && TwinsAreLast(lib, s) && AllExact(lib, s, u, ids, n)
    ensures AllExact(lib, s, RetractOne(lib, u, ids[n]), ids, n + 1)
  {
    var id, t := ids[n], RetractOne(lib, u, ids[n]);
    var slot := FindID(lib, u, id);
    var k := n + 1;
    assert slot >= 0 ==> Exact(lib, s, u, ids, n, slot);
    forall i | 0 <= i < SLOTS
      ensures Exact(lib, s, t, ids, k, i)
    {
      assert HasAny(lib, s[i], ids, k) <==> HasAny(lib, s[i], ids, n) || HasID(lib, s[i], id);
      assert Exact(lib, s, u, ids, n, i);
      if slot >= 0 && slot != i && HasID(lib, s[i], id) {
        TwinKeepsExact(lib, s, u, ids, n, slot, i);
      }
    }
  }

  lemma TwinKeepsExact(lib: Lib, s: Slots, u: Slots, ids: seq<nat>, n: nat, slot: nat, i: nat)
    requires n < |ids| && TwinsAreLast(lib, s) && AllExact(lib, s, u, ids, n)
    requires slot < SLOTS && i < SLOTS && slot != i
    requires FindID(lib, u, ids[n]) == slot && HasID(lib, s[i], ids[n])
    ensures RetractOne(lib, u, ids[n])[i] == EMPTY || IsLastEnabled(RetractOne(lib, u, ids[n]), i)
  {
    assert Exact(lib, s, u, ids, n, slot) && Exact(lib, s, u, ids, n, i);
    assert u[slot] == s[slot];
    var a, b := if slot < i then slot else i, if slot < i then i else slot;
    assert Twins(lib, s, a, b);
    assert forall l :: 0 <= l < SLOTS && l != a && l != b ==> !Live(s[l]);
    forall l | 0 <= l < SLOTS && l != a && l != b
      ensures !Live(u[l])
    {
      assert Exact(lib, s, u, ids, n, l);
    }
    assert HasAny(lib, s[i], ids, n) <==> HasAny(lib, s[slot], ids, n);
  }

  lemma {:induction false} TwinsLastIsExact(lib: Lib, s: Slots, ids: seq<nat>, n: nat)
    requires n <= |ids| && TwinsAreLast(lib, s)
    ensures AllExact(lib, s, Retracted(lib, s, ids, n), ids, n)
  {
    if n > 0 {
      TwinsLastIsExact(lib, s, ids, n - 1);
      RetractOneKeepsExact(lib, s, Retracted(lib, s, ids, n - 1), ids, n - 1);
    }
  }

  lemma ExactMeansTwinsLast(lib: Lib, s: Slots, i: nat, j: nat)
    requires i < j < SLOTS && Twins(lib, s, i, j)
    requires var ids := [lib.keyID(s[i].key)]; AllExact(lib, s, Retracted(lib, s, ids, 1), ids, 1)
    ensures Live(s[j]) && forall l :: 0 <= l < SLOTS && l != i && l != j ==> !Live(s[l]) && !Twins(lib, s, i, l)
  {
    var ids := [lib.keyID(s[i].key)];
    var first, t := FindID(lib, s, ids[0]), Retracted(lib, s, ids, 1);
    assert Retracted(lib, s, ids, 0) == s && t == RetractOne(lib, s, ids[0]);
    assert HasID(lib, s[i], ids[0]) && HasID(lib, s[j], ids[0]) && first <= i;
    forall l | 0 <= l < SLOTS && l != first && HasID(lib, s[l], ids[0])
      ensures IsLastEnabled(t, l)
    {
      assert Exact(lib, s, t, ids, 1, l);
      assert HasID(lib, s[l], ids[0]) && t[l] == s[l] && s[l] != EMPTY;
    }
    assert first == i;
    assert forall l :: 0 <= l < SLOTS && l != i ==> t[l] == s[l];
  }

  /** Retraction is exact: whatever ids are retracted, each slot is cleared just when its id was
      among them and it is not the sole enabled key, and is otherwise untouched. This holds if and
      only if twins are last; in particular without twins. */
  lemma RetractionIsExact(lib: Lib, s: Slots)
    ensures (forall ids :: AllExact(lib, s, Retracted(lib, s, ids, |ids|), ids, |ids|)) <==> TwinsAreLast(lib, s)
    ensures DistinctIDs(lib, s) ==> TwinsAreLast(lib, s)
  {
    if TwinsAreLast(lib, s) {
      forall ids
        ensures AllExact(lib, s, Retracted(lib, s, ids, |ids|), ids, |ids|)
      {
        TwinsLastIsExact(lib, s, ids, |ids|);
      }
    }
    if forall ids :: AllExact(lib, s, Retracted(lib, s, ids, |ids|), ids, |ids|) {
      forall i, j | 0 <= i < j < SLOTS && Twins(lib, s, i, j)
        ensures Live(s[j]) && forall l :: 0 <= l < SLOTS && l != i && l != j ==> !Live(s[l]) && !Twins(lib, s, i, l)
      {
        var ids := [lib.keyID(s[i].key)];
        assert AllExact(lib, s, Retracted(lib, s, ids, |ids|), ids, |ids|);
        ExactMeansTwinsLast(lib, s, i, j);
      }
    }
  }

  lemma AliveStays(s: Slots, slot: nat)
    requires slot < SLOTS && Alive(s) && !IsLastEnabled(s, slot)
    ensures Alive(s[slot := EMPTY])
  {
    var i :| 0 <= i < SLOTS && Live(s[i]) && i != slot;
    assert Live(s[slot := EMPTY][i]);
  }

  lemma {:induction false} RetractionIsSafe(lib: Lib, s: Slots, ids: seq<nat>, n: nat)
    requires n <= |ids| && Alive(s)
    ensures Alive(Retracted(lib, s, ids, n))
  {
    if n > 0 {
      RetractionIsSafe(lib, s, ids, n - 1);
      var u := Retracted(lib, s, ids, n - 1);
      var slot := FindID(lib, u, ids[n - 1]);
      if slot >= 0 && !IsLastEnabled(u, slot) {
        AliveStays(u, slot);
      }
    }
  }

  ghost predicate OnlyCleared(s: Slots, t: Slots) {
    forall i :: 0 <= i < SLOTS ==> t[i] == s[i] || t[i] == EMPTY
  }

  lemma {:induction false} LaterOnlyClears(lib: Lib, s: Slots, ids: seq<nat>, m: nat, n: nat)
    requires m <= n <= |ids|
    ensures OnlyCleared(Retracted(lib, s, ids, m), Retracted(lib, s, ids, n))
    ensures forall id :: id in Refused(lib, s, ids, m) ==> id in Refused(lib, s, ids, n)
  {
    if m < n {
      LaterOnlyClears(lib, s, ids, m, n - 1);
    }
  }

  /** Id m of the list is in no slot afterwards, or it was refused and its first slot is still the
      sole enabled key. */
  ghost predicate Settles(lib: Lib, s: Slots, ids: seq<nat>, m: nat)
    requires m < |ids|
  {
    var t := Retracted(lib, s, ids, |ids|);
    var slot := FindID(lib, t, ids[m]);
    slot < 0 || (IsLastEnabled(t, slot) && ids[m] in Refused(lib, s, ids, |ids|))
  }

  /** An id is in two slots only when the first of them is the sole enabled key. */
  ghost predicate TwinsAreRefused(lib: Lib, s: Slots) {
    forall i, j :: 0 <= i < SLOTS && 0 <= j < SLOTS && Twins(lib, s, i, j) ==>
      IsLastEnabled(s, FindID(lib, s, lib.keyID(s[i].key)))
  }

  /** A slot that has the id at the end was there all along. */
  lemma SoleSlotSettles(lib: Lib, s: Slots, ids: seq<nat>, m: nat)
    requires m < |ids| && forall i, j :: 0 <= i < j < SLOTS ==> !(HasID(lib, s[i], ids[m]) && HasID(lib, s[j], ids[m]))
    ensures Settles(lib, s, ids, m)
  {
    var n := |ids|;
    var u, t := Retracted(lib, s, ids, m), Retracted(lib, s, ids, n);
    var slot := FindID(lib, t, ids[m]);
    if slot >= 0 {
      LaterOnlyClears(lib, s, ids, 0, m);
      LaterOnlyClears(lib, s, ids, m, n);
      LaterOnlyClears(lib, s, ids, m + 1, n);
      assert FindID(lib, u, ids[m]) == slot;
      assert Refuses(lib, u, ids[m]);
      assert ids[m] in Refused(lib, s, ids, m + 1);
      RefusedIsSoleKey(lib, s, ids, n, ids[m]);
    }
  }

  lemma {:induction false} SoleKeyStays(lib: Lib, s: Slots, ids: seq<nat>, n: nat, id: nat)
    requires n <= |ids| && IsLastEnabled(s, FindID(lib, s, id))
    ensures var t := Retracted(lib, s, ids, n);
            FindID(lib, t, id) == FindID(lib, s, id) && IsLastEnabled(t, FindID(lib, t, id))
  {
    if n > 0 {
      SoleKeyStays(lib, s, ids, n - 1, id);
      SoleKeySurvives(lib, Retracted(lib, s, ids, n - 1), id, ids[n - 1]);
    }
  }

  lemma SoleKeySettles(lib: Lib, s: Slots, ids: seq<nat>, m: nat)
    requires m < |ids| && IsLastEnabled(s, FindID(lib, s, ids[m]))
    ensures Settles(lib, s, ids, m)
  {
    SoleKeyStays(lib, s, ids, m, ids[m]);
    SoleKeyStays(lib, s, ids, |ids|, ids[m]);
    assert ids[m] in Refused(lib, s, ids, m + 1);
    LaterOnlyClears(lib, s, ids, m + 1, |ids|);
  }

  /** One key in two slots, and a single retraction: the first slot is cleared and the id is still
      held by the second, unrefused. */
  lemma TwinOutlivesRetraction(lib: Lib, s: Slots, i: nat, j: nat)
    requires i < SLOTS && j < SLOTS && Twins(lib, s, i, j)
    requires !IsLastEnabled(s, FindID(lib, s, lib.keyID(s[i].key)))
    ensures !Settles(lib, s, [lib.keyID(s[i].key)], 0)
  {
    var ids := [lib.keyID(s[i].key)];
    var t := Retracted(lib, s, ids, 1);
    assert Retracted(lib, s, ids, 0) == s && Refused(lib, s, ids, 0) == [];
    assert t == RetractOne(lib, s, ids[0]) && Refused(lib, s, ids, 1) == [];
    var other := if FindID(lib, s, ids[0]) == i then j else i;
    assert HasID(lib, t[other], ids[0]);
  }

  /** Every retracted id ends in no slot, or is refused and still the sole enabled key: for every
      list of retractions if and only if an id is in two slots only when it is refused anyway. */
  lemma RetractedOrRefused(lib: Lib, s: Slots)
    ensures (forall ids, m: nat :: m < |ids| ==> Settles(lib, s, ids, m)) <==> TwinsAreRefused(lib, s)
    ensures DistinctIDs(lib, s) ==> TwinsAreRefused(lib, s)
  {
    if TwinsAreRefused(lib, s) {
      forall ids, m: nat | m < |ids|
        ensures Settles(lib, s, ids, m)
      {
        if i, j :| 0 <= i < j < SLOTS && HasID(lib, s[i], ids[m]) && HasID(lib, s[j], ids[m]) {
          assert Twins(lib, s, i, j);
          SoleKeySettles(lib, s, ids, m);
        } else {
          SoleSlotSettles(lib, s, ids, m);
        }
      }
    }
    if forall ids, m: nat :: m < |ids| ==> Settles(lib, s, ids, m) {
      forall i, j | 0 <= i < SLOTS && 0 <= j < SLOTS && Twins(lib, s, i, j)
        ensures IsLastEnabled(s, FindID(lib, s, lib.keyID(s[i].key)))
      {
        assert Settles(lib, s, [lib.keyID(s[i].key)], 0);
        if !IsLastEnabled(s, FindID(lib, s, lib.keyID(s[i].key))) {
          TwinOutlivesRetraction(lib, s, i, j);
        }
      }
    }
  }

  /** Nothing is refused that could have been cleared: a refused id is in a slot at the end, and
      that slot is the sole enabled key. */
  lemma {:induction false} RefusedIsSoleKey(lib: Lib, s: Slots, ids: seq<nat>, n: nat, id: nat)
    requires n <= |ids| && id in Refused(lib, s, ids, n)
    ensures IsLastEnabled(Retracted(lib, s, ids, n), FindID(lib, Retracted(lib, s, ids, n), id))
  {
    var u := Retracted(lib, s, ids, n - 1);
    if id in Refused(lib, s, ids, n - 1) {
      RefusedIsSoleKey(lib, s, ids, n - 1, id);
      SoleKeySurvives(lib, u, id, ids[n - 1]);
    }
  }

  lemma SoleKeySurvives(lib: Lib, u: Slots, id: nat, other: nat)
    requires IsLastEnabled(u, FindID(lib, u, id))
    ensures var t := RetractOne(lib, u, other);
            FindID(lib, t, id) == FindID(lib, u, id) && IsLastEnabled(t, FindID(lib, u, id))
  {
    var t := RetractOne(lib, u, other);
    assert IsFirstID(lib, t, id, FindID(lib, u, id));
  }

  // ---------------------------------------------------------------- every edit of the slots

  /** What can happen to a network's slots. A generated key comes with the material minted. */
  datatype Op =
    | Generate(title: string, minted: string)
    | GenerateInto(slot: int, title: string, minted: string)
    | Set(slot: int, key: string, title: string)
    | SetTitle(slot: int, title: string)
    | SetNotes(slot: int, notes: string)
    | SetExpiry(slot: int, expires: string)
    | SetEnabled(slot: int, on: bool)
    | SetDistributed(slot: int, on: bool)
    | Delete(slot: int)
    | Import(keys: seq<TokenKey>)
    | FoldAll(learned: seq<Learned>)
    | RetractAll(ids: seq<nat>)

  predicate ValidSlot(slot: int) {
    0 <= slot < SLOTS
  }

  predicate Occupied(s: Slots, slot: int) {
    ValidSlot(slot) && s[slot].key != ""
  }

  function Fresh(key: string, title: string, slot: nat, expires: string): KeySlot {
    KeySlot(key, Titled(title, slot), true, expires, false, "")
  }

  /** The token-key merge of NetworkJoinToken, or None when a key finds no free slot. */
  ghost function Imported(s: Slots, ks: seq<TokenKey>, n: nat): Option<Slots>
    requires n <= |ks|
  {
    if n == 0 then Some(s)
    else match Imported(s, ks, n - 1)
      case None => None
      case Some(t) => ImportOne(t, ks[n - 1])
  }

  ghost function ImportOne(t: Slots, k: TokenKey): Option<Slots> {
    if Find(t, k.key) >= 0 then Some(t)
    else if Find(t, "") >= 0 then Some(t[Find(t, "") := Fresh(k.key, k.title, Find(t, ""), k.expires)])
    else None
  }

  /** The slots an accepted edit leaves, or None when the edit is refused. */
  ghost function Edited(lib: Lib, s: Slots, op: Op): Option<Slots> {
    match op
    case Generate(title, minted) =>
      var free := Find(s, "");
      if free < 0 then None else Some(s[free := Fresh(minted, title, free, "")])
    case GenerateInto(slot, title, minted) =>
      if !ValidSlot(slot) || s[slot].key != "" then None
      else Some(s[slot := Fresh(minted, title, slot, "")])
    case Set(slot, key, title) =>
      if !ValidSlot(slot) || !lib.decodes(key) then None
      else
        var kept := if title == "" then s[slot].title else title;
        Some(s[slot := Fresh(key, kept, slot, "")])
    case SetTitle(slot, title) =>
      if !Occupied(s, slot) then None
      else Some(s[slot := s[slot].(title := Titled(TrimSpace(title), slot))])
    case SetNotes(slot, notes) =>
      if !Occupied(s, slot) then None else Some(s[slot := s[slot].(notes := TrimSpace(notes))])
    case SetExpiry(slot, expires) =>
      var e := TrimSpace(expires);
      if !Occupied(s, slot) || (e != "" && !lib.isTime(e)) then None
      else Some(s[slot := s[slot].(expires := e)])
    case SetEnabled(slot, on) =>
      if !Occupied(s, slot) || (!on && IsLastEnabled(s, slot)) then None
      else Some(s[slot := s[slot].(enabled := on)])
    case SetDistributed(slot, on) =>
      if !Occupied(s, slot) then None else Some(s[slot := s[slot].(distributed := on)])
    case Delete(slot) =>
      if !Occupied(s, slot) || IsLastEnabled(s, slot) then None else Some(s[slot := EMPTY])
    case Import(ks) => Imported(s, ks, |ks|)
    case FoldAll(ps) => Some(Folded(s, ps, |ps|))
    case RetractAll(ids) => Some(Retracted(lib, s, ids, |ids|))
  }

  /** A network's slots as the operations edit them in place. */
  class Network {
    var keys: array<KeySlot>

    ghost predicate Valid()
      reads this
    {
      keys.Length == SLOTS
    }

    ghost function Contents(): (s: Slots)
      requires Valid()
      reads this, keys
      ensures s == keys[..]
    {
      keys[..]
    }

    /** Whether `op` took effect: the slots are what `Edited` says, and a refusal changes nothing. */
    twostate predicate Did(lib: Lib, op: Op, ok: bool)
      requires old(Valid()) && Valid()
      reads this, keys
    {
      match Edited(lib, old(Contents()), op)
      case Some(t) => ok && Contents() == t
      case None => !ok && Contents() == old(Contents())
    }

    method FirstFree() returns (slot: int)
      requires Valid()
      ensures slot == Find(Contents(), "")
    {
      slot := -1;
      for i := 0 to SLOTS
        invariant slot == -1 && forall j :: 0 <= j < i ==> keys[j].key != ""
      {
        if keys[i].key == "" {
          slot := i;
          break;
        }
      }
      FirstUnique(Contents(), "", slot);
    }

    method KeyGenerate(lib: Lib, title: string, minted: string) returns (ok: bool)
      requires Valid()
      modifies keys
      ensures Valid() && Did(lib, Generate(title, minted), ok)
    {
      var slot := FirstFree();
      ok := slot >= 0;
      if ok {
        keys[slot] := Fresh(minted, title, slot, "");
      }
    }

    method KeyGenerateInto(lib: Lib, slot: int, title: string, minted: string) returns (ok: bool)
      requires Valid()
      modifies keys
      ensures Valid() && Did(lib, GenerateInto(slot, title, minted), ok)
    {
      ok := ValidSlot(slot) && keys[slot].key == "";
      if ok {
        keys[slot] := Fresh(minted, title, slot, "");
      }
    }

    method KeySet(lib: Lib, slot: int, key: string, title: string) returns (ok: bool)
      requires Valid()
      modifies keys
      ensures Valid() && Did(lib, Set(slot, key, title), ok)
    {
      ok := ValidSlot(slot) && lib.decodes(key);
      if ok {
        var kept := title;
        if kept == "" {
          if keys[slot].title != "" {
            kept := keys[slot].title;
          } else {
            kept := DefaultTitle(slot);
          }
        }
        keys[slot] := KeySlot(key, kept, true, "", false, "");
      }
    }

    method KeySetTitle(lib: Lib, slot: int, title: string) returns (ok: bool)
      requires Valid()
      modifies keys
      ensures Valid() && Did(lib, SetTitle(slot, title), ok)
    {
      ok := ValidSlot(slot) && keys[slot].key != "";
      if ok {
        keys[slot] := keys[slot].(title := Titled(TrimSpace(title), slot));
      }
    }

    method KeySetNotes(lib: Lib, slot: int, notes: string) returns (ok: bool)
      requires Valid()
      modifies keys
      ensures Valid() && Did(lib, SetNotes(slot, notes), ok)
    {
      ok := ValidSlot(slot) && keys[slot].key != "";
      if ok {
        keys[slot] := keys[slot].(notes := TrimSpace(notes));
      }
    }

    method KeySetExpiry(lib: Lib, slot: int, expires: string) returns (ok: bool)
      requires Valid()
      modifies keys
      ensures Valid() && Did(lib, SetExpiry(slot, expires), ok)
    {
      var e := TrimSpace(expires);
      ok := ValidSlot(slot) && keys[slot].key != "" && (e == "" || lib.isTime(e));
      if ok {
        keys[slot] := keys[slot].(expires := e);
        assert keys[..] == old(keys[..])[slot := old(keys[slot]).(expires := e)];
      }
    }

    method KeySetEnabled(lib: Lib, slot: int, on: bool) returns (ok: bool)
      requires Valid()
      modifies keys
      ensures Valid() && Did(lib, SetEnabled(slot, on), ok)
    {
      ok := ValidSlot(slot) && keys[slot].key != "" && (on || !IsLastEnabled(keys[..], slot));
      if ok {
        keys[slot] := keys[slot].(enabled := on);
      }
    }

    method KeySetDistributed(lib: Lib, slot: int, on: bool) returns (ok: bool)
      requires Valid()
      modifies keys
      ensures Valid() && Did(lib, SetDistributed(slot, on), ok)
    {
      ok := ValidSlot(slot) && keys[slot].key != "";
      if ok {
        keys[slot] := keys[slot].(distributed := on);
      }
    }

    method KeyDelete(lib: Lib, slot: int) returns (ok: bool)
      requires Valid()
      modifies keys
      ensures Valid() && Did(lib, Delete(slot), ok)
    {
      ok := ValidSlot(slot) && keys[slot].key != "" && !IsLastEnabled(keys[..], slot);
      if ok {
        keys[slot] := EMPTY;
      }
    }
  }

  lemma FirstUnique(s: Slots, key: string, r: int)
    requires IsFirst(s, key, r)
    ensures r == Find(s, key)
  {
  }

  // ---------------------------------------------------------------- never locked out

  lemma {:induction false} ImportKeepsAlive(s: Slots, ks: seq<TokenKey>, n: nat)
    requires n <= |ks| && Alive(s)
    ensures match Imported(s, ks, n) case Some(t) => Alive(t) case None => true
  {
    if n > 0 && Imported(s, ks, n - 1).Some? {
      ImportKeepsAlive(s, ks, n - 1);
      var t := Imported(s, ks, n - 1).value;
      var i :| 0 <= i < SLOTS && Live(t[i]);
      var u := ImportOne(t, ks[n - 1]);
      assert u.Some? ==> u.value[i] == t[i];
    }
  }

  lemma FoldOneKeepsAlive(s: Slots, p: Learned)
    requires Alive(s)
    ensures Alive(FoldOne(s, p))
  {
    var i :| 0 <= i < SLOTS && Live(s[i]);
    assert Live(FoldOne(s, p)[i]);
  }

  lemma {:induction false} FoldKeepsAlive(s: Slots, ps: seq<Learned>, n: nat)
    requires n <= |ps| && Alive(s)
    ensures Alive(Folded(s, ps, n))
  {
    if n > 0 {
      FoldKeepsAlive(s, ps, n - 1);
      FoldOneKeepsAlive(Folded(s, ps, n - 1), ps[n - 1]);
    }
  }

  /** No edit, import, fold or retraction takes a network's last enabled key away. */
  lemma EditKeepsAlive(lib: Lib, s: Slots, op: Op)
    requires !lib.decodes("") && Alive(s)
    requires op.GenerateInto? || op.Generate? ==> op.minted != ""
    ensures match Edited(lib, s, op) case Some(t) => Alive(t) case None => true
  {
    match op {
      case Import(ks) => ImportKeepsAlive(s, ks, |ks|);
      case FoldAll(ps) => FoldKeepsAlive(s, ps, |ps|);
      case RetractAll(ids) => RetractionIsSafe(lib, s, ids, |ids|);
      case _ => SlotEditKeepsAlive(lib, s, op);
    }
  }

  lemma SlotEditKeepsAlive(lib: Lib, s: Slots, op: Op)
    requires !lib.decodes("") && Alive(s)
    requires op.GenerateInto? || op.Generate? ==> op.minted != ""
    requires !op.Import? && !op.FoldAll? && !op.RetractAll?
    ensures match Edited(lib, s, op) case Some(t) => Alive(t) case None => true
  {
    var e := Edited(lib, s, op);
    if e.Some? {
      var slot := if op.Generate? then Find(s, "") else op.slot;
      var t := e.value;
      assert t == s[slot := t[slot]];
      if Live(t[slot]) || !Live(s[slot]) {
        var i :| 0 <= i < SLOTS && Live(s[i]);
        assert Live(t[i]) || i == slot;
      } else {
        assert !IsLastEnabled(s, slot);
        var i :| 0 <= i < SLOTS && i != slot && Live(s[i]);
        assert Live(t[i]);
      }
    }
  }

  /** A run of edits; a refused edit leaves the slots alone. */
  ghost function AfterEdits(lib: Lib, s: Slots, ops: seq<Op>): Slots {
    if ops == [] then s
    else
      var t := AfterEdits(lib, s, ops[..|ops| - 1]);
      match Edited(lib, t, ops[|ops| - 1]) case Some(u) => u case None => t
  }

  /** Over every run of edits: a network that has an enabled key at some point has one at every
      later point. */
  lemma {:induction false} NeverLockedOut(lib: Lib, s: Slots, ops: seq<Op>)
    requires !lib.decodes("") && Alive(s)
    requires forall i :: 0 <= i < |ops| && (ops[i].GenerateInto? || ops[i].Generate?) ==> ops[i].minted != ""
    ensures Alive(AfterEdits(lib, s, ops))
  {
    if ops != [] {
      NeverLockedOut(lib, s, ops[..|ops| - 1]);
      EditKeepsAlive(lib, AfterEdits(lib, s, ops[..|ops| - 1]), ops[|ops| - 1]);
    }
  }
}
