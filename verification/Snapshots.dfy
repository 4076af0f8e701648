/** The store of configuration snapshots: files keyed by unix-millisecond ids, stepped forward
    when the id is taken, and pruned to the newest few after every write. */
module Snapshots {
  import opened Sets

  predicate Increasing(s: seq<int>) {
    forall i, j :: 0 <= i < j < |s| ==> s[i] < s[j]
  }

  lemma IncreasingAppend(s: seq<int>, x: int)
    requires Increasing(s) && forall y :: y in s ==> y < x
    ensures Increasing(s + [x])
  {
    forall i | 0 <= i < |s|
      ensures s[i] < x
    {
      assert s[i] in s;
    }
  }

  function Elements(s: seq<int>): set<int> {
    set x | x in s
  }

  lemma ElementsOfAppend(s: seq<int>, x: int)
    ensures Elements(s + [x]) == Elements(s) + {x}
  {
  }

  // ---------------------------------------------------------------- listings

  /** The directory as listIDs reports it: ids in ascending order. */
  ghost predicate Lists(ids: seq<int>, disk: set<int>) {
    Increasing(ids) && Elements(ids) == disk
  }

  lemma {:induction false} ListsUnique(a: seq<int>, b: seq<int>)
    requires Increasing(a) && Increasing(b) && Elements(a) == Elements(b)
    ensures a == b
  {
    if a == [] {
      assert forall i :: 0 <= i < |b| ==> b[i] in Elements(b);
    } else {
      var x := a[|a| - 1];
      assert x in Elements(b);
      var y := b[|b| - 1];
      assert y in Elements(a);
      var a', b' := a[..|a| - 1], b[..|b| - 1];
      assert a == a' + [x] && b == b' + [y];
      assert x == y;
      assert Elements(a') == Elements(a) - {x};
      assert Elements(b') == Elements(b) - {y};
      ListsUnique(a', b');
    }
  }

  lemma Member<T>(s: set<T>) returns (x: T)
    requires s != {}
    ensures x in s
  {
    x :| x in s;
  }

  lemma {:induction false} Largest(disk: set<int>) returns (m: int)
    requires disk != {}
    ensures m in disk && forall x :: x in disk ==> x <= m
    decreases disk
  {
    var y := Member(disk);
    if disk == {y} {
      m := y;
    } else {
      var rest := Largest(disk - {y});
      m := if y < rest then rest else y;
      forall x | x in disk
        ensures x <= m
      {
        assert x == y || x in disk - {y};
      }
    }
  }

  lemma {:induction false} SomeListing(disk: set<int>)
    ensures exists ids :: Lists(ids, disk)
    decreases disk
  {
    if disk == {} {
      assert Lists([], disk);
    } else {
      var m := Largest(disk);
      SomeListing(disk - {m});
      var ids :| Lists(ids, disk - {m});
      forall y | y in ids
        ensures y < m
      {
        assert y in Elements(ids);
      }
      IncreasingAppend(ids, m);
      ElementsOfAppend(ids, m);
      assert Lists(ids + [m], disk);
    }
  }

  ghost function Listing(disk: set<int>): (ids: seq<int>)
    ensures Lists(ids, disk)
  {
    SomeListing(disk);
    var ids :| Lists(ids, disk);
    ids
  }

  /** The last n entries. */
  function Newest(ids: seq<int>, n: nat): seq<int> {
    if |ids| <= n then ids else ids[|ids| - n..]
  }

  function AtLeastOne(limit: int): nat {
    if limit < 1 then 1 else limit
  }

  /** What pruning leaves: the last ids of the listing. */
  ghost function Kept(disk: set<int>, limit: int): set<int> {
    Elements(Newest(Listing(disk), AtLeastOne(limit)))
  }

  /** The first free id at or after the clock. */
  ghost predicate FirstFree(disk: set<int>, now: int, id: int) {
    now <= id && id !in disk && forall x :: now <= x < id ==> x in disk
  }

  /** Ids at or ahead of the clock. */
  function Ahead(disk: set<int>, now: int): set<int> {
    set x | x in disk && now <= x
  }

  lemma {:induction false} SomeIDIsFree(disk: set<int>, now: int)
    ensures exists id :: FirstFree(disk, now, id)
    decreases Ahead(disk, now)
  {
    if now in disk {
      assert now in Ahead(disk, now);
      SomeIDIsFree(disk, now + 1);
      var id :| FirstFree(disk, now + 1, id);
      assert FirstFree(disk, now, id);
    } else {
      assert FirstFree(disk, now, now);
    }
  }

  /** The id writeOne picks. */
  ghost function NextID(disk: set<int>, now: int): (id: int)
    ensures FirstFree(disk, now, id)
  {
    SomeIDIsFree(disk, now);
    var id :| FirstFree(disk, now, id);
    id
  }

  // ---------------------------------------------------------------- runs

  /** A run of the store: what it found on disk, then writes and prunings in any order. A manual
      snapshot is a write and a pruning; the first tracked commit is two writes and a pruning. */
  datatype Log = Found(ids: set<int>) | Wrote(log: Log, now: int) | Pruned(log: Log, limit: int)

  ghost function Disk(log: Log): set<int> {
    match log
    case Found(ids) => ids
    case Wrote(l, now) => Disk(l) + {NextID(Disk(l), now)}
    case Pruned(l, limit) => Kept(Disk(l), limit)
  }

  // ---------------------------------------------------------------- sorting

  predicate SortedUpTo(a: seq<int>, n: int) {
    forall i, j :: 0 <= i < j < n && j < |a| ==> a[i] <= a[j]
  }

  /** The inner loop: element i goes down to its place among those before it. */
  method SinkInt64(a: array<int>, i: nat)
    requires i < a.Length && SortedUpTo(a[..], i)
    modifies a
    ensures SortedUpTo(a[..], i + 1)
    ensures multiset(a[..]) == multiset(old(a[..]))
  {
    var j := i;
    while j > 0 && a[j - 1] > a[j]
      invariant 0 <= j <= i
      invariant forall p, q :: 0 <= p < q <= i && q != j ==> a[p] <= a[q]
      invariant multiset(a[..]) == multiset(old(a[..]))
    {
      a[j - 1], a[j] := a[j], a[j - 1];
      j := j - 1;
    }
  }

  method SortInt64s(a: array<int>)
    modifies a
    ensures SortedUpTo(a[..], a.Length)
    ensures multiset(a[..]) == multiset(old(a[..]))
  {
    var i := 1;
    while i < a.Length
      invariant 1 <= i
      invariant SortedUpTo(a[..], i)
      invariant multiset(a[..]) == multiset(old(a[..]))
    {
      SinkInt64(a, i);
      i := i + 1;
    }
  }

  // ---------------------------------------------------------------- the store

  lemma DropOldest(ids: seq<int>, disk: set<int>)
    requires Lists(ids, disk) && ids != []
    ensures Lists(ids[1..], disk - {ids[0]})
  {
    assert ids == [ids[0]] + ids[1..];
    assert ids[0] !in ids[1..];
  }

  class Store {
    /** Ids of the snapshot files in the history directory. */
    var disk: set<int>

    constructor ()
      ensures disk == {}
    {
      disk := {};
    }

    method ListIDs() returns (ids: seq<int>)
      ensures ids == Listing(disk)
    {
      var entries: seq<int> := [];
      var rest := disk;
      while rest != {}
        invariant rest <= disk && Elements(entries) == disk - rest
        invariant NoRepeats(entries)
        decreases |rest|
      {
        ghost var some := Member(rest);
        var x :| x in rest;
        assert x !in Elements(entries);
        ElementsOfAppend(entries, x);
        entries := entries + [x];
        rest := rest - {x};
      }
      var a := new int[|entries|](i requires 0 <= i < |entries| => entries[i]);
      assert a[..] == entries;
      SortInt64s(a);
      ids := a[..];
      SortedDistinct(entries, ids);
      ListsUnique(ids, Listing(disk));
    }

    method WriteOne(now: int) returns (id: int)
      modifies this
      ensures id == NextID(old(disk), now) && disk == old(disk) + {id}
    {
      id := now;
      while id in disk
        invariant now <= id
        invariant forall x :: now <= x < id ==> x in disk
        decreases Ahead(disk, id)
      {
        assert id in Ahead(disk, id);
        id := id + 1;
      }
      assert FirstFree(disk, now, id);
      disk := disk + {id};
    }

    method Prune(limit: int)
      modifies this
      ensures disk == Kept(old(disk), limit)
    {
      var keep := if limit < 1 then 1 else limit;
      var ids := ListIDs();
      var cut := if |ids| <= keep then 0 else |ids| - keep;
      var k := 0;
      while k < cut
        invariant 0 <= k <= cut
        invariant Lists(ids[k..], disk)
      {
        DropOldest(ids[k..], disk);
        disk := disk - {ids[k]};
        k := k + 1;
      }
    }

    method SnapshotNow(now: int, limit: int) returns (id: int)
      modifies this
      ensures id == NextID(old(disk), now)
      ensures disk == Disk(Pruned(Wrote(Found(old(disk)), now), limit))
    {
      id := WriteOne(now);
      assert disk == Disk(Wrote(Found(old(disk)), now));
      Prune(limit);
    }

    /** A committed change. The first one tracked also writes the state before it. */
    method OnCommit(changed: bool, before: int, after: int, limit: int)
      modifies this
      ensures !changed ==> disk == old(disk)
      ensures changed ==>
                var start := if old(disk) == {} then Wrote(Found({}), before) else Found(old(disk));
                disk == Disk(Pruned(Wrote(start, after), limit))
    {
      if !changed {
        return;
      }
      var ids := ListIDs();
      assert ids == [] <==> disk == {} by {
        assert ids != [] ==> ids[0] in Elements(ids);
      }
      ghost var start := if disk == {} then Wrote(Found({}), before) else Found(disk);
      if |ids| == 0 {
        var base := WriteOne(before);
      }
      assert disk == Disk(start);
      var id := WriteOne(after);
      assert disk == Disk(Wrote(start, after));
      Prune(limit);
    }
  }

  lemma SortedDistinct(entries: seq<int>, ids: seq<int>)
    requires multiset(entries) == multiset(ids) && SortedUpTo(ids, |ids|)
    requires NoRepeats(entries)
    ensures Lists(ids, Elements(entries))
  {
    forall x
      ensures x in entries <==> x in ids
    {
      assert x in multiset(entries) <==> x in multiset(ids);
    }
    forall i, j | 0 <= i < j < |ids|
      ensures ids[i] < ids[j]
    {
      if ids[i] == ids[j] {
        OnlyOnce(entries, ids[i]);
        Twice(ids, i, j);
      }
    }
  }

  lemma {:induction false} OnlyOnce(s: seq<int>, x: int)
    requires NoRepeats(s)
    ensures multiset(s)[x] <= 1
  {
    if s != [] {
      var n := |s| - 1;
      assert s == s[..n] + [s[n]];
      OnlyOnce(s[..n], x);
      if s[n] == x {
        assert x !in s[..n];
      }
    }
  }

  lemma Twice(s: seq<int>, i: int, j: int)
    requires 0 <= i < j < |s| && s[i] == s[j]
    ensures multiset(s)[s[i]] >= 2
  {
    assert s == s[..j] + [s[j]] + s[j + 1..];
    assert s[i] in s[..j];
  }

  // ---------------------------------------------------------------- one write, one pruning

  /** The ids at or ahead of the clock form one unbroken run that starts at the clock. */
  ghost predicate Contiguous(disk: set<int>, now: int) {
    forall x, y :: x in disk && now <= y <= x ==> y in disk
  }

  ghost predicate Tops(disk: set<int>, id: int) {
    forall x :: x in disk ==> x < id
  }

  /** A new id exceeds every id on disk exactly when the ids ahead of the clock are contiguous. */
  lemma NewIDIsLargest(disk: set<int>, now: int)
    ensures Tops(disk, NextID(disk, now)) <==> Contiguous(disk, now)
  {
    var id := NextID(disk, now);
    if Contiguous(disk, now) {
      forall x | x in disk
        ensures x < id
      {
        assert now <= id <= x ==> id in disk;
      }
    }
  }

  lemma WriteKeepsRun(disk: set<int>, now: int)
    requires Contiguous(disk, now)
    ensures Contiguous(disk + {NextID(disk, now)}, now)
  {
  }

  /** Where the ids at or ahead of the clock begin in the listing. */
  lemma {:induction false} SplitAt(ids: seq<int>, now: int) returns (k: nat)
    requires Increasing(ids)
    ensures k <= |ids| && forall i :: 0 <= i < |ids| ==> (ids[i] < now <==> i < k)
    ensures |Ahead(Elements(ids), now)| == |ids| - k
  {
    k := 0;
    while k < |ids| && ids[k] < now
      invariant k <= |ids| && forall i :: 0 <= i < k ==> ids[i] < now
    {
      k := k + 1;
    }
    assert NoRepeats(ids[k..]);
    forall x
      ensures x in Ahead(Elements(ids), now) <==> x in ids[k..]
    {
      if x in ids && now <= x {
        var i :| 0 <= i < |ids| && ids[i] == x;
        assert ids[k..][i - k] == x;
      }
    }
    CardOf(ids[k..], Ahead(Elements(ids), now));
  }

  /** Pruning keeps exactly the ids with fewer than the limit's number at or ahead of them. */
  lemma KeptExactly(disk: set<int>, limit: int, x: int)
    requires x in disk
    ensures x in Kept(disk, limit) <==> |Ahead(disk, x)| <= AtLeastOne(limit)
  {
    var ids, n := Listing(disk), AtLeastOne(limit);
    assert x in Elements(ids);
    var k := SplitAt(ids, x);
    var i :| 0 <= i < |ids| && ids[i] == x;
    assert k < |ids| && ids[k] >= x;
    var kept := Newest(ids, n);
    if |ids| - k <= n {
      assert kept[|kept| - (|ids| - k)] == x;
    }
  }

  lemma KeptWithin(disk: set<int>, limit: int)
    ensures Kept(disk, limit) <= disk
  {
    var ids := Listing(disk);
    forall x | x in Kept(disk, limit)
      ensures x in disk
    {
      assert x in Elements(ids);
    }
  }

  lemma AheadShrinks(disk: set<int>, x: int, y: int)
    requires x <= y
    ensures |Ahead(disk, y)| <= |Ahead(disk, x)|
  {
    SubsetCard(Ahead(disk, y), Ahead(disk, x));
  }

  /** Pruning leaves the run ahead of the clock unbroken exactly when it fits the limit. */
  lemma PruneKeepsRun(disk: set<int>, now: int, limit: int)
    requires Contiguous(disk, now)
    ensures Contiguous(Kept(disk, limit), now) <==> |Ahead(disk, now)| <= AtLeastOne(limit)
  {
    var kept := Kept(disk, limit);
    KeptWithin(disk, limit);
    if |Ahead(disk, now)| <= AtLeastOne(limit) {
      forall x, y | x in kept && now <= y <= x
        ensures y in kept
      {
        AheadShrinks(disk, now, y);
        KeptExactly(disk, limit, y);
      }
    } else {
      CrowdedOut(disk, now, limit);
    }
  }

  lemma CrowdedOut(disk: set<int>, now: int, limit: int)
    requires Contiguous(disk, now) && |Ahead(disk, now)| > AtLeastOne(limit)
    ensures now in disk && now !in Kept(disk, limit) && Kept(disk, limit) != {}
    ensures forall x :: x in Kept(disk, limit) ==> now < x
  {
    var first :| first in Ahead(disk, now);
    assert now in disk;
    KeptExactly(disk, limit, now);
    KeptWithin(disk, limit);
    forall x | x in Kept(disk, limit)
      ensures now < x
    {
      KeptExactly(disk, limit, x);
      if x <= now {
        AheadShrinks(disk, x, now);
      }
    }
    var m := Largest(disk);
    assert Ahead(disk, m) == {m};
    KeptExactly(disk, limit, m);
  }

  /** The largest id survives every pruning. */
  lemma LargestStays(disk: set<int>, id: int, limit: int)
    requires Tops(disk, id)
    ensures id in Kept(disk + {id}, limit)
  {
    assert Ahead(disk + {id}, id) == {id};
    KeptExactly(disk + {id}, limit, id);
  }

  lemma KeptIsFull(disk: set<int>, limit: int)
    requires |disk| >= AtLeastOne(limit)
    ensures |Kept(disk, limit)| == AtLeastOne(limit)
  {
    var ids, n := Listing(disk), AtLeastOne(limit);
    CardOf(ids, disk);
    CardOf(Newest(ids, n), Kept(disk, limit));
  }

  /** A further write in the same millisecond survives its own pruning exactly when the ids ahead
      of the clock fitted the limit at the pruning before; otherwise it gets the smallest id of
      all and is deleted at once. */
  lemma CrowdedMillisecondLosesSnapshot(disk: set<int>, now: int, limit: int)
    requires Contiguous(disk, now)
    ensures var kept := Kept(disk, limit);
            var id := NextID(kept, now);
            && (id in Kept(kept + {id}, limit) <==> |Ahead(disk, now)| <= AtLeastOne(limit))
            && (|Ahead(disk, now)| > AtLeastOne(limit) ==> id == now)
  {
    var kept := Kept(disk, limit);
    var id := NextID(kept, now);
    PruneKeepsRun(disk, now, limit);
    if |Ahead(disk, now)| <= AtLeastOne(limit) {
      NewIDIsLargest(kept, now);
      LargestStays(kept, id, limit);
    } else {
      CrowdedOut(disk, now, limit);
      SubsetCard(Ahead(disk, now), disk);
      KeptIsFull(disk, limit);
      assert Ahead(kept + {now}, now) == kept + {now};
      KeptExactly(kept + {now}, limit, now);
    }
  }

  /** The baseline of the first tracked commit outlives that commit exactly when two snapshots may
      be kept, or the clock went back between them and the baseline is the newer of the two. */
  lemma BaselineKeptExactly(before: int, after: int, limit: int)
    ensures before in Disk(Pruned(Wrote(Wrote(Found({}), before), after), limit)) <==> limit >= 2 || after < before
  {
    var first := Wrote(Found({}), before);
    assert Disk(first) == {before} by {
      assert before !in Disk(Found({}));
    }
    var id := NextID(Disk(first), after);
    var disk := Disk(Wrote(first, after));
    assert after != before ==> after !in Disk(first) && id == after;
    assert after == before ==> id > before;
    assert Ahead(disk, before) == if after < before then {before} else {before, id};
    KeptExactly(disk, limit, before);
  }

  // ---------------------------------------------------------------- order over whole runs

  /** At every write the ids ahead of the clock were contiguous. */
  ghost predicate Ordered(log: Log) {
    match log
    case Found(_) => true
    case Wrote(l, now) => Ordered(l) && Contiguous(Disk(l), now)
    case Pruned(l, _) => Ordered(l)
  }

  /** Everything there was to begin with, then everything written, in the order of writing. */
  ghost function Everything(log: Log): seq<int> {
    match log
    case Found(ids) => Listing(ids)
    case Wrote(l, now) => Everything(l) + [NextID(Disk(l), now)]
    case Pruned(l, _) => Everything(l)
  }

  lemma {:induction false} DiskIsOfEverything(log: Log)
    ensures forall x :: x in Disk(log) ==> x in Everything(log)
  {
    match log {
      case Found(ids) =>
        forall x | x in ids
          ensures x in Listing(ids)
        {
          assert x in Elements(Listing(ids));
        }
      case Wrote(l, now) => DiskIsOfEverything(l);
      case Pruned(l, limit) =>
        DiskIsOfEverything(l);
        KeptWithin(Disk(l), limit);
    }
  }

  lemma LastIsLargest(s: seq<int>, x: int)
    requires Increasing(s) && x in s
    ensures x <= s[|s| - 1]
  {
  }

  lemma GrowStep(known: seq<int>, disk: set<int>, id: int)
    requires Increasing(known) && Tops(disk, id) && (known != [] ==> known[|known| - 1] in disk)
    ensures Increasing(known + [id])
  {
    forall x | x in known
      ensures x < id
    {
      LastIsLargest(known, x);
    }
    IncreasingAppend(known, id);
  }

  lemma LastStays(known: seq<int>, disk: set<int>, limit: int)
    requires Increasing(known) && known != [] && known[|known| - 1] in disk
    requires forall x :: x in disk ==> x in known
    ensures known[|known| - 1] in Kept(disk, limit)
  {
    var last := known[|known| - 1];
    forall x | x in disk - {last}
      ensures x < last
    {
      LastIsLargest(known, x);
    }
    assert disk == (disk - {last}) + {last};
    LargestStays(disk - {last}, last, limit);
  }

  lemma {:induction false} OrderedGrows(log: Log)
    requires Ordered(log)
    ensures Increasing(Everything(log))
    ensures Everything(log) != [] ==> Everything(log)[|Everything(log)| - 1] in Disk(log)
  {
    match log {
      case Found(ids) =>
        var all := Listing(ids);
        assert all != [] ==> all[|all| - 1] in Elements(all);
      case Wrote(l, now) =>
        OrderedGrows(l);
        NewIDIsLargest(Disk(l), now);
        GrowStep(Everything(l), Disk(l), NextID(Disk(l), now));
      case Pruned(l, limit) =>
        OrderedGrows(l);
        DiskIsOfEverything(l);
        if Everything(l) != [] {
          LastStays(Everything(l), Disk(l), limit);
        }
    }
  }

  /** Over a whole run each id exceeds every id there was before it, deleted ones included, if and
      only if the ids ahead of the clock were contiguous at every write. */
  lemma {:induction false} IDsOnlyGrow(log: Log)
    ensures Increasing(Everything(log)) <==> Ordered(log)
  {
    if Ordered(log) {
      OrderedGrows(log);
    }
    if Increasing(Everything(log)) {
      match log {
        case Found(_) =>
        case Wrote(l, now) =>
          var all, id := Everything(log), NextID(Disk(l), now);
          assert Everything(l) == all[..|all| - 1];
          IDsOnlyGrow(l);
          DiskIsOfEverything(l);
          forall x | x in Disk(l)
            ensures x < id
          {
            assert x in Everything(l);
            var i :| 0 <= i < |Everything(l)| && Everything(l)[i] == x;
            assert all[i] == x && all[|all| - 1] == id;
          }
          NewIDIsLargest(Disk(l), now);
        case Pruned(l, _) => IDsOnlyGrow(l);
      }
    }
  }

  // ---------------------------------------------------------------- retention over whole runs

  /** Every pruning uses the one limit. */
  predicate OneLimit(log: Log, limit: int) {
    match log
    case Found(_) => true
    case Wrote(l, _) => OneLimit(l, limit)
    case Pruned(l, m) => m == limit && OneLimit(l, limit)
  }

  /** At every point of the run, the newest n on disk are the last n of everything written. */
  ghost predicate NewestAlways(log: Log, n: nat) {
    && Newest(Listing(Disk(log)), n) == Newest(Everything(log), n)
    && match log
       case Found(_) => true
       case Wrote(l, _) => NewestAlways(l, n)
       case Pruned(l, _) => NewestAlways(l, n)
  }

  lemma ListingOfMore(disk: set<int>, id: int)
    requires Tops(disk, id)
    ensures Listing(disk + {id}) == Listing(disk) + [id]
  {
    var ids := Listing(disk);
    forall y | y in ids
      ensures y < id
    {
      assert y in Elements(ids);
    }
    IncreasingAppend(ids, id);
    ElementsOfAppend(ids, id);
    ListsUnique(ids + [id], Listing(disk + {id}));
  }

  lemma ListingOfKept(disk: set<int>, limit: int)
    ensures Listing(Kept(disk, limit)) == Newest(Listing(disk), AtLeastOne(limit))
  {
    ListsUnique(Newest(Listing(disk), AtLeastOne(limit)), Listing(Kept(disk, limit)));
  }

  lemma NewestAgain(ids: seq<int>, id: int, n: nat)
    requires n > 0
    ensures Newest(Newest(ids, n) + [id], n) == Newest(ids + [id], n)
  {
  }

  lemma NewestTops(disk: set<int>, id: int, all: seq<int>, n: nat)
    requires n > 0 && Newest(Listing(disk + {id}), n) == Newest(all + [id], n)
    ensures forall x :: x in disk ==> x <= id
  {
    var ids := Listing(disk + {id});
    assert id in Elements(ids);
    assert ids[|ids| - 1] == id by {
      assert Newest(ids, n)[|Newest(ids, n)| - 1] == ids[|ids| - 1];
      assert Newest(all + [id], n)[|Newest(all + [id], n)| - 1] == id;
    }
    forall x | x in disk
      ensures x <= id
    {
      assert x in Elements(ids);
      LastIsLargest(ids, x);
    }
  }

  /** With one limit, the newest on disk are at every point the newest of everything ever written,
      if and only if no new id came below a stored one, which is when the ids ahead of the clock
      were contiguous at every write. */
  lemma {:induction false} KeepsTheNewestExactly(log: Log, limit: int)
    requires OneLimit(log, limit)
    ensures NewestAlways(log, AtLeastOne(limit)) <==> Ordered(log)
  {
    var n := AtLeastOne(limit);
    match log {
      case Found(_) =>
      case Wrote(l, now) =>
        var disk, id := Disk(l), NextID(Disk(l), now);
        KeepsTheNewestExactly(l, limit);
        NewIDIsLargest(disk, now);
        if Ordered(log) {
          ListingOfMore(disk, id);
          NewestAgain(Listing(disk), id, n);
          NewestAgain(Everything(l), id, n);
        }
        if NewestAlways(log, n) {
          NewestTops(disk, id, Everything(l), n);
        }
      case Pruned(l, _) =>
        KeepsTheNewestExactly(l, limit);
        ListingOfKept(Disk(l), limit);
    }
  }

  /** So right after a pruning the disk holds exactly the last of everything written. */
  lemma DiskIsTheNewest(log: Log, limit: int)
    requires log.Pruned? && OneLimit(log, limit) && Ordered(log)
    ensures Listing(Disk(log)) == Newest(Everything(log), AtLeastOne(limit))
  {
    KeepsTheNewestExactly(log, limit);
    ListingOfKept(Disk(log.log), limit);
  }

  // ---------------------------------------------------------------- a steady clock is enough

  /** The last clock reading, if there was a write. */
  predicate ReadClock(log: Log) {
    log.Wrote? || (log.Pruned? && ReadClock(log.log))
  }

  function Clock(log: Log): int
    requires ReadClock(log)
  {
    if log.Wrote? then log.now else Clock(log.log)
  }

  /** The clock never goes back, the ids found at first are contiguous ahead of it, and every
      pruning leaves room for the ids at or ahead of it. */
  ghost predicate Steady(log: Log) {
    match log
    case Found(_) => true
    case Wrote(l, now) => Steady(l) && if ReadClock(l) then Clock(l) <= now else Contiguous(Disk(l), now)
    case Pruned(l, limit) => Steady(l) && (ReadClock(l) ==> |Ahead(Disk(l), Clock(l))| <= AtLeastOne(limit))
  }

  lemma {:induction false} SteadyIsOrdered(log: Log)
    requires Steady(log)
    ensures Ordered(log) && (ReadClock(log) ==> Contiguous(Disk(log), Clock(log)))
  {
    match log {
      case Found(_) =>
      case Wrote(l, now) =>
        SteadyIsOrdered(l);
        WriteKeepsRun(Disk(l), now);
      case Pruned(l, limit) =>
        SteadyIsOrdered(l);
        if ReadClock(l) {
          PruneKeepsRun(Disk(l), Clock(l), limit);
        }
    }
  }
}
