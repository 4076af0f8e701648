/** Which bootstrap endpoints a network remembers between runs. */
module PeerCache {
  import opened Sets

  /** What decides whether an old endpoint keeps its place: whether it was ever reached in this
      run, and whether the run is still too young to judge. */
  datatype Judge = Judge(reached: string -> bool, young: bool)

  datatype Merge = Merge(merged: seq<string>, pruned: nat)

  function Add(out: seq<string>, s: string, max: nat): seq<string> {
    if s != "" && s !in out && |out| < max then out + [s] else out
  }

  function Live(live: seq<string>, max: nat, n: nat): seq<string>
    requires n <= |live|
  {
    if n == 0 then [] else Add(Live(live, max, n - 1), live[n - 1], max)
  }

  predicate Keeps(j: Judge, out: seq<string>, s: string) {
    s in out || j.reached(s) || j.young
  }

  function Cached(j: Judge, start: seq<string>, cached: seq<string>, max: nat, n: nat): Merge
    requires n <= |cached|
  {
    if n == 0 then Merge(start, 0)
    else
      var m, s := Cached(j, start, cached, max, n - 1), cached[n - 1];
      if Keeps(j, m.merged, s) then m.(merged := Add(m.merged, s, max)) else m.(pruned := m.pruned + 1)
  }

  function Merged(j: Judge, live: seq<string>, cached: seq<string>, max: nat): Merge {
    Cached(j, Live(live, max, |live|), cached, max, |cached|)
  }

  method MergePeerCache(j: Judge, live: seq<string>, cached: seq<string>, max: nat)
    returns (merged: seq<string>, pruned: nat)
    ensures Merge(merged, pruned) == Merged(j, live, cached, max)
  {
    merged, pruned := [], 0;
    var seen: set<string> := {};
    for i := 0 to |live|
      invariant merged == Live(live, max, i)
      invariant forall s :: s in seen <==> s in merged
    {
      if live[i] != "" && live[i] !in seen && |merged| < max {
        seen := seen + {live[i]};
        merged := merged + [live[i]];
      }
    }
    ghost var start := merged;
    for i := 0 to |cached|
      invariant Merge(merged, pruned) == Cached(j, start, cached, max, i)
      invariant forall s :: s in seen <==> s in merged
    {
      var s := cached[i];
      if s in seen || j.reached(s) || j.young {
        if s != "" && s !in seen && |merged| < max {
          seen := seen + {s};
          merged := merged + [s];
        }
        continue;
      }
      pruned := pruned + 1;
    }
  }

  // ---------------------------------------------------------------- what it holds

  /** Distinct endpoints, none empty, within the cap. */
  ghost predicate Proper(xs: seq<string>, max: nat) {
    |xs| <= max && "" !in xs && NoRepeats(xs)
  }

  lemma {:induction false} LiveIs(live: seq<string>, max: nat, n: nat)
    requires n <= |live|
    ensures var f := Live(live, max, n);
            && Proper(f, max) && (forall s :: s in f ==> s in live[..n])
            && (|f| < max ==> forall s :: s in f <==> s != "" && s in live[..n])
  {
    if n > 0 {
      LiveIs(live, max, n - 1);
      assert live[..n] == live[..n - 1] + [live[n - 1]];
    }
  }

  lemma {:induction false} CachedIs(j: Judge, start: seq<string>, cached: seq<string>, max: nat, n: nat)
    requires n <= |cached| && Proper(start, max)
    ensures var m := Cached(j, start, cached, max, n).merged;
            && Proper(m, max) && start <= m
            && (forall s :: s in m ==> s in start || (s in cached[..n] && (j.reached(s) || j.young)))
            && (|m| < max ==>
                  forall s :: s in m <==> s in start || (s != "" && s in cached[..n] && (j.reached(s) || j.young)))
  {
    if n > 0 {
      CachedIs(j, start, cached, max, n - 1);
      assert cached[..n] == cached[..n - 1] + [cached[n - 1]];
    }
  }

  /** Live endpoints come first; then the old ones that deserve to stay; nothing else, nothing
      twice, never more than the cap, and nothing deserving is missing below the cap. */
  lemma MergeHolds(j: Judge, live: seq<string>, cached: seq<string>, max: nat)
    ensures var f, m := Live(live, max, |live|), Merged(j, live, cached, max).merged;
            && Proper(m, max) && f <= m && (forall s :: s in f ==> s in live)
            && (forall s :: s in m ==> s in live || (s in cached && (j.reached(s) || j.young)))
            && (|m| < max ==>
                  forall s :: s in m <==> s != "" && (s in live || (s in cached && (j.reached(s) || j.young))))
  {
    var f := Live(live, max, |live|);
    LiveIs(live, max, |live|);
    CachedIs(j, f, cached, max, |cached|);
    assert live[..|live|] == live && cached[..|cached|] == cached;
  }

  // ---------------------------------------------------------------- merging again

  lemma {:induction false} CachedAgain(j: Judge, f: seq<string>, m: seq<string>, max: nat, n: nat)
    requires n <= |m| && Proper(m, max) && f <= m
    requires forall s :: s in m ==> s in f || j.reached(s) || j.young
    ensures Cached(j, f, m, max, n) == Merge(if n < |f| then f else m[..n], 0)
  {
    if n > 0 {
      CachedAgain(j, f, m, max, n - 1);
      var s := m[n - 1];
      if n <= |f| {
        assert s == f[n - 1];
      } else {
        assert s in m && s !in m[..n - 1];
        assert m[..n] == m[..n - 1] + [s];
      }
    }
  }

  /** A cache just merged is stable: merging it again with the same live endpoints returns it
      unchanged and prunes nothing. */
  lemma MergeSettles(j: Judge, live: seq<string>, cached: seq<string>, max: nat)
    ensures var m := Merged(j, live, cached, max).merged;
            Merged(j, live, m, max) == Merge(m, 0)
  {
    var f, m := Live(live, max, |live|), Merged(j, live, cached, max).merged;
    LiveIs(live, max, |live|);
    CachedIs(j, f, cached, max, |cached|);
    CachedAgain(j, f, m, max, |m|);
    assert m[..|m|] == m;
  }

  // ---------------------------------------------------------------- when live endpoints fit

  /** Every live endpoint is remembered if and only if there are no more of them than the cap. */
  lemma LiveFitExactly(j: Judge, live: seq<string>, cached: seq<string>, max: nat)
    ensures (forall s :: s in live && s != "" ==> s in Merged(j, live, cached, max).merged)
            <==> |Distinct(live)| <= max
  {
    var f, m := Live(live, max, |live|), Merged(j, live, cached, max).merged;
    LiveIs(live, max, |live|);
    MergeHolds(j, live, cached, max);
    assert live[..|live|] == live;
    var held := set s | s in f;
    CardOf(f, held);
    SubsetCard(held, Distinct(live));
    if |f| < max {
      assert held == Distinct(live);
    } else {
      assert m == f;
      assert (forall s :: s in live && s != "" ==> s in f) <==> held == Distinct(live);
    }
  }

  /** With more live endpoints than the cap, one that is already cached can lose its place and be
      counted as pruned although it is live. */
  lemma LiveEndpointPruned(a: string, b: string)
    requires a != "" && b != "" && a != b
    ensures Merged(Judge(_ => false, false), [a, b], [b], 1) == Merge([a], 1)
  {
    var j := Judge(_ => false, false);
    assert Live([a, b], 1, 1) == [a] && Live([a, b], 1, 2) == [a];
    assert Cached(j, [a], [b], 1, 1) == Merge([a], 1);
  }

  // ---------------------------------------------------------------- order and count

  /** a appears in `xs` before b first does. */
  ghost predicate FirstBefore(xs: seq<string>, a: string, b: string) {
    exists k :: 0 <= k < |xs| && xs[k] == a && b !in xs[..k + 1]
  }

  /** Each entry of `out` first appears in `xs` before the next ones do. */
  ghost predicate ByFirstAppearance(out: seq<string>, xs: seq<string>) {
    forall i, j :: 0 <= i < j < |out| ==> FirstBefore(xs, out[i], out[j])
  }

  lemma StaysBefore(xs: seq<string>, s: string, a: string, b: string)
    requires FirstBefore(xs, a, b) || (a in xs && b == s && s !in xs)
    ensures FirstBefore(xs + [s], a, b)
  {
    var all := xs + [s];
    var k :| 0 <= k < |xs| && xs[k] == a && b !in xs[..k + 1];
    assert all[k] == a && all[..k + 1] == xs[..k + 1];
  }

  lemma AppearsLast(out: seq<string>, xs: seq<string>, s: string)
    requires ByFirstAppearance(out, xs) && (forall t :: t in out ==> t in xs)
    ensures ByFirstAppearance(out, xs + [s])
    ensures s !in xs ==> ByFirstAppearance(out + [s], xs + [s])
  {
    forall i, j | 0 <= i < j < |out|
      ensures FirstBefore(xs + [s], out[i], out[j])
    {
      StaysBefore(xs, s, out[i], out[j]);
    }
    forall i | 0 <= i < |out| && s !in xs
      ensures FirstBefore(xs + [s], out[i], s)
    {
      assert out[i] in out;
      StaysBefore(xs, s, out[i], s);
    }
  }

  /** Live endpoints come in the order they first appear in. */
  lemma {:induction false} LiveInOrder(live: seq<string>, max: nat, n: nat)
    requires n <= |live|
    ensures ByFirstAppearance(Live(live, max, n), live[..n])
  {
    if n > 0 {
      LiveInOrder(live, max, n - 1);
      LiveIs(live, max, n - 1);
      assert live[..n] == live[..n - 1] + [live[n - 1]];
      AppearsLast(Live(live, max, n - 1), live[..n - 1], live[n - 1]);
      LiveKnows(live, max, n - 1, live[n - 1]);
    }
  }

  /** What was seen before is not added again. */
  lemma LiveKnows(live: seq<string>, max: nat, n: nat, s: string)
    requires n <= |live|
    ensures s != "" && s !in Live(live, max, n) && |Live(live, max, n)| < max ==> s !in live[..n]
  {
    LiveIs(live, max, n);
  }

  /** How many of the first n cached entries are neither live nor ever reached. */
  function Stale(j: Judge, f: seq<string>, cached: seq<string>, n: nat): nat
    requires n <= |cached|
  {
    if n == 0 then 0
    else Stale(j, f, cached, n - 1) + if cached[n - 1] !in f && !j.reached(cached[n - 1]) then 1 else 0
  }

  /** The count of pruned entries is that of the stale ones, and none once the run is young. */
  lemma {:induction false} PrunedExactly(j: Judge, f: seq<string>, cached: seq<string>, max: nat, n: nat)
    requires n <= |cached| && Proper(f, max)
    ensures Cached(j, f, cached, max, n).pruned == if j.young then 0 else Stale(j, f, cached, n)
  {
    if n > 0 {
      PrunedExactly(j, f, cached, max, n - 1);
      CachedIs(j, f, cached, max, n - 1);
    }
  }

  /** The merge starts with the live endpoints as far as they fit, in order, and prunes exactly the
      cached entries that are stale. */
  lemma MergeCounts(j: Judge, live: seq<string>, cached: seq<string>, max: nat)
    ensures var f := Live(live, max, |live|);
            && ByFirstAppearance(f, live)
            && Merged(j, live, cached, max).pruned == if j.young then 0 else Stale(j, f, cached, |cached|)
  {
    LiveInOrder(live, max, |live|);
    LiveIs(live, max, |live|);
    PrunedExactly(j, Live(live, max, |live|), cached, max, |cached|);
    assert live[..|live|] == live;
  }
}
