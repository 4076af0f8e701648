/** What id assignment on load achieves, and exactly when. The counter is a uint64, and a config
    file may carry any ids. */
module RuleIDs {
  import opened Firewall
  import opened RulebaseRuns

  /** Ids and counter as a config file can hold them. */
  ghost predicate Fits(b: Rulebase) {
    b.nextID <= MAX_ID && forall k :: 0 <= k < |b.rules| ==> b.rules[k].id <= MAX_ID
  }

  /** How many of the first n rules lack an id. */
  function Zeros(rules: seq<Rule>, n: nat): (z: nat)
    requires n <= |rules|
    ensures z == 0 <==> forall k :: 0 <= k < n ==> rules[k].id != 0
  {
    if n == 0 then 0 else Zeros(rules, n - 1) + if rules[n - 1].id == 0 then 1 else 0
  }

  /** The first id that will be handed out. */
  function First(b: Rulebase): (s: nat)
    ensures s > 0
  {
    var m := Bumped(b.rules, b.nextID, |b.rules|);
    if m == 0 then 1 else m
  }

  /** No rule has the largest id, and the counter can number every rule that lacks one. */
  ghost predicate Roomy(b: Rulebase) {
    && (forall k :: 0 <= k < |b.rules| ==> b.rules[k].id != MAX_ID)
    && First(b) + Zeros(b.rules, |b.rules|) <= MAX_ID
  }

  ghost predicate DistinctWhereSet(rules: seq<Rule>) {
    forall i, j :: 0 <= i < j < |rules| && rules[i].id != 0 ==> rules[i].id != rules[j].id
  }

  // ---------------------------------------------------------------- the two loops

  lemma {:induction false} BumpedFits(b: Rulebase, n: nat)
    requires Fits(b) && n <= |b.rules|
    ensures Bumped(b.rules, b.nextID, n) <= MAX_ID
  {
    if n > 0 {
      BumpedFits(b, n - 1);
    }
  }

  /** Past the last largest id, the first loop computes a maximum. */
  lemma {:induction false} BumpedIsMax(b: Rulebase, k: nat, n: nat)
    requires Fits(b) && k <= n <= |b.rules|
    requires forall j :: k <= j < n ==> b.rules[j].id != MAX_ID
    ensures var v, r := Bumped(b.rules, b.nextID, k), Bumped(b.rules, b.nextID, n);
            && r >= v
            && (forall j :: k <= j < n ==> b.rules[j].id < r)
            && (r == v || exists j :: k <= j < n && r == b.rules[j].id + 1)
  {
    if k < n {
      BumpedIsMax(b, k, n - 1);
    }
  }

  lemma {:induction false} ZerosGrow(rules: seq<Rule>, k: nat, n: nat)
    requires k <= n <= |rules|
    ensures Zeros(rules, k) <= Zeros(rules, n)
    ensures k < n && rules[k].id == 0 ==> Zeros(rules, k) < Zeros(rules, n)
  {
    if k < n {
      ZerosGrow(rules, k, n - 1);
    }
  }

  /** Rule k, numbered if it lacks an id. */
  function Given(rules: seq<Rule>, start: nat, k: nat): Rule
    requires k < |rules|
  {
    if rules[k].id == 0 then rules[k].(id := start + Zeros(rules, k)) else rules[k]
  }

  /** With room, the rules lacking an id are numbered upwards from `start`, in order. */
  lemma {:induction false} NumberedInOrder(rules: seq<Rule>, start: nat, n: nat)
    requires n <= |rules| && 0 < start && start + Zeros(rules, n) <= MAX_ID
    ensures var b := Numbered(rules, start, n);
            && b.nextID == start + Zeros(rules, n)
            && (forall k :: 0 <= k < n ==> b.rules[k] == Given(rules, start, k))
            && (forall k :: n <= k < |rules| ==> b.rules[k] == rules[k])
  {
    if n > 0 {
      NumberedInOrder(rules, start, n - 1);
    }
  }

  /** Without, the counter wraps: the largest id is handed out, and either the counter stands at
      zero or some rule is left without an id. */
  lemma {:induction false} NumberedWraps(rules: seq<Rule>, start: nat, n: nat)
    requires n <= |rules| && 0 < start <= MAX_ID
    ensures var b := Numbered(rules, start, n);
            && b.nextID <= MAX_ID
            && (forall k :: 0 <= k < |rules| && (k >= n || rules[k].id != 0) ==> b.rules[k] == rules[k])
            && (forall k :: 0 <= k < n && rules[k].id == 0 ==> b.rules[k].id <= MAX_ID)
            && (start + Zeros(rules, n) > MAX_ID ==>
                  && (exists k :: 0 <= k < n && rules[k].id == 0 && b.rules[k].id == MAX_ID)
                  && (b.nextID == 0 || exists k :: 0 <= k < n && b.rules[k].id == 0))
  {
    if n > 0 {
      NumberedWraps(rules, start, n - 1);
      var before, b := Numbered(rules, start, n - 1), Numbered(rules, start, n);
      if start + Zeros(rules, n - 1) <= MAX_ID {
        NumberedInOrder(rules, start, n - 1);
        assert start + Zeros(rules, n) > MAX_ID ==> b.rules[n - 1].id == MAX_ID;
      } else {
        var k :| 0 <= k < n - 1 && rules[k].id == 0 && before.rules[k].id == MAX_ID;
        assert b.rules[k].id == MAX_ID;
        if before.nextID == 0 {
          assert rules[n - 1].id == 0 ==> b.rules[n - 1].id == 0;
        } else {
          var z :| 0 <= z < n - 1 && before.rules[z].id == 0;
          assert b.rules[z].id == 0;
        }
      }
    }
  }

  // ---------------------------------------------------------------- what loading establishes

  lemma RoomyAssigned(b: Rulebase)
    requires Fits(b) && Roomy(b)
    ensures var a := Assigned(b);
            && 0 < a.nextID <= MAX_ID
            && (forall k :: 0 <= k < |a.rules| ==> 0 < a.rules[k].id < a.nextID)
  {
    var n := |b.rules|;
    BumpedIsMax(b, 0, n);
    NumberedInOrder(b.rules, First(b), n);
    forall k | 0 <= k < n
      ensures 0 < Assigned(b).rules[k].id < Assigned(b).nextID
    {
      ZerosGrow(b.rules, k, n);
    }
  }

  lemma NotRoomyNotGood(b: Rulebase)
    requires Fits(b) && !Roomy(b)
    ensures !Good(Assigned(b))
  {
    var n, a := |b.rules|, Assigned(b);
    BumpedFits(b, n);
    NumberedWraps(b.rules, First(b), n);
    if k :| 0 <= k < n && b.rules[k].id == MAX_ID {
      assert a.rules[k].id == MAX_ID;
    } else {
      var k :| 0 <= k < n && b.rules[k].id == 0 && a.rules[k].id == MAX_ID;
      assert a.rules[k].id == MAX_ID;
    }
  }

  /** With room, two rules end up with one id exactly when they came with one. */
  lemma RoomyPair(b: Rulebase, i: nat, j: nat)
    requires Fits(b) && Roomy(b) && i < j < |b.rules|
    ensures |Assigned(b).rules| == |b.rules|
    ensures Assigned(b).rules[i].id == Assigned(b).rules[j].id <==> b.rules[i].id == b.rules[j].id != 0
  {
    var n, a := |b.rules|, Assigned(b);
    BumpedIsMax(b, 0, n);
    NumberedInOrder(b.rules, First(b), n);
    ZerosGrow(b.rules, i, j);
    assert a.rules[i] == Given(b.rules, First(b), i) && a.rules[j] == Given(b.rules, First(b), j);
    assert b.rules[i].id < First(b) && b.rules[j].id < First(b);
  }

  /** Loading gives a rulebase with distinct non-zero ids below the counter if and only if the
      ids already there are distinct and the counter has room. */
  lemma LoadIsGoodExactly(b: Rulebase)
    requires Fits(b)
    ensures Good(Assigned(b)) <==> DistinctWhereSet(b.rules) && Roomy(b)
  {
    if !Roomy(b) {
      NotRoomyNotGood(b);
    } else {
      RoomyAssigned(b);
      forall i, j | 0 <= i < j < |b.rules|
        ensures Assigned(b).rules[i].id == Assigned(b).rules[j].id <==> b.rules[i].id == b.rules[j].id != 0
      {
        RoomyPair(b, i, j);
      }
    }
  }

  // ---------------------------------------------------------------- loading twice

  /** The counter does not wrap while numbering; and if a rule has the largest id, which wraps
      the counter before numbering, some rule after it still lacks an id, or none does. */
  ghost predicate Calm(b: Rulebase) {
    var n := |b.rules|;
    && First(b) + Zeros(b.rules, n) <= MAX_ID
    && (forall k :: 0 <= k < n && b.rules[k].id == MAX_ID && Zeros(b.rules, n) > 0 ==>
          exists j :: k < j < n && b.rules[j].id == 0)
  }

  lemma {:induction false} NothingToNumber(rules: seq<Rule>, start: nat, n: nat)
    requires n <= |rules| && Zeros(rules, n) == 0
    ensures Numbered(rules, start, n) == Rulebase(rules, start)
  {
    if n > 0 {
      NothingToNumber(rules, start, n - 1);
    }
  }

  lemma WrappedIsUnsettled(b: Rulebase)
    requires Fits(b) && First(b) + Zeros(b.rules, |b.rules|) > MAX_ID
    ensures Assigned(Assigned(b)) != Assigned(b)
  {
    var n, a := |b.rules|, Assigned(b);
    BumpedFits(b, n);
    NumberedWraps(b.rules, First(b), n);
    assert Fits(a);
    BumpedFits(a, n);
    NumberedWraps(a.rules, First(a), n);
    if k :| 0 <= k < n && a.rules[k].id == 0 {
      if First(a) + Zeros(a.rules, n) <= MAX_ID {
        NumberedInOrder(a.rules, First(a), n);
        assert Assigned(a).rules[k].id != 0;
      }
    } else {
      NothingToNumber(a.rules, First(a), n);
    }
  }

  /** A first load that hands out every id in order. */
  lemma OrderlyLoad(b: Rulebase)
    requires Fits(b) && First(b) + Zeros(b.rules, |b.rules|) <= MAX_ID
    ensures var a, n := Assigned(b), |b.rules|;
            && Fits(a) && |a.rules| == n && Zeros(a.rules, n) == 0
            && a.nextID == First(b) + Zeros(b.rules, n) && Assigned(a) == a.(nextID := First(a))
            && (forall k :: 0 <= k < n ==> a.rules[k] == Given(b.rules, First(b), k))
  {
    var n, a := |b.rules|, Assigned(b);
    NumberedInOrder(b.rules, First(b), n);
    forall k | 0 <= k < n
      ensures a.rules[k].id <= MAX_ID
    {
      ZerosGrow(b.rules, k, n);
    }
    NothingToNumber(a.rules, First(a), n);
  }

  lemma SettledWithoutLargest(b: Rulebase)
    requires Fits(b) && Roomy(b)
    ensures Assigned(Assigned(b)) == Assigned(b)
  {
    RoomyAssigned(b);
    OrderlyLoad(b);
    BumpedIsMax(Assigned(b), 0, |b.rules|);
  }

  /** With a largest id, whose last holder is rule k. */
  lemma SettledAroundLargest(b: Rulebase, k: nat)
    requires Fits(b) && First(b) + Zeros(b.rules, |b.rules|) <= MAX_ID
    requires k < |b.rules| && b.rules[k].id == MAX_ID
    requires forall j :: k < j < |b.rules| ==> b.rules[j].id != MAX_ID
    ensures Assigned(Assigned(b)) == Assigned(b) <==>
            Zeros(b.rules, |b.rules|) == 0 || exists j :: k < j < |b.rules| && b.rules[j].id == 0
  {
    var n, a := |b.rules|, Assigned(b);
    var after := k + 1;
    OrderlyLoad(b);
    BumpedFits(b, k);
    BumpedFits(a, k);
    assert Bumped(b.rules, b.nextID, after) == 0 && Bumped(a.rules, a.nextID, after) == 0;
    forall j | k < j < n
      ensures a.rules[j].id != MAX_ID
    {
      ZerosGrow(b.rules, j, n);
    }
    BumpedIsMax(b, after, n);
    BumpedIsMax(a, after, n);
    TailDecides(b, k);
  }

  /** The counter after a second load is the first number past every id behind rule k. */
  lemma TailDecides(b: Rulebase, k: nat)
    requires Fits(b) && First(b) + Zeros(b.rules, |b.rules|) <= MAX_ID && k < |b.rules|
    requires var a, n := Assigned(b), |b.rules|;
             && IsTail(b, k, Bumped(b.rules, b.nextID, n)) && |a.rules| == n
             && IsTail(a, k, Bumped(a.rules, a.nextID, n))
    ensures First(Assigned(b)) == First(b) + Zeros(b.rules, |b.rules|) <==>
            Zeros(b.rules, |b.rules|) == 0 || exists j :: k < j < |b.rules| && b.rules[j].id == 0
  {
    var n, a := |b.rules|, Assigned(b);
    OrderlyLoad(b);
    if exists j :: k < j < n && b.rules[j].id == 0 {
      var j := LastZero(b.rules, n);
      assert a.rules[j].id + 1 == First(b) + Zeros(b.rules, n);
      forall i | k < i < n
        ensures a.rules[i].id < First(b) + Zeros(b.rules, n)
      {
        ZerosGrow(b.rules, i, n);
      }
    } else {
      assert forall j :: k < j < n ==> a.rules[j] == b.rules[j];
    }
  }

  /** r is the first number past every id behind rule k, 0 when there are none. */
  ghost predicate IsTail(b: Rulebase, k: nat, r: nat) {
    && (forall j :: k < j < |b.rules| ==> b.rules[j].id < r)
    && (r == 0 || exists j :: k < j < |b.rules| && r == b.rules[j].id + 1)
  }

  lemma {:induction false} LastZero(rules: seq<Rule>, n: nat) returns (j: nat)
    requires n <= |rules| && Zeros(rules, n) > 0
    ensures j < n && rules[j].id == 0 && Zeros(rules, j) + 1 == Zeros(rules, n)
    ensures forall i :: j < i < n ==> rules[i].id != 0
  {
    if rules[n - 1].id == 0 {
      j := n - 1;
    } else {
      j := LastZero(rules, n - 1);
    }
  }

  lemma {:induction false} LastLargest(rules: seq<Rule>, n: nat) returns (k: nat)
    requires n <= |rules| && exists i :: 0 <= i < n && rules[i].id == MAX_ID
    ensures k < n && rules[k].id == MAX_ID && forall j :: k < j < n ==> rules[j].id != MAX_ID
  {
    if rules[n - 1].id == MAX_ID {
      k := n - 1;
    } else {
      k := LastLargest(rules, n - 1);
    }
  }

  /** Loading twice changes nothing more than loading once, if and only if the rulebase is calm. */
  lemma LoadSettlesExactly(b: Rulebase)
    requires Fits(b)
    ensures Assigned(Assigned(b)) == Assigned(b) <==> Calm(b)
  {
    var n := |b.rules|;
    if First(b) + Zeros(b.rules, n) > MAX_ID {
      WrappedIsUnsettled(b);
    } else if forall k :: 0 <= k < n ==> b.rules[k].id != MAX_ID {
      SettledWithoutLargest(b);
    } else {
      var k := LastLargest(b.rules, n);
      SettledAroundLargest(b, k);
      if j :| k < j < n && b.rules[j].id == 0 {
        assert forall i :: 0 <= i < n && b.rules[i].id == MAX_ID ==> i < j;
      }
    }
  }

  /** The counter wraps on a rule with the largest id; loading the result again moves it. */
  lemma LargestIDUnsettles(blank: Rule)
    ensures var b := Rulebase([blank.(id := 0), blank.(id := MAX_ID)], 0);
            Assigned(b).nextID == 2 && Assigned(Assigned(b)).nextID == 1
  {
    var b := Rulebase([blank.(id := 0), blank.(id := MAX_ID)], 0);
    assert Bumped(b.rules, 0, 1) == 1 && Bumped(b.rules, 0, 2) == 0;
    assert Numbered(b.rules, 1, 1) == Rulebase([blank.(id := 1), blank.(id := MAX_ID)], 2);
    assert Numbered(b.rules, 1, 2) == Rulebase([blank.(id := 1), blank.(id := MAX_ID)], 2);
    var a := Assigned(b);
    assert Bumped(a.rules, 2, 1) == 2 && Bumped(a.rules, 2, 2) == 0;
    NothingToNumber(a.rules, 1, 2);
  }
}
