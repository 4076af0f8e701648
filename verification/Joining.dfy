/** Which tokens a node joins with, and what joining changes. */
module Joining {
  import opened Text
  import opened JoinToken
  import opened Keys
  import opened KeyEdits
  import opened Sets

  // ---------------------------------------------------------------- minting

  /** A key the issuer shares: present, switched on, and not past its expiry. */
  predicate Shared(env: Env, k: KeySlot) {
    k.key != "" && k.enabled && (k.expires == "" || !env.expired(k.expires))
  }

  /** `from` names the slots, in order, whose keys these are. */
  ghost predicate KeysOf(env: Env, s: Slots, n: nat, from: seq<nat>, ks: seq<TokenKey>)
    requires n <= SLOTS
  {
    && |from| == |ks|
    && (forall j :: 0 <= j < |ks| ==>
          from[j] < n && ks[j] == TokenKey(s[from[j]].key, s[from[j]].title, s[from[j]].expires))
    && (forall i, j :: 0 <= i < j < |from| ==> from[i] < from[j])
    && (forall i: nat :: i < n ==> (i in from <==> Shared(env, s[i])))
  }

  lemma {:induction false} SharedKeys(env: Env, s: Slots, n: nat) returns (from: seq<nat>)
    requires n <= SLOTS
    ensures KeysOf(env, s, n, from, ActiveKeys(env, s, n))
  {
    if n == 0 {
      from := [];
    } else {
      from := SharedKeys(env, s, n - 1);
      if Shared(env, s[n - 1]) {
        from := from + [n - 1];
      }
    }
  }

  /** A token is minted if and only if some key can be shared, and then carries exactly the keys that
      can, in slot order, with label and expiry. */
  lemma MintsExactly(env: Env, net: Net, extra: seq<string>, tcpPort: int, exp: string) returns (from: seq<nat>)
    ensures var t := Minted(env, net, extra, tcpPort, exp);
            && (t.Some? <==> exists i :: 0 <= i < SLOTS && Shared(env, net.keys[i]))
            && (t.Some? ==> KeysOf(env, net.keys, SLOTS, from, t.value.keys))
            && (t.Some? ==>
                  && t.value.id == net.id && t.value.name == net.name && t.value.exp == exp
                  && t.value.subnet4 == net.subnet4 && t.value.subnet6 == net.subnet6 && t.value.tcpPort == tcpPort)
  {
    from := SharedKeys(env, net.keys, SLOTS);
    assert from != [] ==> from[0] in from;
  }

  /** a is one of these texts, trimmed, and not blank. */
  ghost predicate Among(env: Env, xs: seq<string>, a: string) {
    a != "" && exists k :: 0 <= k < |xs| && env.lib.trim(xs[k]) == a
  }

  /** a is the trimmed address of a seed that is switched on. */
  ghost predicate AmongSeeds(env: Env, seeds: seq<Seed>, n: nat, a: string)
    requires n <= |seeds|
  {
    a != "" && exists k :: 0 <= k < n && !seeds[k].disabled && env.lib.trim(seeds[k].address) == a
  }

  lemma AmongIsDistinct(env: Env, xs: seq<string>, a: string)
    ensures Among(env, xs, a) <==> a in Distinct(TrimAll(env, xs))
  {
    var ys := TrimAll(env, xs);
    if a in ys {
      var k :| 0 <= k < |ys| && ys[k] == a;
      assert env.lib.trim(xs[k]) == a;
    }
    if k :| 0 <= k < |xs| && env.lib.trim(xs[k]) == a {
      assert ys[k] == a;
    }
  }

  lemma {:induction false} EnabledSeeds(env: Env, seeds: seq<Seed>, n: nat, a: string)
    requires n <= |seeds|
    ensures Among(env, EnabledAddrs(seeds, n), a) <==> AmongSeeds(env, seeds, n, a)
  {
    if n > 0 {
      var (less, more) := (EnabledAddrs(seeds, n - 1), EnabledAddrs(seeds, n));
      EnabledSeeds(env, seeds, n - 1, a);
      assert forall k :: 0 <= k < |less| ==> more[k] == less[k];
      assert !seeds[n - 1].disabled ==> more[|less|] == seeds[n - 1].address;
    }
  }

  /** How many of a token's seeds are extras. */
  function Extras(env: Env, extra: seq<string>): nat {
    |Gathered([], [], TrimAll(env, extra), |extra|)|
  }

  lemma ExtrasFirst(env: Env, net: Net, extra: seq<string>)
    ensures var (c, seeds) := (Extras(env, extra), TokenSeeds(env, net, extra));
            c <= |seeds| && seeds[..c] == Gathered([], [], TrimAll(env, extra), |extra|)
  {
    var addrs := EnabledAddrs(net.seeds, |net.seeds|);
    GatheredStarts([], Gathered([], [], TrimAll(env, extra), |extra|), TrimAll(env, addrs), |addrs|);
  }

  lemma TokenAddress(env: Env, net: Net, extra: seq<string>, a: string)
    ensures Extras(env, extra) <= |TokenSeeds(env, net, extra)|
    ensures var seeds := TokenSeeds(env, net, extra);
            && (a in seeds[..Extras(env, extra)] <==> Among(env, extra, a))
            && (a in seeds <==> Among(env, extra, a) || AmongSeeds(env, net.seeds, |net.seeds|, a))
            && (a in TokenCache(env, net, extra) <==> a !in seeds && Among(env, net.peerCache, a))
  {
    var addrs := EnabledAddrs(net.seeds, |net.seeds|);
    var xs, ys := TrimAll(env, extra), TrimAll(env, addrs);
    ExtrasFirst(env, net, extra);
    GatheredAll([], [], xs);
    GatheredAll([], Gathered([], [], xs, |xs|), ys);
    GatheredAll(TokenSeeds(env, net, extra), [], TrimAll(env, net.peerCache));
    AmongIsDistinct(env, extra, a);
    AmongIsDistinct(env, addrs, a);
    AmongIsDistinct(env, net.peerCache, a);
    EnabledSeeds(env, net.seeds, |net.seeds|, a);
  }

  /** The addresses a token carries: first the extras, then the seeds that are switched on, then,
      apart from these, the recent peers; trimmed, none blank. */
  lemma TokenAddresses(env: Env, net: Net, extra: seq<string>) returns (c: nat)
    ensures var seeds := TokenSeeds(env, net, extra);
            && c <= |seeds| && (forall a :: a in seeds[..c] <==> Among(env, extra, a))
            && (forall a :: a in seeds <==> Among(env, extra, a) || AmongSeeds(env, net.seeds, |net.seeds|, a))
            && (forall a :: a in TokenCache(env, net, extra) <==> a !in seeds && Among(env, net.peerCache, a))
  {
    c := Extras(env, extra);
    var seeds := TokenSeeds(env, net, extra);
    ExtrasFirst(env, net, extra);
    forall a
      ensures a in seeds[..c] <==> Among(env, extra, a)
      ensures a in seeds <==> Among(env, extra, a) || AmongSeeds(env, net.seeds, |net.seeds|, a)
      ensures a in TokenCache(env, net, extra) <==> a !in seeds && Among(env, net.peerCache, a)
    {
      TokenAddress(env, net, extra, a);
    }
  }

  lemma {:induction false} GatheredStarts(known: seq<string>, out: seq<string>, xs: seq<string>, n: nat)
    requires n <= |xs|
    ensures out <= Gathered(known, out, xs, n)
  {
    if n > 0 {
      GatheredStarts(known, out, xs, n - 1);
    }
  }

  // ---------------------------------------------------------------- accepting a token

  /** Network i is the first that answers to the token's id; with i the number of networks none
      does. */
  ghost predicate Answers(env: Env, nets: seq<Net>, t: Token, i: nat)
    requires env.canon(t.id).Some?
  {
    var id := env.canon(t.id).value;
    && i <= |nets|
    && (i < |nets| ==> nets[i].name == id || nets[i].id == id
                       || (env.hex(id).Some? && env.hex(nets[i].id) == env.hex(id)))
    && forall j :: 0 <= j < i ==>
         nets[j].name != id && nets[j].id != id && (env.hex(id).None? || env.hex(nets[j].id) != env.hex(id))
  }

  /** What a token must say of itself: a network id, an expiry that is blank or a time still to
      come, keys that decode, and subnets that parse where given. */
  ghost predicate WellFormed(env: Env, t: Token) {
    && env.canon(t.id).Some?
    && (t.exp == "" || (env.isTime(t.exp) && !env.expired(t.exp)))
    && |t.keys| > 0 && (forall i :: 0 <= i < |t.keys| ==> env.decodes(t.keys[i].key))
    && (t.subnet4 == "" || env.isV4(t.subnet4))
    && (t.subnet6 == "" || env.isV6(t.subnet6))
  }

  /** The slots the keys go to. */
  function SlotsAt(nets: seq<Net>, i: nat): Slots {
    if i < |nets| then nets[i].keys else NO_KEYS
  }

  lemma {:induction false} SomeAnswers(env: Env, nets: seq<Net>, t: Token, i: nat)
    requires env.canon(t.id).Some? && i <= |nets|
    requires forall j :: 0 <= j < i ==> !Names(env, nets[j], env.canon(t.id).value)
    ensures exists k :: Answers(env, nets, t, k)
    decreases |nets| - i
  {
    if i == |nets| || Names(env, nets[i], env.canon(t.id).value) {
      assert Answers(env, nets, t, i);
    } else {
      SomeAnswers(env, nets, t, i + 1);
    }
  }

  lemma AnswersIsFirstNamed(env: Env, nets: seq<Net>, t: Token, i: nat)
    requires env.canon(t.id).Some? && i <= |nets|
    ensures Answers(env, nets, t, i) <==>
            IsFirstNamed(env, nets, env.canon(t.id).value, if i < |nets| then i else -1)
  {
  }

  lemma JoinsAt(env: Env, nets: seq<Net>, t: Token, i: nat, after: seq<Net>)
    requires env.canon(t.id).Some? && Answers(env, nets, t, i)
    ensures Joins(env, nets, t, after) <==>
            var net := if i < |nets| then nets[i] else NewNet(env.canon(t.id).value, t);
            && Acceptable(env, t) && Merged(env, net, t).Some?
            && after == if i < |nets| then nets[i := Merged(env, net, t).value] else nets + [Merged(env, net, t).value]
  {
    var canon, at := env.canon(t.id).value, if i < |nets| then i else -1;
    AnswersIsFirstNamed(env, nets, t, i);
    assert IsFirstNamed(env, nets, canon, at);
    assert forall k :: IsFirstNamed(env, nets, canon, k) ==> k == at;
  }

  lemma WellFormedIsAcceptable(env: Env, t: Token)
    ensures WellFormed(env, t) <==> Acceptable(env, t)
  {
  }

  lemma MergesWhenKeysFit(env: Env, net: Net, t: Token)
    requires Sound(env) && WellFormed(env, t)
    ensures Merged(env, net, t).Some? <==> |Lacking(net.keys, t.keys, |t.keys|)| <= |FreeSlots(net.keys)|
  {
    assert forall i :: 0 <= i < |t.keys| ==> t.keys[i].key != "";
    ImportExactly(net.keys, t.keys);
  }

  /** A node joins with a token if and only if the token is well formed and the keys the network
      lacks fit its free slots. */
  lemma JoinsExactly(env: Env, nets: seq<Net>, t: Token)
    requires Sound(env)
    ensures (exists after :: Joins(env, nets, t, after)) <==>
            && WellFormed(env, t)
            && exists i: nat :: Answers(env, nets, t, i) &&
                 |Lacking(SlotsAt(nets, i), t.keys, |t.keys|)| <= |FreeSlots(SlotsAt(nets, i))|
  {
    WellFormedIsAcceptable(env, t);
    if WellFormed(env, t) {
      SomeAnswers(env, nets, t, 0);
      forall i: nat | Answers(env, nets, t, i)
        ensures (exists after :: Joins(env, nets, t, after)) <==>
                |Lacking(SlotsAt(nets, i), t.keys, |t.keys|)| <= |FreeSlots(SlotsAt(nets, i))|
      {
        var net := if i < |nets| then nets[i] else NewNet(env.canon(t.id).value, t);
        MergesWhenKeysFit(env, net, t);
        forall after {
          JoinsAt(env, nets, t, i, after);
        }
        if Merged(env, net, t).Some? {
          var m := Merged(env, net, t).value;
          assert Joins(env, nets, t, if i < |nets| then nets[i := m] else nets + [m]);
        }
      }
    }
  }

  /** Once the expiry has passed no join exists, whatever else the token says. */
  lemma ExpiredNeverJoins(env: Env, nets: seq<Net>, t: Token, after: seq<Net>)
    requires t.exp != "" && env.expired(t.exp)
    ensures !Joins(env, nets, t, after)
  {
    WellFormedIsAcceptable(env, t);
  }

  // ---------------------------------------------------------------- what joining changes

  /** `out` is the seeds there were, followed by the new addresses, each once and switched on. */
  ghost predicate SeedsGrow(seeds: seq<Seed>, xs: seq<string>, out: seq<Seed>) {
    && seeds <= out
    && (forall a :: HasAddr(out, a) <==> HasAddr(seeds, a) || (a != "" && a in xs))
    && (forall k :: |seeds| <= k < |out| ==> !out[k].disabled)
    && (forall j, k :: 0 <= j < k < |out| && |seeds| <= k ==> out[j].address != out[k].address)
  }

  lemma SeedAppended(m: seq<Seed>, a: string, b: string)
    ensures HasAddr(m + [Seed(a, false)], b) <==> HasAddr(m, b) || a == b
  {
    var all := m + [Seed(a, false)];
    assert all[|m|].address == a && forall j :: 0 <= j < |m| ==> all[j] == m[j];
  }

  lemma {:induction false} SeedsMerge(seeds: seq<Seed>, xs: seq<string>, n: nat)
    requires n <= |xs|
    ensures SeedsGrow(seeds, xs[..n], MergedSeeds(seeds, xs, n))
  {
    if n > 0 {
      SeedsMerge(seeds, xs, n - 1);
      var m := MergedSeeds(seeds, xs, n - 1);
      assert xs[..n] == xs[..n - 1] + [xs[n - 1]];
      forall b {
        SeedAppended(m, xs[n - 1], b);
      }
    }
  }

  /** `out` is the cache there was, followed by the new endpoints that are no seeds, each once. */
  ghost predicate CacheGrows(cache: seq<string>, seeds: seq<Seed>, xs: seq<string>, out: seq<string>) {
    && cache <= out
    && (forall a :: a in out <==> a in cache || (a != "" && a in xs && !HasAddr(seeds, a)))
    && (forall j, k :: 0 <= j < k < |out| && |cache| <= k ==> out[j] != out[k])
  }

  lemma {:induction false} CacheMerges(cache: seq<string>, seeds: seq<Seed>, xs: seq<string>, n: nat)
    requires n <= |xs|
    ensures CacheGrows(cache, seeds, xs[..n], MergedCache(cache, seeds, xs, n))
  {
    if n > 0 {
      CacheMerges(cache, seeds, xs, n - 1);
      assert xs[..n] == xs[..n - 1] + [xs[n - 1]];
    }
  }

  /** The network a token is merged into: the one that answers, or a new one that so far has only
      the token's name, id and subnets. */
  function Joined(env: Env, nets: seq<Net>, t: Token, i: nat): Net
    requires env.canon(t.id).Some?
  {
    if i < |nets| then nets[i]
    else Net(env.canon(t.id).value, t.name, true, t.subnet4, t.subnet6, NO_KEYS, [], [], 0)
  }

  /** Joining touches one network. It comes on; keeps its id, name and everything else it had; takes
      the token's subnets where given, and the fallback port where it had none; and gains exactly
      the keys, seeds and cached endpoints it lacked. */
  lemma JoinChanges(env: Env, nets: seq<Net>, t: Token, i: nat, after: seq<Net>)
    requires Sound(env) && Joins(env, nets, t, after) && Answers(env, nets, t, i)
    ensures |after| == (if i < |nets| then |nets| else |nets| + 1)
    ensures forall k :: 0 <= k < |nets| && k != i ==> after[k] == nets[k]
    ensures var (m, n) := (Joined(env, nets, t, i), after[i]);
            && n.enabled && n.id == m.id && n.name == m.name
            && n.subnet4 == (if t.subnet4 != "" then t.subnet4 else m.subnet4)
            && n.subnet6 == (if t.subnet6 != "" then t.subnet6 else m.subnet6)
            && n.seedTCPPort == (if m.seedTCPPort == 0 && t.tcpPort > 0 then t.tcpPort else m.seedTCPPort)
            && ImportsTo(m.keys, t.keys, |t.keys|, n.keys)
            && SeedsGrow(m.seeds, TrimAll(env, t.seeds), n.seeds)
            && CacheGrows(m.peerCache, n.seeds, TrimAll(env, t.peerCache), n.peerCache)
  {
    var m := Joined(env, nets, t, i);
    var xs, ys := TrimAll(env, t.seeds), TrimAll(env, t.peerCache);
    JoinsAt(env, nets, t, i, after);
    assert after[i] == Merged(env, m, t).value;
    ImportExactly(m.keys, t.keys);
    SeedsMerge(m.seeds, xs, |xs|);
    CacheMerges(m.peerCache, after[i].seeds, ys, |ys|);
    assert xs[..|xs|] == xs && ys[..|ys|] == ys;
  }
}
