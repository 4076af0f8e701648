/** Join tokens: what a network puts into one, and what a node makes of it. The text encoding
    (base64 of JSON) is a library round trip and is not modelled. */
module JoinToken {
  import opened Text
  import opened Keys
  import opened Sets

  datatype Seed = Seed(address: string, disabled: bool)

  datatype Net = Net(
    id: string, name: string, enabled: bool, subnet4: string, subnet6: string,
    keys: Slots, seeds: seq<Seed>, peerCache: seq<string>, seedTCPPort: int)

  datatype Token = Token(
    id: string, name: string, subnet4: string, subnet6: string,
    keys: seq<TokenKey>, seeds: seq<string>, peerCache: seq<string>, tcpPort: int, exp: string)

  /** Library answers at the moment of the call: trimming, key decoding, expiry, CIDR checks, and
      hex ids (`canon` is the canonical 16-digit form, `hex` the number). */
  datatype Env = Env(
    lib: Strings, decodes: string -> bool, expired: string -> bool,
    isTime: string -> bool, isV4: string -> bool, isV6: string -> bool,
    canon: string -> Option<string>, hex: string -> Option<nat>)

  const NO_KEYS: Slots := [EMPTY, EMPTY, EMPTY, EMPTY, EMPTY, EMPTY, EMPTY, EMPTY]

  /** What those library calls promise. */
  ghost predicate Sound(env: Env) {
    !env.decodes("") && Lawful(env.lib)
  }

  function TrimAll(env: Env, xs: seq<string>): (ys: seq<string>)
    ensures |ys| == |xs| && forall i :: 0 <= i < |xs| ==> ys[i] == env.lib.trim(xs[i])
  {
    seq(|xs|, i requires 0 <= i < |xs| => env.lib.trim(xs[i]))
  }

  // ---------------------------------------------------------------- minting

  predicate Active(env: Env, k: KeySlot) {
    k.key != "" && k.enabled && !(k.expires != "" && env.expired(k.expires))
  }

  function ActiveKeys(env: Env, s: Slots, n: nat): (ks: seq<TokenKey>)
    requires n <= SLOTS
    ensures |ks| <= n
  {
    if n == 0 then []
    else
      var k := s[n - 1];
      ActiveKeys(env, s, n - 1) + (if Active(env, k) then [TokenKey(k.key, k.title, k.expires)] else [])
  }

  function EnabledAddrs(seeds: seq<Seed>, n: nat): seq<string>
    requires n <= |seeds|
  {
    if n == 0 then []
    else EnabledAddrs(seeds, n - 1) + (if seeds[n - 1].disabled then [] else [seeds[n - 1].address])
  }

  /** `out` extended by the non-empty entries among the first n that are neither known nor in it
      yet, in order of first appearance. */
  function Gathered(known: seq<string>, out: seq<string>, xs: seq<string>, n: nat): seq<string>
    requires n <= |xs|
  {
    if n == 0 then out
    else
      var g, s := Gathered(known, out, xs, n - 1), xs[n - 1];
      if s == "" || s in known || s in g then g else g + [s]
  }

  /** Extras first, then the enabled seeds. */
  function TokenSeeds(env: Env, net: Net, extra: seq<string>): seq<string> {
    var addrs := EnabledAddrs(net.seeds, |net.seeds|);
    Gathered([], Gathered([], [], TrimAll(env, extra), |extra|), TrimAll(env, addrs), |addrs|)
  }

  function TokenCache(env: Env, net: Net, extra: seq<string>): seq<string> {
    Gathered(TokenSeeds(env, net, extra), [], TrimAll(env, net.peerCache), |net.peerCache|)
  }

  /** The token for a network, or None when it has no key to share. */
  function Minted(env: Env, net: Net, extra: seq<string>, tcpPort: int, exp: string): Option<Token> {
    var keys := ActiveKeys(env, net.keys, SLOTS);
    if keys == [] then None
    else Some(Token(net.id, net.name, net.subnet4, net.subnet6, keys,
                    TokenSeeds(env, net, extra), TokenCache(env, net, extra), tcpPort, exp))
  }

  /** One group of addSeed/addCached calls: extends `out0` by what `seen` does not have yet. */
  method Gather(env: Env, seen0: set<string>, ghost known: seq<string>, out0: seq<string>, xs: seq<string>)
    returns (seen: set<string>, out: seq<string>)
    requires forall s :: s in seen0 <==> s in known || s in out0
    ensures out == Gathered(known, out0, TrimAll(env, xs), |xs|)
    ensures forall s :: s in seen <==> s in known || s in out
  {
    seen, out := seen0, out0;
    ghost var ys := TrimAll(env, xs);
    for i := 0 to |xs|
      invariant out == Gathered(known, out0, ys, i)
      invariant forall s :: s in seen <==> s in known || s in out
    {
      var s := env.lib.trim(xs[i]);
      assert s == ys[i];
      if s == "" || s in seen {
        continue;
      }
      seen := seen + {s};
      out := out + [s];
    }
  }

  method CollectKeys(env: Env, slots: Slots) returns (keys: seq<TokenKey>)
    ensures keys == ActiveKeys(env, slots, SLOTS)
  {
    keys := [];
    for i := 0 to SLOTS
      invariant keys == ActiveKeys(env, slots, i)
    {
      var k := slots[i];
      if k.key == "" || !k.enabled || (k.expires != "" && env.expired(k.expires)) {
        continue;
      }
      keys := keys + [TokenKey(k.key, k.title, k.expires)];
    }
  }

  method CollectAddresses(env: Env, net: Net, extra: seq<string>) returns (seeds: seq<string>, cache: seq<string>)
    ensures seeds == TokenSeeds(env, net, extra) && cache == TokenCache(env, net, extra)
  {
    var addrs: seq<string> := [];
    for i := 0 to |net.seeds|
      invariant addrs == EnabledAddrs(net.seeds, i)
    {
      if net.seeds[i].disabled {
        continue;
      }
      addrs := addrs + [net.seeds[i].address];
    }
    var seen;
    seen, seeds := Gather(env, {}, [], [], extra);
    seen, seeds := Gather(env, seen, [], seeds, addrs);
    seen, cache := Gather(env, seen, seeds, [], net.peerCache);
  }

  method NetworkToken(env: Env, net: Net, extra: seq<string>, tcpPort: int, exp: string)
    returns (token: Option<Token>)
    ensures token == Minted(env, net, extra, tcpPort, exp)
  {
    var keys := CollectKeys(env, net.keys);
    if |keys| == 0 {
      return None;
    }
    var seeds, cache := CollectAddresses(env, net, extra);
    token := Some(Token(net.id, net.name, net.subnet4, net.subnet6, keys, seeds, cache, tcpPort, exp));
  }

  // ---------------------------------------------------------------- what a token carries

  lemma {:induction false} GatheredIs(known: seq<string>, out: seq<string>, xs: seq<string>, n: nat)
    requires n <= |xs| && NoRepeats(out)
    ensures var g := Gathered(known, out, xs, n);
            && NoRepeats(g)
            && (forall s :: s in g <==> s in out || (s in Distinct(xs[..n]) && s !in known))
  {
    if n > 0 {
      GatheredIs(known, out, xs, n - 1);
      assert xs[..n] == xs[..n - 1] + [xs[n - 1]];
    }
  }

  lemma GatheredAll(known: seq<string>, out: seq<string>, xs: seq<string>)
    requires NoRepeats(out)
    ensures var g := Gathered(known, out, xs, |xs|);
            && NoRepeats(g)
            && (forall s :: s in g <==> s in out || (s in Distinct(xs) && s !in known))
  {
    GatheredIs(known, out, xs, |xs|);
    assert xs[..|xs|] == xs;
  }

  lemma CountBoth(a: seq<string>, b: seq<string>, all: set<string>)
    requires NoRepeats(a) && NoRepeats(b) && forall s :: s in b ==> s !in a
    requires forall s :: s in all <==> s in a || s in b
    ensures |a| + |b| == |all|
  {
    var u := set s | s in a;
    var v := set s | s in b;
    CardOf(a, u);
    CardOf(b, v);
    assert u + v == all && u !! v;
  }

  /** All addresses a node knows for a network, trimmed: extras, enabled seeds, recent peers. */
  function Known(env: Env, net: Net, extra: seq<string>): set<string> {
    Distinct(TrimAll(env, extra)) + Distinct(TrimAll(env, EnabledAddrs(net.seeds, |net.seeds|)))
    + Distinct(TrimAll(env, net.peerCache))
  }

  function TokenSeedCount(env: Env, net: Net, extra: seq<string>): nat {
    |Known(env, net, extra)|
  }

  /** A token's two groups repeat nothing, share nothing, hold exactly the addresses the node
      knows (seeds the explicit ones, the cache the rest), and together are as many as
      TokenSeedCount announces. */
  lemma TokenCarriesWhatIsCounted(env: Env, net: Net, extra: seq<string>)
    ensures var seeds, cache := TokenSeeds(env, net, extra), TokenCache(env, net, extra);
            && NoRepeats(seeds) && NoRepeats(cache)
            && (forall s :: s in cache ==> s !in seeds)
            && (forall s :: s in Known(env, net, extra) <==> s in seeds || s in cache)
            && |seeds| + |cache| == TokenSeedCount(env, net, extra)
  {
    var xs, ys := TrimAll(env, extra), TrimAll(env, EnabledAddrs(net.seeds, |net.seeds|));
    GatheredAll([], [], xs);
    GatheredAll([], Gathered([], [], xs, |xs|), ys);
    var seeds, cache := TokenSeeds(env, net, extra), TokenCache(env, net, extra);
    GatheredAll(seeds, [], TrimAll(env, net.peerCache));
    CountBoth(seeds, cache, Known(env, net, extra));
  }

  // ---------------------------------------------------------------- joining

  /** Everything NetworkJoinToken checks before it touches the configuration. */
  predicate Acceptable(env: Env, t: Token) {
    && env.canon(t.id).Some?
    && (t.exp != "" ==> env.isTime(t.exp) && !env.expired(t.exp))
    && t.keys != []
    && (forall i :: 0 <= i < |t.keys| ==> env.decodes(t.keys[i].key))
    && (t.subnet4 != "" ==> env.isV4(t.subnet4))
    && (t.subnet6 != "" ==> env.isV6(t.subnet6))
  }

  predicate Names(env: Env, net: Net, ref: string) {
    net.name == ref || net.id == ref || (env.hex(ref).Some? && env.hex(net.id) == env.hex(ref))
  }

  ghost predicate IsFirstNamed(env: Env, nets: seq<Net>, ref: string, i: int) {
    -1 <= i < |nets| && (i >= 0 ==> Names(env, nets[i], ref))
    && forall j :: 0 <= j < (if i < 0 then |nets| else i) ==> !Names(env, nets[j], ref)
  }

  predicate HasAddr(seeds: seq<Seed>, a: string) {
    exists i :: 0 <= i < |seeds| && seeds[i].address == a
  }

  function MergedSeeds(seeds: seq<Seed>, xs: seq<string>, n: nat): seq<Seed>
    requires n <= |xs|
  {
    if n == 0 then seeds
    else
      var m, s := MergedSeeds(seeds, xs, n - 1), xs[n - 1];
      if s != "" && !HasAddr(m, s) then m + [Seed(s, false)] else m
  }

  function MergedCache(cache: seq<string>, seeds: seq<Seed>, xs: seq<string>, n: nat): seq<string>
    requires n <= |xs|
  {
    if n == 0 then cache
    else
      var m, s := MergedCache(cache, seeds, xs, n - 1), xs[n - 1];
      if s != "" && !HasAddr(seeds, s) && s !in m then m + [s] else m
  }

  /** NewNetworkDefaults with the token's identity. */
  function NewNet(id: string, t: Token): Net {
    Net(id, t.name, true, t.subnet4, t.subnet6, NO_KEYS, [], [], 0)
  }

  /** The network after the token is merged into it, or None when the keys do not fit. */
  ghost function Merged(env: Env, net: Net, t: Token): Option<Net> {
    match Imported(net.keys, t.keys, |t.keys|)
    case None => None
    case Some(keys) =>
      var seeds := MergedSeeds(net.seeds, TrimAll(env, t.seeds), |t.seeds|);
      Some(net.(
        subnet4 := if t.subnet4 != "" then t.subnet4 else net.subnet4,
        subnet6 := if t.subnet6 != "" then t.subnet6 else net.subnet6,
        keys := keys,
        enabled := true,
        seedTCPPort := if t.tcpPort > 0 && net.seedTCPPort == 0 then t.tcpPort else net.seedTCPPort,
        seeds := seeds,
        peerCache := MergedCache(net.peerCache, seeds, TrimAll(env, t.peerCache), |t.peerCache|)))
  }

  /** `after` is what joining with the token makes of `nets`. */
  ghost predicate Joins(env: Env, nets: seq<Net>, t: Token, after: seq<Net>) {
    && Acceptable(env, t)
    && exists i :: IsFirstNamed(env, nets, env.canon(t.id).value, i)
         && var net := if i < 0 then NewNet(env.canon(t.id).value, t) else nets[i];
            Merged(env, net, t).Some?
            && after == if i < 0 then nets + [Merged(env, net, t).value] else nets[i := Merged(env, net, t).value]
  }

  method MergeSeeds(env: Env, seeds0: seq<Seed>, xs: seq<string>) returns (seeds: seq<Seed>)
    ensures seeds == MergedSeeds(seeds0, TrimAll(env, xs), |xs|)
  {
    seeds := seeds0;
    for i := 0 to |xs|
      invariant seeds == MergedSeeds(seeds0, TrimAll(env, xs), i)
    {
      var s := env.lib.trim(xs[i]);
      if s != "" && !HasAddr(seeds, s) {
        seeds := seeds + [Seed(s, false)];
      }
    }
  }

  method MergeCache(env: Env, cache0: seq<string>, seeds: seq<Seed>, xs: seq<string>) returns (cache: seq<string>)
    ensures cache == MergedCache(cache0, seeds, TrimAll(env, xs), |xs|)
  {
    cache := cache0;
    for i := 0 to |xs|
      invariant cache == MergedCache(cache0, seeds, TrimAll(env, xs), i)
    {
      var s := env.lib.trim(xs[i]);
      if s != "" && !HasAddr(seeds, s) && s !in cache {
        cache := cache + [s];
      }
    }
  }

  class Node {
    var networks: seq<Net>

    method FindNetwork(env: Env, ref: string) returns (i: int)
      ensures IsFirstNamed(env, networks, ref, i)
    {
      for k := 0 to |networks|
        invariant forall j :: 0 <= j < k ==> !Names(env, networks[j], ref)
      {
        if Names(env, networks[k], ref) {
          return k;
        }
      }
      i := -1;
    }

    /** A refused token may leave the configuration half edited; the caller discards it. */
    method NetworkJoinToken(env: Env, t: Token) returns (ok: bool)
      requires Sound(env)
      modifies this
      ensures ok ==> Joins(env, old(networks), t, networks)
      ensures !ok ==> !exists after :: Joins(env, old(networks), t, after)
    {
      ghost var before := networks;
      if !Acceptable(env, t) {
        return false;
      }
      var canon := env.canon(t.id).value;
      var at := FindNetwork(env, canon);
      ghost var found := at;
      if at < 0 {
        at := |networks|;
        networks := networks + [NewNet(canon, t)];
      }
      ghost var start := networks[at];
      var net := networks[at];
      if t.subnet4 != "" {
        net := net.(subnet4 := t.subnet4);
      }
      if t.subnet6 != "" {
        net := net.(subnet6 := t.subnet6);
      }
      var keys, fits := ImportKeys(net.keys, t.keys);
      if !fits {
        assert forall i :: IsFirstNamed(env, before, canon, i) ==> i == found;
        return false;
      }
      var seeds := MergeSeeds(env, net.seeds, t.seeds);
      var cache := MergeCache(env, net.peerCache, seeds, t.peerCache);
      net := net.(keys := keys, enabled := true, seeds := seeds, peerCache := cache,
                  seedTCPPort := if t.tcpPort > 0 && net.seedTCPPort == 0 then t.tcpPort else net.seedTCPPort);
      assert Merged(env, start, t) == Some(net);
      networks := networks[at := net];
      assert networks == if found < 0 then before + [net] else before[found := net];
      return true;
    }
  }

  /** The key merge, slot by slot, with the set of keys already present kept alongside. */
  method ImportKeys(s: Slots, ks: seq<TokenKey>) returns (keys: Slots, fits: bool)
    requires forall i :: 0 <= i < |ks| ==> ks[i].key != ""
    ensures Imported(s, ks, |ks|) == if fits then Some(keys) else None
  {
    keys := s;
    var have: set<string> := {};
    for i := 0 to SLOTS
      invariant forall k :: k in have <==> k != "" && exists j :: 0 <= j < i && keys[j].key == k
    {
      if keys[i].key != "" {
        have := have + {keys[i].key};
      }
    }
    for n := 0 to |ks|
      invariant Imported(s, ks, n) == Some(keys)
      invariant forall k :: k in have <==> k != "" && HasKey(keys, k)
    {
      var k := ks[n];
      if k.key in have {
        continue;
      }
      var slot := -1;
      for i := 0 to SLOTS
        invariant slot == -1 && forall j :: 0 <= j < i ==> keys[j].key != ""
      {
        if keys[i].key == "" {
          slot := i;
          break;
        }
      }
      FirstUnique(keys, "", slot);
      if slot < 0 {
        NoRoomStays(s, ks, n + 1, |ks|);
        fits := false;
        return;
      }
      ghost var before := keys;
      keys := keys[slot := KeySlot(k.key, Titled(k.title, slot), true, k.expires, false, "")];
      have := have + {k.key};
      assert keys[slot].key == k.key;
      assert forall j :: 0 <= j < SLOTS && j != slot ==> keys[j] == before[j];
    }
    fits := true;
  }

  lemma {:induction false} NoRoomStays(s: Slots, ks: seq<TokenKey>, m: nat, n: nat)
    requires m <= n <= |ks| && Imported(s, ks, m).None?
    ensures Imported(s, ks, n).None?
  {
    if m < n {
      NoRoomStays(s, ks, m, n - 1);
    }
  }

  // ---------------------------------------------------------------- joining twice

  lemma {:induction false} SeedsStay(seeds: seq<Seed>, xs: seq<string>, m: nat, n: nat)
    requires m <= n <= |xs|
    ensures MergedSeeds(seeds, xs, m) <= MergedSeeds(seeds, xs, n)
  {
    if m < n {
      SeedsStay(seeds, xs, m, n - 1);
    }
  }

  lemma {:induction false} SeedsAllPresent(seeds: seq<Seed>, xs: seq<string>, n: nat, i: nat)
    requires i < n <= |xs|
    ensures xs[i] != "" ==> HasAddr(MergedSeeds(seeds, xs, n), xs[i])
  {
    var s, m := xs[i], MergedSeeds(seeds, xs, i + 1);
    if s != "" {
      assert HasAddr(m, s) by {
        var before := MergedSeeds(seeds, xs, i);
        if !HasAddr(before, s) {
          assert m[|before|].address == s;
        }
      }
      SeedsStay(seeds, xs, i + 1, n);
    }
  }

  lemma {:induction false} SeedsMergedOnce(seeds: seq<Seed>, xs: seq<string>, n: nat)
    requires n <= |xs|
    requires forall i :: 0 <= i < |xs| && xs[i] != "" ==> HasAddr(seeds, xs[i])
    ensures MergedSeeds(seeds, xs, n) == seeds
  {
    if n > 0 {
      SeedsMergedOnce(seeds, xs, n - 1);
    }
  }

  lemma {:induction false} CacheStays(cache: seq<string>, seeds: seq<Seed>, xs: seq<string>, m: nat, n: nat)
    requires m <= n <= |xs|
    ensures MergedCache(cache, seeds, xs, m) <= MergedCache(cache, seeds, xs, n)
  {
    if m < n {
      CacheStays(cache, seeds, xs, m, n - 1);
    }
  }

  lemma CacheAllPresent(cache: seq<string>, seeds: seq<Seed>, xs: seq<string>, n: nat, i: nat)
    requires i < n <= |xs|
    ensures var s := xs[i];
            s == "" || HasAddr(seeds, s) || s in MergedCache(cache, seeds, xs, n)
  {
    CacheStays(cache, seeds, xs, i + 1, n);
  }

  lemma {:induction false} CacheMergedOnce(cache: seq<string>, seeds: seq<Seed>, xs: seq<string>, n: nat)
    requires n <= |xs|
    requires forall i :: 0 <= i < |xs| ==>
               xs[i] == "" || HasAddr(seeds, xs[i]) || xs[i] in cache
    ensures MergedCache(cache, seeds, xs, n) == cache
  {
    if n > 0 {
      CacheMergedOnce(cache, seeds, xs, n - 1);
    }
  }

  lemma {:induction false} KeysStay(s: Slots, ks: seq<TokenKey>, m: nat, n: nat, key: string)
    requires m <= n <= |ks| && Imported(s, ks, n).Some? && key != ""
    ensures Imported(s, ks, m).Some?
    ensures HasKey(Imported(s, ks, m).value, key) ==> HasKey(Imported(s, ks, n).value, key)
  {
    if m < n {
      KeysStay(s, ks, m, n - 1, key);
      var t, u := Imported(s, ks, n - 1).value, Imported(s, ks, n).value;
      if HasKey(t, key) {
        var j :| 0 <= j < SLOTS && t[j].key == key;
        assert u[j].key == key;
      }
    }
  }

  lemma KeysAllPresent(s: Slots, ks: seq<TokenKey>, i: nat)
    requires i < |ks| && Imported(s, ks, |ks|).Some? && ks[i].key != ""
    ensures HasKey(Imported(s, ks, |ks|).value, ks[i].key)
  {
    KeysStay(s, ks, i + 1, |ks|, ks[i].key);
    KeysStay(s, ks, i, |ks|, ks[i].key);
    var t, u := Imported(s, ks, i).value, Imported(s, ks, i + 1).value;
    assert u == ImportOne(t, ks[i]).value;
    var at := if Find(t, ks[i].key) >= 0 then Find(t, ks[i].key) else Find(t, "");
    assert u[at].key == ks[i].key;
  }

  lemma {:induction false} KeysImportedOnce(s: Slots, ks: seq<TokenKey>, n: nat)
    requires n <= |ks| && forall i :: 0 <= i < |ks| ==> HasKey(s, ks[i].key)
    ensures Imported(s, ks, n) == Some(s)
  {
    if n > 0 {
      KeysImportedOnce(s, ks, n - 1);
      var j :| 0 <= j < SLOTS && s[j].key == ks[n - 1].key;
      assert Find(s, ks[n - 1].key) >= 0;
    }
  }

  lemma MergedTwice(env: Env, net: Net, t: Token)
    requires Merged(env, net, t).Some? && forall i :: 0 <= i < |t.keys| ==> t.keys[i].key != ""
    ensures Merged(env, Merged(env, net, t).value, t) == Merged(env, net, t)
  {
    var u := Merged(env, net, t).value;
    forall i | 0 <= i < |t.keys|
      ensures HasKey(u.keys, t.keys[i].key)
    {
      KeysAllPresent(net.keys, t.keys, i);
    }
    KeysImportedOnce(u.keys, t.keys, |t.keys|);
    var xs, ys := TrimAll(env, t.seeds), TrimAll(env, t.peerCache);
    forall i | 0 <= i < |xs| && xs[i] != ""
      ensures HasAddr(u.seeds, xs[i])
    {
      SeedsAllPresent(net.seeds, xs, |xs|, i);
    }
    SeedsMergedOnce(u.seeds, xs, |xs|);
    forall i | 0 <= i < |ys|
      ensures ys[i] == "" || HasAddr(u.seeds, ys[i]) || ys[i] in u.peerCache
    {
      CacheAllPresent(net.peerCache, u.seeds, ys, |ys|, i);
    }
    CacheMergedOnce(u.peerCache, u.seeds, ys, |ys|);
  }

  /** Joining again with the same token is accepted and changes nothing, whatever the
      configuration was before the first time. */
  lemma JoinTwice(env: Env, nets: seq<Net>, t: Token, once: seq<Net>, twice: seq<Net>)
    requires Sound(env) && Joins(env, nets, t, once)
    ensures Joins(env, once, t, twice) <==> twice == once
  {
    var canon := env.canon(t.id).value;
    var i :| IsFirstNamed(env, nets, canon, i)
      && var net := if i < 0 then NewNet(canon, t) else nets[i];
         Merged(env, net, t).Some?
         && once == if i < 0 then nets + [Merged(env, net, t).value] else nets[i := Merged(env, net, t).value];
    var net := if i < 0 then NewNet(canon, t) else nets[i];
    var at := if i < 0 then |nets| else i;
    assert once[at] == Merged(env, net, t).value;
    MergedTwice(env, net, t);
    assert IsFirstNamed(env, once, canon, at);
    assert forall k :: IsFirstNamed(env, once, canon, k) ==> k == at;
    assert once[at := once[at]] == once;
  }

  // ---------------------------------------------------------------- minting, then joining afresh

  /** The first c slots are filled and the rest empty. */
  predicate Packed(s: Slots, c: nat) {
    && c <= SLOTS
    && (forall j :: 0 <= j < c ==> s[j].key != "" && s[j].enabled)
    && (forall j :: c <= j < SLOTS ==> s[j] == EMPTY)
  }

  predicate Offers(ks: seq<TokenKey>, n: nat, key: string)
    requires n <= |ks|
  {
    exists i :: 0 <= i < n && ks[i].key == key
  }

  lemma {:induction false} ImportIntoEmpty(ks: seq<TokenKey>, n: nat) returns (s: Slots, c: nat)
    requires n <= |ks| <= SLOTS && forall i :: 0 <= i < |ks| ==> ks[i].key != ""
    ensures Imported(NO_KEYS, ks, n) == Some(s)
    ensures Packed(s, c) && c <= n && DistinctKeys(s)
    ensures forall key :: key != "" ==> (HasKey(s, key) <==> Offers(ks, n, key))
  {
    if n == 0 {
      s, c := NO_KEYS, 0;
    } else {
      var t, d := ImportIntoEmpty(ks, n - 1);
      var k := ks[n - 1];
      assert forall key :: Offers(ks, n, key) <==> Offers(ks, n - 1, key) || key == k.key;
      s := ImportPacked(t, d, k);
      c := if HasKey(t, k.key) then d else d + 1;
    }
  }

  lemma ImportPacked(t: Slots, d: nat, k: TokenKey) returns (s: Slots)
    requires Packed(t, d) && d < SLOTS && DistinctKeys(t) && k.key != ""
    ensures ImportOne(t, k) == Some(s)
    ensures Packed(s, if HasKey(t, k.key) then d else d + 1) && DistinctKeys(s)
    ensures forall key :: key != "" ==> (HasKey(s, key) <==> HasKey(t, key) || key == k.key)
  {
    if HasKey(t, k.key) {
      var j :| 0 <= j < SLOTS && t[j].key == k.key;
      assert Find(t, k.key) >= 0;
      s := t;
    } else {
      assert Find(t, k.key) < 0;
      assert IsFirst(t, "", d);
      FirstUnique(t, "", d);
      s := t[d := Fresh(k.key, k.title, d, k.expires)];
      assert s[d].key == k.key;
      forall key | key != ""
        ensures HasKey(s, key) <==> HasKey(t, key) || key == k.key
      {
        if HasKey(t, key) {
          var j :| 0 <= j < SLOTS && t[j].key == key;
          assert s[j].key == key;
        }
      }
    }
  }

  ghost predicate CameFrom(ks: seq<TokenKey>, n: nat, slot: KeySlot, j: nat)
    requires n <= |ks|
  {
    exists i :: 0 <= i < n && slot == Fresh(ks[i].key, ks[i].title, j, ks[i].expires)
  }

  /** Every slot filled by an import holds one of the token's keys, with its expiry and title. */
  lemma {:induction false} ImportedFrom(ks: seq<TokenKey>, n: nat, j: nat)
    requires n <= |ks| && j < SLOTS && Imported(NO_KEYS, ks, n).Some?
    ensures var slot := Imported(NO_KEYS, ks, n).value[j]; slot == EMPTY || CameFrom(ks, n, slot, j)
  {
    if n > 0 {
      ImportedFrom(ks, n - 1, j);
      var before := Imported(NO_KEYS, ks, n - 1).value[j];
      assert CameFrom(ks, n - 1, before, j) ==> CameFrom(ks, n, before, j);
    }
  }

  /** An active key of the issuer, as a joining node stores it in slot j. */
  ghost predicate IssuedBy(env: Env, s: Slots, n: nat, slot: KeySlot, j: nat)
    requires n <= SLOTS
  {
    exists i :: 0 <= i < n && Active(env, s[i]) && slot == Fresh(s[i].key, s[i].title, j, s[i].expires)
  }

  lemma {:induction false} ActiveKeysFrom(env: Env, s: Slots, n: nat, slot: KeySlot, j: nat)
    requires n <= SLOTS && CameFrom(ActiveKeys(env, s, n), |ActiveKeys(env, s, n)|, slot, j)
    ensures IssuedBy(env, s, n, slot, j)
  {
    var ks, early := ActiveKeys(env, s, n), ActiveKeys(env, s, n - 1);
    var i :| 0 <= i < |ks| && slot == Fresh(ks[i].key, ks[i].title, j, ks[i].expires);
    if i < |early| {
      assert early[i] == ks[i];
      ActiveKeysFrom(env, s, n - 1, slot, j);
    } else {
      assert Active(env, s[n - 1]);
    }
  }

  ghost predicate HasActive(env: Env, s: Slots, n: nat, key: string)
    requires n <= SLOTS
  {
    exists i :: 0 <= i < n && Active(env, s[i]) && s[i].key == key
  }

  lemma OffersMore(ks: seq<TokenKey>, k: TokenKey, key: string)
    ensures Offers(ks + [k], |ks| + 1, key) <==> Offers(ks, |ks|, key) || k.key == key
  {
    var more := ks + [k];
    assert more[|ks|] == k;
    assert forall i :: 0 <= i < |ks| ==> more[i] == ks[i];
  }

  lemma {:induction false} ActiveKeysAre(env: Env, s: Slots, n: nat)
    requires n <= SLOTS
    ensures forall i :: 0 <= i < |ActiveKeys(env, s, n)| ==> ActiveKeys(env, s, n)[i].key != ""
  {
    if n > 0 {
      ActiveKeysAre(env, s, n - 1);
    }
  }

  lemma {:induction false} ActiveKeysOffer(env: Env, s: Slots, n: nat, key: string)
    requires n <= SLOTS
    ensures Offers(ActiveKeys(env, s, n), |ActiveKeys(env, s, n)|, key) <==> HasActive(env, s, n, key)
  {
    if n > 0 {
      ActiveKeysOffer(env, s, n - 1, key);
      HasActiveMore(env, s, n, key);
      OffersMore(ActiveKeys(env, s, n - 1), TokenKey(s[n - 1].key, s[n - 1].title, s[n - 1].expires), key);
      assert !Active(env, s[n - 1]) ==> ActiveKeys(env, s, n) == ActiveKeys(env, s, n - 1);
    }
  }

  lemma HasActiveMore(env: Env, s: Slots, n: nat, key: string)
    requires 0 < n <= SLOTS
    ensures HasActive(env, s, n, key) <==>
            HasActive(env, s, n - 1, key) || (Active(env, s[n - 1]) && s[n - 1].key == key)
  {
  }

  predicate Clean(env: Env, xs: seq<string>) {
    NoRepeats(xs) && forall i :: 0 <= i < |xs| ==> xs[i] != "" && env.lib.trim(xs[i]) == xs[i]
  }

  lemma {:induction false} GatheredClean(env: Env, known: seq<string>, out: seq<string>, xs: seq<string>, n: nat)
    requires Sound(env) && n <= |xs| && Clean(env, out)
    requires forall i :: 0 <= i < |xs| ==> env.lib.trim(xs[i]) == xs[i]
    ensures Clean(env, Gathered(known, out, xs, n))
  {
    if n > 0 {
      GatheredClean(env, known, out, xs, n - 1);
    }
  }

  lemma TokenIsClean(env: Env, net: Net, extra: seq<string>)
    requires Sound(env)
    ensures Clean(env, TokenSeeds(env, net, extra)) && Clean(env, TokenCache(env, net, extra))
  {
    var addrs := EnabledAddrs(net.seeds, |net.seeds|);
    var xs, ys := TrimAll(env, extra), TrimAll(env, addrs);
    GatheredClean(env, [], [], xs, |xs|);
    GatheredClean(env, [], Gathered([], [], xs, |xs|), ys, |ys|);
    GatheredClean(env, TokenSeeds(env, net, extra), [], TrimAll(env, net.peerCache), |net.peerCache|);
  }

  /** Seeds with these addresses, all enabled. */
  predicate SeedsAre(seeds: seq<Seed>, xs: seq<string>) {
    |seeds| == |xs| && forall i :: 0 <= i < |xs| ==> seeds[i] == Seed(xs[i], false)
  }

  lemma {:induction false} MergeIntoNoSeeds(env: Env, xs: seq<string>, n: nat)
    requires Clean(env, xs) && n <= |xs|
    ensures SeedsAre(MergedSeeds([], xs, n), xs[..n])
  {
    if n > 0 {
      MergeIntoNoSeeds(env, xs, n - 1);
      assert xs[n - 1] !in xs[..n - 1];
      NotAmongSeeds(MergedSeeds([], xs, n - 1), xs[..n - 1], xs[n - 1]);
    }
  }

  lemma {:induction false} MergeIntoNoCache(env: Env, seeds: seq<Seed>, ys: seq<string>, n: nat)
    requires Clean(env, ys) && n <= |ys|
    requires forall i :: 0 <= i < |ys| ==> !HasAddr(seeds, ys[i])
    ensures MergedCache([], seeds, ys, n) == ys[..n]
  {
    if n > 0 {
      MergeIntoNoCache(env, seeds, ys, n - 1);
      assert ys[..n] == ys[..n - 1] + [ys[n - 1]];
    }
  }

  /** What a network joined for the first time with a token minted from `issuer` has: exactly the
      issuer's distinct active keys, packed and enabled, with their titles and expiry; the
      token's seeds as its own; the issuer's recent peers in its cache. */
  ghost predicate JoinedAfresh(env: Env, issuer: Net, t: Token, n: Net) {
    && env.canon(t.id) == Some(n.id) && n.name == issuer.name && n.enabled
    && n.subnet4 == issuer.subnet4 && n.subnet6 == issuer.subnet6
    && (exists c :: Packed(n.keys, c)) && DistinctKeys(n.keys)
    && (forall key :: key != "" ==> (HasKey(n.keys, key) <==> HasActive(env, issuer.keys, SLOTS, key)))
    && (forall j :: 0 <= j < SLOTS ==> n.keys[j] == EMPTY || IssuedBy(env, issuer.keys, SLOTS, n.keys[j], j))
    && SeedsAre(n.seeds, t.seeds)
    && n.peerCache == t.peerCache && n.seedTCPPort == (if t.tcpPort > 0 then t.tcpPort else 0)
  }

  lemma NotAmongSeeds(seeds: seq<Seed>, xs: seq<string>, a: string)
    requires SeedsAre(seeds, xs) && a !in xs
    ensures !HasAddr(seeds, a)
  {
    assert forall j :: 0 <= j < |xs| ==> xs[j] in xs;
  }

  lemma TrimAllClean(env: Env, xs: seq<string>)
    requires Clean(env, xs)
    ensures TrimAll(env, xs) == xs
  {
  }

  lemma AddressesAfresh(env: Env, seeds: seq<string>, cache: seq<string>)
    requires Clean(env, seeds) && Clean(env, cache) && forall s :: s in cache ==> s !in seeds
    ensures var merged := MergedSeeds([], seeds, |seeds|);
            SeedsAre(merged, seeds) && MergedCache([], merged, cache, |cache|) == cache
  {
    MergeIntoNoSeeds(env, seeds, |seeds|);
    assert seeds[..|seeds|] == seeds && cache[..|cache|] == cache;
    var merged := MergedSeeds([], seeds, |seeds|);
    forall i | 0 <= i < |cache|
      ensures !HasAddr(merged, cache[i])
    {
      NotAmongSeeds(merged, seeds, cache[i]);
    }
    MergeIntoNoCache(env, merged, cache, |cache|);
  }

  lemma KeyAfresh(env: Env, s: Slots, keys: Slots, j: nat)
    requires var ks := ActiveKeys(env, s, SLOTS); Imported(NO_KEYS, ks, |ks|) == Some(keys) && j < SLOTS
    ensures keys[j] == EMPTY || IssuedBy(env, s, SLOTS, keys[j], j)
  {
    var ks := ActiveKeys(env, s, SLOTS);
    ImportedFrom(ks, |ks|, j);
    if keys[j] != EMPTY {
      ActiveKeysFrom(env, s, SLOTS, keys[j], j);
    }
  }

  /** A token just minted is accepted by a node none of whose networks answers to its id, whenever
      it passes the checks a token always undergoes; joining adds one network, which holds exactly
      what the issuer shared. */
  lemma MintThenJoin(
    env: Env, nets: seq<Net>, issuer: Net, extra: seq<string>, tcpPort: int, exp: string, t: Token)
    returns (n: Net)
    requires Sound(env) && Minted(env, issuer, extra, tcpPort, exp) == Some(t) && Acceptable(env, t)
    requires forall i :: 0 <= i < |nets| ==> !Names(env, nets[i], env.canon(t.id).value)
    ensures forall after :: Joins(env, nets, t, after) <==> after == nets + [n]
    ensures JoinedAfresh(env, issuer, t, n)
  {
    var canon := env.canon(t.id).value;
    ActiveKeysAre(env, issuer.keys, SLOTS);
    forall key: string {
      ActiveKeysOffer(env, issuer.keys, SLOTS, key);
    }
    var keys, c := ImportIntoEmpty(t.keys, |t.keys|);
    n := Merged(env, NewNet(canon, t), t).value;
    assert n.keys == keys;
    forall j | 0 <= j < SLOTS
      ensures n.keys[j] == EMPTY || IssuedBy(env, issuer.keys, SLOTS, n.keys[j], j)
    {
      KeyAfresh(env, issuer.keys, keys, j);
    }
    TokenIsClean(env, issuer, extra);
    assert forall s :: s in t.peerCache ==> s !in t.seeds by {
      TokenCarriesWhatIsCounted(env, issuer, extra);
    }
    TrimAllClean(env, t.seeds);
    TrimAllClean(env, t.peerCache);
    AddressesAfresh(env, t.seeds, t.peerCache);
    assert IsFirstNamed(env, nets, canon, -1);
  }
}
