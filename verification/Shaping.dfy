/** Hoisting the node default and the per-network rate overrides into one list keyed by
    interface. */
module Shaping {
  import opened Text

  datatype Throttle = Throttle(enabled: bool, up: int, down: int, burst: int, queue: int)

  /** No limit, which is also what having no entry means. */
  const NONE := Throttle(false, 0, 0, 0, 0)

  datatype Entry = Entry(iface: string, rate: Throttle)

  datatype Network = Network(id: string, name: string, tun: string, rate: Option<Throttle>)

  /** The part of the configuration that shaping reads: legacy node default, networks with their
      legacy overrides, the list, and its switch. */
  datatype Node = Node(rate: Throttle, nets: seq<Network>, list: seq<Entry>, disabled: bool)

  /** Trimming is idempotent and leaves text without outer blanks alone. */
  ghost predicate Trims(lib: Strings) {
    Lawful(lib) && forall s: string :: Trimmed(s) ==> lib.trim(s) == s
  }

  // ---------------------------------------------------------------- interfaces

  /** autoIfaceName */
  function AutoIface(i: nat): string {
    "mesh" + Decimal(i)
  }

  /** IfaceForNetworkAt */
  function IfaceAt(lib: Strings, nets: seq<Network>, i: nat): string
    requires i < |nets|
  {
    var name := lib.trim(nets[i].tun);
    if name != "" then name else AutoIface(i)
  }

  /** The first network, from index k, that n names by id. */
  function ByID(nets: seq<Network>, n: Network, k: nat): (i: nat)
    requires k <= |nets|
    ensures k <= i <= |nets|
    ensures i < |nets| ==> nets[i].id == n.id != ""
    ensures forall j :: k <= j < i ==> nets[j].id != n.id || n.id == ""
    decreases |nets| - k
  {
    if k == |nets| || (nets[k].id == n.id && n.id != "") then k else ByID(nets, n, k + 1)
  }

  function ByName(nets: seq<Network>, n: Network, k: nat): (i: nat)
    requires k <= |nets|
    ensures k <= i <= |nets|
    ensures i < |nets| ==> nets[i].name == n.name != ""
    ensures forall j :: k <= j < i ==> nets[j].name != n.name || n.name == ""
    decreases |nets| - k
  {
    if k == |nets| || (nets[k].name == n.name && n.name != "") then k else ByName(nets, n, k + 1)
  }

  /** IfaceForNetwork */
  function IfaceFor(lib: Strings, nets: seq<Network>, n: Network): string {
    var i, j := ByID(nets, n, 0), ByName(nets, n, 0);
    if i < |nets| then IfaceAt(lib, nets, i)
    else if j < |nets| then IfaceAt(lib, nets, j)
    else lib.trim(n.tun)
  }

  // ---------------------------------------------------------------- the list

  /** ShapingFor: the first entry for an interface, or the length. */
  function Find(list: seq<Entry>, iface: string): (k: nat)
    ensures k <= |list|
    ensures k < |list| ==> list[k].iface == iface
    ensures forall j :: 0 <= j < k ==> list[j].iface != iface
  {
    if list == [] || list[0].iface == iface then 0 else 1 + Find(list[1..], iface)
  }

  /** ShapingThrottle */
  function RateOf(lib: Strings, c: Node, iface: string): Throttle {
    var f := lib.trim(iface);
    if c.disabled || f == "" then NONE
    else
      var k := Find(c.list, f);
      if k < |c.list| then c.list[k].rate else NONE
  }

  /** ShapingForNetwork */
  function RateFor(lib: Strings, c: Node, n: Network): Throttle {
    RateOf(lib, c, IfaceFor(lib, c.nets, n))
  }

  function Put(lib: Strings, list: seq<Entry>, iface: string, t: Throttle): seq<Entry> {
    if iface == "" || t == NONE then list
    else
      var f := lib.trim(iface);
      var k := Find(list, f);
      if f != "" && k < |list| then list[k := list[k].(rate := t)] else list + [Entry(iface, t)]
  }

  /** The rate network i got before: its override, else the node default. */
  function RateBefore(c: Node, i: nat): Throttle
    requires i < |c.nets|
  {
    if c.nets[i].rate.Some? then c.nets[i].rate.value else c.rate
  }

  function Gathered(lib: Strings, c: Node, n: nat): seq<Entry>
    requires n <= |c.nets|
  {
    if n == 0 then c.list
    else Put(lib, Gathered(lib, c, n - 1), IfaceAt(lib, c.nets, n - 1), RateBefore(c, n - 1))
  }

  function Cleared(nets: seq<Network>): (out: seq<Network>)
    ensures |out| == |nets|
    ensures forall i :: 0 <= i < |nets| ==> out[i] == nets[i].(rate := None)
  {
    seq(|nets|, i requires 0 <= i < |nets| => nets[i].(rate := None))
  }

  /** What migrateShaping leaves behind. */
  function Migrated(lib: Strings, c: Node): Node {
    var list :=
      if c.list != [] then c.list
      else if c.nets == [] then Put(lib, c.list, AutoIface(0), c.rate)
      else Gathered(lib, c, |c.nets|);
    Node(NONE, Cleared(c.nets), list, c.disabled)
  }

  class ShapingConfig {
    var rate: Throttle
    var nets: seq<Network>
    var list: seq<Entry>
    var disabled: bool
    const lib: Strings

    ghost function Value(): Node
      reads this
    {
      Node(rate, nets, list, disabled)
    }

    constructor (lib: Strings, c: Node)
      ensures Value() == c && this.lib == lib
    {
      this.lib, rate, nets, list, disabled := lib, c.rate, c.nets, c.list, c.disabled;
    }

    method ShapingFor(iface: string) returns (k: int)
      ensures var f := lib.trim(iface);
              k == if f != "" && Find(list, f) < |list| then Find(list, f) else -1
    {
      var f := lib.trim(iface);
      if f == "" {
        return -1;
      }
      for i := 0 to |list|
        invariant forall j :: 0 <= j < i ==> list[j].iface != f
      {
        if list[i].iface == f {
          return i;
        }
      }
      k := -1;
    }

    method Set(iface: string, t: Throttle)
      modifies `list
      ensures list == Put(lib, old(list), iface, t)
    {
      if iface == "" || t == NONE {
        return;
      }
      var k := ShapingFor(iface);
      if k >= 0 {
        list := list[k := list[k].(rate := t)];
        return;
      }
      list := list + [Entry(iface, t)];
    }

    method IfaceForNetworkAt(i: int) returns (iface: string)
      ensures iface == if 0 <= i < |nets| then IfaceAt(lib, nets, i) else ""
    {
      if i < 0 || i >= |nets| {
        return "";
      }
      var name := lib.trim(nets[i].tun);
      if name != "" {
        return name;
      }
      iface := AutoIface(i);
    }

    method MigrateShaping()
      modifies this
      ensures Value() == Migrated(lib, old(Value()))
    {
      if |list| == 0 {
        for i := 0 to |nets|
          invariant rate == old(rate) && nets == old(nets) && disabled == old(disabled)
          invariant list == Gathered(lib, old(Value()), i)
        {
          var t := rate;
          if nets[i].rate.Some? {
            t := nets[i].rate.value;
          }
          var iface := IfaceForNetworkAt(i);
          Set(iface, t);
        }
        if |nets| == 0 {
          Set(AutoIface(0), rate);
        }
      }
      rate := NONE;
      for i := 0 to |nets|
        invariant |nets| == |old(nets)| && rate == NONE && disabled == old(disabled)
        invariant list == Migrated(lib, old(Value())).list
        invariant forall j :: 0 <= j < |nets| ==>
                    nets[j] == if j < i then old(nets)[j].(rate := None) else old(nets)[j]
      {
        nets := nets[i := nets[i].(rate := None)];
      }
    }
  }

  // ---------------------------------------------------------------- what lookups find

  lemma AutoIfaceTrimmed(i: nat)
    ensures Trimmed(AutoIface(i)) && AutoIface(i) != ""
  {
    var s := AutoIface(i);
    assert s[|s| - 1] == Decimal(i)[|Decimal(i)| - 1];
    assert IsDigit(s[|s| - 1]);
  }

  lemma IfaceIsClean(lib: Strings, nets: seq<Network>, i: nat)
    requires Trims(lib) && i < |nets|
    ensures var f := IfaceAt(lib, nets, i); lib.trim(f) == f != ""
  {
    AutoIfaceTrimmed(i);
  }

  /** The rate stored for an interface. */
  function Stored(list: seq<Entry>, f: string): Throttle {
    var k := Find(list, f);
    if k < |list| then list[k].rate else NONE
  }

  lemma FindAppend(list: seq<Entry>, e: Entry, f: string)
    ensures Find(list + [e], f) ==
            if Find(list, f) < |list| then Find(list, f) else if e.iface == f then |list| else |list| + 1
  {
    var all := list + [e];
    assert forall j :: 0 <= j < |list| ==> all[j] == list[j];
    assert all[|list|] == e;
  }

  lemma PutThenStored(lib: Strings, list: seq<Entry>, iface: string, t: Throttle, f: string)
    requires lib.trim(iface) == iface != ""
    ensures Stored(Put(lib, list, iface, t), f) == if iface == f && t != NONE then t else Stored(list, f)
  {
    var k := Find(list, iface);
    if t != NONE {
      if k < |list| {
        var after := list[k := list[k].(rate := t)];
        assert forall j :: 0 <= j < |list| ==> after[j].iface == list[j].iface;
        assert Find(after, f) == Find(list, f);
      } else {
        FindAppend(list, Entry(iface, t), f);
      }
    }
  }

  /** The last rate, other than none, among the first n networks on interface f. */
  function LastRate(lib: Strings, c: Node, f: string, n: nat): Throttle
    requires n <= |c.nets|
  {
    if n == 0 then NONE
    else if IfaceAt(lib, c.nets, n - 1) == f && RateBefore(c, n - 1) != NONE then RateBefore(c, n - 1)
    else LastRate(lib, c, f, n - 1)
  }

  lemma {:induction false} GatheredStored(lib: Strings, c: Node, f: string, n: nat)
    requires Trims(lib) && c.list == [] && n <= |c.nets|
    ensures Stored(Gathered(lib, c, n), f) == LastRate(lib, c, f, n)
  {
    if n > 0 {
      GatheredStored(lib, c, f, n - 1);
      IfaceIsClean(lib, c.nets, n - 1);
      PutThenStored(lib, Gathered(lib, c, n - 1), IfaceAt(lib, c.nets, n - 1), RateBefore(c, n - 1), f);
    }
  }

  lemma {:induction false} ByIDAfter(nets: seq<Network>, n: Network, k: nat)
    requires k <= |nets|
    ensures ByID(Cleared(nets), n, k) == ByID(nets, n, k) && ByName(Cleared(nets), n, k) == ByName(nets, n, k)
    decreases |nets| - k
  {
    if k < |nets| {
      ByIDAfter(nets, n, k + 1);
    }
  }

  lemma IfaceUnmoved(lib: Strings, nets: seq<Network>, n: Network)
    ensures IfaceFor(lib, Cleared(nets), n) == IfaceFor(lib, nets, n)
  {
    ByIDAfter(nets, n, 0);
  }

  /** The interface network i is looked up under. */
  function IfaceOf(lib: Strings, nets: seq<Network>, i: nat): string
    requires i < |nets|
  {
    IfaceFor(lib, nets, nets[i])
  }

  lemma IfaceOfIsClean(lib: Strings, nets: seq<Network>, n: Network)
    requires Trims(lib)
    ensures lib.trim(IfaceFor(lib, nets, n)) == IfaceFor(lib, nets, n)
  {
    var i, j := ByID(nets, n, 0), ByName(nets, n, 0);
    if i < |nets| {
      IfaceIsClean(lib, nets, i);
    } else if j < |nets| {
      IfaceIsClean(lib, nets, j);
    }
  }

  /** With no list yet and shaping on, each network ends up with the last limit among the
      networks on the interface it is looked up under. */
  lemma RateAfter(lib: Strings, c: Node, i: nat)
    requires Trims(lib) && c.list == [] && !c.disabled && i < |c.nets|
    ensures RateFor(lib, Migrated(lib, c), c.nets[i]) == LastRate(lib, c, IfaceOf(lib, c.nets, i), |c.nets|)
  {
    var f := IfaceOf(lib, c.nets, i);
    IfaceUnmoved(lib, c.nets, c.nets[i]);
    IfaceOfIsClean(lib, c.nets, c.nets[i]);
    GatheredStored(lib, c, f, |c.nets|);
    if f == "" {
      NoRateForNoName(lib, c, |c.nets|);
    }
  }

  lemma {:induction false} NoRateForNoName(lib: Strings, c: Node, n: nat)
    requires Trims(lib) && n <= |c.nets|
    ensures LastRate(lib, c, "", n) == NONE
  {
    if n > 0 {
      IfaceIsClean(lib, c.nets, n - 1);
      NoRateForNoName(lib, c, n - 1);
    }
  }

  // ---------------------------------------------------------------- preservation

  /** Looking a network up finds its own interface and no other network's. */
  ghost predicate Apart(lib: Strings, nets: seq<Network>) {
    forall i, j :: 0 <= i < |nets| && 0 <= j < |nets| ==>
      (IfaceOf(lib, nets, i) == IfaceAt(lib, nets, j) <==> i == j)
  }

  ghost predicate KeepsRates(lib: Strings, c: Node) {
    forall i :: 0 <= i < |c.nets| ==> RateFor(lib, Migrated(lib, c), c.nets[i]) == RateBefore(c, i)
  }

  lemma {:induction false} SoleRate(lib: Strings, c: Node, f: string, i: nat, n: nat)
    requires n <= |c.nets|
    requires forall j :: 0 <= j < n && j != i && IfaceAt(lib, c.nets, j) == f ==> RateBefore(c, j) == NONE
    ensures LastRate(lib, c, f, n) ==
            if i < n && IfaceAt(lib, c.nets, i) == f then RateBefore(c, i) else NONE
  {
    if n > 0 {
      SoleRate(lib, c, f, i, n - 1);
    }
  }

  /** The hoist preserves every rate, zero rates included. */
  lemma HoistPreservesRates(lib: Strings, c: Node)
    requires Trims(lib) && c.list == [] && !c.disabled && Apart(lib, c.nets)
    ensures KeepsRates(lib, c)
  {
    forall i | 0 <= i < |c.nets|
      ensures RateFor(lib, Migrated(lib, c), c.nets[i]) == RateBefore(c, i)
    {
      var f := IfaceOf(lib, c.nets, i);
      assert forall j :: 0 <= j < |c.nets| ==> (f == IfaceAt(lib, c.nets, j) <==> i == j);
      RateAfter(lib, c, i);
      SoleRate(lib, c, f, i, |c.nets|);
    }
  }

  /** A network is looked up by its id, then by its name, and by neither has its own interface name,
      blank included. */
  lemma LookedUp(lib: Strings, nets: seq<Network>, n: Network, i: nat)
    requires i < |nets|
    ensures nets[i].id == n.id != "" && (forall j :: 0 <= j < i ==> nets[j].id != n.id) ==>
              IfaceFor(lib, nets, n) == IfaceAt(lib, nets, i)
    ensures (n.id == "" || forall j :: 0 <= j < |nets| ==> nets[j].id != n.id) ==>
              && (nets[i].name == n.name != "" && (forall j :: 0 <= j < i ==> nets[j].name != n.name) ==>
                    IfaceFor(lib, nets, n) == IfaceAt(lib, nets, i))
              && ((n.name == "" || forall j :: 0 <= j < |nets| ==> nets[j].name != n.name) ==>
                    IfaceFor(lib, nets, n) == lib.trim(n.tun))
  {
  }

  /** With shaping switched off no network is limited, whatever the list says. */
  lemma OffIsUnlimited(lib: Strings, c: Node, n: Network)
    requires c.disabled
    ensures RateFor(lib, c, n) == Throttle(false, 0, 0, 0, 0)
  {
  }

  /** The same networks, with a rate on network j only. */
  function OnlyRate(nets: seq<Network>, j: nat, t: Throttle): (c: Node)
    ensures |c.nets| == |nets| && c.list == [] && !c.disabled && c.rate == NONE
    ensures forall k :: 0 <= k < |nets| ==> c.nets[k] == nets[k].(rate := if k == j then Some(t) else None)
  {
    Node(NONE, seq(|nets|, k requires 0 <= k < |nets| => nets[k].(rate := if k == j then Some(t) else None)), [], false)
  }

  lemma SameIfaces(lib: Strings, nets: seq<Network>, j: nat, t: Throttle, i: nat)
    requires i < |nets|
    ensures var c := OnlyRate(nets, j, t);
            IfaceOf(lib, c.nets, i) == IfaceOf(lib, nets, i) && IfaceAt(lib, c.nets, i) == IfaceAt(lib, nets, i)
  {
    var c := OnlyRate(nets, j, t);
    assert Cleared(c.nets) == Cleared(nets);
    ByIDAfter(nets, nets[i], 0);
    ByIDAfter(c.nets, nets[i], 0);
    ByIDAfter(c.nets, c.nets[i], 0);
    SameKey(nets, nets[i], c.nets[i], 0);
  }

  lemma {:induction false} SameKey(nets: seq<Network>, n: Network, m: Network, k: nat)
    requires n.id == m.id && n.name == m.name && k <= |nets|
    ensures ByID(Cleared(nets), n, k) == ByID(Cleared(nets), m, k)
    ensures ByName(Cleared(nets), n, k) == ByName(Cleared(nets), m, k)
    decreases |nets| - k
  {
    if k < |nets| {
      SameKey(nets, n, m, k + 1);
    }
  }

  /** And only where interfaces are apart: otherwise a single rate on one of these networks is
      lost, or also given to another. */
  lemma OnlyApartHoists(lib: Strings, nets: seq<Network>, t: Throttle)
    requires Trims(lib) && t != NONE
    requires forall j :: 0 <= j < |nets| ==> KeepsRates(lib, OnlyRate(nets, j, t))
    ensures Apart(lib, nets)
  {
    forall i, j | 0 <= i < |nets| && 0 <= j < |nets|
      ensures IfaceOf(lib, nets, i) == IfaceAt(lib, nets, j) <==> i == j
    {
      var c := OnlyRate(nets, j, t);
      SameIfaces(lib, nets, j, t, i);
      SameIfaces(lib, nets, j, t, j);
      RateAfter(lib, c, i);
      SoleRate(lib, c, IfaceOf(lib, c.nets, i), j, |nets|);
      assert RateFor(lib, Migrated(lib, c), c.nets[i]) == RateBefore(c, i);
    }
  }

  /** Ids are non-empty and distinct, as Validate demands. */
  ghost predicate Identified(nets: seq<Network>) {
    && (forall i :: 0 <= i < |nets| ==> nets[i].id != "")
    && (forall i, j :: 0 <= i < j < |nets| ==> nets[i].id != nets[j].id)
  }

  lemma OwnIface(lib: Strings, nets: seq<Network>, i: nat)
    requires Identified(nets) && i < |nets|
    ensures IfaceOf(lib, nets, i) == IfaceAt(lib, nets, i)
  {
    assert ByID(nets, nets[i], 0) == i;
  }

  /** Checked ids and distinct interfaces are enough. */
  lemma DistinctIsApart(lib: Strings, nets: seq<Network>)
    requires Identified(nets)
    requires forall i, j :: 0 <= i < j < |nets| ==> IfaceAt(lib, nets, i) != IfaceAt(lib, nets, j)
    ensures Apart(lib, nets)
  {
    forall i | 0 <= i < |nets|
      ensures IfaceOf(lib, nets, i) == IfaceAt(lib, nets, i)
    {
      OwnIface(lib, nets, i);
    }
  }

  /** A node default with no network to go to waits on the first interface a network would get. */
  lemma DefaultWaitsOnFirst(lib: Strings, c: Node)
    requires Trims(lib) && c.list == [] && !c.disabled && c.nets == []
    ensures RateOf(lib, Migrated(lib, c), AutoIface(0)) == c.rate
  {
    AutoIfaceTrimmed(0);
    PutThenStored(lib, [], AutoIface(0), c.rate, AutoIface(0));
  }
}
