/** Hoisting per-network NAT into one node-wide list. A rule filed under a network used to be
    enforced in the kernel and in that network's overlay table; the hoist writes no scope, and each
    overlay table is derived from the interface a rule names. */
module NatHoist {
  import opened Text
  import opened Validation
  import Shaping

  // ---------------------------------------------------------------- rules in force

  function EnabledNat(rules: seq<NatRule>): seq<NatRule> {
    if rules == [] then []
    else
      var r := rules[|rules| - 1];
      EnabledNat(rules[..|rules| - 1]) + if r.enabled then [r] else []
  }

  /** The rules a NAT section puts into force. */
  function Effective(n: Nat): seq<NatRule> {
    if n.on then EnabledNat(n.rules) else []
  }

  function AllEffective(nets: seq<Network>): seq<NatRule> {
    if nets == [] then []
    else AllEffective(nets[..|nets| - 1]) + Effective(nets[|nets| - 1].translation)
  }

  // ---------------------------------------------------------------- the kernel half

  lemma {:induction false} EnabledConcat(a: seq<NatRule>, b: seq<NatRule>)
    ensures EnabledNat(a + b) == EnabledNat(a) + EnabledNat(b)
  {
    if b == [] {
      assert a + b == a;
    } else {
      assert (a + b)[..|a + b| - 1] == a + b[..|b| - 1];
      EnabledConcat(a, b[..|b| - 1]);
    }
  }

  lemma {:induction false} EnabledLifted(n: Nat, rules: seq<NatRule>)
    ensures EnabledNat(LiftedNat(n.(rules := rules))) == if n.on then EnabledNat(rules) else []
  {
    if rules != [] {
      var k := |rules| - 1;
      assert LiftedNat(n.(rules := rules))[..k] == LiftedNat(n.(rules := rules[..k]));
      EnabledLifted(n, rules[..k]);
    }
  }

  lemma {:induction false} EnabledHoisted(nets: seq<Network>)
    ensures EnabledNat(HoistedNat(nets)) == AllEffective(nets)
    ensures !AnyNatOn(nets) ==> AllEffective(nets) == []
  {
    if nets != [] {
      var k := |nets| - 1;
      var n := nets[k].translation;
      EnabledHoisted(nets[..k]);
      EnabledConcat(HoistedNat(nets[..k]), LiftedNat(n));
      EnabledLifted(n, n.rules);
      assert n.(rules := n.rules) == n;
    }
  }

  /** The kernel half: the node puts into force what its networks did, in their order. */
  lemma NatHoistKeepsKernel(n: Nat, nets: seq<Network>)
    requires n.rules == []
    ensures Effective(NatMigrated(n, nets)) == AllEffective(nets)
  {
    EnabledHoisted(nets);
  }

  // ---------------------------------------------------------------- overlay tables

  /** natRuleAppliesToOverlay */
  predicate Applies(lib: Strings, r: NatRule, dev: string) {
    var iface := lib.trim(r.match_.iface);
    iface == "" || lib.fold(iface) == lib.fold(lib.trim(dev))
  }

  function Applying(lib: Strings, rules: seq<NatRule>, dev: string): seq<NatRule> {
    if rules == [] then []
    else
      var r := rules[|rules| - 1];
      Applying(lib, rules[..|rules| - 1], dev) + if Applies(lib, r, dev) then [r] else []
  }

  /** The overlay table of the network on device `dev`. */
  function Overlay(lib: Strings, n: Nat, dev: string): seq<NatRule> {
    Applying(lib, Effective(n), dev)
  }

  /** The part of fillRuntimeSpec that fills the overlay table. */
  method FillOverlay(lib: Strings, n: Nat, dev: string) returns (table: seq<NatRule>)
    ensures table == Overlay(lib, n, dev)
  {
    table := [];
    if n.on {
      for i := 0 to |n.rules|
        invariant table == Applying(lib, EnabledNat(n.rules[..i]), dev)
      {
        assert n.rules[..i + 1][..i] == n.rules[..i];
        var r := n.rules[i];
        ApplyingConcat(lib, EnabledNat(n.rules[..i]), if r.enabled then [r] else [], dev);
        if !r.enabled || !Applies(lib, r, dev) {
          continue;
        }
        table := table + [r];
      }
      assert n.rules[..|n.rules|] == n.rules;
    }
  }

  /** The device a network's overlay table is filled for. */
  function Device(lib: Lib, nets: seq<Network>, i: nat): string
    requires i < |nets|
  {
    Shaping.IfaceOf(lib.strings, ShapingNets(nets), i)
  }

  /** Every network's overlay table holds the rules that were in force under that network. */
  ghost predicate KeepsOverlays(lib: Lib, n: Nat, nets: seq<Network>) {
    forall i :: 0 <= i < |nets| ==>
      Overlay(lib.strings, NatMigrated(n, nets), Device(lib, nets, i)) == Effective(nets[i].translation)
  }

  /** Every rule in force under a network applies to that network's device and to no other's. */
  ghost predicate StayHome(lib: Lib, nets: seq<Network>) {
    forall i, j, r :: 0 <= i < |nets| && 0 <= j < |nets| && r in Effective(nets[i].translation) ==>
      (Applies(lib.strings, r, Device(lib, nets, j)) <==> i == j)
  }

  lemma {:induction false} ApplyingConcat(lib: Strings, a: seq<NatRule>, b: seq<NatRule>, dev: string)
    ensures Applying(lib, a + b, dev) == Applying(lib, a, dev) + Applying(lib, b, dev)
  {
    if b == [] {
      assert a + b == a;
    } else {
      assert (a + b)[..|a + b| - 1] == a + b[..|b| - 1];
      ApplyingConcat(lib, a, b[..|b| - 1], dev);
    }
  }

  lemma {:induction false} ApplyingIs(lib: Strings, rules: seq<NatRule>, dev: string)
    ensures forall r :: r in Applying(lib, rules, dev) <==> r in rules && Applies(lib, r, dev)
    ensures (forall r :: r in rules ==> Applies(lib, r, dev)) ==> Applying(lib, rules, dev) == rules
  {
    if rules != [] {
      var k := |rules| - 1;
      assert rules == rules[..k] + [rules[k]];
      ApplyingIs(lib, rules[..k], dev);
    }
  }

  lemma {:induction false} EnabledIs(rules: seq<NatRule>)
    ensures forall r :: r in EnabledNat(rules) <==> r in rules && r.enabled
  {
    if rules != [] {
      var k := |rules| - 1;
      assert rules == rules[..k] + [rules[k]];
      EnabledIs(rules[..k]);
    }
  }

  /** A rule is in the overlay table of a device exactly when NAT and the rule are on and the rule,
      blanks and case aside, names no interface or that device. */
  lemma OverlayExactly(lib: Strings, n: Nat, dev: string, r: NatRule)
    ensures r in Overlay(lib, n, dev) <==>
            && n.on && r in n.rules && r.enabled
            && (lib.trim(r.match_.iface) == "" || lib.fold(lib.trim(r.match_.iface)) == lib.fold(lib.trim(dev)))
  {
    EnabledIs(n.rules);
    ApplyingIs(lib, Effective(n), dev);
  }

  function Share(lib: Strings, nets: seq<Network>, i: nat, dev: string): seq<NatRule> {
    if i < |nets| then Overlay(lib, nets[i].translation, dev) else []
  }

  /** No network but i has a share in the table of a device. */
  ghost predicate Alone(lib: Strings, nets: seq<Network>, i: nat, dev: string) {
    forall k :: 0 <= k < |nets| && k != i ==> Share(lib, nets, k, dev) == []
  }

  lemma ShareStep(lib: Strings, nets: seq<Network>, i: nat, dev: string)
    requires nets != []
    ensures var k := |nets| - 1;
            && (i != k ==> Share(lib, nets[..k], i, dev) == Share(lib, nets, i, dev))
            && (Alone(lib, nets, i, dev) <==>
                Alone(lib, nets[..k], i, dev) && (k == i || Share(lib, nets, k, dev) == []))
  {
    var k := |nets| - 1;
    assert forall j :: 0 <= j < k ==> Share(lib, nets[..k], j, dev) == Share(lib, nets, j, dev);
  }

  /** The table of a device is network i's share and nothing else, exactly when no other network
      has a share in it. */
  lemma {:induction false} SoleShare(lib: Strings, nets: seq<Network>, i: nat, dev: string)
    ensures var all, own := Applying(lib, AllEffective(nets), dev), Share(lib, nets, i, dev);
            && |own| <= |all|
            && (|own| == |all| ==> Alone(lib, nets, i, dev))
            && (Alone(lib, nets, i, dev) ==> all == own)
  {
    if nets != [] {
      var k := |nets| - 1;
      SoleShare(lib, nets[..k], i, dev);
      ShareStep(lib, nets, i, dev);
      ApplyingConcat(lib, AllEffective(nets[..k]), Effective(nets[k].translation), dev);
      assert Applying(lib, AllEffective(nets), dev) ==
             Applying(lib, AllEffective(nets[..k]), dev) + Share(lib, nets, k, dev);
    }
  }

  lemma NoShare(lib: Strings, nets: seq<Network>, k: nat, dev: string)
    requires k < |nets|
    ensures Share(lib, nets, k, dev) == [] <==>
            forall r :: r in Effective(nets[k].translation) ==> !Applies(lib, r, dev)
  {
    var rules := Effective(nets[k].translation);
    ApplyingIs(lib, rules, dev);
    if Share(lib, nets, k, dev) != [] {
      assert Share(lib, nets, k, dev)[0] in Share(lib, nets, k, dev);
    }
  }

  /** The table of network i is what it was, exactly when all its rules apply there and no rule of
      another network does. */
  lemma TableKept(lib: Lib, n: Nat, nets: seq<Network>, i: nat)
    requires n.rules == [] && i < |nets|
    ensures var dev := Device(lib, nets, i);
            Overlay(lib.strings, NatMigrated(n, nets), dev) == Effective(nets[i].translation) <==>
            forall j, r :: 0 <= j < |nets| && r in Effective(nets[j].translation) ==>
              (Applies(lib.strings, r, dev) <==> i == j)
  {
    var dev, own := Device(lib, nets, i), Effective(nets[i].translation);
    var all := Overlay(lib.strings, NatMigrated(n, nets), dev);
    NatHoistKeepsKernel(n, nets);
    ApplyingIs(lib.strings, AllEffective(nets), dev);
    ApplyingIs(lib.strings, own, dev);
    SoleShare(lib.strings, nets, i, dev);
    forall j | 0 <= j < |nets|
      ensures Share(lib.strings, nets, j, dev) == [] <==>
              forall r :: r in Effective(nets[j].translation) ==> !Applies(lib.strings, r, dev)
    {
      NoShare(lib.strings, nets, j, dev);
    }
    if all == own {
      forall j, r | 0 <= j < |nets| && r in Effective(nets[j].translation)
        ensures Applies(lib.strings, r, dev) <==> i == j
      {
        assert Share(lib.strings, nets, i, dev) == own;
      }
    }
  }

  /** The hoist keeps every overlay table, rule by rule, if and only if every rule in force under a
      network applies to that network's device and to no other's. */
  lemma NatHoistKeepsOverlaysExactly(lib: Lib, n: Nat, nets: seq<Network>)
    requires n.rules == []
    ensures KeepsOverlays(lib, n, nets) <==> StayHome(lib, nets)
  {
    forall i | 0 <= i < |nets|
      ensures var dev := Device(lib, nets, i);
              Overlay(lib.strings, NatMigrated(n, nets), dev) == Effective(nets[i].translation) <==>
              forall j, r :: 0 <= j < |nets| && r in Effective(nets[j].translation) ==>
                (Applies(lib.strings, r, dev) <==> i == j)
    {
      TableKept(lib, n, nets, i);
    }
  }

  // ---------------------------------------------------------------- what changes otherwise

  lemma {:induction false} InForce(nets: seq<Network>, i: nat, r: NatRule)
    requires i < |nets| && r in Effective(nets[i].translation)
    ensures r in AllEffective(nets)
  {
    if i < |nets| - 1 {
      InForce(nets[..|nets| - 1], i, r);
    }
  }

  /** A port-forward names no interface: after the hoist it is in the overlay table of every
      network, whether that network had NAT or not. */
  lemma PortForwardSpreads(lib: Lib, n: Nat, nets: seq<Network>, i: nat, j: nat, r: NatRule)
    requires n.rules == [] && i < |nets| && j < |nets| && r in Effective(nets[i].translation)
    requires Lawful(lib.strings) && r.match_.iface == ""
    ensures r in Overlay(lib.strings, NatMigrated(n, nets), Device(lib, nets, j))
  {
    NatHoistKeepsKernel(n, nets);
    InForce(nets, i, r);
    ApplyingIs(lib.strings, AllEffective(nets), Device(lib, nets, j));
  }

  /** A rule that names an interface other than its network's device leaves that network's overlay
      table, though the kernel still has it. */
  lemma OtherInterfaceIsLost(lib: Lib, n: Nat, nets: seq<Network>, i: nat, r: NatRule)
    requires n.rules == [] && i < |nets| && r in Effective(nets[i].translation)
    requires !Applies(lib.strings, r, Device(lib, nets, i))
    ensures r in Effective(NatMigrated(n, nets))
    ensures r !in Overlay(lib.strings, NatMigrated(n, nets), Device(lib, nets, i))
  {
    NatHoistKeepsKernel(n, nets);
    InForce(nets, i, r);
    ApplyingIs(lib.strings, AllEffective(nets), Device(lib, nets, i));
  }

  /** The device of a node's first network, when it has no name of its own. */
  lemma FirstDevice(lib: Lib, a: Network)
    requires Shaping.Trims(lib.strings) && a.tun == "" && a.id != ""
    ensures Device(lib, [a], 0) == "mesh0"
  {
    assert Shaping.ByID(ShapingNets([a]), ShapingNets([a])[0], 0) == 0;
    assert Decimal(0) == "0";
  }

  /** So it goes for a masquerade out of eth0 under a network on mesh0. */
  lemma MasqueradeIsLost(lib: Lib, n: Nat, a: Network, r: NatRule)
    requires Shaping.Trims(lib.strings) && lib.strings.fold("eth0") != lib.strings.fold("mesh0")
    requires n.rules == [] && a.tun == "" && a.id != ""
    requires r in Effective(a.translation) && r.match_.iface == "eth0"
    ensures r in Effective(NatMigrated(n, [a]))
    ensures r !in Overlay(lib.strings, NatMigrated(n, [a]), Device(lib, [a], 0))
  {
    FirstDevice(lib, a);
    assert Trimmed("eth0") && Trimmed("mesh0");
    OtherInterfaceIsLost(lib, n, [a], 0, r);
  }
}
