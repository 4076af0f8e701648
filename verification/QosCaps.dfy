/** The caps QoS asks for. */
module QosCaps {
  import opened Text
  import opened Validation
  import Shaping

  lemma CapOneStored(lib: Lib, list: seq<Shaping.Entry>, iface: string, f: string)
    requires lib.strings.trim(iface) == iface != ""
    ensures Shaping.Stored(CapOne(lib, list, iface), f) ==
            if f == iface then Capped(Shaping.Stored(list, f)) else Shaping.Stored(list, f)
  {
    var k := Shaping.Find(list, iface);
    if k < |list| {
      var after := list[k := list[k].(rate := Capped(list[k].rate))];
      assert forall j :: 0 <= j < |list| ==> after[j].iface == list[j].iface;
      assert Shaping.Find(after, f) == Shaping.Find(list, f);
    } else {
      Shaping.FindAppend(list, Shaping.Entry(iface, Capped(Shaping.NONE)), f);
    }
  }

  /** f is the interface of one of the first n networks. */
  ghost predicate OnMesh(lib: Lib, nets: seq<Shaping.Network>, n: nat, f: string)
    requires n <= |nets|
  {
    exists i :: 0 <= i < n && Shaping.IfaceAt(lib.strings, nets, i) == f
  }

  lemma OnMeshStep(lib: Lib, nets: seq<Shaping.Network>, n: nat, f: string)
    requires n < |nets|
    ensures OnMesh(lib, nets, n + 1, f) <==> OnMesh(lib, nets, n, f) || Shaping.IfaceAt(lib.strings, nets, n) == f
  {
  }

  /** Switching QoS on caps the interfaces of the node's networks and no other: their rate is
      switched on, and set only where no upstream rate was. */
  lemma {:induction false} CapsMeshOnly(
    lib: Lib, list: seq<Shaping.Entry>, nets: seq<Shaping.Network>, n: nat, f: string)
    requires Shaping.Trims(lib.strings) && n <= |nets|
    ensures Shaping.Stored(CapAll(lib, list, nets, n), f) ==
            if OnMesh(lib, nets, n, f) then Capped(Shaping.Stored(list, f)) else Shaping.Stored(list, f)
  {
    if n > 0 {
      CapsMeshOnly(lib, list, nets, n - 1, f);
      OnMeshStep(lib, nets, n - 1, f);
      Shaping.IfaceIsClean(lib.strings, nets, n - 1);
      CapOneStored(lib, CapAll(lib, list, nets, n - 1), Shaping.IfaceAt(lib.strings, nets, n - 1), f);
    }
  }
}
