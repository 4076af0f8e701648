/** Validate as the program runs it: one step after another, each updating the configuration in
    place. */
module ValidateRun {
  import opened Text
  import opened Validation
  import Firewall
  import FirewallHoist
  import Shaping

  /** trimStrings */
  method TrimStrings(lib: Lib, texts: seq<string>) returns (out: seq<string>)
    ensures out == TrimAll(lib, texts)
  {
    out := [];
    for i := 0 to |texts|
      invariant out == TrimAll(lib, texts[..i])
    {
      assert texts[..i + 1][..i] == texts[..i];
      var s := lib.strings.trim(texts[i]);
      if s != "" {
        out := out + [s];
      }
    }
    assert texts[..|texts|] == texts;
  }

  /** What one step, or several in a row, take out of a network. */
  datatype Part = Timeout | NatPart | QosPart | Lists | RatePart | FirewallPart | Sections | Everything

  function Without(n: Network, p: Part): Network {
    match p
    case Timeout => n.(translation := n.translation.(stateTimeout := 0))
    case NatPart => n.(translation := NO_NAT)
    case QosPart => n.(qos := NO_QOS)
    case Lists => n.(translation := NO_NAT, qos := NO_QOS)
    case RatePart => n.(rate := None)
    case FirewallPart => n.(firewall := NO_FIREWALL)
    case Sections => n.(rate := None, firewall := NO_FIREWALL)
    case Everything => Emptied(n)
  }

  function AllWithout(nets: seq<Network>, p: Part): (out: seq<Network>)
    ensures |out| == |nets| && forall i :: 0 <= i < |nets| ==> out[i] == Without(nets[i], p)
  {
    seq(|nets|, i requires 0 <= i < |nets| => Without(nets[i], p))
  }

  lemma WithoutBoth(nets: seq<Network>)
    ensures AllWithout(AllWithout(nets, Timeout), NatPart) == AllWithout(nets, NatPart)
    ensures AllWithout(AllWithout(nets, NatPart), QosPart) == AllWithout(nets, Lists)
    ensures AllWithout(AllWithout(nets, RatePart), FirewallPart) == AllWithout(nets, Sections)
    ensures AllWithout(AllWithout(nets, Lists), Sections) == AllEmptied(nets)
  {
  }

  /** The loop that clears one part of every network. */
  method ClearNets(nets: seq<Network>, p: Part) returns (out: seq<Network>)
    ensures out == AllWithout(nets, p)
  {
    out := nets;
    for i := 0 to |nets|
      invariant |out| == |nets|
      invariant forall j :: 0 <= j < |nets| ==> out[j] == if j < i then Without(nets[j], p) else nets[j]
    {
      out := out[i := Without(out[i], p)];
    }
  }

  class ConfigFile {
    const lib: Lib
    /** Only the fields that Validate reads and never writes are taken from here. */
    const fixed: Config
    var dhcp: Dhcp
    var snmp: Snmp
    var natTimeout: int
    var translation: Nat
    var qos: Qos
    var rate: Shaping.Throttle
    var shaping: seq<Shaping.Entry>
    var firewallOn: bool
    var rulebase: Firewall.Rulebase
    var nets: seq<Network>

    ghost function Value(): Config
      reads this
    {
      fixed.(dhcp := dhcp, snmp := snmp, natTimeout := natTimeout, translation := translation, qos := qos,
             rate := rate, shaping := shaping, firewallOn := firewallOn, rulebase := rulebase, nets := nets)
    }

    constructor (lib: Lib, c: Config)
      ensures Value() == c && this.lib == lib
    {
      this.lib, fixed := lib, c;
      dhcp, snmp, natTimeout, translation, qos := c.dhcp, c.snmp, c.natTimeout, c.translation, c.qos;
      rate, shaping, firewallOn, rulebase, nets := c.rate, c.shaping, c.firewallOn, c.rulebase, c.nets;
    }

    method MigrateServerMode()
      modifies `dhcp
      ensures dhcp == if old(dhcp).mode == "server" then old(dhcp).(mode := "", retiredServer := true) else old(dhcp)
    {
      if dhcp.mode == "server" {
        dhcp := dhcp.(mode := "", retiredServer := true);
      }
    }

    method MigrateRelay()
      modifies `dhcp
      ensures dhcp == old(dhcp).(relay := DhcpMigrated(lib, old(dhcp)).relay)
    {
      var r := dhcp.relay;
      var links := r.links;
      if r.links == [] {
        var names := TrimStrings(lib, r.oldIfaces);
        ghost var all := LinksFor(names, TrimAll(lib, r.oldServers), r.oldMaxHops);
        for i := 0 to |names|
          invariant dhcp == old(dhcp) && links == all[..i]
        {
          var servers := TrimStrings(lib, r.oldServers);
          links := links + [RelayLink(names[i], servers, r.oldMaxHops, false)];
        }
        assert links == all;
      }
      dhcp := dhcp.(relay := Relay(links, [], [], 0));
    }

    method MigrateCommunity()
      modifies `snmp
      ensures snmp == SnmpMigrated(old(snmp))
    {
      if |snmp.communities| == 0 && snmp.community != "" {
        snmp := snmp.(communities := [Community(snmp.community, false)]);
      }
      snmp := snmp.(community := "");
    }

    /** The largest retired per-network timeout becomes the node's, unless it has one. */
    method MigrateTimeout()
      modifies `natTimeout, `nets
      ensures natTimeout == TimeoutMigrated(old(natTimeout), old(nets)) && nets == AllWithout(old(nets), Timeout)
    {
      if natTimeout == 0 {
        for i := 0 to |nets|
          invariant nets == old(nets) && natTimeout == Largest(nets[..i], 0)
        {
          assert nets[..i + 1][..i] == nets[..i];
          if nets[i].translation.stateTimeout > natTimeout {
            natTimeout := nets[i].translation.stateTimeout;
          }
        }
        assert nets[..|nets|] == nets;
      }
      nets := ClearNets(nets, Timeout);
    }

    method MigrateNAT()
      modifies `translation, `nets
      ensures translation == NatMigrated(old(translation), old(nets)) && nets == AllWithout(old(nets), NatPart)
    {
      if |translation.rules| == 0 {
        var on, rules := translation.on, translation.rules;
        for i := 0 to |nets|
          invariant on == (translation.on || AnyNatOn(nets[..i])) && rules == HoistedNat(nets[..i])
        {
          assert nets[..i + 1][..i] == nets[..i];
          var n := nets[i].translation;
          ghost var lifted, before := LiftedNat(n), rules;
          for k := 0 to |n.rules|
            invariant rules == before + lifted[..k]
          {
            var r := n.rules[k];
            if !n.on {
              r := r.(enabled := false);
            }
            assert lifted[..k + 1] == lifted[..k] + [r];
            rules := rules + [r];
          }
          assert lifted[..|lifted|] == lifted;
          if n.on {
            on := true;
          }
        }
        assert nets[..|nets|] == nets;
        translation := Nat(on, rules, translation.stateTimeout);
      }
      nets := ClearNets(nets, NatPart);
    }

    method MigrateQoS()
      modifies `qos, `nets
      ensures qos == QosMigrated(lib, old(qos), old(nets)) && nets == AllWithout(old(nets), QosPart)
    {
      if |qos.rules| == 0 {
        var geom, on, rules := -1, qos.on, qos.rules;
        for i := 0 to |nets|
          invariant on == (qos.on || AnyQosOn(nets[..i])) && rules == HoistedQos(lib, nets[..i])
          invariant geom == if Geometry(nets) < i then Geometry(nets) else -1
        {
          assert nets[..i + 1][..i] == nets[..i];
          var n := nets[i];
          ghost var lifted, before := LiftedQos(lib, n), rules;
          for k := 0 to |n.qos.rules|
            invariant rules == before + lifted[..k]
          {
            var r := n.qos.rules[k].(scope := ScopeName(lib, n));
            if !n.qos.on {
              r := r.(disabled := true);
            }
            assert lifted[..k + 1] == lifted[..k] + [r];
            rules := rules + [r];
          }
          assert lifted[..|lifted|] == lifted;
          if n.qos.on {
            on := true;
            if geom < 0 {
              geom := i;
            }
          }
          if geom < 0 && |n.qos.rules| > 0 {
            geom := i;
          }
        }
        assert nets[..|nets|] == nets;
        qos := qos.(on := on, rules := rules);
        if geom >= 0 {
          var shape := nets[geom].qos;
          qos := qos.(classes := shape.classes, defaultClass := shape.defaultClass, classDSCP := shape.classDSCP);
        }
      }
      nets := ClearNets(nets, QosPart);
    }

    method MigrateShaping()
      modifies `rate, `shaping, `nets
      ensures rate == old(ShapingMigrated(lib, Value()).rate) && shaping == old(ShapingMigrated(lib, Value()).list)
      ensures nets == AllWithout(old(nets), RatePart)
    {
      var part := new Shaping.ShapingConfig(
        lib.strings, Shaping.Node(rate, ShapingNets(nets), shaping, fixed.shapingDisabled));
      part.MigrateShaping();
      rate, shaping := part.rate, part.list;
      nets := ClearNets(nets, RatePart);
    }

    method MigrateFirewall()
      modifies `firewallOn, `rulebase, `nets
      ensures firewallOn == old(FirewallMigrated(lib, Value()).on)
      ensures rulebase == old(FirewallMigrated(lib, Value()).base)
      ensures nets == AllWithout(old(nets), FirewallPart)
    {
      var part := new FirewallHoist.FirewallConfig(
        lib.strings, FirewallHoist.Node(firewallOn, rulebase, FirewallNets(nets)));
      part.MigrateFirewall();
      firewallOn, rulebase := part.on, Firewall.Rulebase(part.node.rules, part.node.nextID);
      nets := ClearNets(nets, FirewallPart);
    }

    /** The hoists that read per-network NAT and QoS. */
    method MigrateLists()
      modifies `natTimeout, `translation, `qos, `nets
      ensures natTimeout == TimeoutMigrated(old(natTimeout), old(nets))
      ensures translation == NatMigrated(old(translation), old(nets)) && qos == QosMigrated(lib, old(qos), old(nets))
      ensures nets == AllWithout(old(nets), Lists)
    {
      ListsInTurn(lib, translation, qos, nets);
      MigrateTimeout();
      MigrateNAT();
      MigrateQoS();
    }

    /** The hoists that read per-network rates and rulebases. */
    method MigrateSections()
      modifies `rate, `shaping, `firewallOn, `rulebase, `nets
      ensures rate == old(ShapingMigrated(lib, Value()).rate) && shaping == old(ShapingMigrated(lib, Value()).list)
      ensures firewallOn == old(FirewallMigrated(lib, Value()).on)
      ensures rulebase == old(FirewallMigrated(lib, Value()).base)
      ensures nets == AllWithout(old(nets), Sections)
    {
      WithoutBoth(nets);
      SameFirewalls(nets);
      MigrateShaping();
      MigrateFirewall();
    }

    /** Everything up to the firewall's migration, in the program's order. */
    method Migrate()
      modifies this
      ensures Value() == Migrated(lib, old(Value()))
    {
      WithoutBoth(nets);
      SameSections(nets);
      MigrateServerMode();
      MigrateRelay();
      MigrateCommunity();
      MigrateLists();
      MigrateSections();
    }

    method DirectRules()
      modifies `translation
      ensures translation == old(translation).(rules := AllDirected(lib, old(translation).rules))
    {
      var rules := translation.rules;
      for j := 0 to |rules|
        invariant |rules| == |translation.rules|
        invariant forall i :: 0 <= i < |rules| ==>
                    rules[i] == if i < j then Directed(lib, translation.rules[i]) else translation.rules[i]
      {
        var r := rules[j];
        if lib.strings.fold(r.direction) == lib.strings.fold("underlay2overlay") {
          var t := lib.strings.trim(r.translate);
          if t != "" && lib.strings.fold(t) != lib.strings.fold("masquerade")
             && !HasPrefix(lib.lower(t), "port-forward:") {
            r := r.(translate := "port-forward:" + t);
          }
        }
        rules := rules[j := r.(direction := "", scope := "")];
      }
      assert rules == AllDirected(lib, translation.rules);
      translation := translation.(rules := rules);
    }

    /** One turn of the network loop, the duplicate check aside. */
    method CheckNetwork(net: Network) returns (ok: bool, n: Network)
      ensures ok <==> NetOK(lib, net)
      ensures ok ==> n == Defaulted(net)
    {
      n := net;
      if n.id == "" {
        return false, n;
      }
      if n.mtu == 0 {
        n := n.(mtu := DEFAULT_MTU);
      }
      if n.mtu < 576 || n.mtu > 65535 {
        return false, n;
      }
      if (n.subnet4 != "" && !lib.prefixOK(n.subnet4)) || (n.subnet6 != "" && !lib.prefixOK(n.subnet6)) {
        return false, n;
      }
      if n.subnet4 == "" && n.subnet6 == "" && n.seeds == 0 && n.cached == 0 {
        return false, n;
      }
      if !RejectsOK(lib, n.rejects) || !lib.netRestOK(n.rest) {
        return false, n;
      }
      if n.rejects.None? {
        n := n.(rejects := Some(DEFAULT_REJECTS));
      }
      ok := true;
    }

    /** The network loop: refuses, or fills in the defaults. */
    method CheckNetworks() returns (ok: bool)
      modifies `nets
      ensures ok <==> NetsOK(lib, old(nets))
      ensures ok ==> nets == AllDefaulted(old(nets))
    {
      var seen: set<string> := {};
      ghost var start := nets;
      for i := 0 to |nets|
        invariant |nets| == |start| && NetsOK(lib, start[..i])
        invariant forall id :: id in seen <==> exists k :: 0 <= k < i && start[k].id == id
        invariant nets[..i] == AllDefaulted(start)[..i] && nets[i..] == start[i..]
      {
        NetsOKStep(lib, start, i);
        assert nets[i] == nets[i..][0];
        if nets[i].id in seen {
          return false;
        }
        seen := seen + {nets[i].id};
        var fine, n := CheckNetwork(nets[i]);
        if !fine {
          return false;
        }
        nets := nets[i := n];
      }
      assert start[..|start|] == start;
      ok := true;
    }

    method CapInterface(iface: string)
      modifies `shaping
      ensures shaping == CapOne(lib, old(shaping), iface)
    {
      var f := lib.strings.trim(iface);
      var k := Shaping.Find(shaping, f);
      if f == "" || k == |shaping| {
        k := |shaping|;
        shaping := shaping + [Shaping.Entry(iface, Shaping.NONE)];
      }
      var t := shaping[k].rate.(enabled := true);
      if t.up <= 0 {
        t := t.(up := DEFAULT_UP);
      }
      shaping := shaping[k := shaping[k].(rate := t)];
    }

    /** Each mesh interface gets an entry that is on and has an upstream rate. */
    method CapInterfaces()
      modifies `shaping
      ensures shaping == CapAll(lib, old(shaping), ShapingNets(nets), |nets|)
    {
      var part := ShapingNets(nets);
      for i := 0 to |nets|
        invariant shaping == CapAll(lib, old(shaping), part, i)
      {
        CapInterface(Shaping.IfaceAt(lib.strings, part, i));
      }
    }

    /** checkQoSScope */
    method CheckQoSScope(scope: string) returns (ok: bool)
      ensures ok <==> Firewall.ScopeOK(Firewall.Scopes(lib.strings, NamesOf(nets)), scope)
    {
      var s := lib.strings.trim(scope);
      if s == "" {
        return true;
      }
      for i := 0 to |nets|
        invariant forall j :: 0 <= j < i ==> !Firewall.ScopeNames(lib.strings, NamesOf(nets)[j], s)
      {
        if Firewall.ScopeNames(lib.strings, NameOf(nets[i]), s) {
          return true;
        }
      }
      ok := false;
    }

    method CheckScopes() returns (ok: bool)
      ensures ok <==> ScopesOK(lib, nets, qos.rules)
    {
      for i := 0 to |qos.rules|
        invariant forall k :: 0 <= k < i ==>
                    Firewall.ScopeOK(Firewall.Scopes(lib.strings, NamesOf(nets)), qos.rules[k].scope)
      {
        var known := CheckQoSScope(qos.rules[i].scope);
        if !known {
          return false;
        }
      }
      ok := true;
    }

    method ShapeQoS()
      modifies `qos
      ensures qos == Shaped(old(qos))
    {
      if qos.classes < 5 {
        qos := qos.(classes := 5);
      }
      if qos.defaultClass <= 0 || qos.defaultClass >= qos.classes {
        qos := qos.(defaultClass := 3);
      }
    }

    /** What QoS needs when it is on: caps on the mesh interfaces, a geometry, known scopes. */
    method PrepareQoS() returns (ok: bool)
      requires qos.on
      modifies `shaping, `qos
      ensures shaping == CapAll(lib, old(shaping), ShapingNets(nets), |nets|) && qos == Shaped(old(qos))
      ensures ok <==> ScopesOK(lib, nets, old(qos).rules)
    {
      CapInterfaces();
      ShapeQoS();
      ok := CheckScopes();
    }

    /** Everything after the migrations. */
    method Finish() returns (ok: bool)
      modifies this
      ensures ok <==> NetsOK(lib, old(nets)) && (old(qos).on ==> ScopesOK(lib, old(nets), old(qos).rules))
      ensures ok ==> Value() == Finished(lib, old(Value()))
    {
      SameIfaces(nets);
      SameNames(nets);
      DirectRules();
      ok := CheckNetworks();
      if ok && qos.on {
        ok := PrepareQoS();
      }
    }

    /** Validate: refuses exactly what Validated refuses, and leaves what it says otherwise. */
    method Validate() returns (ok: bool)
      modifies this
      ensures ok <==> Validated(lib, old(Value())).Some?
      ensures ok ==> Validated(lib, old(Value())) == Some(Value())
    {
      ok := ReadOnlyOK(lib, fixed);
      if ok {
        Migrate();
        ok := DhcpOK(lib, dhcp) && 0 <= natTimeout <= 86400;
        if ok {
          ok := Finish();
        }
      }
    }
  }

  lemma SameFirewalls(nets: seq<Network>)
    ensures FirewallNets(AllWithout(nets, RatePart)) == FirewallNets(nets)
  {
  }

  lemma SameSections(nets: seq<Network>)
    ensures ShapingNets(AllWithout(nets, Lists)) == ShapingNets(nets)
    ensures FirewallNets(AllWithout(nets, Lists)) == FirewallNets(nets)
  {
  }

  lemma NetsOKStep(lib: Lib, nets: seq<Network>, i: nat)
    requires i < |nets|
    ensures NetsOK(lib, nets[..i + 1]) <==>
            NetsOK(lib, nets[..i]) && NetOK(lib, nets[i]) && forall k :: 0 <= k < i ==> nets[k].id != nets[i].id
    ensures NetsOK(lib, nets) ==> NetsOK(lib, nets[..i + 1])
  {
    var more := nets[..i + 1];
    assert forall k :: 0 <= k <= i ==> more[k] == nets[k];
    assert forall k :: 0 <= k < i ==> nets[..i][k] == nets[k];
  }

  lemma ListsInTurn(lib: Lib, n: Nat, q: Qos, nets: seq<Network>)
    ensures var late := AllWithout(AllWithout(nets, Timeout), NatPart);
            && NatMigrated(n, AllWithout(nets, Timeout)) == NatMigrated(n, nets)
            && QosMigrated(lib, q, late) == QosMigrated(lib, q, nets)
            && AllWithout(late, QosPart) == AllWithout(nets, Lists)
  {
    WithoutBoth(nets);
    SameNatHoist(nets);
    SameQosHoist(lib, nets);
  }

  lemma {:induction false} SameNatHoist(nets: seq<Network>)
    ensures var after := AllWithout(nets, Timeout);
            HoistedNat(after) == HoistedNat(nets) && AnyNatOn(after) == AnyNatOn(nets)
  {
    if nets != [] {
      var k, after := |nets| - 1, AllWithout(nets, Timeout);
      assert LiftedNat(after[k].translation) == LiftedNat(nets[k].translation);
      assert after[..k] == AllWithout(nets[..k], Timeout);
      SameNatHoist(nets[..k]);
    }
  }

  lemma SameQosLift(lib: Lib, n: Network)
    ensures LiftedQos(lib, Without(n, NatPart)) == LiftedQos(lib, n) && Without(n, NatPart).qos == n.qos
  {
  }

  lemma {:induction false} SameQosHoist(lib: Lib, nets: seq<Network>)
    ensures var after := AllWithout(nets, NatPart);
            && HoistedQos(lib, after) == HoistedQos(lib, nets) && AnyQosOn(after) == AnyQosOn(nets)
            && Geometry(after) == Geometry(nets)
  {
    SameGeometry(nets);
    if nets != [] {
      var k, after := |nets| - 1, AllWithout(nets, NatPart);
      SameQosLift(lib, nets[k]);
      assert after[..k] == AllWithout(nets[..k], NatPart);
      SameQosHoist(lib, nets[..k]);
    }
  }

  lemma SameGeometry(nets: seq<Network>)
    ensures Geometry(AllWithout(nets, NatPart)) == Geometry(nets)
  {
    assert forall i :: 0 <= i < |nets| ==> AllWithout(nets, NatPart)[i].qos == nets[i].qos;
  }
}
