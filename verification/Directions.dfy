/** NAT rules with a retired direction: what Validate makes of them, and what the kernel then does. */
module Directions {
  import opened Text
  import opened Validation
  import Loading
  import NatCompile
  import Shaping

  // ---------------------------------------------------------------- what the rules become

  /** The rule was a port-forward by its direction alone: it names the retired direction and a
      target that is neither blank nor masquerade nor already marked as one. */
  predicate Retired(lib: Lib, r: NatRule) {
    var t, mark := lib.strings.trim(r.translate), "port-forward:";
    && lib.strings.fold(r.direction) == lib.strings.fold("underlay2overlay")
    && t != "" && lib.strings.fold(t) != lib.strings.fold("masquerade")
    && !(mark <= lib.lower(t))
  }

  /** The rules Validate finds when it comes to directions: the node's, or else those of the
      networks, of which a network with NAT off gives its own switched off. */
  function Found(c: Config): seq<NatRule> {
    NatMigrated(c.translation, c.nets).rules
  }

  /** `out` is what loading makes of rule r. */
  predicate Loaded(lib: Lib, r: NatRule, out: NatRule) {
    && out.match_ == r.match_ && out.enabled == r.enabled && out.direction == "" && out.scope == ""
    && out.translate == if Retired(lib, r) then "port-forward:" + lib.strings.trim(r.translate) else r.translate
  }

  lemma LoadedOne(lib: Lib, r: NatRule)
    ensures Loaded(lib, r, Directed(lib, r))
  {
  }

  /** Every rule keeps its place, its match and its switch, and has neither direction nor scope left.
      Its translate text is the trimmed target behind the mark when it is a retired port-forward, and
      is as it was otherwise. */
  lemma LoadedDirections(lib: Lib, c: Config, d: Config)
    requires Validated(lib, c) == Some(d)
    ensures |d.translation.rules| == |Found(c)|
    ensures forall i :: 0 <= i < |Found(c)| ==> Loaded(lib, Found(c)[i], d.translation.rules[i])
  {
    Loading.ValidatedParts(lib, c, d);
    forall i | 0 <= i < |Found(c)|
      ensures Loaded(lib, Found(c)[i], d.translation.rules[i])
    {
      LoadedOne(lib, Found(c)[i]);
    }
  }

  // ---------------------------------------------------------------- what the kernel does with them

  /** A rule as the compiler reads it. */
  function AsRule(r: NatRule): NatCompile.Rule {
    var m := r.match_;
    NatCompile.Rule(
      m.source, m.dest, m.sourceNeg, m.destNeg, m.destPort, m.proto, r.translate, m.iface, r.enabled)
  }

  /** The compiler uses the same text library, which finds the mark in any case as lower-casing
      does, and trims all there is to trim. */
  ghost predicate Fits(lib: Lib, n: NatCompile.Lib) {
    && n.strings == lib.strings && Shaping.Trims(lib.strings)
    && (forall s: string :: Trimmed(lib.strings.trim(s)))
    && (forall s: string :: HasPrefix(lib.lower(s), "port-forward:") <==> NatCompile.CutForward(n, s).Some?)
  }

  /** A text names this address and port as a forwarding target. */
  ghost predicate Targets(n: NatCompile.Lib, text: string, ip: NatCompile.Ip, port: nat) {
    exists t: NatCompile.Target ::
      && NatCompile.SplitTarget(n, n.strings.trim(text)) == Ok(t)
      && n.parseAddr(n.strings.trim(t.addr)) == Some(ip) && port == NatCompile.RemapPort(n, t.port)
  }

  /** The rule forwards to this address and port; every other rule of the kind does not compile. */
  ghost predicate CompilesToForward(n: NatCompile.Lib, r: NatCompile.Rule, text: string) {
    match NatCompile.CompileOne(n, r)
    case Some(k) =>
      && k.kind.DNAT? && k.to.Some? && Targets(n, text, k.to.value, k.toPort) && k.inIface == r.iface
      && k.proto == r.proto && k.sourceNeg == r.sourceNeg && k.destNeg == r.destNeg
    case None => forall ip, port :: !Targets(n, text, ip, port)
  }

  lemma MarkedForwards(n: NatCompile.Lib, r: NatCompile.Rule, text: string)
    requires NatCompile.CutForward(n, n.strings.trim(r.translate)) == Some(text)
    ensures CompilesToForward(n, r, text)
  {
  }

  lemma UnmarkedDoesNot(n: NatCompile.Lib, r: NatCompile.Rule)
    requires NatCompile.CutForward(n, n.strings.trim(r.translate)).None?
    ensures NatCompile.CompileOne(n, r).Some? ==> !NatCompile.CompileOne(n, r).value.kind.DNAT?
  {
  }

  lemma MarkIsFound(lib: Lib, n: NatCompile.Lib, mark: string, t: string)
    requires Fits(lib, n) && mark == "port-forward:" && Trimmed(t) && t != ""
    ensures lib.strings.trim(mark + t) == mark + t
    ensures NatCompile.CutForward(n, mark + t) == Some(t)
  {
    var s := mark + t;
    assert s[0] == mark[0] && s[|s| - 1] == t[|t| - 1] && s[..|mark|] == mark && s[|mark|..] == t;
  }

  /** What a rule forwards to, if it does: its target when it is retired, the text behind the mark
      when it has one. */
  function ForwardTarget(lib: Lib, n: NatCompile.Lib, r: NatRule): Option<string> {
    var t := lib.strings.trim(r.translate);
    if Retired(lib, r) then Some(t) else NatCompile.CutForward(n, t)
  }

  /** The kernel forwards for a loaded rule exactly when the rule is retired or marked and names a
      target, and then to that; a rule that is not retired compiles as it did before. */
  lemma DirectionsDecide(lib: Lib, n: NatCompile.Lib, c: Config, d: Config, i: nat)
    requires Validated(lib, c) == Some(d) && i < |Found(c)| && Fits(lib, n)
    ensures i < |d.translation.rules|
    ensures var (r, out) := (Found(c)[i], AsRule(d.translation.rules[i]));
            && (!Retired(lib, r) ==> NatCompile.CompileOne(n, out) == NatCompile.CompileOne(n, AsRule(r)))
            && match ForwardTarget(lib, n, r)
               case Some(text) => CompilesToForward(n, out, text)
               case None =>
                 NatCompile.CompileOne(n, out).Some? ==> !NatCompile.CompileOne(n, out).value.kind.DNAT?
  {
    LoadedDirections(lib, c, d);
    var r, out := Found(c)[i], d.translation.rules[i];
    assert Loaded(lib, r, out);
    var t := lib.strings.trim(r.translate);
    if Retired(lib, r) {
      MarkIsFound(lib, n, "port-forward:", t);
      MarkedForwards(n, AsRule(out), t);
    } else {
      assert AsRule(out) == AsRule(r);
      match NatCompile.CutForward(n, t) {
        case Some(text) => MarkedForwards(n, AsRule(out), text);
        case None => UnmarkedDoesNot(n, AsRule(out));
      }
    }
  }

  /** A literal address with the retired direction: the text alone would be a static SNAT, and the
      loaded rule is the port-forward to it. */
  lemma RetiredAddressForwards(lib: Lib, n: NatCompile.Lib, c: Config, d: Config, i: nat, ip: NatCompile.Ip)
    requires Validated(lib, c) == Some(d) && i < |Found(c)| && Fits(lib, n) && NatCompile.Sound(n)
    requires Found(c)[i].translate == n.text(ip) && Retired(lib, Found(c)[i])
    ensures i < |d.translation.rules|
    ensures var (before, after) := (NatCompile.CompileOne(n, AsRule(Found(c)[i])),
                                    NatCompile.CompileOne(n, AsRule(d.translation.rules[i])));
            && before.Some? && before.value.kind.SNAT? && before.value.to == Some(ip)
            && after.Some? && after.value.kind.DNAT? && after.value.to == Some(ip) && after.value.toPort == 0
  {
    var t := n.text(ip);
    assert n.strings.trim(t) == t;
    NatCompile.TargetRoundTrip(n, ip, 0);
    DirectionsDecide(lib, n, c, d, i);
    assert Targets(n, t, ip, 0);
  }

  lemma MarkInAnyCase(s: string, mark: string)
    requires mark == "port-forward:"
    ensures mark <= Lower(s) <==> |s| >= |mark| && Lower(s[..|mark|]) == Lower(mark)
  {
    assert Lower(mark) == mark;
    assert |s| >= |mark| ==> Lower(s)[..|mark|] == Lower(s[..|mark|]);
  }

  /** Such libraries exist. */
  lemma SuchLibraries() returns (lib: Lib, n: NatCompile.Lib)
    ensures Fits(lib, n) && NatCompile.Sound(n)
  {
    var strings := Strings(TrimSpace, Lower);
    lib := Lib(strings, Lower, _ => true, _ => true, _ => true, _ => true, _ => true);
    n := NatCompile.Lib(strings, NatCompile.NumberAddr, NatCompile.NumberPrefix, NatCompile.NumberText);
    NatCompile.SomeLibraryIsSound(n);
    TrimSpaceLawful(strings);
    forall s: string
      ensures HasPrefix(lib.lower(s), "port-forward:") <==> NatCompile.CutForward(n, s).Some?
    {
      MarkInAnyCase(s, "port-forward:");
    }
  }
}
