/** Which NAT entries the editor accepts, in terms of the fields submitted, and what each compiles
    to. */
module NatAccept {
  import opened Text
  import opened NatCompile

  // ---------------------------------------------------------------- what makes an entry acceptable

  /** A match field: blank or "any", or an address or prefix that is not IPv4-mapped. */
  ghost predicate MatchOK(lib: Lib, text: string) {
    exists p :: Denotes(lib, text, p)
  }

  /** The family a match field names, none when it matches anything. */
  ghost predicate OfFamily(lib: Lib, text: string, v6: bool) {
    forall p: Prefix :: Denotes(lib, text, Some(p)) ==> Is6(p.addr) == v6
  }

  ghost predicate Names(lib: Lib, text: string) {
    exists p: Prefix :: Denotes(lib, text, Some(p))
  }

  predicate PortNumber(text: string, p: int) {
    Atoi(text) == Some(p) && 1 <= p <= 65535
  }

  predicate PortRangeIs(a: string, b: string, lo: int, hi: int) {
    '-' !in a && lo <= hi && PortNumber(a, lo) && PortNumber(b, hi)
  }

  /** A port text: blank, one number, or two with a dash between, the second not smaller; zero for
      blank. */
  ghost predicate PortsAre(s: string, lo: int, hi: int) {
    || (s == "" && lo == hi == 0)
    || ('-' !in s && lo == hi && PortNumber(s, lo))
    || (exists a, b :: s == a + "-" + b && PortRangeIs(a, b, lo, hi))
  }

  ghost predicate ProtocolOK(lib: Lib, e: Entry) {
    var proto := Lower(lib.strings.trim(e.proto));
    (proto == "" && lib.strings.trim(e.destPort) == "") || proto == "tcp" || proto == "udp"
  }

  /** What every entry needs: match fields, ports and protocol that can be read, and no negation of
      a field that matches anything. */
  ghost predicate FieldsOK(lib: Lib, e: Entry) {
    && MatchOK(lib, e.source) && MatchOK(lib, e.dest)
    && (exists lo, hi :: PortsAre(lib.strings.trim(e.destPort), lo, hi))
    && ProtocolOK(lib, e)
    && (e.sourceNeg ==> Names(lib, e.source)) && (e.destNeg ==> Names(lib, e.dest))
  }

  /** A target of one family with the match fields, not IPv4-mapped. */
  ghost predicate TargetOK(lib: Lib, e: Entry, ip: Ip) {
    !ip.family.V4In6? && OfFamily(lib, e.source, Is6(ip)) && OfFamily(lib, e.dest, Is6(ip))
  }

  /** A port-forward: to an address, or to an address and port when a single port is matched. */
  ghost predicate ForwardOK(lib: Lib, e: Entry) {
    exists ip, port :: Forwards(lib, e.translate, ip, port) && TargetOK(lib, e, ip) &&
      (port != 0 ==> exists p :: p != 0 && PortsAre(lib.strings.trim(e.destPort), p, p))
  }

  /** A masquerade: out of an interface, for sources of one family, of which any destination is,
      whatever the port. */
  ghost predicate MasqueradeOK(lib: Lib, e: Entry) {
    && lib.strings.trim(e.iface) != "" && lib.strings.trim(e.destPort) == ""
    && Names(lib, e.source)
    && exists v6 :: OfFamily(lib, e.source, v6) && OfFamily(lib, e.dest, v6)
  }

  /** A fixed source address. */
  ghost predicate SnatOK(lib: Lib, e: Entry) {
    && lib.strings.trim(e.destPort) == ""
    && exists ip :: lib.parseAddr(lib.strings.trim(e.translate)) == Some(ip) && TargetOK(lib, e, ip)
  }

  ghost predicate Acceptable(lib: Lib, e: Entry) {
    var t := lib.strings.trim(e.translate);
    && FieldsOK(lib, e)
    && if CutForward(lib, t).Some? then ForwardOK(lib, e)
       else if t == "" || SameFold(lib, t, "masquerade") then MasqueradeOK(lib, e)
       else SnatOK(lib, e)
  }

  // ---------------------------------------------------------------- fields

  lemma DenotesOne(lib: Lib, text: string, p: Option<Prefix>, q: Option<Prefix>)
    requires Sound(lib) && Denotes(lib, text, p) && Denotes(lib, text, q)
    ensures p == q
  {
  }

  /** The validator reads a match field exactly when it denotes something, and sees its family. */
  lemma FieldExactly(lib: Lib, text: string)
    requires Sound(lib)
    ensures ValidCIDR(lib, text).Ok? <==> MatchOK(lib, text)
    ensures ValidCIDR(lib, text).Ok? ==>
              var s := ValidCIDR(lib, text).value;
              && (s != "" <==> Names(lib, text))
              && (FieldFamily(lib, s).Some? <==> s != "")
              && forall v6 :: Agree(FieldFamily(lib, s), Some(v6)) <==> OfFamily(lib, text, v6)
  {
    var s := lib.strings.trim(text);
    if ValidCIDR(lib, text).Ok? {
      FieldReadsBack(lib, text);
      var p := ParsePfx(lib, ValidCIDR(lib, text).value);
      assert Denotes(lib, text, p);
      forall q | Denotes(lib, text, q)
        ensures q == p
      {
        DenotesOne(lib, text, p, q);
      }
    }
    if p :| Denotes(lib, text, p) {
      assert ValidCIDR(lib, text).Ok?;
    }
  }

  lemma CutAtDash(a: string, b: string)
    requires '-' !in a
    ensures IndexOf(a + "-" + b, '-') == |a|
    ensures (a + "-" + b)[..|a|] == a && (a + "-" + b)[|a| + 1..] == b
  {
    IndexOfAt(a, '-', b);
    assert a + "-" + b == a + ['-'] + b;
  }

  lemma OnePort(lib: Lib, text: string, lo: int, hi: int)
    requires lib.strings.trim(text) == text && '-' !in text
    ensures PortsAre(text, lo, hi) <==>
            PortSpec(lib, text).Ok? && PortSpec(lib, text).value.0 == lo && PortSpec(lib, text).value.1 == hi
  {
    forall a, b
      ensures text != a + "-" + b
    {
      assert (a + "-" + b)[|a|] == '-';
    }
  }

  lemma RangeIsItsCut(text: string, a: string, b: string, lo: int, hi: int)
    requires text == a + "-" + b && '-' !in a
    ensures PortsAre(text, lo, hi) <==> PortRangeIs(a, b, lo, hi)
  {
    assert text[|a|] == '-';
    if PortsAre(text, lo, hi) {
      var c, d :| text == c + "-" + d && PortRangeIs(c, d, lo, hi);
      CutAtDash(a, b);
      CutAtDash(c, d);
      assert c == a && d == b;
    }
  }

  lemma PortRangeText(lib: Lib, text: string, a: string, b: string, lo: int, hi: int)
    requires lib.strings.trim(text) == text && text == a + "-" + b && '-' !in a
    ensures PortsAre(text, lo, hi) <==>
            PortSpec(lib, text).Ok? && PortSpec(lib, text).value.0 == lo && PortSpec(lib, text).value.1 == hi
  {
    RangeIsItsCut(text, a, b, lo, hi);
    CutAtDash(a, b);
    assert text[|a|] == '-';
  }

  /** The validator reads a port text exactly when it is one of the three forms, and gets its
      bounds. */
  lemma PortsExactly(lib: Lib, text: string, lo: int, hi: int)
    requires lib.strings.trim(text) == text
    ensures PortsAre(text, lo, hi) <==>
            PortSpec(lib, text).Ok? && PortSpec(lib, text).value.0 == lo && PortSpec(lib, text).value.1 == hi
  {
    var dash := IndexOf(text, '-');
    if dash < |text| {
      assert text == text[..dash] + "-" + text[dash + 1..];
      PortRangeText(lib, text, text[..dash], text[dash + 1..], lo, hi);
    } else {
      OnePort(lib, text, lo, hi);
    }
  }

  /** Families agree when both fields may be of the family that either of them, or the target,
      has. */
  lemma FamiliesAgree(lib: Lib, e: Entry, target: string)
    requires Sound(lib) && ValidCIDR(lib, e.source).Ok? && ValidCIDR(lib, e.dest).Ok?
    ensures OneFamily(lib, ValidCIDR(lib, e.source).value, ValidCIDR(lib, e.dest).value, target) <==>
            match FieldFamily(lib, target)
            case Some(v6) => OfFamily(lib, e.source, v6) && OfFamily(lib, e.dest, v6)
            case None => exists v6 :: OfFamily(lib, e.source, v6) && OfFamily(lib, e.dest, v6)
  {
    FieldExactly(lib, e.source);
    FieldExactly(lib, e.dest);
    var a, b := FieldFamily(lib, ValidCIDR(lib, e.source).value), FieldFamily(lib, ValidCIDR(lib, e.dest).value);
    if FieldFamily(lib, target).None? && Agree(a, b) {
      var v6 := if a.Some? then a.value else if b.Some? then b.value else false;
      assert OfFamily(lib, e.source, v6) && OfFamily(lib, e.dest, v6);
    }
  }

  // ---------------------------------------------------------------- acceptance

  /** The bounds of the port text, zero when it cannot be read. */
  function Bounds(lib: Lib, e: Entry): (nat, nat) {
    var ports := PortSpec(lib, lib.strings.trim(e.destPort));
    if ports.Ok? then ports.value else (0, 0)
  }

  function Field(lib: Lib, text: string): string {
    if ValidCIDR(lib, text).Ok? then ValidCIDR(lib, text).value else ""
  }

  lemma PortsRead(lib: Lib, e: Entry)
    requires Sound(lib)
    ensures var (s, ports) := (lib.strings.trim(e.destPort), Bounds(lib, e));
            && (PortSpec(lib, s).Ok? <==> exists lo, hi :: PortsAre(s, lo, hi))
            && (PortSpec(lib, s).Ok? ==>
                  (ports.0 != 0 && ports.0 == ports.1 <==> exists p :: p != 0 && PortsAre(s, p, p)))
  {
    var s := lib.strings.trim(e.destPort);
    forall lo, hi
      ensures PortsAre(s, lo, hi) <==>
              PortSpec(lib, s).Ok? && PortSpec(lib, s).value.0 == lo && PortSpec(lib, s).value.1 == hi
    {
      PortsExactly(lib, s, lo, hi);
    }
    if PortSpec(lib, s).Ok? {
      var ports := PortSpec(lib, s).value;
      assert PortsAre(s, ports.0, ports.1);
    }
  }

  lemma ProtocolNeeded(lib: Lib, e: Entry, source: string, dest: string, lo: nat, hi: nat)
    requires BuildFrom(lib, e, source, dest, lo, hi).Ok?
    ensures ProtocolOK(lib, e)
  {
  }

  lemma BuildNeeds(lib: Lib, e: Entry)
    ensures Build(lib, e).Ok? <==>
            && ValidCIDR(lib, e.source).Ok? && ValidCIDR(lib, e.dest).Ok?
            && PortSpec(lib, lib.strings.trim(e.destPort)).Ok?
            && (e.sourceNeg ==> Field(lib, e.source) != "") && (e.destNeg ==> Field(lib, e.dest) != "")
            && BuildFrom(lib, e, Field(lib, e.source), Field(lib, e.dest), Bounds(lib, e).0, Bounds(lib, e).1).Ok?
  {
  }

  lemma BuildSplits(lib: Lib, e: Entry)
    requires Sound(lib)
    ensures Build(lib, e).Ok? <==>
            && FieldsOK(lib, e)
            && BuildFrom(lib, e, Field(lib, e.source), Field(lib, e.dest), Bounds(lib, e).0, Bounds(lib, e).1).Ok?
  {
    FieldExactly(lib, e.source);
    FieldExactly(lib, e.dest);
    PortsRead(lib, e);
    BuildNeeds(lib, e);
    if BuildFrom(lib, e, Field(lib, e.source), Field(lib, e.dest), Bounds(lib, e).0, Bounds(lib, e).1).Ok? {
      ProtocolNeeded(lib, e, Field(lib, e.source), Field(lib, e.dest), Bounds(lib, e).0, Bounds(lib, e).1);
    }
  }

  lemma ForwardTextExactly(lib: Lib, e: Entry, rest: string, lo: nat, hi: nat)
    requires CutForward(lib, lib.strings.trim(e.translate)) == Some(rest)
    ensures ForwardText(lib, rest, lo, hi).Ok? <==>
            exists ip, port :: Forwards(lib, e.translate, ip, port) && !ip.family.V4In6? &&
              (port != 0 ==> lo != 0 && lo == hi)
  {
    if ForwardText(lib, rest, lo, hi).Ok? {
      var t := SplitTarget(lib, rest).value;
      var port := if t.port.None? then 0 else Atoi(lib.strings.trim(t.port.value)).value;
      assert Forwards(lib, e.translate, lib.parseAddr(t.addr).value, port);
    }
  }

  /** A port-forward names one address. */
  lemma ForwardsTo(lib: Lib, e: Entry, rest: string, ip: Ip, port: nat)
    requires Sound(lib) && CutForward(lib, lib.strings.trim(e.translate)) == Some(rest)
    requires Forwards(lib, e.translate, ip, port)
    ensures SplitTarget(lib, rest).Ok?
    ensures FieldFamily(lib, SplitTarget(lib, rest).value.addr) == Some(Is6(ip))
  {
  }

  lemma ForwardAccepted(lib: Lib, e: Entry)
    requires Sound(lib) && FieldsOK(lib, e) && CutForward(lib, lib.strings.trim(e.translate)).Some?
    ensures BuildFrom(lib, e, Field(lib, e.source), Field(lib, e.dest), Bounds(lib, e).0, Bounds(lib, e).1).Ok?
            <==> ForwardOK(lib, e)
  {
    var rest, ports := CutForward(lib, lib.strings.trim(e.translate)).value, Bounds(lib, e);
    FieldExactly(lib, e.source);
    FieldExactly(lib, e.dest);
    PortsRead(lib, e);
    ForwardTextExactly(lib, e, rest, ports.0, ports.1);
    if SplitTarget(lib, rest).Ok? {
      FamiliesAgree(lib, e, SplitTarget(lib, rest).value.addr);
    }
    forall ip, port | Forwards(lib, e.translate, ip, port)
      ensures FieldFamily(lib, SplitTarget(lib, rest).value.addr) == Some(Is6(ip))
    {
      ForwardsTo(lib, e, rest, ip, port);
    }
  }

  lemma MasqueradeAccepted(lib: Lib, e: Entry)
    requires Sound(lib) && FieldsOK(lib, e) && CutForward(lib, lib.strings.trim(e.translate)).None?
    requires IsMasquerade(lib, lib.strings.trim(e.translate))
    ensures BuildFrom(lib, e, Field(lib, e.source), Field(lib, e.dest), Bounds(lib, e).0, Bounds(lib, e).1).Ok?
            <==> MasqueradeOK(lib, e)
  {
    FieldExactly(lib, e.source);
    FieldExactly(lib, e.dest);
    FamiliesAgree(lib, e, "masquerade");
  }

  lemma SnatAccepted(lib: Lib, e: Entry)
    requires Sound(lib) && FieldsOK(lib, e) && CutForward(lib, lib.strings.trim(e.translate)).None?
    requires !IsMasquerade(lib, lib.strings.trim(e.translate))
    ensures BuildFrom(lib, e, Field(lib, e.source), Field(lib, e.dest), Bounds(lib, e).0, Bounds(lib, e).1).Ok?
            <==> SnatOK(lib, e)
  {
    FieldExactly(lib, e.source);
    FieldExactly(lib, e.dest);
    FamiliesAgree(lib, e, lib.strings.trim(e.translate));
  }

  /** The editor accepts exactly the acceptable entries. */
  lemma AcceptedExactly(lib: Lib, e: Entry)
    requires Sound(lib)
    ensures Build(lib, e).Ok? <==> Acceptable(lib, e)
  {
    BuildSplits(lib, e);
    var t := lib.strings.trim(e.translate);
    if FieldsOK(lib, e) {
      if CutForward(lib, t).Some? {
        ForwardAccepted(lib, e);
      } else if IsMasquerade(lib, t) {
        MasqueradeAccepted(lib, e);
      } else {
        SnatAccepted(lib, e);
      }
    }
  }

  // ---------------------------------------------------------------- entries as they are printed

  lemma ForwardsOnce(lib: Lib, translate: string, ip: Ip, port: nat, other: Ip, otherPort: nat)
    requires Forwards(lib, translate, ip, port) && Forwards(lib, translate, other, otherPort)
    ensures ip == other && port == otherPort
  {
  }

  lemma PrintedForwards(lib: Lib, ip: Ip, port: nat)
    requires Sound(lib) && (port == 0 || InRange(port))
    ensures var text := PORT_FORWARD + TargetText(lib, ip, port);
            && lib.strings.trim(text) == text && CutForward(lib, text).Some?
            && Forwards(lib, text, ip, port)
  {
    TargetRoundTrip(lib, ip, port);
    ForwardReadsBack(lib, ip, port);
    AtoiOfDecimal(port);
    DecimalPlain(port);
    var t := SplitTarget(lib, TargetText(lib, ip, port)).value;
    assert lib.parseAddr(t.addr) == Some(ip);
  }

  /** A protocol as it is stored. */
  predicate IsProtocol(lib: Lib, proto: string) {
    lib.strings.trim(proto) == proto && (proto == "tcp" || proto == "udp") && Lower(proto) == proto
  }

  lemma ReadPorts(lib: Lib, e: Entry, r: Rule, lo: nat, hi: nat)
    requires Sound(lib) && Build(lib, e) == Ok(r) && '+' !in e.destPort
    requires lib.strings.trim(e.destPort) == e.destPort && PortsAre(e.destPort, lo, hi)
    ensures CompileOne(lib, r).Some? && CompileOne(lib, r).value.ports == (lo, hi)
  {
    AcceptedPorts(lib, e, r);
    PortsExactly(lib, e.destPort, lo, hi);
  }

  /** The printed port-forward to an address and port, for a match of its family. */
  ghost predicate PrintedForward(lib: Lib, e: Entry, ip: Ip, port: nat, lo: nat, hi: nat) {
    && (port == 0 || InRange(port)) && e.translate == PORT_FORWARD + TargetText(lib, ip, port)
    && MatchOK(lib, e.source) && MatchOK(lib, e.dest) && TargetOK(lib, e, ip) && !e.sourceNeg && !e.destNeg
    && lib.strings.trim(e.destPort) == e.destPort && '+' !in e.destPort && PortsAre(e.destPort, lo, hi)
    && IsProtocol(lib, e.proto) && (port != 0 ==> lo == hi != 0)
  }

  lemma PrintedForwardBuilds(lib: Lib, e: Entry, ip: Ip, port: nat, lo: nat, hi: nat)
    requires Sound(lib) && PrintedForward(lib, e, ip, port, lo, hi)
    ensures Build(lib, e).Ok? && CutForward(lib, lib.strings.trim(e.translate)).Some?
    ensures Forwards(lib, e.translate, ip, port)
  {
    PrintedForwards(lib, ip, port);
    assert FieldsOK(lib, e);
    assert ForwardOK(lib, e);
    AcceptedExactly(lib, e);
  }

  /** For every target that is not IPv4-mapped, every port text without a plus sign, both protocols,
      every match of the target's family, and every remap port when a single port is matched: the
      port-forward as printed is accepted, and compiles to that DNAT. */
  lemma PrintedForwardAccepted(lib: Lib, e: Entry, ip: Ip, port: nat, lo: nat, hi: nat)
    requires Sound(lib) && PrintedForward(lib, e, ip, port, lo, hi)
    ensures Build(lib, e).Ok?
    ensures var k := CompileOne(lib, Build(lib, e).value);
            && k.Some? && k.value.kind.DNAT? && k.value.to == Some(ip) && k.value.toPort == port
            && k.value.ports == (lo, hi) && k.value.proto == e.proto && k.value.v6 == Is6(ip)
            && Denotes(lib, e.source, k.value.source) && Denotes(lib, e.dest, k.value.dest)
  {
    PrintedForwardBuilds(lib, e, ip, port, lo, hi);
    var r := Build(lib, e).value;
    BuiltForward(lib, e, r);
    ReadPorts(lib, e, r, lo, hi);
    var k := CompileOne(lib, r).value;
    ForwardsOnce(lib, e.translate, ip, port, k.to.value, k.toPort);
  }

  /** Masquerading out of an interface, for a source prefix and destinations of one family, is
      accepted and compiles to that. */
  lemma MasqueradeCompiles(lib: Lib, e: Entry, v6: bool)
    requires Sound(lib) && lib.strings.trim(e.iface) != ""
    requires var t := lib.strings.trim(e.translate); IsMasquerade(lib, t) && CutForward(lib, t).None?
    requires Names(lib, e.source) && MatchOK(lib, e.dest) && OfFamily(lib, e.source, v6) && OfFamily(lib, e.dest, v6)
    requires lib.strings.trim(e.destPort) == "" && lib.strings.trim(e.proto) == "" && !e.sourceNeg && !e.destNeg
    ensures Build(lib, e).Ok?
    ensures var k := CompileOne(lib, Build(lib, e).value);
            && k.Some? && k.value.kind.Masquerade? && k.value.outIface == lib.strings.trim(e.iface)
            && k.value.v6 == v6 && k.value.source.Some?
            && Denotes(lib, e.source, k.value.source) && Denotes(lib, e.dest, k.value.dest)
  {
    assert PortsAre(lib.strings.trim(e.destPort), 0, 0) && Lower(lib.strings.trim(e.proto)) == "";
    AcceptedExactly(lib, e);
    BuiltPlain(lib, e, Build(lib, e).value);
    assert Denotes(lib, e.source, CompileOne(lib, Build(lib, e).value).value.source);
  }

  lemma WordIsMasquerade(lib: Lib, t: string)
    requires Sound(lib) && t == "masquerade"
    ensures lib.strings.trim(t) == t && IsMasquerade(lib, t) && CutForward(lib, t).None?
  {
    assert Plain(t) && |t| < |PORT_FORWARD|;
  }

  /** A fixed source address that is not IPv4-mapped, for matches of its family, is accepted and
      compiles to that. */
  lemma PrintedSnatAccepted(lib: Lib, e: Entry, ip: Ip)
    requires Sound(lib) && NamesNoAddress(lib) && e.translate == lib.text(ip) && TargetOK(lib, e, ip)
    requires MatchOK(lib, e.source) && MatchOK(lib, e.dest)
    requires lib.strings.trim(e.destPort) == "" && lib.strings.trim(e.proto) == "" && !e.sourceNeg && !e.destNeg
    ensures Build(lib, e).Ok?
    ensures var k := CompileOne(lib, Build(lib, e).value);
            && k.Some? && k.value.kind.SNAT? && k.value.to == Some(ip) && k.value.v6 == Is6(ip)
            && Denotes(lib, e.source, k.value.source) && Denotes(lib, e.dest, k.value.dest)
  {
    assert lib.strings.trim(e.translate) == e.translate && !Keyword(lib, e.translate);
    assert PortsAre("", 0, 0) && Lower("") == "";
    AcceptedExactly(lib, e);
    BuiltPlain(lib, e, Build(lib, e).value);
  }

  // ---------------------------------------------------------------- every stored rule

  /** Whatever a rule says, hand-edited or not: it forwards if its text carries the mark, in any
      case, and masquerades if it is blank or the word, in any case; otherwise the text must be an
      address. A forward takes the interface on the way in and keeps protocol and ports; the others
      take it on the way out and have neither. */
  lemma RuleCompilesExactly(lib: Lib, r: Rule)
    ensures var t := lib.strings.trim(r.translate);
            var marked := |t| >= 13 && SameFold(lib, t[..13], "port-forward:");
            match CompileOne(lib, r)
            case None => marked || (t != "" && !SameFold(lib, t, "masquerade") && lib.parseAddr(t).None?)
            case Some(k) =>
              && k.sourceNeg == r.sourceNeg && k.destNeg == r.destNeg
              && k.source == ParsePfx(lib, r.source) && k.dest == ParsePfx(lib, r.dest)
              && (k.kind.DNAT? <==> marked)
              && (k.kind.Masquerade? <==> !marked && (t == "" || SameFold(lib, t, "masquerade")))
              && (k.kind.SNAT? ==> k.to.Some? && k.to == lib.parseAddr(t))
              && (if k.kind.DNAT? then k.inIface == r.iface && k.outIface == "" && k.proto == r.proto
                  else k.inIface == "" && k.outIface == r.iface && k.proto == "" && k.ports == (0, 0) && k.toPort == 0)
  {
  }
}
