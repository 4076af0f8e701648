/** NAT rules from validated text to kernel rules. Address parsing and printing are library
    calls; everything built on them is spelled out. */
module NatCompile {
  import opened Text

  datatype Family = V4 | V6 | V4In6

  datatype Address = Address(family: Family, bits: nat)

  /** A zone-free IP address; an IPv4-mapped one has the bits of the address it maps. */
  type Ip = a: Address | Fits(a)
    witness Address(V4, 0)

  predicate Fits(a: Address) {
    a.bits < if a.family.V6? then 0x1_0000_0000_0000_0000_0000_0000_0000_0000 else 0x1_0000_0000
  }

  datatype Prefix = Prefix(addr: Ip, len: nat)

  predicate Is6(ip: Ip) {
    !ip.family.V4?
  }

  /** Text and address library: trimming, case folding, netip parsing and printing. */
  datatype Lib = Lib(
    strings: Strings,
    parseAddr: string -> Option<Ip>,
    parsePrefix: string -> Option<Prefix>,
    text: Ip -> string)

  /** ASCII without blanks and control characters. */
  predicate Plain(s: string) {
    forall c :: c in s ==> '!' <= c <= '~'
  }

  /** Trimming leaves plain text alone. */
  ghost predicate TrimsPlain(lib: Lib) {
    Lawful(lib.strings) && forall s: string :: Plain(s) ==> lib.strings.trim(s) == s
  }

  /** Printed addresses are plain and without brackets, and are read back. */
  ghost predicate Prints(lib: Lib) {
    && (forall ip: Ip :: lib.parseAddr(lib.text(ip)) == Some(ip))
    && (forall ip: Ip :: lib.text(ip) != "" && Plain(lib.text(ip)))
    && (forall ip: Ip :: '[' !in lib.text(ip) && ']' !in lib.text(ip))
    && (forall ip: Ip :: ip.family.V4? ==> ':' !in lib.text(ip))
  }

  /** A text that is, or begins with, one of the words of a translate field, in any case. */
  predicate Keyword(lib: Lib, s: string) {
    SameFold(lib, s, "masquerade")
    || (|s| >= |PORT_FORWARD| && SameFold(lib, s[..|PORT_FORWARD|], PORT_FORWARD))
  }

  /** No keyword is an address. */
  ghost predicate NamesNoAddress(lib: Lib) {
    forall s: string :: Keyword(lib, s) ==> lib.parseAddr(s).None?
  }

  /** An IPv4 address with a port is no address, nor is a prefix, nor the empty text, nor the word
      masquerade. */
  ghost predicate Tells(lib: Lib) {
    && lib.parseAddr("masquerade") == None && lib.parsePrefix("masquerade") == None
    && (forall ip: Ip, s: string :: ip.family.V4? ==> lib.parseAddr(lib.text(ip) + ":" + s) == None)
    && (forall s: string :: lib.parsePrefix(s).Some? ==> lib.parseAddr(s).None?)
    && lib.parseAddr("") == None && lib.parsePrefix("") == None
  }

  /** What is relied on about the library. */
  ghost predicate Sound(lib: Lib) {
    TrimsPlain(lib) && Prints(lib) && Tells(lib)
  }

  // ---------------------------------------------------------------- such a library exists

  /** A simple notation for addresses: the number, with a mark before it for IPv6. */
  function NumberText(ip: Ip): string {
    (match ip.family case V4 => "" case V6 => ":6" case V4In6 => ":4") + Decimal(ip.bits)
  }

  function NumberAddr(s: string): Option<Ip> {
    var family := if s != "" && s[0] != ':' then V4 else if |s| > 1 && s[1] == '6' then V6 else V4In6;
    var digits := if family == V4 || |s| < 2 then s else s[2..];
    if !AllDigits(digits) || digits == "" then None
    else
      var a := Address(family, Value(digits));
      if Fits(a) && NumberText(a) == s then Some(a) else None
  }

  function NumberPrefix(s: string): Option<Prefix> {
    var k := IndexOf(s, '/');
    if k == |s| || NumberAddr(s[..k]).None? || !AllDigits(s[k + 1..]) then None
    else Some(Prefix(NumberAddr(s[..k]).value, Value(s[k + 1..])))
  }

  lemma NumberTextReadsBack(ip: Ip)
    ensures NumberAddr(NumberText(ip)) == Some(ip)
  {
    var s, digits := NumberText(ip), Decimal(ip.bits);
    DecimalValue(ip.bits);
    assert digits[0] in digits;
    if ip.family.V4? {
      assert s == digits;
    } else {
      assert s[2..] == digits && s[0] == ':' && s[1] == if ip.family.V6? then '6' else '4';
    }
  }

  lemma NumberTextShape(ip: Ip, c: char)
    ensures c in NumberText(ip) ==> IsDigit(c) || (c == ':' && !ip.family.V4?)
  {
  }

  lemma NumberTextPlain(ip: Ip)
    ensures NumberText(ip) != "" && Plain(NumberText(ip)) && '[' !in NumberText(ip) && ']' !in NumberText(ip)
    ensures ip.family.V4? ==> ':' !in NumberText(ip)
  {
    forall c: char {
      NumberTextShape(ip, c);
    }
  }

  lemma NoPortInNumber(ip: Ip, s: string)
    requires ip.family.V4?
    ensures NumberAddr(NumberText(ip) + ":" + s) == None
  {
    var t := NumberText(ip) + ":" + s;
    assert t[0] == Decimal(ip.bits)[0] && Decimal(ip.bits)[0] in Decimal(ip.bits);
    assert t[|NumberText(ip)|] == ':' && ':' in t;
  }

  lemma NumberPrefixIsNoAddress(s: string)
    requires NumberPrefix(s).Some?
    ensures NumberAddr(s).None?
  {
    var k := IndexOf(s, '/');
    if NumberAddr(s).Some? {
      NumberTextShape(NumberAddr(s).value, s[k]);
    }
  }

  lemma PlainIsTrimmed(s: string)
    requires Plain(s)
    ensures Trimmed(s) && TrimSpace(s) == s
  {
    assert s != "" ==> s[0] in s && s[|s| - 1] in s;
  }

  predicate Numbers(lib: Lib, s: string, ip: Ip) {
    && lib.strings.trim(s) == TrimSpace(s) && lib.strings.fold(s) == Lower(s) && lib.parseAddr(s) == NumberAddr(s)
    && lib.parsePrefix(s) == NumberPrefix(s) && lib.text(ip) == NumberText(ip)
  }

  lemma NumbersPrint(lib: Lib)
    requires forall s, ip :: Numbers(lib, s, ip)
    ensures Prints(lib)
  {
    forall ip: Ip
      ensures lib.text(ip) == NumberText(ip) && lib.parseAddr(lib.text(ip)) == Some(ip)
      ensures lib.text(ip) != "" && Plain(lib.text(ip)) && '[' !in lib.text(ip) && ']' !in lib.text(ip)
      ensures ip.family.V4? ==> ':' !in lib.text(ip)
    {
      assert Numbers(lib, NumberText(ip), ip);
      NumberTextReadsBack(ip);
      NumberTextPlain(ip);
    }
  }

  lemma NumbersTell(lib: Lib, none: string, word: string)
    requires none == "" && word == "masquerade" && forall s, ip :: Numbers(lib, s, ip)
    ensures Tells(lib)
  {
    var some := Address(V4, 0);
    forall ip: Ip, s: string | ip.family.V4?
      ensures lib.parseAddr(lib.text(ip) + ":" + s) == None
    {
      assert Numbers(lib, NumberText(ip) + ":" + s, ip);
      NoPortInNumber(ip, s);
    }
    forall s: string | lib.parsePrefix(s).Some?
      ensures lib.parseAddr(s).None?
    {
      assert Numbers(lib, s, some);
      NumberPrefixIsNoAddress(s);
    }
    assert Numbers(lib, none, some);
    assert Numbers(lib, word, some);
    NoNumberInWord(word);
  }

  lemma FoldedWord(lib: Lib, s: string, word: string)
    requires forall t, ip :: Numbers(lib, t, ip)
    requires word != "" && 'a' <= word[0] <= 'z' && SameFold(lib, s, word)
    ensures s != "" && 'a' <= LowerChar(s[0]) <= 'z'
  {
    var some := Address(V4, 0);
    assert Numbers(lib, s, some) && Numbers(lib, word, some);
    assert |Lower(s)| == |Lower(word)| && Lower(s)[0] == Lower(word)[0];
  }

  lemma NumbersNameNoAddress(lib: Lib, masquerade: string, forward: string)
    requires masquerade == "masquerade" && forward == PORT_FORWARD && forall s, ip :: Numbers(lib, s, ip)
    ensures NamesNoAddress(lib)
  {
    forall s: string | Keyword(lib, s)
      ensures lib.parseAddr(s).None?
    {
      assert Numbers(lib, s, Address(V4, 0));
      if SameFold(lib, s, masquerade) {
        FoldedWord(lib, s, masquerade);
      } else {
        FoldedWord(lib, s[..|PORT_FORWARD|], forward);
      }
      NoNumberInWord(s);
    }
  }

  lemma NoNumberInWord(word: string)
    requires word != "" && 'a' <= LowerChar(word[0]) <= 'z'
    ensures NumberAddr(word) == None && NumberPrefix(word) == None
  {
    assert word[0] in word;
    var k := IndexOf(word, '/');
    assert k > 0 ==> word[0] in word[..k];
  }

  /** What is relied on is consistent: trimming as defined in Text, with this notation, meets it. */
  lemma SomeLibraryIsSound(lib: Lib)
    requires forall s, ip :: Numbers(lib, s, ip)
    ensures Sound(lib) && NamesNoAddress(lib)
  {
    forall s: string
      ensures lib.strings.trim(s) == TrimSpace(s)
      ensures Plain(s) ==> lib.strings.trim(s) == s
    {
      assert Numbers(lib, s, Address(V4, 0));
      if Plain(s) {
        PlainIsTrimmed(s);
      }
    }
    TrimSpaceLawful(lib.strings);
    NumbersPrint(lib);
    NumbersTell(lib, "", "masquerade");
    NumbersNameNoAddress(lib, "masquerade", PORT_FORWARD);
  }

  lemma SuchALibrary() returns (lib: Lib)
    ensures Sound(lib) && NamesNoAddress(lib)
  {
    lib := Lib(Strings(TrimSpace, Lower), NumberAddr, NumberPrefix, NumberText);
    SomeLibraryIsSound(lib);
  }

  // ---------------------------------------------------------------- port-forward targets

  /** A target taken apart: its address text and, if any, its port text. */
  datatype Target = Target(addr: string, port: Option<string>)

  function SplitTarget(lib: Lib, text: string): Result<Target> {
    var s := lib.strings.trim(text);
    if s == "" then Error
    else if s[0] == '[' then
      var end := IndexOf(s, ']');
      if end == |s| then Error
      else
        var addr, rest := lib.strings.trim(s[1..end]), lib.strings.trim(s[end + 1..]);
        if rest == "" then Ok(Target(addr, None))
        else if rest[0] == ':' then Ok(Target(addr, Some(lib.strings.trim(rest[1..]))))
        else Error
    else if lib.parseAddr(s).Some? then Ok(Target(s, None))
    else
      var colon := IndexOf(s, ':');
      if colon == |s| then Ok(Target(s, None))
      else Ok(Target(lib.strings.trim(s[..colon]), Some(lib.strings.trim(s[colon + 1..]))))
  }

  function TargetText(lib: Lib, ip: Ip, port: nat): string {
    if port == 0 then lib.text(ip)
    else if Is6(ip) then "[" + lib.text(ip) + "]:" + Decimal(port)
    else lib.text(ip) + ":" + Decimal(port)
  }

  lemma PlainConcat(a: string, b: string)
    requires Plain(a) && Plain(b)
    ensures Plain(a + b)
  {
  }

  lemma DecimalPlain(n: nat)
    ensures Plain(Decimal(n)) && Decimal(n) != ""
  {
  }

  lemma BracketedSplits(lib: Lib, a: string, p: string)
    requires Sound(lib) && Plain(a) && Plain(p) && ']' !in a
    ensures SplitTarget(lib, "[" + a + "]:" + p) == Ok(Target(a, Some(p)))
  {
    var s := "[" + a + "]:" + p;
    assert Plain("[") && Plain("]:") && Plain(":" + p);
    PlainConcat("[", a);
    PlainConcat("[" + a, "]:");
    PlainConcat("[" + a + "]:", p);
    IndexOfAt("[" + a, ']', ":" + p);
    assert s == ("[" + a) + [']'] + (":" + p);
    assert s[1..|a| + 1] == a && s[|a| + 2..] == ":" + p && (":" + p)[1..] == p;
  }

  lemma ColonSplits(lib: Lib, a: string, p: string)
    requires Sound(lib) && Plain(a) && Plain(p) && a != "" && a[0] != '[' && ':' !in a
    requires lib.parseAddr(a + ":" + p).None?
    ensures SplitTarget(lib, a + ":" + p) == Ok(Target(a, Some(p)))
  {
    var s := a + ":" + p;
    assert Plain(":");
    PlainConcat(a, ":");
    PlainConcat(a + ":", p);
    IndexOfAt(a, ':', p);
    assert s == a + [':'] + p;
    assert s[0] == a[0] && s[..|a|] == a && s[|a| + 1..] == p;
  }

  /** Splitting undoes printing, for every address and port. */
  lemma TargetRoundTrip(lib: Lib, ip: Ip, port: nat)
    requires Sound(lib)
    ensures SplitTarget(lib, TargetText(lib, ip, port)) ==
            Ok(Target(lib.text(ip), if port == 0 then None else Some(Decimal(port))))
    ensures Plain(TargetText(lib, ip, port))
  {
    var a := lib.text(ip);
    DecimalPlain(port);
    assert a[0] in a;
    if port == 0 {
    } else if Is6(ip) {
      BracketedSplits(lib, a, Decimal(port));
    } else {
      ColonSplits(lib, a, Decimal(port));
    }
  }

  // ---------------------------------------------------------------- numbers

  /** parsePort: unsigned, no sign accepted. */
  function ParsePort(s: string): Option<nat> {
    if s == "" || !AllDigits(s) || Value(s) > 65535 then None else Some(Value(s))
  }

  predicate InRange(p: int) {
    1 <= p <= 65535
  }

  /** validNATPortSpec: the bounds of a port or range, (0, 0) for "any". */
  function PortSpec(lib: Lib, text: string): Result<(nat, nat)> {
    var s := lib.strings.trim(text);
    var dash := IndexOf(s, '-');
    if s == "" then Ok((0, 0))
    else if dash == |s| then
      match Atoi(s)
      case Some(p) => if InRange(p) then Ok((p, p)) else Error
      case None => Error
    else
      match (Atoi(s[..dash]), Atoi(s[dash + 1..]))
      case (Some(lo), Some(hi)) => if InRange(lo) && InRange(hi) && lo <= hi then Ok((lo, hi)) else Error
      case _ => Error
  }

  /** parsePortRange, which the compiler reads the stored text with. */
  function PortRange(lib: Lib, text: string): Result<(nat, nat)> {
    var s := lib.strings.trim(text);
    var dash := IndexOf(s, '-');
    if s == "" then Ok((0, 0))
    else if dash < |s| then
      match (ParsePort(lib.strings.trim(s[..dash])), ParsePort(lib.strings.trim(s[dash + 1..])))
      case (Some(lo), Some(hi)) => if hi < lo then Error else Ok((lo, hi))
      case _ => Error
    else
      match ParsePort(s)
      case Some(p) => Ok((p, p))
      case None => Error
  }

  /** The destination ports of the kernel rule; (0, 0) matches every port. */
  function KernelPorts(lib: Lib, destPort: string): (nat, nat) {
    if destPort == "" then (0, 0)
    else match PortRange(lib, destPort)
      case Ok((lo, hi)) => if InRange(lo) && lo <= hi <= 65535 then (lo, hi) else (0, 0)
      case Error => (0, 0)
  }

  /** On a number in range the two parsers differ exactly by the plus sign. */
  lemma AtoiOfPort(s: string)
    requires Atoi(s).Some? && InRange(Atoi(s).value)
    ensures ParsePort(s) == if '+' in s then None else Some(Atoi(s).value)
    ensures '+' in s || AllDigits(s)
  {
    if s[0] == '+' {
      assert '+' in s && !AllDigits(s);
    }
  }

  lemma AtoiOfDecimal(n: nat)
    ensures Atoi(Decimal(n)) == Some(n)
  {
    DecimalValue(n);
    assert IsDigit(Decimal(n)[0]);
  }

  /** The compiler reads the validated ports back exactly when no plus sign was written;
      otherwise the rule it emits matches every port. */
  lemma PortsReadBack(lib: Lib, text: string)
    requires Sound(lib) && PortSpec(lib, text).Ok?
    ensures var s := lib.strings.trim(text);
            KernelPorts(lib, s) == if '+' in s then (0, 0) else PortSpec(lib, text).value
  {
    var s := lib.strings.trim(text);
    var dash := IndexOf(s, '-');
    if s != "" {
      if dash == |s| {
        AtoiOfPort(s);
      } else {
        var a, b := s[..dash], s[dash + 1..];
        assert s == a + ['-'] + b;
        AtoiOfPort(a);
        AtoiOfPort(b);
        assert '+' in s <==> '+' in a || '+' in b;
        if '+' !in s {
          assert Plain(a) && Plain(b);
        } else {
          SignedBoundFails(lib, a);
          SignedBoundFails(lib, b);
        }
      }
    }
  }

  lemma SignedBoundFails(lib: Lib, s: string)
    requires Sound(lib) && Atoi(s).Some? && InRange(Atoi(s).value)
    ensures '+' in s ==> ParsePort(lib.strings.trim(s)).None?
  {
    AtoiOfPort(s);
    assert Plain(s);
  }

  // ---------------------------------------------------------------- validating a rule

  const PORT_FORWARD := "port-forward:"

  /** The eight fields an operator submits. */
  datatype Entry = Entry(
    source: string, dest: string, destPort: string, proto: string, translate: string, iface: string,
    sourceNeg: bool, destNeg: bool)

  datatype Rule = Rule(
    source: string, dest: string, sourceNeg: bool, destNeg: bool,
    destPort: string, proto: string, translate: string, iface: string, enabled: bool)

  predicate SameFold(lib: Lib, s: string, t: string) {
    lib.strings.fold(s) == lib.strings.fold(t)
  }

  /** validNATCIDR */
  function ValidCIDR(lib: Lib, text: string): Result<string> {
    var s := lib.strings.trim(text);
    if s == "" || SameFold(lib, s, "any") then Ok("")
    else
      match lib.parseAddr(s)
      case Some(ip) => if ip.family.V4In6? then Error else Ok(s)
      case None =>
        match lib.parsePrefix(s)
        case Some(p) => if p.addr.family.V4In6? then Error else Ok(s)
        case None => Error
  }

  /** natFieldFamily: whether the field names an IPv6 address, None when it names none. */
  function FieldFamily(lib: Lib, s: string): Option<bool> {
    if s == "" then None
    else
      match lib.parseAddr(s)
      case Some(ip) => Some(Is6(ip))
      case None =>
        match lib.parsePrefix(s)
        case Some(p) => Some(Is6(p.addr))
        case None => None
  }

  predicate Agree(a: Option<bool>, b: Option<bool>) {
    a.None? || b.None? || a == b
  }

  /** natFamilyAgreement over the three address fields of a rule. */
  predicate OneFamily(lib: Lib, source: string, dest: string, target: string) {
    var (a, b, c) := (FieldFamily(lib, source), FieldFamily(lib, dest), FieldFamily(lib, target));
    Agree(a, b) && Agree(a, c) && Agree(b, c)
  }

  /** cutNATPortForwardPrefix */
  function CutForward(lib: Lib, s: string): Option<string> {
    if |s| < |PORT_FORWARD| || !SameFold(lib, s[..|PORT_FORWARD|], PORT_FORWARD) then None
    else Some(s[|PORT_FORWARD|..])
  }

  predicate IsMasquerade(lib: Lib, translate: string) {
    translate == "" || SameFold(lib, translate, "masquerade")
  }

  /** The stored translate text of a port-forward, given the text after the prefix. */
  function ForwardText(lib: Lib, rest: string, lo: nat, hi: nat): Result<string> {
    match SplitTarget(lib, rest)
    case Error => Error
    case Ok(Target(addr, port)) =>
      match lib.parseAddr(addr)
      case None => Error
      case Some(ip) =>
        if ip.family.V4In6? then Error
        else if port.None? then Ok(PORT_FORWARD + TargetText(lib, ip, 0))
        else
          match Atoi(lib.strings.trim(port.value))
          case None => Error
          case Some(to) =>
            if !InRange(to) || lo == 0 || lo != hi then Error
            else Ok(PORT_FORWARD + TargetText(lib, ip, to))
  }

  /** buildNATRule after the match fields have been read. */
  function BuildFrom(lib: Lib, e: Entry, source: string, dest: string, lo: nat, hi: nat): Result<Rule> {
    var destPort, proto := lib.strings.trim(e.destPort), Lower(lib.strings.trim(e.proto));
    var translate, iface := lib.strings.trim(e.translate), lib.strings.trim(e.iface);
    if proto !in ["", "tcp", "udp"] || (destPort != "" && proto == "") then Error
    else
      match CutForward(lib, translate)
      case Some(rest) =>
        (match ForwardText(lib, rest, lo, hi)
         case Error => Error
         case Ok(text) =>
           if !OneFamily(lib, source, dest, SplitTarget(lib, rest).value.addr) then Error
           else Ok(Rule(source, dest, false, false, destPort, proto, text, "", false)))
      case None =>
        if destPort != "" then Error
        else if IsMasquerade(lib, translate) then
          if iface == "" || FieldFamily(lib, source).None? || !OneFamily(lib, source, dest, "masquerade") then Error
          else Ok(Rule(source, dest, false, false, "", "", "masquerade", iface, false))
        else if lib.parseAddr(translate).None? || lib.parseAddr(translate).value.family.V4In6? then Error
        else if !OneFamily(lib, source, dest, translate) then Error
        else Ok(Rule(source, dest, false, false, "", "", translate, "", false))
  }

  /** buildNATRule followed by applyNATNegate. */
  function Build(lib: Lib, e: Entry): Result<Rule> {
    match (ValidCIDR(lib, e.source), ValidCIDR(lib, e.dest), PortSpec(lib, lib.strings.trim(e.destPort)))
    case (Ok(source), Ok(dest), Ok((lo, hi))) =>
      (match BuildFrom(lib, e, source, dest, lo, hi)
       case Error => Error
       case Ok(r) =>
         if (e.sourceNeg && source == "") || (e.destNeg && dest == "") then Error
         else Ok(r.(sourceNeg := e.sourceNeg, destNeg := e.destNeg)))
    case _ => Error
  }

  // ---------------------------------------------------------------- compiling a rule

  datatype Kind = DNAT | Masquerade | SNAT

  datatype KernelRule = KernelRule(
    kind: Kind, source: Option<Prefix>, sourceNeg: bool, dest: Option<Prefix>, destNeg: bool,
    inIface: string, outIface: string, to: Option<Ip>, v6: bool,
    proto: string, ports: (nat, nat), toPort: nat)

  function HostPrefix(ip: Ip): Prefix {
    Prefix(ip, if Is6(ip) then 128 else 32)
  }

  /** parsePfx */
  function ParsePfx(lib: Lib, text: string): Option<Prefix> {
    var s := lib.strings.trim(text);
    if s == "" then None
    else if lib.parsePrefix(s).Some? then lib.parsePrefix(s)
    else if lib.parseAddr(s).Some? then Some(HostPrefix(lib.parseAddr(s).value))
    else None
  }

  /** The remap port of a stored target, 0 for none. */
  function RemapPort(lib: Lib, port: Option<string>): nat {
    if port.None? then 0
    else
      match Atoi(lib.strings.trim(port.value))
      case Some(p) => if InRange(p) then p else 0
      case None => 0
  }

  /** One turn of the loop of kernelNATRules; None when the rule is skipped. */
  function CompileOne(lib: Lib, r: Rule): Option<KernelRule> {
    var source, dest, t := ParsePfx(lib, r.source), ParsePfx(lib, r.dest), lib.strings.trim(r.translate);
    match CutForward(lib, t)
    case Some(text) =>
      (match SplitTarget(lib, lib.strings.trim(text))
       case Error => None
       case Ok(Target(addr, port)) =>
         match lib.parseAddr(lib.strings.trim(addr))
         case None => None
         case Some(to) =>
           Some(KernelRule(DNAT, source, r.sourceNeg, dest, r.destNeg, r.iface, "", Some(to), Is6(to),
                           r.proto, KernelPorts(lib, r.destPort), RemapPort(lib, port))))
    case None =>
      if IsMasquerade(lib, t) then
        Some(KernelRule(Masquerade, source, r.sourceNeg, dest, r.destNeg, "", r.iface, None,
                        source.Some? && Is6(source.value.addr), "", (0, 0), 0))
      else
        match lib.parseAddr(t)
        case None => None
        case Some(to) =>
          Some(KernelRule(SNAT, source, r.sourceNeg, dest, r.destNeg, "", r.iface, Some(to), Is6(to), "", (0, 0), 0))
  }

  // ---------------------------------------------------------------- one rule means what was typed

  /** The prefix a typed match field stands for; none for a blank field or "any". */
  ghost predicate Denotes(lib: Lib, text: string, p: Option<Prefix>) {
    var s := lib.strings.trim(text);
    if s == "" || SameFold(lib, s, "any") then p == None
    else
      && p.Some? && !p.value.addr.family.V4In6?
      && (lib.parsePrefix(s) == p
          || (lib.parseAddr(s) == Some(p.value.addr) && p.value.len == if Is6(p.value.addr) then 128 else 32))
  }

  /** Every address in the kernel rule has the family its flag says. */
  predicate Homogeneous(k: KernelRule) {
    && (k.source.Some? ==> Is6(k.source.value.addr) == k.v6)
    && (k.dest.Some? ==> Is6(k.dest.value.addr) == k.v6)
    && (k.to.Some? ==> Is6(k.to.value) == k.v6 && !k.to.value.family.V4In6?)
  }

  /** The target a typed port-forward names. */
  ghost predicate Forwards(lib: Lib, translate: string, ip: Ip, port: nat) {
    exists rest, t: Target ::
      && CutForward(lib, lib.strings.trim(translate)) == Some(rest)
      && SplitTarget(lib, rest) == Ok(t)
      && lib.parseAddr(t.addr) == Some(ip)
      && (if t.port.None? then port == 0
          else InRange(port) && Atoi(lib.strings.trim(t.port.value)) == Some(port))
  }

  /** The kernel rule does what the operator's fields say, ports aside. */
  ghost predicate Means(lib: Lib, e: Entry, k: KernelRule) {
    var translate := lib.strings.trim(e.translate);
    && Denotes(lib, e.source, k.source) && Denotes(lib, e.dest, k.dest)
    && k.sourceNeg == e.sourceNeg && k.destNeg == e.destNeg
    && (k.sourceNeg ==> k.source.Some?) && (k.destNeg ==> k.dest.Some?)
    && Homogeneous(k)
    && match k.kind
       case DNAT =>
         && k.to.Some? && Forwards(lib, e.translate, k.to.value, k.toPort)
         && k.proto == Lower(lib.strings.trim(e.proto)) && k.inIface == k.outIface == ""
       case Masquerade =>
         && CutForward(lib, translate).None? && IsMasquerade(lib, translate)
         && k.source.Some? && k.to == None && k.outIface == lib.strings.trim(e.iface) != ""
       case SNAT =>
         && CutForward(lib, translate).None? && !IsMasquerade(lib, translate)
         && k.to.Some? && lib.parseAddr(translate) == k.to && k.outIface == ""
  }

  /** Reading a validated field back gives what it denotes, in the family the validator saw. */
  lemma FieldReadsBack(lib: Lib, text: string)
    requires Sound(lib) && ValidCIDR(lib, text).Ok?
    ensures var s := ValidCIDR(lib, text).value;
            && Denotes(lib, text, ParsePfx(lib, s))
            && (s == "" <==> ParsePfx(lib, s).None?)
            && FieldFamily(lib, s) == (match ParsePfx(lib, s)
                                       case Some(p) => Some(Is6(p.addr))
                                       case None => None)
  {
  }

  /** A stored port-forward is read back as the address and remap port it was printed from. */
  lemma ForwardReadsBack(lib: Lib, ip: Ip, port: nat)
    requires Sound(lib) && (port == 0 || InRange(port))
    ensures var text := PORT_FORWARD + TargetText(lib, ip, port);
            && lib.strings.trim(text) == text
            && CutForward(lib, text) == Some(TargetText(lib, ip, port))
            && lib.strings.trim(TargetText(lib, ip, port)) == TargetText(lib, ip, port)
            && SplitTarget(lib, TargetText(lib, ip, port)).Ok?
            && var t := SplitTarget(lib, TargetText(lib, ip, port)).value;
               lib.parseAddr(lib.strings.trim(t.addr)) == Some(ip) && RemapPort(lib, t.port) == port
  {
    var target := TargetText(lib, ip, port);
    var text := PORT_FORWARD + target;
    TargetRoundTrip(lib, ip, port);
    AtoiOfDecimal(port);
    DecimalPlain(port);
    assert Plain(PORT_FORWARD);
    PlainConcat(PORT_FORWARD, target);
    assert text[..|PORT_FORWARD|] == PORT_FORWARD && text[|PORT_FORWARD|..] == target;
  }

  /** The three ways a rule gets past BuildFrom, each with what it stores. */
  lemma BuiltForward(lib: Lib, e: Entry, r: Rule)
    requires Sound(lib) && Build(lib, e) == Ok(r) && CutForward(lib, lib.strings.trim(e.translate)).Some?
    ensures CompileOne(lib, r).Some? && CompileOne(lib, r).value.kind.DNAT? && Means(lib, e, CompileOne(lib, r).value)
  {
    var rest := CutForward(lib, lib.strings.trim(e.translate)).value;
    var t := SplitTarget(lib, rest).value;
    var ip := lib.parseAddr(t.addr).value;
    var port := if t.port.None? then 0 else Atoi(lib.strings.trim(t.port.value)).value;
    FieldReadsBack(lib, e.source);
    FieldReadsBack(lib, e.dest);
    ForwardReadsBack(lib, ip, port);
    assert r.translate == PORT_FORWARD + TargetText(lib, ip, port);
    assert Forwards(lib, e.translate, ip, port);
    assert FieldFamily(lib, t.addr) == Some(Is6(ip));
  }

  lemma BuiltPlain(lib: Lib, e: Entry, r: Rule)
    requires Sound(lib) && Build(lib, e) == Ok(r) && CutForward(lib, lib.strings.trim(e.translate)).None?
    ensures CompileOne(lib, r).Some? && !CompileOne(lib, r).value.kind.DNAT? && Means(lib, e, CompileOne(lib, r).value)
    ensures r.destPort == "" && lib.strings.trim(e.destPort) == ""
  {
    FieldReadsBack(lib, e.source);
    FieldReadsBack(lib, e.dest);
    assert Plain("masquerade") && |"masquerade"| < |PORT_FORWARD|;
  }

  /** Every rule the validator accepts compiles to a kernel rule that means what was typed. */
  lemma AcceptedMeans(lib: Lib, e: Entry, r: Rule)
    requires Sound(lib) && Build(lib, e) == Ok(r)
    ensures CompileOne(lib, r).Some? && Means(lib, e, CompileOne(lib, r).value)
  {
    if CutForward(lib, lib.strings.trim(e.translate)).Some? {
      BuiltForward(lib, e, r);
    } else {
      BuiltPlain(lib, e, r);
    }
  }

  lemma BuildKeepsPort(lib: Lib, e: Entry, r: Rule)
    requires Build(lib, e) == Ok(r)
    ensures r.destPort == lib.strings.trim(e.destPort) && PortSpec(lib, r.destPort).Ok?
    ensures CutForward(lib, lib.strings.trim(e.translate)).None? ==> r.destPort == ""
  {
  }

  lemma CompiledPort(lib: Lib, r: Rule)
    requires CompileOne(lib, r).Some?
    ensures var k := CompileOne(lib, r).value;
            k.ports == if k.kind.DNAT? then KernelPorts(lib, r.destPort) else (0, 0)
  {
  }

  lemma AcceptedKind(lib: Lib, e: Entry, r: Rule)
    requires Sound(lib) && Build(lib, e) == Ok(r)
    ensures CompileOne(lib, r).Some?
    ensures CutForward(lib, lib.strings.trim(e.translate)).Some? ==> CompileOne(lib, r).value.kind.DNAT?
  {
    if CutForward(lib, lib.strings.trim(e.translate)).Some? {
      BuiltForward(lib, e, r);
    } else {
      BuiltPlain(lib, e, r);
    }
  }

  lemma PortsAsStored(lib: Lib, e: Entry, r: Rule)
    requires Sound(lib) && Build(lib, e) == Ok(r)
    ensures CompileOne(lib, r).Some?
    ensures CompileOne(lib, r).value.ports == KernelPorts(lib, lib.strings.trim(e.destPort))
  {
    AcceptedKind(lib, e, r);
    BuildKeepsPort(lib, e, r);
    CompiledPort(lib, r);
  }

  /** Its ports are the validated ones if and only if no plus sign was typed; with one, the rule
      matches every port. */
  lemma AcceptedPorts(lib: Lib, e: Entry, r: Rule)
    requires Sound(lib) && Build(lib, e) == Ok(r)
    ensures CompileOne(lib, r).Some?
    ensures var (typed, ports) := (lib.strings.trim(e.destPort), CompileOne(lib, r).value.ports);
            && (ports == PortSpec(lib, typed).value <==> '+' !in typed)
            && ('+' in typed ==> ports == (0, 0))
  {
    var typed := lib.strings.trim(e.destPort);
    PortsAsStored(lib, e, r);
    PlusIsNotAny(lib, typed);
    PortsReadBack(lib, typed);
  }

  lemma PlusIsNotAny(lib: Lib, text: string)
    requires Sound(lib) && PortSpec(lib, text).Ok? && lib.strings.trim(text) == text
    ensures '+' in text ==> PortSpec(lib, text).value != (0, 0)
  {
  }

  // ---------------------------------------------------------------- the rule list

  function Enabled(rules: seq<Rule>): seq<Rule> {
    if rules == [] then []
    else
      var last := rules[|rules| - 1];
      Enabled(rules[..|rules| - 1]) + if last.enabled then [last] else []
  }

  /** kernelNATRules over the rules of a switched-on configuration. */
  function Compiled(lib: Lib, rules: seq<Rule>): seq<KernelRule> {
    if rules == [] then []
    else
      var last := rules[|rules| - 1];
      Compiled(lib, rules[..|rules| - 1]) +
      (if last.enabled && CompileOne(lib, last).Some? then [CompileOne(lib, last).value] else [])
  }

  /** A rule the editor stored: a validated entry, or the bare masquerade of NATAdd. */
  ghost predicate Stored(lib: Lib, r: Rule) {
    || (exists e: Entry :: Build(lib, e) == Ok(r.(enabled := false)))
    || (r.iface != "" && r == Rule("", "", false, false, "", "", "masquerade", r.iface, r.enabled))
  }

  ghost predicate AllStored(lib: Lib, rules: seq<Rule>) {
    forall i :: 0 <= i < |rules| ==> Stored(lib, rules[i])
  }

  lemma SwitchIsIgnored(lib: Lib, r: Rule)
    ensures CompileOne(lib, r) == CompileOne(lib, r.(enabled := false))
  {
  }

  lemma BareMasqueradeCompiles(lib: Lib, iface: string, on: bool)
    requires Sound(lib)
    ensures var k := CompileOne(lib, Rule("", "", false, false, "", "", "masquerade", iface, on));
            k.Some? && Homogeneous(k.value)
  {
    assert Plain("masquerade") && |"masquerade"| < |PORT_FORWARD|;
  }

  lemma StoredCompiles(lib: Lib, r: Rule)
    requires Sound(lib) && Stored(lib, r)
    ensures CompileOne(lib, r).Some? && Homogeneous(CompileOne(lib, r).value)
  {
    if e: Entry :| Build(lib, e) == Ok(r.(enabled := false)) {
      AcceptedMeans(lib, e, r.(enabled := false));
      SwitchIsIgnored(lib, r);
    } else {
      BareMasqueradeCompiles(lib, r.iface, r.enabled);
    }
  }

  /** Exactly one kernel rule per enabled rule, in rulebase order, each of one family. */
  lemma {:induction false} OneKernelRuleEach(lib: Lib, rules: seq<Rule>)
    requires Sound(lib) && AllStored(lib, rules)
    ensures |Compiled(lib, rules)| == |Enabled(rules)|
    ensures forall k :: 0 <= k < |Enabled(rules)| ==>
              && CompileOne(lib, Enabled(rules)[k]) == Some(Compiled(lib, rules)[k])
              && Homogeneous(Compiled(lib, rules)[k])
  {
    if rules != [] {
      OneKernelRuleEach(lib, rules[..|rules| - 1]);
      StoredCompiles(lib, rules[|rules| - 1]);
    }
  }

  /** The NAT section of the configuration. */
  class NatConfig {
    var enabled: bool
    var rules: seq<Rule>

    /** NATAdd: refuses a second rule for an interface. */
    method NATAdd(iface: string) returns (ok: bool)
      modifies `rules
      ensures ok <==> iface != "" && forall i :: 0 <= i < |old(rules)| ==> old(rules)[i].iface != iface
      ensures rules == if ok then old(rules) + [Rule("", "", false, false, "", "", "masquerade", iface, true)]
                       else old(rules)
      ensures forall lib :: AllStored(lib, old(rules)) ==> AllStored(lib, rules)
    {
      if iface == "" {
        return false;
      }
      for i := 0 to |rules|
        invariant forall k :: 0 <= k < i ==> rules[k].iface != iface
      {
        if rules[i].iface == iface {
          return false;
        }
      }
      rules := rules + [Rule("", "", false, false, "", "", "masquerade", iface, true)];
      ok := true;
    }

    /** NATRuleAddNeg */
    method NATRuleAdd(lib: Lib, e: Entry) returns (ok: bool)
      modifies `rules
      ensures ok <==> Build(lib, e).Ok?
      ensures rules == if ok then old(rules) + [Build(lib, e).value.(enabled := true)] else old(rules)
      ensures AllStored(lib, old(rules)) ==> AllStored(lib, rules)
    {
      var built := Build(lib, e);
      ok := built.Ok?;
      if ok {
        StoredWhenBuilt(lib, e, true);
        rules := rules + [built.value.(enabled := true)];
      }
    }

    /** NATRuleUpdateAtNeg */
    method NATRuleUpdateAt(lib: Lib, idx: int, e: Entry) returns (ok: bool)
      modifies `rules
      ensures ok <==> 0 <= idx < |old(rules)| && Build(lib, e).Ok?
      ensures rules == if ok then old(rules)[idx := Build(lib, e).value.(enabled := old(rules)[idx].enabled)]
                       else old(rules)
      ensures AllStored(lib, old(rules)) ==> AllStored(lib, rules)
    {
      if idx < 0 || idx >= |rules| {
        return false;
      }
      var built := Build(lib, e);
      ok := built.Ok?;
      if ok {
        StoredWhenBuilt(lib, e, rules[idx].enabled);
        rules := rules[idx := built.value.(enabled := rules[idx].enabled)];
      }
    }

    /** NATRuleDeleteAt */
    method NATRuleDeleteAt(idx: int) returns (ok: bool)
      modifies `rules
      ensures ok <==> 0 <= idx < |old(rules)|
      ensures rules == if ok then old(rules)[..idx] + old(rules)[idx + 1..] else old(rules)
      ensures forall lib :: AllStored(lib, old(rules)) ==> AllStored(lib, rules)
    {
      ok := 0 <= idx < |rules|;
      if ok {
        rules := rules[..idx] + rules[idx + 1..];
      }
    }

    /** NATRuleSetEnabled */
    method NATRuleSetEnabled(idx: int, on: bool) returns (ok: bool)
      modifies `rules
      ensures ok <==> 0 <= idx < |old(rules)|
      ensures rules == if ok then old(rules)[idx := old(rules)[idx].(enabled := on)] else old(rules)
      ensures forall lib :: AllStored(lib, old(rules)) ==> AllStored(lib, rules)
    {
      ok := 0 <= idx < |rules|;
      if ok {
        forall lib | Stored(lib, rules[idx])
          ensures Stored(lib, rules[idx].(enabled := on))
        {
          assert rules[idx].(enabled := false) == rules[idx].(enabled := on).(enabled := false);
        }
        rules := rules[idx := rules[idx].(enabled := on)];
      }
    }

    /** kernelNATRules */
    method KernelNATRules(lib: Lib) returns (out: seq<KernelRule>)
      ensures out == if enabled then Compiled(lib, rules) else []
    {
      out := [];
      if enabled {
        for i := 0 to |rules|
          invariant out == Compiled(lib, rules[..i])
        {
          assert rules[..i + 1][..i] == rules[..i];
          if rules[i].enabled && CompileOne(lib, rules[i]).Some? {
            out := out + [CompileOne(lib, rules[i]).value];
          }
        }
        assert rules[..|rules|] == rules;
      }
    }
  }

  lemma StoredWhenBuilt(lib: Lib, e: Entry, on: bool)
    requires Build(lib, e).Ok?
    ensures Stored(lib, Build(lib, e).value.(enabled := on))
  {
    var r := Build(lib, e).value;
    assert r == r.(enabled := on).(enabled := false);
  }
}
