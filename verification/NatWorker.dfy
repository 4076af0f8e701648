/** Handing NAT rulesets to the background worker.

    The reload thread sends each desired ruleset on a channel of capacity one, emptying it
    first when it is full; one worker receives and applies. `Apply` either takes effect or
    fails without changing the kernel. Each action below is atomic; a run is any interleaving. */
module NatWorker {
  import opened Text
  import opened NatCompile

  type Ruleset = seq<KernelRule>

  /** A ruleset in flight, with its position among everything sent. */
  datatype Msg = Msg(at: nat, rules: Ruleset)

  /** The sender: idle; found the channel full; emptied it and about to send again. */
  datatype Sender = Ready | Full(msg: Msg) | Emptied(msg: Msg)

  /** The worker: receiving; about to compare with what was applied last; in `Apply`;
      applied but not yet recorded. */
  datatype Worker = Receiving | Comparing(msg: Msg) | Applying(msg: Msg) | Recording(msg: Msg)

  /** `sent` and `taken` are the history of both ends; `missed` says that the newest taken
      ruleset could not be put into force. */
  datatype State = State(
    pending: Option<Msg>,
    sender: Sender,
    worker: Worker,
    manager: bool,
    last: Ruleset,
    kernel: Ruleset,
    sent: seq<Ruleset>,
    taken: seq<Msg>,
    missed: bool)

  datatype Action =
    | Send(rules: Ruleset) | Empty | SendAgain
    | Take | Compare(managerStarts: bool) | Apply(works: bool) | Record

  predicate CanStep(s: State, a: Action) {
    match a
    case Send(_) => s.sender.Ready?
    case Empty => s.sender.Full?
    case SendAgain => s.sender.Emptied? && s.pending.None?
    case Take => s.worker.Receiving? && s.pending.Some?
    case Compare(_) => s.worker.Comparing?
    case Apply(_) => s.worker.Applying?
    case Record => s.worker.Recording?
  }

  function Step(s: State, a: Action): State
    requires CanStep(s, a)
  {
    match a
    case Send(rules) =>
      var m := Msg(|s.sent|, rules);
      var logged := s.(sent := s.sent + [rules]);
      if s.pending.None? then logged.(pending := Some(m)) else logged.(sender := Full(m))
    case Empty => s.(pending := None, sender := Emptied(s.sender.msg))
    case SendAgain => s.(pending := Some(s.sender.msg), sender := Ready)
    case Take =>
      s.(pending := None, worker := Comparing(s.pending.value), taken := s.taken + [s.pending.value])
    case Compare(managerStarts) =>
      var m := s.worker.msg;
      if s.manager && m.rules == s.last then s.(worker := Receiving, missed := false)
      else if !s.manager && m.rules == [] then s.(worker := Receiving, missed := false)
      else if !s.manager && !managerStarts then s.(worker := Receiving, missed := true)
      else s.(manager := true, worker := Applying(m))
    case Apply(works) =>
      var m := s.worker.msg;
      if works then s.(kernel := m.rules, worker := Recording(m))
      else s.(worker := Receiving, missed := true)
    case Record => s.(last := s.worker.msg.rules, worker := Receiving, missed := false)
  }

  /** The state after the synchronous apply at start-up. */
  function Boot(rules: Ruleset, managerStarts: bool, works: bool): State {
    var manager := rules != [] && managerStarts;
    var applied := if manager && works then rules else [];
    State(None, Ready, Receiving, manager, applied, applied, [rules], [Msg(0, rules)], applied != rules)
  }

  datatype Run = From(rules: Ruleset, managerStarts: bool, works: bool) | Then(run: Run, act: Action)

  predicate IsRun(run: Run)
    decreases run, 0
  {
    run.Then? ==> IsRun(run.run) && CanStep(End(run.run), run.act)
  }

  function End(run: Run): State
    requires IsRun(run)
    decreases run, 1
  {
    match run
    case From(rules, managerStarts, works) => Boot(rules, managerStarts, works)
    case Then(r, a) => Step(End(r), a)
  }

  // ---------------------------------------------------------------- invariant

  predicate IsSent(s: State, m: Msg) {
    m.at < |s.sent| && s.sent[m.at] == m.rules
  }

  predicate Newest(s: State, m: Msg) {
    IsSent(s, m) && m.at == |s.sent| - 1
  }

  ghost predicate History(s: State) {
    && s.taken != []
    && (forall i :: 0 <= i < |s.taken| ==> IsSent(s, s.taken[i]))
    && (forall i, j :: 0 <= i < j < |s.taken| ==> s.taken[i].at < s.taken[j].at)
  }

  function Latest(s: State): Msg
    requires s.taken != []
  {
    s.taken[|s.taken| - 1]
  }

  ghost predicate Channel(s: State)
    requires s.taken != []
  {
    && (s.pending.Some? ==> IsSent(s, s.pending.value) && Latest(s).at < s.pending.value.at)
    && match s.sender
       case Ready => Newest(s, if s.pending.Some? then s.pending.value else Latest(s))
       case Full(m) =>
         Newest(s, m) && Latest(s).at < m.at && (s.pending.Some? ==> s.pending.value.at < m.at)
       case Emptied(m) => Newest(s, m) && Latest(s).at < m.at && s.pending.None?
  }

  ghost predicate Kernel(s: State)
    requires s.taken != []
  {
    && (!s.manager ==> s.last == [])
    && match s.worker
       case Receiving => s.kernel == s.last && (s.missed <==> s.last != Latest(s).rules)
       case Comparing(m) => m == Latest(s) && s.kernel == s.last
       case Applying(m) => m == Latest(s) && s.kernel == s.last && s.manager && m.rules != s.last
       case Recording(m) => m == Latest(s) && s.kernel == m.rules && s.manager
  }

  ghost predicate Inv(s: State) {
    History(s) && Channel(s) && Kernel(s)
  }

  lemma StepKeepsHistory(s: State, a: Action)
    requires Inv(s) && CanStep(s, a)
    ensures History(Step(s, a))
  {
  }

  predicate BySender(a: Action) {
    a.Send? || a.Empty? || a.SendAgain?
  }

  lemma SenderKeepsChannel(s: State, a: Action)
    requires History(s) && Channel(s) && CanStep(s, a) && BySender(a)
    ensures Channel(Step(s, a))
  {
  }

  lemma WorkerKeepsChannel(s: State, a: Action)
    requires History(s) && Channel(s) && CanStep(s, a) && !BySender(a)
    ensures Step(s, a).taken != [] && Channel(Step(s, a))
  {
  }

  lemma StepKeepsKernel(s: State, a: Action)
    requires Inv(s) && CanStep(s, a)
    ensures Step(s, a).taken != [] && Kernel(Step(s, a))
  {
  }

  lemma StepKeepsInv(s: State, a: Action)
    requires Inv(s) && CanStep(s, a)
    ensures Inv(Step(s, a))
  {
    StepKeepsHistory(s, a);
    if BySender(a) {
      SenderKeepsChannel(s, a);
    } else {
      WorkerKeepsChannel(s, a);
    }
    StepKeepsKernel(s, a);
  }

  lemma {:induction false} RunKeepsInv(run: Run)
    requires IsRun(run)
    ensures Inv(End(run))
  {
    if run.Then? {
      RunKeepsInv(run.run);
      StepKeepsInv(End(run.run), run.act);
    }
  }

  // ---------------------------------------------------------------- what every run keeps

  /** The unconditional send that follows emptying the channel never has to wait. */
  lemma {:induction false} SecondSendNeverBlocks(run: Run)
    requires IsRun(run) && End(run).sender.Emptied?
    ensures CanStep(End(run), SendAgain)
  {
    RunKeepsInv(run);
  }

  /** The worker sees a subsequence of what was sent, in order and without repeats. */
  lemma TakenIsASubsequence(run: Run)
    requires IsRun(run)
    ensures var s := End(run);
            && (forall i :: 0 <= i < |s.taken| ==> IsSent(s, s.taken[i]))
            && (forall i, j :: 0 <= i < j < |s.taken| ==> s.taken[i].at < s.taken[j].at)
  {
    RunKeepsInv(run);
  }

  /** The newest ruleset sent is never dropped: the sender still has it, or it waits in the
      channel, or it is the last one the worker took. */
  lemma NewestIsNeverDropped(run: Run)
    requires IsRun(run)
    ensures var s := End(run);
            || (!s.sender.Ready? && Newest(s, s.sender.msg))
            || (s.pending.Some? && Newest(s, s.pending.value))
            || (s.taken != [] && Newest(s, Latest(s)))
  {
    RunKeepsInv(run);
  }

  /** Skipping an apply is right exactly then: with a manager, an unchanged ruleset is skipped
      when and only when the kernel already has it; without one, only an empty ruleset is
      skipped and the kernel has none. */
  lemma SkipsOnlyWhatTheKernelHas(run: Run, managerStarts: bool)
    requires IsRun(run) && End(run).worker.Comparing?
    ensures var s := End(run);
            var t := Step(s, Compare(managerStarts));
            t.worker.Receiving? && !t.missed <==> s.kernel == s.worker.msg.rules
  {
    RunKeepsInv(run);
  }

  predicate Quiet(s: State) {
    s.sender.Ready? && s.pending.None? && s.worker.Receiving?
  }

  /** At rest the kernel, the record and the last ruleset sent agree, unless putting that very
      ruleset into force failed; and they agree only if it did not. */
  lemma QuietMeansCurrent(run: Run)
    requires IsRun(run) && Quiet(End(run))
    ensures var s := End(run);
            && s.sent != [] && s.kernel == s.last
            && (s.kernel == s.sent[|s.sent| - 1] <==> !s.missed)
  {
    RunKeepsInv(run);
  }

  /** A ruleset whose apply failed is attempted again when the next reload sends it unchanged. */
  lemma FailureIsRetried(run: Run)
    requires IsRun(run) && Quiet(End(run)) && End(run).missed
    ensures var s := End(run);
            && s.sent != []
            && (var sending := Step(s, Send(s.sent[|s.sent| - 1]));
                CanStep(sending, Take)
                && Step(Step(sending, Take), Compare(true)).worker.Applying?)
  {
    RunKeepsInv(run);
  }

  // ---------------------------------------------------------------- coming to rest

  function Work(s: State): nat {
    (match s.sender case Ready => 0 case Full(_) => 10 case Emptied(_) => 9)
    + (if s.pending.Some? then 5 else 0)
    + (match s.worker case Receiving => 0 case Comparing(_) => 3 case Applying(_) => 2 case Recording(_) => 1)
  }

  /** From every reachable state both ends come to rest without a further send; if manager and
      applies work from here on, the kernel then has the last ruleset sent. */
  lemma {:induction false} ComesToRest(run: Run) returns (end: Run)
    requires IsRun(run)
    ensures IsRun(end) && Quiet(End(end)) && End(end).sent == End(run).sent != []
    ensures if Quiet(End(run)) then end == run else !End(end).missed
    ensures !End(end).missed ==> End(end).kernel == End(run).sent[|End(run).sent| - 1]
    decreases Work(End(run))
  {
    RunKeepsInv(run);
    var s := End(run);
    if Quiet(s) {
      end := run;
    } else {
      var a := match s.sender
               case Full(_) => Empty
               case Emptied(_) => SendAgain
               case Ready =>
                 match s.worker
                 case Receiving => Take
                 case Comparing(_) => Compare(true)
                 case Applying(_) => Apply(true)
                 case Recording(_) => Record;
      end := ComesToRest(Then(run, a));
    }
  }

  /** Whatever the order of the actions: each one but a new send uses up some of the work left. */
  lemma EveryActionSettles(s: State, a: Action)
    requires CanStep(s, a) && !a.Send?
    ensures Work(Step(s, a)) < Work(s)
  {
  }
}
