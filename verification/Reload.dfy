/** Configuration reload against background network teardown.

    One reload thread (reloads are serialised) shares the engine's network table and the
    `removing` map with the teardown goroutines it launches. Each atomic action of either
    side is one `Action`; a run is any interleaving. The engine is reduced to the table it
    lists (`listed`) and the tunnel devices that exist (`open`). */
module Reload {
  import opened Sets

  type Id = nat
  type Dev = nat
  type Chan = nat

  /** A configured network whose id parsed; the others are skipped by every loop. */
  datatype Net = Net(id: Id, enabled: bool)

  /** Where a teardown goroutine is: about to call RemoveNetwork; network unlisted and its
      device closing; RemoveNetwork returned; map entry deleted, channel not yet closed. */
  datatype Pc = Launched | Closing(dev: Dev) | Returned | Dropped

  datatype Task = Task(id: Id, pc: Pc)

  datatype Thread =
    | Idle
    | Looking(cfg: seq<Net>, i: nat)
    | Blocked(cfg: seq<Net>, i: nat, done: Chan)
    | Listing(cfg: seq<Net>)
    | Visiting(cfg: seq<Net>, running: set<Id>, i: nat)
    | Rebuilding(cfg: seq<Net>, running: set<Id>, i: nat, dev: Dev)
    | Built(cfg: seq<Net>, running: set<Id>, i: nat, dev: Dev)
    | Sweeping(cfg: seq<Net>)
    | Launching(cfg: seq<Net>, todo: seq<Id>)

  /** `last` is what the most recent reload wanted enabled; `clean` says that every build and
      add of that reload succeeded so far. */
  datatype State = State(
    listed: map<Id, Dev>,
    open: map<Dev, Id>,
    removing: map<Id, Chan>,
    closed: set<Chan>,
    tasks: map<Chan, Task>,
    thread: Thread,
    next: nat,
    last: set<Id>,
    clean: bool)

  datatype Action =
    | Begin(cfg: seq<Net>) | Look | Wake | ReadRunning
    | Skip | Rebuild | RebuildClose | BuildFails | Build | Add | EndVisit
    | ReadIds(todo: seq<Id>) | Launch | Finish
    | Unlist(c: Chan) | Missing(c: Chan) | Close(c: Chan) | Drop(c: Chan) | Signal(c: Chan)

  function Desired(cfg: seq<Net>): set<Id> {
    set n | n in cfg && n.enabled :: n.id
  }

  /** Enabled entries differ as numbers; a disabled twin of an enabled entry does no harm. */
  ghost predicate EnabledDistinct(cfg: seq<Net>) {
    forall i, j :: 0 <= i < j < |cfg| && cfg[i].enabled && cfg[j].enabled ==> cfg[i].id != cfg[j].id
  }

  ghost predicate AtVisit(t: Thread) {
    t.Visiting? && t.i < |t.cfg|
  }

  ghost predicate HasTask(s: State, c: Chan, pc: Pc) {
    c in s.tasks && s.tasks[c].pc == pc
  }

  ghost predicate CanStep(s: State, a: Action) {
    var t := s.thread;
    match a
    case Begin(_) => t.Idle?
    case Look => t.Looking? && t.i <= |t.cfg|
    case Wake => t.Blocked? && t.done in s.closed
    case ReadRunning => t.Listing?
    case Skip => AtVisit(t) && (!t.cfg[t.i].enabled || t.cfg[t.i].id in t.running)
    case Rebuild => AtVisit(t) && t.cfg[t.i].enabled && t.cfg[t.i].id in t.running && t.cfg[t.i].id in s.listed
    case RebuildClose => t.Rebuilding? && t.i < |t.cfg|
    case BuildFails => AtVisit(t) && t.cfg[t.i].enabled && t.cfg[t.i].id !in t.running
    case Build => AtVisit(t) && t.cfg[t.i].enabled && t.cfg[t.i].id !in t.running
    case Add => t.Built? && t.i < |t.cfg|
    case EndVisit => t.Visiting? && t.i == |t.cfg|
    case ReadIds(todo) =>
      && t.Sweeping? && NoRepeats(todo)
      && (forall id :: id in todo <==> id in s.listed && id !in Desired(t.cfg))
    case Launch => t.Launching? && t.todo != []
    case Finish => t.Launching? && t.todo == []
    case Unlist(c) => HasTask(s, c, Launched) && s.tasks[c].id in s.listed
    case Missing(c) => HasTask(s, c, Launched) && s.tasks[c].id !in s.listed
    case Close(c) => c in s.tasks && s.tasks[c].pc.Closing?
    case Drop(c) => HasTask(s, c, Returned)
    case Signal(c) => HasTask(s, c, Dropped)
  }

  function Goto(s: State, c: Chan, pc: Pc): State
    requires c in s.tasks
  {
    s.(tasks := s.tasks[c := s.tasks[c].(pc := pc)])
  }

  ghost function Step(s: State, a: Action): State
    requires CanStep(s, a)
  {
    var t := s.thread;
    match a
    case Begin(cfg) => s.(thread := Looking(cfg, 0), last := Desired(cfg), clean := true)
    case Look =>
      if t.i == |t.cfg| then s.(thread := Listing(t.cfg))
      else if t.cfg[t.i].id in s.removing then s.(thread := Blocked(t.cfg, t.i, s.removing[t.cfg[t.i].id]))
      else s.(thread := Looking(t.cfg, t.i + 1))
    case Wake => s.(thread := Looking(t.cfg, t.i + 1))
    case ReadRunning => s.(thread := Visiting(t.cfg, s.listed.Keys, 0))
    case Skip => s.(thread := Visiting(t.cfg, t.running, t.i + 1))
    case Rebuild =>
      var id := t.cfg[t.i].id;
      s.(listed := s.listed - {id}, thread := Rebuilding(t.cfg, t.running, t.i, s.listed[id]))
    case RebuildClose =>
      s.(open := s.open - {t.dev}, thread := Visiting(t.cfg, t.running - {t.cfg[t.i].id}, t.i))
    case BuildFails => s.(thread := Visiting(t.cfg, t.running, t.i + 1), clean := false)
    case Build =>
      s.(open := s.open[s.next := t.cfg[t.i].id], next := s.next + 1,
         thread := Built(t.cfg, t.running, t.i, s.next))
    case Add =>
      var id := t.cfg[t.i].id;
      var visiting := Visiting(t.cfg, t.running, t.i + 1);
      if id in s.listed then s.(open := s.open - {t.dev}, thread := visiting, clean := false)
      else s.(listed := s.listed[id := t.dev], thread := visiting)
    case EndVisit => s.(thread := Sweeping(t.cfg))
    case ReadIds(todo) => s.(thread := Launching(t.cfg, todo))
    case Launch =>
      s.(removing := s.removing[t.todo[0] := s.next],
         tasks := s.tasks[s.next := Task(t.todo[0], Launched)],
         next := s.next + 1,
         thread := Launching(t.cfg, t.todo[1..]))
    case Finish => s.(thread := Idle)
    case Unlist(c) =>
      var id := s.tasks[c].id;
      Goto(s, c, Closing(s.listed[id])).(listed := s.listed - {id})
    case Missing(c) => Goto(s, c, Returned)
    case Close(c) => Goto(s, c, Returned).(open := s.open - {s.tasks[c].pc.dev})
    case Drop(c) => Goto(s, c, Dropped).(removing := s.removing - {s.tasks[c].id})
    case Signal(c) => s.(tasks := s.tasks - {c}, closed := s.closed + {c})
  }

  /** What the daemon relies on around the two threads: no two enabled networks share a numeric
      id (ids are compared as text when a configuration is checked), and a removal launched by an
      earlier reload has unlisted its network before a later reload that omits the network reads
      the engine's table to launch removals. */
  ghost predicate Assumed(s: State, a: Action) {
    match a
    case Begin(cfg) => EnabledDistinct(cfg)
    case ReadIds(_) =>
      s.thread.Sweeping? ==>
        forall c :: c in s.tasks && s.tasks[c].pc == Launched && s.tasks[c].id in s.listed ==>
          exists n :: n in s.thread.cfg && n.id == s.tasks[c].id
    case _ => true
  }

  // ---------------------------------------------------------------- invariant

  ghost predicate Engine(s: State) {
    && (forall id :: id in s.listed ==> s.listed[id] in s.open && s.open[s.listed[id]] == id)
    && (forall d :: d in s.open ==> d < s.next)
    && (forall c :: c in s.tasks ==> c < s.next && c !in s.closed)
    && (forall c :: c in s.closed ==> c < s.next)
  }

  ghost predicate Tasks(s: State) {
    && (forall c :: c in s.tasks && s.tasks[c].pc != Dropped ==>
          s.tasks[c].id in s.removing && s.removing[s.tasks[c].id] == c)
    && (forall id :: id in s.removing ==>
          && s.removing[id] in s.tasks
          && s.tasks[s.removing[id]].id == id
          && s.tasks[s.removing[id]].pc != Dropped)
    && (forall c :: c in s.tasks && s.tasks[c].pc != Dropped ==>
          (s.tasks[c].pc == Launched <==> s.tasks[c].id in s.listed))
    && (forall c :: c in s.tasks && s.tasks[c].pc.Closing? ==>
          && s.tasks[c].pc.dev in s.open
          && s.open[s.tasks[c].pc.dev] == s.tasks[c].id)
  }

  /** The device the reload thread itself has in hand, for the network it is visiting. */
  ghost predicate InHand(t: Thread, d: Dev, id: Id) {
    (t.Rebuilding? || t.Built?) && t.dev == d && t.i < |t.cfg| && t.cfg[t.i].id == id
  }

  ghost predicate Held(s: State, d: Dev)
    requires d in s.open
  {
    var id := s.open[d];
    || (id in s.listed && s.listed[id] == d)
    || (id in s.removing && s.removing[id] in s.tasks && s.tasks[s.removing[id]].pc == Closing(d))
    || InHand(s.thread, d, id)
  }

  ghost predicate Devices(s: State) {
    forall d :: d in s.open ==> Held(s, d)
  }

  ghost predicate Waited(s: State, cfg: seq<Net>, k: nat) {
    forall j :: 0 <= j < k <= |cfg| ==> cfg[j].id !in s.removing
  }

  /** Networks visited so far are up when the reload is clean; the rest are as `running` says. */
  ghost predicate Progress(s: State, cfg: seq<Net>, running: set<Id>, i: nat, from: nat) {
    && (forall j :: from <= j < |cfg| && cfg[j].enabled ==> (cfg[j].id in running <==> cfg[j].id in s.listed))
    && (s.clean ==> forall j :: 0 <= j < i <= |cfg| && cfg[j].enabled ==> cfg[j].id in s.listed)
  }

  ghost predicate ThreadInv(s: State) {
    var t := s.thread;
    match t
    case Idle =>
      && (forall id :: id in s.listed ==> id in s.last || id in s.removing)
      && (forall id :: id in s.last ==> id !in s.removing && (s.clean ==> id in s.listed))
    case Looking(cfg, i) =>
      EnabledDistinct(cfg) && s.last == Desired(cfg) && s.clean && i <= |cfg| && Waited(s, cfg, i)
    case Blocked(cfg, i, done) =>
      && EnabledDistinct(cfg) && s.last == Desired(cfg) && s.clean && i < |cfg| && Waited(s, cfg, i)
      && (cfg[i].id in s.removing ==> s.removing[cfg[i].id] == done)
      && (done in s.closed || done in s.tasks)
    case Listing(cfg) => EnabledDistinct(cfg) && s.last == Desired(cfg) && s.clean && Waited(s, cfg, |cfg|)
    case Visiting(cfg, running, i) =>
      && EnabledDistinct(cfg) && s.last == Desired(cfg) && i <= |cfg| && Waited(s, cfg, |cfg|)
      && Progress(s, cfg, running, i, i)
    case Rebuilding(cfg, running, i, dev) =>
      && EnabledDistinct(cfg) && s.last == Desired(cfg) && i < |cfg| && Waited(s, cfg, |cfg|)
      && Progress(s, cfg, running, i, i + 1) && cfg[i].enabled
      && cfg[i].id !in s.listed && dev in s.open && s.open[dev] == cfg[i].id
    case Built(cfg, running, i, dev) =>
      && EnabledDistinct(cfg) && s.last == Desired(cfg) && i < |cfg| && Waited(s, cfg, |cfg|)
      && Progress(s, cfg, running, i, i + 1) && cfg[i].enabled
      && cfg[i].id !in s.listed && dev in s.open && s.open[dev] == cfg[i].id
    case Sweeping(cfg) =>
      && EnabledDistinct(cfg) && s.last == Desired(cfg) && Waited(s, cfg, |cfg|)
      && (s.clean ==> forall id :: id in s.last ==> id in s.listed)
    case Launching(cfg, todo) =>
      && NoRepeats(todo) && s.last == Desired(cfg)
      && (forall id :: id in todo ==> id in s.listed && id !in s.last && id !in s.removing)
      && (forall id :: id in s.listed ==> id in s.last || id in todo || id in s.removing)
      && (forall id :: id in s.last ==> id !in s.removing && (s.clean ==> id in s.listed))
  }

  ghost predicate Inv(s: State) {
    Engine(s) && Tasks(s) && Devices(s) && ThreadInv(s)
  }

  /** The daemon right after start: what is configured is listed, one device each, nothing
      being torn down. */
  ghost predicate Started(s: State) {
    && s.thread.Idle? && s.removing == map[] && s.tasks == map[] && s.closed == {}
    && s.last == s.listed.Keys
    && (forall id :: id in s.listed ==> s.listed[id] in s.open && s.open[s.listed[id]] == id)
    && (forall d :: d in s.open ==> d < s.next && s.open[d] in s.listed && s.listed[s.open[d]] == d)
  }

  lemma StartedInv(s: State)
    requires Started(s)
    ensures Inv(s)
  {
  }

  ghost predicate ByTask(a: Action) {
    a.Unlist? || a.Missing? || a.Close? || a.Drop? || a.Signal?
  }

  /** The reload thread's actions on devices. */
  ghost predicate OnDevice(a: Action) {
    a.Rebuild? || a.RebuildClose? || a.Build? || a.Add?
  }

  /** Actions that only move the reload thread along. */
  ghost predicate Moves(a: Action) {
    !ByTask(a) && !OnDevice(a) && !a.Launch?
  }

  lemma TaskKeepsEngine(s: State, a: Action)
    requires Engine(s) && Tasks(s) && CanStep(s, a) && ByTask(a)
    ensures Engine(Step(s, a))
  {
  }

  lemma ThreadKeepsEngine(s: State, a: Action)
    requires Engine(s) && ThreadInv(s) && CanStep(s, a) && !ByTask(a)
    ensures Engine(Step(s, a))
  {
  }

  lemma TaskKeepsDevices(s: State, a: Action)
    requires Engine(s) && Tasks(s) && Devices(s) && CanStep(s, a) && ByTask(a)
    ensures Devices(Step(s, a))
  {
    var t := Step(s, a);
    forall d | d in t.open
      ensures Held(t, d)
    {
      assert Held(s, d);
    }
  }

  lemma DeviceKeepsDevices(s: State, a: Action)
    requires Engine(s) && Devices(s) && ThreadInv(s) && CanStep(s, a) && OnDevice(a)
    ensures Devices(Step(s, a))
  {
    var t := Step(s, a);
    forall d | d in t.open
      ensures Held(t, d)
    {
      if d in s.open {
        assert Held(s, d);
      }
    }
  }

  lemma OtherKeepsDevices(s: State, a: Action)
    requires Inv(s) && CanStep(s, a) && (Moves(a) || a.Launch?)
    ensures Devices(Step(s, a))
  {
    var t := Step(s, a);
    forall d | d in t.open
      ensures Held(t, d)
    {
      assert Held(s, d);
    }
  }

  lemma TeardownKeepsTasks(s: State, a: Action)
    requires Engine(s) && Tasks(s) && CanStep(s, a) && (a.Unlist? || a.Missing? || a.Close?)
    ensures Tasks(Step(s, a))
  {
  }

  lemma DeferredKeepsTasks(s: State, a: Action)
    requires Engine(s) && Tasks(s) && CanStep(s, a) && (a.Drop? || a.Signal?)
    ensures Tasks(Step(s, a))
  {
  }

  lemma DeviceKeepsTasks(s: State, a: Action)
    requires Inv(s) && CanStep(s, a) && OnDevice(a)
    ensures Tasks(Step(s, a))
  {
  }

  lemma LaunchKeepsTasks(s: State)
    requires Inv(s) && CanStep(s, Launch)
    ensures Tasks(Step(s, Launch))
  {
  }

  /** All that a teardown of network `id` may change under the reload thread. */
  ghost predicate TaskSide(s: State, t: State, id: Id) {
    && t.thread == s.thread && t.last == s.last && t.clean == s.clean
    && (id in s.removing || (t.listed == s.listed && t.removing == s.removing && t.open == s.open))
    && (forall x :: x != id ==> (x in s.listed <==> x in t.listed) && (x in s.removing <==> x in t.removing))
    && (forall x :: x in t.removing ==> x in s.removing && t.removing[x] == s.removing[x])
    && t.listed.Keys <= s.listed.Keys
    && (id in s.removing ==> id in t.removing || id !in t.listed)
    && (forall c :: c in s.closed || c in s.tasks ==> c in t.closed || c in t.tasks)
    && (forall d :: d in s.open && s.open[d] != id ==> d in t.open && t.open[d] == s.open[d])
  }

  lemma TaskActsOnItsSide(s: State, a: Action)
    requires Engine(s) && Tasks(s) && CanStep(s, a) && ByTask(a)
    ensures TaskSide(s, Step(s, a), s.tasks[a.c].id)
  {
  }

  lemma TaskKeepsThread(s: State, t: State, id: Id)
    requires ThreadInv(s) && TaskSide(s, t, id)
    ensures ThreadInv(t)
  {
  }

  lemma TaskStepKeepsThread(s: State, a: Action)
    requires Engine(s) && Tasks(s) && ThreadInv(s) && CanStep(s, a) && ByTask(a)
    ensures ThreadInv(Step(s, a))
  {
    TaskActsOnItsSide(s, a);
    TaskKeepsThread(s, Step(s, a), s.tasks[a.c].id);
  }

  lemma MoveKeepsThread(s: State, a: Action)
    requires Engine(s) && Tasks(s) && ThreadInv(s) && CanStep(s, a) && Assumed(s, a) && Moves(a)
    ensures ThreadInv(Step(s, a))
  {
  }

  lemma RebuildKeepsThread(s: State, a: Action)
    requires Inv(s) && CanStep(s, a) && (a.Rebuild? || a.RebuildClose?)
    ensures ThreadInv(Step(s, a))
  {
  }

  lemma BuildKeepsThread(s: State, a: Action)
    requires Inv(s) && CanStep(s, a) && (a.Build? || a.Add?)
    ensures ThreadInv(Step(s, a))
  {
  }

  lemma LaunchKeepsThread(s: State)
    requires Inv(s) && CanStep(s, Launch)
    ensures ThreadInv(Step(s, Launch))
  {
  }

  lemma StepKeepsTasks(s: State, a: Action)
    requires Inv(s) && CanStep(s, a)
    ensures Tasks(Step(s, a))
  {
    if a.Drop? || a.Signal? {
      DeferredKeepsTasks(s, a);
    } else if ByTask(a) {
      TeardownKeepsTasks(s, a);
    } else if OnDevice(a) {
      DeviceKeepsTasks(s, a);
    } else if a.Launch? {
      LaunchKeepsTasks(s);
    }
  }

  lemma StepKeepsThread(s: State, a: Action)
    requires Inv(s) && CanStep(s, a) && Assumed(s, a)
    ensures ThreadInv(Step(s, a))
  {
    if ByTask(a) {
      TaskStepKeepsThread(s, a);
    } else if Moves(a) {
      MoveKeepsThread(s, a);
    } else if a.Launch? {
      LaunchKeepsThread(s);
    } else if a.Build? || a.Add? {
      BuildKeepsThread(s, a);
    } else {
      RebuildKeepsThread(s, a);
    }
  }

  lemma StepKeepsInv(s: State, a: Action)
    requires Inv(s) && CanStep(s, a) && Assumed(s, a)
    ensures Inv(Step(s, a))
  {
    if ByTask(a) {
      TaskKeepsEngine(s, a);
      TaskKeepsDevices(s, a);
    } else {
      ThreadKeepsEngine(s, a);
      if OnDevice(a) {
        DeviceKeepsDevices(s, a);
      } else {
        OtherKeepsDevices(s, a);
      }
    }
    StepKeepsTasks(s, a);
    StepKeepsThread(s, a);
  }

  // ---------------------------------------------------------------- whole runs

  /** A run, as the state it started in and the actions taken since. */
  datatype Run = From(start: State) | Then(run: Run, act: Action)

  function Start(run: Run): State {
    match run
    case From(s) => s
    case Then(r, _) => Start(r)
  }

  ghost predicate IsRun(run: Run)
    decreases run, 0
  {
    run.Then? ==> IsRun(run.run) && CanStep(End(run.run), run.act)
  }

  ghost function End(run: Run): State
    requires IsRun(run)
    decreases run, 1
  {
    match run
    case From(s) => s
    case Then(r, a) => Step(End(r), a)
  }

  ghost predicate AssumedAlong(run: Run)
    requires IsRun(run)
  {
    run.Then? ==> AssumedAlong(run.run) && Assumed(End(run.run), run.act)
  }

  /** `run` begins with all of `prefix`. */
  ghost predicate Extends(run: Run, prefix: Run) {
    run == prefix || (run.Then? && Extends(run.run, prefix))
  }

  lemma {:induction false} ExtendsBefore(run: Run, prefix: Run)
    requires prefix.Then? && Extends(run, prefix)
    ensures Extends(run, prefix.run)
  {
    if run != prefix {
      ExtendsBefore(run.run, prefix);
    }
  }

  /** A run of the daemon from its start that meets the assumptions at every action. */
  ghost predicate Execution(run: Run) {
    Started(Start(run)) && IsRun(run) && AssumedAlong(run)
  }

  lemma {:induction false} RunKeepsInv(run: Run)
    requires Execution(run)
    ensures Inv(End(run))
  {
    match run {
      case From(s) => StartedInv(s);
      case Then(r, a) =>
        RunKeepsInv(r);
        StepKeepsInv(End(r), a);
    }
  }

  ghost predicate OneDevicePerNetwork(s: State) {
    forall d, e :: d in s.open && e in s.open && s.open[d] == s.open[e] ==> d == e
  }

  lemma InvGivesOneDevice(s: State)
    requires Engine(s) && Tasks(s) && Devices(s) && ThreadInv(s)
    ensures OneDevicePerNetwork(s)
  {
    forall d, e | d in s.open && e in s.open && s.open[d] == s.open[e]
      ensures d == e
    {
      assert Held(s, d) && Held(s, e);
    }
  }

  /** In every reachable state no network has two live devices. */
  lemma AtMostOneDevice(run: Run)
    requires Execution(run)
    ensures OneDevicePerNetwork(End(run))
  {
    RunKeepsInv(run);
    InvGivesOneDevice(End(run));
  }

  /** Whenever a reload is about to open a device for a network, nothing of that network is
      being torn down and no device of it exists. */
  lemma BuildIsExclusive(run: Run)
    requires Execution(run)
    requires CanStep(End(run), Build)
    ensures var t := End(run);
            var id := t.thread.cfg[t.thread.i].id;
            && (forall c :: c in t.tasks && t.tasks[c].id == id ==> t.tasks[c].pc == Dropped)
            && (forall d :: d in t.open ==> t.open[d] != id)
            && id !in t.listed
  {
    RunKeepsInv(run);
    var t := End(run);
    forall d | d in t.open
      ensures t.open[d] != t.thread.cfg[t.thread.i].id
    {
      assert Held(t, d);
    }
  }

  // ---------------------------------------------------------------- draining and convergence

  ghost predicate Quiet(s: State) {
    s.thread.Idle? && s.tasks == map[]
  }

  /** The engine runs exactly the networks the last reload wanted, each on its one device; no
      other device is left and nothing is being removed. */
  ghost predicate AsWanted(s: State) {
    && s.listed.Keys == s.last
    && s.removing == map[]
    && (forall d :: d in s.open ==> s.open[d] in s.listed && s.listed[s.open[d]] == d)
  }

  /** So it is once everything has drained after a reload whose builds and adds all worked. */
  lemma Converges(run: Run)
    requires Execution(run)
    ensures Quiet(End(run)) && End(run).clean ==> AsWanted(End(run))
  {
    RunKeepsInv(run);
    var t := End(run);
    if Quiet(t) && t.clean {
      assert forall id :: id !in t.removing;
      forall d | d in t.open
        ensures t.open[d] in t.listed && t.listed[t.open[d]] == d
      {
        assert Held(t, d);
      }
    }
  }

  /** Neither side ever waits for something that cannot happen: short of a quiet state, some
      action other than starting a new reload is possible, one that meets the assumptions and is
      no failure to build. */
  lemma NoDeadlock(s: State) returns (a: Action)
    requires Inv(s) && !Quiet(s)
    ensures CanStep(s, a) && Assumed(s, a) && !a.Begin? && !a.BuildFails?
  {
    if s.tasks != map[] {
      var c :| c in s.tasks;
      a := match s.tasks[c].pc
           case Launched => Unlist(c)
           case Closing(_) => Close(c)
           case Returned => Drop(c)
           case Dropped => Signal(c);
    } else {
      match s.thread {
        case Looking(_, _) => a := Look;
        case Blocked(_, _, _) => a := Wake;
        case Listing(_) => a := ReadRunning;
        case Visiting(cfg, running, i) =>
          a := if i == |cfg| then EndVisit
               else if !cfg[i].enabled || cfg[i].id in running then Skip
               else Build;
        case Rebuilding(_, _, _, _) => a := RebuildClose;
        case Built(_, _, _, _) => a := Add;
        case Sweeping(cfg) =>
          var todo := Enumerate(s.listed.Keys - Desired(cfg));
          a := ReadIds(todo);
        case Launching(_, todo) => a := if todo == [] then Finish else Launch;
      }
    }
  }

  lemma Enumerate(ids: set<Id>) returns (todo: seq<Id>)
    ensures NoRepeats(todo) && forall x :: x in todo <==> x in ids
  {
    if ids == {} {
      todo := [];
    } else {
      var x :| x in ids;
      var rest := Enumerate(ids - {x});
      todo := [x] + rest;
    }
  }

  function Phase(t: Thread): nat {
    match t
    case Looking(_, _) => 5
    case Blocked(_, _, _) => 5
    case Listing(_) => 4
    case Visiting(_, _, _) => 3
    case Rebuilding(_, _, _, _) => 3
    case Built(_, _, _, _) => 3
    case Sweeping(_) => 2
    case Launching(_, _) => 1
    case Idle => 0
  }

  function Inner(t: Thread): int {
    match t
    case Looking(cfg, i) => 2 * (|cfg| - i) + 1
    case Blocked(cfg, i, _) => 2 * (|cfg| - i)
    case Visiting(cfg, running, i) =>
      5 * (|cfg| - i) + (if i < |cfg| && cfg[i].id in running then 4 else 2)
    case Rebuilding(cfg, _, i, _) => 5 * (|cfg| - i) + 3
    case Built(cfg, _, i, _) => 5 * (|cfg| - i) + 1
    case Launching(_, todo) => |todo|
    case _ => 0
  }

  function Rank(pc: Pc): nat {
    match pc
    case Launched => 3
    case Closing(_) => 2
    case Returned => 1
    case Dropped => 0
  }

  function AtLeast(tasks: map<Chan, Task>, k: nat): set<Chan> {
    set c | c in tasks && k <= Rank(tasks[c].pc)
  }

  function ActionsLeft(tasks: map<Chan, Task>): nat {
    |AtLeast(tasks, 0)| + |AtLeast(tasks, 1)| + |AtLeast(tasks, 2)| + |AtLeast(tasks, 3)|
  }

  lemma ThreadDrains(s: State, a: Action)
    requires ThreadInv(s) && CanStep(s, a) && !ByTask(a) && !a.Begin?
    ensures var t := Step(s, a);
            || Phase(t.thread) < Phase(s.thread)
            || (Phase(t.thread) == Phase(s.thread) && 0 <= Inner(t.thread) < Inner(s.thread))
  {
    match a {
      case Look =>
      case RebuildClose =>
      case Add =>
      case _ =>
    }
  }

  /** Every action but the start of another reload uses up part of a bounded budget, so a
      reload and the removals it launched always come to an end. */
  lemma EveryActionDrains(s: State, a: Action)
    requires Inv(s) && CanStep(s, a) && !a.Begin?
    ensures var t := Step(s, a);
            || Phase(t.thread) < Phase(s.thread)
            || (Phase(t.thread) == Phase(s.thread) && 0 <= Inner(t.thread) < Inner(s.thread))
            || (t.thread == s.thread && ActionsLeft(t.tasks) < ActionsLeft(s.tasks))
  {
    if ByTask(a) {
      TaskDrains(s, Step(s, a), a.c);
    } else {
      ThreadDrains(s, a);
    }
  }

  lemma TaskDrains(s: State, t: State, c: Chan)
    requires c in s.tasks && t.tasks.Keys <= s.tasks.Keys
    requires forall d :: d in s.tasks && d != c ==> d in t.tasks && t.tasks[d] == s.tasks[d]
    requires c in t.tasks ==> Rank(t.tasks[c].pc) < Rank(s.tasks[c].pc)
    ensures ActionsLeft(t.tasks) < ActionsLeft(s.tasks)
  {
    forall k: nat
      ensures |AtLeast(t.tasks, k)| <= |AtLeast(s.tasks, k)|
    {
      SubsetCard(AtLeast(t.tasks, k), AtLeast(s.tasks, k));
    }
    var k := Rank(s.tasks[c].pc);
    ProperCard(AtLeast(t.tasks, k), AtLeast(s.tasks, k), c);
    assert k == 0 || k == 1 || k == 2 || k == 3;
  }

  lemma ProperCard(a: set<Chan>, b: set<Chan>, c: Chan)
    requires a <= b && c in b && c !in a
    ensures |a| < |b|
  {
    SubsetCard(a, b - {c});
  }

  /** An add that finds the network listed after all closes the device it brought and marks the
      reload as not clean; what is listed stays. */
  lemma RefusedAddCloses(s: State)
    requires CanStep(s, Add) && s.thread.cfg[s.thread.i].id in s.listed
    ensures var t := Step(s, Add);
            s.thread.dev !in t.open && t.listed == s.listed && !t.clean && t.open == s.open - {s.thread.dev}
  {
  }

  /** An action that is no failure leaves what the reload wants, and its success so far, alone. */
  lemma GoesWell(s: State, a: Action)
    requires ThreadInv(s) && CanStep(s, a) && !a.Begin? && !a.BuildFails?
    ensures Step(s, a).last == s.last && Step(s, a).clean == s.clean
  {
  }

  /** From every reachable state both sides come to rest without a further reload; if every build
      of the last reload worked so far, and builds work from here on, exactly the networks it
      wanted then run, each on its one device. */
  lemma {:induction false} ComesToRest(run: Run) returns (end: Run)
    requires Execution(run)
    ensures Execution(end) && Extends(end, run) && Quiet(End(end))
    ensures End(end).last == End(run).last && End(end).clean == End(run).clean
    ensures End(run).clean ==> AsWanted(End(end))
    decreases Phase(End(run).thread), Inner(End(run).thread), ActionsLeft(End(run).tasks)
  {
    RunKeepsInv(run);
    var s := End(run);
    if Quiet(s) {
      end := run;
      Converges(run);
    } else {
      var a := NoDeadlock(s);
      EveryActionDrains(s, a);
      GoesWell(s, a);
      end := ComesToRest(Then(run, a));
      ExtendsBefore(end, Then(run, a));
    }
  }
}
