/** The assumptions of Reload are exact: wherever one of them is broken, the run can go on to two
    live devices for one network. */
module ReloadBroken {
  import opened Reload
  import opened Sets

  lemma {:induction false} SameStart(run: Run, prefix: Run)
    requires Extends(run, prefix)
    ensures Start(run) == Start(prefix)
  {
    if run != prefix {
      SameStart(run.run, prefix);
    }
  }

  /** One more action. */
  lemma Take(run: Run, a: Action, from: Run) returns (more: Run)
    requires IsRun(run) && CanStep(End(run), a) && Extends(run, from)
    ensures IsRun(more) && Extends(more, from) && more == Then(run, a) && End(more) == Step(End(run), a)
  {
    more := Then(run, a);
  }

  // ---------------------------------------------------------------- tearing down what is left

  /** Listed networks have an open device, and device numbers are not used twice. */
  ghost predicate Devised(s: State) {
    && (forall id :: id in s.listed ==> s.listed[id] in s.open && s.open[s.listed[id]] == id)
    && (forall d :: d in s.open ==> d < s.next)
  }

  lemma TearDown(s: State, a: Action)
    requires Engine(s) && Tasks(s) && CanStep(s, a) && ByTask(a)
    ensures var t := Step(s, a);
            Engine(t) && Tasks(t) && t.thread == s.thread && ActionsLeft(t.tasks) < ActionsLeft(s.tasks)
  {
    TaskKeepsEngine(s, a);
    if a.Drop? || a.Signal? {
      DeferredKeepsTasks(s, a);
    } else {
      TeardownKeepsTasks(s, a);
    }
    TaskDrains(s, Step(s, a), a.c);
  }

  /** Whatever the reload thread is about to do, the teardowns in flight can end first. */
  lemma {:induction false} Drain(run: Run, from: Run) returns (more: Run)
    requires IsRun(run) && Engine(End(run)) && Tasks(End(run)) && Extends(run, from)
    ensures IsRun(more) && Extends(more, from) && Devised(End(more))
    ensures End(more).tasks == map[] && End(more).removing == map[] && End(more).thread == End(run).thread
    decreases ActionsLeft(End(run).tasks)
  {
    var s := End(run);
    if s.tasks == map[] {
      more := run;
      assert forall id :: id !in s.removing;
    } else {
      var c :| c in s.tasks;
      var a := match s.tasks[c].pc
               case Launched => if s.tasks[c].id in s.listed then Unlist(c) else Missing(c)
               case Closing(_) => Close(c)
               case Returned => Drop(c)
               case Dropped => Signal(c);
      TearDown(s, a);
      var next := Take(run, a, from);
      more := Drain(next, from);
    }
  }

  // ---------------------------------------------------------------- two enabled entries, one id

  /** What does not change while nothing is torn down and no entry is built. */
  ghost predicate SameEngine(s: State, t: State) {
    t.listed == s.listed && t.open == s.open && t.next == s.next && t.removing == map[] && t.tasks == map[]
  }

  lemma {:induction false} LookAll(run: Run, i: nat, from: Run) returns (more: Run)
    requires IsRun(run) && Extends(run, from)
    requires var t := End(run).thread; t.Looking? && t.i == i <= |t.cfg|
    requires End(run).tasks == map[] && End(run).removing == map[]
    ensures IsRun(more) && Extends(more, from)
    ensures SameEngine(End(run), End(more))
    ensures var cfg := End(run).thread.cfg;
            End(more).thread == Visiting(cfg, End(run).listed.Keys, 0)
    decreases |End(run).thread.cfg| - i
  {
    var next := Take(run, Look, from);
    if i == |End(run).thread.cfg| {
      more := Take(next, ReadRunning, from);
    } else {
      more := LookAll(next, i + 1, from);
    }
  }

  /** Passing entries by: they are up already, disabled, or cannot be built. */
  lemma {:induction false} PassTo(run: Run, k: nat, from: Run) returns (more: Run)
    requires IsRun(run) && Extends(run, from) && End(run).tasks == map[] && End(run).removing == map[]
    requires var t := End(run).thread; t.Visiting? && t.i <= k <= |t.cfg|
    ensures IsRun(more) && Extends(more, from) && SameEngine(End(run), End(more))
    ensures var t := End(run).thread; End(more).thread == Visiting(t.cfg, t.running, k)
    decreases k - End(run).thread.i
  {
    var t := End(run).thread;
    if t.i == k {
      more := run;
    } else {
      var n := t.cfg[t.i];
      var next := Take(run, if !n.enabled || n.id in t.running then Skip else BuildFails, from);
      more := PassTo(next, k, from);
    }
  }

  /** Entry i is built and added; one that was up has its address changed first. */
  lemma BuildEntry(run: Run, from: Run) returns (more: Run)
    requires IsRun(run) && Extends(run, from) && Devised(End(run))
    requires End(run).tasks == map[] && End(run).removing == map[]
    requires var t := End(run).thread;
             AtVisit(t) && t.cfg[t.i].enabled && (t.cfg[t.i].id in t.running <==> t.cfg[t.i].id in End(run).listed)
    ensures IsRun(more) && Extends(more, from) && End(more).tasks == map[] && End(more).removing == map[]
    ensures var t, u := End(run).thread, End(more);
            var id := t.cfg[t.i].id;
            && u.thread.Visiting? && u.thread.cfg == t.cfg && u.thread.i == t.i + 1
            && id !in u.thread.running
            && id in u.listed && u.listed[id] in u.open && u.open[u.listed[id]] == id && u.listed[id] < u.next
  {
    var t := End(run).thread;
    var id := t.cfg[t.i].id;
    more := run;
    if id in t.running {
      more := Take(more, Rebuild, from);
      more := Take(more, RebuildClose, from);
    }
    more := Take(more, Build, from);
    more := Take(more, Add, from);
  }

  /** The first entry is up; passing on to its twin builds the network again. */
  lemma BuildTwin(run: Run, j: nat, from: Run) returns (more: Run)
    requires IsRun(run) && Extends(run, from) && End(run).tasks == map[] && End(run).removing == map[]
    requires var t := End(run).thread; t.Visiting? && t.i <= j < |t.cfg| && t.cfg[j].enabled
    requires var s := End(run);
             var id := s.thread.cfg[j].id;
             && id !in s.thread.running && id in s.listed
             && s.listed[id] in s.open && s.open[s.listed[id]] == id && s.listed[id] < s.next
    ensures IsRun(more) && Extends(more, from) && !OneDevicePerNetwork(End(more))
  {
    var id := End(run).thread.cfg[j].id;
    var first, second := End(run).listed[id], End(run).next;
    more := PassTo(run, j, from);
    more := Take(more, Build, from);
    assert End(more).open[first] == End(more).open[second];
  }

  /** A reload gets to entry i with everything torn down and nothing else changed. */
  lemma ReachEntry(run: Run, cfg: seq<Net>, i: nat) returns (more: Run)
    requires IsRun(run) && Engine(End(run)) && Tasks(End(run)) && End(run).thread.Idle? && i <= |cfg|
    ensures IsRun(more) && Extends(more, Then(run, Begin(cfg))) && Devised(End(more))
    ensures End(more).tasks == map[] && End(more).removing == map[]
    ensures End(more).thread == Visiting(cfg, End(more).listed.Keys, i)
  {
    var from := Then(run, Begin(cfg));
    more := Drain(from, from);
    more := LookAll(more, 0, from);
    more := PassTo(more, i, from);
  }

  /** Two enabled entries with one numeric id: both can be built in a single reload. */
  lemma TwinsBuildTwice(run: Run, cfg: seq<Net>) returns (more: Run)
    requires IsRun(run) && Engine(End(run)) && Tasks(End(run)) && End(run).thread.Idle? && !EnabledDistinct(cfg)
    ensures IsRun(more) && Extends(more, Then(run, Begin(cfg))) && !OneDevicePerNetwork(End(more))
  {
    var i, j :| 0 <= i < j < |cfg| && cfg[i].enabled && cfg[j].enabled && cfg[i].id == cfg[j].id;
    var from := Then(run, Begin(cfg));
    more := ReachEntry(run, cfg, i);
    more := BuildEntry(more, from);
    more := BuildTwin(more, j, from);
  }

  // ---------------------------------------------------------------- overlapping removals

  /** Task c is about to remove network `id`, which is still listed on its device. */
  ghost predicate Overlapped(s: State, c: Chan, id: Id, dev: Dev) {
    && HasTask(s, c, Launched) && s.tasks[c].id == id && c < s.next
    && id in s.listed && s.listed[id] == dev && dev in s.open && s.open[dev] == id && dev < s.next
  }

  /** And so is a second task, whose entry is the one in the map. */
  ghost predicate Doubled(s: State, c: Chan, d: Chan, id: Id, dev: Dev) {
    && Overlapped(s, c, id, dev) && c != d && d < s.next
    && HasTask(s, d, Launched) && s.tasks[d].id == id
    && id in s.removing && s.removing[id] == d
  }

  lemma {:induction false} LaunchRest(run: Run, c: Chan, d: Chan, id: Id, dev: Dev, from: Run) returns (more: Run)
    requires IsRun(run) && Extends(run, from) && End(run).thread.Launching?
    requires id !in End(run).thread.todo && Doubled(End(run), c, d, id, dev)
    ensures IsRun(more) && Extends(more, from) && End(more).thread.Idle? && Doubled(End(more), c, d, id, dev)
    decreases |End(run).thread.todo|
  {
    if End(run).thread.todo == [] {
      more := Take(run, Finish, from);
    } else {
      var next := Take(run, Launch, from);
      more := LaunchRest(next, c, d, id, dev, from);
    }
  }

  lemma {:induction false} LaunchUntil(run: Run, c: Chan, id: Id, dev: Dev, from: Run) returns (more: Run, d: Chan)
    requires IsRun(run) && Extends(run, from) && End(run).thread.Launching?
    requires NoRepeats(End(run).thread.todo) && id in End(run).thread.todo && Overlapped(End(run), c, id, dev)
    ensures IsRun(more) && Extends(more, from) && End(more).thread.Idle? && Doubled(End(more), c, d, id, dev)
    decreases |End(run).thread.todo|
  {
    var todo := End(run).thread.todo;
    var next := Take(run, Launch, from);
    if todo[0] == id {
      d := End(run).next;
      more := LaunchRest(next, c, d, id, dev, from);
    } else {
      more, d := LaunchUntil(next, c, id, dev, from);
    }
  }

  /** The network is neither listed nor waited for, and a device of it is open. */
  ghost predicate LeftOpen(s: State, id: Id, dev: Dev) {
    id !in s.listed && id !in s.removing && dev in s.open && s.open[dev] == id && dev < s.next
  }

  /** The first removal unlists the network; the second fails at once and its deferred delete
      drops the only map entry. */
  lemma EntryDropped(run: Run, c: Chan, d: Chan, id: Id, dev: Dev, from: Run) returns (more: Run)
    requires IsRun(run) && Extends(run, from) && End(run).thread.Idle? && Doubled(End(run), c, d, id, dev)
    ensures IsRun(more) && Extends(more, from) && End(more).thread.Idle?
    ensures LeftOpen(End(more), id, dev)
  {
    more := Take(run, Unlist(c), from);
    more := Take(more, Missing(d), from);
    more := Take(more, Drop(d), from);
  }

  /** The network is wanted again, and nobody waits for its device. */
  lemma SecondDevice(run: Run, id: Id, dev: Dev, from: Run) returns (more: Run)
    requires IsRun(run) && Extends(run, from) && End(run).thread.Idle?
    requires LeftOpen(End(run), id, dev)
    ensures IsRun(more) && Extends(more, from) && !OneDevicePerNetwork(End(more))
  {
    var second := End(run).next;
    more := Take(run, Begin([Net(id, true)]), from);
    more := Take(more, Look, from);
    more := Take(more, Look, from);
    more := Take(more, ReadRunning, from);
    more := Take(more, Build, from);
    assert End(more).open[dev] == End(more).open[second];
  }

  /** A reload reads the ids while a removal of a network it does not want has not unlisted it. */
  lemma OverlapBuildsTwice(run: Run, todo: seq<Id>) returns (more: Run)
    requires IsRun(run) && Inv(End(run)) && CanStep(End(run), ReadIds(todo)) && !Assumed(End(run), ReadIds(todo))
    ensures IsRun(more) && Extends(more, Then(run, ReadIds(todo))) && !OneDevicePerNetwork(End(more))
  {
    var s := End(run);
    var cfg := s.thread.cfg;
    var c :| c in s.tasks && s.tasks[c].pc == Launched && s.tasks[c].id in s.listed &&
             !exists n :: n in cfg && n.id == s.tasks[c].id;
    var id := s.tasks[c].id;
    var from := Then(run, ReadIds(todo));
    assert id !in Desired(cfg);
    var d;
    more, d := LaunchUntil(from, c, id, s.listed[id], from);
    more := EntryDropped(more, c, d, id, s.listed[id], from);
    more := SecondDevice(more, id, s.listed[id], from);
  }

  // ---------------------------------------------------------------- exactness

  /** Every run that meets the assumptions keeps one device per network (AtMostOneDevice), and as
      soon as an action breaks one of them, some way of going on gives a network two. */
  lemma BrokenAssumptionBuildsTwice(run: Run, a: Action) returns (more: Run)
    requires Execution(run) && CanStep(End(run), a) && !Assumed(End(run), a)
    ensures IsRun(more) && Extends(more, Then(run, a)) && !OneDevicePerNetwork(End(more))
  {
    RunKeepsInv(run);
    match a {
      case Begin(cfg) => more := TwinsBuildTwice(run, cfg);
      case ReadIds(todo) => more := OverlapBuildsTwice(run, todo);
    }
  }

  // ---------------------------------------------------------------- such states are reached

  /** The daemon with network `id` running on device 0. */
  function Running(id: Id): State {
    State(map[id := 0], map[0 := id], map[], {}, map[], Idle, 1, {id}, true)
  }

  lemma TakeAssumed(run: Run, a: Action) returns (more: Run)
    requires IsRun(run) && CanStep(End(run), a) && AssumedAlong(run) && Assumed(End(run), a)
    ensures IsRun(more) && AssumedAlong(more) && Start(more) == Start(run) && End(more) == Step(End(run), a)
  {
    more := Then(run, a);
  }

  /** A reload that wants nothing, up to the point where it reads the engine's ids. */
  lemma VisitNothing(run: Run) returns (more: Run)
    requires IsRun(run) && End(run).thread.Idle? && AssumedAlong(run)
    ensures IsRun(more) && AssumedAlong(more) && Start(more) == Start(run)
    ensures End(more) == End(run).(last := {}, clean := true, thread := Sweeping([]))
  {
    more := TakeAssumed(run, Begin([]));
    more := TakeAssumed(more, Look);
    more := TakeAssumed(more, ReadRunning);
    more := TakeAssumed(more, EndVisit);
  }

  /** A reload that omits the network, with its removal launched and not begun. */
  lemma OmitOnce(id: Id) returns (run: Run)
    ensures IsRun(run) && AssumedAlong(run) && Start(run) == Running(id) && End(run).thread.Idle?
    ensures HasTask(End(run), 1, Launched) && End(run).tasks[1].id == id && End(run).listed == map[id := 0]
  {
    run := VisitNothing(From(Running(id)));
    run := TakeAssumed(run, ReadIds([id]));
    run := TakeAssumed(run, Launch);
    run := TakeAssumed(run, Finish);
  }

  /** From a daemon that runs one network, two reloads in a row that omit it reach a state where
      the second reads the ids before the first removal has begun. */
  lemma OverlapIsReached(id: Id) returns (run: Run)
    ensures Execution(run) && Start(run) == Running(id)
    ensures CanStep(End(run), ReadIds([id])) && !Assumed(End(run), ReadIds([id]))
  {
    run := OmitOnce(id);
    run := VisitNothing(run);
    assert Started(Running(id));
  }

  /** So that daemon can end with two devices for its one network. */
  lemma OverlappingRemovalsBuildTwice(id: Id) returns (run: Run)
    ensures Started(Running(id)) && Start(run) == Running(id) && IsRun(run) && !OneDevicePerNetwork(End(run))
  {
    var overlap := OverlapIsReached(id);
    run := BrokenAssumptionBuildsTwice(overlap, ReadIds([id]));
    SameStart(run, Then(overlap, ReadIds([id])));
  }
}
