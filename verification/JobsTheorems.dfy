/** Sleeping threads stay blocked until their wake time, wake at the first update that reaches it, and after every update
    each job says what its thread does. */
module JobsTheorems {
  import opened SchedSpec
  import opened SchedRuns
  import opened JobsSpec

  // ---- one update, seen from one job ----

  /** A job with the slot and the state of its thread; slot -1 when there is none. */
  datatype View = View(job: Job, slot: int, state: ThreadState)

  function ViewOf(s: Sys, j: nat): View
    requires j < 32
  {
    var t := GetThread(s.sched, s.jobs[j].tid);
    View(s.jobs[j], t, if t == -1 then Terminated else s.sched.threads[t].state)
  }

  function Updated(v: View, now: nat): View {
    if v.state == Terminated then v.(job := v.job.(used := false, state := JobDone))
    else if v.job.state == JobSleeping && v.job.sleepUntil > 0 then
      if now >= v.job.sleepUntil
      then v.(job := v.job.(state := JobRunning, sleepUntil := 0), state := if v.state == Blocked then Ready else v.state)
      else v
    else v.(job := Follow(v.job, v.state))
  }

  lemma UpdateOwn(s: Sys, j: nat, now: nat)
    requires Inv(s.sched) && TidsOk(s.sched) && j < 32 && s.jobs[j].used
    ensures ViewOf(UpdateOne(s, j, now), j) == Updated(ViewOf(s, j), now)
  {
    hide Inv;
    UnblockInv(s.sched, s.jobs[j].tid);
    ShapeTids(s.sched, Unblock(s.sched, s.jobs[j].tid));
  }

  lemma UpdateOther(s: Sys, i: nat, j: nat, now: nat)
    requires Inv(s.sched) && TidsOk(s.sched) && i < 32 && j < 32 && i != j
    requires s.jobs[i].used && s.jobs[j].used ==> s.jobs[i].tid != s.jobs[j].tid
    ensures TidsOk(UpdateOne(s, i, now).sched)
    ensures UpdateOne(s, i, now).jobs[j] == s.jobs[j]
    ensures s.jobs[j].used ==> ViewOf(UpdateOne(s, i, now), j) == ViewOf(s, j)
  {
    hide Inv, TidsOk;
    UnblockInv(s.sched, s.jobs[i].tid);
    ShapeTids(s.sched, Unblock(s.sched, s.jobs[i].tid));
  }

  lemma UpdateDistinct(s: Sys, i: nat, now: nat)
    requires Inv(s.sched) && TidsOk(s.sched) && JobsDistinct(s.jobs) && i < 32
    ensures TidsOk(UpdateOne(s, i, now).sched) && JobsDistinct(UpdateOne(s, i, now).jobs)
    ensures UpdateOne(s, i, now).jobs[i].tid == s.jobs[i].tid
    ensures UpdateOne(s, i, now).jobs[i].used ==> s.jobs[i].used
    ensures forall j :: 0 <= j < 32 && j != i ==> UpdateOne(s, i, now).jobs[j] == s.jobs[j]
  {
    hide Inv, TidsOk, Unblock;
    UnblockInv(s.sched, s.jobs[i].tid);
    ShapeTids(s.sched, Unblock(s.sched, s.jobs[i].tid));
  }

  ghost predicate SameLookups(s: Sched, s': Sched) { forall tid: u32 :: GetThread(s', tid) == GetThread(s, tid) }

  lemma UpdateSched(s: Sys, i: nat, now: nat)
    requires Inv(s.sched) && i < 32
    ensures UpdateOne(s, i, now).sched == s.sched || UpdateOne(s, i, now).sched == Unblock(s.sched, s.jobs[i].tid)
  {
    hide Inv, Unblock, GetThread;
  }

  lemma UpdateLookups(s: Sys, i: nat, now: nat)
    requires Inv(s.sched) && TidsOk(s.sched) && i < 32
    ensures SameLookups(s.sched, UpdateOne(s, i, now).sched)
  {
    hide Inv, TidsOk, Unblock, UpdateOne, GetThread;
    UpdateSched(s, i, now);
    UnblockInv(s.sched, s.jobs[i].tid);
    ShapeTids(s.sched, Unblock(s.sched, s.jobs[i].tid));
  }

  /** The loop over all jobs treats each used job as if it were alone, and leaves unused ones alone. */
  lemma {:induction false} UpdateView(s: Sys, i: nat, j: nat, now: nat)
    requires Inv(s.sched) && TidsOk(s.sched) && JobsDistinct(s.jobs) && i <= 32 && j < 32
    ensures var s' := UpdateFrom(s, i, now);
            && TidsOk(s'.sched) && JobsDistinct(s'.jobs) && SameLookups(s.sched, s'.sched)
            && (!s.jobs[j].used ==> s'.jobs[j] == s.jobs[j])
            && (s.jobs[j].used ==> ViewOf(s', j) == if j < i then ViewOf(s, j) else Updated(ViewOf(s, j), now))
    decreases 32 - i
  {
    hide Inv, TidsOk, JobsDistinct, UpdateOne, Updated;
    if i < 32 {
      var s1 := UpdateOne(s, i, now);
      UpdateOneInv(s, i, now);
      UpdateDistinct(s, i, now);
      UpdateLookups(s, i, now);
      UpdateView(s1, i + 1, j, now);
      if i == j && s.jobs[j].used {
        UpdateOwn(s, j, now);
        if !s1.jobs[j].used { Retired(s, j, now); }
      } else if s.jobs[j].used {
        if s.jobs[i].used { DistinctJobs(s.jobs, i, j); }
        UpdateOther(s, i, j, now);
      } else if i == j {
        UnusedKept(s, i, now);
      }
    }
  }

  lemma UnusedKept(s: Sys, i: nat, now: nat)
    requires Inv(s.sched) && i < 32 && !s.jobs[i].used
    ensures UpdateOne(s, i, now) == s
  {
  }

  /** A job is retired only when its thread is gone. */
  lemma Retired(s: Sys, j: nat, now: nat)
    requires Inv(s.sched) && j < 32 && s.jobs[j].used && !UpdateOne(s, j, now).jobs[j].used
    ensures GetThread(s.sched, s.jobs[j].tid) == -1 && UpdateOne(s, j, now).jobs[j].tid == s.jobs[j].tid
  {
    hide QueueOk, ListsOk, Unblock;
  }

  lemma DistinctJobs(jobs: Jobs, i: nat, j: nat)
    requires JobsDistinct(jobs) && i < 32 && j < 32 && i != j && jobs[i].used && jobs[j].used
    ensures jobs[i].tid != jobs[j].tid
  {
  }

  // ---- what an update achieves ----

  /** A used job whose state agrees with a live thread's. */
  ghost predicate Agrees(s: Sys, j: nat) {
    && j < 32
    && var v := ViewOf(s, j);
    && v.slot != -1
    && (v.state == Ready || v.state == Running ==> v.job.state == JobRunning && v.job.sleepUntil == 0)
    && (v.state == Blocked ==> v.job.state == if v.job.sleepUntil > 0 then JobSleeping else JobStopped)
  }

  function Update(s: Sys, now: nat): Sys
    requires Inv(s.sched)
  {
    UpdateFrom(s, 0, now)
  }

  /** After every update, each job still used has a live thread and its state tells what that thread does; a job that was
      asleep is untouched before its wake time, and its thread is READY and its job running from the first update at or
      past it. */
  lemma UpdateResult(s: Sys, j: nat, now: nat)
    requires SysInv(s) && j < 32
    ensures Update(s, now).jobs[j].used ==> s.jobs[j].used && Agrees(Update(s, now), j)
    ensures forall w :: Asleep(s, j, w) && now < w ==> Asleep(Update(s, now), j, w)
    ensures forall w :: Asleep(s, j, w) && now >= w ==>
              var v := ViewOf(Update(s, now), j);
              v.slot == ViewOf(s, j).slot != -1 && v.state == Ready && v.job.state == JobRunning && v.job.sleepUntil == 0
  {
    hide Inv, TidsOk, JobsDistinct, UpdateFrom;
    UpdateView(s, 0, j, now);
    assert s.jobs[j].used && s.jobs[j].sleepUntil > 0 ==> Asleep(s, j, s.jobs[j].sleepUntil);
    if s.jobs[j].used { NotTerminated(s.sched, s.jobs[j].tid); }
  }

  lemma NotTerminated(s: Sched, tid: u32)
    requires Inv(s)
    ensures GetThread(s, tid) != -1 ==> s.threads[GetThread(s, tid)].state != Terminated
  {
  }

  lemma UpdateSysInv(s: Sys, now: nat)
    requires SysInv(s)
    ensures SysInv(Update(s, now))
  {
    hide Inv, TidsOk, JobsDistinct, UpdateFrom;
    var s' := Update(s, now);
    UpdateView(s, 0, 0, now);
    forall j | 0 <= j < 32 && s'.jobs[j].used && s'.jobs[j].sleepUntil > 0 ensures Asleep(s', j, s'.jobs[j].sleepUntil) {
      UpdateResult(s, j, now);
      NotTerminated(s'.sched, s'.jobs[j].tid);
    }
  }

  // ---- the other calls ----

  /** A blocked thread stays where it is through every scheduler call but its own unblocking. */
  lemma BlockedStays(s: Sched, op: Op, t: nat)
    requires Inv(s) && TidsOk(s) && s.nextTid < 0xFFFF_FFFF
    requires t < 256 && s.threads[t].used && s.threads[t].state == Blocked && op != UnblockOp(s.threads[t].tid)
    ensures Step(s, op).threads[t] == s.threads[t]
  {
    hide ListsOk;
    TidLookup(s, t);
    hide TidsOk;
    assert t !in s.queue && t != s.current;
    match op
    case CreateOp(pid, e, g) =>
    case BlockOp(tid) =>
      if s.current != -1 { UnqueueCurrent(s); }
    case UnblockOp(tid) =>
    case ExitOp =>
    case YieldOp =>
    case TickOp =>
    case ProcessOp =>
  }

  lemma ScheduleTids(s: Sched)
    requires Inv(s) && TidsOk(s)
    ensures -1 <= s.current < 256 && (forall k :: 0 <= k < |s.queue| ==> s.queue[k] < 256)
    ensures TidsOk(Schedule(s))
  {
    hide ListsOk, TidsOk, Requeue, Dispatch;
    ScheduleInv(s);
    ShapeTids(s, Schedule(s));
  }

  lemma CreateTids(s: Sched, pid: u32, e: bool, g: bool)
    requires Inv(s) && TidsOk(s) && s.nextTid < 0xFFFF_FFFF
    ensures TidsOk(Create(s, pid, e, g))
  {
    hide QueueOk, ListsOk, CurrentOk, Requeue, Dispatch;
    if CanCreate(s, pid, e, g) {
      var p, slot := FindPid(s.procs, pid, 0), FreeSlot(s.threads, 0);
      EnterInv(s, p, slot);
      assert TidsOk(Enter(s, p, slot));
      ScheduleTids(Enter(s, p, slot));
    }
  }

  lemma ExitTids(s: Sched)
    requires Inv(s) && TidsOk(s)
    ensures TidsOk(Exit(s))
  {
    hide QueueOk, ListsOk, Without;
    if s.current != -1 {
      LeaveBetween(s);
      DispatchInv(Leave(s));
      assert TidsOk(Leave(s));
      ShapeTids(Leave(s), Exit(s));
    }
  }

  lemma StepTids(s: Sched, op: Op)
    requires Inv(s) && TidsOk(s) && s.nextTid < 0xFFFF_FFFF
    ensures TidsOk(Step(s, op))
  {
    hide Inv, TidsOk, Block, Unblock, Create, Exit;
    match op
    case CreateOp(pid, e, g) => CreateTids(s, pid, e, g);
    case BlockOp(tid) => BlockInv(s, tid); ShapeTids(s, Block(s, tid));
    case UnblockOp(tid) => UnblockInv(s, tid); ShapeTids(s, Unblock(s, tid));
    case ExitOp => ExitTids(s);
    case YieldOp => ScheduleTids(s);
    case TickOp => ScheduleTids(s);
    case ProcessOp => ProcessTids(s);
  }

  lemma ProcessTids(s: Sched)
    requires TidsOk(s)
    ensures TidsOk(CreateProcess(s))
  {
  }

  // ---- system runs ----

  datatype SysOp =
    | Call(op: Op)
    | UpdateOp(now: nat)
    | SleepOp(ticks: nat, at: nat)
    | AddOp(pid: u32, tid: u32, isBackground: bool)
    | FgOp(jobId: int)

  /** Neither the scaled sleep nor the wake time leaves 64 bits. */
  predicate TimeFits(at: nat, ticks: nat) { ticks * 1000 < TWO64 && at + ticks < TWO64 }

  /** The assumptions under which the system runs: thread ids and times have not wrapped, one job per thread, and nobody
      but the job code unblocks a thread whose job waits for a time. */
  ghost predicate Allowed(s: Sys, op: SysOp) {
    match op
    case Call(c) =>
      && s.sched.nextTid < 0xFFFF_FFFF
      && (c.UnblockOp? ==> forall j :: 0 <= j < 32 && s.jobs[j].used && s.jobs[j].sleepUntil > 0 ==> s.jobs[j].tid != c.utid)
    case UpdateOp(_) => true
    case SleepOp(ticks, at) => TimeFits(at, ticks)
    case AddOp(_, tid, _) => JobOf(s.jobs, tid, 0) == -1
    case FgOp(_) => true
  }

  function SysStep(s: Sys, op: SysOp): Sys
    requires Inv(s.sched)
  {
    match op
    case Call(c) => s.(sched := Step(s.sched, c))
    case UpdateOp(now) => Update(s, now)
    case SleepOp(ticks, at) => Sleep(s, ticks, at)
    case AddOp(pid, tid, bg) => AddJob(s, pid, tid, bg)
    case FgOp(id) => BringToForeground(s, id)
  }

  /** The wake time of a sleep of `ticks` from `at` is `ticks` milliseconds later exactly when the times fit. */
  lemma WakeTimeExact(at: nat, ticks: nat)
    requires at < TWO64 && ticks < TWO64
    ensures WakeTime(at, ticks) == at + ticks <==> TimeFits(at, ticks)
  {
    UptimeExact(ticks);
    var m := UptimeMs(ticks);
    if at + m < TWO64 {
      assert (at + m) % TWO64 == at + m;
    } else {
      assert (at + m) % TWO64 == at + m - TWO64;
    }
  }

  /** The time in milliseconds is the tick count exactly when the scaled count fits 64 bits; otherwise it is less. */
  lemma UptimeExact(ticks: nat)
    requires ticks < TWO64
    ensures UptimeMs(ticks) == ticks <==> ticks * 1000 < TWO64
    ensures UptimeMs(ticks) <= ticks
  {
    var q, r := ticks * 1000 / TWO64, ticks * 1000 % TWO64;
    assert ticks * 1000 == q * TWO64 + r;
    if ticks * 1000 >= TWO64 { assert r <= ticks * 1000 - TWO64; }
  }

  /** Going to sleep: the thread is blocked, its job is asleep until exactly `ticks` later, and all else is as it was. */
  lemma SleepFalls(s: Sys, ticks: nat, at: nat)
    requires SysInv(s) && ticks > 0 && TimeFits(at, ticks) && s.sched.current != -1
    ensures var (c, s') := (s.sched.current, Sleep(s, ticks, at));
            var k := JobOf(s.jobs, s.sched.threads[c].tid, 0);
            && s'.sched.threads[c] == s.sched.threads[c].(state := Blocked)
            && (k != -1 ==> Asleep(s', k, at + ticks))
            && (forall j :: 0 <= j < 32 && j != k ==> s'.jobs[j] == s.jobs[j])
  {
    hide ListsOk;
    var c := s.sched.current;
    WakeTimeExact(at, ticks);
    TidLookup(s.sched, c);
    UnqueueCurrent(s.sched);
    BlockInv(s.sched, s.sched.threads[c].tid);
    ShapeTids(s.sched, Block(s.sched, s.sched.threads[c].tid));
  }

  /** A thread other than the one going to sleep keeps its BLOCKED state. */
  lemma SleepKeeps(s: Sys, ticks: nat, at: nat, t: nat)
    requires SysInv(s) && t < 256 && s.sched.threads[t].used && s.sched.threads[t].state == Blocked
    ensures Sleep(s, ticks, at).sched.threads[t] == s.sched.threads[t]
  {
    hide ListsOk;
    if ticks != 0 && s.sched.current != -1 {
      TidLookup(s.sched, s.sched.current);
      UnqueueCurrent(s.sched);
      assert t !in s.sched.queue && t != s.sched.current;
    }
  }

  /** The call that ends this sleep before its time, or at it. */
  predicate Rouses(s: Sys, op: SysOp, j: nat, w: nat)
    requires j < 32
  {
    (op.UpdateOp? && op.now >= w) || (op.FgOp? && JobById(s.jobs, op.jobId, 0) == j)
  }

  lemma AsleepFrom(s: Sys, s': Sys, j: nat, w: nat)
    requires TidsOk(s.sched) && TidsOk(s'.sched) && Asleep(s, j, w) && s'.jobs[j] == s.jobs[j]
    requires var t := GetThread(s.sched, s.jobs[j].tid); s'.sched.threads[t] == s.sched.threads[t]
    ensures Asleep(s', j, w)
  {
    TidLookup(s'.sched, GetThread(s.sched, s.jobs[j].tid));
  }

  /** Whatever the system does, a sleeping thread stays BLOCKED and its job asleep, until an update reaches its wake time or
      its job is brought to the foreground. */
  lemma StaysAsleep(s: Sys, op: SysOp, j: nat, w: nat)
    requires SysInv(s) && Allowed(s, op) && Asleep(s, j, w) && !Rouses(s, op, j, w)
    ensures Asleep(SysStep(s, op), j, w)
  {
    hide Inv, TidsOk, UpdateFrom, Block, Unblock, Create, Exit, Yield, Tick;
    var s', t := SysStep(s, op), GetThread(s.sched, s.jobs[j].tid);
    match op
    case Call(c) =>
      BlockedStays(s.sched, c, t);
      StepTids(s.sched, c);
      AsleepFrom(s, s', j, w);
    case UpdateOp(now) => UpdateResult(s, j, now);
    case SleepOp(ticks, at) =>
      SleepAsleep(s, ticks, at, j, w);
    case AddOp(pid, tid, bg) => AsleepFrom(s, s', j, w);
    case FgOp(id) => FgAsleep(s, id, j, w);
  }

  lemma SleepAsleep(s: Sys, ticks: nat, at: nat, j: nat, w: nat)
    requires SysInv(s) && Allowed(s, SleepOp(ticks, at)) && Asleep(s, j, w)
    ensures Asleep(Sleep(s, ticks, at), j, w) && TidsOk(Sleep(s, ticks, at).sched)
  {
    hide QueueOk, ListsOk, Block;
    var t := GetThread(s.sched, s.jobs[j].tid);
    if ticks != 0 && s.sched.current != -1 {
      var c := s.sched.current;
      SleepKeeps(s, ticks, at, t);
      SleepFalls(s, ticks, at);
      BlockInv(s.sched, s.sched.threads[c].tid);
      ShapeTids(s.sched, Block(s.sched, s.sched.threads[c].tid));
      assert s.sched.threads[c].tid != s.jobs[j].tid by { TidLookup(s.sched, c); }
      AsleepFrom(s, Sleep(s, ticks, at), j, w);
    }
  }

  lemma FgAsleep(s: Sys, id: int, j: nat, w: nat)
    requires SysInv(s) && Asleep(s, j, w) && JobById(s.jobs, id, 0) != j
    ensures Asleep(BringToForeground(s, id), j, w) && TidsOk(BringToForeground(s, id).sched)
  {
    hide Inv, TidsOk;
    var k := JobById(s.jobs, id, 0);
    if k != -1 {
      DistinctJobs(s.jobs, k, j);
      UnblockInv(s.sched, s.jobs[k].tid);
      ShapeTids(s.sched, Unblock(s.sched, s.jobs[k].tid));
      AsleepFrom(s, BringToForeground(s, id), j, w);
    }
  }

  /** Every allowed call keeps the system invariant. */
  lemma SysStepInv(s: Sys, op: SysOp)
    requires SysInv(s) && Allowed(s, op)
    ensures SysInv(SysStep(s, op))
  {
    hide Inv, TidsOk, JobsDistinct, UpdateFrom, Asleep, Step;
    match op
    case Call(c) =>
      SchedRuns.StepInv(s.sched, c);
      StepTids(s.sched, c);
      forall j | 0 <= j < 32 && s.jobs[j].used && s.jobs[j].sleepUntil > 0
        ensures Asleep(SysStep(s, op), j, s.jobs[j].sleepUntil)
      {
        StaysAsleep(s, op, j, s.jobs[j].sleepUntil);
      }
    case UpdateOp(now) => UpdateSysInv(s, now);
    case SleepOp(ticks, at) => SleepSysInv(s, ticks, at);
    case AddOp(pid, tid, bg) => AddSysInv(s, pid, tid, bg);
    case FgOp(id) => FgSysInv(s, id);
  }

  lemma SleepSysInv(s: Sys, ticks: nat, at: nat)
    requires SysInv(s) && Allowed(s, SleepOp(ticks, at))
    ensures SysInv(Sleep(s, ticks, at))
  {
    if ticks != 0 && s.sched.current != -1 {
      hide Inv, TidsOk, Asleep, Block;
      var s', c := Sleep(s, ticks, at), s.sched.current;
      var tid := CurrentTid(s.sched);
      BlockInv(s.sched, tid);
      ShapeTids(s.sched, Block(s.sched, tid));
      SleepFalls(s, ticks, at);
      forall j | 0 <= j < 32 && s'.jobs[j].used && s'.jobs[j].sleepUntil > 0
        ensures Asleep(s', j, s'.jobs[j].sleepUntil)
      {
        if j != JobOf(s.jobs, tid, 0) {
          SleepAsleep(s, ticks, at, j, s.jobs[j].sleepUntil);
        } else {
          WakeTimeExact(at, ticks);
        }
      }
    }
  }

  function CurrentTid(s: Sched): u32
    requires Inv(s) && s.current != -1
  {
    s.threads[s.current].tid
  }

  lemma AddSysInv(s: Sys, pid: u32, tid: u32, bg: bool)
    requires SysInv(s) && JobOf(s.jobs, tid, 0) == -1
    ensures SysInv(AddJob(s, pid, tid, bg))
  {
    hide Inv, TidsOk, Asleep;
    var s' := AddJob(s, pid, tid, bg);
    forall j | 0 <= j < 32 && s'.jobs[j].used && s'.jobs[j].sleepUntil > 0
      ensures Asleep(s', j, s'.jobs[j].sleepUntil)
    {
      AddAsleep(s, pid, tid, bg, j, s.jobs[j].sleepUntil);
    }
  }

  lemma AddAsleep(s: Sys, pid: u32, tid: u32, bg: bool, j: nat, w: nat)
    requires TidsOk(s.sched) && Asleep(s, j, w)
    ensures Asleep(AddJob(s, pid, tid, bg), j, w)
  {
    hide TidsOk;
    AsleepFrom(s, AddJob(s, pid, tid, bg), j, w);
  }

  lemma FgSysInv(s: Sys, id: int)
    requires SysInv(s)
    ensures SysInv(BringToForeground(s, id))
  {
    hide Inv, TidsOk, Unblock;
    var s', k := BringToForeground(s, id), JobById(s.jobs, id, 0);
    if k != -1 {
      UnblockInv(s.sched, s.jobs[k].tid);
      ShapeTids(s.sched, Unblock(s.sched, s.jobs[k].tid));
      assert s.jobs[k].sleepUntil > 0 ==> Asleep(s, k, s.jobs[k].sleepUntil);
      forall j | 0 <= j < 32 && s'.jobs[j].used && s'.jobs[j].sleepUntil > 0
        ensures Asleep(s', j, s'.jobs[j].sleepUntil)
      {
        if j != k { FgAsleep(s, id, j, s.jobs[j].sleepUntil); }
      }
    }
  }

  // ---- reachable states ----

  /** The state after jobs_init on a scheduler that has just been set up. */
  function SysBoot(): Sys { Sys(Boot(), seq(32, _ => Job(false, 0, 0, 0, JobDone, false, 0)), 1) }

  ghost predicate AllowedRun(s: Sys, ops: seq<SysOp>)
    requires SysInv(s)
    decreases |ops|
  {
    ops == [] || (Allowed(s, ops[0]) && (SysStepInv(s, ops[0]); AllowedRun(SysStep(s, ops[0]), ops[1..])))
  }

  lemma SysBootInv()
    ensures SysInv(SysBoot())
  { }

  lemma {:induction false} SysRunInv(s: Sys, ops: seq<SysOp>)
    requires SysInv(s) && AllowedRun(s, ops)
    ensures SysInv(SysRun(s, ops))
    decreases |ops|
  {
    hide Inv, TidsOk, JobsDistinct, SleepOk, SysStep, Allowed;
    if ops != [] {
      SysStepInv(s, ops[0]);
      SysRunInv(SysStep(s, ops[0]), ops[1..]);
    }
  }

  ghost predicate AllowedFromBoot(ops: seq<SysOp>) { SysBootInv(); AllowedRun(SysBoot(), ops) }

  /** Every state reachable from boot by allowed calls satisfies the system invariant. */
  lemma SysReachable(ops: seq<SysOp>)
    requires AllowedFromBoot(ops)
    ensures SysInv(SysBoot()) && SysInv(SysRun(SysBoot(), ops))
  {
    SysBootInv();
    hide SysInv, SysBoot;
    SysRunInv(SysBoot(), ops);
  }

  /** A run in which every call is allowed and none rouses job `j` before `w`. */
  ghost predicate QuietRun(s: Sys, ops: seq<SysOp>, j: nat, w: nat)
    requires SysInv(s) && j < 32
    decreases |ops|
  {
    ops == [] || (&& Allowed(s, ops[0]) && !Rouses(s, ops[0], j, w)
                  && (SysStepInv(s, ops[0]); QuietRun(SysStep(s, ops[0]), ops[1..], j, w)))
  }

  ghost function SysRun(s: Sys, ops: seq<SysOp>): Sys
    requires Inv(s.sched)
    decreases |ops|
  {
    if ops == [] then s else SysStepSched(s, ops[0]); SysRun(SysStep(s, ops[0]), ops[1..])
  }

  lemma SysStepSched(s: Sys, op: SysOp)
    requires Inv(s.sched)
    ensures Inv(SysStep(s, op).sched)
  {
    hide Inv, Step, Block, Unblock, UpdateFrom;
    match op
    case Call(c) => SchedRuns.StepInv(s.sched, c);
    case UpdateOp(now) =>
    case SleepOp(ticks, at) =>
      if s.sched.current != -1 { BlockInv(s.sched, CurrentTid(s.sched)); SleepIsBlock(s, ticks, at); }
    case AddOp(pid, tid, bg) =>
    case FgOp(id) => FgIsUnblock(s, id);
  }

  lemma SleepIsBlock(s: Sys, ticks: nat, at: nat)
    requires Inv(s.sched) && s.sched.current != -1
    ensures Sleep(s, ticks, at).sched == s.sched || Sleep(s, ticks, at).sched == Block(s.sched, CurrentTid(s.sched))
  {
  }

  lemma FgIsUnblock(s: Sys, id: int)
    requires Inv(s.sched)
    ensures Inv(BringToForeground(s, id).sched)
  {
    hide Inv, Unblock;
    var k := JobById(s.jobs, id, 0);
    if k != -1 { UnblockInv(s.sched, s.jobs[k].tid); }
  }

  /** Over every quiet run the thread is still BLOCKED at the end, and the next update at or past its wake time makes it
      READY, that is, puts it on the ready queue. */
  lemma {:induction false} SleepsThenWakes(s: Sys, ops: seq<SysOp>, j: nat, w: nat, now: nat)
    requires SysInv(s) && Asleep(s, j, w) && QuietRun(s, ops, j, w) && now >= w
    ensures SysInv(SysRun(s, ops)) && Asleep(SysRun(s, ops), j, w)
    ensures var v := ViewOf(Update(SysRun(s, ops), now), j);
            && v.slot != -1 && v.state == Ready && v.job.state == JobRunning
            && v.slot in Update(SysRun(s, ops), now).sched.queue
    decreases |ops|
  {
    hide Inv, TidsOk, JobsDistinct, SleepOk, Asleep, SysStep, Rouses, Allowed;
    if ops == [] {
      Woken(s, j, w, now);
    } else {
      SysStepInv(s, ops[0]);
      StaysAsleep(s, ops[0], j, w);
      SleepsThenWakes(SysStep(s, ops[0]), ops[1..], j, w, now);
    }
  }

  lemma Woken(s: Sys, j: nat, w: nat, now: nat)
    requires SysInv(s) && Asleep(s, j, w) && now >= w
    ensures j < 32
    ensures var v := ViewOf(Update(s, now), j);
            && v.slot != -1 && v.state == Ready && v.job.state == JobRunning
            && v.slot in Update(s, now).sched.queue
  {
    hide ListsOk, UpdateFrom;
    UpdateResult(s, j, now);
  }
}
