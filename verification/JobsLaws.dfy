/** Job ids over whole runs, and what single job calls do. */
module JobsLaws {
  import opened SchedSpec
  import opened JobsSpec
  import opened JobsTheorems

  /** Jobs in use have distinct ids, below the next one to be given out. */
  ghost predicate JobIdsOk(s: Sys) {
    && (forall j :: 0 <= j < 32 && s.jobs[j].used ==> 1 <= s.jobs[j].jobId < s.nextJobId)
    && (forall i, j :: 0 <= i < 32 && 0 <= j < 32 && s.jobs[i].used && s.jobs[j].used && s.jobs[i].jobId == s.jobs[j].jobId ==> i == j)
    && s.nextJobId >= 1
  }

  /** No job appears or changes its id. */
  ghost predicate SameIds(s: Sys, s': Sys) {
    && s'.nextJobId == s.nextJobId
    && forall j :: 0 <= j < 32 && s'.jobs[j].used ==> s.jobs[j].used && s'.jobs[j].jobId == s.jobs[j].jobId
  }

  lemma SameIdsOk(s: Sys, s': Sys)
    requires JobIdsOk(s) && SameIds(s, s')
    ensures JobIdsOk(s')
  { }

  lemma {:induction false} UpdateIds(s: Sys, i: nat, now: nat)
    requires Inv(s.sched) && i <= 32
    ensures SameIds(s, UpdateFrom(s, i, now))
    decreases 32 - i
  {
    hide Inv;
    if i < 32 {
      UpdateOneInv(s, i, now);
      UpdateOneIds(s, i, now);
      hide UpdateOne;
      UpdateIds(UpdateOne(s, i, now), i + 1, now);
    }
  }

  lemma UpdateOneIds(s: Sys, i: nat, now: nat)
    requires Inv(s.sched) && i < 32
    ensures SameIds(s, UpdateOne(s, i, now))
  {
    hide Inv, Unblock;
  }

  lemma StepIds(s: Sys, op: SysOp)
    requires Inv(s.sched) && JobIdsOk(s)
    ensures JobIdsOk(SysStep(s, op))
  {
    hide Inv, Block, Unblock, UpdateFrom;
    match op
    case Call(c) => SameIdsOk(s, SysStep(s, op));
    case UpdateOp(now) => UpdateIds(s, 0, now); SameIdsOk(s, SysStep(s, op));
    case SleepOp(ticks, at) => SameIdsOk(s, SysStep(s, op));
    case AddOp(pid, tid, bg) =>
    case FgOp(id) => SameIdsOk(s, SysStep(s, op));
  }

  lemma {:induction false} RunIds(s: Sys, ops: seq<SysOp>)
    requires Inv(s.sched) && JobIdsOk(s)
    ensures JobIdsOk(SysRun(s, ops))
    decreases |ops|
  {
    hide Inv, SysStep, JobIdsOk;
    if ops != [] {
      SysStepSched(s, ops[0]);
      StepIds(s, ops[0]);
      RunIds(SysStep(s, ops[0]), ops[1..]);
    }
  }

  /** In every state reachable from boot, job ids identify jobs. */
  lemma JobIdsReachable(ops: seq<SysOp>)
    ensures SysInv(SysBoot()) && JobIdsOk(SysRun(SysBoot(), ops))
  {
    SysBootInv();
    assert JobIdsOk(SysBoot());
    hide Inv, SysBoot, JobIdsOk;
    RunIds(SysBoot(), ops);
  }

  /** A job added tracks its thread under the next id, running and without a wake time; no other job changes. */
  lemma AddJobAdds(s: Sys, pid: u32, tid: u32, isBackground: bool)
    ensures var s' := AddJob(s, pid, tid, isBackground);
            if forall j :: 0 <= j < 32 ==> s.jobs[j].used then s' == s
            else exists k :: 0 <= k < 32 && !s.jobs[k].used
                   && s' == s.(jobs := s.jobs[k := Job(true, s.nextJobId, pid, tid, JobRunning, isBackground, 0)], nextJobId := s.nextJobId + 1)
  {
    var k := FreeJob(s.jobs, 0);
  }

  /** A background job brought to the foreground is one no more; if its thread was blocked, that is READY at once and the
      wake time is forgotten. */
  lemma ForegroundWakes(s: Sys, k: nat)
    requires JobIdsOk(s) && k < 32 && s.jobs[k].used && s.jobs[k].isBackground && GetThread(s.sched, s.jobs[k].tid) != -1
    ensures var s' := BringToForeground(s, s.jobs[k].jobId);
            var t := GetThread(s.sched, s.jobs[k].tid);
            && !s'.jobs[k].isBackground
            && (s.sched.threads[t].state == Blocked ==>
                  s'.sched.threads[t].state == Ready && t in s'.sched.queue && s'.jobs[k].state == JobRunning && s'.jobs[k].sleepUntil == 0)
            && (s.sched.threads[t].state != Blocked ==> s'.sched == s.sched)
            && forall j :: 0 <= j < 32 && j != k ==> s'.jobs[j] == s.jobs[j]
  {
    var i := JobById(s.jobs, s.jobs[k].jobId, 0);
    assert i == k;
  }
}
