/** Jobs and timed sleep on top of the scheduler (src/kernel/Processes/fg.c, sleep.c). */
module JobsSpec {
  import opened SchedSpec

  const TWO64 := 0x1_0000_0000_0000_0000

  datatype JobState = JobRunning | JobStopped | JobSleeping | JobDone

  datatype Job = Job(used: bool, jobId: int, pid: u32, tid: u32, state: JobState, isBackground: bool, sleepUntil: nat)

  type Jobs = j: seq<Job> | |j| == 32 witness seq(32, _ => Job(false, 0, 0, 0, JobDone, false, 0))

  datatype Sys = Sys(sched: Sched, jobs: Jobs, nextJobId: int)

  // ---- the calls ----

  /** Timer ticks in milliseconds, as get_uptime_ms and sleep_ticks compute them: scaled by 1000 and back in 64 bits. */
  function UptimeMs(ticks: nat): nat { ticks * 1000 % TWO64 / 1000 }

  /** The wake time of a sleep of `ticks` starting at `now`. */
  function WakeTime(now: nat, ticks: nat): nat { (now + UptimeMs(ticks)) % TWO64 }

  /** What update_jobs_safe does about one used job whose thread sits in slot `t`. */
  function Follow(job: Job, st: ThreadState): Job {
    match st
    case Running => job.(state := JobRunning)
    case Ready => job.(state := JobRunning)
    case Blocked => if job.sleepUntil > 0 then job.(state := JobSleeping) else job.(state := JobStopped)
    case Terminated => job
  }

  function UpdateOne(s: Sys, i: nat, now: nat): Sys
    requires Inv(s.sched) && i < 32
  {
    var job := s.jobs[i];
    if !job.used then s
    else
      var t := GetThread(s.sched, job.tid);
      if t == -1 || s.sched.threads[t].state == Terminated then
        s.(jobs := s.jobs[i := job.(used := false, state := JobDone)])
      else if job.state == JobSleeping && job.sleepUntil > 0 then
        if now >= job.sleepUntil then
          s.(sched := Unblock(s.sched, job.tid), jobs := s.jobs[i := job.(state := JobRunning, sleepUntil := 0)])
        else s
      else s.(jobs := s.jobs[i := Follow(job, s.sched.threads[t].state)])
  }

  lemma UpdateOneInv(s: Sys, i: nat, now: nat)
    requires Inv(s.sched) && i < 32
    ensures Inv(UpdateOne(s, i, now).sched)
  {
    hide Inv, Unblock;
    UnblockInv(s.sched, s.jobs[i].tid);
  }

  /** update_jobs_safe with job tracking enabled, for the jobs from `i` on. */
  function UpdateFrom(s: Sys, i: nat, now: nat): (s': Sys)
    requires Inv(s.sched) && i <= 32
    ensures Inv(s'.sched)
    decreases 32 - i
  {
    if i == 32 then s else UpdateOneInv(s, i, now); UpdateFrom(UpdateOne(s, i, now), i + 1, now)
  }

  /** First used job from `i` on that tracks thread `tid`, or -1. */
  function JobOf(jobs: Jobs, tid: u32, i: nat): (k: int)
    requires i <= 32
    ensures k == -1 || (i <= k < 32 && jobs[k].used && jobs[k].tid == tid)
    ensures forall j :: i <= j < (if k == -1 then 32 else k) ==> !(jobs[j].used && jobs[j].tid == tid)
    decreases 32 - i
  {
    if i == 32 then -1 else if jobs[i].used && jobs[i].tid == tid then i else JobOf(jobs, tid, i + 1)
  }

  function MarkSleeping(jobs: Jobs, tid: u32, wake: nat): Jobs {
    var k := JobOf(jobs, tid, 0);
    if k == -1 then jobs else jobs[k := jobs[k].(state := JobSleeping, sleepUntil := wake)]
  }

  /** sleep_ticks on a thread: mark its job and block it, as one step. */
  function Sleep(s: Sys, ticks: nat, now: nat): Sys
    requires Inv(s.sched)
  {
    if ticks == 0 || s.sched.current == -1 then s
    else
      var tid := s.sched.threads[s.sched.current].tid;
      s.(jobs := MarkSleeping(s.jobs, tid, WakeTime(now, ticks)), sched := Block(s.sched, tid))
  }

  function FreeJob(jobs: Jobs, i: nat): (k: int)
    requires i <= 32
    ensures k == -1 || (i <= k < 32 && !jobs[k].used)
    ensures forall j :: i <= j < (if k == -1 then 32 else k) ==> jobs[j].used
    decreases 32 - i
  {
    if i == 32 then -1 else if !jobs[i].used then i else FreeJob(jobs, i + 1)
  }

  function AddJob(s: Sys, pid: u32, tid: u32, isBackground: bool): Sys {
    var k := FreeJob(s.jobs, 0);
    if k == -1 then s
    else s.(jobs := s.jobs[k := Job(true, s.nextJobId, pid, tid, JobRunning, isBackground, 0)], nextJobId := s.nextJobId + 1)
  }

  function JobById(jobs: Jobs, jobId: int, i: nat): (k: int)
    requires i <= 32
    ensures k == -1 || (i <= k < 32 && jobs[k].used && jobs[k].jobId == jobId)
    ensures forall j :: i <= j < (if k == -1 then 32 else k) ==> !(jobs[j].used && jobs[j].jobId == jobId)
    decreases 32 - i
  {
    if i == 32 then -1 else if jobs[i].used && jobs[i].jobId == jobId then i else JobById(jobs, jobId, i + 1)
  }

  /** bring_to_foreground: a blocked thread is woken at once and its job's wake time forgotten. */
  function BringToForeground(s: Sys, jobId: int): Sys {
    var k := JobById(s.jobs, jobId, 0);
    if k == -1 || !s.jobs[k].isBackground then s
    else
      var job := s.jobs[k];
      var t := GetThread(s.sched, job.tid);
      if t == -1 then s
      else if s.sched.threads[t].state == Blocked then
        s.(sched := Unblock(s.sched, job.tid),
           jobs := s.jobs[k := job.(state := JobRunning, sleepUntil := 0, isBackground := false)])
      else s.(jobs := s.jobs[k := job.(isBackground := false)])
  }

  // ---- invariants ----

  predicate SameTid(a: Thread, b: Thread) { a.used && b.used && a.tid == b.tid }

  /** Thread ids of used slots are distinct and below the next one to be given out. */
  ghost predicate TidsOk(s: Sched) {
    && (forall t :: 0 <= t < 256 && s.threads[t].used ==> s.threads[t].tid < s.nextTid)
    && (forall t, u :: 0 <= t < 256 && 0 <= u < 256 && SameTid(s.threads[t], s.threads[u]) ==> t == u)
  }

  /** One used job per thread id. */
  ghost predicate JobsDistinct(jobs: Jobs) {
    forall i, j :: 0 <= i < 32 && 0 <= j < 32 && jobs[i].used && jobs[j].used && jobs[i].tid == jobs[j].tid ==> i == j
  }

  /** Job `j` waits for time `w`: it is marked sleeping and its thread is blocked. */
  ghost predicate Asleep(s: Sys, j: nat, w: nat) {
    && j < 32 && s.jobs[j].used && s.jobs[j].state == JobSleeping && s.jobs[j].sleepUntil == w > 0
    && var t := GetThread(s.sched, s.jobs[j].tid);
       t != -1 && s.sched.threads[t].state == Blocked
  }

  /** Every job with a wake time is asleep. */
  ghost predicate SleepOk(s: Sys) {
    forall j :: 0 <= j < 32 && s.jobs[j].used && s.jobs[j].sleepUntil > 0 ==> Asleep(s, j, s.jobs[j].sleepUntil)
  }

  ghost predicate SysInv(s: Sys) { Inv(s.sched) && TidsOk(s.sched) && JobsDistinct(s.jobs) && SleepOk(s) }

  // ---- how thread lookups survive calls ----

  lemma TidLookup(s: Sched, t: nat)
    requires TidsOk(s) && t < 256 && s.threads[t].used
    ensures GetThread(s, s.threads[t].tid) == t
  {
  }

  lemma ShapeTids(s: Sched, s': Sched)
    requires TidsOk(s) && SameShape(s, s')
    ensures TidsOk(s')
    ensures forall tid: u32 :: GetThread(s', tid) == GetThread(s, tid)
  {
    forall tid: u32 ensures GetThread(s', tid) == GetThread(s, tid) {
      var i, i' := GetThread(s, tid), GetThread(s', tid);
      assert i != -1 ==> s'.threads[i].used && s'.threads[i].tid == tid;
      assert i' != -1 ==> s.threads[i'].used && s.threads[i'].tid == tid;
    }
  }
}
