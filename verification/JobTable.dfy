/** The job table object (src/kernel/Processes/fg.c, sleep.c) over the scheduler object. */
module JobTableModule {
  import opened SchedSpec
  import opened SchedulerModule
  import opened JobsSpec

  class JobTable {
    const sched: Scheduler
    const jobs: array<Job>
    var nextJobId: int
    var enabled: bool

    ghost predicate Valid()
      reads this, jobs, sched, sched.table, sched.procTable
    {
      && sched.Valid() && jobs.Length == 32
      && jobs as object != sched.table && jobs as object != sched.procTable
    }

    ghost function Abs(): Sys
      requires Valid()
      reads this, jobs, sched, sched.table, sched.procTable
    {
      Sys(sched.Abs(), jobs[..], nextJobId)
    }

    /** jobs_init. */
    constructor (s: Scheduler)
      requires s.Valid()
      ensures sched == s && fresh(jobs) && Valid() && !enabled
      ensures Abs() == Sys(s.Abs(), seq(32, _ => Job(false, 0, 0, 0, JobDone, false, 0)), 1)
    {
      sched := s;
      jobs := new Job[32](_ => Job(false, 0, 0, 0, JobDone, false, 0));
      nextJobId := 1;
      enabled := false;
    }

    /** jobs_set_active. */
    method SetActive(active: bool)
      requires Valid()
      modifies this`enabled
      ensures Valid() && enabled == active && Abs() == old(Abs())
    {
      enabled := active;
    }

    /** add_fg_job and add_bg_job. */
    method AddJob(pid: u32, tid: u32, isBackground: bool) returns (r: int)
      requires Valid()
      modifies this`nextJobId, jobs
      ensures Valid() && Abs() == JobsSpec.AddJob(old(Abs()), pid, tid, isBackground)
      ensures r == if FreeJob(old(jobs[..]), 0) == -1 then -1 else old(nextJobId)
    {
      hide Inv;
      ghost var js: Jobs := jobs[..];
      var i := 0;
      while i < 32
        invariant 0 <= i <= 32
        invariant FreeJob(js, 0) == FreeJob(js, i)
      {
        if !jobs[i].used {
          r := nextJobId;
          jobs[i] := Job(true, nextJobId, pid, tid, JobRunning, isBackground, 0);
          nextJobId := nextJobId + 1;
          assert jobs[..] == js[i := jobs[i]];
          return;
        }
        i := i + 1;
      }
      return -1;
    }

    /** One iteration of update_jobs_safe. */
    method UpdateJob(i: nat, now: nat)
      requires Valid() && i < 32
      modifies jobs, sched`head, sched`tail, sched`queue, sched.table
      ensures Valid() && Abs() == UpdateOne(old(Abs()), i, now)
    {
      hide Inv, Unblock;
      ghost var s := Abs();
      ghost var js: Jobs := jobs[..];
      UpdateOneInv(s, i, now);
      if !jobs[i].used { return; }
      var job := jobs[i];
      var t := sched.GetThreadSlot(job.tid);
      ThreadAt(sched.table[..], t);
      if t < 0 || sched.table[t].state == Terminated {
        jobs[i] := job.(used := false, state := JobDone);
        assert jobs[..] == js[i := jobs[i]];
        return;
      }
      if job.state == JobSleeping && job.sleepUntil > 0 {
        if now >= job.sleepUntil {
          sched.ThreadUnblock(job.tid);
          jobs[i] := job.(state := JobRunning, sleepUntil := 0);
          assert jobs[..] == js[i := jobs[i]];
        }
        return;
      }
      match sched.table[t].state {
        case Running | Ready =>
          if job.state != JobRunning { jobs[i] := job.(state := JobRunning); }
        case Blocked =>
          if job.sleepUntil > 0 {
            if job.state != JobSleeping { jobs[i] := job.(state := JobSleeping); }
          } else {
            if job.state != JobStopped { jobs[i] := job.(state := JobStopped); }
          }
      }
      assert jobs[..] == js[i := jobs[i]];
    }

    /** update_jobs_safe when the timer has counted `timer` ticks. */
    method UpdateJobsSafe(timer: nat)
      requires Valid()
      modifies jobs, sched`head, sched`tail, sched`queue, sched.table
      ensures Valid()
      ensures Abs() == if enabled then UpdateFrom(old(Abs()), 0, UptimeMs(timer)) else old(Abs())
    {
      hide Inv, UpdateOne;
      if !enabled { return; }
      var now := UptimeMs(timer);
      ghost var s := Abs();
      for i := 0 to 32
        invariant Valid()
        invariant UpdateFrom(Abs(), i, now) == UpdateFrom(s, 0, now)
      {
        UpdateJob(i, now);
      }
    }

    /** sleep_ticks on the current thread when the timer has counted `timer` ticks, up to the switch to another thread. The
        further call of schedule() that follows is a yield of the thread when it runs again. */
    method SleepTicks(ticks: nat, timer: nat)
      requires Valid()
      modifies jobs, sched`head, sched`tail, sched`current, sched`queue, sched.table
      ensures Valid() && Abs() == Sleep(old(Abs()), ticks, UptimeMs(timer))
    {
      if ticks == 0 || sched.current == -1 { return; }
      ghost var s := Abs();
      ghost var js: Jobs := jobs[..];
      ThreadAt(sched.table[..], sched.current);
      var tid := CurrentTid();
      var wake := WakeTime(UptimeMs(timer), ticks);
      var i := 0;
      while i < 32
        invariant 0 <= i <= 32 && jobs[..] == js && Abs() == s
        invariant JobOf(js, tid, 0) == JobOf(js, tid, i)
      {
        if jobs[i].used && jobs[i].tid == tid {
          jobs[i] := jobs[i].(state := JobSleeping, sleepUntil := wake);
          assert jobs[..] == js[i := jobs[i]];
          break;
        }
        i := i + 1;
      }
      assert jobs[..] == MarkSleeping(js, tid, wake);
      sched.ThreadBlock(tid);
    }

    method CurrentTid() returns (tid: u32)
      requires Valid() && sched.current != -1
      ensures 0 <= sched.current < 256 && tid == sched.Abs().threads[sched.current].tid
    {
      ThreadAt(sched.table[..], sched.current);
      tid := sched.table[sched.current].tid;
    }
  }
}
