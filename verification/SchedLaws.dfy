/** Process ids over whole runs, and what single scheduler calls do to the threads and processes they are about. */
module SchedLaws {
  import opened Basics
  import opened SchedSpec
  import opened SchedRuns

  // ---- process ids ----

  /** The first processes are in use, numbered from 1 on, and the next number is the one behind them. */
  ghost predicate PidsOk(s: Sched) {
    && 1 <= s.nextPid <= 65
    && forall p :: 0 <= p < 64 ==> (s.procs[p].used <==> p < s.nextPid - 1) && (s.procs[p].used ==> s.procs[p].pid == p + 1)
  }

  /** Processes keep their slots and ids. */
  ghost predicate SamePids(s: Sched, s': Sched) {
    && s'.nextPid == s.nextPid
    && forall p :: 0 <= p < 64 ==> s'.procs[p].used == s.procs[p].used && s'.procs[p].pid == s.procs[p].pid
  }

  /** Every call but process_create keeps all process ids; process_create gives the next number to a new process. */
  lemma StepPids(s: Sched, op: Op)
    requires Inv(s) && PidsOk(s)
    ensures PidsOk(Step(s, op))
    ensures op.ProcessOp? && s.nextPid < 65 ==>
              && Step(s, op).nextPid == s.nextPid + 1
              && Step(s, op).procs[s.nextPid - 1] == Process(true, s.nextPid, ProcReady, [])
              && forall p :: 0 <= p < 64 && p != s.nextPid - 1 ==> Step(s, op).procs[p] == s.procs[p]
    ensures !op.ProcessOp? || s.nextPid == 65 ==> SamePids(s, Step(s, op))
  {
    if op.ProcessOp? {
      NewPid(s);
      hide CreateProcess, PidsOk;
    } else {
      KeepsPids(s, op);
      hide Inv, Step;
    }
  }

  lemma KeepsPids(s: Sched, op: Op)
    requires Inv(s) && !op.ProcessOp?
    ensures SamePids(s, Step(s, op))
  {
    hide ListsOk, Create, Block, Exit, Schedule;
    match op
    case CreateOp(pid, e, g) => CreatePids(s, pid, e, g);
    case BlockOp(tid) => BlockPids(s, tid);
    case UnblockOp(tid) =>
    case ExitOp => ExitPids(s);
    case YieldOp => SchedulePids(s);
    case TickOp => SchedulePids(s);
  }

  lemma SchedulePids(s: Sched)
    requires -1 <= s.current < 256 && forall k :: 0 <= k < |s.queue| ==> s.queue[k] < 256
    ensures Schedule(s).procs == s.procs && Schedule(s).nextPid == s.nextPid
  { }

  lemma BlockPids(s: Sched, tid: u32)
    requires Inv(s)
    ensures Block(s, tid).procs == s.procs && Block(s, tid).nextPid == s.nextPid
  {
    hide ListsOk, Without;
  }

  lemma CreatePids(s: Sched, pid: u32, e: bool, g: bool)
    requires Inv(s)
    ensures SamePids(s, Create(s, pid, e, g))
  {
    hide ListsOk;
  }

  lemma ExitPids(s: Sched)
    requires Inv(s)
    ensures SamePids(s, Exit(s))
  {
    hide Without;
  }

  lemma NewPid(s: Sched)
    requires PidsOk(s)
    ensures PidsOk(CreateProcess(s))
    ensures if s.nextPid == 65 then CreateProcess(s) == s
            else CreateProcess(s) == s.(procs := s.procs[s.nextPid - 1 := Process(true, s.nextPid, ProcReady, [])], nextPid := s.nextPid + 1)
  {
    FirstFree(s);
    hide FreeProc;
  }

  lemma FirstFree(s: Sched)
    requires PidsOk(s)
    ensures FreeProc(s.procs, 0) == if s.nextPid == 65 then -1 else s.nextPid - 1
  {
    var k := FreeProc(s.procs, 0);
    if s.nextPid < 65 { assert !s.procs[s.nextPid - 1].used; }
  }

  lemma BootPids()
    ensures PidsOk(Boot())
  { }

  /** In every state reachable from boot the processes in use have distinct ids, in the order of their creation. */
  lemma PidsReachable(ops: seq<Op>)
    ensures Inv(Boot()) && PidsOk(RunState(Boot(), ops))
  {
    Reachable(ops);
    BootPids();
    hide Inv, Boot, PidsOk;
    RunPids(Boot(), ops);
  }

  lemma {:induction false} RunPids(s: Sched, ops: seq<Op>)
    requires Inv(s) && PidsOk(s)
    ensures PidsOk(RunState(s, ops))
    decreases |ops|
  {
    hide Inv, Step, PidsOk;
    if ops != [] {
      StepInv(s, ops[0]);
      StepPids(s, ops[0]);
      RunPids(Step(s, ops[0]), ops[1..]);
    }
  }

  // ---- single calls ----

  /** An exit frees the current thread's slot and takes it out of its process's list, which keeps its order; the process is
      terminated exactly when that was its last thread, and no other process is touched. */
  lemma ExitLeaves(s: Sched)
    requires Inv(s) && s.current != -1
    ensures var (c, s') := (s.current, Exit(s));
            var p := s.threads[c].parent;
            && p < 64 && !s'.threads[c].used
            && (exists k :: 0 <= k < |s.procs[p].threads| && s.procs[p].threads[k] == c
                  && s'.procs[p].threads == s.procs[p].threads[..k] + s.procs[p].threads[k + 1..])
            && s'.procs[p].state == (if |s.procs[p].threads| == 1 then ProcTerminated else s.procs[p].state)
            && forall q :: 0 <= q < 64 && q != p ==> s'.procs[q] == s.procs[q]
  {
    hide QueueOk;
    var c := s.current;
    var p := s.threads[c].parent;
    ListedOnce(s, c);
    var k :| 0 <= k < |s.procs[p].threads| && s.procs[p].threads[k] == c;
    WithoutAt(s.procs[p].threads, k);
  }

  lemma ListedOnce(s: Sched, c: nat)
    requires ListsOk(s) && c < 256 && s.threads[c].used
    ensures s.threads[c].parent < 64 && c in s.procs[s.threads[c].parent].threads && Distinct(s.procs[s.threads[c].parent].threads)
  { }

  /** thread_create is refused exactly without an entry point or a stack, for an unknown process, for one that has 16
      threads, or when all 256 slots are in use. */
  lemma CreateRefusals(s: Sched, pid: u32, entryGiven: bool, stackGiven: bool)
    requires Inv(s) && PidsOk(s)
    ensures CanCreate(s, pid, entryGiven, stackGiven) <==>
            && entryGiven && stackGiven
            && 1 <= pid < s.nextPid && |s.procs[pid - 1].threads| < 16
            && exists t :: 0 <= t < 256 && !s.threads[t].used
  {
    hide Inv;
    var p := FindPid(s.procs, pid, 0);
    if 1 <= pid < s.nextPid { assert s.procs[pid - 1].used && s.procs[pid - 1].pid == pid; }
  }

  /** A thread created gets the next thread id and belongs to the process asked for; all other threads keep id and process. */
  lemma CreateAdds(s: Sched, pid: u32, entryGiven: bool, stackGiven: bool) returns (t: nat)
    requires Inv(s) && PidsOk(s) && CanCreate(s, pid, entryGiven, stackGiven)
    ensures var s' := Create(s, pid, entryGiven, stackGiven);
            && t < 256 && !s.threads[t].used && s'.threads[t].used && s'.threads[t].tid == s.nextTid && s'.threads[t].parent == pid - 1
            && (s'.threads[t].state == Ready || s'.threads[t].state == Running)
            && s'.procs[pid - 1].threads == s.procs[pid - 1].threads + [t]
            && s'.nextTid == (s.nextTid + 1) % 0x1_0000_0000
            && forall u :: 0 <= u < 256 && u != t ==> s'.threads[u] == s.threads[u].(state := s'.threads[u].state)
  {
    hide ListsOk;
    CreateRefusals(s, pid, entryGiven, stackGiven);
    t := FreeSlot(s.threads, 0);
  }

  /** A blocked thread that is unblocked is READY at the end of the queue, and nothing else changes. */
  lemma UnblockReadies(s: Sched, tid: u32)
    requires GetThread(s, tid) != -1 && s.threads[GetThread(s, tid)].state == Blocked
    ensures var (t, s') := (GetThread(s, tid), Unblock(s, tid));
            s' == s.(threads := s'.threads, queue := s.queue + [t])
            && s'.threads == s.threads[t := s.threads[t].(state := Ready)]
  { }

  /** A thread that is blocked is BLOCKED and not in the queue, whatever it was before. */
  lemma BlockBlocks(s: Sched, tid: u32)
    requires Inv(s) && GetThread(s, tid) != -1
    ensures var (t, s') := (GetThread(s, tid), Block(s, tid));
            s'.threads[t] == s.threads[t].(state := Blocked) && t !in s'.queue && t != s'.current
  {
    hide ListsOk;
    var t := GetThread(s, tid);
    WithoutKeeps(s.queue, t);
    if t == s.current && s.threads[t].state != Blocked { UnqueueCurrent(s); }
  }
}
