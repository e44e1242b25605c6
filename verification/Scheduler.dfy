/** The scheduler's own data: a thread table whose READY threads are linked through next pointers, and per-process thread
    slots (src/kernel/Processes/scheduler.c, process.c). A pointer into a table is the slot number, NULL is -1. */
module SchedulerModule {
  import opened Basics
  import opened SchedSpec

  datatype ThreadRec = ThreadRec(used: bool, tid: u32, parent: nat, state: ThreadState, next: int)

  type Slots = s: seq<int> | |s| == 16 witness seq(16, _ => -1)

  datatype ProcessRec = ProcessRec(used: bool, pid: u32, state: ProcessState, slots: Slots, count: nat)

  type ThreadTable = t: seq<ThreadRec> | |t| == 256 witness seq(256, _ => ThreadRec(false, 0, 0, Terminated, -1))
  type ProcessTable = p: seq<ProcessRec> | |p| == 64 witness seq(64, _ => ProcessRec(false, 0, ProcTerminated, seq(16, _ => -1), 0))

  // ---- abstraction ----

  function AbsThread(r: ThreadRec): Thread { Thread(r.used, r.tid, r.parent, r.state) }

  function AbsThreads(t: ThreadTable): Threads { seq(256, i requires 0 <= i < 256 => AbsThread(t[i])) }

  ghost predicate SlotsOk(p: ProcessRec) { p.count <= 16 && forall k :: 0 <= k < p.count ==> p.slots[k] >= 0 }

  /** The list in the first `count` slots. */
  ghost function Listed(p: ProcessRec): (l: seq<nat>)
    requires SlotsOk(p)
    ensures |l| == p.count && forall k :: 0 <= k < p.count ==> l[k] == p.slots[k]
  {
    seq(p.count, k requires 0 <= k < p.count => p.slots[k])
  }

  ghost function AbsProc(p: ProcessRec): Process
    requires SlotsOk(p)
  {
    Process(p.used, p.pid, p.state, Listed(p))
  }

  ghost predicate AllSlotsOk(t: ProcessTable) { forall p :: 0 <= p < 64 ==> SlotsOk(t[p]) }

  ghost function AbsProcs(t: ProcessTable): Processes
    requires AllSlotsOk(t)
  {
    seq(64, p requires 0 <= p < 64 => AbsProc(t[p]))
  }

  /** The list from `head` to `tail` through the next pointers is `q`. */
  ghost predicate Threaded(t: ThreadTable, head: int, tail: int, q: seq<nat>) {
    && (forall k :: 0 <= k < |q| ==> q[k] < 256)
    && (if q == [] then head == -1 && tail == -1 else head == q[0] && tail == q[|q| - 1])
    && (forall k :: 0 <= k < |q| ==> t[q[k]].next == NextIn(q, k))
  }

  function NextIn(q: seq<nat>, k: nat): int { if k + 1 < |q| then q[k + 1] else -1 }

  lemma ThreadedAppend(t: ThreadTable, t': ThreadTable, head: int, tail: int, q: seq<nat>, x: nat)
    requires Threaded(t, head, tail, q) && Distinct(q) && x < 256 && x !in q
    requires t' == (if q == [] then t[x := t[x].(next := -1)]
                    else t[x := t[x].(next := -1)][tail := t[tail].(next := x)])
    ensures Threaded(t', if q == [] then x else head, x, q + [x])
  {
    var q' := q + [x];
    forall k | 0 <= k < |q'| ensures t'[q'[k]].next == NextIn(q', k) {
      if k < |q| - 1 { assert q[k] != q[|q| - 1]; }
    }
  }

  lemma ThreadedPop(t: ThreadTable, t': ThreadTable, head: int, tail: int, q: seq<nat>)
    requires Threaded(t, head, tail, q) && Distinct(q) && q != []
    requires forall i :: 0 <= i < 256 && i != q[0] ==> t'[i].next == t[i].next
    ensures t[q[0]].next == NextIn(q, 0)
    ensures tail == q[0] <==> |q| == 1
    ensures Threaded(t', NextIn(q, 0), if tail == q[0] then -1 else tail, q[1..])
  {
    var r := q[1..];
    forall k | 0 <= k < |r| ensures r[k] < 256 && t'[r[k]].next == NextIn(r, k) {
      assert r[k] == q[k + 1] && q[k + 1] != q[0] && NextIn(r, k) == NextIn(q, k + 1);
    }
  }

  /** Unlinking the element after position `k`. */
  lemma ThreadedUnlink(t: ThreadTable, t': ThreadTable, head: int, tail: int, q: seq<nat>, k: nat)
    requires Threaded(t, head, tail, q) && Distinct(q) && k + 1 < |q|
    requires t' == t[q[k] := t[q[k]].(next := t[q[k + 1]].next)][q[k + 1] := t[q[k + 1]].(next := -1)]
    ensures tail == q[k + 1] <==> k + 2 == |q|
    ensures Threaded(t', head, if tail == q[k + 1] then q[k] else tail, q[..k + 1] + q[k + 2..])
  {
    hide Distinct, NextIn;
    var r := q[..k + 1] + q[k + 2..];
    UnlinkEnds(q, k);
    forall j | 0 <= j < |r| ensures r[j] < 256 && t'[r[j]].next == NextIn(r, j) {
      UnlinkAt(t, t', head, tail, q, r, k, j);
    }
  }

  lemma UnlinkEnds(q: seq<nat>, k: nat)
    requires Distinct(q) && k + 1 < |q|
    ensures q[|q| - 1] == q[k + 1] <==> k + 2 == |q|
    ensures var r := q[..k + 1] + q[k + 2..];
            r != [] && r[0] == q[0] && r[|r| - 1] == if k + 2 == |q| then q[k] else q[|q| - 1]
  {
    hide Distinct;
    DistinctAt(q, k + 1, |q| - 1);
  }

  lemma WithoutHead(q: seq<nat>)
    requires Distinct(q) && q != []
    ensures Without(q, q[0]) == q[1..]
  {
    hide Distinct, Without;
    WithoutAt(q, 0);
    assert q[..0] + q[1..] == q[1..];
  }

  lemma DistinctAt(q: seq<nat>, i: nat, j: nat)
    requires Distinct(q) && i < |q| && j < |q|
    ensures q[i] == q[j] <==> i == j
  {
  }

  lemma UnlinkAt(t: ThreadTable, t': ThreadTable, head: int, tail: int, q: seq<nat>, r: seq<nat>, k: nat, j: nat)
    requires Threaded(t, head, tail, q) && Distinct(q) && k + 1 < |q| && r == q[..k + 1] + q[k + 2..] && j < |r|
    requires t' == t[q[k] := t[q[k]].(next := t[q[k + 1]].next)][q[k + 1] := t[q[k + 1]].(next := -1)]
    ensures r[j] < 256 && t'[r[j]].next == NextIn(r, j)
  {
    hide Distinct;
    var m := if j <= k then j else j + 1;
    assert r[j] == q[m];
    DistinctAt(q, m, k);
    DistinctAt(q, m, k + 1);
    assert t[q[m]].next == NextIn(q, m) && t[q[k + 1]].next == NextIn(q, k + 1);
    if j + 1 < |r| { assert r[j + 1] == q[if j + 1 <= k then j + 1 else j + 2]; }
  }

  /** Records that differ at most in their next pointers look the same. */
  lemma AbsNext(t: ThreadTable, t': ThreadTable)
    requires forall i :: 0 <= i < 256 ==> t'[i] == t[i].(next := t'[i].next)
    ensures AbsThreads(t') == AbsThreads(t)
  {
  }

  lemma AbsUpdate(t: ThreadTable, i: nat, r: ThreadRec)
    requires i < 256
    ensures AbsThreads(t[i := r]) == AbsThreads(t)[i := AbsThread(r)]
  {
  }

  class Scheduler {
    const table: array<ThreadRec>
    const procTable: array<ProcessRec>
    var head: int
    var tail: int
    var current: int
    var nextTid: u32
    var nextPid: u32

    /** The threads on the ready list, front first. */
    ghost var queue: seq<nat>

    ghost predicate Repr()
      reads this, table, procTable
    {
      && table.Length == 256 && procTable.Length == 64 && table as object != procTable as object
      && AllSlotsOk(procTable[..])
      && Threaded(table[..], head, tail, queue)
    }

    ghost function Abs(): Sched
      requires Repr()
      reads this, table, procTable
    {
      Sched(AbsThreads(table[..]), queue, current, AbsProcs(procTable[..]), nextTid, nextPid)
    }

    ghost predicate Valid()
      reads this, table, procTable
    {
      Repr() && Inv(Abs())
    }

    /** scheduler_init and process_init. */
    constructor ()
      ensures Valid() && fresh(table) && fresh(procTable)
      ensures Abs() == Boot()
    {
      table := new ThreadRec[256](_ => ThreadRec(false, 0, 0, Terminated, -1));
      procTable := new ProcessRec[64](_ => ProcessRec(false, 0, ProcTerminated, seq(16, _ => -1), 0));
      head, tail, current, nextTid, nextPid := -1, -1, -1, 1, 1;
      queue := [];
    }

    // ---- the ready list ----

    /** ready_queue_add. */
    method ReadyQueueAdd(t: nat)
      requires Repr() && Distinct(queue) && t < 256 && t !in queue
      modifies this`head, this`tail, this`queue, table
      ensures Repr() && Abs() == old(Abs()).(queue := old(queue) + [t])
    {
      hide Distinct, Threaded, AbsThreads, AbsProcs;
      ghost var t0: ThreadTable := table[..];
      assert head == -1 <==> queue == [] by { ThreadedEnds(t0, head, tail, queue); }
      ThreadedEnds(t0, head, tail, queue);
      table[t] := table[t].(next := -1);
      ghost var t1: ThreadTable := table[..];
      assert t1 == t0[t := t0[t].(next := -1)];
      ThreadedAppend(t0, if queue == [] then t1 else t1[tail := t0[tail].(next := t)], head, tail, queue, t);
      if head == -1 {
        head := t;
        tail := t;
      } else {
        table[tail] := table[tail].(next := t);
        assert table[..] == t1[tail := t0[tail].(next := t)];
        tail := t;
      }
      queue := queue + [t];
      AbsNext(t0, table[..]);
    }

    /** ready_queue_remove; nothing happens to a thread that is not on the list. */
    method ReadyQueueRemove(t: nat)
      requires Repr() && Distinct(queue) && t < 256
      modifies this`head, this`tail, this`queue, table
      ensures Repr() && Abs() == old(Abs()).(queue := Without(old(queue), t))
    {
      hide Distinct, Threaded, AbsThreads, AbsProcs, Without;
      ghost var t0: ThreadTable := table[..];
      ThreadedEnds(t0, head, tail, queue);
      if head == -1 {
        WithoutAbsent(queue, t);
        return;
      }
      if head == t {
        RemoveHead(t);
        return;
      }
      var c := head;
      ghost var k := 0;
      ThreadedNext(t0, head, tail, queue, 0);
      while table[c].next != -1
        invariant table[..] == t0 && head == old(head) && tail == old(tail) && queue == old(queue)
        invariant k < |queue| && c == queue[k] && c < 256
        invariant t !in queue[..k + 1]
        invariant table[c].next == NextIn(queue, k)
        decreases |queue| - k
      {
        ThreadedNext(t0, head, tail, queue, k + 1);
        if table[c].next == t {
          UnlinkAfter(c, t, k);
          return;
        }
        c := table[c].next;
        k := k + 1;
        ThreadedNext(t0, head, tail, queue, k);
        assert queue[..k + 1] == queue[..k] + [queue[k]];
      }
      assert queue[..k + 1] == queue;
      WithoutAbsent(queue, t);
    }

    method RemoveHead(t: nat)
      requires Repr() && Distinct(queue) && queue != [] && queue[0] == t && t < 256
      modifies this`head, this`tail, this`queue, table
      ensures Repr() && Abs() == old(Abs()).(queue := Without(old(queue), t))
    {
      hide Distinct, Threaded, AbsThreads, AbsProcs, Without, AllSlotsOk, NextIn;
      ghost var t0: ThreadTable := table[..];
      ghost var t1: ThreadTable := t0[t := t0[t].(next := -1)];
      ThreadedPop(t0, t1, head, tail, queue);
      AbsNext(t0, t1);
      WithoutHead(queue);
      head := table[t].next;
      if tail == t {
        tail := -1;
      }
      table[t] := table[t].(next := -1);
      assert table[..] == t1;
      queue := queue[1..];
    }

    /** Unlinks `t`, which follows `c` at position `k`. */
    method UnlinkAfter(c: nat, t: nat, ghost k: nat)
      requires Repr() && Distinct(queue) && k + 1 < |queue| && queue[k] == c < 256 && queue[k + 1] == t < 256
      modifies this`head, this`tail, this`queue, table
      ensures Repr() && Abs() == old(Abs()).(queue := Without(old(queue), t))
    {
      hide Distinct, Threaded, AbsThreads, AbsProcs, Without;
      ghost var t0: ThreadTable := table[..];
      DistinctAt(queue, k, k + 1);
      ghost var t2: ThreadTable := t0[c := t0[c].(next := t0[t].next)][t := t0[t].(next := -1)];
      ThreadedUnlink(t0, t2, head, tail, queue, k);
      table[c] := table[c].(next := table[t].next);
      if tail == t {
        tail := c;
      }
      table[t] := table[t].(next := -1);
      assert table[..] == t2;
      WithoutAt(queue, k + 1);
      queue := queue[..k + 1] + queue[k + 2..];
      AbsNext(t0, table[..]);
    }

    /** schedule() up to the context switch. */
    method Reschedule()
      requires Repr() && QueueOk(Abs()) && -1 <= current < 256
      modifies this`head, this`tail, this`current, this`queue, table
      ensures Repr() && Abs() == Schedule(old(Abs()))
    {
      hide Distinct, Threaded, AbsThreads, AbsProcs;
      ghost var s0 := Abs();
      var prev := current;
      ThreadAt(table[..], prev);
      if prev >= 0 && table[prev].state == Running {
        SetStateOf(prev, Ready);
        assert prev !in queue;
        ReadyQueueAdd(prev);
        DistinctAppend(s0.queue, prev);
      }
      assert Abs() == Requeue(s0);
      ThreadAt(table[..], prev);
      ThreadedEnds(table[..], head, tail, queue);
      var next := head;
      if next == -1 {
        if prev >= 0 && table[prev].state == Blocked {
          current := -1;
        }
        return;
      }
      PopHead();
      current := next;
    }

    /** Takes the front thread off the list and marks it running. */
    method PopHead()
      requires Repr() && Distinct(queue) && queue != []
      modifies this`head, this`tail, this`queue, table
      ensures Repr()
      ensures Abs() == SetState(old(Abs()), old(queue)[0], Running).(queue := old(queue)[1..])
    {
      hide Distinct, Threaded, AbsThreads, AbsProcs;
      ghost var t0: ThreadTable := table[..];
      ThreadedEnds(t0, head, tail, queue);
      ThreadedNext(t0, head, tail, queue, 0);
      var next := head;
      ghost var r := t0[next].(next := -1, state := Running);
      ThreadedPop(t0, t0[next := r], head, tail, queue);
      head := table[next].next;
      if tail == next {
        tail := -1;
      }
      table[next] := table[next].(next := -1, state := Running);
      assert table[..] == t0[next := r];
      AbsUpdate(t0, next, r);
      ThreadAt(t0, next);
      queue := queue[1..];
    }

    // ---- calls ----

    /** get_thread. */
    method GetThreadSlot(tid: u32) returns (i: int)
      requires Repr()
      ensures i == GetThread(Abs(), tid)
    {
      hide Threaded, AbsProcs;
      ghost var ts := AbsThreads(table[..]);
      i := 0;
      while i < 256
        invariant 0 <= i <= 256
        invariant FindTid(ts, tid, 0) == FindTid(ts, tid, i)
      {
        if table[i].used && table[i].tid == tid { return; }
        i := i + 1;
      }
      return -1;
    }

    /** thread_block. */
    method ThreadBlock(tid: u32)
      requires Valid()
      modifies this`head, this`tail, this`current, this`queue, table
      ensures Valid() && Abs() == Block(old(Abs()), tid)
    {
      hide Threaded, AbsThreads, AbsProcs, ListsOk;
      ghost var s := Abs();
      BlockInv(s, tid);
      var i := GetThreadSlot(tid);
      if i < 0 { return; }
      ThreadAt(table[..], i);
      if table[i].state == Blocked { return; }
      SetStateOf(i, Blocked);
      ReadyQueueRemove(i);
      assert Abs() == Unqueue(s, i);
      if i == current {
        UnqueueCurrent(s);
        Reschedule();
      }
    }

    /** thread_unblock. */
    method ThreadUnblock(tid: u32)
      requires Valid()
      modifies this`head, this`tail, this`queue, table
      ensures Valid() && Abs() == Unblock(old(Abs()), tid)
    {
      hide Threaded, AbsThreads, AbsProcs, ListsOk;
      UnblockInv(Abs(), tid);
      var i := GetThreadSlot(tid);
      if i < 0 { return; }
      ThreadAt(table[..], i);
      if table[i].state != Blocked { return; }
      assert i !in queue;
      SetStateOf(i, Ready);
      ReadyQueueAdd(i);
    }

    /** thread_yield with the scheduler enabled. */
    method ThreadYield()
      requires Valid()
      modifies this`head, this`tail, this`current, this`queue, table
      ensures Valid() && Abs() == Yield(old(Abs()))
    {
      hide Threaded, AbsThreads, AbsProcs, ListsOk;
      ThreadedEnds(table[..], head, tail, queue);
      if current == -1 {
        if head != -1 {
          ScheduleInv(Abs());
          Reschedule();
        }
        return;
      }
      ScheduleInv(Abs());
      Reschedule();
    }

    /** scheduler_tick with the scheduler enabled. */
    method SchedulerTick()
      requires Valid()
      modifies this`head, this`tail, this`current, this`queue, table
      ensures Valid() && Abs() == Tick(old(Abs()))
    {
      hide Threaded, AbsThreads, AbsProcs, ListsOk;
      ThreadedEnds(table[..], head, tail, queue);
      if head != -1 {
        ScheduleInv(Abs());
        Reschedule();
      }
    }

    /** The removal loop of thread_exit: the slots behind `t` move up by one. */
    method RemoveFromProcess(p: nat, t: nat)
      requires Repr() && p < 64 && Distinct(Abs().procs[p].threads)
      modifies procTable
      ensures Repr() && procTable[p].count == |Abs().procs[p].threads|
      ensures var l := Without(old(Abs()).procs[p].threads, t);
              Abs() == old(Abs()).(procs := old(Abs()).procs[p := old(Abs()).procs[p].(threads := l)])
    {
      hide Threaded, AbsThreads, Without, Distinct;
      ghost var rec := procTable[p];
      ghost var l := Listed(rec);
      ghost var pt: ProcessTable := procTable[..];
      for i := 0 to procTable[p].count
        invariant procTable[..] == pt
        invariant t !in l[..i]
      {
        if procTable[p].slots[i] == t {
          var slots := ShiftUp(procTable[p].slots, i, procTable[p].count);
          procTable[p] := procTable[p].(slots := slots[procTable[p].count - 1 := -1], count := procTable[p].count - 1);
          assert procTable[..] == pt[p := procTable[p]];
          WithoutAt(l, i);
          SlotsWithout(rec, procTable[p], i);
          return;
        }
        assert l[..i + 1] == l[..i] + [l[i]];
      }
      assert l[..|l|] == l;
      WithoutAbsent(l, t);
      assert Abs().procs[p] == old(Abs()).procs[p];
      assert old(Abs()).procs == old(Abs()).procs[p := old(Abs()).procs[p].(threads := l)];
    }

    /** thread_exit of the current thread, up to the context switch. */
    method ThreadExit()
      requires Valid()
      modifies this`head, this`tail, this`current, this`queue, table, procTable
      ensures Valid() && Abs() == Exit(old(Abs()))
    {
      hide Threaded, AbsThreads, AbsProcs, Without, Distinct;
      if current == -1 { return; }
      ghost var s := Abs();
      ExitInv(s);
      ProcAt(procTable[..]);
      LeaveBetween(s);
      var c := current;
      ghost var t0: ThreadTable := table[..];
      ThreadAt(t0, c);
      FreeThread(c);
      var p := table[c].parent;
      RemoveFromProcess(p, c);
      if procTable[p].count == 0 {
        TerminateProcess(p);
      }
      current := -1;
      assert Abs() == Leave(s);
      Reschedule();
    }

    method FreeThread(c: nat)
      requires Repr() && c < 256
      modifies table
      ensures Repr() && table[c].parent == old(table[c].parent)
      ensures Abs() == old(Abs()).(threads := old(Abs()).threads[c := old(Abs()).threads[c].(used := false, state := Terminated)])
    {
      hide Threaded, AbsThreads, AbsProcs;
      ghost var t0: ThreadTable := table[..];
      ThreadAt(t0, c);
      var gone := table[c].(state := Terminated, used := false);
      table[c] := gone;
      assert table[..] == t0[c := gone];
      AbsUpdate(t0, c, gone);
      ThreadedState(t0, c, gone, head, tail, queue);
    }

    method TerminateProcess(p: nat)
      requires Repr() && p < 64
      modifies procTable
      ensures Repr()
      ensures Abs() == old(Abs()).(procs := old(Abs()).procs[p := old(Abs()).procs[p].(state := ProcTerminated)])
    {
      hide Threaded, AbsThreads;
      ghost var pt: ProcessTable := procTable[..];
      procTable[p] := procTable[p].(state := ProcTerminated);
      assert procTable[..] == pt[p := pt[p].(state := ProcTerminated)];
      assert Listed(procTable[p]) == Listed(pt[p]);
    }

    /** thread_create; `stackGiven` is whether the stack allocation succeeds. */
    method ThreadCreate(pid: u32, entryGiven: bool, stackGiven: bool) returns (r: int)
      requires Valid()
      modifies this`head, this`tail, this`current, this`queue, this`nextTid, table, procTable
      ensures Valid() && Abs() == Create(old(Abs()), pid, entryGiven, stackGiven)
      ensures r == if CanCreate(old(Abs()), pid, entryGiven, stackGiven) then old(nextTid) else -1
    {
      hide Threaded, AbsThreads, AbsProcs, Distinct, Inv, Enter, Schedule;
      ghost var s := Abs();
      CreateInv(s, pid, entryGiven, stackGiven);
      if !entryGiven { return -1; }
      var p := GetProcessSlot(pid);
      if p < 0 { return -1; }
      ProcAt(procTable[..]);
      if procTable[p].count >= 16 { return -1; }
      var slot := FindFreeThreadSlot();
      if slot < 0 { return -1; }
      if !stackGiven { return -1; }
      r := nextTid;
      ThreadAt(table[..], slot);
      EnterThread(p, slot);
      if current == -1 {
        EnterInv(s, p, slot);
        Reschedule();
      }
    }

    /** Fills the slot, counts the thread id up and queues the thread. */
    method EnterThread(p: nat, slot: nat)
      requires Valid() && p < 64 && slot < 256 && procTable[p].count < 16 && !table[slot].used
      modifies this`head, this`tail, this`queue, this`nextTid, table, procTable
      ensures Repr() && Abs() == Enter(old(Abs()), p, slot)
    {
      hide Threaded, AbsThreads, Distinct;
      ghost var s := Abs();
      ThreadAt(table[..], slot);
      assert slot !in queue by { assert !s.threads[slot].used; }
      FillSlot(p, slot);
      nextTid := (nextTid + 1) % 0x1_0000_0000;
      ReadyQueueAdd(slot);
    }

    /** The new thread's record and its place in the process's list. */
    method FillSlot(p: nat, slot: nat)
      requires Repr() && p < 64 && slot < 256 && procTable[p].count < 16 && slot !in queue
      modifies table, procTable
      ensures Repr()
      ensures var s := old(Abs());
              Abs() == s.(threads := s.threads[slot := Thread(true, nextTid, p, Ready)],
                          procs := s.procs[p := s.procs[p].(threads := s.procs[p].threads + [slot])])
    {
      hide Threaded, AbsThreads;
      ghost var t0: ThreadTable, pt: ProcessTable := table[..], procTable[..];
      ghost var r := ThreadRec(true, nextTid, p, Ready, -1);
      table[slot] := ThreadRec(true, nextTid, p, Ready, -1);
      assert table[..] == t0[slot := r];
      AbsUpdate(t0, slot, r);
      ThreadedOutside(t0, slot, r, head, tail, queue);
      procTable[p] := procTable[p].(slots := procTable[p].slots[procTable[p].count := slot], count := procTable[p].count + 1);
      assert procTable[..] == pt[p := procTable[p]];
      assert Listed(procTable[p]) == Listed(pt[p]) + [slot];
    }

    method GetProcessSlot(pid: u32) returns (i: int)
      requires Repr()
      ensures i == FindPid(Abs().procs, pid, 0)
    {
      hide Threaded, AbsThreads;
      ghost var ps := AbsProcs(procTable[..]);
      i := 0;
      while i < 64
        invariant 0 <= i <= 64
        invariant FindPid(ps, pid, 0) == FindPid(ps, pid, i)
      {
        if procTable[i].used && procTable[i].pid == pid { return; }
        i := i + 1;
      }
      return -1;
    }

    method FindFreeThreadSlot() returns (i: int)
      requires Repr()
      ensures i == FreeSlot(Abs().threads, 0)
    {
      hide Threaded, AbsProcs;
      ghost var ts := AbsThreads(table[..]);
      i := 0;
      while i < 256
        invariant 0 <= i <= 256
        invariant FreeSlot(ts, 0) == FreeSlot(ts, i)
      {
        if !table[i].used { return; }
        i := i + 1;
      }
      return -1;
    }

    /** process_create. */
    method ProcessCreate() returns (r: int)
      requires Valid()
      modifies this`nextPid, procTable
      ensures Valid() && Abs() == CreateProcess(old(Abs()))
      ensures r == if FreeProc(old(Abs()).procs, 0) == -1 then -1 else old(nextPid)
    {
      hide Threaded, AbsThreads, QueueOk, CurrentOk;
      ghost var s := Abs();
      CreateProcessInv(s);
      ghost var pt: ProcessTable := procTable[..];
      var i := 0;
      while i < 64
        invariant 0 <= i <= 64
        invariant FreeProc(s.procs, 0) == FreeProc(s.procs, i)
      {
        if !procTable[i].used {
          r := nextPid;
          procTable[i] := procTable[i].(used := true, pid := nextPid, state := ProcReady, count := 0);
          assert procTable[..] == pt[i := procTable[i]];
          assert Listed(procTable[i]) == [];
          AbsProcUpdate(pt, i, procTable[i]);
          nextPid := (nextPid + 1) % 0x1_0000_0000;
          return;
        }
        i := i + 1;
      }
      return -1;
    }

    method SetStateOf(t: nat, st: ThreadState)
      requires Repr() && t < 256
      modifies table
      ensures Repr() && Abs() == SetState(old(Abs()), t, st)
    {
      hide Threaded, AbsThreads, AbsProcs;
      ghost var t0: ThreadTable := table[..];
      ghost var r := t0[t].(state := st);
      table[t] := table[t].(state := st);
      assert table[..] == t0[t := r];
      AbsUpdate(t0, t, r);
      ThreadAt(t0, t);
      ThreadedState(t0, t, r, head, tail, queue);
    }
  }

  lemma ThreadedState(t: ThreadTable, i: nat, r: ThreadRec, head: int, tail: int, q: seq<nat>)
    requires Threaded(t, head, tail, q) && i < 256 && r.next == t[i].next
    ensures Threaded(t[i := r], head, tail, q)
  {
  }

  lemma ThreadedOutside(t: ThreadTable, i: nat, r: ThreadRec, head: int, tail: int, q: seq<nat>)
    requires Threaded(t, head, tail, q) && i < 256 && i !in q
    ensures Threaded(t[i := r], head, tail, q)
  {
  }

  lemma SlotsWithout(r: ProcessRec, r': ProcessRec, i: nat)
    requires SlotsOk(r) && i < r.count && r'.count == r.count - 1
    requires r'.slots[..r'.count] == r.slots[..i] + r.slots[i + 1..r.count]
    ensures SlotsOk(r') && Listed(r') == Listed(r)[..i] + Listed(r)[i + 1..]
  {
    forall k | 0 <= k < r'.count ensures r'.slots[k] == r.slots[if k < i then k else k + 1] {
      assert r'.slots[k] == r'.slots[..r'.count][k];
    }
  }

  lemma ProcAt(t: ProcessTable)
    requires AllSlotsOk(t)
    ensures forall p :: 0 <= p < 64 ==> AbsProcs(t)[p] == AbsProc(t[p])
  {
  }

  lemma AbsProcUpdate(t: ProcessTable, p: nat, r: ProcessRec)
    requires AllSlotsOk(t) && p < 64 && SlotsOk(r)
    ensures AllSlotsOk(t[p := r]) && AbsProcs(t[p := r]) == AbsProcs(t)[p := AbsProc(r)]
  {
  }

  /** `slots` with the entries behind `i` moved up by one, below `count`. */
  method ShiftUp(slots: Slots, i: nat, count: nat) returns (r: Slots)
    requires i < count <= 16
    ensures r == slots[..i] + slots[i + 1..count] + slots[count - 1..]
  {
    r := slots;
    for j := i to count - 1
      invariant r[..i] == slots[..i] && r[j..] == slots[j..]
      invariant forall k :: i <= k < j ==> r[k] == slots[k + 1]
    {
      assert r[j + 1] == r[j..][1] == slots[j + 1];
      r := r[j := r[j + 1]];
      assert r[j + 1..] == slots[j..][1..];
    }
    var last := count - 1;
    assert r[i..last] == slots[i + 1..count];
    assert r == r[..i] + r[i..last] + r[last..];
  }

  lemma ThreadAt(t: ThreadTable, i: int)
    ensures 0 <= i < 256 ==> AbsThreads(t)[i] == AbsThread(t[i])
  {
  }

  lemma ThreadedNext(t: ThreadTable, head: int, tail: int, q: seq<nat>, k: nat)
    requires Threaded(t, head, tail, q) && k < |q|
    ensures q[k] < 256 && t[q[k]].next == NextIn(q, k)
  {
  }

  lemma ThreadedEnds(t: ThreadTable, head: int, tail: int, q: seq<nat>)
    requires Threaded(t, head, tail, q)
    ensures head == -1 <==> q == []
    ensures q != [] ==> head == q[0] && tail == q[|q| - 1] && 0 <= tail < 256 && tail in q
    ensures q == [] ==> tail == -1
  {
  }
}
