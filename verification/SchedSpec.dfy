/** The scheduler as a state machine over whole kernel calls (src/kernel/Processes/scheduler.c, process.c). */
module SchedSpec {
  import opened Basics

  type u32 = x: int | 0 <= x < 0x1_0000_0000

  datatype ThreadState = Ready | Running | Blocked | Terminated

  /** A slot of the thread table; `parent` is the slot of its process. */
  datatype Thread = Thread(used: bool, tid: u32, parent: nat, state: ThreadState)

  datatype ProcessState = ProcReady | ProcRunning | ProcBlocked | ProcTerminated

  /** A slot of the process table with the thread slots it lists. */
  datatype Process = Process(used: bool, pid: u32, state: ProcessState, threads: seq<nat>)

  type Threads = t: seq<Thread> | |t| == 256 witness seq(256, _ => Thread(false, 0, 0, Terminated))
  type Processes = p: seq<Process> | |p| == 64 witness seq(64, _ => Process(false, 0, ProcTerminated, []))

  /** `current` is a thread slot, or -1 when no thread is current. */
  datatype Sched = Sched(threads: Threads, queue: seq<nat>, current: int, procs: Processes, nextTid: u32, nextPid: u32)

  /** A scheduler without threads or processes. */
  function Boot(): Sched {
    Sched(seq(256, _ => Thread(false, 0, 0, Terminated)), [], -1, seq(64, _ => Process(false, 0, ProcTerminated, [])), 1, 1)
  }

  // ---- sequences without repetition ----

  function Without(q: seq<nat>, x: nat): seq<nat> {
    if q == [] then [] else if q[0] == x then q[1..] else [q[0]] + Without(q[1..], x)
  }

  lemma {:induction false} WithoutAt(q: seq<nat>, k: nat)
    requires Distinct(q) && k < |q|
    ensures Without(q, q[k]) == q[..k] + q[k + 1..]
  {
    if k > 0 {
      assert q[0] != q[k];
      DistinctTail(q);
      WithoutAt(q[1..], k - 1);
      assert q[1..][..k - 1] == q[1..k] && q[1..][k..] == q[k + 1..];
      assert [q[0]] + (q[1..k] + q[k + 1..]) == q[..k] + q[k + 1..];
    }
  }

  lemma DistinctTail(q: seq<nat>)
    requires Distinct(q) && q != []
    ensures Distinct(q[1..])
  {
    var r := q[1..];
    forall i, j | 0 <= i < |r| && 0 <= j < |r| && r[i] == r[j] ensures i == j {
      assert q[i + 1] == q[j + 1];
    }
  }

  lemma {:induction false} WithoutAbsent(q: seq<nat>, x: nat)
    requires x !in q
    ensures Without(q, x) == q
  {
    if q != [] {
      WithoutAbsent(q[1..], x);
    }
  }

  lemma {:induction false} WithoutMembers(q: seq<nat>, x: nat)
    requires Distinct(q)
    ensures |Without(q, x)| == |q| - if x in q then 1 else 0
    ensures forall y :: y in Without(q, x) <==> y in q && y != x
  {
    if q != [] {
      DistinctTail(q);
      assert forall k :: 0 < k < |q| ==> q[k] == q[1..][k - 1];
      assert q[0] !in q[1..];
      WithoutMembers(q[1..], x);
      assert forall y :: y in q <==> y == q[0] || y in q[1..];
      assert q[0] != x ==> forall y :: y in Without(q, x) <==> y == q[0] || y in Without(q[1..], x);
    }
  }

  lemma {:induction false} WithoutDistinct(q: seq<nat>, x: nat)
    requires Distinct(q)
    ensures Distinct(Without(q, x))
  {
    if q != [] {
      DistinctTail(q);
      if q[0] != x {
        WithoutDistinct(q[1..], x);
        WithoutMembers(q[1..], x);
        assert forall k :: 0 < k < |q| ==> q[k] == q[1..][k - 1];
        assert q[0] !in Without(q[1..], x);
      }
    }
  }

  lemma WithoutKeeps(q: seq<nat>, x: nat)
    requires Distinct(q)
    ensures Distinct(Without(q, x))
    ensures |Without(q, x)| == |q| - if x in q then 1 else 0
    ensures forall y :: y in Without(q, x) <==> y in q && y != x
    ensures forall k :: 0 <= k < |Without(q, x)| ==> Without(q, x)[k] in q
  {
    WithoutDistinct(q, x);
    WithoutMembers(q, x);
    var r := Without(q, x);
    forall k | 0 <= k < |r| ensures r[k] in q {
      assert r[k] in r;
    }
  }

  lemma DistinctAppend(q: seq<nat>, x: nat)
    requires Distinct(q) && x !in q
    ensures Distinct(q + [x])
  {
  }

  // ---- lookups ----

  /** The first used slot from `k` on with that thread id, or -1. */
  function FindTid(threads: Threads, tid: u32, k: nat): (i: int)
    requires k <= 256
    ensures i == -1 || (k <= i < 256 && threads[i].used && threads[i].tid == tid)
    ensures forall j :: k <= j < (if i == -1 then 256 else i) ==> !(threads[j].used && threads[j].tid == tid)
    decreases 256 - k
  {
    if k == 256 then -1
    else if threads[k].used && threads[k].tid == tid then k
    else FindTid(threads, tid, k + 1)
  }

  function GetThread(s: Sched, tid: u32): (i: int)
    ensures i == -1 || (0 <= i < 256 && s.threads[i].used && s.threads[i].tid == tid)
    ensures i == -1 ==> forall j :: 0 <= j < 256 ==> !(s.threads[j].used && s.threads[j].tid == tid)
  {
    FindTid(s.threads, tid, 0)
  }

  function FindPid(procs: Processes, pid: u32, k: nat): (i: int)
    requires k <= 64
    ensures i == -1 || (k <= i < 64 && procs[i].used && procs[i].pid == pid)
    ensures forall j :: k <= j < (if i == -1 then 64 else i) ==> !(procs[j].used && procs[j].pid == pid)
    decreases 64 - k
  {
    if k == 64 then -1
    else if procs[k].used && procs[k].pid == pid then k
    else FindPid(procs, pid, k + 1)
  }

  function FreeSlot(threads: Threads, k: nat): (i: int)
    requires k <= 256
    ensures i == -1 || (k <= i < 256 && !threads[i].used)
    ensures forall j :: k <= j < (if i == -1 then 256 else i) ==> threads[j].used
    decreases 256 - k
  {
    if k == 256 then -1 else if !threads[k].used then k else FreeSlot(threads, k + 1)
  }

  function FreeProc(procs: Processes, k: nat): (i: int)
    requires k <= 64
    ensures i == -1 || (k <= i < 64 && !procs[i].used)
    ensures forall j :: k <= j < (if i == -1 then 64 else i) ==> procs[j].used
    decreases 64 - k
  {
    if k == 64 then -1 else if !procs[k].used then k else FreeProc(procs, k + 1)
  }

  // ---- the calls ----

  function SetState(s: Sched, t: nat, st: ThreadState): Sched
    requires t < 256
  {
    s.(threads := s.threads[t := s.threads[t].(state := st)])
  }

  /** First half of schedule(): a running current thread goes to the back of the queue. */
  function Requeue(s: Sched): Sched
    requires -1 <= s.current < 256
  {
    if s.current >= 0 && s.threads[s.current].state == Running
    then SetState(s, s.current, Ready).(queue := s.queue + [s.current])
    else s
  }

  /** Second half: the front of the queue runs; with nothing ready a blocked current thread is dropped and the
      processor halts until an interrupt. */
  function Dispatch(s: Sched): Sched
    requires -1 <= s.current < 256 && forall k :: 0 <= k < |s.queue| ==> s.queue[k] < 256
  {
    if s.queue == [] then
      if s.current >= 0 && s.threads[s.current].state == Blocked then s.(current := -1) else s
    else
      SetState(s, s.queue[0], Running).(queue := s.queue[1..], current := s.queue[0])
  }

  function Schedule(s: Sched): Sched
    requires -1 <= s.current < 256 && forall k :: 0 <= k < |s.queue| ==> s.queue[k] < 256
  {
    Dispatch(Requeue(s))
  }

  function Unqueue(s: Sched, i: nat): Sched
    requires i < 256
  {
    SetState(s, i, Blocked).(queue := Without(s.queue, i))
  }

  function Block(s: Sched, tid: u32): Sched
    requires Inv(s)
  {
    var i := GetThread(s, tid);
    if i == -1 || s.threads[i].state == Blocked then s
    else if i == s.current then WithoutKeeps(s.queue, i); Schedule(Unqueue(s, i))
    else Unqueue(s, i)
  }

  function Unblock(s: Sched, tid: u32): Sched {
    var i := GetThread(s, tid);
    if i == -1 || s.threads[i].state != Blocked then s
    else SetState(s, i, Ready).(queue := s.queue + [i])
  }

  /** The current thread leaves its process and its slot; a process without threads is terminated. */
  function Leave(s: Sched): Sched
    requires Inv(s) && s.current >= 0
  {
    var c := s.current;
    var p := s.threads[c].parent;
    var left := Without(s.procs[p].threads, c);
    s.(threads := s.threads[c := s.threads[c].(used := false, state := Terminated)],
       procs := s.procs[p := s.procs[p].(threads := left, state := if left == [] then ProcTerminated else s.procs[p].state)],
       current := -1)
  }

  function Exit(s: Sched): Sched
    requires Inv(s)
  {
    if s.current == -1 then s else Schedule(Leave(s))
  }

  function Yield(s: Sched): Sched
    requires Inv(s)
  {
    if s.current == -1 && s.queue == [] then s else Schedule(s)
  }

  function Tick(s: Sched): Sched
    requires Inv(s)
  {
    if s.queue == [] then s else Schedule(s)
  }

  /** A new READY thread in a free slot, listed by its process and queued. */
  function Enter(s: Sched, p: nat, slot: nat): Sched
    requires p < 64 && slot < 256
  {
    s.(threads := s.threads[slot := Thread(true, s.nextTid, p, Ready)],
       procs := s.procs[p := s.procs[p].(threads := s.procs[p].threads + [slot])],
       queue := s.queue + [slot],
       nextTid := (s.nextTid + 1) % 0x1_0000_0000)
  }

  predicate CanCreate(s: Sched, pid: u32, entryGiven: bool, stackGiven: bool) {
    && entryGiven && stackGiven
    && FindPid(s.procs, pid, 0) != -1 && |s.procs[FindPid(s.procs, pid, 0)].threads| < 16
    && FreeSlot(s.threads, 0) != -1
  }

  /** thread_create; `stackGiven` is the allocator's answer. */
  function Create(s: Sched, pid: u32, entryGiven: bool, stackGiven: bool): Sched
    requires Inv(s)
  {
    if !CanCreate(s, pid, entryGiven, stackGiven) then s
    else
      var s1 := Enter(s, FindPid(s.procs, pid, 0), FreeSlot(s.threads, 0));
      if s.current == -1 then Schedule(s1) else s1
  }

  function CreateProcess(s: Sched): Sched {
    var p := FreeProc(s.procs, 0);
    if p == -1 then s
    else s.(procs := s.procs[p := Process(true, s.nextPid, ProcReady, [])], nextPid := (s.nextPid + 1) % 0x1_0000_0000)
  }

  // ---- invariants ----

  /** The queue lists exactly the used READY threads, each once. */
  ghost predicate QueueOk(s: Sched) {
    && Distinct(s.queue)
    && (forall k :: 0 <= k < |s.queue| ==> s.queue[k] < 256)
    && (forall t :: 0 <= t < 256 ==> (t in s.queue <==> s.threads[t].used && s.threads[t].state == Ready))
  }

  /** At most one thread runs, and it is the current one; free slots are terminated and used ones are not. */
  ghost predicate CurrentOk(s: Sched) {
    && -1 <= s.current < 256
    && (s.current >= 0 ==> s.threads[s.current].used && s.threads[s.current].state == Running)
    && (forall t :: 0 <= t < 256 ==> (s.threads[t].used <==> s.threads[t].state != Terminated))
    && (forall t :: 0 <= t < 256 && s.threads[t].state == Running ==> t == s.current)
  }

  /** Every used thread is listed exactly once by its parent, and by no one else; at most 16 per process. */
  ghost predicate ListsOk(s: Sched) {
    && (forall p :: 0 <= p < 64 ==> Distinct(s.procs[p].threads) && |s.procs[p].threads| <= 16)
    && (forall p, k :: 0 <= p < 64 && 0 <= k < |s.procs[p].threads| ==>
          s.procs[p].threads[k] < 256 && s.threads[s.procs[p].threads[k]].used && s.threads[s.procs[p].threads[k]].parent == p)
    && (forall p :: 0 <= p < 64 && !s.procs[p].used ==> s.procs[p].threads == [])
    && (forall t :: 0 <= t < 256 && s.threads[t].used ==>
          s.threads[t].parent < 64 && t in s.procs[s.threads[t].parent].threads)
  }

  ghost predicate Inv(s: Sched) { QueueOk(s) && CurrentOk(s) && ListsOk(s) }

  /** Threads differ at most in their states, and only between live ones. */
  ghost predicate SameShape(s: Sched, s': Sched) {
    && s'.procs == s.procs && s'.nextTid == s.nextTid && s'.nextPid == s.nextPid
    && (forall t :: 0 <= t < 256 ==> s'.threads[t] == s.threads[t].(state := s'.threads[t].state))
  }

  lemma ShapeLists(s: Sched, s': Sched)
    requires ListsOk(s) && SameShape(s, s')
    ensures ListsOk(s')
  {
  }

  /** What holds between the two halves of schedule(): nothing runs, except possibly nothing is current. */
  ghost predicate Between(s: Sched) {
    && QueueOk(s) && ListsOk(s)
    && -1 <= s.current < 256
    && (forall t :: 0 <= t < 256 ==> (s.threads[t].used <==> s.threads[t].state != Terminated))
    && (forall t :: 0 <= t < 256 ==> s.threads[t].state != Running)
    && (s.current >= 0 ==> s.threads[s.current].state == Blocked || s.threads[s.current].state == Ready)
  }

  lemma DispatchInv(s: Sched)
    requires Between(s)
    requires s.current >= 0 && s.threads[s.current].state == Ready ==> s.queue != []
    ensures Inv(Dispatch(s)) && SameShape(s, Dispatch(s))
  {
    var s' := Dispatch(s);
    if s.queue != [] {
      assert s.queue[0] in s.queue;
      DistinctTail(s.queue);
      assert forall t :: t in s.queue <==> t == s.queue[0] || t in s.queue[1..];
      forall t | t in s.queue[1..] ensures t != s.queue[0] {
        var k :| 0 <= k < |s.queue[1..]| && s.queue[1..][k] == t;
        assert s.queue[k + 1] == t;
      }
    }
    assert SameShape(s, s');
    ShapeLists(s, s');
  }

  lemma RequeueBetween(s: Sched)
    requires Inv(s)
    ensures Between(Requeue(s)) && SameShape(s, Requeue(s))
    ensures s.current >= 0 ==> Requeue(s).queue != []
  {
    var s' := Requeue(s);
    if s.current >= 0 {
      assert s.current !in s.queue;
      DistinctAppend(s.queue, s.current);
    }
    assert SameShape(s, s');
    ShapeLists(s, s');
  }

  lemma ScheduleInv(s: Sched)
    requires Inv(s)
    ensures Inv(Schedule(s)) && SameShape(s, Schedule(s))
  {
    hide QueueOk, ListsOk;
    assert -1 <= s.current < 256;
    RequeueBetween(s);
    DispatchInv(Requeue(s));
  }

  lemma UnqueueOther(s: Sched, i: nat)
    requires Inv(s) && i < 256 && s.threads[i].used && i != s.current
    ensures Inv(Unqueue(s, i)) && SameShape(s, Unqueue(s, i))
  {
    hide ListsOk, Without;
    WithoutKeeps(s.queue, i);
    ShapeLists(s, Unqueue(s, i));
  }

  lemma UnqueueCurrent(s: Sched)
    requires Inv(s) && s.current >= 0
    ensures Unqueue(s, s.current).queue == s.queue
    ensures Between(Unqueue(s, s.current)) && SameShape(s, Unqueue(s, s.current))
  {
    hide ListsOk, Without;
    assert s.current !in s.queue;
    WithoutAbsent(s.queue, s.current);
    ShapeLists(s, Unqueue(s, s.current));
  }

  lemma BlockInv(s: Sched, tid: u32)
    requires Inv(s)
    ensures Inv(Block(s, tid)) && SameShape(s, Block(s, tid))
  {
    hide QueueOk, ListsOk, Without;
    var i := GetThread(s, tid);
    if i != -1 && s.threads[i].state != Blocked {
      if i == s.current {
        UnqueueCurrent(s);
        DispatchInv(Unqueue(s, i));
      } else {
        UnqueueOther(s, i);
      }
    }
  }

  lemma UnblockInv(s: Sched, tid: u32)
    requires Inv(s)
    ensures Inv(Unblock(s, tid)) && SameShape(s, Unblock(s, tid))
  {
    var i, s' := GetThread(s, tid), Unblock(s, tid);
    if i != -1 && s.threads[i].state == Blocked {
      hide ListsOk;
      assert i !in s.queue;
      DistinctAppend(s.queue, i);
      assert SameShape(s, s');
      ShapeLists(s, s');
    }
  }

  lemma LeaveBetween(s: Sched)
    requires Inv(s) && s.current >= 0
    ensures Between(Leave(s))
  {
    var c, s' := s.current, Leave(s);
    var p := s.threads[c].parent;
    WithoutKeeps(s.procs[p].threads, c);
    assert c !in s.queue;
    forall q, k | 0 <= q < 64 && 0 <= k < |s'.procs[q].threads|
      ensures s'.procs[q].threads[k] < 256 && s'.threads[s'.procs[q].threads[k]].used
              && s'.threads[s'.procs[q].threads[k]].parent == q
    {
      var t := s'.procs[q].threads[k];
      assert t in s'.procs[q].threads;
      assert t in s.procs[q].threads;
    }
    assert ListsOk(s');
  }

  lemma ExitInv(s: Sched)
    requires Inv(s)
    ensures Inv(Exit(s))
  {
    if s.current != -1 {
      LeaveBetween(s);
      DispatchInv(Leave(s));
    }
  }

  lemma EnterInv(s: Sched, p: nat, slot: nat)
    requires Inv(s) && p < 64 && slot < 256
    requires s.procs[p].used && |s.procs[p].threads| < 16 && !s.threads[slot].used
    ensures Inv(Enter(s, p, slot))
  {
    var s' := Enter(s, p, slot);
    assert slot !in s.queue && slot !in s.procs[p].threads;
    DistinctAppend(s.queue, slot);
    DistinctAppend(s.procs[p].threads, slot);
    assert ListsOk(s');
  }

  lemma CreateInv(s: Sched, pid: u32, entryGiven: bool, stackGiven: bool)
    requires Inv(s)
    ensures Inv(Create(s, pid, entryGiven, stackGiven))
  {
    hide QueueOk, ListsOk, CurrentOk;
    if CanCreate(s, pid, entryGiven, stackGiven) {
      EnterInv(s, FindPid(s.procs, pid, 0), FreeSlot(s.threads, 0));
      if s.current == -1 { ScheduleInv(Enter(s, FindPid(s.procs, pid, 0), FreeSlot(s.threads, 0))); }
    }
  }

  lemma CreateProcessInv(s: Sched)
    requires Inv(s)
    ensures Inv(CreateProcess(s))
  {
  }
}
