/** What every run of scheduler calls guarantees: the invariants, round robin with bounded waiting, and no empty queue
    while an idle thread is alive. */
module SchedRuns {
  import opened Basics
  import opened SchedSpec

  datatype Op =
    | CreateOp(pid: u32, entryGiven: bool, stackGiven: bool)
    | BlockOp(tid: u32)
    | UnblockOp(utid: u32)
    | ExitOp
    | YieldOp
    | TickOp
    | ProcessOp

  function Step(s: Sched, op: Op): Sched
    requires Inv(s)
  {
    match op
    case CreateOp(pid, e, k) => Create(s, pid, e, k)
    case BlockOp(tid) => Block(s, tid)
    case UnblockOp(tid) => Unblock(s, tid)
    case ExitOp => Exit(s)
    case YieldOp => Yield(s)
    case TickOp => Tick(s)
    case ProcessOp => CreateProcess(s)
  }

  lemma StepInv(s: Sched, op: Op)
    requires Inv(s)
    ensures Inv(Step(s, op))
  {
    hide Inv, Create, Block, Unblock, Exit, Yield, Tick, CreateProcess;
    match op
    case CreateOp(pid, e, k) => CreateInv(s, pid, e, k);
    case BlockOp(tid) => BlockInv(s, tid);
    case UnblockOp(tid) => UnblockInv(s, tid);
    case ExitOp => ExitInv(s);
    case YieldOp => YieldInv(s);
    case TickOp => TickInv(s);
    case ProcessOp => CreateProcessInv(s);
  }

  lemma YieldInv(s: Sched)
    requires Inv(s)
    ensures Inv(Yield(s))
  {
    hide QueueOk, CurrentOk, ListsOk;
    if !(s.current == -1 && s.queue == []) { ScheduleInv(s); }
  }

  lemma TickInv(s: Sched)
    requires Inv(s)
    ensures Inv(Tick(s))
  {
    hide QueueOk, CurrentOk, ListsOk;
    if s.queue != [] { ScheduleInv(s); }
  }

  function RunState(s: Sched, ops: seq<Op>): (s': Sched)
    requires Inv(s)
    ensures Inv(s')
    decreases |ops|
  {
    if ops == [] then s else StepInv(s, ops[0]); RunState(Step(s, ops[0]), ops[1..])
  }

  /** Every reachable state satisfies the invariants. */
  lemma Reachable(ops: seq<Op>)
    ensures Inv(Boot()) && Inv(RunState(Boot(), ops))
  {
  }

  // ---- dispatches ----

  datatype Call = NoCall | At(state: Sched)

  /** The state in which the call enters schedule(), if it does. */
  function SchedCall(s: Sched, op: Op): Call
    requires Inv(s)
  {
    match op
    case CreateOp(pid, e, k) =>
      if CanCreate(s, pid, e, k) && s.current == -1
      then At(Enter(s, FindPid(s.procs, pid, 0), FreeSlot(s.threads, 0))) else NoCall
    case BlockOp(tid) =>
      var i := GetThread(s, tid);
      if i != -1 && s.threads[i].state != Blocked && i == s.current then At(Unqueue(s, i)) else NoCall
    case UnblockOp(_) => NoCall
    case ExitOp => if s.current != -1 then At(Leave(s)) else NoCall
    case YieldOp => if s.current == -1 && s.queue == [] then NoCall else At(s)
    case TickOp => if s.queue == [] then NoCall else At(s)
    case ProcessOp => NoCall
  }

  /** The call takes a thread off the queue and runs it. */
  predicate Dispatches(s: Sched, op: Op)
    requires Inv(s)
  {
    var call := SchedCall(s, op);
    call.At? && -1 <= call.state.current < 256 && Requeue(call.state).queue != []
  }

  /** The call blocks thread slot `t`. */
  predicate Blocks(s: Sched, op: Op, t: nat) { op.BlockOp? && GetThread(s, op.tid) == t }

  ghost predicate Waiting(s: Sched, t: nat, k: nat) { k < |s.queue| && s.queue[k] == t }

  /** A waiting thread that is not blocked moves towards the front: its index never grows, and every dispatch takes one
      off it or runs the thread. */
  lemma QueueMoves(s: Sched, op: Op, t: nat, k: nat)
    requires Inv(s) && Waiting(s, t, k) && !Blocks(s, op, t)
    ensures var s' := Step(s, op);
            if Dispatches(s, op) && k == 0 then s'.current == t && s'.threads[t].state == Running
            else exists k' :: 0 <= k' <= (if Dispatches(s, op) then k - 1 else k) && Waiting(s', t, k')
  {
    hide Inv, Step, Dispatch, Requeue;
    if SchedCall(s, op).At? {
      CallKeeps(s, op, t, k);
      MovesByDispatch(SchedCall(s, op).state, t, k);
    } else {
      NoCallMoves(s, op, t, k);
    }
  }

  /** Up to the point where schedule() is entered, a waiting thread keeps its index. */
  lemma CallKeeps(s: Sched, op: Op, t: nat, k: nat)
    requires Inv(s) && Waiting(s, t, k) && SchedCall(s, op).At?
    ensures var c := SchedCall(s, op).state;
            && Waiting(c, t, k) && -1 <= c.current < 256 && (forall j :: 0 <= j < |c.queue| ==> c.queue[j] < 256)
            && Step(s, op) == Schedule(c) && Dispatches(s, op)
  {
    hide ListsOk;
    if op.BlockOp? { UnqueueCurrent(s); }
  }

  /** Without a call of schedule(), only the removal of another thread moves it. */
  lemma NoCallMoves(s: Sched, op: Op, t: nat, k: nat)
    requires Inv(s) && Waiting(s, t, k) && !Blocks(s, op, t) && SchedCall(s, op).NoCall?
    ensures var s' := Step(s, op); Waiting(s', t, k) || (k > 0 && Waiting(s', t, k - 1))
  {
    hide ListsOk;
    assert t in s.queue;
    if op.BlockOp? {
      var i := GetThread(s, op.tid);
      if i != -1 { MovesByRemoval(s.queue, i, k); }
    }
  }

  lemma MovesByDispatch(s: Sched, t: nat, k: nat)
    requires -1 <= s.current < 256 && forall j :: 0 <= j < |s.queue| ==> s.queue[j] < 256
    requires Waiting(s, t, k)
    ensures var s' := Schedule(s);
            if k == 0 then s'.current == t && s'.threads[t].state == Running else Waiting(s', t, k - 1)
  {
  }

  lemma MovesByRemoval(q: seq<nat>, x: nat, k: nat)
    requires Distinct(q) && k < |q| && q[k] != x
    ensures var r := Without(q, x); (k < |r| && r[k] == q[k]) || (0 < k <= |r| && r[k - 1] == q[k])
  {
    if x in q {
      var m :| 0 <= m < |q| && q[m] == x;
      WithoutAt(q, m);
    } else {
      WithoutAbsent(q, x);
    }
  }

  // ---- bounded waiting over runs ----

  function DispatchCount(s: Sched, ops: seq<Op>): nat
    requires Inv(s)
    decreases |ops|
  {
    if ops == [] then 0
    else StepInv(s, ops[0]); (if Dispatches(s, ops[0]) then 1 else 0) + DispatchCount(Step(s, ops[0]), ops[1..])
  }

  predicate NeverBlocks(s: Sched, ops: seq<Op>, t: nat)
    requires Inv(s)
    decreases |ops|
  {
    ops == [] || (StepInv(s, ops[0]); !Blocks(s, ops[0], t) && NeverBlocks(Step(s, ops[0]), ops[1..], t))
  }

  /** Over every run that does not block it, the thread at index `k` of the queue runs after at most `k + 1` dispatches,
      whatever the other threads create, block, unblock or exit. */
  lemma {:induction false} BoundedWaiting(s: Sched, ops: seq<Op>, t: nat, k: nat) returns (n: nat)
    requires Inv(s) && Waiting(s, t, k) && NeverBlocks(s, ops, t)
    requires DispatchCount(s, ops) >= k + 1
    ensures n <= |ops|
    ensures RunState(s, ops[..n]).current == t && RunState(s, ops[..n]).threads[t].state == Running
    ensures DispatchCount(s, ops[..n]) <= k + 1
    decreases |ops|
  {
    hide Inv, Step, Dispatches, Blocks;
    var op, rest := ops[0], ops[1..];
    StepInv(s, op);
    var s' := Step(s, op);
    QueueMoves(s, op, t, k);
    if Dispatches(s, op) && k == 0 {
      n := 1;
      assert ops[..1] == [op] && ops[..1][1..] == [];
    } else {
      var k' :| 0 <= k' <= (if Dispatches(s, op) then k - 1 else k) && Waiting(s', t, k');
      var m := BoundedWaiting(s', rest, t, k');
      n := m + 1;
      assert ops[..n][0] == op && ops[..n][1..] == rest[..m];
    }
  }

  // ---- the idle thread ----

  /** Slot `d` holds a thread that is ready or running. */
  ghost predicate Alive(s: Sched, d: nat) {
    d < 256 && s.threads[d].used && (s.threads[d].state == Ready || s.threads[d].state == Running)
  }

  ghost predicate Spares(s: Sched, op: Op, d: nat) { !Blocks(s, op, d) && !(op.ExitOp? && s.current == d) }

  /** While some thread neither blocks nor exits, schedule() never finds the queue empty, and once a thread is current
      there always is one. */
  lemma IdleFeeds(s: Sched, op: Op, d: nat)
    requires Inv(s) && Alive(s, d) && Spares(s, op, d)
    ensures Alive(Step(s, op), d)
    ensures SchedCall(s, op).At? ==> Dispatches(s, op)
    ensures s.current != -1 ==> Step(s, op).current != -1
  {
    hide ListsOk;
    StepInv(s, op);
    var call := SchedCall(s, op);
    match op
    case CreateOp(pid, e, g) =>
    case BlockOp(tid) =>
      if call.At? { UnqueueCurrent(s); assert d in s.queue; }
    case UnblockOp(tid) =>
    case ExitOp =>
      if call.At? { assert d in s.queue; }
    case YieldOp =>
    case TickOp =>
    case ProcessOp =>
  }

  ghost predicate AllSpare(s: Sched, ops: seq<Op>, d: nat)
    requires Inv(s)
    decreases |ops|
  {
    ops == [] || (StepInv(s, ops[0]); Spares(s, ops[0], d) && AllSpare(Step(s, ops[0]), ops[1..], d))
  }

  /** Over every such run a current thread exists at the end if one existed at the start. */
  lemma {:induction false} NeverHalts(s: Sched, ops: seq<Op>, d: nat)
    requires Inv(s) && Alive(s, d) && AllSpare(s, ops, d) && s.current != -1
    ensures Alive(RunState(s, ops), d) && RunState(s, ops).current != -1
    decreases |ops|
  {
    hide Inv, Step, Alive, Spares;
    if ops != [] {
      StepInv(s, ops[0]);
      IdleFeeds(s, ops[0], d);
      NeverHalts(Step(s, ops[0]), ops[1..], d);
    }
  }
}
