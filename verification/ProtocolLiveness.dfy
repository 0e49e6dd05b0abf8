/** Progress of the protocol: no reachable state is stuck, every run is bounded by its workload, and so every run that
    cannot go on has answered every request. No scheduling assumption is needed. */
module ProtocolLiveness {
  import opened Wrappers
  import opened Protocol
  import opened ProtocolInvariant
  import opened ProtocolSafety

  // ---------------------------------------------------------------- deadlock freedom

  /** Some thread can go on without the help of a spurious wake-up. */
  ghost predicate Progress(c: Config, st: State)
  {
    exists a: Action :: Moves(c, st, a)
  }

  predicate Moves(c: Config, st: State, a: Action)
  {
    Enabled(c, st, a) && !a.SpuriousWakeup?
  }

  lemma {:induction false} ReleaseMoves(c: Config, st: State, i: nat)
    requires Holds(st, i, Releasing)
    ensures Progress(c, st)
  {
    if w: nat :| At(st, w, Waiting) {
      assert Moves(c, st, Release(i, Some(w)));
    } else {
      forall w: nat | w < |st.proxies| ensures st.proxies[w].pc != Waiting {
        assert !At(st, w, Waiting);
      }
      assert WakeChoice(st, None);
      assert Moves(c, st, Release(i, None));
    }
  }

  /** A thread that is not itself waiting for a message or for room in the control queue goes on. */
  lemma {:induction false} UnblockedThreadMoves(c: Config, st: State, i: nat)
    requires Inv(c, st) && i < |st.proxies| && Active(st.proxies[i])
    requires st.proxies[i].pc == Requesting ==> |st.control| < QUEUE_CAPACITY
    requires st.proxies[i].pc in {AwaitHeader, AwaitData} ==> ViewOf(st, st.proxies[i].seg).toProxy != []
    ensures Progress(c, st)
  {
    hide Inv, Printed, BetweenChunks, HeaderPending, Quiet, Forwarded, Replied;
    HolderLinked(c, st, i);
    var p := st.proxies[i];
    match p.pc
    case Requesting => assert Moves(c, st, Request(i, 0, 0));
    case AwaitHeader => assert Moves(c, st, ReceiveHeader(i));
    case HeaderReceived => assert Moves(c, st, ForwardHeader(i, 0));
    case AwaitData => assert Moves(c, st, ReceiveData(i));
    case DataReceived => assert Moves(c, st, ForwardData(i));
    case DataSent => assert Moves(c, st, Acknowledge(i));
    case Releasing => ReleaseMoves(c, st, i);
  }

  /** While the worker waits for an acknowledgement that is not there, the thread it serves can go on. */
  lemma {:induction false} ServedThreadMoves(c: Config, st: State)
    requires Inv(c, st) && st.worker.pc == AwaitAck && st.toCache[st.worker.seg] == []
    ensures Progress(c, st)
  {
    var i := ServedThread(c, st);
    UnblockedThreadMoves(c, st, i);
  }

  /** While the worker waits for a request and there is none, every thread that holds a segment can go on. */
  lemma {:induction false} UnservedThreadMoves(c: Config, st: State, i: nat)
    requires Inv(c, st) && st.worker.pc == AwaitRequest && st.control == []
    requires i < |st.proxies| && Active(st.proxies[i])
    ensures Progress(c, st)
  {
    assert Linked(c, st.proxies[i], ViewOf(st, st.proxies[i].seg));
    UnblockedThreadMoves(c, st, i);
  }

  lemma {:induction false} IndexInRing(c: Config, st: State)
    requires Shape(c, st) && st.worker.pc == LookUp
    ensures st.worker.pkt.segmentIndex in st.ring
  {
    var x := st.worker.pkt.segmentIndex;
    assert PushedInOrder(c.numSegments)[c.numSegments - 1 - x] == x;
    assert x in multiset(st.ring);
  }

  /** The worker can go on, unless it waits for a request and there is none, or it waits for an acknowledgement
      that the thread it serves has still to send. */
  lemma {:induction false} WorkerMoves(c: Config, st: State)
    requires ValidConfig(c) && Inv(c, st)
    ensures Progress(c, st)
         || (st.worker.pc == AwaitRequest && st.control == [])
         || (st.worker.pc == AwaitAck && st.toCache[st.worker.seg] == [])
  {
    hide Inv, Printed;
    InvShape(c, st);
    var w := st.worker;
    match w.pc
    case AwaitRequest => if st.control != [] { assert Moves(c, st, TakeRequest); }
    case LookUp => IndexInRing(c, st); assert Moves(c, st, FindFile);
    case SendHeader => ServingState(c, st); assert Moves(c, st, ReplyHeader);
    case ReadFile => ServingState(c, st); assert Moves(c, st, FillSegment(1));
    case SendChunk => ServingState(c, st); assert Moves(c, st, ReplyChunk);
    case AwaitAck => if st.toCache[w.seg] != [] { assert Moves(c, st, ReceiveAck); }
  }

  /** When no thread holds a segment, a thread with work can get one: it is woken or need not wait. */
  lemma {:induction false} IdleThreadMoves(c: Config, st: State, i: nat)
    requires Inv(c, st) && 1 <= c.numSegments
    requires forall j :: 0 <= j < |st.proxies| ==> !Active(st.proxies[j])
    requires i < |st.proxies| && st.proxies[i].todo != []
    ensures Progress(c, st)
  {
    assert !HeldBy(st, 0);
    assert 0 in st.free;
    CountZero(st.proxies, Waiting);
    CountZero(st.proxies, Woken);
    if st.proxies[i].pc == Waiting {
      assert CountPc(st.proxies, Waiting) > 0;
      var j :| 0 <= j < |st.proxies| && st.proxies[j].pc == Woken;
      assert Moves(c, st, Acquire(j));
    } else {
      assert Moves(c, st, Acquire(i));
    }
  }

  /** Deadlock freedom, for any number of segments, also above the capacity of the control queue. */
  lemma {:induction false} DeadlockFree(c: Config, work: seq<seq<string>>, st: State)
    requires ValidConfig(c) && Reachable(c, work, st) && 1 <= c.numSegments && !Finished(st)
    ensures Progress(c, st)
  {
    ReachableInv(c, work, st);
    WorkerMoves(c, st);
    if !Progress(c, st) {
      if st.worker.pc == AwaitAck {
        ServedThreadMoves(c, st);
      } else if i :| 0 <= i < |st.proxies| && Active(st.proxies[i]) {
        UnservedThreadMoves(c, st, i);
      } else {
        var i :| 0 <= i < |st.proxies| && !(st.proxies[i].pc == Idle && st.proxies[i].todo == []);
        IdleThreadMoves(c, st, i);
      }
    }
  }

  // ---------------------------------------------------------------- the measure

  /** Steps still needed for a request nobody has started. */
  function RequestCost(c: Config, path: string): nat
  {
    6 * |FileOf(c, path)| + 12
  }

  function RequestsCost(c: Config, todo: seq<string>): nat
  {
    if todo == [] then 0 else RequestCost(c, todo[0]) + RequestsCost(c, todo[1..])
  }

  function Left(size: int, total: int): nat
  {
    if total < size then size - total else 0
  }

  /** Steps a thread may still take for its current request, and its share of the worker's until it posts it. */
  function StageCost(c: Config, p: Proxy): nat
    requires p.todo != []
  {
    var size := |FileOf(c, p.todo[0])|;
    match p.pc
    case Idle => 6 * size + 12
    case Woken => 6 * size + 11
    case Waiting => 6 * size + 10
    case Requesting => 6 * size + 9
    case AwaitHeader => 3 * size + 5
    case HeaderReceived => 3 * size + 4
    case AwaitData => 3 * Left(size, p.total) + 3
    case DataReceived => 3 * Left(size, p.total) + 2
    case DataSent => 3 * Left(size, p.total) + 4
    case Releasing => 2
  }

  function ThreadCost(c: Config, p: Proxy): nat
  {
    if p.todo == [] then 0 else StageCost(c, p) + RequestsCost(c, p.todo[1..])
  }

  function ThreadsCost(c: Config, ps: seq<Proxy>): nat
  {
    if ps == [] then 0 else ThreadCost(c, ps[0]) + ThreadsCost(c, ps[1..])
  }

  function ControlCost(c: Config, q: seq<Packet>): nat
  {
    if q == [] then 0 else 3 * |FileOf(c, q[0].requestedFile)| + 3 + ControlCost(c, q[1..])
  }

  function WorkerCost(c: Config, w: Worker): nat
  {
    match w.pc
    case AwaitRequest => 0
    case LookUp => 3 * |FileOf(c, w.pkt.requestedFile)| + 2
    case SendHeader => 3 * Left(w.pkt.fileSize, w.total) + 1
    case ReadFile => 3 * Left(w.pkt.fileSize, w.total)
    case SendChunk => if Left(w.pkt.fileSize, w.total) == 0 then 0 else 3 * Left(w.pkt.fileSize, w.total) - 1
    case AwaitAck => 3 * Left(w.pkt.fileSize, w.total) + 1
  }

  function Measure(c: Config, st: State): nat
  {
    ThreadsCost(c, st.proxies) + ControlCost(c, st.control) + WorkerCost(c, st.worker)
  }

  lemma {:induction false} ThreadsCostUpdate(c: Config, ps: seq<Proxy>, i: nat, p: Proxy)
    requires i < |ps|
    ensures ThreadsCost(c, ps[i := p]) == ThreadsCost(c, ps) - ThreadCost(c, ps[i]) + ThreadCost(c, p)
  {
    if i == 0 {
      assert ps[i := p][1..] == ps[1..];
    } else {
      assert ps[i := p][1..] == ps[1..][i - 1 := p];
      ThreadsCostUpdate(c, ps[1..], i - 1, p);
    }
  }

  lemma {:induction false} ControlCostAppend(c: Config, q: seq<Packet>, p: Packet)
    ensures ControlCost(c, q + [p]) == ControlCost(c, q) + 3 * |FileOf(c, p.requestedFile)| + 3
  {
    if q != [] {
      assert (q + [p])[1..] == q[1..] + [p];
      ControlCostAppend(c, q[1..], p);
    }
  }

  /** What a thread knows about the amounts in its packet. */
  lemma {:induction false} ThreadAmounts(c: Config, st: State, i: nat)
    requires Inv(c, st) && i < |st.proxies| && Active(st.proxies[i])
    ensures st.proxies[i].todo != []
    ensures var p := st.proxies[i];
            var size := |FileOf(c, p.todo[0])|;
            && (p.pc in {HeaderReceived, AwaitData, DataReceived, DataSent} ==> p.pkt.fileSize == size)
            && (p.pc == HeaderReceived ==> p.total == 0)
            && (p.pc == DataReceived ==> 0 < p.pkt.chunkSize && p.total + p.pkt.chunkSize <= size)
  {
    assert Linked(c, st.proxies[i], ViewOf(st, st.proxies[i].seg));
  }

  /** A step of a thread that leaves control queue and worker alone. */
  lemma {:induction false} ThreadStepDecreases(c: Config, st: State, st': State, i: nat)
    requires i < |st.proxies| == |st'.proxies| && st'.proxies == st.proxies[i := st'.proxies[i]]
    requires st'.control == st.control && st'.worker == st.worker
    requires ThreadCost(c, st'.proxies[i]) < ThreadCost(c, st.proxies[i])
    ensures Measure(c, st') < Measure(c, st)
  {
    ThreadsCostUpdate(c, st.proxies, i, st'.proxies[i]);
  }

  lemma {:induction false} QueueingDecreases(c: Config, st: State, a: Action)
    requires Enabled(c, st, a) && (a.Acquire? || a.Block?)
    ensures Measure(c, Apply(c, st, a)) < Measure(c, st)
  {
    hide Inv, Printed;
    ThreadStepDecreases(c, st, Apply(c, st, a), a.i);
  }

  lemma {:induction false} ReceivingDecreases(c: Config, st: State, i: nat, next: ProxyPc)
    requires Inv(c, st) && Enabled(c, st, if next == HeaderReceived then ReceiveHeader(i) else ReceiveData(i))
    requires next in {HeaderReceived, DataReceived}
    ensures Measure(c, DoReceive(st, i, next)) < Measure(c, st)
  {
    hide Inv, Printed;
    ThreadStepDecreases(c, st, DoReceive(st, i, next), i);
  }

  lemma {:induction false} ForwardHeaderDecreases(c: Config, st: State, i: nat, sent: int)
    requires Inv(c, st) && Enabled(c, st, ForwardHeader(i, sent))
    ensures Measure(c, DoForwardHeader(st, i, sent)) < Measure(c, st)
  {
    hide Inv, Printed;
    ThreadAmounts(c, st, i);
    ThreadStepDecreases(c, st, DoForwardHeader(st, i, sent), i);
  }

  lemma {:induction false} ForwardDataDecreases(c: Config, st: State, i: nat)
    requires Inv(c, st) && Enabled(c, st, ForwardData(i))
    ensures Measure(c, DoForwardData(st, i)) < Measure(c, st)
  {
    hide Inv, Printed;
    ThreadAmounts(c, st, i);
    ThreadStepDecreases(c, st, DoForwardData(st, i), i);
  }

  lemma {:induction false} AcknowledgeDecreases(c: Config, st: State, i: nat)
    requires Inv(c, st) && Enabled(c, st, Acknowledge(i))
    ensures Measure(c, DoAcknowledge(st, i)) < Measure(c, st)
  {
    hide Inv, Printed;
    ThreadAmounts(c, st, i);
    ThreadStepDecreases(c, st, DoAcknowledge(st, i), i);
  }

  lemma {:induction false} RequestDecreases(c: Config, st: State, a: Action)
    requires Inv(c, st) && Moves(c, st, a) && a.Request?
    ensures Measure(c, Apply(c, st, a)) < Measure(c, st)
  {
    var st' := Apply(c, st, a);
    ThreadsCostUpdate(c, st.proxies, a.i, st'.proxies[a.i]);
    ControlCostAppend(c, st.control, st'.proxies[a.i].pkt);
  }

  lemma {:induction false} ReleaseDecreases(c: Config, st: State, a: Action)
    requires Inv(c, st) && Moves(c, st, a) && a.Release?
    ensures Measure(c, Apply(c, st, a)) < Measure(c, st)
  {
    var p := st.proxies[a.i];
    var q := p.(pc := Idle, todo := p.todo[1..], served := p.served + [Reply(p.todo[0], p.out, p.ret)]);
    assert ThreadCost(c, q) == RequestsCost(c, p.todo[1..]);
    ThreadsCostUpdate(c, st.proxies, a.i, q);
    if a.wake.Some? {
      var ps := st.proxies[a.i := q];
      ThreadsCostUpdate(c, ps, a.wake.value, ps[a.wake.value].(pc := Woken));
    }
  }

  /** What the worker knows about the amounts in its packet. */
  lemma {:induction false} WorkerAmounts(c: Config, st: State)
    requires ValidConfig(c) && Inv(c, st) && st.worker.pc != AwaitRequest && ServesOn(st, st.worker.pkt.segmentIndex)
    ensures var w := st.worker;
            && (w.pc == SendHeader ==> w.total == 0)
            && (w.pc == SendChunk ==> 0 < w.pkt.chunkSize && w.total + w.pkt.chunkSize <= w.pkt.fileSize)
            && (w.pc == AwaitAck && st.toCache[w.seg] != [] ==> st.toCache[w.seg][0].fileSize == w.pkt.fileSize)
  {
    var i := ServedThread(c, st);
  }

  lemma {:induction false} WorkerStepDecreases(c: Config, st: State, a: Action)
    requires ValidConfig(c) && Inv(c, st) && Moves(c, st, a)
    requires a.FindFile? || a.ReplyHeader? || a.FillSegment? || a.ReplyChunk?
    ensures Measure(c, Apply(c, st, a)) < Measure(c, st)
  {
    hide Inv, Printed;
    WorkerAmounts(c, st);
  }

  lemma {:induction false} ReceiveAckDecreases(c: Config, st: State)
    requires ValidConfig(c) && Inv(c, st) && Moves(c, st, ReceiveAck)
    ensures Measure(c, Apply(c, st, ReceiveAck)) < Measure(c, st)
  {
    if DrainsOn(st, st.worker.seg) { LastAckAmount(c, st); } else { WorkerAmounts(c, st); }
  }

  lemma {:induction false} LastAckAmount(c: Config, st: State)
    requires Inv(c, st) && WorkerAt(st, AwaitAck) && DrainsOn(st, st.worker.seg)
    ensures st.toCache[st.worker.seg] != [] && st.toCache[st.worker.seg][0].fileSize == st.worker.total
  {
    var i := SegmentCases(c, st, st.worker.seg);
    assert LeftoverAck(ViewOf(st, st.worker.seg));
  }

  lemma {:induction false} WakeupCosts(c: Config, st: State, i: nat)
    requires Enabled(c, st, SpuriousWakeup(i))
    ensures Measure(c, Apply(c, st, SpuriousWakeup(i))) <= Measure(c, st) + 1
  {
    ThreadsCostUpdate(c, st.proxies, i, st.proxies[i].(pc := Woken));
  }

  lemma {:induction false} TakeRequestDecreases(c: Config, st: State)
    requires Enabled(c, st, TakeRequest)
    ensures Measure(c, Apply(c, st, TakeRequest)) < Measure(c, st)
  {
  }

  lemma {:induction false} ProxyStepDecreases(c: Config, st: State, a: Action)
    requires Inv(c, st) && Enabled(c, st, a)
    requires !a.SpuriousWakeup? && !a.TakeRequest? && !a.ReceiveAck?
    requires !a.FindFile? && !a.ReplyHeader? && !a.FillSegment? && !a.ReplyChunk?
    ensures Measure(c, Apply(c, st, a)) < Measure(c, st)
  {
    hide Measure, Inv, Printed;
    match a
    case Request(_, _, _) => RequestDecreases(c, st, a);
    case Release(_, _) => ReleaseDecreases(c, st, a);
    case Acquire(_) => QueueingDecreases(c, st, a);
    case Block(_) => QueueingDecreases(c, st, a);
    case ReceiveHeader(i) => ReceivingDecreases(c, st, i, HeaderReceived);
    case ReceiveData(i) => ReceivingDecreases(c, st, i, DataReceived);
    case ForwardHeader(i, sent) => ForwardHeaderDecreases(c, st, i, sent);
    case ForwardData(i) => ForwardDataDecreases(c, st, i);
    case Acknowledge(i) => AcknowledgeDecreases(c, st, i);
  }

  /** Every step but a spurious wake-up uses up some of the measure. */
  lemma {:induction false} StepDecreasesMeasure(c: Config, st: State, a: Action)
    requires ValidConfig(c) && Inv(c, st) && Enabled(c, st, a)
    ensures if a.SpuriousWakeup? then Measure(c, Apply(c, st, a)) <= Measure(c, st) + 1
            else Measure(c, Apply(c, st, a)) < Measure(c, st)
  {
    hide Measure, Inv, Apply, Printed;
    match a
    case SpuriousWakeup(i) => WakeupCosts(c, st, i);
    case TakeRequest => TakeRequestDecreases(c, st);
    case ReceiveAck => ReceiveAckDecreases(c, st);
    case FindFile => WorkerStepDecreases(c, st, a);
    case ReplyHeader => WorkerStepDecreases(c, st, a);
    case FillSegment(_) => WorkerStepDecreases(c, st, a);
    case ReplyChunk => WorkerStepDecreases(c, st, a);
    case _ => ProxyStepDecreases(c, st, a);
  }

  // ---------------------------------------------------------------- every run is bounded

  function SpuriousWakeups(run: seq<Action>): nat
  {
    if run == [] then 0 else (if run[0].SpuriousWakeup? then 1 else 0) + SpuriousWakeups(run[1..])
  }

  lemma {:induction false} RunUsesMeasure(c: Config, st: State, run: seq<Action>)
    requires ValidConfig(c) && Inv(c, st) && Exec(c, st, run).Some?
    ensures |run| + Measure(c, Exec(c, st, run).value) <= Measure(c, st) + 2 * SpuriousWakeups(run)
    decreases |run|
  {
    if run != [] {
      StepPreserves(c, st, run[0]);
      StepDecreasesMeasure(c, st, run[0]);
      RunUsesMeasure(c, Apply(c, st, run[0]), run[1..]);
    }
  }

  /** The cost of a workload: twelve steps a request and six for every byte. */
  function WorkloadCost(c: Config, work: seq<seq<string>>): nat
  {
    if work == [] then 0 else RequestsCost(c, work[0]) + WorkloadCost(c, work[1..])
  }

  lemma {:induction false} InitialThreadsCost(c: Config, work: seq<seq<string>>, ps: seq<Proxy>)
    requires |ps| == |work| && forall i :: 0 <= i < |ps| ==> ps[i].pc == Idle && ps[i].todo == work[i]
    ensures ThreadsCost(c, ps) == WorkloadCost(c, work)
  {
    if ps != [] {
      InitialThreadsCost(c, work[1..], ps[1..]);
    }
  }

  /** Termination: no run is longer than its workload allows, whatever the interleaving and however short the
      reads; a spurious wake-up can add two steps. */
  lemma {:induction false} RunsAreBounded(c: Config, work: seq<seq<string>>, first: State, run: seq<Action>)
    requires ValidConfig(c) && Init(c, work, first) && Exec(c, first, run).Some?
    ensures |run| <= WorkloadCost(c, work) + 2 * SpuriousWakeups(run)
  {
    InitEstablishes(c, work, first);
    InitialThreadsCost(c, work, first.proxies);
    RunUsesMeasure(c, first, run);
  }

  /** Every run that cannot go on has answered every request of every thread in order, and exactly if all its header
      writes were complete every one with the bytes of the atomic answer. */
  lemma {:induction false} MaximalRunAnswersAll(c: Config, work: seq<seq<string>>, first: State, run: seq<Action>)
    requires ValidConfig(c) && Init(c, work, first) && Exec(c, first, run).Some?
    requires 1 <= c.numSegments && !Progress(c, Exec(c, first, run).value)
    ensures var st := Exec(c, first, run).value;
            && Finished(st) && |st.proxies| == |work|
            && (forall i :: 0 <= i < |work| ==> |st.proxies[i].served| == |work[i]|)
            && (forall i, k :: 0 <= i < |work| && 0 <= k < |work[i]| && |st.proxies[i].served| == |work[i]| ==>
                  CorrectReply(c, work[i][k], st.proxies[i].served[k]))
            && (WholeHeaders(c, first, run) <==>
                  forall i, k :: 0 <= i < |work| && 0 <= k < |st.proxies[i].served| ==>
                    AtomicReply(c, st.proxies[i].served[k]))
  {
    hide Progress, CorrectReply, AtomicReply, WholeHeaders, Printed;
    var st := Exec(c, first, run).value;
    assert Reachable(c, work, st);
    if !Finished(st) {
      DeadlockFree(c, work, st);
    }
    ReachableHistory(c, work, st);
    AtomicIffWholeHeaders(c, work, first, run);
    forall i | 0 <= i < |work|
      ensures |st.proxies[i].served| == |work[i]|
      ensures forall k :: 0 <= k < |work[i]| ==> CorrectReply(c, work[i][k], st.proxies[i].served[k]) {
      assert ThreadHistoryOk(c, work[i], st.proxies[i]);
    }
  }

  // ---------------------------------------------------------------- without segments

  lemma {:induction false} ExecAppend(c: Config, st: State, run: seq<Action>, a: Action)
    requires Exec(c, st, run).Some? && Enabled(c, Exec(c, st, run).value, a)
    ensures Exec(c, st, run + [a]) == Some(Apply(c, Exec(c, st, run).value, a))
    decreases |run|
  {
    if run == [] {
      assert Exec(c, Apply(c, st, a), []) == Some(Apply(c, st, a));
      assert (run + [a])[1..] == [];
    } else {
      assert (run + [a])[1..] == run[1..] + [a];
      ExecAppend(c, Apply(c, st, run[0]), run[1..], a);
    }
  }

  /** From every reachable state some run goes on until nothing can. */
  lemma {:induction false} RunToTheEnd(c: Config, work: seq<seq<string>>, st: State) returns (end: State)
    requires ValidConfig(c) && Reachable(c, work, st)
    ensures Reachable(c, work, end) && !Progress(c, end)
    decreases Measure(c, st)
  {
    if Progress(c, st) {
      ReachableInv(c, work, st);
      var a :| Moves(c, st, a);
      StepDecreasesMeasure(c, st, a);
      var first: State, run: seq<Action> :| Init(c, work, first) && Exec(c, first, run) == Some(st);
      ExecAppend(c, first, run, a);
      assert Reachable(c, work, Apply(c, st, a));
      end := RunToTheEnd(c, work, Apply(c, st, a));
    } else {
      end := st;
    }
  }

  lemma {:induction false} NothingDoneWithoutSegments(c: Config, work: seq<seq<string>>, st: State, run: seq<Action>)
    requires ValidConfig(c) && c.numSegments == 0 && Inv(c, st) && Exec(c, st, run).Some?
    requires |st.proxies| == |work| && forall i :: 0 <= i < |work| ==> st.proxies[i].todo == work[i]
    ensures var end := Exec(c, st, run).value;
            |end.proxies| == |work| && forall i :: 0 <= i < |work| ==> end.proxies[i].todo == work[i]
    decreases |run|
  {
    if run != [] {
      StepPreserves(c, st, run[0]);
      var st' := Apply(c, st, run[0]);
      forall i | 0 <= i < |st.proxies| ensures |st'.proxies| == |work| && st'.proxies[i].todo == work[i] {
        OthersUnchanged(c, st, run[0], i);
      }
      if st.proxies == [] { assert |st'.proxies| == |work|; }
      NothingDoneWithoutSegments(c, work, st', run[1..]);
    }
  }

  ghost predicate CanGetStuck(c: Config, work: seq<seq<string>>)
  {
    exists st: State :: Reachable(c, work, st) && !Finished(st) && !Progress(c, st)
  }

  /** One segment is exactly what progress needs: a workload with at least one request can get stuck if and only if
      there is no segment. */
  lemma {:induction false} StuckIffNoSegments(c: Config, work: seq<seq<string>>, first: State)
    requires ValidConfig(c) && Init(c, work, first)
    requires exists i :: 0 <= i < |work| && work[i] != []
    ensures CanGetStuck(c, work) <==> c.numSegments == 0
  {
    if c.numSegments == 0 {
      assert Exec(c, first, []) == Some(first);
      var end := RunToTheEnd(c, work, first);
      var start: State, run: seq<Action> :| Init(c, work, start) && Exec(c, start, run) == Some(end);
      InitEstablishes(c, work, start);
      NothingDoneWithoutSegments(c, work, start, run);
      assert !Finished(end);
    } else if CanGetStuck(c, work) {
      var st: State :| Reachable(c, work, st) && !Finished(st) && !Progress(c, st);
      DeadlockFree(c, work, st);
    }
  }
}
