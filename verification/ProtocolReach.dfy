/** Which steps of the protocol can be taken: exactly when nothing but the queues makes a thread wait, in which order the
    queues are served, and how full they get. */
module ProtocolReach {
  import opened Wrappers
  import opened Rotation
  import opened Protocol
  import opened ProtocolInvariant
  import opened ProtocolSafety
  import opened ProtocolLiveness

  // ---------------------------------------------------------------- when a step can be taken

  /** A thread that holds no segment gets one exactly if it is woken or has a request and does not wait, and there is one;
      it waits exactly if there is none; and it can wake up at any time. */
  lemma {:induction false} QueueStepsIff(c: Config, work: seq<seq<string>>, st: State, i: nat)
    requires ValidConfig(c) && Reachable(c, work, st) && i < |st.proxies|
    ensures var p := st.proxies[i];
            var wants := p.pc == Woken || (p.pc == Idle && p.todo != []);
            && (Enabled(c, st, Acquire(i)) <==> wants && st.free != [])
            && (Enabled(c, st, Block(i)) <==> wants && st.free == [])
            && (Enabled(c, st, SpuriousWakeup(i)) <==> p.pc == Waiting)
  {
    hide Printed, WakeupsCover, Owned, Linked;
    ReachableInv(c, work, st);
  }

  /** A release never waits; it wakes one of the waiting threads, any of them, if there is one. */
  lemma {:induction false} ReleaseStepIff(c: Config, work: seq<seq<string>>, st: State, i: nat, w: nat)
    requires ValidConfig(c) && Reachable(c, work, st) && i < |st.proxies|
    ensures Enabled(c, st, Release(i, Some(w))) <==>
              st.proxies[i].pc == Releasing && w < |st.proxies| && st.proxies[w].pc == Waiting
    ensures Enabled(c, st, Release(i, None)) <==>
              st.proxies[i].pc == Releasing && forall x :: 0 <= x < |st.proxies| ==> st.proxies[x].pc != Waiting
  {
    hide Inv, Printed;
    ReachableInv(c, work, st);
    if Active(st.proxies[i]) {
      InvShape(c, st);
      HolderLinked(c, st, i);
    }
  }

  /** In every reachable state a thread that asks for a file takes its next step, whatever the environment decides,
      exactly if it has room for the request or a header to receive; the write of a header may return anything up to its
      length. */
  lemma {:induction false} AskingStepsIff(c: Config, work: seq<seq<string>>, st: State, i: nat)
    requires ValidConfig(c) && Reachable(c, work, st) && i < |st.proxies| && Active(st.proxies[i])
    ensures var p := st.proxies[i];
            && p.todo != [] && p.seg < |st.toProxy|
            && (forall size, hit :: Enabled(c, st, Request(i, size, hit)) <==> p.pc == Requesting && |st.control| < 10)
            && (Enabled(c, st, ReceiveHeader(i)) <==> p.pc == AwaitHeader && st.toProxy[p.seg] != [])
            && (forall sent :: Enabled(c, st, ForwardHeader(i, sent)) <==>
                  p.pc == HeaderReceived && -1 <= sent <= |Printed(HeaderFor(c, p.todo[0]))|)
  {
    hide Inv, Printed, BetweenChunks, HeaderPending, Quiet, Forwarded, Replied, WorkerWaits, Holding;
    ReachableInv(c, work, st);
    InvShape(c, st);
    HolderLinked(c, st, i);
  }

  /** Once it has the header it waits for data only; forwarding and acknowledging never wait. */
  lemma {:induction false} DataStepsIff(c: Config, work: seq<seq<string>>, st: State, i: nat)
    requires ValidConfig(c) && Reachable(c, work, st) && i < |st.proxies| && Active(st.proxies[i])
    ensures var p := st.proxies[i];
            && p.todo != [] && p.seg < |st.toProxy|
            && (Enabled(c, st, ReceiveData(i)) <==> p.pc == AwaitData && st.toProxy[p.seg] != [])
            && (Enabled(c, st, ForwardData(i)) <==> p.pc == DataReceived)
            && (Enabled(c, st, Acknowledge(i)) <==> p.pc == DataSent)
  {
    hide Inv, Printed, BetweenChunks, HeaderPending, Quiet, Forwarded, Replied;
    ReachableInv(c, work, st);
    InvShape(c, st);
    HolderLinked(c, st, i);
  }

  /** A pread of the worker may deliver any positive number of bytes up to what is left of the file and what fits the
      segment. */
  lemma {:induction false} ReadStepIff(c: Config, work: seq<seq<string>>, st: State, n: nat)
    requires ValidConfig(c) && Reachable(c, work, st) && st.worker.pc == ReadFile
    ensures st.worker.fd in c.files
    ensures Enabled(c, st, FillSegment(n)) <==>
              0 < n <= |c.files[st.worker.fd]| - st.worker.total && n <= c.segmentSize
  {
    hide Inv;
    ReachableInv(c, work, st);
    ServingState(c, st);
  }

  /** The worker waits only for requests and acknowledgements. */
  lemma {:induction false} WorkerStepsIff(c: Config, work: seq<seq<string>>, st: State)
    requires ValidConfig(c) && Reachable(c, work, st)
    ensures Enabled(c, st, TakeRequest) <==> st.worker.pc == AwaitRequest && st.control != []
    ensures Enabled(c, st, FindFile) <==> st.worker.pc == LookUp
    ensures Enabled(c, st, ReplyHeader) <==> st.worker.pc == SendHeader
    ensures Enabled(c, st, ReplyChunk) <==> st.worker.pc == SendChunk
  {
    hide Inv;
    if st.worker.pc == LookUp {
      SearchAlwaysSucceeds(c, work, st);
    } else if st.worker.pc in {SendHeader, SendChunk} {
      ReachableInv(c, work, st);
      ServingState(c, st);
      ReplyEnabled(c, st);
    }
  }

  lemma {:induction false} AckStepIff(c: Config, work: seq<seq<string>>, st: State)
    requires ValidConfig(c) && Reachable(c, work, st) && st.worker.pc == AwaitAck
    ensures st.worker.seg < |st.toCache| && (Enabled(c, st, ReceiveAck) <==> st.toCache[st.worker.seg] != [])
  {
    hide Inv;
    ReachableInv(c, work, st);
    InvShape(c, st);
  }

  // ---------------------------------------------------------------- the order of requests and segments

  /** The path and the segment a packet names. */
  function Named(pkt: Packet): (string, nat)
  {
    (pkt.requestedFile, pkt.segmentIndex)
  }

  function Names(q: seq<Packet>): seq<(string, nat)>
  {
    seq(|q|, k requires 0 <= k < |q| => Named(q[k]))
  }

  /** What the proxies ask for in a run: path and segment of each request, in the order in which they are posted. */
  function Asked(c: Config, st: State, run: seq<Action>): seq<(string, nat)>
    requires Exec(c, st, run).Some?
    decreases |run|
  {
    if run == [] then [] else
      var later := Asked(c, Apply(c, st, run[0]), run[1..]);
      if run[0].Request? then
        [(st.proxies[run[0].i].todo[0], st.proxies[run[0].i].seg)] + later
      else later
  }

  /** What the worker takes up in a run, in that order. */
  function Served(c: Config, st: State, run: seq<Action>): seq<(string, nat)>
    requires Exec(c, st, run).Some?
    decreases |run|
  {
    if run == [] then [] else
      var st' := Apply(c, st, run[0]);
      (if run[0].TakeRequest? then [Named(st'.worker.pkt)] else []) + Served(c, st', run[1..])
  }

  lemma {:induction false} StepInOrder(c: Config, st: State, a: Action)
    requires Enabled(c, st, a)
    ensures var st' := Apply(c, st, a);
            if a.Request? then
              && a.i < |st.proxies| && st.proxies[a.i].todo != []
              && Names(st'.control) == Names(st.control) + [(st.proxies[a.i].todo[0], st.proxies[a.i].seg)]
            else if a.TakeRequest? then Names(st.control) == [Named(st'.worker.pkt)] + Names(st'.control)
            else st'.control == st.control
  {
    hide Printed, AfterSearch;
  }

  lemma {:induction false} RunInOrder(c: Config, st: State, run: seq<Action>)
    requires Exec(c, st, run).Some?
    ensures Names(st.control) + Asked(c, st, run) == Served(c, st, run) + Names(Exec(c, st, run).value.control)
    decreases |run|
  {
    hide Apply, Enabled, Named;
    if run == [] {
      assert Names(st.control) + [] == Names(st.control);
    } else {
      var st' := Apply(c, st, run[0]);
      var later, asked := Asked(c, st', run[1..]), Asked(c, st, run);
      StepInOrder(c, st, run[0]);
      RunInOrder(c, st', run[1..]);
      if run[0].Request? {
        assert Names(st.control) + asked == Names(st'.control) + later;
      } else if run[0].TakeRequest? {
        var taken := [Named(st'.worker.pkt)];
        assert Names(st.control) + asked == taken + (Names(st'.control) + later);
        assert taken + (Served(c, st', run[1..]) + Names(Exec(c, st, run).value.control))
            == taken + Served(c, st', run[1..]) + Names(Exec(c, st, run).value.control);
      }
    }
  }

  /** Requests are taken up in the order in which they were posted, none is lost, and what is not taken up is in the
      control queue. */
  lemma {:induction false} RequestsInOrder(c: Config, work: seq<seq<string>>, first: State, run: seq<Action>)
    requires Init(c, work, first) && Exec(c, first, run).Some?
    ensures Asked(c, first, run) == Served(c, first, run) + Names(Exec(c, first, run).value.control)
  {
    hide Asked, Served, Exec, Apply, Enabled;
    RunInOrder(c, first, run);
    assert Names([]) + Asked(c, first, run) == Asked(c, first, run);
  }

  /** The segment released last is the next one to be acquired, and the first one ever is the last that was made. */
  lemma {:induction false} LastReleasedFirst(c: Config, st: State, i: nat, wake: Option<nat>, j: nat)
    requires Enabled(c, st, Release(i, wake)) && Enabled(c, Apply(c, st, Release(i, wake)), Acquire(j))
    ensures Apply(c, Apply(c, st, Release(i, wake)), Acquire(j)).proxies[j].seg == st.proxies[i].seg
    ensures Apply(c, Apply(c, st, Release(i, wake)), Acquire(j)).free == st.free
  {
  }

  lemma {:induction false} LastMadeFirst(c: Config, work: seq<seq<string>>, first: State, i: nat)
    requires Init(c, work, first) && Enabled(c, first, Acquire(i))
    ensures Apply(c, first, Acquire(i)).proxies[i].seg == c.numSegments - 1
  {
  }

  // ---------------------------------------------------------------- what the writes of headers return

  /** What the header writes of thread i return in a run, in order. */
  function HeaderWrites(run: seq<Action>, i: nat): seq<int>
  {
    if run == [] then [] else
      (if run[0].ForwardHeader? && run[0].i == i then [run[0].sent] else []) + HeaderWrites(run[1..], i)
  }

  /** A write that returns n puts that many bytes of the header on the wire, none if it fails. */
  predicate Wrote(out: Output, n: int)
  {
    out.sent == if n < 0 then 0 else n
  }

  /** The header of the request in hand is written. */
  predicate InBody(p: Proxy)
  {
    p.pc in {AwaitData, DataReceived, DataSent, Releasing}
  }

  /** A thread has written the header of each request it has served, and of the one in hand if that is past it; on a miss
      what the write returned is the result, also when it failed. */
  ghost predicate Recorded(c: Config, p: Proxy, log: seq<int>)
  {
    && |log| == |p.served| + (if InBody(p) then 1 else 0)
    && (forall k :: 0 <= k < |p.served| ==>
          Wrote(p.served[k].out, log[k]) && (p.served[k].path !in c.files ==> p.served[k].ret == log[k]))
    && (InBody(p) ==> p.todo != [] && Wrote(p.out, log[|log| - 1])
                      && (p.todo[0] !in c.files ==> p.ret == log[|log| - 1]))
  }

  predicate ByThread(a: Action, i: nat)
  {
    && !(a.TakeRequest? || a.FindFile? || a.ReplyHeader? || a.FillSegment? || a.ReplyChunk? || a.ReceiveAck?)
    && a.i == i
  }

  lemma {:induction false} StepOfOthers(c: Config, st: State, a: Action, i: nat)
    requires Enabled(c, st, a) && i < |st.proxies| && !ByThread(a, i)
    ensures var p, q := st.proxies[i], Apply(c, st, a).proxies;
            i < |q| && (q[i] == p || (!Active(p) && q[i] == p.(pc := Woken)))
  {
    hide Printed, AfterSearch;
  }

  lemma {:induction false} OwnStep(c: Config, st: State, a: Action, i: nat, log: seq<int>)
    requires ValidConfig(c) && Inv(c, st) && Enabled(c, st, a) && i < |st.proxies| && ByThread(a, i)
    requires Recorded(c, st.proxies[i], log)
    ensures i < |Apply(c, st, a).proxies|
    ensures Recorded(c, Apply(c, st, a).proxies[i], if a.ForwardHeader? then log + [a.sent] else log)
  {
    hide Inv, Printed;
    if a.ForwardHeader? || a.ForwardData? { HitOrMiss(c, st, i); }
  }

  /** A thread that writes a header knows whether it is a hit, and one that copies data has one. */
  lemma {:induction false} HitOrMiss(c: Config, st: State, i: nat)
    requires Inv(c, st) && i < |st.proxies| && st.proxies[i].pc in {HeaderReceived, DataReceived}
    ensures var p := st.proxies[i];
            && p.todo != [] && (p.pc == HeaderReceived ==> (p.pkt.cacheHit != 0 <==> p.todo[0] in c.files))
            && (p.pc == DataReceived ==> p.todo[0] in c.files)
  {
    hide Inv, Printed;
    HolderLinked(c, st, i);
  }

  lemma {:induction false} RecordedStep(c: Config, st: State, a: Action, i: nat, log: seq<int>)
    requires ValidConfig(c) && Inv(c, st) && Enabled(c, st, a) && i < |st.proxies| && Recorded(c, st.proxies[i], log)
    ensures i < |Apply(c, st, a).proxies|
    ensures Recorded(c, Apply(c, st, a).proxies[i], log + HeaderWrites([a], i))
  {
    hide Inv, Enabled, Apply;
    assert [a][1..] == [] && log + [] == log;
    if ByThread(a, i) {
      OwnStep(c, st, a, i, log);
    } else {
      StepOfOthers(c, st, a, i);
    }
  }

  lemma {:induction false} RecordedRun(c: Config, st: State, run: seq<Action>, i: nat, log: seq<int>)
    requires ValidConfig(c) && Inv(c, st) && i < |st.proxies| && Recorded(c, st.proxies[i], log)
    requires Exec(c, st, run).Some?
    ensures i < |Exec(c, st, run).value.proxies|
    ensures Recorded(c, Exec(c, st, run).value.proxies[i], log + HeaderWrites(run, i))
    decreases |run|
  {
    hide Inv, Enabled, Apply, Recorded, HeaderWrites;
    WritesInOrder(run, i, log);
    if run != [] {
      RecordedStep(c, st, run[0], i, log);
      StepPreserves(c, st, run[0]);
      RecordedRun(c, Apply(c, st, run[0]), run[1..], i, log + HeaderWrites([run[0]], i));
    }
  }

  lemma {:induction false} WritesInOrder(run: seq<Action>, i: nat, log: seq<int>)
    ensures log + HeaderWrites(run, i) ==
              if run == [] then log else log + HeaderWrites([run[0]], i) + HeaderWrites(run[1..], i)
  {
    if run != [] {
      assert [run[0]][1..] == [] && HeaderWrites([], i) == [];
      assert HeaderWrites(run, i) == HeaderWrites([run[0]], i) + HeaderWrites(run[1..], i);
    }
  }

  /** In every run: the k-th reply of a thread has as much of its header as its k-th header write has taken, and on a miss
      the result of the handler is what that write returned, whether it took all, a part, or failed. */
  lemma {:induction false} ResultsOfHeaderWrites(
      c: Config, work: seq<seq<string>>, first: State, run: seq<Action>, i: nat, k: nat)
    requires ValidConfig(c) && Init(c, work, first) && Exec(c, first, run).Some? && i < |first.proxies|
    ensures i < |Exec(c, first, run).value.proxies|
    ensures var served, writes := Exec(c, first, run).value.proxies[i].served, HeaderWrites(run, i);
            && |served| <= |writes| <= |served| + 1
            && (k < |served| ==>
                  && served[k].out.sent == (if writes[k] < 0 then 0 else writes[k])
                  && (served[k].path !in c.files ==> served[k].ret == writes[k]))
  {
    hide Inv;
    InitEstablishes(c, work, first);
    RecordedRun(c, first, run, i, []);
    assert [] + HeaderWrites(run, i) == HeaderWrites(run, i);
  }

  // ---------------------------------------------------------------- initial states and full queues

  /** There is an initial state for every workload of paths that fit a packet. */
  lemma {:induction false} InitExists(c: Config, work: seq<seq<string>>) returns (first: State)
    requires forall i, k :: 0 <= i < |work| && 0 <= k < |work[i]| ==> |work[i][k]| <= 127
    ensures Init(c, work, first)
  {
    var pkt := Packet("", 0, 0, 0, 0, 0);
    var proxies := seq(|work|, i requires 0 <= i < |work| => Proxy(Idle, work[i], [], 0, pkt, 0, NOTHING_SENT, 0));
    var segment: seq<char> := seq(c.segmentSize, _ => 'x');
    var order := PushedInOrder(c.numSegments);
    first := State(proxies, Worker(AwaitRequest, pkt, 0, "", 0), order, order, [],
                   seq(c.numSegments, _ => []), seq(c.numSegments, _ => []), seq(c.numSegments, _ => segment));
  }

  /** k threads have acquired a segment and posted their request; the worker has taken none. */
  ghost predicate Posted(c: Config, work: seq<seq<string>>, st: State, k: nat)
  {
    && Reachable(c, work, st) && |st.control| == k <= |work| == |st.proxies|
    && |st.free| == c.numSegments - k
    && forall i :: k <= i < |work| ==> st.proxies[i].pc == Idle && st.proxies[i].todo == work[i]
  }

  lemma {:induction false} ReachableNext(c: Config, work: seq<seq<string>>, st: State, a: Action)
    requires Reachable(c, work, st) && Enabled(c, st, a)
    ensures Reachable(c, work, Apply(c, st, a))
  {
    hide Enabled, Apply, Init;
    var first: State, run: seq<Action> :| Init(c, work, first) && Exec(c, first, run) == Some(st);
    ExecAppend(c, first, run, a);
  }

  lemma {:induction false} PostOneMore(c: Config, work: seq<seq<string>>, st: State, k: nat) returns (next: State)
    requires ValidConfig(c) && Posted(c, work, st, k) && k < |work| && work[k] != [] && k < c.numSegments && k < 10
    ensures Posted(c, work, next, k + 1)
  {
    hide Inv, Printed, Reachable;
    var acquired := Apply(c, st, Acquire(k));
    ReachableNext(c, work, st, Acquire(k));
    ReachableInv(c, work, acquired);
    HolderLinked(c, acquired, k);
    InvShape(c, acquired);
    next := Apply(c, acquired, Request(k, 0, 0));
    ReachableNext(c, work, acquired, Request(k, 0, 0));
  }

  lemma {:induction false} PostUpTo(c: Config, work: seq<seq<string>>, first: State, k: nat) returns (st: State)
    requires ValidConfig(c) && Init(c, work, first) && k <= |work| && k <= c.numSegments && k <= 10
    requires forall i :: 0 <= i < k ==> work[i] != []
    ensures Posted(c, work, st, k)
    decreases k
  {
    if k == 0 {
      st := first;
      assert Exec(c, first, []) == Some(first);
    } else {
      var before := PostUpTo(c, work, first, k - 1);
      st := PostOneMore(c, work, before, k - 1);
    }
  }

  /** The control queue fills up to ten requests, with ten segments and ten threads that have one, and never beyond. */
  lemma {:induction false} ControlQueueFills(c: Config, work: seq<seq<string>>, first: State) returns (full: State)
    requires ValidConfig(c) && Init(c, work, first) && 10 <= |work| && 10 <= c.numSegments
    requires forall i :: 0 <= i < 10 ==> work[i] != []
    ensures Reachable(c, work, full) && |full.control| == 10
    ensures forall st :: Reachable(c, work, st) ==> |st.control| <= 10
  {
    full := PostUpTo(c, work, first, 10);
    forall st | Reachable(c, work, st) ensures |st.control| <= 10 {
      ReachableInv(c, work, st);
    }
  }
}
