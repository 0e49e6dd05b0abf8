/** The inductive invariant of the protocol. It is stated segment by segment: a View collects everything in the
    state that concerns one segment, and Linked says what a thread may assume about the view of the segment it
    holds. A step on one segment leaves every other view, and so every other thread's facts, untouched. */
module ProtocolInvariant {
  import opened Wrappers
  import opened Rotation
  import opened Protocol

  // ---------------------------------------------------------------- views

  /** The packets of a queue that name segment s, in order. */
  function PacketsFor(q: seq<Packet>, s: nat): (r: seq<Packet>)
    ensures forall k :: 0 <= k < |r| ==> r[k] in q && r[k].segmentIndex == s
    ensures |r| <= |q|
    ensures r == [] <==> forall k :: 0 <= k < |q| ==> q[k].segmentIndex != s
  {
    if q == [] then []
    else if q[0].segmentIndex == s then [q[0]] + PacketsFor(q[1..], s)
    else PacketsFor(q[1..], s)
  }

  lemma {:induction false} PacketsForAppend(q: seq<Packet>, p: Packet, s: nat)
    ensures PacketsFor(q + [p], s) == PacketsFor(q, s) + (if p.segmentIndex == s then [p] else [])
  {
    if q != [] {
      assert (q + [p])[1..] == q[1..] + [p];
      PacketsForAppend(q[1..], p, s);
    }
  }

  /** The worker waits for an acknowledgement of s although the whole file was sent, and one is there: the last
      acknowledgement of a transfer whose proxy has moved on. */
  predicate DrainsOn(st: State, s: nat)
    requires s < |st.toCache|
  {
    var w := st.worker;
    w.pc == AwaitAck && w.pkt.segmentIndex == s && st.toCache[s] != [] && w.total == w.pkt.fileSize
  }

  /** The worker is busy with a request on s that its proxy still waits for. */
  predicate ServesOn(st: State, s: nat)
    requires s < |st.toCache|
  {
    st.worker.pc != AwaitRequest && st.worker.pkt.segmentIndex == s && !DrainsOn(st, s)
  }

  datatype View = View(
    toProxy: seq<Packet>, toCache: seq<Packet>, shm: seq<char>,
    requests: seq<Packet>, serving: Option<Worker>, draining: Option<Worker>)

  function ViewOf(st: State, s: nat): View
    requires s < |st.toProxy| == |st.toCache| == |st.shm|
  {
    View(st.toProxy[s], st.toCache[s], st.shm[s], PacketsFor(st.control, s),
         if ServesOn(st, s) then Some(st.worker) else None,
         if DrainsOn(st, s) then Some(st.worker) else None)
  }

  // ---------------------------------------------------------------- what a thread knows of its segment

  /** The header packet the cache answers with. */
  function HeaderPacket(c: Config, path: string, s: nat): Packet
  {
    Packet(path, |FileOf(c, path)|, -1, c.segmentSize, if path in c.files then 1 else 0, s)
  }

  /** Every packet of one transfer carries the same fields; only the chunk size differs. */
  predicate OfTransfer(c: Config, path: string, s: nat, pkt: Packet)
  {
    pkt == HeaderPacket(c, path, s).(chunkSize := pkt.chunkSize)
  }

  /** At most a last acknowledgement is left in the proxy-to-cache queue, and then the worker is about to take it
      and will go back to waiting for requests. */
  predicate LeftoverAck(v: View)
  {
    match v.draining
    case None => v.toCache == []
    case Some(w) => |v.toCache| == 1 && v.toCache[0].fileSize == w.total
  }

  /** Nobody uses the segment: no message but perhaps a leftover acknowledgement, no request, no service. */
  predicate Quiet(v: View)
  {
    v.toProxy == [] && v.requests == [] && v.serving == None && LeftoverAck(v)
  }

  /** The first n bytes of the segment are the file's bytes from total on. */
  predicate Holding(c: Config, path: string, shm: seq<char>, total: int, n: int)
  {
    var f := FileOf(c, path);
    && 0 <= total && 0 < n <= c.segmentSize && n <= |shm| && total + n <= |f|
    && shm[..n] == f[total..total + n]
  }

  /** The proxy has forwarded total bytes and will next receive a data packet; q is what the cache-to-proxy queue
      holds besides an unread header. One of: the worker is about to read the next chunk, has read it and is
      about to post it, has posted it, or has not yet taken the acknowledgement of the previous one. */
  predicate BetweenChunks(c: Config, path: string, s: nat, total: int, v: View, q: seq<Packet>)
  {
    && v.serving.Some?
    && var w := v.serving.value;
    && w.fd == path && w.seg == s && OfTransfer(c, path, s, w.pkt)
    && path in c.files && 0 <= total < |FileOf(c, path)| && v.requests == []
    && match w.pc
       case ReadFile => q == [] && v.toCache == [] && w.total == total
       case SendChunk => q == [] && v.toCache == [] && w.total == total && Holding(c, path, v.shm, total, w.pkt.chunkSize)
       case AwaitAck =>
         || (q == [w.pkt] && v.toCache == [] && Holding(c, path, v.shm, total, w.pkt.chunkSize)
             && w.total == total + w.pkt.chunkSize)
         || (q == [] && |v.toCache| == 1 && OfTransfer(c, path, s, v.toCache[0]) && w.total == total)
       case _ => false
  }

  /** The worker has posted a chunk and waits; both queues are empty, so it cannot write the segment. */
  predicate WorkerWaits(c: Config, path: string, s: nat, workerTotal: int, v: View)
  {
    && v.serving.Some?
    && var w := v.serving.value;
    && w.pc == AwaitAck && w.fd == path && w.seg == s && OfTransfer(c, path, s, w.pkt) && w.total == workerTotal
    && path in c.files && v.requests == [] && v.toProxy == [] && v.toCache == []
  }

  /** The request is posted and no header has been received. */
  predicate HeaderPending(c: Config, path: string, s: nat, v: View)
  {
    // the request is still in the control queue
    || (|v.requests| == 1 && v.requests[0].requestedFile == path && v.toProxy == [] && v.serving == None
        && LeftoverAck(v))
    // the worker has it and has not answered
    || (v.requests == [] && v.toProxy == [] && v.toCache == [] && v.serving.Some?
        && var w := v.serving.value;
        || (w.pc == LookUp && w.pkt.requestedFile == path)
        || (w.pc == SendHeader && w.pkt == HeaderPacket(c, path, s) && w.fd == path && w.seg == s && w.total == 0))
    // the header is in the queue, and the worker has gone on to the first chunk
    || (v.toProxy != [] && v.toProxy[0] == HeaderPacket(c, path, s) && BetweenChunks(c, path, s, 0, v, v.toProxy[1..]))
    // the header is in the queue, it is a miss, and the worker is done
    || (path !in c.files && v.toProxy == [HeaderPacket(c, path, s)] && v.requests == [] && v.serving == None
        && LeftoverAck(v))
  }

  /** What the client has received once total bytes of a file were forwarded: a part of the header, and those bytes. */
  predicate Forwarded(c: Config, path: string, total: int, out: Output)
  {
    && 0 <= total <= |FileOf(c, path)|
    && out == AnswerFrom(c, path, out.sent).(body := FileOf(c, path)[..total]) && WellSent(out)
  }

  /** What it has received in the end, and what the handler returns: the size on a hit, whatever became of the header,
      and on a miss what the write of the header returned. */
  predicate Replied(c: Config, path: string, out: Output, ret: int)
  {
    && out == AnswerFrom(c, path, out.sent) && WellSent(out)
    && if path in c.files then ret == |c.files[path]| else ret == out.sent || (ret == -1 && out.sent == 0)
  }

  /** A thread that holds a segment, and the view of that segment. */
  predicate Linked(c: Config, p: Proxy, v: View)
    requires p.todo != []
  {
    var path, s := p.todo[0], p.seg;
    match p.pc
    case Requesting => Quiet(v) && p.out == NOTHING_SENT && p.total == 0
    case AwaitHeader => HeaderPending(c, path, s, v) && p.out == NOTHING_SENT && p.total == 0
    case HeaderReceived =>
      && p.pkt == HeaderPacket(c, path, s) && p.out == NOTHING_SENT && p.total == 0
      && if path in c.files then BetweenChunks(c, path, s, 0, v, v.toProxy) else Quiet(v)
    case AwaitData =>
      && OfTransfer(c, path, s, p.pkt) && BetweenChunks(c, path, s, p.total, v, v.toProxy)
      && Forwarded(c, path, p.total, p.out)
    case DataReceived =>
      && OfTransfer(c, path, s, p.pkt) && Holding(c, path, v.shm, p.total, p.pkt.chunkSize)
      && WorkerWaits(c, path, s, p.total + p.pkt.chunkSize, v)
      && Forwarded(c, path, p.total, p.out)
    case DataSent =>
      && OfTransfer(c, path, s, p.pkt) && Holding(c, path, v.shm, p.total - p.pkt.chunkSize, p.pkt.chunkSize)
      && WorkerWaits(c, path, s, p.total, v)
      && Forwarded(c, path, p.total, p.out) && p.ret == p.total
    case Releasing => Quiet(v) && Replied(c, path, p.out, p.ret)
    case _ => true
  }

  // ---------------------------------------------------------------- the invariant

  predicate Shape(c: Config, st: State)
  {
    && |st.toProxy| == |st.toCache| == |st.shm| == c.numSegments
    && (forall s :: 0 <= s < c.numSegments ==> |st.shm[s]| == c.segmentSize)
    && |st.control| <= QUEUE_CAPACITY
    && (forall k :: 0 <= k < |st.control| ==> st.control[k].segmentIndex < c.numSegments)
    && (st.worker.pc != AwaitRequest ==> st.worker.pkt.segmentIndex < c.numSegments)
    && (st.worker.pc !in {AwaitRequest, LookUp} ==> st.worker.seg == st.worker.pkt.segmentIndex)
    && multiset(st.ring) == multiset(PushedInOrder(c.numSegments))
  }

  ghost predicate HeldBy(st: State, s: nat)
  {
    exists i :: 0 <= i < |st.proxies| && Active(st.proxies[i]) && st.proxies[i].seg == s
  }

  /** Every segment is free or held by exactly one thread. */
  ghost predicate Owned(c: Config, st: State)
  {
    && Distinct(st.free)
    && (forall s :: s in st.free ==> s < c.numSegments)
    && (forall i :: 0 <= i < |st.proxies| && Active(st.proxies[i]) ==>
          st.proxies[i].seg < c.numSegments && st.proxies[i].seg !in st.free)
    && (forall i, j :: 0 <= i < j < |st.proxies| && Active(st.proxies[i]) && Active(st.proxies[j]) ==>
          st.proxies[i].seg != st.proxies[j].seg)
    && (forall s: nat :: s < c.numSegments ==> s in st.free || HeldBy(st, s))
  }

  ghost predicate Links(c: Config, st: State)
    requires Shape(c, st) && Owned(c, st)
  {
    && (forall i :: 0 <= i < |st.proxies| && st.proxies[i].pc != Idle ==> st.proxies[i].todo != [])
    && (forall i :: 0 <= i < |st.proxies| && Active(st.proxies[i]) ==>
          Linked(c, st.proxies[i], ViewOf(st, st.proxies[i].seg)))
    && (forall s :: s in st.free ==> Quiet(ViewOf(st, s)))
  }

  function CountPc(ps: seq<Proxy>, pc: ProxyPc): nat
  {
    if ps == [] then 0 else (if ps[0].pc == pc then 1 else 0) + CountPc(ps[1..], pc)
  }

  /** No wake-up is lost: while a thread waits, every free segment has a woken thread coming for it. */
  predicate WakeupsCover(st: State)
  {
    CountPc(st.proxies, Waiting) > 0 ==> |st.free| <= CountPc(st.proxies, Woken)
  }

  ghost predicate Inv(c: Config, st: State)
  {
    Shape(c, st) && Owned(c, st) && Links(c, st) && WakeupsCover(st)
  }

  lemma {:induction false} CountUpdate(ps: seq<Proxy>, i: nat, p: Proxy, pc: ProxyPc)
    requires i < |ps|
    ensures CountPc(ps[i := p], pc)
         == CountPc(ps, pc) - (if ps[i].pc == pc then 1 else 0) + (if p.pc == pc then 1 else 0)
  {
    if i == 0 {
      assert ps[i := p][1..] == ps[1..];
    } else {
      assert ps[i := p][1..] == ps[1..][i - 1 := p];
      CountUpdate(ps[1..], i - 1, p, pc);
    }
  }

  lemma {:induction false} CountZero(ps: seq<Proxy>, pc: ProxyPc)
    ensures CountPc(ps, pc) == 0 <==> forall i :: 0 <= i < |ps| ==> ps[i].pc != pc
  {
    if ps != [] {
      CountZero(ps[1..], pc);
      assert forall i :: 1 <= i < |ps| ==> ps[i] == ps[1..][i - 1];
      if CountPc(ps, pc) == 0 {
        forall i | 0 <= i < |ps| ensures ps[i].pc != pc {
          if i > 0 { assert ps[1..][i - 1].pc != pc; }
        }
      }
      if forall i :: 0 <= i < |ps| ==> ps[i].pc != pc {
        assert ps[0].pc != pc;
        forall i | 0 <= i < |ps[1..]| ensures ps[1..][i].pc != pc { assert ps[i + 1].pc != pc; }
      }
    }
  }

  // ---------------------------------------------------------------- the initial state

  lemma {:induction false} InitEstablishes(c: Config, work: seq<seq<string>>, st: State)
    requires Init(c, work, st)
    ensures Inv(c, st)
  {
    CountZero(st.proxies, Waiting);
    forall s: nat | s < c.numSegments ensures s in st.free {
      assert st.free[c.numSegments - 1 - s] == s;
    }
    assert forall s :: s in st.free ==> PacketsFor(st.control, s) == [];
  }

  // ---------------------------------------------------------------- steps of a proxy

  /** A step of thread i on the segment s it holds before and after: everything else is as it was. */
  ghost predicate OnlyTouches(c: Config, st: State, st': State, i: nat, s: nat)
    requires Shape(c, st) && Shape(c, st') && i < |st.proxies|
  {
    && |st'.proxies| == |st.proxies| && st'.free == st.free
    && (forall j :: 0 <= j < |st.proxies| && j != i ==> st'.proxies[j] == st.proxies[j])
    && Active(st.proxies[i]) && Active(st'.proxies[i])
    && st.proxies[i].seg == st'.proxies[i].seg == s && st'.proxies[i].todo == st.proxies[i].todo
    && (forall r: nat :: r < c.numSegments && r != s ==> ViewOf(st', r) == ViewOf(st, r))
  }

  lemma {:induction false} HeldSegmentOwned(c: Config, st: State, st': State, i: nat)
    requires Owned(c, st) && i < |st.proxies| && st'.free == st.free && |st'.proxies| == |st.proxies|
    requires st'.proxies == st.proxies[i := st'.proxies[i]]
    requires Active(st.proxies[i]) && Active(st'.proxies[i]) && st.proxies[i].seg == st'.proxies[i].seg
    ensures Owned(c, st')
  {
    forall r: nat | r < c.numSegments ensures r in st'.free || HeldBy(st', r) {
      if r !in st.free {
        var j :| 0 <= j < |st.proxies| && Active(st.proxies[j]) && st.proxies[j].seg == r;
        assert Active(st'.proxies[j]) && st'.proxies[j].seg == r;
      }
    }
  }

  lemma {:induction false} StepOnHeldSegment(c: Config, st: State, st': State, i: nat, s: nat)
    requires Inv(c, st) && Shape(c, st')
    requires i < |st.proxies| && OnlyTouches(c, st, st', i, s)
    requires st'.proxies == st.proxies[i := st'.proxies[i]]
    requires st'.proxies[i].todo != [] && Linked(c, st'.proxies[i], ViewOf(st', s))
    ensures Inv(c, st')
  {
    HeldSegmentOwned(c, st, st', i);
    CountUpdate(st.proxies, i, st'.proxies[i], Waiting);
    CountUpdate(st.proxies, i, st'.proxies[i], Woken);
  }

  lemma {:induction false} HolderLinked(c: Config, st: State, i: nat)
    requires Inv(c, st) && i < |st.proxies| && Active(st.proxies[i])
    ensures Shape(c, st) && st.proxies[i].todo != [] && st.proxies[i].seg < c.numSegments
    ensures Linked(c, st.proxies[i], ViewOf(st, st.proxies[i].seg))
  {
  }

  lemma {:induction false} RequestPreserves(c: Config, st: State, i: nat, staleSize: int, staleHit: int)
    requires Inv(c, st) && Enabled(c, st, Request(i, staleSize, staleHit))
    ensures Inv(c, DoRequest(st, i, staleSize, staleHit))
  {
    hide Owned, Links, WakeupsCover, Printed, Inv;
    HolderLinked(c, st, i);
    var st' := DoRequest(st, i, staleSize, staleHit);
    var s := st.proxies[i].seg;
    var pkt := st'.proxies[i].pkt;
    forall r: nat ensures PacketsFor(st'.control, r)
                       == PacketsFor(st.control, r) + (if r == s then [pkt] else []) {
      PacketsForAppend(st.control, pkt, r);
    }
    StepOnHeldSegment(c, st, st', i, s);
  }

  lemma {:induction false} ReceiveHeaderPreserves(c: Config, st: State, i: nat)
    requires Inv(c, st) && Enabled(c, st, ReceiveHeader(i))
    ensures Inv(c, DoReceive(st, i, HeaderReceived))
  {
    hide Owned, Links, WakeupsCover, Printed, Inv;
    HolderLinked(c, st, i);
    StepOnHeldSegment(c, st, DoReceive(st, i, HeaderReceived), i, st.proxies[i].seg);
  }

  lemma {:induction false} ReceiveDataPreserves(c: Config, st: State, i: nat)
    requires Inv(c, st) && Enabled(c, st, ReceiveData(i))
    ensures Inv(c, DoReceive(st, i, DataReceived))
  {
    hide Owned, Links, WakeupsCover, Printed, Inv;
    HolderLinked(c, st, i);
    StepOnHeldSegment(c, st, DoReceive(st, i, DataReceived), i, st.proxies[i].seg);
  }

  lemma {:induction false} ForwardHeaderPreserves(c: Config, st: State, i: nat, sent: int)
    requires Inv(c, st) && Enabled(c, st, ForwardHeader(i, sent))
    ensures Inv(c, DoForwardHeader(st, i, sent))
  {
    hide Owned, Links, WakeupsCover, Printed, Inv;
    HolderLinked(c, st, i);
    StepOnHeldSegment(c, st, DoForwardHeader(st, i, sent), i, st.proxies[i].seg);
  }

  lemma {:induction false} ForwardDataPreserves(c: Config, st: State, i: nat)
    requires Inv(c, st) && Enabled(c, st, ForwardData(i))
    ensures Inv(c, DoForwardData(st, i))
  {
    hide Owned, Links, WakeupsCover, Printed, Inv;
    HolderLinked(c, st, i);
    var p := st.proxies[i];
    var f, n := FileOf(c, p.todo[0]), p.pkt.chunkSize;
    assert f[..p.total + n] == f[..p.total] + f[p.total..p.total + n];
    StepOnHeldSegment(c, st, DoForwardData(st, i), i, p.seg);
  }

  lemma {:induction false} AcknowledgePreserves(c: Config, st: State, i: nat)
    requires ValidConfig(c) && Inv(c, st) && Enabled(c, st, Acknowledge(i))
    ensures Inv(c, DoAcknowledge(st, i))
  {
    hide Owned, Links, WakeupsCover, Printed, Inv;
    HolderLinked(c, st, i);
    var p := st.proxies[i];
    var f := FileOf(c, p.todo[0]);
    if p.total == |f| { assert f[..p.total] == f; }
    StepOnHeldSegment(c, st, DoAcknowledge(st, i), i, p.seg);
  }

  /** A step that moves threads and free segments about and leaves queues, memory and worker alone. */
  lemma {:induction false} StepOnFreeList(c: Config, st: State, st': State)
    requires Inv(c, st) && st' == st.(proxies := st'.proxies, free := st'.free)
    requires Owned(c, st') && WakeupsCover(st')
    requires forall i :: 0 <= i < |st'.proxies| && st'.proxies[i].pc != Idle ==> st'.proxies[i].todo != []
    requires forall i :: 0 <= i < |st'.proxies| && Active(st'.proxies[i]) ==>
               Linked(c, st'.proxies[i], ViewOf(st, st'.proxies[i].seg))
    requires forall s :: s in st'.free ==> Quiet(ViewOf(st, s))
    ensures Inv(c, st')
  {
    hide Printed, Linked, Quiet;
    assert forall r: nat :: r < c.numSegments ==> ViewOf(st', r) == ViewOf(st, r);
  }

  lemma {:induction false} AcquireOwned(c: Config, st: State, i: nat)
    requires Shape(c, st) && Owned(c, st) && Enabled(c, st, Acquire(i))
    ensures Owned(c, DoAcquire(st, i))
  {
    var st' := DoAcquire(st, i);
    var s := st.free[0];
    assert st.free == [s] + st'.free;
    assert s in st.free && forall r :: r in st'.free ==> r in st.free;
    forall r: nat | r < c.numSegments ensures r in st'.free || HeldBy(st', r) {
      if r == s {
        assert Active(st'.proxies[i]) && st'.proxies[i].seg == r;
      } else if r !in st.free {
        var j :| 0 <= j < |st.proxies| && Active(st.proxies[j]) && st.proxies[j].seg == r;
        assert Active(st'.proxies[j]) && st'.proxies[j].seg == r;
      }
    }
  }

  lemma {:induction false} AcquirePreserves(c: Config, st: State, i: nat)
    requires Inv(c, st) && Enabled(c, st, Acquire(i))
    ensures Inv(c, DoAcquire(st, i))
  {
    hide Printed;
    var st' := DoAcquire(st, i);
    AcquireOwned(c, st, i);
    assert st.free == [st.free[0]] + st'.free;
    assert st.free[0] in st.free && Quiet(ViewOf(st, st.free[0]));
    CountUpdate(st.proxies, i, st'.proxies[i], Waiting);
    CountUpdate(st.proxies, i, st'.proxies[i], Woken);
    StepOnFreeList(c, st, st');
  }

  lemma {:induction false} QueueStateOwned(c: Config, st: State, i: nat, pc: ProxyPc)
    requires Shape(c, st) && Owned(c, st) && i < |st.proxies| && !Active(st.proxies[i]) && pc in {Waiting, Woken}
    ensures Owned(c, SetProxy(st, i, st.proxies[i].(pc := pc)))
  {
    var st' := SetProxy(st, i, st.proxies[i].(pc := pc));
    forall r: nat | r < c.numSegments ensures r in st'.free || HeldBy(st', r) {
      if r !in st.free {
        var j :| 0 <= j < |st.proxies| && Active(st.proxies[j]) && st.proxies[j].seg == r;
        assert Active(st'.proxies[j]) && st'.proxies[j].seg == r;
      }
    }
  }

  /** A thread that holds nothing changes between Idle, Waiting and Woken. */
  lemma {:induction false} QueueStatePreserves(c: Config, st: State, i: nat, pc: ProxyPc)
    requires Inv(c, st) && i < |st.proxies| && !Active(st.proxies[i])
    requires pc in {Waiting, Woken} && st.proxies[i].todo != []
    requires pc == Waiting ==> st.free == []
    requires pc == Woken ==> st.proxies[i].pc == Waiting
    ensures Inv(c, SetProxy(st, i, st.proxies[i].(pc := pc)))
  {
    var st' := SetProxy(st, i, st.proxies[i].(pc := pc));
    QueueStateOwned(c, st, i, pc);
    CountUpdate(st.proxies, i, st'.proxies[i], Waiting);
    CountUpdate(st.proxies, i, st'.proxies[i], Woken);
    StepOnFreeList(c, st, st');
  }

  lemma {:induction false} ReleaseOwned(c: Config, st: State, i: nat, wake: Option<nat>)
    requires Shape(c, st) && Owned(c, st) && Enabled(c, st, Release(i, wake))
    ensures Owned(c, DoRelease(st, i, wake))
  {
    hide Shape, Printed;
    var st' := DoRelease(st, i, wake);
    var s := st.proxies[i].seg;
    forall r: nat | r < c.numSegments ensures r in st'.free || HeldBy(st', r) {
      if r != s && r !in st.free {
        var j :| 0 <= j < |st.proxies| && Active(st.proxies[j]) && st.proxies[j].seg == r;
        assert Active(st'.proxies[j]) && st'.proxies[j].seg == r;
      }
    }
  }

  lemma {:induction false} ReleaseCovers(c: Config, st: State, i: nat, wake: Option<nat>)
    requires WakeupsCover(st) && Enabled(c, st, Release(i, wake))
    ensures WakeupsCover(DoRelease(st, i, wake))
  {
    var st' := DoRelease(st, i, wake);
    var back := st.proxies[i := st.proxies[i].(
      pc := Idle, todo := st.proxies[i].todo[1..],
      served := st.proxies[i].served + [Reply(st.proxies[i].todo[0], st.proxies[i].out, st.proxies[i].ret)])];
    CountUpdate(st.proxies, i, back[i], Waiting);
    CountUpdate(st.proxies, i, back[i], Woken);
    match wake {
      case Some(w) =>
        CountUpdate(back, w, back[w].(pc := Woken), Waiting);
        CountUpdate(back, w, back[w].(pc := Woken), Woken);
      case None =>
        CountZero(st.proxies, Waiting);
    }
  }

  lemma {:induction false} ReleasePreserves(c: Config, st: State, i: nat, wake: Option<nat>)
    requires Inv(c, st) && Enabled(c, st, Release(i, wake))
    ensures Inv(c, DoRelease(st, i, wake))
  {
    hide Printed, BetweenChunks, WorkerWaits, HeaderPending, Holding, Forwarded;
    ReleaseOwned(c, st, i, wake);
    ReleaseCovers(c, st, i, wake);
    assert Quiet(ViewOf(st, st.proxies[i].seg));
    StepOnFreeList(c, st, DoRelease(st, i, wake));
  }

  // ---------------------------------------------------------------- steps of the worker

  /** A step of the worker on segment s, held by thread i: the threads and the free segments are as they were. */
  lemma {:induction false} StepOfWorker(c: Config, st: State, st': State, i: nat, s: nat)
    requires Inv(c, st) && Shape(c, st')
    requires st'.proxies == st.proxies && st'.free == st.free
    requires i < |st.proxies| && Active(st.proxies[i]) && st.proxies[i].seg == s
    requires forall r: nat :: r < c.numSegments && r != s ==> ViewOf(st', r) == ViewOf(st, r)
    requires Linked(c, st.proxies[i], ViewOf(st', s))
    ensures Inv(c, st')
  {
    SameOwners(c, st, st');
    forall k | 0 <= k < |st.proxies| && Active(st.proxies[k])
      ensures Linked(c, st.proxies[k], ViewOf(st', st.proxies[k].seg)) {
      if k != i { assert ViewOf(st', st.proxies[k].seg) == ViewOf(st, st.proxies[k].seg); }
    }
    forall x | x in st.free ensures Quiet(ViewOf(st', x)) {
      assert x != s && ViewOf(st', x) == ViewOf(st, x);
    }
  }

  lemma {:induction false} SameOwners(c: Config, st: State, st': State)
    requires Owned(c, st) && st'.proxies == st.proxies && st'.free == st.free
    ensures Owned(c, st')
  {
    forall r: nat | r < c.numSegments ensures r in st'.free || HeldBy(st', r) {
      assert r in st.free || HeldBy(st, r);
    }
  }

  lemma {:induction false} BusyIsNotFree(c: Config, st: State, s: nat)
    requires Inv(c, st) && s < c.numSegments && !Quiet(ViewOf(st, s))
    ensures s !in st.free
  {
  }

  lemma {:induction false} InvShape(c: Config, st: State)
    requires Inv(c, st)
    ensures Shape(c, st)
  {
  }

  /** The thread a busy worker works for. */
  lemma {:induction false} ServedThread(c: Config, st: State) returns (i: nat)
    requires Inv(c, st) && st.worker.pc != AwaitRequest && ServesOn(st, st.worker.pkt.segmentIndex)
    ensures i < |st.proxies| && Active(st.proxies[i]) && st.proxies[i].seg == st.worker.pkt.segmentIndex
    ensures st.proxies[i].todo != [] && Linked(c, st.proxies[i], ViewOf(st, st.proxies[i].seg))
  {
    var s := st.worker.pkt.segmentIndex;
    BusyIsNotFree(c, st, s);
    assert HeldBy(st, s);
    i :| 0 <= i < |st.proxies| && Active(st.proxies[i]) && st.proxies[i].seg == s;
  }

  /** The thread whose request is at the head of the control queue. */
  lemma {:induction false} RequestingThread(c: Config, st: State) returns (i: nat)
    requires Inv(c, st) && st.control != []
    ensures i < |st.proxies| && st.proxies[i].pc == AwaitHeader && st.proxies[i].seg == st.control[0].segmentIndex
    ensures st.proxies[i].todo != [] && Linked(c, st.proxies[i], ViewOf(st, st.proxies[i].seg))
    ensures PacketsFor(st.control, st.control[0].segmentIndex) == [st.control[0]]
  {
    var s := st.control[0].segmentIndex;
    assert PacketsFor(st.control, s) != [];
    BusyIsNotFree(c, st, s);
    assert HeldBy(st, s);
    i :| 0 <= i < |st.proxies| && Active(st.proxies[i]) && st.proxies[i].seg == s;
    assert ViewOf(st, s).requests != [];
  }

  lemma {:induction false} TakeRequestPreserves(c: Config, st: State)
    requires Inv(c, st) && Enabled(c, st, TakeRequest)
    ensures Inv(c, Apply(c, st, TakeRequest))
  {
    hide Owned, Links, WakeupsCover, Printed, Inv;
    InvShape(c, st);
    var i := RequestingThread(c, st);
    var st' := Apply(c, st, TakeRequest);
    var s := st.control[0].segmentIndex;
    assert forall r: nat :: r != s ==> PacketsFor(st'.control, r) == PacketsFor(st.control, r);
    StepOfWorker(c, st, st', i, s);
  }

  lemma {:induction false} FindFileShape(c: Config, st: State)
    requires Shape(c, st) && Enabled(c, st, FindFile)
    ensures Shape(c, DoFindFile(c, st))
    ensures forall r: nat :: r < c.numSegments && r != st.worker.pkt.segmentIndex ==>
              ViewOf(DoFindFile(c, st), r) == ViewOf(st, r)
  {
    hide AfterSearch, PacketsFor;
    AfterSearchIsRotation(st.ring, st.worker.pkt.segmentIndex);
  }

  lemma {:induction false} FindFilePreserves(c: Config, st: State)
    requires Inv(c, st) && Enabled(c, st, FindFile)
    ensures Inv(c, DoFindFile(c, st))
  {
    hide Owned, Links, WakeupsCover, Printed, Inv, AfterSearch;
    InvShape(c, st);
    var i := ServedThread(c, st);
    FindFileShape(c, st);
    StepOfWorker(c, st, DoFindFile(c, st), i, st.worker.pkt.segmentIndex);
  }

  lemma {:induction false} ReplyHeaderPreserves(c: Config, st: State)
    requires ValidConfig(c) && Inv(c, st) && Enabled(c, st, ReplyHeader)
    ensures Inv(c, Apply(c, st, ReplyHeader))
  {
    hide Owned, Links, WakeupsCover, Printed, Inv;
    InvShape(c, st);
    var i := ServedThread(c, st);
    StepOfWorker(c, st, Apply(c, st, ReplyHeader), i, st.worker.seg);
  }

  lemma {:induction false} FillSegmentPreserves(c: Config, st: State, n: nat)
    requires Inv(c, st) && Enabled(c, st, FillSegment(n))
    ensures Inv(c, DoFillSegment(c, st, n))
  {
    hide Owned, Links, WakeupsCover, Printed, Inv;
    InvShape(c, st);
    var i := ServedThread(c, st);
    var st' := DoFillSegment(c, st, n);
    assert st'.shm[st.worker.seg][..n] == c.files[st.worker.fd][st.worker.total..st.worker.total + n];
    StepOfWorker(c, st, st', i, st.worker.seg);
  }

  lemma {:induction false} ReplyChunkPreserves(c: Config, st: State)
    requires Inv(c, st) && Enabled(c, st, ReplyChunk)
    ensures Inv(c, Apply(c, st, ReplyChunk))
  {
    hide Owned, Links, WakeupsCover, Printed, Inv;
    InvShape(c, st);
    var i := ServedThread(c, st);
    StepOfWorker(c, st, Apply(c, st, ReplyChunk), i, st.worker.seg);
  }

  /** The acknowledgement of a transfer that goes on. */
  lemma {:induction false} ReceiveAckPreserves(c: Config, st: State)
    requires Inv(c, st) && Enabled(c, st, ReceiveAck) && !DrainsOn(st, st.worker.seg)
    ensures Inv(c, DoReceiveAck(st))
  {
    hide Owned, Links, WakeupsCover, Printed, Inv;
    InvShape(c, st);
    var i := ServedThread(c, st);
    StepOfWorker(c, st, DoReceiveAck(st), i, st.worker.seg);
  }

  /** Taking the leftover acknowledgement is invisible to the thread that holds the segment by now. */
  lemma {:induction false} DrainKeepsLinked(c: Config, p: Proxy, v: View)
    requires p.todo != [] && Active(p) && Linked(c, p, v) && v.draining.Some? && v.serving == None
    ensures LeftoverAck(v)
    ensures Linked(c, p, v.(toCache := [], draining := None))
  {
  }

  lemma {:induction false} DrainViews(c: Config, st: State)
    requires Shape(c, st) && Enabled(c, st, ReceiveAck) && DrainsOn(st, st.worker.seg)
    requires LeftoverAck(ViewOf(st, st.worker.seg))
    ensures var st' := DoReceiveAck(st);
            && Shape(c, st')
            && ViewOf(st', st.worker.seg) == ViewOf(st, st.worker.seg).(toCache := [], draining := None)
            && forall r: nat :: r < c.numSegments && r != st.worker.seg ==> ViewOf(st', r) == ViewOf(st, r)
  {
  }

  /** Whoever has the segment by now, a last acknowledgement that is left over is the only thing in its queue. */
  lemma {:induction false} DrainedView(c: Config, st: State, s: nat)
    requires Inv(c, st) && s < c.numSegments && DrainsOn(st, s)
    ensures LeftoverAck(ViewOf(st, s)) && ViewOf(st, s).serving == None && ViewOf(st, s).draining.Some?
  {
    hide Printed;
    var v := ViewOf(st, s);
    if s in st.free {
      assert Quiet(v);
    } else {
      assert HeldBy(st, s);
      var i :| 0 <= i < |st.proxies| && Active(st.proxies[i]) && st.proxies[i].seg == s;
      DrainKeepsLinked(c, st.proxies[i], v);
    }
  }

  /** Nothing of the transfer is left after its last acknowledgement is taken. */
  lemma {:induction false} DrainPreserves(c: Config, st: State)
    requires Inv(c, st) && Enabled(c, st, ReceiveAck) && DrainsOn(st, st.worker.seg)
    ensures Inv(c, DoReceiveAck(st))
  {
    hide Printed, DoReceiveAck, ViewOf;
    var s := st.worker.seg;
    var st' := DoReceiveAck(st);
    DrainedView(c, st, s);
    DrainViews(c, st);
    forall i | 0 <= i < |st.proxies| && Active(st.proxies[i])
      ensures Linked(c, st.proxies[i], ViewOf(st', st.proxies[i].seg)) {
      var p := st.proxies[i];
      assert Linked(c, p, ViewOf(st, p.seg));
      if p.seg == s { DrainKeepsLinked(c, p, ViewOf(st, s)); }
    }
    SameThreads(st);
    SameOwners(c, st, st');
  }

  lemma {:induction false} SameThreads(st: State)
    requires WorkerAt(st, AwaitAck) && st.toCache[st.worker.seg] != []
    ensures DoReceiveAck(st).proxies == st.proxies && DoReceiveAck(st).free == st.free
  {
  }

  // ---------------------------------------------------------------- every step

  lemma {:induction false} StepPreserves(c: Config, st: State, a: Action)
    requires ValidConfig(c) && Inv(c, st) && Enabled(c, st, a)
    ensures Inv(c, Apply(c, st, a))
  {
    hide Printed, Owned, WakeupsCover;
    match a
    case Acquire(i) => AcquirePreserves(c, st, i);
    case Block(i) => QueueStatePreserves(c, st, i, Waiting);
    case SpuriousWakeup(i) => QueueStatePreserves(c, st, i, Woken);
    case Request(i, staleSize, staleHit) => RequestPreserves(c, st, i, staleSize, staleHit);
    case ReceiveHeader(i) => ReceiveHeaderPreserves(c, st, i);
    case ForwardHeader(i, sent) => ForwardHeaderPreserves(c, st, i, sent);
    case ReceiveData(i) => ReceiveDataPreserves(c, st, i);
    case ForwardData(i) => ForwardDataPreserves(c, st, i);
    case Acknowledge(i) => AcknowledgePreserves(c, st, i);
    case Release(i, wake) => ReleasePreserves(c, st, i, wake);
    case TakeRequest => TakeRequestPreserves(c, st);
    case FindFile => FindFilePreserves(c, st);
    case ReplyHeader => ReplyHeaderPreserves(c, st);
    case FillSegment(n) => FillSegmentPreserves(c, st, n);
    case ReplyChunk => ReplyChunkPreserves(c, st);
    case ReceiveAck =>
      if DrainsOn(st, st.worker.seg) { DrainPreserves(c, st); } else { ReceiveAckPreserves(c, st); }
  }

  lemma {:induction false} RunPreserves(c: Config, st: State, run: seq<Action>)
    requires ValidConfig(c) && Inv(c, st) && Exec(c, st, run).Some?
    ensures Inv(c, Exec(c, st, run).value)
    decreases |run|
  {
    if run != [] {
      StepPreserves(c, st, run[0]);
      RunPreserves(c, Apply(c, st, run[0]), run[1..]);
    }
  }

  /** Every reachable state satisfies the invariant. */
  lemma {:induction false} ReachableInv(c: Config, work: seq<seq<string>>, st: State)
    requires ValidConfig(c) && Reachable(c, work, st)
    ensures Inv(c, st)
  {
    var first: State, run: seq<Action> :| Init(c, work, first) && Exec(c, first, run) == Some(st);
    InitEstablishes(c, work, first);
    RunPreserves(c, first, run);
  }
}
