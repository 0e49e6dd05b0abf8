/** The shared-memory protocol between the proxy and its cache (project3), as a transition system.

    Any number of proxy threads and one cache worker run interleaved. A critical section of the proxy's segment
    queue is one step, because its mutex makes it one; every other statement that another thread could observe
    (posting to a queue, receiving from one, writing the shared buffer, reading it) is a step of its own.

    A byte is a char. */
module Protocol {
  import opened Wrappers
  import opened Rotation
  import GetFile

  /** The capacity every message queue is created with; the argument asking for 20 is ignored. */
  const QUEUE_CAPACITY := 10

  /** What the two processes agreed on at start-up, and the cached files by key. */
  datatype Config = Config(numSegments: nat, segmentSize: nat, files: map<string, seq<char>>)

  /** Segments hold at least one byte, and every cached file is non-empty and has a size that fits an int. */
  predicate ValidConfig(c: Config)
  {
    && 1 <= c.segmentSize
    && forall k :: k in c.files ==> 0 < |c.files[k]| < 0x8000_0000
  }

  datatype Packet = Packet(
    requestedFile: string, fileSize: int, chunkSize: int, segmentSize: int, cacheHit: int, segmentIndex: nat)

  /** A header to send: with the size of a file, or for a missing one. */
  datatype Header = Found(size: int) | NotFound

  /** What gfs_sendheader prints: the size is converted to a size_t. The proxy links a compiled gfs_sendheader, which is
      taken to print what that of project1 does. */
  function Printed(h: Header): seq<char>
  {
    match h
    case Found(size) => GetFile.HeaderText(GetFile.Ok, size % 0x1_0000_0000_0000_0000)
    case NotFound => GetFile.HeaderText(GetFile.FileNotFound, 0)
  }

  /** What a client has been sent for one request: a number of bytes of a header, and after them a body. */
  datatype Output = Output(header: Option<Header>, sent: nat, body: seq<char>)

  const NOTHING_SENT := Output(None, 0, [])

  /** The write of the header was complete. */
  predicate HeaderComplete(o: Output)
  {
    o.header.Some? && o.sent == |Printed(o.header.value)|
  }

  predicate WellSent(o: Output)
  {
    match o.header
    case None => o == NOTHING_SENT
    case Some(h) => o.sent <= |Printed(h)|
  }

  /** The bytes on the wire. */
  function Wire(o: Output): seq<char>
    requires WellSent(o)
  {
    match o.header
    case None => []
    case Some(h) => Printed(h)[..o.sent] + o.body
  }

  /** A finished request: its path, what the client was sent, and what the handler returned. */
  datatype Reply = Reply(path: string, out: Output, ret: int)

  datatype ProxyPc = Idle | Waiting | Woken | Requesting | AwaitHeader | HeaderReceived
                   | AwaitData | DataReceived | DataSent | Releasing

  /** A proxy thread. The first element of todo is the request it works on; pkt, total and ret are the
      locals thr_pkt, total_bytes_rx and ret_value of handle_request. */
  datatype Proxy = Proxy(
    pc: ProxyPc, todo: seq<string>, served: seq<Reply>, seg: nat, pkt: Packet, total: int, out: Output, ret: int)

  /** The thread is inside handle_with_cache and owns segment seg. */
  predicate Active(p: Proxy)
  {
    p.pc !in {Idle, Waiting, Woken}
  }

  datatype WorkerPc = AwaitRequest | LookUp | SendHeader | ReadFile | SendChunk | AwaitAck

  /** The cache worker. fd is the open file, named by its key; total is total_bytes_rx of send_file. */
  datatype Worker = Worker(pc: WorkerPc, pkt: Packet, seg: nat, fd: string, total: int)

  /** The shared state: the proxy's free segments (front first), the cache's own ring of all segments, the
      control queue, and for each segment its two data queues and its memory. */
  datatype State = State(
    proxies: seq<Proxy>, worker: Worker, free: seq<nat>, ring: seq<nat>,
    control: seq<Packet>, toProxy: seq<seq<Packet>>, toCache: seq<seq<Packet>>, shm: seq<seq<char>>)

  /** The header for a path. */
  function HeaderFor(c: Config, path: string): Header
  {
    if path in c.files then Found(|c.files[path]|) else NotFound
  }

  /** The contents of a cached file; nothing for a path that is no key. */
  function FileOf(c: Config, path: string): seq<char>
  {
    if path in c.files then c.files[path] else []
  }

  /** The answer to a request of which h bytes of the header were written: nobody looks at that number on a hit, and
      the body follows all the same. */
  function AnswerFrom(c: Config, path: string, h: nat): Output
  {
    Output(Some(HeaderFor(c, path)), h, FileOf(c, path))
  }

  /** The atomic answer to a request: the header alone when the path is no cache key, otherwise the header with
      the size and then exactly the file. */
  function Answer(c: Config, path: string): Output
  {
    AnswerFrom(c, path, |Printed(HeaderFor(c, path))|)
  }

  // ---------------------------------------------------------------- steps

  /** One step of one thread. The parameters are what the environment decides: the uninitialised fields of a new
      packet, which waiter a signal wakes, how many bytes pread delivers, what the write of a header returns. */
  datatype Action =
    | Acquire(i: nat)
    | Block(i: nat)
    | SpuriousWakeup(i: nat)
    | Request(i: nat, staleSize: int, staleHit: int)
    | ReceiveHeader(i: nat)
    | ForwardHeader(i: nat, sent: int)
    | ReceiveData(i: nat)
    | ForwardData(i: nat)
    | Acknowledge(i: nat)
    | Release(i: nat, wake: Option<nat>)
    | TakeRequest
    | FindFile
    | ReplyHeader
    | FillSegment(n: nat)
    | ReplyChunk
    | ReceiveAck

  predicate At(st: State, i: nat, pc: ProxyPc)
  {
    i < |st.proxies| && st.proxies[i].pc == pc
  }

  /** The thread wants a segment: it has a request and is not holding one yet. */
  predicate Wants(st: State, i: nat)
  {
    i < |st.proxies| && st.proxies[i].todo != [] && st.proxies[i].pc in {Idle, Woken}
  }

  predicate Holds(st: State, i: nat, pc: ProxyPc)
  {
    && At(st, i, pc) && st.proxies[i].todo != []
    && st.proxies[i].seg < |st.toProxy| == |st.toCache| == |st.shm|
  }

  predicate WorkerAt(st: State, pc: WorkerPc)
  {
    && st.worker.pc == pc
    && st.worker.seg < |st.toProxy| == |st.toCache| == |st.shm|
  }

  /** A signal wakes one waiting thread if there is any. */
  predicate WakeChoice(st: State, wake: Option<nat>)
  {
    match wake
    case Some(w) => At(st, w, Waiting)
    case None => forall w: nat :: w < |st.proxies| ==> st.proxies[w].pc != Waiting
  }

  /** When the step can be taken: the thread is there, a receive finds a message, a send finds room, and the
      source's assertions hold. */
  predicate Enabled(c: Config, st: State, a: Action)
  {
    match a
    case Acquire(i) => Wants(st, i) && st.free != []
    case Block(i) => Wants(st, i) && st.free == []
    case SpuriousWakeup(i) => At(st, i, Waiting)
    case Request(i, _, _) => Holds(st, i, Requesting) && |st.control| < QUEUE_CAPACITY
    case ReceiveHeader(i) => Holds(st, i, AwaitHeader) && st.toProxy[st.proxies[i].seg] != []
    case ForwardHeader(i, sent) =>
      Holds(st, i, HeaderReceived) && -1 <= sent <= |Printed(HeaderIn(st.proxies[i].pkt))|
    case ReceiveData(i) => Holds(st, i, AwaitData) && st.toProxy[st.proxies[i].seg] != []
    case ForwardData(i) =>
      Holds(st, i, DataReceived) && 0 <= st.proxies[i].pkt.chunkSize <= |st.shm[st.proxies[i].seg]|
    case Acknowledge(i) =>
      Holds(st, i, DataSent) && |st.toCache[st.proxies[i].seg]| < QUEUE_CAPACITY
    case Release(i, wake) => Holds(st, i, Releasing) && WakeChoice(st, wake)
    case TakeRequest => st.worker.pc == AwaitRequest && st.control != []
    case FindFile =>
      && st.worker.pc == LookUp
      && st.worker.pkt.segmentIndex in st.ring
      && (st.worker.pkt.requestedFile in c.files ==> 0 < |c.files[st.worker.pkt.requestedFile]|)
    case ReplyHeader => WorkerAt(st, SendHeader) && |st.toProxy[st.worker.seg]| < QUEUE_CAPACITY
    case FillSegment(n) =>
      && WorkerAt(st, ReadFile) && st.worker.fd in c.files
      && 0 <= st.worker.total < st.worker.pkt.fileSize
      && 0 < n <= ChunkRequest(st.worker) <= |st.shm[st.worker.seg]|
      && st.worker.total + n <= |c.files[st.worker.fd]|
    case ReplyChunk =>
      && WorkerAt(st, SendChunk) && |st.toProxy[st.worker.seg]| < QUEUE_CAPACITY
      && st.worker.pkt.chunkSize <= st.worker.pkt.segmentSize
    case ReceiveAck => WorkerAt(st, AwaitAck) && st.toCache[st.worker.seg] != []
  }

  /** The size send_file asks pread for: what is left of the file, at most a segment. */
  function ChunkRequest(w: Worker): int
  {
    var offset := w.pkt.fileSize - w.total;
    if offset < w.pkt.segmentSize then offset else w.pkt.segmentSize
  }

  /** The header rx_filesize sends for the packet it has received. */
  function HeaderIn(pkt: Packet): Header
  {
    if pkt.cacheHit != 0 then Found(pkt.fileSize) else NotFound
  }

  function SetProxy(st: State, i: nat, p: Proxy): State
    requires i < |st.proxies|
  {
    st.(proxies := st.proxies[i := p])
  }

  /** do { ... } while (total_bytes_rx < file_size): another chunk, or out of the loop. */
  function LoopOrRelease(p: Proxy): ProxyPc
  {
    if p.total < p.pkt.fileSize then AwaitData else Releasing
  }

  /** while (total_bytes_rx < file_size) of send_file, or back to waiting for a request. */
  function LoopOrNextRequest(w: Worker): WorkerPc
  {
    if w.total < w.pkt.fileSize then ReadFile else AwaitRequest
  }

  function Signal(ps: seq<Proxy>, wake: Option<nat>): seq<Proxy>
    requires wake.Some? ==> wake.value < |ps|
  {
    if wake.Some? then ps[wake.value := ps[wake.value].(pc := Woken)] else ps
  }

  /** The state after the step. */
  function Apply(c: Config, st: State, a: Action): State
    requires Enabled(c, st, a)
  {
    match a
    case Acquire(i) => DoAcquire(st, i)
    case Block(i) => SetProxy(st, i, st.proxies[i].(pc := Waiting))
    case SpuriousWakeup(i) => SetProxy(st, i, st.proxies[i].(pc := Woken))
    case Request(i, staleSize, staleHit) => DoRequest(st, i, staleSize, staleHit)
    case ReceiveHeader(i) => DoReceive(st, i, HeaderReceived)
    case ForwardHeader(i, sent) => DoForwardHeader(st, i, sent)
    case ReceiveData(i) => DoReceive(st, i, DataReceived)
    case ForwardData(i) => DoForwardData(st, i)
    case Acknowledge(i) => DoAcknowledge(st, i)
    case Release(i, wake) => DoRelease(st, i, wake)
    case TakeRequest =>
      st.(control := st.control[1..], worker := st.worker.(pc := LookUp, pkt := st.control[0]))
    case FindFile => DoFindFile(c, st)
    case ReplyHeader =>
      var w := st.worker;
      Post(st, w.(pc := if w.pkt.cacheHit != 0 then LoopOrNextRequest(w) else AwaitRequest))
    case FillSegment(n) => DoFillSegment(c, st, n)
    case ReplyChunk =>
      var w := st.worker;
      Post(st, w.(pc := AwaitAck, total := w.total + w.pkt.chunkSize))
    case ReceiveAck => DoReceiveAck(st)
  }

  function DoAcquire(st: State, i: nat): State
    requires Wants(st, i) && st.free != []
  {
    var p := st.proxies[i];
    SetProxy(st, i, p.(pc := Requesting, seg := st.free[0], total := 0, out := NOTHING_SENT)).(free := st.free[1..])
  }

  function RequestPacket(path: string, seg: nat, staleSize: int, staleHit: int): Packet
  {
    Packet(path, staleSize, 0, 0, staleHit, seg)
  }

  function DoRequest(st: State, i: nat, staleSize: int, staleHit: int): State
    requires Holds(st, i, Requesting)
  {
    var p := st.proxies[i];
    var pkt := RequestPacket(p.todo[0], p.seg, staleSize, staleHit);
    SetProxy(st, i, p.(pc := AwaitHeader, pkt := pkt)).(control := st.control + [pkt])
  }

  function DoReceive(st: State, i: nat, next: ProxyPc): State
    requires i < |st.proxies| && st.proxies[i].seg < |st.toProxy| && st.toProxy[st.proxies[i].seg] != []
  {
    var p := st.proxies[i];
    var q := st.toProxy[p.seg];
    SetProxy(st, i, p.(pc := next, pkt := q[0])).(toProxy := st.toProxy[p.seg := q[1..]])
  }

  /** Whatever the write of the header returns, a hit goes on with the body; a miss ends with that result. */
  function DoForwardHeader(st: State, i: nat, sent: int): State
    requires Holds(st, i, HeaderReceived)
  {
    var p := st.proxies[i];
    var q := p.(out := Output(Some(HeaderIn(p.pkt)), if sent < 0 then 0 else sent, p.out.body));
    SetProxy(st, i, if p.pkt.cacheHit != 0 then q.(pc := LoopOrRelease(p)) else q.(pc := Releasing, ret := sent))
  }

  function DoForwardData(st: State, i: nat): State
    requires Holds(st, i, DataReceived) && 0 <= st.proxies[i].pkt.chunkSize <= |st.shm[st.proxies[i].seg]|
  {
    var p := st.proxies[i];
    var n := p.pkt.chunkSize;
    SetProxy(st, i, p.(pc := DataSent, total := p.total + n, ret := p.total + n,
                       out := p.out.(body := p.out.body + st.shm[p.seg][..n])))
  }

  function DoAcknowledge(st: State, i: nat): State
    requires Holds(st, i, DataSent)
  {
    var p := st.proxies[i];
    SetProxy(st, i, p.(pc := LoopOrRelease(p))).(toCache := st.toCache[p.seg := st.toCache[p.seg] + [p.pkt]])
  }

  function DoRelease(st: State, i: nat, wake: Option<nat>): State
    requires Holds(st, i, Releasing) && WakeChoice(st, wake)
  {
    var p := st.proxies[i];
    var q := p.(pc := Idle, todo := p.todo[1..], served := p.served + [Reply(p.todo[0], p.out, p.ret)]);
    st.(free := [p.seg] + st.free, proxies := Signal(st.proxies[i := q], wake))
  }

  function DoFindFile(c: Config, st: State): State
    requires st.worker.pkt.segmentIndex in st.ring
  {
    var w := st.worker;
    var pkt := w.pkt.(segmentSize := c.segmentSize, chunkSize := -1);
    var hit := pkt.requestedFile in c.files;
    var reply := if hit then pkt.(cacheHit := 1, fileSize := |c.files[pkt.requestedFile]|)
                        else pkt.(cacheHit := 0, fileSize := 0);
    st.(ring := AfterSearch(st.ring, pkt.segmentIndex),
        worker := Worker(SendHeader, reply, pkt.segmentIndex, pkt.requestedFile, 0))
  }

  /** The worker posts its packet on the data queue of its segment. */
  function Post(st: State, w: Worker): State
    requires st.worker.seg < |st.toProxy|
  {
    var s := st.worker.seg;
    st.(worker := w, toProxy := st.toProxy[s := st.toProxy[s] + [st.worker.pkt]])
  }

  function DoFillSegment(c: Config, st: State, n: nat): State
    requires Enabled(c, st, FillSegment(n))
  {
    var w := st.worker;
    var bytes := c.files[w.fd][w.total..w.total + n];
    st.(shm := st.shm[w.seg := bytes + st.shm[w.seg][n..]],
        worker := w.(pc := SendChunk, pkt := w.pkt.(chunkSize := n)))
  }

  function DoReceiveAck(st: State): State
    requires WorkerAt(st, AwaitAck) && st.toCache[st.worker.seg] != []
  {
    var q := st.toCache[st.worker.seg];
    var w := st.worker.(pkt := q[0]);
    st.(toCache := st.toCache[w.seg := q[1..]], worker := w.(pc := LoopOrNextRequest(w)))
  }

  // ---------------------------------------------------------------- runs

  /** Paths are shorter than the field of a packet they are copied to. */
  const MAX_REQUEST_LEN := 128

  predicate ValidWork(work: seq<seq<string>>)
  {
    forall i, k :: 0 <= i < |work| && 0 <= k < |work[i]| ==> |work[i][k]| < MAX_REQUEST_LEN
  }

  /** The state both processes start from: thread i has the requests work[i] ahead of it, the segments were
      pushed on both queues in index order, and every message queue is empty. What the memory and the locals
      hold is arbitrary. */
  predicate Init(c: Config, work: seq<seq<string>>, st: State)
  {
    && ValidWork(work) && |st.proxies| == |work|
    && (forall i :: 0 <= i < |work| ==>
          st.proxies[i].pc == Idle && st.proxies[i].todo == work[i] && st.proxies[i].served == [])
    && st.worker.pc == AwaitRequest
    && st.free == PushedInOrder(c.numSegments)
    && st.ring == PushedInOrder(c.numSegments)
    && st.control == []
    && |st.toProxy| == |st.toCache| == |st.shm| == c.numSegments
    && (forall s :: 0 <= s < c.numSegments ==>
          st.toProxy[s] == [] && st.toCache[s] == [] && |st.shm[s]| == c.segmentSize)
  }

  /** Pushing 0, 1, ..., n - 1 leaves n - 1 in front. */
  function PushedInOrder(n: nat): (r: seq<nat>)
    ensures |r| == n
    ensures forall k :: 0 <= k < n ==> r[k] == n - 1 - k
    ensures Distinct(r)
  {
    seq(n, k requires 0 <= k < n => n - 1 - k)
  }

  /** The state a run of actions ends in, if every one of them was enabled when its turn came. */
  function Exec(c: Config, st: State, run: seq<Action>): Option<State>
    decreases |run|
  {
    if run == [] then Some(st)
    else if !Enabled(c, st, run[0]) then None
    else Exec(c, Apply(c, st, run[0]), run[1..])
  }

  /** st is the end of some run from some initial state. */
  ghost predicate Reachable(c: Config, work: seq<seq<string>>, st: State)
  {
    exists first: State, run: seq<Action> :: Init(c, work, first) && Exec(c, first, run) == Some(st)
  }

  predicate Finished(st: State)
  {
    forall i :: 0 <= i < |st.proxies| ==> st.proxies[i].pc == Idle && st.proxies[i].todo == []
  }
}
