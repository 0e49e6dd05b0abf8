/** What every reachable state of the protocol guarantees: prefixes of the atomic answer, refinement of a server that
    answers atomically, exclusive segments, bounded queues, and the hand-over of the shared memory. */
module ProtocolSafety {
  import opened Wrappers
  import opened Rotation
  import opened Protocol
  import opened ProtocolInvariant

  // ---------------------------------------------------------------- the client's view

  /** While a request is worked on, its client has been sent nothing, or some part of the right header and after it a
      beginning of the file. If the whole header was written these bytes are a beginning of the atomic answer; and when
      the thread leaves handle_request they are the atomic answer exactly if the whole header was written. */
  lemma {:induction false} OutputIsPrefixOfAnswer(c: Config, work: seq<seq<string>>, st: State, i: nat)
    requires ValidConfig(c) && Reachable(c, work, st)
    requires i < |st.proxies| && Active(st.proxies[i])
    ensures st.proxies[i].todo != [] && WellSent(st.proxies[i].out)
    ensures var p := st.proxies[i];
            var path := p.todo[0];
            && (p.out.header == None ==> Wire(p.out) == [])
            && (p.out.header != None ==>
                  && p.out.header == Some(HeaderFor(c, path)) && p.out.body <= FileOf(c, path)
                  && Wire(p.out) == Printed(HeaderFor(c, path))[..p.out.sent] + p.out.body)
            && (p.out.header == None || HeaderComplete(p.out) ==> Wire(p.out) <= Wire(Answer(c, path)))
            && (p.pc == Releasing ==> (Wire(p.out) == Wire(Answer(c, path)) <==> HeaderComplete(p.out)))
  {
    hide Printed;
    ReachableInv(c, work, st);
    var p := st.proxies[i];
    HolderLinked(c, st, i);
    OutputForm(c, p, ViewOf(st, p.seg));
    if p.out.header != None { PartOfAnswer(c, p.todo[0], p.out); }
  }

  lemma {:induction false} OutputForm(c: Config, p: Proxy, v: View)
    requires p.todo != [] && Active(p) && Linked(c, p, v)
    ensures WellSent(p.out)
    ensures p.out.header == None ==> p.out == NOTHING_SENT
    ensures p.out.header != None ==>
              p.out.header == Some(HeaderFor(c, p.todo[0])) && p.out.body <= FileOf(c, p.todo[0])
    ensures p.pc == Releasing ==> Replied(c, p.todo[0], p.out, p.ret)
  {
    hide Printed, BetweenChunks, WorkerWaits, HeaderPending, Quiet, Holding, OfTransfer;
  }

  lemma {:induction false} PartOfAnswer(c: Config, path: string, o: Output)
    requires WellSent(o) && o.header == Some(HeaderFor(c, path)) && o.body <= FileOf(c, path)
    ensures HeaderComplete(o) ==> Wire(o) <= Wire(Answer(c, path))
    ensures o.body == FileOf(c, path) ==> (Wire(o) == Wire(Answer(c, path)) <==> HeaderComplete(o))
  {
    hide Printed;
    var header, file := Printed(HeaderFor(c, path)), FileOf(c, path);
    assert header[..|header|] == header;
    assert Wire(Answer(c, path)) == header + file;
    assert |Wire(o)| == o.sent + |o.body|;
  }

  /** A session of the atomic server: the requests still to come and the answers given so far. */
  datatype Session = Session(todo: seq<string>, answered: seq<(string, Output)>)

  function Answered(served: seq<Reply>): seq<(string, Output)>
  {
    seq(|served|, k requires 0 <= k < |served| => (served[k].path, served[k].out))
  }

  function Abstract(st: State): seq<Session>
  {
    seq(|st.proxies|, i requires 0 <= i < |st.proxies| =>
      Session(st.proxies[i].todo, Answered(st.proxies[i].served)))
  }

  /** The atomic server answers the next request of session i in one step, whose header write takes h bytes. */
  predicate ServeAtomically(c: Config, a: seq<Session>, i: nat, h: nat, a': seq<Session>)
  {
    && i < |a| && a[i].todo != []
    && var path := a[i].todo[0];
       a' == a[i := Session(a[i].todo[1..], a[i].answered + [(path, AnswerFrom(c, path, h))])]
  }

  /** Threads a step does not complete a request for keep what they have to do and what they have served. */
  lemma {:induction false} OthersUnchanged(c: Config, st: State, a: Action, i: nat)
    requires Enabled(c, st, a) && i < |st.proxies| && !(a.Release? && a.i == i)
    ensures |Apply(c, st, a).proxies| == |st.proxies|
    ensures Apply(c, st, a).proxies[i].todo == st.proxies[i].todo
    ensures Apply(c, st, a).proxies[i].served == st.proxies[i].served
  {
    hide Printed, AfterSearch;
  }

  /** Every protocol step is invisible to the atomic server or is one of its steps: the release of a segment
      completes one request with the answer of one step, up to the part of the header that was written. */
  lemma {:induction false} StepRefinesAtomicServer(c: Config, st: State, a: Action)
    requires ValidConfig(c) && Inv(c, st) && Enabled(c, st, a)
    ensures if a.Release? then
              && a.i < |st.proxies| && st.proxies[a.i].todo != [] && WellSent(st.proxies[a.i].out)
              && ServeAtomically(c, Abstract(st), a.i, st.proxies[a.i].out.sent, Abstract(Apply(c, st, a)))
              && (HeaderComplete(st.proxies[a.i].out) ==>
                    st.proxies[a.i].out == Answer(c, st.proxies[a.i].todo[0]))
            else Abstract(Apply(c, st, a)) == Abstract(st)
  {
    if a.Release? {
      ReleaseServes(c, st, a.i, a.wake);
    } else {
      forall i | 0 <= i < |st.proxies|
        ensures |Apply(c, st, a).proxies| == |st.proxies| && Abstract(Apply(c, st, a))[i] == Abstract(st)[i] {
        OthersUnchanged(c, st, a, i);
      }
      assert |Apply(c, st, a).proxies| == |st.proxies|;
    }
  }

  lemma {:induction false} ReleaseServes(c: Config, st: State, i: nat, wake: Option<nat>)
    requires ValidConfig(c) && Inv(c, st) && Enabled(c, st, Release(i, wake))
    ensures Replied(c, st.proxies[i].todo[0], st.proxies[i].out, st.proxies[i].ret)
    ensures ServeAtomically(c, Abstract(st), i, st.proxies[i].out.sent, Abstract(DoRelease(st, i, wake)))
  {
    hide Inv, Printed;
    HolderLinked(c, st, i);
    var p, st' := st.proxies[i], DoRelease(st, i, wake);
    assert Answered(st'.proxies[i].served) == Answered(p.served) + [(p.todo[0], p.out)];
  }

  /** Nothing is lost, repeated or reordered: what a thread has served and what is left are its workload, and every
      answer was the atomic one up to the part of the header that was written, with the file's size as the handler's
      result on a hit. */
  ghost predicate HistoryOk(c: Config, work: seq<seq<string>>, st: State)
  {
    && |st.proxies| == |work|
    && forall i :: 0 <= i < |work| ==> ThreadHistoryOk(c, work[i], st.proxies[i])
  }

  predicate ThreadHistoryOk(c: Config, requests: seq<string>, p: Proxy)
  {
    && |p.served| + |p.todo| == |requests|
    && p.todo == requests[|p.served|..]
    && forall k :: 0 <= k < |p.served| ==> CorrectReply(c, requests[k], p.served[k])
  }

  predicate CorrectReply(c: Config, path: string, r: Reply)
  {
    r.path == path && Replied(c, path, r.out, r.ret)
  }

  lemma {:induction false} ReleaseKeepsHistory(c: Config, requests: seq<string>, st: State, i: nat, wake: Option<nat>)
    requires ValidConfig(c) && Inv(c, st) && Enabled(c, st, Release(i, wake))
    requires ThreadHistoryOk(c, requests, st.proxies[i])
    ensures ThreadHistoryOk(c, requests, DoRelease(st, i, wake).proxies[i])
  {
    hide Inv, Printed;
    HolderLinked(c, st, i);
    var p := st.proxies[i];
    assert CorrectReply(c, requests[|p.served|], Reply(p.todo[0], p.out, p.ret));
  }

  lemma {:induction false} StepKeepsHistory(c: Config, work: seq<seq<string>>, st: State, a: Action)
    requires ValidConfig(c) && Inv(c, st) && Enabled(c, st, a) && HistoryOk(c, work, st)
    ensures HistoryOk(c, work, Apply(c, st, a))
  {
    hide Inv, Printed, CorrectReply;
    forall i | 0 <= i < |work|
      ensures |Apply(c, st, a).proxies| == |work| && ThreadHistoryOk(c, work[i], Apply(c, st, a).proxies[i]) {
      assert ThreadHistoryOk(c, work[i], st.proxies[i]);
      if a.Release? && a.i == i {
        ReleaseKeepsHistory(c, work[i], st, i, a.wake);
      } else {
        OthersUnchanged(c, st, a, i);
      }
    }
  }

  lemma {:induction false} RunKeepsHistory(c: Config, work: seq<seq<string>>, st: State, run: seq<Action>)
    requires ValidConfig(c) && Inv(c, st) && HistoryOk(c, work, st) && Exec(c, st, run).Some?
    ensures HistoryOk(c, work, Exec(c, st, run).value)
    decreases |run|
  {
    if run != [] {
      StepPreserves(c, st, run[0]);
      StepKeepsHistory(c, work, st, run[0]);
      RunKeepsHistory(c, work, Apply(c, st, run[0]), run[1..]);
    }
  }

  lemma {:induction false} ReachableHistory(c: Config, work: seq<seq<string>>, st: State)
    requires ValidConfig(c) && Reachable(c, work, st)
    ensures HistoryOk(c, work, st)
  {
    var first: State, run: seq<Action> :| Init(c, work, first) && Exec(c, first, run) == Some(st);
    InitEstablishes(c, work, first);
    RunKeepsHistory(c, work, first, run);
  }

  // ---------------------------------------------------------------- exactly when the answers are atomic

  /** A step that writes a header writes all of it. */
  predicate WholeHeader(st: State, a: Action)
  {
    a.ForwardHeader? ==> a.i < |st.proxies| && a.sent == |Printed(HeaderIn(st.proxies[a.i].pkt))|
  }

  /** Every header write of the run is complete. */
  predicate WholeHeaders(c: Config, st: State, run: seq<Action>)
    requires Exec(c, st, run).Some?
    decreases |run|
  {
    run == [] || (WholeHeader(st, run[0]) && WholeHeaders(c, Apply(c, st, run[0]), run[1..]))
  }

  /** Every header a thread has written, for the request it works on and for those it has served, was written whole. */
  predicate ThreadWhole(p: Proxy)
  {
    && (Active(p) && p.out.header != None ==> HeaderComplete(p.out))
    && forall k :: 0 <= k < |p.served| ==> HeaderComplete(p.served[k].out)
  }

  ghost predicate AllWhole(st: State)
  {
    forall i :: 0 <= i < |st.proxies| ==> ThreadWhole(st.proxies[i])
  }

  lemma {:induction false} ReleaseWhole(c: Config, st: State, i: nat, wake: Option<nat>)
    requires Inv(c, st) && Enabled(c, st, Release(i, wake))
    ensures ThreadWhole(DoRelease(st, i, wake).proxies[i]) <==> ThreadWhole(st.proxies[i])
  {
    hide Inv, Printed, HeaderComplete;
    HolderLinked(c, st, i);
    var p, p' := st.proxies[i], DoRelease(st, i, wake).proxies[i];
    var was, now := p.served, p'.served;
    assert p.out.header != None;
    assert now == was + [Reply(p.todo[0], p.out, p.ret)];
    assert now[|was|].out == p.out;
    assert forall k :: 0 <= k < |was| ==> now[k] == was[k];
  }

  lemma {:induction false} HeaderNotEmpty(h: Header)
    ensures 0 < |Printed(h)|
  {
  }

  lemma {:induction false} HeaderWriteWhole(c: Config, st: State, i: nat, sent: int)
    requires Inv(c, st) && Enabled(c, st, ForwardHeader(i, sent))
    ensures ThreadWhole(DoForwardHeader(st, i, sent).proxies[i]) <==>
              ThreadWhole(st.proxies[i]) && WholeHeader(st, ForwardHeader(i, sent))
  {
    hide Inv, Printed, BetweenChunks, Quiet;
    HolderLinked(c, st, i);
    HeaderNotEmpty(HeaderIn(st.proxies[i].pkt));
  }

  /** The output and the replies of a thread are touched by nobody but itself. */
  lemma {:induction false} OthersWhole(c: Config, st: State, a: Action, i: nat)
    requires Enabled(c, st, a) && i < |st.proxies|
    requires !((a.Release? || a.ForwardHeader?) && a.i == i)
    ensures ThreadWhole(Apply(c, st, a).proxies[i]) <==> ThreadWhole(st.proxies[i])
  {
    hide Printed, AfterSearch;
  }

  lemma {:induction false} StepWholeFor(c: Config, st: State, a: Action, i: nat)
    requires Inv(c, st) && Enabled(c, st, a) && i < |st.proxies|
    ensures |Apply(c, st, a).proxies| == |st.proxies|
    ensures ThreadWhole(Apply(c, st, a).proxies[i]) <==>
              ThreadWhole(st.proxies[i]) && (a.ForwardHeader? && a.i == i ==> WholeHeader(st, a))
  {
    hide Inv, Printed, Enabled, ThreadWhole;
    SomeThread(c, st, a);
    if a.Release? && a.i == i {
      ReleaseWhole(c, st, i, a.wake);
    } else if a.ForwardHeader? && a.i == i {
      HeaderWriteWhole(c, st, i, a.sent);
    } else {
      OthersWhole(c, st, a, i);
    }
  }

  lemma {:induction false} StepWhole(c: Config, st: State, a: Action)
    requires Inv(c, st) && Enabled(c, st, a)
    ensures AllWhole(Apply(c, st, a)) <==> AllWhole(st) && WholeHeader(st, a)
  {
    hide Inv, Enabled, Apply, WholeHeader, ThreadWhole;
    var st' := Apply(c, st, a);
    SomeThread(c, st, a);
    forall i: nat | i < |st.proxies|
      ensures ThreadWhole(st'.proxies[i]) <==>
                ThreadWhole(st.proxies[i]) && (a.ForwardHeader? && a.i == i ==> WholeHeader(st, a)) {
      StepWholeFor(c, st, a, i);
    }
    if a.ForwardHeader? {
      assert ThreadWhole(st'.proxies[a.i]) <==> ThreadWhole(st.proxies[a.i]) && WholeHeader(st, a);
    }
  }

  lemma {:induction false} SomeThread(c: Config, st: State, a: Action)
    requires Enabled(c, st, a)
    ensures |Apply(c, st, a).proxies| == |st.proxies|
    ensures !a.ForwardHeader? ==> WholeHeader(st, a)
    ensures a.ForwardHeader? ==> a.i < |st.proxies|
  {
    hide Printed, AfterSearch;
  }

  lemma {:induction false} RunWhole(c: Config, st: State, run: seq<Action>)
    requires ValidConfig(c) && Inv(c, st) && Exec(c, st, run).Some?
    ensures AllWhole(Exec(c, st, run).value) <==> AllWhole(st) && WholeHeaders(c, st, run)
    decreases |run|
  {
    if run != [] {
      StepPreserves(c, st, run[0]);
      StepWhole(c, st, run[0]);
      RunWhole(c, Apply(c, st, run[0]), run[1..]);
    }
  }

  /** Every client has been sent exactly the bytes of the atomic answer to each of its finished requests, and the whole
      header of the one that is worked on, if any of it was written. */
  ghost predicate Atomic(c: Config, st: State)
  {
    && (forall i, k :: 0 <= i < |st.proxies| && 0 <= k < |st.proxies[i].served| ==>
          AtomicReply(c, st.proxies[i].served[k]))
    && (forall i :: 0 <= i < |st.proxies| && Active(st.proxies[i]) && st.proxies[i].out.header != None ==>
          HeaderComplete(st.proxies[i].out))
  }

  predicate AtomicReply(c: Config, r: Reply)
  {
    WellSent(r.out) && Wire(r.out) == Wire(Answer(c, r.path))
  }

  /** A reply is the atomic one exactly when its header was written whole. */
  lemma {:induction false} ReplyAtomicIff(c: Config, path: string, r: Reply)
    requires CorrectReply(c, path, r)
    ensures AtomicReply(c, r) <==> HeaderComplete(r.out)
  {
    PartOfAnswer(c, path, r.out);
  }

  lemma {:induction false} WholeIsAtomic(c: Config, work: seq<seq<string>>, st: State)
    requires HistoryOk(c, work, st)
    ensures AllWhole(st) <==> Atomic(c, st)
  {
    hide Printed, AtomicReply, HeaderComplete;
    forall i, k | 0 <= i < |st.proxies| && 0 <= k < |st.proxies[i].served|
      ensures AtomicReply(c, st.proxies[i].served[k]) <==> HeaderComplete(st.proxies[i].served[k].out) {
      assert CorrectReply(c, work[i][k], st.proxies[i].served[k]);
      ReplyAtomicIff(c, work[i][k], st.proxies[i].served[k]);
    }
  }

  /** The answers are the atomic ones exactly when every header write of the run was complete. */
  lemma {:induction false} AtomicIffWholeHeaders(c: Config, work: seq<seq<string>>, first: State, run: seq<Action>)
    requires ValidConfig(c) && Init(c, work, first) && Exec(c, first, run).Some?
    ensures Atomic(c, Exec(c, first, run).value) <==> WholeHeaders(c, first, run)
  {
    var st := Exec(c, first, run).value;
    InitEstablishes(c, work, first);
    RunWhole(c, first, run);
    assert Reachable(c, work, st);
    ReachableHistory(c, work, st);
    WholeIsAtomic(c, work, st);
  }

  // ---------------------------------------------------------------- segments

  /** Every segment is quiet or linked to its holder. */
  lemma {:induction false} SegmentCases(c: Config, st: State, s: nat) returns (i: nat)
    requires Inv(c, st) && s < c.numSegments
    ensures Quiet(ViewOf(st, s))
         || (i < |st.proxies| && Active(st.proxies[i]) && st.proxies[i].seg == s && st.proxies[i].todo != []
             && Linked(c, st.proxies[i], ViewOf(st, s)))
  {
    i := 0;
    if s !in st.free {
      assert HeldBy(st, s);
      i :| 0 <= i < |st.proxies| && Active(st.proxies[i]) && st.proxies[i].seg == s;
    }
  }

  /** The segments held by threads, in thread order. */
  function HeldSegments(ps: seq<Proxy>): (r: seq<nat>)
  {
    if ps == [] then [] else (if Active(ps[0]) then [ps[0].seg] else []) + HeldSegments(ps[1..])
  }

  lemma {:induction false} HeldSegmentsDistinct(ps: seq<Proxy>)
    requires forall i, j :: 0 <= i < j < |ps| && Active(ps[i]) && Active(ps[j]) ==> ps[i].seg != ps[j].seg
    ensures Distinct(HeldSegments(ps))
    ensures forall s :: s in HeldSegments(ps) <==> exists i :: 0 <= i < |ps| && Active(ps[i]) && ps[i].seg == s
  {
    if ps != [] {
      assert forall i :: 0 <= i < |ps[1..]| ==> ps[1..][i] == ps[i + 1];
      HeldSegmentsDistinct(ps[1..]);
      assert Active(ps[0]) ==> ps[0].seg !in HeldSegments(ps[1..]);
      forall s ensures s in HeldSegments(ps) <==> exists i :: 0 <= i < |ps| && Active(ps[i]) && ps[i].seg == s {
        if s in HeldSegments(ps[1..]) {
          var i :| 0 <= i < |ps[1..]| && Active(ps[1..][i]) && ps[1..][i].seg == s;
          assert ps[i + 1].seg == s;
        }
        if i :| 0 <= i < |ps| && Active(ps[i]) && ps[i].seg == s {
          if i > 0 { assert ps[1..][i - 1] == ps[i]; }
        }
      }
    }
  }

  lemma {:induction false} DistinctCountsOnce<T>(s: seq<T>, x: T)
    requires Distinct(s)
    ensures multiset(s)[x] == if x in s then 1 else 0
  {
    if s != [] {
      assert s == [s[0]] + s[1..];
      DistinctCountsOnce(s[1..], x);
    }
  }

  lemma {:induction false} DistinctConcat<T>(a: seq<T>, b: seq<T>)
    requires Distinct(a) && Distinct(b) && forall x :: x in b ==> x !in a
    ensures Distinct(a + b)
  {
    forall i, j | 0 <= i < j < |a + b| ensures (a + b)[i] != (a + b)[j] {
      if i < |a| <= j {
        assert b[j - |a|] in b && a[i] in a;
      }
    }
  }

  /** Conservation and exclusivity: the free segments and the held ones together are a permutation of all indices. */
  lemma {:induction false} SegmentsConserved(c: Config, work: seq<seq<string>>, st: State)
    requires ValidConfig(c) && Reachable(c, work, st)
    ensures multiset(st.free + HeldSegments(st.proxies)) == multiset(PushedInOrder(c.numSegments))
    ensures forall i, j :: 0 <= i < j < |st.proxies| && Active(st.proxies[i]) && Active(st.proxies[j]) ==>
              st.proxies[i].seg != st.proxies[j].seg
  {
    ReachableInv(c, work, st);
    HeldSegmentsDistinct(st.proxies);
    var all: seq<int> := st.free + HeldSegments(st.proxies);
    var indices: seq<int> := PushedInOrder(c.numSegments);
    DistinctConcat(st.free, HeldSegments(st.proxies));
    forall x: int ensures multiset(all)[x] == multiset(indices)[x] {
      DistinctCountsOnce(all, x);
      DistinctCountsOnce(indices, x);
      if 0 <= x < c.numSegments {
        assert indices[c.numSegments - 1 - x] == x;
        assert x in st.free || HeldBy(st, x);
      }
    }
  }

  lemma {:induction false} TwoPacketsFor(q: seq<Packet>, k: nat, l: nat)
    requires k < l < |q| && q[k].segmentIndex == q[l].segmentIndex
    ensures |PacketsFor(q, q[k].segmentIndex)| >= 2
  {
    if k == 0 {
      assert q[1..][l - 1] == q[l];
      assert PacketsFor(q[1..], q[k].segmentIndex) != [];
    } else {
      TwoPacketsFor(q[1..], k - 1, l - 1);
    }
  }

  lemma {:induction false} PacketIsListed(q: seq<Packet>, k: nat)
    requires k < |q|
    ensures q[k] in PacketsFor(q, q[k].segmentIndex)
  {
    if k > 0 {
      PacketIsListed(q[1..], k - 1);
    }
  }

  ghost predicate RequestedBy(st: State, i: nat, pkt: Packet)
  {
    && At(st, i, AwaitHeader) && st.proxies[i].todo != []
    && st.proxies[i].seg == pkt.segmentIndex && pkt.requestedFile == st.proxies[i].todo[0]
  }

  lemma {:induction false} RequesterOf(c: Config, st: State, k: nat) returns (i: nat)
    requires Inv(c, st) && k < |st.control|
    ensures RequestedBy(st, i, st.control[k])
    ensures |PacketsFor(st.control, st.control[k].segmentIndex)| == 1
  {
    hide Printed, Holding, OfTransfer;
    var s := st.control[k].segmentIndex;
    PacketIsListed(st.control, k);
    i := SegmentCases(c, st, s);
    assert ViewOf(st, s).requests == PacketsFor(st.control, s);
  }

  ghost predicate HasRequester(st: State, pkt: Packet)
  {
    exists i: nat :: RequestedBy(st, i, pkt)
  }

  /** The indices in the control queue are pairwise distinct, and each is held by the thread that asked for it. */
  lemma {:induction false} ControlQueueExclusive(c: Config, work: seq<seq<string>>, st: State)
    requires ValidConfig(c) && Reachable(c, work, st)
    ensures forall k, l :: 0 <= k < l < |st.control| ==> st.control[k].segmentIndex != st.control[l].segmentIndex
    ensures forall k :: 0 <= k < |st.control| ==> HasRequester(st, st.control[k])
  {
    ReachableInv(c, work, st);
    forall k | 0 <= k < |st.control| ensures HasRequester(st, st.control[k]) {
      var i: nat := RequesterOf(c, st, k);
      assert RequestedBy(st, i, st.control[k]);
    }
    forall k, l | 0 <= k < l < |st.control| ensures st.control[k].segmentIndex != st.control[l].segmentIndex {
      if st.control[k].segmentIndex == st.control[l].segmentIndex {
        TwoPacketsFor(st.control, k, l);
        var i := RequesterOf(c, st, k);
      }
    }
  }

  // ---------------------------------------------------------------- queues

  /** The cache-to-proxy queue of a segment never holds more than a header and the first chunk, the other queue
      never more than one acknowledgement; so the worker never blocks when it sends data. */
  lemma {:induction false} DataQueuesBounded(c: Config, work: seq<seq<string>>, st: State, s: nat)
    requires ValidConfig(c) && Reachable(c, work, st) && s < c.numSegments
    ensures s < |st.toProxy| == |st.toCache|
    ensures |st.toProxy[s]| <= 2 && |st.toCache[s]| <= 1
  {
    hide Printed;
    ReachableInv(c, work, st);
    var i := SegmentCases(c, st, s);
  }

  /** Whatever the proxy receives or has received during a transfer, and whatever it sends back, carries the size of
      the requested file, the common segment size and the segment's own index: overwriting the packet with an
      echoed one is harmless. */
  lemma {:induction false} TransferPacketsAgree(c: Config, work: seq<seq<string>>, st: State, i: nat)
    requires ValidConfig(c) && Reachable(c, work, st)
    requires i < |st.proxies| && Active(st.proxies[i]) && st.proxies[i].pc !in {Requesting, Releasing}
    ensures st.proxies[i].todo != [] && st.proxies[i].seg < |st.toProxy| == |st.toCache|
    ensures var p := st.proxies[i];
            && (p.pc != AwaitHeader ==> OfTransfer(c, p.todo[0], p.seg, p.pkt))
            && (forall k :: 0 <= k < |st.toProxy[p.seg]| ==> OfTransfer(c, p.todo[0], p.seg, st.toProxy[p.seg][k]))
            && (p.pc !in {AwaitHeader, HeaderReceived} ==>
                  forall k :: 0 <= k < |st.toCache[p.seg]| ==> OfTransfer(c, p.todo[0], p.seg, st.toCache[p.seg][k]))
  {
    hide Inv, Printed, OfTransfer;
    ReachableInv(c, work, st);
    HolderLinked(c, st, i);
    PacketsAgree(c, st.proxies[i], ViewOf(st, st.proxies[i].seg));
  }

  lemma {:induction false} PacketsAgree(c: Config, p: Proxy, v: View)
    requires p.todo != [] && Active(p) && Linked(c, p, v) && p.pc !in {Requesting, Releasing}
    ensures p.pc != AwaitHeader ==> OfTransfer(c, p.todo[0], p.seg, p.pkt)
    ensures forall k :: 0 <= k < |v.toProxy| ==> OfTransfer(c, p.todo[0], p.seg, v.toProxy[k])
    ensures p.pc !in {AwaitHeader, HeaderReceived} ==>
              forall k :: 0 <= k < |v.toCache| ==> OfTransfer(c, p.todo[0], p.seg, v.toCache[k])
  {
    hide Printed, Holding, Forwarded;
  }

  /** A leftover last acknowledgement is gone before the worker takes another request. */
  lemma {:induction false} NoStaleAckAtRequest(c: Config, work: seq<seq<string>>, st: State, s: nat)
    requires ValidConfig(c) && Reachable(c, work, st) && st.worker.pc == AwaitRequest && s < c.numSegments
    ensures s < |st.toCache| && st.toCache[s] == []
  {
    ReachableInv(c, work, st);
    var i := SegmentCases(c, st, s);
  }

  // ---------------------------------------------------------------- shared memory

  /** The data packet a thread still has to acknowledge, q being its cache-to-proxy queue: the one it received, or
      the last one in the queue. */
  function PendingChunk(p: Proxy, q: seq<Packet>): Option<Packet>
  {
    if p.pc in {DataReceived, DataSent} then Some(p.pkt)
    else if q != [] && 0 < q[|q| - 1].chunkSize then Some(q[|q| - 1])
    else None
  }

  /** Where in the file the pending chunk starts: at the running total, which DataSent has already advanced. */
  function ChunkStart(p: Proxy): int
  {
    if p.pc == DataSent then p.total - p.pkt.chunkSize else p.total
  }

  lemma {:induction false} PendingChunkHeld(c: Config, p: Proxy, v: View)
    requires p.todo != [] && Active(p) && Linked(c, p, v) && PendingChunk(p, v.toProxy).Some?
    ensures p.todo[0] in c.files
    ensures Holding(c, p.todo[0], v.shm, ChunkStart(p), PendingChunk(p, v.toProxy).value.chunkSize)
    ensures v.serving.Some? && v.serving.value.pc == AwaitAck
  {
  }

  lemma {:induction false} OnlyReadFileWrites(c: Config, st: State, a: Action, s: nat)
    requires Shape(c, st) && Enabled(c, st, a) && s < c.numSegments
    requires !(st.worker.pc == ReadFile && st.worker.seg == s)
    ensures |Apply(c, st, a).shm| == |st.shm| && Apply(c, st, a).shm[s] == st.shm[s]
  {
  }

  /** The hand-over: from the moment a data packet is posted until its acknowledgement is sent, the segment begins
      with exactly the slice of the file that the packet announces, and no step of any thread writes the segment. */
  lemma {:induction false} SharedMemoryHandoff(c: Config, work: seq<seq<string>>, st: State, i: nat, a: Action)
    requires ValidConfig(c) && Reachable(c, work, st) && Enabled(c, st, a)
    requires i < |st.proxies| && Active(st.proxies[i]) && st.proxies[i].seg < |st.toProxy| == |st.shm|
    requires PendingChunk(st.proxies[i], st.toProxy[st.proxies[i].seg]).Some?
    ensures var p := st.proxies[i];
            var n, from := PendingChunk(p, st.toProxy[p.seg]).value.chunkSize, ChunkStart(p);
            && p.todo != [] && p.todo[0] in c.files
            && 0 < n <= |st.shm[p.seg]| && 0 <= from && from + n <= |c.files[p.todo[0]]|
            && st.shm[p.seg][..n] == c.files[p.todo[0]][from..from + n]
            && |Apply(c, st, a).shm| == |st.shm| && Apply(c, st, a).shm[p.seg] == st.shm[p.seg]
  {
    ReachableInv(c, work, st);
    var p := st.proxies[i];
    PendingChunkHeld(c, p, ViewOf(st, p.seg));
    OnlyReadFileWrites(c, st, a, p.seg);
  }

  // ---------------------------------------------------------------- the source's assertions

  /** find_segment always finds: when the worker looks up a request, the index it names occurs exactly once in the
      cache's ring, and the size assertion holds. */
  lemma {:induction false} SearchAlwaysSucceeds(c: Config, work: seq<seq<string>>, st: State)
    requires ValidConfig(c) && Reachable(c, work, st) && st.worker.pc == LookUp
    ensures st.worker.pkt.segmentIndex < c.numSegments && multiset(st.ring)[st.worker.pkt.segmentIndex as int] == 1
    ensures Enabled(c, st, FindFile)
  {
    ReachableInv(c, work, st);
    var x := st.worker.pkt.segmentIndex;
    var indices: seq<int> := PushedInOrder(c.numSegments);
    assert indices[c.numSegments - 1 - x] == x;
    DistinctCountsOnce(indices, x);
    assert x in multiset(st.ring);
  }

  lemma {:induction false} ServingWorker(c: Config, p: Proxy, v: View)
    requires p.todo != [] && Active(p) && Linked(c, p, v)
    requires v.serving.Some? && v.serving.value.pc in {SendHeader, ReadFile, SendChunk}
    ensures |v.toProxy| <= 1
    ensures var w := v.serving.value;
            && w.seg == p.seg && w.pkt.segmentSize == c.segmentSize
            && (w.pc == ReadFile ==> w.fd in c.files && 0 <= w.total < w.pkt.fileSize == |c.files[w.fd]|)
            && (w.pc == SendChunk ==> w.pkt.chunkSize <= c.segmentSize)
  {
  }

  lemma {:induction false} ServingState(c: Config, st: State)
    requires Inv(c, st) && st.worker.pc in {SendHeader, ReadFile, SendChunk}
    ensures var w := st.worker;
            && w.seg < |st.toProxy| == |st.toCache| == |st.shm|
            && |st.toProxy[w.seg]| <= 1 && w.pkt.segmentSize == |st.shm[w.seg]| == c.segmentSize
            && (w.pc == ReadFile ==> w.fd in c.files && 0 <= w.total < w.pkt.fileSize == |c.files[w.fd]|)
            && (w.pc == SendChunk ==> w.pkt.chunkSize <= c.segmentSize)
  {
    var i := ServedThread(c, st);
    ServingWorker(c, st.proxies[i], ViewOf(st, st.proxies[i].seg));
  }

  lemma {:induction false} FillEnabled(c: Config, st: State, n: nat)
    requires WorkerAt(st, ReadFile) && st.worker.fd in c.files && 0 < n <= ChunkRequest(st.worker)
    requires 0 <= st.worker.total < st.worker.pkt.fileSize == |c.files[st.worker.fd]|
    requires st.worker.pkt.segmentSize == |st.shm[st.worker.seg]|
    ensures Enabled(c, st, FillSegment(n))
  {
  }

  lemma {:induction false} ReplyEnabled(c: Config, st: State)
    requires st.worker.pc in {SendHeader, SendChunk} && WorkerAt(st, st.worker.pc) && |st.toProxy[st.worker.seg]| <= 1
    requires st.worker.pc == SendChunk ==> st.worker.pkt.chunkSize <= st.worker.pkt.segmentSize
    ensures Enabled(c, st, if st.worker.pc == SendHeader then ReplyHeader else ReplyChunk)
  {
  }

  /** The worker's assertions never fail: pread is asked for a positive number of bytes that fit the segment, and a
      chunk is no larger than the segment. No send of data has to wait for room. */
  lemma {:induction false} WorkerAssertionsHold(c: Config, work: seq<seq<string>>, st: State)
    requires ValidConfig(c) && Reachable(c, work, st) && st.worker.pc in {SendHeader, ReadFile, SendChunk}
    ensures st.worker.pc == SendHeader ==> Enabled(c, st, ReplyHeader)
    ensures st.worker.pc == ReadFile ==>
              0 < ChunkRequest(st.worker)
              && forall n: nat :: 0 < n <= ChunkRequest(st.worker) ==> Enabled(c, st, FillSegment(n))
    ensures st.worker.pc == SendChunk ==> Enabled(c, st, ReplyChunk)
  {
    hide Inv, Enabled;
    ReachableInv(c, work, st);
    ServingState(c, st);
    if st.worker.pc == ReadFile {
      forall n: nat | 0 < n <= ChunkRequest(st.worker) ensures Enabled(c, st, FillSegment(n)) {
        FillEnabled(c, st, n);
      }
    } else {
      ReplyEnabled(c, st);
    }
  }

  /** The proxy's assertions never fail either: the announced chunk lies inside the segment, and there is room for
      the acknowledgement. */
  lemma {:induction false} ProxyAssertionsHold(c: Config, work: seq<seq<string>>, st: State, i: nat)
    requires ValidConfig(c) && Reachable(c, work, st) && i < |st.proxies|
    ensures st.proxies[i].pc == DataReceived ==> Enabled(c, st, ForwardData(i))
    ensures st.proxies[i].pc == DataSent ==> Enabled(c, st, Acknowledge(i))
  {
    hide Inv, Printed;
    ReachableInv(c, work, st);
    if Active(st.proxies[i]) {
      HolderLinked(c, st, i);
    }
  }
}
