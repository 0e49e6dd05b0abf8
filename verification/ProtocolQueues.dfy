/** Where the protocol meets the linked queue: the rings it starts from are the queues made at start-up, and its look-up
    step is find_segment running on such a queue. */
module ProtocolQueues {
  import opened Rotation
  import opened ShmChannel
  import opened Protocol
  import opened ProtocolSafety

  /** Both processes create their queues alike, so proxy and cache start with the same order of indices. */
  lemma {:induction false} SetupMatchesProtocol(n: nat, proxy: bool)
    ensures Indices(Items(n, proxy)) == PushedInOrder(n)
  {
  }

  /** The look-up step is a successful search: in every reachable state in which the worker looks up a request, a queue
      of items in the order of the ring meets find_segment's precondition, and what find_segment leaves of that queue,
      a number of cycles of its items, has the order of the ring after the step. */
  lemma {:induction false} LookUpStepIsSearch(c: Config, work: seq<seq<string>>, st: State, items: seq<SegmentItem>)
    requires ValidConfig(c) && Reachable(c, work, st) && st.worker.pc == LookUp && Indices(items) == st.ring
    ensures 0 < c.numSegments && st.worker.pkt.segmentIndex in Indices(items)
    ensures Enabled(c, st, FindFile)
    ensures var index := st.worker.pkt.segmentIndex;
            Indices(RotateTimes(items, IndexOf(Indices(items), index) + 1)) == Apply(c, st, FindFile).ring
  {
    SearchAlwaysSucceeds(c, work, st);
    SearchLeaves(items, st.worker.pkt.segmentIndex);
  }
}
