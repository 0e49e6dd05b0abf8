/** Setting up the segments and their message queues on both sides (project3/shm_channel.c), and finding a segment by
    rotating the queue (find_segment of project3/simplecached.c). */
module ShmChannel {
  import opened Wrappers
  import opened Rotation
  import opened Decimal
  import opened Steque

  const SHM_PATH := "/segment_sebdel"
  const PROXY_TO_CACHE := "/proxy-to-cache"
  const CACHE_TO_PROXY := "/cache-to-proxy"

  /** The size of the array an index is printed into. */
  const MAX_SEG := 10

  datatype SegmentItem = SegmentItem(segmentIndex: int, segmentId: string, txName: string, rxName: string)

  /** shm_create_id: the prefix followed by the index in decimal. */
  function CreateId(prefix: string, index: nat): string
  {
    prefix + Print(index)
  }

  /** The item each side makes for segment i. */
  function Item(i: nat, proxy: bool): SegmentItem
  {
    SegmentItem(
      i, CreateId(SHM_PATH, i),
      CreateId(if proxy then PROXY_TO_CACHE else CACHE_TO_PROXY, i),
      CreateId(if proxy then CACHE_TO_PROXY else PROXY_TO_CACHE, i))
  }

  /** The items 0 to n - 1, the last one in front. */
  function Items(n: nat, proxy: bool): (r: seq<SegmentItem>)
    ensures |r| == n
    ensures forall k :: 0 <= k < n ==> r[k] == Item(n - 1 - k, proxy)
  {
    if n == 0 then [] else [Item(n - 1, proxy)] + Items(n - 1, proxy)
  }

  /** Fills a freshly initialised queue. A negative count makes no segment. */
  method CreateSegments(numSegments: int, proxy: bool) returns (q: Steque<SegmentItem>)
    ensures q.Valid() && fresh(q) && fresh(q.repr)
    ensures q.contents == Items(if numSegments < 0 then 0 else numSegments, proxy)
  {
    q := new Steque<SegmentItem>();
    var i := 0;
    while i < numSegments
      invariant 0 <= i && (i <= numSegments || i == 0)
      invariant q.Valid() && fresh(q) && fresh(q.repr)
      invariant q.contents == Items(i, proxy)
    {
      q.Push(Item(i, proxy));
      i := i + 1;
    }
  }

  // ---------------------------------------------------------------- names

  /** The names on both sides. */
  lemma {:induction false} NamesOfSegment(i: nat)
    ensures Item(i, true) ==
              SegmentItem(i, "/segment_sebdel" + Print(i), "/proxy-to-cache" + Print(i), "/cache-to-proxy" + Print(i))
    ensures Item(i, false) ==
              SegmentItem(i, "/segment_sebdel" + Print(i), "/cache-to-proxy" + Print(i), "/proxy-to-cache" + Print(i))
    ensures Item(0, true).txName == "/proxy-to-cache0" && Item(0, true).rxName == "/cache-to-proxy0"
    ensures Item(0, true).segmentId == "/segment_sebdel0"
  {
    Digits(0);
  }

  /** The three prefixes have the same length, so the allocation made for the first one fits every name; the array an
      index is printed into has room for it and its terminator exactly up to nine digits. */
  lemma {:induction false} NamesFitAllocation(prefix: string, index: nat)
    requires prefix in {SHM_PATH, PROXY_TO_CACHE, CACHE_TO_PROXY}
    ensures |CreateId(prefix, index)| + 1 == |SHM_PATH| + |Print(index)| + 1
    ensures |Print(index)| + 1 <= 10 == MAX_SEG <==> index < 1_000_000_000
  {
    assert Pow10(9) == 1_000_000_000 by {
      assert Pow10(3) == 1000 && Pow10(6) == 1000 * Pow10(3) && Pow10(9) == 1000 * Pow10(6);
    }
    PrintLengthIff(index, 9);
  }

  /** Different segments and different directions have different names. */
  lemma {:induction false} NamesInjective(prefix1: string, i: nat, prefix2: string, j: nat)
    requires prefix1 in {SHM_PATH, PROXY_TO_CACHE, CACHE_TO_PROXY}
    requires prefix2 in {SHM_PATH, PROXY_TO_CACHE, CACHE_TO_PROXY}
    ensures CreateId(prefix1, i) == CreateId(prefix2, j) <==> prefix1 == prefix2 && i == j
  {
    if CreateId(prefix1, i) == CreateId(prefix2, j) {
      assert prefix1 == CreateId(prefix1, i)[..15] == CreateId(prefix2, j)[..15] == prefix2;
      assert Print(i) == CreateId(prefix1, i)[15..] == CreateId(prefix2, j)[15..] == Print(j);
      PrintInjective(i, j);
    }
  }

  /** The wiring: what the proxy sends on for segment i is what the cache receives on for segment i and for no other,
      and the other way round; a queue never carries both directions; both sides map the same memory. */
  lemma {:induction false} QueuesAreCrossed(i: nat, j: nat)
    ensures Item(i, true).txName == Item(j, false).rxName <==> i == j
    ensures Item(i, false).txName == Item(j, true).rxName <==> i == j
    ensures Item(i, true).txName != Item(j, true).rxName
    ensures Item(i, false).txName != Item(j, false).rxName
    ensures Item(i, true).segmentId == Item(j, false).segmentId <==> i == j
  {
    NamesInjective(PROXY_TO_CACHE, i, PROXY_TO_CACHE, j);
    NamesInjective(CACHE_TO_PROXY, i, CACHE_TO_PROXY, j);
    NamesInjective(PROXY_TO_CACHE, i, CACHE_TO_PROXY, j);
    NamesInjective(CACHE_TO_PROXY, i, PROXY_TO_CACHE, j);
    NamesInjective(SHM_PATH, i, SHM_PATH, j);
  }

  // ---------------------------------------------------------------- the rotating search

  function Indices(items: seq<SegmentItem>): seq<int>
  {
    seq(|items|, k requires 0 <= k < |items| => items[k].segmentIndex)
  }

  /** find_segment. The counter of its loop never moves, so it needs the index to be there (SearchStopsIffPresent in
      Rotation); the queue is left rotated past the item found. */
  method FindSegment(q: Steque<SegmentItem>, numSegments: int, index: int)
    returns (seg: Option<SegmentItem>, found: bool)
    requires q.Valid()
    requires 0 < numSegments ==> index in Indices(q.contents)
    modifies q, q.repr
    ensures q.Valid() && q.repr == old(q.repr)
    ensures numSegments <= 0 ==> !found && seg == None && q.contents == old(q.contents)
    ensures 0 < numSegments ==>
              && found && seg.Some? && seg.value in old(q.contents) && seg.value.segmentIndex == index
              && q.contents == RotateTimes(old(q.contents), IndexOf(Indices(old(q.contents)), index) + 1)
              && Indices(q.contents) == AfterSearch(Indices(old(q.contents)), index)
  {
    seg, found := None, false;
    ghost var was := q.contents;
    ghost var pos := if 0 < numSegments then IndexOf(Indices(was), index) else 0;
    ghost var turns := 0;
    var i := 0;
    while i < numSegments
      invariant q.Valid() && q.repr == old(q.repr) && i == 0
      invariant !found && (numSegments <= 0 ==> seg == None)
      invariant 0 <= turns <= pos <= |was| && q.contents == was[turns..] + was[..turns]
      decreases pos - turns
    {
      SearchTurn(was, index, turns);
      seg := q.Front();
      q.Cycle();
      if seg.value.segmentIndex == index {
        found := true;
        SearchLeaves(was, index);
        break;
      }
      turns := turns + 1;
    }
  }

  /** One turn of the search: the front is the next item in the original order, and it is the wanted one exactly
      when its first position is reached. */
  lemma {:induction false} SearchTurn(was: seq<SegmentItem>, index: int, turns: nat)
    requires index in Indices(was) && turns <= IndexOf(Indices(was), index)
    ensures turns < |was|
    ensures RotateLeft(was[turns..] + was[..turns]) == was[turns + 1..] + was[..turns + 1]
    ensures was[turns].segmentIndex == index <==> turns == IndexOf(Indices(was), index)
  {
    CutTurn(was, turns);
    if turns < IndexOf(Indices(was), index) {
      assert Indices(was)[turns] in Indices(was)[..IndexOf(Indices(was), index)];
    }
  }

  lemma {:induction false} SearchLeaves(was: seq<SegmentItem>, index: int)
    requires index in Indices(was)
    ensures var k := IndexOf(Indices(was), index) + 1;
            && k <= |was| && RotateTimes(was, k) == was[k..] + was[..k]
            && Indices(was[k..] + was[..k]) == AfterSearch(Indices(was), index)
  {
    var k := IndexOf(Indices(was), index) + 1;
    RotateTimesIsCut(was, k);
    assert Indices(was[k..] + was[..k]) == Indices(was)[k..] + Indices(was)[..k];
  }

  /** In the queue made at start-up the index of every segment, and no other index, is found. */
  lemma {:induction false} EveryIndexPresent(n: nat, proxy: bool, index: int)
    ensures index in Indices(Items(n, proxy)) <==> 0 <= index < n
    ensures Distinct(Indices(Items(n, proxy)))
  {
    if 0 <= index < n {
      assert Indices(Items(n, proxy))[n - 1 - index] == index;
    }
  }

  // ---------------------------------------------------------------- cleaning up

  function QueueNames(items: seq<SegmentItem>): seq<(string, string)>
  {
    seq(|items|, k requires 0 <= k < |items| => (items[k].txName, items[k].rxName))
  }

  /** The names the first loop of shm_clean_segments removes from shared memory. */
  function SharedNames(n: nat): seq<(string, string)>
  {
    seq(n, i requires 0 <= i < n => (CreateId(PROXY_TO_CACHE, i), CreateId(CACHE_TO_PROXY, i)))
  }

  /** These are names of message queues: whatever the number of items, no segment is among them, so the clean-up leaves
      the shared memory of every segment in place. */
  lemma {:induction false} SegmentsRemain(n: nat, k: nat, segment: nat)
    requires k < n
    ensures SharedNames(n)[k].0 != CreateId(SHM_PATH, segment) && SharedNames(n)[k].1 != CreateId(SHM_PATH, segment)
  {
    NamesInjective(PROXY_TO_CACHE, k, SHM_PATH, segment);
    NamesInjective(CACHE_TO_PROXY, k, SHM_PATH, segment);
  }

  /** Of the queue made at start-up, on either side, the message queues the second loop removes are those whose names the
      first loop was given, in the opposite order and with the directions swapped on the cache's side. */
  lemma {:induction false} QueuesOfStartUp(n: nat, proxy: bool, k: nat)
    requires k < n
    ensures var (tx, rx) := SharedNames(n)[n - 1 - k];
            QueueNames(Items(n, proxy))[k] == if proxy then (tx, rx) else (rx, tx)
  {
    assert Items(n, proxy)[k] == Item(n - 1 - k, proxy);
  }

  /** The body of the second loop: the front item's queues, and a turn. */
  method UnlinkFront(q: Steque<SegmentItem>, ghost was: seq<SegmentItem>, ghost i: nat) returns (names: (string, string))
    requires q.Valid() && i < |was| && q.contents == was[i..] + was[..i]
    modifies q, q.repr
    ensures q.Valid() && q.repr == old(q.repr) && q.contents == was[i + 1..] + was[..i + 1]
    ensures QueueNames(was[..i + 1]) == QueueNames(was[..i]) + [names]
  {
    CutTurn(was, i);
    var item := q.Front();
    q.Cycle();
    names := (item.value.txName, item.value.rxName);
  }

  /** The second loop of shm_clean_segments: one turn of the queue for every item. Every item's two queues are unlinked,
      each once and in order, and the queue is as before. */
  method UnlinkQueues(q: Steque<SegmentItem>) returns (unlinked: seq<(string, string)>)
    requires q.Valid()
    modifies q, q.repr
    ensures q.Valid() && q.repr == old(q.repr) && q.contents == old(q.contents)
    ensures unlinked == QueueNames(old(q.contents))
  {
    ghost var was := q.contents;
    unlinked := [];
    var i := 0;
    var size := q.Size();
    assert was[0..] + was[..0] == was && QueueNames(was[..0]) == [];
    while i < size
      invariant q.Valid() && q.repr == old(q.repr) && 0 <= i <= size == |was|
      invariant q.contents == was[i..] + was[..i]
      invariant unlinked == QueueNames(was[..i])
    {
      var names := UnlinkFront(q, was, i);
      unlinked := unlinked + [names];
      i := i + 1;
      size := q.Size();
    }
    assert was[..|was|] == was && was[|was|..] == [];
  }

  lemma {:induction false} CutTurn(was: seq<SegmentItem>, i: nat)
    requires i < |was|
    ensures (was[i..] + was[..i])[0] == was[i]
    ensures RotateLeft(was[i..] + was[..i]) == was[i + 1..] + was[..i + 1]
    ensures QueueNames(was[..i + 1]) == QueueNames(was[..i]) + [(was[i].txName, was[i].rxName)]
  {
    var cut := was[i..] + was[..i];
    assert cut[1..] + [cut[0]] == was[i + 1..] + was[..i + 1];
  }

  /** shm_clean_segments: what is passed to shm_unlink, and then to mq_unlink. */
  method CleanSegments(q: Steque<SegmentItem>)
    returns (shared: seq<(string, string)>, unlinked: seq<(string, string)>)
    requires q.Valid()
    modifies q, q.repr
    ensures q.Valid() && q.repr == old(q.repr) && q.contents == old(q.contents)
    ensures shared == SharedNames(|old(q.contents)|)
    ensures unlinked == QueueNames(old(q.contents))
  {
    shared := [];
    var i := 0;
    var size := q.Size();
    while i < size
      invariant 0 <= i <= size && shared == SharedNames(i)
    {
      shared := shared + [(CreateId(PROXY_TO_CACHE, i), CreateId(CACHE_TO_PROXY, i))];
      i := i + 1;
    }
    unlinked := UnlinkQueues(q);
  }
}
