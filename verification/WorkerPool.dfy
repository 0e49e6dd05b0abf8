/** The pool of project4/minifyjpeg_main.c: workers drain a queue of requests that was loaded before they start, and
    touch it only while they hold the mutex. A request is named by its position in the workload. */
module WorkerPool {
  import opened Wrappers
  import opened Steque

  datatype File = File(inputfilename: string, outputfilename: string)

  /** The requests a workload of words makes. A last word without a partner makes a request too; its output name is
      whatever the memory of the new request holds. */
  function Paired(words: seq<string>, stale: string): (r: seq<File>)
    ensures |r| == (|words| + 1) / 2
    ensures forall k :: 0 <= k < |r| ==>
              r[k] == File(words[2 * k], if 2 * k + 1 < |words| then words[2 * k + 1] else stale)
  {
    seq((|words| + 1) / 2, k requires 0 <= k < (|words| + 1) / 2 =>
      File(words[2 * k], if 2 * k + 1 < |words| then words[2 * k + 1] else stale))
  }

  lemma {:induction false} NextPair(words: seq<string>, stale: string, n: nat)
    requires 2 * n < |words|
    ensures var r, i := Paired(words, stale), 2 * n;
            n < |r| && r[..n] + [File(words[i], if i + 1 < |words| then words[i + 1] else stale)] == r[..n + 1]
  {
  }

  /** load_requests, on the words of the file: fscanf takes two at a time and reports the end of the file only when there
      is none left, so one word is enough for a request. */
  method LoadRequests(words: seq<string>, stale: string) returns (queue: Steque<File>)
    ensures queue.Valid() && queue.contents == Paired(words, stale)
  {
    hide Paired;
    queue := new Steque<File>();
    var i := 0;
    ghost var n := 0;
    while i < |words|
      invariant 0 <= n <= |Paired(words, stale)| && (i == 2 * n <= |words| || i == |words| == 2 * n - 1)
      invariant queue.Valid() && fresh(queue) && fresh(queue.repr)
      invariant queue.contents == Paired(words, stale)[..n]
    {
      NextPair(words, stale, n);
      queue.Enqueue(File(words[i], if i + 1 < |words| then words[i + 1] else stale));
      i := if i + 1 < |words| then i + 2 else i + 1;
      n := n + 1;
    }
  }

  /** Every request has the names of its pair exactly when no word is left over. */
  lemma {:induction false} PairedIff(words: seq<string>, stale: string)
    requires stale !in words
    ensures (forall k :: 0 <= k < |Paired(words, stale)| ==> Paired(words, stale)[k].outputfilename in words)
       <==> |words| % 2 == 0
  {
    var r := Paired(words, stale);
    if |words| % 2 != 0 {
      assert r[|r| - 1].outputfilename == stale;
    }
  }

  // ---------------------------------------------------------------- the workers

  /** Where a worker is: before a lock, at the loop test, behind the pop, at work on its request, behind the loop, or
      gone. In Testing, Took and Leaving it holds the mutex. */
  datatype Pc = WantsLock | Testing | Took(request: nat) | Working(request: nat) | Leaving | Returned

  datatype Done = Done(worker: nat, request: nat)

  datatype State = State(queue: seq<nat>, mutex: Option<nat>, workers: seq<Pc>, processed: seq<Done>)

  datatype Action = Lock(i: nat) | Pop(i: nat) | FindEmpty(i: nat) | Unlock(i: nat) | Process(i: nat) | Leave(i: nat)

  predicate Holding(pc: Pc)
  {
    pc.Testing? || pc.Took? || pc.Leaving?
  }

  predicate Enabled(st: State, a: Action)
  {
    && a.i < |st.workers|
    && var pc := st.workers[a.i];
    match a
    case Lock(_) => pc.WantsLock? && st.mutex == None
    case Pop(_) => pc.Testing? && st.queue != []
    case FindEmpty(_) => pc.Testing? && st.queue == []
    case Unlock(_) => pc.Took?
    case Process(_) => pc.Working?
    case Leave(_) => pc.Leaving?
  }

  function Apply(st: State, a: Action): State
    requires Enabled(st, a)
  {
    var pc := st.workers[a.i];
    match a
    case Lock(i) => st.(mutex := Some(i), workers := st.workers[i := Testing])
    case Pop(i) => st.(queue := st.queue[1..], workers := st.workers[i := Took(st.queue[0])])
    case FindEmpty(i) => st.(workers := st.workers[i := Leaving])
    case Unlock(i) => st.(mutex := None, workers := st.workers[i := Working(pc.request)])
    case Process(i) =>
      st.(workers := st.workers[i := WantsLock], processed := st.processed + [Done(i, pc.request)])
    case Leave(i) => st.(mutex := None, workers := st.workers[i := Returned])
  }

  /** The requests from position a up to n. */
  function From(a: nat, n: nat): (r: seq<nat>)
    requires a <= n
    ensures |r| == n - a && forall k :: 0 <= k < |r| ==> r[k] == a + k
  {
    seq(n - a, k requires 0 <= k < n - a => a + k)
  }

  function Init(n: nat, nthreads: nat): State
  {
    State(From(0, n), None, seq(nthreads, _ => WantsLock), [])
  }

  function Exec(st: State, run: seq<Action>): Option<State>
    decreases |run|
  {
    if run == [] then Some(st)
    else if !Enabled(st, run[0]) then None
    else Exec(Apply(st, run[0]), run[1..])
  }

  ghost predicate Reachable(n: nat, nthreads: nat, st: State)
  {
    exists run: seq<Action> :: Exec(Init(n, nthreads), run) == Some(st)
  }

  predicate AllReturned(st: State)
  {
    forall i :: 0 <= i < |st.workers| ==> st.workers[i].Returned?
  }

  // ---------------------------------------------------------------- the invariant

  /** How many workers have request x in hand. */
  function HandCount(workers: seq<Pc>, x: nat): nat
  {
    if workers == [] then 0 else InHand(workers[0], x) + HandCount(workers[1..], x)
  }

  function InHand(pc: Pc, x: nat): nat
  {
    if (pc.Took? || pc.Working?) && pc.request == x then 1 else 0
  }

  /** How many times request x has been processed, by whichever worker. */
  function DoneCount(processed: seq<Done>, x: nat): nat
  {
    if processed == [] then 0 else (if processed[0].request == x then 1 else 0) + DoneCount(processed[1..], x)
  }

  /** The mutex is held by exactly the worker at a statement between lock and unlock; requests leave the queue in the
      order of the workload; those that left it are in hand or processed, each once; who leaves has seen it empty. */
  ghost predicate Inv(n: nat, nthreads: nat, st: State)
  {
    && |st.workers| == nthreads && (st.mutex.Some? ==> st.mutex.value < nthreads)
    && (forall i :: 0 <= i < nthreads ==> (Holding(st.workers[i]) <==> st.mutex == Some(i)))
    && |st.queue| <= n && st.queue == From(n - |st.queue|, n)
    && (forall x: nat :: HandCount(st.workers, x) + DoneCount(st.processed, x) == if x < n - |st.queue| then 1 else 0)
    && (forall i :: 0 <= i < nthreads && (st.workers[i].Leaving? || st.workers[i].Returned?) ==> st.queue == [])
    && (forall k :: 0 <= k < |st.processed| ==> st.processed[k].worker < nthreads)
  }

  lemma {:induction false} HandCountUpdate(workers: seq<Pc>, i: nat, pc: Pc, x: nat)
    requires i < |workers|
    ensures HandCount(workers[i := pc], x) + InHand(workers[i], x) == HandCount(workers, x) + InHand(pc, x)
  {
    if i == 0 {
      assert workers[i := pc][1..] == workers[1..];
    } else {
      assert workers[i := pc][1..] == workers[1..][i - 1 := pc];
      HandCountUpdate(workers[1..], i - 1, pc, x);
    }
  }

  lemma {:induction false} DoneCountAppend(processed: seq<Done>, d: Done, x: nat)
    ensures DoneCount(processed + [d], x) == DoneCount(processed, x) + (if d.request == x then 1 else 0)
  {
    if processed != [] {
      assert (processed + [d])[1..] == processed[1..] + [d];
      DoneCountAppend(processed[1..], d, x);
    }
  }

  lemma {:induction false} StepKeepsCounts(n: nat, nthreads: nat, st: State, a: Action, x: nat)
    requires Inv(n, nthreads, st) && Enabled(st, a)
    ensures var st' := Apply(st, a);
            HandCount(st'.workers, x) + DoneCount(st'.processed, x) == if x < n - |st'.queue| then 1 else 0
  {
    HandCountUpdate(st.workers, a.i, Apply(st, a).workers[a.i], x);
    if a.Process? {
      DoneCountAppend(st.processed, Done(a.i, st.workers[a.i].request), x);
    }
  }

  lemma {:induction false} StepPreserves(n: nat, nthreads: nat, st: State, a: Action)
    requires Inv(n, nthreads, st) && Enabled(st, a)
    ensures Inv(n, nthreads, Apply(st, a))
  {
    forall x: nat
      ensures HandCount(Apply(st, a).workers, x) + DoneCount(Apply(st, a).processed, x)
           == if x < n - |Apply(st, a).queue| then 1 else 0 {
      StepKeepsCounts(n, nthreads, st, a, x);
    }
  }

  lemma {:induction false} NothingInHand(workers: seq<Pc>, x: nat)
    requires forall i :: 0 <= i < |workers| ==> !workers[i].Took? && !workers[i].Working?
    ensures HandCount(workers, x) == 0
  {
    if workers != [] {
      NothingInHand(workers[1..], x);
    }
  }

  lemma {:induction false} InitEstablishes(n: nat, nthreads: nat)
    ensures Inv(n, nthreads, Init(n, nthreads))
  {
    forall x: nat ensures HandCount(Init(n, nthreads).workers, x) == 0 {
      NothingInHand(Init(n, nthreads).workers, x);
    }
  }

  lemma {:induction false} RunPreserves(n: nat, nthreads: nat, st: State, run: seq<Action>)
    requires Inv(n, nthreads, st) && Exec(st, run).Some?
    ensures Inv(n, nthreads, Exec(st, run).value)
    decreases |run|
  {
    if run != [] {
      StepPreserves(n, nthreads, st, run[0]);
      RunPreserves(n, nthreads, Apply(st, run[0]), run[1..]);
    }
  }

  lemma {:induction false} ReachableInv(n: nat, nthreads: nat, st: State)
    requires Reachable(n, nthreads, st)
    ensures Inv(n, nthreads, st)
  {
    var run: seq<Action> :| Exec(Init(n, nthreads), run) == Some(st);
    InitEstablishes(n, nthreads);
    RunPreserves(n, nthreads, Init(n, nthreads), run);
  }

  // ---------------------------------------------------------------- what follows

  /** Mutual exclusion: whoever is about to test or pop the queue holds the mutex, and nobody else is. */
  lemma {:induction false} QueueAccessIsExclusive(n: nat, nthreads: nat, st: State, a: Action, j: nat)
    requires Reachable(n, nthreads, st) && Enabled(st, a) && (a.Pop? || a.FindEmpty?)
    ensures st.mutex == Some(a.i)
    ensures j < |st.workers| && Holding(st.workers[j]) ==> j == a.i
  {
    ReachableInv(n, nthreads, st);
  }

  /** In every reachable state no request has been processed twice, and none that is still queued or in hand. */
  lemma {:induction false} NeverTwice(n: nat, nthreads: nat, st: State, x: nat)
    requires Reachable(n, nthreads, st)
    ensures DoneCount(st.processed, x) <= 1
    ensures DoneCount(st.processed, x) == 1 ==> x < n && x !in st.queue && HandCount(st.workers, x) == 0
  {
    ReachableInv(n, nthreads, st);
    assert HandCount(st.workers, x) + DoneCount(st.processed, x) == if x < n - |st.queue| then 1 else 0;
  }

  /** Requests are taken in the order in which they were loaded. */
  lemma {:induction false} TakenInOrder(n: nat, nthreads: nat, st: State, i: nat)
    requires Reachable(n, nthreads, st) && Enabled(st, Pop(i))
    ensures |st.queue| <= n && Apply(st, Pop(i)).workers[i] == Took(n - |st.queue|)
    ensures |Apply(st, Pop(i)).queue| == |st.queue| - 1
  {
    ReachableInv(n, nthreads, st);
  }

  /** Exactly once: when all workers (at least one) have returned, the queue is empty and every loaded request, and no
      other, has been processed once, by one worker. */
  lemma {:induction false} ExactlyOnce(n: nat, nthreads: nat, st: State)
    requires Reachable(n, nthreads, st) && AllReturned(st) && 1 <= nthreads
    ensures st.queue == [] && st.mutex == None
    ensures forall x: nat :: DoneCount(st.processed, x) == if x < n then 1 else 0
    ensures forall k :: 0 <= k < |st.processed| ==> st.processed[k].worker < nthreads
  {
    ReachableInv(n, nthreads, st);
    assert st.workers[0].Returned?;
    forall x: nat ensures DoneCount(st.processed, x) == if x < n then 1 else 0 {
      NothingInHand(st.workers, x);
      assert HandCount(st.workers, x) + DoneCount(st.processed, x) == if x < n - |st.queue| then 1 else 0;
    }
  }

  // ---------------------------------------------------------------- progress

  function Weight(pc: Pc): nat
  {
    match pc
    case WantsLock => 3
    case Testing => 2
    case Took(_) => 5
    case Working(_) => 4
    case Leaving => 1
    case Returned => 0
  }

  function Weights(workers: seq<Pc>): nat
  {
    if workers == [] then 0 else Weight(workers[0]) + Weights(workers[1..])
  }

  function Measure(st: State): nat
  {
    4 * |st.queue| + Weights(st.workers)
  }

  lemma {:induction false} WeightsUpdate(workers: seq<Pc>, i: nat, pc: Pc)
    requires i < |workers|
    ensures Weights(workers[i := pc]) + Weight(workers[i]) == Weights(workers) + Weight(pc)
  {
    if i == 0 {
      assert workers[i := pc][1..] == workers[1..];
    } else {
      assert workers[i := pc][1..] == workers[1..][i - 1 := pc];
      WeightsUpdate(workers[1..], i - 1, pc);
    }
  }

  lemma {:induction false} WeightsAtStart(nthreads: nat)
    ensures Weights(seq(nthreads, _ => WantsLock)) == 3 * nthreads
  {
    if nthreads > 0 {
      assert seq(nthreads, _ => WantsLock)[1..] == seq(nthreads - 1, _ => WantsLock);
      WeightsAtStart(nthreads - 1);
    }
  }

  lemma {:induction false} WeightsZero(workers: seq<Pc>)
    ensures Weights(workers) == 0 <==> forall i :: 0 <= i < |workers| ==> workers[i].Returned?
  {
    if workers != [] {
      WeightsZero(workers[1..]);
      assert forall i :: 1 <= i < |workers| ==> workers[i] == workers[1..][i - 1];
      if forall i :: 0 <= i < |workers| ==> workers[i].Returned? {
        assert workers[0].Returned?;
      }
      if Weights(workers) == 0 {
        forall i | 0 <= i < |workers| ensures workers[i].Returned? {
          if i > 0 { assert workers[1..][i - 1].Returned?; }
        }
      }
    }
  }

  lemma {:induction false} RunUsesMeasure(st: State, run: seq<Action>)
    requires Exec(st, run).Some?
    ensures |run| + Measure(Exec(st, run).value) == Measure(st)
    decreases |run|
  {
    if run != [] {
      WeightsUpdate(st.workers, run[0].i, Apply(st, run[0]).workers[run[0].i]);
      RunUsesMeasure(Apply(st, run[0]), run[1..]);
    }
  }

  /** Every run is bounded, and the runs in which all workers have returned and the queue is empty are exactly those of
      full length: four steps a request and three a worker. */
  lemma {:induction false} RunLength(n: nat, nthreads: nat, run: seq<Action>)
    requires Exec(Init(n, nthreads), run).Some?
    ensures |run| <= 4 * n + 3 * nthreads
    ensures var st := Exec(Init(n, nthreads), run).value;
            |run| == 4 * n + 3 * nthreads <==> st.queue == [] && AllReturned(st)
  {
    var first := Init(n, nthreads);
    WeightsAtStart(nthreads);
    RunUsesMeasure(first, run);
    WeightsZero(Exec(first, run).value.workers);
  }

  ghost predicate Progress(st: State)
  {
    exists a: Action :: Enabled(st, a)
  }

  /** The pool never gets stuck before every worker has returned. */
  lemma {:induction false} NeverStuck(n: nat, nthreads: nat, st: State)
    requires Reachable(n, nthreads, st)
    ensures Progress(st) <==> !AllReturned(st)
  {
    ReachableInv(n, nthreads, st);
    if !AllReturned(st) {
      var i: nat :| i < |st.workers| && !st.workers[i].Returned?;
      match st.mutex {
        case Some(j) => MutexHolderMoves(n, nthreads, st, i);
        case None =>
          match st.workers[i]
          case WantsLock => assert Enabled(st, Lock(i));
          case Working(_) => assert Enabled(st, Process(i));
      }
    }
  }

  lemma {:induction false} MutexHolderMoves(n: nat, nthreads: nat, st: State, i: nat)
    requires Inv(n, nthreads, st) && st.mutex.Some? && i < nthreads && !st.workers[i].Returned?
    ensures Progress(st)
  {
    var j := st.mutex.value;
    assert Holding(st.workers[j]);
    match st.workers[j]
    case Testing => if st.queue == [] { assert Enabled(st, FindEmpty(j)); } else { assert Enabled(st, Pop(j)); }
    case Took(_) => assert Enabled(st, Unlock(j));
    case Leaving => assert Enabled(st, Leave(j));
  }
}
