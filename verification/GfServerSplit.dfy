/** Exactly which cuts of a request into reads the server survives. While the scheme is not parsed a read lands at the
    beginning of the buffer, then behind the scheme, and from then on behind the method, over what came before. */
module ServerSplit {
  import opened Wrappers
  import opened GetFile
  import opened ServerModel
  import opened ServerReads

  /** The request of the client for a path. */
  function Request(path: string): string
  {
    RequestText(SCHEME, METHOD, path)
  }

  predicate Letter(ch: char)
  {
    ch !in [' ', NUL, '\r', '\n']
  }

  /** A path without spaces, terminators and line ends, short enough for its request to fit the buffer. */
  ghost predicate Clean(path: string)
  {
    0 < |path| <= 265 && forall k :: 0 <= k < |path| ==> Letter(path[k])
  }

  /** What is used of a request: where its words are, and that nothing but the end sequence follows the path. */
  ghost predicate Laid(r: string, path: string)
  {
    && Clean(path) && |r| == |path| + 17
    && HasAt(r, 0, SCHEME + " " + METHOD + " ") && HasAt(r, 12, path)
    && r[12 + |path|] == ' '
    && forall x :: 13 + |path| <= x < |r| ==> r[x] in ['\r', '\n']
  }

  lemma {:induction false} RequestLaid(path: string)
    requires Clean(path)
    ensures Laid(Request(path), path)
  {
    var r, head := Request(path), SCHEME + " " + METHOD + " ";
    assert |head| == 12 && r == head + path + " " + END_SEQUENCE;
    assert r[0..12] == head && r[12..12 + |path|] == path;
    assert forall x :: 13 + |path| <= x < |r| ==> r[x] == END_SEQUENCE[x - 13 - |path|];
  }

  // ---------------------------------------------------------------- cuts

  /** The positions in a stream of n bytes that the reads reach, from position q on. */
  function Cuts(q: nat, n: nat, plan: seq<nat>): seq<nat>
    requires q <= n
    decreases |plan|
  {
    var k := ReadLength(plan, BUFSIZE, n - q);
    if k <= 0 then [] else [q + k] + Cuts(q + k, n, plan[1..])
  }

  /** Behind the read that brought the path, up to position first, with m the length of the path: the bytes still to come
      do no harm exactly if none of the end sequence has come with the path, no later read is long enough to reach
      behind it, and not more is received than a request may have. */
  predicate GoodAfter(cuts: seq<nat>, q: nat, first: nat, m: nat)
  {
    cuts == [] ||
    (first <= 13 + m && cuts[0] - q <= first - 12 && cuts[0] <= 266 && GoodAfter(cuts[1..], cuts[0], first, m))
  }

  /** One read has to bring the whole path. */
  predicate GoodPath(cuts: seq<nat>, m: nat)
  {
    cuts != [] && 12 + m <= cuts[0] && GoodAfter(cuts[1..], cuts[0], cuts[0], m)
  }

  /** Before it a read may end right behind the method and its space. */
  predicate GoodMethod(cuts: seq<nat>, m: nat)
  {
    GoodPath(if cuts != [] && cuts[0] == 12 then cuts[1..] else cuts, m)
  }

  /** And before that one right behind the scheme and its space. */
  predicate GoodCuts(cuts: seq<nat>, m: nat)
  {
    GoodMethod(if cuts != [] && cuts[0] == 8 then cuts[1..] else cuts, m)
  }

  /** The handler is called with the path requested. */
  ghost predicate Correct(run: Run, path: string)
  {
    run.result == -1 && run.c.path == Some(path)
  }

  // ---------------------------------------------------------------- turns of the loop

  /** The counters agree with the position in the stream, and the last cell of the buffer is free. */
  ghost predicate Counted(c: Server, q: nat)
  {
    && c.inside && c.rx == c.total == q && c.headerPt <= 12 && c.headerPt <= q
    && c.token < BUFSIZE && c.buffer[BUFSIZE - 1] == NUL
  }

  function GoOn(s: Step, rest: seq<char>, plan: seq<nat>): Run
  {
    if s.r == -1 || !s.c.inside then Run(-2, s.c, rest) else Process(s.c, rest, plan)
  }

  lemma {:induction false} CutsStep(q: nat, n: nat, plan: seq<nat>)
    requires q <= n
    ensures var k := ReadLength(plan, BUFSIZE, n - q);
            Cuts(q, n, plan) == if k <= 0 then [] else [q + k] + Cuts(q + k, n, plan[1..])
  {
  }

  /** A read is cut short by the plan and by the end of the stream, never by the room in the buffer. */
  lemma {:induction false} Turn(c: Server, r: seq<char>, q: nat, plan: seq<nat>) returns (s: Step)
    requires Counted(c, q) && q <= |r| < BUFSIZE
    ensures var k := ReadLength(plan, BUFSIZE, |r| - q);
            if k <= 0 then
              var run := Process(c, r[q..], plan);
              run.c.inside && run.result == -1 && run.c.path == c.path
            else
              && plan != [] && c.headerPt + k < BUFSIZE && s == Dispatch(Received(c, r[q..q + k]))
              && Process(c, r[q..], plan) == GoOn(s, r[q + k..], plan[1..])
              && Cuts(q, |r|, plan) == [q + k] + Cuts(q + k, |r|, plan[1..])
  {
    hide Dispatch, Cuts;
    CutsStep(q, |r|, plan);
    var k := ReadLength(plan, BUFSIZE, |r| - q);
    assert ReadLength(plan, BUFSIZE - c.headerPt, |r| - q) == k;
    s := Step(c, 0);
    if 0 < k {
      assert r[q..][..k] == r[q..q + k] && r[q..][k..] == r[q + k..];
      s := Dispatch(Received(c, r[q..q + k]));
    }
  }

  /** The buffer after a read of bytes at a position. */
  lemma {:induction false} ReceivedCells(c: Server, q: nat, chunk: seq<char>)
    requires Counted(c, q) && c.headerPt + |chunk| < BUFSIZE && q + |chunk| < BUFSIZE
    ensures var d, h := Received(c, chunk), c.headerPt;
            && d == c.(buffer := d.buffer, rx := q + |chunk|, total := q + |chunk|)
            && Counted(d, q + |chunk|)
            && (forall x :: h <= x < h + |chunk| ==> d.buffer[x] == chunk[x - h])
            && (forall x :: 0 <= x < h || h + |chunk| <= x < BUFSIZE ==> d.buffer[x] == c.buffer[x])
  {
  }

  /** The path stage on a buffer whose last cell is free. */
  lemma {:induction false} PathOutcome(d: Server, q: nat) returns (k: Scan)
    requires Counted(d, q) && d.stage == AtPath
    ensures StrtokAt(d.buffer, d.token, ' ') == Some(k) && d.token <= k.next < BUFSIZE && k.start < BUFSIZE
    ensures k.found ==> d.token <= k.start < k.end < BUFSIZE && k.after == d.buffer[k.end := NUL]
                        && k.next >= k.end && (forall x :: k.start <= x < k.end ==> d.buffer[x] !in [' ', NUL])
    ensures var s := Dispatch(d);
            if k.found then
              && s.r == 0 && Counted(s.c, q) && s.c.stage == AtPath && s.c.headerPt == d.headerPt
              && s.c.buffer == k.after && s.c.token == k.next && s.c.path == Some(d.buffer[k.start..k.end])
            else if q > 266 then s.r == -1 && s.c.inside
            else s == Step(d.(token := k.next), 0) && Counted(s.c, q)
  {
    assert TokenStart(d.buffer, d.token, ' ') < BUFSIZE;
    k := StrtokAt(d.buffer, d.token, ' ').value;
    if k.found {
      assert k.after[k.start..k.end] == d.buffer[k.start..k.end];
    } else {
      NoPathAtReturn(d, k);
    }
  }

  // ---------------------------------------------------------------- when the path is lost

  /** No later token can be the path: from cell low on strtok goes on, and from there the buffer has fewer letters in a
      row than the path. */
  ghost predicate Spoiled(c: Server, q: nat, path: string, low: nat)
  {
    && Counted(c, q) && c.stage == AtPath && c.headerPt == 12 && c.path != Some(path)
    && low in {12, 13} && low <= c.token && 25 <= q + low
    && forall x :: low + |path| - 1 <= x < BUFSIZE ==> !Letter(c.buffer[x])
  }

  lemma {:induction false} NotThePath(b: Buffer, path: string, start: nat, end: nat, low: nat)
    requires Clean(path) && low <= start < end < BUFSIZE
    requires forall x :: low + |path| - 1 <= x < BUFSIZE ==> !Letter(b[x])
    ensures b[start..end] != path
  {
    assert Letter(path[|path| - 1]);
    if end - start == |path| { assert b[start..end][|path| - 1] == b[start + |path| - 1]; }
  }

  /** What a read puts behind the first cells that could hold the path again is from the end of the request. */
  lemma {:induction false} NoLettersBehind(c: Server, r: string, q: nat, path: string, low: nat, n: nat)
    requires Laid(r, path) && Counted(c, q) && c.headerPt == 12 && 0 < n && q + n <= |r| && 12 + n < BUFSIZE
    requires low in {12, 13} && 25 <= q + low
    requires forall x :: low + |path| - 1 <= x < BUFSIZE ==> !Letter(c.buffer[x])
    ensures var d := Received(c, r[q..q + n]);
            forall x :: low + |path| - 1 <= x < BUFSIZE ==> !Letter(d.buffer[x])
  {
    var chunk := r[q..q + n];
    ReceivedCells(c, q, chunk);
    assert forall i :: 0 <= i < n ==> chunk[i] == r[q + i];
  }

  lemma {:induction false} SpoiledTurn(c: Server, r: string, q: nat, path: string, low: nat, n: nat)
    requires Laid(r, path) && Spoiled(c, q, path, low) && 0 < n && q + n <= |r| && 12 + n < BUFSIZE
    ensures var s := Dispatch(Received(c, r[q..q + n]));
            s.c.inside && (s.r == -1 || Spoiled(s.c, q + n, path, low))
  {
    hide Dispatch, Letter;
    NoLettersBehind(c, r, q, path, low, n);
    ReceivedCells(c, q, r[q..q + n]);
    Spoils(Received(c, r[q..q + n]), q + n, path, low);
  }

  /** The path stage where no token can be the path. */
  lemma {:induction false} Spoils(d: Server, q: nat, path: string, low: nat)
    requires Clean(path) && Counted(d, q) && d.stage == AtPath && d.headerPt == 12
    requires low in {12, 13} && low <= d.token && 25 <= q + low
    requires forall x :: low + |path| - 1 <= x < BUFSIZE ==> !Letter(d.buffer[x])
    ensures var s := Dispatch(d);
            s.c.inside && (s.r == -1 || s.c.path == d.path || Spoiled(s.c, q, path, low))
    ensures d.path != Some(path) ==> var s := Dispatch(d); s.r == -1 || Spoiled(s.c, q, path, low)
    ensures var k := StrtokAt(d.buffer, d.token, ' ');
            k.Some? && (k.value.found ==> var s := Dispatch(d); Spoiled(s.c, q, path, low))
  {
    hide Dispatch, StrtokAt;
    var k := PathOutcome(d, q);
    if k.found { NotThePath(d.buffer, path, k.start, k.end, low); }
  }

  lemma {:induction false} SpoiledRun(c: Server, r: string, q: nat, path: string, low: nat, plan: seq<nat>)
    requires Laid(r, path) && q <= |r| && Spoiled(c, q, path, low)
    ensures var run := Process(c, r[q..], plan); run.c.inside && !Correct(run, path)
    decreases |plan|
  {
    hide Process, Dispatch, Received, Laid, Counted;
    assert Laid(r, path) && Counted(c, q) && |r| < BUFSIZE by { LaidShort(r, path); }
    var k := ReadLength(plan, BUFSIZE, |r| - q);
    var s := Turn(c, r, q, plan);
    if 0 < k {
      SpoiledTurn(c, r, q, path, low, k);
      if s.r != -1 { SpoiledRun(s.c, r, q + k, path, low, plan[1..]); }
    }
  }

  lemma {:induction false} LaidShort(r: string, path: string)
    requires Laid(r, path)
    ensures |r| == |path| + 17 < BUFSIZE
  {
  }

  // ---------------------------------------------------------------- when the path is found

  /** The path has been found in the read that reached position first. */
  ghost predicate Held(c: Server, q: nat, path: string, first: nat)
  {
    && Counted(c, q) && c.stage == AtPath && c.headerPt == 12 && c.path == Some(path)
    && 12 + |path| <= first <= q
    && (forall x :: 12 + |path| <= x < BUFSIZE ==> !Letter(c.buffer[x]))
    && if first <= 13 + |path| then
         c.token == first && forall x :: first <= x < BUFSIZE ==> c.buffer[x] == NUL
       else
         q == first && c.token == 13 + |path| && c.buffer[c.token] in ['\r', '\n']
  }

  /** A later read that does no harm. */
  lemma {:induction false} HeldTurn(c: Server, r: string, q: nat, path: string, first: nat, n: nat)
    requires Laid(r, path) && Held(c, q, path, first) && 0 < n && q + n <= |r| && 12 + n < BUFSIZE
    requires first <= 13 + |path| && n <= first - 12
    ensures var s := Dispatch(Received(c, r[q..q + n]));
            && s.c.inside && (s.r == -1 <==> q + n > 266)
            && (s.r != -1 ==> Held(s.c, q + n, path, first))
  {
    hide Dispatch, StrtokAt, Letter;
    var d := Received(c, r[q..q + n]);
    ReceivedCells(c, q, r[q..q + n]);
    NoLettersBehind(c, r, q, path, 13, n);
    var k := PathOutcome(d, q + n);
    assert d.buffer[first] == NUL;
    NothingAt(d.buffer, first);
  }

  lemma {:induction false} NothingAt(b: Buffer, at: nat)
    requires at < BUFSIZE && b[at] == NUL
    ensures StrtokAt(b, at, ' ') == Some(Scan(false, at, at, at, b))
  {
  }

  lemma {:induction false} SomethingAt(b: Buffer, at: nat)
    requires at < BUFSIZE && b[at] != NUL && b[at] != ' ' && b[BUFSIZE - 1] == NUL
    ensures var k := StrtokAt(b, at, ' '); k.Some? && k.value.found
  {
    assert TokenStart(b, at, ' ') == at;
  }

  /** Any other read loses the path: a part of the end sequence is taken for it. */
  lemma {:induction false} HeldLost(c: Server, r: string, q: nat, path: string, first: nat, n: nat)
    requires Laid(r, path) && Held(c, q, path, first) && 0 < n && q + n <= |r| && 12 + n < BUFSIZE
    requires first > 13 + |path| || n > first - 12
    ensures var s := Dispatch(Received(c, r[q..q + n]));
            s.c.inside && s.r != -1 && Spoiled(s.c, q + n, path, 13)
  {
    hide Dispatch, StrtokAt, Letter;
    var d, chunk := Received(c, r[q..q + n]), r[q..q + n];
    ReceivedCells(c, q, chunk);
    NoLettersBehind(c, r, q, path, 13, n);
    if c.token < 12 + n {
      assert d.buffer[c.token] == chunk[c.token - 12] == r[q + c.token - 12];
    }
    assert d.buffer[c.token] in ['\r', '\n'];
    SomethingAt(d.buffer, c.token);
    Spoils(d, q + n, path, 13);
    var k := PathOutcome(d, q + n);
  }

  lemma {:induction false} HeldRun(c: Server, r: string, q: nat, path: string, first: nat, plan: seq<nat>)
    requires Laid(r, path) && q <= |r| && Held(c, q, path, first)
    ensures var run := Process(c, r[q..], plan);
            run.c.inside && (Correct(run, path) <==> GoodAfter(Cuts(q, |r|, plan), q, first, |path|))
    decreases |plan|
  {
    hide Process, Dispatch, Received, Laid, Counted, Spoiled;
    LaidShort(r, path);
    var k := ReadLength(plan, BUFSIZE, |r| - q);
    var s := Turn(c, r, q, plan);
    if 0 < k {
      var later := Cuts(q + k, |r|, plan[1..]);
      assert ([q + k] + later)[1..] == later;
      if first <= 13 + |path| && k <= first - 12 {
        HeldTurn(c, r, q, path, first, k);
        if s.r != -1 { HeldRun(s.c, r, q + k, path, first, plan[1..]); }
      } else {
        HeldLost(c, r, q, path, first, k);
        SpoiledRun(s.c, r, q + k, path, 13, plan[1..]);
      }
    }
  }

  // ---------------------------------------------------------------- the first bytes of the path

  /** The first two words are parsed, and the buffer holds what was received of the rest at its place. */
  ghost predicate Aligned(c: Server, r: string, q: nat)
  {
    && Counted(c, q) && c.stage == AtPath && c.headerPt == c.token == 12 && c.path == None
    && 12 <= q <= |r| && q <= BUFSIZE
    && (forall x :: 12 <= x < q ==> c.buffer[x] == r[x])
    && forall x :: q <= x < BUFSIZE ==> c.buffer[x] == NUL
  }

  /** The token that comes first: the part of the path that was received. */
  lemma {:induction false} PathTokenAt(c: Server, r: string, q: nat, path: string)
    requires Laid(r, path) && Aligned(c, r, q) && 12 < q
    ensures var end := if q <= 12 + |path| then q else 12 + |path|;
            && StrtokAt(c.buffer, 12, ' ') ==
                 Some(Scan(true, 12, end, if end == q then end else end + 1, c.buffer[end := NUL]))
            && c.buffer[12..end] == path[..end - 12]
  {
    var end := if q <= 12 + |path| then q else 12 + |path|;
    AtEveryPosition(r, 12, path);
    assert forall x :: 12 <= x < end ==> c.buffer[x] == r[x] == path[x - 12] && Letter(path[x - 12]);
    TokenIs(c.buffer, 12, 12, end, ' ');
  }

  /** The path stage after the first read that brings anything of the path: it is found whole, or lost for ever. */
  lemma {:induction false} AlignedTurn(c: Server, r: string, q: nat, path: string)
    requires Laid(r, path) && Aligned(c, r, q) && 12 < q
    ensures var s := Dispatch(c);
            && s.c.inside && s.r == 0
            && if 12 + |path| <= q then Held(s.c, q, path, q) else Spoiled(s.c, q, path, 13)
  {
    hide Dispatch, StrtokAt;
    LaidShort(r, path);
    PathTokenAt(c, r, q, path);
    var k := PathOutcome(c, q);
    assert q < 12 + |path| ==> path[..q - 12] != path;
    assert path[..|path|] == path;
    assert forall x :: 12 + |path| <= x < q ==> c.buffer[x] == r[x] && !Letter(r[x]);
  }

  /** Nothing of it yet: the stage waits. */
  lemma {:induction false} AlignedWaits(c: Server, r: string)
    requires Aligned(c, r, 12) && 12 <= |r|
    ensures Dispatch(c) == Step(c, 0)
  {
    hide Dispatch, StrtokAt;
    NothingAt(c.buffer, 12);
    var k := PathOutcome(c, 12);
  }

  /** A run from there. */
  lemma {:induction false} AlignedRun(c: Server, r: string, q: nat, path: string, plan: seq<nat>)
    requires Laid(r, path) && Aligned(c, r, q) && 12 < q && q <= |r|
    ensures var s := Dispatch(c);
            var run := GoOn(s, r[q..], plan);
            && run.c.inside
            && (Correct(run, path) <==>
                  12 + |path| <= q && GoodAfter(Cuts(q, |r|, plan), q, q, |path|))
  {
    hide Dispatch, Process, Laid, Aligned, Held, Spoiled;
    AlignedTurn(c, r, q, path);
    var s := Dispatch(c);
    if 12 + |path| <= q { HeldRun(s.c, r, q, path, q, plan); } else { SpoiledRun(s.c, r, q, path, 13, plan); }
  }

  /** From right behind the method. */
  lemma {:induction false} MethodRun(c: Server, r: string, path: string, plan: seq<nat>)
    requires Laid(r, path) && Aligned(c, r, 12)
    ensures var run := Process(c, r[12..], plan);
            run.c.inside && (Correct(run, path) <==> GoodPath(Cuts(12, |r|, plan), |path|))
  {
    hide Dispatch, Process;
    LaidShort(r, path);
    var k := ReadLength(plan, BUFSIZE, |r| - 12);
    var s := Turn(c, r, 12, plan);
    if 0 < k {
      AlignedRead(c, r, path, k);
      AlignedRun(Received(c, r[12..12 + k]), r, 12 + k, path, plan[1..]);
      var later := Cuts(12 + k, |r|, plan[1..]);
      assert ([12 + k] + later)[1..] == later;
    }
  }

  lemma {:induction false} AlignedRead(c: Server, r: string, path: string, n: nat)
    requires Laid(r, path) && Aligned(c, r, 12) && 0 < n && 12 + n <= |r|
    ensures 12 + n < BUFSIZE && Aligned(Received(c, r[12..12 + n]), r, 12 + n)
  {
    LaidShort(r, path);
    ReceivedCells(c, 12, r[12..12 + n]);
  }

  // ---------------------------------------------------------------- the method

  /** The scheme is parsed, and the buffer holds what was received of the rest at its place. */
  ghost predicate AtItsPlace(c: Server, r: string, q: nat)
  {
    && Counted(c, q) && c.stage == AtMethod && c.headerPt == c.token == 8 && c.path == None
    && 8 <= q <= |r| && q <= BUFSIZE
    && (forall x :: 8 <= x < q ==> c.buffer[x] == r[x])
    && forall x :: q <= x < BUFSIZE ==> c.buffer[x] == NUL
  }

  lemma {:induction false} MethodAligned(d: Server, r: string, q: nat, path: string)
    requires Laid(r, path) && AtItsPlace(d, r, q) && 12 <= q
    ensures var e := d.(buffer := d.buffer[11 := NUL], token := 12, headerPt := 12, stage := AtPath);
            ParseMethod(d) == Step(e, 0) && Aligned(e, r, q)
  {
    var more := r[12..q];
    AtEveryPosition(r, 0, SCHEME + " " + METHOD + " ");
    assert d.buffer[8..q] == METHOD + " " + more == Blanks(0) + METHOD + " " + more;
    assert HasAt(d.buffer, 8, Blanks(0) + METHOD + " " + more);
    assert U32(d.rx - 8) == d.rx - 8;
    MethodStage(d, 0, METHOD, more);
  }

  lemma {:induction false} MethodThenPath(d: Server)
    requires d.stage == AtMethod && ParseMethod(d).c.stage == AtPath
    ensures Dispatch(d) == Dispatch(ParseMethod(d).c)
  {
  }

  lemma {:induction false} MethodRefused(d: Server)
    requires d.stage == AtMethod && ParseMethod(d).c.stage == AtMethod
    ensures Dispatch(d) == ParseMethod(d)
  {
  }

  /** A read that brings the method to its place, and perhaps more. */
  lemma {:induction false} AtItsPlaceRun(d: Server, r: string, q: nat, path: string, plan: seq<nat>)
    requires Laid(r, path) && AtItsPlace(d, r, q) && 12 <= q
    ensures var run := GoOn(Dispatch(d), r[q..], plan);
            run.c.inside && (Correct(run, path) <==> GoodMethod([q] + Cuts(q, |r|, plan), |path|))
  {
    hide Dispatch, Process, Laid, Aligned, ParseMethod;
    MethodAligned(d, r, q, path);
    var e := ParseMethod(d).c;
    MethodThenPath(d);
    var later := Cuts(q, |r|, plan);
    assert ([q] + later)[1..] == later;
    if q == 12 {
      AlignedWaits(e, r);
      MethodRun(e, r, path, plan);
      assert e.inside by { AlignedInside(e, r, q); }
    } else {
      AlignedRun(e, r, q, path, plan);
    }
  }

  lemma {:induction false} AlignedInside(e: Server, r: string, q: nat)
    requires Aligned(e, r, q)
    ensures e.inside
  {
  }

  /** The method is not there yet: fewer than four bytes were received behind the scheme. */
  ghost predicate Pending(c: Server, q: nat)
  {
    && Counted(c, q) && c.stage == AtMethod && c.headerPt == c.token == 8 && c.path == None && 8 <= q <= 11
    && (forall x :: 11 <= x < BUFSIZE ==> c.buffer[x] == NUL)
    && (q == 8 ==> forall x :: 8 <= x < BUFSIZE ==> c.buffer[x] == NUL)
  }

  lemma {:induction false} PendingStays(c: Server, r: string, q: nat, n: nat)
    requires Pending(c, q) && 0 < n && q + n <= 11 && q + n <= |r|
    ensures var d := Received(c, r[q..q + n]); Dispatch(d) == Step(d, 0) && Pending(d, q + n)
  {
    hide StrtokAt, ParsePath;
    ReceivedCells(c, q, r[q..q + n]);
    var d := Received(c, r[q..q + n]);
    assert U32(d.rx - 8) == d.rx - 8;
  }

  lemma {:induction false} PendingPlaced(c: Server, r: string, n: nat)
    requires Pending(c, 8) && 0 < n && 8 + n <= |r| < BUFSIZE
    ensures AtItsPlace(Received(c, r[8..8 + n]), r, 8 + n)
  {
    ReceivedCells(c, 8, r[8..8 + n]);
  }

  /** The method lands at the wrong place: it is refused, unless the path begins like a method, and then the path is
      lost. */
  lemma {:induction false} PendingMisses(c: Server, r: string, q: nat, path: string, n: nat)
    requires Laid(r, path) && Pending(c, q) && 9 <= q && 12 <= q + n <= |r|
    ensures |r| < BUFSIZE && 8 + n <= BUFSIZE
    ensures var s := Dispatch(Received(c, r[q..q + n]));
            s.c.inside && (s.r == -1 || Spoiled(s.c, q + n, path, 12))
  {
    hide Dispatch, ParseMethod;
    LaidShort(r, path);
    var d := Received(c, r[q..q + n]);
    ReceivedCells(c, q, r[q..q + n]);
    MisplacedMethod(c, r, q, path, n);
    var s := ParseMethod(d);
    if s.r == -1 {
      MethodRefused(d);
    } else {
      MethodThenPath(d);
      Spoils(s.c, q + n, path, 12);
    }
  }

  lemma {:induction false} SomeScan(b: Buffer, from: nat)
    requires from < BUFSIZE && b[BUFSIZE - 1] == NUL
    ensures StrtokAt(b, from, ' ').Some?
  {
    assert TokenStart(b, from, ' ') < BUFSIZE;
  }

  lemma {:induction false} MethodToken(b: Buffer, k: Scan)
    requires StrtokAt(b, 8, ' ') == Some(k) && k.found && k.after[k.start..k.end] == METHOD
    ensures k.end == k.start + 3 && b[8] in [' ', 'G']
  {
    assert k.end - k.start == |k.after[k.start..k.end]| == 3;
    assert b[k.start] == k.after[k.start..k.end][0] == 'G';
  }

  /** What strtok finds in the place of the method: GET at the wrong place is from the path. */
  lemma {:induction false} MisplacedToken(b: Buffer, was: Buffer, r: string, q: nat, path: string, n: nat)
    returns (k: Scan)
    requires Laid(r, path) && 9 <= q <= 11 && 12 <= q + n <= |r| < BUFSIZE && b[BUFSIZE - 1] == NUL
    requires forall x :: 8 <= x < 8 + n ==> b[x] == r[q..q + n][x - 8]
    requires forall x :: 8 + n <= x < BUFSIZE ==> b[x] == was[x]
    requires forall x :: 11 <= x < BUFSIZE ==> was[x] == NUL
    ensures StrtokAt(b, 8, ' ') == Some(k)
    ensures k.found && k.after[k.start..k.end] == METHOD ==>
              && k.end == k.start + 3 && 12 <= k.next < BUFSIZE && q == 11 && 4 <= n && k.after == b[k.end := NUL]
              && forall x :: 12 + |path| - 1 <= x < BUFSIZE ==> !Letter(k.after[x])
  {
    hide Letter, StrtokAt;
    AtEveryPosition(r, 0, SCHEME + " " + METHOD + " ");
    assert b[8] == r[q..q + n][0] == r[q];
    SomeScan(b, 8);
    k := StrtokAt(b, 8, ' ').value;
    if k.found && k.after[k.start..k.end] == METHOD {
      MethodToken(b, k);
      assert q == 11;
      MethodFromPath(b, was, r, path, n, k);
    }
  }

  lemma {:induction false} MethodFromPath(b: Buffer, was: Buffer, r: string, path: string, n: nat, k: Scan)
    requires Laid(r, path) && 0 < n && 11 + n <= |r| < BUFSIZE
    requires forall x :: 8 <= x < 8 + n ==> b[x] == r[11..11 + n][x - 8]
    requires forall x :: 8 + n <= x < BUFSIZE ==> b[x] == was[x]
    requires forall x :: 11 <= x < BUFSIZE ==> was[x] == NUL
    requires StrtokAt(b, 8, ' ') == Some(k) && k.found && k.end == k.start + 3
    ensures 12 <= k.next < BUFSIZE && k.after == b[k.end := NUL] && 4 <= n
    ensures forall x :: 12 + |path| - 1 <= x < BUFSIZE ==> !Letter(k.after[x])
  {
    AtEveryPosition(r, 0, SCHEME + " " + METHOD + " ");
    assert forall x :: 8 <= x < 8 + n ==> b[x] == r[3 + x];
    assert b[8] == r[11] == ' ';
    assert b[k.start + 2] != NUL;
  }

  lemma {:induction false} MisplacedMethod(c: Server, r: string, q: nat, path: string, n: nat)
    requires Laid(r, path) && Pending(c, q) && 9 <= q && 12 <= q + n <= |r| < BUFSIZE
    ensures var d := Received(c, r[q..q + n]);
            var s := ParseMethod(d);
            && s.c.inside && (s.r == -1 || s.r == 0)
            && (s.r == -1 ==> s.c.stage == AtMethod)
            && (s.r == 0 ==>
                  && s.c == d.(buffer := s.c.buffer, token := s.c.token, headerPt := 12, stage := AtPath)
                  && Counted(s.c, q + n) && 12 <= s.c.token && 15 <= q + n
                  && forall x :: 12 + |path| - 1 <= x < BUFSIZE ==> !Letter(s.c.buffer[x]))
  {
    hide StrtokAt, Letter, Laid;
    var d := Received(c, r[q..q + n]);
    ReceivedCells(c, q, r[q..q + n]);
    var k := MisplacedToken(d.buffer, c.buffer, r, q, path, n);
    assert U32(d.rx - 8) == d.rx - 8;
  }

  lemma {:induction false} PendingRun(c: Server, r: string, q: nat, path: string, plan: seq<nat>)
    requires Laid(r, path) && Pending(c, q)
    ensures q <= |r|
    ensures var run := Process(c, r[q..], plan);
            run.c.inside && (Correct(run, path) <==> q == 8 && GoodMethod(Cuts(8, |r|, plan), |path|))
    decreases |plan|
  {
    hide Dispatch, Process, Received, Laid, Spoiled, AtItsPlace;
    LaidShort(r, path);
    var k := ReadLength(plan, BUFSIZE, |r| - q);
    var s := Turn(c, r, q, plan);
    if 0 < k {
      if q + k <= 11 {
        PendingStays(c, r, q, k);
        PendingRun(s.c, r, q + k, path, plan[1..]);
      } else if q == 8 {
        PendingPlaced(c, r, k);
        AtItsPlaceRun(Received(c, r[8..8 + k]), r, 8 + k, path, plan[1..]);
      } else {
        PendingMisses(c, r, q, path, k);
        if s.r != -1 { SpoiledRun(s.c, r, q + k, path, 12, plan[1..]); }
      }
    }
  }

  // ---------------------------------------------------------------- the whole request

  lemma {:induction false} FirstScheme(r: string, n: nat, path: string)
    requires Laid(r, path) && 8 <= n <= |r| < BUFSIZE
    ensures var c := AfterFirst(r[..n]);
            var d := c.(buffer := c.buffer[7 := NUL], token := 8, headerPt := 8, stage := AtMethod);
            ParseScheme(c) == Step(d, 0) && AtItsPlace(d, r, n)
  {
    var c, more := AfterFirst(r[..n]), r[8..n];
    AtEveryPosition(r, 0, SCHEME + " " + METHOD + " ");
    assert c.buffer[0..n] == SCHEME + " " + more;
    assert HasAt(c.buffer, 0, SCHEME + " " + more);
    SchemeStage(c, SCHEME, more);
    assert SCHEME[..7] == SCHEME;
  }

  lemma {:induction false} SchemeThenMethod(c: Server)
    requires c.stage == AtScheme && ParseScheme(c).c.stage == AtMethod && ParseScheme(c).r == 0
    ensures Dispatch(c) == Dispatch(ParseScheme(c).c)
  {
  }

  lemma {:induction false} PlacedPending(d: Server, r: string, n: nat)
    requires AtItsPlace(d, r, n) && n <= 11
    ensures Dispatch(d) == Step(d, 0) && Pending(d, n)
  {
    hide StrtokAt, ParsePath;
    assert U32(d.rx - 8) == d.rx - 8;
  }

  /** The request of a client for a path of letters reaches the handler with that path exactly under these cuts, and the
      source stays in its buffer under all of them. */
  lemma {:induction false} RequestIff(path: string, plan: seq<nat>)
    requires Clean(path)
    ensures var r := Request(path);
            var run := Process(Start(), r, plan);
            && run.c.inside
            && (run.result == -1 && run.c.path == Some(path) <==> GoodCuts(Cuts(0, |r|, plan), |path|))
  {
    hide Dispatch, Process, Laid, AtItsPlace, Pending, ParseScheme;
    var r := Request(path);
    RequestLaid(path);
    LaidShort(r, path);
    assert r[0..] == r;
    var n := ReadLength(plan, BUFSIZE, |r|);
    var s := Turn(Start(), r, 0, plan);
    if n <= 0 {
    } else if n <= SCHEME_SZ {
      BeginsWithScheme(r, path);
      FirstReadInScheme(r, plan);
    } else {
      FirstReceived(r[..n]);
      assert r[0..n] == r[..n];
      FirstScheme(r, n, path);
      var later := Cuts(n, |r|, plan[1..]);
      assert ([n] + later)[1..] == later;
      var d := ParseScheme(AfterFirst(r[..n])).c;
      SchemeThenMethod(AfterFirst(r[..n]));
      if n <= 11 {
        PlacedPending(d, r, n);
        PendingRun(d, r, n, path, plan[1..]);
      } else {
        AtItsPlaceRun(d, r, n, path, plan[1..]);
      }
    }
  }

  lemma {:induction false} BeginsWithScheme(r: string, path: string)
    requires Laid(r, path)
    ensures HasAt(r, 0, SCHEME + " ")
  {
    PartAt(r, 0, SCHEME + " " + METHOD + " ", 0, 8);
    assert (SCHEME + " " + METHOD + " ")[0..8] == SCHEME + " ";
  }
}
