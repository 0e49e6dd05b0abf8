/** What the client makes of a response whose header is split over reads. Until the header is parsed every read lands at
    the beginning of the buffer, over what came before. */
module ClientSplit {
  import opened Wrappers
  import opened Decimal
  import opened GetFile
  import opened ClientModel
  import opened ClientReads
  import opened ClientBody
  import ClientCounts

  // ---------------------------------------------------------------- a cut inside the scheme

  /** Fewer bytes than the scheme has were received, and nothing has been parsed. */
  ghost predicate Waiting(c: Client, p: nat)
  {
    && c.inside && c.stage == AtScheme && c.status == Invalid && c.written == [] && c.headers == []
    && c.contentPt == 0 && c.rx == p < SCHEME_SZ
    && forall k :: SCHEME_SZ - 1 <= k < RDBUFSIZE ==> c.buffer[k] == NUL
  }

  /** The buffer then begins with another character of the scheme than its first. */
  lemma {:induction false} SchemeMissed(c: Client, p: nat, chunk: seq<char>)
    requires Waiting(c, p) && 0 < p && SCHEME_SZ <= p + |chunk| && |chunk| <= RDBUFSIZE
    requires 0 < |chunk| && chunk[0] !in ['G', ' ', NUL] && (SCHEME_SZ - p < |chunk| ==> chunk[SCHEME_SZ - p] == ' ')
    ensures var s := Dispatch(Received(c, chunk));
            s.c.inside && s.r == -1 && s.c.status == Invalid && s.c.written == [] && s.c.headers == []
  {
    var d := Received(c, chunk);
    var stop := if |chunk| <= SCHEME_SZ then SCHEME_SZ else SCHEME_SZ - p;
    assert d.buffer[0] == chunk[0];
    assert d.buffer[stop] == if stop < |chunk| then chunk[stop] else c.buffer[stop];
    SchemeElsewhere(d.buffer, stop);
    SchemeRejected(d);
  }

  lemma {:induction false} SchemeElsewhere(b: Buffer, stop: nat)
    requires b[0] !in ['G', ' ', NUL] && stop < RDBUFSIZE && b[stop] in [' ', NUL]
    ensures StrtokAt(b, 0, ' ').Some? && b[..SCHEME_SZ] != SCHEME
  {
    assert TokenStart(b, 0, ' ') == 0 && TokenEnd(b, 0, ' ') <= stop;
    assert b[..SCHEME_SZ][0] != SCHEME[0];
  }

  lemma {:induction false} StillWaiting(c: Client, p: nat, chunk: seq<char>)
    requires Waiting(c, p) && p + |chunk| < SCHEME_SZ
    ensures var d := Received(c, chunk); Dispatch(d) == Step(d, 0) && Waiting(d, p + |chunk|)
  {
    NothingParsed(Received(c, chunk));
  }

  lemma {:induction false} NothingParsed(d: Client)
    requires d.stage == AtScheme && d.rx < SCHEME_SZ
    ensures Dispatch(d) == Step(d, 0)
  {
  }

  /** A first read inside the scheme: the response is rejected, nothing is handed on, however the rest is cut. */
  lemma {:induction false} CutInScheme(c: Client, stream: seq<char>, p: nat, plan: seq<nat>)
    requires HasAt(stream, 0, SCHEME + " ") && Waiting(c, p) && 0 < p
    ensures var run := Respond(c, stream[p..], plan);
            && run.c.inside && run.result == -1
            && run.c.status == Invalid && run.c.written == [] && run.c.headers == []
    decreases |plan|
  {
    var n := First(stream[p..], plan);
    var s := HeaderTurn(c, stream[p..], plan);
    if 0 < n {
      var chunk := stream[p..][..n];
      SchemeRest(stream, p, chunk);
      if p + n < SCHEME_SZ {
        StillWaiting(c, p, chunk);
        assert stream[p..][n..] == stream[p + n..];
        CutInScheme(s.c, stream, p + n, plan[1..]);
      } else {
        SchemeMissed(c, p, chunk);
      }
    }
  }

  /** Of every stream that begins with the scheme: when the first read brings one to six bytes of it, the result is
      -1, the status stays invalid and no callback is called, however the rest arrives. */
  lemma {:induction false} FirstReadInScheme(stream: seq<char>, plan: seq<nat>)
    requires HasAt(stream, 0, SCHEME + " ") && 0 < First(stream, plan) < SCHEME_SZ
    ensures var run := Respond(Start(), stream, plan);
            && run.c.inside && run.result == -1
            && run.c.status == Invalid && run.c.written == [] && run.c.headers == []
  {
    var n := First(stream, plan);
    var c := AfterFirst(stream[..n]);
    var s := FirstTurn(stream, plan);
    assert s == Step(c, 0);
    CutInScheme(c, stream, n, plan[1..]);
  }

  /** A header in two pieces, which the design notes promise to be accepted. */
  lemma {:induction false} PiecesNotAccepted(plan: seq<nat>)
    requires plan != [] && plan[0] == 3
    ensures var run := Respond(Start(), "GETFILE OK 5\r\n\r\nhello", plan);
            run.c.inside && run.result == -1 && run.c.status == Invalid && run.c.written == []
  {
    FirstReadInScheme("GETFILE OK 5\r\n\r\nhello", plan);
  }

  // ---------------------------------------------------------------- a cut behind the scheme

  /** What is used of a printed success header: its end, and what stands where. */
  ghost predicate OkHeader(h: seq<char>)
  {
    && 16 <= |h| <= 25 && HasAt(h, 0, SCHEME + " OK ")
    && (forall j :: 11 <= j < |h| - 4 ==> IsDigit(h[j]))
    && HasAt(h, |h| - 4, END_SEQUENCE)
  }

  lemma {:induction false} PrintedHeader(length: nat)
    requires length < 0x8000_0000
    ensures OkHeader(HeaderText(Ok, length))
  {
    var h, digits := HeaderText(Ok, length), Print(length);
    assert Pow10(5) == 100_000 && Pow10(10) == 100_000 * Pow10(5);
    PrintLength(length, 10);
    assert SCHEME + " " + "OK" + " " == SCHEME + " OK ";
    assert h == SCHEME + " OK " + digits + END_SEQUENCE;
    assert forall j :: 11 <= j < |h| - 4 ==> h[j] == digits[j - 11];
  }

  /** Behind the status a header has no space, no terminator and no letter. */
  lemma {:induction false} NoWordBehind(h: seq<char>, j: nat)
    requires OkHeader(h) && 11 <= j < |h|
    ensures h[j] !in [' ', NUL, 'O']
  {
    AtEveryPosition(h, |h| - 4, END_SEQUENCE);
  }

  ghost predicate NulFrom(b: Buffer, k: nat)
  {
    forall x :: k <= x < RDBUFSIZE ==> b[x] == NUL
  }

  /** The buffer and the saved position of strtok while the status is pending. */
  ghost predicate PendingBuffer(b: Buffer, token: nat, p: nat)
  {
    && NulFrom(b, p) && NulFrom(b, 15)
    && (b[14] == NUL || (p == 22 && token >= 9))
    && (p <= 10 ==> token in {7, 8}) && (p == 7 ==> token == 7)
  }

  /** The scheme is parsed and the status is not: p bytes were received, at most 22 in all, so no later read brought
      more than fifteen. */
  ghost predicate PendingMethod(c: Client, p: nat)
  {
    && c.inside && c.stage == AtMethod && c.rx == p && c.contentPt == 0 && c.written == []
    && c.headerPt == 8 && 7 <= p <= 22 && PendingBuffer(c.buffer, c.token, p)
  }

  /** The length is parsed, and fewer than four bytes were received behind it. */
  ghost predicate PendingPath(c: Client, p: nat)
  {
    && c.inside && c.stage == AtPath && c.rx == p && c.contentPt == 0 && c.written == []
    && 11 <= c.headerPt <= p <= c.headerPt + 3 && 12 <= p && c.headerPt < RDBUFSIZE
    && NulFrom(c.buffer, p)
  }

  /** The end sequence was found before position h; of the t bytes received what lies behind it was handed on. */
  ghost predicate Accepted(b: Buffer, t: nat, h: nat, s: Step)
  {
    && 4 <= h <= t <= RDBUFSIZE && HasAt(b, h - 4, END_SEQUENCE)
    && s.c.inside && s.c.written == b[h..t]
    && (s.r == 1 || (s.r == 0 && HandedOn(s.c)))
  }

  lemma {:induction false} ContentOutcome(c: Client)
    requires c.inside && c.stage == AtContent && c.written == [] && c.contentPt <= c.rx && c.contentPt <= RDBUFSIZE
    ensures var s := Finish(Step(c, 0));
            s.c.inside ==>
              && c.rx <= RDBUFSIZE && s.c.written == c.buffer[c.contentPt..c.rx] && s.c.status == c.status
              && (s.r == 1 || (s.r == 0 && HandedOn(s.c)))
  {
  }

  lemma {:induction false} EndOutcome(e: Client)
    requires e.inside && e.stage == AtPath && e.contentPt == 0 && e.written == []
    requires 11 <= e.headerPt <= e.rx && 12 <= e.rx < 0x1_0000_0000 && e.headerPt < RDBUFSIZE && NulFrom(e.buffer, e.rx)
    ensures var s := Finish(ParseEnd(e));
            || !s.c.inside || s.r == -1 || (s.r == 0 && PendingPath(s.c, e.rx))
            || (Accepted(e.buffer, e.rx, e.headerPt + 4, s) && s.c.status == e.status)
  {
    var t := ParseEnd(e);
    if t.c.stage == AtContent { ContentOutcome(t.c); }
  }

  /** The stages behind the length, at the end of a header of which t bytes were received. */
  lemma {:induction false} PathOutcome(d: Client) returns (h: nat)
    requires d.inside && d.stage == AtPath && d.contentPt == 0 && d.written == []
    requires 11 <= d.headerPt <= d.rx && 12 <= d.rx < 0x1_0000_0000 && NulFrom(d.buffer, d.rx)
    ensures var s := Finish(ParsePath(d));
            || !s.c.inside || s.r == -1 || (s.r == 0 && PendingPath(s.c, d.rx))
            || (d.headerPt + 4 <= h && Accepted(d.buffer, d.rx, h, s) && s.c.status == d.status)
  {
    var e := ReadLengthField(d);
    h := e.headerPt + 4;
    if e.inside {
      if d.rx < RDBUFSIZE { assert d.buffer[d.rx] == NUL; }
      EndOutcome(e);
    }
  }

  /** A later read of a pending header, on top of what came before; e is the buffer once its token is terminated. */
  ghost predicate Overlaid(b: Buffer, chunk: seq<char>)
  {
    && |chunk| <= RDBUFSIZE && NulFrom(b, |chunk|)
    && forall i :: 0 <= i < |chunk| ==> b[i] in [chunk[i], NUL]
  }

  /** The chunk was read at position p of a stream whose header has m bytes. */
  ghost predicate NoWords(chunk: seq<char>, p: nat, m: nat)
  {
    forall i :: 0 <= i < |chunk| && 11 <= p + i < m ==> chunk[i] !in [' ', NUL, 'O']
  }

  /** An accepted end of a header, where a header of m bytes was expected: it lies in the last read, and further on in
      the stream than the header goes. */
  ghost predicate Misplaced(b: Buffer, chunk: seq<char>, p: nat, m: nat, h: nat)
  {
    Overlaid(b, chunk) && h <= |chunk| && p + h > m
  }

  lemma {:induction false} LengthOutcome(e: Client)
    requires e.inside && e.stage == AtLength && e.headerPt == 11 && 12 <= e.rx && NulFrom(e.buffer, e.rx)
    ensures var g := ParseLength(e);
            g.inside ==> 11 <= g.headerPt <= g.rx && g == e.(headerPt := g.headerPt, stage := AtPath)
  {
    if e.rx < RDBUFSIZE { assert e.buffer[e.rx] == NUL; }
  }

  lemma {:induction false} PathDispatch(d: Client)
    requires d.stage == AtPath
    ensures Dispatch(d) == Finish(ParsePath(d))
  {
  }

  /** The buffer after a read of a pending header. */
  function Over(was: Buffer, chunk: seq<char>): Buffer
    requires |chunk| <= RDBUFSIZE
  {
    chunk + was[|chunk|..]
  }

  lemma {:induction false} ReceivedOver(c: Client, chunk: seq<char>)
    requires c.contentPt == 0 && |chunk| <= RDBUFSIZE && c.rx + |chunk| < 0x1_0000_0000
    ensures Received(c, chunk) ==
              c.(buffer := Over(c.buffer, chunk), rx := c.rx + |chunk|, total := U32(c.total + |chunk|))
  {
    assert c.buffer[..0] + chunk + c.buffer[|chunk|..] == Over(c.buffer, chunk);
  }

  lemma {:induction false} NulBehind(was: Buffer, p: nat, chunk: seq<char>)
    requires NulFrom(was, p) && |chunk| <= RDBUFSIZE
    ensures NulFrom(Over(was, chunk), p + |chunk|)
  {
  }

  lemma {:induction false} NulScanned(b: Buffer, from: nat, t: nat)
    requires NulFrom(b, t) && StrtokAt(b, from, ' ').Some?
    ensures NulFrom(StrtokAt(b, from, ' ').value.after, t)
  {
  }

  /** A read at a pending length or end sequence. */
  lemma {:induction false} PathTurn(c: Client, p: nat, chunk: seq<char>, m: nat) returns (b: Buffer, h: nat)
    requires PendingPath(c, p) && 0 < |chunk| <= RDBUFSIZE && m <= 25
    ensures var s := Dispatch(Received(c, chunk));
            || !s.c.inside || s.r == -1 || (s.r == 0 && PendingPath(s.c, p + |chunk|))
            || (Accepted(b, p + |chunk|, h, s) && Misplaced(b, chunk, p, m, h))
  {
    var d := Received(c, chunk);
    b := Over(c.buffer, chunk);
    ReceivedOver(c, chunk);
    NulBehind(c.buffer, p, chunk);
    PathDispatch(d);
    h := PathOutcome(d);
    if HasAt(b, h - 4, END_SEQUENCE) && c.headerPt + 4 <= h {
      EndIsRead(c.buffer, chunk, p, b, h);
    }
  }

  /** What is accepted as the end of the header is from the last read. */
  lemma {:induction false} EndIsRead(was: Buffer, chunk: seq<char>, p: nat, b: Buffer, h: nat)
    requires |chunk| <= RDBUFSIZE && b == chunk + was[|chunk|..] && NulFrom(was, p)
    requires p < h && HasAt(b, h - 4, END_SEQUENCE)
    ensures h <= |chunk| && Overlaid(b, chunk)
  {
    AtEveryPosition(b, h - 4, END_SEQUENCE);
    assert b[h - 1] == '\n';
  }

  // ---------------------------------------------------------------- a read at a pending status

  /** No token is looked for: the invariant of the buffer goes on. */
  lemma {:induction false} BufferStays(was: Buffer, token: nat, p: nat, chunk: seq<char>)
    requires PendingBuffer(was, token, p) && 0 < |chunk| && p + |chunk| <= 11 && 7 <= p
    ensures PendingBuffer(Over(was, chunk), token, p + |chunk|)
  {
  }

  /** A token is looked for and is not OK. */
  lemma {:induction false} BufferScanned(was: Buffer, token: nat, p: nat, chunk: seq<char>, m: nat, k: Scan)
    requires PendingBuffer(was, token, p) && 0 < |chunk| && 12 <= p + |chunk| <= 22 && 7 <= p
    requires NoWords(chunk, p, m) && 16 <= m && StrtokAt(Over(was, chunk), token, ' ') == Some(k)
    ensures PendingBuffer(k.after, k.next, p + |chunk|)
  {
    var b := Over(was, chunk);
    NulBehind(was, p, chunk);
    if |chunk| == 15 {
      assert b[7] == chunk[7] && b[8] == chunk[8];
      assert TokenStart(b, 7, ' ') == 7 && TokenEnd(b, 7, ' ') >= 9;
    }
  }

  lemma {:induction false} ScanChanges(b: Buffer, from: nat, k: Scan)
    requires StrtokAt(b, from, ' ') == Some(k) && k.found
    ensures from <= k.start < k.end < RDBUFSIZE && k.after == b[k.end := NUL]
  {
  }

  /** The end of the header lies in the last read. */
  lemma {:induction false} EndBehindOk(was: Buffer, token: nat, p: nat, chunk: seq<char>, k: Scan, h: nat)
    requires PendingBuffer(was, token, p) && |chunk| <= RDBUFSIZE
    requires StrtokAt(Over(was, chunk), token, ' ') == Some(k) && k.found
    requires k.end == k.start + 2 && HasAt(k.after, k.start, "OK")
    requires 15 <= h && HasAt(k.after, h - 4, END_SEQUENCE)
    ensures h <= |chunk|
  {
    ScanChanges(Over(was, chunk), token, k);
    hide StrtokAt;
    AtEveryPosition(k.after, h - 4, END_SEQUENCE);
    AtEveryPosition(k.after, k.start, "OK");
    assert k.after[h - 1] == END_SEQUENCE[3] == '\n' && k.after[h - 4] == END_SEQUENCE[0] == '\r';
    assert k.after[k.start] == 'O' && k.after[k.start + 1] == 'K' && k.after[k.end] == NUL;
  }

  lemma {:induction false} OkOverlaid(was: Buffer, token: nat, p: nat, chunk: seq<char>, k: Scan)
    requires PendingBuffer(was, token, p) && 15 <= |chunk| <= RDBUFSIZE
    requires StrtokAt(Over(was, chunk), token, ' ') == Some(k) && k.found
    ensures Overlaid(k.after, chunk)
  {
    ScanChanges(Over(was, chunk), token, k);
    hide StrtokAt;
  }

  lemma {:induction false} WordAtOnce(b: Buffer, from: nat, k: Scan)
    requires StrtokAt(b, from, ' ') == Some(k) && from < |b| && b[from] != ' '
    ensures k.start == from
  {
  }

  /** And it lies further on in the stream than the header goes: up to there the header has no word for strtok. */
  lemma {:induction false} EndBeyondHeader(was: Buffer, token: nat, p: nat, chunk: seq<char>, m: nat, k: Scan, h: nat)
    requires PendingBuffer(was, token, p) && 7 <= p && |chunk| <= RDBUFSIZE && NoWords(chunk, p, m) && m <= 25
    requires StrtokAt(Over(was, chunk), token, ' ') == Some(k) && k.found && HasAt(k.after, k.start, "OK")
    requires 15 <= h <= |chunk|
    ensures p + h > m
  {
    AtEveryPosition(k.after, k.start, "OK");
    ScanChanges(Over(was, chunk), token, k);
    if p + h <= m {
      assert p <= 10 && token in {7, 8};
      assert Over(was, chunk)[token] == chunk[token];
      WordAtOnce(Over(was, chunk), token, k);
    }
  }

  /** The first half of parse_method, while the status is pending. */
  lemma {:induction false} OkOutcome(d: Client) returns (k: Scan)
    requires d.inside && d.stage == AtMethod && d.headerPt == 8 <= d.rx < 0x1_0000_0000
    ensures var e := ParseOk(d);
            if d.rx <= 11 then e == d
            else e.inside ==>
              && StrtokAt(d.buffer, d.token, ' ') == Some(k)
              && if e.stage == AtMethod then e == d.(buffer := k.after, token := k.next)
                 else && k.found && k.end == k.start + 2 && HasAt(k.after, k.start, "OK")
                      && e == d.(buffer := k.after, token := k.next, headerPt := 11, lengthStart := 11,
                                 stage := AtLength, status := Ok)
  {
    if d.rx > 11 && StrtokAt(d.buffer, d.token, ' ').Some? {
      k := StrtokAt(d.buffer, d.token, ' ').value;
      if k.found && k.after[k.start..k.end] == "OK" { assert k.end - k.start == |k.after[k.start..k.end]| == 2; }
    } else {
      k := Scan(false, 0, 0, 0, Nuls(RDBUFSIZE));
    }
  }

  lemma {:induction false} FailureUndecided(e: Client, t: nat)
    requires e.stage == AtMethod && e.rx == t && 8 <= t < 0x8000_0000 && e.headerPt == 8
    ensures ParseFailure(e).stage == AtMethod && ParseFailure(e).inside ==> t <= 22
  {
    hide Strncmp;
    assert I32(t - 8) == t - 8;
  }

  /** The second half: still pending, or a failure. */
  lemma {:induction false} FailureOutcome(e: Client, t: nat)
    requires e.inside && e.stage == AtMethod && e.rx == t && 8 <= t < 0x8000_0000 && e.contentPt == 0 && e.written == []
    requires e.headerPt == 8 && (t <= 22 ==> PendingBuffer(e.buffer, e.token, t))
    ensures var s := Finish(Back(Step(ParseFailure(e), 0)));
            !s.c.inside || (s.r == 1 && s.c.status != Ok) || (s.r == 0 && PendingMethod(s.c, t))
  {
    hide ParseFailure, ParseLength, ParsePath, ParseContent, NulFrom;
    FailureUndecided(e, t);
  }

  lemma {:induction false} MethodDispatch(d: Client)
    requires d.stage == AtMethod
    ensures Dispatch(d) == Finish(Back(Step(ParseMethod(d), 0)))
  {
  }

  lemma {:induction false} LengthDispatch(e: Client)
    requires e.stage == AtLength && ParseLength(e).stage == AtPath
    ensures Finish(Back(Step(e, 0))) == Finish(ParsePath(ParseLength(e)))
  {
  }

  /** OK was found: the stages behind it. */
  lemma {:induction false} LengthTurn(e: Client) returns (h: nat)
    requires e.inside && e.stage == AtLength && e.headerPt == 11 && e.contentPt == 0 && e.written == []
    requires 12 <= e.rx < 0x1_0000_0000 && NulFrom(e.buffer, e.rx)
    ensures var s := Finish(Back(Step(e, 0)));
            || !s.c.inside || s.r == -1 || (s.r == 0 && PendingPath(s.c, e.rx))
            || (15 <= h && Accepted(e.buffer, e.rx, h, s))
  {
    h := 0;
    LengthOutcome(e);
    var g := ParseLength(e);
    if g.inside {
      LengthDispatch(e);
      h := PathOutcome(g);
    }
  }

  /** A read at a pending status that does not complete it. */
  lemma {:induction false} StatusPending(c: Client, p: nat, chunk: seq<char>, m: nat)
    requires PendingMethod(c, p) && 0 < |chunk| <= RDBUFSIZE && NoWords(chunk, p, m) && 16 <= m
    requires var e := ParseOk(Received(c, chunk)); e.inside && e.stage == AtMethod
    ensures var s := Dispatch(Received(c, chunk));
            !s.c.inside || (s.r == 1 && s.c.status != Ok) || (s.r == 0 && PendingMethod(s.c, p + |chunk|))
  {
    var d, t := Received(c, chunk), p + |chunk|;
    ReceivedOver(c, chunk);
    MethodDispatch(d);
    var k := OkOutcome(d);
    if t <= 11 {
      BufferStays(c.buffer, c.token, p, chunk);
    } else if t <= 22 {
      BufferScanned(c.buffer, c.token, p, chunk, m, k);
    }
    FailureOutcome(ParseOk(d), t);
  }

  /** A read at a pending status that completes it to OK. */
  lemma {:induction false} StatusOk(c: Client, p: nat, chunk: seq<char>, m: nat) returns (b: Buffer, h: nat)
    requires PendingMethod(c, p) && 0 < |chunk| <= RDBUFSIZE && NoWords(chunk, p, m) && m <= 25
    requires var e := ParseOk(Received(c, chunk)); e.inside && e.stage == AtLength
    ensures var s, t := Dispatch(Received(c, chunk)), p + |chunk|;
            || !s.c.inside || s.r == -1 || (s.r == 0 && PendingPath(s.c, t))
            || (Accepted(b, t, h, s) && Misplaced(b, chunk, p, m, h))
  {
    hide Dispatch, Finish, Back, PendingPath, ParseOk, Over, Overlaid, NoWords, StrtokAt, NulFrom;
    var d := Received(c, chunk);
    ReceivedOver(c, chunk);
    NulBehind(c.buffer, p, chunk);
    MethodDispatch(d);
    var k := OkOutcome(d);
    b := k.after;
    NulScanned(d.buffer, d.token, p + |chunk|);
    h := LengthTurn(ParseOk(d));
    if 15 <= h && HasAt(b, h - 4, END_SEQUENCE) {
      EndBehindOk(c.buffer, c.token, p, chunk, k, h);
      OkOverlaid(c.buffer, c.token, p, chunk, k);
      EndBeyondHeader(c.buffer, c.token, p, chunk, m, k, h);
    }
  }

  /** A read at a pending status. */
  lemma {:induction false} MethodTurn(c: Client, p: nat, chunk: seq<char>, m: nat) returns (b: Buffer, h: nat)
    requires PendingMethod(c, p) && 0 < |chunk| <= RDBUFSIZE && NoWords(chunk, p, m) && 16 <= m <= 25
    ensures var s, t := Dispatch(Received(c, chunk)), p + |chunk|;
            || !s.c.inside || s.r == -1 || (s.r == 1 && s.c.status != Ok)
            || (s.r == 0 && (PendingMethod(s.c, t) || PendingPath(s.c, t)))
            || (Accepted(b, t, h, s) && Misplaced(b, chunk, p, m, h))
  {
    var d := Received(c, chunk);
    var e := ParseOk(d);
    b, h := d.buffer, 0;
    if !e.inside {
      MethodDispatch(d);
    } else if e.stage == AtMethod {
      StatusPending(c, p, chunk, m);
    } else {
      b, h := StatusOk(c, p, chunk, m);
    }
  }

  // ---------------------------------------------------------------- what is handed on behind a misplaced end

  /** If what was handed on began the file nonetheless, the file would begin with the end sequence that was accepted,
      and by the distance between the two also with terminators only. */
  lemma {:induction false} ShiftedIsNul(file: seq<char>, chunk: seq<char>, b: Buffer, t: nat, h: nat, shift: nat, j: nat)
    requires Overlaid(b, chunk) && h <= |chunk| <= t <= RDBUFSIZE && t - h <= |file| && b[h..t] == file[..t - h]
    requires 1 <= shift <= t - |chunk|
    requires forall i :: h <= i < |chunk| && i - h + shift < |file| ==> chunk[i] == file[i - h + shift]
    requires j < t - h
    ensures file[j] == NUL
    decreases t - h - j
  {
    assert b[h..t][j] == b[h + j] == file[..t - h][j];
    if h + j < |chunk| {
      ShiftedIsNul(file, chunk, b, t, h, shift, j + shift);
    }
  }

  lemma {:induction false} NotTheFile(header: seq<char>, file: seq<char>, p: nat, chunk: seq<char>, b: Buffer, h: nat)
    requires 0 < p && p + |chunk| <= |header| + |file| && chunk == (header + file)[p..p + |chunk|]
    requires Misplaced(b, chunk, p, |header|, h) && 4 <= h <= |header| && p + |chunk| <= RDBUFSIZE
    requires HasAt(b, h - 4, END_SEQUENCE)
    ensures var t := p + |chunk|; !(b[h..t] <= file)
  {
    var t, shift := p + |chunk|, p + h - |header|;
    AtEveryPosition(b, h - 4, END_SEQUENCE);
    assert b[h - 1] == END_SEQUENCE[3] == chunk[h - 1];
    assert chunk[h - 1] == (header + file)[p + h - 1] == file[shift - 1];
    assert forall i :: h <= i < |chunk| ==> chunk[i] == (header + file)[p + i];
    if b[h..t] <= file {
      ShiftedIsNul(file, chunk, b, t, h, shift, shift - 1);
    }
  }

  // ---------------------------------------------------------------- the exact condition for success

  /** A correct exchange: success, and the file. */
  ghost predicate Correct(run: Run, file: seq<char>)
  {
    run.c.inside && run.result == 0 && run.c.status == Ok && run.c.written == file
  }

  ghost predicate Pending(c: Client, p: nat)
  {
    PendingMethod(c, p) || PendingPath(c, p)
  }

  /** After a misplaced end the run cannot be correct any more: were it, no more than the header would have been taken
      for one. */
  lemma {:induction false} MisplacedIsWrong(header: seq<char>, file: seq<char>, p: nat, n: nat, b: Buffer, h: nat,
                                            s: Step, plan: seq<nat>)
    requires 0 < p && 0 < n && p + n <= |header| + |file|
    requires Accepted(b, p + n, h, s) && Misplaced(b, (header + file)[p..p + n], p, |header|, h)
    ensures !Correct(GoOn(s, (header + file)[p + n..], plan), file)
  {
    var rest := (header + file)[p + n..];
    var run := GoOn(s, rest, plan);
    if s.r == 0 { NothingLost(s.c, rest, plan); }
    if Correct(run, file) {
      assert run.c.written + run.rest == s.c.written + rest;
      assert s.c.written <= file;
      assert |file| + |run.rest| == p + n - h + |rest|;
      NotTheFile(header, file, p, (header + file)[p..p + n], b, h);
    }
  }

  lemma {:induction false} HeaderRest(header: seq<char>, file: seq<char>, p: nat, n: nat)
    requires OkHeader(header) && p + n <= |header| + |file|
    ensures var stream := header + file;
            && stream[p..][..n] == stream[p..p + n] && stream[p..][n..] == stream[p + n..]
            && NoWords(stream[p..p + n], p, |header|)
  {
    var stream := header + file;
    var chunk := stream[p..p + n];
    forall i | 0 <= i < |chunk| && 11 <= p + i < |header| ensures chunk[i] !in [' ', NUL, 'O'] {
      NoWordBehind(header, p + i);
    }
  }

  /** Once the header is pending after a read, no run is correct. */
  lemma {:induction false} PendingIsWrong(header: seq<char>, file: seq<char>, c: Client, p: nat, plan: seq<nat>)
    requires OkHeader(header) && 0 < p <= |header| + |file| && Pending(c, p)
    ensures !Correct(Respond(c, (header + file)[p..], plan), file)
    decreases |plan|
  {
    hide Dispatch, Received, Accepted, Misplaced, NoWords, Respond, NulFrom, PendingBuffer;
    var stream, m := header + file, |header|;
    var n := First(stream[p..], plan);
    var s := HeaderTurn(c, stream[p..], plan);
    if 0 < n {
      var chunk := stream[p..p + n];
      HeaderRest(header, file, p, n);
      var b, h := PendingTurn(c, p, chunk, m);
      if s.r == 0 && Pending(s.c, p + n) {
        PendingIsWrong(header, file, s.c, p + n, plan[1..]);
      } else if Accepted(b, p + n, h, s) && Misplaced(b, chunk, p, m, h) {
        MisplacedIsWrong(header, file, p, n, b, h, s, plan[1..]);
      }
    }
  }

  /** A read at a pending header: it stays pending, or fails, or an end of the header is found where there is none. */
  lemma {:induction false} PendingTurn(c: Client, p: nat, chunk: seq<char>, m: nat) returns (b: Buffer, h: nat)
    requires Pending(c, p) && 0 < |chunk| <= RDBUFSIZE && NoWords(chunk, p, m) && 16 <= m <= 25
    ensures var s, t := Dispatch(Received(c, chunk)), p + |chunk|;
            || !s.c.inside || s.r == -1 || (s.r == 1 && s.c.status != Ok)
            || (s.r == 0 && Pending(s.c, t))
            || (Accepted(b, t, h, s) && Misplaced(b, chunk, p, m, h))
  {
    if PendingMethod(c, p) {
      b, h := MethodTurn(c, p, chunk, m);
    } else {
      b, h := PathTurn(c, p, chunk, m);
    }
  }

  /** The scheme and at most four bytes more. */
  function SchemeAlone(text: seq<char>): Client
    requires |text| <= RDBUFSIZE
  {
    AfterFirst(text).(buffer := Filled(text)[7 := NUL], token := if |text| == 7 then 7 else 8, headerPt := 8,
                      stage := AtMethod)
  }

  lemma {:induction false} SchemeIsAlone(stream: seq<char>, n: nat)
    requires 7 <= n <= 11 && n <= |stream| && HasAt(stream, 0, SCHEME + " ")
    ensures ParseScheme(AfterFirst(stream[..n])) == Step(SchemeAlone(stream[..n]), 0)
  {
    var b := Filled(stream[..n]);
    AtEveryPosition(stream, 0, SCHEME + " ");
    assert forall k :: 0 <= k < n ==> b[k] == stream[k];
    TokenIs(b, 0, 0, 7, ' ');
    assert b[7 := NUL][..7] == SCHEME;
  }

  /** A first read that ends in the scheme's space or in the status leaves the status pending. */
  lemma {:induction false} CutInStatus(stream: seq<char>, n: nat)
    requires 7 <= n <= 11 && n <= |stream| && HasAt(stream, 0, SCHEME + " ")
    ensures Dispatch(AfterFirst(stream[..n])) == Step(SchemeAlone(stream[..n]), 0)
    ensures PendingMethod(SchemeAlone(stream[..n]), n)
  {
    hide ParseScheme, ParseMethod, Finish, Back;
    SchemeIsAlone(stream, n);
    TerminatedStatus(SchemeAlone(stream[..n]), n);
  }

  /** Too few bytes for a status: nothing more is parsed. */
  lemma {:induction false} TerminatedStatus(d: Client, n: nat)
    requires d.inside && d.stage == AtMethod && d.headerPt == 8 && d.rx == n && 7 <= n <= 11
    requires n == 7 ==> d.token == 7 && d.buffer[7] == NUL
    ensures ParseMethod(d) == d && Finish(Back(Step(d, 0))) == Step(d, 0)
  {
    hide Strncmp, ParseContent, ParsePath, ParseLength;
    assert I32(n - 8) == n - 8;
  }

  /** The length ends at j, and fewer than four bytes follow. */
  lemma {:induction false} ShortEnd(e: Client, j: nat)
    requires e.inside && e.stage == AtLength && e.headerPt == 11 && e.contentPt == 0 && e.written == []
    requires 11 <= j <= e.rx <= j + 3 && 12 <= e.rx < RDBUFSIZE && NulFrom(e.buffer, e.rx)
    requires (forall k :: 11 <= k < j ==> IsDigit(e.buffer[k])) && !IsDigit(e.buffer[j]) && e.buffer[j] != ' '
    ensures var s := Finish(Back(Step(e, 0)));
            !s.c.inside || (s.r == 0 && PendingPath(s.c, e.rx))
  {
    DigitsStop(e.buffer, 11, j, e.rx);
    var g := ParseLength(e);
    LengthDispatch(e);
    SpacesEnd(g.buffer, j, j);
    NotYetEnded(g);
  }

  lemma {:induction false} NotYetEnded(g: Client)
    requires g.inside && g.stage == AtPath && g.contentPt == 0 && g.written == []
    requires 11 <= g.headerPt <= g.rx <= g.headerPt + 3 && 12 <= g.rx < RDBUFSIZE && NulFrom(g.buffer, g.rx)
    requires TokenStart(g.buffer, g.headerPt, ' ') == g.headerPt
    ensures var s := Finish(ParsePath(g));
            !s.c.inside || (s.r == 0 && PendingPath(s.c, g.rx))
  {
    hide NulFrom, Strncmp, Atoi, TokenStart, ParseContent;
    assert U32(g.rx - g.headerPt) < ENDSEQ;
  }

  /** A first read that brings the status and not the whole header leaves the end of the header pending. */
  lemma {:induction false} CutInLength(header: seq<char>, n: nat)
    requires OkHeader(header) && 12 <= n < |header|
    ensures var s := Dispatch(AfterFirst(header[..n]));
            !s.c.inside || (s.r == 0 && PendingPath(s.c, n))
  {
    hide Dispatch, Finish, Back, PendingPath;
    var e := FirstLength(header, n);
    AtEveryPosition(header, |header| - 4, END_SEQUENCE);
    assert header[|header| - 4] == END_SEQUENCE[0];
    assert forall k :: 11 <= k < n ==> e.buffer[k] == header[k];
    assert forall k :: n <= k < RDBUFSIZE ==> e.buffer[k] == NUL;
    ShortEnd(e, if n <= |header| - 4 then n else |header| - 4);
  }

  lemma {:induction false} FirstLength(header: seq<char>, n: nat) returns (e: Client)
    requires OkHeader(header) && 12 <= n < |header|
    ensures e == AfterFirst(header[..n]).(buffer := e.buffer, token := 11, headerPt := 11, lengthStart := 11,
                                          stage := AtLength, status := Ok)
    ensures e.buffer == Filled(header[..n])[7 := NUL][10 := NUL]
    ensures Dispatch(AfterFirst(header[..n])) == Finish(Back(Step(e, 0)))
  {
    var text := header[..n];
    AtEveryPosition(header, 0, SCHEME + " OK ");
    assert text == SCHEME + " " + ("OK" + " " + header[11..n]);
    SchemeOfFirst(text, SCHEME, "OK" + " " + header[11..n]);
    var d := AfterScheme(text, SCHEME);
    OkAccepted(d, header[11..n]);
    e := ParseOk(d);
  }

  /** A first read that brings a part of a success header only: no run is correct, however the rest arrives. */
  lemma {:induction false} SplitIsWrong(header: seq<char>, file: seq<char>, plan: seq<nat>)
    requires OkHeader(header) && First(header + file, plan) < |header|
    ensures !Correct(Respond(Start(), header + file, plan), file)
  {
    hide Dispatch, Respond, PendingMethod, PendingPath;
    var stream := header + file;
    var n := First(stream, plan);
    AtEveryPosition(header, 0, SCHEME + " OK ");
    assert stream[0..8] == SCHEME + " ";
    var s := FirstTurn(stream, plan);
    if 0 < n < SCHEME_SZ {
      FirstReadInScheme(stream, plan);
    } else if 0 < n {
      assert stream[..n] == header[..n];
      if n <= 11 { CutInStatus(stream, n); } else { CutInLength(header, n); }
      if s.c.inside { PendingIsWrong(header, file, s.c, n, plan[1..]); }
    }
  }

  // ---------------------------------------------------------------- a failure header in pieces

  const NOT_FOUND := "FILE_NOT_FOUND"

  /** The response the server sends for a missing file: 28 bytes. */
  function MissText(): (h: string)
    ensures |h| == 28 && HasAt(h, 0, SCHEME + " ") && HasAt(h, 8, NOT_FOUND) && h[22] == ' '
  {
    SCHEME + " " + NOT_FOUND + " 0" + END_SEQUENCE
  }

  /** No file-not-found can be found any more: the last character of the word is missing in the buffer. */
  ghost predicate Unfound(c: Client)
  {
    && c.stage != AtScheme && c.stage != AtNotFound && c.status != FileNotFound
    && (c.stage == AtMethod ==> c.headerPt == 8 && c.contentPt == 0 && NulFrom(c.buffer, 21))
  }

  lemma {:induction false} UnfoundWord(d: Client)
    requires NulFrom(d.buffer, 21)
    ensures NulFrom(ParseOk(d).buffer, 21)
  {
    hide TokenStart, TokenEnd;
  }

  lemma {:induction false} UnfoundFailure(e: Client)
    requires e.headerPt == 8 && NulFrom(e.buffer, 21) && e.stage == AtMethod
    ensures ParseFailure(e).stage != AtNotFound
  {
    assert e.buffer[8..22][13] == NUL && NOT_FOUND[13] == 'D';
    assert Strncmp(e.buffer, 8, NOT_FOUND) == Differs;
  }

  lemma {:induction false} UnfoundMethod(d: Client)
    requires d.stage == AtMethod && d.headerPt == 8 && NulFrom(d.buffer, 21)
    requires d.status != FileNotFound && d.contentPt == 0
    ensures Unfound(ParseMethod(d))
  {
    hide ParseFailure;
    UnfoundWord(d);
    var e := ParseOk(d);
    if e.stage == AtMethod {
      UnfoundFailure(e);
    }
  }

  lemma {:induction false} UnfoundBehind(d: Client)
    requires Unfound(d)
    ensures var s := Finish(Back(Step(d, 0))); s.c.status != FileNotFound && (s.r == 0 ==> Unfound(s.c))
  {
    hide NulFrom, ParseLength, ParsePath, ParseContent;
  }

  lemma {:induction false} UnfoundTurn(c: Client, chunk: seq<char>)
    requires Unfound(c) && |chunk| <= 21 && c.contentPt + |chunk| <= RDBUFSIZE
    ensures var s := Dispatch(Received(c, chunk)); s.c.status != FileNotFound && (s.r == 0 ==> Unfound(s.c))
  {
    hide ParseMethod, Back, Finish;
    var d := Received(c, chunk);
    if c.stage == AtMethod {
      assert NulFrom(d.buffer, 21);
      UnfoundMethod(d);
    }
    UnfoundBehind(Front(d).c);
  }

  lemma {:induction false} UnfoundRun(c: Client, incoming: seq<char>, plan: seq<nat>)
    requires Unfound(c) && |incoming| <= 21
    ensures Respond(c, incoming, plan).c.status != FileNotFound
    decreases |plan|
  {
    hide Dispatch, Received, NulFrom;
    if Requestable(c) {
      var n := ReadLength(plan, RequestSize(c), |incoming|);
      if 0 < n {
        UnfoundTurn(c, incoming[..n]);
        var s := Dispatch(Received(c, incoming[..n]));
        if s.r == 0 { UnfoundRun(s.c, incoming[n..], plan[1..]); }
      }
    }
  }

  /** The client when the failure word has arrived up to its last character at most. */
  function WordPending(n: nat): Client
    requires 9 <= n <= 22
  {
    AfterFirst(MissText()[..n]).(buffer := Filled(MissText()[..n])[7 := NUL], token := if n <= 11 then 8 else n,
                                 headerPt := 8, stage := AtMethod)
  }

  lemma {:induction false} CutInWord(n: nat)
    requires 9 <= n <= 22
    ensures Dispatch(AfterFirst(MissText()[..n])) == Step(WordPending(n), 0)
  {
    hide ParseScheme, ParseOk, ParseFailure;
    var text, word := MissText()[..n], NOT_FOUND[..n - 8];
    var f := FailRead(SCHEME, word, []);
    assert text == SCHEME + " " + word == Text(f) by {
      assert word + [] == word;
      assert MissText()[..8] == SCHEME + " ";
      assert MissText()[8..n] == MissText()[8..22][..n - 8] == word;
    }
    PrefixOfNotFound(word);
    FailOfFirst(f);
    var c := AfterScheme(text, SCHEME);
    FailureWord(c, word, n - 8);
    assert c.buffer[n := NUL] == c.buffer;
  }

  lemma {:induction false} PrefixOfNotFound(word: string)
    requires word != [] && word <= NOT_FOUND
    ensures IsWord(word) && word != "OK" && !Decided(word, |word|)
    ensures IsScheme(SCHEME)
  {
    assert forall k :: 0 <= k < |word| ==> word[k] == NOT_FOUND[k];
    assert word[0] == 'F';
    if |word| >= 5 { assert word[..5][0] == 'F'; }
  }

  lemma {:induction false} WordInBuffer(chunk: seq<char>)
    requires 0 < |chunk| <= 6
    ensures var b := Over(WordPending(22).buffer, chunk);
            && b[8..22] == NOT_FOUND && StrtokAt(b, 22, ' ') == Some(Scan(false, 22, 22, 22, b))
  {
    var b := Over(WordPending(22).buffer, chunk);
    AtEveryPosition(MissText(), 8, NOT_FOUND);
    assert forall k :: 8 <= k < 22 ==> b[k] == MissText()[k];
    assert b[22] == NUL;
  }

  /** With the whole word pending, any further byte decides it. */
  lemma {:induction false} WordDecided(chunk: seq<char>)
    requires 0 < |chunk| <= 6
    ensures var s := Dispatch(Received(WordPending(22), chunk));
            s.c.inside && s.r == 1 && s.c.status == FileNotFound
  {
    hide StrtokAt, Over;
    var c := WordPending(22);
    ReceivedOver(c, chunk);
    WordInBuffer(chunk);
    var e := ParseOk(Received(c, chunk));
    assert I32(e.rx - 8) == 14 + |chunk|;
    assert Strncmp(e.buffer, 8, "FILE_NOT_FOUND") == Equal;
    assert Strncmp(e.buffer, 8, "ERROR") != Outside;
  }

  /** The rest of the response, when the first read ended inside the word or right behind it. */
  lemma {:induction false} MissInPieces(n: nat, plan: seq<nat>)
    requires 9 <= n <= 22
    ensures var run := Respond(WordPending(n), MissText()[n..], plan);
            run.c.inside && run.result == 0 && run.c.status == FileNotFound <==> n == 22 && plan != [] && plan[0] > 0
  {
    hide Dispatch, Respond, Received;
    var c, rest := WordPending(n), MissText()[n..];
    if n < 22 {
      assert NulFrom(c.buffer, 21);
      UnfoundRun(c, rest, plan);
    } else {
      var s := HeaderTurn(c, rest, plan);
      if 0 < First(rest, plan) { WordDecided(rest[..First(rest, plan)]); }
    }
  }

  lemma {:induction false} WholeWord(plan: seq<nat>)
    requires First(MissText(), plan) > 22
    ensures var run := Respond(Start(), MissText(), plan);
            && run.c.inside && run.result == 0 && run.c.status == FileNotFound
            && run.rest == MissText()[First(MissText(), plan)..]
  {
    hide Respond;
    var text, n := MissText(), First(MissText(), plan);
    var f := FailRead(SCHEME, NOT_FOUND, text[22..n]);
    PrefixOfNotFound(NOT_FOUND);
    assert text[..8] == SCHEME + " " && text[8..22] == NOT_FOUND;
    assert text[..n] == Text(f);
    FailureIffDecided(f, text, plan);
    assert BeginsWith(NOT_FOUND, NOT_FOUND);
  }

  lemma {:induction false} SchemeUnfound(text: seq<char>)
    requires |text| <= 11
    ensures Unfound(SchemeAlone(text))
  {
  }

  /** While the response to a missing file is read, no word can be taken for OK: there is no K in the buffer, and little
      else. */
  ghost predicate Steady(c: Client, taken: nat)
  {
    && ClientCounts.Parsing(c, taken) && c.inside && c.stage in {AtScheme, AtMethod} && c.rx == taken <= 28
    && 'K' !in c.buffer && NulFrom(c.buffer, 28) && c.headerPt <= 29 && c.token <= 28
  }

  lemma {:induction false} ScanSteady(b: Buffer, from: nat)
    requires 'K' !in b && NulFrom(b, 28) && from <= 28
    ensures var k := StrtokAt(b, from, ' ');
            && k.Some? && 'K' !in k.value.after && NulFrom(k.value.after, 28)
            && k.value.end <= 28 && k.value.next <= 28 && k.value.after[k.value.start..k.value.end] != "OK"
  {
    assert b[28] == NUL;
    assert TokenStart(b, from, ' ') <= 28;
    var k := StrtokAt(b, from, ' ').value;
    assert forall x :: 0 <= x < RDBUFSIZE ==> k.after[x] == b[x] || k.after[x] == NUL;
    var word := k.after[k.start..k.end];
    if |word| == 2 { assert word[1] == k.after[k.start + 1]; }
  }

  lemma {:induction false} SchemeSteady(d: Client, taken: nat)
    requires Steady(d, taken) && d.stage == AtScheme
    ensures var s := ParseScheme(d); Steady(s.c, taken)
  {
    hide StrtokAt, NulFrom;
    ScanSteady(d.buffer, 0);
  }

  lemma {:induction false} MethodSteady(d: Client, taken: nat)
    requires Steady(d, taken) && d.stage == AtMethod
    ensures var e := ParseMethod(d);
            && e.inside && (e.stage == AtMethod ==> Steady(e, taken)) && e.stage in {AtMethod, AtError, AtNotFound}
            && e.headers == []
  {
    hide StrtokAt, NulFrom;
    ScanSteady(d.buffer, d.token);
  }

  lemma {:induction false} SteadyTurn(d: Client, taken: nat)
    requires Steady(d, taken)
    ensures var s := Dispatch(d);
            && s.c.inside && s.c.headers == [] && (s.r == 0 ==> Steady(s.c, taken))
  {
    hide ParseScheme, ParseMethod;
    if d.stage == AtScheme { SchemeSteady(d, taken); }
    var s := if d.stage == AtScheme then ParseScheme(d) else Step(d, 0);
    if s.c.stage == AtMethod { MethodSteady(s.c, taken); }
  }

  lemma {:induction false} SteadyReceived(c: Client, taken: nat, chunk: seq<char>)
    requires Steady(c, taken) && taken + |chunk| <= 28 && 'K' !in chunk
    ensures Steady(Received(c, chunk), taken + |chunk|)
  {
    ReceivedOver(c, chunk);
    var b := Over(c.buffer, chunk);
    assert forall x :: 0 <= x < RDBUFSIZE ==> b[x] == if x < |chunk| then chunk[x] else c.buffer[x];
    ClientCounts.ReceivedParsing(c, taken, chunk);
  }

  lemma {:induction false} SteadyRun(c: Client, incoming: seq<char>, taken: nat, plan: seq<nat>)
    requires Steady(c, taken) && taken + |incoming| <= 28 && 'K' !in incoming
    ensures Respond(c, incoming, plan).c.inside && Respond(c, incoming, plan).c.headers == []
    decreases |plan|
  {
    hide Dispatch, Respond, Received, NulFrom;
    var s := HeaderTurn(c, incoming, plan);
    var n := First(incoming, plan);
    if 0 < n {
      assert forall x :: x in incoming[..n] || x in incoming[n..] ==> x in incoming;
      SteadyReceived(c, taken, incoming[..n]);
      SteadyTurn(Received(c, incoming[..n]), taken + n);
      if s.r == 0 { SteadyRun(s.c, incoming[n..], taken + n, plan[1..]); }
    }
  }

  /** Whatever the reads, the client stays in its buffer on the response to a missing file, calls nothing back, and counts
      the bytes it took, with no length. */
  lemma {:induction false} MissCounts(plan: seq<nat>)
    ensures var run := Respond(Start(), MissText(), plan);
            && run.c.inside && run.c.headers == [] && run.c.written == []
            && run.c.total == 28 - |run.rest| && run.c.bytesWritten == 0
            && (run.result == 0 ==> run.c.fileLength == 0 && run.c.status in {FileNotFound, Error})
  {
    hide Respond;
    assert 'K' !in MissText();
    SteadyRun(Start(), MissText(), 0, plan);
    ClientCounts.FailureCounts(MissText(), plan);
  }

  /** A missing file is recognised exactly when the first read brings more than the word, or just the word and another
      read brings anything at all. However the response arrives the client stays in its buffer, calls nothing back, and
      counts the bytes it took; when it ends without failure the length is 0. */
  lemma {:induction false} MissIff(plan: seq<nat>)
    ensures var run, n := Respond(Start(), MissText(), plan), First(MissText(), plan);
            && (run.result == 0 && run.c.status == FileNotFound <==>
                  n > 22 || (n == 22 && |plan| > 1 && plan[1] > 0))
            && run.c.inside && run.c.headers == [] && run.c.written == []
            && run.c.total == 28 - |run.rest| && (n > 22 ==> run.c.total == n)
            && (run.result == 0 ==> run.c.fileLength == 0 && run.c.status in {FileNotFound, Error})
  {
    MissCounts(plan);
    hide Dispatch, Respond, Received, Filled, NulFrom;
    var text := MissText();
    var n := First(text, plan);
    var s := FirstTurn(text, plan);
    if n <= 0 {
    } else if n < SCHEME_SZ {
      FirstReadInScheme(text, plan);
    } else if n <= 8 {
      CutInStatus(text, n);
      SchemeUnfound(text[..n]);
      UnfoundRun(s.c, text[n..], plan[1..]);
    } else if n <= 22 {
      CutInWord(n);
      MissInPieces(n, plan[1..]);
    } else {
      WholeWord(plan);
    }
  }
}
