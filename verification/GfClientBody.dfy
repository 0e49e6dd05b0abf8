/** Whole runs of the client on a stream that begins with a whole header, or with none. */
module ClientBody {
  import opened Wrappers
  import opened Decimal
  import opened GetFile
  import opened ClientModel
  import opened ClientReads

  // ---------------------------------------------------------------- the body

  /** Between reads of the body: everything received was handed on. */
  ghost predicate HandedOn(c: Client)
  {
    c.inside && c.stage == AtContent && c.rx == c.contentPt <= RDBUFSIZE
  }

  /** The counters agree with what was handed on, there is room for more, and the file is not complete. */
  ghost predicate Streaming(c: Client)
  {
    && HandedOn(c) && c.contentPt < RDBUFSIZE
    && c.total == c.bytesWritten == |c.written|
    && (c.bytesWritten < c.fileLength || c.bytesWritten == 0)
    && c.fileLength < 0x8000_0000
  }

  ghost predicate AllPositive(plan: seq<nat>)
  {
    forall k :: 0 <= k < |plan| ==> 0 < plan[k]
  }

  /** No read fails and there are enough of them, even if each one brings a single byte. */
  ghost predicate Patient(plan: seq<nat>, length: nat)
  {
    AllPositive(plan) && length + 1 < |plan|
  }

  /** A read of the body is handed on whole; the transfer is complete exactly at the announced length. */
  lemma {:induction false} ContentTurn(c: Client, chunk: seq<char>)
    requires HandedOn(c) && 0 < |chunk| && c.contentPt + |chunk| <= RDBUFSIZE
    ensures var s := Dispatch(Received(c, chunk));
            var w := (c.bytesWritten + |chunk|) % 0x1_0000_0000;
            && s.c.inside && s.c.written == c.written + chunk
            && s.c.bytesWritten == w && s.c.total == (c.total + |chunk|) % 0x1_0000_0000
            && s.c.rx == s.c.contentPt == (c.contentPt + |chunk|) % 8192
            && s.c.status == c.status && s.c.fileLength == c.fileLength && s.c.headers == c.headers
            && (if w >= c.fileLength then s.r == 1 else s.r == 0 && s.c.stage == AtContent)
  {
    var d := Received(c, chunk);
    assert d.buffer[d.contentPt..d.rx] == chunk;
    assert Front(d) == Step(d, 0) && Back(Step(d, 0)) == Step(d, 0);
  }

  /** Whatever the announced length and the reads: what has been handed on and what is left make up the stream. */
  lemma {:induction false} NothingLost(c: Client, incoming: seq<char>, plan: seq<nat>)
    requires HandedOn(c)
    ensures var run := Respond(c, incoming, plan);
            && (run.result == 0 || run.result == -1)
            && (run.c.inside ==> c.written <= run.c.written && run.c.written + run.rest == c.written + incoming
                                 && run.c.status == c.status && run.c.headers == c.headers)
    decreases |plan|
  {
    if Requestable(c) {
      var n := ReadLength(plan, RequestSize(c), |incoming|);
      if 0 < n {
        ContentTurn(c, incoming[..n]);
        var s := Dispatch(Received(c, incoming[..n]));
        assert (c.written + incoming[..n]) + incoming[n..] == c.written + incoming;
        if s.r == 0 { NothingLost(s.c, incoming[n..], plan[1..]); }
      }
    }
  }

  /** A read of the body asks for a positive amount of a file that has any, within the buffer and within the file. */
  lemma {:induction false} BodyRequest(c: Client)
    requires Streaming(c)
    ensures Requestable(c)
    ensures var room, left := 8192 - c.contentPt, c.fileLength - c.bytesWritten;
            RequestSize(c) == if room <= left then room else left
    ensures c.bytesWritten + RequestSize(c) <= c.fileLength
    ensures 0 < RequestSize(c) <==> 0 < c.fileLength
  {
  }

  lemma {:induction false} StreamingTurn(c: Client, chunk: seq<char>)
    requires Streaming(c) && 0 < |chunk| <= RequestSize(c)
    ensures c.contentPt + |chunk| <= RDBUFSIZE
    ensures var s := Dispatch(Received(c, chunk));
            && s.c.inside && s.c.fileLength == c.fileLength
            && s.c.total == s.c.bytesWritten == |s.c.written| == |c.written| + |chunk| <= c.fileLength
            && (if s.c.bytesWritten == c.fileLength then s.r == 1 else s.r == 0 && Streaming(s.c))
  {
    hide Dispatch, Received;
    BodyRequest(c);
    ContentTurn(c, chunk);
  }

  /** The body, from any point on: the run stays inside the buffer, never takes more than the announced length, and
      succeeds exactly when that has arrived; it stops short only at a failed read or at the end of the stream. */
  lemma {:induction false} BodyRun(c: Client, incoming: seq<char>, plan: seq<nat>)
    requires Streaming(c)
    ensures var run := Respond(c, incoming, plan);
            && run.c.inside && run.c.fileLength == c.fileLength
            && run.c.total == run.c.bytesWritten == |run.c.written| <= c.fileLength
            && (run.result == 0 <==> 0 < |run.c.written| && |run.c.written| == c.fileLength)
            && (run.result == -1 && !run.failed && 0 < c.fileLength ==> run.rest == [])
    decreases |plan|
  {
    hide Dispatch, Received;
    BodyRequest(c);
    var n := ReadLength(plan, RequestSize(c), |incoming|);
    if 0 < n {
      StreamingTurn(c, incoming[..n]);
      var s := Dispatch(Received(c, incoming[..n]));
      if s.r == 0 { BodyRun(s.c, incoming[n..], plan[1..]); }
    }
  }

  /** With more positive entries in the plan than bytes to come no read fails. */
  lemma {:induction false} PatientBody(c: Client, incoming: seq<char>, plan: seq<nat>)
    requires Streaming(c) && AllPositive(plan) && c.fileLength - c.bytesWritten < |plan|
    ensures !Respond(c, incoming, plan).failed
    decreases |plan|
  {
    hide Dispatch, Received;
    BodyRequest(c);
    var n := ReadLength(plan, RequestSize(c), |incoming|);
    if 0 < n {
      StreamingTurn(c, incoming[..n]);
      var s := Dispatch(Received(c, incoming[..n]));
      if s.r == 0 { PatientBody(s.c, incoming[n..], plan[1..]); }
    }
  }

  // ---------------------------------------------------------------- the first read

  /** The length of the first read of a response. */
  function First(stream: seq<char>, plan: seq<nat>): (n: int)
    ensures -1 <= n <= RDBUFSIZE && n <= |stream|
  {
    ReadLength(plan, RDBUFSIZE, |stream|)
  }

  /** How a run goes on after a turn. */
  function GoOn(s: Step, rest: seq<char>, plan: seq<nat>): Run
  {
    if s.r == 1 then Run(0, s.c, rest, false)
    else if s.r < 0 || !s.c.inside then Run(s.r, s.c, rest, false)
    else Respond(s.c, rest, plan)
  }

  /** A turn of the loop while the header is not parsed: the read is for the whole buffer. */
  lemma {:induction false} HeaderTurn(c: Client, incoming: seq<char>, plan: seq<nat>) returns (s: Step)
    requires c.contentPt == 0 && !PastHeader(c.stage)
    ensures var n := First(incoming, plan);
            if n <= 0 then Respond(c, incoming, plan) == Run(-1, c, incoming, n < 0)
            else
              && plan != [] && s == Dispatch(Received(c, incoming[..n]))
              && Respond(c, incoming, plan) == GoOn(s, incoming[n..], plan[1..])
  {
    var n := First(incoming, plan);
    assert RequestSize(c) == RDBUFSIZE;
    s := if n <= 0 then Step(c, 0) else Dispatch(Received(c, incoming[..n]));
  }

  /** A run begins with its first read. */
  lemma {:induction false} FirstTurn(stream: seq<char>, plan: seq<nat>) returns (s: Step)
    ensures var n := First(stream, plan);
            if n <= 0 then Respond(Start(), stream, plan) == Run(-1, Start(), stream, n < 0)
            else
              && plan != [] && s == Dispatch(AfterFirst(stream[..n]))
              && Respond(Start(), stream, plan) == GoOn(s, stream[n..], plan[1..])
  {
    var n := First(stream, plan);
    s := HeaderTurn(Start(), stream, plan);
    if 0 < n { FirstReceived(stream[..n]); }
  }

  /** The client behind the scheme of a first read. */
  function AfterScheme(text: seq<char>, scheme: string): Client
    requires |scheme| < |text| <= RDBUFSIZE
  {
    var h := |scheme| + 1;
    AfterFirst(text).(buffer := Filled(text)[h - 1 := NUL], token := h, headerPt := h, stage := AtMethod)
  }

  /** The client behind OK. */
  function AfterOk(f: FirstRead): Client
    requires f.OkRead? && |Text(f)| <= RDBUFSIZE
  {
    var h := LengthStart(f.scheme);
    AfterScheme(Text(f), f.scheme).(buffer := Filled(Text(f))[|f.scheme| := NUL][h - 1 := NUL], token := h,
                                    headerPt := h, lengthStart := h, stage := AtLength, status := Ok)
  }

  lemma {:induction false} SchemeOfFirst(text: seq<char>, scheme: string, more: seq<char>)
    requires text == scheme + " " + more && |text| <= RDBUFSIZE && IsScheme(scheme)
    ensures ParseScheme(AfterFirst(text)) == Step(AfterScheme(text, scheme), 0)
    ensures HasAt(AfterScheme(text, scheme).buffer, |scheme| + 1, more)
  {
    FirstReceived(text);
    SchemeAccepted(AfterFirst(text), scheme, more);
  }

  /** Length, spaces and what follows, as one text. */
  function Fields(f: FirstRead): seq<char>
    requires f.OkRead?
  {
    f.digits + Blanks(f.blanks) + f.tail
  }

  lemma {:induction false} OkOfFirst(f: FirstRead)
    requires f.OkRead? && WellFormed(f)
    ensures Front(AfterFirst(Text(f))) == Step(AfterOk(f), 0)
    ensures HasAt(AfterOk(f).buffer, LengthStart(f.scheme), Fields(f))
  {
    SchemeOfFirst(Text(f), f.scheme, "OK" + " " + Fields(f));
    OkAccepted(AfterScheme(Text(f), f.scheme), Fields(f));
  }

  lemma {:induction false} OkLaidOut(f: FirstRead)
    requires f.OkRead? && WellFormed(f) && HasAt(AfterOk(f).buffer, LengthStart(f.scheme), Fields(f))
    ensures LaidOut(AfterOk(f).buffer, LengthStart(f.scheme), f.digits, f.blanks, f.tail)
    ensures AfterOk(f).buffer[..HeaderLength(f)] == HeaderSeen(f)
    ensures |Text(f)| == LengthStart(f.scheme) + |f.digits| + f.blanks + |f.tail|
  {
    hide LaidOut;
    LaidOutAt(AfterOk(f).buffer, LengthStart(f.scheme), f.digits, f.blanks, f.tail);
    var text := Text(f);
    PrefixOverwritten(text, Filled(text), |f.scheme|, |f.scheme| + 3, HeaderLength(f));
  }

  lemma {:induction false} PrefixOverwritten(text: seq<char>, b: seq<char>, i: nat, j: nat, n: nat)
    requires i < n && j < n <= |text| <= |b| && b[..|text|] == text
    ensures b[i := NUL][j := NUL][..n] == text[..n][i := NUL][j := NUL]
  {
    assert b[..n] == b[..|text|][..n];
  }

  /** The client behind a whole success header. */
  function AfterHeader(f: FirstRead): Client
    requires f.OkRead? && WellFormed(f)
  {
    var h := HeaderLength(f);
    AfterOk(f).(fileLength := ValueOf(f.digits), fileLengthValid := true, stage := AtContent, headerPt := h,
                contentPt := h, headers := [HeaderSeen(f)], total := |f.tail| - ENDSEQ)
  }

  lemma {:induction false} ContentLaidOut(f: FirstRead)
    requires f.OkRead? && WellFormed(f)
    requires LaidOut(AfterOk(f).buffer, LengthStart(f.scheme), f.digits, f.blanks, f.tail)
    ensures HeaderLength(f) <= |Text(f)| && AfterOk(f).buffer[HeaderLength(f)..|Text(f)|] == f.tail[ENDSEQ..]
  {
  }

  lemma {:induction false} HeaderOfFirst(f: FirstRead)
    requires f.OkRead? && WellFormed(f)
    ensures var t := Back(Front(AfterFirst(Text(f))));
            if EndsRight(f) then t == Step(AfterHeader(f), 0)
            else && t.c.inside && t.c.stage == AtPath && t.r == -1 && t.c.fileLength == ValueOf(f.digits)
                 && t.c.status == Error && t.c.written == [] && t.c.headers == []
    ensures var d := AfterHeader(f); d.rx <= RDBUFSIZE && d.buffer[d.contentPt..d.rx] == f.tail[ENDSEQ..]
  {
    hide Front, Back, LaidOut, Text;
    OkOfFirst(f);
    OkLaidOut(f);
    ContentLaidOut(f);
    LengthParsed(AfterOk(f), f.digits, f.blanks, f.tail);
  }

  /** The content stage, from a client right behind the header. */
  lemma {:induction false} FirstContent(c: Client)
    requires c.inside && c.stage == AtContent && c.contentPt <= c.rx <= RDBUFSIZE && c.contentPt < RDBUFSIZE
    requires c.bytesWritten == 0 && c.written == [] && c.total == c.rx - c.contentPt && c.fileLength < 0x8000_0000
    ensures var s := Finish(Step(c, 0));
            && s.c.inside && s.c.status == c.status && s.c.fileLength == c.fileLength && s.c.headers == c.headers
            && s.c.written == c.buffer[c.contentPt..c.rx] && s.c.total == s.c.bytesWritten == |s.c.written|
            && (if s.c.written != [] && |s.c.written| >= s.c.fileLength then s.r == 1 else s.r == 0 && Streaming(s.c))
  {
  }

  lemma {:induction false} OkDispatch(f: FirstRead)
    requires f.OkRead? && WellFormed(f)
    ensures var s := Dispatch(AfterFirst(Text(f)));
            && s.c.inside
            && if EndsRight(f) then
                 && s.c.status == Ok && s.c.fileLength == ValueOf(f.digits)
                 && s.c.written == f.tail[ENDSEQ..] && s.c.headers == [HeaderSeen(f)]
                 && s.c.total == s.c.bytesWritten == |s.c.written|
                 && (if s.c.written != [] && |s.c.written| >= s.c.fileLength then s.r == 1
                     else s.r == 0 && Streaming(s.c))
               else && s.r == -1 && s.c.status == Error && s.c.written == [] && s.c.headers == []
                    && s.c.fileLength == ValueOf(f.digits)
  {
    HeaderOfFirst(f);
    if EndsRight(f) { FirstContent(AfterHeader(f)); }
  }

  lemma {:induction false} FailOfFirst(f: FirstRead)
    requires f.FailRead? && WellFormed(f)
    ensures var c, n := AfterScheme(Text(f), f.scheme), |f.word| + |f.rest|;
            && ParseScheme(AfterFirst(Text(f))) == Step(c, 0)
            && HasAt(c.buffer, c.headerPt, f.word) && c.headerPt + |f.word| < RDBUFSIZE
            && c.buffer[c.headerPt + |f.word|] == (if |f.word| == n then NUL else ' ')
  {
    var b, h := AfterScheme(Text(f), f.scheme).buffer, |f.scheme| + 1;
    SchemeOfFirst(Text(f), f.scheme, f.word + f.rest);
    AtEveryPosition(b, h, f.word + f.rest);
    PartAt(b, h, f.word + f.rest, 0, |f.word|);
    assert (f.word + f.rest)[0..|f.word|] == f.word;
  }

  /** Another word than OK: decided exactly with enough behind the scheme. */
  lemma {:induction false} FailDispatch(f: FirstRead)
    requires f.FailRead? && WellFormed(f)
    ensures var s := Dispatch(AfterFirst(Text(f)));
            && s.c.inside && s.c.written == [] && s.c.headers == []
            && (if Decided(f.word, |f.word| + |f.rest|) then s.r == 1 && s.c.status == FailStatus(f.word)
                else s.r == 0 && s.c.status == Invalid && s.c.stage == AtMethod && s.c.contentPt == 0)
  {
    FailOfFirst(f);
    FailureWord(AfterScheme(Text(f), f.scheme), f.word, |f.word| + |f.rest|);
  }

  // ---------------------------------------------------------------- whole runs

  lemma {:induction false} SchemeRejected(d: Client)
    requires d.inside && d.stage == AtScheme && SCHEME_SZ <= d.rx
    requires StrtokAt(d.buffer, 0, ' ').Some? && d.buffer[..SCHEME_SZ] != SCHEME
    ensures var s := Dispatch(d);
            s.r == -1 && s.c == d.(buffer := s.c.buffer, token := s.c.token)
  {
    SchemeIff(d);
  }

  /** A text that does not begin with the scheme is rejected. */
  lemma {:induction false} ForeignRejected(stream: seq<char>, plan: seq<nat>)
    requires SCHEME_SZ <= First(stream, plan)
    requires StrtokAt(Filled(stream[..First(stream, plan)]), 0, ' ').Some?
    requires stream[..SCHEME_SZ] != SCHEME
    ensures var run := Respond(Start(), stream, plan);
            && run.c.inside && run.result == -1 && !run.failed
            && run.c.status == Invalid && run.c.written == [] && run.c.headers == []
  {
    var n := First(stream, plan);
    var s := FirstTurn(stream, plan);
    var c := AfterFirst(stream[..n]);
    assert c.buffer[..SCHEME_SZ] == stream[..SCHEME_SZ];
    SchemeRejected(c);
  }

  /** One read with another word than OK in the place of the status, and nothing behind it: the run ends with result 0
      exactly when more than fourteen bytes follow the scheme and its space, or more than five that begin with ERROR;
      otherwise the client waits for more and fails. With enough bytes, whatever follows, the status is FILE_NOT_FOUND
      exactly for a word that begins so and an error for every other word. */
  lemma {:induction false} FailureIffDecided(f: FirstRead, stream: seq<char>, plan: seq<nat>)
    requires f.FailRead? && WellFormed(f) && 0 < First(stream, plan) && stream[..First(stream, plan)] == Text(f)
    ensures var run := Respond(Start(), stream, plan);
            var n := |f.word| + |f.rest|;
            && (Decided(f.word, n) ==>
                  && run.c.inside && run.result == 0
                  && run.c.status == (if BeginsWith(f.word, "FILE_NOT_FOUND") then FileNotFound else Error)
                  && run.c.written == [] && run.c.headers == [] && run.rest == stream[First(stream, plan)..])
            && (stream == Text(f) ==>
                  && run.c.inside && run.c.written == [] && run.c.headers == []
                  && (run.result == 0 <==> n > 14 || (n > 5 && BeginsWith(f.word, "ERROR")))
                  && (run.result != 0 ==> run.result == -1 && run.c.status == Invalid))
  {
    hide Dispatch, WellFormed;
    var s := FirstTurn(stream, plan);
    FailDispatch(f);
    if stream == Text(f) { assert stream[First(stream, plan)..] == []; }
  }

  /** A gap of more than one space in front of OK: the position of the length is counted from the length of the word,
      so it is not found, and the response is an error. */
  lemma {:induction false} GapFails(scheme: string, gap: nat, more: seq<char>, stream: seq<char>, plan: seq<nat>)
    requires IsScheme(scheme) && 1 <= gap && 4 <= |more| && 0 < First(stream, plan)
    requires stream[..First(stream, plan)] == scheme + " " + (Blanks(gap) + "OK" + " " + more)
    ensures var run := Respond(Start(), stream, plan);
            && run.c.inside && run.result == -1 && run.c.status == Error && run.c.fileLength == 0
            && run.c.written == [] && run.c.headers == []
  {
    hide Respond, Dispatch;
    var text := scheme + " " + (Blanks(gap) + "OK" + " " + more);
    var s := FirstTurn(stream, plan);
    SchemeOfFirst(text, scheme, Blanks(gap) + "OK" + " " + more);
    var d := AfterScheme(text, scheme);
    var e := GapParsed(d, gap, more);
    GapDispatch(AfterFirst(text), d, e);
  }

  lemma {:induction false} GapDispatch(c: Client, d: Client, e: Client)
    requires c.stage == AtScheme && ParseScheme(c) == Step(d, 0) && d.stage == AtMethod
    requires ParseOk(d) == e && e.stage == AtLength && Back(Step(e, 0)).r == -1 && Back(Step(e, 0)).c.stage == AtPath
    ensures Dispatch(c) == Back(Step(e, 0))
  {
    hide ParseScheme, ParseOk, Back;
  }

  /** The stages behind the scheme. */
  lemma {:induction false} GapParsed(d: Client, gap: nat, more: seq<char>) returns (e: Client)
    requires d.inside && d.stage == AtMethod && d.token == d.headerPt && d.written == [] && d.headers == []
    requires HasAt(d.buffer, d.headerPt, Blanks(gap) + "OK" + " " + more) && 1 <= gap && 4 <= |more|
    requires d.rx == d.headerPt + gap + 3 + |more| <= RDBUFSIZE
    ensures e == ParseOk(d) && e.stage == AtLength
    ensures var t := Back(Step(e, 0));
            && t.r == -1 && t.c.inside && t.c.stage == AtPath && t.c.status == Error && t.c.fileLength == 0
            && t.c.written == [] && t.c.headers == []
  {
    hide ParseOk, Back, HasAt, Blanks;
    e := ParseOk(d);
    GapOk(d, gap, more);
    GapCells(d.buffer, d.headerPt, gap, more);
    GapLength(e, if gap >= 4 then d.headerPt + gap else d.headerPt + 3);
  }

  lemma {:induction false} GapOk(d: Client, gap: nat, more: seq<char>)
    requires d.stage == AtMethod && d.token == d.headerPt && 1 <= gap
    requires HasAt(d.buffer, d.headerPt, Blanks(gap) + "OK" + " " + more)
    requires d.rx == d.headerPt + gap + 3 + |more| <= RDBUFSIZE
    ensures var h, end := d.headerPt + 3, d.headerPt + gap + 2;
            && end < RDBUFSIZE
            && ParseOk(d) == d.(buffer := d.buffer[end := NUL], token := end + 1, headerPt := h, lengthStart := h,
                                stage := AtLength, status := Ok)
  {
    hide StrtokAt, HasAt, Blanks;
    GapToken(d.buffer, d.headerPt, gap, "OK", more);
  }

  /** What stands where the length is looked for. */
  lemma {:induction false} GapCells(b: Buffer, at: nat, gap: nat, more: seq<char>)
    requires HasAt(b, at, Blanks(gap) + "OK" + " " + more) && 1 <= gap && 4 <= |more|
    ensures var e := at + gap + 2;
            var h := if gap >= 4 then at + gap else at + 3;
            && e < RDBUFSIZE && h + 4 <= RDBUFSIZE && h + 4 <= at + gap + 3 + |more|
            && var after: Buffer := b[e := NUL];
               && !IsDigit(after[at + 3])
               && (forall x :: at + 3 <= x < h ==> after[x] == ' ') && after[h] in ['O', 'K', NUL]
  {
    var text := Blanks(gap) + "OK" + " " + more;
    AtEveryPosition(b, at, text);
    assert text[gap] == 'O' && text[gap + 1] == 'K' && text[gap + 2] == ' ';
    assert forall x :: 0 <= x < gap ==> text[x] == ' ';
  }

  lemma {:induction false} GapLength(e: Client, h: nat)
    requires e.inside && e.stage == AtLength && e.lengthStart == e.headerPt <= h && h + 4 <= e.rx <= RDBUFSIZE
    requires !IsDigit(e.buffer[e.headerPt]) && e.written == [] && e.headers == []
    requires (forall x :: e.headerPt <= x < h ==> e.buffer[x] == ' ') && e.buffer[h] in ['O', 'K', NUL]
    ensures var t := Back(Step(e, 0));
            && t.r == -1 && t.c.inside && t.c.stage == AtPath && t.c.status == Error && t.c.fileLength == 0
            && t.c.written == [] && t.c.headers == []
  {
    DigitsStop(e.buffer, e.headerPt, e.headerPt, e.rx);
    SpacesEnd(e.buffer, e.headerPt, h);
    var g := ParseLength(e);
    assert e.buffer[e.headerPt..e.headerPt] == "";
    AtoiOfDigits("");
    var f := ReadLengthField(g);
    assert f.buffer[h..h + 4][0] != END_SEQUENCE[0];
    assert Strncmp(f.buffer, h, END_SEQUENCE) == Differs;
  }

  /** A success header that does not end right is an error. */
  lemma {:induction false} WrongEndRejected(f: FirstRead, stream: seq<char>, plan: seq<nat>)
    requires f.OkRead? && WellFormed(f) && 0 < First(stream, plan) && stream[..First(stream, plan)] == Text(f)
    requires !EndsRight(f)
    ensures var run := Respond(Start(), stream, plan);
            && run.c.inside && run.result == -1 && !run.failed
            && run.c.status == Error && run.c.written == [] && run.c.headers == []
            && run.c.fileLength == ValueOf(f.digits)
  {
    var s := FirstTurn(stream, plan);
    OkDispatch(f);
  }

  /** The first turn on a whole success header: the client c goes on with the body, or is done. */
  lemma {:induction false} SuccessTurn(f: FirstRead, stream: seq<char>, plan: seq<nat>) returns (c: Client)
    requires f.OkRead? && WellFormed(f) && 0 < First(stream, plan) && stream[..First(stream, plan)] == Text(f)
    requires EndsRight(f)
    ensures c.inside && c.status == Ok && c.fileLength == ValueOf(f.digits)
    ensures c.written == f.tail[ENDSEQ..] && c.headers == [HeaderSeen(f)]
    ensures c.total == c.bytesWritten == |c.written|
    ensures plan != []
    ensures var run, rest := Respond(Start(), stream, plan), stream[First(stream, plan)..];
            if c.written != [] && |c.written| >= c.fileLength then run == Run(0, c, rest, false)
            else run == Respond(c, rest, plan[1..]) && Streaming(c)
  {
    var s := FirstTurn(stream, plan);
    OkDispatch(f);
    c := s.c;
  }

  lemma {:induction false} BodyFollows(f: FirstRead, stream: seq<char>, n: nat)
    requires f.OkRead? && |f.tail| >= ENDSEQ && n <= |stream| && stream[..n] == Text(f)
    ensures HeaderLength(f) <= |stream| && stream[HeaderLength(f)..] == f.tail[ENDSEQ..] + stream[n..]
  {
    var h := HeaderLength(f);
    assert Text(f)[h..] == f.tail[ENDSEQ..];
    assert stream[h..] == stream[..n][h..] + stream[n..];
  }

  /** A success header that is whole in the first read, and the stream behind it fragmented in any way, ending or
      failing anywhere. What is handed on is a beginning of the body that has at least the part that came with the
      header, and no more than the announced length unless that part has more; it is counted right. Success is
      reported exactly when something was handed on and it is at least the announced length. */
  lemma {:induction false} SuccessRun(f: FirstRead, stream: seq<char>, plan: seq<nat>)
    requires f.OkRead? && WellFormed(f) && 0 < First(stream, plan) && stream[..First(stream, plan)] == Text(f)
    requires EndsRight(f)
    ensures HeaderLength(f) <= |stream|
    ensures var run := Respond(Start(), stream, plan);
            var length, first := ValueOf(f.digits), f.tail[ENDSEQ..];
            && run.c.inside && run.c.status == Ok && run.c.fileLength == length && run.c.headers == [HeaderSeen(f)]
            && run.c.written + run.rest == stream[HeaderLength(f)..]
            && first <= run.c.written && run.c.total == run.c.bytesWritten == |run.c.written|
            && |run.c.written| <= (if |first| <= length then length else |first|)
            && (run.result == 0 || run.result == -1)
            && (run.result == 0 <==> run.c.written != [] && |run.c.written| >= length)
            && (run.result == -1 && !run.failed && 0 < length ==> run.rest == [])
            && (Patient(plan, length) ==> !run.failed)
  {
    var rest := stream[First(stream, plan)..];
    var c := SuccessTurn(f, stream, plan);
    BodyFollows(f, stream, First(stream, plan));
    if c.written == [] || |c.written| < c.fileLength {
      NothingLost(c, rest, plan[1..]);
      BodyRun(c, rest, plan[1..]);
      if Patient(plan, c.fileLength) { PatientBody(c, rest, plan[1..]); }
    }
  }

  /** When a whole header leads to success, in terms of what is sent: a file of announced length zero is completed
      exactly when the first read brings a byte behind the header; any other exactly when the body has at least the
      announced length, if no read fails. */
  lemma {:induction false} SuccessIff(f: FirstRead, stream: seq<char>, plan: seq<nat>)
    requires f.OkRead? && WellFormed(f) && 0 < First(stream, plan) && stream[..First(stream, plan)] == Text(f)
    requires EndsRight(f)
    ensures var run := Respond(Start(), stream, plan);
            var length := ValueOf(f.digits);
            && (length == 0 ==> (run.result == 0 <==> |f.tail| > ENDSEQ))
            && (0 < length && !run.failed ==> (run.result == 0 <==> |stream| - HeaderLength(f) >= length))
  {
    SuccessRun(f, stream, plan);
    var run := Respond(Start(), stream, plan);
    assert |run.c.written| + |run.rest| == |stream| - HeaderLength(f);
    if ValueOf(f.digits) == 0 && |f.tail| == ENDSEQ {
      assert |run.c.written| <= 0;
    }
  }

  // ---------------------------------------------------------------- two headers the documentation calls invalid

  /** Thirteen bytes behind the scheme and another word than ERROR: the client waits for more and fails. */
  lemma {:induction false} ShortFailureFails(plan: seq<nat>)
    requires plan != [] && plan[0] >= 21
    ensures var run := Respond(Start(), "GETFILE INVALID 0\r\n\r\n", plan);
            run.c.inside && run.result == -1 && run.c.status == Invalid
  {
    hide Respond;
    var stream := "GETFILE INVALID 0\r\n\r\n";
    var f := FailRead("GETFILE", "INVALID", " 0\r\n\r\n");
    assert Text(f) == stream;
    assert f.scheme[..7] == SCHEME && "INVALID"[0] != "ERROR"[0];
    assert !BeginsWith("INVALID", "ERROR") by { assert "INVALID"[..5][0] == 'I'; }
    FailureIffDecided(f, stream, plan);
  }

  const LONG_SCHEME := "GETFILES OK 5\r\n\r\nhello"

  function LongScheme(): FirstRead
  {
    OkRead("GETFILES", "5", 0, END_SEQUENCE + "hello")
  }

  lemma {:induction false} LongSchemeText()
    ensures Text(LongScheme()) == LONG_SCHEME && HeaderLength(LongScheme()) == 17 && LONG_SCHEME[17..] == "hello"
  {
    assert "5" + Blanks(0) + (END_SEQUENCE + "hello") == "5" + END_SEQUENCE + "hello";
  }

  lemma {:induction false} LongSchemeForm()
    ensures WellFormed(LongScheme()) && EndsRight(LongScheme()) && ValueOf("5") == 5
  {
    hide Text;
    LongSchemeText();
    assert "5"[..0] == "";
    assert "GETFILES"[..7] == SCHEME && (END_SEQUENCE + "hello")[..4] == END_SEQUENCE;
  }

  /** A longer scheme passes. */
  lemma {:induction false} LongSchemeSucceeds(plan: seq<nat>)
    requires plan != [] && plan[0] >= 22
    ensures var run := Respond(Start(), LONG_SCHEME, plan);
            run.c.inside && run.result == 0 && run.c.status == Ok && run.c.written == "hello"
  {
    hide Respond, WellFormed, Text;
    LongSchemeText();
    LongSchemeForm();
    SuccessRun(LongScheme(), LONG_SCHEME, plan);
    SuccessIff(LongScheme(), LONG_SCHEME, plan);
    var run := Respond(Start(), LONG_SCHEME, plan);
    assert run.rest == [] && run.c.written + run.rest == run.c.written;
  }
}
