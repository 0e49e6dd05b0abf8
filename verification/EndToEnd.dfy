/** A whole GETFILE exchange: the client's request parsed by the server, the handler's response parsed by the client. */
module EndToEnd {
  import opened Wrappers
  import opened Decimal
  import opened GetFile
  import opened ClientModel
  import opened ClientReads
  import opened ClientBody
  import opened ClientSplit
  import ClientCounts
  import GfClient
  import GfServer
  import ServerModel
  import ServerReads
  import ServerSplit
  import Handler

  /** What a caller learns from the client. */
  datatype Outcome = Outcome(result: int, status: Status, fileLength: int, received: int, written: seq<char>)

  function OutcomeOf(run: Run): Outcome
  {
    Outcome(run.result, run.c.status, run.c.fileLength, run.c.total, run.c.written)
  }

  // ---------------------------------------------------------------- a header that is whole in the first read

  /** The first read of a response, as the client sees it. */
  function AsFirstRead(st: Status, length: nat, part: seq<char>): FirstRead
    requires st != Invalid
  {
    match st
    case Ok => OkRead(SCHEME, Print(length), 0, END_SEQUENCE + part)
    case FileNotFound => FailRead(SCHEME, StatusText(st), " " + Print(length) + END_SEQUENCE + part)
    case Error => FailRead(SCHEME, StatusText(st), " " + Print(length) + END_SEQUENCE + part)
  }

  lemma {:induction false} HeaderShort(length: nat)
    requires length < 0x8000_0000
    ensures 16 <= |HeaderText(Ok, length)| <= 25
  {
    assert Pow10(5) == 100_000 && Pow10(10) == 100_000 * Pow10(5);
    PrintLength(length, 10);
  }

  lemma {:induction false} StatusWords(st: Status)
    requires st == FileNotFound || st == Error
    ensures IsWord(StatusText(st)) && StatusText(st) != "OK" && FailStatus(StatusText(st)) == st
    ensures st == Error ==> BeginsWith(StatusText(st), "ERROR")
    ensures IsScheme(SCHEME)
  {
    assert SCHEME[..7] == SCHEME;
    if st == FileNotFound {
      assert StatusText(st)[..14] == "FILE_NOT_FOUND";
    } else {
      assert StatusText(st)[..5] == "ERROR";
    }
  }

  lemma {:induction false} Regrouped(a: string, b: string, w: string, d: string, e: string, part: seq<char>)
    ensures a + b + (w + (b + d + e + part)) == (a + b + w + b + d + e) + part
    ensures a + b + (w + b + (d + [] + (e + part))) == (a + b + w + b + d + e) + part
  {
    assert d + [] + (e + part) == d + e + part;
  }

  lemma {:induction false} TextOfHeader(st: Status, length: nat, part: seq<char>)
    requires st != Invalid
    ensures Text(AsFirstRead(st, length, part)) == HeaderText(st, length) + part
  {
    Regrouped(SCHEME, " ", StatusText(st), Print(length), END_SEQUENCE, part);
    assert Blanks(0) == [];
  }

  /** The printed header has the form the client parses, with the same status and number. */
  lemma {:induction false} HeaderIsFirstRead(st: Status, length: nat, part: seq<char>)
    requires st != Invalid && |HeaderText(st, length) + part| <= RDBUFSIZE
    requires st == Ok ==> length < 0x8000_0000
    ensures var f := AsFirstRead(st, length, part);
            && WellFormed(f) && Text(f) == HeaderText(st, length) + part
            && (st == Ok ==> EndsRight(f) && ValueOf(f.digits) == length && f.tail[ENDSEQ..] == part
                             && HeaderLength(f) == |HeaderText(st, length)|)
            && (st != Ok ==> FailStatus(f.word) == st && Decided(f.word, |f.word| + |f.rest|))
  {
    var f := AsFirstRead(st, length, part);
    TextOfHeader(st, length, part);
    if st == Ok {
      HeaderShort(length);
      PrintThenRead(length);
      assert SCHEME[..7] == SCHEME;
      assert f.tail[0] == '\r' && f.tail[..ENDSEQ] == END_SEQUENCE;
    } else {
      StatusWords(st);
    }
  }

  /** The response header survives: for each status, and for every length atoi can read, the client finds the status
      and the length the server printed, whatever follows and however it is fragmented, when the first read brings the
      whole header. */
  lemma {:induction false} HeaderSurvives(st: Status, length: nat, body: seq<char>, plan: seq<nat>)
    requires st != Invalid && (st == Ok ==> length < 0x8000_0000)
    requires |HeaderText(st, length)| <= First(HeaderText(st, length) + body, plan)
    ensures var header := HeaderText(st, length);
            var run, first := Respond(Start(), header + body, plan), First(header + body, plan) - |header|;
            && run.c.inside && run.c.status == st
            && (st != Ok ==>
                  && run.result == 0 && run.c.written == [] && run.c.headers == []
                  && run.c.fileLength == 0 && run.c.total == First(header + body, plan))
            && (st == Ok ==>
                  && run.c.fileLength == length && run.c.written + run.rest == body
                  && run.c.headers == ["GETFILE\0OK\0" + Print(length) + "\r\n\r\n"]
                  && run.c.total == |run.c.written| && first <= |run.c.written|
                  && |run.c.written| <= (if first <= length then length else first)
                  && (run.result == 0 || run.result == -1)
                  && (run.result == 0 <==> run.c.written != [] && |run.c.written| >= length)
                  && (run.result == -1 && !run.failed && 0 < length ==> run.rest == [])
                  && (Patient(plan, length) ==> !run.failed))
  {
    hide Respond, WellFormed, Text, EndsRight, IsScheme, Patient, HeaderText, ReadLength;
    var header := HeaderText(st, length);
    var stream := header + body;
    var n := First(stream, plan);
    var part := body[..n - |header|];
    var f := AsFirstRead(st, length, part);
    assert stream[..n] == header + part;
    HeaderIsFirstRead(st, length, part);
    HeaderNotEmpty(st, length);
    if st == Ok {
      SuccessRun(f, stream, plan);
      HeaderSeenLiteral(f);
      assert HeaderSeen(f) == "GETFILE\0OK\0" + Print(length) + "\r\n\r\n";
      assert stream[|header|..] == body;
    } else {
      FailureIffDecided(f, stream, plan);
      ClientCounts.FailureCounts(stream, plan);
      assert U32(n) == n;
    }
  }

  lemma {:induction false} HeaderNotEmpty(st: Status, length: nat)
    requires st != Invalid
    ensures 0 < |HeaderText(st, length)|
  {
  }

  // ---------------------------------------------------------------- exactly when an exchange is correct

  /** A file of any content is delivered whole and reported as success exactly when it is not empty, the first read
      brings at least the whole header, and no read fails. With a header in pieces the exchange is never correct,
      whatever the file and the reads. */
  lemma {:induction false} DeliveredIff(file: seq<char>, plan: seq<nat>)
    requires |file| < 0x8000_0000
    ensures var header := HeaderText(Ok, |file|);
            var run := Respond(Start(), header + file, plan);
            && (Correct(run, file) <==> file != [] && |header| <= First(header + file, plan) && !run.failed)
            && (file != [] && Patient(plan, |file|) ==>
                  (Correct(run, file) <==> |header| <= First(header + file, plan)))
  {
    hide Respond, OkHeader, Patient;
    var header := HeaderText(Ok, |file|);
    var run := Respond(Start(), header + file, plan);
    if |header| <= First(header + file, plan) {
      HeaderSurvives(Ok, |file|, file, plan);
      assert run.rest == [] ==> run.c.written + run.rest == run.c.written;
      assert |run.c.written| + |run.rest| == |file|;
      SuccessNotFailed(header + file, plan);
    } else {
      PrintedHeader(|file|);
      SplitIsWrong(header, file, plan);
    }
  }

  /** A run that succeeds had no failed read. */
  lemma {:induction false} SuccessNotFailed(stream: seq<char>, plan: seq<nat>)
    ensures Respond(Start(), stream, plan).result == 0 ==> !Respond(Start(), stream, plan).failed
  {
    RunNotFailed(Start(), stream, plan);
  }

  lemma {:induction false} RunNotFailed(c: Client, incoming: seq<char>, plan: seq<nat>)
    ensures Respond(c, incoming, plan).result == 0 ==> !Respond(c, incoming, plan).failed
    decreases |plan|
  {
    hide Dispatch, Received;
    if Requestable(c) {
      var n := ReadLength(plan, RequestSize(c), |incoming|);
      if 0 < n {
        var s := Dispatch(Received(c, incoming[..n]));
        if s.r == 0 { RunNotFailed(s.c, incoming[n..], plan[1..]); }
      }
    }
  }

  /** The source stays in its buffer when the first read brings nothing, ends inside the scheme, or brings the whole
      header. */
  lemma {:induction false} StaysInside(st: Status, length: nat, body: seq<char>, plan: seq<nat>)
    requires st != Invalid && (st == Ok ==> length < 0x8000_0000)
    requires var n := First(HeaderText(st, length) + body, plan); n < SCHEME_SZ || |HeaderText(st, length)| <= n
    ensures Respond(Start(), HeaderText(st, length) + body, plan).c.inside
  {
    var header := HeaderText(st, length);
    var n := First(header + body, plan);
    if |header| <= n {
      HeaderSurvives(st, length, body, plan);
    } else if n <= 0 {
      var s := FirstTurn(header + body, plan);
    } else {
      assert (header + body)[0..8] == SCHEME + " ";
      FirstReadInScheme(header + body, plan);
    }
  }

  // ---------------------------------------------------------------- the server's side

  /** The response when every write is complete: to a path with content header and file, otherwise the header alone. */
  function Response(content: map<string, seq<char>>, path: Option<string>): seq<char>
  {
    if path.Some? && path.value in content then HeaderText(Ok, |content[path.value]|) + content[path.value]
    else HeaderText(FileNotFound, 0)
  }

  /** What the server makes of a request: a path for the handler, or none when the request is refused. */
  function Taken(request: seq<char>, plan: seq<nat>): Option<string>
  {
    var run := ServerModel.Process(ServerModel.Start(), request, plan);
    if run.result == -1 then run.c.path else None
  }

  /** The source stays in its buffer, and the handler is not called without a path, which it would follow. */
  predicate Served(request: seq<char>, plan: seq<nat>)
  {
    var run := ServerModel.Process(ServerModel.Start(), request, plan);
    run.c.inside && (run.result == -1 ==> run.c.path.Some?)
  }

  /** The bytes of a response. */
  lemma {:induction false} ResponseLiterals(content: map<string, seq<char>>, path: Option<string>)
    ensures Response(content, path) ==
              if path.Some? && path.value in content then
                "GETFILE OK " + Print(|content[path.value]|) + "\r\n\r\n" + content[path.value]
              else "GETFILE FILE_NOT_FOUND 0\r\n\r\n"
  {
    if path.Some? && path.value in content {
      HeaderLiterals(|content[path.value]|);
    } else {
      HeaderLiterals(0);
    }
  }

  /** One connection of gfserver_serve, however the request arrives: the handler answers the path taken with header and
      file, or that there is none; a refused request is answered in the same way as a missing file. The server's writes
      are complete and its reads of the file deliver any positive number of bytes. */
  method ServeOne(s: Socket, content: map<string, seq<char>>, preads: seq<int>) returns (wire: seq<char>)
    requires Served(s.incoming, s.plan)
    requires forall k :: 0 <= k < |preads| ==> 0 < preads[k]
    modifies s
    ensures wire == Response(content, Taken(old(s.incoming), old(s.plan)))
    ensures var path := Taken(old(s.incoming), old(s.plan));
            wire ==
              if path.Some? && path.value in content then
                "GETFILE OK " + Print(|content[path.value]|) + "\r\n\r\n" + content[path.value]
              else "GETFILE FILE_NOT_FOUND 0\r\n\r\n"
  {
    ResponseLiterals(content, Taken(s.incoming, s.plan));
    var ctx := new GfServer.Context();
    var status := ctx.ProcessRequest(s);
    var c := new Handler.Connection([]);
    if status == -1 {
      var sent, h, m := Handler.HandleGet(c, content, ctx.path.value, preads);
      if ctx.path.value in content {
        ghost var file := content[ctx.path.value];
        assert c.sent[0..] == c.sent;
        assert HeaderText(Ok, |file|)[..h] == HeaderText(Ok, |file|) && file[..m] == file;
      }
    } else {
      var sent := Handler.SendHeader(c, FileNotFound, 0);
    }
    wire := c.sent;
  }

  /** A client's request that arrives in one read: what is taken is its first word, which is the path itself exactly
      when that is not empty and has no space. */
  lemma {:induction false} RequestTaken(path: string, plan: seq<nat>)
    requires |path| <= 265 && forall k :: 0 <= k < |path| ==> path[k] != NUL
    requires plan != [] && |path| + 17 <= plan[0]
    ensures var request := "GETFILE GET " + path + " \r\n\r\n";
            && Served(request, plan) && Taken(request, plan) == Some(ServerReads.PathWord(path))
            && (Taken(request, plan) == Some(path) <==> path != "" && ' ' !in path)
  {
    hide ServerModel.Process, ServerReads.PathWord;
    RequestLiteral(path);
    RequestArrives(path, plan);
    assert SCHEME[..7] == SCHEME;
    ServerReads.WholeRequest(SCHEME, METHOD, path, plan);
    ServerReads.PathSurvivesIff(path);
  }

  /** For a path of letters, however its request is cut into reads: it is taken exactly under the cuts the server
      survives. */
  lemma {:induction false} RequestTakenIff(path: string, plan: seq<nat>)
    requires ServerSplit.Clean(path)
    ensures var request := "GETFILE GET " + path + " \r\n\r\n";
            Taken(request, plan) == Some(path)
            <==> ServerSplit.GoodCuts(ServerSplit.Cuts(0, |request|, plan), |path|)
  {
    hide ServerModel.Process;
    RequestLiteral(path);
    ServerSplit.RequestIff(path, plan);
  }

  // ---------------------------------------------------------------- the whole exchange

  /** The client's side of an exchange, on every response and however it is fragmented, as long as the source stays in
      its buffer. */
  method ReceiveResponse(wire: seq<char>, plan: seq<nat>) returns (o: Outcome)
    requires Respond(Start(), wire, plan).c.inside
    ensures o == OutcomeOf(Respond(Start(), wire, plan))
  {
    var s := new Socket(wire, plan);
    var req := new GfClient.Request();
    var r := req.ProcessResponse(s);
    o := Outcome(r, req.status, req.fileLength, req.totalRxBytes, req.written);
  }

  /** An exchange for any request, with any fragmentation of request and response: the outcome is what the client makes of
      the response to what the server has taken for the path. */
  method Exchange(content: map<string, seq<char>>, request: string, requestPlan: seq<nat>, preads: seq<int>,
                  plan: seq<nat>)
    returns (o: Outcome)
    requires Served(request, requestPlan)
    requires forall k :: 0 <= k < |preads| ==> 0 < preads[k]
    requires Respond(Start(), Response(content, Taken(request, requestPlan)), plan).c.inside
    ensures o == OutcomeOf(Respond(Start(), Response(content, Taken(request, requestPlan)), plan))
  {
    var toServer := new Socket(request, requestPlan);
    var wire := ServeOne(toServer, content, preads);
    o := ReceiveResponse(wire, plan);
  }

  /** The exchange of a client, whose request is for a path. */
  method Transfer(content: map<string, seq<char>>, path: string, requestPlan: seq<nat>, preads: seq<int>,
                  plan: seq<nat>)
    returns (o: Outcome)
    requires |path| <= 265
    requires Served("GETFILE GET " + path + " \r\n\r\n", requestPlan)
    requires forall k :: 0 <= k < |preads| ==> 0 < preads[k]
    requires var response := Response(content, Taken("GETFILE GET " + path + " \r\n\r\n", requestPlan));
             Respond(Start(), response, plan).c.inside
    ensures var response := Response(content, Taken("GETFILE GET " + path + " \r\n\r\n", requestPlan));
            o == OutcomeOf(Respond(Start(), response, plan))
  {
    var req := new GfClient.Request();
    var request := req.SendRequest(path);
    o := Exchange(content, request, requestPlan, preads, plan);
  }

  /** The response to a request that is refused, or for a missing file: under all fragmentations the client stays in its
      buffer, nothing is written, and the received bytes are counted; it ends with FILE_NOT_FOUND and result 0 exactly
      when the first read brings more than the failure word, or just it and another read brings anything. */
  ghost predicate MissOutcome(o: Outcome, plan: seq<nat>)
  {
    var n := ReadLength(plan, 8192, 28);
    && (o.result == 0 && o.status == FileNotFound <==> n > 22 || (n == 22 && |plan| > 1 && plan[1] > 0))
    && o.written == [] && o.received <= 28 && (n > 22 ==> o.received == n)
    && (o.result == 0 ==> o.fileLength == 0)
  }

  lemma {:induction false} MissEnds(plan: seq<nat>)
    ensures var run := Respond(Start(), "GETFILE FILE_NOT_FOUND 0\r\n\r\n", plan);
            run.c.inside && MissOutcome(OutcomeOf(run), plan)
  {
    hide Respond;
    MissIsPrinted();
    HeaderLiterals(0);
    MissIff(plan);
  }

  /** A request whose first two words are not GETFILE and GET, read whole: the client is told that there is no file. */
  method RefusedExchange(content: map<string, seq<char>>, scheme: string, meth: string, path: string,
                         requestPlan: seq<nat>, preads: seq<int>, plan: seq<nat>)
    returns (o: Outcome)
    requires ServerReads.IsRequest(scheme, meth, path) && !(BeginsWith(scheme, "GETFILE") && meth == "GET")
    requires requestPlan != [] && |RequestText(scheme, meth, path)| <= requestPlan[0]
    requires forall k :: 0 <= k < |preads| ==> 0 < preads[k]
    ensures MissOutcome(o, plan)
  {
    hide ServerModel.Process, Respond, MissOutcome;
    var request := RequestText(scheme, meth, path);
    ServerReads.WholeRequest(scheme, meth, path, requestPlan);
    var toServer := new Socket(request, requestPlan);
    var wire := ServeOne(toServer, content, preads);
    MissEnds(plan);
    o := ReceiveResponse(wire, plan);
  }

  lemma {:induction false} MissIsPrinted()
    ensures HeaderText(FileNotFound, 0) == MissText()
  {
    assert Print(0) == "0";
    assert HeaderText(FileNotFound, 0) == SCHEME + " " + NOT_FOUND + " " + "0" + END_SEQUENCE;
    assert SCHEME + " " + NOT_FOUND + " " + "0" + END_SEQUENCE == SCHEME + " " + NOT_FOUND + " 0" + END_SEQUENCE;
  }

  /** What the response to a path amounts to, for every fragmentation without a failed read. A file is delivered byte for
      byte and reported as success exactly when it is not empty and the first read of the response brings at least its
      header; a missing file is reported as such exactly when that read brings at least the scheme and the word. */
  lemma {:induction false} ResponseIff(content: map<string, seq<char>>, key: string, plan: seq<nat>)
    requires key in content ==> |content[key]| < 0x8000_0000
    ensures var response := Response(content, Some(key));
            var run, first := Respond(Start(), response, plan), First(response, plan);
            && (key in content && Patient(plan, |content[key]|) ==>
                  (Correct(run, content[key]) <==> content[key] != [] && |HeaderText(Ok, |content[key]|)| <= first))
            && (key !in content ==>
                  && run.c.inside && MissOutcome(OutcomeOf(run), plan)
                  && (Patient(plan, 0) ==> (run.result == 0 && run.c.status == FileNotFound <==> 22 <= first))
                  && run.c.total == 28 - |run.rest|)
  {
    hide Respond, HeaderText;
    if key in content {
      DeliveredIff(content[key], plan);
    } else {
      ResponseLiterals(content, Some(key));
      MissEnds(plan);
      MissIsPrinted();
      MissIff(plan);
    }
  }

  lemma {:induction false} RequestArrives(path: string, plan: seq<nat>)
    requires |path| <= 265 && plan != [] && |path| + 17 <= plan[0]
    ensures ReadLength(plan, BUFSIZE, |RequestText(SCHEME, METHOD, path)|) == |RequestText(SCHEME, METHOD, path)|
  {
    RequestFitsIff(path);
  }

  /** The whole exchange for every path, when its request arrives in one read: what ResponseIff says, for the first word
      of the path. */
  lemma {:induction false} TransferIff(content: map<string, seq<char>>, path: string, requestPlan: seq<nat>,
                                       plan: seq<nat>)
    requires |path| <= 265 && forall k :: 0 <= k < |path| ==> path[k] != NUL
    requires forall key :: key in content ==> |content[key]| < 0x8000_0000
    requires requestPlan != [] && |path| + 17 <= requestPlan[0]
    ensures var key := ServerReads.PathWord(path);
            var response := Response(content, Taken("GETFILE GET " + path + " \r\n\r\n", requestPlan));
            var run, first := Respond(Start(), response, plan), First(response, plan);
            && (key in content && Patient(plan, |content[key]|) ==>
                  (Correct(run, content[key]) <==> content[key] != [] && |HeaderText(Ok, |content[key]|)| <= first))
            && (key !in content ==>
                  && run.c.inside && MissOutcome(OutcomeOf(run), plan)
                  && (Patient(plan, 0) ==> (run.result == 0 && run.c.status == FileNotFound <==> 22 <= first))
                  && run.c.total == 28 - |run.rest|)
  {
    hide Respond, HeaderText, ServerReads.PathWord, MissOutcome;
    RequestTaken(path, requestPlan);
    ResponseIff(content, ServerReads.PathWord(path), plan);
  }

  /** The whole exchange for a path of letters that names a file, with request and response in any pieces and no failed
      read of the response: if the server survives the cuts of the request, the file is delivered exactly when it is not
      empty and the first read of the response brings at least its header. */
  lemma {:induction false} TransferInPieces(content: map<string, seq<char>>, path: string, requestPlan: seq<nat>,
                                            plan: seq<nat>)
    requires ServerSplit.Clean(path) && path in content && |content[path]| < 0x8000_0000
    requires Patient(plan, |content[path]|)
    requires ServerSplit.GoodCuts(ServerSplit.Cuts(0, |path| + 17, requestPlan), |path|)
    ensures var response := Response(content, Taken("GETFILE GET " + path + " \r\n\r\n", requestPlan));
            Correct(Respond(Start(), response, plan), content[path])
            <==> content[path] != [] && |HeaderText(Ok, |content[path]|)| <= First(response, plan)
  {
    hide Respond, HeaderText, ServerSplit.GoodCuts;
    RequestTakenIff(path, requestPlan);
    ResponseIff(content, path, plan);
  }
}
