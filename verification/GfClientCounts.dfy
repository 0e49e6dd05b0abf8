/** What a caller learns about a response that is no success: the length, and how much was received. */
module ClientCounts {
  import opened Wrappers
  import opened GetFile
  import opened ClientModel
  import opened ClientBody

  /** The header is not parsed to its end after taken bytes: all of them are counted as received, and there is no length
      before the status. */
  ghost predicate Parsing(c: Client, taken: nat)
  {
    && c.stage in {AtScheme, AtMethod, AtLength, AtPath} && c.contentPt == 0
    && c.total == U32(taken) && c.bytesWritten == 0 && c.written == [] && c.headers == []
    && (c.stage in {AtScheme, AtMethod} ==> c.status == Invalid && c.fileLength == 0 && !c.fileLengthValid)
    && (c.stage in {AtLength, AtPath} ==> c.status == Ok)
  }

  /** Nothing was handed on, and the counts say how much was taken; a length is known exactly if the end of a success
      header was missed. */
  ghost predicate Counted(c: Client, result: int, taken: nat)
  {
    && c.total == U32(taken) && c.bytesWritten == 0 && c.written == [] && c.headers == []
    && (c.status == FileNotFound ==> result == 0) && (result == 0 ==> c.status in {FileNotFound, Error})
    && (c.status == Error && result != 0 ==> c.fileLengthValid)
    && (c.status != Ok && !(c.status == Error && result != 0) ==> c.fileLength == 0 && !c.fileLengthValid)
  }

  /** From the content on the status is a success. */
  ghost predicate Handing(c: Client)
  {
    c.stage in {AtContent, Done} && c.status == Ok && c.headers != []
  }

  lemma {:induction false} FrontCounts(c: Client, taken: nat)
    requires Parsing(c, taken)
    ensures var s := Front(c);
            && s.c.contentPt == 0 && s.c.total == c.total && s.c.bytesWritten == 0
            && s.c.written == [] && s.c.headers == []
            && s.c.fileLength == c.fileLength && s.c.fileLengthValid == c.fileLengthValid
            && match s.c.stage
               case AtScheme => s.c.status == Invalid && s.c.fileLength == 0 && !s.c.fileLengthValid
               case AtMethod => s.r == 0 && s.c.status == Invalid && s.c.fileLength == 0 && !s.c.fileLengthValid
               case AtLength => s.r == 0 && s.c.status == Ok
               case AtPath => s.r == 0 && s.c.status == Ok
               case AtError => s.r == 0 && s.c.fileLength == 0 && !s.c.fileLengthValid
               case AtNotFound => s.r == 0 && s.c.fileLength == 0 && !s.c.fileLengthValid
               case _ => false
  {
    hide ParseScheme, ParseMethod;
    var s := if c.stage == AtScheme then ParseScheme(c) else Step(c, 0);
    if c.stage == AtScheme { SchemeCounts(c); }
    if s.c.stage == AtMethod { MethodCounts(s.c); }
  }

  /** Everything a caller learns but the status. */
  ghost predicate SameCounts(c: Client, d: Client)
  {
    && d.contentPt == c.contentPt && d.total == c.total && d.bytesWritten == c.bytesWritten
    && d.written == c.written && d.headers == c.headers
    && d.fileLength == c.fileLength && d.fileLengthValid == c.fileLengthValid
  }

  lemma {:induction false} SchemeCounts(c: Client)
    ensures var d := ParseScheme(c).c;
            && SameCounts(c, d) && d.status == c.status && d.stage in {c.stage, AtMethod}
            && (d.stage == c.stage || ParseScheme(c).r == 0)
  {
    hide StrtokAt;
  }

  lemma {:induction false} MethodCounts(c: Client)
    requires c.stage == AtMethod
    ensures var d := ParseMethod(c);
            && SameCounts(c, d) && d.stage in {AtMethod, AtLength, AtError, AtNotFound}
            && d.status == if d.stage == AtLength then Ok else c.status
  {
    hide ParseOk, ParseFailure;
    OkCounts(c);
  }

  lemma {:induction false} OkCounts(c: Client)
    requires c.stage == AtMethod
    ensures var d := ParseOk(c);
            && SameCounts(c, d) && d.stage in {AtMethod, AtLength}
            && d.status == if d.stage == AtLength then Ok else c.status
  {
    hide StrtokAt;
  }

  lemma {:induction false} BackCounts(s: Step, taken: nat)
    requires s.c.stage in {AtLength, AtPath} && s.r == 0 && Parsing(s.c, taken)
    ensures var t := Back(s);
            || (t.r == 0 && Parsing(t.c, taken))
            || (t.r == 0 && t.c.stage == AtContent && t.c.status == Ok && t.c.headers != [])
            || (t.r == -1 && t.c.stage == AtPath && t.c.status == Error && t.c.fileLengthValid
                && t.c.total == U32(taken) && t.c.bytesWritten == 0 && t.c.written == [] && t.c.headers == [])
  {
    hide Strncmp, Atoi, TokenStart, DigitsEnd;
  }

  lemma {:induction false} TurnCounts(c: Client, taken: nat)
    requires Parsing(c, taken)
    ensures var s := Dispatch(c);
            || (s.r == 0 && Parsing(s.c, taken))
            || (s.r in {0, 1} && Handing(s.c) && (s.r == 1 <==> s.c.stage == Done))
            || (s.r != 0 && s.c.status != Ok && Counted(s.c, if s.r == 1 then 0 else -1, taken))
  {
    hide Front, Back, ParseContent;
    FrontCounts(c, taken);
    var s := Front(c);
    if s.c.stage in {AtLength, AtPath} {
      BackCounts(s, taken);
    } else {
      NoBack(s);
    }
    KeepsHeaders(Back(s).c);
  }

  lemma {:induction false} NoBack(s: Step)
    requires s.c.stage !in {AtLength, AtPath}
    ensures Back(s) == s
  {
  }

  lemma {:induction false} KeepsHeaders(c: Client)
    ensures ParseContent(c).headers == c.headers
  {
  }

  lemma {:induction false} HandingTurn(c: Client)
    requires Handing(c) && c.stage == AtContent
    ensures var s := Dispatch(c); Handing(s.c) && (if s.c.stage == Done then s.r == 1 else s.r == 0)
  {
    hide ParseContent;
    KeepsHeaders(c);
  }

  lemma {:induction false} HandingRun(c: Client, incoming: seq<char>, plan: seq<nat>)
    requires Handing(c) && c.stage == AtContent
    ensures Handing(Respond(c, incoming, plan).c)
    decreases |plan|
  {
    hide Dispatch, Received;
    if Requestable(c) {
      var n := ReadLength(plan, RequestSize(c), |incoming|);
      if 0 < n {
        ReceivedHanding(c, incoming[..n]);
        HandingTurn(Received(c, incoming[..n]));
        var s := Dispatch(Received(c, incoming[..n]));
        if s.r == 0 { HandingRun(s.c, incoming[n..], plan[1..]); }
      }
    }
  }

  lemma {:induction false} ReceivedHanding(c: Client, chunk: seq<char>)
    requires Handing(c) && c.contentPt + |chunk| <= RDBUFSIZE
    ensures Handing(Received(c, chunk)) && Received(c, chunk).stage == c.stage
  {
  }

  lemma {:induction false} ReceivedParsing(c: Client, taken: nat, chunk: seq<char>)
    requires Parsing(c, taken) && |chunk| <= RDBUFSIZE
    ensures Parsing(Received(c, chunk), taken + |chunk|)
  {
  }

  /** A run on a header that is not parsed yet. */
  lemma {:induction false} ParsingRun(c: Client, incoming: seq<char>, taken: nat, plan: seq<nat>)
    requires Parsing(c, taken)
    ensures var run := Respond(c, incoming, plan);
            run.c.inside ==>
              if run.c.headers != [] then run.c.status == Ok
              else |run.rest| <= |incoming| && Counted(run.c, run.result, taken + |incoming| - |run.rest|)
    decreases |plan|
  {
    hide Dispatch, Received, Respond;
    var s := HeaderTurn(c, incoming, plan);
    var n := First(incoming, plan);
    if 0 < n {
      ReceivedParsing(c, taken, incoming[..n]);
      TurnCounts(Received(c, incoming[..n]), taken + n);
      if s.r == 0 && Parsing(s.c, taken + n) {
        ParsingRun(s.c, incoming[n..], taken + n, plan[1..]);
      } else if s.r == 0 {
        HandingRun(s.c, incoming[n..], plan[1..]);
      }
    }
  }

  /** For every stream and every fragmentation: when the header callback was not called, what the client counts as
      received is what it took from the stream, nothing was handed on, and the length is 0 unless the end of a success
      header was missed. That is so whenever the status is not a success. */
  lemma {:induction false} FailureCounts(stream: seq<char>, plan: seq<nat>)
    ensures var run := Respond(Start(), stream, plan);
            && (run.c.inside && run.c.headers == [] ==>
                  && |run.rest| <= |stream| && run.c.total == (|stream| - |run.rest|) % 0x1_0000_0000
                  && run.c.bytesWritten == 0 && run.c.written == []
                  && (run.c.status in {FileNotFound, Invalid} || (run.c.status == Error && run.result == 0) ==>
                        run.c.fileLength == 0)
                  && (run.result == 0 ==> run.c.status in {FileNotFound, Error}))
            && (run.c.inside && run.c.status != Ok ==> run.c.headers == [])
  {
    hide Respond;
    ParsingRun(Start(), stream, 0, plan);
  }
}
