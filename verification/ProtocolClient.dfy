/** Both ends together: what a GETFILE client makes of the bytes the proxy sends. */
module ProtocolClient {
  import opened Wrappers
  import opened Protocol
  import opened ProtocolInvariant
  import opened ProtocolSafety
  import opened ProtocolLiveness
  import ClientModel
  import ClientBody
  import ClientSplit
  import Decimal
  import EndToEnd
  import GetFile

  /** The bytes of an atomic answer. */
  lemma {:induction false} AnswerLiterals(c: Config, path: string)
    requires ValidConfig(c)
    ensures WellSent(Answer(c, path))
    ensures Wire(Answer(c, path)) ==
              if path in c.files then
                "GETFILE OK " + Decimal.Print(|c.files[path]|) + "\r\n\r\n" + c.files[path]
              else "GETFILE FILE_NOT_FOUND 0\r\n\r\n"
  {
    hide GetFile.HeaderText, Printed;
    var size := if path in c.files then |c.files[path]| else 0;
    var h := if path in c.files then Found(size) else NotFound;
    PrintedLiterals(size);
    assert Answer(c, path) == Output(Some(h), |Printed(h)|, FileOf(c, path));
    assert Printed(h)[..|Printed(h)|] == Printed(h);
  }

  lemma {:induction false} PrintedLiterals(size: nat)
    requires size < 0x8000_0000
    ensures Printed(Found(size)) == "GETFILE OK " + Decimal.Print(size) + "\r\n\r\n"
    ensures Printed(NotFound) == "GETFILE FILE_NOT_FOUND 0\r\n\r\n"
  {
    hide GetFile.HeaderText;
    GetFile.HeaderLiterals(size);
  }

  /** A client that reads bytes under a plan: of a cached file it delivers exactly the contents, with status and length,
      if the first read brings the header and no read fails, and exactly then; of any other path it reports that there is
      no file. */
  ghost predicate ClientGets(c: Config, path: string, bytes: seq<char>, plan: seq<nat>)
  {
    var run, first := ClientModel.Respond(ClientModel.Start(), bytes, plan), ClientBody.First(bytes, plan);
    if path in c.files then
      && (|bytes| - |c.files[path]| <= first ==>
            && run.c.inside && run.c.status == GetFile.Ok && run.c.fileLength == |c.files[path]|
            && run.c.written + run.rest == c.files[path])
      && (run.c.inside && run.result == 0 && run.c.status == GetFile.Ok && run.c.written == c.files[path] <==>
            |bytes| - |c.files[path]| <= first && !run.failed)
      && (ClientBody.Patient(plan, |c.files[path]|) && |bytes| - |c.files[path]| <= first ==> !run.failed)
    else
      run.c.inside && EndToEnd.MissOutcome(EndToEnd.OutcomeOf(run), plan)
  }

  lemma {:induction false} ClientOfAnswer(c: Config, path: string, plan: seq<nat>)
    requires ValidConfig(c)
    ensures WellSent(Answer(c, path)) && ClientGets(c, path, Wire(Answer(c, path)), plan)
  {
    hide ClientModel.Respond, EndToEnd.MissOutcome, Wire, Answer, GetFile.HeaderText, ClientBody.Patient;
    AnswerLiterals(c, path);
    if path in c.files {
      var file := c.files[path];
      var header := GetFile.HeaderText(GetFile.Ok, |file|);
      GetFile.HeaderLiterals(|file|);
      assert Wire(Answer(c, path)) == header + file;
      EndToEnd.DeliveredIff(file, plan);
      if |header| <= ClientBody.First(header + file, plan) {
        EndToEnd.HeaderSurvives(GetFile.Ok, |file|, file, plan);
      }
    } else {
      EndToEnd.MissEnds(plan);
    }
  }

  /** Every client of the proxy, for every run that cannot go on and whose header writes were whole: from the bytes sent
      for its request it gets what is cached under the path it asked for, or learns that there is nothing. */
  lemma {:induction false} ClientsAreServed(c: Config, work: seq<seq<string>>, first: State, run: seq<Action>,
                                            i: nat, k: nat, plan: seq<nat>)
    requires ValidConfig(c) && Init(c, work, first) && Exec(c, first, run).Some?
    requires 1 <= c.numSegments && !Progress(c, Exec(c, first, run).value) && WholeHeaders(c, first, run)
    requires i < |work| && k < |work[i]|
    ensures var st := Exec(c, first, run).value;
            && |st.proxies| == |work| && k < |st.proxies[i].served|
            && var reply := st.proxies[i].served[k];
               && reply.path == work[i][k] && WellSent(reply.out)
               && ClientGets(c, work[i][k], Wire(reply.out), plan)
  {
    hide ClientGets, Progress, WholeHeaders, Replied, Wire, Answer, WellSent, Init, Exec;
    MaximalRunAnswersAll(c, work, first, run);
    var st := Exec(c, first, run).value;
    assert CorrectReply(c, work[i][k], st.proxies[i].served[k]);
    assert AtomicReply(c, st.proxies[i].served[k]);
    ClientOfAnswer(c, work[i][k], plan);
  }
}
