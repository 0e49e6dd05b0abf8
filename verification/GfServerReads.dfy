/** What the server makes of a request. */
module ServerReads {
  import opened Wrappers
  import opened GetFile
  import opened ServerModel

  /** A request: two words and a path, none with a terminator, the words non-empty and without spaces. */
  ghost predicate IsRequest(scheme: string, meth: string, path: string)
  {
    && IsWord(scheme) && IsWord(meth)
    && (forall k :: 0 <= k < |path| ==> path[k] != NUL)
    && |RequestText(scheme, meth, path)| < BUFSIZE
  }

  /** Whether the server takes the first two words: the scheme is only compared on its first seven characters. */
  predicate AcceptsWords(scheme: string, meth: string)
  {
    BeginsWith(scheme, SCHEME) && meth == METHOD
  }

  /** What follows the method. */
  function PathRest(path: string): (rest: string)
    ensures |rest| == |path| + 5
  {
    path + " " + END_SEQUENCE
  }

  /** What the server takes for the path: the first word of what follows the method. */
  function PathWord(path: string): string
  {
    var rest := PathRest(path);
    var t := TokenStart(rest, 0, ' ');
    rest[t..TokenEnd(rest, t, ' ')]
  }

  /** Where that word lies. */
  lemma {:induction false} PathToken(path: string) returns (t: nat, e: nat)
    requires forall k :: 0 <= k < |path| ==> path[k] != NUL
    ensures IsFirstToken(PathRest(path), t, e) && PathWord(path) == PathRest(path)[t..e]
  {
    var rest := PathRest(path);
    t := TokenStart(rest, 0, ' ');
    e := TokenEnd(rest, t, ' ');
    assert rest[|path| + 1] == '\r';
    assert forall k :: 0 <= k < |rest| ==> rest[k] != NUL;
  }

  /** The path survives exactly when it is not empty and has no space. */
  lemma {:induction false} PathSurvivesIff(path: string)
    requires forall k :: 0 <= k < |path| ==> path[k] != NUL
    ensures PathWord(path) == path <==> path != "" && ' ' !in path
  {
    var rest := PathRest(path);
    var t := TokenStart(rest, 0, ' ');
    var e := TokenEnd(rest, t, ' ');
    if path != "" && ' ' !in path {
      TokenIs(rest, 0, 0, |path|, ' ');
    } else if path == "" {
      var t', e' := PathToken(path);
    }
  }

  /** The second attempt of the path stage never finds anything: strtok has stopped at a terminator and stays there,
      whatever the delimiter. So without a word in front of it the end sequence is not looked at, and the stage fails
      exactly when more has been received than a request may have. */
  lemma {:induction false} NoPathAtReturn(c: Server, k: Scan)
    requires StrtokAt(c.buffer, c.token, ' ') == Some(k) && !k.found
    ensures var d := c.(token := k.next);
            ParsePath(c) == if c.total > MAX_PATH + GET_SZ + SCHEME_SZ then Refused(d) else Step(d, 0)
  {
    assert StrtokAt(k.after, k.next, '\r') == Some(Scan(false, k.next, k.next, k.next, k.after));
  }

  // ---------------------------------------------------------------- a request in one read

  /** The context after a first read, before it is parsed. */
  function AfterFirst(text: seq<char>): Server
    requires |text| <= BUFSIZE
  {
    Start().(buffer := text + Nuls(BUFSIZE - |text|), rx := |text|, total := |text|)
  }

  lemma {:induction false} FirstReceived(text: seq<char>)
    requires |text| <= BUFSIZE
    ensures Received(Start(), text) == AfterFirst(text) && HasAt(AfterFirst(text).buffer, 0, text)
  {
    assert Start().buffer[..0] + text + Start().buffer[|text|..] == AfterFirst(text).buffer;
  }

  /** Whatever is in the buffer: it is refused exactly when it does not begin with GETFILE. */
  lemma {:induction false} SchemeIff(c: Server)
    requires SCHEME_SZ <= c.rx && ParseScheme(c).c.inside
    ensures ParseScheme(c).r == 0 <==> c.buffer[..7] == "GETFILE"
    ensures ParseScheme(c).r == -1 ==> ParseScheme(c).c.path == c.path
  {
    var b := c.buffer;
    var t := TokenStart(b, 0, ' ');
    var e := TokenEnd(b, t, ' ');
    assert forall k :: 0 <= k < 7 ==> SCHEME[k] != NUL && SCHEME[k] != ' ';
    if b[..7] == SCHEME {
      assert forall k :: 0 <= k < 7 ==> b[k] == b[..7][k];
      assert t == 0 && e >= 7;
      assert b[e := NUL][..7] == SCHEME;
    } else if t < e && e < 7 {
      assert b[e := NUL][..7][e] == NUL;
    } else if t < e {
      assert b[e := NUL][..7] == b[..7];
    }
  }

  /** The scheme is accepted exactly when it begins with GETFILE. */
  lemma {:induction false} SchemeStage(c: Server, scheme: string, more: seq<char>)
    requires SCHEME_SZ <= c.rx && IsWord(scheme) && HasAt(c.buffer, 0, scheme + " " + more)
    ensures var h := |scheme| + 1;
            && h <= BUFSIZE && HasAt(c.buffer[h - 1 := NUL], h, more)
            && var d := c.(buffer := c.buffer[h - 1 := NUL], token := h);
               ParseScheme(c) == if BeginsWith(scheme, SCHEME) then Step(d.(headerPt := h, stage := AtMethod), 0)
                                 else Refused(d)
  {
    WordToken(c.buffer, 0, scheme, more);
    var b := c.buffer[|scheme| := NUL];
    assert HasAt(b, 0, scheme) && b[|scheme|] == NUL;
    PrefixCompared(b, 0, scheme, SCHEME);
  }

  /** The method is accepted exactly when it is GET, behind any number of spaces, which are not counted. */
  lemma {:induction false} MethodStage(c: Server, gap: nat, meth: string, more: seq<char>)
    requires U32(c.rx - c.headerPt) >= 4
    requires IsWord(meth) && HasAt(c.buffer, c.token, Blanks(gap) + meth + " " + more)
    ensures var e := c.token + gap + |meth|;
            && e < BUFSIZE && HasAt(c.buffer[e := NUL], e + 1, more)
            && var d := c.(buffer := c.buffer[e := NUL], token := e + 1);
               ParseMethod(c) == if meth == "GET" then Step(d.(headerPt := c.headerPt + 4, stage := AtPath), 0)
                                 else Refused(d)
  {
    GapToken(c.buffer, c.token, gap, meth, more);
  }

  /** The path is the first word of the rest. */
  lemma {:induction false} PathStage(c: Server, path: string)
    requires forall k :: 0 <= k < |path| ==> path[k] != NUL
    requires HasAt(c.buffer, c.token, PathRest(path))
    requires var end := c.token + |path| + 5; end < BUFSIZE && c.buffer[end] == NUL
    ensures var s := ParsePath(c);
            && s.r == 0 && s.c.path == Some(PathWord(path))
            && s.c.headerPt == c.headerPt && s.c.inside == c.inside
            && s.c.pathLength == c.headerPt + |PathWord(path)|
  {
    hide ParseReturn, PathWord;
    var t, e := PathToken(path);
    TokenWithin(c.buffer, c.token, PathRest(path), t, e);
    var k := StrtokAt(c.buffer, c.token, ' ').value;
    assert k.after[k.start..k.end] == c.buffer[k.start..k.end];
  }

  /** A request with further spaces in front of the method. */
  function GapText(scheme: string, gap: nat, meth: string, path: string): (t: string)
    ensures |t| == |scheme| + gap + |meth| + |path| + 7
  {
    scheme + " " + (Blanks(gap) + meth + " " + PathRest(path))
  }

  lemma {:induction false} NoGap(scheme: string, meth: string, path: string)
    ensures GapText(scheme, 0, meth, path) == RequestText(scheme, meth, path)
  {
    assert Blanks(0) == "";
    assert Blanks(0) + meth + " " + PathRest(path) == meth + " " + PathRest(path);
  }

  /** The three stages on a whole request. */
  lemma {:induction false} RequestDispatch(scheme: string, gap: nat, meth: string, path: string)
    requires IsWord(scheme) && IsWord(meth) && forall k :: 0 <= k < |path| ==> path[k] != NUL
    requires |GapText(scheme, gap, meth, path)| < BUFSIZE
    ensures var s := Dispatch(AfterFirst(GapText(scheme, gap, meth, path)));
            && s.c.inside && s.c.headerPt < BUFSIZE
            && if AcceptsWords(scheme, meth) then
                 && s.r == 0 && s.c.path == Some(PathWord(path)) && s.c.status == Ok
                 && s.c.pathLength == |scheme| + |meth| + 2 + |PathWord(path)|
               else s.r == -1 && s.c.path == None && s.c.status == FileNotFound && s.c.pathLength == -1
  {
    hide PathWord, ParsePath, ParseMethod, ParseScheme, IsWord, PathRest, HasAt;
    var text, more := GapText(scheme, gap, meth, path), Blanks(gap) + meth + " " + PathRest(path);
    FirstReceived(text);
    var c := AfterFirst(text);
    SchemeStage(c, scheme, more);
    var d := ParseScheme(c).c;
    if d.stage == AtMethod {
      assert U32(d.rx - d.headerPt) == d.rx - d.headerPt;
      MethodStage(d, gap, meth, PathRest(path));
      var e := ParseMethod(d).c;
      if e.stage == AtPath { PathStage(e, path); }
    }
  }

  /** A request that arrives in one read with nothing behind it, with any number of spaces in front of the method: the
      handler is called with the first word of the path exactly when the first two words are accepted, and not at all
      otherwise. When nothing arrives the handler is called without a path. The status tells the end of the stream from a
      failed read. */
  lemma {:induction false} GapRequest(scheme: string, gap: nat, meth: string, path: string, plan: seq<nat>)
    requires IsWord(scheme) && IsWord(meth) && forall k :: 0 <= k < |path| ==> path[k] != NUL
    requires var text := GapText(scheme, gap, meth, path);
             |text| < BUFSIZE && ReadLength(plan, BUFSIZE, |text|) in {-1, |text|}
    ensures var text := GapText(scheme, gap, meth, path);
            var run := Process(Start(), text, plan);
            && run.c.inside
            && if ReadLength(plan, BUFSIZE, |text|) == -1 then
                 run.result == -1 && run.c.path == None && run.c.status == Error
               else if AcceptsWords(scheme, meth) then
                 && run.result == -1 && run.c.path == Some(PathWord(path))
                 && run.c.pathLength == |scheme| + |meth| + 2 + |PathWord(path)|
                 && run.c.status == (if |plan| > 1 && plan[1] > 0 then FileNotFound else Error)
               else run.result == -2 && run.c.path == None && run.c.status == FileNotFound
  {
    hide Dispatch, PathWord, GapText;
    var text := GapText(scheme, gap, meth, path);
    FirstReceived(text);
    RequestDispatch(scheme, gap, meth, path);
    assert text[..|text|] == text && text[|text|..] == [];
    assert ReadLength(plan, BUFSIZE, |text|) == -1 || ReadLength(plan, BUFSIZE, |text|) == |text|;
  }

  /** The same of a request with one space between its words. */
  lemma {:induction false} WholeRequest(scheme: string, meth: string, path: string, plan: seq<nat>)
    requires IsRequest(scheme, meth, path)
    requires ReadLength(plan, BUFSIZE, |RequestText(scheme, meth, path)|) in {-1, |RequestText(scheme, meth, path)|}
    ensures var text := RequestText(scheme, meth, path);
            var run := Process(Start(), text, plan);
            && run.c.inside
            && if ReadLength(plan, BUFSIZE, |text|) == -1 then
                 run.result == -1 && run.c.path == None && run.c.status == Error
               else if AcceptsWords(scheme, meth) then
                 && run.result == -1 && run.c.path == Some(PathWord(path))
                 && run.c.pathLength == |scheme| + |meth| + 2 + |PathWord(path)|
                 && run.c.status == (if |plan| > 1 && plan[1] > 0 then FileNotFound else Error)
               else run.result == -2 && run.c.path == None && run.c.status == FileNotFound
  {
    hide Process, GapText, PathWord;
    NoGap(scheme, meth, path);
    GapRequest(scheme, 0, meth, path, plan);
  }

  // ---------------------------------------------------------------- a request cut inside the scheme

  /** Fewer bytes than the scheme has were received, and nothing has been parsed. */
  ghost predicate Waiting(c: Server, p: nat)
  {
    && c.inside && c.stage == AtScheme && c.path == None && c.headerPt == 0 && c.rx == c.total == p < SCHEME_SZ
    && forall k :: SCHEME_SZ - 1 <= k < BUFSIZE ==> c.buffer[k] == NUL
  }

  /** The buffer then begins with another character of the scheme than its first. */
  lemma {:induction false} SchemeMissed(c: Server, p: nat, chunk: seq<char>)
    requires Waiting(c, p) && SCHEME_SZ <= p + |chunk| && |chunk| <= BUFSIZE
    requires 0 < |chunk| && chunk[0] !in ['G', ' ', NUL] && (SCHEME_SZ - p < |chunk| ==> chunk[SCHEME_SZ - p] == ' ')
    ensures var s := Dispatch(Received(c, chunk)); s.c.inside && s.r == -1 && s.c.path == None
  {
    var b := Received(c, chunk).buffer;
    var stop := if |chunk| <= SCHEME_SZ then SCHEME_SZ else SCHEME_SZ - p;
    assert b[0] == chunk[0];
    assert b[stop] == if stop < |chunk| then chunk[stop] else c.buffer[stop];
    SchemeElsewhere(b, stop);
  }

  lemma {:induction false} SchemeElsewhere(b: Buffer, stop: nat)
    requires b[0] !in ['G', ' ', NUL] && stop < BUFSIZE && b[stop] in [' ', NUL]
    ensures StrtokAt(b, 0, ' ').Some? && StrtokAt(b, 0, ' ').value.after[..SCHEME_SZ] != SCHEME
  {
    assert TokenStart(b, 0, ' ') == 0 && 0 < TokenEnd(b, 0, ' ') <= stop;
    assert StrtokAt(b, 0, ' ').value.after[..SCHEME_SZ][0] != SCHEME[0];
  }

  /** However the rest of the request arrives, no path is taken from it. */
  lemma {:induction false} CutInScheme(c: Server, stream: seq<char>, p: nat, plan: seq<nat>)
    requires HasAt(stream, 0, SCHEME + " ") && Waiting(c, p) && 0 < p
    ensures var run := Process(c, stream[p..], plan); run.c.inside && run.c.path == None
    decreases |plan|
  {
    hide Dispatch, Received;
    var n := ReadLength(plan, BUFSIZE, |stream| - p);
    if 0 < n {
      var chunk := stream[p..][..n];
      assert stream[p..][n..] == stream[p + n..];
      SchemeRest(stream, p, chunk);
      if p + n < SCHEME_SZ {
        StillWaiting(c, p, chunk);
        CutInScheme(Received(c, chunk), stream, p + n, plan[1..]);
      } else {
        SchemeMissed(c, p, chunk);
      }
    }
  }

  lemma {:induction false} StillWaiting(c: Server, p: nat, chunk: seq<char>)
    requires Waiting(c, p) && p + |chunk| < SCHEME_SZ
    ensures var d := Received(c, chunk); Dispatch(d) == Step(d, 0) && Waiting(d, p + |chunk|)
  {
  }

  /** Of every request that begins with the scheme: when the first read brings no more than the scheme, no path is
      taken from it, however the rest arrives. */
  lemma {:induction false} FirstReadInScheme(stream: seq<char>, plan: seq<nat>)
    requires HasAt(stream, 0, SCHEME + " ") && 0 < ReadLength(plan, BUFSIZE, |stream|) <= SCHEME_SZ
    ensures var run := Process(Start(), stream, plan); run.c.inside && run.c.path == None
  {
    hide Dispatch, Received;
    var n := ReadLength(plan, BUFSIZE, |stream|);
    FirstReceived(stream[..n]);
    if n < SCHEME_SZ {
      StillWaiting(Start(), 0, stream[..n]);
      CutInScheme(Received(Start(), stream[..n]), stream, n, plan[1..]);
    } else {
      SchemeOnly(stream);
    }
  }

  /** The scheme alone: its space is counted as received, the counter wraps, and the method is missed. */
  lemma {:induction false} SchemeOnly(stream: seq<char>)
    requires HasAt(stream, 0, SCHEME + " ")
    ensures var s := Dispatch(AfterFirst(stream[..SCHEME_SZ])); s.c.inside && s.r == -1 && s.c.path == None
  {
    var c := AfterFirst(stream[..SCHEME_SZ]);
    AtEveryPosition(stream, 0, SCHEME + " ");
    assert forall k :: 0 <= k < SCHEME_SZ ==> c.buffer[k] == SCHEME[k];
    TokenIs(c.buffer, 0, 0, SCHEME_SZ, ' ');
    assert c.buffer[SCHEME_SZ := NUL] == c.buffer && c.buffer[..SCHEME_SZ] == SCHEME;
  }
}
