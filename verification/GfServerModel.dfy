/** The server's parser of GETFILE (project1 gfserver.c) as a function of its state: every stage and every branch. Where
    the source would leave its buffer, or overflow its signed counters, the state is marked as not inside, and nothing
    is claimed about what follows. */
module ServerModel {
  import opened Wrappers
  import opened GetFile

  const SCHEME_SZ := 7
  const GET_SZ := 4
  const MAX_PATH := 255

  datatype Stage = AtScheme | AtMethod | AtPath

  type Buffer = b: seq<char> | |b| == BUFSIZE witness Nuls(BUFSIZE)

  datatype Server = Server(
    path: Option<string>,
    pathLength: int,
    status: Status,
    rx: nat,
    total: nat,
    buffer: Buffer,
    headerPt: nat,
    stage: Stage,
    token: nat,
    inside: bool)

  /** As gfcontext_create leaves it. */
  function Start(): Server
  {
    Server(None, -1, Ok, 0, 0, Nuls(BUFSIZE), 0, AtScheme, 0, true)
  }

  function Overrun(c: Server): Server
  {
    c.(inside := false)
  }

  /** A context and the value of r in process_request. */
  datatype Step = Step(c: Server, r: int)

  /** The status that makes a stage fail. */
  function Refused(c: Server): Step
  {
    Step(c.(status := FileNotFound), -1)
  }

  function ParseScheme(c: Server): (s: Step)
    ensures s.c.inside ==> c.inside
    ensures s.r == -1 || (s.r == 0 && s.c.status == c.status)
  {
    if c.rx < SCHEME_SZ then Step(c, 0) else
    match StrtokAt(c.buffer, 0, ' ')
    case None => Step(Overrun(c), 0)
    case Some(k) =>
      var d := c.(buffer := k.after, token := k.next);
      if !k.found || d.buffer[..SCHEME_SZ] != SCHEME then Refused(d)
      else Step(d.(headerPt := k.end - k.start + 1, stage := AtMethod), 0)
  }

  function ParseMethod(c: Server): (s: Step)
    ensures s.c.inside ==> c.inside
    ensures s.r == -1 || (s.r == 0 && s.c.status == c.status)
  {
    if U32(c.rx - c.headerPt) < GET_SZ then Step(c, 0) else
    match StrtokAt(c.buffer, c.token, ' ')
    case None => Step(Overrun(c), 0)
    case Some(k) =>
      var d := c.(buffer := k.after, token := k.next);
      if k.found && d.buffer[k.start..k.end] == METHOD then
        Step(d.(headerPt := c.headerPt + (k.end - k.start) + 1, stage := AtPath), 0)
      else Refused(d)
  }

  /** The token becomes the path. */
  function Take(c: Server, k: Scan): Server
    requires |k.after| == BUFSIZE && k.start <= k.end <= BUFSIZE
  {
    c.(path := Some(k.after[k.start..k.end]), pathLength := c.headerPt + (k.end - k.start))
  }

  /** The second attempt, at a carriage return, when there is no word. */
  function ParseReturn(c: Server): (s: Step)
    ensures s.c.inside ==> c.inside
    ensures s.r == -1 || (s.r == 0 && s.c.status == c.status)
  {
    match StrtokAt(c.buffer, c.token, '\r')
    case None => Step(Overrun(c), 0)
    case Some(k) =>
      var d := c.(buffer := k.after, token := k.next);
      if k.found then
        var e := Take(d, k).(headerPt := c.headerPt + (k.end - k.start) + 1);
        match Strncmp(e.buffer, e.headerPt, END_SEQUENCE + [NUL])
        case Outside => Step(Overrun(e), 0)
        case Differs => Refused(e)
        case Equal => Step(e, 0)
      else if c.total > MAX_PATH + GET_SZ + SCHEME_SZ then Refused(d)
      else Step(d, 0)
  }

  function ParsePath(c: Server): (s: Step)
    ensures s.c.inside ==> c.inside
    ensures s.r == -1 || (s.r == 0 && s.c.status == c.status)
  {
    match StrtokAt(c.buffer, c.token, ' ')
    case None => Step(Overrun(c), 0)
    case Some(k) =>
      var d := c.(buffer := k.after, token := k.next);
      if k.found then Step(Take(d, k), 0) else ParseReturn(d)
  }

  /** The stages in turn, as far as each leads to the next. */
  function Dispatch(c: Server): (s: Step)
    ensures s.c.inside ==> c.inside
    ensures s.r == -1 || (s.r == 0 && s.c.status == c.status)
  {
    var s := if c.stage == AtScheme then ParseScheme(c) else Step(c, 0);
    var s := if s.c.stage == AtMethod then ParseMethod(s.c) else s;
    if s.c.stage == AtPath then ParsePath(s.c) else s
  }

  function Received(c: Server, chunk: seq<char>): Server
    requires c.headerPt + |chunk| <= BUFSIZE
  {
    var d := c.(buffer := c.buffer[..c.headerPt] + chunk + c.buffer[c.headerPt + |chunk|..],
                rx := c.rx + |chunk|, total := c.total + |chunk|);
    if d.rx < 0x8000_0000 && d.total < 0x8000_0000 then d else Overrun(d)
  }

  datatype Run = Run(result: int, c: Server, rest: seq<char>)

  /** process_request on a stream that arrives as the plan says. -1 means that the handler is to be called with the path
      found, -2 that it is not. */
  function Process(c: Server, incoming: seq<char>, plan: seq<nat>): Run
    decreases |plan|
  {
    if c.headerPt > BUFSIZE then Run(-1, Overrun(c), incoming) else
    var n := ReadLength(plan, BUFSIZE - c.headerPt, |incoming|);
    if n <= 0 then Run(-1, c.(status := if n < 0 then Error else FileNotFound), incoming) else
    var s := Dispatch(Received(c, incoming[..n]));
    if s.r == -1 || !s.c.inside then Run(-2, s.c, incoming[n..])
    else Process(s.c, incoming[n..], plan[1..])
  }
}
