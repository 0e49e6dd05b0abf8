/** The client of GETFILE (project1 gfclient.c) as a function of its state: every stage, every branch, with the unsigned
    arithmetic of the source. Where the source would leave its buffer, or hand atoi a number it cannot represent, C
    defines nothing; such a state is marked as not inside, and nothing is claimed about what follows. */
module ClientModel {
  import opened Wrappers
  import opened Decimal
  import opened GetFile

  const RDBUFSIZE := 8192
  const SCHEME_SZ := 7
  const ENDSEQ := 4
  const OK_SZ := 3
  const ERROR_SZ := 5
  const NOT_FOUND_SZ := 14

  datatype Stage = AtScheme | AtMethod | AtLength | AtPath | AtContent | AtError | AtNotFound | Done

  /** The stages past the header: the length of the file is known or does not matter. */
  predicate PastHeader(s: Stage)
  {
    s in {AtContent, AtError, AtNotFound, Done}
  }

  type Buffer = b: seq<char> | |b| == RDBUFSIZE witness Nuls(RDBUFSIZE)

  datatype Client = Client(
    status: Status,
    fileLength: nat,
    fileLengthValid: bool,
    rx: nat,
    total: nat,
    bytesWritten: nat,
    buffer: Buffer,
    headerPt: nat,
    lengthStart: nat,
    contentPt: nat,
    stage: Stage,
    token: nat,
    written: seq<char>,
    headers: seq<seq<char>>,
    inside: bool)

  /** As gfc_create leaves it. */
  function Start(): Client
  {
    Client(Invalid, 0, false, 0, 0, 0, Nuls(RDBUFSIZE), 0, 0, 0, AtScheme, 0, [], [], true)
  }

  function Overrun(c: Client): Client
  {
    c.(inside := false)
  }

  /** A client and the value of r in process_response. */
  datatype Step = Step(c: Client, r: int)

  // ---------------------------------------------------------------- the pieces of C

  predicate IsWhite(ch: char)
  {
    ch == ' ' || '\t' <= ch <= '\r'
  }

  function SkipWhite(s: string): string
  {
    if s != [] && IsWhite(s[0]) then SkipWhite(s[1..]) else s
  }

  function LeadingDigits(s: string): (d: string)
    ensures AllDigits(d) && d <= s
    ensures |d| < |s| ==> !IsDigit(s[|d|])
  {
    if s != [] && IsDigit(s[0]) then [s[0]] + LeadingDigits(s[1..]) else []
  }

  /** atoi: white space, a sign, digits; None when the value does not fit an int. */
  function Atoi(s: string): Option<int>
  {
    var t := SkipWhite(s);
    var digits := LeadingDigits(if t != [] && t[0] in "+-" then t[1..] else t);
    var v: int := ValueOf(digits);
    if t != [] && t[0] == '-' then
      if v <= 0x8000_0000 then Some(-v) else None
    else
      if v < 0x8000_0000 then Some(v) else None
  }

  // ---------------------------------------------------------------- the stages

  function ParseScheme(c: Client): (s: Step)
    ensures s.c.inside ==> c.inside
    ensures s.r in {0, -1}
  {
    if c.rx < SCHEME_SZ then Step(c, 0) else
    match StrtokAt(c.buffer, 0, ' ')
    case None => Step(Overrun(c), 0)
    case Some(k) =>
      var d := c.(buffer := k.after, token := k.next);
      if !k.found || d.buffer[..SCHEME_SZ] != SCHEME then Step(d, -1)
      else Step(d.(headerPt := k.end - k.start + 1, stage := AtMethod), 0)
  }

  /** The first half of parse_method: the next word, if it is OK. */
  function ParseOk(c: Client): (d: Client)
    ensures d.inside ==> c.inside
  {
    if U32(c.rx - c.headerPt) <= OK_SZ then c else
    match StrtokAt(c.buffer, c.token, ' ')
    case None => Overrun(c)
    case Some(k) =>
      var d := c.(buffer := k.after, token := k.next);
      if k.found && d.buffer[k.start..k.end] == "OK" then
        var h := c.headerPt + (k.end - k.start) + 1;
        d.(headerPt := h, stage := AtLength, lengthStart := h, status := Ok)
      else d
  }

  /** The second half: the two failures, once enough has been received to tell. */
  function Failed(c: Client, methodBytes: int, error: Comparison, notFound: Comparison): (d: Client)
    ensures d.inside ==> c.inside
    ensures d == c.(stage := d.stage, inside := d.inside) && d.stage in {c.stage, AtError, AtNotFound}
  {
    var d := if methodBytes <= ERROR_SZ || error == Differs then c
             else if error == Equal then c.(stage := AtError)
             else Overrun(c);
    if methodBytes <= NOT_FOUND_SZ then d
    else if notFound == Outside then Overrun(d)
    else d.(stage := if notFound == Equal then AtNotFound else AtError)
  }

  function ParseFailure(c: Client): (d: Client)
    ensures d.inside ==> c.inside
    ensures d == c.(stage := d.stage, inside := d.inside) && d.stage in {c.stage, AtError, AtNotFound}
  {
    Failed(c, I32(c.rx - c.headerPt), Strncmp(c.buffer, c.headerPt, "ERROR"),
           Strncmp(c.buffer, c.headerPt, "FILE_NOT_FOUND"))
  }

  function ParseMethod(c: Client): (d: Client)
    ensures d.inside ==> c.inside
  {
    var d := ParseOk(c);
    if d.stage == AtMethod then ParseFailure(d) else d
  }

  /** Where the loop of parse_length stops; None when it runs out of the buffer. */
  function DigitsEnd(b: Buffer, h: nat, rx: nat): (e: Option<nat>)
    ensures e.Some? ==> h <= e.value && forall k :: h <= k < e.value && k < |b| ==> IsDigit(b[k])
    ensures e.Some? && e.value <= rx ==> e.value < |b| && !IsDigit(b[e.value])
    ensures e.Some? && h <= |b| ==> e.value <= |b|
    decreases |b| - h
  {
    if rx < h then Some(h)
    else if h >= |b| then None
    else if IsDigit(b[h]) then DigitsEnd(b, h + 1, rx)
    else Some(h)
  }

  function ParseLength(c: Client): (d: Client)
    ensures d.inside ==> c.inside
    ensures d.status == c.status && d.stage in {c.stage, AtPath}
  {
    match DigitsEnd(c.buffer, c.headerPt, c.rx)
    case None => Overrun(c)
    case Some(h) => if c.rx < h then c.(headerPt := h) else c.(headerPt := h, stage := AtPath)
  }

  /** The length, and the spaces behind it. */
  function ReadLengthField(c: Client): (d: Client)
    ensures d.inside ==> c.inside && d.headerPt < |d.buffer|
    ensures d.status == c.status && d.stage == c.stage && d.buffer == c.buffer && d.rx == c.rx
  {
    if !(c.lengthStart <= c.headerPt <= |c.buffer|) then Overrun(c) else
    match Atoi(c.buffer[c.lengthStart..c.headerPt])
    case None => Overrun(c)
    case Some(v) =>
      var h := TokenStart(c.buffer, c.headerPt, ' ');
      if h >= |c.buffer| then Overrun(c) else c.(fileLength := U32(v), fileLengthValid := true, headerPt := h)
  }

  /** The end sequence: the header callback, and the content starts behind it. */
  function ParseEnd(c: Client): (s: Step)
    ensures s.c.inside ==> c.inside
    ensures s.r in {0, -1} && s.c.status in {c.status, Error} && s.c.stage in {c.stage, AtContent}
  {
    if U32(c.rx - c.headerPt) < ENDSEQ then Step(c, 0) else
    match Strncmp(c.buffer, c.headerPt, END_SEQUENCE)
    case Outside => Step(Overrun(c), 0)
    case Differs => Step(c.(status := Error), -1)
    case Equal =>
      var h := c.headerPt + ENDSEQ;
      Step(c.(headerPt := h, headers := c.headers + [c.buffer[..h]], stage := AtContent, total := U32(c.total - h),
              contentPt := h), 0)
  }

  function ParsePath(c: Client): (s: Step)
    ensures s.c.inside ==> c.inside
    ensures s.r in {0, -1} && s.c.status in {c.status, Error} && s.c.stage in {c.stage, AtContent}
  {
    var d := ReadLengthField(c);
    if !d.inside then Step(d, 0) else ParseEnd(d)
  }

  function ParseContent(c: Client): (d: Client)
    ensures d.inside ==> c.inside
    ensures d.status == c.status && d.stage in {c.stage, Done}
  {
    if c.rx <= c.contentPt then c
    else if c.rx > |c.buffer| then Overrun(c)
    else
      var n := U32(c.bytesWritten + c.rx - c.contentPt);
      var at := if c.rx == RDBUFSIZE then 0 else c.rx;
      c.(written := c.written + c.buffer[c.contentPt..c.rx], bytesWritten := n, contentPt := at, rx := at,
         stage := if n >= c.fileLength then Done else c.stage)
  }

  // ---------------------------------------------------------------- a turn of the loop

  /** The final stages set the result, and the failures the status. */
  function Conclude(s: Step): (t: Step)
    ensures t.c.inside ==> s.c.inside
  {
    match s.c.stage
    case Done => Step(s.c, 1)
    case AtError => Step(s.c.(status := Error), 1)
    case AtNotFound => Step(s.c.(status := FileNotFound), 1)
    case _ => s
  }

  function Front(c: Client): (s: Step)
    ensures s.c.inside ==> c.inside
    ensures s.r in {0, -1}
  {
    var s := if c.stage == AtScheme then ParseScheme(c) else Step(c, 0);
    if s.c.stage == AtMethod then Step(ParseMethod(s.c), s.r) else s
  }

  function Back(s: Step): (t: Step)
    ensures t.c.inside ==> s.c.inside
    ensures t.r in {0, -1, s.r}
  {
    var c := if s.c.stage == AtLength then ParseLength(s.c) else s.c;
    if c.stage == AtPath then ParsePath(c) else Step(c, s.r)
  }

  function Finish(s: Step): (t: Step)
    ensures t.c.inside ==> s.c.inside
    ensures t.r in {1, s.r}
  {
    Conclude(if s.c.stage == AtContent then Step(ParseContent(s.c), s.r) else s)
  }

  /** The stages in turn, as far as each leads to the next. */
  function Dispatch(c: Client): (s: Step)
    ensures s.c.inside ==> c.inside
    ensures s.r in {0, 1, -1}
  {
    Finish(Back(Front(c)))
  }

  /** What is asked of a read: the room in the buffer, but no more than the rest of the file once its length is known. */
  function RequestSize(c: Client): int
  {
    var room := RDBUFSIZE - c.contentPt;
    if PastHeader(c.stage) && U32(room + c.total) > c.fileLength then I32(c.fileLength - c.total) else room
  }

  predicate Requestable(c: Client)
  {
    0 <= RequestSize(c) && c.contentPt + RequestSize(c) <= RDBUFSIZE
  }

  function Received(c: Client, chunk: seq<char>): Client
    requires c.contentPt + |chunk| <= RDBUFSIZE
  {
    c.(buffer := c.buffer[..c.contentPt] + chunk + c.buffer[c.contentPt + |chunk|..],
       rx := U32(c.rx + |chunk|), total := U32(c.total + |chunk|))
  }

  /** How process_response ends: its result, the client, what is left of the stream, and whether the last read failed. */
  datatype Run = Run(result: int, c: Client, rest: seq<char>, failed: bool)

  /** process_response on a stream that arrives as the plan says. */
  function Respond(c: Client, incoming: seq<char>, plan: seq<nat>): Run
    decreases |plan|
  {
    if !Requestable(c) then Run(-1, Overrun(c), incoming, false) else
    var n := ReadLength(plan, RequestSize(c), |incoming|);
    if n <= 0 then Run(-1, c, incoming, n < 0) else
    var s := Dispatch(Received(c, incoming[..n]));
    if s.r == 1 then Run(0, s.c, incoming[n..], false)
    else if s.r < 0 || !s.c.inside then Run(s.r, s.c, incoming[n..], false)
    else Respond(s.c, incoming[n..], plan[1..])
  }
}
