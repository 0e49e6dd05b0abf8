/** The client's side of GETFILE (project1 gfclient.c): a state machine that parses the header in place in its buffer and
    hands the body on chunk by chunk. Each method is proved to do to the fields what ClientModel says, on every input on
    which the source stays in its buffer. */
module GfClient {
  import opened Wrappers
  import opened Decimal
  import opened GetFile
  import opened ClientModel

  class Request {
    var status: Status
    var fileLength: nat
    var fileLengthValid: bool
    var rxBytes: nat
    var totalRxBytes: nat
    var bytesWritten: nat
    const buffer: array<char>
    var headerPt: nat
    var lengthStart: nat
    var contentPt: nat
    var stage: Stage
    /** The position the next strtok goes on from. */
    var token: nat
    /** What the two callbacks have been given. */
    var written: seq<char>
    var headers: seq<seq<char>>

    constructor ()
      ensures Valid() && State() == Start() && fresh(buffer)
    {
      status, fileLength, fileLengthValid := Invalid, 0, false;
      rxBytes, totalRxBytes, bytesWritten := 0, 0, 0;
      headerPt, lengthStart, contentPt, stage, token := 0, 0, 0, AtScheme, 0;
      written, headers := [], [];
      buffer := new char[RDBUFSIZE](_ => NUL);
      new;
      assert buffer[..] == Nuls(RDBUFSIZE);
    }

    ghost predicate Valid()
    {
      buffer.Length == RDBUFSIZE
    }

    ghost function State(): Client
      requires Valid()
      reads this, buffer
    {
      Client(status, fileLength, fileLengthValid, rxBytes, totalRxBytes, bytesWritten, buffer[..], headerPt, lengthStart,
             contentPt, stage, token, written, headers, true)
    }

    /** send_request: the text printed into a buffer of 283 bytes. */
    method SendRequest(path: string) returns (text: string)
      requires |path| <= 265
      ensures text == "GETFILE GET " + path + " \r\n\r\n" && |text| + 1 <= 283
    {
      text := RequestText(SCHEME, METHOD, path);
      RequestLiteral(path);
    }

    // -------------------------------------------------------------- the header

    /** strtok with a space for the delimiter; the library remembers where it stopped. */
    method NextToken(from: nat) returns (tok: Option<(nat, nat)>)
      requires Valid() && StrtokAt(buffer[..], from, ' ').Some?
      modifies this`token, buffer
      ensures var k := StrtokAt(old(buffer[..]), from, ' ').value;
              && State() == old(State()).(buffer := k.after, token := k.next)
              && tok == if k.found then Some((k.start, k.end)) else None
    {
      var next;
      tok, next := Strtok(buffer, from, ' ');
      token := next;
    }

    method ParseScheme() returns (r: int)
      requires Valid() && ClientModel.ParseScheme(State()).c.inside
      modifies this, buffer
      ensures Step(State(), r) == ClientModel.ParseScheme(old(State()))
    {
      r := 0;
      if rxBytes >= SCHEME_SZ {
        var tok := NextToken(0);
        if tok == None || buffer[..SCHEME_SZ] != SCHEME {
          return -1;
        } else {
          headerPt := tok.value.1 - tok.value.0 + 1;
          stage := AtMethod;
        }
      }
    }

    /** The first half of parse_method. */
    method ParseOk()
      requires Valid() && ClientModel.ParseOk(State()).inside
      modifies this, buffer
      ensures State() == ClientModel.ParseOk(old(State()))
    {
      if U32(rxBytes - headerPt) > OK_SZ {
        var tok := NextToken(token);
        if tok.Some? && buffer[tok.value.0..tok.value.1] == "OK" {
          headerPt := headerPt + (tok.value.1 - tok.value.0) + 1;
          stage := AtLength;
          lengthStart := headerPt;
          status := Ok;
        }
      }
    }

    /** The second half. */
    method ParseFailure()
      requires Valid() && ClientModel.ParseFailure(State()).inside
      modifies this`stage
      ensures State() == ClientModel.ParseFailure(old(State()))
    {
      var methodBytes := I32(rxBytes - headerPt);
      if methodBytes > ERROR_SZ {
        if StartsAt(headerPt, "ERROR") {
          stage := AtError;
        }
      }
      if methodBytes > NOT_FOUND_SZ {
        if StartsAt(headerPt, "FILE_NOT_FOUND") {
          stage := AtNotFound;
        } else {
          stage := AtError;
        }
      }
    }

    /** strncmp of the buffer from a position on against a whole text, where it stays in the buffer. */
    predicate StartsAt(at: nat, text: string)
      requires Valid() && Strncmp(buffer[..], at, text) != Outside
      reads this, buffer
      ensures StartsAt(at, text) <==> Strncmp(buffer[..], at, text) == Equal
    {
      at + |text| <= buffer.Length && buffer[at..at + |text|] == text
    }

    method ParseMethod()
      requires Valid() && ClientModel.ParseMethod(State()).inside
      modifies this, buffer
      ensures State() == ClientModel.ParseMethod(old(State()))
    {
      ParseOk();
      if stage == AtMethod {
        ParseFailure();
      }
    }

    method ParseLength()
      requires Valid() && ClientModel.ParseLength(State()).inside
      modifies this`headerPt, this`stage
      ensures State() == ClientModel.ParseLength(old(State()))
    {
      ghost var c, e := State(), DigitsEnd(buffer[..], headerPt, rxBytes);
      while rxBytes >= headerPt && IsDigit(buffer[headerPt])
        invariant e.Some? && DigitsEnd(c.buffer, headerPt, rxBytes) == e && State() == c.(headerPt := headerPt)
        decreases buffer.Length - headerPt
      {
        headerPt := headerPt + 1;
      }
      if rxBytes < headerPt {
        return;
      }
      stage := AtPath;
    }

    /** The loop of parse_path that ignores spaces. */
    method SkipSpaces()
      requires Valid() && headerPt <= RDBUFSIZE && TokenStart(buffer[..], headerPt, ' ') < RDBUFSIZE
      modifies this`headerPt
      ensures State() == old(State()).(headerPt := TokenStart(old(buffer[..]), old(headerPt), ' '))
    {
      ghost var c := State();
      ghost var h := TokenStart(c.buffer, headerPt, ' ');
      while buffer[headerPt] == ' '
        invariant headerPt <= h < buffer.Length && TokenStart(c.buffer, headerPt, ' ') == h
        invariant State() == c.(headerPt := headerPt)
        decreases buffer.Length - headerPt
      {
        headerPt := headerPt + 1;
      }
    }

    /** The first half of parse_path: the length, and the spaces behind it. */
    method ReadLengthField()
      requires Valid() && ClientModel.ReadLengthField(State()).inside
      modifies this`fileLength, this`fileLengthValid, this`headerPt
      ensures State() == ClientModel.ReadLengthField(old(State()))
    {
      var lengthSize := headerPt - lengthStart;
      assert buffer[lengthStart..lengthStart + lengthSize] == buffer[..][lengthStart..headerPt];
      fileLength := U32(Atoi(buffer[lengthStart..lengthStart + lengthSize]).value);
      fileLengthValid := true;
      SkipSpaces();
    }

    /** The second half: the end sequence. */
    method ParseEnd() returns (r: int)
      requires Valid() && ClientModel.ParseEnd(State()).c.inside
      modifies this
      ensures Step(State(), r) == ClientModel.ParseEnd(old(State()))
    {
      if U32(rxBytes - headerPt) >= ENDSEQ {
        if StartsAt(headerPt, END_SEQUENCE) {
          headerPt := headerPt + ENDSEQ;
          headers := headers + [buffer[0..headerPt]];
          stage := AtContent;
          totalRxBytes := U32(totalRxBytes - headerPt);
          contentPt := headerPt;
        } else {
          status := Error;
          return -1;
        }
      }
      r := 0;
    }

    method ParsePath() returns (r: int)
      requires Valid() && ClientModel.ParsePath(State()).c.inside
      modifies this
      ensures Step(State(), r) == ClientModel.ParsePath(old(State()))
    {
      ReadLengthField();
      r := ParseEnd();
    }

    // -------------------------------------------------------------- the body

    method ParseContent()
      requires Valid() && ClientModel.ParseContent(State()).inside
      modifies this
      ensures State() == ClientModel.ParseContent(old(State()))
    {
      if rxBytes > contentPt {
        var packetLength := rxBytes - contentPt;
        written := written + buffer[contentPt..contentPt + packetLength];
        bytesWritten := U32(bytesWritten + packetLength);
        contentPt := contentPt + packetLength;
        if contentPt == RDBUFSIZE {
          contentPt := 0;
          rxBytes := 0;
        }
        if bytesWritten >= fileLength {
          stage := Done;
        }
      }
    }

    // -------------------------------------------------------------- a turn of the loop

    method Front() returns (r: int)
      requires Valid() && ClientModel.Front(State()).c.inside
      modifies this, buffer
      ensures Step(State(), r) == ClientModel.Front(old(State()))
    {
      r := 0;
      if stage == AtScheme {
        r := ParseScheme();
      }
      if stage == AtMethod {
        ParseMethod();
      }
    }

    method Back(r0: int) returns (r: int)
      requires Valid() && ClientModel.Back(Step(State(), r0)).c.inside
      modifies this
      ensures Step(State(), r) == ClientModel.Back(Step(old(State()), r0))
    {
      r := r0;
      if stage == AtLength {
        ParseLength();
      }
      if stage == AtPath {
        r := ParsePath();
      }
    }

    method Finish(r0: int) returns (r: int)
      requires Valid() && ClientModel.Finish(Step(State(), r0)).c.inside
      modifies this
      ensures Step(State(), r) == ClientModel.Finish(Step(old(State()), r0))
    {
      r := r0;
      if stage == AtContent {
        ParseContent();
      }
      if stage == Done {
        r := 1;
      }
      if stage == AtError {
        status := Error;
        r := 1;
      }
      if stage == AtNotFound {
        status := FileNotFound;
        r := 1;
      }
    }

    /** The stages in turn. */
    method Dispatch() returns (r: int)
      requires Valid() && ClientModel.Dispatch(State()).c.inside
      modifies this, buffer
      ensures Step(State(), r) == ClientModel.Dispatch(old(State()))
    {
      r := Front();
      r := Back(r);
      r := Finish(r);
    }

    /** The read at the head of the loop. */
    method Receive(s: Socket) returns (n: int)
      requires Valid() && Requestable(State())
      modifies this`rxBytes, this`totalRxBytes, buffer, s
      ensures n == ReadLength(old(s.plan), RequestSize(old(State())), |old(s.incoming)|) && s.failed == (n < 0)
      ensures n <= 0 ==> State() == old(State()) && s.incoming == old(s.incoming)
      ensures 0 < n ==> State() == Received(old(State()), old(s.incoming)[..n]) && s.incoming == old(s.incoming)[n..]
                        && old(s.plan) != [] && s.plan == old(s.plan)[1..]
    {
      var requestSize := RDBUFSIZE - contentPt;
      if PastHeader(stage) && U32(requestSize + totalRxBytes) > fileLength {
        requestSize := I32(fileLength - totalRxBytes);
      }
      n := s.Read(buffer, contentPt, requestSize);
      if 0 < n {
        rxBytes := U32(rxBytes + n);
        totalRxBytes := U32(totalRxBytes + n);
      }
    }

    /** process_response, on every stream and however it is fragmented, as long as the source stays in its buffer. */
    method ProcessResponse(s: Socket) returns (r: int)
      requires Valid() && Respond(State(), s.incoming, s.plan).c.inside
      modifies this, buffer, s
      ensures var run := Respond(old(State()), old(s.incoming), old(s.plan));
              r == run.result && State() == run.c && s.incoming == run.rest && s.failed == run.failed
    {
      hide ClientModel.Dispatch, Received;
      while true
        invariant Respond(State(), s.incoming, s.plan) == old(Respond(State(), s.incoming, s.plan))
        decreases |s.plan|
      {
        var n := Receive(s);
        if n <= 0 {
          return -1;
        }
        r := Dispatch();
        if r == 1 {
          return 0;
        }
        if r < 0 {
          return r;
        }
      }
    }
  }
}
