/** The server's side of GETFILE (project1 gfserver.c): parsing the request in place. Each method is proved to do to the
    fields what ServerModel says, on every input on which the source stays in its buffer. */
module GfServer {
  import opened Wrappers
  import opened GetFile
  import opened ServerModel

  class Context {
    var path: Option<string>
    var pathLength: int
    var status: Status
    var rxBytes: nat
    var totalRxBytes: nat
    const buffer: array<char>
    var headerPt: nat
    var stage: Stage
    /** The position the next strtok goes on from. */
    var token: nat

    constructor ()
      ensures Valid() && State() == Start() && fresh(buffer)
    {
      path, pathLength, status, rxBytes, totalRxBytes, headerPt, stage, token := None, -1, Ok, 0, 0, 0, AtScheme, 0;
      buffer := new char[BUFSIZE](_ => NUL);
      new;
      assert buffer[..] == Nuls(BUFSIZE);
    }

    ghost predicate Valid()
    {
      buffer.Length == BUFSIZE
    }

    ghost function State(): Server
      requires Valid()
      reads this, buffer
    {
      Server(path, pathLength, status, rxBytes, totalRxBytes, buffer[..], headerPt, stage, token, true)
    }

    /** strtok; the library remembers where it stopped. */
    method NextToken(from: nat, delim: char) returns (tok: Option<(nat, nat)>)
      requires Valid() && delim != NUL && StrtokAt(buffer[..], from, delim).Some?
      modifies this`token, buffer
      ensures var k := StrtokAt(old(buffer[..]), from, delim).value;
              && State() == old(State()).(buffer := k.after, token := k.next)
              && tok == if k.found then Some((k.start, k.end)) else None
    {
      var next;
      tok, next := Strtok(buffer, from, delim);
      token := next;
    }

    method ParseScheme() returns (r: int)
      requires Valid() && ServerModel.ParseScheme(State()).c.inside
      modifies this, buffer
      ensures Step(State(), r) == ServerModel.ParseScheme(old(State()))
    {
      r := 0;
      if rxBytes >= SCHEME_SZ {
        var tok := NextToken(0, ' ');
        if tok == None || buffer[..SCHEME_SZ] != SCHEME {
          status := FileNotFound;
          return -1;
        }
        headerPt := tok.value.1 - tok.value.0 + 1;
        stage := AtMethod;
      }
    }

    method ParseMethod() returns (r: int)
      requires Valid() && ServerModel.ParseMethod(State()).c.inside
      modifies this, buffer
      ensures Step(State(), r) == ServerModel.ParseMethod(old(State()))
    {
      r := 0;
      if U32(rxBytes - headerPt) >= GET_SZ {
        var tok := NextToken(token, ' ');
        if tok.Some? && buffer[tok.value.0..tok.value.1] == METHOD {
          headerPt := headerPt + (tok.value.1 - tok.value.0) + 1;
          stage := AtPath;
        } else {
          status := FileNotFound;
          return -1;
        }
      }
    }

    /** strcmp of the buffer from a position on with the end sequence. */
    predicate EndsAt(at: nat)
      requires Valid() && Strncmp(buffer[..], at, END_SEQUENCE + [NUL]) != Outside
      reads this, buffer
      ensures EndsAt(at) <==> Strncmp(buffer[..], at, END_SEQUENCE + [NUL]) == Equal
    {
      at + 5 <= buffer.Length && buffer[at..at + 5] == END_SEQUENCE + [NUL]
    }

    /** The second attempt of parse_path. */
    method ParseReturn() returns (r: int)
      requires Valid() && status == Ok && ServerModel.ParseReturn(State()).c.inside
      modifies this, buffer
      ensures Step(State(), r) == ServerModel.ParseReturn(old(State()))
    {
      hide TokenStart, TokenEnd, StrtokAt;
      var tok := NextToken(token, '\r');
      if tok.Some? {
        path := Some(buffer[tok.value.0..tok.value.1]);
        pathLength := headerPt + (tok.value.1 - tok.value.0);
        headerPt := headerPt + (tok.value.1 - tok.value.0) + 1;
        if !EndsAt(headerPt) {
          status := FileNotFound;
        }
      } else if totalRxBytes > MAX_PATH + GET_SZ + SCHEME_SZ {
        status := FileNotFound;
      }
      r := if status == FileNotFound then -1 else 0;
    }

    method ParsePath() returns (r: int)
      requires Valid() && status == Ok && ServerModel.ParsePath(State()).c.inside
      modifies this, buffer
      ensures Step(State(), r) == ServerModel.ParsePath(old(State()))
    {
      var tok := NextToken(token, ' ');
      if tok.Some? {
        path := Some(buffer[tok.value.0..tok.value.1]);
        pathLength := headerPt + (tok.value.1 - tok.value.0);
        r := 0;
      } else {
        r := ParseReturn();
      }
    }

    /** The stages in turn. */
    method Dispatch() returns (r: int)
      requires Valid() && status == Ok && ServerModel.Dispatch(State()).c.inside
      modifies this, buffer
      ensures Step(State(), r) == ServerModel.Dispatch(old(State()))
    {
      r := 0;
      if stage == AtScheme {
        r := ParseScheme();
      }
      if stage == AtMethod {
        r := ParseMethod();
      }
      if stage == AtPath {
        r := ParsePath();
      }
    }

    /** The read at the head of the loop. */
    method Receive(s: Socket) returns (n: int)
      requires Valid() && status == Ok && headerPt <= BUFSIZE
      requires var n := ReadLength(s.plan, BUFSIZE - headerPt, |s.incoming|);
               0 < n ==> Received(State(), s.incoming[..n]).inside
      modifies this`status, this`rxBytes, this`totalRxBytes, buffer, s
      ensures n == ReadLength(old(s.plan), BUFSIZE - headerPt, |old(s.incoming)|)
      ensures n <= 0 ==> s.incoming == old(s.incoming)
                         && State() == old(State()).(status := if n < 0 then Error else FileNotFound)
      ensures 0 < n ==> State() == Received(old(State()), old(s.incoming)[..n]) && s.incoming == old(s.incoming)[n..]
                        && old(s.plan) != [] && s.plan == old(s.plan)[1..]
    {
      ghost var c, chunk := State(), s.incoming;
      n := s.Read(buffer, headerPt, BUFSIZE - headerPt);
      if n < 0 {
        status := Error;
      }
      if n == 0 {
        status := FileNotFound;
      }
      if status == Ok {
        rxBytes := rxBytes + n;
        totalRxBytes := totalRxBytes + n;
        assert State() == Received(c, chunk[..n]);
      }
    }

    /** process_request, on every stream and however it is fragmented, as long as the source stays in its buffer. */
    method ProcessRequest(s: Socket) returns (r: int)
      requires Valid() && status == Ok && Process(State(), s.incoming, s.plan).c.inside
      modifies this, buffer, s
      ensures Run(r, State(), s.incoming) == Process(old(State()), old(s.incoming), old(s.plan))
    {
      hide ServerModel.Dispatch;
      while true
        invariant status == Ok
        invariant Process(State(), s.incoming, s.plan) == old(Process(State(), s.incoming, s.plan))
        decreases |s.plan|
      {
        var n := Receive(s);
        if status != Ok {
          return -1;
        }
        r := Dispatch();
        if r == -1 {
          return -2;
        }
      }
    }
  }
}
