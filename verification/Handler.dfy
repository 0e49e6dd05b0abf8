/** Sending a response (gfs_sendheader and gfs_send of project1 gfserver.c, handler_get of handler.c). */
module Handler {
  import opened GetFile

  const BUFFER_SIZE := 4096

  /** The sending end of a connection. Each write takes as many bytes as its entry of the plan says, a negative entry
      is a failure; when the plan is used up writes are complete. */
  class Connection {
    var sent: seq<char>
    var plan: seq<int>
    var aborted: bool
    /** How many bytes each write was given. */
    var writes: seq<nat>

    constructor (plan: seq<int>)
      ensures sent == [] && !aborted && this.plan == plan && writes == []
    {
      this.sent, this.plan, this.aborted, this.writes := [], plan, false, [];
    }

    method Write(data: seq<char>) returns (n: int)
      modifies this`sent, this`plan, this`writes
      ensures -1 <= n <= |data| && writes == old(writes) + [|data|]
      ensures sent == old(sent) + data[..if n < 0 then 0 else n]
      ensures plan == if old(plan) == [] then [] else old(plan)[1..]
      ensures old(plan) == [] ==> n == |data|
    {
      n := if plan == [] then |data| else if plan[0] < 0 then -1 else if plan[0] <= |data| then plan[0] else |data|;
      plan := if plan == [] then [] else plan[1..];
      sent := sent + data[..if n < 0 then 0 else n];
      writes := writes + [|data|];
    }

    /** gfs_abort, which also shuts the server's own socket. */
    method Abort()
      modifies this`aborted
      ensures aborted
    {
      aborted := true;
    }
  }

  method SendHeader(c: Connection, s: Status, length: nat) returns (n: int)
    requires s != Invalid
    modifies c`sent, c`plan, c`writes
    ensures -1 <= n <= |HeaderText(s, length)| && c.writes == old(c.writes) + [|HeaderText(s, length)|]
    ensures c.sent == old(c.sent) + HeaderText(s, length)[..if n < 0 then 0 else n]
    ensures c.plan == if old(c.plan) == [] then [] else old(c.plan)[1..]
    ensures old(c.plan) == [] ==> n == |HeaderText(s, length)|
  {
    n := c.Write(HeaderText(s, length));
  }

  /** What pread delivers for at most k bytes when it may deliver p of them: never past the end of the file. */
  function PreadLength(file: seq<char>, k: nat, offset: nat, p: int): (n: int)
    requires offset <= |file|
    ensures n <= k && n <= |file| - offset
    ensures 0 < p && 0 < k && offset < |file| ==> 0 < n
    ensures p == k ==> n == if k <= |file| - offset then k else |file| - offset
  {
    if p <= 0 then p
    else if p <= k && p <= |file| - offset then p
    else if k <= |file| - offset then k
    else |file| - offset
  }

  /** The chunks a file of n bytes is sent in when every read delivers as much as it can. */
  function Chunks(n: nat): seq<nat>
  {
    if n == 0 then [] else if n <= 4096 then [n] else [4096] + Chunks(n - 4096)
  }

  lemma {:induction false} NextChunk(n: nat)
    ensures Chunks(n) == if n == 0 then [] else var k := if n <= 4096 then n else 4096; [k] + Chunks(n - k)
  {
  }

  /** What one run of the handler put on the wire: the part h of the header that was written, and the first m bytes of
      the file. */
  ghost predicate SentParts(sent: seq<char>, file: seq<char>, h: int, m: int)
  {
    && 0 <= h <= |HeaderText(Ok, |file|)| && 0 <= m <= |file|
    && sent == HeaderText(Ok, |file|)[..h] + file[..m]
  }

  /** handler_get. The preads decide how much each read of the file delivers; when they are used up, reads deliver as
      much as they can. The handler does not look at how much of the header was written: it succeeds exactly when the
      whole file was sent, and then returns the file's size. */
  method HandleGet(c: Connection, content: map<string, seq<char>>, path: string, preads: seq<int>)
    returns (r: int, ghost h: int, ghost m: int)
    modifies c
    ensures path !in content ==>
              && -1 <= r <= |HeaderText(FileNotFound, 0)|
              && c.sent == old(c.sent) + HeaderText(FileNotFound, 0)[..if r < 0 then 0 else r]
              && (old(c.plan) == [] ==> r == |HeaderText(FileNotFound, 0)|)
              && c.aborted == old(c.aborted)
    ensures path in content ==>
              && |c.sent| >= |old(c.sent)| && c.sent[..|old(c.sent)|] == old(c.sent)
              && SentParts(c.sent[|old(c.sent)|..], content[path], h, m)
              && (r == -1 || r == |content[path]|)
              && (0 <= r <==> m == |content[path]|)
              && c.aborted == (old(c.aborted) || r < 0)
    ensures path in content && old(c.plan) == [] ==> h == |HeaderText(Ok, |content[path]|)|
    ensures path in content && old(c.plan) == [] && preads == [] ==>
              c.writes == old(c.writes) + [|HeaderText(Ok, |content[path]|)|] + Chunks(|content[path]|)
    ensures path in content && old(c.plan) == [] && (forall k :: 0 <= k < |preads| ==> 0 < preads[k]) ==> 0 <= r
  {
    hide HeaderText, SentParts, Chunks;
    if path !in content {
      r := SendHeader(c, FileNotFound, 0);
      return r, 0, 0;
    }
    var file := content[path];
    ghost var before := c.sent;
    var headerSent := SendHeader(c, Ok, |file|);
    h := if headerSent < 0 then 0 else headerSent;
    r, m := SendFile(c, file, preads);
    PartsOf(before, file, h, m, c.sent);
  }

  /** The loop of handler_get. */
  method SendFile(c: Connection, file: seq<char>, preads: seq<int>) returns (r: int, ghost m: int)
    modifies c
    ensures 0 <= m <= |file| && c.sent == old(c.sent) + file[..m]
    ensures (r == -1 || r == |file|) && (0 <= r <==> m == |file|)
    ensures c.aborted == (old(c.aborted) || r < 0)
    ensures old(c.plan) == [] && preads == [] ==> c.writes == old(c.writes) + Chunks(|file|)
    ensures old(c.plan) == [] && (forall k :: 0 <= k < |preads| ==> 0 < preads[k]) ==> 0 <= r
  {
    hide Chunks, PreadLength;
    var fileLen := |file|;
    var transferred := 0;
    var turn := 0;
    m := 0;
    assert file[..0] == [];
    while transferred < fileLen
      invariant 0 <= transferred <= fileLen && m == transferred
      invariant c.sent == old(c.sent) + file[..m]
      invariant c.aborted == old(c.aborted)
      invariant old(c.plan) == [] ==> c.plan == []
      invariant old(c.plan) == [] && preads == [] ==>
                  c.writes + Chunks(fileLen - transferred) == old(c.writes) + Chunks(fileLen)
      decreases fileLen - transferred
    {
      NextChunk(fileLen - transferred);
      var readLen := PreadLength(file, BUFFER_SIZE, transferred, if turn < |preads| then preads[turn] else BUFFER_SIZE);
      if readLen <= 0 {
        c.Abort();
        return -1, m;
      }
      turn := turn + 1;
      var data := file[transferred..transferred + readLen];
      var writeLen := c.Write(data);
      m := transferred + if writeLen < 0 then 0 else writeLen;
      Prolonged(file, transferred, readLen, m);
      if writeLen != readLen {
        c.Abort();
        return -1, m;
      }
      transferred := transferred + writeLen;
    }
    NextChunk(0);
    r := transferred;
  }

  lemma {:induction false} Prolonged(file: seq<char>, from: int, n: int, m: int)
    requires 0 <= from <= m <= from + n <= |file|
    ensures file[..m] == file[..from] + file[from..from + n][..m - from]
  {
  }

  lemma {:induction false} PartsOf(before: seq<char>, file: seq<char>, h: int, m: int, sent: seq<char>)
    requires 0 <= h <= |HeaderText(Ok, |file|)| && 0 <= m <= |file|
    requires sent == before + HeaderText(Ok, |file|)[..h] + file[..m]
    ensures |before| <= |sent| && sent[..|before|] == before && SentParts(sent[|before|..], file, h, m)
  {
    assert sent[|before|..] == HeaderText(Ok, |file|)[..h] + file[..m];
  }
}
