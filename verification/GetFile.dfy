/** The GETFILE texts, and the pieces of C that both ends parse them with: a socket, and strtok on a buffer. */
module GetFile {
  import opened Wrappers
  import opened Decimal

  const SCHEME := "GETFILE"
  const METHOD := "GET"
  const END_SEQUENCE := "\r\n\r\n"

  /** The buffer for requests and headers on both sides: 255 + 5 + 7 + 16. */
  const BUFSIZE := 283

  datatype Status = Ok | FileNotFound | Error | Invalid

  function StatusText(s: Status): string
    requires s != Invalid
  {
    match s
    case Ok => "OK"
    case FileNotFound => "FILE_NOT_FOUND"
    case Error => "ERROR"
  }

  /** What gfs_sendheader prints. */
  function HeaderText(s: Status, length: nat): string
    requires s != Invalid
  {
    SCHEME + " " + StatusText(s) + " " + Print(length) + END_SEQUENCE
  }

  /** What send_request prints. */
  function RequestText(scheme: string, meth: string, path: string): string
  {
    scheme + " " + meth + " " + path + " " + END_SEQUENCE
  }

  /** The texts on the wire, letter by letter. */
  lemma {:induction false} HeaderLiterals(length: nat)
    ensures HeaderText(Ok, length) == "GETFILE OK " + Print(length) + "\r\n\r\n"
    ensures HeaderText(FileNotFound, length) == "GETFILE FILE_NOT_FOUND " + Print(length) + "\r\n\r\n"
    ensures HeaderText(Error, length) == "GETFILE ERROR " + Print(length) + "\r\n\r\n"
    ensures HeaderText(FileNotFound, 0) == "GETFILE FILE_NOT_FOUND 0\r\n\r\n"
  {
    Digits(0);
    assert SCHEME + " " + "OK" + " " == "GETFILE OK ";
    assert SCHEME + " " + "FILE_NOT_FOUND" + " " == "GETFILE FILE_NOT_FOUND ";
    assert SCHEME + " " + "ERROR" + " " == "GETFILE ERROR ";
  }

  lemma {:induction false} RequestLiteral(path: string)
    ensures RequestText(SCHEME, METHOD, path) == "GETFILE GET " + path + " \r\n\r\n"
  {
    assert SCHEME + " " + METHOD + " " == "GETFILE GET ";
    assert "GETFILE GET " + path + " " + END_SEQUENCE == "GETFILE GET " + path + (" " + END_SEQUENCE);
  }

  /** A printed header fits the buffer it is printed into, for every length a size_t can hold. */
  lemma {:induction false} HeaderFits(s: Status, length: nat)
    requires s != Invalid && length < 0x1_0000_0000_0000_0000
    ensures |HeaderText(s, length)| + 1 <= BUFSIZE
  {
    assert Pow10(5) == 100_000;
    assert Pow10(10) == 100_000 * Pow10(5);
    assert Pow10(15) == 100_000 * Pow10(10);
    assert Pow10(20) == 100_000 * Pow10(15);
    PrintLength(length, 20);
  }

  /** A request with its terminator fits exactly up to a path of 265 characters. */
  lemma {:induction false} RequestFitsIff(path: string)
    ensures |RequestText(SCHEME, METHOD, path)| + 1 <= BUFSIZE <==> |path| <= 265
  {
  }

  // ---------------------------------------------------------------- sockets

  /** What a read of up to k bytes delivers when so many are available. */
  function ReadLength(plan: seq<nat>, k: nat, available: nat): (n: int)
    ensures -1 <= n <= k && n <= available
  {
    if plan == [] || plan[0] == 0 then -1
    else if plan[0] <= k && plan[0] <= available then plan[0]
    else if k <= available then k
    else available
  }

  /** The receiving end of a connection. The plan decides how the stream is fragmented: each read delivers at most
      as many bytes as its entry says; an entry of zero, and a plan that is used up, stand for a timeout. */
  class Socket {
    var incoming: seq<char>
    var plan: seq<nat>
    /** Whether the last read failed. */
    var failed: bool

    constructor (incoming: seq<char>, plan: seq<nat>)
      ensures this.incoming == incoming && this.plan == plan && !failed
    {
      this.incoming, this.plan, this.failed := incoming, plan, false;
    }

    /** The number of bytes the next read of up to k bytes delivers; 0 at the end of the stream, -1 on a failure. */
    function NextRead(k: nat): (n: int)
      reads this
      ensures -1 <= n <= k && n <= |incoming|
    {
      ReadLength(plan, k, |incoming|)
    }

    /** read(fd, buffer + at, k). */
    method Read(buffer: array<char>, at: nat, k: nat) returns (n: int)
      requires at + k <= buffer.Length
      modifies this, buffer
      ensures n == old(NextRead(k)) && failed == (n < 0)
      ensures plan == if old(plan) == [] then [] else old(plan)[1..]
      ensures n <= 0 ==> incoming == old(incoming) && buffer[..] == old(buffer[..])
      ensures 0 < n ==> incoming == old(incoming)[n..]
      ensures 0 < n ==> buffer[..] == old(buffer[..at]) + old(incoming)[..n] + old(buffer[at + n..])
    {
      n := NextRead(k);
      failed := n < 0;
      plan := if plan == [] then [] else plan[1..];
      if 0 < n {
        forall j | 0 <= j < n {
          buffer[at + j] := incoming[j];
        }
        incoming := incoming[n..];
      }
    }
  }

  // ---------------------------------------------------------------- the integers of C

  /** Conversion to unsigned and to int. */
  function U32(x: int): (u: nat)
    ensures u < 0x1_0000_0000
  {
    x % 0x1_0000_0000
  }

  function I32(x: int): int
  {
    if U32(x) < 0x8000_0000 then U32(x) else U32(x) - 0x1_0000_0000
  }

  // ---------------------------------------------------------------- strtok and strncmp

  const NUL := '\0'

  function Nuls(n: nat): (s: seq<char>)
    ensures |s| == n && forall k :: 0 <= k < n ==> s[k] == NUL
  {
    seq(n, _ => NUL)
  }

  /** Where a token starts: the first character from i on that is not the delimiter. */
  function TokenStart(b: seq<char>, i: nat, delim: char): (t: nat)
    requires i <= |b|
    ensures i <= t <= |b|
    ensures forall k :: i <= k < t ==> b[k] == delim
    ensures t < |b| ==> b[t] != delim
    decreases |b| - i
  {
    if i < |b| && b[i] == delim then TokenStart(b, i + 1, delim) else i
  }

  /** Where it ends: at the first delimiter or terminator. */
  function TokenEnd(b: seq<char>, i: nat, delim: char): (e: nat)
    requires i <= |b|
    ensures i <= e <= |b|
    ensures forall k :: i <= k < e ==> b[k] != delim && b[k] != NUL
    ensures e < |b| ==> b[e] == delim || b[e] == NUL
    decreases |b| - i
  {
    if i < |b| && b[i] != delim && b[i] != NUL then TokenEnd(b, i + 1, delim) else i
  }

  /** What a call of strtok finds: the token by its first and last position, where the next call goes on, and the
      buffer afterwards, with a terminator in the place of the delimiter. */
  datatype Scan = Scan(found: bool, start: nat, end: nat, next: nat, after: seq<char>)

  /** None when the call would run out of the buffer. */
  function StrtokAt(b: seq<char>, from: nat, delim: char): (k: Option<Scan>)
    ensures k.Some? ==> from <= k.value.start <= k.value.end < |b| == |k.value.after|
  {
    if from > |b| then None else
    var t := TokenStart(b, from, delim);
    var e := TokenEnd(b, t, delim);
    if e >= |b| then None
    else if t == e then Some(Scan(false, t, t, t, b))
    else Some(Scan(true, t, e, if b[e] == NUL then e else e + 1, b[e := NUL]))
  }

  /** strtok from a position in the buffer; next is where the following call goes on. */
  method Strtok(buffer: array<char>, from: nat, delim: char) returns (tok: Option<(nat, nat)>, next: nat)
    requires delim != NUL && StrtokAt(buffer[..], from, delim).Some?
    modifies buffer
    ensures var k := StrtokAt(old(buffer[..]), from, delim).value;
            && tok == (if k.found then Some((k.start, k.end)) else None)
            && next == k.next && buffer[..] == k.after
  {
    ghost var b := buffer[..];
    var t := from;
    while buffer[t] == delim
      invariant from <= t < buffer.Length && TokenStart(b, from, delim) == TokenStart(b, t, delim)
      decreases buffer.Length - t
    {
      t := t + 1;
    }
    if buffer[t] == NUL {
      return None, t;
    }
    var e := t;
    while buffer[e] != delim && buffer[e] != NUL
      invariant t <= e < buffer.Length && TokenEnd(b, t, delim) == TokenEnd(b, e, delim)
      decreases buffer.Length - e
    {
      e := e + 1;
    }
    next := if buffer[e] == NUL then e else e + 1;
    buffer[e] := NUL;
    tok := Some((t, e));
  }

  datatype Comparison = Equal | Differs | Outside

  /** strncmp of the buffer against a whole text without terminators: it stops at the first difference. */
  function Strncmp(b: seq<char>, at: nat, text: string): Comparison
  {
    if at + |text| <= |b| then (if b[at..at + |text|] == text then Equal else Differs)
    else if at < |b| && !(b[at..] <= text) then Differs
    else Outside
  }

  /** It is decided by the first difference, wherever the text would end; the buffer is left only if there is none before
      its end. */
  lemma {:induction false} StrncmpIff(b: seq<char>, at: nat, text: string)
    requires at < |b|
    ensures Strncmp(b, at, text) == Equal <==> HasAt(b, at, text)
    ensures Strncmp(b, at, text) == Differs <==> exists k :: 0 <= k < |text| && at + k < |b| && b[at + k] != text[k]
  {
    if at + |text| <= |b| {
      var part := b[at..at + |text|];
      assert forall k :: 0 <= k < |text| ==> b[at + k] == part[k];
      if part != text { var k :| 0 <= k < |text| && part[k] != text[k]; }
    } else {
      var part := b[at..];
      assert forall k :: 0 <= k < |part| ==> b[at + k] == part[k];
      if !(part <= text) {
        assert part != text[..|part|];
        var k :| 0 <= k < |part| && part[k] != text[..|part|][k];
        assert b[at + k] != text[k];
      }
    }
  }

  /** Reading a token off a text whose shape is known. */
  lemma {:induction false} TokenIs(b: seq<char>, i: nat, t: nat, e: nat, delim: char)
    requires i <= t <= e < |b| && delim != NUL
    requires forall k :: i <= k < t ==> b[k] == delim
    requires b[t] != delim
    requires forall k :: t <= k < e ==> b[k] != delim && b[k] != NUL
    requires b[e] == delim || b[e] == NUL
    ensures TokenStart(b, i, delim) == t && TokenEnd(b, t, delim) == e
  {
    var t', e' := TokenStart(b, i, delim), TokenEnd(b, t, delim);
    assert t <= t' && t' <= t;
    assert e <= e' && e' <= e;
  }

  /** The buffer holds the text at a position: strncmp finds them equal. */
  predicate HasAt(b: seq<char>, at: int, text: string)
  {
    0 <= at && at + |text| <= |b| && b[at..at + |text|] == text
  }

  lemma {:induction false} PartAt(b: seq<char>, at: int, text: string, i: nat, j: nat)
    requires HasAt(b, at, text) && i <= j <= |text|
    ensures HasAt(b, at + i, text[i..j])
  {
    forall k | i <= k < j ensures b[at + k] == text[k] {
      assert b[at..at + |text|][k] == b[at + k];
    }
  }

  lemma {:induction false} AtEveryPosition(b: seq<char>, at: nat, text: seq<char>)
    requires HasAt(b, at, text)
    ensures forall k :: at <= k < at + |text| ==> b[k] == text[k - at]
  {
    forall k | at <= k < at + |text| ensures b[k] == text[k - at] {
      assert b[at..at + |text|][k - at] == b[k];
    }
  }

  /** Spaces, then a word, then a space or the end. */
  ghost predicate IsFirstToken(text: seq<char>, t: nat, e: nat)
  {
    && t < e <= |text|
    && (forall k :: 0 <= k < t ==> text[k] == ' ')
    && (forall k :: t <= k < e ==> text[k] != ' ' && text[k] != NUL)
    && (e < |text| ==> text[e] == ' ')
  }

  /** A token of a text that lies in the buffer and is terminated there. */
  lemma {:induction false} TokenWithin(b: seq<char>, at: nat, text: seq<char>, t: nat, e: nat)
    requires HasAt(b, at, text) && at + |text| < |b| && b[at + |text|] == NUL && IsFirstToken(text, t, e)
    ensures TokenStart(b, at, ' ') == at + t && TokenEnd(b, at + t, ' ') == at + e
    ensures b[at + t..at + e] == text[t..e]
  {
    AtEveryPosition(b, at, text);
    TokenIs(b, at, at + t, at + e, ' ');
    PartAt(b, at, text, t, e);
  }

  /** The word at the beginning of a text, as strtok finds it. */
  lemma {:induction false} FirstWordAt(b: seq<char>, at: nat, word: string, tail: string)
    requires HasAt(b, at, word + " " + tail)
    requires IsWord(word)
    ensures HasAt(b, at, word) && at + |word| < |b| && b[at + |word|] == ' ' && HasAt(b, at + |word| + 1, tail)
    ensures TokenStart(b, at, ' ') == at && TokenEnd(b, at, ' ') == at + |word|
  {
    var text := word + " " + tail;
    assert text[0..|word|] == word && text[|word|..|word| + 1] == " " && text[|word| + 1..|text|] == tail;
    PartAt(b, at, text, 0, |word|);
    PartAt(b, at, text, |word|, |word| + 1);
    PartAt(b, at, text, |word| + 1, |text|);
    assert b[at + |word|..at + |word| + 1][0] == ' ';
    forall k | at <= k < at + |word| ensures b[k] == word[k - at] {
      assert b[at..at + |word|][k - at] == b[k];
    }
    TokenIs(b, at, at, at + |word|, ' ');
  }

  /** A word without spaces and terminators, as strtok delivers it. */
  ghost predicate IsWord(word: string)
  {
    word != [] && forall k :: 0 <= k < |word| ==> word[k] != ' ' && word[k] != NUL
  }

  predicate BeginsWith(word: string, pattern: string)
  {
    |word| >= |pattern| && word[..|pattern|] == pattern
  }

  /** Both ends take every word for the scheme that begins with GETFILE. */
  ghost predicate IsScheme(word: string)
  {
    IsWord(word) && BeginsWith(word, SCHEME)
  }

  /** strncmp against a pattern, once the word is terminated. */
  lemma {:induction false} PrefixCompared(b: seq<char>, at: nat, word: string, pattern: string)
    requires HasAt(b, at, word) && at + |word| < |b| && b[at + |word|] == NUL && at + |pattern| <= |b|
    requires NUL !in pattern
    ensures b[at..at + |pattern|] == pattern <==> BeginsWith(word, pattern)
  {
    if |word| >= |pattern| {
      PartAt(b, at, word, 0, |pattern|);
    } else {
      assert b[at..at + |pattern|][|word|] == NUL;
      assert pattern[|word|] in pattern;
    }
  }

  /** A terminator written elsewhere leaves a text alone. */
  lemma {:induction false} TerminatorElsewhere(b: seq<char>, e: nat, at: int, text: string)
    requires HasAt(b, at, text) && e < |b| && (e < at || at + |text| <= e)
    ensures HasAt(b[e := NUL], at, text)
  {
    assert b[e := NUL][at..at + |text|] == b[at..at + |text|];
  }

  function Blanks(n: nat): (s: string)
    ensures |s| == n && forall k :: 0 <= k < n ==> s[k] == ' '
  {
    seq(n, _ => ' ')
  }

  /** strtok on a word behind any number of spaces. */
  lemma {:induction false} GapToken(b: seq<char>, at: nat, gap: nat, word: string, more: seq<char>)
    requires HasAt(b, at, Blanks(gap) + word + " " + more) && IsWord(word)
    ensures var t, e := at + gap, at + gap + |word|;
            && e < |b| && StrtokAt(b, at, ' ') == Some(Scan(true, t, e, e + 1, b[e := NUL]))
            && b[e := NUL][t..e] == word && HasAt(b[e := NUL], e + 1, more)
  {
    GapAt(b, at, gap, word + " " + more);
    assert Blanks(gap) + (word + " " + more) == Blanks(gap) + word + " " + more;
    WordToken(b, at + gap, word, more);
    SkippedGap(b, at, at + gap);
  }

  lemma {:induction false} GapAt(b: seq<char>, at: nat, gap: nat, text: seq<char>)
    requires HasAt(b, at, Blanks(gap) + text)
    ensures HasAt(b, at + gap, text) && forall k :: at <= k < at + gap ==> b[k] == ' '
  {
    AtEveryPosition(b, at, Blanks(gap) + text);
    PartAt(b, at, Blanks(gap) + text, gap, gap + |text|);
    assert (Blanks(gap) + text)[gap..gap + |text|] == text;
  }

  lemma {:induction false} SkippedGap(b: seq<char>, at: nat, t: nat)
    requires at <= t <= |b| && forall k :: at <= k < t ==> b[k] == ' '
    ensures StrtokAt(b, at, ' ') == StrtokAt(b, t, ' ')
    decreases t - at
  {
    if at < t { SkippedGap(b, at + 1, t); }
  }

  /** strtok on a word, a space and more. */
  lemma {:induction false} WordToken(b: seq<char>, at: nat, word: string, more: seq<char>)
    requires HasAt(b, at, word + " " + more) && IsWord(word)
    ensures var e := at + |word|;
            && e < |b| && StrtokAt(b, at, ' ') == Some(Scan(true, at, e, e + 1, b[e := NUL]))
            && b[e := NUL][at..e] == word && HasAt(b[e := NUL], e + 1, more)
  {
    FirstWordAt(b, at, word, more);
    TerminatorElsewhere(b, at + |word|, at, word);
    TerminatorElsewhere(b, at + |word|, at + |word| + 1, more);
  }

  /** What a read at a cut inside the scheme begins with. */
  lemma {:induction false} SchemeRest(stream: seq<char>, p: nat, chunk: seq<char>)
    requires HasAt(stream, 0, SCHEME + " ") && 0 < p < |SCHEME| && 0 < |chunk|
    requires p + |chunk| <= |stream| && chunk == stream[p..][..|chunk|]
    ensures chunk[0] !in ['G', ' ', NUL] && (|SCHEME| - p < |chunk| ==> chunk[|SCHEME| - p] == ' ')
  {
    AtEveryPosition(stream, 0, SCHEME + " ");
    assert chunk[0] == stream[p] == SCHEME[p];
  }
}
