/** What the client makes of its first read, and of the body behind it. */
module ClientReads {
  import opened Wrappers
  import opened Decimal
  import opened GetFile
  import opened ClientModel

  /** What the first read delivers: a success with a length, any number of spaces and something behind them; another
      word than OK in the place of the status; or a text that does not begin with the scheme. */
  datatype FirstRead =
    | OkRead(scheme: string, digits: string, blanks: nat, tail: seq<char>)
    | FailRead(scheme: string, word: string, rest: seq<char>)
    | ForeignRead(text: seq<char>)

  /** What follows the scheme and its space. */
  function Behind(f: FirstRead): seq<char>
    requires !f.ForeignRead?
  {
    match f
    case OkRead(_, digits, blanks, tail) => "OK" + " " + (digits + Blanks(blanks) + tail)
    case FailRead(_, word, rest) => word + rest
  }

  function Text(f: FirstRead): seq<char>
  {
    if f.ForeignRead? then f.text else f.scheme + " " + Behind(f)
  }

  /** What the client makes of another word than OK: any word but one that begins with FILE_NOT_FOUND is an error. */
  function FailStatus(word: string): Status
  {
    if BeginsWith(word, "FILE_NOT_FOUND") then FileNotFound else Error
  }

  /** Whether n bytes behind the scheme are enough to decide on a failure word. */
  predicate Decided(word: string, n: int)
  {
    n > 14 || (n > 5 && BeginsWith(word, "ERROR"))
  }

  /** Where the length starts: behind the scheme, OK and their spaces. */
  function LengthStart(scheme: string): nat
  {
    |scheme| + 4
  }

  function HeaderLength(f: FirstRead): nat
    requires f.OkRead?
  {
    LengthStart(f.scheme) + |f.digits| + f.blanks + ENDSEQ
  }

  /** A success header is there to its end and does not fill the buffer, and its length is within the range of atoi; a
      failure word ends in the buffer; a foreign text is long enough to be seen not to be the scheme. */
  ghost predicate WellFormed(f: FirstRead)
  {
    && |Text(f)| <= RDBUFSIZE
    && match f
       case OkRead(scheme, digits, blanks, tail) =>
         && IsScheme(scheme) && AllDigits(digits) && ValueOf(digits) < 0x8000_0000
         && |tail| >= ENDSEQ && !IsDigit(tail[0]) && tail[0] != ' ' && HeaderLength(f) < RDBUFSIZE
       case FailRead(scheme, word, rest) =>
         && IsScheme(scheme) && IsWord(word) && word != "OK"
         && (if rest == [] then |Text(f)| < RDBUFSIZE else rest[0] == ' ')
       case ForeignRead(text) =>
         SCHEME_SZ <= |text| && text[..SCHEME_SZ] != SCHEME && StrtokAt(Filled(text), 0, ' ').Some?
  }

  /** Whether a success header ends as it must. */
  predicate EndsRight(f: FirstRead)
    requires f.OkRead? && |f.tail| >= ENDSEQ
  {
    f.tail[..ENDSEQ] == END_SEQUENCE
  }

  /** The buffer after a first read. */
  function Filled(text: seq<char>): Buffer
    requires |text| <= RDBUFSIZE
  {
    text + Nuls(RDBUFSIZE - |text|)
  }

  /** The client after a first read, before it is parsed. */
  function AfterFirst(text: seq<char>): Client
    requires |text| <= RDBUFSIZE
  {
    Start().(buffer := Filled(text), rx := |text|, total := |text|)
  }

  lemma {:induction false} FirstReceived(text: seq<char>)
    requires |text| <= RDBUFSIZE
    ensures Received(Start(), text) == AfterFirst(text)
    ensures HasAt(Filled(text), 0, text) && forall k :: |text| <= k < RDBUFSIZE ==> Filled(text)[k] == NUL
  {
    assert Start().buffer[..0] + text + Start().buffer[|text|..] == Filled(text);
  }

  // ---------------------------------------------------------------- the header

  /** A text is rejected exactly when it does not begin with the scheme, whatever it is and whatever follows. */
  lemma {:induction false} SchemeIff(c: Client)
    requires SCHEME_SZ <= c.rx && ParseScheme(c).c.inside
    ensures ParseScheme(c).r == 0 <==> c.buffer[..SCHEME_SZ] == SCHEME
    ensures ParseScheme(c).r == -1 ==>
              var d := ParseScheme(c).c; d == c.(buffer := d.buffer, token := d.token)
  {
    var b := c.buffer;
    var t := TokenStart(b, 0, ' ');
    var e := TokenEnd(b, t, ' ');
    assert forall k :: 0 <= k < SCHEME_SZ ==> SCHEME[k] != NUL && SCHEME[k] != ' ';
    if b[..SCHEME_SZ] == SCHEME {
      assert forall k :: 0 <= k < SCHEME_SZ ==> b[k] == b[..SCHEME_SZ][k];
      assert t == 0 && e >= SCHEME_SZ;
      assert b[e := NUL][..SCHEME_SZ] == SCHEME;
    } else if t < e && e < SCHEME_SZ {
      assert b[e := NUL][..SCHEME_SZ][e] == NUL;
    } else if t < e {
      assert b[e := NUL][..SCHEME_SZ] == b[..SCHEME_SZ];
    }
  }

  /** The scheme is terminated, and parsing goes on behind it. */
  lemma {:induction false} SchemeAccepted(c: Client, scheme: string, more: seq<char>)
    requires SCHEME_SZ <= c.rx && IsScheme(scheme) && HasAt(c.buffer, 0, scheme + " " + more)
    ensures var h := |scheme| + 1;
            && h <= RDBUFSIZE
            && ParseScheme(c) == Step(c.(buffer := c.buffer[|scheme| := NUL], token := h, headerPt := h,
                                         stage := AtMethod), 0)
            && HasAt(c.buffer[|scheme| := NUL], h, more)
  {
    WordToken(c.buffer, 0, scheme, more);
    PartAt(c.buffer[|scheme| := NUL], 0, scheme, 0, SCHEME_SZ);
  }

  /** OK is terminated, and the length is expected behind it. */
  lemma {:induction false} OkAccepted(c: Client, more: seq<char>)
    requires c.token == c.headerPt && U32(c.rx - c.headerPt) > OK_SZ
    requires HasAt(c.buffer, c.headerPt, "OK" + " " + more)
    ensures var h := c.headerPt + OK_SZ;
            && h <= RDBUFSIZE
            && ParseOk(c) == c.(buffer := c.buffer[h - 1 := NUL], token := h, headerPt := h, stage := AtLength,
                                lengthStart := h, status := Ok)
            && HasAt(c.buffer[h - 1 := NUL], h, more)
  {
    WordToken(c.buffer, c.headerPt, "OK", more);
  }

  /** A word in the buffer that ends at a space or a terminator, as strtok finds it. */
  lemma {:induction false} WordAt(b: Buffer, at: nat, word: string)
    requires HasAt(b, at, word) && IsWord(word) && at + |word| < |b|
    requires b[at + |word|] == ' ' || b[at + |word|] == NUL
    ensures TokenStart(b, at, ' ') == at && TokenEnd(b, at, ' ') == at + |word|
    ensures HasAt(b[at + |word| := NUL], at, word)
  {
    AtEveryPosition(b, at, word);
    TokenIs(b, at, at, at + |word|, ' ');
    TerminatorElsewhere(b, at + |word|, at, word);
  }

  /** Another word than OK is terminated, once enough was received, and changes nothing else. */
  lemma {:induction false} OkRefused(c: Client, word: string, n: nat)
    requires c.stage == AtMethod && c.token == c.headerPt && c.rx == c.headerPt + n <= RDBUFSIZE
    requires HasAt(c.buffer, c.headerPt, word) && IsWord(word) && word != "OK" && |word| <= n
    requires c.headerPt + |word| < RDBUFSIZE
    requires c.buffer[c.headerPt + |word|] == (if |word| == n then NUL else ' ')
    ensures var e := c.headerPt + |word|;
            && ParseOk(c) == (if n <= OK_SZ then c
                              else c.(buffer := c.buffer[e := NUL], token := if |word| == n then e else e + 1))
            && HasAt(ParseOk(c).buffer, c.headerPt, word)
            && (n > OK_SZ ==> ParseOk(c).buffer[e] == NUL)
  {
    WordAt(c.buffer, c.headerPt, word);
    if n > OK_SZ {
      assert c.buffer[c.headerPt + |word| := NUL][c.headerPt..c.headerPt + |word|] == word;
    }
  }

  lemma {:induction false} OneFailure(word: string)
    ensures BeginsWith(word, "ERROR") ==> !BeginsWith(word, "FILE_NOT_FOUND")
  {
    if BeginsWith(word, "ERROR") {
      assert word[..5][0] == 'E' && "FILE_NOT_FOUND"[0] == 'F';
      assert |word| >= 14 ==> word[..14][0] == 'E';
    }
  }

  lemma {:induction false} Compared(b: Buffer, at: nat, word: string, pattern: string)
    requires HasAt(b, at, word) && at + |word| < |b| && b[at + |word|] == NUL && at + |pattern| <= |b|
    requires NUL !in pattern
    ensures Strncmp(b, at, pattern) == if BeginsWith(word, pattern) then Equal else Differs
  {
    PrefixCompared(b, at, word, pattern);
  }

  lemma {:induction false} FailuresCompared(b: Buffer, h: nat, word: string, n: nat)
    requires HasAt(b, h, word) && |word| <= n && h + |word| < |b| && h + n <= |b|
    requires n > OK_SZ ==> b[h + |word|] == NUL
    ensures n > ERROR_SZ ==> Strncmp(b, h, "ERROR") == if BeginsWith(word, "ERROR") then Equal else Differs
    ensures n > NOT_FOUND_SZ ==>
              Strncmp(b, h, "FILE_NOT_FOUND") == if FailStatus(word) == FileNotFound then Equal else Differs
  {
    if n > ERROR_SZ { Compared(b, h, word, "ERROR"); }
    if n > NOT_FOUND_SZ { Compared(b, h, word, "FILE_NOT_FOUND"); }
  }

  lemma {:induction false} FailedCases(c: Client, word: string, n: nat, error: Comparison, notFound: Comparison)
    requires c.stage == AtMethod
    requires n > ERROR_SZ ==> error == if BeginsWith(word, "ERROR") then Equal else Differs
    requires n > NOT_FOUND_SZ ==> notFound == if FailStatus(word) == FileNotFound then Equal else Differs
    ensures Failed(c, n, error, notFound) ==
              if !Decided(word, n) then c
              else c.(stage := if FailStatus(word) == FileNotFound then AtNotFound else AtError)
  {
    OneFailure(word);
  }

  lemma {:induction false} FailureDecided(c: Client, word: string, n: nat)
    requires c.rx == c.headerPt + n <= RDBUFSIZE && c.stage == AtMethod
    requires HasAt(c.buffer, c.headerPt, word) && |word| <= n && c.headerPt + |word| < RDBUFSIZE
    requires n > OK_SZ ==> c.buffer[c.headerPt + |word|] == NUL
    ensures ParseFailure(c) ==
              if !Decided(word, n) then c
              else c.(stage := if FailStatus(word) == FileNotFound then AtNotFound else AtError)
  {
    assert I32(c.rx - c.headerPt) == n;
    hide Strncmp, Failed, HasAt, Decided, FailStatus;
    FailuresCompared(c.buffer, c.headerPt, word, n);
    FailedCases(c, word, n, Strncmp(c.buffer, c.headerPt, "ERROR"), Strncmp(c.buffer, c.headerPt, "FILE_NOT_FOUND"));
  }

  /** Another word than OK: a failure is decided on exactly with enough bytes behind the scheme, and then it is
      FILE_NOT_FOUND exactly for a word that begins so. */
  lemma {:induction false} FailureWord(c: Client, word: string, n: nat)
    requires c.stage == AtMethod && c.token == c.headerPt && c.rx == c.headerPt + n <= RDBUFSIZE
    requires HasAt(c.buffer, c.headerPt, word) && IsWord(word) && word != "OK" && |word| <= n
    requires c.headerPt + |word| < RDBUFSIZE
    requires c.buffer[c.headerPt + |word|] == (if |word| == n then NUL else ' ')
    ensures ParseMethod(c) ==
              ParseOk(c).(stage := if !Decided(word, n) then AtMethod
                                   else if FailStatus(word) == FileNotFound then AtNotFound else AtError)
    ensures var e := c.headerPt + |word|;
            ParseOk(c) == if n <= OK_SZ then c
                          else c.(buffer := c.buffer[e := NUL], token := if |word| == n then e else e + 1)
  {
    hide ParseFailure, Decided, IsWord, HasAt;
    OkRefused(c, word, n);
    FailureDecided(ParseOk(c), word, n);
  }

  /** How a success header lies in the buffer: the length, the spaces, and what follows. */
  ghost predicate LaidOut(b: Buffer, start: nat, digits: string, blanks: nat, tail: seq<char>)
  {
    var j := start + |digits|;
    var k := j + blanks;
    && k + |tail| <= |b| && ENDSEQ <= |tail|
    && b[start..j] == digits && AllDigits(digits)
    && (forall x :: start <= x < j ==> IsDigit(b[x])) && !IsDigit(b[j])
    && (forall x :: j <= x < k ==> b[x] == ' ') && b[k] != ' '
    && b[k..k + ENDSEQ] == tail[..ENDSEQ]
    && b[k + ENDSEQ..k + |tail|] == tail[ENDSEQ..]
  }

  lemma {:induction false} LaidOutAt(b: Buffer, start: nat, digits: string, blanks: nat, tail: seq<char>)
    requires AllDigits(digits) && |tail| >= ENDSEQ && !IsDigit(tail[0]) && tail[0] != ' '
    requires HasAt(b, start, digits + Blanks(blanks) + tail)
    ensures LaidOut(b, start, digits, blanks, tail)
  {
    var j := start + |digits|;
    var k := j + blanks;
    AtEveryPosition(b, start, digits + Blanks(blanks) + tail);
    assert b[start..j] == digits;
    assert forall x :: k <= x < k + |tail| ==> b[x] == tail[x - k];
    assert forall x :: j <= x < k ==> b[x] == ' ';
  }

  /** The loop of parse_length stops at the first character that is not a digit. */
  lemma {:induction false} DigitsStop(b: Buffer, h: nat, j: nat, rx: nat)
    requires h <= j <= rx && j < |b| && (forall x :: h <= x < j ==> IsDigit(b[x])) && !IsDigit(b[j])
    ensures DigitsEnd(b, h, rx) == Some(j)
    decreases j - h
  {
    if h < j {
      DigitsStop(b, h + 1, j, rx);
    }
  }

  /** Digits within the range of an int are their value. */
  lemma {:induction false} AtoiOfDigits(s: string)
    requires AllDigits(s) && ValueOf(s) < 0x8000_0000
    ensures Atoi(s) == Some(ValueOf(s))
  {
    AllLeading(s);
    if s != [] { assert IsDigit(s[0]); }
    assert SkipWhite(s) == s;
  }

  ghost predicate AllWhite(s: string)
  {
    forall k :: 0 <= k < |s| ==> s[k] in " \t\n\U{B}\U{C}\r"
  }

  lemma {:induction false} WhiteSkipped(white: string, s: string)
    requires AllWhite(white)
    requires s == "" || !IsWhite(s[0])
    ensures SkipWhite(white + s) == s
  {
    if white == "" {
      assert white + s == s;
    } else {
      assert (white + s)[1..] == white[1..] + s;
      WhiteSkipped(white[1..], s);
    }
  }

  lemma {:induction false} LeadingOf(digits: string, rest: string)
    requires AllDigits(digits) && (rest == "" || rest[0] !in "0123456789")
    ensures LeadingDigits(digits + rest) == digits
  {
    if digits == "" {
      assert digits + rest == rest;
      if rest != "" { DigitIff(rest[0]); }
    } else {
      assert (digits + rest)[1..] == digits[1..] + rest;
      LeadingOf(digits[1..], rest);
    }
  }

  /** atoi on white space, a sign, digits and anything behind: the number with its sign, if an int can hold it. */
  lemma {:induction false} AtoiMeaning(white: string, sign: string, digits: string, rest: string)
    requires AllWhite(white)
    requires sign in ["", "+", "-"] && AllDigits(digits) && digits != "" && (rest == "" || rest[0] !in "0123456789")
    ensures var n: int := if sign == "-" then 0 - ValueOf(digits) else ValueOf(digits);
            Atoi(white + (sign + (digits + rest))) == if -0x8000_0000 <= n <= 0x7fff_ffff then Some(n) else None
  {
    hide SkipWhite, LeadingDigits, ValueOf, AllDigits, AllWhite, IsWhite;
    var number := sign + (digits + rest);
    SignAndDigits(sign, digits, rest);
    WhiteSkipped(white, number);
    LeadingOf(digits, rest);
    assert SkipWhite(white + number) == number;
  }

  lemma {:induction false} SignAndDigits(sign: string, digits: string, rest: string)
    requires sign in ["", "+", "-"] && AllDigits(digits) && digits != ""
    ensures var number := sign + (digits + rest);
            && number != "" && !IsWhite(number[0])
            && (number[0] in "+-" <==> sign != "") && (number[0] == '-' <==> sign == "-")
            && (if number[0] in "+-" then number[1..] else number) == digits + rest
  {
    var number := sign + (digits + rest);
    assert IsDigit(digits[0]);
    assert number[0] == if sign == "" then digits[0] else sign[0];
    if sign == "" {
      assert number == digits + rest;
    } else {
      assert number[1..] == digits + rest;
    }
  }

  lemma {:induction false} AllLeading(s: string)
    requires AllDigits(s)
    ensures LeadingDigits(s) == s
  {
    if s != [] {
      AllLeading(s[1..]);
    }
  }

  lemma {:induction false} FieldRead(c: Client, digits: string, blanks: nat, tail: seq<char>)
    requires LaidOut(c.buffer, c.lengthStart, digits, blanks, tail) && ValueOf(digits) < 0x8000_0000
    requires c.headerPt == c.lengthStart + |digits|
    ensures ReadLengthField(c) ==
              c.(fileLength := ValueOf(digits), fileLengthValid := true, headerPt := c.headerPt + blanks)
  {
    hide Atoi;
    AtoiOfDigits(digits);
    SpacesEnd(c.buffer, c.headerPt, c.headerPt + blanks);
  }

  lemma {:induction false} EndParsed(c: Client, tail: seq<char>)
    requires |tail| >= ENDSEQ && c.headerPt + |tail| <= RDBUFSIZE && c.rx == c.total == c.headerPt + |tail|
    requires c.buffer[c.headerPt..c.headerPt + ENDSEQ] == tail[..ENDSEQ]
    ensures var h := c.headerPt + ENDSEQ;
            ParseEnd(c) ==
              if tail[..ENDSEQ] == END_SEQUENCE then
                Step(c.(stage := AtContent, headerPt := h, contentPt := h, headers := c.headers + [c.buffer[..h]],
                        total := |tail| - ENDSEQ), 0)
              else Step(c.(status := Error), -1)
  {
  }

  /** Length, spaces and end sequence of a success header: the length is its value, and the content starts right behind
      exactly the end sequence. */
  lemma {:induction false} LengthParsed(c: Client, digits: string, blanks: nat, tail: seq<char>)
    requires c.inside && c.stage == AtLength && c.lengthStart == c.headerPt
    requires LaidOut(c.buffer, c.headerPt, digits, blanks, tail) && ValueOf(digits) < 0x8000_0000
    requires c.rx == c.total == c.headerPt + |digits| + blanks + |tail|
    ensures var h := c.headerPt + |digits| + blanks;
            var d := c.(fileLength := ValueOf(digits), fileLengthValid := true);
            Back(Step(c, 0)) ==
              if tail[..ENDSEQ] == END_SEQUENCE then
                Step(d.(stage := AtContent, headerPt := h + ENDSEQ, contentPt := h + ENDSEQ,
                        headers := c.headers + [c.buffer[..h + ENDSEQ]], total := |tail| - ENDSEQ), 0)
              else Step(d.(stage := AtPath, headerPt := h, status := Error), -1)
  {
    hide ReadLengthField, ParseEnd, DigitsEnd;
    DigitsStop(c.buffer, c.headerPt, c.headerPt + |digits|, c.rx);
    FieldRead(ParseLength(c), digits, blanks, tail);
    EndParsed(ReadLengthField(ParseLength(c)), tail);
  }

  lemma {:induction false} SpacesEnd(b: Buffer, j: nat, h: nat)
    requires j <= h < |b| && (forall x :: j <= x < h ==> b[x] == ' ') && b[h] != ' '
    ensures TokenStart(b, j, ' ') == h
  {
    assert TokenStart(b, j, ' ') >= h;
  }

  /** What the header callback is given: the header with the spaces around the status replaced by terminators. */
  function HeaderSeen(f: FirstRead): (h: seq<char>)
    requires f.OkRead? && |f.tail| >= ENDSEQ
    ensures |h| == HeaderLength(f)
  {
    Text(f)[..HeaderLength(f)][|f.scheme| := NUL][|f.scheme| + 3 := NUL]
  }

  /** That, letter by letter. */
  lemma {:induction false} HeaderSeenLiteral(f: FirstRead)
    requires f.OkRead? && |f.tail| >= ENDSEQ && EndsRight(f)
    ensures HeaderSeen(f) == f.scheme + "\0OK\0" + (f.digits + Blanks(f.blanks) + "\r\n\r\n")
  {
    var number, rest := f.digits + Blanks(f.blanks), f.tail[ENDSEQ..];
    assert f.tail == END_SEQUENCE + rest;
    assert Text(f) == f.scheme + " " + "OK" + " " + number + END_SEQUENCE + rest;
    assert Text(f)[..HeaderLength(f)] == f.scheme + " " + "OK" + " " + number + END_SEQUENCE;
  }
}
