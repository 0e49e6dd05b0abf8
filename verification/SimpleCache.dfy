/** The cache's index from keys to open files (project3/simplecache.c): an array that is filled from a list of lines,
    grown by doubling, sorted, and searched by bisection. */
module SimpleCache {
  import opened Wrappers
  import opened CString

  const MAX_KEYLEN := 256

  datatype Item = Item(fildes: int, key: string)

  // ---------------------------------------------------------------- the list file

  /** The pieces fgets delivers. */
  function Lines(text: string): seq<string>
  {
    if text == [] then []
    else [text[..LineLength(text, MAX_KEYLEN)]] + Lines(text[LineLength(text, MAX_KEYLEN)..])
  }

  /** A line without its last character, taken to be the end of line. */
  function Stripped(line: string): string
  {
    if line == [] then [] else line[..|line| - 1]
  }

  /** The first word of the line. */
  function KeyOf(line: string): string
  {
    Stripped(line)[..Word(Stripped(line))]
  }

  /** The second word, if a blank ends the first one. */
  function PathOf(line: string): Option<string>
  {
    var s := Stripped(line);
    if Word(s) == |s| then None else
      var rest := s[Word(s) + 1..];
      Some(rest[..Word(rest)])
  }

  /** What opening files yields: a descriptor for the k-th call with a path, negative when it fails. */
  type Opener = (nat, string) -> int

  function DescriptorOf(open: Opener, k: nat, line: string): int
  {
    match PathOf(line)
    case None => -1
    case Some(path) => open(k, path)
  }

  predicate AllOpen(lines: seq<string>, open: Opener)
  {
    forall k :: 0 <= k < |lines| ==> 0 <= DescriptorOf(open, k, lines[k])
  }

  /** The simple table: one item a line, in file order. */
  function Table(lines: seq<string>, open: Opener): (t: seq<Item>)
    ensures |t| == |lines|
  {
    seq(|lines|, k requires 0 <= k < |lines| => Item(DescriptorOf(open, k, lines[k]), KeyOf(lines[k])))
  }

  /** The first item with the key, from the front: the lookup without sorting. */
  function LinearLookup(t: seq<Item>, key: string): int
  {
    if t == [] then -1 else if t[0].key == key then t[0].fildes else LinearLookup(t[1..], key)
  }

  /** Reading one more line extends the table by its item. */
  lemma {:induction false} NextLine(all: seq<string>, k: nat, line: string, rest: seq<string>, open: Opener)
    requires k <= |all| && all[k..] == [line] + rest
    ensures k < |all| && all[k] == line && all[k + 1..] == rest
    ensures Table(all[..k + 1], open) == Table(all[..k], open) + [Item(DescriptorOf(open, k, line), KeyOf(line))]
    ensures AllOpen(all[..k], open) && 0 <= DescriptorOf(open, k, line) ==> AllOpen(all[..k + 1], open)
    ensures DescriptorOf(open, k, line) < 0 ==> !AllOpen(all, open)
  {
    assert all[k] == all[k..][0] == line;
    assert all[k + 1..] == all[k..][1..] == rest;
    assert all[..k + 1] == all[..k] + [line];
  }

  lemma {:induction false} FirstLine(text: string)
    ensures var n := LineLength(text, MAX_KEYLEN);
            Lines(text) == if text == [] then [] else [text[..n]] + Lines(text[n..])
  {
  }

  lemma {:induction false} NothingRead(all: seq<string>, open: Opener)
    ensures all[0..] == all && AllOpen(all[..0], open) && Table(all[..0], open) == []
  {
  }

  lemma {:induction false} LinesDone(all: seq<string>, k: nat, open: Opener)
    requires k <= |all| && all[k..] == [] && AllOpen(all[..k], open)
    ensures all[..k] == all && AllOpen(all, open)
    ensures forall j :: 0 <= j < |all| ==> 0 <= Table(all, open)[j].fildes
  {
    assert all[..k] == all;
  }

  // ---------------------------------------------------------------- what a row means

  /** A row of the list file: key, a blank, path, and perhaps more behind another blank. */
  datatype Row = Row(key: string, delimiter: char, path: string, more: string)

  function TextOf(r: Row): (t: string)
    ensures t != [] && t[|t| - 1] == '\n'
  {
    r.key + [r.delimiter] + r.path + r.more + "\n"
  }

  ghost predicate Plain(word: string)
  {
    forall k :: 0 <= k < |word| ==> word[k] !in " \t\n"
  }

  /** A row as the format asks for: the words are separated by blanks, and the line fits the buffer of fgets. */
  ghost predicate IsRow(r: Row)
  {
    && Plain(r.key) && Plain(r.path) && r.delimiter in " \t"
    && (r.more == "" || r.more[0] in " \t") && '\n' !in r.more
    && |TextOf(r)| <= 255
  }

  lemma {:induction false} WordOf(word: string, rest: string)
    requires forall k :: 0 <= k < |word| ==> !IsBlank(word[k])
    requires rest == [] || IsBlank(rest[0])
    ensures Word(word + rest) == |word|
  {
    if word == [] {
      assert word + rest == rest;
    } else {
      assert (word + rest)[1..] == word[1..] + rest;
      WordOf(word[1..], rest);
    }
  }

  lemma {:induction false} Blanks(ch: char)
    ensures IsBlank(ch) <==> ch in " \t"
  {
  }

  /** The two words of a line, whatever stands behind the second one. */
  lemma {:induction false} TwoWords(key: string, delimiter: char, path: string, more: string)
    requires Plain(key) && Plain(path) && delimiter in " \t" && (more == "" || more[0] in " \t")
    ensures var s := key + [delimiter] + path + more;
            && Word(s) == |key| && s[..|key|] == key
            && s[|key| + 1..] == path + more && Word(path + more) == |path| && (path + more)[..|path|] == path
  {
    var s := key + [delimiter] + path + more;
    assert s == key + ([delimiter] + path + more);
    forall k | 0 <= k < |key| ensures !IsBlank(key[k]) { Blanks(key[k]); }
    forall k | 0 <= k < |path| ensures !IsBlank(path[k]) { Blanks(path[k]); }
    WordOf(key, [delimiter] + path + more);
    WordOf(path, more);
  }

  /** A row yields its key and its path, whichever blanks separate them and whatever follows. */
  lemma {:induction false} RowParses(r: Row)
    requires IsRow(r)
    ensures KeyOf(TextOf(r)) == r.key && PathOf(TextOf(r)) == Some(r.path)
  {
    assert Stripped(TextOf(r)) == r.key + [r.delimiter] + r.path + r.more;
    TwoWords(r.key, r.delimiter, r.path, r.more);
  }

  /** The last character of a line is dropped whatever it is: a last row keeps its whole path exactly if it ends with a
      newline or with a blank. */
  lemma {:induction false} LastRowKeepsPathIff(r: Row, newline: bool)
    requires IsRow(r) && r.path != []
    ensures var text := r.key + [r.delimiter] + r.path + r.more;
            PathOf(text + if newline then "\n" else "") == Some(r.path) <==> newline || r.more != ""
  {
    var text := r.key + [r.delimiter] + r.path + r.more;
    if newline {
      RowParses(r);
    } else if r.more != "" {
      var less := r.more[..|r.more| - 1];
      assert Stripped(text + "") == r.key + [r.delimiter] + r.path + less;
      TwoWords(r.key, r.delimiter, r.path, less);
    } else {
      var short := r.path[..|r.path| - 1];
      assert Stripped(text + "") == r.key + [r.delimiter] + short + "";
      TwoWords(r.key, r.delimiter, short, "");
    }
  }

  function Joined(rows: seq<string>): string
  {
    if rows == [] then "" else rows[0] + Joined(rows[1..])
  }

  lemma {:induction false} LineLengthOf(row: string, rest: string, size: nat)
    requires row != [] && row[|row| - 1] == '\n' && |row| < size
    requires forall k :: 0 <= k < |row| - 1 ==> row[k] != '\n'
    ensures LineLength(row + rest, size) == |row|
  {
    if |row| > 1 {
      assert (row + rest)[1..] == row[1..] + rest;
      LineLengthOf(row[1..], rest, size - 1);
    }
  }

  function Texts(rows: seq<Row>): seq<string>
  {
    seq(|rows|, k requires 0 <= k < |rows| => TextOf(rows[k]))
  }

  /** A file made of rows is read row by row. */
  lemma {:induction false} RowsAreLines(rows: seq<Row>)
    requires forall k :: 0 <= k < |rows| ==> IsRow(rows[k])
    ensures Lines(Joined(Texts(rows))) == Texts(rows)
  {
    if rows != [] {
      var row, rest := TextOf(rows[0]), Joined(Texts(rows[1..]));
      assert Texts(rows) == [row] + Texts(rows[1..]);
      NoNewlineInside(rows[0]);
      LineLengthOf(row, rest, 256);
      assert (row + rest)[..|row|] == row && (row + rest)[|row|..] == rest;
      RowsAreLines(rows[1..]);
    }
  }

  lemma {:induction false} NoNewlineInside(r: Row)
    requires IsRow(r)
    ensures forall k :: 0 <= k < |TextOf(r)| - 1 ==> TextOf(r)[k] != '\n'
  {
  }

  /** A line that is longer than the buffer is cut: the first piece has 255 characters. */
  lemma {:induction false} LongLineIsCut(line: string, rest: string)
    requires |line| >= 255 && forall k :: 0 <= k < 254 ==> line[k] != '\n'
    ensures Lines(line + rest) == [line[..255]] + Lines(line[255..] + rest)
  {
    LongLineLength(line + rest, 256);
    assert (line + rest)[..255] == line[..255] && (line + rest)[255..] == line[255..] + rest;
  }

  lemma {:induction false} LongLineLength(text: string, size: nat)
    requires 1 < size && |text| >= size - 1 && forall k :: 0 <= k < size - 2 ==> text[k] != '\n'
    ensures LineLength(text, size) == size - 1
  {
    if size > 2 { LongLineLength(text[1..], size - 1); }
  }

  /** The table of a file made of rows: the keys of the rows, and what opening their paths yields. */
  lemma {:induction false} TableOfRows(rows: seq<Row>, open: Opener)
    requires forall k :: 0 <= k < |rows| ==> IsRow(rows[k])
    ensures var lines := Lines(Joined(Texts(rows)));
            && |lines| == |rows|
            && (AllOpen(lines, open) <==> forall k :: 0 <= k < |rows| ==> 0 <= open(k, rows[k].path))
            && forall k :: 0 <= k < |rows| ==>
                 KeyOf(lines[k]) == rows[k].key && Table(lines, open)[k] == Item(open(k, rows[k].path), rows[k].key)
  {
    var lines := Lines(Joined(Texts(rows)));
    RowsAreLines(rows);
    forall k | 0 <= k < |rows|
      ensures KeyOf(lines[k]) == rows[k].key && DescriptorOf(open, k, lines[k]) == open(k, rows[k].path) {
      RowParses(rows[k]);
    }
  }

  // ---------------------------------------------------------------- sorting

  predicate Sorted(s: seq<Item>)
  {
    forall i, j :: 0 <= i < j < |s| ==> StrCmp(s[i].key, s[j].key) <= 0
  }

  function Insert(x: Item, s: seq<Item>): (r: seq<Item>)
    requires Sorted(s)
    ensures Sorted(r) && multiset(r) == multiset{x} + multiset(s)
    ensures r != [] && (r[0] == x || (s != [] && r[0] == s[0]))
  {
    if s == [] then [x]
    else if StrCmp(x.key, s[0].key) <= 0 then
      InsertFront(x, s);
      [x] + s
    else
      StrCmpOpposite(x.key, s[0].key);
      var r := Insert(x, s[1..]);
      InsertFront(s[0], r);
      InsertCount(x, s, r);
      [s[0]] + r
  }

  lemma {:induction false} InsertCount(x: Item, s: seq<Item>, r: seq<Item>)
    requires s != [] && multiset(r) == multiset{x} + multiset(s[1..])
    ensures multiset([s[0]] + r) == multiset{x} + multiset(s)
  {
    assert s == [s[0]] + s[1..];
  }

  lemma {:induction false} InsertFront(x: Item, s: seq<Item>)
    requires Sorted(s) && (s != [] ==> StrCmp(x.key, s[0].key) <= 0)
    ensures Sorted([x] + s)
  {
    forall i, j | 0 <= i < j < |[x] + s| ensures StrCmp(([x] + s)[i].key, ([x] + s)[j].key) <= 0 {
      if i == 0 && j > 1 { StrCmpTransitive(x.key, s[0].key, s[j - 1].key); }
    }
  }

  function InsertionSort(s: seq<Item>): (r: seq<Item>)
    ensures Sorted(r) && multiset(r) == multiset(s) && |r| == |s|
  {
    if s == [] then [] else
      assert s == [s[0]] + s[1..];
      var r := Insert(s[0], InsertionSort(s[1..]));
      assert |multiset(r)| == |r| && |multiset(s)| == |s|;
      r
  }

  // ---------------------------------------------------------------- the index

  /** The sizes the array takes: 16, and its doubles. */
  predicate IsCapacity(c: int)
  {
    c == 16 || (c > 16 && c % 2 == 0 && IsCapacity(c / 2))
  }

  lemma {:induction false} Capacities(c: int)
    requires c == 16 || IsCapacity(c)
    ensures 16 <= c && IsCapacity(c) && IsCapacity(c * 2)
  {
  }

  class SimpleCache {
    var items: array<Item>
    var nitems: int

    constructor ()
      ensures nitems == 0 && fresh(items)
    {
      items := new Item[0];
      nitems := 0;
    }

    function Contents(): seq<Item>
      requires 0 <= nitems <= items.Length
      reads this, items
    {
      items[..nitems]
    }

    ghost predicate Valid()
      reads this, items
    {
      && 0 <= nitems <= items.Length
      && Sorted(Contents())
      && forall k :: 0 <= k < nitems ==> 0 <= items[k].fildes
    }

    /** simplecache_init; false stands for the failures that end the process: no list file, a line without a second
        word, or a file that cannot be opened. */
    method Init(filelist: Option<string>, open: Opener) returns (ok: bool)
      modifies this
      ensures ok <==> filelist.Some? && AllOpen(Lines(filelist.value), open)
      ensures ok ==> Valid() && fresh(items) && nitems < items.Length
                     && multiset(Contents()) == multiset(Table(Lines(filelist.value), open))
      ensures ok ==> IsCapacity(items.Length) && (items.Length == 16 || items.Length <= 2 * nitems)
    {
      hide KeyOf, PathOf, DescriptorOf, Insert, InsertionSort, Lines, AllOpen, Table, Sorted, IsCapacity;
      if filelist.None? {
        return false;
      }
      var capacity := 16;
      items := new Item[capacity];
      nitems := 0;
      Capacities(capacity);
      var rest := filelist.value;
      ghost var all := Lines(rest);
      NothingRead(all, open);
      while rest != []
        invariant fresh(items) && items.Length == capacity && 0 <= nitems < capacity
        invariant IsCapacity(capacity) && (capacity == 16 || capacity <= 2 * nitems)
        invariant nitems <= |all| && Lines(rest) == all[nitems..]
        invariant AllOpen(all[..nitems], open)
        invariant Contents() == Table(all[..nitems], open)
        decreases |rest|
      {
        FirstLine(rest);
        var n := LineLength(rest, MAX_KEYLEN);
        var line := rest[..n];
        rest := rest[n..];
        NextLine(all, nitems, line, Lines(rest), open);
        var fd := DescriptorOf(open, nitems, line);
        if fd < 0 {
          return false;
        }
        Append(Item(fd, KeyOf(line)));
        if nitems == capacity {
          Capacities(capacity);
          capacity := capacity * 2;
          Grow(capacity);
        }
      }
      FirstLine(rest);
      LinesDone(all, nitems, open);
      QSort();
      ok := true;
    }

    /** The new item in the first unused place. */
    method Append(item: Item)
      requires 0 <= nitems < items.Length
      modifies this, items
      ensures items == old(items) && nitems == old(nitems) + 1 && Contents() == old(Contents()) + [item]
    {
      items[nitems] := item;
      nitems := nitems + 1;
    }

    /** realloc: a larger array that starts with the old elements. */
    method Grow(capacity: int)
      requires 0 <= nitems <= items.Length <= capacity
      modifies this
      ensures fresh(items) && items.Length == capacity && nitems == old(nitems) && Contents() == old(Contents())
    {
      var bigger := new Item[capacity];
      forall k | 0 <= k < nitems {
        bigger[k] := items[k];
      }
      items := bigger;
    }

    /** qsort with strcmp on the keys. Callers rely on nothing but the order and the permutation. */
    method QSort()
      requires 0 <= nitems <= items.Length
      requires forall k :: 0 <= k < |Contents()| ==> 0 <= Contents()[k].fildes
      modifies items
      ensures Valid() && multiset(Contents()) == old(multiset(Contents()))
    {
      ghost var was := Contents();
      var sorted := InsertionSort(items[..nitems]);
      forall k | 0 <= k < nitems {
        items[k] := sorted[k];
      }
      assert Contents() == sorted;
      PermutedItems(sorted, was);
      assert forall k :: 0 <= k < nitems ==> items[k] == sorted[k] && sorted[k] in was;
    }

    /** simplecache_get: bisection with strcmp. */
    method Get(key: string) returns (fd: int)
      requires Valid()
      ensures fd == -1 <==> forall k :: 0 <= k < nitems ==> items[k].key != key
      ensures fd != -1 ==> Item(fd, key) in Contents()
    {
      var lo := 0;
      var hi := nitems - 1;
      while lo <= hi
        invariant 0 <= lo <= hi + 1 <= nitems
        invariant forall k :: 0 <= k < lo ==> StrCmp(items[k].key, key) < 0
        invariant forall k :: hi < k < nitems ==> StrCmp(key, items[k].key) < 0
      {
        var mid := lo + (hi - lo) / 2;
        var cmp := StrCmp(key, items[mid].key);
        StrCmpOpposite(key, items[mid].key);
        if cmp < 0 {
          forall k | mid <= k < nitems ensures StrCmp(key, items[k].key) < 0 {
            if mid < k {
              assert StrCmp(Contents()[mid].key, Contents()[k].key) <= 0;
              StrCmpTransitive(key, items[mid].key, items[k].key);
            }
          }
          hi := mid - 1;
        } else if cmp > 0 {
          forall k | 0 <= k <= mid ensures StrCmp(items[k].key, key) < 0 {
            if k < mid {
              assert StrCmp(Contents()[k].key, Contents()[mid].key) <= 0;
              StrCmpTransitive(items[k].key, items[mid].key, key);
            }
          }
          lo := mid + 1;
        } else {
          StrCmpZero(key, items[mid].key);
          assert Contents()[mid] == Item(items[mid].fildes, key);
          return items[mid].fildes;
        }
      }
      forall k | 0 <= k < nitems ensures items[k].key != key {
        StrCmpZero(items[k].key, key);
        StrCmpZero(key, items[k].key);
      }
      fd := -1;
    }
  }

  // ---------------------------------------------------------------- loading and looking up

  predicate DistinctKeys(t: seq<Item>)
  {
    forall i, j :: 0 <= i < j < |t| ==> t[i].key != t[j].key
  }

  lemma {:induction false} LinearLookupMeaning(t: seq<Item>, key: string)
    requires forall k :: 0 <= k < |t| ==> 0 <= t[k].fildes
    ensures LinearLookup(t, key) == -1 <==> forall k :: 0 <= k < |t| ==> t[k].key != key
    ensures LinearLookup(t, key) != -1 ==> Item(LinearLookup(t, key), key) in t
  {
    if t != [] && t[0].key != key {
      LinearLookupMeaning(t[1..], key);
      assert forall k :: 1 <= k < |t| ==> t[k] == t[1..][k - 1];
      if LinearLookup(t[1..], key) == -1 {
        forall k | 0 <= k < |t| ensures t[k].key != key {
          if k > 0 { assert t[1..][k - 1].key != key; }
        }
      } else {
        var k :| 0 <= k < |t[1..]| && t[1..][k] == Item(LinearLookup(t, key), key);
        assert t[k + 1].key == key;
      }
    }
  }

  lemma {:induction false} DistinctKeysDetermine(t: seq<Item>, a: Item, b: Item)
    requires DistinctKeys(t) && a in t && b in t && a.key == b.key
    ensures a == b
  {
  }

  /** Load a list file and look a key up: -1 exactly when no line has the key, otherwise the descriptor of a line that
      has it; when no key occurs twice, the very answer of the unsorted lookup. */
  method LoadThenGet(text: string, open: Opener, key: string) returns (fd: int)
    requires AllOpen(Lines(text), open)
    ensures fd == -1 <==> forall k :: 0 <= k < |Lines(text)| ==> KeyOf(Lines(text)[k]) != key
    ensures fd != -1 ==> Item(fd, key) in Table(Lines(text), open)
    ensures DistinctKeys(Table(Lines(text), open)) ==> fd == LinearLookup(Table(Lines(text), open), key)
  {
    var cache := new SimpleCache();
    var ok := cache.Init(Some(text), open);
    fd := cache.Get(key);
    PermutedItems(cache.Contents(), Table(Lines(text), open));
    SameAnswers(cache.Contents(), Lines(text), open, key, fd);
    if DistinctKeys(Table(Lines(text), open)) {
      DistinctKeysOneAnswer(Table(Lines(text), open), key, fd);
    }
  }

  /** Load a list file made of rows and look a key up: -1 exactly when no row has the key, otherwise the descriptor that
      opening the path of a row with that key gave. */
  method LoadRowsThenGet(rows: seq<Row>, open: Opener, key: string) returns (fd: int)
    requires forall k :: 0 <= k < |rows| ==> IsRow(rows[k]) && 0 <= open(k, rows[k].path)
    ensures fd == -1 <==> forall k :: 0 <= k < |rows| ==> rows[k].key != key
    ensures fd != -1 ==> exists k :: 0 <= k < |rows| && rows[k].key == key && fd == open(k, rows[k].path)
  {
    TableOfRows(rows, open);
    ghost var lines := Lines(Joined(Texts(rows)));
    fd := LoadThenGet(Joined(Texts(rows)), open, key);
    if fd != -1 {
      ghost var k :| 0 <= k < |rows| && Table(lines, open)[k] == Item(fd, key);
      assert rows[k].key == key && fd == open(k, rows[k].path);
    } else {
      assert forall k :: 0 <= k < |rows| ==> KeyOf(lines[k]) == rows[k].key;
    }
  }

  /** An answer that is right for the sorted items is right for the lines they came from. */
  lemma {:induction false} SameAnswers(sorted: seq<Item>, lines: seq<string>, open: Opener, key: string, fd: int)
    requires AllOpen(lines, open) && SameItems(sorted, Table(lines, open))
    requires fd == -1 <==> forall k :: 0 <= k < |sorted| ==> sorted[k].key != key
    requires fd != -1 ==> Item(fd, key) in sorted
    ensures fd == -1 <==> forall k :: 0 <= k < |lines| ==> KeyOf(lines[k]) != key
    ensures fd != -1 ==> Item(fd, key) in Table(lines, open)
  {
    var t := Table(lines, open);
    if fd == -1 {
      forall k | 0 <= k < |lines| ensures KeyOf(lines[k]) != key {
        assert t[k] in sorted;
      }
      assert forall k :: 0 <= k < |t| ==> t[k].key == KeyOf(lines[k]);
    } else {
      var k :| 0 <= k < |t| && t[k] == Item(fd, key);
      assert KeyOf(lines[k]) == key;
    }
  }

  /** A table without repeated keys has only one right answer. */
  lemma {:induction false} DistinctKeysOneAnswer(t: seq<Item>, key: string, fd: int)
    requires DistinctKeys(t) && forall k :: 0 <= k < |t| ==> 0 <= t[k].fildes
    requires fd == -1 <==> forall k :: 0 <= k < |t| ==> t[k].key != key
    requires fd != -1 ==> Item(fd, key) in t
    ensures fd == LinearLookup(t, key)
  {
    LinearLookupMeaning(t, key);
    if fd != -1 {
      DistinctKeysDetermine(t, Item(fd, key), Item(LinearLookup(t, key), key));
    }
  }

  ghost predicate SameItems(a: seq<Item>, b: seq<Item>)
  {
    forall x :: x in a <==> x in b
  }

  lemma {:induction false} PermutedItems(a: seq<Item>, b: seq<Item>)
    requires multiset(a) == multiset(b)
    ensures SameItems(a, b)
  {
    forall x ensures x in a <==> x in b {
      assert x in a <==> x in multiset(a);
      assert x in b <==> x in multiset(b);
    }
  }
}
