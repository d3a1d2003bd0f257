/**
 * The line splitter of logwrapper/logwrapper.cpp: it reads a child's output in chunks of whatever size the pipe gives,
 * edits a 4096-byte buffer in place, and logs one record per line. The records depend on the bytes alone.
 */
module LineSplitter {

  /** One record handed to the log: a line's text, or the marker for the rest of an over-long line. */
  datatype Record = Line(text: string) | Truncated

  const BUFFER_SIZE := 4096

  /** A line that fills the buffer up to its last byte is flushed. */
  const FULL := BUFFER_SIZE - 1

  /** What "%s" prints: the characters before the first NUL. */
  function CString(s: string): string {
    if s == [] || s[0] == '\0' then [] else [s[0]] + CString(s[1..])
  }

  // ---------- the records of a byte stream, one byte at a time

  /** The unfinished line, and whether it may still be logged as text. */
  datatype Splitter = Splitter(cur: string, shouldLog: bool)

  const Start := Splitter([], true)

  function RecordOf(st: Splitter): Record {
    if st.shouldLog then Line(CString(st.cur)) else Truncated
  }

  function Cleaned(c: char): char {
    if c == '\r' then '\0' else c
  }

  function Clean(s: string): (r: string)
    ensures |r| == |s| && forall i :: 0 <= i < |s| ==> r[i] == Cleaned(s[i])
  {
    seq(|s|, i requires 0 <= i < |s| => Cleaned(s[i]))
  }

  function Put(st: Splitter, c: char): (Splitter, seq<Record>) {
    if c == '\n' then (Start, [RecordOf(st)])
    else
      var st' := Splitter(st.cur + [Cleaned(c)], st.shouldLog);
      if |st'.cur| == FULL then (Splitter([], false), [RecordOf(st')]) else (st', [])
  }

  function Run(st: Splitter, s: string): Splitter
    decreases |s|
  {
    if s == [] then st else Run(Put(st, s[0]).0, s[1..])
  }

  function Emit(st: Splitter, s: string): seq<Record>
    decreases |s|
  {
    if s == [] then [] else Put(st, s[0]).1 + Emit(Put(st, s[0]).0, s[1..])
  }

  /** What is logged when the stream ends: a rest of text is logged even after part of its line was cut off. */
  function Flush(st: Splitter): seq<Record> {
    if st.cur == [] then [] else [Line(CString(st.cur))]
  }

  /** All the records of a stream. */
  function Records(s: string): seq<Record> {
    Emit(Start, s) + Flush(Run(Start, s))
  }

  lemma {:induction false} RunConcat(st: Splitter, s: string, t: string)
    ensures Run(st, s + t) == Run(Run(st, s), t)
    ensures Emit(st, s + t) == Emit(st, s) + Emit(Run(st, s), t)
    decreases |s|
  {
    if s == [] {
      assert s + t == t;
    } else {
      assert (s + t)[1..] == s[1..] + t;
      RunConcat(Put(st, s[0]).0, s[1..], t);
    }
  }

  lemma RunOne(st: Splitter, s: string, c: char)
    ensures Run(st, s + [c]) == Put(Run(st, s), c).0
    ensures Emit(st, s + [c]) == Emit(st, s) + Put(Run(st, s), c).1
  {
    RunConcat(st, s, [c]);
    assert [c][1..] == [];
  }

  // ---------- what the records are, line by line

  lemma CleanEnds(s: string, c: char)
    ensures Clean([c] + s) == [Cleaned(c)] + Clean(s)
    ensures Clean(s + [c]) == Clean(s) + [Cleaned(c)]
  {}

  lemma PutFits(st: Splitter, c: char)
    requires c != '\n' && |st.cur| + 1 < FULL
    ensures Put(st, c) == (Splitter(st.cur + [Cleaned(c)], st.shouldLog), [])
  {}

  lemma RunFirst(st: Splitter, c: char, rest: string)
    ensures Run(st, [c] + rest) == Run(Put(st, c).0, rest)
    ensures Emit(st, [c] + rest) == Put(st, c).1 + Emit(Put(st, c).0, rest)
  {
    assert ([c] + rest)[1..] == rest;
  }

  lemma Regroup<T>(a: seq<T>, x: T, b: seq<T>)
    ensures (a + [x]) + b == a + ([x] + b)
  {}

  /** A piece of a line that does not fill the buffer only extends the unfinished line. */
  lemma {:induction false} PieceFits(st: Splitter, s: string)
    requires '\n' !in s && |st.cur| + |s| < FULL
    ensures Run(st, s) == Splitter(st.cur + Clean(s), st.shouldLog)
    ensures Emit(st, s) == []
    decreases |s|
  {
    if s == [] {
      assert st.cur + Clean(s) == st.cur;
    } else {
      var c, rest := s[0], s[1..];
      var st' := Splitter(st.cur + [Cleaned(c)], st.shouldLog);
      assert s == [c] + rest;
      RunFirst(st, c, rest);
      PutFits(st, c);
      assert Put(st, c) == (st', []);
      PieceFits(st', rest);
      CleanEnds(rest, c);
      Regroup(st.cur, Cleaned(c), Clean(rest));
    }
  }

  /** A piece that fills the buffer exactly is logged once, and the rest of its line will only be marked. */
  lemma PieceFills(st: Splitter, s: string)
    requires '\n' !in s && s != [] && |st.cur| + |s| == FULL
    ensures Run(st, s) == Splitter([], false)
    ensures Emit(st, s) == [RecordOf(Splitter(st.cur + Clean(s), st.shouldLog))]
  {
    var front, c := s[..|s| - 1], s[|s| - 1];
    assert s == front + [c];
    PieceFits(st, front);
    RunOne(st, front, c);
    CleanEnds(front, c);
    assert (st.cur + Clean(front)) + [Cleaned(c)] == st.cur + Clean(s);
  }

  function Marks(n: nat): seq<Record> {
    seq(n, _ => Truncated)
  }

  /** The first full piece of a long line, from the start of a record. */
  lemma FirstPiece(st: Splitter, s: string)
    requires '\n' !in s && st.cur == [] && |s| >= FULL
    ensures Run(st, s) == Run(Splitter([], false), s[FULL..])
    ensures Emit(st, s)
         == [RecordOf(Splitter(Clean(s[..FULL]), st.shouldLog))] + Emit(Splitter([], false), s[FULL..])
  {
    var head, rest := s[..FULL], s[FULL..];
    assert s == head + rest;
    PieceFills(st, head);
    assert [] + Clean(head) == Clean(head);
    RunConcat(st, head, rest);
  }

  /** A full piece behind the first leaves one mark. */
  lemma NextPiece(s: string)
    requires '\n' !in s && |s| >= FULL
    ensures Run(Splitter([], false), s) == Run(Splitter([], false), s[FULL..])
    ensures Emit(Splitter([], false), s) == [Truncated] + Emit(Splitter([], false), s[FULL..])
  {
    FirstPiece(Splitter([], false), s);
  }

  /** How many full buffers n bytes make. */
  function Pieces(n: nat): nat {
    if n < FULL then 0 else 1 + Pieces(n - FULL)
  }

  /** How many bytes are left over. */
  function Left(n: nat): (r: nat)
    ensures r <= n && r < FULL
  {
    if n < FULL then n else Left(n - FULL)
  }

  lemma {:induction false} PiecesAreQuotient(n: nat)
    ensures n == 4095 * Pieces(n) + Left(n)
  {
    assert FULL == 4095;
    if n >= FULL {
      PiecesAreQuotient(n - FULL);
    }
  }

  /** What is left over from a long line is left over behind its first piece. */
  lemma SameLeft(s: string)
    requires |s| >= FULL
    ensures Pieces(|s|) == 1 + Pieces(|s[FULL..]|)
    ensures s[FULL..][|s[FULL..]| - Left(|s[FULL..]|)..] == s[|s| - Left(|s|)..]
  {
  }

  lemma {:induction false} MarkedPieces(s: string)
    requires '\n' !in s
    ensures Run(Splitter([], false), s) == Splitter(Clean(s[|s| - Left(|s|)..]), false)
    ensures Emit(Splitter([], false), s) == Marks(Pieces(|s|))
    decreases |s|
  {
    if |s| < FULL {
      PieceFits(Splitter([], false), s);
      assert s[0..] == s && [] + Clean(s) == Clean(s);
    } else {
      var rest := s[FULL..];
      NextPiece(s);
      MarkedPieces(rest);
      OneMoreMark(Pieces(|rest|));
      SameLeft(s);
    }
  }

  lemma OneMoreMark(n: nat)
    ensures Marks(n + 1) == [Truncated] + Marks(n) == Marks(n) + [Truncated]
  {}

  /** The records of the part of one line read so far, and what is unfinished, from the start of the line. */
  lemma PartOfLine(s: string)
    requires '\n' !in s
    ensures |s| < FULL ==> Emit(Start, s) == [] && Run(Start, s) == Splitter(Clean(s), true)
    ensures |s| >= FULL ==>
      && Emit(Start, s) == [Line(CString(Clean(s[..FULL])))] + Marks(Pieces(|s|) - 1)
      && Run(Start, s) == Splitter(Clean(s[|s| - Left(|s|)..]), false)
  {
    if |s| < FULL {
      PieceFits(Start, s);
      assert [] + Clean(s) == Clean(s);
    } else {
      LongPart(s);
    }
  }

  /** The first full piece of a line is its text. */
  lemma TextPiece(s: string, rest: string)
    requires '\n' !in s && |s| >= FULL && rest == s[FULL..]
    ensures Run(Start, s) == Run(Splitter([], false), rest)
    ensures Emit(Start, s) == [Line(CString(Clean(s[..FULL])))] + Emit(Splitter([], false), rest)
  {
    FirstPiece(Start, s);
  }

  lemma LongRest(s: string) returns (rest: string)
    requires '\n' !in s && |s| >= FULL
    ensures rest == s[FULL..]
    ensures Run(Splitter([], false), rest) == Splitter(Clean(s[|s| - Left(|s|)..]), false)
    ensures Emit(Splitter([], false), rest) == Marks(Pieces(|s|) - 1)
  {
    rest := s[FULL..];
    MarkedPieces(rest);
    SameLeft(s);
  }

  lemma LongPart(s: string)
    requires '\n' !in s && |s| >= FULL
    ensures Emit(Start, s) == [Line(CString(Clean(s[..FULL])))] + Marks(Pieces(|s|) - 1)
    ensures Run(Start, s) == Splitter(Clean(s[|s| - Left(|s|)..]), false)
  {
    var rest := LongRest(s);
    TextPiece(s, rest);
  }

  /** What is logged of a text: everything before its first carriage return or NUL. */
  lemma {:induction false} LoggedExactly(s: string, k: nat)
    requires k <= |s| && (forall i :: 0 <= i < k ==> s[i] != '\r' && s[i] != '\0')
    requires k < |s| ==> s[k] == '\r' || s[k] == '\0'
    ensures CString(Clean(s)) == s[..k]
  {
    if k > 0 {
      assert s == [s[0]] + s[1..];
      CleanEnds(s[1..], s[0]);
      LoggedExactly(s[1..], k - 1);
      assert s[..k] == [s[0]] + s[1..][..k - 1];
    }
  }

  /** A text without newlines, carriage returns and NULs. */
  predicate Plain(s: string) {
    forall i :: 0 <= i < |s| ==> s[i] != '\n' && s[i] != '\r' && s[i] != '\0'
  }

  /** A finished line gives its text, cut to 4095 bytes and followed by one marker for every further 4095 bytes
      begun. */
  function LineRecords(line: string): seq<Record> {
    if |line| < FULL then [Line(CString(Clean(line)))]
    else [Line(CString(Clean(line[..FULL])))] + Marks(Pieces(|line|))
  }

  /** What does not fill the buffer is logged as text at the end of the stream. */
  function Unfinished(s: string): seq<Record> {
    if s == [] then [] else [Line(CString(Clean(s)))]
  }

  /** The end of a stream without a newline. */
  function TailRecords(tail: string): seq<Record> {
    if |tail| < FULL then Unfinished(tail)
    else
      [Line(CString(Clean(tail[..FULL])))] + Marks(Pieces(|tail|) - 1) + Unfinished(tail[|tail| - Left(|tail|)..])
  }

  lemma OneLine(line: string)
    requires '\n' !in line
    ensures Emit(Start, line + "\n") == LineRecords(line) && Run(Start, line + "\n") == Start
  {
    PartOfLine(line);
    RunOne(Start, line, '\n');
    if |line| >= FULL {
      OneMoreMark(Pieces(|line|) - 1);
    }
  }

  function Joined(lines: seq<string>, tail: string): string {
    if lines == [] then tail else lines[0] + "\n" + Joined(lines[1..], tail)
  }

  function JoinedRecords(lines: seq<string>, tail: string): seq<Record> {
    if lines == [] then TailRecords(tail) else LineRecords(lines[0]) + JoinedRecords(lines[1..], tail)
  }

  lemma FlushClean(s: string, shouldLog: bool)
    ensures Flush(Splitter(Clean(s), shouldLog)) == Unfinished(s)
  {
  }

  lemma ShortTail(tail: string)
    requires '\n' !in tail && |tail| < FULL
    ensures Records(tail) == TailRecords(tail)
  {
    PartOfLine(tail);
    FlushClean(tail, true);
    assert [] + Flush(Run(Start, tail)) == Flush(Run(Start, tail));
  }

  lemma TailParts(tail: string) returns (head: seq<Record>, rest: string)
    requires '\n' !in tail && |tail| >= FULL
    ensures TailRecords(tail) == head + Unfinished(rest)
    ensures Emit(Start, tail) == head && Run(Start, tail) == Splitter(Clean(rest), false)
  {
    head := [Line(CString(Clean(tail[..FULL])))] + Marks(Pieces(|tail|) - 1);
    rest := tail[|tail| - Left(|tail|)..];
    LongPart(tail);
  }

  lemma LongTail(tail: string)
    requires '\n' !in tail && |tail| >= FULL
    ensures Records(tail) == TailRecords(tail)
  {
    var head, rest := TailParts(tail);
    FlushClean(rest, false);
  }

  lemma RecordsOfTail(tail: string)
    requires '\n' !in tail
    ensures Records(tail) == TailRecords(tail)
  {
    if |tail| < FULL {
      ShortTail(tail);
    } else {
      LongTail(tail);
    }
  }

  /** The records of any stream, given as its lines and what follows the last newline. */
  lemma {:induction false} RecordsOfLines(lines: seq<string>, tail: string)
    requires (forall l :: l in lines ==> '\n' !in l) && '\n' !in tail
    ensures Records(Joined(lines, tail)) == JoinedRecords(lines, tail)
  {
    if lines == [] {
      RecordsOfTail(tail);
    } else {
      var rest := Joined(lines[1..], tail);
      OneLine(lines[0]);
      RunConcat(Start, lines[0] + "\n", rest);
      RecordsOfLines(lines[1..], tail);
      calc {
        Records(Joined(lines, tail));
        Emit(Start, lines[0] + "\n") + Emit(Start, rest) + Flush(Run(Start, rest));
        Emit(Start, lines[0] + "\n") + Records(rest);
      }
    }
  }

  /** A line as it comes from the child: a short text, or one with a carriage return behind it. */
  predicate LineOf(line: string, text: string) {
    Plain(text) && |text| < 4094 && (line == text || line == text + "\r")
  }

  lemma TextOfLine(line: string, text: string)
    requires LineOf(line, text)
    ensures '\n' !in line && LineRecords(line) == [Line(text)]
  {
    assert forall i :: 0 <= i < |text| ==> line[i] == text[i];
    LoggedExactly(line, |text|);
    assert line[..|text|] == text;
  }

  lemma {:induction false} TextsOfLines(lines: seq<string>, texts: seq<string>)
    requires |lines| == |texts| && forall i :: 0 <= i < |lines| ==> LineOf(lines[i], texts[i])
    ensures JoinedRecords(lines, "") == seq(|texts|, i requires 0 <= i < |texts| => Line(texts[i]))
  {
    if lines != [] {
      TextOfLine(lines[0], texts[0]);
      TextsOfLines(lines[1..], texts[1..]);
    }
  }

  /** Short lines of plain text, whichever of them end in "\r\n", are logged as their texts, one record each. */
  lemma PlainLines(lines: seq<string>, texts: seq<string>)
    requires |lines| == |texts| && forall i :: 0 <= i < |lines| ==> LineOf(lines[i], texts[i])
    ensures Records(Joined(lines, "")) == seq(|texts|, i requires 0 <= i < |texts| => Line(texts[i]))
  {
    forall i | 0 <= i < |lines|
      ensures '\n' !in lines[i]
    {
      TextOfLine(lines[i], texts[i]);
    }
    RecordsOfLines(lines, "");
    TextsOfLines(lines, texts);
  }

  ghost predicate NoLineEnds(s: string) {
    forall i :: 0 <= i < |s| ==> s[i] != '\n' && s[i] != '\r'
  }

  /** An unfinished line never holds a line end or a carriage return. */
  lemma {:induction false} RunIsClean(st: Splitter, s: string)
    requires NoLineEnds(st.cur)
    ensures NoLineEnds(Run(st, s).cur)
    decreases |s|
  {
    if s != [] {
      RunIsClean(Put(st, s[0]).0, s[1..]);
    }
  }

  // ---------- the program

  /** The read end of the child's terminal: every read may give any part of what is left, or fail. */
  class Pipe {
    const stream: string
    var pos: nat

    constructor (stream: string)
      ensures this.stream == stream && pos == 0
    {
      this.stream := stream;
      pos := 0;
    }

    method Read(buffer: array<char>, off: nat, max: int) returns (n: int)
      requires pos <= |stream|
      requires 0 < max && off + max <= buffer.Length
      modifies this`pos, buffer
      ensures n <= max && pos <= |stream|
      ensures n <= 0 ==> pos == old(pos) && buffer[..] == old(buffer[..])
      ensures n > 0 ==> pos == old(pos) + n && buffer[off..off + n] == stream[old(pos)..pos]
      ensures buffer[..off] == old(buffer[..off])
    {
      if pos == |stream| {
        return 0;
      }
      if * {
        return -1;
      }
      n :| 1 <= n <= max && n <= |stream| - pos;
      forall i | 0 <= i < n {
        buffer[off + i] := stream[pos + i];
      }
      pos := pos + n;
    }
  }

  class Parent {
    var logged: seq<Record>
    const buffer: array<char>
    var shouldLogLine: bool

    constructor ()
      ensures logged == [] && shouldLogLine && fresh(buffer) && buffer.Length == BUFFER_SIZE
    {
      logged, shouldLogLine := [], true;
      buffer := new char[BUFFER_SIZE](_ => '\0');
    }

    /** What a "%s" of the buffer from a on prints, once the byte at b is a NUL. */
    method TextAt(a: nat, b: nat) returns (text: string)
      requires a <= b < buffer.Length && buffer[b] == '\0'
      ensures text == CString(buffer[a..b])
    {
      var i := a;
      while buffer[i] != '\0'
        invariant a <= i <= b
        invariant CString(buffer[a..b]) == buffer[a..i] + CString(buffer[i..b])
        decreases b - i
      {
        assert buffer[i..b][1..] == buffer[i + 1..b] && buffer[i..b][0] == buffer[i];
        assert buffer[a..i + 1] == buffer[a..i] + [buffer[i]];
        i := i + 1;
      }
      assert CString(buffer[i..b]) == [];
      text := buffer[a..i];
    }

    /** Logs the line from a to b, where a NUL has been put. */
    method LogLine(a: nat, b: nat)
      requires a <= b < buffer.Length && buffer[b] == '\0'
      modifies this`logged
      ensures logged == old(logged) + [RecordOf(Splitter(buffer[a..b], shouldLogLine))]
    {
      if shouldLogLine {
        var text := TextAt(a, b);
        logged := logged + [Line(text)];
      } else {
        logged := logged + [Truncated];
      }
    }

    /** What holds when the scan of a chunk has reached b: `done` is the part of the chunk scanned, from state st. */
    ghost predicate Scanned(st: Splitter, before: seq<Record>, done: string, a: nat, b: nat)
      reads this, buffer
    {
      && a <= b < buffer.Length
      && (b - a < FULL ==>
            && Run(st, done) == Splitter(buffer[a..b], shouldLogLine)
            && logged == before + Emit(st, done))
      && (b - a >= FULL ==>
            && Run(st, done) == Splitter([], false)
            && logged + [RecordOf(Splitter(buffer[a..b], shouldLogLine))] == before + Emit(st, done))
    }

    /** One turn of the scan over the bytes just read. */
    method ScanByte(a: nat, b: nat, ghost st: Splitter, ghost before: seq<Record>, ghost done: string)
        returns (a': nat)
      requires Scanned(st, before, done, a, b) && b < FULL && buffer.Length == BUFFER_SIZE
      modifies this, buffer
      ensures Scanned(st, before, done + [old(buffer[b])], a', b + 1)
      ensures forall k :: 0 <= k < buffer.Length && k != b ==> buffer[k] == old(buffer[k])
    {
      ghost var c := buffer[b];
      RunOne(st, done, c);
      a' := a;
      ghost var cur := buffer[a..b];
      if buffer[b] == '\r' {
        buffer[b] := '\0';
      } else if buffer[b] == '\n' {
        buffer[b] := '\0';
        assert buffer[a..b] == cur;
        LogLine(a, b);
        shouldLogLine := true;
        a' := b + 1;
        assert buffer[a'..b + 1] == [];
      }
      if c != '\n' {
        assert buffer[a..b + 1] == cur + [Cleaned(c)];
      }
    }

    /** The loop over the left-overs, which hold no line end and no carriage return. */
    method RescanLeft(left: nat) returns (b: nat)
      requires left <= buffer.Length
      requires forall k :: 0 <= k < left ==> buffer[k] != '\n' && buffer[k] != '\r'
      ensures b == left
    {
      b := 0;
      while b < left
        invariant b <= left
      {
        if buffer[b] == '\r' {
          assert false;
        } else if buffer[b] == '\n' {
          assert false;
        }
        b := b + 1;
      }
    }

    /** The loop over the buffer: first over the left-overs, then over the new bytes. */
    method ScanChunk(left: nat, sz: nat, ghost st: Splitter, ghost chunk: string) returns (a: nat)
      requires buffer.Length == BUFFER_SIZE
      requires left < sz <= FULL && chunk == buffer[left..sz]
      requires st == Splitter(buffer[..left], shouldLogLine)
      requires forall k :: 0 <= k < left ==> buffer[k] != '\n' && buffer[k] != '\r'
      modifies this, buffer
      ensures Scanned(st, old(logged), chunk, a, sz)
    {
      a := 0;
      var b := RescanLeft(left);
      assert chunk[..0] == [];
      assert buffer[0..left] == buffer[..left];
      while b < sz
        invariant left <= b <= sz
        invariant Scanned(st, old(logged), chunk[..b - left], a, b)
        invariant forall k :: b <= k < sz ==> buffer[k] == chunk[k - left]
      {
        ghost var k := b - left;
        assert chunk[..k + 1] == chunk[..k] + [chunk[k]];
        a := ScanByte(a, b, st, old(logged), chunk[..k]);
        b := b + 1;
      }
      assert chunk[..b - left] == chunk;
    }

    /** memmove of the unfinished line to the front of the buffer. */
    method MoveDown(a: nat, n: nat)
      requires a + n <= buffer.Length
      modifies buffer
      ensures buffer[..n] == old(buffer[a..a + n])
    {
      var i := 0;
      while i < n
        invariant 0 <= i <= n
        invariant forall k :: 0 <= k < i ==> buffer[k] == old(buffer[a + k])
        invariant forall k :: i <= k < buffer.Length ==> buffer[k] == old(buffer[k])
      {
        buffer[i] := buffer[a + i];
        i := i + 1;
      }
    }

    /** Between two reads: the unfinished line is at the front of the buffer, and there is room for more. */
    ghost predicate Ready(consumed: string, b: nat)
      reads this, buffer
    {
      && b < FULL && buffer.Length == BUFFER_SIZE
      && Run(Start, consumed) == Splitter(buffer[..b], shouldLogLine)
      && logged == Emit(Start, consumed)
    }

    /** After the scan of a chunk: a full buffer is flushed, left-overs go to the front. */
    method Settle(a: nat, sz: nat, ghost consumed: string, ghost chunk: string) returns (b: nat)
      requires buffer.Length == BUFFER_SIZE
      requires Scanned(Run(Start, consumed), Emit(Start, consumed), chunk, a, sz) && sz <= FULL
      modifies this, buffer
      ensures Ready(consumed + chunk, b)
    {
      RunConcat(Start, consumed, chunk);
      b := sz;
      if a == 0 && b == BUFFER_SIZE - 1 {
        ghost var cur := buffer[0..b];
        buffer[b] := '\0';
        assert buffer[0..b] == cur;
        LogLine(0, b);
        shouldLogLine := false;
        b := 0;
        assert buffer[..0] == [];
      } else if a != b {
        b := b - a;
        MoveDown(a, b);
      } else {
        assert buffer[a..b] == [] == buffer[..0];
        b := 0;
      }
    }

    /** One successful read and everything that follows it in the loop. */
    method Turn(b: nat, sz: nat, ghost consumed: string, ghost chunk: string) returns (b': nat)
      requires buffer.Length == BUFFER_SIZE && 0 < sz && b + sz <= FULL
      requires Ready(consumed, b) && chunk == buffer[b..b + sz]
      modifies this, buffer
      ensures Ready(consumed + chunk, b')
    {
      RunIsClean(Start, consumed);
      ghost var st := Run(Start, consumed);
      assert forall k :: 0 <= k < b ==> buffer[k] == st.cur[k];
      var a := ScanChunk(b, b + sz, st, chunk);
      b' := Settle(a, b + sz, consumed, chunk);
    }

    /** parent(): reads until end of file or an error, and logs every line. */
    method Copy(pipe: Pipe)
      requires pipe.pos == 0 && logged == [] && shouldLogLine && buffer.Length == BUFFER_SIZE
      modifies this, buffer, pipe
      ensures pipe.pos <= |pipe.stream|
      ensures logged == Records(pipe.stream[..pipe.pos])
    {
      var b: nat := 0;
      assert pipe.stream[..0] == [] && buffer[..0] == [];
      while true
        invariant pipe.pos <= |pipe.stream|
        invariant Ready(pipe.stream[..pipe.pos], b)
        decreases |pipe.stream| - pipe.pos
      {
        ghost var consumed := pipe.stream[..pipe.pos];
        ghost var from := pipe.pos;
        var sz := pipe.Read(buffer, b, BUFFER_SIZE - 1 - b);
        if sz <= 0 {
          break;
        }
        assert pipe.stream[..pipe.pos] == consumed + pipe.stream[from..pipe.pos];
        b := Turn(b, sz, consumed, pipe.stream[from..pipe.pos]);
      }
      if b != 0 {
        ghost var rest := buffer[..b];
        buffer[b] := '\0';
        assert buffer[0..b] == rest;
        var text := TextAt(0, b);
        logged := logged + [Line(text)];
      }
    }
  }
}
