/**
 * The line formatter of liblog/logprint.c (android_log_formatLogLine): it counts the lines of a message to size a
 * buffer, then writes every line between a prefix and a suffix.
 */
module LogFormat {
  import opened UrlMask

  const HEADER_SIZE := 128

  // ---------- lines

  /** The end of the line that starts at the front. */
  function LineEnd(s: string): (e: nat)
    ensures e <= |s| && '\n' !in s[..e]
    ensures e < |s| ==> s[e] == '\n'
  {
    if s == [] || s[0] == '\n' then 0
    else
      var e := LineEnd(s[1..]);
      assert s[..e + 1] == [s[0]] + s[1..][..e];
      e + 1
  }

  /** The message behind its first line and that line's newline. */
  function AfterLine(s: string): (r: string)
    requires s != []
    ensures |r| < |s|
  {
    if LineEnd(s) < |s| then s[LineEnd(s) + 1..] else []
  }

  /** The lines the writing pass finds. */
  function Lines(s: string): seq<string>
    decreases |s|
  {
    if s == [] then [] else [s[..LineEnd(s)]] + Lines(AfterLine(s))
  }

  function Newlines(s: string): nat {
    if s == [] then 0 else (if s[0] == '\n' then 1 else 0) + Newlines(s[1..])
  }

  /** What the sizing pass counts. */
  function NumLines(s: string): nat {
    Newlines(s) + (if s != [] && s[|s| - 1] != '\n' then 1 else 0)
  }

  function Wrapped(lines: seq<string>, prefix: string, suffix: string): string {
    if lines == [] then [] else prefix + lines[0] + suffix + Wrapped(lines[1..], prefix, suffix)
  }

  /** The formatted message: every line wrapped, or the whole message between header and footer. */
  function Formatted(message: string, prefix: string, suffix: string, headerFooter: bool): string {
    if headerFooter then prefix + message + suffix else Wrapped(Lines(message), prefix, suffix)
  }

  function Units(message: string, headerFooter: bool): nat {
    if headerFooter then 1 else NumLines(message)
  }

  function BufferSize(message: string, prefix: string, suffix: string, headerFooter: bool): nat {
    Units(message, headerFooter) * (|prefix| + |suffix|) + |message| + 1
  }

  lemma {:induction false} NewlinesConcat(s: string, t: string)
    ensures Newlines(s + t) == Newlines(s) + Newlines(t)
  {
    if s == [] {
      assert s + t == t;
    } else {
      assert (s + t)[1..] == s[1..] + t;
      NewlinesConcat(s[1..], t);
    }
  }

  lemma {:induction false} NoNewlines(s: string)
    requires '\n' !in s
    ensures Newlines(s) == 0
  {
    if s != [] {
      NoNewlines(s[1..]);
    }
  }

  /** The first line of a message, apart from the rest. */
  lemma SplitLine(s: string) returns (line: string, rest: string, ended: bool)
    requires s != []
    ensures line == s[..LineEnd(s)] && rest == AfterLine(s) && '\n' !in line && |rest| < |s|
    ensures ended ==> s == line + ("\n" + rest)
    ensures !ended ==> s == line && rest == []
    ensures Lines(s) == [line] + Lines(rest)
  {
    line, rest, ended := s[..LineEnd(s)], AfterLine(s), LineEnd(s) < |s|;
  }

  lemma EndedLine(line: string, rest: string)
    requires '\n' !in line
    ensures Newlines(line + ("\n" + rest)) == 1 + Newlines(rest)
    ensures NumLines(line + ("\n" + rest)) == 1 + NumLines(rest)
  {
    NoNewlines(line);
    NewlinesConcat(line, "\n" + rest);
    assert ("\n" + rest)[1..] == rest;
    var s := line + ("\n" + rest);
    assert rest != [] ==> s[|s| - 1] == rest[|rest| - 1];
    assert rest == [] ==> s[|s| - 1] == '\n';
  }

  lemma UnendedLine(line: string)
    requires '\n' !in line && line != []
    ensures Newlines(line) == 0 && NumLines(line) == 1
  {
    NoNewlines(line);
    assert line[|line| - 1] in line;
  }

  /** The two passes agree: the writing pass finds as many lines as the sizing pass counted. */
  lemma {:induction false} PassesAgree(s: string)
    ensures |Lines(s)| == NumLines(s)
    decreases |s|
  {
    if s != [] {
      var line, rest, ended := SplitLine(s);
      if ended { EndedLine(line, rest); } else { UnendedLine(line); }
      PassesAgree(rest);
    }
  }

  function Unlines(lines: seq<string>): string {
    if lines == [] then [] else lines[0] + ("\n" + Unlines(lines[1..]))
  }

  /** A message with a missing last newline supplied. */
  function Completed(s: string): string {
    if s == [] || s[|s| - 1] == '\n' then s else s + "\n"
  }

  lemma CompletedLine(line: string, rest: string)
    ensures Completed(line + ("\n" + rest)) == line + ("\n" + Completed(rest))
  {
    var s := line + ("\n" + rest);
    if rest != [] {
      assert s[|s| - 1] == rest[|rest| - 1];
      assert s + "\n" == line + ("\n" + (rest + "\n"));
    }
  }

  /** The lines are the message: none holds a newline, and joined with newlines they give the message back. */
  lemma {:induction false} LinesOfMessage(s: string)
    ensures forall i :: 0 <= i < |Lines(s)| ==> '\n' !in Lines(s)[i]
    ensures Unlines(Lines(s)) == Completed(s)
    decreases |s|
  {
    if s != [] {
      var line, rest, ended := SplitLine(s);
      LinesOfMessage(rest);
      UnlinesCons(line, Lines(rest));
      if ended {
        CompletedLine(line, rest);
      } else {
        UnendedLine(line);
        assert line[|line| - 1] in line;
        assert "\n" + [] == "\n";
      }
    }
  }

  lemma UnlinesCons(line: string, lines: seq<string>)
    ensures Unlines([line] + lines) == line + ("\n" + Unlines(lines))
  {
    assert ([line] + lines)[1..] == lines;
  }

  function TotalLength(lines: seq<string>): nat {
    if lines == [] then 0 else |lines[0]| + TotalLength(lines[1..])
  }

  function Times(n: nat, w: nat): nat {
    if n == 0 then 0 else w + Times(n - 1, w)
  }

  lemma {:induction false} TimesIsProduct(n: nat, w: nat)
    ensures Times(n, w) == n * w
  {
    if n > 0 {
      TimesIsProduct(n - 1, w);
      assert (n - 1) * w + w == n * w;
    }
  }

  lemma {:induction false} WrappedLength(lines: seq<string>, prefix: string, suffix: string)
    ensures |Wrapped(lines, prefix, suffix)| == Times(|lines|, |prefix| + |suffix|) + TotalLength(lines)
  {
    if lines != [] {
      WrappedLength(lines[1..], prefix, suffix);
    }
  }

  lemma TotalCons(line: string, lines: seq<string>)
    ensures TotalLength([line] + lines) == |line| + TotalLength(lines)
  {
    assert ([line] + lines)[1..] == lines;
  }

  lemma {:induction false} LengthOfLines(s: string)
    ensures TotalLength(Lines(s)) + Newlines(s) == |s|
    decreases |s|
  {
    if s != [] {
      var line, rest, ended := SplitLine(s);
      if ended { EndedLine(line, rest); } else { UnendedLine(line); }
      TotalCons(line, Lines(rest));
      LengthOfLines(rest);
    }
  }

  /** The output and its terminator always fit the buffer that was sized for them. */
  lemma OutputFits(message: string, prefix: string, suffix: string, headerFooter: bool)
    ensures |Formatted(message, prefix, suffix, headerFooter)| + 1 <= BufferSize(message, prefix, suffix, headerFooter)
    ensures !headerFooter ==>
      |Formatted(message, prefix, suffix, headerFooter)| + 1 + Newlines(message)
        == BufferSize(message, prefix, suffix, headerFooter)
  {
    WrappedLength(Lines(message), prefix, suffix);
    PassesAgree(message);
    LengthOfLines(message);
    TimesIsProduct(NumLines(message), |prefix| + |suffix|);
  }

  // ---------- where every piece stands

  predicate StandsAt(text: string, piece: string, pos: nat) {
    pos + |piece| <= |text| && text[pos..pos + |piece|] == piece
  }

  lemma StandsBehind(front: string, back: string, piece: string, pos: nat)
    requires StandsAt(back, piece, pos)
    ensures StandsAt(front + back, piece, |front| + pos)
  {
    var text := front + back;
    assert text[|front| + pos..|front| + pos + |piece|] == back[pos..pos + |piece|];
  }

  lemma ThreePieces(a: string, b: string, c: string, rest: string)
    ensures var text := a + b + c + rest;
      StandsAt(text, a, 0) && StandsAt(text, b, |a|) && StandsAt(text, c, |a| + |b|)
  {
  }

  /** Where line i and its prefix begin in the output: behind the earlier lines, each with a prefix and a suffix. */
  function Offset(lines: seq<string>, i: nat, w: nat): nat
    requires i <= |lines|
  {
    TotalLength(lines[..i]) + Times(i, w)
  }

  lemma OffsetCons(line: string, lines: seq<string>, i: nat, w: nat)
    requires i <= |lines|
    ensures Offset([line] + lines, i + 1, w) == |line| + w + Offset(lines, i, w)
  {
    assert ([line] + lines)[..i + 1] == [line] + lines[..i];
    TotalCons(line, lines[..i]);
  }

  /** Line i stands there between its prefix and its suffix. */
  ghost predicate InPlace(text: string, lines: seq<string>, prefix: string, suffix: string, i: nat)
    requires i < |lines|
  {
    var pos := Offset(lines, i, |prefix| + |suffix|);
    && StandsAt(text, prefix, pos) && StandsAt(text, lines[i], pos + |prefix|)
    && StandsAt(text, suffix, pos + |prefix| + |lines[i]|)
  }

  lemma InPlaceBehind(line: string, lines: seq<string>, text: string, prefix: string, suffix: string, i: nat)
    requires i < |lines| && InPlace(text, lines, prefix, suffix, i)
    ensures InPlace((prefix + line + suffix) + text, [line] + lines, prefix, suffix, i + 1)
  {
    var front := prefix + line + suffix;
    var pos := Offset(lines, i, |prefix| + |suffix|);
    OffsetCons(line, lines, i, |prefix| + |suffix|);
    StandsBehind(front, text, prefix, pos);
    StandsBehind(front, text, lines[i], pos + |prefix|);
    StandsBehind(front, text, suffix, pos + |prefix| + |lines[i]|);
  }

  /** Each line stands in the output between its own prefix and suffix, in the order of the lines. */
  lemma {:induction false} PieceInPlace(lines: seq<string>, prefix: string, suffix: string, i: nat)
    requires i < |lines|
    ensures InPlace(Wrapped(lines, prefix, suffix), lines, prefix, suffix, i)
  {
    var rest := Wrapped(lines[1..], prefix, suffix);
    if i == 0 {
      assert lines[..0] == [];
      ThreePieces(prefix, lines[0], suffix, rest);
    } else {
      PieceInPlace(lines[1..], prefix, suffix, i - 1);
      InPlaceBehind(lines[0], lines[1..], rest, prefix, suffix, i - 1);
      assert [lines[0]] + lines[1..] == lines;
    }
  }

  /** The output consists of the lines of the message, each with the prefix before and the suffix behind it, and of
      nothing else. */
  lemma LinesInPlace(message: string, prefix: string, suffix: string)
    ensures var lines, text := Lines(message), Formatted(message, prefix, suffix, false);
      && |text| == TotalLength(lines) + Times(|lines|, |prefix| + |suffix|)
      && forall i :: 0 <= i < |lines| ==> InPlace(text, lines, prefix, suffix, i)
  {
    var lines := Lines(message);
    WrappedLength(lines, prefix, suffix);
    forall i | 0 <= i < |lines|
      ensures InPlace(Wrapped(lines, prefix, suffix), lines, prefix, suffix, i)
    {
      PieceInPlace(lines, prefix, suffix, i);
    }
  }

  /** As header and footer, the prefix stands before the whole message and the suffix behind it. */
  lemma HeaderAndFooter(message: string, prefix: string, suffix: string)
    ensures var text := Formatted(message, prefix, suffix, true);
      && |text| == |prefix| + |message| + |suffix|
      && StandsAt(text, prefix, 0) && StandsAt(text, message, |prefix|)
      && StandsAt(text, suffix, |prefix| + |message|)
  {
    ThreePieces(prefix, message, suffix, []);
    assert prefix + message + suffix + [] == prefix + message + suffix;
  }

  // ---------- the code

  /** What snprintf leaves in a 128-byte header buffer. */
  function Header(full: string): string {
    if |full| >= HEADER_SIZE then full[..HEADER_SIZE - 1] else full
  }

  /** A prefix or suffix is cut to the 127 characters its buffer has room for. */
  lemma HeaderIsCut(full: string)
    ensures Header(full) <= full && |Header(full)| == if |full| < 128 then |full| else 127
  {
  }

  method CountLines(message: string) returns (numLines: nat)
    ensures numLines == NumLines(message)
  {
    var pm := 0;
    numLines := 0;
    while pm < |message|
      invariant 0 <= pm <= |message|
      invariant numLines == Newlines(message[..pm])
    {
      assert message[..pm + 1] == message[..pm] + [message[pm]];
      NewlinesConcat(message[..pm], [message[pm]]);
      assert [message[pm]][1..] == [];
      if message[pm] == '\n' {
        numLines := numLines + 1;
      }
      pm := pm + 1;
    }
    assert message[..pm] == message;
    if pm > 0 && message[pm - 1] != '\n' {
      numLines := numLines + 1;
    }
  }

  /** strcat of a piece at p, the current end of the string. */
  method Append(buf: array<char>, p: nat, s: string) returns (p': nat)
    requires HoldsString(buf, p) && p + |s| < buf.Length && '\0' !in s
    modifies buf
    ensures p' == p + |s| && buf[..p'] == old(buf[..p]) + s && HoldsString(buf, p')
  {
    forall i | 0 <= i < |s| {
      buf[p + i] := s[i];
    }
    p' := p + |s|;
    buf[p'] := '\0';
    assert buf[..p'] == old(buf[..p]) + s;
  }

  /** One line of the writing pass, wrapped. */
  method AppendLine(buf: array<char>, p: nat, prefix: string, line: string, suffix: string) returns (p': nat)
    requires HoldsString(buf, p) && p + |prefix| + |line| + |suffix| < buf.Length
    requires '\0' !in prefix && '\0' !in line && '\0' !in suffix
    modifies buf
    ensures p' == p + |prefix| + |line| + |suffix| && HoldsString(buf, p')
    ensures buf[..p'] == old(buf[..p]) + (prefix + line + suffix)
  {
    p' := Append(buf, p, prefix);
    p' := Append(buf, p', line);
    p' := Append(buf, p', suffix);
    assert buf[..p'] == old(buf[..p]) + (prefix + line + suffix);
  }

  /** One more line of the message is in the output. */
  lemma LineWritten(all: string, done: string, rest: string, prefix: string, suffix: string)
    requires rest != [] && all == done + Wrapped(Lines(rest), prefix, suffix)
    ensures all == (done + (prefix + rest[..LineEnd(rest)] + suffix)) + Wrapped(Lines(AfterLine(rest)), prefix, suffix)
  {
    var line, next, ended := SplitLine(rest);
    var lines := Lines(next);
    assert ([line] + lines)[1..] == lines;
    assert Wrapped([line] + lines, prefix, suffix) == (prefix + line + suffix) + Wrapped(lines, prefix, suffix);
  }

  /** The step of the writing pass from one line to the next. */
  method NextLine(message: string, from: nat) returns (line: string, next: nat)
    requires from < |message|
    ensures from < next <= |message| && line == message[from..][..LineEnd(message[from..])]
    ensures message[next..] == AfterLine(message[from..])
    ensures forall c :: c in line ==> c in message
  {
    var pm := FindNewline(message, from);
    line := message[from..pm];
    next := if pm < |message| then pm + 1 else pm;
  }

  /** The writing pass over the lines of a message. */
  method WriteLines(buf: array<char>, message: string, prefix: string, suffix: string) returns (p: nat)
    requires HoldsString(buf, 0) && |Wrapped(Lines(message), prefix, suffix)| < buf.Length
    requires '\0' !in prefix && '\0' !in message && '\0' !in suffix
    modifies buf
    ensures HoldsString(buf, p) && buf[..p] == Wrapped(Lines(message), prefix, suffix)
  {
    p := 0;
    var pm := 0;
    ghost var all := Wrapped(Lines(message), prefix, suffix);
    assert buf[..0] == [] && message[0..] == message;
    while pm < |message|
      invariant 0 <= pm <= |message| && HoldsString(buf, p)
      invariant all == buf[..p] + Wrapped(Lines(message[pm..]), prefix, suffix)
    {
      LineWritten(all, buf[..p], message[pm..], prefix, suffix);
      var line;
      line, pm := NextLine(message, pm);
      p := AppendLine(buf, p, prefix, line, suffix);
    }
    assert message[pm..] == [];
  }

  /** The end of the line that starts at `from`. */
  method FindNewline(message: string, from: nat) returns (pm: nat)
    requires from <= |message|
    ensures from <= pm <= |message| && pm - from == LineEnd(message[from..])
  {
    pm := from;
    while pm < |message| && message[pm] != '\n'
      invariant from <= pm <= |message|
      invariant LineEnd(message[from..]) == pm - from + LineEnd(message[pm..])
    {
      assert message[pm..][1..] == message[pm + 1..];
      pm := pm + 1;
    }
  }

  /** The sizing pass. */
  method SizeBuffer(message: string, prefix: string, suffix: string, headerFooter: bool) returns (bufferSize: nat)
    ensures bufferSize == BufferSize(message, prefix, suffix, headerFooter)
  {
    var numLines := 1;
    if !headerFooter {
      numLines := CountLines(message);
    }
    bufferSize := numLines * (|prefix| + |suffix|) + |message| + 1;
  }

  /** The writing pass, or the message between header and footer. */
  method WriteOutput(buf: array<char>, message: string, prefix: string, suffix: string, headerFooter: bool)
      returns (p: nat)
    requires |Formatted(message, prefix, suffix, headerFooter)| < buf.Length
    requires '\0' !in prefix && '\0' !in message && '\0' !in suffix
    modifies buf
    ensures HoldsString(buf, p) && buf[..p] == Formatted(message, prefix, suffix, headerFooter)
  {
    buf[0] := '\0';
    assert buf[..0] == [];
    if headerFooter {
      p := AppendLine(buf, 0, prefix, message, suffix);
    } else {
      p := WriteLines(buf, message, prefix, suffix);
    }
  }

  /** android_log_formatLogLine, given the header and footer texts the chosen format prints. */
  method FormatLogLine(
      defaultBuffer: array<char>, message: string, fullPrefix: string, fullSuffix: string, headerFooter: bool,
      secure: bool) returns (ret: array<char>, outLength: nat)
    requires '\0' !in fullPrefix && '\0' !in message && '\0' !in fullSuffix
    modifies defaultBuffer
    ensures ret == defaultBuffer <==>
      defaultBuffer.Length >= BufferSize(message, Header(fullPrefix), Header(fullSuffix), headerFooter)
    ensures ret == defaultBuffer || fresh(ret)
    ensures var text := Formatted(message, Header(fullPrefix), Header(fullSuffix), headerFooter);
      && outLength == |text| && HoldsString(ret, outLength)
      && ret[..outLength] == (if secure then Filter(text, 0) else text)
  {
    var prefix, suffix := Header(fullPrefix), Header(fullSuffix);
    var bufferSize := SizeBuffer(message, prefix, suffix, headerFooter);
    OutputFits(message, prefix, suffix, headerFooter);
    if defaultBuffer.Length >= bufferSize {
      ret := defaultBuffer;
    } else {
      ret := new char[bufferSize](_ => '\0');
    }
    outLength := WriteOutput(ret, message, prefix, suffix, headerFooter);
    FilterUrl(ret, outLength, secure);
  }
}
