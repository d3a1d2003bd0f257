/** The event tag file: a loose pass that counts tag lines, a careful pass that parses them in place, a sort with a
    check for duplicates, and a binary search. */
module EventTagMap {

  import opened Wrappers

  // ---------- characters

  const NUL := '\0'

  predicate IsWhitespace(c: char) {
    c == ' ' || c == '\n' || c == '\r' || c == '\t'
  }

  predicate IsValidTag(c: char) {
    'A' <= c <= 'Z' || 'a' <= c <= 'z' || '0' <= c <= '9' || c == '_'
  }

  predicate IsDigit(c: char) {
    '0' <= c <= '9'
  }

  // ---------- the loose pass

  function CountFrom(text: string, pos: nat, unknown: bool): nat
    decreases |text| - pos
  {
    if pos >= |text| then 0
    else if text[pos] == '\n' then CountFrom(text, pos + 1, true)
    else if !unknown then CountFrom(text, pos + 1, false)
    else if IsDigit(text[pos]) then 1 + CountFrom(text, pos + 1, false)
    else CountFrom(text, pos + 1, IsWhitespace(text[pos]))
  }

  method CountMapLines(text: string) returns (numTags: nat)
    ensures numTags == CountFrom(text, 0, true)
  {
    numTags := 0;
    var cp, unknown := 0, true;
    while cp < |text|
      invariant cp <= |text|
      invariant numTags + CountFrom(text, cp, unknown) == CountFrom(text, 0, true)
    {
      if text[cp] == '\n' {
        unknown := true;
      } else if unknown {
        if IsDigit(text[cp]) {
          numTags := numTags + 1;
          unknown := false;
        } else if IsWhitespace(text[cp]) {
        } else {
          unknown := false;
        }
      }
      cp := cp + 1;
    }
  }

  // ---------- one tag line

  function Digit(c: char): nat {
    if IsDigit(c) then c as int - '0' as int else 0
  }

  /** The number that the digits from p to q make. */
  function NumberIn(text: string, p: nat, q: nat): nat
    requires q <= |text|
    decreases q
  {
    if q <= p then 0 else NumberIn(text, p, q - 1) * 10 + Digit(text[q - 1])
  }

  /** strtoul with a 64-bit unsigned long, stored in an unsigned int. */
  function TagNumber(text: string, p: nat, q: nat): nat
    requires q <= |text|
  {
    var n := NumberIn(text, p, q);
    (if n < 0x1_0000_0000_0000_0000 then n else 0xFFFF_FFFF_FFFF_FFFF) % 0x1_0000_0000
  }

  function DigitsEnd(text: string, p: nat): (q: nat)
    ensures p <= |text| ==> p <= q <= |text|
    ensures forall k :: p <= k < q ==> k < |text| && IsDigit(text[k])
    ensures q < |text| ==> !IsDigit(text[q])
    decreases |text| - p
  {
    if p < |text| && IsDigit(text[p]) then DigitsEnd(text, p + 1) else p
  }

  /** Skips blanks, but not a line end. */
  function GapEnd(text: string, p: nat): (q: nat)
    ensures p <= q
    ensures p <= |text| ==> q <= |text|
    ensures forall k :: p <= k < q ==> k < |text| && IsWhitespace(text[k]) && text[k] != '\n'
    ensures q < |text| ==> text[q] == '\n' || !IsWhitespace(text[q])
    decreases |text| - p
  {
    if p < |text| && text[p] != '\n' && IsWhitespace(text[p]) then GapEnd(text, p + 1) else p
  }

  function NameEnd(text: string, p: nat): (q: nat)
    ensures p <= q
    ensures p <= |text| ==> q <= |text|
    ensures forall k :: p <= k < q ==> k < |text| && IsValidTag(text[k])
    ensures q < |text| ==> !IsValidTag(text[q])
    decreases |text| - p
  {
    if p < |text| && IsValidTag(text[p]) then NameEnd(text, p + 1) else p
  }

  function LineEnd(text: string, p: nat): (q: nat)
    ensures p <= q
    ensures p <= |text| ==> q <= |text|
    ensures forall k :: p <= k < q ==> k < |text| && text[k] != '\n'
    ensures q < |text| ==> text[q] == '\n'
    decreases |text| - p
  {
    if p < |text| && text[p] != '\n' then LineEnd(text, p + 1) else p
  }

  /** A tag and where its name begins in the file. */
  datatype EventTag = EventTag(tagIndex: nat, tagStr: nat)

  /** A tag line: the tag, the end of its name, and the last position of the line; or a refusal; or a scan that runs
      past the end of the file. */
  datatype Scan = Scanned(tag: EventTag, nameEnd: nat, last: nat) | Refused | Outside

  /** What follows the name: the end of the line, or a blank and anything up to the end of the line. */
  function AfterName(text: string, tag: EventTag, e: nat): (r: Scan)
    ensures r.Scanned? ==> r.tag == tag && r.nameEnd == e <= r.last < |text|
  {
    if e >= |text| then Outside
    else if text[e] == '\n' then Scanned(tag, e, e)
    else if !IsWhitespace(text[e]) then Refused
    else
      var last := LineEnd(text, e + 1);
      if last >= |text| then Outside else Scanned(tag, e, last)
  }

  /** scanTagLine on the text as it was before any byte was overwritten: p is the first digit. */
  function ScanTagLine(text: string, p: nat): (r: Scan)
    requires p < |text|
    ensures r.Scanned? ==> p < r.tag.tagStr < r.nameEnd <= r.last < |text|
  {
    var q := DigitsEnd(text, p + 1);
    if q >= |text| then Outside
    else
      var start := GapEnd(text, q + 1);
      if start >= |text| then Outside
      else if text[start] == '\n' then Refused
      else AfterName(text, EventTag(TagNumber(text, p, q), start), NameEnd(text, start + 1))
  }

  /** A tag with the name that can be read at its pointer. */
  datatype Entry = Entry(tag: EventTag, name: string)

  // ---------- the careful pass

  datatype Parsed = Parsed(entries: seq<Entry>) | Failed

  function ParseFrom(text: string, pos: nat, lineStart: bool, found: seq<Entry>, numTags: nat): Parsed
    decreases |text| - pos
  {
    if pos >= |text| then if |found| == numTags then Parsed(found) else Failed
    else if text[pos] == '\n' then ParseFrom(text, pos + 1, true, found, numTags)
    else if !lineStart then ParseFrom(text, pos + 1, false, found, numTags)
    else if text[pos] == '#' then ParseFrom(text, pos + 1, false, found, numTags)
    else if IsDigit(text[pos]) then
      if |found| >= numTags then Failed
      else
        var scan := ScanTagLine(text, pos);
        if !scan.Scanned? then Failed
        else
          var entry := Entry(scan.tag, text[scan.tag.tagStr..scan.nameEnd]);
          ParseFrom(text, scan.last + 1, true, found + [entry], numTags)
    else if IsWhitespace(text[pos]) then ParseFrom(text, pos + 1, true, found, numTags)
    else Failed
  }

  /** parseMapLines: the last character must be a line end. */
  function Parse(text: string): Parsed {
    if text == "" || text[|text| - 1] != '\n' then Failed
    else ParseFrom(text, 0, true, [], CountFrom(text, 0, true))
  }

  // ---------- lines as the careful pass takes them

  /** Behind the number of a tag line stands one byte that is overwritten unseen, then blanks, then a first byte of the
      name that is not checked either. */
  datatype Line =
    | Blank(space: string)
    | Comment(space: string, body: string)
    | Tag(space: string, digits: string, after: char, gap: string, first: char, name: string, rest: string)

  predicate Blanks(s: string) {
    forall k :: 0 <= k < |s| ==> IsWhitespace(s[k]) && s[k] != '\n'
  }

  predicate NoLineEnd(s: string) {
    forall k :: 0 <= k < |s| ==> s[k] != '\n'
  }

  predicate Taken(line: Line) {
    Blanks(line.space) &&
    match line
    case Blank(_) => true
    case Comment(_, body) => body != "" && body[0] == '#' && NoLineEnd(body)
    case Tag(_, digits, after, gap, first, name, rest) =>
      && digits != "" && (forall k :: 0 <= k < |digits| ==> IsDigit(digits[k]))
      && !IsDigit(after) && Blanks(gap) && !IsWhitespace(first)
      && (forall k :: 0 <= k < |name| ==> IsValidTag(name[k]))
      && (rest != "" ==> IsWhitespace(rest[0]) && NoLineEnd(rest))
  }

  /** The lines of the file's own format: a number an int can hold, blanks, and a name of tag characters. */
  predicate WellFormed(line: Line) {
    Taken(line) && (line.Tag? ==>
      && NumberIn(line.digits, 0, |line.digits|) < 0x8000_0000
      && IsWhitespace(line.after) && line.after != '\n' && IsValidTag(line.first))
  }

  /** The bytes of a string stand in the file at a position. */
  ghost predicate At(s: string, text: string, pos: nat) {
    pos + |s| <= |text| && forall k :: 0 <= k < |s| ==> text[pos + k] == s[k]
  }

  function Length(line: Line): nat {
    match line
    case Blank(space) => |space|
    case Comment(space, body) => |space| + |body|
    case Tag(space, digits, _, gap, _, name, rest) => |space| + |digits| + 1 + |gap| + 1 + |name| + |rest|
  }

  /** Where the number of a tag line ends, and where its name begins. */
  function NumberEnd(line: Line, pos: nat): nat
    requires line.Tag?
  {
    pos + |line.space| + |line.digits|
  }

  function NameStart(line: Line, pos: nat): nat
    requires line.Tag?
  {
    NumberEnd(line, pos) + 1 + |line.gap|
  }

  ghost predicate LineAt(line: Line, text: string, pos: nat) {
    && At(line.space, text, pos)
    && pos + Length(line) < |text| && text[pos + Length(line)] == '\n'
    && match line
       case Blank(_) => true
       case Comment(space, body) => At(body, text, pos + |space|)
       case Tag(space, digits, after, gap, first, name, rest) =>
         var q, start := NumberEnd(line, pos), NameStart(line, pos);
         && At(digits, text, pos + |space|) && text[q] == after
         && At(gap, text, q + 1) && text[start] == first
         && At(name, text, start + 1) && At(rest, text, start + 1 + |name|)
  }

  datatype Lines = End | More(line: Line, rest: Lines)

  /** From this position on the file consists of these lines. */
  ghost predicate LaidOut(lines: Lines, text: string, pos: nat) {
    match lines
    case End => pos == |text|
    case More(line, rest) => Taken(line) && LineAt(line, text, pos) && LaidOut(rest, text, pos + Length(line) + 1)
  }

  predicate AllWellFormed(lines: Lines) {
    lines.More? ==> WellFormed(lines.line) && AllWellFormed(lines.rest)
  }

  /** The entry of a tag line: its number, and its name at the place where it stands. */
  function EntryOf(line: Line, pos: nat): Entry
    requires line.Tag?
  {
    Entry(EventTag(TagNumber(line.digits, 0, |line.digits|), NameStart(line, pos)), [line.first] + line.name)
  }

  function Own(line: Line, pos: nat): seq<Entry> {
    if line.Tag? then [EntryOf(line, pos)] else []
  }

  /** The entries such a file describes: one for each tag line. */
  function Described(lines: Lines, pos: nat): seq<Entry> {
    match lines
    case End => []
    case More(line, rest) => Own(line, pos) + Described(rest, pos + Length(line) + 1)
  }

  /** A number alone on its line loses the line end to the overwriting, and the line behind it begins with a digit. */
  predicate SwallowsNumber(line: Line) {
    line.Tag? && line.after == '\n' && IsDigit(line.first)
  }

  function Swallowed(lines: Lines): nat {
    match lines
    case End => 0
    case More(line, rest) => (if SwallowsNumber(line) then 1 else 0) + Swallowed(rest)
  }

  // ---------- stretches of text

  /** A string standing in the file, character by character from its own position. */
  lemma Chars(s: string, text: string, pos: nat)
    requires At(s, text, pos)
    ensures forall k :: pos <= k < pos + |s| ==> text[k] == s[k - pos]
  {
    forall k | pos <= k < pos + |s|
      ensures text[k] == s[k - pos]
    {
      assert text[pos + (k - pos)] == s[k - pos];
    }
  }

  ghost predicate BlankFrom(text: string, p: nat, q: nat) {
    p <= q <= |text| && forall k :: p <= k < q ==> text[k] != '\n' && IsWhitespace(text[k])
  }

  ghost predicate OneLine(text: string, p: nat, q: nat) {
    p <= q < |text| && text[q] == '\n' && forall k :: p <= k < q ==> text[k] != '\n'
  }

  lemma {:induction false} CountBlanks(text: string, p: nat, q: nat)
    requires BlankFrom(text, p, q)
    ensures CountFrom(text, p, true) == CountFrom(text, q, true)
    decreases q - p
  {
    if p < q {
      CountBlanks(text, p + 1, q);
    }
  }

  lemma {:induction false} CountSkips(text: string, p: nat, q: nat)
    requires OneLine(text, p, q)
    ensures CountFrom(text, p, false) == CountFrom(text, q + 1, true)
    decreases q - p
  {
    if p < q {
      CountSkips(text, p + 1, q);
    }
  }

  lemma {:induction false} ParseBlanks(text: string, p: nat, q: nat, found: seq<Entry>, numTags: nat)
    requires BlankFrom(text, p, q)
    ensures ParseFrom(text, p, true, found, numTags) == ParseFrom(text, q, true, found, numTags)
    decreases q - p
  {
    if p < q {
      ParseBlanks(text, p + 1, q, found, numTags);
    }
  }

  lemma {:induction false} ParseSkips(text: string, p: nat, q: nat, found: seq<Entry>, numTags: nat)
    requires OneLine(text, p, q)
    ensures ParseFrom(text, p, false, found, numTags) == ParseFrom(text, q + 1, true, found, numTags)
    decreases q - p
  {
    if p < q {
      ParseSkips(text, p + 1, q, found, numTags);
    }
  }

  lemma {:induction false} DigitsEndAt(text: string, p: nat, q: nat)
    requires p <= q < |text| && !IsDigit(text[q]) && forall k :: p <= k < q ==> IsDigit(text[k])
    ensures DigitsEnd(text, p) == q
    decreases q - p
  {
    if p < q {
      DigitsEndAt(text, p + 1, q);
    }
  }

  lemma {:induction false} GapEndAt(text: string, p: nat, q: nat)
    requires BlankFrom(text, p, q) && q < |text| && (text[q] == '\n' || !IsWhitespace(text[q]))
    ensures GapEnd(text, p) == q
    decreases q - p
  {
    if p < q {
      GapEndAt(text, p + 1, q);
    }
  }

  lemma {:induction false} NameEndAt(text: string, p: nat, q: nat)
    requires p <= q < |text| && !IsValidTag(text[q]) && forall k :: p <= k < q ==> IsValidTag(text[k])
    ensures NameEnd(text, p) == q
    decreases q - p
  {
    if p < q {
      NameEndAt(text, p + 1, q);
    }
  }

  lemma {:induction false} LineEndAt(text: string, p: nat, q: nat)
    requires OneLine(text, p, q)
    ensures LineEnd(text, p) == q
    decreases q - p
  {
    if p < q {
      LineEndAt(text, p + 1, q);
    }
  }

  lemma {:induction false} SameNumber(digits: string, text: string, p: nat, n: nat)
    requires At(digits, text, p) && n <= |digits|
    ensures NumberIn(text, p, p + n) == NumberIn(digits, 0, n)
    decreases n
  {
    if n > 0 {
      assert text[p + (n - 1)] == digits[n - 1];
      SameNumber(digits, text, p, n - 1);
    }
  }

  // ---------- one tag line

  /** Digits from p to q, a byte, blanks to start, a byte, name characters to e, and the end of the line at last. */
  ghost predicate TagLineAt(text: string, p: nat, q: nat, start: nat, e: nat, last: nat) {
    && p < q < start < e <= last < |text|
    && (forall k :: p <= k < q ==> IsDigit(text[k])) && !IsDigit(text[q])
    && BlankFrom(text, q + 1, start) && !IsWhitespace(text[start])
    && (forall k :: start < k < e ==> IsValidTag(text[k]))
    && OneLine(text, e, last) && IsWhitespace(text[e])
  }

  /** scanTagLine takes exactly these. */
  lemma ScanAt(text: string, p: nat, q: nat, start: nat, e: nat, last: nat)
    requires TagLineAt(text, p, q, start, e, last)
    ensures ScanTagLine(text, p) == Scanned(EventTag(TagNumber(text, p, q), start), e, last)
  {
    DigitsEndAt(text, p + 1, q);
    GapEndAt(text, q + 1, start);
    assert !IsValidTag(text[e]);
    NameEndAt(text, start + 1, e);
    if text[e] != '\n' {
      LineEndAt(text, e + 1, last);
    }
  }

  lemma ScanTakes(text: string, p: nat)
    requires p < |text| && IsDigit(text[p]) && ScanTagLine(text, p).Scanned?
    ensures var r := ScanTagLine(text, p);
      TagLineAt(text, p, DigitsEnd(text, p + 1), r.tag.tagStr, r.nameEnd, r.last)
  {
  }

  lemma TagLineParts(line: Line, text: string, pos: nat)
    requires Taken(line) && LineAt(line, text, pos) && line.Tag?
    ensures var start := NameStart(line, pos);
      TagLineAt(text, pos + |line.space|, NumberEnd(line, pos), start, start + 1 + |line.name|, pos + Length(line))
  {
    var q, start := NumberEnd(line, pos), NameStart(line, pos);
    Chars(line.digits, text, pos + |line.space|);
    Chars(line.gap, text, q + 1);
    Chars(line.name, text, start + 1);
    Chars(line.rest, text, start + 1 + |line.name|);
  }

  lemma SubstringAt(text: string, from: nat, to: nat) returns (s: string)
    requires from <= to <= |text|
    ensures s == text[from..to] && |s| == to - from && At(s, text, from)
    ensures forall k :: 0 <= k < |s| ==> s[k] == text[from + k]
  {
    s := text[from..to];
  }

  /** The line that a scan has taken, behind blanks from pos. */
  lemma TagLineOf(text: string, pos: nat, p: nat, q: nat, start: nat, e: nat, last: nat) returns (line: Line)
    requires BlankFrom(text, pos, p) && TagLineAt(text, p, q, start, e, last)
    ensures line.Tag? && Taken(line) && LineAt(line, text, pos) && pos + Length(line) == last
  {
    var space := SubstringAt(text, pos, p);
    var digits := SubstringAt(text, p, q);
    var gap := SubstringAt(text, q + 1, start);
    var name := SubstringAt(text, start + 1, e);
    var rest := SubstringAt(text, e, last);
    line := Tag(space, digits, text[q], gap, text[start], name, rest);
    assert NumberEnd(line, pos) == q && NameStart(line, pos) == start;
  }

  lemma NameStands(first: char, name: string, text: string, start: nat)
    requires start < |text| && text[start] == first && At(name, text, start + 1)
    ensures text[start..start + 1 + |name|] == [first] + name
  {
  }

  /** Of a tag line the scan yields the number, the place and the end of the name, and the end of the line. */
  lemma ScanLine(line: Line, text: string, pos: nat, p: nat, e: nat)
    requires Taken(line) && LineAt(line, text, pos) && line.Tag?
    requires p == pos + |line.space| && e == NameStart(line, pos) + 1 + |line.name|
    ensures p < NameStart(line, pos) < e <= |text| && IsDigit(text[p])
    ensures ScanTagLine(text, p) == Scanned(EntryOf(line, pos).tag, e, pos + Length(line))
  {
    TagLineParts(line, text, pos);
    ScanAt(text, p, NumberEnd(line, pos), NameStart(line, pos), e, pos + Length(line));
    SameNumber(line.digits, text, p, |line.digits|);
  }

  lemma NameOfLine(line: Line, text: string, pos: nat)
    requires LineAt(line, text, pos) && line.Tag?
    ensures var start := NameStart(line, pos);
      text[start..start + 1 + |line.name|] == EntryOf(line, pos).name
  {
    NameStands(line.first, line.name, text, NameStart(line, pos));
  }

  /** The loose pass sees one more tag where a line end was swallowed and a digit follows. */
  lemma CountTag(text: string, p: nat, q: nat, start: nat, e: nat, last: nat)
    requires TagLineAt(text, p, q, start, e, last)
    ensures CountFrom(text, p, true)
      == 1 + (if text[q] == '\n' && IsDigit(text[start]) then 1 else 0) + CountFrom(text, last + 1, true)
  {
    if text[q] == '\n' {
      CountSkips(text, p + 1, q);
      CountBlanks(text, q + 1, start);
      CountSkips(text, start + 1, last);
    } else {
      CountSkips(text, p + 1, last);
    }
  }

  // ---------- both passes on a line

  lemma SpaceAt(line: Line, text: string, pos: nat)
    requires Taken(line) && LineAt(line, text, pos)
    ensures BlankFrom(text, pos, pos + |line.space|)
  {
    Chars(line.space, text, pos);
  }

  lemma CommentAt(line: Line, text: string, pos: nat)
    requires Taken(line) && LineAt(line, text, pos) && line.Comment?
    ensures var p := pos + |line.space|;
      text[p] == '#' && OneLine(text, p + 1, pos + Length(line))
  {
    Chars(line.body, text, pos + |line.space|);
  }

  lemma CountLine(line: Line, text: string, pos: nat)
    requires Taken(line) && LineAt(line, text, pos)
    ensures CountFrom(text, pos, true)
      == |Own(line, pos)| + (if SwallowsNumber(line) then 1 else 0) + CountFrom(text, pos + Length(line) + 1, true)
  {
    var p := pos + |line.space|;
    SpaceAt(line, text, pos);
    CountBlanks(text, pos, p);
    match line
    case Blank(_) =>
    case Comment(_, _) =>
      CommentAt(line, text, pos);
      CountSkips(text, p + 1, pos + Length(line));
    case Tag(_, _, _, _, _, name, _) =>
      var start := NameStart(line, pos);
      TagLineParts(line, text, pos);
      CountTag(text, p, NumberEnd(line, pos), start, start + 1 + |name|, pos + Length(line));
  }

  /** The loose pass counts the tag lines, and the numbers that come to stand in another line's name. */
  lemma {:induction false} CountIsDescribed(lines: Lines, text: string, pos: nat)
    requires LaidOut(lines, text, pos)
    ensures CountFrom(text, pos, true) == |Described(lines, pos)| + Swallowed(lines)
    decreases lines
  {
    if lines.More? {
      CountLine(lines.line, text, pos);
      CountIsDescribed(lines.rest, text, pos + Length(lines.line) + 1);
    }
  }

  lemma ParseTagStep(text: string, pos: nat, found: seq<Entry>, numTags: nat, entry: Entry, e: nat, last: nat)
    requires pos < |text| && IsDigit(text[pos])
    requires ScanTagLine(text, pos) == Scanned(entry.tag, e, last) && entry.name == text[entry.tag.tagStr..e]
    ensures ParseFrom(text, pos, true, found, numTags)
      == if |found| >= numTags then Failed else ParseFrom(text, last + 1, true, found + [entry], numTags)
  {
  }

  lemma ParseCommentLine(line: Line, text: string, pos: nat, found: seq<Entry>, numTags: nat)
    requires Taken(line) && LineAt(line, text, pos) && line.Comment?
    ensures ParseFrom(text, pos + |line.space|, true, found, numTags)
      == ParseFrom(text, pos + Length(line) + 1, true, found, numTags)
  {
    CommentAt(line, text, pos);
    ParseSkips(text, pos + |line.space| + 1, pos + Length(line), found, numTags);
  }

  lemma ParseTagLine(line: Line, text: string, pos: nat, found: seq<Entry>, numTags: nat)
    requires Taken(line) && LineAt(line, text, pos) && line.Tag?
    ensures ParseFrom(text, pos + |line.space|, true, found, numTags)
      == if |found| >= numTags then Failed
         else ParseFrom(text, pos + Length(line) + 1, true, found + [EntryOf(line, pos)], numTags)
  {
    var e := NameStart(line, pos) + 1 + |line.name|;
    ScanLine(line, text, pos, pos + |line.space|, e);
    NameOfLine(line, text, pos);
    ParseTagStep(text, pos + |line.space|, found, numTags, EntryOf(line, pos), e, pos + Length(line));
  }

  lemma ParseLine(line: Line, text: string, pos: nat, found: seq<Entry>, numTags: nat)
    requires Taken(line) && LineAt(line, text, pos)
    ensures ParseFrom(text, pos, true, found, numTags)
      == if line.Tag? && |found| >= numTags then Failed
         else ParseFrom(text, pos + Length(line) + 1, true, found + Own(line, pos), numTags)
  {
    SpaceAt(line, text, pos);
    ParseBlanks(text, pos, pos + |line.space|, found, numTags);
    if line.Tag? {
      ParseTagLine(line, text, pos, found, numTags);
    } else {
      assert found + [] == found;
      if line.Comment? {
        ParseCommentLine(line, text, pos, found, numTags);
      }
    }
  }

  lemma {:induction false} ParseLines(lines: Lines, text: string, pos: nat, found: seq<Entry>, numTags: nat)
    requires LaidOut(lines, text, pos)
    ensures ParseFrom(text, pos, true, found, numTags)
      == if |found| + |Described(lines, pos)| == numTags then Parsed(found + Described(lines, pos)) else Failed
    decreases lines
  {
    match lines
    case End =>
      assert found + [] == found;
    case More(line, rest) =>
      var next := pos + Length(line) + 1;
      ParseLine(line, text, pos, found, numTags);
      ParseLines(rest, text, next, found + Own(line, pos), numTags);
      assert (found + Own(line, pos)) + Described(rest, next) == found + (Own(line, pos) + Described(rest, next));
  }

  lemma {:induction false} EndsInLineEnd(lines: Lines, text: string, pos: nat)
    requires lines.More? && LaidOut(lines, text, pos)
    ensures text != "" && text[|text| - 1] == '\n'
    decreases lines
  {
    if lines.rest.More? {
      EndsInLineEnd(lines.rest, text, pos + Length(lines.line) + 1);
    }
  }

  /** The careful pass on a file laid out in such lines: it yields their entries, unless the loose pass counted more. */
  lemma ParseLaidOut(lines: Lines, text: string)
    requires lines.More? && LaidOut(lines, text, 0)
    ensures Parse(text) == if Swallowed(lines) == 0 then Parsed(Described(lines, 0)) else Failed
  {
    EndsInLineEnd(lines, text, 0);
    CountIsDescribed(lines, text, 0);
    ParseLines(lines, text, 0, [], CountFrom(text, 0, true));
    assert [] + Described(lines, 0) == Described(lines, 0);
  }

  // ---------- every accepted file

  /** The first line of what the careful pass goes through. */
  lemma FirstLine(text: string, pos: nat, found: seq<Entry>, numTags: nat) returns (line: Line)
    requires pos < |text| && text[|text| - 1] == '\n' && ParseFrom(text, pos, true, found, numTags).Parsed?
    ensures Taken(line) && LineAt(line, text, pos)
  {
    var p := GapEnd(text, pos);
    assert p < |text|;
    ParseBlanks(text, pos, p, found, numTags);
    if text[p] == '\n' {
      line := Blank(text[pos..p]);
    } else if text[p] == '#' {
      var end := LineEnd(text, p);
      line := Comment(text[pos..p], text[p..end]);
    } else {
      var r := ScanTagLine(text, p);
      ScanTakes(text, p);
      line := TagLineOf(text, pos, p, DigitsEnd(text, p + 1), r.tag.tagStr, r.nameEnd, r.last);
    }
  }

  lemma {:induction false} LayOut(text: string, pos: nat, found: seq<Entry>, numTags: nat) returns (lines: Lines)
    requires pos <= |text| && text != "" && text[|text| - 1] == '\n'
    requires ParseFrom(text, pos, true, found, numTags).Parsed?
    ensures LaidOut(lines, text, pos) && (pos < |text| ==> lines.More?)
    decreases |text| - pos
  {
    if pos == |text| {
      lines := End;
    } else {
      var line := FirstLine(text, pos, found, numTags);
      ParseLine(line, text, pos, found, numTags);
      var rest := LayOut(text, pos + Length(line) + 1, found + Own(line, pos), numTags);
      lines := More(line, rest);
    }
  }

  /** The text is laid out in lines that the scan takes, with these entries, and no number has swallowed a line end
      before a digit. */
  ghost predicate Accepts(lines: Lines, text: string, entries: seq<Entry>) {
    lines.More? && LaidOut(lines, text, 0) && Swallowed(lines) == 0 && entries == Described(lines, 0)
  }

  /** Exactly when a text is accepted, for every text, and with which entries. */
  lemma ParseExactly(text: string, entries: seq<Entry>)
    ensures Parse(text) == Parsed(entries) <==> exists lines: Lines :: Accepts(lines, text, entries)
  {
    if Parse(text) == Parsed(entries) {
      var lines := LayOut(text, 0, [], CountFrom(text, 0, true));
      ParseLaidOut(lines, text);
      assert Accepts(lines, text, entries);
    }
    if lines: Lines :| Accepts(lines, text, entries) {
      ParseLaidOut(lines, text);
    }
  }

  // ---------- well-formed files, and others

  lemma {:induction false} NoneSwallowed(lines: Lines)
    requires AllWellFormed(lines)
    ensures Swallowed(lines) == 0
    decreases lines
  {
    if lines.More? {
      NoneSwallowed(lines.rest);
    }
  }

  /** Every well-formed file with at least one line is accepted, with each tag line's number and name, in order, and
      the loose pass counted exactly these. */
  lemma ParseIsDescribed(lines: Lines, text: string)
    requires lines.More? && LaidOut(lines, text, 0) && AllWellFormed(lines)
    ensures Parse(text) == Parsed(Described(lines, 0))
    ensures CountFrom(text, 0, true) == |Described(lines, 0)|
  {
    NoneSwallowed(lines);
    ParseLaidOut(lines, text);
    CountIsDescribed(lines, text, 0);
  }

  /** A number that ends its line takes the line behind it for its name: between well-formed lines such a pair is
      accepted exactly when the second line does not begin with a digit. */
  lemma NumberAloneTakesNextLine(before: Lines, line: Line, after: Lines, lines: Lines, text: string)
    requires lines == Append(before, More(line, after)) && LaidOut(lines, text, 0)
    requires AllWellFormed(before) && AllWellFormed(after) && line.Tag? && line.after == '\n'
    ensures Parse(text).Parsed? <==> !IsDigit(line.first)
    ensures Parse(text).Parsed? ==> Parse(text) == Parsed(Described(lines, 0))
  {
    NoneSwallowed(before);
    NoneSwallowed(after);
    SwallowedAppend(before, More(line, after));
    ParseLaidOut(lines, text);
  }

  function Append(first: Lines, second: Lines): Lines {
    if first.End? then second else More(first.line, Append(first.rest, second))
  }

  lemma {:induction false} SwallowedAppend(first: Lines, second: Lines)
    ensures Swallowed(Append(first, second)) == Swallowed(first) + Swallowed(second)
    decreases first
  {
    if first.More? {
      SwallowedAppend(first.rest, second);
    }
  }

  lemma OneTagFile(line: Line, text: string, entry: Entry)
    requires line.Tag? && Taken(line) && LineAt(line, text, 0) && Length(line) + 1 == |text|
    requires EntryOf(line, 0) == entry
    ensures Parse(text) == if SwallowsNumber(line) then Failed else Parsed([entry])
  {
    var lines := More(line, End);
    assert Described(lines, 0) == [entry] + [];
    ParseLaidOut(lines, text);
  }

  /** The byte behind the number is lost, whatever it is. */
  lemma LetterBehindNumber()
    ensures Parse("12abc\n") == Parsed([Entry(EventTag(12, 3), "bc")])
  {
    assert NumberIn("12", 0, 1) == 1;
    OneTagFile(Tag("", "12", 'a', "", 'b', "c", ""), "12abc\n", Entry(EventTag(12, 3), "bc"));
  }

  /** A number alone takes the next line for its name, but the count refuses a second number there. */
  lemma NumberAlone()
    ensures Parse("1\nab\n") == Parsed([Entry(EventTag(1, 2), "ab")])
    ensures Parse("1\n2\n").Failed?
  {
    OneTagFile(Tag("", "1", '\n', "", 'a', "b", ""), "1\nab\n", Entry(EventTag(1, 2), "ab"));
    OneTagFile(Tag("", "1", '\n', "", '2', "", ""), "1\n2\n", Entry(EventTag(1, 2), "2"));
  }

  // ---------- the sorted array

  ghost predicate Increasing(tags: seq<EventTag>) {
    forall i, j :: 0 <= i < j < |tags| ==> tags[i].tagIndex < tags[j].tagIndex
  }

  ghost predicate NonDecreasing(tags: seq<EventTag>) {
    forall i, j :: 0 <= i < j < |tags| ==> tags[i].tagIndex <= tags[j].tagIndex
  }

  /** Numbers below 2^31, for which the differences taken by the comparisons have the right sign. */
  predicate Small(tags: seq<EventTag>) {
    forall i :: 0 <= i < |tags| ==> tags[i].tagIndex < 0x8000_0000
  }

  ghost predicate Twice(tags: seq<EventTag>) {
    exists i, j :: 0 <= i < j < |tags| && tags[i].tagIndex == tags[j].tagIndex
  }

  lemma FindInPermutation(s: seq<EventTag>, t: seq<EventTag>, a: EventTag) returns (i: nat)
    requires multiset(s) == multiset(t) && a in t
    ensures i < |s| && s[i] == a
  {
    assert a in multiset(s);
    i :| i < |s| && s[i] == a;
  }

  /** Two places of one arrangement have two places in any other. */
  lemma TwoPlaces(s: seq<EventTag>, t: seq<EventTag>, i: nat, j: nat) returns (a: nat, b: nat)
    requires multiset(s) == multiset(t) && i < j < |t|
    ensures a < |s| && b < |s| && a != b && s[a] == t[i] && s[b] == t[j]
  {
    a := FindInPermutation(s, t, t[i]);
    WithoutPlace(s, a);
    WithoutPlace(t, i);
    var s', t' := s[..a] + s[a + 1..], t[..i] + t[i + 1..];
    assert t'[j - 1] == t[j];
    var k := FindInPermutation(s', t', t[j]);
    b := if k < a then k else k + 1;
  }

  lemma WithoutPlace(s: seq<EventTag>, i: nat)
    requires i < |s|
    ensures multiset(s[..i] + s[i + 1..]) == multiset(s) - multiset{s[i]}
  {
    assert s == s[..i] + [s[i]] + s[i + 1..];
  }

  lemma TwiceInPermutation(s: seq<EventTag>, t: seq<EventTag>)
    requires multiset(s) == multiset(t) && Twice(t)
    ensures Twice(s)
  {
    var i, j :| 0 <= i < j < |t| && t[i].tagIndex == t[j].tagIndex;
    var a, b := TwoPlaces(s, t, i, j);
    if a < b {
      assert s[a].tagIndex == s[b].tagIndex;
    } else {
      assert s[b].tagIndex == s[a].tagIndex;
    }
  }

  // ---------- looking a tag up

  /** The difference of an unsigned number and an int, as an int. */
  function Difference(tagIndex: nat, tag: int): int {
    var d := (tagIndex - tag) % 0x1_0000_0000;
    if d < 0x8000_0000 then d else d - 0x1_0000_0000
  }

  lemma DifferenceSign(tagIndex: nat, tag: int)
    requires tagIndex < 0x8000_0000 && -0x8000_0000 <= tag < 0x8000_0000
    ensures Difference(tagIndex, tag) == 0 <==> tagIndex == tag
    ensures tag >= 0 ==> (Difference(tagIndex, tag) < 0 <==> tagIndex < tag)
  {
  }

  /** What a lookup in the finished map answers. */
  ghost predicate Answers(tags: seq<EventTag>, tag: int, r: Option<nat>) {
    && (r.Some? ==> tag >= 0 && exists i :: 0 <= i < |tags| && tags[i] == EventTag(tag, r.value))
    && (r.None? ==> forall i :: 0 <= i < |tags| ==> tags[i].tagIndex != tag)
  }

  /** Where in the file the name of a tag is, if the array has the tag. A negative query finds nothing. */
  method LookupEventTag(tags: seq<EventTag>, tag: int) returns (r: Option<nat>)
    requires Increasing(tags) && Small(tags) && -0x8000_0000 <= tag < 0x8000_0000
    ensures Answers(tags, tag, r)
  {
    var lo, hi := 0, |tags| - 1;
    while lo <= hi
      invariant 0 <= lo <= hi + 1 <= |tags|
      invariant tag >= 0 ==> forall i :: 0 <= i < lo || hi < i < |tags| ==> tags[i].tagIndex != tag
    {
      var mid := (lo + hi) / 2;
      var cmp := Difference(tags[mid].tagIndex, tag);
      DifferenceSign(tags[mid].tagIndex, tag);
      if cmp < 0 {
        lo := mid + 1;
      } else if cmp > 0 {
        hi := mid - 1;
      } else {
        return Some(tags[mid].tagStr);
      }
    }
    r := None;
  }

  function Tags(entries: seq<Entry>): (r: seq<EventTag>)
    ensures |r| == |entries| && forall i :: 0 <= i < |r| ==> r[i] == entries[i].tag
  {
    seq(|entries|, i requires 0 <= i < |entries| => entries[i].tag)
  }

  /** In the map made from a list of entries, a lookup finds the place of an entry's name exactly when one carries the
      number asked for. */
  lemma LookupFindsEntry(entries: seq<Entry>, sorted: seq<EventTag>, tag: int, r: Option<nat>)
    requires multiset(sorted) == multiset(Tags(entries)) && Answers(sorted, tag, r)
    ensures r.Some? <==> exists i :: 0 <= i < |entries| && entries[i].tag.tagIndex == tag
    ensures r.Some? ==> tag >= 0 && exists i :: 0 <= i < |entries| && entries[i].tag == EventTag(tag, r.value)
  {
    var tags := Tags(entries);
    if r.Some? {
      var i :| 0 <= i < |sorted| && sorted[i] == EventTag(tag, r.value);
      assert sorted[i] in multiset(tags);
      var k := FindInPermutation(tags, sorted, sorted[i]);
      assert entries[k].tag == EventTag(tag, r.value);
    } else if i :| 0 <= i < |entries| && entries[i].tag.tagIndex == tag {
      assert tags[i] in tags;
      var k := FindInPermutation(sorted, tags, tags[i]);
      assert false;
    }
  }

  /** The lines name a tag: one of them carries the number and this name. */
  ghost predicate Names(lines: Lines, tag: int, name: string) {
    lines.More? &&
    (|| (lines.line.Tag? && NumberIn(lines.line.digits, 0, |lines.line.digits|) == tag
         && name == [lines.line.first] + lines.line.name)
     || Names(lines.rest, tag, name))
  }

  ghost predicate HasTag(lines: Lines, tag: int) {
    lines.More? &&
    (|| (lines.line.Tag? && NumberIn(lines.line.digits, 0, |lines.line.digits|) == tag)
     || HasTag(lines.rest, tag))
  }

  /** No two lines carry the same number. */
  ghost predicate AllDifferent(lines: Lines) {
    lines.More? ==>
      && (lines.line.Tag? ==> !HasTag(lines.rest, NumberIn(lines.line.digits, 0, |lines.line.digits|)))
      && AllDifferent(lines.rest)
  }

  lemma {:induction false} EntriesOfLines(lines: Lines, pos: nat, i: nat)
    requires AllWellFormed(lines) && i < |Described(lines, pos)|
    ensures var e := Described(lines, pos)[i];
      && e.tag.tagIndex < 0x8000_0000 && Names(lines, e.tag.tagIndex, e.name) && HasTag(lines, e.tag.tagIndex)
      && e.name != "" && forall k :: 0 <= k < |e.name| ==> IsValidTag(e.name[k])
    decreases lines
  {
    var own := Own(lines.line, pos);
    if i >= |own| {
      EntriesOfLines(lines.rest, pos + Length(lines.line) + 1, i - |own|);
    }
  }

  lemma {:induction false} LineHasEntry(lines: Lines, pos: nat, tag: int) returns (i: nat)
    requires AllWellFormed(lines) && HasTag(lines, tag)
    ensures i < |Described(lines, pos)| && Described(lines, pos)[i].tag.tagIndex == tag
    decreases lines
  {
    if lines.line.Tag? && NumberIn(lines.line.digits, 0, |lines.line.digits|) == tag {
      i := 0;
    } else {
      i := LineHasEntry(lines.rest, pos + Length(lines.line) + 1, tag);
      i := i + |Own(lines.line, pos)|;
    }
  }

  ghost predicate Occurs(number: nat, tags: seq<EventTag>) {
    exists i :: 0 <= i < |tags| && tags[i].tagIndex == number
  }

  lemma TwiceBehind(e: EventTag, tags: seq<EventTag>)
    requires Twice(tags) || Occurs(e.tagIndex, tags)
    ensures Twice([e] + tags)
  {
    var all := [e] + tags;
    if i: nat, j: nat :| i < j < |tags| && tags[i].tagIndex == tags[j].tagIndex {
      assert all[i + 1].tagIndex == all[j + 1].tagIndex;
    } else {
      var i: nat :| i < |tags| && tags[i].tagIndex == e.tagIndex;
      assert all[0].tagIndex == all[i + 1].tagIndex;
    }
  }

  lemma TwiceWith(e: EventTag, tags: seq<EventTag>)
    requires Twice([e] + tags)
    ensures Twice(tags) || Occurs(e.tagIndex, tags)
  {
    var all := [e] + tags;
    var i: nat, j: nat :| i < j < |all| && all[i].tagIndex == all[j].tagIndex;
    assert all[j] == tags[j - 1];
    if i > 0 {
      assert all[i] == tags[i - 1];
    }
  }

  lemma TwiceExactly(e: EventTag, tags: seq<EventTag>)
    ensures Twice([e] + tags) <==> Twice(tags) || Occurs(e.tagIndex, tags)
  {
    if Twice([e] + tags) {
      TwiceWith(e, tags);
    } else if Twice(tags) || Occurs(e.tagIndex, tags) {
      TwiceBehind(e, tags);
    }
  }

  lemma TagOccurs(lines: Lines, pos: nat, tag: nat)
    requires AllWellFormed(lines)
    ensures HasTag(lines, tag) <==> Occurs(tag, Tags(Described(lines, pos)))
  {
    if HasTag(lines, tag) {
      var i := LineHasEntry(lines, pos, tag);
      assert Tags(Described(lines, pos))[i].tagIndex == tag;
    }
    if Occurs(tag, Tags(Described(lines, pos))) {
      var i: nat :| i < |Described(lines, pos)| && Tags(Described(lines, pos))[i].tagIndex == tag;
      EntriesOfLines(lines, pos, i);
    }
  }

  lemma TagsCons(e: Entry, more: seq<Entry>)
    ensures Tags([e] + more) == [e.tag] + Tags(more)
  {
  }

  /** Two entries of the same number are two lines of the same number. */
  lemma {:induction false} DifferentEntries(lines: Lines, pos: nat)
    requires AllWellFormed(lines)
    ensures AllDifferent(lines) <==> !Twice(Tags(Described(lines, pos)))
    decreases lines
  {
    if lines.More? {
      var next := pos + Length(lines.line) + 1;
      var more := Described(lines.rest, next);
      DifferentEntries(lines.rest, next);
      if lines.line.Tag? {
        var e := EntryOf(lines.line, pos);
        TagOccurs(lines.rest, next, e.tag.tagIndex);
        TagsCons(e, more);
        TwiceExactly(e.tag, Tags(more));
      } else {
        assert Described(lines, pos) == more;
      }
    }
  }

  /** The name that a reader of the text finds at a tag's pointer, ended by a NUL before position p. */
  ghost predicate Named(text: seq<char>, e: Entry, p: nat) {
    var end := e.tag.tagStr + |e.name|;
    && end < p <= |text| && text[end] == NUL
    && forall k :: 0 <= k < |e.name| ==> text[e.tag.tagStr + k] == e.name[k]
  }

  /** The C string at a position: everything up to the first NUL. */
  function CString(text: seq<char>, pos: nat): string
    decreases |text| - pos
  {
    if pos >= |text| || text[pos] == NUL then "" else [text[pos]] + CString(text, pos + 1)
  }

  lemma {:induction false} CStringIs(text: seq<char>, pos: nat, name: string)
    requires pos + |name| < |text| && text[pos + |name|] == NUL
    requires forall k :: 0 <= k < |name| ==> text[pos + k] == name[k] && IsValidTag(name[k])
    ensures CString(text, pos) == name
    decreases |name|
  {
    if name != "" {
      assert text[pos + 0] == name[0];
      forall k | 0 <= k < |name[1..]|
        ensures text[pos + 1 + k] == name[1..][k] && IsValidTag(name[1..][k])
      {
        assert text[pos + (k + 1)] == name[k + 1];
      }
      CStringIs(text, pos + 1, name[1..]);
    }
  }

  lemma NameReadBack(lines: Lines, text: seq<char>, i: nat)
    requires AllWellFormed(lines) && i < |Described(lines, 0)|
    requires Named(text, Described(lines, 0)[i], |text|)
    ensures var tag := Described(lines, 0)[i].tag;
      HasTag(lines, tag.tagIndex) && Names(lines, tag.tagIndex, CString(text, tag.tagStr))
  {
    var e := Described(lines, 0)[i];
    EntriesOfLines(lines, 0, i);
    CStringIs(text, e.tag.tagStr, e.name);
  }

  /** From the file to the name: once the tags of a well-formed file are sorted and the names ended by NULs, a lookup
      answers exactly the tags that a line of the file carries, and the C string at its answer is that line's name. */
  lemma LookupFindsName(lines: Lines, text: seq<char>, sorted: seq<EventTag>, tag: int, r: Option<nat>)
    requires AllWellFormed(lines)
    requires multiset(sorted) == multiset(Tags(Described(lines, 0))) && Answers(sorted, tag, r)
    requires forall i :: 0 <= i < |Described(lines, 0)| ==> Named(text, Described(lines, 0)[i], |text|)
    ensures r.Some? <==> HasTag(lines, tag)
    ensures r.Some? ==> Names(lines, tag, CString(text, r.value))
  {
    var es := Described(lines, 0);
    LookupFindsEntry(es, sorted, tag, r);
    if r.Some? {
      var i: nat :| i < |es| && es[i].tag == EventTag(tag, r.value);
      NameReadBack(lines, text, i);
    } else if HasTag(lines, tag) {
      var i := LineHasEntry(lines, 0, tag);
      assert false;
    }
  }

  // ---------- the program: the file is parsed where it is mapped

  lemma {:induction false} NumberAgrees(s: string, t: string, p: nat, q: nat)
    requires q <= |s| && q <= |t| && forall k :: p <= k < q ==> s[k] == t[k]
    ensures NumberIn(s, p, q) == NumberIn(t, p, q)
    decreases q
  {
    if q > p {
      NumberAgrees(s, t, p, q - 1);
    }
  }

  /** From position p on the mapped text is still as it was in the file. */
  ghost predicate Untouched(text: seq<char>, file: string, p: nat) {
    |text| == |file| && forall k :: p <= k < |file| ==> text[k] == file[k]
  }

  method SkipDigits(text: array<char>, from: nat, ghost file: string) returns (cp: nat)
    requires from <= text.Length && Untouched(text[..], file, from)
    ensures cp == DigitsEnd(file, from)
  {
    cp := from;
    while cp < text.Length && IsDigit(text[cp])
      invariant from <= cp <= text.Length && DigitsEnd(file, cp) == DigitsEnd(file, from)
    {
      assert text[..][cp] == file[cp];
      cp := cp + 1;
    }
    assert cp < text.Length ==> text[..][cp] == file[cp];
  }

  method SkipGap(text: array<char>, from: nat, ghost file: string) returns (cp: nat)
    requires from <= text.Length && Untouched(text[..], file, from)
    ensures cp == GapEnd(file, from)
  {
    cp := from;
    while cp < text.Length && text[cp] != '\n' && IsWhitespace(text[cp])
      invariant from <= cp <= text.Length && GapEnd(file, cp) == GapEnd(file, from)
    {
      assert text[..][cp] == file[cp];
      cp := cp + 1;
    }
    assert cp < text.Length ==> text[..][cp] == file[cp];
  }

  method SkipName(text: array<char>, from: nat, ghost file: string) returns (cp: nat)
    requires from <= text.Length && Untouched(text[..], file, from)
    ensures cp == NameEnd(file, from)
  {
    cp := from;
    while cp < text.Length && IsValidTag(text[cp])
      invariant from <= cp <= text.Length && NameEnd(file, cp) == NameEnd(file, from)
    {
      assert text[..][cp] == file[cp];
      cp := cp + 1;
    }
    assert cp < text.Length ==> text[..][cp] == file[cp];
  }

  method SkipLine(text: array<char>, from: nat, ghost file: string) returns (cp: nat)
    requires from <= text.Length && Untouched(text[..], file, from)
    ensures cp == LineEnd(file, from)
  {
    cp := from;
    while cp < text.Length && text[cp] != '\n'
      invariant from <= cp <= text.Length && LineEnd(file, cp) == LineEnd(file, from)
    {
      assert text[..][cp] == file[cp];
      cp := cp + 1;
    }
    assert cp < text.Length ==> text[..][cp] == file[cp];
  }

  /** The part of scanTagLine from the end of the name on: the name is ended by a NUL. */
  method EndName(text: array<char>, tag: EventTag, e: nat, ghost file: string) returns (r: Scan)
    requires e <= text.Length && Untouched(text[..], file, e)
    modifies text
    ensures r == AfterName(file, tag, e)
    ensures forall k :: 0 <= k < text.Length && k != e ==> text[k] == old(text[k])
    ensures r.Scanned? ==> e < text.Length && text[e] == NUL
  {
    if e == text.Length {
      return Outside;
    }
    assert text[..][e] == file[e];
    if text[e] == '\n' {
      text[e] := NUL;
      return Scanned(tag, e, e);
    }
    if !IsWhitespace(text[e]) {
      return Refused;
    }
    text[e] := NUL;
    assert Untouched(text[..], file, e + 1);
    var last := SkipLine(text, e + 1, file);
    r := if last == text.Length then Outside else Scanned(tag, e, last);
  }

  /** The part of scanTagLine up to the end of the number: the byte behind it becomes NUL. */
  method TakeNumber(text: array<char>, p: nat, ghost file: string) returns (q: nat, number: nat)
    requires p < text.Length && Untouched(text[..], file, p)
    modifies text
    ensures q == DigitsEnd(file, p + 1) <= text.Length
    ensures q < text.Length ==> number == TagNumber(file, p, q) && Untouched(text[..], file, q + 1)
    ensures forall k :: 0 <= k < p ==> text[k] == old(text[k])
  {
    number := 0;
    q := SkipDigits(text, p + 1, file);
    if q < text.Length {
      text[q] := NUL;
      NumberAgrees(text[..], file, p, q);
      number := TagNumber(text[..], p, q);
    }
  }

  lemma NameUntouched(was: seq<char>, now: seq<char>, file: string, tag: EventTag, e: nat, last: nat)
    requires tag.tagStr < e <= last < |now| == |was| && Untouched(was, file, tag.tagStr) && now[e] == NUL
    requires forall k :: 0 <= k < |now| && k != e ==> now[k] == was[k]
    ensures Named(now, Entry(tag, file[tag.tagStr..e]), last + 1) && Untouched(now, file, last + 1)
  {
    var name := file[tag.tagStr..e];
    forall k | 0 <= k < |name|
      ensures now[tag.tagStr + k] == name[k]
    {
      assert was[tag.tagStr + k] == file[tag.tagStr + k];
    }
  }

  /** The part of scanTagLine from the first byte of the name on. */
  method TakeName(text: array<char>, number: nat, start: nat, ghost file: string) returns (r: Scan)
    requires start < text.Length && Untouched(text[..], file, start)
    modifies text
    ensures r == AfterName(file, EventTag(number, start), NameEnd(file, start + 1))
    ensures forall k :: 0 <= k < start ==> text[k] == old(text[k])
    ensures r.Scanned? ==> Untouched(text[..], file, r.last + 1)
    ensures r.Scanned? ==> Named(text[..], Entry(r.tag, file[r.tag.tagStr..r.nameEnd]), r.last + 1)
  {
    ghost var was := text[..];
    var e := SkipName(text, start + 1, file);
    r := EndName(text, EventTag(number, start), e, file);
    if r.Scanned? {
      NameUntouched(was, text[..], file, r.tag, e, r.last);
    }
  }

  /** scanTagLine: two bytes of the line become NUL, the rest of the file stays. */
  method ScanInPlace(text: array<char>, p: nat, ghost file: string) returns (r: Scan)
    requires p < text.Length && Untouched(text[..], file, p)
    modifies text
    ensures r == ScanTagLine(file, p)
    ensures forall k :: 0 <= k < p ==> text[k] == old(text[k])
    ensures r.Scanned? ==> Untouched(text[..], file, r.last + 1)
    ensures r.Scanned? ==> Named(text[..], Entry(r.tag, file[r.tag.tagStr..r.nameEnd]), r.last + 1)
  {
    var q, number := TakeNumber(text, p, file);
    if q == text.Length {
      return Outside;
    }
    var start := SkipGap(text, q + 1, file);
    if start == text.Length {
      return Outside;
    }
    assert text[..][start] == file[start];
    if text[start] == '\n' {
      return Refused;
    }
    r := TakeName(text, number, start, file);
  }

  /** What has been parsed when the careful pass stands at cp. */
  ghost predicate Progress(file: string, text: seq<char>, cp: nat, found: seq<Entry>) {
    && Untouched(text, file, cp) && cp <= |file|
    && forall i :: 0 <= i < |found| ==> Named(text, found[i], cp)
  }

  lemma ProgressKept(file: string, was: seq<char>, now: seq<char>, cp: nat, next: nat, found: seq<Entry>)
    requires Progress(file, was, cp, found) && cp <= next <= |file| && Untouched(now, file, next)
    requires forall k :: 0 <= k < cp ==> now[k] == was[k]
    ensures Progress(file, now, next, found)
  {
  }

  /** The careful pass has its tags so far and stands at cp; from here on it comes to the result that is the goal. */
  ghost predicate Parsing(file: string, text: seq<char>, cp: nat, lineStart: bool, tags: seq<EventTag>,
                          found: seq<Entry>, numTags: nat, goal: Parsed) {
    && Progress(file, text, cp, found) && tags == Tags(found)
    && ParseFrom(file, cp, lineStart, found, numTags) == goal
  }

  /** One tag line of the careful pass. */
  method ParseTag(text: array<char>, cp: nat, tags: seq<EventTag>, numTags: nat, ghost file: string,
                  ghost found: seq<Entry>, ghost goal: Parsed)
    returns (r: Option<nat>, more: seq<EventTag>, ghost now: seq<Entry>)
    requires cp < text.Length && IsDigit(text[cp])
    requires Parsing(file, text[..], cp, true, tags, found, numTags, goal)
    modifies text
    ensures r.None? ==> goal == Failed
    ensures r.Some? ==> cp < r.value < text.Length
    ensures r.Some? ==> Parsing(file, text[..], r.value + 1, true, more, now, numTags, goal)
  {
    assert text[..][cp] == file[cp];
    more, now := tags, found;
    if |tags| >= numTags {
      return None, tags, found;
    }
    ghost var was := text[..];
    var scan := ScanInPlace(text, cp, file);
    if !scan.Scanned? {
      return None, tags, found;
    }
    ghost var entry := Entry(scan.tag, file[scan.tag.tagStr..scan.nameEnd]);
    ProgressKept(file, was, text[..], cp, scan.last + 1, found);
    ParseTagStep(file, cp, found, numTags, entry, scan.nameEnd, scan.last);
    r, more, now := Some(scan.last), tags + [scan.tag], found + [entry];
  }

  /** A turn of the careful pass that takes no tag. */
  lemma ParseOther(file: string, text: seq<char>, cp: nat, lineStart: bool, tags: seq<EventTag>, found: seq<Entry>,
                   numTags: nat, goal: Parsed)
    requires cp < |file| && Parsing(file, text, cp, lineStart, tags, found, numTags, goal)
    ensures text[cp] == file[cp]
    ensures text[cp] == '\n' ==> Parsing(file, text, cp + 1, true, tags, found, numTags, goal)
    ensures text[cp] != '\n' && !lineStart ==> Parsing(file, text, cp + 1, false, tags, found, numTags, goal)
    ensures lineStart && text[cp] == '#' ==> Parsing(file, text, cp + 1, false, tags, found, numTags, goal)
    ensures lineStart && text[cp] != '#' && !IsDigit(text[cp]) ==>
      if IsWhitespace(text[cp]) then Parsing(file, text, cp + 1, true, tags, found, numTags, goal) else goal == Failed
  {
  }

  /** parseMapLines: the tags in the order of the file, and their names readable where the tags point. */
  method ParseMapLines(text: array<char>, numTags: nat, ghost file: string)
    returns (ok: bool, tags: seq<EventTag>, ghost found: seq<Entry>)
    requires text[..] == file && numTags == CountFrom(file, 0, true)
    modifies text
    ensures Parse(file) == if ok then Parsed(found) else Failed
    ensures ok ==> tags == Tags(found) && forall i :: 0 <= i < |found| ==> Named(text[..], found[i], text.Length)
  {
    tags, found := [], [];
    if text.Length == 0 || text[text.Length - 1] != '\n' {
      return false, [], [];
    }
    var cp, lineStart := 0, true;
    ghost var goal := Parse(file);
    while cp < text.Length
      invariant cp <= text.Length && Parsing(file, text[..], cp, lineStart, tags, found, numTags, goal)
    {
      ParseOther(file, text[..], cp, lineStart, tags, found, numTags, goal);
      if text[cp] == '\n' {
        lineStart := true;
      } else if lineStart {
        if text[cp] == '#' {
          lineStart := false;
        } else if IsDigit(text[cp]) {
          var last: Option<nat>;
          last, tags, found := ParseTag(text, cp, tags, numTags, file, found, goal);
          if last.None? {
            return false, [], [];
          }
          cp := last.value;
        } else if !IsWhitespace(text[cp]) {
          return false, [], [];
        }
      }
      cp := cp + 1;
    }
    ok := |tags| == numTags;
  }

  /** sortTags, given what qsort makes of the array: on a sorted array it fails exactly when two tags have the same
      number. */
  method SortTags(tags: seq<EventTag>, sorted: seq<EventTag>) returns (ok: bool)
    requires multiset(sorted) == multiset(tags)
    ensures ok <==> forall i :: 0 < i < |sorted| ==> sorted[i].tagIndex != sorted[i - 1].tagIndex
    ensures NonDecreasing(sorted) ==> (ok <==> !Twice(tags)) && (ok ==> Increasing(sorted))
  {
    var i := 1;
    while i < |sorted|
      invariant 1 <= i && (i <= |sorted| || |sorted| == 0)
      invariant forall k :: 0 < k < i && k < |sorted| ==> sorted[k].tagIndex != sorted[k - 1].tagIndex
    {
      if sorted[i].tagIndex == sorted[i - 1].tagIndex {
        assert Twice(sorted);
        TwiceInPermutation(tags, sorted);
        return false;
      }
      i := i + 1;
    }
    ok := true;
    if NonDecreasing(sorted) {
      NeighboursDiffer(sorted);
      if Twice(tags) {
        TwiceInPermutation(sorted, tags);
        assert false;
      }
    }
  }

  lemma NeighboursDiffer(sorted: seq<EventTag>)
    requires NonDecreasing(sorted)
    requires forall i :: 0 < i < |sorted| ==> sorted[i].tagIndex != sorted[i - 1].tagIndex
    ensures Increasing(sorted)
  {
    forall i, j | 0 <= i < j < |sorted|
      ensures sorted[i].tagIndex < sorted[j].tagIndex
    {
      assert sorted[j - 1].tagIndex < sorted[j].tagIndex;
    }
  }

  /** qsort rearranges the array, and sorts it when the differences that the comparison takes have the right sign. */
  ghost predicate Sorts(qsort: seq<EventTag> -> seq<EventTag>) {
    forall s :: multiset(qsort(s)) == multiset(s) && (Small(s) ==> NonDecreasing(qsort(s)))
  }

  /** The map: the file's private mapping, and the sorted array of tags. */
  class Map {
    const mapAddr: array<char>
    var tagArray: seq<EventTag>

    constructor (mapAddr: array<char>)
      ensures this.mapAddr == mapAddr && tagArray == []
    {
      this.mapAddr, tagArray := mapAddr, [];
    }

    /** processFile: fails when the file does not parse, or the sorted array shows the same number twice. Otherwise the
        array holds the tags of the file, and their names can be read in the mapping. */
    method ProcessFile(qsort: seq<EventTag> -> seq<EventTag>) returns (ok: bool, ghost found: seq<Entry>)
      requires Sorts(qsort)
      modifies this, mapAddr
      ensures Parse(old(mapAddr[..])).Failed? ==> !ok
      ensures Parse(old(mapAddr[..])).Parsed? ==>
        && Parse(old(mapAddr[..])) == Parsed(found)
        && multiset(tagArray) == multiset(Tags(found))
        && (forall i :: 0 <= i < |found| ==> Named(mapAddr[..], found[i], mapAddr.Length))
        && (Small(Tags(found)) ==> (ok <==> !Twice(Tags(found))) && (ok ==> Increasing(tagArray)))
    {
      ghost var file := mapAddr[..];
      var numTags := CountMapLines(mapAddr[..]);
      var tags;
      ok, tags, found := ParseMapLines(mapAddr, numTags, file);
      if !ok {
        return;
      }
      tagArray := qsort(tags);
      ok := SortTags(tags, tagArray);
    }

    /** android_lookupEventTag: a pointer into the mapping. */
    method Lookup(tag: int) returns (r: Option<nat>)
      requires Increasing(tagArray) && Small(tagArray) && -0x8000_0000 <= tag < 0x8000_0000
      ensures Answers(tagArray, tag, r)
    {
      r := LookupEventTag(tagArray, tag);
    }
  }

  /** android_openEventTagMap on a well-formed file, then a lookup: the map is made exactly when no two lines carry the
      same number, and the name read at the answer is that of the line with the number, if there is one. */
  method OpenAndLookup(mapAddr: array<char>, qsort: seq<EventTag> -> seq<EventTag>, tag: int, ghost lines: Lines)
    returns (isOpen: bool, r: Option<nat>)
    requires lines.More? && LaidOut(lines, mapAddr[..], 0) && AllWellFormed(lines) && Sorts(qsort)
    requires -0x8000_0000 <= tag < 0x8000_0000
    modifies mapAddr
    ensures isOpen <==> AllDifferent(lines)
    ensures isOpen ==> (r.Some? <==> HasTag(lines, tag))
    ensures isOpen && r.Some? ==> Names(lines, tag, CString(mapAddr[..], r.value))
  {
    ParseIsDescribed(lines, mapAddr[..]);
    DifferentEntries(lines, 0);
    var map' := new Map(mapAddr);
    ghost var found;
    isOpen, found := map'.ProcessFile(qsort);
    SmallTags(lines, map'.tagArray);
    r := None;
    if isOpen {
      r := map'.Lookup(tag);
      LookupFindsName(lines, mapAddr[..], map'.tagArray, tag, r);
    }
  }

  lemma SmallTags(lines: Lines, sorted: seq<EventTag>)
    requires AllWellFormed(lines)
    ensures Small(Tags(Described(lines, 0)))
    ensures multiset(sorted) == multiset(Tags(Described(lines, 0))) ==> Small(sorted)
  {
    var es := Described(lines, 0);
    forall i: nat | i < |es|
      ensures es[i].tag.tagIndex < 0x8000_0000
    {
      EntriesOfLines(lines, 0, i);
    }
    if multiset(sorted) == multiset(Tags(es)) {
      forall i: nat | i < |sorted|
        ensures sorted[i].tagIndex < 0x8000_0000
      {
        var k := FindInPermutation(Tags(es), sorted, sorted[i]);
      }
    }
  }
}
