/** The format of the event tag file, said of its characters themselves. */
module EventTagText {
  import opened EventTagMap

  /** The number that decimal digits stand for, read from the left, from digit k on with n before it. */
  function Value(digits: string, k: nat, n: int): int
    decreases |digits| - k
  {
    if k >= |digits| then n else Value(digits, k + 1, n * 10 + (digits[k] as int - '0' as int))
  }

  predicate DecimalDigits(s: string) {
    s != "" && forall k :: 0 <= k < |s| ==> '0' <= s[k] <= '9'
  }

  predicate OnlySpace(s: string) {
    forall k :: 0 <= k < |s| ==> s[k] in {' ', '\t', '\r'}
  }

  predicate TagCharacters(s: string) {
    forall k :: 0 <= k < |s| ==> 'a' <= s[k] <= 'z' || 'A' <= s[k] <= 'Z' || '0' <= s[k] <= '9' || s[k] in {'_'}
  }

  /** A line of the file: nothing, or a '#' and anything, or an int, a name, and anything behind a blank. */
  predicate Plain(line: Line) {
    OnlySpace(line.space) &&
    match line
    case Blank(_) => true
    case Comment(_, body) => body != "" && body[0] in {'#'} && forall k :: 0 <= k < |body| ==> body[k] !in {'\n'}
    case Tag(_, digits, after, gap, first, name, rest) =>
      && DecimalDigits(digits) && Value(digits, 0, 0) < 0x8000_0000
      && OnlySpace([after]) && OnlySpace(gap) && TagCharacters([first]) && TagCharacters(name)
      && (rest != "" ==> OnlySpace([rest[0]]) && forall k :: 0 <= k < |rest| ==> rest[k] !in {'\n'})
  }

  lemma {:induction false} ValueFromLeft(digits: string, k: nat)
    requires k <= |digits| && DecimalDigits(digits)
    ensures Value(digits, k, NumberIn(digits, 0, k)) == NumberIn(digits, 0, |digits|)
    decreases |digits| - k
  {
    if k < |digits| {
      ValueFromLeft(digits, k + 1);
    }
  }

  lemma SpaceIs(s: string)
    ensures OnlySpace(s) <==> Blanks(s)
  {
  }

  lemma TagCharactersAre(s: string)
    ensures TagCharacters(s) <==> forall k :: 0 <= k < |s| ==> IsValidTag(s[k])
  {
  }

  lemma OneCharacter(c: char)
    ensures OnlySpace([c]) <==> IsWhitespace(c) && c != '\n'
    ensures TagCharacters([c]) <==> IsValidTag(c)
  {
    assert [c][0] == c;
    SpaceIs([c]);
    TagCharactersAre([c]);
  }

  /** The lines that the file format describes, and the number that such a line gives its tag. */
  lemma WellFormedExactly(line: Line)
    ensures WellFormed(line) <==> Plain(line)
    ensures Plain(line) && line.Tag? ==> TagNumber(line.digits, 0, |line.digits|) == Value(line.digits, 0, 0)
  {
    SpaceIs(line.space);
    if line.Tag? {
      SpaceIs(line.gap);
      OneCharacter(line.after);
      OneCharacter(line.first);
      TagCharactersAre(line.name);
      if line.rest != "" {
        OneCharacter(line.rest[0]);
      }
      if DecimalDigits(line.digits) {
        ValueFromLeft(line.digits, 0);
      }
    }
  }
}
