// The preparation of an input line before the `read` instruction parses it
// (run.js:1382): `input.toLowerCase().replace(/\n.*/g, '')`, which lowers
// the letters and removes every newline together with the rest of its line.

module Input {

  /** `toLowerCase` on one character, for the ASCII letters. */
  function LowerAscii(c: char): (r: char)
    ensures !('A' <= r <= 'Z')
    ensures 'a' <= c <= 'z' || !('A' <= c <= 'Z') ==> r == c
  {
    if 'A' <= c <= 'Z' then (c as int + 32) as char else c
  }

  /** `input.toLowerCase()`, letter by letter. */
  function Lowered(s: string): (r: string)
    ensures |r| == |s|
    ensures forall k | 0 <= k < |r| :: !('A' <= r[k] <= 'Z')
  {
    seq(|s|, k requires 0 <= k < |s| => LowerAscii(s[k]))
  }

  /** Lowering twice is lowering once. */
  lemma LoweredIdempotent(s: string)
    ensures Lowered(Lowered(s)) == Lowered(s)
  {
    var once := Lowered(s);
    assert forall k | 0 <= k < |once| :: LowerAscii(once[k]) == once[k];
  }

  /** The characters `.` does not match in a JavaScript regular expression. */
  predicate IsLineTerminator(c: char)
  {
    c == '\n' || c == '\r' || c == '\U{2028}' || c == '\U{2029}'
  }

  /** What `.*` leaves of a text: everything from its first line terminator on. */
  function FromLineEnd(s: string): (r: string)
    ensures |r| <= |s| && r == s[|s| - |r|..]
    ensures |r| > 0 ==> IsLineTerminator(r[0])
  {
    if |s| == 0 || IsLineTerminator(s[0]) then s else FromLineEnd(s[1..])
  }

  /**
   * The global replacement of the pattern `\n.*` by nothing: from left to
   * right, each newline is removed together with the characters after it up
   * to the next line terminator.
   */
  function Stripped(s: string): (r: string)
    ensures |r| <= |s|
    decreases |s|
  {
    if |s| == 0 then ""
    else if s[0] == '\n' then Stripped(FromLineEnd(s[1..]))
    else [s[0]] + Stripped(s[1..])
  }

  /** No newline is left. */
  lemma {:induction false} StrippedHasNoNewline(s: string)
    ensures '\n' !in Stripped(s)
    decreases |s|
  {
    if |s| > 0 {
      if s[0] == '\n' {
        StrippedHasNoNewline(FromLineEnd(s[1..]));
      } else {
        StrippedHasNoNewline(s[1..]);
      }
    }
  }

  /** A text without a newline is left as it is. */
  lemma {:induction false} StrippedWithoutNewline(s: string)
    requires '\n' !in s
    ensures Stripped(s) == s
    decreases |s|
  {
    if |s| > 0 {
      assert s[0] in s;
      assert forall c | c in s[1..] :: c in s;
      StrippedWithoutNewline(s[1..]);
      assert s == [s[0]] + s[1..];
    }
  }

  /** Stripping twice is stripping once. */
  lemma StrippedIdempotent(s: string)
    ensures Stripped(Stripped(s)) == Stripped(s)
  {
    StrippedHasNoNewline(s);
    StrippedWithoutNewline(Stripped(s));
  }

  /**
   * A line ended by plain newlines loses everything from its first newline
   * on: without carriage returns or Unicode line separators, `.*` reaches
   * the next newline, which is removed in turn.
   */
  lemma {:induction false} StrippedCutsAtNewline(s: string, i: int)
    requires 0 <= i < |s| && s[i] == '\n' && '\n' !in s[..i]
    requires forall k | 0 <= k < |s| :: s[k] == '\n' || !IsLineTerminator(s[k])
    ensures Stripped(s) == s[..i]
    decreases |s|
  {
    if i == 0 {
      StrippedOfNewlines(s);
    } else {
      assert s[0] != '\n' by { assert s[0] == s[..i][0]; }
      assert s[1..][i - 1] == '\n' && s[1..][..i - 1] == s[..i][1..];
      StrippedCutsAtNewline(s[1..], i - 1);
      assert s[..i] == [s[0]] + s[1..][..i - 1];
    }
  }

  /** A text that starts with a newline and has no other line terminator than newlines strips to nothing. */
  lemma {:induction false} StrippedOfNewlines(s: string)
    requires |s| > 0 && s[0] == '\n'
    requires forall k | 0 <= k < |s| :: s[k] == '\n' || !IsLineTerminator(s[k])
    ensures Stripped(s) == ""
    decreases |s|
  {
    var rest := FromLineEnd(s[1..]);
    if |rest| > 0 {
      assert rest[0] == s[|s| - |rest|];
      StrippedOfNewlines(rest);
    }
  }

  /** The line `read` parses: lowered, with every newline and the rest of its line removed. */
  function ReadInput(input: string): string
  {
    Stripped(Lowered(input))
  }
}
