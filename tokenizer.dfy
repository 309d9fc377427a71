// The tokenising half of parseText (run.js:549-566): the separator regular
// expression built from the dictionary's word separators, `text.split` on
// it, the word records with their positions, and the filter that drops the
// words with nothing but spaces and padding in them.

module Tokenizer {
  import opened Base

  /**
   * One element of the character class `[ …]`: a single character, or a
   * range `lo-hi` of characters.
   */
  datatype ClassItem = Single(c: char) | Range(lo: char, hi: char)

  /** Whether `c` is matched by the item. */
  predicate ItemMatches(item: ClassItem, c: char)
  {
    match item
    case Single(d) => c == d
    case Range(lo, hi) => lo <= c <= hi
  }

  /** Whether `c` is matched by the class, that is, whether it is a separator. */
  predicate IsSeparator(items: seq<ClassItem>, c: char)
  {
    exists i | 0 <= i < |items| :: ItemMatches(items[i], c)
  }

  /**
   * The class body `' ' + wordSeparators`, read the way a regular expression
   * reads a character class: every character stands for itself (the source
   * escapes the ones that would not, and `-` is not among them), except that
   * an atom, a `-` and a further atom form a range, taken greedily from the
   * left. A range whose ends are out of order makes `new RegExp` throw.
   */
  function ClassItems(atoms: string): (r: Result<seq<ClassItem>>)
    ensures r.Ok? ==> forall c | c in atoms && c != '-' :: IsSeparator(r.value, c)
    decreases |atoms|
  {
    if |atoms| == 0 then Ok([])
    else if |atoms| >= 3 && atoms[1] == '-' then
      if atoms[0] > atoms[2] then Err(InvalidPattern)
      else
        var rest :- ClassItems(atoms[3..]);
        var r := [Range(atoms[0], atoms[2])] + rest;
        assert forall c | c in atoms[3..] && c != '-' :: IsSeparator(r, c) by {
          forall c | c in atoms[3..] && c != '-' ensures IsSeparator(r, c) {
            var i :| 0 <= i < |rest| && ItemMatches(rest[i], c);
            assert r[i + 1] == rest[i];
          }
        }
        assert forall c | c in atoms :: c in atoms[3..] || c == atoms[0] || c == atoms[1] || c == atoms[2] by {
          assert atoms == atoms[..3] + atoms[3..];
        }
        assert ItemMatches(r[0], atoms[0]) && ItemMatches(r[0], atoms[2]);
        Ok(r)
    else
      var rest :- ClassItems(atoms[1..]);
      var r := [Single(atoms[0])] + rest;
      assert forall c | c in atoms[1..] && c != '-' :: IsSeparator(r, c) by {
        forall c | c in atoms[1..] && c != '-' ensures IsSeparator(r, c) {
          var i :| 0 <= i < |rest| && ItemMatches(rest[i], c);
          assert r[i + 1] == rest[i];
        }
      }
      assert forall c | c in atoms :: c in atoms[1..] || c == atoms[0] by {
        assert atoms == [atoms[0]] + atoms[1..];
      }
      assert ItemMatches(r[0], atoms[0]);
      Ok(r)
  }

  /** The class of the separator regular expression `([ …])` for the given word separators. */
  function SeparatorClass(wordSeparators: string): Result<seq<ClassItem>>
  {
    ClassItems([' '] + wordSeparators)
  }

  /** The space is always a separator: the class starts with it, alone or as the low end of a range. */
  lemma {:induction false} SpaceSeparates(wordSeparators: string)
    requires SeparatorClass(wordSeparators).Ok?
    ensures IsSeparator(SeparatorClass(wordSeparators).value, ' ')
  {
    var atoms := [' '] + wordSeparators;
    var items := SeparatorClass(wordSeparators).value;
    if |atoms| >= 3 && atoms[1] == '-' {
      assert ItemMatches(items[0], ' ');
    } else {
      assert items[0] == Single(' ');
      assert ItemMatches(items[0], ' ');
    }
  }

  /**
   * Without a `-` among them the class is exactly the space and the word
   * separators: it always compiles, and a character separates words if and
   * only if it is one of them.
   */
  lemma {:induction false} ClassWithoutDash(atoms: string, c: char)
    requires '-' !in atoms
    ensures ClassItems(atoms).Ok?
    ensures IsSeparator(ClassItems(atoms).value, c) <==> c in atoms
    decreases |atoms|
  {
    if |atoms| > 0 {
      assert atoms[1..] == atoms[1..] && forall d | d in atoms[1..] :: d in atoms;
      ClassWithoutDash(atoms[1..], c);
      var rest := ClassItems(atoms[1..]).value;
      var r := ClassItems(atoms).value;
      assert r == [Single(atoms[0])] + rest;
      assert atoms == [atoms[0]] + atoms[1..];
      if IsSeparator(r, c) {
        var i :| 0 <= i < |r| && ItemMatches(r[i], c);
        if i > 0 {
          assert ItemMatches(rest[i - 1], c);
        }
      }
      if c in atoms[1..] {
        var i :| 0 <= i < |rest| && ItemMatches(rest[i], c);
        assert ItemMatches(r[i + 1], c);
      }
      if c == atoms[0] {
        assert ItemMatches(r[0], c);
      }
    }
  }

  /** The pieces of a split put back together. */
  function Joined(pieces: seq<string>): (r: string)
  {
    if |pieces| == 0 then "" else Joined(pieces[..|pieces| - 1]) + pieces[|pieces| - 1]
  }

  /**
   * `text.split(separatorRegex)` with a capturing group around one class
   * character: the runs between separators, with every separator kept as a
   * piece of its own in between. The text is read from its end, which is
   * how the pieces are built here; the lemmas below show what they are.
   */
  function Split(text: string, items: seq<ClassItem>): (r: seq<string>)
    ensures |r| > 0
  {
    if |text| == 0 then [""]
    else
      var init := Split(text[..|text| - 1], items);
      var c := text[|text| - 1];
      if IsSeparator(items, c) then init + [[c], ""]
      else init[..|init| - 1] + [init[|init| - 1] + [c]]
  }

  /** Put back together, the pieces of a split give the text. */
  lemma {:induction false} SplitJoins(text: string, items: seq<ClassItem>)
    ensures Joined(Split(text, items)) == text
    decreases |text|
  {
    if |text| > 0 {
      var init := Split(text[..|text| - 1], items);
      var c := text[|text| - 1];
      SplitJoins(text[..|text| - 1], items);
      assert text == text[..|text| - 1] + [c];
      var r := Split(text, items);
      if IsSeparator(items, c) {
        assert r == init + [[c], ""];
        assert r[..|r| - 1] == init + [[c]] && (init + [[c]])[..|init|] == init;
      } else {
        var last := |init| - 1;
        assert r == init[..last] + [init[last] + [c]];
        assert r[..last] == init[..last];
        assert Joined(init) == Joined(init[..last]) + init[last];
      }
    }
  }

  /**
   * The pieces alternate: runs without any separator at even positions, and
   * single separators at odd ones, so there is always an odd number of them.
   */
  predicate Alternating(items: seq<ClassItem>, r: seq<string>)
  {
    && |r| % 2 == 1
    && (forall k | 0 <= k < |r| && k % 2 == 1 :: |r[k]| == 1 && IsSeparator(items, r[k][0]))
    && (forall k, j | 0 <= k < |r| && k % 2 == 0 && 0 <= j < |r[k]| :: !IsSeparator(items, r[k][j]))
  }

  /** The pieces of every split alternate. */
  lemma {:induction false} SplitAlternates(text: string, items: seq<ClassItem>)
    ensures Alternating(items, Split(text, items))
    decreases |text|
  {
    if |text| > 0 {
      var init := Split(text[..|text| - 1], items);
      var c := text[|text| - 1];
      SplitAlternates(text[..|text| - 1], items);
      if IsSeparator(items, c) {
        SeparatorAlternates(items, init, c);
      } else {
        RunAlternates(items, init, c);
      }
    }
  }

  /** A separator adds itself and an empty run after the pieces. */
  lemma SeparatorAlternates(items: seq<ClassItem>, init: seq<string>, c: char)
    requires Alternating(items, init) && IsSeparator(items, c)
    ensures Alternating(items, init + [[c], ""])
  {
    var r := init + [[c], ""];
    forall k | 0 <= k < |r| && k % 2 == 1
      ensures |r[k]| == 1 && IsSeparator(items, r[k][0])
    {
      if k < |init| {
        assert r[k] == init[k];
      }
    }
    forall k, j | 0 <= k < |r| && k % 2 == 0 && 0 <= j < |r[k]|
      ensures !IsSeparator(items, r[k][j])
    {
      assert k < |init| && r[k] == init[k];
    }
  }

  /** Any other character lengthens the last run. */
  lemma RunAlternates(items: seq<ClassItem>, init: seq<string>, c: char)
    requires Alternating(items, init) && !IsSeparator(items, c)
    ensures Alternating(items, init[..|init| - 1] + [init[|init| - 1] + [c]])
  {
    var last := |init| - 1;
    var r := init[..last] + [init[last] + [c]];
    forall k | 0 <= k < |r| && k % 2 == 1
      ensures |r[k]| == 1 && IsSeparator(items, r[k][0])
    {
      assert k < last && r[k] == init[k];
    }
    forall k, j | 0 <= k < |r| && k % 2 == 0 && 0 <= j < |r[k]|
      ensures !IsSeparator(items, r[k][j])
    {
      if k < last {
        assert r[k] == init[k];
      } else if j < |init[last]| {
        assert r[k][j] == init[last][j];
      }
    }
  }

  /** `padEnd(n, '\0')`: the string with NUL characters added up to length `n`. */
  function Padded(s: string, n: int): (r: string)
    ensures |r| == if |s| >= n then |s| else n
    ensures r[..|s|] == s
    ensures forall k | |s| <= k < |r| :: r[k] == '\0'
  {
    if |s| >= n then s else s + seq(n - |s|, _ => '\0')
  }

  /** A word record of parseText before the dictionary lookup. */
  datatype Token = Token(text: string, length: int, position: int)

  /**
   * The `words.map(...)` step: the dictionary-sized, NUL-padded text of each
   * piece, its full length, and its position, which starts at `position`
   * and advances by the length of every piece, separators included.
   */
  function Tokens(pieces: seq<string>, textLength: int, position: int): (r: seq<Token>)
    ensures |r| == |pieces|
  {
    if |pieces| == 0 then []
    else
      var first := Token(Padded(JsSlice(pieces[0], 0, textLength), textLength), |pieces[0]|, position);
      [first] + Tokens(pieces[1..], textLength, position + |pieces[0]|)
  }

  /** The pieces before piece `k`, put back together, end where piece `k` starts. */
  lemma {:induction false} JoinedPrefix(pieces: seq<string>, k: int)
    requires 0 <= k < |pieces|
    ensures Joined(pieces[..k + 1]) == Joined(pieces[..k]) + pieces[k]
  {
    assert pieces[..k + 1][..k] == pieces[..k];
  }

  /** Joining the first piece and then the rest gives the same as joining them all. */
  lemma {:induction false} JoinedFront(pieces: seq<string>)
    requires |pieces| > 0
    ensures Joined(pieces) == pieces[0] + Joined(pieces[1..])
    decreases |pieces|
  {
    if |pieces| > 1 {
      var init := pieces[..|pieces| - 1];
      JoinedFront(init);
      assert init[1..] == pieces[1..][..|pieces[1..]| - 1];
      assert init[0] == pieces[0];
    } else {
      assert pieces[..0] == [] && pieces[1..] == [];
    }
  }

  /**
   * The position of each word is `position` plus the length of the text
   * before it: word `k` is the text at that offset, and its length is the
   * length of the piece.
   */
  lemma {:induction false} TokenPositions(pieces: seq<string>, textLength: int, position: int, k: int)
    requires 0 <= k < |pieces|
    ensures Tokens(pieces, textLength, position)[k].position == position + |Joined(pieces[..k])|
    ensures Tokens(pieces, textLength, position)[k].length == |pieces[k]|
    decreases k
  {
    if k > 0 {
      TokenPositions(pieces[1..], textLength, position + |pieces[0]|, k - 1);
      JoinedFront(pieces[..k]);
      assert pieces[..k][1..] == pieces[1..][..k - 1];
    } else {
      assert pieces[..0] == [];
    }
  }

  /** Whether a word's text has a character other than NUL and space (`/[^\0 ]/.test(word.text)`). */
  predicate Visible(text: string)
  {
    exists j | 0 <= j < |text| :: text[j] != '\0' && text[j] != ' '
  }

  /** `words.filter(...)`: the visible words, in their order. */
  function Kept(tokens: seq<Token>): (r: seq<Token>)
    ensures |r| <= |tokens|
    ensures forall k | 0 <= k < |r| :: Visible(r[k].text) && r[k] in tokens
    ensures forall t | t in tokens && Visible(t.text) :: t in r
  {
    if |tokens| == 0 then []
    else
      var rest := Kept(tokens[1..]);
      assert forall t | t in tokens :: t == tokens[0] || t in tokens[1..];
      if Visible(tokens[0].text) then [tokens[0]] + rest else rest
  }

  /**
   * The words of a text: split at the separators, each given its text,
   * length and position (counted from `position`), and the invisible ones
   * dropped.
   */
  function Words(text: string, items: seq<ClassItem>, textLength: int, position: int): seq<Token>
  {
    Kept(Tokens(Split(text, items), textLength, position))
  }

  /**
   * Every word of a text is one of its pieces, found at its position: the
   * text from `word.position - position` on, for `word.length` characters,
   * is a run without separators or a single separator.
   */
  lemma WordsLocate(text: string, items: seq<ClassItem>, textLength: int, position: int, t: Token)
    requires t in Words(text, items, textLength, position)
    ensures 0 <= t.length && 0 <= t.position - position && t.position - position + t.length <= |text|
    ensures 0 <= t.length && 0 <= t.position - position && t.position - position + t.length <= |text| ==>
      var piece := text[t.position - position..t.position - position + t.length];
      (forall j | 0 <= j < |piece| :: !IsSeparator(items, piece[j])) || (|piece| == 1 && IsSeparator(items, piece[0]))
  {
    var pieces := Split(text, items);
    var tokens := Tokens(pieces, textLength, position);
    var k :| 0 <= k < |tokens| && tokens[k] == t;
    TokenPositions(pieces, textLength, position, k);
    var offset := |Joined(pieces[..k])|;
    SplitJoins(text, items);
    JoinedPrefix(pieces, k);
    JoinedSplits(pieces, k + 1);
    assert text == Joined(pieces[..k + 1]) + Joined(pieces[k + 1..]);
    assert text[offset..offset + t.length] == pieces[k];
    SplitAlternates(text, items);
    PieceKind(items, pieces, k);
  }

  /** Each piece of alternating pieces is a run without separators or a single separator. */
  lemma PieceKind(items: seq<ClassItem>, pieces: seq<string>, k: int)
    requires Alternating(items, pieces) && 0 <= k < |pieces|
    ensures (forall j | 0 <= j < |pieces[k]| :: !IsSeparator(items, pieces[k][j])) || (|pieces[k]| == 1 && IsSeparator(items, pieces[k][0]))
  {
    if k % 2 == 1 {
      assert |pieces[k]| == 1 && IsSeparator(items, pieces[k][0]);
    }
  }

  /** Joining a prefix and the rest gives the whole. */
  lemma {:induction false} JoinedSplits(pieces: seq<string>, k: int)
    requires 0 <= k <= |pieces|
    ensures Joined(pieces) == Joined(pieces[..k]) + Joined(pieces[k..])
    decreases |pieces| - k
  {
    if k == |pieces| {
      assert pieces[..k] == pieces && pieces[k..] == [];
    } else {
      JoinedSplits(pieces, k + 1);
      JoinedFront(pieces[k..]);
      assert pieces[k..][1..] == pieces[k + 1..];
      JoinedPrefix(pieces, k);
    }
  }
}
