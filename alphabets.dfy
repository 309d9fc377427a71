// getAlphabets.js: the three default alphabets of the text codec, as section
// 3.5.3 of the Z-Machine Standards Document 1.1 lays them out. Version 1 has a
// different third row ('<' where later versions put the newline).

module Alphabets {
  import opened Base

  const A0: string := "abcdefghijklmnopqrstuvwxyz"
  const A1: string := "ABCDEFGHIJKLMNOPQRSTUVWXYZ"
  const A2Version1: string := " 0123456789.,!?_#'\"/\\<-:()"
  const A2Later: string := " \n0123456789.,!?_#'\"/\\-:()"

  /** getAlphabets: the rows A0, A1, A2 for the given version byte. */
  function AlphabetRows(version: int): (r: seq<string>)
    ensures |r| == 3 && |r[0]| == 26 && |r[1]| == 26 && |r[2]| == 26
    ensures r[0] == A0 && r[1] == A1
    ensures r[2][0] == ' '
    ensures version == 1 ==> r[2][21] == '<'
    ensures version != 1 ==> r[2][1] == '\n'
  {
    [A0, A1, if version == 1 then A2Version1 else A2Later]
  }

  /** Version 1 has '<' and no newline in its third row; later versions have the newline and no '<'. */
  lemma ThirdRow(version: int)
    ensures version == 1 ==> '<' in AlphabetRows(version)[2] && '\n' !in AlphabetRows(version)[2]
    ensures version != 1 ==> '\n' in AlphabetRows(version)[2] && '<' !in AlphabetRows(version)[2]
  {
    var row := AlphabetRows(version)[2];
    if version == 1 {
      assert row[21] == '<';
      assert forall k | 0 <= k < 26 :: row[k] != '\n';
    } else {
      assert row[1] == '\n';
      assert forall k | 0 <= k < 26 :: row[k] != '<';
    }
  }

  /** `s.indexOf(c)`: the first position of `c` in `s`, or -1. */
  function IndexOf(s: string, c: char): (r: int)
    ensures -1 <= r < |s|
    ensures r == -1 ==> forall k | 0 <= k < |s| :: s[k] != c
    ensures r >= 0 ==> s[r] == c
  {
    if |s| == 0 then -1
    else if s[0] == c then 0
    else
      var i := IndexOf(s[1..], c);
      if i < 0 then -1 else i + 1
  }

  /** indexOf finds `c` exactly when `c` occurs in `s`. */
  lemma IndexOfIn(s: string, c: char)
    ensures IndexOf(s, c) >= 0 <==> c in s
  {
    if IndexOf(s, c) < 0 {
      assert forall k | 0 <= k < |s| :: s[k] != c;
    }
  }
}
