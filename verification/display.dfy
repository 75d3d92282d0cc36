/**
 * Which comment lines of the benchmark's output the report builder echoes
 * to the console: the comment marker is dropped, the rest is stripped of
 * surrounding whitespace and searched for `nThread` and `Rank`. Only the
 * choice of lines is modelled; the printing itself is not.
 */
module Display {
  import opened Text
  import opened Parser

  /** `sub` occurs in `s` starting at index `i`. */
  predicate OccursAt(s: string, sub: string, i: int) {
    0 <= i && i + |sub| <= |s| && s[i..i + |sub|] == sub
  }

  /** `sub` occurs somewhere in `s`. */
  predicate Contains(s: string, sub: string) {
    exists i :: 0 <= i <= |s| && OccursAt(s, sub, i)
  }

  /** `str.find`: the lowest index at which `sub` occurs in `s`, or -1 when it does not occur. */
  function Find(s: string, sub: string): (r: int)
    ensures -1 <= r
    ensures r >= 0 ==> OccursAt(s, sub, r) && forall i :: 0 <= i < r ==> !OccursAt(s, sub, i)
    ensures r == -1 <==> !Contains(s, sub)
    decreases |s|
  {
    if |sub| > |s| then -1
    else if s[..|sub|] == sub then 0
    else
      var r := Find(s[1..], sub);
      FindStep(s, sub);
      if r < 0 then -1 else r + 1
  }

  /** Away from the first position, occurrences in `s` are those in its tail, one place later. */
  lemma FindStep(s: string, sub: string)
    requires |sub| <= |s| && s[..|sub|] != sub
    ensures forall i :: OccursAt(s[1..], sub, i) <==> OccursAt(s, sub, i + 1)
    ensures forall i :: 0 < i ==> (OccursAt(s, sub, i) <==> OccursAt(s[1..], sub, i - 1))
    ensures !OccursAt(s, sub, 0)
    ensures Contains(s, sub) <==> Contains(s[1..], sub)
  {
    forall i
      ensures OccursAt(s[1..], sub, i) <==> OccursAt(s, sub, i + 1)
    {
      if 0 <= i && i + |sub| <= |s[1..]| {
        assert s[1..][i..i + |sub|] == s[i + 1..i + 1 + |sub|];
      }
    }
    forall i | 0 < i
      ensures OccursAt(s, sub, i) <==> OccursAt(s[1..], sub, i - 1)
    {
      assert OccursAt(s[1..], sub, i - 1) <==> OccursAt(s, sub, (i - 1) + 1);
    }
    if Contains(s, sub) {
      var j :| 0 <= j <= |s| && OccursAt(s, sub, j);
      assert OccursAt(s[1..], sub, j - 1);
    }
    if Contains(s[1..], sub) {
      var j :| 0 <= j <= |s[1..]| && OccursAt(s[1..], sub, j);
      assert OccursAt(s, sub, j + 1);
    }
  }

  /** The text of a comment line as searched: the marker dropped, whitespace stripped. */
  function CommentText(line: string): (t: string)
    requires IsComment(line)
    ensures |t| == 0 || (!IsSpace(t[0]) && !IsSpace(t[|t| - 1]))
    ensures exists i :: TrimmedAt(line[1..], t, i)
  {
    Strip(line[1..])
  }

  /**
   * The display test as written: `find(...) > 0` for either word, which
   * holds exactly when a word is mentioned but its first mention is not at
   * the very start of the text.
   */
  predicate ShownAsWritten(line: string)
    ensures ShownAsWritten(line) <==>
      && IsComment(line)
      && (|| (Contains(CommentText(line), "nThread") && !OccursAt(CommentText(line), "nThread", 0))
          || (Contains(CommentText(line), "Rank") && !OccursAt(CommentText(line), "Rank", 0)))
  {
    IsComment(line) && (Find(CommentText(line), "nThread") > 0 || Find(CommentText(line), "Rank") > 0)
  }

  /** The display test as intended: either word occurs anywhere in the text. */
  predicate Shown(line: string) {
    IsComment(line) && (Find(CommentText(line), "nThread") >= 0 || Find(CommentText(line), "Rank") >= 0)
  }

  /** The intended test shows exactly the comment lines that mention either word. */
  lemma ShownIffMentioned(line: string)
    ensures Shown(line) <==>
      IsComment(line) && (Contains(CommentText(line), "nThread") || Contains(CommentText(line), "Rank"))
  {
  }

  /** A word at the very start of a text is found at index 0. */
  lemma FoundAtStart(s: string, sub: string)
    requires |sub| <= |s| && s[..|sub|] == sub
    ensures Find(s, sub) == 0
  {
  }

  /** A text without the first letter of a word does not contain the word. */
  lemma MissingFirstLetter(s: string, sub: string)
    requires |sub| > 0
    requires forall i :: 0 <= i < |s| ==> s[i] != sub[0]
    ensures Find(s, sub) == -1
  {
  }

  /**
   * The test as written hides every comment line whose text starts with one
   * word and does not mention the other, although the intended test shows it.
   */
  lemma LeadingWordHidden(line: string, word: string, other: string)
    requires IsComment(line)
    requires (word == "nThread" && other == "Rank") || (word == "Rank" && other == "nThread")
    requires |word| <= |CommentText(line)| && CommentText(line)[..|word|] == word
    requires !Contains(CommentText(line), other)
    ensures Shown(line) && !ShownAsWritten(line)
  {
    FoundAtStart(CommentText(line), word);
  }

  /** The text of the thread banner, once the marker and the blanks around it are gone. */
  lemma BannerText(line: string, text: string)
    requires line == "# nThread 1" && text == "nThread 1"
    ensures IsComment(line) && CommentText(line) == text
  {
    assert line[1..] == [' '] + text;
    assert StripLeft(text) == text;
    assert StripLeft(line[1..]) == text;
    assert StripRight(text) == text;
  }

  /** The thread banner the benchmark prints first is never echoed as written. */
  lemma ThreadBannerHidden(line: string)
    requires line == "# nThread 1"
    ensures IsComment(line) && Shown(line) && !ShownAsWritten(line)
  {
    var text := "nThread 1";
    BannerText(line, text);
    assert forall i :: 0 <= i < |text| ==> text[i] != 'R';
    MissingFirstLetter(text, "Rank");
    assert !Contains(CommentText(line), "Rank");
    assert CommentText(line)[..7] == "nThread";
    LeadingWordHidden(line, "nThread", "Rank");
  }
}
