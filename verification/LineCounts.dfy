/** Line numbers: how many newlines come before a character. */
module LineCounts {

  /** The number of newlines in a string; a character's line number is this of what comes
      before it. */
  function LineCount(s: string): nat {
    if s == "" then 0 else (if s[0] == '\n' then 1 else 0) + LineCount(s[1..])
  }

  lemma {:induction false} LineCountCons(c: char, s: string, cs: string)
    requires cs == [c] + s
    ensures LineCount(cs) == (if c == '\n' then 1 else 0) + LineCount(s)
  {
    assert cs[1..] == s;
  }

  lemma {:induction false} LineCountSplit(a: string, b: string)
    ensures LineCount(a + b) == LineCount(a) + LineCount(b)
  {
    if a == "" {
      assert a + b == b;
    } else {
      LineCountSplit(a[1..], b);
      LineCountCons(a[0], a[1..] + b, a + b);
    }
  }

  lemma {:induction false} LineCountLast(s: string)
    requires s != ""
    ensures LineCount(s) == LineCount(s[..|s| - 1]) + if s[|s| - 1] == '\n' then 1 else 0
  {
    var front, last := s[..|s| - 1], [s[|s| - 1]];
    assert s == front + last && last[1..] == "";
    LineCountSplit(front, last);
  }
}
