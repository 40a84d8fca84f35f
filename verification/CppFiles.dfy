/** The scan of a source file as the tools run it: comments are stripped first, and the
    entries recorded are looked up by the line numbers of the original file. */
module CppFiles {
  import opened LineCounts
  import opened CppText
  import opened CppTextLines
  import opened CppScopes
  import opened CppBraces

  /** `_scan`: entry 0 is line 1, entry k is line k + 1. */
  method ScanFile(classify: Classifier, text: string) returns (infos: seq<LineInfo>)
    ensures infos == [LineInfo([], true, false)] + Lines(classify, Start(), Stripped(text, 0, Code))
    ensures NoEscapedNewline(classify, Stripped(text, 0, Code)) ==>
              EveryLineDescribed(classify, Stripped(text, 0, Code), infos)
  {
    var code := StripComments(text);
    infos := Scan(classify, code);
  }

  // -------------------------------------------------- newlines of the original are kept

  lemma {:induction false} ModeReachable(t: string, i: nat)
    requires i < |t|
    ensures Reachable(t, i, ModeAt(t, i))
  {
    if i > 0 { ModeReachable(t, i - 1); }
  }

  lemma {:induction false} NotSwallowed(t: string, i: nat, p: nat)
    requires i <= p < |t| && p < SwallowedFrom(t, i, ModeAt(t, i))
    ensures !(ModeAt(t, p) == Block && !Closes(t, p))
    decreases p - i
  {
    if i < p { NotSwallowed(t, i + 1, p); }
  }

  /** A newline before any unclosed block comment is kept. */
  lemma {:induction false} NewlineKeeps(t: string, p: nat)
    requires p < SwallowedFrom(t, 0, Code) && p < |t| && t[p] == '\n'
    ensures Keeps(t, p, ModeAt(t, p))
  {
    ModeReachable(t, p);
    NotSwallowed(t, 0, p);
  }

  /** A kept position is found among the positions kept. */
  lemma {:induction false} KeptAt(t: string, i: nat, p: nat) returns (k: nat)
    requires i <= p < |t| && Keeps(t, p, ModeAt(t, p))
    ensures k < |Keep(t, i, ModeAt(t, i))| && Keep(t, i, ModeAt(t, i))[k] == p
    decreases p - i
  {
    if i == p {
      k := 0;
    } else {
      var j := KeptAt(t, i + 1, p);
      k := if Keeps(t, i, ModeAt(t, i)) then j + 1 else j;
    }
  }

  // --------------------------------------------------------------- original lines

  /** For every newline of the original file, the entry of the line it starts, under that
      line's original number, is the scanner's stack after what was kept before it. */
  lemma {:induction false} ScopeOfOriginalLine(classify: Classifier, text: string, p: nat) returns (k: nat)
    requires p < |text| && text[p] == '\n' && p < SwallowedFrom(text, 0, Code)
    requires NoEscapedNewline(classify, Stripped(text, 0, Code))
    ensures var code := Stripped(text, 0, Code);
            k < |code| && k < |Keep(text, 0, Code)| && Keep(text, 0, Code)[k] == p &&
            LineCount(text[..p]) < |Lines(classify, Start(), code)| &&
            Lines(classify, Start(), code)[LineCount(text[..p])] == InfoOf(Run(classify, Start(), code[..k]).stack) &&
            Describes(classify, code, k, Lines(classify, Start(), code)[LineCount(text[..p])])
  {
    var code := Stripped(text, 0, Code);
    NewlineKeeps(text, p);
    k := KeptAt(text, 0, p);
    KeptOnItsLine(text, 0, Code, k);
    assert text[0..p] == text[..p];
    EntryOfLine(classify, code, k);
  }

  /** No newline is escaped inside a literal, as the lexer reads the text. */
  ghost predicate NoEscapedInLiteral(u: string) {
    forall i :: 0 <= i < |u| && u[i] == '\n' ==> !EscapedIn(ModeAt(u, i))
  }

  lemma {:induction false} EscapesAlike(classify: Classifier, u: string)
    requires NoComment(u) && NoSeparator(u)
    ensures NoEscapedNewline(classify, u) <==> NoEscapedInLiteral(u)
  {
    forall i | 0 <= i < |u| ensures Run(classify, Start(), u[..i]).skip == EscapedIn(ModeAt(u, i)) {
      AlikeUpTo(classify, u, i);
    }
  }

  /** When what is left of the file after stripping has no comment start and no digit separator
      in code and no newline escaped inside a literal, the entry of every original line, also
      after the second strip that the tools make, holds the classified headers of exactly the
      opening braces in code before it that are not closed. */
  lemma {:induction false} CodeScopeOfOriginalLine(classify: Classifier, text: string, p: nat) returns (k: nat)
    requires p < |text| && text[p] == '\n' && p < SwallowedFrom(text, 0, Code)
    requires var code := Stripped(text, 0, Code); NoComment(code) && NoSeparator(code) && NoEscapedInLiteral(code)
    ensures var code := Stripped(text, 0, Code);
            Stripped(code, 0, Code) == code && k < |code| &&
            k < |Keep(text, 0, Code)| && Keep(text, 0, Code)[k] == p &&
            LineCount(text[..p]) < |Lines(classify, Start(), Stripped(code, 0, Code))| &&
            Lines(classify, Start(), Stripped(code, 0, Code))[LineCount(text[..p])] ==
              InfoOf(CodeStack(classify, code, k)) &&
            DescribesCode(classify, code, k, Lines(classify, Start(), Stripped(code, 0, Code))[LineCount(text[..p])]) &&
            forall q :: q in CodeOpen(code, k) <==> CodeUnmatched(code, q, k)
  {
    var code := Stripped(text, 0, Code);
    StrippingTwiceExactly(text);
    EscapesAlike(classify, code);
    k := ScopeOfOriginalLine(classify, text, p);
    StackIsCodeStack(classify, code, k);
    DescribedInCode(classify, code, k, Lines(classify, Start(), code)[LineCount(text[..p])]);
    forall q: nat ensures q in CodeOpen(code, k) <==> CodeUnmatched(code, q, k) {
      StackIsUnmatchedInCode(classify, code, k, q);
    }
  }

  /** The scan has exactly one entry for every line of the original file if and only if no
      unclosed comment swallows a newline and no newline is escaped inside a literal. */
  lemma {:induction false} OneEntryPerOriginalLine(classify: Classifier, text: string)
    ensures var code := Stripped(text, 0, Code);
            |Lines(classify, Start(), code)| == LineCount(text) <==>
              LineCount(text[SwallowedFrom(text, 0, Code)..]) == 0 && NoEscapedNewline(classify, code)
  {
    var code, j := Stripped(text, 0, Code), SwallowedFrom(text, 0, Code);
    OneEntryPerLine(classify, code);
    NewlineCountKept(text);
    NewlinesSurvive(text, 0, Code);
    assert text[0..j] == text[..j] && text == text[..j] + text[j..];
    LineCountSplit(text[..j], text[j..]);
  }

  // -------------------------------------------------------------- where it fails

  /** A line that ends in a backslash inside a string is not counted. */
  lemma {:induction false} EscapedNewlineIsLost(classify: Classifier)
    ensures LineCount("\"\\\n") == 1 && Lines(classify, Start(), "\"\\\n") == []
  {
    var t := "\"\\\n";
    assert t[..0] == "" && t[..1] == "\"" && t[..2] == "\"\\" && t[..3] == t;
    RunNext(classify, Start(), t, 0);
    RunNext(classify, Start(), t, 1);
    RunNext(classify, Start(), t, 2);
    LineCountLast(t);
    LineCountLast(t[..2]);
    LineCountLast(t[..1]);
    assert t[..2][..1] == t[..1] && t[..1][..0] == "";
  }

  /** An unclosed comment swallows the lines after it. */
  lemma {:induction false} UnclosedCommentSwallows()
    ensures LineCount("/*\n") == 1 && Stripped("/*\n", 0, Code) == ""
  {
    var t := "/*\n";
    LineCountLast(t);
    LineCountLast(t[..2]);
    LineCountLast(t[..1]);
    assert t[..2][..1] == t[..1] && t[..1][..0] == "";
    TakeBlockComment(t, 0, 3);
  }
}
