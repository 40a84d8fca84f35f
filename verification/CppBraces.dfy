/** The scope scanner has its own reading of literals: it opens a character literal at every
    single quote, where the comment stripper's lexer knows digit separators. This module says
    exactly when the two readings agree, and that the scope stack is then what the lexer's
    reading of the braces makes it. */
module CppBraces {
  import opened Sequences
  import opened CppText
  import opened CppTextLines
  import opened CppScopes

  // ------------------------------------------------------------- the two readings

  /** No single quote in code is a digit separator. */
  ghost predicate NoSeparator(u: string) {
    forall i :: 0 <= i < |u| && CodeQuote(u, i) ==> !IsDigitSeparator(u, i)
  }

  function LiteralOf(m: Mode): Literal {
    if m.Quoted? then (if m.quote == '"' then InString else InChar) else Outside
  }

  predicate EscapedIn(m: Mode) {
    m.Quoted? && m.escaped
  }

  /** At position n the scanner is inside the literal that the lexer is in, or in none. */
  ghost predicate ReadAlike(classify: Classifier, u: string, n: nat)
    requires n <= |u|
  {
    var s := Run(classify, Start(), u[..n]);
    s.literal == LiteralOf(ModeAt(u, n)) && s.skip == EscapedIn(ModeAt(u, n))
  }

  predicate QuoteKnown(m: Mode) {
    m == Code || (m.Quoted? && (m.quote == '"' || m.quote == '\''))
  }

  lemma {:induction false} CommentFreeModes(u: string, n: nat)
    requires n <= |u| && NoComment(u)
    ensures QuoteKnown(ModeAt(u, n))
  {
    if n > 0 { CommentFreeModes(u, n - 1); }
  }

  lemma {:induction false} AlikeNext(classify: Classifier, u: string, n: nat)
    requires n < |u| && NoComment(u) && ReadAlike(classify, u, n)
    ensures ReadAlike(classify, u, n + 1) <==> !(CodeQuote(u, n) && IsDigitSeparator(u, n))
  {
    CommentFreeModes(u, n);
    RunNext(classify, Start(), u, n);
    assert ModeAt(u, n) == Code ==> !CommentStart(u, n);
  }

  lemma {:induction false} AlikeUpTo(classify: Classifier, u: string, n: nat)
    requires n <= |u| && NoComment(u) && NoSeparator(u)
    ensures ReadAlike(classify, u, n)
  {
    if n == 0 {
      assert u[..0] == "";
    } else {
      AlikeUpTo(classify, u, n - 1);
      AlikeNext(classify, u, n - 1);
    }
  }

  /** On comment-free text the scanner and the lexer read every position alike if and only if
      no single quote in code is a digit separator. */
  lemma {:induction false} AlikeExactly(classify: Classifier, u: string)
    requires NoComment(u)
    ensures (forall n :: 0 <= n <= |u| ==> ReadAlike(classify, u, n)) <==> NoSeparator(u)
  {
    if NoSeparator(u) {
      forall n | 0 <= n <= |u| ensures ReadAlike(classify, u, n) { AlikeUpTo(classify, u, n); }
    } else {
      var i :| 0 <= i < |u| && CodeQuote(u, i) && IsDigitSeparator(u, i);
      if ReadAlike(classify, u, i) { AlikeNext(classify, u, i); }
    }
  }

  // ------------------------------------------------------ braces as the lexer reads them

  predicate CodeOpens(u: string, i: nat) {
    i < |u| && u[i] == '{' && ModeAt(u, i) == Code
  }

  predicate CodeShuts(u: string, i: nat) {
    i < |u| && u[i] == '}' && ModeAt(u, i) == Code
  }

  /** Openings minus closings in code among the characters p..q. */
  function CodeBalance(u: string, p: nat, q: nat): int
    requires p <= q <= |u|
    decreases q - p
  {
    if p == q then 0
    else CodeBalance(u, p, q - 1) + if CodeOpens(u, q - 1) then 1 else if CodeShuts(u, q - 1) then -1 else 0
  }

  /** The brace at p is open at i: between them, closings in code never catch up. */
  ghost predicate CodeUnmatched(u: string, p: nat, i: nat) {
    p < i <= |u| && CodeOpens(u, p) && forall q :: p < q <= i ==> CodeBalance(u, p, q) >= 1
  }

  /** The braces in code that are open at i. */
  function CodeOpen(u: string, i: nat): (open: seq<nat>)
    requires i <= |u|
    ensures forall k :: 0 <= k < |open| ==> open[k] < i
  {
    if i == 0 then []
    else
      var before := CodeOpen(u, i - 1);
      if CodeOpens(u, i - 1) then before + [i - 1]
      else if CodeShuts(u, i - 1) && before != [] then before[..|before| - 1]
      else before
  }

  /** Where the statement that runs at i began: after the last brace or semicolon in code. */
  function HeaderStart(u: string, i: nat): (h: nat)
    requires i <= |u|
    ensures h <= i
  {
    if i == 0 then 0
    else if ModeAt(u, i - 1) == Code && (u[i - 1] == '{' || u[i - 1] == '}' || u[i - 1] == ';') then i
    else HeaderStart(u, i - 1)
  }

  function Header(u: string, i: nat): string
    requires i <= |u|
  {
    u[HeaderStart(u, i)..i]
  }

  /** The classified headers of open braces. */
  function Headed(classify: Classifier, u: string, open: seq<nat>): (stack: seq<Entry>)
    requires forall k :: 0 <= k < |open| ==> open[k] <= |u|
    ensures |stack| == |open|
    ensures forall k {:trigger stack[k]} :: 0 <= k < |open| ==> stack[k] == classify(Header(u, open[k]))
  {
    if open == [] then []
    else
      var n := |open| - 1;
      Headed(classify, u, open[..n]) + [classify(Header(u, open[n]))]
  }

  /** What the stack should be at i. */
  function CodeStack(classify: Classifier, u: string, i: nat): seq<Entry>
    requires i <= |u|
  {
    Headed(classify, u, CodeOpen(u, i))
  }

  // -------------------------------------------------------------- the stack is right

  /** One character changes the scanner's header and stack only in code. */
  lemma {:induction false} RunParts(classify: Classifier, u: string, i: nat)
    requires i < |u|
    ensures var s := Run(classify, Start(), u[..i]);
            var t := Run(classify, Start(), u[..i + 1]);
            var code := s.literal == Outside && !s.skip;
            t.header == (if code && (u[i] == '{' || u[i] == '}' || u[i] == ';') then "" else s.header + [u[i]]) &&
            t.stack == (if code && u[i] == '{' then s.stack + [classify(s.header)]
                        else if code && u[i] == '}' && s.stack != [] then s.stack[..|s.stack| - 1] else s.stack)
  {
    RunNext(classify, Start(), u, i);
  }

  lemma {:induction false} HeaderNext(classify: Classifier, u: string, i: nat)
    requires i < |u| && ReadAlike(classify, u, i) && QuoteKnown(ModeAt(u, i))
    requires Run(classify, Start(), u[..i]).header == Header(u, i)
    ensures Run(classify, Start(), u[..i + 1]).header == Header(u, i + 1)
  {
    RunParts(classify, u, i);
    HeaderGrows(u, i);
  }

  lemma {:induction false} HeaderGrows(u: string, i: nat)
    requires i < |u|
    ensures Header(u, i + 1) ==
            if ModeAt(u, i) == Code && (u[i] == '{' || u[i] == '}' || u[i] == ';') then "" else Header(u, i) + [u[i]]
  {
    assert u[HeaderStart(u, i)..i + 1] == u[HeaderStart(u, i)..i] + [u[i]];
    assert u[i + 1..i + 1] == "";
  }

  lemma {:induction false} StackStep(classify: Classifier, u: string, i: nat)
    requires i < |u| && ReadAlike(classify, u, i) && QuoteKnown(ModeAt(u, i))
    requires Run(classify, Start(), u[..i]).header == Header(u, i)
    requires Run(classify, Start(), u[..i]).stack == CodeStack(classify, u, i)
    ensures Run(classify, Start(), u[..i + 1]).stack == CodeStack(classify, u, i + 1)
  {
    RunParts(classify, u, i);
    CodeStackNext(classify, u, i);
  }

  lemma {:induction false} CodeStackNext(classify: Classifier, u: string, i: nat)
    requires i < |u|
    ensures var stack := CodeStack(classify, u, i);
            CodeStack(classify, u, i + 1) ==
            if CodeOpens(u, i) then stack + [classify(Header(u, i))]
            else if CodeShuts(u, i) && stack != [] then stack[..|stack| - 1] else stack
  {
    var open := CodeOpen(u, i);
    if CodeOpens(u, i) {
      assert (open + [i])[..|open|] == open;
    } else if CodeShuts(u, i) && open != [] {
      assert Headed(classify, u, open)[..|open| - 1] == Headed(classify, u, open[..|open| - 1]);
    }
  }

  /** The scanner's stack and header are those of the braces in code, at every position. */
  lemma {:induction false} StackIsCodeStack(classify: Classifier, u: string, i: nat)
    requires i <= |u| && NoComment(u) && NoSeparator(u)
    ensures Run(classify, Start(), u[..i]).stack == CodeStack(classify, u, i)
    ensures Run(classify, Start(), u[..i]).header == Header(u, i)
  {
    if i == 0 {
      assert u[..0] == "";
    } else {
      StackIsCodeStack(classify, u, i - 1);
      AlikeUpTo(classify, u, i - 1);
      CommentFreeModes(u, i - 1);
      HeaderNext(classify, u, i - 1);
      StackStep(classify, u, i - 1);
    }
  }

  // ----------------------------------------------- exactly the unmatched braces in code

  /** The brace is read alike by both: in code by both, or by neither. */
  ghost predicate BraceAlike(classify: Classifier, u: string, p: nat) {
    (OpensAt(classify, u, p) <==> CodeOpens(u, p)) && (ShutsAt(classify, u, p) <==> CodeShuts(u, p))
  }

  lemma {:induction false} BracesAlike(classify: Classifier, u: string, p: nat)
    requires p < |u| && NoComment(u) && NoSeparator(u)
    ensures BraceAlike(classify, u, p)
  {
    AlikeUpTo(classify, u, p);
    CommentFreeModes(u, p);
  }

  lemma {:induction false} SameOpen(classify: Classifier, u: string, i: nat)
    requires i <= |u| && forall p :: 0 <= p < i ==> BraceAlike(classify, u, p)
    ensures OpenAt(classify, u, i) == CodeOpen(u, i)
  {
    if i > 0 {
      SameOpen(classify, u, i - 1);
      assert BraceAlike(classify, u, i - 1);
    }
  }

  lemma {:induction false} SameBalance(classify: Classifier, u: string, p: nat, q: nat)
    requires p <= q <= |u| && forall r :: 0 <= r < q ==> BraceAlike(classify, u, r)
    ensures Balance(classify, u, p, q) == CodeBalance(u, p, q)
    decreases q - p
  {
    if p < q {
      SameBalance(classify, u, p, q - 1);
      assert BraceAlike(classify, u, q - 1);
    }
  }

  lemma {:induction false} SameUnmatched(classify: Classifier, u: string, p: nat, i: nat)
    requires i <= |u| && forall r :: 0 <= r < i ==> BraceAlike(classify, u, r)
    ensures Unmatched(classify, u, p, i) <==> CodeUnmatched(u, p, i)
  {
    if p < i {
      assert BraceAlike(classify, u, p);
      forall q | p < q <= i ensures Balance(classify, u, p, q) == CodeBalance(u, p, q) {
        SameBalance(classify, u, p, q);
      }
    }
  }

  /** On comment-free text without a digit separator the scope stack at any position holds the
      classified headers of exactly the opening braces in code that closings in code have not
      caught up with. */
  lemma {:induction false} StackIsUnmatchedInCode(classify: Classifier, u: string, i: nat, p: nat)
    requires i <= |u| && NoComment(u) && NoSeparator(u)
    ensures Run(classify, Start(), u[..i]).stack == CodeStack(classify, u, i)
    ensures p in CodeOpen(u, i) <==> CodeUnmatched(u, p, i)
  {
    StackIsCodeStack(classify, u, i);
    forall r | 0 <= r < i ensures BraceAlike(classify, u, r) { BracesAlike(classify, u, r); }
    SameOpen(classify, u, i);
    SameUnmatched(classify, u, p, i);
    StackIsUnmatched(classify, u, i, p);
  }

  ghost predicate LastInCode(u: string, p: nat, i: nat) {
    CodeUnmatched(u, p, i) && forall q: nat :: CodeUnmatched(u, q, i) ==> q <= p
  }

  /** The names of braces open in code, innermost first. */
  function InnermostInCode(classify: Classifier, u: string, open: seq<nat>): seq<string>
    requires forall k :: 0 <= k < |open| ==> open[k] <= |u|
  {
    if open == [] then []
    else
      var n := |open| - 1;
      Reversed(classify(Header(u, open[n])).names) + InnermostInCode(classify, u, open[..n])
  }

  /** What an entry should say, over the braces in code alone. */
  ghost predicate DescribesCode(classify: Classifier, u: string, i: nat, info: LineInfo) {
    i <= |u| && info.chain == InnermostInCode(classify, u, CodeOpen(u, i)) &&
    (info.atDeclLevel <==>
       (forall p: nat :: !CodeUnmatched(u, p, i)) ||
       (exists p: nat :: LastInCode(u, p, i) && classify(Header(u, p)).names != [])) &&
    (info.inTemplate <==> exists p: nat :: CodeUnmatched(u, p, i) && classify(Header(u, p)).isTemplate)
  }

  lemma {:induction false} SameInnermost(classify: Classifier, u: string, open: seq<nat>)
    requires NoComment(u) && NoSeparator(u) && forall k :: 0 <= k < |open| ==> open[k] <= |u|
    ensures InnermostFirst(classify, u, open) == InnermostInCode(classify, u, open)
  {
    if open != [] {
      var n := |open| - 1;
      SameInnermost(classify, u, open[..n]);
      StackIsCodeStack(classify, u, open[n]);
    }
  }

  /** On comment-free text without a digit separator, what describes the braces that the scanner
      reads describes the braces in code. */
  lemma {:induction false} DescribedInCode(classify: Classifier, u: string, i: nat, info: LineInfo)
    requires NoComment(u) && NoSeparator(u) && Describes(classify, u, i, info)
    ensures DescribesCode(classify, u, i, info)
  {
    forall r | 0 <= r < i ensures BraceAlike(classify, u, r) { BracesAlike(classify, u, r); }
    SameOpen(classify, u, i);
    SameInnermost(classify, u, CodeOpen(u, i));
    forall p: nat ensures Unmatched(classify, u, p, i) <==> CodeUnmatched(u, p, i) {
      SameUnmatched(classify, u, p, i);
    }
    forall p: nat | p <= |u| ensures HeadAt(classify, u, p) == classify(Header(u, p)) {
      StackIsCodeStack(classify, u, p);
    }
    assert forall p: nat :: LastUnmatched(classify, u, p, i) <==> LastInCode(u, p, i);
  }

  /** A brace that matters: an opening one, or a closing one with something to close. */
  ghost predicate Counts(u: string, p: nat) {
    p < |u| && (u[p] == '{' || (u[p] == '}' && CodeOpen(u, p) != []))
  }

  ghost predicate CountedAlike(classify: Classifier, u: string) {
    forall p :: 0 <= p < |u| && Counts(u, p) ==> BraceAlike(classify, u, p)
  }

  ghost predicate OpenAlike(classify: Classifier, u: string) {
    forall i :: 0 <= i <= |u| ==> OpenAt(classify, u, i) == CodeOpen(u, i)
  }

  /** For any text at all: the scanner's open braces are those open in code, at every position,
      if and only if it reads every brace that counts as the lexer does. */
  lemma {:induction false} OpenBracesExactly(classify: Classifier, u: string)
    ensures OpenAlike(classify, u) <==> CountedAlike(classify, u)
  {
    if CountedAlike(classify, u) {
      forall i | 0 <= i <= |u| ensures OpenAt(classify, u, i) == CodeOpen(u, i) { OpenWhenAlike(classify, u, i); }
    }
    if OpenAlike(classify, u) {
      forall p | 0 <= p < |u| && Counts(u, p) ensures BraceAlike(classify, u, p) {
        assert OpenAt(classify, u, p) == CodeOpen(u, p) && OpenAt(classify, u, p + 1) == CodeOpen(u, p + 1);
        AlikeWhenOpen(classify, u, p);
      }
    }
  }

  lemma {:induction false} OpenWhenAlike(classify: Classifier, u: string, i: nat)
    requires i <= |u| && CountedAlike(classify, u)
    ensures OpenAt(classify, u, i) == CodeOpen(u, i)
  {
    if i > 0 {
      OpenWhenAlike(classify, u, i - 1);
      assert Counts(u, i - 1) ==> BraceAlike(classify, u, i - 1);
    }
  }

  lemma {:induction false} AlikeWhenOpen(classify: Classifier, u: string, p: nat)
    requires p < |u| && Counts(u, p)
    requires OpenAt(classify, u, p) == CodeOpen(u, p) && OpenAt(classify, u, p + 1) == CodeOpen(u, p + 1)
    ensures BraceAlike(classify, u, p)
  {
  }

  /** A digit separator hides the brace after it: in code there is one open, on the stack none. */
  lemma {:induction false} SeparatorHidesBrace(classify: Classifier)
    ensures NoComment("1'{") && CodeOpen("1'{", 3) == [2]
    ensures Run(classify, Start(), "1'{").stack == []
  {
    LexerSeesBrace("1'{");
    ScannerMissesBrace(classify, "1'{");
  }

  lemma {:induction false} LexerSeesBrace(u: string)
    requires u == "1'{"
    ensures NoComment(u) && CodeOpen(u, 3) == [2]
  {
    assert |u| == 3 && u[0] == '1' && u[1] == '\'' && u[2] == '{';
    assert ModeAt(u, 1) == Code;
    assert IsDigitSeparator(u, 1) by { RuleOfThree(u, 1); }
    assert ModeAt(u, 2) == Code;
    assert CodeOpen(u, 1) == [] && CodeOpen(u, 2) == [];
  }

  lemma {:induction false} ScannerMissesBrace(classify: Classifier, u: string)
    requires u == "1'{"
    ensures Run(classify, Start(), u).stack == []
  {
    assert u[..0] == "" && u[..3] == u && u[0] == '1' && u[1] == '\'' && u[2] == '{';
    RunNext(classify, Start(), u, 0);
    RunNext(classify, Start(), u, 1);
    RunParts(classify, u, 2);
  }
}
