/** What stripping does to line numbers, and when stripping twice changes nothing more. */
module CppTextLines {
  import opened LineCounts
  import opened CppText

  // --------------------------------------------------------------- line numbers

  /** Modes the lexer can be in: the two half-way modes sit on their own character. */
  predicate Reachable(t: string, i: nat, m: Mode) {
    (m.BlockOpen? ==> i < |t| && t[i] == '*') && (m.BlockClose? ==> i < |t| && t[i] == '/')
  }

  /** A newline is dropped only where nothing is kept any more. */
  lemma {:induction false} DroppedNewline(t: string, i: nat, m: Mode)
    requires i < |t| && Reachable(t, i, m) && !Keeps(t, i, m) && Keep(t, i, m) != []
    ensures t[i] != '\n' && Keep(t, i, m) == Keep(t, i + 1, Next(t, i, m))
  {
    if m == Block && !Closes(t, i) { UnclosedBlock(t, i); }
  }

  /** Every kept character stays on its line: as many newlines come before it in the
      stripped text as in the original. */
  lemma {:induction false} KeptOnItsLine(t: string, i: nat, m: Mode, k: nat)
    requires i <= |t| && Reachable(t, i, m) && k < |Keep(t, i, m)|
    ensures i <= Keep(t, i, m)[k] < |t| && k < |Stripped(t, i, m)|
    ensures LineCount(Stripped(t, i, m)[..k]) == LineCount(t[i..Keep(t, i, m)[k]])
    decreases |t| - i
  {
    KeepBounds(t, i, m);
    var n := Next(t, i, m);
    if Keeps(t, i, m) {
      if k > 0 {
        KeptOnItsLine(t, i + 1, n, k - 1);
        LineAfterKept(t, i, m, k, Keep(t, i, m)[k]);
      }
    } else {
      DroppedNewline(t, i, m);
      KeptOnItsLine(t, i + 1, n, k);
      LineAfterDropped(t, i, m, k, Keep(t, i, m)[k]);
    }
  }

  lemma {:induction false} LineAfterKept(t: string, i: nat, m: Mode, k: nat, at: nat)
    requires i < at <= |t| && Keeps(t, i, m) && 0 < k <= |Stripped(t, i, m)|
    requires k - 1 <= |Stripped(t, i + 1, Next(t, i, m))|
    requires LineCount(Stripped(t, i + 1, Next(t, i, m))[..k - 1]) == LineCount(t[i + 1..at])
    ensures LineCount(Stripped(t, i, m)[..k]) == LineCount(t[i..at])
  {
    StrippedStep(t, i, m);
    var s, rest := Stripped(t, i, m), Stripped(t, i + 1, Next(t, i, m));
    LineCountCons(t[i], rest[..k - 1], s[..k]);
    LineCountCons(t[i], t[i + 1..at], t[i..at]);
  }

  lemma {:induction false} LineAfterDropped(t: string, i: nat, m: Mode, k: nat, at: nat)
    requires i < at <= |t| && !Keeps(t, i, m) && t[i] != '\n' && k <= |Stripped(t, i, m)|
    requires k <= |Stripped(t, i + 1, Next(t, i, m))|
    requires LineCount(Stripped(t, i + 1, Next(t, i, m))[..k]) == LineCount(t[i + 1..at])
    ensures LineCount(Stripped(t, i, m)[..k]) == LineCount(t[i..at])
  {
    StrippedStep(t, i, m);
    assert Stripped(t, i, m) == Stripped(t, i + 1, Next(t, i, m));
    LineCountCons(t[i], t[i + 1..at], t[i..at]);
  }

  /** Where an unclosed block comment starts swallowing the text, or its end. */
  function SwallowedFrom(t: string, i: nat, m: Mode): (j: nat)
    requires i <= |t|
    ensures i <= j <= |t|
    decreases |t| - i
  {
    if i == |t| || (m == Block && !Closes(t, i)) then i else SwallowedFrom(t, i + 1, Next(t, i, m))
  }

  /** Exactly the newlines before an unclosed block comment survive. */
  lemma {:induction false} NewlinesSurvive(t: string, i: nat, m: Mode)
    requires i <= |t| && Reachable(t, i, m)
    ensures LineCount(Stripped(t, i, m)) == LineCount(t[i..SwallowedFrom(t, i, m)])
    decreases |t| - i
  {
    var j := SwallowedFrom(t, i, m);
    if i == |t| {
      StrippedEnd(t, m);
    } else if m == Block && !Closes(t, i) {
      UnclosedBlock(t, i);
    } else {
      NewlinesSurvive(t, i + 1, Next(t, i, m));
      LineCountCons(t[i], t[i + 1..j], t[i..j]);
      SurvivesHere(t, i, m);
    }
  }

  lemma {:induction false} SurvivesHere(t: string, i: nat, m: Mode)
    requires i < |t| && Reachable(t, i, m) && !(m == Block && !Closes(t, i))
    ensures LineCount(Stripped(t, i, m)) ==
            (if t[i] == '\n' then 1 else 0) + LineCount(Stripped(t, i + 1, Next(t, i, m)))
  {
    var rest := Stripped(t, i + 1, Next(t, i, m));
    if Keeps(t, i, m) {
      StrippedStep(t, i, m);
      LineCountCons(t[i], rest, Stripped(t, i, m));
    } else {
      StrippedSkip(t, i, m);
    }
  }

  /** The newline count is unchanged exactly when no unclosed block comment swallows one. */
  lemma NewlineCountKept(t: string)
    ensures LineCount(Stripped(t, 0, Code)) == LineCount(t)
       <==> LineCount(t[SwallowedFrom(t, 0, Code)..]) == 0
  {
    var j := SwallowedFrom(t, 0, Code);
    NewlinesSurvive(t, 0, Code);
    LineCountSplit(t[..j], t[j..]);
    assert t == t[..j] + t[j..];
  }

  // -------------------------------------------------------------- stripping twice

  /** The lexer's mode when it is about to read position i. */
  function ModeAt(t: string, i: nat): Mode
    requires i <= |t|
  {
    if i == 0 then Code else Next(t, i - 1, ModeAt(t, i - 1))
  }

  /** The mode in which the second pass reads what the first one kept. */
  function Again(m: Mode): Mode {
    if m.Quoted? then m else Code
  }

  /** A quote that the first pass reads in code. */
  predicate CodeQuote(t: string, i: nat) {
    i < |t| && t[i] == '\'' && ModeAt(t, i) == Code
  }

  /** out[k..] is what the first pass keeps from position i on. */
  ghost predicate Aligned(t: string, i: nat, out: string, k: nat) {
    i <= |t| && k <= |out| && out[k..] == Stripped(t, i, ModeAt(t, i))
  }

  /** From here on, both passes decide every code quote alike. */
  ghost predicate QuotesAgree(t: string, i: nat, out: string, k: nat)
    requires i <= |t|
    decreases |t| - i
  {
    if i == |t| then true
    else if Keeps(t, i, ModeAt(t, i)) then
      (CodeQuote(t, i) && k <= |out| ==> IsDigitSeparator(t, i) == IsDigitSeparator(out, k)) &&
      QuotesAgree(t, i + 1, out, k + 1)
    else QuotesAgree(t, i + 1, out, k)
  }

  lemma {:induction false} AlignedNext(t: string, i: nat, out: string, k: nat)
    requires i < |t| && Aligned(t, i, out, k)
    ensures var kept := Keeps(t, i, ModeAt(t, i));
            (kept ==> k < |out| && out[k] == t[i]) && Aligned(t, i + 1, out, if kept then k + 1 else k)
  {
    StrippedStep(t, i, ModeAt(t, i));
    if Keeps(t, i, ModeAt(t, i)) {
      assert out[k] == out[k..][0] == t[i];
      assert out[k + 1..] == out[k..][1..];
    }
  }

  /** A kept code character is not a comment start for the second pass either: a slash
      is followed by the same character as before. */
  lemma {:induction false} NoNewCommentStart(t: string, i: nat, out: string, k: nat)
    requires i < |t| && ModeAt(t, i) == Code && Aligned(t, i, out, k) && !CommentStart(t, i)
    ensures !CommentStart(out, k)
  {
    AlignedNext(t, i, out, k);
    if t[i] == '/' && i + 1 < |t| { AlignedNext(t, i + 1, out, k + 1); }
    if t[i] == '/' && i + 1 == |t| { StrippedEnd(t, ModeAt(t, i + 1)); }
  }

  /** The second pass keeps what the first one kept and stays in step with it. */
  lemma {:induction false} SecondPassStep(t: string, i: nat, out: string, k: nat)
    requires i < |t| && Aligned(t, i, out, k) && QuotesAgree(t, i, out, k) && Keeps(t, i, ModeAt(t, i))
    ensures k < |out| && Keeps(out, k, Again(ModeAt(t, i)))
    ensures Next(out, k, Again(ModeAt(t, i))) == Again(ModeAt(t, i + 1))
  {
    var m := ModeAt(t, i);
    AlignedNext(t, i, out, k);
    if m == Code {
      NoNewCommentStart(t, i, out, k);
      assert t[i] == '\'' ==> CodeQuote(t, i);
    }
  }

  /** All positions from k to the end. */
  function Rest(k: nat, n: nat): seq<nat>
    requires k <= n
    decreases n - k
  {
    if k == n then [] else [k] + Rest(k + 1, n)
  }

  lemma {:induction false} SecondPass(t: string, i: nat, out: string, k: nat)
    requires Aligned(t, i, out, k) && QuotesAgree(t, i, out, k)
    ensures Keep(out, k, Again(ModeAt(t, i))) == Rest(k, |out|)
    decreases |t| - i
  {
    if i == |t| {
      StrippedEnd(t, ModeAt(t, i));
    } else {
      AlignedNext(t, i, out, k);
      if Keeps(t, i, ModeAt(t, i)) {
        SecondPassStep(t, i, out, k);
        SecondPass(t, i + 1, out, k + 1);
      } else {
        SecondPass(t, i + 1, out, k);
      }
    }
  }

  lemma {:induction false} SelectRest(s: string, k: nat)
    requires k <= |s|
    ensures forall r :: 0 <= r < |Rest(k, |s|)| ==> Rest(k, |s|)[r] < |s|
    ensures Select(s, Rest(k, |s|)) == s[k..]
    decreases |s| - k
  {
    if k < |s| {
      SelectRest(s, k + 1);
      assert Rest(k, |s|)[1..] == Rest(k + 1, |s|);
    }
  }

  /** Stripping the stripped text changes nothing, as long as both passes decide each
      code quote (digit separator or literal) alike. */
  lemma StrippingTwice(t: string)
    requires QuotesAgree(t, 0, Stripped(t, 0, Code), 0)
    ensures Stripped(Stripped(t, 0, Code), 0, Code) == Stripped(t, 0, Code)
  {
    var out := Stripped(t, 0, Code);
    SecondPass(t, 0, out, 0);
    SelectRest(out, 0);
  }

  // ------------------------------------------------ exactly when it changes nothing

  /** No comment starts in code, as the lexer reads the text. */
  ghost predicate NoComment(t: string) {
    forall i :: 0 <= i < |t| && ModeAt(t, i) == Code ==> !CommentStart(t, i)
  }

  lemma {:induction false} OnlyCodeAndLiterals(t: string, i: nat)
    requires i <= |t| && NoComment(t)
    ensures ModeAt(t, i) == Code || ModeAt(t, i).Quoted?
  {
    if i > 0 { OnlyCodeAndLiterals(t, i - 1); }
  }

  lemma {:induction false} NothingDropped(t: string, i: nat)
    requires i <= |t| && NoComment(t)
    ensures Keep(t, i, ModeAt(t, i)) == Rest(i, |t|)
    decreases |t| - i
  {
    if i < |t| {
      OnlyCodeAndLiterals(t, i);
      NothingDropped(t, i + 1);
    }
  }

  lemma {:induction false} KeepLength(t: string, i: nat, m: Mode)
    requires i <= |t|
    ensures |Keep(t, i, m)| <= |t| - i
    decreases |t| - i
  {
    if i < |t| { KeepLength(t, i + 1, Next(t, i, m)); }
  }

  lemma {:induction false} SomethingDropped(t: string, i: nat, j: nat)
    requires i <= j < |t| && !Keeps(t, j, ModeAt(t, j))
    ensures |Keep(t, i, ModeAt(t, i))| < |t| - i
    decreases j - i
  {
    if i < j {
      SomethingDropped(t, i + 1, j);
    } else {
      KeepLength(t, i + 1, ModeAt(t, i + 1));
    }
  }

  /** Stripping changes nothing exactly in a text without a comment start in code. */
  lemma {:induction false} UnchangedExactly(u: string)
    ensures Stripped(u, 0, Code) == u <==> NoComment(u)
  {
    if NoComment(u) {
      NothingDropped(u, 0);
      SelectRest(u, 0);
    } else {
      var i :| 0 <= i < |u| && ModeAt(u, i) == Code && CommentStart(u, i);
      SomethingDropped(u, 0, i);
    }
  }

  /** So stripping twice is stripping once exactly when the once-stripped text, which the
      caller of the second pass holds, has no comment start in code. */
  lemma {:induction false} StrippingTwiceExactly(t: string)
    ensures var once := Stripped(t, 0, Code);
            Stripped(once, 0, Code) == once <==> NoComment(once)
  {
    UnchangedExactly(Stripped(t, 0, Code));
  }

  // ------------------------------------------- a condition on the text alone

  /** No block comment closes within the three characters before a code quote. */
  ghost predicate NoCloseNearQuote(t: string) {
    forall i: nat, j: nat :: CodeQuote(t, i) && ClosesAt(t, j) ==> !(j < i <= j + 3)
  }

  predicate ClosesAt(t: string, i: nat) {
    i <= |t| && ModeAt(t, i) == BlockClose
  }

  /** How many characters right before i are all kept. */
  function KeptRun(t: string, i: nat): (r: nat)
    requires i <= |t|
    ensures r <= i
  {
    if i > 0 && Keeps(t, i - 1, ModeAt(t, i - 1)) then KeptRun(t, i - 1) + 1 else 0
  }

  /** The second pass sees the same characters behind it, as far as they were kept. */
  ghost predicate SameBehind(t: string, i: nat, out: string, k: nat) {
    i <= |t| && k <= |out| && KeptRun(t, i) <= k <= i &&
    out[k - KeptRun(t, i)..k] == t[i - KeptRun(t, i)..i]
  }

  lemma {:induction false} SameBehindNext(t: string, i: nat, out: string, k: nat)
    requires i < |t| && SameBehind(t, i, out, k)
    requires Keeps(t, i, ModeAt(t, i)) ==> k < |out| && out[k] == t[i]
    ensures SameBehind(t, i + 1, out, if Keeps(t, i, ModeAt(t, i)) then k + 1 else k)
  {
    if Keeps(t, i, ModeAt(t, i)) {
      var r := KeptRun(t, i);
      assert out[k - r..k + 1] == out[k - r..k] + [out[k]];
      assert t[i - r..i + 1] == t[i - r..i] + [t[i]];
    }
  }

  lemma {:induction false} QuoteModes(t: string, i: nat)
    requires i <= |t|
    ensures ModeAt(t, i).Quoted? ==> ModeAt(t, i).quote == '"' || ModeAt(t, i).quote == '\''
  {
    if i > 0 { QuoteModes(t, i - 1); }
  }

  /** Code is entered from a kept character or from the end of a block comment; an
      alphanumeric one was read as code itself. */
  lemma {:induction false} BeforeCode(t: string, i: nat)
    requires 0 < i <= |t| && ModeAt(t, i) == Code && !ClosesAt(t, i - 1)
    ensures Keeps(t, i - 1, ModeAt(t, i - 1)) && KeptRun(t, i) == KeptRun(t, i - 1) + 1
    ensures IsAlnum(t[i - 1]) ==> ModeAt(t, i - 1) == Code
  {
    QuoteModes(t, i - 1);
  }

  /** How far behind it the quote rule has to look. */
  function LookBehind(t: string, i: nat): nat
    requires i <= |t|
  {
    if i == 0 then 0
    else if i == 1 || !IsAlnum(t[i - 1]) then 1
    else if i == 2 || t[i - 1] != '8' || t[i - 2] != 'u' then 2
    else 3
  }

  /** The character d places behind i, or a blank before the start. */
  function Behind(t: string, i: nat, d: nat): char
    requires i <= |t| && d >= 1
  {
    if d <= i then t[i - d] else ' '
  }

  predicate Identifier(c: char) {
    IsAlnum(c) || c == '_'
  }

  /** The quote rule as a function of the last three characters. */
  predicate Rule(a: char, b: char, c: char) {
    (IsAlnum(a) || a == '\'') &&
    !(IsPrefixLetter(a) && !Identifier(b)) &&
    !(a == '8' && b == 'u' && !Identifier(c))
  }

  lemma {:induction false} RuleOfThree(t: string, i: nat)
    requires i <= |t|
    ensures IsDigitSeparator(t, i) == Rule(Behind(t, i, 1), Behind(t, i, 2), Behind(t, i, 3))
  {
    PrefixRule(t, i);
  }

  lemma {:induction false} PrefixRule(t: string, i: nat)
    requires i <= |t|
    ensures CharLiteralPrefixPrecedes(t, i) <==>
            (IsPrefixLetter(Behind(t, i, 1)) && !Identifier(Behind(t, i, 2))) ||
            (Behind(t, i, 1) == '8' && Behind(t, i, 2) == 'u' && !Identifier(Behind(t, i, 3)))
  {
    forall k | 0 <= k < |PREFIXES| ensures PrefixAt(t, i, PREFIXES[k]) == Spelled(t, i, k) {
      PrefixSpelled(t, i, k);
    }
    LettersListed(Behind(t, i, 1));
  }

  predicate IsPrefixLetter(c: char) {
    c == 'u' || c == 'U' || c == 'L'
  }

  /** The k-th prefix stands right before i, as a token of its own. */
  predicate Spelled(t: string, i: nat, k: nat)
    requires i <= |t| && k < |PREFIXES|
  {
    if |PREFIXES[k]| == 2
    then Behind(t, i, 1) == '8' && Behind(t, i, 2) == 'u' && !Identifier(Behind(t, i, 3))
    else |PREFIXES[k]| == 1 && Behind(t, i, 1) == PREFIXES[k][0] && !Identifier(Behind(t, i, 2))
  }

  lemma {:induction false} PrefixSpelled(t: string, i: nat, k: nat)
    requires i <= |t| && k < |PREFIXES|
    ensures PrefixAt(t, i, PREFIXES[k]) == Spelled(t, i, k)
  {
    var prefix := PREFIXES[k];
    PrefixShape(k);
    if |prefix| == 1 { OneLetter(t, i, prefix); } else { TwoLetters(t, i, prefix); }
  }

  lemma PrefixShape(k: nat)
    requires k < |PREFIXES|
    ensures |PREFIXES[k]| == 1 || (|PREFIXES[k]| == 2 && PREFIXES[k][0] == 'u' && PREFIXES[k][1] == '8')
  {
  }

  lemma LettersListed(c: char)
    ensures IsPrefixLetter(c) <==> exists k :: 0 <= k < |PREFIXES| && |PREFIXES[k]| == 1 && PREFIXES[k][0] == c
    ensures |PREFIXES| == 4 && |PREFIXES[0]| == 2
  {
    assert PREFIXES[1][0] == 'u' && PREFIXES[2][0] == 'U' && PREFIXES[3][0] == 'L';
  }

  /** The word right before i, from a character that continues no other one. */
  predicate TokenBefore(t: string, i: nat, word: string)
    requires i <= |t|
  {
    |word| <= i && t[i - |word|..i] == word && !Identifier(Behind(t, i, |word| + 1))
  }

  predicate LiteralPrefixBefore(t: string, i: nat)
    requires i <= |t|
  {
    TokenBefore(t, i, "u8") || TokenBefore(t, i, "u") || TokenBefore(t, i, "U") || TokenBefore(t, i, "L")
  }

  /** A single quote in code separates digits exactly when it follows an alphanumeric or a quote
      and none of the four literal prefixes as a word of its own; otherwise it opens a literal. */
  lemma {:induction false} QuoteOpensExactly(t: string, i: nat)
    requires i < |t| && t[i] == '\'' && ModeAt(t, i) == Code
    ensures var separates := i > 0 && (IsAlnum(t[i - 1]) || t[i - 1] == '\'') && !LiteralPrefixBefore(t, i);
            ModeAt(t, i + 1) == if separates then Code else Quoted('\'', false)
  {
    PrefixRule(t, i);
    TokenOfTwo(t, i);
    TokenOfOne(t, i, 'u');
    TokenOfOne(t, i, 'U');
    TokenOfOne(t, i, 'L');
  }

  lemma TokenOfOne(t: string, i: nat, c: char)
    requires i <= |t| && IsPrefixLetter(c)
    ensures TokenBefore(t, i, [c]) <==> Behind(t, i, 1) == c && !Identifier(Behind(t, i, 2))
  {
    if i >= 1 { assert t[i - 1..i] == [t[i - 1]]; }
  }

  lemma TokenOfTwo(t: string, i: nat)
    requires i <= |t|
    ensures TokenBefore(t, i, "u8") <==>
            Behind(t, i, 1) == '8' && Behind(t, i, 2) == 'u' && !Identifier(Behind(t, i, 3))
  {
    if i >= 2 { assert t[i - 2..i] == [t[i - 2], t[i - 1]]; }
  }

  /** Texts that agree that far decide the quote alike. */
  lemma {:induction false} LookBehindDecides(t: string, i: nat, out: string, k: nat)
    requires i <= |t| && k <= |out| && LookBehind(t, i) <= k <= i
    requires i <= 2 && LookBehind(t, i) == i ==> k == i
    requires LookBehind(t, i) >= 1 ==> out[k - 1] == t[i - 1]
    requires LookBehind(t, i) >= 2 ==> out[k - 2] == t[i - 2]
    requires LookBehind(t, i) >= 3 ==> out[k - 3] == t[i - 3]
    ensures IsDigitSeparator(t, i) == IsDigitSeparator(out, k)
  {
    RuleOfThree(t, i);
    RuleOfThree(out, k);
  }

  lemma OneLetter(t: string, i: nat, prefix: string)
    requires i <= |t| && |prefix| == 1
    ensures PrefixAt(t, i, prefix) <==> i >= 1 && t[i - 1] == prefix[0] && !IdentifierBefore(t, i - 1)
  {
    if i >= 1 { assert t[i - 1..i] == [t[i - 1]]; }
  }

  lemma TwoLetters(t: string, i: nat, prefix: string)
    requires i <= |t| && |prefix| == 2
    ensures PrefixAt(t, i, prefix) <==>
            i >= 2 && t[i - 2] == prefix[0] && t[i - 1] == prefix[1] && !IdentifierBefore(t, i - 2)
  {
    if i >= 2 { assert t[i - 2..i] == [t[i - 2], t[i - 1]]; }
  }

  /** Under the condition, all that the rule looks at was kept. */
  lemma {:induction false} LookBehindKept(t: string, i: nat)
    requires NoCloseNearQuote(t) && CodeQuote(t, i)
    ensures LookBehind(t, i) <= KeptRun(t, i)
  {
    var n := LookBehind(t, i);
    if n >= 1 {
      BeforeCode(t, i);
      if n >= 2 {
        BeforeCode(t, i - 1);
        if n >= 3 { BeforeCode(t, i - 2); }
      }
    }
  }

  lemma {:induction false} CharBehind(t: string, i: nat, out: string, k: nat, d: nat)
    requires SameBehind(t, i, out, k) && 1 <= d <= KeptRun(t, i)
    ensures out[k - d] == t[i - d]
  {
    var r := KeptRun(t, i);
    assert out[k - d] == out[k - r..k][r - d] && t[i - d] == t[i - r..i][r - d];
  }

  lemma {:induction false} QuoteDecidedAlike(t: string, i: nat, out: string, k: nat)
    requires NoCloseNearQuote(t) && CodeQuote(t, i) && SameBehind(t, i, out, k)
    ensures IsDigitSeparator(t, i) == IsDigitSeparator(out, k)
  {
    LookBehindKept(t, i);
    var n := LookBehind(t, i);
    if n >= 1 { CharBehind(t, i, out, k, 1); }
    if n >= 2 { CharBehind(t, i, out, k, 2); }
    if n >= 3 { CharBehind(t, i, out, k, 3); }
    LookBehindDecides(t, i, out, k);
  }

  lemma {:induction false} QuotesAgreeFrom(t: string, i: nat, out: string, k: nat)
    requires NoCloseNearQuote(t) && Aligned(t, i, out, k) && SameBehind(t, i, out, k)
    ensures QuotesAgree(t, i, out, k)
    decreases |t| - i
  {
    if i < |t| {
      AlignedNext(t, i, out, k);
      SameBehindNext(t, i, out, k);
      if CodeQuote(t, i) { QuoteDecidedAlike(t, i, out, k); }
      QuotesAgreeFrom(t, i + 1, out, if Keeps(t, i, ModeAt(t, i)) then k + 1 else k);
    }
  }

  /** Stripping is idempotent on every text in which no block comment closes within the
      three characters before a code quote. */
  lemma StrippingIsIdempotent(t: string)
    requires NoCloseNearQuote(t)
    ensures Stripped(Stripped(t, 0, Code), 0, Code) == Stripped(t, 0, Code)
  {
    QuotesAgreeFrom(t, 0, Stripped(t, 0, Code), 0);
    StrippingTwice(t);
  }

  /** Without the condition it is not: removing the comment puts the quote behind the
      digit, where it reads as a separator and no longer protects the slashes. */
  lemma {:induction false} StrippingTwiceCanDropMore()
    ensures Stripped("1/**/'//'", 0, Code) == "1'//'"
    ensures Stripped("1'//'", 0, Code) == "1'"
  {
    OnceThrough("1/**/'//'");
    TwiceThrough("1'//'");
  }

  lemma {:induction false} ProtectedSlashes(t: string, i: nat, q: Mode)
    requires i + 3 == |t| && t[i..] == "//'" && q == Quoted('\'', false)
    ensures Stripped(t, i, q) == "//'"
  {
    assert t[i] == t[i..][0] && t[i + 1] == t[i..][1] && t[i + 2] == t[i..][2];
    StrippedEnd(t, Code);
    assert Stripped(t, i + 2, q) == "'" by { StrippedStep(t, i + 2, q); }
    assert Stripped(t, i + 1, q) == "/'" by { StrippedStep(t, i + 1, q); }
    StrippedStep(t, i, q);
  }

  /** An empty block comment leaves nothing. */
  lemma {:induction false} EmptyComment(t: string, i: nat)
    requires i + 3 < |t| && Pair(t, i, '/', '*') && Pair(t, i + 2, '*', '/')
    ensures Stripped(t, i, Code) == Stripped(t, i + 4, Code)
  {
    TakeBlockComment(t, i, i + 2);
    assert t[i + 2..i + 2] == "" && Newlines(0) == "";
  }

  /** A character literal that holds two slashes, after a slash. */
  lemma {:induction false} SlashLiteral(t: string, i: nat)
    requires 0 < i && i + 4 == |t| && t[i..] == "'//'" && t[i - 1] == '/'
    ensures Stripped(t, i, Code) == "'//'"
  {
    assert t[i] == t[i..][0] && t[i + 1..] == t[i..][1..];
    assert !IsDigitSeparator(t, i);
    ProtectedSlashes(t, i + 1, Quoted('\'', false));
    StrippedStep(t, i, Code);
  }

  lemma {:induction false} OnceThrough(t: string)
    requires t == "1/**/'//'"
    ensures Stripped(t, 0, Code) == "1'//'"
  {
    assert t[5..] == "'//'" && t[4] == '/';
    SlashLiteral(t, 5);
    EmptyComment(t, 1);
    StrippedStep(t, 0, Code);
  }

  lemma {:induction false} TwiceThrough(u: string)
    requires u == "1'//'"
    ensures Stripped(u, 0, Code) == "1'"
  {
    assert Stripped(u, 2, Code) == "" by {
      StrippedEnd(u, Line);
      LineJump(u, 3, 5);
      StrippedSkip(u, 2, Code);
    }
    assert Stripped(u, 1, Code) == "'" by {
      RuleOfThree(u, 1);
      StrippedStep(u, 1, Code);
    }
    StrippedStep(u, 0, Code);
  }
}
