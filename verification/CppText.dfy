/** The comment stripper of tools/cpp_text.py: a scanner that jumps from token to token,
    proved to keep exactly what a one-character-at-a-time lexer keeps. */
module CppText {
  import opened LineCounts

  // ------------------------------------------------------------ the quote rule

  predicate IsAlnum(c: char) {
    '0' <= c <= '9' || 'a' <= c <= 'z' || 'A' <= c <= 'Z'
  }

  /** The character before `i` continues an identifier. */
  predicate IdentifierBefore(t: string, i: int) {
    0 < i <= |t| && (IsAlnum(t[i - 1]) || t[i - 1] == '_')
  }

  const PREFIXES: seq<string> := ["u8", "u", "U", "L"]

  /** `prefix` ends right before `i`, as a token of its own. */
  predicate PrefixAt(t: string, i: nat, prefix: string)
    requires i <= |t|
  {
    |prefix| <= i && t[i - |prefix|..i] == prefix && !IdentifierBefore(t, i - |prefix|)
  }

  /** `_char_literal_prefix_precedes`. */
  predicate CharLiteralPrefixPrecedes(t: string, i: nat)
    requires i <= |t|
  {
    exists k :: 0 <= k < |PREFIXES| && PrefixAt(t, i, PREFIXES[k])
  }

  /** `_is_digit_separator_quote`. */
  predicate IsDigitSeparator(t: string, i: nat)
    requires i <= |t|
  {
    !CharLiteralPrefixPrecedes(t, i) && i > 0 && (IsAlnum(t[i - 1]) || t[i - 1] == '\'')
  }

  // ----------------------------------------------------- the one-character lexer

  /** What the character about to be read belongs to.  `BlockOpen` is the `*` of an
      opening and `BlockClose` the `/` of a closing, so that neither is read twice. */
  datatype Mode = Code | Quoted(quote: char, escaped: bool) | Line | BlockOpen | Block | BlockClose

  predicate Pair(t: string, i: nat, a: char, b: char) {
    i + 1 < |t| && t[i] == a && t[i + 1] == b
  }

  predicate CommentStart(t: string, i: nat) {
    Pair(t, i, '/', '/') || Pair(t, i, '/', '*')
  }

  /** A block comment running at `i` is closed somewhere. */
  predicate Closes(t: string, i: nat)
    decreases |t| - i
  {
    i < |t| && (Pair(t, i, '*', '/') || Closes(t, i + 1))
  }

  function Next(t: string, i: nat, m: Mode): Mode
    requires i < |t|
  {
    var c := t[i];
    match m
    case Code =>
      if Pair(t, i, '/', '/') then Line
      else if Pair(t, i, '/', '*') then BlockOpen
      else if c == '\'' && IsDigitSeparator(t, i) then Code
      else if c == '"' || c == '\'' then Quoted(c, false)
      else Code
    case Quoted(q, escaped) =>
      if escaped then Quoted(q, false)
      else if c == '\\' then Quoted(q, true)
      else if c == q then Code
      else m
    case Line => if c == '\n' then Code else Line
    case BlockOpen => Block
    case Block => if Pair(t, i, '*', '/') then BlockClose else Block
    case BlockClose => Code
  }

  /** Code and literals are kept; of comments only the newlines, and those of a block
      comment only when it is closed. */
  predicate Keeps(t: string, i: nat, m: Mode)
    requires i < |t|
  {
    match m
    case Code => !CommentStart(t, i)
    case Quoted(_, _) => true
    case Line => t[i] == '\n'
    case Block => t[i] == '\n' && Closes(t, i)
    case _ => false
  }

  /** The positions kept when reading from `i` in mode `m`. */
  function Keep(t: string, i: nat, m: Mode): seq<nat>
    requires i <= |t|
    decreases |t| - i
  {
    if i == |t| then []
    else (if Keeps(t, i, m) then [i] else []) + Keep(t, i + 1, Next(t, i, m))
  }

  /** The characters at some positions. */
  function Select(t: string, kept: seq<nat>): (s: string)
    requires forall k :: 0 <= k < |kept| ==> kept[k] < |t|
    ensures |s| == |kept| && forall k {:trigger s[k]} :: 0 <= k < |kept| ==> s[k] == t[kept[k]]
  {
    if kept == [] then "" else [t[kept[0]]] + Select(t, kept[1..])
  }

  /** Kept positions lie between the start and the end ... */
  lemma {:induction false} KeepBounds(t: string, i: nat, m: Mode)
    requires i <= |t|
    ensures forall k :: 0 <= k < |Keep(t, i, m)| ==> i <= Keep(t, i, m)[k] < |t|
    decreases |t| - i
  {
    if i < |t| { KeepBounds(t, i + 1, Next(t, i, m)); }
  }

  /** ... and are in order: what is kept is a subsequence of the text. */
  lemma {:induction false} KeepOrdered(t: string, i: nat, m: Mode)
    requires i <= |t|
    ensures forall j, k :: 0 <= j < k < |Keep(t, i, m)| ==> Keep(t, i, m)[j] < Keep(t, i, m)[k]
    decreases |t| - i
  {
    if i < |t| {
      KeepBounds(t, i + 1, Next(t, i, m));
      KeepOrdered(t, i + 1, Next(t, i, m));
    }
  }

  /** The text from `i` on with its comments stripped. */
  function Stripped(t: string, i: nat, m: Mode): string
    requires i <= |t|
  {
    KeepBounds(t, i, m);
    Select(t, Keep(t, i, m))
  }

  lemma {:induction false} StrippedStep(t: string, i: nat, m: Mode)
    requires i < |t|
    ensures Stripped(t, i, m) == (if Keeps(t, i, m) then [t[i]] else "") + Stripped(t, i + 1, Next(t, i, m))
  {
    KeepBounds(t, i, m);
    KeepBounds(t, i + 1, Next(t, i, m));
    var rest := Keep(t, i + 1, Next(t, i, m));
    if Keeps(t, i, m) {
      assert Keep(t, i, m)[1..] == rest;
    } else {
      assert Keep(t, i, m) == rest;
    }
  }

  lemma {:induction false} StrippedSkip(t: string, i: nat, m: Mode)
    requires i < |t| && !Keeps(t, i, m)
    ensures Stripped(t, i, m) == Stripped(t, i + 1, Next(t, i, m))
  {
    StrippedStep(t, i, m);
  }

  // ----------------------------------------------------------------- the jumps

  predicate NoNewline(t: string, i: nat, j: nat)
    requires i <= j <= |t|
  {
    forall k :: i <= k < j ==> t[k] != '\n'
  }

  predicate NoClose(t: string, i: nat, j: nat) {
    forall k: nat {:trigger Pair(t, k, '*', '/')} :: i <= k < j ==> !Pair(t, k, '*', '/')
  }

  /** A line comment is dropped up to its newline. */
  lemma {:induction false} LineJump(t: string, i: nat, j: nat)
    requires i <= j <= |t| && NoNewline(t, i, j)
    ensures Stripped(t, i, Line) == Stripped(t, j, Line)
    decreases j - i
  {
    if i < j {
      StrippedSkip(t, i, Line);
      LineJump(t, i + 1, j);
    }
  }

  function Newlines(n: nat): string {
    if n == 0 then "" else ['\n'] + Newlines(n - 1)
  }

  lemma {:induction false} ClosesBefore(t: string, i: nat, j: nat)
    requires i <= j < |t| && Pair(t, j, '*', '/')
    ensures Closes(t, i)
    decreases j - i
  {
    if i < j { ClosesBefore(t, i + 1, j); }
  }

  /** A closed block comment leaves just its newlines. */
  lemma {:induction false} BlockJump(t: string, i: nat, j: nat)
    requires i <= j && Pair(t, j, '*', '/') && NoClose(t, i, j)
    ensures Stripped(t, i, Block) == Newlines(LineCount(t[i..j])) + Stripped(t, j + 2, Code)
    decreases j - i
  {
    if i == j {
      BlockEnds(t, j);
    } else {
      ClosesBefore(t, i, j);
      BlockJump(t, i + 1, j);
      LineCountCons(t[i], t[i + 1..j], t[i..j]);
      BlockInside(t, i, LineCount(t[i + 1..j]), LineCount(t[i..j]), Stripped(t, j + 2, Code));
    }
  }

  lemma {:induction false} BlockEnds(t: string, j: nat)
    requires Pair(t, j, '*', '/')
    ensures Stripped(t, j, Block) == Newlines(0) + Stripped(t, j + 2, Code)
  {
    StrippedStep(t, j, Block);
    StrippedStep(t, j + 1, BlockClose);
  }

  lemma {:induction false} BlockInside(t: string, i: nat, n: nat, more: nat, rest: string)
    requires i < |t| && !Pair(t, i, '*', '/') && Closes(t, i) && more == n + if t[i] == '\n' then 1 else 0
    requires Stripped(t, i + 1, Block) == Newlines(n) + rest
    ensures Stripped(t, i, Block) == Newlines(more) + rest
  {
    StrippedStep(t, i, Block);
  }

  lemma {:induction false} NeverCloses(t: string, i: nat)
    requires NoClose(t, i, |t|)
    ensures !Closes(t, i)
    decreases |t| - i
  {
    if i < |t| { NeverCloses(t, i + 1); }
  }

  /** An unclosed one leaves nothing. */
  lemma {:induction false} UnclosedBlock(t: string, i: nat)
    requires i <= |t| && !Closes(t, i)
    ensures Keep(t, i, Block) == []
    decreases |t| - i
  {
    if i < |t| { UnclosedBlock(t, i + 1); }
  }

  // ---------------------------------------------------------------- the scanner

  /** `text.find("\n", i)`: the first newline at or after i, or the length. */
  method FindNewline(t: string, i: nat) returns (j: nat)
    requires i <= |t|
    ensures i <= j <= |t| && NoNewline(t, i, j)
    ensures j < |t| ==> t[j] == '\n'
  {
    j := i;
    while j < |t| && t[j] != '\n'
      invariant i <= j <= |t| && NoNewline(t, i, j)
    {
      j := j + 1;
    }
  }

  /** The find for a block comment's end: the first closing at or after i, or the length. */
  method FindClose(t: string, i: nat) returns (j: nat)
    requires i <= |t|
    ensures i <= j <= |t| && NoClose(t, i, j)
    ensures j < |t| ==> Pair(t, j, '*', '/')
  {
    j := i;
    while j < |t| && !Pair(t, j, '*', '/')
      invariant i <= j <= |t| && NoClose(t, i, j)
    {
      j := j + 1;
    }
  }

  /** `out` holds what is kept before `i`, with the lexer in mode `m` there. */
  ghost predicate Holds(t: string, start: nat, first: Mode, out: string, i: nat, m: Mode)
    requires start <= |t| && i <= |t|
  {
    out + Stripped(t, i, m) == Stripped(t, start, first)
  }

  lemma {:induction false} Extend(t: string, start: nat, first: Mode, out: string, i: nat, m: Mode,
                                  piece: string, j: nat, m': Mode)
    requires start <= |t| && i <= |t| && j <= |t|
    requires Holds(t, start, first, out, i, m) && Stripped(t, i, m) == piece + Stripped(t, j, m')
    ensures Holds(t, start, first, out + piece, j, m')
  {
    assert out + (piece + Stripped(t, j, m')) == out + piece + Stripped(t, j, m');
  }

  /** One or two characters of a literal: an escape takes the next one with it. */
  lemma {:induction false} LiteralStep(t: string, i: nat, q: char, j: nat)
    requires i < j <= |t| && j == (if t[i] == '\\' && i + 1 < |t| then i + 2 else i + 1)
    ensures var m := if t[i] == '\\' && i + 1 == |t| then Quoted(q, true)
                     else if t[i] != '\\' && t[i] == q then Code else Quoted(q, false);
            Stripped(t, i, Quoted(q, false)) == t[i..j] + Stripped(t, j, m)
  {
    StrippedStep(t, i, Quoted(q, false));
    if j == i + 2 {
      StrippedStep(t, i + 1, Quoted(q, true));
      Regroup([t[i]], [t[i + 1]], Stripped(t, j, Quoted(q, false)), t[i..j]);
    } else {
      assert t[i..j] == [t[i]];
    }
  }

  lemma Regroup(a: string, b: string, c: string, ab: string)
    requires ab == a + b
    ensures a + (b + c) == ab + c
  {
  }

  lemma StrippedEnd(t: string, m: Mode)
    ensures Stripped(t, |t|, m) == ""
  {
  }

  /** Where the literal whose body starts at i ends (past its closing quote, or the end). */
  method SkipLiteral(t: string, i: nat, q: char) returns (j: nat)
    requires i <= |t|
    ensures i <= j <= |t| && Holds(t, i, Quoted(q, false), t[i..j], j, Code)
  {
    j := i;
    while j < |t|
      invariant i <= j <= |t|
      invariant Holds(t, i, Quoted(q, false), t[i..j], j, Quoted(q, false))
    {
      var k := if t[j] == '\\' && j + 1 < |t| then j + 2 else j + 1;
      LiteralStep(t, j, q, k);
      ghost var m := if t[j] == '\\' && j + 1 == |t| then Quoted(q, true)
                     else if t[j] != '\\' && t[j] == q then Code else Quoted(q, false);
      Extend(t, i, Quoted(q, false), t[i..j], j, Quoted(q, false), t[j..k], k, m);
      assert t[i..k] == t[i..j] + t[j..k];
      var closing := t[j] != '\\' && t[j] == q;
      j := k;
      if closing {
        return;
      }
      if j == |t| { StrippedEnd(t, m); StrippedEnd(t, Quoted(q, false)); }
    }
    StrippedEnd(t, Quoted(q, false));
    StrippedEnd(t, Code);
  }

  // -- what each branch of the scanner takes off the front

  lemma {:induction false} TakeLineComment(t: string, i: nat, j: nat)
    requires Pair(t, i, '/', '/') && i < j <= |t| && NoNewline(t, i, j) && (j < |t| ==> t[j] == '\n')
    ensures j == |t| ==> Stripped(t, i, Code) == ""
    ensures j < |t| ==> Stripped(t, i, Code) == "\n" + Stripped(t, j + 1, Code)
  {
    StrippedStep(t, i, Code);
    LineJump(t, i + 1, j);
    if j < |t| { StrippedStep(t, j, Line); }
  }

  lemma {:induction false} TakeBlockComment(t: string, i: nat, j: nat)
    requires Pair(t, i, '/', '*') && i + 2 <= j <= |t| && NoClose(t, i + 2, j) && (j < |t| ==> Pair(t, j, '*', '/'))
    ensures j == |t| ==> Stripped(t, i, Code) == ""
    ensures j < |t| ==> Stripped(t, i, Code) == Newlines(LineCount(t[i + 2..j])) + Stripped(t, j + 2, Code)
  {
    StrippedStep(t, i, Code);
    StrippedStep(t, i + 1, BlockOpen);
    if j < |t| {
      BlockJump(t, i + 2, j);
    } else {
      NeverCloses(t, i + 2);
      UnclosedBlock(t, i + 2);
    }
  }

  /** Counting newlines over the delimiters too finds the same ones. */
  lemma {:induction false} CountInside(t: string, i: nat, j: nat)
    requires Pair(t, i, '/', '*') && i + 2 <= j < |t| && Pair(t, j, '*', '/')
    ensures LineCount(t[i..j + 2]) == LineCount(t[i + 2..j])
  {
    assert t[i..j + 2] == ['/', '*'] + (t[i + 2..j] + ['*', '/']);
    LineCountSplit(['/', '*'], t[i + 2..j] + ['*', '/']);
    LineCountSplit(t[i + 2..j], ['*', '/']);
    assert ['/', '*'][1..] == ['*'] && ['*', '/'][1..] == ['/'] && ['*'][1..] == [] && ['/'][1..] == [];
  }

  lemma {:induction false} TakePlain(t: string, i: nat)
    requires i < |t| && !CommentStart(t, i)
    requires (t[i] == '"' || t[i] == '\'') ==> t[i] == '\'' && IsDigitSeparator(t, i)
    ensures Stripped(t, i, Code) == [t[i]] + Stripped(t, i + 1, Code)
  {
    StrippedStep(t, i, Code);
  }

  lemma {:induction false} TakeLiteral(t: string, i: nat, j: nat)
    requires i < j <= |t| && !CommentStart(t, i)
    requires t[i] == '"' || (t[i] == '\'' && !IsDigitSeparator(t, i))
    requires Holds(t, i + 1, Quoted(t[i], false), t[i + 1..j], j, Code)
    ensures Stripped(t, i, Code) == t[i..j] + Stripped(t, j, Code)
  {
    StrippedStep(t, i, Code);
    Regroup([t[i]], t[i + 1..j], Stripped(t, j, Code), t[i..j]);
  }

  /** `strip_comments`. */
  method StripComments(text: string) returns (out: string)
    ensures out == Stripped(text, 0, Code)
  {
    out := "";
    var i, n := 0, |text|;
    while i < n
      invariant i <= n && Holds(text, 0, Code, out, i, Code)
    {
      if Pair(text, i, '/', '/') {
        var j := FindNewline(text, i);
        TakeLineComment(text, i, j);
        if j == n {
          return;
        }
        Extend(text, 0, Code, out, i, Code, "\n", j + 1, Code);
        out := out + "\n";
        i := j + 1;
        continue;
      }
      if Pair(text, i, '/', '*') {
        var j := FindClose(text, i + 2);
        TakeBlockComment(text, i, j);
        if j == n {
          return;
        }
        CountInside(text, i, j);
        var newlines := Newlines(LineCount(text[i..j + 2]));
        Extend(text, 0, Code, out, i, Code, newlines, j + 2, Code);
        out := out + newlines;
        i := j + 2;
        continue;
      }
      var c := text[i];
      if c == '\'' && IsDigitSeparator(text, i) {
        TakePlain(text, i);
        Extend(text, 0, Code, out, i, Code, [c], i + 1, Code);
        out := out + [c];
        i := i + 1;
        continue;
      }
      if c == '"' || c == '\'' {
        var j := SkipLiteral(text, i + 1, c);
        TakeLiteral(text, i, j);
        Extend(text, 0, Code, out, i, Code, text[i..j], j, Code);
        out := out + text[i..j];
        i := j;
        continue;
      }
      TakePlain(text, i);
      Extend(text, 0, Code, out, i, Code, [c], i + 1, Code);
      out := out + [c];
      i := i + 1;
    }
    StrippedEnd(text, Code);
  }
}
