/** The scope scanner of tools/cpp_scopes.py: one pass over comment-free text with a
    stack of brace entries, recording the enclosing names at every line. */
module CppScopes {
  import opened Sequences
  import opened LineCounts

  /** One open brace: the names it contributes, outer to inner, and whether it opens a
      class template. */
  datatype Entry = Entry(names: seq<string>, isTemplate: bool)

  datatype LineInfo = LineInfo(chain: seq<string>, atDeclLevel: bool, inTemplate: bool)

  /** How a header (the text since the last statement boundary) is classified.  The
      results below hold for every classification; `CppHeaders.Classify` is the tool's. */
  type Classifier = string -> Entry

  // ------------------------------------------------------------------- chains

  /** All names from the outermost entry to the innermost. */
  function Names(stack: seq<Entry>): seq<string> {
    if stack == [] then [] else stack[0].names + Names(stack[1..])
  }

  /** `_flatten`: innermost entry first, each entry's names innermost first. */
  method Flatten(stack: seq<Entry>) returns (chain: seq<string>)
    ensures chain == Chain(stack)
  {
    chain := [];
    var k := |stack|;
    assert stack[k..] == [];
    while k > 0
      invariant 0 <= k <= |stack| && chain == Chain(stack[k..])
    {
      k := k - 1;
      ChainCons(stack[k], stack[k + 1..]);
      assert stack[k..] == [stack[k]] + stack[k + 1..];
      chain := chain + Reversed(stack[k].names);
    }
    assert stack[0..] == stack;
  }

  function Chain(stack: seq<Entry>): seq<string> {
    Reversed(Names(stack))
  }

  lemma {:induction false} ReversedConcat(a: seq<string>, b: seq<string>)
    ensures Reversed(a + b) == Reversed(b) + Reversed(a)
  {
    if a == [] {
      assert a + b == b;
    } else {
      assert (a + b)[1..] == a[1..] + b;
      ReversedConcat(a[1..], b);
    }
  }

  lemma {:induction false} ChainCons(e: Entry, rest: seq<Entry>)
    ensures Chain([e] + rest) == Chain(rest) + Reversed(e.names)
  {
    assert ([e] + rest)[1..] == rest;
    ReversedConcat(e.names, Names(rest));
  }

  // ----------------------------------------------------------------- the scan

  datatype Literal = Outside | InString | InChar

  /** What the scan has in hand between two characters. `skip` is the second half of an
      escape inside a literal. */
  datatype State = State(stack: seq<Entry>, header: string, literal: Literal, skip: bool)

  function Start(): State {
    State([], "", Outside, false)
  }

  predicate AtBoundary(s: State) {
    s.header == "" && s.literal == Outside && !s.skip
  }

  function Step(classify: Classifier, s: State, c: char): State {
    var longer := s.header + [c];
    if s.skip then s.(header := longer, skip := false)
    else if c == '\n' then s.(header := longer)
    else if s.literal != Outside then
      if c == '\\' then s.(header := longer, skip := true)
      else if c == (if s.literal == InString then '"' else '\'') then s.(header := longer, literal := Outside)
      else s.(header := longer)
    else if c == '"' then s.(header := longer, literal := InString)
    else if c == '\'' then s.(header := longer, literal := InChar)
    else if c == '{' then s.(stack := s.stack + [classify(s.header)], header := "")
    else if c == '}' then s.(stack := if s.stack == [] then [] else s.stack[..|s.stack| - 1], header := "")
    else if c == ';' then s.(header := "")
    else s.(header := longer)
  }

  function Run(classify: Classifier, s: State, text: string): State {
    if text == "" then s else Step(classify, Run(classify, s, text[..|text| - 1]), text[|text| - 1])
  }

  /** A newline that the scan counts as the start of a line. */
  predicate StartsLine(s: State, c: char) {
    c == '\n' && !s.skip
  }

  function InfoOf(stack: seq<Entry>): LineInfo {
    LineInfo(Chain(stack), stack == [] || stack[|stack| - 1].names != [],
             exists k :: 0 <= k < |stack| && stack[k].isTemplate)
  }

  /** The information recorded for each line that starts within the text. */
  function Lines(classify: Classifier, s: State, text: string): seq<LineInfo> {
    if text == "" then []
    else
      var n := |text| - 1;
      var before := Run(classify, s, text[..n]);
      Lines(classify, s, text[..n]) + (if StartsLine(before, text[n]) then [InfoOf(before.stack)] else [])
  }

  method LineStart(stack: seq<Entry>) returns (info: LineInfo)
    ensures info == InfoOf(stack)
  {
    var chain := Flatten(stack);
    var atDeclLevel := stack == [] || stack[|stack| - 1].names != [];
    var inTemplate := exists k :: 0 <= k < |stack| && stack[k].isTemplate;
    info := LineInfo(chain, atDeclLevel, inTemplate);
  }

  /** The scanner's variables describe the specification state after i characters. */
  ghost predicate InStep(classify: Classifier, code: string, i: nat, stack: seq<Entry>, stmtStart: nat,
                         inString: bool, inChar: bool, infos: seq<LineInfo>)
  {
    stmtStart <= i <= |code| && !(inString && inChar) &&
    Run(classify, Start(), code[..i]) ==
      State(stack, code[stmtStart..i], if inString then InString else if inChar then InChar else Outside, false) &&
    infos == [LineInfo([], true, false)] + Lines(classify, Start(), code[..i])
  }

  lemma {:induction false} StepInCode(classify: Classifier, code: string, i: nat, stack: seq<Entry>,
                                      stmtStart: nat, infos: seq<LineInfo>)
    requires i < |code| && code[i] != '\n' && InStep(classify, code, i, stack, stmtStart, false, false, infos)
    ensures var c := code[i];
            InStep(classify, code, i + 1,
                   if c == '{' then stack + [classify(code[stmtStart..i])]
                   else if c == '}' && stack != [] then stack[..|stack| - 1] else stack,
                   if c == '{' || c == '}' || c == ';' then i + 1 else stmtStart, c == '"', c == '\'', infos)
  {
    if code[i] == '{' {
      StepOpening(classify, code, i, stack, stmtStart, infos);
    } else if code[i] == '}' || code[i] == ';' {
      StepBoundary(classify, code, i, stack, stmtStart, infos);
    } else {
      StepOther(classify, code, i, stack, stmtStart, infos);
    }
  }

  lemma {:induction false} StepOpening(classify: Classifier, code: string, i: nat, stack: seq<Entry>,
                                       stmtStart: nat, infos: seq<LineInfo>)
    requires i < |code| && code[i] == '{' && InStep(classify, code, i, stack, stmtStart, false, false, infos)
    ensures InStep(classify, code, i + 1, stack + [classify(code[stmtStart..i])], i + 1, false, false, infos)
  {
    RunNext(classify, Start(), code, i);
    assert code[i + 1..i + 1] == "";
  }

  lemma {:induction false} StepBoundary(classify: Classifier, code: string, i: nat, stack: seq<Entry>,
                                        stmtStart: nat, infos: seq<LineInfo>)
    requires i < |code| && (code[i] == '}' || code[i] == ';')
    requires InStep(classify, code, i, stack, stmtStart, false, false, infos)
    ensures InStep(classify, code, i + 1, if code[i] == '}' && stack != [] then stack[..|stack| - 1] else stack,
                   i + 1, false, false, infos)
  {
    RunNext(classify, Start(), code, i);
    assert code[i + 1..i + 1] == "";
  }

  lemma {:induction false} StepOther(classify: Classifier, code: string, i: nat, stack: seq<Entry>,
                                     stmtStart: nat, infos: seq<LineInfo>)
    requires i < |code| && code[i] != '\n' && code[i] != '{' && code[i] != '}' && code[i] != ';'
    requires InStep(classify, code, i, stack, stmtStart, false, false, infos)
    ensures InStep(classify, code, i + 1, stack, stmtStart, code[i] == '"', code[i] == '\'', infos)
  {
    RunNext(classify, Start(), code, i);
    assert code[stmtStart..i + 1] == code[stmtStart..i] + [code[i]];
  }

  lemma {:induction false} StepNewline(classify: Classifier, code: string, i: nat, stack: seq<Entry>, stmtStart: nat,
                                       inString: bool, inChar: bool, infos: seq<LineInfo>)
    requires i < |code| && code[i] == '\n' && InStep(classify, code, i, stack, stmtStart, inString, inChar, infos)
    ensures InStep(classify, code, i + 1, stack, stmtStart, inString, inChar, infos + [InfoOf(stack)])
  {
    RunNext(classify, Start(), code, i);
    assert code[stmtStart..i + 1] == code[stmtStart..i] + [code[i]];
  }

  lemma {:induction false} StepInLiteral(classify: Classifier, code: string, i: nat, stack: seq<Entry>, stmtStart: nat,
                                         inString: bool, inChar: bool, infos: seq<LineInfo>)
    requires i < |code| && code[i] != '\n' && code[i] != '\\' && (inString || inChar)
    requires InStep(classify, code, i, stack, stmtStart, inString, inChar, infos)
    ensures var closed := (inString && code[i] == '"') || (inChar && code[i] == '\'');
            InStep(classify, code, i + 1, stack, stmtStart, inString && !closed, inChar && !closed, infos)
  {
    RunNext(classify, Start(), code, i);
    assert code[stmtStart..i + 1] == code[stmtStart..i] + [code[i]];
  }

  lemma {:induction false} StepEscape(classify: Classifier, code: string, i: nat, stack: seq<Entry>, stmtStart: nat,
                                      inString: bool, inChar: bool, infos: seq<LineInfo>)
    requires i + 1 < |code| && code[i] == '\\' && (inString || inChar)
    requires InStep(classify, code, i, stack, stmtStart, inString, inChar, infos)
    ensures InStep(classify, code, i + 2, stack, stmtStart, inString, inChar, infos)
  {
    assert code[stmtStart..i + 2] == code[stmtStart..i + 1] + [code[i + 1]];
    EscapeHalf(classify, code, i, stack, stmtStart, inString, inChar, infos);
    SkipHalf(classify, code, i + 1);
  }

  lemma {:induction false} EscapeAtEnd(classify: Classifier, code: string, i: nat, stack: seq<Entry>, stmtStart: nat,
                                       inString: bool, inChar: bool, infos: seq<LineInfo>)
    requires i + 1 == |code| && code[i] == '\\' && (inString || inChar)
    requires InStep(classify, code, i, stack, stmtStart, inString, inChar, infos)
    ensures infos == [LineInfo([], true, false)] + Lines(classify, Start(), code)
  {
    EscapeHalf(classify, code, i, stack, stmtStart, inString, inChar, infos);
    assert code[..i + 1] == code;
  }

  lemma {:induction false} SkipHalf(classify: Classifier, code: string, i: nat)
    requires i < |code| && Run(classify, Start(), code[..i]).skip
    ensures var s := Run(classify, Start(), code[..i]);
            Run(classify, Start(), code[..i + 1]) == s.(header := s.header + [code[i]], skip := false)
    ensures Lines(classify, Start(), code[..i + 1]) == Lines(classify, Start(), code[..i])
  {
    RunNext(classify, Start(), code, i);
  }

  lemma {:induction false} EscapeHalf(classify: Classifier, code: string, i: nat, stack: seq<Entry>, stmtStart: nat,
                                      inString: bool, inChar: bool, infos: seq<LineInfo>)
    requires i < |code| && code[i] == '\\' && (inString || inChar)
    requires InStep(classify, code, i, stack, stmtStart, inString, inChar, infos)
    ensures Run(classify, Start(), code[..i + 1]) ==
            State(stack, code[stmtStart..i + 1], if inString then InString else InChar, true)
    ensures Lines(classify, Start(), code[..i + 1]) == Lines(classify, Start(), code[..i])
  {
    RunNext(classify, Start(), code, i);
    assert code[stmtStart..i + 1] == code[stmtStart..i] + [code[i]];
  }

  /** `_scan`, after comment stripping.  Entry 0 is line 1, entry k is line k + 1. */
  method Scan(classify: Classifier, code: string) returns (infos: seq<LineInfo>)
    ensures infos == [LineInfo([], true, false)] + Lines(classify, Start(), code)
    ensures NoEscapedNewline(classify, code) ==> EveryLineDescribed(classify, code, infos)
  {
    if NoEscapedNewline(classify, code) { LinesDescribed(classify, code); }
    var stack: seq<Entry> := [];
    var stmtStart, i := 0, 0;
    var inString, inChar := false, false;
    infos := [LineInfo([], true, false)];
    while i < |code|
      invariant i <= |code| && InStep(classify, code, i, stack, stmtStart, inString, inChar, infos)
    {
      var c := code[i];
      if c == '\n' {
        StepNewline(classify, code, i, stack, stmtStart, inString, inChar, infos);
        var info := LineStart(stack);
        infos := infos + [info];
        i := i + 1;
        continue;
      }
      if inString || inChar {
        if c == '\\' {
          if i + 1 == |code| {
            EscapeAtEnd(classify, code, i, stack, stmtStart, inString, inChar, infos);
            return;
          }
          StepEscape(classify, code, i, stack, stmtStart, inString, inChar, infos);
          i := i + 2;
          continue;
        }
        StepInLiteral(classify, code, i, stack, stmtStart, inString, inChar, infos);
        if (inString && c == '"') || (inChar && c == '\'') {
          inString, inChar := false, false;
        }
        i := i + 1;
        continue;
      }
      StepInCode(classify, code, i, stack, stmtStart, infos);
      if c == '"' {
        inString := true;
        i := i + 1;
        continue;
      }
      if c == '\'' {
        inChar := true;
        i := i + 1;
        continue;
      }
      if c == '{' {
        stack := stack + [classify(code[stmtStart..i])];
        stmtStart := i + 1;
      } else if c == '}' {
        if stack != [] {
          stack := stack[..|stack| - 1];
        }
        stmtStart := i + 1;
      } else if c == ';' {
        stmtStart := i + 1;
      }
      i := i + 1;
    }
    assert code[..i] == code;
  }

  lemma RunNext(classify: Classifier, s: State, text: string, i: nat)
    requires i < |text|
    ensures Run(classify, s, text[..i + 1]) == Step(classify, Run(classify, s, text[..i]), text[i])
    ensures Lines(classify, s, text[..i + 1]) ==
            Lines(classify, s, text[..i]) +
            (if StartsLine(Run(classify, s, text[..i]), text[i])
             then [InfoOf(Run(classify, s, text[..i]).stack)] else [])
  {
    assert text[..i + 1][..i] == text[..i];
  }

  // --------------------------------------------------------- one entry per line

  /** No backslash-newline inside a literal. */
  ghost predicate NoEscapedNewline(classify: Classifier, text: string) {
    forall i :: 0 <= i < |text| && text[i] == '\n' ==> !Run(classify, Start(), text[..i]).skip
  }

  lemma {:induction false} NoEscapedPrefix(classify: Classifier, text: string, n: nat)
    requires n <= |text| && NoEscapedNewline(classify, text)
    ensures NoEscapedNewline(classify, text[..n])
  {
    forall i | 0 <= i < n && text[..n][i] == '\n' ensures !Run(classify, Start(), text[..n][..i]).skip {
      assert text[..n][..i] == text[..i];
    }
  }

  /** The scan records one entry per newline exactly when no newline is escaped inside a
      literal; otherwise every later line is numbered too low. */
  lemma {:induction false} OneEntryPerLine(classify: Classifier, text: string)
    ensures |Lines(classify, Start(), text)| <= LineCount(text)
    ensures |Lines(classify, Start(), text)| == LineCount(text) <==> NoEscapedNewline(classify, text)
  {
    if text != "" {
      var n := |text| - 1;
      LineCountLast(text);
      OneEntryPerLine(classify, text[..n]);
      if NoEscapedNewline(classify, text) {
        NoEscapedPrefix(classify, text, n);
      } else if NoEscapedNewline(classify, text[..n]) {
        var i :| 0 <= i < |text| && text[i] == '\n' && Run(classify, Start(), text[..i]).skip;
        assert i < n ==> text[..n][i] == '\n' && text[..n][..i] == text[..i];
      }
    }
  }

  /** Then the entry of the line that starts after a newline is the scope stack there. */
  lemma {:induction false} EntryOfLine(classify: Classifier, text: string, i: nat)
    requires NoEscapedNewline(classify, text) && i < |text| && text[i] == '\n'
    ensures LineCount(text[..i]) < |Lines(classify, Start(), text)|
    ensures Lines(classify, Start(), text)[LineCount(text[..i])] == InfoOf(Run(classify, Start(), text[..i]).stack)
    ensures Describes(classify, text, i, Lines(classify, Start(), text)[LineCount(text[..i])])
    decreases |text|
  {
    StackDescribed(classify, text, i);
    EntryAt(classify, text, i);
  }

  lemma {:induction false} EntryAt(classify: Classifier, text: string, i: nat)
    requires NoEscapedNewline(classify, text) && i < |text| && text[i] == '\n'
    ensures LineCount(text[..i]) < |Lines(classify, Start(), text)|
    ensures Lines(classify, Start(), text)[LineCount(text[..i])] == InfoOf(Run(classify, Start(), text[..i]).stack)
    decreases |text|
  {
    var n := |text| - 1;
    NoEscapedPrefix(classify, text, n);
    OneEntryPerLine(classify, text[..n]);
    if i < n {
      assert text[..n][..i] == text[..i];
      EntryAt(classify, text[..n], i);
    }
  }

  // --------------------------------------------- the stack is the unmatched braces

  /** Outside a literal, as the scanner reads it. */
  ghost predicate OutsideAt(classify: Classifier, text: string, i: nat)
    requires i <= |text|
  {
    var s := Run(classify, Start(), text[..i]);
    s.literal == Outside && !s.skip
  }

  ghost predicate OpensAt(classify: Classifier, text: string, i: nat) {
    i < |text| && text[i] == '{' && OutsideAt(classify, text, i)
  }

  ghost predicate ShutsAt(classify: Classifier, text: string, i: nat) {
    i < |text| && text[i] == '}' && OutsideAt(classify, text, i)
  }

  /** Openings minus closings among the characters p..q. */
  ghost function Balance(classify: Classifier, text: string, p: nat, q: nat): int
    requires p <= q <= |text|
    decreases q - p
  {
    if p == q then 0
    else Balance(classify, text, p, q - 1) +
         (if OpensAt(classify, text, q - 1) then 1 else if ShutsAt(classify, text, q - 1) then -1 else 0)
  }

  /** The brace at p is open at i: between them, closings never catch up. */
  ghost predicate Unmatched(classify: Classifier, text: string, p: nat, i: nat) {
    p < i <= |text| && OpensAt(classify, text, p) &&
    forall q :: p < q <= i ==> Balance(classify, text, p, q) >= 1
  }

  /** Where the entries on the stack were opened. */
  ghost function OpenAt(classify: Classifier, text: string, i: nat): seq<nat>
    requires i <= |text|
  {
    if i == 0 then []
    else
      var before := OpenAt(classify, text, i - 1);
      if OpensAt(classify, text, i - 1) then before + [i - 1]
      else if ShutsAt(classify, text, i - 1) && before != [] then before[..|before| - 1]
      else before
  }

  /** The stack holds one entry per open position: the classified header of that brace. */
  lemma {:induction false} StackEntries(classify: Classifier, text: string, i: nat)
    requires i <= |text|
    ensures var open := OpenAt(classify, text, i); var stack := Run(classify, Start(), text[..i]).stack;
            |stack| == |open| &&
            forall k :: 0 <= k < |open| ==>
              open[k] < i && stack[k] == classify(Run(classify, Start(), text[..open[k]]).header)
  {
    if i > 0 {
      StackEntries(classify, text, i - 1);
      StackNext(classify, text, i - 1);
    }
  }

  lemma {:induction false} StackNext(classify: Classifier, text: string, i: nat)
    requires i < |text|
    ensures var s := Run(classify, Start(), text[..i]); var t := Run(classify, Start(), text[..i + 1]);
            t.stack == if OpensAt(classify, text, i) then s.stack + [classify(s.header)]
                       else if ShutsAt(classify, text, i) && s.stack != [] then s.stack[..|s.stack| - 1]
                       else s.stack
  {
    RunNext(classify, Start(), text, i);
  }

  /** The k-th open position from the bottom has as many unclosed openings since as
      there are entries from it to the top. */
  ghost predicate Balanced(classify: Classifier, text: string, open: seq<nat>, i: nat) {
    i <= |text| &&
    forall k {:trigger open[k]} :: 0 <= k < |open| ==> open[k] < i && Balance(classify, text, open[k], i) == |open| - k
  }

  ghost predicate Increasing(open: seq<nat>) {
    forall j, k :: 0 <= j < k < |open| ==> open[j] < open[k]
  }

  lemma {:induction false} OpenBalances(classify: Classifier, text: string, i: nat)
    requires i <= |text|
    ensures Balanced(classify, text, OpenAt(classify, text, i), i) && Increasing(OpenAt(classify, text, i))
  {
    if i > 0 {
      OpenBalances(classify, text, i - 1);
      var before, after := OpenAt(classify, text, i - 1), OpenAt(classify, text, i);
      var delta := if OpensAt(classify, text, i - 1) then 1 else if ShutsAt(classify, text, i - 1) then -1 else 0;
      forall k | 0 <= k < |after| ensures after[k] < i && Balance(classify, text, after[k], i) == |after| - k {
        if k < |before| {
          assert after[k] == before[k];
          assert Balance(classify, text, before[k], i) == Balance(classify, text, before[k], i - 1) + delta;
        } else {
          assert Balance(classify, text, i - 1, i) == Balance(classify, text, i - 1, i - 1) + 1;
        }
      }
    }
  }

  /** The stack is exactly the opening braces so far that closings have not caught up with,
      of those the scanner reads outside literals. */
  lemma {:induction false} StackIsUnmatched(classify: Classifier, text: string, i: nat, p: nat)
    requires i <= |text|
    ensures p in OpenAt(classify, text, i) <==> Unmatched(classify, text, p, i)
  {
    if p in OpenAt(classify, text, i) { StackedIsUnmatched(classify, text, i, p); }
    if Unmatched(classify, text, p, i) { UnmatchedIsStacked(classify, text, i, p); }
  }

  lemma {:induction false} StackedIsUnmatched(classify: Classifier, text: string, i: nat, p: nat)
    requires i <= |text| && p in OpenAt(classify, text, i)
    ensures Unmatched(classify, text, p, i)
  {
    var after := OpenAt(classify, text, i);
    var k :| 0 <= k < |after| && after[k] == p;
    OpenBalances(classify, text, i);
    UnmatchedNext(classify, text, p, i);
    assert Balance(classify, text, after[k], i) == |after| - k;
    if p in OpenAt(classify, text, i - 1) { StackedIsUnmatched(classify, text, i - 1, p); }
  }

  lemma {:induction false} UnmatchedIsStacked(classify: Classifier, text: string, i: nat, p: nat)
    requires i <= |text| && Unmatched(classify, text, p, i)
    ensures p in OpenAt(classify, text, i)
  {
    var before, after := OpenAt(classify, text, i - 1), OpenAt(classify, text, i);
    UnmatchedNext(classify, text, p, i);
    if p == i - 1 && OpensAt(classify, text, p) {
      assert after[|before|] == p;
    } else {
      UnmatchedIsStacked(classify, text, i - 1, p);
      var k :| 0 <= k < |before| && before[k] == p;
      assert Balance(classify, text, before[k], i - 1) == |before| - k by { OpenBalances(classify, text, i - 1); }
      StaysOpen(classify, text, i, k);
    }
  }

  /** An open brace whose balance stays positive is not the one that is popped. */
  lemma {:induction false} StaysOpen(classify: Classifier, text: string, i: nat, k: nat)
    requires 0 < i <= |text| && k < |OpenAt(classify, text, i - 1)|
    requires var p := OpenAt(classify, text, i - 1)[k];
             p < i && Balance(classify, text, p, i - 1) == |OpenAt(classify, text, i - 1)| - k &&
             Balance(classify, text, p, i) >= 1
    ensures OpenAt(classify, text, i - 1)[k] in OpenAt(classify, text, i)
  {
    var before, after := OpenAt(classify, text, i - 1), OpenAt(classify, text, i);
    assert after[k] == before[k];
  }

  lemma {:induction false} UnmatchedNext(classify: Classifier, text: string, p: nat, i: nat)
    requires 0 < i <= |text|
    ensures Unmatched(classify, text, p, i) <==>
              (p == i - 1 && OpensAt(classify, text, p)) ||
              (Unmatched(classify, text, p, i - 1) && Balance(classify, text, p, i) >= 1)
  {
    if p == i - 1 && OpensAt(classify, text, p) {
      assert Balance(classify, text, p, i) == Balance(classify, text, p, p) + 1;
    }
  }

  // ------------------------------------------------------- what an entry says

  /** The entry that the brace at p opened. */
  ghost function HeadAt(classify: Classifier, text: string, p: nat): Entry
    requires p <= |text|
  {
    classify(Run(classify, Start(), text[..p]).header)
  }

  ghost predicate LastUnmatched(classify: Classifier, text: string, p: nat, i: nat) {
    Unmatched(classify, text, p, i) && forall q: nat :: Unmatched(classify, text, q, i) ==> q <= p
  }

  /** The names of open braces, innermost first. */
  ghost function InnermostFirst(classify: Classifier, text: string, open: seq<nat>): seq<string>
    requires forall k :: 0 <= k < |open| ==> open[k] <= |text|
  {
    if open == [] then []
    else
      var n := |open| - 1;
      Reversed(HeadAt(classify, text, open[n]).names) + InnermostFirst(classify, text, open[..n])
  }

  /** A line at declaration level is inside no brace, or directly inside one with a name; a line
      in a template is inside some brace that opened a class template; the chain names the
      braces the line is inside, innermost first. */
  ghost predicate Describes(classify: Classifier, text: string, i: nat, info: LineInfo) {
    i <= |text| && (forall k :: 0 <= k < |OpenAt(classify, text, i)| ==> OpenAt(classify, text, i)[k] <= |text|) &&
    info.chain == InnermostFirst(classify, text, OpenAt(classify, text, i)) &&
    (info.atDeclLevel <==>
       (forall p: nat :: !Unmatched(classify, text, p, i)) ||
       (exists p: nat :: LastUnmatched(classify, text, p, i) && HeadAt(classify, text, p).names != [])) &&
    (info.inTemplate <==> exists p: nat :: Unmatched(classify, text, p, i) && HeadAt(classify, text, p).isTemplate)
  }

  lemma {:induction false} NamesLast(stack: seq<Entry>)
    requires stack != []
    ensures Names(stack) == Names(stack[..|stack| - 1]) + stack[|stack| - 1].names
  {
    var n := |stack| - 1;
    if n > 0 {
      NamesLast(stack[1..]);
      assert stack[1..][..n - 1] == stack[..n][1..];
    } else {
      assert stack[..0] == [] && stack[1..] == [];
    }
  }

  lemma {:induction false} ChainOfOpen(classify: Classifier, text: string, stack: seq<Entry>, open: seq<nat>)
    requires |stack| == |open|
    requires forall k :: 0 <= k < |open| ==> open[k] <= |text| && stack[k] == HeadAt(classify, text, open[k])
    ensures Chain(stack) == InnermostFirst(classify, text, open)
  {
    if stack != [] {
      var n := |stack| - 1;
      ChainOfOpen(classify, text, stack[..n], open[..n]);
      NamesLast(stack);
      ReversedConcat(Names(stack[..n]), stack[n].names);
    }
  }

  /** Every line after the first is described by its entry. */
  ghost predicate EveryLineDescribed(classify: Classifier, code: string, infos: seq<LineInfo>) {
    |infos| == LineCount(code) + 1 &&
    forall i :: 0 <= i < |code| && code[i] == '\n' ==>
      LineCount(code[..i]) + 1 < |infos| && Describes(classify, code, i, infos[LineCount(code[..i]) + 1])
  }

  lemma {:induction false} LinesDescribed(classify: Classifier, code: string)
    requires NoEscapedNewline(classify, code)
    ensures EveryLineDescribed(classify, code, [LineInfo([], true, false)] + Lines(classify, Start(), code))
  {
    OneEntryPerLine(classify, code);
    forall i | 0 <= i < |code| && code[i] == '\n'
      ensures LineCount(code[..i]) < |Lines(classify, Start(), code)| &&
              Describes(classify, code, i, Lines(classify, Start(), code)[LineCount(code[..i])])
    {
      EntryOfLine(classify, code, i);
    }
  }

  /** What is recorded of a stack describes the braces that are open. */
  lemma {:induction false} StackDescribed(classify: Classifier, text: string, i: nat)
    requires i <= |text|
    ensures Describes(classify, text, i, InfoOf(Run(classify, Start(), text[..i]).stack))
  {
    var open, stack := OpenAt(classify, text, i), Run(classify, Start(), text[..i]).stack;
    StackEntries(classify, text, i);
    forall p: nat ensures p in open <==> Unmatched(classify, text, p, i) { StackIsUnmatched(classify, text, i, p); }
    ChainOfOpen(classify, text, stack, open);
    LevelDescribed(classify, text, i, stack, open);
    TemplateDescribed(classify, text, i, stack, open);
  }

  /** The stack's entries are those of the unmatched braces. */
  ghost predicate EntriesOf(classify: Classifier, text: string, i: nat, stack: seq<Entry>, open: seq<nat>) {
    i <= |text| && |stack| == |open| && open == OpenAt(classify, text, i) &&
    (forall k {:trigger open[k]} :: 0 <= k < |open| ==> open[k] < i && stack[k] == HeadAt(classify, text, open[k])) &&
    forall p: nat :: p in open <==> Unmatched(classify, text, p, i)
  }

  lemma {:induction false} LevelDescribed(classify: Classifier, text: string, i: nat, stack: seq<Entry>, open: seq<nat>)
    requires EntriesOf(classify, text, i, stack, open)
    ensures InfoOf(stack).atDeclLevel <==>
            (forall p: nat :: !Unmatched(classify, text, p, i)) ||
            (exists p: nat :: LastUnmatched(classify, text, p, i) && HeadAt(classify, text, p).names != [])
  {
    if open != [] {
      var n := |open| - 1;
      assert open[n] in open;
      OpenBalances(classify, text, i);
      forall q: nat | Unmatched(classify, text, q, i) ensures q <= open[n] {
        var k :| 0 <= k < |open| && open[k] == q;
      }
      assert LastUnmatched(classify, text, open[n], i);
    }
  }

  lemma {:induction false} TemplateDescribed(classify: Classifier, text: string, i: nat, stack: seq<Entry>,
                                             open: seq<nat>)
    requires EntriesOf(classify, text, i, stack, open)
    ensures InfoOf(stack).inTemplate <==>
            exists p: nat :: Unmatched(classify, text, p, i) && HeadAt(classify, text, p).isTemplate
  {
    if InfoOf(stack).inTemplate {
      var k :| 0 <= k < |stack| && stack[k].isTemplate;
      assert open[k] in open;
    }
    if p: nat :| Unmatched(classify, text, p, i) && HeadAt(classify, text, p).isTemplate {
      var k :| 0 <= k < |open| && open[k] == p;
      assert stack[k].isTemplate;
    }
  }

  // ------------------------------------------------------- inserting a whole block

  lemma {:induction false} RunConcat(classify: Classifier, s: State, a: string, b: string)
    ensures Run(classify, s, a + b) == Run(classify, Run(classify, s, a), b)
    ensures Lines(classify, s, a + b) == Lines(classify, s, a) + Lines(classify, Run(classify, s, a), b)
  {
    if b == "" {
      assert a + b == a;
    } else {
      var n := |b| - 1;
      assert (a + b)[..|a + b| - 1] == a + b[..n];
      RunConcat(classify, s, a, b[..n]);
    }
  }

  /** No closing brace of the block is left without an opening one inside it. */
  ghost predicate NeverUnderflows(classify: Classifier, s: State, block: string) {
    block == "" ||
    (var n := |block| - 1;
     NeverUnderflows(classify, s, block[..n]) && !PopsEmpty(Run(classify, s, block[..n]), block[n]))
  }

  predicate PopsEmpty(s: State, c: char) {
    c == '}' && s.literal == Outside && !s.skip && s.stack == []
  }

  /** A block that opens and closes what it opens, literals included, and ends at a
      statement boundary. */
  ghost predicate WholeBlock(classify: Classifier, block: string) {
    NeverUnderflows(classify, Start(), block) && Run(classify, Start(), block) == Start()
  }

  /** On top of any stack a block that never underflows works as it does alone. */
  lemma {:induction false} RunAbove(classify: Classifier, base: seq<Entry>, block: string)
    requires NeverUnderflows(classify, Start(), block)
    ensures var s := Run(classify, Start(), block);
            Run(classify, Start().(stack := base), block) == s.(stack := base + s.stack)
  {
    if block != "" {
      var n := |block| - 1;
      var head := block[..n];
      RunAbove(classify, base, head);
      StepAbove(classify, base, Run(classify, Start(), head), block[n]);
    }
  }

  lemma {:induction false} StepAbove(classify: Classifier, base: seq<Entry>, s: State, c: char)
    requires !PopsEmpty(s, c)
    ensures Step(classify, s.(stack := base + s.stack), c) ==
            Step(classify, s, c).(stack := base + Step(classify, s, c).stack)
  {
    if s.stack != [] {
      assert (base + s.stack)[..|base + s.stack| - 1] == base + s.stack[..|s.stack| - 1];
    }
    assert base + (s.stack + [classify(s.header)]) == base + s.stack + [classify(s.header)];
  }

  /** Inserting a whole block at a statement boundary adds the block's own entries, one for
      each of its newlines if none is escaped, and leaves what is recorded for every line
      starting after it unchanged. */
  lemma {:induction false} InsertionKeepsLaterLines(classify: Classifier, a: string, block: string, c: string)
    requires AtBoundary(Run(classify, Start(), a)) && WholeBlock(classify, block)
    ensures var s := Run(classify, Start(), a);
            Lines(classify, Start(), a + block + c) ==
              Lines(classify, Start(), a) + Lines(classify, s, block) + Lines(classify, s, c)
    ensures NoEscapedNewline(classify, block) ==>
              |Lines(classify, Run(classify, Start(), a), block)| == LineCount(block)
    ensures Lines(classify, Start(), a + c) ==
              Lines(classify, Start(), a) + Lines(classify, Run(classify, Start(), a), c)
  {
    var s := Run(classify, Start(), a);
    RunConcat(classify, Start(), a, c);
    RunConcat(classify, Start(), a + block, c);
    RunConcat(classify, Start(), a, block);
    RunAbove(classify, s.stack, block);
    assert s == Start().(stack := s.stack);
    assert s.stack + [] == s.stack;
    assert Run(classify, Start(), a + block) == s;
    OneEntryPerLine(classify, block);
    LinesAbove(classify, s.stack, block);
  }

  /** A stack below changes what is recorded, not how often. */
  lemma {:induction false} LinesAbove(classify: Classifier, base: seq<Entry>, block: string)
    requires NeverUnderflows(classify, Start(), block)
    ensures |Lines(classify, Start().(stack := base), block)| == |Lines(classify, Start(), block)|
  {
    if block != "" {
      LinesAbove(classify, base, block[..|block| - 1]);
      RunAbove(classify, base, block[..|block| - 1]);
    }
  }
}
