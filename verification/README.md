# RTA Tool: verified models of its hard parts

RTA Tool is a real-time audio analyser with a set of development scripts. This project
models, in Dafny, the parts whose correctness is not visible from reading one function,
and proves what they promise for every input, every run or every reachable state.

| file | what it models |
|---|---|
| `Lfsr.dfy`, `Alignment.dfy` | the Galois shift register that makes maximum-length sequences, the two checks made on it, and the search for its alignment to a reference |
| `Pcg32.dfy` | PCG32 (pcg_setseq_64_xsh_rr_32): one cycle of length 2^64 per stream, equal shares of every output word |
| `CppText.dfy`, `CppTextLines.dfy` | the jump-ahead comment stripper against a one-character-at-a-time lexer, line numbers, stripping twice |
| `CppScopes.dfy`, `CppHeaders.dfy` | the brace-stack scope scanner and its header classifier |
| `CppBraces.dfy`, `CppFiles.dfy` | the scanner against the stripper's lexer, and both together by the line numbers of the original file |
| `Decorate.dfy` | symbol-name fragments, the liveness test on a linker map, qualified names |
| `Diffmut.dfy` | the write-ahead sidecar protocol of the mutation tool, with kills anywhere |
| `Ownership.dfy` | LOCATE, CAL, SWEEP, ALIGN, VERIFY and GEN sharing one output engine and one capture accumulator |
| `Captures.dfy` | the capture accumulator those features share, and the phases of a SWEEP |
| `SweepRouting.dfy`, `IrStore.dfy` | the SWEEP state machine, the IR store, and the routing of a sweep back to the pane that asked |
| `Rt60.dfy` | the RT60 pane's ticketed cache over a worker thread |
| `RateLimiter.dfy`, `HostPolicy.dfy`, `Json.dfy` | the API's rate limiter, Host header test and wire encoding |
| `Mtw.dfy` | the multi-resolution band layout, in exact arithmetic |
| `Bits.dfy`, `Counting.dfy`, `Orbits.dfy`, `Sequences.dfy`, `LineCounts.dfy`, `Options.dfy` | binary naturals, counting, iteration of a function, distinct and reversed sequences, newlines, optional values |

`dafny verify dfyconfig.toml` checks everything.

Objects that the program updates in place are classes here, loops are loops, and pure
code is functions. Clocks, device and counter readings, file contents given by a build,
and answers of worker threads are parameters, so a proof covers every value they can
have. Steps of different threads are separate events that may come in any order.

Some results say that the code does less than a reader may expect, and exactly when it does
what is expected:

* `Lfsr.ReturnAloneIsNotEnough`: that the state is 1 again after a period does not make a
  mask maximal-length; together with the ones count it does, in both directions
  (`Lfsr.ChecksDecideMaximality`).
* `Ownership.EarlierCaptureIsConsumed`, `SweepRouting.WrongLoudspeaker`: a press withdraws
  the capture that is published, not the one being filled. A drain that is under way at the
  press can still publish the earlier press's audio, and the new press then consumes it:
  ALIGN can bind MAIN's sweep to SUB. What a press consumes is its own audio exactly when
  nothing was published while its request was still waiting, and that is always so if nothing
  is requested between the beginning of a drain and the capture it completes
  (`Ownership.Console.Run`, `SweepRouting.Sweep.Run`).
* `Diffmut.RestoredExactly`: after any run killed anywhere, torn writes included, a restore
  gives the tree back exactly, unless the kill tore the writing of a sidecar and left other
  bytes than that source's own; those then go over the intact source.
* `CppTextLines.StrippingTwiceCanDropMore`: stripping a stripped text can drop more; it does
  not exactly when no comment starts in code in the text stripped once
  (`CppTextLines.StrippingTwiceExactly`).
* `CppBraces.SeparatorHidesBrace`: the scope scanner opens a character literal at every single
  quote, so a digit separator hides the braces after it. It reads a comment-free text as the
  stripper's lexer does exactly when no quote in code is a digit separator
  (`CppBraces.AlikeExactly`), and its stack is then that of the braces in code.
* `CppHeaders.ParameterIsTaken`: the first `class` or `struct` of a header names its scope, so
  a template parameter introduced by `class` does; the scope is still marked as a template.
  The class's own name is found exactly where its keyword comes first
  (`CppHeaders.ClassifyFirstClass`).
* `CppFiles.EscapedNewlineIsLost`, `CppFiles.UnclosedCommentSwallows`: a newline escaped
  inside a literal, or swallowed by a comment that is never closed, loses its line; with
  neither, and only then, there is one entry for every line of the original file
  (`CppFiles.OneEntryPerOriginalLine`).

## Model

| member | source | states |
|---|---|---|
| `Lfsr.StepLinear` | tools/gen_generator.py:213-217 | one register step is linear over GF(2), for every mask |
| `Lfsr.StepBits` | tools/gen_generator.py:213-217 | bit j of the next state is bit j + 1, turned over where the mask is set when the bit shifted out was set |
| `Lfsr.StepPermutes` | tools/gen_generator.py:213-217 | with the mask's top bit set the step permutes the states of that width, and only zero goes to zero |
| `Lfsr.OrbitCovers` | tools/gen_generator.py:210-218 | if state 1 first returns after 2^order - 1 steps, every nonzero state lies on its cycle |
| `Lfsr.Balanced` | tools/gen_generator.py:257-263 | such a period holds exactly 2^(order-1) ones, whatever the order |
| `Lfsr.ChecksDecideMaximality` | tools/gen_generator.py:219-221 | the return check and the ones count together hold exactly for the maximal-length masks |
| `Lfsr.ReturnAloneIsNotEnough` | tools/gen_generator.py:219-221 | order 4 with mask 15 passes the return check, fails the balance check and is not maximal-length |
| `Lfsr.ShiftAndAdd` | tools/gen_generator.py:232-241 | a sequence times its own shift is, up to sign, the sequence started at the exclusive-or of the two states |
| `Lfsr.Autocorrelation` | tools/gen_generator.py:232-241 | the circular autocorrelation of a maximal-length sequence is -1 at every nonzero shift |
| `Alignment.PeakIsAlignment` | tools/gen_generator.py:238-240 | the terms summed are products of samples `shift` apart modulo the length; two sequences of +1 and -1 correlate to at most their length, and to their length exactly at an aligning shift |
| `Alignment.AlignsIsRolled` | tools/gen_generator.py:234-236 | rolling back by the shift gives the reference exactly when candidate[(i+shift) % period] is reference[i] for every i |
| `Alignment.ArgMax` | tools/gen_generator.py:248 | the first index of the largest entry |
| `Alignment.FindAlignmentShift` | tools/gen_generator.py:232-255 | the shift returned aligns; reversal is reported only when no forward rotation does; it fails only when no rotation in either orientation is the reference |
| `Alignment.TapMaskTopBit` | tools/gen_generator.py:206-209 | whatever extra degrees are named, the mask keeps its top bit and its width |
| `Alignment.TapMaskBits` | tools/gen_generator.py:206-209 | bit j of the mask is set exactly when j is order - 1 or j + 1 is among the degrees |
| `Alignment.GaloisSequence` | tools/gen_generator.py:206-222 | the loop emits one period of the register's output from state 1, and reports the return check; the mask returned fits the order and bit j of it is set exactly for j = order - 1 or j + 1 among the degrees |
| `Alignment.BuildMlsCase` | tools/gen_generator.py:257-265 | a row is written exactly for a maximal-length mask with an alignable reference, and its shift is the only one for that orientation |
| `Alignment.UniqueAlignment` | tools/gen_generator.py:234-241 | for a sequence with autocorrelation -1 off the peak, at most one shift aligns |
| `Congruential.ReturnTime` | tools/gen_generator.py:55-56 | for a multiplier 1 mod 4 and an odd increment, n steps modulo 2^k return to a state exactly when 2^k divides n |
| `Congruential.SingleCycle` | tools/gen_generator.py:55-56 | such an update is a permutation of the 2^k values with a single cycle |
| `Pcg32.AdvanceCycles` | tools/gen_generator.py:46-56 | for every stream the state runs through all 2^64 values in one cycle |
| `Pcg32.PartsDetermine` | tools/gen_generator.py:58-63 | a state is determined by its top 5 bits, its output word and its low 27 bits |
| `Pcg32.PartsPreimage` | tools/gen_generator.py:58-63 | every choice of those three is some state's |
| `Pcg32.Equidistributed` | tools/gen_generator.py:58-63 | over one period, from any state of any stream, each 32-bit word is emitted exactly 2^32 times |
| `Pcg32.Permuted` | tools/gen_generator.py:61-63 | the shifts, exclusive-or and rotation compute the output word of the state, within 32 bits |
| `Pcg32.WordRotates` | tools/gen_generator.py:61-63 | the output word is the mixed 32 bits turned right by the top five |
| `Pcg32.BitOfMix` | tools/gen_generator.py:61 | bit k of the mixed bits is the exclusive-or of state bits 27 + k and 45 + k, stated for any two shifts |
| `Pcg32.BitOfRotation` | tools/gen_generator.py:63 | bit j of the rotation is bit (j + r) mod 32 |
| `Pcg32.Generator.constructor` | tools/gen_generator.py:48-53 | the increment is 2 stream + 1 and the state 6364136223846793005 (inc + seed) + inc, both modulo 2^64 |
| `Pcg32.SeedsDiffer` | tools/gen_generator.py:48-53 | two seeds below 2^64 of one stream give different states |
| `Pcg32.StreamsDiffer` | tools/gen_generator.py:50 | two streams below 2^63 have different increments |
| `Pcg32.KnownState` | tools/gen_generator.py:48-56 | seed 42 on stream 54 gives increment 109 and state 0x185706b82c2e03f8 |
| `Pcg32.Generator.NextUint32` | tools/gen_generator.py:58-63 | returns the word of the state before the step and advances the state once |
| `CppText.StripComments` | tools/cpp_text.py:108-155 | the jump-ahead loop computes exactly what the one-character lexer keeps |
| `CppText.KeepOrdered` | tools/cpp_text.py:108-155 | what is kept is kept in order, each character once |
| `CppText.SkipLiteral` | tools/cpp_text.py:140-152 | a literal ends where the lexer leaves it, escapes and end of text included |
| `CppText.BlockJump` | tools/cpp_text.py:128-134 | a closed block comment leaves exactly its newlines |
| `CppTextLines.KeptOnItsLine` | tools/cpp_text.py:108-115 | as many newlines precede a kept character after stripping as before |
| `CppTextLines.NewlineCountKept` | tools/cpp_text.py:108-115 | the newline count is unchanged exactly when no unclosed block comment swallows a newline |
| `CppTextLines.UnchangedExactly` | tools/cpp_text.py:108-155 | stripping changes nothing exactly in a text with no comment start in code |
| `CppTextLines.QuoteOpensExactly` | tools/cpp_text.py:51-105 | a single quote in code opens a literal unless it follows an alphanumeric or a quote and none of `u8`, `u`, `U`, `L` as a word of its own |
| `CppTextLines.StrippingTwiceExactly` | tools/orphan_candidates.py:78-82 | stripping twice is stripping once exactly when the once-stripped text has no comment start in code |
| `CppTextLines.StrippingTwice` | tools/cpp_text.py:84-105 | a sufficient condition in terms of both passes: they decide each code quote alike |
| `CppTextLines.StrippingIsIdempotent` | tools/cpp_scopes.py:116 | a sufficient condition on the original text: no block comment closes within three characters before a code quote |
| `CppTextLines.StrippingTwiceCanDropMore` | tools/cpp_text.py:84-105 | a text on which the second pass drops more |
| `CppScopes.Flatten` | tools/cpp_scopes.py:196-200 | the chain is the reverse of the names on the stack |
| `CppScopes.Scan` | tools/cpp_scopes.py:117-166 | on stripped text the loop records for every line what the one-character specification records; with no newline escaped in a literal each entry tells, of the braces open where its line starts, the names innermost first, whether there is none or the innermost has a name, and whether some is a class template |
| `CppFiles.ScanFile` | tools/cpp_scopes.py:93-166 | stripping and scanning record what the specification records of the stripped text, and each entry describes the braces unmatched where its line starts |
| `CppFiles.ScopeOfOriginalLine` | tools/cpp_scopes.py:116-137 | for every newline of the original file, the entry under that line's original number describes the braces unmatched in what was kept before it |
| `CppFiles.CodeScopeOfOriginalLine` | tools/orphan_candidates.py:78-82 | if what is left after stripping has no comment start, no digit separator in code and no escaped newline in a literal, the entry of every original line, after the second strip too, describes exactly the braces open in code before it: level, template and chain |
| `CppBraces.AlikeExactly` | tools/cpp_scopes.py:138-153 | on comment-free text the scanner reads every position as the stripper's lexer does if and only if no quote in code is a digit separator |
| `CppBraces.StackIsCodeStack` | tools/cpp_scopes.py:154-164 | then stack and header are, at every position, those of the braces and semicolons in code |
| `CppBraces.StackIsUnmatchedInCode` | tools/cpp_scopes.py:154-164 | and the open braces are exactly the openings in code that closings in code have not caught up with |
| `CppBraces.DescribedInCode` | tools/cpp_scopes.py:131-137 | and what describes the braces the scanner reads describes the braces in code |
| `CppBraces.OpenBracesExactly` | tools/cpp_scopes.py:154-164 | for any text, the scanner's open braces are those open in code, at every position, if and only if it reads every brace that counts as the lexer does |
| `CppBraces.SeparatorHidesBrace` | tools/cpp_scopes.py:150-153 | a comment-free text with a brace open in code after a digit separator and nothing on the stack |
| `CppFiles.OneEntryPerOriginalLine` | tools/cpp_scopes.py:116-145 | one entry for every line of the original file exactly when no unclosed comment swallows a newline and none is escaped inside a literal |
| `CppFiles.EscapedNewlineIsLost` | tools/cpp_scopes.py:138-141 | a text whose only newline gets no entry |
| `CppFiles.UnclosedCommentSwallows` | tools/cpp_text.py:128-131 | a text whose only newline is dropped by stripping |
| `CppScopes.OneEntryPerLine` | tools/cpp_scopes.py:129-145 | one entry per newline is recorded exactly when no newline is escaped inside a literal |
| `CppScopes.EntryOfLine` | tools/cpp_scopes.py:131-137 | then each line's entry is that of the braces unmatched where the line starts: declaration level exactly when there is none or the last has names, in a template exactly when some is one, the chain their names innermost first |
| `CppScopes.StackDescribed` | tools/cpp_scopes.py:131-137 | what is recorded of the stack at any position says that of the braces unmatched there |
| `CppScopes.StackEntries` | tools/cpp_scopes.py:154-158 | the stack holds, for each open brace, the classified header of that brace |
| `CppScopes.StackIsUnmatched` | tools/cpp_scopes.py:154-164 | for any text, the stack is exactly the opening braces that closings have not caught up with, of those the scanner itself reads outside literals |
| `CppScopes.RunAbove` | tools/cpp_scopes.py:93-166 | on top of any stack, text that never closes more than it opened works as it does alone |
| `CppScopes.InsertionKeepsLaterLines` | tools/cpp_scopes.py:93-166 | inserting at a statement boundary a block that ends as it began adds the block's own entries, one per newline if none is escaped, and leaves what is recorded for every later line unchanged |
| `CppHeaders.ClassifyNamespace` | tools/cpp_scopes.py:69-90 | the header `namespace a::b::c`, with any space around, opens exactly those scopes |
| `CppHeaders.CompactNamespaceChain` | tools/cpp_scopes.py:196-200 | it gives every line inside the same chain as the nested namespaces one by one |
| `CppHeaders.ClassifyClass` | tools/cpp_scopes.py:87-89 | the header `class n` or `struct n`, with any space around, opens exactly the scope n, not as a template |
| `CppHeaders.ClassifyFirstClass` | tools/cpp_scopes.py:82-90 | any header that opens no namespace opens the scope named by its first `class` or `struct`, as a template exactly when `template <` stands in it |
| `CppHeaders.ClassifyTemplate` | tools/cpp_scopes.py:87-89 | `template <..> class n`, the arguments free of these keywords, opens the scope n as a template |
| `CppHeaders.ParameterIsTaken` | tools/cpp_scopes.py:55 | `template <class T> class n` opens a scope named T |
| `CppHeaders.ClassifyAnonymous` | tools/cpp_scopes.py:85-86 | `namespace` alone, with any space around, opens the anonymous scope |
| `CppHeaders.ClassifyOther` | tools/cpp_scopes.py:90 | a header with none of the keywords opens a scope without a name |
| `CppHeaders.OutOfLineIsInOpened` | tools/orphan_shapes.py:240-261 | `A::B::f` resolves to the candidate of `f` inside the classes that the headers `class A` and `class B` open |
| `Decorate.PrefixIsSameSymbol` | tools/msvc_decorate.py:64-76 | a fragment is a prefix of another one followed by any encoding exactly when scopes, constructor flag and, for non-constructors, name agree |
| `Decorate.PrefixExactlyWhenRead` | tools/msvc_decorate.py:5-33 | for any name: the fragment is a prefix of it exactly when a reader of the documented grammar reads it as the candidate's kind and parts |
| `Decorate.LiveExactlyWhenLinked` | tools/map_symbols.py:58-66 | for any set of names, a candidate is live exactly when some name in it reads as the candidate's kind and parts |
| `Decorate.ChainOfNested` | tools/cpp_scopes.py:196-200 | nested classes put their names, innermost first, in front of the chain |
| `Decorate.OutOfLineIsInClass` | tools/orphan_shapes.py:240-261 | `A::B::f` inside any namespaces resolves to the candidate of `f` declared in the nested classes, constructors included |
| `Diffmut.CleanIsPristine` | tools/mutation_sidecar.py:32-36 | a recoverable tree with no sidecar left is the original tree |
| `Diffmut.KilledIsRecoverable` | tools/diffmut.py:148-198 | wherever a safe run is killed, except inside a sidecar write, each source's bytes are in the file or its sidecar |
| `Diffmut.RunSafe` | tools/diffmut.py:297-304 | a run over any mutants, also one that an exception ends, is safe before each file operation, and complete it changes nothing |
| `Diffmut.MutantIsOnDisk` | tools/diffmut.py:148-158 | after two of a mutant's four operations the tree is the one before with the source mutated and its sidecar holding the original bytes |
| `Diffmut.EveryMutantIsSeen` | tools/diffmut.py:297-304 | a run that is not killed has one such moment for each targeted mutant with bytes, in order |
| `Diffmut.RestoreSafe` | tools/mutation_sidecar.py:39-52 | from any recoverable tree the restore is safe throughout and ends in exactly the original tree |
| `Diffmut.HistoryIsRecoverable` | tools/diffmut.py:230-257 | after any sequence of runs, refused runs and restores, each killed anywhere, the tree is recoverable |
| `Diffmut.RestoreAfterHistory` | tools/diffmut.py:237-245 | one restore that is not killed then gives back the exact tree with no sidecar |
| `Diffmut.SidecarOnPristine` | tools/diffmut.py:148-151 | whatever ran before, a run writes a sidecar only on the pristine tree, with that source's own bytes |
| `Diffmut.TornExactly` | tools/diffmut.py:151 | for any run, a torn sidecar write is put over that source by the restore, and the tree comes back exactly when the torn bytes are its own |
| `Diffmut.RestoredExactly` | tools/mutation_sidecar.py:39-52 | for any run and any kill, a restore gives the tree back if and only if the kill tore no sidecar write or left that source's own bytes in it |
| `Diffmut.FindStaleSidecars` | tools/mutation_sidecar.py:32-36 | every sidecar present, each once |
| `Diffmut.Disk.RunMutant` | tools/diffmut.py:144-198 | attempts sidecar, mutation, original and unlink in this order, whatever of them the kill allows; the build, if reached, sees the tree with the mutated bytes and the sidecar of the original ones; raises for a missing source and after the source was put back |
| `Diffmut.Disk.RunAll` | tools/diffmut.py:297-304 | leaves what the run's operations, up to a mutant that raises, leave under the kill; not killed, the builds have seen every targeted mutant's tree, in order |
| `Diffmut.Disk.RestoreAll` | tools/mutation_sidecar.py:39-52 | leaves what the restore's operations leave under the kill |
| `Diffmut.Disk.Invoke` | tools/diffmut.py:230-257 | restores, or refuses with code 2 and no file operation while a sidecar exists, or runs |
| `Ownership.SingleIsOneActive` | app/src/MainComponent.h:87-94 | at most one feature active is equivalent to the flags naming one holder, and `outputBusy` to there being one |
| `Ownership.HolderIsNamed` | app/src/MainComponentGeneratorWiring.cpp:34-44 | `outputHolderName` is the active feature's name, and empty exactly for GEN or nobody |
| `Ownership.NoDirectTakeover` | app/src/MainComponent.h:84-94 | in a run two different holders are separated by a moment with none, and the holder is the one named |
| `Ownership.EarlierCaptureIsConsumed` | app/src/measure/AnalysisThread.cpp:133-137 | a run in which a press consumes the capture recorded for the press before |
| `Captures.QuietNext` | app/src/measure/AnalysisThread.cpp:133-137 | in a run whose drains see no request between their beginning and a completed capture, no request is waiting when a capture is completed |
| `Ownership.Console.ClickLocate` | app/src/MainComponentDelay.cpp:23-65 | starts exactly when nobody holds the output and the engine is quiescent |
| `Ownership.Console.CancelLocate` | app/src/MainComponentDelay.cpp:69-78 | drops LOCATE and disarms its source, and nothing else |
| `Ownership.Console.PollLocate` | app/src/MainComponentDelay.cpp:82-147 | arms the capture after settling, aborts on a resync or a drop, consumes one capture and gives the output up |
| `Ownership.Console.ClickApply` | app/src/MainComponentDelay.cpp:181-198 | changes the delay only when ALIGN does not run, so that a run keeps the delay it started with |
| `Ownership.Console.ClickCal` | app/src/MainComponentCalibration.cpp:93-130 | starts exactly when nobody holds the output and, for END, a start check exists |
| `Ownership.Console.PollCal` | app/src/MainComponentCalibration.cpp:132-194 | consumes one capture or times out |
| `Ownership.Console.ClickSweep` | app/src/MainComponentSweep.cpp:67-148 | starts exactly when nobody holds the output, the output exists, the engine is quiescent, rates agree and no resync is pending |
| `Ownership.Console.PollSweep` | app/src/MainComponentSweep.cpp:156-226 | the next phase for every reading; a capture is consumed exactly on the step from Playing to Analysing; the output is given up exactly on a changed reading before the analysis, a timeout in PreRoll or without a capture, or the answer |
| `Ownership.Console.PressAlign` | app/src/measure/AlignRunner.cpp:73-171 | starts exactly when nobody holds the output and nothing blocks it |
| `Ownership.Console.PressSum` | app/src/measure/AlignRunner.cpp:173-217 | starts exactly from a computed verdict with nobody holding the output and the engine quiescent |
| `Ownership.Console.PollAlign` | app/src/measure/AlignRunner.cpp:240-371 | the next step for every reading; the output is given up exactly on a change, a stop or the measurement that ends the run |
| `Ownership.Console.PressVerify` | app/src/measure/EqVerifyRunner.cpp:91-169 | starts exactly when nobody holds the output, the device runs live and nothing else blocks it |
| `Ownership.Console.PollVerify` | app/src/measure/EqVerifyRunner.cpp:180-266 | the next state for every reading; the output is given up exactly when the device stops, settling times out, a reading stops the run, or the engine is quiescent after it |
| `Ownership.Console.StartGen` | app/src/measure/GeneratorRunner.cpp:48-76 | starts exactly when nobody holds the output, something renders and the engine is quiescent |
| `Ownership.Console.StopGen` | app/src/measure/GeneratorRunner.cpp:78-83 | a playing or swapping generator goes to Stopping and still holds the output |
| `Ownership.Console.CancelGen` | app/src/measure/GeneratorRunner.cpp:85-88 | disarms and gives the output up at once |
| `Ownership.Console.ApplyGen` | app/src/measure/GeneratorRunner.cpp:90-111 | a changed source makes a playing generator swap without giving the output up |
| `Ownership.Console.PollGen` | app/src/measure/GeneratorRunner.cpp:113-162 | the next state for every reading; the output is given up exactly on a restart, a stopped device, or quiescence or a timeout while stopping, a timeout while swapping |
| `Ownership.Console.Prepare` | platform/types/src/OutputEngine.cpp:38-55 | a device restart disarms, publishes idle and moves the epoch by one, and the invariant stays |
| `Ownership.Console.SetSynthetic` | app/src/MainComponentSynthetic.cpp:28-50 | a mode switch makes LOCATE and GEN, and no other, give the output up |
| `Ownership.Console.Handle` | app/src/MainComponent.cpp:269-285 | any event keeps: one active at most, the engine armed exactly while the holder plays its own source on the device it started on, captures waiting for their own feature |
| `Ownership.Console.Run` | app/src/MainComponent.h:84-94 | every run is lawful at every moment; no capture is consumed twice; a consumed capture is its press's own exactly when not overtaken, and always if no capture is completed in a drain during which one was requested |
| `IrStores.IrStore.Add` | app/src/trace/IrStore.h:35-44 | the id is found with this IR, in its place if it was there and last if not; every other id as before, but the oldest when a new id finds eight; never more than eight |
| `IrStores.FindNone` | app/src/trace/IrStore.h:51-56 | nothing is found exactly for an id the store does not hold |
| `SweepRouting.OneAnalysisPerPress` | app/src/MainComponentSweep.cpp:206-226 | analyses are of different presses, each with epoch, mode, resync and drop count as they were at that press, and of that press's own audio exactly when not overtaken |
| `SweepRouting.EveryBindingIsOwn` | app/src/MainComponentAlign.cpp:43-60 | each IR bound comes from an analysis for a press of that side's own button, no press twice, and is that press's audio exactly when its capture did not overtake it |
| `SweepRouting.EverySelectionIsOwn` | app/src/MainComponent.cpp:117-123 | each trace RT60 selected comes from an analysis for an RT60 press, with the same exact condition |
| `SweepRouting.WrongLoudspeaker` | app/src/measure/AnalysisThread.cpp:84-92 | a run in which SWEEP SUB binds the audio of an aborted SWEEP MAIN |
| `SweepRouting.Sweep.StartOn` | app/src/MainComponentSweep.cpp:67-148 | accepted exactly when idle and no reason applies; each refusal with its exact condition, in the order they are looked at; a refusal changes nothing |
| `SweepRouting.Sweep.SweepOnSide` | app/src/MainComponentAlign.cpp:43-54 | an accepted press records its side and output; a refused one changes nothing, the running sweep's pending side included |
| `SweepRouting.Sweep.OtherArms` | app/src/MainComponent.h:87-90 | LOCATE and CAL ask for a capture only while no sweep is busy |
| `SweepRouting.Sweep.Abort` | app/src/MainComponentSweep.cpp:150-154 | the source is off and the sweep idle |
| `SweepRouting.Sweep.StartAnalysis` | app/src/MainComponentSweep.cpp:217-226 | the source is off and one analysis starts, of the published capture whichever request it was recorded for |
| `SweepRouting.Sweep.Poll` | app/src/MainComponentSweep.cpp:156-215 | the next phase for every reading; the source is on in Playing only; a capture is taken exactly on the step to Analysing, with every reading as at the press; idle again exactly on a changed reading or a timeout without a capture before it, or the worker's answer after it |
| `SweepRouting.Sweep.Finish` | app/src/MainComponentSweep.cpp:228-254 | a kept IR, of the audio that was analysed, is stored under its new id and reported to the pane that asked only |
| `SweepRouting.Sweep.BindAlign` | app/src/MainComponentAlign.cpp:56-60 | for a sweep of ALIGN's own button the pending side always matches, and the IR found is bound to it |
| `SweepRouting.Sweep.OnSwept` | app/src/MainComponentAlign.cpp:56-60 | binds the found IR to the pending side, and only if the output is the pending one |
| `SweepRouting.Sweep.SelectRt60` | app/src/MainComponent.cpp:117-123 | only a sweep RT60 asked for becomes its selection |
| `SweepRouting.Sweep.Run` | app/src/MainComponentSweep.cpp:67-254 | in any interleaving of presses, ticks, worker answers and drains: at most one analysis per press, readings equal, every binding and selection its asker's, of its own press's audio exactly when not overtaken, and always if no capture is completed in a drain during which one was requested |
| `Rt60.Surviving` | app/src/MainComponentRt60.cpp:59-66 | exactly the members still in the store, distinct if they were |
| `Rt60.SurvivingConcat` | app/src/MainComponentRt60.cpp:59-66 | members keep their order |
| `Rt60.AnswerArrives` | app/src/measure/Rt60Worker.cpp:41-87 | an answer on its way is there once the worker has ended its job and run the waiting one |
| `Rt60.Pane.PruneEvicted` | app/src/MainComponentRt60.cpp:59-66 | drops exactly the evicted members and says whether there were any |
| `Rt60.Pane.Reanalyse` | app/src/MainComponentRt60.cpp:79-115 | everything shown, or asked of the worker, is of what the store holds now for this selection, band set and surviving members |
| `Rt60.Pane.Poll` | app/src/MainComponentRt60.cpp:117-126 | takes the worker's answer exactly when one is there, and it is the one to the last question |
| `Rt60.Pane.Choose` | app/src/MainComponentRt60.cpp:68-73 | analyses once per change of selection |
| `Rt60.Pane.ChangeBandSet` | app/src/MainComponentRt60.cpp:128-133 | analyses once per change of band set |
| `Rt60.Pane.ToggleMember` | app/src/MainComponentRt60.cpp:135-146 | refused, with nothing changed, exactly when ticking passes the cap or finds no IR; a new member comes last, a ticked one leaves, and the evicted with it; members stay distinct and at most eight |
| `Rt60.Pane.Revision` | app/src/MainComponentRt60.cpp:162-171 | takes a finished job and keeps exactly the members still in the store |
| `Rt60.ReadAtLastChange` | app/src/MainComponentRt60.cpp:68-152 | what was last read is the store as it was at the last change of selection, band set or members |
| `Rt60.Pane.Handle` | app/src/MainComponentRt60.cpp:59-171 | a change of selection, band set or members reads the store of that moment, and nothing else does once a trace is selected |
| `Rt60.Pane.Run` | app/src/MainComponentRt60.cpp:59-152 | in any interleaving, what is shown is the analysis of the IRs that store held for exactly this selection, band set and members, so nothing superseded; with no job on its way all of it is shown |
| `RateLimiting.WindowBound` | app/src/api/ApiPolicy.cpp:220-240 | for every non-decreasing sequence of calls any half-open second holds at most the limit's admissions, none for a limit of zero or less |
| `RateLimiting.AdmittedSpaced` | app/src/api/ApiPolicy.cpp:231-237 | an admission and the one `max` later are at least a second apart |
| `RateLimiting.NextCall` | app/src/api/ApiPolicy.cpp:231-239 | what is left of the deque is exactly the admissions of the whole history still in the window |
| `RateLimiting.RateLimiter.Admit` | app/src/api/ApiPolicy.cpp:220-240 | refuses exactly when the limit's worth of admissions of the whole history lies less than a second back, or the limit is not positive |
| `HostPolicy.PortEqualsMeans` | app/src/api/ApiPolicy.cpp:51-56 | accepts exactly the numerals of that `int`, leading zeros included, and nothing after them |
| `HostPolicy.EqualsIgnoringCase` | app/src/api/ApiPolicy.cpp:25-35 | same length, and at each place the same character or the two cases of one of the 26 letters |
| `HostPolicy.LowerAsciiMeans` | app/src/api/ApiPolicy.cpp:21-23 | two characters lower alike exactly when they are the same or the two cases of one letter |
| `HostPolicy.AllowedExactly` | app/src/api/ApiPolicy.cpp:95-104 | the names matched are `127.0.0.1`, `[::1]` and `localhost` in any case |
| `HostPolicy.SplitOfJoin` | app/src/api/ApiPolicy.cpp:73-89 | an allowed name and a numeral are split where they were joined, brackets included |
| `HostPolicy.HostIsAllowed` | app/src/api/ApiPolicy.cpp:69-106 | accepts exactly an allowed name in any case, a colon and a numeral of the port |
| `HostPolicy.PositivePort` | app/src/api/ApiPolicy.cpp:69-106 | for a port of at least 1 the numeral is a plain digit string of that value |
| `HostPolicy.PrintedPortAccepted` | app/src/api/ApiPolicy.cpp:95-99 | each allowed name with the printed port is accepted |
| `Json.StringValue` | app/src/api/ApiJson.h:62-92 | the loop writes the quoted, escaped text |
| `Json.EscapedLength` | app/src/api/ApiJson.h:68-86 | seven bytes take a two-character escape, the other control bytes six characters, and every other byte is written as it is |
| `Json.StringRoundTrip` | app/src/api/ApiJson.h:54-92 | section 7 of RFC 8259 decodes it to the same bytes and stops at its end, whatever follows |
| `Json.SelfDelimiting` | app/src/api/ApiJson.h:54-92 | no literal is a prefix of another's |
| `Json.NoControlByte` | app/src/api/ApiJson.h:76-84 | no raw control byte reaches the wire |
| `Json.IntegerRoundTrip` | app/src/api/ApiJson.h:47-52 | every integer reads back exactly by section 6 of RFC 8259, up to any delimiter |
| `Json.Array` | app/src/api/ApiJson.h:105-119 | the loop writes the first `emittedCount` elements between brackets, separated by commas |
| `Json.ArrayRoundTrip` | app/src/api/ApiJson.h:98-119 | the array decodes to exactly those elements: all of them when the limit allows, otherwise the first `limit` |
| `Mtw.MtwBands` | tools/gen_mtw.py:43-61 | the loop computes the closed form of every band, first_index included; the top band has n0 points, each other twice those of the one above, each hop a quarter |
| `Mtw.StartStep` | tools/gen_mtw.py:54-57 | each band starts where the one below ends, and the top one ends the layout |
| `Mtw.PointAt` | tools/gen_mtw.py:64-66 | point j of band i stands at the number of points before the band plus j |
| `Mtw.LayoutIsSeamless` | tools/gen_mtw.py:43-66 | (k+4)n0/8+1 strictly increasing frequencies from bin 0 to the last bin of the top band; each seam is the next bin of the band below; first_index counts the points before |
| `Mtw.LayoutSpansRate` | tools/gen_mtw.py:43-66 | they run from zero to half the rate |
| `Mtw.TailHoldsDepth` | tools/gen_mtw.py:96-102 | the tail slice holds exactly the FIFO depth of frames if and only if the input holds as many |

## Left out

- Widgets, layout, painting, file choosers and readout texts: no invariant of their own.
- Floating-point signal processing, its golden files and its probes; the correlation of the alignment search is its direct sum, not an FFT, and frequencies are exact.
- Shortest-round-trip printing of floating-point numbers: a guarantee of the library that prints them.
- The reference sequence from scipy: any sequence of +1 and -1 of the same length.
- Letters and digits outside ASCII in the comment stripper and in the header patterns, where Python's `isalnum` and `\w` accept more.
- Raw string literals: neither scanner treats them specially.
- Back-references and type encodings of real decorated names: the tools do not model them either; fragments are compared up to overloads.
- The word `namespace` used as a class name, which C++ does not allow.
- Regular expressions that find candidate declarations, CMake parsing, and what mutates a line: many small cases.
- Diffmut.Disk.Invoke: the argument error for a missing build directory, which also exits with 2, and the dry run are not modelled.
- Hashing in the mutation tool: the check after a restore is byte equality. The order in which sidecars are found is any order.
- Files that the mutation tool touches besides sources and sidecars (logs, binaries, touched siblings).
- The panes' own reasons to refuse a press (answers missing, no transfer, other averaging) are one reading each; the text of refusals is not modelled.
- A device restart in the middle of a single handler: handlers are atomic, device, render and drain steps come between them.
- The operator's own choice of an IR in ALIGN's picker: only bindings made by a finished sweep are modelled.
- Exceptions inside a worker's analysis, and joining threads at shutdown.
- Ownership.Console.ClickApply: the delay is the one requested; the analysis thread takes it over later.
- SPL logging, calibration records, report export and session files.
- Bearer tokens, method and body limits of the API: each is one comparison.
