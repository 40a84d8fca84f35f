/** The SWEEP state machine and the way its result goes back to whoever pressed: the rail,
    ALIGN's SWEEP MAIN and SWEEP SUB, or the RT60 pane. Every capture is known by the request
    whose audio it holds, so that a run also tells whose audio an impulse response is of. */
module SweepRouting {
  import opened Options
  import opened Captures
  import opened IrStores

  datatype Requester = Rail | Align | Rt60
  datatype Side = Main | Sub

  /** What must not move between the press and the capture. */
  datatype Readings = Readings(epoch: nat, synthetic: bool, resync: nat, drops: nat)

  /** What a press asks the rest of the app. */
  datatype Host = Host(generatorActive: bool, outputBusy: bool, outputChannels: int, quiescent: bool,
                       ratesAgree: bool, resyncPending: bool, sourceInstalled: bool)
  {
    /** Nothing but a running sweep stands in the way. */
    predicate Allows(requester: Requester, output: int) {
      !generatorActive && !outputBusy && (requester == Rail || 0 <= output < outputChannels) &&
      quiescent && ratesAgree && !resyncPending && sourceInstalled
    }
  }

  datatype Refusal =
    | Accepted
    | AlreadyRunning
    | GenIsPlaying
    | OutputBusy
    | NoSuchOutput
    | NotQuiescent
    | RatesDiffer
    | Resyncing

  datatype Pending = Pending(side: Side, output: int)

  /** The worker's answer: the request whose audio it analysed, and whether the analysis and
      the trace built from it are usable. */
  datatype Outcome = Outcome(request: nat, ok: bool, hasTrace: bool)

  // ------------------------------------------------------------- what a run keeps

  /** An accepted press; `side` is the ALIGN button it came from and `request` the capture
      request it made. */
  datatype Press = Press(requester: Requester, output: int, side: Option<Side>, at: Readings, request: nat)

  /** An analysis: the press it was started for, the readings then, the request whose audio
      the capture held, and whether that capture overtook the press. */
  datatype Analysis = Analysis(press: nat, at: Readings, request: nat, overtaken: bool)

  /** An IR that ALIGN bound or a trace that RT60 selected, and the analysis it came from. */
  datatype Binding = Binding(side: Side, id: Id, ir: Option<Ir>, source: Analysis)
  datatype Selection = Selection(id: Id, ir: Option<Ir>, source: Analysis)

  /** The running press is the last one accepted, and ALIGN's pending side is its own. */
  ghost predicate Running(phase: Phase, requester: Requester, output: int, at: Readings, pending: Option<Pending>,
                          presses: seq<Press>)
  {
    phase != Idle ==>
      presses != [] &&
      var last := presses[|presses| - 1];
      last.requester == requester && last.output == output && last.at == at &&
      (requester == Align ==> last.side.Some? && pending == Some(Pending(last.side.value, output)))
  }

  /** The readings are as they were at the press, and the audio is that press's own exactly
      when the capture did not overtake it. */
  predicate Honest(a: Analysis, presses: seq<Press>) {
    a.press < |presses| && a.at == presses[a.press].at &&
    (a.request == presses[a.press].request <==> !a.overtaken)
  }

  /** Each analysis is honest and of a later press than the one before. */
  ghost predicate AnalysesSound(analyses: seq<Analysis>, presses: seq<Press>) {
    analyses != [] ==>
      var n := |analyses| - 1;
      Honest(analyses[n], presses) && (n > 0 ==> analyses[n - 1].press < analyses[n].press) &&
      AnalysesSound(analyses[..n], presses)
  }

  /** The press came from ALIGN's button for that side. */
  predicate OwnPress(side: Side, press: nat, presses: seq<Press>) {
    press < |presses| && presses[press].requester == Align && presses[press].side == Some(side)
  }

  /** Each IR bound is what an analysis for that side's own button gave, of a later press each
      time. */
  ghost predicate BindingsSound(bindings: seq<Binding>, analyses: seq<Analysis>, presses: seq<Press>) {
    bindings != [] ==>
      var n := |bindings| - 1;
      var b := bindings[n];
      b.source in analyses && b.ir == Some(Ir(b.source.request)) && OwnPress(b.side, b.source.press, presses) &&
      (n > 0 ==> bindings[n - 1].source.press < b.source.press) && BindingsSound(bindings[..n], analyses, presses)
  }

  ghost predicate SelectionsSound(selections: seq<Selection>, analyses: seq<Analysis>, presses: seq<Press>) {
    selections != [] ==>
      var n := |selections| - 1;
      var x := selections[n];
      x.source in analyses && x.ir == Some(Ir(x.source.request)) && x.source.press < |presses| &&
      presses[x.source.press].requester == Rt60 && SelectionsSound(selections[..n], analyses, presses)
  }

  /** A capture is awaited for the last press and nobody has asked for another; an analysis
      under way is of the last press. */
  ghost predicate Awaited(phase: Phase, acc: Accumulator, job: Option<nat>, result: Option<Outcome>,
                          presses: seq<Press>, analyses: seq<Analysis>)
    requires phase != Idle ==> presses != []
  {
    (phase == PreRoll || phase == Playing ==>
       presses[|presses| - 1].request == acc.requests &&
       (analyses != [] ==> analyses[|analyses| - 1].press + 1 < |presses|)) &&
    (phase == Analysing ==>
       analyses != [] && analyses[|analyses| - 1].press + 1 == |presses| &&
       job == Some(analyses[|analyses| - 1].request) && (result.Some? ==> result.value.request == job.value))
  }

  ghost predicate BoundBefore(bindings: seq<Binding>, press: int) {
    bindings != [] ==> bindings[|bindings| - 1].source.press < press
  }

  lemma {:induction false} BindingAdded(bindings: seq<Binding>, analyses: seq<Analysis>, presses: seq<Press>,
                                        b: Binding) returns (after: seq<Binding>)
    requires BindingsSound(bindings, analyses, presses) && BoundBefore(bindings, b.source.press)
    requires b.source in analyses && b.ir == Some(Ir(b.source.request)) && OwnPress(b.side, b.source.press, presses)
    ensures after == bindings + [b] && BindingsSound(after, analyses, presses)
  {
    after := bindings + [b];
    assert after[..|bindings|] == bindings;
  }

  lemma {:induction false} SelectionAdded(selections: seq<Selection>, analyses: seq<Analysis>, presses: seq<Press>,
                                          x: Selection) returns (after: seq<Selection>)
    requires SelectionsSound(selections, analyses, presses)
    requires x.source in analyses && x.ir == Some(Ir(x.source.request)) && x.source.press < |presses|
    requires presses[x.source.press].requester == Rt60
    ensures after == selections + [x] && SelectionsSound(after, analyses, presses)
  {
    after := selections + [x];
    assert after[..|selections|] == selections;
  }

  /** A new analysis changes nothing about what the earlier ones gave. */
  lemma {:induction false} AnalysisFrames(analyses: seq<Analysis>, x: Analysis, presses: seq<Press>,
                                          bindings: seq<Binding>, selections: seq<Selection>)
    requires BindingsSound(bindings, analyses, presses) && SelectionsSound(selections, analyses, presses)
    ensures BindingsSound(bindings, analyses + [x], presses) && SelectionsSound(selections, analyses + [x], presses)
    decreases |bindings| + |selections|
  {
    if bindings != [] {
      AnalysisFrames(analyses, x, presses, bindings[..|bindings| - 1], selections);
    } else if selections != [] {
      AnalysisFrames(analyses, x, presses, bindings, selections[..|selections| - 1]);
    }
  }

  lemma {:induction false} AnalysisAdded(analyses: seq<Analysis>, presses: seq<Press>, x: Analysis)
    returns (after: seq<Analysis>)
    requires AnalysesSound(analyses, presses) && Honest(x, presses)
    requires analyses != [] ==> analyses[|analyses| - 1].press < x.press
    ensures after == analyses + [x] && AnalysesSound(after, presses)
  {
    after := analyses + [x];
    assert after[..|analyses|] == analyses;
  }

  /** The analysis that taking the published capture starts, for the last press. */
  function Taking(presses: seq<Press>, acc: Accumulator, now: Readings): Analysis
    requires presses != [] && acc.published.Some?
  {
    Analysis(|presses| - 1, now, acc.published.value.request, acc.overtaken)
  }

  /** It is honest when that press still waits and the readings have not moved. */
  lemma {:induction false} AnalysisTaken(x: Analysis, analyses: seq<Analysis>, presses: seq<Press>,
                                         bindings: seq<Binding>, selections: seq<Selection>, acc: Accumulator)
    returns (after: seq<Analysis>)
    requires AnalysesSound(analyses, presses) && BindingsSound(bindings, analyses, presses)
    requires SelectionsSound(selections, analyses, presses) && acc.Numbered() && acc.published.Some? && presses != []
    requires x == Taking(presses, acc, presses[|presses| - 1].at)
    requires Awaited(Playing, acc, None, None, presses, analyses)
    ensures after == analyses + [x] && after != [] && after[|after| - 1] == x && AnalysesSound(after, presses)
    ensures BindingsSound(bindings, after, presses) && SelectionsSound(selections, after, presses)
  {
    after := AnalysisAdded(analyses, presses, x);
    AnalysisFrames(analyses, x, presses, bindings, selections);
  }

  /** A new press changes nothing about what the earlier ones led to. */
  lemma {:induction false} PressFrames(presses: seq<Press>, p: Press, analyses: seq<Analysis>,
                                       bindings: seq<Binding>, selections: seq<Selection>, all: seq<Analysis>)
    requires AnalysesSound(analyses, presses) && BindingsSound(bindings, all, presses)
    requires SelectionsSound(selections, all, presses)
    ensures AnalysesSound(analyses, presses + [p]) && BindingsSound(bindings, all, presses + [p])
    ensures SelectionsSound(selections, all, presses + [p])
    decreases |analyses| + |bindings| + |selections|
  {
    if analyses != [] {
      PressFrames(presses, p, analyses[..|analyses| - 1], bindings, selections, all);
    } else if bindings != [] {
      PressFrames(presses, p, analyses, bindings[..|bindings| - 1], selections, all);
    } else if selections != [] {
      PressFrames(presses, p, analyses, bindings, selections[..|selections| - 1], all);
    }
  }

  // ---------------------------------------------------------- what a run's records say

  /** Every analysis is honest, and there is at most one, so at most one capture, for each
      accepted press. */
  lemma {:induction false} OneAnalysisPerPress(analyses: seq<Analysis>, presses: seq<Press>, i: nat, j: nat)
    requires AnalysesSound(analyses, presses) && i <= j < |analyses|
    ensures Honest(analyses[i], presses) && Honest(analyses[j], presses)
    ensures i < j ==> analyses[i].press < analyses[j].press
    decreases |analyses|
  {
    var n := |analyses| - 1;
    if j < n {
      OneAnalysisPerPress(analyses[..n], presses, i, j);
    } else if i < n {
      OneAnalysisPerPress(analyses[..n], presses, i, n - 1);
    }
  }

  /** What a finished sweep hands on is the audio of its own press exactly when the capture
      did not overtake it. */
  predicate OwnAudio(ir: Option<Ir>, source: Analysis, presses: seq<Press>) {
    ir.Some? && source.press < |presses| && (ir.value.request == presses[source.press].request <==> !source.overtaken)
  }

  /** Every binding of a run is for a press of the side's own button and no press is bound
      twice. */
  lemma {:induction false} EveryBindingIsOwn(bindings: seq<Binding>, analyses: seq<Analysis>, presses: seq<Press>,
                                             i: nat, j: nat)
    requires AnalysesSound(analyses, presses) && BindingsSound(bindings, analyses, presses) && i <= j < |bindings|
    ensures bindings[i].source in analyses && OwnPress(bindings[i].side, bindings[i].source.press, presses)
    ensures OwnAudio(bindings[i].ir, bindings[i].source, presses)
    ensures i < j ==> bindings[i].source.press < bindings[j].source.press
    decreases |bindings|
  {
    var n := |bindings| - 1;
    if j < n {
      EveryBindingIsOwn(bindings[..n], analyses, presses, i, j);
    } else if i < n {
      EveryBindingIsOwn(bindings[..n], analyses, presses, i, n - 1);
    } else {
      var k :| 0 <= k < |analyses| && analyses[k] == bindings[i].source;
      OneAnalysisPerPress(analyses, presses, k, k);
    }
  }

  /** Every selection is for an RT60 press. */
  lemma {:induction false} EverySelectionIsOwn(selections: seq<Selection>, analyses: seq<Analysis>, presses: seq<Press>,
                                               i: nat)
    requires AnalysesSound(analyses, presses) && SelectionsSound(selections, analyses, presses) && i < |selections|
    ensures selections[i].source in analyses && OwnAudio(selections[i].ir, selections[i].source, presses)
    ensures presses[selections[i].source.press].requester == Rt60
    decreases |selections|
  {
    var n := |selections| - 1;
    if i < n {
      EverySelectionIsOwn(selections[..n], analyses, presses, i);
    } else {
      var k :| 0 <= k < |analyses| && analyses[k] == selections[i].source;
      OneAnalysisPerPress(analyses, presses, k, k);
    }
  }

  /** No capture overtook the press that consumed it. */
  predicate Clean(analyses: seq<Analysis>) {
    forall i :: 0 <= i < |analyses| ==> !analyses[i].overtaken
  }

  lemma {:induction false} EveryAnalysis(analyses: seq<Analysis>, presses: seq<Press>)
    requires AnalysesSound(analyses, presses)
    ensures forall i :: 0 <= i < |analyses| ==> Honest(analyses[i], presses)
    ensures forall i, j :: 0 <= i < j < |analyses| ==> analyses[i].press < analyses[j].press
  {
    forall i | 0 <= i < |analyses| ensures Honest(analyses[i], presses) {
      OneAnalysisPerPress(analyses, presses, i, i);
    }
    forall i, j | 0 <= i < j < |analyses| ensures analyses[i].press < analyses[j].press {
      OneAnalysisPerPress(analyses, presses, i, j);
    }
  }

  lemma {:induction false} EveryDelivery(bindings: seq<Binding>, selections: seq<Selection>, analyses: seq<Analysis>,
                                         presses: seq<Press>)
    requires AnalysesSound(analyses, presses) && BindingsSound(bindings, analyses, presses)
    requires SelectionsSound(selections, analyses, presses)
    ensures forall i :: 0 <= i < |bindings| ==>
              OwnPress(bindings[i].side, bindings[i].source.press, presses) &&
              OwnAudio(bindings[i].ir, bindings[i].source, presses)
    ensures forall i :: 0 <= i < |selections| ==>
              OwnAudio(selections[i].ir, selections[i].source, presses) &&
              presses[selections[i].source.press].requester == Rt60
    ensures Clean(analyses) ==>
              (forall i :: 0 <= i < |bindings| ==> !bindings[i].source.overtaken) &&
              (forall i :: 0 <= i < |selections| ==> !selections[i].source.overtaken)
  {
    forall i | 0 <= i < |bindings|
      ensures OwnPress(bindings[i].side, bindings[i].source.press, presses) &&
              OwnAudio(bindings[i].ir, bindings[i].source, presses) &&
              (Clean(analyses) ==> !bindings[i].source.overtaken)
    {
      EveryBindingIsOwn(bindings, analyses, presses, i, i);
    }
    forall i | 0 <= i < |selections|
      ensures OwnAudio(selections[i].ir, selections[i].source, presses) &&
              presses[selections[i].source.press].requester == Rt60 &&
              (Clean(analyses) ==> !selections[i].source.overtaken)
    {
      EverySelectionIsOwn(selections, analyses, presses, i);
    }
  }

  // ---------------------------------------------------------------------- events

  /** Everything that can happen to a sweep, with the readings it happens under. */
  datatype Event =
    | RailPressed(host: Host, now: Readings)
    | SidePressed(side: Side, output: int, host: Host, now: Readings)
    | Rt60Pressed(output: int, host: Host, now: Readings)
    | Ticked(now: Readings, timedOut: bool, settled: bool, newId: Id)
    | WorkerAnswered(ok: bool, hasTrace: bool)
    | OtherPressed
    | DrainBegins
    | CaptureFills
  {
    function Drain(): DrainStep {
      if DrainBegins? then Began else if CaptureFills? then Filled else Otherwise
    }
  }

  class Sweep {
    var phase: Phase
    var armedOutput: int
    var armedRequester: Requester
    var armedAt: Readings
    var sourceArmed: bool
    var acc: Accumulator
    var job: Option<nat>
    var result: Option<Outcome>
    var library: set<Id>
    const irStore: IrStore
    var pending: Option<Pending>
    var boundMain: Option<Ir>
    var boundSub: Option<Ir>
    var rt60Selected: Option<Id>

    ghost var presses: seq<Press>
    ghost var analyses: seq<Analysis>
    ghost var bindings: seq<Binding>
    ghost var selections: seq<Selection>

    ghost predicate Valid()
      reads this, irStore
    {
      irStore.Valid() && acc.Numbered() && (sourceArmed <==> phase == Playing) &&
      Running(phase, armedRequester, armedOutput, armedAt, pending, presses) &&
      Awaited(phase, acc, job, result, presses, analyses) &&
      AnalysesSound(analyses, presses) && BindingsSound(bindings, analyses, presses) &&
      SelectionsSound(selections, analyses, presses) &&
      (phase != Idle ==> BoundBefore(bindings, |presses| - 1))
    }

    constructor ()
      ensures Valid() && phase == Idle && acc == UNUSED && library == {} && pending == None
      ensures presses == [] && analyses == [] && bindings == [] && selections == []
      ensures fresh(irStore)
    {
      phase, armedOutput, armedRequester, armedAt := Idle, 0, Rail, Readings(0, false, 0, 0);
      sourceArmed, acc, job, result, library := false, UNUSED, None, None, {};
      pending, boundMain, boundSub, rt60Selected := None, None, None, None;
      presses, analyses, bindings, selections := [], [], [], [];
      irStore := new IrStore();
    }

    // ---------------------------------------------------------------- presses

    /** `startOn`: why the press is refused, in the order the reasons are looked at; an
        accepted one asks for a capture and plays nothing yet. */
    method StartOn(output: int, requester: Requester, ghost side: Option<Side>, host: Host, now: Readings)
      returns (why: Refusal)
      modifies this`phase, this`acc, this`armedOutput, this`armedRequester, this`armedAt, this`presses
      ensures why == Accepted ==>
                phase == PreRoll && acc == old(acc).Arm() &&
                presses == old(presses) + [Press(requester, output, side, now, acc.requests)] &&
                armedOutput == output && armedRequester == requester && armedAt == now
      ensures why != Accepted ==> unchanged(this)
      ensures why == Accepted <==> old(phase) == Idle && host.Allows(requester, output)
      ensures why == AlreadyRunning <==> old(phase) != Idle
      ensures why == GenIsPlaying <==> old(phase) == Idle && host.generatorActive
      ensures why == OutputBusy <==> old(phase) == Idle && !host.generatorActive && host.outputBusy
      ensures var free := old(phase) == Idle && !host.generatorActive && !host.outputBusy;
              var reachable := free && (requester == Rail || 0 <= output < host.outputChannels);
              (why == NoSuchOutput <==> free && !reachable) &&
              (why == RatesDiffer <==> reachable && host.quiescent && !host.ratesAgree) &&
              (why == Resyncing <==> reachable && host.quiescent && host.ratesAgree && host.resyncPending)
      ensures why == Accepted ==> host.quiescent && host.ratesAgree && !host.resyncPending && host.sourceInstalled
    {
      if phase != Idle { return AlreadyRunning; }
      if host.generatorActive { return GenIsPlaying; }
      if host.outputBusy { return OutputBusy; }
      if requester != Rail && (output < 0 || output >= host.outputChannels) { return NoSuchOutput; }
      if !host.quiescent { return NotQuiescent; }
      if !host.ratesAgree { return RatesDiffer; }
      if host.resyncPending { return Resyncing; }
      if !host.sourceInstalled { return NotQuiescent; }
      acc := acc.Arm();
      armedOutput, armedRequester, armedAt := output, requester, now;
      presses := presses + [Press(requester, output, side, now, acc.requests)];
      phase := PreRoll;
      return Accepted;
    }

    /** What an accepted press makes of the records. */
    ghost predicate Began(requester: Requester, output: int, side: Option<Side>, now: Readings, why: Refusal,
                          before: seq<Press>, was: Accumulator)
      reads this, irStore
    {
      Valid() &&
      if why == Accepted
      then phase == PreRoll && acc == was.Arm() && armedRequester == requester && armedAt == now &&
           presses == before + [Press(requester, output, side, now, acc.requests)]
      else presses == before && acc == was
    }

    /** The rail's SWEEP button. */
    method ClickRail(host: Host, now: Readings) returns (why: Refusal)
      requires Valid()
      modifies this
      ensures Began(Rail, 0, None, now, why, old(presses), old(acc)) && analyses == old(analyses)
    {
      PressFrames(presses, Press(Rail, 0, None, now, acc.requests + 1), analyses, bindings, selections, analyses);
      why := StartOn(0, Rail, None, host, now);
    }

    /** The RT60 pane's SWEEP. */
    method ClickRt60(output: int, host: Host, now: Readings) returns (why: Refusal)
      requires Valid()
      modifies this
      ensures Began(Rt60, output, None, now, why, old(presses), old(acc)) && analyses == old(analyses)
    {
      PressFrames(presses, Press(Rt60, output, None, now, acc.requests + 1), analyses, bindings, selections, analyses);
      why := StartOn(output, Rt60, None, host, now);
    }

    /** ALIGN's SWEEP MAIN and SWEEP SUB: the side is recorded before the press, and put back
        if it is refused. */
    method SweepOnSide(side: Side, output: int, host: Host, now: Readings) returns (why: Refusal)
      requires Valid()
      modifies this`phase, this`acc, this`armedOutput, this`armedRequester, this`armedAt, this`presses, this`pending
      ensures Began(Align, output, Some(side), now, why, old(presses), old(acc))
      ensures if why == Accepted then pending == Some(Pending(side, output)) else unchanged(this)
      ensures why == Accepted <==> old(phase) == Idle && host.Allows(Align, output)
    {
      PressFrames(presses, Press(Align, output, Some(side), now, acc.requests + 1), analyses, bindings, selections,
                  analyses);
      var previous := pending;
      pending := Some(Pending(side, output));
      why := StartOn(output, Align, Some(side), host, now);
      if why != Accepted {
        pending := previous;
      }
    }

    // ---------------------------------------------------- the capture accumulator

    /** LOCATE or CAL asks for a capture; both refuse while a sweep is busy. */
    method OtherArms()
      requires Valid()
      modifies this`acc
      ensures Valid() && acc == if phase == Idle then old(acc).Arm() else old(acc)
    {
      if phase == Idle {
        acc := acc.Arm();
      }
    }

    method BeginDrain()
      requires Valid()
      modifies this`acc
      ensures Valid() && acc == old(acc).Begin()
    {
      acc := acc.Begin();
    }

    method FillCapture()
      requires Valid()
      modifies this`acc
      ensures Valid() && acc == old(acc).Fill()
    {
      acc := acc.Fill();
    }

    // ------------------------------------------------------------------- polls

    method Abort()
      requires Valid()
      modifies this`sourceArmed, this`phase
      ensures Valid() && phase == Idle && !sourceArmed
    {
      sourceArmed := false;
      phase := Idle;
    }

    /** `startAnalysis`: the source goes off before the worker gets the capture, whichever
        request it was recorded for. */
    method StartAnalysis(ghost now: Readings)
      requires Valid() && phase == Playing && now == armedAt && acc.published.Some?
      modifies this`sourceArmed, this`phase, this`job, this`result, this`analyses
      ensures Valid() && phase == Analysing && !sourceArmed && result == None
      ensures analyses == old(analyses) + [Taking(presses, acc, now)]
    {
      ghost var after := AnalysisTaken(Taking(presses, acc, now), analyses, presses, bindings, selections, acc);
      sourceArmed := false;
      HandOver(acc.published.value.request, after);
      phase := Analysing;
    }

    /** The worker forgets its last answer and gets the capture. */
    method HandOver(request: nat, ghost after: seq<Analysis>)
      modifies this`job, this`result, this`analyses
      ensures job == Some(request) && result == None && analyses == after
    {
      job, result := Some(request), None;
      analyses := after;
    }

    /** The worker's thread publishes its answer. */
    method WorkerDone(ok: bool, hasTrace: bool)
      requires Valid()
      modifies this`result
      ensures Valid() && result == if job.Some? then Some(Outcome(job.value, ok, hasTrace)) else old(result)
    {
      if job.Some? {
        result := Some(Outcome(job.value, ok, hasTrace));
      }
    }

    /** One tick. The source is switched on only by the step from PreRoll to Playing; a capture
        is taken only in Playing and only with every reading as it was at the press. */
    method Poll(now: Readings, timedOut: bool, settled: bool, newId: Id)
      requires Valid()
      modifies this`phase, this`sourceArmed, this`job, this`result, this`analyses, this`library, this`pending,
               this`boundMain, this`boundSub, this`rt60Selected, this`bindings, this`selections, irStore
      ensures Valid()
      ensures phase == NextPhase(old(phase), now != armedAt, acc.published.Some?, timedOut, settled, old(result).Some?)
      ensures old(phase) != Idle ==>
                (phase == Idle <==>
                   (old(phase) == PreRoll && (now != armedAt || timedOut)) ||
                   (old(phase) == Playing && (now != armedAt || (timedOut && acc.published.None?))) ||
                   (old(phase) == Analysing && old(result).Some?))
      ensures old(phase) != Playing && phase == Playing ==> old(phase) == PreRoll && settled
      ensures analyses == if old(phase) == Playing && phase == Analysing
                          then old(analyses) + [Taking(presses, acc, now)] else old(analyses)
      ensures old(phase) == Analysing && old(result).Some? ==>
                Finished(old(result).value, newId, old(library), old(bindings), old(selections))
      ensures old(phase) != Analysing || old(result).None? ==>
                bindings == old(bindings) && selections == old(selections) && library == old(library) &&
                pending == old(pending)
    {
      if phase == Idle {
        return;
      }
      if phase == Analysing {
        if result.Some? {
          Finish(result.value, newId);
        }
        return;
      }
      PollCapture(now, timedOut, settled);
    }

    /** PreRoll and Playing share the abort paths. */
    method PollCapture(now: Readings, timedOut: bool, settled: bool)
      requires Valid() && (phase == PreRoll || phase == Playing)
      modifies this`phase, this`sourceArmed, this`job, this`result, this`analyses
      ensures Valid()
      ensures phase == NextPhase(old(phase), now != armedAt, acc.published.Some?, timedOut, settled, false)
      ensures analyses == if phase == Analysing then old(analyses) + [Taking(presses, acc, now)] else old(analyses)
    {
      if now.epoch != armedAt.epoch || now.synthetic != armedAt.synthetic {
        Abort();
        return;
      }
      if now.resync != armedAt.resync {
        Abort();
        return;
      }
      var capture := acc.published;
      if now.drops != armedAt.drops {
        Abort();
        return;
      }
      if phase == PreRoll {
        PollPreRoll(timedOut, settled);
        return;
      }
      if capture.Some? {
        StartAnalysis(now);
        return;
      }
      if timedOut {
        Abort();
      }
    }

    method PollPreRoll(timedOut: bool, settled: bool)
      requires Valid() && phase == PreRoll
      modifies this`phase, this`sourceArmed
      ensures Valid() && phase == NextPhase(PreRoll, false, false, timedOut, settled, false)
    {
      if timedOut {
        Abort();
      } else if settled {
        sourceArmed, phase := true, Playing;
      }
    }

    // ------------------------------------------------------------------ results

    /** The analysis the worker was given last. */
    ghost function LastAnalysis(): Analysis
      reads this
      requires analyses != []
    {
      analyses[|analyses| - 1]
    }

    /** What a finished sweep leaves: a usable IR is stored under its new trace id and handed
        to the pane that asked, never to another. */
    ghost predicate Finished(outcome: Outcome, newId: Id, had: set<Id>, bound: seq<Binding>, selected: seq<Selection>)
      reads this, irStore
    {
      var kept := outcome.ok && outcome.hasTrace && newId !in had;
      var ir := Some(Ir(outcome.request));
      analyses != [] && LastAnalysis().press < |presses| && outcome.request == LastAnalysis().request &&
      library == (if kept then had + {newId} else had) && (kept ==> irStore.Get(newId) == ir) &&
      Delivered(newId, ir, kept, bound, selected)
    }

    ghost predicate Delivered(newId: Id, ir: Option<Ir>, kept: bool, bound: seq<Binding>, selected: seq<Selection>)
      reads this
      requires analyses != [] && LastAnalysis().press < |presses|
    {
      var press := presses[LastAnalysis().press];
      bindings == (if kept && press.requester == Align && press.side.Some?
                   then bound + [Binding(press.side.value, newId, ir, LastAnalysis())] else bound) &&
      selections == (if kept && press.requester == Rt60
                     then selected + [Selection(newId, ir, LastAnalysis())] else selected)
    }

    /** `finish`. */
    method Finish(outcome: Outcome, newId: Id)
      requires Valid() && phase == Analysing && result == Some(outcome)
      modifies this`phase, this`library, this`pending, this`boundMain, this`boundSub, this`rt60Selected, this`bindings,
               this`selections, irStore
      ensures Valid() && phase == Idle && Finished(outcome, newId, old(library), old(bindings), old(selections))
    {
      phase := Idle;
      if !outcome.ok || !outcome.hasTrace || newId in library {
        return;
      }
      Deliver(newId, Ir(outcome.request));
    }

    method Deliver(newId: Id, ir: Ir)
      requires irStore.Valid() && analyses != [] && LastAnalysis().press + 1 == |presses|
      requires BindingsSound(bindings, analyses, presses) && SelectionsSound(selections, analyses, presses)
      requires ir == Ir(LastAnalysis().request) && BoundBefore(bindings, |presses| - 1)
      requires Running(Analysing, armedRequester, armedOutput, armedAt, pending, presses)
      modifies this`library, this`pending, this`boundMain, this`boundSub, this`rt60Selected, this`bindings,
               this`selections, irStore
      ensures irStore.Valid() && irStore.Get(newId) == Some(ir) && library == old(library) + {newId}
      ensures BindingsSound(bindings, analyses, presses) && SelectionsSound(selections, analyses, presses)
      ensures Delivered(newId, Some(ir), true, old(bindings), old(selections))
    {
      Keep(newId, ir);
      Report(newId, irStore.Get(newId));
    }

    method Keep(newId: Id, ir: Ir)
      requires irStore.Valid()
      modifies this`library, irStore
      ensures irStore.Valid() && irStore.Get(newId) == Some(ir) && library == old(library) + {newId}
    {
      library := library + {newId};
      irStore.Add(newId, ir);
    }

    /** `Host::swept`: each pane gets only the sweeps it asked for. */
    method Report(newId: Id, found: Option<Ir>)
      requires BindingsSound(bindings, analyses, presses) && SelectionsSound(selections, analyses, presses)
      requires analyses != [] && LastAnalysis().press + 1 == |presses| && found == Some(Ir(LastAnalysis().request))
      requires Running(Analysing, armedRequester, armedOutput, armedAt, pending, presses)
      requires BoundBefore(bindings, |presses| - 1)
      modifies this`pending, this`boundMain, this`boundSub, this`rt60Selected, this`bindings, this`selections
      ensures BindingsSound(bindings, analyses, presses) && SelectionsSound(selections, analyses, presses)
      ensures Delivered(newId, found, true, old(bindings), old(selections))
    {
      if armedRequester == Rt60 {
        SelectRt60(newId, found);
      } else if armedRequester == Align {
        BindAlign(newId, found);
      }
    }

    /** RT60's `onSwept`: its own sweep becomes the selection. */
    method SelectRt60(newId: Id, ghost found: Option<Ir>)
      requires SelectionsSound(selections, analyses, presses) && analyses != [] && LastAnalysis().press < |presses|
      requires presses[LastAnalysis().press].requester == Rt60 && found == Some(Ir(LastAnalysis().request))
      modifies this`rt60Selected, this`selections
      ensures SelectionsSound(selections, analyses, presses) && rt60Selected == Some(newId)
      ensures selections == old(selections) + [Selection(newId, found, LastAnalysis())]
    {
      ghost var after := SelectionAdded(selections, analyses, presses, Selection(newId, found, LastAnalysis()));
      rt60Selected := Some(newId);
      selections := after;
    }

    /** ALIGN's `onSwept`, for a sweep one of its own buttons started: it always binds. */
    method BindAlign(newId: Id, found: Option<Ir>)
      requires BindingsSound(bindings, analyses, presses) && analyses != [] && LastAnalysis().press < |presses|
      requires var press := presses[LastAnalysis().press];
               press.requester == Align && press.side.Some? && pending == Some(Pending(press.side.value, armedOutput))
      requires found == Some(Ir(LastAnalysis().request)) && BoundBefore(bindings, LastAnalysis().press)
      modifies this`pending, this`boundMain, this`boundSub, this`bindings
      ensures BindingsSound(bindings, analyses, presses) && pending == None
      ensures bindings == old(bindings) +
                          [Binding(presses[LastAnalysis().press].side.value, newId, found, LastAnalysis())]
    {
      ghost var after := BindingAdded(bindings, analyses, presses,
                                      Binding(pending.value.side, newId, found, LastAnalysis()));
      OnSwept(newId, armedOutput, found, LastAnalysis());
      assert bindings == after;
    }

    /** ALIGN's `onSwept`; `found` is what the store holds under the id. */
    method OnSwept(id: Id, output: int, found: Option<Ir>, ghost source: Analysis)
      modifies this`pending, this`boundMain, this`boundSub, this`bindings
      ensures old(pending).None? || old(pending).value.output != output ==> unchanged(this)
      ensures old(pending).Some? && old(pending).value.output == output ==>
                pending == None && bindings == old(bindings) + [Binding(old(pending).value.side, id, found, source)] &&
                boundMain == (if old(pending).value.side == Main then found else old(boundMain)) &&
                boundSub == (if old(pending).value.side == Sub then found else old(boundSub))
    {
      if pending.None? || pending.value.output != output {
        return;
      }
      match pending.value.side {
        case Main => boundMain := found;
        case Sub => boundSub := found;
      }
      bindings := bindings + [Binding(pending.value.side, id, found, source)];
      pending := None;
    }

    // --------------------------------------------------------------- whole runs

    method Handle(e: Event)
      requires Valid()
      modifies this, irStore
      ensures Valid()
      ensures Moves(e.Drain(), old(acc), acc)
      ensures Clean(old(analyses)) && !old(acc).overtaken && (e.CaptureFills? ==> !old(acc).armRequested) ==>
                Clean(analyses) && !acc.overtaken
    {
      var why: Refusal;
      match e {
        case RailPressed(host, now) => why := ClickRail(host, now);
        case SidePressed(side, output, host, now) => why := SweepOnSide(side, output, host, now);
        case Rt60Pressed(output, host, now) => why := ClickRt60(output, host, now);
        case Ticked(now, timedOut, settled, newId) => Poll(now, timedOut, settled, newId);
        case WorkerAnswered(ok, hasTrace) => WorkerDone(ok, hasTrace);
        case OtherPressed => OtherArms();
        case DrainBegins => BeginDrain();
        case CaptureFills => FillCapture();
      }
    }

    /** Any interleaving of presses, ticks, worker answers and drains: at most one analysis for
        each press, with the readings of that press; every IR bound comes from an analysis for
        the side's own button, and it is the audio of that very press exactly when no capture
        overtook it; none does if no capture is completed in a drain during which one was
        requested. */
    method Run(events: seq<Event>) returns (ghost steps: seq<DrainStep>, ghost accs: seq<Accumulator>)
      requires Valid()
      modifies this, irStore
      ensures Valid()
      ensures forall i :: 0 <= i < |analyses| ==> Honest(analyses[i], presses)
      ensures forall i, j :: 0 <= i < j < |analyses| ==> analyses[i].press < analyses[j].press
      ensures forall i :: 0 <= i < |bindings| ==>
                OwnPress(bindings[i].side, bindings[i].source.press, presses) &&
                OwnAudio(bindings[i].ir, bindings[i].source, presses)
      ensures forall i :: 0 <= i < |selections| ==>
                OwnAudio(selections[i].ir, selections[i].source, presses) &&
                presses[selections[i].source.press].requester == Rt60
      ensures |steps| == |events| && forall i :: 0 <= i < |events| ==> steps[i] == events[i].Drain()
      ensures Traced(steps, accs) && accs[0] == old(acc) && accs[|events|] == acc
      ensures QuietDrains(steps, accs) && Clean(old(analyses)) && !old(acc).overtaken ==>
                (forall i :: 0 <= i < |bindings| ==> !bindings[i].source.overtaken) &&
                (forall i :: 0 <= i < |selections| ==> !selections[i].source.overtaken)
    {
      steps, accs := [], [acc];
      for n := 0 to |events|
        invariant Valid()
        invariant |steps| == n && forall i :: 0 <= i < n ==> steps[i] == events[i].Drain()
        invariant Traced(steps, accs) && accs[0] == old(acc) && accs[n] == acc
        invariant QuietDrains(steps, accs) && Clean(old(analyses)) && !old(acc).overtaken ==>
                    Clean(analyses) && !acc.overtaken
      {
        Handle(events[n]);
        QuietNext(steps, accs, events[n].Drain(), acc);
        steps, accs := steps + [events[n].Drain()], accs + [acc];
      }
      EveryAnalysis(analyses, presses);
      EveryDelivery(bindings, selections, analyses, presses);
    }
  }

  const HOST: Host := Host(false, false, 2, true, true, false, true)
  const FIRST: Press := Press(Align, 0, Some(Main), Readings(1, false, 0, 0), 1)
  const SECOND: Press := Press(Align, 1, Some(Sub), Readings(1, false, 0, 1), 2)

  /** The request at a press does not stop the capture that is being filled. A sweep of MAIN
      is aborted by a dropped frame while a drain is under way ... */
  method AbortedDuringDrain() returns (sweep: Sweep)
    ensures fresh(sweep) && fresh(sweep.irStore) && sweep.Valid() && sweep.phase == Idle
    ensures sweep.presses == [FIRST] && sweep.library == {} && sweep.analyses == [] && sweep.bindings == []
    ensures sweep.acc == Accumulator(false, Some(1), None, 1, 0, false)
  {
    sweep := new Sweep();
    var why := sweep.SweepOnSide(Main, 0, HOST, FIRST.at);
    sweep.BeginDrain();
    sweep.Poll(SECOND.at, false, false, "a");
  }

  /** ... SWEEP SUB is pressed, and the drain completes MAIN's capture ... */
  method PressDuringDrain() returns (sweep: Sweep)
    ensures fresh(sweep) && fresh(sweep.irStore) && sweep.Valid() && sweep.phase == PreRoll
    ensures sweep.presses == [FIRST, SECOND] && sweep.armedAt == SECOND.at && sweep.library == {}
    ensures sweep.analyses == [] && sweep.bindings == [] && sweep.acc.published == Some(Capture(0, 1))
  {
    sweep := AbortedDuringDrain();
    var why := sweep.SweepOnSide(Sub, 1, HOST, SECOND.at);
    sweep.FillCapture();
  }

  /** ... SUB's sweep takes it ... */
  method EarlierCaptureTaken() returns (sweep: Sweep)
    ensures fresh(sweep) && fresh(sweep.irStore) && sweep.Valid() && sweep.phase == Analysing
    ensures sweep.presses == [FIRST, SECOND] && sweep.library == {} && sweep.bindings == []
    ensures sweep.job == Some(FIRST.request)
  {
    sweep := PressDuringDrain();
    sweep.Poll(SECOND.at, false, true, "a");
    assert sweep.phase == Playing && sweep.bindings == [] && sweep.library == {};
    sweep.Poll(SECOND.at, false, false, "a");
  }

  /** ... and binds MAIN's audio to SUB. */
  method WrongLoudspeaker() returns (sweep: Sweep)
    ensures fresh(sweep) && sweep.Valid() && sweep.presses == [FIRST, SECOND] && |sweep.bindings| == 1
    ensures sweep.bindings[0].side == Sub && sweep.bindings[0].ir == Some(Ir(FIRST.request))
    ensures FIRST.side == Some(Main) && FIRST.request != SECOND.request
  {
    sweep := EarlierCaptureTaken();
    sweep.WorkerDone(true, true);
    sweep.Poll(SECOND.at, false, false, "a");
  }
}
