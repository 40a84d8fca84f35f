/** The six features of the app that share one output engine and one raw-capture
    accumulator: LOCATE, CAL, SWEEP, ALIGN, VERIFY and GEN. Each press is guarded by its own
    expression over the others' flags; every handler below keeps the flags equivalent to a
    single holder, and with them what the engine plays and whose capture is taken.

    Readings of clocks, of the analysis thread's counters and of the panes' settings are
    parameters, so every proof covers any value they can have. */
module Ownership {
  import opened Options
  import opened Captures

  datatype Feature = LOCATE | CAL | SWEEP | ALIGN | VERIFY | GEN
  type Holder = Option<Feature>

  datatype AlignStep =
    | Answering
    | MeasuringHigh
    | MeasuringLow
    | AskingCycle
    | AskingPolarity
    | Computed
    | MeasuringSum
    | AlignDone
  datatype VerifyState = VerifyIdle | Waiting | Measuring | Settling | VerifyDone
  datatype GenState = GenIdle | GenPlaying | Swapping | Stopping

  function Name(f: Feature): string {
    match f
    case LOCATE => "LOCATE" case CAL => "CAL" case SWEEP => "SWEEP"
    case ALIGN => "ALIGN" case VERIFY => "VERIFY" case GEN => "GEN"
  }

  // -------------------------------------------------------------- the busy flags

  datatype Flags = Flags(locateWaiting: bool, locateArmed: bool, cal: bool, sweep: Phase, align: AlignStep,
                         verify: VerifyState, gen: GenState)
  {
    predicate LocateBusy() { locateWaiting || locateArmed }
    predicate SweepBusy() { sweep != Idle }
    predicate AlignBusy() { align == MeasuringHigh || align == MeasuringLow || align == MeasuringSum }
    predicate VerifyBusy() { verify == Waiting || verify == Measuring || verify == Settling }
    predicate GenActive() { gen != GenIdle }

    predicate CaptureBusy() {
      locateWaiting || locateArmed || cal || SweepBusy() || AlignBusy()
    }

    predicate OutputBusy() {
      CaptureBusy() || VerifyBusy() || GenActive()
    }

    predicate Active(f: Feature) {
      match f
      case LOCATE => LocateBusy()
      case CAL => cal
      case SWEEP => SweepBusy()
      case ALIGN => AlignBusy()
      case VERIFY => VerifyBusy()
      case GEN => GenActive()
    }

    /** The feature in a phase with its excitation on. */
    function Player(): Option<Feature> {
      if LocateBusy() then Some(LOCATE) else if sweep == Playing then Some(SWEEP)
      else if AlignBusy() then Some(ALIGN) else if verify == Waiting || verify == Measuring then Some(VERIFY)
      else if gen == GenPlaying then Some(GEN) else None
    }

    /** The feature waiting for a capture it asked for. */
    function Waiter(): Option<Feature> {
      if locateArmed then Some(LOCATE) else if cal then Some(CAL)
      else if sweep == PreRoll || sweep == Playing then Some(SWEEP) else None
    }

    ghost predicate OneActive() {
      forall f, g :: Active(f) && Active(g) ==> f == g
    }

    function Holder(): Holder {
      if LocateBusy() then Some(LOCATE) else if cal then Some(CAL) else if SweepBusy() then Some(SWEEP)
      else if AlignBusy() then Some(ALIGN) else if VerifyBusy() then Some(VERIFY)
      else if GenActive() then Some(GEN) else None
    }

    /** `outputHolderName`. */
    function OutputHolderName(): string {
      if locateWaiting || locateArmed then "LOCATE"
      else if cal then "CAL"
      else if SweepBusy() then "SWEEP"
      else if AlignBusy() then "ALIGN"
      else if VerifyBusy() then "VERIFY"
      else ""
    }

    /** The flags say no more than who holds the output. */
    predicate Single() {
      (LocateBusy() ==> !cal && !SweepBusy() && !AlignBusy() && !VerifyBusy() && !GenActive()) &&
      (cal ==> !SweepBusy() && !AlignBusy() && !VerifyBusy() && !GenActive()) &&
      (SweepBusy() ==> !AlignBusy() && !VerifyBusy() && !GenActive()) &&
      (AlignBusy() ==> !VerifyBusy() && !GenActive()) &&
      (VerifyBusy() ==> !GenActive())
    }
  }

  lemma SingleIsOneActive(flags: Flags)
    ensures flags.Single() <==> flags.OneActive()
    ensures flags.Single() ==> forall f :: flags.Active(f) <==> flags.Holder() == Some(f)
    ensures flags.OutputBusy() <==> flags.Holder().Some?
  {
    if flags.OneActive() {
      assert flags.Active(LOCATE) == flags.LocateBusy() && flags.Active(CAL) == flags.cal &&
             flags.Active(SWEEP) == flags.SweepBusy() && flags.Active(ALIGN) == flags.AlignBusy() &&
             flags.Active(VERIFY) == flags.VerifyBusy() && flags.Active(GEN) == flags.GenActive();
    }
  }

  /** `outputHolderName` is the active feature's name, and empty exactly for GEN or nobody. */
  lemma HolderIsNamed(flags: Flags)
    requires flags.OneActive()
    ensures forall f :: f != GEN && flags.Active(f) ==> flags.OutputHolderName() == Name(f)
    ensures flags.OutputHolderName() == "" <==> forall f :: flags.Active(f) ==> f == GEN
  {
    SingleIsOneActive(flags);
  }

  // ------------------------------------------------------------ the output engine

  /** `slot` is the feature whose source is installed, built for device epoch `slotEpoch`. */
  datatype Engine = Engine(armed: bool, publishedIdle: bool, epoch: nat, slotEpoch: nat, slot: Option<Feature>)
  {
    predicate Quiescent() { publishedIdle && !armed }

    /** The engine is armed exactly while the active feature plays on the device it started
        on, and what it plays is that feature's own source. */
    ghost predicate Follows(flags: Flags) {
      slotEpoch <= epoch &&
      (armed <==> flags.Player().Some? && slotEpoch == epoch) &&
      (flags.Player().Some? ==> slot == flags.Player())
    }

    function SetSource(f: Feature): Engine {
      this.(slot := Some(f), slotEpoch := epoch)
    }

    /** `prepare`: a device (re)start. */
    function Prepared(): Engine {
      this.(epoch := epoch + 1, armed := false, publishedIdle := true)
    }
  }

  // ---------------------------------------------------------------- consumed captures

  /** A capture consumed by a feature that was waiting for request number `armed`; it was
      `overtaken` when published before the analysis thread had picked that request up. */
  datatype Taken = Taken(feature: Feature, capture: Capture, armed: nat, overtaken: bool)

  /** The published capture, taken by a feature waiting for the last request. */
  function Taking(f: Feature, acc: Accumulator): Taken
    requires acc.published.Some?
  {
    Taken(f, acc.published.value, acc.requests, acc.overtaken)
  }

  /** Nothing is consumed twice, and a capture holds the audio of its consumer's own press
      exactly when it did not overtake it. */
  predicate Sound(taken: seq<Taken>) {
    (forall i, j :: 0 <= i < j < |taken| ==> taken[i].capture.id != taken[j].capture.id) &&
    (forall i :: 0 <= i < |taken| ==> (taken[i].capture.request == taken[i].armed <==> !taken[i].overtaken))
  }

  /** Every capture consumed was recorded for the press that consumed it. */
  predicate Clean(taken: seq<Taken>) {
    forall i :: 0 <= i < |taken| ==> !taken[i].overtaken
  }

  predicate Fresh(taken: seq<Taken>, id: nat) {
    forall i :: 0 <= i < |taken| ==> taken[i].capture.id != id
  }

  predicate Below(taken: seq<Taken>, n: nat) {
    forall i :: 0 <= i < |taken| ==> taken[i].capture.id < n
  }

  /** What is published while some feature waits has not been consumed. */
  ghost predicate TakenFollows(flags: Flags, acc: Accumulator, taken: seq<Taken>) {
    Sound(taken) && Below(taken, acc.publications) &&
    (acc.published.Some? && flags.Waiter().Some? ==> Fresh(taken, acc.published.value.id))
  }

  lemma {:induction false} TakeIsSound(taken: seq<Taken>, acc: Accumulator, f: Feature)
    requires Sound(taken) && Below(taken, acc.publications) && acc.Numbered()
    requires acc.published.Some? && Fresh(taken, acc.published.value.id)
    ensures Sound(taken + [Taking(f, acc)]) && Below(taken + [Taking(f, acc)], acc.publications)
  {
  }

  // ------------------------------------------------------------------ whole runs

  /** From one moment to the next the output is kept, taken from nobody, or given up. */
  predicate Handover(a: Holder, b: Holder) {
    a == b || a.None? || b.None?
  }

  /** What every run keeps. */
  predicate Lawful(moments: seq<Flags>) {
    (forall i :: 0 <= i < |moments| ==> moments[i].Single()) &&
    (forall i :: 0 <= i < |moments| - 1 ==> Handover(moments[i].Holder(), moments[i + 1].Holder()))
  }

  /** In a lawful run at most one feature is active at any moment, it is the one named, and
      two different ones are always separated by a moment with none. */
  lemma {:induction false} NoDirectTakeover(moments: seq<Flags>, i: nat, j: nat, f: Feature, g: Feature)
    returns (k: nat)
    requires Lawful(moments) && i < j < |moments|
    requires moments[i].Active(f) && moments[j].Active(g) && f != g
    ensures moments[i].OneActive() && (f != GEN ==> moments[i].OutputHolderName() == Name(f))
    ensures i < k < j && forall h :: !moments[k].Active(h)
    decreases j - i
  {
    SingleIsOneActive(moments[i]);
    SingleIsOneActive(moments[i + 1]);
    SingleIsOneActive(moments[j]);
    HolderIsNamed(moments[i]);
    assert Handover(moments[i].Holder(), moments[i + 1].Holder());
    if moments[i + 1].Holder().None? {
      k := i + 1;
    } else {
      k := NoDirectTakeover(moments, i + 1, j, f, g);
    }
  }

  // ---------------------------------------------------------------------- events

  /** What ALIGN's poll finds: nothing usable yet, a reason to stop, or a measurement, after
      which the fit answers with its next step (any other step is its refusal). */
  datatype AlignReading = AlignWait | AlignStop | AlignMeasured(next: AlignStep)
  datatype VerifyReading = VerifyWait | VerifyStop | VerifyMeasured
  {
    function Outcome(): VerifyState {
      match this case VerifyWait => Measuring case VerifyStop => VerifyIdle case VerifyMeasured => Settling
    }
  }

  /** Everything that can happen to the app, with the readings it happens under. */
  datatype Event =
    | LocateClicked
    | LocatePolled(settled: bool, resyncPending: bool, resynced: bool, dropped: bool)
    | ApplyClicked(accepted: bool, delay: int)
    | CalClicked(isStart: bool, hasStart: bool)
    | CalPolled(timedOut: bool)
    | SweepClicked(outputExists: bool, ratesAgree: bool, resyncPending: bool)
    | SweepPolled(resynced: bool, dropped: bool, timedOut: bool, settled: bool, outcome: bool)
    | AlignPressed(answered: bool, usable: bool)
    | SumPressed(hasVerdict: bool)
    | OffsetTyped
    | AlignPolled(align: AlignReading)
    | VerifyPressed(ready: bool, usable: bool)
    | VerifyPolled(settled: bool, timedOut: bool, verify: VerifyReading)
    | GenPressed
    | GenStopped
    | GenChanged(sourceChanged: bool)
    | GenPolled(timedOut: bool)
    | ModeSwitched(enabled: bool)
    | DeviceStarted
    | DeviceStopped
    | Rendered(idle: bool)
    | DrainBegins
    | CaptureFills
  {
    predicate IsPress() {
      LocateClicked? || CalClicked? || SweepClicked? || AlignPressed? || SumPressed? || VerifyPressed? || GenPressed?
    }

    function Drain(): DrainStep {
      if DrainBegins? then Began else if CaptureFills? then Filled else Otherwise
    }

    predicate IsPoll() {
      LocatePolled? || CalPolled? || SweepPolled? || AlignPolled? || VerifyPolled? || GenPolled?
    }
  }

  // ------------------------------------------------------ the phases of each feature

  function NextAlign(s: AlignStep, changed: bool, reading: AlignReading): AlignStep {
    if s != MeasuringHigh && s != MeasuringLow && s != MeasuringSum then s
    else if changed || reading.AlignStop? then Answering
    else if reading.AlignWait? then s
    else if s == MeasuringHigh then MeasuringLow
    else if s == MeasuringSum then AlignDone
    else if reading.next in {AskingCycle, AskingPolarity, Computed} then reading.next
    else Answering
  }

  function NextVerify(s: VerifyState, running: bool, settled: bool, timedOut: bool, reading: VerifyReading,
                      quiescent: bool): VerifyState
  {
    match s
    case Waiting => if !running || (!settled && timedOut) then VerifyIdle else if !settled then Waiting
                    else reading.Outcome()
    case Measuring => if !running then VerifyIdle else reading.Outcome()
    case Settling => if !running then VerifyIdle else if quiescent then VerifyDone else Settling
    case _ => s
  }

  function NextGen(s: GenState, restarted: bool, stopped: bool, quiescent: bool, timedOut: bool): GenState {
    match s
    case GenIdle => GenIdle
    case GenPlaying => if restarted || stopped then GenIdle else GenPlaying
    case Swapping => if restarted || stopped then GenIdle else if quiescent then GenPlaying
                     else if timedOut then GenIdle else Swapping
    case Stopping => if restarted || quiescent || timedOut then GenIdle else Stopping
  }

  class Console {
    var flags: Flags
    var engine: Engine
    var acc: Accumulator
    var synthetic: bool
    var deviceRunning: bool

    // what the runners remember from their own press
    var sweepEpoch: nat
    var sweepSynthetic: bool
    var alignEpoch: nat
    var alignSynthetic: bool
    var genEpoch: nat
    var locateHandled: Option<nat>
    var calHandled: Option<nat>

    /** The reference delay last asked of the analysis thread, and as ALIGN found it. */
    var requestedDelay: int
    ghost var delayAtAlign: int

    /** The feature that made the last capture request. */
    ghost var armedBy: Option<Feature>
    ghost var taken: seq<Taken>

    ghost predicate Valid() reads this {
      flags.Single() && engine.Follows(flags) && acc.Numbered() && TakenFollows(flags, acc, taken) &&
      (flags.Waiter().Some? ==> armedBy == flags.Waiter()) &&
      (flags.sweep == PreRoll ==> engine.slot == Some(SWEEP) && engine.slotEpoch == sweepEpoch) &&
      (flags.AlignBusy() ==> requestedDelay == delayAtAlign)
    }

    constructor ()
      ensures Valid() && flags.Holder() == None && taken == []
      ensures acc == UNUSED && calHandled == None
    {
      flags := Flags(false, false, false, Idle, Answering, VerifyIdle, GenIdle);
      engine := Engine(false, true, 0, 0, None);
      acc, armedBy := UNUSED, None;
      synthetic, deviceRunning := false, false;
      sweepEpoch, sweepSynthetic, alignEpoch, alignSynthetic, genEpoch := 0, false, 0, false, 0;
      locateHandled, calHandled := None, None;
      requestedDelay, delayAtAlign := 0, 0;
      taken := [];
    }

    /** `prepare` on the device thread. */
    method Prepare()
      requires Valid()
      modifies this`engine
      ensures Valid() && engine == old(engine).(epoch := old(engine).epoch + 1, armed := false, publishedIdle := true)
    {
      engine := engine.Prepared();
    }

    /** `render` publishes whether its master gate is idle. */
    method Render(idle: bool)
      requires Valid()
      modifies this`engine
      ensures Valid() && engine == old(engine).(publishedIdle := idle)
    {
      engine := engine.(publishedIdle := idle);
    }

    method BeginDrain()
      requires Valid()
      modifies this`acc
      ensures Valid() && acc == old(acc).Begin()
    {
      acc := acc.Begin();
    }

    method FillCapture()
      requires Valid()
      modifies this`acc
      ensures Valid() && acc == old(acc).Fill()
    {
      acc := acc.Fill();
    }

    // ------------------------------------------------------------------ LOCATE

    method ClickLocate() returns (started: bool)
      requires Valid()
      modifies this`flags, this`engine
      ensures Valid()
      ensures started <==> old(flags.Holder()) == None && old(engine).publishedIdle && !old(engine).armed
      ensures flags.Holder() == if started then Some(LOCATE) else old(flags.Holder())
    {
      if flags.OutputBusy() {
        return false;
      }
      if !engine.Quiescent() {
        return false;
      }
      engine := engine.SetSource(LOCATE).(armed := true);
      flags := flags.(locateWaiting := true);
      return true;
    }

    method CancelLocate()
      requires Valid()
      modifies this`flags, this`engine
      ensures Valid()
      ensures flags == old(flags).(locateWaiting := false, locateArmed := false)
      ensures engine == if old(flags.LocateBusy()) then old(engine).(armed := false) else old(engine)
    {
      if !flags.locateWaiting && !flags.locateArmed {
        return;
      }
      engine := engine.(armed := false);
      flags := flags.(locateWaiting := false, locateArmed := false);
    }

    method PollLocate(settled: bool, resyncPending: bool, resynced: bool, dropped: bool)
      requires Valid()
      modifies this`flags, this`engine, this`acc, this`armedBy, this`locateHandled, this`taken
      ensures Valid() && flags.Holder() in {old(flags.Holder()), None}
      ensures old(taken) <= taken && (Clean(old(taken)) && !old(acc).overtaken ==> Clean(taken) && !acc.overtaken)
      ensures old(flags.Holder()) != Some(LOCATE) ==> flags == old(flags) && acc == old(acc)
      ensures old(flags).locateWaiting && (!settled || resyncPending) ==> flags == old(flags) && acc == old(acc)
      ensures old(flags).locateWaiting && settled && !resyncPending ==>
                acc == old(acc).Arm() &&
                flags == old(flags).(locateWaiting := false, locateArmed := !resynced && !dropped)
      ensures !old(flags).locateWaiting && old(flags).locateArmed ==>
                var captured := !resynced && !dropped && acc.published.Some? &&
                                Some(acc.published.value.id) != old(locateHandled);
                acc == old(acc) && flags == old(flags).(locateArmed := !resynced && !dropped && !captured) &&
                taken == if captured then old(taken) + [Taking(LOCATE, acc)] else old(taken)
    {
      if flags.locateWaiting {
        if !settled || resyncPending {
          return;
        }
        ArmLocate();
      }
      if flags.locateArmed {
        ReadLocate(resynced, dropped);
      }
    }

    method ArmLocate()
      requires Valid() && flags.locateWaiting
      modifies this`flags, this`acc, this`armedBy
      ensures Valid() && acc == old(acc).Arm()
      ensures flags == old(flags).(locateWaiting := false, locateArmed := true)
    {
      acc, armedBy := acc.Arm(), Some(LOCATE);
      flags := flags.(locateWaiting := false, locateArmed := true);
    }

    /** The half of the poll that waits for the capture. */
    method ReadLocate(resynced: bool, dropped: bool)
      requires Valid() && flags.locateArmed && !flags.locateWaiting
      modifies this`flags, this`engine, this`locateHandled, this`taken
      ensures Valid()
      ensures var captured := !resynced && !dropped && acc.published.Some? &&
                              Some(acc.published.value.id) != old(locateHandled);
              flags == old(flags).(locateArmed := !resynced && !dropped && !captured) &&
              taken == if captured then old(taken) + [Taking(LOCATE, acc)] else old(taken)
    {
      if resynced {
        CancelLocate();
        return;
      }
      var capture := acc.published;
      if dropped {
        CancelLocate();
        return;
      }
      if capture.None? || Some(capture.value.id) == locateHandled {
        return;
      }
      Take(LOCATE);
      locateHandled := Some(capture.value.id);
      engine := engine.(armed := false);
      flags := flags.(locateArmed := false);
    }

    /** The capture a waiting feature consumes goes into the record. */
    ghost method Take(f: Feature)
      requires Valid() && flags.Waiter() == Some(f) && acc.published.Some?
      modifies this`taken
      ensures taken == old(taken) + [Taking(f, acc)]
      ensures Sound(taken) && Below(taken, acc.publications)
    {
      TakeIsSound(taken, acc, f);
      taken := taken + [Taking(f, acc)];
    }

    /** APPLY: refused while ALIGN runs, so that its two captures share one delay. */
    method ClickApply(accepted: bool, delay: int)
      requires Valid()
      modifies this`requestedDelay
      ensures Valid()
      ensures requestedDelay == if accepted && old(flags.Holder()) != Some(ALIGN) then delay else old(requestedDelay)
    {
      if !accepted {
        return;
      }
      if flags.AlignBusy() {
        return;
      }
      requestedDelay := delay;
    }

    // --------------------------------------------------------------------- CAL

    method ClickCal(isStart: bool, hasStart: bool) returns (started: bool)
      requires Valid()
      modifies this`flags, this`acc, this`armedBy
      ensures Valid()
      ensures started <==> old(flags.Holder()) == None && (isStart || hasStart)
      ensures flags.Holder() == (if started then Some(CAL) else old(flags.Holder()))
      ensures started ==> flags == old(flags).(cal := true)
      ensures acc == if started then old(acc).Arm() else old(acc)
    {
      if flags.OutputBusy() {
        return false;
      }
      if !isStart && !hasStart {
        return false;
      }
      acc, armedBy := acc.Arm(), Some(CAL);
      flags := flags.(cal := true);
      return true;
    }

    method PollCal(timedOut: bool)
      requires Valid()
      modifies this`flags, this`calHandled, this`taken
      ensures Valid() && old(taken) <= taken && (Clean(old(taken)) && !old(acc).overtaken ==> Clean(taken))
      ensures var consumes := old(flags).cal && acc.published.Some? && Some(acc.published.value.id) != old(calHandled);
              taken == (if consumes then old(taken) + [Taking(CAL, acc)] else old(taken)) &&
              flags == old(flags).(cal := old(flags).cal && !consumes && !timedOut) &&
              calHandled == (if consumes then Some(acc.published.value.id) else old(calHandled))
    {
      if !flags.cal {
        return;
      }
      var capture := acc.published;
      if capture.Some? && Some(capture.value.id) != calHandled {
        Take(CAL);
        calHandled := Some(capture.value.id);
        flags := flags.(cal := false);
        return;
      }
      if timedOut {
        flags := flags.(cal := false);
      }
    }

    // ------------------------------------------------------------------- SWEEP

    method ClickSweep(outputExists: bool, ratesAgree: bool, resyncPending: bool) returns (started: bool)
      requires Valid()
      modifies this`flags, this`engine, this`acc, this`armedBy, this`sweepEpoch, this`sweepSynthetic
      ensures Valid()
      ensures started <==> old(flags.Holder()) == None && outputExists && ratesAgree && !resyncPending &&
                           old(engine).publishedIdle && !old(engine).armed
      ensures flags.Holder() == if started then Some(SWEEP) else old(flags.Holder())
      ensures acc == if started then old(acc).Arm() else old(acc)
    {
      if flags.sweep != Idle {
        return false;
      }
      if flags.GenActive() {
        return false;
      }
      if flags.OutputBusy() {
        return false;
      }
      if !outputExists || !engine.Quiescent() || !ratesAgree || resyncPending {
        return false;
      }
      engine := engine.SetSource(SWEEP);
      acc, armedBy := acc.Arm(), Some(SWEEP);
      sweepEpoch, sweepSynthetic := engine.epoch, synthetic;
      flags := flags.(sweep := PreRoll);
      return true;
    }

    method AbortSweep()
      requires Valid() && flags.SweepBusy()
      modifies this`flags, this`engine
      ensures Valid() && flags == old(flags).(sweep := Idle) && !engine.armed
    {
      engine := engine.(armed := false);
      flags := flags.(sweep := Idle);
    }

    /** `startAnalysis`. */
    method AnalyseSweep()
      requires Valid() && flags.sweep == Playing && acc.published.Some?
      modifies this`flags, this`engine, this`taken
      ensures Valid() && flags == old(flags).(sweep := Analysing) && !engine.armed
      ensures taken == old(taken) + [Taking(SWEEP, acc)]
    {
      Take(SWEEP);
      engine := engine.(armed := false);
      flags := flags.(sweep := Analysing);
    }

    method PollSweep(resynced: bool, dropped: bool, timedOut: bool, settled: bool, outcome: bool)
      requires Valid()
      modifies this`flags, this`engine, this`taken
      ensures Valid() && old(taken) <= taken && (Clean(old(taken)) && !old(acc).overtaken ==> Clean(taken))
      ensures var changed := old(engine).epoch != sweepEpoch || synthetic != sweepSynthetic || resynced || dropped;
              flags == old(flags).(sweep := NextPhase(old(flags).sweep, changed, acc.published.Some?, timedOut, settled,
                                                      outcome)) &&
              (old(flags.Holder()) == Some(SWEEP) ==>
                 (flags.Holder() == None <==>
                    (old(flags).sweep == PreRoll && (changed || timedOut)) ||
                    (old(flags).sweep == Playing && (changed || (timedOut && acc.published.None?))) ||
                    (old(flags).sweep == Analysing && outcome)))
      ensures old(flags).sweep != Playing && flags.sweep == Playing ==> old(flags).sweep == PreRoll && settled
      ensures taken == if old(flags).sweep == Playing && flags.sweep == Analysing
                       then old(taken) + [Taking(SWEEP, acc)] else old(taken)
    {
      if flags.sweep == Idle {
        return;
      }
      if flags.sweep == Analysing {
        if outcome {
          flags := flags.(sweep := Idle);
        }
        return;
      }
      if engine.epoch != sweepEpoch || synthetic != sweepSynthetic || resynced {
        AbortSweep();
        return;
      }
      var capture := acc.published;
      if dropped {
        AbortSweep();
        return;
      }
      if flags.sweep == PreRoll {
        if timedOut {
          AbortSweep();
        } else if settled {
          engine := engine.(armed := true);
          flags := flags.(sweep := Playing);
        }
        return;
      }
      if capture.Some? {
        AnalyseSweep();
        return;
      }
      if timedOut {
        AbortSweep();
      }
    }

    // ------------------------------------------------------------------- ALIGN

    method PressAlign(answered: bool, usable: bool) returns (started: bool)
      requires Valid()
      modifies this`flags, this`engine, this`alignEpoch, this`alignSynthetic, this`delayAtAlign
      ensures Valid()
      ensures started <==> old(flags.Holder()) == None && answered && (synthetic || deviceRunning) && usable &&
                           old(engine).publishedIdle && !old(engine).armed
      ensures flags.Holder() == if started then Some(ALIGN) else old(flags.Holder())
    {
      if flags.AlignBusy() || !answered || (!synthetic && !deviceRunning) {
        return false;
      }
      if flags.OutputBusy() {
        return false;
      }
      if !usable || !engine.Quiescent() {
        return false;
      }
      engine := engine.SetSource(ALIGN).(armed := true);
      flags := flags.(align := MeasuringHigh);
      alignEpoch, alignSynthetic, delayAtAlign := engine.epoch, synthetic, requestedDelay;
      return true;
    }

    method PressSum(hasVerdict: bool) returns (started: bool)
      requires Valid()
      modifies this`flags, this`engine, this`alignEpoch, this`alignSynthetic, this`delayAtAlign
      ensures Valid()
      ensures started <==> old(flags.Holder()) == None && hasVerdict &&
                           old(flags).align in {Computed, AskingPolarity} &&
                           (synthetic || deviceRunning) && old(engine).publishedIdle && !old(engine).armed
      ensures flags.Holder() == if started then Some(ALIGN) else old(flags.Holder())
    {
      if !hasVerdict || (flags.align != Computed && flags.align != AskingPolarity) {
        return false;
      }
      if !synthetic && !deviceRunning {
        return false;
      }
      if flags.OutputBusy() {
        return false;
      }
      if !engine.Quiescent() {
        return false;
      }
      engine := engine.SetSource(ALIGN).(armed := true);
      flags := flags.(align := MeasuringSum);
      alignEpoch, alignSynthetic, delayAtAlign := engine.epoch, synthetic, requestedDelay;
      return true;
    }

    method TypeOffset()
      requires Valid()
      modifies this`flags
      ensures Valid() && flags.Holder() == old(flags.Holder())
      ensures flags == old(flags).(align := if old(flags).align == AskingCycle then Computed else old(flags).align)
    {
      if flags.align == AskingCycle {
        flags := flags.(align := Computed);
      }
    }

    /** The excitation stops with the last step of a run. */
    method EndAlign(next: AlignStep)
      requires Valid() && flags.AlignBusy() && next in {Answering, AskingCycle, AskingPolarity, Computed, AlignDone}
      modifies this`flags, this`engine
      ensures Valid() && flags == old(flags).(align := next) && !engine.armed
    {
      engine := engine.(armed := false);
      flags := flags.(align := next);
    }

    method PollAlign(reading: AlignReading)
      requires Valid()
      modifies this`flags, this`engine
      ensures Valid()
      ensures var changed := synthetic != alignSynthetic || (!synthetic && !deviceRunning) ||
                             old(engine).epoch != alignEpoch;
              flags == old(flags).(align := NextAlign(old(flags).align, changed, reading)) &&
              (old(flags.Holder()) == Some(ALIGN) ==>
                 (flags.Holder() == None <==>
                    changed || reading.AlignStop? || (reading.AlignMeasured? && old(flags).align != MeasuringHigh)))
    {
      if !flags.AlignBusy() {
        return;
      }
      var changed := synthetic != alignSynthetic || (!synthetic && !deviceRunning) || engine.epoch != alignEpoch;
      if changed || reading.AlignStop? {
        EndAlign(Answering);
      } else if reading.AlignMeasured? {
        if flags.align == MeasuringHigh {
          flags := flags.(align := MeasuringLow);
        } else {
          var next := if flags.align == MeasuringSum then AlignDone
                      else if reading.next in {AskingCycle, AskingPolarity, Computed} then reading.next
                      else Answering;
          EndAlign(next);
        }
      }
    }

    // ------------------------------------------------------------------ VERIFY

    method PressVerify(ready: bool, usable: bool) returns (started: bool)
      requires Valid()
      modifies this`flags, this`engine
      ensures Valid()
      ensures started <==> old(flags.Holder()) == None && ready && !synthetic && deviceRunning && usable &&
                           old(engine).publishedIdle && !old(engine).armed
      ensures flags.Holder() == if started then Some(VERIFY) else old(flags.Holder())
    {
      if !ready || flags.VerifyBusy() || synthetic || !deviceRunning {
        return false;
      }
      if flags.GenActive() || flags.CaptureBusy() {
        return false;
      }
      if !usable || !engine.Quiescent() {
        return false;
      }
      engine := engine.SetSource(VERIFY).(armed := true);
      flags := flags.(verify := Waiting);
      return true;
    }

    method PollVerify(settled: bool, timedOut: bool, reading: VerifyReading)
      requires Valid()
      modifies this`flags, this`engine
      ensures Valid()
      ensures flags == old(flags).(verify := NextVerify(old(flags).verify, deviceRunning, settled, timedOut, reading,
                                                        old(engine).Quiescent()))
      ensures old(flags.Holder()) == Some(VERIFY) ==>
                (flags.Holder() == None <==>
                   !deviceRunning ||
                   (old(flags).verify == Waiting && !settled && timedOut) ||
                   (old(flags).verify == Waiting && settled && reading.VerifyStop?) ||
                   (old(flags).verify == Measuring && reading.VerifyStop?) ||
                   (old(flags).verify == Settling && old(engine).publishedIdle && !old(engine).armed))
    {
      if !flags.VerifyBusy() {
        return;
      }
      if !deviceRunning {
        AbortVerify();
        return;
      }
      if flags.verify == Waiting {
        if !settled {
          if timedOut {
            AbortVerify();
          }
          return;
        }
        flags := flags.(verify := Measuring);
      }
      if flags.verify == Measuring {
        SubmitVerify(reading);
        return;
      }
      if engine.Quiescent() {
        flags := flags.(verify := VerifyDone);
      }
    }

    method AbortVerify()
      requires Valid() && flags.VerifyBusy()
      modifies this`flags, this`engine
      ensures Valid() && flags == old(flags).(verify := VerifyIdle) && !engine.armed
    {
      engine := engine.(armed := false);
      flags := flags.(verify := VerifyIdle);
    }

    /** `EqVerifyRunner::trySubmit`. */
    method SubmitVerify(reading: VerifyReading)
      requires Valid() && flags.verify == Measuring
      modifies this`flags, this`engine
      ensures Valid() && flags == old(flags).(verify := flags.verify)
      ensures flags.verify == reading.Outcome()
    {
      if reading.VerifyStop? {
        AbortVerify();
      } else if reading.VerifyMeasured? {
        engine := engine.(armed := false);
        flags := flags.(verify := Settling);
      }
    }

    // --------------------------------------------------------------------- GEN

    method StartGen() returns (started: bool)
      requires Valid()
      modifies this`flags, this`engine, this`genEpoch
      ensures Valid()
      ensures started <==> old(flags.Holder()) == None && (synthetic || deviceRunning) &&
                           old(engine).publishedIdle && !old(engine).armed
      ensures flags.Holder() == if started then Some(GEN) else old(flags.Holder())
    {
      if flags.gen != GenIdle {
        return false;
      }
      if flags.OutputHolderName() != "" {
        return false;
      }
      if !synthetic && !deviceRunning {
        return false;
      }
      if !engine.Quiescent() {
        return false;
      }
      engine := engine.SetSource(GEN).(armed := true);
      genEpoch := engine.epoch;
      flags := flags.(gen := GenPlaying);
      return true;
    }

    method StopGen()
      requires Valid()
      modifies this`flags, this`engine
      ensures Valid() && flags.Holder() == old(flags.Holder()) && flags == old(flags).(gen := flags.gen)
      ensures flags.gen == if old(flags).gen in {GenPlaying, Swapping} then Stopping else old(flags).gen
    {
      if flags.gen != GenPlaying && flags.gen != Swapping {
        return;
      }
      engine := engine.(armed := false);
      flags := flags.(gen := Stopping);
    }

    /** `cancel` and `goIdle`. */
    method CancelGen()
      requires Valid()
      modifies this`flags, this`engine
      ensures Valid() && flags == old(flags).(gen := GenIdle) && (old(flags).GenActive() ==> !engine.armed)
      ensures engine == if old(flags).GenActive() then old(engine).(armed := false) else old(engine)
    {
      if flags.gen == GenIdle {
        return;
      }
      engine := engine.(armed := false);
      flags := flags.(gen := GenIdle);
    }

    method ApplyGen(sourceChanged: bool)
      requires Valid()
      modifies this`flags, this`engine
      ensures Valid() && flags.Holder() == old(flags.Holder())
      ensures flags == old(flags).(gen := if old(flags).gen == GenPlaying && sourceChanged then Swapping
                                          else old(flags).gen)
    {
      if flags.gen == GenPlaying && sourceChanged {
        engine := engine.(armed := false);
        flags := flags.(gen := Swapping);
      }
    }

    method PollGen(timedOut: bool)
      requires Valid()
      modifies this`flags, this`engine
      ensures Valid()
      ensures var stopped := !synthetic && !deviceRunning;
              flags == old(flags).(gen := NextGen(old(flags).gen, old(engine).epoch != genEpoch, stopped,
                                                  old(engine).Quiescent(), timedOut)) &&
              (old(flags.Holder()) == Some(GEN) ==>
                 (flags.Holder() == None <==>
                    old(engine).epoch != genEpoch || (stopped && old(flags).gen != Stopping) ||
                    (old(flags).gen == Swapping && timedOut && (old(engine).armed || !old(engine).publishedIdle)) ||
                    (old(flags).gen == Stopping && (timedOut || (old(engine).publishedIdle && !old(engine).armed)))))
    {
      if flags.gen == GenIdle {
        return;
      }
      if engine.epoch != genEpoch {
        CancelGen();
        return;
      }
      if !synthetic && !deviceRunning && (flags.gen == GenPlaying || flags.gen == Swapping) {
        CancelGen();
        return;
      }
      if flags.gen == Swapping {
        if engine.Quiescent() {
          engine := engine.SetSource(GEN).(armed := true);
          flags := flags.(gen := GenPlaying);
        } else if timedOut {
          CancelGen();
        }
        return;
      }
      if flags.gen == Stopping {
        if engine.Quiescent() || timedOut {
          flags := flags.(gen := GenIdle);
        }
      }
    }

    // ------------------------------------------------------- the mode, the device

    /** `setSyntheticMode`; entering it stops the device and prepares the engine anew. */
    method SetSynthetic(enabled: bool)
      requires Valid()
      modifies this`flags, this`engine, this`synthetic, this`deviceRunning
      ensures Valid() && synthetic == enabled
      ensures if old(synthetic) != enabled && enabled
              then engine.epoch == old(engine).epoch + 1 && !engine.armed && !deviceRunning
              else engine.epoch == old(engine).epoch && deviceRunning == old(deviceRunning)
      ensures flags.Holder() == if old(synthetic) != enabled && old(flags.Holder()) in {Some(LOCATE), Some(GEN)}
                                then None else old(flags.Holder())
    {
      if enabled == synthetic {
        return;
      }
      CancelPlayers();
      if enabled {
        deviceRunning := false;
        Prepare();
      }
      synthetic := enabled;
    }

    method CancelPlayers()
      requires Valid()
      modifies this`flags, this`engine
      ensures Valid() && engine.epoch == old(engine).epoch
      ensures flags == old(flags).(locateWaiting := false, locateArmed := false, gen := GenIdle)
    {
      CancelLocate();
      CancelGen();
    }

    // -------------------------------------------------------------- whole runs

    /** One event, whatever it is, keeps the invariant and hands the output over through
        nobody. */
    method Handle(e: Event)
      requires Valid()
      modifies this
      ensures Valid() && Handover(old(flags.Holder()), flags.Holder()) && old(taken) <= taken
      ensures Moves(e.Drain(), old(acc), acc)
      ensures Clean(old(taken)) && !old(acc).overtaken && (e.CaptureFills? ==> !old(acc).armRequested) ==>
                Clean(taken) && !acc.overtaken
    {
      if e.IsPress() {
        var started := HandlePress(e);
      } else if e.IsPoll() {
        HandlePoll(e);
      } else {
        HandleRest(e);
      }
    }

    method HandlePress(e: Event) returns (started: bool)
      requires Valid() && e.IsPress()
      modifies this
      ensures Valid() && (started ==> old(flags.Holder()) == None)
      ensures !started ==> flags.Holder() == old(flags.Holder())
      ensures taken == old(taken) && (acc == old(acc) || acc == old(acc).Arm())
    {
      match e {
        case LocateClicked => started := ClickLocate();
        case CalClicked(isStart, hasStart) => started := ClickCal(isStart, hasStart);
        case SweepClicked(exists_, agree, pending) => started := ClickSweep(exists_, agree, pending);
        case AlignPressed(answered, usable) => started := PressAlign(answered, usable);
        case SumPressed(hasVerdict) => started := PressSum(hasVerdict);
        case VerifyPressed(ready, usable) => started := PressVerify(ready, usable);
        case GenPressed => started := StartGen();
      }
    }

    method HandlePoll(e: Event)
      requires Valid() && e.IsPoll()
      modifies this
      ensures Valid() && flags.Holder() in {old(flags.Holder()), None} && old(taken) <= taken
      ensures acc == old(acc) || acc == old(acc).Arm()
      ensures Clean(old(taken)) && !old(acc).overtaken ==> Clean(taken) && !acc.overtaken
    {
      match e {
        case LocatePolled(settled, pending, resynced, dropped) => PollLocate(settled, pending, resynced, dropped);
        case CalPolled(timedOut) => PollCal(timedOut);
        case SweepPolled(resynced, dropped, timedOut, settled, outcome) =>
          PollSweep(resynced, dropped, timedOut, settled, outcome);
        case AlignPolled(reading) => PollAlign(reading);
        case VerifyPolled(settled, timedOut, reading) => PollVerify(settled, timedOut, reading);
        case GenPolled(timedOut) => PollGen(timedOut);
      }
    }

    method HandleRest(e: Event)
      requires Valid() && !e.IsPress() && !e.IsPoll()
      modifies this
      ensures Valid() && flags.Holder() in {old(flags.Holder()), None} && taken == old(taken)
      ensures Moves(e.Drain(), old(acc), acc)
    {
      match e {
        case OffsetTyped => TypeOffset();
        case ApplyClicked(accepted, delay) => ClickApply(accepted, delay);
        case GenStopped => StopGen();
        case GenChanged(changed) => ApplyGen(changed);
        case ModeSwitched(enabled) => SetSynthetic(enabled);
        case DeviceStarted => Prepare(); deviceRunning := true;
        case DeviceStopped => deviceRunning := false;
        case Rendered(idle) => Render(idle);
        case DrainBegins => BeginDrain();
        case CaptureFills => FillCapture();
      }
    }

    /** Any run: at every moment at most one feature is active, `outputHolderName` names it
        unless it is GEN, and the output passes from one feature to another through nobody.
        If no capture is completed in a drain during which one was requested, every capture is
        consumed by the press it was recorded for. */
    method Run(events: seq<Event>)
      returns (moments: seq<Flags>, ghost steps: seq<DrainStep>, ghost accs: seq<Accumulator>)
      requires Valid()
      modifies this
      ensures Valid() && |moments| == |events| + 1 && moments[0] == old(flags) && moments[|events|] == flags
      ensures Lawful(moments) && old(taken) <= taken && Sound(taken)
      ensures |steps| == |events| && forall i :: 0 <= i < |events| ==> steps[i] == events[i].Drain()
      ensures Traced(steps, accs) && accs[0] == old(acc) && accs[|events|] == acc
      ensures QuietDrains(steps, accs) && Clean(old(taken)) && !old(acc).overtaken ==> Clean(taken)
    {
      moments, steps, accs := [flags], [], [acc];
      var n := 0;
      while n < |events|
        invariant 0 <= n <= |events| && Valid() && |moments| == n + 1 && old(taken) <= taken
        invariant moments[0] == old(flags) && moments[n] == flags && Lawful(moments)
        invariant |steps| == n && forall i :: 0 <= i < n ==> steps[i] == events[i].Drain()
        invariant Traced(steps, accs) && accs[0] == old(acc) && accs[n] == acc
        invariant QuietDrains(steps, accs) && Clean(old(taken)) && !old(acc).overtaken ==>
                    Clean(taken) && !acc.overtaken
      {
        Handle(events[n]);
        QuietNext(steps, accs, events[n].Drain(), acc);
        moments, steps, accs := moments + [flags], steps + [events[n].Drain()], accs + [acc];
        n := n + 1;
      }
    }
  }

  /** Withdrawing the published capture at the press does not withdraw the one being filled:
      a drain that began before a second CAL START and completes after it hands that press
      the audio of the first. */
  method EarlierCaptureIsConsumed() returns (console: Console)
    ensures fresh(console) && console.Valid() && |console.taken| == 1
    ensures console.taken[0] == Taken(CAL, Capture(0, 1), 2, true)
  {
    console := new Console();
    assert console.acc.publications == 0;
    var first := console.ClickCal(true, false);
    console.BeginDrain();
    console.PollCal(true);
    assert console.flags.Holder() == None && console.taken == [];
    var second := console.ClickCal(true, false);
    console.FillCapture();
    assert console.flags.cal && console.acc.published == Some(Capture(0, 1));
    console.PollCal(false);
  }
}
