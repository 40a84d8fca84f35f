/** The raw-capture accumulator of the analysis thread, shared by LOCATE, CAL and SWEEP. A
    request is made on the message thread; the analysis thread picks it up when a drain
    begins, fills it, and publishes it later in a drain. */
module Captures {
  import opened Options

  /** A published capture: its identity, and the number of the request whose audio it holds. */
  datatype Capture = Capture(id: nat, request: nat)

  /** `overtaken` tells that what is published was published before the last request had
      been picked up. */
  datatype Accumulator = Accumulator(armRequested: bool, capturing: Option<nat>, published: Option<Capture>,
                                     requests: nat, publications: nat, overtaken: bool)
  {
    /** What is filled is the last request, or an earlier one that is about to be dropped;
        what is published is the last request's audio exactly when not overtaken. */
    ghost predicate Numbered() {
      (capturing.Some? ==> if armRequested then capturing.value < requests else capturing.value == requests) &&
      (published.Some? ==> published.value.id < publications) &&
      (published.Some? ==> (published.value.request == requests <==> !overtaken))
    }

    /** `armLocateCapture`: withdraws what was published and asks for a new capture. */
    function Arm(): Accumulator {
      this.(published := None, armRequested := true, requests := requests + 1, overtaken := false)
    }

    /** A drain begins. */
    function Begin(): Accumulator {
      if armRequested then this.(armRequested := false, capturing := Some(requests)) else this
    }

    /** Later in a drain the capture being filled is complete. */
    function Fill(): Accumulator {
      if capturing.None? then this
      else this.(capturing := None, published := Some(Capture(publications, capturing.value)),
                 publications := publications + 1, overtaken := armRequested)
    }
  }

  // -------------------------------------------------------------- drains in a run

  /** What an event does to the accumulator. */
  datatype DrainStep = Began | Filled | Otherwise

  /** Any other event leaves it alone or makes one request. */
  predicate Moves(step: DrainStep, a: Accumulator, b: Accumulator) {
    match step
    case Began => b == a.Begin()
    case Filled => b == a.Fill()
    case Otherwise => b == a || b == a.Arm()
  }

  /** The accumulator before, between and after the events of a run. */
  ghost predicate Traced(steps: seq<DrainStep>, accs: seq<Accumulator>) {
    |accs| == |steps| + 1 && forall i :: 0 <= i < |steps| ==> Moves(steps[i], accs[i], accs[i + 1])
  }

  /** A drain began at j, and nothing was requested from then to i. */
  predicate QuietSince(steps: seq<DrainStep>, accs: seq<Accumulator>, j: nat, i: nat) {
    j < i <= |steps| && i < |accs| && steps[j] == Began && accs[j + 1].requests == accs[i].requests
  }

  /** No capture is completed in a drain during which one was requested. */
  ghost predicate QuietDrains(steps: seq<DrainStep>, accs: seq<Accumulator>) {
    forall i :: 0 <= i < |steps| && steps[i] == Filled ==> exists j: nat :: QuietSince(steps, accs, j, i)
  }

  /** Without a request since, the one that was picked up is still the last. */
  lemma {:induction false} StaysPickedUp(steps: seq<DrainStep>, accs: seq<Accumulator>, j: nat, i: nat)
    requires Traced(steps, accs) && j <= i <= |steps| && !accs[j].armRequested
    ensures accs[j].requests <= accs[i].requests
    ensures accs[j].requests == accs[i].requests ==> !accs[i].armRequested
    decreases i - j
  {
    if j < i {
      StaysPickedUp(steps, accs, j, i - 1);
      assert Moves(steps[i - 1], accs[i - 1], accs[i]);
    }
  }

  /** One more event: in a run with quiet drains only, the run before it had quiet drains only,
      and what it fills is not waited for. */
  lemma {:induction false} QuietNext(steps: seq<DrainStep>, accs: seq<Accumulator>, step: DrainStep, acc: Accumulator)
    requires Traced(steps, accs) && Moves(step, accs[|steps|], acc)
    ensures Traced(steps + [step], accs + [acc])
    ensures QuietDrains(steps + [step], accs + [acc]) ==>
              QuietDrains(steps, accs) && (step == Filled ==> !accs[|steps|].armRequested)
  {
    var longer, more, n := steps + [step], accs + [acc], |steps|;
    assert Traced(longer, more) by {
      forall i | 0 <= i < |longer| ensures Moves(longer[i], more[i], more[i + 1]) {
        assert i < n ==> Moves(steps[i], accs[i], accs[i + 1]);
      }
    }
    if QuietDrains(longer, more) {
      forall i | 0 <= i < n && steps[i] == Filled ensures exists j: nat :: QuietSince(steps, accs, j, i) {
        assert longer[i] == Filled;
        var j: nat :| QuietSince(longer, more, j, i);
        assert QuietSince(steps, accs, j, i);
      }
      if step == Filled {
        assert longer[n] == Filled;
        var j: nat :| QuietSince(longer, more, j, n);
        assert Moves(longer[j], more[j], more[j + 1]);
        StaysPickedUp(longer, more, j + 1, n);
      }
    }
  }

  const UNUSED: Accumulator := Accumulator(false, None, None, 0, 0, false)

  /** The phases of a SWEEP. */
  datatype Phase = Idle | PreRoll | Playing | Analysing

  /** The phase after a poll; `changed` tells that a reading differs from the one at the
      press. */
  function NextPhase(p: Phase, changed: bool, captured: bool, timedOut: bool, settled: bool, outcome: bool): Phase {
    match p
    case Idle => Idle
    case PreRoll => if changed || timedOut then Idle else if settled then Playing else PreRoll
    case Playing => if changed then Idle else if captured then Analysing else if timedOut then Idle else Playing
    case Analysing => if outcome then Idle else Analysing
  }
}
