/** The RT60 pane's cache: an octave table of one trace is analysed at once, anything larger
    goes to a worker under a ticket and is shown when the worker's answer is taken. The
    analyses themselves are terms over the impulse responses they read, so that two are
    equal exactly when they read the same ones. */
module Rt60 {
  import opened Options
  import opened Sequences
  import opened IrStores

  datatype BandSet = Octave | Third

  const NOTHING: Id := ""
  const MAX_MEMBERS: nat := 8

  /** `analyseRt60` and `analyseRt60Ensemble`; a trace with no IR has its refusal as result. */
  datatype Table = Analysed(primary: Option<Ir>, bands: BandSet)
  datatype Ensemble = Together(irs: seq<Option<Ir>>, bands: BandSet)

  /** What the IR store holds at a moment. */
  type Store = seq<Entry>

  predicate Held(store: Store, id: Id) {
    Find(store, id).Some?
  }

  function FindAll(store: Store, ids: seq<Id>): (irs: seq<Option<Ir>>)
    ensures |irs| == |ids| && forall i :: 0 <= i < |ids| ==> irs[i] == Find(store, ids[i])
  {
    if ids == [] then [] else [Find(store, ids[0])] + FindAll(store, ids[1..])
  }

  // ------------------------------------------------------------------- members

  /** The members whose IR the store still holds, in their order. */
  function Surviving(store: Store, ids: seq<Id>): (r: seq<Id>)
    ensures |r| <= |ids|
    ensures forall x :: x in r <==> x in ids && Held(store, x)
    ensures Distinct(ids) ==> Distinct(r)
  {
    if ids == [] then []
    else if Held(store, ids[0]) then
      Prepended(ids[0], ids[1..], Surviving(store, ids[1..]));
      [ids[0]] + Surviving(store, ids[1..])
    else Surviving(store, ids[1..])
  }

  lemma Prepended(x: Id, tail: seq<Id>, r: seq<Id>)
    requires forall y :: y in r ==> y in tail
    ensures Distinct([x] + tail) && Distinct(r) ==> Distinct([x] + r)
  {
    if Distinct([x] + tail) && Distinct(r) {
      forall j | 0 <= j < |r| ensures r[j] != x {
        assert r[j] in tail;
        var k :| 0 <= k < |tail| && tail[k] == r[j];
        assert ([x] + tail)[0] == x && ([x] + tail)[k + 1] == r[j];
      }
    }
  }

  lemma Survivors(store: Store, ids: seq<Id>)
    ensures |Surviving(store, ids)| == |ids| <==> (forall x :: x in ids ==> Held(store, x))
    ensures (forall x :: x in ids ==> Held(store, x)) ==> Surviving(store, ids) == ids
  {
    if ids != [] {
      assert ids == [ids[0]] + ids[1..];
      Survivors(store, ids[1..]);
    }
  }

  /** Members keep their order: what survives of two runs is what survives of each. */
  lemma {:induction false} SurvivingConcat(store: Store, a: seq<Id>, b: seq<Id>)
    ensures Surviving(store, a + b) == Surviving(store, a) + Surviving(store, b)
  {
    if a == [] {
      assert a + b == b;
    } else {
      assert (a + b)[1..] == a[1..] + b;
      SurvivingConcat(store, a[1..], b);
    }
  }

  lemma SurvivingAgain(store: Store, ids: seq<Id>)
    ensures Surviving(store, Surviving(store, ids)) == Surviving(store, ids)
  {
    Survivors(store, Surviving(store, ids));
  }

  // -------------------------------------------------------------------- worker

  datatype Request = Request(ticket: nat, bands: BandSet, primary: Option<Ir>, ensemble: seq<Option<Ir>>)
  datatype Outcome = Outcome(ticket: nat, single: Option<Table>, ensemble: Option<Ensemble>)

  /** What an uninterrupted job answers. */
  function Answer(r: Request): Outcome {
    Outcome(r.ticket,
            if r.primary.Some? then Some(Analysed(r.primary, r.bands)) else None,
            if |r.ensemble| >= 2 then Some(Together(r.ensemble, r.bands)) else None)
  }

  datatype Worker = Worker(pending: Option<Request>, running: Option<Request>, done: Option<Outcome>, newest: nat,
                           cancel: bool)
  {
    function Submit(r: Request): Worker {
      Worker(Some(r), running, None, r.ticket, cancel || running.Some?)
    }

    /** The thread takes the waiting job. */
    function Begin(): Worker {
      if running.Some? || pending.None? then this else this.(pending := None, running := pending, cancel := false)
    }

    /** The thread ends its job; one that was cancelled may have stopped anywhere, with any
        answer. */
    function Complete(cutShort: Outcome): Worker {
      if running.None? then this
      else
        var outcome := if cancel then cutShort else Answer(running.value);
        if pending.None? && !cancel && running.value.ticket == newest
        then this.(running := None, done := Some(outcome))
        else this.(running := None)
    }

    /** No ticket is ahead of the newest, the newest is the job `asked`, and what is done is
        its uninterrupted answer. */
    ghost predicate Follows(asked: Request) {
      newest == asked.ticket &&
      (pending.Some? ==> pending.value == asked) &&
      (running.Some? ==>
         running.value.ticket <= newest && (running.value.ticket == newest ==> running.value == asked)) &&
      (running.Some? && pending.Some? ==> running.value.ticket < newest) &&
      (done.Some? ==> done.value == Answer(asked) && pending.None? && running.None?)
    }

    /** The answer to `asked` is there or on its way. */
    ghost predicate Serves(asked: Request) {
      pending == Some(asked) || (running == Some(asked) && !cancel) || done == Some(Answer(asked))
    }
  }

  lemma SubmitFollows(w: Worker, before: Request, r: Request)
    requires w.Follows(before) && r.ticket > w.newest
    ensures w.Submit(r).Follows(r) && w.Submit(r).Serves(r)
  {
  }

  lemma BeginFollows(w: Worker, asked: Request)
    requires w.Follows(asked)
    ensures w.Begin().Follows(asked) && (w.Serves(asked) ==> w.Begin().Serves(asked))
  {
  }

  lemma CompleteFollows(w: Worker, asked: Request, cutShort: Outcome)
    requires w.Follows(asked)
    ensures w.Complete(cutShort).Follows(asked) && (w.Serves(asked) ==> w.Complete(cutShort).Serves(asked))
  {
  }

  /** An answer that is on its way arrives: when the thread has ended the job it has and
      then run the one that waits, the answer to the last question is there. */
  lemma AnswerArrives(w: Worker, asked: Request, x: Outcome, y: Outcome)
    requires w.Follows(asked) && w.Serves(asked)
    ensures w.Complete(x).Begin().Complete(y).done == Some(Answer(asked))
  {
    CompleteFollows(w, asked, x);
    BeginFollows(w.Complete(x), asked);
  }

  method IndexOf(ids: seq<Id>, id: Id) returns (i: nat)
    ensures i <= |ids| && (i < |ids| <==> id in ids) && (i < |ids| ==> ids[i] == id)
  {
    i := 0;
    while i < |ids| && ids[i] != id
      invariant i <= |ids| && id !in ids[..i]
    {
      i := i + 1;
    }
  }

  lemma Erased(ids: seq<Id>, i: nat)
    requires i < |ids| && Distinct(ids)
    ensures var rest := ids[..i] + ids[i + 1..];
            Distinct(rest) && |rest| == |ids| - 1 && forall x :: x in rest <==> x in ids && x != ids[i]
  {
    var rest := ids[..i] + ids[i + 1..];
    forall x ensures x in rest <==> x in ids && x != ids[i] {
      if x in ids && x != ids[i] {
        var k :| 0 <= k < |ids| && ids[k] == x;
        assert k < i ==> rest[k] == x;
        assert k > i ==> rest[k - 1] == x;
      }
    }
  }

  // ---------------------------------------------------------------- what is shown

  /** What the last re-analysis read. */
  datatype Basis = Basis(selected: Id, primary: Option<Ir>, bands: BandSet, members: seq<Id>, irs: seq<Option<Ir>>)
  {
    /** The direct analyses of this basis. */
    function Direct(): Table { Analysed(primary, bands) }
    function DirectEnsemble(): Option<Ensemble> {
      if |members| >= 2 then Some(Together(irs, bands)) else None
    }
  }

  /** A basis read from a store: the selection's IR if it is there, and every member's. */
  ghost predicate ReadFrom(b: Basis, store: Store) {
    b.primary == (if b.selected == NOTHING then None else Find(store, b.selected)) &&
    b.irs == FindAll(store, b.members) && (forall i :: 0 <= i < |b.members| ==> Held(store, b.members[i]))
  }

  datatype Event =
    | Select(id: Id) | SetBandSet(bands: BandSet) | Toggle(id: Id) | Clear
    | AskRevision | StoreChanged(store: Store) | WorkerBegins | WorkerEnds(cutShort: Outcome)

  /** What the pane is asked about, what the store holds, and what was last read of it. */
  datatype Moment = Moment(selected: Id, bands: BandSet, members: seq<Id>, store: Store, readFrom: Store)

  /** A change of selection, band set or members reads the store of that moment; nothing
      else reads it, once something is selected. */
  ghost predicate ReadsOnChange(a: Moment, b: Moment) {
    if Changed(a, b) then b.readFrom == b.store else a.selected != NOTHING ==> b.readFrom == a.readFrom
  }

  predicate Changed(a: Moment, b: Moment) {
    a.selected != b.selected || a.bands != b.bands || a.members != b.members
  }

  ghost predicate Unbroken(moments: seq<Moment>) {
    forall i :: 0 <= i < |moments| - 1 ==> ReadsOnChange(moments[i], moments[i + 1])
  }

  /** What was last read is the store of the last change. */
  lemma {:induction false} ReadAtLastChange(moments: seq<Moment>, i: nat, j: nat)
    requires Unbroken(moments) && 0 < i <= j < |moments| && Changed(moments[i - 1], moments[i])
    requires forall k :: i < k <= j ==> !Changed(moments[k - 1], moments[k])
    requires moments[i].selected != NOTHING
    ensures moments[j].readFrom == moments[i].store && !Changed(moments[i], moments[j])
    decreases j - i
  {
    assert ReadsOnChange(moments[i - 1], moments[i]);
    if i < j {
      ReadAtLastChange(moments, i, j - 1);
      assert ReadsOnChange(moments[j - 1], moments[j]) && !Changed(moments[j - 1], moments[j]);
    }
  }

  class Pane {
    var store: Store
    var selectedId: Id
    var bandSet: BandSet
    var ensembleIds: seq<Id>
    var result: Option<Table>
    var ensemble: Option<Ensemble>
    var analysing: bool
    var ticket: nat
    var worker: Worker

    ghost var basis: Basis
    ghost var readFrom: Store
    ghost var asked: Request

    /** The basis is of the current selection, band set and members, and what the store
        `readFrom` held for them. */
    ghost predicate Current()
      reads this
    {
      basis.selected == selectedId && basis.bands == bandSet && basis.members == ensembleIds &&
      ReadFrom(basis, readFrom)
    }

    /** Whatever is shown is of the current basis; with no job on its way, all of it is. */
    ghost predicate Shown()
      reads this
    {
      (selectedId != NOTHING && result.Some? ==> result.value == basis.Direct()) &&
      (ensemble.Some? ==> ensemble == basis.DirectEnsemble()) &&
      (!analysing ==> ensemble == basis.DirectEnsemble() && (selectedId != NOTHING ==> result.Some?))
    }

    ghost predicate Waiting()
      reads this
    {
      worker.Follows(asked) && ticket == worker.newest &&
      (analysing ==> worker.Serves(asked) &&
                     asked == Request(ticket, basis.bands, basis.primary,
                                      if |basis.members| >= 2 then basis.irs else []) &&
                     (basis.primary.None? && selectedId != NOTHING ==> result.Some?))
    }

    ghost predicate Valid()
      reads this
    {
      Distinct(ensembleIds) && |ensembleIds| <= MAX_MEMBERS && Current() && Shown() && Waiting()
    }

    constructor ()
      ensures Valid() && selectedId == NOTHING && ensembleIds == []
    {
      store, selectedId, bandSet, ensembleIds := [], NOTHING, Octave, [];
      result, ensemble, analysing, ticket := None, None, false, 0;
      worker := Worker(None, None, None, 0, false);
      basis, readFrom := Basis(NOTHING, None, Octave, [], []), [];
      asked := Request(0, Octave, None, []);
    }

    /** `pruneEvicted`. */
    method PruneEvicted() returns (changed: bool)
      modifies this`ensembleIds
      ensures ensembleIds == Surviving(store, old(ensembleIds))
      ensures changed <==> exists x :: x in old(ensembleIds) && !Held(store, x)
      ensures !changed <==> ensembleIds == old(ensembleIds)
    {
      Survivors(store, ensembleIds);
      var kept := Surviving(store, ensembleIds);
      changed := |kept| != |ensembleIds|;
      ensembleIds := kept;
    }

    /** The worker and the pane agree on the last ticket. */
    ghost predicate Ticketed()
      reads this
    {
      worker.Follows(asked) && ticket == worker.newest
    }

    /** `reanalyse`: afterwards everything shown, or asked of the worker, is of what the store
        holds now for this selection, band set and surviving members. */
    method Reanalyse()
      requires Distinct(ensembleIds) && |ensembleIds| <= MAX_MEMBERS && Ticketed()
      modifies this`ensembleIds, this`result, this`ensemble, this`analysing, this`ticket, this`worker, this`basis,
               this`readFrom, this`asked
      ensures Valid() && ensembleIds == Surviving(store, old(ensembleIds)) && readFrom == store
      ensures analysing <==> bandSet == Third || |ensembleIds| >= 2
    {
      var primary, irs := Read();
      if bandSet == Octave && !(|ensembleIds| >= 2) {
        ShowNow(primary);
      } else {
        AskWorker(primary, irs);
      }
    }

    /** The IRs an analysis would read now; an evicted member is dropped first. */
    method Read() returns (primary: Option<Ir>, irs: seq<Option<Ir>>)
      requires Distinct(ensembleIds)
      modifies this`ensembleIds, this`basis, this`readFrom
      ensures ensembleIds == Surviving(store, old(ensembleIds)) && readFrom == store
      ensures Current() && basis.primary == primary && basis.irs == irs
    {
      primary := if selectedId == NOTHING then None else Find(store, selectedId);
      var pruned := PruneEvicted();
      irs := FindAll(store, ensembleIds);
      basis, readFrom := Basis(selectedId, primary, bandSet, ensembleIds, irs), store;
    }

    method ShowNow(primary: Option<Ir>)
      requires Ticketed() && Current() && basis.primary == primary && |ensembleIds| < 2
      modifies this`result, this`ensemble, this`analysing
      ensures Shown() && Waiting() && !analysing
    {
      result := Some(Analysed(primary, bandSet));
      ensemble := None;
      analysing := false;
    }

    method AskWorker(primary: Option<Ir>, irs: seq<Option<Ir>>)
      requires Ticketed() && Current() && basis.primary == primary && basis.irs == irs
      modifies this`result, this`ensemble, this`analysing, this`ticket, this`worker, this`asked
      ensures Shown() && Waiting() && analysing
    {
      ticket := ticket + 1;
      var request := Request(ticket, bandSet, primary, if |ensembleIds| >= 2 then irs else []);
      ensemble := None;
      analysing := true;
      if primary == None {
        result := if selectedId == NOTHING then None else Some(Analysed(None, bandSet));
      } else {
        result := None;
      }
      SubmitFollows(worker, asked, request);
      worker, asked := worker.Submit(request), request;
    }

    /** `poll`: takes the worker's answer if it is to the last question. */
    method Poll()
      requires Valid()
      modifies this`result, this`ensemble, this`analysing, this`worker
      ensures Valid()
      ensures analysing <==> old(analysing) && old(worker).done.None?
    {
      if !analysing {
        return;
      }
      var outcome := worker.done;
      worker := worker.(done := None);
      if outcome.None? || outcome.value.ticket != ticket {
        return;
      }
      if outcome.value.single.Some? {
        result := outcome.value.single;
      }
      ensemble := outcome.value.ensemble;
      analysing := false;
    }

    /** `select`: once per change of selection. */
    method Choose(id: Id)
      requires Valid()
      modifies this
      ensures Valid() && selectedId == id && store == old(store)
      ensures id == old(selectedId) && (old(result).Some? || old(analysing)) ==> unchanged(this)
      ensures id != old(selectedId) || (old(result).None? && !old(analysing)) ==> readFrom == store
    {
      if id == selectedId && (result.Some? || analysing) {
        return;
      }
      selectedId := id;
      Reanalyse();
    }

    method ChangeBandSet(bands: BandSet)
      requires Valid()
      modifies this
      ensures Valid() && bandSet == bands && store == old(store) && selectedId == old(selectedId)
      ensures if bands == old(bandSet) then unchanged(this) else readFrom == store
    {
      if bands == bandSet {
        return;
      }
      bandSet := bands;
      Reanalyse();
    }

    /** `toggleEnsemble`: refused, with nothing changed, when ticking would pass the cap or the
        trace has no IR. */
    method ToggleMember(id: Id) returns (ok: bool)
      requires Valid()
      modifies this
      ensures Valid() && store == old(store)
      ensures ok <==> id in old(ensembleIds) || (|old(ensembleIds)| < MAX_MEMBERS && Held(store, id))
      ensures !ok ==> unchanged(this)
      ensures ok ==> readFrom == store &&
                     forall x :: x in ensembleIds <==>
                                 Held(store, x) && (if x == id then id !in old(ensembleIds) else x in old(ensembleIds))
      ensures ok && id !in old(ensembleIds) ==> ensembleIds == Surviving(store, old(ensembleIds) + [id])
      ensures ok && id in old(ensembleIds) ==>
                exists i :: 0 <= i < |old(ensembleIds)| && old(ensembleIds)[i] == id &&
                            ensembleIds == Surviving(store, old(ensembleIds)[..i] + old(ensembleIds)[i + 1..])
    {
      var i := IndexOf(ensembleIds, id);
      if i < |ensembleIds| {
        Erased(ensembleIds, i);
        ensembleIds := ensembleIds[..i] + ensembleIds[i + 1..];
      } else {
        if |ensembleIds| >= MAX_MEMBERS {
          return false;
        }
        if !Held(store, id) {
          return false;
        }
        ensembleIds := ensembleIds + [id];
      }
      Reanalyse();
      return true;
    }

    method ClearMembers()
      requires Valid()
      modifies this
      ensures Valid() && ensembleIds == [] && store == old(store)
      ensures if old(ensembleIds) == [] then unchanged(this) else readFrom == store
    {
      if ensembleIds == [] {
        return;
      }
      ensembleIds := [];
      Reanalyse();
    }

    /** `revision`: takes a finished job, and drops members a sweep has evicted. */
    method Revision()
      requires Valid()
      modifies this
      ensures Valid() && store == old(store) && selectedId == old(selectedId) && bandSet == old(bandSet)
      ensures ensembleIds == Surviving(store, old(ensembleIds))
      ensures readFrom == if ensembleIds == old(ensembleIds) then old(readFrom) else store
    {
      Poll();
      assert ensembleIds == old(ensembleIds) && readFrom == old(readFrom);
      DropEvicted();
    }

    method DropEvicted()
      requires Valid()
      modifies this
      ensures Valid() && store == old(store) && selectedId == old(selectedId) && bandSet == old(bandSet)
      ensures ensembleIds == Surviving(store, old(ensembleIds))
      ensures readFrom == if ensembleIds == old(ensembleIds) then old(readFrom) else store
    {
      SurvivingAgain(store, ensembleIds);
      var changed := PruneEvicted();
      if changed {
        Reanalyse();
      }
    }

    ghost function Now(): Moment
      reads this
    {
      Moment(selectedId, bandSet, ensembleIds, store, readFrom)
    }

    /** One event; only a change of selection, band set or members reads the store anew. */
    method Handle(e: Event)
      requires Valid()
      modifies this
      ensures Valid() && ReadsOnChange(old(Now()), Now())
    {
      match e {
        case Select(id) => Choose(id);
        case SetBandSet(bands) => ChangeBandSet(bands);
        case Toggle(id) => var ok := ToggleMember(id);
        case Clear => ClearMembers();
        case AskRevision => Revision();
        case StoreChanged(s) => store := s;
        case WorkerBegins => BeginFollows(worker, asked); worker := worker.Begin();
        case WorkerEnds(cut) => CompleteFollows(worker, asked, cut); worker := worker.Complete(cut);
      }
    }

    /** Any interleaving of clicks, sweeps that change the store, and worker steps: whatever
        is shown is the direct analysis of what the store held, at the last change of
        selection, band set or members, for exactly these; with no job on its way all of it
        is shown. */
    method Run(events: seq<Event>) returns (ghost moments: seq<Moment>)
      requires Valid()
      modifies this
      ensures Valid() && Unbroken(moments) && |moments| == |events| + 1
      ensures moments[0] == old(Now()) && moments[|events|] == Now()
      ensures selectedId != NOTHING && result.Some? ==> result.value == Analysed(Find(readFrom, selectedId), bandSet)
      ensures ensemble.Some? ==>
                |ensembleIds| >= 2 && ensemble.value == Together(FindAll(readFrom, ensembleIds), bandSet) &&
                forall x :: x in ensembleIds ==> Held(readFrom, x)
      ensures !analysing ==> (selectedId != NOTHING ==> result.Some?) && (|ensembleIds| >= 2 ==> ensemble.Some?)
    {
      moments := [Now()];
      for n := 0 to |events|
        invariant Valid() && Unbroken(moments) && |moments| == n + 1
        invariant moments[0] == old(Now()) && moments[n] == Now()
      {
        Handle(events[n]);
        moments := moments + [Now()];
      }
    }
  }
}
