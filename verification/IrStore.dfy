/** The store that keeps the impulse responses of the last sweeps. */
module IrStores {
  import opened Options

  type Id = string

  /** An impulse response, known by the number of the capture request whose audio it was
      computed from. */
  datatype Ir = Ir(request: nat)

  const CAPACITY: nat := 8

  datatype Entry = Entry(id: Id, ir: Ir)

  function Find(entries: seq<Entry>, id: Id): Option<Ir> {
    if entries == [] then None
    else if entries[0].id == id then Some(entries[0].ir)
    else Find(entries[1..], id)
  }

  predicate Holds(entries: seq<Entry>, id: Id) {
    exists i :: 0 <= i < |entries| && entries[i].id == id
  }

  predicate DistinctIds(entries: seq<Entry>) {
    forall i, j :: 0 <= i < j < |entries| ==> entries[i].id != entries[j].id
  }

  lemma {:induction false} FindAt(entries: seq<Entry>, i: nat)
    requires i < |entries| && DistinctIds(entries)
    ensures Find(entries, entries[i].id) == Some(entries[i].ir)
  {
    if i > 0 {
      FindAt(entries[1..], i - 1);
    }
  }

  lemma {:induction false} FindNone(entries: seq<Entry>, id: Id)
    ensures Find(entries, id).None? <==> !Holds(entries, id)
  {
    if entries != [] {
      FindNone(entries[1..], id);
      if Holds(entries, id) && entries[0].id != id {
        var i :| 0 <= i < |entries| && entries[i].id == id;
        assert entries[1..][i - 1].id == id;
      }
      if Holds(entries[1..], id) {
        var i :| 0 <= i < |entries[1..]| && entries[1..][i].id == id;
        assert entries[i + 1].id == id;
      }
    }
  }

  /** `IrStore`: at most eight IRs, the oldest out. */
  class IrStore {
    var entries: seq<Entry>

    ghost predicate Valid() reads this {
      |entries| <= CAPACITY && DistinctIds(entries)
    }

    function Get(id: Id): Option<Ir>
      reads this
    {
      Find(entries, id)
    }

    constructor ()
      ensures Valid() && entries == []
    {
      entries := [];
    }

    /** `add`: the id is found afterwards with this IR; every other id is found as before,
        but for the oldest one when a new id finds the store full. */
    method Add(id: Id, ir: Ir)
      requires Valid()
      modifies this
      ensures Valid() && Find(entries, id) == Some(ir)
      ensures forall other ::
                other != id &&
                !(|old(entries)| == CAPACITY && !Holds(old(entries), id) && other == old(entries)[0].id) ==>
                Find(entries, other) == Find(old(entries), other)
      ensures Holds(old(entries), id) ==>
                |entries| == |old(entries)| &&
                forall i :: 0 <= i < |entries| ==>
                  entries[i] == if old(entries)[i].id == id then Entry(id, ir) else old(entries)[i]
      ensures !Holds(old(entries), id) ==>
                entries == (if |old(entries)| == 8 then old(entries)[1..] else old(entries)) + [Entry(id, ir)]
    {
      var i := 0;
      while i < |entries|
        invariant 0 <= i <= |entries| && entries == old(entries)
        invariant forall k :: 0 <= k < i ==> entries[k].id != id
      {
        if entries[i].id == id {
          Replaced(entries, i, ir);
          entries := entries[i := Entry(id, ir)];
          return;
        }
        i := i + 1;
      }
      Appended(entries, Entry(id, ir));
      entries := entries + [Entry(id, ir)];
      if |entries| > CAPACITY {
        Popped(entries);
        FindAt(entries[1..], |entries| - 2);
        entries := entries[1..];
      }
    }
  }

  lemma {:induction false} Replaced(entries: seq<Entry>, i: nat, ir: Ir)
    requires i < |entries| && DistinctIds(entries)
    ensures var after := entries[i := Entry(entries[i].id, ir)];
            DistinctIds(after) && Find(after, entries[i].id) == Some(ir) &&
            forall other :: other != entries[i].id ==> Find(after, other) == Find(entries, other)
  {
    var after := entries[i := Entry(entries[i].id, ir)];
    FindAt(after, i);
    forall other | other != entries[i].id ensures Find(after, other) == Find(entries, other) {
      ReplacedOther(entries, i, ir, other);
    }
  }

  lemma {:induction false} ReplacedOther(entries: seq<Entry>, i: nat, ir: Ir, other: Id)
    requires i < |entries| && other != entries[i].id
    ensures Find(entries[i := Entry(entries[i].id, ir)], other) == Find(entries, other)
  {
    var after := entries[i := Entry(entries[i].id, ir)];
    if i == 0 {
      assert after[1..] == entries[1..];
    } else {
      assert after[1..] == entries[1..][i - 1 := Entry(entries[i].id, ir)];
      ReplacedOther(entries[1..], i - 1, ir, other);
    }
  }

  lemma {:induction false} Appended(entries: seq<Entry>, e: Entry)
    requires forall k :: 0 <= k < |entries| ==> entries[k].id != e.id
    ensures Find(entries + [e], e.id) == Some(e.ir)
    ensures forall other :: other != e.id ==> Find(entries + [e], other) == Find(entries, other)
  {
    if entries == [] {
      assert (entries + [e])[1..] == [];
    } else {
      Appended(entries[1..], e);
      assert (entries + [e])[1..] == entries[1..] + [e];
    }
  }

  lemma {:induction false} Popped(entries: seq<Entry>)
    requires entries != []
    ensures forall other :: other != entries[0].id ==> Find(entries[1..], other) == Find(entries, other)
  {
  }
}
