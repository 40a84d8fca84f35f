/** The crash-consistent mutation run of tools/diffmut.py and tools/mutation_sidecar.py:
    a sidecar with the original bytes is written before a source is mutated, and the
    restore that puts sidecars back can itself be killed and run again. */
module Diffmut {
  import opened Options
  import opened Sequences

  type Path = string
  type Bytes = seq<nat>
  type Tree = map<Path, Bytes>

  // ------------------------------------------------------------------ sidecars

  const SUFFIX: string := ".diffmut-orig"

  function SidecarPath(p: Path): Path {
    p + SUFFIX
  }

  predicate IsSidecar(p: Path) {
    |p| >= |SUFFIX| && p[|p| - |SUFFIX|..] == SUFFIX
  }

  function OriginalPath(s: Path): Path
    requires IsSidecar(s)
  {
    s[..|s| - |SUFFIX|]
  }

  lemma SidecarRoundTrip(p: Path)
    ensures IsSidecar(SidecarPath(p)) && OriginalPath(SidecarPath(p)) == p
  {
  }

  lemma OriginalRoundTrip(s: Path)
    requires IsSidecar(s)
    ensures SidecarPath(OriginalPath(s)) == s
  {
  }

  /** `find_stale_sidecars`: the sidecars present. */
  function Stale(t: Tree): set<Path> {
    set p | p in t && IsSidecar(p)
  }

  // ------------------------------------------------- file operations, and kills

  datatype Op = Write(path: Path, bytes: Bytes) | Unlink(path: Path)

  function Do(t: Tree, op: Op): Tree {
    match op
    case Write(p, b) => t[p := b]
    case Unlink(p) => t - {p}
  }

  function Apply(t: Tree, ops: seq<Op>): Tree
    decreases |ops|
  {
    if ops == [] then t else Apply(Do(t, ops[0]), ops[1..])
  }

  /** A hard kill: right before operation k, or, with `torn`, in the middle of it, which
      leaves arbitrary bytes in a file being written. */
  datatype Kill = Never | At(k: nat, torn: Option<Bytes>)

  predicate Hits(ops: seq<Op>, kill: Kill) {
    kill.At? && kill.k < |ops|
  }

  /** What a run of these operations leaves behind. */
  function Killed(t: Tree, ops: seq<Op>, kill: Kill): Tree {
    if !Hits(ops, kill) then Apply(t, ops)
    else
      var reached := Apply(t, ops[..kill.k]);
      if kill.torn.Some? && ops[kill.k].Write? then reached[ops[kill.k].path := kill.torn.value] else reached
  }

  /** The kill lands inside the write of a sidecar. */
  predicate TearsSidecar(ops: seq<Op>, kill: Kill) {
    Hits(ops, kill) && kill.torn.Some? && ops[kill.k].Write? && IsSidecar(ops[kill.k].path)
  }

  lemma {:induction false} ApplyConcat(t: Tree, a: seq<Op>, b: seq<Op>)
    ensures Apply(t, a + b) == Apply(Apply(t, a), b)
    decreases |a|
  {
    if a == [] {
      assert a + b == b;
    } else {
      assert (a + b)[0] == a[0] && (a + b)[1..] == a[1..] + b;
      ApplyConcat(Do(t, a[0]), a[1..], b);
    }
  }

  // --------------------------------------------------------- what every step keeps

  /** Relative to the pristine tree: other files are untouched, each sidecar holds the
      original bytes of its source, and each source is intact or has its sidecar. */
  ghost predicate Recoverable(pristine: Tree, t: Tree) {
    (forall p :: p in pristine ==> !IsSidecar(p) && p in t && (t[p] == pristine[p] || SidecarPath(p) in t)) &&
    (forall p :: p in t ==> Accounted(pristine, t, p))
  }

  ghost predicate Accounted(pristine: Tree, t: Tree, p: Path)
    requires p in t
  {
    if IsSidecar(p) then OriginalPath(p) in pristine && t[p] == pristine[OriginalPath(p)]
    else p in pristine
  }

  /** With no sidecar left, a recoverable tree is the pristine one. */
  lemma CleanIsPristine(pristine: Tree, t: Tree)
    requires Recoverable(pristine, t) && Stale(t) == {}
    ensures t == pristine
  {
    forall p | p in t ensures p in pristine && t[p] == pristine[p] {
      assert IsSidecar(p) ==> p in Stale(t);
      assert Accounted(pristine, t, p);
      SidecarRoundTrip(p);
      assert SidecarPath(p) in t ==> SidecarPath(p) in Stale(t);
    }
    forall p | p in pristine ensures p in t {}
  }

  /** The tree is recoverable before each operation, and a torn source write keeps it so. */
  ghost predicate SafeFrom(pristine: Tree, t: Tree, ops: seq<Op>)
    decreases |ops|
  {
    Recoverable(pristine, t) &&
    (ops != [] ==>
       (ops[0].Write? && !IsSidecar(ops[0].path) ==> ProtectedSource(pristine, t, ops[0].path)) &&
       SafeFrom(pristine, Do(t, ops[0]), ops[1..]))
  }

  /** A source that may be overwritten with anything: its sidecar is there. */
  ghost predicate ProtectedSource(pristine: Tree, t: Tree, p: Path) {
    p in pristine && SidecarPath(p) in t
  }

  lemma OverwriteProtected(pristine: Tree, t: Tree, p: Path, b: Bytes)
    requires Recoverable(pristine, t) && ProtectedSource(pristine, t, p)
    ensures Recoverable(pristine, t[p := b])
  {
    var u := t[p := b];
    forall q | q in u ensures Accounted(pristine, u, q) {
      if q != p { assert Accounted(pristine, t, q); }
    }
  }

  /** Wherever a safe run is killed, except inside a sidecar write, the tree it leaves is
      recoverable. */
  lemma {:induction false} KilledIsRecoverable(pristine: Tree, t: Tree, ops: seq<Op>, kill: Kill)
    requires SafeFrom(pristine, t, ops) && !TearsSidecar(ops, kill)
    ensures Recoverable(pristine, Killed(t, ops, kill))
    decreases |ops|
  {
    if ops == [] {
    } else if kill.At? && kill.k == 0 {
      assert ops[..0] == [];
      if kill.torn.Some? && ops[0].Write? {
        OverwriteProtected(pristine, t, ops[0].path, kill.torn.value);
      }
    } else {
      var later := if kill.At? then At(kill.k - 1, kill.torn) else Never;
      KilledLater(t, ops, kill);
      KilledIsRecoverable(pristine, Do(t, ops[0]), ops[1..], later);
    }
  }

  lemma {:induction false} KilledLater(t: Tree, ops: seq<Op>, kill: Kill)
    requires ops != [] && (kill.At? ==> kill.k > 0)
    ensures Killed(t, ops, kill) ==
            Killed(Do(t, ops[0]), ops[1..], if kill.At? then At(kill.k - 1, kill.torn) else Never)
  {
    if Hits(ops, kill) {
      assert ops[..kill.k][0] == ops[0] && ops[..kill.k][1..] == ops[1..][..kill.k - 1];
    }
  }

  lemma {:induction false} SafeConcat(pristine: Tree, t: Tree, a: seq<Op>, b: seq<Op>)
    requires SafeFrom(pristine, t, a) && SafeFrom(pristine, Apply(t, a), b)
    ensures SafeFrom(pristine, t, a + b)
    decreases |a|
  {
    if a == [] {
      assert a + b == b;
    } else {
      assert (a + b)[0] == a[0] && (a + b)[1..] == a[1..] + b;
      SafeConcat(pristine, Do(t, a[0]), a[1..], b);
    }
  }

  // ------------------------------------------------------------- a mutation run

  /** One mutant: the mutated bytes, or none when the line is out of range or the text does not
      decode; `targeted` is false when no build target exists, and `raises` tells that an
      exception, after the source was put back, ends the whole run. */
  datatype Mutant = Mutant(path: Path, mutated: Option<Bytes>, targeted: bool, raises: bool)

  /** The file operations of `run_mutant` on a source holding `original`. */
  function MutantOps(m: Mutant, original: Bytes): seq<Op> {
    Mutating(m, original) + PuttingBack(m.path, original)
  }

  function Mutating(m: Mutant, original: Bytes): seq<Op> {
    [Write(SidecarPath(m.path), original)] + if m.mutated.Some? then [Write(m.path, m.mutated.value)] else []
  }

  function PuttingBack(p: Path, original: Bytes): seq<Op> {
    [Write(p, original), Unlink(SidecarPath(p))]
  }

  /** Nothing is touched without a target or without the source. */
  function OpsOf(t: Tree, m: Mutant): seq<Op> {
    if m.targeted && m.path in t then MutantOps(m, t[m.path]) else []
  }

  /** The mutant ends the run: its source is missing or something raised. */
  predicate Ends(t: Tree, m: Mutant) {
    m.targeted && (m.path !in t || m.raises)
  }

  /** Each mutant in turn, on the tree the ones before it left. */
  function RunOps(t: Tree, mutants: seq<Mutant>): seq<Op>
    decreases |mutants|
  {
    if mutants == [] then []
    else
      var ops := OpsOf(t, mutants[0]);
      ops + if Ends(t, mutants[0]) then [] else RunOps(Apply(t, ops), mutants[1..])
  }

  lemma SidecarWritten(pristine: Tree, p: Path)
    requires Recoverable(pristine, pristine) && p in pristine
    ensures Recoverable(pristine, pristine[SidecarPath(p) := pristine[p]])
  {
    var u := pristine[SidecarPath(p) := pristine[p]];
    SidecarRoundTrip(p);
    forall q | q in u ensures Accounted(pristine, u, q) {
      if q != SidecarPath(p) { assert Accounted(pristine, pristine, q); }
    }
    forall q | q in pristine ensures q != SidecarPath(p) {}
  }

  /** From the pristine tree one mutant is safe throughout and ends pristine. */
  lemma {:induction false} MutantSafe(pristine: Tree, m: Mutant)
    requires Recoverable(pristine, pristine) && m.path in pristine
    ensures SafeFrom(pristine, pristine, MutantOps(m, pristine[m.path]))
    ensures Apply(pristine, MutantOps(m, pristine[m.path])) == pristine
  {
    var p := m.path;
    var guarded := pristine[SidecarPath(p) := pristine[p]];
    var after := MutantOps(m, pristine[p])[1..];
    SidecarRoundTrip(p);
    SidecarWritten(pristine, p);
    if m.mutated.Some? {
      MutatedSafe(pristine, guarded, p, m.mutated.value);
      assert after == [Write(p, m.mutated.value), Write(p, pristine[p]), Unlink(SidecarPath(p))];
    } else {
      RestoreTail(pristine, guarded, p);
      assert after == [Write(p, pristine[p]), Unlink(SidecarPath(p))];
    }
    assert MutantOps(m, pristine[p])[0] == Write(SidecarPath(p), pristine[p]);
  }

  /** With its sidecar there, a source is mutated and put back. */
  lemma {:induction false} MutatedSafe(pristine: Tree, guarded: Tree, p: Path, b: Bytes)
    requires Recoverable(pristine, pristine) && p in pristine && SidecarPath(p) !in pristine
    requires guarded == pristine[SidecarPath(p) := pristine[p]] && Recoverable(pristine, guarded)
    ensures var ops := [Write(p, b), Write(p, pristine[p]), Unlink(SidecarPath(p))];
            SafeFrom(pristine, guarded, ops) && Apply(guarded, ops) == pristine
  {
    var ops := [Write(p, b), Write(p, pristine[p]), Unlink(SidecarPath(p))];
    OverwriteProtected(pristine, guarded, p, b);
    SidecarRoundTrip(p);
    RestoreTail(pristine, guarded[p := b], p);
    assert ops[1..] == [Write(p, pristine[p]), Unlink(SidecarPath(p))];
  }

  /** Writing the original back and dropping the sidecar, whatever the source holds. */
  lemma {:induction false} RestoreTail(pristine: Tree, t: Tree, p: Path)
    requires Recoverable(pristine, pristine) && p in pristine && p in t
    requires SidecarPath(p) !in pristine && t[p := pristine[p]] == pristine[SidecarPath(p) := pristine[p]]
    requires Recoverable(pristine, t)
    ensures SafeFrom(pristine, t, [Write(p, pristine[p]), Unlink(SidecarPath(p))])
    ensures Apply(t, [Write(p, pristine[p]), Unlink(SidecarPath(p))]) == pristine
  {
    var s := SidecarPath(p);
    var ops := [Write(p, pristine[p]), Unlink(s)];
    assert ops[1..] == [Unlink(s)] && ops[1..][1..] == [];
    SidecarRoundTrip(p);
    SidecarWritten(pristine, p);
    assert s in t[p := pristine[p]] && s != p;
    var guarded := pristine[s := pristine[p]];
    assert guarded - {s} == pristine;
    assert Apply(guarded, ops[1..]) == Apply(pristine, ops[1..][1..]);
  }

  lemma {:induction false} OneSafe(pristine: Tree, m: Mutant)
    requires Recoverable(pristine, pristine)
    ensures SafeFrom(pristine, pristine, OpsOf(pristine, m)) && Apply(pristine, OpsOf(pristine, m)) == pristine
  {
    if m.targeted && m.path in pristine { MutantSafe(pristine, m); }
  }

  /** A run over any mutants is safe throughout, and complete it changes nothing. */
  lemma {:induction false} RunSafe(pristine: Tree, mutants: seq<Mutant>)
    requires Recoverable(pristine, pristine)
    ensures SafeFrom(pristine, pristine, RunOps(pristine, mutants))
    ensures Apply(pristine, RunOps(pristine, mutants)) == pristine
  {
    if mutants != [] {
      var ops := OpsOf(pristine, mutants[0]);
      OneSafe(pristine, mutants[0]);
      var later := if Ends(pristine, mutants[0]) then [] else RunOps(pristine, mutants[1..]);
      if !Ends(pristine, mutants[0]) { RunSafe(pristine, mutants[1..]); }
      SafeConcat(pristine, pristine, ops, later);
      ApplyConcat(pristine, ops, later);
    }
  }

  // ------------------------------------------------------ what the builds get to see

  /** The tree with a source mutated and its original kept beside it. */
  function MutatedTree(t: Tree, p: Path, mutated: Bytes): Tree
    requires p in t
  {
    t[SidecarPath(p) := t[p]][p := mutated]
  }

  /** The tree that a mutant's build sees, if it comes to a build at all. */
  function SeenBy(t: Tree, m: Mutant): seq<Tree> {
    if m.targeted && m.path in t && m.mutated.Some? then [MutatedTree(t, m.path, m.mutated.value)] else []
  }

  /** The trees that the builds of a run see, in order: one for each mutant with mutated bytes,
      up to the one that ends the run. */
  function Seen(t: Tree, mutants: seq<Mutant>): seq<Tree>
    decreases |mutants|
  {
    if mutants == [] then []
    else
      SeenBy(t, mutants[0]) +
      if Ends(t, mutants[0]) then [] else Seen(Apply(t, OpsOf(t, mutants[0])), mutants[1..])
  }

  /** One mutant's bytes are on disk after two operations, on any tree without its sidecar. */
  lemma {:induction false} MutantIsOnDisk(t: Tree, m: Mutant)
    requires m.path in t && m.mutated.Some?
    ensures |MutantOps(m, t[m.path])| == 4
    ensures Apply(t, MutantOps(m, t[m.path])[..2]) == MutatedTree(t, m.path, m.mutated.value)
  {
    var ops := MutantOps(m, t[m.path])[..2];
    assert ops == [Write(SidecarPath(m.path), t[m.path]), Write(m.path, m.mutated.value)];
    assert ops[1..] == [Write(m.path, m.mutated.value)] && ops[1..][1..] == [];
    assert Apply(t, ops) == Apply(Do(t, ops[0]), ops[1..]) == Apply(Do(Do(t, ops[0]), ops[1]), ops[1..][1..]);
  }

  /** After operation number at[i] of the run, the tree is the i-th one to be seen. */
  ghost predicate SeenAt(pristine: Tree, ops: seq<Op>, at: seq<nat>, seen: seq<Tree>) {
    |at| == |seen| && (forall i, j :: 0 <= i < j < |at| ==> at[i] < at[j]) &&
    forall i :: 0 <= i < |at| ==> at[i] <= |ops| && Apply(pristine, ops[..at[i]]) == seen[i]
  }

  /** A run that is not killed shows every build its mutated tree, in the order of the mutants. */
  lemma {:induction false} EveryMutantIsSeen(pristine: Tree, mutants: seq<Mutant>) returns (at: seq<nat>)
    requires Recoverable(pristine, pristine)
    ensures SeenAt(pristine, RunOps(pristine, mutants), at, Seen(pristine, mutants))
  {
    if mutants == [] {
      at := [];
    } else {
      var m := mutants[0];
      var here := OpsOf(pristine, m);
      OneSafe(pristine, m);
      var later: seq<Op>, seen: seq<Tree>, rest: seq<nat> := [], [], [];
      if !Ends(pristine, m) {
        rest := EveryMutantIsSeen(pristine, mutants[1..]);
        later, seen := RunOps(pristine, mutants[1..]), Seen(pristine, mutants[1..]);
      }
      at := SeenLater(pristine, m, here, later, rest, seen);
    }
  }

  lemma {:induction false} SeenLater(pristine: Tree, m: Mutant, here: seq<Op>, later: seq<Op>, rest: seq<nat>,
                                     seen: seq<Tree>) returns (at: seq<nat>)
    requires here == OpsOf(pristine, m) && Apply(pristine, here) == pristine && SeenAt(pristine, later, rest, seen)
    ensures SeenAt(pristine, here + later, at, SeenBy(pristine, m) + seen)
  {
    at := SeenMoved(pristine, here, later, rest, seen);
    if m.targeted && m.path in pristine && m.mutated.Some? {
      MutantIsOnDisk(pristine, m);
      assert (here + later)[..2] == here[..2];
      at := SeenFirst(pristine, here + later, at, seen, MutatedTree(pristine, m.path, m.mutated.value));
    } else {
      assert [] + seen == seen;
    }
  }

  /** Operations before that leave the tree as it was only move the moments. */
  lemma {:induction false} SeenMoved(pristine: Tree, here: seq<Op>, later: seq<Op>, rest: seq<nat>, seen: seq<Tree>)
    returns (at: seq<nat>)
    requires Apply(pristine, here) == pristine && SeenAt(pristine, later, rest, seen)
    ensures SeenAt(pristine, here + later, at, seen) && forall i :: 0 <= i < |at| ==> at[i] >= |here|
  {
    at := Moved(rest, |here|);
    forall i | 0 <= i < |rest| ensures at[i] <= |here + later| && Apply(pristine, (here + later)[..at[i]]) == seen[i] {
      assert (here + later)[..at[i]] == here + later[..rest[i]];
      ApplyConcat(pristine, here, later[..rest[i]]);
    }
  }

  lemma {:induction false} SeenFirst(pristine: Tree, ops: seq<Op>, at: seq<nat>, seen: seq<Tree>, first: Tree)
    returns (all: seq<nat>)
    requires SeenAt(pristine, ops, at, seen) && |ops| >= 2 && (forall i :: 0 <= i < |at| ==> at[i] > 2)
    requires Apply(pristine, ops[..2]) == first
    ensures SeenAt(pristine, ops, all, [first] + seen)
  {
    all := [2] + at;
  }

  function Moved(at: seq<nat>, n: nat): (r: seq<nat>)
    ensures |r| == |at| && forall i {:trigger r[i]} :: 0 <= i < |at| ==> r[i] == at[i] + n
  {
    if at == [] then [] else [at[0] + n] + Moved(at[1..], n)
  }

  // ------------------------------------------------------------------- restore

  ghost predicate Lists(order: seq<Path>, stale: set<Path>) {
    Distinct(order) && Elements(order) == stale
  }

  ghost predicate Listed(t: Tree, order: seq<Path>) {
    Distinct(order) && forall i :: 0 <= i < |order| ==> IsSidecar(order[i]) && order[i] in t
  }

  lemma ListsListed(t: Tree, order: seq<Path>)
    requires Lists(order, Stale(t))
    ensures Listed(t, order)
  {
    forall i | 0 <= i < |order| ensures IsSidecar(order[i]) && order[i] in t {
      assert order[i] in Stale(t);
    }
  }

  lemma {:induction false} ListsTail(order: seq<Path>, stale: set<Path>)
    requires Lists(order, stale) && order != []
    ensures Lists(order[1..], stale - {order[0]})
  {
    assert order == [order[0]] + order[1..];
    assert Elements(order[1..]) == Elements(order) - {order[0]};
  }

  function PutBack(t: Tree, s: Path): seq<Op>
    requires s in t && IsSidecar(s)
  {
    [Write(OriginalPath(s), t[s]), Unlink(s)]
  }

  lemma PutBackApplied(t: Tree, s: Path)
    requires s in t && IsSidecar(s)
    ensures Apply(t, PutBack(t, s)) == t[OriginalPath(s) := t[s]] - {s}
  {
    var ops := PutBack(t, s);
    assert ops[1..] == [Unlink(s)] && ops[1..][1..] == [];
    assert Apply(t, ops) == Apply(Do(t, ops[0]), ops[1..]);
    assert Apply(Do(t, ops[0]), ops[1..]) == Apply(Do(Do(t, ops[0]), ops[1]), ops[1..][1..]);
  }

  lemma ListedAfter(t: Tree, order: seq<Path>)
    requires Listed(t, order) && order != []
    ensures Listed(Apply(t, PutBack(t, order[0])), order[1..])
  {
    PutBackApplied(t, order[0]);
  }

  /** The file operations of `restore_from_sidecars`, in the order the search found the
      sidecars: each is read when its turn comes. */
  function RestoreOps(t: Tree, order: seq<Path>): seq<Op>
    requires Listed(t, order)
    decreases |order|
  {
    if order == [] then []
    else
      ListedAfter(t, order);
      var head := PutBack(t, order[0]);
      head + RestoreOps(Apply(t, head), order[1..])
  }

  /** One sidecar put back and dropped. */
  lemma {:induction false} RestoreOne(pristine: Tree, t: Tree, s: Path)
    requires Recoverable(pristine, t) && s in t && IsSidecar(s)
    ensures var p := OriginalPath(s); var back := t[p := t[s]];
            ProtectedSource(pristine, t, p) && !IsSidecar(p) && p != s &&
            Recoverable(pristine, back) && Recoverable(pristine, back - {s})
  {
    var p := OriginalPath(s);
    OriginalRoundTrip(s);
    assert Accounted(pristine, t, s);
    OverwriteProtected(pristine, t, p, t[s]);
    var back := t[p := t[s]];
    var after := back - {s};
    forall q | q in after ensures Accounted(pristine, after, q) {
      assert Accounted(pristine, back, q);
    }
    forall q | q in pristine ensures q in after && (after[q] == pristine[q] || SidecarPath(q) in after) {
      SidecarRoundTrip(q);
    }
  }

  lemma {:induction false} PutBackSafe(pristine: Tree, t: Tree, s: Path)
    requires Recoverable(pristine, t) && s in t && IsSidecar(s)
    ensures SafeFrom(pristine, t, PutBack(t, s)) && Recoverable(pristine, Apply(t, PutBack(t, s)))
    ensures Stale(Apply(t, PutBack(t, s))) == Stale(t) - {s}
  {
    var ops := PutBack(t, s);
    assert ops[1..] == [Unlink(s)] && ops[1..][1..] == [];
    RestoreOne(pristine, t, s);
    PutBackApplied(t, s);
  }

  /** From any recoverable tree the restore is safe throughout, and complete it leaves
      exactly the pristine tree. */
  lemma {:induction false} RestoreSafe(pristine: Tree, t: Tree, order: seq<Path>)
    requires Recoverable(pristine, t) && Lists(order, Stale(t))
    ensures Listed(t, order) && SafeFrom(pristine, t, RestoreOps(t, order))
    ensures Apply(t, RestoreOps(t, order)) == pristine
    decreases |order|
  {
    ListsListed(t, order);
    if order == [] {
      CleanIsPristine(pristine, t);
    } else {
      var s := order[0];
      var head := PutBack(t, s);
      var after := Apply(t, head);
      PutBackSafe(pristine, t, s);
      ListsTail(order, Stale(t));
      RestoreSafe(pristine, after, order[1..]);
      SafeConcat(pristine, t, head, RestoreOps(after, order[1..]));
      ApplyConcat(t, head, RestoreOps(after, order[1..]));
    }
  }

  // ------------------------------------------------------- any history of sessions

  /** One invocation of the tool, killed or not. */
  datatype Session = Run(mutants: seq<Mutant>, kill: Kill) | Restore(order: seq<Path>, kill: Kill)

  /** A run refuses to start while any sidecar exists. */
  predicate Refused(t: Tree, session: Session) {
    session.Run? && Stale(t) != {}
  }

  /** The file operations a session performs; none when it refuses to start. */
  function SessionOps(t: Tree, session: Session): seq<Op>
    requires session.Restore? ==> Listed(t, session.order)
  {
    if Refused(t, session) then []
    else match session
      case Run(mutants, _) => RunOps(t, mutants)
      case Restore(order, _) => RestoreOps(t, order)
  }

  ghost predicate Possible(t: Tree, session: Session) {
    (session.Restore? ==> Lists(session.order, Stale(t)) && Listed(t, session.order)) &&
    !TearsSidecar(SessionOps(t, session), session.kill)
  }

  /** `t` is what some sequence of sessions, each killed anywhere but inside a sidecar
      write, can leave of the pristine tree. */
  ghost predicate Reached(pristine: Tree, sessions: seq<Session>, t: Tree) {
    if sessions == [] then t == pristine
    else
      var n := |sessions| - 1;
      exists before :: Reached(pristine, sessions[..n], before) && Possible(before, sessions[n]) &&
                       t == Killed(before, SessionOps(before, sessions[n]), sessions[n].kill)
  }

  lemma PristineRecoverable(pristine: Tree)
    requires Stale(pristine) == {}
    ensures Recoverable(pristine, pristine)
  {
    forall p | p in pristine ensures !IsSidecar(p) {
      assert p !in Stale(pristine);
    }
  }

  /** One session keeps the tree recoverable. */
  lemma {:induction false} SessionKeepsRecoverable(pristine: Tree, t: Tree, session: Session)
    requires Stale(pristine) == {} && Recoverable(pristine, t) && Possible(t, session)
    ensures Recoverable(pristine, Killed(t, SessionOps(t, session), session.kill))
  {
    PristineRecoverable(pristine);
    if Refused(t, session) {
      assert SafeFrom(pristine, t, []);
    } else if session.Run? {
      CleanIsPristine(pristine, t);
      RunSafe(pristine, session.mutants);
    } else {
      RestoreSafe(pristine, t, session.order);
    }
    KilledIsRecoverable(pristine, t, SessionOps(t, session), session.kill);
  }

  /** After any history every source's original bytes are in the file or its sidecar. */
  lemma {:induction false} HistoryIsRecoverable(pristine: Tree, sessions: seq<Session>, t: Tree)
    requires Stale(pristine) == {} && Reached(pristine, sessions, t)
    ensures Recoverable(pristine, t)
  {
    if sessions == [] {
      PristineRecoverable(pristine);
    } else {
      var n := |sessions| - 1;
      var before :| Reached(pristine, sessions[..n], before) && Possible(before, sessions[n]) &&
                    t == Killed(before, SessionOps(before, sessions[n]), sessions[n].kill);
      HistoryIsRecoverable(pristine, sessions[..n], before);
      SessionKeepsRecoverable(pristine, before, sessions[n]);
    }
  }

  /** After any history one restore that is not killed gives back the exact tree, with no
      sidecar left, and a run can start again. */
  lemma {:induction false} RestoreAfterHistory(pristine: Tree, sessions: seq<Session>, t: Tree, order: seq<Path>)
    requires Stale(pristine) == {} && Reached(pristine, sessions, t) && Lists(order, Stale(t))
    ensures Listed(t, order) && Killed(t, RestoreOps(t, order), Never) == pristine
  {
    HistoryIsRecoverable(pristine, sessions, t);
    RestoreSafe(pristine, t, order);
  }

  // ------------------------------------------------------------- a torn sidecar write

  /** A run writes a sidecar only on the pristine tree, with that source's own bytes. */
  lemma {:induction false} SidecarOnPristine(pristine: Tree, mutants: seq<Mutant>, k: nat)
    requires Recoverable(pristine, pristine) && k < |RunOps(pristine, mutants)|
    requires var op := RunOps(pristine, mutants)[k]; op.Write? && IsSidecar(op.path)
    ensures var ops := RunOps(pristine, mutants);
            Apply(pristine, ops[..k]) == pristine && OriginalPath(ops[k].path) in pristine &&
            ops[k].bytes == pristine[OriginalPath(ops[k].path)]
    decreases |mutants|
  {
    var m, all := mutants[0], RunOps(pristine, mutants);
    var ops := OpsOf(pristine, m);
    OneSafe(pristine, m);
    if k < |ops| {
      SidecarIsFirst(pristine, m, k);
      assert all[k] == ops[k] && all[..0] == [];
    } else {
      var later := RunOps(pristine, mutants[1..]);
      assert all == ops + later && all[k] == later[k - |ops|];
      SidecarOnPristine(pristine, mutants[1..], k - |ops|);
      assert all[..k] == ops + later[..k - |ops|];
      ApplyConcat(pristine, ops, later[..k - |ops|]);
    }
  }

  lemma {:induction false} SidecarIsFirst(pristine: Tree, m: Mutant, k: nat)
    requires Recoverable(pristine, pristine) && k < |OpsOf(pristine, m)|
    requires var op := OpsOf(pristine, m)[k]; op.Write? && IsSidecar(op.path)
    ensures k == 0 && m.path in pristine && OpsOf(pristine, m)[0] == Write(SidecarPath(m.path), pristine[m.path])
    ensures OriginalPath(SidecarPath(m.path)) == m.path
  {
    SidecarRoundTrip(m.path);
  }

  /** The kill that is not covered, put back: the torn bytes go over the intact source. */
  lemma {:induction false} TornPutBack(pristine: Tree, s: Path, torn: Bytes, order: seq<Path>)
    requires Stale(pristine) == {} && IsSidecar(s) && OriginalPath(s) in pristine
    requires var left := pristine[s := torn]; Lists(order, Stale(left)) && Listed(left, order)
    ensures Apply(pristine[s := torn], RestoreOps(pristine[s := torn], order)) == pristine[OriginalPath(s) := torn]
  {
    var p, left := OriginalPath(s), pristine[s := torn];
    assert s !in pristine by { assert s in pristine ==> s in Stale(pristine); }
    assert p != s;
    assert Stale(left) == {s};
    OnlyOne(order, s);
    PutBackApplied(left, s);
    assert [s][1..] == [] && RestoreOps(left, [s]) == PutBack(left, s) + [] == PutBack(left, s);
    assert left[p := torn] - {s} == pristine[p := torn];
  }

  lemma {:induction false} OnlyOne(order: seq<Path>, s: Path)
    requires Lists(order, {s})
    ensures order == [s]
  {
    DistinctCard(order);
    assert s in Elements(order) && order[0] in Elements(order);
  }

  /** For every run and every kill: a restore gives the tree back exactly, but for a kill that
      tears a sidecar write and leaves other bytes than that source's own. */
  lemma {:induction false} RestoredExactly(pristine: Tree, mutants: seq<Mutant>, kill: Kill, order: seq<Path>)
    requires Stale(pristine) == {}
    requires var left := Killed(pristine, RunOps(pristine, mutants), kill);
             Lists(order, Stale(left)) && Listed(left, order)
    ensures var ops := RunOps(pristine, mutants);
            var left := Killed(pristine, ops, kill);
            Apply(left, RestoreOps(left, order)) == pristine <==>
              (TearsSidecar(ops, kill) ==> kill.torn.value == ops[kill.k].bytes)
  {
    PristineRecoverable(pristine);
    var ops := RunOps(pristine, mutants);
    var left := Killed(pristine, ops, kill);
    RunSafe(pristine, mutants);
    if TearsSidecar(ops, kill) {
      TornExactly(pristine, mutants, kill, order);
    } else {
      KilledIsRecoverable(pristine, pristine, ops, kill);
      RestoreSafe(pristine, left, order);
    }
  }

  lemma {:induction false} TornExactly(pristine: Tree, mutants: seq<Mutant>, kill: Kill, order: seq<Path>)
    requires Stale(pristine) == {} && Recoverable(pristine, pristine) && TearsSidecar(RunOps(pristine, mutants), kill)
    requires var left := Killed(pristine, RunOps(pristine, mutants), kill);
             Lists(order, Stale(left)) && Listed(left, order)
    ensures var ops := RunOps(pristine, mutants);
            var left := Killed(pristine, ops, kill);
            var source := OriginalPath(ops[kill.k].path);
            source in pristine && ops[kill.k].bytes == pristine[source] &&
            Apply(left, RestoreOps(left, order)) == pristine[source := kill.torn.value] &&
            (Apply(left, RestoreOps(left, order)) == pristine <==> kill.torn.value == ops[kill.k].bytes)
  {
    var ops := RunOps(pristine, mutants);
    SidecarOnPristine(pristine, mutants, kill.k);
    TornPutBack(pristine, ops[kill.k].path, kill.torn.value, order);
    var source, torn := OriginalPath(ops[kill.k].path), kill.torn.value;
    assert pristine[source := torn] == pristine <==> torn == pristine[source];
  }

  // -------------------------------------------------------------- the tool itself

  /** The disk as the process sees it until the kill, and as it stays after. */
  class Disk {
    var files: Tree
    var alive: bool
    const kill: Kill
    var performed: nat
    ghost const start: Tree
    ghost var log: seq<Op>
    /** The tree at each build. */
    ghost var seen: seq<Tree>

    /** What is on disk is what the operations so far leave under this kill. */
    ghost predicate Valid()
      reads this
    {
      files == Killed(start, log, kill) && alive == !Hits(log, kill) && performed == |log|
    }

    constructor (files: Tree, kill: Kill)
      ensures Valid() && this.files == files && this.kill == kill && start == files && log == []
      ensures alive && seen == []
    {
      this.files, this.kill, this.start, this.log, this.alive, performed := files, kill, files, [], true, 0;
      seen := [];
    }

    /** One file operation; a dead process performs none. */
    method Perform(op: Op)
      requires Valid()
      modifies this`files, this`alive, this`log, this`performed
      ensures Valid()
      ensures log == if old(alive) then old(log) + [op] else old(log)
      ensures !old(alive) ==> !alive && files == old(files)
      ensures alive ==> files == Do(old(files), op)
    {
      if !alive {
        return;
      }
      ApplyConcat(start, log, [op]);
      assert [op][1..] == [];
      assert Apply(Apply(start, log), [op]) == Do(Apply(start, log), op);
      assert (log + [op])[..|log|] == log;
      if kill.At? && kill.k == performed {
        alive := false;
        if kill.torn.Some? && op.Write? {
          files := files[op.path := kill.torn.value];
        }
      } else {
        files := Do(files, op);
      }
      log, performed := log + [op], performed + 1;
    }

    /** The operations `ops` have been attempted after `before`. */
    ghost predicate Performed(before: seq<Op>, ops: seq<Op>)
      reads this
    {
      Valid() && files == Killed(start, before + ops, kill) && alive == !Hits(before + ops, kill) &&
      (alive ==> log == before + ops)
    }

    /** Either alive with `rest` of `all` still to do, or dead with what `all` leaves. */
    ghost predicate Pending(all: seq<Op>, rest: seq<Op>)
      reads this
    {
      Valid() && (alive ==> log + rest == all) && (!alive ==> files == Killed(start, all, kill))
    }

    lemma {:induction false} Progress(before: seq<Op>, ops: seq<Op>, rest: seq<Op>, all: seq<Op>)
      requires Performed(before, ops) && before + (ops + rest) == all
      ensures Pending(all, rest)
      ensures alive ==> files == Apply(Apply(start, before), ops)
    {
      assert before + ops + rest == all;
      if alive {
        ApplyConcat(start, before, ops);
      } else {
        KilledPrefix(start, before + ops, all, kill);
      }
    }

    lemma {:induction false} Finished(all: seq<Op>)
      requires Pending(all, [])
      ensures files == Killed(start, all, kill) && (alive ==> log == all)
    {
      assert log + [] == log;
    }

    /** `run_mutant`: unless it is killed, its build sees the mutated source with the original
        beside it. It raises when the source is missing, or after the source was put back. */
    method RunMutant(m: Mutant) returns (raised: bool)
      requires Valid() && alive
      modifies this
      ensures Performed(old(log), OpsOf(old(files), m)) && raised == Ends(old(files), m)
      ensures old(seen) <= seen <= old(seen) + SeenBy(old(files), m)
      ensures alive ==> seen == old(seen) + SeenBy(old(files), m)
      ensures !m.targeted || m.path !in old(files) ==> log == old(log)
    {
      ghost var before, ops := log, OpsOf(files, m);
      if !m.targeted || m.path !in files {
        assert before + [] == before;
        return m.targeted;
      }
      var original := files[m.path];
      Mutate(m, original);
      PutSourceBack(m.path, original);
      assert ops == Mutating(m, original) + PuttingBack(m.path, original);
      assert log <= before + ops;
      if alive { assert log == before + ops; }
      KilledPrefix(start, log, before + ops, kill);
      return m.raises;
    }

    /** The sidecar, then the mutated source, which the build sees. */
    method Mutate(m: Mutant, original: Bytes)
      requires Valid() && alive && m.path in files && files[m.path] == original
      modifies this
      ensures Valid() && log <= old(log) + Mutating(m, original) && (alive ==> log == old(log) + Mutating(m, original))
      ensures alive ==> m.path in files
      ensures old(seen) <= seen
      ensures var shown := if m.mutated.Some? then [MutatedTree(old(files), m.path, m.mutated.value)] else [];
              seen <= old(seen) + shown && (alive ==> seen == old(seen) + shown)
    {
      Perform(Write(SidecarPath(m.path), original));
      if m.mutated.Some? {
        Perform(Write(m.path, m.mutated.value));
        seen := if alive then seen + [files] else seen;
      }
    }

    /** `finally`: restore, verify byte for byte, and only then drop the sidecar. */
    method PutSourceBack(p: Path, original: Bytes)
      requires Valid() && (alive ==> p in files)
      modifies this`files, this`alive, this`log, this`performed
      ensures Valid() && old(log) <= log <= old(log) + PuttingBack(p, original)
      ensures !old(alive) ==> !alive && log == old(log)
      ensures alive ==> log == old(log) + PuttingBack(p, original)
    {
      Perform(Write(p, original));
      if alive && files[p] != original {
        assert false;
      }
      Perform(Unlink(SidecarPath(p)));
    }

    /** The loop over all mutants, until one of them raises. */
    method RunAll(mutants: seq<Mutant>) returns (raised: bool)
      requires Valid() && alive && log == []
      modifies this
      ensures Valid() && files == Killed(start, RunOps(start, mutants), kill)
      ensures alive ==> seen == old(seen) + Seen(start, mutants)
    {
      ghost var all := RunOps(start, mutants);
      var i := 0;
      raised := false;
      assert mutants[0..] == mutants && [] + all == all;
      while i < |mutants| && alive && !raised
        invariant 0 <= i <= |mutants|
        invariant alive ==>
                    seen + (if raised then [] else Seen(files, mutants[i..])) == old(seen) + Seen(start, mutants)
        invariant Pending(all, if alive && !raised then RunOps(files, mutants[i..]) else [])
        decreases |mutants| - i
      {
        ghost var before, t := log, files;
        ghost var shown := seen;
        RunOpsStep(files, mutants, i);
        raised := RunMutant(mutants[i]);
        ghost var here := OpsOf(t, mutants[i]);
        Progress(before, here, if Ends(t, mutants[i]) then [] else RunOps(Apply(t, here), mutants[i + 1..]), all);
        SeenOn(shown, SeenBy(t, mutants[i]), if raised then [] else Seen(Apply(t, here), mutants[i + 1..]));
        i := i + 1;
      }
      if alive {
        if !raised { assert mutants[i..] == []; }
        assert seen + [] == seen;
        Finished(all);
      }
    }

    /** One sidecar of `restore_from_sidecars`. */
    method RestoreFrom(sidecar: Path)
      requires Valid() && alive && IsSidecar(sidecar) && sidecar in files
      modifies this
      ensures Performed(old(log), PutBack(old(files), sidecar))
    {
      ghost var before, ops := log, PutBack(files, sidecar);
      var original := OriginalPath(sidecar);
      Perform(Write(original, files[sidecar]));
      Perform(Unlink(sidecar));
      assert log <= before + ops;
      if alive { assert log == before + ops; }
      KilledPrefix(start, log, before + ops, kill);
    }

    /** `restore_from_sidecars`, over the sidecars the search listed. */
    method RestoreAll(order: seq<Path>)
      requires Valid() && alive && log == [] && Listed(files, order)
      modifies this
      ensures Valid() && Listed(start, order) && files == Killed(start, RestoreOps(start, order), kill)
    {
      ghost var all := RestoreOps(start, order);
      var i := 0;
      assert order[0..] == order && [] + all == all;
      while i < |order| && alive
        invariant 0 <= i <= |order| && (alive ==> Listed(files, order[i..]))
        invariant Pending(all, if alive then RestoreOps(files, order[i..]) else [])
        decreases |order| - i
      {
        var s := order[i];
        assert order[i..][0] == s && order[i..][1..] == order[i + 1..];
        ListedAfter(files, order[i..]);
        ghost var before, t := log, files;
        ghost var pair := PutBack(files, s);
        RestoreFrom(s);
        Progress(before, pair, RestoreOps(Apply(t, pair), order[i + 1..]), all);
        i := i + 1;
      }
      if alive { assert order[i..] == []; Finished(all); }
    }

    /** The tool's entry point: restore, or refuse to start, or run every mutant. */
    method Invoke(restore: bool, mutants: seq<Mutant>) returns (session: Session, exitCode: nat)
      requires Valid() && alive && log == []
      modifies this
      ensures Valid() && session.kill == kill
      ensures if restore then session.Restore? else session == Run(mutants, kill)
      ensures session.Restore? ==> Lists(session.order, Stale(start)) && Listed(start, session.order)
      ensures files == Killed(start, SessionOps(start, session), kill)
      ensures exitCode == 2 <==> Refused(start, session)
    {
      var stale := FindStaleSidecars(files);
      if restore {
        RestoreAll(stale);
        return Restore(stale, kill), 0;
      }
      if stale != [] {
        assert stale[0] in Stale(start);
        return Run(mutants, kill), 2;
      }
      assert Stale(start) == {};
      var raised := RunAll(mutants);
      return Run(mutants, kill), if raised then 1 else 0;
    }
  }

  /** `find_stale_sidecars`: every sidecar of the tree, each once. */
  method FindStaleSidecars(t: Tree) returns (order: seq<Path>)
    ensures Lists(order, Stale(t)) && Listed(t, order)
  {
    order := [];
    var left := Stale(t);
    while left != {}
      invariant left <= Stale(t) && Lists(order, Stale(t) - left)
      decreases |left|
    {
      var s :| s in left;
      ListsSnoc(order, Stale(t) - left, s);
      assert Stale(t) - left + {s} == Stale(t) - (left - {s});
      order, left := order + [s], left - {s};
    }
    assert Stale(t) - {} == Stale(t);
    ListsListed(t, order);
  }

  lemma {:induction false} ListsSnoc(order: seq<Path>, stale: set<Path>, s: Path)
    requires Lists(order, stale) && s !in stale
    ensures Lists(order + [s], stale + {s})
  {
    forall i | 0 <= i < |order| ensures order[i] != s {
      assert order[i] in stale;
    }
    assert Elements(order + [s]) == Elements(order) + {s};
  }

  lemma SeenOn(a: seq<Tree>, b: seq<Tree>, c: seq<Tree>)
    ensures a + (b + c) == a + b + c
  {
  }

  lemma {:induction false} RunOpsStep(t: Tree, mutants: seq<Mutant>, i: nat)
    requires i < |mutants|
    ensures var here := OpsOf(t, mutants[i]);
            RunOps(t, mutants[i..]) ==
            here + (if Ends(t, mutants[i]) then [] else RunOps(Apply(t, here), mutants[i + 1..])) &&
            Seen(t, mutants[i..]) ==
            SeenBy(t, mutants[i]) + if Ends(t, mutants[i]) then [] else Seen(Apply(t, here), mutants[i + 1..])
  {
    assert mutants[i..][0] == mutants[i] && mutants[i..][1..] == mutants[i + 1..];
  }

  /** Operations after the kill make no difference. */
  lemma {:induction false} KilledPrefix(t: Tree, prefix: seq<Op>, ops: seq<Op>, kill: Kill)
    requires prefix <= ops && (Hits(prefix, kill) || prefix == ops)
    ensures Killed(t, ops, kill) == Killed(t, prefix, kill) && Hits(ops, kill) == Hits(prefix, kill)
  {
    if Hits(prefix, kill) {
      assert ops[..kill.k] == prefix[..kill.k];
    }
  }
}
