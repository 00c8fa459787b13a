/** A batch may be reordered as long as insertions at one place keep their order. */
module OrderIndependence {
  import opened Common
  import opened Order
  import opened Plan
  import opened Sweep
  import opened Planner

  /** The operation inserts at an offset of a path. */
  predicate PutsAt(states: States, o: Operation, path: string, k: nat) {
    var r := ResolveOperation(states, o);
    r.Ok? && InsertsInto(r.value, path) && r.value.offset == k
  }

  /** The operations that insert at one place, in request order. */
  function PutsAtPlace(states: States, operations: seq<Operation>, path: string, k: nat): seq<Operation> {
    if operations == [] then []
    else
      var n := |operations| - 1;
      PutsAtPlace(states, operations[..n], path, k)
        + if PutsAt(states, operations[n], path, k) then [operations[n]] else []
  }

  /** One batch is a reordering of the other that keeps the order of insertions at each place. */
  ghost predicate Reordering(states: States, a: seq<Operation>, b: seq<Operation>) {
    && multiset(a) == multiset(b)
    && forall path, k :: PutsAtPlace(states, a, path, k) == PutsAtPlace(states, b, path, k)
  }

  lemma SameOperations(a: seq<Operation>, b: seq<Operation>)
    requires multiset(a) == multiset(b)
    ensures forall o :: o in a <==> o in b
  {
    forall o ensures o in a <==> o in b {
      assert o in a <==> o in multiset(a);
      assert o in b <==> o in multiset(b);
    }
  }

  // ----- payloads at a place depend on the operations there only

  function PayloadsOf(states: States, operations: seq<Operation>): Bytes {
    if operations == [] then []
    else
      var n := |operations| - 1;
      PayloadsOf(states, operations[..n])
      + match ResolveOperation(states, operations[n]) case Ok(r) => Payload(r) case Err(_) => []
  }

  lemma PrefixResolves(states: States, operations: seq<Operation>, n: nat)
    requires AllResolve(states, operations) && n <= |operations|
    ensures AllResolve(states, operations[..n])
    ensures Resolutions(states, operations[..n]) == Resolutions(states, operations)[..n]
  {
  }

  lemma {:induction false} PayloadsByPlace(
    states: States, files: Files, operations: seq<Operation>, path: string, k: nat)
    requires Grounding(states, files) && AllResolve(states, operations)
    ensures PayloadsAt(files, InsertionsFor(Resolutions(states, operations), path), k) ==
            PayloadsOf(states, PutsAtPlace(states, operations, path, k))
  {
    if operations != [] {
      var n := |operations| - 1;
      var rs, o := Resolutions(states, operations), operations[n];
      PrefixResolves(states, operations, n);
      PayloadsByPlace(states, files, operations[..n], path, k);
      assert Grounded(states, files, ResolveOperation(states, o).value);
      var before := InsertionsFor(rs[..n], path);
      var there := PutsAtPlace(states, operations[..n], path, k);
      if InsertsInto(rs[n], path) {
        assert (before + [InsertionOf(rs[n], n)])[..|before|] == before;
        if rs[n].offset == k {
          assert (there + [o])[..|there|] == there;
        } else {
          assert PutsAtPlace(states, operations, path, k) == there;
        }
      } else {
        assert InsertionsFor(rs, path) == before;
        assert PutsAtPlace(states, operations, path, k) == there;
      }
    }
  }

  // ----- deletions depend on the set of operations, and their overlaps on how often an offset is covered

  predicate TakesAt(states: States, path: string, k: nat, o: Operation) {
    var r := ResolveOperation(states, o);
    r.Ok? && DeletesFrom(r.value, path) && r.value.range.start <= k < r.value.range.end
  }

  function Cover(deletions: seq<Deletion>, k: nat): nat {
    if deletions == [] then 0
    else
      var n := |deletions| - 1;
      Cover(deletions[..n], k) + if Covers(deletions[n], k) then 1 else 0
  }

  lemma {:induction false} CoverMeansDeleted(deletions: seq<Deletion>, k: nat)
    ensures Cover(deletions, k) > 0 <==> DeletedAt(deletions, k)
  {
    if deletions != [] {
      var n := |deletions| - 1;
      CoverMeansDeleted(deletions[..n], k);
      if DeletedAt(deletions[..n], k) {
        var i :| 0 <= i < n && Covers(deletions[..n][i], k);
        assert Covers(deletions[i], k);
      }
      if DeletedAt(deletions, k) && !Covers(deletions[n], k) {
        var i :| 0 <= i < |deletions| && Covers(deletions[i], k);
        assert Covers(deletions[..n][i], k);
      }
    }
  }

  ghost predicate CoveredOnce(deletions: seq<Deletion>) {
    forall k: nat :: Cover(deletions, k) <= 1
  }

  /** Pairwise disjoint deletions cover every offset at most once, and conversely. */
  lemma {:induction false} DisjointMeansCoveredOnce(deletions: seq<Deletion>)
    requires NonEmpty(deletions)
    ensures PairwiseDisjoint(deletions) <==> CoveredOnce(deletions)
  {
    if PairwiseDisjoint(deletions) {
      forall k: nat ensures Cover(deletions, k) <= 1 {
        DisjointCoversOnce(deletions, k);
      }
    }
    if CoveredOnce(deletions) {
      forall i, j | 0 <= i < j < |deletions| ensures Disjoint(deletions[i].range, deletions[j].range) {
        if !Disjoint(deletions[i].range, deletions[j].range) {
          var a, b := deletions[i].range.start, deletions[j].range.start;
          var k := if a < b then b else a;
          CoveredTwice(deletions, i, j, k);
          assert false;
        }
      }
    }
  }

  lemma {:induction false} DisjointCoversOnce(deletions: seq<Deletion>, k: nat)
    requires PairwiseDisjoint(deletions)
    ensures Cover(deletions, k) <= 1
  {
    if deletions != [] {
      var n := |deletions| - 1;
      DisjointCoversOnce(deletions[..n], k);
      CoverMeansDeleted(deletions[..n], k);
      if DeletedAt(deletions[..n], k) {
        var i :| 0 <= i < n && Covers(deletions[..n][i], k);
        assert Disjoint(deletions[i].range, deletions[n].range);
      }
    }
  }

  lemma {:induction false} CoveredTwice(deletions: seq<Deletion>, i: nat, j: nat, k: nat)
    requires i < j < |deletions| && Covers(deletions[i], k) && Covers(deletions[j], k)
    ensures Cover(deletions, k) >= 2
  {
    var n := |deletions| - 1;
    if j < n {
      CoveredTwice(deletions[..n], i, j, k);
    } else {
      CoverMeansDeleted(deletions[..n], k);
      assert Covers(deletions[..n][i], k);
    }
  }

  lemma CoverOneMore(rs: seq<Resolution>, r: Resolution, path: string, k: nat)
    ensures Cover(DeletionsFor(rs + [r], path), k) ==
            Cover(DeletionsFor(rs, path), k) + if DeletesFrom(r, path) && r.range.start <= k < r.range.end then 1 else 0
  {
    EditsSnoc(rs, r, path);
    var before := DeletionsFor(rs, path);
    if DeletesFrom(r, path) {
      assert (before + [Deletion(|rs|, r.range)])[..|before|] == before;
    } else {
      assert before + [] == before;
    }
  }

  function Takes(states: States, path: string, k: nat): Operation -> int {
    (o: Operation) => if TakesAt(states, path, k, o) then 1 else 0
  }

  /** The cover of an offset is a sum over the operations. */
  lemma {:induction false} CoverIsSum(states: States, operations: seq<Operation>, path: string, k: nat)
    requires AllResolve(states, operations)
    ensures Cover(DeletionsFor(Resolutions(states, operations), path), k) == Sum(operations, Takes(states, path, k))
  {
    if operations != [] {
      var n, f := |operations| - 1, Takes(states, path, k);
      var rs := Resolutions(states, operations);
      PrefixResolves(states, operations, n);
      CoverIsSum(states, operations[..n], path, k);
      CoverOneMore(rs[..n], rs[n], path, k);
      assert rs == rs[..n] + [rs[n]];
      SumSnoc(operations, f);
    }
  }

  lemma SumSnoc(operations: seq<Operation>, f: Operation -> int)
    requires operations != []
    ensures var n := |operations| - 1; Sum(operations, f) == Sum(operations[..n], f) + f(operations[n])
  {
    var n := |operations| - 1;
    SumAppend(operations[..n], [operations[n]], f);
    assert operations == operations[..n] + [operations[n]];
    assert Sum([operations[n]], f) == f(operations[n]);
  }

  lemma SameCover(states: States, a: seq<Operation>, b: seq<Operation>, path: string, k: nat)
    requires AllResolve(states, a) && AllResolve(states, b) && multiset(a) == multiset(b)
    ensures Cover(DeletionsFor(Resolutions(states, a), path), k) == Cover(DeletionsFor(Resolutions(states, b), path), k)
    ensures DeletedAt(DeletionsFor(Resolutions(states, a), path), k) ==
            DeletedAt(DeletionsFor(Resolutions(states, b), path), k)
  {
    CoverIsSum(states, a, path, k);
    CoverIsSum(states, b, path, k);
    SumPermuted(a, b, Takes(states, path, k));
    CoverMeansDeleted(DeletionsFor(Resolutions(states, a), path), k);
    CoverMeansDeleted(DeletionsFor(Resolutions(states, b), path), k);
  }

  // ----- the edited file

  lemma SameStep(
    files: Files, original: Bytes, ds: seq<Deletion>, ds': seq<Deletion>, ps: seq<Placed>, ps': seq<Placed>, k: nat)
    requires k < |original| && EditedPrefix(files, original, ds, ps, k) == EditedPrefix(files, original, ds', ps', k)
    requires DeletedAt(ds, k) == DeletedAt(ds', k) && PayloadsAt(files, ps, k) == PayloadsAt(files, ps', k)
    ensures EditedPrefix(files, original, ds, ps, k + 1) == EditedPrefix(files, original, ds', ps', k + 1)
  {
  }

  lemma {:induction false} SamePrefix(
    files: Files, original: Bytes, ds: seq<Deletion>, ds': seq<Deletion>, ps: seq<Placed>, ps': seq<Placed>, n: nat)
    requires n <= |original|
    requires forall k: nat :: DeletedAt(ds, k) == DeletedAt(ds', k)
    requires forall k: nat {:trigger PayloadsAt(files, ps, k)} :: PayloadsAt(files, ps, k) == PayloadsAt(files, ps', k)
    ensures EditedPrefix(files, original, ds, ps, n) == EditedPrefix(files, original, ds', ps', n)
  {
    if n > 0 {
      SamePrefix(files, original, ds, ds', ps, ps', n - 1);
      assert PayloadsAt(files, ps, n - 1) == PayloadsAt(files, ps', n - 1);
      assert DeletedAt(ds, n - 1) == DeletedAt(ds', n - 1);
      SameStep(files, original, ds, ds', ps, ps', n - 1);
    }
  }

  /** A reordering makes the same file of every path. */
  lemma SameOutput(states: States, files: Files, a: seq<Operation>, b: seq<Operation>, path: string)
    requires Grounding(states, files) && AllResolve(states, a) && AllResolve(states, b) && Reordering(states, a, b)
    requires path in states
    ensures OutputBytes(files, states[path], Resolutions(states, a), path) ==
            OutputBytes(files, states[path], Resolutions(states, b), path)
  {
    var ra, rb := Resolutions(states, a), Resolutions(states, b);
    var original := OriginalOf(states[path]);
    forall k: nat
      ensures DeletedAt(DeletionsFor(ra, path), k) == DeletedAt(DeletionsFor(rb, path), k)
    {
      SameCover(states, a, b, path, k);
    }
    forall k: nat {:trigger PayloadsAt(files, InsertionsFor(ra, path), k)}
      ensures PayloadsAt(files, InsertionsFor(ra, path), k) == PayloadsAt(files, InsertionsFor(rb, path), k)
    {
      PayloadsByPlace(states, files, a, path, k);
      PayloadsByPlace(states, files, b, path, k);
    }
    SamePrefix(files, original, DeletionsFor(ra, path), DeletionsFor(rb, path), InsertionsFor(ra, path),
               InsertionsFor(rb, path), |original|);
    assert PayloadsAt(files, InsertionsFor(ra, path), |original|) ==
           PayloadsAt(files, InsertionsFor(rb, path), |original|);
  }

  // ----- success

  lemma TouchedByOperation(states: States, operations: seq<Operation>, path: string)
    requires AllResolve(states, operations)
    ensures Touched(Resolutions(states, operations), path) <==>
            exists o | o in operations ::
              var r := ResolveOperation(states, o); r.Ok? && (DeletesFrom(r.value, path) || InsertsInto(r.value, path))
  {
    var rs := Resolutions(states, operations);
    if Touched(rs, path) {
      var i :| 0 <= i < |rs| && (DeletesFrom(rs[i], path) || InsertsInto(rs[i], path));
      assert operations[i] in operations;
    }
    if o :| o in operations && var r := ResolveOperation(states, o);
      r.Ok? && (DeletesFrom(r.value, path) || InsertsInto(r.value, path)) {
      var i :| 0 <= i < |operations| && operations[i] == o;
      assert DeletesFrom(rs[i], path) || InsertsInto(rs[i], path);
    }
  }

  lemma {:induction false} DeletionByOperation(states: States, operations: seq<Operation>, path: string, d: Deletion)
    requires AllResolve(states, operations) && d in DeletionsFor(Resolutions(states, operations), path)
    ensures exists o | o in operations ::
              var r := ResolveOperation(states, o); r.Ok? && DeletesFrom(r.value, path) && r.value.range == d.range
  {
    var n := |operations| - 1;
    var rs := Resolutions(states, operations);
    if operations != [] {
      PrefixResolves(states, operations, n);
      if d in DeletionsFor(rs[..n], path) {
        DeletionByOperation(states, operations[..n], path, d);
        var o :| o in operations[..n] && var r := ResolveOperation(states, o);
          r.Ok? && DeletesFrom(r.value, path) && r.value.range == d.range;
        assert o in operations;
      } else {
        assert operations[n] in operations;
      }
    }
  }

  lemma {:induction false} DeletionAtIndex(rs: seq<Resolution>, path: string, i: nat)
    requires i < |rs| && DeletesFrom(rs[i], path)
    ensures Deletion(i, rs[i].range) in DeletionsFor(rs, path)
  {
    if i < |rs| - 1 {
      DeletionAtIndex(rs[..|rs| - 1], path, i);
    }
  }

  lemma OperationDeletes(states: States, operations: seq<Operation>, path: string, o: Operation)
    requires AllResolve(states, operations) && o in operations && DeletesFrom(ResolveOperation(states, o).value, path)
    ensures exists d | d in DeletionsFor(Resolutions(states, operations), path) ::
              d.range == ResolveOperation(states, o).value.range
  {
    var i :| 0 <= i < |operations| && operations[i] == o;
    DeletionAtIndex(Resolutions(states, operations), path, i);
  }

  lemma {:induction false} InsertionByOperation(states: States, operations: seq<Operation>, path: string, p: Placed)
    requires AllResolve(states, operations) && p in InsertionsFor(Resolutions(states, operations), path)
    ensures exists o | o in operations :: PutsAt(states, o, path, p.offset)
  {
    var n := |operations| - 1;
    var rs := Resolutions(states, operations);
    if operations != [] {
      PrefixResolves(states, operations, n);
      if p in InsertionsFor(rs[..n], path) {
        InsertionByOperation(states, operations[..n], path, p);
        var o :| o in operations[..n] && PutsAt(states, o, path, p.offset);
        assert o in operations;
      } else {
        assert PutsAt(states, operations[n], path, p.offset) && operations[n] in operations;
      }
    }
  }

  lemma {:induction false} InsertionAtIndex(rs: seq<Resolution>, path: string, i: nat)
    requires i < |rs| && InsertsInto(rs[i], path)
    ensures InsertionOf(rs[i], i) in InsertionsFor(rs, path)
  {
    if i < |rs| - 1 {
      InsertionAtIndex(rs[..|rs| - 1], path, i);
    }
  }

  lemma OperationInserts(states: States, operations: seq<Operation>, path: string, o: Operation, k: nat)
    requires AllResolve(states, operations) && o in operations && PutsAt(states, o, path, k)
    ensures exists p | p in InsertionsFor(Resolutions(states, operations), path) :: p.offset == k
  {
    var i :| 0 <= i < |operations| && operations[i] == o;
    InsertionAtIndex(Resolutions(states, operations), path, i);
  }

  lemma SameInsideCheck(states: States, a: seq<Operation>, b: seq<Operation>, path: string)
    requires AllResolve(states, a) && AllResolve(states, b) && multiset(a) == multiset(b)
    requires var ra := Resolutions(states, a); NoInsertionInside(DeletionsFor(ra, path), InsertionsFor(ra, path))
    ensures var rb := Resolutions(states, b); NoInsertionInside(DeletionsFor(rb, path), InsertionsFor(rb, path))
  {
    SameOperations(a, b);
    var ra, rb := Resolutions(states, a), Resolutions(states, b);
    forall d, p | d in DeletionsFor(rb, path) && p in InsertionsFor(rb, path) ensures !StrictlyInside(p.offset, d) {
      DeletionByOperation(states, b, path, d);
      var o :| o in b && var r := ResolveOperation(states, o);
        r.Ok? && DeletesFrom(r.value, path) && r.value.range == d.range;
      OperationDeletes(states, a, path, o);
      InsertionByOperation(states, b, path, p);
      var o' :| o' in b && PutsAt(states, o', path, p.offset);
      OperationInserts(states, a, path, o', p.offset);
    }
  }

  lemma SameDisjointness(states: States, files: Files, a: seq<Operation>, b: seq<Operation>, path: string)
    requires Grounding(states, files) && AllResolve(states, a) && AllResolve(states, b) && multiset(a) == multiset(b)
    requires path in states && PairwiseDisjoint(DeletionsFor(Resolutions(states, a), path))
    ensures PairwiseDisjoint(DeletionsFor(Resolutions(states, b), path))
  {
    var da, db := DeletionsFor(Resolutions(states, a), path), DeletionsFor(Resolutions(states, b), path);
    ResolutionsGrounded(states, files, a);
    ResolutionsGrounded(states, files, b);
    DeletionsInBounds(states, files, Resolutions(states, a), path);
    DeletionsInBounds(states, files, Resolutions(states, b), path);
    DisjointMeansCoveredOnce(da);
    forall k: nat ensures Cover(db, k) <= 1 {
      SameCover(states, a, b, path, k);
      assert Cover(da, k) <= 1;
    }
    DisjointMeansCoveredOnce(db);
  }

  /** A reordering that keeps the order of insertions at each place plans whenever the original does. */
  lemma ReorderingIsPlannable(states: States, files: Files, a: seq<Operation>, b: seq<Operation>)
    requires Grounding(states, files) && AllResolve(states, a) && Reordering(states, a, b)
    requires PathsPlannable(states, files, Resolutions(states, a))
    ensures AllResolve(states, b) && PathsPlannable(states, files, Resolutions(states, b))
  {
    SameOperations(a, b);
    assert AllResolve(states, b) by {
      forall i | 0 <= i < |b| ensures ResolveOperation(states, b[i]).Ok? {
        assert b[i] in a;
      }
    }
    var ra, rb := Resolutions(states, a), Resolutions(states, b);
    forall p | Touched(rb, p) ensures p in states && PathPlannable(files, states[p], rb, p) {
      TouchedByOperation(states, a, p);
      TouchedByOperation(states, b, p);
      assert Touched(ra, p);
      SameDisjointness(states, files, a, b, p);
      SameInsideCheck(states, a, b, p);
      SameOutput(states, files, a, b, p);
    }
  }

  lemma ReorderingIsSymmetric(states: States, a: seq<Operation>, b: seq<Operation>)
    requires Reordering(states, a, b)
    ensures Reordering(states, b, a)
  {
  }

  /** Reordering a batch keeps whether it can be planned, which paths it touches and every output's bytes. */
  lemma OrderDoesNotMatter(s: WorkspaceSnapshot, a: seq<Operation>, b: seq<Operation>)
    requires Indexed(s, StatesOf(s), FilesOf(s)) && Reordering(StatesOf(s), a, b)
    ensures Plannable(s, a) <==> Plannable(s, b)
    ensures Plannable(s, a) ==>
              var states, files := StatesOf(s), FilesOf(s);
              var ra, rb := Resolutions(states, a), Resolutions(states, b);
              && (forall p :: Touched(ra, p) <==> Touched(rb, p))
              && (forall p | p in states ::
                  OutputBytes(files, states[p], ra, p) == OutputBytes(files, states[p], rb, p))
  {
    var states, files := StatesOf(s), FilesOf(s);
    IndexedIsGrounding(s, states, files);
    SameOperations(a, b);
    ReorderingIsSymmetric(states, a, b);
    if Plannable(s, a) {
      ReorderingIsPlannable(states, files, a, b);
      forall p ensures Touched(Resolutions(states, a), p) <==> Touched(Resolutions(states, b), p) {
        TouchedByOperation(states, a, p);
        TouchedByOperation(states, b, p);
      }
      forall p | p in states
        ensures OutputBytes(files, states[p], Resolutions(states, a), p) ==
                OutputBytes(files, states[p], Resolutions(states, b), p)
      {
        SameOutput(states, files, a, b, p);
      }
    }
    if Plannable(s, b) {
      ReorderingIsPlannable(states, files, b, a);
    }
  }
}
