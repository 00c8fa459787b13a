/** Planning conserves bytes: moves neither create nor destroy any. */
module Conservation {
  import opened Common
  import opened Order
  import opened Plan
  import opened Sweep
  import opened Planner

  /** How often a byte value occurs. */
  function Occ(s: Bytes, b: byte): nat {
    if s == [] then 0 else Occ(s[..|s| - 1], b) + if s[|s| - 1] == b then 1 else 0
  }

  lemma {:induction false} OccIsMultiplicity(s: Bytes, b: byte)
    ensures Occ(s, b) == multiset(s)[b]
  {
    if s != [] {
      OccIsMultiplicity(s[..|s| - 1], b);
      assert s == s[..|s| - 1] + [s[|s| - 1]];
    }
  }

  lemma {:induction false} OccAppend(s: Bytes, t: Bytes, b: byte)
    ensures Occ(s + t, b) == Occ(s, b) + Occ(t, b)
  {
    if t == [] {
      assert s + t == s;
    } else {
      OccAppend(s, t[..|t| - 1], b);
      assert (s + t)[..|s + t| - 1] == s + t[..|t| - 1];
    }
  }

  // ----- one output

  /** Occurrences among the deleted offsets before `k`. */
  function Lost(original: Bytes, deletions: seq<Deletion>, b: byte, k: nat): nat
    requires k <= |original|
  {
    if k == 0 then 0
    else Lost(original, deletions, b, k - 1) + if DeletedAt(deletions, k - 1) && original[k - 1] == b then 1 else 0
  }

  /** Occurrences among the payloads inserted at offsets before `k`. */
  function Gained(files: Files, insertions: seq<Placed>, b: byte, k: nat): nat {
    if k == 0 then 0 else Gained(files, insertions, b, k - 1) + Occ(PayloadsAt(files, insertions, k - 1), b)
  }

  lemma {:induction false} PrefixBalance(
    files: Files, original: Bytes, deletions: seq<Deletion>, insertions: seq<Placed>, b: byte, k: nat)
    requires k <= |original|
    ensures Occ(EditedPrefix(files, original, deletions, insertions, k), b) + Lost(original, deletions, b, k) ==
            Occ(original[..k], b) + Gained(files, insertions, b, k)
  {
    if k > 0 {
      PrefixBalance(files, original, deletions, insertions, b, k - 1);
      var before, payloads :=
        EditedPrefix(files, original, deletions, insertions, k - 1), PayloadsAt(files, insertions, k - 1);
      OccAppend(before + payloads, Kept(original, deletions, k - 1), b);
      OccAppend(before, payloads, b);
      assert original[..k][..k - 1] == original[..k - 1];
      OneOcc(original[k - 1], b);
    }
  }

  lemma OneOcc(x: byte, b: byte)
    ensures Occ([x], b) == if x == b then 1 else 0
  {
    assert [x][..0] == [];
  }

  function DeletedOcc(original: Bytes, deletions: seq<Deletion>, b: byte): nat {
    if deletions == [] then 0
    else
      var n := |deletions| - 1;
      DeletedOcc(original, deletions[..n], b) + Occ(Slice(original, deletions[n].range), b)
  }

  function InsertedOcc(files: Files, insertions: seq<Placed>, b: byte): nat {
    if insertions == [] then 0
    else
      var n := |insertions| - 1;
      InsertedOcc(files, insertions[..n], b)
      + Occ(RangeBytes(files, insertions[n].insertion.fileId, insertions[n].insertion.range), b)
  }

  function Min(a: nat, b: nat): nat {
    if a < b then a else b
  }

  lemma DeletedSnoc(deletions: seq<Deletion>, d: Deletion, k: nat)
    ensures DeletedAt(deletions + [d], k) <==> DeletedAt(deletions, k) || Covers(d, k)
  {
    var longer := deletions + [d];
    assert longer[|deletions|] == d;
    assert forall i | 0 <= i < |deletions| :: longer[i] == deletions[i];
  }

  /** A further disjoint deletion loses exactly its own bytes. */
  lemma {:induction false} LostByOne(original: Bytes, deletions: seq<Deletion>, d: Deletion, b: byte, k: nat)
    requires k <= |original| && d.range.start < d.range.end <= |original|
    requires forall i | 0 <= i < |deletions| :: Disjoint(deletions[i].range, d.range)
    ensures Lost(original, deletions + [d], b, k) ==
            Lost(original, deletions, b, k)
            + if k <= d.range.start then 0 else Occ(original[d.range.start..Min(k, d.range.end)], b)
  {
    if k > 0 {
      LostByOne(original, deletions, d, b, k - 1);
      DeletedSnoc(deletions, d, k - 1);
      if Covers(d, k - 1) {
        assert !DeletedAt(deletions, k - 1);
        assert original[d.range.start..k][..k - 1 - d.range.start] == original[d.range.start..k - 1];
      }
    }
  }

  lemma {:induction false} LostIsDeleted(original: Bytes, deletions: seq<Deletion>, b: byte)
    requires NonEmpty(deletions) && PairwiseDisjoint(deletions)
    requires forall i | 0 <= i < |deletions| :: deletions[i].range.end <= |original|
    ensures Lost(original, deletions, b, |original|) == DeletedOcc(original, deletions, b)
  {
    if deletions == [] {
      NothingLost(original, b, |original|);
    } else {
      var n := |deletions| - 1;
      var rest, d := deletions[..n], deletions[n];
      LostIsDeleted(original, rest, b);
      LostByOne(original, rest, d, b, |original|);
      assert deletions == rest + [d];
    }
  }

  lemma {:induction false} NothingLost(original: Bytes, b: byte, k: nat)
    requires k <= |original|
    ensures Lost(original, [], b, k) == 0
  {
    if k > 0 {
      NothingLost(original, b, k - 1);
    }
  }

  lemma {:induction false} GainedByOne(files: Files, insertions: seq<Placed>, p: Placed, b: byte, k: nat)
    ensures Gained(files, insertions + [p], b, k) ==
            Gained(files, insertions, b, k)
            + if p.offset < k then Occ(RangeBytes(files, p.insertion.fileId, p.insertion.range), b) else 0
  {
    if k > 0 {
      GainedByOne(files, insertions, p, b, k - 1);
      var payload := RangeBytes(files, p.insertion.fileId, p.insertion.range);
      assert (insertions + [p])[..|insertions|] == insertions;
      OccAppend(PayloadsAt(files, insertions, k - 1), payload, b);
      OccAppend(PayloadsAt(files, insertions, k - 1), [], b);
    }
  }

  lemma InsertedOccSnoc(files: Files, insertions: seq<Placed>, p: Placed, b: byte)
    ensures InsertedOcc(files, insertions + [p], b) ==
            InsertedOcc(files, insertions, b) + Occ(RangeBytes(files, p.insertion.fileId, p.insertion.range), b)
  {
    assert (insertions + [p])[..|insertions|] == insertions;
  }

  lemma GainedOneMore(files: Files, insertions: seq<Placed>, p: Placed, b: byte, k: nat)
    requires p.offset < k && Gained(files, insertions, b, k) == InsertedOcc(files, insertions, b)
    ensures Gained(files, insertions + [p], b, k) == InsertedOcc(files, insertions + [p], b)
  {
    GainedByOne(files, insertions, p, b, k);
    InsertedOccSnoc(files, insertions, p, b);
  }

  lemma {:induction false} GainedIsInserted(files: Files, insertions: seq<Placed>, b: byte, k: nat)
    requires forall i | 0 <= i < |insertions| :: insertions[i].offset < k
    ensures Gained(files, insertions, b, k) == InsertedOcc(files, insertions, b)
    decreases |insertions|
  {
    if insertions == [] {
      NothingGained(files, b, k);
    } else {
      var n := |insertions| - 1;
      var rest, p := insertions[..n], insertions[n];
      assert insertions == rest + [p];
      assert forall i | 0 <= i < n :: rest[i] == insertions[i];
      GainedIsInserted(files, rest, b, k);
      GainedOneMore(files, rest, p, b, k);
    }
  }

  lemma {:induction false} NothingGained(files: Files, b: byte, k: nat)
    ensures Gained(files, [], b, k) == 0
  {
    if k > 0 {
      NothingGained(files, b, k - 1);
    }
  }

  /** An edited file has the bytes of the original and the payloads, less the deleted bytes. */
  lemma EditedBalance(files: Files, original: Bytes, deletions: seq<Deletion>, insertions: seq<Placed>, b: byte)
    requires NonEmpty(deletions) && PairwiseDisjoint(deletions)
    requires forall i | 0 <= i < |deletions| :: deletions[i].range.end <= |original|
    requires forall i | 0 <= i < |insertions| :: insertions[i].offset <= |original|
    ensures Occ(Edited(files, original, deletions, insertions), b) + DeletedOcc(original, deletions, b) ==
            Occ(original, b) + InsertedOcc(files, insertions, b)
  {
    PrefixBalance(files, original, deletions, insertions, b, |original|);
    OccAppend(EditedPrefix(files, original, deletions, insertions, |original|),
      PayloadsAt(files, insertions, |original|), b);
    LostIsDeleted(original, deletions, b);
    GainedIsInserted(files, insertions, b, |original| + 1);
    assert original[..|original|] == original;
  }

  // ----- the whole batch

  /** Payload occurrences that the batch takes from a path, and that it puts there. */
  function TakenFrom(rs: seq<Resolution>, path: string, b: byte): nat {
    if rs == [] then 0
    else
      var n := |rs| - 1;
      TakenFrom(rs[..n], path, b) + if DeletesFrom(rs[n], path) then Occ(Payload(rs[n]), b) else 0
  }

  function PutInto(rs: seq<Resolution>, path: string, b: byte): nat {
    if rs == [] then 0
    else
      var n := |rs| - 1;
      PutInto(rs[..n], path, b) + if InsertsInto(rs[n], path) then Occ(Payload(rs[n]), b) else 0
  }

  lemma {:induction false} TakenIsDeleted(states: States, files: Files, rs: seq<Resolution>, p: string, b: byte)
    requires AllGrounded(states, files, rs) && p in states
    ensures DeletedOcc(OriginalOf(states[p]), DeletionsFor(rs, p), b) == TakenFrom(rs, p, b)
  {
    if rs != [] {
      var n := |rs| - 1;
      TakenIsDeleted(states, files, rs[..n], p, b);
      assert Grounded(states, files, rs[n]);
      if DeletesFrom(rs[n], p) {
        var d := Deletion(n, rs[n].range);
        assert (DeletionsFor(rs[..n], p) + [d])[..|DeletionsFor(rs[..n], p)|] == DeletionsFor(rs[..n], p);
      } else {
        assert DeletionsFor(rs, p) == DeletionsFor(rs[..n], p);
      }
    }
  }

  lemma {:induction false} PutIsInserted(states: States, files: Files, rs: seq<Resolution>, p: string, b: byte)
    requires AllGrounded(states, files, rs) && p in states
    ensures InsertedOcc(files, InsertionsFor(rs, p), b) == PutInto(rs, p, b)
  {
    if rs != [] {
      var n := |rs| - 1;
      PutIsInserted(states, files, rs[..n], p, b);
      assert Grounded(states, files, rs[n]);
      if InsertsInto(rs[n], p) {
        var i := InsertionOf(rs[n], n);
        assert (InsertionsFor(rs[..n], p) + [i])[..|InsertionsFor(rs[..n], p)|] == InsertionsFor(rs[..n], p);
      } else {
        assert InsertionsFor(rs, p) == InsertionsFor(rs[..n], p);
      }
    }
  }

  lemma PathBalance(states: States, files: Files, rs: seq<Resolution>, p: string, b: byte)
    requires AllGrounded(states, files, rs) && p in states && PairwiseDisjoint(DeletionsFor(rs, p))
    ensures Occ(OutputBytes(files, states[p], rs, p), b) + TakenFrom(rs, p, b) ==
            Occ(OriginalOf(states[p]), b) + PutInto(rs, p, b)
  {
    DeletionsInBounds(states, files, rs, p);
    InsertionsInBounds(states, files, rs, p);
    EditedBalance(files, OriginalOf(states[p]), DeletionsFor(rs, p), InsertionsFor(rs, p), b);
    TakenIsDeleted(states, files, rs, p, b);
    PutIsInserted(states, files, rs, p, b);
  }

  /** Payload occurrences of the effectful moves, and of the effectful copies. */
  function MovedOcc(rs: seq<Resolution>, b: byte): nat {
    if rs == [] then 0
    else
      var n := |rs| - 1;
      MovedOcc(rs[..n], b) + if rs[n].effect == Changed && rs[n].kind == Move then Occ(Payload(rs[n]), b) else 0
  }

  function CopiedOcc(rs: seq<Resolution>, b: byte): nat {
    if rs == [] then 0
    else
      var n := |rs| - 1;
      CopiedOcc(rs[..n], b) + if rs[n].effect == Changed && rs[n].kind == Copy then Occ(Payload(rs[n]), b) else 0
  }

  function TotalTaken(rs: seq<Resolution>, paths: seq<string>, b: byte): nat {
    if paths == [] then 0 else TakenFrom(rs, paths[0], b) + TotalTaken(rs, paths[1..], b)
  }

  function TotalPut(rs: seq<Resolution>, paths: seq<string>, b: byte): nat {
    if paths == [] then 0 else PutInto(rs, paths[0], b) + TotalPut(rs, paths[1..], b)
  }

  predicate Repeats(paths: seq<string>) {
    exists i, j | 0 <= i < j < |paths| :: paths[i] == paths[j]
  }

  /** Each operation's source and destination occur once among the paths. */
  lemma {:induction false} OneMore(rs: seq<Resolution>, paths: seq<string>, b: byte)
    requires rs != [] && !Repeats(paths)
    ensures var n := |rs| - 1; var x := Occ(Payload(rs[n]), b);
            && TotalTaken(rs, paths, b) == TotalTaken(rs[..n], paths, b)
               + (if rs[n].effect == Changed && rs[n].kind == Move && rs[n].source.path in paths then x else 0)
            && TotalPut(rs, paths, b) == TotalPut(rs[..n], paths, b)
               + (if rs[n].effect == Changed && rs[n].destinationPath in paths then x else 0)
    decreases |paths|
  {
    if paths != [] {
      assert forall i | 0 <= i < |paths[1..]| :: paths[1..][i] == paths[i + 1];
      assert !Repeats(paths[1..]);
      assert paths[0] !in paths[1..];
      OneMore(rs, paths[1..], b);
    }
  }

  lemma {:induction false} TotalsMatch(rs: seq<Resolution>, paths: seq<string>, b: byte)
    requires !Repeats(paths)
    requires forall i | 0 <= i < |rs| && rs[i].effect == Changed ::
               rs[i].destinationPath in paths && (rs[i].kind == Move ==> rs[i].source.path in paths)
    ensures TotalTaken(rs, paths, b) == MovedOcc(rs, b)
    ensures TotalPut(rs, paths, b) == MovedOcc(rs, b) + CopiedOcc(rs, b)
  {
    if rs == [] {
      NoTotals(paths, b);
    } else {
      TotalsMatch(rs[..|rs| - 1], paths, b);
      OneMore(rs, paths, b);
    }
  }

  lemma {:induction false} NoTotals(paths: seq<string>, b: byte)
    ensures TotalTaken([], paths, b) == 0 && TotalPut([], paths, b) == 0
  {
    if paths != [] {
      NoTotals(paths[1..], b);
    }
  }

  /** Occurrences over all outputs of a plan, and over the originals of the same paths. */
  function OutputOcc(files: Files, outputs: seq<PlannedOutput>, b: byte): nat {
    if outputs == [] then 0 else Occ(RecipeBytes(files, outputs[0].segments), b) + OutputOcc(files, outputs[1..], b)
  }

  function OriginalOcc(states: States, outputs: seq<PlannedOutput>, b: byte): nat {
    if outputs == [] then 0
    else
      (if outputs[0].path in states then Occ(OriginalOf(states[outputs[0].path]), b) else 0)
      + OriginalOcc(states, outputs[1..], b)
  }

  lemma {:induction false} SumOfBalances(
    states: States, files: Files, rs: seq<Resolution>, outputs: seq<PlannedOutput>, b: byte)
    requires AllGrounded(states, files, rs)
    requires forall i | 0 <= i < |outputs| ::
               && outputs[i].path in states
               && RecipeBytes(files, outputs[i].segments) ==
                  OutputBytes(files, states[outputs[i].path], rs, outputs[i].path)
               && PairwiseDisjoint(DeletionsFor(rs, outputs[i].path))
    ensures OutputOcc(files, outputs, b) + TotalTaken(rs, OutputPaths(outputs), b) ==
            OriginalOcc(states, outputs, b) + TotalPut(rs, OutputPaths(outputs), b)
    decreases |outputs|
  {
    if outputs != [] {
      PathBalance(states, files, rs, outputs[0].path, b);
      SumOfBalances(states, files, rs, outputs[1..], b);
      assert OutputPaths(outputs)[1..] == OutputPaths(outputs[1..]);
    }
  }

  /** The outputs list exactly the touched paths. */
  ghost predicate ListsTouched(rs: seq<Resolution>, outputs: seq<PlannedOutput>) {
    && InPathOrder(OutputPaths(outputs))
    && forall p :: Touched(rs, p) <==> p in OutputPaths(outputs)
  }

  lemma PlanListsTouched(states: States, files: Files, rs: seq<Resolution>, outputs: seq<PlannedOutput>)
    requires PlanFor(states, files, rs, outputs)
    ensures ListsTouched(rs, outputs)
  {
    var paths := OutputPaths(outputs);
    forall p ensures Touched(rs, p) <==> p in paths {
      if p in paths {
        var i :| 0 <= i < |paths| && paths[i] == p;
        assert outputs[i].path == p;
      }
      if Touched(rs, p) {
        var i :| 0 <= i < |outputs| && outputs[i].path == p;
        assert paths[i] == p;
      }
    }
  }

  lemma TouchedTotalsMatch(rs: seq<Resolution>, outputs: seq<PlannedOutput>, b: byte)
    requires ListsTouched(rs, outputs)
    ensures TotalPut(rs, OutputPaths(outputs), b) == TotalTaken(rs, OutputPaths(outputs), b) + CopiedOcc(rs, b)
  {
    var paths := OutputPaths(outputs);
    forall i | 0 <= i < |rs| && rs[i].effect == Changed
      ensures rs[i].destinationPath in paths && (rs[i].kind == Move ==> rs[i].source.path in paths)
    {
      assert InsertsInto(rs[i], rs[i].destinationPath);
      assert Touched(rs, rs[i].destinationPath);
      assert rs[i].kind == Move ==> DeletesFrom(rs[i], rs[i].source.path) && Touched(rs, rs[i].source.path);
    }
    TotalsMatch(rs, paths, b);
  }

  lemma OutputsAreDisjoint(states: States, files: Files, rs: seq<Resolution>, outputs: seq<PlannedOutput>)
    requires PathsPlannable(states, files, rs) && ListsTouched(rs, outputs)
    ensures forall i | 0 <= i < |outputs| :: PairwiseDisjoint(DeletionsFor(rs, outputs[i].path))
  {
    forall i | 0 <= i < |outputs| ensures PairwiseDisjoint(DeletionsFor(rs, outputs[i].path)) {
      assert OutputPaths(outputs)[i] in OutputPaths(outputs);
    }
  }

  /** For every successful plan and every byte value: the outputs together hold what their paths held
      before and what the effectful copies add. */
  lemma PlansConserveBytes(states: States, files: Files, rs: seq<Resolution>, outputs: seq<PlannedOutput>, b: byte)
    requires AllGrounded(states, files, rs) && PathsPlannable(states, files, rs) && PlanFor(states, files, rs, outputs)
    ensures OutputOcc(files, outputs, b) == OriginalOcc(states, outputs, b) + CopiedOcc(rs, b)
  {
    PlanListsTouched(states, files, rs, outputs);
    OutputsAreDisjoint(states, files, rs, outputs);
    TouchedTotalsMatch(rs, outputs, b);
    SumOfBalances(states, files, rs, outputs, b);
  }

  // ----- the same said with multisets

  function AllOutputs(files: Files, outputs: seq<PlannedOutput>): Bytes {
    if outputs == [] then [] else RecipeBytes(files, outputs[0].segments) + AllOutputs(files, outputs[1..])
  }

  function AllOriginals(states: States, outputs: seq<PlannedOutput>): Bytes {
    if outputs == [] then []
    else
      (if outputs[0].path in states then OriginalOf(states[outputs[0].path]) else [])
        + AllOriginals(states, outputs[1..])
  }

  function AllCopied(rs: seq<Resolution>): Bytes {
    if rs == [] then []
    else
      var n := |rs| - 1;
      AllCopied(rs[..n]) + if rs[n].effect == Changed && rs[n].kind == Copy then Payload(rs[n]) else []
  }

  lemma {:induction false} OccOfAll(states: States, files: Files, outputs: seq<PlannedOutput>, b: byte)
    ensures Occ(AllOutputs(files, outputs), b) == OutputOcc(files, outputs, b)
    ensures Occ(AllOriginals(states, outputs), b) == OriginalOcc(states, outputs, b)
  {
    if outputs != [] {
      OccOfAll(states, files, outputs[1..], b);
      OccAppend(RecipeBytes(files, outputs[0].segments), AllOutputs(files, outputs[1..]), b);
      var original := if outputs[0].path in states then OriginalOf(states[outputs[0].path]) else [];
      OccAppend(original, AllOriginals(states, outputs[1..]), b);
    }
  }

  lemma {:induction false} OccOfCopied(rs: seq<Resolution>, b: byte)
    ensures Occ(AllCopied(rs), b) == CopiedOcc(rs, b)
  {
    if rs != [] {
      var n := |rs| - 1;
      OccOfCopied(rs[..n], b);
      OccAppend(AllCopied(rs[..n]), if rs[n].effect == Changed && rs[n].kind == Copy then Payload(rs[n]) else [], b);
    }
  }

  /** The multiset of bytes over all outputs is that of their originals and the payloads of effectful copies. */
  lemma PlansConserveTheMultiset(states: States, files: Files, rs: seq<Resolution>, outputs: seq<PlannedOutput>)
    requires AllGrounded(states, files, rs) && PathsPlannable(states, files, rs) && PlanFor(states, files, rs, outputs)
    ensures multiset(AllOutputs(files, outputs)) == multiset(AllOriginals(states, outputs)) + multiset(AllCopied(rs))
  {
    forall b: byte
      ensures multiset(AllOutputs(files, outputs))[b] ==
              multiset(AllOriginals(states, outputs))[b] + multiset(AllCopied(rs))[b]
    {
      PlansConserveBytes(states, files, rs, outputs, b);
      OccOfAll(states, files, outputs, b);
      OccOfCopied(rs, b);
      OccIsMultiplicity(AllOutputs(files, outputs), b);
      OccIsMultiplicity(AllOriginals(states, outputs), b);
      OccIsMultiplicity(AllCopied(rs), b);
    }
  }
}
