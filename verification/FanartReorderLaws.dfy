/** What a fanart reorder does to the directory: success realises the permutation, failures roll back, and
    exactly when content can be lost. */
module FanartReorderLaws {
  import opened FanartDiscovery
  import opened FanartNames
  import opened FanartReorder
  import opened Strings
  import opened Wrappers

  // ---------------------------------------------------------------- name lists that do not interfere

  ghost predicate Distinct(s: seq<Name>) {
    forall i, j :: 0 <= i < j < |s| ==> s[i] != s[j]
  }

  ghost predicate Disjoint(s: seq<Name>, t: seq<Name>) {
    forall i, j :: 0 <= i < |s| && 0 <= j < |t| ==> s[i] != t[j]
  }

  ghost predicate Separate(p: Plan) {
    && IsPlan(p) && Distinct(p.src) && Distinct(p.tmp) && Distinct(p.dst)
    && Disjoint(p.src, p.tmp) && Disjoint(p.dst, p.tmp)
  }

  /** What discovery promises: distinct files, all with an image extension. */
  ghost predicate Discovered(paths: seq<Name>) {
    Distinct(paths) && forall i :: 0 <= i < |paths| ==> IsImage(paths[i])
  }

  /** And it keeps the promise. */
  lemma DiscoveryIsDiscovered(primary: Name, names: set<Name>, paths: seq<Name>)
    requires IsDiscovery(ConventionOf(primary), names, paths)
    ensures Discovered(paths)
  {
    DiscoveredAreDistinct(ConventionOf(primary), names, paths);
    forall i | 0 <= i < |paths| ensures IsImage(paths[i]) {
      DiscoveredHaveSlots(primary, names, paths, i);
    }
  }

  /** Every accepted request gives three name lists that do not interfere. */
  lemma PlanIsSeparate(paths: seq<Name>, order: seq<int>, primary: Name, kodi: bool)
    requires Discovered(paths) && |order| == |paths| && IsBijection(order)
    ensures Separate(MakePlan(paths, order, primary, kodi))
  {
    var p := MakePlan(paths, order, primary, kodi);
    assert forall i :: 0 <= i < |paths| ==> IsImage(p.src[i]);
    assert Distinct(p.src) by {
      forall i, j | 0 <= i < j < |p.src| ensures p.src[i] != p.src[j] {
        assert order[i] != order[j];
        assert order[i] < order[j] || order[j] < order[i];
      }
    }
    forall i, j | 0 <= i < j < |paths| ensures p.tmp[i] != p.tmp[j] {
      SlotsDiffer(primary, kodi, i, p.src[i], j, p.src[j]);
    }
    forall i, j | 0 <= i < j < |paths| ensures p.dst[i] != p.dst[j] {
      SlotsDiffer(primary, kodi, i, p.src[i], j, p.src[j]);
    }
    forall i, j | 0 <= i < |paths| && 0 <= j < |paths| ensures p.src[i] != p.tmp[j] {
      TempDiffers(primary, kodi, i, p.src[i], j, p.src[j]);
    }
    forall i, j | 0 <= i < |paths| && 0 <= j < |paths| ensures p.dst[i] != p.tmp[j] {
      TempDiffers(primary, kodi, i, p.src[i], j, p.src[j]);
    }
  }

  lemma SlotsDiffer(primary: Name, kodi: bool, i: nat, x: Name, j: nat, y: Name)
    requires IsImage(x) && IsImage(y) && i != j
    ensures TempName(i, Ext(x)) != TempName(j, Ext(y))
    ensures FinalName(primary, i, kodi, Ext(x)) != FinalName(primary, j, kodi, Ext(y))
  {
    if TempName(i, Ext(x)) == TempName(j, Ext(y)) {
      TempNamesDistinct(i, Ext(x), j, Ext(y));
    }
    if FinalName(primary, i, kodi, Ext(x)) == FinalName(primary, j, kodi, Ext(y)) {
      FinalNamesDistinct(primary, kodi, i, Ext(x), j, Ext(y));
    }
  }

  lemma TempDiffers(primary: Name, kodi: bool, i: nat, x: Name, j: nat, y: Name)
    requires IsImage(x)
    ensures TempName(j, Ext(y)) != x && TempName(j, Ext(y)) != FinalName(primary, i, kodi, Ext(x))
  {
    ImageNameEndsInG(x);
    TempIsNoImage(j, Ext(y), x);
    FinalNameEndsInG(primary, i, kodi, Ext(x));
    TempIsNoImage(j, Ext(y), FinalName(primary, i, kodi, Ext(x)));
  }

  // ---------------------------------------------------------------- the effect of a list of renames

  /** What a name holds. */
  ghost function At(d: Files, x: Name): Option<Content> {
    if x in d then Some(d[x]) else None
  }

  /** Where the two names of rename j stand after the first k attempts of a best-effort list. */
  lemma {:induction false} RenamesAt(d: Files, from: seq<Name>, to: seq<Name>, bad: set<nat>, k: nat, j: nat)
    requires k <= |from| == |to| && Distinct(from) && Distinct(to) && Disjoint(from, to) && j < |from|
    ensures var gone := j < k && j !in bad && from[j] in d;
            var d' := TryAll(d, from, to, bad, k);
            && At(d', from[j]) == (if gone then None else At(d, from[j]))
            && At(d', to[j]) == At(d, if gone then from[j] else to[j])
  {
    if k > 0 {
      RenamesAt(d, from, to, bad, k - 1, j);
      RenamesAt(d, from, to, bad, k - 1, k - 1);
      assert from[j] != to[k - 1] && to[j] != from[k - 1];
      assert j != k - 1 ==> from[j] != from[k - 1] && to[j] != to[k - 1];
    }
  }

  /** A name none of the attempts mentions keeps what it holds. */
  lemma {:induction false} RenamesElsewhere(d: Files, from: seq<Name>, to: seq<Name>, bad: set<nat>, k: nat, x: Name)
    requires k <= |from| == |to| && forall j :: 0 <= j < k ==> from[j] != x && to[j] != x
    ensures At(TryAll(d, from, to, bad, k), x) == At(d, x)
  {
    if k > 0 {
      RenamesElsewhere(d, from, to, bad, k - 1, x);
      assert from[k - 1] != x && to[k - 1] != x;
    }
  }

  /** A source is still there when its turn comes. */
  lemma SourceAwaitsItsTurn(d: Files, from: seq<Name>, to: seq<Name>, bad: set<nat>, k: nat)
    requires k < |from| == |to| && Distinct(from) && Distinct(to) && Disjoint(from, to)
    ensures from[k] in TryAll(d, from, to, bad, k) <==> from[k] in d
  {
    RenamesAt(d, from, to, bad, k, k);
  }

  lemma AllOkStep(d: Files, from: seq<Name>, to: seq<Name>, bad: set<nat>, k: nat)
    requires 0 < k <= |from| == |to| && Distinct(from) && Distinct(to) && Disjoint(from, to)
    ensures AllOk(d, from, to, bad, k) <==> AllOk(d, from, to, bad, k - 1) && k - 1 !in bad && from[k - 1] in d
  {
    SourceAwaitsItsTurn(d, from, to, bad, k - 1);
  }

  lemma {:induction false} AllOkMeans(d: Files, from: seq<Name>, to: seq<Name>, bad: set<nat>, k: nat)
    requires k <= |from| == |to| && Distinct(from) && Distinct(to) && Disjoint(from, to)
    ensures AllOk(d, from, to, bad, k) <==> forall j :: 0 <= j < k ==> j !in bad && from[j] in d
  {
    if k > 0 {
      AllOkStep(d, from, to, bad, k);
      AllOkMeans(d, from, to, bad, k - 1);
      if AllOk(d, from, to, bad, k) {
        forall j | 0 <= j < k ensures j !in bad && from[j] in d {
          assert j < k - 1 || j == k - 1;
        }
      }
    }
  }

  lemma {:induction false} FirstFailureIsFirst(d: Files, from: seq<Name>, to: seq<Name>, bad: set<nat>, k: nat)
    requires k <= |from| == |to| && AllOk(d, from, to, bad, k)
    ensures AllOk(d, from, to, bad, FirstFailure(d, from, to, bad, k))
    decreases |from| - k
  {
    if k < |from| && RenameOk(TryAll(d, from, to, bad, k), from[k], k in bad) {
      FirstFailureIsFirst(d, from, to, bad, k + 1);
    }
  }

  lemma {:induction false} StageStopIsFirst(d: Files, p: Plan, f: Faults, k: nat)
    requires IsPlan(p) && k <= |p.src| && AllOk(d, p.src, p.tmp, f.stage, k)
    ensures AllOk(d, p.src, p.tmp, f.stage, StageStop(d, p, f, k))
    decreases |p.src| - k
  {
    if k < |p.src| && StageStop(d, p, f, k) != k {
      StageStopIsFirst(d, p, f, k + 1);
    }
  }

  // ---------------------------------------------------------------- the directory after each phase

  function Staged(d: Files, p: Plan, f: Faults): Files
    requires IsPlan(p)
  {
    TryAll(d, p.src, p.tmp, f.stage, StageStop(d, p, f, 0))
  }

  /** Phase 1 leaves the first k files, and only those, under their temporary names. */
  lemma StagedAt(d: Files, p: Plan, f: Faults, i: nat)
    requires Separate(p) && i < |p.src|
    ensures var k := StageStop(d, p, f, 0);
            && At(Staged(d, p, f), p.src[i]) == (if i < k then None else At(d, p.src[i]))
            && At(Staged(d, p, f), p.tmp[i]) == At(d, if i < k then p.src[i] else p.tmp[i])
            && (i < k ==> p.src[i] in d)
  {
    StageStopIsFirst(d, p, f, 0);
    var k := StageStop(d, p, f, 0);
    AllOkMeans(d, p.src, p.tmp, f.stage, k);
    RenamesAt(d, p.src, p.tmp, f.stage, k, i);
  }

  lemma StagedElsewhere(d: Files, p: Plan, f: Faults, x: Name)
    requires IsPlan(p) && x !in p.src && x !in p.tmp
    ensures At(Staged(d, p, f), x) == At(d, x)
  {
    RenamesElsewhere(d, p.src, p.tmp, f.stage, StageStop(d, p, f, 0), x);
  }

  function Finalized(staged: Files, p: Plan, f: Faults): Files
    requires IsPlan(p)
  {
    TryAll(staged, p.tmp, p.dst, f.finalize, FirstFailure(staged, p.tmp, p.dst, f.finalize, 0))
  }

  /** Phase 2 moves the first m staged files, and only those, to their final names. */
  lemma FinalizedAt(staged: Files, p: Plan, f: Faults, i: nat)
    requires Separate(p) && i < |p.src|
    ensures var m := FirstFailure(staged, p.tmp, p.dst, f.finalize, 0);
            && At(Finalized(staged, p, f), p.tmp[i]) == (if i < m then None else At(staged, p.tmp[i]))
            && At(Finalized(staged, p, f), p.dst[i]) == At(staged, if i < m then p.tmp[i] else p.dst[i])
            && (i < m ==> p.tmp[i] in staged)
  {
    FirstFailureIsFirst(staged, p.tmp, p.dst, f.finalize, 0);
    var m := FirstFailure(staged, p.tmp, p.dst, f.finalize, 0);
    AllOkMeans(staged, p.tmp, p.dst, f.finalize, m);
    RenamesAt(staged, p.tmp, p.dst, f.finalize, m, i);
  }

  lemma FinalizedElsewhere(staged: Files, p: Plan, f: Faults, x: Name)
    requires IsPlan(p) && x !in p.tmp && x !in p.dst
    ensures At(Finalized(staged, p, f), x) == At(staged, x)
  {
    RenamesElsewhere(staged, p.tmp, p.dst, f.finalize, FirstFailure(staged, p.tmp, p.dst, f.finalize, 0), x);
  }

  lemma SameEverywhere(d: Files, d': Files)
    requires forall x :: At(d, x) == At(d', x)
    ensures d == d'
  {
    assert forall x :: x in d <==> At(d, x).Some?;
    assert forall x :: x in d' <==> At(d', x).Some?;
    assert forall x :: x in d ==> d[x] == At(d, x).value;
    assert forall x :: x in d' ==> d'[x] == At(d', x).value;
  }

  // ---------------------------------------------------------------- success

  /** A successful reorder: slot i holds what source i held and nothing is left under its temporary name. */
  lemma SuccessFillsSlot(d: Files, p: Plan, f: Faults, i: nat)
    requires Separate(p) && Reorder(d, p, f).status == Reordered && i < |p.src|
    ensures var d' := Reorder(d, p, f).files;
            At(d, p.src[i]).Some? && At(d', p.dst[i]) == At(d, p.src[i]) && At(d', p.tmp[i]) == None
  {
    StagedAt(d, p, f, i);
    FinalizedAt(Staged(d, p, f), p, f, i);
  }

  /** A source that is nobody's final name is gone; every name outside the reorder is as before. */
  lemma SuccessElsewhere(d: Files, p: Plan, f: Faults, x: Name)
    requires Separate(p) && Reorder(d, p, f).status == Reordered && x !in p.dst && x !in p.tmp
    ensures At(Reorder(d, p, f).files, x) == if x in p.src then None else At(d, x)
  {
    FinalizedElsewhere(Staged(d, p, f), p, f, x);
    if x in p.src {
      var i :| 0 <= i < |p.src| && p.src[i] == x;
      StagedAt(d, p, f, i);
    } else {
      StagedElsewhere(d, p, f, x);
    }
  }

  /** In request terms: slot i ends with the content of paths[order[i]], and its temporary name is gone. */
  lemma SuccessRealisesPermutation(d: Files, paths: seq<Name>, order: seq<int>, primary: Name, kodi: bool, f: Faults,
                                   i: nat)
    requires Discovered(paths) && |order| == |paths| && IsBijection(order) && i < |paths|
    requires Reorder(d, MakePlan(paths, order, primary, kodi), f).status == Reordered
    ensures var slot := FinalName(primary, i, kodi, Ext(paths[order[i]]));
            var d' := Reorder(d, MakePlan(paths, order, primary, kodi), f).files;
            && paths[order[i]] in d && slot in d' && d'[slot] == d[paths[order[i]]]
            && TempName(i, Ext(paths[order[i]])) !in d'
  {
    PlanIsSeparate(paths, order, primary, kodi);
    SuccessFillsSlot(d, MakePlan(paths, order, primary, kodi), f, i);
  }

  /** And no discovered content is lost: the j-th file is in the slot the order gives it. */
  lemma SuccessKeepsEveryFile(d: Files, paths: seq<Name>, order: seq<int>, primary: Name, kodi: bool, f: Faults, j: nat)
    requires Discovered(paths) && |order| == |paths| && IsBijection(order) && j < |paths|
    requires Reorder(d, MakePlan(paths, order, primary, kodi), f).status == Reordered
    ensures exists i: nat :: i < |paths| && order[i] == j
              && At(Reorder(d, MakePlan(paths, order, primary, kodi), f).files,
                    FinalName(primary, i, kodi, Ext(paths[j]))) == At(d, paths[j])
    ensures paths[j] in d
  {
    assert j in order;
    var i: nat :| i < |order| && order[i] == j;
    SuccessRealisesPermutation(d, paths, order, primary, kodi, f, i);
  }

  /** A final name that an undiscovered file already has. */
  ghost predicate Clashes(d: Files, p: Plan, i: nat)
    requires IsPlan(p)
  {
    i < |p.dst| && p.dst[i] in d && p.dst[i] !in p.src
  }

  ghost predicate BystandersKept(d: Files, d': Files, p: Plan) {
    forall x :: x in d && x !in p.src && x !in p.tmp ==> At(d', x) == At(d, x)
  }

  /** Files outside the reorder survive a success exactly when no final name clashes with one of them (or the
      clashing files happen to be equal). Discovery keeps one file per slot number, so a clash is possible. */
  lemma BystandersSurviveUnlessClash(d: Files, p: Plan, f: Faults)
    requires Separate(p) && Reorder(d, p, f).status == Reordered
    ensures BystandersKept(d, Reorder(d, p, f).files, p) <==>
            forall i :: 0 <= i < |p.src| && Clashes(d, p, i) ==> At(d, p.dst[i]) == At(d, p.src[i])
  {
    var d' := Reorder(d, p, f).files;
    if BystandersKept(d, d', p) {
      forall i | 0 <= i < |p.src| && Clashes(d, p, i) ensures At(d, p.dst[i]) == At(d, p.src[i]) {
        SuccessFillsSlot(d, p, f, i);
        assert p.dst[i] !in p.tmp;
      }
    }
    if forall i :: 0 <= i < |p.src| && Clashes(d, p, i) ==> At(d, p.dst[i]) == At(d, p.src[i]) {
      forall x | x in d && x !in p.src && x !in p.tmp ensures At(d', x) == At(d, x) {
        if x in p.dst {
          var i :| 0 <= i < |p.dst| && p.dst[i] == x;
          assert Clashes(d, p, i);
          SuccessFillsSlot(d, p, f, i);
        } else {
          SuccessElsewhere(d, p, f, x);
        }
      }
    }
  }

  ghost predicate Survives(d: Files, c: Content) {
    exists x :: At(d, x) == Some(c)
  }

  const NO_FAULTS := Faults({}, {}, {}, {}, {}, {})

  lemma {:induction false} StageStopMeets(d: Files, p: Plan, f: Faults, k: nat)
    requires IsPlan(p) && k <= |p.src|
    ensures var m := StageStop(d, p, f, k);
            m == |p.src| || m in f.remove
            || !RenameOk(TryAll(d, p.src, p.tmp, f.stage, m) - {p.tmp[m]}, p.src[m], m in f.stage)
    decreases |p.src| - k
  {
    if k < |p.src| && StageStop(d, p, f, k) != k {
      StageStopMeets(d, p, f, k + 1);
    }
  }

  lemma {:induction false} FirstFailureMeets(d: Files, from: seq<Name>, to: seq<Name>, bad: set<nat>, k: nat)
    requires k <= |from| == |to|
    ensures var m := FirstFailure(d, from, to, bad, k);
            m == |from| || !RenameOk(TryAll(d, from, to, bad, m), from[m], m in bad)
    decreases |from| - k
  {
    if k < |from| && FirstFailure(d, from, to, bad, k) != k {
      FirstFailureMeets(d, from, to, bad, k + 1);
    }
  }

  /** Slot j can be staged: its stale name can be cleared, its rename does not fail and its source is there. */
  predicate CanStage(d: Files, p: Plan, f: Faults, j: nat)
    requires j < |p.src|
  {
    j !in f.remove && j !in f.stage && p.src[j] in d
  }

  lemma {:induction false} ClearedBeforeStop(d: Files, p: Plan, f: Faults, k: nat, j: nat)
    requires IsPlan(p) && k <= |p.src| && k <= j < StageStop(d, p, f, k)
    ensures j !in f.remove
    decreases |p.src| - k
  {
    if k < j {
      ClearedBeforeStop(d, p, f, k + 1, j);
    }
  }

  /** Phase 1 stops at the first slot that cannot be staged. */
  lemma StageStopExactly(d: Files, p: Plan, f: Faults)
    requires Separate(p)
    ensures var k := StageStop(d, p, f, 0);
            (forall j :: 0 <= j < k ==> CanStage(d, p, f, j)) && (k < |p.src| ==> !CanStage(d, p, f, k))
  {
    var k := StageStop(d, p, f, 0);
    StageStopIsFirst(d, p, f, 0);
    AllOkMeans(d, p.src, p.tmp, f.stage, k);
    forall j | 0 <= j < k ensures CanStage(d, p, f, j) {
      ClearedBeforeStop(d, p, f, 0, j);
    }
    if k < |p.src| {
      StageStopMeets(d, p, f, 0);
      StagedAt(d, p, f, k);
    }
  }

  ghost predicate IsLeast(bad: set<nat>, m: nat) {
    m in bad && forall j :: 0 <= j < m ==> j !in bad
  }

  /** Phase 2 stops at the least slot whose final rename fails. */
  lemma FinalizeStopExactly(d: Files, p: Plan, f: Faults)
    requires Separate(p) && StageStop(d, p, f, 0) == |p.src|
    ensures var m := FinalizeStop(d, p, f);
            (forall j :: 0 <= j < m ==> j !in f.finalize) && (m < |p.src| ==> m in f.finalize)
  {
    var staged, m := Staged(d, p, f), FinalizeStop(d, p, f);
    FirstFailureIsFirst(staged, p.tmp, p.dst, f.finalize, 0);
    AllOkMeans(staged, p.tmp, p.dst, f.finalize, m);
    if m < |p.src| {
      FirstFailureMeets(staged, p.tmp, p.dst, f.finalize, 0);
      FinalizedAt(staged, p, f, m);
      StagedAt(d, p, f, m);
    }
  }

  /** A reorder succeeds exactly when every source is there and no slot fails to be cleared, staged or finalized;
      phase 1 fails at the first slot that cannot be staged, phase 2 at the least one that cannot be finalized. */
  lemma OutcomeExactly(d: Files, p: Plan, f: Faults)
    requires Separate(p)
    ensures var status := Reorder(d, p, f).status;
            && (status == Reordered <==> forall i :: 0 <= i < |p.src| ==> CanStage(d, p, f, i) && i !in f.finalize)
            && (status.FinalizeFailed? ==>
                  IsLeast(f.finalize, status.at) && forall i :: 0 <= i < |p.src| ==> CanStage(d, p, f, i))
            && (status.StageFailed? || status.StaleTempStuck? ==>
                  && status.at < |p.src| && !CanStage(d, p, f, status.at)
                  && (status.StaleTempStuck? <==> status.at in f.remove)
                  && forall i :: 0 <= i < status.at ==> CanStage(d, p, f, i))
  {
    StageStopExactly(d, p, f);
    if StageStop(d, p, f, 0) == |p.src| {
      FinalizeStopExactly(d, p, f);
    }
  }

  /** Contents are told apart: no two files of d are equal. */
  ghost predicate AllDifferent(d: Files) {
    forall x, y :: x in d && y in d && x != y ==> d[x] != d[y]
  }

  /** A successful reorder destroys the file a final name clashes with. */
  lemma ClashDestroysContent(d: Files, p: Plan, f: Faults, i: nat)
    requires Separate(p) && AllDifferent(d) && Reorder(d, p, f).status == Reordered && Clashes(d, p, i)
    ensures !Survives(Reorder(d, p, f).files, d[p.dst[i]])
  {
    forall x ensures At(Reorder(d, p, f).files, x) != At(d, p.dst[i]) {
      if x in p.dst {
        var j :| 0 <= j < |p.dst| && p.dst[j] == x;
        SuccessFillsSlot(d, p, f, j);
      } else if x in p.tmp {
        var j :| 0 <= j < |p.tmp| && p.tmp[j] == x;
        SuccessFillsSlot(d, p, f, j);
      } else {
        SuccessElsewhere(d, p, f, x);
      }
    }
  }

  /** Swapping two discovered files x and y when slot 0's new name z is taken by a third file. */
  lemma SwapOverHiddenFile(p: Plan, x: Name, y: Name, z: Name, first: Content, second: Content, hidden: Content)
    requires Separate(p) && p.src == [y, x] && p.dst[0] == z && x != y && x != z && y != z
    requires hidden != first && hidden != second && first != second
    ensures var end := Reorder(map[x := first, y := second, z := hidden], p, NO_FAULTS);
            end.status == Reordered && !Survives(end.files, hidden)
  {
    var d := map[x := first, y := second, z := hidden];
    assert AllDifferent(d);
    OutcomeExactly(d, p, NO_FAULTS);
    ClashDestroysContent(d, p, NO_FAULTS, 0);
  }

  /** A final name can meet an undiscovered file only in a slot that two files of the directory share. */
  lemma ClashSharesSlot(d: Files, paths: seq<Name>, order: seq<int>, primary: Name, kodi: bool, i: nat)
    requires IsDiscovery(ConventionOf(primary), d.Keys, paths) && |order| == |paths| <= MAX_INT && IsBijection(order)
    requires Clashes(d, MakePlan(paths, order, primary, kodi), i)
    ensures var z := FinalName(primary, i, kodi, Ext(paths[order[i]]));
            && SlotOf(primary, z) == Some(SlotNumber(i, kodi))
            && exists y :: y in d && y != z && SlotOf(primary, y) == SlotOf(primary, z)
  {
    var x := paths[order[i]];
    DiscoveredHaveSlots(primary, d.Keys, paths, order[i]);
    FinalNameSlot(primary, i, kodi, Ext(x));
    AllSourcesAreListed(paths, order, primary, kodi);
    OutsiderSharesSlot(primary, d.Keys, paths, FinalName(primary, i, kodi, Ext(x)));
  }

  lemma AllSourcesAreListed(paths: seq<Name>, order: seq<int>, primary: Name, kodi: bool)
    requires |order| == |paths| && IsBijection(order)
    ensures forall x :: x in MakePlan(paths, order, primary, kodi).src <==> x in paths
  {
    var p := MakePlan(paths, order, primary, kodi);
    forall x | x in paths ensures x in p.src {
      var v :| 0 <= v < |paths| && paths[v] == x;
      assert v in order;
      var i :| 0 <= i < |order| && order[i] == v;
      assert p.src[i] == x;
    }
  }

  ghost predicate SlotsUnshared(primary: Name, d: Files) {
    forall x, y :: x in d && y in d && x != y && SlotOf(primary, x).Some? ==> SlotOf(primary, x) != SlotOf(primary, y)
  }

  /** In a directory where no two images share a slot, a success touches nothing but the discovered files, and a
      complete rollback of phase 2 gives the starting directory minus stale temporary files. */
  lemma UnsharedSlotsAreSafe(d: Files, paths: seq<Name>, order: seq<int>, primary: Name, kodi: bool, f: Faults)
    requires IsDiscovery(ConventionOf(primary), d.Keys, paths) && |order| == |paths| <= MAX_INT && IsBijection(order)
    requires SlotsUnshared(primary, d)
    ensures var p := MakePlan(paths, order, primary, kodi);
            var end := Reorder(d, p, f);
            && (end.status == Reordered ==> BystandersKept(d, end.files, p))
            && (end.status.FinalizeFailed? && end.status.complete ==> end.files == WithoutTemps(d, p, |p.tmp|))
  {
    var p := MakePlan(paths, order, primary, kodi);
    var end := Reorder(d, p, f);
    DiscoveryIsDiscovered(primary, d.Keys, paths);
    PlanIsSeparate(paths, order, primary, kodi);
    forall i: nat ensures !Clashes(d, p, i) {
      if Clashes(d, p, i) {
        ClashSharesSlot(d, paths, order, primary, kodi, i);
      }
    }
    if end.status == Reordered {
      BystandersSurviveUnlessClash(d, p, f);
    } else if end.status.FinalizeFailed? && end.status.complete {
      FinalizeFailureRestoresUnlessClash(d, p, f);
    }
  }

  /** The three names of the example: a primary, the second backdrop, and a file hidden by the primary. */
  lemma ExampleExts(stem: string)
    ensures Ext(stem + ".jpg") == ".jpg" && TrimExt(stem + ".jpg") == stem
    ensures Ext(stem + ".png") == ".png" && Ext(stem + "2" + ".png") == ".png"
    ensures IsImage(stem + ".jpg") && IsImage(stem + ".png") && IsImage(stem + "2" + ".png")
  {
    TrimExtOf(stem, ".jpg");
    TrimExtOf(stem, ".png");
    TrimExtOf(stem + "2", ".png");
    assert Lower(".jpg") == ".jpg" && Lower(".png") == ".png";
  }

  lemma ExampleNames(stem: string)
    ensures var x := stem + ".jpg";
            && FinalName(x, 0, false, ".jpg") == x && FinalName(x, 0, false, ".png") == stem + ".png"
            && FinalName(x, 1, false, ".png") == stem + "2" + ".png"
  {
    var x := stem + ".jpg";
    TrimExtOf(stem, ".jpg");
    FinalNameShape(x, 0, false, ".jpg");
    FinalNameShape(x, 0, false, ".png");
    FinalNameShape(x, 1, false, ".png");
    assert stem + "" == stem;
    assert SlotSuffix(1, false) == "2" by {
      assert Decimal(2) == "2";
    }
  }

  lemma ExampleSlots(stem: string)
    ensures var x := stem + ".jpg";
            && SlotOf(x, x) == Some(0) == SlotOf(x, stem + ".png") && SlotOf(x, stem + "2" + ".png") == Some(2)
  {
    var x := stem + ".jpg";
    ExampleExts(stem);
    ExampleNames(stem);
    FinalNameSlot(x, 0, false, ".jpg");
    FinalNameSlot(x, 0, false, ".png");
    FinalNameSlot(x, 1, false, ".png");
  }

  /** Of three files, two of them in slot 0, the preferred one of slot 0 and the third are discovered. */
  lemma TwoOfThreeListed(c: Convention, x: Name, y: Name, z: Name)
    requires c.slot(x) == Some(0) == c.slot(z) && c.slot(y) == Some(2) && c.preferred(x) && !c.preferred(z)
    ensures IsDiscovery(c, {x, y, z}, [x, y])
  {
    var names, files := {x, y, z}, [Indexed(0, x), Indexed(2, y)];
    TextReflexive(x);
    TextReflexive(y);
    assert IsListed(c, names, files[0]) && IsListed(c, names, files[1]);
    forall f | IsListed(c, names, f) ensures f in files {
      assert x in names && (f.name == x || f.name == y || f.name == z);
    }
    assert IsListing(c, names, files);
    assert Paths(files) == [x, y];
  }

  lemma SwapAndLose(x: Name, y: Name, z: Name, first: Content, second: Content, hidden: Content)
    requires Discovered([x, y]) && FinalName(x, 0, false, Ext(y)) == z && x != y && x != z && y != z
    requires hidden != first && first != second && hidden != second
    ensures IsBijection([1, 0])
    ensures var d := map[x := first, y := second, z := hidden];
            var end := Reorder(d, MakePlan([x, y], [1, 0], x, false), NO_FAULTS);
            end.status == Reordered && !Survives(end.files, hidden)
  {
    SwappedPlan(x, y, z);
    SwapOverHiddenFile(MakePlan([x, y], [1, 0], x, false), x, y, z, first, second, hidden);
  }

  /** The clash is real. Beside backdrop.jpg and backdrop2.png, say, lies backdrop.png, which discovery hides because
      backdrop.jpg has the same slot; swapping the two discovered files replaces it, and its content is nowhere any
      more. */
  lemma HiddenFileIsReplaced(stem: string, first: Content, second: Content, hidden: Content)
    requires hidden != first && first != second && hidden != second
    ensures IsBijection([1, 0])
    ensures var x, y, z := stem + ".jpg", stem + "2" + ".png", stem + ".png";
            var d := map[x := first, y := second, z := hidden];
            var end := Reorder(d, MakePlan([x, y], [1, 0], x, false), NO_FAULTS);
            && IsDiscovery(ConventionOf(x), d.Keys, [x, y])
            && end.status == Reordered && !Survives(end.files, hidden)
  {
    var x, y, z := stem + ".jpg", stem + "2" + ".png", stem + ".png";
    ExampleFacts(stem);
    ThreeKeys(x, y, z, first, second, hidden);
    SwapAndLose(x, y, z, first, second, hidden);
  }

  lemma ThreeKeys(x: Name, y: Name, z: Name, a: Content, b: Content, c: Content)
    ensures map[x := a, y := b, z := c].Keys == {x, y, z}
  {
  }

  lemma ExampleFacts(stem: string)
    ensures var x, y, z := stem + ".jpg", stem + "2" + ".png", stem + ".png";
            && IsDiscovery(ConventionOf(x), {x, y, z}, [x, y]) && Discovered([x, y])
            && FinalName(x, 0, false, Ext(y)) == z && x != y && x != z && y != z
  {
    var x, y, z := stem + ".jpg", stem + "2" + ".png", stem + ".png";
    ExampleExts(stem);
    ExampleNames(stem);
    ExampleSlots(stem);
    LowerExtsDiffer();
    ExampleDiscovery(x, y, z);
    ThreeNames(stem);
  }

  lemma LowerExtsDiffer()
    ensures Lower(".jpg") != Lower(".png")
  {
    assert Lower(".jpg")[1] == 'j' && Lower(".png")[1] == 'p';
  }

  lemma ThreeNames(stem: string)
    ensures var x, y, z := stem + ".jpg", stem + "2" + ".png", stem + ".png"; x != y && x != z && y != z
  {
    assert (stem + ".jpg")[|stem| + 1] == 'j' && (stem + ".png")[|stem| + 1] == 'p';
    assert |stem + "2" + ".png"| > |stem + ".png"| == |stem + ".jpg"|;
  }

  lemma ExampleDiscovery(x: Name, y: Name, z: Name)
    requires SlotOf(x, x) == Some(0) == SlotOf(x, z) && SlotOf(x, y) == Some(2) && Lower(Ext(z)) != Lower(Ext(x))
    ensures IsDiscovery(ConventionOf(x), {x, y, z}, [x, y]) && Discovered([x, y])
  {
    ConventionExample(x, y, z);
    TwoOfThreeListed(ConventionOf(x), x, y, z);
    DiscoveryIsDiscovered(x, {x, y, z}, [x, y]);
  }

  lemma ConventionExample(x: Name, y: Name, z: Name)
    requires SlotOf(x, x) == Some(0) == SlotOf(x, z) && SlotOf(x, y) == Some(2) && Lower(Ext(z)) != Lower(Ext(x))
    ensures var c := ConventionOf(x);
            c.slot(x) == Some(0) == c.slot(z) && c.slot(y) == Some(2) && c.preferred(x) && !c.preferred(z)
  {
  }

  lemma SwappedPlan(x: Name, y: Name, z: Name)
    requires Discovered([x, y]) && FinalName(x, 0, false, Ext(y)) == z
    ensures IsBijection([1, 0])
    ensures var p := MakePlan([x, y], [1, 0], x, false); Separate(p) && p.src == [y, x] && p.dst[0] == z
  {
    SwapIsBijection();
    PlanIsSeparate([x, y], [1, 0], x, false);
  }

  lemma SwapIsBijection()
    ensures IsBijection([1, 0]) && [1, 0][0] == 1 && [1, 0][1] == 0
  {
    assert [1, 0][0] == 1 && [1, 0][1] == 0;
  }

  // ---------------------------------------------------------------- failures in phase 1

  /** d without the staging names of the slots below k. */
  ghost function WithoutTemps(d: Files, p: Plan, k: nat): Files
    requires k <= |p.tmp|
  {
    d - (set x | x in p.tmp[..k])
  }

  /** Phase 1 failing at slot k: a staged file is back in place unless its own rollback rename failed, in which
      case it is still under its temporary name; either way its content is not lost. */
  lemma StageFailureAt(d: Files, p: Plan, f: Faults, j: nat)
    requires Separate(p) && Reorder(d, p, f).status.StageFailed? && j < |p.src|
    ensures var k := Reorder(d, p, f).status.at;
            var d' := Reorder(d, p, f).files;
            && k < |p.src|
            && (j < k ==> p.src[j] in d)
            && At(d', p.src[j]) == (if j < k && j in f.unstage then None else At(d, p.src[j]))
            && At(d', p.tmp[j]) == (if j < k && j in f.unstage then At(d, p.src[j])
                                    else if j <= k then None else At(d, p.tmp[j]))
  {
    var k := StageStop(d, p, f, 0);
    var cleared := Staged(d, p, f) - {p.tmp[k]};
    StagedAt(d, p, f, j);
    assert j != k ==> p.tmp[j] != p.tmp[k];
    assert p.src[j] != p.tmp[k];
    RenamesAt(cleared, p.tmp, p.src, f.unstage, k, j);
  }

  lemma StageFailureElsewhere(d: Files, p: Plan, f: Faults, x: Name)
    requires Separate(p) && Reorder(d, p, f).status.StageFailed? && x !in p.src && x !in p.tmp
    ensures At(Reorder(d, p, f).files, x) == At(d, x)
  {
    var k := StageStop(d, p, f, 0);
    StagedElsewhere(d, p, f, x);
    RenamesElsewhere(Staged(d, p, f) - {p.tmp[k]}, p.tmp, p.src, f.unstage, k, x);
  }

  /** A complete rollback of phase 1 gives the starting directory minus the stale temporary files cleared so far. */
  lemma StageFailureRestores(d: Files, p: Plan, f: Faults)
    requires Separate(p) && Reorder(d, p, f).status.StageFailed? && Reorder(d, p, f).status.complete
    ensures Reorder(d, p, f).files == WithoutTemps(d, p, Reorder(d, p, f).status.at + 1)
  {
    var k := StageStop(d, p, f, 0);
    var cleared := Staged(d, p, f) - {p.tmp[k]};
    AllOkMeans(cleared, p.tmp, p.src, f.unstage, k);
    var goal := WithoutTemps(d, p, k + 1);
    forall x ensures At(Reorder(d, p, f).files, x) == At(goal, x) {
      if x in p.tmp {
        var j :| 0 <= j < |p.tmp| && p.tmp[j] == x;
        StageFailureAt(d, p, f, j);
        assert j <= k ==> p.tmp[..k + 1][j] == x;
      } else if x in p.src {
        var j :| 0 <= j < |p.src| && p.src[j] == x;
        StageFailureAt(d, p, f, j);
      } else {
        StageFailureElsewhere(d, p, f, x);
      }
    }
    SameEverywhere(Reorder(d, p, f).files, goal);
  }

  /** First trap: a stale temporary file that cannot be removed stops the reorder without any rollback. The
      files staged so far stay under their temporary names, so the directory is intact only when there are none. */
  lemma StaleTempLeavesStagedFiles(d: Files, p: Plan, f: Faults, j: nat)
    requires Separate(p) && Reorder(d, p, f).status.StaleTempStuck? && j < |p.src|
    ensures var k := Reorder(d, p, f).status.at;
            var d' := Reorder(d, p, f).files;
            && k < |p.src|
            && (j < k ==> p.src[j] in d && At(d', p.src[j]) == None && At(d', p.tmp[j]) == At(d, p.src[j]))
            && (d' == d <==> 0 in f.remove)
  {
    StagedAt(d, p, f, j);
    StagedAt(d, p, f, 0);
    StageStopIsFirst(d, p, f, 0);
  }

  // ---------------------------------------------------------------- failures in phase 2

  /** A finalized file whose revert did not take place. */
  predicate RevertLost(f: Faults, m: nat, i: nat) {
    i < m && i in f.revert
  }

  function FinalizeStop(d: Files, p: Plan, f: Faults): nat
    requires IsPlan(p)
  {
    FirstFailure(Staged(d, p, f), p.tmp, p.dst, f.finalize, 0)
  }

  /** The directory between the two rollback loops of phase 2. */
  function Reverted(d: Files, p: Plan, f: Faults): Files
    requires IsPlan(p)
  {
    TryAll(Finalized(Staged(d, p, f), p, f), p.dst, p.tmp, f.revert, FinalizeStop(d, p, f))
  }

  lemma RevertedAt(d: Files, p: Plan, f: Faults, i: nat)
    requires Separate(p) && StageStop(d, p, f, 0) == |p.src| && i < |p.src|
    ensures p.src[i] in d
    ensures var m := FinalizeStop(d, p, f);
            var d' := Reverted(d, p, f);
            && At(d', p.tmp[i]) == (if RevertLost(f, m, i) then None else At(d, p.src[i]))
            && At(d', p.dst[i]) == (if RevertLost(f, m, i) then At(d, p.src[i])
                                    else if i < m || p.dst[i] in p.src then None else At(d, p.dst[i]))
  {
    var staged := Staged(d, p, f);
    var m := FinalizeStop(d, p, f);
    StagedAt(d, p, f, i);
    FinalizedAt(staged, p, f, i);
    RenamesAt(Finalized(staged, p, f), p.dst, p.tmp, f.revert, m, i);
    if p.dst[i] in p.src {
      var j :| 0 <= j < |p.src| && p.src[j] == p.dst[i];
      StagedAt(d, p, f, j);
    } else {
      assert p.dst[i] !in p.tmp;
      StagedElsewhere(d, p, f, p.dst[i]);
    }
  }

  lemma RevertedElsewhere(d: Files, p: Plan, f: Faults, x: Name)
    requires Separate(p) && StageStop(d, p, f, 0) == |p.src| && x !in p.tmp && x !in p.dst
    ensures At(Reverted(d, p, f), x) == if x in p.src then None else At(d, x)
  {
    var staged := Staged(d, p, f);
    FinalizedElsewhere(staged, p, f, x);
    RenamesElsewhere(Finalized(staged, p, f), p.dst, p.tmp, f.revert, FinalizeStop(d, p, f), x);
    if x in p.src {
      var i :| 0 <= i < |p.src| && p.src[i] == x;
      StagedAt(d, p, f, i);
    } else {
      StagedElsewhere(d, p, f, x);
    }
  }

  /** Phase 2 failing: where discovered file i and its temporary name stand once the rollback is over. */
  lemma FinalizeFailureAt(d: Files, p: Plan, f: Faults, i: nat)
    requires Separate(p) && Reorder(d, p, f).status.FinalizeFailed? && i < |p.src|
    ensures Reorder(d, p, f).status.at == FinalizeStop(d, p, f) < |p.src| && IsLeast(f.finalize, FinalizeStop(d, p, f))
    ensures p.src[i] in d
    ensures var d' := Reorder(d, p, f).files;
            var lost := RevertLost(f, FinalizeStop(d, p, f), i);
            && At(d', p.tmp[i]) == (if lost || i !in f.restore then None else At(d, p.src[i]))
            && At(d', p.src[i]) == if lost || i in f.restore then At(Reverted(d, p, f), p.src[i]) else At(d, p.src[i])
  {
    OutcomeExactly(d, p, f);
    RevertedAt(d, p, f, i);
    RenamesAt(Reverted(d, p, f), p.tmp, p.src, f.restore, |p.src|, i);
  }

  lemma FinalizeFailureElsewhere(d: Files, p: Plan, f: Faults, x: Name)
    requires Separate(p) && Reorder(d, p, f).status.FinalizeFailed? && x !in p.src && x !in p.tmp
    ensures At(Reorder(d, p, f).files, x) == At(Reverted(d, p, f), x)
  {
    RenamesElsewhere(Reverted(d, p, f), p.tmp, p.src, f.restore, |p.src|, x);
  }

  lemma FinalizeFailureComplete(d: Files, p: Plan, f: Faults)
    requires Separate(p) && Reorder(d, p, f).status.FinalizeFailed?
    ensures var m := FinalizeStop(d, p, f);
            Reorder(d, p, f).status.complete <==>
            (forall i :: 0 <= i < m ==> i !in f.revert) && (forall i :: 0 <= i < |p.src| ==> i !in f.restore)
  {
    var m := FinalizeStop(d, p, f);
    var final := Finalized(Staged(d, p, f), p, f);
    AllOkMeans(final, p.dst, p.tmp, f.revert, m);
    AllOkMeans(Reverted(d, p, f), p.tmp, p.src, f.restore, |p.src|);
    forall i | 0 <= i < |p.src| ensures i < m ==> p.dst[i] in final
      ensures !RevertLost(f, m, i) ==> p.tmp[i] in Reverted(d, p, f)
    {
      FinalizedAt(Staged(d, p, f), p, f, i);
      RevertedAt(d, p, f, i);
    }
  }

  /** A complete rollback of phase 2 gives the starting directory minus stale temporary files exactly when none
      of the m finalized names clashed with an undiscovered file. */
  lemma FinalizeFailureRestoresUnlessClash(d: Files, p: Plan, f: Faults)
    requires Separate(p) && Reorder(d, p, f).status.FinalizeFailed? && Reorder(d, p, f).status.complete
    ensures IsLeast(f.finalize, Reorder(d, p, f).status.at)
    ensures Reorder(d, p, f).files == WithoutTemps(d, p, |p.tmp|) <==>
            forall i :: 0 <= i < Reorder(d, p, f).status.at ==> !Clashes(d, p, i)
  {
    var m := FinalizeStop(d, p, f);
    var d' := Reorder(d, p, f).files;
    var goal := WithoutTemps(d, p, |p.tmp|);
    FinalizeFailureComplete(d, p, f);
    FinalizeFailureAt(d, p, f, 0);
    assert p.tmp[..|p.tmp|] == p.tmp;
    if i: nat :| i < m && Clashes(d, p, i) {
      assert p.dst[i] !in p.tmp;
      FinalizeFailureElsewhere(d, p, f, p.dst[i]);
      RevertedAt(d, p, f, i);
      assert At(goal, p.dst[i]).Some? && At(d', p.dst[i]) == None;
    } else {
      forall x ensures At(d', x) == At(goal, x) {
        if x in p.tmp {
          var i :| 0 <= i < |p.tmp| && p.tmp[i] == x;
          FinalizeFailureAt(d, p, f, i);
        } else if x in p.src {
          var i :| 0 <= i < |p.src| && p.src[i] == x;
          FinalizeFailureAt(d, p, f, i);
        } else {
          FinalizeFailureElsewhere(d, p, f, x);
          if x in p.dst {
            var i :| 0 <= i < |p.dst| && p.dst[i] == x;
            RevertedAt(d, p, f, i);
            assert i < m ==> !Clashes(d, p, i);
          } else {
            RevertedElsewhere(d, p, f, x);
          }
        }
      }
      SameEverywhere(d', goal);
    }
  }

  // ---------------------------------------------------------------- lost content

  /** Second trap: file j, stuck under its final name, is overwritten when the second rollback loop restores
      another file to that very name. */
  ghost predicate Overwritten(p: Plan, f: Faults, m: nat, j: nat)
    requires IsPlan(p) && j < |p.src|
  {
    RevertLost(f, m, j) &&
    exists i: nat :: i < |p.src| && !RevertLost(f, m, i) && i !in f.restore && p.src[i] == p.dst[j]
  }

  /** Where file j ends up after the rollback of phase 2, unless it is overwritten there. */
  function HomeOf(p: Plan, f: Faults, m: nat, j: nat): Name
    requires IsPlan(p) && j < |p.src|
  {
    if RevertLost(f, m, j) then p.dst[j] else if j in f.restore then p.tmp[j] else p.src[j]
  }

  lemma NotOverwrittenSurvives(d: Files, p: Plan, f: Faults, j: nat)
    requires Separate(p) && Reorder(d, p, f).status.FinalizeFailed? && j < |p.src|
    requires !Overwritten(p, f, FinalizeStop(d, p, f), j)
    ensures At(Reorder(d, p, f).files, HomeOf(p, f, FinalizeStop(d, p, f), j)) == At(d, p.src[j])
  {
    var m := FinalizeStop(d, p, f);
    FinalizeFailureAt(d, p, f, j);
    RevertedAt(d, p, f, j);
    if RevertLost(f, m, j) {
      if p.dst[j] in p.src {
        var i: nat :| i < |p.src| && p.src[i] == p.dst[j];
        FinalizeFailureAt(d, p, f, i);
      } else {
        assert p.dst[j] !in p.tmp;
        FinalizeFailureElsewhere(d, p, f, p.dst[j]);
      }
    }
  }

  /** After a failed phase 2, whatever a name holds is a bystander's own content or that of a discovered file
      that has this name as its home. */
  lemma WhereContentCameFrom(d: Files, p: Plan, f: Faults, x: Name)
    requires Separate(p) && Reorder(d, p, f).status.FinalizeFailed?
    ensures At(Reorder(d, p, f).files, x) == None
            || (x !in p.src && At(Reorder(d, p, f).files, x) == At(d, x))
            || exists i: nat :: i < |p.src| && HomeOf(p, f, FinalizeStop(d, p, f), i) == x
                                && At(Reorder(d, p, f).files, x) == At(d, p.src[i])
  {
    var m := FinalizeStop(d, p, f);
    if x in p.tmp {
      var i: nat :| i < |p.tmp| && p.tmp[i] == x;
      FinalizeFailureAt(d, p, f, i);
      assert At(Reorder(d, p, f).files, x) != None ==> HomeOf(p, f, m, i) == x;
    } else {
      if x in p.dst {
        var i: nat :| i < |p.dst| && p.dst[i] == x;
        RevertedAt(d, p, f, i);
        assert RevertLost(f, m, i) ==> HomeOf(p, f, m, i) == x;
      } else {
        RevertedElsewhere(d, p, f, x);
      }
      if x in p.src {
        var i: nat :| i < |p.src| && p.src[i] == x;
        FinalizeFailureAt(d, p, f, i);
        assert !RevertLost(f, m, i) && i !in f.restore ==> HomeOf(p, f, m, i) == x;
      } else {
        FinalizeFailureElsewhere(d, p, f, x);
      }
    }
  }

  /** After a phase 2 failure a discovered file's content is gone exactly when its revert failed and the second
      loop restored another file over it. */
  lemma ContentLostExactlyWhenOverwritten(d: Files, p: Plan, f: Faults, j: nat)
    requires Separate(p) && AllDifferent(d) && Reorder(d, p, f).status.FinalizeFailed? && j < |p.src|
    ensures p.src[j] in d && IsLeast(f.finalize, Reorder(d, p, f).status.at)
    ensures !Survives(Reorder(d, p, f).files, d[p.src[j]]) <==> Overwritten(p, f, Reorder(d, p, f).status.at, j)
  {
    var m := FinalizeStop(d, p, f);
    FinalizeFailureAt(d, p, f, j);
    if !Overwritten(p, f, m, j) {
      NotOverwrittenSurvives(d, p, f, j);
    } else {
      var w: nat :| w < |p.src| && !RevertLost(f, m, w) && w !in f.restore && p.src[w] == p.dst[j];
      FinalizeFailureAt(d, p, f, w);
      forall x ensures At(Reorder(d, p, f).files, x) != At(d, p.src[j]) {
        WhereContentCameFrom(d, p, f, x);
        if i: nat :| i < |p.src| && HomeOf(p, f, m, i) == x && At(Reorder(d, p, f).files, x) == At(d, p.src[i]) {
          FinalizeFailureAt(d, p, f, i);
          assert p.src[w] != p.src[j];
          assert i != j ==> p.src[i] != p.src[j];
        }
      }
    }
  }

  /** In particular nothing is lost once the first rollback loop has succeeded, whatever the second one does. */
  lemma NothingLostOnceReverted(d: Files, p: Plan, f: Faults, j: nat)
    requires Separate(p) && Reorder(d, p, f).status.FinalizeFailed? && j < |p.src|
    requires forall i :: 0 <= i < Reorder(d, p, f).status.at ==> i !in f.revert
    ensures p.src[j] in d && Survives(Reorder(d, p, f).files, d[p.src[j]])
  {
    FinalizeFailureAt(d, p, f, j);
    NotOverwrittenSurvives(d, p, f, j);
  }
}
