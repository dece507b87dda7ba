/** The fanart reorder of internal/api/handlers_backdrop.go: a two-phase rename over one artist directory with
    best-effort rollback. A directory is a map from names to contents; every file operation may fail. */
module FanartReorder {
  import opened FanartNames
  import opened Wrappers

  type Content = string
  type Files = map<Name, Content>

  // ---------------------------------------------------------------- permutation check

  predicate IsBijection(order: seq<int>) {
    && (forall i :: 0 <= i < |order| ==> 0 <= order[i] < |order|)
    && (forall i, j :: 0 <= i < j < |order| ==> order[i] != order[j])
    && (forall v :: 0 <= v < |order| ==> v in order)
  }

  ghost function UpTo(n: nat): set<int> {
    if n == 0 then {} else UpTo(n - 1) + {n - 1}
  }

  lemma {:induction false} UpToIsRange(n: nat)
    ensures |UpTo(n)| == n && forall v :: v in UpTo(n) <==> 0 <= v < n
  {
    if n > 0 {
      UpToIsRange(n - 1);
    }
  }

  lemma {:induction false} ImageSize(order: seq<int>, k: nat)
    requires k <= |order|
    requires forall i, j :: 0 <= i < j < |order| ==> order[i] != order[j]
    ensures |set i | 0 <= i < k :: order[i]| == k
  {
    if k > 0 {
      ImageSize(order, k - 1);
      assert (set i | 0 <= i < k :: order[i]) == (set i | 0 <= i < k - 1 :: order[i]) + {order[k - 1]};
    }
  }

  /** Pigeonhole: distinct values in range fill the range. */
  lemma InjectionIsOnto(order: seq<int>)
    requires forall i :: 0 <= i < |order| ==> 0 <= order[i] < |order|
    requires forall i, j :: 0 <= i < j < |order| ==> order[i] != order[j]
    ensures IsBijection(order)
  {
    var image := set i | 0 <= i < |order| :: order[i];
    ImageSize(order, |order|);
    UpToIsRange(|order|);
    assert |UpTo(|order|) - image| == |UpTo(|order|)| - |image|;
    assert UpTo(|order|) - image == {};
    forall v | 0 <= v < |order| ensures v in order {
      assert v in UpTo(|order|) - (UpTo(|order|) - image);
    }
  }

  method IsValidPermutation(order: seq<int>) returns (valid: bool)
    ensures valid <==> order != [] && IsBijection(order)
  {
    var n := |order|;
    if n == 0 {
      return false;
    }
    var seen := new bool[n](_ => false);
    for k := 0 to n
      invariant forall i :: 0 <= i < k ==> 0 <= order[i] < n
      invariant forall i, j :: 0 <= i < j < k ==> order[i] != order[j]
      invariant forall v :: 0 <= v < n ==> (seen[v] <==> v in order[..k])
    {
      var idx := order[k];
      if idx < 0 || idx >= n || seen[idx] {
        return false;
      }
      seen[idx] := true;
      assert order[..k + 1] == order[..k] + [idx];
    }
    assert order[..n] == order;
    InjectionIsOnto(order);
    return true;
  }

  // ---------------------------------------------------------------- renames

  predicate RenameOk(d: Files, from: Name, bad: bool) {
    !bad && from in d
  }

  /** rename(): replaces its target; fails without effect when faulted or when the source is missing. */
  function TryRename(d: Files, from: Name, to: Name, bad: bool): Files {
    if RenameOk(d, from, bad) then (d - {from})[to := d[from]] else d
  }

  /** Attempt the first k renames of a list in order, skipping past failures. */
  function TryAll(d: Files, from: seq<Name>, to: seq<Name>, bad: set<nat>, k: nat): Files
    requires k <= |from| == |to|
  {
    if k == 0 then d else TryRename(TryAll(d, from, to, bad, k - 1), from[k - 1], to[k - 1], k - 1 in bad)
  }

  predicate AllOk(d: Files, from: seq<Name>, to: seq<Name>, bad: set<nat>, k: nat)
    requires k <= |from| == |to|
  {
    k == 0 || (AllOk(d, from, to, bad, k - 1) && RenameOk(TryAll(d, from, to, bad, k - 1), from[k - 1], k - 1 in bad))
  }

  /** The first rename from position k on that fails, or the length of the list. */
  function FirstFailure(d: Files, from: seq<Name>, to: seq<Name>, bad: set<nat>, k: nat): (m: nat)
    requires k <= |from| == |to|
    ensures k <= m <= |from|
    decreases |from| - k
  {
    if k == |from| || !RenameOk(TryAll(d, from, to, bad, k), from[k], k in bad) then k
    else FirstFailure(d, from, to, bad, k + 1)
  }

  // ---------------------------------------------------------------- the handler as a function

  /** Which attempts fail, per loop of the handler. */
  datatype Faults = Faults(
    remove: set<nat>, stage: set<nat>, unstage: set<nat>,
    finalize: set<nat>, revert: set<nat>, restore: set<nat>)

  datatype Status =
    | LengthMismatch
    | NotAPermutation
    | StaleTempStuck(at: nat)
    | StageFailed(at: nat, complete: bool)
    | FinalizeFailed(at: nat, complete: bool)
    | Reordered

  datatype Outcome = Outcome(status: Status, files: Files)

  /** The three name lists of one reorder: sources in slot order, staging names, final names. */
  datatype Plan = Plan(src: seq<Name>, tmp: seq<Name>, dst: seq<Name>)

  predicate IsPlan(p: Plan) {
    |p.src| == |p.tmp| == |p.dst|
  }

  function MakePlan(paths: seq<Name>, order: seq<int>, primary: Name, kodi: bool): (p: Plan)
    requires |order| == |paths| && IsBijection(order)
    ensures IsPlan(p) && |p.src| == |paths|
  {
    var n := |paths|;
    Plan(seq(n, i requires 0 <= i < n => paths[order[i]]),
         seq(n, i requires 0 <= i < n => TempName(i, Ext(paths[order[i]]))),
         seq(n, i requires 0 <= i < n => FinalName(primary, i, kodi, Ext(paths[order[i]]))))
  }

  /** The first slot from k on whose staging stops phase 1. */
  function StageStop(d: Files, p: Plan, f: Faults, k: nat): (m: nat)
    requires IsPlan(p) && k <= |p.src|
    ensures k <= m <= |p.src|
    decreases |p.src| - k
  {
    if k == |p.src| || k in f.remove
       || !RenameOk(TryAll(d, p.src, p.tmp, f.stage, k) - {p.tmp[k]}, p.src[k], k in f.stage) then k
    else StageStop(d, p, f, k + 1)
  }

  /** Phase 1 stopping at slot k. */
  function StageOutcome(d: Files, p: Plan, f: Faults, k: nat): Outcome
    requires IsPlan(p) && k < |p.src|
  {
    var staged := TryAll(d, p.src, p.tmp, f.stage, k);
    if k in f.remove then Outcome(StaleTempStuck(k), staged)
    else
      var cleared := staged - {p.tmp[k]};
      Outcome(StageFailed(k, AllOk(cleared, p.tmp, p.src, f.unstage, k)),
              TryAll(cleared, p.tmp, p.src, f.unstage, k))
  }

  /** Phase 2 from a fully staged directory, its m-th rename being the first to fail. */
  function FinalizeOutcome(staged: Files, p: Plan, f: Faults, m: nat): Outcome
    requires IsPlan(p) && m <= |p.src|
  {
    var n := |p.src|;
    var final := TryAll(staged, p.tmp, p.dst, f.finalize, m);
    if m == n then Outcome(Reordered, final)
    else
      var reverted := TryAll(final, p.dst, p.tmp, f.revert, m);
      Outcome(FinalizeFailed(m, AllOk(final, p.dst, p.tmp, f.revert, m)
                                && AllOk(reverted, p.tmp, p.src, f.restore, n)),
              TryAll(reverted, p.tmp, p.src, f.restore, n))
  }

  function Reorder(d: Files, p: Plan, f: Faults): Outcome
    requires IsPlan(p)
  {
    var k := StageStop(d, p, f, 0);
    if k < |p.src| then StageOutcome(d, p, f, k)
    else
      var staged := TryAll(d, p.src, p.tmp, f.stage, k);
      FinalizeOutcome(staged, p, f, FirstFailure(staged, p.tmp, p.dst, f.finalize, 0))
  }

  // ---------------------------------------------------------------- the handler

  datatype Staging = Staged | Stuck | Broke

  class Directory {
    var files: Files

    constructor (files: Files)
      ensures this.files == files
    {
      this.files := files;
    }

    method Rename(from: Name, to: Name, bad: bool) returns (ok: bool)
      modifies this
      ensures ok <==> RenameOk(old(files), from, bad)
      ensures files == TryRename(old(files), from, to, bad)
    {
      if bad || from !in files {
        return false;
      }
      var content := files[from];
      files := files - {from};
      files := files[to := content];
      return true;
    }

    /** Clears a name; a missing file is no error. */
    method Remove(name: Name, bad: bool) returns (ok: bool)
      modifies this
      ensures ok <==> !bad
      ensures files == if bad then old(files) else old(files) - {name}
    {
      ok := !bad;
      if ok {
        files := files - {name};
      }
    }

    method RenameEach(from: seq<Name>, to: seq<Name>, bad: set<nat>, k: nat) returns (complete: bool)
      requires k <= |from| == |to|
      modifies this
      ensures files == TryAll(old(files), from, to, bad, k)
      ensures complete <==> AllOk(old(files), from, to, bad, k)
    {
      complete := true;
      for i := 0 to k
        invariant files == TryAll(old(files), from, to, bad, i)
        invariant complete <==> AllOk(old(files), from, to, bad, i)
      {
        var ok := Rename(from[i], to[i], i in bad);
        if !ok {
          complete := false;
        }
      }
    }

    /** Clears a leftover temporary file, then moves one file to that name. */
    method StageOne(from: Name, to: Name, removeBad: bool, stageBad: bool) returns (r: Staging)
      modifies this
      ensures r == Stuck <==> removeBad
      ensures r == Stuck ==> files == old(files)
      ensures r == Broke ==> !RenameOk(old(files) - {to}, from, stageBad) && files == old(files) - {to}
      ensures r == Staged ==> RenameOk(old(files) - {to}, from, stageBad)
      ensures r == Staged ==> files == TryRename(old(files), from, to, stageBad)
    {
      var cleared := Remove(to, removeBad);
      if !cleared {
        return Stuck;
      }
      var ok := Rename(from, to, stageBad);
      if !ok {
        return Broke;
      }
      return Staged;
    }

    /** Phase 1: stage every file under a temporary name; None means all were staged. */
    method Stage(p: Plan, f: Faults) returns (stop: Option<Status>)
      requires IsPlan(p)
      modifies this
      ensures var k := StageStop(old(files), p, f, 0);
              && (stop.None? <==> k == |p.src|)
              && (stop.None? ==> files == TryAll(old(files), p.src, p.tmp, f.stage, k))
              && (stop.Some? ==> Outcome(stop.value, files) == StageOutcome(old(files), p, f, k))
    {
      ghost var d := files;
      var n := |p.src|;
      for i := 0 to n
        invariant files == TryAll(d, p.src, p.tmp, f.stage, i)
        invariant StageStop(d, p, f, 0) == StageStop(d, p, f, i)
      {
        var r := StageOne(p.src[i], p.tmp[i], i in f.remove, i in f.stage);
        if r == Stuck {
          return Some(StaleTempStuck(i));
        }
        if r == Broke {
          var complete := RenameEach(p.tmp, p.src, f.unstage, i);
          return Some(StageFailed(i, complete));
        }
      }
      return None;
    }

    /** Phase 2: move the staged files to their final names, or roll everything back. */
    method Finalize(p: Plan, f: Faults) returns (status: Status)
      requires IsPlan(p)
      modifies this
      ensures var m := FirstFailure(old(files), p.tmp, p.dst, f.finalize, 0);
              Outcome(status, files) == FinalizeOutcome(old(files), p, f, m)
    {
      ghost var staged := files;
      var n := |p.tmp|;
      for i := 0 to n
        invariant files == TryAll(staged, p.tmp, p.dst, f.finalize, i)
        invariant FirstFailure(staged, p.tmp, p.dst, f.finalize, 0) == FirstFailure(staged, p.tmp, p.dst, f.finalize, i)
      {
        var ok := Rename(p.tmp[i], p.dst[i], i in f.finalize);
        if !ok {
          var reverted := RenameEach(p.dst, p.tmp, f.revert, i);
          var restored := RenameEach(p.tmp, p.src, f.restore, n);
          return FinalizeFailed(i, reverted && restored);
        }
      }
      return Reordered;
    }

    method FanartReorder(paths: seq<Name>, order: seq<int>, primary: Name, kodi: bool, f: Faults)
      returns (status: Status)
      modifies this
      ensures |order| != |paths| ==> status == LengthMismatch && files == old(files)
      ensures |order| == |paths| && (order == [] || !IsBijection(order)) ==>
                status == NotAPermutation && files == old(files)
      ensures |order| == |paths| && order != [] && IsBijection(order) ==>
                Outcome(status, files) == Reorder(old(files), MakePlan(paths, order, primary, kodi), f)
    {
      if |order| != |paths| {
        return LengthMismatch;
      }
      var valid := IsValidPermutation(order);
      if !valid {
        return NotAPermutation;
      }
      var p := MakePlan(paths, order, primary, kodi);
      var stop := Stage(p, f);
      if stop.Some? {
        return stop.value;
      }
      status := Finalize(p, f);
    }
  }
}
