/** The "let Stillwater manage this server" toggle of internal/api/handlers_conflict.go.

    Three variables live in three places: the peer's per-library options, the snapshot column and the managed flag.
    Every external step may fail, and a peer call may reach only some libraries. The methods of Toggle perform the
    steps; RequestTrace names the states they pass through; the lemmas say what one request keeps and reaches. Whole
    runs, crashes and the conflict detector are the subject of ToggleRuns. */
module ManagedToggle {

  type LibraryId = string

  /** The two levers a snapshot records (envelope version 1). */
  datatype Savers = Savers(saveLocalMetadata: bool, metadataSavers: seq<string>)

  /** One library's options; `other` stands for every field the round trip carries along unchanged. */
  datatype Options = Options(savers: Savers, other: string)

  type Peer = map<LibraryId, Options>
  type Snapshot = map<LibraryId, Savers>

  /** The pre_stillwater_config_json column; Cleared is the empty string. */
  datatype Column = Cleared | Held(snapshot: Snapshot)

  datatype State = State(peer: Peer, column: Column, managed: bool)

  const OFF := Savers(false, [])

  /** How one call to the peer goes: whether its libraries can be listed, the libraries whose POST reports an error,
      and those of them where it took effect all the same. */
  datatype PeerCall = PeerCall(listed: bool, failing: set<LibraryId>, effective: set<LibraryId>)

  /** The fate of every external step of one request. */
  datatype Faults = Faults(
    captureOk: bool, persistOk: bool, disable: PeerCall, flagOk: bool, restore: PeerCall, clearOk: bool)

  const CLEAN_CALL := PeerCall(true, {}, {})

  const NO_FAULTS := Faults(true, true, CLEAN_CALL, true, CLEAN_CALL, true)

  function Capture(peer: Peer): Snapshot {
    map l | l in peer :: peer[l].savers
  }

  function DisableOn(peer: Peer, missed: set<LibraryId>): Peer {
    map l | l in peer :: if l in missed then peer[l] else peer[l].(savers := OFF)
  }

  /** Only libraries the snapshot and the peer both have are replayed. */
  function RestoreOn(peer: Peer, snapshot: Snapshot, missed: set<LibraryId>): Peer {
    map l | l in peer :: if l in snapshot && l !in missed then peer[l].(savers := snapshot[l]) else peer[l]
  }

  /** The libraries a call leaves as they are. */
  function Missed(peer: Peer, call: PeerCall): set<LibraryId> {
    if call.listed then call.failing - call.effective else peer.Keys
  }

  /** The peer after the libraries in `done` have been attempted. */
  function Disabled(peer: Peer, done: set<LibraryId>, missed: set<LibraryId>): Peer {
    map l | l in peer :: if l in done && l !in missed then peer[l].(savers := OFF) else peer[l]
  }

  function Replayed(peer: Peer, snapshot: Snapshot, done: set<LibraryId>, missed: set<LibraryId>): Peer {
    map l | l in peer :: if l in snapshot && l in done && l !in missed then peer[l].(savers := snapshot[l]) else peer[l]
  }

  predicate DisableSucceeds(peer: Peer, call: PeerCall) {
    call.listed && peer.Keys !! call.failing
  }

  predicate RestoreSucceeds(peer: Peer, snapshot: Snapshot, call: PeerCall) {
    call.listed && (peer.Keys * snapshot.Keys) !! call.failing
  }

  // ---------------------------------------------------------------- the states a request passes through

  /** The idempotency guard: the flag already agrees and the column has the shape the flag implies. */
  predicate IsNoOp(s: State, enabled: bool) {
    enabled == s.managed && (s.managed <==> s.column.Held?)
  }

  function RollbackTrace(s: State, snapshot: Snapshot, owned: bool, f: Faults): seq<State> {
    var s1 := s.(peer := RestoreOn(s.peer, snapshot, Missed(s.peer, f.restore)));
    if !owned || !RestoreSucceeds(s.peer, snapshot, f.restore) || !f.clearOk then [s1]
    else [s1, s1.(column := Cleared)]
  }

  function ApplyTrace(s: State, f: Faults): seq<State> {
    var owned := s.column.Cleared?;
    if owned && (!f.captureOk || !f.persistOk) then [] else
    var snapshot := if owned then Capture(s.peer) else s.column.snapshot;
    var s1 := s.(column := Held(snapshot));
    var s2 := s1.(peer := DisableOn(s.peer, Missed(s.peer, f.disable)));
    (if owned then [s1] else []) + [s2] +
    if !DisableSucceeds(s.peer, f.disable) || !f.flagOk then RollbackTrace(s2, snapshot, owned, f)
    else [s2.(managed := true)]
  }

  function ClearTrace(s: State, f: Faults): seq<State> {
    if !f.flagOk then [] else
    var s1 := s.(managed := false);
    match s.column
    case Cleared => [s1] + (if f.clearOk then [s1] else [])
    case Held(snapshot) =>
      var s2 := s1.(peer := RestoreOn(s.peer, snapshot, Missed(s.peer, f.restore)));
      [s1, s2] + if RestoreSucceeds(s.peer, snapshot, f.restore) && f.clearOk then [s2.(column := Cleared)] else []
  }

  function RequestTrace(s: State, enabled: bool, f: Faults): seq<State> {
    if IsNoOp(s, enabled) then [] else if enabled then ApplyTrace(s, f) else ClearTrace(s, f)
  }

  /** The state after the first `cut` steps of a request; a cut inside the trace is a crash. */
  function After(s: State, trace: seq<State>, cut: nat): State {
    if cut == 0 || trace == [] then s
    else if cut <= |trace| then trace[cut - 1]
    else trace[|trace| - 1]
  }

  function Outcome(s: State, enabled: bool, f: Faults): State {
    var trace := RequestTrace(s, enabled, f);
    After(s, trace, |trace|)
  }

  // ---------------------------------------------------------------- the handler

  class Toggle {
    var peer: Peer
    var column: Column
    var managed: bool
    /** Every state an external step has produced, in order. */
    ghost var history: seq<State>

    ghost function Now(): State
      reads this
    {
      State(peer, column, managed)
    }

    constructor (peer: Peer)
      ensures Now() == State(peer, Cleared, false) && history == []
    {
      this.peer, column, managed, history := peer, Cleared, false, [];
    }

    method SetPreStillwaterConfig(value: Column, ok: bool)
      modifies this
      ensures Now() == if ok then old(Now()).(column := value) else old(Now())
      ensures history == if ok then old(history) + [Now()] else old(history)
    {
      if ok {
        column := value;
        history := history + [Now()];
      }
    }

    method SetManageServerFiles(on: bool, ok: bool)
      modifies this
      ensures Now() == if ok then old(Now()).(managed := on) else old(Now())
      ensures history == if ok then old(history) + [Now()] else old(history)
    {
      if ok {
        managed := on;
        history := history + [Now()];
      }
    }

    /** One POST of a library's options. */
    method PostLibraryOptions(l: LibraryId, savers: Savers, call: PeerCall) returns (ok: bool)
      requires l in peer
      modifies this`peer
      ensures ok <==> l !in call.failing
      ensures peer == if l in call.failing - call.effective then old(peer)
                      else old(peer)[l := old(peer)[l].(savers := savers)]
    {
      ok := l !in call.failing;
      if ok || l in call.effective {
        peer := peer[l := peer[l].(savers := savers)];
      }
    }

    /** Every listed library is attempted, whatever happens to the others; success means that all of them are off. */
    method DisableFileWriteBack(call: PeerCall) returns (ok: bool)
      modifies this
      ensures ok <==> DisableSucceeds(old(peer), call)
      ensures ok ==> forall l :: l in old(peer) ==> l in peer && peer[l] == old(peer)[l].(savers := OFF)
      ensures Now() == old(Now()).(peer := DisableOn(old(peer), Missed(old(peer), call)))
      ensures history == old(history) + [Now()]
    {
      ghost var was := peer;
      ok := call.listed;
      var todo := if call.listed then peer.Keys else {};
      ghost var done: set<LibraryId> := {};
      while todo != {}
        invariant column == old(column) && managed == old(managed) && history == old(history)
        invariant call.listed ==> todo == was.Keys - done && done <= was.Keys
        invariant peer == Disabled(was, done, Missed(was, call))
        invariant ok <==> call.listed && done !! call.failing
      {
        var l :| l in todo;
        var posted := PostLibraryOptions(l, OFF, call);
        ok := ok && posted;
        todo := todo - {l};
        done := done + {l};
      }
      history := history + [Now()];
    }

    /** Replays the snapshot on each of its libraries the peer still lists; the others are skipped. Success means
        that every library known to both has its recorded savers back. */
    method RestoreLibraryOptions(snapshot: Snapshot, call: PeerCall) returns (ok: bool)
      modifies this
      ensures ok <==> RestoreSucceeds(old(peer), snapshot, call)
      ensures ok ==> forall l :: l in peer && l in snapshot ==> peer[l].savers == snapshot[l]
      ensures Now() == old(Now()).(peer := RestoreOn(old(peer), snapshot, Missed(old(peer), call)))
      ensures history == old(history) + [Now()]
    {
      ghost var was := peer;
      ok := call.listed;
      var todo := if call.listed then snapshot.Keys else {};
      ghost var done: set<LibraryId> := {};
      while todo != {}
        invariant column == old(column) && managed == old(managed) && history == old(history)
        invariant call.listed ==> todo == snapshot.Keys - done && done <= snapshot.Keys
        invariant peer == Replayed(was, snapshot, done, Missed(was, call))
        invariant ok <==> call.listed && (done * was.Keys) !! call.failing
      {
        var l :| l in todo;
        if l in peer {
          var posted := PostLibraryOptions(l, snapshot[l], call);
          ok := ok && posted;
        }
        todo := todo - {l};
        done := done + {l};
      }
      history := history + [Now()];
    }

    method RollbackStillwaterManaged(snapshot: Snapshot, owned: bool, f: Faults)
      modifies this
      ensures history == old(history) + RollbackTrace(old(Now()), snapshot, owned, f)
      ensures Now() == history[|history| - 1]
    {
      var restored := RestoreLibraryOptions(snapshot, f.restore);
      if !owned || !restored {
        return;
      }
      SetPreStillwaterConfig(Cleared, f.clearOk);
    }

    method ApplyStillwaterManaged(f: Faults) returns (ok: bool)
      modifies this
      ensures history == old(history) + ApplyTrace(old(Now()), f)
      ensures Now() == After(old(Now()), ApplyTrace(old(Now()), f), |ApplyTrace(old(Now()), f)|)
      ensures ok ==> managed && column.Held?
      ensures ok <==>
              (old(column).Held? || (f.captureOk && f.persistOk)) && DisableSucceeds(old(peer), f.disable) && f.flagOk
    {
      var owned := column == Cleared;
      var snapshot: Snapshot;
      if owned {
        if !f.captureOk {
          return false;
        }
        snapshot := Capture(peer);
        SetPreStillwaterConfig(Held(snapshot), f.persistOk);
        if !f.persistOk {
          return false;
        }
      } else {
        snapshot := column.snapshot;
      }
      var disabled := DisableFileWriteBack(f.disable);
      if !disabled {
        RollbackStillwaterManaged(snapshot, owned, f);
        return false;
      }
      SetManageServerFiles(true, f.flagOk);
      if !f.flagOk {
        RollbackStillwaterManaged(snapshot, owned, f);
        return false;
      }
      return true;
    }

    method ClearStillwaterManaged(f: Faults) returns (ok: bool)
      modifies this
      ensures history == old(history) + ClearTrace(old(Now()), f)
      ensures Now() == After(old(Now()), ClearTrace(old(Now()), f), |ClearTrace(old(Now()), f)|)
      ensures ok ==> !managed && column == Cleared
      ensures ok <==> f.flagOk && f.clearOk
                      && (old(column).Held? ==> RestoreSucceeds(old(peer), old(column).snapshot, f.restore))
    {
      var held := column;
      SetManageServerFiles(false, f.flagOk);
      if !f.flagOk {
        return false;
      }
      if held.Held? {
        var restored := RestoreLibraryOptions(held.snapshot, f.restore);
        if !restored {
          return false;
        }
      }
      SetPreStillwaterConfig(Cleared, f.clearOk);
      return f.clearOk;
    }

    /** One POST of the toggle, with the connection's write lock held throughout. */
    method HandleSetStillwaterManaged(enabled: bool, f: Faults) returns (ok: bool)
      modifies this
      ensures history == old(history) + RequestTrace(old(Now()), enabled, f)
      ensures Now() == Outcome(old(Now()), enabled, f)
      ensures ok ==> managed == enabled && (managed <==> column.Held?)
      ensures old(managed ==> column.Held?) ==> (ok <==> IsNoOp(Now(), enabled))
    {
      var consistent := (managed && column != Cleared) || (!managed && column == Cleared);
      if enabled == managed && consistent {
        return true;
      }
      if enabled {
        ok := ApplyStillwaterManaged(f);
      } else {
        ok := ClearStillwaterManaged(f);
      }
    }
  }

  // ---------------------------------------------------------------- safety

  /** What must hold between any two steps, `original` being the configuration the user wants back. */
  ghost predicate Safe(original: Peer, s: State) {
    && s.peer.Keys == original.Keys
    && (s.column.Cleared? ==> s.peer == original)
    && (s.column.Held? ==>
          && s.column.snapshot == Capture(original)
          && forall l :: l in original ==> s.peer[l] == original[l] || s.peer[l] == original[l].(savers := OFF))
    && (s.managed ==> s.column.Held? && forall l :: l in s.peer ==> s.peer[l].savers == OFF)
  }

  lemma RestoreFromCaptureIsSafe(original: Peer, s: State, call: PeerCall)
    requires Safe(original, s) && s.column.Held? && !s.managed
    ensures Safe(original, s.(peer := RestoreOn(s.peer, s.column.snapshot, Missed(s.peer, call))))
    ensures RestoreSucceeds(s.peer, s.column.snapshot, call) ==>
              RestoreOn(s.peer, s.column.snapshot, Missed(s.peer, call)) == original
  {
    var p := RestoreOn(s.peer, s.column.snapshot, Missed(s.peer, call));
    assert forall l :: l in original ==> p[l] == original[l] || p[l] == s.peer[l];
  }

  /** Every state a request passes through is safe, whichever steps fail and however far each peer call gets. */
  lemma RequestStaysSafe(original: Peer, s: State, enabled: bool, f: Faults)
    requires Safe(original, s)
    ensures forall i :: 0 <= i < |RequestTrace(s, enabled, f)| ==> Safe(original, RequestTrace(s, enabled, f)[i])
  {
    if IsNoOp(s, enabled) {
    } else if enabled {
      var snapshot := if s.column.Cleared? then Capture(s.peer) else s.column.snapshot;
      var s2 := State(DisableOn(s.peer, Missed(s.peer, f.disable)), Held(snapshot), s.managed);
      assert Safe(original, s.(column := Held(snapshot)));
      assert Safe(original, s2);
      RestoreFromCaptureIsSafe(original, s2, f.restore);
    } else if s.column.Held? {
      RestoreFromCaptureIsSafe(original, s.(managed := false), f.restore);
    }
  }

  // ---------------------------------------------------------------- convergence

  /** The goal of an enable and of a disable. */
  ghost predicate AtTarget(original: Peer, s: State, enabled: bool) {
    if enabled then s == State(DisableOn(original, {}), Held(Capture(original)), true)
    else s == State(original, Cleared, false)
  }

  /** The idempotency guard fires exactly when the requested state, peer included, is already there. */
  lemma NoOpExactlyAtTarget(original: Peer, s: State, enabled: bool)
    requires Safe(original, s)
    ensures IsNoOp(s, enabled) <==> AtTarget(original, s, enabled)
  {
    if IsNoOp(s, enabled) && enabled {
      forall l | l in original ensures s.peer[l] == DisableOn(original, {})[l] {
        assert s.peer[l].savers == OFF;
      }
    }
  }

  lemma CleanRequestReachesTarget(original: Peer, s: State, enabled: bool)
    requires Safe(original, s)
    ensures AtTarget(original, Outcome(s, enabled, NO_FAULTS), enabled)
  {
    NoOpExactlyAtTarget(original, s, enabled);
    if !IsNoOp(s, enabled) {
      if enabled {
        assert DisableOn(s.peer, {}) == DisableOn(original, {});
      } else if s.column.Held? {
        RestoreFromCaptureIsSafe(original, s.(managed := false), NO_FAULTS.restore);
      }
    }
  }

  // ---------------------------------------------------------------- failed enables

  /** An enable that does not succeed: its own capture, the disable or the flag fails. */
  predicate EnableFails(s: State, f: Faults) {
    (s.column.Cleared? && !(f.captureOk && f.persistOk)) || !DisableSucceeds(s.peer, f.disable) || !f.flagOk
  }

  /** An enable that captures its own snapshot leaves exactly the state it started from if and only if the capture
      failed, or a later step failed and the rollback's restore and clear both succeeded. */
  lemma FailedEnableLeavesNoTrace(s: State, f: Faults)
    requires s.column.Cleared? && !s.managed
    ensures Outcome(s, true, f) == s <==>
            || !f.captureOk || !f.persistOk
            || (EnableFails(s, f) && RestoreSucceeds(s.peer, Capture(s.peer), f.restore) && f.clearOk)
  {
    if f.captureOk && f.persistOk && EnableFails(s, f) {
      var disabled := DisableOn(s.peer, Missed(s.peer, f.disable));
      assert Capture(s.peer).Keys == disabled.Keys == s.peer.Keys;
      if RestoreSucceeds(s.peer, Capture(s.peer), f.restore) {
        assert Missed(disabled, f.restore) !! disabled.Keys;
        assert RestoreOn(disabled, Capture(s.peer), Missed(disabled, f.restore)) == s.peer;
      }
    }
  }

  /** Whatever snapshot it used, an enable that fails after it and whose rollback's restore succeeds gives the peer
      back, unmanaged. */
  lemma FailedEnableGivesPeerBack(original: Peer, s: State, f: Faults)
    requires Safe(original, s) && !s.managed && EnableFails(s, f)
    requires s.column.Cleared? ==> f.captureOk && f.persistOk
    requires RestoreSucceeds(s.peer, Capture(original), f.restore)
    ensures Outcome(s, true, f).peer == original && !Outcome(s, true, f).managed
    ensures s.column.Held? ==> Outcome(s, true, f).column == s.column
  {
    var column := if s.column.Held? then s.column else Held(Capture(original));
    var s2 := State(DisableOn(s.peer, Missed(s.peer, f.disable)), column, false);
    assert Safe(original, s2);
    RestoreFromCaptureIsSafe(original, s2, f.restore);
  }

  // ---------------------------------------------------------------- edits made while a snapshot is held

  /** An edit made under a held snapshot survives the next clean disable exactly when it left the savers of
      every snapshotted library at their snapshotted values. */
  lemma EditUnderSnapshotSurvivesDisable(s: State, edited: Peer)
    requires s.column.Held?
    ensures Outcome(s.(peer := edited), false, NO_FAULTS).peer == edited <==>
            forall l :: l in edited && l in s.column.snapshot ==> edited[l].savers == s.column.snapshot[l]
  {
    var snapshot := s.column.snapshot;
    var after := Outcome(s.(peer := edited), false, NO_FAULTS);
    assert after.peer == RestoreOn(edited, snapshot, {});
    if after.peer == edited {
      forall l | l in edited && l in snapshot ensures edited[l].savers == snapshot[l] {
        assert after.peer[l] == edited[l].(savers := snapshot[l]);
      }
    }
  }

  /** An edit made under a held snapshot survives a clean enable followed by a clean disable exactly when, in
      addition, every library the snapshot does not know already had its savers off. */
  lemma EditUnderSnapshotSurvivesCycle(s: State, edited: Peer)
    requires s.column.Held? && !s.managed
    ensures Outcome(Outcome(s.(peer := edited), true, NO_FAULTS), false, NO_FAULTS).peer == edited <==>
            forall l :: l in edited ==>
              edited[l].savers == if l in s.column.snapshot then s.column.snapshot[l] else OFF
  {
    var snapshot := s.column.snapshot;
    var on := Outcome(s.(peer := edited), true, NO_FAULTS);
    assert on == State(DisableOn(edited, {}), s.column, true);
    var after := Outcome(on, false, NO_FAULTS);
    assert after.peer == RestoreOn(on.peer, snapshot, {});
    assert forall l :: l in edited ==>
      after.peer[l] == edited[l].(savers := if l in snapshot then snapshot[l] else OFF);
    if after.peer == edited {
      forall l | l in edited ensures edited[l].savers == if l in snapshot then snapshot[l] else OFF {
        assert after.peer[l] == edited[l];
      }
    }
  }

  lemma CleanEnable(p: Peer, column: Column)
    ensures Outcome(State(p, column, false), true, NO_FAULTS) ==
            State(DisableOn(p, {}), if column.Cleared? then Held(Capture(p)) else column, true)
  {
  }

  lemma CleanRestore(p: Peer, snapshot: Snapshot, clearOk: bool)
    ensures Outcome(State(p, Held(snapshot), true), false, NO_FAULTS.(clearOk := clearOk)) ==
            State(RestoreOn(p, snapshot, {}), if clearOk then Cleared else Held(snapshot), false)
  {
  }

  /** The stale snapshot is real: enable, disable with the final column clear failing, edit, enable, disable
      hands back the configuration from before the edit. */
  lemma StaleSnapshotLosesAnEdit(lib: LibraryId, savers: Savers, newer: Savers, other: string)
    requires savers != newer
    ensures var before := map[lib := Options(savers, other)];
            var edited := map[lib := Options(newer, other)];
            var enabled := Outcome(State(before, Cleared, false), true, NO_FAULTS);
            var stale := Outcome(enabled, false, NO_FAULTS.(clearOk := false));
            var again := Outcome(stale.(peer := edited), true, NO_FAULTS);
            && stale == State(before, Held(Capture(before)), false)
            && Outcome(again, false, NO_FAULTS) == State(before, Cleared, false) != State(edited, Cleared, false)
  {
    var before := map[lib := Options(savers, other)];
    var edited := map[lib := Options(newer, other)];
    var off := map[lib := Options(OFF, other)];
    var snapshot := map[lib := savers];
    assert Capture(before) == snapshot && DisableOn(before, {}) == off && DisableOn(edited, {}) == off;
    assert RestoreOn(off, snapshot, {}) == before && before[lib] != edited[lib];
    CleanEnable(before, Cleared);
    CleanRestore(off, snapshot, false);
    CleanEnable(edited, Held(snapshot));
    CleanRestore(off, snapshot, true);
  }
}
