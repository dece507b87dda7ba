/** Whole runs of the "let Stillwater manage this server" toggle, one step at a time: requests, crashes, the user's
    edits, and the conflict detector (internal/conflict/detector.go), which re-disables the savers of connections it
    has listed as managed and takes no lock. */
module ToggleRuns {
  import opened ManagedToggle

  // ---------------------------------------------------------------- a request step by step

  /** Where a request stands; `owned` says that it captured the snapshot itself. */
  datatype Pc =
    | Idle
    | Capturing
    | Disabling(owned: bool)
    | Flagging(owned: bool)
    | RollingBack(owned: bool)
    | Unflagging
    | Restoring
    | Clearing

  function Begin(s: State, enabled: bool): Pc {
    if IsNoOp(s, enabled) then Idle
    else if !enabled then Unflagging
    else if s.column.Cleared? then Capturing
    else Disabling(false)
  }

  function SnapshotOf(s: State): Snapshot {
    if s.column.Held? then s.column.snapshot else map[]
  }

  function Restored(s: State, call: PeerCall): State {
    s.(peer := RestoreOn(s.peer, SnapshotOf(s), Missed(s.peer, call)))
  }

  function Pushed(s: State, call: PeerCall): State {
    s.(peer := DisableOn(s.peer, Missed(s.peer, call)))
  }

  /** One external step of a request. */
  function Next(s: State, pc: Pc, f: Faults): (State, Pc)
    requires pc != Idle
  {
    match pc
    case Capturing =>
      if f.captureOk && f.persistOk then (s.(column := Held(Capture(s.peer))), Disabling(true)) else (s, Idle)
    case Disabling(owned) =>
      (Pushed(s, f.disable), if DisableSucceeds(s.peer, f.disable) then Flagging(owned) else RollingBack(owned))
    case Flagging(owned) => if f.flagOk then (s.(managed := true), Idle) else (s, RollingBack(owned))
    case RollingBack(owned) =>
      (Restored(s, f.restore), if owned && RestoreSucceeds(s.peer, SnapshotOf(s), f.restore) then Clearing else Idle)
    case Unflagging =>
      if f.flagOk then (s.(managed := false), if s.column.Held? then Restoring else Clearing) else (s, Idle)
    case Restoring =>
      (Restored(s, f.restore), if RestoreSucceeds(s.peer, SnapshotOf(s), f.restore) then Clearing else Idle)
    case Clearing => (if f.clearOk then s.(column := Cleared) else s, Idle)
  }

  function StepsLeft(pc: Pc): nat {
    match pc
    case Idle => 0
    case Clearing => 1
    case RollingBack(_) => 2
    case Restoring => 2
    case Flagging(_) => 3
    case Unflagging => 3
    case Disabling(_) => 4
    case Capturing => 5
  }

  /** The step changes something; a failed capture or database statement does not. */
  predicate Takes(pc: Pc, f: Faults) {
    match pc
    case Capturing => f.captureOk && f.persistOk
    case Flagging(_) => f.flagOk
    case Unflagging => f.flagOk
    case Clearing => f.clearOk
    case _ => true
  }

  /** The states a request passes through when nothing comes between its steps. */
  function Moves(s: State, pc: Pc, f: Faults): seq<State>
    decreases StepsLeft(pc)
  {
    if pc == Idle then []
    else
      var (s', pc') := Next(s, pc, f);
      (if Takes(pc, f) then [s'] else []) + Moves(s', pc', f)
  }

  lemma RollbackMoves(s: State, owned: bool, f: Faults)
    requires s.column.Held?
    ensures Moves(s, RollingBack(owned), f) == RollbackTrace(s, s.column.snapshot, owned, f)
  {
  }

  lemma DisableMoves(s: State, owned: bool, f: Faults)
    requires s.column.Held?
    ensures var s2 := Pushed(s, f.disable);
            Moves(s, Disabling(owned), f) ==
            [s2] + if !DisableSucceeds(s.peer, f.disable) || !f.flagOk
                   then RollbackTrace(s2, s.column.snapshot, owned, f) else [s2.(managed := true)]
  {
    var s2 := Pushed(s, f.disable);
    RollbackMoves(s2, owned, f);
  }

  lemma EnableMoves(s: State, f: Faults)
    ensures Moves(s, if s.column.Cleared? then Capturing else Disabling(false), f) == ApplyTrace(s, f)
  {
    var owned := s.column.Cleared?;
    DisableMoves(s.(column := if owned then Held(Capture(s.peer)) else s.column), owned, f);
  }

  lemma ClearMoves(s: State, f: Faults)
    ensures Moves(s, Unflagging, f) == ClearTrace(s, f)
  {
  }

  /** Left alone, a request passes through exactly the states of its trace. */
  lemma MovesAreTheTrace(s: State, enabled: bool, f: Faults)
    ensures Moves(s, Begin(s, enabled), f) == RequestTrace(s, enabled, f)
  {
    if enabled {
      EnableMoves(s, f);
    } else {
      ClearMoves(s, f);
    }
  }

  // ---------------------------------------------------------------- the whole system

  /** `original` is what the user expects to get back; `listed` is the managed flag as the detector last read it. */
  datatype World = World(state: State, original: Peer, pc: Pc, faults: Faults, listed: bool)

  datatype Event =
    | Start(enabled: bool, faults: Faults)   // a request takes the connection's lock and reads the row
    | Go                                     // its next external step
    | Crash                                  // it dies
    | Edit(peer: Peer)                       // the user changes the peer's options
    | List                                   // the detector lists the connections
    | Push(call: PeerCall)                   // the detector disables the savers of a connection listed as managed

  predicate Possible(w: World, e: Event) {
    match e
    case Start(_, _) => w.pc == Idle
    case Go => w.pc != Idle
    case Push(_) => w.listed
    case _ => true
  }

  function Step(w: World, e: Event): World
    requires Possible(w, e)
  {
    match e
    case Start(enabled, f) => w.(pc := Begin(w.state, enabled), faults := f)
    case Go => var (s, pc) := Next(w.state, w.pc, w.faults); w.(state := s, pc := pc)
    case Crash => w.(pc := Idle)
    case Edit(p) => w.(state := w.state.(peer := p), original := p)
    case List => w.(listed := w.state.managed)
    case Push(call) => w.(state := Pushed(w.state, call))
  }

  function Fresh(peer: Peer): World {
    World(State(peer, Cleared, false), peer, Idle, NO_FAULTS, false)
  }

  // ---------------------------------------------------------------- what every step keeps

  ghost predicate AllOff(peer: Peer) {
    forall l :: l in peer ==> peer[l].savers == OFF
  }

  /** Safe, and ready for what the running request will do next. */
  ghost predicate Inv(w: World) {
    Safe(w.original, w.state) &&
    match w.pc
    case Idle => true
    case Unflagging => true
    case Capturing => w.state.column.Cleared?
    case Disabling(_) => w.state.column.Held? && !w.state.managed
    case Flagging(_) => w.state.column.Held? && !w.state.managed && AllOff(w.state.peer)
    case RollingBack(_) => w.state.column.Held? && !w.state.managed
    case Restoring => w.state.column.Held? && !w.state.managed
    case Clearing => w.state.peer == w.original && !w.state.managed
  }

  /** The push reaches no library whose savers are on. */
  ghost predicate ChangesNothing(s: State, call: PeerCall) {
    forall l :: l in s.peer && l !in Missed(s.peer, call) ==> s.peer[l].savers == OFF
  }

  /** A snapshot is held and no request is about to clear it, or the push changes nothing. */
  ghost predicate PushIsHarmless(w: World, call: PeerCall) {
    (w.state.column.Held? && w.pc != Clearing) || ChangesNothing(w.state, call)
  }

  lemma IdlePush(s: State, call: PeerCall)
    ensures Pushed(s, call) == s <==> ChangesNothing(s, call)
  {
    var p := DisableOn(s.peer, Missed(s.peer, call));
    if Pushed(s, call) == s {
      forall l | l in s.peer && l !in Missed(s.peer, call) ensures s.peer[l].savers == OFF {
        assert p[l] == s.peer[l];
      }
    }
    if ChangesNothing(s, call) {
      assert forall l :: l in s.peer ==> p[l] == s.peer[l];
    }
  }

  /** A detector step keeps the invariant exactly when it is harmless. */
  lemma PushKeepsInvExactly(w: World, call: PeerCall)
    requires Inv(w) && w.listed
    ensures Inv(Step(w, Push(call))) <==> PushIsHarmless(w, call)
  {
    var p := DisableOn(w.state.peer, Missed(w.state.peer, call));
    IdlePush(w.state, call);
    if w.state.column.Held? && w.pc != Clearing {
      assert forall l :: l in p ==> p[l] == w.state.peer[l] || p[l] == w.original[l].(savers := OFF);
    }
  }

  /** Between steps, a push on a connection that is managed at that moment changes nothing. */
  lemma CurrentFlagIsHarmless(w: World, call: PeerCall)
    requires Inv(w) && w.state.managed
    ensures PushIsHarmless(w, call) && Pushed(w.state, call) == w.state
  {
    IdlePush(w.state, call);
  }

  /** The savers somebody switched on while the connection is managed are all off again after a complete push. */
  lemma PushUndoesDrift(original: Peer, s: State)
    requires s.managed && s.column == Held(Capture(original)) && s.peer.Keys == original.Keys
    requires forall l :: l in original ==> s.peer[l].other == original[l].other
    ensures AtTarget(original, Pushed(s, CLEAN_CALL), true)
  {
    assert DisableOn(s.peer, {}) == DisableOn(original, {});
  }

  /** Edits keep away from a held snapshot, and pushes are harmless. */
  ghost predicate Harmless(w: World, e: Event) {
    match e
    case Edit(_) => w.state.column.Cleared?
    case Push(call) => PushIsHarmless(w, call)
    case _ => true
  }

  lemma DisablingKeepsInv(w: World)
    requires Inv(w) && w.pc.Disabling?
    ensures Inv(Step(w, Go))
  {
    var p := DisableOn(w.state.peer, Missed(w.state.peer, w.faults.disable));
    assert forall l :: l in p ==> p[l] == w.state.peer[l] || p[l] == w.original[l].(savers := OFF);
  }

  lemma RestoringKeepsInv(w: World)
    requires Inv(w) && (w.pc.RollingBack? || w.pc == Restoring)
    ensures Inv(Step(w, Go))
  {
    RestoreFromCaptureIsSafe(w.original, w.state, w.faults.restore);
  }

  lemma GoKeepsInv(w: World)
    requires Inv(w) && w.pc != Idle
    ensures Inv(Step(w, Go))
  {
    if w.pc.Disabling? {
      DisablingKeepsInv(w);
    } else if w.pc.RollingBack? || w.pc == Restoring {
      RestoringKeepsInv(w);
    }
  }

  lemma StepKeepsInv(w: World, e: Event)
    requires Inv(w) && Possible(w, e) && Harmless(w, e)
    ensures Inv(Step(w, e))
  {
    match e {
      case Go => GoKeepsInv(w);
      case Push(call) => PushKeepsInvExactly(w, call);
      case _ =>
    }
  }

  /** A run whose every event is possible and harmless when it comes. */
  ghost predicate HarmlessRun(w: World, events: seq<Event>)
    decreases |events|
  {
    events == [] ||
    (Possible(w, events[0]) && Harmless(w, events[0]) && HarmlessRun(Step(w, events[0]), events[1..]))
  }

  ghost function Run(w: World, events: seq<Event>): World
    requires HarmlessRun(w, events)
    decreases |events|
  {
    if events == [] then w else Run(Step(w, events[0]), events[1..])
  }

  lemma {:induction false} RunKeepsInv(w: World, events: seq<Event>)
    requires Inv(w) && HarmlessRun(w, events)
    ensures Inv(Run(w, events))
    decreases |events|
  {
    if events != [] {
      StepKeepsInv(w, events[0]);
      RunKeepsInv(Step(w, events[0]), events[1..]);
    }
  }

  /** Wherever a run has got to, its state is safe, and were everything to stop there, one clean disable would give
      the user's configuration back and one clean enable would disarm every library. */
  lemma RunStaysSafe(peer: Peer, events: seq<Event>, enabled: bool)
    requires HarmlessRun(Fresh(peer), events)
    ensures var w := Run(Fresh(peer), events);
            Safe(w.original, w.state) && AtTarget(w.original, Outcome(w.state, enabled, NO_FAULTS), enabled)
  {
    RunKeepsInv(Fresh(peer), events);
    var w := Run(Fresh(peer), events);
    CleanRequestReachesTarget(w.original, w.state, enabled);
  }

  // ---------------------------------------------------------------- a stale flag

  /** A push on a connection that has been handed back, by a detector that read the flag before: the next clean
      enable and disable give the original back exactly when the push changed nothing. */
  lemma StalePushLosesExactly(original: Peer, call: PeerCall)
    ensures var s := State(original, Cleared, false);
            Outcome(Outcome(Pushed(s, call), true, NO_FAULTS), false, NO_FAULTS).peer == original <==>
            ChangesNothing(s, call)
  {
    var s := State(original, Cleared, false);
    var p := Pushed(s, call).peer;
    IdlePush(s, call);
    CleanRequestReachesTarget(p, Pushed(s, call), true);
    CleanRequestReachesTarget(p, Outcome(Pushed(s, call), true, NO_FAULTS), false);
  }

  /** The events of one clean request, one after the other. */
  function Manage(w: World): World
    requires w.pc == Idle && w.state.column.Cleared? && !w.state.managed
  {
    Step(Step(Step(Step(w, Start(true, NO_FAULTS)), Go), Go), Go)
  }

  function HandBack(w: World): World
    requires w.pc == Idle && w.state.column.Held? && w.state.managed
    requires w.state.peer.Keys == w.state.column.snapshot.Keys
  {
    Step(Step(Step(Step(w, Start(false, NO_FAULTS)), Go), Go), Go)
  }

  lemma ManageMeans(w: World)
    requires w.pc == Idle && w.state.column.Cleared? && !w.state.managed
    ensures var p := w.state.peer;
            Manage(w) == w.(state := State(DisableOn(p, {}), Held(Capture(p)), true), faults := NO_FAULTS)
  {
  }

  lemma HandBackMeans(w: World)
    requires w.pc == Idle && w.state.column.Held? && w.state.managed
    requires w.state.peer.Keys == w.state.column.snapshot.Keys
    ensures var p := RestoreOn(w.state.peer, w.state.column.snapshot, {});
            HandBack(w) == w.(state := State(p, Cleared, false), faults := NO_FAULTS)
  {
  }

  lemma HandedBack(peer: Peer)
    ensures RestoreOn(DisableOn(peer, {}), Capture(peer), {}) == peer
  {
    assert forall l :: l in peer ==> peer[l].(savers := OFF).(savers := peer[l].savers) == peer[l];
  }

  /** Enabled, listed and handed back: all is as it was, but for what the detector believes. */
  lemma BackWithAStaleFlag(before: Peer)
    ensures HandBack(Step(Manage(Fresh(before)), List)) == Fresh(before).(listed := true)
  {
    ManageMeans(Fresh(before));
    HandBackMeans(Step(Manage(Fresh(before)), List));
    HandedBack(before);
  }

  /** It happens: enable, the detector lists the connection as managed, a clean disable, the detector pushes. Any
      configuration with a saver on is lost. */
  lemma DetectorLosesTheOriginal(before: Peer)
    requires !AllOff(before)
    ensures var back := HandBack(Step(Manage(Fresh(before)), List));
            && Inv(back) && back.state == State(before, Cleared, false) && Possible(back, Push(CLEAN_CALL))
            && var lost := Step(back, Push(CLEAN_CALL));
               && !Safe(before, lost.state)
               && Outcome(Outcome(lost.state, true, NO_FAULTS), false, NO_FAULTS).peer != before
  {
    BackWithAStaleFlag(before);
    LostFromHere(before);
  }

  lemma LostFromHere(before: Peer)
    requires !AllOff(before)
    ensures var s := State(before, Cleared, false);
            && !Safe(before, Pushed(s, CLEAN_CALL))
            && Outcome(Outcome(Pushed(s, CLEAN_CALL), true, NO_FAULTS), false, NO_FAULTS).peer != before
  {
    StalePushLosesExactly(before, CLEAN_CALL);
    IdlePush(State(before, Cleared, false), CLEAN_CALL);
  }
}
