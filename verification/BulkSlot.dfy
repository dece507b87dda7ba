/** The slot shared by bulk actions and fanart repairs (internal/api/handlers_bulk_actions.go and
    internal/api/handlers_backdrop_repair.go): requests interleave at every step that takes or drops a lock, and
    a worker's epilogue takes only its own record's lock. */
module BulkSlot {
  import opened Wrappers

  type RequestId = nat
  type RunId = nat

  /** A progress record: is its status "running", is its cancel function set, has its context been cancelled. */
  datatype Record = Record(running: bool, cancelSet: bool, canceled: bool)

  /** Where a request (or the worker it started) stands. */
  datatype Pc =
    | Idle
    | StartLocked                // holds the slot mutex, has looked at nothing yet
    | StartLooked(busy: bool)    // holds the mutex, has read the status of the record in the slot
    | Claimed(run: RunId)        // its record is in the slot, mutex dropped, services not checked yet
    | Releasing(run: RunId)      // a required service is missing
    | Working(run: RunId)        // the worker is running
    | RepairLocked
    | RepairLooked(busy: bool)
    | Repairing
    | CancelRead(run: RunId)     // has read the slot
    | CancelArmed(run: RunId)    // saw the record running with a cancel function

  datatype State = State(
    slot: Option<RunId>, repair: bool, mutex: Option<RequestId>,
    records: map<RunId, Record>, pc: map<RequestId, Pc>)

  const INITIAL := State(None, false, None, map[], map[])

  function At(s: State, t: RequestId): Pc {
    if t in s.pc then s.pc[t] else Idle
  }

  function Move(s: State, t: RequestId, pc: Pc): State {
    s.(pc := s.pc[t := pc])
  }

  predicate SlotRunning(s: State) {
    s.slot.Some? && s.slot.value in s.records && s.records[s.slot.value].running
  }

  datatype Action =
    | StartLock | StartLook | StartReject | StartClaim(run: RunId) | StartFail | StartRelease | Launch | Finish
    | RepairLock | RepairLook | RepairReject | RepairClaim | RepairRelease
    | CancelLook | CancelCheck | CancelFire

  /** When request t may take a step. */
  predicate Enabled(s: State, t: RequestId, a: Action) {
    var pc := At(s, t);
    match a
    case StartLock => pc == Idle && s.mutex.None?
    case StartLook => pc == StartLocked
    case StartReject => pc.StartLooked? && (pc.busy || s.repair)
    case StartClaim(run) => pc.StartLooked? && !pc.busy && !s.repair && run !in s.records
    case StartFail => pc.Claimed?
    case StartRelease => pc.Releasing? && s.mutex.None?
    case Launch => pc.Claimed? && pc.run in s.records
    case Finish => pc.Working? && pc.run in s.records
    case RepairLock => pc == Idle && s.mutex.None?
    case RepairLook => pc == RepairLocked
    case RepairReject => pc.RepairLooked? && (pc.busy || s.repair)
    case RepairClaim => pc.RepairLooked? && !pc.busy && !s.repair
    case RepairRelease => pc == Repairing && s.mutex.None?
    case CancelLook => pc == Idle && s.mutex.None? && s.slot.Some?
    case CancelCheck => pc.CancelRead? && pc.run in s.records
    case CancelFire => pc.CancelArmed? && pc.run in s.records
  }

  function Step(s: State, t: RequestId, a: Action): State
    requires Enabled(s, t, a)
  {
    var pc := At(s, t);
    match a
    case StartLock => Move(s.(mutex := Some(t)), t, StartLocked)
    case StartLook => Move(s, t, StartLooked(SlotRunning(s)))
    case StartReject => Move(s.(mutex := None), t, Idle)
    case StartClaim(run) =>
      var records := s.records[run := Record(true, false, false)];
      Move(s.(mutex := None, slot := Some(run), records := records), t, Claimed(run))
    case StartFail => Move(s, t, Releasing(pc.run))
    case StartRelease => Move(s.(slot := if s.slot == Some(pc.run) then None else s.slot), t, Idle)
    case Launch => Move(s.(records := s.records[pc.run := s.records[pc.run].(cancelSet := true)]), t, Working(pc.run))
    case Finish =>
      Move(s.(records := s.records[pc.run := s.records[pc.run].(running := false, cancelSet := false)]), t, Idle)
    case RepairLock => Move(s.(mutex := Some(t)), t, RepairLocked)
    case RepairLook => Move(s, t, RepairLooked(SlotRunning(s)))
    case RepairReject => Move(s.(mutex := None), t, Idle)
    case RepairClaim => Move(s.(mutex := None, repair := true), t, Repairing)
    case RepairRelease => Move(s.(repair := false), t, Idle)
    case CancelLook => Move(s, t, CancelRead(s.slot.value))
    case CancelCheck =>
      var record := s.records[pc.run];
      Move(s, t, if record.running && record.cancelSet then CancelArmed(pc.run) else Idle)
    case CancelFire => Move(s.(records := s.records[pc.run := s.records[pc.run].(canceled := true)]), t, Idle)
  }

  // ---------------------------------------------------------------- the invariant

  /** The request owns the run in the slot: claimed, failing to start, or working. */
  predicate Owns(pc: Pc) {
    pc.Claimed? || pc.Releasing? || pc.Working?
  }

  predicate HoldsMutex(pc: Pc) {
    pc == StartLocked || pc.StartLooked? || pc == RepairLocked || pc.RepairLooked?
  }

  /** Has looked at the slot and found nothing running. */
  predicate SawFree(pc: Pc) {
    (pc.StartLooked? || pc.RepairLooked?) && !pc.busy
  }

  /** The mutex has the holder its program counters say. */
  ghost predicate MutexInv(s: State) {
    forall t: RequestId :: HoldsMutex(At(s, t)) <==> s.mutex == Some(t)
  }

  /** An owner's record is the one in the slot and is running; there is one owner at most. */
  ghost predicate OwnerInv(s: State) {
    && (forall t: RequestId :: Owns(At(s, t)) ==> s.slot == Some(At(s, t).run) && SlotRunning(s))
    && (forall t: RequestId, u: RequestId :: Owns(At(s, t)) && Owns(At(s, u)) ==> t == u)
  }

  /** One repair at most, flagged, and never beside an owner. */
  ghost predicate RepairInv(s: State) {
    && (forall t: RequestId, u: RequestId :: At(s, t) == Repairing && At(s, u) == Repairing ==> t == u)
    && (forall t: RequestId :: At(s, t) == Repairing ==> s.repair)
    && (forall t: RequestId, u: RequestId :: At(s, t) == Repairing ==> !Owns(At(s, u)))
  }

  /** Nothing starts behind the back of a request that saw the slot free. */
  ghost predicate FreeInv(s: State) {
    forall t: RequestId, u: RequestId :: SawFree(At(s, t)) ==> !Owns(At(s, u))
  }

  /** A busy slot has somebody who will free it. */
  ghost predicate BusyInv(s: State) {
    && (SlotRunning(s) ==> exists t: RequestId :: Owns(At(s, t)))
    && (s.repair ==> exists t: RequestId :: At(s, t) == Repairing)
  }

  /** Records outlive their runs. */
  ghost predicate RecordInv(s: State) {
    && (s.slot.Some? ==> s.slot.value in s.records)
    && (forall t: RequestId :: At(s, t).CancelRead? || At(s, t).CancelArmed? ==> At(s, t).run in s.records)
  }

  ghost predicate Inv(s: State) {
    MutexInv(s) && OwnerInv(s) && RepairInv(s) && FreeInv(s) && BusyInv(s) && RecordInv(s)
  }

  lemma InvInitially()
    ensures Inv(INITIAL)
  {
  }

  /** Every other request stands where it stood. */
  lemma OthersStay(s: State, t: RequestId, a: Action)
    requires Enabled(s, t, a)
    ensures forall u: RequestId :: u != t ==> At(Step(s, t, a), u) == At(s, u)
  {
  }

  lemma MutexPreserved(s: State, t: RequestId, a: Action)
    requires MutexInv(s) && Enabled(s, t, a)
    ensures MutexInv(Step(s, t, a))
  {
    OthersStay(s, t, a);
    assert HoldsMutex(At(s, t)) <==> s.mutex == Some(t);
  }

  /** A request that owns a run after a step owned the same run before, or has just claimed it. */
  lemma OwnersComeFrom(s: State, t: RequestId, a: Action, u: RequestId)
    requires Enabled(s, t, a) && Owns(At(Step(s, t, a), u))
    ensures (u == t && a.StartClaim? && At(Step(s, t, a), u).run == a.run)
            || (Owns(At(s, u)) && At(s, u).run == At(Step(s, t, a), u).run)
  {
    OthersStay(s, t, a);
  }

  lemma OwnerKeepsItsRecord(s: State, t: RequestId, a: Action, u: RequestId)
    requires Inv(s) && Enabled(s, t, a) && Owns(At(Step(s, t, a), u))
    ensures Step(s, t, a).slot == Some(At(Step(s, t, a), u).run) && SlotRunning(Step(s, t, a))
  {
    OwnersComeFrom(s, t, a, u);
    if a.StartClaim? {
      assert SawFree(At(s, t));
    } else {
      assert Owns(At(s, u)) && s.slot == Some(At(s, u).run);
      assert Owns(At(s, t)) ==> u == t;
    }
  }

  lemma OwnerPreserved(s: State, t: RequestId, a: Action)
    requires Inv(s) && Enabled(s, t, a)
    ensures OwnerInv(Step(s, t, a))
  {
    var s' := Step(s, t, a);
    forall u: RequestId | Owns(At(s', u)) ensures s'.slot == Some(At(s', u).run) && SlotRunning(s') {
      OwnerKeepsItsRecord(s, t, a, u);
    }
    forall u: RequestId, v: RequestId | Owns(At(s', u)) && Owns(At(s', v)) ensures u == v {
      OwnersComeFrom(s, t, a, u);
      OwnersComeFrom(s, t, a, v);
      assert a.StartClaim? ==> SawFree(At(s, t));
    }
  }

  lemma RepairPreserved(s: State, t: RequestId, a: Action)
    requires Inv(s) && Enabled(s, t, a)
    ensures RepairInv(Step(s, t, a))
  {
    OthersStay(s, t, a);
    if a == RepairClaim {
      assert SawFree(At(s, t));
    }
  }

  lemma FreePreserved(s: State, t: RequestId, a: Action)
    requires Inv(s) && Enabled(s, t, a)
    ensures FreeInv(Step(s, t, a))
  {
    OthersStay(s, t, a);
    if a.StartClaim? {
      assert HoldsMutex(At(s, t));
      forall u: RequestId | u != t ensures !SawFree(At(s, u)) {
        assert !HoldsMutex(At(s, u));
      }
    }
  }

  lemma BusyPreserved(s: State, t: RequestId, a: Action)
    requires Inv(s) && Enabled(s, t, a)
    ensures BusyInv(Step(s, t, a))
  {
    OthersStay(s, t, a);
    var s' := Step(s, t, a);
    if SlotRunning(s') {
      if a.StartClaim? {
        assert Owns(At(s', t));
      } else {
        var u: RequestId :| Owns(At(s, u));
        assert Owns(At(s', u));
      }
    }
    if s'.repair {
      if a == RepairClaim {
        assert At(s', t) == Repairing;
      } else {
        var u: RequestId :| At(s, u) == Repairing;
        assert At(s', u) == Repairing;
      }
    }
  }

  lemma RecordPreserved(s: State, t: RequestId, a: Action)
    requires RecordInv(s) && Enabled(s, t, a)
    ensures RecordInv(Step(s, t, a))
  {
    OthersStay(s, t, a);
  }

  lemma InvPreserved(s: State, t: RequestId, a: Action)
    requires Inv(s) && Enabled(s, t, a)
    ensures Inv(Step(s, t, a))
  {
    MutexPreserved(s, t, a);
    OwnerPreserved(s, t, a);
    RepairPreserved(s, t, a);
    FreePreserved(s, t, a);
    BusyPreserved(s, t, a);
    RecordPreserved(s, t, a);
  }

  // ---------------------------------------------------------------- executions

  datatype Event = Event(who: RequestId, action: Action)

  /** Any interleaving of any number of requests. */
  ghost predicate Execution(states: seq<State>, events: seq<Event>) {
    && |states| == |events| + 1 && states[0] == INITIAL
    && forall i :: 0 <= i < |events| ==>
         Enabled(states[i], events[i].who, events[i].action)
         && states[i + 1] == Step(states[i], events[i].who, events[i].action)
  }

  lemma {:induction false} InvAlways(states: seq<State>, events: seq<Event>, i: nat)
    requires Execution(states, events) && i < |states|
    ensures Inv(states[i])
  {
    if i > 0 {
      InvAlways(states, events, i - 1);
      InvPreserved(states[i - 1], events[i - 1].who, events[i - 1].action);
    } else {
      InvInitially();
    }
  }

  /** At no point of any execution do two bulk actions run, or two repairs, or a bulk action beside a repair. */
  lemma MutualExclusion(states: seq<State>, events: seq<Event>, i: nat, t: RequestId, u: RequestId)
    requires Execution(states, events) && i < |states| && t != u
    ensures !(At(states[i], t).Working? && At(states[i], u).Working?)
    ensures !(At(states[i], t).Working? && At(states[i], u) == Repairing)
    ensures !(At(states[i], t) == Repairing && At(states[i], u) == Repairing)
  {
    InvAlways(states, events, i);
  }

  /** The slot changes hands only when that is harmless: a claim never displaces a record that is running, and
      the release of a failed start clears its own record and no other. */
  lemma SlotHandover(states: seq<State>, events: seq<Event>, i: nat)
    requires Execution(states, events) && i < |events|
    ensures events[i].action.StartClaim? ==> !SlotRunning(states[i])
    ensures events[i].action == StartRelease ==>
              states[i].slot == Some(At(states[i], events[i].who).run) && states[i + 1].slot == None
    ensures states[i + 1].slot != states[i].slot ==> events[i].action.StartClaim? || events[i].action == StartRelease
  {
    InvAlways(states, events, i);
    if events[i].action.StartClaim? {
      assert SawFree(At(states[i], events[i].who));
    } else if events[i].action == StartRelease {
      assert Owns(At(states[i], events[i].who));
    }
  }

  /** The slot is never leaked: a running record in it belongs to a request still on its way to finishing or
      releasing it, and a raised repair flag to a repair still under way. */
  lemma NeverLeaked(states: seq<State>, events: seq<Event>, i: nat)
    requires Execution(states, events) && i < |states|
    ensures SlotRunning(states[i]) ==>
              exists t: RequestId :: Owns(At(states[i], t)) && states[i].slot == Some(At(states[i], t).run)
    ensures states[i].repair ==> exists t: RequestId :: At(states[i], t) == Repairing
  {
    InvAlways(states, events, i);
  }

  // ---------------------------------------------------------------- progress

  /** What a request that holds the mutex, or owns a run, can always do next. */
  function Next(pc: Pc): Action
    requires pc != Idle
  {
    match pc
    case StartLocked => StartLook
    case StartLooked(_) => StartReject
    case Claimed(_) => Launch
    case Releasing(_) => StartRelease
    case Working(_) => Finish
    case RepairLocked => RepairLook
    case RepairLooked(_) => RepairReject
    case Repairing => RepairRelease
    case CancelRead(_) => CancelCheck
    case CancelArmed(_) => CancelFire
  }

  /** No request is ever stuck: in every reachable state it can step, or waits for a mutex whose holder can. */
  lemma NobodyIsStuck(states: seq<State>, events: seq<Event>, i: nat, t: RequestId, unused: RunId)
    returns (u: RequestId, a: Action)
    requires Execution(states, events) && i < |states| && At(states[i], t) != Idle && unused !in states[i].records
    ensures Enabled(states[i], u, a) && (u == t || states[i].mutex == Some(u))
  {
    var s := states[i];
    InvAlways(states, events, i);
    assert MutexInv(s) && OwnerInv(s) && RecordInv(s);
    assert Owns(At(s, t)) ==> At(s, t).run in s.records;
    u, a := t, Next(At(s, t));
    if (a == StartRelease || a == RepairRelease) && s.mutex.Some? {
      u := s.mutex.value;
      assert HoldsMutex(At(s, u));
      a := Next(At(s, u));
    }
    if At(s, u).StartLooked? && !At(s, u).busy && !s.repair {
      a := StartClaim(unused);
    }
    if At(s, u).RepairLooked? && !At(s, u).busy && !s.repair {
      a := RepairClaim;
    }
  }

  /** A start or a repair that nothing interrupts is let in exactly when no record in the slot says running and no
      repair is flagged, and is turned away otherwise. */
  lemma LetInExactly(s: State, t: RequestId, run: RunId)
    requires At(s, t) == Idle && s.mutex == None && run !in s.records
    ensures var free := !s.repair && (s.slot == None || s.slot.value !in s.records || !s.records[s.slot.value].running);
            && Enabled(s, t, StartLock) && Enabled(Step(s, t, StartLock), t, StartLook)
            && var looked := Step(Step(s, t, StartLock), t, StartLook);
               && (Enabled(looked, t, StartClaim(run)) <==> free) && (Enabled(looked, t, StartReject) <==> !free)
    ensures var free := !s.repair && (s.slot == None || s.slot.value !in s.records || !s.records[s.slot.value].running);
            && Enabled(s, t, RepairLock) && Enabled(Step(s, t, RepairLock), t, RepairLook)
            && var looked := Step(Step(s, t, RepairLock), t, RepairLook);
               && (Enabled(looked, t, RepairClaim) <==> free) && (Enabled(looked, t, RepairReject) <==> !free)
  {
  }

  /** Whoever keeps the slot or the flag busy frees it when it is done. */
  lemma OwnerFrees(states: seq<State>, events: seq<Event>, i: nat)
    requires Execution(states, events) && i < |events|
    ensures events[i].action == Finish || events[i].action == StartRelease ==>
              SlotRunning(states[i]) && !SlotRunning(states[i + 1])
    ensures events[i].action == RepairRelease ==> states[i].repair && !states[i + 1].repair
  {
    var s, t := states[i], events[i].who;
    InvAlways(states, events, i);
    assert Owns(At(s, t)) ==> s.slot == Some(At(s, t).run) && SlotRunning(s);
  }

  predicate Cancels(pc: Pc) {
    pc.CancelRead? || pc.CancelArmed?
  }

  /** A cancel under way after a step was under way before, for the same run, or has just read the slot. */
  lemma CancelsComeFrom(s: State, t: RequestId, a: Action, u: RequestId)
    requires Enabled(s, t, a) && Cancels(At(Step(s, t, a), u))
    ensures (u == t && a == CancelLook && s.slot == Some(At(Step(s, t, a), u).run))
            || (Cancels(At(s, u)) && At(s, u).run == At(Step(s, t, a), u).run)
  {
    OthersStay(s, t, a);
  }

  /** A cancel under way has read its run from the slot at an earlier step of its own. */
  lemma {:induction false} CancelReadTheSlot(states: seq<State>, events: seq<Event>, i: nat, t: RequestId)
    returns (k: nat)
    requires Execution(states, events) && i < |states|
    requires Cancels(At(states[i], t))
    ensures k < i && events[k] == Event(t, CancelLook) && states[k].slot == Some(At(states[i], t).run)
  {
    var e := events[i - 1];
    CancelsComeFrom(states[i - 1], e.who, e.action, t);
    if e == Event(t, CancelLook) {
      k := i - 1;
    } else {
      k := CancelReadTheSlot(states, events, i - 1, t);
    }
  }

  /** A run's context is cancelled only by a cancel request that had read that very run from the slot, and a run
      that starts later is not touched by it. */
  lemma {:induction false} CancelReachesOnlyWhatItRead(states: seq<State>, events: seq<Event>, i: nat, run: RunId)
    returns (fire: nat, look: nat)
    requires Execution(states, events) && i < |states|
    requires run in states[i].records && states[i].records[run].canceled
    ensures look < fire < i && events[fire].action == CancelFire && events[look] == Event(events[fire].who, CancelLook)
    ensures states[look].slot == Some(run) && run in states[look].records
  {
    var before := states[i - 1];
    if run in before.records && before.records[run].canceled {
      fire, look := CancelReachesOnlyWhatItRead(states, events, i - 1, run);
    } else {
      fire := i - 1;
      CancelMarks(before, events[fire].who, events[fire].action, run);
      look := CancelReadTheSlot(states, events, fire, events[fire].who);
      InvAlways(states, events, look);
    }
  }

  ghost predicate HasCancel(s: State, u: RequestId) {
    At(s, u).Working? ==> At(s, u).run in s.records && s.records[At(s, u).run].cancelSet
  }

  lemma CancelStays(s: State, t: RequestId, a: Action, u: RequestId)
    requires Inv(s) && Enabled(s, t, a) && HasCancel(s, u)
    ensures HasCancel(Step(s, t, a), u)
  {
    OthersStay(s, t, a);
    if u != t && At(s, u).Working? {
      assert Owns(At(s, u)) && !Owns(At(s, t));
    }
  }

  /** A worker can be cancelled for as long as it runs. */
  lemma {:induction false} WorkersCanBeCancelled(states: seq<State>, events: seq<Event>, i: nat, u: RequestId)
    requires Execution(states, events) && i < |states|
    ensures var s := states[i];
            At(s, u).Working? ==>
              var run := At(s, u).run;
              s.slot == Some(run) && run in s.records && s.records[run].running && s.records[run].cancelSet
  {
    InvAlways(states, events, i);
    assert Owns(At(states[i], u)) ==> SlotRunning(states[i]);
    if i > 0 {
      WorkersCanBeCancelled(states, events, i - 1, u);
      InvAlways(states, events, i - 1);
      CancelStays(states[i - 1], events[i - 1].who, events[i - 1].action, u);
      assert HasCancel(states[i], u);
    }
  }

  /** And a cancel that nothing interrupts reaches the run in the slot exactly when that run can be cancelled, as it
      can while its worker runs. */
  lemma CancelReachesARunningRun(states: seq<State>, events: seq<Event>, i: nat, t: RequestId)
    requires Execution(states, events) && i < |states|
    requires var s := states[i]; At(s, t) == Idle && s.mutex == None && s.slot.Some?
    ensures var s, run := states[i], states[i].slot.value;
            && Enabled(s, t, CancelLook) && Enabled(Step(s, t, CancelLook), t, CancelCheck)
            && var checked := Step(Step(s, t, CancelLook), t, CancelCheck);
               if s.records[run].running && s.records[run].cancelSet then
                 Enabled(checked, t, CancelFire) && Step(checked, t, CancelFire).records[run].canceled
               else At(checked, t) == Idle && checked.records == s.records
  {
    InvAlways(states, events, i);
  }

  /** Only the firing of a cancel armed for this run marks it cancelled. */
  lemma CancelMarks(s: State, t: RequestId, a: Action, run: RunId)
    requires Enabled(s, t, a) && run in Step(s, t, a).records && Step(s, t, a).records[run].canceled
    requires !(run in s.records && s.records[run].canceled)
    ensures a == CancelFire && At(s, t) == CancelArmed(run)
  {
  }
}
