/** The worker loop of a bulk action (internal/api/handlers_bulk_actions.go): counters, cancellation and the final
    status. */
module BulkRun {

  /** Per-artist results: the five of re-identification and the three of every other action. */
  datatype Outcome =
    | AutoLinked | Queued(hasCandidate: bool) | Unmatched | IdentifySkipped | IdentifyFailed
    | Succeeded | Skipped | Failed

  datatype EndCause = DeadlineExceeded | CanceledByOperator

  datatype Status = Running | Completed | Canceled | TimedOut

  /** What the world does to one run over n artists: the batch load, each artist's result, and whether the run
      context had ended before artist i was started, after its work, and in the epilogue. */
  datatype Env = Env(
    loadFailed: bool, found: seq<bool>, outcomes: seq<Outcome>,
    endedBefore: seq<bool>, endedAfter: seq<bool>, endedAtEnd: bool, cause: EndCause)

  predicate IsEnv(env: Env) {
    |env.found| == |env.outcomes| == |env.endedBefore| == |env.endedAfter|
  }

  /** A context that has ended stays ended. */
  ghost predicate StaysEnded(env: Env)
    requires IsEnv(env)
  {
    forall i :: 0 <= i < |env.outcomes| && (env.endedBefore[i] || env.endedAfter[i]) ==> env.endedAtEnd
  }

  datatype Counters = Counters(
    processed: nat, succeeded: nat, skipped: nat, failed: nat, autoLinked: nat, queued: nat, noMatch: nat)

  predicate IsFailure(o: Outcome) {
    o == IdentifyFailed || o == Failed
  }

  function FinalBulkStatus(ended: bool, cause: EndCause, interrupted: bool): Status {
    if !ended || !interrupted then Completed
    else if cause == DeadlineExceeded then TimedOut
    else Canceled
  }

  class Progress {
    var counters: Counters
    const total: nat
    var status: Status
    /** Indices of the artists put into the identify review queue. */
    var reviewQueue: seq<nat>

    constructor (total: nat)
      ensures counters == Counters(0, 0, 0, 0, 0, 0, 0) && this.total == total && status == Running && reviewQueue == []
    {
      counters, this.total, status, reviewQueue := Counters(0, 0, 0, 0, 0, 0, 0), total, Running, [];
    }

    method Record(o: Outcome)
      modifies this`counters
      ensures counters == Add(old(counters), o)
    {
      var c := counters.(processed := counters.processed + 1);
      match o {
        case AutoLinked => c := c.(autoLinked := c.autoLinked + 1, succeeded := c.succeeded + 1);
        case Queued(_) => c := c.(queued := c.queued + 1, skipped := c.skipped + 1);
        case Unmatched => c := c.(noMatch := c.noMatch + 1, skipped := c.skipped + 1);
        case IdentifySkipped => c := c.(skipped := c.skipped + 1);
        case IdentifyFailed => c := c.(failed := c.failed + 1);
        case Succeeded => c := c.(succeeded := c.succeeded + 1);
        case Skipped => c := c.(skipped := c.skipped + 1);
        case Failed => c := c.(failed := c.failed + 1);
      }
      counters := c;
    }

    /** One artist: missing from the batch load, or dispatched and its result accounted for. Reports whether its
        work was aborted by an ended context. */
    method Handle(env: Env, i: nat) returns (aborted: bool)
      requires IsEnv(env) && i < |env.outcomes|
      modifies this`counters, this`reviewQueue
      ensures counters == Add(old(counters), Counted(env, i))
      ensures reviewQueue == old(reviewQueue) + ReviewedOne(env, i)
      ensures aborted <==> Aborted(env, i)
    {
      aborted := false;
      if env.loadFailed || !env.found[i] {
        Record(if env.loadFailed then Failed else Skipped);
        return;
      }
      var o := env.outcomes[i];
      if o.Queued? && o.hasCandidate {
        reviewQueue := reviewQueue + [i];
      }
      Record(o);
      if IsFailure(o) && env.endedAfter[i] {
        aborted := true;
      }
    }

    /** The worker goroutine from the batch load to the end of its epilogue. */
    method Run(env: Env) returns (interrupted: bool)
      requires IsEnv(env) && total == |env.outcomes|
      requires counters == Counters(0, 0, 0, 0, 0, 0, 0) && status == Running && reviewQueue == []
      modifies this
      ensures counters == Tally(env, Stop(env)) && reviewQueue == Reviewed(env, Stop(env))
      ensures interrupted <==> Interrupted(env)
      ensures status == FinalBulkStatus(env.endedAtEnd, env.cause, interrupted)
    {
      interrupted := false;
      var i := 0;
      while i < total
        invariant i <= total && StopWithin(env, i) == i
        invariant counters == Tally(env, i) && reviewQueue == Reviewed(env, i)
        invariant interrupted <==> AbortedBefore(env, i)
      {
        if env.endedBefore[i] {
          interrupted := true;
          StopsThere(env, i, total);
          break;
        }
        GoesOn(env, i);
        AbortedGrows(env, i);
        var aborted := Handle(env, i);
        interrupted := interrupted || aborted;
        i := i + 1;
      }
      status := FinalBulkStatus(env.endedAtEnd, env.cause, interrupted);
    }
  }

  // ---------------------------------------------------------------- specification

  predicate IsSuccess(o: Outcome) {
    o == AutoLinked || o == Succeeded
  }

  function One(b: bool): nat {
    if b then 1 else 0
  }

  function Add(c: Counters, o: Outcome): Counters {
    Counters(c.processed + 1, c.succeeded + One(IsSuccess(o)), c.skipped + One(!IsSuccess(o) && !IsFailure(o)),
             c.failed + One(IsFailure(o)), c.autoLinked + One(o == AutoLinked), c.queued + One(o.Queued?),
             c.noMatch + One(o == Unmatched))
  }

  /** Artist i gets work done on it; otherwise it is missing from the batch load. */
  predicate Dispatched(env: Env, i: nat)
    requires i < |env.found|
  {
    !env.loadFailed && env.found[i]
  }

  /** The outcome counted for artist i. */
  function Counted(env: Env, i: nat): Outcome
    requires IsEnv(env) && i < |env.outcomes|
  {
    if Dispatched(env, i) then env.outcomes[i] else if env.loadFailed then Failed else Skipped
  }

  function Tally(env: Env, k: nat): Counters
    requires IsEnv(env) && k <= |env.outcomes|
  {
    if k == 0 then Counters(0, 0, 0, 0, 0, 0, 0) else Add(Tally(env, k - 1), Counted(env, k - 1))
  }

  /** The ambiguous matches that must reach the review queue, in order. */
  function Reviewed(env: Env, k: nat): seq<nat>
    requires IsEnv(env) && k <= |env.outcomes|
  {
    if k == 0 then []
    else Reviewed(env, k - 1) + ReviewedOne(env, k - 1)
  }

  function ReviewedOne(env: Env, i: nat): seq<nat>
    requires IsEnv(env) && i < |env.outcomes|
  {
    if Dispatched(env, i) && env.outcomes[i] == Queued(true) then [i] else []
  }

  /** The first of the first k artists before which the context had ended, or k. */
  function StopWithin(env: Env, k: nat): (m: nat)
    requires IsEnv(env) && k <= |env.outcomes|
    ensures m <= k && (m < k ==> env.endedBefore[m])
  {
    if k == 0 then 0 else
    var m := StopWithin(env, k - 1);
    if m == k - 1 && !env.endedBefore[m] then k else m
  }

  /** How many artists the loop processes. */
  function Stop(env: Env): (m: nat)
    requires IsEnv(env)
    ensures m <= |env.outcomes| && (m < |env.outcomes| ==> env.endedBefore[m])
  {
    StopWithin(env, |env.outcomes|)
  }

  lemma {:induction false} StopsThere(env: Env, i: nat, k: nat)
    requires IsEnv(env) && i < k <= |env.outcomes| && StopWithin(env, i) == i && env.endedBefore[i]
    ensures StopWithin(env, k) == i
  {
    if i < k - 1 {
      StopsThere(env, i, k - 1);
    }
  }

  /** What one more artist adds. */
  lemma GoesOn(env: Env, i: nat)
    requires IsEnv(env) && i < |env.outcomes| && StopWithin(env, i) == i && !env.endedBefore[i]
    ensures StopWithin(env, i + 1) == i + 1
    ensures Tally(env, i + 1) == Add(Tally(env, i), Counted(env, i))
    ensures Reviewed(env, i + 1) == Reviewed(env, i) + ReviewedOne(env, i)
  {
  }

  /** Artist i's work failed with the context already over. */
  predicate Aborted(env: Env, i: nat)
    requires IsEnv(env) && i < |env.outcomes|
  {
    Dispatched(env, i) && IsFailure(env.outcomes[i]) && env.endedAfter[i]
  }

  ghost predicate AbortedBefore(env: Env, k: nat)
    requires IsEnv(env) && k <= |env.outcomes|
  {
    exists i: nat :: i < k && Aborted(env, i)
  }

  lemma AbortedGrows(env: Env, k: nat)
    requires IsEnv(env) && k < |env.outcomes|
    ensures AbortedBefore(env, k + 1) <==> AbortedBefore(env, k) || Aborted(env, k)
  {
    if i: nat :| i < k + 1 && Aborted(env, i) {
      assert i < k || i == k;
    }
  }

  /** The context cut work short: before an artist was started, or while one was in flight. */
  ghost predicate Interrupted(env: Env)
    requires IsEnv(env)
  {
    Stop(env) < |env.outcomes| || AbortedBefore(env, Stop(env))
  }

  // ---------------------------------------------------------------- accounting

  /** Every processed artist is in exactly one of the three outcome counters, and the finer counters are parts of
      the coarser ones. */
  ghost predicate Consistent(c: Counters, k: nat) {
    c.processed == k && c.processed == c.succeeded + c.skipped + c.failed
    && c.autoLinked <= c.succeeded && c.queued + c.noMatch <= c.skipped
  }

  lemma AddKeepsConsistent(c: Counters, o: Outcome, k: nat)
    requires Consistent(c, k)
    ensures Consistent(Add(c, o), k + 1)
  {
  }

  /** With the loop's invariant (counters are the tally of the artists handled so far), this holds after every
      completed iteration. */
  lemma {:induction false} TallyConsistent(env: Env, k: nat)
    requires IsEnv(env) && k <= |env.outcomes|
    ensures Consistent(Tally(env, k), k)
  {
    if k > 0 {
      TallyConsistent(env, k - 1);
      AddKeepsConsistent(Tally(env, k - 1), Counted(env, k - 1), k - 1);
    }
  }

  /** The artists among the first k whose counted outcome belongs to a class. */
  ghost function Class(env: Env, k: nat, of: Outcome -> bool): set<nat>
    requires IsEnv(env) && k <= |env.outcomes|
  {
    set i: nat | i < k && of(Counted(env, i))
  }

  predicate IsLinked(o: Outcome) { o == AutoLinked }

  predicate IsQueued(o: Outcome) { o == Queued(true) || o == Queued(false) }

  predicate IsUnmatched(o: Outcome) { o == Unmatched }

  predicate IsSkip(o: Outcome) { IsQueued(o) || o == Unmatched || o == IdentifySkipped || o == Skipped }

  const ZERO := Counters(0, 0, 0, 0, 0, 0, 0)

  /** A counter that every outcome of a class raises by one, and no other outcome moves, counts the class. */
  lemma {:induction false} CounterCounts(env: Env, k: nat, of: Outcome -> bool, counter: Counters -> nat)
    requires IsEnv(env) && k <= |env.outcomes|
    requires counter(ZERO) == 0 && forall c, o :: counter(Add(c, o)) == counter(c) + One(of(o))
    ensures counter(Tally(env, k)) == |Class(env, k, of)|
  {
    if k > 0 {
      CounterCounts(env, k - 1, of, counter);
      ClassGrows(env, k - 1, of);
    }
  }

  lemma SucceededCounts(env: Env, k: nat)
    requires IsEnv(env) && k <= |env.outcomes|
    ensures Tally(env, k).succeeded == |Class(env, k, IsSuccess)|
  {
    CounterCounts(env, k, IsSuccess, (c: Counters) => c.succeeded);
  }

  lemma FailedCounts(env: Env, k: nat)
    requires IsEnv(env) && k <= |env.outcomes|
    ensures Tally(env, k).failed == |Class(env, k, IsFailure)|
  {
    CounterCounts(env, k, IsFailure, (c: Counters) => c.failed);
  }

  /** Each counter counts the artists of its own outcomes. */
  lemma EveryCounterCounts(env: Env, k: nat)
    requires IsEnv(env) && k <= |env.outcomes|
    ensures var c := Tally(env, k);
            && c.processed == k && c.skipped == |Class(env, k, IsSkip)| && c.autoLinked == |Class(env, k, IsLinked)|
            && c.queued == |Class(env, k, IsQueued)| && c.noMatch == |Class(env, k, IsUnmatched)|
  {
    TallyConsistent(env, k);
    CounterCounts(env, k, IsSkip, (c: Counters) => c.skipped);
    CounterCounts(env, k, IsLinked, (c: Counters) => c.autoLinked);
    CounterCounts(env, k, IsQueued, (c: Counters) => c.queued);
    CounterCounts(env, k, IsUnmatched, (c: Counters) => c.noMatch);
  }

  /** Success takes an artist the batch load returned; when the load failed every artist counts as failed, and one
      missing from it counts as skipped. */
  lemma CountedMeans(env: Env, i: nat)
    requires IsEnv(env) && i < |env.outcomes|
    ensures var o := env.outcomes[i];
            && (IsSuccess(Counted(env, i)) <==>
                  !env.loadFailed && env.found[i] && (o == AutoLinked || o == Succeeded))
            && (IsFailure(Counted(env, i)) <==>
                  env.loadFailed || (env.found[i] && (o == IdentifyFailed || o == Failed)))
            && (IsLinked(Counted(env, i)) <==> !env.loadFailed && env.found[i] && o == AutoLinked)
  {
  }

  ghost predicate IsReviewed(env: Env, i: nat)
    requires IsEnv(env)
  {
    i < |env.outcomes| && !env.loadFailed && env.found[i] && env.outcomes[i] == Queued(true)
  }

  ghost predicate Ascending(s: seq<nat>) {
    forall x, y :: 0 <= x < y < |s| ==> s[x] < s[y]
  }

  lemma AscendingGrows(s: seq<nat>, n: nat)
    requires Ascending(s) && forall x :: x in s ==> x < n
    ensures Ascending(s + [n])
  {
    assert forall x :: 0 <= x < |s| ==> s[x] in s;
  }

  /** The review queue holds, in the order of the request, the loaded and listed artists that came back ambiguous with
      a candidate. */
  lemma {:induction false} ReviewQueueExactly(env: Env, k: nat)
    requires IsEnv(env) && k <= |env.outcomes|
    ensures forall i: nat :: i in Reviewed(env, k) <==> i < k && IsReviewed(env, i)
    ensures Ascending(Reviewed(env, k))
  {
    if k > 0 {
      ReviewQueueExactly(env, k - 1);
      var before := Reviewed(env, k - 1);
      if IsReviewed(env, k - 1) {
        assert Reviewed(env, k) == before + [k - 1];
        AscendingGrows(before, k - 1);
      } else {
        assert Reviewed(env, k) == before + [] == before;
      }
    }
  }

  /** The loop stops at the first artist before which the context had ended, and nowhere else. */
  lemma {:induction false} StopsAtTheFirstEnd(env: Env, k: nat)
    requires IsEnv(env) && k <= |env.outcomes|
    ensures StopWithin(env, k) == k <==> forall i :: 0 <= i < k ==> !env.endedBefore[i]
    ensures forall i :: 0 <= i < StopWithin(env, k) ==> !env.endedBefore[i]
  {
    if k > 0 {
      StopsAtTheFirstEnd(env, k - 1);
    }
  }

  lemma ClassGrows(env: Env, k: nat, of: Outcome -> bool)
    requires IsEnv(env) && k < |env.outcomes|
    ensures |Class(env, k + 1, of)| == |Class(env, k, of)| + One(of(Counted(env, k)))
  {
    if of(Counted(env, k)) {
      assert Class(env, k + 1, of) == Class(env, k, of) + {k};
    } else {
      assert Class(env, k + 1, of) == Class(env, k, of);
    }
  }

  // ---------------------------------------------------------------- the final status

  ghost function Final(env: Env): Status
    requires IsEnv(env)
  {
    FinalBulkStatus(env.endedAtEnd, env.cause, Interrupted(env))
  }

  /** A run is reported completed exactly when every artist was processed and no dispatched artist's failure was
      observed under an ended context; a context that ends after the last artist does not spoil it. */
  lemma CompletedExactlyWhenNothingCutShort(env: Env)
    requires IsEnv(env) && StaysEnded(env)
    ensures Final(env) == Completed <==>
            Tally(env, Stop(env)).processed == |env.outcomes| && !AbortedBefore(env, |env.outcomes|)
  {
    TallyConsistent(env, Stop(env));
    assert Interrupted(env) ==> env.endedAtEnd;
  }

  /** Canceled and timed out are told apart by what ended the context, and both mean it did cut the run short. */
  lemma CutShortMeans(env: Env)
    requires IsEnv(env) && StaysEnded(env) && Final(env) != Completed
    ensures Final(env) == if env.cause == DeadlineExceeded then TimedOut else Canceled
    ensures Interrupted(env) && env.endedAtEnd
    ensures Tally(env, Stop(env)).processed < |env.outcomes| || AbortedBefore(env, |env.outcomes|)
  {
    CompletedExactlyWhenNothingCutShort(env);
    TallyConsistent(env, Stop(env));
  }
}
