/** The Tier 3 album-evidence gate of internal/api/album_gate.go: a memoised catalogue cache and the budgeted scan
    for a rival whose catalogue also agrees with the local albums. */
module RivalScan {
  import opened Strings
  import opened Wrappers

  type Mbid = string

  const RIVAL_BUDGET := 2
  const AUTO_LINK_FLOOR := 70
  const REVIEW_FLOOR := 30

  /** A cached catalogue lookup; a failed one is remembered with known == false. */
  datatype Entry = Entry(titles: seq<string>, known: bool)

  /** Whether a release-group fetcher is registered, what it answers per id, and how well a catalogue matches the
      local albums (in percent). */
  datatype World = World(hasFetcher: bool, fetch: Mbid -> Option<seq<string>>, overlap: seq<string> -> int)

  type Entries = map<Mbid, Entry>

  // ---------------------------------------------------------------- identities

  predicate IsHex(c: char) {
    '0' <= c <= '9' || 'a' <= c <= 'f' || 'A' <= c <= 'F'
  }

  predicate IsValidMbid(s: string) {
    |s| == 36 && forall i :: 0 <= i < 36 ==> if i in {8, 13, 18, 23} then s[i] == '-' else IsHex(s[i])
  }

  /** A result that is a usable identity other than the best candidate's. */
  predicate IsRival(best: Mbid, m: Mbid) {
    m != "" && !EqualFold(m, best) && IsValidMbid(TrimSpace(m))
  }

  predicate AreHex(s: string, n: nat) {
    |s| == n && forall c :: c in s ==> '0' <= c <= '9' || 'a' <= c <= 'f' || 'A' <= c <= 'F'
  }

  lemma HexSlice(s: string, i: nat, j: nat)
    requires i <= j <= |s|
    ensures AreHex(s[i..j], j - i) <==> forall k :: i <= k < j ==> IsHex(s[k])
  {
    if AreHex(s[i..j], j - i) {
      forall k | i <= k < j ensures IsHex(s[k]) {
        assert s[i..j][k - i] in s[i..j];
      }
    }
  }

  /** A valid id is five groups of 8, 4, 4, 4 and 12 hexadecimal digits joined by hyphens. */
  lemma MbidExactly(s: string)
    ensures IsValidMbid(s) <==>
            && |s| == 36 && s[8] == '-' && s[13] == '-' && s[18] == '-' && s[23] == '-'
            && AreHex(s[..8], 8) && AreHex(s[9..13], 4) && AreHex(s[14..18], 4) && AreHex(s[19..23], 4)
            && AreHex(s[24..], 12)
  {
    if |s| == 36 {
      HexSlice(s, 0, 8);
      HexSlice(s, 9, 13);
      HexSlice(s, 14, 18);
      HexSlice(s, 19, 23);
      HexSlice(s, 24, 36);
      assert s[0..8] == s[..8] && s[24..36] == s[24..];
    }
  }

  // ---------------------------------------------------------------- specification of the lookups

  /** A rival is a valid id, blanks around it aside, that differs from the best candidate's by more than letter
      case. */
  lemma RivalExactly(best: Mbid, m: Mbid)
    ensures IsRival(best, m) <==> IsValidMbid(TrimSpace(m)) && Lower(m) != Lower(best)
  {
    EqualFoldExactly(m, best);
  }

  /** What asking the provider gives. */
  function Fetched(w: World, m: Mbid): Entry {
    match w.fetch(m) case Some(titles) => Entry(titles, true) case None => Entry([], false)
  }

  function Lookup(w: World, entries: Entries, m: Mbid): Entry {
    if !w.hasFetcher || m == "" then Entry([], false)
    else if m in entries then entries[m]
    else Fetched(w, m)
  }

  function AfterLookup(w: World, entries: Entries, m: Mbid): Entries {
    if !w.hasFetcher || m == "" || m in entries then entries else entries[m := Fetched(w, m)]
  }

  /** A catalogue that is unavailable, or that clears the floor, contests the best candidate. */
  predicate Contests(w: World, e: Entry) {
    !e.known || (e.titles != [] && w.overlap(e.titles) >= AUTO_LINK_FLOOR)
  }

  /** The scan: stops at the first contesting rival, or at the first uncached rival past the budget. */
  function Scan(w: World, best: Mbid, entries: Entries, results: seq<Mbid>, fetched: nat): bool
    decreases |results|
  {
    if results == [] then false
    else if !IsRival(best, results[0]) then Scan(w, best, entries, results[1..], fetched)
    else
      var m := results[0];
      var cached := m in entries;
      if !cached && fetched >= RIVAL_BUDGET then false
      else if Contests(w, Lookup(w, entries, m)) then true
      else Scan(w, best, AfterLookup(w, entries, m), results[1..], if cached then fetched else fetched + 1)
  }

  /** One step of the scan along a list. */
  lemma ScanStep(w: World, best: Mbid, entries: Entries, results: seq<Mbid>, i: nat, fetched: nat)
    requires i < |results|
    ensures Scan(w, best, entries, results[i..], fetched) ==
            var m := results[i];
            if !IsRival(best, m) then Scan(w, best, entries, results[i + 1..], fetched)
            else if m !in entries && fetched >= RIVAL_BUDGET then false
            else if Contests(w, Lookup(w, entries, m)) then true
            else Scan(w, best, AfterLookup(w, entries, m), results[i + 1..],
                      if m in entries then fetched else fetched + 1)
  {
    assert results[i..][1..] == results[i + 1..];
  }

  // ---------------------------------------------------------------- the cache and the gate

  datatype Evidence = Unknown | NoAlbums | Found

  datatype Decision = Decline | Review | Permit

  datatype GateInput = GateInput(
    evidence: Evidence, overlap: int, releaseCount: nat, releasesKnown: bool, uncontested: bool, redFlag: bool)

  function EvaluateAlbumGate(g: GateInput): Decision {
    if g.evidence != Found || !g.releasesKnown || g.releaseCount == 0 then Decline
    else if g.overlap >= AUTO_LINK_FLOOR then if !g.uncontested || g.redFlag then Review else Permit
    else if g.overlap >= REVIEW_FLOOR then Review
    else Decline
  }

  class ReleaseGroupCache {
    const w: World
    var entries: Entries
    /** Every provider call made, in order. */
    ghost var calls: seq<Mbid>

    /** Every id asked for is in the cache, so none is asked for twice. */
    ghost predicate Valid()
      reads this
    {
      && (forall m :: m in calls ==> m in entries)
      && (forall i, j :: 0 <= i < j < |calls| ==> calls[i] != calls[j])
    }

    constructor (w: World)
      ensures Valid() && this.w == w && entries == map[] && calls == []
    {
      this.w, entries, calls := w, map[], [];
    }

    method Holds(m: Mbid) returns (held: bool)
      ensures held <==> m in entries
    {
      held := m in entries;
    }

    /** At most one provider call, and none for an id already looked up, even when that lookup failed. */
    method Titles(m: Mbid) returns (titles: seq<string>, known: bool)
      requires Valid()
      modifies this
      ensures Valid()
      ensures Entry(titles, known) == Lookup(w, old(entries), m)
      ensures entries == AfterLookup(w, old(entries), m)
      ensures calls == if w.hasFetcher && m != "" && m !in old(entries) then old(calls) + [m] else old(calls)
    {
      if !w.hasFetcher || m == "" {
        return [], false;
      }
      if m in entries {
        return entries[m].titles, entries[m].known;
      }
      calls := calls + [m];
      match w.fetch(m) {
        case None =>
          entries := entries[m := Entry([], false)];
          return [], false;
        case Some(groups) =>
          entries := entries[m := Entry(groups, true)];
          return groups, true;
      }
    }

    method RivalClearsOverlapFloor(best: Mbid, results: seq<Mbid>) returns (contested: bool)
      requires Valid()
      modifies this
      ensures Valid() && contested == Scan(w, best, old(entries), results, 0)
      ensures old(calls) <= calls && |calls| <= |old(calls)| + RIVAL_BUDGET
    {
      var fetched := 0;
      ghost var goal := Scan(w, best, entries, results, 0);
      for i := 0 to |results|
        invariant Valid() && Scan(w, best, entries, results[i..], fetched) == goal
        invariant old(calls) <= calls && |calls| <= |old(calls)| + fetched && fetched <= RIVAL_BUDGET
      {
        ScanStep(w, best, entries, results, i, fetched);
        var m := results[i];
        if m == "" || EqualFold(m, best) {
          continue;
        }
        if !IsValidMbid(TrimSpace(m)) {
          continue;
        }
        var cached := Holds(m);
        if !cached && fetched >= RIVAL_BUDGET {
          return false;
        }
        var titles, known := Titles(m);
        if !cached {
          fetched := fetched + 1;
        }
        if !known {
          return true;
        }
        if |titles| == 0 {
          continue;
        }
        if w.overlap(titles) >= AUTO_LINK_FLOOR {
          return true;
        }
      }
      return false;
    }

    /** The gate in front of the unattended write: at most three provider calls from an empty cache, no id twice. */
    method Tier3AlbumGateDeclines(evidence: Evidence, best: Mbid, redFlag: bool, results: seq<Mbid>)
      returns (declines: bool)
      requires Valid()
      modifies this
      ensures Valid() && declines == (GateDecision(w, old(entries), evidence, best, redFlag, results) != Permit)
      ensures old(calls) <= calls && |calls| <= |old(calls)| + 1 + RIVAL_BUDGET
      ensures evidence != Found ==> calls == old(calls)
    {
      var g := GateInput(evidence, 0, 0, false, false, redFlag);
      if evidence == Found {
        var titles, known := Titles(best);
        g := g.(releasesKnown := known, releaseCount := |titles|);
        if known {
          g := g.(overlap := w.overlap(titles));
        }
        var contested := RivalClearsOverlapFloor(best, results);
        g := g.(uncontested := !contested);
      }
      declines := EvaluateAlbumGate(g) != Permit;
    }
  }

  function GateDecision(
    w: World, entries: Entries, evidence: Evidence, best: Mbid, redFlag: bool, results: seq<Mbid>): Decision
  {
    if evidence != Found then Decline else
    var e := Lookup(w, entries, best);
    var contested := Scan(w, best, AfterLookup(w, entries, best), results, 0);
    var overlap := if e.known then w.overlap(e.titles) else 0;
    EvaluateAlbumGate(GateInput(Found, overlap, |e.titles|, e.known, !contested, redFlag))
  }

  // ---------------------------------------------------------------- what the scan decides

  /** The first n distinct rivals among the results that are not in `seen`. */
  function FirstRivals(best: Mbid, results: seq<Mbid>, seen: set<Mbid>, n: nat): seq<Mbid> {
    if results == [] || n == 0 then []
    else if IsRival(best, results[0]) && results[0] !in seen then
      [results[0]] + FirstRivals(best, results[1..], seen + {results[0]}, n - 1)
    else FirstRivals(best, results[1..], seen, n)
  }

  /** The provider has no catalogue for one of these ids, or one that agrees with the local albums by 70 percent. */
  ghost predicate SomeContests(w: World, ms: seq<Mbid>) {
    exists m :: m in ms && match w.fetch(m) case None => true case Some(t) => t != [] && w.overlap(t) >= 70
  }

  /** The cache holds no contesting rival: a cold cache, or one holding the best candidate only, does not. */
  ghost predicate NothingHeldContests(w: World, best: Mbid, entries: Entries) {
    forall m :: m in entries && IsRival(best, m) ==> !Contests(w, entries[m])
  }

  lemma ColdCacheIsQuiet(w: World, best: Mbid, entries: Entries)
    requires entries.Keys <= {best}
    ensures NothingHeldContests(w, best, entries)
  {
  }

  /** From a cache in which no held rival contests, the scan answers whether one of the first distinct rivals the
      budget pays for contests. */
  lemma {:induction false} ScanMeansFirstRivals(w: World, best: Mbid, entries: Entries, results: seq<Mbid>,
                                                fetched: nat)
    requires w.hasFetcher && NothingHeldContests(w, best, entries) && fetched <= RIVAL_BUDGET
    ensures Scan(w, best, entries, results, fetched) <==>
            SomeContests(w, FirstRivals(best, results, entries.Keys, RIVAL_BUDGET - fetched))
    decreases |results|
  {
    if results != [] {
      var m := results[0];
      if IsRival(best, m) && m !in entries && fetched < RIVAL_BUDGET {
        var rest := FirstRivals(best, results[1..], entries.Keys + {m}, RIVAL_BUDGET - fetched - 1);
        assert FirstRivals(best, results, entries.Keys, RIVAL_BUDGET - fetched) == [m] + rest;
        assert m in [m] + rest;
        if !Contests(w, Fetched(w, m)) {
          ScanMeansFirstRivals(w, best, entries[m := Fetched(w, m)], results[1..], fetched + 1);
          assert entries[m := Fetched(w, m)].Keys == entries.Keys + {m};
        }
      } else if !(IsRival(best, m) && m !in entries) {
        ScanMeansFirstRivals(w, best, entries, results[1..], fetched);
      }
    }
  }

  /** Without a fetcher every rival is unmeasured, so any rival at all contests. */
  lemma {:induction false} ScanWithoutFetcher(w: World, best: Mbid, results: seq<Mbid>)
    requires !w.hasFetcher
    ensures Scan(w, best, map[], results, 0) <==> exists m :: m in results && IsRival(best, m)
    decreases |results|
  {
    if results != [] {
      assert results == [results[0]] + results[1..];
      ScanWithoutFetcher(w, best, results[1..]);
    }
  }

  /** From an empty cache a candidate is linked unattended exactly when its own catalogue is known, not empty and
      clears the floor, it carries no red flag, and none of the first two distinct rivals contests; it is declined
      outright when there is no catalogue or hardly any agreement, and left for review otherwise. */
  lemma PermitMeans(w: World, best: Mbid, redFlag: bool, results: seq<Mbid>)
    requires w.hasFetcher && best != ""
    ensures GateDecision(w, map[], Found, best, redFlag, results) == Permit <==>
            && w.fetch(best).Some? && w.fetch(best).value != [] && w.overlap(w.fetch(best).value) >= 70 && !redFlag
            && !SomeContests(w, FirstRivals(best, results, {best}, 2))
    ensures GateDecision(w, map[], Found, best, redFlag, results) == Decline <==>
            w.fetch(best).None? || w.fetch(best).value == [] || w.overlap(w.fetch(best).value) < 30
  {
    var entries := AfterLookup(w, map[], best);
    assert entries.Keys == {best};
    ColdCacheIsQuiet(w, best, entries);
    ScanMeansFirstRivals(w, best, entries, results, 0);
  }

  // ---------------------------------------------------------------- stopping early

  /** The fuller scan: past the budget an uncached rival is skipped instead of ending the scan. */
  function FullScan(w: World, best: Mbid, entries: Entries, results: seq<Mbid>, fetched: nat): bool
    decreases |results|
  {
    if results == [] then false
    else if !IsRival(best, results[0]) then FullScan(w, best, entries, results[1..], fetched)
    else
      var m := results[0];
      var cached := m in entries;
      if !cached && fetched >= RIVAL_BUDGET then FullScan(w, best, entries, results[1..], fetched)
      else if Contests(w, Lookup(w, entries, m)) then true
      else FullScan(w, best, AfterLookup(w, entries, m), results[1..], if cached then fetched else fetched + 1)
  }

  /** A cached rival that contests. */
  predicate HeldContest(w: World, best: Mbid, entries: Entries, m: Mbid) {
    IsRival(best, m) && m in entries && Contests(w, Lookup(w, entries, m))
  }

  lemma {:induction false} FullScanOverBudget(w: World, best: Mbid, entries: Entries, results: seq<Mbid>, fetched: nat)
    requires fetched >= RIVAL_BUDGET
    ensures FullScan(w, best, entries, results, fetched) <==>
            exists m :: m in results && HeldContest(w, best, entries, m)
    decreases |results|
  {
    if results != [] {
      FullScanOverBudget(w, best, entries, results[1..], fetched);
      assert forall m :: m in results <==> m == results[0] || m in results[1..];
      assert HeldContest(w, best, entries, results[0]) ==> results[0] in results;
    }
  }

  /** The distinct uncached rivals of a list. */
  function Uncached(best: Mbid, entries: Entries, results: seq<Mbid>): set<Mbid> {
    set m | m in results && IsRival(best, m) && m !in entries
  }

  /** Position i holds an uncached rival after exactly n other ones: with n calls left, the first one unpaid. */
  predicate Unpaid(best: Mbid, entries: Entries, results: seq<Mbid>, n: nat, i: nat)
    requires i < |results|
  {
    IsRival(best, results[i]) && results[i] !in entries && results[i] !in results[..i]
    && |Uncached(best, entries, results[..i])| == n
  }

  /** None of the first i results contests. */
  ghost predicate QuietBefore(w: World, best: Mbid, entries: Entries, results: seq<Mbid>, i: nat)
    requires i <= |results|
  {
    forall p :: 0 <= p < i && IsRival(best, results[p]) ==> !Contests(w, Lookup(w, entries, results[p]))
  }

  /** With n calls left: an unpaid rival at i, nothing contesting before it, and at j, after it, a cached rival that
      contests. */
  ghost predicate MissedAt(w: World, best: Mbid, entries: Entries, results: seq<Mbid>, n: nat, i: nat, j: nat)
    requires i < j < |results|
  {
    Unpaid(best, entries, results, n, i) && QuietBefore(w, best, entries, results, i)
    && HeldContest(w, best, entries, results[j])
  }

  ghost predicate Missed(w: World, best: Mbid, entries: Entries, results: seq<Mbid>, n: nat) {
    exists i: nat, j: nat :: i < j < |results| && MissedAt(w, best, entries, results, n, i, j)
  }

  /** A first result that costs nothing and does not contest: everything shifts by one position. */
  lemma MissedSkipsOne(w: World, best: Mbid, entries: Entries, results: seq<Mbid>, n: nat, i: nat, j: nat)
    requires results != [] && i < j < |results[1..]| && (!IsRival(best, results[0]) || results[0] in entries)
    requires IsRival(best, results[0]) ==> !Contests(w, Lookup(w, entries, results[0]))
    ensures MissedAt(w, best, entries, results, n, i + 1, j + 1) <==> MissedAt(w, best, entries, results[1..], n, i, j)
  {
    var m, rest := results[0], results[1..];
    assert results[..i + 1] == [m] + rest[..i];
    assert Uncached(best, entries, results[..i + 1]) == Uncached(best, entries, rest[..i]);
    QuietSkipsOne(w, best, entries, entries, results, i);
  }

  lemma UnpaidPaysOne(best: Mbid, entries: Entries, e: Entries, results: seq<Mbid>, n: nat, i: nat)
    requires results != [] && i < |results[1..]| && IsRival(best, results[0]) && results[0] !in entries && n > 0
    requires e.Keys == entries.Keys + {results[0]}
    ensures Unpaid(best, entries, results, n, i + 1) <==> Unpaid(best, e, results[1..], n - 1, i)
  {
    var m, rest := results[0], results[1..];
    assert results[..i + 1] == [m] + rest[..i];
    assert Uncached(best, entries, results[..i + 1]) == Uncached(best, e, rest[..i]) + {m};
  }

  lemma QuietSkipsOne(w: World, best: Mbid, entries: Entries, e: Entries, results: seq<Mbid>, i: nat)
    requires results != [] && i < |results[1..]| && forall x :: Lookup(w, e, x) == Lookup(w, entries, x)
    requires IsRival(best, results[0]) ==> !Contests(w, Lookup(w, entries, results[0]))
    ensures QuietBefore(w, best, entries, results, i + 1) <==> QuietBefore(w, best, e, results[1..], i)
  {
    assert forall p :: 0 <= p < |results[1..]| ==> results[1..][p] == results[p + 1];
    if QuietBefore(w, best, entries, results, i + 1) {
      forall p | 0 <= p < i && IsRival(best, results[1..][p]) ensures !Contests(w, Lookup(w, e, results[1..][p])) {
        assert !Contests(w, Lookup(w, entries, results[p + 1]));
      }
    }
    if QuietBefore(w, best, e, results[1..], i) {
      forall p | 0 <= p < i + 1 && IsRival(best, results[p]) ensures !Contests(w, Lookup(w, entries, results[p])) {
        assert p > 0 ==> !Contests(w, Lookup(w, e, results[1..][p - 1]));
      }
    }
  }

  /** A first result that is paid for and does not contest: it joins the cache. */
  lemma MissedPaysOne(w: World, best: Mbid, entries: Entries, results: seq<Mbid>, n: nat, i: nat, j: nat)
    requires results != [] && i < j < |results[1..]| && IsRival(best, results[0]) && results[0] !in entries && n > 0
    requires !Contests(w, Lookup(w, entries, results[0]))
    ensures MissedAt(w, best, entries, results, n, i + 1, j + 1) <==>
            MissedAt(w, best, AfterLookup(w, entries, results[0]), results[1..], n - 1, i, j)
  {
    var e := AfterLookup(w, entries, results[0]);
    assert w.hasFetcher && e.Keys == entries.Keys + {results[0]};
    assert forall x :: Lookup(w, e, x) == Lookup(w, entries, x);
    UnpaidPaysOne(best, entries, e, results, n, i);
    QuietSkipsOne(w, best, entries, e, results, i);
    assert results[1..][j] == results[j + 1];
  }

  /** On any cache: stopping over budget loses a contest exactly when, before anything contests, there is one
      uncached rival more than the budget pays for, and a cached contesting rival stands after it. */
  lemma {:induction false} StopMissesExactly(w: World, best: Mbid, entries: Entries, results: seq<Mbid>, fetched: nat)
    requires fetched <= RIVAL_BUDGET
    ensures FullScan(w, best, entries, results, fetched) && !Scan(w, best, entries, results, fetched) <==>
            Missed(w, best, entries, results, RIVAL_BUDGET - fetched)
    ensures Scan(w, best, entries, results, fetched) ==> FullScan(w, best, entries, results, fetched)
    decreases |results|
  {
    var n := RIVAL_BUDGET - fetched;
    if results == [] {
      return;
    }
    var m, rest := results[0], results[1..];
    if !IsRival(best, m) || (m in entries && !Contests(w, Lookup(w, entries, m))) {
      StopMissesExactly(w, best, entries, rest, fetched);
      ShiftMissed(w, best, entries, entries, results, n, n);
    } else if Contests(w, Lookup(w, entries, m)) && (m in entries || n > 0) {
      ContestMissesNothing(w, best, entries, results, n);
    } else if n > 0 {
      StopMissesExactly(w, best, AfterLookup(w, entries, m), rest, fetched + 1);
      ShiftMissed(w, best, entries, AfterLookup(w, entries, m), results, n, n - 1);
    } else {
      FullScanOverBudget(w, best, entries, results, fetched);
      StopHere(w, best, entries, results);
    }
  }

  /** A first result that does not contest: what is missed is missed in the rest. */
  lemma ShiftMissed(w: World, best: Mbid, entries: Entries, e: Entries, results: seq<Mbid>, n: nat, k: nat)
    requires results != [] && (IsRival(best, results[0]) ==> !Contests(w, Lookup(w, entries, results[0])))
    requires if IsRival(best, results[0]) && results[0] !in entries
             then n > 0 && k == n - 1 && e == AfterLookup(w, entries, results[0])
             else k == n && e == entries
    ensures Missed(w, best, entries, results, n) <==> Missed(w, best, e, results[1..], k)
  {
    var rest := results[1..];
    forall i: nat, j: nat | i < j < |rest|
      ensures MissedAt(w, best, entries, results, n, i + 1, j + 1) <==> MissedAt(w, best, e, rest, k, i, j)
    {
      if IsRival(best, results[0]) && results[0] !in entries {
        MissedPaysOne(w, best, entries, results, n, i, j);
      } else {
        MissedSkipsOne(w, best, entries, results, n, i, j);
      }
    }
    if i: nat, j: nat :| i < j < |results| && MissedAt(w, best, entries, results, n, i, j) {
      assert results[..0] == [] && Uncached(best, entries, []) == {};
      assert i > 0;
      assert MissedAt(w, best, entries, results, n, (i - 1) + 1, (j - 1) + 1);
      assert MissedAt(w, best, e, rest, k, i - 1, j - 1);
    }
    if i: nat, j: nat :| i < j < |rest| && MissedAt(w, best, e, rest, k, i, j) {
      assert MissedAt(w, best, entries, results, n, i + 1, j + 1);
    }
  }

  lemma ContestMissesNothing(w: World, best: Mbid, entries: Entries, results: seq<Mbid>, n: nat)
    requires results != [] && IsRival(best, results[0]) && Contests(w, Lookup(w, entries, results[0]))
    requires results[0] in entries || n > 0
    ensures !Missed(w, best, entries, results, n)
  {
    assert results[..0] == [] && Uncached(best, entries, []) == {};
  }

  lemma StopHere(w: World, best: Mbid, entries: Entries, results: seq<Mbid>)
    requires results != [] && IsRival(best, results[0]) && results[0] !in entries
    ensures Missed(w, best, entries, results, 0) <==> exists m :: m in results && HeldContest(w, best, entries, m)
  {
    assert results[..0] == [] && Uncached(best, entries, []) == {};
    if m :| m in results && HeldContest(w, best, entries, m) {
      var j: nat :| j < |results| && results[j] == m;
      assert MissedAt(w, best, entries, results, 0, 0, j);
    }
    if i: nat, j: nat :| i < j < |results| && MissedAt(w, best, entries, results, 0, i, j) {
      assert results[j] in results;
    }
  }

  /** From a cache that holds at most the best candidate, stopping over budget gives the same answer as skipping
      and scanning on. */
  lemma ColdStopAgreesWithFullScan(w: World, best: Mbid, entries: Entries, results: seq<Mbid>)
    requires entries.Keys <= {best}
    ensures Scan(w, best, entries, results, 0) == FullScan(w, best, entries, results, 0)
  {
    StopMissesExactly(w, best, entries, results, 0);
  }

  /** On a warm cache it need not: with two quiet rivals and a third uncached one in front, a cached contesting
      rival is never consulted. */
  lemma WarmStopCanMiss(w: World, best: Mbid, a: Mbid, b: Mbid, c: Mbid, d: Mbid, titles: seq<string>)
    requires w.hasFetcher && IsRival(best, a) && IsRival(best, b) && IsRival(best, c) && IsRival(best, d)
    requires a != b && a != c && a != d && b != c && b != d && c != d
    requires !Contests(w, Fetched(w, a)) && !Contests(w, Fetched(w, b)) && Contests(w, Entry(titles, true))
    ensures var entries := map[d := Entry(titles, true)];
            !Scan(w, best, entries, [a, b, c, d], 0) && FullScan(w, best, entries, [a, b, c, d], 0)
  {
    var e0 := map[d := Entry(titles, true)];
    var e1 := e0[a := Fetched(w, a)];
    var e2 := e1[b := Fetched(w, b)];
    var all := [a, b, c, d];
    assert all[1..] == [b, c, d] && [b, c, d][1..] == [c, d] && [c, d][1..] == [d];
    assert Scan(w, best, e0, all, 0) == Scan(w, best, e1, [b, c, d], 1) == Scan(w, best, e2, [c, d], 2);
    assert FullScan(w, best, e0, all, 0) == FullScan(w, best, e1, [b, c, d], 1) == FullScan(w, best, e2, [c, d], 2);
    assert FullScan(w, best, e2, [c, d], 2) == FullScan(w, best, e2, [d], 2);
  }

  // ---------------------------------------------------------------- warming the cache

  /** Everything the cache holds is what the provider would answer. */
  ghost predicate Faithful(w: World, entries: Entries) {
    forall m :: m in entries ==> m != "" && entries[m] == Fetched(w, m)
  }

  /** Warming the cache with true answers, or having spent less, can only turn "uncontested" into "contested". */
  lemma {:induction false} WarmingOnlyAddsContests(w: World, best: Mbid, cold: Entries, warm: Entries,
                                                   results: seq<Mbid>, spentCold: nat, spentWarm: nat)
    requires w.hasFetcher && Faithful(w, cold) && Faithful(w, warm) && cold.Keys <= warm.Keys && spentWarm <= spentCold
    requires Scan(w, best, cold, results, spentCold)
    ensures Scan(w, best, warm, results, spentWarm)
    decreases |results|
  {
    var m := results[0];
    if !IsRival(best, m) {
      WarmingOnlyAddsContests(w, best, cold, warm, results[1..], spentCold, spentWarm);
    } else if !Contests(w, Fetched(w, m)) {
      WarmingOnlyAddsContests(w, best, AfterLookup(w, cold, m), AfterLookup(w, warm, m), results[1..],
                              if m in cold then spentCold else spentCold + 1,
                              if m in warm then spentWarm else spentWarm + 1);
    }
  }
}
