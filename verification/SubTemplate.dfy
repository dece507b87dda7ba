/** The sub-template walk of cmd/gen-settings-reference/main.go: one file whose helpers call each other. Bodies of
    called helpers are skipped where they are declared and expanded where they are called. */
module SubTemplate {
  import opened KeyWalk
  import opened Sequences

  /** A half-open range of token positions: the body of one helper declaration. */
  datatype Range = Range(start: nat, end: nat)

  type Ranges = map<string, Range>

  /** Bodies lie in the file and do not overlap. */
  ghost predicate WellPlaced(src: seq<Token>, ranges: Ranges) {
    && (forall h :: h in ranges ==> ranges[h].start <= ranges[h].end <= |src|)
    && (forall g, h :: g in ranges && h in ranges && g != h ==>
          ranges[g].end <= ranges[h].start || ranges[h].end <= ranges[g].start)
  }

  /** The file as a site for the walk: every local helper is expanded in place. */
  function FileSite(src: seq<Token>, ranges: Ranges, noise: string -> bool): Site
    requires forall h :: h in ranges ==> ranges[h].start <= ranges[h].end <= |src|
  {
    Site(map h | h in ranges :: Helper(src[ranges[h].start..ranges[h].end], true), noise)
  }

  ghost predicate IsCalled(src: seq<Token>, h: string) {
    Call(h) in src
  }

  /** Position i lies in the body of a helper that is called somewhere in the file. */
  ghost predicate Skipped(src: seq<Token>, ranges: Ranges, i: nat) {
    exists h :: h in ranges && IsCalled(src, h) && ranges[h].start <= i < ranges[h].end
  }

  /** The tokens from position i on that are walked in place. */
  ghost function Kept(src: seq<Token>, ranges: Ranges, i: nat): seq<Token>
    requires i <= |src|
    decreases |src| - i
  {
    if i == |src| then []
    else if Skipped(src, ranges, i) then Kept(src, ranges, i + 1)
    else [src[i]] + Kept(src, ranges, i + 1)
  }

  ghost function SubTemplateKeys(src: seq<Token>, ranges: Ranges, noise: string -> bool): seq<string>
    requires WellPlaced(src, ranges)
  {
    Walk(FileSite(src, ranges, noise), {}, Kept(src, ranges, 0), Acc([], [])).out
  }

  // ---------------------------------------------------------------- skip ranges

  ghost predicate SortedByStart(rs: seq<Range>) {
    forall i, j :: 0 <= i < j < |rs| ==> rs[i].start <= rs[j].start
  }

  /** The linear scan with its early exit; sound because the ranges are sorted by start. */
  method InSkipRange(pos: nat, rs: seq<Range>) returns (inside: bool)
    requires SortedByStart(rs)
    ensures inside <==> exists k :: 0 <= k < |rs| && rs[k].start <= pos < rs[k].end
  {
    for i := 0 to |rs|
      invariant forall k :: 0 <= k < i ==> !(rs[k].start <= pos < rs[k].end)
    {
      if pos >= rs[i].start && pos < rs[i].end {
        return true;
      }
      if pos < rs[i].start {
        return false;
      }
    }
    return false;
  }

  lemma InsertedPair(rs: seq<Range>, i: nat, r: Range, j: nat, k: nat)
    requires SortedByStart(rs) && i <= |rs| && j < k <= |rs|
    requires i > 0 ==> rs[i - 1].start <= r.start
    requires i < |rs| ==> r.start <= rs[i].start
    ensures Inserted(rs, r, i)[j].start <= Inserted(rs, r, i)[k].start
  {
    InsertedAt(rs, r, i, j);
    InsertedAt(rs, r, i, k);
    assert j < i - 1 ==> rs[j].start <= rs[i - 1].start;
    assert k > i + 1 ==> rs[i].start <= rs[k - 1].start;
  }

  method InsertByStart(rs: seq<Range>, r: Range) returns (sorted: seq<Range>)
    requires SortedByStart(rs)
    ensures SortedByStart(sorted) && forall x :: x in sorted <==> x == r || x in rs
  {
    var i := 0;
    while i < |rs| && rs[i].start <= r.start
      invariant i <= |rs| && (i > 0 ==> rs[i - 1].start <= r.start)
    {
      i := i + 1;
    }
    forall j, k | 0 <= j < k <= |rs| ensures Inserted(rs, r, i)[j].start <= Inserted(rs, r, i)[k].start {
      InsertedPair(rs, i, r, j, k);
    }
    InsertedMembers(rs, r, i);
    sorted := rs[..i] + [r] + rs[i..];
    assert sorted == Inserted(rs, r, i);
  }

  /** The ranges of the called helpers, sorted by start. */
  method SkipRanges(src: seq<Token>, ranges: Ranges) returns (skip: seq<Range>)
    ensures SortedByStart(skip)
    ensures forall r :: r in skip <==> exists h :: h in ranges && IsCalled(src, h) && ranges[h] == r
  {
    var called := set x | x in src && x.Call? :: x.helper;
    assert forall h :: h in called <==> Call(h) in src by {
      forall h | Call(h) in src ensures h in called {
        assert Call(h).helper == h;
      }
    }
    skip := [];
    var todo := ranges.Keys;
    while todo != {}
      invariant todo <= ranges.Keys && SortedByStart(skip)
      invariant forall r :: r in skip <==> exists h :: h in ranges && h !in todo && IsCalled(src, h) && ranges[h] == r
      decreases todo
    {
      var h :| h in todo;
      todo := todo - {h};
      if h in called {
        skip := InsertByStart(skip, ranges[h]);
      }
    }
  }

  // ---------------------------------------------------------------- the walk as the generator performs it

  class OrderedWalker {
    var visiting: set<string>
    var seen: set<string>
    var out: seq<string>

    ghost predicate Valid()
      reads this
    {
      forall k :: k in seen <==> k in out
    }

    constructor ()
      ensures Valid() && visiting == {} && out == []
    {
      visiting, seen, out := {}, {}, [];
    }

    /** One key or call; calls are expanded in place. */
    method Visit(src: seq<Token>, ranges: Ranges, noise: string -> bool, x: Token)
      requires Valid() && WellPlaced(src, ranges)
      modifies this
      decreases ranges.Keys - visiting, 0
      ensures Valid() && visiting == old(visiting)
      ensures Acc(out, []) == StepAcc(FileSite(src, ranges, noise), old(visiting), x, Acc(old(out), []))
    {
      match x {
        case Text =>
        case Key(k) =>
          if !noise(k) && k !in seen {
            seen := seen + {k};
            out := out + [k];
          }
        case Call(h) =>
          if h in visiting || h !in ranges {
            return;
          }
          var r := ranges[h];
          assert h in ranges.Keys - visiting;
          assert FileSite(src, ranges, noise).index.Keys == ranges.Keys;
          visiting := visiting + {h};
          WalkBody(src, ranges, noise, r.start, r.end);
          visiting := visiting - {h};
      }
    }

    /** A helper body: no range is skipped. */
    method WalkBody(src: seq<Token>, ranges: Ranges, noise: string -> bool, start: nat, end: nat)
      requires Valid() && WellPlaced(src, ranges) && start <= end <= |src|
      modifies this
      decreases ranges.Keys - visiting, 1
      ensures Valid() && visiting == old(visiting)
      ensures Acc(out, []) == Walk(FileSite(src, ranges, noise), old(visiting), src[start..end], Acc(old(out), []))
    {
      ghost var s := FileSite(src, ranges, noise);
      ghost var goal := Walk(s, visiting, src[start..end], Acc(out, []));
      for i := start to end
        invariant Valid() && visiting == old(visiting)
        invariant Walk(s, visiting, src[i..end], Acc(out, [])) == goal
      {
        assert src[i..end][0] == src[i] && src[i..end][1..] == src[i + 1..end];
        WalkSteps(s, visiting, src[i..end], Acc(out, []));
        Visit(src, ranges, noise, src[i]);
      }
    }

    /** The file itself: positions in skip ranges are passed over. */
    method WalkFile(src: seq<Token>, ranges: Ranges, noise: string -> bool, skip: seq<Range>)
      requires Valid() && WellPlaced(src, ranges) && SortedByStart(skip)
      requires forall r :: r in skip <==> exists h :: h in ranges && IsCalled(src, h) && ranges[h] == r
      modifies this
      ensures Valid() && visiting == old(visiting)
      ensures Acc(out, []) == Walk(FileSite(src, ranges, noise), old(visiting), Kept(src, ranges, 0), Acc(old(out), []))
    {
      ghost var s := FileSite(src, ranges, noise);
      ghost var goal := Walk(s, visiting, Kept(src, ranges, 0), Acc(out, []));
      for i := 0 to |src|
        invariant Valid() && visiting == old(visiting)
        invariant Walk(s, visiting, Kept(src, ranges, i), Acc(out, [])) == goal
      {
        var inside := InSkipRange(i, skip);
        assert inside <==> Skipped(src, ranges, i) by {
          SkipMeansSkipped(src, ranges, skip, i);
        }
        if inside {
          continue;
        }
        assert Kept(src, ranges, i)[1..] == Kept(src, ranges, i + 1);
        WalkSteps(s, visiting, Kept(src, ranges, i), Acc(out, []));
        Visit(src, ranges, noise, src[i]);
      }
    }
  }

  lemma SkipMeansSkipped(src: seq<Token>, ranges: Ranges, skip: seq<Range>, i: nat)
    requires forall r :: r in skip <==> exists h :: h in ranges && IsCalled(src, h) && ranges[h] == r
    ensures (exists k :: 0 <= k < |skip| && skip[k].start <= i < skip[k].end) <==> Skipped(src, ranges, i)
  {
    if k :| 0 <= k < |skip| && skip[k].start <= i < skip[k].end {
      assert skip[k] in skip;
    }
    if h :| h in ranges && IsCalled(src, h) && ranges[h].start <= i < ranges[h].end {
      assert ranges[h] in skip;
      var k :| 0 <= k < |skip| && skip[k] == ranges[h];
    }
  }

  method ExtractSubTemplateKeys(src: seq<Token>, ranges: Ranges, noise: string -> bool) returns (keys: seq<string>)
    requires WellPlaced(src, ranges)
    ensures keys == SubTemplateKeys(src, ranges, noise)
  {
    var skip := SkipRanges(src, ranges);
    var w := new OrderedWalker();
    w.WalkFile(src, ranges, noise, skip);
    return w.out;
  }

  /** The flat scan of a whole source: its keys in the order of their first encounter. */
  method ExtractKeys(src: seq<Token>, noise: string -> bool) returns (keys: seq<string>)
    ensures forall k :: k in keys <==> Key(k) in src && !noise(k)
    ensures Distinct(keys) && InEncounterOrder(src, keys)
  {
    keys := [];
    var seen: set<string> := {};
    ghost var s := Site(map[], noise);
    for i := 0 to |src|
      invariant Lists(s, src[..i], keys) && forall k :: k in seen <==> k in keys
    {
      ListsOneMore(s, src[..i], src[i], keys);
      assert src[..i + 1] == src[..i] + [src[i]];
      if src[i].Key? && !noise(src[i].key) && src[i].key !in seen {
        seen := seen + {src[i].key};
        keys := keys + [src[i].key];
      }
    }
    assert src[..|src|] == src;
  }

  // ---------------------------------------------------------------- every file

  /** On every file, cyclic calls included: the walk lists exactly the keys walked in place or standing in a body
      reachable from there, each once. */
  lemma SubTemplateKeysExact(src: seq<Token>, ranges: Ranges, noise: string -> bool, k: string)
    requires WellPlaced(src, ranges)
    ensures k in SubTemplateKeys(src, ranges, noise) <==>
            !noise(k) && ReachesToken(FileSite(src, ranges, noise), Kept(src, ranges, 0), Key(k))
    ensures Distinct(SubTemplateKeys(src, ranges, noise))
  {
    var s := FileSite(src, ranges, noise);
    WalkRecordsExactlyReachable(s, Kept(src, ranges, 0), Key(k));
    WalkKeepsDistinct(s, {}, Kept(src, ranges, 0), Acc([], []));
  }

  lemma {:induction false} KeptContains(src: seq<Token>, ranges: Ranges, i: nat, x: Token)
    requires i <= |src|
    ensures x in Kept(src, ranges, i) <==> exists j :: i <= j < |src| && src[j] == x && !Skipped(src, ranges, j)
    decreases |src| - i
  {
    if i < |src| {
      KeptContains(src, ranges, i + 1, x);
    }
  }

  /** Nothing is invented: whatever a path leads to stands in the file. */
  lemma {:induction false} PathEndsInFile(src: seq<Token>, ranges: Ranges, noise: string -> bool,
                                          body: seq<Token>, path: seq<string>, x: Token)
    requires WellPlaced(src, ranges) && (forall y :: y in body ==> y in src)
    requires Path(FileSite(src, ranges, noise), body, path) && x in End(FileSite(src, ranges, noise), body, path)
    ensures x in src
    decreases |path|
  {
    if path != [] {
      var next := FileSite(src, ranges, noise).index[path[0]].body;
      assert forall y :: y in next ==> y in src;
      PathEndsInFile(src, ranges, noise, next, path[1..], x);
    }
  }

  /** What is walked in place is the text without the skipped positions, in the order of the file. */
  lemma {:induction false} KeptIsTheTextInOrder(src: seq<Token>, ranges: Ranges, i: nat) returns (at: seq<nat>)
    requires i <= |src|
    ensures |at| == |Kept(src, ranges, i)|
    ensures forall n :: 0 <= n < |at| ==> i <= at[n] < |src| && Kept(src, ranges, i)[n] == src[at[n]]
    ensures forall m, n :: 0 <= m < n < |at| ==> at[m] < at[n]
    ensures forall p: nat :: i <= p < |src| ==> (p in at <==> !Skipped(src, ranges, p))
    decreases |src| - i
  {
    at := [];
    if i < |src| {
      var rest := KeptIsTheTextInOrder(src, ranges, i + 1);
      if Skipped(src, ranges, i) {
        at := rest;
      } else {
        at := [i] + rest;
        assert forall n :: 0 < n < |at| ==> at[n] == rest[n - 1];
        assert forall p: nat :: p in at <==> p == i || p in rest;
      }
    }
  }

  /** The list is that of the kept text with its calls expanded in place, in the order of first encounter. */
  lemma SubTemplateKeysInOrder(src: seq<Token>, ranges: Ranges, noise: string -> bool)
    requires WellPlaced(src, ranges)
    ensures var s := FileSite(src, ranges, noise);
            Lists(s, Expand(s, {}, Kept(src, ranges, 0)), SubTemplateKeys(src, ranges, noise))
  {
    var s, kept := FileSite(src, ranges, noise), Kept(src, ranges, 0);
    WalkIsFlatOfExpansion(s, {}, kept, Acc([], []));
    FlatLists(s, [], Expand(s, {}, kept), []);
    assert [] + Expand(s, {}, kept) == Expand(s, {}, kept);
  }

  // ---------------------------------------------------------------- acyclic files

  ghost predicate Acyclic(s: Site) {
    forall h :: h in s.index ==> NeverReaches(s, s.index[h].body, h)
  }

  lemma {:induction false} PathThenCall(s: Site, body: seq<Token>, path: seq<string>, h: string)
    requires Path(s, body, path) && Call(h) in End(s, body, path) && IsExtraction(s, h)
    ensures Path(s, body, path + [h]) && End(s, body, path + [h]) == s.index[h].body
    decreases |path|
  {
    if path == [] {
      assert ([] + [h])[1..] == [];
    } else {
      assert (path + [h])[1..] == path[1..] + [h];
      PathThenCall(s, s.index[path[0]].body, path[1..], h);
    }
  }

  lemma {:induction false} PathPrefix(s: Site, body: seq<Token>, path: seq<string>, i: nat)
    requires Path(s, body, path) && i < |path|
    ensures Path(s, body, path[..i + 1]) && IsExtraction(s, path[i])
    ensures End(s, body, path[..i + 1]) == s.index[path[i]].body
    decreases |path|
  {
    assert path[..i + 1][1..] == path[1..][..i];
    if i > 0 {
      PathPrefix(s, s.index[path[0]].body, path[1..], i - 1);
    }
  }

  lemma DistinctFits(names: seq<string>, all: set<string>)
    requires Distinct(names) && forall n :: n in names ==> n in all
    ensures |names| <= |all|
  {
    if names != [] {
      var init := names[..|names| - 1];
      assert forall n :: n in init ==> n in all - {names[|names| - 1]};
      DistinctFits(init, all - {names[|names| - 1]});
    }
  }

  /** A chain whose i-th helper calls the first one closes a cycle. */
  lemma ChainClosesCycle(s: Site, chain: seq<string>, i: nat)
    requires i < |chain| && IsExtraction(s, chain[0]) && Path(s, s.index[chain[0]].body, chain[1..])
    requires IsExtraction(s, chain[i]) && Call(chain[0]) in s.index[chain[i]].body
    ensures !NeverReaches(s, s.index[chain[0]].body, chain[0])
  {
    var body := s.index[chain[0]].body;
    var down := chain[1..][..i];
    if i > 0 {
      PathPrefix(s, body, chain[1..], i - 1);
    }
    PathThenCall(s, body, down, chain[0]);
    assert (down + [chain[0]])[|down|] == chain[0];
  }

  /** Some path of calls walked from `body` ends in helper h. */
  ghost predicate PathTo(s: Site, body: seq<Token>, h: string) {
    exists path :: Path(s, body, path) && path != [] && path[|path| - 1] == h
  }

  /** A caller put in front of an acyclic chain is new to it. */
  lemma CallerIsNew(s: Site, keys: set<string>, chain: seq<string>, g: string)
    requires Acyclic(s) && chain != [] && Distinct(chain) && g in keys && keys <= s.index.Keys
    requires forall h :: h in chain ==> h in keys
    requires Path(s, s.index[g].body, chain)
    ensures Distinct([g] + chain) && (forall h :: h in [g] + chain ==> h in keys) && |chain| < |keys|
  {
    if i: nat :| i < |chain| && chain[i] == g {
      ChainClosesCycle(s, chain, i);
    }
    DistinctFits([g] + chain, keys);
  }

  /** Climbing from a called helper through its callers ends at a call that is walked in place: `chain` leads
      down from its first helper to the one in question. */
  lemma {:induction false} ClimbToKept(src: seq<Token>, ranges: Ranges, s: Site, chain: seq<string>)
    requires WellPlaced(src, ranges) && s == FileSite(src, ranges, s.noise) && Acyclic(s)
    requires chain != [] && Distinct(chain) && (forall h :: h in chain ==> h in ranges) && IsCalled(src, chain[0])
    requires Path(s, s.index[chain[0]].body, chain[1..])
    ensures PathTo(s, Kept(src, ranges, 0), chain[|chain| - 1])
    decreases |ranges.Keys| - |chain|
  {
    var c :| 0 <= c < |src| && src[c] == Call(chain[0]);
    if !Skipped(src, ranges, c) {
      KeptContains(src, ranges, 0, src[c]);
      assert Path(s, Kept(src, ranges, 0), chain);
    } else {
      var g :| g in ranges && IsCalled(src, g) && ranges[g].start <= c < ranges[g].end;
      BodyContains(src, ranges, s, g, c);
      CallerIsNew(s, ranges.Keys, chain, g);
      assert ([g] + chain)[1..] == chain;
      ClimbToKept(src, ranges, s, [g] + chain);
    }
  }

  lemma BodyContains(src: seq<Token>, ranges: Ranges, s: Site, h: string, i: nat)
    requires WellPlaced(src, ranges) && s == FileSite(src, ranges, s.noise)
    requires h in ranges && ranges[h].start <= i < ranges[h].end
    ensures src[i] in s.index[h].body
  {
    assert s.index[h].body[i - ranges[h].start] == src[i];
  }

  lemma PathReachesEnd(s: Site, body: seq<Token>, h: string, x: Token)
    requires PathTo(s, body, h) && h in s.index && x in s.index[h].body
    ensures ReachesToken(s, body, x)
  {
    var path :| Path(s, body, path) && path != [] && path[|path| - 1] == h;
    PathPrefix(s, body, path, |path| - 1);
    assert path[..|path|] == path;
  }

  /** Every token of an acyclic file is reached by the walk. */
  lemma AcyclicReachesAll(src: seq<Token>, ranges: Ranges, s: Site, i: nat)
    requires WellPlaced(src, ranges) && s == FileSite(src, ranges, s.noise) && Acyclic(s) && i < |src|
    ensures ReachesToken(s, Kept(src, ranges, 0), src[i])
  {
    var kept, x := Kept(src, ranges, 0), src[i];
    if Skipped(src, ranges, i) {
      var h :| h in ranges && IsCalled(src, h) && ranges[h].start <= i < ranges[h].end;
      BodyContains(src, ranges, s, h, i);
      ClimbToKept(src, ranges, s, [h]);
      PathReachesEnd(s, kept, h, x);
    } else {
      KeptContains(src, ranges, 0, x);
      assert Path(s, kept, []) && x in End(s, kept, []);
    }
  }

  /** In a file whose helper calls are acyclic, skipping called bodies where they are declared and expanding them
      where they are called neither loses nor invents a key. */
  lemma AcyclicLosesNothing(src: seq<Token>, ranges: Ranges, noise: string -> bool, k: string)
    requires WellPlaced(src, ranges) && Acyclic(FileSite(src, ranges, noise))
    ensures k in SubTemplateKeys(src, ranges, noise) <==> Key(k) in src && !noise(k)
  {
    var s := FileSite(src, ranges, noise);
    var kept := Kept(src, ranges, 0);
    SubTemplateKeysExact(src, ranges, noise, k);
    if ReachesToken(s, kept, Key(k)) {
      var path :| Path(s, kept, path) && Key(k) in End(s, kept, path);
      forall y | y in kept ensures y in src {
        KeptContains(src, ranges, 0, y);
      }
      PathEndsInFile(src, ranges, noise, kept, path, Key(k));
    }
    if i: nat :| i < |src| && src[i] == Key(k) {
      AcyclicReachesAll(src, ranges, s, i);
    }
  }

  /** On any file: nothing is lost exactly when every key that stands in a skipped body, and is not noise, is
      reached through calls from the text that is kept. */
  lemma LosesNothingExactly(src: seq<Token>, ranges: Ranges, noise: string -> bool)
    requires WellPlaced(src, ranges)
    ensures (forall k :: Key(k) in src && !noise(k) ==> k in SubTemplateKeys(src, ranges, noise)) <==>
            (forall i: nat :: i < |src| && Skipped(src, ranges, i) && src[i].Key? && !noise(src[i].key) ==>
               ReachesToken(FileSite(src, ranges, noise), Kept(src, ranges, 0), src[i]))
  {
    var s, kept := FileSite(src, ranges, noise), Kept(src, ranges, 0);
    if forall k :: Key(k) in src && !noise(k) ==> k in SubTemplateKeys(src, ranges, noise) {
      forall i: nat | i < |src| && Skipped(src, ranges, i) && src[i].Key? && !noise(src[i].key)
        ensures ReachesToken(s, kept, src[i])
      {
        assert src[i] == Key(src[i].key) && Key(src[i].key) in src;
        SubTemplateKeysExact(src, ranges, noise, src[i].key);
      }
    }
    if forall i: nat :: i < |src| && Skipped(src, ranges, i) && src[i].Key? && !noise(src[i].key) ==>
         ReachesToken(s, kept, src[i])
    {
      forall k | Key(k) in src && !noise(k) ensures k in SubTemplateKeys(src, ranges, noise) {
        var i: nat :| i < |src| && src[i] == Key(k);
        SubTemplateKeysExact(src, ranges, noise, k);
        if !Skipped(src, ranges, i) {
          KeptContains(src, ranges, 0, Key(k));
          assert Path(s, kept, []) && Key(k) in End(s, kept, []);
        }
      }
    }
  }

  /** Acyclicity is needed: a helper called only by itself is skipped where it stands and expanded nowhere. */
  lemma SelfCallLosesItsKeys(h: string, k: string, noise: string -> bool)
    requires !noise(k)
    ensures var src := [Key(k), Call(h)];
            var ranges := map[h := Range(0, 2)];
            WellPlaced(src, ranges) && Key(k) in src && SubTemplateKeys(src, ranges, noise) == []
  {
    var src := [Key(k), Call(h)];
    var ranges := map[h := Range(0, 2)];
    assert src[1] == Call(h);
    assert IsCalled(src, h);
    assert Skipped(src, ranges, 0) && Skipped(src, ranges, 1);
    assert Kept(src, ranges, 2) == [] && Kept(src, ranges, 1) == [] && Kept(src, ranges, 0) == [];
  }
}
