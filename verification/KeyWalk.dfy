/** The panel walk of cmd/gen-settings-reference/main.go: collecting i18n keys from a template region while
    expanding helper calls. Source text is abstracted to the tokens its two regular expressions find. */
module KeyWalk {

  datatype Token = Key(key: string) | Call(helper: string) | Text

  /** A helper's body. Extraction-layer helpers are transparent: the walk recurses into them. All other
      (trunk) helpers are deferred and expanded one level at the end. */
  datatype Helper = Helper(body: seq<Token>, extraction: bool)

  /** The global helper index, and the predicate that filters runtime text. */
  datatype Site = Site(index: map<string, Helper>, noise: string -> bool)

  /** What a walk accumulates: the keys in order of first encounter and the trunk calls in encounter order. */
  datatype Acc = Acc(out: seq<string>, deferred: seq<string>)

  predicate IsExtraction(s: Site, h: string) {
    h in s.index && s.index[h].extraction
  }

  predicate IsTrunk(s: Site, h: string) {
    h in s.index && !s.index[h].extraction
  }

  function Emit(s: Site, k: string, out: seq<string>): seq<string> {
    if s.noise(k) || k in out then out else out + [k]
  }

  /** The positional walk with a path-local cycle guard. */
  function Walk(s: Site, visiting: set<string>, body: seq<Token>, acc: Acc): Acc
    decreases s.index.Keys - visiting, |body|
  {
    if body == [] then acc else
    match body[0]
    case Text => Walk(s, visiting, body[1..], acc)
    case Key(k) => Walk(s, visiting, body[1..], acc.(out := Emit(s, k, acc.out)))
    case Call(h) =>
      if h in visiting || h !in s.index then Walk(s, visiting, body[1..], acc)
      else if s.index[h].extraction then
        assert h in s.index.Keys - visiting;
        Walk(s, visiting, body[1..], Walk(s, visiting + {h}, s.index[h].body, acc))
      else Walk(s, visiting, body[1..], acc.(deferred := acc.deferred + [h]))
  }

  /** The keys textually present in a body, calls ignored. */
  function Flat(s: Site, body: seq<Token>, out: seq<string>): seq<string> {
    if body == [] then out
    else if body[0].Key? then Flat(s, body[1..], Emit(s, body[0].key, out))
    else Flat(s, body[1..], out)
  }

  function FlatAll(s: Site, names: seq<string>, out: seq<string>): seq<string>
    requires forall n :: n in names ==> n in s.index
  {
    if names == [] then out else FlatAll(s, names[1..], Flat(s, s.index[names[0]].body, out))
  }

  lemma {:induction false} WalkDefersTrunkOnly(s: Site, visiting: set<string>, body: seq<Token>, acc: Acc)
    requires forall n :: n in acc.deferred ==> IsTrunk(s, n)
    ensures forall n :: n in Walk(s, visiting, body, acc).deferred ==> IsTrunk(s, n)
    decreases s.index.Keys - visiting, |body|
  {
    if body != [] {
      var next := acc;
      if body[0].Key? {
        next := acc.(out := Emit(s, body[0].key, acc.out));
      } else if body[0].Call? && body[0].helper !in visiting && body[0].helper in s.index {
        var h := body[0].helper;
        if s.index[h].extraction {
          assert h in s.index.Keys - visiting;
          WalkDefersTrunkOnly(s, visiting + {h}, s.index[h].body, acc);
          next := Walk(s, visiting + {h}, s.index[h].body, acc);
        } else {
          next := acc.(deferred := acc.deferred + [h]);
        }
      }
      WalkDefersTrunkOnly(s, visiting, body[1..], next);
    }
  }

  function PanelRegionKeys(s: Site, region: seq<Token>): seq<string> {
    var acc := Walk(s, {}, region, Acc([], []));
    WalkDefersTrunkOnly(s, {}, region, Acc([], []));
    FlatAll(s, acc.deferred, acc.out)
  }

  // ---------------------------------------------------------------- the walk as the generator performs it

  class Walker {
    var visiting: set<string>
    var seen: set<string>
    var out: seq<string>
    var deferred: seq<string>

    ghost predicate Valid()
      reads this
    {
      forall k :: k in seen <==> k in out
    }

    ghost function Collected(): Acc
      reads this
    {
      Acc(out, deferred)
    }

    constructor ()
      ensures Valid() && visiting == {} && Collected() == Acc([], [])
    {
      visiting, seen, out, deferred := {}, {}, [], [];
    }

    method EmitKey(s: Site, k: string)
      requires Valid()
      modifies this`seen, this`out
      ensures Valid() && out == Emit(s, k, old(out))
    {
      if !s.noise(k) && k !in seen {
        seen := seen + {k};
        out := out + [k];
      }
    }

    method WalkPanelRegion(s: Site, body: seq<Token>)
      requires Valid()
      modifies this
      decreases s.index.Keys - visiting
      ensures Valid() && visiting == old(visiting)
      ensures Collected() == Walk(s, old(visiting), body, old(Collected()))
    {
      ghost var goal := Walk(s, visiting, body, Collected());
      for i := 0 to |body|
        invariant Valid() && visiting == old(visiting)
        invariant Walk(s, visiting, body[i..], Collected()) == goal
      {
        assert body[i..][1..] == body[i + 1..];
        match body[i] {
          case Text =>
          case Key(k) => EmitKey(s, k);
          case Call(h) =>
            if h in visiting || h !in s.index {
              continue;
            }
            if s.index[h].extraction {
              assert h in s.index.Keys - visiting;
              visiting := visiting + {h};
              WalkPanelRegion(s, s.index[h].body);
              visiting := visiting - {h};
            } else {
              deferred := deferred + [h];
            }
        }
      }
    }

    method EmitHelperKeysFlat(s: Site, body: seq<Token>)
      requires Valid()
      modifies this`seen, this`out
      ensures Valid() && out == Flat(s, body, old(out))
    {
      ghost var goal := Flat(s, body, out);
      for i := 0 to |body|
        invariant Valid() && Flat(s, body[i..], out) == goal
      {
        assert body[i..][1..] == body[i + 1..];
        if body[i].Key? {
          EmitKey(s, body[i].key);
        }
      }
    }
  }

  method CollectPanelRegionKeys(s: Site, region: seq<Token>) returns (keys: seq<string>)
    ensures keys == PanelRegionKeys(s, region)
  {
    var w := new Walker();
    w.WalkPanelRegion(s, region);
    ghost var goal := PanelRegionKeys(s, region);
    WalkDefersTrunkOnly(s, {}, region, Acc([], []));
    for i := 0 to |w.deferred|
      invariant forall n :: n in w.deferred ==> n in s.index
      invariant w.Valid() && w.visiting == {} && w.deferred == Walk(s, {}, region, Acc([], [])).deferred
      invariant FlatAll(s, w.deferred[i..], w.out) == goal
    {
      var d := w.deferred[i];
      assert w.deferred[i..][1..] == w.deferred[i + 1..];
      if d in w.visiting {
        continue;
      }
      w.EmitHelperKeysFlat(s, s.index[d].body);
    }
    return w.out;
  }

  // ---------------------------------------------------------------- reachability in the helper graph

  /** A chain of extraction-layer calls starting in `body`. */
  ghost predicate Path(s: Site, body: seq<Token>, path: seq<string>)
    decreases |path|
  {
    path == [] ||
    (Call(path[0]) in body && IsExtraction(s, path[0]) && Path(s, s.index[path[0]].body, path[1..]))
  }

  /** The body a path leads to. */
  ghost function End(s: Site, body: seq<Token>, path: seq<string>): seq<Token>
    requires Path(s, body, path)
    decreases |path|
  {
    if path == [] then body else End(s, s.index[path[0]].body, path[1..])
  }

  ghost predicate ReachesToken(s: Site, body: seq<Token>, x: Token) {
    exists path :: Path(s, body, path) && x in End(s, body, path)
  }

  ghost predicate Distinct(names: seq<string>) {
    forall i, j :: 0 <= i < j < |names| ==> names[i] != names[j]
  }

  /** A token the walk records: a key that is not noise, or a call of a trunk helper. */
  ghost predicate Wanted(s: Site, x: Token) {
    match x
    case Key(k) => !s.noise(k)
    case Call(h) => IsTrunk(s, h)
    case Text => false
  }

  ghost predicate Recorded(x: Token, acc: Acc) {
    match x
    case Key(k) => k in acc.out
    case Call(h) => h in acc.deferred
    case Text => false
  }

  /** A path seen from a longer body. */
  lemma PathFromSuffix(s: Site, body: seq<Token>, path: seq<string>, x: Token)
    requires body != [] && Path(s, body[1..], path) && x in End(s, body[1..], path)
    ensures Path(s, body, path) && x in End(s, body, path)
  {
  }

  lemma {:induction false} PathSuffix(s: Site, body: seq<Token>, path: seq<string>, i: nat)
    requires Path(s, body, path) && i < |path|
    ensures IsExtraction(s, path[i]) && Path(s, s.index[path[i]].body, path[i + 1..])
    ensures End(s, s.index[path[i]].body, path[i + 1..]) == End(s, body, path)
    decreases |path|
  {
    if i > 0 {
      PathSuffix(s, s.index[path[0]].body, path[1..], i - 1);
      assert path[1..][i..] == path[i + 1..];
    }
  }

  /** Reachability along any path, cyclic or not, is reachability along a path without repetitions. */
  lemma {:induction false} SimplePath(s: Site, body: seq<Token>, path: seq<string>) returns (simple: seq<string>)
    requires Path(s, body, path)
    ensures Path(s, body, simple) && Distinct(simple)
    ensures End(s, body, simple) == End(s, body, path)
    decreases |path|
  {
    if path == [] {
      return [];
    }
    var h := path[0];
    var tail := SimplePath(s, s.index[h].body, path[1..]);
    if h in tail {
      var i :| 0 <= i < |tail| && tail[i] == h;
      PathSuffix(s, s.index[h].body, tail, i);
      simple := tail[i..];
      assert simple[0] == h && simple[1..] == tail[i + 1..];
    } else {
      simple := [h] + tail;
      assert simple[1..] == tail;
    }
  }

  // ---------------------------------------------------------------- what the walk records

  lemma {:induction false} WalkKeepsRecords(s: Site, visiting: set<string>, body: seq<Token>, acc: Acc)
    ensures acc.out <= Walk(s, visiting, body, acc).out
    ensures acc.deferred <= Walk(s, visiting, body, acc).deferred
    decreases s.index.Keys - visiting, |body|
  {
    if body != [] {
      match body[0] {
        case Text => WalkKeepsRecords(s, visiting, body[1..], acc);
        case Key(k) => WalkKeepsRecords(s, visiting, body[1..], acc.(out := Emit(s, k, acc.out)));
        case Call(h) =>
          if h in visiting || h !in s.index {
            WalkKeepsRecords(s, visiting, body[1..], acc);
          } else if s.index[h].extraction {
            assert h in s.index.Keys - visiting;
            WalkKeepsRecords(s, visiting + {h}, s.index[h].body, acc);
            WalkKeepsRecords(s, visiting, body[1..], Walk(s, visiting + {h}, s.index[h].body, acc));
          } else {
            WalkKeepsRecords(s, visiting, body[1..], acc.(deferred := acc.deferred + [h]));
          }
      }
    }
  }

  /** The accumulator after the first token. */
  ghost function StepAcc(s: Site, visiting: set<string>, x: Token, acc: Acc): Acc {
    match x
    case Text => acc
    case Key(k) => acc.(out := Emit(s, k, acc.out))
    case Call(h) =>
      if h in visiting || h !in s.index then acc
      else if s.index[h].extraction then Walk(s, visiting + {h}, s.index[h].body, acc)
      else acc.(deferred := acc.deferred + [h])
  }

  lemma WalkSteps(s: Site, visiting: set<string>, body: seq<Token>, acc: Acc)
    requires body != []
    ensures Walk(s, visiting, body, acc) == Walk(s, visiting, body[1..], StepAcc(s, visiting, body[0], acc))
  {
  }

  /** Whatever stands at the end of a repetition-free path that avoids the helpers being visited is recorded. */
  lemma {:induction false} WalkRecordsReachable(s: Site, visiting: set<string>, body: seq<Token>, acc: Acc,
                                                path: seq<string>, x: Token)
    requires Path(s, body, path) && Distinct(path) && (forall h :: h in path ==> h !in visiting)
    requires x in End(s, body, path) && Wanted(s, x) && (forall h :: h in visiting ==> IsExtraction(s, h))
    ensures Recorded(x, Walk(s, visiting, body, acc))
    decreases |path|, |body|
  {
    var next := StepAcc(s, visiting, body[0], acc);
    WalkSteps(s, visiting, body, acc);
    WalkKeepsRecords(s, visiting, body[1..], next);
    if path == [] {
      if body[0] == x {
        assert Recorded(x, next);
      } else {
        WalkRecordsReachable(s, visiting, body[1..], next, [], x);
      }
    } else if body[0] == Call(path[0]) {
      var h := path[0];
      assert forall g :: g in path[1..] ==> g != h;
      WalkRecordsReachable(s, visiting + {h}, s.index[h].body, acc, path[1..], x);
    } else {
      WalkRecordsReachable(s, visiting, body[1..], next, path, x);
    }
  }

  /** Whatever a walk newly records stands at the end of some path. */
  lemma {:induction false} WalkRecordsOnlyReachable(s: Site, visiting: set<string>, body: seq<Token>, acc: Acc,
                                                    x: Token)
    returns (path: seq<string>)
    requires Recorded(x, Walk(s, visiting, body, acc)) && !Recorded(x, acc)
    ensures Wanted(s, x) && Path(s, body, path) && x in End(s, body, path)
    decreases s.index.Keys - visiting, |body|
  {
    var next := StepAcc(s, visiting, body[0], acc);
    WalkSteps(s, visiting, body, acc);
    if !Recorded(x, next) {
      path := WalkRecordsOnlyReachable(s, visiting, body[1..], next, x);
      PathFromSuffix(s, body, path, x);
    } else if body[0].Call? && IsExtraction(s, body[0].helper) {
      var h := body[0].helper;
      assert h in s.index.Keys - visiting;
      path := WalkRecordsOnlyReachable(s, visiting + {h}, s.index[h].body, acc, x);
      path := [h] + path;
      assert path[1..] == path[1..];
    } else {
      path := [];
    }
  }

  /** On every helper graph, cyclic ones included, the walk from scratch records exactly the wanted tokens of the
      bodies reachable through the extraction layer. */
  lemma WalkRecordsExactlyReachable(s: Site, body: seq<Token>, x: Token)
    ensures Recorded(x, Walk(s, {}, body, Acc([], []))) <==> Wanted(s, x) && ReachesToken(s, body, x)
  {
    var acc := Acc([], []);
    if Recorded(x, Walk(s, {}, body, acc)) {
      var path := WalkRecordsOnlyReachable(s, {}, body, acc, x);
    }
    if Wanted(s, x) && ReachesToken(s, body, x) {
      var path :| Path(s, body, path) && x in End(s, body, path);
      var simple := SimplePath(s, body, path);
      WalkRecordsReachable(s, {}, body, acc, simple, x);
    }
  }

  lemma {:induction false} FlatCollects(s: Site, body: seq<Token>, out: seq<string>, k: string)
    ensures k in Flat(s, body, out) <==> k in out || (!s.noise(k) && Key(k) in body)
    decreases |body|
  {
    if body != [] {
      FlatCollects(s, body[1..], if body[0].Key? then Emit(s, body[0].key, out) else out, k);
      assert body == [body[0]] + body[1..];
    }
  }

  lemma {:induction false} FlatAllCollects(s: Site, names: seq<string>, out: seq<string>, k: string)
    requires forall n :: n in names ==> n in s.index
    ensures k in FlatAll(s, names, out) <==>
            k in out || (!s.noise(k) && exists n :: n in names && Key(k) in s.index[n].body)
    decreases |names|
  {
    if names != [] {
      FlatCollects(s, s.index[names[0]].body, out, k);
      FlatAllCollects(s, names[1..], Flat(s, s.index[names[0]].body, out), k);
      assert names == [names[0]] + names[1..];
    }
  }

  /** The keys a panel must list: those of its region, of every extraction-layer body reachable from it, and of
      the trunk helpers called directly from any of these. */
  ghost predicate PanelKey(s: Site, region: seq<Token>, k: string) {
    !s.noise(k) &&
    (ReachesToken(s, region, Key(k)) ||
     exists t :: IsTrunk(s, t) && ReachesToken(s, region, Call(t)) && Key(k) in s.index[t].body)
  }

  lemma PanelRegionKeysExact(s: Site, region: seq<Token>, k: string)
    ensures k in PanelRegionKeys(s, region) <==> PanelKey(s, region, k)
  {
    var acc := Walk(s, {}, region, Acc([], []));
    WalkDefersTrunkOnly(s, {}, region, Acc([], []));
    FlatAllCollects(s, acc.deferred, acc.out, k);
    WalkRecordsExactlyReachable(s, region, Key(k));
    forall t ensures t in acc.deferred <==> IsTrunk(s, t) && ReachesToken(s, region, Call(t)) {
      WalkRecordsExactlyReachable(s, region, Call(t));
    }
  }

  // ---------------------------------------------------------------- no key is listed twice

  lemma {:induction false} WalkKeepsDistinct(s: Site, visiting: set<string>, body: seq<Token>, acc: Acc)
    requires Distinct(acc.out)
    ensures Distinct(Walk(s, visiting, body, acc).out)
    decreases s.index.Keys - visiting, |body|
  {
    if body != [] {
      WalkSteps(s, visiting, body, acc);
      if body[0].Call? && IsExtraction(s, body[0].helper) && body[0].helper !in visiting {
        var h := body[0].helper;
        assert h in s.index.Keys - visiting;
        WalkKeepsDistinct(s, visiting + {h}, s.index[h].body, acc);
      }
      WalkKeepsDistinct(s, visiting, body[1..], StepAcc(s, visiting, body[0], acc));
    }
  }

  lemma {:induction false} FlatKeepsDistinct(s: Site, body: seq<Token>, out: seq<string>)
    requires Distinct(out)
    ensures Distinct(Flat(s, body, out))
    decreases |body|
  {
    if body != [] {
      FlatKeepsDistinct(s, body[1..], if body[0].Key? then Emit(s, body[0].key, out) else out);
    }
  }

  lemma {:induction false} FlatAllKeepsDistinct(s: Site, names: seq<string>, out: seq<string>)
    requires Distinct(out) && forall n :: n in names ==> n in s.index
    ensures Distinct(FlatAll(s, names, out))
    decreases |names|
  {
    if names != [] {
      FlatKeepsDistinct(s, s.index[names[0]].body, out);
      FlatAllKeepsDistinct(s, names[1..], Flat(s, s.index[names[0]].body, out));
    }
  }

  lemma PanelRegionKeysDistinct(s: Site, region: seq<Token>)
    ensures Distinct(PanelRegionKeys(s, region))
  {
    var acc := Walk(s, {}, region, Acc([], []));
    WalkDefersTrunkOnly(s, {}, region, Acc([], []));
    WalkKeepsDistinct(s, {}, region, Acc([], []));
    FlatAllKeepsDistinct(s, acc.deferred, acc.out);
  }

  // ---------------------------------------------------------------- the extraction layer is transparent

  lemma {:induction false} WalkConcat(s: Site, visiting: set<string>, a: seq<Token>, b: seq<Token>, acc: Acc)
    ensures Walk(s, visiting, a + b, acc) == Walk(s, visiting, b, Walk(s, visiting, a, acc))
    decreases |a|
  {
    if a == [] {
      assert a + b == b;
    } else {
      assert (a + b)[1..] == a[1..] + b;
      WalkSteps(s, visiting, a + b, acc);
      WalkSteps(s, visiting, a, acc);
      WalkConcat(s, visiting, a[1..], b, StepAcc(s, visiting, a[0], acc));
    }
  }

  ghost predicate NeverReaches(s: Site, body: seq<Token>, h: string) {
    forall path :: Path(s, body, path) ==> h !in path
  }

  /** Marking a helper as being visited makes no difference to a walk that never comes across it. */
  lemma {:induction false} GuardIrrelevant(s: Site, visiting: set<string>, h: string, body: seq<Token>, acc: Acc)
    requires IsExtraction(s, h) && NeverReaches(s, body, h)
    ensures Walk(s, visiting + {h}, body, acc) == Walk(s, visiting, body, acc)
    decreases s.index.Keys - visiting, |body|
  {
    if body != [] {
      WalkSteps(s, visiting, body, acc);
      WalkSteps(s, visiting + {h}, body, acc);
      if body[0].Call? && body[0].helper == h {
        assert Path(s, body, [h]);
        assert false;
      } else if body[0].Call? && IsExtraction(s, body[0].helper) && body[0].helper !in visiting {
        var g := body[0].helper;
        forall path | Path(s, s.index[g].body, path) ensures h !in path {
          assert ([g] + path)[1..] == path;
          assert Path(s, body, [g] + path);
        }
        assert g in s.index.Keys - visiting;
        assert visiting + {h} + {g} == visiting + {g} + {h};
        GuardIrrelevant(s, visiting + {g}, h, s.index[g].body, acc);
      }
      forall path | Path(s, body[1..], path) ensures h !in path {
        assert Path(s, body, path);
      }
      GuardIrrelevant(s, visiting, h, body[1..], StepAcc(s, visiting, body[0], acc));
    }
  }

  /** Replacing a call of an extraction-layer helper by the helper's body leaves the panel's list identical,
      order and deferred keys included, as long as the helper does not reach itself. */
  lemma ExtractionIsTransparent(s: Site, before: seq<Token>, h: string, after: seq<Token>)
    requires IsExtraction(s, h) && NeverReaches(s, s.index[h].body, h)
    ensures PanelRegionKeys(s, before + [Call(h)] + after) == PanelRegionKeys(s, before + s.index[h].body + after)
  {
    var start := Acc([], []);
    var body := s.index[h].body;
    var acc := Walk(s, {}, before, start);
    WalkConcat(s, {}, before + [Call(h)], after, start);
    WalkConcat(s, {}, before, [Call(h)], start);
    WalkConcat(s, {}, before + body, after, start);
    WalkConcat(s, {}, before, body, start);
    GuardIrrelevant(s, {}, h, body, acc);
    WalkSteps(s, {}, [Call(h)], acc);
    assert {} + {h} == {h};
  }

  /** The markup before any extraction: every extraction-layer call replaced by the expanded body, calls that
      close a cycle dropped. */
  function Expand(s: Site, visiting: set<string>, body: seq<Token>): seq<Token>
    decreases s.index.Keys - visiting, |body|
  {
    if body == [] then [] else
    var rest := Expand(s, visiting, body[1..]);
    match body[0]
    case Call(h) =>
      if h in visiting || h !in s.index then rest
      else if s.index[h].extraction then
        assert h in s.index.Keys - visiting;
        Expand(s, visiting + {h}, s.index[h].body) + rest
      else [body[0]] + rest
    case _ => [body[0]] + rest
  }

  function TrunkCalls(s: Site, body: seq<Token>): (names: seq<string>)
    ensures forall n :: n in names ==> IsTrunk(s, n)
  {
    if body == [] then []
    else if body[0].Call? && IsTrunk(s, body[0].helper) then [body[0].helper] + TrunkCalls(s, body[1..])
    else TrunkCalls(s, body[1..])
  }

  /** The contract from before the extraction layer: the region's own keys first, then the keys of the helpers it
      calls, one level deep, in call order. */
  function LegacyKeys(s: Site, region: seq<Token>): seq<string> {
    FlatAll(s, TrunkCalls(s, region), Flat(s, region, []))
  }

  lemma {:induction false} FlatConcat(s: Site, a: seq<Token>, b: seq<Token>, out: seq<string>)
    ensures Flat(s, a + b, out) == Flat(s, b, Flat(s, a, out))
    ensures TrunkCalls(s, a + b) == TrunkCalls(s, a) + TrunkCalls(s, b)
    decreases |a|
  {
    if a == [] {
      assert a + b == b;
    } else {
      assert (a + b)[1..] == a[1..] + b;
      FlatConcat(s, a[1..], b, if a[0].Key? then Emit(s, a[0].key, out) else out);
    }
  }

  lemma {:induction false} WalkIsFlatOfExpansion(s: Site, visiting: set<string>, body: seq<Token>, acc: Acc)
    requires forall h :: h in visiting ==> IsExtraction(s, h)
    ensures var e := Expand(s, visiting, body);
            Walk(s, visiting, body, acc) == Acc(Flat(s, e, acc.out), acc.deferred + TrunkCalls(s, e))
    decreases s.index.Keys - visiting, |body|, 1
  {
    if body != [] {
      FirstTokenExpands(s, visiting, body[0], acc, body);
      WalkSteps(s, visiting, body, acc);
      WalkIsFlatOfExpansion(s, visiting, body[1..], StepAcc(s, visiting, body[0], acc));
      ExpansionStep(s, visiting, body, acc.out);
      var first, rest := ExpandOne(s, visiting, body[0]), Expand(s, visiting, body[1..]);
      assert acc.deferred + TrunkCalls(s, first) + TrunkCalls(s, rest) ==
             acc.deferred + (TrunkCalls(s, first) + TrunkCalls(s, rest));
    }
  }

  /** The walk over one token is the flat scan of its share of the expansion. */
  lemma {:induction false} FirstTokenExpands(s: Site, visiting: set<string>, x: Token, acc: Acc, body: seq<Token>)
    requires body != [] && body[0] == x && forall h :: h in visiting ==> IsExtraction(s, h)
    ensures var e := ExpandOne(s, visiting, x);
            StepAcc(s, visiting, x, acc) == Acc(Flat(s, e, acc.out), acc.deferred + TrunkCalls(s, e))
    decreases s.index.Keys - visiting, |body|, 0
  {
    if x.Call? && IsExtraction(s, x.helper) && x.helper !in visiting {
      assert x.helper in s.index.Keys - visiting;
      WalkIsFlatOfExpansion(s, visiting + {x.helper}, s.index[x.helper].body, acc);
    } else {
      OneTokenFlat(s, x, acc.out);
      assert acc.deferred + [] == acc.deferred;
    }
  }

  lemma OneTokenFlat(s: Site, x: Token, out: seq<string>)
    ensures Flat(s, [x], out) == (if x.Key? then Emit(s, x.key, out) else out)
    ensures Flat(s, [], out) == out && TrunkCalls(s, []) == []
    ensures TrunkCalls(s, [x]) == if x.Call? && IsTrunk(s, x.helper) then [x.helper] else []
  {
    assert [x][1..] == [];
  }

  /** The first token's share of an expansion. */
  function ExpandOne(s: Site, visiting: set<string>, x: Token): seq<Token> {
    if !x.Call? then [x]
    else if x.helper in visiting || x.helper !in s.index then []
    else if s.index[x.helper].extraction then Expand(s, visiting + {x.helper}, s.index[x.helper].body)
    else [x]
  }

  lemma ExpansionStep(s: Site, visiting: set<string>, body: seq<Token>, out: seq<string>)
    requires body != []
    ensures var first := ExpandOne(s, visiting, body[0]);
            var rest := Expand(s, visiting, body[1..]);
            && Expand(s, visiting, body) == first + rest
            && Flat(s, first + rest, out) == Flat(s, rest, Flat(s, first, out))
            && TrunkCalls(s, first + rest) == TrunkCalls(s, first) + TrunkCalls(s, rest)
  {
    FlatConcat(s, ExpandOne(s, visiting, body[0]), Expand(s, visiting, body[1..]), out);
  }

  /** The two-phase walk lists exactly what the old generator would have listed on the unextracted markup. */
  lemma PanelRegionKeysAreLegacyKeys(s: Site, region: seq<Token>)
    ensures PanelRegionKeys(s, region) == LegacyKeys(s, Expand(s, {}, region))
  {
    WalkIsFlatOfExpansion(s, {}, region, Acc([], []));
    var calls := TrunkCalls(s, Expand(s, {}, region));
    assert [] + calls == calls;
  }

  // ---------------------------------------------------------------- the order of the list

  /** Where a key first stands in a text. */
  function FirstAt(src: seq<Token>, k: string): (i: nat)
    ensures i <= |src| && (i < |src| ==> src[i] == Key(k)) && (forall j :: 0 <= j < i ==> src[j] != Key(k))
  {
    if src == [] || src[0] == Key(k) then 0
    else
      assert forall j :: 0 < j < |src| ==> src[j] == src[1..][j - 1];
      1 + FirstAt(src[1..], k)
  }

  ghost predicate InEncounterOrder(src: seq<Token>, keys: seq<string>) {
    forall i, j :: 0 <= i < j < |keys| ==> FirstAt(src, keys[i]) < FirstAt(src, keys[j])
  }

  /** The keys of a text that are not noise, in the order of their first encounter. */
  ghost predicate Lists(s: Site, text: seq<Token>, keys: seq<string>) {
    (forall k :: k in keys <==> Key(k) in text && !s.noise(k)) && InEncounterOrder(text, keys)
  }

  lemma FirstAtGrows(text: seq<Token>, x: Token, k: string)
    ensures Key(k) in text ==> FirstAt(text + [x], k) == FirstAt(text, k) < |text|
    ensures Key(k) !in text && x == Key(k) ==> FirstAt(text + [x], k) == |text|
  {
    var i, j := FirstAt(text, k), FirstAt(text + [x], k);
    assert forall n :: 0 <= n < |text| ==> (text + [x])[n] == text[n];
    assert (text + [x])[|text|] == x;
  }

  lemma OrderGrows(text: seq<Token>, x: Token, keys: seq<string>)
    requires InEncounterOrder(text, keys) && forall i :: 0 <= i < |keys| ==> Key(keys[i]) in text
    ensures InEncounterOrder(text + [x], keys)
  {
    forall i, j | 0 <= i < j < |keys| ensures FirstAt(text + [x], keys[i]) < FirstAt(text + [x], keys[j]) {
      FirstAtGrows(text, x, keys[i]);
      FirstAtGrows(text, x, keys[j]);
    }
  }

  lemma OrderAppends(text: seq<Token>, k: string, keys: seq<string>)
    requires InEncounterOrder(text, keys) && forall i :: 0 <= i < |keys| ==> Key(keys[i]) in text
    requires Key(k) !in text
    ensures InEncounterOrder(text + [Key(k)], keys + [k])
  {
    OrderGrows(text, Key(k), keys);
    FirstAtGrows(text, Key(k), k);
    forall i | 0 <= i < |keys| ensures FirstAt(text + [Key(k)], keys[i]) < FirstAt(text + [Key(k)], k) {
      FirstAtGrows(text, Key(k), keys[i]);
    }
  }

  function OneMore(s: Site, x: Token, keys: seq<string>): seq<string> {
    if x.Key? then Emit(s, x.key, keys) else keys
  }

  lemma ListsOneMore(s: Site, text: seq<Token>, x: Token, keys: seq<string>)
    requires Lists(s, text, keys)
    ensures Lists(s, text + [x], OneMore(s, x, keys))
  {
    assert forall i :: 0 <= i < |keys| ==> keys[i] in keys;
    if x.Key? && !s.noise(x.key) && x.key !in keys {
      OrderAppends(text, x.key, keys);
    } else {
      OrderGrows(text, x, keys);
    }
  }

  lemma {:induction false} FlatLists(s: Site, text: seq<Token>, body: seq<Token>, out: seq<string>)
    requires Lists(s, text, out)
    ensures Lists(s, text + body, Flat(s, body, out))
    decreases |body|
  {
    if body == [] {
      assert text + body == text;
    } else {
      var longer := text + [body[0]];
      ListsOneMore(s, text, body[0], out);
      FlatLists(s, longer, body[1..], OneMore(s, body[0], out));
      assert longer + body[1..] == text + body;
    }
  }

  /** The bodies of the trunk helpers called in a text, one after the other. */
  function TrunkText(s: Site, text: seq<Token>): seq<Token> {
    if text == [] then []
    else (if text[0].Call? && IsTrunk(s, text[0].helper) then s.index[text[0].helper].body else [])
         + TrunkText(s, text[1..])
  }

  lemma {:induction false} FlatAllLists(s: Site, done: seq<Token>, text: seq<Token>, out: seq<string>)
    requires Lists(s, done, out)
    ensures Lists(s, done + TrunkText(s, text), FlatAll(s, TrunkCalls(s, text), out))
    decreases |text|
  {
    if text == [] {
      assert done + [] == done;
    } else if text[0].Call? && IsTrunk(s, text[0].helper) {
      var body := s.index[text[0].helper].body;
      FlatLists(s, done, body, out);
      FlatAllLists(s, done + body, text[1..], Flat(s, body, out));
      Reassociate(done, body, TrunkText(s, text[1..]));
      assert TrunkCalls(s, text)[1..] == TrunkCalls(s, text[1..]);
    } else {
      FlatAllLists(s, done, text[1..], out);
      assert [] + TrunkText(s, text[1..]) == TrunkText(s, text[1..]);
    }
  }

  lemma Reassociate(a: seq<Token>, b: seq<Token>, c: seq<Token>)
    ensures a + b + c == a + (b + c)
  {
  }

  /** The panel lists the keys of its expanded region, then those of the trunk helpers called from it in call order,
      each at its first encounter. */
  lemma PanelRegionKeysInOrder(s: Site, region: seq<Token>)
    ensures var e := Expand(s, {}, region); Lists(s, e + TrunkText(s, e), PanelRegionKeys(s, region))
  {
    var e := Expand(s, {}, region);
    PanelRegionKeysAreLegacyKeys(s, region);
    FlatLists(s, [], e, []);
    assert [] + e == e;
    FlatAllLists(s, e, e, Flat(s, e, []));
  }

  /** Expanding keeps the order of the text, puts a helper's expanded body where it is called, and leaves out calls
      that close a cycle or lead nowhere. */
  lemma {:induction false} ExpandInPlace(s: Site, visiting: set<string>, a: seq<Token>, x: Token, b: seq<Token>)
    ensures Expand(s, visiting, a + [x] + b)
            == Expand(s, visiting, a) + Expand(s, visiting, [x]) + Expand(s, visiting, b)
    ensures !x.Call? ==> Expand(s, visiting, [x]) == [x]
    ensures x.Call? && IsTrunk(s, x.helper) && x.helper !in visiting ==> Expand(s, visiting, [x]) == [x]
    ensures x.Call? && IsExtraction(s, x.helper) && x.helper !in visiting ==>
              Expand(s, visiting, [x]) == Expand(s, visiting + {x.helper}, s.index[x.helper].body)
    ensures x.Call? && (x.helper !in s.index || x.helper in visiting) ==> Expand(s, visiting, [x]) == []
  {
    ExpandConcat(s, visiting, a, [x] + b);
    ExpandConcat(s, visiting, [x], b);
    assert a + [x] + b == a + ([x] + b) && [x][1..] == [];
  }

  lemma {:induction false} ExpandConcat(s: Site, visiting: set<string>, a: seq<Token>, b: seq<Token>)
    ensures Expand(s, visiting, a + b) == Expand(s, visiting, a) + Expand(s, visiting, b)
    decreases |a|
  {
    if a == [] {
      assert a + b == b && [] + Expand(s, visiting, b) == Expand(s, visiting, b);
    } else {
      assert (a + b)[1..] == a[1..] + b;
      ExpandConcat(s, visiting, a[1..], b);
      ExpansionStep(s, visiting, a + b, []);
      ExpansionStep(s, visiting, a, []);
      Reassociate(ExpandOne(s, visiting, a[0]), Expand(s, visiting, a[1..]), Expand(s, visiting, b));
    }
  }

  lemma {:induction false} TrunkTextConcat(s: Site, a: seq<Token>, b: seq<Token>)
    ensures TrunkText(s, a + b) == TrunkText(s, a) + TrunkText(s, b)
    decreases |a|
  {
    if a == [] {
      assert a + b == b && [] + TrunkText(s, b) == TrunkText(s, b);
    } else {
      assert (a + b)[1..] == a[1..] + b;
      TrunkTextConcat(s, a[1..], b);
      var first := if a[0].Call? && IsTrunk(s, a[0].helper) then s.index[a[0].helper].body else [];
      Reassociate(first, TrunkText(s, a[1..]), TrunkText(s, b));
    }
  }
}
