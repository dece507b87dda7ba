/** Which files of an artist directory are listed as fanart (internal/image/fanart.go): every image whose name is the
    primary's base with an optional slot number, one file per slot. */
module FanartDiscovery {
  import opened FanartNames
  import opened Sequences
  import opened Strings
  import opened Wrappers

  // ---------------------------------------------------------------- slot numbers

  const MAX_INT := 0x7FFF_FFFF_FFFF_FFFF

  /** strconv.Atoi on a 64-bit platform. */
  function Atoi(s: string): Option<int> {
    var signed := s != "" && (s[0] == '+' || s[0] == '-');
    var digits := if signed then s[1..] else s;
    if digits == "" || exists c :: c in digits && !IsDigit(c) then None
    else
      var v: int := DigitsValue(digits);
      if s[0] == '-' then if v <= MAX_INT + 1 then Some(-v) else None
      else if v <= MAX_INT then Some(v) else None
  }

  /** What follows a prefix, if s starts with it. */
  function CutPrefix(s: string, prefix: string): Option<string>
    decreases |prefix|
  {
    if prefix == "" then Some(s)
    else if s == "" || s[0] != prefix[0] then None
    else CutPrefix(s[1..], prefix[1..])
  }

  /** The slot a file name stands for under a primary name: 0 for the bare base, else the number that follows it;
      letter case does not matter. */
  function SlotOf(primary: Name, name: Name): Option<nat> {
    if primary == "" || !IsImage(name) then None
    else SlotAfter(CutPrefix(Lower(TrimExt(name)), Lower(TrimExt(primary))))
  }

  function SlotAfter(rest: Option<string>): Option<nat> {
    if rest.None? then None
    else if rest.value == "" then Some(0)
    else
      var n := Atoi(rest.value);
      if n.Some? && n.value > 0 then Some(n.value) else None
  }

  // ---------------------------------------------------------------- the preference within a slot

  datatype Indexed = Indexed(slot: nat, name: Name)

  /** What a primary name decides: the slot of every name, and the names preferred within a slot. */
  datatype Convention = Convention(slot: Name -> Option<nat>, preferred: Name -> bool)

  function ConventionOf(primary: Name): Convention {
    Convention(n => SlotOf(primary, n), n => Lower(Ext(n)) == Lower(Ext(primary)))
  }

  /** By slot, then the primary's own extension first, then by name. */
  predicate AtMost(c: Convention, x: Indexed, y: Indexed) {
    if x.slot != y.slot then x.slot < y.slot
    else if c.preferred(x.name) != c.preferred(y.name) then c.preferred(x.name)
    else TextAtMost(x.name, y.name)
  }

  lemma AtMostTotal(c: Convention, x: Indexed, y: Indexed)
    ensures AtMost(c, x, y) || AtMost(c, y, x)
  {
    TextTotal(x.name, y.name);
  }

  lemma AtMostTransitive(c: Convention, x: Indexed, y: Indexed, z: Indexed)
    requires AtMost(c, x, y) && AtMost(c, y, z)
    ensures AtMost(c, x, z)
  {
    if TextAtMost(x.name, y.name) && TextAtMost(y.name, z.name) {
      TextTransitive(x.name, y.name, z.name);
    }
  }

  lemma AtMostAntisymmetric(c: Convention, x: Indexed, y: Indexed)
    requires AtMost(c, x, y) && AtMost(c, y, x)
    ensures x == y
  {
    TextAntisymmetric(x.name, y.name);
  }

  // ---------------------------------------------------------------- the listing

  /** The listed file of its slot: the most preferred one there is. */
  ghost predicate IsListed(c: Convention, names: set<Name>, f: Indexed) {
    && f.name in names && c.slot(f.name) == Some(f.slot)
    && forall y :: y in names && c.slot(y) == Some(f.slot) ==> AtMost(c, f, Indexed(f.slot, y))
  }

  ghost predicate SlotsIncrease(files: seq<Indexed>) {
    forall i, j :: 0 <= i < j < |files| ==> files[i].slot < files[j].slot
  }

  /** The listing of a directory: its listed files in slot order. */
  ghost predicate IsListing(c: Convention, names: set<Name>, files: seq<Indexed>) {
    SlotsIncrease(files) && forall f :: f in files <==> IsListed(c, names, f)
  }

  function Paths(files: seq<Indexed>): seq<Name> {
    seq(|files|, i requires 0 <= i < |files| => files[i].name)
  }

  /** What discovery returns for a directory. */
  ghost predicate IsDiscovery(c: Convention, names: set<Name>, paths: seq<Name>) {
    exists files :: IsListing(c, names, files) && paths == Paths(files)
  }

  lemma FirstIsLowest(a: seq<Indexed>, f: Indexed)
    requires SlotsIncrease(a) && f in a
    ensures a[0].slot < f.slot || a[0] == f
  {
    var i :| 0 <= i < |a| && a[i] == f;
  }

  lemma TailMembers(a: seq<Indexed>)
    requires a != [] && SlotsIncrease(a)
    ensures SlotsIncrease(a[1..]) && forall f :: f in a[1..] <==> f in a && f != a[0]
  {
    assert a == [a[0]] + a[1..];
    forall k | 0 <= k < |a[1..]| ensures a[1..][k] != a[0] {
      assert a[0].slot < a[k + 1].slot;
    }
  }

  lemma {:induction false} SameMembersSameSeq(a: seq<Indexed>, b: seq<Indexed>)
    requires SlotsIncrease(a) && SlotsIncrease(b) && forall f :: f in a <==> f in b
    ensures a == b
    decreases |a|
  {
    if b != [] {
      assert b[0] in b;
    }
    if a != [] {
      assert a[0] in a;
      FirstIsLowest(a, b[0]);
      FirstIsLowest(b, a[0]);
      TailMembers(a);
      TailMembers(b);
      SameMembersSameSeq(a[1..], b[1..]);
      assert a == [a[0]] + a[1..] && b == [b[0]] + b[1..];
    }
  }

  /** A directory is discovered in one way only. */
  lemma DiscoveryIsUnique(c: Convention, names: set<Name>, a: seq<Name>, b: seq<Name>)
    requires IsDiscovery(c, names, a) && IsDiscovery(c, names, b)
    ensures a == b
  {
    var x :| IsListing(c, names, x) && a == Paths(x);
    var y :| IsListing(c, names, y) && b == Paths(y);
    SameMembersSameSeq(x, y);
  }

  /** The discovered paths are distinct files of the directory, in increasing slots. */
  lemma DiscoveredAreDistinct(c: Convention, names: set<Name>, paths: seq<Name>)
    requires IsDiscovery(c, names, paths)
    ensures forall i :: 0 <= i < |paths| ==> paths[i] in names && c.slot(paths[i]).Some?
    ensures forall i, j :: 0 <= i < j < |paths| ==>
              c.slot(paths[i]).value < c.slot(paths[j]).value && paths[i] != paths[j]
  {
    var files: seq<Indexed> :| IsListing(c, names, files) && paths == Paths(files);
    forall i | 0 <= i < |paths|
      ensures paths[i] in names && c.slot(paths[i]) == Some(files[i].slot)
    {
      assert files[i] in files && IsListed(c, names, files[i]);
    }
  }

  /** A matching file is left out exactly when another file of its slot is preferred to it. */
  lemma HiddenExactly(c: Convention, names: set<Name>, paths: seq<Name>, x: Name)
    requires IsDiscovery(c, names, paths) && x in names && c.slot(x).Some?
    ensures var n := c.slot(x).value;
            x !in paths <==>
            exists y :: y in names && y != x && c.slot(y) == Some(n)
                        && AtMost(c, Indexed(n, y), Indexed(n, x))
  {
    var files: seq<Indexed> :| IsListing(c, names, files) && paths == Paths(files);
    var n := c.slot(x).value;
    PathListed(c, names, files, x);
    if !IsListed(c, names, Indexed(n, x)) {
      var y :| y in names && c.slot(y) == Some(n) && !AtMost(c, Indexed(n, x), Indexed(n, y));
      AtMostTotal(c, Indexed(n, x), Indexed(n, y));
      AtMostTotal(c, Indexed(n, x), Indexed(n, x));
      assert y != x;
    } else {
      forall y | y in names && c.slot(y) == Some(n) && AtMost(c, Indexed(n, y), Indexed(n, x)) ensures y == x {
        AtMostAntisymmetric(c, Indexed(n, x), Indexed(n, y));
      }
    }
  }

  lemma PathListed(c: Convention, names: set<Name>, files: seq<Indexed>, x: Name)
    requires IsListing(c, names, files) && c.slot(x).Some?
    ensures x in Paths(files) <==> IsListed(c, names, Indexed(c.slot(x).value, x))
  {
    var f := Indexed(c.slot(x).value, x);
    if x in Paths(files) {
      var i :| 0 <= i < |files| && files[i].name == x;
      assert files[i] in files && IsListed(c, names, files[i]);
    }
    if f in files {
      var i :| 0 <= i < |files| && files[i] == f;
      assert Paths(files)[i] == x;
    }
  }

  /** A matching file that is left out shares its slot with a discovered one. */
  lemma HiddenSharesSlot(c: Convention, names: set<Name>, paths: seq<Name>, x: Name)
    requires IsDiscovery(c, names, paths) && x in names && c.slot(x).Some? && x !in paths
    ensures exists y :: y in names && y != x && c.slot(y) == c.slot(x)
  {
    HiddenExactly(c, names, paths, x);
  }

  lemma DiscoveredHaveSlots(primary: Name, names: set<Name>, paths: seq<Name>, i: nat)
    requires IsDiscovery(ConventionOf(primary), names, paths) && i < |paths|
    ensures primary != "" && IsImage(paths[i])
  {
    DiscoveredAreDistinct(ConventionOf(primary), names, paths);
    assert SlotOf(primary, paths[i]).Some?;
  }

  lemma OutsiderSharesSlot(primary: Name, names: set<Name>, paths: seq<Name>, x: Name)
    requires IsDiscovery(ConventionOf(primary), names, paths) && x in names && SlotOf(primary, x).Some? && x !in paths
    ensures exists y :: y in names && y != x && SlotOf(primary, y) == SlotOf(primary, x)
  {
    var c := ConventionOf(primary);
    HiddenSharesSlot(c, names, paths, x);
    var y :| y in names && y != x && c.slot(y) == c.slot(x);
    assert SlotOf(primary, y) == SlotOf(primary, x);
  }

  // ---------------------------------------------------------------- discovery as it is performed

  ghost predicate Sorted(c: Convention, files: seq<Indexed>) {
    forall i, j :: 0 <= i < j < |files| ==> AtMost(c, files[i], files[j])
  }

  ghost predicate FromNames(c: Convention, names: set<Name>, files: seq<Indexed>) {
    forall f :: f in files <==> f.name in names && c.slot(f.name) == Some(f.slot)
  }

  function NamesIn(entries: seq<Name>): set<Name> {
    set x | x in entries
  }

  method DiscoverFanart(entries: seq<Name>, primary: Name) returns (paths: seq<Name>)
    ensures IsDiscovery(ConventionOf(primary), NamesIn(entries), paths)
    ensures exists slots :: ListsFirstPerSlot(primary, NamesIn(entries), paths, slots)
  {
    var files := FanartMatches(entries, ConventionOf(primary));
    paths := [];
    for i := 0 to |files|
      invariant paths == Paths(files[..i])
    {
      assert files[..i + 1] == files[..i] + [files[i]];
      paths := paths + [files[i].name];
    }
    assert files[..|files|] == files;
    ghost var slots := DiscoveryMeans(primary, NamesIn(entries), paths);
  }

  method FanartMatches(entries: seq<Name>, c: Convention) returns (out: seq<Indexed>)
    ensures IsListing(c, NamesIn(entries), out)
  {
    var files: seq<Indexed> := [];
    for i := 0 to |entries|
      invariant Sorted(c, files) && FromNames(c, NamesIn(entries[..i]), files)
    {
      OneMoreName(entries, i);
      var slot := c.slot(entries[i]);
      if slot.Some? {
        files := InsertSorted(c, files, Indexed(slot.value, entries[i]));
      }
    }
    assert entries[..|entries|] == entries;
    out := KeepFirstPerSlot(files);
    FirstsAreListed(c, NamesIn(entries), files, out);
  }

  lemma OneMoreName(entries: seq<Name>, i: nat)
    requires i < |entries|
    ensures NamesIn(entries[..i + 1]) == NamesIn(entries[..i]) + {entries[i]}
  {
    assert entries[..i + 1] == entries[..i] + [entries[i]];
  }

  /** One file put in its place: the sort, one step at a time. */
  method InsertSorted(c: Convention, files: seq<Indexed>, f: Indexed) returns (sorted: seq<Indexed>)
    requires Sorted(c, files)
    ensures Sorted(c, sorted) && forall x :: x in sorted <==> x in files || x == f
  {
    var i := |files|;
    while i > 0 && !AtMost(c, files[i - 1], f)
      invariant 0 <= i <= |files|
      invariant i < |files| ==> AtMost(c, f, files[i])
    {
      AtMostTotal(c, files[i - 1], f);
      i := i - 1;
    }
    forall j, k | 0 <= j < k <= |files| ensures AtMost(c, Inserted(files, f, i)[j], Inserted(files, f, i)[k]) {
      InsertedPair(c, files, f, i, j, k);
    }
    InsertedMembers(files, f, i);
    sorted := files[..i] + [f] + files[i..];
    assert sorted == Inserted(files, f, i);
  }

  lemma InsertedPair(c: Convention, files: seq<Indexed>, f: Indexed, i: nat, j: nat, k: nat)
    requires Sorted(c, files) && i <= |files| && j < k <= |files|
    requires i > 0 ==> AtMost(c, files[i - 1], f)
    requires i < |files| ==> AtMost(c, f, files[i])
    ensures AtMost(c, Inserted(files, f, i)[j], Inserted(files, f, i)[k])
  {
    InsertedAt(files, f, i, j);
    InsertedAt(files, f, i, k);
    if k == i && j < i - 1 {
      AtMostTransitive(c, files[j], files[i - 1], f);
    } else if j == i && k > i + 1 {
      AtMostTransitive(c, f, files[i], files[k - 1]);
    }
  }

  /** The first entry of each slot is kept. */
  method KeepFirstPerSlot(files: seq<Indexed>) returns (out: seq<Indexed>)
    ensures out == FirstPerSlot(files, |files|)
  {
    out := [];
    var last: int := -1;
    for i := 0 to |files|
      invariant out == FirstPerSlot(files, i)
      invariant last == if i == 0 then -1 else files[i - 1].slot
    {
      if files[i].slot == last {
        continue;
      }
      last := files[i].slot;
      out := out + [files[i]];
    }
  }

  predicate StartsSlot(files: seq<Indexed>, k: nat)
    requires k < |files|
  {
    k == 0 || files[k].slot != files[k - 1].slot
  }

  function FirstPerSlot(files: seq<Indexed>, i: nat): seq<Indexed>
    requires i <= |files|
  {
    if i == 0 then []
    else FirstPerSlot(files, i - 1) + if StartsSlot(files, i - 1) then [files[i - 1]] else []
  }

  ghost predicate SlotsNeverDrop(files: seq<Indexed>) {
    forall i, j :: 0 <= i < j < |files| ==> files[i].slot <= files[j].slot
  }

  lemma {:induction false} FirstPerSlotMembers(files: seq<Indexed>, i: nat, f: Indexed)
    requires i <= |files|
    ensures f in FirstPerSlot(files, i) <==> exists k :: 0 <= k < i && StartsSlot(files, k) && files[k] == f
  {
    if i > 0 {
      FirstPerSlotMembers(files, i - 1, f);
    }
  }

  lemma {:induction false} FirstPerSlotIncreases(files: seq<Indexed>, i: nat)
    requires SlotsNeverDrop(files) && i <= |files|
    ensures SlotsIncrease(FirstPerSlot(files, i))
    ensures var out := FirstPerSlot(files, i); i > 0 ==> out != [] && out[|out| - 1].slot == files[i - 1].slot
  {
    if i > 0 {
      var before := FirstPerSlot(files, i - 1);
      FirstPerSlotIncreases(files, i - 1);
      if StartsSlot(files, i - 1) && i > 1 {
        forall k | 0 <= k < |before| ensures before[k].slot < files[i - 1].slot {
          assert k < |before| - 1 ==> before[k].slot < before[|before| - 1].slot;
        }
      }
    }
  }

  /** In a sorted list the entry that starts a slot is the most preferred one of the slot. */
  lemma FirstsAreListed(c: Convention, names: set<Name>, files: seq<Indexed>, out: seq<Indexed>)
    requires Sorted(c, files) && FromNames(c, names, files) && out == FirstPerSlot(files, |files|)
    ensures IsListing(c, names, out)
  {
    FirstPerSlotIncreases(files, |files|);
    forall f ensures f in out <==> IsListed(c, names, f) {
      FirstPerSlotMembers(files, |files|, f);
      if f in out {
        var k :| 0 <= k < |files| && StartsSlot(files, k) && files[k] == f;
        StartIsListed(c, names, files, k);
      }
      if IsListed(c, names, f) {
        ListedStarts(c, names, files, f);
      }
    }
  }

  /** No entry of a slot stands before the one that starts it, nor is it preferred to it. */
  lemma StartIsPreferred(c: Convention, files: seq<Indexed>, k: nat, f: Indexed)
    requires Sorted(c, files) && k < |files| && StartsSlot(files, k) && f in files && f.slot == files[k].slot
    ensures AtMost(c, files[k], f)
  {
    var j :| 0 <= j < |files| && files[j] == f;
    AtMostTotal(c, f, f);
    if j < k {
      EarlierIsLower(c, files, j, k);
    }
  }

  lemma EarlierIsLower(c: Convention, files: seq<Indexed>, j: nat, k: nat)
    requires Sorted(c, files) && j < k < |files| && StartsSlot(files, k)
    ensures files[j].slot < files[k].slot
  {
    assert AtMost(c, files[k - 1], files[k]);
    assert j < k - 1 ==> AtMost(c, files[j], files[k - 1]);
  }

  lemma StartIsListed(c: Convention, names: set<Name>, files: seq<Indexed>, k: nat)
    requires Sorted(c, files) && FromNames(c, names, files) && k < |files| && StartsSlot(files, k)
    ensures IsListed(c, names, files[k])
  {
    var n := files[k].slot;
    assert files[k] in files;
    forall y | y in names && c.slot(y) == Some(n) ensures AtMost(c, files[k], Indexed(n, y)) {
      assert Indexed(n, y) in files;
      StartIsPreferred(c, files, k, Indexed(n, y));
    }
  }

  lemma ListedStarts(c: Convention, names: set<Name>, files: seq<Indexed>, f: Indexed)
    requires Sorted(c, files) && FromNames(c, names, files) && IsListed(c, names, f)
    ensures exists k :: 0 <= k < |files| && StartsSlot(files, k) && files[k] == f
  {
    assert f in files;
    var j :| 0 <= j < |files| && files[j] == f;
    var k := StartOf(files, j);
    var g := files[k];
    StartIsPreferred(c, files, k, f);
    assert g in files;
    assert Indexed(f.slot, g.name) == g;
    AtMostAntisymmetric(c, g, f);
  }

  /** The entry that starts the slot of entry j. */
  lemma {:induction false} StartOf(files: seq<Indexed>, j: nat) returns (k: nat)
    requires j < |files|
    ensures k <= j && StartsSlot(files, k) && files[k].slot == files[j].slot
  {
    k := j;
    if !StartsSlot(files, j) {
      k := StartOf(files, j - 1);
    }
  }

  // ---------------------------------------------------------------- the slot of a final name

  lemma AtoiDecimal(n: nat)
    requires n <= MAX_INT
    ensures Atoi(Decimal(n)) == Some(n)
  {
    DecimalDigits(n);
    assert Decimal(n)[0] in Decimal(n);
  }

  lemma LowerAppend(a: string, b: string)
    ensures Lower(a + b) == Lower(a) + Lower(b)
  {
  }

  /** The number slot i gets in a file name. */
  function SlotNumber(i: nat, kodi: bool): nat {
    if i == 0 then 0 else if kodi then i else i + 1
  }

  lemma {:induction false} CutPrefixBack(prefix: string, rest: string)
    ensures CutPrefix(prefix + rest, prefix) == Some(rest)
    decreases |prefix|
  {
    if prefix == "" {
      assert prefix + rest == rest;
    } else {
      assert (prefix + rest)[1..] == prefix[1..] + rest;
      CutPrefixBack(prefix[1..], rest);
    }
  }

  /** Discovery reads a final name back as the slot it was made for. */
  lemma FinalNameSlot(primary: Name, i: nat, kodi: bool, ext: string)
    requires primary != "" && IsImageExt(ext) && i < MAX_INT
    ensures SlotOf(primary, FinalName(primary, i, kodi, ext)) == Some(SlotNumber(i, kodi))
  {
    var base, suffix := TrimExt(primary), SlotSuffix(i, kodi);
    FinalNameShape(primary, i, kodi, ext);
    ImageExtShape(ext);
    TrimExtOf(base + suffix, ext);
    LowerAppend(base, suffix);
    DecimalDigits(SlotNumber(i, kodi));
    AtoiDecimal(SlotNumber(i, kodi));
    LowerDigits(suffix);
    CutPrefixBack(Lower(base), suffix);
  }

  // ---------------------------------------------------------------- which names are fanart

  /** A numeral for n: an optional plus sign, leading zeros, and n in decimal. */
  ghost predicate IsNumeral(t: string, n: nat) {
    exists sign, zeros :: (sign == "" || sign == "+") && IsZeros(zeros) && t == sign + (zeros + Decimal(n))
  }

  predicate IsZeros(zeros: string) {
    forall c :: c in zeros ==> c == '0'
  }

  /** What it means for a name to stand for slot n under a primary name. */
  ghost predicate StandsFor(primary: Name, name: Name, n: nat) {
    && primary != "" && Lower(Ext(name)) in [".jpg", ".jpeg", ".png"] && n <= 0x7FFF_FFFF_FFFF_FFFF
    && var base, stem := Lower(TrimExt(primary)), Lower(TrimExt(name));
       if n == 0 then stem == base else exists t :: IsNumeral(t, n) && stem == base + t
  }

  lemma {:induction false} ZerosBefore(zeros: string, s: string)
    requires IsZeros(zeros) && forall c :: c in s ==> IsDigit(c)
    ensures (forall c :: c in zeros + s ==> IsDigit(c)) && DigitsValue(zeros + s) == DigitsValue(s)
    decreases |s|, |zeros|
  {
    if s == "" {
      assert zeros + s == zeros;
      if zeros != "" {
        var front := zeros[..|zeros| - 1];
        assert zeros[|zeros| - 1] in zeros && forall c :: c in front ==> c in zeros;
        ZerosBefore(front, "");
        assert front + "" == front;
      }
    } else {
      var front := s[..|s| - 1];
      assert s[|s| - 1] in s && forall c :: c in front ==> c in s;
      ZerosBefore(zeros, front);
      assert (zeros + s)[..|zeros + s| - 1] == zeros + front && zeros + s == zeros + front + [s[|s| - 1]];
    }
  }

  lemma DecimalStep(v: nat, d: nat)
    requires v > 0 && d < 10
    ensures Decimal(v * 10 + d) == Decimal(v) + [Digit(d)]
  {
    assert (v * 10 + d) / 10 == v && (v * 10 + d) % 10 == d;
  }

  lemma LastDigit(s: string)
    requires s != "" && forall c :: c in s ==> IsDigit(c)
    ensures var front, d := s[..|s| - 1], s[|s| - 1] as int - '0' as int;
            && (forall c :: c in front ==> IsDigit(c)) && 0 <= d < 10 && s == front + [Digit(d)]
            && DigitsValue(s) == DigitsValue(front) * 10 + d
  {
    var front, c := s[..|s| - 1], s[|s| - 1];
    assert c in s && s == front + [c] && forall d :: d in front ==> d in s;
    DigitsAppend(front, c);
    DigitIs(c as int - '0' as int);
  }

  lemma {:induction false} DigitsAreNumeral(s: string) returns (zeros: string)
    requires (forall c :: c in s ==> IsDigit(c)) && DigitsValue(s) > 0
    ensures IsZeros(zeros) && s == zeros + Decimal(DigitsValue(s))
    decreases |s|
  {
    LastDigit(s);
    var front, d := s[..|s| - 1], s[|s| - 1] as int - '0' as int;
    var v := DigitsValue(front);
    if v == 0 {
      AllZeros(front);
      zeros := front;
    } else {
      zeros := DigitsAreNumeral(front);
      DecimalStep(v, d);
      assert zeros + Decimal(v) + [Digit(d)] == zeros + (Decimal(v) + [Digit(d)]);
    }
  }

  lemma {:induction false} AllZeros(s: string)
    requires (forall c :: c in s ==> IsDigit(c)) && DigitsValue(s) == 0
    ensures IsZeros(s)
    decreases |s|
  {
    if s != "" {
      var front, c := s[..|s| - 1], s[|s| - 1];
      assert c in s && s == front + [c] && forall d :: d in front ==> d in s;
      AllZeros(front);
    }
  }

  lemma AtoiPlain(digits: string)
    requires digits != "" && (forall c :: c in digits ==> IsDigit(c)) && DigitsValue(digits) <= MAX_INT
    ensures Atoi(digits) == Some(DigitsValue(digits))
  {
    assert digits[0] in digits;
  }

  lemma AtoiPlus(digits: string)
    requires digits != "" && (forall c :: c in digits ==> IsDigit(c)) && DigitsValue(digits) <= MAX_INT
    ensures Atoi("+" + digits) == Some(DigitsValue(digits))
  {
    var t := "+" + digits;
    assert t[1..] == digits && t[0] == '+';
  }

  lemma AtoiOfNumeral(t: string, n: nat)
    requires IsNumeral(t, n) && n <= MAX_INT
    ensures t != "" && Atoi(t) == Some(n)
  {
    var sign, zeros :| (sign == "" || sign == "+") && IsZeros(zeros) && t == sign + (zeros + Decimal(n));
    DecimalDigits(n);
    ZerosBefore(zeros, Decimal(n));
    if sign == "+" {
      AtoiPlus(zeros + Decimal(n));
    } else {
      assert t == zeros + Decimal(n);
      AtoiPlain(zeros + Decimal(n));
    }
  }

  lemma PositiveAtoiIsNumeral(t: string, n: nat)
    requires Atoi(t) == Some(n) && n > 0
    ensures t != "" && IsNumeral(t, n) && n <= MAX_INT
  {
    var signed := t != "" && (t[0] == '+' || t[0] == '-');
    var digits := if signed then t[1..] else t;
    assert forall c :: c in digits ==> IsDigit(c);
    assert t[0] != '-';
    var zeros := DigitsAreNumeral(digits);
    var sign := if signed then "+" else "";
    assert t == sign + digits;
  }

  lemma {:induction false} CutPrefixMeans(s: string, prefix: string)
    ensures match CutPrefix(s, prefix)
            case None => !(prefix <= s)
            case Some(rest) => s == prefix + rest
    decreases |prefix|
  {
    if prefix == "" {
      assert "" + s == s;
    } else if s != "" && s[0] == prefix[0] {
      CutPrefixMeans(s[1..], prefix[1..]);
      assert s == [s[0]] + s[1..] && prefix == [prefix[0]] + prefix[1..];
      if CutPrefix(s, prefix).Some? {
        var rest := CutPrefix(s, prefix).value;
        assert [s[0]] + (prefix[1..] + rest) == [prefix[0]] + prefix[1..] + rest;
      }
    }
  }

  /** A suffix after the base is read as a slot number exactly when it is empty (slot 0) or a positive numeral. */
  lemma SlotAfterExactly(t: string, n: nat)
    ensures SlotAfter(Some(t)) == Some(n) <==> if n == 0 then t == "" else IsNumeral(t, n) && n <= MAX_INT
  {
    if t != "" && Atoi(t).Some? && Atoi(t).value > 0 {
      PositiveAtoiIsNumeral(t, Atoi(t).value);
    }
    if IsNumeral(t, n) && n <= MAX_INT {
      AtoiOfNumeral(t, n);
    }
  }

  /** A name is fanart of slot n exactly when it has an image extension and its stem is the primary's, letter case
      aside, followed by nothing (n == 0) or by a positive numeral for n. */
  lemma SlotExactly(primary: Name, name: Name, n: nat)
    ensures SlotOf(primary, name) == Some(n) <==> StandsFor(primary, name, n)
  {
    var base, stem := Lower(TrimExt(primary)), Lower(TrimExt(name));
    CutPrefixMeans(stem, base);
    SlotOfStem(stem, base, n);
  }

  lemma SlotOfStem(stem: string, base: string, n: nat)
    ensures SlotAfter(CutPrefix(stem, base)) == Some(n) <==>
            n <= MAX_INT && if n == 0 then stem == base else exists t :: IsNumeral(t, n) && stem == base + t
  {
    CutPrefixMeans(stem, base);
    var cut := CutPrefix(stem, base);
    if cut.Some? {
      SlotAfterExactly(cut.value, n);
      assert base + "" == base;
    }
    if stem == base {
      assert stem == base + "";
      CutPrefixBack(base, "");
    }
    if t :| IsNumeral(t, n) && stem == base + t {
      CutPrefixBack(base, t);
    }
  }

  /** Within a slot: the primary's extension first, then the earlier name. */
  predicate ComesFirst(primary: Name, x: Name, y: Name) {
    var p, q := Lower(Ext(x)) == Lower(Ext(primary)), Lower(Ext(y)) == Lower(Ext(primary));
    (p && !q) || (p == q && TextAtMost(x, y))
  }

  /** One file of the directory per slot, in increasing slots, the first of those that stand for it. */
  ghost predicate ListsFirstPerSlot(primary: Name, names: set<Name>, paths: seq<Name>, slots: seq<nat>) {
    && |slots| == |paths|
    && (forall i :: 0 <= i < |paths| ==> paths[i] in names && StandsFor(primary, paths[i], slots[i]))
    && (forall i, j :: 0 <= i < j < |slots| ==> slots[i] < slots[j])
    && (forall x, n: nat :: x in names && StandsFor(primary, x, n) ==>
          exists i :: 0 <= i < |slots| && slots[i] == n && ComesFirst(primary, paths[i], x))
  }

  /** The same for any convention. */
  ghost predicate KeepsFirstPerSlot(c: Convention, names: set<Name>, paths: seq<Name>, slots: seq<nat>) {
    && |slots| == |paths|
    && (forall i :: 0 <= i < |paths| ==> paths[i] in names && c.slot(paths[i]) == Some(slots[i]))
    && (forall i, j :: 0 <= i < j < |slots| ==> slots[i] < slots[j])
    && (forall x, n: nat :: x in names && c.slot(x) == Some(n) ==>
          exists i: nat :: Leads(c, paths, slots, x, n, i))
  }

  /** Position i lists slot n, with a name at least as much preferred as x. */
  ghost predicate Leads(c: Convention, paths: seq<Name>, slots: seq<nat>, x: Name, n: nat, i: nat)
    requires |slots| == |paths|
  {
    i < |slots| && slots[i] == n && AtMost(c, Indexed(n, paths[i]), Indexed(n, x))
  }

  lemma ListingKeepsFirst(c: Convention, names: set<Name>, paths: seq<Name>) returns (slots: seq<nat>)
    requires IsDiscovery(c, names, paths)
    ensures KeepsFirstPerSlot(c, names, paths, slots)
  {
    var files: seq<Indexed> :| IsListing(c, names, files) && paths == Paths(files);
    slots := seq(|files|, i requires 0 <= i < |files| => files[i].slot);
    FilesKeepFirst(c, names, files, paths, slots);
  }

  lemma FilesKeepFirst(c: Convention, names: set<Name>, files: seq<Indexed>, paths: seq<Name>, slots: seq<nat>)
    requires IsListing(c, names, files) && |files| == |paths| == |slots|
    requires forall i :: 0 <= i < |files| ==> files[i] == Indexed(slots[i], paths[i])
    ensures KeepsFirstPerSlot(c, names, paths, slots)
  {
    forall i | 0 <= i < |paths| ensures paths[i] in names && c.slot(paths[i]) == Some(slots[i]) {
      assert files[i] in files;
    }
    forall x, n: nat | x in names && c.slot(x) == Some(n)
      ensures exists i: nat :: Leads(c, paths, slots, x, n, i)
    {
      var i := LeaderOf(c, names, files, x, n);
      assert Leads(c, paths, slots, x, n, i);
    }
  }

  lemma LeaderOf(c: Convention, names: set<Name>, files: seq<Indexed>, x: Name, n: nat) returns (i: nat)
    requires IsListing(c, names, files) && x in names && c.slot(x) == Some(n)
    ensures i < |files| && files[i].slot == n && AtMost(c, files[i], Indexed(n, x))
  {
    var f := SlotIsListed(c, names, x, n);
    IsInListing(c, names, files, f);
    i :| i < |files| && files[i] == f;
  }

  lemma IsInListing(c: Convention, names: set<Name>, files: seq<Indexed>, f: Indexed)
    requires IsListing(c, names, files) && IsListed(c, names, f)
    ensures f in files
  {
  }

  lemma PathStands(primary: Name, names: set<Name>, paths: seq<Name>, slots: seq<nat>, i: nat)
    requires KeepsFirstPerSlot(ConventionOf(primary), names, paths, slots) && i < |paths|
    ensures paths[i] in names && StandsFor(primary, paths[i], slots[i])
  {
    SlotExactly(primary, paths[i], slots[i]);
  }

  lemma FirstOfSlot(primary: Name, names: set<Name>, paths: seq<Name>, slots: seq<nat>, x: Name, n: nat)
    returns (i: nat)
    requires KeepsFirstPerSlot(ConventionOf(primary), names, paths, slots) && x in names && StandsFor(primary, x, n)
    ensures i < |slots| == |paths| && slots[i] == n && ComesFirst(primary, paths[i], x)
  {
    var c := ConventionOf(primary);
    SlotExactly(primary, x, n);
    i := KeptFirst(c, names, paths, slots, x, n);
    PreferenceMeans(primary, paths[i], x, n);
  }

  lemma KeptFirst(c: Convention, names: set<Name>, paths: seq<Name>, slots: seq<nat>, x: Name, n: nat) returns (i: nat)
    requires KeepsFirstPerSlot(c, names, paths, slots) && x in names && c.slot(x) == Some(n)
    ensures i < |slots| == |paths| && slots[i] == n && AtMost(c, Indexed(n, paths[i]), Indexed(n, x))
  {
    i :| Leads(c, paths, slots, x, n, i);
  }

  lemma PreferenceMeans(primary: Name, x: Name, y: Name, n: nat)
    ensures AtMost(ConventionOf(primary), Indexed(n, x), Indexed(n, y)) <==> ComesFirst(primary, x, y)
  {
  }

  /** What discovery returns, in terms of names alone. */
  lemma DiscoveryMeans(primary: Name, names: set<Name>, paths: seq<Name>) returns (slots: seq<nat>)
    requires IsDiscovery(ConventionOf(primary), names, paths)
    ensures ListsFirstPerSlot(primary, names, paths, slots)
  {
    slots := ListingKeepsFirst(ConventionOf(primary), names, paths);
    forall i | 0 <= i < |paths| ensures paths[i] in names && StandsFor(primary, paths[i], slots[i]) {
      PathStands(primary, names, paths, slots, i);
    }
    forall x, n: nat | x in names && StandsFor(primary, x, n)
      ensures exists i :: 0 <= i < |slots| && slots[i] == n && ComesFirst(primary, paths[i], x)
    {
      var i := FirstOfSlot(primary, names, paths, slots, x, n);
    }
  }

  /** A slot somebody stands for has a listed file, which is preferred to everybody. */
  lemma {:induction false} SlotIsListed(c: Convention, names: set<Name>, x: Name, n: nat) returns (f: Indexed)
    requires x in names && c.slot(x) == Some(n)
    ensures IsListed(c, names, f) && f.slot == n && AtMost(c, f, Indexed(n, x))
    decreases names
  {
    AtMostTotal(c, Indexed(n, x), Indexed(n, x));
    if y :| y in names && y != x && c.slot(y) == Some(n) && AtMost(c, Indexed(n, y), Indexed(n, x)) {
      f := SlotIsListed(c, names - {x}, y, n);
      AtMostTransitive(c, f, Indexed(n, y), Indexed(n, x));
      forall z | z in names && c.slot(z) == Some(n) ensures AtMost(c, f, Indexed(n, z)) {
        assert z == x || z in names - {x};
      }
    } else {
      f := Indexed(n, x);
      forall z | z in names && c.slot(z) == Some(n) ensures AtMost(c, f, Indexed(n, z)) {
        AtMostTotal(c, f, Indexed(n, z));
      }
    }
  }
}
