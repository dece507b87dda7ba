/** Restoring damaged metadata fields: the plan-then-commit endpoint of
    internal/api/handlers_blast_radius_restore.go, over a database of artists and recorded changes. */
module BlastRestore {
  import opened Strings
  import opened Tags

  type Id = string
  type ArtistId = string

  const NAME := "name"

  datatype Change = Change(artist: ArtistId, field: string, oldValue: string, newValue: string, source: string, at: int)

  datatype Db = Db(artists: map<ArtistId, map<string, string>>, history: map<Id, Change>)

  /** Which fields are tracked, which values a field accepts, the identity key of a name, and what a field shows once
      a value has been stored in it. */
  datatype Rules = Rules(
    trackable: string -> bool, accepts: (string, string) -> bool, key: string -> string,
    norm: (string, string) -> string)

  /** A name cannot be blanked and is stored as it is; storing what a field shows changes nothing. */
  ghost predicate Sound(r: Rules) {
    && !r.accepts(NAME, "")
    && (forall v :: r.norm(NAME, v) == v) && (forall field :: r.norm(field, "") == "")
    && (forall field, v :: r.norm(field, r.norm(field, v)) == r.norm(field, v))
  }

  /** The rules with the normal form of the three slice fields. */
  lemma TagRulesAreSound(r: Rules)
    requires !r.accepts(NAME, "") && forall field, v :: r.norm(field, v) == Normal(field, v)
    ensures Sound(r)
  {
    forall field, v ensures r.norm(field, r.norm(field, v)) == r.norm(field, v) {
      NormalTwice(field, v);
    }
    assert Normal(NAME, "") == "" && JoinTags(SplitTags("")) == "";
  }

  function Live(db: Db, a: ArtistId, field: string): string {
    if a in db.artists && field in db.artists[a] then db.artists[a][field] else ""
  }

  // ---------------------------------------------------------------- the report

  predicate SamePair(c: Change, d: Change) {
    c.artist == d.artist && c.field == d.field
  }

  /** Ranked first among the rows of its (artist, field): newest timestamp, ties broken by the text order of ids. */
  predicate IsTop(db: Db, id: Id)
    requires id in db.history
  {
    forall j :: j in db.history && SamePair(db.history[j], db.history[id]) ==>
      db.history[j].at < db.history[id].at || (db.history[j].at == db.history[id].at && TextAtMost(j, id))
  }

  /** The row the report lists for its pair: ranked first, still an artist's, and damage rather than a recovery. */
  predicate IsCurrentBlastRow(db: Db, id: Id)
    requires id in db.history
  {
    var c := db.history[id];
    c.artist in db.artists && IsTop(db, id) && c.oldValue != "" && c.oldValue != c.newValue && c.source != "revert"
  }

  // ---------------------------------------------------------------- items

  datatype Reason =
    | NoReason | NotFound | NotRevertible | RevertOfRevert | InvalidOldValue | NotCurrent | NameCollision | WriteFailed

  datatype Status = Planned | Restored | Unchanged | Refused

  datatype Item = Item(
    id: Id, artist: ArtistId, field: string, current: string, restore: string,
    status: Status, reason: Reason, restoreId: Id)

  /** Reads that fail while one row is planned. */
  datatype PlanFaults = PlanFaults(fetch: bool, list: bool, read: bool, scan: bool)

  const NO_PLAN_FAULTS := PlanFaults(false, false, false, false)

  predicate HasPartner(db: Db, r: Rules, a: ArtistId, key: string) {
    exists b :: b in db.artists && b != a && r.key(Live(db, b, NAME)) == key
  }

  /** Giving artist a this name would hand it an identity another artist holds. */
  predicate WouldCollide(db: Db, r: Rules, a: ArtistId, name: string) {
    r.key(name) != "" && r.key(Live(db, a, NAME)) != r.key(name) && HasPartner(db, r, a, r.key(name))
  }

  function PlanOne(db: Db, r: Rules, id: Id, f: PlanFaults): (item: Item)
    ensures item.id == id && (item.status == Planned || item.status == Refused)
  {
    var it := Item(id, "", "", "", "", Refused, NoReason, "");
    if f.fetch || id !in db.history then it.(reason := NotFound) else
    var c := db.history[id];
    var it1 := it.(artist := c.artist, field := c.field, restore := c.oldValue);
    if !r.trackable(c.field) then it1.(reason := NotRevertible)
    else if c.source == "revert" then it1.(reason := RevertOfRevert)
    else if !r.accepts(c.field, c.oldValue) then it1.(reason := InvalidOldValue)
    else if f.list || !IsCurrentBlastRow(db, id) then it1.(reason := NotCurrent)
    else if f.read || c.artist !in db.artists then it1.(reason := NotCurrent) else
    var it2 := it1.(current := Live(db, c.artist, c.field));
    if it2.current != c.newValue && it2.current != c.oldValue then it2.(reason := NotCurrent)
    else if c.field == NAME && f.scan then it2.(reason := NotCurrent)
    else if c.field == NAME && WouldCollide(db, r, c.artist, c.oldValue) then it2.(reason := NameCollision)
    else it2.(status := Planned)
  }

  function Plan(db: Db, r: Rules, ids: seq<Id>, f: seq<PlanFaults>): seq<Item>
    requires |f| == |ids|
  {
    seq(|ids|, i requires 0 <= i < |ids| => PlanOne(db, r, ids[i], f[i]))
  }

  // ---------------------------------------------------------------- writing

  /** How one write goes: its reads, the read behind the no-op check and its write may fail, recording history is
      best effort, and the recorded row gets an id and a timestamp nobody controls. */
  datatype CommitFaults = CommitFaults(
    refetch: bool, reread: bool, noopRead: bool, write: bool, unrecorded: bool, newId: Id, at: int)

  datatype Revert = Changed | AlreadyThere | Failed(reason: Reason)

  /** The database once a field shows a text; showing it already, it is the same database. */
  function WriteField(db: Db, a: ArtistId, field: string, value: string): Db
    requires a in db.artists
  {
    if Live(db, a, field) == value then db
    else db.(artists := db.artists[a := db.artists[a][field := value]])
  }

  function Recorded(db: Db, c: Change, was: string, now: string, f: CommitFaults): Db {
    if f.unrecorded || was == now then db
    else db.(history := db.history[f.newId := Change(c.artist, c.field, was, now, "revert", f.at)])
  }

  /** A name is read, compared, written and checked in one transaction. */
  function NameRevert(db: Db, r: Rules, c: Change, f: CommitFaults): (Db, Revert) {
    if f.noopRead || c.artist !in db.artists then (db, Failed(WriteFailed))
    else
      var live := Live(db, c.artist, c.field);
      if live == c.oldValue then (db, AlreadyThere)
      else if f.write then (db, Failed(WriteFailed))
      else if WouldCollide(db, r, c.artist, c.oldValue) then (db, Failed(NameCollision))
      else (Recorded(WriteField(db, c.artist, c.field, c.oldValue), c, live, c.oldValue, f), Changed)
  }

  /** The no-op check: a clear looks for an empty field, any other update compares normal forms. */
  predicate AlreadyHolds(r: Rules, field: string, value: string, live: string) {
    if value == "" then live == "" else r.norm(field, live) == r.norm(field, value)
  }

  /** Any other field. When the read behind the no-op check fails, the value is written unseen and unrecorded; what is
      stored is the normal form; an UPDATE that meets no artist still succeeds. */
  function FieldRevert(db: Db, r: Rules, c: Change, f: CommitFaults): (Db, Revert) {
    var known := !f.noopRead && c.artist in db.artists;
    var live := Live(db, c.artist, c.field);
    if known && AlreadyHolds(r, c.field, c.oldValue, live) then (db, AlreadyThere)
    else if f.write then (db, Failed(WriteFailed))
    else if c.artist !in db.artists then (db, Changed)
    else
      var now := r.norm(c.field, c.oldValue);
      var written := WriteField(db, c.artist, c.field, now);
      (if known then Recorded(written, c, live, now, f) else written, Changed)
  }

  function RevertResult(db: Db, r: Rules, c: Change, f: CommitFaults): (Db, Revert) {
    if !r.accepts(c.field, c.oldValue) then (db, Failed(InvalidOldValue))
    else if c.field == NAME && c.oldValue != "" then NameRevert(db, r, c, f)
    else FieldRevert(db, r, c, f)
  }

  /** Commit of one item. The three databases are what the re-fetch, the live re-check and the write see; they
      are the same when nobody else writes. */
  function CommitOne(d1: Db, d2: Db, d3: Db, r: Rules, it: Item, f: CommitFaults): (Db, Item) {
    if it.status != Planned then (d3, it)
    else if f.refetch || it.id !in d1.history then (d3, it.(status := Refused, reason := NotFound)) else
    var c := d1.history[it.id];
    if f.reread || c.artist !in d2.artists then (d3, it.(status := Refused, reason := NotCurrent)) else
    var live := Live(d2, c.artist, c.field);
    if live != c.newValue && live != c.oldValue then
      (d3, it.(status := Refused, reason := NotCurrent, current := live))
    else
      var (d, outcome) := RevertResult(d3, r, c, f);
      match outcome
      case Failed(reason) => (d, it.(status := Refused, reason := reason))
      case AlreadyThere => (d, it.(status := Unchanged))
      case Changed => (d, it.(status := Restored, restoreId := f.newId, current := it.restore))
  }

  /** The first k items committed in order with no other writer around. */
  function CommitUpTo(db: Db, r: Rules, items: seq<Item>, f: seq<CommitFaults>, k: nat): (res: (Db, seq<Item>))
    requires k <= |items| == |f|
    ensures |res.1| == k
  {
    if k == 0 then (db, []) else
    var (d, done) := CommitUpTo(db, r, items, f, k - 1);
    var (d', it) := CommitOne(d, d, d, r, items[k - 1], f[k - 1]);
    (d', done + [it])
  }

  function Commit(db: Db, r: Rules, items: seq<Item>, f: seq<CommitFaults>): (res: (Db, seq<Item>))
    requires |items| == |f|
    ensures |res.1| == |items|
  {
    CommitUpTo(db, r, items, f, |items|)
  }

  // ---------------------------------------------------------------- the service

  class Service {
    var db: Db

    constructor (db: Db)
      ensures this.db == db
    {
      this.db := db;
    }

    method PlanBlastRestore(r: Rules, ids: seq<Id>, f: seq<PlanFaults>) returns (items: array<Item>)
      requires |f| == |ids|
      ensures fresh(items) && items[..] == Plan(db, r, ids, f)
    {
      items := new Item[|ids|];
      for i := 0 to |ids|
        invariant forall j :: 0 <= j < i ==> items[j] == PlanOne(db, r, ids[j], f[j])
      {
        items[i] := PlanOne(db, r, ids[i], f[i]);
      }
    }

    method RecordRevert(c: Change, was: string, now: string, f: CommitFaults)
      modifies this
      ensures db == Recorded(old(db), c, was, now, f)
    {
      if !f.unrecorded && was != now {
        db := db.(history := db.history[f.newId := Change(c.artist, c.field, was, now, "revert", f.at)]);
      }
    }

    method UpdateNameGuarded(r: Rules, c: Change, f: CommitFaults) returns (outcome: Revert)
      modifies this
      ensures (db, outcome) == NameRevert(old(db), r, c, f)
    {
      if f.noopRead || c.artist !in db.artists {
        return Failed(WriteFailed);
      }
      var live := Live(db, c.artist, c.field);
      if live == c.oldValue {
        return AlreadyThere;
      }
      if f.write {
        return Failed(WriteFailed);
      }
      if WouldCollide(db, r, c.artist, c.oldValue) {
        return Failed(NameCollision);
      }
      db := WriteField(db, c.artist, c.field, c.oldValue);
      RecordRevert(c, live, c.oldValue, f);
      return Changed;
    }

    /** UpdateField and ClearField, which differ in the no-op check only. */
    method UpdateField(r: Rules, c: Change, f: CommitFaults) returns (outcome: Revert)
      modifies this
      ensures (db, outcome) == FieldRevert(old(db), r, c, f)
    {
      var live, known := "", false;
      if !f.noopRead && c.artist in db.artists {
        live, known := Live(db, c.artist, c.field), true;
      }
      if known && AlreadyHolds(r, c.field, c.oldValue, live) {
        return AlreadyThere;
      }
      if f.write {
        return Failed(WriteFailed);
      }
      var now := r.norm(c.field, c.oldValue);
      if c.artist in db.artists {
        db := WriteField(db, c.artist, c.field, now);
      }
      if known {
        RecordRevert(c, live, now, f);
      }
      return Changed;
    }

    /** performRevert: validates the value, then takes the guarded route for a name and the plain one otherwise. */
    method PerformRevert(r: Rules, c: Change, f: CommitFaults) returns (outcome: Revert)
      modifies this
      ensures (db, outcome) == RevertResult(old(db), r, c, f)
    {
      if !r.accepts(c.field, c.oldValue) {
        return Failed(InvalidOldValue);
      }
      if c.field == NAME && c.oldValue != "" {
        outcome := UpdateNameGuarded(r, c, f);
      } else {
        outcome := UpdateField(r, c, f);
      }
    }

    /** Writes every planned item and updates its status in place; refused items are left alone. */
    method CommitBlastRestore(r: Rules, items: array<Item>, f: seq<CommitFaults>)
      requires |f| == items.Length
      modifies this, items
      ensures (db, items[..]) == Commit(old(db), r, old(items[..]), f)
    {
      ghost var db0, items0 := db, items[..];
      for i := 0 to items.Length
        invariant items[i..] == items0[i..]
        invariant (db, items[..i]) == CommitUpTo(db0, r, items0, f, i)
      {
        var it := items[i];
        assert it == items0[i] by {
          assert items[i..][0] == items0[i..][0];
        }
        ghost var done := items[..i];
        CommitItem(r, items, i, f[i]);
        assert items[..i] == done;
        assert items[..i + 1] == items[..i] + [items[i]];
        assert items[i + 1..] == items0[i..][1..];
      }
      assert items[..items.Length] == items[..];
    }

    method CommitItem(r: Rules, items: array<Item>, i: nat, f: CommitFaults)
      requires i < items.Length
      modifies this, items
      ensures (db, items[i]) == CommitOne(old(db), old(db), old(db), r, old(items[i]), f)
      ensures forall j :: 0 <= j < items.Length && j != i ==> items[j] == old(items[j])
    {
      var it := items[i];
      if it.status != Planned {
        return;
      }
      if f.refetch || it.id !in db.history {
        items[i] := it.(status := Refused, reason := NotFound);
        return;
      }
      var c := db.history[it.id];
      if f.reread || c.artist !in db.artists {
        items[i] := it.(status := Refused, reason := NotCurrent);
        return;
      }
      var live := Live(db, c.artist, c.field);
      if live != c.newValue && live != c.oldValue {
        items[i] := it.(status := Refused, reason := NotCurrent, current := live);
        return;
      }
      var outcome := PerformRevert(r, c, f);
      match outcome {
        case Failed(reason) => items[i] := it.(status := Refused, reason := reason);
        case AlreadyThere => items[i] := it.(status := Unchanged);
        case Changed => items[i] := it.(status := Restored, restoreId := f.newId, current := it.restore);
      }
    }
  }

  /** Blank and repeated ids dropped, first occurrences kept in order. */
  function Dedupe(ids: seq<Id>): seq<Id> {
    if ids == [] then [] else
    var init, last := Dedupe(ids[..|ids| - 1]), ids[|ids| - 1];
    if last == "" || last in init then init else init + [last]
  }

  method DedupeChangeIds(ids: seq<Id>) returns (out: seq<Id>)
    ensures out == Dedupe(ids)
  {
    out := [];
    var seen: set<Id> := {};
    for i := 0 to |ids|
      invariant out == Dedupe(ids[..i]) && forall x :: x in seen <==> x in out
    {
      assert ids[..i + 1][..i] == ids[..i];
      if ids[i] != "" && ids[i] !in seen {
        seen := seen + {ids[i]};
        out := out + [ids[i]];
      }
    }
    assert ids[..|ids|] == ids;
  }

  ghost predicate Distinct(ids: seq<Id>) {
    forall i, j :: 0 <= i < j < |ids| ==> ids[i] != ids[j]
  }

  lemma {:induction false} DedupeKeepsEachIdOnce(ids: seq<Id>)
    ensures Distinct(Dedupe(ids))
    ensures forall x :: x in Dedupe(ids) <==> x in ids && x != ""
  {
    if ids != [] {
      DedupeKeepsEachIdOnce(ids[..|ids| - 1]);
      assert ids == ids[..|ids| - 1] + [ids[|ids| - 1]];
    }
  }

  // ---------------------------------------------------------------- the response counters

  function CountStatus(items: seq<Item>, s: Status): nat {
    if items == [] then 0 else CountStatus(items[..|items| - 1], s) + if items[|items| - 1].status == s then 1 else 0
  }

  /** Where the items of a status stand. */
  ghost function WithStatus(items: seq<Item>, s: Status): set<nat> {
    set i: nat | i < |items| && items[i].status == s
  }

  lemma OneMoreItem(items: seq<Item>, it: Item, s: Status)
    ensures |WithStatus(items + [it], s)| == |WithStatus(items, s)| + if it.status == s then 1 else 0
  {
    if it.status == s {
      assert WithStatus(items + [it], s) == WithStatus(items, s) + {|items|};
    } else {
      assert WithStatus(items + [it], s) == WithStatus(items, s);
    }
  }

  lemma {:induction false} CountsTheItems(items: seq<Item>, s: Status)
    ensures CountStatus(items, s) == |WithStatus(items, s)|
  {
    if items != [] {
      var front, it := items[..|items| - 1], items[|items| - 1];
      CountsTheItems(front, s);
      OneMoreItem(front, it, s);
      assert items == front + [it];
    }
  }

  method SummarizeBlastRestore(items: seq<Item>) returns (eligible: nat, restored: nat, unchanged_: nat, refused: nat)
    ensures restored == CountStatus(items, Restored) && unchanged_ == CountStatus(items, Unchanged)
    ensures refused == CountStatus(items, Refused)
    ensures eligible == CountStatus(items, Planned) + restored + unchanged_
    ensures eligible + refused == |items|
  {
    eligible, restored, unchanged_, refused := 0, 0, 0, 0;
    for i := 0 to |items|
      invariant restored == CountStatus(items[..i], Restored) && unchanged_ == CountStatus(items[..i], Unchanged)
      invariant refused == CountStatus(items[..i], Refused)
      invariant eligible == CountStatus(items[..i], Planned) + restored + unchanged_
      invariant eligible + refused == i
    {
      assert items[..i + 1][..i] == items[..i];
      match items[i].status {
        case Planned => eligible := eligible + 1;
        case Restored => eligible, restored := eligible + 1, restored + 1;
        case Unchanged => eligible, unchanged_ := eligible + 1, unchanged_ + 1;
        case Refused => refused := refused + 1;
      }
    }
    assert items[..|items|] == items;
  }
}
