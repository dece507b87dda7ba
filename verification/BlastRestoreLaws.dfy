/** What the restore endpoint guarantees: plan and commit agree, nothing is restored twice, no name identity is
    duplicated, and a write never replaces a value newer than the one it re-checked. */
module BlastRestoreLaws {
  import opened BlastRestore
  import opened Strings
  import opened Tags

  // ---------------------------------------------------------------- the plan

  /** However timestamps tie, a pair has one top row. */
  lemma TopIsUnique(db: Db, i: Id, j: Id)
    requires i in db.history && j in db.history && SamePair(db.history[i], db.history[j])
    requires IsTop(db, i) && IsTop(db, j)
    ensures i == j
  {
    TextAntisymmetric(i, j);
  }

  ghost predicate SameTarget(x: Item, y: Item) {
    x.artist == y.artist && x.field == y.field
  }

  /** What a planned item promises about the database it was planned in. */
  ghost predicate Backed(db: Db, r: Rules, it: Item) {
    it.status == Planned ==>
      && it.id in db.history
      && var c := db.history[it.id];
         && c.artist == it.artist && c.field == it.field && c.oldValue == it.restore
         && it.artist in db.artists && it.current == Live(db, it.artist, it.field)
         && r.accepts(c.field, c.oldValue) && IsCurrentBlastRow(db, it.id)
         && (it.current == c.newValue || it.current == c.oldValue)
  }

  /** A plan whose writes cannot get into each other's way. */
  ghost predicate GoodPlan(db: Db, r: Rules, items: seq<Item>) {
    && (forall i :: 0 <= i < |items| ==> Backed(db, r, items[i]))
    && (forall i, j :: 0 <= i < j < |items| && items[i].status == Planned && items[j].status == Planned ==>
          !SameTarget(items[i], items[j]))
  }

  /** In one database the planned items have pairwise distinct (artist, field) targets. */
  lemma PlanIsGood(db: Db, r: Rules, ids: seq<Id>, f: seq<PlanFaults>)
    requires Distinct(ids) && |f| == |ids|
    ensures GoodPlan(db, r, Plan(db, r, ids, f))
  {
    var items := Plan(db, r, ids, f);
    forall i, j | 0 <= i < j < |items| && items[i].status == Planned && items[j].status == Planned
      ensures !SameTarget(items[i], items[j])
    {
      if SameTarget(items[i], items[j]) {
        TopIsUnique(db, ids[i], ids[j]);
      }
    }
  }

  // ---------------------------------------------------------------- the database while a batch is written

  /** The ids of new history rows are new. */
  ghost predicate FreshIds(db: Db, f: seq<CommitFaults>) {
    && (forall i :: 0 <= i < |f| ==> f[i].newId !in db.history)
    && (forall i, j :: 0 <= i < j < |f| ==> f[i].newId != f[j].newId)
  }

  /** The database item k finds. */
  ghost function Before(db: Db, r: Rules, items: seq<Item>, f: seq<CommitFaults>, k: nat): Db
    requires k <= |items| == |f|
  {
    CommitUpTo(db, r, items, f, k).0
  }

  /** Item k after its commit. */
  ghost function Done(db: Db, r: Rules, items: seq<Item>, f: seq<CommitFaults>, k: nat): Item
    requires k < |items| == |f|
  {
    var d := Before(db, r, items, f, k);
    CommitOne(d, d, d, r, items[k], f[k]).1
  }

  lemma {:induction false} CommitIsDone(db: Db, r: Rules, items: seq<Item>, f: seq<CommitFaults>, n: nat, k: nat)
    requires k < n <= |items| == |f|
    ensures CommitUpTo(db, r, items, f, n).1[k] == Done(db, r, items, f, k)
  {
    if k < n - 1 {
      CommitIsDone(db, r, items, f, n - 1, k);
    }
  }

  ghost predicate RowOf(c: Change, it: Item) {
    c.artist == it.artist && c.field == it.field && c.oldValue == it.restore
  }

  /** One commit keeps the artists there are and adds at most one history row, a revert with the new id. */
  lemma OneCommitKeepsRows(d: Db, r: Rules, it: Item, f: CommitFaults)
    requires f.newId !in d.history
    ensures var d' := CommitOne(d, d, d, r, it, f).0;
            && d'.artists.Keys == d.artists.Keys
            && (d'.history == d.history
                || (d'.history.Keys == d.history.Keys + {f.newId}
                    && d'.history == d.history[f.newId := d'.history[f.newId]]
                    && d'.history[f.newId].source == "revert"))
  {
  }

  /** The commit records a history row: the value it replaces was read, and recording did not fail. */
  predicate Records(f: CommitFaults) {
    !f.noopRead && !f.unrecorded
  }

  /** The new row is there exactly when the item was restored and recorded, and it is about the item's field. */
  lemma OneCommitRecords(d: Db, r: Rules, it: Item, f: CommitFaults)
    requires Sound(r)
    requires f.newId !in d.history && it.status != Restored
    requires it.status == Planned ==> it.id in d.history && RowOf(d.history[it.id], it)
    ensures var (d', it') := CommitOne(d, d, d, r, it, f);
            && (f.newId in d'.history <==> it'.status == Restored && Records(f))
            && (f.newId in d'.history ==>
                  var row := d'.history[f.newId];
                  && it.status == Planned && row.artist == it.artist && row.field == it.field && row.at == f.at
                  && row.source == "revert" && row.oldValue == Live(d, it.artist, it.field)
                  && row.newValue == Live(d', it.artist, it.field) == r.norm(it.field, it.restore))
  {
  }

  /** Known rows and known artists stay; only rows with the batch's new ids come in. */
  lemma {:induction false} RowsStay(db: Db, r: Rules, items: seq<Item>, f: seq<CommitFaults>, k: nat)
    requires k <= |items| == |f| && FreshIds(db, f)
    ensures var d := Before(db, r, items, f, k);
            && d.artists.Keys == db.artists.Keys
            && (forall id :: id in db.history ==> id in d.history && d.history[id] == db.history[id])
            && (forall id :: id in d.history && id !in db.history ==>
                  d.history[id].source == "revert" && exists i :: 0 <= i < k && id == f[i].newId)
    decreases k
  {
    if k > 0 {
      RowsStay(db, r, items, f, k - 1);
      OneCommitKeepsRows(Before(db, r, items, f, k - 1), r, items[k - 1], f[k - 1]);
    }
  }

  /** A plain field is written unseen: the re-checks pass, the read behind the no-op check fails, the write lands. */
  predicate WritesUnseen(it: Item, f: CommitFaults) {
    it.field != NAME && f.noopRead && !f.refetch && !f.reread && !f.write
  }

  /** One commit in a database that has the item's row: it writes the item's field or nothing. */
  lemma OneCommit(d: Db, r: Rules, it: Item, f: CommitFaults, a: ArtistId, field: string)
    requires Sound(r) && it.status != Restored
    requires it.status == Planned ==> it.id in d.history && RowOf(d.history[it.id], it)
    ensures var (d', it') := CommitOne(d, d, d, r, it, f);
            && (it'.status == Restored ==>
                  it.status == Planned
                  && (!AlreadyHolds(r, it.field, it.restore, Live(d, it.artist, it.field)) || WritesUnseen(it, f)))
            && Live(d', a, field) ==
               if it'.status == Restored && it.artist == a && it.field == field then r.norm(it.field, it.restore)
               else Live(d, a, field)
  {
  }

  /** Item j was restored and is aimed at this field. */
  ghost predicate Hits(db: Db, r: Rules, items: seq<Item>, f: seq<CommitFaults>, j: nat, a: ArtistId, field: string)
    requires j < |items| == |f|
  {
    Done(db, r, items, f, j).status == Restored && items[j].artist == a && items[j].field == field
  }

  ghost predicate Committable(db: Db, r: Rules, items: seq<Item>, f: seq<CommitFaults>) {
    && |items| == |f| && Sound(r) && FreshIds(db, f) && GoodPlan(db, r, items)
    && forall i :: 0 <= i < |items| ==> items[i].status == Planned || items[i].status == Refused
  }

  lemma StepCommit(db: Db, r: Rules, items: seq<Item>, f: seq<CommitFaults>, k: nat, a: ArtistId, field: string)
    requires Committable(db, r, items, f) && k < |items|
    ensures Done(db, r, items, f, k).status == Restored ==>
              var it := items[k];
              it.status == Planned
              && (!AlreadyHolds(r, it.field, it.restore, Live(Before(db, r, items, f, k), it.artist, it.field))
                  || WritesUnseen(it, f[k]))
    ensures Live(Before(db, r, items, f, k + 1), a, field) ==
            if Hits(db, r, items, f, k, a, field) then r.norm(items[k].field, items[k].restore)
            else Live(Before(db, r, items, f, k), a, field)
  {
    RowsStay(db, r, items, f, k);
    assert Backed(db, r, items[k]);
    OneCommit(Before(db, r, items, f, k), r, items[k], f[k], a, field);
  }

  lemma NoHitKeeps(db: Db, r: Rules, items: seq<Item>, f: seq<CommitFaults>, k: nat, a: ArtistId, field: string)
    requires Committable(db, r, items, f) && k < |items| && !Hits(db, r, items, f, k, a, field)
    ensures Live(Before(db, r, items, f, k + 1), a, field) == Live(Before(db, r, items, f, k), a, field)
  {
    StepCommit(db, r, items, f, k, a, field);
  }

  /** A field no restored item is aimed at between two points of the batch keeps its value between them. */
  lemma {:induction false} FieldKept(db: Db, r: Rules, items: seq<Item>, f: seq<CommitFaults>, from: nat, k: nat,
                                     a: ArtistId, field: string)
    requires Committable(db, r, items, f) && from <= k <= |items|
    requires forall j :: from <= j < k ==> !Hits(db, r, items, f, j, a, field)
    ensures Live(Before(db, r, items, f, k), a, field) == Live(Before(db, r, items, f, from), a, field)
    decreases k
  {
    if from < k {
      FieldKept(db, r, items, f, from, k - 1, a, field);
      NoHitKeeps(db, r, items, f, k - 1, a, field);
    }
  }

  /** Only a planned item can hit a field, so at most one does. */
  lemma OneHitter(db: Db, r: Rules, items: seq<Item>, f: seq<CommitFaults>, k: nat, j: nat)
    requires Committable(db, r, items, f) && k < |items| && j < |items| && items[k].status == Planned && j != k
    ensures !Hits(db, r, items, f, j, items[k].artist, items[k].field)
  {
    StepCommit(db, r, items, f, j, items[k].artist, items[k].field);
    if items[j].status == Planned {
      assert j < k ==> !SameTarget(items[j], items[k]);
      assert k < j ==> !SameTarget(items[k], items[j]);
    }
  }

  lemma NobodyElseHits(db: Db, r: Rules, items: seq<Item>, f: seq<CommitFaults>, k: nat)
    requires Committable(db, r, items, f) && k < |items| && items[k].status == Planned
    ensures forall j :: 0 <= j < |items| && j != k ==> !Hits(db, r, items, f, j, items[k].artist, items[k].field)
  {
    forall j | 0 <= j < |items| && j != k ensures !Hits(db, r, items, f, j, items[k].artist, items[k].field) {
      OneHitter(db, r, items, f, k, j);
    }
  }

  lemma PlannedMeetsItsRow(db: Db, r: Rules, items: seq<Item>, f: seq<CommitFaults>, k: nat)
    requires Committable(db, r, items, f) && k < |items| && items[k].status == Planned
    ensures var d := Before(db, r, items, f, k);
            && items[k].id in d.history && d.history[items[k].id] == db.history[items[k].id]
            && items[k].artist in d.artists
            && Live(d, items[k].artist, items[k].field) == Live(db, items[k].artist, items[k].field)
  {
    assert Backed(db, r, items[k]);
    RowsStay(db, r, items, f, k);
    NobodyElseHits(db, r, items, f, k);
    FieldKept(db, r, items, f, 0, k, items[k].artist, items[k].field);
  }

  lemma PlannedFieldAtEnd(db: Db, r: Rules, items: seq<Item>, f: seq<CommitFaults>, k: nat)
    requires Committable(db, r, items, f) && k < |items| && items[k].status == Planned
    ensures Live(Commit(db, r, items, f).0, items[k].artist, items[k].field) ==
            if Done(db, r, items, f, k).status == Restored then r.norm(items[k].field, items[k].restore)
            else Live(Before(db, r, items, f, k), items[k].artist, items[k].field)
  {
    NobodyElseHits(db, r, items, f, k);
    StepCommit(db, r, items, f, k, items[k].artist, items[k].field);
    FieldKept(db, r, items, f, k + 1, |items|, items[k].artist, items[k].field);
  }

  /** A planned item meets, at its turn, exactly the row and the value it was planned on, and its field ends as
      the item leaves it. */
  lemma PlannedMeetsItsValue(db: Db, r: Rules, items: seq<Item>, f: seq<CommitFaults>, k: nat)
    requires Committable(db, r, items, f) && k < |items| && items[k].status == Planned
    ensures var d := Before(db, r, items, f, k);
            && items[k].id in d.history && d.history[items[k].id] == db.history[items[k].id]
            && items[k].artist in d.artists
            && Live(d, items[k].artist, items[k].field) == Live(db, items[k].artist, items[k].field)
    ensures Live(Commit(db, r, items, f).0, items[k].artist, items[k].field) ==
            if Done(db, r, items, f, k).status == Restored then r.norm(items[k].field, items[k].restore)
            else Live(db, items[k].artist, items[k].field)
    ensures Commit(db, r, items, f).1[k] == Done(db, r, items, f, k)
  {
    PlannedMeetsItsRow(db, r, items, f, k);
    PlannedFieldAtEnd(db, r, items, f, k);
    CommitIsDone(db, r, items, f, |items|, k);
  }

  /** A plan over distinct ids is ready to commit. */
  lemma PlanIsCommittable(db: Db, r: Rules, ids: seq<Id>, g: seq<PlanFaults>, f: seq<CommitFaults>)
    requires Sound(r) && Distinct(ids) && |g| == |ids| == |f| && FreshIds(db, f)
    ensures Committable(db, r, Plan(db, r, ids, g), f)
  {
    PlanIsGood(db, r, ids, g);
  }

  // ---------------------------------------------------------------- plan and commit agree

  ghost predicate Smooth(f: CommitFaults) {
    !f.refetch && !f.reread && !f.write
  }

  /** The field was read and seen to hold the old value, in normal form, before the commit. */
  predicate Seen(db: Db, r: Rules, it: Item, f: CommitFaults) {
    !f.noopRead && AlreadyHolds(r, it.field, it.restore, Live(db, it.artist, it.field))
  }

  /** In a quiescent database a planned non-name item whose re-checks and write do not fail ends unchanged when its
      field was seen to hold the old value, and restored otherwise. Either way the field holds it in normal form; it
      shows the very text that was recorded exactly when the skipped text was that one, or is stored as recorded. */
  lemma PlannedItemLands(db: Db, r: Rules, ids: seq<Id>, g: seq<PlanFaults>, f: seq<CommitFaults>, k: nat)
    requires Sound(r) && Distinct(ids) && |g| == |ids| == |f| && FreshIds(db, f) && k < |ids|
    requires var it := Plan(db, r, ids, g)[k]; it.status == Planned && it.field != NAME
    requires Smooth(f[k])
    ensures var it := Plan(db, r, ids, g)[k];
            var (d, done) := Commit(db, r, Plan(db, r, ids, g), f);
            var was, now := Live(db, it.artist, it.field), Live(d, it.artist, it.field);
            && done[k].status == (if Seen(db, r, it, f[k]) then Unchanged else Restored)
            && now == (if Seen(db, r, it, f[k]) then was else r.norm(it.field, it.restore))
            && AlreadyHolds(r, it.field, it.restore, now)
            && (now == it.restore <==>
                if Seen(db, r, it, f[k]) then was == it.restore else r.norm(it.field, it.restore) == it.restore)
  {
    var items := Plan(db, r, ids, g);
    PlanIsCommittable(db, r, ids, g, f);
    PlannedMeetsItsValue(db, r, items, f, k);
    assert Backed(db, r, items[k]);
  }

  /** The batch changes nothing but the fields of the items it reports restored. */
  lemma OtherFieldsUntouched(db: Db, r: Rules, ids: seq<Id>, g: seq<PlanFaults>, f: seq<CommitFaults>,
                             a: ArtistId, field: string)
    requires Sound(r) && Distinct(ids) && |g| == |ids| == |f| && FreshIds(db, f)
    requires forall it :: it in Commit(db, r, Plan(db, r, ids, g), f).1 ==>
               !(it.status == Restored && it.artist == a && it.field == field)
    ensures Live(Commit(db, r, Plan(db, r, ids, g), f).0, a, field) == Live(db, a, field)
  {
    PlanIsCommittable(db, r, ids, g, f);
    UnreportedFieldKept(db, r, Plan(db, r, ids, g), f, a, field);
  }

  lemma UnreportedFieldKept(db: Db, r: Rules, items: seq<Item>, f: seq<CommitFaults>, a: ArtistId, field: string)
    requires Committable(db, r, items, f)
    requires forall it :: it in Commit(db, r, items, f).1 ==>
               !(it.status == Restored && it.artist == a && it.field == field)
    ensures Live(Commit(db, r, items, f).0, a, field) == Live(db, a, field)
  {
    var done := Commit(db, r, items, f).1;
    forall j | 0 <= j < |items| ensures !Hits(db, r, items, f, j, a, field) {
      CommitIsDone(db, r, items, f, |items|, j);
      StepCommit(db, r, items, f, j, a, field);
      assert done[j] in done;
      DoneKeepsTarget(db, r, items, f, j);
    }
    FieldKept(db, r, items, f, 0, |items|, a, field);
  }

  lemma DoneKeepsTarget(db: Db, r: Rules, items: seq<Item>, f: seq<CommitFaults>, j: nat)
    requires j < |items| == |f|
    ensures Done(db, r, items, f, j).artist == items[j].artist && Done(db, r, items, f, j).field == items[j].field
  {
  }

  // ---------------------------------------------------------------- no identity is duplicated

  /** Two different artists share a non-empty identity key. */
  ghost predicate Duplicates(db: Db, r: Rules, a: ArtistId, b: ArtistId) {
    a in db.artists && b in db.artists && a != b
    && r.key(Live(db, a, NAME)) == r.key(Live(db, b, NAME)) && r.key(Live(db, a, NAME)) != ""
  }

  /** What one commit does to the artists: nothing, or the old value of its row is written. */
  lemma CommitEffect(d1: Db, d2: Db, d3: Db, r: Rules, it: Item, f: CommitFaults)
    requires Sound(r)
    ensures var d := CommitOne(d1, d2, d3, r, it, f).0;
            || d == d3
            || (it.id in d1.history
                && var c := d1.history[it.id];
                   && c.artist in d3.artists
                   && d.artists == WriteField(d3, c.artist, c.field, r.norm(c.field, c.oldValue)).artists
                   && (Live(d2, c.artist, c.field) == c.newValue || Live(d2, c.artist, c.field) == c.oldValue)
                   && (c.field == NAME ==> !WouldCollide(d3, r, c.artist, c.oldValue)))
  {
  }

  lemma OneCommitAddsNoDuplicate(d: Db, r: Rules, it: Item, f: CommitFaults, a: ArtistId, b: ArtistId)
    requires Sound(r) && Duplicates(CommitOne(d, d, d, r, it, f).0, r, a, b)
    ensures Duplicates(d, r, a, b)
  {
    var d' := CommitOne(d, d, d, r, it, f).0;
    CommitEffect(d, d, d, r, it, f);
    if d' != d {
      var c := d.history[it.id];
      NamesAfterWrite(d, d', r, c, a);
      NamesAfterWrite(d, d', r, c, b);
    }
  }

  lemma NamesAfterWrite(d: Db, d': Db, r: Rules, c: Change, a: ArtistId)
    requires Sound(r) && c.artist in d.artists
    requires d'.artists == WriteField(d, c.artist, c.field, r.norm(c.field, c.oldValue)).artists
    ensures a in d'.artists <==> a in d.artists
    ensures Live(d', a, NAME) == if a == c.artist && c.field == NAME then c.oldValue else Live(d, a, NAME)
  {
  }

  /** Whatever fails, a committed batch leaves no two artists with the same identity that did not share it before. */
  lemma {:induction false} CommitAddsNoDuplicate(db: Db, r: Rules, items: seq<Item>, f: seq<CommitFaults>, k: nat,
                                                 a: ArtistId, b: ArtistId)
    requires Sound(r) && k <= |items| == |f| && Duplicates(CommitUpTo(db, r, items, f, k).0, r, a, b)
    ensures Duplicates(db, r, a, b)
    decreases k
  {
    if k > 0 {
      OneCommitAddsNoDuplicate(Before(db, r, items, f, k - 1), r, items[k - 1], f[k - 1], a, b);
      CommitAddsNoDuplicate(db, r, items, f, k - 1, a, b);
    }
  }

  // ---------------------------------------------------------------- what is planned

  /** Some other artist's live name has this identity. */
  ghost predicate HeldByAnother(db: Db, r: Rules, a: ArtistId, name: string) {
    && r.key(name) != ""
    && exists b :: b in db.artists && b != a && r.key(Live(db, b, NAME)) == r.key(name)
  }

  /** The recorded damage is the newest row of its (artist, field), and nothing has overtaken it. */
  ghost predicate IsLatestDamage(db: Db, id: Id)
    requires id in db.history
  {
    var c := db.history[id];
    && c.artist in db.artists && c.oldValue != "" && c.oldValue != c.newValue && c.source != "revert"
    && (forall j :: j in db.history && db.history[j].artist == c.artist && db.history[j].field == c.field ==>
          RanksAtMost(db.history[j].at, j, c.at, id))
    && (Live(db, c.artist, c.field) == c.newValue || Live(db, c.artist, c.field) == c.oldValue)
  }

  /** A row is planned exactly when it is found, its field is tracked, its old value acceptable, it is the latest
      damage, the reads succeed, and, for a name, nobody else holds the identity, unless it is the artist's own. */
  lemma PlannedExactly(db: Db, r: Rules, id: Id, g: PlanFaults)
    ensures PlanOne(db, r, id, g).status == Planned <==>
            && !g.fetch && !g.list && !g.read && id in db.history && IsLatestDamage(db, id)
            && var c := db.history[id];
               && r.trackable(c.field) && r.accepts(c.field, c.oldValue)
               && (c.field == "name" ==>
                     && !g.scan
                     && (r.key(Live(db, c.artist, NAME)) == r.key(c.oldValue)
                         || !HeldByAnother(db, r, c.artist, c.oldValue)))
  {
  }

  /** And a refusal names the first check that failed. */
  lemma RefusalNamesTheCheck(db: Db, r: Rules, id: Id, g: PlanFaults)
    ensures var reason := PlanOne(db, r, id, g).reason;
            if g.fetch || id !in db.history then reason == NotFound
            else
              var c := db.history[id];
              && reason != NotFound
              && (reason == NotRevertible <==> !r.trackable(c.field))
              && (reason == RevertOfRevert <==> r.trackable(c.field) && c.source == "revert")
              && (reason == InvalidOldValue <==>
                    r.trackable(c.field) && c.source != "revert" && !r.accepts(c.field, c.oldValue))
              && (reason == NameCollision <==>
                    && r.trackable(c.field) && r.accepts(c.field, c.oldValue) && !g.list && !g.read && !g.scan
                    && IsLatestDamage(db, id) && c.field == "name"
                    && r.key(Live(db, c.artist, NAME)) != r.key(c.oldValue)
                    && HeldByAnother(db, r, c.artist, c.oldValue))
              && (reason == NoReason <==> PlanOne(db, r, id, g).status == Planned)
  {
  }

  /** A planned item shows what the operator is asked to confirm: the live value and the one to be restored. */
  lemma PlannedItemShows(db: Db, r: Rules, id: Id, g: PlanFaults)
    requires PlanOne(db, r, id, g).status == Planned
    ensures var it, c := PlanOne(db, r, id, g), db.history[id];
            && it.id == id && it.artist == c.artist && it.field == c.field && it.restore == c.oldValue
            && it.current == Live(db, c.artist, c.field) && it.restoreId == ""
  {
  }

  /** The name form of PlannedItemLands: with no failing step a planned name ends unchanged if it was there already,
      refused exactly when, at its turn, another artist holds the identity and it is not the artist's own, and restored
      otherwise, and then the artist shows it. */
  lemma PlannedNameLands(db: Db, r: Rules, ids: seq<Id>, g: seq<PlanFaults>, f: seq<CommitFaults>, k: nat)
    requires Sound(r) && Distinct(ids) && |g| == |ids| == |f| && FreshIds(db, f) && k < |ids|
    requires var it := Plan(db, r, ids, g)[k]; it.status == Planned && it.field == NAME
    requires Smooth(f[k]) && !f[k].noopRead
    ensures var items := Plan(db, r, ids, g);
            var it, (d, done) := items[k], Commit(db, r, items, f);
            var turn := Before(db, r, items, f, k);
            var was, now := Live(db, it.artist, NAME), Live(d, it.artist, NAME);
            && (done[k].status == Unchanged <==> was == it.restore)
            && (done[k].status == Refused <==>
                  was != it.restore && r.key(was) != r.key(it.restore) && HeldByAnother(turn, r, it.artist, it.restore))
            && (done[k].status == Refused ==> done[k].reason == NameCollision)
            && (done[k].status == Restored <==> done[k].status != Unchanged && done[k].status != Refused)
            && now == if done[k].status == Restored then it.restore else was
  {
    var items := Plan(db, r, ids, g);
    PlanIsCommittable(db, r, ids, g, f);
    PlannedMeetsItsValue(db, r, items, f, k);
    assert Backed(db, r, items[k]);
    NameOutcome(Before(db, r, items, f, k), r, items[k], f[k]);
  }

  lemma NameOutcome(d: Db, r: Rules, it: Item, f: CommitFaults)
    requires Sound(r) && it.status == Planned && it.field == NAME && Smooth(f) && !f.noopRead
    requires it.id in d.history && RowOf(d.history[it.id], it) && it.artist in d.artists
    requires it.restore != "" && r.accepts(NAME, it.restore)
    requires Live(d, it.artist, NAME) == d.history[it.id].newValue || Live(d, it.artist, NAME) == it.restore
    ensures var done, was := CommitOne(d, d, d, r, it, f).1, Live(d, it.artist, NAME);
            && (done.status == Unchanged <==> was == it.restore)
            && (done.status == Refused <==>
                  was != it.restore && r.key(was) != r.key(it.restore) && HeldByAnother(d, r, it.artist, it.restore))
            && (done.status == Refused ==> done.reason == NameCollision) && done.status != Planned
  {
  }

  // ---------------------------------------------------------------- the same request twice

  /** The row with this id is there and its field already holds the old value, in normal form. */
  ghost predicate Holds(db: Db, r: Rules, id: Id) {
    id in db.history
    && var c := db.history[id]; AlreadyHolds(r, c.field, c.oldValue, Live(db, c.artist, c.field))
  }

  /** An item whose field already holds its value is restored exactly when it is planned and written unseen. */
  lemma RestoredAgainExactly(db: Db, r: Rules, items: seq<Item>, f: seq<CommitFaults>, k: nat)
    requires Committable(db, r, items, f) && k < |items| && (items[k].status == Planned ==> Holds(db, r, items[k].id))
    ensures Commit(db, r, items, f).1[k].status == Restored <==>
            items[k].status == Planned && WritesUnseen(items[k], f[k])
  {
    CommitIsDone(db, r, items, f, |items|, k);
    if items[k].status == Planned {
      PlannedMeetsItsValue(db, r, items, f, k);
      StepCommit(db, r, items, f, k, items[k].artist, items[k].field);
      assert Backed(db, r, items[k]);
    }
  }

  /** A restored item's field holds its value in the database the batch leaves behind. */
  lemma RestoredHolds(db: Db, r: Rules, items: seq<Item>, f: seq<CommitFaults>, k: nat)
    requires Committable(db, r, items, f) && k < |items| && Commit(db, r, items, f).1[k].status == Restored
    ensures Holds(Commit(db, r, items, f).0, r, items[k].id)
    ensures Live(Commit(db, r, items, f).0, items[k].artist, items[k].field) == r.norm(items[k].field, items[k].restore)
  {
    CommitIsDone(db, r, items, f, |items|, k);
    StepCommit(db, r, items, f, k, items[k].artist, items[k].field);
    PlannedMeetsItsValue(db, r, items, f, k);
    RowsStay(db, r, items, f, |items|);
    assert Backed(db, r, items[k]);
  }

  /** The planning of one plain field met no failing read. */
  predicate PlannedCleanly(g: PlanFaults) {
    !g.fetch && !g.list && !g.read
  }

  /** The stored form of the old value is one of the two recorded texts, so a later re-check still accepts it. */
  predicate Settles(r: Rules, c: Change) {
    r.norm(c.field, c.oldValue) == c.oldValue || r.norm(c.field, c.oldValue) == c.newValue
  }

  /** A row whose value has been restored is planned exactly when nothing failed, it ranks first and its stored form
      is still acceptable. */
  lemma PlannedAgainExactly(db: Db, db1: Db, r: Rules, id: Id, g: PlanFaults, g1: PlanFaults)
    requires Sound(r) && PlanOne(db, r, id, g).status == Planned && id in db.history && id in db1.history
    requires db.history[id] == db1.history[id] && db.history[id].field != NAME
    requires db1.artists.Keys == db.artists.Keys
    requires var c := db.history[id]; Live(db1, c.artist, c.field) == r.norm(c.field, c.oldValue)
    ensures PlanOne(db1, r, id, g1).status == Planned <==>
            PlannedCleanly(g1) && IsTop(db1, id) && Settles(r, db.history[id])
  {
  }

  /** A row (at, id) ranks no higher than another. */
  predicate RanksAtMost(at: int, id: Id, otherAt: int, other: Id) {
    at < otherAt || (at == otherAt && TextAtMost(id, other))
  }

  /** Where a row that was not there before the batch came from. */
  lemma {:induction false} NewRowOfBatch(db: Db, r: Rules, items: seq<Item>, f: seq<CommitFaults>, k: nat, id: Id)
    returns (i: nat)
    requires Committable(db, r, items, f) && k <= |items|
    requires id in Before(db, r, items, f, k).history && id !in db.history
    ensures i < k && items[i].status == Planned && id == f[i].newId && Records(f[i])
    ensures var row := Before(db, r, items, f, k).history[id];
            row.artist == items[i].artist && row.field == items[i].field && row.at == f[i].at
    decreases k
  {
    var d := Before(db, r, items, f, k - 1);
    RowsStay(db, r, items, f, k - 1);
    OneCommitKeepsRows(d, r, items[k - 1], f[k - 1]);
    if id in d.history {
      i := NewRowOfBatch(db, r, items, f, k - 1, id);
    } else {
      i := k - 1;
      assert Backed(db, r, items[i]);
      OneCommitRecords(d, r, items[i], f[i]);
    }
  }

  /** A row that is there stays. */
  lemma RowSurvivesCommit(d: Db, r: Rules, it: Item, f: CommitFaults, id: Id)
    requires id in d.history && id != f.newId && f.newId !in d.history
    ensures var d' := CommitOne(d, d, d, r, it, f).0; id in d'.history && d'.history[id] == d.history[id]
  {
    OneCommitKeepsRows(d, r, it, f);
  }

  lemma NewIdIsNew(db: Db, r: Rules, items: seq<Item>, f: seq<CommitFaults>, k: nat)
    requires k < |items| == |f| && FreshIds(db, f)
    ensures f[k].newId !in Before(db, r, items, f, k).history
  {
    RowsStay(db, r, items, f, k);
  }

  lemma {:induction false} RowStaysTo(db: Db, r: Rules, items: seq<Item>, f: seq<CommitFaults>, id: Id,
                                      from: nat, k: nat)
    requires from <= k <= |items| == |f| && FreshIds(db, f) && id in Before(db, r, items, f, from).history
    requires forall j :: from <= j < k ==> f[j].newId != id
    ensures id in Before(db, r, items, f, k).history
    ensures Before(db, r, items, f, k).history[id] == Before(db, r, items, f, from).history[id]
    decreases k
  {
    if from < k {
      RowStaysTo(db, r, items, f, id, from, k - 1);
      NewIdIsNew(db, r, items, f, k - 1);
      RowSurvivesCommit(Before(db, r, items, f, k - 1), r, items[k - 1], f[k - 1], id);
    }
  }

  /** The row a restored item recorded is there at the end. */
  lemma RecordedRowStays(db: Db, r: Rules, items: seq<Item>, f: seq<CommitFaults>, i: nat)
    requires Committable(db, r, items, f) && i < |items|
    requires Done(db, r, items, f, i).status == Restored && Records(f[i])
    ensures var d := Commit(db, r, items, f).0;
            && f[i].newId in d.history
            && var row := d.history[f[i].newId];
               row.artist == items[i].artist && row.field == items[i].field && row.at == f[i].at
  {
    assert Backed(db, r, items[i]);
    RowsStay(db, r, items, f, i);
    NewIdIsNew(db, r, items, f, i);
    OneCommitRecords(Before(db, r, items, f, i), r, items[i], f[i]);
    RowStaysTo(db, r, items, f, f[i].newId, i + 1, |items|);
  }

  /** Two planned items with the same target are the same item. */
  lemma OneTarget(db: Db, r: Rules, items: seq<Item>, i: nat, k: nat)
    requires GoodPlan(db, r, items) && i < |items| && k < |items| && items[i].status == Planned == items[k].status
    requires SameTarget(items[i], items[k])
    ensures i == k
  {
  }

  /** After a run that restored it, a row still ranks first exactly when the run recorded no revert row for it, or
      one that does not outrank it. */
  lemma TopAgainExactly(db: Db, r: Rules, items: seq<Item>, f: seq<CommitFaults>, k: nat)
    requires Committable(db, r, items, f) && k < |items| && Commit(db, r, items, f).1[k].status == Restored
    ensures items[k].id in db.history && items[k].id in Commit(db, r, items, f).0.history
    ensures IsTop(Commit(db, r, items, f).0, items[k].id) <==>
            !Records(f[k]) || RanksAtMost(f[k].at, f[k].newId, db.history[items[k].id].at, items[k].id)
  {
    var n, id := |items|, items[k].id;
    var db1 := Commit(db, r, items, f).0;
    RestoredWasPlanned(db, r, items, f, k);
    assert Backed(db, r, items[k]);
    RowsStay(db, r, items, f, n);
    CommitIsDone(db, r, items, f, n, k);
    if Records(f[k]) {
      RecordedRowStays(db, r, items, f, k);
    }
    if !Records(f[k]) || RanksAtMost(f[k].at, f[k].newId, db.history[id].at, id) {
      forall j | j in db1.history && SamePair(db1.history[j], db1.history[id])
        ensures RanksAtMost(db1.history[j].at, j, db1.history[id].at, id)
      {
        if j !in db.history {
          var i := NewRowOfBatch(db, r, items, f, n, j);
          OneTarget(db, r, items, i, k);
        }
      }
    }
  }

  /** Re-running a request on the database its first run left behind. An item the first run restored is reported
      restored once more exactly when it is a plain field whose row was not outranked by a recorded revert row and
      whose stored form is still acceptable, nothing in its planning or its re-checks fails, the read behind the no-op
      check does, and the write lands. */
  lemma RestoredTwiceExactly(db: Db, r: Rules, ids: seq<Id>, g1: seq<PlanFaults>, f1: seq<CommitFaults>,
                             g2: seq<PlanFaults>, f2: seq<CommitFaults>, k: nat)
    requires Sound(r) && Distinct(ids) && |ids| == |g1| == |f1| == |g2| == |f2| && k < |ids|
    requires FreshIds(db, f1) && FreshIds(Commit(db, r, Plan(db, r, ids, g1), f1).0, f2)
    requires Commit(db, r, Plan(db, r, ids, g1), f1).1[k].status == Restored
    ensures var items1 := Plan(db, r, ids, g1);
            var db1 := Commit(db, r, items1, f1).0;
            && ids[k] in db.history
            && (Commit(db1, r, Plan(db1, r, ids, g2), f2).1[k].status == Restored <==>
                && (!Records(f1[k]) || RanksAtMost(f1[k].at, f1[k].newId, db.history[ids[k]].at, ids[k]))
                && Settles(r, db.history[ids[k]]) && PlannedCleanly(g2[k]) && WritesUnseen(items1[k], f2[k]))
  {
    var items1 := Plan(db, r, ids, g1);
    var db1 := Commit(db, r, items1, f1).0;
    PlanIsCommittable(db, r, ids, g1, f1);
    RestoredHolds(db, r, items1, f1, k);
    RestoredWasPlanned(db, r, items1, f1, k);
    TopAgainExactly(db, r, items1, f1, k);
    RowsStay(db, r, items1, f1, |ids|);
    var items2 := Plan(db1, r, ids, g2);
    PlanIsCommittable(db1, r, ids, g2, f2);
    RestoredAgainExactly(db1, r, items2, f2, k);
    assert Backed(db, r, items1[k]);
    if items1[k].field != NAME {
      PlannedAgainExactly(db, db1, r, ids[k], g1[k], g2[k]);
    }
    assert items2[k].status == Planned ==> Backed(db1, r, items2[k]);
  }

  /** It happens: the first run's revert row is not recorded, and in the second the read behind the no-op check
      fails. Both runs report the item restored. */
  lemma RestoredTwice(r: Rules, id: Id, a: ArtistId, field: string, old_: string, new_: string, x: Id, y: Id)
    requires old_ != "" && old_ != new_ && field != NAME && r.trackable(field) && r.accepts(field, old_)
    requires x != id && y != id && Sound(r) && r.norm(field, old_) == old_ && r.norm(field, new_) != old_
    ensures var db := Db(map[a := map[field := new_]], map[id := Change(a, field, old_, new_, "scan", 0)]);
            var f1 := CommitFaults(false, false, false, false, true, x, 1);
            var f2 := CommitFaults(false, false, true, false, false, y, 2);
            var (db1, done1) := Commit(db, r, Plan(db, r, [id], [NO_PLAN_FAULTS]), [f1]);
            && done1[0].status == Restored
            && Commit(db1, r, Plan(db1, r, [id], [NO_PLAN_FAULTS]), [f2]).1[0].status == Restored
  {
    var row := Change(a, field, old_, new_, "scan", 0);
    var db := Db(map[a := map[field := new_]], map[id := row]);
    var f1 := CommitFaults(false, false, false, false, true, x, 1);
    var f2 := CommitFaults(false, false, true, false, false, y, 2);
    var ids, g := [id], [NO_PLAN_FAULTS];
    TextReflexive(id);
    assert IsTop(db, id);
    assert PlanOne(db, r, id, NO_PLAN_FAULTS).status == Planned;
    PlannedItemLands(db, r, ids, g, [f1], 0);
    RowsStay(db, r, Plan(db, r, ids, g), [f1], 1);
    var db1 := Commit(db, r, Plan(db, r, ids, g), [f1]).0;
    OnlyRecordedRows(db, r, Plan(db, r, ids, g), [f1], 1);
    RestoredTwiceExactly(db, r, ids, g, [f1], g, [f2], 0);
  }

  /** A batch that records nothing leaves the history as it was. */
  lemma {:induction false} OnlyRecordedRows(db: Db, r: Rules, items: seq<Item>, f: seq<CommitFaults>, k: nat)
    requires k <= |items| == |f| && forall i :: 0 <= i < |f| ==> !Records(f[i])
    ensures Before(db, r, items, f, k).history == db.history
    decreases k
  {
    if k > 0 {
      OnlyRecordedRows(db, r, items, f, k - 1);
    }
  }

  lemma RestoredWasPlanned(db: Db, r: Rules, items: seq<Item>, f: seq<CommitFaults>, k: nat)
    requires Committable(db, r, items, f) && k < |items| && Commit(db, r, items, f).1[k].status == Restored
    ensures items[k].status == Planned
  {
    CommitIsDone(db, r, items, f, |items|, k);
    StepCommit(db, r, items, f, k, items[k].artist, items[k].field);
  }

  /** Nothing of this batch failed, and none of its rows is a name. */
  ghost predicate CleanNamelessRun(db: Db, r: Rules, ids: seq<Id>, g: seq<PlanFaults>, f: seq<CommitFaults>) {
    && Sound(r) && Distinct(ids) && |ids| == |g| == |f| && FreshIds(db, f)
    && (forall i :: 0 <= i < |ids| ==> g[i] == NO_PLAN_FAULTS && Smooth(f[i]))
    && (forall i :: 0 <= i < |ids| && ids[i] in db.history ==> db.history[ids[i]].field != NAME)
  }

  /** A row the first, clean run refused but ranks first afterwards was refused for its live value, and no item of
      that run was aimed at its field. */
  lemma RefusedTopRowUntouched(db: Db, r: Rules, ids: seq<Id>, g: seq<PlanFaults>, f: seq<CommitFaults>, k: nat)
    requires CleanNamelessRun(db, r, ids, g, f) && k < |ids| && ids[k] in db.history && IsCurrentBlastRow(db, ids[k])
    requires PlanOne(db, r, ids[k], g[k]).status != Planned
    ensures var c := db.history[ids[k]];
            Live(Commit(db, r, Plan(db, r, ids, g), f).0, c.artist, c.field) == Live(db, c.artist, c.field)
  {
    var items := Plan(db, r, ids, g);
    var c := db.history[ids[k]];
    PlanIsCommittable(db, r, ids, g, f);
    forall j | 0 <= j < |ids| ensures !Hits(db, r, items, f, j, c.artist, c.field) {
      StepCommit(db, r, items, f, j, c.artist, c.field);
      if Hits(db, r, items, f, j, c.artist, c.field) {
        assert Backed(db, r, items[j]);
        TopIsUnique(db, ids[j], ids[k]);
      }
    }
    FieldKept(db, r, items, f, 0, |ids|, c.artist, c.field);
  }

  /** After a clean run, every row a second plan accepts already holds its value. */
  lemma SecondPlanHoldsValue(db: Db, r: Rules, ids: seq<Id>, g1: seq<PlanFaults>, f1: seq<CommitFaults>,
                             g2: PlanFaults, k: nat)
    requires CleanNamelessRun(db, r, ids, g1, f1) && k < |ids|
    requires PlanOne(Commit(db, r, Plan(db, r, ids, g1), f1).0, r, ids[k], g2).status == Planned
    ensures Holds(Commit(db, r, Plan(db, r, ids, g1), f1).0, r, ids[k])
  {
    var items := Plan(db, r, ids, g1);
    var db1 := Commit(db, r, items, f1).0;
    PlanIsCommittable(db, r, ids, g1, f1);
    RowsStay(db, r, items, f1, |ids|);
    assert ids[k] in db.history;
    if items[k].status == Planned {
      PlannedItemLands(db, r, ids, g1, f1, k);
      assert Backed(db, r, items[k]);
    } else {
      StillTop(db, db1, ids[k]);
      RefusedTopRowUntouched(db, r, ids, g1, f1, k);
    }
  }

  /** A row on top of a longer history was on top of the shorter one. */
  lemma StillTop(db: Db, db1: Db, id: Id)
    requires id in db.history && (forall j :: j in db.history ==> j in db1.history && db1.history[j] == db.history[j])
    requires IsTop(db1, id)
    ensures IsTop(db, id)
  {
  }

  /** Two databases whose fields show the same values in normal form, and whose histories agree. */
  ghost predicate SameInNormalForm(db: Db, d: Db, r: Rules) {
    && d.history == db.history && d.artists.Keys == db.artists.Keys
    && forall a, field :: r.norm(field, Live(d, a, field)) == r.norm(field, Live(db, a, field))
  }

  /** The item's field already shows exactly what a write would make it show. */
  predicate ShowsStored(db: Db, r: Rules, it: Item) {
    Live(db, it.artist, it.field) == r.norm(it.field, it.restore)
  }

  /** For requests without "name" rows, running the same request again after a run in which nothing failed changes no
      value in normal form and records nothing, whatever fails the second time. An item is written once more exactly
      when it is planned and written unseen, and the database is the very same exactly when every such item already
      showed its stored form. */
  lemma SecondRunLeavesDatabase(db: Db, r: Rules, ids: seq<Id>, g1: seq<PlanFaults>, f1: seq<CommitFaults>,
                                g2: seq<PlanFaults>, f2: seq<CommitFaults>)
    requires CleanNamelessRun(db, r, ids, g1, f1) && |ids| == |g2| == |f2|
    requires FreshIds(Commit(db, r, Plan(db, r, ids, g1), f1).0, f2)
    ensures var db1 := Commit(db, r, Plan(db, r, ids, g1), f1).0;
            var items := Plan(db1, r, ids, g2);
            && SameInNormalForm(db1, Commit(db1, r, items, f2).0, r)
            && (Commit(db1, r, items, f2).0 == db1 <==> NoneRewritten(db1, r, items, f2))
            && forall k :: 0 <= k < |ids| ==>
                 (Commit(db1, r, items, f2).1[k].status == Restored <==>
                  items[k].status == Planned && WritesUnseen(items[k], f2[k]))
  {
    var db1 := Commit(db, r, Plan(db, r, ids, g1), f1).0;
    var items := Plan(db1, r, ids, g2);
    forall k | 0 <= k < |ids| && items[k].status == Planned ensures Holds(db1, r, items[k].id) {
      SecondPlanHoldsValue(db, r, ids, g1, f1, g2[k], k);
    }
    PlanIsCommittable(db1, r, ids, g2, f2);
    HeldBatchKeepsNormalForm(db1, r, items, f2);
    SameDatabaseExactly(db1, r, items, f2);
    forall k | 0 <= k < |ids|
      ensures Commit(db1, r, items, f2).1[k].status == Restored <==>
              items[k].status == Planned && WritesUnseen(items[k], f2[k])
    {
      RestoredAgainExactly(db1, r, items, f2, k);
    }
  }

  /** A batch whose planned items all hold their values already. */
  ghost predicate HeldBatch(db: Db, r: Rules, items: seq<Item>, f: seq<CommitFaults>) {
    Committable(db, r, items, f)
    && forall j :: 0 <= j < |items| && items[j].status == Planned ==> Holds(db, r, items[j].id)
  }

  /** Every item written unseen showed its stored form before. */
  ghost predicate NoneRewritten(db: Db, r: Rules, items: seq<Item>, f: seq<CommitFaults>)
    requires |items| == |f|
  {
    forall j :: 0 <= j < |items| && items[j].status == Planned && WritesUnseen(items[j], f[j]) ==>
      ShowsStored(db, r, items[j])
  }

  /** At its turn such an item is left alone, or its field is written unseen. */
  lemma HeldStep(db: Db, r: Rules, items: seq<Item>, f: seq<CommitFaults>, k: nat)
    requires HeldBatch(db, r, items, f) && k < |items|
    ensures var d, d' := Before(db, r, items, f, k), Before(db, r, items, f, k + 1);
            d' == if items[k].status == Planned && WritesUnseen(items[k], f[k]) && items[k].artist in d.artists
                  then WriteField(d, items[k].artist, items[k].field, r.norm(items[k].field, items[k].restore))
                  else d
  {
    assert Backed(db, r, items[k]);
    if items[k].status == Planned {
      PlannedMeetsItsRow(db, r, items, f, k);
      assert Holds(db, r, items[k].id);
    }
  }

  lemma {:induction false} HeldBatchRecordsNothing(db: Db, r: Rules, items: seq<Item>, f: seq<CommitFaults>, k: nat)
    requires HeldBatch(db, r, items, f) && k <= |items|
    ensures Before(db, r, items, f, k).history == db.history
    decreases k
  {
    if k > 0 {
      HeldBatchRecordsNothing(db, r, items, f, k - 1);
      HeldStep(db, r, items, f, k - 1);
    }
  }

  lemma HeldBatchKeepsNormalForm(db: Db, r: Rules, items: seq<Item>, f: seq<CommitFaults>)
    requires HeldBatch(db, r, items, f)
    ensures SameInNormalForm(db, Commit(db, r, items, f).0, r)
  {
    HeldBatchRecordsNothing(db, r, items, f, |items|);
    RowsStay(db, r, items, f, |items|);
    forall a, field
      ensures r.norm(field, Live(Commit(db, r, items, f).0, a, field)) == r.norm(field, Live(db, a, field))
    {
      if j :| 0 <= j < |items| && Hits(db, r, items, f, j, a, field) {
        HitKeepsNormalForm(db, r, items, f, j);
      } else {
        FieldKept(db, r, items, f, 0, |items|, a, field);
      }
    }
  }

  lemma HitKeepsNormalForm(db: Db, r: Rules, items: seq<Item>, f: seq<CommitFaults>, j: nat)
    requires HeldBatch(db, r, items, f) && j < |items| && Done(db, r, items, f, j).status == Restored
    ensures var it := items[j];
            r.norm(it.field, Live(Commit(db, r, items, f).0, it.artist, it.field)) ==
            r.norm(it.field, Live(db, it.artist, it.field))
  {
    StepCommit(db, r, items, f, j, items[j].artist, items[j].field);
    PlannedMeetsItsValue(db, r, items, f, j);
    assert Backed(db, r, items[j]) && Holds(db, r, items[j].id);
  }

  lemma {:induction false} NoneRewrittenKeepsAll(db: Db, r: Rules, items: seq<Item>, f: seq<CommitFaults>, k: nat)
    requires HeldBatch(db, r, items, f) && NoneRewritten(db, r, items, f) && k <= |items|
    ensures Before(db, r, items, f, k) == db
    decreases k
  {
    if k > 0 {
      NoneRewrittenKeepsAll(db, r, items, f, k - 1);
      HeldStep(db, r, items, f, k - 1);
    }
  }

  lemma SameDatabaseExactly(db: Db, r: Rules, items: seq<Item>, f: seq<CommitFaults>)
    requires HeldBatch(db, r, items, f)
    ensures Commit(db, r, items, f).0 == db <==> NoneRewritten(db, r, items, f)
  {
    if NoneRewritten(db, r, items, f) {
      NoneRewrittenKeepsAll(db, r, items, f, |items|);
    } else {
      var j :| 0 <= j < |items| && items[j].status == Planned && WritesUnseen(items[j], f[j])
               && !ShowsStored(db, r, items[j]);
      RestoredAgainExactly(db, r, items, f, j);
      PlannedMeetsItsValue(db, r, items, f, j);
    }
  }

  // ---------------------------------------------------------------- other writers

  /** Other writers may change the database before the re-fetch (d1), before the live re-check (d2) and before the
      write (d3). This is when a commit gets as far as setting its field. */
  ghost predicate Lands(d1: Db, d2: Db, d3: Db, r: Rules, it: Item, f: CommitFaults) {
    && it.status == Planned && it.id in d1.history && !f.refetch && !f.reread && !f.write
    && var c := d1.history[it.id];
       var live := Live(d2, c.artist, c.field);
       && c.artist in d2.artists && (live == c.newValue || live == c.oldValue)
       && r.accepts(c.field, c.oldValue) && c.artist in d3.artists
       && (c.field == NAME ==> !f.noopRead && !WouldCollide(d3, r, c.artist, c.oldValue))
  }

  /** The no-op check sees that the field holds the old value in normal form, and skips the write. */
  predicate Skips(r: Rules, c: Change, live: string, f: CommitFaults) {
    !f.noopRead && AlreadyHolds(r, c.field, c.oldValue, live)
  }

  /** For any three databases: a commit replaces a value other than the recorded new one exactly when it lands
      unskipped while the field shows neither that value nor the stored form of the old one. */
  lemma OverwritesAnotherValueExactly(d1: Db, d2: Db, d3: Db, r: Rules, it: Item, f: CommitFaults)
    requires Sound(r) && it.id in d1.history
    ensures var c := d1.history[it.id];
            var was := Live(d3, c.artist, c.field);
            var now := Live(CommitOne(d1, d2, d3, r, it, f).0, c.artist, c.field);
            was != now && was != c.newValue <==>
            && Lands(d1, d2, d3, r, it, f) && !Skips(r, c, was, f)
            && was != c.newValue && was != r.norm(c.field, c.oldValue)
  {
  }

  /** So if the field is not written between the re-check and the write, a commit replaces only the recorded new
      value, or, unseen, the recorded old one, and only by the stored form of the old one; and it never touches
      another field. */
  lemma WriteReplacesOnlyRecordedValue(d1: Db, d2: Db, d3: Db, r: Rules, it: Item, f: CommitFaults,
                                       a: ArtistId, field: string)
    requires Sound(r) && it.id in d1.history
    requires Live(d3, a, field) != Live(CommitOne(d1, d2, d3, r, it, f).0, a, field)
    ensures var c := d1.history[it.id];
            && a == c.artist && field == c.field
            && Live(CommitOne(d1, d2, d3, r, it, f).0, a, field) == r.norm(field, c.oldValue)
            && (Live(d2, a, field) == Live(d3, a, field) ==>
                  Live(d3, a, field) == c.newValue || (f.noopRead && Live(d3, a, field) == c.oldValue))
  {
    CommitEffect(d1, d2, d3, r, it, f);
  }

  /** The window is real: a write landing between the re-check and the restore is overwritten. */
  lemma LateWriteIsOverwritten(r: Rules, id: Id, a: ArtistId, field: string, old_: string, new_: string, late: string,
                              f: CommitFaults)
    requires Sound(r) && old_ != "" && old_ != new_ && r.norm(field, late) != r.norm(field, old_) && late != new_
    requires field != NAME && r.trackable(field) && r.accepts(field, old_) && Smooth(f)
    ensures var row := Change(a, field, old_, new_, "scan", 0);
            var d2 := Db(map[a := map[field := new_]], map[id := row]);
            var d3 := Db(map[a := map[field := late]], map[id := row]);
            var it := PlanOne(d2, r, id, NO_PLAN_FAULTS);
            it.status == Planned && Live(CommitOne(d2, d2, d3, r, it, f).0, a, field) == r.norm(field, old_)
  {
    TopOfOne(a, field, old_, new_, id);
  }

  lemma TopOfOne(a: ArtistId, field: string, old_: string, new_: string, id: Id)
    ensures IsTop(Db(map[a := map[field := new_]], map[id := Change(a, field, old_, new_, "scan", 0)]), id)
  {
    TextReflexive(id);
  }

  // ---------------------------------------------------------------- slice fields

  lemma TwoTagsJoined(x: string, y: string)
    requires IsTag(x) && IsTag(y)
    ensures JoinTags(SplitTags(x + "," + y)) == x + ", " + y
    ensures |x + ", " + y| == |x + "," + y| + 1
  {
    SplitFirst(x, y);
    SplitFirst(y, "");
    JoinCons(x, [y]);
    assert SplitTags(x + "," + y) == [x] + [y] && JoinTags([y]) == y;
  }

  /** Two tags run together by a bare comma are stored, and shown, as two tags. */
  lemma TwoTags(field: string, x: string, y: string)
    requires IsSliceField(field) && IsTag(x) && IsTag(y)
    ensures Normal(field, x + "," + y) == x + ", " + y != x + "," + y
    ensures Normal(field, x + ", " + y) == x + ", " + y
  {
    TwoTagsJoined(x, y);
    NormalTwice(field, x + "," + y);
  }

  /** A blanked field comes back in the stored form of its old value, which need not be the recorded text. */
  lemma BlankedComesBackStored(r: Rules, id: Id, a: ArtistId, field: string, old_: string, f: CommitFaults)
    requires Sound(r) && field != NAME && r.trackable(field) && r.accepts(field, old_)
    requires r.norm(field, old_) != "" && old_ != "" && Smooth(f) && f.newId != id
    ensures var db := Db(map[a := map[field := ""]], map[id := Change(a, field, old_, "", "scan", 0)]);
            var (d, done) := Commit(db, r, Plan(db, r, [id], [NO_PLAN_FAULTS]), [f]);
            done[0].status == Restored && Live(d, a, field) == r.norm(field, old_)
  {
    var db := Db(map[a := map[field := ""]], map[id := Change(a, field, old_, "", "scan", 0)]);
    TopOfOne(a, field, old_, "", id);
    assert PlanOne(db, r, id, NO_PLAN_FAULTS).status == Planned;
    PlannedItemLands(db, r, [id], [NO_PLAN_FAULTS], [f], 0);
  }

  /** A value replaced by another text of the same normal form cannot be restored: the item is unchanged, nothing is
      written, and the row is listed as damage still. */
  lemma SameNormalFormCannotBeUndone(r: Rules, id: Id, a: ArtistId, field: string, old_: string, new_: string,
                                     f: CommitFaults)
    requires Sound(r) && field != NAME && r.trackable(field) && r.accepts(field, old_)
    requires old_ != "" && old_ != new_ && r.norm(field, new_) == r.norm(field, old_) && Smooth(f) && !f.noopRead
    ensures var row := Change(a, field, old_, new_, "scan", 0);
            var db := Db(map[a := map[field := new_]], map[id := row]);
            var (d, done) := Commit(db, r, Plan(db, r, [id], [NO_PLAN_FAULTS]), [f]);
            done[0].status == Unchanged && d == db && IsCurrentBlastRow(d, id)
  {
    var db := Db(map[a := map[field := new_]], map[id := Change(a, field, old_, new_, "scan", 0)]);
    TopOfOne(a, field, old_, new_, id);
    var it := PlanOne(db, r, id, NO_PLAN_FAULTS);
    assert it.status == Planned && CommitOne(db, db, db, r, it, f) == (db, it.(status := Unchanged));
    assert Plan(db, r, [id], [NO_PLAN_FAULTS]) == [it];
    OneItemCommit(db, r, it, f);
  }

  /** Both happen to a genre with a comma in it: blanked, it comes back as two genres; replaced by the two genres, it
      does not come back at all. */
  lemma CommaTagIsNotRestored(r: Rules, id: Id, a: ArtistId, field: string, x: string, y: string, f: CommitFaults)
    requires Sound(r) && forall fd, v :: r.norm(fd, v) == Normal(fd, v)
    requires IsSliceField(field) && IsTag(x) && IsTag(y) && r.trackable(field) && r.accepts(field, x + "," + y)
    requires Smooth(f) && !f.noopRead && f.newId != id
    ensures var row := Change(a, field, x + "," + y, "", "scan", 0);
            var db := Db(map[a := map[field := ""]], map[id := row]);
            Live(Commit(db, r, Plan(db, r, [id], [NO_PLAN_FAULTS]), [f]).0, a, field) == x + ", " + y
    ensures var row := Change(a, field, x + "," + y, x + ", " + y, "scan", 0);
            var db := Db(map[a := map[field := x + ", " + y]], map[id := row]);
            var (d, done) := Commit(db, r, Plan(db, r, [id], [NO_PLAN_FAULTS]), [f]);
            done[0].status == Unchanged && d == db && IsCurrentBlastRow(d, id)
  {
    TwoTags(field, x, y);
    assert |x + "," + y| > 0 && |x + ", " + y| > 0;
    SliceIsNoName(field);
    BlankedComesBackStored(r, id, a, field, x + "," + y, f);
    SameNormalFormCannotBeUndone(r, id, a, field, x + "," + y, x + ", " + y, f);
  }

  lemma SliceIsNoName(field: string)
    requires IsSliceField(field)
    ensures field != NAME
  {
  }

  lemma OneItemCommit(db: Db, r: Rules, it: Item, f: CommitFaults)
    ensures Commit(db, r, [it], [f]).0 == CommitOne(db, db, db, r, it, f).0
    ensures Commit(db, r, [it], [f]).1 == [CommitOne(db, db, db, r, it, f).1]
  {
    assert CommitUpTo(db, r, [it], [f], 0) == (db, []);
  }

  /** An artist deleted between the re-check and the write: its item is reported restored and nothing is written. */
  lemma RestoredOnADeletedArtist(r: Rules, id: Id, a: ArtistId, field: string, old_: string, new_: string,
                                 f: CommitFaults)
    requires old_ != "" && old_ != new_ && field != NAME && r.trackable(field) && r.accepts(field, old_)
    requires !f.refetch && !f.reread && !f.write
    ensures var row := Change(a, field, old_, new_, "scan", 0);
            var d2 := Db(map[a := map[field := new_]], map[id := row]);
            var d3 := Db(map[], map[]);
            var it := PlanOne(d2, r, id, NO_PLAN_FAULTS);
            it.status == Planned
            && CommitOne(d2, d2, d3, r, it, f).0 == d3 && CommitOne(d2, d2, d3, r, it, f).1.status == Restored
  {
    var row := Change(a, field, old_, new_, "scan", 0);
    var d2 := Db(map[a := map[field := new_]], map[id := row]);
    TextReflexive(id);
    assert IsTop(d2, id);
  }
}
