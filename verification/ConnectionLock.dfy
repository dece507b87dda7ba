/** The handlers that read and write one connection row under its lock (internal/api/handlers_connection.go,
    internal/api/pathinfer.go, and the toggle of internal/api/handlers_conflict.go).

    The class performs the handlers one at a time; the state machine lets any number of them interleave at every
    lock, read, write and unlock. Whatever the interleaving, the row is the one some serial order gives. */
module ConnectionLock {
  import opened Strings
  import opened Wrappers
  import ManagedToggle

  datatype Mapping = Mapping(host: string, platform: string)

  const EMBY := "emby"
  const JELLYFIN := "jellyfin"
  const LIDARR := "lidarr"

  /** What only an Emby or a Jellyfin connection has. */
  datatype Media = Media(imageWrite: bool, metadataPush: bool, triggerRefresh: bool, userId: string, serverId: string)

  const NO_MEDIA := Media(false, false, false, "", "")

  datatype Basics = Basics(name: string, url: string, apiKey: string, enabled: bool)

  /** The columns of one connection that these handlers write. */
  datatype Row = Row(
    basics: Basics, kind: string, media: Media, mappings: seq<Mapping>, managed: bool, column: ManagedToggle.Column)

  /** ValidateBaseURL: the text that is stored for a URL, or None when it is refused. */
  type Cleaner = string -> Option<string>

  /** Cleaning a cleaned URL changes nothing. */
  ghost predicate IsStable(clean: Cleaner) {
    forall u :: clean(u).Some? ==> clean(clean(u).value) == clean(u)
  }

  predicate IsValidKind(kind: string) {
    kind == EMBY || kind == JELLYFIN || kind == LIDARR
  }

  predicate SupportsFeatureToggles(kind: string) {
    kind == EMBY || kind == JELLYFIN
  }

  /** The row as GetByID presents it: only Emby and Jellyfin carry toggles and platform ids. */
  function Scan(row: Row): Row {
    if SupportsFeatureToggles(row.kind) then row else row.(media := NO_MEDIA)
  }

  /** The three toggles of a request body, each present or not. */
  datatype Toggles = Toggles(imageWrite: Option<bool>, metadataPush: Option<bool>, triggerRefresh: Option<bool>)

  /** An update body; an empty string or None leaves the field alone. */
  datatype Body = Body(name: string, kind: string, url: string, apiKey: string, enabled: Option<bool>, toggles: Toggles)

  function Or<T>(o: Option<T>, otherwise: T): T {
    if o.Some? then o.value else otherwise
  }

  predicate Refused(kind: string, t: Toggles) {
    !SupportsFeatureToggles(kind) && t != Toggles(None, None, None)
  }

  predicate ChangesKind(c: Row, b: Body) {
    b.kind != "" && b.kind != c.kind
  }

  /** The in-memory row an update writes back, or None when the body is rejected. */
  function Edited(c: Row, b: Body): Option<Row> {
    if ChangesKind(c, b) && !IsValidKind(b.kind) then None else
    var base := if ChangesKind(c, b) then c.(kind := b.kind, media := NO_MEDIA) else c;
    if Refused(base.kind, b.toggles) then None
    else Some(base.(basics := WithBasics(c.basics, b), media := WithToggles(base.media, b.toggles)))
  }

  function WithBasics(c: Basics, b: Body): Basics {
    Basics(if b.name != "" then b.name else c.name, if b.url != "" then b.url else c.url,
           if b.apiKey != "" then b.apiKey else c.apiKey, Or(b.enabled, c.enabled))
  }

  function WithToggles(m: Media, t: Toggles): Media {
    m.(imageWrite := Or(t.imageWrite, m.imageWrite),
       metadataPush := Or(t.metadataPush, m.metadataPush),
       triggerRefresh := Or(t.triggerRefresh, m.triggerRefresh))
  }

  /** Validate: the row Service.Update goes on to store, its URL cleaned, or None. */
  function Validated(clean: Cleaner, c: Row): Option<Row> {
    if c.basics.name == "" || !IsValidKind(c.kind) || clean(c.basics.url).None? || c.basics.apiKey == "" then None
    else Some(c.(basics := c.basics.(url := clean(c.basics.url).value)))
  }

  // ---------------------------------------------------------------- what a request writes

  /** One UPDATE statement. */
  datatype Write =
    | FullRow(row: Row)                       // Service.Update: every column but the snapshot, URL cleaned
    | Features(image: bool, push: bool, refresh: bool)
    | Managed(on: bool)
    | Snapshot(column: ManagedToggle.Column)

  function Stored(w: Write, row: Row): Row {
    match w
    case FullRow(r) => r.(column := row.column)
    case Features(a, b, c) => row.(media := row.media.(imageWrite := a, metadataPush := b, triggerRefresh := c))
    case Managed(on) => row.(managed := on)
    case Snapshot(column) => row.(column := column)
  }

  /** A handler with its arguments. What inference computed, and what the peer answered a toggle, was computed
      without the lock or outside the row, so it is an argument and may be anything. */
  datatype Request =
    | Update(body: Body)
    | SetFeatures(toggles: Toggles)
    | SetMappings(mappings: seq<Mapping>)
    | Infer(mappings: seq<Mapping>)
    | Toggle(enabled: bool, peer: ManagedToggle.Peer, faults: ManagedToggle.Faults)

  /** Service.Update issues its statement only for a row that validates. */
  function FullWrite(clean: Cleaner, c: Row): seq<Write> {
    match Validated(clean, c)
    case None => []
    case Some(r) => [FullRow(r)]
  }

  /** The statements a handler issues when its locked read returned c. */
  function Writes(clean: Cleaner, req: Request, c: Row): seq<Write> {
    match req
    case Update(b) => (match Edited(c, b) case None => [] case Some(r) => FullWrite(clean, r))
    case SetFeatures(t) =>
      if Refused(c.kind, t) then []
      else var m := WithToggles(c.media, t); [Features(m.imageWrite, m.metadataPush, m.triggerRefresh)]
    case SetMappings(m) => FullWrite(clean, c.(mappings := m))
    case Infer(m) => if c.mappings == [] && m != [] then FullWrite(clean, c.(mappings := m)) else []
    case Toggle(enabled, peer, f) =>
      var s := ManagedToggle.State(peer, c.column, c.managed);
      ToggleWrites(s, ManagedToggle.RequestTrace(s, enabled, f))
  }

  /** The column statements behind a toggle's states; its peer calls write nothing here. */
  function ToggleWrites(s: ManagedToggle.State, trace: seq<ManagedToggle.State>): seq<Write>
    decreases |trace|
  {
    if trace == [] then []
    else
      var next := trace[0];
      (if next.managed != s.managed then [Managed(next.managed)]
       else if next.column != s.column then [Snapshot(next.column)]
       else []) + ToggleWrites(next, trace[1..])
  }

  function StoredAll(ws: seq<Write>, row: Row): Row
    decreases |ws|
  {
    if ws == [] then row else StoredAll(ws[1..], Stored(ws[0], row))
  }

  /** One handler run alone, whose first `done` statements took effect. */
  function Perform(clean: Cleaner, req: Request, done: nat, row: Row): Row {
    var ws := Writes(clean, req, Scan(row));
    StoredAll(ws[..if done <= |ws| then done else |ws|], row)
  }

  // ---------------------------------------------------------------- the handlers, one at a time

  /** Whether a handler's locked read and its write succeed. */
  datatype Fate = Fate(readOk: bool, writeOk: bool)

  /** The row after one handler run alone: on any failure nothing is written. */
  function Alone(clean: Cleaner, req: Request, fate: Fate, row: Option<Row>): Option<Row> {
    if row.None? then None else Some(Perform(clean, req, if fate.readOk && fate.writeOk then 1 else 0, row.value))
  }

  lemma AloneMeans(clean: Cleaner, req: Request, fate: Fate, row: Option<Row>)
    requires !req.Toggle?
    ensures Alone(clean, req, fate, row) ==
            if row.None? || !fate.readOk || !fate.writeOk || Writes(clean, req, Scan(row.value)) == [] then row
            else Some(Stored(Writes(clean, req, Scan(row.value))[0], row.value))
  {
    if row.Some? {
      PerformShort(clean, req, if fate.readOk && fate.writeOk then 1 else 0, row.value);
    }
  }

  /** One connection's row and its mutex. */
  class Connection {
    const clean: Cleaner
    var row: Option<Row>
    var locked: bool

    constructor (clean: Cleaner, row: Row)
      ensures this.clean == clean && this.row == Some(row) && !locked
    {
      this.clean, this.row, locked := clean, Some(row), false;
    }

    /** The mutex is not reentrant: taking it twice would never return. */
    method Lock()
      requires !locked
      modifies this`locked
      ensures locked
    {
      locked := true;
    }

    method Unlock()
      requires locked
      modifies this`locked
      ensures !locked
    {
      locked := false;
    }

    method GetById(ok: bool) returns (c: Option<Row>)
      ensures c == if ok && row.Some? then Some(Scan(row.value)) else None
    {
      c := None;
      if ok && row.Some? {
        c := Some(Scan(row.value));
      }
    }

    method Execute(w: Write, ok: bool) returns (done: bool)
      modifies this`row
      ensures done <==> ok && old(row).Some?
      ensures row == if done then Some(Stored(w, old(row).value)) else old(row)
    {
      done := ok && row.Some?;
      if done {
        row := Some(Stored(w, row.value));
      }
    }

    /** Service.Update: validates, which cleans the URL, and stores the row. */
    method Store(c: Row, ok: bool) returns (done: bool)
      modifies this`row
      ensures done <==> ok && old(row).Some? && Validated(clean, c).Some?
      ensures row == if done then Some(Stored(FullWrite(clean, c)[0], old(row).value)) else old(row)
    {
      if c.basics.name == "" || !IsValidKind(c.kind) {
        return false;
      }
      var url := clean(c.basics.url);
      if url.None? || c.basics.apiKey == "" {
        return false;
      }
      done := Execute(FullRow(c.(basics := c.basics.(url := url.value))), ok);
    }

    method EditInMemory(current: Row, b: Body) returns (edited: Option<Row>)
      ensures edited == Edited(current, b)
    {
      var c := current;
      if b.name != "" {
        c := c.(basics := c.basics.(name := b.name));
      }
      if b.kind != "" && b.kind != c.kind {
        if !IsValidKind(b.kind) {
          return None;
        }
        c := c.(kind := b.kind, media := NO_MEDIA);
      }
      ghost var base := c.(basics := current.basics);
      assert base == if ChangesKind(current, b) then current.(kind := b.kind, media := NO_MEDIA) else current;
      if b.url != "" {
        c := c.(basics := c.basics.(url := b.url));
      }
      if b.apiKey != "" {
        c := c.(basics := c.basics.(apiKey := b.apiKey));
      }
      if b.enabled.Some? {
        c := c.(basics := c.basics.(enabled := b.enabled.value));
      }
      assert c == base.(basics := WithBasics(current.basics, b));
      if Refused(c.kind, b.toggles) {
        return None;
      }
      var media := Overridden(c.media, b.toggles);
      return Some(c.(media := media));
    }

    /** The partial toggle update of both handlers: read, override what the request carries, write back. */
    method Overridden(current: Media, t: Toggles) returns (media: Media)
      ensures media == WithToggles(current, t)
    {
      media := current;
      if t.imageWrite.Some? {
        media := media.(imageWrite := t.imageWrite.value);
      }
      if t.metadataPush.Some? {
        media := media.(metadataPush := t.metadataPush.value);
      }
      if t.triggerRefresh.Some? {
        media := media.(triggerRefresh := t.triggerRefresh.value);
      }
    }

    /** The lock is dropped on every path, and before inference takes it again. */
    method HandleUpdateConnection(b: Body, fate: Fate, inferred: seq<Mapping>, inferFate: Fate) returns (updated: bool)
      requires !locked
      modifies this
      ensures !locked
      ensures updated <==> fate.readOk && fate.writeOk && old(row).Some?
                           && Writes(clean, Update(b), Scan(old(row).value)) != []
      ensures var first := Alone(clean, Update(b), fate, old(row));
              row == if updated && first.Some? && first.value.basics.enabled
                     then Alone(clean, Infer(inferred), inferFate, first) else first
    {
      AloneMeans(clean, Update(b), fate, row);
      Lock();
      var existing := GetById(fate.readOk);
      if existing.None? {
        Unlock();
        return false;
      }
      var edited := EditInMemory(existing.value, b);
      if edited.None? {
        Unlock();
        return false;
      }
      var c := edited.value;
      updated := Store(c, fate.writeOk);
      Unlock();
      AloneMeans(clean, Infer(inferred), inferFate, row);
      if updated {
        ApplyInferredPathMappingsIfEmpty(c, inferred, inferFate);
      }
    }

    method HandleUpdateConnectionFeatures(t: Toggles, fate: Fate) returns (updated: bool)
      requires !locked
      modifies this
      ensures !locked && row == Alone(clean, SetFeatures(t), fate, old(row))
      ensures updated <==> fate.readOk && fate.writeOk && old(row).Some? && !Refused(old(row).value.kind, t)
    {
      AloneMeans(clean, SetFeatures(t), fate, row);
      Lock();
      var existing := GetById(fate.readOk);
      updated := false;
      if existing.Some? && !Refused(existing.value.kind, t) {
        var m := Overridden(existing.value.media, t);
        updated := Execute(Features(m.imageWrite, m.metadataPush, m.triggerRefresh), fate.writeOk);
      }
      Unlock();
    }

    method HandleSetPathMappings(raw: seq<Mapping>, gateOk: bool, fate: Fate) returns (updated: bool)
      requires !locked
      modifies this
      ensures !locked
      ensures row == if Sanitized(raw).None? || !gateOk then old(row)
                     else Alone(clean, SetMappings(Sanitized(raw).value), fate, old(row))
      ensures updated <==> gateOk && fate.readOk && fate.writeOk && old(row).Some? && Sanitized(raw).Some?
                           && Validated(clean, Scan(old(row).value)).Some?
    {
      var mappings := SanitizePathMappings(raw);
      if mappings.None? {
        return false;
      }
      var gate := GetById(gateOk);
      if gate.None? {
        return false;
      }
      AloneMeans(clean, SetMappings(mappings.value), fate, row);
      Lock();
      var existing := GetById(fate.readOk);
      if existing.None? {
        Unlock();
        return false;
      }
      updated := Store(existing.value.(mappings := mappings.value), fate.writeOk);
      Unlock();
    }

    /** The mappings were inferred from the unlocked gate read; the list is decided on again under the lock. */
    method HandleInferPathMappings(mappings: seq<Mapping>, gateOk: bool, fate: Fate) returns (applied: bool)
      requires !locked
      modifies this
      ensures !locked && row == if gateOk then Alone(clean, Infer(mappings), fate, old(row)) else old(row)
      ensures applied <==> gateOk && fate.readOk && fate.writeOk && old(row).Some? && old(row).value.mappings == []
                           && mappings != [] && Validated(clean, Scan(old(row).value)).Some?
    {
      var gate := GetById(gateOk);
      if gate.None? {
        return false;
      }
      AloneMeans(clean, Infer(mappings), fate, row);
      Lock();
      var existing := GetById(fate.readOk);
      applied := false;
      if existing.Some? && |existing.value.mappings| == 0 && |mappings| > 0 {
        applied := Store(existing.value.(mappings := mappings), fate.writeOk);
      }
      Unlock();
    }

    /** Inference after an update: gated on the caller's copy, decided on the row re-read under the lock. */
    method ApplyInferredPathMappingsIfEmpty(conn: Row, mappings: seq<Mapping>, fate: Fate)
      requires !locked
      modifies this
      ensures !locked
      ensures row == if conn.basics.enabled && conn.mappings == []
                     then Alone(clean, Infer(mappings), fate, old(row)) else old(row)
    {
      AloneMeans(clean, Infer(mappings), fate, row);
      if !conn.basics.enabled || |conn.mappings| != 0 || |mappings| == 0 {
        return;
      }
      Lock();
      var current := GetById(fate.readOk);
      if current.None? || |current.value.mappings| != 0 {
        Unlock();
        return;
      }
      var done := Store(current.value.(mappings := mappings), fate.writeOk);
      Unlock();
    }
  }

  // ---------------------------------------------------------------- sanitising a mapping list

  function Trimmed(m: Mapping): Mapping {
    Mapping(TrimSpace(m.host), TrimSpace(m.platform))
  }

  predicate IsBlank(m: Mapping) {
    TrimSpace(m.host) == "" && TrimSpace(m.platform) == ""
  }

  /** Both prefixes are something other than nothing and the file system root. */
  predicate IsUsable(m: Mapping) {
    TrimRight(TrimSpace(m.host), "/") != "" && TrimRight(TrimSpace(m.platform), "/") != ""
  }

  /** Blank pairs are dropped; a half or root pair rejects the list. */
  function Sanitized(raw: seq<Mapping>): Option<seq<Mapping>> {
    if !AllAccepted(raw) then None else Some(Kept(raw))
  }

  /** A half or a root pair. */
  predicate IsRejected(m: Mapping) {
    !IsBlank(m) && !IsUsable(m)
  }

  predicate AllAccepted(raw: seq<Mapping>) {
    forall m :: m in raw ==> !IsRejected(m)
  }

  function Kept(raw: seq<Mapping>): seq<Mapping> {
    if raw == [] then []
    else Kept(raw[..|raw| - 1]) + if IsBlank(raw[|raw| - 1]) then [] else [Trimmed(raw[|raw| - 1])]
  }

  lemma KeptAppend(raw: seq<Mapping>, m: Mapping)
    ensures AllAccepted(raw + [m]) <==> AllAccepted(raw) && !IsRejected(m)
    ensures Kept(raw + [m]) == Kept(raw) + if IsBlank(m) then [] else [Trimmed(m)]
  {
    assert (raw + [m])[..|raw|] == raw;
  }

  method SanitizePathMappings(raw: seq<Mapping>) returns (r: Option<seq<Mapping>>)
    ensures r == Sanitized(raw)
  {
    var out: seq<Mapping> := [];
    for i := 0 to |raw|
      invariant out == Kept(raw[..i])
      invariant AllAccepted(raw[..i])
    {
      var m := raw[i];
      assert raw[..i + 1] == raw[..i] + [m];
      KeptAppend(raw[..i], m);
      var host, platform := TrimSpace(m.host), TrimSpace(m.platform);
      if host == "" && platform == "" {
        assert IsBlank(m);
        continue;
      }
      if host == "" || platform == "" {
        assert m in raw && IsRejected(m);
        return None;
      }
      if TrimRight(host, "/") == "" || TrimRight(platform, "/") == "" {
        assert m in raw && IsRejected(m);
        return None;
      }
      assert !IsRejected(m);
      out := out + [Mapping(host, platform)];
    }
    assert raw[..|raw|] == raw;
    return Some(out);
  }

  lemma TrimmedStays(m: Mapping)
    ensures Trimmed(Trimmed(m)) == Trimmed(m)
    ensures IsBlank(Trimmed(m)) <==> IsBlank(m)
    ensures IsUsable(Trimmed(m)) <==> IsUsable(m)
  {
    TrimSpaceTwice(m.host);
    TrimSpaceTwice(m.platform);
  }

  lemma {:induction false} KeptTwice(raw: seq<Mapping>)
    ensures Kept(Kept(raw)) == Kept(raw)
    ensures forall m :: m in Kept(raw) ==> exists r :: r in raw && !IsBlank(r) && m == Trimmed(r)
  {
    if raw != [] {
      var front, last := raw[..|raw| - 1], raw[|raw| - 1];
      KeptTwice(front);
      assert forall r :: r in front ==> r in raw;
      assert last in raw;
      if IsBlank(last) {
        assert Kept(raw) == Kept(front);
      } else {
        TrimmedStays(last);
        KeptAppend(Kept(front), Trimmed(last));
      }
    }
  }

  /** What is saved is saved again unchanged, and every pair of it is trimmed and usable. */
  lemma SanitizedTwice(raw: seq<Mapping>)
    requires Sanitized(raw).Some?
    ensures forall m :: m in Sanitized(raw).value ==> IsUsable(m) && Trimmed(m) == m
    ensures Sanitized(Sanitized(raw).value) == Sanitized(raw)
  {
    KeptTwice(raw);
    forall m | m in Kept(raw) ensures IsUsable(m) && Trimmed(m) == m {
      var r :| r in raw && !IsBlank(r) && m == Trimmed(r);
      assert !IsRejected(r);
      TrimmedStays(r);
    }
  }

  predicate OnlySlashes(s: string) {
    forall c :: c in s ==> c == '/'
  }

  lemma SlashesTrimmed(s: string)
    ensures TrimRight(s, "/") == "" <==> OnlySlashes(s)
  {
    var back := TrimRightExactly(s, "/");
    var t := TrimRight(s, "/");
    if t == "" {
      assert s == back;
    } else {
      assert t[|t| - 1] == s[|t| - 1] && s[|t| - 1] in s;
    }
  }

  /** A list is refused exactly when one of its pairs, not blank altogether, has a side that is nothing or the file
      system root. */
  lemma ListRefusedExactly(raw: seq<Mapping>)
    ensures Sanitized(raw).None? <==>
            exists m :: m in raw && (TrimSpace(m.host) != "" || TrimSpace(m.platform) != "")
                        && (OnlySlashes(TrimSpace(m.host)) || OnlySlashes(TrimSpace(m.platform)))
  {
    forall m | m in raw
      ensures IsRejected(m) <==>
              (TrimSpace(m.host) != "" || TrimSpace(m.platform) != "")
              && (OnlySlashes(TrimSpace(m.host)) || OnlySlashes(TrimSpace(m.platform)))
    {
      SlashesTrimmed(TrimSpace(m.host));
      SlashesTrimmed(TrimSpace(m.platform));
    }
  }

  /** `kept` is the pairs of raw that are not blank, trimmed, in their order; `at` says where they stand. */
  ghost predicate IsKept(raw: seq<Mapping>, at: seq<nat>, kept: seq<Mapping>) {
    && |at| == |kept|
    && (forall n :: 0 <= n < |at| ==>
          at[n] < |raw| && kept[n] == Mapping(TrimSpace(raw[at[n]].host), TrimSpace(raw[at[n]].platform)))
    && (forall m, n :: 0 <= m < n < |at| ==> at[m] < at[n])
    && (forall p: nat :: p < |raw| ==> (p in at <==> TrimSpace(raw[p].host) != "" || TrimSpace(raw[p].platform) != ""))
  }

  lemma BlankDropped(front: seq<Mapping>, m: Mapping, at: seq<nat>, kept: seq<Mapping>)
    requires IsKept(front, at, kept) && IsBlank(m)
    ensures IsKept(front + [m], at, kept)
  {
    assert forall p: nat :: p in at ==> p < |front|;
  }

  lemma PairAdded(front: seq<Mapping>, m: Mapping, at: seq<nat>, kept: seq<Mapping>)
    requires IsKept(front, at, kept) && !IsBlank(m)
    ensures IsKept(front + [m], at + [|front|], kept + [Trimmed(m)])
  {
    assert forall p: nat :: p in at ==> p < |front|;
  }

  lemma {:induction false} KeptInOrder(raw: seq<Mapping>) returns (at: seq<nat>)
    ensures IsKept(raw, at, Kept(raw))
  {
    if raw == [] {
      at := [];
    } else {
      var front, m := raw[..|raw| - 1], raw[|raw| - 1];
      at := KeptInOrder(front);
      assert raw == front + [m];
      if IsBlank(m) {
        BlankDropped(front, m, at, Kept(front));
        assert Kept(raw) == Kept(front);
      } else {
        PairAdded(front, m, at, Kept(front));
        at := at + [|front|];
        assert Kept(raw) == Kept(front) + [Trimmed(m)];
      }
    }
  }

  // ---------------------------------------------------------------- interleavings

  type ThreadId = nat

  datatype Phase =
    | Idle
    | Entered(req: Request)                               // holds the lock, has not read
    | Working(req: Request, copy: Row, done: nat)         // has read, has issued `done` statements

  /** A handler that has held the lock, with how many of its statements took effect. */
  datatype Entry = Entry(req: Request, done: nat)

  /** `acquired` lists the requests in the order they took the lock; `log` the ones that have released it. */
  datatype State = State(
    row: Option<Row>, lock: Option<ThreadId>, phase: map<ThreadId, Phase>, acquired: seq<Request>, log: seq<Entry>)

  datatype Action = Acquire(req: Request) | Fetch | WriteNext | Release | Delete

  function At(s: State, t: ThreadId): Phase {
    if t in s.phase then s.phase[t] else Idle
  }

  /** A handler may give up after any step (a failed read, a rejected body, a failed statement), but only by
      releasing; deleting the connection takes no lock. */
  predicate Enabled(clean: Cleaner, s: State, t: ThreadId, a: Action) {
    var p := At(s, t);
    match a
    case Acquire(_) => p == Idle && s.lock.None?
    case Fetch => p.Entered? && s.row.Some?
    case WriteNext => p.Working? && p.done < |Writes(clean, p.req, p.copy)|
    case Release => p != Idle
    case Delete => true
  }

  function Step(clean: Cleaner, s: State, t: ThreadId, a: Action): State
    requires Enabled(clean, s, t, a)
  {
    var p := At(s, t);
    match a
    case Acquire(req) => s.(lock := Some(t), phase := s.phase[t := Entered(req)], acquired := s.acquired + [req])
    case Fetch => s.(phase := s.phase[t := Working(p.req, Scan(s.row.value), 0)])
    case WriteNext =>
      var w := Writes(clean, p.req, p.copy)[p.done];
      s.(row := if s.row.Some? then Some(Stored(w, s.row.value)) else None,
         phase := s.phase[t := Working(p.req, p.copy, p.done + 1)])
    case Release => s.(lock := None, phase := s.phase[t := Idle], log := s.log + Held(p))
    case Delete => s.(row := None)
  }

  /** The log entry of a handler that still holds the lock. */
  function Held(p: Phase): seq<Entry> {
    match p
    case Idle => []
    case Entered(req) => [Entry(req, 0)]
    case Working(req, _, done) => [Entry(req, done)]
  }

  /** Everything that has touched the row so far, in lock order. */
  function Log(s: State): seq<Entry> {
    s.log + if s.lock.Some? then Held(At(s, s.lock.value)) else []
  }

  /** The handlers of a log, one after the other. */
  function Serial(clean: Cleaner, row: Row, log: seq<Entry>): Row {
    if log == [] then row
    else Perform(clean, log[|log| - 1].req, log[|log| - 1].done, Serial(clean, row, log[..|log| - 1]))
  }

  ghost predicate Inv(clean: Cleaner, start: Row, s: State) {
    && (forall t: ThreadId :: At(s, t) != Idle <==> s.lock == Some(t))
    && |Log(s)| == |s.acquired|
    && (forall i :: 0 <= i < |s.acquired| ==> Log(s)[i].req == s.acquired[i])
    && (s.row.Some? ==> s.row.value == Serial(clean, start, Log(s)))
    && (s.row.Some? && s.lock.Some? && At(s, s.lock.value).Working? ==>
          var p := At(s, s.lock.value);
          p.copy == Scan(Serial(clean, start, s.log)) && p.done <= |Writes(clean, p.req, p.copy)|)
  }

  lemma SerialAppend(clean: Cleaner, row: Row, log: seq<Entry>, e: Entry)
    ensures Serial(clean, row, log + [e]) == Perform(clean, e.req, e.done, Serial(clean, row, log))
  {
    assert (log + [e])[..|log|] == log;
  }

  lemma {:induction false} StoredAllAppend(ws: seq<Write>, w: Write, row: Row)
    ensures StoredAll(ws + [w], row) == Stored(w, StoredAll(ws, row))
    decreases |ws|
  {
    if ws == [] {
      assert (ws + [w])[1..] == [];
    } else {
      assert (ws + [w])[1..] == ws[1..] + [w];
      StoredAllAppend(ws[1..], w, Stored(ws[0], row));
    }
  }

  lemma PerformOneMore(clean: Cleaner, req: Request, done: nat, row: Row)
    requires done < |Writes(clean, req, Scan(row))|
    ensures Perform(clean, req, done + 1, row) ==
            Stored(Writes(clean, req, Scan(row))[done], Perform(clean, req, done, row))
  {
    var ws := Writes(clean, req, Scan(row));
    assert ws[..done + 1] == ws[..done] + [ws[done]];
    StoredAllAppend(ws[..done], ws[done], row);
  }

  lemma AcquireKeepsInv(clean: Cleaner, start: Row, s: State, t: ThreadId, req: Request)
    requires Inv(clean, start, s) && Enabled(clean, s, t, Acquire(req))
    ensures Inv(clean, start, Step(clean, s, t, Acquire(req)))
  {
    var s' := Step(clean, s, t, Acquire(req));
    assert Log(s') == Log(s) + [Entry(req, 0)];
    SerialAppend(clean, start, Log(s), Entry(req, 0));
  }

  lemma FetchKeepsInv(clean: Cleaner, start: Row, s: State, t: ThreadId)
    requires Inv(clean, start, s) && Enabled(clean, s, t, Fetch)
    ensures Inv(clean, start, Step(clean, s, t, Fetch))
  {
    var p := At(s, t);
    assert Log(Step(clean, s, t, Fetch)) == Log(s) == s.log + [Entry(p.req, 0)];
    SerialAppend(clean, start, s.log, Entry(p.req, 0));
  }

  lemma WriteKeepsInv(clean: Cleaner, start: Row, s: State, t: ThreadId)
    requires Inv(clean, start, s) && Enabled(clean, s, t, WriteNext)
    ensures Inv(clean, start, Step(clean, s, t, WriteNext))
  {
    var s' := Step(clean, s, t, WriteNext);
    var p := At(s, t);
    assert Log(s) == s.log + [Entry(p.req, p.done)] && Log(s') == s.log + [Entry(p.req, p.done + 1)];
    if s.row.Some? {
      SerialAppend(clean, start, s.log, Entry(p.req, p.done));
      SerialAppend(clean, start, s.log, Entry(p.req, p.done + 1));
      PerformOneMore(clean, p.req, p.done, Serial(clean, start, s.log));
    }
  }

  lemma StepKeepsInv(clean: Cleaner, start: Row, s: State, t: ThreadId, a: Action)
    requires Inv(clean, start, s) && Enabled(clean, s, t, a)
    ensures Inv(clean, start, Step(clean, s, t, a))
  {
    match a {
      case Acquire(req) => AcquireKeepsInv(clean, start, s, t, req);
      case Fetch => FetchKeepsInv(clean, start, s, t);
      case WriteNext => WriteKeepsInv(clean, start, s, t);
      case Release => assert Log(Step(clean, s, t, a)) == Log(s);
      case Delete => assert Log(Step(clean, s, t, a)) == Log(s);
    }
  }

  function Initial(row: Row): State {
    State(Some(row), None, map[], [], [])
  }

  /** A schedule whose every step is possible when it comes. */
  ghost predicate Feasible(clean: Cleaner, s: State, schedule: seq<(ThreadId, Action)>)
    decreases |schedule|
  {
    schedule == [] ||
    (Enabled(clean, s, schedule[0].0, schedule[0].1)
     && Feasible(clean, Step(clean, s, schedule[0].0, schedule[0].1), schedule[1..]))
  }

  ghost function RunFrom(clean: Cleaner, s: State, schedule: seq<(ThreadId, Action)>): State
    requires Feasible(clean, s, schedule)
    decreases |schedule|
  {
    if schedule == [] then s else RunFrom(clean, Step(clean, s, schedule[0].0, schedule[0].1), schedule[1..])
  }

  lemma {:induction false} RunKeepsInv(clean: Cleaner, start: Row, s: State, schedule: seq<(ThreadId, Action)>)
    requires Inv(clean, start, s) && Feasible(clean, s, schedule)
    ensures Inv(clean, start, RunFrom(clean, s, schedule))
    decreases |schedule|
  {
    if schedule != [] {
      StepKeepsInv(clean, start, s, schedule[0].0, schedule[0].1);
      RunKeepsInv(clean, start, Step(clean, s, schedule[0].0, schedule[0].1), schedule[1..]);
    }
  }

  /** After any interleaving the row, unless deleted, is what the handlers give one after the other in the order
      they took the lock. */
  lemma EveryInterleavingIsSerial(clean: Cleaner, start: Row, schedule: seq<(ThreadId, Action)>)
    requires Feasible(clean, Initial(start), schedule)
    ensures var s := RunFrom(clean, Initial(start), schedule);
            && |Log(s)| == |s.acquired| && (forall i :: 0 <= i < |s.acquired| ==> Log(s)[i].req == s.acquired[i])
            && (s.row.Some? ==> s.row.value == Serial(clean, start, Log(s)))
  {
    RunKeepsInv(clean, start, Initial(start), schedule);
  }

  /** A handler inside its writes can issue the rest of them and let go of the lock. */
  lemma {:induction false} WritesComplete(clean: Cleaner, s: State, t: ThreadId)
    returns (steps: seq<(ThreadId, Action)>)
    requires At(s, t).Working? && s.row.Some? && At(s, t).done <= |Writes(clean, At(s, t).req, At(s, t).copy)|
    ensures Feasible(clean, s, steps)
    ensures var p, s' := At(s, t), RunFrom(clean, s, steps);
            var ws := Writes(clean, p.req, p.copy);
            && s'.lock == None && At(s', t) == Idle && s'.log == s.log + [Entry(p.req, |ws|)]
            && s'.row == Some(StoredAll(ws[p.done..], s.row.value))
    decreases |Writes(clean, At(s, t).req, At(s, t).copy)| - At(s, t).done
  {
    var p := At(s, t);
    var ws := Writes(clean, p.req, p.copy);
    if p.done == |ws| {
      steps := [(t, Release)];
    } else {
      var rest := WritesComplete(clean, Step(clean, s, t, WriteNext), t);
      steps := [(t, WriteNext)] + rest;
      assert steps[1..] == rest && ws[p.done..][0] == ws[p.done] && ws[p.done..][1..] == ws[p.done + 1..];
    }
  }

  /** Once the lock is free any handler can run to its end: it issues every statement it has, each on the row it
      read, and leaves the lock free again. */
  lemma HandlerCompletes(clean: Cleaner, s: State, t: ThreadId, req: Request) returns (steps: seq<(ThreadId, Action)>)
    requires At(s, t) == Idle && s.lock == None && s.row.Some?
    ensures Feasible(clean, s, steps)
    ensures var s', all := RunFrom(clean, s, steps), |Writes(clean, req, Scan(s.row.value))|;
            && s'.lock == None && At(s', t) == Idle && s'.log == s.log + [Entry(req, all)]
            && s'.row == Some(Perform(clean, req, all, s.row.value))
  {
    var entered := Step(clean, s, t, Acquire(req));
    var read := Step(clean, entered, t, Fetch);
    var rest := WritesComplete(clean, read, t);
    var fetched := [(t, Fetch)] + rest;
    assert fetched[1..] == rest;
    steps := [(t, Acquire(req))] + fetched;
    assert steps[1..] == fetched;
    var ws := Writes(clean, req, Scan(s.row.value));
    assert ws[0..] == ws == ws[..|ws|];
  }

  // ---------------------------------------------------------------- no edit is lost

  datatype Field =
    | Name | Kind | Url | ApiKey | IsEnabled | ImageWrite | MetadataPush | TriggerRefresh | Mappings
    | IsManaged | SnapshotColumn

  datatype Value =
    | Text(text: string) | Flag(on: bool) | MappingList(list: seq<Mapping>) | Column(c: ManagedToggle.Column)

  /** What a reader of the row is shown. */
  function Shown(f: Field, row: Row): Value {
    var x := Scan(row);
    match f
    case Name => Text(x.basics.name)
    case Kind => Text(x.kind)
    case Url => Text(x.basics.url)
    case ApiKey => Text(x.basics.apiKey)
    case IsEnabled => Flag(x.basics.enabled)
    case ImageWrite => Flag(x.media.imageWrite)
    case MetadataPush => Flag(x.media.metadataPush)
    case TriggerRefresh => Flag(x.media.triggerRefresh)
    case Mappings => MappingList(x.mappings)
    case IsManaged => Flag(x.managed)
    case SnapshotColumn => Column(x.column)
  }

  function AskedFlag(o: Option<bool>): Option<Value> {
    if o.Some? then Some(Flag(o.value)) else None
  }

  function AskedText(s: string): Option<Value> {
    if s != "" then Some(Text(s)) else None
  }

  function AskedToggle(t: Toggles, f: Field): Option<Value> {
    match f
    case ImageWrite => AskedFlag(t.imageWrite)
    case MetadataPush => AskedFlag(t.metadataPush)
    case TriggerRefresh => AskedFlag(t.triggerRefresh)
    case _ => None
  }

  /** The value a request asks a field to have; a URL is asked for in its cleaned form. */
  function Asked(clean: Cleaner, req: Request, f: Field): Option<Value> {
    match req
    case Update(b) =>
      (match f
       case Name => AskedText(b.name)
       case Kind => AskedText(b.kind)
       case Url => if b.url != "" && clean(b.url).Some? then Some(Text(clean(b.url).value)) else None
       case ApiKey => AskedText(b.apiKey)
       case IsEnabled => AskedFlag(b.enabled)
       case _ => AskedToggle(b.toggles, f))
    case SetFeatures(t) => AskedToggle(t, f)
    case SetMappings(m) => if f == Mappings then Some(MappingList(m)) else None
    case Infer(m) => if f == Mappings then Some(MappingList(m)) else None
    case Toggle(_, _, _) => None
  }

  /** A request may move a field it asks about; a new connection type also resets the three toggles, and the
      managed toggle moves its flag and snapshot. */
  predicate Touches(clean: Cleaner, req: Request, f: Field) {
    || Asked(clean, req, f).Some?
    || (req.Update? && req.body.kind != "" && (f == ImageWrite || f == MetadataPush || f == TriggerRefresh))
    || (req.Toggle? && (f == IsManaged || f == SnapshotColumn))
  }

  lemma {:induction false} ToggleWritesOnlyItsColumns(s: ManagedToggle.State, trace: seq<ManagedToggle.State>)
    ensures forall i :: 0 <= i < |ToggleWrites(s, trace)| ==>
              ToggleWrites(s, trace)[i].Managed? || ToggleWrites(s, trace)[i].Snapshot?
    decreases |trace|
  {
    if trace != [] {
      ToggleWritesOnlyItsColumns(trace[0], trace[1..]);
    }
  }

  lemma {:induction false} ToggleColumnsOnly(ws: seq<Write>, row: Row)
    requires forall i :: 0 <= i < |ws| ==> ws[i].Managed? || ws[i].Snapshot?
    ensures var r := StoredAll(ws, row); r == row.(managed := r.managed, column := r.column)
    decreases |ws|
  {
    if ws != [] {
      ToggleColumnsOnly(ws[1..], Stored(ws[0], row));
    }
  }

  lemma PerformShort(clean: Cleaner, req: Request, done: nat, row: Row)
    requires !req.Toggle?
    ensures Perform(clean, req, done, row) ==
            var ws := Writes(clean, req, Scan(row));
            if done == 0 || ws == [] then row else Stored(ws[0], row)
  {
    var ws := Writes(clean, req, Scan(row));
    assert |ws| <= 1;
    if done > 0 && ws != [] {
      assert ws[..1] == [ws[0]] && [ws[0]][1..] == [];
      assert StoredAll([ws[0]], row) == Stored(ws[0], row);
    }
  }

  /** The stored URL is one that cleaning leaves as it is. */
  predicate UrlIsClean(clean: Cleaner, row: Row) {
    clean(row.basics.url) == Some(row.basics.url)
  }

  lemma EditKeepsUntouched(clean: Cleaner, c: Row, b: Body, f: Field)
    requires Scan(c) == c && !Touches(clean, Update(b), f) && Edited(c, b).Some?
    requires Validated(clean, Edited(c, b).value).Some? && (f == Url ==> UrlIsClean(clean, c))
    ensures Shown(f, Validated(clean, Edited(c, b).value).value) == Shown(f, c)
  {
  }

  lemma UpdateKeepsUntouched(clean: Cleaner, b: Body, done: nat, row: Row, f: Field)
    requires !Touches(clean, Update(b), f) && (f == Url ==> UrlIsClean(clean, row))
    ensures Shown(f, Perform(clean, Update(b), done, row)) == Shown(f, row)
  {
    PerformShort(clean, Update(b), done, row);
    var c := Scan(row);
    if Edited(c, b).Some? && Validated(clean, Edited(c, b).value).Some? {
      EditKeepsUntouched(clean, c, b, f);
      var r := Validated(clean, Edited(c, b).value).value;
      assert Shown(f, Stored(FullRow(r), row)) == if f == SnapshotColumn then Shown(f, row) else Shown(f, r);
    }
  }

  lemma MappingsKeepUntouched(clean: Cleaner, m: seq<Mapping>, row: Row, f: Field)
    requires f != Mappings && (f == Url ==> UrlIsClean(clean, row))
    requires Validated(clean, Scan(row).(mappings := m)).Some?
    ensures Shown(f, Stored(FullRow(Validated(clean, Scan(row).(mappings := m)).value), row)) == Shown(f, row)
  {
  }

  lemma ToggleKeepsUntouched(clean: Cleaner, req: Request, done: nat, row: Row, f: Field)
    requires req.Toggle? && !Touches(clean, req, f)
    ensures Shown(f, Perform(clean, req, done, row)) == Shown(f, row)
  {
    var s := ManagedToggle.State(req.peer, Scan(row).column, Scan(row).managed);
    ToggleWritesOnlyItsColumns(s, ManagedToggle.RequestTrace(s, req.enabled, req.faults));
    var ws := Writes(clean, req, Scan(row));
    ToggleColumnsOnly(ws[..if done <= |ws| then done else |ws|], row);
  }

  /** A handler leaves every field it was not asked about as it was; the URL, provided it is stored cleaned. */
  lemma UntouchedFieldKept(clean: Cleaner, req: Request, done: nat, row: Row, f: Field)
    requires !Touches(clean, req, f) && (f == Url ==> UrlIsClean(clean, row))
    ensures Shown(f, Perform(clean, req, done, row)) == Shown(f, row)
  {
    match req {
      case Update(b) => UpdateKeepsUntouched(clean, b, done, row, f);
      case Toggle(_, _, _) => ToggleKeepsUntouched(clean, req, done, row, f);
      case SetFeatures(_) => PerformShort(clean, req, done, row);
      case SetMappings(m) =>
        PerformShort(clean, req, done, row);
        if Validated(clean, Scan(row).(mappings := m)).Some? {
          MappingsKeepUntouched(clean, m, row, f);
        }
      case Infer(m) =>
        PerformShort(clean, req, done, row);
        if Validated(clean, Scan(row).(mappings := m)).Some? {
          MappingsKeepUntouched(clean, m, row, f);
        }
    }
  }

  /** A full-row write that does not name the URL leaves it as it was exactly when it was stored cleaned. */
  lemma UrlKeptExactlyWhenClean(clean: Cleaner, req: Request, done: nat, row: Row)
    requires !Touches(clean, req, Url) && 0 < done <= |Writes(clean, req, Scan(row))|
    requires Writes(clean, req, Scan(row))[0].FullRow?
    ensures Shown(Url, Perform(clean, req, done, row)) == Shown(Url, row) <==> UrlIsClean(clean, row)
  {
    if req.Toggle? {
      var s := ManagedToggle.State(req.peer, Scan(row).column, Scan(row).managed);
      ToggleWritesOnlyItsColumns(s, ManagedToggle.RequestTrace(s, req.enabled, req.faults));
      assert false;
    }
    PerformShort(clean, req, done, row);
  }

  /** A handler whose write took effect shows every value it was given. */
  lemma EditTakesEffect(clean: Cleaner, req: Request, done: nat, row: Row, f: Field)
    requires 0 < done <= |Writes(clean, req, Scan(row))| && Asked(clean, req, f).Some?
    ensures Shown(f, Perform(clean, req, done, row)) == Asked(clean, req, f).value
  {
    if !req.Toggle? {
      PerformShort(clean, req, done, row);
    }
  }

  /** Every write that stores a URL stores it cleaned. */
  lemma UrlStaysClean(clean: Cleaner, req: Request, done: nat, row: Row)
    requires IsStable(clean)
    requires UrlIsClean(clean, row) || (0 < done <= |Writes(clean, req, Scan(row))| && Asked(clean, req, Url).Some?)
    ensures UrlIsClean(clean, Perform(clean, req, done, row))
  {
    if req.Toggle? {
      var s := ManagedToggle.State(req.peer, Scan(row).column, Scan(row).managed);
      ToggleWritesOnlyItsColumns(s, ManagedToggle.RequestTrace(s, req.enabled, req.faults));
      var ws := Writes(clean, req, Scan(row));
      ToggleColumnsOnly(ws[..if done <= |ws| then done else |ws|], row);
    } else {
      PerformShort(clean, req, done, row);
    }
  }

  lemma {:induction false} LaterEditsLeaveFieldAlone(clean: Cleaner, start: Row, log: seq<Entry>, i: nat, f: Field)
    requires i < |log| && forall j :: i < j < |log| ==> !Touches(clean, log[j].req, f)
    requires f == Url ==> IsStable(clean) && UrlIsClean(clean, Serial(clean, start, log[..i + 1]))
    ensures Shown(f, Serial(clean, start, log)) == Shown(f, Serial(clean, start, log[..i + 1]))
    ensures f == Url ==> UrlIsClean(clean, Serial(clean, start, log))
    decreases |log|
  {
    if i + 1 == |log| {
      assert log[..i + 1] == log;
    } else {
      var front, last := log[..|log| - 1], log[|log| - 1];
      assert front[..i + 1] == log[..i + 1];
      LaterEditsLeaveFieldAlone(clean, start, front, i, f);
      UntouchedFieldKept(clean, last.req, last.done, Serial(clean, start, front), f);
      if f == Url {
        UrlStaysClean(clean, last.req, last.done, Serial(clean, start, front));
      }
    }
  }

  /** Entry i of a serial order took effect, asked for a value of field f, and nobody later touched that field. */
  ghost predicate LastToAsk(clean: Cleaner, start: Row, log: seq<Entry>, i: nat, f: Field)
    requires i < |log|
  {
    && Asked(clean, log[i].req, f).Some?
    && 0 < log[i].done <= |Writes(clean, log[i].req, Scan(Serial(clean, start, log[..i])))|
    && forall j :: i < j < |log| ==> !Touches(clean, log[j].req, f)
  }

  /** What holds right after entry i took effect. */
  lemma ShownAtItsTurn(clean: Cleaner, start: Row, log: seq<Entry>, i: nat, f: Field)
    requires (f == Url ==> IsStable(clean)) && i < |log| && LastToAsk(clean, start, log, i, f)
    ensures Shown(f, Serial(clean, start, log[..i + 1])) == Asked(clean, log[i].req, f).value
    ensures f == Url ==> UrlIsClean(clean, Serial(clean, start, log[..i + 1]))
  {
    var e, before := log[i], log[..i];
    assert log[..i + 1] == before + [e];
    SerialAppend(clean, start, before, e);
    EditTakesEffect(clean, e.req, e.done, Serial(clean, start, before), f);
    if f == Url {
      UrlStaysClean(clean, e.req, e.done, Serial(clean, start, before));
    }
  }

  lemma LastEditIsShown(clean: Cleaner, start: Row, log: seq<Entry>, i: nat, f: Field)
    requires (f == Url ==> IsStable(clean)) && i < |log| && LastToAsk(clean, start, log, i, f)
    ensures Shown(f, Serial(clean, start, log)) == Asked(clean, log[i].req, f).value
  {
    ShownAtItsTurn(clean, start, log, i, f);
    LaterEditsLeaveFieldAlone(clean, start, log, i, f);
  }

  /** No lost update: after any interleaving, the value a committed handler asked of a field (for the URL, in its
      cleaned form) is still there unless a handler that took the lock later touches that same field. */
  lemma NoLostUpdate(clean: Cleaner, start: Row, schedule: seq<(ThreadId, Action)>, i: nat, f: Field)
    requires (f == Url ==> IsStable(clean)) && Feasible(clean, Initial(start), schedule)
    requires var s := RunFrom(clean, Initial(start), schedule);
             s.row.Some? && i < |Log(s)| && LastToAsk(clean, start, Log(s), i, f)
    ensures var s := RunFrom(clean, Initial(start), schedule);
            Shown(f, s.row.value) == Asked(clean, Log(s)[i].req, f).value
  {
    EveryInterleavingIsSerial(clean, start, schedule);
    LastEditIsShown(clean, start, Log(RunFrom(clean, Initial(start), schedule)), i, f);
  }

  // ---------------------------------------------------------------- which requests are accepted

  /** A toggle edit is accepted exactly when the connection is an Emby or a Jellyfin, or the request carries none. */
  lemma FeaturesAcceptedExactly(clean: Cleaner, t: Toggles, c: Row)
    ensures Writes(clean, SetFeatures(t), c) != [] <==>
            || c.kind == "emby" || c.kind == "jellyfin"
            || (t.imageWrite.None? && t.metadataPush.None? && t.triggerRefresh.None?)
  {
  }

  /** A row the service stores: a name, one of the three types, a URL that can be cleaned, and a key. */
  predicate IsStorable(clean: Cleaner, name: string, kind: string, url: string, apiKey: string) {
    && name != "" && (kind == "emby" || kind == "jellyfin" || kind == "lidarr") && clean(url).Some? && apiKey != ""
  }

  function Given(s: string, otherwise: string): string {
    if s != "" then s else otherwise
  }

  /** An update is accepted exactly when the row it makes is storable and its toggles are ones the new type has. */
  lemma UpdateAcceptedExactly(clean: Cleaner, b: Body, c: Row)
    ensures var kind := Given(b.kind, c.kind);
            Writes(clean, Update(b), c) != [] <==>
            && IsStorable(clean, Given(b.name, c.basics.name), kind, Given(b.url, c.basics.url),
                          Given(b.apiKey, c.basics.apiKey))
            && (kind == "emby" || kind == "jellyfin"
                || (b.toggles.imageWrite.None? && b.toggles.metadataPush.None? && b.toggles.triggerRefresh.None?))
  {
  }

  lemma MappingsAcceptedExactly(clean: Cleaner, m: seq<Mapping>, c: Row)
    ensures var storable := IsStorable(clean, c.basics.name, c.kind, c.basics.url, c.basics.apiKey);
            && (Writes(clean, SetMappings(m), c) != [] <==> storable)
            && (Writes(clean, Infer(m), c) != [] <==> storable && c.mappings == [] && m != [])
  {
  }

  /** The two changes an accepted update makes one after the other: the edit in memory and its validation. */
  lemma UpdateStores(clean: Cleaner, b: Body, row: Row)
    requires Writes(clean, Update(b), Scan(row)) != []
    ensures Edited(Scan(row), b).Some? && Validated(clean, Edited(Scan(row), b).value).Some?
    ensures Perform(clean, Update(b), 1, row) ==
            Validated(clean, Edited(Scan(row), b).value).value.(column := row.column)
  {
    PerformShort(clean, Update(b), 1, row);
  }

  /** What an accepted update makes of a row: a new type drops everything that belonged to the old one. */
  lemma UpdateMakes(clean: Cleaner, b: Body, row: Row)
    requires Writes(clean, Update(b), Scan(row)) != []
    ensures var c, r := Scan(row), Perform(clean, Update(b), 1, row);
            var renewed := b.kind != "" && b.kind != c.kind;
            && r.kind == Given(b.kind, c.kind) && r.mappings == c.mappings && r.column == row.column
            && r.managed == c.managed
            && r.basics.name == Given(b.name, c.basics.name) && r.basics.apiKey == Given(b.apiKey, c.basics.apiKey)
            && clean(Given(b.url, c.basics.url)) == Some(r.basics.url)
            && r.basics.enabled == (if b.enabled.Some? then b.enabled.value else c.basics.enabled)
            && r.media.userId == (if renewed then "" else c.media.userId)
            && r.media.serverId == (if renewed then "" else c.media.serverId)
    ensures var c, r := Scan(row), Perform(clean, Update(b), 1, row);
            var kept, t := !(b.kind != "" && b.kind != c.kind), b.toggles;
            && r.media.imageWrite == (if t.imageWrite.Some? then t.imageWrite.value else kept && c.media.imageWrite)
            && r.media.metadataPush ==
                 (if t.metadataPush.Some? then t.metadataPush.value else kept && c.media.metadataPush)
            && r.media.triggerRefresh ==
                 (if t.triggerRefresh.Some? then t.triggerRefresh.value else kept && c.media.triggerRefresh)
  {
    UpdateStores(clean, b, row);
  }

  // ---------------------------------------------------------------- inference and the toggle

  /** When inference writes, the mapping list it replaces is empty at that very moment, and the row becomes the
      validated one with the inferred list: nothing else changes unless the URL was not stored cleaned. */
  lemma InferenceReplacesOnlyAnEmptyList(clean: Cleaner, start: Row, s: State, t: ThreadId)
    requires Inv(clean, start, s) && Enabled(clean, s, t, WriteNext)
    requires s.row.Some? && At(s, t).Working? && At(s, t).req.Infer?
    ensures s.row.value.mappings == []
    ensures var row' := Step(clean, s, t, WriteNext).row;
            && row' == Validated(clean, Scan(s.row.value).(mappings := At(s, t).req.mappings))
            && (UrlIsClean(clean, s.row.value) ==>
                  row' == Some(Scan(s.row.value).(mappings := At(s, t).req.mappings)))
  {
    var p := At(s, t);
    HolderSeesTheRow(clean, start, s, t);
    InferWritesValidated(clean, p.req.mappings, s.row.value);
  }

  /** Until its first statement, what the lock holder has read is what is stored. */
  lemma HolderSeesTheRow(clean: Cleaner, start: Row, s: State, t: ThreadId)
    requires Inv(clean, start, s) && s.row.Some? && At(s, t).Working? && At(s, t).done == 0
    ensures At(s, t).copy == Scan(s.row.value)
  {
    var p := At(s, t);
    assert Log(s) == s.log + [Entry(p.req, 0)];
    SerialAppend(clean, start, s.log, Entry(p.req, 0));
    assert Perform(clean, p.req, 0, Serial(clean, start, s.log)) == Serial(clean, start, s.log);
  }

  lemma InferWritesValidated(clean: Cleaner, m: seq<Mapping>, row: Row)
    requires Writes(clean, Infer(m), Scan(row)) != []
    ensures row.mappings == []
    ensures var stored := Stored(Writes(clean, Infer(m), Scan(row))[0], row);
            && Some(stored) == Validated(clean, Scan(row).(mappings := m))
            && (UrlIsClean(clean, row) ==> stored == Scan(row).(mappings := m))
  {
  }

  /** The i-th step of a toggle moves the flag or the snapshot, not both. */
  predicate OneColumnAt(s: ManagedToggle.State, trace: seq<ManagedToggle.State>, i: nat)
    requires i < |trace|
  {
    var prev := if i == 0 then s else trace[i - 1];
    trace[i].managed == prev.managed || trace[i].column == prev.column
  }

  lemma {:induction false} ToggleWritesReach(s: ManagedToggle.State, trace: seq<ManagedToggle.State>, row: Row)
    requires row.column == s.column && row.managed == s.managed
    requires forall i :: 0 <= i < |trace| ==> OneColumnAt(s, trace, i)
    ensures var end := ManagedToggle.After(s, trace, |trace|);
            StoredAll(ToggleWrites(s, trace), row) == row.(column := end.column, managed := end.managed)
    decreases |trace|
  {
    if trace != [] {
      var next, rest := trace[0], trace[1..];
      assert OneColumnAt(s, trace, 0);
      var row' := row.(column := next.column, managed := next.managed);
      forall i | 0 <= i < |rest|
        ensures OneColumnAt(next, rest, i)
      {
        assert OneColumnAt(s, trace, i + 1);
      }
      ToggleWritesReach(next, rest, row');
      var first := if next.managed != s.managed then [Managed(next.managed)]
                   else if next.column != s.column then [Snapshot(next.column)] else [];
      assert ToggleWrites(s, trace) == first + ToggleWrites(next, rest);
      if first != [] {
        assert (first + ToggleWrites(next, rest))[1..] == ToggleWrites(next, rest);
        assert Stored(first[0], row) == row';
      } else {
        assert row' == row;
        assert first + ToggleWrites(next, rest) == ToggleWrites(next, rest);
      }
    }
  }

  lemma ToggleTraceStepsOneColumn(s: ManagedToggle.State, enabled: bool, f: ManagedToggle.Faults, i: nat)
    requires i < |ManagedToggle.RequestTrace(s, enabled, f)|
    ensures OneColumnAt(s, ManagedToggle.RequestTrace(s, enabled, f), i)
  {
  }

  /** Among other handlers a complete toggle moves the flag and the snapshot exactly as it does alone, and no
      other handler ever moves either. */
  lemma ToggleKeepsItsMeaning(clean: Cleaner, req: Request, row: Row)
    ensures req.Toggle? ==>
              var s := ManagedToggle.State(req.peer, row.column, row.managed);
              var end := ManagedToggle.Outcome(s, req.enabled, req.faults);
              Perform(clean, req, |Writes(clean, req, Scan(row))|, row) ==
              row.(column := end.column, managed := end.managed)
    ensures !req.Toggle? ==> forall done: nat :: Perform(clean, req, done, row).column == row.column
                                                 && Perform(clean, req, done, row).managed == row.managed
  {
    if req.Toggle? {
      var s := ManagedToggle.State(req.peer, row.column, row.managed);
      var trace := ManagedToggle.RequestTrace(s, req.enabled, req.faults);
      forall i | 0 <= i < |trace|
        ensures OneColumnAt(s, trace, i)
      {
        ToggleTraceStepsOneColumn(s, req.enabled, req.faults, i);
      }
      ToggleWritesReach(s, trace, row);
      var ws := Writes(clean, req, Scan(row));
      assert ws == ToggleWrites(s, trace) && ws[..|ws|] == ws;
    } else {
      forall done: nat
        ensures Perform(clean, req, done, row).column == row.column
        ensures Perform(clean, req, done, row).managed == row.managed
      {
        PerformShort(clean, req, done, row);
      }
    }
  }

  /** The two columns the managed toggle lives on agree. */
  predicate SameToggle(a: Row, b: Row) {
    a.column == b.column && a.managed == b.managed
  }

  lemma {:induction false} ToggleWritesSeeOnlyTheToggle(ws: seq<Write>, a: Row, b: Row)
    requires forall i :: 0 <= i < |ws| ==> ws[i].Managed? || ws[i].Snapshot?
    requires SameToggle(a, b)
    ensures SameToggle(StoredAll(ws, a), StoredAll(ws, b))
    decreases |ws|
  {
    if ws != [] {
      ToggleWritesSeeOnlyTheToggle(ws[1..], Stored(ws[0], a), Stored(ws[0], b));
    }
  }

  function TogglesOf(log: seq<Entry>): seq<Entry> {
    if log == [] then []
    else TogglesOf(log[..|log| - 1]) + if log[|log| - 1].req.Toggle? then [log[|log| - 1]] else []
  }

  /** A toggle's effect on its two columns depends on these two columns alone. */
  lemma ToggleSeesOnlyTheToggle(clean: Cleaner, req: Request, done: nat, a: Row, b: Row)
    requires req.Toggle? && SameToggle(a, b)
    ensures SameToggle(Perform(clean, req, done, a), Perform(clean, req, done, b))
  {
    var ws := Writes(clean, req, Scan(a));
    assert ws == Writes(clean, req, Scan(b));
    var s := ManagedToggle.State(req.peer, a.column, a.managed);
    ToggleWritesOnlyItsColumns(s, ManagedToggle.RequestTrace(s, req.enabled, req.faults));
    ToggleWritesSeeOnlyTheToggle(ws[..if done <= |ws| then done else |ws|], a, b);
  }

  lemma OthersKeepTheToggle(clean: Cleaner, req: Request, done: nat, row: Row)
    requires !req.Toggle?
    ensures SameToggle(Perform(clean, req, done, row), row)
  {
    ToggleKeepsItsMeaning(clean, req, row);
  }

  /** Whatever else has written the row, flag and snapshot are where the toggle requests alone, complete or cut
      short, would have brought them: what holds over every run of the toggle holds among all other handlers. */
  lemma {:induction false} OnlyTogglesMoveTheToggle(clean: Cleaner, start: Row, log: seq<Entry>)
    ensures SameToggle(Serial(clean, start, log), Serial(clean, start, TogglesOf(log)))
  {
    if log != [] {
      var front, last := log[..|log| - 1], log[|log| - 1];
      OnlyTogglesMoveTheToggle(clean, start, front);
      if last.req.Toggle? {
        var a, b := Serial(clean, start, front), Serial(clean, start, TogglesOf(front));
        ToggleSeesOnlyTheToggle(clean, last.req, last.done, a, b);
        SerialAppend(clean, start, TogglesOf(front), last);
      } else {
        OthersKeepTheToggle(clean, last.req, last.done, Serial(clean, start, front));
        assert TogglesOf(log) == TogglesOf(front);
      }
    }
  }

  // ---------------------------------------------------------------- the toggle stays safe among other handlers

  /** What the user expects to get back, and the peer as the last toggle left it. */
  datatype Track = Track(original: ManagedToggle.Peer, peer: ManagedToggle.Peer)

  /** What a toggle request meets when its turn comes. */
  function Met(req: Request, row: Row): ManagedToggle.State
    requires req.Toggle?
  {
    ManagedToggle.State(req.peer, row.column, row.managed)
  }

  function TraceOf(req: Request, row: Row): seq<ManagedToggle.State>
    requires req.Toggle?
  {
    ManagedToggle.RequestTrace(Met(req, row), req.enabled, req.faults)
  }

  /** A toggle that got through `cut` of its steps issued the statements among them; it met the peer as the toggle
      before it left it, unless the user had edited the peer, which they do only while no snapshot is held. */
  predicate Joins(e: Entry, cut: nat, row: Row, t: Track) {
    e.req.Toggle? ==>
      && cut <= |TraceOf(e.req, row)|
      && e.done == |ToggleWrites(Met(e.req, row), TraceOf(e.req, row)[..cut])|
      && (e.req.peer == t.peer || row.column.Cleared?)
  }

  function TrackStep(e: Entry, cut: nat, row: Row, t: Track): Track {
    if !e.req.Toggle? then t
    else Track(if e.req.peer == t.peer then t.original else e.req.peer,
               ManagedToggle.After(Met(e.req, row), TraceOf(e.req, row), cut).peer)
  }

  function TrackOf(clean: Cleaner, start: Row, t: Track, log: seq<Entry>, cuts: seq<nat>): Track
    requires |cuts| == |log|
  {
    if log == [] then t
    else
      var n := |log| - 1;
      TrackStep(log[n], cuts[n], Serial(clean, start, log[..n]), TrackOf(clean, start, t, log[..n], cuts[..n]))
  }

  /** The peers of the logged toggles follow from one another. */
  ghost predicate Chained(clean: Cleaner, start: Row, t: Track, log: seq<Entry>, cuts: seq<nat>)
    requires |cuts| == |log|
  {
    log == [] ||
    var n := |log| - 1;
    Chained(clean, start, t, log[..n], cuts[..n])
    && Joins(log[n], cuts[n], Serial(clean, start, log[..n]), TrackOf(clean, start, t, log[..n], cuts[..n]))
  }

  ghost predicate SafeAt(t: Track, row: Row) {
    ManagedToggle.Safe(t.original, ManagedToggle.State(t.peer, row.column, row.managed))
  }

  lemma {:induction false} ToggleWritesPrefix(s: ManagedToggle.State, trace: seq<ManagedToggle.State>, cut: nat)
    requires cut <= |trace|
    ensures ToggleWrites(s, trace[..cut]) <= ToggleWrites(s, trace)
    decreases |trace|
  {
    if cut > 0 {
      ToggleWritesPrefix(trace[0], trace[1..], cut - 1);
      assert trace[..cut][1..] == trace[1..][..cut - 1];
    }
  }

  /** After `cut` steps of a toggle, flag and snapshot are those of the state it has reached. */
  lemma CutToggleReaches(clean: Cleaner, e: Entry, cut: nat, row: Row)
    requires e.req.Toggle? && cut <= |TraceOf(e.req, row)|
    requires e.done == |ToggleWrites(Met(e.req, row), TraceOf(e.req, row)[..cut])|
    ensures var end := ManagedToggle.After(Met(e.req, row), TraceOf(e.req, row), cut);
            Perform(clean, e.req, e.done, row) == row.(column := end.column, managed := end.managed)
  {
    var s, trace := Met(e.req, row), TraceOf(e.req, row);
    forall i | 0 <= i < cut ensures OneColumnAt(s, trace[..cut], i) {
      ToggleTraceStepsOneColumn(s, e.req.enabled, e.req.faults, i);
    }
    ToggleWritesReach(s, trace[..cut], row);
    ToggleWritesPrefix(s, trace, cut);
    assert Writes(clean, e.req, Scan(row)) == ToggleWrites(s, trace);
    assert ToggleWrites(s, trace)[..e.done] == ToggleWrites(s, trace[..cut]);
    assert ManagedToggle.After(s, trace[..cut], cut) == ManagedToggle.After(s, trace, cut);
  }

  lemma JoinStaysSafe(clean: Cleaner, e: Entry, cut: nat, row: Row, t: Track)
    requires SafeAt(t, row) && Joins(e, cut, row, t)
    ensures SafeAt(TrackStep(e, cut, row, t), Perform(clean, e.req, e.done, row))
  {
    if e.req.Toggle? {
      var original := if e.req.peer == t.peer then t.original else e.req.peer;
      CutToggleReaches(clean, e, cut, row);
      assert ManagedToggle.Safe(original, Met(e.req, row));
      ManagedToggle.RequestStaysSafe(original, Met(e.req, row), e.req.enabled, e.req.faults);
    } else {
      OthersKeepTheToggle(clean, e.req, e.done, row);
    }
  }

  lemma {:induction false} ChainStaysSafe(clean: Cleaner, start: Row, t: Track, log: seq<Entry>, cuts: seq<nat>)
    requires |cuts| == |log| && SafeAt(t, start) && Chained(clean, start, t, log, cuts)
    ensures SafeAt(TrackOf(clean, start, t, log, cuts), Serial(clean, start, log))
  {
    if log != [] {
      var n := |log| - 1;
      ChainStaysSafe(clean, start, t, log[..n], cuts[..n]);
      JoinStaysSafe(clean, log[n], cuts[n], Serial(clean, start, log[..n]),
                    TrackOf(clean, start, t, log[..n], cuts[..n]));
    }
  }

  /** After any interleaving of any handlers, the toggles among them complete, cut short or under way, the managed
      connection is safe: its row and the peer as the toggles have left it lose nothing of the user's. */
  lemma ToggleSafeAmongOthers(clean: Cleaner, start: Row, t: Track, schedule: seq<(ThreadId, Action)>, cuts: seq<nat>)
    requires Feasible(clean, Initial(start), schedule) && SafeAt(t, start)
    requires var s := RunFrom(clean, Initial(start), schedule);
             s.row.Some? && |cuts| == |Log(s)| && Chained(clean, start, t, Log(s), cuts)
    ensures var s := RunFrom(clean, Initial(start), schedule);
            SafeAt(TrackOf(clean, start, t, Log(s), cuts), s.row.value)
  {
    EveryInterleavingIsSerial(clean, start, schedule);
    ChainStaysSafe(clean, start, t, Log(RunFrom(clean, Initial(start), schedule)), cuts);
  }

  // ---------------------------------------------------------------- toggles a connection does not have

  /** A connection type without toggles stores none: what is stored is what GetByID shows. */
  predicate NothingHidden(row: Row) {
    Scan(row) == row
  }

  lemma PerformHidesNothing(clean: Cleaner, req: Request, done: nat, row: Row)
    requires NothingHidden(row)
    ensures NothingHidden(Perform(clean, req, done, row))
  {
    if req.Toggle? {
      var s := ManagedToggle.State(req.peer, row.column, row.managed);
      ToggleWritesOnlyItsColumns(s, ManagedToggle.RequestTrace(s, req.enabled, req.faults));
      var ws := Writes(clean, req, Scan(row));
      ToggleColumnsOnly(ws[..if done <= |ws| then done else |ws|], row);
    } else {
      PerformShort(clean, req, done, row);
    }
  }

  /** No interleaving, type changes included, ever stores a toggle that nothing can read back. */
  lemma {:induction false} SerialHidesNothing(clean: Cleaner, start: Row, log: seq<Entry>)
    requires NothingHidden(start)
    ensures NothingHidden(Serial(clean, start, log))
  {
    if log != [] {
      SerialHidesNothing(clean, start, log[..|log| - 1]);
      PerformHidesNothing(clean, log[|log| - 1].req, log[|log| - 1].done, Serial(clean, start, log[..|log| - 1]));
    }
  }
}
