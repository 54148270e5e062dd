/** Registered model files and their cached verification.

    Files are edited, deleted and renamed behind the registry's back, and
    registrations and verifications interleave at their database statements; a
    row that was written is read back by a statement of its own.  A file's
    metadata and digest are read in one step. */
module ModelRegistry {
  import opened Prelude
  import opened Content

  datatype ModelFile = ModelFile(content: Bytes, modifiedAt: int)

  /** A `model_assets` row, keyed by id; the table is unique on `sha256`. */
  datatype Asset = Asset(
    sha256: string,
    sizeBytes: nat,
    externalPath: string,
    fileModifiedAt: int,
    lastVerifiedAt: int,
    available: bool)

  type Assets = map<nat, Asset>
  type Disk = map<string, ModelFile>

  /** What reading a model file shows. */
  datatype Observation = Observation(path: string, size: nat, modifiedAt: int, content: Bytes)

  function Observe(disk: Disk, path: string): Observation
    requires path in disk
  {
    Observation(path, |disk[path].content|, disk[path].modifiedAt, disk[path].content)
  }

  datatype RegistryError = NotARegularFile | DatabaseError | NoMatchingRow | RowDisappeared

  type Reply = Result<(nat, Asset), RegistryError>

  // ----- Statements ---------------------------------------------------------

  predicate HashKnown(rows: Assets, sha: string) {
    exists id :: id in rows && rows[id].sha256 == sha
  }

  predicate HashKnownElsewhere(rows: Assets, sha: string, id: nat) {
    exists other :: other in rows && other != id && rows[other].sha256 == sha
  }

  ghost predicate HashesUnique(rows: Assets) {
    forall i, j :: i in rows && j in rows && rows[i].sha256 == rows[j].sha256 ==> i == j
  }

  ghost function FindByHash(rows: Assets, sha: string): (id: nat)
    requires HashKnown(rows, sha)
    ensures id in rows && rows[id].sha256 == sha
  {
    var id :| id in rows && rows[id].sha256 == sha;
    id
  }

  datatype Statement = Done(rows: Assets) | UniqueViolation | CheckViolation

  function NewAsset(k: Codec, o: Observation, now: int): Asset {
    Asset(k.sha256(o.content), o.size, o.path, o.modifiedAt, now, true)
  }

  /** The table also checks that a model is not empty. */
  function InsertAsset(k: Codec, rows: Assets, id: nat, o: Observation, now: int): Statement {
    if o.size == 0 then CheckViolation
    else if id in rows || HashKnown(rows, k.sha256(o.content)) then UniqueViolation
    else Done(rows[id := NewAsset(k, o, now)])
  }

  function Rehashed(k: Codec, a: Asset, o: Observation, now: int): Asset {
    a.(sha256 := k.sha256(o.content), sizeBytes := o.size, fileModifiedAt := o.modifiedAt,
       lastVerifiedAt := now, available := true)
  }

  function UpdateAsset(k: Codec, rows: Assets, id: nat, o: Observation, now: int): Statement
    requires id in rows
  {
    if o.size == 0 then CheckViolation
    else if HashKnownElsewhere(rows, k.sha256(o.content), id) then UniqueViolation
    else Done(rows[id := Rehashed(k, rows[id], o, now)])
  }

  function MarkUnavailable(rows: Assets, id: nat): Assets
    requires id in rows
  {
    rows[id := rows[id].(available := false)]
  }

  /** The cheap comparison that lets `verify` skip the rehash. */
  predicate Unchanged(a: Asset, disk: Disk) {
    && a.externalPath in disk && a.available
    && a.sizeBytes == |disk[a.externalPath].content|
    && a.fileModifiedAt == disk[a.externalPath].modifiedAt
  }

  // ----- Interleaved operations ---------------------------------------------

  datatype Op =
    | ToLookUp(seen: Observation)
    | ToInsert(seen: Observation)
    | ToLookUpAgain(sha: string)
    | Loaded(id: nat, asset: Asset, full: bool)
    | ToUpdate(id: nat, seen: Observation)
    | ToMark(id: nat)
    | ToRead(id: nat)
    | Replied(reply: Reply)

  datatype Registry = Registry(disk: Disk, rows: Assets, ops: map<nat, Op>)

  datatype Event =
    | WriteFile(path: string, file: ModelFile)
    | DeleteFile(path: string)
    | RenameFile(path: string, to: string)
    | StartRegister(op: nat, path: string)
    | StartVerify(op: nat, id: nat, full: bool)
    | Proceed(op: nat, id: nat, now: int)

  /** The next statement of operation `op`; `id` is the fresh id an insert draws. */
  ghost function OpStep(k: Codec, s: Registry, op: nat, id: nat, now: int): Registry
    requires op in s.ops
  {
    match s.ops[op]
    case ToLookUp(o) =>
      var sha := k.sha256(o.content);
      s.(ops := s.ops[op := if HashKnown(s.rows, sha) then ReplyRow(s.rows, FindByHash(s.rows, sha)) else ToInsert(o)])
    case ToInsert(o) =>
      (match InsertAsset(k, s.rows, id, o, now)
       case Done(rows) => s.(rows := rows, ops := s.ops[op := ToRead(id)])
       case UniqueViolation => s.(ops := s.ops[op := ToLookUpAgain(k.sha256(o.content))])
       case CheckViolation => s.(ops := s.ops[op := Replied(Err(DatabaseError))]))
    case ToLookUpAgain(sha) =>
      s.(ops := s.ops[op := if HashKnown(s.rows, sha) then ReplyRow(s.rows, FindByHash(s.rows, sha))
                            else Replied(Err(NoMatchingRow))])
    case Loaded(row, asset, full) =>
      // The decision uses the row as it was loaded, which may be stale by now.
      s.(ops := s.ops[op := if asset.externalPath !in s.disk then ToMark(row)
                            else if !full && Unchanged(asset, s.disk) then Replied(Ok((row, asset)))
                            else ToUpdate(row, Observe(s.disk, asset.externalPath))])
    case ToUpdate(row, o) =>
      if row !in s.rows then s
      else
        (match UpdateAsset(k, s.rows, row, o, now)
         case Done(rows) => s.(rows := rows, ops := s.ops[op := ToRead(row)])
         case UniqueViolation => s.(ops := s.ops[op := ToMark(row)])
         case CheckViolation => s.(ops := s.ops[op := Replied(Err(DatabaseError))]))
    case ToMark(row) =>
      if row !in s.rows then s
      else s.(rows := MarkUnavailable(s.rows, row), ops := s.ops[op := ToRead(row)])
    case ToRead(row) =>
      // Other operations may have written the row since.
      s.(ops := s.ops[op := if row in s.rows then ReplyRow(s.rows, row) else Replied(Err(RowDisappeared))])
    case Replied(_) => s
  }

  function ReplyRow(rows: Assets, id: nat): Op
    requires id in rows
  {
    Replied(Ok((id, rows[id])))
  }

  ghost function Step(k: Codec, s: Registry, e: Event): Registry {
    match e
    case WriteFile(path, file) => s.(disk := s.disk[path := file])
    case DeleteFile(path) => s.(disk := s.disk - {path})
    case RenameFile(path, to) =>
      if path in s.disk then s.(disk := (s.disk - {path})[to := s.disk[path]]) else s
    case StartRegister(op, path) =>
      if op in s.ops then s
      else s.(ops := s.ops[op := if path in s.disk then ToLookUp(Observe(s.disk, path)) else Replied(Err(NotARegularFile))])
    case StartVerify(op, id, full) =>
      if op in s.ops || id !in s.rows then s
      else s.(ops := s.ops[op := Loaded(id, s.rows[id], full)])
    case Proceed(op, id, now) =>
      if op in s.ops then OpStep(k, s, op, id, now) else s
  }

  ghost function After(k: Codec, history: seq<Event>): Registry {
    if history == [] then Registry(map[], map[], map[])
    else Step(k, After(k, history[..|history| - 1]), history[|history| - 1])
  }

  /** Everything any path has shown so far. */
  ghost function Shown(k: Codec, history: seq<Event>): set<Observation> {
    if history == [] then {}
    else
      var before := history[..|history| - 1];
      Shown(k, before) + Showing(After(k, history).disk)
  }

  ghost function Showing(disk: Disk): set<Observation> {
    set path | path in disk :: Observe(disk, path)
  }

  predicate SameMetadata(a: Observation, b: Observation) {
    a.path == b.path && a.size == b.size && a.modifiedAt == b.modifiedAt
  }

  /** One path never shows two contents under the same size and modification
      time: what the cache relies on. */
  ghost predicate EditsChangeMetadata(shown: set<Observation>) {
    forall a, b :: a in shown && b in shown && SameMetadata(a, b) ==> a.content == b.content
  }

  // ----- Invariant ----------------------------------------------------------

  /** The row's digest, size and time all come from one observation of its path. */
  ghost predicate Grounded(k: Codec, shown: set<Observation>, a: Asset) {
    exists o :: o in shown && Records(k, a, o)
  }

  ghost predicate Records(k: Codec, a: Asset, o: Observation) {
    && a.externalPath == o.path && a.sizeBytes == o.size && a.fileModifiedAt == o.modifiedAt
    && a.sha256 == k.sha256(o.content)
  }

  ghost predicate OpGrounded(k: Codec, shown: set<Observation>, rows: Assets, op: Op) {
    match op
    case ToLookUp(o) => o in shown
    case ToInsert(o) => o in shown
    case ToLookUpAgain(_) => true
    case Loaded(id, asset, _) => id in rows && rows[id].externalPath == asset.externalPath && Grounded(k, shown, asset)
    case ToUpdate(id, o) => id in rows && rows[id].externalPath == o.path && o in shown
    case ToMark(id) => id in rows
    case ToRead(id) => id in rows
    case Replied(r) => if r.Ok? then r.value.0 in rows && Grounded(k, shown, r.value.1) else r.error != RowDisappeared
  }

  ghost predicate Inv(k: Codec, s: Registry, shown: set<Observation>) {
    && Showing(s.disk) <= shown
    && HashesUnique(s.rows)
    && (forall id :: id in s.rows ==> s.rows[id].sizeBytes > 0 && Grounded(k, shown, s.rows[id]))
    && (forall op :: op in s.ops ==> OpGrounded(k, shown, s.rows, s.ops[op]))
  }

  lemma GroundedStays(k: Codec, shown: set<Observation>, more: set<Observation>, a: Asset)
    requires shown <= more && Grounded(k, shown, a)
    ensures Grounded(k, more, a)
  {
    var o :| o in shown && Records(k, a, o);
    assert o in more;
  }

  /** More observations, same table: everything stays grounded. */
  lemma InvStays(k: Codec, s: Registry, shown: set<Observation>, disk: Disk)
    requires Inv(k, s, shown)
    ensures Inv(k, s.(disk := disk), shown + Showing(disk))
  {
    var more := shown + Showing(disk);
    forall a | Grounded(k, shown, a) ensures Grounded(k, more, a) {
      GroundedStays(k, shown, more, a);
    }
  }

  /** A table that keeps rows and their paths, and the next state of one
      operation, keep the invariant when they are grounded themselves. */
  lemma AdvanceKeepsInv(k: Codec, s: Registry, shown: set<Observation>, rows: Assets, op: nat, next: Op)
    requires Inv(k, s, shown)
    requires HashesUnique(rows) && s.rows.Keys <= rows.Keys
    requires forall id :: id in s.rows ==> rows[id].externalPath == s.rows[id].externalPath
    requires forall id :: id in rows ==> rows[id].sizeBytes > 0 && Grounded(k, shown, rows[id])
    requires OpGrounded(k, shown, rows, next)
    ensures Inv(k, s.(rows := rows, ops := s.ops[op := next]), shown)
  {
  }

  lemma MarkKeepsInv(k: Codec, s: Registry, op: nat, id: nat, now: int, shown: set<Observation>)
    requires Inv(k, s, shown) && op in s.ops && s.ops[op].ToMark?
    ensures Inv(k, OpStep(k, s, op, id, now), shown)
  {
    var row := s.ops[op].id;
    var o :| o in shown && Records(k, s.rows[row], o);
    assert Records(k, s.rows[row].(available := false), o);
    AdvanceKeepsInv(k, s, shown, MarkUnavailable(s.rows, row), op, ToRead(row));
  }

  lemma UpdateKeepsInv(k: Codec, s: Registry, op: nat, id: nat, now: int, shown: set<Observation>)
    requires Inv(k, s, shown) && op in s.ops && s.ops[op].ToUpdate?
    ensures Inv(k, OpStep(k, s, op, id, now), shown)
  {
    var row, o := s.ops[op].id, s.ops[op].seen;
    match UpdateAsset(k, s.rows, row, o, now)
    case Done(rows) =>
      assert Records(k, Rehashed(k, s.rows[row], o, now), o);
      AdvanceKeepsInv(k, s, shown, rows, op, ToRead(row));
    case UniqueViolation => AdvanceKeepsInv(k, s, shown, s.rows, op, ToMark(row));
    case CheckViolation => AdvanceKeepsInv(k, s, shown, s.rows, op, Replied(Err(DatabaseError)));
  }

  lemma InsertKeepsInv(k: Codec, s: Registry, op: nat, id: nat, now: int, shown: set<Observation>)
    requires Inv(k, s, shown) && op in s.ops && s.ops[op].ToInsert?
    ensures Inv(k, OpStep(k, s, op, id, now), shown)
  {
    var o := s.ops[op].seen;
    match InsertAsset(k, s.rows, id, o, now)
    case Done(rows) =>
      assert Records(k, NewAsset(k, o, now), o);
      AdvanceKeepsInv(k, s, shown, rows, op, ToRead(id));
    case UniqueViolation => AdvanceKeepsInv(k, s, shown, s.rows, op, ToLookUpAgain(k.sha256(o.content)));
    case CheckViolation => AdvanceKeepsInv(k, s, shown, s.rows, op, Replied(Err(DatabaseError)));
  }

  lemma OpStepKeepsInv(k: Codec, s: Registry, op: nat, id: nat, now: int, shown: set<Observation>)
    requires Inv(k, s, shown) && op in s.ops
    ensures Inv(k, OpStep(k, s, op, id, now), shown)
  {
    match s.ops[op]
    case ToInsert(_) => InsertKeepsInv(k, s, op, id, now, shown);
    case ToUpdate(_, _) => UpdateKeepsInv(k, s, op, id, now, shown);
    case ToMark(_) => MarkKeepsInv(k, s, op, id, now, shown);
    case Loaded(row, asset, full) =>
      if asset.externalPath in s.disk {
        assert Observe(s.disk, asset.externalPath) in Showing(s.disk);
      }
      AdvanceKeepsInv(k, s, shown, s.rows, op, OpStep(k, s, op, id, now).ops[op]);
    case _ =>
      AdvanceKeepsInv(k, s, shown, s.rows, op, OpStep(k, s, op, id, now).ops[op]);
  }

  lemma StepKeepsInv(k: Codec, s: Registry, e: Event, shown: set<Observation>)
    requires Inv(k, s, shown)
    ensures Inv(k, Step(k, s, e), shown + Showing(Step(k, s, e).disk))
  {
    var t := Step(k, s, e);
    if e.Proceed? && e.op in s.ops {
      OpStepKeepsInv(k, s, e.op, e.id, e.now, shown);
      InvStays(k, t, shown, t.disk);
    } else if e.StartRegister? || e.StartVerify? {
      StartKeepsInv(k, s, e, shown);
      InvStays(k, t, shown, t.disk);
    } else {
      assert t == s.(disk := t.disk);
      InvStays(k, s, shown, t.disk);
    }
  }

  lemma StartKeepsInv(k: Codec, s: Registry, e: Event, shown: set<Observation>)
    requires Inv(k, s, shown) && (e.StartRegister? || e.StartVerify?)
    ensures Inv(k, Step(k, s, e), shown)
  {
    if e.StartRegister? && e.path in s.disk {
      assert Observe(s.disk, e.path) in Showing(s.disk);
    }
  }

  lemma {:induction false} InvHolds(k: Codec, history: seq<Event>)
    ensures Inv(k, After(k, history), Shown(k, history))
  {
    if history != [] {
      var before := history[..|history| - 1];
      InvHolds(k, before);
      StepKeepsInv(k, After(k, before), history[|history| - 1], Shown(k, before));
    }
  }

  // ----- Main results -------------------------------------------------------

  lemma MatchingRowHasHash(k: Codec, shown: set<Observation>, disk: Disk, a: Asset)
    requires EditsChangeMetadata(shown) && Showing(disk) <= shown && Grounded(k, shown, a)
    requires a.externalPath in disk
    requires a.sizeBytes == |disk[a.externalPath].content| && a.fileModifiedAt == disk[a.externalPath].modifiedAt
    ensures a.sha256 == k.sha256(disk[a.externalPath].content)
  {
    var o :| o in shown && Records(k, a, o);
    assert Observe(disk, a.externalPath) in Showing(disk);
  }

  /** Over every history: a row whose recorded size and time match its file has
      the digest of the file's current content. */
  lemma CacheIsSound(k: Codec, history: seq<Event>, id: nat)
    requires EditsChangeMetadata(Shown(k, history))
    requires
      var s := After(k, history);
      id in s.rows && Unchanged(s.rows[id], s.disk)
    ensures
      var s := After(k, history);
      s.rows[id].sha256 == k.sha256(s.disk[s.rows[id].externalPath].content)
  {
    InvHolds(k, history);
    var s := After(k, history);
    MatchingRowHasHash(k, Shown(k, history), s.disk, s.rows[id]);
  }

  /** A verification answered from the cache - from a row loaded any number of
      events ago - names the content the file has when it answers. */
  lemma CachedAnswerIsSound(k: Codec, history: seq<Event>, op: nat)
    requires EditsChangeMetadata(Shown(k, history))
    requires
      var s := After(k, history);
      op in s.ops && s.ops[op].Loaded? && Unchanged(s.ops[op].asset, s.disk)
    ensures
      var s := After(k, history);
      s.ops[op].asset.sha256 == k.sha256(s.disk[s.ops[op].asset.externalPath].content)
  {
    InvHolds(k, history);
    var s := After(k, history);
    MatchingRowHasHash(k, Shown(k, history), s.disk, s.ops[op].asset);
  }

  /** Registrations of one content converge on one row. */
  lemma OneRowPerContent(k: Codec, history: seq<Event>, i: nat, j: nat)
    requires
      var rows := After(k, history).rows;
      i in rows && j in rows && rows[i].sha256 == rows[j].sha256
    ensures i == j
  {
    InvHolds(k, history);
  }

  /** A row that was written is there when it is read back. */
  lemma RowsNeverDisappear(k: Codec, history: seq<Event>, op: nat)
    requires op in After(k, history).ops
    ensures After(k, history).ops[op] != Replied(Err(RowDisappeared))
  {
    InvHolds(k, history);
  }

  // ----- An operation run without interruption ------------------------------

  datatype Verified = Verified(rows: Assets, reply: Reply)

  function Marked(rows: Assets, id: nat): Verified
    requires id in rows
  {
    Verified(MarkUnavailable(rows, id), Ok((id, MarkUnavailable(rows, id)[id])))
  }

  function RehashAndReconcile(k: Codec, rows: Assets, id: nat, o: Observation, now: int): Verified
    requires id in rows
  {
    match UpdateAsset(k, rows, id, o, now)
    case Done(rows') => Verified(rows', Ok((id, rows'[id])))
    case UniqueViolation => Marked(rows, id)
    case CheckViolation => Verified(rows, Err(DatabaseError))
  }

  /** `verify_full` when `full`, otherwise `verify`, of a freshly loaded row. */
  function Verify(k: Codec, disk: Disk, rows: Assets, id: nat, full: bool, now: int): Verified
    requires id in rows
  {
    var a := rows[id];
    if a.externalPath !in disk then Marked(rows, id)
    else if !full && Unchanged(a, disk) then Verified(rows, Ok((id, a)))
    else RehashAndReconcile(k, rows, id, Observe(disk, a.externalPath), now)
  }

  /** Registers the file at `path`; `id` is the id an insert draws. */
  ghost function Register(k: Codec, disk: Disk, rows: Assets, path: string, id: nat, now: int): Verified {
    if path !in disk then Verified(rows, Err(NotARegularFile))
    else
      var o := Observe(disk, path);
      var sha := k.sha256(o.content);
      if HashKnown(rows, sha) then Verified(rows, Ok((FindByHash(rows, sha), rows[FindByHash(rows, sha)])))
      else
        match InsertAsset(k, rows, id, o, now)
        case Done(rows') => Verified(rows', Ok((id, rows'[id])))
        case UniqueViolation => Verified(rows, Err(NoMatchingRow))
        case CheckViolation => Verified(rows, Err(DatabaseError))
  }

  /** A content registered once is registered: from any path, later
      registrations of it return the first one's row and change nothing. */
  lemma RegisteringAgainReuses(k: Codec, disk: Disk, rows: Assets, path: string, id: nat, now: int,
                               other: string, id': nat, now': int)
    requires HashesUnique(rows)
    requires Register(k, disk, rows, path, id, now).reply.Ok?
    requires other in disk && disk[other].content == disk[path].content
    ensures
      var first := Register(k, disk, rows, path, id, now);
      var second := Register(k, disk, first.rows, other, id', now');
      second.rows == first.rows && second.reply == first.reply && HashesUnique(first.rows)
  {
    var first := Register(k, disk, rows, path, id, now);
    var sha := k.sha256(disk[path].content);
    assert first.reply.value.0 in first.rows && first.rows[first.reply.value.0].sha256 == sha;
    assert HashKnown(first.rows, sha);
  }

  /** Equal in everything but the time of the last verification. */
  predicate SameButTime(a: Asset, b: Asset) {
    a == b.(lastVerifiedAt := a.lastVerifiedAt)
  }

  ghost predicate AgreeButTime(v: Verified, w: Verified) {
    && v.rows.Keys == w.rows.Keys
    && (forall id :: id in v.rows ==> SameButTime(v.rows[id], w.rows[id]))
    && match (v.reply, w.reply)
       case (Ok(x), Ok(y)) => x.0 == y.0 && SameButTime(x.1, y.1)
       case (Err(x), Err(y)) => x == y
       case _ => false
  }

  /** The file was edited without its size or modification time showing it. */
  predicate EditedSilently(k: Codec, disk: Disk, a: Asset) {
    Unchanged(a, disk) && a.sha256 != k.sha256(disk[a.externalPath].content)
  }

  /** `verify` and `verify_full` agree on a fresh row, except for the time of
      verification, exactly when the file was not silently edited. */
  lemma VerifyAgreesExactly(k: Codec, disk: Disk, rows: Assets, id: nat, now: int)
    requires HashesUnique(rows) && id in rows && rows[id].sizeBytes > 0
    ensures AgreeButTime(Verify(k, disk, rows, id, false, now), Verify(k, disk, rows, id, true, now))
      <==> !EditedSilently(k, disk, rows[id])
  {
    var a := rows[id];
    var cheap := Verify(k, disk, rows, id, false, now);
    var full := Verify(k, disk, rows, id, true, now);
    if Unchanged(a, disk) {
      var o := Observe(disk, a.externalPath);
      assert full == RehashAndReconcile(k, rows, id, o, now);
      if a.sha256 == k.sha256(o.content) {
        assert !HashKnownElsewhere(rows, a.sha256, id);
        assert full.rows == rows[id := Rehashed(k, a, o, now)];
      } else {
        assert cheap.reply == Ok((id, a));
      }
    } else {
      assert cheap == full;
    }
  }

  /** So in every history whose edits show in the metadata they agree. */
  lemma VerifyAgreesInEveryHistory(k: Codec, history: seq<Event>, id: nat, now: int)
    requires EditsChangeMetadata(Shown(k, history)) && id in After(k, history).rows
    ensures
      var s := After(k, history);
      AgreeButTime(Verify(k, s.disk, s.rows, id, false, now), Verify(k, s.disk, s.rows, id, true, now))
  {
    InvHolds(k, history);
    var s := After(k, history);
    if Unchanged(s.rows[id], s.disk) {
      CacheIsSound(k, history, id);
    }
    VerifyAgreesExactly(k, s.disk, s.rows, id, now);
  }

  lemma AfterSnoc(k: Codec, history: seq<Event>, e: Event)
    ensures After(k, history + [e]) == Step(k, After(k, history), e)
  {
    assert (history + [e])[..|history|] == history;
  }

  /** The operation has replied `v.reply`, leaving the rows `v.rows`. */
  ghost predicate EndsIn(s: Registry, op: nat, disk: Disk, v: Verified) {
    s.rows == v.rows && op in s.ops && s.ops[op] == Replied(v.reply) && s.disk == disk
  }

  lemma RepliedStays(k: Codec, s: Registry, op: nat, disk: Disk, v: Verified, id: nat, now: int)
    requires EndsIn(s, op, disk, v)
    ensures EndsIn(OpStep(k, s, op, id, now), op, disk, v)
  {
  }

  /** `n` statements of operation `op` in a row. */
  ghost function OpSteps(k: Codec, s: Registry, op: nat, id: nat, now: int, n: nat): Registry
    requires op in s.ops
    decreases n
  {
    if n == 0 then s
    else
      var t := OpStep(k, s, op, id, now);
      assert op in t.ops;
      OpSteps(k, t, op, id, now, n - 1)
  }

  lemma {:induction false} RepliedStaysOn(k: Codec, s: Registry, op: nat, disk: Disk, v: Verified, id: nat, now: int, n: nat)
    requires EndsIn(s, op, disk, v)
    ensures EndsIn(OpSteps(k, s, op, id, now, n), op, disk, v)
  {
    if n > 0 {
      RepliedStays(k, s, op, disk, v, id, now);
      RepliedStaysOn(k, OpStep(k, s, op, id, now), op, disk, v, id, now, n - 1);
    }
  }

  /** A row just written is read back as it was written. */
  lemma ReadsBackWritten(k: Codec, s: Registry, op: nat, row: nat, id: nat, now: int, n: nat)
    requires op in s.ops && s.ops[op] == ToRead(row) && row in s.rows && n >= 1
    ensures EndsIn(OpSteps(k, s, op, id, now, n), op, s.disk, Verified(s.rows, Ok((row, s.rows[row]))))
  {
    RepliedStaysOn(k, OpStep(k, s, op, id, now), op, s.disk, Verified(s.rows, Ok((row, s.rows[row]))), id, now, n - 1);
  }

  lemma MarkSteps(k: Codec, s: Registry, op: nat, row: nat, id: nat, now: int, n: nat)
    requires op in s.ops && s.ops[op] == ToMark(row) && row in s.rows && n >= 2
    ensures EndsIn(OpSteps(k, s, op, id, now, n), op, s.disk, Marked(s.rows, row))
  {
    ReadsBackWritten(k, OpStep(k, s, op, id, now), op, row, id, now, n - 1);
  }

  lemma UpdateSteps(k: Codec, s: Registry, op: nat, row: nat, o: Observation, id: nat, now: int, n: nat)
    requires op in s.ops && s.ops[op] == ToUpdate(row, o) && row in s.rows && n >= 3
    ensures EndsIn(OpSteps(k, s, op, id, now, n), op, s.disk, RehashAndReconcile(k, s.rows, row, o, now))
  {
    var t := OpStep(k, s, op, id, now);
    match UpdateAsset(k, s.rows, row, o, now)
    case Done(_) => ReadsBackWritten(k, t, op, row, id, now, n - 1);
    case UniqueViolation => MarkSteps(k, t, op, row, id, now, n - 1);
    case CheckViolation => RepliedStaysOn(k, t, op, s.disk, RehashAndReconcile(k, s.rows, row, o, now), id, now, n - 1);
  }

  lemma LoadedSteps(k: Codec, s: Registry, op: nat, row: nat, full: bool, id: nat, now: int)
    requires op in s.ops && row in s.rows && s.ops[op] == Loaded(row, s.rows[row], full)
    ensures EndsIn(OpSteps(k, s, op, id, now, 4), op, s.disk, Verify(k, s.disk, s.rows, row, full, now))
  {
    var a := s.rows[row];
    var t := OpStep(k, s, op, id, now);
    if a.externalPath !in s.disk {
      MarkSteps(k, t, op, row, id, now, 3);
    } else if !full && Unchanged(a, s.disk) {
      RepliedStaysOn(k, t, op, s.disk, Verify(k, s.disk, s.rows, row, full, now), id, now, 3);
    } else {
      UpdateSteps(k, t, op, row, Observe(s.disk, a.externalPath), id, now, 3);
    }
  }

  lemma LookUpAgainSteps(k: Codec, s: Registry, op: nat, sha: string, id: nat, now: int)
    requires op in s.ops && s.ops[op] == ToLookUpAgain(sha) && !HashKnown(s.rows, sha)
    ensures EndsIn(OpSteps(k, s, op, id, now, 1), op, s.disk, Verified(s.rows, Err(NoMatchingRow)))
  {
    RepliedStaysOn(k, OpStep(k, s, op, id, now), op, s.disk, Verified(s.rows, Err(NoMatchingRow)), id, now, 0);
  }

  lemma RegisterSteps(k: Codec, s: Registry, op: nat, path: string, id: nat, now: int)
    requires op in s.ops
    requires s.ops[op] == if path in s.disk then ToLookUp(Observe(s.disk, path)) else Replied(Err(NotARegularFile))
    ensures EndsIn(OpSteps(k, s, op, id, now, 3), op, s.disk, Register(k, s.disk, s.rows, path, id, now))
  {
    var v := Register(k, s.disk, s.rows, path, id, now);
    if path !in s.disk {
      RepliedStaysOn(k, s, op, s.disk, v, id, now, 3);
    } else {
      var o := Observe(s.disk, path);
      var t := OpStep(k, s, op, id, now);
      if HashKnown(s.rows, k.sha256(o.content)) {
        RepliedStaysOn(k, t, op, s.disk, v, id, now, 2);
      } else {
        var u := OpStep(k, t, op, id, now);
        match InsertAsset(k, s.rows, id, o, now)
        case Done(_) => ReadsBackWritten(k, u, op, id, id, now, 1);
        case UniqueViolation => LookUpAgainSteps(k, u, op, k.sha256(o.content), id, now);
        case CheckViolation => RepliedStaysOn(k, u, op, s.disk, v, id, now, 1);
      }
    }
  }

  /** `op` goes on for `n` statements. */
  function Proceeding(op: nat, id: nat, now: int, n: nat): seq<Event> {
    if n == 0 then [] else [Proceed(op, id, now)] + Proceeding(op, id, now, n - 1)
  }

  lemma ProceedStep(k: Codec, history: seq<Event>, op: nat, id: nat, now: int)
    requires op in After(k, history).ops
    ensures After(k, history + [Proceed(op, id, now)]) == OpStep(k, After(k, history), op, id, now)
    ensures op in After(k, history + [Proceed(op, id, now)]).ops
  {
    AfterSnoc(k, history, Proceed(op, id, now));
  }

  lemma OpStepsNext(k: Codec, s: Registry, t: Registry, op: nat, id: nat, now: int, n: nat)
    requires op in s.ops && t == OpStep(k, s, op, id, now) && op in t.ops && n > 0
    ensures OpSteps(k, s, op, id, now, n) == OpSteps(k, t, op, id, now, n - 1)
  {
  }

  lemma {:induction false} AfterProceeding(k: Codec, history: seq<Event>, op: nat, id: nat, now: int, n: nat)
    requires op in After(k, history).ops
    ensures After(k, history + Proceeding(op, id, now, n)) == OpSteps(k, After(k, history), op, id, now, n)
    decreases n
  {
    if n == 0 {
      assert history + Proceeding(op, id, now, 0) == history;
    } else {
      var next := history + [Proceed(op, id, now)];
      ProceedStep(k, history, op, id, now);
      AfterProceeding(k, next, op, id, now, n - 1);
      assert history + Proceeding(op, id, now, n) == next + Proceeding(op, id, now, n - 1);
      OpStepsNext(k, After(k, history), After(k, next), op, id, now, n);
    }
  }

  function VerifyEvents(op: nat, row: nat, full: bool, id: nat, now: int): seq<Event> {
    [StartVerify(op, row, full)] + Proceeding(op, id, now, 4)
  }

  function RegisterEvents(op: nat, path: string, id: nat, now: int): seq<Event> {
    [StartRegister(op, path)] + Proceeding(op, id, now, 3)
  }

  lemma ProceedsFrom(k: Codec, history: seq<Event>, start: Event, op: nat, id: nat, now: int, n: nat)
    requires op in Step(k, After(k, history), start).ops
    ensures After(k, history + ([start] + Proceeding(op, id, now, n))) ==
      OpSteps(k, Step(k, After(k, history), start), op, id, now, n)
  {
    AfterSnoc(k, history, start);
    AfterProceeding(k, history + [start], op, id, now, n);
    assert history + ([start] + Proceeding(op, id, now, n)) == history + [start] + Proceeding(op, id, now, n);
  }

  lemma StartedVerify(k: Codec, s: Registry, op: nat, row: nat, full: bool, id: nat, now: int)
    requires op !in s.ops && row in s.rows
    ensures
      var t := Step(k, s, StartVerify(op, row, full));
      op in t.ops && EndsIn(OpSteps(k, t, op, id, now, 4), op, s.disk, Verify(k, s.disk, s.rows, row, full, now))
  {
    LoadedSteps(k, Step(k, s, StartVerify(op, row, full)), op, row, full, id, now);
  }

  lemma StartedRegister(k: Codec, s: Registry, op: nat, path: string, id: nat, now: int)
    requires op !in s.ops
    ensures
      var t := Step(k, s, StartRegister(op, path));
      op in t.ops && EndsIn(OpSteps(k, t, op, id, now, 3), op, s.disk, Register(k, s.disk, s.rows, path, id, now))
  {
    RegisterSteps(k, Step(k, s, StartRegister(op, path)), op, path, id, now);
  }

  /** The uninterrupted operation is what its statements do one after the other. */
  lemma VerifyIsItsSteps(k: Codec, history: seq<Event>, op: nat, row: nat, full: bool, id: nat, now: int)
    requires op !in After(k, history).ops && row in After(k, history).rows
    ensures
      var s := After(k, history);
      EndsIn(After(k, history + VerifyEvents(op, row, full, id, now)), op, s.disk,
             Verify(k, s.disk, s.rows, row, full, now))
  {
    StartedVerify(k, After(k, history), op, row, full, id, now);
    ProceedsFrom(k, history, StartVerify(op, row, full), op, id, now, 4);
  }

  /** So is a registration. */
  lemma RegisterIsItsSteps(k: Codec, history: seq<Event>, op: nat, path: string, id: nat, now: int)
    requires op !in After(k, history).ops
    ensures
      var s := After(k, history);
      EndsIn(After(k, history + RegisterEvents(op, path, id, now)), op, s.disk,
             Register(k, s.disk, s.rows, path, id, now))
  {
    StartedRegister(k, After(k, history), op, path, id, now);
    ProceedsFrom(k, history, StartRegister(op, path), op, id, now, 3);
  }

  /** An edit that keeps size and modification time goes unnoticed: the
      assumption on edits cannot be dropped. */
  lemma SilentEditGoesUnnoticed(k: Codec, path: string, old_: Bytes, new_: Bytes, time: int)
    requires k.Lawful() && |old_| == |new_| > 0 && old_ != new_
    ensures
      var history := [WriteFile(path, ModelFile(old_, time)), StartRegister(0, path), Proceed(0, 0, 1), Proceed(0, 5, 1),
                      WriteFile(path, ModelFile(new_, time))];
      var s := After(k, history);
      && 5 in s.rows && EditedSilently(k, s.disk, s.rows[5])
      && Verify(k, s.disk, s.rows, 5, false, 2).reply == Ok((5, s.rows[5]))
      && s.rows[5].sha256 == k.sha256(old_)
  {
    var file := ModelFile(old_, time);
    var s1 := Step(k, After(k, []), WriteFile(path, file));
    var s2 := Step(k, s1, StartRegister(0, path));
    var s3 := Step(k, s2, Proceed(0, 0, 1));
    assert s3.ops == map[0 := ToInsert(Observation(path, |old_|, time, old_))];
    var s4 := Step(k, s3, Proceed(0, 5, 1));
    assert s4.rows == map[5 := NewAsset(k, Observation(path, |old_|, time, old_), 1)];
    AfterSnoc(k, [], WriteFile(path, file));
    AfterSnoc(k, [] + [WriteFile(path, file)], StartRegister(0, path));
    AfterSnoc(k, [] + [WriteFile(path, file)] + [StartRegister(0, path)], Proceed(0, 0, 1));
    AfterSnoc(k, [] + [WriteFile(path, file)] + [StartRegister(0, path)] + [Proceed(0, 0, 1)], Proceed(0, 5, 1));
    AfterSnoc(k, [] + [WriteFile(path, file)] + [StartRegister(0, path)] + [Proceed(0, 0, 1)] + [Proceed(0, 5, 1)],
              WriteFile(path, ModelFile(new_, time)));
    assert [WriteFile(path, file), StartRegister(0, path), Proceed(0, 0, 1), Proceed(0, 5, 1),
            WriteFile(path, ModelFile(new_, time))]
      == [] + [WriteFile(path, file)] + [StartRegister(0, path)] + [Proceed(0, 0, 1)] + [Proceed(0, 5, 1)]
         + [WriteFile(path, ModelFile(new_, time))];
  }
}
