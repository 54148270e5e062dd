/** The artifact store as the server runs it: disk, temporary directory and
    table are updated in place, one statement of `store_artifact` at a time. */
module ArtifactStore {
  import opened Prelude
  import opened Content
  import opened ArtifactProtocol
  import opened ArtifactInvariants
  import opened Integrity
  import opened ReadBack
  import Upload

  /** The row's blob is the whole encoding of the content it describes, unless it
      was unlinked out of band and never put back. */
  ghost predicate Backed(k: Codec, run: seq<Event>, files: map<string, Bytes>, row: Row, c: Bytes) {
    && Describes(k, row, c)
    && if row.storagePath in files then files[row.storagePath] == c || files[row.storagePath] == k.compress(c)
       else UnlinkedForGood(k, run, row.storagePath)
  }

  /** The kinds that are stored compressed. */
  predicate IsText(kind: ArtifactKind) {
    kind in {Stdout, Stderr, CrashLog, Logcat, CorrectnessReport}
  }

  ghost predicate RowsBacked(k: Codec, run: seq<Event>, files: map<string, Bytes>, rows: map<nat, Row>) {
    forall id :: id in rows ==> exists c :: Backed(k, run, files, rows[id], c)
  }

  /** No row is changed or removed. */
  ghost predicate RowsKept(before: map<nat, Row>, after: map<nat, Row>) {
    forall id :: id in before ==> id in after && after[id] == before[id]
  }

  /** Only upload `w` moves on, and what it uploads stays the same. */
  ghost predicate OnlyMoves(before: map<nat, Writer>, after: map<nat, Writer>, w: nat) {
    && w in before && after.Keys == before.Keys
    && after[w].kind == before[w].kind && after[w].body == before[w].body
    && forall v :: v in before && v != w ==> after[v] == before[v]
  }

  lemma RunIsSound(k: Codec, run: seq<Event>)
    requires k.Lawful()
    ensures
      var s := After(k, run);
      && RowsBacked(k, run, s.files, s.rows) && RowsUnique(s.rows) && RepliesValid(k, s) && TempsComplete(k, s)
  {
    var s := After(k, run);
    InvHolds(k, run);
    forall id | id in s.rows ensures exists c :: Backed(k, run, s.files, s.rows[id], c) {
      var c :| Describes(k, s.rows[id], c);
      RowIsBacked(k, run, id, c);
    }
  }

  lemma RowIsBacked(k: Codec, run: seq<Event>, id: nat, c: Bytes)
    requires k.Lawful() && id in After(k, run).rows && Describes(k, After(k, run).rows[id], c)
    ensures Backed(k, run, After(k, run).files, After(k, run).rows[id], c)
  {
    var s := After(k, run);
    InvHolds(k, run);
    MissingReportIsExact(k, run, id);
    var path := s.rows[id].storagePath;
    if path in s.files {
      assert CompleteBlob(k, path, s.files[path]);
      var d :| path == PathOf(k, d) && (s.files[path] == d || s.files[path] == k.compress(d));
      PathsAreInjective(k.sha256(c), k.sha256(d));
    }
  }

  lemma StepKeepsRowsAsTheyWere(k: Codec, s: Store, e: Event)
    ensures RowsKept(s.rows, Step(k, s, e).rows)
  {
    StepEffects(k, s, e);
  }

  /** Which system calls and statements of one upload succeed. */
  datatype Calls = Calls(
    copyOk: bool, copyUnlinked: bool, statOk: bool, unlinkOk: bool, renameOk: bool, statAgainOk: bool,
    unlinkedAgain: bool, findOk: bool, insertOk: bool, findAgainOk: bool)
  {
    predicate AllSucceed() {
      copyOk && statOk && unlinkOk && renameOk && statAgainOk && findOk && insertOk && findAgainOk
    }
  }

  class ArtifactStore {
    const codec: Codec
    var files: map<string, Bytes>
    var temps: map<nat, Bytes>
    var modified: map<nat, int>
    var rows: map<nat, Row>
    var writers: map<nat, Writer>

    /** Every statement executed so far, of all uploads. */
    ghost var run: seq<Event>

    ghost function Snapshot(): Store
      reads this
    {
      Store(files, temps, rows, writers)
    }

    /** The object is where the protocol is after the same events; each temporary
        file has a modification time. */
    ghost predicate Valid()
      reads this
    {
      codec.Lawful() && Snapshot() == After(codec, run) && temps.Keys <= modified.Keys
    }

    /** What every caller can rely on between any two statements. */
    ghost predicate Promises()
      reads this
    {
      && RowsBacked(codec, run, files, rows) && RowsUnique(rows)
      && RepliesValid(codec, Snapshot()) && TempsComplete(codec, Snapshot())
    }

    lemma Keeps()
      requires Valid()
      ensures Promises()
    {
      RunIsSound(codec, run);
    }

    /** One more statement has been executed as the protocol does. */
    lemma Advances(before: Store, earlier: seq<Event>, e: Event)
      requires codec.Lawful() && temps.Keys <= modified.Keys
      requires before == After(codec, earlier) && run == earlier + [e]
      requires Snapshot() == Step(codec, before, e)
      ensures Valid() && RowsKept(before.rows, rows)
    {
      AfterSnoc(codec, earlier, e);
      StepKeepsRowsAsTheyWere(codec, before, e);
    }

    /** The reply of an upload that has returned: the content's row, with its blob. */
    ghost predicate Honours(w: nat)
      reads this
      requires w in writers
    {
      writers[w].pc.Returned? ==>
        var body, a := writers[w].body, writers[w].pc.artifact;
        && a.sha256 == codec.sha256(body) && a.sizeBytes == |body|
        && a.compression == (if IsText(writers[w].kind) then Zstd else Uncompressed)
        && a.id in rows && Matches(rows[a.id], codec.sha256(body), |body|)
        && rows[a.id].storagePath == PathOf(codec, body) && Backed(codec, run, files, rows[a.id], body)
    }

    lemma HonoursReply(w: nat)
      requires Valid() && w in writers
      ensures Honours(w)
    {
      Keeps();
      if writers[w].pc.Returned? {
        assert ReplyIsValid(codec, rows, writers[w]);
        var id := writers[w].pc.artifact.id;
        var c :| Backed(codec, run, files, rows[id], c);
        assert c == writers[w].body;
      }
    }

    /** A file is at the upload's final path, unless it was unlinked out of band. */
    ghost predicate HasBlob(w: nat)
      reads this
      requires w in writers
    {
      var path := PathOf(codec, writers[w].body);
      path in files || UnlinkedForGood(codec, run, path)
    }

    lemma LandedHasBlob(w: nat)
      requires Valid() && w in writers
      ensures HasLanded(writers[w].pc) ==> HasBlob(w)
    {
      InvHolds(codec, run);
      LostMeans(codec, run, PathOf(codec, writers[w].body));
    }

    constructor (codec: Codec)
      requires codec.Lawful()
      ensures this.codec == codec && run == [] && Valid() && Promises()
      ensures Snapshot() == Empty
    {
      this.codec := codec;
      files, temps, modified, rows, writers, run := map[], map[], map[], map[], map[], [];
      new;
      Keeps();
    }

    method SetPc(w: nat, pc: Pc)
      requires w in writers
      modifies this`writers
      ensures writers == old(writers)[w := old(writers)[w].(pc := pc)]
      ensures OnlyMoves(old(writers), writers, w)
    {
      writers := writers[w := writers[w].(pc := pc)];
    }

    method RemoveTemp(w: nat)
      modifies this`temps
      ensures temps == old(temps) - {w}
    {
      temps := temps - {w};
    }

    // ----- The statements of an upload ----------------------------------------

    /** Opens an upload, with an empty temporary file of its own. */
    method Begin(w: nat, kind: ArtifactKind, body: Bytes, now: int)
      requires Valid() && w !in writers
      modifies this
      ensures Valid() && run == old(run) + [Event.Begin(w, kind, body)]
      ensures files == old(files) && rows == old(rows)
      ensures writers == old(writers)[w := Writer(kind, body, Copying(0))]
      ensures temps == old(temps)[w := []] && modified == old(modified)[w := now]
    {
      writers := writers[w := Writer(kind, body, Copying(0))];
      temps, modified := temps[w := []], modified[w := now];
      run := run + [Event.Begin(w, kind, body)];
      Advances(old(Snapshot()), old(run), Event.Begin(w, kind, body));
    }

    /** One turn of the copy loop; `onDisk` is what has reached the file. */
    method CopyChunk(w: nat, length: nat, onDisk: Bytes, now: int)
      requires Valid() && w in writers && writers[w].pc.Copying?
      requires 0 < length <= |writers[w].body| - writers[w].pc.read
      modifies this
      ensures Valid() && run == old(run) + [Event.CopyChunk(w, length, onDisk)]
      ensures files == old(files) && rows == old(rows)
      ensures temps == if w in old(temps) then old(temps)[w := onDisk] else old(temps)
      ensures modified == if w in temps then old(modified)[w := now] else old(modified)
      ensures OnlyMoves(old(writers), writers, w) && writers[w].pc == Copying(old(writers[w].pc.read) + length)
    {
      if w in temps {
        temps, modified := temps[w := onDisk], modified[w := now];
      }
      SetPc(w, Copying(writers[w].pc.read + length));
      run := run + [Event.CopyChunk(w, length, onDisk)];
      Advances(old(Snapshot()), old(run), Event.CopyChunk(w, length, onDisk));
    }

    /** A failed copy ends the upload. */
    method CopyFails(w: nat, unlinked: bool)
      requires Valid() && w in writers && writers[w].pc.Copying?
      modifies this
      ensures Valid() && run == old(run) + [Event.CopyFails(w, unlinked)]
      ensures files == old(files) && rows == old(rows) && temps == old(temps) - if unlinked then {w} else {}
      ensures OnlyMoves(old(writers), writers, w) && writers[w].pc == Failed(IoError)
    {
      if unlinked {
        RemoveTemp(w);
      }
      SetPc(w, Failed(IoError));
      run := run + [Event.CopyFails(w, unlinked)];
      Advances(old(Snapshot()), old(run), Event.CopyFails(w, unlinked));
    }

    /** Shutting the writer down completes the encoding. */
    method FinishCopy(w: nat, now: int)
      requires Valid() && w in writers && writers[w].pc == Copying(|writers[w].body|)
      modifies this
      ensures Valid() && run == old(run) + [Event.FinishCopy(w)]
      ensures files == old(files) && rows == old(rows) && temps.Keys == old(temps.Keys)
      ensures OnlyMoves(old(writers), writers, w) && writers[w].pc == Hashed
      ensures forall v :: v in temps && v != w ==> temps[v] == old(temps)[v]
      ensures w in temps ==> temps[w] == if IsText(writers[w].kind) then codec.compress(writers[w].body) else writers[w].body
      ensures modified == if w in temps then old(modified)[w := now] else old(modified)
    {
      if w in temps {
        var bytes := codec.Encode(writers[w].kind.Compression(), writers[w].body);
        temps, modified := temps[w := bytes], modified[w := now];
      }
      SetPc(w, Hashed);
      run := run + [Event.FinishCopy(w)];
      Advances(old(Snapshot()), old(run), Event.FinishCopy(w));
    }

    /** Looks for a file at the final path. */
    method TestFinal(w: nat, statOk: bool)
      requires Valid() && w in writers && writers[w].pc.Hashed?
      modifies this`writers, this`run
      ensures Valid() && run == old(run) + [Event.TestFinal(w, statOk)]
      ensures OnlyMoves(old(writers), writers, w) && (writers[w].pc.FinalSeen? || writers[w].pc.FinalUnseen?)
      ensures writers[w].pc.FinalSeen? <==> statOk && PathOf(codec, writers[w].body) in files
    {
      var exists_ := PathOf(codec, writers[w].body) in files && statOk;
      SetPc(w, if exists_ then FinalSeen else FinalUnseen);
      run := run + [Event.TestFinal(w, statOk)];
      Advances(old(Snapshot()), old(run), Event.TestFinal(w, statOk));
    }

    /** Drops the redundant temporary file. */
    method DropTemp(w: nat, unlinkOk: bool)
      requires Valid() && w in writers && writers[w].pc.FinalSeen?
      modifies this`temps, this`writers, this`run
      ensures Valid() && run == old(run) + [Event.DropTemp(w, unlinkOk)]
      ensures OnlyMoves(old(writers), writers, w)
      ensures if unlinkOk && w in old(temps) then writers[w].pc == Landed && temps == old(temps) - {w}
              else writers[w].pc == Failed(IoError) && temps == old(temps)
      ensures writers[w].pc.Landed? ==> HasBlob(w)
    {
      if w in temps && unlinkOk {
        RemoveTemp(w);
        SetPc(w, Landed);
      } else {
        SetPc(w, Failed(IoError));
      }
      run := run + [Event.DropTemp(w, unlinkOk)];
      Advances(old(Snapshot()), old(run), Event.DropTemp(w, unlinkOk));
      LandedHasBlob(w);
    }

    /** A finished temporary file holds the whole encoding. */
    lemma FinishedTemp(w: nat)
      requires Valid() && w in writers && BeforeLanding(writers[w].pc)
      ensures w in temps ==> temps[w] == if IsText(writers[w].kind) then codec.compress(writers[w].body) else writers[w].body
    {
      Keeps();
    }

    /** Atomically replaces whatever is at the final path by the whole encoding of
        the upload's content. */
    method Rename(w: nat, renameOk: bool)
      requires Valid() && w in writers && writers[w].pc.FinalUnseen?
      modifies this`files, this`temps, this`writers, this`run
      ensures Valid() && run == old(run) + [Event.Rename(w, renameOk)]
      ensures OnlyMoves(old(writers), writers, w)
      ensures if renameOk && w in old(temps) then
                && writers[w].pc == Landed && temps == old(temps) - {w}
                && files == old(files)[PathOf(codec, writers[w].body) :=
                     if IsText(writers[w].kind) then codec.compress(writers[w].body) else writers[w].body]
              else writers[w].pc == RenameFailed && files == old(files) && temps == old(temps)
    {
      FinishedTemp(w);
      if w in temps && renameOk {
        files := files[PathOf(codec, writers[w].body) := temps[w]];
        RemoveTemp(w);
        SetPc(w, Landed);
      } else {
        SetPc(w, RenameFailed);
      }
      run := run + [Event.Rename(w, renameOk)];
      Advances(old(Snapshot()), old(run), Event.Rename(w, renameOk));
    }

    /** A failed rename is forgiven if a file is there now. */
    method TestFinalAgain(w: nat, statOk: bool, unlinked: bool)
      requires Valid() && w in writers && writers[w].pc.RenameFailed?
      modifies this`temps, this`writers, this`run
      ensures Valid() && run == old(run) + [Event.TestFinalAgain(w, statOk, unlinked)]
      ensures OnlyMoves(old(writers), writers, w)
      ensures if statOk && PathOf(codec, writers[w].body) in files then
                writers[w].pc == Landed && temps == if unlinked then old(temps) - {w} else old(temps)
              else writers[w].pc == Failed(IoError) && temps == old(temps)
    {
      if PathOf(codec, writers[w].body) in files && statOk {
        if unlinked {
          RemoveTemp(w);
        }
        SetPc(w, Landed);
      } else {
        SetPc(w, Failed(IoError));
      }
      run := run + [Event.TestFinalAgain(w, statOk, unlinked)];
      Advances(old(Snapshot()), old(run), Event.TestFinalAgain(w, statOk, unlinked));
    }

    /** The row of this digest and size, if there is one. */
    method Select(sha: string, size: nat) returns (found: Option<nat>)
      requires Valid()
      ensures found.Some? <==> IsStored(rows, sha, size)
      ensures found.Some? ==> found.value == FindId(rows, sha, size)
    {
      if id :| id in rows && Matches(rows[id], sha, size) {
        ghost var other := FindId(rows, sha, size);
        Keeps();
        assert SameContent(rows[id], rows[other]);
        return Some(id);
      }
      return None;
    }

    /** An existing row ends the upload. */
    method FindExisting(w: nat, dbOk: bool)
      requires Valid() && w in writers && writers[w].pc.Landed?
      modifies this`writers, this`run
      ensures Valid() && run == old(run) + [Event.FindExisting(w, dbOk)]
      ensures OnlyMoves(old(writers), writers, w) && Honours(w)
      ensures if !dbOk then writers[w].pc == Failed(DbError)
              else if IsStored(rows, codec.sha256(writers[w].body), |writers[w].body|) then writers[w].pc.Returned?
              else writers[w].pc == RowUnseen
    {
      var writer := writers[w];
      if dbOk {
        var found := Select(codec.sha256(writer.body), |writer.body|);
        SetPc(w, if found.Some? then Reply(codec, writer, found.value) else RowUnseen);
      } else {
        SetPc(w, Failed(DbError));
      }
      run := run + [Event.FindExisting(w, dbOk)];
      Advances(old(Snapshot()), old(run), Event.FindExisting(w, dbOk));
      HonoursReply(w);
    }

    /** Inserts the content's row, unless its id or its content has one. */
    method Insert(w: nat, id: nat, dbOk: bool)
      requires Valid() && w in writers && writers[w].pc.RowUnseen?
      modifies this`rows, this`writers, this`run
      ensures Valid() && run == old(run) + [Event.Insert(w, id, dbOk)]
      ensures OnlyMoves(old(writers), writers, w) && Honours(w)
      ensures
        var writer := writers[w];
        if !dbOk then writer.pc == Failed(DbError) && rows == old(rows)
        else if id in old(rows) || IsStored(old(rows), codec.sha256(writer.body), |writer.body|) then
          writer.pc == InsertRefused && rows == old(rows)
        else
          && writer.pc.Returned? && writer.pc.artifact.id == id
          && rows == old(rows)[id := Row(codec.sha256(writer.body), |writer.body|, writer.kind, PathOf(codec, writer.body),
                                         if IsText(writer.kind) then Zstd else Uncompressed)]
    {
      var writer := writers[w];
      if dbOk {
        var taken := Select(codec.sha256(writer.body), |writer.body|);
        if id in rows || taken.Some? {
          SetPc(w, InsertRefused);
        } else {
          rows := rows[id := RowFor(codec, writer)];
          SetPc(w, Reply(codec, writer, id));
        }
      } else {
        SetPc(w, Failed(DbError));
      }
      run := run + [Event.Insert(w, id, dbOk)];
      Advances(old(Snapshot()), old(run), Event.Insert(w, id, dbOk));
      HonoursReply(w);
    }

    /** After a refusal the row is looked up again. */
    method FindAgain(w: nat, dbOk: bool)
      requires Valid() && w in writers && writers[w].pc.InsertRefused?
      modifies this`writers, this`run
      ensures Valid() && run == old(run) + [Event.FindAgain(w, dbOk)]
      ensures OnlyMoves(old(writers), writers, w) && Honours(w)
      ensures if !dbOk then writers[w].pc == Failed(DbError)
              else if IsStored(rows, codec.sha256(writers[w].body), |writers[w].body|) then writers[w].pc.Returned?
              else writers[w].pc == Failed(NoMatchingRow)
    {
      var writer := writers[w];
      if dbOk {
        var found := Select(codec.sha256(writer.body), |writer.body|);
        SetPc(w, if found.Some? then Reply(codec, writer, found.value) else Failed(NoMatchingRow));
      } else {
        SetPc(w, Failed(DbError));
      }
      run := run + [Event.FindAgain(w, dbOk)];
      Advances(old(Snapshot()), old(run), Event.FindAgain(w, dbOk));
      HonoursReply(w);
    }

    /** Somebody deletes a blob behind the server's back. */
    method UnlinkOutOfBand(path: string)
      requires Valid()
      modifies this`files, this`run
      ensures Valid() && Promises() && run == old(run) + [Event.UnlinkOutOfBand(path)]
      ensures files == old(files) - {path}
    {
      files := files - {path};
      run := run + [Event.UnlinkOutOfBand(path)];
      Advances(old(Snapshot()), old(run), Event.UnlinkOutOfBand(path));
      Keeps();
    }

    /** Upload `w` has recorded its content: under `id` if it returned and the content
        had no row before, and otherwise not at all. */
    ghost predicate Recorded(before: map<nat, Row>, w: nat, id: nat)
      reads this
      requires w in writers
    {
      var writer := writers[w];
      if writer.pc.Returned? && !IsStored(before, codec.sha256(writer.body), |writer.body|) then
        && id !in before && writer.pc.artifact.id == id
        && rows == before[id := Row(codec.sha256(writer.body), |writer.body|, writer.kind, PathOf(codec, writer.body),
                                    if IsText(writer.kind) then Zstd else Uncompressed)]
      else rows == before
    }

    // ----- A whole upload -----------------------------------------------------

    /** Nothing but upload `w` has changed, and nothing of the blobs and rows. */
    ghost predicate InProgress(before: Store, w: nat)
      reads this
    {
      && w in writers && w !in before.writers
      && files == before.files && rows == before.rows
      && (forall v :: v in before.writers ==> v in writers && writers[v] == before.writers[v])
    }

    method CopyBody(w: nat, kind: ArtifactKind, body: Bytes, now: int, calls: Calls)
      requires Valid() && w !in writers
      modifies this
      ensures Valid() && old(run) <= run && InProgress(old(Snapshot()), w)
      ensures writers[w].kind == kind && writers[w].body == body
      ensures if calls.copyOk then writers[w].pc == Hashed && w in temps else writers[w].pc == Failed(IoError)
    {
      Begin(w, kind, body, now);
      while writers[w].pc.read < |body|
        invariant Valid() && old(run) <= run && InProgress(old(Snapshot()), w) && w in temps
        invariant writers[w].kind == kind && writers[w].body == body
        invariant writers[w].pc.Copying? && writers[w].pc.read <= |body|
        decreases |body| - writers[w].pc.read
      {
        var left := |body| - writers[w].pc.read;
        var onDisk: Bytes := *;
        CopyChunk(w, if left < Upload.COPY_CHUNK_BYTES then left else Upload.COPY_CHUNK_BYTES, onDisk, now);
        var failsHere: bool := *;
        if !calls.copyOk && failsHere {
          break;
        }
      }
      if calls.copyOk {
        FinishCopy(w, now);
      } else {
        CopyFails(w, calls.copyUnlinked);
      }
    }

    /** Renames the temporary file, or finds a file in its place. */
    method RenameOrFind(w: nat, calls: Calls)
      requires Valid() && w in writers && writers[w].pc.FinalUnseen? && w in temps
      modifies this`files, this`temps, this`writers, this`run
      ensures Valid() && old(run) <= run && OnlyMoves(old(writers), writers, w)
      ensures writers[w].pc == Failed(IoError) ||
        (writers[w].pc == Landed && PathOf(codec, writers[w].body) in files)
      ensures forall p :: p in old(files) ==> p in files
      ensures calls.AllSucceed() ==> writers[w].pc.Landed?
    {
      Rename(w, calls.renameOk);
      if writers[w].pc.RenameFailed? {
        TestFinalAgain(w, calls.statAgainOk, calls.unlinkedAgain);
      }
    }

    /** Moves the finished file to its final path, or finds one there. */
    method Place(w: nat, calls: Calls)
      requires Valid() && w in writers && writers[w].pc.Hashed? && w in temps
      modifies this`files, this`temps, this`writers, this`run
      ensures Valid() && old(run) <= run && OnlyMoves(old(writers), writers, w)
      ensures writers[w].pc == Failed(IoError) ||
        (writers[w].pc == Landed && PathOf(codec, writers[w].body) in files)
      ensures forall p :: p in old(files) ==> p in files
      ensures calls.AllSucceed() ==> writers[w].pc.Landed?
    {
      TestFinal(w, calls.statOk);
      if writers[w].pc.FinalSeen? {
        DropTemp(w, calls.unlinkOk);
      } else {
        RenameOrFind(w, calls);
      }
    }

    /** Inserts the content's row; a refusal means that the drawn id is taken. */
    method InsertOrFind(w: nat, id: nat, calls: Calls)
      requires Valid() && w in writers && writers[w].pc.RowUnseen?
      requires !IsStored(rows, codec.sha256(writers[w].body), |writers[w].body|)
      modifies this`rows, this`writers, this`run
      ensures Valid() && old(run) <= run && OnlyMoves(old(writers), writers, w) && Recorded(old(rows), w, id)
      ensures writers[w].pc.Returned? || writers[w].pc.Failed?
      ensures id in old(rows) || !calls.insertOk || writers[w].pc.Returned?
      ensures writers[w].pc == Failed(NoMatchingRow) ==> id in old(rows)
    {
      Insert(w, id, calls.insertOk);
      if writers[w].pc.InsertRefused? {
        FindAgain(w, calls.findAgainOk);
      }
    }

    /** Finds or inserts the content's row. */
    method Record(w: nat, id: nat, calls: Calls)
      requires Valid() && w in writers && writers[w].pc.Landed?
      modifies this`rows, this`writers, this`run
      ensures Valid() && old(run) <= run && OnlyMoves(old(writers), writers, w) && Recorded(old(rows), w, id)
      ensures writers[w].pc.Returned? || writers[w].pc.Failed?
      ensures writers[w].pc == Failed(NoMatchingRow) ==> id in old(rows)
      ensures calls.AllSucceed() && id !in old(rows) ==> writers[w].pc.Returned?
    {
      FindExisting(w, calls.findOk);
      if writers[w].pc.RowUnseen? {
        InsertOrFind(w, id, calls);
      }
    }

    method RunStatements(w: nat, kind: ArtifactKind, body: Bytes, id: nat, now: int, calls: Calls)
      requires Valid() && w !in writers
      modifies this
      ensures Valid() && old(run) <= run
      ensures forall p :: p in old(files) ==> p in files
      ensures w in writers && writers[w].kind == kind && writers[w].body == body && Recorded(old(rows), w, id)
      ensures writers[w].pc.Failed? || (writers[w].pc.Returned? && PathOf(codec, body) in files)
      ensures writers[w].pc == Failed(NoMatchingRow) ==> id in old(rows)
      ensures calls.AllSucceed() && id !in old(rows) ==> writers[w].pc.Returned?
    {
      CopyBody(w, kind, body, now, calls);
      if writers[w].pc.Hashed? {
        Place(w, calls);
        if writers[w].pc.Landed? {
          Record(w, id, calls);
        }
      }
    }

    /** `store_artifact`, uninterrupted.  What it returns names a row of the content,
        whose blob is in place and complete; it changes no row, and loses no file. */
    method StoreArtifact(w: nat, kind: ArtifactKind, body: Bytes, id: nat, now: int, calls: Calls)
      returns (r: Result<StoredArtifact, Failure>)
      requires Valid() && w !in writers
      modifies this
      ensures Valid() && Promises() && old(run) <= run && RowsKept(old(rows), rows)
      ensures forall p :: p in old(files) ==> p in files
      ensures w in writers && writers[w].kind == kind && writers[w].body == body
      ensures Honours(w) && Recorded(old(rows), w, id)
      ensures r.Ok? ==> writers[w].pc == Returned(r.value) && PathOf(codec, body) in files
      ensures r == Err(NoMatchingRow) ==> id in old(rows)
      ensures calls.AllSucceed() && id !in old(rows) ==> r.Ok?
    {
      RunStatements(w, kind, body, id, now, calls);
      r := if writers[w].pc.Failed? then Err(writers[w].pc.failure) else Ok(writers[w].pc.artifact);
      Keeps();
      HonoursReply(w);
    }

    // ----- Reading back, and the integrity report ------------------------------

    /** Opens a stored artifact and reads it to the end. */
    method OpenContent(id: nat) returns (r: Result<Bytes, OpenError>)
      requires Valid() && id in rows
      ensures r == OpenArtifactContent(codec, Snapshot(), rows[id])
      ensures r == Err(FileMissing) <==> UnlinkedForGood(codec, run, rows[id].storagePath)
      ensures forall c, kinds ::
        Describes(codec, rows[id], c) && NothingUnlinked(run) && UploadedAs(run, c, kinds) && AgreeOnCompression(kinds)
        ==> r == Ok(c)
    {
      MissingReportIsExact(codec, run, id);
      var row := rows[id];
      if row.storagePath in files {
        var content := codec.Decode(row.compression, files[row.storagePath]);
        r := if content.Some? then Ok(content.value) else Err(DecodeFailed);
      } else {
        r := Err(FileMissing);
      }
      forall c, kinds |
        Describes(codec, row, c) && NothingUnlinked(run) && UploadedAs(run, c, kinds) && AgreeOnCompression(kinds)
        ensures r == Ok(c)
      {
        AgreementReadsBack(codec, run, c, kinds);
      }
    }

    /** The integrity check, uninterrupted: it reports the rows whose file was deleted
        out of band and not put back, and the blobs that await their row. */
    method CheckIntegrity(ids: seq<nat>, root: Option<seq<PrefixEntry>>) returns (report: Report)
      requires Valid() && Enumerates(ids, rows) && forall path :: Met(root, path) <==> path in files
      ensures Distinct(report.artifactsMissingFiles)
      ensures forall id :: id in report.artifactsMissingFiles <==>
        id in rows && UnlinkedForGood(codec, run, rows[id].storagePath)
      ensures forall path :: path in report.orphanedArtifactFiles <==>
        exists body :: path == PathOf(codec, body) && AwaitsItsRow(codec, run, body)
    {
      ghost var now := |run|;
      ghost var times := Times(now, seq(|ids|, i => now), path => now, now);
      assert run[..now] == run;
      var recorded := set id | id in rows :: rows[id].storagePath;
      var onDisk := files.Keys;
      report := Check(codec, run, times, ids, rows, seq(|ids|, i => onDisk), root, recorded);
      forall body ensures SeenWithoutRow(codec, run, times, body) <==> AwaitsItsRow(codec, run, body) {
      }
    }

    // ----- Cleanup ------------------------------------------------------------

    /** Deletes the temporary files old enough to be abandoned, and no other
        file, and counts them. */
    method RemoveAbandoned(now: int, retention: nat, unreadable: set<nat>, stuck: set<nat>) returns (removed: nat)
      requires temps.Keys <= modified.Keys
      modifies this`temps
      ensures temps == old(temps) - Abandoned(old(temps).Keys, modified, now, retention, unreadable, stuck)
      ensures removed == |Abandoned(old(temps).Keys, modified, now, retention, unreadable, stuck)|
    {
      removed := 0;
      var entries := temps.Keys;
      ghost var abandoned := Abandoned(entries, modified, now, retention, unreadable, stuck);
      ghost var gone: set<nat> := {};
      while entries != {}
        invariant entries <= temps.Keys <= modified.Keys
        invariant gone == abandoned - entries && removed == |gone|
        invariant temps == old(temps) - gone
        decreases entries
      {
        var w :| w in entries;
        OneEntryLess(abandoned, entries, gone, w);
        RemoveOneMore(old(temps), gone, w);
        entries := entries - {w};
        if IsAbandoned(w, modified[w], now, retention, unreadable, stuck) {
          temps := temps - {w};
          removed := removed + 1;
          gone := gone + {w};
        }
      }
      assert gone == abandoned;
    }

    /** The same, said of each file. */
    method RemoveOld(now: int, retention: nat, unreadable: set<nat>, stuck: set<nat>) returns (removed: nat)
      requires temps.Keys <= modified.Keys
      modifies this`temps
      ensures temps == old(temps) - (old(temps).Keys - temps.Keys) && removed == |old(temps)| - |temps|
      ensures forall w :: w in old(temps) ==>
        (w !in temps <==>
           w !in unreadable && w !in stuck && (now - modified[w] >= retention || retention == 0))
    {
      ghost var abandoned := Abandoned(temps.Keys, modified, now, retention, unreadable, stuck);
      removed := RemoveAbandoned(now, retention, unreadable, stuck);
      KeysLeft(old(temps), abandoned);
    }

    /** A cleanup removes exactly the readable files that can be unlinked and were
        last written at least the retention ago (at any time, if there is none), and
        counts them.  Whenever it runs it costs no row and no blob; an upload under
        way may lose its temporary file to it. */
    method CleanupAbandonedTempFiles(now: int, retention: nat, unreadable: set<nat>, stuck: set<nat>)
      returns (removed: nat)
      requires Valid()
      modifies this`temps, this`run
      ensures Valid() && Promises() && run == old(run) + [Cleanup(old(temps).Keys - temps.Keys)]
      ensures forall w :: w in old(temps) ==>
        (w !in temps <==>
           w !in unreadable && w !in stuck && (now - modified[w] >= retention || retention == 0))
      ensures forall w :: w in temps ==> w in old(temps) && temps[w] == old(temps)[w]
      ensures removed == |old(temps)| - |temps|
      ensures forall w :: w in old(temps) && 0 <= now - modified[w] < retention ==> w in temps
    {
      removed := RemoveOld(now, retention, unreadable, stuck);
      ghost var gone := old(temps).Keys - temps.Keys;
      run := run + [Cleanup(gone)];
      Advances(old(Snapshot()), old(run), Cleanup(gone));
      Keeps();
    }
  }

  lemma KeysLeft(files: map<nat, Bytes>, gone: set<nat>)
    requires gone <= files.Keys
    ensures files.Keys - (files - gone).Keys == gone
    ensures |gone| == |files| - |files - gone|
  {
    var left := files - gone;
    assert files.Keys == left.Keys + gone && left.Keys !! gone;
    assert |files.Keys| == |left.Keys| + |gone|;
    assert |files| == |files.Keys| && |left| == |left.Keys|;
  }

  lemma RemoveOneMore(files: map<nat, Bytes>, gone: set<nat>, w: nat)
    ensures (files - gone) - {w} == files - (gone + {w})
  {
  }

  lemma OneEntryLess(abandoned: set<nat>, entries: set<nat>, gone: set<nat>, w: nat)
    requires w in entries && gone == abandoned - entries
    ensures w in abandoned ==> gone + {w} == abandoned - (entries - {w}) && |gone + {w}| == |gone| + 1
    ensures w !in abandoned ==> gone == abandoned - (entries - {w})
  {
  }

  /** How long ago a file was modified; a time in the future counts as now. */
  function Age(now: int, modified: int): nat {
    if modified > now then 0 else now - modified
  }

  predicate IsAbandoned(w: nat, modified: int, now: int, retention: nat, unreadable: set<nat>, stuck: set<nat>) {
    w !in unreadable && Age(now, modified) >= retention && w !in stuck
  }

  /** What a cleanup deletes: files at least `retention` old, except those whose
      metadata cannot be read or that cannot be unlinked. */
  function Abandoned(temps: set<nat>, modified: map<nat, int>, now: int, retention: nat,
                     unreadable: set<nat>, stuck: set<nat>): set<nat>
    requires temps <= modified.Keys
  {
    set w | w in temps && IsAbandoned(w, modified[w], now, retention, unreadable, stuck)
  }
}
