/** What every run of the artifact store keeps: committed rows always point at
    complete blobs, one row per content, and one id per content for good. */
module ArtifactInvariants {
  import opened Content
  import opened ArtifactProtocol

  /** `stored` is the whole plain or compressed encoding of a content whose
      digest names `path`: never a partial file, never another content. */
  ghost predicate CompleteBlob(k: Codec, path: string, stored: Bytes) {
    exists c :: path == PathOf(k, c) && (stored == c || stored == k.compress(c))
  }

  ghost predicate Describes(k: Codec, row: Row, c: Bytes) {
    row.sha256 == k.sha256(c) && row.sizeBytes == |c| && row.storagePath == PathOf(k, c)
  }

  /** The copy is finished and the temporary file has not been moved yet. */
  predicate BeforeLanding(pc: Pc) {
    pc.Hashed? || pc.FinalSeen? || pc.FinalUnseen? || pc.RenameFailed?
  }

  /** The upload has seen a file at its final path. */
  predicate HasLanded(pc: Pc) {
    pc.FinalSeen? || pc.Landed? || pc.RowUnseen? || pc.InsertRefused? || pc.Returned?
  }

  ghost predicate BlobsComplete(k: Codec, s: Store) {
    forall p :: p in s.files ==> CompleteBlob(k, p, s.files[p])
  }

  ghost predicate TempsComplete(k: Codec, s: Store) {
    forall w :: w in s.temps ==>
      && w in s.writers
      && (BeforeLanding(s.writers[w].pc) ==>
            s.temps[w] == k.Encode(s.writers[w].kind.Compression(), s.writers[w].body))
  }

  ghost predicate LandedHaveFiles(k: Codec, s: Store, lost: set<string>) {
    forall w :: w in s.writers && HasLanded(s.writers[w].pc) ==>
      PathOf(k, s.writers[w].body) in s.files.Keys + lost
  }

  ghost predicate RowsHaveFiles(k: Codec, s: Store, lost: set<string>) {
    forall id :: id in s.rows ==>
      && (exists c :: Describes(k, s.rows[id], c))
      && s.rows[id].storagePath in s.files.Keys + lost
  }

  predicate SameContent(a: Row, b: Row) {
    a.sha256 == b.sha256 && a.sizeBytes == b.sizeBytes
  }

  ghost predicate RowsUnique(rows: map<nat, Row>) {
    forall i, j :: i in rows && j in rows && SameContent(rows[i], rows[j]) ==> i == j
  }

  ghost predicate ReplyIsValid(k: Codec, rows: map<nat, Row>, writer: Writer) {
    writer.pc.Returned? ==>
      var a := writer.pc.artifact;
      && a.sha256 == k.sha256(writer.body)
      && a.sizeBytes == |writer.body|
      && a.compression == writer.kind.Compression()
      && a.id in rows
      && Matches(rows[a.id], a.sha256, a.sizeBytes)
  }

  ghost predicate RepliesValid(k: Codec, s: Store) {
    forall w :: w in s.writers ==> ReplyIsValid(k, s.rows, s.writers[w])
  }

  ghost predicate Inv(k: Codec, s: Store, lost: set<string>) {
    && BlobsComplete(k, s)
    && TempsComplete(k, s)
    && LandedHaveFiles(k, s, lost)
    && RowsHaveFiles(k, s, lost)
    && RowsUnique(s.rows)
    && RepliesValid(k, s)
    && s.files.Keys !! lost
  }

  /** The upload event `e` moves a finished temporary file to its final path. */
  ghost predicate Places(s: Store, e: Event) {
    && e.Rename? && e.renameOk
    && e.writer in s.writers && s.writers[e.writer].pc.FinalUnseen?
    && e.writer in s.temps
  }

  /** The paths unlinked out of band that no later upload has written again. */
  ghost function LostStep(k: Codec, s: Store, e: Event, lost: set<string>): set<string> {
    if e.UnlinkOutOfBand? && e.path in s.files then lost + {e.path}
    else if Places(s, e) then lost - {PathOf(k, s.writers[e.writer].body)}
    else lost
  }

  ghost function Lost(k: Codec, run: seq<Event>): set<string> {
    if run == [] then {}
    else
      var before, e := run[..|run| - 1], run[|run| - 1];
      LostStep(k, After(k, before), e, Lost(k, before))
  }

  /** The upload event `e` inserts a row. */
  ghost predicate Inserts(k: Codec, s: Store, e: Event) {
    && e.Insert? && e.dbOk
    && e.writer in s.writers && s.writers[e.writer].pc.RowUnseen?
    && e.id !in s.rows
    && !IsStored(s.rows, k.sha256(s.writers[e.writer].body), |s.writers[e.writer].body|)
  }

  lemma WriterFiles(k: Codec, s: Store, w: nat, e: Event)
    requires w in s.writers && !e.Begin? && !e.Cleanup? && !e.UnlinkOutOfBand? && e.writer == w
    ensures WriterStep(k, s, w, e).files ==
      if Places(s, e) then s.files[PathOf(k, s.writers[w].body) := s.temps[w]] else s.files
  {
  }

  lemma WriterRows(k: Codec, s: Store, w: nat, e: Event)
    requires w in s.writers && !e.Begin? && !e.Cleanup? && !e.UnlinkOutOfBand? && e.writer == w
    ensures WriterStep(k, s, w, e).rows ==
      if Inserts(k, s, e) then s.rows[e.id := RowFor(k, s.writers[w])] else s.rows
  {
  }

  /** Whether `e` runs a statement of a live upload. */
  predicate RunsWriter(s: Store, e: Event) {
    !e.Begin? && !e.Cleanup? && !e.UnlinkOutOfBand? && e.writer in s.writers
  }

  /** Which events touch blobs and rows, and how. */
  lemma StepEffects(k: Codec, s: Store, e: Event)
    ensures
      var t := Step(k, s, e);
      && t.files == (if Places(s, e) then s.files[PathOf(k, s.writers[e.writer].body) := s.temps[e.writer]]
                     else if e.UnlinkOutOfBand? then s.files - {e.path} else s.files)
      && t.rows == (if Inserts(k, s, e) then s.rows[e.id := RowFor(k, s.writers[e.writer])] else s.rows)
  {
    if RunsWriter(s, e) {
      WriterFiles(k, s, e.writer, e);
      WriterRows(k, s, e.writer, e);
    }
  }

  /** Running upload `w` leaves every other upload alone, and never changes
      what `w` uploads. */
  lemma WriterFrame(k: Codec, s: Store, w: nat, e: Event)
    requires w in s.writers
    ensures
      var t := WriterStep(k, s, w, e);
      t == s || exists pc :: t.writers == s.writers[w := s.writers[w].(pc := pc)]
  {
    var t := WriterStep(k, s, w, e);
    if t != s {
      assert t.writers == At(s, w, t.writers[w].pc).writers;
    }
  }

  lemma WriterTempFrame(k: Codec, s: Store, w: nat, e: Event)
    requires w in s.writers
    ensures
      var t := WriterStep(k, s, w, e);
      && t.temps.Keys <= s.temps.Keys
      && (forall x :: x in t.temps && x != w ==> t.temps[x] == s.temps[x])
  {
  }

  /** A finished copy leaves the complete encoding in the temporary file, and
      nothing rewrites it before it is moved. */
  lemma WriterTemp(k: Codec, s: Store, w: nat, e: Event)
    requires w in s.writers
    requires w in s.temps && BeforeLanding(s.writers[w].pc) ==>
      s.temps[w] == k.Encode(s.writers[w].kind.Compression(), s.writers[w].body)
    ensures
      var t := WriterStep(k, s, w, e);
      w in t.temps && w in t.writers && BeforeLanding(t.writers[w].pc) ==>
        t.temps[w] == k.Encode(s.writers[w].kind.Compression(), s.writers[w].body)
  {
  }

  lemma StepFrame(k: Codec, s: Store, e: Event, w: nat)
    requires w in s.writers
    ensures
      var t := Step(k, s, e);
      && w in t.writers
      && t.writers[w].body == s.writers[w].body && t.writers[w].kind == s.writers[w].kind
      && (e.Cleanup? || e.UnlinkOutOfBand? || w != e.writer ==> t.writers[w] == s.writers[w])
  {
    if RunsWriter(s, e) {
      WriterFrame(k, s, e.writer, e);
    }
  }

  lemma StepKeepsTemps(k: Codec, s: Store, e: Event)
    requires TempsComplete(k, s)
    ensures TempsComplete(k, Step(k, s, e))
  {
    if RunsWriter(s, e) {
      WriterFrame(k, s, e.writer, e);
      WriterTempFrame(k, s, e.writer, e);
      WriterTemp(k, s, e.writer, e);
    }
  }

  lemma StepKeepsBlobs(k: Codec, s: Store, e: Event)
    requires BlobsComplete(k, s) && TempsComplete(k, s)
    ensures BlobsComplete(k, Step(k, s, e))
  {
    StepEffects(k, s, e);
    if Places(s, e) {
      var body := s.writers[e.writer].body;
      assert CompleteBlob(k, PathOf(k, body), s.temps[e.writer]);
    }
  }

  /** An upload lands only where a file is. */
  lemma WriterLands(k: Codec, s: Store, w: nat, e: Event)
    requires w in s.writers
    ensures
      var t := WriterStep(k, s, w, e);
      w in t.writers && HasLanded(t.writers[w].pc) ==>
        HasLanded(s.writers[w].pc) || PathOf(k, s.writers[w].body) in t.files
  {
  }

  /** The upload's own file, if it has landed. */
  ghost predicate FileAccountedFor(k: Codec, paths: set<string>, writer: Writer) {
    HasLanded(writer.pc) ==> PathOf(k, writer.body) in paths
  }

  lemma WriterKeepsLanded(k: Codec, s: Store, w: nat, e: Event, paths: set<string>, x: nat)
    requires w in s.writers && x in s.writers && FileAccountedFor(k, paths, s.writers[x])
    requires WriterStep(k, s, w, e).files.Keys <= paths
    ensures
      var t := WriterStep(k, s, w, e);
      x in t.writers && FileAccountedFor(k, paths, t.writers[x])
  {
    WriterFrame(k, s, w, e);
    WriterLands(k, s, w, e);
  }

  lemma WriterStepKeepsLanded(k: Codec, s: Store, e: Event, lost: set<string>)
    requires LandedHaveFiles(k, s, lost) && RunsWriter(s, e)
    ensures LandedHaveFiles(k, WriterStep(k, s, e.writer, e), LostStep(k, s, e, lost))
  {
    var t := WriterStep(k, s, e.writer, e);
    var paths := t.files.Keys + LostStep(k, s, e, lost);
    WriterFrame(k, s, e.writer, e);
    WriterFiles(k, s, e.writer, e);
    forall x | x in t.writers && HasLanded(t.writers[x].pc) ensures PathOf(k, t.writers[x].body) in paths {
      WriterKeepsLanded(k, s, e.writer, e, paths, x);
    }
  }

  lemma StepKeepsLanded(k: Codec, s: Store, e: Event, lost: set<string>)
    requires LandedHaveFiles(k, s, lost)
    ensures LandedHaveFiles(k, Step(k, s, e), LostStep(k, s, e, lost))
  {
    if RunsWriter(s, e) {
      WriterStepKeepsLanded(k, s, e, lost);
    }
  }

  lemma StepKeepsRows(k: Codec, s: Store, e: Event, lost: set<string>)
    requires RowsHaveFiles(k, s, lost) && LandedHaveFiles(k, s, lost)
    ensures RowsHaveFiles(k, Step(k, s, e), LostStep(k, s, e, lost))
  {
    StepEffects(k, s, e);
    if Inserts(k, s, e) {
      assert Describes(k, RowFor(k, s.writers[e.writer]), s.writers[e.writer].body);
    }
  }

  lemma StepKeepsUnique(k: Codec, s: Store, e: Event)
    requires RowsUnique(s.rows)
    ensures RowsUnique(Step(k, s, e).rows)
  {
    StepEffects(k, s, e);
  }

  lemma WriterReplies(k: Codec, s: Store, w: nat, e: Event)
    requires w in s.writers && ReplyIsValid(k, s.rows, s.writers[w])
    ensures
      var t := WriterStep(k, s, w, e);
      w in t.writers ==> ReplyIsValid(k, t.rows, t.writers[w])
  {
  }

  lemma WriterKeepsReplies(k: Codec, s: Store, w: nat, e: Event)
    requires w in s.writers && RepliesValid(k, s)
    requires !e.Begin? && !e.Cleanup? && !e.UnlinkOutOfBand? && e.writer == w
    ensures RepliesValid(k, WriterStep(k, s, w, e))
  {
    var t := WriterStep(k, s, w, e);
    WriterFrame(k, s, w, e);
    WriterRows(k, s, w, e);
    WriterReplies(k, s, w, e);
  }

  lemma StepKeepsReplies(k: Codec, s: Store, e: Event)
    requires RepliesValid(k, s)
    ensures RepliesValid(k, Step(k, s, e))
  {
    if RunsWriter(s, e) {
      WriterKeepsReplies(k, s, e.writer, e);
    }
  }

  lemma StepKeepsInv(k: Codec, s: Store, e: Event, lost: set<string>)
    requires Inv(k, s, lost)
    ensures Inv(k, Step(k, s, e), LostStep(k, s, e, lost))
  {
    StepKeepsTemps(k, s, e);
    StepKeepsBlobs(k, s, e);
    StepKeepsLanded(k, s, e, lost);
    StepKeepsRows(k, s, e, lost);
    StepKeepsUnique(k, s, e);
    StepKeepsReplies(k, s, e);
    StepEffects(k, s, e);
  }

  lemma {:induction false} InvHolds(k: Codec, run: seq<Event>)
    ensures Inv(k, After(k, run), Lost(k, run))
  {
    if run != [] {
      var before := run[..|run| - 1];
      InvHolds(k, before);
      StepKeepsInv(k, After(k, before), run[|run| - 1], Lost(k, before));
    }
  }

  // ----- Main results -------------------------------------------------------

  lemma {:induction false} NothingLost(k: Codec, run: seq<Event>)
    requires NothingUnlinked(run)
    ensures Lost(k, run) == {}
  {
    if run != [] {
      NothingLost(k, run[..|run| - 1]);
    }
  }

  /** In every run - any number of uploads in any interleaving, a crash or
      failure after any step, cleanup at any point - each committed row names a
      file that is the whole plain or compressed encoding of the one content
      with the row's digest and size. */
  lemma CommittedRowsHaveCompleteBlobs(k: Codec, run: seq<Event>, id: nat) returns (c: Bytes)
    requires k.Lawful() && NothingUnlinked(run)
    requires id in After(k, run).rows
    ensures
      var s := After(k, run);
      var row := s.rows[id];
      && Describes(k, row, c)
      && row.storagePath in s.files
      && (s.files[row.storagePath] == c || s.files[row.storagePath] == k.compress(c))
  {
    InvHolds(k, run);
    NothingLost(k, run);
    var s := After(k, run);
    c :| Describes(k, s.rows[id], c);
    var path := s.rows[id].storagePath;
    assert CompleteBlob(k, path, s.files[path]);
    var d :| path == PathOf(k, d) && (s.files[path] == d || s.files[path] == k.compress(d));
    PathsAreInjective(k.sha256(c), k.sha256(d));
  }

  /** Rows are never changed or removed. */
  lemma {:induction false} RowsPersist(k: Codec, run: seq<Event>, more: seq<Event>, id: nat)
    requires id in After(k, run).rows
    ensures id in After(k, run + more).rows && After(k, run + more).rows[id] == After(k, run).rows[id]
  {
    if more == [] {
      assert run + more == run;
    } else {
      var before, e := more[..|more| - 1], more[|more| - 1];
      RowsPersist(k, run, before, id);
      assert run + more == (run + before) + [e];
      AfterSnoc(k, run + before, e);
      StepEffects(k, After(k, run + before), e);
    }
  }

  /** The row that an upload inserts: content, kind, encoding and place. */
  ghost predicate IsRowOf(k: Codec, row: Row, writer: Writer) {
    && row.sha256 == k.sha256(writer.body) && row.sizeBytes == |writer.body| && row.kind == writer.kind
    && row.compression == writer.kind.Compression() && row.storagePath == PathOf(k, writer.body)
  }

  ghost predicate RowsHaveUploads(k: Codec, s: Store) {
    forall id :: id in s.rows ==> exists w :: w in s.writers && IsRowOf(k, s.rows[id], s.writers[w])
  }

  lemma UploadStaysTheRows(k: Codec, s: Store, e: Event, id: nat)
    requires RowsHaveUploads(k, s) && id in Step(k, s, e).rows
    ensures exists w :: w in Step(k, s, e).writers && IsRowOf(k, Step(k, s, e).rows[id], Step(k, s, e).writers[w])
  {
    StepEffects(k, s, e);
    var w: nat;
    if id in s.rows {
      w :| w in s.writers && IsRowOf(k, s.rows[id], s.writers[w]);
    } else {
      w := e.writer;
    }
    StepFrame(k, s, e, w);
    assert IsRowOf(k, Step(k, s, e).rows[id], Step(k, s, e).writers[w]);
  }

  /** Every row says of the content it holds what one of its uploads said. */
  lemma {:induction false} RowsSayTheirUpload(k: Codec, run: seq<Event>)
    ensures RowsHaveUploads(k, After(k, run))
  {
    if run != [] {
      var before, e := run[..|run| - 1], run[|run| - 1];
      RowsSayTheirUpload(k, before);
      forall id | id in After(k, run).rows
        ensures exists w :: w in After(k, run).writers && IsRowOf(k, After(k, run).rows[id], After(k, run).writers[w])
      {
        UploadStaysTheRows(k, After(k, before), e, id);
      }
    }
  }

  /** Concurrent uploads of one content converge: whatever ran, at most one row
      holds it, and every upload of it that returned got that row's id. */
  lemma UploadsConverge(k: Codec, run: seq<Event>, v: nat, w: nat)
    requires
      var ws := After(k, run).writers;
      v in ws && w in ws && ws[v].pc.Returned? && ws[w].pc.Returned? && ws[v].body == ws[w].body
    ensures
      var s := After(k, run);
      && s.writers[v].pc.artifact.id == s.writers[w].pc.artifact.id
      && forall id :: id in s.rows && Matches(s.rows[id], k.sha256(s.writers[w].body), |s.writers[w].body|) ==>
           id == s.writers[w].pc.artifact.id
  {
    InvHolds(k, run);
    var s := After(k, run);
    var a, b := s.writers[v].pc.artifact, s.writers[w].pc.artifact;
    assert SameContent(s.rows[a.id], s.rows[b.id]);
    forall id | id in s.rows && Matches(s.rows[id], b.sha256, b.sizeBytes) ensures id == b.id {
      assert SameContent(s.rows[id], s.rows[b.id]);
    }
  }

  /** A returned id names the content's row forever. */
  lemma ReturnedIdsStayValid(k: Codec, run: seq<Event>, more: seq<Event>, w: nat)
    requires w in After(k, run).writers && After(k, run).writers[w].pc.Returned?
    ensures
      var writer := After(k, run).writers[w];
      var id := writer.pc.artifact.id;
      id in After(k, run + more).rows
      && Matches(After(k, run + more).rows[id], k.sha256(writer.body), |writer.body|)
  {
    InvHolds(k, run);
    RowsPersist(k, run, more, After(k, run).writers[w].pc.artifact.id);
  }

  /** Upload `w` tried to insert with an id that already was a primary key. */
  ghost predicate DrewTakenId(k: Codec, run: seq<Event>, w: nat) {
    exists i :: 0 <= i < |run| && TakenIdDrawnAt(k, run, w, i)
  }

  ghost predicate TakenIdDrawnAt(k: Codec, run: seq<Event>, w: nat, i: nat)
    requires i < |run|
  {
    run[i].Insert? && run[i].writer == w && run[i].id in After(k, run[..i]).rows
  }

  ghost predicate RefusalsExplained(k: Codec, run: seq<Event>) {
    var s := After(k, run);
    forall w :: w in s.writers ==>
      && (s.writers[w].pc.InsertRefused? ==>
            IsStored(s.rows, k.sha256(s.writers[w].body), |s.writers[w].body|) || DrewTakenId(k, run, w))
      && (s.writers[w].pc == Failed(NoMatchingRow) ==> DrewTakenId(k, run, w))
  }

  lemma {:induction false} RefusalsAreExplained(k: Codec, run: seq<Event>)
    ensures RefusalsExplained(k, run)
  {
    if run != [] {
      var before, e := run[..|run| - 1], run[|run| - 1];
      RefusalsAreExplained(k, before);
      assert before + [e] == run;
      var s, t := After(k, before), After(k, run);
      StepEffects(k, s, e);
      forall w | w in t.writers
        ensures t.writers[w].pc.InsertRefused? ==>
          IsStored(t.rows, k.sha256(t.writers[w].body), |t.writers[w].body|) || DrewTakenId(k, run, w)
        ensures t.writers[w].pc == Failed(NoMatchingRow) ==> DrewTakenId(k, run, w)
      {
        if w in s.writers {
          StepFrame(k, s, e, w);
          DrewTakenIdLater(k, before, e, w);
          RefusalStep(k, before, e, w);
          StoredLater(k, s, e, k.sha256(s.writers[w].body), |s.writers[w].body|);
        }
      }
    }
  }

  lemma StoredLater(k: Codec, s: Store, e: Event, sha: string, size: nat)
    ensures IsStored(s.rows, sha, size) ==> IsStored(Step(k, s, e).rows, sha, size)
  {
    StepEffects(k, s, e);
    if IsStored(s.rows, sha, size) {
      var id := FindId(s.rows, sha, size);
      assert id in Step(k, s, e).rows && Matches(Step(k, s, e).rows[id], sha, size);
    }
  }

  lemma RefusalStep(k: Codec, run: seq<Event>, e: Event, w: nat)
    requires RefusalsExplained(k, run) && w in After(k, run).writers
    ensures
      var s, t := After(k, run), Step(k, After(k, run), e);
      var all := run + [e];
      w in t.writers
      && (t.writers[w].pc.InsertRefused? && s.writers[w].pc != t.writers[w].pc ==>
            IsStored(s.rows, k.sha256(s.writers[w].body), |s.writers[w].body|) || DrewTakenId(k, all, w))
      && (t.writers[w].pc == Failed(NoMatchingRow) && s.writers[w].pc != t.writers[w].pc ==>
            DrewTakenId(k, run, w))
  {
    StepFrame(k, After(k, run), e, w);
    var all := run + [e];
    assert all[..|run|] == run;
    if e.Insert? && e.writer == w && e.id in After(k, run).rows {
      assert TakenIdDrawnAt(k, all, w, |run|);
    }
  }

  lemma DrewTakenIdLater(k: Codec, run: seq<Event>, e: Event, w: nat)
    ensures DrewTakenId(k, run, w) ==> DrewTakenId(k, run + [e], w)
  {
    if DrewTakenId(k, run, w) {
      var i: nat :| i < |run| && TakenIdDrawnAt(k, run, w, i);
      assert (run + [e])[..i] == run[..i];
      assert TakenIdDrawnAt(k, run + [e], w, i);
    }
  }

  /** "Unique violation on artifact insert but no matching row found" is
      unreachable as long as generated ids are fresh. */
  lemma NoMatchingRowNeedsTakenId(k: Codec, run: seq<Event>, w: nat)
    requires w in After(k, run).writers && After(k, run).writers[w].pc == Failed(NoMatchingRow)
    ensures DrewTakenId(k, run, w)
  {
    RefusalsAreExplained(k, run);
  }

  // ----- An upload that nothing interrupts ----------------------------------

  /** The events of one upload run to its end; those of the branch not taken
      change nothing. */
  function CopyEvents(w: nat, kind: ArtifactKind, body: Bytes): seq<Event> {
    [Begin(w, kind, body), CopyChunk(w, |body|, []), FinishCopy(w)]
  }

  function MoveEvents(w: nat): seq<Event> {
    [TestFinal(w, true), DropTemp(w, true), Rename(w, true)]
  }

  function RecordEvents(w: nat, id: nat): seq<Event> {
    [FindExisting(w, true), Insert(w, id, true), FindAgain(w, true)]
  }

  lemma AfterThree(k: Codec, run: seq<Event>, es: seq<Event>)
    requires |es| == 3
    ensures After(k, run + es) == Step(k, Step(k, Step(k, After(k, run), es[0]), es[1]), es[2])
  {
    AfterSnoc(k, run, es[0]);
    AfterSnoc(k, run + [es[0]], es[1]);
    AfterSnoc(k, run + [es[0]] + [es[1]], es[2]);
    assert run + es == run + [es[0]] + [es[1]] + [es[2]];
  }

  /** A fresh upload with its complete temporary file, everything else as in `s`. */
  ghost function Copied(k: Codec, s: Store, w: nat, kind: ArtifactKind, body: Bytes): Store {
    Store(s.files, s.temps[w := k.Encode(kind.Compression(), body)], s.rows,
          s.writers[w := Writer(kind, body, Hashed)])
  }

  lemma CopyPhase(k: Codec, run: seq<Event>, w: nat, kind: ArtifactKind, body: Bytes)
    requires w !in After(k, run).writers
    ensures After(k, run + CopyEvents(w, kind, body)) == Copied(k, After(k, run), w, kind, body)
  {
    var s := After(k, run);
    var es := CopyEvents(w, kind, body);
    AfterThree(k, run, es);
    var s1 := Step(k, s, es[0]);
    assert s1 == Opened(s, w, kind, body, 0);
    CopyWhole(k, s, w, kind, body);
    FinishWhole(k, s, w, kind, body);
  }

  /** A fresh upload with an unfinished temporary file. */
  ghost function Opened(s: Store, w: nat, kind: ArtifactKind, body: Bytes, read: nat): Store {
    s.(temps := s.temps[w := []], writers := s.writers[w := Writer(kind, body, Copying(read))])
  }

  lemma CopyWhole(k: Codec, s: Store, w: nat, kind: ArtifactKind, body: Bytes)
    ensures Step(k, Opened(s, w, kind, body, 0), CopyChunk(w, |body|, [])) == Opened(s, w, kind, body, |body|)
  {
    var s1 := Opened(s, w, kind, body, 0);
    if |body| > 0 {
      assert s1.temps[w := []] == s1.temps;
      assert s1.writers[w := Writer(kind, body, Copying(|body|))] == s.writers[w := Writer(kind, body, Copying(|body|))];
    }
  }

  lemma FinishWhole(k: Codec, s: Store, w: nat, kind: ArtifactKind, body: Bytes)
    ensures Step(k, Opened(s, w, kind, body, |body|), FinishCopy(w)) == Copied(k, s, w, kind, body)
  {
  }

  /** The blob is in place (kept if it was there) and the temporary file gone. */
  ghost function Moved(k: Codec, s: Store, w: nat): Store
    requires w in s.temps && w in s.writers
  {
    var path := PathOf(k, s.writers[w].body);
    Store(if path in s.files then s.files else s.files[path := s.temps[w]], s.temps - {w}, s.rows,
          s.writers[w := s.writers[w].(pc := Landed)])
  }

  lemma TestStep(k: Codec, s: Store, w: nat)
    requires w in s.writers && s.writers[w].pc.Hashed?
    ensures Step(k, s, TestFinal(w, true)) ==
      At(s, w, if PathOf(k, s.writers[w].body) in s.files then FinalSeen else FinalUnseen)
  {
  }

  lemma DropSteps(k: Codec, s: Store, w: nat)
    requires w in s.temps && w in s.writers && s.writers[w].pc.FinalSeen?
    ensures Step(k, Step(k, s, DropTemp(w, true)), Rename(w, true)) == At(s.(temps := s.temps - {w}), w, Landed)
  {
  }

  lemma RenameSteps(k: Codec, s: Store, w: nat)
    requires w in s.temps && w in s.writers && s.writers[w].pc.FinalUnseen?
    ensures Step(k, Step(k, s, DropTemp(w, true)), Rename(w, true)) ==
      At(s.(files := s.files[PathOf(k, s.writers[w].body) := s.temps[w]], temps := s.temps - {w}), w, Landed)
  {
    assert Step(k, s, DropTemp(w, true)) == s;
  }

  lemma MovePhase(k: Codec, run: seq<Event>, w: nat)
    requires
      var s := After(k, run);
      w in s.temps && w in s.writers && s.writers[w].pc.Hashed?
    ensures After(k, run + MoveEvents(w)) == Moved(k, After(k, run), w)
  {
    var s := After(k, run);
    AfterThree(k, run, MoveEvents(w));
    TestStep(k, s, w);
    var s1 := Step(k, s, TestFinal(w, true));
    if PathOf(k, s.writers[w].body) in s.files {
      DropSteps(k, s1, w);
      AtTwice(s.(temps := s.temps - {w}), w, FinalSeen, Landed);
    } else {
      RenameSteps(k, s1, w);
      AtTwice(Moved(k, s, w), w, FinalUnseen, Landed);
    }
  }

  lemma FindStep(k: Codec, s: Store, w: nat)
    requires w in s.writers && s.writers[w].pc.Landed?
    ensures
      var writer := s.writers[w];
      var sha, size := k.sha256(writer.body), |writer.body|;
      Step(k, s, FindExisting(w, true)) ==
        At(s, w, if IsStored(s.rows, sha, size) then Reply(k, writer, FindId(s.rows, sha, size)) else RowUnseen)
  {
  }

  lemma ReturnedStays(k: Codec, s: Store, w: nat, id: nat)
    requires w in s.writers && s.writers[w].pc.Returned?
    ensures Step(k, s, Insert(w, id, true)) == s && Step(k, s, FindAgain(w, true)) == s
  {
  }

  lemma InsertStep(k: Codec, s: Store, w: nat, id: nat)
    requires w in s.writers && s.writers[w].pc.RowUnseen?
    requires !IsStored(s.rows, k.sha256(s.writers[w].body), |s.writers[w].body|)
    ensures
      var writer := s.writers[w];
      Step(k, s, Insert(w, id, true)) ==
        if id in s.rows then At(s, w, InsertRefused)
        else At(s.(rows := s.rows[id := RowFor(k, writer)]), w, Reply(k, writer, id))
  {
  }

  lemma AtTwice(s: Store, w: nat, first: Pc, second: Pc)
    requires w in s.writers
    ensures At(At(s, w, first), w, second) == At(s, w, second)
  {
    var writer := s.writers[w];
    assert s.writers[w := writer.(pc := first)][w := writer.(pc := second)] == s.writers[w := writer.(pc := second)];
  }

  /** The content's row exists and the upload has returned its id. */
  lemma RecordPhase(k: Codec, run: seq<Event>, w: nat, id: nat)
    requires
      var s := After(k, run);
      w in s.writers && s.writers[w].pc.Landed? && id !in s.rows
    ensures
      var s, t := After(k, run), After(k, run + RecordEvents(w, id));
      var writer := s.writers[w];
      var sha, size := k.sha256(writer.body), |writer.body|;
      t == if IsStored(s.rows, sha, size) then At(s, w, Reply(k, writer, FindId(s.rows, sha, size)))
           else At(s.(rows := s.rows[id := RowFor(k, writer)]), w, Reply(k, writer, id))
  {
    var s := After(k, run);
    var writer := s.writers[w];
    AfterThree(k, run, RecordEvents(w, id));
    FindStep(k, s, w);
    var s1 := Step(k, s, FindExisting(w, true));
    if s1.writers[w].pc.RowUnseen? {
      InsertStep(k, s1, w, id);
      AtTwice(s.(rows := s.rows[id := RowFor(k, writer)]), w, RowUnseen, Reply(k, writer, id));
      ReturnedStays(k, Step(k, s1, Insert(w, id, true)), w, id);
    } else {
      ReturnedStays(k, s1, w, id);
    }
  }

  function UploadEvents(w: nat, kind: ArtifactKind, body: Bytes, id: nat): seq<Event> {
    CopyEvents(w, kind, body) + MoveEvents(w) + RecordEvents(w, id)
  }

  /** After the copy and the move the upload has landed, with its blob in place
      and its temporary file gone. */
  lemma LandsUninterrupted(k: Codec, run: seq<Event>, w: nat, kind: ArtifactKind, body: Bytes)
    requires w !in After(k, run).writers
    ensures
      var t := After(k, run + CopyEvents(w, kind, body) + MoveEvents(w));
      && w in t.writers && t.writers[w] == Writer(kind, body, Landed)
      && PathOf(k, body) in t.files && w !in t.temps && t.rows == After(k, run).rows
  {
    CopyPhase(k, run, w, kind, body);
    MovePhase(k, run + CopyEvents(w, kind, body), w);
  }

  lemma RecordsUninterrupted(k: Codec, run: seq<Event>, w: nat, id: nat)
    requires
      var s := After(k, run);
      w in s.writers && s.writers[w].pc.Landed? && id !in s.rows
    ensures
      var s, t := After(k, run), After(k, run + RecordEvents(w, id));
      && w in t.writers && t.writers[w].body == s.writers[w].body
      && t.writers[w].pc.Returned? && ReplyIsValid(k, t.rows, t.writers[w])
      && t.files == s.files && t.temps == s.temps
  {
    RecordPhase(k, run, w, id);
  }

  /** Started in any reachable state, an upload that nothing interrupts returns,
      and leaves the content's blob and row behind. */
  lemma UninterruptedUploadReturns(k: Codec, run: seq<Event>, w: nat, kind: ArtifactKind, body: Bytes, id: nat)
    requires w !in After(k, run).writers && id !in After(k, run).rows
    ensures
      var t := After(k, run + UploadEvents(w, kind, body, id));
      && w in t.writers && t.writers[w].body == body && t.writers[w].pc.Returned?
      && PathOf(k, body) in t.files
      && t.writers[w].pc.artifact.id in t.rows
      && Matches(t.rows[t.writers[w].pc.artifact.id], k.sha256(body), |body|)
      && w !in t.temps
  {
    var landed := run + CopyEvents(w, kind, body) + MoveEvents(w);
    LandsUninterrupted(k, run, w, kind, body);
    RecordsUninterrupted(k, landed, w, id);
    assert run + UploadEvents(w, kind, body, id) == landed + RecordEvents(w, id);
  }

  lemma GivesUpStep(k: Codec, s: Store, w: nat)
    requires w in s.writers && s.writers[w].pc.InsertRefused?
    requires !IsStored(s.rows, k.sha256(s.writers[w].body), |s.writers[w].body|)
    ensures Step(k, s, FindAgain(w, true)) == At(s, w, Failed(NoMatchingRow))
  {
  }

  lemma RefusedPhase(k: Codec, run: seq<Event>, w: nat, id: nat)
    requires
      var s := After(k, run);
      && w in s.writers && s.writers[w].pc.Landed? && id in s.rows
      && !IsStored(s.rows, k.sha256(s.writers[w].body), |s.writers[w].body|)
    ensures After(k, run + RecordEvents(w, id)) == At(After(k, run), w, Failed(NoMatchingRow))
  {
    var s := After(k, run);
    AfterThree(k, run, RecordEvents(w, id));
    FindStep(k, s, w);
    InsertStep(k, At(s, w, RowUnseen), w, id);
    AtTwice(s, w, RowUnseen, InsertRefused);
    GivesUpStep(k, At(s, w, InsertRefused), w);
    AtTwice(s, w, InsertRefused, Failed(NoMatchingRow));
  }

  /** With an id that repeats, the refused insert finds no row: the freshness of
      ids in `NoMatchingRowNeedsTakenId` cannot be dropped. */
  lemma TakenIdReachesNoMatchingRow(k: Codec, run: seq<Event>, w: nat, body: Bytes, id: nat)
    requires w !in After(k, run).writers && id in After(k, run).rows
    requires !IsStored(After(k, run).rows, k.sha256(body), |body|)
    ensures
      var t := After(k, run + UploadEvents(w, Prompt, body, id));
      w in t.writers && t.writers[w].pc == Failed(NoMatchingRow)
  {
    var landed := run + CopyEvents(w, Prompt, body) + MoveEvents(w);
    LandsUninterrupted(k, run, w, Prompt, body);
    RefusedPhase(k, landed, w, id);
    assert run + UploadEvents(w, Prompt, body, id) == landed + RecordEvents(w, id);
  }
}
