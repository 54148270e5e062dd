/** Uploads slower than the cleanup's retention: what becomes of an upload that is
    still under way when a cleanup takes its temporary file. */
module SlowUploads {
  import opened Content
  import opened ArtifactProtocol
  import opened ArtifactInvariants
  import opened ReadBack

  /** The upload still needs its temporary file, or a file of another upload. */
  predicate NotLanded(pc: Pc) {
    pc.Copying? || BeforeLanding(pc)
  }

  /** The upload got behind the move, whatever happened to it since. */
  predicate PastMove(pc: Pc) {
    || pc.Landed? || pc.RowUnseen? || pc.InsertRefused? || pc.Returned?
    || pc == Failed(DbError) || pc == Failed(NoMatchingRow)
  }

  /** `w` is under way and its temporary file is gone. */
  ghost predicate Stranded(s: Store, w: nat) {
    w in s.writers && w !in s.temps && NotLanded(s.writers[w].pc)
  }

  // ----- In every interleaving ----------------------------------------------

  /** The second stat of upload `w`, behind its failed rename, finds a file. */
  ghost predicate FindsFileAgain(k: Codec, s: Store, e: Event, w: nat) {
    && e.TestFinalAgain? && e.writer == w && e.statOk
    && w in s.writers && s.writers[w].pc.RenameFailed? && PathOf(k, s.writers[w].body) in s.files
  }

  ghost predicate FoundFileAgain(k: Codec, run: seq<Event>, more: seq<Event>, w: nat) {
    exists i :: 0 <= i < |more| && FindsFileAgain(k, After(k, run + more[..i]), more[i], w)
  }

  lemma FoundFileAgainSnoc(k: Codec, run: seq<Event>, more: seq<Event>, e: Event, w: nat)
    ensures FoundFileAgain(k, run, more + [e], w) <==>
      FoundFileAgain(k, run, more, w) || FindsFileAgain(k, After(k, run + more), e, w)
  {
    var all := more + [e];
    assert all[..|more|] == more;
    forall i | 0 <= i < |more| ensures all[..i] == more[..i] && all[i] == more[i] {
    }
    if FoundFileAgain(k, run, more, w) {
      var i :| 0 <= i < |more| && FindsFileAgain(k, After(k, run + more[..i]), more[i], w);
      assert FindsFileAgain(k, After(k, run + all[..i]), all[i], w);
    }
    if FindsFileAgain(k, After(k, run + more), e, w) {
      assert FindsFileAgain(k, After(k, run + all[..|more|]), all[|more|], w);
    }
  }

  /** Where an upload without its temporary file can be, by whether its second
      stat has found a file. */
  predicate Fate(pc: Pc, found: bool) {
    pc.Crashed? || if found then PastMove(pc) else NotLanded(pc) || pc == Failed(IoError)
  }

  lemma OwnStepWithoutTemp(k: Codec, s: Store, e: Event, w: nat, found: bool)
    requires w in s.writers && w !in s.temps && Fate(s.writers[w].pc, found)
    requires RunsWriter(s, e) && e.writer == w
    ensures
      var t := WriterStep(k, s, w, e);
      w in t.writers ==> Fate(t.writers[w].pc, found || FindsFileAgain(k, s, e, w))
  {
  }

  /** Without its temporary file an upload lands by its second stat or not at all. */
  lemma StepWithoutTemp(k: Codec, s: Store, e: Event, w: nat, found: bool)
    requires w in s.writers && w !in s.temps && Fate(s.writers[w].pc, found)
    ensures
      var t := Step(k, s, e);
      && w in t.writers && w !in t.temps
      && Fate(t.writers[w].pc, found || FindsFileAgain(k, s, e, w))
  {
    StepFrame(k, s, e, w);
    if RunsWriter(s, e) {
      WriterTempFrame(k, s, e.writer, e);
      if e.writer == w {
        OwnStepWithoutTemp(k, s, e, w, found);
      }
    }
  }

  lemma {:induction false} StrandedFate(k: Codec, run: seq<Event>, more: seq<Event>, w: nat)
    requires Stranded(After(k, run), w)
    ensures
      var t := After(k, run + more);
      w in t.writers && w !in t.temps && Fate(t.writers[w].pc, FoundFileAgain(k, run, more, w))
  {
    if more == [] {
      assert run + more == run;
    } else {
      var before, e := more[..|more| - 1], more[|more| - 1];
      StrandedFate(k, run, before, w);
      assert before + [e] == more && run + more == (run + before) + [e];
      AfterSnoc(k, run + before, e);
      StepWithoutTemp(k, After(k, run + before), e, w, FoundFileAgain(k, run, before, w));
      FoundFileAgainSnoc(k, run, before, e, w);
    }
  }

  /** Whatever runs beside it, an upload that lost its temporary file gets behind
      the move if and only if its second stat finds a file, which then is another
      upload's. */
  lemma StrandedLandsIff(k: Codec, run: seq<Event>, more: seq<Event>, w: nat)
    requires Stranded(After(k, run), w)
    ensures
      var t := After(k, run + more);
      && w in t.writers
      && (!t.writers[w].pc.Crashed? ==> (PastMove(t.writers[w].pc) <==> FoundFileAgain(k, run, more, w)))
  {
    StrandedFate(k, run, more, w);
  }

  // ----- With nothing else in between ---------------------------------------

  function Unread(writer: Writer): nat {
    if writer.pc.Copying? && writer.pc.read < |writer.body| then |writer.body| - writer.pc.read else 0
  }

  /** What is left of an upload up to the move; the events of branches not taken
      change nothing. */
  function RestOfCopy(w: nat, unread: nat): seq<Event> {
    [CopyChunk(w, unread, []), FinishCopy(w), TestFinal(w, true)]
  }

  function RestOfMove(w: nat): seq<Event> {
    [DropTemp(w, true), Rename(w, true), TestFinalAgain(w, true, true)]
  }

  function RestOfUpload(w: nat, unread: nat, id: nat): seq<Event> {
    RestOfCopy(w, unread) + RestOfMove(w) + RecordEvents(w, id)
  }

  predicate ReadWithin(writer: Writer) {
    writer.pc.Copying? ==> writer.pc.read <= |writer.body|
  }

  lemma StepReadsWithin(k: Codec, s: Store, e: Event, w: nat)
    requires w in Step(k, s, e).writers && (w in s.writers ==> ReadWithin(s.writers[w]))
    ensures ReadWithin(Step(k, s, e).writers[w])
  {
    if w in s.writers {
      StepFrame(k, s, e, w);
    } else {
      NewWriter(k, s, e, w);
    }
  }

  lemma {:induction false} ReadsWithinBody(k: Codec, run: seq<Event>, w: nat)
    requires w in After(k, run).writers
    ensures ReadWithin(After(k, run).writers[w])
  {
    var before, e := run[..|run| - 1], run[|run| - 1];
    if w in After(k, before).writers {
      ReadsWithinBody(k, before, w);
    }
    StepReadsWithin(k, After(k, before), e, w);
  }

  /** The copy goes on into the unlinked file. */
  lemma CopiesOn(k: Codec, s: Store, w: nat)
    requires Stranded(s, w) && ReadWithin(s.writers[w])
    ensures
      var t := Step(k, Step(k, s, CopyChunk(w, Unread(s.writers[w]), [])), FinishCopy(w));
      t == At(s, w, if s.writers[w].pc.Copying? then Hashed else s.writers[w].pc)
  {
    var writer := s.writers[w];
    assert s.writers[w := writer] == s.writers;
    if writer.pc.Copying? {
      var copied := At(s, w, Copying(|writer.body|));
      assert Step(k, s, CopyChunk(w, Unread(writer), [])) == copied;
      assert Step(k, copied, FinishCopy(w)) == At(copied, w, Hashed);
      AtTwice(s, w, Copying(|writer.body|), Hashed);
    }
  }

  /** Where the move takes an upload without a temporary file. */
  ghost function MovedWithoutTemp(k: Codec, s: Store, w: nat): Pc
    requires w in s.writers
  {
    var pc := s.writers[w].pc;
    if (pc.FinalUnseen? || pc.RenameFailed?) && PathOf(k, s.writers[w].body) in s.files then Landed
    else Failed(IoError)
  }

  lemma FinalSeenFails(k: Codec, s: Store, w: nat)
    requires Stranded(s, w) && s.writers[w].pc.FinalSeen?
    ensures Step(k, s, DropTemp(w, true)) == At(s, w, Failed(IoError))
    ensures
      var t := At(s, w, Failed(IoError));
      Step(k, t, Rename(w, true)) == t && Step(k, t, TestFinalAgain(w, true, true)) == t
  {
  }

  lemma FinalUnseenTriesAgain(k: Codec, s: Store, w: nat)
    requires Stranded(s, w) && (s.writers[w].pc.FinalUnseen? || s.writers[w].pc.RenameFailed?)
    ensures Step(k, s, DropTemp(w, true)) == s
    ensures Step(k, s, Rename(w, true)) == At(s, w, RenameFailed)
    ensures
      Step(k, At(s, w, RenameFailed), TestFinalAgain(w, true, true)) ==
        At(s, w, if PathOf(k, s.writers[w].body) in s.files then Landed else Failed(IoError))
  {
    var t := At(s, w, RenameFailed);
    assert s.temps - {w} == s.temps;
    assert WithoutTemp(t, w, true) == t;
    if s.writers[w].pc.RenameFailed? {
      assert s.writers[w := s.writers[w]] == s.writers;
      assert Step(k, s, Rename(w, true)) == s == t;
    }
    AtTwice(s, w, RenameFailed, Landed);
    AtTwice(s, w, RenameFailed, Failed(IoError));
  }

  lemma MovesBehindTheTest(k: Codec, s: Store, w: nat)
    requires Stranded(s, w) && !s.writers[w].pc.Copying? && !s.writers[w].pc.Hashed?
    ensures
      Step(k, Step(k, Step(k, s, DropTemp(w, true)), Rename(w, true)), TestFinalAgain(w, true, true)) ==
        At(s, w, MovedWithoutTemp(k, s, w))
  {
    if s.writers[w].pc.FinalSeen? {
      FinalSeenFails(k, s, w);
    } else {
      FinalUnseenTriesAgain(k, s, w);
    }
  }

  /** From the test of the final path on. */
  lemma MovesWithoutTemp(k: Codec, s: Store, w: nat)
    requires Stranded(s, w) && !s.writers[w].pc.Copying?
    ensures
      var tested := Step(k, s, TestFinal(w, true));
      Step(k, Step(k, Step(k, tested, DropTemp(w, true)), Rename(w, true)), TestFinalAgain(w, true, true)) ==
        At(s, w, MovedWithoutTemp(k, s, w))
  {
    var tested := Step(k, s, TestFinal(w, true));
    if s.writers[w].pc.Hashed? {
      var seen := if PathOf(k, s.writers[w].body) in s.files then FinalSeen else FinalUnseen;
      assert tested == At(s, w, seen);
      AtTwice(s, w, seen, Failed(IoError));
    } else {
      assert tested == s;
    }
    MovesBehindTheTest(k, tested, w);
  }

  lemma StrandedMoves(k: Codec, run: seq<Event>, w: nat)
    requires Stranded(After(k, run), w)
    ensures
      var s := After(k, run);
      After(k, run + RestOfCopy(w, Unread(s.writers[w])) + RestOfMove(w)) == At(s, w, MovedWithoutTemp(k, s, w))
  {
    var s := After(k, run);
    var copy := RestOfCopy(w, Unread(s.writers[w]));
    ReadsWithinBody(k, run, w);
    AfterThree(k, run, copy);
    AfterThree(k, run + copy, RestOfMove(w));
    StepsWithoutTemp(k, s, w);
  }

  lemma StepsWithoutTemp(k: Codec, s: Store, w: nat)
    requires Stranded(s, w) && ReadWithin(s.writers[w])
    ensures
      var copied := Step(k, Step(k, s, CopyChunk(w, Unread(s.writers[w]), [])), FinishCopy(w));
      var tested := Step(k, copied, TestFinal(w, true));
      Step(k, Step(k, Step(k, tested, DropTemp(w, true)), Rename(w, true)), TestFinalAgain(w, true, true)) ==
        At(s, w, MovedWithoutTemp(k, s, w))
  {
    var hashed := if s.writers[w].pc.Copying? then Hashed else s.writers[w].pc;
    CopiesOn(k, s, w);
    MovesWithoutTemp(k, At(s, w, hashed), w);
    AtTwice(s, w, hashed, MovedWithoutTemp(k, s, w));
  }

  lemma FailedStays(k: Codec, s: Store, w: nat, id: nat)
    requires w in s.writers && s.writers[w].pc.Failed?
    ensures Step(k, Step(k, Step(k, s, FindExisting(w, true)), Insert(w, id, true)), FindAgain(w, true)) == s
  {
  }

  /** An upload under way that lost its temporary file, and that nothing else
      interrupts, returns if and only if it has not seen a file at its final path
      although one is there by its second stat.  Otherwise it fails: on the drop
      of its temporary file if it saw one, on the rename if there is none, and in
      either way if it has yet to look. */
  lemma StrandedUploadReturnsIff(k: Codec, run: seq<Event>, w: nat, id: nat)
    requires Stranded(After(k, run), w) && id !in After(k, run).rows
    ensures
      var s := After(k, run);
      var t := After(k, run + RestOfUpload(w, Unread(s.writers[w]), id));
      var pc := s.writers[w].pc;
      && w in t.writers && t.files == s.files
      && (t.writers[w].pc.Returned? <==>
            (pc.FinalUnseen? || pc.RenameFailed?) && PathOf(k, s.writers[w].body) in s.files)
      && (if t.writers[w].pc.Returned? then ReplyIsValid(k, t.rows, t.writers[w]) && t.writers[w].body == s.writers[w].body
          else t.writers[w].pc == Failed(IoError) && t.rows == s.rows)
  {
    var s := After(k, run);
    var moved := run + RestOfCopy(w, Unread(s.writers[w])) + RestOfMove(w);
    StrandedMoves(k, run, w);
    assert run + RestOfUpload(w, Unread(s.writers[w]), id) == moved + RecordEvents(w, id);
    if MovedWithoutTemp(k, s, w).Landed? {
      RecordsUninterrupted(k, moved, w, id);
    } else {
      AfterThree(k, moved, RecordEvents(w, id));
      FailedStays(k, After(k, moved), w, id);
    }
  }

  // ----- Both outcomes are reached ------------------------------------------

  /** An upload has copied and hashed everything; a cleanup takes its finished
      temporary file; the upload fails, and neither file nor row is left. */
  lemma CleanupFailsALiveUpload(k: Codec, kind: ArtifactKind, c: Bytes)
    ensures
      var copied := CopyEvents(0, kind, c);
      var s := After(k, copied);
      var t := After(k, copied + [Cleanup({0})] + RestOfUpload(0, 0, 5));
      && 0 in s.temps && s.temps[0] == k.Encode(kind.Compression(), c)
      && 0 in s.writers && s.writers[0].pc == Hashed
      && 0 in t.writers && t.writers[0].pc == Failed(IoError) && t.files == map[] && t.rows == map[]
  {
    var copied := CopyEvents(0, kind, c);
    assert copied == [] + copied;
    CopyPhase(k, [], 0, kind, c);
    AfterSnoc(k, copied, Cleanup({0}));
    StrandedUploadReturnsIff(k, copied + [Cleanup({0})], 0, 5);
  }

  /** An upload that is about to rename while another one of the content has
      returned. */
  function OvertakenEvents(kind: ArtifactKind, other: ArtifactKind, c: Bytes): seq<Event> {
    CopyEvents(0, kind, c) + [TestFinal(0, true)] + UploadEvents(1, other, c, 5)
  }

  lemma OvertakenUpload(k: Codec, kind: ArtifactKind, other: ArtifactKind, c: Bytes)
    requires kind.Compresses()
    ensures
      var s := After(k, OvertakenEvents(kind, other, c));
      && AboutToRename(k, s, 0, c) && s.rows == map[5 := RowFor(k, Writer(other, c, Landed))]
      && PathOf(k, c) in s.files
  {
    var start := CopyEvents(0, kind, c) + [TestFinal(0, true)];
    RaceStart(k, kind, c);
    UninterruptedUploadReturns(k, start, 1, other, c, 5);
    RaceMiddle(k, start, 0, 1, other, c, 5);
  }

  /** A content has one row, so an upload of it that returns, returns that. */
  lemma ReturnsTheRow(k: Codec, run: seq<Event>, w: nat, id: nat)
    requires w in After(k, run).writers && After(k, run).writers[w].pc.Returned?
    requires
      var s := After(k, run);
      id in s.rows && Matches(s.rows[id], k.sha256(s.writers[w].body), |s.writers[w].body|)
    ensures After(k, run).writers[w].pc.artifact.id == id
  {
    InvHolds(k, run);
    var s := After(k, run);
    assert SameContent(s.rows[id], s.rows[s.writers[w].pc.artifact.id]);
  }

  /** The same cleanup while another upload of the content has put its file in
      place: the rename fails, the second stat finds that file, and the upload
      returns the other's row. */
  lemma CleanupSparesASecondUpload(k: Codec, kind: ArtifactKind, other: ArtifactKind, c: Bytes)
    requires kind.Compresses()
    ensures
      var s := After(k, OvertakenEvents(kind, other, c));
      var t := After(k, OvertakenEvents(kind, other, c) + [Cleanup({0})] + RestOfUpload(0, 0, 7));
      && 0 in s.temps && 0 in s.writers && s.writers[0].pc == FinalUnseen
      && 0 in t.writers && t.writers[0].pc.Returned? && t.writers[0].pc.artifact.id == 5
  {
    var taken := OvertakenEvents(kind, other, c) + [Cleanup({0})];
    OvertakenUpload(k, kind, other, c);
    AfterSnoc(k, OvertakenEvents(kind, other, c), Cleanup({0}));
    StrandedUploadReturnsIff(k, taken, 0, 7);
    RowsPersist(k, taken, RestOfUpload(0, 0, 7), 5);
    ReturnsTheRow(k, taken + RestOfUpload(0, 0, 7), 0, 5);
  }
}
