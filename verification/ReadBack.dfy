/** Reading a stored artifact back.  A blob's path depends on the content's
    digest alone, its encoding on the kind of whichever upload placed it, and a
    row's `compression` on the kind of whichever upload inserted it. */
module ReadBack {
  import opened Prelude
  import opened Content
  import opened ArtifactProtocol
  import opened ArtifactInvariants

  datatype OpenError = FileMissing | DecodeFailed

  /** The bytes a reader of the artifact receives. */
  function OpenArtifactContent(k: Codec, s: Store, row: Row): Result<Bytes, OpenError> {
    if row.storagePath !in s.files then Err(FileMissing)
    else
      match k.Decode(row.compression, s.files[row.storagePath])
      case Some(bytes) => Ok(bytes)
      case None => Err(DecodeFailed)
  }

  /** Every row of content `c` reads back as `c`. */
  ghost predicate ReadsBack(k: Codec, s: Store, c: Bytes) {
    forall id :: id in s.rows && Matches(s.rows[id], k.sha256(c), |c|) ==>
      OpenArtifactContent(k, s, s.rows[id]) == Ok(c)
  }

  /** Content `c` is only ever uploaded under these kinds. */
  ghost predicate UploadedAs(run: seq<Event>, c: Bytes, kinds: set<ArtifactKind>) {
    forall i :: 0 <= i < |run| && run[i].Begin? && run[i].body == c ==> run[i].kind in kinds
  }

  predicate AgreeOnCompression(kinds: set<ArtifactKind>) {
    forall a, b :: a in kinds && b in kinds ==> a.Compresses() == b.Compresses()
  }

  /** Uploads, blob and rows of `c` all use compression `z`. */
  ghost predicate Uniform(k: Codec, s: Store, c: Bytes, z: Compression) {
    && (forall w :: w in s.writers && s.writers[w].body == c ==> s.writers[w].kind.Compression() == z)
    && (PathOf(k, c) in s.files ==> s.files[PathOf(k, c)] == k.Encode(z, c))
    && (forall id :: id in s.rows && s.rows[id].sha256 == k.sha256(c) ==>
          s.rows[id].compression == z && s.rows[id].storagePath == PathOf(k, c))
  }

  lemma StepKeepsUniform(k: Codec, s: Store, e: Event, c: Bytes, z: Compression)
    requires k.Lawful() && TempsComplete(k, s) && Uniform(k, s, c, z)
    requires e.Begin? && e.body == c ==> e.kind.Compression() == z
    ensures Uniform(k, Step(k, s, e), c, z)
  {
    var t := Step(k, s, e);
    StepEffects(k, s, e);
    if Places(s, e) && PathOf(k, s.writers[e.writer].body) == PathOf(k, c) {
      PathsAreInjective(k.sha256(s.writers[e.writer].body), k.sha256(c));
    }
    forall w | w in t.writers && t.writers[w].body == c
      ensures t.writers[w].kind.Compression() == z
    {
      if w in s.writers {
        StepFrame(k, s, e, w);
      } else {
        NewWriter(k, s, e, w);
      }
    }
  }

  lemma NewWriter(k: Codec, s: Store, e: Event, w: nat)
    requires w in Step(k, s, e).writers && w !in s.writers
    ensures e.Begin? && e.writer == w && Step(k, s, e).writers[w] == Writer(e.kind, e.body, Copying(0))
  {
    if !e.Begin? && !e.Cleanup? && !e.UnlinkOutOfBand? && e.writer in s.writers {
      WriterFrame(k, s, e.writer, e);
    }
  }

  lemma {:induction false} UniformHolds(k: Codec, run: seq<Event>, c: Bytes, kinds: set<ArtifactKind>, z: Compression)
    requires k.Lawful() && UploadedAs(run, c, kinds)
    requires forall a :: a in kinds ==> a.Compression() == z
    ensures Uniform(k, After(k, run), c, z)
  {
    if run != [] {
      var before := run[..|run| - 1];
      UniformHolds(k, before, c, kinds, z);
      InvHolds(k, before);
      StepKeepsUniform(k, After(k, before), run[|run| - 1], c, z);
    }
  }

  /** With agreeing kinds the row's compression is the blob's encoding, so the
      row reads back, and every reply reports the row's compression. */
  lemma AgreementReadsBack(k: Codec, run: seq<Event>, c: Bytes, kinds: set<ArtifactKind>)
    requires k.Lawful() && NothingUnlinked(run) && UploadedAs(run, c, kinds) && AgreeOnCompression(kinds)
    ensures ReadsBack(k, After(k, run), c)
    ensures
      var s := After(k, run);
      forall w :: w in s.writers && s.writers[w].body == c && s.writers[w].pc.Returned? ==>
        var a := s.writers[w].pc.artifact;
        a.id in s.rows && s.rows[a.id].compression == s.writers[w].kind.Compression()
  {
    var z := if exists a :: a in kinds && a.Compresses() then Zstd else Uncompressed;
    UniformHolds(k, run, c, kinds, z);
    InvHolds(k, run);
    NothingLost(k, run);
  }

  /** A content the compressor leaves alone reads back however it was stored. */
  lemma FixedPointReadsBack(k: Codec, run: seq<Event>, c: Bytes)
    requires k.Lawful() && NothingUnlinked(run) && k.compress(c) == c
    ensures ReadsBack(k, After(k, run), c)
  {
    var s := After(k, run);
    forall id | id in s.rows && Matches(s.rows[id], k.sha256(c), |c|)
      ensures OpenArtifactContent(k, s, s.rows[id]) == Ok(c)
    {
      var d := CommittedRowsHaveCompleteBlobs(k, run, id);
      assert d == c;
      assert k.decompress(k.compress(c)) == Some(c);
    }
  }

  /** Two uploads of one content under kinds that disagree, no failure and no
      crash: the plain one records its row, then the compressed one renames its
      file over the blob. */
  function RaceEvents(compressing: ArtifactKind, plain: ArtifactKind, c: Bytes): seq<Event> {
    CopyEvents(0, compressing, c) + [TestFinal(0, true)] + UploadEvents(1, plain, c, 5) + [Rename(0, true)]
  }

  /** Upload `w` of `c` holds its compressed file and has seen no blob. */
  ghost predicate AboutToRename(k: Codec, s: Store, w: nat, c: Bytes) {
    && w in s.writers && s.writers[w].body == c && s.writers[w].pc.FinalUnseen?
    && w in s.temps && s.temps[w] == k.compress(c)
  }

  lemma RaceStart(k: Codec, kind: ArtifactKind, c: Bytes)
    requires kind.Compresses()
    ensures
      var s := After(k, CopyEvents(0, kind, c) + [TestFinal(0, true)]);
      AboutToRename(k, s, 0, c) && s.rows == map[] && 1 !in s.writers && s.files == map[]
  {
    var run := CopyEvents(0, kind, c);
    assert run == [] + run;
    CopyPhase(k, [], 0, kind, c);
    AfterSnoc(k, run, TestFinal(0, true));
  }

  lemma LandBeside(k: Codec, run: seq<Event>, w: nat, v: nat, kind: ArtifactKind, c: Bytes)
    requires w != v && v !in After(k, run).writers
    requires AboutToRename(k, After(k, run), w, c)
    ensures
      var t := After(k, run + CopyEvents(v, kind, c) + MoveEvents(v));
      && AboutToRename(k, t, w, c) && t.rows == After(k, run).rows
      && v in t.writers && t.writers[v] == Writer(kind, c, Landed)
  {
    CopyPhase(k, run, v, kind, c);
    MovePhase(k, run + CopyEvents(v, kind, c), v);
  }

  /** An upload that runs from start to end beside one about to rename. */
  lemma RaceMiddle(k: Codec, run: seq<Event>, w: nat, v: nat, kind: ArtifactKind, c: Bytes, id: nat)
    requires w != v && v !in After(k, run).writers && After(k, run).rows == map[]
    requires AboutToRename(k, After(k, run), w, c)
    ensures
      var t := After(k, run + UploadEvents(v, kind, c, id));
      AboutToRename(k, t, w, c) && t.rows == map[id := RowFor(k, Writer(kind, c, Landed))]
  {
    LandBeside(k, run, w, v, kind, c);
    var landed := run + CopyEvents(v, kind, c) + MoveEvents(v);
    RecordPhase(k, landed, v, id);
    assert run + UploadEvents(v, kind, c, id) == landed + RecordEvents(v, id);
  }

  lemma RaceSeparatesRowFromBlob(k: Codec, compressing: ArtifactKind, plain: ArtifactKind, c: Bytes)
    requires compressing.Compresses() && !plain.Compresses()
    ensures
      var s := After(k, RaceEvents(compressing, plain, c));
      && 5 in s.rows && s.rows[5] == RowFor(k, Writer(plain, c, Landed))
      && PathOf(k, c) in s.files && s.files[PathOf(k, c)] == k.compress(c)
  {
    var run := CopyEvents(0, compressing, c) + [TestFinal(0, true)];
    RaceStart(k, compressing, c);
    RaceMiddle(k, run, 0, 1, plain, c, 5);
    var before := run + UploadEvents(1, plain, c, 5);
    AfterSnoc(k, before, Rename(0, true));
    assert Places(After(k, before), Rename(0, true));
    StepEffects(k, After(k, before), Rename(0, true));
  }

  /** Read-back is safe for a content exactly when the kinds it is uploaded
      under agree on compression, or compressing it changes nothing. */
  lemma ReadBackExactly(k: Codec, c: Bytes, kinds: set<ArtifactKind>)
    requires k.Lawful()
    ensures
      (forall run :: NothingUnlinked(run) && UploadedAs(run, c, kinds) ==> ReadsBack(k, After(k, run), c))
      <==> AgreeOnCompression(kinds) || k.compress(c) == c
  {
    if AgreeOnCompression(kinds) || k.compress(c) == c {
      forall run | NothingUnlinked(run) && UploadedAs(run, c, kinds) ensures ReadsBack(k, After(k, run), c) {
        if k.compress(c) == c {
          FixedPointReadsBack(k, run, c);
        } else {
          AgreementReadsBack(k, run, c, kinds);
        }
      }
    } else {
      var x, y :| x in kinds && y in kinds && x.Compresses() && !y.Compresses();
      var run := RaceEvents(x, y, c);
      RaceSeparatesRowFromBlob(k, x, y, c);
      var s := After(k, run);
      assert NothingUnlinked(run) && UploadedAs(run, c, kinds);
      assert Matches(s.rows[5], k.sha256(c), |c|);
      assert OpenArtifactContent(k, s, s.rows[5]) == Ok(k.compress(c));
      assert !ReadsBack(k, s, c);
    }
  }

  /** The assumed laws can be met, also by a compressor that changes every
      content, so none of the results above is vacuous. */
  lemma LawfulCodecsExist() returns (k: Codec)
    ensures k.Lawful() && forall c :: k.compress(c) != c
  {
    k := Codec(
      c => seq(|c|, i requires 0 <= i < |c| => c[i] as char),
      c => [0] + c,
      c => if c == [] then None else Some(c[1..]));
    forall a: Bytes, b: Bytes | k.sha256(a) == k.sha256(b) ensures a == b {
      assert |k.sha256(a)| == |a|;
      forall i | 0 <= i < |a| ensures a[i] == b[i] {
        assert k.sha256(a)[i] == a[i] as char && k.sha256(b)[i] == b[i] as char;
      }
    }
    forall c: Bytes ensures k.decompress(k.compress(c)) == Some(c) && k.compress(c) != c {
      assert ([0] + c)[1..] == c;
      assert |k.compress(c)| == |c| + 1;
    }
  }
}
