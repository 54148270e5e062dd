/** The content-addressed artifact store as a step protocol.

    `store_artifact` is an asynchronous function: between any two of its
    awaits other uploads, the temporary-file cleanup, or a crash may run.  The
    model gives every upload (a writer) a program counter and lets one event
    run the code between two awaits.  A run is any sequence of events; an event
    that does not fit the current state changes nothing, so every sequence is a
    run and every interleaving is one of them. */
module ArtifactProtocol {
  import opened Content

  datatype ArtifactKind =
    | Prompt | Stdout | Stderr | Output | CrashLog | Logcat | CorrectnessReport
  {
    /** Text-oriented kinds are stored Zstandard-compressed. */
    predicate Compresses() {
      Stdout? || Stderr? || CrashLog? || Logcat? || CorrectnessReport?
    }

    function Compression(): Compression {
      if Compresses() then Zstd else Uncompressed
    }
  }

  /** The two-character directory of a digest.  Digests have 64 characters, so
      the first branch is there only to make the function total. */
  function DigestPrefix(sha: string): string {
    if |sha| < 2 then sha else sha[..2]
  }

  function RelativePathFor(sha: string): string {
    "sha256/" + DigestPrefix(sha) + "/" + sha
  }

  lemma PathsAreInjective(a: string, b: string)
    ensures RelativePathFor(a) == RelativePathFor(b) ==> a == b
  {
    var p, q := RelativePathFor(a), RelativePathFor(b);
    assert |p| == 8 + |DigestPrefix(a)| + |a|;
    assert |q| == 8 + |DigestPrefix(b)| + |b|;
    assert a == p[|p| - |a|..] && b == q[|q| - |b|..];
  }

  /** A row of the `artifacts` table, keyed by id.  The table is unique on
      `(sha256, sizeBytes)`. */
  datatype Row = Row(
    sha256: string,
    sizeBytes: nat,
    kind: ArtifactKind,
    storagePath: string,
    compression: Compression)

  datatype StoredArtifact = StoredArtifact(id: nat, sha256: string, sizeBytes: nat, compression: Compression)

  datatype Failure = IoError | DbError | NoMatchingRow

  /** Where an upload stands: the statement it runs next. */
  datatype Pc =
    | Copying(read: nat)
    | Hashed
    | FinalSeen
    | FinalUnseen
    | RenameFailed
    | Landed
    | RowUnseen
    | InsertRefused
    | Returned(artifact: StoredArtifact)
    | Failed(failure: Failure)
    | Crashed

  datatype Writer = Writer(kind: ArtifactKind, body: Bytes, pc: Pc)

  /** Disk, table and uploads.  Temporary files carry a fresh name each; they
      are keyed by the upload that created them. */
  datatype Store = Store(
    files: map<string, Bytes>,
    temps: map<nat, Bytes>,
    rows: map<nat, Row>,
    writers: map<nat, Writer>)

  const Empty := Store(map[], map[], map[], map[])

  /** What can happen next.  The flags say whether a system call or a statement
      succeeds, so any of them may fail at any time. */
  datatype Event =
    | Begin(writer: nat, kind: ArtifactKind, body: Bytes)
    | CopyChunk(writer: nat, length: nat, onDisk: Bytes)
    | CopyFails(writer: nat, unlinked: bool)
    | FinishCopy(writer: nat)
    | TestFinal(writer: nat, statOk: bool)
    | DropTemp(writer: nat, unlinkOk: bool)
    | Rename(writer: nat, renameOk: bool)
    | TestFinalAgain(writer: nat, statOk: bool, unlinked: bool)
    | FindExisting(writer: nat, dbOk: bool)
    | Insert(writer: nat, id: nat, dbOk: bool)
    | FindAgain(writer: nat, dbOk: bool)
    | Crash(writer: nat)
    | Cleanup(removed: set<nat>)
    | UnlinkOutOfBand(path: string)

  function PathOf(k: Codec, body: Bytes): string {
    RelativePathFor(k.sha256(body))
  }

  function At(s: Store, w: nat, pc: Pc): Store
    requires w in s.writers
  {
    s.(writers := s.writers[w := s.writers[w].(pc := pc)])
  }

  function WithoutTemp(s: Store, w: nat, unlinked: bool): Store {
    if unlinked then s.(temps := s.temps - {w}) else s
  }

  predicate Matches(row: Row, sha: string, size: nat) {
    row.sha256 == sha && row.sizeBytes == size
  }

  predicate IsStored(rows: map<nat, Row>, sha: string, size: nat) {
    exists id :: id in rows && Matches(rows[id], sha, size)
  }

  /** `SELECT id ... WHERE sha256 = ? AND size_bytes = ?`. */
  ghost function FindId(rows: map<nat, Row>, sha: string, size: nat): (id: nat)
    requires IsStored(rows, sha, size)
    ensures id in rows && Matches(rows[id], sha, size)
  {
    var id :| id in rows && Matches(rows[id], sha, size);
    id
  }

  function Reply(k: Codec, writer: Writer, id: nat): Pc {
    Returned(StoredArtifact(id, k.sha256(writer.body), |writer.body|, writer.kind.Compression()))
  }

  function RowFor(k: Codec, writer: Writer): Row {
    Row(k.sha256(writer.body), |writer.body|, writer.kind, PathOf(k, writer.body), writer.kind.Compression())
  }

  /** `find_existing` followed by the branch on its result. */
  ghost function Find(k: Codec, s: Store, w: nat, dbOk: bool, otherwise: Pc): Store
    requires w in s.writers
  {
    var writer := s.writers[w];
    var sha := k.sha256(writer.body);
    if !dbOk then At(s, w, Failed(DbError))
    else if IsStored(s.rows, sha, |writer.body|) then At(s, w, Reply(k, writer, FindId(s.rows, sha, |writer.body|)))
    else At(s, w, otherwise)
  }

  /** One event of a live upload `w`, whose statement is `s.writers[w].pc`. */
  ghost function WriterStep(k: Codec, s: Store, w: nat, e: Event): Store
    requires w in s.writers
  {
    var writer := s.writers[w];
    var path := PathOf(k, writer.body);
    match (e, writer.pc)
    case (CopyChunk(_, n, onDisk), Copying(read)) =>
      // The temporary file may have been unlinked by a cleanup; the open
      // handle keeps accepting writes.
      if 0 < n && read + n <= |writer.body| then
        var s1 := if w in s.temps then s.(temps := s.temps[w := onDisk]) else s;
        At(s1, w, Copying(read + n))
      else s
    case (CopyFails(_, unlinked), Copying(_)) =>
      At(WithoutTemp(s, w, unlinked), w, Failed(IoError))
    case (FinishCopy(_), Copying(read)) =>
      if read == |writer.body| then
        var bytes := k.Encode(writer.kind.Compression(), writer.body);
        var s1 := if w in s.temps then s.(temps := s.temps[w := bytes]) else s;
        At(s1, w, Hashed)
      else s
    case (TestFinal(_, statOk), Hashed) =>
      At(s, w, if path in s.files && statOk then FinalSeen else FinalUnseen)
    case (DropTemp(_, unlinkOk), FinalSeen) =>
      if w in s.temps && unlinkOk then At(WithoutTemp(s, w, true), w, Landed)
      else At(s, w, Failed(IoError))
    case (Rename(_, renameOk), FinalUnseen) =>
      if w in s.temps && renameOk then
        At(s.(files := s.files[path := s.temps[w]], temps := s.temps - {w}), w, Landed)
      else At(s, w, RenameFailed)
    case (TestFinalAgain(_, statOk, unlinked), RenameFailed) =>
      if path in s.files && statOk then At(WithoutTemp(s, w, unlinked), w, Landed)
      else At(s, w, Failed(IoError))
    case (FindExisting(_, dbOk), Landed) =>
      Find(k, s, w, dbOk, RowUnseen)
    case (Insert(_, id, dbOk), RowUnseen) =>
      // The primary key and the unique (sha256, size_bytes) are reported alike.
      if !dbOk then At(s, w, Failed(DbError))
      else if id in s.rows || IsStored(s.rows, k.sha256(writer.body), |writer.body|) then At(s, w, InsertRefused)
      else At(s.(rows := s.rows[id := RowFor(k, writer)]), w, Reply(k, writer, id))
    case (FindAgain(_, dbOk), InsertRefused) =>
      Find(k, s, w, dbOk, Failed(NoMatchingRow))
    case (Crash(_), _) =>
      if writer.pc.Returned? || writer.pc.Failed? then s else At(s, w, Crashed)
    case _ => s
  }

  ghost function Step(k: Codec, s: Store, e: Event): Store {
    match e
    case Begin(w, kind, body) =>
      if w in s.writers then s
      else s.(writers := s.writers[w := Writer(kind, body, Copying(0))], temps := s.temps[w := []])
    case Cleanup(removed) => s.(temps := s.temps - removed)
    case UnlinkOutOfBand(path) => s.(files := s.files - {path})
    case _ =>
      if e.writer in s.writers then WriterStep(k, s, e.writer, e) else s
  }

  /** The state after a run, from an empty data root. */
  ghost function After(k: Codec, run: seq<Event>): Store {
    if run == [] then Empty
    else Step(k, After(k, run[..|run| - 1]), run[|run| - 1])
  }

  lemma AfterSnoc(k: Codec, run: seq<Event>, e: Event)
    ensures After(k, run + [e]) == Step(k, After(k, run), e)
  {
    assert (run + [e])[..|run|] == run;
  }

  /** Nobody deletes blobs behind the server's back. */
  ghost predicate NothingUnlinked(run: seq<Event>) {
    forall i :: 0 <= i < |run| ==> !run[i].UnlinkOutOfBand?
  }
}
