/** The read-only integrity report, checked against the upload protocol. */
module Integrity {
  import opened Prelude
  import opened Content
  import opened ArtifactProtocol
  import opened ArtifactInvariants

  /** `ids` is the result of an unordered `SELECT` over the table. */
  ghost predicate Enumerates(ids: seq<nat>, table: map<nat, Row>) {
    Distinct(ids) && forall id :: id in ids <==> id in table
  }

  /** Lists each row whose file is absent when it is looked for, once; `files[i]` is
      what is on disk when the file of row `ids[i]` is looked for. */
  method FindArtifactsMissingFiles(ids: seq<nat>, table: map<nat, Row>, files: seq<set<string>>)
    returns (missing: seq<nat>)
    requires Enumerates(ids, table) && |files| == |ids|
    ensures Distinct(missing)
    ensures forall id :: id in missing ==> id in ids
    ensures forall i :: 0 <= i < |ids| ==> (ids[i] in missing <==> table[ids[i]].storagePath !in files[i])
  {
    missing := [];
    for n := 0 to |ids|
      invariant Distinct(missing)
      invariant forall id :: id in missing ==> id in ids[..n]
      invariant forall i :: 0 <= i < n ==> (ids[i] in missing <==> table[ids[i]].storagePath !in files[i])
    {
      assert ids[..n + 1] == ids[..n] + [ids[n]];
      assert ids[n] !in missing by {
        assert forall i :: 0 <= i < n ==> ids[..n][i] == ids[i] != ids[n];
        assert ids[n] !in ids[..n];
      }
      if table[ids[n]].storagePath !in files[n] {
        missing := missing + [ids[n]];
      }
    }
    assert ids[..|ids|] == ids;
  }

  /** An entry of the blob root's `sha256` directory. */
  datatype PrefixEntry = PrefixEntry(name: string, isDir: bool, children: seq<FileEntry>)
  datatype FileEntry = FileEntry(name: string, isFile: bool)

  function BlobPath(prefix: string, name: string): string {
    "sha256/" + prefix + "/" + name
  }

  ghost predicate HoldsFile(dir: PrefixEntry, path: string) {
    dir.isDir && exists f :: f in dir.children && f.isFile && path == BlobPath(dir.name, f.name)
  }

  /** A blob is where the walk looks: in the directory of its digest's first two
      characters, under the digest. */
  lemma BlobsAreWalked(sha: string)
    requires |sha| >= 2
    ensures RelativePathFor(sha) == "sha256/" + sha[..2] + "/" + sha
    ensures HoldsFile(PrefixEntry(sha[..2], true, [FileEntry(sha, true)]), RelativePathFor(sha))
  {
    assert FileEntry(sha, true) in [FileEntry(sha, true)];
  }

  /** Collects the files two levels below the blob root; a missing root (`None`)
      holds none. */
  method WalkContentAddressedFiles(root: Option<seq<PrefixEntry>>) returns (found: seq<string>)
    ensures root.None? ==> found == []
    ensures root.Some? ==> forall p :: p in found <==> exists d :: d in root.value && HoldsFile(d, p)
  {
    found := [];
    if root.None? {
      return;
    }
    var dirs := root.value;
    for i := 0 to |dirs|
      invariant forall p :: p in found <==> exists d :: d in dirs[..i] && HoldsFile(d, p)
    {
      ghost var before := found;
      assert dirs[..i + 1] == dirs[..i] + [dirs[i]];
      if dirs[i].isDir {
        var children := dirs[i].children;
        for j := 0 to |children|
          invariant forall p :: p in found <==>
            p in before || exists f :: f in children[..j] && f.isFile && p == BlobPath(dirs[i].name, f.name)
        {
          assert children[..j + 1] == children[..j] + [children[j]];
          if children[j].isFile {
            found := found + [BlobPath(dirs[i].name, children[j].name)];
          }
        }
        assert children[..|children|] == children;
        assert forall p :: p in found <==> p in before || HoldsFile(dirs[i], p);
      }
    }
    assert dirs[..|dirs|] == dirs;
  }

  /** The walk of the blob root met the file at `path`. */
  ghost predicate Met(root: Option<seq<PrefixEntry>>, path: string) {
    root.Some? && exists d :: d in root.value && HoldsFile(d, path)
  }

  /** The files on disk that no row names. */
  method FindOrphanedArtifactFiles(root: Option<seq<PrefixEntry>>, recorded: set<string>) returns (orphans: seq<string>)
    ensures forall p :: p in orphans <==> Met(root, p) && p !in recorded
  {
    var onDisk := WalkContentAddressedFiles(root);
    orphans := Filter(onDisk, path => path !in recorded);
  }

  function RecordedPaths(s: Store): set<string> {
    set id | id in s.rows :: s.rows[id].storagePath
  }

  // ----- Missing files ------------------------------------------------------

  /** Some event unlinked a file at `path`, and no upload has placed one since. */
  ghost predicate UnlinkedForGood(k: Codec, run: seq<Event>, path: string) {
    exists i :: 0 <= i < |run| && UnlinkedAt(k, run, i, path) && !PlacedSince(k, run, i, path)
  }

  ghost predicate UnlinkedAt(k: Codec, run: seq<Event>, i: nat, path: string)
    requires i < |run|
  {
    run[i] == UnlinkOutOfBand(path) && path in After(k, run[..i]).files
  }

  ghost predicate PlacedSince(k: Codec, run: seq<Event>, i: nat, path: string) {
    exists j :: i < j < |run| && PlacedAt(k, run, j, path)
  }

  ghost predicate PlacedAt(k: Codec, run: seq<Event>, j: nat, path: string)
    requires j < |run|
  {
    var s := After(k, run[..j]);
    Places(s, run[j]) && PathOf(k, s.writers[run[j].writer].body) == path
  }

  lemma PlacedSinceSnoc(k: Codec, run: seq<Event>, e: Event, i: nat, path: string)
    requires i < |run|
    ensures PlacedSince(k, run + [e], i, path) <==>
      PlacedSince(k, run, i, path) || PlacedAt(k, run + [e], |run|, path)
  {
    var all := run + [e];
    forall j | i < j < |run| ensures PlacedAt(k, all, j, path) == PlacedAt(k, run, j, path) {
      assert all[..j] == run[..j];
    }
    if PlacedSince(k, run, i, path) {
      var j :| i < j < |run| && PlacedAt(k, run, j, path);
      assert PlacedAt(k, all, j, path);
    }
  }

  lemma UnlinkedForGoodSnoc(k: Codec, run: seq<Event>, e: Event, path: string)
    ensures UnlinkedForGood(k, run + [e], path) <==>
      || UnlinkedAt(k, run + [e], |run|, path)
      || (UnlinkedForGood(k, run, path) && !PlacedAt(k, run + [e], |run|, path))
  {
    var all, n := run + [e], |run|;
    if UnlinkedAt(k, all, n, path) {
      assert !PlacedSince(k, all, n, path);
    }
    if UnlinkedForGood(k, run, path) && !PlacedAt(k, all, n, path) {
      var i: nat :| i < n && UnlinkedAt(k, run, i, path) && !PlacedSince(k, run, i, path);
      PlacedSinceSnoc(k, run, e, i, path);
      assert all[..i] == run[..i];
      assert UnlinkedAt(k, all, i, path);
    }
    if UnlinkedForGood(k, all, path) && !UnlinkedAt(k, all, n, path) {
      var i: nat :| i < |all| && UnlinkedAt(k, all, i, path) && !PlacedSince(k, all, i, path);
      PlacedSinceSnoc(k, run, e, i, path);
      assert all[..i] == run[..i];
      assert UnlinkedAt(k, run, i, path);
    }
  }

  lemma {:induction false} LostMeans(k: Codec, run: seq<Event>, path: string)
    ensures path in Lost(k, run) <==> UnlinkedForGood(k, run, path)
  {
    if run != [] {
      var before, e := run[..|run| - 1], run[|run| - 1];
      LostMeans(k, before, path);
      assert before + [e] == run;
      assert run[..|before|] == before;
      UnlinkedForGoodSnoc(k, before, e, path);
    }
  }

  /** The missing list is exact: a row is on it if and only if its file was
      deleted out of band and no later upload of that content put it back. */
  lemma MissingReportIsExact(k: Codec, run: seq<Event>, id: nat)
    requires id in After(k, run).rows
    ensures
      var s := After(k, run);
      s.rows[id].storagePath !in s.files <==> UnlinkedForGood(k, run, s.rows[id].storagePath)
  {
    InvHolds(k, run);
    LostMeans(k, run, After(k, run).rows[id].storagePath);
  }

  /** Without out-of-band deletion nothing is ever reported missing. */
  lemma NothingMissing(k: Codec, run: seq<Event>)
    requires NothingUnlinked(run)
    ensures RecordedPaths(After(k, run)) <= After(k, run).files.Keys
  {
    InvHolds(k, run);
    NothingLost(k, run);
  }

  // ----- Orphaned files -----------------------------------------------------

  ghost predicate EverPlaced(k: Codec, run: seq<Event>, path: string) {
    exists j :: 0 <= j < |run| && PlacedAt(k, run, j, path)
  }

  lemma EverPlacedSnoc(k: Codec, run: seq<Event>, e: Event, path: string)
    ensures EverPlaced(k, run + [e], path) <==>
      EverPlaced(k, run, path) || PlacedAt(k, run + [e], |run|, path)
  {
    var all := run + [e];
    assert forall j :: 0 <= j <= |run| ==> all[..j] == run[..j];
    assert forall j :: 0 <= j < |run| ==> PlacedAt(k, all, j, path) == PlacedAt(k, run, j, path);
    if EverPlaced(k, run, path) {
      var j :| 0 <= j < |run| && PlacedAt(k, run, j, path);
      assert PlacedAt(k, all, j, path);
    }
  }

  /** What is on disk: the blobs that were placed and not unlinked for good. */
  lemma {:induction false} FilesAreThosePlaced(k: Codec, run: seq<Event>, path: string)
    ensures path in After(k, run).files <==> EverPlaced(k, run, path) && path !in Lost(k, run)
  {
    if run != [] {
      var before, e := run[..|run| - 1], run[|run| - 1];
      FilesAreThosePlaced(k, before, path);
      InvHolds(k, before);
      assert before + [e] == run;
      EverPlacedSnoc(k, before, e, path);
      assert run[..|before|] == before;
      StepEffects(k, After(k, before), e);
    }
  }

  /** Some upload placed the content's blob, it is still there, and no row for the
      content has been inserted yet. */
  ghost predicate AwaitsItsRow(k: Codec, run: seq<Event>, body: Bytes) {
    && EverPlaced(k, run, PathOf(k, body)) && !UnlinkedForGood(k, run, PathOf(k, body))
    && !IsStored(After(k, run).rows, k.sha256(body), |body|)
  }

  lemma RecordedIffStored(k: Codec, run: seq<Event>, body: Bytes)
    requires k.Lawful()
    ensures
      var s := After(k, run);
      PathOf(k, body) in RecordedPaths(s) <==> IsStored(s.rows, k.sha256(body), |body|)
  {
    var s := After(k, run);
    InvHolds(k, run);
    if PathOf(k, body) in RecordedPaths(s) {
      var id :| id in s.rows && s.rows[id].storagePath == PathOf(k, body);
      var c :| Describes(k, s.rows[id], c);
      PathsAreInjective(k.sha256(c), k.sha256(body));
      assert Matches(s.rows[id], k.sha256(body), |body|);
    }
    if IsStored(s.rows, k.sha256(body), |body|) {
      var id := FindId(s.rows, k.sha256(body), |body|);
      var c :| Describes(k, s.rows[id], c);
      assert s.rows[id].storagePath in RecordedPaths(s);
    }
  }

  /** The orphans are exact, deletions or not: the files on disk that no row names
      are the blobs of the contents that await their row. */
  lemma OrphanReportIsExact(k: Codec, run: seq<Event>, path: string)
    requires k.Lawful()
    ensures
      var s := After(k, run);
      path in s.files && path !in RecordedPaths(s) <==>
        exists body :: path == PathOf(k, body) && AwaitsItsRow(k, run, body)
  {
    var s := After(k, run);
    InvHolds(k, run);
    FilesAreThosePlaced(k, run, path);
    LostMeans(k, run, path);
    if path in s.files {
      assert CompleteBlob(k, path, s.files[path]);
      var body :| path == PathOf(k, body) && (s.files[path] == body || s.files[path] == k.compress(body));
      RecordedIffStored(k, run, body);
      assert path !in RecordedPaths(s) ==> AwaitsItsRow(k, run, body);
    }
    forall body | path == PathOf(k, body) && AwaitsItsRow(k, run, body) ensures path in s.files && path !in RecordedPaths(s) {
      RecordedIffStored(k, run, body);
    }
  }

  // ----- The report ---------------------------------------------------------

  datatype Report = Report(artifactsMissingFiles: seq<nat>, orphanedArtifactFiles: seq<string>)

  /** When, counted in events of a run, a check reads what: the rows, each row's
      file, each path of the blob root, and the rows once more.  Uploads go on in
      between. */
  datatype Times = Times(selected: nat, stats: seq<nat>, seen: string -> nat, recorded: nat)

  ghost predicate InOrder(times: Times, run: seq<Event>) {
    && (forall i :: 0 <= i < |times.stats| ==> times.selected <= times.stats[i] <= |run|)
    && times.selected <= times.recorded <= |run|
    && (forall path :: times.seen(path) <= times.recorded)
  }

  /** The content's blob was there when its path was seen, and its row still was
      not when the rows were read again. */
  ghost predicate SeenWithoutRow(k: Codec, run: seq<Event>, times: Times, body: Bytes)
    requires InOrder(times, run)
  {
    var path := PathOf(k, body);
    var walked := run[..times.seen(path)];
    && EverPlaced(k, walked, path) && !UnlinkedForGood(k, walked, path)
    && !IsStored(After(k, run[..times.recorded]).rows, k.sha256(body), |body|)
  }

  /** What a report says of the run it was made in. */
  ghost predicate ReportIsExact(k: Codec, run: seq<Event>, times: Times, ids: seq<nat>, report: Report)
    requires InOrder(times, run) && |times.stats| == |ids|
    requires Enumerates(ids, After(k, run[..times.selected]).rows)
  {
    var rows := After(k, run[..times.selected]).rows;
    && Distinct(report.artifactsMissingFiles)
    && (forall id :: id in report.artifactsMissingFiles ==> id in ids)
    && (forall i :: 0 <= i < |ids| ==>
          (ids[i] in report.artifactsMissingFiles <==>
             UnlinkedForGood(k, run[..times.stats[i]], rows[ids[i]].storagePath)))
    && (forall path :: path in report.orphanedArtifactFiles <==>
          exists body :: path == PathOf(k, body) && SeenWithoutRow(k, run, times, body))
  }

  lemma RowStays(k: Codec, run: seq<Event>, from: nat, to: nat, id: nat)
    requires from <= to <= |run| && id in After(k, run[..from]).rows
    ensures id in After(k, run[..to]).rows && After(k, run[..to]).rows[id] == After(k, run[..from]).rows[id]
  {
    RowsPersist(k, run[..from], run[from..to], id);
    assert run[..from] + run[from..to] == run[..to];
  }

  /** A row read at one time, its file looked for at a later one. */
  lemma MissingLater(k: Codec, run: seq<Event>, from: nat, to: nat, id: nat)
    requires from <= to <= |run| && id in After(k, run[..from]).rows
    ensures
      var path := After(k, run[..from]).rows[id].storagePath;
      path !in After(k, run[..to]).files <==> UnlinkedForGood(k, run[..to], path)
  {
    RowStays(k, run, from, to, id);
    MissingReportIsExact(k, run[..to], id);
  }

  /** A path seen at one time, the rows read at another. */
  lemma OrphanLater(k: Codec, run: seq<Event>, times: Times, path: string)
    requires k.Lawful() && InOrder(times, run)
    ensures
      path in After(k, run[..times.seen(path)]).files && path !in RecordedPaths(After(k, run[..times.recorded]))
      <==> exists body :: path == PathOf(k, body) && SeenWithoutRow(k, run, times, body)
  {
    var walked := run[..times.seen(path)];
    InvHolds(k, walked);
    FilesAreThosePlaced(k, walked, path);
    LostMeans(k, walked, path);
    if path in After(k, walked).files {
      assert CompleteBlob(k, path, After(k, walked).files[path]);
      var body :| path == PathOf(k, body)
        && (After(k, walked).files[path] == body || After(k, walked).files[path] == k.compress(body));
      RecordedIffStored(k, run[..times.recorded], body);
    }
    forall body | path == PathOf(k, body) && SeenWithoutRow(k, run, times, body)
      ensures path in After(k, walked).files && path !in RecordedPaths(After(k, run[..times.recorded]))
    {
      RecordedIffStored(k, run[..times.recorded], body);
    }
  }

  /** Both artifact checks, with uploads going on between their reads.  `ids`, `rows`
      and `recorded` are what the two queries return, `files` and `root` what is on
      disk when each row's file and each path is looked at. */
  method Check(k: Codec, ghost run: seq<Event>, ghost times: Times, ids: seq<nat>, rows: map<nat, Row>,
               files: seq<set<string>>, root: Option<seq<PrefixEntry>>, recorded: set<string>) returns (report: Report)
    requires k.Lawful() && InOrder(times, run)
    requires rows == After(k, run[..times.selected]).rows && Enumerates(ids, rows)
    requires |files| == |times.stats| == |ids|
    requires forall i :: 0 <= i < |ids| ==> files[i] == After(k, run[..times.stats[i]]).files.Keys
    requires forall path :: Met(root, path) <==> path in After(k, run[..times.seen(path)]).files
    requires recorded == RecordedPaths(After(k, run[..times.recorded]))
    ensures ReportIsExact(k, run, times, ids, report)
  {
    var missing := FindArtifactsMissingFiles(ids, rows, files);
    forall i | 0 <= i < |ids|
      ensures ids[i] in missing <==> UnlinkedForGood(k, run[..times.stats[i]], rows[ids[i]].storagePath)
    {
      MissingLater(k, run, times.selected, times.stats[i], ids[i]);
    }
    var orphans := FindOrphanedArtifactFiles(root, recorded);
    forall path ensures path in orphans <==> exists body :: path == PathOf(k, body) && SeenWithoutRow(k, run, times, body) {
      OrphanLater(k, run, times, path);
    }
    report := Report(missing, orphans);
  }

  // ----- What a report means ------------------------------------------------

  lemma EverPlacedLater(k: Codec, run: seq<Event>, from: nat, to: nat, path: string)
    requires from <= to <= |run| && EverPlaced(k, run[..from], path)
    ensures EverPlaced(k, run[..to], path)
  {
    var j :| 0 <= j < from && PlacedAt(k, run[..from], j, path);
    assert run[..from][..j] == run[..j] == run[..to][..j];
    assert PlacedAt(k, run[..to], j, path);
  }

  lemma NeverUnlinked(k: Codec, run: seq<Event>, n: nat, path: string)
    requires NothingUnlinked(run) && n <= |run|
    ensures !UnlinkedForGood(k, run[..n], path)
  {
    NothingLost(k, run[..n]);
    LostMeans(k, run[..n], path);
  }

  /** Without out-of-band deletion a check raises no false alarm, whatever uploads go
      on beside it: nothing is reported missing, and whatever is reported orphaned
      still awaits its row when the rows are read for the second time. */
  lemma NoFalseAlarms(k: Codec, run: seq<Event>, times: Times, ids: seq<nat>, report: Report)
    requires NothingUnlinked(run) && InOrder(times, run) && |times.stats| == |ids|
    requires Enumerates(ids, After(k, run[..times.selected]).rows)
    requires ReportIsExact(k, run, times, ids, report)
    ensures report.artifactsMissingFiles == []
    ensures forall path :: path in report.orphanedArtifactFiles ==>
      exists body :: path == PathOf(k, body) && AwaitsItsRow(k, run[..times.recorded], body)
  {
    var missing := report.artifactsMissingFiles;
    if missing != [] {
      assert missing[0] in ids;
      var i :| 0 <= i < |ids| && ids[i] == missing[0];
      NeverUnlinked(k, run, times.stats[i], After(k, run[..times.selected]).rows[ids[i]].storagePath);
      assert false;
    }
    forall path | path in report.orphanedArtifactFiles
      ensures exists body :: path == PathOf(k, body) && AwaitsItsRow(k, run[..times.recorded], body)
    {
      var body :| path == PathOf(k, body) && SeenWithoutRow(k, run, times, body);
      EverPlacedLater(k, run, times.seen(path), times.recorded, path);
      NeverUnlinked(k, run, times.recorded, path);
      assert AwaitsItsRow(k, run[..times.recorded], body);
    }
  }

  /** And it misses no orphan that was there when its path was seen. */
  lemma NoOrphanIsMissed(k: Codec, run: seq<Event>, times: Times, ids: seq<nat>, report: Report, body: Bytes)
    requires NothingUnlinked(run) && InOrder(times, run) && |times.stats| == |ids|
    requires Enumerates(ids, After(k, run[..times.selected]).rows)
    requires ReportIsExact(k, run, times, ids, report)
    requires EverPlaced(k, run[..times.seen(PathOf(k, body))], PathOf(k, body))
    requires AwaitsItsRow(k, run[..times.recorded], body)
    ensures PathOf(k, body) in report.orphanedArtifactFiles
  {
    NeverUnlinked(k, run, times.seen(PathOf(k, body)), PathOf(k, body));
    assert SeenWithoutRow(k, run, times, body);
  }
}
