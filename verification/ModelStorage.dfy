/** External model storage as the server runs it: its table is updated in place,
    over a disk that anybody edits.  Operations run uninterrupted here; their
    interleavings are in `ModelRegistry`. */
module ModelStorage {
  import opened Prelude
  import opened Content
  import opened ModelRegistry

  const HASH_CHUNK_BYTES: nat := 64 * 1024

  /** Numbers below `next` only have been given to operations. */
  ghost predicate Numbered(ops: map<nat, Op>, next: nat) {
    forall op :: op in ops ==> op < next
  }

  lemma StepNumbers(k: Codec, s: Registry, e: Event, next: nat)
    requires Numbered(s.ops, next) && (e.StartRegister? || e.StartVerify? ==> e.op < next)
    ensures Numbered(Step(k, s, e).ops, next)
  {
  }

  lemma ProceedNumbers(k: Codec, history: seq<Event>, op: nat, id: nat, now: int, next: nat)
    requires Numbered(After(k, history).ops, next)
    ensures Numbered(After(k, history + [Proceed(op, id, now)]).ops, next)
  {
    AfterSnoc(k, history, Proceed(op, id, now));
    StepNumbers(k, After(k, history), Proceed(op, id, now), next);
  }

  lemma {:induction false} ProceedingNumbers(k: Codec, history: seq<Event>, op: nat, id: nat, now: int, n: nat, next: nat)
    requires Numbered(After(k, history).ops, next)
    ensures Numbered(After(k, history + Proceeding(op, id, now, n)).ops, next)
    decreases n
  {
    if n == 0 {
      assert history + Proceeding(op, id, now, 0) == history;
    } else {
      var p := Proceed(op, id, now);
      ProceedNumbers(k, history, op, id, now, next);
      ProceedingNumbers(k, history + [p], op, id, now, n - 1, next);
      assert history + Proceeding(op, id, now, n) == history + [p] + Proceeding(op, id, now, n - 1);
    }
  }

  lemma OperationNumbers(k: Codec, history: seq<Event>, start: Event, op: nat, id: nat, now: int, n: nat)
    requires Numbered(After(k, history).ops, op)
    requires (start.StartRegister? || start.StartVerify?) && start.op == op
    ensures Numbered(After(k, history + ([start] + Proceeding(op, id, now, n))).ops, op + 1)
  {
    AfterSnoc(k, history, start);
    StepNumbers(k, After(k, history), start, op + 1);
    ProceedingNumbers(k, history + [start], op, id, now, n, op + 1);
    assert history + ([start] + Proceeding(op, id, now, n)) == history + [start] + Proceeding(op, id, now, n);
  }

  // ----- What the operations promise, column by column ----------------------

  /** Row `id` is no longer available; nothing else has changed. */
  ghost predicate OnlyUnavailable(before: Assets, v: Verified, id: nat)
    requires id in before
  {
    && v.rows.Keys == before.Keys && (forall other :: other in before && other != id ==> v.rows[other] == before[other])
    && v.rows[id] == before[id].(available := false) && v.reply == Ok((id, v.rows[id]))
  }

  /** Row `id`, and no other, now describes `file`, which was verified at `now`. */
  ghost predicate OnlyDescribes(k: Codec, before: Assets, v: Verified, id: nat, path: string, file: ModelFile, now: int) {
    && v.rows.Keys == before.Keys + {id}
    && (forall other :: other in before && other != id ==> v.rows[other] == before[other])
    && v.rows[id] == Asset(k.sha256(file.content), |file.content|, path, file.modifiedAt, now, true)
    && v.reply == Ok((id, v.rows[id]))
  }

  /** Nothing has changed. */
  ghost predicate OnlyReplies(before: Assets, v: Verified, reply: Reply) {
    v == Verified(before, reply)
  }

  /** Another row has the digest of this content. */
  ghost predicate IsElsewhere(k: Codec, rows: Assets, id: nat, content: Bytes) {
    exists other :: other in rows && other != id && rows[other].sha256 == k.sha256(content)
  }

  /** The file still has the size and the time that its available row records. */
  ghost predicate LooksUnchanged(a: Asset, disk: Disk) {
    && a.available && a.externalPath in disk
    && a.sizeBytes == |disk[a.externalPath].content| && a.fileModifiedAt == disk[a.externalPath].modifiedAt
  }

  lemma VerifyMeans(k: Codec, disk: Disk, rows: Assets, id: nat, full: bool, now: int)
    requires id in rows
    ensures
      var v := Verify(k, disk, rows, id, full, now);
      var path := rows[id].externalPath;
      if path !in disk then OnlyUnavailable(rows, v, id)
      else if !full && LooksUnchanged(rows[id], disk) then OnlyReplies(rows, v, Ok((id, rows[id])))
      else if disk[path].content == [] then OnlyReplies(rows, v, Err(DatabaseError))
      else if IsElsewhere(k, rows, id, disk[path].content) then OnlyUnavailable(rows, v, id)
      else OnlyDescribes(k, rows, v, id, path, disk[path], now)
  {
  }

  lemma RegisterMeans(k: Codec, disk: Disk, rows: Assets, path: string, id: nat, now: int)
    ensures
      var v := Register(k, disk, rows, path, id, now);
      if path !in disk then OnlyReplies(rows, v, Err(NotARegularFile))
      else if HashKnown(rows, k.sha256(disk[path].content)) then v.reply.Ok? && OnlyReplies(rows, v, v.reply)
      else if disk[path].content == [] then OnlyReplies(rows, v, Err(DatabaseError))
      else if id in rows then OnlyReplies(rows, v, Err(RegistryError.NoMatchingRow))
      else OnlyDescribes(k, rows, v, id, path, disk[path], now)
  {
  }

  class ExternalModelStorage {
    const codec: Codec
    var disk: Disk
    var rows: Assets

    /** Every edit of a file and every statement so far, and the next operation's
        number. */
    ghost var history: seq<Event>
    ghost var nextOp: nat

    /** Disk and table are where the model is after the same history. */
    ghost predicate Valid()
      reads this
    {
      && After(codec, history).disk == disk && After(codec, history).rows == rows
      && Numbered(After(codec, history).ops, nextOp)
    }

    constructor (codec: Codec)
      ensures this.codec == codec && history == [] && Valid() && disk == map[] && rows == map[]
    {
      this.codec, disk, rows, history, nextOp := codec, map[], map[], [], 0;
    }

    // ----- Edits by others ----------------------------------------------------

    ghost predicate IsEdit(e: Event) {
      e.WriteFile? || e.DeleteFile? || e.RenameFile?
    }

    ghost method Edit(e: Event)
      requires Valid() && IsEdit(e)
      modifies this`history
      ensures history == old(history) + [e] && After(codec, history) == Step(codec, After(codec, old(history)), e)
      ensures Numbered(After(codec, history).ops, nextOp)
    {
      AfterSnoc(codec, history, e);
      StepNumbers(codec, After(codec, history), e, nextOp);
      history := history + [e];
    }

    method Write(path: string, file: ModelFile)
      requires Valid()
      modifies this`disk, this`history
      ensures Valid() && disk == old(disk)[path := file] && history == old(history) + [WriteFile(path, file)]
    {
      Edit(WriteFile(path, file));
      disk := disk[path := file];
    }

    method Delete(path: string)
      requires Valid()
      modifies this`disk, this`history
      ensures Valid() && disk == old(disk) - {path} && history == old(history) + [DeleteFile(path)]
    {
      Edit(DeleteFile(path));
      disk := disk - {path};
    }

    method Rename(path: string, to: string)
      requires Valid() && path in disk
      modifies this`disk, this`history
      ensures Valid() && disk == (old(disk) - {path})[to := old(disk)[path]]
      ensures history == old(history) + [RenameFile(path, to)]
    {
      Edit(RenameFile(path, to));
      disk := (disk - {path})[to := disk[path]];
    }

    // ----- What the operations are made of ------------------------------------

    /** The digest of a file, read one buffer at a time. */
    method HashFile(content: Bytes) returns (sha: string)
      ensures sha == codec.sha256(content)
    {
      var read := 0;
      var hashed: Bytes := [];
      while read < |content|
        invariant read <= |content| && hashed == content[..read]
      {
        var n := if |content| - read < HASH_CHUNK_BYTES then |content| - read else HASH_CHUNK_BYTES;
        assert content[..read + n] == content[..read] + content[read..read + n];
        hashed := hashed + content[read..read + n];
        read := read + n;
      }
      assert hashed == content;
      return codec.sha256(hashed);
    }

    method SelectByHash(sha: string) returns (found: Option<nat>)
      requires HashesUnique(rows)
      ensures found.Some? <==> HashKnown(rows, sha)
      ensures found.Some? ==> found.value == FindByHash(rows, sha)
    {
      if id :| id in rows && rows[id].sha256 == sha {
        return Some(id);
      }
      return None;
    }

    method MarkAssetUnavailable(id: nat) returns (reply: Reply)
      requires id in rows
      modifies this`rows
      ensures Verified(rows, reply) == Marked(old(rows), id)
      ensures reply == Ok((id, rows[id])) && !rows[id].available
    {
      rows := rows[id := rows[id].(available := false)];
      return Ok((id, rows[id]));
    }

    /** Rehashes and updates the row; a row whose content turns out to be
        registered under another id is marked unavailable instead. */
    method RehashAndReconcile(id: nat, path: string, now: int) returns (reply: Reply)
      requires id in rows && path in disk
      modifies this`rows
      ensures Verified(rows, reply) == ModelRegistry.RehashAndReconcile(codec, old(rows), id, Observe(disk, path), now)
    {
      var o := Observe(disk, path);
      var sha := HashFile(o.content);
      if o.size == 0 {
        return Err(DatabaseError);
      }
      if HashKnownElsewhere(rows, sha, id) {
        reply := MarkAssetUnavailable(id);
        return;
      }
      rows := rows[id := rows[id].(sha256 := sha, sizeBytes := o.size, fileModifiedAt := o.modifiedAt,
                                   lastVerifiedAt := now, available := true)];
      return Ok((id, rows[id]));
    }

    /** After a refused insert: the row of the registration that won. */
    method FindWinner(sha: string) returns (reply: Reply)
      requires HashesUnique(rows)
      ensures reply ==
        if HashKnown(rows, sha) then Ok((FindByHash(rows, sha), rows[FindByHash(rows, sha)]))
        else Err(RegistryError.NoMatchingRow)
    {
      var winner := SelectByHash(sha);
      return if winner.Some? then Ok((winner.value, rows[winner.value])) else Err(RegistryError.NoMatchingRow);
    }

    method InsertNew(path: string, id: nat, now: int) returns (reply: Reply)
      requires path in disk && HashesUnique(rows) && !HashKnown(rows, codec.sha256(disk[path].content))
      modifies this`rows
      ensures Verified(rows, reply) == Register(codec, disk, old(rows), path, id, now)
    {
      var o := Observe(disk, path);
      if o.size == 0 {
        return Err(DatabaseError);
      }
      if id in rows {
        reply := FindWinner(codec.sha256(o.content));
        return;
      }
      rows := rows[id := NewAsset(codec, o, now)];
      return Ok((id, rows[id]));
    }

    method VerifyRow(id: nat, full: bool, now: int) returns (reply: Reply)
      requires id in rows
      modifies this`rows
      ensures Verified(rows, reply) == Verify(codec, disk, old(rows), id, full, now)
    {
      var a := rows[id];
      if a.externalPath !in disk {
        reply := MarkAssetUnavailable(id);
        return;
      }
      if !full {
        var size, modifiedAt := |disk[a.externalPath].content|, disk[a.externalPath].modifiedAt;
        if a.available && a.sizeBytes == size && a.fileModifiedAt == modifiedAt {
          return Ok((id, a));
        }
      }
      reply := RehashAndReconcile(id, a.externalPath, now);
    }

    // ----- Operations ---------------------------------------------------------

    /** The row that a reply carries is in the table, and is the only one of its
        digest. */
    ghost predicate Carries(reply: Reply)
      reads this
    {
      reply.Ok? ==>
        && reply.value.0 in rows && rows[reply.value.0] == reply.value.1
        && forall other :: other in rows && rows[other].sha256 == reply.value.1.sha256 ==> other == reply.value.0
    }

    /** An asset replied as available has the digest of what its file holds now. */
    ghost predicate NamesTheFile(reply: Reply)
      reads this
    {
      reply.Ok? && reply.value.1.available ==>
        var path := reply.value.1.externalPath;
        path in disk && reply.value.1.sha256 == codec.sha256(disk[path].content)
    }

    method RegisterModel(path: string, id: nat, now: int) returns (reply: Reply)
      requires Valid()
      modifies this`rows, this`history, this`nextOp
      ensures Valid() && history == old(history) + RegisterEvents(old(nextOp), path, id, now)
      ensures Verified(rows, reply) == Register(codec, disk, old(rows), path, id, now)
      ensures Carries(reply)
      ensures reply.Ok? ==> path in disk && reply.value.1.sha256 == codec.sha256(disk[path].content)
      ensures reply.Ok? <== path in disk && disk[path].content != [] && id !in old(rows)
      ensures
        var v := Verified(rows, reply);
        if path !in disk then OnlyReplies(old(rows), v, Err(NotARegularFile))
        else if exists other :: other in old(rows) && old(rows)[other].sha256 == codec.sha256(disk[path].content)
        then reply.Ok? && OnlyReplies(old(rows), v, reply)
        else if disk[path].content == [] then OnlyReplies(old(rows), v, Err(DatabaseError))
        else if id in old(rows) then OnlyReplies(old(rows), v, Err(RegistryError.NoMatchingRow))
        else OnlyDescribes(codec, old(rows), v, id, path, disk[path], now)
    {
      InvHolds(codec, history);
      RegisterIsItsSteps(codec, history, nextOp, path, id, now);
      OperationNumbers(codec, history, StartRegister(nextOp, path), nextOp, id, now, 3);
      history := history + RegisterEvents(nextOp, path, id, now);
      nextOp := nextOp + 1;
      InvHolds(codec, history);
      RegisterMeans(codec, disk, rows, path, id, now);
      if path !in disk {
        return Err(NotARegularFile);
      }
      var sha := HashFile(disk[path].content);
      var existing := SelectByHash(sha);
      if existing.Some? {
        return Ok((existing.value, rows[existing.value]));
      }
      reply := InsertNew(path, id, now);
    }

    lemma VerifyEnds(earlier: seq<Event>, op: nat, before: Assets, id: nat, full: bool, now: int)
      requires op !in After(codec, earlier).ops && Numbered(After(codec, earlier).ops, op)
      requires After(codec, earlier).disk == disk && After(codec, earlier).rows == before && id in before
      ensures
        var t := After(codec, earlier + VerifyEvents(op, id, full, 0, now));
        && t.disk == disk && t.rows == Verify(codec, disk, before, id, full, now).rows
        && Numbered(t.ops, op + 1) && HashesUnique(t.rows)
    {
      VerifyIsItsSteps(codec, earlier, op, id, full, 0, now);
      OperationNumbers(codec, earlier, StartVerify(op, id, full), op, 0, now, 4);
      InvHolds(codec, earlier + VerifyEvents(op, id, full, 0, now));
    }

    /** `verify` trusts the recorded digest while size and time are unchanged; its
        answer is about the current file if every edit so far showed in them. */
    method VerifyCheaply(id: nat, now: int) returns (reply: Reply)
      requires Valid() && id in rows
      modifies this`rows, this`history, this`nextOp
      ensures Valid() && history == old(history) + VerifyEvents(old(nextOp), id, false, 0, now)
      ensures Verified(rows, reply) == Verify(codec, disk, old(rows), id, false, now)
      ensures Carries(reply) && (reply.Ok? ==> reply.value.0 == id)
      ensures EditsChangeMetadata(Shown(codec, history)) ==> NamesTheFile(reply)
      ensures
        var v, path := Verified(rows, reply), old(rows)[id].externalPath;
        if path !in disk then OnlyUnavailable(old(rows), v, id)
        else if LooksUnchanged(old(rows)[id], disk) then OnlyReplies(old(rows), v, Ok((id, old(rows)[id])))
        else if disk[path].content == [] then OnlyReplies(old(rows), v, Err(DatabaseError))
        else if IsElsewhere(codec, old(rows), id, disk[path].content) then OnlyUnavailable(old(rows), v, id)
        else OnlyDescribes(codec, old(rows), v, id, path, disk[path], now)
    {
      VerifyEnds(history, nextOp, rows, id, false, now);
      history := history + VerifyEvents(nextOp, id, false, 0, now);
      nextOp := nextOp + 1;
      reply := VerifyRow(id, false, now);
      VerifyMeans(codec, disk, old(rows), id, false, now);
      AvailableIsUnchanged(codec, disk, old(rows), id, false, now);
      if EditsChangeMetadata(Shown(codec, history)) && reply.Ok? && rows[id].available {
        CacheIsSound(codec, history, id);
      }
    }

    /** `verify_full` rehashes whatever the metadata says. */
    method VerifyFull(id: nat, now: int) returns (reply: Reply)
      requires Valid() && id in rows
      modifies this`rows, this`history, this`nextOp
      ensures Valid() && history == old(history) + VerifyEvents(old(nextOp), id, true, 0, now)
      ensures Verified(rows, reply) == Verify(codec, disk, old(rows), id, true, now)
      ensures Carries(reply) && (reply.Ok? ==> reply.value.0 == id)
      ensures NamesTheFile(reply)
      ensures
        var v, path := Verified(rows, reply), old(rows)[id].externalPath;
        if path !in disk then OnlyUnavailable(old(rows), v, id)
        else if disk[path].content == [] then OnlyReplies(old(rows), v, Err(DatabaseError))
        else if IsElsewhere(codec, old(rows), id, disk[path].content) then OnlyUnavailable(old(rows), v, id)
        else OnlyDescribes(codec, old(rows), v, id, path, disk[path], now)
    {
      VerifyEnds(history, nextOp, rows, id, true, now);
      history := history + VerifyEvents(nextOp, id, true, 0, now);
      nextOp := nextOp + 1;
      reply := VerifyRow(id, true, now);
      VerifyMeans(codec, disk, old(rows), id, true, now);
      AvailableIsUnchanged(codec, disk, old(rows), id, true, now);
    }
  }

  /** A verification that leaves the row available leaves it matching its file. */
  lemma AvailableIsUnchanged(k: Codec, disk: Disk, rows: Assets, id: nat, full: bool, now: int)
    requires id in rows
    ensures
      var v := Verify(k, disk, rows, id, full, now);
      v.reply.Ok? ==>
        && id in v.rows && v.reply.value == (id, v.rows[id])
        && (v.rows[id].available ==> Unchanged(v.rows[id], disk))
        && (full && v.rows[id].available ==> v.rows[id].sha256 == k.sha256(disk[v.rows[id].externalPath].content))
  {
  }
}
