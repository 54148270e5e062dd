/** When a registration ends with "unique violation on model insert but no matching
    row found".  Unlike an artifact, a registered model can change its digest, so
    fresh ids do not rule this out. */
module RegistryRaces {
  import opened Prelude
  import opened Content
  import opened ModelRegistry

  /** The `i`th event tries the insert of operation `op`, with digest `sha`. */
  ghost predicate InsertsAt(k: Codec, history: seq<Event>, i: nat, op: nat, sha: string)
    requires i < |history|
  {
    var s := After(k, history[..i]);
    && history[i].Proceed? && history[i].op == op && op in s.ops && s.ops[op].ToInsert?
    && s.ops[op].seen.size > 0 && k.sha256(s.ops[op].seen.content) == sha
  }

  /** ... which is refused because the digest is registered. */
  ghost predicate RefusedAt(k: Codec, history: seq<Event>, i: nat, op: nat, sha: string)
    requires i < |history|
  {
    InsertsAt(k, history, i, op, sha) && HashKnown(After(k, history[..i]).rows, sha)
  }

  /** ... which is refused because the id it drew is taken. */
  ghost predicate DrawsTakenIdAt(k: Codec, history: seq<Event>, i: nat, op: nat, sha: string)
    requires i < |history|
  {
    InsertsAt(k, history, i, op, sha) && history[i].id in After(k, history[..i]).rows
  }

  /** The `j`th event leaves no row with digest `sha` where there was one. */
  ghost predicate ForgetsAt(k: Codec, history: seq<Event>, j: nat, sha: string)
    requires j < |history|
  {
    HashKnown(After(k, history[..j]).rows, sha) && !HashKnown(After(k, history[..j + 1]).rows, sha)
  }

  ghost predicate DrewTakenId(k: Codec, history: seq<Event>, op: nat, sha: string) {
    exists i :: 0 <= i < |history| && DrawsTakenIdAt(k, history, i, op, sha)
  }

  ghost predicate Refused(k: Codec, history: seq<Event>, op: nat, sha: string) {
    exists i :: 0 <= i < |history| && RefusedAt(k, history, i, op, sha)
  }

  /** The insert was refused for a digest that was forgotten later. */
  ghost predicate LostItsReason(k: Codec, history: seq<Event>, op: nat, sha: string) {
    exists i, j :: 0 <= i < j < |history| && RefusedAt(k, history, i, op, sha) && ForgetsAt(k, history, j, sha)
  }

  // ----- One more event -----------------------------------------------------

  lemma SamePast(k: Codec, history: seq<Event>, e: Event)
    ensures
      var all := history + [e];
      forall i :: 0 <= i <= |history| ==> all[..i] == history[..i]
    ensures (history + [e])[..|history| + 1] == history + [e]
  {
  }

  lemma DrewTakenIdLater(k: Codec, history: seq<Event>, e: Event, op: nat, sha: string)
    requires DrewTakenId(k, history, op, sha)
    ensures DrewTakenId(k, history + [e], op, sha)
  {
    var i :| 0 <= i < |history| && DrawsTakenIdAt(k, history, i, op, sha);
    SamePast(k, history, e);
    assert DrawsTakenIdAt(k, history + [e], i, op, sha);
  }

  lemma RefusedLater(k: Codec, history: seq<Event>, e: Event, op: nat, sha: string)
    requires Refused(k, history, op, sha)
    ensures Refused(k, history + [e], op, sha)
  {
    var i :| 0 <= i < |history| && RefusedAt(k, history, i, op, sha);
    SamePast(k, history, e);
    assert RefusedAt(k, history + [e], i, op, sha);
  }

  lemma LostLater(k: Codec, history: seq<Event>, e: Event, op: nat, sha: string)
    requires LostItsReason(k, history, op, sha)
    ensures LostItsReason(k, history + [e], op, sha)
  {
    var i, j :| 0 <= i < j < |history| && RefusedAt(k, history, i, op, sha) && ForgetsAt(k, history, j, sha);
    SamePast(k, history, e);
    assert RefusedAt(k, history + [e], i, op, sha) && ForgetsAt(k, history + [e], j, sha);
  }

  lemma LostNow(k: Codec, history: seq<Event>, e: Event, op: nat, sha: string)
    requires Refused(k, history, op, sha)
    requires HashKnown(After(k, history).rows, sha) && !HashKnown(Step(k, After(k, history), e).rows, sha)
    ensures LostItsReason(k, history + [e], op, sha)
  {
    var i :| 0 <= i < |history| && RefusedAt(k, history, i, op, sha);
    var all := history + [e];
    SamePast(k, history, e);
    AfterSnoc(k, history, e);
    assert all[..|history|] == history && all[..|history| + 1] == all;
    assert RefusedAt(k, all, i, op, sha) && ForgetsAt(k, all, |history|, sha);
  }

  // ----- The reasons --------------------------------------------------------

  /** Why an operation is looking for a row after a refusal. */
  ghost predicate HasReason(k: Codec, history: seq<Event>, op: nat, sha: string) {
    || DrewTakenId(k, history, op, sha)
    || LostItsReason(k, history, op, sha)
    || (Refused(k, history, op, sha) && HashKnown(After(k, history).rows, sha))
  }

  /** Why it found none. */
  ghost predicate HasExcuse(k: Codec, history: seq<Event>, op: nat) {
    exists sha :: DrewTakenId(k, history, op, sha) || LostItsReason(k, history, op, sha)
  }

  ghost predicate Explained(k: Codec, history: seq<Event>, op: nat) {
    var s := After(k, history);
    op in s.ops ==>
      && (s.ops[op].ToLookUpAgain? ==> HasReason(k, history, op, s.ops[op].sha))
      && (s.ops[op] == Replied(Err(NoMatchingRow)) ==> HasExcuse(k, history, op))
  }

  lemma ReasonStays(k: Codec, history: seq<Event>, e: Event, op: nat, sha: string)
    requires HasReason(k, history, op, sha)
    ensures HasReason(k, history + [e], op, sha)
  {
    AfterSnoc(k, history, e);
    if DrewTakenId(k, history, op, sha) {
      DrewTakenIdLater(k, history, e, op, sha);
    } else if LostItsReason(k, history, op, sha) {
      LostLater(k, history, e, op, sha);
    } else {
      RefusedLater(k, history, e, op, sha);
      if !HashKnown(Step(k, After(k, history), e).rows, sha) {
        LostNow(k, history, e, op, sha);
      }
    }
  }

  lemma ExcuseStays(k: Codec, history: seq<Event>, e: Event, op: nat)
    requires HasExcuse(k, history, op)
    ensures HasExcuse(k, history + [e], op)
  {
    var sha :| DrewTakenId(k, history, op, sha) || LostItsReason(k, history, op, sha);
    if DrewTakenId(k, history, op, sha) {
      DrewTakenIdLater(k, history, e, op, sha);
    } else {
      LostLater(k, history, e, op, sha);
    }
  }

  /** An operation comes to look again by a refusal, and to give up by looking. */
  lemma HowItGotThere(k: Codec, s: Registry, e: Event, op: nat)
    requires op in Step(k, s, e).ops
    ensures
      var next := Step(k, s, e).ops[op];
      && (next.ToLookUpAgain? ==>
            || (op in s.ops && s.ops[op] == next)
            || (&& e.Proceed? && e.op == op && op in s.ops && s.ops[op].ToInsert? && s.ops[op].seen.size > 0
                && k.sha256(s.ops[op].seen.content) == next.sha
                && (e.id in s.rows || HashKnown(s.rows, next.sha)) && Step(k, s, e).rows == s.rows))
      && (next == Replied(Err(NoMatchingRow)) ==>
            op in s.ops && (s.ops[op] == next || (s.ops[op].ToLookUpAgain? && !HashKnown(s.rows, s.ops[op].sha))))
  {
  }

  lemma RefusalIsAReason(k: Codec, history: seq<Event>, e: Event, op: nat, sha: string)
    requires
      var s := After(k, history);
      && e.Proceed? && e.op == op && op in s.ops && s.ops[op].ToInsert? && s.ops[op].seen.size > 0
      && k.sha256(s.ops[op].seen.content) == sha
      && (e.id in s.rows || HashKnown(s.rows, sha)) && Step(k, s, e).rows == s.rows
    ensures HasReason(k, history + [e], op, sha)
  {
    var all, n := history + [e], |history|;
    SamePast(k, history, e);
    AfterSnoc(k, history, e);
    assert all[..n] == history;
    assert InsertsAt(k, all, n, op, sha);
    if HashKnown(After(k, history).rows, sha) {
      assert RefusedAt(k, all, n, op, sha);
    } else {
      assert DrawsTakenIdAt(k, all, n, op, sha);
    }
  }

  lemma StepExplains(k: Codec, history: seq<Event>, e: Event, op: nat)
    requires Explained(k, history, op)
    ensures Explained(k, history + [e], op)
  {
    var s := After(k, history);
    AfterSnoc(k, history, e);
    if op in Step(k, s, e).ops {
      var next := Step(k, s, e).ops[op];
      HowItGotThere(k, s, e, op);
      if next.ToLookUpAgain? {
        if op in s.ops && s.ops[op] == next {
          ReasonStays(k, history, e, op, next.sha);
        } else {
          RefusalIsAReason(k, history, e, op, next.sha);
        }
      } else if next == Replied(Err(NoMatchingRow)) {
        if s.ops[op].ToLookUpAgain? {
          assert HasExcuse(k, history, op);
        }
        ExcuseStays(k, history, e, op);
      }
    }
  }

  lemma NothingYet(k: Codec, op: nat)
    ensures Explained(k, [], op)
  {
    assert After(k, []).ops == map[];
  }

  lemma {:induction false} EverythingIsExplained(k: Codec, history: seq<Event>, op: nat)
    ensures Explained(k, history, op)
  {
    if history == [] {
      NothingYet(k, op);
    } else {
      var before, e := history[..|history| - 1], history[|history| - 1];
      assert history == before + [e];
      EverythingIsExplained(k, before, op);
      StepExplains(k, before, e, op);
    }
  }

  // ----- Main results -------------------------------------------------------

  /** A registration that finds no matching row drew an id that was taken, or was
      refused for a digest that was registered then and was not any more when it
      looked again. */
  lemma NoMatchingRowNeeds(k: Codec, history: seq<Event>, op: nat)
    requires op in After(k, history).ops && After(k, history).ops[op] == Replied(Err(NoMatchingRow))
    ensures exists sha :: DrewTakenId(k, history, op, sha) || LostItsReason(k, history, op, sha)
  {
    EverythingIsExplained(k, history, op);
  }

  lemma LooksAgain(k: Codec, s: Registry, op: nat, sha: string, id: nat, now: int)
    requires op in s.ops && s.ops[op] == ToLookUpAgain(sha)
    ensures
      var t := Step(k, s, Proceed(op, id, now));
      op in t.ops && (t.ops[op] == Replied(Err(NoMatchingRow)) <==> !HashKnown(s.rows, sha))
  {
  }

  /** With a fresh id: looking again finds nothing if and only if the digest it was
      refused for has been forgotten, and not been registered again since. */
  lemma FindsNothingIff(k: Codec, history: seq<Event>, op: nat, sha: string, id: nat, now: int)
    requires op in After(k, history).ops && After(k, history).ops[op] == ToLookUpAgain(sha)
    requires !DrewTakenId(k, history, op, sha)
    ensures
      var s, t := After(k, history), After(k, history + [Proceed(op, id, now)]);
      op in t.ops
      && (t.ops[op] == Replied(Err(NoMatchingRow)) <==> LostItsReason(k, history, op, sha) && !HashKnown(s.rows, sha))
  {
    assert HasReason(k, history, op, sha) by {
      EverythingIsExplained(k, history, op);
    }
    AfterSnoc(k, history, Proceed(op, id, now));
    LooksAgain(k, After(k, history), op, sha, id, now);
  }

  /** Only a rehash that finds another content makes the table forget a digest. */
  lemma ForgettingIsARehash(k: Codec, s: Registry, e: Event, sha: string)
    requires HashKnown(s.rows, sha) && !HashKnown(Step(k, s, e).rows, sha)
    ensures e.Proceed? && e.op in s.ops && s.ops[e.op].ToUpdate?
    ensures
      var row, o := s.ops[e.op].id, s.ops[e.op].seen;
      row in s.rows && s.rows[row].sha256 == sha && k.sha256(o.content) != sha
  {
    var id := FindByHash(s.rows, sha);
    var t := Step(k, s, e);
    assert id in t.rows ==> t.rows[id].sha256 != sha;
  }

  // ----- It is reached with fresh ids ---------------------------------------

  /** Two registrations of one file race; before the loser looks again, the file is
      edited and the winner's row is rehashed. */
  function RaceUpToRefusal(path: string, file: ModelFile): seq<Event> {
    [WriteFile(path, file)] + [StartRegister(0, path)] + [StartRegister(1, path)]
    + [Proceed(0, 5, 1)] + [Proceed(1, 6, 1)] + [Proceed(0, 5, 1)] + [Proceed(1, 6, 1)]
  }

  function RaceEvents(path: string, before: ModelFile, after: ModelFile): seq<Event> {
    RaceUpToRefusal(path, before) + [WriteFile(path, after)] + [StartVerify(2, 5, true)]
    + [Proceed(2, 7, 2)] + [Proceed(2, 7, 2)] + [Proceed(1, 6, 2)]
  }

  lemma BothAboutToInsert(k: Codec, path: string, file: ModelFile)
    ensures
      var s := After(k, [WriteFile(path, file)] + [StartRegister(0, path)] + [StartRegister(1, path)]
                        + [Proceed(0, 5, 1)] + [Proceed(1, 6, 1)]);
      var o := Observation(path, |file.content|, file.modifiedAt, file.content);
      s == Registry(map[path := file], map[], map[0 := ToInsert(o), 1 := ToInsert(o)])
  {
    var h1 := [WriteFile(path, file)];
    AfterSnoc(k, [], WriteFile(path, file));
    assert [] + h1 == h1;
    AfterSnoc(k, h1, StartRegister(0, path));
    AfterSnoc(k, h1 + [StartRegister(0, path)], StartRegister(1, path));
    var h3 := h1 + [StartRegister(0, path)] + [StartRegister(1, path)];
    AfterSnoc(k, h3, Proceed(0, 5, 1));
    AfterSnoc(k, h3 + [Proceed(0, 5, 1)], Proceed(1, 6, 1));
  }

  lemma OneIsRefused(k: Codec, path: string, file: ModelFile)
    requires |file.content| > 0
    ensures
      var s := After(k, RaceUpToRefusal(path, file));
      && s.disk == map[path := file] && s.ops.Keys == {0, 1} && s.ops[1] == ToLookUpAgain(k.sha256(file.content))
      && s.rows == map[5 := Asset(k.sha256(file.content), |file.content|, path, file.modifiedAt, 1, true)]
  {
    BothAboutToInsert(k, path, file);
    var h := [WriteFile(path, file)] + [StartRegister(0, path)] + [StartRegister(1, path)]
      + [Proceed(0, 5, 1)] + [Proceed(1, 6, 1)];
    AfterSnoc(k, h, Proceed(0, 5, 1));
    var s := After(k, h + [Proceed(0, 5, 1)]);
    assert s.rows[5].sha256 == k.sha256(file.content);
    AfterSnoc(k, h + [Proceed(0, 5, 1)], Proceed(1, 6, 1));
  }

  lemma RowIsRehashed(k: Codec, path: string, before: ModelFile, after: ModelFile)
    requires |before.content| > 0 && |after.content| > 0
    ensures
      var s := After(k, RaceUpToRefusal(path, before) + [WriteFile(path, after)] + [StartVerify(2, 5, true)]
                        + [Proceed(2, 7, 2)] + [Proceed(2, 7, 2)]);
      && 1 in s.ops && s.ops[1] == ToLookUpAgain(k.sha256(before.content))
      && s.rows == map[5 := Asset(k.sha256(after.content), |after.content|, path, after.modifiedAt, 2, true)]
  {
    OneIsRefused(k, path, before);
    var h := RaceUpToRefusal(path, before);
    AfterSnoc(k, h, WriteFile(path, after));
    var h1 := h + [WriteFile(path, after)];
    AfterSnoc(k, h1, StartVerify(2, 5, true));
    var h2 := h1 + [StartVerify(2, 5, true)];
    AfterSnoc(k, h2, Proceed(2, 7, 2));
    var s := After(k, h2 + [Proceed(2, 7, 2)]);
    assert s.ops[2] == ToUpdate(5, Observation(path, |after.content|, after.modifiedAt, after.content));
    AfterSnoc(k, h2 + [Proceed(2, 7, 2)], Proceed(2, 7, 2));
  }

  /** Then the second lookup finds nothing, although every id was fresh. */
  lemma LostRaceFindsNothing(k: Codec, path: string, before: ModelFile, after: ModelFile)
    requires k.Lawful() && |before.content| > 0 && |after.content| > 0 && before.content != after.content
    ensures
      var s := After(k, RaceEvents(path, before, after));
      1 in s.ops && s.ops[1] == Replied(Err(NoMatchingRow))
  {
    RowIsRehashed(k, path, before, after);
    AfterSnoc(k, RaceUpToRefusal(path, before) + [WriteFile(path, after)] + [StartVerify(2, 5, true)]
                 + [Proceed(2, 7, 2)] + [Proceed(2, 7, 2)], Proceed(1, 6, 2));
  }
}
