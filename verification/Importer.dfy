/** The importer's record loop over the database it writes to. */
module Importer {
  import opened Prelude
  import opened Domain
  import opened LogParser
  import opened ImportPlan

  /** A row as stored: its own id, and the id of its model asset. */
  datatype Row = Row(id: nat, modelAssetId: nat, content: Content)

  class Database {
    var assets: map<Sha256Hex, nat>
    var rows: seq<Row>
    var nextId: nat

    function Contents(): (c: seq<Content>)
      reads this
      ensures |c| == |rows| && forall i :: 0 <= i < |rows| ==> c[i] == rows[i].content
    {
      seq(|rows|, i requires 0 <= i < |rows| reads this => rows[i].content)
    }

    ghost function Value(): View
      reads this
    {
      View(assets.Keys, Contents())
    }

    /** Ids are not reused, and every row refers to the asset of its model. */
    ghost predicate Valid()
      reads this
    {
      && (forall i, j :: 0 <= i < j < |rows| ==> rows[i].id != rows[j].id)
      && (forall i :: 0 <= i < |rows| ==> rows[i].id < nextId)
      && (forall s :: s in assets ==> assets[s] < nextId)
      && (forall s, t :: s in assets && t in assets && s != t ==> assets[s] != assets[t])
    }

    constructor ()
      ensures Valid() && Value() == View({}, [])
    {
      assets, rows, nextId := map[], [], 0;
    }

    /** Registers the file's content, or finds it registered already; an empty file
        is refused. */
    method Register(file: ModelFile) returns (id: Option<nat>)
      requires Valid()
      modifies this
      ensures Valid() && rows == old(rows)
      ensures id.None? <==> file.sizeBytes == 0 && file.sha256 !in old(assets)
      ensures id.None? ==> assets == old(assets)
      ensures id.Some? ==> assets.Keys == old(assets.Keys) + {file.sha256} && assets[file.sha256] == id.value
      ensures forall s :: s in old(assets) ==> s in assets && assets[s] == old(assets)[s]
    {
      if file.sha256 in assets {
        return Some(assets[file.sha256]);
      }
      if file.sizeBytes == 0 {
        return None;
      }
      id := Some(nextId);
      assets := assets[file.sha256 := nextId];
      nextId := nextId + 1;
    }

    method InsertRun(modelAssetId: nat, content: Content) returns (ok: bool)
      requires Valid()
      modifies this
      ensures Valid() && assets == old(assets) && ok == TableAccepts(content)
      ensures ok ==> rows == old(rows) + [Row(old(nextId), modelAssetId, content)]
      ensures Contents() == old(Contents()) + if ok then [content] else []
    {
      ok := TableAccepts(content);
      if ok {
        rows := rows + [Row(nextId, modelAssetId, content)];
        nextId := nextId + 1;
      }
    }
  }

  /** Finds the model by hash, or registers the file and checks its hash. */
  method Resolve(db: Database, m: Manifest, spec: ModelSpec) returns (r: Result<nat, ImportError>)
    requires db.Valid()
    modifies db
    ensures db.Valid() && db.rows == old(db.rows)
    ensures forall s :: s in old(db.assets) ==> s in db.assets && db.assets[s] == old(db.assets)[s]
    ensures
      match ResolveModel(m, old(db.assets.Keys), spec)
      case Resolved(models) => r.Ok? && db.assets.Keys == models && spec.sha256 in models && db.assets[spec.sha256] == r.value
      case Unresolved(error, models) => r == Err(error) && db.assets.Keys == models
  {
    if spec.sha256 in db.assets {
      return Ok(db.assets[spec.sha256]);
    }
    if spec.path !in m.files {
      return Err(ModelNotReadable);
    }
    var file := m.files[spec.path];
    var id := db.Register(file);
    if id.None? {
      return Err(RegistrationFailed);
    }
    if file.sha256 != spec.sha256 {
      return Err(ModelHashMismatch);
    }
    return Ok(id.value);
  }

  type ModelCache = map<string, nat>

  /** A tag resolved earlier in the run stands for its registered model. */
  ghost predicate CacheIsGood(cache: ModelCache, m: Manifest, assets: map<Sha256Hex, nat>) {
    forall t :: t in cache ==>
      t in m.models && m.models[t].sha256 in assets && assets[m.models[t].sha256] == cache[t]
  }

  datatype Handled = TagSkipped | Present | Inserted | Stopped(error: ImportError)

  /** What handling a record reports and leaves behind. */
  ghost predicate Carries(step: Step, before: View, h: Handled, after: View) {
    match step
    case SkipTag => h == TagSkipped && after == before
    case AlreadyPresent => h == Present && after == before
    case Insert(content, models) => h == Inserted && after == View(models, before.rows + [content])
    case Abort(error, models) => h == Stopped(error) && after == before.(models := models)
  }

  method ResolveCached(db: Database, m: Manifest, tag: string, cache: ModelCache)
    returns (r: Result<nat, ImportError>, cached: ModelCache)
    requires db.Valid() && tag in m.models && CacheIsGood(cache, m, db.assets)
    modifies db
    ensures db.Valid() && db.rows == old(db.rows) && CacheIsGood(cached, m, db.assets)
    ensures
      match ResolveModel(m, old(db.assets.Keys), m.models[tag])
      case Resolved(models) => r.Ok? && db.assets.Keys == models && db.assets[m.models[tag].sha256] == r.value
      case Unresolved(error, models) => r == Err(error) && db.assets.Keys == models
  {
    cached := cache;
    if tag in cached {
      return Ok(cached[tag]), cached;
    }
    r := Resolve(db, m, m.models[tag]);
    if r.Ok? {
      cached := cached[tag := r.value];
    }
  }

  method HandleRecord(db: Database, m: Manifest, records: seq<Record>, i: nat, imported: Keys, cache: ModelCache)
    returns (h: Handled, cached: ModelCache)
    requires db.Valid() && i < |records| && CacheIsGood(cache, m, db.assets)
    modifies db
    ensures db.Valid() && CacheIsGood(cached, m, db.assets)
    ensures Carries(StepAt(m, records, i, imported, old(db.assets.Keys)), old(db.Value()), h, db.Value())
    ensures h == Inserted ==>
      (|db.rows| > 0 && var row := db.rows[|db.rows| - 1];
       row.content.modelSha256 in db.assets && row.modelAssetId == db.assets[row.content.modelSha256])
  {
    cached := cache;
    var record := records[i];
    if record.tag in m.skipTags {
      return TagSkipped, cached;
    }
    var repetition := record.rep - 1;
    if repetition < 0 {
      return Stopped(RepetitionBelowOne), cached;
    }
    if (record.tag, repetition) in imported {
      return Present, cached;
    }
    if record.tag !in m.models {
      return Stopped(NoModelEntry), cached;
    }
    var spec := m.models[record.tag];
    var asset;
    asset, cached := ResolveCached(db, m, record.tag, cached);
    assert db.Contents() == old(db.Contents());
    if asset.Err? {
      return Stopped(asset.error), cached;
    }
    var content := ContentAt(m, records, i, spec);
    if content.Err? {
      return Stopped(content.error), cached;
    }
    var ok := db.InsertRun(asset.value, content.value);
    return if ok then Inserted else Stopped(InsertRefused), cached;
  }

  /** The record loop.  However far it gets, it has done what a run to that record
      does; it ends at the first error. */
  method Run(db: Database, m: Manifest, records: seq<Record>)
    returns (error: Option<ImportError>, inserted: nat, skippedExisting: nat, skippedTags: nat)
    requires db.Valid()
    modifies db
    ensures db.Valid()
    ensures ImportState(db.Value(), error, inserted, skippedExisting, skippedTags) == Import(old(db.Value()), m, records)
  {
    ghost var before := db.Value();
    var imported := ImportedRepetitions(db.Contents(), m.logSha256);
    var cache: ModelCache := map[];
    error, inserted, skippedExisting, skippedTags := None, 0, 0, 0;
    for i := 0 to |records|
      invariant db.Valid() && CacheIsGood(cache, m, db.assets) && error.None?
      invariant ImportState(db.Value(), None, inserted, skippedExisting, skippedTags)
        == RunTo(before, m, records, imported, i)
    {
      var h;
      h, cache := HandleRecord(db, m, records, i, imported, cache);
      AdvanceAs(before, m, records, imported, i, h, db.Value());
      match h {
        case TagSkipped => skippedTags := skippedTags + 1;
        case Present => skippedExisting := skippedExisting + 1;
        case Inserted => inserted := inserted + 1;
        case Stopped(e) =>
          error := Some(e);
          StopsHere(before, m, records, imported, i + 1);
          return;
      }
    }
  }

  /** One handled record moves the run on by one. */
  lemma AdvanceAs(v: View, m: Manifest, records: seq<Record>, imported: Keys, i: nat, h: Handled, after: View)
    requires i < |records| && RunTo(v, m, records, imported, i).error.None?
    requires
      var p := RunTo(v, m, records, imported, i);
      Carries(StepAt(m, records, i, imported, p.view.models), p.view, h, after)
    ensures
      var p := RunTo(v, m, records, imported, i);
      RunTo(v, m, records, imported, i + 1) ==
        ImportState(after,
          if h.Stopped? then Some(h.error) else None,
          p.inserted + if h == Inserted then 1 else 0,
          p.skippedExisting + if h == Present then 1 else 0,
          p.skippedTags + if h == TagSkipped then 1 else 0)
  {
  }

  lemma {:induction false} StopsHere(v: View, m: Manifest, records: seq<Record>, imported: Keys, n: nat)
    requires n <= |records| && RunTo(v, m, records, imported, n).error.Some?
    ensures RunTo(v, m, records, imported, |records|) == RunTo(v, m, records, imported, n)
    decreases |records| - n
  {
    if n < |records| {
      StopsHere(v, m, records, imported, n + 1);
    }
  }
}
