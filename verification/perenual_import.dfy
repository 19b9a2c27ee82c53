/**
 The plant importer: for the IDs 1..maxRequests it requests the species
 details, maps each valid payload onto a plant record, upserts it by its API
 id and tallies what happened. The HTTP client and the database are replaced
 by what they answer: a response and a save outcome per ID, and a map from
 API id to stored record.
 */
module PerenualImport {
  import opened Wrappers
  import opened PhpText

  // ---------------------------------------------------------------------------
  // Payloads and records
  // ---------------------------------------------------------------------------

  /**
   One of the four flattened payload fields: null, a scalar string, or a JSON
   list. The key itself is assumed present; see `Payload`.
   */
  datatype FieldValue = Null | Scalar(text: string) | Items(list: seq<string>)

  /**
   The decoded species payload. `id`, `commonName` and `family` are `None`
   when absent or null; the four `FieldValue` fields are read without a
   default, so their keys are taken to be present.
   */
  datatype Payload = Payload(
    id: Option<int>,
    commonName: Option<string>,
    scientificName: FieldValue,
    family: Option<string>,
    origin: FieldValue,
    defaultImage: FieldValue,
    wateringBenchmark: FieldValue)

  /** A stored plant row, keyed by `apiId`; `None` is a null column. */
  datatype PlantRecord = PlantRecord(
    apiId: int,
    commonName: string,
    scientificName: Option<string>,
    family: Option<string>,
    origin: Option<string>,
    defaultImage: Option<string>,
    wateringBenchmark: Option<string>)

  const UnknownName: string := "Unknown"
  const ListSeparator: string := ", "

  /**
   A list the column format can carry: at least one item, and no item holding
   the `,` that separates them.
   */
  predicate Recoverable(xs: seq<string>) {
    |xs| >= 1 && forall i :: 0 <= i < |xs| ==> ',' !in xs[i]
  }

  /**
   `column` is a faithful rendering of the field: null exactly when the field
   is null, the text itself for a scalar, and for a list a string from which
   the list reads back whenever it can, and the empty string for an empty list.
   */
  predicate FlattenedFrom(column: Option<string>, f: FieldValue) {
    && (column.None? <==> f.Null?)
    && (f.Scalar? ==> column == Some(f.text))
    && (f.Items? && Recoverable(f.list) ==> SplitList(column.value) == Some(f.list))
    && (f.Items? && |f.list| == 0 ==> column == Some(""))
  }

  /** A column value: lists are joined with `, `, scalars kept, absent fields null. */
  function Flatten(f: FieldValue): (r: Option<string>)
    ensures FlattenedFrom(r, f)
  {
    match f
    case Null => None
    case Scalar(t) => Some(t)
    case Items(xs) => FlattenedListReadsBack(xs); Some(Join(xs, ListSeparator))
  }

  lemma FlattenedListReadsBack(xs: seq<string>)
    ensures Recoverable(xs) ==> SplitList(Join(xs, ListSeparator)) == Some(xs)
  {
    if Recoverable(xs) {
      FlattenListRoundTrip(xs);
    }
  }

  /**
   Reads a flattened list back: cut at each `, `. A `,` not followed by a
   space is not a separator the column format writes, so nothing is read.
   */
  function SplitList(s: string): (r: Option<seq<string>>)
    ensures r.Some? ==> |r.value| >= 1
    decreases |s|
  {
    if ',' !in s then Some([s])
    else
      var k := IndexOf(s, ',');
      var rest := s[k + 1..];
      if |rest| == 0 || rest[0] != ' ' then None
      else
        match SplitList(rest[1..])
        case None => None
        case Some(items) => Some([s[..k]] + items)
  }

  /** A non-empty list whose items hold no `,` is recovered from its column value. */
  lemma {:induction false} FlattenListRoundTrip(xs: seq<string>)
    requires Recoverable(xs)
    ensures SplitList(Join(xs, ListSeparator)) == Some(xs)
    decreases |xs|
  {
    var s := Join(xs, ListSeparator);
    if |xs| == 1 {
      assert s == xs[0];
      assert ',' !in s;
      assert xs == [xs[0]];
    } else {
      var rest := Join(xs[1..], ListSeparator);
      assert s == xs[0] + [','] + (" " + rest);
      SplitListAfter(xs[0], rest);
      FlattenListRoundTrip(xs[1..]);
      assert [xs[0]] + xs[1..] == xs;
    }
  }

  lemma SplitListAfter(a: string, rest: string)
    requires ',' !in a
    ensures SplitList(a + [','] + (" " + rest))
         == (match SplitList(rest) case None => None case Some(items) => Some([a] + items))
  {
    var s := a + [','] + (" " + rest);
    IndexOfAfter(a, ',', " " + rest);
    assert s[..|a|] == a;
    assert s[|a| + 1..] == " " + rest;
    assert (" " + rest)[1..] == rest;
  }

  /** A comma without the space after it is rejected: `"a,b"` reads as nothing. */
  lemma BareCommaRejected(a: string, b: string)
    requires ',' !in a && (|b| == 0 || b[0] != ' ')
    ensures SplitList(a + [','] + b) == None
  {
    var s := a + [','] + b;
    IndexOfAfter(a, ',', b);
    assert s[|a| + 1..] == b;
  }

  /**
   The record stored for a payload: none without an id; otherwise the id,
   the common name or `Unknown`, the family or null, and the four other
   fields flattened.
   */
  function ToRecord(p: Payload): (r: Option<PlantRecord>)
    ensures r.None? <==> p.id.None?
    ensures r.Some? ==> r.value.apiId == p.id.value
    ensures r.Some? ==> r.value.commonName == p.commonName.GetOr(UnknownName)
    ensures r.Some? ==> r.value.family == p.family
    ensures r.Some? ==> FlattenedFrom(r.value.scientificName, p.scientificName)
    ensures r.Some? ==> FlattenedFrom(r.value.origin, p.origin)
    ensures r.Some? ==> FlattenedFrom(r.value.defaultImage, p.defaultImage)
    ensures r.Some? ==> FlattenedFrom(r.value.wateringBenchmark, p.wateringBenchmark)
  {
    if p.id.None? then None
    else Some(PlantRecord(
      p.id.value,
      p.commonName.GetOr(UnknownName),
      Flatten(p.scientificName),
      p.family,
      Flatten(p.origin),
      Flatten(p.defaultImage),
      Flatten(p.wateringBenchmark)))
  }

  lemma ToRecordExample()
    ensures ToRecord(Payload(Some(1), None, Items(["Abies alba", "Abies pectinata"]), None,
                             Scalar("Europe"), Null, Null))
         == Some(PlantRecord(1, "Unknown", Some("Abies alba, Abies pectinata"), None,
                             Some("Europe"), None, None))
  {
    assert Join(["Abies alba", "Abies pectinata"], ListSeparator) == "Abies alba, Abies pectinata" by {
      assert ["Abies alba", "Abies pectinata"][1..] == ["Abies pectinata"];
    }
  }

  // ---------------------------------------------------------------------------
  // One request
  // ---------------------------------------------------------------------------

  /** The answer to one request: a failure status, or a body that may be empty. */
  datatype Response = Failed(status: int) | Received(body: Option<Payload>)

  /** What happens for one ID: the response, and whether saving would throw. */
  datatype Attempt = Attempt(response: Response, saveFails: bool)

  /** The record an attempt writes, if any: a successful, valid payload whose save succeeds. */
  function StoredRecord(a: Attempt): (r: Option<PlantRecord>)
    ensures r.Some? <==>
      a.response.Received? && a.response.body.Some? && a.response.body.value.id.Some? && !a.saveFails
  {
    if a.response.Failed? || a.response.body.None? || a.saveFails then None
    else ToRecord(a.response.body.value)
  }

  /**
   An attempt counted as an error: the request failed, the payload is empty
   or has no id, or the save throws. Exactly the attempts that store nothing
   (`StoredRecord`'s contract).
   */
  predicate Rejected(a: Attempt) {
    !(a.response.Received? && a.response.body.Some? && a.response.body.value.id.Some? && !a.saveFails)
  }

  /** The latest record among the attempts for IDs 1..k that is stored under `apiId`. */
  function LastStored(source: int -> Attempt, k: int, apiId: int): Option<PlantRecord>
    decreases k
  {
    if k <= 0 then None
    else
      var r := StoredRecord(source(k));
      if r.Some? && r.value.apiId == apiId then r else LastStored(source, k - 1, apiId)
  }

  // ---------------------------------------------------------------------------
  // The import loop
  // ---------------------------------------------------------------------------

  datatype Stats = Stats(processed: nat, created: nat, updated: nat, errors: nat)

  /** Requests made for a limit: one by default, none for a limit below 1. */
  function RequestCount(maxRequests: Option<int>): (n: nat)
    ensures maxRequests.None? ==> n == 1
    ensures maxRequests.Some? && maxRequests.value >= 0 ==> n == maxRequests.value
    ensures maxRequests.Some? && maxRequests.value < 0 ==> n == 0
  {
    var limit := maxRequests.GetOr(1);
    if limit < 0 then 0 else limit
  }

  /**
   One iteration for ID `id`: count it, then count an error and log the ID
   for a failed request, an empty payload, a payload without id or a failed
   save; otherwise upsert the record, counting a creation when its API id is
   new and an update when it is already stored.
   */
  method ProcessId(id: int, attempt: Attempt, stats: Stats, db: map<int, PlantRecord>, failedIds: seq<int>)
    returns (stats': Stats, db': map<int, PlantRecord>, failedIds': seq<int>)
    ensures stats'.processed == stats.processed + 1
    ensures |db'| == |db| + (stats'.created - stats.created)
    ensures Rejected(attempt) ==>
      stats' == stats.(processed := stats.processed + 1, errors := stats.errors + 1)
      && db' == db && failedIds' == failedIds + [id]
    ensures !Rejected(attempt) ==>
      var r := StoredRecord(attempt).value;
      && failedIds' == failedIds && db' == db[r.apiId := r]
      && stats'.errors == stats.errors
      && (r.apiId in db ==> stats'.updated == stats.updated + 1 && stats'.created == stats.created)
      && (r.apiId !in db ==> stats'.created == stats.created + 1 && stats'.updated == stats.updated)
  {
    stats' := stats.(processed := stats.processed + 1);
    db' := db;
    failedIds' := failedIds;
    if attempt.response.Failed? {
      stats' := stats'.(errors := stats'.errors + 1);
      failedIds' := failedIds + [id];
    } else if attempt.response.body.None? || attempt.response.body.value.id.None? {
      stats' := stats'.(errors := stats'.errors + 1);
      failedIds' := failedIds + [id];
    } else {
      var record := ToRecord(attempt.response.body.value).value;
      if attempt.saveFails {
        stats' := stats'.(errors := stats'.errors + 1);
        failedIds' := failedIds + [id];
      } else if record.apiId in db {
        stats' := stats'.(updated := stats'.updated + 1);
        db' := db[record.apiId := record];
      } else {
        stats' := stats'.(created := stats'.created + 1);
        db' := db[record.apiId := record];
      }
    }
  }

  /**
   The error log after IDs 1..k, as a reference definition: the rejected IDs
   among them, each once, in increasing order.
   */
  function FailedUpTo(source: int -> Attempt, k: int): (r: seq<int>)
    ensures forall j :: 0 <= j < |r| ==> 1 <= r[j] <= k
    ensures forall i, j :: 0 <= i < j < |r| ==> r[i] < r[j]
    ensures forall id :: id in r <==> 1 <= id <= k && Rejected(source(id))
    decreases k
  {
    if k <= 0 then []
    else FailedUpTo(source, k - 1) + (if Rejected(source(k)) then [k] else [])
  }

  /** The database after IDs 1..k: every key stored before or since, holding its latest record. */
  ghost predicate Replayed(source: int -> Attempt, k: int, db0: map<int, PlantRecord>, db: map<int, PlantRecord>) {
    && (forall apiId :: apiId in db <==> apiId in db0 || LastStored(source, k, apiId).Some?)
    && (forall apiId :: apiId in db ==>
          db[apiId] == if LastStored(source, k, apiId).Some?
                       then LastStored(source, k, apiId).value else db0[apiId])
  }

  /** A rejected attempt leaves both the database and the latest records alone. */
  lemma ReplayRejected(source: int -> Attempt, k: int, db0: map<int, PlantRecord>, db: map<int, PlantRecord>)
    requires k >= 1 && Rejected(source(k))
    requires Replayed(source, k - 1, db0, db)
    ensures Replayed(source, k, db0, db)
  {
    forall apiId ensures LastStored(source, k, apiId) == LastStored(source, k - 1, apiId) {
    }
  }

  /** A stored attempt becomes the latest record under its API id and nowhere else. */
  lemma ReplayStored(source: int -> Attempt, k: int, db0: map<int, PlantRecord>, db: map<int, PlantRecord>)
    requires k >= 1 && !Rejected(source(k))
    requires Replayed(source, k - 1, db0, db)
    ensures var r := StoredRecord(source(k)).value;
      Replayed(source, k, db0, db[r.apiId := r])
  {
    var r := StoredRecord(source(k)).value;
    forall apiId ensures LastStored(source, k, apiId) ==
      if apiId == r.apiId then Some(r) else LastStored(source, k - 1, apiId) {
    }
  }

  /** The tally, the error log and the database after IDs 1..k. */
  ghost predicate ImportedUpTo(source: int -> Attempt, k: int, db0: map<int, PlantRecord>,
                               stats: Stats, db: map<int, PlantRecord>, failedIds: seq<int>) {
    && stats.processed == k
    && stats.processed == stats.created + stats.updated + stats.errors
    && stats.errors == |failedIds|
    && failedIds == FailedUpTo(source, k)
    && Replayed(source, k, db0, db)
    && |db| == |db0| + stats.created
  }

  /** Before any ID: nothing counted, nothing logged, the database as it was. */
  lemma ImportStart(source: int -> Attempt, db0: map<int, PlantRecord>)
    ensures ImportedUpTo(source, 0, db0, Stats(0, 0, 0, 0), db0, [])
  {
    forall apiId ensures LastStored(source, 0, apiId).None? {
    }
  }

  /** A rejected ID k + 1 only adds an error and a log entry. */
  lemma StepRejected(source: int -> Attempt, k: nat, db0: map<int, PlantRecord>,
                     stats: Stats, db: map<int, PlantRecord>, failedIds: seq<int>)
    requires ImportedUpTo(source, k, db0, stats, db, failedIds)
    requires Rejected(source(k + 1))
    ensures ImportedUpTo(source, k + 1, db0,
                         stats.(processed := stats.processed + 1, errors := stats.errors + 1),
                         db, failedIds + [k + 1])
  {
    ReplayRejected(source, k + 1, db0, db);
  }

  /** A stored ID leaves the log as it was. */
  lemma LogSkipsStored(source: int -> Attempt, k: nat)
    requires !Rejected(source(k + 1))
    ensures FailedUpTo(source, k + 1) == FailedUpTo(source, k)
  {
  }

  /** A stored ID k + 1 upserts its record and leaves the log alone. */
  lemma StepStored(source: int -> Attempt, k: nat, db0: map<int, PlantRecord>,
                   stats: Stats, db: map<int, PlantRecord>, failedIds: seq<int>,
                   stats': Stats, db': map<int, PlantRecord>)
    requires ImportedUpTo(source, k, db0, stats, db, failedIds)
    requires !Rejected(source(k + 1))
    requires var r := StoredRecord(source(k + 1)).value; db' == db[r.apiId := r]
    requires |db'| == |db| + (stats'.created - stats.created)
    requires stats'.processed == stats.processed + 1 && stats'.errors == stats.errors
    requires stats'.created + stats'.updated == stats.created + stats.updated + 1
    ensures ImportedUpTo(source, k + 1, db0, stats', db', failedIds)
  {
    LogSkipsStored(source, k);
    ReplayStored(source, k + 1, db0, db);
  }

  /** One pass of the import loop: processing ID k + 1 extends the state after IDs 1..k. */
  method ImportStep(source: int -> Attempt, k: nat, db0: map<int, PlantRecord>,
                    stats: Stats, db: map<int, PlantRecord>, failedIds: seq<int>)
    returns (stats': Stats, db': map<int, PlantRecord>, failedIds': seq<int>)
    requires ImportedUpTo(source, k, db0, stats, db, failedIds)
    ensures ImportedUpTo(source, k + 1, db0, stats', db', failedIds')
  {
    var attempt := source(k + 1);
    stats', db', failedIds' := ProcessId(k + 1, attempt, stats, db, failedIds);
    if Rejected(attempt) {
      StepRejected(source, k, db0, stats, db, failedIds);
    } else {
      StepStored(source, k, db0, stats, db, failedIds, stats', db');
    }
  }

  /** The loop of the import: IDs 1..n in increasing order, none when n < 1. */
  method ImportLoop(source: int -> Attempt, n: int, db0: map<int, PlantRecord>)
    returns (stats: Stats, db: map<int, PlantRecord>, failedIds: seq<int>)
    ensures ImportedUpTo(source, if n < 0 then 0 else n, db0, stats, db, failedIds)
  {
    stats := Stats(0, 0, 0, 0);
    db := db0;
    failedIds := [];
    ImportStart(source, db0);
    var k: nat := 0;
    while k < n
      invariant k <= n || k == 0
      invariant ImportedUpTo(source, k, db0, stats, db, failedIds)
    {
      stats, db, failedIds := ImportStep(source, k, db0, stats, db, failedIds);
      k := k + 1;
    }
  }

  /** The state after IDs 1..k, spelled out. */
  lemma ImportedUpToMeans(source: int -> Attempt, db0: map<int, PlantRecord>,
                          stats: Stats, db: map<int, PlantRecord>, failedIds: seq<int>)
    requires ImportedUpTo(source, stats.processed, db0, stats, db, failedIds)
    ensures stats.processed == stats.created + stats.updated + stats.errors
    ensures stats.errors == |failedIds|
    ensures failedIds == FailedUpTo(source, stats.processed)
    ensures forall apiId :: apiId in db <==> apiId in db0 || LastStored(source, stats.processed, apiId).Some?
    ensures forall apiId :: apiId in db ==>
      db[apiId] == if LastStored(source, stats.processed, apiId).Some?
                   then LastStored(source, stats.processed, apiId).value else db0[apiId]
    ensures |db| == |db0| + stats.created
  {
  }

  /**
   Imports the IDs 1..maxRequests (1 when the limit is null) in increasing
   order. `source(i)` is what the provider and the database do for ID i.
   Returns the tally, the database afterwards, and the IDs logged as errors.
   */
  method FetchAndStorePlants(maxRequests: Option<int>, source: int -> Attempt, db0: map<int, PlantRecord>)
    returns (stats: Stats, db: map<int, PlantRecord>, failedIds: seq<int>)
    ensures stats.processed == RequestCount(maxRequests)
    ensures stats.processed == stats.created + stats.updated + stats.errors
    ensures stats.errors == |failedIds|
    ensures failedIds == FailedUpTo(source, stats.processed)
    ensures forall apiId :: apiId in db <==> apiId in db0 || LastStored(source, stats.processed, apiId).Some?
    ensures forall apiId :: apiId in db ==>
      db[apiId] == if LastStored(source, stats.processed, apiId).Some?
                   then LastStored(source, stats.processed, apiId).value else db0[apiId]
    ensures |db| == |db0| + stats.created
  {
    stats, db, failedIds := ImportLoop(source, maxRequests.GetOr(1), db0);
    ImportedUpToMeans(source, db0, stats, db, failedIds);
  }
}
