/**
 * application/treatment/services.py: the treatment catalogue, synchronised once from the
 * records of a YAML file into the `Treatment` table and then read from it.
 */
module Treatments {
  import opened Wrappers
  import opened Text

  /** A row of the `Treatment` table. */
  datatype Treatment = Treatment(id: int, name: string, description: string)

  /** An entry of the YAML file's `treatments` list; the base loader reads every scalar as text. */
  datatype Record = Record(id: string, name: string, description: string)

  /** What `int(treatment['id'])` raises on an id that is not an integer. */
  datatype SyncError = InvalidId(id: string)

  /** The YAML file a service reads when it is given none. */
  const DefaultYamlFile: string := "treatments.yaml"

  /** The table is keyed by its primary key: each row sits under its own id. */
  ghost predicate KeyedById(rows: map<int, Treatment>) {
    forall k :: k in rows ==> rows[k].id == k
  }

  /** The conversion of a record's textual id to an integer; `None` where it raises. */
  type IdParser = string -> Option<int>

  /** The row `int(record['id'])` and the record's fields make, or the error `int` raises. */
  function ToTreatment(record: Record, parseId: IdParser): Result<Treatment, SyncError> {
    match parseId(record.id)
    case None => Err(InvalidId(record.id))
    case Some(id) => Ok(Treatment(id, record.name, record.description))
  }

  /** The rows of all records, in order, or the error of the first record whose id is not an integer. */
  function ParseRecords(records: seq<Record>, parseId: IdParser): Result<seq<Treatment>, SyncError>
    decreases |records|
  {
    if |records| == 0 then Ok([])
    else
      match ParseRecords(records[..|records| - 1], parseId)
      case Err(e) => Err(e)
      case Ok(rows) =>
        match ToTreatment(records[|records| - 1], parseId)
        case Err(e) => Err(e)
        case Ok(t) => Ok(rows + [t])
  }

  /** Each row in turn is inserted under its id, or replaces the name and description there. */
  function Upsert(rows: map<int, Treatment>, ts: seq<Treatment>): map<int, Treatment>
    decreases |ts|
  {
    if |ts| == 0 then rows
    else
      var t := ts[|ts| - 1];
      Upsert(rows, ts[..|ts| - 1])[t.id := t]
  }

  /**
   * The table after synchronising `records` into `rows`; an id that is not an integer stops
   * the synchronisation with nothing committed.
   */
  function Sync(rows: map<int, Treatment>, records: seq<Record>, parseId: IdParser): Result<map<int, Treatment>, SyncError> {
    match ParseRecords(records, parseId)
    case Err(e) => Err(e)
    case Ok(ts) => Ok(Upsert(rows, ts))
  }

  /**
   * Parsing succeeds exactly when every id is an integer, and then row `i` is record `i`
   * under its integer id.
   */
  lemma {:induction false} ParseRecordsOk(records: seq<Record>, parseId: IdParser)
    ensures ParseRecords(records, parseId).Ok? <==> forall i :: 0 <= i < |records| ==> parseId(records[i].id).Some?
    ensures ParseRecords(records, parseId).Ok? ==>
              (|ParseRecords(records, parseId).value| == |records|
               && forall i :: 0 <= i < |records| ==>
                    ParseRecords(records, parseId).value[i]
                    == Treatment(parseId(records[i].id).value, records[i].name, records[i].description))
    decreases |records|
  {
    if |records| > 0 {
      var init := records[..|records| - 1];
      ParseRecordsOk(init, parseId);
      assert forall i :: 0 <= i < |init| ==> init[i] == records[i];
    }
  }

  /** A failed parse names the first record whose id is not an integer. */
  lemma {:induction false} ParseRecordsError(records: seq<Record>, parseId: IdParser)
    requires ParseRecords(records, parseId).Err?
    ensures exists i :: (0 <= i < |records| && parseId(records[i].id).None?
                         && ParseRecords(records, parseId).error == InvalidId(records[i].id)
                         && forall j :: 0 <= j < i ==> parseId(records[j].id).Some?)
    decreases |records|
  {
    var init := records[..|records| - 1];
    assert forall j :: 0 <= j < |init| ==> init[j] == records[j];
    if ParseRecords(init, parseId).Err? {
      ParseRecordsError(init, parseId);
    } else {
      ParseRecordsOk(init, parseId);
      assert parseId(records[|init|].id).None?;
    }
  }

  /** The ids of a sequence of rows. */
  function IdsOf(ts: seq<Treatment>): set<int> {
    set i | 0 <= i < |ts| :: ts[i].id
  }

  /** Upserting adds the rows of new ids to the ids already present, and deletes none. */
  lemma {:induction false} UpsertKeys(rows: map<int, Treatment>, ts: seq<Treatment>)
    ensures Upsert(rows, ts).Keys == rows.Keys + IdsOf(ts)
    decreases |ts|
  {
    if |ts| > 0 {
      var init := ts[..|ts| - 1];
      UpsertKeys(rows, init);
      assert IdsOf(ts) == IdsOf(init) + {ts[|ts| - 1].id} by {
        assert forall i :: 0 <= i < |init| ==> init[i] == ts[i];
      }
    }
  }

  /** A row whose id no upserted row carries is neither changed nor deleted. */
  lemma {:induction false} UpsertKeepsOthers(rows: map<int, Treatment>, ts: seq<Treatment>, k: int)
    requires k in rows
    requires forall i :: 0 <= i < |ts| ==> ts[i].id != k
    ensures k in Upsert(rows, ts) && Upsert(rows, ts)[k] == rows[k]
    decreases |ts|
  {
    if |ts| > 0 {
      UpsertKeepsOthers(rows, ts[..|ts| - 1], k);
    }
  }

  /** No later row carries the id of row `i`. */
  predicate LastWithId(ts: seq<Treatment>, i: nat)
    requires i < |ts|
  {
    forall j :: i < j < |ts| ==> ts[j].id != ts[i].id
  }

  /** The row under an upserted id is the last upserted row with that id. */
  lemma {:induction false} UpsertLatest(rows: map<int, Treatment>, ts: seq<Treatment>, i: nat)
    requires i < |ts| && LastWithId(ts, i)
    ensures ts[i].id in Upsert(rows, ts) && Upsert(rows, ts)[ts[i].id] == ts[i]
    decreases |ts|
  {
    if i < |ts| - 1 {
      var init := ts[..|ts| - 1];
      assert init[i] == ts[i];
      UpsertLatest(rows, init, i);
    }
  }

  /** Every upserted id has a last row that carries it. */
  lemma {:induction false} LastRowWithId(ts: seq<Treatment>, k: int)
    requires k in IdsOf(ts)
    ensures exists i :: 0 <= i < |ts| && ts[i].id == k && LastWithId(ts, i)
    decreases |ts|
  {
    var last := |ts| - 1;
    if ts[last].id == k {
      assert LastWithId(ts, last);
    } else {
      var init := ts[..last];
      var i0 :| 0 <= i0 < |ts| && ts[i0].id == k;
      assert init[i0] == ts[i0];
      LastRowWithId(init, k);
      var i :| 0 <= i < |init| && init[i].id == k && LastWithId(init, i);
      assert ts[i] == init[i];
      assert LastWithId(ts, i) by {
        forall j | i < j < |ts| ensures ts[j].id != ts[i].id {
          if j < last {
            assert ts[j] == init[j];
          }
        }
      }
    }
  }

  /** Upserting keeps every row under its own id. */
  lemma {:induction false} UpsertKeyedById(rows: map<int, Treatment>, ts: seq<Treatment>)
    requires KeyedById(rows)
    ensures KeyedById(Upsert(rows, ts))
    decreases |ts|
  {
    if |ts| > 0 {
      UpsertKeyedById(rows, ts[..|ts| - 1]);
    }
  }

  /** Upserting the same rows a second time changes nothing. */
  lemma UpsertIdempotent(rows: map<int, Treatment>, ts: seq<Treatment>)
    ensures Upsert(Upsert(rows, ts), ts) == Upsert(rows, ts)
  {
    var m := Upsert(rows, ts);
    var m' := Upsert(m, ts);
    UpsertKeys(rows, ts);
    UpsertKeys(m, ts);
    forall k | k in m ensures m'[k] == m[k] {
      if k in IdsOf(ts) {
        LastRowWithId(ts, k);
        var i :| 0 <= i < |ts| && ts[i].id == k && LastWithId(ts, i);
        UpsertLatest(rows, ts, i);
        UpsertLatest(m, ts, i);
      } else {
        UpsertKeepsOthers(m, ts, k);
      }
    }
  }

  /** No later record's id parses to the same integer as record `i`'s. */
  predicate LastRecordWithId(records: seq<Record>, i: nat, parseId: IdParser)
    requires i < |records|
  {
    forall j :: i < j < |records| ==> parseId(records[j].id) != parseId(records[i].id)
  }

  /** Once a prefix of the records fails to parse, the whole sequence fails with the same error. */
  lemma {:induction false} ParseRecordsErrorPersists(records: seq<Record>, k: nat, parseId: IdParser)
    requires k <= |records| && ParseRecords(records[..k], parseId).Err?
    ensures ParseRecords(records, parseId) == ParseRecords(records[..k], parseId)
    decreases |records| - k
  {
    if k < |records| {
      assert records[..k + 1][..k] == records[..k];
      ParseRecordsErrorPersists(records, k + 1, parseId);
    } else {
      assert records[..k] == records;
    }
  }

  /** Parsing one more record extends the rows by that record's row, or fails with its error. */
  lemma ParseRecordsStep(records: seq<Record>, i: nat, parsed: seq<Treatment>, parseId: IdParser)
    requires i < |records| && ParseRecords(records[..i], parseId) == Ok(parsed)
    ensures ParseRecords(records[..i + 1], parseId)
            == match parseId(records[i].id)
               case None => Err(InvalidId(records[i].id))
               case Some(id) => Ok(parsed + [Treatment(id, records[i].name, records[i].description)])
  {
    assert records[..i + 1][..i] == records[..i];
  }

  /**
   * Synchronising the records: it succeeds exactly when every id converts; then every row
   * stays under its own id, no row is deleted, and every new id is some record's id.
   */
  lemma SyncMeaning(rows: map<int, Treatment>, records: seq<Record>, parseId: IdParser)
    requires KeyedById(rows)
    ensures Sync(rows, records, parseId).Ok? <==> forall i :: 0 <= i < |records| ==> parseId(records[i].id).Some?
    ensures Sync(rows, records, parseId).Ok? ==> (
      var m := Sync(rows, records, parseId).value;
      && KeyedById(m)
      && rows.Keys <= m.Keys
      && (forall k :: k in m ==> k in rows || exists i :: 0 <= i < |records| && parseId(records[i].id) == Some(k)))
  {
    ParseRecordsOk(records, parseId);
    if Sync(rows, records, parseId).Ok? {
      var ts := ParseRecords(records, parseId).value;
      var m := Upsert(rows, ts);
      UpsertKeys(rows, ts);
      UpsertKeyedById(rows, ts);
      forall k | k in m && k !in rows
        ensures exists i :: 0 <= i < |records| && parseId(records[i].id) == Some(k)
      {
        var i :| 0 <= i < |ts| && ts[i].id == k;
      }
    }
  }

  /**
   * The rows after a successful synchronisation: each record's id holds the name and
   * description of the last record with that id, and a row that no record names is unchanged.
   */
  lemma SyncRows(rows: map<int, Treatment>, records: seq<Record>, parseId: IdParser)
    requires Sync(rows, records, parseId).Ok?
    ensures var m := Sync(rows, records, parseId).value;
      && (forall k :: k in rows && (forall i :: 0 <= i < |records| ==> parseId(records[i].id) != Some(k))
            ==> k in m && m[k] == rows[k])
      && (forall i :: 0 <= i < |records| && LastRecordWithId(records, i, parseId)
            ==> parseId(records[i].id).Some? && parseId(records[i].id).value in m
                && m[parseId(records[i].id).value] == Treatment(parseId(records[i].id).value, records[i].name, records[i].description))
  {
    ParseRecordsOk(records, parseId);
    var ts := ParseRecords(records, parseId).value;
    var m := Upsert(rows, ts);
    UpsertKeys(rows, ts);
    forall k | k in rows && (forall i :: 0 <= i < |records| ==> parseId(records[i].id) != Some(k))
      ensures k in m && m[k] == rows[k]
    {
      UpsertKeepsOthers(rows, ts, k);
    }
    forall i | 0 <= i < |records| && LastRecordWithId(records, i, parseId)
      ensures ts[i].id in m && m[ts[i].id] == ts[i]
    {
      UpsertLatest(rows, ts, i);
    }
  }

  /** Synchronising the same records a second time changes nothing. */
  lemma SyncIdempotent(rows: map<int, Treatment>, records: seq<Record>, parseId: IdParser)
    requires Sync(rows, records, parseId).Ok?
    ensures Sync(Sync(rows, records, parseId).value, records, parseId) == Sync(rows, records, parseId)
  {
    UpsertIdempotent(rows, ParseRecords(records, parseId).value);
  }

  /**
   * The loop of `init`, up to the commit: each record's id is converted (by `int` in `Init`), then the
   * row under that id is updated in place, or a new row is added.
   */
  method StageRecords(rows: map<int, Treatment>, records: seq<Record>, parseId: IdParser) returns (r: Result<map<int, Treatment>, SyncError>)
    requires KeyedById(rows)
    ensures r == Sync(rows, records, parseId)
    ensures r.Ok? ==> KeyedById(r.value)
  {
    var staged := rows;
    ghost var parsed: seq<Treatment> := [];
    var i := 0;
    while i < |records|
      invariant 0 <= i <= |records|
      invariant |parsed| == i
      invariant ParseRecords(records[..i], parseId) == Ok(parsed)
      invariant staged == Upsert(rows, parsed)
      invariant KeyedById(staged)
    {
      var id := parseId(records[i].id);
      ParseRecordsStep(records, i, parsed, parseId);
      if id.None? {
        ParseRecordsErrorPersists(records, i + 1, parseId);
        return Err(InvalidId(records[i].id));
      }
      var row := Treatment(id.value, records[i].name, records[i].description);
      if id.value !in staged {
        staged := staged[id.value := row];
      } else {
        staged := staged[id.value := staged[id.value].(name := row.name, description := row.description)];
      }
      parsed := parsed + [row];
      assert parsed[..i] == parsed[..|parsed| - 1];
      i := i + 1;
    }
    assert records[..i] == records;
    r := Ok(staged);
  }

  /** The `Treatment` table of the database. */
  class TreatmentTable {
    var rows: map<int, Treatment>

    ghost predicate Valid()
      reads this
    {
      KeyedById(rows)
    }

    constructor()
      ensures Valid() && rows == map[]
    {
      rows := map[];
    }
  }

  /** `TreatmentService`: the table is synchronised from the YAML records on first use. */
  class TreatmentService {
    var initialized: bool
    const yamlFile: string
    const table: TreatmentTable

    /** A fresh service is not yet initialised; its YAML file is `treatments.yaml` unless one is given. */
    constructor(table: TreatmentTable, yamlFile: string := DefaultYamlFile)
      ensures !initialized && this.yamlFile == yamlFile && this.table == table
    {
      initialized := false;
      this.yamlFile := yamlFile;
      this.table := table;
    }

    /**
     * `init`: stages the upsert of every record of the YAML file and commits it. On success the
     * table is `Sync` of the old table and the service is initialised; an id that is not an
     * integer raises before the commit, leaving the table and the flag as they were.
     */
    method Init(records: seq<Record>) returns (r: Result<(), SyncError>)
      requires table.Valid()
      modifies this, table
      ensures table.Valid()
      ensures r.Ok? <==> Sync(old(table.rows), records, ParseInt).Ok?
      ensures r.Ok? ==> initialized && Sync(old(table.rows), records, ParseInt).Ok?
                        && table.rows == Sync(old(table.rows), records, ParseInt).value
      ensures r.Err? ==> (Sync(old(table.rows), records, ParseInt).Err? && r.error == Sync(old(table.rows), records, ParseInt).error
                          && initialized == old(initialized) && table.rows == old(table.rows))
    {
      var staged := StageRecords(table.rows, records, ParseInt);
      if staged.Err? {
        return Err(staged.error);
      }
      table.rows := staged.value;
      initialized := true;
      r := Ok(());
    }

    /**
     * The `_require_init` wrapper: runs `init` first exactly when the service is not yet
     * initialised, so an initialised service leaves the table alone.
     */
    method RequireInit(records: seq<Record>) returns (r: Result<(), SyncError>)
      requires table.Valid()
      modifies this, table
      ensures table.Valid()
      ensures old(initialized) ==> r.Ok? && initialized && table.rows == old(table.rows)
      ensures !old(initialized) ==> (r.Ok? <==> Sync(old(table.rows), records, ParseInt).Ok?)
      ensures !old(initialized) && r.Ok? ==> (initialized && Sync(old(table.rows), records, ParseInt).Ok?
                                              && table.rows == Sync(old(table.rows), records, ParseInt).value)
      ensures r.Err? ==> (!initialized && table.rows == old(table.rows) && Sync(old(table.rows), records, ParseInt).Err?
                          && r.error == Sync(old(table.rows), records, ParseInt).error)
    {
      if !initialized {
        r := Init(records);
      } else {
        r := Ok(());
      }
    }

    /** `get_treatment`: the row stored under `treatmentId`, or `None`, once initialised. */
    method GetTreatment(records: seq<Record>, treatmentId: int) returns (r: Result<Option<Treatment>, SyncError>)
      requires table.Valid()
      modifies this, table
      ensures table.Valid()
      ensures old(initialized) ==> initialized && table.rows == old(table.rows)
      ensures r.Ok? ==> initialized && r.value == (if treatmentId in table.rows then Some(table.rows[treatmentId]) else None)
      ensures r.Ok? ==> (r.value.Some? ==> r.value.value.id == treatmentId)
      ensures !old(initialized) && r.Ok? ==>
                (Sync(old(table.rows), records, ParseInt).Ok? && table.rows == Sync(old(table.rows), records, ParseInt).value)
      ensures r.Err? ==> !old(initialized) && !initialized && table.rows == old(table.rows)
      ensures !old(initialized) ==> (r.Ok? <==> Sync(old(table.rows), records, ParseInt).Ok?)
      ensures r.Err? ==> r.error == Sync(old(table.rows), records, ParseInt).error
    {
      var ready := RequireInit(records);
      if ready.Err? {
        return Err(ready.error);
      }
      r := Ok(if treatmentId in table.rows then Some(table.rows[treatmentId]) else None);
    }

    /** `get_all_treatments`: every row of the table, once initialised. */
    method GetAllTreatments(records: seq<Record>) returns (r: Result<set<Treatment>, SyncError>)
      requires table.Valid()
      modifies this, table
      ensures table.Valid()
      ensures old(initialized) ==> initialized && table.rows == old(table.rows)
      ensures r.Ok? ==> initialized
      ensures r.Ok? ==> forall t :: t in r.value <==> t.id in table.rows && table.rows[t.id] == t
      ensures !old(initialized) && r.Ok? ==>
                (Sync(old(table.rows), records, ParseInt).Ok? && table.rows == Sync(old(table.rows), records, ParseInt).value)
      ensures r.Err? ==> !old(initialized) && !initialized && table.rows == old(table.rows)
      ensures !old(initialized) ==> (r.Ok? <==> Sync(old(table.rows), records, ParseInt).Ok?)
      ensures r.Err? ==> r.error == Sync(old(table.rows), records, ParseInt).error
    {
      var ready := RequireInit(records);
      if ready.Err? {
        return Err(ready.error);
      }
      r := Ok(set k | k in table.rows :: table.rows[k]);
    }
  }
}
