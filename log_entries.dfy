/** The batch log-entry service (`services/logs/entries`) and the single-entry
    service built on it (`services/logs/entry`). Rows of the log query are
    given as a parameter; the response is the ordered list of (uuid, record
    or null) pairs the formatted response serialises. */
module LogEntries {
  import opened Wrappers
  import opened Php

  /** The PHP values a log record is made of. */
  datatype Value =
    | Null
    | Bool(b: bool)
    | Int(i: int)
    | Str(s: string)
    | List(items: seq<Value>)
    | Dict(entries: map<string, Value>)

  /** One log entry as a dictionary from field name to value. */
  type Record = map<string, Value>

  /** The exceptions the services raise, by the parameter they name. */
  datatype Error = ParamMissing(param: string) | InvalidParam(param: string)

  /** One row of the log query. `date` is the entry's date already formatted
      as ISO 8601 and `typeName` the log type's name. */
  datatype LogRow = LogRow(
    id: int,
    cacheCode: string,
    uuid: string,
    typeName: string,
    date: string,
    timeIsValid: Option<int>,
    text: string,
    userUuid: string,
    username: string,
    userId: nat,
    wasRecommended: int)

  /** The parameters of a call: `log_uuids` and `fields` (missing is None),
      and whether the request is exempt from the 500-entry limit. */
  datatype Request = Request(logUuids: Option<string>, fields: Option<string>, skipLimits: bool)

  const ValidFieldNames: seq<string> :=
    ["uuid", "cache_code", "date", "time_is_valid", "user", "type", "was_recommended", "comment",
     "images", "internal_id"]

  const DefaultFields: string := "date|user|type|comment"

  /** The fields returned when none are asked for. */
  const DefaultFieldNames: seq<string> := ["date", "user", "type", "comment"]

  const MaxUuids: int := 500

  /** The record built from one row. */
  function BuildRecord(row: LogRow, siteUrl: string): (rec: Record)
    ensures rec.Keys == set f | f in ValidFieldNames
    ensures rec["uuid"] == Str(row.uuid)
  {
    map[
      "uuid" := Str(row.uuid),
      "cache_code" := Str(row.cacheCode),
      "date" := Str(row.date),
      "time_is_valid" := (match row.timeIsValid
                          case None => Null
                          case Some(t) => Str(if t > 0 then "true" else "false")),
      "user" := Dict(map[
        "uuid" := Str(row.userUuid),
        "username" := Str(row.username),
        "profile_url" := Str(siteUrl + "viewprofile.php?userid=" + DecimalString(row.userId))]),
      "type" := Str(row.typeName),
      "was_recommended" := Bool(row.wasRecommended != 0),
      "comment" := Str(row.text),
      "images" := List([]),
      "internal_id" := Int(row.id)]
  }

  predicate Distinct(s: seq<string>) {
    forall i, j :: 0 <= i < j < |s| ==> s[i] != s[j]
  }

  /** `log_uuids`: required; "" is the empty list, anything else is split on
      "|"; more than 500 are refused unless limits are skipped, and so is any
      UUID given twice. */
  function ParseUuids(req: Request): (r: Result<seq<string>, Error>)
    ensures req.logUuids.None? ==> r == Err(ParamMissing("log_uuids"))
    ensures req.logUuids == Some("") ==> r == Ok([])
    ensures r.Ok? ==> Distinct(r.value) && (|r.value| <= MaxUuids || req.skipLimits)
    ensures req.logUuids.Some? && req.logUuids.value != "" ==>
              var parts := Explode('|', req.logUuids.value);
              (r.Ok? <==> Distinct(parts) && (|parts| <= MaxUuids || req.skipLimits))
              && (r.Ok? ==> r.value == parts)
              && (r.Err? ==> r.error == InvalidParam("log_uuids"))
  {
    match req.logUuids
    case None => Err(ParamMissing("log_uuids"))
    case Some(s) =>
      var uuids := if s == "" then [] else Explode('|', s);
      if |uuids| > MaxUuids && !req.skipLimits then Err(InvalidParam("log_uuids"))
      else if !Distinct(uuids) then Err(InvalidParam("log_uuids"))
      else Ok(uuids)
  }

  /** The requested field names; a missing or false `fields` means the default. */
  function FieldNames(req: Request): (fields: seq<string>)
    ensures |fields| >= 1
    ensures req.fields.None? || !Truthy(req.fields.value) ==> fields == DefaultFieldNames
    ensures req.fields.Some? && Truthy(req.fields.value) ==> fields == Explode('|', req.fields.value)
  {
    DefaultFieldList();
    Explode('|', if req.fields.Some? && Truthy(req.fields.value) then req.fields.value else DefaultFields)
  }

  /** The default field list names four fields. */
  lemma DefaultFieldList()
    ensures Explode('|', DefaultFields) == DefaultFieldNames
  {
    var names := DefaultFieldNames;
    assert Implode('|', names) == DefaultFields;
    ExplodeImplode('|', names);
  }

  predicate AllValid(fields: seq<string>) {
    forall i :: 0 <= i < |fields| ==> fields[i] in ValidFieldNames
  }

  /** The last of the rows with the given uuid: each later row overwrites the
      entry of an earlier one. */
  function LastRow(rows: seq<LogRow>, uuid: string): (r: Option<LogRow>)
    ensures r.Some? ==> r.value in rows && r.value.uuid == uuid
    ensures r.None? <==> forall i :: 0 <= i < |rows| ==> rows[i].uuid != uuid
  {
    if rows == [] then None
    else if rows[|rows| - 1].uuid == uuid then Some(rows[|rows| - 1])
    else LastRow(rows[..|rows| - 1], uuid)
  }

  /** The row LastRow picks is at an index after which no row has that uuid. */
  lemma {:induction false} LastRowIsLast(rows: seq<LogRow>, uuid: string) returns (i: nat)
    requires LastRow(rows, uuid).Some?
    ensures i < |rows| && rows[i] == LastRow(rows, uuid).value
    ensures forall j :: i < j < |rows| ==> rows[j].uuid != uuid
  {
    if rows[|rows| - 1].uuid == uuid {
      i := |rows| - 1;
    } else {
      i := LastRowIsLast(rows[..|rows| - 1], uuid);
    }
  }

  /** The `results` array after the fetch loop: each row of a requested uuid
      stored under its uuid. */
  function Fetched(rows: seq<LogRow>, uuids: seq<string>, siteUrl: string): map<string, Option<Record>>
  {
    if rows == [] then map[]
    else
      var init := Fetched(rows[..|rows| - 1], uuids, siteUrl);
      var row := rows[|rows| - 1];
      if row.uuid in uuids then init[row.uuid := Some(BuildRecord(row, siteUrl))] else init
  }

  /** A requested uuid is fetched exactly when some row has it, and holds the
      record of the last such row. */
  lemma {:induction false} FetchedLastRow(rows: seq<LogRow>, uuids: seq<string>, siteUrl: string, k: string)
    ensures k in Fetched(rows, uuids, siteUrl) <==> k in uuids && LastRow(rows, k).Some?
    ensures k in Fetched(rows, uuids, siteUrl) ==>
              Fetched(rows, uuids, siteUrl)[k] == Some(BuildRecord(LastRow(rows, k).value, siteUrl))
  {
    if rows != [] {
      FetchedLastRow(rows[..|rows| - 1], uuids, siteUrl, k);
    }
  }

  /** The null-filling loop: every requested uuid not fetched maps to null. */
  function Filled(m: map<string, Option<Record>>, uuids: seq<string>): (f: map<string, Option<Record>>)
    ensures f.Keys == m.Keys + set u | u in uuids
    ensures forall k :: k in m ==> f[k] == m[k]
    ensures forall k :: k in f && k !in m ==> f[k] == None
  {
    if uuids == [] then m
    else
      var init := Filled(m, uuids[..|uuids| - 1]);
      var last := uuids[|uuids| - 1];
      assert forall u :: u in uuids <==> u in uuids[..|uuids| - 1] || u == last;
      if last in init then init else init[last := None]
  }

  /** A record without the given field names. */
  function Drop(rec: Record, gone: set<string>): (r: Record)
    ensures r.Keys == rec.Keys - gone
    ensures forall f :: f in r ==> r[f] == rec[f]
  {
    map f | f in rec && f !in gone :: rec[f]
  }

  /** `unset` of some fields on an entry; unsetting inside null changes nothing. */
  function DropOpt(entry: Option<Record>, gone: set<string>): Option<Record> {
    match entry
    case None => None
    case Some(rec) => Some(Drop(rec, gone))
  }

  /** The fields the removal loop unsets: the valid ones not requested. */
  function Unwanted(names: seq<string>, fields: seq<string>): set<string> {
    set f | f in names && f !in fields
  }

  /** The removal loop over `names`: a name not requested is unset in every entry. */
  function Strip(m: map<string, Option<Record>>, fields: seq<string>, names: seq<string>): map<string, Option<Record>>
  {
    if names == [] then m
    else
      var init := Strip(m, fields, names[..|names| - 1]);
      var last := names[|names| - 1];
      if last !in fields then map k | k in init :: DropOpt(init[k], {last}) else init
  }

  /** The removal loop leaves every entry without exactly the unrequested names. */
  lemma {:induction false} StripDrops(m: map<string, Option<Record>>, fields: seq<string>, names: seq<string>)
    ensures Strip(m, fields, names) == map k | k in m :: DropOpt(m[k], Unwanted(names, fields))
  {
    if names == [] {
      assert Unwanted(names, fields) == {};
      forall k | k in m
        ensures m[k] == DropOpt(m[k], Unwanted(names, fields))
      {
        if m[k].Some? {
          assert Drop(m[k].value, {}) == m[k].value;
        }
      }
    } else {
      var init := names[..|names| - 1];
      var last := names[|names| - 1];
      StripDrops(m, fields, init);
      assert forall f :: f in names <==> f in init || f == last;
      if last !in fields {
        assert Unwanted(names, fields) == Unwanted(init, fields) + {last};
        forall k | k in m
          ensures DropOpt(DropOpt(m[k], Unwanted(init, fields)), {last}) == DropOpt(m[k], Unwanted(names, fields))
        {
          if m[k].Some? {
            assert Drop(Drop(m[k].value, Unwanted(init, fields)), {last}) == Drop(m[k].value, Unwanted(names, fields));
          }
        }
      } else {
        assert Unwanted(names, fields) == Unwanted(init, fields);
      }
    }
  }

  /** The ordering loop: the entries in the order the uuids were given. */
  function Ordered(uuids: seq<string>, results: map<string, Option<Record>>): (out: seq<(string, Option<Record>)>)
    requires forall i :: 0 <= i < |uuids| ==> uuids[i] in results
    ensures |out| == |uuids|
    ensures forall i :: 0 <= i < |uuids| ==> out[i] == (uuids[i], results[uuids[i]])
  {
    if uuids == [] then []
    else Ordered(uuids[..|uuids| - 1], results) + [(uuids[|uuids| - 1], results[uuids[|uuids| - 1]])]
  }

  /** The result of `services/logs/entries`, step by step as the service computes it. */
  function EntriesSpec(req: Request, rows: seq<LogRow>, siteUrl: string): Result<seq<(string, Option<Record>)>, Error>
  {
    var uuids :- ParseUuids(req);
    var fields := FieldNames(req);
    if !AllValid(fields) then Err(InvalidParam("fields"))
    else
      var results := Strip(Filled(Fetched(rows, uuids, siteUrl), uuids), fields, ValidFieldNames);
      assert forall i :: 0 <= i < |uuids| ==> uuids[i] in results by {
        StripDrops(Filled(Fetched(rows, uuids, siteUrl), uuids), fields, ValidFieldNames);
      }
      Ok(Ordered(uuids, results))
  }

  /** The entries left after the three loops, one requested uuid at a time. */
  function Results(uuids: seq<string>, fields: seq<string>, rows: seq<LogRow>, siteUrl: string): map<string, Option<Record>>
  {
    Strip(Filled(Fetched(rows, uuids, siteUrl), uuids), fields, ValidFieldNames)
  }

  /** The entry of a requested uuid: null when no row has it, otherwise the
      last such row's record without the unrequested fields. */
  lemma ResultAt(uuids: seq<string>, fields: seq<string>, rows: seq<LogRow>, siteUrl: string, k: string)
    requires k in uuids
    ensures k in Results(uuids, fields, rows, siteUrl)
    ensures var e := Results(uuids, fields, rows, siteUrl)[k];
            && (e.None? <==> LastRow(rows, k).None?)
            && (e.Some? ==> e.value == Drop(BuildRecord(LastRow(rows, k).value, siteUrl), Unwanted(ValidFieldNames, fields)))
  {
    var fetched := Fetched(rows, uuids, siteUrl);
    StripDrops(Filled(fetched, uuids), fields, ValidFieldNames);
    FetchedLastRow(rows, uuids, siteUrl, k);
  }

  /** With valid field names only, what is left of a record is exactly the requested fields. */
  lemma KeptFields(row: LogRow, siteUrl: string, fields: seq<string>)
    requires AllValid(fields)
    ensures Drop(BuildRecord(row, siteUrl), Unwanted(ValidFieldNames, fields)).Keys == set f | f in fields
  {
  }

  /** What a successful call returns: one entry per requested uuid, in the
      order given; null when no row has that uuid; otherwise the record of
      the last such row, holding exactly the requested fields. */
  lemma EntriesMeaning(req: Request, rows: seq<LogRow>, siteUrl: string)
    requires EntriesSpec(req, rows, siteUrl).Ok?
    ensures var out := EntriesSpec(req, rows, siteUrl).value;
            var uuids := ParseUuids(req).value;
            && |out| == |uuids|
            && forall i :: 0 <= i < |out| ==>
                 && out[i].0 == uuids[i]
                 && (out[i].1.None? <==> LastRow(rows, uuids[i]).None?)
                 && (out[i].1.Some? ==>
                       out[i].1.value == Drop(BuildRecord(LastRow(rows, uuids[i]).value, siteUrl),
                                              Unwanted(ValidFieldNames, FieldNames(req)))
                       && out[i].1.value.Keys == set f | f in FieldNames(req))
  {
    var uuids := ParseUuids(req).value;
    var fields := FieldNames(req);
    var results := Results(uuids, fields, rows, siteUrl);
    forall i | 0 <= i < |uuids|
      ensures uuids[i] in results
      ensures (results[uuids[i]].None? <==> LastRow(rows, uuids[i]).None?)
      ensures results[uuids[i]].Some? ==>
                results[uuids[i]].value == Drop(BuildRecord(LastRow(rows, uuids[i]).value, siteUrl), Unwanted(ValidFieldNames, fields))
                && results[uuids[i]].value.Keys == set f | f in fields
    {
      ResultAt(uuids, fields, rows, siteUrl, uuids[i]);
      if LastRow(rows, uuids[i]).Some? {
        KeptFields(LastRow(rows, uuids[i]).value, siteUrl, fields);
      }
    }
    assert EntriesSpec(req, rows, siteUrl).value == Ordered(uuids, results);
  }

  /** The call fails exactly on a missing `log_uuids`, a refused uuid list or
      an unknown field name, and nothing about the rows matters to that. */
  lemma EntriesErrors(req: Request, rows: seq<LogRow>, siteUrl: string)
    ensures EntriesSpec(req, rows, siteUrl).Err? <==> ParseUuids(req).Err? || !AllValid(FieldNames(req))
    ensures ParseUuids(req).Err? ==> EntriesSpec(req, rows, siteUrl) == Err(ParseUuids(req).error)
    ensures ParseUuids(req).Ok? && !AllValid(FieldNames(req)) ==> EntriesSpec(req, rows, siteUrl) == Err(InvalidParam("fields"))
  {
  }

  /** `services/logs/entries`. */
  method Entries(req: Request, rows: seq<LogRow>, siteUrl: string) returns (r: Result<seq<(string, Option<Record>)>, Error>)
    ensures r == EntriesSpec(req, rows, siteUrl)
  {
    var uuids :- ParseUuids(req);
    var fields := FieldNames(req);
    var valid := CheckFields(fields);
    if !valid {
      return Err(InvalidParam("fields"));
    }
    var results := FetchRows(rows, uuids, siteUrl);
    results := MarkMissing(results, uuids);
    results := RemoveUnwanted(results, fields);
    StripDrops(Filled(Fetched(rows, uuids, siteUrl), uuids), fields, ValidFieldNames);
    var ordered := OrderResults(uuids, results);
    r := Ok(ordered);
  }

  /** The check that every requested field is a valid field name. */
  method CheckFields(fields: seq<string>) returns (valid: bool)
    ensures valid <==> AllValid(fields)
  {
    for i := 0 to |fields|
      invariant AllValid(fields[..i])
    {
      if fields[i] !in ValidFieldNames {
        return false;
      }
    }
    assert fields[..|fields|] == fields;
    return true;
  }

  /** The fetch loop: each row of a requested uuid is stored under its uuid. */
  method FetchRows(rows: seq<LogRow>, uuids: seq<string>, siteUrl: string) returns (results: map<string, Option<Record>>)
    ensures results == Fetched(rows, uuids, siteUrl)
  {
    results := map[];
    for i := 0 to |rows|
      invariant results == Fetched(rows[..i], uuids, siteUrl)
    {
      assert rows[..i + 1][..i] == rows[..i];
      if rows[i].uuid in uuids {
        results := results[rows[i].uuid := Some(BuildRecord(rows[i], siteUrl))];
      }
    }
    assert rows[..|rows|] == rows;
  }

  /** The loop that marks the uuids not found with null. */
  method MarkMissing(fetched: map<string, Option<Record>>, uuids: seq<string>) returns (results: map<string, Option<Record>>)
    ensures results == Filled(fetched, uuids)
  {
    results := fetched;
    for i := 0 to |uuids|
      invariant results == Filled(fetched, uuids[..i])
    {
      assert uuids[..i + 1][..i] == uuids[..i];
      if uuids[i] !in results {
        results := results[uuids[i] := None];
      }
    }
    assert uuids[..|uuids|] == uuids;
  }

  /** The loop over the valid field names that unsets each one not requested. */
  method RemoveUnwanted(filled: map<string, Option<Record>>, fields: seq<string>) returns (results: map<string, Option<Record>>)
    ensures results == Strip(filled, fields, ValidFieldNames)
  {
    results := filled;
    for n := 0 to |ValidFieldNames|
      invariant results == Strip(filled, fields, ValidFieldNames[..n])
    {
      assert ValidFieldNames[..n + 1][..n] == ValidFieldNames[..n];
      var field := ValidFieldNames[n];
      if field !in fields {
        results := UnsetEverywhere(results, field);
      }
    }
    assert ValidFieldNames[..|ValidFieldNames|] == ValidFieldNames;
  }

  /** The loop that lists the entries in the order the uuids were given. */
  method OrderResults(uuids: seq<string>, results: map<string, Option<Record>>) returns (ordered: seq<(string, Option<Record>)>)
    requires forall i :: 0 <= i < |uuids| ==> uuids[i] in results
    ensures ordered == Ordered(uuids, results)
  {
    ordered := [];
    for i := 0 to |uuids|
      invariant ordered == Ordered(uuids[..i], results)
    {
      assert uuids[..i + 1][..i] == uuids[..i];
      ordered := ordered + [(uuids[i], results[uuids[i]])];
    }
    assert uuids[..|uuids|] == uuids;
  }

  /** `foreach ($results as &$result_ref) unset($result_ref[$field])`. */
  method UnsetEverywhere(results: map<string, Option<Record>>, field: string) returns (updated: map<string, Option<Record>>)
    ensures updated == map k | k in results :: DropOpt(results[k], {field})
  {
    updated := results;
    var pending := results.Keys;
    while pending != {}
      invariant updated.Keys == results.Keys && pending <= results.Keys
      invariant forall k :: k in updated ==> updated[k] == if k in pending then results[k] else DropOpt(results[k], {field})
      decreases pending
    {
      var k :| k in pending;
      updated := updated[k := DropOpt(updated[k], {field})];
      pending := pending - {k};
    }
  }

  /** `services/logs/entry`: one entry through the batch service. A missing
      or false `log_uuid` is a missing parameter; an entry the batch service
      returns as null (or does not return) is an invalid `log_uuid`. The
      internal request carries no skip_limits, so the batch service's limit
      of 500 uuids always applies. */
  function Entry(logUuid: Option<string>, fields: Option<string>, rows: seq<LogRow>, siteUrl: string): (r: Result<Record, Error>)
    ensures logUuid.None? || !Truthy(logUuid.value) <==> r == Err(ParamMissing("log_uuid"))
  {
    if logUuid.None? || !Truthy(logUuid.value) then Err(ParamMissing("log_uuid"))
    else
      var uuid := logUuid.value;
      var fieldList := if fields.Some? && Truthy(fields.value) then fields.value else DefaultFields;
      var results :- EntriesSpec(Request(Some(uuid), Some(fieldList), false), rows, siteUrl);
      match Find(results, uuid)
      case None => Err(InvalidParam("log_uuid"))
      case Some(None) => Err(InvalidParam("log_uuid"))
      case Some(Some(rec)) => if rec == map[] then Err(InvalidParam("log_uuid")) else Ok(rec)
  }

  /** `$results[$log_uuid]`: the entry under a key, None when there is none. */
  function Find(results: seq<(string, Option<Record>)>, key: string): (r: Option<Option<Record>>)
    ensures r.None? <==> forall i :: 0 <= i < |results| ==> results[i].0 != key
    ensures r.Some? ==> exists i :: 0 <= i < |results| && results[i] == (key, r.value)
  {
    if results == [] then None
    else if results[0].0 == key then Some(results[0].1)
    else Find(results[1..], key)
  }

  /** For a single uuid with valid fields, the entry service returns the
      requested fields of the uuid's last row, and refuses the uuid when no
      row has it. */
  lemma EntryFound(uuid: string, fields: Option<string>, rows: seq<LogRow>, siteUrl: string)
    requires Truthy(uuid) && '|' !in uuid
    requires AllValid(FieldNames(Request(Some(uuid), fields, false)))
    ensures var r := Entry(Some(uuid), fields, rows, siteUrl);
            && (r.Ok? <==> LastRow(rows, uuid).Some?)
            && (r.Ok? ==> r.value == Drop(BuildRecord(LastRow(rows, uuid).value, siteUrl),
                                          Unwanted(ValidFieldNames, FieldNames(Request(Some(uuid), fields, false)))))
            && (r.Err? ==> r.error == InvalidParam("log_uuid"))
  {
    var fieldNames := FieldNames(Request(Some(uuid), fields, false));
    EntryFromBatch(uuid, fields, rows, siteUrl);
    ResultAt([uuid], fieldNames, rows, siteUrl, uuid);
    if LastRow(rows, uuid).Some? {
      var e := Results([uuid], fieldNames, rows, siteUrl)[uuid];
      KeptFields(LastRow(rows, uuid).value, siteUrl, fieldNames);
      assert fieldNames[0] in e.value;
    }
  }

  /** The entry service answers with the batch service's one entry: null
      and an empty record are refused, any other record is returned. */
  lemma EntryFromBatch(uuid: string, fields: Option<string>, rows: seq<LogRow>, siteUrl: string)
    requires Truthy(uuid) && '|' !in uuid
    requires AllValid(FieldNames(Request(Some(uuid), fields, false)))
    ensures var results := Results([uuid], FieldNames(Request(Some(uuid), fields, false)), rows, siteUrl);
            && uuid in results
            && Entry(Some(uuid), fields, rows, siteUrl)
               == match results[uuid]
                  case None => Err(InvalidParam("log_uuid"))
                  case Some(rec) => if rec == map[] then Err(InvalidParam("log_uuid")) else Ok(rec)
  {
    var fieldList := if fields.Some? && Truthy(fields.value) then fields.value else DefaultFields;
    var fieldNames := FieldNames(Request(Some(uuid), fields, false));
    assert fieldNames == FieldNames(Request(Some(uuid), Some(fieldList), false));
    EntriesOfOne(uuid, fieldList, rows, siteUrl);
    var e := Results([uuid], fieldNames, rows, siteUrl)[uuid];
    assert Find([(uuid, e)], uuid) == Some(e);
  }

  /** A single uuid without "|" is a list of one. */
  lemma ParseOne(req: Request, uuid: string)
    requires req.logUuids == Some(uuid) && Truthy(uuid) && '|' !in uuid
    ensures ParseUuids(req) == Ok([uuid])
  {
    assert Explode('|', uuid) == [uuid];
  }

  /** A single uuid without "|" is a one-entry request. */
  lemma EntriesOfOne(uuid: string, fieldList: string, rows: seq<LogRow>, siteUrl: string)
    requires Truthy(uuid) && '|' !in uuid
    requires AllValid(FieldNames(Request(Some(uuid), Some(fieldList), false)))
    ensures var req := Request(Some(uuid), Some(fieldList), false);
            var results := Results([uuid], FieldNames(req), rows, siteUrl);
            uuid in results && EntriesSpec(req, rows, siteUrl) == Ok([(uuid, results[uuid])])
  {
    var req := Request(Some(uuid), Some(fieldList), false);
    ParseOne(req, uuid);
    var fields := FieldNames(req);
    var results := Results([uuid], fields, rows, siteUrl);
    ResultAt([uuid], fields, rows, siteUrl, uuid);
    SpecAccepted(req, [uuid], fields, rows, siteUrl);
    assert Ordered([uuid], results) == [(uuid, results[uuid])];
  }

  /** An accepted request is answered with the ordered results of its uuids. */
  lemma SpecAccepted(req: Request, uuids: seq<string>, fields: seq<string>, rows: seq<LogRow>, siteUrl: string)
    requires ParseUuids(req) == Ok(uuids)
    requires fields == FieldNames(req) && AllValid(fields)
    requires forall i :: 0 <= i < |uuids| ==> uuids[i] in Results(uuids, fields, rows, siteUrl)
    ensures EntriesSpec(req, rows, siteUrl) == Ok(Ordered(uuids, Results(uuids, fields, rows, siteUrl)))
  {
    var results := Strip(Filled(Fetched(rows, uuids, siteUrl), uuids), fields, ValidFieldNames);
    assert results == Results(uuids, fields, rows, siteUrl);
    assert EntriesSpec(req, rows, siteUrl) == Ok(Ordered(uuids, results));
  }

  /** A `log_uuid` naming more than 500 entries is refused by the batch
      service, whatever the caller's own limits. */
  lemma EntryTooMany(uuid: string, fields: Option<string>, rows: seq<LogRow>, siteUrl: string)
    requires Truthy(uuid) && |Explode('|', uuid)| > MaxUuids
    ensures Entry(Some(uuid), fields, rows, siteUrl) == Err(InvalidParam("log_uuids"))
  {
    var fieldList := if fields.Some? && Truthy(fields.value) then fields.value else DefaultFields;
    assert ParseUuids(Request(Some(uuid), Some(fieldList), false)) == Err(InvalidParam("log_uuids"));
  }

  /** A `log_uuid` holding "|" names several entries to the batch service and
      is never found under its own name. */
  lemma EntryWithSeparator(uuid: string, fields: Option<string>, rows: seq<LogRow>, siteUrl: string)
    requires '|' in uuid
    ensures Entry(Some(uuid), fields, rows, siteUrl).Err?
  {
    var fieldList := if fields.Some? && Truthy(fields.value) then fields.value else DefaultFields;
    var req := Request(Some(uuid), Some(fieldList), false);
    assert Truthy(uuid);
    var res := EntriesSpec(req, rows, siteUrl);
    if res.Ok? {
      EntriesMeaning(req, rows, siteUrl);
      var parts := Explode('|', uuid);
      assert forall i :: 0 <= i < |res.value| ==> res.value[i].0 == parts[i];
      assert forall i :: 0 <= i < |parts| ==> '|' !in parts[i];
      assert Find(res.value, uuid).None?;
    }
  }
}
