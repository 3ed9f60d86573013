/** The row kept for an accepted response: `{"File": name}` updated with
    every top-level entry of the response, each value serialised. */
module Rows {
  import opened Options
  import opened Seqs
  import opened Dicts
  import opened JsonValues
  import opened Gate

  /** A result row: a dict from column name to text, in insertion order. */
  type Row = seq<(string, string)>

  const FileKey: string := "File"

  /** Each pair's value replaced by its serialisation (`json.dumps`, which
      the model takes as a parameter). */
  function Serialized(fields: seq<(string, Json)>, serialize: Json -> string): (r: Row)
    ensures Keys(r) == Keys(fields)
    ensures DistinctKeys(fields) ==> DistinctKeys(r)
    ensures forall k :: k in Keys(fields) ==> Get(r, k) == Some(serialize(Get(fields, k).value))
  {
    if |fields| == 0 then []
    else
      var init := fields[..|fields| - 1];
      var last := fields[|fields| - 1];
      KeysOfPrefix(fields);
      var r := Serialized(init, serialize) + [(last.0, serialize(last.1))];
      KeysOfPrefix(r);
      assert r[..|r| - 1] == Serialized(init, serialize);
      r
  }

  /** `flat`: the file name under "File", then one column per entry of the
      response's top-level dict, each holding `serialize` of its value. */
  function BuildRow(file: string, fields: seq<(string, Json)>, serialize: Json -> string): (row: Row)
    ensures DistinctKeys(row)
    ensures |row| > 0 && row[0].0 == FileKey
    ensures forall k :: k in Keys(row) <==> k == FileKey || k in Keys(fields)
    ensures Get(row, FileKey) == Some(if FileKey in Keys(fields) then serialize(Get(fields, FileKey).value) else file)
    ensures forall k :: k in Keys(fields) ==> Get(row, k) == Some(serialize(Get(fields, k).value))
    ensures Keys(row) == [FileKey] + Without(Dedup(Keys(fields)), FileKey)
  {
    var items := Serialized(DictOf(fields), serialize);
    UpdateFileRow(file, items);
    SetAll([(FileKey, file)], items)
  }

  /** Replaying serialised items onto `{"File": file}`. */
  lemma {:induction false} UpdateFileRow(file: string, items: Row)
    requires DistinctKeys(items)
    ensures Keys(SetAll([(FileKey, file)], items))[0] == FileKey
    ensures forall k :: k in Keys(SetAll([(FileKey, file)], items)) <==> k == FileKey || k in Keys(items)
    ensures forall k :: Get(SetAll([(FileKey, file)], items), k) ==
              if k in Keys(items) then Get(items, k) else Get([(FileKey, file)], k)
    ensures Keys(SetAll([(FileKey, file)], items)) == [FileKey] + Without(Keys(items), FileKey)
  {
    var base := [(FileKey, file)];
    assert Keys(base) == [FileKey];
    SetAllKeys(base, items);
    forall k
      ensures Get(SetAll(base, items), k) == if k in Keys(items) then Get(items, k) else Get(base, k)
    {
      SetAllGet(base, items, k);
    }
    SetAllOntoOne(FileKey, file, items);
  }

  /** A response whose top-level keys are distinct and include no "File"
      gives the columns "File" and then exactly those keys, in order. */
  lemma {:induction false} RowColumns(file: string, fields: seq<(string, Json)>, serialize: Json -> string)
    requires DistinctKeys(fields)
    requires FileKey !in Keys(fields)
    ensures Keys(BuildRow(file, fields, serialize)) == [FileKey] + Keys(fields)
  {
    assert DictOf(fields) == fields;
    WithoutAbsent(Keys(fields), FileKey);
  }

  /** The row for one response, or None when the gate raises. */
  function RowFor(file: string, parsed: Option<Json>, serialize: Json -> string): (r: Option<Row>)
    ensures r.Some? <==> Accepted(parsed)
    ensures r.Some? ==> parsed.Some? && parsed.value.Obj? && r.value == BuildRow(file, parsed.value.fields, serialize)
  {
    GateAcceptsExactly(parsed);
    if EvalGate(parsed).Some? then Some(BuildRow(file, parsed.value.fields, serialize))
    else None
  }
}
