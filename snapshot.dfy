/** Snapshots: the `_get_pods`/`_get_services`/`_get_rcs`/`_get_containers`
    loops, which drop the listing's header line and file each parsed record
    in an OrderedDict under its key field. */
module Snapshot {
  import opened Common

  /** An OrderedDict with string keys: `keys` is the insertion order. */
  datatype OrderedMap<V> = OrderedMap(keys: seq<string>, entries: map<string, V>) {

    /** Every key listed once, and exactly the keys of `entries`. */
    ghost predicate Valid() {
      && NoDuplicates(keys)
      && (forall k :: k in entries <==> k in keys)
    }

    /** `d[k] = v`: a new key goes to the end of the order; a key already
        present keeps its place and takes the new value. */
    function Put(k: string, v: V): (m: OrderedMap<V>)
      ensures Valid() ==> m.Valid()
      ensures m.entries == entries[k := v]
      ensures k in entries ==> m.keys == keys
      ensures k !in entries ==> m.keys == keys + [k]
    {
      OrderedMap(if k in entries then keys else keys + [k], entries[k := v])
    }
  }

  /** `output.splitlines()[1:]`: every line but the header. */
  function Body(lines: seq<string>): seq<string> {
    if |lines| == 0 then [] else lines[1..]
  }

  /** Parse rows in order, stopping at the first row that fails. */
  function ParseRows<R>(rows: seq<string>, parse: string -> Result<R>): Result<seq<R>>
    decreases |rows|
  {
    if |rows| == 0 then Ok([])
    else
      match ParseRows(rows[..|rows| - 1], parse)
      case Err(e) => Err(e)
      case Ok(rs) =>
        match parse(rows[|rows| - 1])
        case Err(e) => Err(e)
        case Ok(x) => Ok(rs + [x])
  }

  /** The OrderedDict that inserting `recs` in order under `key` produces. */
  function FromRecords<R>(recs: seq<R>, key: R -> string): OrderedMap<R>
    decreases |recs|
  {
    if |recs| == 0 then OrderedMap([], map[])
    else
      var last := recs[|recs| - 1];
      FromRecords(recs[..|recs| - 1], key).Put(key(last), last)
  }

  /** What a `_get_*` helper returns for a listing; a listing with nothing
      after its header gives an empty snapshot. */
  function Collect<R>(lines: seq<string>, parse: string -> Result<R>, key: R -> string): (r: Result<OrderedMap<R>>)
    ensures |lines| <= 1 ==> r == Ok(OrderedMap([], map[]))
  {
    match ParseRows(Body(lines), parse)
    case Err(e) => Err(e)
    case Ok(rs) => Ok(FromRecords(rs, key))
  }

  /** The loop of a `_get_*` helper: skip the header, parse each later line,
      insert it under its key; a line that does not parse ends the loop with
      its error. */
  method BuildSnapshot<R>(lines: seq<string>, parse: string -> Result<R>, key: R -> string)
    returns (r: Result<OrderedMap<R>>)
    ensures r == Collect(lines, parse, key)
  {
    var rows := Body(lines);
    var m := OrderedMap([], map[]);
    ghost var recs: seq<R> := [];
    var i := 0;
    while i < |rows|
      invariant 0 <= i <= |rows|
      invariant ParseRows(rows[..i], parse) == Ok(recs)
      invariant m == FromRecords(recs, key)
    {
      assert rows[..i + 1][..i] == rows[..i];
      var rec := parse(rows[i]);
      if rec.Err? {
        ParseRowsErrSticky(rows, i + 1, parse);
        return Err(rec.error);
      }
      m := m.Put(key(rec.value), rec.value);
      recs := recs + [rec.value];
      i := i + 1;
    }
    assert rows[..i] == rows;
    r := Ok(m);
  }

  /** Once a prefix fails, the whole listing fails with the same error. */
  lemma {:induction false} ParseRowsErrSticky<R>(rows: seq<string>, n: nat, parse: string -> Result<R>)
    requires n <= |rows|
    requires ParseRows(rows[..n], parse).Err?
    ensures ParseRows(rows, parse) == ParseRows(rows[..n], parse)
    decreases |rows| - n
  {
    if n == |rows| {
      assert rows[..n] == rows;
    } else {
      var init := rows[..|rows| - 1];
      assert init[..n] == rows[..n];
      ParseRowsErrSticky(init, n, parse);
    }
  }

  /** Parsing succeeds exactly when every row parses, yields one record per
      row in order, and otherwise reports the first failing row's error. */
  lemma {:induction false} ParseRowsSpec<R>(rows: seq<string>, parse: string -> Result<R>)
    ensures ParseRows(rows, parse).Ok? <==> forall i :: 0 <= i < |rows| ==> parse(rows[i]).Ok?
    ensures ParseRows(rows, parse).Ok? ==>
      |ParseRows(rows, parse).value| == |rows| &&
      forall i :: 0 <= i < |rows| ==> parse(rows[i]) == Ok(ParseRows(rows, parse).value[i])
    ensures ParseRows(rows, parse).Err? ==>
      exists i :: 0 <= i < |rows| && parse(rows[i]) == Err(ParseRows(rows, parse).error)
        && forall j :: 0 <= j < i ==> parse(rows[j]).Ok?
    decreases |rows|
  {
    if |rows| > 0 {
      var n := |rows| - 1;
      var init := rows[..n];
      ParseRowsSpec(init, parse);
      assert forall i :: 0 <= i < n ==> init[i] == rows[i];
      match ParseRows(init, parse)
      case Err(e) =>
        var i :| 0 <= i < n && parse(init[i]) == Err(e) && forall j :: 0 <= j < i ==> parse(init[j]).Ok?;
        assert parse(rows[i]) == Err(e);
      case Ok(rs) =>
    }
  }

  /** The map lists each key once, and its keys are exactly the keys of
      the inserted records. */
  lemma {:induction false} FromRecordsKeys<R>(recs: seq<R>, key: R -> string)
    ensures FromRecords(recs, key).Valid()
    ensures forall k :: k in FromRecords(recs, key).entries <==>
      exists i :: 0 <= i < |recs| && key(recs[i]) == k
    decreases |recs|
  {
    if |recs| > 0 {
      var n := |recs| - 1;
      var init := recs[..n];
      FromRecordsKeys(init, key);
      assert forall i :: 0 <= i < n ==> init[i] == recs[i];
      var m := FromRecords(recs, key);
      forall k | k in m.entries ensures exists i :: 0 <= i < |recs| && key(recs[i]) == k {
        if k != key(recs[n]) {
          var i :| 0 <= i < n && key(init[i]) == k;
          assert key(recs[i]) == k;
        }
      }
    }
  }

  /** Every record is filed under its own key. */
  lemma {:induction false} FromRecordsFiled<R>(recs: seq<R>, key: R -> string)
    ensures forall k :: k in FromRecords(recs, key).entries ==>
      key(FromRecords(recs, key).entries[k]) == k
    decreases |recs|
  {
    if |recs| > 0 {
      FromRecordsFiled(recs[..|recs| - 1], key);
    }
  }

  /** A record no later record shares a key with is the one filed under its
      key: a later record with the same key replaces an earlier one. */
  lemma {:induction false} FromRecordsLastWins<R>(recs: seq<R>, key: R -> string)
    ensures forall i :: 0 <= i < |recs| && (forall j :: i < j < |recs| ==> key(recs[j]) != key(recs[i])) ==>
      key(recs[i]) in FromRecords(recs, key).entries &&
      FromRecords(recs, key).entries[key(recs[i])] == recs[i]
    decreases |recs|
  {
    if |recs| > 0 {
      var n := |recs| - 1;
      var init := recs[..n];
      FromRecordsLastWins(init, key);
      assert forall i :: 0 <= i < n ==> init[i] == recs[i];
    }
  }

  /** A `_get_*` helper ignores the header line: it succeeds exactly when
      every later line parses, and otherwise fails with the first bad
      line's error. */
  lemma CollectOutcome<R>(lines: seq<string>, parse: string -> Result<R>, key: R -> string)
    ensures Collect(lines, parse, key).Ok? <==> forall i :: 1 <= i < |lines| ==> parse(lines[i]).Ok?
    ensures Collect(lines, parse, key).Err? ==>
      exists i :: 1 <= i < |lines| && parse(lines[i]) == Err(Collect(lines, parse, key).error)
        && forall j :: 1 <= j < i ==> parse(lines[j]).Ok?
  {
    var rows := Body(lines);
    assert forall i :: 1 <= i < |lines| ==> rows[i - 1] == lines[i];
    ParseRowsSpec(rows, parse);
    match ParseRows(rows, parse)
    case Err(e) =>
      var i :| 0 <= i < |rows| && parse(rows[i]) == Err(e) && forall j :: 0 <= j < i ==> parse(rows[j]).Ok?;
      assert parse(lines[i + 1]) == Err(e);
      assert forall j :: 1 <= j < i + 1 ==> parse(lines[j]) == parse(rows[j - 1]);
    case Ok(rs) =>
  }

  /** On success the records, in line order, are the parses of lines 2..n. */
  lemma CollectRecords<R>(lines: seq<string>, parse: string -> Result<R>, key: R -> string)
    requires Collect(lines, parse, key).Ok?
    ensures ParseRows(Body(lines), parse).Ok?
    ensures Collect(lines, parse, key).value == FromRecords(ParseRows(Body(lines), parse).value, key)
    ensures |ParseRows(Body(lines), parse).value| == |Body(lines)|
    ensures forall i :: 1 <= i < |lines| ==> parse(lines[i]) == Ok(ParseRows(Body(lines), parse).value[i - 1])
  {
    var rows := Body(lines);
    assert forall i :: 1 <= i < |lines| ==> rows[i - 1] == lines[i];
    ParseRowsSpec(rows, parse);
  }

  /** A successful snapshot lists each key once. */
  lemma CollectValid<R>(lines: seq<string>, parse: string -> Result<R>, key: R -> string)
    ensures Collect(lines, parse, key).Ok? ==> Collect(lines, parse, key).value.Valid()
  {
    if Collect(lines, parse, key).Ok? {
      FromRecordsKeys(ParseRows(Body(lines), parse).value, key);
    }
  }

  /** On success the snapshot's keys are exactly the key fields of lines
      2..n. */
  lemma CollectKeys<R>(lines: seq<string>, parse: string -> Result<R>, key: R -> string)
    requires Collect(lines, parse, key).Ok?
    ensures forall k :: k in Collect(lines, parse, key).value.entries <==>
      exists i :: 1 <= i < |lines| && parse(lines[i]).Ok? && key(parse(lines[i]).value) == k
  {
    CollectRecords(lines, parse, key);
    var rs := ParseRows(Body(lines), parse).value;
    FromRecordsKeys(rs, key);
    var m := FromRecords(rs, key);
    forall k ensures k in m.entries <==>
      exists i :: 1 <= i < |lines| && parse(lines[i]).Ok? && key(parse(lines[i]).value) == k
    {
      if k in m.entries {
        var i :| 0 <= i < |rs| && key(rs[i]) == k;
        assert parse(lines[i + 1]).Ok? && key(parse(lines[i + 1]).value) == k;
      }
      if exists i :: 1 <= i < |lines| && parse(lines[i]).Ok? && key(parse(lines[i]).value) == k {
        var i :| 1 <= i < |lines| && parse(lines[i]).Ok? && key(parse(lines[i]).value) == k;
        assert key(rs[i - 1]) == k;
      }
    }
  }

  /** On success each record is filed under its own key. */
  lemma CollectFiled<R>(lines: seq<string>, parse: string -> Result<R>, key: R -> string)
    requires Collect(lines, parse, key).Ok?
    ensures forall k :: k in Collect(lines, parse, key).value.entries ==>
      key(Collect(lines, parse, key).value.entries[k]) == k
  {
    FromRecordsFiled(ParseRows(Body(lines), parse).value, key);
  }

  /** On success the record of the last line with a given key is the one
      kept under that key. */
  lemma CollectLastWins<R>(lines: seq<string>, parse: string -> Result<R>, key: R -> string, i: nat)
    requires Collect(lines, parse, key).Ok?
    requires 1 <= i < |lines| && parse(lines[i]).Ok?
    requires forall j :: i < j < |lines| ==>
      parse(lines[j]).Ok? && key(parse(lines[j]).value) != key(parse(lines[i]).value)
    ensures key(parse(lines[i]).value) in Collect(lines, parse, key).value.entries
    ensures Collect(lines, parse, key).value.entries[key(parse(lines[i]).value)] == parse(lines[i]).value
  {
    CollectRecords(lines, parse, key);
    var rs := ParseRows(Body(lines), parse).value;
    FromRecordsLastWins(rs, key);
    var x := rs[i - 1];
    assert parse(lines[i]) == Ok(x);
    forall j | i - 1 < j < |rs| ensures key(rs[j]) != key(x) {
      assert parse(lines[j + 1]) == Ok(rs[j]);
    }
  }
}
