/** Streaming a query result out: batches from the cursor, a JSON array batch by batch. */
module Export {
  import opened Common

  /** A database cursor; `FetchMany` hands out the next rows and nothing at the end. */
  class Cursor<T> {
    const rows: seq<T>
    var position: nat
    var open: bool

    ghost predicate Valid()
      reads this
    {
      position <= |rows|
    }

    constructor (rows: seq<T>)
      ensures Valid() && this.rows == rows && position == 0 && open
    {
      this.rows, position, open := rows, 0, true;
    }

    method FetchMany(size: nat) returns (batch: seq<T>)
      requires Valid()
      modifies this`position
      ensures Valid() && old(position) <= position && batch == rows[old(position)..position]
      ensures position == if old(position) + size <= |rows| then old(position) + size else |rows|
    {
      var next := if position + size <= |rows| then position + size else |rows|;
      batch := rows[position..next];
      position := next;
    }

    method Close()
      modifies this`open
      ensures !open
    {
      open := false;
    }
  }

  /** Batches of `size` rows, the last one possibly shorter, none empty. */
  ghost predicate InBatchesOf<T>(batches: seq<seq<T>>, size: nat) {
    && (forall i :: 0 <= i < |batches| ==> 0 < |batches[i]| <= size)
    && (forall i :: 0 <= i < |batches| - 1 ==> |batches[i]| == size)
  }

  /** Reads the cursor to its end, one batch per fetch, and closes it. */
  method StreamBatches<T>(cursor: Cursor<T>, batchRows: nat, configured: nat) returns (batches: seq<seq<T>>)
    requires cursor.Valid() && cursor.position == 0 && configured > 0
    modifies cursor
    ensures Flatten(batches) == cursor.rows
    ensures InBatchesOf(batches, if batchRows == 0 then configured else batchRows)
    ensures !cursor.open
  {
    var size := if batchRows == 0 then configured else batchRows;
    batches := [];
    while true
      invariant cursor.Valid()
      invariant Flatten(batches) == cursor.rows[..cursor.position]
      invariant forall i :: 0 <= i < |batches| ==> 0 < |batches[i]| <= size
      invariant forall i :: 0 <= i < |batches| ==> |batches[i]| == size || cursor.position == |cursor.rows|
      invariant forall i :: 0 <= i < |batches| - 1 ==> |batches[i]| == size
      decreases |cursor.rows| - cursor.position
    {
      ghost var before := cursor.position;
      var rows := cursor.FetchMany(size);
      if rows == [] {
        break;
      }
      FlattenConcat(batches, [rows]);
      assert Flatten([rows]) == rows;
      assert cursor.rows[..cursor.position] == cursor.rows[..before] + rows;
      batches := batches + [rows];
    }
    assert cursor.rows[..cursor.position] == cursor.rows;
    cursor.Close();
  }

  // ------------------------------------------------------------ JSON

  function Encoded<T>(rows: seq<T>, encode: T -> string): seq<string> {
    seq(|rows|, i requires 0 <= i < |rows| => encode(rows[i]))
  }

  /** The JSON text of a list of rows. */
  function Dumps<T>(rows: seq<T>, encode: T -> string): string {
    "[" + Join(Encoded(rows, encode), ",") + "]"
  }

  lemma JoinedIsText(items: seq<string>)
    requires forall i :: 0 <= i < |items| ==> items[i] != ""
    ensures Join(items, ",") == "" <==> items == []
  {
  }

  /** Appending a batch to a list appends its text, with a comma only between texts. */
  lemma DumpsGrows<T>(done: seq<T>, b: seq<T>, encode: T -> string)
    requires forall i :: 0 <= i < |b| ==> encode(b[i]) != ""
    ensures var inner := Dumps(b, encode)[1..|Dumps(b, encode)| - 1];
      && (inner == "" <==> b == [])
      && Join(Encoded(done + b, encode), ",") ==
         (if b == [] then Join(Encoded(done, encode), ",")
          else if done == [] then inner else Join(Encoded(done, encode), ",") + "," + inner)
  {
    assert Encoded(done + b, encode) == Encoded(done, encode) + Encoded(b, encode);
    JoinConcat(Encoded(done, encode), Encoded(b, encode), ",");
    JoinedIsText(Encoded(b, encode));
    assert Dumps(b, encode)[1..|Dumps(b, encode)| - 1] == Join(Encoded(b, encode), ",");
  }

  lemma EmptyText<T>(encode: T -> string)
    ensures Join(Encoded([], encode), ",") == ""
  {
  }

  /** Writes a JSON array with one batch resident at a time. For any split of the rows into batches,
    * empty ones included, the text is that of the whole list. */
  method StreamJson<T>(batches: seq<seq<T>>, encode: T -> string) returns (sink: string, rowCount: nat)
    requires forall b :: b in batches ==> forall i :: 0 <= i < |b| ==> encode(b[i]) != ""
    ensures sink == Dumps(Flatten(batches), encode)
    ensures rowCount == |Flatten(batches)|
  {
    hide Join, Encoded;
    EmptyText(encode);
    rowCount := 0;
    var first := true;
    sink := "[";
    ghost var done: seq<T> := [];
    var n := 0;
    assert batches[..0] == [];
    while n < |batches|
      invariant 0 <= n <= |batches|
      invariant done == Flatten(batches[..n]) && rowCount == |done|
      invariant first <==> done == []
      invariant sink == "[" + Join(Encoded(done, encode), ",")
    {
      var b := batches[n];
      assert b in batches;
      assert batches[..n + 1] == batches[..n] + [b];
      FlattenConcat(batches[..n], [b]);
      assert Flatten([b]) == b;
      DumpsGrows(done, b, encode);
      var text := Dumps(b, encode);
      var inner := text[1..|text| - 1];
      if inner != "" {
        sink := sink + (if first then inner else "," + inner);
        first := false;
      } else {
        assert done + b == done;
      }
      rowCount := rowCount + |b|;
      done := done + b;
      n := n + 1;
    }
    assert batches[..n] == batches;
    sink := sink + "]";
  }

  /** Whole export: whatever the batch size, the text and the count are those of the one-shot form. */
  method ExportJson<T>(cursor: Cursor<T>, batchRows: nat, configured: nat, encode: T -> string) returns (sink: string, rowCount: nat)
    requires cursor.Valid() && cursor.position == 0 && configured > 0
    requires forall i :: 0 <= i < |cursor.rows| ==> encode(cursor.rows[i]) != ""
    modifies cursor
    ensures sink == Dumps(cursor.rows, encode) && rowCount == |cursor.rows| && !cursor.open
  {
    var batches := StreamBatches(cursor, batchRows, configured);
    RowsOfBatches(batches);
    sink, rowCount := StreamJson(batches, encode);
  }

  lemma {:induction false} RowsOfBatches<T>(batches: seq<seq<T>>)
    ensures forall b :: b in batches ==> forall i :: 0 <= i < |b| ==> b[i] in Flatten(batches)
  {
    if batches != [] {
      RowsOfBatches(batches[1..]);
    }
  }
}
