/** Streaming upload: batches are buffered and committed in chunks.
  *
  * `Cut` says which chunks a stream is committed in; `DoPut` is the buffering loop. A
  * completed upload is indistinguishable from one write of the whole stream.
  */
module FlightPut {
  import opened Common
  import C = Catalog

  /** What the reader hands over: a batch, a chunk without data, or an error. */
  datatype Chunk = Data(rows: seq<C.Record>) | NoData | ReadError

  /** The non-empty batches up to the first read error. */
  function Batches(chunks: seq<Chunk>): seq<seq<C.Record>> {
    if chunks == [] || chunks[0].ReadError? then []
    else if chunks[0].NoData? || chunks[0].rows == [] then Batches(chunks[1..])
    else [chunks[0].rows] + Batches(chunks[1..])
  }

  /** The rows of the stream up to the first read error. */
  function AllRows(chunks: seq<Chunk>): seq<C.Record> {
    Flatten(Batches(chunks))
  }

  predicate Clean(chunks: seq<Chunk>) {
    forall c :: c in chunks ==> !c.ReadError?
  }

  /** The rows of a stream are the rows of its data chunks up to the first read error, in order: all of
    * them, empty and missing batches adding nothing. */
  lemma {:induction false} RowsOfStream(chunks: seq<Chunk>, next: Chunk)
    ensures AllRows([]) == []
    ensures AllRows(chunks + [next]) ==
      if next.Data? && (forall i :: 0 <= i < |chunks| ==> !chunks[i].ReadError?) then AllRows(chunks) + next.rows
      else AllRows(chunks)
  {
    hide AllRows;
    var more := chunks + [next];
    NoRowsInNothing();
    FirstChunk(more);
    if chunks == [] {
      assert more == [next] && more[1..] == [];
      assert next.Data? ==> next.rows + [] == next.rows == [] + next.rows;
    } else {
      var rest := chunks[1..];
      RowsOfStream(rest, next);
      FirstChunk(chunks);
      assert more[0] == chunks[0] && more[1..] == rest + [next];
      CleanBefore(chunks);
      if next.Data? && (forall i :: 0 <= i < |chunks| ==> !chunks[i].ReadError?) {
        var first := if chunks[0].Data? then chunks[0].rows else [];
        assert first + (AllRows(rest) + next.rows) == (first + AllRows(rest)) + next.rows;
      }
    }
  }

  lemma NoRowsInNothing()
    ensures AllRows([]) == []
  {
  }

  lemma CleanBefore(chunks: seq<Chunk>)
    requires chunks != []
    ensures (forall i :: 0 <= i < |chunks| ==> !chunks[i].ReadError?) <==>
      !chunks[0].ReadError? && forall i :: 0 <= i < |chunks[1..]| ==> !chunks[1..][i].ReadError?
  {
    assert forall i :: 1 <= i < |chunks| ==> chunks[i] == chunks[1..][i - 1];
  }

  lemma FirstChunk(chunks: seq<Chunk>)
    requires chunks != []
    ensures AllRows(chunks) ==
      if chunks[0].ReadError? then [] else (if chunks[0].Data? then chunks[0].rows else []) + AllRows(chunks[1..])
  {
    var batches := Batches(chunks);
    if chunks[0].Data? && chunks[0].rows != [] {
      assert batches[0] == chunks[0].rows && batches[1..] == Batches(chunks[1..]);
    }
  }

  /** The batches of a stream are its data chunks that are not empty, each a batch of its own. */
  lemma {:induction false} BatchesAreChunks(chunks: seq<Chunk>, b: seq<C.Record>)
    ensures b in Batches(chunks) ==> b != [] && Data(b) in chunks
    ensures |Batches(chunks)| <= |chunks|
  {
    if chunks != [] && !chunks[0].ReadError? {
      BatchesAreChunks(chunks[1..], b);
    }
  }

  /** The chunks committed when `batches` arrive on top of what is already buffered. */
  function Cut(batches: seq<seq<C.Record>>, buffered: seq<C.Record>, threshold: int): seq<seq<C.Record>> {
    if batches == [] then (if buffered == [] then [] else [buffered])
    else
      var buffer := buffered + batches[0];
      if |buffer| >= threshold then [buffer] + Cut(batches[1..], [], threshold)
      else Cut(batches[1..], buffer, threshold)
  }

  /** The chunks that are full when the stream ends or breaks off: all but the last, partly filled one. */
  function Full(batches: seq<seq<C.Record>>, buffered: seq<C.Record>, threshold: int): seq<seq<C.Record>> {
    if batches == [] then []
    else
      var buffer := buffered + batches[0];
      if |buffer| >= threshold then [buffer] + Full(batches[1..], [], threshold)
      else Full(batches[1..], buffer, threshold)
  }

  /** The rows left in the buffer when the batches are through. */
  function Left(batches: seq<seq<C.Record>>, buffered: seq<C.Record>, threshold: int): seq<C.Record> {
    if batches == [] then buffered
    else
      var buffer := buffered + batches[0];
      Left(batches[1..], if |buffer| >= threshold then [] else buffer, threshold)
  }

  function LastChunk(rows: seq<C.Record>): seq<seq<C.Record>> {
    if rows == [] then [] else [rows]
  }

  /** The cut is the full chunks and then what is left, as one chunk more. A chunk is full if and only if
    * it reaches the threshold; what is left after any number of batches stays below it. */
  lemma {:induction false} FullChunksFirst(batches: seq<seq<C.Record>>, buffered: seq<C.Record>, threshold: int)
    requires threshold > 0 ==> |buffered| < threshold
    ensures
      var cut, full := Cut(batches, buffered, threshold), Full(batches, buffered, threshold);
      var left := Left(batches, buffered, threshold);
      && cut == full + LastChunk(left)
      && (threshold > 0 ==> |left| < threshold && forall i :: 0 <= i < |full| ==> |full[i]| >= threshold)
  {
    if batches != [] {
      var buffer := buffered + batches[0];
      if |buffer| >= threshold {
        FullChunksFirst(batches[1..], [], threshold);
      } else {
        FullChunksFirst(batches[1..], buffer, threshold);
      }
    }
  }

  /** Without a positive threshold every batch is a commit of its own. */
  lemma {:induction false} EveryBatchCommits(batches: seq<seq<C.Record>>, threshold: int)
    requires threshold <= 0
    ensures Cut(batches, [], threshold) == batches == Full(batches, [], threshold)
  {
    if batches != [] {
      assert [] + batches[0] == batches[0];
      EveryBatchCommits(batches[1..], threshold);
      assert [batches[0]] + batches[1..] == batches;
    }
  }

  /** Cutting loses nothing, repeats nothing and keeps the order. */
  lemma {:induction false} CutKeepsEveryRow(batches: seq<seq<C.Record>>, buffered: seq<C.Record>, threshold: int)
    ensures Flatten(Cut(batches, buffered, threshold)) == buffered + Flatten(batches)
  {
    if batches == [] {
      assert Flatten([buffered]) == buffered + Flatten<C.Record>([]);
    } else {
      var buffer := buffered + batches[0];
      if |buffer| >= threshold {
        CutKeepsEveryRow(batches[1..], [], threshold);
        var cut := Cut(batches, buffered, threshold);
        assert cut[0] == buffer && cut[1..] == Cut(batches[1..], [], threshold);
        assert Flatten(cut) == buffer + Flatten(batches[1..]);
      } else {
        CutKeepsEveryRow(batches[1..], buffer, threshold);
      }
      assert buffer + Flatten(batches[1..]) == buffered + (batches[0] + Flatten(batches[1..]));
    }
  }

  predicate NoneEmpty(batches: seq<seq<C.Record>>) {
    forall i :: 0 <= i < |batches| ==> batches[i] != []
  }

  lemma {:induction false} BatchesAreNotEmpty(chunks: seq<Chunk>)
    ensures NoneEmpty(Batches(chunks))
  {
    if chunks != [] && !chunks[0].ReadError? {
      BatchesAreNotEmpty(chunks[1..]);
    }
  }

  /** Every commit but the last carries at least `threshold` rows, so there are at most
    * total / threshold + 1 of them. */
  lemma {:induction false} CommitBound(batches: seq<seq<C.Record>>, buffered: seq<C.Record>, threshold: int)
    requires threshold > 0
    ensures var total := |buffered| + |Flatten(batches)|;
      && (|Cut(batches, buffered, threshold)| - 1) * threshold <= total
      && |Cut(batches, buffered, threshold)| <= total / threshold + 1
  {
    var total := |buffered| + |Flatten(batches)|;
    if batches != [] {
      var buffer := buffered + batches[0];
      if |buffer| >= threshold {
        CommitBound(batches[1..], [], threshold);
        var n := |Cut(batches[1..], [], threshold)|;
        assert (n + 1 - 1) * threshold == (n - 1) * threshold + threshold;
      } else {
        CommitBound(batches[1..], buffer, threshold);
      }
    }
    Quotient(|Cut(batches, buffered, threshold)| - 1, total, threshold);
  }

  lemma Quotient(n: int, total: nat, d: nat)
    requires d > 0 && n * d <= total
    ensures n <= total / d
  {
    var q := total / d;
    assert total < (q + 1) * d;
    assert (n - (q + 1)) * d < 0;
  }

  /** The rows that arrive before the last batch. */
  function BeforeLast(batches: seq<seq<C.Record>>): nat {
    if batches == [] then 0 else |Flatten(batches[..|batches| - 1])|
  }

  /** An upload is a single commit exactly when the rows before its last batch stay below the
    * threshold: the last batch may be of any size. */
  lemma {:induction false} SingleCommit(batches: seq<seq<C.Record>>, buffered: seq<C.Record>, threshold: int)
    requires NoneEmpty(batches) && batches != []
    requires |buffered| < threshold
    ensures |Cut(batches, buffered, threshold)| == 1 <==> |buffered| + BeforeLast(batches) < threshold
  {
    var buffer, rest := buffered + batches[0], batches[1..];
    if rest == [] {
      assert batches[..|batches| - 1] == [];
    } else {
      assert batches[..|batches| - 1] == [batches[0]] + rest[..|rest| - 1];
      FlattenConcat([batches[0]], rest[..|rest| - 1]);
      assert Flatten([batches[0]]) == batches[0];
      if |buffer| >= threshold {
        CutKeepsEveryRow(rest, [], threshold);
        assert rest[0] != [] && Flatten(rest) == rest[0] + Flatten(rest[1..]);
        assert Cut(rest, [], threshold) != [];
      } else {
        assert NoneEmpty(rest);
        SingleCommit(rest, buffer, threshold);
      }
    }
  }

  /** No commit happens exactly when no row arrives. */
  lemma NoCommit(chunks: seq<Chunk>, threshold: int)
    ensures Cut(Batches(chunks), [], threshold) == [] <==> AllRows(chunks) == []
  {
    CutKeepsEveryRow(Batches(chunks), [], threshold);
    BatchesAreNotEmpty(chunks);
    var batches := Batches(chunks);
    if batches != [] {
      assert batches[0] != [] && Flatten(batches) == batches[0] + Flatten(batches[1..]);
    }
  }

  // ------------------------------------------------------------ one write after another

  /** The first chunk finds a table, or makes one whose schema reads back as it was given. */
  predicate Continues(before: Option<C.Table>, schema: C.Schema) {
    before.Some? || C.ReadsBack(schema)
  }

  /** Writing more rows in append mode to what a write left is writing all the rows at once; except that
    * it is refused where the write made a table whose schema reads back differently. */
  lemma AppendContinuesWrite(mode: C.Mode, before: Option<C.Table>, schema: C.Schema, a: seq<C.Record>, b: seq<C.Record>)
    requires C.KnownSchema(schema) && C.Write(mode, before, schema, a).Ok?
    ensures C.Write(C.Append, Some(C.Write(mode, before, schema, a).table), schema, b) ==
      if Continues(before, schema) then C.Write(mode, before, schema, a + b) else C.Err(C.SchemaMismatch)
  {
    C.StoredTypeMap(schema);
    hide C.ReadsBack, C.TypeMap;
    if before.Some? {
      assert before.value.rows + a + b == before.value.rows + (a + b);
    } else {
      assert [] + a + b == [] + (a + b);
    }
  }

  /** Why an upload breaks off: the reader of the stream raised, or the catalog could not commit. */
  datatype Cause = StreamFailed | StoreFailed

  datatype Outcome = Completed(commits: nat) | Raised(error: C.Error) | Interrupted(cause: Cause, commits: nat)

  /** The catalog after the chunks `parts` have been committed on top of `before`: the requested
    * mode applied to their rows. */
  ghost predicate Holds(tables: map<Key, C.Table>, before: map<Key, C.Table>, k: Key, mode: C.Mode,
                        schema: C.Schema, parts: seq<seq<C.Record>>)
  {
    if parts == [] then tables == before
    else
      var w := C.Write(mode, Lookup(before, k), schema, Flatten(parts));
      w.Ok? && tables == before[k := w.table]
  }

  /** The first commit made the table and the second, which fills it, failed. */
  ghost predicate MadeEmpty(tables: map<Key, C.Table>, before: map<Key, C.Table>, k: Key, schema: C.Schema) {
    k !in before && tables == before[k := C.NewTable(schema)]
  }

  /** The upload stopped after `commits` chunks of `parts`: the catalog holds exactly those, except that
    * a first commit that was to make the table may have left it made and empty. */
  ghost predicate StoppedAfter(tables: map<Key, C.Table>, before: map<Key, C.Table>, k: Key, mode: C.Mode,
                               schema: C.Schema, parts: seq<seq<C.Record>>, commits: nat)
  {
    && commits <= |parts|
    && (Holds(tables, before, k, mode, schema, parts[..commits])
        || (commits == 0 && MadeEmpty(tables, before, k, schema)))
  }

  /** The write is refused whatever its rows are. */
  ghost predicate Refuses(before: map<Key, C.Table>, k: Key, mode: C.Mode, schema: C.Schema, e: C.Error) {
    forall rows :: C.Write(mode, Lookup(before, k), schema, rows) == C.Err(e)
  }

  /** Commits one chunk: the first in the requested mode, every later one as an append. */
  method Flush(cat: C.Store, k: Key, schema: C.Schema, rows: seq<C.Record>, mode: C.Mode, commits: nat,
               ghost before: map<Key, C.Table>, ghost parts: seq<seq<C.Record>>) returns (r: C.Outcome)
    requires C.KnownSchema(schema) && commits == |parts|
    requires Holds(cat.tables, before, k, mode, schema, parts)
    modifies cat
    ensures r == C.Done ==> Holds(cat.tables, before, k, mode, schema, parts + [rows])
    ensures r == C.Done && parts != [] ==> Continues(Lookup(before, k), schema)
    ensures r.Raised? ==>
      && cat.tables == old(cat.tables)
      && if parts == [] then cat.tables == before && Refuses(before, k, mode, schema, r.error)
         else !Continues(Lookup(before, k), schema) && r.error == C.SchemaMismatch
    ensures r == C.Broken ==>
      Holds(cat.tables, before, k, mode, schema, parts) || (parts == [] && MadeEmpty(cat.tables, before, k, schema))
    ensures old(cat.commitsLeft) == None ==> r != C.Broken && cat.commitsLeft == None
  {
    hide Continues;
    FlattenConcat(parts, [rows]);
    assert Flatten([rows]) == rows;
    if commits == 0 {
      r := cat.WriteArrow(k, schema, rows, mode);
      assert [] + rows == rows;
    } else {
      ghost var flushed := Flatten(parts);
      AppendContinuesWrite(mode, Lookup(before, k), schema, flushed, rows);
      r := cat.WriteArrow(k, schema, rows, C.Append);
      if r == C.Done {
        assert before[k := C.Write(mode, Lookup(before, k), schema, flushed).table][k := cat.tables[k]]
            == before[k := cat.tables[k]];
      }
    }
  }

  function Largest(batches: seq<seq<C.Record>>): nat {
    if batches == [] then 0
    else
      var rest := Largest(batches[1..]);
      if |batches[0]| > rest then |batches[0]| else rest
  }

  /** The size of the largest batch: none is larger, and one is as large. */
  lemma {:induction false} LargestInWords(batches: seq<seq<C.Record>>)
    ensures forall i :: 0 <= i < |batches| ==> |batches[i]| <= Largest(batches)
    ensures batches != [] ==> exists i :: 0 <= i < |batches| && |batches[i]| == Largest(batches)
    ensures batches == [] ==> Largest(batches) == 0
  {
    if batches != [] {
      var rest := batches[1..];
      LargestInWords(rest);
      forall i | 0 <= i < |batches| ensures |batches[i]| <= Largest(batches) {
        if i > 0 {
          assert batches[i] == rest[i - 1];
        }
      }
      if |batches[0]| <= Largest(rest) && rest != [] {
        var i :| 0 <= i < |rest| && |rest[i]| == Largest(rest);
        assert batches[i + 1] == rest[i];
      }
    }
  }

  /** The chunks still to be committed when the reader is at position `i` and `held` is buffered. */
  ghost function Remaining(chunks: seq<Chunk>, i: nat, held: seq<C.Record>, threshold: int): seq<seq<C.Record>>
    requires i <= |chunks|
  {
    Cut(Batches(chunks[i..]), held, threshold)
  }

  /** The full chunks still to come. */
  ghost function FullFrom(chunks: seq<Chunk>, i: nat, held: seq<C.Record>, threshold: int): seq<seq<C.Record>>
    requires i <= |chunks|
  {
    Full(Batches(chunks[i..]), held, threshold)
  }

  ghost function LargestFrom(chunks: seq<Chunk>, i: nat): nat
    requires i <= |chunks|
  {
    Largest(Batches(chunks[i..]))
  }

  predicate NoRows(c: Chunk) {
    c.NoData? || (c.Data? && c.rows == [])
  }

  /** What the next chunk of the reader adds to the cut. */
  lemma NextChunk(chunks: seq<Chunk>, i: nat, held: seq<C.Record>, threshold: int)
    requires i < |chunks| && !chunks[i].ReadError?
    ensures LargestFrom(chunks, i + 1) <= LargestFrom(chunks, i)
    ensures NoRows(chunks[i]) ==>
      && Remaining(chunks, i, held, threshold) == Remaining(chunks, i + 1, held, threshold)
      && FullFrom(chunks, i, held, threshold) == FullFrom(chunks, i + 1, held, threshold)
    ensures !NoRows(chunks[i]) ==>
      var full := held + chunks[i].rows;
      && |chunks[i].rows| <= LargestFrom(chunks, i)
      && Remaining(chunks, i, held, threshold) ==
         (if |full| >= threshold then [full] + Remaining(chunks, i + 1, [], threshold)
          else Remaining(chunks, i + 1, full, threshold))
      && FullFrom(chunks, i, held, threshold) ==
         (if |full| >= threshold then [full] + FullFrom(chunks, i + 1, [], threshold)
          else FullFrom(chunks, i + 1, full, threshold))
  {
    var rest := chunks[i..];
    assert rest[0] == chunks[i] && rest[1..] == chunks[i + 1..];
    if !NoRows(chunks[i]) {
      assert Batches(rest)[0] == rest[0].rows && Batches(rest)[1..] == Batches(rest[1..]);
    }
  }

  lemma NoChunkLeft(chunks: seq<Chunk>, held: seq<C.Record>, threshold: int)
    ensures Remaining(chunks, |chunks|, held, threshold) == LastChunk(held)
    ensures Remaining(chunks, 0, [], threshold) == Cut(Batches(chunks), [], threshold)
    ensures FullFrom(chunks, |chunks|, held, threshold) == []
    ensures FullFrom(chunks, 0, [], threshold) == Full(Batches(chunks), [], threshold)
    ensures LargestFrom(chunks, 0) == Largest(Batches(chunks))
  {
    assert chunks[|chunks|..] == [] && chunks[0..] == chunks;
  }

  /** A read error ends the stream: no more full chunk comes after it. */
  lemma NothingAfterError(chunks: seq<Chunk>, i: nat, held: seq<C.Record>, threshold: int)
    requires i < |chunks| && chunks[i].ReadError?
    ensures FullFrom(chunks, i, held, threshold) == [] && !Clean(chunks)
  {
  }

  /** How an upload can break off. If the stream failed, the catalog holds its full chunks, no more and no
    * less; if a commit failed, it is the one after the chunks that are in. */
  ghost predicate BrokeOff(tables: map<Key, C.Table>, before: map<Key, C.Table>, k: Key, mode: C.Mode, schema: C.Schema,
                           chunks: seq<Chunk>, threshold: int, cause: Cause, commits: nat)
  {
    var cut, full := Cut(Batches(chunks), [], threshold), Full(Batches(chunks), [], threshold);
    && StoppedAfter(tables, before, k, mode, schema, cut, commits)
    && match cause
       case StreamFailed => !Clean(chunks) && commits == |full| && Holds(tables, before, k, mode, schema, full)
       case StoreFailed => commits < |cut| || cut == []
  }

  /** Where the loop is when the reader is at position `i`: `parts` are in, `held` is buffered, and never
    * more than `peak` rows were. */
  ghost predicate At(chunks: seq<Chunk>, threshold: int, i: nat, held: seq<C.Record>, parts: seq<seq<C.Record>>, peak: nat) {
    && i <= |chunks| && (forall j :: 0 <= j < i ==> !chunks[j].ReadError?)
    && Cut(Batches(chunks), [], threshold) == parts + Remaining(chunks, i, held, threshold)
    && Full(Batches(chunks), [], threshold) == parts + FullFrom(chunks, i, held, threshold)
    && LargestFrom(chunks, i) <= Largest(Batches(chunks))
    && (threshold > 0 ==> |held| < threshold && (peak < threshold + Largest(Batches(chunks)) || peak == 0))
  }

  lemma AtStart(chunks: seq<Chunk>, threshold: int)
    ensures At(chunks, threshold, 0, [], [], 0)
  {
    NoChunkLeft(chunks, [], threshold);
    hide Cut, Full, Largest;
  }

  lemma AtSkips(chunks: seq<Chunk>, threshold: int, i: nat, held: seq<C.Record>, parts: seq<seq<C.Record>>, peak: nat)
    requires At(chunks, threshold, i, held, parts, peak) && i < |chunks| && NoRows(chunks[i])
    ensures At(chunks, threshold, i + 1, held, parts, peak)
  {
    hide Cut, Full, Remaining, FullFrom, Largest, LargestFrom;
    NextChunk(chunks, i, held, threshold);
  }

  /** A batch stays in the buffer. */
  lemma AtBuffered(chunks: seq<Chunk>, threshold: int, i: nat, held: seq<C.Record>, parts: seq<seq<C.Record>>, peak: nat,
                   full: seq<C.Record>)
    requires At(chunks, threshold, i, held, parts, peak) && i < |chunks| && !chunks[i].ReadError? && !NoRows(chunks[i])
    requires full == held + chunks[i].rows && |full| < threshold
    ensures At(chunks, threshold, i + 1, full, parts, if |full| > peak then |full| else peak)
  {
    hide Cut, Full, Remaining, FullFrom, Largest, LargestFrom;
    NextChunk(chunks, i, held, threshold);
  }

  /** A batch fills a chunk. */
  lemma AtChunk(chunks: seq<Chunk>, threshold: int, i: nat, held: seq<C.Record>, parts: seq<seq<C.Record>>, peak: nat,
                full: seq<C.Record>)
    requires At(chunks, threshold, i, held, parts, peak) && i < |chunks| && !chunks[i].ReadError? && !NoRows(chunks[i])
    requires full == held + chunks[i].rows && |full| >= threshold
    ensures At(chunks, threshold, i + 1, [], parts + [full], if |full| > peak then |full| else peak)
    ensures Cut(Batches(chunks), [], threshold) == parts + ([full] + Remaining(chunks, i + 1, [], threshold))
  {
    hide Cut, Full, Remaining, FullFrom, Largest, LargestFrom;
    NextChunk(chunks, i, held, threshold);
    Regroup(parts, full, Remaining(chunks, i + 1, [], threshold));
    Regroup(parts, full, FullFrom(chunks, i + 1, [], threshold));
  }

  lemma AtEnd(chunks: seq<Chunk>, threshold: int, held: seq<C.Record>, parts: seq<seq<C.Record>>, peak: nat)
    requires At(chunks, threshold, |chunks|, held, parts, peak)
    ensures Clean(chunks) && parts == Full(Batches(chunks), [], threshold)
    ensures Cut(Batches(chunks), [], threshold) == parts + LastChunk(held)
    ensures held == Left(Batches(chunks), [], threshold)
  {
    NoChunkLeft(chunks, held, threshold);
    FullChunksFirst(Batches(chunks), [], threshold);
    hide Cut, Full, Left;
    assert parts + [] == parts;
    var left := Left(Batches(chunks), [], threshold);
    assert LastChunk(held) == (parts + LastChunk(held))[|parts|..] == (parts + LastChunk(left))[|parts|..] == LastChunk(left);
  }

  lemma AtBounds(chunks: seq<Chunk>, threshold: int, i: nat, held: seq<C.Record>, parts: seq<seq<C.Record>>, peak: nat)
    requires At(chunks, threshold, i, held, parts, peak)
    ensures threshold > 0 ==> |held| < threshold && (peak < threshold + Largest(Batches(chunks)) || peak == 0)
  {
  }

  lemma StreamBrokeOff(tables: map<Key, C.Table>, before: map<Key, C.Table>, k: Key, mode: C.Mode, schema: C.Schema,
                       chunks: seq<Chunk>, threshold: int, i: nat, held: seq<C.Record>, parts: seq<seq<C.Record>>, peak: nat)
    requires At(chunks, threshold, i, held, parts, peak) && i < |chunks| && chunks[i].ReadError?
    requires Holds(tables, before, k, mode, schema, parts)
    ensures BrokeOff(tables, before, k, mode, schema, chunks, threshold, StreamFailed, |parts|)
    ensures forall healthy ::
      Stopped(Interrupted(StreamFailed, |parts|), tables, before, k, mode, schema, chunks, threshold, healthy)
  {
    hide Cut, Holds;
    NothingAfterError(chunks, i, held, threshold);
    assert parts + [] == parts;
    assert (parts + Remaining(chunks, i, held, threshold))[..|parts|] == parts;
  }

  lemma StoreBrokeOff(tables: map<Key, C.Table>, before: map<Key, C.Table>, k: Key, mode: C.Mode, schema: C.Schema,
                      chunks: seq<Chunk>, threshold: int, parts: seq<seq<C.Record>>, rest: seq<seq<C.Record>>)
    requires Cut(Batches(chunks), [], threshold) == parts + rest && (rest != [] || parts == [])
    requires Holds(tables, before, k, mode, schema, parts) || (parts == [] && MadeEmpty(tables, before, k, schema))
    ensures BrokeOff(tables, before, k, mode, schema, chunks, threshold, StoreFailed, |parts|)
  {
    hide Cut, Holds;
    assert (parts + rest)[..|parts|] == parts;
  }

  /** The upload was refused at its second chunk: the first one is in. */
  ghost predicate RefusedLater(tables: map<Key, C.Table>, before: map<Key, C.Table>, k: Key, mode: C.Mode, schema: C.Schema,
                               cut: seq<seq<C.Record>>, e: C.Error)
  {
    && !Continues(Lookup(before, k), schema) && e == C.SchemaMismatch
    && |cut| >= 2 && Holds(tables, before, k, mode, schema, cut[..1])
  }

  lemma SecondRefused(tables: map<Key, C.Table>, before: map<Key, C.Table>, k: Key, mode: C.Mode, schema: C.Schema,
                      parts: seq<seq<C.Record>>, rest: seq<seq<C.Record>>)
    requires Holds(tables, before, k, mode, schema, parts) && !Continues(Lookup(before, k), schema)
    requires |parts| == 1 && rest != []
    ensures RefusedLater(tables, before, k, mode, schema, parts + rest, C.SchemaMismatch)
  {
    hide Holds;
    assert (parts + rest)[..1] == parts;
  }

  /** How an upload can stop early. */
  ghost predicate Stopped(stop: Outcome, tables: map<Key, C.Table>, before: map<Key, C.Table>, k: Key, mode: C.Mode,
                          schema: C.Schema, chunks: seq<Chunk>, threshold: int, healthy: bool)
  {
    match stop
    case Completed(_) => false
    case Raised(e) =>
      || (Refuses(before, k, mode, schema, e) && tables == before)
      || RefusedLater(tables, before, k, mode, schema, Cut(Batches(chunks), [], threshold), e)
    case Interrupted(cause, n) =>
      BrokeOff(tables, before, k, mode, schema, chunks, threshold, cause, n) && (cause == StoreFailed ==> !healthy)
  }

  /** Flushes the chunk of the cut that is next. Only a table that continues takes a second one. */
  method FlushNext(cat: C.Store, k: Key, schema: C.Schema, rows: seq<C.Record>, mode: C.Mode, commits: nat,
                   ghost before: map<Key, C.Table>, ghost parts: seq<seq<C.Record>>, ghost chunks: seq<Chunk>,
                   ghost threshold: int, ghost rest: seq<seq<C.Record>>, ghost healthy: bool) returns (stop: Option<Outcome>)
    requires healthy ==> cat.commitsLeft == None
    requires C.KnownSchema(schema) && commits == |parts| && Holds(cat.tables, before, k, mode, schema, parts)
    requires |parts| >= 2 ==> Continues(Lookup(before, k), schema)
    requires Cut(Batches(chunks), [], threshold) == parts + ([rows] + rest)
    modifies cat
    ensures stop.None? ==>
      Holds(cat.tables, before, k, mode, schema, parts + [rows]) && (parts != [] ==> Continues(Lookup(before, k), schema))
    ensures stop.Some? ==>
      !stop.value.Completed? && Stopped(stop.value, cat.tables, before, k, mode, schema, chunks, threshold, healthy)
    ensures healthy ==> cat.commitsLeft == None
  {
    hide Holds, Refuses, BrokeOff, RefusedLater, Continues, MadeEmpty, C.Write, C.KnownSchema, Cut, Batches;
    var done := Flush(cat, k, schema, rows, mode, commits, before, parts);
    match done
    case Done => stop := None;
    case Raised(e) =>
      if commits > 0 {
        SecondRefused(cat.tables, before, k, mode, schema, parts, [rows] + rest);
      }
      stop := Some(Raised(e));
    case Broken =>
      StoreBrokeOff(cat.tables, before, k, mode, schema, chunks, threshold, parts, [rows] + rest);
      stop := Some(Interrupted(StoreFailed, commits));
  }

  /** The buffering loop: reads to the end of the stream and leaves the last rows in the buffer. */
  method Buffer(cat: C.Store, k: Key, schema: C.Schema, mode: C.Mode, chunks: seq<Chunk>, threshold: int)
    returns (stop: Option<Outcome>, buffer: seq<seq<C.Record>>, commits: nat,
             ghost parts: seq<seq<C.Record>>, ghost peak: nat)
    requires C.KnownSchema(schema)
    modifies cat
    ensures stop.None? ==>
      && Clean(chunks)
      && parts == Full(Batches(chunks), [], threshold) && commits == |parts|
      && Holds(cat.tables, old(cat.tables), k, mode, schema, parts)
      && (|parts| >= 2 ==> Continues(Lookup(old(cat.tables), k), schema))
      && Cut(Batches(chunks), [], threshold) == parts + LastChunk(Flatten(buffer))
      && Flatten(buffer) == Left(Batches(chunks), [], threshold) && (buffer == [] <==> Flatten(buffer) == [])
      && (threshold > 0 ==> |Flatten(buffer)| < threshold)
    ensures stop.Some? ==>
      && !stop.value.Completed?
      && Stopped(stop.value, cat.tables, old(cat.tables), k, mode, schema, chunks, threshold, old(cat.commitsLeft) == None)
    ensures old(cat.commitsLeft) == None ==> cat.commitsLeft == None
    ensures threshold > 0 ==> peak < threshold + Largest(Batches(chunks)) || peak == 0
  {
    ghost var before, healthy := cat.tables, cat.commitsLeft == None;
    HoldsNothing(before, k, mode, schema);
    AtStart(chunks, threshold);
    assert Flatten<C.Record>([]) == [];
    hide Holds, Stopped, Continues, C.Write, C.KnownSchema, Flatten, Cut, Full, Left, LastChunk, Batches, Remaining, Largest,
         Clean, At;
    stop, buffer, commits, parts, peak := None, [], 0, [], 0;
    var buffered: nat := 0;
    var i := 0;
    while i < |chunks|
      invariant 0 <= i <= |chunks| && stop.None?
      invariant buffered == |Flatten(buffer)| && (buffer == [] <==> Flatten(buffer) == [])
      invariant At(chunks, threshold, i, Flatten(buffer), parts, peak)
      invariant commits == |parts| && Holds(cat.tables, before, k, mode, schema, parts)
      invariant |parts| >= 2 ==> Continues(Lookup(before, k), schema)
      invariant healthy ==> cat.commitsLeft == None
    {
      var chunk := chunks[i];
      AtBounds(chunks, threshold, i, Flatten(buffer), parts, peak);
      if chunk.ReadError? {
        StreamBrokeOff(cat.tables, before, k, mode, schema, chunks, threshold, i, Flatten(buffer), parts, peak);
        stop := Some(Interrupted(StreamFailed, commits));
        return;
      }
      if NoRows(chunk) {
        AtSkips(chunks, threshold, i, Flatten(buffer), parts, peak);
      } else {
        ghost var held, before' := Flatten(buffer), peak;
        ghost var full := held + chunk.rows;
        BufferOne(buffer, chunk.rows);
        buffer := buffer + [chunk.rows];
        buffered := buffered + |chunk.rows|;
        if buffered > peak {
          peak := buffered;
        }
        assert Flatten(buffer) == full && buffered == |full|;
        if buffered >= threshold {
          AtChunk(chunks, threshold, i, held, parts, before', full);
          AtBounds(chunks, threshold, i + 1, [], parts + [full], peak);
          stop := FlushNext(cat, k, schema, Flatten(buffer), mode, commits, before, parts, chunks, threshold,
                            Remaining(chunks, i + 1, [], threshold), healthy);
          if stop.Some? {
            return;
          }
          parts := parts + [full];
          commits := commits + 1;
          buffer, buffered := [], 0;
        } else {
          AtBuffered(chunks, threshold, i, held, parts, before', full);
        }
      }
      i := i + 1;
    }
    AtBounds(chunks, threshold, i, Flatten(buffer), parts, peak);
    AtEnd(chunks, threshold, Flatten(buffer), parts, peak);
  }

  lemma BufferOne(buffer: seq<seq<C.Record>>, batch: seq<C.Record>)
    ensures Flatten(buffer + [batch]) == Flatten(buffer) + batch
  {
    FlattenConcat(buffer, [batch]);
    assert Flatten([batch]) == batch;
  }

  lemma Regroup(parts: seq<seq<C.Record>>, held: seq<C.Record>, rest: seq<seq<C.Record>>)
    ensures parts + ([held] + rest) == (parts + [held]) + rest
  {
  }

  /** The upload. `peak` is the largest number of rows that were ever buffered. */
  method DoPut(cat: C.Store, k: Key, schema: C.Schema, mode: C.Mode, chunks: seq<Chunk>, threshold: int)
    returns (r: Outcome, ghost peak: nat)
    requires C.KnownSchema(schema)
    modifies cat
    ensures
      var single := C.Write(mode, old(cat.Get(k)), schema, AllRows(chunks));
      match r
      case Completed(commits) =>
        (single.Ok? && cat.tables == old(cat.tables)[k := single.table] && Clean(chunks)
         && commits == |Cut(Batches(chunks), [], threshold)|
         && (commits >= 2 ==> Continues(old(cat.Get(k)), schema)))
      case Raised(e) =>
        (|| (single == C.Err(e) && cat.tables == old(cat.tables))
         || RefusedLater(cat.tables, old(cat.tables), k, mode, schema, Cut(Batches(chunks), [], threshold), e))
      case Interrupted(cause, commits) =>
        (&& BrokeOff(cat.tables, old(cat.tables), k, mode, schema, chunks, threshold, cause, commits)
         && (cause == StoreFailed ==> old(cat.commitsLeft) != None))
    ensures old(cat.commitsLeft) == None && Clean(chunks) ==>
      (r.Completed? <==> C.Write(mode, old(cat.Get(k)), schema, AllRows(chunks)).Ok?
                         && (|Cut(Batches(chunks), [], threshold)| >= 2 ==> Continues(old(cat.Get(k)), schema)))
    ensures threshold > 0 ==> peak < threshold + Largest(Batches(chunks)) || peak == 0
  {
    hide Holds, Refuses, BrokeOff, RefusedLater, Stopped, Continues, MadeEmpty, C.Write, Clean, Cut, Full, Left, Flatten;
    ghost var before := cat.tables;
    var stop, buffer, commits, parts, peak' := Buffer(cat, k, schema, mode, chunks, threshold);
    peak := peak';
    if stop.None? {
      ghost var held := Flatten(buffer);
      if buffer != [] {
        stop := FlushNext(cat, k, schema, Flatten(buffer), mode, commits, before, parts, chunks, threshold, [],
                          old(cat.commitsLeft) == None);
        parts := parts + [held];
        commits := commits + 1;
      }
      if stop.None? {
        var done := C.Done;
        if commits == 0 {
          done := Flush(cat, k, schema, [], mode, 0, before, []);
          ghost var none: seq<seq<C.Record>> := [];
          assert none + [[]] == [[]];
          parts := [[]];
        }
        if done == C.Done {
          WholeHeld(cat.tables, before, k, mode, schema, parts, chunks, threshold);
          stop := Some(Completed(commits));
        } else {
          NothingCut(cat.tables, before, k, mode, schema, chunks, threshold, done);
          stop := Some(if done.Raised? then Raised(done.error) else Interrupted(StoreFailed, 0));
        }
      }
    }
    r := stop.value;
    if !r.Completed? {
      StoppedMeans(r, cat.tables, before, k, mode, schema, chunks, threshold, old(cat.commitsLeft) == None);
    }
  }

  /** An upload without rows makes its one write, or stops there. */
  lemma NothingCut(tables: map<Key, C.Table>, before: map<Key, C.Table>, k: Key, mode: C.Mode, schema: C.Schema,
                   chunks: seq<Chunk>, threshold: int, done: C.Outcome)
    requires Cut(Batches(chunks), [], threshold) == [] && done != C.Done
    requires done.Raised? ==> tables == before && Refuses(before, k, mode, schema, done.error)
    requires done == C.Broken ==> Holds(tables, before, k, mode, schema, []) || MadeEmpty(tables, before, k, schema)
    ensures Stopped(if done.Raised? then Raised(done.error) else Interrupted(StoreFailed, 0),
                    tables, before, k, mode, schema, chunks, threshold, false)
    ensures done.Raised? ==> Stopped(Raised(done.error), tables, before, k, mode, schema, chunks, threshold, true)
  {
    if done == C.Broken {
      StoreBrokeOff(tables, before, k, mode, schema, chunks, threshold, [], []);
    }
  }

  /** What an early stop says against the single write. */
  lemma StoppedMeans(stop: Outcome, tables: map<Key, C.Table>, before: map<Key, C.Table>, k: Key, mode: C.Mode,
                     schema: C.Schema, chunks: seq<Chunk>, threshold: int, healthy: bool)
    requires Stopped(stop, tables, before, k, mode, schema, chunks, threshold, healthy)
    ensures stop.Raised? ==>
      || (C.Write(mode, Lookup(before, k), schema, AllRows(chunks)) == C.Err(stop.error) && tables == before)
      || RefusedLater(tables, before, k, mode, schema, Cut(Batches(chunks), [], threshold), stop.error)
    ensures stop.Interrupted? ==>
      && BrokeOff(tables, before, k, mode, schema, chunks, threshold, stop.cause, stop.commits)
      && (stop.cause == StoreFailed ==> !healthy)
    ensures healthy && Clean(chunks) ==>
      !(C.Write(mode, Lookup(before, k), schema, AllRows(chunks)).Ok?
        && (|Cut(Batches(chunks), [], threshold)| >= 2 ==> Continues(Lookup(before, k), schema)))
  {
    hide C.Write, Holds, Cut, Full, Batches, AllRows, Clean, Continues;
  }

  lemma HoldsNothing(before: map<Key, C.Table>, k: Key, mode: C.Mode, schema: C.Schema)
    ensures Holds(before, before, k, mode, schema, [])
  {
  }

  /** Once every chunk of the cut is in, the catalog holds the single write of the whole stream. */
  lemma WholeHeld(tables: map<Key, C.Table>, before: map<Key, C.Table>, k: Key, mode: C.Mode, schema: C.Schema,
                  parts: seq<seq<C.Record>>, chunks: seq<Chunk>, threshold: int)
    requires parts != [] && Holds(tables, before, k, mode, schema, parts)
    requires parts == Cut(Batches(chunks), [], threshold)
          || (parts == [[]] && Cut(Batches(chunks), [], threshold) == [])
    ensures var single := C.Write(mode, Lookup(before, k), schema, AllRows(chunks));
      single.Ok? && tables == before[k := single.table]
  {
    CutKeepsEveryRow(Batches(chunks), [], threshold);
    assert Flatten(parts) == AllRows(chunks);
  }
}
