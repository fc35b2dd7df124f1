/** The table catalog: schemas, schema compatibility and the write path. */
module Catalog {
  import opened Common

  // ------------------------------------------------------------ types

  datatype TimeUnit = Seconds | Millis | Micros | Nanos

  /** Arrow types, as a tree. `large` is the 64-bit offset encoding. */
  datatype ArrowType =
    | Utf8(large: bool)
    | Binary(large: bool)
    | Bool
    | Int(bits: nat)
    | Float(bits: nat)
    | Date
    | Timestamp(unit: TimeUnit, zone: string)
    | Decimal(precision: nat, scale: nat)
    | List(large: bool, item: Field)
    | Struct(fields: seq<Field>)

  /** A column, a member of a struct or the item of a list. */
  datatype Field = Field(name: string, typ: ArrowType, nullable: bool)

  type Schema = seq<Field>

  /** The name the storage format gives to the item of every list. */
  const StoredItem := "element"

  /** The canonical form two types are compared in. The names of list items and whether nested fields
    * can be null are part of it. */
  function Norm(t: ArrowType): ArrowType {
    match t
    case Utf8(_) => Utf8(false)
    case Binary(_) => Binary(false)
    case Int(bits) => if bits == 8 || bits == 16 then Int(32) else t
    case Timestamp(_, zone) => Timestamp(Micros, zone)
    case List(_, item) => List(false, Field(item.name, Norm(item.typ), item.nullable))
    case Struct(fields) =>
      Struct(seq(|fields|, i requires 0 <= i < |fields| => Field(fields[i].name, Norm(fields[i].typ), fields[i].nullable)))
    case _ => t
  }

  /** What a stored column reads back as: the storage format has large strings and lists, microsecond
    * timestamps, no integer narrower than 32 bits and its own name for the items of lists. */
  function StoredType(t: ArrowType): ArrowType {
    match t
    case Utf8(_) => Utf8(true)
    case Binary(_) => Binary(true)
    case Int(bits) => if bits < 32 then Int(32) else t
    case Timestamp(_, zone) => Timestamp(Micros, zone)
    case List(_, item) => List(true, Field(StoredItem, StoredType(item.typ), item.nullable))
    case Struct(fields) =>
      Struct(seq(|fields|, i requires 0 <= i < |fields| => Field(fields[i].name, StoredType(fields[i].typ), fields[i].nullable)))
    case _ => t
  }

  /** Integer columns have one of the widths the format knows, at every depth. */
  predicate KnownWidths(t: ArrowType) {
    match t
    case Int(bits) => bits == 8 || bits == 16 || bits == 32 || bits == 64
    case List(_, item) => KnownWidths(item.typ)
    case Struct(fields) => forall i :: 0 <= i < |fields| ==> KnownWidths(fields[i].typ)
    case _ => true
  }

  /** Every list, at every depth, calls its item what the storage format calls it. */
  predicate ItemsAsStored(t: ArrowType) {
    match t
    case List(_, item) => item.name == StoredItem && ItemsAsStored(item.typ)
    case Struct(fields) => forall i :: 0 <= i < |fields| ==> ItemsAsStored(fields[i].typ)
    case _ => true
  }

  function Stored(s: Schema): Schema {
    seq(|s|, i requires 0 <= i < |s| => Field(s[i].name, StoredType(s[i].typ), s[i].nullable))
  }

  predicate KnownSchema(s: Schema) {
    forall i :: 0 <= i < |s| ==> KnownWidths(s[i].typ)
  }

  /** Comparison is blind to the storage round trip, however deeply a type is nested, except for the
    * names of list items: it is blind if and only if they are the stored ones. */
  lemma {:induction false} NormAbsorbsStorage(t: ArrowType)
    requires KnownWidths(t)
    ensures Norm(StoredType(t)) == Norm(t) <==> ItemsAsStored(t)
    ensures Norm(Norm(t)) == Norm(t)
  {
    match t
    case List(_, item) => NormAbsorbsStorage(item.typ);
    case Struct(fields) =>
      forall i | 0 <= i < |fields|
        ensures Norm(StoredType(fields[i].typ)) == Norm(fields[i].typ) <==> ItemsAsStored(fields[i].typ)
        ensures Norm(Norm(fields[i].typ)) == Norm(fields[i].typ)
      {
        NormAbsorbsStorage(fields[i].typ);
      }
      var a, b := Norm(StoredType(t)).fields, Norm(t).fields;
      assert forall i :: 0 <= i < |fields| ==>
          (a[i] == b[i] <==> Norm(StoredType(fields[i].typ)) == Norm(fields[i].typ));
      assert a == b <==> forall i :: 0 <= i < |fields| ==> a[i] == b[i];
      assert Norm(Norm(t)).fields == Norm(t).fields;
    case _ =>
  }

  /** The types that count as one: they differ at most in encoding, time unit and integers of up to 32
    * bits, at any depth. */
  predicate SameType(a: ArrowType, b: ArrowType) {
    match (a, b)
    case (Utf8(_), Utf8(_)) => true
    case (Binary(_), Binary(_)) => true
    case (Bool, Bool) => true
    case (Int(x), Int(y)) => x == y || ((x == 8 || x == 16 || x == 32) && (y == 8 || y == 16 || y == 32))
    case (Float(x), Float(y)) => x == y
    case (Date, Date) => true
    case (Timestamp(_, x), Timestamp(_, y)) => x == y
    case (Decimal(p, x), Decimal(q, y)) => p == q && x == y
    case (List(_, x), List(_, y)) => x.name == y.name && x.nullable == y.nullable && SameType(x.typ, y.typ)
    case (Struct(x), Struct(y)) =>
      |x| == |y| && forall i :: 0 <= i < |x| ==>
        x[i].name == y[i].name && x[i].nullable == y[i].nullable && SameType(x[i].typ, y[i].typ)
    case _ => false
  }

  /** The canonical form keeps exactly the other types apart. */
  lemma {:induction false} NormIdentifies(a: ArrowType, b: ArrowType)
    ensures Norm(a) == Norm(b) <==> SameType(a, b)
  {
    match (a, b)
    case (List(_, x), List(_, y)) => NormIdentifies(x.typ, y.typ);
    case (Struct(x), Struct(y)) =>
      var p, q := Norm(a).fields, Norm(b).fields;
      forall i | 0 <= i < |x| && i < |y|
        ensures p[i] == q[i] <==> x[i].name == y[i].name && x[i].nullable == y[i].nullable && SameType(x[i].typ, y[i].typ)
      {
        NormIdentifies(x[i].typ, y[i].typ);
      }
      assert p == q <==> |p| == |q| && forall i :: 0 <= i < |p| ==> p[i] == q[i];
    case _ =>
  }

  /** Types that count as one are stored as one. */
  lemma {:induction false} SameTypeSameStorage(a: ArrowType, b: ArrowType)
    requires KnownWidths(a) && KnownWidths(b) && SameType(a, b)
    ensures StoredType(a) == StoredType(b)
  {
    match (a, b)
    case (List(_, x), List(_, y)) => SameTypeSameStorage(x.typ, y.typ);
    case (Struct(x), Struct(y)) =>
      forall i | 0 <= i < |x| ensures StoredType(x[i].typ) == StoredType(y[i].typ) {
        SameTypeSameStorage(x[i].typ, y[i].typ);
      }
      assert StoredType(a).fields == StoredType(b).fields;
    case _ =>
  }

  // ------------------------------------------------------------ schema compatibility

  /** Column name to canonical type; a repeated name keeps its last type. */
  function TypeMap(s: Schema): map<string, ArrowType> {
    if s == [] then map[]
    else TypeMap(s[..|s| - 1])[s[|s| - 1].name := Norm(s[|s| - 1].typ)]
  }

  function ColumnNames(s: Schema): set<string> {
    set i | 0 <= i < |s| :: s[i].name
  }

  predicate Compatible(existing: Schema, incoming: Schema) {
    TypeMap(existing) == TypeMap(incoming)
  }

  predicate DistinctNames(s: Schema) {
    forall i, j :: 0 <= i < j < |s| ==> s[i].name != s[j].name
  }

  lemma {:induction false} TypeMapNames(s: Schema)
    ensures TypeMap(s).Keys == ColumnNames(s)
  {
    if s != [] {
      var front, last := s[..|s| - 1], s[|s| - 1];
      TypeMapNames(front);
      assert s == front + [last];
      assert ColumnNames(s) == ColumnNames(front) + {last.name} by {
        assert forall i :: 0 <= i < |front| ==> front[i] == s[i];
        assert s[|s| - 1].name in ColumnNames(s);
      }
    }
  }

  /** No later column has the name of column `i`. */
  predicate LastOfItsName(s: Schema, i: nat)
    requires i < |s|
  {
    forall k :: i < k < |s| ==> s[k].name != s[i].name
  }

  lemma {:induction false} TypeMapHoldsTheLast(s: Schema, i: nat)
    requires i < |s| && LastOfItsName(s, i)
    ensures s[i].name in TypeMap(s) && TypeMap(s)[s[i].name] == Norm(s[i].typ)
  {
    var front := s[..|s| - 1];
    if i < |front| {
      assert forall k :: 0 <= k < |front| ==> front[k] == s[k];
      assert s[|s| - 1].name != s[i].name;
      TypeMapHoldsTheLast(front, i);
    }
  }

  lemma {:induction false} LastColumn(s: Schema, i: nat) returns (j: nat)
    requires i < |s|
    ensures i <= j < |s| && s[j].name == s[i].name && LastOfItsName(s, j)
    decreases |s| - i
  {
    if LastOfItsName(s, i) {
      j := i;
    } else {
      var k :| i < k < |s| && s[k].name == s[i].name;
      j := LastColumn(s, k);
    }
  }

  lemma TypeMapEntries(s: Schema)
    requires DistinctNames(s)
    ensures forall i :: 0 <= i < |s| ==> s[i].name in TypeMap(s) && TypeMap(s)[s[i].name] == Norm(s[i].typ)
  {
    forall i | 0 <= i < |s| ensures s[i].name in TypeMap(s) && TypeMap(s)[s[i].name] == Norm(s[i].typ) {
      TypeMapHoldsTheLast(s, i);
    }
  }

  /** The columns of a schema, each name with its canonical type. */
  function Columns(s: Schema): set<(string, ArrowType)> {
    set i | 0 <= i < |s| :: (s[i].name, Norm(s[i].typ))
  }

  /** With distinct names two schemas are compatible exactly when they have the same columns: order,
    * encoding, time unit, narrow integers and whether a column can be null do not matter, anything else
    * does. */
  lemma CompatibleMeansSameColumns(a: Schema, b: Schema)
    requires DistinctNames(a) && DistinctNames(b)
    ensures Compatible(a, b) <==> Columns(a) == Columns(b)
  {
    ColumnsAreEntries(a);
    ColumnsAreEntries(b);
    if Columns(a) == Columns(b) {
      forall n | n in TypeMap(a) ensures n in TypeMap(b) && TypeMap(b)[n] == TypeMap(a)[n] {
        assert (n, TypeMap(a)[n]) in Columns(b);
      }
      forall n | n in TypeMap(b) ensures n in TypeMap(a) {
        assert (n, TypeMap(b)[n]) in Columns(a);
      }
    }
  }

  /** Both schemas have a column of this name, and its type changed. */
  predicate Retyped(existing: Schema, incoming: Schema) {
    exists i, j :: 0 <= i < |existing| && 0 <= j < |incoming| && existing[i].name == incoming[j].name
                   && !SameType(existing[i].typ, incoming[j].typ)
  }

  predicate HasColumn(s: Schema, n: string) {
    exists i :: 0 <= i < |s| && s[i].name == n
  }

  /** Every column of one schema is a column of the other. */
  predicate SameNames(a: Schema, b: Schema) {
    && (forall i :: 0 <= i < |a| ==> HasColumn(b, a[i].name))
    && (forall j :: 0 <= j < |b| ==> HasColumn(a, b[j].name))
  }

  lemma SameNamesMeans(a: Schema, b: Schema)
    ensures SameNames(a, b) <==> ColumnNames(a) == ColumnNames(b)
  {
    forall s: Schema, n ensures HasColumn(s, n) <==> n in ColumnNames(s) { }
    hide HasColumn;
    if SameNames(a, b) {
      forall n ensures n in ColumnNames(a) <==> n in ColumnNames(b) { }
    } else if ColumnNames(a) == ColumnNames(b) {
      forall i | 0 <= i < |a| ensures HasColumn(b, a[i].name) {
        assert a[i].name in ColumnNames(a);
      }
      forall j | 0 <= j < |b| ensures HasColumn(a, b[j].name) {
        assert b[j].name in ColumnNames(b);
      }
    }
  }

  /** No column is retyped exactly when the names both schemas have agree on the canonical type. */
  lemma RetypedMeans(a: Schema, b: Schema)
    requires DistinctNames(a) && DistinctNames(b)
    ensures !Retyped(a, b) <==> forall n :: n in TypeMap(a) && n in TypeMap(b) ==> TypeMap(a)[n] == TypeMap(b)[n]
  {
    TypeMapEntries(a);
    TypeMapEntries(b);
    forall i, j | 0 <= i < |a| && 0 <= j < |b|
      ensures Norm(a[i].typ) == Norm(b[j].typ) <==> SameType(a[i].typ, b[j].typ)
    {
      NormIdentifies(a[i].typ, b[j].typ);
    }
    hide Norm, SameType, TypeMap, DistinctNames;
    if !Retyped(a, b) {
      forall n | n in TypeMap(a) && n in TypeMap(b) ensures TypeMap(a)[n] == TypeMap(b)[n] {
        TypeMapNames(a);
        TypeMapNames(b);
        var i :| 0 <= i < |a| && a[i].name == n;
        var j :| 0 <= j < |b| && b[j].name == n;
      }
    } else {
      var i, j :| 0 <= i < |a| && 0 <= j < |b| && a[i].name == b[j].name && !SameType(a[i].typ, b[j].typ);
      assert a[i].name in TypeMap(a) && a[i].name in TypeMap(b);
      assert TypeMap(a)[a[i].name] != TypeMap(b)[a[i].name];
    }
  }

  /** In words: with distinct names a schema is compatible if and only if no column is added, removed or
    * retyped. */
  lemma CompatibleInWords(existing: Schema, incoming: Schema)
    requires DistinctNames(existing) && DistinctNames(incoming)
    ensures Compatible(existing, incoming) <==> SameNames(existing, incoming) && !Retyped(existing, incoming)
  {
    TypeMapNames(existing);
    TypeMapNames(incoming);
    RetypedMeans(existing, incoming);
    SameNamesMeans(existing, incoming);
    hide TypeMap, SameNames, Retyped, ColumnNames;
  }

  lemma ColumnsAreEntries(s: Schema)
    requires DistinctNames(s)
    ensures forall n, t :: (n, t) in Columns(s) <==> n in TypeMap(s) && TypeMap(s)[n] == t
  {
    TypeMapEntries(s);
    TypeMapNames(s);
    forall n | n in TypeMap(s) ensures (n, TypeMap(s)[n]) in Columns(s) {
      var i :| 0 <= i < |s| && s[i].name == n;
      assert (s[i].name, Norm(s[i].typ)) in Columns(s);
    }
  }

  /** Every column (of repeated ones the last) has list items called as the storage format calls them. */
  predicate ReadsBack(s: Schema) {
    forall i :: 0 <= i < |s| ==> LastOfItsName(s, i) ==> ItemsAsStored(s[i].typ)
  }

  /** A schema is compatible with what it reads back as exactly under that condition. */
  lemma StoredTypeMap(s: Schema)
    requires KnownSchema(s)
    ensures Compatible(Stored(s), s) <==> ReadsBack(s)
  {
    TypeMapNames(s);
    TypeMapNames(Stored(s));
    StoredNames(s);
    forall i | 0 <= i < |s| && LastOfItsName(s, i)
      ensures TypeMap(Stored(s))[s[i].name] == TypeMap(s)[s[i].name] <==> ItemsAsStored(s[i].typ)
    {
      assert LastOfItsName(Stored(s), i);
      TypeMapHoldsTheLast(s, i);
      TypeMapHoldsTheLast(Stored(s), i);
      NormAbsorbsStorage(s[i].typ);
    }
    hide ItemsAsStored, TypeMap, LastOfItsName;
    if ReadsBack(s) {
      forall n | n in TypeMap(s) ensures TypeMap(Stored(s))[n] == TypeMap(s)[n] {
        var i :| 0 <= i < |s| && s[i].name == n;
        var j := LastColumn(s, i);
      }
    }
  }

  // ------------------------------------------------------------ writing

  type Record = map<string, string>

  datatype Table = Table(schema: Schema, rows: seq<Record>)

  datatype Mode = Create | Replace | Append | Unknown(text: string)

  datatype Error = AlreadyExists | SchemaMismatch | BadMode

  datatype Written = Ok(table: Table) | Err(error: Error)

  /** The commit that makes a table that was not there: it has no rows yet. */
  function NewTable(schema: Schema): Table {
    Table(Stored(schema), [])
  }

  function Appended(t: Table, rows: seq<Record>): Table {
    t.(rows := t.rows + rows)
  }

  /** What one whole write does to a label's table. */
  function Write(mode: Mode, existing: Option<Table>, schema: Schema, rows: seq<Record>): Written {
    match mode
    case Unknown(_) => Err(BadMode)
    case Create =>
      if existing.Some? then Err(AlreadyExists) else Ok(Appended(NewTable(schema), rows))
    case Replace =>
      if existing.None? then Ok(Appended(NewTable(schema), rows))
      else if !Compatible(existing.value.schema, schema) then Err(SchemaMismatch)
      else Ok(existing.value.(rows := rows))
    case Append =>
      if existing.None? then Ok(Appended(NewTable(schema), rows))
      else if !Compatible(existing.value.schema, schema) then Err(SchemaMismatch)
      else Ok(Appended(existing.value, rows))
  }

  /** How a call on the catalog ends; `Broken` is an infrastructure failure. */
  datatype Outcome = Done | Raised(error: Error) | Broken

  class Store {
    var tables: map<Key, Table>
    var commitsLeft: Option<nat>    // commits that still succeed; None while the store is healthy

    constructor ()
      ensures tables == map[] && commitsLeft == None
    {
      tables, commitsLeft := map[], None;
    }

    function Get(k: Key): Option<Table>
      reads this`tables
    {
      Lookup(tables, k)
    }

    /** One commit: the table becomes visible in its new state, or nothing happens. */
    method Commit(k: Key, t: Table) returns (ok: bool)
      modifies this
      ensures tables == if ok then old(tables)[k := t] else old(tables)
      ensures old(commitsLeft) == None ==> ok && commitsLeft == None
    {
      ok := commitsLeft != Some(0);
      if ok {
        tables := tables[k := t];
        if commitsLeft.Some? {
          commitsLeft := Some(commitsLeft.value - 1);
        }
      }
    }

    /** Making a table takes two commits: an empty table, then its rows. */
    method CreateAndAppend(k: Key, schema: Schema, rows: seq<Record>) returns (ok: bool)
      modifies this
      ensures ok ==> tables == old(tables)[k := Appended(NewTable(schema), rows)]
      ensures !ok ==> tables == old(tables) || tables == old(tables)[k := NewTable(schema)]
      ensures old(commitsLeft) == None ==> ok && commitsLeft == None
    {
      ok := Commit(k, NewTable(schema));
      if ok {
        ok := Commit(k, Appended(NewTable(schema), rows));
      }
    }

    /** A completed write is `Write`. A refused one changes nothing. A broken one left the table
      * as it was, or newly made and still empty. */
    method WriteArrow(k: Key, schema: Schema, rows: seq<Record>, mode: Mode) returns (r: Outcome)
      modifies this
      ensures
        var w := Write(mode, old(Get(k)), schema, rows);
        match r
        case Done => w.Ok? && tables == old(tables)[k := w.table]
        case Raised(e) => w == Err(e) && tables == old(tables)
        case Broken =>
          (w.Ok? && (tables == old(tables) ||
                     (k !in old(tables) && tables == old(tables)[k := NewTable(schema)])))
      ensures r == Raised(BadMode) <==> mode.Unknown?
      ensures r == Raised(AlreadyExists) <==> mode == Create && k in old(tables)
      ensures r == Raised(SchemaMismatch) <==>
        (mode == Replace || mode == Append) && k in old(tables) && !Compatible(old(tables)[k].schema, schema)
      ensures r == Done ==>
        tables == old(tables)[k := if k !in old(tables) then Table(Stored(schema), rows)
                                   else if mode == Append then Table(old(tables)[k].schema, old(tables)[k].rows + rows)
                                   else Table(old(tables)[k].schema, rows)]
      ensures (mode == Replace || mode == Append) && k in old(tables)
              && DistinctNames(old(tables)[k].schema) && DistinctNames(schema) && Retyped(old(tables)[k].schema, schema)
              ==> r == Raised(SchemaMismatch) && tables == old(tables)
      ensures old(commitsLeft) == None ==> r != Broken && commitsLeft == None
    {
      hide Compatible, Stored, Retyped, DistinctNames;
      if k in tables && DistinctNames(tables[k].schema) && DistinctNames(schema) {
        CompatibleInWords(tables[k].schema, schema);
      }
      assert [] + rows == rows;
      var existing := Get(k);
      var ok;
      match mode
      case Create =>
        if existing.Some? {
          return Raised(AlreadyExists);
        }
        ok := CreateAndAppend(k, schema, rows);
        r := if ok then Done else Broken;
      case Replace =>
        if existing.Some? {
          if !Compatible(existing.value.schema, schema) {
            return Raised(SchemaMismatch);
          }
          ok := Commit(k, existing.value.(rows := rows));
        } else {
          ok := CreateAndAppend(k, schema, rows);
        }
        r := if ok then Done else Broken;
      case Append =>
        if existing.Some? {
          if !Compatible(existing.value.schema, schema) {
            return Raised(SchemaMismatch);
          }
          ok := Commit(k, Appended(existing.value, rows));
        } else {
          ok := CreateAndAppend(k, schema, rows);
        }
        r := if ok then Done else Broken;
      case Unknown(_) =>
        r := Raised(BadMode);
    }

    method DropTable(k: Key) returns (found: bool)
      modifies this`tables
      ensures found <==> k in old(tables)
      ensures tables == old(tables) - {k}
    {
      found := k in tables;
      tables := tables - {k};
    }
  }

  // ------------------------------------------------------------ schemas over runs

  /** What happens to one label between two forgets. */
  datatype Step =
    | Ingest(mode: Mode, schema: Schema, rows: seq<Record>)   // ingest or one flush of an upload
    | Interrupted(schema: Schema)                             // a making write that broke after its first commit
    | DeriveCreate(schema: Schema, rows: seq<Record>)
    | DeriveReplace(schema: Schema, rows: seq<Record>)

  function Apply(existing: Option<Table>, step: Step): Option<Table> {
    match step
    case Ingest(mode, schema, rows) =>
      (match Write(mode, existing, schema, rows)
       case Ok(t) => Some(t)
       case Err(_) => existing)
    case Interrupted(schema) => if existing.None? then Some(NewTable(schema)) else existing
    case DeriveCreate(schema, rows) => if existing.None? then Some(Table(Stored(schema), rows)) else existing
    case DeriveReplace(schema, rows) =>
      if existing.None? || ColumnNames(existing.value.schema) == ColumnNames(schema)
      then Some(Table(Stored(schema), rows)) else existing
  }

  function Run(existing: Option<Table>, steps: seq<Step>): Option<Table> {
    if steps == [] then existing else Apply(Run(existing, steps[..|steps| - 1]), steps[|steps| - 1])
  }

  predicate OnlyIngests(steps: seq<Step>) {
    forall s :: s in steps ==> s.Ingest? || s.Interrupted?
  }

  /** While a label is not forgotten its columns stay what they were: names and canonical types
    * under any run of ingests, names under any run of ingests and derives. */
  lemma {:induction false} SchemaIsStable(t: Table, steps: seq<Step>)
    ensures Run(Some(t), steps).Some?
    ensures OnlyIngests(steps) ==> Run(Some(t), steps).value.schema == t.schema
    ensures ColumnNames(Run(Some(t), steps).value.schema) == ColumnNames(t.schema)
  {
    if steps != [] {
      var front, last := steps[..|steps| - 1], steps[|steps| - 1];
      assert last in steps && forall s :: s in front ==> s in steps;
      SchemaIsStable(t, front);
      if last.DeriveReplace? {
        StoredNames(last.schema);
      }
    }
  }

  /** On a table with this schema the step is a write in this mode that is not refused. */
  predicate Takes(schema: Schema, step: Step, mode: Mode) {
    step.Ingest? && step.mode == mode && Compatible(schema, step.schema)
  }

  /** The position after the last replace that is taken; 0 if there is none. */
  function LastReplace(schema: Schema, steps: seq<Step>): (r: nat)
    ensures r <= |steps| && (r > 0 ==> Takes(schema, steps[r - 1], Replace))
  {
    if steps == [] then 0
    else if Takes(schema, steps[|steps| - 1], Replace) then |steps|
    else LastReplace(schema, steps[..|steps| - 1])
  }

  /** The rows of the appends that are taken from position `i` on, in order. */
  function AppendedFrom(schema: Schema, steps: seq<Step>, i: nat): seq<Record> {
    if |steps| <= i then []
    else
      var last := steps[|steps| - 1];
      AppendedFrom(schema, steps[..|steps| - 1], i) + if Takes(schema, last, Append) then last.rows else []
  }

  /** The rows of the last replace that is taken (or the first rows, if none is), followed by everything
    * appended since, in order. */
  function Contents(schema: Schema, first: seq<Record>, steps: seq<Step>): seq<Record> {
    var r := LastReplace(schema, steps);
    (if r > 0 then steps[r - 1].rows else first) + AppendedFrom(schema, steps, r)
  }

  lemma ContentsGrow(schema: Schema, first: seq<Record>, steps: seq<Step>)
    requires steps != []
    ensures var front, last := steps[..|steps| - 1], steps[|steps| - 1];
      Contents(schema, first, steps) ==
      if Takes(schema, last, Replace) then last.rows
      else if Takes(schema, last, Append) then Contents(schema, first, front) + last.rows
      else Contents(schema, first, front)
  {
    hide Compatible;
    var front, last := steps[..|steps| - 1], steps[|steps| - 1];
    var r := LastReplace(schema, steps);
    if r == |steps| {
      assert AppendedFrom(schema, steps, r) == [];
      assert last.rows + [] == last.rows;
    } else {
      var base := if r > 0 then steps[r - 1].rows else first;
      var before := AppendedFrom(schema, front, r);
      assert r > 0 ==> steps[r - 1] == front[r - 1];
      if Takes(schema, last, Append) {
        assert AppendedFrom(schema, steps, r) == before + last.rows;
        hide AppendedFrom;
        assert base + (before + last.rows) == (base + before) + last.rows;
      } else {
        assert AppendedFrom(schema, steps, r) == before + [] == before;
      }
    }
  }

  /** What each step of a run does to a table that is there: it is taken, or nothing changes. */
  lemma TakenOrNothing(t: Table, step: Step)
    requires step.Ingest? || step.Interrupted?
    ensures Apply(Some(t), step) ==
      Some(if Takes(t.schema, step, Replace) then t.(rows := step.rows)
           else if Takes(t.schema, step, Append) then t.(rows := t.rows + step.rows)
           else t)
  {
  }

  /** Over any run of ingests, refused and broken ones included, a table that was there keeps its schema
    * and holds what the steps that were taken put there. */
  lemma {:induction false} ContentsOverRuns(t: Table, steps: seq<Step>)
    requires OnlyIngests(steps)
    ensures Run(Some(t), steps) == Some(Table(t.schema, Contents(t.schema, t.rows, steps)))
  {
    if steps == [] {
      assert t.rows + [] == t.rows;
    } else {
      var front, last := steps[..|steps| - 1], steps[|steps| - 1];
      assert last in steps && forall s :: s in front ==> s in steps;
      ContentsOverRuns(t, front);
      ContentsGrow(t.schema, t.rows, steps);
      TakenOrNothing(Run(Some(t), front).value, last);
      hide Apply, Takes, Contents;
    }
  }

  lemma StoredNames(s: Schema)
    ensures ColumnNames(Stored(s)) == ColumnNames(s)
  {
    assert forall i :: 0 <= i < |s| ==> Stored(s)[i].name == s[i].name;
    forall n | n in ColumnNames(s) ensures n in ColumnNames(Stored(s)) {
      var i :| 0 <= i < |s| && s[i].name == n;
      assert Stored(s)[i].name == n;
    }
  }

  /** Whatever ingests came since a table was made, a rewrite is accepted exactly when its schema is
    * compatible with what the schema it was made in reads back as. The same schema is accepted if and
    * only if its list items are called as stored, and then any schema is if it is compatible with it. */
  lemma RewriteAccepted(made: Schema, first: seq<Record>, steps: seq<Step>, schema: Schema, rows: seq<Record>, mode: Mode)
    requires KnownSchema(made) && OnlyIngests(steps)
    requires mode == Replace || mode == Append
    ensures var now := Run(Some(Appended(NewTable(made), first)), steps);
      && (Write(mode, now, schema, rows).Ok? <==> Compatible(Stored(made), schema))
      && (Write(mode, now, made, rows).Ok? <==> ReadsBack(made))
      && (ReadsBack(made) ==> (Write(mode, now, schema, rows).Ok? <==> Compatible(made, schema)))
  {
    SchemaIsStable(Appended(NewTable(made), first), steps);
    StoredTypeMap(made);
    hide ReadsBack, Run;
  }
}
