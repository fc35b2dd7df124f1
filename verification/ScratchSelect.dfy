/** The SELECT over a VALUES list that loads an inline table into the scratchpad.
  *
  * `ScratchSelect` prints a table as SQL text. `ReadSelect` lexes and parses such a text and
  * evaluates it; reading what was printed gives back the table.
  */
module ScratchSelect {
  import opened Common
  import opened SqlText

  datatype Cell = Null | Text(s: string) | Integer(i: int) | Boolean(b: bool)

  datatype ColumnType = BooleanType | BigintType | VarcharType

  datatype Column = Column(name: string, typ: ColumnType)

  /** An inline table: for each row a cell per column. Names can repeat. */
  datatype InlineTable = InlineTable(cols: seq<Column>, rows: seq<seq<Cell>>)

  predicate Conforms(c: Cell, typ: ColumnType) {
    match c
    case Null => true
    case Text(_) => typ.VarcharType?
    case Integer(_) => typ.BigintType?
    case Boolean(_) => typ.BooleanType?
  }

  /** Rows have a cell of the right type for every column. */
  predicate Conforming(cols: seq<Column>, rows: seq<seq<Cell>>) {
    forall r :: 0 <= r < |rows| ==>
      |rows[r]| == |cols| && forall i :: 0 <= i < |cols| ==> Conforms(rows[r][i], cols[i].typ)
  }

  predicate WellFormed(t: InlineTable) {
    Conforming(t.cols, t.rows)
  }

  // ------------------------------------------------------------ printing

  function TypeName(typ: ColumnType): string {
    match typ
    case BooleanType => "BOOLEAN"
    case BigintType => "BIGINT"
    case VarcharType => "VARCHAR"
  }

  function ColumnVariable(i: nat): string {
    "c" + Digits(i)
  }

  function LiteralText(c: Cell): string {
    match c
    case Null => "NULL"
    case Boolean(b) => if b then "true" else "false"
    case Integer(i) => DecimalText(i)
    case Text(s) => "'" + Escaped(s) + "'"
  }

  function DecimalText(i: int): string {
    if i < 0 then "-" + Digits(-i) else Digits(i)
  }

  function ColumnText(i: nat, c: Column): string {
    "CAST(" + ColumnVariable(i) + " AS " + TypeName(c.typ) + ") AS " + ("\"" + c.name + "\"")
  }

  function ColumnTexts(cols: seq<Column>): seq<string> {
    seq(|cols|, i requires 0 <= i < |cols| => ColumnText(i, cols[i]))
  }

  function VariableTexts(n: nat): seq<string> {
    seq(n, i requires 0 <= i < n => ColumnVariable(i))
  }

  function LiteralTexts(cells: seq<Cell>): seq<string> {
    seq(|cells|, i requires 0 <= i < |cells| => LiteralText(cells[i]))
  }

  function RowText(cells: seq<Cell>): string {
    "(" + Join(LiteralTexts(cells), ", ") + ")"
  }

  function RowTexts(rows: seq<seq<Cell>>): seq<string> {
    seq(|rows|, i requires 0 <= i < |rows| => RowText(rows[i]))
  }

  function SelectText(cols: seq<Column>, rows: seq<seq<Cell>>): string {
    "SELECT " + Join(ColumnTexts(cols), ", ") + " FROM (VALUES " + Join(RowTexts(rows), ", ") + ") AS _v("
      + Join(VariableTexts(|cols|), ", ") + ")"
  }

  function NullCells(n: nat): seq<Cell> {
    seq(n, i => Null)
  }

  // ------------------------------------------------------------ rows as dictionaries

  /** A row as the printer sees it: cell by column name. Of columns with one name the last is left. */
  function Dict(cols: seq<Column>, cells: seq<Cell>): (d: map<string, Cell>)
    requires |cells| == |cols|
    ensures forall i :: 0 <= i < |cols| ==> cols[i].name in d
  {
    if cols == [] then map[]
    else
      var last := |cols| - 1;
      Dict(cols[..last], cells[..last])[cols[last].name := cells[last]]
  }

  /** The integer that the host language reads from a text, if it reads one. */
  type IntReader = string -> Option<int>

  predicate Truthy(v: Cell) {
    match v
    case Null => false
    case Boolean(b) => b
    case Integer(i) => i != 0
    case Text(s) => s != ""
  }

  function AsInt(v: Cell, intOf: IntReader): Option<int> {
    match v
    case Null => None
    case Boolean(b) => Some(if b then 1 else 0)
    case Integer(i) => Some(i)
    case Text(s) => intOf(s)
  }

  function AsText(v: Cell): string {
    match v
    case Null => "None"
    case Boolean(b) => if b then "True" else "False"
    case Integer(i) => DecimalText(i)
    case Text(s) => s
  }

  /** The literal for a value in a column of this type; None when the value cannot be converted. */
  function Literal(v: Cell, typ: ColumnType, intOf: IntReader): Option<string> {
    if v.Null? then Some("NULL")
    else
      match typ
      case BooleanType => Some(if Truthy(v) then "true" else "false")
      case BigintType => (match AsInt(v, intOf) case Some(i) => Some(DecimalText(i)) case None => None)
      case VarcharType => Some("'" + Escaped(AsText(v)) + "'")
  }

  /** The cell that such a literal stands for. */
  function Coerced(v: Cell, typ: ColumnType, intOf: IntReader): Option<Cell> {
    if v.Null? then Some(Null)
    else
      match typ
      case BooleanType => Some(Boolean(Truthy(v)))
      case BigintType => (match AsInt(v, intOf) case Some(i) => Some(Integer(i)) case None => None)
      case VarcharType => Some(Text(AsText(v)))
  }

  /** A literal prints the cell of the column's type; a cell of that type is printed as it is. */
  lemma LiteralPrintsCoerced(v: Cell, typ: ColumnType, intOf: IntReader)
    ensures Literal(v, typ, intOf) ==
      match Coerced(v, typ, intOf) case Some(c) => Some(LiteralText(c)) case None => None
    ensures Coerced(v, typ, intOf).Some? ==> Conforms(Coerced(v, typ, intOf).value, typ)
    ensures Conforms(v, typ) ==> Coerced(v, typ, intOf) == Some(v)
  {
  }

  /** The conversions in words: a null stays one; only zero, the empty text and false are false; a boolean
    * counts as 1 or 0; and as a text a boolean is its name and an integer its decimal digits. */
  lemma CoercedInWords(v: Cell, intOf: IntReader)
    ensures forall typ :: Coerced(Null, typ, intOf) == Some(Null)
    ensures v != Null ==>
      Coerced(v, BooleanType, intOf) == Some(Boolean(v != Boolean(false) && v != Integer(0) && v != Text("")))
    ensures v.Boolean? ==> Coerced(v, BigintType, intOf) == Some(Integer(if v.b then 1 else 0))
    ensures v.Integer? ==> Coerced(v, BigintType, intOf) == Some(v)
    ensures v.Text? ==> Coerced(v, BigintType, intOf) == if intOf(v.s).None? then None else Some(Integer(intOf(v.s).value))
    ensures v.Boolean? ==> Coerced(v, VarcharType, intOf) == Some(Text(if v.b then "True" else "False"))
    ensures v.Text? ==> Coerced(v, VarcharType, intOf) == Some(v)
    ensures v.Integer? && v.i >= 0 ==> exists s :: Coerced(v, VarcharType, intOf) == Some(Text(s)) && NatOf(s) == Some(v.i)
    ensures v.Integer? && v.i < 0 ==> exists s :: Coerced(v, VarcharType, intOf) == Some(Text("-" + s)) && NatOf(s) == Some(-v.i)
  {
    if v.Integer? {
      DigitsReadBack(if v.i < 0 then -v.i else v.i);
      hide Digits, NatOf;
      if v.i < 0 {
        assert Coerced(v, VarcharType, intOf) == Some(Text("-" + Digits(-v.i)));
      } else {
        assert Coerced(v, VarcharType, intOf) == Some(Text(Digits(v.i)));
      }
    }
  }

  /** The cells printed for the columns `fields` from a row's dictionary. */
  function PrintedCells(d: map<string, Cell>, fields: seq<Column>, intOf: IntReader): Option<seq<Cell>>
    requires forall i :: 0 <= i < |fields| ==> fields[i].name in d
  {
    if fields == [] then Some([])
    else
      var last := |fields| - 1;
      match (PrintedCells(d, fields[..last], intOf), Coerced(d[fields[last].name], fields[last].typ, intOf))
      case (Some(front), Some(c)) => Some(front + [c])
      case _ => None
  }

  function PrintedRow(cols: seq<Column>, cells: seq<Cell>, intOf: IntReader): Option<seq<Cell>>
    requires |cells| == |cols|
  {
    PrintedCells(Dict(cols, cells), cols, intOf)
  }

  function PrintedRows(cols: seq<Column>, rows: seq<seq<Cell>>, intOf: IntReader): Option<seq<seq<Cell>>>
    requires forall r :: 0 <= r < |rows| ==> |rows[r]| == |cols|
  {
    if rows == [] then Some([])
    else
      var last := |rows| - 1;
      match (PrintedRows(cols, rows[..last], intOf), PrintedRow(cols, rows[last], intOf))
      case (Some(front), Some(row)) => Some(front + [row])
      case _ => None
  }

  function StatementText(cols: seq<Column>, rows: seq<seq<Cell>>): string {
    if rows == [] then SelectText(cols, [NullCells(|cols|)]) + " WHERE false" else SelectText(cols, rows)
  }

  /** The statement; None when some value cannot be converted. */
  function ScratchText(t: InlineTable, intOf: IntReader): Option<string>
    requires WellFormed(t)
  {
    match PrintedRows(t.cols, t.rows, intOf)
    case None => None
    case Some(rows) => Some(StatementText(t.cols, rows))
  }

  /** The literals of one row. */
  method RowLiterals(d: map<string, Cell>, cols: seq<Column>, intOf: IntReader) returns (vals: Option<seq<string>>)
    requires forall i :: 0 <= i < |cols| ==> cols[i].name in d
    ensures vals == match PrintedCells(d, cols, intOf) case Some(cells) => Some(LiteralTexts(cells)) case None => None
  {
    var texts: seq<string> := [];
    var i := 0;
    assert cols[..0] == [];
    while i < |cols|
      invariant 0 <= i <= |cols|
      invariant PrintedCells(d, cols[..i], intOf).Some? && texts == LiteralTexts(PrintedCells(d, cols[..i], intOf).value)
    {
      assert cols[..i + 1][..i] == cols[..i];
      LiteralPrintsCoerced(d[cols[i].name], cols[i].typ, intOf);
      var text := Literal(d[cols[i].name], cols[i].typ, intOf);
      if text.None? {
        PrintedFailsAt(d, cols, i, intOf);
        return None;
      }
      texts := texts + [text.value];
      i := i + 1;
    }
    assert cols[..i] == cols;
    vals := Some(texts);
  }

  lemma {:induction false} PrintedFailsAt(d: map<string, Cell>, fields: seq<Column>, i: nat, intOf: IntReader)
    requires i < |fields| && forall j :: 0 <= j < |fields| ==> fields[j].name in d
    requires Coerced(d[fields[i].name], fields[i].typ, intOf).None?
    ensures PrintedCells(d, fields, intOf).None?
  {
    if i < |fields| - 1 {
      PrintedFailsAt(d, fields[..|fields| - 1], i, intOf);
    }
  }

  lemma {:induction false} RowsFailAt(cols: seq<Column>, rows: seq<seq<Cell>>, i: nat, intOf: IntReader)
    requires i < |rows| && forall r :: 0 <= r < |rows| ==> |rows[r]| == |cols|
    requires PrintedRow(cols, rows[i], intOf).None?
    ensures PrintedRows(cols, rows, intOf).None?
  {
    if i < |rows| - 1 {
      RowsFailAt(cols, rows[..|rows| - 1], i, intOf);
    }
  }

  /** Builds the statement, one parenthesized list of literals per row. */
  method ScratchSelect(t: InlineTable, intOf: IntReader) returns (sql: Option<string>)
    requires WellFormed(t)
    ensures sql == ScratchText(t, intOf)
  {
    var cols, names := Join(ColumnTexts(t.cols), ", "), Join(VariableTexts(|t.cols|), ", ");
    if t.rows == [] {
      assert RowTexts([NullCells(|t.cols|)]) == [RowText(NullCells(|t.cols|))];
      return Some("SELECT " + cols + " FROM (VALUES " + RowText(NullCells(|t.cols|)) + ") AS _v(" + names + ")" + " WHERE false");
    }
    var rows: seq<string> := [];
    var i := 0;
    assert t.rows[..0] == [];
    while i < |t.rows|
      invariant 0 <= i <= |t.rows|
      invariant PrintedRows(t.cols, t.rows[..i], intOf).Some?
      invariant |PrintedRows(t.cols, t.rows[..i], intOf).value| == i
      invariant rows == RowTexts(PrintedRows(t.cols, t.rows[..i], intOf).value)
    {
      assert t.rows[..i + 1][..i] == t.rows[..i];
      var vals := RowLiterals(Dict(t.cols, t.rows[i]), t.cols, intOf);
      if vals.None? {
        RowsFailAt(t.cols, t.rows, i, intOf);
        return None;
      }
      rows := rows + ["(" + Join(vals.value, ", ") + ")"];
      i := i + 1;
    }
    assert t.rows[..i] == t.rows;
    sql := Some("SELECT " + cols + " FROM (VALUES " + Join(rows, ", ") + ") AS _v(" + names + ")");
  }

  // ------------------------------------------------------------ reading

  /** One output column: the VALUES column it casts, the type and the name. */
  datatype Item = Item(source: string, typ: string, name: string)

  function ParseItem(ts: seq<Token>): Option<(Item, seq<Token>)> {
    if |ts| >= 8 && ts[0] == Word("CAST") && ts[1] == Punct('(') && ts[2].Word? && ts[3] == Word("AS") && ts[4].Word?
       && ts[5] == Punct(')') && ts[6] == Word("AS") && ts[7].QuotedName?
    then Some((Item(ts[2].w, ts[4].w, ts[7].s), ts[8..]))
    else None
  }

  function ParseVariable(ts: seq<Token>): Option<(string, seq<Token>)> {
    if ts != [] && ts[0].Word? then Some((ts[0].w, ts[1..])) else None
  }

  function ParseLiteral(ts: seq<Token>): Option<(Cell, seq<Token>)> {
    if ts == [] then None
    else
      match ts[0]
      case StringLit(s) => Some((Text(s), ts[1..]))
      case Word(w) =>
        if w == "NULL" then Some((Null, ts[1..]))
        else if w == "true" then Some((Boolean(true), ts[1..]))
        else if w == "false" then Some((Boolean(false), ts[1..]))
        else (match NatOf(w) case Some(n) => Some((Integer(n), ts[1..])) case None => None)
      case Punct(c) =>
        if c == '-' && |ts| > 1 && ts[1].Word? then
          (match NatOf(ts[1].w) case Some(n) => Some((Negative(n), ts[2..])) case None => None)
        else None
      case _ => None
  }

  function Negative(n: nat): Cell {
    Integer(0 - n as int)
  }

  function ParseRow(ts: seq<Token>): Option<(seq<Cell>, seq<Token>)> {
    if ts == [] || ts[0] != Punct('(') then None
    else
      match Separated(t => ParseLiteral(t), ts[1..], |ts|)
      case None => None
      case Some((cells, rest)) => if rest != [] && rest[0] == Punct(')') then Some((cells, rest[1..])) else None
  }

  datatype Parsed = Parsed(items: seq<Item>, rows: seq<seq<Cell>>, variables: seq<string>, whereFalse: bool)

  predicate Begins(ts: seq<Token>, expected: seq<Token>) {
    |expected| <= |ts| && ts[..|expected|] == expected
  }

  const FromValues := [Word("FROM"), Punct('('), Word("VALUES")]
  const AsValues := [Punct(')'), Word("AS"), Word("_v"), Punct('(')]
  const WhereFalse := [Word("WHERE"), Word("false")]

  function ParseSelect(ts: seq<Token>): Option<Parsed> {
    if !Begins(ts, [Word("SELECT")]) then None
    else
      match Separated(t => ParseItem(t), ts[1..], |ts|)
      case None => None
      case Some((items, rest)) => ParseFrom(items, rest)
  }

  function ParseFrom(items: seq<Item>, ts: seq<Token>): Option<Parsed> {
    if !Begins(ts, FromValues) then None
    else
      match Separated(t => ParseRow(t), ts[3..], |ts|)
      case None => None
      case Some((rows, rest)) => ParseAs(items, rows, rest)
  }

  function ParseAs(items: seq<Item>, rows: seq<seq<Cell>>, ts: seq<Token>): Option<Parsed> {
    if !Begins(ts, AsValues) then None
    else
      match Separated(t => ParseVariable(t), ts[4..], |ts|)
      case None => None
      case Some((variables, rest)) =>
        if rest == [Punct(')')] then Some(Parsed(items, rows, variables, false))
        else if rest == [Punct(')')] + WhereFalse then Some(Parsed(items, rows, variables, true))
        else None
  }

  function IndexOf(names: seq<string>, name: string): Option<nat> {
    if names == [] then None
    else if names[0] == name then Some(0)
    else (match IndexOf(names[1..], name) case Some(i) => Some(i + 1) case None => None)
  }

  function TypeOf(name: string): Option<ColumnType> {
    if name == "BOOLEAN" then Some(BooleanType)
    else if name == "BIGINT" then Some(BigintType)
    else if name == "VARCHAR" then Some(VarcharType)
    else None
  }

  /** The value of a cast column in one row of VALUES; a value of another type is an error. */
  function CastCell(item: Item, variables: seq<string>, row: seq<Cell>): Option<Cell> {
    match IndexOf(variables, item.source)
    case None => None
    case Some(i) =>
      match TypeOf(item.typ)
      case None => None
      case Some(typ) => if i < |row| && Conforms(row[i], typ) then Some(row[i]) else None
  }

  /** What the statement evaluates to: column names, and for each row a cell per column. */
  datatype Answer = Answer(names: seq<string>, rows: seq<seq<Option<Cell>>>)

  function Evaluate(p: Parsed): Answer {
    Answer(seq(|p.items|, i requires 0 <= i < |p.items| => p.items[i].name),
           if p.whereFalse then []
           else seq(|p.rows|, i requires 0 <= i < |p.rows| =>
                      seq(|p.items|, j requires 0 <= j < |p.items| => CastCell(p.items[j], p.variables, p.rows[i]))))
  }

  function ReadSelect(sql: string): Option<Answer> {
    match ParseSelect(Lex(sql))
    case None => None
    case Some(p) => Some(Evaluate(p))
  }

  // ------------------------------------------------------------ the tokens of what was printed

  function ItemOf(i: nat, c: Column): Item {
    Item(ColumnVariable(i), TypeName(c.typ), c.name)
  }

  function ItemTokens(i: nat, c: Column): seq<Token> {
    [Word("CAST"), Punct('('), Word(ColumnVariable(i)), Word("AS"), Word(TypeName(c.typ)), Punct(')'), Word("AS"), QuotedName(c.name)]
  }

  function LiteralTokens(c: Cell): seq<Token> {
    match c
    case Null => [Word("NULL")]
    case Boolean(b) => [Word(if b then "true" else "false")]
    case Integer(i) => if i < 0 then [Punct('-'), Word(Digits(-i))] else [Word(Digits(i))]
    case Text(s) => [StringLit(s)]
  }

  function AllItemTokens(cols: seq<Column>): seq<seq<Token>> {
    seq(|cols|, i requires 0 <= i < |cols| => ItemTokens(i, cols[i]))
  }

  function AllLiteralTokens(cells: seq<Cell>): seq<seq<Token>> {
    seq(|cells|, i requires 0 <= i < |cells| => LiteralTokens(cells[i]))
  }

  function RowTokens(cells: seq<Cell>): seq<Token> {
    [Punct('(')] + Join(AllLiteralTokens(cells), [Punct(',')]) + [Punct(')')]
  }

  function AllRowTokens(rows: seq<seq<Cell>>): seq<seq<Token>> {
    seq(|rows|, i requires 0 <= i < |rows| => RowTokens(rows[i]))
  }

  function VariableTokens(n: nat): seq<seq<Token>> {
    seq(n, i requires 0 <= i < n => [Word(ColumnVariable(i))])
  }

  function SelectTokens(cols: seq<Column>, rows: seq<seq<Cell>>): seq<Token> {
    [Word("SELECT")] + Join(AllItemTokens(cols), [Punct(',')]) + FromValues + Join(AllRowTokens(rows), [Punct(',')]) + AsValues
      + Join(VariableTokens(|cols|), [Punct(',')]) + [Punct(')')]
  }

  // ------------------------------------------------------------ printed text lexes to those tokens

  /** A keyword between spaces, a keyword and a parenthesis: the fixed parts of the text. */
  lemma KeywordThen(w: string, after: string, toks: seq<Token>)
    requires IsWord(w) && Free(after, toks) && after != "" && StopsWord(after)
    ensures Free(w + after, [Word(w)] + toks)
  {
    WordIsStopped(w);
    StoppedFree(w, [Word(w)], after, toks);
  }

  lemma FixedTexts()
    ensures Free("SELECT ", [Word("SELECT")])
    ensures Free("CAST(", [Word("CAST"), Punct('(')])
    ensures Free(" AS ", [Word("AS")])
    ensures Free(") AS ", [Punct(')'), Word("AS")])
    ensures Free(" FROM (VALUES ", FromValues)
    ensures Free(") AS _v(", AsValues)
    ensures Free("(", [Punct('(')]) && Free(")", [Punct(')')]) && Free("-", [Punct('-')])
    ensures Stopped(" WHERE false", WhereFalse)
  {
    hide *;
    ShortTexts();
    FromValuesText();
    AsValuesText();
    WhereFalseText();
  }

  lemma ShortTexts()
    ensures Free("SELECT ", [Word("SELECT")])
    ensures Free("CAST(", [Word("CAST"), Punct('(')])
    ensures Free(" AS ", [Word("AS")])
    ensures Free(") AS ", [Punct(')'), Word("AS")])
    ensures Free("(", [Punct('(')]) && Free(")", [Punct(')')]) && Free("-", [Punct('-')])
  {
    hide Free, Stopped;
    var none: seq<Token> := [];
    SpaceIsFree();
    PunctIsFree('(');
    PunctIsFree(')');
    PunctIsFree('-');
    assert "(" == ['('] && ")" == [')'] && "-" == ['-'];
    KeywordThen("SELECT", " ", none);
    assert "SELECT" + " " == "SELECT " && [Word("SELECT")] + none == [Word("SELECT")];
    KeywordThen("CAST", "(", [Punct('(')]);
    assert "CAST" + "(" == "CAST(" && [Word("CAST")] + [Punct('(')] == [Word("CAST"), Punct('(')];
    KeywordThen("AS", " ", none);
    assert "AS" + " " == "AS " && [Word("AS")] + none == [Word("AS")];
    FreeFree(" ", none, "AS ", [Word("AS")]);
    assert " " + "AS " == " AS " && none + [Word("AS")] == [Word("AS")];
    FreeFree(")", [Punct(')')], " AS ", [Word("AS")]);
    assert ")" + " AS " == ") AS " && [Punct(')')] + [Word("AS")] == [Punct(')'), Word("AS")];
  }

  lemma ValuesText()
    ensures Free(" (VALUES ", [Punct('('), Word("VALUES")])
  {
    hide Free, Stopped;
    var none: seq<Token> := [];
    SpaceIsFree();
    PunctIsFree('(');
    assert "(" == ['('];
    KeywordThen("VALUES", " ", none);
    assert "VALUES" + " " == "VALUES " && [Word("VALUES")] + none == [Word("VALUES")];
    FreeFree("(", [Punct('(')], "VALUES ", [Word("VALUES")]);
    assert "(" + "VALUES " == "(VALUES " && [Punct('(')] + [Word("VALUES")] == [Punct('('), Word("VALUES")];
    FreeFree(" ", none, "(VALUES ", [Punct('('), Word("VALUES")]);
    assert " " + "(VALUES " == " (VALUES " && none + [Punct('('), Word("VALUES")] == [Punct('('), Word("VALUES")];
  }

  lemma FromValuesText()
    ensures Free(" FROM (VALUES ", FromValues)
  {
    hide Free, Stopped;
    var none: seq<Token> := [];
    SpaceIsFree();
    ValuesText();
    KeywordThen("FROM", " (VALUES ", [Punct('('), Word("VALUES")]);
    assert "FROM" + " (VALUES " == "FROM (VALUES " && [Word("FROM")] + [Punct('('), Word("VALUES")] == FromValues;
    FreeFree(" ", none, "FROM (VALUES ", FromValues);
    assert " " + "FROM (VALUES " == " FROM (VALUES " && none + FromValues == FromValues;
  }

  lemma AsValuesText()
    ensures Free(") AS _v(", AsValues)
  {
    hide Free, Stopped;
    ShortTexts();
    KeywordThen("_v", "(", [Punct('(')]);
    assert "_v" + "(" == "_v(" && [Word("_v")] + [Punct('(')] == [Word("_v"), Punct('(')];
    FreeFree(") AS ", [Punct(')'), Word("AS")], "_v(", [Word("_v"), Punct('(')]);
    assert ") AS " + "_v(" == ") AS _v(" && [Punct(')'), Word("AS")] + [Word("_v"), Punct('(')] == AsValues;
  }

  lemma WhereFalseText()
    ensures Stopped(" WHERE false", WhereFalse)
  {
    hide Free, Stopped;
    var none: seq<Token> := [];
    SpaceIsFree();
    KeywordThen("WHERE", " ", none);
    assert "WHERE" + " " == "WHERE " && [Word("WHERE")] + none == [Word("WHERE")];
    FreeFree(" ", none, "WHERE ", [Word("WHERE")]);
    assert " " + "WHERE " == " WHERE " && none + [Word("WHERE")] == [Word("WHERE")];
    WordIsStopped("false");
    FreeStopped(" WHERE ", [Word("WHERE")], "false", [Word("false")]);
    assert " WHERE " + "false" == " WHERE false" && [Word("WHERE")] + [Word("false")] == WhereFalse;
  }

  lemma VariableIsWord(i: nat)
    ensures IsWord(ColumnVariable(i))
  {
    DigitsReadBack(i);
  }

  lemma ColumnLexes(i: nat, c: Column)
    requires PlainName(c.name)
    ensures Stopped(ColumnText(i, c), ItemTokens(i, c))
  {
    hide Free, Stopped;
    FixedTexts();
    VariableIsWord(i);
    var v, t, name := ColumnVariable(i), TypeName(c.typ), "\"" + c.name + "\"";
    assert IsWord(t);
    WordIsStopped(v);
    WordIsStopped(t);
    QuotedNameIsStopped(c.name);
    StoppedFree(v, [Word(v)], " AS ", [Word("AS")]);
    FreeFree("CAST(", [Word("CAST"), Punct('(')], v + " AS ", [Word(v)] + [Word("AS")]);
    StoppedFree(t, [Word(t)], ") AS ", [Punct(')'), Word("AS")]);
    FreeFree("CAST(" + (v + " AS "), [Word("CAST"), Punct('(')] + ([Word(v)] + [Word("AS")]),
             t + ") AS ", [Word(t)] + [Punct(')'), Word("AS")]);
    FreeStopped("CAST(" + (v + " AS ") + (t + ") AS "),
                [Word("CAST"), Punct('(')] + ([Word(v)] + [Word("AS")]) + ([Word(t)] + [Punct(')'), Word("AS")]),
                name, [QuotedName(c.name)]);
    assert "CAST(" + (v + " AS ") + (t + ") AS ") + name == ColumnText(i, c);
    assert [Word("CAST"), Punct('(')] + ([Word(v)] + [Word("AS")]) + ([Word(t)] + [Punct(')'), Word("AS")])
           + [QuotedName(c.name)] == ItemTokens(i, c);
  }

  lemma LiteralLexes(c: Cell)
    ensures Stopped(LiteralText(c), LiteralTokens(c))
  {
    hide Free, Stopped, Escaped, Lex;
    match c
    case Null => WordIsStopped("NULL");
    case Boolean(b) => WordIsStopped(if b then "true" else "false");
    case Text(s) => StringIsStopped(s);
    case Integer(i) =>
      var digits := Digits(if i < 0 then -i else i);
      DigitsReadBack(if i < 0 then -i else i);
      WordIsStopped(digits);
      if i < 0 {
        FixedTexts();
        FreeStopped("-", [Punct('-')], digits, [Word(digits)]);
        assert [Punct('-')] + [Word(digits)] == LiteralTokens(c);
      }
  }

  lemma RowLexes(cells: seq<Cell>)
    requires cells != []
    ensures Stopped(RowText(cells), RowTokens(cells)) && Free(RowText(cells), RowTokens(cells))
  {
    forall i | 0 <= i < |cells| ensures Stopped(LiteralTexts(cells)[i], AllLiteralTokens(cells)[i]) {
      LiteralLexes(cells[i]);
    }
    hide Free, Stopped;
    JoinedLexes(LiteralTexts(cells), AllLiteralTokens(cells));
    FixedTexts();
    var body, toks := Join(LiteralTexts(cells), ", "), Join(AllLiteralTokens(cells), [Punct(',')]);
    FreeStopped("(", [Punct('(')], body, toks);
    StoppedFree("(" + body, [Punct('(')] + toks, ")", [Punct(')')]);
    FreeIsStopped("(" + body + ")", [Punct('(')] + toks + [Punct(')')]);
  }

  /** The text of a table lexes to its tokens, up to the WHERE clause. */
  lemma SelectLexes(cols: seq<Column>, rows: seq<seq<Cell>>)
    requires cols != [] && rows != [] && forall i :: 0 <= i < |rows| ==> rows[i] != []
    requires forall i :: 0 <= i < |cols| ==> PlainName(cols[i].name)
    ensures Free(SelectText(cols, rows), SelectTokens(cols, rows))
  {
    forall i | 0 <= i < |cols| ensures Stopped(ColumnTexts(cols)[i], AllItemTokens(cols)[i]) {
      ColumnLexes(i, cols[i]);
    }
    forall i | 0 <= i < |rows| ensures Stopped(RowTexts(rows)[i], AllRowTokens(rows)[i]) {
      RowLexes(rows[i]);
    }
    forall i | 0 <= i < |cols| ensures Stopped(VariableTexts(|cols|)[i], VariableTokens(|cols|)[i]) {
      VariableIsWord(i);
      WordIsStopped(ColumnVariable(i));
    }
    hide Free, Stopped;
    JoinedLexes(ColumnTexts(cols), AllItemTokens(cols));
    JoinedLexes(RowTexts(rows), AllRowTokens(rows));
    JoinedLexes(VariableTexts(|cols|), VariableTokens(|cols|));
    FixedTexts();
    var a, ta := Join(ColumnTexts(cols), ", "), Join(AllItemTokens(cols), [Punct(',')]);
    var b, tb := Join(RowTexts(rows), ", "), Join(AllRowTokens(rows), [Punct(',')]);
    var c, tc := Join(VariableTexts(|cols|), ", "), Join(VariableTokens(|cols|), [Punct(',')]);
    PartsLex(a, ta, b, tb, c, tc);
  }

  lemma PartsLex(a: string, ta: seq<Token>, b: string, tb: seq<Token>, c: string, tc: seq<Token>)
    requires Stopped(a, ta) && Stopped(b, tb) && Stopped(c, tc)
    ensures Free("SELECT " + a + " FROM (VALUES " + b + ") AS _v(" + c + ")",
                 [Word("SELECT")] + ta + FromValues + tb + AsValues + tc + [Punct(')')])
  {
    hide Free, Stopped;
    FixedTexts();
    FreeStopped("SELECT ", [Word("SELECT")], a, ta);
    StoppedFree("SELECT " + a, [Word("SELECT")] + ta, " FROM (VALUES ", FromValues);
    FreeStopped("SELECT " + a + " FROM (VALUES ", [Word("SELECT")] + ta + FromValues, b, tb);
    StoppedFree("SELECT " + a + " FROM (VALUES " + b, [Word("SELECT")] + ta + FromValues + tb, ") AS _v(", AsValues);
    FreeStopped("SELECT " + a + " FROM (VALUES " + b + ") AS _v(", [Word("SELECT")] + ta + FromValues + tb + AsValues, c, tc);
    StoppedFree("SELECT " + a + " FROM (VALUES " + b + ") AS _v(" + c, [Word("SELECT")] + ta + FromValues + tb + AsValues + tc,
                ")", [Punct(')')]);
  }

  // ------------------------------------------------------------ those tokens parse back

  lemma LiteralParses(c: Cell)
    ensures Parses(t => ParseLiteral(t), LiteralTokens(c), c)
  {
    forall rest ensures ParseLiteral(LiteralTokens(c) + rest) == Some((c, rest)) {
      var ts := LiteralTokens(c) + rest;
      match c
      case Integer(i) =>
        DigitsReadBack(if i < 0 then -i else i);
        if i < 0 {
          assert ts[0] == Punct('-') && ts[1] == Word(Digits(-i)) && ts[2..] == rest;
        } else {
          assert ts[0] == Word(Digits(i)) && ts[1..] == rest;
          assert IsDigit(Digits(i)[0]);
        }
      case _ => assert ts[1..] == rest;
    }
  }

  lemma RowParses(cells: seq<Cell>)
    requires cells != []
    ensures Parses(t => ParseRow(t), RowTokens(cells), cells)
  {
    var parts := AllLiteralTokens(cells);
    forall i | 0 <= i < |parts| ensures Parses(t => ParseLiteral(t), parts[i], cells[i]) {
      LiteralParses(cells[i]);
    }
    JoinTokensLength(parts);
    forall rest ensures ParseRow(RowTokens(cells) + rest) == Some((cells, rest)) {
      var ts, tail := RowTokens(cells) + rest, [Punct(')')] + rest;
      assert ts[1..] == Join(parts, [Punct(',')]) + tail;
      SeparatedParses(t => ParseLiteral(t), parts, cells, tail, |ts|);
      assert tail[1..] == rest;
    }
  }

  lemma ItemParses(i: nat, c: Column)
    ensures Parses(t => ParseItem(t), ItemTokens(i, c), ItemOf(i, c))
  {
    forall rest ensures ParseItem(ItemTokens(i, c) + rest) == Some((ItemOf(i, c), rest)) {
      assert (ItemTokens(i, c) + rest)[8..] == rest;
    }
  }

  lemma VariableParses(v: string)
    ensures Parses(t => ParseVariable(t), [Word(v)], v)
  {
    forall rest ensures ParseVariable([Word(v)] + rest) == Some((v, rest)) {
      assert ([Word(v)] + rest)[1..] == rest;
    }
  }

  function Items(cols: seq<Column>): seq<Item> {
    seq(|cols|, i requires 0 <= i < |cols| => ItemOf(i, cols[i]))
  }

  lemma ItemListParses(cols: seq<Column>, rest: seq<Token>, fuel: nat)
    requires cols != [] && fuel >= |cols| && rest != [] && rest[0] != Punct(',')
    ensures Separated(t => ParseItem(t), Join(AllItemTokens(cols), [Punct(',')]) + rest, fuel) == Some((Items(cols), rest))
  {
    forall i | 0 <= i < |cols| ensures Parses(t => ParseItem(t), AllItemTokens(cols)[i], Items(cols)[i]) {
      ItemParses(i, cols[i]);
    }
    SeparatedParses(t => ParseItem(t), AllItemTokens(cols), Items(cols), rest, fuel);
  }

  lemma RowListParses(rows: seq<seq<Cell>>, rest: seq<Token>, fuel: nat)
    requires rows != [] && fuel >= |rows| && rest != [] && rest[0] != Punct(',')
    requires forall i :: 0 <= i < |rows| ==> rows[i] != []
    ensures Separated(t => ParseRow(t), Join(AllRowTokens(rows), [Punct(',')]) + rest, fuel) == Some((rows, rest))
  {
    forall i | 0 <= i < |rows| ensures Parses(t => ParseRow(t), AllRowTokens(rows)[i], rows[i]) {
      RowParses(rows[i]);
    }
    SeparatedParses(t => ParseRow(t), AllRowTokens(rows), rows, rest, fuel);
  }

  lemma VariableListParses(n: nat, rest: seq<Token>, fuel: nat)
    requires n > 0 && fuel >= n && rest != [] && rest[0] != Punct(',')
    ensures Separated(t => ParseVariable(t), Join(VariableTokens(n), [Punct(',')]) + rest, fuel) == Some((VariableTexts(n), rest))
  {
    forall i | 0 <= i < n ensures Parses(t => ParseVariable(t), VariableTokens(n)[i], VariableTexts(n)[i]) {
      VariableParses(ColumnVariable(i));
    }
    SeparatedParses(t => ParseVariable(t), VariableTokens(n), VariableTexts(n), rest, fuel);
  }

  function WhereTokens(whereFalse: bool): seq<Token> {
    if whereFalse then WhereFalse else []
  }

  lemma AsParses(items: seq<Item>, rows: seq<seq<Cell>>, n: nat, whereFalse: bool)
    requires n > 0
    ensures ParseAs(items, rows, AsValues + (Join(VariableTokens(n), [Punct(',')]) + ([Punct(')')] + WhereTokens(whereFalse))))
         == Some(Parsed(items, rows, VariableTexts(n), whereFalse))
  {
    var last := [Punct(')')] + WhereTokens(whereFalse);
    var ts := AsValues + (Join(VariableTokens(n), [Punct(',')]) + last);
    hide VariableTexts;
    JoinTokensLength(VariableTokens(n));
    VariableListParses(n, last, |ts|);
    hide Join, VariableTokens, Separated;
    assert Begins(ts, AsValues) && ts[4..] == Join(VariableTokens(n), [Punct(',')]) + last;
    assert |[Punct(')')] + WhereFalse| == 3;
  }

  lemma FromParses(items: seq<Item>, rows: seq<seq<Cell>>, ts2: seq<Token>)
    requires rows != [] && forall i :: 0 <= i < |rows| ==> rows[i] != []
    requires Begins(ts2, AsValues)
    ensures ParseFrom(items, FromValues + (Join(AllRowTokens(rows), [Punct(',')]) + ts2)) == ParseAs(items, rows, ts2)
  {
    var ts := FromValues + (Join(AllRowTokens(rows), [Punct(',')]) + ts2);
    JoinTokensLength(AllRowTokens(rows));
    assert ts2[0] == AsValues[0];
    RowListParses(rows, ts2, |ts|);
    hide Join, AllRowTokens, Separated, ParseAs;
    assert Begins(ts, FromValues) && ts[3..] == Join(AllRowTokens(rows), [Punct(',')]) + ts2;
  }

  lemma Regrouped<T>(a: seq<T>, b: seq<T>, c: seq<T>, d: seq<T>, e: seq<T>, f: seq<T>, g: seq<T>, h: seq<T>)
    ensures (a + b + c + d + e + f + g) + h == a + (b + (c + (d + (e + (f + (g + h))))))
  {
    assert (a + b + c) + d + e + f + g + h == (a + b + c) + (d + (e + (f + (g + h))));
  }

  lemma SelectParses(cols: seq<Column>, rows: seq<seq<Cell>>, whereFalse: bool)
    requires cols != [] && rows != [] && forall i :: 0 <= i < |rows| ==> rows[i] != []
    ensures ParseSelect(SelectTokens(cols, rows) + WhereTokens(whereFalse))
         == Some(Parsed(Items(cols), rows, VariableTexts(|cols|), whereFalse))
  {
    var ts2 := AsValues + (Join(VariableTokens(|cols|), [Punct(',')]) + ([Punct(')')] + WhereTokens(whereFalse)));
    var ts1 := FromValues + (Join(AllRowTokens(rows), [Punct(',')]) + ts2);
    var ts := [Word("SELECT")] + (Join(AllItemTokens(cols), [Punct(',')]) + ts1);
    JoinTokensLength(AllItemTokens(cols));
    ItemListParses(cols, ts1, |ts|);
    hide Join, AllRowTokens, AllItemTokens, VariableTokens, Separated, ParseAs, ParseFrom, WhereTokens, Items, VariableTexts;
    Regrouped([Word("SELECT")], Join(AllItemTokens(cols), [Punct(',')]), FromValues, Join(AllRowTokens(rows), [Punct(',')]), AsValues,
              Join(VariableTokens(|cols|), [Punct(',')]), [Punct(')')], WhereTokens(whereFalse));
    assert Begins(ts2, AsValues);
    FromParses(Items(cols), rows, ts2);
    AsParses(Items(cols), rows, |cols|, whereFalse);
    assert Begins(ts, [Word("SELECT")]) && ts[1..] == Join(AllItemTokens(cols), [Punct(',')]) + ts1;
  }

  // ------------------------------------------------------------ and evaluate to the table

  lemma {:induction false} FoundAt(names: seq<string>, i: nat)
    requires i < |names| && NoDuplicates(names)
    ensures IndexOf(names, names[i]) == Some(i)
  {
    if i > 0 {
      FoundAt(names[1..], i - 1);
    }
  }

  /** c0, c1, c2, ... are different names. */
  lemma VariablesAreDistinct(n: nat)
    ensures NoDuplicates(VariableTexts(n))
  {
    forall i, j | 0 <= i < j < n ensures ColumnVariable(i) != ColumnVariable(j) {
      DigitsReadBack(i);
      DigitsReadBack(j);
      assert ColumnVariable(i)[1..] == Digits(i) && ColumnVariable(j)[1..] == Digits(j);
    }
  }

  /** A table as the answer of a query. */
  function AnswerOf(cols: seq<Column>, rows: seq<seq<Cell>>): Answer
    requires Conforming(cols, rows)
  {
    Answer(seq(|cols|, i requires 0 <= i < |cols| => cols[i].name),
           seq(|rows|, i requires 0 <= i < |rows| =>
             seq(|cols|, j requires 0 <= j < |cols| => Some(rows[i][j]))))
  }

  function Expected(t: InlineTable): Answer
    requires WellFormed(t)
  {
    AnswerOf(t.cols, t.rows)
  }

  lemma CellComesBack(cols: seq<Column>, rows: seq<seq<Cell>>, i: nat, j: nat)
    requires Conforming(cols, rows) && i < |rows| && j < |cols|
    ensures CastCell(Items(cols)[j], VariableTexts(|cols|), rows[i]) == Some(rows[i][j])
  {
    VariablesAreDistinct(|cols|);
    FoundAt(VariableTexts(|cols|), j);
    assert TypeOf(TypeName(cols[j].typ)) == Some(cols[j].typ);
  }

  lemma EvaluatesToTable(cols: seq<Column>, rows: seq<seq<Cell>>, printed: seq<seq<Cell>>)
    requires Conforming(cols, rows) && (rows != [] ==> printed == rows)
    ensures Evaluate(Parsed(Items(cols), printed, VariableTexts(|cols|), rows == [])) == AnswerOf(cols, rows)
  {
    var got := Evaluate(Parsed(Items(cols), printed, VariableTexts(|cols|), rows == []));
    assert got.names == AnswerOf(cols, rows).names;
    forall i | 0 <= i < |rows| ensures got.rows[i] == AnswerOf(cols, rows).rows[i] {
      forall j | 0 <= j < |cols| ensures got.rows[i][j] == AnswerOf(cols, rows).rows[i][j] {
        CellComesBack(cols, rows, i, j);
      }
    }
  }

  /** Printing and reading back: the same column names, the same rows in order, whatever the cells
    * hold; a table without rows comes back without rows. */
  lemma StatementReadsBack(cols: seq<Column>, rows: seq<seq<Cell>>)
    requires Conforming(cols, rows) && cols != []
    requires forall i :: 0 <= i < |cols| ==> PlainName(cols[i].name)
    ensures ReadSelect(StatementText(cols, rows)) == Some(AnswerOf(cols, rows))
  {
    var printed := if rows == [] then [NullCells(|cols|)] else rows;
    var text, toks := SelectText(cols, printed), SelectTokens(cols, printed);
    forall i | 0 <= i < |printed| ensures printed[i] != [] {
      assert |printed[i]| == |cols|;
    }
    hide SelectText, SelectTokens, Evaluate, AnswerOf, ParseSelect;
    SelectLexes(cols, printed);
    SelectParses(cols, printed, rows == []);
    EvaluatesToTable(cols, rows, printed);
    WholeTextLexes(text, toks, rows == []);
  }

  lemma WholeTextLexes(text: string, toks: seq<Token>, whereFalse: bool)
    requires Free(text, toks)
    ensures Lex(if whereFalse then text + " WHERE false" else text) == toks + WhereTokens(whereFalse)
  {
    FixedTexts();
    NothingLexes();
    hide Lex;
    if whereFalse {
      assert " WHERE false" + "" == " WHERE false";
      assert Lex(" WHERE false" + "") == WhereFalse + Lex("");
      assert Lex(text + " WHERE false") == toks + Lex(" WHERE false");
    } else {
      assert text + "" == text;
      assert Lex(text + "") == toks + Lex("");
    }
  }

  lemma NothingLexes()
    ensures Lex("") == [] && StopsWord("")
  {
  }
}
