/** Which inline tables survive the printed SELECT, and why the others do not. */
module ScratchNames {
  import opened Common
  import opened SqlText
  import opened ScratchSelect

  // ------------------------------------------------------------ the text up to a column name

  /** The joined list up to item `j`, with the comma in front of it. */
  function PrefixText(texts: seq<string>, j: nat): string
    requires j < |texts|
  {
    if j == 0 then "" else texts[0] + ", " + PrefixText(texts[1..], j - 1)
  }

  function PrefixTokens(parts: seq<seq<Token>>, j: nat): seq<Token>
    requires j < |parts|
  {
    if j == 0 then [] else parts[0] + [Punct(',')] + PrefixTokens(parts[1..], j - 1)
  }

  function SuffixText(texts: seq<string>, j: nat): string
    requires j < |texts|
  {
    if j + 1 == |texts| then "" else ", " + Join(texts[j + 1..], ", ")
  }

  lemma {:induction false} JoinSplits(texts: seq<string>, j: nat)
    requires j < |texts|
    ensures Join(texts, ", ") == PrefixText(texts, j) + (texts[j] + SuffixText(texts, j))
  {
    if j == 0 {
      assert "" + (texts[0] + SuffixText(texts, 0)) == texts[0] + SuffixText(texts, 0);
      if |texts| > 1 {
        assert texts[0] + (", " + Join(texts[1..], ", ")) == texts[0] + ", " + Join(texts[1..], ", ");
      }
    } else {
      JoinSplits(texts[1..], j - 1);
      assert texts[1..][j - 1 + 1..] == texts[j + 1..];
      var a, b := PrefixText(texts[1..], j - 1), texts[j] + SuffixText(texts, j);
      assert texts[0] + ", " + (a + b) == (texts[0] + ", " + a) + b;
    }
  }

  lemma {:induction false} PrefixLexes(texts: seq<string>, parts: seq<seq<Token>>, j: nat)
    requires |texts| == |parts| && j < |texts|
    requires forall i :: 0 <= i < j ==> Stopped(texts[i], parts[i])
    ensures Free(PrefixText(texts, j), PrefixTokens(parts, j))
  {
    hide Lex;
    if j == 0 {
      EmptyIsFree();
    } else {
      PrefixLexes(texts[1..], parts[1..], j - 1);
      hide Free, Stopped;
      CommaIsFree();
      StoppedFree(texts[0], parts[0], ", ", [Punct(',')]);
      FreeFree(texts[0] + ", ", parts[0] + [Punct(',')], PrefixText(texts[1..], j - 1), PrefixTokens(parts[1..], j - 1));
    }
  }

  lemma EmptyIsFree()
    ensures Free("", [])
  {
    forall rest ensures Lex("" + rest) == [] + Lex(rest) {
      assert "" + rest == rest;
    }
  }

  lemma {:induction false} PrefixLength(parts: seq<seq<Token>>, j: nat)
    requires j < |parts| && forall i :: 0 <= i < |parts| ==> |parts[i]| == 8
    ensures |PrefixTokens(parts, j)| == 9 * j
  {
    if j > 0 {
      PrefixLength(parts[1..], j - 1);
    }
  }

  /** Everything printed before the name of column `j`, up to its opening quote. */
  function Head(cols: seq<Column>, j: nat): string
    requires j < |cols|
  {
    "SELECT " + PrefixText(ColumnTexts(cols), j) + ("CAST(" + ColumnVariable(j) + " AS " + TypeName(cols[j].typ) + ") AS ")
  }

  function HeadTokens(cols: seq<Column>, j: nat): seq<Token>
    requires j < |cols|
  {
    [Word("SELECT")] + PrefixTokens(AllItemTokens(cols), j) + ItemTokens(j, cols[j])[..7]
  }

  lemma CastLexes(i: nat, c: Column)
    ensures Free("CAST(" + ColumnVariable(i) + " AS " + TypeName(c.typ) + ") AS ", ItemTokens(i, c)[..7])
  {
    hide Free, Stopped, ColumnVariable;
    FixedTexts();
    VariableIsWord(i);
    var v, t := ColumnVariable(i), TypeName(c.typ);
    assert IsWord(t);
    WordIsStopped(v);
    WordIsStopped(t);
    FreeStopped("CAST(", [Word("CAST"), Punct('(')], v, [Word(v)]);
    StoppedFree("CAST(" + v, [Word("CAST"), Punct('(')] + [Word(v)], " AS ", [Word("AS")]);
    FreeStopped("CAST(" + v + " AS ", [Word("CAST"), Punct('(')] + [Word(v)] + [Word("AS")], t, [Word(t)]);
    StoppedFree("CAST(" + v + " AS " + t, [Word("CAST"), Punct('(')] + [Word(v)] + [Word("AS")] + [Word(t)],
                ") AS ", [Punct(')'), Word("AS")]);
    assert [Word("CAST"), Punct('(')] + [Word(v)] + [Word("AS")] + [Word(t)] + [Punct(')'), Word("AS")] == ItemTokens(i, c)[..7];
  }

  lemma HeadLexes(cols: seq<Column>, j: nat)
    requires j < |cols| && forall i :: 0 <= i < j ==> PlainName(cols[i].name)
    ensures Free(Head(cols, j), HeadTokens(cols, j)) && |HeadTokens(cols, j)| == 9 * j + 8
  {
    hide Free, Stopped, PrefixText, PrefixTokens, ColumnVariable, TypeName, ColumnText;
    forall i | 0 <= i < j ensures Stopped(ColumnTexts(cols)[i], AllItemTokens(cols)[i]) {
      ColumnLexes(i, cols[i]);
    }
    PrefixLexes(ColumnTexts(cols), AllItemTokens(cols), j);
    PrefixLength(AllItemTokens(cols), j);
    CastLexes(j, cols[j]);
    HeadJoins(PrefixText(ColumnTexts(cols), j), PrefixTokens(AllItemTokens(cols), j),
              "CAST(" + ColumnVariable(j) + " AS " + TypeName(cols[j].typ) + ") AS ", ItemTokens(j, cols[j])[..7]);
  }

  lemma HeadJoins(p: string, tp: seq<Token>, c: string, tc: seq<Token>)
    requires Free(p, tp) && Free(c, tc)
    ensures Free("SELECT " + p + c, [Word("SELECT")] + tp + tc)
  {
    hide Free, Stopped;
    FixedTexts();
    FreeFree("SELECT ", [Word("SELECT")], p, tp);
    FreeFree("SELECT " + p, [Word("SELECT")] + tp, c, tc);
  }

  // ------------------------------------------------------------ what the parser finds at the name

  /** The names the parser reports are the tokens in the places of the names. */
  lemma {:induction false} ItemNameAt(ts: seq<Token>, fuel: nat, j: nat)
    requires Separated(t => ParseItem(t), ts, fuel).Some?
    requires j < |Separated(t => ParseItem(t), ts, fuel).value.0|
    ensures 9 * j + 7 < |ts| && ts[9 * j + 7] == QuotedName(Separated(t => ParseItem(t), ts, fuel).value.0[j].name)
  {
    var (first, rest) := ParseItem(ts).value;
    assert rest == ts[8..];
    if j > 0 {
      ItemNameAt(rest[1..], fuel - 1, j - 1);
      assert rest[1..] == ts[9..];
      assert ts[9..][9 * (j - 1) + 7] == ts[9 * j + 7];
    }
  }

  lemma ParsedNameAt(ts: seq<Token>, j: nat)
    requires ParseSelect(ts).Some? && j < |ParseSelect(ts).value.items|
    ensures 9 * j + 8 < |ts| && ts[9 * j + 8] == QuotedName(ParseSelect(ts).value.items[j].name)
  {
    ItemNameAt(ts[1..], |ts|, j);
    assert ts[1..][9 * j + 7] == ts[9 * j + 8];
  }

  /** An empty name, or one with a quote in it, does not come out of the lexer as it went in. */
  lemma QuoteSpoilsTheToken(name: string, rest: string)
    requires !PlainName(name) && DoesNotQuote('"', rest)
    ensures Lex("\"" + name + "\"" + rest) != []
    ensures Lex("\"" + name + "\"" + rest)[0] != QuotedName(name)
  {
    UnescapedReadsBack('"', name, rest);
    hide ReadQuoted;
    var text := "\"" + name + "\"" + rest;
    assert text[0] == '"' && text[1..] == name + ['"'] + rest;
  }

  /** What is printed after the closing quote of column `j`. */
  function Tail(cols: seq<Column>, rows: seq<seq<Cell>>, whereFalse: bool, j: nat): string
    requires j < |cols|
  {
    SuffixText(ColumnTexts(cols), j) + (" FROM (VALUES " + Join(RowTexts(rows), ", ") + ") AS _v("
      + Join(VariableTexts(|cols|), ", ") + ")" + (if whereFalse then " WHERE false" else ""))
  }

  lemma TextAround(cols: seq<Column>, rows: seq<seq<Cell>>, whereFalse: bool, j: nat)
    requires j < |cols|
    ensures SelectText(cols, rows) + (if whereFalse then " WHERE false" else "")
         == Head(cols, j) + ("\"" + cols[j].name + "\"" + Tail(cols, rows, whereFalse, j))
    ensures DoesNotQuote('"', Tail(cols, rows, whereFalse, j))
  {
    JoinSplits(ColumnTexts(cols), j);
    var where := if whereFalse then " WHERE false" else "";
    var body := Join(RowTexts(rows), ", ") + ") AS _v(" + Join(VariableTexts(|cols|), ", ") + ")";
    var p, s := PrefixText(ColumnTexts(cols), j), SuffixText(ColumnTexts(cols), j);
    var c := "CAST(" + ColumnVariable(j) + " AS " + TypeName(cols[j].typ) + ") AS ";
    var name := "\"" + cols[j].name + "\"";
    assert ColumnTexts(cols)[j] == c + name;
    hide Join, RowTexts, VariableTexts, ColumnTexts, PrefixText, SuffixText, ColumnVariable, TypeName;
    assert SelectText(cols, rows) + where
        == "SELECT " + (p + ((c + name) + s)) + " FROM (VALUES " + Join(RowTexts(rows), ", ") + ") AS _v("
           + Join(VariableTexts(|cols|), ", ") + ")" + where;
    Associates("SELECT ", p, c, name, s, " FROM (VALUES ", Join(RowTexts(rows), ", "), ") AS _v(",
               Join(VariableTexts(|cols|), ", "), ")", where);
    TailStarts(cols, rows, whereFalse, j);
  }

  lemma TailStarts(cols: seq<Column>, rows: seq<seq<Cell>>, whereFalse: bool, j: nat)
    requires j < |cols|
    ensures DoesNotQuote('"', Tail(cols, rows, whereFalse, j))
  {
    var s := SuffixText(ColumnTexts(cols), j);
    assert s == "" || s[0] == ',';
    var from := " FROM (VALUES " + Join(RowTexts(rows), ", ") + ") AS _v(" + Join(VariableTexts(|cols|), ", ") + ")"
      + (if whereFalse then " WHERE false" else "");
    assert from[0] == ' ';
  }

  lemma Associates(a: string, p: string, c: string, n: string, s: string, f: string, r: string, v: string, x: string, z: string, w: string)
    ensures a + (p + ((c + n) + s)) + f + r + v + x + z + w == (a + p + c) + (n + (s + (f + r + v + x + z + w)))
  {
    assert a + (p + ((c + n) + s)) == (a + p + c) + (n + s);
    assert (n + s) + (f + r + v + x + z + w) == n + (s + (f + r + v + x + z + w));
    assert (a + p + c) + (n + s) + f + r + v + x + z + w == (a + p + c) + ((n + s) + (f + r + v + x + z + w));
  }

  // ------------------------------------------------------------ spoiled names

  predicate PlainNames(cols: seq<Column>) {
    forall i :: 0 <= i < |cols| ==> PlainName(cols[i].name)
  }

  lemma {:induction false} FirstSpoiledColumn(cols: seq<Column>, n: nat) returns (j: nat)
    requires n <= |cols| && exists i :: 0 <= i < n && !PlainName(cols[i].name)
    ensures j < n && !PlainName(cols[j].name) && forall i :: 0 <= i < j ==> PlainName(cols[i].name)
  {
    if exists i :: 0 <= i < n - 1 && !PlainName(cols[i].name) {
      j := FirstSpoiledColumn(cols, n - 1);
    } else {
      j := n - 1;
    }
  }

  /** A statement with a spoiled column name never reads back as an answer under those names. */
  lemma SpoiledNameIsLost(cols: seq<Column>, rows: seq<seq<Cell>>, a: Answer)
    requires !PlainNames(cols) && |a.names| == |cols| && forall i :: 0 <= i < |cols| ==> a.names[i] == cols[i].name
    ensures ReadSelect(StatementText(cols, rows)) != Some(a)
  {
    var printed := if rows == [] then [NullCells(|cols|)] else rows;
    var j := FirstSpoiledColumn(cols, |cols|);
    var tail := Tail(cols, printed, rows == [], j);
    var quoted := "\"" + cols[j].name + "\"" + tail;
    TextAround(cols, printed, rows == [], j);
    HeadLexes(cols, j);
    QuoteSpoilsTheToken(cols[j].name, tail);
    TextIs(cols, rows, printed);
    var ts := Lex(StatementText(cols, rows));
    TokenAfter(Head(cols, j), HeadTokens(cols, j), quoted);
    hide Head, HeadTokens, Tail, SelectText, StatementText, ParseSelect, Lex, SuffixText, PlainName;
    assert 9 * j + 8 < |ts| && ts[9 * j + 8] != QuotedName(cols[j].name);
    if ParseSelect(ts).Some? && j < |ParseSelect(ts).value.items| {
      ParsedNameAt(ts, j);
    }
    NamesDiffer(cols, a, ts, j);
  }

  lemma TokenAfter(head: string, toks: seq<Token>, rest: string)
    requires Free(head, toks) && Lex(rest) != []
    ensures |toks| < |Lex(head + rest)| && Lex(head + rest)[|toks|] == Lex(rest)[0]
  {
    hide Lex;
  }

  lemma TextIs(cols: seq<Column>, rows: seq<seq<Cell>>, printed: seq<seq<Cell>>)
    requires printed == if rows == [] then [NullCells(|cols|)] else rows
    ensures StatementText(cols, rows) == SelectText(cols, printed) + (if rows == [] then " WHERE false" else "")
  {
  }

  lemma NamesDiffer(cols: seq<Column>, a: Answer, ts: seq<Token>, j: nat)
    requires j < |cols| && |a.names| == |cols| && a.names[j] == cols[j].name
    requires ParseSelect(ts).Some? && j < |ParseSelect(ts).value.items| ==>
      ParseSelect(ts).value.items[j].name != cols[j].name
    ensures ParseSelect(ts).Some? ==> Evaluate(ParseSelect(ts).value) != a
  {
    hide ParseSelect;
    if ParseSelect(ts).Some? {
      var p := ParseSelect(ts).value;
      var got := Evaluate(p).names;
      assert |got| == |p.items|;
      assert j < |p.items| ==> got[j] == p.items[j].name;
    }
  }

  // ------------------------------------------------------------ repeated names

  /** No later column has the name of column `j`. */
  predicate LastOfItsName(cols: seq<Column>, j: nat)
    requires j < |cols|
  {
    forall k :: j < k < |cols| ==> cols[k].name != cols[j].name
  }

  /** Wherever a name repeats, the cell of its last column, put into the type of the earlier column, is
    * the earlier column's own cell. */
  predicate RepeatsAgree(t: InlineTable, intOf: IntReader)
    requires WellFormed(t)
  {
    forall r, i, j :: 0 <= r < |t.rows| && 0 <= i < j < |t.cols| ==>
      t.cols[i].name == t.cols[j].name && LastOfItsName(t.cols, j) ==>
      Coerced(t.rows[r][j], t.cols[i].typ, intOf) == Some(t.rows[r][i])
  }

  lemma {:induction false} DictHoldsTheLast(cols: seq<Column>, cells: seq<Cell>, j: nat)
    requires |cells| == |cols| && j < |cols| && LastOfItsName(cols, j)
    ensures Dict(cols, cells)[cols[j].name] == cells[j]
  {
    var last := |cols| - 1;
    if j < last {
      assert cols[last].name != cols[j].name;
      assert forall k :: 0 <= k < last ==> cols[..last][k] == cols[k];
      DictHoldsTheLast(cols[..last], cells[..last], j);
    }
  }

  /** Every name has a last column. */
  lemma {:induction false} LastColumn(cols: seq<Column>, i: nat) returns (j: nat)
    requires i < |cols|
    ensures i <= j < |cols| && cols[j].name == cols[i].name && LastOfItsName(cols, j)
    decreases |cols| - i
  {
    if LastOfItsName(cols, i) {
      j := i;
    } else {
      var k :| i < k < |cols| && cols[k].name == cols[i].name;
      j := LastColumn(cols, k);
    }
  }

  lemma {:induction false} PrintedCellsAre(d: map<string, Cell>, fields: seq<Column>, intOf: IntReader, cells: seq<Cell>)
    requires |cells| == |fields| && forall i :: 0 <= i < |fields| ==> fields[i].name in d
    ensures PrintedCells(d, fields, intOf) == Some(cells) <==>
      forall i :: 0 <= i < |fields| ==> Coerced(d[fields[i].name], fields[i].typ, intOf) == Some(cells[i])
  {
    hide Coerced;
    if fields == [] {
      assert cells == [];
    } else {
      var last := |fields| - 1;
      PrintedCellsAre(d, fields[..last], intOf, cells[..last]);
      assert cells == cells[..last] + [cells[last]];
      assert forall i :: 0 <= i < last ==> fields[..last][i] == fields[i] && cells[..last][i] == cells[i];
    }
  }

  lemma {:induction false} PrintedCellsConform(d: map<string, Cell>, fields: seq<Column>, intOf: IntReader)
    requires forall i :: 0 <= i < |fields| ==> fields[i].name in d
    requires PrintedCells(d, fields, intOf).Some?
    ensures var cells := PrintedCells(d, fields, intOf).value;
      |cells| == |fields| && forall i :: 0 <= i < |fields| ==> Conforms(cells[i], fields[i].typ)
  {
    hide Coerced, Conforms;
    if fields != [] {
      var last := |fields| - 1;
      PrintedCellsConform(d, fields[..last], intOf);
      LiteralPrintsCoerced(d[fields[last].name], fields[last].typ, intOf);
      assert forall i :: 0 <= i < last ==> fields[..last][i] == fields[i];
    }
  }

  lemma {:induction false} PrintedRowsConform(cols: seq<Column>, rows: seq<seq<Cell>>, intOf: IntReader)
    requires forall r :: 0 <= r < |rows| ==> |rows[r]| == |cols|
    requires PrintedRows(cols, rows, intOf).Some?
    ensures Conforming(cols, PrintedRows(cols, rows, intOf).value) && |PrintedRows(cols, rows, intOf).value| == |rows|
  {
    hide Conforms, PrintedCells, Dict;
    if rows != [] {
      var last := |rows| - 1;
      PrintedRowsConform(cols, rows[..last], intOf);
      PrintedCellsConform(Dict(cols, rows[last]), cols, intOf);
    }
  }

  lemma {:induction false} PrintedRowsAre(cols: seq<Column>, rows: seq<seq<Cell>>, intOf: IntReader)
    requires forall r :: 0 <= r < |rows| ==> |rows[r]| == |cols|
    ensures PrintedRows(cols, rows, intOf) == Some(rows) <==>
      forall r :: 0 <= r < |rows| ==> PrintedRow(cols, rows[r], intOf) == Some(rows[r])
  {
    hide PrintedRow;
    if rows != [] {
      var last := |rows| - 1;
      PrintedRowsAre(cols, rows[..last], intOf);
      assert rows == rows[..last] + [rows[last]];
      assert forall r :: 0 <= r < last ==> rows[..last][r] == rows[r];
    }
  }

  /** The printed cells are the table's exactly where repeated names agree. */
  lemma PrintedAsItIs(t: InlineTable, intOf: IntReader)
    requires WellFormed(t)
    ensures PrintedRows(t.cols, t.rows, intOf) == Some(t.rows) <==> RepeatsAgree(t, intOf)
  {
    PrintedRowsAre(t.cols, t.rows, intOf);
    forall r | 0 <= r < |t.rows|
      ensures PrintedRow(t.cols, t.rows[r], intOf) == Some(t.rows[r]) <==> RowAgrees(t.cols, t.rows[r], intOf)
    {
      PrintedRowAsItIs(t.cols, t.rows[r], intOf);
    }
    hide PrintedRow, PrintedRows, Coerced;
  }

  predicate RowAgrees(cols: seq<Column>, cells: seq<Cell>, intOf: IntReader)
    requires |cells| == |cols|
  {
    forall i, j :: 0 <= i < j < |cols| ==>
      cols[i].name == cols[j].name && LastOfItsName(cols, j) ==> Coerced(cells[j], cols[i].typ, intOf) == Some(cells[i])
  }

  lemma PrintedRowAsItIs(cols: seq<Column>, cells: seq<Cell>, intOf: IntReader)
    requires |cells| == |cols| && forall i :: 0 <= i < |cols| ==> Conforms(cells[i], cols[i].typ)
    ensures PrintedRow(cols, cells, intOf) == Some(cells) <==> RowAgrees(cols, cells, intOf)
  {
    var d := Dict(cols, cells);
    PrintedCellsAre(d, cols, intOf, cells);
    hide Dict, PrintedCells, Coerced, Conforms, LastOfItsName;
    if RowAgrees(cols, cells, intOf) {
      forall i | 0 <= i < |cols| ensures Coerced(d[cols[i].name], cols[i].typ, intOf) == Some(cells[i]) {
        var j := LastColumn(cols, i);
        DictHoldsTheLast(cols, cells, j);
        LiteralPrintsCoerced(cells[i], cols[i].typ, intOf);
      }
    }
    forall i, j | 0 <= i < j < |cols| && cols[i].name == cols[j].name && LastOfItsName(cols, j)
      ensures d[cols[i].name] == cells[j]
    {
      DictHoldsTheLast(cols, cells, j);
    }
  }

  lemma SameAnswerSameRows(cols: seq<Column>, a: seq<seq<Cell>>, b: seq<seq<Cell>>)
    requires Conforming(cols, a) && Conforming(cols, b) && AnswerOf(cols, a) == AnswerOf(cols, b)
    ensures a == b
  {
    var x, y := AnswerOf(cols, a), AnswerOf(cols, b);
    assert |a| == |x.rows| == |b|;
    forall r | 0 <= r < |a| ensures a[r] == b[r] {
      forall i | 0 <= i < |cols| ensures a[r][i] == b[r][i] {
        assert x.rows[r][i] == Some(a[r][i]) && y.rows[r][i] == Some(b[r][i]);
      }
    }
  }

  // ------------------------------------------------------------ the exact condition

  /** The statement is made and reads back as the table if and only if no column name is empty or holds a
    * double quote, and repeated names agree. Text cells may hold anything, and there may be no rows. */
  lemma ScratchRoundTripExactly(t: InlineTable, intOf: IntReader)
    requires WellFormed(t) && t.cols != []
    ensures
      (ScratchText(t, intOf).Some? && ReadSelect(ScratchText(t, intOf).value) == Some(Expected(t))
       <==> PlainNames(t.cols) && RepeatsAgree(t, intOf))
  {
    PrintedAsItIs(t, intOf);
    hide PrintedRows, StatementText, ReadSelect, RepeatsAgree, AnswerOf;
    if PrintedRows(t.cols, t.rows, intOf).Some? {
      var rows := PrintedRows(t.cols, t.rows, intOf).value;
      PrintedRowsConform(t.cols, t.rows, intOf);
      if PlainNames(t.cols) {
        StatementReadsBack(t.cols, rows);
        if AnswerOf(t.cols, rows) == AnswerOf(t.cols, t.rows) {
          SameAnswerSameRows(t.cols, rows, t.rows);
        }
      } else {
        ExpectedNames(t);
        SpoiledNameIsLost(t.cols, rows, Expected(t));
      }
    }
  }

  lemma ExpectedNames(t: InlineTable)
    requires WellFormed(t)
    ensures |Expected(t).names| == |t.cols| && forall i :: 0 <= i < |t.cols| ==> Expected(t).names[i] == t.cols[i].name
  {
  }

  /** Tables whose column names are distinct, as all that come from records are, need plain names only. */
  lemma DistinctNamesAgree(t: InlineTable, intOf: IntReader)
    requires WellFormed(t) && forall i, j :: 0 <= i < j < |t.cols| ==> t.cols[i].name != t.cols[j].name
    ensures RepeatsAgree(t, intOf)
  {
  }

  const TwiceA := [Column("a", BigintType), Column("a", BigintType)]

  lemma LastAPrinted(intOf: IntReader)
    ensures PrintedRow(TwiceA, [Integer(1), Integer(2)], intOf) == Some([Integer(2), Integer(2)])
  {
    var row, last := [Integer(1), Integer(2)], [Integer(2), Integer(2)];
    assert LastOfItsName(TwiceA, 1);
    DictHoldsTheLast(TwiceA, row, 1);
    PrintedCellsAre(Dict(TwiceA, row), TwiceA, intOf, last);
    hide Dict, PrintedCells;
  }

  /** Two columns named a, holding 1 and 2: the statement reads back as a table holding 2 and 2. */
  lemma RepeatedNameWitness(intOf: IntReader)
    ensures
      var t := InlineTable(TwiceA, [[Integer(1), Integer(2)]]);
      && WellFormed(t) && PlainNames(TwiceA)
      && ScratchText(t, intOf).Some?
      && ReadSelect(ScratchText(t, intOf).value) == Some(AnswerOf(TwiceA, [[Integer(2), Integer(2)]]))
  {
    hide PrintedRow, PrintedRows, StatementText, ReadSelect, AnswerOf;
    LastAPrinted(intOf);
    OneRowPrinted(TwiceA, [Integer(1), Integer(2)], [Integer(2), Integer(2)], intOf);
    StatementReadsBack(TwiceA, [[Integer(2), Integer(2)]]);
  }

  lemma OneRowPrinted(cols: seq<Column>, row: seq<Cell>, printed: seq<Cell>, intOf: IntReader)
    requires |row| == |cols| && PrintedRow(cols, row, intOf) == Some(printed)
    ensures PrintedRows(cols, [row], intOf) == Some([printed])
  {
    hide PrintedRow;
    var rows := [row];
    assert PrintedRows(cols, rows[..0], intOf) == Some([]);
    assert [] + [printed] == [printed];
  }
}
