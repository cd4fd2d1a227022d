/** The builders of UPDATE, INSERT and DELETE. The verdict of the identifier checks is again the parameter `valid`. */
module WriteBuilders {
  import opened Placeholders
  import opened Segments
  import opened Clauses
  import opened Builders

  datatype SetClause = SetClause(column: string, value: Arg)

  function ReturningText(columns: seq<string>): string {
    if columns == [] then "" else " RETURNING " + Join(columns, ", ")
  }

  /** What one more numbered value adds to a part. */
  lemma MarkSnoc(before: seq<Seg>, glue: string, v: Arg, i: nat)
    ensures var after := before + [Raw(glue)] + [Tmpl("?", [v])];
            && Render(after, i) == Render(before, i) + (glue + "$" + Digits(Next(before, i)))
            && ArgsOf(after) == ArgsOf(before) + [v]
            && Next(after, i) == Next(before, i) + 1
  {
    hide Render, Next, ArgsOf, Digits, Replace, Marks;
    RenderSnoc(before, Raw(glue), i);
    RenderSnoc(before + [Raw(glue)], Tmpl("?", [v]), i);
    ReplaceOne('?', Next(before, i));
    Regroup(Render(before, i), glue, "$" + Digits(Next(before, i)));
    Regroup(glue, "$", Digits(Next(before, i)));
  }

  lemma MarkIsClean(v: Arg)
    ensures CleanSeg(Tmpl("?", [v]))
  {
    ReplaceOne('?', 1);
  }

  // ---------- UPDATE ----------

  function SetSegs(sets: seq<SetClause>): seq<Seg> {
    if sets == [] then []
    else
      var init, s := sets[..|sets| - 1], sets[|sets| - 1];
      SetSegs(init) + [Raw((if init == [] then "" else ", ") + (s.column + " = "))] + [Tmpl("?", [s.value])]
  }

  lemma SetStep(sets: seq<SetClause>, k: nat, i: nat)
    requires k < |sets|
    ensures var before, s := SetSegs(sets[..k]), sets[k];
            && Render(SetSegs(sets[..k + 1]), i)
            == Render(before, i) + (if k == 0 then "" else ", ") + (s.column + " = $" + Digits(Next(before, i)))
            && ArgsOf(SetSegs(sets[..k + 1])) == ArgsOf(before) + [s.value]
            && Next(SetSegs(sets[..k + 1]), i) == Next(before, i) + 1
  {
    hide Render, Next, ArgsOf, Digits;
    var before, s := SetSegs(sets[..k]), sets[k];
    assert sets[..k + 1][..k] == sets[..k];
    var sep, d := if k == 0 then "" else ", ", Digits(Next(before, i));
    MarkSnoc(before, sep + (s.column + " = "), s.value, i);
    assert sep + (s.column + " = ") + "$" + d == sep + (s.column + " = $" + d);
    Regroup(Render(before, i), sep, s.column + " = $" + d);
  }

  class UpdateBuilder {
    const table: string
    var sets: seq<SetClause>
    var where: seq<Clause>
    var returning: seq<string>

    constructor (table: string)
      ensures this.table == table && sets == [] && where == [] && returning == []
    {
      this.table, sets, where, returning := table, [], [], [];
    }

    method Set(column: string, value: Arg)
      modifies this`sets
      ensures sets == old(sets) + [SetClause(column, value)]
    {
      sets := sets + [SetClause(column, value)];
    }

    method Where(condition: string, args: seq<Arg>)
      modifies this`where
      ensures where == old(where) + [Clause(condition, args, false)]
    {
      where := where + [Clause(condition, args, false)];
    }

    method OrWhere(condition: string, args: seq<Arg>)
      modifies this`where
      ensures where == old(where) + [Clause(condition, args, true)]
    {
      where := where + [Clause(condition, args, true)];
    }

    method WhereIn(column: string, values: seq<Arg>)
      modifies this`where
      ensures where == old(where) +
                if values == [] then [] else [Clause(InCondition(column, " IN ", |values|), values, false)]
    {
      if |values| == 0 {
        return;
      }
      var condition := BuildIn(column, " IN ", values);
      where := where + [Clause(condition, values, false)];
    }

    method Returning(columns: seq<string>)
      modifies this`returning
      ensures returning == old(returning) + columns
    {
      returning := returning + columns;
    }

    function Segs(): seq<Seg>
      reads this
    {
      Statement("UPDATE " + table + " SET ", SetSegs(sets), ChainSegs(where, " WHERE "), "", [], ReturningText(returning))
    }

    method BuildSetClause(start: nat) returns (text: string, args: seq<Arg>, argIndex: nat)
      ensures text == Render(SetSegs(sets), start)
      ensures args == ArgsOf(SetSegs(sets))
      ensures argIndex == Next(SetSegs(sets), start)
    {
      hide Render, Next, ArgsOf, Digits, SetSegs, Join;
      PartsNil(start);
      args, argIndex := [], start;
      var setParts := new string[|sets|];
      for i := 0 to |sets|
        invariant Join(setParts[..i], ", ") == Render(SetSegs(sets[..i]), start)
        invariant args == ArgsOf(SetSegs(sets[..i]))
        invariant argIndex == Next(SetSegs(sets[..i]), start)
      {
        var s := sets[i];
        SetStep(sets, i, start);
        JoinSnoc(setParts[..i], s.column + " = $" + Digits(argIndex), ", ");
        ghost var before := setParts[..i];
        setParts[i] := s.column + " = $" + Digits(argIndex);
        assert setParts[..i + 1] == before + [setParts[i]];
        args := args + [s.value];
        argIndex := argIndex + 1;
      }
      assert sets[..|sets|] == sets && setParts[..] == setParts[..|sets|];
      text := Join(setParts[..], ", ");
    }

    /** The builder's own copy of the condition loop. */
    method BuildWhereClause(start: nat) returns (text: string, args: seq<Arg>, argIndex: nat)
      ensures text == Render(ChainSegs(where, " WHERE "), start)
      ensures args == ArgsOf(ChainSegs(where, " WHERE "))
      ensures argIndex == Next(ChainSegs(where, " WHERE "), start)
    {
      if |where| == 0 {
        return "", [], start;
      }
      hide Links, ChainSegs, Render, Next, ArgsOf, Replace, Marks;
      LinksNil(where, start);
      text, args, argIndex := " WHERE ", [], start;
      for i := 0 to |where|
        invariant text == " WHERE " + Render(Links(where[..i]), start)
        invariant args == ArgsOf(Links(where[..i]))
        invariant argIndex == Next(Links(where[..i]), start)
      {
        var w := where[i];
        LinkStep(where, i, start, " WHERE ");
        if i > 0 {
          if w.isOr {
            text := text + " OR ";
          } else {
            text := text + " AND ";
          }
        }
        var condition, newIndex := ReplacePlaceholders(w.condition, argIndex);
        text := text + condition;
        args := args + w.args;
        argIndex := newIndex;
      }
      ChainRender(where, " WHERE ", start);
    }

    method Build(valid: bool) returns (r: Built)
      ensures r == if valid && sets != [] then Sql(Render(Segs(), 1), ArgsOf(Segs())) else Refused
    {
      if !valid || |sets| == 0 {
        return Refused;
      }
      hide Render, Next, ArgsOf, SetSegs, ChainSegs, Statement, Join;
      var text := "UPDATE " + table + " SET ";
      var setText, setArgs, argIndex := BuildSetClause(1);
      var whereText, whereArgs, _ := BuildWhereClause(argIndex);
      var tail := "";
      if |returning| > 0 {
        tail := " RETURNING " + Join(returning, ", ");
      }
      ShortRender("UPDATE " + table + " SET ", SetSegs(sets), ChainSegs(where, " WHERE "), tail);
      return Sql(text + setText + whereText + tail, setArgs + whereArgs);
    }
  }

  lemma PartsNil(i: nat)
    ensures Render(SetSegs([]), i) == "" && ArgsOf(SetSegs([])) == [] && Next(SetSegs([]), i) == i
    ensures Render(Cells([]), i) == "" && ArgsOf(Cells([])) == [] && Next(Cells([]), i) == i
    ensures Render(RowsSegs([]), i) == "" && ArgsOf(RowsSegs([])) == [] && Next(RowsSegs([]), i) == i
    ensures Join([], ", ") == ""
  {
  }

  lemma ShortRender(head: string, js: seq<Seg>, ws: seq<Seg>, tail: string)
    ensures var segs := Statement(head, js, ws, "", [], tail);
            && Render(segs, 1) == head + Render(js, 1) + Render(ws, Next(js, 1)) + tail
            && ArgsOf(segs) == ArgsOf(js) + ArgsOf(ws)
  {
    hide Statement, Render, ArgsOf, Next;
    StatementRender(head, js, ws, "", [], tail);
    RenderNil(Next(ws, Next(js, 1)));
  }

  lemma BareRender(head: string, js: seq<Seg>, tail: string)
    ensures var segs := Statement(head, js, [], "", [], tail);
            Render(segs, 1) == head + Render(js, 1) + tail && ArgsOf(segs) == ArgsOf(js)
  {
    hide *;
    ShortRender(head, js, [], tail);
    RenderNil(Next(js, 1));
  }

  lemma {:induction false} SetsClean(sets: seq<SetClause>)
    requires forall k | 0 <= k < |sets| :: Plain(sets[k].column)
    ensures Clean(SetSegs(sets)) && Fenced(SetSegs(sets))
  {
    hide Clean, Fenced;
    if sets == [] {
      NothingIsClean();
    } else {
      var init, s := sets[..|sets| - 1], sets[|sets| - 1];
      SetsClean(init);
      PairAppendClean(SetSegs(init), if init == [] then "" else ", ", s.column + " = ", s.value);
    }
  }

  lemma PairAppendClean(before: seq<Seg>, sep: string, name: string, v: Arg)
    requires Clean(before) && Fenced(before) && Plain(name)
    requires sep == ", " || (sep == "" && before == [])
    ensures var after := before + [Raw(sep + name)] + [Tmpl("?", [v])]; Clean(after) && Fenced(after)
  {
    hide Marks, Readable;
    MarkIsClean(v);
    var pair := [Raw(sep + name)] + [Tmpl("?", [v])];
    assert Fenced(pair) && (sep == ", " ==> Fence(pair[0]));
    FencedAppend(before, pair);
    assert before + [Raw(sep + name)] + [Tmpl("?", [v])] == before + pair;
  }

  /** The server reads a built UPDATE as the caller meant it. */
  lemma UpdateMeaning(b: UpdateBuilder)
    requires Plain("UPDATE " + b.table + " SET ") && Plain(ReturningText(b.returning))
    requires forall k | 0 <= k < |b.sets| :: Plain(b.sets[k].column)
    requires CleanClauses(b.where)
    ensures var sql, args := Render(b.Segs(), 1), ArgsOf(b.Segs());
            && Subst(Tokens(sql), args) == FillSegs(b.Segs())
            && Params(Tokens(sql)) == seq(|args|, k requires 0 <= k < |args| => k + 1)
            && Unread(Tokens(sql)) == Text(b.Segs())
  {
    hide Render, ArgsOf, Text, FillSegs, SetSegs, ChainSegs, Statement;
    SetsClean(b.sets);
    ChainClean(b.where, " WHERE ");
    StatementClean("UPDATE " + b.table + " SET ", SetSegs(b.sets), ChainSegs(b.where, " WHERE "), "", [],
                   ReturningText(b.returning));
    StatementMeaning(b.Segs());
  }

  function SetValues(sets: seq<SetClause>): seq<Arg> {
    if sets == [] then [] else SetValues(sets[..|sets| - 1]) + [sets[|sets| - 1].value]
  }

  lemma ReturningSpelled(columns: seq<string>)
    ensures ReturningText(columns) == if columns == [] then "" else " RETURNING " + Join(columns, ", ")
  {
  }

  /** The SET list, entry by entry, with one parameter each. */
  lemma SetSpelled(sets: seq<SetClause>, s: SetClause, i: nat)
    ensures Render(SetSegs([]), i) == "" && Next(SetSegs([]), i) == i
    ensures Render(SetSegs(sets + [s]), i)
         == Render(SetSegs(sets), i) + (if sets == [] then "" else ", ") + (s.column + " = $" + Digits(i + |sets|))
    ensures Next(SetSegs(sets), i) == i + |sets|
  {
    hide Render, Next, ArgsOf, Digits, SetSegs;
    var all := sets + [s];
    assert all[..|sets|] == sets && all[..|sets| + 1] == all;
    PartsNil(i);
    SetCount(sets, i);
    SetStep(all, |sets|, i);
  }

  lemma {:induction false} SetCount(sets: seq<SetClause>, i: nat)
    ensures Next(SetSegs(sets), i) == i + |sets|
  {
    hide Render, Next, ArgsOf, Digits, SetSegs;
    if sets == [] {
      PartsNil(i);
    } else {
      var n := |sets| - 1;
      assert sets[..n + 1] == sets;
      SetCount(sets[..n], i);
      SetStep(sets, n, i);
    }
  }

  /** The whole text of an UPDATE. */
  lemma UpdateSpelled(b: UpdateBuilder)
    ensures Render(b.Segs(), 1)
         == "UPDATE " + b.table + " SET " + Render(SetSegs(b.sets), 1)
            + Render(ChainSegs(b.where, " WHERE "), 1 + |b.sets|)
            + (if b.returning == [] then "" else " RETURNING " + Join(b.returning, ", "))
  {
    hide Render, Next, ArgsOf, SetSegs, ChainSegs, Statement, Join, ReturningText;
    SetCount(b.sets, 1);
    ReturningSpelled(b.returning);
    ShortRender("UPDATE " + b.table + " SET ", SetSegs(b.sets), ChainSegs(b.where, " WHERE "), ReturningText(b.returning));
  }

  lemma {:induction false} SetArgs(sets: seq<SetClause>)
    ensures ArgsOf(SetSegs(sets)) == SetValues(sets)
  {
    hide Render, Next, ArgsOf, SetSegs, Digits;
    if sets == [] {
      PartsNil(1);
    } else {
      var n := |sets| - 1;
      assert sets[..n + 1] == sets;
      SetArgs(sets[..n]);
      SetStep(sets, n, 1);
    }
  }

  /** An UPDATE passes the values of its SET list, then the arguments of WHERE. */
  lemma UpdateArgs(b: UpdateBuilder)
    ensures ArgsOf(b.Segs()) == SetValues(b.sets) + ClauseArgs(b.where)
  {
    hide Render, Next, ArgsOf, SetSegs, SetValues, ChainSegs, Statement, ClauseArgs;
    SetArgs(b.sets);
    ChainArgs(b.where, " WHERE ");
    ShortRender("UPDATE " + b.table + " SET ", SetSegs(b.sets), ChainSegs(b.where, " WHERE "), ReturningText(b.returning));
  }

  // ---------- INSERT ----------

  function Cells(row: seq<Arg>): seq<Seg> {
    if row == [] then []
    else
      var init := row[..|row| - 1];
      Cells(init) + [Raw(if init == [] then "" else ", ")] + [Tmpl("?", [row[|row| - 1]])]
  }

  function RowSegs(row: seq<Arg>): seq<Seg> {
    [Raw("(")] + Cells(row) + [Raw(")")]
  }

  function RowsSegs(rows: seq<seq<Arg>>): seq<Seg> {
    if rows == [] then []
    else
      var init := rows[..|rows| - 1];
      RowsSegs(init) + RawOpt(if init == [] then "" else ", ") + RowSegs(rows[|rows| - 1])
  }

  lemma CellStep(row: seq<Arg>, k: nat, i: nat)
    requires k < |row|
    ensures var before := Cells(row[..k]);
            && Render(Cells(row[..k + 1]), i)
            == Render(before, i) + (if k == 0 then "" else ", ") + ("$" + Digits(Next(before, i)))
            && Next(Cells(row[..k + 1]), i) == Next(before, i) + 1
            && ArgsOf(Cells(row[..k + 1])) == ArgsOf(before) + [row[k]]
  {
    hide Render, Next, ArgsOf, Digits;
    var before := Cells(row[..k]);
    assert row[..k + 1][..k] == row[..k];
    var sep, d := if k == 0 then "" else ", ", Digits(Next(before, i));
    MarkSnoc(before, sep, row[k], i);
    Regroup(sep, "$", d);
    Regroup(Render(before, i), sep, "$" + d);
  }

  lemma {:induction false} CellArgs(row: seq<Arg>)
    ensures ArgsOf(Cells(row)) == row
  {
    hide *;
    if row == [] {
      PartsNil(1);
    } else {
      CellArgs(row[..|row| - 1]);
      CellStep(row, |row| - 1, 1);
      assert row[..|row|] == row;
    }
  }

  lemma RowRender(row: seq<Arg>, i: nat)
    ensures Render(RowSegs(row), i) == "(" + Render(Cells(row), i) + ")"
    ensures Next(RowSegs(row), i) == Next(Cells(row), i) && ArgsOf(RowSegs(row)) == row
  {
    hide Render, Next, ArgsOf, Cells;
    RenderRaw("(", i);
    RenderAppend([Raw("(")], Cells(row), i);
    RenderAppend([Raw("(")] + Cells(row), [Raw(")")], i);
    RenderRaw(")", Next(Cells(row), i));
    CellArgs(row);
  }

  lemma RowStep(rows: seq<seq<Arg>>, k: nat, i: nat)
    requires k < |rows|
    ensures var before := RowsSegs(rows[..k]);
            var j := Next(before, i);
            && Render(RowsSegs(rows[..k + 1]), i)
            == Render(before, i) + (if k == 0 then "" else ", ") + ("(" + Render(Cells(rows[k]), j) + ")")
            && Next(RowsSegs(rows[..k + 1]), i) == Next(Cells(rows[k]), j)
            && ArgsOf(RowsSegs(rows[..k + 1])) == ArgsOf(before) + rows[k]
  {
    hide Render, Next, ArgsOf, Cells, RowSegs, RawOpt;
    var before, sep := RowsSegs(rows[..k]), if k == 0 then "" else ", ";
    assert rows[..k + 1][..k] == rows[..k];
    RowRender(rows[k], Next(before, i));
    RenderAppend(before, RawOpt(sep), i);
    RenderAppend(before + RawOpt(sep), RowSegs(rows[k]), i);
    RawOptRender(sep, Next(before, i));
  }

  /** An empty constraint name counts as none. */
  datatype Conflict = NoClause | OnConflict(columns: seq<string>, constraint: string)

  class InsertBuilder {
    const table: string
    var columns: seq<string>
    var values: seq<seq<Arg>>
    var returning: seq<string>
    var onConflict: Conflict

    constructor (table: string)
      ensures this.table == table && columns == [] && values == [] && returning == [] && onConflict == NoClause
    {
      this.table, columns, values, returning, onConflict := table, [], [], [], NoClause;
    }

    method Columns(columns: seq<string>)
      modifies this`columns
      ensures this.columns == columns
    {
      this.columns := columns;
    }

    method Values(row: seq<Arg>)
      modifies this`values
      ensures values == old(values) + [row]
    {
      values := values + [row];
    }

    method OnConflictDoNothing(columns: seq<string>)
      modifies this`onConflict
      ensures onConflict == OnConflict(columns, "")
    {
      onConflict := OnConflict(columns, "");
    }

    method OnConflictConstraintDoNothing(constraint: string)
      modifies this`onConflict
      ensures onConflict == OnConflict([], constraint)
    {
      onConflict := OnConflict([], constraint);
    }

    function HeadText(): string
      reads this
    {
      "INSERT INTO " + table + " (" + Join(columns, ", ") + ") VALUES "
    }

    function ConflictText(): string
      reads this
    {
      match onConflict
      case NoClause => ""
      case OnConflict(cols, constraint) =>
        " ON CONFLICT"
        + (if constraint != "" then " ON CONSTRAINT " + constraint
           else if cols != [] then " (" + Join(cols, ", ") + ")"
           else "")
        + " DO NOTHING"
    }

    function Segs(): seq<Seg>
      reads this
    {
      Statement(HeadText(), RowsSegs(values), [], "", [], ConflictText() + ReturningText(returning))
    }

    /** Every row is as long as the column list. */
    predicate Shaped()
      reads this
    {
      columns != [] && values != [] && forall k | 0 <= k < |values| :: |values[k]| == |columns|
    }

    method ValidateInsertValues() returns (ok: bool)
      ensures ok <==> values != [] && forall k | 0 <= k < |values| :: |values[k]| == |columns|
    {
      if |values| == 0 {
        return false;
      }
      for idx := 0 to |values|
        invariant forall k | 0 <= k < idx :: |values[k]| == |columns|
      {
        if |values[idx]| != |columns| {
          return false;
        }
      }
      return true;
    }

    method BuildValuesClause() returns (text: string, args: seq<Arg>)
      ensures text == Render(RowsSegs(values), 1)
      ensures args == ArgsOf(RowsSegs(values))
    {
      hide Render, Next, ArgsOf, Digits, Cells, RowsSegs, Join;
      PartsNil(1);
      args := [];
      var argIndex := 1;
      var valueParts := new string[|values|];
      for rowIdx := 0 to |values|
        invariant Join(valueParts[..rowIdx], ", ") == Render(RowsSegs(values[..rowIdx]), 1)
        invariant args == ArgsOf(RowsSegs(values[..rowIdx]))
        invariant argIndex == Next(RowsSegs(values[..rowIdx]), 1)
      {
        var row, start := values[rowIdx], argIndex;
        var placeholders := new string[|row|];
        ghost var parts := valueParts[..rowIdx];
        PartsNil(start);
        for colIdx := 0 to |row|
          invariant Join(placeholders[..colIdx], ", ") == Render(Cells(row[..colIdx]), start)
          invariant argIndex == Next(Cells(row[..colIdx]), start)
          invariant valueParts[..rowIdx] == parts
        {
          CellStep(row, colIdx, start);
          JoinSnoc(placeholders[..colIdx], "$" + Digits(argIndex), ", ");
          ghost var before := placeholders[..colIdx];
          placeholders[colIdx] := "$" + Digits(argIndex);
          assert placeholders[..colIdx + 1] == before + [placeholders[colIdx]];
          argIndex := argIndex + 1;
        }
        assert row[..|row|] == row && placeholders[..] == placeholders[..|row|];
        valueParts[rowIdx] := "(" + Join(placeholders[..], ", ") + ")";
        assert valueParts[..rowIdx + 1] == parts + [valueParts[rowIdx]];
        JoinSnoc(parts, valueParts[rowIdx], ", ");
        RowStep(values, rowIdx, 1);
        args := args + row;
      }
      assert values[..|values|] == values && valueParts[..] == valueParts[..|values|];
      text := Join(valueParts[..], ", ");
    }

    method Build(valid: bool) returns (r: Built)
      ensures r == if valid && Shaped() then Sql(Render(Segs(), 1), ArgsOf(Segs())) else Refused
    {
      var ok := ValidateInsertValues();
      if !valid || |columns| == 0 || !ok {
        return Refused;
      }
      hide *;
      SegsAre();
      var valuesClause, args := BuildValuesClause();
      var text := "INSERT INTO " + table + " (" + Join(columns, ", ") + ") VALUES ";
      var tail := "";
      if |returning| > 0 {
        tail := " RETURNING " + Join(returning, ", ");
      }
      tail := ConflictText() + tail;
      BareRender(HeadText(), RowsSegs(values), tail);
      return Sql(text + valuesClause + tail, args);
    }

    lemma SegsAre()
      ensures Segs() == Statement(HeadText(), RowsSegs(values), [], "", [], ConflictText() + ReturningText(returning))
      ensures HeadText() == "INSERT INTO " + table + " (" + Join(columns, ", ") + ") VALUES "
      ensures ReturningText(returning) == if |returning| > 0 then " RETURNING " + Join(returning, ", ") else ""
      ensures Shaped() <==> |columns| > 0 && |values| > 0 && forall k | 0 <= k < |values| :: |values[k]| == |columns|
    {
    }
  }

  lemma {:induction false} CellsClean(row: seq<Arg>)
    ensures Clean(Cells(row)) && Fenced(Cells(row))
    ensures row != [] ==> Cells(row) != []
  {
    hide Clean, Fenced;
    if row == [] {
      NothingIsClean();
    } else {
      var init, v := row[..|row| - 1], row[|row| - 1];
      CellsClean(init);
      PairAppendClean(Cells(init), if init == [] then "" else ", ", "", v);
      assert (if init == [] then "" else ", ") + "" == if init == [] then "" else ", ";
    }
  }

  lemma RowClean(row: seq<Arg>)
    ensures Clean(RowSegs(row)) && Fenced(RowSegs(row))
    ensures RowSegs(row) != [] && RowSegs(row)[|RowSegs(row)| - 1] == Raw(")")
  {
    CellsClean(row);
    FencedAppend([Raw("(")], Cells(row));
    FencedAppend([Raw("(")] + Cells(row), [Raw(")")]);
  }

  lemma {:induction false} RowsClean(rows: seq<seq<Arg>>)
    ensures Clean(RowsSegs(rows)) && Fenced(RowsSegs(rows))
    ensures rows != [] ==> RowsSegs(rows) != [] && RowsSegs(rows)[|RowsSegs(rows)| - 1] == Raw(")")
  {
    hide RowSegs, Clean, Fenced;
    if rows == [] {
      NothingIsClean();
    } else {
      var init, row := rows[..|rows| - 1], RowSegs(rows[|rows| - 1]);
      RowsClean(init);
      RowClean(rows[|rows| - 1]);
      RowAppendClean(RowsSegs(init), if init == [] then "" else ", ", row);
    }
  }

  lemma NothingIsClean()
    ensures Clean([]) && Fenced([])
  {
  }

  lemma RowAppendClean(before: seq<Seg>, sep: string, row: seq<Seg>)
    requires Clean(before) && Fenced(before) && (before == [] || before[|before| - 1] == Raw(")"))
    requires Clean(row) && Fenced(row) && row != [] && row[|row| - 1] == Raw(")")
    requires sep == "" || sep == ", "
    ensures var after := before + RawOpt(sep) + row;
            Clean(after) && Fenced(after) && after != [] && after[|after| - 1] == Raw(")")
  {
    FencedAppend(before, RawOpt(sep));
    FencedAppend(before + RawOpt(sep), row);
  }

  /** The server reads a built INSERT as the caller meant it. */
  lemma InsertMeaning(b: InsertBuilder)
    requires Plain(b.HeadText()) && Plain(b.ConflictText() + ReturningText(b.returning))
    ensures var sql, args := Render(b.Segs(), 1), ArgsOf(b.Segs());
            && Subst(Tokens(sql), args) == FillSegs(b.Segs())
            && Params(Tokens(sql)) == seq(|args|, k requires 0 <= k < |args| => k + 1)
            && Unread(Tokens(sql)) == Text(b.Segs())
  {
    hide Render, ArgsOf, Text, FillSegs, RowsSegs, Statement;
    RowsClean(b.values);
    TailStarts(b);
    StatementClean(b.HeadText(), RowsSegs(b.values), [], "", [], b.ConflictText() + ReturningText(b.returning));
    StatementMeaning(b.Segs());
  }

  /** The VALUES list, row by row and value by value, with one parameter each. */
  lemma RowsSpelled(rows: seq<seq<Arg>>, row: seq<Arg>, v: Arg, i: nat)
    ensures Render(RowsSegs([]), i) == "" && Next(RowsSegs([]), i) == i
    ensures var index := Next(RowsSegs(rows), i);
            && Render(RowsSegs(rows + [row]), i)
            == Render(RowsSegs(rows), i) + (if rows == [] then "" else ", ") + ("(" + Render(Cells(row), index) + ")")
            && Next(RowsSegs(rows + [row]), i) == index + |row|
    ensures Render(Cells([]), i) == ""
    ensures Render(Cells(row + [v]), i) == Render(Cells(row), i) + (if row == [] then "" else ", ") + ("$" + Digits(i + |row|))
  {
    hide Render, Next, ArgsOf, Digits, Cells, RowsSegs;
    var all, longer := rows + [row], row + [v];
    assert all[..|rows|] == rows && all[..|rows| + 1] == all;
    assert longer[..|row|] == row && longer[..|row| + 1] == longer;
    PartsNil(i);
    CellCount(row, i);
    CellCount(row, Next(RowsSegs(rows), i));
    RowStep(all, |rows|, i);
    CellStep(longer, |row|, i);
  }

  lemma {:induction false} CellCount(row: seq<Arg>, i: nat)
    ensures Next(Cells(row), i) == i + |row|
  {
    hide Render, Next, ArgsOf, Digits, Cells;
    if row == [] {
      PartsNil(i);
    } else {
      var n := |row| - 1;
      assert row[..n + 1] == row;
      CellCount(row[..n], i);
      CellStep(row, n, i);
    }
  }

  /** The whole text of an INSERT. */
  lemma InsertSpelled(b: InsertBuilder)
    ensures Render(b.Segs(), 1)
         == "INSERT INTO " + b.table + " (" + Join(b.columns, ", ") + ") VALUES " + Render(RowsSegs(b.values), 1)
            + ((match b.onConflict
                case NoClause => ""
                case OnConflict(columns, constraint) =>
                  " ON CONFLICT" + (if constraint != "" then " ON CONSTRAINT " + constraint
                                    else if columns != [] then " (" + Join(columns, ", ") + ")"
                                    else "") + " DO NOTHING")
               + (if b.returning == [] then "" else " RETURNING " + Join(b.returning, ", ")))
  {
    hide Render, Next, ArgsOf, RowsSegs, Statement, Join, ReturningText;
    b.SegsAre();
    ReturningSpelled(b.returning);
    BareRender(b.HeadText(), RowsSegs(b.values), b.ConflictText() + ReturningText(b.returning));
  }

  lemma TailStarts(b: InsertBuilder)
    ensures var tail := b.ConflictText() + ReturningText(b.returning); tail == "" || tail[0] == ' '
  {
  }

  /** The value at row r and column c is the argument of parameter r * columns + c + 1. */
  lemma {:induction false} CellIsParameter(rows: seq<seq<Arg>>, n: nat, r: nat, c: nat)
    requires forall k | 0 <= k < |rows| :: |rows[k]| == n
    requires r < |rows| && c < n
    ensures |ArgsOf(RowsSegs(rows))| == |rows| * n
    ensures r * n + c < |rows| * n && ArgsOf(RowsSegs(rows))[r * n + c] == rows[r][c]
  {
    hide *;
    var last := |rows| - 1;
    RowStep(rows, last, 1);
    assert rows[..last + 1] == rows;
    CellIndex(n, |rows|, r, c);
    if last == 0 {
      assert rows[..last] == [];
      PartsNil(1);
    } else {
      CellIsParameter(rows[..last], n, if r < last then r else 0, c);
    }
  }

  lemma CellIndex(n: nat, rows: nat, r: nat, c: nat)
    requires r < rows && c < n
    ensures r * n + c < rows * n == (rows - 1) * n + n
    ensures if r == rows - 1 then r * n == (rows - 1) * n else r * n + c < (rows - 1) * n
  {
    if r < rows - 1 {
      assert (r + 1) * n <= (rows - 1) * n by { Multiples(r + 1, rows - 1, n); }
      assert (r + 1) * n == r * n + n;
    }
  }

  lemma Multiples(a: nat, b: nat, n: nat)
    requires a <= b
    ensures a * n <= b * n
  {
  }

  // ---------- DELETE ----------

  class DeleteBuilder {
    const table: string
    var where: seq<Clause>
    var returning: seq<string>
    var allowUnrestricted: bool

    constructor (table: string)
      ensures this.table == table && where == [] && returning == [] && !allowUnrestricted
    {
      this.table, where, returning, allowUnrestricted := table, [], [], false;
    }

    method Where(condition: string, args: seq<Arg>)
      modifies this`where
      ensures where == old(where) + [Clause(condition, args, false)]
    {
      where := where + [Clause(condition, args, false)];
    }

    method OrWhere(condition: string, args: seq<Arg>)
      modifies this`where
      ensures where == old(where) + [Clause(condition, args, true)]
    {
      where := where + [Clause(condition, args, true)];
    }

    method AllowUnrestrictedDelete()
      modifies this`allowUnrestricted
      ensures allowUnrestricted
    {
      allowUnrestricted := true;
    }

    function Segs(): seq<Seg>
      reads this
    {
      Statement("DELETE FROM " + table, ChainSegs(where, " WHERE "), [], "", [], ReturningText(returning))
    }

    method Build(valid: bool) returns (r: Built)
      ensures r == if valid && (where != [] || allowUnrestricted) then Sql(Render(Segs(), 1), ArgsOf(Segs())) else Refused
    {
      if !valid {
        return Refused;
      }
      if |where| == 0 && !allowUnrestricted {
        return Refused;
      }
      hide Links, ChainSegs, Render, Next, ArgsOf, Replace, Marks, Statement, Join, ReturningText;
      var args, argIndex := [], 1;
      var head, chain, tail := "DELETE FROM " + table, "", "";
      if |where| > 0 {
        chain := " WHERE ";
        LinksNil(where, 1);
        for i := 0 to |where|
          invariant chain == " WHERE " + Render(Links(where[..i]), 1)
          invariant args == ArgsOf(Links(where[..i]))
          invariant argIndex == Next(Links(where[..i]), 1)
        {
          var w := where[i];
          LinkStep(where, i, 1, " WHERE ");
          if i > 0 {
            if w.isOr {
              chain := chain + " OR ";
            } else {
              chain := chain + " AND ";
            }
          }
          var condition, newIndex := ReplacePlaceholders(w.condition, argIndex);
          chain := chain + condition;
          args := args + w.args;
          argIndex := newIndex;
        }
        ChainRender(where, " WHERE ", 1);
      } else {
        ChainNil(where, " WHERE ", 1);
      }
      if |returning| > 0 {
        tail := " RETURNING " + Join(returning, ", ");
      }
      SegsAre();
      BareRender(head, ChainSegs(where, " WHERE "), tail);
      return Sql(head + chain + tail, args);
    }

    lemma SegsAre()
      ensures Segs() == Statement("DELETE FROM " + table, ChainSegs(where, " WHERE "), [], "", [], ReturningText(returning))
      ensures ReturningText(returning) == if |returning| > 0 then " RETURNING " + Join(returning, ", ") else ""
    {
    }
  }

  lemma ChainNil(cs: seq<Clause>, keyword: string, i: nat)
    requires cs == []
    ensures Render(ChainSegs(cs, keyword), i) == "" && ArgsOf(ChainSegs(cs, keyword)) == []
  {
  }

  /** The whole text of a DELETE. */
  lemma DeleteSpelled(b: DeleteBuilder)
    ensures Render(b.Segs(), 1)
         == "DELETE FROM " + b.table + Render(ChainSegs(b.where, " WHERE "), 1)
            + (if b.returning == [] then "" else " RETURNING " + Join(b.returning, ", "))
  {
    hide Render, Next, ArgsOf, ChainSegs, Statement, Join, ReturningText;
    ReturningSpelled(b.returning);
    BareRender("DELETE FROM " + b.table, ChainSegs(b.where, " WHERE "), ReturningText(b.returning));
  }

  lemma DeleteArgs(b: DeleteBuilder)
    ensures ArgsOf(b.Segs()) == ClauseArgs(b.where)
  {
    hide Render, Next, ArgsOf, ChainSegs, Statement, ClauseArgs;
    ChainArgs(b.where, " WHERE ");
    BareRender("DELETE FROM " + b.table, ChainSegs(b.where, " WHERE "), ReturningText(b.returning));
  }

  /** The server reads a built DELETE as the caller meant it. */
  lemma DeleteMeaning(b: DeleteBuilder)
    requires Plain("DELETE FROM " + b.table) && Plain(ReturningText(b.returning))
    requires CleanClauses(b.where)
    ensures var sql, args := Render(b.Segs(), 1), ArgsOf(b.Segs());
            && Subst(Tokens(sql), args) == FillSegs(b.Segs())
            && Params(Tokens(sql)) == seq(|args|, k requires 0 <= k < |args| => k + 1)
            && Unread(Tokens(sql)) == Text(b.Segs())
  {
    hide Render, ArgsOf, Text, FillSegs, ChainSegs, Statement;
    ChainClean(b.where, " WHERE ");
    StatementClean("DELETE FROM " + b.table, ChainSegs(b.where, " WHERE "), [], "", [], ReturningText(b.returning));
    StatementMeaning(b.Segs());
  }
}
