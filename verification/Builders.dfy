/**
 The statement builders. Each `Build` writes its statement piece by piece; the piece list of the statement
 (`Segs`) is what the text and the flat arguments are proved to be. The verdict of the identifier and
 allowlist checks is the parameter `valid`.
 */
module Builders {
  import opened Redis
  import opened Placeholders
  import opened Segments
  import opened Clauses

  datatype Built = Sql(text: string, args: seq<Arg>) | Refused

  datatype JoinClause = JoinClause(kind: string, table: string, condition: string, args: seq<Arg>)

  datatype OrderBy = OrderBy(column: string, direction: string)

  function RawOpt(t: string): seq<Seg> {
    if t == "" then [] else [Raw(t)]
  }

  lemma RawOptRender(t: string, i: nat)
    ensures Render(RawOpt(t), i) == t && ArgsOf(RawOpt(t)) == [] && Next(RawOpt(t), i) == i
  {
  }

  /** %d of any integer. */
  function Number10(n: int): string {
    if n < 0 then "-" + Digits(-n) else Digits(n)
  }

  // ---------- SELECT ----------

  function JoinHead(j: JoinClause): string {
    " " + j.kind + " " + j.table + " ON "
  }

  function JoinSegs(js: seq<JoinClause>): seq<Seg> {
    if js == [] then []
    else JoinSegs(js[..|js| - 1]) + [Raw(JoinHead(js[|js| - 1]))] + [Tmpl(js[|js| - 1].condition, js[|js| - 1].args)]
  }

  lemma JoinStep(js: seq<JoinClause>, k: nat, i: nat)
    requires k < |js|
    ensures var before, j := JoinSegs(js[..k]), js[k];
            && Render(JoinSegs(js[..k + 1]), i) == Render(before, i) + JoinHead(j) + Replace(j.condition, Next(before, i))
            && ArgsOf(JoinSegs(js[..k + 1])) == ArgsOf(before) + j.args
            && Next(JoinSegs(js[..k + 1]), i) == Next(before, i) + Marks(j.condition)
    ensures js[..0] == [] && js[..|js|] == js
  {
    hide Render, Next, ArgsOf, JoinHead;
    var before, j := JoinSegs(js[..k]), js[k];
    assert js[..k + 1][..k] == js[..k];
    RenderSnoc(before, Raw(JoinHead(j)), i);
    RenderSnoc(before + [Raw(JoinHead(j))], Tmpl(j.condition, j.args), i);
  }

  class SelectBuilder {
    const table: string
    var columns: seq<string>
    var distinct: bool
    var where: seq<Clause>
    var joins: seq<JoinClause>
    var orderBy: seq<OrderBy>
    var limit: Option<int>
    var offset: Option<int>
    var groupBy: seq<string>
    var having: seq<Clause>
    var forUpdate: bool
    var forShare: bool

    constructor (table: string)
      ensures this.table == table && columns == [] && !distinct && where == [] && joins == [] && orderBy == []
      ensures limit == None && offset == None && groupBy == [] && having == [] && !forUpdate && !forShare
    {
      this.table := table;
      columns, distinct, where, joins, orderBy := [], false, [], [], [];
      limit, offset, groupBy, having, forUpdate, forShare := None, None, [], [], false, false;
    }

    method Where(condition: string, args: seq<Arg>)
      modifies this`where
      ensures where == old(where) + [Clause(condition, args, false)]
    {
      where := where + [Clause(condition, args, false)];
    }

    method OrWhere(condition: string, args: seq<Arg>)
      modifies this`where
      ensures where == old(where) + [Clause(condition, args, true)]
    {
      where := where + [Clause(condition, args, true)];
    }

    method WhereIn(column: string, values: seq<Arg>)
      modifies this`where
      ensures where == old(where) +
                if values == [] then [] else [Clause(InCondition(column, " IN ", |values|), values, false)]
    {
      if |values| == 0 {
        return;
      }
      var condition := BuildIn(column, " IN ", values);
      where := where + [Clause(condition, values, false)];
    }

    method WhereNotIn(column: string, values: seq<Arg>)
      modifies this`where
      ensures where == old(where) +
                if values == [] then [] else [Clause(InCondition(column, " NOT IN ", |values|), values, false)]
    {
      if |values| == 0 {
        return;
      }
      var condition := BuildIn(column, " NOT IN ", values);
      where := where + [Clause(condition, values, false)];
    }

    method WhereBetween(column: string, minVal: Arg, maxVal: Arg)
      modifies this`where
      ensures where == old(where) + [Clause(column + " BETWEEN ? AND ?", [minVal, maxVal], false)]
    {
      where := where + [Clause(column + " BETWEEN ? AND ?", [minVal, maxVal], false)];
    }

    method AddJoin(kind: string, joined: string, condition: string, args: seq<Arg>)
      modifies this`joins
      ensures joins == old(joins) + [JoinClause(kind, joined, condition, args)]
    {
      joins := joins + [JoinClause(kind, joined, condition, args)];
    }

    method Having(condition: string, args: seq<Arg>)
      modifies this`having
      ensures having == old(having) + [Clause(condition, args, false)]
    {
      having := having + [Clause(condition, args, false)];
    }

    method ForUpdate()
      modifies this`forUpdate, this`forShare
      ensures forUpdate && !forShare
    {
      forUpdate, forShare := true, false;
    }

    method ForShare()
      modifies this`forUpdate, this`forShare
      ensures forShare && !forUpdate
    {
      forShare, forUpdate := true, false;
    }

    function SelectText(): string
      reads this
    {
      "SELECT " + (if distinct then "DISTINCT " else "")
      + (if columns == [] then "*" else Join(columns, ", ")) + " FROM " + table
    }

    function GroupText(): string
      reads this
    {
      if groupBy == [] then "" else " GROUP BY " + Join(groupBy, ", ")
    }

    function TailText(): string
      reads this
    {
      OrderText(orderBy)
      + (if limit.Some? then " LIMIT " + Number10(limit.value) else "")
      + (if offset.Some? then " OFFSET " + Number10(offset.value) else "")
      + (if forUpdate then " FOR UPDATE" else if forShare then " FOR SHARE" else "")
    }

    /** The pieces of the statement, in order. */
    function Segs(): seq<Seg>
      reads this
    {
      [Raw(SelectText())] + JoinSegs(joins) + ChainSegs(where, " WHERE ") + RawOpt(GroupText())
      + ChainSegs(having, " HAVING ") + RawOpt(TailText())
    }

    method BuildSelectClause() returns (text: string)
      ensures text == SelectText()
    {
      text := "SELECT ";
      if distinct {
        text := text + "DISTINCT ";
      }
      if |columns| == 0 {
        text := text + "*";
      } else {
        text := text + Join(columns, ", ");
      }
      text := text + " FROM ";
      text := text + table;
    }

    method BuildJoinClauses(argIndex: nat) returns (text: string, args: seq<Arg>, next: nat)
      ensures text == Render(JoinSegs(joins), argIndex)
      ensures args == ArgsOf(JoinSegs(joins))
      ensures next == Next(JoinSegs(joins), argIndex)
    {
      if |joins| == 0 {
        return "", [], argIndex;
      }
      hide Render, Next, ArgsOf, Replace, Marks;
      RenderNil(argIndex);
      text, args, next := "", [], argIndex;
      for i := 0 to |joins|
        invariant text == Render(JoinSegs(joins[..i]), argIndex)
        invariant args == ArgsOf(JoinSegs(joins[..i]))
        invariant next == Next(JoinSegs(joins[..i]), argIndex)
      {
        var j := joins[i];
        JoinStep(joins, i, argIndex);
        text := text + (" " + j.kind + " " + j.table + " ON ");
        var condition, newIndex := ReplacePlaceholders(j.condition, next);
        text := text + condition;
        args := args + j.args;
        next := newIndex;
      }
      assert joins[..|joins|] == joins;
    }

    method BuildTail() returns (text: string)
      ensures text == TailText()
    {
      hide OrderText, Number10;
      var order := BuildOrderBy(orderBy);
      var limits := "";
      if limit.Some? {
        limits := limits + (" LIMIT " + Number10(limit.value));
      }
      var offsets := "";
      if offset.Some? {
        offsets := offsets + (" OFFSET " + Number10(offset.value));
      }
      var locking := "";
      if forUpdate {
        locking := " FOR UPDATE";
      } else if forShare {
        locking := " FOR SHARE";
      }
      text := order + limits + offsets + locking;
    }

    method Build(valid: bool) returns (r: Built)
      ensures r == if valid then Sql(Render(Segs(), 1), ArgsOf(Segs())) else Refused
    {
      if !valid {
        return Refused;
      }
      hide Render, Next, ArgsOf, Segs;
      var text := BuildSelectClause();
      var joinText, joinArgs, i1 := BuildJoinClauses(1);
      var whereText, whereArgs, i2 := BuildConditionClauses(where, " WHERE ", i1);
      var groupText := "";
      if |groupBy| > 0 {
        groupText := " GROUP BY " + Join(groupBy, ", ");
      }
      var havingText, havingArgs, _ := BuildConditionClauses(having, " HAVING ", i2);
      var tail := BuildTail();
      StatementRender(SelectText(), JoinSegs(joins), ChainSegs(where, " WHERE "), GroupText(), ChainSegs(having, " HAVING "), TailText());
      SegsAre();
      return Sql(text + joinText + whereText + groupText + havingText + tail, joinArgs + whereArgs + havingArgs);
    }

    lemma SegsAre()
      ensures Segs() == Statement(SelectText(), JoinSegs(joins), ChainSegs(where, " WHERE "), GroupText(),
                                   ChainSegs(having, " HAVING "), TailText())
    {
    }
  }

  function UpperChar(c: char): char {
    if 'a' <= c <= 'z' then (c as int - 32) as char else c
  }

  /** strings.ToUpper on ASCII letters; other characters are kept. */
  function ToUpper(s: string): (r: string)
    ensures |r| == |s|
  {
    seq(|s|, i requires 0 <= i < |s| => UpperChar(s[i]))
  }

  function OrderPart(o: OrderBy): string {
    o.column + " " + if o.direction == "" then "ASC" else ToUpper(o.direction)
  }

  function OrderParts(os: seq<OrderBy>): seq<string> {
    seq(|os|, i requires 0 <= i < |os| => OrderPart(os[i]))
  }

  function OrderText(os: seq<OrderBy>): string {
    if os == [] then "" else " ORDER BY " + Join(OrderParts(os), ", ")
  }

  method BuildOrderBy(os: seq<OrderBy>) returns (text: string)
    ensures text == OrderText(os)
  {
    if |os| == 0 {
      return "";
    }
    var parts: seq<string> := [];
    for i := 0 to |os|
      invariant parts == OrderParts(os)[..i]
    {
      var dir := ToUpper(os[i].direction);
      if dir == "" {
        dir := "ASC";
      }
      parts := parts + [os[i].column + " " + dir];
    }
    assert parts == OrderParts(os);
    text := " ORDER BY " + Join(parts, ", ");
  }

  /** A statement: raw text, two numbered parts, raw text, a third numbered part, raw text. */
  function Statement(head: string, js: seq<Seg>, ws: seq<Seg>, group: string, hs: seq<Seg>, tail: string): seq<Seg> {
    [Raw(head)] + js + ws + RawOpt(group) + hs + RawOpt(tail)
  }

  lemma StatementRender(head: string, js: seq<Seg>, ws: seq<Seg>, group: string, hs: seq<Seg>, tail: string)
    ensures var segs := Statement(head, js, ws, group, hs, tail);
            var i1 := Next(js, 1);
            var i2 := Next(ws, i1);
            && Render(segs, 1) == head + Render(js, 1) + Render(ws, i1) + group + Render(hs, i2) + tail
            && ArgsOf(segs) == ArgsOf(js) + ArgsOf(ws) + ArgsOf(hs)
  {
    hide Render, Next, ArgsOf, RawOpt;
    var a := [Raw(head)];
    var i1 := Next(js, 1);
    var i2 := Next(ws, i1);
    RenderRaw(head, 1);
    RenderAppend(a, js, 1);
    RenderAppend(a + js, ws, 1);
    RenderAppend(a + js + ws, RawOpt(group), 1);
    RawOptRender(group, i2);
    RenderAppend(a + js + ws + RawOpt(group), hs, 1);
    RenderAppend(a + js + ws + RawOpt(group) + hs, RawOpt(tail), 1);
    RawOptRender(tail, Next(hs, i2));
  }

  predicate CleanJoins(js: seq<JoinClause>) {
    forall k | 0 <= k < |js| :: Plain(JoinHead(js[k])) && CleanClause(js[k].condition, js[k].args)
  }

  lemma {:induction false} JoinsClean(js: seq<JoinClause>)
    requires CleanJoins(js)
    ensures Clean(JoinSegs(js)) && Fenced(JoinSegs(js))
  {
    if js != [] {
      var init, j := js[..|js| - 1], js[|js| - 1];
      var pair := [Raw(JoinHead(j))] + [Tmpl(j.condition, j.args)];
      JoinsClean(init);
      assert JoinSegs(js) == JoinSegs(init) + pair;
      assert JoinHead(j)[0] == ' ';
      assert Clean(pair) && Fenced(pair) && Fence(pair[0]);
      FencedAppend(JoinSegs(init), pair);
    }
  }

  /** Clean clauses and plain names make a clean, fenced statement. */
  lemma StatementClean(head: string, js: seq<Seg>, ws: seq<Seg>, group: string, hs: seq<Seg>, tail: string)
    requires Plain(head) && Plain(group) && Plain(tail)
    requires Clean(js) && Fenced(js)
    requires Clean(ws) && Fenced(ws) && (ws == [] || Fence(ws[0]))
    requires Clean(hs) && Fenced(hs) && (hs == [] || Fence(hs[0]))
    requires (group == "" || !IsDigit(group[0])) && (tail == "" || !IsDigit(tail[0]))
    ensures Clean(Statement(head, js, ws, group, hs, tail)) && Fenced(Statement(head, js, ws, group, hs, tail))
  {
    hide Marks, Readable;
    var a := [Raw(head)];
    FencedAppend(a, js);
    FencedAppend(a + js, ws);
    FencedAppend(a + js + ws, RawOpt(group));
    FencedAppend(a + js + ws + RawOpt(group), hs);
    FencedAppend(a + js + ws + RawOpt(group) + hs, RawOpt(tail));
  }

  /** The text of the joins, join by join. */
  lemma JoinSpelled(js: seq<JoinClause>, j: JoinClause, i: nat)
    ensures Render(JoinSegs([]), i) == "" && Next(JoinSegs([]), i) == i
    ensures var before, index := Render(JoinSegs(js), i), Next(JoinSegs(js), i);
            && Render(JoinSegs(js + [j]), i)
            == before + (" " + j.kind + " " + j.table + " ON ") + Replace(j.condition, index)
            && Next(JoinSegs(js + [j]), i) == index + Marks(j.condition)
  {
    var all := js + [j];
    assert all[..|js|] == js && all[..|js| + 1] == all;
    JoinStep(all, |js|, i);
  }

  /** %d of any integer, read back: a minus sign and the digits of its size. */
  lemma NumberSpelled(n: int)
    ensures if n >= 0 then (forall k | 0 <= k < |Number10(n)| :: IsDigit(Number10(n)[k])) && Value(Number10(n)) == n
            else |Number10(n)| > 1 && Number10(n)[0] == '-'
                 && (forall k | 0 <= k < |Number10(n)[1..]| :: IsDigit(Number10(n)[1..][k])) && Value(Number10(n)[1..]) == -n
  {
    if n >= 0 {
      ValueOfDigits(n);
    } else {
      ValueOfDigits(-n);
      assert Number10(n)[1..] == Digits(-n);
    }
  }

  /** Each ORDER BY entry: the column and its direction in upper case, ASC if it has none. */
  lemma OrderSpelled(os: seq<OrderBy>, k: nat)
    requires k < |os|
    ensures |OrderParts(os)| == |os|
    ensures OrderParts(os)[k] == os[k].column + " " + if os[k].direction == "" then "ASC" else ToUpper(os[k].direction)
    ensures ToUpper("asc") == "ASC" && ToUpper("desc") == "DESC"
    ensures forall j | 0 <= j < |os[k].direction| ::
              var c := os[k].direction[j];
              ToUpper(os[k].direction)[j] == if 'a' <= c <= 'z' then (c as int - 32) as char else c
  {
    assert ToUpper("asc") == ['A', 'S', 'C'];
    assert ToUpper("desc") == ['D', 'E', 'S', 'C'];
  }

  /** The whole text of a SELECT; the three numbered parts are spelled clause by clause by JoinSpelled and ChainSpelled. */
  lemma SelectSpelled(b: SelectBuilder)
    ensures var joined := Next(JoinSegs(b.joins), 1);
            var filtered := Next(ChainSegs(b.where, " WHERE "), joined);
            (Render(b.Segs(), 1)
         == ("SELECT " + (if b.distinct then "DISTINCT " else "")
             + (if b.columns == [] then "*" else Join(b.columns, ", ")) + " FROM " + b.table)
            + Render(JoinSegs(b.joins), 1)
            + Render(ChainSegs(b.where, " WHERE "), joined)
            + (if b.groupBy == [] then "" else " GROUP BY " + Join(b.groupBy, ", "))
            + Render(ChainSegs(b.having, " HAVING "), filtered)
            + ((if b.orderBy == [] then "" else " ORDER BY " + Join(OrderParts(b.orderBy), ", "))
               + (if b.limit.Some? then " LIMIT " + Number10(b.limit.value) else "")
               + (if b.offset.Some? then " OFFSET " + Number10(b.offset.value) else "")
               + (if b.forUpdate then " FOR UPDATE" else if b.forShare then " FOR SHARE" else "")))
  {
    hide Render, Next, ArgsOf, JoinSegs, ChainSegs, Join, OrderParts, Number10, Statement;
    b.SegsAre();
    StatementRender(b.SelectText(), JoinSegs(b.joins), ChainSegs(b.where, " WHERE "), b.GroupText(),
                    ChainSegs(b.having, " HAVING "), b.TailText());
  }

  function JoinArgs(js: seq<JoinClause>): seq<Arg> {
    if js == [] then [] else JoinArgs(js[..|js| - 1]) + js[|js| - 1].args
  }

  lemma {:induction false} JoinSegsArgs(js: seq<JoinClause>)
    ensures ArgsOf(JoinSegs(js)) == JoinArgs(js)
  {
    if js != [] {
      var n := |js| - 1;
      assert js[..n + 1] == js;
      JoinSegsArgs(js[..n]);
      JoinStep(js, n, 1);
    }
  }

  /** A SELECT passes the arguments of its joins, then of WHERE, then of HAVING. */
  lemma SelectArgs(b: SelectBuilder)
    ensures ArgsOf(b.Segs()) == JoinArgs(b.joins) + ClauseArgs(b.where) + ClauseArgs(b.having)
  {
    hide *;
    b.SegsAre();
    JoinSegsArgs(b.joins);
    ChainArgs(b.where, " WHERE ");
    ChainArgs(b.having, " HAVING ");
    StatementRender(b.SelectText(), JoinSegs(b.joins), ChainSegs(b.where, " WHERE "), b.GroupText(),
                    ChainSegs(b.having, " HAVING "), b.TailText());
  }

  lemma TextStarts(b: SelectBuilder)
    ensures b.GroupText() == "" || !IsDigit(b.GroupText()[0])
    ensures b.TailText() == "" || !IsDigit(b.TailText()[0])
    ensures Plain(" WHERE ") && Fence(Raw(" WHERE ")) && Plain(" HAVING ") && Fence(Raw(" HAVING "))
  {
    hide Join, Number10, OrderParts;
  }

  /** The server reads a built SELECT as the caller meant it. */
  lemma SelectMeaning(b: SelectBuilder)
    requires Plain(b.SelectText()) && Plain(b.GroupText()) && Plain(b.TailText())
    requires CleanJoins(b.joins) && CleanClauses(b.where) && CleanClauses(b.having)
    ensures var sql, args := Render(b.Segs(), 1), ArgsOf(b.Segs());
            && Subst(Tokens(sql), args) == FillSegs(b.Segs())
            && Params(Tokens(sql)) == seq(|args|, k requires 0 <= k < |args| => k + 1)
            && Unread(Tokens(sql)) == Text(b.Segs())
  {
    hide *;
    b.SegsAre();
    TextStarts(b);
    JoinsClean(b.joins);
    ChainClean(b.where, " WHERE ");
    ChainClean(b.having, " HAVING ");
    StatementClean(b.SelectText(), JoinSegs(b.joins), ChainSegs(b.where, " WHERE "), b.GroupText(),
                ChainSegs(b.having, " HAVING "), b.TailText());
    StatementMeaning(b.Segs());
  }
}
