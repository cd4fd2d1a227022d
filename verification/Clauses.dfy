/** The parts that the builders share: condition chains, IN lists and joined text. */
module Clauses {
  import opened Placeholders
  import opened Segments

  datatype Clause = Clause(condition: string, args: seq<Arg>, isOr: bool)

  function Connective(c: Clause): string {
    if c.isOr then " OR " else " AND "
  }

  /** A chain of conditions; the first connective is not written. */
  function Links(cs: seq<Clause>): seq<Seg> {
    if cs == [] then []
    else
      var init, c := cs[..|cs| - 1], cs[|cs| - 1];
      Links(init) + (if init == [] then [] else [Raw(Connective(c))]) + [Tmpl(c.condition, c.args)]
  }

  function ChainSegs(cs: seq<Clause>, keyword: string): seq<Seg> {
    if cs == [] then [] else [Raw(keyword)] + Links(cs)
  }

  /** One turn of the condition loop, after `head` has been written. */
  lemma LinkStep(cs: seq<Clause>, k: nat, i: nat, head: string)
    requires k < |cs|
    ensures var before, c := Links(cs[..k]), cs[k];
            && head + Render(Links(cs[..k + 1]), i)
            == head + Render(before, i) + (if k > 0 then Connective(c) else "") + Replace(c.condition, Next(before, i))
            && ArgsOf(Links(cs[..k + 1])) == ArgsOf(before) + c.args
            && Next(Links(cs[..k + 1]), i) == Next(before, i) + Marks(c.condition)
  {
    hide Render, Next, ArgsOf, Piece1, Width;
    var init, c := cs[..k], cs[k];
    assert cs[..k + 1][..k] == init;
    var before := Links(init);
    var glue := if init == [] then [] else [Raw(Connective(c))];
    LinkSnoc(before, glue, c, i);
    Regroup(head, Render(before, i) + (if k > 0 then Connective(c) else ""), Replace(c.condition, Next(before, i)));
    Regroup(head, Render(before, i), if k > 0 then Connective(c) else "");
  }

  lemma LinksNil(cs: seq<Clause>, i: nat)
    ensures Render(Links(cs[..0]), i) == "" && ArgsOf(Links(cs[..0])) == [] && Next(Links(cs[..0]), i) == i
    ensures cs[..|cs|] == cs
  {
  }

  lemma LinkSnoc(before: seq<Seg>, glue: seq<Seg>, c: Clause, i: nat)
    requires glue == [] || glue == [Raw(Connective(c))]
    ensures var after := before + glue + [Tmpl(c.condition, c.args)];
            && Render(after, i) == Render(before, i) + (if glue == [] then "" else Connective(c)) + Replace(c.condition, Next(before, i))
            && ArgsOf(after) == ArgsOf(before) + c.args
            && Next(after, i) == Next(before, i) + Marks(c.condition)
  {
    hide Render, Next, ArgsOf;
    if glue == [] {
      assert before + glue == before;
    } else {
      RenderSnoc(before, glue[0], i);
    }
    RenderSnoc(before + glue, Tmpl(c.condition, c.args), i);
  }

  lemma ChainRender(cs: seq<Clause>, keyword: string, i: nat)
    requires cs != []
    ensures Render(ChainSegs(cs, keyword), i) == keyword + Render(Links(cs), i)
    ensures ArgsOf(ChainSegs(cs, keyword)) == ArgsOf(Links(cs))
    ensures Next(ChainSegs(cs, keyword), i) == Next(Links(cs), i)
  {
    RenderRaw(keyword, i);
    RenderAppend([Raw(keyword)], Links(cs), i);
  }

  /** WHERE and HAVING of a SELECT. */
  method BuildConditionClauses(clauses: seq<Clause>, keyword: string, argIndex: nat)
    returns (text: string, args: seq<Arg>, next: nat)
    ensures text == Render(ChainSegs(clauses, keyword), argIndex)
    ensures args == ArgsOf(ChainSegs(clauses, keyword))
    ensures next == Next(ChainSegs(clauses, keyword), argIndex)
  {
    if |clauses| == 0 {
      return "", [], argIndex;
    }
    hide Links, ChainSegs, Render, Next, ArgsOf, Replace, Marks;
    LinksNil(clauses, argIndex);
    text, args, next := keyword, [], argIndex;
    for i := 0 to |clauses|
      invariant text == keyword + Render(Links(clauses[..i]), argIndex)
      invariant args == ArgsOf(Links(clauses[..i]))
      invariant next == Next(Links(clauses[..i]), argIndex)
    {
      var w := clauses[i];
      LinkStep(clauses, i, argIndex, keyword);
      if i > 0 {
        if w.isOr {
          text := text + " OR ";
        } else {
          text := text + " AND ";
        }
      }
      var condition, newIndex := ReplacePlaceholders(w.condition, next);
      text := text + condition;
      args := args + w.args;
      next := newIndex;
    }
    ChainRender(clauses, keyword, argIndex);
  }

  /** The text of a chain, clause by clause. */
  lemma ChainSpelled(cs: seq<Clause>, c: Clause, keyword: string, i: nat)
    ensures Render(ChainSegs([], keyword), i) == "" && Next(ChainSegs([], keyword), i) == i
    ensures var before, index := Render(ChainSegs(cs, keyword), i), Next(ChainSegs(cs, keyword), i);
            && Render(ChainSegs(cs + [c], keyword), i)
            == (if cs == [] then keyword else before + (if c.isOr then " OR " else " AND ")) + Replace(c.condition, index)
            && Next(ChainSegs(cs + [c], keyword), i) == index + Marks(c.condition)
  {
    hide Links, ChainSegs, Render, Next, ArgsOf, Replace, Marks;
    var all := cs + [c];
    assert all[..|cs|] == cs && all[..|cs| + 1] == all;
    LinkStep(all, |cs|, i, keyword);
    ChainRender(all, keyword, i);
    NoChain(keyword, i);
    LinksNil(cs, i);
    if cs == [] {
      assert cs[..0] == [];
      assert keyword + "" == keyword;
    } else {
      ChainRender(cs, keyword, i);
    }
  }

  lemma NoChain(keyword: string, i: nat)
    ensures Render(ChainSegs([], keyword), i) == "" && Next(ChainSegs([], keyword), i) == i
    ensures ArgsOf(ChainSegs([], keyword)) == []
  {
  }

  /** The arguments of the clauses, in the order in which they were added. */
  function ClauseArgs(cs: seq<Clause>): seq<Arg> {
    if cs == [] then [] else cs[0].args + ClauseArgs(cs[1..])
  }

  lemma {:induction false} ClauseArgsSnoc(cs: seq<Clause>, c: Clause)
    ensures ClauseArgs(cs + [c]) == ClauseArgs(cs) + c.args
  {
    if cs == [] {
      assert ([] + [c])[1..] == [];
    } else {
      ClauseArgsSnoc(cs[1..], c);
      assert (cs + [c])[1..] == cs[1..] + [c];
    }
  }

  lemma {:induction false} LinksArgs(cs: seq<Clause>)
    ensures ArgsOf(Links(cs)) == ClauseArgs(cs)
  {
    if cs != [] {
      var n := |cs| - 1;
      assert cs[..n + 1] == cs && cs == cs[..n] + [cs[n]];
      LinksArgs(cs[..n]);
      LinkStep(cs, n, 1, "");
      ClauseArgsSnoc(cs[..n], cs[n]);
    }
  }

  /** A chain passes exactly its clauses' arguments, in the order of the clauses. */
  lemma {:induction false} ChainArgs(cs: seq<Clause>, keyword: string)
    ensures ArgsOf(ChainSegs(cs, keyword)) == ClauseArgs(cs)
  {
    if cs == [] {
    } else {
      LinksArgs(cs);
      ChainRender(cs, keyword, 1);
    }
  }

  predicate CleanClauses(cs: seq<Clause>) {
    forall k | 0 <= k < |cs| :: CleanClause(cs[k].condition, cs[k].args)
  }

  lemma {:induction false} LinksClean(cs: seq<Clause>)
    requires CleanClauses(cs)
    ensures Clean(Links(cs)) && Fenced(Links(cs))
    ensures cs != [] ==> Links(cs) != []
  {
    if cs != [] {
      hide Marks, Readable, Clean, Fenced;
      var init, c := cs[..|cs| - 1], cs[|cs| - 1];
      LinksClean(init);
      if init == [] {
        assert Links(cs) == [Tmpl(c.condition, c.args)];
        OneIsClean(Tmpl(c.condition, c.args));
      } else {
        LinkAppendClean(Links(init), c);
      }
    }
  }

  lemma OneIsClean(s: Seg)
    requires CleanSeg(s)
    ensures Clean([s]) && Fenced([s])
  {
  }

  lemma LinkAppendClean(before: seq<Seg>, c: Clause)
    requires Clean(before) && Fenced(before) && CleanClause(c.condition, c.args)
    ensures var after := before + [Raw(Connective(c))] + [Tmpl(c.condition, c.args)]; Clean(after) && Fenced(after)
  {
    hide Marks, Readable;
  }

  lemma ChainClean(cs: seq<Clause>, keyword: string)
    requires CleanClauses(cs) && Plain(keyword) && Fence(Raw(keyword))
    ensures Clean(ChainSegs(cs, keyword)) && Fenced(ChainSegs(cs, keyword))
    ensures ChainSegs(cs, keyword) == [] || Fence(ChainSegs(cs, keyword)[0])
  {
    LinksClean(cs);
    if cs != [] {
      FencedAppend([Raw(keyword)], Links(cs));
    }
  }

  // ---------- Joined text and IN lists ----------

  /** strings.Join. */
  function Join(parts: seq<string>, sep: string): string {
    if parts == [] then ""
    else if |parts| == 1 then parts[0]
    else Join(parts[..|parts| - 1], sep) + sep + parts[|parts| - 1]
  }

  lemma JoinSnoc(parts: seq<string>, part: string, sep: string)
    ensures Join(parts + [part], sep) == Join(parts, sep) + (if parts == [] then "" else sep) + part
  {
    assert (parts + [part])[..|parts|] == parts;
  }

  function Questions(n: nat): string {
    if n == 0 then "" else Questions(n - 1) + (if n == 1 then "" else ", ") + "?"
  }

  function InCondition(column: string, operator: string, n: nat): string {
    column + operator + "(" + Questions(n) + ")"
  }

  /** The condition of WhereIn and WhereNotIn; an empty list adds none. */
  method BuildIn(column: string, operator: string, values: seq<Arg>) returns (condition: string)
    ensures condition == InCondition(column, operator, |values|)
    ensures condition == column + operator + "(" + Questions(|values|) + ")"
  {
    var placeholders: seq<string> := [];
    for i := 0 to |values|
      invariant |placeholders| == i
      invariant Join(placeholders, ", ") == Questions(i)
    {
      JoinSnoc(placeholders, "?", ", ");
      placeholders := placeholders + ["?"];
    }
    condition := column + operator + "(" + Join(placeholders, ", ") + ")";
  }

  /** A list of marks is "?", "?, ?" and so on. */
  lemma {:induction false} QuestionsAt(n: nat, k: nat)
    requires n >= 1 && k < 3 * n - 2
    ensures |Questions(n)| == 3 * n - 2
    ensures Questions(n)[k] == if k % 3 == 0 then '?' else if k % 3 == 1 then ',' else ' '
  {
    if n > 1 {
      QuestionsAt(n - 1, if k < 3 * n - 5 then k else 0);
    }
  }

  lemma {:induction false} QuestionsClean(n: nat)
    ensures Marks(Questions(n)) == n && Readable(Questions(n)) && '$' !in Questions(n)
  {
    if n > 0 {
      hide Marks, Replace, Readable;
      QuestionsClean(n - 1);
      AnotherMark(Questions(n - 1), if n == 1 then "" else ", ");
    } else {
      PlainHasNoMarks("");
    }
  }

  lemma AnotherMark(t: string, sep: string)
    requires Readable(t) && (sep == "" || sep == ", ")
    ensures Marks(t + sep + "?") == Marks(t) + 1 && Readable(t + sep + "?")
  {
    hide Marks, Replace;
    ReplaceAppend(t + sep, "?", 1);
    ReplaceAppend(t, sep, 1);
    PlainHasNoMarks(sep);
    ReplaceOne('?', 1);
    ReadableAppend(t, sep);
    ReadableAppend(t + sep, "?");
  }

  /** An IN condition on a plain column has exactly one mark per value, and is clean. */
  lemma InIsClean(column: string, operator: string, values: seq<Arg>)
    requires Plain(column) && Plain(operator)
    ensures CleanClause(InCondition(column, operator, |values|), values)
  {
    var head, n := column + operator + "(", |values|;
    QuestionsClean(n);
    SegReadable(Raw(head));
    PlainHasNoMarks(head);
    PlainHasNoMarks(")");
    ReplaceAppend(head, Questions(n), 1);
    ReplaceAppend(head + Questions(n), ")", 1);
    ReadableHead(head, Questions(n));
    ReadableAppend(head + Questions(n), ")");
  }

  lemma ReadableHead(head: string, t: string)
    requires Plain(head) && Readable(head) && Readable(t)
    ensures Readable(head + t)
  {
    assert head != [] ==> head[|head| - 1] in head;
    ReadableAppend(head, t);
  }

  /** BETWEEN has its two marks in order. */
  lemma BetweenIsClean(column: string, lo: Arg, hi: Arg)
    requires Plain(column)
    ensures CleanClause(column + " BETWEEN ? AND ?", [lo, hi])
  {
    hide Marks, Readable, Plain;
    BetweenTail();
    PlainPrefix(column, " BETWEEN ? AND ?");
  }

  lemma PlainPrefix(column: string, rest: string)
    requires Plain(column) && Readable(rest) && '$' !in rest
    ensures Marks(column + rest) == Marks(rest) && Readable(column + rest) && '$' !in column + rest
  {
    SegReadable(Raw(column));
    PlainHasNoMarks(column);
    ReplaceAppend(column, rest, 1);
    ReadableHead(column, rest);
  }

  lemma BetweenTail()
    ensures Marks(" BETWEEN ? AND ?") == 2 && Readable(" BETWEEN ? AND ?")
  {
    hide *;
    SpacedMarks(" BETWEEN ", " AND ");
    assert " BETWEEN ? AND ?" == " BETWEEN " + "?" + " AND " + "?";
  }

  lemma SpacedMarks(a: string, b: string)
    requires '?' !in a && '$' !in a && '?' !in b && '$' !in b && b != [] && b[0] == ' '
    ensures Marks(a + "?" + b + "?") == 2 && Readable(a + "?" + b + "?")
  {
    hide Marks, Replace, Digits, Readable;
    ReplaceOne('?', 1);
    MarkIsReadable();
    PlainPrefix(b, "?");
    PlainHasNoMarks(a);
    SegReadable(Raw(a));
    SegReadable(Raw(b));
    ReplaceAppend(a, "?", 1);
    ReplaceAppend(a + "?", b, 1);
    ReplaceAppend(a + "?" + b, "?", 1);
    PlainHasNoMarks(b);
    ReadableHead(a, "?");
    ReadableAppend(a + "?", b);
    ReadableAppend(a + "?" + b, "?");
  }

  lemma MarkIsReadable()
    ensures Readable("?")
  {
  }
}
