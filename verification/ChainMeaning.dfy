/**
 What a WHERE or HAVING chain means. The builders emit the conditions one after another with AND and OR and no
 parentheses; the server parses that with AND binding tighter than OR (PostgreSQL manual, section 4.1.6).
 */
module ChainMeaning {
  import opened Segments
  import opened Clauses

  /** A lexed chain; `Atom(k)` is the k-th condition, taken as one unit. */
  datatype Tok = Atom(k: nat) | And | Or

  function Op(c: Clause): Tok {
    if c.isOr then Or else And
  }

  /** The tokens of the conditions from `k` on. */
  function From(cs: seq<Clause>, k: nat): seq<Tok>
    decreases |cs| - k
  {
    if k >= |cs| then []
    else if k + 1 == |cs| then [Atom(k)]
    else [Atom(k), Op(cs[k + 1])] + From(cs, k + 1)
  }

  function Spell(cs: seq<Clause>, t: Tok): Seg {
    match t
    case Atom(k) => if k < |cs| then Tmpl(cs[k].condition, cs[k].args) else Raw("")
    case And => Raw(" AND ")
    case Or => Raw(" OR ")
  }

  function SpellAll(cs: seq<Clause>, ts: seq<Tok>): seq<Seg> {
    seq(|ts|, j requires 0 <= j < |ts| => Spell(cs, ts[j]))
  }

  /** Token by token, the emitted chain is the first `n` conditions and their connectives. */
  lemma {:induction false} EmittedPrefix(cs: seq<Clause>, n: nat)
    requires n <= |cs|
    ensures Links(cs[..n]) == SpellAll(cs, if n == 0 then [] else Prefix(cs, n))
  {
    hide *;
    if n == 0 {
      SpellAppend(cs, [], [], And);
      assert cs[..0] == [];
      LinksStart(cs);
    } else {
      EmittedPrefix(cs, n - 1);
      EmittedStep(cs, n - 1);
      if n == 1 {
        SpellAppend(cs, [], [], Atom(0));
      } else {
        SpellAppend(cs, Prefix(cs, n - 1), [Op(cs[n - 1])], Atom(n - 1));
      }
    }
  }

  lemma LinksStart(cs: seq<Clause>)
    ensures Links([]) == [] && (cs != [] ==> Prefix(cs, 1) == [Atom(0)])
  {
  }

  lemma EmittedStep(cs: seq<Clause>, n: nat)
    requires n < |cs|
    ensures n == 0 ==> Links(cs[..1]) == [] + [Spell(cs, Atom(0))] && Prefix(cs, 1) == [] + [] + [Atom(0)]
    ensures n > 0 ==> Links(cs[..n + 1]) == Links(cs[..n]) + [Spell(cs, Op(cs[n]))] + [Spell(cs, Atom(n))]
    ensures n > 0 ==> Prefix(cs, n + 1) == Prefix(cs, n) + [Op(cs[n])] + [Atom(n)]
  {
    assert cs[..n + 1][..n] == cs[..n];
  }

  lemma SpellAppend(cs: seq<Clause>, before: seq<Tok>, glue: seq<Tok>, t: Tok)
    requires |glue| <= 1
    ensures SpellAll(cs, before + glue + [t])
         == SpellAll(cs, before) + (if glue == [] then [] else [Spell(cs, glue[0])]) + [Spell(cs, t)]
    ensures SpellAll(cs, [t]) == [Spell(cs, t)] && SpellAll(cs, []) == []
  {
    hide Spell;
  }

  /** The tokens of the first `n` conditions. */
  function Prefix(cs: seq<Clause>, n: nat): seq<Tok>
    requires 1 <= n <= |cs|
  {
    if n == 1 then [Atom(0)] else Prefix(cs, n - 1) + [Op(cs[n - 1]), Atom(n - 1)]
  }

  lemma {:induction false} PrefixAndRest(cs: seq<Clause>, n: nat)
    requires 1 <= n <= |cs|
    ensures From(cs, 0) == Prefix(cs, n) + if n == |cs| then [] else [Op(cs[n])] + From(cs, n)
  {
    if n > 1 {
      PrefixAndRest(cs, n - 1);
    }
  }

  /** The emitted chain, spelled token by token. */
  lemma EmittedChain(cs: seq<Clause>)
    ensures Links(cs) == SpellAll(cs, From(cs, 0))
  {
    EmittedPrefix(cs, |cs|);
    assert cs[..|cs|] == cs;
    if cs != [] {
      PrefixAndRest(cs, |cs|);
    }
  }

  // ---------- The server's parse ----------

  datatype Expr = Leaf(k: nat) | Conj(l: Expr, r: Expr) | Disj(l: Expr, r: Expr)

  datatype Parsed = Parsed(e: Expr, rest: seq<Tok>) | Bad

  /** term := atom { AND atom } */
  function ParseTerm(ts: seq<Tok>): (r: Parsed)
    ensures r.Parsed? ==> |r.rest| < |ts|
    decreases |ts|
  {
    if ts == [] || !ts[0].Atom? then Bad
    else if |ts| > 1 && ts[1].And? then
      match ParseTerm(ts[2..])
      case Bad => Bad
      case Parsed(e, rest) => Parsed(Conj(Leaf(ts[0].k), e), rest)
    else Parsed(Leaf(ts[0].k), ts[1..])
  }

  /** expr := term { OR term } */
  function ParseExpr(ts: seq<Tok>): (r: Parsed)
    ensures r.Parsed? ==> |r.rest| < |ts|
    decreases |ts|
  {
    match ParseTerm(ts)
    case Bad => Bad
    case Parsed(t, rest) =>
      if rest != [] && rest[0].Or? then
        match ParseExpr(rest[1..])
        case Bad => Bad
        case Parsed(e, rest') => Parsed(Disj(t, e), rest')
      else Parsed(t, rest)
  }

  function Eval(e: Expr, v: nat -> bool): bool {
    match e
    case Leaf(k) => v(k)
    case Conj(l, r) => Eval(l, v) && Eval(r, v)
    case Disj(l, r) => Eval(l, v) || Eval(r, v)
  }

  // ---------- The intended meaning ----------

  /** The AND-run that starts at `s` ends at the next OR or at the end. */
  function RunEnd(cs: seq<Clause>, s: nat): (e: nat)
    requires s < |cs|
    ensures s < e <= |cs|
    ensures e < |cs| ==> cs[e].isOr
    ensures forall k | s < k < e :: !cs[k].isOr
    decreases |cs| - s
  {
    if s + 1 == |cs| || cs[s + 1].isOr then s + 1 else RunEnd(cs, s + 1)
  }

  ghost predicate RunHolds(cs: seq<Clause>, s: nat, v: nat -> bool)
    requires s < |cs|
  {
    forall k | s <= k < RunEnd(cs, s) :: v(k)
  }

  /** Some maximal AND-run, cut at the conditions added with OR, holds throughout. */
  ghost predicate Means(cs: seq<Clause>, from: nat, v: nat -> bool) {
    exists s: nat :: from <= s < |cs| && (s == from || cs[s].isOr) && RunHolds(cs, s, v)
  }

  lemma {:induction false} ParseRun(cs: seq<Clause>, s: nat, v: nat -> bool)
    requires s < |cs|
    ensures var r := ParseTerm(From(cs, s));
            && r.Parsed?
            && r.rest == (if RunEnd(cs, s) == |cs| then [] else [Or] + From(cs, RunEnd(cs, s)))
            && (Eval(r.e, v) <==> RunHolds(cs, s, v))
    decreases |cs| - s
  {
    if s + 1 < |cs| {
      assert From(cs, s)[2..] == From(cs, s + 1);
      assert From(cs, s)[1..] == [Op(cs[s + 1])] + From(cs, s + 1);
      if !cs[s + 1].isOr {
        ParseRun(cs, s + 1, v);
      }
    }
  }

  lemma {:induction false} ParseFrom(cs: seq<Clause>, s: nat, v: nat -> bool)
    requires s < |cs|
    ensures var r := ParseExpr(From(cs, s)); r.Parsed? && r.rest == [] && (Eval(r.e, v) <==> Means(cs, s, v))
    decreases |cs| - s
  {
    var e := RunEnd(cs, s);
    ParseRun(cs, s, v);
    if e < |cs| {
      assert ([Or] + From(cs, e))[1..] == From(cs, e);
      ParseFrom(cs, e, v);
      MeansSplit(cs, s, v);
    } else {
      assert RunHolds(cs, s, v) ==> Means(cs, s, v);
    }
  }

  lemma MeansSplit(cs: seq<Clause>, s: nat, v: nat -> bool)
    requires s < |cs| && RunEnd(cs, s) < |cs|
    ensures Means(cs, s, v) <==> RunHolds(cs, s, v) || Means(cs, RunEnd(cs, s), v)
  {
  }

  /** The server parses every emitted chain completely, and it holds exactly when one of the AND-runs does. */
  lemma ChainMeans(cs: seq<Clause>, v: nat -> bool)
    requires cs != []
    ensures var r := ParseExpr(From(cs, 0)); r.Parsed? && r.rest == [] && (Eval(r.e, v) <==> Means(cs, 0, v))
  {
    ParseFrom(cs, 0, v);
  }
}
