/**
 Chains whose conditions are themselves AND/OR lists. The builders write a condition as it stands, without
 parentheses, so the server parses the whole text as one flat chain. A compound condition is the list of its
 atoms; the connective before its first atom is the one before the condition.
 */
module CompoundChains {
  import opened Placeholders
  import opened Segments
  import opened Clauses
  import opened ChainMeaning

  type Compound = c: seq<Clause> | c != [] witness [Clause("", [], false)]

  /** The condition as a caller passes it: its atoms with their connectives between them, as one text. */
  function Condition(c: Compound): Clause {
    Clause(Text(Links(c)), ArgsOf(Links(c)), c[0].isOr)
  }

  function Conditions(cs: seq<Compound>): (r: seq<Clause>)
    ensures |r| == |cs| && forall i | 0 <= i < |cs| :: r[i] == Condition(cs[i])
  {
    seq(|cs|, i requires 0 <= i < |cs| => Condition(cs[i]))
  }

  /** The atoms of the whole chain. */
  function Flat(cs: seq<Compound>): seq<Clause> {
    if cs == [] then [] else Flat(cs[..|cs| - 1]) + cs[|cs| - 1]
  }

  // ---------- The emitted text ----------

  function Glue(before: seq<Clause>, c: Clause): seq<Seg> {
    if before == [] then [] else [Raw(Connective(c))]
  }

  lemma LinksSnoc(cs: seq<Clause>, c: Clause)
    ensures Links(cs + [c]) == Links(cs) + Glue(cs, c) + [Tmpl(c.condition, c.args)]
    ensures Links([]) == []
  {
    assert (cs + [c])[..|cs|] == cs;
  }

  lemma {:induction false} LinksAppend(a: seq<Clause>, b: seq<Clause>)
    requires b != []
    ensures Links(a + b) == Links(a) + Glue(a, b[0]) + Links(b)
  {
    hide Links;
    var init, last := b[..|b| - 1], b[|b| - 1];
    assert a + b == (a + init) + [last] && b == init + [last];
    LinksSnoc(a + init, last);
    LinksSnoc(init, last);
    if init == [] {
      assert a + init == a;
    } else {
      LinksAppend(a, init);
      assert Glue(a + init, last) == Glue(init, last);
    }
  }

  lemma TextSnoc(segs: seq<Seg>, s: Seg)
    ensures Text(segs + [s]) == Text(segs) + s.text && Text([]) == ""
  {
    assert (segs + [s])[..|segs|] == segs;
  }

  lemma {:induction false} TextAppend(a: seq<Seg>, b: seq<Seg>)
    ensures Text(a + b) == Text(a) + Text(b)
  {
    hide Text;
    if b == [] {
      assert a + b == a;
      TextSnoc([], Raw(""));
    } else {
      var init, last := b[..|b| - 1], b[|b| - 1];
      assert a + b == (a + init) + [last] && b == init + [last];
      TextAppend(a, init);
      TextSnoc(a + init, last);
      TextSnoc(init, last);
      Regroup(Text(a), Text(init), last.text);
    }
  }

  lemma BothAppend(a: seq<Seg>, b: seq<Seg>)
    ensures Text(a + b) == Text(a) + Text(b)
    ensures ArgsOf(a + b) == ArgsOf(a) + ArgsOf(b)
  {
    hide *;
    TextAppend(a, b);
    RenderAppend(a, b, 1);
  }

  lemma OneText(t: string, args: seq<Arg>)
    ensures Text([Tmpl(t, args)]) == t && ArgsOf([Tmpl(t, args)]) == args
  {
    assert [Tmpl(t, args)][..0] == [];
  }

  /** Passing compound conditions spells the same template, with the same arguments, as passing all their atoms. */
  lemma {:induction false} SameTemplate(cs: seq<Compound>)
    ensures Text(Links(Conditions(cs))) == Text(Links(Flat(cs)))
    ensures ArgsOf(Links(Conditions(cs))) == ArgsOf(Links(Flat(cs)))
    ensures Flat(cs) == [] <==> cs == []
  {
    hide Text, ArgsOf, Links;
    if cs == [] {
      assert Conditions(cs) == [];
    } else {
      var init, c := cs[..|cs| - 1], cs[|cs| - 1];
      SameTemplate(init);
      assert Conditions(cs) == Conditions(init) + [Condition(c)];
      LinksAppend(Conditions(init), [Condition(c)]);
      LinksAppend(Flat(init), c);
      var glue := Glue(Conditions(init), Condition(c));
      assert glue == Glue(Flat(init), c[0]);
      OneLink(Condition(c));
      OneText(Condition(c).condition, Condition(c).args);
      BothAppend(Links(Conditions(init)), glue);
      BothAppend(Links(Conditions(init)) + glue, [Tmpl(Condition(c).condition, Condition(c).args)]);
      BothAppend(Links(Flat(init)), glue);
      BothAppend(Links(Flat(init)) + glue, Links(c));
    }
  }

  lemma OneLink(c: Clause)
    ensures Links([c]) == [Tmpl(c.condition, c.args)]
  {
    assert [c][..0] == [];
  }

  lemma {:induction false} LinksRaw(cs: seq<Clause>)
    ensures forall k | 0 <= k < |Links(cs)| && Links(cs)[k].Raw? :: '?' !in Links(cs)[k].text
  {
    if cs != [] {
      LinksRaw(cs[..|cs| - 1]);
    }
  }

  /** The SQL text and the arguments are those of the flat chain: nothing in them shows where a condition ends. */
  lemma EmittedFlat(cs: seq<Compound>, i: nat)
    ensures Render(Links(Conditions(cs)), i) == Render(Links(Flat(cs)), i)
    ensures ArgsOf(Links(Conditions(cs))) == ArgsOf(Links(Flat(cs)))
  {
    SameTemplate(cs);
    LinksRaw(Conditions(cs));
    LinksRaw(Flat(cs));
    RenderIsReplace(Links(Conditions(cs)), i);
    RenderIsReplace(Links(Flat(cs)), i);
  }

  // ---------- The two readings ----------

  /** Where the atoms of condition `i` begin in the flat chain. */
  function Off(cs: seq<Compound>, i: nat): nat
    requires i <= |cs|
  {
    |Flat(cs[..i])|
  }

  /** A row decides which atoms hold; distinct atoms are independent. */
  function In(row: set<nat>): nat -> bool {
    k => k in row
  }

  /** The server parses the emitted chain, AND binding tighter than OR. */
  predicate ServerAccepts(cs: seq<Compound>, row: set<nat>)
    requires cs != []
  {
    var r := ParseExpr(From(Flat(cs), 0));
    r.Parsed? && Eval(r.e, In(row))
  }

  function Shifted(off: nat, row: set<nat>): nat -> bool {
    (k: nat) => off + k in row
  }

  ghost predicate ConditionHolds(cs: seq<Compound>, row: set<nat>, i: nat) {
    i < |cs| && Means(cs[i], 0, Shifted(Off(cs, i), row))
  }

  ghost function Holding(cs: seq<Compound>, row: set<nat>): nat -> bool {
    (i: nat) => ConditionHolds(cs, row, i)
  }

  /** The caller means each condition as a unit. */
  ghost predicate CallerAccepts(cs: seq<Compound>, row: set<nat>) {
    Means(Conditions(cs), 0, Holding(cs, row))
  }

  predicate HasOr(c: Compound) {
    exists j :: 1 <= j < |c| && c[j].isOr
  }

  /** Condition `i` is joined by AND neither to the one before it nor to the one after it. */
  predicate Alone(cs: seq<Compound>, i: nat)
    requires i < |cs|
  {
    (i == 0 || cs[i][0].isOr) && (i + 1 == |cs| || cs[i + 1][0].isOr)
  }

  // ---------- Positions ----------

  lemma OffNext(cs: seq<Compound>, i: nat)
    requires i < |cs|
    ensures Off(cs, 0) == 0 && Off(cs, i + 1) == Off(cs, i) + |cs[i]| && Off(cs, |cs|) == |Flat(cs)|
  {
    assert cs[..i + 1][..i] == cs[..i] && cs[..|cs|] == cs;
  }

  lemma {:induction false} OffOrder(cs: seq<Compound>, i: nat, m: nat)
    requires i < m <= |cs|
    ensures Off(cs, i) + |cs[i]| <= Off(cs, m) <= |Flat(cs)|
    decreases |cs| - i, m - i
  {
    hide Off, Flat;
    OffNext(cs, m - 1);
    if i + 1 < m {
      OffOrder(cs, i, m - 1);
    }
    if m < |cs| {
      OffOrder(cs, m, |cs|);
    }
  }

  lemma {:induction false} FlatAt(cs: seq<Compound>, i: nat, j: nat)
    requires i < |cs| && j < |cs[i]|
    ensures Off(cs, i) + j < |Flat(cs)| && Flat(cs)[Off(cs, i) + j] == cs[i][j]
  {
    var n := |cs| - 1;
    if i < n {
      FlatAt(cs[..n], i, j);
      assert cs[..n][..i] == cs[..i];
    }
  }

  /** Every position of the flat chain is an atom of one condition. */
  lemma {:induction false} Locate(cs: seq<Compound>, k: nat) returns (i: nat, j: nat)
    requires k < |Flat(cs)|
    ensures i < |cs| && j < |cs[i]| && k == Off(cs, i) + j && Flat(cs)[k] == cs[i][j]
  {
    var n := |cs| - 1;
    if k < |Flat(cs[..n])| {
      i, j := Locate(cs[..n], k);
      assert cs[..n][..i] == cs[..i];
    } else {
      i, j := n, k - |Flat(cs[..n])|;
    }
  }

  // ---------- Runs of the flat chain ----------

  /** A run goes on at least as long as its condition's own run, and at most to the end of the AND-run of conditions. */
  lemma RunBounds(cs: seq<Compound>, i: nat, j: nat)
    requires i < |cs| && j < |cs[i]|
    ensures Off(cs, i) + j < |Flat(cs)|
    ensures var e := RunEnd(Flat(cs), Off(cs, i) + j);
            && Off(cs, i) + RunEnd(cs[i], j) <= e <= Off(cs, RunEnd(Conditions(cs), i))
            && (RunEnd(cs[i], j) < |cs[i]| ==> e == Off(cs, i) + RunEnd(cs[i], j))
  {
    hide Off, Flat, Conditions;
    FlatAt(cs, i, j);
    var s, q, m := Off(cs, i) + j, RunEnd(cs[i], j), RunEnd(Conditions(cs), i);
    var e := RunEnd(Flat(cs), s);
    OffOrder(cs, i, m);
    if m < |cs| {
      FlatAt(cs, m, 0);
    } else {
      OffNext(cs, i);
    }
    if q < |cs[i]| {
      FlatAt(cs, i, q);
    }
    if e < Off(cs, i) + q {
      FlatAt(cs, i, e - Off(cs, i));
    }
  }

  ghost predicate Starts(cs: seq<Clause>, s: nat) {
    s < |cs| && (s == 0 || cs[s].isOr)
  }

  lemma StartsAt(cs: seq<Compound>, i: nat, j: nat)
    requires i < |cs| && j < |cs[i]|
    ensures Starts(Flat(cs), Off(cs, i) + j) <==> if j == 0 then Starts(Conditions(cs), i) else cs[i][j].isOr
  {
    hide Flat, Off;
    FlatAt(cs, i, j);
    OffNext(cs, i);
    if i > 0 {
      OffOrder(cs, 0, i);
    }
  }

  /** No atom after the first of an AND-run of conditions without OR of their own is joined by OR. */
  lemma NoOrInside(cs: seq<Compound>, i: nat, e: nat)
    requires i < |cs| && forall m | i <= m < RunEnd(Conditions(cs), i) :: !HasOr(cs[m])
    requires Off(cs, i) < e < Off(cs, RunEnd(Conditions(cs), i)) <= |Flat(cs)|
    ensures !Flat(cs)[e].isOr
  {
    hide Off, Flat, Conditions;
    var end := RunEnd(Conditions(cs), i);
    var m, j := Locate(cs, e);
    if m < i {
      OffOrder(cs, m, i);
    } else if m > end {
      OffOrder(cs, end, m);
    } else if j == 0 {
      assert m > i ==> !Conditions(cs)[m].isOr;
    }
  }

  /** In an AND-run of conditions without OR of their own, the flat run is the whole AND-run. */
  lemma PlainRun(cs: seq<Compound>, i: nat)
    requires i < |cs| && forall m | i <= m < RunEnd(Conditions(cs), i) :: !HasOr(cs[m])
    ensures Off(cs, i) < |Flat(cs)| && RunEnd(Flat(cs), Off(cs, i)) == Off(cs, RunEnd(Conditions(cs), i))
  {
    hide Off, Flat, Conditions, HasOr;
    RunBounds(cs, i, 0);
    var e, end := RunEnd(Flat(cs), Off(cs, i)), RunEnd(Conditions(cs), i);
    OffOrder(cs, i, end);
    if e < Off(cs, end) {
      NoOrInside(cs, i, e);
    }
  }

  ghost predicate AllAlone(cs: seq<Compound>) {
    forall i | 0 <= i < |cs| && HasOr(cs[i]) :: Alone(cs, i)
  }

  /** All atoms of the flat chain from `s` to before `e` hold. */
  ghost predicate Block(row: set<nat>, s: nat, e: nat) {
    forall k | s <= k < e :: k in row
  }

  ghost predicate FlatRun(cs: seq<Compound>, row: set<nat>, s: nat) {
    Starts(Flat(cs), s) && Block(row, s, RunEnd(Flat(cs), s))
  }

  /** The server accepts a row iff some run of the flat chain holds throughout. */
  lemma ServerIff(cs: seq<Compound>, row: set<nat>)
    requires cs != []
    ensures ServerAccepts(cs, row) <==> exists s: nat :: FlatRun(cs, row, s)
  {
    hide Flat, ParseExpr, From, Eval;
    OffNext(cs, 0);
    OffOrder(cs, 0, |cs|);
    ChainMeans(Flat(cs), In(row));
    if s: nat :| FlatRun(cs, row, s) {
      assert RunHolds(Flat(cs), s, In(row));
    }
    if s: nat :| 0 <= s < |Flat(cs)| && (s == 0 || Flat(cs)[s].isOr) && RunHolds(Flat(cs), s, In(row)) {
      forall k: nat | s <= k < RunEnd(Flat(cs), s) ensures k in row {
        assert In(row)(k);
      }
      assert FlatRun(cs, row, s);
    }
  }

  ghost predicate InnerRun(cs: seq<Compound>, row: set<nat>, i: nat, p: nat)
    requires i < |cs|
  {
    Starts(cs[i], p) && Block(row, Off(cs, i) + p, Off(cs, i) + RunEnd(cs[i], p))
  }

  lemma HoldsIff(cs: seq<Compound>, row: set<nat>, i: nat)
    requires i < |cs|
    ensures ConditionHolds(cs, row, i) <==> exists p: nat :: InnerRun(cs, row, i, p)
  {
    hide Off;
    var off := Off(cs, i);
    var v := Shifted(off, row);
    if p: nat :| InnerRun(cs, row, i, p) {
      forall k | p <= k < RunEnd(cs[i], p) ensures v(k) {
        assert off + k in row;
      }
      assert RunHolds(cs[i], p, v);
    }
    if p: nat :| 0 <= p < |cs[i]| && (p == 0 || cs[i][p].isOr) && RunHolds(cs[i], p, v) {
      forall n | off + p <= n < off + RunEnd(cs[i], p) ensures n in row {
        assert v(n - off);
      }
      assert InnerRun(cs, row, i, p);
    }
  }

  ghost predicate OuterRun(cs: seq<Compound>, row: set<nat>, s: nat) {
    Starts(Conditions(cs), s) && forall m | s <= m < RunEnd(Conditions(cs), s) :: ConditionHolds(cs, row, m)
  }

  lemma CallerIff(cs: seq<Compound>, row: set<nat>)
    ensures CallerAccepts(cs, row) <==> exists s: nat :: OuterRun(cs, row, s)
  {
    hide ConditionHolds;
    var ds, v := Conditions(cs), Holding(cs, row);
    if s: nat :| OuterRun(cs, row, s) {
      assert RunHolds(ds, s, v);
    }
    if s: nat :| 0 <= s < |ds| && (s == 0 || ds[s].isOr) && RunHolds(ds, s, v) {
      assert forall m: nat | s <= m < RunEnd(ds, s) :: v(m) == ConditionHolds(cs, row, m);
      assert OuterRun(cs, row, s);
    }
  }

  // ---------- When they agree ----------

  /** A condition with an OR that is alone is an AND-run of its own; no other condition of a run has an OR. */
  lemma RunShape(cs: seq<Compound>, i: nat)
    requires i < |cs| && AllAlone(cs)
    ensures HasOr(cs[i]) ==> RunEnd(Conditions(cs), i) == i + 1 && Starts(Conditions(cs), i)
    ensures !HasOr(cs[i]) ==> forall m | i <= m < RunEnd(Conditions(cs), i) :: !HasOr(cs[m])
  {
    hide HasOr;
    assert HasOr(cs[i]) ==> Alone(cs, i);
    assert i + 1 < |cs| ==> Conditions(cs)[i + 1].isOr == cs[i + 1][0].isOr;
    forall m | i < m < RunEnd(Conditions(cs), i) ensures !HasOr(cs[m]) {
      assert !Conditions(cs)[m].isOr;
    }
  }

  lemma ServerThenCaller(cs: seq<Compound>, row: set<nat>)
    requires AllAlone(cs) && exists s: nat :: FlatRun(cs, row, s)
    ensures CallerAccepts(cs, row)
  {
    hide Flat, Off, Conditions, CallerAccepts, ConditionHolds;
    var s: nat :| FlatRun(cs, row, s);
    var i, j := Locate(cs, s);
    StartsAt(cs, i, j);
    RunBounds(cs, i, j);
    RunShape(cs, i);
    CallerIff(cs, row);
    if HasOr(cs[i]) {
      HoldsIff(cs, row, i);
      assert InnerRun(cs, row, i, j);
      assert OuterRun(cs, row, i);
    } else {
      PlainRun(cs, i);
      assert Starts(Conditions(cs), i);
      BlockHolds(cs, row, i);
    }
  }

  lemma BlockHolds(cs: seq<Compound>, row: set<nat>, i: nat)
    requires Starts(Conditions(cs), i) && Block(row, Off(cs, i), Off(cs, RunEnd(Conditions(cs), i)))
    ensures OuterRun(cs, row, i)
  {
    hide Flat, Off, ConditionHolds, Block;
    forall m | i <= m < RunEnd(Conditions(cs), i) ensures ConditionHolds(cs, row, m) {
      AllOf(cs, row, i, m);
    }
  }

  /** A condition all of whose atoms lie in a run that holds, holds. */
  lemma AllOf(cs: seq<Compound>, row: set<nat>, i: nat, m: nat)
    requires i < |cs| && i <= m < RunEnd(Conditions(cs), i)
    requires Block(row, Off(cs, i), Off(cs, RunEnd(Conditions(cs), i)))
    ensures ConditionHolds(cs, row, m)
  {
    hide Flat, Off, Conditions, ConditionHolds;
    if i < m {
      OffOrder(cs, i, m);
    }
    OffOrder(cs, m, RunEnd(Conditions(cs), i));
    assert InnerRun(cs, row, m, 0);
    HoldsIff(cs, row, m);
  }

  lemma CallerThenServer(cs: seq<Compound>, row: set<nat>)
    requires AllAlone(cs) && CallerAccepts(cs, row)
    ensures exists s: nat :: FlatRun(cs, row, s)
  {
    hide Flat, Off, Conditions, CallerAccepts, ConditionHolds;
    CallerIff(cs, row);
    var s: nat :| OuterRun(cs, row, s);
    RunShape(cs, s);
    HoldsIff(cs, row, s);
    var p: nat :| InnerRun(cs, row, s, p);
    StartsAt(cs, s, p);
    RunBounds(cs, s, p);
    if HasOr(cs[s]) {
      OffNext(cs, s);
      assert FlatRun(cs, row, Off(cs, s) + p);
    } else {
      PlainRun(cs, s);
      forall k | Off(cs, s) <= k < RunEnd(Flat(cs), Off(cs, s)) ensures k in row {
        AtomHolds(cs, row, s, k);
      }
      assert p == 0;
      assert FlatRun(cs, row, Off(cs, s));
    }
  }

  lemma AtomHolds(cs: seq<Compound>, row: set<nat>, s: nat, k: nat)
    requires s < |cs| && OuterRun(cs, row, s)
    requires forall m | s <= m < RunEnd(Conditions(cs), s) :: !HasOr(cs[m])
    requires Off(cs, s) <= k < Off(cs, RunEnd(Conditions(cs), s))
    ensures k in row
  {
    hide Flat, Off, Conditions, ConditionHolds;
    var end := RunEnd(Conditions(cs), s);
    OffOrder(cs, s, end);
    var m, j := Locate(cs, k);
    if m < s {
      OffOrder(cs, m, s);
    }
    if end < m {
      OffOrder(cs, end, m);
    }
    HoldsIff(cs, row, m);
    var p: nat :| InnerRun(cs, row, m, p);
    assert p == 0 && RunEnd(cs[m], 0) == |cs[m]|;
  }

  // ---------- When they do not ----------

  function Range(s: nat, e: nat): (r: set<nat>)
    ensures forall k: nat :: k in r <==> s <= k < e
    decreases e - s
  {
    if s >= e then {} else {s} + Range(s + 1, e)
  }

  /** The row on which exactly the atoms of one run of the flat chain hold. */
  function RunRow(cs: seq<Compound>, s: nat): set<nat>
    requires s < |Flat(cs)|
  {
    Range(s, RunEnd(Flat(cs), s))
  }

  /** The atom that a leak starts from: the one after an OR, or the first. */
  ghost predicate LeakStart(cs: seq<Compound>, i: nat, j: nat) {
    && i < |cs| && j < |cs[i]| && HasOr(cs[i])
    && if i > 0 && !cs[i][0].isOr then j >= 1 && cs[i][j].isOr
       else j == 0 && i + 1 < |cs| && !cs[i + 1][0].isOr
  }

  /** A row on which exactly one run holds that starts in such a condition: the server accepts it, the caller does not. */
  lemma Leaks(cs: seq<Compound>, i: nat, j: nat)
    requires LeakStart(cs, i, j)
    ensures Off(cs, i) + j < |Flat(cs)|
    ensures FlatRun(cs, RunRow(cs, Off(cs, i) + j), Off(cs, i) + j) && !CallerAccepts(cs, RunRow(cs, Off(cs, i) + j))
  {
    hide Flat, Off, Conditions, CallerAccepts, ConditionHolds;
    RunBounds(cs, i, j);
    StartsAt(cs, i, j);
    var row := RunRow(cs, Off(cs, i) + j);
    assert FlatRun(cs, row, Off(cs, i) + j);
    CallerIff(cs, row);
    if s: nat :| OuterRun(cs, row, s) {
      OnlyHere(cs, row, i, s);
      if j == 0 {
        var k := NextHolds(cs, row, i);
        OffNext(cs, i);
      }
    }
  }

  /** Nothing but the AND-run of condition `i` has an atom that holds. */
  lemma OnlyHere(cs: seq<Compound>, row: set<nat>, i: nat, s: nat)
    requires i < |cs| && OuterRun(cs, row, s)
    requires forall k | k in row :: Off(cs, i) <= k < Off(cs, RunEnd(Conditions(cs), i))
    ensures s == i
  {
    hide Flat, Off, Conditions, ConditionHolds;
    HoldsIff(cs, row, s);
    var p: nat :| InnerRun(cs, row, s, p);
    assert Off(cs, s) + p in row;
    var end := RunEnd(Conditions(cs), i);
    if s < i {
      OffOrder(cs, s, i);
    }
    if end < s {
      OffOrder(cs, end, s);
    }
  }

  /** A condition joined to the next by AND cannot hold alone. */
  lemma NextHolds(cs: seq<Compound>, row: set<nat>, i: nat) returns (k: nat)
    requires i + 1 < |cs| && !cs[i + 1][0].isOr && OuterRun(cs, row, i)
    ensures k in row && k >= Off(cs, i + 1)
  {
    hide Flat, Off, ConditionHolds;
    assert RunEnd(Conditions(cs), i) != i + 1;
    HoldsIff(cs, row, i + 1);
    var p: nat :| InnerRun(cs, row, i + 1, p);
    k := Off(cs, i + 1) + p;
  }

  /**
   Server and caller agree on every row exactly when each condition with an OR of its own is alone in its
   AND-run: first or joined by OR, and last or followed by OR.
   */
  lemma AgreeIff(cs: seq<Compound>)
    requires cs != []
    ensures (forall row :: ServerAccepts(cs, row) <==> CallerAccepts(cs, row))
       <==> (forall i | 0 <= i < |cs| && HasOr(cs[i]) :: Alone(cs, i))
  {
    hide Flat, Off, Conditions, CallerAccepts, ServerAccepts, HasOr, Alone;
    if AllAlone(cs) {
      forall row ensures ServerAccepts(cs, row) <==> CallerAccepts(cs, row) {
        ServerIff(cs, row);
        if ServerAccepts(cs, row) {
          ServerThenCaller(cs, row);
        }
        if CallerAccepts(cs, row) {
          CallerThenServer(cs, row);
        }
      }
    } else {
      var i :| 0 <= i < |cs| && HasOr(cs[i]) && !Alone(cs, i);
      var row := ALeak(cs, i);
    }
  }

  /** A condition with an OR of its own that is not alone leaks: some row is accepted against the caller's meaning. */
  lemma ALeak(cs: seq<Compound>, i: nat) returns (row: set<nat>)
    requires i < |cs| && HasOr(cs[i]) && !Alone(cs, i)
    ensures ServerAccepts(cs, row) && !CallerAccepts(cs, row)
  {
    hide Flat, Off, Conditions, CallerAccepts, ServerAccepts;
    var j := 0;
    if i > 0 && !cs[i][0].isOr {
      j :| 1 <= j < |cs[i]| && cs[i][j].isOr;
    }
    Leaks(cs, i, j);
    row := RunRow(cs, Off(cs, i) + j);
    ServerIff(cs, row);
  }

  /**
   The smallest case: the conditions `a OR b` and `c`, joined by AND. The text is that of the three atoms as one
   chain, and a row on which only `a` holds is accepted.
   */
  lemma DisjunctionLeaks(a: Clause, b: Clause, c: Clause, i: nat)
    requires !a.isOr && b.isOr && !c.isOr
    ensures var cs: seq<Compound> := [[a, b], [c]];
            && Render(Links(Conditions(cs)), i) == Render(Links([a, b, c]), i)
            && ServerAccepts(cs, {0}) && !CallerAccepts(cs, {0})
  {
    hide Links, Render, CallerAccepts, ServerAccepts;
    var cs: seq<Compound> := [[a, b], [c]];
    assert Flat(cs) == [a, b, c] by {
      assert cs[..1] == [[a, b]] && cs[..1][..0] == [];
      assert Flat(cs[..1]) == [] + [a, b];
    }
    EmittedFlat(cs, i);
    assert cs[0][1].isOr;
    hide Conditions;
    assert cs[..0] == [];
    assert Off(cs, 0) == 0;
    Leaks(cs, 0, 0);
    hide Flat;
    assert RunEnd(Flat(cs), 0) == 1;
    assert RunRow(cs, 0) == {0};
    ServerIff(cs, {0});
  }
}
