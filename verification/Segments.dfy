/**
 A statement as the builders assemble it: raw text that is written as it stands, and templates whose marks are
 numbered through the whole statement and whose arguments are collected in one flat list.
 */
module Segments {
  import opened Placeholders

  datatype Arg = IntArg(n: int) | TextArg(s: string) | NullArg

  datatype Seg = Raw(text: string) | Tmpl(text: string, args: seq<Arg>)

  function Width(s: Seg): nat {
    if s.Raw? then 0 else Marks(s.text)
  }

  function Next(segs: seq<Seg>, i: nat): (next: nat)
    ensures next >= i
  {
    if segs == [] then i else Next(segs[..|segs| - 1], i) + Width(segs[|segs| - 1])
  }

  function Piece1(s: Seg, i: nat): string {
    if s.Raw? then s.text else Replace(s.text, i)
  }

  /** The text of the statement, numbering from `i`. */
  function Render(segs: seq<Seg>, i: nat): string {
    if segs == [] then []
    else
      var init := segs[..|segs| - 1];
      Render(init, i) + Piece1(segs[|segs| - 1], Next(init, i))
  }

  function ArgsOf(segs: seq<Seg>): seq<Arg> {
    if segs == [] then []
    else ArgsOf(segs[..|segs| - 1]) + if segs[|segs| - 1].Raw? then [] else segs[|segs| - 1].args
  }

  /** The template of the whole statement. */
  function Text(segs: seq<Seg>): string {
    if segs == [] then [] else Text(segs[..|segs| - 1]) + segs[|segs| - 1].text
  }

  /** The whole statement with each template filled with its own arguments. */
  function FillSegs(segs: seq<Seg>): seq<Piece<Arg>> {
    if segs == [] then []
    else
      var s := segs[|segs| - 1];
      FillSegs(segs[..|segs| - 1]) + Fill(s.text, if s.Raw? then [] else s.args)
  }

  lemma RenderSnoc(segs: seq<Seg>, s: Seg, i: nat)
    ensures Render(segs + [s], i) == Render(segs, i) + Piece1(s, Next(segs, i))
    ensures Next(segs + [s], i) == Next(segs, i) + Width(s)
    ensures ArgsOf(segs + [s]) == ArgsOf(segs) + if s.Raw? then [] else s.args
  {
    assert (segs + [s])[..|segs + [s]| - 1] == segs;
  }

  lemma {:induction false} RenderAppend(a: seq<Seg>, b: seq<Seg>, i: nat)
    ensures Render(a + b, i) == Render(a, i) + Render(b, Next(a, i))
    ensures Next(a + b, i) == Next(b, Next(a, i))
    ensures ArgsOf(a + b) == ArgsOf(a) + ArgsOf(b)
  {
    hide Render, Next, ArgsOf, Piece1, Width;
    if b == [] {
      assert a + b == a;
      RenderNil(Next(a, i));
    } else {
      var init, s := b[..|b| - 1], b[|b| - 1];
      assert a + b == (a + init) + [s] && b == init + [s];
      RenderAppend(a, init, i);
      RenderSnoc(a + init, s, i);
      RenderSnoc(init, s, Next(a, i));
      Regroup(Render(a, i), Render(init, Next(a, i)), Piece1(s, Next(a + init, i)));
      assert ArgsOf(a) + ArgsOf(init) + (if s.Raw? then [] else s.args)
          == ArgsOf(a) + (ArgsOf(init) + (if s.Raw? then [] else s.args));
    }
  }

  lemma RenderNil(i: nat)
    ensures Render([], i) == [] && Next([], i) == i && ArgsOf([]) == []
  {
  }

  lemma RenderRaw(t: string, i: nat)
    ensures Render([Raw(t)], i) == t && Next([Raw(t)], i) == i && ArgsOf([Raw(t)]) == []
  {
    assert [Raw(t)][..0] == [];
  }

  // ---------- Clean statements ----------

  predicate Plain(t: string) {
    '?' !in t && '$' !in t
  }

  /** As many marks as arguments, no dollar sign, no mark followed by a digit. */
  predicate CleanClause(t: string, args: seq<Arg>) {
    Marks(t) == |args| && '$' !in t && Readable(t)
  }

  predicate CleanSeg(s: Seg) {
    match s
    case Raw(t) => Plain(t)
    case Tmpl(t, args) => CleanClause(t, args)
  }

  predicate Clean(segs: seq<Seg>) {
    forall k | 0 <= k < |segs| :: CleanSeg(segs[k])
  }

  predicate Fence(s: Seg) {
    s.Raw? && s.text != [] && !IsDigit(s.text[0])
  }

  /** A template is followed by raw text that does not start with a digit. */
  predicate Fenced(segs: seq<Seg>) {
    forall k | 0 <= k < |segs| - 1 && segs[k].Tmpl? :: Fence(segs[k + 1])
  }

  lemma FencedAppend(a: seq<Seg>, b: seq<Seg>)
    requires Fenced(a) && Fenced(b) && (a == [] || a[|a| - 1].Raw? || b == [] || Fence(b[0]))
    ensures Fenced(a + b)
  {
  }

  lemma {:induction false} PlainHasNoMarks(t: string)
    requires '?' !in t
    ensures Marks(t) == 0
  {
    if t != [] {
      PlainHasNoMarks(t[1..]);
    }
  }

  lemma {:induction false} PlainUnchanged(t: string, i: nat)
    requires '?' !in t
    ensures Replace(t, i) == t
  {
    if t != [] {
      PlainUnchanged(t[1..], i);
    }
  }

  lemma ReadableAppend(a: string, b: string)
    requires Readable(a) && Readable(b)
    requires a == [] || b == [] || !IsDigit(b[0]) || (a[|a| - 1] != '?' && a[|a| - 1] != '$')
    ensures Readable(a + b)
  {
  }

  /** The built text is the compiled template of the whole statement. */
  lemma {:induction false} RenderIsReplace(segs: seq<Seg>, i: nat)
    requires forall k | 0 <= k < |segs| && segs[k].Raw? :: '?' !in segs[k].text
    ensures Render(segs, i) == Replace(Text(segs), i)
    ensures Next(segs, i) == i + Marks(Text(segs))
  {
    hide Replace, Marks;
    if segs == [] {
      PlainUnchanged("", i);
      PlainHasNoMarks("");
    } else {
      var init, s := segs[..|segs| - 1], segs[|segs| - 1];
      RenderIsReplace(init, i);
      ReplaceAppend(Text(init), s.text, i);
      if s.Raw? {
        PlainHasNoMarks(s.text);
        PlainUnchanged(s.text, Next(init, i));
      }
    }
  }

  lemma FencedInit(segs: seq<Seg>)
    requires segs != [] && Fenced(segs)
    ensures Fenced(segs[..|segs| - 1])
    ensures |segs| > 1 && segs[|segs| - 2].Tmpl? ==> Fence(segs[|segs| - 1])
  {
  }

  /** After raw text the template so far does not end in a mark. */
  lemma {:induction false} RawEnd(segs: seq<Seg>)
    requires Clean(segs) && Fenced(segs) && segs != [] && segs[|segs| - 1].Raw?
    ensures Text(segs) == [] || Text(segs)[|Text(segs)| - 1] != '?'
  {
    var init, s := segs[..|segs| - 1], segs[|segs| - 1];
    assert CleanSeg(s);
    FencedInit(segs);
    if s.text == [] && init != [] {
      RawEnd(init);
    }
  }

  /** Text that ends in a mark is followed by something that is not a digit. */
  lemma BoundaryReadable(segs: seq<Seg>)
    requires segs != [] && Clean(segs) && Fenced(segs)
    requires Readable(Text(segs[..|segs| - 1])) && '$' !in Text(segs[..|segs| - 1])
    ensures Readable(Text(segs))
  {
    var init, s := segs[..|segs| - 1], segs[|segs| - 1];
    assert CleanSeg(s);
    FencedInit(segs);
    SegReadable(s);
    hide Readable, Marks;
    if init != [] && init[|init| - 1].Raw? {
      RawEnd(init);
      assert Text(init) != [] ==> Text(init)[|Text(init)| - 1] in Text(init);
    } else {
      assert init == [] || Fence(s);
    }
    ReadableAppend(Text(init), s.text);
  }

  lemma SegReadable(s: Seg)
    requires CleanSeg(s)
    ensures Readable(s.text)
  {
  }

  lemma {:induction false} CleanIsReadable(segs: seq<Seg>)
    requires Clean(segs) && Fenced(segs)
    ensures Readable(Text(segs)) && Marks(Text(segs)) == |ArgsOf(segs)|
    ensures '$' !in Text(segs)
    ensures Fill(Text(segs), ArgsOf(segs)) == FillSegs(segs)
  {
    if segs != [] {
      var init, s := segs[..|segs| - 1], segs[|segs| - 1];
      assert CleanSeg(s);
      FencedInit(segs);
      CleanIsReadable(init);
      if s.Raw? {
        PlainHasNoMarks(s.text);
      }
      BoundaryReadable(segs);
      ReplaceAppend(Text(init), s.text, 1);
      FillAppend(Text(init), s.text, ArgsOf(init), if s.Raw? then [] else s.args);
    }
  }

  /**
   A clean, fenced statement, read by the server with its flat argument list, is the statement with each clause
   filled with its own arguments; its parameters are $1 to $n in order, with n the number of arguments; and
   reading them back as marks recovers the clauses as written.
   */
  lemma StatementMeaning(segs: seq<Seg>)
    requires Clean(segs) && Fenced(segs)
    ensures var sql, args := Render(segs, 1), ArgsOf(segs);
            && Subst(Tokens(sql), args) == FillSegs(segs)
            && Params(Tokens(sql)) == seq(|args|, k requires 0 <= k < |args| => k + 1)
            && Unread(Tokens(sql)) == Text(segs)
  {
    forall k | 0 <= k < |segs| && segs[k].Raw? ensures '?' !in segs[k].text {
      assert CleanSeg(segs[k]);
    }
    RenderIsReplace(segs, 1);
    CleanIsReadable(segs);
    CompiledMeaning(Text(segs), ArgsOf(segs));
  }
}
