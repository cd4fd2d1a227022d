/**
 Placeholder compilation: a template with `?` marks becomes SQL text with `$n` parameters. `Tokens` reads the
 text back as PostgreSQL reads a parameter: a dollar sign and the longest run of digits after it.
 */
module Placeholders {
  predicate IsDigit(c: char) {
    '0' <= c <= '9'
  }

  function DigitChar(d: nat): (c: char)
    requires d < 10
    ensures IsDigit(c) && DigitValue(c) == d
  {
    (d + 48) as char
  }

  function DigitValue(c: char): nat
    requires IsDigit(c)
  {
    c as int - 48
  }

  /** %d of a non-negative number. */
  function Digits(n: nat): (s: string)
    ensures s != [] && forall k | 0 <= k < |s| :: IsDigit(s[k])
  {
    if n < 10 then [DigitChar(n)] else Digits(n / 10) + [DigitChar(n % 10)]
  }

  function Value(s: string): nat
    requires forall k | 0 <= k < |s| :: IsDigit(s[k])
  {
    if s == [] then 0 else 10 * Value(s[..|s| - 1]) + DigitValue(s[|s| - 1])
  }

  lemma {:induction false} ValueOfDigits(n: nat)
    ensures Value(Digits(n)) == n
  {
    if n < 10 {
      assert Digits(n)[..0] == [];
    } else {
      ValueOfDigits(n / 10);
      assert Digits(n)[..|Digits(n)| - 1] == Digits(n / 10);
    }
  }

  // ---------- Writing ----------

  function Marks(t: string): nat {
    if t == [] then 0 else (if t[0] == '?' then 1 else 0) + Marks(t[1..])
  }

  /** The text that replacePlaceholders writes, numbering from `i`. */
  function Replace(t: string, i: nat): string {
    if t == [] then []
    else if t[0] == '?' then "$" + Digits(i) + Replace(t[1..], i + 1)
    else [t[0]] + Replace(t[1..], i)
  }

  lemma {:induction false} ReplaceAppend(a: string, b: string, i: nat)
    ensures Replace(a + b, i) == Replace(a, i) + Replace(b, i + Marks(a))
    ensures Marks(a + b) == Marks(a) + Marks(b)
  {
    if a == [] {
      assert a + b == b;
    } else {
      assert (a + b)[1..] == a[1..] + b;
      var next := if a[0] == '?' then i + 1 else i;
      var head := if a[0] == '?' then "$" + Digits(i) else [a[0]];
      ReplaceAppend(a[1..], b, next);
      Regroup(head, Replace(a[1..], next), Replace(b, next + Marks(a[1..])));
      assert Replace(a + b, i) == head + Replace(a[1..] + b, next);
    }
  }

  lemma Regroup(a: string, b: string, c: string)
    ensures a + (b + c) == a + b + c
  {
  }

  lemma ReplaceOne(c: char, i: nat)
    ensures Replace([c], i) == if c == '?' then "$" + Digits(i) else [c]
    ensures Marks([c]) == if c == '?' then 1 else 0
  {
    assert [c][1..] == [];
  }

  method ReplacePlaceholders(condition: string, startIndex: nat) returns (result: string, index: nat)
    ensures result == Replace(condition, startIndex)
    ensures index == startIndex + Marks(condition)
  {
    result, index := "", startIndex;
    for k := 0 to |condition|
      invariant result == Replace(condition[..k], startIndex)
      invariant index == startIndex + Marks(condition[..k])
    {
      var ch := condition[k];
      assert condition[..k + 1] == condition[..k] + [ch];
      ReplaceAppend(condition[..k], [ch], startIndex);
      ReplaceOne(ch, index);
      if ch == '?' {
        result := result + ("$" + Digits(index));
        index := index + 1;
      } else {
        result := result + [ch];
      }
    }
    assert condition[..|condition|] == condition;
  }

  // ---------- Reading ----------

  datatype Token = Chr(c: char) | Par(k: nat)

  /** Length of the leading run of digits. */
  function Run(s: string): (n: nat)
    ensures n <= |s|
    ensures forall k | 0 <= k < n :: IsDigit(s[k])
    ensures n < |s| ==> !IsDigit(s[n])
  {
    if s == [] || !IsDigit(s[0]) then 0 else 1 + Run(s[1..])
  }

  function Tokens(sql: string): seq<Token>
    decreases |sql|
  {
    if sql == [] then []
    else
      var n := if sql[0] == '$' then Run(sql[1..]) else 0;
      if n > 0 then [Par(Value(sql[1..1 + n]))] + Tokens(sql[1 + n..]) else [Chr(sql[0])] + Tokens(sql[1..])
  }

  /** What a template means: each mark is the next parameter. */
  function Number(t: string, i: nat): seq<Token> {
    if t == [] then []
    else if t[0] == '?' then [Par(i)] + Number(t[1..], i + 1)
    else [Chr(t[0])] + Number(t[1..], i)
  }

  /** No mark and no dollar sign runs into a digit. */
  predicate Readable(t: string) {
    forall k | 0 <= k < |t| - 1 && (t[k] == '?' || t[k] == '$') :: !IsDigit(t[k + 1])
  }

  lemma RunOfDigits(d: string, rest: string)
    requires forall k | 0 <= k < |d| :: IsDigit(d[k])
    ensures Run(d + rest) == |d| + Run(rest)
  {
    if d == [] {
      assert d + rest == rest;
    } else {
      assert (d + rest)[1..] == d[1..] + rest;
      RunOfDigits(d[1..], rest);
    }
  }

  lemma ReadDollar(sql: string)
    requires sql != [] && sql[0] == '$' && Run(sql[1..]) > 0
    ensures var n := Run(sql[1..]); Tokens(sql) == [Par(Value(sql[1..1 + n]))] + Tokens(sql[1 + n..])
  {
    hide Value, Run;
  }

  lemma ReadParam(x: string)
    requires Run(x) > 0
    ensures Tokens("$" + x) == [Par(Value(x[..Run(x)]))] + Tokens(x[Run(x)..])
  {
    hide *;
    var sql, n := "$" + x, Run(x);
    assert sql[1..] == x && sql[1..1 + n] == x[..n] && sql[1 + n..] == x[n..];
    ReadDollar(sql);
  }

  /** Reading one compiled mark takes the digits that follow it as well. */
  lemma ReadMark(i: nat, rest: string)
    ensures var n := Run(rest);
            && |Tokens("$" + Digits(i) + rest)| == 1 + |Tokens(rest[n..])|
            && (n == 0 ==> Tokens("$" + Digits(i) + rest) == [Par(i)] + Tokens(rest))
  {
    hide Tokens, Digits;
    var d, n := Digits(i), Run(rest);
    var x := d + rest;
    Regroup("$", d, rest);
    RunOfDigits(d, rest);
    ReadParam(x);
    assert x[|d| + n..] == rest[n..];
    if n == 0 {
      assert x[..|d|] == d && rest[0..] == rest;
      ValueOfDigits(i);
    }
  }

  /** Compilation copies digits, so the text after a mark starts with as many digits as the template does. */
  lemma {:induction false} ReplaceRun(t: string, i: nat)
    ensures Run(Replace(t, i)) == Run(t)
    ensures Replace(t, i)[Run(t)..] == Replace(t[Run(t)..], i)
  {
    if t != [] && IsDigit(t[0]) {
      ReplaceRun(t[1..], i);
      assert Replace(t, i)[1..] == Replace(t[1..], i);
      assert t[Run(t)..] == t[1..][Run(t[1..])..];
    }
  }

  lemma ReadableTail(t: string)
    requires t != []
    ensures Readable(t) <==> Readable(t[1..]) && (|t| > 1 && (t[0] == '?' || t[0] == '$') ==> !IsDigit(t[1]))
  {
  }

  lemma ReadPlain(c: char, rest: string)
    requires c == '$' ==> Run(rest) == 0
    ensures Tokens([c] + rest) == [Chr(c)] + Tokens(rest)
  {
    assert ([c] + rest)[1..] == rest;
  }

  /** Reading the compiled text of a readable template gives its marks numbered from `i`, and all its other characters. */
  lemma {:induction false} ReadBack(t: string, i: nat)
    requires Readable(t)
    ensures Tokens(Replace(t, i)) == Number(t, i)
  {
    if t != [] {
      var rest, next := t[1..], if t[0] == '?' then i + 1 else i;
      ReadableTail(t);
      ReadBack(rest, next);
      ReplaceRun(rest, next);
      if t[0] == '?' {
        ReadMark(i, Replace(rest, next));
      } else {
        ReadPlain(t[0], Replace(rest, next));
      }
    }
  }

  lemma {:induction false} NumberLength(t: string, i: nat)
    ensures |Number(t, i)| == |t|
  {
    if t != [] {
      NumberLength(t[1..], if t[0] == '?' then i + 1 else i);
    }
  }

  /** A mark or dollar sign that runs into a digit swallows it, and the text then reads shorter than the template. */
  lemma {:induction false} ReadsShort(t: string, i: nat)
    ensures |Tokens(Replace(t, i))| <= |t|
    ensures !Readable(t) ==> |Tokens(Replace(t, i))| < |t|
    decreases |t|
  {
    if t != [] {
      var rest, next := t[1..], if t[0] == '?' then i + 1 else i;
      var text := Replace(rest, next);
      ReadableTail(t);
      ReadsShort(rest, next);
      ReplaceRun(rest, next);
      assert text[0..] == text;
      if t[0] == '?' {
        ReadMark(i, text);
        ReadsShort(rest[Run(rest)..], next);
      } else if t[0] == '$' && Run(rest) > 0 {
        ReadParam(text);
        ReadsShort(rest[Run(rest)..], next);
      } else {
        ReadPlain(t[0], text);
      }
    }
  }

  /** Compiled text reads back as its template exactly when no mark and no dollar sign runs into a digit. */
  lemma ReadsBackIff(t: string, i: nat)
    ensures Tokens(Replace(t, i)) == Number(t, i) <==> Readable(t)
  {
    NumberLength(t, i);
    ReadsShort(t, i);
    if Readable(t) {
      ReadBack(t, i);
    }
  }

  // ---------- Meaning ----------

  /** A query with its values in place. */
  datatype Piece<V> = Lit(c: char) | Val(v: V) | Missing

  /** The server's reading: `$k` is the k-th of the flat arguments. */
  function Subst<V>(ts: seq<Token>, args: seq<V>): seq<Piece<V>> {
    if ts == [] then []
    else [match ts[0]
          case Chr(c) => Lit(c)
          case Par(k) => if 1 <= k <= |args| then Val(args[k - 1]) else Missing] + Subst(ts[1..], args)
  }

  /** The caller's reading: each mark is the next of the template's own arguments. */
  function Fill<V>(t: string, args: seq<V>): seq<Piece<V>> {
    if t == [] then []
    else if t[0] == '?' then
      if args == [] then [Missing] + Fill(t[1..], args) else [Val(args[0])] + Fill(t[1..], args[1..])
    else [Lit(t[0])] + Fill(t[1..], args)
  }

  function Params(ts: seq<Token>): seq<nat> {
    if ts == [] then []
    else (if ts[0].Par? then [ts[0].k] else []) + Params(ts[1..])
  }

  /** Reading parameters back as marks. */
  function Unread(ts: seq<Token>): string {
    if ts == [] then []
    else [if ts[0].Par? then '?' else ts[0].c] + Unread(ts[1..])
  }

  lemma {:induction false} NumberMeans<V>(t: string, i: nat, all: seq<V>)
    requires i >= 1 && i - 1 + Marks(t) <= |all|
    ensures Subst(Number(t, i), all) == Fill(t, all[i - 1..])
    ensures |Params(Number(t, i))| == Marks(t)
    ensures forall k | 0 <= k < Marks(t) :: Params(Number(t, i))[k] == i + k
    ensures Unread(Number(t, i)) == t
  {
    if t != [] {
      var next := if t[0] == '?' then i + 1 else i;
      NumberMeans(t[1..], next, all);
      assert Number(t, i)[1..] == Number(t[1..], next);
      if t[0] == '?' {
        assert all[i - 1..][0] == all[i - 1] && all[i - 1..][1..] == all[i..];
      }
    }
  }

  /**
   A readable template with as many marks as arguments: the server reads the compiled text as the caller meant
   it, the parameters are $1 to $n in order, and reading them back as marks recovers the template.
   */
  lemma CompiledMeaning<V>(t: string, args: seq<V>)
    requires Readable(t) && Marks(t) == |args|
    ensures var ts := Tokens(Replace(t, 1));
            && Subst(ts, args) == Fill(t, args)
            && Params(ts) == seq(|args|, k requires 0 <= k < |args| => k + 1)
            && Unread(ts) == t
  {
    hide *;
    ReadBack(t, 1);
    NumberMeans(t, 1, args);
    assert args[0..] == args;
  }

  /** A template of two parts means what the parts mean, each with its own arguments. */
  lemma {:induction false} FillAppend<V>(a: string, b: string, argsA: seq<V>, argsB: seq<V>)
    requires Marks(a) == |argsA|
    ensures Fill(a + b, argsA + argsB) == Fill(a, argsA) + Fill(b, argsB)
  {
    if a == [] {
      assert a + b == b && argsA + argsB == argsB;
    } else {
      assert (a + b)[1..] == a[1..] + b;
      if a[0] == '?' {
        assert (argsA + argsB)[1..] == argsA[1..] + argsB;
        FillAppend(a[1..], b, argsA[1..], argsB);
      } else {
        FillAppend(a[1..], b, argsA, argsB);
      }
    }
  }

  lemma {:induction false} FillLength<V>(t: string, args: seq<V>)
    ensures |Fill(t, args)| == |t|
  {
    if t != [] {
      FillLength(t[1..], if t[0] == '?' && args != [] then args[1..] else args);
    }
  }

  lemma {:induction false} SubstLength<V>(ts: seq<Token>, args: seq<V>)
    ensures |Subst(ts, args)| == |ts|
  {
    if ts != [] {
      SubstLength(ts[1..], args);
    }
  }

  /** With matching arguments the server's reading is the caller's exactly when the template is readable. */
  lemma MeaningIff<V>(t: string, args: seq<V>)
    requires Marks(t) == |args|
    ensures Subst(Tokens(Replace(t, 1)), args) == Fill(t, args) <==> Readable(t)
  {
    if Readable(t) {
      CompiledMeaning(t, args);
    } else {
      ReadsShort(t, 1);
      FillLength(t, args);
      SubstLength(Tokens(Replace(t, 1)), args);
    }
  }
}
