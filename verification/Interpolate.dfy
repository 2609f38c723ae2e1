/**
  types.go: InterpolateArgs, and what the server's lexer makes of the interpolated text.
 */
module Interpolate {
  import opened Wire
  import opened Values
  import opened SqlLexer
  import opened Scanner
  import opened Literals

  datatype Interpolated =
    | Ok(text: Bytes)
    | WrongCount(expected: nat, got: nat)
    | Unsupported

  // ----- specification: tokens with every hole replaced by the tokens of its literal

  function CountHoles(ts: seq<Token>): nat {
    if ts == [] then 0 else (if ts[0].Hole? then 1 else 0) + CountHoles(ts[1..])
  }

  ghost predicate Printable(args: seq<Value>) {
    forall i | 0 <= i < |args| :: GoodValue(args[i]) && Supported(args[i])
  }

  ghost predicate Matches(ts: seq<Token>, args: seq<Value>) {
    CountHoles(ts) == |args| && Printable(args)
  }

  ghost function Subst(ts: seq<Token>, args: seq<Value>): seq<Token>
    requires Matches(ts, args)
  {
    if ts == [] then []
    else if ts[0].Hole? then FormatTokens(args[0]) + Subst(ts[1..], args[1..])
    else [ts[0]] + Subst(ts[1..], args)
  }

  /** The same, as the pieces of text that are written one after the other. */
  ghost function Pieces(ts: seq<Token>, args: seq<Value>): (ps: seq<Bytes>)
    requires Matches(ts, args)
    ensures |ps| == |ts|
  {
    if ts == [] then []
    else if ts[0].Hole? then [FormatValue(args[0])] + Pieces(ts[1..], args[1..])
    else [Text(ts[0])] + Pieces(ts[1..], args)
  }

  /** Two bytes c, dashes or quotes, meet where b is written after a. */
  predicate Meet(a: Bytes, b: Bytes, c: byte) { a != [] && b != [] && a[|a| - 1] == c && b[0] == c }

  predicate NoneMeet(ps: seq<Bytes>, c: byte) {
    |ps| <= 1 || (!Meet(ps[0], ps[1], c) && NoneMeet(ps[1..], c))
  }

  predicate NothingFuses(ps: seq<Bytes>) { NoneMeet(ps, DASH) && NoneMeet(ps, QUOTE) }

  ghost function Interpolation(sql: Bytes, args: seq<Value>): Interpolated
    requires forall v | v in args :: GoodValue(v)
  {
    var ts := Lex(sql);
    if CountHoles(ts) != |args| then WrongCount(CountHoles(ts), |args|)
    else if exists v :: v in args && !Supported(v) then Unsupported
    else
      assert forall i | 0 <= i < |args| :: args[i] in args;
      Ok(Flatten(Subst(ts, args)))
  }

  // ----- the code

  lemma {:induction false} HolesCounted(base: nat, ts: seq<Token>)
    ensures |HolesOf(base, ts)| == CountHoles(ts)
    decreases |ts|
  {
    if ts != [] {
      HolesCounted(base + |Text(ts[0])|, ts[1..]);
    }
  }

  /** The splice of the code: text between the positions, and literals at them. */
  ghost function Splice(sql: Bytes, prev: nat, positions: seq<nat>, args: seq<Value>): Bytes
    requires |positions| == |args| && prev <= |sql|
    requires InOrder(prev, positions, |sql|)
    decreases |positions|
  {
    if positions == [] then sql[prev..]
    else sql[prev..positions[0]] + (LiteralOf(args[0]) + Splice(sql, positions[0] + 1, positions[1..], args[1..]))
  }

  ghost function LiteralOf(v: Value): Bytes {
    if GoodValue(v) && Supported(v) then FormatValue(v) else []
  }

  predicate InOrder(prev: nat, positions: seq<nat>, limit: nat)
    decreases |positions|
  {
    positions == [] || (prev <= positions[0] < limit && InOrder(positions[0] + 1, positions[1..], limit))
  }

  lemma {:induction false} HolesInOrder(prev: nat, base: nat, ts: seq<Token>, limit: nat)
    requires prev <= base && base + |Flatten(ts)| == limit
    ensures InOrder(prev, HolesOf(base, ts), limit)
    decreases |ts|
  {
    hide Text;
    if ts != [] {
      var n := |Text(ts[0])|;
      if ts[0].Hole? {
        HoleText();
        HolesInOrder(base + n, base + n, ts[1..], limit);
      } else {
        HolesInOrder(prev, base + n, ts[1..], limit);
      }
    }
  }

  lemma HoleText()
    ensures Text(Hole) == [HOLE]
  {
  }

  lemma {:induction false} FlattenConcat(a: seq<Token>, b: seq<Token>)
    ensures Flatten(a + b) == Flatten(a) + Flatten(b)
  {
    hide Text;
    if a == [] {
      assert a + b == b;
    } else {
      assert (a + b)[1..] == a[1..] + b;
      FlattenConcat(a[1..], b);
    }
  }

  // The first token, on both sides.

  lemma FirstHole(base: nat, ts: seq<Token>)
    requires ts != [] && ts[0].Hole?
    ensures HolesOf(base, ts) == [base] + HolesOf(base + 1, ts[1..])
  {
    hide Text;
    HoleText();
  }

  lemma FirstSplice(sql: Bytes, prev: nat, p: nat, positions: seq<nat>, args: seq<Value>)
    requires prev <= p < |sql| && |args| == |positions| + 1 && InOrder(p + 1, positions, |sql|)
    ensures InOrder(prev, [p] + positions, |sql|)
    ensures Splice(sql, prev, [p] + positions, args)
         == sql[prev..p] + (LiteralOf(args[0]) + Splice(sql, p + 1, positions, args[1..]))
  {
    hide LiteralOf;
    assert ([p] + positions)[1..] == positions;
  }

  lemma SubstHole(ts: seq<Token>, args: seq<Value>)
    requires ts != [] && ts[0].Hole? && Matches(ts, args)
    ensures Flatten(Subst(ts, args)) == FormatValue(args[0]) + Flatten(Subst(ts[1..], args[1..]))
  {
    hide FormatValue, FormatTokens, GoodValue, Supported, Flatten;
    LiteralLexes(args[0]);
    FlattenConcat(FormatTokens(args[0]), Subst(ts[1..], args[1..]));
  }

  lemma SubstOther(ts: seq<Token>, args: seq<Value>)
    requires ts != [] && !ts[0].Hole? && Matches(ts, args)
    ensures Flatten(Subst(ts, args)) == Text(ts[0]) + Flatten(Subst(ts[1..], args))
  {
    hide FormatTokens, GoodValue, Supported, Flatten, Text;
    FlattenConcat([ts[0]], Subst(ts[1..], args));
    OneToken(ts[0]);
  }

  lemma SpliceHole(sql: Bytes, prev: nat, base: nat, ts: seq<Token>, args: seq<Value>)
    requires prev <= base < |sql| && ts != [] && ts[0].Hole? && Matches(ts, args)
    requires |HolesOf(base, ts)| == |args| && InOrder(prev, HolesOf(base, ts), |sql|)
    requires |HolesOf(base + 1, ts[1..])| == |args| - 1 && InOrder(base + 1, HolesOf(base + 1, ts[1..]), |sql|)
    requires Splice(sql, base + 1, HolesOf(base + 1, ts[1..]), args[1..]) == Flatten(Subst(ts[1..], args[1..]))
    ensures Splice(sql, prev, HolesOf(base, ts), args) == sql[prev..base] + Flatten(Subst(ts, args))
  {
    hide FormatValue, GoodValue, Supported, Flatten, Splice, Subst, HolesOf, InOrder, CountHoles;
    FirstHole(base, ts);
    FirstSplice(sql, prev, base, HolesOf(base + 1, ts[1..]), args);
    SubstHole(ts, args);
  }

  lemma SpliceOther(sql: Bytes, prev: nat, base: nat, ts: seq<Token>, args: seq<Value>)
    requires prev <= base <= |sql| && ts != [] && !ts[0].Hole? && Matches(ts, args)
    requires sql[base..] == Text(ts[0]) + Flatten(ts[1..])
    requires |HolesOf(base, ts)| == |args| && InOrder(prev, HolesOf(base, ts), |sql|)
    requires var next := base + |Text(ts[0])|;
      Splice(sql, prev, HolesOf(next, ts[1..]), args) == sql[prev..next] + Flatten(Subst(ts[1..], args))
    ensures Splice(sql, prev, HolesOf(base, ts), args) == sql[prev..base] + Flatten(Subst(ts, args))
  {
    hide Text, Splice, Flatten, InOrder, Subst, GoodValue, Supported;
    SliceExtend(sql, prev, base, Text(ts[0]), Flatten(ts[1..]));
    SubstOther(ts, args);
    Reassociate(sql[prev..base], Text(ts[0]), Flatten(Subst(ts[1..], args)));
  }

  lemma SliceExtend(s: Bytes, prev: nat, base: nat, t: Bytes, rest: Bytes)
    requires prev <= base <= |s| && s[base..] == t + rest
    ensures base + |t| <= |s| && s[prev..base + |t|] == s[prev..base] + t
    ensures s[base + |t|..] == rest
  {
    assert s[base..][..|t|] == t;
  }

  /** Splicing at the holes writes the substituted tokens. */
  lemma {:induction false} SpliceIsSubst(sql: Bytes, prev: nat, base: nat, ts: seq<Token>, args: seq<Value>)
    requires prev <= base <= |sql| && sql[base..] == Flatten(ts) && Matches(ts, args)
    ensures |HolesOf(base, ts)| == |args| && InOrder(prev, HolesOf(base, ts), |sql|)
    ensures Splice(sql, prev, HolesOf(base, ts), args) == sql[prev..base] + Flatten(Subst(ts, args))
    decreases |ts|
  {
    hide Text, GoodValue, Supported, Splice, Subst, HolesOf, InOrder;
    HolesCounted(base, ts);
    HolesInOrder(prev, base, ts, |sql|);
    if ts == [] {
      SpliceNothing(sql, prev, base, args);
    } else {
      var next := base + |Text(ts[0])|;
      SliceExtend(sql, prev, base, Text(ts[0]), Flatten(ts[1..]));
      if ts[0].Hole? {
        HoleText();
        SpliceIsSubst(sql, next, next, ts[1..], args[1..]);
        assert sql[next..next] + Flatten(Subst(ts[1..], args[1..])) == Flatten(Subst(ts[1..], args[1..]));
        SpliceHole(sql, prev, base, ts, args);
      } else {
        SpliceIsSubst(sql, prev, next, ts[1..], args);
        SpliceOther(sql, prev, base, ts, args);
      }
    }
  }

  lemma SpliceNothing(sql: Bytes, prev: nat, base: nat, args: seq<Value>)
    requires prev <= base == |sql| && args == []
    ensures HolesOf(base, []) == [] && InOrder(prev, [], |sql|)
    ensures Splice(sql, prev, [], args) == sql[prev..base] + Flatten(Subst([], args))
  {
  }

  lemma OneToken(t: Token)
    ensures Flatten([t]) == Text(t)
  {
  }

  lemma Reassociate(a: Bytes, b: Bytes, c: Bytes)
    ensures a + b + c == a + (b + c)
  {
  }

  /** FormatValue; `ok` is false for the error on other types. */
  method FormatArg(v: Value) returns (ok: bool, text: Bytes)
    requires GoodValue(v)
    ensures ok == Supported(v)
    ensures ok ==> text == FormatValue(v)
  {
    if v.Other? {
      return false, [];
    }
    match v {
      case Nil => text := NULL_TEXT;
      case Bool(b) => text := if b then Ascii("1") else Ascii("0");
      case Int(i) => text := Decimal(i);
      case Float(f) => text := f.text;
      case Str(s) => text := [QUOTE] + EscapeString(s) + [QUOTE];
      case Blob(b) =>
        var h := HexEncode(b);
        text := [X, QUOTE] + h + [QUOTE];
      case Timestamp(at) => text := DATETIME_TEXT + [QUOTE] + TimeText(at) + [QUOTE];
      case Other(_) =>
    }
    ok := true;
  }

  lemma SpliceStep(sql: Bytes, sb: Bytes, prev: nat, positions: seq<nat>, args: seq<Value>, i: nat)
    requires i < |positions| == |args| && prev <= |sql| && InOrder(prev, positions[i..], |sql|)
    ensures prev <= positions[i] < |sql| && InOrder(positions[i] + 1, positions[i + 1..], |sql|)
    ensures sb + Splice(sql, prev, positions[i..], args[i..])
         == sb + sql[prev..positions[i]] + LiteralOf(args[i])
            + Splice(sql, positions[i] + 1, positions[i + 1..], args[i + 1..])
  {
    hide LiteralOf;
    assert positions[i..][0] == positions[i] && positions[i..][1..] == positions[i + 1..];
    assert args[i..][0] == args[i] && args[i..][1..] == args[i + 1..];
    var more := Splice(sql, positions[i] + 1, positions[i + 1..], args[i + 1..]);
    Reassociate(sb, sql[prev..positions[i]], LiteralOf(args[i]) + more);
    Reassociate(sb + sql[prev..positions[i]], LiteralOf(args[i]), more);
  }

  lemma SpliceEnd(sql: Bytes, prev: nat, positions: seq<nat>, args: seq<Value>)
    requires positions == [] && args == [] && prev <= |sql|
    ensures InOrder(prev, positions, |sql|) && Splice(sql, prev, positions, args) == sql[prev..]
  {
  }

  /** The loop of InterpolateArgs: it stops at the first value FormatValue rejects. */
  method SpliceArgs(sql: Bytes, placeholders: seq<nat>, args: seq<Value>) returns (ok: bool, text: Bytes)
    requires |placeholders| == |args| && InOrder(0, placeholders, |sql|)
    requires forall v | v in args :: GoodValue(v)
    ensures ok <==> Printable(args)
    ensures ok ==> text == Splice(sql, 0, placeholders, args)
  {
    hide GoodValue, Supported, FormatValue, Splice, InOrder;
    var sb: Bytes := [];
    var prev := 0;
    assert placeholders[0..] == placeholders && args[0..] == args;
    assert [] + Splice(sql, 0, placeholders, args) == Splice(sql, 0, placeholders, args);
    for i := 0 to |placeholders|
      invariant prev <= |sql| && InOrder(prev, placeholders[i..], |sql|)
      invariant forall j | 0 <= j < i :: GoodValue(args[j]) && Supported(args[j])
      invariant sb + Splice(sql, prev, placeholders[i..], args[i..]) == Splice(sql, 0, placeholders, args)
    {
      var pos := placeholders[i];
      assert args[i] in args;
      SpliceStep(sql, sb, prev, placeholders, args, i);
      var good, formatted := FormatArg(args[i]);
      if !good {
        return false, [];
      }
      sb := sb + sql[prev..pos];
      sb := sb + formatted;
      prev := pos + 1;
    }
    SpliceEnd(sql, prev, placeholders[|placeholders|..], args[|args|..]);
    return true, sb + sql[prev..];
  }

  method InterpolateArgs(sql: Bytes, args: seq<Value>) returns (r: Interpolated)
    requires forall v | v in args :: GoodValue(v)
    ensures r == Interpolation(sql, args)
    ensures r.WrongCount? <==> |Placeholders(sql)| != |args|
    ensures r.WrongCount? ==> r.expected == |Placeholders(sql)| && r.got == |args|
    ensures r.Unsupported? <==> |Placeholders(sql)| == |args| && exists v :: v in args && v.Other?
  {
    hide Lex, Flatten, GoodValue, Subst, Splice, InOrder, CountHoles, Placeholders, HolesOf;
    var placeholders, _ := FindBindPlaceholders(sql);
    PlaceholdersAreHoles(sql);
    HolesCounted(0, Lex(sql));
    LexLosesNothing(sql);
    HolesInOrder(0, 0, Lex(sql), |sql|);
    if |placeholders| != |args| {
      return WrongCount(|placeholders|, |args|);
    }
    if |placeholders| == 0 {
      SubstNothing(Lex(sql), args);
      return Ok(sql);
    }
    assert forall j | 0 <= j < |args| :: args[j] in args;
    var ok, text := SpliceArgs(sql, placeholders, args);
    if !ok {
      return Unsupported;
    }
    assert sql[0..] == sql && forall t: Bytes :: sql[0..0] + t == t;
    SpliceIsSubst(sql, 0, 0, Lex(sql), args);
    return Ok(text);
  }

  lemma {:induction false} SubstNothing(ts: seq<Token>, args: seq<Value>)
    requires CountHoles(ts) == 0 && args == []
    ensures Subst(ts, args) == ts
  {
    if ts != [] {
      SubstNothing(ts[1..], args);
    }
  }
}
