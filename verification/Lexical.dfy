/**
  types.go: what interpolation does to the lexical structure of a text. Two conditions on
  the pieces that are written one after the other decide it, for every text and all values.
 */
module Lexical {
  import opened Wire
  import opened Values
  import opened SqlLexer
  import opened Scanner
  import opened Literals
  import opened Interpolate

  // ----- ends of token sequences

  lemma {:induction false} FlattenEnds(ts: seq<Token>)
    requires ts != []
    ensures Flatten(ts) != [] && Flatten(ts)[0] == Text(ts[0])[0]
    ensures var last := Text(ts[|ts| - 1]); Flatten(ts)[|Flatten(ts)| - 1] == last[|last| - 1]
  {
    hide Text;
    if |ts| > 1 {
      FlattenEnds(ts[1..]);
      AppendEnds(Text(ts[0]), Flatten(ts[1..]));
    } else {
      OneToken(ts[0]);
      assert ts == [ts[0]];
    }
  }

  lemma AppendEnds(a: Bytes, b: Bytes)
    requires a != [] && b != []
    ensures (a + b)[0] == a[0] && (a + b)[|a + b| - 1] == b[|b| - 1]
  {
  }

  lemma {:induction false} SeparableConcat(a: seq<Token>, b: seq<Token>)
    requires a != []
    ensures Separable(a + b) <==> Separable(a) && Separable(b) && (b == [] || Apart(a[|a| - 1], b[0]))
  {
    hide Apart;
    if |a| == 1 {
      assert (a + b)[1..] == b;
    } else {
      assert (a + b)[1..] == a[1..] + b;
      SeparableConcat(a[1..], b);
    }
  }

  lemma {:induction false} SolidEnd(ts: seq<Token>)
    requires Solid(ts)
    ensures var last := ts[|ts| - 1];
      WellFormed(last) && IsClosed(last) && After(last) == Normal && (last.Code? || last.Literal?)
  {
    hide WellFormed, Apart, Text;
    if |ts| > 1 {
      SolidEnd(ts[1..]);
    }
  }

  /** Tokens are apart exactly when neither two dashes nor two quotes meet between them. */
  lemma EdgeApart(a: Token, b: Token)
    requires WellFormed(a) && WellFormed(b) && IsClosed(a) && !a.Hole? && !b.Hole?
    requires !(a == Code(SLASH) && Text(b)[0] == STAR)
    ensures Apart(a, b) <==> !Meet(Text(a), Text(b), DASH) && !Meet(Text(a), Text(b), QUOTE)
    ensures Ready(After(a), b) <==> !Meet(Text(a), Text(b), DASH)
  {
    hide QuoteLen, BlockLen, LineLen;
  }

  // ----- one piece

  /** The tokens written for the first token of a text. */
  ghost function Group(ts: seq<Token>, args: seq<Value>): seq<Token>
    requires ts != [] && Matches(ts, args)
  {
    if ts[0].Hole? then FormatTokens(args[0]) else [ts[0]]
  }

  ghost function ArgsAfter(ts: seq<Token>, args: seq<Value>): seq<Value>
    requires ts != [] && Matches(ts, args)
  {
    if ts[0].Hole? then args[1..] else args
  }

  lemma SubstIsGroups(ts: seq<Token>, args: seq<Value>)
    requires ts != [] && Matches(ts, args)
    ensures Matches(ts[1..], ArgsAfter(ts, args))
    ensures Subst(ts, args) == Group(ts, args) + Subst(ts[1..], ArgsAfter(ts, args))
    ensures Flatten(Group(ts, args)) == if ts[0].Hole? then FormatValue(args[0]) else Text(ts[0])
    ensures Pieces(ts, args) == [Flatten(Group(ts, args))] + Pieces(ts[1..], ArgsAfter(ts, args))
  {
    hide FormatTokens, FormatValue, GoodValue, Supported, Text, Flatten;
    if ts[0].Hole? {
      LiteralLexes(args[0]);
    } else {
      OneToken(ts[0]);
    }
  }

  /** A group is separable, has no hole, and ends closed if anything follows it. */
  lemma GroupGood(ts: seq<Token>, args: seq<Value>)
    requires ts != [] && Matches(ts, args) && AllWellFormed(ts) && Separable(ts)
    ensures var g := Group(ts, args);
      && g != [] && AllWellFormed(g) && Separable(g)
      && (forall t | t in g :: !t.Hole?)
      && (|ts| > 1 ==> IsClosed(g[|g| - 1]))
      && (ts[0].Hole? ==> Solid(g))
  {
    hide FormatTokens, GoodValue, Supported, WellFormed;
    if ts[0].Hole? {
      LiteralLexes(args[0]);
      SolidMeans(FormatTokens(args[0]));
      SolidEnd(FormatTokens(args[0]));
    }
  }

  lemma {:induction false} SubstGood(ts: seq<Token>, args: seq<Value>)
    requires Matches(ts, args) && AllWellFormed(ts) && Separable(ts)
    ensures var ss := Subst(ts, args); AllWellFormed(ss) && (forall t | t in ss :: !t.Hole?)
    ensures ts != [] ==> Subst(ts, args) != []
  {
    hide WellFormed, Apart, Group, Subst;
    if ts != [] {
      SubstIsGroups(ts, args);
      GroupGood(ts, args);
      SubstGood(ts[1..], ArgsAfter(ts, args));
    } else {
      SubstEmpty(args);
    }
  }

  lemma SubstEmpty(args: seq<Value>)
    requires Matches([], args)
    ensures Subst([], args) == [] && Pieces([], args) == []
    ensures NoneMeet([], DASH) && NoneMeet([], QUOTE)
  {
  }

  /** Where the second piece is written after the first. */
  lemma Edge(ts: seq<Token>, args: seq<Value>)
    requires |ts| > 1 && Matches(ts, args) && AllWellFormed(ts) && Separable(ts)
    ensures |Pieces(ts, args)| > 1 && Subst(ts[1..], ArgsAfter(ts, args)) != [] && Group(ts, args) != []
    ensures var a, b := Group(ts, args)[|Group(ts, args)| - 1], Subst(ts[1..], ArgsAfter(ts, args))[0];
      var p, q := Pieces(ts, args)[0], Pieces(ts, args)[1];
      && (Apart(a, b) <==> !Meet(p, q, DASH) && !Meet(p, q, QUOTE))
      && (Ready(After(a), b) <==> !Meet(p, q, DASH))
  {
    hide WellFormed, Subst, Pieces, GoodValue, Supported, FormatTokens, Text;
    var rest, more := ts[1..], ArgsAfter(ts, args);
    SubstIsGroups(ts, args);
    GroupGood(ts, args);
    SubstIsGroups(rest, more);
    GroupGood(rest, more);
    SubstGood(rest, more);
    var g, h := Group(ts, args), Group(rest, more);
    FlattenEnds(g);
    FlattenEnds(h);
    var a, b := g[|g| - 1], Subst(rest, more)[0];
    assert a in g && b == h[0] && b in h;
    if ts[0].Hole? {
      SolidEnd(g);
    }
    assert !(a == Code(SLASH) && Text(b)[0] == STAR);
    EdgeApart(a, b);
  }

  lemma NoneMeetFirst(p: Bytes, ps: seq<Bytes>, c: byte)
    ensures NoneMeet([p] + ps, c) <==> NoneMeet(ps, c) && !(ps != [] && Meet(p, ps[0], c))
  {
    hide Meet;
    assert ([p] + ps)[1..] == ps;
  }

  // ----- when the tokens survive

  lemma SeparableRest(ts: seq<Token>)
    ensures Separable([])
    ensures ts != [] && Separable(ts) ==> Separable(ts[1..])
  {
    hide Apart;
  }

  lemma {:induction false} SubstSeparable(ts: seq<Token>, args: seq<Value>)
    requires Matches(ts, args) && AllWellFormed(ts) && Separable(ts)
    ensures Separable(Subst(ts, args)) <==> NothingFuses(Pieces(ts, args))
  {
    hide WellFormed, Apart, Group, Subst, Pieces, Meet, NoneMeet, Separable, CountHoles, GoodValue, Supported,
      Flatten, FormatValue, Text;
    SeparableRest(ts);
    if ts == [] {
      SubstEmpty(args);
    } else {
      var rest, more := ts[1..], ArgsAfter(ts, args);
      SubstIsGroups(ts, args);
      GroupGood(ts, args);
      SeparableConcat(Group(ts, args), Subst(rest, more));
      NoneMeetFirst(Pieces(ts, args)[0], Pieces(rest, more), DASH);
      NoneMeetFirst(Pieces(ts, args)[0], Pieces(rest, more), QUOTE);
      if rest == [] {
        SubstEmpty(more);
      } else {
        SubstSeparable(rest, more);
        Edge(ts, args);
      }
    }
  }

  /**
    For every text and all values: the interpolated text lexes to the tokens of the
    original with each `?` replaced by the tokens of its literal, exactly when no two
    dashes and no two quotes meet where one piece is written after another.
   */
  lemma InterpolationLexes(sql: Bytes, args: seq<Value>)
    requires Matches(Lex(sql), args)
    ensures var ts := Lex(sql);
      Lex(Flatten(Subst(ts, args))) == Subst(ts, args) <==> NothingFuses(Pieces(ts, args))
  {
    hide Lex, Subst, Pieces, Flatten, NothingFuses;
    LexGood(sql);
    SubstGood(Lex(sql), args);
    SubstSeparable(Lex(sql), args);
    LexInverse(Subst(Lex(sql), args));
  }

  // ----- when the scanner's states survive

  lemma CalmFrom(m: Mode, ts: seq<Token>)
    ensures Calm(m, ts) <==> (ts == [] || Ready(m, ts[0])) && Calm(Normal, ts)
  {
    hide Text;
  }

  lemma {:induction false} CalmConcat(m: Mode, a: seq<Token>, b: seq<Token>)
    requires a != []
    ensures Calm(m, a + b) <==> Calm(m, a) && Calm(After(a[|a| - 1]), b)
    decreases |a|
  {
    hide Ready;
    if |a| == 1 {
      assert (a + b)[1..] == b;
    } else {
      assert (a + b)[1..] == a[1..] + b;
      CalmConcat(After(a[0]), a[1..], b);
    }
  }

  lemma {:induction false} ClosedConcat(a: seq<Token>, b: seq<Token>)
    requires a != [] && ClosedInside(a) && ClosedInside(b) && (b != [] ==> IsClosed(a[|a| - 1]))
    ensures ClosedInside(a + b)
  {
    if |a| == 1 {
      assert (a + b)[1..] == b;
    } else {
      assert (a + b)[1..] == a[1..] + b;
      ClosedConcat(a[1..], b);
    }
  }

  lemma {:induction false} SubstCalm(ts: seq<Token>, args: seq<Value>)
    requires Matches(ts, args) && AllWellFormed(ts) && Separable(ts)
    ensures Calm(Normal, Subst(ts, args)) <==> NoneMeet(Pieces(ts, args), DASH)
    ensures ClosedInside(Subst(ts, args))
  {
    hide WellFormed, Apart, Group, Subst, Pieces, Meet, NoneMeet, Ready, IsClosed, Separable, CountHoles, GoodValue,
      Supported, Flatten, FormatValue, Text;
    SeparableRest(ts);
    if ts == [] {
      SubstEmpty(args);
    } else {
      var rest, more := ts[1..], ArgsAfter(ts, args);
      var g := Group(ts, args);
      SubstIsGroups(ts, args);
      NoneMeetFirst(Pieces(ts, args)[0], Pieces(rest, more), DASH);
      GroupGood(ts, args);
      NormalReady(g[0]);
      SeparableIsCalm(Normal, g);
      CalmConcat(Normal, g, Subst(rest, more));
      if rest == [] {
        SubstEmpty(more);
      } else {
        SubstCalm(rest, more);
        Edge(ts, args);
        CalmFrom(After(g[|g| - 1]), Subst(rest, more));
      }
      ClosedConcat(g, Subst(rest, more));
    }
  }

  lemma NormalReady(t: Token)
    ensures Ready(Normal, t)
  {
  }

  /** A token that may complete a comment opening is followed by another, and not by a quoted text. */
  ghost predicate FollowedFirst(m: Mode, ts: seq<Token>)
    requires ts != []
  {
    Ready(m, ts[0]) || (|ts| > 1 && !ts[1].Literal?)
  }

  ghost predicate Followed(m: Mode, ts: seq<Token>)
    decreases |ts|
  {
    ts == [] || (FollowedFirst(m, ts) && Followed(After(ts[0]), ts[1..]))
  }

  lemma TwoMarks(m: Mode, s: Bytes)
    requires s != []
    ensures Marks(m, s)[0] == StateOf(m)
    ensures |s| > 1 ==> Marks(m, s)[1] == StateOf(Step(m, s[0]))
  {
  }

  /** At byte k, which is no quote, the automaton enters a comment that the tokens do not have. */
  ghost predicate StraysAt(m: Mode, ts: seq<Token>, k: nat) {
    var s, marks := Flatten(ts), Marks(m, Flatten(ts));
    && 0 < k < |s| && k < |AllMarks(ts)| && s[k] != QUOTE
    && marks[k - 1] == ScanNormal && marks[k] != ScanNormal && AllMarks(ts)[k] == ScanNormal
  }

  lemma SecondByte(ts: seq<Token>)
    requires |ts| > 1 && AllWellFormed(ts) && (|Text(ts[0])| == 1 ==> !ts[1].Literal?)
    requires Text(ts[0])[0] == STAR || Text(ts[0])[0] == DASH
    ensures |Flatten(ts)| > 1 && Flatten(ts)[1] != QUOTE
  {
    hide QuoteLen, BlockLen, LineLen;
    var t, u, rest := ts[0], ts[1], Flatten(ts[1..][1..]);
    assert ts[0] in ts && ts[1] in ts;
    assert Flatten(ts) == Text(t) + (Text(u) + rest);
  }

  /** A comment that opens across two tokens shows in the marks of the byte after it. */
  lemma UnreadyShows(m: Mode, ts: seq<Token>)
    requires Outside(m) && |ts| > 1 && AllWellFormed(ts) && !Ready(m, ts[0]) && !ts[1].Literal?
    ensures StraysAt(m, ts, 1)
  {
    hide Marks, Text, WellFormed;
    FlattenEnds(ts);
    SecondByte(ts);
    assert Flatten(ts) == Text(ts[0]) + (Text(ts[1]) + Flatten(ts[1..][1..]));
    assert AllMarks(ts) == TokenMarks(ts[0]) + (TokenMarks(ts[1]) + AllMarks(ts[1..][1..]));
    TwoMarks(m, Flatten(ts));
    TwoMarks(Normal, Text(ts[0]));
    TwoMarks(Normal, Text(ts[1]));
  }

  lemma {:induction false} MarksDiffer(m: Mode, ts: seq<Token>) returns (k: nat)
    requires Outside(m) && AllWellFormed(ts) && ClosedInside(ts) && Followed(m, ts) && !Calm(m, ts)
    ensures StraysAt(m, ts, k)
    decreases |ts|
  {
    hide Marks, WellFormed, Text, Ready, TokenMarks, Run, IsClosed, StraysAt;
    if !Ready(m, ts[0]) {
      UnreadyShows(m, ts);
      k := 1;
    } else {
      var t, rest := ts[0], Flatten(ts[1..]);
      ReadyScan(m, t);
      TokenScan(0, t);
      MarksConcat(m, Text(t), rest);
      k := MarksDiffer(After(t), ts[1..]);
      StraysLater(m, ts, k);
      k := k + |Text(t)|;
    }
  }

  lemma StraysLater(m: Mode, ts: seq<Token>, k: nat)
    requires ts != [] && StraysAt(After(ts[0]), ts[1..], k)
    requires Marks(m, Flatten(ts)) == TokenMarks(ts[0]) + Marks(After(ts[0]), Flatten(ts[1..]))
    ensures StraysAt(m, ts, k + |Text(ts[0])|)
  {
    hide Marks, Text, TokenMarks;
  }

  lemma {:induction false} FollowedSolid(m: Mode, ts: seq<Token>, rest: seq<Token>)
    requires Solid(ts) && FollowedFirst(m, ts) && Followed(Normal, rest)
    ensures Followed(m, ts + rest)
    decreases |ts|
  {
    hide WellFormed, Text, Solid, Ready;
    SolidFirst(ts);
    if |ts| == 1 {
      assert (ts + rest)[1..] == rest;
    } else {
      assert (ts + rest)[1..] == ts[1..] + rest;
      FollowedSolid(After(ts[0]), ts[1..], rest);
    }
  }

  lemma SolidFirst(ts: seq<Token>)
    requires Solid(ts)
    ensures ts != []
    ensures if |ts| == 1 then After(ts[0]) == Normal else Ready(After(ts[0]), ts[1]) && Solid(ts[1..])
  {
    hide WellFormed, Text;
  }

  lemma CodesAre(s: Bytes)
    requires s != []
    ensures Codes(s)[0] == Code(s[0]) && (|s| > 1 ==> Codes(s)[1] == Code(s[1]))
  {
  }

  /** A literal starts with a dash only as a number of two bytes or more. */
  lemma LiteralFollowed(m: Mode, v: Value)
    requires Outside(m) && GoodValue(v) && Supported(v)
    ensures FormatTokens(v) != [] && FollowedFirst(m, FormatTokens(v))
  {
    hide EscapeString, Hex, TimeText, Decimal, Solid;
    LiteralLexes(v);
    SolidStart(FormatTokens(v));
    if v.Timestamp? {
      CodesAre(DATETIME_TEXT);
    } else if !v.Str? && !v.Blob? {
      PlainFormat(v);
      CodesAre(FormatValue(v));
    }
  }

  lemma SolidStart(ts: seq<Token>)
    requires Solid(ts)
    ensures ts != [] && Text(ts[0])[0] != STAR && (|ts| == 1 ==> After(ts[0]) == Normal)
  {
    hide WellFormed, Text;
  }

  lemma {:induction false} SubstFollowed(m: Mode, ts: seq<Token>, args: seq<Value>)
    requires Outside(m) && Matches(ts, args) && AllWellFormed(ts) && Separable(ts)
    requires ts != [] && !ts[0].Hole? ==> Ready(m, ts[0])
    ensures Followed(m, Subst(ts, args))
    decreases |ts|
  {
    hide WellFormed, Text, FormatTokens, GoodValue, Supported;
    if ts != [] {
      var rest, more := ts[1..], ArgsAfter(ts, args);
      SubstIsGroups(ts, args);
      GroupGood(ts, args);
      if ts[0].Hole? {
        SubstFollowed(Normal, rest, more);
        LiteralFollowed(m, args[0]);
        FollowedSolid(m, Group(ts, args), Subst(rest, more));
      } else {
        SubstFollowed(After(ts[0]), rest, more);
        assert ([ts[0]] + Subst(rest, more))[1..] == Subst(rest, more);
      }
    }
  }

  /**
    For every text and all values: the automaton marks the written text, copied tokens and
    literals alike, as it would mark each token alone, exactly when no dash is written in
    front of a dash; and so it marks the original.
   */
  lemma InterpolationKeepsStates(sql: Bytes, args: seq<Value>)
    requires Matches(Lex(sql), args)
    ensures var ts := Lex(sql); var out := Flatten(Subst(ts, args));
      && Marks(Normal, sql) == AllMarks(ts)
      && (Marks(Normal, out) == AllMarks(Subst(ts, args)) <==> NoneMeet(Pieces(ts, args), DASH))
  {
    hide Lex, Subst, Pieces, Flatten, Marks, AllMarks, NoneMeet, Calm, Followed;
    var ts := Lex(sql);
    LexGood(sql);
    LexLosesNothing(sql);
    SeparableStart(ts);
    ScanTokens(Normal, 0, ts);
    SubstGood(ts, args);
    SubstCalm(ts, args);
    if NoneMeet(Pieces(ts, args), DASH) {
      ScanTokens(Normal, 0, Subst(ts, args));
    } else {
      var _ := SubstStrays(ts, args);
    }
  }

  /** Where the automaton leaves the tokens after dashes meet. */
  lemma SubstStrays(ts: seq<Token>, args: seq<Value>) returns (k: nat)
    requires Matches(ts, args) && AllWellFormed(ts) && Separable(ts) && !NoneMeet(Pieces(ts, args), DASH)
    ensures StraysAt(Normal, Subst(ts, args), k)
  {
    hide Subst, Pieces, Marks, AllMarks, NoneMeet, Calm, Followed, StraysAt;
    SubstGood(ts, args);
    SubstCalm(ts, args);
    if ts != [] {
      NormalReady(ts[0]);
    }
    SubstFollowed(Normal, ts, args);
    k := MarksDiffer(Normal, Subst(ts, args));
  }

  /** The loop, entered in the normal state, reads every byte but quotes as `marks` says, unless it skips it. */
  ghost predicate ReadsAs(s: Bytes, marks: seq<State>) {
    && |marks| == |s|
    && forall q | 0 <= q < |s| && s[q] != QUOTE ::
         Looks(ScanNormal, s)[q].Read? ==> Looks(ScanNormal, s)[q].state == marks[q]
  }

  lemma ReadsAsMarks(s: Bytes)
    ensures ReadsAs(s, Marks(Normal, s))
  {
    hide Marks, Looks;
    forall q | 0 <= q < |s|
      ensures Looks(ScanNormal, s)[q].Read? ==> Looks(ScanNormal, s)[q].state == Marks(Normal, s)[q]
    {
      LooksExactly(Normal, s, q);
    }
  }

  lemma StrayIsRead(ts: seq<Token>, k: nat)
    requires StraysAt(Normal, ts, k)
    ensures !ReadsAs(Flatten(ts), AllMarks(ts))
  {
    hide Marks, Looks, AllMarks, Flatten;
    LooksExactly(Normal, Flatten(ts), k);
  }

  /**
    The same of the code's own state variable, for every byte but quotes: the loop of
    findBindPlaceholders reads the written text as it would read each token alone, exactly
    when no dash is written in front of a dash; and so it reads the original.
   */
  lemma InterpolationKeepsLooks(sql: Bytes, args: seq<Value>)
    requires Matches(Lex(sql), args)
    ensures var ts := Lex(sql);
      && ReadsAs(sql, AllMarks(ts))
      && (ReadsAs(Flatten(Subst(ts, args)), AllMarks(Subst(ts, args))) <==> NoneMeet(Pieces(ts, args), DASH))
  {
    hide Lex, Subst, Pieces, Flatten, Marks, AllMarks, NoneMeet, ReadsAs, StraysAt;
    var ts := Lex(sql);
    InterpolationKeepsStates(sql, args);
    ReadsAsMarks(sql);
    ReadsAsMarks(Flatten(Subst(ts, args)));
    if !NoneMeet(Pieces(ts, args), DASH) {
      LexGood(sql);
      var k := SubstStrays(ts, args);
      StrayIsRead(Subst(ts, args), k);
    }
  }

  lemma SeparableStart(ts: seq<Token>)
    requires Separable(ts)
    ensures ClosedInside(ts) && Calm(Normal, ts)
  {
    hide Separable, Ready;
    if ts != [] {
      NormalReady(ts[0]);
    }
    SeparableIsCalm(Normal, ts);
  }

  lemma {:induction false} NoHoles(base: nat, ts: seq<Token>)
    requires forall t | t in ts :: !t.Hole?
    ensures HolesOf(base, ts) == []
    decreases |ts|
  {
    hide Text;
    if ts != [] {
      NoHoles(base + |Text(ts[0])|, ts[1..]);
    }
  }

  /** Under that condition no placeholder is left: interpolating the result changes nothing. */
  lemma InterpolationIsFinal(sql: Bytes, args: seq<Value>)
    requires Matches(Lex(sql), args) && NoneMeet(Pieces(Lex(sql), args), DASH)
    ensures var out := Flatten(Subst(Lex(sql), args));
      Placeholders(out) == [] && Interpolation(out, []) == Ok(out)
  {
    hide Lex, Pieces, Flatten, Subst, NoneMeet, Calm;
    var ts := Lex(sql);
    var out := Flatten(Subst(ts, args));
    LexGood(sql);
    SubstGood(ts, args);
    SubstCalm(ts, args);
    ScanTokens(Normal, 0, Subst(ts, args));
    NoHoles(0, Subst(ts, args));
    PlaceholdersAreHoles(out);
    HolesCounted(0, Lex(out));
    SubstNothing(Lex(out), []);
    LexLosesNothing(out);
  }

  lemma {:induction false} SubstHasLiteral(ts: seq<Token>, args: seq<Value>, i: nat)
    requires Matches(ts, args) && i < |args| && args[i].Str?
    ensures Literal(EscapeString(args[i].s), true) in Subst(ts, args)
  {
    hide EscapeString, GoodValue, Supported, Flatten, FormatValue, Text, Subst, Pieces, FormatTokens;
    SubstIsGroups(ts, args);
    if ts[0].Hole? && i == 0 {
      StringTokens(args[0]);
    } else if ts[0].Hole? {
      SubstHasLiteral(ts[1..], args[1..], i - 1);
    } else {
      SubstHasLiteral(ts[1..], args, i);
    }
  }

  lemma StringTokens(v: Value)
    requires v.Str?
    ensures Supported(v) && GoodValue(v) && FormatTokens(v) == [Literal(EscapeString(v.s), true)]
  {
    hide EscapeString;
  }

  /**
    When nothing fuses, the server's lexer finds every bound string as one quoted text of
    its own, and undoing the escapes in it gives back exactly the bytes that were bound.
   */
  lemma BoundStringArrives(sql: Bytes, args: seq<Value>, i: nat)
    requires Matches(Lex(sql), args) && NothingFuses(Pieces(Lex(sql), args))
    requires i < |args| && args[i].Str?
    ensures exists raw :: Literal(raw, true) in Lex(Flatten(Subst(Lex(sql), args))) && Unescape(raw) == args[i].s
  {
    hide Lex, Subst, Pieces, Flatten, NothingFuses, EscapeString, Unescape;
    InterpolationLexes(sql, args);
    SubstHasLiteral(Lex(sql), args, i);
    EscapeReversible(args[i].s);
  }

  /** Without the condition: in `-?+`, a bound -5 turns everything from the dash on into a comment. */
  lemma NegativeAfterDash()
    ensures var sql, out := [DASH, HOLE, 43], [DASH, DASH, 53, 43];
      && Interpolation(sql, [Int(-5)]) == Ok(out)
      && Lex(out) == [Line([53, 43], false)]
  {
    hide Lex, FormatTokens, FormatValue, Subst;
    var ts, args := [Code(DASH), Hole, Code(43)], [Int(-5)];
    FlattenThree(Code(DASH), Hole, Code(43));
    assert ts[1..] == [Hole, Code(43)] && [Hole, Code(43)][1..] == [Code(43)];
    assert Separable([Code(43)]) && Separable([Hole, Code(43)]);
    LexInverse(ts);
    OneHole(Code(43), args);
    assert Text(Code(DASH)) + Text(Hole) + Text(Code(43)) == [DASH, HOLE, 43];
    FlattenConcat([Code(DASH)], [Code(DASH), Code(53), Code(43)]);
    OneToken(Code(DASH));
    FlattenThree(Code(DASH), Code(53), Code(43));
    assert [Code(DASH)] + [Code(DASH), Code(53), Code(43)] == [Code(DASH), Code(DASH), Code(53), Code(43)];
    var out: Bytes := [DASH, DASH, 53, 43];
    assert Text(Code(DASH)) + (Text(Code(DASH)) + Text(Code(53)) + Text(Code(43))) == out;
    assert Flatten(Subst(ts, args)) == out;
    assert forall v | v in args :: v == Int(-5);
    CommentedOut();
  }

  /**
    Nor need the result be free of placeholders then: in `-?'\n?'`, a bound -5 comments out
    the opening quote, and the `?` that was quoted comes alive at offset 5.
   */
  lemma PlaceholderComesAlive()
    ensures var sql, out := [DASH, HOLE, QUOTE, NEWLINE, HOLE, QUOTE], [DASH, DASH, 53, QUOTE, NEWLINE, HOLE, QUOTE];
      && Interpolation(sql, [Int(-5)]) == Ok(out)
      && Placeholders(sql) == [1] && Placeholders(out) == [5]
      && Interpolation(out, []) == WrongCount(1, 0)
  {
    hide Lex, FormatTokens, FormatValue, Subst, Placeholders, Doubled;
    var sql: Bytes := [DASH, HOLE, QUOTE, NEWLINE, HOLE, QUOTE];
    var out: Bytes := [DASH, DASH, 53, QUOTE, NEWLINE, HOLE, QUOTE];
    var quoted, args := Literal([NEWLINE, HOLE], true), [Int(-5)];
    var ts := [Code(DASH), Hole, quoted];
    QuoteFreeDoubled([NEWLINE, HOLE]);
    FlattenThree(ts[0], ts[1], ts[2]);
    ThreeTokens(ts[0], ts[1], ts[2]);
    LexInverse(ts);
    assert Text(Code(DASH)) + Text(Hole) + Text(quoted) == sql;
    PlaceholdersAreHoles(sql);
    OneHole(quoted, args);
    FlattenConcat([Code(DASH)], [Code(DASH), Code(53), quoted]);
    OneToken(Code(DASH));
    FlattenThree(Code(DASH), Code(53), quoted);
    assert [Code(DASH)] + [Code(DASH), Code(53), quoted] == [Code(DASH), Code(DASH), Code(53), quoted];
    assert Text(Code(DASH)) + (Text(Code(DASH)) + Text(Code(53)) + Text(quoted)) == out;
    assert forall v | v in args :: v == Int(-5);
    assert Flatten(Subst(ts, args)) == out;
    AliveTokens(out);
  }

  lemma AliveTokens(out: Bytes)
    requires out == [DASH, DASH, 53, QUOTE, NEWLINE, HOLE, QUOTE]
    ensures Placeholders(out) == [5] && CountHoles(Lex(out)) == 1
  {
    hide Lex, Placeholders;
    var ts := [Line([53, QUOTE], true), Hole, Literal([], false)];
    assert LineLen([53, QUOTE]) == 2 by { assert [53 as byte, QUOTE][1..] == [QUOTE]; }
    FlattenThree(ts[0], ts[1], ts[2]);
    ThreeTokens(ts[0], ts[1], ts[2]);
    assert Text(ts[0]) + Text(ts[1]) + Text(ts[2]) == out;
    LexInverse(ts);
    PlaceholdersAreHoles(out);
  }

  /** Three tokens with at most a hole in the middle. */
  lemma ThreeTokens(a: Token, b: Token, c: Token)
    requires b.Hole? && !a.Hole? && !c.Hole?
    ensures Separable([a, b, c]) <==> Apart(a, b) && Apart(b, c)
    ensures HolesOf(0, [a, b, c]) == [|Text(a)|] && CountHoles([a, b, c]) == 1
  {
    hide Apart, Text;
    var ts := [a, b, c];
    assert ts[1..] == [b, c] && [b, c][1..] == [c] && [c][1..] == [];
    assert CountHoles([c]) == 0 && CountHoles([b, c]) == 1;
    assert Separable([c]) && (Separable([b, c]) <==> Apart(b, c));
    assert HolesOf(|Text(a)| + |Text(b)|, [c]) == [];
    assert HolesOf(|Text(a)|, [b, c]) == [|Text(a)|];
  }

  lemma {:induction false} DoubledConcat(a: Bytes, b: Bytes)
    requires Doubled(a) && Doubled(b)
    ensures Doubled(a + b)
  {
    if a == [] {
      assert a + b == b;
    } else if a[0] != QUOTE {
      assert (a + b)[1..] == a[1..] + b;
      DoubledConcat(a[1..], b);
    } else {
      assert (a + b)[2..] == a[2..] + b;
      DoubledConcat(a[2..], b);
    }
  }

  /**
    Without the condition on quotes: any string bound directly after any quoted text becomes
    one quoted text with it, and the two quotes between them read as one escaped quote.
   */
  lemma StringsFuse(raw: Bytes, s: Bytes)
    requires Doubled(raw)
    ensures var sql := [QUOTE] + raw + [QUOTE, HOLE];
      var joined := raw + [QUOTE, QUOTE] + EscapeString(s);
      && Interpolation(sql, [Str(s)]) == Ok([QUOTE] + joined + [QUOTE])
      && Lex([QUOTE] + joined + [QUOTE]) == [Literal(joined, true)]
  {
    hide Lex, EscapeString, Doubled, Flatten;
    var ts, args, e := [Literal(raw, true), Hole], [Str(s)], EscapeString(s);
    var joined := raw + [QUOTE, QUOTE] + e;
    EscapeReversible(s);
    TwoQuotes();
    DoubledConcat(raw, [QUOTE, QUOTE]);
    DoubledConcat(raw + [QUOTE, QUOTE], e);
    FlattenTwo(ts[0], ts[1]);
    assert Text(ts[0]) + Text(ts[1]) == [QUOTE] + raw + [QUOTE, HOLE];
    assert Separable(ts);
    LexInverse(ts);
    assert ts[1..] == [Hole] && [Hole][1..] == [];
    assert CountHoles([Hole]) == 1 && CountHoles(ts) == 1;
    assert Subst([Hole], args) == FormatTokens(args[0]) + [];
    assert Subst(ts, args) == [Literal(raw, true), Literal(e, true)];
    FlattenTwo(Literal(raw, true), Literal(e, true));
    assert Text(Literal(raw, true)) + Text(Literal(e, true)) == [QUOTE] + joined + [QUOTE];
    LiteralSolid(joined);
    assert [QUOTE] + joined + [QUOTE] == Flatten([Literal(joined, true)]);
    LexInverse([Literal(joined, true)]);
    assert forall v | v in args :: v == Str(s);
  }

  lemma TwoQuotes()
    ensures Doubled([QUOTE, QUOTE])
  {
  }

  lemma FlattenTwo(a: Token, b: Token)
    ensures Flatten([a, b]) == Text(a) + Text(b)
  {
    hide Text;
    assert [a, b][1..] == [b];
    OneToken(b);
  }

  lemma OneHole(last: Token, args: seq<Value>)
    requires args == [Int(-5)] && !last.Hole?
    ensures Matches([Code(DASH), Hole, last], args)
    ensures CountHoles([Code(DASH), Hole, last]) == 1
    ensures Subst([Code(DASH), Hole, last], args) == [Code(DASH), Code(DASH), Code(53), last]
  {
    hide FormatTokens;
    var ts := [Code(DASH), Hole, last];
    assert ts[1..] == [Hole, last] && ts[1..][1..] == [last] && ts[1..][1..][1..] == [];
    assert [Hole, last][1..] == [last] && [last][1..] == [];
    assert CountHoles([last]) == 0 && CountHoles([Hole, last]) == 1 + CountHoles([last]);
    MinusFive();
    assert args[1..] == [] && Matches([last], []);
    SubstNothing([last], []);
    assert Subst([Hole, last], args) == FormatTokens(args[0]) + Subst([last], []);
    assert [Code(DASH), Code(53)] + [last] == [Code(DASH), Code(53), last];
  }

  lemma CommentedOut()
    ensures Lex([DASH, DASH, 53, 43]) == [Line([53, 43], false)]
  {
    hide Lex;
    var comment := [Line([53, 43], false)];
    OneToken(comment[0]);
    assert LineLen([53, 43]) == 2 by { assert [53 as byte, 43][1..] == [43]; }
    LexInverse(comment);
    assert Text(comment[0]) == [DASH, DASH, 53, 43];
  }

  lemma FlattenThree(a: Token, b: Token, c: Token)
    ensures Flatten([a, b, c]) == Text(a) + Text(b) + Text(c)
  {
    hide Text;
    assert [a, b, c][1..] == [b, c] && [b, c][1..] == [c];
    assert Flatten([b, c]) == Text(b) + Flatten([c]);
    OneToken(c);
    assert Text(a) + (Text(b) + Text(c)) == Text(a) + Text(b) + Text(c);
  }

  lemma MinusFive()
    ensures FormatTokens(Int(-5)) == [Code(DASH), Code(53)]
  {
    assert Digits(5) == [53];
    assert [DASH] + [53 as byte] == [DASH, 53];
    assert [DASH, 53 as byte][1..] == [53];
  }
}
