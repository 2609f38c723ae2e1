/**
  types.go: what a caller of InterpolateArgs can check beforehand. The conditions of Lexical
  on the written pieces are put in terms of the bytes next to each placeholder and the kind
  of the value bound there, and every copied byte is followed to its new place.
 */
module Adjacency {
  import opened Wire
  import opened Values
  import opened SqlLexer
  import opened Scanner
  import opened Literals
  import opened Interpolate
  import opened Lexical

  // ----- literals, by their first and last bytes

  /** A negative number, or a negative zero. */
  predicate Negative(v: Value)
    requires GoodValue(v)
  {
    match v
    case Int(i) => i < 0
    case Float(f) => f.text[0] == DASH
    case _ => false
  }

  predicate EndsQuoted(v: Value) { v.Str? || v.Blob? || v.Timestamp? }

  lemma LiteralEnds(v: Value)
    requires GoodValue(v) && Supported(v)
    ensures var lit := FormatValue(v);
      && lit != []
      && (lit[0] == DASH <==> Negative(v)) && (lit[0] == QUOTE <==> v.Str?)
      && lit[|lit| - 1] !in {DASH, SLASH, STAR} && (lit[|lit| - 1] == QUOTE <==> EndsQuoted(v))
  {
    hide EscapeString, Hex, TimeText, Digits;
    if v.Int? {
      DigitEnds(Digits(if v.i < 0 then -v.i else v.i));
    } else if v.Float? {
      PlainEnds(v.f.text);
    } else {
      assert NULL_TEXT[0] == 'N' as byte && NULL_TEXT[3] == 'L' as byte && DATETIME_TEXT[0] == 'D' as byte;
    }
  }

  lemma DigitEnds(s: Bytes)
    requires s != [] && forall c | c in s :: IsDigit(c)
    ensures IsDigit(s[0]) && IsDigit(s[|s| - 1])
  {
    assert s[0] in s && s[|s| - 1] in s;
  }

  lemma {:induction false} PlainEnds(s: Bytes)
    requires Plain(s)
    ensures s[0] != QUOTE && s[|s| - 1] !in {DASH, SLASH, STAR, QUOTE}
  {
    if |s| > 1 {
      PlainEnds(s[1..]);
    }
  }

  // ----- the condition at each placeholder

  /** The literal of value i and what stands next to it, no further back than `from`, meet in c. */
  ghost predicate MeetsAt(from: nat, sql: Bytes, ps: seq<nat>, args: seq<Value>, i: nat, c: byte)
    requires |ps| == |args| && i < |ps| && ps[i] < |sql| && Printable(args)
  {
    var p, lit := ps[i], FormatValue(args[i]);
    || (p > from && Meet([sql[p - 1]], lit, c))
    || (p + 1 < |sql| && Meet(lit, [sql[p + 1]], c))
    || (i + 1 < |ps| && ps[i + 1] == p + 1 && Meet(lit, FormatValue(args[i + 1]), c))
  }

  ghost predicate NoneAt(from: nat, sql: Bytes, ps: seq<nat>, args: seq<Value>, c: byte)
    requires |ps| == |args| && InOrder(from, ps, |sql|) && Printable(args)
    decreases |ps|
  {
    ps == [] || (!MeetsAt(from, sql, ps, args, 0, c) && NoneAt(ps[0] + 1, sql, ps[1..], args[1..], c))
  }

  lemma {:induction false} OrderedAt(from: nat, ps: seq<nat>, limit: nat, i: nat)
    requires InOrder(from, ps, limit) && i < |ps|
    ensures from <= ps[i] < limit && (i > 0 ==> ps[0] < ps[i])
    decreases i
  {
    if i > 0 {
      OrderedAt(ps[0] + 1, ps[1..], limit, i - 1);
    }
  }

  lemma MeetsAtTail(from: nat, sql: Bytes, ps: seq<nat>, args: seq<Value>, i: nat, c: byte)
    requires |ps| == |args| && 0 < i < |ps| && InOrder(from, ps, |sql|) && Printable(args)
    requires sql[ps[0]] != c
    ensures ps[i] < |sql| && ps[1..][i - 1] < |sql|
    ensures MeetsAt(from, sql, ps, args, i, c) <==> MeetsAt(ps[0] + 1, sql, ps[1..], args[1..], i - 1, c)
  {
    hide FormatValue, GoodValue, Supported, InOrder;
    OrderedAt(from, ps, |sql|, 0);
    OrderedAt(from, ps, |sql|, i);
  }

  /** Positions of bytes other than c. */
  predicate Elsewhere(sql: Bytes, ps: seq<nat>, c: byte) {
    forall i | 0 <= i < |ps| :: ps[i] < |sql| && sql[ps[i]] != c
  }

  ghost predicate NowhereAt(from: nat, sql: Bytes, ps: seq<nat>, args: seq<Value>, c: byte)
    requires |ps| == |args| && Elsewhere(sql, ps, c) && Printable(args)
  {
    forall i | 0 <= i < |ps| :: !MeetsAt(from, sql, ps, args, i, c)
  }

  lemma {:induction false} NoneAtEach(from: nat, sql: Bytes, ps: seq<nat>, args: seq<Value>, c: byte)
    requires |ps| == |args| && InOrder(from, ps, |sql|) && Printable(args) && Elsewhere(sql, ps, c)
    ensures NoneAt(from, sql, ps, args, c) <==> NowhereAt(from, sql, ps, args, c)
    decreases |ps|
  {
    hide MeetsAt, GoodValue, Supported;
    if ps != [] {
      var first, qs, more := ps[0] + 1, ps[1..], args[1..];
      NoneAtEach(first, sql, qs, more, c);
      forall i | 0 < i < |ps|
        ensures MeetsAt(from, sql, ps, args, i, c) <==> MeetsAt(first, sql, qs, more, i - 1, c)
      {
        MeetsAtTail(from, sql, ps, args, i, c);
      }
      if NowhereAt(from, sql, ps, args, c) {
        forall j | 0 <= j < |qs| ensures !MeetsAt(first, sql, qs, more, j, c) {
          assert !MeetsAt(from, sql, ps, args, j + 1, c);
        }
      }
    }
  }

  // ----- from pieces to placeholders

  lemma TokensDoNotMeet(a: Token, b: Token, c: byte)
    requires WellFormed(a) && WellFormed(b) && Apart(a, b) && !a.Hole? && !b.Hole? && (c == DASH || c == QUOTE)
    ensures !Meet(Text(a), Text(b), c)
  {
    hide WellFormed, Text;
    assert IsClosed(a) && !(a == Code(SLASH) && Text(b)[0] == STAR);
    EdgeApart(a, b);
  }

  /** A placeholder in front is the first one; a token in front comes before all of them. */
  lemma HolesStart(base: nat, ts: seq<Token>)
    requires ts != []
    ensures ts[0].Hole? ==> HolesOf(base, ts) != [] && HolesOf(base, ts)[0] == base
    ensures !ts[0].Hole? && HolesOf(base, ts) != [] ==> HolesOf(base, ts)[0] > base
  {
    hide Text;
    if !ts[0].Hole? {
      var n := base + |Text(ts[0])|;
      HolesInOrder(n, n, ts[1..], n + |Flatten(ts[1..])|);
    }
  }

  lemma FirstByte(sql: Bytes, at: nat, ts: seq<Token>)
    requires at <= |sql| && sql[at..] == Flatten(ts) && ts != []
    ensures at < |sql| && sql[at] == Text(ts[0])[0]
  {
    hide Text;
    FlattenEnds(ts);
    assert sql[at..][0] == sql[at];
  }

  lemma HoleEdge(sql: Bytes, base: nat, ts: seq<Token>, args: seq<Value>, c: byte)
    requires base < |sql| && ts != [] && ts[0].Hole? && Matches(ts, args)
    requires sql[base + 1..] == Flatten(ts[1..]) && (c == DASH || c == QUOTE)
    requires |HolesOf(base, ts)| == |args| && HolesOf(base, ts) == [base] + HolesOf(base + 1, ts[1..])
    ensures MeetsAt(base, sql, HolesOf(base, ts), args, 0, c)
       <==> |ts| > 1 && Meet(Pieces(ts, args)[0], Pieces(ts, args)[1], c)
  {
    hide FormatValue, GoodValue, Supported, Text, Pieces, HolesOf, Subst, Group, Flatten;
    var ps := HolesOf(base, ts);
    SubstIsGroups(ts, args);
    if |ts| > 1 {
      SubstIsGroups(ts[1..], args[1..]);
      HolesStart(base + 1, ts[1..]);
      FirstByte(sql, base + 1, ts[1..]);
      if ts[1].Hole? {
        HoleText();
      }
    } else {
      NoTokens(base + 1);
    }
  }

  lemma NoTokens(base: nat)
    ensures HolesOf(base, []) == [] && Flatten([]) == []
  {
  }

  /** Looking further back than `next` matters only to a first placeholder at `next`. */
  lemma FurtherBack(sql: Bytes, base: nat, next: nat, ps: seq<nat>, args: seq<Value>, c: byte)
    requires base < next <= |sql| && |ps| == |args| && Printable(args)
    requires InOrder(base, ps, |sql|) && InOrder(next, ps, |sql|)
    ensures NoneAt(base, sql, ps, args, c) <==>
              NoneAt(next, sql, ps, args, c)
              && !(ps != [] && ps[0] == next && Meet([sql[next - 1]], FormatValue(args[0]), c))
  {
    hide FormatValue, GoodValue, Supported, Meet;
  }

  lemma OtherEdge(sql: Bytes, base: nat, next: nat, ts: seq<Token>, ps: seq<nat>, args: seq<Value>, c: byte)
    requires ts != [] && !ts[0].Hole? && Matches(ts, args) && AllWellFormed(ts) && Separable(ts)
    requires c == DASH || c == QUOTE
    requires next == base + |Text(ts[0])| <= |sql| && sql[base..next] == Text(ts[0])
    requires ps == HolesOf(next, ts[1..]) && |ps| == |args| && InOrder(base, ps, |sql|) && InOrder(next, ps, |sql|)
    ensures NoneAt(base, sql, ps, args, c) <==>
              NoneAt(next, sql, ps, args, c) && !(|ts| > 1 && Meet(Pieces(ts, args)[0], Pieces(ts, args)[1], c))
  {
    hide FormatValue, GoodValue, Supported, Text, Pieces, HolesOf, WellFormed, Apart, NoneAt, InOrder, Subst, Group,
      Flatten;
    var t := ts[0];
    assert Text(t)[|Text(t)| - 1] == sql[next - 1];
    FurtherBack(sql, base, next, ps, args, c);
    SubstIsGroups(ts, args);
    if |ts| > 1 {
      SubstIsGroups(ts[1..], args);
      HolesStart(next, ts[1..]);
      if !ts[1].Hole? {
        TokensDoNotMeet(t, ts[1], c);
      }
    } else {
      NoTokens(next);
    }
  }

  lemma NoneAtFirst(sql: Bytes, p: nat, ps: seq<nat>, args: seq<Value>, c: byte)
    requires |args| == |ps| + 1 && Printable(args) && p < |sql| && InOrder(p + 1, ps, |sql|)
    ensures InOrder(p, [p] + ps, |sql|)
    ensures NoneAt(p, sql, [p] + ps, args, c) <==>
              !MeetsAt(p, sql, [p] + ps, args, 0, c) && NoneAt(p + 1, sql, ps, args[1..], c)
  {
    hide MeetsAt, GoodValue, Supported;
    assert ([p] + ps)[1..] == ps;
  }

  lemma {:induction false} MeetAtHoles(sql: Bytes, base: nat, ts: seq<Token>, args: seq<Value>, c: byte)
    requires base <= |sql| && sql[base..] == Flatten(ts) && (c == DASH || c == QUOTE)
    requires Matches(ts, args) && AllWellFormed(ts) && Separable(ts)
    ensures |HolesOf(base, ts)| == |args| && InOrder(base, HolesOf(base, ts), |sql|)
    ensures NoneMeet(Pieces(ts, args), c) <==> NoneAt(base, sql, HolesOf(base, ts), args, c)
    decreases |ts|
  {
    hide Text, GoodValue, Supported, FormatValue, WellFormed, Meet, MeetsAt, InOrder, Pieces, NoneMeet, NoneAt, HolesOf,
      Flatten, Subst, Group, Separable, CountHoles;
    SeparableRest(ts);
    HolesCounted(base, ts);
    HolesInOrder(base, base, ts, |sql|);
    if ts == [] {
      NoPieces(sql, base, args, c);
    } else {
      var next := base + |Text(ts[0])|;
      FirstOfAll(ts);
      SliceExtend(sql, base, base, Text(ts[0]), Flatten(ts[1..]));
      SubstIsGroups(ts, args);
      NoneMeetFirst(Pieces(ts, args)[0], Pieces(ts[1..], ArgsAfter(ts, args)), c);
      if ts[0].Hole? {
        HoleText();
        FirstHole(base, ts);
        MeetAtHoles(sql, base + 1, ts[1..], args[1..], c);
        NoneAtFirst(sql, base, HolesOf(base + 1, ts[1..]), args, c);
        HoleEdge(sql, base, ts, args, c);
      } else {
        FirstOther(base, ts);
        MeetAtHoles(sql, next, ts[1..], args, c);
        OtherEdge(sql, base, next, ts, HolesOf(next, ts[1..]), args, c);
      }
    }
  }

  lemma FirstOther(base: nat, ts: seq<Token>)
    requires ts != [] && !ts[0].Hole?
    ensures HolesOf(base, ts) == HolesOf(base + |Text(ts[0])|, ts[1..])
  {
    hide Text;
  }

  lemma FirstOfAll(ts: seq<Token>)
    ensures ts == [] ==> Flatten(ts) == []
    ensures ts != [] ==>
      Flatten(ts) == Text(ts[0]) + Flatten(ts[1..]) && AllMarks(ts) == TokenMarks(ts[0]) + AllMarks(ts[1..])
  {
  }

  lemma NoPieces(sql: Bytes, base: nat, args: seq<Value>, c: byte)
    requires Matches([], args)
    ensures args == [] && Pieces([], args) == [] && HolesOf(base, []) == [] && InOrder(base, [], |sql|)
    ensures NoneMeet([], c) && NoneAt(base, sql, [], args, c)
  {
  }

  // ----- the conditions a caller can check

  /** The byte in front of placeholder p, and the one after it. */
  predicate Before(sql: Bytes, p: nat, c: byte) { 0 < p <= |sql| && sql[p - 1] == c }
  predicate Behind(sql: Bytes, p: nat, c: byte) { p + 1 < |sql| && sql[p + 1] == c }

  /** A negative number is bound directly after a dash. */
  ghost predicate DashClash(sql: Bytes, args: seq<Value>, i: nat)
    requires |Placeholders(sql)| == |args| && i < |args| && Printable(args)
  {
    Negative(args[i]) && Before(sql, Placeholders(sql)[i], DASH)
  }

  /** A string is bound directly after a quote, or a literal that ends in a quote in front of one. */
  ghost predicate QuoteClash(sql: Bytes, args: seq<Value>, i: nat)
    requires |Placeholders(sql)| == |args| && i < |args| && Printable(args)
  {
    var ps := Placeholders(sql);
    || (args[i].Str? && Before(sql, ps[i], QUOTE))
    || (EndsQuoted(args[i]) && Behind(sql, ps[i], QUOTE))
    || (EndsQuoted(args[i]) && i + 1 < |args| && ps[i + 1] == ps[i] + 1 && args[i + 1].Str?)
  }

  lemma ClashAt(sql: Bytes, args: seq<Value>, i: nat)
    requires |Placeholders(sql)| == |args| && i < |args| && Printable(args) && Placeholders(sql)[i] < |sql|
    ensures DashClash(sql, args, i) <==> MeetsAt(0, sql, Placeholders(sql), args, i, DASH)
    ensures QuoteClash(sql, args, i) <==> MeetsAt(0, sql, Placeholders(sql), args, i, QUOTE)
  {
    hide Placeholders, FormatValue, Negative, GoodValue, Supported, EndsQuoted;
    LiteralEnds(args[i]);
    if i + 1 < |args| {
      LiteralEnds(args[i + 1]);
    }
  }

  /**
    For every text and all values: the pieces meet in a dash exactly where a negative number
    is bound directly after a dash, and in a quote exactly where a bound string or a literal
    that ends in a quote stands next to one.
   */
  lemma ClashesExactly(sql: Bytes, args: seq<Value>)
    requires Matches(Lex(sql), args)
    ensures |Placeholders(sql)| == |args|
    ensures NoneMeet(Pieces(Lex(sql), args), DASH) <==> forall i | 0 <= i < |args| :: !DashClash(sql, args, i)
    ensures NothingFuses(Pieces(Lex(sql), args)) <==>
              forall i | 0 <= i < |args| :: !DashClash(sql, args, i) && !QuoteClash(sql, args, i)
  {
    hide Lex, Placeholders, Pieces, NoneMeet, MeetsAt, DashClash, QuoteClash, GoodValue,
      Supported, NoneAt, HolesOf, Marks;
    var ts, ps := Lex(sql), Placeholders(sql);
    LexGood(sql);
    LexLosesNothing(sql);
    PlaceholdersAreHoles(sql);
    PlaceholdersExact(sql);
    assert sql[0..] == sql;
    MeetAtHoles(sql, 0, ts, args, DASH);
    MeetAtHoles(sql, 0, ts, args, QUOTE);
    forall i | 0 <= i < |ps| ensures ps[i] < |sql| && sql[ps[i]] == HOLE {
      assert ps[i] in ps;
    }
    NoneAtEach(0, sql, ps, args, DASH);
    NoneAtEach(0, sql, ps, args, QUOTE);
    forall i | 0 <= i < |args|
      ensures DashClash(sql, args, i) <==> MeetsAt(0, sql, ps, args, i, DASH)
      ensures QuoteClash(sql, args, i) <==> MeetsAt(0, sql, ps, args, i, QUOTE)
    {
      ClashAt(sql, args, i);
    }
  }

  // ----- each copied byte

  /** How far the literals in front of position p move it. */
  ghost function Shift(ps: seq<nat>, args: seq<Value>, p: nat): int
    requires |ps| == |args| && Printable(args)
  {
    if ps == [] || ps[0] >= p then 0 else |FormatValue(args[0])| - 1 + Shift(ps[1..], args[1..], p)
  }

  lemma NoShift(ps: seq<nat>, args: seq<Value>, p: nat, limit: nat)
    requires |ps| == |args| && Printable(args) && InOrder(p, ps, limit)
    ensures Shift(ps, args, p) == 0
  {
  }

  lemma LaterStart(from: nat, next: nat, ps: seq<nat>, limit: nat)
    requires from <= next && InOrder(next, ps, limit)
    ensures InOrder(from, ps, limit)
  {
  }

  /** Byte i of text x, with its mark, is byte q of text y. */
  ghost predicate Carried(x: Bytes, mx: seq<State>, i: int, y: Bytes, my: seq<State>, q: int) {
    && |mx| == |x| && |my| == |y| && 0 <= i < |x| && 0 <= q < |y|
    && y[q] == x[i] && my[q] == mx[i]
  }

  lemma CarriedBehind(x: Bytes, mx: seq<State>, i: int, y: Bytes, my: seq<State>, q: int,
                      a: Bytes, ma: seq<State>, b: Bytes, mb: seq<State>)
    requires Carried(x, mx, i, y, my, q) && |a| == |ma| && |b| == |mb|
    ensures Carried(a + x, ma + mx, |a| + i, b + y, mb + my, |b| + q)
  {
  }

  lemma CarriedInFront(t: Bytes, mt: seq<State>, i: nat, x: Bytes, mx: seq<State>, y: Bytes, my: seq<State>)
    requires i < |t| == |mt| && |mx| == |x| && |my| == |y|
    ensures Carried(t + x, mt + mx, i, t + y, mt + my, i)
  {
  }

  lemma SubstParts(ts: seq<Token>, args: seq<Value>) returns (marks: seq<State>)
    requires ts != [] && Matches(ts, args) && AllWellFormed(ts) && Separable(ts)
    ensures var first := if ts[0].Hole? then FormatValue(args[0]) else Text(ts[0]);
      var more := ArgsAfter(ts, args);
      && Matches(ts[1..], more) && |marks| == |first|
      && Flatten(Subst(ts, args)) == first + Flatten(Subst(ts[1..], more))
      && AllMarks(Subst(ts, args)) == marks + AllMarks(Subst(ts[1..], more))
      && (!ts[0].Hole? ==> marks == TokenMarks(ts[0]))
  {
    hide FormatTokens, FormatValue, GoodValue, Supported, Text, TokenMarks, Flatten, WellFormed, AllMarks, Subst;
    marks := AllMarks(Group(ts, args));
    SubstIsGroups(ts, args);
    MarksOfConcat(Group(ts, args), Subst(ts[1..], ArgsAfter(ts, args)));
    MarksLength(Group(ts, args));
    if ts[0].Hole? {
      SubstHole(ts, args);
      LiteralLexes(args[0]);
    } else {
      SubstOther(ts, args);
      OneMarks(ts[0]);
    }
  }

  lemma {:induction false} MarksOfConcat(a: seq<Token>, b: seq<Token>)
    ensures AllMarks(a + b) == AllMarks(a) + AllMarks(b)
  {
    hide TokenMarks;
    if a == [] {
      assert a + b == b;
    } else {
      assert (a + b)[1..] == a[1..] + b;
      MarksOfConcat(a[1..], b);
    }
  }

  lemma {:induction false} MarksLength(ts: seq<Token>)
    ensures |AllMarks(ts)| == |Flatten(ts)|
  {
    if ts != [] {
      MarksLength(ts[1..]);
    }
  }

  lemma OneMarks(t: Token)
    ensures AllMarks([t]) == TokenMarks(t)
  {
    assert [t][1..] == [];
  }

  /** Byte p, counted from `base`, is found behind the literals written in front of it, with the mark it had. */
  lemma {:induction false} ByteMoves(base: nat, ts: seq<Token>, args: seq<Value>, p: nat)
    requires Matches(ts, args) && AllWellFormed(ts) && Separable(ts)
    requires base <= p < base + |Flatten(ts)| && p !in HolesOf(base, ts) && |HolesOf(base, ts)| == |args|
    ensures Carried(Flatten(ts), AllMarks(ts), p - base, Flatten(Subst(ts, args)), AllMarks(Subst(ts, args)),
                    p - base + Shift(HolesOf(base, ts), args, p))
    decreases |ts|
  {
    hide FormatValue, GoodValue, Supported, Text, TokenMarks, WellFormed, Subst, HolesOf, Carried, Shift,
      Flatten, AllMarks, InOrder;
    FirstOfAll(ts);
    var marks := SubstParts(ts, args);
    var n, rest, more := |Text(ts[0])|, ts[1..], ArgsAfter(ts, args);
    var out := Subst(rest, more);
    MarksLength(rest);
    MarksLength(out);
    HolesCounted(base + n, rest);
    HolesInOrder(base + n, base + n, rest, base + n + |Flatten(rest)|);
    if ts[0].Hole? {
      HoleText();
      FirstHole(base, ts);
      ByteMoves(base + 1, rest, more, p);
      ShiftOne(base, HolesOf(base + 1, rest), args, p);
      CarriedBehind(Flatten(rest), AllMarks(rest), p - base - 1, Flatten(out), AllMarks(out),
                    p - base - 1 + Shift(HolesOf(base + 1, rest), more, p),
                    Text(ts[0]), TokenMarks(ts[0]), FormatValue(args[0]), marks);
    } else {
      FirstOther(base, ts);
      if p < base + n {
        LaterStart(p, base + n, HolesOf(base, ts), base + n + |Flatten(rest)|);
        NoShift(HolesOf(base, ts), args, p, base + n + |Flatten(rest)|);
        CarriedInFront(Text(ts[0]), marks, p - base, Flatten(rest), AllMarks(rest), Flatten(out), AllMarks(out));
      } else {
        ByteMoves(base + n, rest, more, p);
        CarriedBehind(Flatten(rest), AllMarks(rest), p - base - n, Flatten(out), AllMarks(out),
                      p - base - n + Shift(HolesOf(base + n, rest), more, p), Text(ts[0]), marks, Text(ts[0]), marks);
      }
    }
  }

  lemma ShiftOne(first: nat, ps: seq<nat>, args: seq<Value>, p: nat)
    requires |args| == |ps| + 1 && Printable(args) && first < p
    ensures Shift([first] + ps, args, p) == |FormatValue(args[0])| - 1 + Shift(ps, args[1..], p)
  {
    hide FormatValue, GoodValue, Supported;
    assert ([first] + ps)[1..] == ps;
  }

  /**
    For every text and all values such that no negative number is bound directly after a dash:
    each byte that is not a placeholder is copied to its place behind the literals in front of
    it, and the automaton is in the same state in front of it as in the original.
   */
  lemma CopiedBytesKeepStates(sql: Bytes, args: seq<Value>, p: nat)
    requires Matches(Lex(sql), args) && |Placeholders(sql)| == |args|
    requires forall i | 0 <= i < |args| :: !DashClash(sql, args, i)
    requires p < |sql| && p !in Placeholders(sql)
    ensures var out := Flatten(Subst(Lex(sql), args));
      var q := p + Shift(Placeholders(sql), args, p);
      0 <= q < |out| && out[q] == sql[p] && Marks(Normal, out)[q] == Marks(Normal, sql)[p]
  {
    hide Lex, Subst, Placeholders, Pieces, NoneMeet, DashClash, GoodValue, Supported, Marks, AllMarks, Flatten,
      HolesOf, Shift;
    LexGood(sql);
    LexLosesNothing(sql);
    PlaceholdersAreHoles(sql);
    ClashesExactly(sql, args);
    InterpolationKeepsStates(sql, args);
    ByteMoves(0, Lex(sql), args, p);
  }

  // ----- each copied byte, as the loop looks at it

  /** The bytes of `part` are in s, from `at` on. */
  ghost predicate PlacedAt(s: Bytes, at: int, part: Bytes) {
    0 <= at && at + |part| <= |s| && s[at..at + |part|] == part
  }

  lemma PlacedBehind(a: Bytes, b: Bytes, at: int, part: Bytes)
    requires PlacedAt(b, at, part)
    ensures PlacedAt(a + b, |a| + at, part)
  {
  }

  lemma PlacedFirst(part: Bytes, b: Bytes)
    ensures PlacedAt(part + b, 0, part)
  {
  }

  /** Literal i is found in the place of its placeholder, behind the literals in front of it. */
  lemma {:induction false} LiteralPlaced(base: nat, ts: seq<Token>, args: seq<Value>, i: nat)
    requires Matches(ts, args) && AllWellFormed(ts) && Separable(ts) && i < |args| == |HolesOf(base, ts)|
    ensures var p := HolesOf(base, ts)[i];
      PlacedAt(Flatten(Subst(ts, args)), p - base + Shift(HolesOf(base, ts), args, p), FormatValue(args[i]))
    decreases |ts|
  {
    hide FormatValue, GoodValue, Supported, Text, TokenMarks, WellFormed, Subst, HolesOf, Shift, Flatten, AllMarks,
      InOrder, Separable, PlacedAt;
    NoTokens(base);
    SeparableRest(ts);
    var _ := SubstParts(ts, args);
    var n, rest, more := |Text(ts[0])|, ts[1..], ArgsAfter(ts, args);
    var out, ps, qs := Flatten(Subst(rest, more)), HolesOf(base, ts), HolesOf(base + n, rest);
    var p := ps[i];
    HolesCounted(base + n, rest);
    if ts[0].Hole? {
      HoleText();
      FirstHole(base, ts);
      if i == 0 {
        AtStart(ps, args);
        PlacedFirst(FormatValue(args[0]), out);
      } else {
        assert p == qs[i - 1];
        HolesInOrder(base + 1, base + 1, rest, base + 1 + |Flatten(rest)|);
        OrderedAt(base + 1, qs, base + 1 + |Flatten(rest)|, i - 1);
        ShiftOne(base, qs, args, p);
        LiteralPlaced(base + 1, rest, more, i - 1);
        PlacedBehind(FormatValue(args[0]), out, p - base - 1 + Shift(qs, more, p), FormatValue(args[i]));
      }
    } else {
      FirstOther(base, ts);
      LiteralPlaced(base + n, rest, more, i);
      PlacedBehind(Text(ts[0]), out, p - base - n + Shift(ps, args, p), FormatValue(args[i]));
    }
  }

  /** The first placeholder is not moved. */
  lemma AtStart(ps: seq<nat>, args: seq<Value>)
    requires |ps| == |args| > 0 && Printable(args)
    ensures Shift(ps, args, ps[0]) == 0
  {
  }

  /** From a byte to the next one, the shift grows only over a placeholder, by its literal. */
  lemma {:induction false} ShiftNext(from: nat, ps: seq<nat>, args: seq<Value>, p: nat, limit: nat)
    requires |ps| == |args| && Printable(args) && InOrder(from, ps, limit)
    ensures p !in ps ==> Shift(ps, args, p + 1) == Shift(ps, args, p)
    ensures forall i | 0 <= i < |ps| && ps[i] == p ::
              Shift(ps, args, p + 1) == Shift(ps, args, p) + |FormatValue(args[i])| - 1
    decreases |ps|
  {
    hide FormatValue, GoodValue, Supported;
    if ps != [] {
      ShiftNext(ps[0] + 1, ps[1..], args[1..], p, limit);
      if ps[0] == p {
        NoShift(ps[1..], args[1..], p + 1, limit);
      }
      forall i | 0 < i < |ps| ensures ps[i] > ps[0] {
        OrderedAt(from, ps, limit, i);
      }
    }
  }

  /** The byte in front of a copied byte: copied too, or the last one of a literal. */
  lemma InFrontOf(sql: Bytes, args: seq<Value>, p: nat)
    requires Matches(Lex(sql), args) && |Placeholders(sql)| == |args|
    requires forall i | 0 <= i < |args| :: !DashClash(sql, args, i)
    requires 0 < p < |sql| && p !in Placeholders(sql)
    ensures var out := Flatten(Subst(Lex(sql), args));
      var ps := Placeholders(sql);
      var q := p + Shift(ps, args, p);
      && 0 < q < |out|
      && (if p - 1 in ps then sql[p - 1] == HOLE && out[q - 1] !in {DASH, SLASH, STAR}
          else q - 1 == p - 1 + Shift(ps, args, p - 1) && out[q - 1] == sql[p - 1])
  {
    hide Lex, Subst, Placeholders, DashClash, Flatten, HolesOf, Shift, Run, Marks, FormatValue, InOrder, GoodValue,
      Supported;
    var ps, ts := Placeholders(sql), Lex(sql);
    LexGood(sql);
    LexLosesNothing(sql);
    PlaceholdersAreHoles(sql);
    HolesInOrder(0, 0, ts, |sql|);
    ShiftNext(0, ps, args, p - 1, |sql|);
    CopiedBytesKeepStates(sql, args, p);
    if p - 1 in ps {
      PlaceholdersExact(sql);
      var i :| 0 <= i < |ps| && ps[i] == p - 1;
      LiteralPlaced(0, ts, args, i);
      LiteralEnds(args[i]);
      LastOfSlice(Flatten(Subst(ts, args)), p - 1 + Shift(ps, args, p - 1), FormatValue(args[i]));
    } else {
      CopiedBytesKeepStates(sql, args, p - 1);
    }
  }

  lemma LastOfSlice(s: Bytes, at: int, part: Bytes)
    requires part != [] && PlacedAt(s, at, part)
    ensures s[at + |part| - 1] == part[|part| - 1]
  {
    assert s[at..at + |part|][|part| - 1] == s[at + |part| - 1];
  }

  /**
    The same of the code's loop: every copied byte other than a quote is skipped in the result
    exactly if it is skipped in the original, and otherwise read there in the same state.
   */
  lemma {:induction false} CopiedBytesReadAlike(sql: Bytes, args: seq<Value>, p: nat)
    requires Matches(Lex(sql), args) && |Placeholders(sql)| == |args|
    requires forall i | 0 <= i < |args| :: !DashClash(sql, args, i)
    requires p < |sql| && p !in Placeholders(sql) && sql[p] != QUOTE
    ensures var out := Flatten(Subst(Lex(sql), args));
      var q := p + Shift(Placeholders(sql), args, p);
      0 <= q < |out| && Looks(ScanNormal, out)[q] == Looks(ScanNormal, sql)[p]
    decreases p
  {
    hide Lex, Subst, Placeholders, DashClash, Flatten, Shift, Marks, Looks, GoodValue, Supported;
    var out := Flatten(Subst(Lex(sql), args));
    var q := p + Shift(Placeholders(sql), args, p);
    CopiedBytesKeepStates(sql, args, p);
    LooksExactly(Normal, sql, p);
    LooksExactly(Normal, out, q);
    if p == 0 {
      NothingInFront(Placeholders(sql), args);
    } else {
      InFrontOf(sql, args, p);
      if p - 1 !in Placeholders(sql) && sql[p - 1] != QUOTE {
        CopiedBytesReadAlike(sql, args, p - 1);
      }
    }
  }

  lemma NothingInFront(ps: seq<nat>, args: seq<Value>)
    requires |ps| == |args| && Printable(args)
    ensures Shift(ps, args, 0) == 0
  {
  }

  /** A copied quote may be read otherwise: in `?'a'` with a bound s, the quote before a is skipped in the result. */
  lemma FusedQuoteSkipped()
    ensures var sql, out := [HOLE, QUOTE, 97, QUOTE], [QUOTE, 115, QUOTE, QUOTE, 97, QUOTE];
      && Interpolation(sql, [Str([115])]) == Ok(out)
      && Placeholders(sql) == [0] && Shift([0], [Str([115])], 1) == 2
      && Looks(ScanNormal, sql)[1] == Read(ScanNormal) && Looks(ScanNormal, out)[3] == Skipped
  {
    hide Lex, Looks, Placeholders, EscapeString, Subst, HolesOf, CountHoles;
    var ts, args := [Hole, Literal([97], true)], [Str([115])];
    var sql: Bytes, out: Bytes := [HOLE, QUOTE, 97, QUOTE], [QUOTE, 115, QUOTE, QUOTE, 97, QUOTE];
    assert [97 as byte][1..] == [];
    PlainEscape();
    FlattenTwo(ts[0], ts[1]);
    assert Text(ts[0]) + Text(ts[1]) == sql;
    assert ts[1..] == [ts[1]] && Separable(ts[1..]) && Separable(ts);
    LexInverse(ts);
    HoleFirst(ts[1], args);
    FlattenTwo(Literal([115], true), ts[1]);
    assert Text(Literal([115], true)) + Text(ts[1]) == out;
    assert Flatten(Subst(ts, args)) == out;
    assert forall v | v in args :: v == Str([115]);
    PlaceholdersAreHoles(sql);
    TwoTurns(sql, out);
  }

  lemma PlainEscape()
    ensures EscapeString([115]) == [115]
  {
    EscapeIsExpand([115]);
    assert [115 as byte][1..] == [] && Expand([]) == [];
  }

  lemma HoleFirst(last: Token, args: seq<Value>)
    requires args == [Str([115])] && !last.Hole?
    ensures Matches([Hole, last], args) && HolesOf(0, [Hole, last]) == [0] && Shift([0], args, 1) == 2
    ensures Subst([Hole, last], args) == [Literal([115], true), last]
  {
    hide EscapeString, Text;
    PlainEscape();
    HoleText();
    assert [Hole, last][1..] == [last] && [last][1..] == [] && args[1..] == [];
    NoTokens(1 + |Text(last)|);
    FirstOther(1, [last]);
    assert CountHoles([last]) == 0 && HolesOf(1, [last]) == [];
    assert Subst([last], []) == [last];
    assert [0][1..] == [] && FormatValue(args[0]) == [QUOTE, 115, QUOTE];
  }

  lemma TwoTurns(sql: Bytes, out: Bytes)
    requires sql == [HOLE, QUOTE, 97, QUOTE] && out == [QUOTE, 115, QUOTE, QUOTE, 97, QUOTE]
    ensures Looks(ScanNormal, sql)[1] == Read(ScanNormal) && Looks(ScanNormal, out)[3] == Skipped
  {
    hide Looks;
    LooksTail(ScanNormal, sql, 1);
    FirstLook(Normal, sql[1..]);
    LooksTail(ScanNormal, out, 3);
    LooksTail(ScanSingleQuote, out[1..], 2);
    LooksTail(ScanSingleQuote, out[1..][1..], 1);
  }
}
