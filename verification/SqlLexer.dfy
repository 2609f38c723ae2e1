/**
  types.go: which bytes of an SQL text are code, quoted or commented out.

  `Lex` cuts a text into tokens without losing a byte. `Marks` is an independent automaton
  that looks at one byte at a time. The scanner `FindBindPlaceholders`, which looks ahead
  and skips, is proved against both.
 */
module SqlLexer {
  import opened Wire

  const QUOTE := '\'' as byte
  const HOLE := '?' as byte
  const SLASH := '/' as byte
  const STAR := '*' as byte
  const DASH := '-' as byte
  const NEWLINE := '\n' as byte

  // ----- tokens

  /** `raw` is the text between the delimiters; `closed` is false when the text ends inside. */
  datatype Token =
    | Code(c: byte)
    | Literal(raw: Bytes, closed: bool)
    | Block(raw: Bytes, closed: bool)
    | Line(raw: Bytes, closed: bool)
    | Hole

  function Text(t: Token): (r: Bytes)
    ensures |r| > 0
  {
    match t
    case Code(c) => [c]
    case Literal(raw, closed) => [QUOTE] + raw + (if closed then [QUOTE] else [])
    case Block(raw, closed) => [SLASH, STAR] + raw + (if closed then [STAR, SLASH] else [])
    case Line(raw, closed) => [DASH, DASH] + raw + (if closed then [NEWLINE] else [])
    case Hole => [HOLE]
  }

  function Flatten(ts: seq<Token>): Bytes {
    if ts == [] then [] else Text(ts[0]) + Flatten(ts[1..])
  }

  // How far a quoted text, a block comment and a line comment reach.

  function QuoteLen(s: Bytes): (n: nat)
    ensures n <= |s|
    ensures n < |s| ==> s[n] == QUOTE
  {
    if s == [] then 0
    else if s[0] != QUOTE then 1 + QuoteLen(s[1..])
    else if |s| > 1 && s[1] == QUOTE then 2 + QuoteLen(s[2..])
    else 0
  }

  function BlockLen(s: Bytes): (n: nat)
    ensures n <= |s|
    ensures n < |s| ==> n + 2 <= |s| && s[n] == STAR && s[n + 1] == SLASH
  {
    if s == [] || (|s| >= 2 && s[0] == STAR && s[1] == SLASH) then 0 else 1 + BlockLen(s[1..])
  }

  function LineLen(s: Bytes): (n: nat)
    ensures n <= |s|
    ensures n < |s| ==> s[n] == NEWLINE
  {
    if s == [] || s[0] == NEWLINE then 0 else 1 + LineLen(s[1..])
  }

  predicate StartsBlock(s: Bytes) { |s| >= 2 && s[0] == SLASH && s[1] == STAR }
  predicate StartsLine(s: Bytes) { |s| >= 2 && s[0] == DASH && s[1] == DASH }

  function FirstToken(s: Bytes): (t: Token)
    requires s != []
    ensures |Text(t)| <= |s|
  {
    if s[0] == QUOTE then
      var n := QuoteLen(s[1..]);
      Literal(s[1..1 + n], n < |s| - 1)
    else if StartsBlock(s) then
      var n := BlockLen(s[2..]);
      Block(s[2..2 + n], n < |s| - 2)
    else if StartsLine(s) then
      var n := LineLen(s[2..]);
      Line(s[2..2 + n], n < |s| - 2)
    else if s[0] == HOLE then Hole
    else Code(s[0])
  }

  function Lex(s: Bytes): seq<Token>
    decreases |s|
  {
    if s == [] then [] else [FirstToken(s)] + Lex(s[|Text(FirstToken(s))|..])
  }

  /** FirstToken, case by case. */
  lemma FirstOf(s: Bytes)
    requires s != []
    ensures s[0] == QUOTE ==>
      FirstToken(s) == Literal(s[1..1 + QuoteLen(s[1..])], QuoteLen(s[1..]) < |s| - 1)
    ensures StartsBlock(s) ==>
      FirstToken(s) == Block(s[2..2 + BlockLen(s[2..])], BlockLen(s[2..]) < |s| - 2)
    ensures StartsLine(s) ==>
      FirstToken(s) == Line(s[2..2 + LineLen(s[2..])], LineLen(s[2..]) < |s| - 2)
    ensures s[0] != QUOTE && !StartsBlock(s) && !StartsLine(s) ==>
      FirstToken(s) == if s[0] == HOLE then Hole else Code(s[0])
  {
    hide QuoteLen, BlockLen, LineLen;
  }

  /** An opening, n bytes, and a closing that is there unless the text ends. */
  lemma Delimited(s: Bytes, open: Bytes, n: nat, close: Bytes)
    requires |open| + n + |close| <= |s| && open == s[..|open|]
    requires close == s[|open| + n..][..|close|]
    ensures var t := open + s[|open|..|open| + n] + close; t == s[..|t|]
  {
  }

  lemma QuotedText(s: Bytes, n: nat)
    requires s != [] && s[0] == QUOTE && n < |s| && (n < |s| - 1 ==> s[1..][n] == QUOTE)
    ensures var t := Text(Literal(s[1..1 + n], n < |s| - 1)); t == s[..|t|]
  {
    Delimited(s, [QUOTE], n, if n < |s| - 1 then [QUOTE] else []);
  }

  lemma BlockText(s: Bytes, n: nat)
    requires StartsBlock(s) && n <= |s| - 2
    requires n < |s| - 2 ==> n + 4 <= |s| && s[2..][n] == STAR && s[2..][n + 1] == SLASH
    ensures var t := Text(Block(s[2..2 + n], n < |s| - 2)); t == s[..|t|]
  {
    Delimited(s, [SLASH, STAR], n, if n < |s| - 2 then [STAR, SLASH] else []);
  }

  lemma LineText(s: Bytes, n: nat)
    requires StartsLine(s) && n <= |s| - 2 && (n < |s| - 2 ==> s[2..][n] == NEWLINE)
    ensures var t := Text(Line(s[2..2 + n], n < |s| - 2)); t == s[..|t|]
  {
    Delimited(s, [DASH, DASH], n, if n < |s| - 2 then [NEWLINE] else []);
  }

  lemma FirstTokenText(s: Bytes)
    requires s != []
    ensures Text(FirstToken(s)) == s[..|Text(FirstToken(s))|]
  {
    hide FirstToken, QuoteLen, BlockLen, LineLen, Text;
    FirstOf(s);
    if s[0] == QUOTE {
      QuotedText(s, QuoteLen(s[1..]));
    } else if StartsBlock(s) {
      BlockText(s, BlockLen(s[2..]));
    } else if StartsLine(s) {
      LineText(s, LineLen(s[2..]));
    } else {
      OneByte(s);
    }
  }

  lemma OneByte(s: Bytes)
    requires s != []
    ensures Text(Code(s[0])) == s[..1] && Text(Hole) == [HOLE]
  {
  }

  lemma {:induction false} LexLosesNothing(s: Bytes)
    ensures Flatten(Lex(s)) == s
    decreases |s|
  {
    hide FirstToken, Text;
    if s != [] {
      FirstTokenText(s);
      LexLosesNothing(s[|Text(FirstToken(s))|..]);
    }
  }

  // ----- which token sequences a text can have

  /** Every quote is doubled. */
  predicate Doubled(raw: Bytes) { QuoteLen(raw) == |raw| }

  predicate WellFormed(t: Token) {
    match t
    case Code(c) => c != QUOTE && c != HOLE
    case Literal(raw, _) => Doubled(raw)
    case Block(raw, _) => BlockLen(raw) == |raw|
    case Line(raw, _) => LineLen(raw) == |raw|
    case Hole => true
  }

  predicate AllWellFormed(ts: seq<Token>) {
    forall t | t in ts :: WellFormed(t)
  }

  /** `b` may follow `a`: neither fuses with the other nor is swallowed by it. */
  predicate Apart(a: Token, b: Token) {
    match a
    case Code(c) => !(c == SLASH && Text(b)[0] == STAR) && !(c == DASH && Text(b)[0] == DASH)
    case Literal(_, closed) => closed && !b.Literal?
    case Block(_, closed) => closed
    case Line(_, closed) => closed
    case Hole => true
  }

  predicate Separable(ts: seq<Token>) {
    |ts| <= 1 || (Apart(ts[0], ts[1]) && Separable(ts[1..]))
  }

  // The three scans inside a token stop where the token's text stops.

  lemma {:induction false} QuoteLenPrefix(s: Bytes)
    ensures Doubled(s[..QuoteLen(s)])
    ensures QuoteLen(s) < |s| - 1 ==> s[QuoteLen(s) + 1] != QUOTE
  {
    if s == [] {
    } else if s[0] != QUOTE {
      QuoteLenPrefix(s[1..]);
      assert s[..QuoteLen(s)][1..] == s[1..][..QuoteLen(s[1..])];
    } else if |s| > 1 && s[1] == QUOTE {
      QuoteLenPrefix(s[2..]);
      assert s[..QuoteLen(s)][2..] == s[2..][..QuoteLen(s[2..])];
    }
  }

  lemma {:induction false} BlockLenPrefix(s: Bytes)
    ensures BlockLen(s[..BlockLen(s)]) == BlockLen(s)
  {
    if BlockLen(s) > 0 {
      BlockLenPrefix(s[1..]);
      assert s[..BlockLen(s)][1..] == s[1..][..BlockLen(s[1..])];
    }
  }

  lemma {:induction false} LineLenPrefix(s: Bytes)
    ensures LineLen(s[..LineLen(s)]) == LineLen(s)
  {
    if LineLen(s) > 0 {
      LineLenPrefix(s[1..]);
      assert s[..LineLen(s)][1..] == s[1..][..LineLen(s[1..])];
    }
  }

  lemma {:induction false} QuoteLenAppend(raw: Bytes, rest: Bytes)
    requires Doubled(raw)
    requires rest == [] || (rest[0] == QUOTE && (|rest| > 1 ==> rest[1] != QUOTE))
    ensures QuoteLen(raw + rest) == |raw|
  {
    if raw == [] {
      assert raw + rest == rest;
    } else if raw[0] != QUOTE {
      assert (raw + rest)[1..] == raw[1..] + rest;
      QuoteLenAppend(raw[1..], rest);
    } else {
      assert (raw + rest)[2..] == raw[2..] + rest;
      QuoteLenAppend(raw[2..], rest);
    }
  }

  lemma {:induction false} BlockLenAppend(raw: Bytes, rest: Bytes)
    requires BlockLen(raw) == |raw|
    requires rest == [] || (|rest| >= 2 && rest[0] == STAR && rest[1] == SLASH)
    ensures BlockLen(raw + rest) == |raw|
  {
    if raw == [] {
      assert raw + rest == rest;
    } else {
      assert (raw + rest)[1..] == raw[1..] + rest;
      BlockLenAppend(raw[1..], rest);
    }
  }

  lemma {:induction false} LineLenAppend(raw: Bytes, rest: Bytes)
    requires LineLen(raw) == |raw|
    requires rest == [] || rest[0] == NEWLINE
    ensures LineLen(raw + rest) == |raw|
  {
    if raw == [] {
      assert raw + rest == rest;
    } else {
      assert (raw + rest)[1..] == raw[1..] + rest;
      LineLenAppend(raw[1..], rest);
    }
  }

  lemma FirstTokenWellFormed(s: Bytes)
    requires s != []
    ensures WellFormed(FirstToken(s))
  {
    hide QuoteLen, BlockLen, LineLen;
    QuoteLenPrefix(s[1..]);
    assert s[1..1 + QuoteLen(s[1..])] == s[1..][..QuoteLen(s[1..])];
    if |s| >= 2 {
      BlockLenPrefix(s[2..]);
      assert s[2..2 + BlockLen(s[2..])] == s[2..][..BlockLen(s[2..])];
      LineLenPrefix(s[2..]);
      assert s[2..2 + LineLen(s[2..])] == s[2..][..LineLen(s[2..])];
    }
  }

  /** A token read off a text is apart from whatever is read next. */
  lemma FirstTokenApart(s: Bytes)
    requires s != []
    ensures var rest := s[|Text(FirstToken(s))|..];
      rest != [] ==> Apart(FirstToken(s), FirstToken(rest))
  {
    hide FirstToken, QuoteLen, BlockLen, LineLen;
    var t, rest := FirstToken(s), s[|Text(FirstToken(s))|..];
    if rest != [] {
      FirstOf(s);
      FirstTokenStart(rest);
      if s[0] == QUOTE {
        QuoteLenPrefix(s[1..]);
        assert |Text(t)| == QuoteLen(s[1..]) + 2 && rest[0] == s[1..][QuoteLen(s[1..]) + 1];
      }
    }
  }

  lemma FirstTokenStart(s: Bytes)
    requires s != []
    ensures Text(FirstToken(s))[0] == s[0]
    ensures FirstToken(s).Literal? <==> s[0] == QUOTE
  {
    hide QuoteLen, BlockLen, LineLen;
  }

  lemma {:induction false} LexGood(s: Bytes)
    ensures AllWellFormed(Lex(s)) && Separable(Lex(s))
    decreases |s|
  {
    hide FirstToken, Apart, WellFormed;
    if s != [] {
      var rest := s[|Text(FirstToken(s))|..];
      FirstTokenWellFormed(s);
      FirstTokenApart(s);
      LexGood(rest);
      assert rest != [] ==> Lex(rest)[0] == FirstToken(rest);
    }
  }

  /** The parts of a token's text in front of `rest`, taken apart again. */
  lemma Parts(open: Bytes, raw: Bytes, close: Bytes, rest: Bytes, s: Bytes)
    requires s == open + raw + close + rest
    ensures |open| + |raw| <= |s| && forall i | 0 <= i < |open| :: s[i] == open[i]
    ensures s[|open|..] == raw + (close + rest)
    ensures s[|open|..|open| + |raw|] == raw
  {
  }

  lemma LiteralBack(raw: Bytes, closed: bool, rest: Bytes, s: Bytes)
    requires Doubled(raw) && (rest != [] ==> closed && rest[0] != QUOTE)
    requires s == Text(Literal(raw, closed)) + rest
    ensures FirstToken(s) == Literal(raw, closed)
  {
    hide FirstToken, QuoteLen, BlockLen, LineLen;
    var close := if closed then [QUOTE] else [];
    Parts([QUOTE], raw, close, rest, s);
    QuoteLenAppend(raw, close + rest);
    FirstOf(s);
  }

  lemma BlockShape(raw: Bytes, closed: bool, rest: Bytes, s: Bytes)
    requires s == Text(Block(raw, closed)) + rest
    ensures StartsBlock(s) && |s| == 2 + |raw| + (if closed then 2 else 0) + |rest|
    ensures s[2..] == raw + ((if closed then [STAR, SLASH] else []) + rest)
    ensures s[2..2 + |raw|] == raw
  {
    var open := [SLASH, STAR];
    Parts(open, raw, if closed then [STAR, SLASH] else [], rest, s);
    assert s[0] == open[0] && s[1] == open[1];
  }

  lemma BlockBack(raw: Bytes, closed: bool, rest: Bytes, s: Bytes)
    requires BlockLen(raw) == |raw| && (rest != [] ==> closed)
    requires s == Text(Block(raw, closed)) + rest
    ensures FirstToken(s) == Block(raw, closed)
  {
    hide FirstToken, QuoteLen, BlockLen, LineLen, Text;
    BlockShape(raw, closed, rest, s);
    BlockLenAppend(raw, (if closed then [STAR, SLASH] else []) + rest);
    FirstOf(s);
  }

  lemma LineBack(raw: Bytes, closed: bool, rest: Bytes, s: Bytes)
    requires LineLen(raw) == |raw| && (rest != [] ==> closed)
    requires s == Text(Line(raw, closed)) + rest
    ensures FirstToken(s) == Line(raw, closed)
  {
    hide FirstToken, QuoteLen, BlockLen, LineLen;
    var close := if closed then [NEWLINE] else [];
    Parts([DASH, DASH], raw, close, rest, s);
    LineLenAppend(raw, close + rest);
    assert s[0] == [DASH, DASH][0] && s[1] == [DASH, DASH][1];
    FirstOf(s);
  }

  /** A well-formed token is read back when what follows starts apart from it. */
  lemma FirstTokenBack(t: Token, rest: Bytes)
    requires WellFormed(t)
    requires rest != [] ==> Apart(t, FirstToken(rest))
    ensures FirstToken(Text(t) + rest) == t
  {
    hide QuoteLen, BlockLen, LineLen;
    if rest != [] {
      FirstTokenStart(rest);
    }
    match t
    case Literal(raw, closed) => LiteralBack(raw, closed, rest, Text(t) + rest);
    case Block(raw, closed) => BlockBack(raw, closed, rest, Text(t) + rest);
    case Line(raw, closed) => LineBack(raw, closed, rest, Text(t) + rest);
    case Code(_) =>
    case Hole =>
  }

  lemma {:induction false} LexOfFlatten(ts: seq<Token>)
    requires AllWellFormed(ts) && Separable(ts)
    ensures Lex(Flatten(ts)) == ts
  {
    hide FirstToken, Apart, WellFormed, Text;
    if ts != [] {
      var rest := Flatten(ts[1..]);
      LexOfFlatten(ts[1..]);
      if rest != [] {
        assert Lex(rest)[0] == FirstToken(rest);
        assert rest == Text(ts[1]) + Flatten(ts[2..]) by { assert ts[1..][1..] == ts[2..]; }
      }
      FirstTokenBack(ts[0], rest);
      assert (Text(ts[0]) + rest)[|Text(ts[0])|..] == rest;
    }
  }

  /** Lexing gives the tokens back exactly when they are separable. */
  lemma LexInverse(ts: seq<Token>)
    requires AllWellFormed(ts)
    ensures Lex(Flatten(ts)) == ts <==> Separable(ts)
  {
    LexGood(Flatten(ts));
    if Separable(ts) {
      LexOfFlatten(ts);
    }
  }
}
