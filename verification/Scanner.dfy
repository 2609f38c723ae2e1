/**
  types.go: the placeholder scanner. The reference is an automaton that reads one byte at a
  time and toggles on every quote; the code looks one byte ahead and skips bytes.
 */
module Scanner {
  import opened Wire
  import opened SqlLexer

  /** The four states of the code. */
  datatype State = ScanNormal | ScanSingleQuote | ScanBlockComment | ScanLineComment

  /** The automaton's modes: the four states, with a pending `/`, `-` or `*` remembered. */
  datatype Mode = Normal | Slash | Dash | Quoted | InBlock | Star | InLine

  predicate Outside(m: Mode) { m in {Normal, Slash, Dash} }

  function Step(m: Mode, c: byte): Mode {
    match m
    case Quoted => if c == QUOTE then Normal else Quoted
    case InBlock => if c == STAR then Star else InBlock
    case Star => if c == SLASH then Normal else if c == STAR then Star else InBlock
    case InLine => if c == NEWLINE then Normal else InLine
    case _ =>
      if m == Slash && c == STAR then InBlock
      else if m == Dash && c == DASH then InLine
      else if c == QUOTE then Quoted
      else if c == SLASH then Slash
      else if c == DASH then Dash
      else Normal
  }

  function Run(m: Mode, s: Bytes): Mode
    decreases |s|
  {
    if s == [] then m else Run(Step(m, s[0]), s[1..])
  }

  function StateOf(m: Mode): State {
    match m
    case Quoted => ScanSingleQuote
    case InBlock => ScanBlockComment
    case Star => ScanBlockComment
    case InLine => ScanLineComment
    case _ => ScanNormal
  }

  /** The state in front of every byte. */
  function Marks(m: Mode, s: Bytes): (marks: seq<State>)
    ensures |marks| == |s|
    decreases |s|
  {
    if s == [] then [] else [StateOf(m)] + Marks(Step(m, s[0]), s[1..])
  }

  /** Positions, counted from `base`, of the `?` bytes marked normal. */
  function Pick(base: nat, s: Bytes, marks: seq<State>): seq<nat>
    requires |s| == |marks|
    decreases |s|
  {
    if s == [] then []
    else if s[0] == HOLE && marks[0] == ScanNormal then [base] + Pick(base + 1, s[1..], marks[1..])
    else Pick(base + 1, s[1..], marks[1..])
  }

  function Placeholders(sql: Bytes): seq<nat> {
    Pick(0, sql, Marks(Normal, sql))
  }

  // ----- the scanner

  function PickFrom(m: Mode, base: nat, s: Bytes): seq<nat> {
    Pick(base, s, Marks(m, s))
  }

  lemma PickStep(m: Mode, base: nat, s: Bytes)
    requires s != []
    ensures PickFrom(m, base, s)
         == var rest := PickFrom(Step(m, s[0]), base + 1, s[1..]);
            if s[0] == HOLE && StateOf(m) == ScanNormal then [base] + rest else rest
    ensures Run(m, s) == Run(Step(m, s[0]), s[1..])
  {
  }

  /** What the loop does with a byte: it skips the second byte of a pair, or reads the byte in a state. */
  datatype Look = Skipped | Read(state: State)

  /** c and d in this order, read from this state, are a pair whose second byte is skipped. */
  predicate IsPair(state: State, c: byte, d: byte) {
    match state
    case ScanNormal => (c == SLASH && d == STAR) || (c == DASH && d == DASH)
    case ScanSingleQuote => c == QUOTE && d == QUOTE
    case ScanBlockComment => c == STAR && d == SLASH
    case ScanLineComment => false
  }

  /** The loop's state after reading s[0], and after the byte behind it if that is skipped. */
  function Advance(state: State, s: Bytes): State
    requires s != []
  {
    var pair := |s| > 1 && IsPair(state, s[0], s[1]);
    match state
    case ScanNormal =>
      if s[0] == QUOTE then ScanSingleQuote
      else if pair then if s[0] == SLASH then ScanBlockComment else ScanLineComment
      else ScanNormal
    case ScanSingleQuote => if s[0] == QUOTE && !pair then ScanNormal else ScanSingleQuote
    case ScanBlockComment => if pair then ScanNormal else ScanBlockComment
    case ScanLineComment => if s[0] == NEWLINE then ScanNormal else ScanLineComment
  }

  /** How the loop looks at every byte of s, entered in a state. */
  function Looks(state: State, s: Bytes): (ls: seq<Look>)
    ensures |ls| == |s|
    decreases |s|
  {
    if s == [] then []
    else if |s| > 1 && IsPair(state, s[0], s[1]) then [Read(state), Skipped] + Looks(Advance(state, s), s[2..])
    else [Read(state)] + Looks(Advance(state, s), s[1..])
  }

  /** What the loop has done when it is about to look at byte i. */
  ghost predicate Scanned(sql: Bytes, i: nat, state: State, mode: Mode, positions: seq<nat>, looks: seq<Look>) {
    && i <= |sql| && StateOf(mode) == state && (i < |sql| ==> Unpaired(mode, sql[i]))
    && positions + PickFrom(mode, i, sql[i..]) == Placeholders(sql)
    && looks + Looks(state, sql[i..]) == Looks(ScanNormal, sql)
  }

  /** The automaton's move over byte i, with the positions found so far. */
  lemma PickMove(m: Mode, positions: seq<nat>, sql: Bytes, i: nat)
    requires i < |sql|
    ensures var found := if sql[i] == HOLE && StateOf(m) == ScanNormal then positions + [i] else positions;
      positions + PickFrom(m, i, sql[i..]) == found + PickFrom(Step(m, sql[i]), i + 1, sql[i + 1..])
  {
    hide PickFrom, Step, StateOf;
    PickStep(m, i, sql[i..]);
    assert sql[i..][1..] == sql[i + 1..];
    var rest := PickFrom(Step(m, sql[i]), i + 1, sql[i + 1..]);
    assert positions + ([i] + rest) == (positions + [i]) + rest;
  }

  /** One turn of the loop. */
  lemma Turn(sql: Bytes, i: nat, state: State, mode: Mode, positions: seq<nat>, looks: seq<Look>)
    returns (next: Mode)
    requires i < |sql| && Scanned(sql, i, state, mode, positions, looks)
    ensures var found := if state == ScanNormal && sql[i] == HOLE then positions + [i] else positions;
      var after := Advance(state, sql[i..]);
      if i + 1 < |sql| && IsPair(state, sql[i], sql[i + 1]) then
        Scanned(sql, i + 2, after, next, found, looks + [Read(state), Skipped])
      else Scanned(sql, i + 1, after, next, found, looks + [Read(state)])
  {
    hide PickFrom, Looks, Placeholders, Advance, Step, Unpaired;
    AdvanceIsStep(mode, sql[i..]);
    LooksStep(looks, state, sql, i);
    PickMove(mode, positions, sql, i);
    next := Step(mode, sql[i]);
    if i + 1 < |sql| && IsPair(state, sql[i], sql[i + 1]) {
      var found := if state == ScanNormal && sql[i] == HOLE then positions + [i] else positions;
      PickMove(next, found, sql, i + 1);
      next := Step(next, sql[i + 1]);
    }
  }

  /** `looks` is ghost: the state in which the loop read each byte it did not skip. */
  method FindBindPlaceholders(sql: Bytes) returns (positions: seq<nat>, ghost looks: seq<Look>)
    ensures positions == Placeholders(sql)
    ensures looks == Looks(ScanNormal, sql)
  {
    hide Scanned, Looks, Placeholders;
    var state := ScanNormal;
    positions := [];
    looks := [];
    ghost var mode := Normal;
    ScannedStart(sql);
    var i := 0;
    while i < |sql|
      invariant i <= |sql| && Scanned(sql, i, state, mode, positions, looks)
    {
      var ch := sql[i];
      var skip := false;
      ghost var before := state;
      mode := Turn(sql, i, state, mode, positions, looks);
      match state {
        case ScanNormal =>
          if ch == QUOTE {
            state := ScanSingleQuote;
          } else if ch == SLASH {
            if i + 1 < |sql| && sql[i + 1] == STAR {
              state := ScanBlockComment;
              skip := true;
            }
          } else if ch == DASH {
            if i + 1 < |sql| && sql[i + 1] == DASH {
              state := ScanLineComment;
              skip := true;
            }
          } else if ch == HOLE {
            positions := positions + [i];
          }
        case ScanSingleQuote =>
          if ch == QUOTE {
            if i + 1 < |sql| && sql[i + 1] == QUOTE {
              skip := true;
            } else {
              state := ScanNormal;
            }
          }
        case ScanBlockComment =>
          if ch == STAR && i + 1 < |sql| && sql[i + 1] == SLASH {
            state := ScanNormal;
            skip := true;
          }
        case ScanLineComment =>
          if ch == NEWLINE {
            state := ScanNormal;
          }
      }
      looks := looks + (if skip then [Read(before), Skipped] else [Read(before)]);
      i := i + 1;
      if skip {
        i := i + 1;
      }
    }
    ScannedEnd(sql, state, mode, positions, looks);
  }

  lemma ScannedStart(sql: Bytes)
    ensures Scanned(sql, 0, ScanNormal, Normal, [], [])
  {
    hide PickFrom, Looks, Placeholders;
    PickStart(sql);
    assert sql[0..] == sql && [] + Looks(ScanNormal, sql) == Looks(ScanNormal, sql);
  }

  lemma ScannedEnd(sql: Bytes, state: State, mode: Mode, positions: seq<nat>, looks: seq<Look>)
    requires Scanned(sql, |sql|, state, mode, positions, looks)
    ensures positions == Placeholders(sql) && looks == Looks(ScanNormal, sql)
  {
    hide PickFrom, Looks, Placeholders;
    assert sql[|sql|..] == [];
    PickEnd(mode, |sql|);
    LooksEnd(state);
  }

  /** A byte that does not complete a pair begun in mode m. */
  predicate Unpaired(m: Mode, c: byte) {
    (m == Slash ==> c != STAR) && (m == Dash ==> c != DASH) && (m == Star ==> c != SLASH)
  }

  /** One turn of the loop on what is left of the text. */
  lemma LooksStep(done: seq<Look>, state: State, sql: Bytes, i: nat)
    requires i < |sql|
    ensures var pair := i + 1 < |sql| && IsPair(state, sql[i], sql[i + 1]);
      done + Looks(state, sql[i..])
      == if pair then (done + [Read(state), Skipped]) + Looks(Advance(state, sql[i..]), sql[i + 2..])
         else (done + [Read(state)]) + Looks(Advance(state, sql[i..]), sql[i + 1..])
  {
    hide Advance;
    var s := sql[i..];
    assert s[1..] == sql[i + 1..];
    if i + 1 < |sql| {
      assert s[2..] == sql[i + 2..];
    }
  }

  lemma LooksEnd(state: State)
    ensures Looks(state, []) == []
  {
  }

  lemma PickStart(sql: Bytes)
    ensures [] + PickFrom(Normal, 0, sql[0..]) == Placeholders(sql)
  {
    assert sql[0..] == sql;
  }

  lemma PickEnd(m: Mode, base: nat)
    ensures PickFrom(m, base, []) == []
  {
  }

  // ----- what the positions are

  lemma {:induction false} MarkAt(m: Mode, s: Bytes, p: nat)
    requires p < |s|
    ensures Marks(m, s)[p] == StateOf(Run(m, s[..p]))
    decreases p
  {
    if p > 0 {
      MarkAt(Step(m, s[0]), s[1..], p - 1);
      assert s[..p][1..] == s[1..][..p - 1];
    }
  }

  ghost predicate Increasing(ps: seq<nat>) {
    forall i, j | 0 <= i < j < |ps| :: ps[i] < ps[j]
  }

  lemma {:induction false} PickMember(base: nat, s: Bytes, marks: seq<State>, p: nat)
    requires |s| == |marks|
    ensures p in Pick(base, s, marks) <==>
              base <= p < base + |s| && s[p - base] == HOLE && marks[p - base] == ScanNormal
    decreases |s|
  {
    if s != [] {
      PickMember(base + 1, s[1..], marks[1..], p);
      InCons(base, Pick(base + 1, s[1..], marks[1..]), p);
    }
  }

  lemma {:induction false} PickIncreasing(base: nat, s: Bytes, marks: seq<State>)
    requires |s| == |marks|
    ensures Increasing(Pick(base, s, marks))
    decreases |s|
  {
    if s != [] {
      var rest := Pick(base + 1, s[1..], marks[1..]);
      PickIncreasing(base + 1, s[1..], marks[1..]);
      forall k | 0 <= k < |rest| ensures base < rest[k] {
        PickMember(base + 1, s[1..], marks[1..], rest[k]);
      }
      Prepended(base, rest);
    }
  }

  lemma Prepended(head: nat, rest: seq<nat>)
    requires Increasing(rest) && forall k | 0 <= k < |rest| :: head < rest[k]
    ensures Increasing([head] + rest)
  {
    var all := [head] + rest;
    assert all[0] == head && forall k | 0 < k < |all| :: all[k] == rest[k - 1];
  }

  lemma InCons(head: nat, rest: seq<nat>, p: nat)
    ensures p in [head] + rest <==> p == head || p in rest
  {
  }

  // Quoted texts and comments, in bytes.

  lemma {:induction false} Inside(m: Mode, q: Bytes)
    requires match m
      case Quoted => 39 !in q
      case InBlock => NoBlockEnd(q)
      case Star => NoBlockEnd(q) && (q != [] ==> q[0] != 47)
      case InLine => 10 !in q
      case _ => false
    ensures !Outside(Run(m, q)) && StateOf(Run(m, q)) == StateOf(m)
    decreases |q|
  {
    if q != [] {
      Inside(Step(m, q[0]), q[1..]);
    }
  }

  predicate NoBlockEnd(q: Bytes) { forall i :: 0 <= i < |q| - 1 ==> !(q[i] == 42 && q[i + 1] == 47) }

  lemma {:induction false} RunConcat(m: Mode, a: Bytes, b: Bytes)
    ensures Run(m, a + b) == Run(Run(m, a), b)
    decreases |a|
  {
    if a == [] {
      assert a + b == b;
    } else {
      assert (a + b)[1..] == a[1..] + b;
      RunConcat(Step(m, a[0]), a[1..], b);
    }
  }

  lemma RunTwo(m: Mode, c: byte, d: byte)
    ensures Run(m, [c]) == Step(m, c) && Run(m, [c, d]) == Step(Step(m, c), d)
  {
    assert [c][1..] == [] && [c, d][1..] == [d] && [d][1..] == [];
    assert Run(m, [c, d]) == Run(Step(m, c), [d]) == Run(Step(Step(m, c), d), []);
  }

  /**
    From outside, in ASCII codes: a text between quotes, between slash-star and star-slash, or
    from two dashes to the end of the line is inside, and outside begins right behind it.
   */
  lemma RegionsOnBytes(m: Mode, q: Bytes)
    requires Outside(m)
    ensures 39 !in q ==> !Outside(Run(m, [39] + q)) && Run(m, [39] + q + [39]) == Normal
    ensures NoBlockEnd(q) ==> !Outside(Run(m, [47, 42] + q)) && Run(m, [47, 42] + q + [42, 47]) == Normal
    ensures 10 !in q ==> !Outside(Run(m, [45, 45] + q)) && Run(m, [45, 45] + q + [10]) == Normal
    ensures forall c | c !in {39, 42, 45, 47} :: Step(m, c) == Normal
  {
    hide Run, NoBlockEnd;
    RunTwo(m, 39, 39);
    RunTwo(m, 47, 42);
    RunTwo(m, 45, 45);
    RunConcat(m, [39], q);
    RunConcat(m, [47, 42], q);
    RunConcat(m, [45, 45], q);
    RunConcat(m, [39] + q, [39]);
    RunConcat(m, [47, 42] + q, [42, 47]);
    RunConcat(m, [45, 45] + q, [10]);
    RunTwo(Run(m, [39] + q), 39, 39);
    RunTwo(Run(m, [47, 42] + q), 42, 47);
    RunTwo(Run(m, [45, 45] + q), 10, 10);
    if 39 !in q { Inside(Quoted, q); }
    if NoBlockEnd(q) { Inside(InBlock, q); }
    if 10 !in q { Inside(InLine, q); }
  }

  /** The positions are exactly, in increasing order, the `?` bytes the automaton reads in the normal state. */
  lemma PlaceholdersExact(sql: Bytes)
    ensures Increasing(Placeholders(sql))
    ensures forall p: nat :: p in Placeholders(sql) <==>
              p < |sql| && sql[p] == 63 && Outside(Run(Normal, sql[..p]))
  {
    hide Marks, Pick, Run;
    PickIncreasing(0, sql, Marks(Normal, sql));
    forall p: nat
      ensures p in Placeholders(sql) <==> p < |sql| && sql[p] == HOLE && Outside(Run(Normal, sql[..p]))
    {
      PickMember(0, sql, Marks(Normal, sql), p);
      if p < |sql| {
        MarkAt(Normal, sql, p);
      }
    }
  }

  // ----- the loop against the automaton

  /** Looks(state, s)[i] as part of the looks at s, for any i behind the first byte or pair. */
  lemma LooksTail(state: State, s: Bytes, i: nat)
    requires 0 < i < |s|
    ensures var pair := IsPair(state, s[0], s[1]);
      Looks(state, s)[i] == if pair && i == 1 then Skipped
                            else if pair then Looks(Advance(state, s), s[2..])[i - 2]
                            else Looks(Advance(state, s), s[1..])[i - 1]
  {
    hide Advance, IsPair;
  }

  lemma MarksTail(m: Mode, s: Bytes, i: nat)
    requires 0 < i < |s|
    ensures Marks(m, s)[i] == Marks(Step(m, s[0]), s[1..])[i - 1]
  {
    hide Step;
  }

  /** The state variable and the mode stay together, through a skipped byte too. */
  lemma AdvanceIsStep(m: Mode, s: Bytes)
    requires s != [] && Unpaired(m, s[0])
    ensures var next := Step(m, s[0]);
      if |s| > 1 && IsPair(StateOf(m), s[0], s[1]) then
        && Advance(StateOf(m), s) == StateOf(Step(next, s[1]))
        && (|s| > 2 ==> Unpaired(Step(next, s[1]), s[2]))
        && (s[1] != QUOTE ==> StateOf(next) == StateOf(m))
      else
        Advance(StateOf(m), s) == StateOf(next) && (|s| > 1 ==> Unpaired(next, s[1]))
  {
  }

  /**
    For every text and every byte of it: if the loop reads the byte, its state variable is what
    the automaton marks it with. It skips the byte exactly if it read the one before, and they
    are a pair there; the second byte of a comment delimiter has the mark of the first.
   */
  lemma {:induction false} LooksExactly(m: Mode, s: Bytes, i: nat)
    requires i < |s| && Unpaired(m, s[0])
    ensures var ls := Looks(StateOf(m), s);
      && (ls[i].Read? ==> ls[i].state == Marks(m, s)[i])
      && (ls[i].Skipped? <==> i > 0 && ls[i - 1].Read? && IsPair(ls[i - 1].state, s[i - 1], s[i]))
      && (ls[i].Skipped? && s[i] != QUOTE ==> Marks(m, s)[i] == Marks(m, s)[i - 1])
    decreases |s|
  {
    hide IsPair, Advance, Step, Unpaired, Looks, Marks;
    FirstLook(m, s);
    AdvanceIsStep(m, s);
    if i > 0 {
      var state, next := StateOf(m), Step(m, s[0]);
      LooksTail(state, s, i);
      MarksTail(m, s, i);
      if IsPair(state, s[0], s[1]) {
        var after := Step(next, s[1]);
        FirstLook(next, s[1..]);
        LooksTail(state, s, 1);
        if i > 1 {
          MarksTail(next, s[1..], i - 1);
          LooksExactly(after, s[2..], i - 2);
          FirstLook(after, s[2..]);
          if i > 2 {
            LooksTail(state, s, i - 1);
            MarksTail(m, s, i - 1);
            MarksTail(next, s[1..], i - 2);
          }
        }
      } else {
        LooksExactly(next, s[1..], i - 1);
        FirstLook(next, s[1..]);
        if i > 1 {
          LooksTail(state, s, i - 1);
          MarksTail(m, s, i - 1);
        }
      }
    }
  }

  lemma FirstLook(m: Mode, s: Bytes)
    requires s != []
    ensures Looks(StateOf(m), s)[0] == Read(StateOf(m)) && Marks(m, s)[0] == StateOf(m)
  {
    hide Advance, IsPair, Step;
  }

  // ----- the automaton over tokens

  lemma {:induction false} MarksConcat(m: Mode, a: Bytes, b: Bytes)
    ensures Marks(m, a + b) == Marks(m, a) + Marks(Run(m, a), b)
    decreases |a|
  {
    if a == [] {
      assert a + b == b;
    } else {
      assert (a + b)[1..] == a[1..] + b;
      MarksConcat(Step(m, a[0]), a[1..], b);
    }
  }

  lemma {:induction false} PickConcat(base: nat, a: Bytes, ma: seq<State>, b: Bytes, mb: seq<State>)
    requires |a| == |ma| && |b| == |mb|
    ensures Pick(base, a + b, ma + mb) == Pick(base, a, ma) + Pick(base + |a|, b, mb)
    decreases |a|
  {
    if a == [] {
      assert a + b == b && ma + mb == mb;
    } else {
      assert (a + b)[1..] == a[1..] + b && (ma + mb)[1..] == ma[1..] + mb;
      PickConcat(base + 1, a[1..], ma[1..], b, mb);
      var mine, more := Pick(base + 1, a[1..], ma[1..]), Pick(base + |a|, b, mb);
      assert [base] + (mine + more) == ([base] + mine) + more;
    }
  }

  function IsClosed(t: Token): bool {
    match t
    case Literal(_, closed) => closed
    case Block(_, closed) => closed
    case Line(_, closed) => closed
    case _ => true
  }

  /** The mode in which a token that is closed leaves the automaton. */
  function After(t: Token): Mode {
    if t.Code? && t.c == SLASH then Slash else if t.Code? && t.c == DASH then Dash else Normal
  }

  /** The token's first byte does not complete a comment opening. */
  predicate Ready(m: Mode, t: Token) {
    !(m == Slash && Text(t)[0] == STAR) && !(m == Dash && Text(t)[0] == DASH)
  }

  function TokenMarks(t: Token): (marks: seq<State>)
    ensures |marks| == |Text(t)|
  {
    Marks(Normal, Text(t))
  }

  // Inside a token there is no placeholder, and its closing delimiter ends it.

  lemma {:induction false} QuotedScan(base: nat, raw: Bytes, close: Bytes)
    requires Doubled(raw) && (close == [] || close == [QUOTE])
    ensures PickFrom(Quoted, base, raw + close) == []
    ensures close != [] ==> Run(Quoted, raw + close) == Normal
    decreases |raw|
  {
    hide PickFrom;
    var s := raw + close;
    if s == [] {
      PickEnd(Quoted, base);
    } else {
      PickStep(Quoted, base, s);
      if raw == [] {
        assert s == close && s[1..] == [];
        PickEnd(Normal, base + 1);
      } else if raw[0] != QUOTE {
        assert s[1..] == raw[1..] + close;
        QuotedScan(base + 1, raw[1..], close);
      } else {
        assert s[1..][1..] == raw[2..] + close;
        PickStep(Normal, base + 1, s[1..]);
        QuotedScan(base + 2, raw[2..], close);
      }
    }
  }

  lemma {:induction false} BlockScan(m: Mode, base: nat, raw: Bytes, close: Bytes)
    requires BlockLen(raw) == |raw| && (close == [] || close == [STAR, SLASH])
    requires m == InBlock || (m == Star && (raw == [] || raw[0] != SLASH))
    ensures PickFrom(m, base, raw + close) == []
    ensures close != [] ==> Run(m, raw + close) == Normal
    decreases |raw|
  {
    hide PickFrom;
    var s := raw + close;
    if s == [] {
      PickEnd(m, base);
    } else {
      PickStep(m, base, s);
      if raw == [] {
        assert s == close && s[1..] == [SLASH] && s[1..][1..] == [];
        PickStep(Star, base + 1, s[1..]);
        PickEnd(Normal, base + 2);
      } else {
        assert s[1..] == raw[1..] + close;
        BlockScan(Step(m, s[0]), base + 1, raw[1..], close);
      }
    }
  }

  lemma {:induction false} LineScan(base: nat, raw: Bytes, close: Bytes)
    requires LineLen(raw) == |raw| && (close == [] || close == [NEWLINE])
    ensures PickFrom(InLine, base, raw + close) == []
    ensures close != [] ==> Run(InLine, raw + close) == Normal
    decreases |raw|
  {
    hide PickFrom;
    var s := raw + close;
    if s == [] {
      PickEnd(InLine, base);
    } else {
      PickStep(InLine, base, s);
      if raw == [] {
        assert s == close && s[1..] == [];
        PickEnd(Normal, base + 1);
      } else {
        assert s[1..] == raw[1..] + close;
        LineScan(base + 1, raw[1..], close);
      }
    }
  }

  lemma QuotedToken(base: nat, raw: Bytes, closed: bool)
    requires Doubled(raw)
    ensures PickFrom(Normal, base, Text(Literal(raw, closed))) == []
    ensures closed ==> Run(Normal, Text(Literal(raw, closed))) == Normal
  {
    hide PickFrom, QuoteLen, Run;
    var s, close := Text(Literal(raw, closed)), if closed then [QUOTE] else [];
    PickStep(Normal, base, s);
    assert s[1..] == raw + close;
    QuotedScan(base + 1, raw, close);
  }

  /** The two bytes that open a comment. */
  lemma Opening(base: nat, a: byte, b: byte, rest: Bytes)
    requires (a == SLASH && b == STAR) || (a == DASH && b == DASH)
    ensures var inside := if b == STAR then InBlock else InLine;
      && PickFrom(Normal, base, [a, b] + rest) == PickFrom(inside, base + 2, rest)
      && Run(Normal, [a, b] + rest) == Run(inside, rest)
  {
    hide PickFrom, Run;
    var s := [a, b] + rest;
    assert s[1..] == [b] + rest && ([b] + rest)[1..] == rest;
    PickStep(Normal, base, s);
    PickStep(if b == STAR then Slash else Dash, base + 1, [b] + rest);
  }

  lemma BlockText(raw: Bytes, closed: bool)
    ensures Text(Block(raw, closed)) == [SLASH, STAR] + (raw + (if closed then [STAR, SLASH] else []))
  {
  }

  lemma BlockToken(base: nat, raw: Bytes, closed: bool)
    requires BlockLen(raw) == |raw|
    ensures PickFrom(Normal, base, Text(Block(raw, closed))) == []
    ensures closed ==> Run(Normal, Text(Block(raw, closed))) == Normal
  {
    hide PickFrom, BlockLen, Run, Text;
    var close := if closed then [STAR, SLASH] else [];
    BlockText(raw, closed);
    Opening(base, SLASH, STAR, raw + close);
    BlockScan(InBlock, base + 2, raw, close);
  }

  lemma LineText(raw: Bytes, closed: bool)
    ensures Text(Line(raw, closed)) == [DASH, DASH] + (raw + (if closed then [NEWLINE] else []))
  {
  }

  lemma LineToken(base: nat, raw: Bytes, closed: bool)
    requires LineLen(raw) == |raw|
    ensures PickFrom(Normal, base, Text(Line(raw, closed))) == []
    ensures closed ==> Run(Normal, Text(Line(raw, closed))) == Normal
  {
    hide PickFrom, LineLen, Run, Text;
    var close := if closed then [NEWLINE] else [];
    LineText(raw, closed);
    Opening(base, DASH, DASH, raw + close);
    LineScan(base + 2, raw, close);
  }

  lemma TokenScan(base: nat, t: Token)
    requires WellFormed(t)
    ensures PickFrom(Normal, base, Text(t)) == if t.Hole? then [base] else []
    ensures IsClosed(t) ==> Run(Normal, Text(t)) == After(t)
  {
    hide QuoteLen, BlockLen, LineLen, PickFrom;
    match t
    case Literal(raw, closed) => QuotedToken(base, raw, closed);
    case Block(raw, closed) => BlockToken(base, raw, closed);
    case Line(raw, closed) => LineToken(base, raw, closed);
    case Code(_) =>
      PickStep(Normal, base, Text(t));
      PickEnd(After(t), base + 1);
    case Hole =>
      PickStep(Normal, base, Text(t));
      PickEnd(Normal, base + 1);
  }

  lemma ReadyScan(m: Mode, t: Token)
    requires Outside(m) && Ready(m, t)
    ensures Marks(m, Text(t)) == TokenMarks(t) && Run(m, Text(t)) == Run(Normal, Text(t))
  {
    hide Text;
  }

  // ----- the automaton over token sequences

  /** Only the last token may be open-ended. */
  predicate ClosedInside(ts: seq<Token>) {
    |ts| <= 1 || (IsClosed(ts[0]) && ClosedInside(ts[1..]))
  }

  /** No comment opens across two tokens, nor across the start in mode m. */
  predicate Calm(m: Mode, ts: seq<Token>)
    decreases |ts|
  {
    ts == [] || (Ready(m, ts[0]) && Calm(After(ts[0]), ts[1..]))
  }

  function AllMarks(ts: seq<Token>): seq<State> {
    if ts == [] then [] else TokenMarks(ts[0]) + AllMarks(ts[1..])
  }

  function HolesOf(base: nat, ts: seq<Token>): seq<nat>
    decreases |ts|
  {
    if ts == [] then []
    else
      var rest := HolesOf(base + |Text(ts[0])|, ts[1..]);
      if ts[0].Hole? then [base] + rest else rest
  }

  /** One closed token in front of anything. */
  lemma ScanOne(m: Mode, base: nat, t: Token, rest: Bytes)
    requires Outside(m) && WellFormed(t) && IsClosed(t) && Ready(m, t)
    ensures Marks(m, Text(t) + rest) == TokenMarks(t) + Marks(After(t), rest)
    ensures PickFrom(m, base, Text(t) + rest)
         == var more := PickFrom(After(t), base + |Text(t)|, rest);
            if t.Hole? then [base] + more else more
  {
    hide Marks, Pick, WellFormed, Text, Ready, Run, IsClosed;
    ReadyScan(m, t);
    TokenScan(base, t);
    MarksConcat(m, Text(t), rest);
    PickConcat(base, Text(t), TokenMarks(t), rest, Marks(After(t), rest));
    var more := PickFrom(After(t), base + |Text(t)|, rest);
    assert [] + more == more;
  }

  /** A last token, open or closed. */
  lemma ScanLast(m: Mode, base: nat, t: Token)
    requires Outside(m) && WellFormed(t) && Ready(m, t)
    ensures Marks(m, Text(t)) == TokenMarks(t)
    ensures PickFrom(m, base, Text(t)) == if t.Hole? then [base] else []
  {
    hide Marks, Pick, WellFormed, Text, Ready, Run;
    ReadyScan(m, t);
    TokenScan(base, t);
  }

  /** On calm tokens the automaton marks each token as if it stood alone, and finds the holes. */
  lemma {:induction false} ScanTokens(m: Mode, base: nat, ts: seq<Token>)
    requires Outside(m) && AllWellFormed(ts) && ClosedInside(ts) && Calm(m, ts)
    ensures Marks(m, Flatten(ts)) == AllMarks(ts)
    ensures PickFrom(m, base, Flatten(ts)) == HolesOf(base, ts)
    decreases |ts|
  {
    hide Marks, PickFrom, WellFormed, Text, Ready, TokenMarks, IsClosed;
    if ts == [] {
      NothingMarked(m, base);
    } else if |ts| == 1 {
      ScanLast(m, base, ts[0]);
      assert Flatten(ts) == Text(ts[0]) + [] && Text(ts[0]) + [] == Text(ts[0]);
      assert AllMarks(ts) == TokenMarks(ts[0]) + [] && TokenMarks(ts[0]) + [] == TokenMarks(ts[0]);
      assert HolesOf(base + |Text(ts[0])|, ts[1..]) == [] && [base] + [] == [base];
    } else {
      ScanOne(m, base, ts[0], Flatten(ts[1..]));
      ScanTokens(After(ts[0]), base + |Text(ts[0])|, ts[1..]);
    }
  }

  lemma NothingMarked(m: Mode, base: nat)
    ensures Marks(m, []) == [] && Pick(base, [], []) == [] && PickFrom(m, base, []) == []
  {
  }

  lemma {:induction false} SeparableIsCalm(m: Mode, ts: seq<Token>)
    requires Separable(ts) && (ts != [] ==> Ready(m, ts[0]))
    ensures ClosedInside(ts) && Calm(m, ts)
    decreases |ts|
  {
    if |ts| > 1 {
      SeparableIsCalm(After(ts[0]), ts[1..]);
    }
  }

  /** The scanner finds the holes of the lexed text, at their offsets. */
  lemma PlaceholdersAreHoles(sql: Bytes)
    ensures Placeholders(sql) == HolesOf(0, Lex(sql))
  {
    hide Marks, Pick, Lex;
    LexGood(sql);
    LexLosesNothing(sql);
    SeparableIsCalm(Normal, Lex(sql));
    ScanTokens(Normal, 0, Lex(sql));
  }
}
