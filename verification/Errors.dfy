/** errors.go: an error message is classified by the keywords it contains. */
module Errors {
  import opened Wire

  datatype Kind = Base | Integrity | Programming
  datatype CubridError = CubridError(kind: Kind, code: int, message: Bytes)

  const INTEGRITY_KEYWORDS: seq<Bytes> :=
    [Ascii("unique"), Ascii("duplicate"), Ascii("foreign key"), Ascii("constraint violation")]
  const PROGRAMMING_KEYWORDS: seq<Bytes> :=
    [Ascii("syntax"), Ascii("unknown class"), Ascii("does not exist"), Ascii("not found")]

  // ----- what the classification means

  /** ASCII case folding of one byte. */
  function Fold(c: byte): byte {
    if 'A' as byte <= c <= 'Z' as byte then c + 32 else c
  }

  predicate SameFolded(a: Bytes, b: Bytes) {
    |a| == |b| && forall i | 0 <= i < |a| :: Fold(a[i]) == Fold(b[i])
  }

  predicate OccursAt(s: Bytes, sub: Bytes, i: int) {
    0 <= i <= |s| - |sub| && SameFolded(s[i..i + |sub|], sub)
  }

  predicate Occurs(s: Bytes, sub: Bytes) {
    exists i | 0 <= i <= |s| :: OccursAt(s, sub, i)
  }

  predicate MentionsAny(s: Bytes, keywords: seq<Bytes>) {
    exists k | 0 <= k < |keywords| :: Occurs(s, keywords[k])
  }

  function Classify(code: int, message: Bytes): CubridError {
    CubridError(
      if MentionsAny(message, INTEGRITY_KEYWORDS) then Integrity
      else if MentionsAny(message, PROGRAMMING_KEYWORDS) then Programming
      else Base,
      code, message)
  }

  /** The text has this ASCII keyword in it, up to case. */
  predicate Mentions(s: Bytes, keyword: string) {
    (forall i | 0 <= i < |keyword| :: keyword[i] < 128 as char) && Occurs(s, Ascii(keyword))
  }

  /** Which keywords make which error; the integrity ones come first. */
  lemma ClassifyExactly(code: int, message: Bytes)
    ensures var e := Classify(code, message);
      && e.code == code && e.message == message
      && (e.kind.Integrity? <==>
            || Mentions(message, "unique") || Mentions(message, "duplicate")
            || Mentions(message, "foreign key") || Mentions(message, "constraint violation"))
      && (e.kind.Programming? <==>
            && !e.kind.Integrity?
            && (|| Mentions(message, "syntax") || Mentions(message, "unknown class")
                || Mentions(message, "does not exist") || Mentions(message, "not found")))
  {
    hide Mentions, MentionsAny;
    IntegrityWords(message);
    ProgrammingWords(message);
  }

  lemma IntegrityWords(s: Bytes)
    ensures MentionsAny(s, INTEGRITY_KEYWORDS) <==>
      || Mentions(s, "unique") || Mentions(s, "duplicate")
      || Mentions(s, "foreign key") || Mentions(s, "constraint violation")
  {
    hide Occurs;
    MentionsFour(s, INTEGRITY_KEYWORDS);
  }

  lemma ProgrammingWords(s: Bytes)
    ensures MentionsAny(s, PROGRAMMING_KEYWORDS) <==>
      || Mentions(s, "syntax") || Mentions(s, "unknown class")
      || Mentions(s, "does not exist") || Mentions(s, "not found")
  {
    hide Occurs;
    MentionsFour(s, PROGRAMMING_KEYWORDS);
  }

  lemma MentionsFour(s: Bytes, keywords: seq<Bytes>)
    requires |keywords| == 4
    ensures MentionsAny(s, keywords) <==>
      Occurs(s, keywords[0]) || Occurs(s, keywords[1]) || Occurs(s, keywords[2]) || Occurs(s, keywords[3])
  {
    hide Occurs;
  }

  /** Two bytes fold alike exactly if they are equal or one is the capital of the other. */
  lemma FoldExactly(c: byte, d: byte)
    ensures Fold(c) == Fold(d) <==>
      c == d || (65 <= c <= 90 && d as int == c as int + 32) || (65 <= d <= 90 && c as int == d as int + 32)
  {
  }

  /** A keyword occurs exactly if the text has a part that is the keyword up to case. */
  lemma OccursMeans(s: Bytes, sub: Bytes)
    ensures Occurs(s, sub) <==> exists a: Bytes, m: Bytes, b: Bytes :: s == a + m + b && SameFolded(m, sub)
  {
    if Occurs(s, sub) {
      var i :| 0 <= i <= |s| && OccursAt(s, sub, i);
      assert s == s[..i] + s[i..i + |sub|] + s[i + |sub|..];
    }
    if a: Bytes, m: Bytes, b: Bytes :| s == a + m + b && SameFolded(m, sub) {
      assert s[|a|..|a| + |sub|] == m;
      assert OccursAt(s, sub, |a|);
    }
  }

  // ----- the scanning code

  method ToLower(s: Bytes) returns (r: Bytes)
    ensures |r| == |s| && forall i | 0 <= i < |s| :: r[i] == Fold(s[i])
  {
    var b := new byte[|s|];
    for i := 0 to |s|
      invariant forall j | 0 <= j < i :: b[j] == Fold(s[j])
    {
      var c := s[i];
      if 'A' as byte <= c <= 'Z' as byte {
        c := c + ('a' as byte - 'A' as byte);
      }
      b[i] := c;
    }
    r := b[..];
  }

  /** Lower-case texts agree at i exactly if the texts do up to case. */
  lemma LowerMatches(s: Bytes, sub: Bytes, sLow: Bytes, subLow: Bytes, i: nat)
    requires |sLow| == |s| && forall j | 0 <= j < |s| :: sLow[j] == Fold(s[j])
    requires |subLow| == |sub| && forall j | 0 <= j < |sub| :: subLow[j] == Fold(sub[j])
    requires i + |sub| <= |s|
    ensures sLow[i..i + |sub|] == subLow <==> OccursAt(s, sub, i)
  {
    hide Fold;
    var part, low := s[i..i + |sub|], sLow[i..i + |sub|];
    assert forall k | 0 <= k < |sub| :: low[k] == Fold(part[k]);
    if low == subLow {
      assert forall k | 0 <= k < |sub| :: low[k] == subLow[k];
    }
  }

  /** The least index at which `sub` occurs, ignoring ASCII case, or -1. */
  method IndexCI(s: Bytes, sub: Bytes) returns (r: int)
    ensures r == -1 || OccursAt(s, sub, r)
    ensures r == -1 <==> !Occurs(s, sub)
    ensures forall i | 0 <= i < r :: !OccursAt(s, sub, i)
  {
    var sLow := ToLower(s);
    var subLow := ToLower(sub);
    var i := 0;
    while i <= |sLow| - |subLow|
      invariant 0 <= i
      invariant forall j | 0 <= j < i :: !OccursAt(s, sub, j)
    {
      LowerMatches(s, sub, sLow, subLow, i);
      if sLow[i..i + |subLow|] == subLow {
        return i;
      }
      i := i + 1;
    }
    return -1;
  }

  method ContainsCI(s: Bytes, sub: Bytes) returns (r: bool)
    ensures r <==> Occurs(s, sub)
  {
    if |s| < |sub| {
      return false;
    }
    var i := IndexCI(s, sub);
    r := i >= 0;
  }

  method NewError(code: int, message: Bytes) returns (e: CubridError)
    ensures e == Classify(code, message)
    ensures e.code == code && e.message == message
    ensures e.kind.Integrity? <==>
      || Mentions(message, "unique") || Mentions(message, "duplicate")
      || Mentions(message, "foreign key") || Mentions(message, "constraint violation")
    ensures e.kind.Programming? <==>
      && !e.kind.Integrity?
      && (|| Mentions(message, "syntax") || Mentions(message, "unknown class")
          || Mentions(message, "does not exist") || Mentions(message, "not found"))
  {
    hide Occurs, Mentions;
    ClassifyExactly(code, message);
    for k := 0 to |INTEGRITY_KEYWORDS|
      invariant forall j | 0 <= j < k :: !Occurs(message, INTEGRITY_KEYWORDS[j])
    {
      var hit := ContainsCI(message, INTEGRITY_KEYWORDS[k]);
      if hit {
        return CubridError(Integrity, code, message);
      }
    }
    for k := 0 to |PROGRAMMING_KEYWORDS|
      invariant forall j | 0 <= j < k :: !Occurs(message, PROGRAMMING_KEYWORDS[j])
    {
      var hit := ContainsCI(message, PROGRAMMING_KEYWORDS[k]);
      if hit {
        return CubridError(Programming, code, message);
      }
    }
    return CubridError(Base, code, message);
  }
}
