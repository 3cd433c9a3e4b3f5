/** Two families of messages that the truncation loses, and the one limit to the first of them. */
module HtmlLost {
  import opened HtmlKept
  import opened HtmlLimits
  import opened Sequences
  import opened WhiteSpace

  // ---- nothing but emoji ----

  function Emojis(n: nat): Text {
    seq(n, _ => EMOJI)
  }

  lemma {:induction false} EmojiUnits(n: nat)
    ensures Utf16Len(Emojis(n)) == 2 * n
  {
    if n > 0 {
      assert Emojis(n)[1..] == Emojis(n - 1);
      EmojiUnits(n - 1);
    }
  }

  lemma EmojiPrefix(n: nat, c: nat)
    requires c <= n
    ensures Prefix(Emojis(n), c) == Emojis(c)
  {
    var t := Emojis(n);
    assert t[..c] == Emojis(c);
    assert EntityCut(t, c) == c;
    TagCutIsLargestClosed(t, c);
    assert TagClosed(t, c);
  }

  /** Past 20000 characters the first cut is scaled to half the limit, where an emoji message fits. */
  lemma EmojiFirstCut(n: nat, limit: nat)
    requires 1 < limit <= n
    ensures FirstCut(Emojis(n), limit) == if n > 20000 then limit / 2 else limit
  {
    EmojiUnits(n);
    if n > 20000 {
      HalfOf(n, limit);
    }
  }

  lemma HalfOf(n: nat, limit: nat)
    requires n > 0
    ensures n * limit / (2 * n) == limit / 2
  {
    var half := limit / 2;
    assert n * limit == n * (2 * half) + n * (limit % 2);
    assert n * (2 * half) == 2 * n * half;
    QuotientIs(n * limit, 2 * n, half);
  }

  lemma QuotientIs(x: nat, d: nat, q: nat)
    requires d * q <= x < d * q + d
    ensures x / d == q
  {
    var p := x / d;
    assert x == d * p + x % d;
    if p < q {
      TimesMonotone(d, p + 1, q);
    } else if p > q {
      TimesMonotone(d, q + 1, p);
    }
  }

  lemma TimesMonotone(d: nat, a: nat, b: nat)
    requires a <= b
    ensures d * a <= d * b
  {
  }

  /** From a limit of 7 on, a message of emoji alone is lost exactly when it has at most 20000 of them. */
  lemma AllEmojiIsLostIff(lower: Text -> Text, n: nat, limit: nat)
    requires 7 <= limit <= n
    ensures Truncated(lower, Emojis(n), limit) == [] <==> n <= 20000
  {
    var t := Emojis(n);
    var cut := FirstCut(t, limit);
    EmojiFirstCut(n, limit);
    EmojiUnits(n);
    UntaggedIsEmptyIff(lower, t, limit);
    EmojiPrefix(n, cut);
    EmojiUnits(cut);
  }

  // ---- nothing but opening tags ----

  /** `<b>`, m times. */
  function Bolds(m: nat): Text {
    seq(3 * m, i => if i % 3 == 0 then LT else if i % 3 == 1 then B else GT)
  }

  function OpenBolds(m: nat): seq<Text> {
    seq(m, _ => [B])
  }

  lemma FirstBold(m: nat)
    requires m > 0
    ensures TagAt(Bolds(m), 0) == Tag([B], Bolds(m - 1))
  {
    var t := Bolds(m);
    FindIs(t, LT, 0, |t|, 0);
    FindIs(t, GT, 0, |t|, 2);
    TagOfFinds(t, 0, 0, 2);
    assert t[1..2] == [B] && t[3..] == Bolds(m - 1);
  }

  lemma {:induction false} BoldsStayOpen(lower: Text -> Text, m: nat, stack: seq<Text>)
    requires KeepsTagNames(lower)
    ensures OpenAfter(Effect(lower), Bolds(m), stack) == stack + OpenBolds(m)
  {
    if m == 0 {
      FindIsNone(Bolds(0), LT, 0, 0);
    } else {
      FirstBold(m);
      BoldOpens(lower, stack);
      BoldsStayOpen(lower, m - 1, stack + [[B]]);
      assert stack + [[B]] + OpenBolds(m - 1) == stack + OpenBolds(m);
    }
  }

  lemma {:induction false} BoldsCost(m: nat)
    ensures ClosingUnits(OpenBolds(m)) == 4 * m
  {
    if m > 0 {
      BoldsCost(m - 1);
      BmpUnits([B]);
      ClosingPush(OpenBolds(m - 1), [B]);
      assert OpenBolds(m) == OpenBolds(m - 1) + [[B]];
    }
  }

  lemma LargestClosedIs(t: Text, cut: nat, k: nat)
    requires k <= cut <= |t| && TagClosed(t, k) && forall c :: k < c <= cut ==> !TagClosed(t, c)
    ensures TagCut(t, cut) == k
  {
    TagCutIsLargestClosed(t, cut);
  }

  /** A cut inside a tag backs up to its start. */
  lemma BoldCut(m: nat, c: nat)
    requires c <= 3 * m
    ensures TagCut(Bolds(m), c) == 3 * (c / 3)
  {
    var t, k := Bolds(m), 3 * (c / 3);
    forall i | 0 <= i < k && t[i] == LT
      ensures ClosedBefore(t, i, k)
    {
      assert t[i + 2] == GT;
    }
    forall d | k < d <= c
      ensures !TagClosed(t, d)
    {
      assert t[k] == LT && !ClosedBefore(t, k, d);
    }
    LargestClosedIs(t, c, k);
  }

  lemma BoldPrefix(m: nat, c: nat)
    requires 0 < c / 3 && c <= 3 * m
    ensures Prefix(Bolds(m), c) == Bolds(c / 3)
  {
    var t, k := Bolds(m), 3 * (c / 3);
    assert EntityCut(t, c) == c;
    BoldCut(m, c);
    var p := Bolds(c / 3);
    assert p[|p| - 1] == GT;
    assert t[..k] == p;
  }

  lemma BoldsAttempt(lower: Text -> Text, m: nat, limit: nat)
    requires KeepsTagNames(lower) && 9 <= limit < 3 * m
    ensures FirstCut(Bolds(m), limit) == limit && Utf16Len(Bolds(m)) == 3 * m
    ensures Utf16Len(Attempt(lower, Bolds(m), limit)) >= 2 * limit
  {
    var t, k := Bolds(m), limit / 3;
    BmpUnits(t);
    BmpFirstCut(t, limit);
    BoldPrefix(m, limit);
    BmpUnits(Bolds(k));
    BoldsStayOpen(lower, k, []);
    BoldsCost(k);
    assert [] + OpenBolds(k) == OpenBolds(k);
    AttemptCost(lower, t, limit);
  }

  /** A run of opening tags is lost however long it is: each, of 3 characters, brings a closing tag of 4. */
  lemma AllBoldIsLost(lower: Text -> Text, m: nat, limit: nat)
    requires KeepsTagNames(lower) && KeepsTagLengths(lower) && 9 <= limit < 3 * m
    ensures Truncated(lower, Bolds(m), limit) == []
  {
    BoldsAttempt(lower, m, limit);
    TruncationIsEmptyIff(lower, Bolds(m), limit);
  }
}
