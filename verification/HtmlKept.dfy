/**
 How much of a message the truncation keeps: when it loses everything, and when it keeps all that fits.

 An attempt costs the units of its prefix, three for the ellipsis, and those of its closing tags. Both
 results follow from how that cost grows with the cut.
 */
module HtmlKept {
  import opened HtmlLimits
  import opened Sequences
  import opened WhiteSpace

  // ---- what closing the tags costs ----

  /** The units of the closing tags. */
  function ClosingUnits(stack: seq<Text>): nat {
    Utf16Len(Closing(stack))
  }

  /**
   What is used of `str.lower`: a word that becomes the name of a paired tag has as many characters as
   that name, one unit each. (Of the other letters only the Kelvin sign becomes an ASCII letter.)
   */
  ghost predicate KeepsTagLengths(lower: Text -> Text) {
    forall w :: lower(w) in PAIRED_TAGS ==> |w| == Utf16Len(w) == Utf16Len(lower(w))
  }

  lemma PairedTagsAreBmp(n: Text)
    requires n in PAIRED_TAGS
    ensures forall i :: 0 <= i < |n| ==> n[i] < 0x1_0000
  {
  }

  /** Keeping every word as it is, as `str.lower` does with the words of lower-case messages, meets both assumptions. */
  lemma SomeLowerKeepsTags() returns (lower: Text -> Text)
    ensures KeepsTagNames(lower) && KeepsTagLengths(lower)
  {
    lower := (w: Text) => w;
    forall w | w in PAIRED_TAGS
      ensures |w| == Utf16Len(w)
    {
      PairedTagsAreBmp(w);
      BmpUnits(w);
    }
  }

  lemma {:induction false} UnitsBound(t: Text)
    ensures |t| <= Utf16Len(t) <= 2 * |t|
  {
    if t != [] {
      UnitsBound(t[1..]);
    }
  }

  lemma {:induction false} BmpUnits(t: Text)
    requires forall i :: 0 <= i < |t| ==> t[i] < 0x1_0000
    ensures Utf16Len(t) == |t|
  {
    if t != [] {
      BmpUnits(t[1..]);
    }
  }

  lemma ClosingPush(stack: seq<Text>, name: Text)
    ensures ClosingUnits(stack + [name]) == ClosingUnits(stack) + Utf16Len(name) + 3
  {
    var more := stack + [name];
    assert more[..|more| - 1] == stack;
    assert Closing(more) == CloseTag(name) + Closing(stack);
    Utf16LenConcat(CloseTag(name), Closing(stack));
    Utf16LenConcat([LT, SLASH], name);
    Utf16LenConcat([LT, SLASH] + name, [GT]);
    BmpUnits([LT, SLASH]);
    BmpUnits([GT]);
  }

  /** A closing tag saves at most its own cost. */
  lemma {:induction false} ClosingPop(stack: seq<Text>, name: Text)
    ensures ClosingUnits(Close(stack, name)) <= ClosingUnits(stack)
    ensures ClosingUnits(stack) <= ClosingUnits(Close(stack, name)) + if name in stack then Utf16Len(name) + 3 else 0
  {
    if stack != [] {
      var init, last := stack[..|stack| - 1], stack[|stack| - 1];
      assert stack == init + [last];
      ClosingPush(init, last);
      if last != name {
        ClosingPop(init, name);
        ClosingPush(Close(init, name), last);
      }
    }
  }

  // ---- what one tag costs ----

  lemma {:induction false} LStripIsSuffix(t: Text) returns (front: Text)
    ensures t == front + LStrip(t)
  {
    front := [];
    if t != [] && IsSpace(t[0]) {
      front := LStripIsSuffix(t[1..]);
      front := [t[0]] + front;
      assert t == [t[0]] + t[1..];
    }
  }

  lemma {:induction false} UntilSpaceIsPrefix(t: Text)
    ensures UntilSpace(t) <= t
  {
    if t != [] && !IsSpace(t[0]) {
      UntilSpaceIsPrefix(t[1..]);
    }
  }

  lemma SplitSuffix(t: Text, front: Text, suffix: Text, word: Text)
    requires t == front + suffix && word <= suffix
    ensures t == front + word + suffix[|word|..]
  {
    assert suffix == word + suffix[|word|..];
    Associative(front, word, suffix[|word|..]);
  }

  lemma WordIsInside(t: Text) returns (front: Text, back: Text)
    ensures t == front + FirstWord(t) + back
  {
    var suffix, word := LStrip(t), FirstWord(t);
    front := LStripIsSuffix(t);
    UntilSpaceIsPrefix(suffix);
    back := suffix[|word|..];
    SplitSuffix(t, front, suffix, word);
  }

  /** A part of a text costs no more than the whole, and the rest at most two units a character. */
  lemma PartUnits(front: Text, part: Text, back: Text)
    ensures var t := front + part + back;
            Utf16Len(part) <= Utf16Len(t) <= Utf16Len(part) + 2 * (|t| - |part|)
  {
    Utf16LenConcat(front + part, back);
    Utf16LenConcat(front, part);
    UnitsBound(front);
    UnitsBound(back);
  }

  /** The tag between the brackets, as the scan strips it. */
  lemma StrippedIsInside(raw: Text) returns (front: Text, back: Text)
    ensures raw == front + LStrip(RStrip(raw)) + back
  {
    front := LStripIsSuffix(RStrip(raw));
    back := raw[|RStrip(raw)|..];
    assert raw == RStrip(raw) + back;
  }

  /** A tag text costs at least what it saves, and with what it adds at most seven units for three characters. */
  ghost predicate TagBounds(raw: Text, before: nat, after: nat) {
    && after + Utf16Len(raw) + 2 >= before
    && 3 * (after + Utf16Len(raw) + 2) <= 7 * (|raw| + 2) + 3 * before
  }

  lemma OpeningBounds(raw: Text, tag: Text, front: Text, back: Text, name: Text, before: nat)
    requires tag != [] && raw == front + tag + back
    requires |FirstWord(tag)| == Utf16Len(FirstWord(tag)) == Utf16Len(name)
    ensures TagBounds(raw, before, before + Utf16Len(name) + 3)
  {
    var f, b := WordIsInside(tag);
    PartUnits(f, FirstWord(tag), b);
    PartUnits(front, tag, back);
  }

  lemma ClosingBounds(raw: Text, tag: Text, front: Text, back: Text, saved: nat, before: nat, after: nat)
    requires tag != [] && raw == front + tag + back && after <= before <= after + saved
    requires saved == 0 || saved == Utf16Len(FirstWord(tag[1..])) + 3
    ensures TagBounds(raw, before, after)
  {
    var f, b := WordIsInside(tag[1..]);
    PartUnits(f, FirstWord(tag[1..]), b);
    Utf16LenConcat([tag[0]], tag[1..]);
    assert tag == [tag[0]] + tag[1..];
    UnitsBound([tag[0]]);
    PartUnits(front, tag, back);
    UnitsBound(raw);
  }

  lemma OneTagBounds(lower: Text -> Text, raw: Text, stack: seq<Text>)
    requires KeepsTagLengths(lower) && AllPaired(stack)
    ensures TagBounds(raw, ClosingUnits(stack), ClosingUnits(ApplyTag(lower, LStrip(RStrip(raw)), stack)))
  {
    var tag := LStrip(RStrip(raw));
    var front, back := StrippedIsInside(raw);
    UnitsBound(raw);
    if tag != [] && tag[0] == SLASH {
      var word := FirstWord(tag[1..]);
      var name := lower(word);
      ClosingPop(stack, name);
      if word != [] {
        assert name in stack ==> name in PAIRED_TAGS;
        ClosingBounds(
          raw, tag, front, back, if name in stack then Utf16Len(name) + 3 else 0,
          ClosingUnits(stack), ClosingUnits(Close(stack, name)));
      }
    } else if tag != [] {
      var name := lower(FirstWord(tag));
      if name in PAIRED_TAGS {
        ClosingPush(stack, name);
        OpeningBounds(raw, tag, front, back, name, ClosingUnits(stack));
      }
    }
  }

  // ---- what a whole text costs ----

  ghost predicate Bounded(effect: TagEffect) {
    forall raw, stack :: AllPaired(stack) ==>
      AllPaired(effect(raw, stack)) && TagBounds(raw, ClosingUnits(stack), ClosingUnits(effect(raw, stack)))
  }

  lemma EffectIsBounded(lower: Text -> Text)
    requires KeepsTagLengths(lower)
    ensures Bounded(Effect(lower))
  {
    forall raw, stack | AllPaired(stack)
      ensures AllPaired(ApplyTag(lower, LStrip(RStrip(raw)), stack))
      ensures TagBounds(raw, ClosingUnits(stack), ClosingUnits(ApplyTag(lower, LStrip(RStrip(raw)), stack)))
    {
      ApplyTagKeepsPaired(lower, LStrip(RStrip(raw)), stack);
      OneTagBounds(lower, raw, stack);
    }
  }

  lemma UnitsAround(t: Text, i: nat)
    requires i < |t| && t[i] < 0x1_0000
    ensures Utf16Len(t) == Utf16Len(t[..i]) + 1 + Utf16Len(t[i + 1..])
  {
    assert t == t[..i] + t[i..];
    Utf16LenConcat(t[..i], t[i..]);
    assert t[i..][1..] == t[i + 1..];
  }

  lemma PiecesUnits(t: Text, lt: nat, gt: nat)
    requires lt < gt < |t| && t[lt] == LT && t[gt] == GT
    ensures Utf16Len(t) == Utf16Len(t[..lt]) + Utf16Len(t[lt + 1..gt]) + 2 + Utf16Len(t[gt + 1..])
  {
    UnitsAround(t, gt);
    UnitsAround(t[..gt], lt);
    assert t[..gt][..lt] == t[..lt] && t[..gt][lt + 1..] == t[lt + 1..gt];
  }

  lemma TagPieces(t: Text) returns (front: Text)
    requires TagAt(t, 0).Tag?
    ensures var tag := TagAt(t, 0);
            && Utf16Len(t) == Utf16Len(front) + Utf16Len(tag.raw) + 2 + Utf16Len(tag.rest)
            && |t| == |front| + |tag.raw| + 2 + |tag.rest|
  {
    var lt := Find(t, LT, 0, |t|);
    var gt := Find(t, GT, lt, |t|);
    front := t[..lt];
    assert t[lt] != GT;
    PiecesUnits(t, lt, gt);
  }

  /** A text with the closing tags it leaves: no cheaper than those open before, and at most 7/3 units a character. */
  lemma {:induction false} ScanBounds(effect: TagEffect, t: Text, stack: seq<Text>)
    requires Bounded(effect) && AllPaired(stack)
    ensures var after := ClosingUnits(OpenAfter(effect, t, stack));
            && after + Utf16Len(t) >= ClosingUnits(stack)
            && 3 * (after + Utf16Len(t)) <= 7 * |t| + 3 * ClosingUnits(stack)
    decreases |t|
  {
    UnitsBound(t);
    var tag := TagAt(t, 0);
    if tag.Tag? {
      var front := TagPieces(t);
      UnitsBound(front);
      assert TagBounds(tag.raw, ClosingUnits(stack), ClosingUnits(effect(tag.raw, stack)));
      ScanBounds(effect, tag.rest, effect(tag.raw, stack));
    }
  }

  // ---- what an attempt costs ----

  function Cost(effect: TagEffect, p: Text): nat {
    Utf16Len(p) + ClosingUnits(OpenAfter(effect, p, []))
  }

  lemma AttemptCost(lower: Text -> Text, t: Text, cut: nat)
    ensures Utf16Len(Attempt(lower, t, cut)) == Cost(Effect(lower), Prefix(t, cut)) + 3
    ensures |Attempt(lower, t, cut)| > 0
  {
    var p := Prefix(t, cut);
    var closing := Closing(OpenAfter(Effect(lower), p, []));
    Utf16LenConcat(p + ELLIPSIS, closing);
    Utf16LenConcat(p, ELLIPSIS);
    BmpUnits(ELLIPSIS);
  }

  lemma {:induction false} RStripMonotone(a: Text, b: Text)
    requires a <= b
    ensures RStrip(a) <= RStrip(b)
    decreases |a|
  {
    if a != [] {
      if IsSpace(a[|a| - 1]) {
        RStripMonotone(a[..|a| - 1], b);
      } else {
        RStripKeeps(b, |a| - 1);
      }
    }
  }

  lemma EntityCutMonotone(t: Text, c: nat, d: nat)
    requires c <= d <= |t|
    ensures EntityCut(t, c) <= EntityCut(t, d)
  {
    var lo := if d < MAX_ENTITY_LEN then 0 else d - MAX_ENTITY_LEN;
    var amp := RFind(t, AMP, lo, d);
    if EntityCut(t, d) < c {
      assert amp != -1 && EntityCut(t, d) == amp;
      RFindIsLast(t, AMP, lo, d);
      FindIsFirst(t, SEMICOLON, amp, d);
      var lo' := if c < MAX_ENTITY_LEN then 0 else c - MAX_ENTITY_LEN;
      RFindIsLast(t, AMP, lo', c);
      FindIsNone(t, SEMICOLON, amp, c);
      assert RFind(t, AMP, lo', c) == amp;
    }
  }

  lemma SafeCutMonotone(t: Text, c: nat, d: nat)
    requires c <= d
    ensures SafeCut(t, c) <= SafeCut(t, d)
  {
    var x, y := EntityCut(t, Min(c, |t|)), EntityCut(t, Min(d, |t|));
    EntityCutMonotone(t, Min(c, |t|), Min(d, |t|));
    TagCutIsLargestClosed(t, x);
    TagCutIsLargestClosed(t, y);
  }

  /** A larger cut keeps at least as much. */
  lemma PrefixMonotone(t: Text, c: nat, d: nat)
    requires c <= d
    ensures Prefix(t, c) <= Prefix(t, d)
  {
    SafeCutMonotone(t, c, d);
    assert t[..SafeCut(t, c)] <= t[..SafeCut(t, d)];
    RStripMonotone(t[..SafeCut(t, c)], t[..SafeCut(t, d)]);
  }

  /** A larger cut costs at least as much: a closing tag in the text saves no more than it takes. */
  lemma CostMonotone(effect: TagEffect, t: Text, c: nat, d: nat)
    requires Bounded(effect) && c <= d
    ensures Cost(effect, Prefix(t, c)) <= Cost(effect, Prefix(t, d))
  {
    PrefixMonotone(t, c, d);
    PrefixIsClosed(t, c);
    var a, b := Prefix(t, c), Prefix(t, d)[|Prefix(t, c)|..];
    assert Prefix(t, d) == a + b;
    OpenAfterConcat(effect, a, b, []);
    Utf16LenConcat(a, b);
    AllPairedAfter(effect, a, []);
    ScanBounds(effect, b, OpenAfter(effect, a, []));
  }

  lemma {:induction false} AllPairedAfter(effect: TagEffect, t: Text, stack: seq<Text>)
    requires Bounded(effect) && AllPaired(stack)
    ensures AllPaired(OpenAfter(effect, t, stack))
    decreases |t|
  {
    var tag := TagAt(t, 0);
    if tag.Tag? {
      AllPairedAfter(effect, tag.rest, effect(tag.raw, stack));
    }
  }

  lemma CostBound(effect: TagEffect, t: Text, c: nat)
    requires Bounded(effect)
    ensures 3 * Cost(effect, Prefix(t, c)) <= 7 * c
  {
    ScanBounds(effect, Prefix(t, c), []);
    assert |Prefix(t, c)| <= c;
  }

  // ---- when everything is lost ----

  /**
   Attempts whose cost grows with the cut and is never so high at a cut up to half the limit that the
   next step would pass zero.
   */
  ghost predicate Steady(attempt: nat -> Text, limit: nat) {
    && (forall c: nat :: |attempt(c)| > 0)
    && (forall c: nat, d: nat :: c <= d ==> Utf16Len(attempt(c)) <= Utf16Len(attempt(d)))
    && (forall c: nat :: 1 <= c && 2 * c <= limit ==> Utf16Len(attempt(c)) < limit + c)
  }

  lemma {:induction false} ShrinkKeepsSome(attempt: nat -> Text, limit: nat, cut: nat)
    requires cut > 0 && (forall c: nat :: |attempt(c)| > 0)
    requires forall c: nat :: 1 <= c <= cut ==> Utf16Len(attempt(c)) < limit + c
    ensures |Shrink(attempt, limit, cut)| > 0
    decreases cut
  {
    var over := Utf16Len(attempt(cut)) - limit;
    if over > 0 {
      ShrinkKeepsSome(attempt, limit, cut - over);
    }
  }

  /** The shrinking ends empty exactly when its first step passes zero; no later one does. */
  lemma ShrinkIsEmptyIff(attempt: nat -> Text, limit: nat, cut: nat)
    requires Steady(attempt, limit) && 1 <= cut <= limit
    ensures Shrink(attempt, limit, cut) == [] <==> Utf16Len(attempt(cut)) >= limit + cut
  {
    var cost := Utf16Len(attempt(cut));
    assert |attempt(cut)| > 0;
    if limit < cost < limit + cut {
      var next := cut - (cost - limit);
      forall c: nat | 1 <= c <= next
        ensures Utf16Len(attempt(c)) < limit + c
      {
        assert Utf16Len(attempt(c)) <= cost;
      }
      ShrinkKeepsSome(attempt, limit, next);
    }
  }

  lemma AttemptIsCheap(attempts: nat -> Text, lower: Text -> Text, t: Text, limit: nat, c: nat)
    requires AreAttempts(attempts, lower, t) && Bounded(Effect(lower)) && limit >= 9
    ensures |attempts(c)| > 0 && (1 <= c && 2 * c <= limit ==> Utf16Len(attempts(c)) < limit + c)
  {
    assert attempts(c) == Attempt(lower, t, c);
    AttemptCost(lower, t, c);
    CostBound(Effect(lower), t, c);
  }

  lemma AttemptsGrow(attempts: nat -> Text, lower: Text -> Text, t: Text, c: nat, d: nat)
    requires AreAttempts(attempts, lower, t) && Bounded(Effect(lower)) && c <= d
    ensures Utf16Len(attempts(c)) <= Utf16Len(attempts(d))
  {
    assert attempts(c) == Attempt(lower, t, c) && attempts(d) == Attempt(lower, t, d);
    AttemptCost(lower, t, c);
    AttemptCost(lower, t, d);
    CostMonotone(Effect(lower), t, c, d);
  }

  lemma AttemptsAreSteady(attempts: nat -> Text, lower: Text -> Text, t: Text, limit: nat)
    requires AreAttempts(attempts, lower, t) && KeepsTagLengths(lower) && limit >= 9
    ensures Steady(attempts, limit)
  {
    EffectIsBounded(lower);
    forall c: nat
      ensures |attempts(c)| > 0 && (1 <= c && 2 * c <= limit ==> Utf16Len(attempts(c)) < limit + c)
    {
      AttemptIsCheap(attempts, lower, t, limit, c);
    }
    forall c: nat, d: nat | c <= d
      ensures Utf16Len(attempts(c)) <= Utf16Len(attempts(d))
    {
      AttemptsGrow(attempts, lower, t, c, d);
    }
  }

  lemma FirstCutInRange(t: Text, limit: nat)
    requires limit >= 1
    ensures 1 <= FirstCut(t, limit) <= limit
  {
  }

  /**
   The shrinking steps back by the overflow in units, and a step that passes zero loses the whole
   message. For every message, whatever tags, entities, white space and characters it holds, that
   happens exactly when the first attempt costs its cut more than the limit; for messages of up to 20000
   characters, where the first cut is the limit, when that attempt costs twice the limit or more.
   */
  lemma TruncationIsEmptyIff(lower: Text -> Text, t: Text, limit: nat)
    requires KeepsTagLengths(lower) && limit >= 9 && Utf16Len(t) > limit
    ensures Truncated(lower, t, limit) == [] <==>
            Utf16Len(Attempt(lower, t, FirstCut(t, limit))) >= limit + FirstCut(t, limit)
    ensures |t| <= 20000 ==> FirstCut(t, limit) == limit
  {
    FirstCutInRange(t, limit);
    AttemptsAreSteady(Attempts(lower, t), lower, t, limit);
    ShrinkIsEmptyIff(Attempts(lower, t), limit, FirstCut(t, limit));
  }

  // ---- why the limit is at least 9 ----

  const B: CodePoint := 0x62
  const EMOJI: CodePoint := 0x1F600

  /** `<b>` and an emoji, which the message below closes again. */
  const OPENED: Text := [LT, B, GT, EMOJI]

  lemma OpenedLeavesB(lower: Text -> Text)
    requires KeepsTagNames(lower)
    ensures TagClosed(OPENED, 4) && OpenAfter(Effect(lower), OPENED, []) == [[B]]
  {
    var name: Text := [B];
    assert OPENED[2] == GT && ClosedBefore(OPENED, 0, 4);
    FindIs(OPENED, LT, 0, 4, 0);
    FindIs(OPENED, GT, 0, 4, 2);
    TagOfFinds(OPENED, 0, 0, 2);
    assert OPENED[1..2] == name && OPENED[3..] == [EMOJI];
    BoldOpens(lower, []);
    FindIsNone([EMOJI], LT, 0, 1);
  }

  /** `<b>` leaves one more tag open. */
  lemma BoldOpens(lower: Text -> Text, stack: seq<Text>)
    requires KeepsTagNames(lower)
    ensures Effect(lower)([B], stack) == stack + [[B]]
  {
    var name: Text := [B];
    assert Chars("b") == name && name in PAIRED_TAGS;
    UntilSpaceOfName(name);
    NothingToStrip(name);
    assert name !in SELF_CLOSING_TAGS by {
      assert |Chars("br")| == 2 && |Chars("hr")| == 2;
    }
  }

  lemma ClosedLeavesNothing(lower: Text -> Text)
    requires KeepsTagNames(lower)
    ensures OpenAfter(Effect(lower), OPENED + CloseTag([B]), []) == []
  {
    OpenedLeavesB(lower);
    OpenAfterConcat(Effect(lower), OPENED, CloseTag([B]), []);
    assert Chars("b") == [B];
    CloseTagPops(lower, [[B]], []);
    assert CloseTag([B]) + [] == CloseTag([B]);
    FindIsNone([], LT, 0, 0);
  }

  lemma CutAtClosed(t: Text, c: nat)
    requires c <= |t| && c > 0 && TagClosed(t, c) && !IsSpace(t[c - 1]) && forall i :: 0 <= i < |t| ==> t[i] != AMP
    ensures Prefix(t, c) == t[..c]
  {
    assert EntityCut(t, c) == c;
    TagCutIsLargestClosed(t, c);
    assert t[..c][|t[..c]| - 1] == t[c - 1];
  }

  lemma SmallPrefixes()
    ensures var t := OPENED + CloseTag([B]); |t| == 8 && Prefix(t, 4) == OPENED && Prefix(t, 8) == t
  {
    var t := OPENED + CloseTag([B]);
    assert t == [LT, B, GT, EMOJI, LT, SLASH, B, GT];
    assert ClosedBefore(t, 0, 4) && ClosedBefore(t, 0, 8) by {
      assert t[2] == GT;
    }
    assert ClosedBefore(t, 4, 8) by {
      assert t[7] == GT;
    }
    CutAtClosed(t, 4);
    CutAtClosed(t, 8);
    assert t[..4] == OPENED && t[..8] == t;
  }

  lemma SmallCosts(lower: Text -> Text, attempts: nat -> Text)
    requires KeepsTagNames(lower) && AreAttempts(attempts, lower, OPENED + CloseTag([B]))
    ensures Utf16Len(attempts(8)) == 12 && Utf16Len(attempts(4)) == 12
  {
    var t := OPENED + CloseTag([B]);
    SmallPrefixes();
    OpenedLeavesB(lower);
    ClosedLeavesNothing(lower);
    SmallUnits();
    assert attempts(8) == Attempt(lower, t, 8) && attempts(4) == Attempt(lower, t, 4);
    AttemptCost(lower, t, 8);
    AttemptCost(lower, t, 4);
  }

  lemma TwoStepsToNothing(attempts: nat -> Text)
    requires Utf16Len(attempts(8)) == 12 && Utf16Len(attempts(4)) == 12
    ensures Shrink(attempts, 8, 8) == []
  {
    ShrinkStep(attempts, 8, 8, 4);
    ShrinkStep(attempts, 8, 4, 4);
  }

  /** Below 9 a second step may pass zero: at 8 a bold emoji is lost, though its first attempt costs only 12. */
  lemma SmallLimitLosesMore(lower: Text -> Text)
    requires KeepsTagNames(lower)
    ensures var t := OPENED + CloseTag([B]);
            && Utf16Len(t) == 9 && FirstCut(t, 8) == 8
            && Utf16Len(Attempts(lower, t)(8)) == 12 && Truncated(lower, t, 8) == []
  {
    var attempts := Attempts(lower, OPENED + CloseTag([B]));
    SmallUnits();
    SmallPrefixes();
    SmallCosts(lower, attempts);
    TwoStepsToNothing(attempts);
  }

  lemma SmallUnits()
    ensures Utf16Len(OPENED) == 5 && Utf16Len(OPENED + CloseTag([B])) == 9
    ensures ClosingUnits([[B]]) == 4 && ClosingUnits([]) == 0
  {
    Utf16LenConcat([LT, B, GT], [EMOJI]);
    assert OPENED == [LT, B, GT] + [EMOJI];
    BmpUnits([LT, B, GT]);
    assert |[EMOJI][1..]| == 0;
    Utf16LenConcat(OPENED, CloseTag([B]));
    BmpUnits(CloseTag([B]));
    ClosingPush([], [B]);
    BmpUnits([B]);
    assert [] + [[B]] == [[B]];
  }

  // ---- without tags ----

  predicate Untagged(t: Text) {
    forall i :: 0 <= i < |t| ==> t[i] != LT
  }

  lemma UntaggedAttempt(lower: Text -> Text, t: Text, cut: nat)
    requires Untagged(t)
    ensures Attempt(lower, t, cut) == Prefix(t, cut) + ELLIPSIS
    ensures Utf16Len(Attempt(lower, t, cut)) == Utf16Len(Prefix(t, cut)) + 3
  {
    var p := Prefix(t, cut);
    FindIsNone(p, LT, 0, |p|);
    assert OpenAfter(Effect(lower), p, []) == [];
    assert p + ELLIPSIS + [] == p + ELLIPSIS;
    Utf16LenConcat(p, ELLIPSIS);
    BmpUnits(ELLIPSIS);
  }

  lemma UntaggedIsCheap(attempts: nat -> Text, lower: Text -> Text, t: Text, limit: nat, c: nat)
    requires AreAttempts(attempts, lower, t) && Untagged(t) && limit >= 7
    ensures |attempts(c)| > 0 && (1 <= c && 2 * c <= limit ==> Utf16Len(attempts(c)) < limit + c)
  {
    assert attempts(c) == Attempt(lower, t, c);
    UntaggedAttempt(lower, t, c);
    UnitsBound(Prefix(t, c));
    assert |Prefix(t, c)| <= c;
  }

  lemma UntaggedGrow(attempts: nat -> Text, lower: Text -> Text, t: Text, c: nat, d: nat)
    requires AreAttempts(attempts, lower, t) && Untagged(t) && c <= d
    ensures Utf16Len(attempts(c)) <= Utf16Len(attempts(d))
  {
    assert attempts(c) == Attempt(lower, t, c) && attempts(d) == Attempt(lower, t, d);
    UntaggedAttempt(lower, t, c);
    UntaggedAttempt(lower, t, d);
    PrefixMonotone(t, c, d);
    PrefixUnits(Prefix(t, c), Prefix(t, d));
  }

  lemma PrefixUnits(a: Text, b: Text)
    requires a <= b
    ensures Utf16Len(a) <= Utf16Len(b)
  {
    assert b == a + b[|a|..];
    Utf16LenConcat(a, b[|a|..]);
  }

  lemma UntaggedAreSteady(attempts: nat -> Text, lower: Text -> Text, t: Text, limit: nat)
    requires AreAttempts(attempts, lower, t) && Untagged(t) && limit >= 7
    ensures Steady(attempts, limit)
  {
    forall c: nat
      ensures |attempts(c)| > 0 && (1 <= c && 2 * c <= limit ==> Utf16Len(attempts(c)) < limit + c)
    {
      UntaggedIsCheap(attempts, lower, t, limit, c);
    }
    forall c: nat, d: nat | c <= d
      ensures Utf16Len(attempts(c)) <= Utf16Len(attempts(d))
    {
      UntaggedGrow(attempts, lower, t, c, d);
    }
  }

  /**
   Without tags it is the text of the first cut that decides: up to 20000 characters, everything is lost
   exactly when that text takes 2 * limit - 3 units or more, say because it is all emoji.
   */
  lemma UntaggedIsEmptyIff(lower: Text -> Text, t: Text, limit: nat)
    requires Untagged(t) && limit >= 7 && Utf16Len(t) > limit
    ensures Truncated(lower, t, limit) == [] <==>
            Utf16Len(Prefix(t, FirstCut(t, limit))) + 3 >= limit + FirstCut(t, limit)
  {
    var cut := FirstCut(t, limit);
    FirstCutInRange(t, limit);
    UntaggedAreSteady(Attempts(lower, t), lower, t, limit);
    ShrinkIsEmptyIff(Attempts(lower, t), limit, cut);
    UntaggedAttempt(lower, t, cut);
  }

  // ---- when all that fits is kept ----

  predicate Bmp(t: Text) {
    forall i :: 0 <= i < |t| ==> t[i] < 0x1_0000
  }

  lemma SmallMultiple(n: nat, d: int)
    requires 0 <= n * d < n
    ensures d == 0
  {
  }

  lemma ScaledCut(n: nat, limit: nat)
    requires n > 0
    ensures n * limit / n == limit
  {
    var q := n * limit / n;
    assert n * limit == n * q + n * limit % n;
    assert n * (limit - q) == n * limit - n * q;
    SmallMultiple(n, limit - q);
  }

  lemma BmpFirstCut(t: Text, limit: nat)
    requires Bmp(t) && 1 <= limit < |t|
    ensures FirstCut(t, limit) == limit
  {
    BmpUnits(t);
    ScaledCut(|t|, limit);
  }

  /** With short entities the prefix of a cut is its own prefix. */
  lemma PrefixIsStable(t: Text, c: nat)
    requires ShortEntities(t)
    ensures Prefix(t, |Prefix(t, c)|) == Prefix(t, c) == t[..|Prefix(t, c)|]
  {
    var p := Prefix(t, c);
    var m := |p|;
    assert p == t[..m];
    PrefixIsClosed(t, c);
    ClosedInWhole(t, m);
    EntityCutKeeps(t, c);
    TagCutIsLargestClosed(t, m);
    RStripTwice(t[..SafeCut(t, c)]);
    assert SafeCut(t, m) == m;
  }

  lemma ClosedInWhole(t: Text, m: nat)
    requires m <= |t| && TagClosed(t[..m], m)
    ensures TagClosed(t, m)
  {
    forall i | 0 <= i < m && t[i] == LT
      ensures ClosedBefore(t, i, m)
    {
      assert t[..m][i] == LT && ClosedBefore(t[..m], i, m);
    }
  }

  lemma {:induction false} RStripTwice(t: Text)
    ensures RStrip(RStrip(t)) == RStrip(t)
  {
    if t != [] && IsSpace(t[|t| - 1]) {
      RStripTwice(t[..|t| - 1]);
    }
  }

  lemma EntityCutKeeps(t: Text, c: nat)
    requires ShortEntities(t)
    ensures EntityCut(t, |Prefix(t, c)|) == |Prefix(t, c)|
  {
    var m := |Prefix(t, c)|;
    var lo := if m < MAX_ENTITY_LEN then 0 else m - MAX_ENTITY_LEN;
    var amp := RFind(t, AMP, lo, m);
    if amp != -1 {
      var e: nat :| e <= amp + MAX_ENTITY_LEN && Entity(t, amp, e);
      PrefixAvoidsEntity(t, c, amp, e);
      FindIsFirst(t, SEMICOLON, amp, m);
      assert t[e - 1] == SEMICOLON;
    }
  }

  /** While no step passes m, the shrinking ends at m or above it. */
  lemma {:induction false} ShrinkStaysAbove(attempt: nat -> Text, limit: nat, cut: nat, m: nat) returns (c: nat)
    requires 1 <= m <= cut
    requires forall d: nat :: m <= d <= cut ==> Utf16Len(attempt(d)) - limit <= d - m
    ensures m <= c <= cut && Shrink(attempt, limit, cut) == attempt(c)
    decreases cut
  {
    var over := Utf16Len(attempt(cut)) - limit;
    if over <= 0 {
      c := cut;
    } else {
      c := ShrinkStaysAbove(attempt, limit, cut - over, m);
    }
  }

  /** The units of the tags that a cut leaves open. */
  function OpenUnits(lower: Text -> Text, t: Text, cut: nat): nat {
    ClosingUnits(OpenAfter(Effect(lower), Prefix(t, cut), []))
  }

  lemma CostOfCut(attempts: nat -> Text, lower: Text -> Text, t: Text, c: nat)
    requires AreAttempts(attempts, lower, t) && Bmp(t)
    ensures Utf16Len(attempts(c)) == |Prefix(t, c)| + OpenUnits(lower, t, c) + 3 && |Prefix(t, c)| <= c
  {
    assert attempts(c) == Attempt(lower, t, c);
    AttemptCost(lower, t, c);
    BmpUnits(Prefix(t, c));
  }

  lemma StepsStayAbove(attempts: nat -> Text, lower: Text -> Text, t: Text, limit: nat, m: nat) returns (cut: nat)
    requires AreAttempts(attempts, lower, t) && Bmp(t) && 1 <= m <= limit
    requires forall d :: m <= d <= limit ==> m + OpenUnits(lower, t, d) + 3 <= limit
    ensures m <= cut <= limit && Shrink(attempts, limit, limit) == attempts(cut)
  {
    forall d: nat | m <= d <= limit
      ensures Utf16Len(attempts(d)) - limit <= d - m
    {
      CostOfCut(attempts, lower, t, d);
      assert m + OpenUnits(lower, t, d) + 3 <= limit;
    }
    cut := ShrinkStaysAbove(attempts, limit, limit, m);
  }

  /**
   Inside the BMP and with short entities, a cut that fits is never passed over, in whatever tagged text,
   unless more is open at some larger cut: what it keeps, the result keeps.
   */
  lemma FittingCutIsKept(lower: Text -> Text, t: Text, limit: nat, c: nat) returns (cut: nat)
    requires Bmp(t) && ShortEntities(t) && limit < |t| && Prefix(t, c) != []
    requires Utf16Len(Attempt(lower, t, c)) <= limit
    requires forall d :: |Prefix(t, c)| <= d <= limit ==> OpenUnits(lower, t, d) <= OpenUnits(lower, t, c)
    ensures Truncated(lower, t, limit) == Attempt(lower, t, cut) && Prefix(t, c) <= Prefix(t, cut)
  {
    var m := |Prefix(t, c)|;
    CostOfCut(Attempts(lower, t), lower, t, c);
    BmpUnits(t);
    BmpFirstCut(t, limit);
    cut := StepsStayAbove(Attempts(lower, t), lower, t, limit, m);
    PrefixIsStable(t, c);
    PrefixMonotone(t, m, cut);
  }

  lemma UntaggedOpensNothing(lower: Text -> Text, t: Text, cut: nat)
    requires Untagged(t)
    ensures OpenUnits(lower, t, cut) == 0
  {
    var p := Prefix(t, cut);
    FindIsNone(p, LT, 0, |p|);
    assert OpenAfter(Effect(lower), p, []) == [];
  }

  /**
   Inside the BMP and without tags the result is the longest that fits, among all cuts, whatever white
   space and short entities the text holds.
   */
  lemma BmpTruncationIsMaximal(lower: Text -> Text, t: Text, limit: nat) returns (cut: nat)
    requires Bmp(t) && Untagged(t) && ShortEntities(t) && 4 <= limit < |t|
    ensures Truncated(lower, t, limit) == Prefix(t, cut) + ELLIPSIS
    ensures forall c: nat :: Utf16Len(Attempt(lower, t, c)) <= limit ==> Prefix(t, c) <= Prefix(t, cut)
  {
    forall d
      ensures OpenUnits(lower, t, d) == 0
    {
      UntaggedOpensNothing(lower, t, d);
    }
    BmpUnits(t);
    BmpFirstCut(t, limit);
    cut := StepsStayAbove(Attempts(lower, t), lower, t, limit, limit - 3);
    UntaggedAttempt(lower, t, cut);
    forall c: nat | Utf16Len(Attempt(lower, t, c)) <= limit
      ensures Prefix(t, c) <= Prefix(t, cut)
    {
      CostOfCut(Attempts(lower, t), lower, t, c);
      PrefixIsStable(t, c);
      PrefixMonotone(t, |Prefix(t, c)|, cut);
    }
  }
}
