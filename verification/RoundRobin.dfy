/**
 Taking one item per bucket in repeated rounds. A slot is a pair (round, bucket); the loop fills
 slots in lexicographic order, leaving out those whose bucket is too short.
 */
module RoundRobin {
  import opened Sequences

  // ---- the items, round by round ----

  /** The items of one round, from the first n buckets. */
  function RoundItems<T>(buckets: seq<seq<T>>, round: nat, n: nat): seq<T>
    requires n <= |buckets|
  {
    if n == 0 then []
    else RoundItems(buckets, round, n - 1) + if round < |buckets[n - 1]| then [buckets[n - 1][round]] else []
  }

  /** What the first rounds bring, one after another. */
  function Rounds<X>(round: nat -> seq<X>, rounds: nat): seq<X> {
    if rounds == 0 then [] else Rounds(round, rounds - 1) + round(rounds - 1)
  }

  lemma {:induction false} RoundsSameCount<X, Y>(f: nat -> seq<X>, g: nat -> seq<Y>, rounds: nat)
    requires forall r :: |f(r)| == |g(r)|
    ensures |Rounds(f, rounds)| == |Rounds(g, rounds)|
  {
    if rounds > 0 {
      RoundsSameCount(f, g, rounds - 1);
    }
  }

  /** The items of the first rounds. */
  function ItemsUpTo<T>(buckets: seq<seq<T>>, rounds: nat): seq<T> {
    Rounds((r: nat) => RoundItems(buckets, r, |buckets|), rounds)
  }

  function MaxLen<T>(buckets: seq<seq<T>>): nat {
    if buckets == [] then 0
    else
      var m := MaxLen(buckets[..|buckets| - 1]);
      if |buckets[|buckets| - 1]| > m then |buckets[|buckets| - 1]| else m
  }

  lemma {:induction false} MaxLenBounds<T>(buckets: seq<seq<T>>, c: nat)
    requires c < |buckets|
    ensures |buckets[c]| <= MaxLen(buckets)
  {
    if c < |buckets| - 1 {
      MaxLenBounds(buckets[..|buckets| - 1], c);
    }
  }

  lemma {:induction false} MaxLenIsLeast<T>(buckets: seq<seq<T>>, m: nat)
    requires forall c :: 0 <= c < |buckets| ==> |buckets[c]| <= m
    ensures MaxLen(buckets) <= m
  {
    if buckets != [] {
      MaxLenIsLeast(buckets[..|buckets| - 1], m);
    }
  }

  /** The first max items in (round, bucket) order. */
  function FirstItems<T>(buckets: seq<seq<T>>, max: nat): seq<T> {
    Take(ItemsUpTo(buckets, MaxLen(buckets)), max)
  }

  // ---- the slots of the items ----

  type Slot = (nat, nat)

  predicate Before(a: Slot, b: Slot) {
    a.0 < b.0 || (a.0 == b.0 && a.1 < b.1)
  }

  predicate Filled<T>(buckets: seq<seq<T>>, s: Slot) {
    s.1 < |buckets| && s.0 < |buckets[s.1]|
  }

  /** The slots of one round, for the first n buckets. */
  function RoundSlots<T>(buckets: seq<seq<T>>, round: nat, n: nat): seq<Slot>
    requires n <= |buckets|
  {
    if n == 0 then []
    else RoundSlots(buckets, round, n - 1) + if round < |buckets[n - 1]| then [(round, n - 1)] else []
  }

  /** The slots of the first rounds. */
  function SlotsUpTo<T>(buckets: seq<seq<T>>, rounds: nat): seq<Slot> {
    Rounds((r: nat) => RoundSlots(buckets, r, |buckets|), rounds)
  }

  /** All the slots, in order. */
  function Slots<T>(buckets: seq<seq<T>>): seq<Slot> {
    SlotsUpTo(buckets, MaxLen(buckets))
  }

  /** The item in this slot is that of its bucket and round. */
  ghost predicate ItemOf<T>(buckets: seq<seq<T>>, item: T, s: Slot) {
    Filled(buckets, s) && item == buckets[s.1][s.0]
  }

  lemma {:induction false} RoundItemOfSlot<T>(buckets: seq<seq<T>>, round: nat, n: nat, i: nat)
    requires n <= |buckets| && i < |RoundSlots(buckets, round, n)|
    ensures |RoundItems(buckets, round, n)| == |RoundSlots(buckets, round, n)|
    ensures var s := RoundSlots(buckets, round, n)[i];
            s.0 == round && s.1 < n && ItemOf(buckets, RoundItems(buckets, round, n)[i], s)
  {
    RoundSameCount(buckets, round, n - 1);
    if i < |RoundSlots(buckets, round, n - 1)| {
      RoundItemOfSlot(buckets, round, n - 1, i);
    }
  }

  lemma {:induction false} RoundSameCount<T>(buckets: seq<seq<T>>, round: nat, n: nat)
    requires n <= |buckets|
    ensures |RoundItems(buckets, round, n)| == |RoundSlots(buckets, round, n)|
  {
    if n > 0 {
      RoundSameCount(buckets, round, n - 1);
    }
  }

  lemma SameCount<T>(buckets: seq<seq<T>>, rounds: nat)
    ensures |ItemsUpTo(buckets, rounds)| == |SlotsUpTo(buckets, rounds)|
  {
    forall r: nat
      ensures |RoundItems(buckets, r, |buckets|)| == |RoundSlots(buckets, r, |buckets|)|
    {
      RoundSameCount(buckets, r, |buckets|);
    }
    RoundsSameCount((r: nat) => RoundItems(buckets, r, |buckets|), (r: nat) => RoundSlots(buckets, r, |buckets|),
      rounds);
  }

  /** One item per slot, and each is the one the slot stands for. */
  lemma {:induction false} ItemOfSlot<T>(buckets: seq<seq<T>>, rounds: nat, i: nat)
    requires i < |SlotsUpTo(buckets, rounds)|
    ensures |ItemsUpTo(buckets, rounds)| == |SlotsUpTo(buckets, rounds)|
    ensures var s := SlotsUpTo(buckets, rounds)[i];
            s.0 < rounds && ItemOf(buckets, ItemsUpTo(buckets, rounds)[i], s)
  {
    SameCount(buckets, rounds - 1);
    RoundSameCount(buckets, rounds - 1, |buckets|);
    var before := |SlotsUpTo(buckets, rounds - 1)|;
    if i < before {
      ItemOfSlot(buckets, rounds - 1, i);
    } else {
      RoundItemOfSlot(buckets, rounds - 1, |buckets|, i - before);
    }
  }

  // ---- the slots are exactly the filled ones, in order ----

  ghost predicate Increasing(s: seq<Slot>) {
    forall i, j :: 0 <= i < j < |s| ==> Before(s[i], s[j])
  }

  ghost predicate AllInRound(s: seq<Slot>, round: nat, n: nat) {
    forall i :: 0 <= i < |s| ==> s[i].0 == round && s[i].1 < n
  }

  lemma {:induction false} RoundSlotsInOrder<T>(buckets: seq<seq<T>>, round: nat, n: nat)
    requires n <= |buckets|
    ensures Increasing(RoundSlots(buckets, round, n)) && AllInRound(RoundSlots(buckets, round, n), round, n)
  {
    if n > 0 {
      RoundSlotsInOrder(buckets, round, n - 1);
    }
  }

  lemma IncreasingConcat(a: seq<Slot>, b: seq<Slot>, round: nat, n: nat)
    requires Increasing(a) && Increasing(b) && AllInRound(b, round, n)
    requires forall i :: 0 <= i < |a| ==> a[i].0 < round
    ensures Increasing(a + b) && forall i :: 0 <= i < |a + b| ==> (a + b)[i].0 < round + 1
  {
  }

  /** The slots come in strictly increasing (round, bucket) order. */
  lemma {:induction false} SlotsInOrder<T>(buckets: seq<seq<T>>, rounds: nat)
    ensures Increasing(SlotsUpTo(buckets, rounds))
    ensures forall i :: 0 <= i < |SlotsUpTo(buckets, rounds)| ==> SlotsUpTo(buckets, rounds)[i].0 < rounds
  {
    if rounds > 0 {
      var before, last := SlotsUpTo(buckets, rounds - 1), RoundSlots(buckets, rounds - 1, |buckets|);
      SlotsInOrder(buckets, rounds - 1);
      RoundSlotsInOrder(buckets, rounds - 1, |buckets|);
      IncreasingConcat(before, last, rounds - 1, |buckets|);
    }
  }

  lemma {:induction false} SlotInRound<T>(buckets: seq<seq<T>>, round: nat, n: nat, c: nat) returns (i: nat)
    requires c < n <= |buckets| && round < |buckets[c]|
    ensures i < |RoundSlots(buckets, round, n)| && RoundSlots(buckets, round, n)[i] == (round, c)
  {
    if c < n - 1 {
      i := SlotInRound(buckets, round, n - 1, c);
    } else {
      i := |RoundSlots(buckets, round, n - 1)|;
    }
  }

  /** Every filled slot is among them. */
  lemma {:induction false} SlotIsThere<T>(buckets: seq<seq<T>>, rounds: nat, s: Slot) returns (i: nat)
    requires s.0 < rounds && Filled(buckets, s)
    ensures i < |SlotsUpTo(buckets, rounds)| && SlotsUpTo(buckets, rounds)[i] == s
  {
    if s.0 < rounds - 1 {
      i := SlotIsThere(buckets, rounds - 1, s);
    } else {
      i := SlotInRound(buckets, s.0, |buckets|, s.1);
      i := |SlotsUpTo(buckets, rounds - 1)| + i;
    }
  }

  /** The slots below a level, and those of the level before some bucket. */
  predicate Under(s: Slot, level: nat, bucket: nat) {
    s.0 < level || (s.0 == level && s.1 < bucket)
  }

  lemma CutByOrder(slots: seq<Slot>, max: nat, i: nat)
    requires Increasing(slots) && i < |slots| && max < |slots|
    ensures i < max <==> Under(slots[i], slots[max].0, slots[max].1)
  {
    assert i < max ==> Before(slots[i], slots[max]);
    assert i > max ==> Before(slots[max], slots[i]);
  }

  lemma FilledIsSlot<T>(buckets: seq<seq<T>>, s: Slot) returns (i: nat)
    requires Filled(buckets, s)
    ensures i < |Slots(buckets)| && Slots(buckets)[i] == s
  {
    MaxLenBounds(buckets, s.1);
    i := SlotIsThere(buckets, MaxLen(buckets), s);
  }

  /**
   Fairness: whatever the limit, there are a level and a bucket such that the slots taken are those of
   the rounds below the level, and those of the level in the buckets before that bucket. So every
   bucket gives a prefix, of min(size, level) items or, before that bucket, of min(size, level + 1).
   */
  lemma RoundRobinIsFair<T>(buckets: seq<seq<T>>, max: nat) returns (level: nat, bucket: nat)
    ensures forall s: Slot :: s in Take(Slots(buckets), max) <==> Filled(buckets, s) && Under(s, level, bucket)
  {
    var slots := Slots(buckets);
    SlotsInOrder(buckets, MaxLen(buckets));
    if max < |slots| {
      level, bucket := slots[max].0, slots[max].1;
    } else {
      level, bucket := MaxLen(buckets), 0;
    }
    forall s: Slot
      ensures s in Take(slots, max) <==> Filled(buckets, s) && Under(s, level, bucket)
    {
      if s in Take(slots, max) {
        var i :| 0 <= i < |Take(slots, max)| && Take(slots, max)[i] == s;
        SlotIsUnder(buckets, max, i, level, bucket);
      }
      if Filled(buckets, s) {
        var i := FilledIsSlot(buckets, s);
        SlotIsUnder(buckets, max, i, level, bucket);
        assert i < |Take(slots, max)| ==> Take(slots, max)[i] == s;
      }
    }
  }

  lemma SlotIsUnder<T>(buckets: seq<seq<T>>, max: nat, i: nat, level: nat, bucket: nat)
    requires i < |Slots(buckets)| && Increasing(Slots(buckets))
    requires max < |Slots(buckets)| ==> (level, bucket) == Slots(buckets)[max]
    requires max >= |Slots(buckets)| ==> level == MaxLen(buckets)
    ensures Filled(buckets, Slots(buckets)[i])
    ensures i < max <==> Under(Slots(buckets)[i], level, bucket)
  {
    ItemOfSlot(buckets, MaxLen(buckets), i);
    if max < |Slots(buckets)| {
      CutByOrder(Slots(buckets), max, i);
    } else {
      MaxLenBounds(buckets, Slots(buckets)[i].1);
    }
  }

  // ---- how many items there are ----

  function Total<T>(buckets: seq<seq<T>>): nat {
    if buckets == [] then 0 else Total(buckets[..|buckets| - 1]) + |buckets[|buckets| - 1]|
  }

  /** The items of the first n buckets that lie in the first rounds. */
  function Reached<T>(buckets: seq<seq<T>>, n: nat, rounds: nat): nat
    requires n <= |buckets|
  {
    if n == 0 then 0 else Reached(buckets, n - 1, rounds) + Min(|buckets[n - 1]|, rounds)
  }

  lemma {:induction false} RoundCount<T>(buckets: seq<seq<T>>, round: nat, n: nat)
    requires n <= |buckets|
    ensures |RoundItems(buckets, round, n)| + Reached(buckets, n, round) == Reached(buckets, n, round + 1)
  {
    if n > 0 {
      RoundCount(buckets, round, n - 1);
    }
  }

  lemma {:induction false} ItemCount<T>(buckets: seq<seq<T>>, rounds: nat)
    ensures |ItemsUpTo(buckets, rounds)| == Reached(buckets, |buckets|, rounds)
  {
    if rounds == 0 {
      NothingReached(buckets, |buckets|);
    } else {
      ItemCount(buckets, rounds - 1);
      RoundCount(buckets, rounds - 1, |buckets|);
    }
  }

  lemma {:induction false} NothingReached<T>(buckets: seq<seq<T>>, n: nat)
    requires n <= |buckets|
    ensures Reached(buckets, n, 0) == 0
  {
    if n > 0 {
      NothingReached(buckets, n - 1);
    }
  }

  lemma {:induction false} AllReached<T>(buckets: seq<seq<T>>, n: nat, rounds: nat)
    requires n <= |buckets| && MaxLen(buckets) <= rounds
    ensures Reached(buckets, n, rounds) == Total(buckets[..n])
  {
    if n > 0 {
      AllReached(buckets, n - 1, rounds);
      MaxLenBounds(buckets, n - 1);
      assert buckets[..n][..n - 1] == buckets[..n - 1];
    }
  }

  /** Nothing is lost: min(max, all the items) are taken. */
  lemma FirstItemsCount<T>(buckets: seq<seq<T>>, max: nat)
    ensures |FirstItems(buckets, max)| == Min(max, Total(buckets))
  {
    ItemCount(buckets, MaxLen(buckets));
    AllReached(buckets, |buckets|, MaxLen(buckets));
    assert buckets[..|buckets|] == buckets;
  }

  // ---- the loop ----

  lemma {:induction false} MoreRounds<T>(buckets: seq<seq<T>>, rounds: nat, more: nat)
    requires rounds <= more
    ensures ItemsUpTo(buckets, rounds) <= ItemsUpTo(buckets, more)
    decreases more - rounds
  {
    if rounds < more {
      MoreRounds(buckets, rounds, more - 1);
    }
  }

  lemma {:induction false} EmptyRound<T>(buckets: seq<seq<T>>, round: nat, n: nat)
    requires n <= |buckets|
    ensures RoundItems(buckets, round, n) == [] <==> forall c :: 0 <= c < n ==> |buckets[c]| <= round
  {
    if n > 0 {
      EmptyRound(buckets, round, n - 1);
    }
  }

  lemma {:induction false} PartOfRound<T>(buckets: seq<seq<T>>, round: nat, n: nat, m: nat)
    requires n <= m <= |buckets|
    ensures RoundItems(buckets, round, n) <= RoundItems(buckets, round, m)
  {
    if n < m {
      PartOfRound(buckets, round, n, m - 1);
    }
  }

  /** What full rounds and part of another have brought is a prefix of all the items. */
  lemma PrefixOfItems<T>(buckets: seq<seq<T>>, round: nat, n: nat)
    requires n <= |buckets| && round < MaxLen(buckets)
    ensures ItemsUpTo(buckets, round) + RoundItems(buckets, round, n) <= ItemsUpTo(buckets, MaxLen(buckets))
  {
    PartOfRound(buckets, round, n, |buckets|);
    MoreRounds(buckets, round + 1, MaxLen(buckets));
  }

  /** Rounds bring something exactly until the longest bucket is used up. */
  lemma RoundBringsIff<T>(buckets: seq<seq<T>>, round: nat)
    ensures RoundItems(buckets, round, |buckets|) != [] <==> round < MaxLen(buckets)
  {
    EmptyRound(buckets, round, |buckets|);
    if round >= MaxLen(buckets) {
      forall c | 0 <= c < |buckets|
        ensures |buckets[c]| <= round
      {
        MaxLenBounds(buckets, c);
      }
    } else if RoundItems(buckets, round, |buckets|) == [] {
      MaxLenIsLeast(buckets, round);
    }
  }

  predicate IndexesAre<T>(buckets: seq<seq<T>>, indexes: seq<nat>, round: nat, n: nat) {
    && |indexes| == |buckets|
    && forall d :: 0 <= d < |buckets| ==> indexes[d] == Min(if d < n then round + 1 else round, |buckets[d]|)
  }

  lemma IndexesNext<T>(buckets: seq<seq<T>>, indexes: seq<nat>, round: nat, c: nat)
    requires IndexesAre(buckets, indexes, round, c) && c < |buckets|
    ensures indexes[c] == Min(round, |buckets[c]|)
    ensures IndexesAre(buckets, if round < |buckets[c]| then indexes[c := round + 1] else indexes, round, c + 1)
  {
  }

  /** One round of the loop over the countries. */
  method TakeRound<T>(buckets: seq<seq<T>>, indexes0: seq<nat>, ghost round: nat, max: nat, result0: seq<T>)
    returns (indexes: seq<nat>, result: seq<T>, progressed: bool, ghost n: nat)
    requires IndexesAre(buckets, indexes0, round, 0) && |result0| < max
    ensures n <= |buckets| && result == result0 + RoundItems(buckets, round, n)
    ensures IndexesAre(buckets, indexes, round, n)
    ensures |result| <= max && (|result| == max || n == |buckets|)
    ensures progressed <==> RoundItems(buckets, round, n) != []
  {
    indexes, result, progressed, n := indexes0, result0, false, 0;
    for c := 0 to |buckets|
      invariant result == result0 + RoundItems(buckets, round, c) && |result| < max
      invariant IndexesAre(buckets, indexes, round, c)
      invariant progressed <==> RoundItems(buckets, round, c) != []
    {
      n := c + 1;
      var index := indexes[c];
      IndexesNext(buckets, indexes, round, c);
      if index >= |buckets[c]| {
        continue;
      }
      Associative(result0, RoundItems(buckets, round, c), [buckets[c][index]]);
      result := result + [buckets[c][index]];
      indexes := indexes[c := index + 1];
      progressed := true;
      if |result| >= max {
        return;
      }
    }
    n := |buckets|;
  }

  /** The loop may stop when the limit is reached, and when a whole round brings nothing. */
  lemma RoundsAreOver<T>(buckets: seq<seq<T>>, round: nat, n: nat, max: nat)
    requires n <= |buckets| && round <= MaxLen(buckets)
    requires var r := ItemsUpTo(buckets, round) + RoundItems(buckets, round, n);
             |r| == max || (|r| < max && n == |buckets| && RoundItems(buckets, round, n) == [])
    ensures ItemsUpTo(buckets, round) + RoundItems(buckets, round, n) == FirstItems(buckets, max)
  {
    RoundBringsIff(buckets, round);
    if round < MaxLen(buckets) {
      PrefixOfItems(buckets, round, n);
    } else {
      PartOfRound(buckets, round, n, |buckets|);
      assert ItemsUpTo(buckets, round) + [] == ItemsUpTo(buckets, round);
    }
  }

  lemma RoundIsDone<T>(buckets: seq<seq<T>>, indexes: seq<nat>, round: nat)
    requires IndexesAre(buckets, indexes, round, |buckets|) && RoundItems(buckets, round, |buckets|) != []
    ensures round < MaxLen(buckets) && IndexesAre(buckets, indexes, round + 1, 0)
    ensures ItemsUpTo(buckets, round) + RoundItems(buckets, round, |buckets|) == ItemsUpTo(buckets, round + 1)
  {
    RoundBringsIff(buckets, round);
  }

  /** The loop of `_country_balanced_limit`. */
  method TakeInRounds<T>(buckets: seq<seq<T>>, max: nat) returns (result: seq<T>)
    ensures result == FirstItems(buckets, max)
  {
    result := [];
    var indexes: seq<nat> := seq(|buckets|, _ => 0);
    ghost var round := 0;
    while |result| < max
      invariant round <= MaxLen(buckets)
      invariant |result| < max ==> result == ItemsUpTo(buckets, round) && IndexesAre(buckets, indexes, round, 0)
      invariant |result| >= max ==> result == FirstItems(buckets, max)
      decreases MaxLen(buckets) - round
    {
      ghost var n;
      var progressed;
      indexes, result, progressed, n := TakeRound(buckets, indexes, round, max, result);
      if |result| == max || !progressed {
        RoundsAreOver(buckets, round, n, max);
        return;
      }
      RoundIsDone(buckets, indexes, round);
      round := round + 1;
    }
  }
}
