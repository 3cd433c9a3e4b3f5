/**
 Truncating a Telegram HTML message to a number of UTF-16 code units without cutting a tag or an
 entity, and closing the tags the cut leaves open.

 A text is a list of code points, lone surrogates included. Python's `str.lower` is a parameter;
 of it only `KeepsTagNames` is used.
 */
module HtmlLimits {
  import opened Sequences
  import opened WhiteSpace

  type CodePoint = c: int | 0 <= c < 0x11_0000
  type Text = seq<CodePoint>

  const LT: CodePoint := 0x3C
  const GT: CodePoint := 0x3E
  const AMP: CodePoint := 0x26
  const SEMICOLON: CodePoint := 0x3B
  const SLASH: CodePoint := 0x2F
  const DOT: CodePoint := 0x2E
  const MAX_ENTITY_LEN := 8

  const ELLIPSIS: Text := [DOT, DOT, DOT]

  function Chars(s: string): (t: Text)
    ensures |t| == |s|
  {
    seq(|s|, i requires 0 <= i < |s| => s[i] as int)
  }

  // ---- length in UTF-16 code units, section 2.1 of RFC 2781 ----

  function EncodeOne(c: CodePoint): (units: seq<int>)
    ensures 1 <= |units| <= 2
  {
    if c < 0x1_0000 then [c]
    else var u := c - 0x1_0000; [0xD800 + u / 0x400, 0xDC00 + u % 0x400]
  }

  function Encode(t: Text): seq<int> {
    if t == [] then [] else EncodeOne(t[0]) + Encode(t[1..])
  }

  /** The example of section 5 of RFC 2781. */
  lemma EncodeExample()
    ensures Encode([0x12345, 0x3D]) == [0xD808, 0xDF45, 0x3D]
  {
    assert [0x12345, 0x3D][1..] == [0x3D] && [0x3D][1..] == [];
  }

  /** `_utf16_len`: what is counted is the units of the encoding. A lone surrogate is one of them. */
  function Utf16Len(t: Text): nat {
    if t == [] then 0 else (if t[0] < 0x1_0000 then 1 else 2) + Utf16Len(t[1..])
  }

  lemma {:induction false} Utf16LenIsEncodedLength(t: Text)
    ensures Utf16Len(t) == |Encode(t)|
  {
    if t != [] {
      Utf16LenIsEncodedLength(t[1..]);
    }
  }

  lemma {:induction false} Utf16LenConcat(a: Text, b: Text)
    ensures Utf16Len(a + b) == Utf16Len(a) + Utf16Len(b)
  {
    if a == [] {
      assert a + b == b;
    } else {
      assert (a + b)[0] == a[0] && (a + b)[1..] == a[1..] + b;
      Utf16LenConcat(a[1..], b);
    }
  }

  /** The encoding can be read back, so its length is the length of a faithful representation. */
  function Decode(units: seq<int>): seq<int> {
    if units == [] then []
    else if 0xD800 <= units[0] < 0xDC00 && |units| > 1 && 0xDC00 <= units[1] < 0xE000 then
      [0x1_0000 + (units[0] - 0xD800) * 0x400 + (units[1] - 0xDC00)] + Decode(units[2..])
    else [units[0]] + Decode(units[1..])
  }

  lemma SurrogatePair(u: nat)
    requires u < 0x10_0000
    ensures 0 <= u / 0x400 < 0x400 && 0 <= u % 0x400 < 0x400 && (u / 0x400) * 0x400 + u % 0x400 == u
  {
  }

  lemma DecodeNext(c: CodePoint, rest: seq<int>)
    requires !(0xD800 <= c < 0xE000)
    ensures Decode(EncodeOne(c) + rest) == [c] + Decode(rest)
  {
    var units := EncodeOne(c) + rest;
    assert units[|EncodeOne(c)|..] == rest;
    if c >= 0x1_0000 {
      SurrogatePair(c - 0x1_0000);
    }
  }

  lemma {:induction false} DecodeEncode(t: Text)
    requires forall i :: 0 <= i < |t| ==> !(0xD800 <= t[i] < 0xE000)
    ensures Decode(Encode(t)) == t
  {
    if t != [] {
      DecodeEncode(t[1..]);
      DecodeNext(t[0], Encode(t[1..]));
      assert t == [t[0]] + t[1..];
    }
  }

  // ---- the string methods that are used ----

  /** `text.find(c, lo, hi)` */
  function Find(t: Text, c: CodePoint, lo: nat, hi: nat): (r: int)
    requires hi <= |t|
    ensures r == -1 || (lo <= r < hi && t[r] == c)
    decreases hi - lo
  {
    if lo >= hi then -1 else if t[lo] == c then lo else Find(t, c, lo + 1, hi)
  }

  lemma {:induction false} FindIsFirst(t: Text, c: CodePoint, lo: nat, hi: nat)
    requires hi <= |t|
    ensures var r := Find(t, c, lo, hi); forall i :: lo <= i < (if r == -1 then hi else r) ==> t[i] != c
    decreases hi - lo
  {
    if lo < hi && t[lo] != c {
      FindIsFirst(t, c, lo + 1, hi);
    }
  }

  /** `text.rfind(c, lo, hi)` */
  function RFind(t: Text, c: CodePoint, lo: nat, hi: nat): (r: int)
    requires hi <= |t|
    ensures r == -1 || (lo <= r < hi && t[r] == c)
    decreases hi
  {
    if lo >= hi then -1 else if t[hi - 1] == c then hi - 1 else RFind(t, c, lo, hi - 1)
  }

  lemma {:induction false} RFindIsLast(t: Text, c: CodePoint, lo: nat, hi: nat)
    requires hi <= |t|
    ensures var r := RFind(t, c, lo, hi); forall i :: (if r == -1 then lo else r + 1) <= i < hi ==> t[i] != c
    decreases hi
  {
    if lo < hi && t[hi - 1] != c {
      RFindIsLast(t, c, lo, hi - 1);
    }
  }

  /** The first occurrence, found in whatever way. */
  lemma FindIs(t: Text, c: CodePoint, lo: nat, hi: nat, r: nat)
    requires lo <= r < hi <= |t| && t[r] == c && forall i :: lo <= i < r ==> t[i] != c
    ensures Find(t, c, lo, hi) == r
  {
    FindIsFirst(t, c, lo, hi);
  }

  lemma FindIsNone(t: Text, c: CodePoint, lo: nat, hi: nat)
    requires hi <= |t| && forall i :: lo <= i < hi ==> t[i] != c
    ensures Find(t, c, lo, hi) == -1
  {
  }

  function RStrip(t: Text): (r: Text)
    ensures r <= t
  {
    if t == [] || !IsSpace(t[|t| - 1]) then t else RStrip(t[..|t| - 1])
  }

  /** Only white space is stripped, and all of it. */
  lemma {:induction false} RStripKeeps(t: Text, i: nat)
    requires i < |t| && !IsSpace(t[i])
    ensures i < |RStrip(t)|
  {
    if IsSpace(t[|t| - 1]) {
      RStripKeeps(t[..|t| - 1], i);
    }
  }

  function LStrip(t: Text): (r: Text)
    ensures |r| <= |t|
  {
    if t == [] || !IsSpace(t[0]) then t else LStrip(t[1..])
  }

  function UntilSpace(t: Text): Text {
    if t == [] || IsSpace(t[0]) then [] else [t[0]] + UntilSpace(t[1..])
  }

  /** `text.split()[0]`, or the empty text when there are no words. */
  function FirstWord(t: Text): Text {
    UntilSpace(LStrip(t))
  }

  // ---- _safe_cut_offset ----

  /** Back up to an `&` that has no `;` before the cut. */
  function EntityCut(t: Text, cut: nat): (r: nat)
    requires cut <= |t|
    ensures r <= cut
  {
    var amp := RFind(t, AMP, if cut < MAX_ENTITY_LEN then 0 else cut - MAX_ENTITY_LEN, cut);
    if amp != -1 && Find(t, SEMICOLON, amp, cut) == -1 then amp else cut
  }

  /** Back up to a `<` that has no `>` before the cut, again and again. */
  function TagCut(t: Text, cut: nat): (r: nat)
    requires cut <= |t|
    ensures r <= cut
    decreases cut
  {
    var lt := RFind(t, LT, 0, cut);
    if lt == -1 || Find(t, GT, lt, cut) != -1 then cut else TagCut(t, lt)
  }

  function SafeCut(t: Text, limit: nat): (r: nat)
    ensures r <= limit && r <= |t|
  {
    TagCut(t, EntityCut(t, Min(limit, |t|)))
  }

  /** No tag is left open at the cut: a `>` follows every `<`. */
  ghost predicate TagClosed(t: Text, cut: nat)
    requires cut <= |t|
  {
    forall i :: 0 <= i < cut && t[i] == LT ==> ClosedBefore(t, i, cut)
  }

  ghost predicate ClosedBefore(t: Text, i: nat, cut: nat)
    requires cut <= |t|
  {
    exists j :: i < j < cut && t[j] == GT
  }

  method SafeCutOffset(t: Text, limit: nat) returns (cut: nat)
    ensures cut == SafeCut(t, limit)
  {
    cut := Min(limit, |t|);
    var amp := RFind(t, AMP, if cut < MAX_ENTITY_LEN then 0 else cut - MAX_ENTITY_LEN, cut);
    if amp != -1 && Find(t, SEMICOLON, amp, cut) == -1 {
      cut := amp;
    }
    while true
      invariant cut <= |t| && TagCut(t, cut) == SafeCut(t, limit)
      decreases cut
    {
      var lt := RFind(t, LT, 0, cut);
      if lt == -1 || Find(t, GT, lt, cut) != -1 {
        return;
      }
      cut := lt;
    }
  }

  /** The tag cut is the largest offset up to the given one that leaves no tag open. */
  lemma {:induction false} TagCutIsLargestClosed(t: Text, cut: nat)
    requires cut <= |t|
    ensures TagClosed(t, TagCut(t, cut))
    ensures forall c :: TagCut(t, cut) < c <= cut ==> !TagClosed(t, c)
    decreases cut
  {
    var lt := RFind(t, LT, 0, cut);
    RFindIsLast(t, LT, 0, cut);
    if lt == -1 {
    } else if Find(t, GT, lt, cut) != -1 {
      var gt := Find(t, GT, lt, cut);
      forall i | 0 <= i < cut && t[i] == LT
        ensures ClosedBefore(t, i, cut)
      {
        assert i < gt < cut && t[gt] == GT;
      }
    } else {
      TagCutIsLargestClosed(t, lt);
      FindIsFirst(t, GT, lt, cut);
      forall c | lt < c <= cut
        ensures !TagClosed(t, c)
      {
        assert t[lt] == LT && !ClosedBefore(t, lt, c);
      }
    }
  }

  // ---- entities ----

  /** t[a..e] is an entity: `&`, no `<`, `>`, `&` or `;`, then `;`. */
  ghost predicate Entity(t: Text, a: nat, e: nat) {
    && a + 1 < e <= |t| && t[a] == AMP && t[e - 1] == SEMICOLON
    && forall i :: a < i < e - 1 ==> t[i] !in {LT, GT, AMP, SEMICOLON}
  }

  /** Every `&` starts an entity of at most 8 characters, as html.escape leaves them. */
  ghost predicate ShortEntities(t: Text) {
    forall a :: 0 <= a < |t| && t[a] == AMP ==> exists e: nat :: e <= a + MAX_ENTITY_LEN && Entity(t, a, e)
  }

  lemma {:induction false} TagCutAvoids(t: Text, cut: nat, a: nat, e: nat)
    requires cut <= |t| && Entity(t, a, e) && (cut <= a || e <= cut)
    ensures TagCut(t, cut) <= a || e <= TagCut(t, cut)
    decreases cut
  {
    var lt := RFind(t, LT, 0, cut);
    RFindIsLast(t, LT, 0, cut);
    if lt != -1 && Find(t, GT, lt, cut) == -1 {
      assert t[a] != LT && t[e - 1] != LT;
      TagCutAvoids(t, lt, a, e);
    }
  }

  /**
   The safe offset lands inside an entity exactly when the requested one lies more than 8 characters
   into it and no tag is open there. "Never inside an entity" therefore holds only for short ones.
   */
  lemma CutsEntityIff(t: Text, limit: nat, a: nat, e: nat)
    requires Entity(t, a, e)
    ensures var cut := Min(limit, |t|);
            a < SafeCut(t, limit) < e <==> a + MAX_ENTITY_LEN < cut < e && TagClosed(t, cut)
  {
    var cut := Min(limit, |t|);
    var lo := if cut < MAX_ENTITY_LEN then 0 else cut - MAX_ENTITY_LEN;
    var amp := RFind(t, AMP, lo, cut);
    RFindIsLast(t, AMP, lo, cut);
    TagCutIsLargestClosed(t, cut);
    if a < cut < e {
      if lo <= a {
        assert t[a] == AMP;
        FindIsNone(t, SEMICOLON, a, cut);
      } else {
        assert amp == -1;
        var lt := RFind(t, LT, 0, cut);
        RFindIsLast(t, LT, 0, cut);
        if !TagClosed(t, cut) {
          assert TagCut(t, cut) < cut;
          assert lt != -1 && lt < a && TagCut(t, cut) == TagCut(t, lt);
        }
      }
    } else {
      if cut >= e && amp != -1 && Find(t, SEMICOLON, amp, cut) == -1 {
        FindIsFirst(t, SEMICOLON, amp, cut);
        assert t[e - 1] == SEMICOLON;
        assert amp >= e;
      }
      TagCutAvoids(t, EntityCut(t, cut), a, e);
    }
  }

  /** Such a cut: `&thetasym;` has ten characters, and a limit of 9 leaves all but the last of them. */
  lemma LongEntityIsCut()
    ensures var t := Chars("&thetasym;");
            Entity(t, 0, |t|) && 0 < SafeCut(t, 9) < |t|
  {
    var t := Chars("&thetasym;");
    CutsEntityIff(t, 9, 0, |t|);
  }

  // ---- _open_tags ----

  const PAIRED_TAGS: set<Text> :=
    {Chars("b"), Chars("i"), Chars("u"), Chars("s"), Chars("a"), Chars("code"), Chars("pre"), Chars("blockquote"),
     Chars("tg-spoiler")}
  const SELF_CLOSING_TAGS: set<Text> := {Chars("br"), Chars("hr")}

  ghost predicate KeepsTagNames(lower: Text -> Text) {
    forall n :: n in PAIRED_TAGS ==> lower(n) == n
  }

  /** The innermost open tag of that name is closed. */
  function Close(stack: seq<Text>, name: Text): seq<Text> {
    if stack == [] then []
    else if stack[|stack| - 1] == name then stack[..|stack| - 1]
    else Close(stack[..|stack| - 1], name) + [stack[|stack| - 1]]
  }

  /** What one tag does to the open ones. */
  function ApplyTag(lower: Text -> Text, tag: Text, stack: seq<Text>): seq<Text> {
    if tag == [] then stack
    else if tag[0] == SLASH then
      var word := FirstWord(tag[1..]);
      if word == [] then stack else Close(stack, lower(word))
    else
      var name := lower(FirstWord(tag));
      if name in SELF_CLOSING_TAGS || name !in PAIRED_TAGS then stack else stack + [name]
  }

  /** What a tag, given by the raw text between its brackets, does to the open ones. */
  type TagEffect = (Text, seq<Text>) -> seq<Text>

  function Effect(lower: Text -> Text): TagEffect {
    (raw: Text, stack: seq<Text>) => ApplyTag(lower, LStrip(RStrip(raw)), stack)
  }

  /** The first complete tag of a text, and the text after it. */
  datatype FirstTag = NoTag | Tag(raw: Text, rest: Text)

  /** The first complete tag at or after pos: where its `<` and its `>` are. */
  function TagAt(t: Text, pos: nat): (r: FirstTag)
    requires pos <= |t|
    ensures r.Tag? ==> |r.rest| < |t|
  {
    var lt := Find(t, LT, pos, |t|);
    if lt == -1 then NoTag
    else
      var gt := Find(t, GT, lt, |t|);
      if gt == -1 then NoTag
      else
        assert t[lt] != GT;
        Tag(t[lt + 1..gt], t[gt + 1..])
  }

  /** The tags left open after the text, when those in `stack` were open before it. */
  function OpenAfter(effect: TagEffect, t: Text, stack: seq<Text>): seq<Text>
    decreases |t|
  {
    match TagAt(t, 0)
    case NoTag => stack
    case Tag(raw, rest) =>
      OpenAfter(effect, rest, effect(raw, stack))
  }

  /** The two searches of the scan: the next complete tag, and where the text after it starts. */
  method NextTag(t: Text, pos: nat) returns (next: FirstTag, end: nat)
    requires pos <= |t|
    ensures next == TagAt(t, pos)
    ensures next.Tag? ==> pos < end <= |t| && next.rest == t[end..]
  {
    next, end := NoTag, pos;
    var lt := Find(t, LT, pos, |t|);
    if lt == -1 {
      return;
    }
    var gt := Find(t, GT, lt, |t|);
    if gt == -1 {
      return;
    }
    next, end := Tag(t[lt + 1..gt], t[gt + 1..]), gt + 1;
  }

  /** `_open_tags`: scan for tags, pushing the opening ones and popping the last match of a closing one. */
  method OpenTags(lower: Text -> Text, t: Text) returns (stack: seq<Text>)
    ensures stack == OpenAfter(Effect(lower), t, [])
  {
    stack := [];
    var pos := 0;
    assert t[0..] == t;
    while pos < |t|
      invariant pos <= |t|
      invariant OpenAfter(Effect(lower), t[pos..], stack) == OpenAfter(Effect(lower), t, [])
    {
      var next, end := NextTag(t, pos);
      OpenAfterRest(Effect(lower), t, pos, stack);
      if next.NoTag? {
        return;
      }
      stack := TakeTag(lower, next.raw, stack);
      pos := end;
    }
  }

  /** The body of the scan: what one tag does to the stack. */
  method TakeTag(lower: Text -> Text, raw: Text, open: seq<Text>) returns (stack: seq<Text>)
    ensures stack == Effect(lower)(raw, open)
  {
    var tag := LStrip(RStrip(raw));
    stack := open;
    if tag == [] {
      return;
    }
    if tag[0] == SLASH {
      var word := FirstWord(tag[1..]);
      if word != [] {
        stack := PopLast(stack, lower(word));
      }
      return;
    }
    var name := lower(FirstWord(tag));
    if name in SELF_CLOSING_TAGS || name !in PAIRED_TAGS {
      return;
    }
    stack := stack + [name];
  }

  lemma SliceOfRest(t: Text, pos: nat, from: nat, to: nat)
    requires pos + from <= pos + to <= |t|
    ensures t[pos..][from..to] == t[pos + from..pos + to] && t[pos..][to..] == t[pos + to..]
  {
  }

  /** The first tag of the rest is the next tag of the text. */
  lemma TagOfFinds(t: Text, pos: nat, lt: nat, gt: nat)
    requires pos <= lt < gt < |t| && Find(t, LT, pos, |t|) == lt && Find(t, GT, lt, |t|) == gt
    ensures TagAt(t, pos) == Tag(t[lt + 1..gt], t[gt + 1..])
  {
  }

  lemma TagOfRest(t: Text, pos: nat, lt: nat, gt: nat)
    requires lt < gt && pos + gt < |t|
    ensures t[pos..][lt + 1..gt] == t[lt + pos + 1..gt + pos] && t[pos..][gt + 1..] == t[gt + pos + 1..]
  {
    SliceOfRest(t, pos, lt + 1, gt);
    SliceOfRest(t, pos, gt + 1, gt + 1);
  }

  lemma FoundTagOfRest(t: Text, pos: nat, lt: nat, gt: nat)
    requires lt < gt && pos + gt < |t|
    requires Find(t[pos..], LT, 0, |t| - pos) == lt && Find(t[pos..], GT, lt, |t| - pos) == gt
    requires Find(t, LT, pos, |t|) == lt + pos && Find(t, GT, lt + pos, |t|) == gt + pos
    ensures TagAt(t[pos..], 0) == TagAt(t, pos)
  {
    TagOfRest(t, pos, lt, gt);
    TagOfFinds(t[pos..], 0, lt, gt);
    TagOfFinds(t, pos, lt + pos, gt + pos);
  }

  lemma TagAtRest(t: Text, pos: nat)
    requires pos <= |t|
    ensures TagAt(t[pos..], 0) == TagAt(t, pos)
  {
    var rest := t[pos..];
    var lt0 := Find(rest, LT, 0, |rest|);
    FindInRest(t, LT, pos, 0);
    if lt0 != -1 {
      FindInRest(t, GT, pos, lt0);
      var gt0 := Find(rest, GT, lt0, |rest|);
      if gt0 != -1 {
        assert rest[lt0] != GT;
        FoundTagOfRest(t, pos, lt0, gt0);
      }
    }
  }

  lemma OpenAfterRest(effect: TagEffect, t: Text, pos: nat, stack: seq<Text>)
    requires pos <= |t|
    ensures var next := TagAt(t, pos);
            OpenAfter(effect, t[pos..], stack) ==
            if next.NoTag? then stack else OpenAfter(effect, next.rest, effect(next.raw, stack))
  {
    TagAtRest(t, pos);
  }

  lemma {:induction false} FindInRest(t: Text, c: CodePoint, pos: nat, from: nat)
    requires pos + from <= |t|
    ensures var r := Find(t[pos..], c, from, |t| - pos);
            Find(t, c, pos + from, |t|) == if r == -1 then -1 else r + pos
    decreases |t| - from
  {
    if pos + from < |t| && t[pos + from] != c {
      FindInRest(t, c, pos, from + 1);
    }
  }

  lemma CloseAt(stack: seq<Text>, name: Text, i: nat)
    requires i < |stack|
    ensures Close(stack[..i + 1], name) + stack[i + 1..] ==
            (if stack[i] == name then stack[..i] + stack[i + 1..] else Close(stack[..i], name) + stack[i..])
  {
    assert stack[..i + 1][..i] == stack[..i];
    assert [stack[i]] + stack[i + 1..] == stack[i..];
  }

  /** The inner loop of `_open_tags`. */
  method PopLast(stack: seq<Text>, name: Text) returns (r: seq<Text>)
    ensures r == Close(stack, name)
  {
    var i := |stack|;
    assert stack[..i] == stack && stack[i..] == [];
    while i > 0
      invariant i <= |stack|
      invariant Close(stack, name) == Close(stack[..i], name) + stack[i..]
    {
      i := i - 1;
      CloseAt(stack, name, i);
      if stack[i] == name {
        return stack[..i] + stack[i + 1..];
      }
    }
    r := stack;
  }

  // ---- the tags of a closed prefix ----

  /** `f"</{name}>"` */
  function CloseTag(name: Text): Text {
    [LT, SLASH] + name + [GT]
  }

  /** The closing tags of the open ones, innermost first. */
  function Closing(stack: seq<Text>): Text {
    if stack == [] then [] else CloseTag(stack[|stack| - 1]) + Closing(stack[..|stack| - 1])
  }

  /** A name that a tag can be made of: not empty, nothing that ends a word or a tag. */
  predicate PlainName(n: Text) {
    n != [] && forall i :: 0 <= i < |n| ==> !IsSpace(n[i]) && n[i] != GT
  }

  lemma PairedTagsArePlain(n: Text)
    requires n in PAIRED_TAGS
    ensures PlainName(n)
  {
  }

  ghost predicate AllPaired(stack: seq<Text>) {
    forall i :: 0 <= i < |stack| ==> stack[i] in PAIRED_TAGS
  }

  lemma {:induction false} CloseKeepsPaired(stack: seq<Text>, name: Text)
    requires AllPaired(stack)
    ensures AllPaired(Close(stack, name))
  {
    if stack != [] {
      CloseKeepsPaired(stack[..|stack| - 1], name);
    }
  }

  lemma ApplyTagKeepsPaired(lower: Text -> Text, tag: Text, stack: seq<Text>)
    requires AllPaired(stack)
    ensures AllPaired(ApplyTag(lower, tag, stack))
  {
    if tag != [] && tag[0] == SLASH {
      CloseKeepsPaired(stack, lower(FirstWord(tag[1..])));
    }
  }

  lemma {:induction false} OpenAfterPaired(lower: Text -> Text, t: Text, stack: seq<Text>)
    requires AllPaired(stack)
    ensures AllPaired(OpenAfter(Effect(lower), t, stack))
    decreases |t|
  {
    match TagAt(t, 0)
    case NoTag =>
    case Tag(raw, rest) =>
      ApplyTagKeepsPaired(lower, LStrip(RStrip(raw)), stack);
      OpenAfterPaired(lower, rest, Effect(lower)(raw, stack));
  }

  lemma FindInFront(a: Text, b: Text, c: CodePoint, lo: nat)
    requires Find(a, c, lo, |a|) != -1
    ensures Find(a + b, c, lo, |a + b|) == Find(a, c, lo, |a|)
  {
    FindIsFirst(a, c, lo, |a|);
    FindIs(a + b, c, lo, |a + b|, Find(a, c, lo, |a|));
  }

  lemma ClosedRest(a: Text, from: nat)
    requires TagClosed(a, |a|) && from <= |a|
    ensures TagClosed(a[from..], |a| - from)
  {
    var rest := a[from..];
    forall i | 0 <= i < |rest| && rest[i] == LT
      ensures ClosedBefore(rest, i, |rest|)
    {
      assert a[from + i] == LT && ClosedBefore(a, from + i, |a|);
      var j :| from + i < j < |a| && a[j] == GT;
      assert rest[j - from] == GT;
    }
  }

  lemma NoTagInFront(a: Text, b: Text)
    requires Find(a, LT, 0, |a|) == -1
    ensures TagAt(a + b, 0) == TagAt(b, 0)
  {
    FindIsFirst(a, LT, 0, |a|);
    FindSkips(a + b, LT, 0, |a|);
    assert (a + b)[|a|..] == b;
    TagAtRest(a + b, |a|);
    NothingBefore(a + b, |a|);
  }

  lemma NothingBefore(t: Text, pos: nat)
    requires pos <= |t| && Find(t, LT, 0, |t|) == Find(t, LT, pos, |t|)
    ensures TagAt(t, 0) == TagAt(t, pos)
  {
  }

  lemma FirstTagEnds(a: Text, lt: nat) returns (gt: nat)
    requires TagClosed(a, |a|) && Find(a, LT, 0, |a|) == lt
    ensures lt < gt < |a| && Find(a, GT, lt, |a|) == gt && TagClosed(a[gt + 1..], |a| - gt - 1)
  {
    FindIsFirst(a, LT, 0, |a|);
    assert ClosedBefore(a, lt, |a|);
    FindIsFirst(a, GT, lt, |a|);
    gt := Find(a, GT, lt, |a|);
    ClosedRest(a, gt + 1);
  }

  lemma SliceInFront(a: Text, b: Text, from: nat, to: nat)
    requires from <= to <= |a|
    ensures (a + b)[from..to] == a[from..to] && (a + b)[to..] == a[to..] + b
  {
  }

  lemma SomeTagInFront(a: Text, b: Text, lt: nat, gt: nat)
    requires lt < gt < |a| && Find(a, LT, 0, |a|) == lt && Find(a, GT, lt, |a|) == gt
    ensures TagAt(a + b, 0) == Tag(a[lt + 1..gt], a[gt + 1..] + b)
  {
    FindInFront(a, b, LT, 0);
    FindInFront(a, b, GT, lt);
    TagOfFinds(a + b, 0, lt, gt);
    SliceInFront(a, b, lt + 1, gt);
    SliceInFront(a, b, gt + 1, gt + 1);
  }

  /** The first tag of a text that leaves no tag open is still the first when more text follows. */
  lemma TagAtInFront(a: Text, b: Text)
    requires TagClosed(a, |a|)
    ensures var first, all := TagAt(a, 0), TagAt(a + b, 0);
            if first.NoTag? then all == TagAt(b, 0)
            else all == Tag(first.raw, first.rest + b) && TagClosed(first.rest, |first.rest|)
  {
    if Find(a, LT, 0, |a|) == -1 {
      NoTagInFront(a, b);
    } else {
      var lt := Find(a, LT, 0, |a|);
      var gt := FirstTagEnds(a, lt);
      TagOfFinds(a, 0, lt, gt);
      SomeTagInFront(a, b, lt, gt);
    }
  }

  /** After a prefix that leaves no tag open the scan goes on with the rest. */
  lemma {:induction false} OpenAfterConcat(effect: TagEffect, a: Text, b: Text, stack: seq<Text>)
    requires TagClosed(a, |a|)
    ensures OpenAfter(effect, a + b, stack) == OpenAfter(effect, b, OpenAfter(effect, a, stack))
    decreases |a|
  {
    TagAtInFront(a, b);
    match TagAt(a, 0)
    case NoTag =>
    case Tag(raw, rest) => OpenAfterConcat(effect, rest, b, effect(raw, stack));
  }

  lemma {:induction false} FindSkips(t: Text, c: CodePoint, lo: nat, mid: nat)
    requires lo <= mid <= |t| && forall i :: lo <= i < mid ==> t[i] != c
    ensures Find(t, c, lo, |t|) == Find(t, c, mid, |t|)
    decreases mid - lo
  {
    if lo < mid {
      FindSkips(t, c, lo + 1, mid);
    }
  }

  lemma {:induction false} UntilSpaceOfName(n: Text)
    requires forall i :: 0 <= i < |n| ==> !IsSpace(n[i])
    ensures UntilSpace(n) == n
  {
    if n != [] {
      UntilSpaceOfName(n[1..]);
    }
  }

  /** A closing tag at the front of the text pops the innermost open tag it names. */
  lemma CloseTagPops(lower: Text -> Text, stack: seq<Text>, rest: Text)
    requires stack != [] && AllPaired(stack) && KeepsTagNames(lower)
    ensures OpenAfter(Effect(lower), CloseTag(stack[|stack| - 1]) + rest, stack) ==
              OpenAfter(Effect(lower), rest, stack[..|stack| - 1])
  {
    var n := stack[|stack| - 1];
    PairedTagsArePlain(n);
    ClosingTagText(n, rest);
    ClosingTagApplied(lower, n, stack);
  }

  lemma NothingToStrip(t: Text)
    requires t != [] && !IsSpace(t[0]) && !IsSpace(t[|t| - 1])
    ensures LStrip(RStrip(t)) == t && LStrip(t) == t
  {
  }

  lemma ClosingTagApplied(lower: Text -> Text, n: Text, stack: seq<Text>)
    requires PlainName(n) && lower(n) == n
    ensures Effect(lower)([SLASH] + n, stack) == Close(stack, n)
  {
    var tag := [SLASH] + n;
    assert tag[0] == SLASH && tag[|tag| - 1] == n[|n| - 1];
    NothingToStrip(tag);
    NothingToStrip(n);
    UntilSpaceOfName(n);
    assert tag[1..] == n;
  }

  // ---- what a tag does ----

  /** A word that attributes may follow. */
  ghost predicate WordBefore(w: Text, attrs: Text) {
    PlainName(w) && (attrs == [] || IsSpace(attrs[0]))
  }

  lemma {:induction false} FirstWordIs(w: Text, rest: Text)
    requires forall i :: 0 <= i < |w| ==> !IsSpace(w[i])
    requires rest == [] || IsSpace(rest[0])
    ensures UntilSpace(w + rest) == w
  {
    if w == [] {
      assert w + rest == rest;
    } else {
      assert (w + rest)[1..] == w[1..] + rest;
      FirstWordIs(w[1..], rest);
    }
  }

  lemma StrippedTag(w: Text, attrs: Text) returns (rest: Text)
    requires WordBefore(w, attrs)
    ensures LStrip(RStrip(w + attrs)) == w + rest && WordBefore(w, rest)
  {
    var t := w + attrs;
    RStripKeeps(t, |w| - 1);
    var r := RStrip(t);
    rest := r[|w|..];
    assert r == t[..|r|];
    assert r == w + rest && rest <= attrs;
  }

  /**
   What a tag does, by its first word: the name of a paired tag is opened, a name after a slash is closed,
   and any other tag does nothing. Attributes and white space make no difference.
   */
  lemma TagDoes(lower: Text -> Text, w: Text, attrs: Text, stack: seq<Text>)
    requires WordBefore(w, attrs) && w[0] != SLASH
    ensures lower(w) in PAIRED_TAGS ==> Effect(lower)(w + attrs, stack) == stack + [lower(w)]
    ensures lower(w) !in PAIRED_TAGS ==> Effect(lower)(w + attrs, stack) == stack
    ensures Effect(lower)([SLASH] + w + attrs, stack) == Close(stack, lower(w))
  {
    var rest := StrippedTag(w, attrs);
    FirstWordIs(w, rest);
    NoTagIsBoth();
    var closing := StrippedTag([SLASH] + w, attrs);
    assert ([SLASH] + w + closing)[1..] == w + closing;
    FirstWordIs(w, closing);
  }

  lemma NoTagIsBoth()
    ensures SELF_CLOSING_TAGS !! PAIRED_TAGS
  {
    assert |Chars("br")| == 2 && Chars("br")[0] == 0x62 && Chars("br")[1] == 0x72;
    assert |Chars("hr")| == 2 && Chars("hr")[0] == 0x68;
    assert |Chars("b")| == 1 && |Chars("i")| == 1 && |Chars("u")| == 1 && |Chars("s")| == 1 && |Chars("a")| == 1;
    assert |Chars("pre")| == 3 && |Chars("code")| == 4 && |Chars("blockquote")| == 10 && |Chars("tg-spoiler")| == 10;
  }

  /** Closing takes the innermost open tag of that name, and no other. */
  lemma {:induction false} CloseTakesInnermost(outer: seq<Text>, name: Text, inner: seq<Text>)
    requires name !in inner
    ensures Close(outer + [name] + inner, name) == outer + inner && Close(inner, name) == inner
    decreases |inner|
  {
    if inner == [] {
      assert outer + [name] + inner == outer + [name] && (outer + [name])[..|outer|] == outer && outer + [] == outer;
    } else {
      var init, last := inner[..|inner| - 1], inner[|inner| - 1];
      assert inner == init + [last];
      assert outer + [name] + inner == (outer + [name] + init) + [last];
      CloseTakesInnermost(outer, name, init);
      assert outer + inner == outer + init + [last];
    }
  }

  lemma ClosingTagText(n: Text, rest: Text)
    requires PlainName(n)
    ensures var t := CloseTag(n) + rest;
            TagAt(t, 0) == Tag([SLASH] + n, rest)
  {
    var t := CloseTag(n) + rest;
    assert t[0] == LT && t[1] == SLASH && t[|n| + 2] == GT;
    assert forall i :: 1 < i < |n| + 2 ==> t[i] == n[i - 2];
    FindIs(t, LT, 0, |t|, 0);
    FindIs(t, GT, 0, |t|, |n| + 2);
    SlicesOfClosing(n, rest);
  }

  lemma SlicesOfClosing(n: Text, rest: Text)
    ensures var t := CloseTag(n) + rest;
            t[1..|n| + 2] == [SLASH] + n && t[|n| + 3..] == rest
  {
    var t := CloseTag(n) + rest;
    assert |CloseTag(n)| == |n| + 3;
    assert CloseTag(n)[1..|n| + 2] == [SLASH] + n;
    SliceInFront(CloseTag(n), rest, 1, |n| + 2);
  }

  lemma {:induction false} ClosingClosesAll(lower: Text -> Text, stack: seq<Text>)
    requires AllPaired(stack) && KeepsTagNames(lower)
    ensures OpenAfter(Effect(lower), Closing(stack), stack) == []
  {
    if stack != [] {
      CloseTagPops(lower, stack, Closing(stack[..|stack| - 1]));
      ClosingClosesAll(lower, stack[..|stack| - 1]);
    }
  }

  // ---- _truncate_html_safe ----

  /** The safe prefix: what comes before the safe offset, but for the white space at its end, and no other. */
  lemma {:induction false} PrefixDropsWhiteSpaceOnly(t: Text, cut: nat)
    ensures var p := Prefix(t, cut);
            && |p| <= SafeCut(t, cut) && p == t[..|p|] && (p != [] ==> !IsSpace(p[|p| - 1]))
            && forall i :: |p| <= i < SafeCut(t, cut) ==> IsSpace(t[i])
  {
    var u := t[..SafeCut(t, cut)];
    RStripEnds(u);
    forall i | |RStrip(u)| <= i < |u|
      ensures IsSpace(u[i])
    {
      if !IsSpace(u[i]) {
        RStripKeeps(u, i);
      }
    }
    assert forall i :: |RStrip(u)| <= i < |u| ==> u[i] == t[i];
  }

  lemma {:induction false} RStripEnds(t: Text)
    ensures RStrip(t) != [] ==> !IsSpace(RStrip(t)[|RStrip(t)| - 1])
  {
    if t != [] && IsSpace(t[|t| - 1]) {
      RStripEnds(t[..|t| - 1]);
    }
  }

  /** One attempt: the safe prefix, the ellipsis, and the closing tags. */
  function Prefix(t: Text, cut: nat): Text {
    RStrip(t[..SafeCut(t, cut)])
  }

  function Attempt(lower: Text -> Text, t: Text, cut: nat): Text {
    var prefix := Prefix(t, cut);
    prefix + ELLIPSIS + Closing(OpenAfter(Effect(lower), prefix, []))
  }

  function Attempts(lower: Text -> Text, t: Text): nat -> Text {
    (cut: nat) => Attempt(lower, t, cut)
  }

  /** Shrink the cut by the overflow until an attempt fits. */
  function Shrink(attempt: nat -> Text, limit: int, cut: int): Text
    decreases cut
  {
    if cut <= 0 then []
    else
      var over := Utf16Len(attempt(cut)) - limit;
      if over <= 0 then attempt(cut) else Shrink(attempt, limit, cut - over)
  }

  function FirstCut(t: Text, limit: int): int {
    var total := Utf16Len(t);
    if |t| > 20000 && total > limit then
      var scaled := Min(limit, |t| * limit / (if total > 1 then total else 1));
      if scaled < 1 then 1 else scaled
    else limit
  }

  function Truncated(lower: Text -> Text, t: Text, limit: int): Text {
    if Utf16Len(t) <= limit then t else Shrink(Attempts(lower, t), limit, FirstCut(t, limit))
  }

  /** What fits is sent as it is. */
  lemma FittingIsUnchanged(lower: Text -> Text, t: Text, limit: int)
    ensures Utf16Len(t) <= limit ==> Truncated(lower, t, limit) == t
  {
  }

  /** These are the attempts; the trigger keeps them folded in the proof of the loop. */
  ghost predicate AreAttempts(attempts: nat -> Text, lower: Text -> Text, t: Text) {
    forall cut: nat {:trigger Attempt(lower, t, cut)} :: attempts(cut) == Attempt(lower, t, cut)
  }

  method MakeAttempt(lower: Text -> Text, t: Text, cut: nat, ghost attempts: nat -> Text) returns (r: Text)
    requires AreAttempts(attempts, lower, t)
    ensures r == attempts(cut)
  {
    var offset := SafeCutOffset(t, cut);
    var prefix := RStrip(t[..offset]);
    var stack := OpenTags(lower, prefix);
    r := prefix + ELLIPSIS + Closing(stack);
    assert r == Attempt(lower, t, cut);
  }

  lemma ShrinkStep(attempt: nat -> Text, limit: int, cut: int, over: int)
    requires cut > 0 && over == Utf16Len(attempt(cut)) - limit
    ensures Shrink(attempt, limit, cut) == if over <= 0 then attempt(cut) else Shrink(attempt, limit, cut - over)
  {
  }

  /** The loop of `_truncate_html_safe`; it ends because every attempt that does not fit lowers the cut. */
  method ShrinkToFit(
    lower: Text -> Text, t: Text, limit: int, firstCut: int, ghost attempts: nat -> Text)
    returns (r: Text)
    requires AreAttempts(attempts, lower, t)
    ensures r == Shrink(attempts, limit, firstCut)
  {
    var cut := firstCut;
    while cut > 0
      invariant Shrink(attempts, limit, cut) == Shrink(attempts, limit, firstCut)
      decreases cut
    {
      r := MakeAttempt(lower, t, cut, attempts);
      var over := Utf16Len(r) - limit;
      ShrinkStep(attempts, limit, cut, over);
      if over <= 0 {
        return;
      }
      cut := cut - over;
    }
    r := [];
  }

  /** `_truncate_html_safe` */
  method TruncateHtmlSafe(lower: Text -> Text, t: Text, limit: int) returns (r: Text)
    ensures r == Truncated(lower, t, limit)
  {
    if Utf16Len(t) <= limit {
      return t;
    }
    r := ShrinkToFit(lower, t, limit, FirstCut(t, limit), Attempts(lower, t));
  }

  lemma PrefixIsClosed(t: Text, cut: nat)
    ensures TagClosed(Prefix(t, cut), |Prefix(t, cut)|)
  {
    var c := SafeCut(t, cut);
    TagCutIsLargestClosed(t, EntityCut(t, Min(cut, |t|)));
    var p := Prefix(t, cut);
    forall i | 0 <= i < |p| && p[i] == LT
      ensures ClosedBefore(p, i, |p|)
    {
      assert t[i] == LT && ClosedBefore(t, i, c);
      var j :| i < j < c && t[j] == GT;
      assert t[..c][j] == GT && !IsSpace(GT);
      RStripKeeps(t[..c], j);
      assert j < |p| && p[j] == GT;
    }
  }

  /** Every attempt, fitting or not, is balanced. */
  lemma AttemptIsBalanced(lower: Text -> Text, t: Text, cut: nat)
    requires KeepsTagNames(lower)
    ensures OpenAfter(Effect(lower), Attempt(lower, t, cut), []) == []
  {
    var p := Prefix(t, cut);
    var stack := OpenAfter(Effect(lower), p, []);
    PrefixIsClosed(t, cut);
    OpenAfterPaired(lower, p, []);
    assert p + ELLIPSIS + Closing(stack) == p + (ELLIPSIS + Closing(stack));
    OpenAfterConcat(Effect(lower), p, ELLIPSIS + Closing(stack), []);
    OpenAfterConcat(Effect(lower), ELLIPSIS, Closing(stack), stack);
    FindIsNone(ELLIPSIS, LT, 0, 3);
    ClosingClosesAll(lower, stack);
  }

  lemma {:induction false} ShrinkFinds(attempt: nat -> Text, limit: int, cut: int) returns (c: nat)
    ensures var r := Shrink(attempt, limit, cut);
            r == [] || (c <= cut && r == attempt(c) && Utf16Len(r) <= limit)
    decreases cut
  {
    c := 0;
    if cut > 0 {
      var over := Utf16Len(attempt(cut)) - limit;
      if over <= 0 {
        c := cut;
      } else {
        c := ShrinkFinds(attempt, limit, cut - over);
      }
    }
  }

  /**
   A truncated message fits, leaves no tag open, and is a prefix of the text that is cut neither
   inside a tag nor, when the entities are short, inside an entity, followed by the ellipsis and
   the closing tags.
   */
  lemma TruncationIsSafe(lower: Text -> Text, t: Text, limit: nat) returns (cut: nat)
    requires KeepsTagNames(lower) && Utf16Len(t) > limit
    ensures var r := Truncated(lower, t, limit);
            && Utf16Len(r) <= limit && OpenAfter(Effect(lower), r, []) == []
            && (r == [] || (r == Attempt(lower, t, cut) && Prefix(t, cut) <= t && TagClosed(t, |Prefix(t, cut)|)))
    ensures ShortEntities(t) ==> forall a: nat, e: nat :: Entity(t, a, e) ==> !(a < |Prefix(t, cut)| < e)
  {
    cut := ShrinkFinds(Attempts(lower, t), limit, FirstCut(t, limit));
    AttemptIsBalanced(lower, t, cut);
    PrefixIsClosed(t, cut);
    var p := Prefix(t, cut);
    forall i | 0 <= i < |p| && t[i] == LT
      ensures ClosedBefore(t, i, |p|)
    {
      assert p[i] == LT && ClosedBefore(p, i, |p|);
    }
    if ShortEntities(t) {
      forall a: nat, e: nat | Entity(t, a, e)
        ensures !(a < |p| < e)
      {
        PrefixAvoidsEntity(t, cut, a, e);
      }
    }
  }

  lemma PrefixAvoidsEntity(t: Text, cut: nat, a: nat, e: nat)
    requires ShortEntities(t) && Entity(t, a, e)
    ensures !(a < |Prefix(t, cut)| < e)
  {
    CutsEntityIff(t, cut, a, e);
    var f: nat :| f <= a + MAX_ENTITY_LEN && Entity(t, a, f);
    assert e == f;
    var c := SafeCut(t, cut);
    if e <= c {
      assert t[..c][e - 1] == SEMICOLON && !IsSpace(SEMICOLON);
      RStripKeeps(t[..c], e - 1);
    }
  }
}
