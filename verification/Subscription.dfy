/**
 Publishing a subscription and reading it back: the links of the live configs, stamped with their
 country, joined into lines behind a watermark line, base64-encoded; and the fast track's reader,
 which decodes the file, splits it into lines and drops the watermark.
 */
module Subscription {
  import opened Configs
  import opened Options
  import opened Sequences
  import opened WhiteSpace
  import Base64

  /**
   The code this model does not look into: the UTF-8 codec, the case tables, country detection, the
   JSON inside a vmess link, and base64 decoding that skips what is not in the alphabet.
   vmessAddress is the `add` field of a decoded vmess payload.
   */
  datatype Outside = Outside(
    utf8: string -> seq<Base64.Byte>, fromUtf8: seq<Base64.Byte> -> Option<string>,
    upper: string -> string, lower: string -> string, detectsCountry: string -> bool,
    stampVmess: (string, string) -> string,
    lenientDecode: string -> Option<seq<Base64.Byte>>, vmessAddress: seq<Base64.Byte> -> Option<string>,
    watermarkPayload: seq<Base64.Byte>)
  {
    ghost predicate Sound() {
      && (forall s :: fromUtf8(utf8(s)) == Some(s))
      && (forall b :: lenientDecode(Base64.Encode(b)) == Some(b))
      && vmessAddress(watermarkPayload) == Some("0.0.0.0")
    }
  }

  // ---- string methods ----

  predicate StartsAt(t: string, sub: string, i: nat) {
    i + |sub| <= |t| && t[i..i + |sub|] == sub
  }

  predicate Contains(t: string, sub: string) {
    exists i :: 0 <= i <= |t| && StartsAt(t, sub, i)
  }

  /** `t.partition(c)[0]`, which is also `t.split(c, 1)[0]`. */
  function Before(t: string, c: char): (r: string)
    ensures r <= t && c !in r
    ensures r == t || (|r| < |t| && t[|r|] == c)
  {
    if t == "" || t[0] == c then "" else [t[0]] + Before(t[1..], c)
  }

  /** `t.split("://", 1)[0]` */
  function Scheme(t: string): string {
    if t == "" || StartsAt(t, "://", 0) then "" else [t[0]] + Scheme(t[1..])
  }

  predicate Space(c: char) {
    IsSpace(c as int)
  }

  function Strip(t: string): (r: string)
    ensures |r| <= |t|
  {
    if t == "" then ""
    else if Space(t[0]) then Strip(t[1..])
    else if Space(t[|t| - 1]) then Strip(t[..|t| - 1])
    else t
  }

  predicate Boundary(c: char) {
    IsLineBoundary(c as int)
  }

  function FirstBoundary(t: string): (n: nat)
    ensures n <= |t| && (n < |t| ==> Boundary(t[n]))
    ensures forall i :: 0 <= i < n ==> !Boundary(t[i])
  {
    if t == "" || Boundary(t[0]) then 0 else 1 + FirstBoundary(t[1..])
  }

  /** `t.splitlines()` */
  function SplitLines(t: string): seq<string> {
    if t == "" then []
    else
      var n := FirstBoundary(t);
      if n == |t| then [t]
      else
        var skip := if t[n] == '\r' && n + 1 < |t| && t[n + 1] == '\n' then 2 else 1;
        [t[..n]] + SplitLines(t[n + skip..])
  }

  /** `"\n".join(lines)` */
  function Join(lines: seq<string>): string {
    if lines == [] then ""
    else if |lines| == 1 then lines[0]
    else lines[0] + "\n" + Join(lines[1..])
  }

  // ---- publishing ----

  function WatermarkLink(o: Outside): string {
    "vmess://" + Base64.Encode(o.watermarkPayload)
  }

  /** `_with_country_fragment` */
  function WithCountryFragment(o: Outside, c: Config): string {
    if c.rawLink == "" || c.country.None? || c.country.value == "" then c.rawLink
    else
      var code := o.upper(c.country.value);
      if o.detectsCountry(c.remark) then c.rawLink
      else if o.lower(Scheme(c.rawLink)) == "vmess" then o.stampVmess(c.rawLink, code)
      else Stamped(c.rawLink, code)
  }

  /** The link with the code in its fragment. */
  function Stamped(link: string, code: string): string {
    Before(link, '#') + "#" + StampedFragment(After(link, '#'), code)
  }

  /** `t.partition(c)[2]` */
  function After(t: string, c: char): string {
    if |Before(t, c)| < |t| then t[|Before(t, c)| + 1..] else ""
  }

  /** The fragment with the code appended, cut so that it stays within 256 characters. */
  function StampedFragment(frag: string, code: string): string {
    if frag == "" then code
    else if |frag| + 1 + |code| <= 256 then frag + "-" + code
    else if |code| < 255 then Take(frag, 255 - |code|) + "-" + code
    else code
  }

  /** `_safe_raw_link`: None for an empty link and for one with control characters. */
  function SafeRawLink(link: string): Option<string> {
    if link == "" || exists i :: 0 <= i < |link| && (link[i] as int < 0x20 || link[i] as int == 0x7F) then None
    else Some(link)
  }

  /** The link a config contributes, if any. */
  function Published(o: Outside, c: Config): Option<string> {
    if c.Dead() then None else SafeRawLink(WithCountryFragment(o, c))
  }

  function Links(o: Outside, configs: seq<Config>): seq<string> {
    if configs == [] then []
    else
      var last := Published(o, configs[|configs| - 1]);
      Links(o, configs[..|configs| - 1]) + if last.Some? then [last.value] else []
  }

  method GeneratePlain(o: Outside, configs: seq<Config>) returns (text: string)
    ensures text == FileText(o, Plain, configs)
  {
    var links := [WatermarkLink(o)];
    for i := 0 to |configs|
      invariant links == [WatermarkLink(o)] + Links(o, configs[..i])
    {
      assert configs[..i + 1][..i] == configs[..i];
      if configs[i].Dead() {
        continue;
      }
      var safe := SafeRawLink(WithCountryFragment(o, configs[i]));
      if safe.Some? {
        links := links + [safe.value];
      }
    }
    assert configs[..|configs|] == configs;
    text := Join(links);
  }

  datatype Format = Plain | InBase64

  function PlainText(o: Outside, configs: seq<Config>): string {
    Join([WatermarkLink(o)] + Links(o, configs))
  }

  /** The text of a subscription file. */
  function FileText(o: Outside, format: Format, configs: seq<Config>): string {
    match format
    case Plain => PlainText(o, configs)
    case InBase64 => Base64.Encode(o.utf8(PlainText(o, configs)))
  }

  method GenerateBase64(o: Outside, configs: seq<Config>) returns (text: string)
    ensures text == FileText(o, InBase64, configs)
  {
    var plain := GeneratePlain(o, configs);
    text := Base64.Encode(o.utf8(plain));
  }

  // ---- reading back ----

  /** The noise that `is_watermark_vmess` removes from a payload. */
  predicate Noise(c: char) {
    || Space(c) || c as int in {0xFEFF, 0x200B, 0x200C, 0x200D, 0x200E, 0x200F, 0x2060}
    || 0x202A <= c as int <= 0x202E
  }

  function StandardAlphabet(c: char): char {
    if c == '-' then '+' else if c == '_' then '/' else c
  }

  function Normalised(body: string): string {
    if body == "" then ""
    else (if Noise(body[0]) then "" else [StandardAlphabet(body[0])]) + Normalised(body[1..])
  }

  function Padding(n: nat): (p: string)
    ensures n % 4 == 0 ==> p == ""
  {
    seq((4 - n % 4) % 4, _ => '=')
  }

  predicate IsWatermarkVmess(o: Outside, line: string) {
    && "vmess://" <= line
    && var body := Normalised(Strip(Before(Before(line[8..], '#'), '?')));
       var payload := o.lenientDecode(body + Padding(|body|));
       payload.Some? && o.vmessAddress(payload.value) == Some("0.0.0.0")
  }

  /** The lines that count as links. */
  predicate LinkLine(o: Outside, line: string) {
    Contains(line, "://") && !IsWatermarkVmess(o, line)
  }

  function LinkLines(o: Outside, lines: seq<string>): seq<string> {
    if lines == [] then []
    else
      var line := Strip(lines[|lines| - 1]);
      LinkLines(o, lines[..|lines| - 1]) + if LinkLine(o, line) then [line] else []
  }

  /** The text of a published file: decoded unless it already holds a link or does not decode. */
  function PublishedText(o: Outside, raw: string): string {
    var text := Strip(raw);
    if Contains(text, "://") then text
    else
      var bytes := Base64.Decode(text);
      if bytes.None? then text
      else
        var decoded := o.fromUtf8(bytes.value);
        if decoded.None? then text else decoded.value
  }

  method ReadPublished(o: Outside, raw: string) returns (links: seq<string>)
    ensures links == LinkLines(o, SplitLines(PublishedText(o, raw)))
  {
    var lines := SplitLines(PublishedText(o, raw));
    links := [];
    for i := 0 to |lines|
      invariant links == LinkLines(o, lines[..i])
    {
      assert lines[..i + 1][..i] == lines[..i];
      var line := Strip(lines[i]);
      if LinkLine(o, line) {
        links := links + [line];
      }
    }
    assert lines[..|lines|] == lines;
  }

  /** What `is_watermark_vmess` removes: white space, the byte order mark, zero-width and direction marks. */
  lemma {:induction false} NoiseIsIgnored(a: string, c: char, b: string)
    requires c as int in {0x20, 0x09, 0x0A, 0x0D, 0xA0, 0xFEFF, 0x200B, 0x200C, 0x200D, 0x200E, 0x200F, 0x2060}
             || 0x202A <= c as int <= 0x202E
    ensures Normalised(a + [c] + b) == Normalised(a + b)
  {
    if a == "" {
      assert ([c] + b)[1..] == b && a + b == b && a + [c] + b == [c] + b;
    } else {
      assert (a + [c] + b)[1..] == a[1..] + [c] + b && (a + b)[1..] == a[1..] + b;
      NoiseIsIgnored(a[1..], c, b);
    }
  }

  /** The two alphabets of base64 are read as one, and missing padding is added. */
  lemma AlphabetsAreOne(body: string)
    ensures Normalised("-") == "+" && Normalised("_") == "/" && Normalised("") == ""
    ensures (|body| + |Padding(|body|)|) % 4 == 0 && |Padding(|body|)| < 4
    ensures forall i :: 0 <= i < |Padding(|body|)| ==> Padding(|body|)[i] == '='
  {
    assert "-"[1..] == "" && "_"[1..] == "";
  }

  // ---- the round trip ----

  ghost predicate NoBoundary(t: string) {
    forall i :: 0 <= i < |t| ==> !Boundary(t[i])
  }

  /** A link that survives being a line of the file: one line, no white space around it, and recognised as a link. */
  ghost predicate Republishable(o: Outside, link: string) {
    NoBoundary(link) && Strip(link) == link && LinkLine(o, link)
  }

  lemma {:induction false} StripEnds(t: string)
    ensures var r := Strip(t); r == "" || (!Space(r[0]) && !Space(r[|r| - 1]))
    ensures Strip(Strip(t)) == Strip(t)
    ensures NoBoundary(t) ==> NoBoundary(Strip(t))
    decreases |t|
  {
    if t != "" {
      if Space(t[0]) {
        StripEnds(t[1..]);
      } else if Space(t[|t| - 1]) {
        StripEnds(t[..|t| - 1]);
      }
    }
  }

  lemma BoundaryFront(line: string, rest: string)
    requires NoBoundary(line)
    ensures FirstBoundary(line + rest) == |line| + FirstBoundary(rest)
  {
    if line == "" {
      assert line + rest == rest;
    } else {
      assert (line + rest)[1..] == line[1..] + rest;
      BoundaryFront(line[1..], rest);
    }
  }

  /** Lines that are not empty and hold no line boundary come back from being joined. */
  lemma {:induction false} SplitJoin(lines: seq<string>)
    requires forall i :: 0 <= i < |lines| ==> lines[i] != "" && NoBoundary(lines[i])
    ensures SplitLines(Join(lines)) == lines
  {
    if lines != [] {
      var line := lines[0];
      if |lines| == 1 {
        BoundaryFront(line, "");
        assert line + "" == line;
        assert lines == [line];
      } else {
        var rest := "\n" + Join(lines[1..]);
        var t := line + rest;
        assert t == Join(lines);
        BoundaryFront(line, rest);
        assert rest[0] == '\n' && FirstBoundary(rest) == 0;
        assert t[|line|] == '\n';
        assert t[..|line|] == line && t[|line| + 1..] == Join(lines[1..]);
        SplitJoin(lines[1..]);
        assert lines == [line] + lines[1..];
      }
    }
  }

  lemma {:induction false} LinesHaveNoBoundary(t: string)
    ensures forall i :: 0 <= i < |SplitLines(t)| ==> NoBoundary(SplitLines(t)[i])
    decreases |t|
  {
    if t != "" {
      var n := FirstBoundary(t);
      if n < |t| {
        var skip := if t[n] == '\r' && n + 1 < |t| && t[n + 1] == '\n' then 2 else 1;
        LinesHaveNoBoundary(t[n + skip..]);
      }
    }
  }

  lemma ContainedChars(t: string, sub: string, c: char)
    ensures Contains(t, sub) && c in sub ==> c in t
  {
    if Contains(t, sub) && c in sub {
      var i :| 0 <= i <= |t| && StartsAt(t, sub, i);
      var k :| 0 <= k < |sub| && sub[k] == c;
      assert t[i..i + |sub|][k] == t[i + k];
    }
  }

  lemma {:induction false} BeforeAll(t: string, c: char)
    requires c !in t
    ensures Before(t, c) == t
  {
    if t != "" {
      assert c !in t[1..];
      BeforeAll(t[1..], c);
    }
  }

  lemma {:induction false} NormalisedAlphabetic(t: string)
    requires forall i :: 0 <= i < |t| ==> Base64.Alphabetic(t[i])
    ensures Normalised(t) == t
  {
    if t != "" {
      assert Base64.Alphabetic(t[0]);
      NormalisedAlphabetic(t[1..]);
    }
  }

  lemma Base64IsPlain(b: seq<Base64.Byte>)
    ensures var t := Base64.Encode(b);
            '#' !in t && '?' !in t && !Contains(t, "://") && Strip(t) == t
  {
    Base64.EncodeShape(b);
    var t := Base64.Encode(b);
    assert !Base64.Alphabetic('#') && !Base64.Alphabetic('?') && !Base64.Alphabetic(':');
    assert "://"[0] == ':';
    ContainedChars(t, "://", ':');
    if t != "" {
      assert Base64.Alphabetic(t[0]) && Base64.Alphabetic(t[|t| - 1]);
    }
  }

  /** The watermark is recognised, whatever repository it names. */
  lemma WatermarkIsRecognised(o: Outside)
    requires o.Sound()
    ensures IsWatermarkVmess(o, WatermarkLink(o))
  {
    var line, t := WatermarkLink(o), Base64.Encode(o.watermarkPayload);
    assert line[8..] == t;
    Base64IsPlain(o.watermarkPayload);
    Base64.EncodeShape(o.watermarkPayload);
    BeforeAll(t, '#');
    BeforeAll(t, '?');
    NormalisedAlphabetic(t);
    assert t + Padding(|t|) == t;
  }

  /** So it is with a fragment or a query behind it. */
  lemma WatermarkWithTail(o: Outside, c: char, tail: string)
    requires o.Sound() && c in {'#', '?'}
    ensures IsWatermarkVmess(o, WatermarkLink(o) + [c] + tail)
  {
    var t := Base64.Encode(o.watermarkPayload);
    var line := WatermarkLink(o) + [c] + tail;
    assert line[..8] == "vmess://" && line[8..] == t + [c] + tail;
    Base64IsPlain(o.watermarkPayload);
    WatermarkIsRecognised(o);
    assert WatermarkLink(o)[8..] == t;
    BeforeAll(t, '#');
    BeforeAll(t, '?');
    BeforeMark(t, tail, c);
    if c == '?' {
      BeforeTwice(t, tail);
    }
  }

  /** The text before the first `#` of such a line still starts with the payload and the `?`. */
  lemma BeforeTwice(t: string, tail: string)
    requires '#' !in t && '?' !in t
    ensures Before(Before(t + ['?'] + tail, '#'), '?') == t
  {
    var rest := Before(tail, '#');
    BeforeIn(t + ['?'], tail, '#');
    BeforeMark(t, rest, '?');
  }

  lemma {:induction false} BeforeIn(front: string, rest: string, c: char)
    requires c !in front
    ensures Before(front + rest, c) == front + Before(rest, c)
  {
    if front == "" {
      assert front + rest == rest;
    } else {
      assert (front + rest)[1..] == front[1..] + rest;
      assert c !in front[1..];
      BeforeIn(front[1..], rest, c);
      assert front == [front[0]] + front[1..];
    }
  }

  lemma WatermarkIsOneLine(o: Outside)
    ensures NoBoundary(WatermarkLink(o)) && Strip(WatermarkLink(o)) == WatermarkLink(o)
  {
    var line, t := WatermarkLink(o), Base64.Encode(o.watermarkPayload);
    Base64.EncodeShape(o.watermarkPayload);
    forall i | 0 <= i < |line|
      ensures !Boundary(line[i]) && !Space(line[i])
    {
      if i < 8 {
        assert line[i] == "vmess://"[i];
      } else {
        assert Base64.Alphabetic(t[i - 8]);
      }
    }
  }

  lemma {:induction false} LinkLinesOfLinks(o: Outside, lines: seq<string>)
    requires forall i :: 0 <= i < |lines| ==> Republishable(o, lines[i])
    ensures LinkLines(o, lines) == lines
  {
    if lines != [] {
      LinkLinesOfLinks(o, lines[..|lines| - 1]);
      assert lines == lines[..|lines| - 1] + [lines[|lines| - 1]];
    }
  }

  lemma {:induction false} LinkLinesConcat(o: Outside, a: seq<string>, b: seq<string>)
    ensures LinkLines(o, a + b) == LinkLines(o, a) + LinkLines(o, b)
  {
    if b == [] {
      assert a + b == a;
    } else {
      var init := b[..|b| - 1];
      assert (a + b)[..|a + b| - 1] == a + init;
      LinkLinesConcat(o, a, init);
    }
  }

  lemma {:induction false} LinkLinesAreRepublishable(o: Outside, lines: seq<string>)
    requires forall i :: 0 <= i < |lines| ==> NoBoundary(lines[i])
    ensures forall i :: 0 <= i < |LinkLines(o, lines)| ==> Republishable(o, LinkLines(o, lines)[i])
  {
    if lines != [] {
      LinkLinesAreRepublishable(o, lines[..|lines| - 1]);
      StripEnds(lines[|lines| - 1]);
    }
  }

  lemma ContainsAtFront(t: string, sub: string, i: nat, rest: string)
    requires i <= |t| && StartsAt(t, sub, i)
    ensures Contains(t + rest, sub)
  {
    assert (t + rest)[i..i + |sub|] == t[i..i + |sub|];
    assert StartsAt(t + rest, sub, i);
  }

  lemma PlainHoldsLink(o: Outside, configs: seq<Config>)
    ensures Contains(PlainText(o, configs), "://")
  {
    var wm := WatermarkLink(o);
    assert wm[5..8] == "://" by {
      assert wm[5] == ':' && wm[6] == '/' && wm[7] == '/';
    }
    assert StartsAt(wm, "://", 5);
    var lines := [wm] + Links(o, configs);
    if |lines| == 1 {
      ContainsAtFront(wm, "://", 5, "");
      assert wm + "" == wm;
    } else {
      ContainsAtFront(wm, "://", 5, "\n" + Join(lines[1..]));
      assert Join(lines) == wm + ("\n" + Join(lines[1..]));
    }
  }

  lemma {:induction false} StripWhole(t: string)
    requires t != "" ==> !Space(t[0]) && !Space(t[|t| - 1])
    ensures Strip(t) == t
  {
  }

  lemma {:induction false} JoinEnds(lines: seq<string>)
    requires lines != [] && forall i :: 0 <= i < |lines| ==> lines[i] != "" && Strip(lines[i]) == lines[i]
    ensures Join(lines) != "" && !Space(Join(lines)[0]) && !Space(Join(lines)[|Join(lines)| - 1])
  {
    StripEnds(lines[0]);
    if |lines| > 1 {
      JoinEnds(lines[1..]);
      assert Join(lines) == lines[0] + ("\n" + Join(lines[1..]));
    }
  }

  /** Reading a file of either format back recovers the text that was published, but for white space around it. */
  lemma PublishedTextIsPlain(o: Outside, format: Format, configs: seq<Config>)
    requires o.Sound()
    ensures PublishedText(o, FileText(o, format, configs)) ==
            if format.Plain? then Strip(PlainText(o, configs)) else PlainText(o, configs)
  {
    match format
    case Plain =>
      PlainHoldsLink(o, configs);
      StripKeepsLink(o, configs);
    case InBase64 =>
      var bytes := o.utf8(PlainText(o, configs));
      Base64IsPlain(bytes);
      Base64.DecodeEncode(bytes);
  }

  /** Stripping the published text leaves its first line, and with that the mark of a link. */
  lemma StripKeepsLink(o: Outside, configs: seq<Config>)
    ensures Contains(Strip(PlainText(o, configs)), "://")
  {
    var t := PlainText(o, configs);
    var lines := [WatermarkLink(o)] + Links(o, configs);
    assert t == if |lines| == 1 then WatermarkLink(o) else WatermarkLink(o) + ("\n" + Join(lines[1..]));
    assert WatermarkLink(o)[..8] == "vmess://";
    assert t[..8] == "vmess://";
    assert !Space(t[0]) && !Space(t[7]) by {
      assert t[0] == t[..8][0] && t[7] == t[..8][7];
    }
    StripKeepsFront(t, 7);
    var r := Strip(t);
    assert r[..8] == t[..8];
    assert r[5..8] == r[..8][5..8] == "://";
    assert StartsAt(r, "://", 5);
  }

  /** What comes up to a character that is no white space, in a text that starts with none, stays. */
  lemma {:induction false} StripKeepsFront(t: string, i: nat)
    requires i < |t| && !Space(t[0]) && !Space(t[i])
    ensures i < |Strip(t)| && Strip(t) <= t
    decreases |t|
  {
    if Space(t[|t| - 1]) {
      StripKeepsFront(t[..|t| - 1], i);
    }
  }

  /** What the fast track reads from a file the publisher wrote. */
  function Reread(o: Outside, format: Format, configs: seq<Config>): seq<string> {
    LinkLines(o, SplitLines(PublishedText(o, FileText(o, format, configs))))
  }

  lemma LinesOfGoodLinks(o: Outside, format: Format, configs: seq<Config>)
    requires o.Sound() && forall i :: 0 <= i < |Links(o, configs)| ==> Republishable(o, Links(o, configs)[i])
    ensures SplitLines(PublishedText(o, FileText(o, format, configs))) == [WatermarkLink(o)] + Links(o, configs)
  {
    var lines := [WatermarkLink(o)] + Links(o, configs);
    WatermarkIsOneLine(o);
    forall i | 0 <= i < |lines|
      ensures lines[i] != "" && NoBoundary(lines[i]) && Strip(lines[i]) == lines[i]
    {
      assert i > 0 ==> lines[i] == Links(o, configs)[i - 1] && Republishable(o, lines[i]);
      assert !Contains("", "://");
    }
    JoinEnds(lines);
    StripWhole(PlainText(o, configs));
    PublishedTextIsPlain(o, format, configs);
    SplitJoin(lines);
  }

  lemma RereadGoodLinks(o: Outside, format: Format, configs: seq<Config>)
    requires o.Sound() && forall i :: 0 <= i < |Links(o, configs)| ==> Republishable(o, Links(o, configs)[i])
    ensures Reread(o, format, configs) == Links(o, configs)
  {
    var links, wm := Links(o, configs), WatermarkLink(o);
    LinesOfGoodLinks(o, format, configs);
    WatermarkIsRecognised(o);
    WatermarkIsOneLine(o);
    LinkLinesConcat(o, [wm], links);
    LinkLinesOfLinks(o, links);
    assert [wm][..0] == [];
    assert LinkLines(o, [wm]) == [];
  }

  /**
   Publish then reread is the identity on the published links exactly when every link is republishable,
   in both formats. A link that is not breaks it, whatever the others are.
   */
  lemma RoundTripIff(o: Outside, format: Format, configs: seq<Config>)
    requires o.Sound()
    ensures Reread(o, format, configs) == Links(o, configs) <==>
            forall i :: 0 <= i < |Links(o, configs)| ==> Republishable(o, Links(o, configs)[i])
  {
    var links := Links(o, configs);
    if forall i :: 0 <= i < |links| ==> Republishable(o, links[i]) {
      RereadGoodLinks(o, format, configs);
    } else {
      var text := PublishedText(o, FileText(o, format, configs));
      LinesHaveNoBoundary(text);
      LinkLinesAreRepublishable(o, SplitLines(text));
    }
  }

  /** Links without white space are republishable once they are recognised as links. */
  lemma WhiteSpaceFreeIsRepublishable(o: Outside, link: string)
    requires forall i :: 0 <= i < |link| ==> !Space(link[i])
    ensures Republishable(o, link) <==> LinkLine(o, link)
  {
    assert forall c: char :: Boundary(c) ==> Space(c);
  }

  /** The round trip for links without white space, each with a scheme and none a watermark. */
  lemma CleanLinksRoundTrip(o: Outside, format: Format, configs: seq<Config>)
    requires o.Sound()
    requires forall link :: link in Links(o, configs) ==>
               LinkLine(o, link) && forall i :: 0 <= i < |link| ==> !Space(link[i])
    ensures Reread(o, format, configs) == Links(o, configs)
  {
    forall i | 0 <= i < |Links(o, configs)|
      ensures Republishable(o, Links(o, configs)[i])
    {
      assert Links(o, configs)[i] in Links(o, configs);
      WhiteSpaceFreeIsRepublishable(o, Links(o, configs)[i]);
    }
    RereadGoodLinks(o, format, configs);
  }

  /** Of the line boundaries exactly three pass the filter. */
  lemma SafeLinkBoundaryIff(link: string)
    requires SafeRawLink(link) == Some(link)
    ensures NoBoundary(link) <==> forall i :: 0 <= i < |link| ==> link[i] as int !in {0x85, 0x2028, 0x2029}
  {
  }

  /**
   `_safe_raw_link` is meant to keep a link on one line. It passes three line boundaries that are not
   control characters below 0x20, and a link with one of them is not read back.
   */
  lemma SafeLinkMayHoldBoundary(o: Outside, format: Format, base: Config, a: string, b: string, c: char)
    requires o.Sound() && c as int in {0x85, 0x2028, 0x2029}
    requires forall i :: 0 <= i < |a + b| ==> (a + b)[i] as int >= 0x20 && (a + b)[i] as int != 0x7F
    requires base.country.None? && !base.Dead()
    ensures var link := a + [c] + b;
            && SafeRawLink(link) == Some(link)
            && Links(o, [base.(rawLink := link)]) == [link]
            && Reread(o, format, [base.(rawLink := link)]) != [link]
  {
    var link := a + [c] + b;
    var config := base.(rawLink := link);
    forall i | 0 <= i < |link|
      ensures !(link[i] as int < 0x20 || link[i] as int == 0x7F)
    {
      if i < |a| {
        assert link[i] == (a + b)[i];
      } else if i > |a| {
        assert link[i] == (a + b)[i - 1];
      }
    }
    assert SafeRawLink(link) == Some(link);
    assert Links(o, [config]) == [link] by {
      assert [config][..0] == [];
    }
    assert Boundary(link[|a|]);
    assert !Republishable(o, Links(o, [config])[0]);
    RoundTripIff(o, format, [config]);
  }

  /**
   What a config contributes: nothing when it is dead, and otherwise its stamped link, provided that this
   is not empty and holds no control character.
   */
  lemma PublishedIff(o: Outside, c: Config, link: string)
    ensures Published(o, c) == Some(link) <==>
            && c.isAlive != Some(false) && link == WithCountryFragment(o, c) && link != ""
            && forall i :: 0 <= i < |link| ==> link[i] as int >= 0x20 && link[i] as int != 0x7F
  {
  }

  /** Each config contributes on its own, and in order. */
  lemma {:induction false} LinksConcat(o: Outside, a: seq<Config>, b: seq<Config>)
    ensures Links(o, a + b) == Links(o, a) + Links(o, b)
  {
    if b == [] {
      assert a + b == a;
    } else {
      var init := b[..|b| - 1];
      assert (a + b)[..|a + b| - 1] == a + init;
      LinksConcat(o, a, init);
    }
  }

  /** A line that is not a vmess link is a link as soon as it has a scheme mark. */
  lemma OtherSchemesAreLinks(o: Outside, line: string)
    requires !("vmess://" <= line)
    ensures LinkLine(o, line) <==> exists a: string, b: string :: line == a + "://" + b
  {
    if Contains(line, "://") {
      var i :| 0 <= i <= |line| && StartsAt(line, "://", i);
      assert line == line[..i] + "://" + line[i + 3..];
    }
    if a: string, b: string :| line == a + "://" + b {
      assert line[|a|..|a| + 3] == "://";
      assert StartsAt(line, "://", |a|);
    }
  }

  // ---- what stamping changes ----

  /**
   Which link is stamped, and with what: one with a country that its remark does not name. A vmess link
   holds its name inside; any other gets the country's code at the end of its fragment.
   */
  lemma StampedIff(o: Outside, c: Config)
    requires c.rawLink != ""
    ensures var link := WithCountryFragment(o, c);
            if c.country.None? || c.country.value == "" || o.detectsCountry(c.remark) then link == c.rawLink
            else
              var code := o.upper(c.country.value);
              if o.lower(Scheme(c.rawLink)) == "vmess" then link == o.stampVmess(c.rawLink, code)
              else FragmentEndsWith(link, code)
  {
    if c.country.Some? {
      StampedEndsWithCode(c.rawLink, o.upper(c.country.value));
    }
  }

  predicate FragmentEndsWith(link: string, code: string) {
    '#' in link && |code| <= |link| && link[|link| - |code|..] == code
  }

  lemma StampedEndsWithCode(link: string, code: string)
    ensures FragmentEndsWith(Stamped(link, code), code)
  {
    var frag := StampedFragment(After(link, '#'), code);
    StampedFragmentEndsWithCode(After(link, '#'), code);
    EndsAsSuffix(Before(link, '#'), frag, |code|);
  }

  lemma EndsAsSuffix(head: string, suffix: string, n: nat)
    requires n <= |suffix|
    ensures var t := head + "#" + suffix;
            '#' in t && n <= |t| && t[|t| - n..] == suffix[|suffix| - n..]
  {
    var t := head + "#" + suffix;
    assert t[|head|] == '#';
  }

  /** The scheme is what comes before the first `://`. */
  lemma {:induction false} SchemeOfLink(scheme: string, rest: string)
    requires ':' !in scheme
    ensures Scheme(scheme + "://" + rest) == scheme
  {
    var t := scheme + "://" + rest;
    if scheme == "" {
      assert t[..3] == "://";
    } else {
      assert t[0] == scheme[0] && t[1..] == scheme[1..] + "://" + rest;
      assert t[0..3][0] != "://"[0];
      assert ':' !in scheme[1..];
      SchemeOfLink(scheme[1..], rest);
    }
  }

  /** Outside vmess, stamping leaves everything before the fragment unchanged. */
  lemma StampKeepsHead(o: Outside, c: Config)
    requires o.lower(Scheme(c.rawLink)) != "vmess"
    ensures Before(WithCountryFragment(o, c), '#') == Before(c.rawLink, '#')
  {
    var head := Before(c.rawLink, '#');
    var link := WithCountryFragment(o, c);
    if link != c.rawLink {
      var frag := StampedFragment(After(c.rawLink, '#'), o.upper(c.country.value));
      assert link == head + "#" + frag;
      BeforeMark(head, frag, '#');
    }
  }

  lemma {:induction false} BeforeMark(head: string, rest: string, c: char)
    requires c !in head
    ensures Before(head + [c] + rest, c) == head
  {
    var t := head + [c] + rest;
    if head != "" {
      assert t[1..] == head[1..] + [c] + rest;
      assert c !in head[1..];
      BeforeMark(head[1..], rest, c);
    }
  }

  /** A stamped fragment ends with the code, keeps a prefix of the old one, and stays within 256 if the code does. */
  lemma StampedFragmentEndsWithCode(frag: string, code: string)
    ensures var f := StampedFragment(frag, code);
            && |code| <= |f| && f[|f| - |code|..] == code
            && (|code| <= 256 ==> |f| <= 256)
            && (frag != "" && |code| < 255 ==> f[..|f| - |code| - 1] <= frag && f[|f| - |code| - 1] == '-')
            && (frag != "" && |frag| + 1 + |code| <= 256 ==> f[..|f| - |code| - 1] == frag)
  {
  }
}
