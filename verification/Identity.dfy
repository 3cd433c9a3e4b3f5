/**
 The identity text behind `Config.dedup_key`: the fields of a config, each with its length in front,
 joined without a separator, and then hashed.

 A Python string is a list of code points and may hold lone surrogates, so a text here is a list of
 numbers. `str.lower`, `str.strip`, the spelling of addresses and the search for a hopping range are
 not part of this model: the functions and the values come in as parameters. The hash is injective.
 */
module Identity {
  import opened Configs
  import opened Decimals
  import opened Options
  import opened Sequences

  function FromString(s: string): (t: Text)
    ensures |t| == |s| && forall i :: 0 <= i < |s| ==> t[i] == s[i] as nat
  {
    seq(|s|, i requires 0 <= i < |s| => s[i] as nat)
  }

  // ---- the encoding ----

  /** `_part`: nothing for an empty field, and otherwise the length, a NUL and the field. */
  function Part(field: Text): Text {
    if field == [] then [] else FromString(Decimal(|field|)) + [0] + field
  }

  function Parts(fields: seq<Text>): Text {
    if fields == [] then [] else Part(fields[0]) + Parts(fields[1..])
  }

  const PORT := FromString("\0port:")

  function PortPart(badPort: Option<Text>): Text {
    if badPort.Some? then PORT + badPort.value else []
  }

  /** The text that is hashed. A port that is not a number follows the fields. */
  function Encode(fields: seq<Text>, badPort: Option<Text>): Text {
    Parts(fields) + PortPart(badPort)
  }

  function NonEmpty(fields: seq<Text>): seq<Text> {
    Filter(fields, (f: Text) => f != [])
  }

  // ---- reading it back ----

  predicate IsDigit(c: nat) {
    '0' as nat <= c <= '9' as nat
  }

  /** How many digits the text starts with. */
  function DigitCount(t: Text): (n: nat)
    ensures n <= |t| && (forall i :: 0 <= i < n ==> IsDigit(t[i])) && (n < |t| ==> !IsDigit(t[n]))
  {
    if t == [] || !IsDigit(t[0]) then 0 else 1 + DigitCount(t[1..])
  }

  function LeadingDigits(t: Text): (s: string)
    ensures |s| == DigitCount(t) && forall i :: 0 <= i < |s| ==> '0' <= s[i] <= '9' && s[i] as nat == t[i]
  {
    seq(DigitCount(t), i requires 0 <= i < DigitCount(t) => t[i] as char)
  }

  datatype Reading = Reading(fields: seq<Text>, badPort: Option<Text>)

  /** The reader that the encoding has, though nobody runs it: a field, or the port once no digit comes. */
  function Decode(t: Text): Option<Reading>
    decreases |t|
  {
    if t == [] then Some(Reading([], None))
    else if PORT <= t then Some(Reading([], Some(t[|PORT|..])))
    else
      var d := DigitCount(t);
      var size := Number(LeadingDigits(t));
      if d == |t| || t[d] != 0 || size == 0 || d + 1 + size > |t| then None
      else
        var rest := Decode(t[d + 1 + size..]);
        if rest.None? then None
        else Some(Reading([t[d + 1..d + 1 + size]] + rest.value.fields, rest.value.badPort))
  }

  lemma {:induction false} DigitsEndAtNul(digits: string, rest: Text)
    requires forall i :: 0 <= i < |digits| ==> '0' <= digits[i] <= '9'
    ensures var t := FromString(digits) + [0] + rest;
            DigitCount(t) == |digits| && LeadingDigits(t) == digits
  {
    var t := FromString(digits) + [0] + rest;
    var n := DigitCount(t);
    assert n <= |digits| by {
      assert t[|digits|] == 0;
    }
    assert n >= |digits| by {
      if n < |digits| {
        assert IsDigit(t[n]);
      }
    }
    assert forall i :: 0 <= i < |digits| ==> LeadingDigits(t)[i] == digits[i];
  }

  /** Where the reader finds the pieces of an encoded field. */
  lemma PiecesOfPart(digits: string, field: Text, rest: Text)
    requires digits != "" && forall i :: 0 <= i < |digits| ==> '0' <= digits[i] <= '9'
    ensures var t, d := FromString(digits) + [0] + (field + rest), |digits|;
            && t != [] && !(PORT <= t) && DigitCount(t) == d && LeadingDigits(t) == digits
            && d + 1 + |field| <= |t| && t[d] == 0
            && t[d + 1..d + 1 + |field|] == field && t[d + 1 + |field|..] == rest
  {
    var t := FromString(digits) + [0] + (field + rest);
    DigitsEndAtNul(digits, field + rest);
    assert t[0] == digits[0] as nat && PORT[0] == 0;
  }

  lemma DecodePart(field: Text, rest: Text)
    requires field != [] && Decode(rest).Some?
    ensures Decode(Part(field) + rest) == Some(Reading([field] + Decode(rest).value.fields, Decode(rest).value.badPort))
  {
    var digits := Decimal(|field|);
    Associative(FromString(digits) + [0], field, rest);
    PiecesOfPart(digits, field, rest);
    NumberOfDecimal(|field|);
  }

  lemma EncodeNext(fields: seq<Text>, badPort: Option<Text>)
    requires fields != []
    ensures Encode(fields, badPort) == Part(fields[0]) + Encode(fields[1..], badPort)
  {
    Associative(Part(fields[0]), Parts(fields[1..]), PortPart(badPort));
  }

  lemma NonEmptyNext(fields: seq<Text>)
    requires fields != []
    ensures NonEmpty(fields) == if fields[0] == [] then NonEmpty(fields[1..]) else [fields[0]] + NonEmpty(fields[1..])
  {
  }

  lemma DecodePort(badPort: Option<Text>)
    ensures Decode(Encode([], badPort)) == Some(Reading([], badPort))
  {
    var t := Encode([], badPort);
    if badPort.Some? {
      assert t == PORT + badPort.value;
      assert PORT <= t && t[|PORT|..] == badPort.value;
    } else {
      assert t == [];
    }
  }

  /** Whatever the fields hold, digits and NULs included, those that are not empty can be read back, and the port. */
  lemma {:induction false} DecodeEncode(fields: seq<Text>, badPort: Option<Text>)
    ensures Decode(Encode(fields, badPort)) == Some(Reading(NonEmpty(fields), badPort))
  {
    if fields == [] {
      DecodePort(badPort);
    } else {
      DecodeEncode(fields[1..], badPort);
      EncodeNext(fields, badPort);
      NonEmptyNext(fields);
      var rest := Encode(fields[1..], badPort);
      if fields[0] == [] {
        assert Part(fields[0]) + rest == rest;
      } else {
        DecodePart(fields[0], rest);
      }
    }
  }

  lemma {:induction false} EncodeSkipsEmpty(fields: seq<Text>)
    ensures Parts(fields) == Parts(NonEmpty(fields))
  {
    if fields != [] {
      EncodeSkipsEmpty(fields[1..]);
      if fields[0] != [] {
        assert NonEmpty(fields) == [fields[0]] + NonEmpty(fields[1..]);
        assert NonEmpty(fields)[1..] == NonEmpty(fields[1..]);
      } else {
        assert NonEmpty(fields) == NonEmpty(fields[1..]);
      }
    }
  }

  /** Two texts are the same exactly when the fields that are not empty, in order, and the ports are. */
  lemma EncodeEqualIff(a: seq<Text>, aPort: Option<Text>, b: seq<Text>, bPort: Option<Text>)
    ensures Encode(a, aPort) == Encode(b, bPort) <==> NonEmpty(a) == NonEmpty(b) && aPort == bPort
  {
    DecodeEncode(a, aPort);
    DecodeEncode(b, bPort);
    EncodeSkipsEmpty(a);
    EncodeSkipsEmpty(b);
  }

  /** Field by field the encoding is injective exactly as far as the same fields are empty. */
  lemma {:induction false} SameFieldsIff(a: seq<Text>, b: seq<Text>)
    requires |a| == |b|
    ensures a == b <==> NonEmpty(a) == NonEmpty(b) && forall i :: 0 <= i < |a| ==> (a[i] == [] <==> b[i] == [])
  {
    if a != [] {
      SameFieldsIff(a[1..], b[1..]);
      var x, y := NonEmpty(a[1..]), NonEmpty(b[1..]);
      assert a == [a[0]] + a[1..] && b == [b[0]] + b[1..];
      if NonEmpty(a) == NonEmpty(b) && forall i :: 0 <= i < |a| ==> (a[i] == [] <==> b[i] == []) {
        assert forall i :: 0 <= i < |a| - 1 ==> (a[1..][i] == [] <==> b[1..][i] == []);
        if a[0] != [] {
          assert NonEmpty(a) == [a[0]] + x && NonEmpty(b) == [b[0]] + y;
          assert NonEmpty(a)[1..] == x && NonEmpty(b)[1..] == y;
        } else {
          assert NonEmpty(a) == x && NonEmpty(b) == y;
        }
      }
    }
  }

  // ---- what reaches the hash ----

  predicate Surrogate(c: nat) {
    0xD800 <= c <= 0xDFFF
  }

  ghost predicate Clean(t: Text) {
    forall i :: 0 <= i < |t| ==> !Surrogate(t[i])
  }

  ghost predicate AllClean(fields: seq<Text>) {
    forall i :: 0 <= i < |fields| ==> Clean(fields[i])
  }

  /** `.encode(errors="ignore")`: lone surrogates are dropped, and UTF-8 tells the rest apart. */
  function Hashed(t: Text): Text {
    Filter(t, (c: nat) => !Surrogate(c))
  }

  lemma {:induction false} CleanIsHashedWhole(t: Text)
    requires Clean(t)
    ensures Hashed(t) == t
  {
    if t != [] {
      CleanIsHashedWhole(t[1..]);
      assert t == [t[0]] + t[1..];
    }
  }

  lemma {:induction false} PartsClean(fields: seq<Text>)
    requires AllClean(fields)
    ensures Clean(Parts(fields))
  {
    if fields != [] {
      PartsClean(fields[1..]);
      assert Clean(FromString(Decimal(|fields[0]|)));
    }
  }

  lemma EncodeClean(fields: seq<Text>, badPort: Option<Text>)
    requires AllClean(fields) && (badPort.Some? ==> Clean(badPort.value))
    ensures Hashed(Encode(fields, badPort)) == Encode(fields, badPort)
  {
    PartsClean(fields);
    assert Clean(PORT);
    CleanIsHashedWhole(Encode(fields, badPort));
  }

  /** Texts that differ in lone surrogates only. */
  ghost predicate Alike(a: Text, b: Text) {
    |a| == |b| && forall i :: 0 <= i < |a| ==> a[i] == b[i] || (Surrogate(a[i]) && Surrogate(b[i]))
  }

  lemma {:induction false} AlikeHashed(a: Text, b: Text)
    requires Alike(a, b)
    ensures Hashed(a) == Hashed(b)
  {
    if a != [] {
      assert a[0] == b[0] || (Surrogate(a[0]) && Surrogate(b[0]));
      AlikeHashed(a[1..], b[1..]);
    }
  }

  lemma AlikeConcat(a: Text, b: Text, c: Text, d: Text)
    requires Alike(a, b) && Alike(c, d)
    ensures Alike(a + c, b + d)
  {
  }

  lemma {:induction false} AlikeParts(a: seq<Text>, b: seq<Text>)
    requires |a| == |b| && forall i :: 0 <= i < |a| ==> Alike(a[i], b[i])
    ensures Alike(Parts(a), Parts(b))
  {
    if a != [] {
      AlikeParts(a[1..], b[1..]);
      assert Alike(a[0], b[0]);
      assert Alike(Part(a[0]), Part(b[0])) by {
        var prefix := FromString(Decimal(|a[0]|)) + [0];
        if a[0] != [] {
          AlikeConcat(prefix, prefix, a[0], b[0]);
        }
      }
      AlikeConcat(Part(a[0]), Part(b[0]), Parts(a[1..]), Parts(b[1..]));
    }
  }

  function Replaced(t: Text, j: nat, c: nat): Text
    requires j < |t|
  {
    t[j := c]
  }

  /**
   Where there is a lone surrogate the hash no longer tells configs apart: put another surrogate in its
   place, and the fields are others while the hashed text is the same.
   */
  lemma SurrogateIsLost(fields: seq<Text>, badPort: Option<Text>, i: nat, j: nat, other: nat)
    requires i < |fields| && j < |fields[i]| && Surrogate(fields[i][j]) && Surrogate(other) && other != fields[i][j]
    ensures var changed := fields[i := Replaced(fields[i], j, other)];
            NonEmpty(changed) != NonEmpty(fields) && Hashed(Encode(changed, badPort)) == Hashed(Encode(fields, badPort))
  {
    var changed := fields[i := Replaced(fields[i], j, other)];
    AlikeParts(fields, changed);
    AlikeConcat(Parts(fields), Parts(changed), PortPart(badPort), PortPart(badPort));
    AlikeHashed(Encode(fields, badPort), Encode(changed, badPort));
    assert changed[i][j] == other;
    assert forall k :: 0 <= k < |fields| ==> (fields[k] == [] <==> changed[k] == []);
    SameFieldsIff(fields, changed);
  }

  lemma OnePart(field: Text)
    ensures Parts([field]) == Part(field)
  {
    var fields: seq<Text> := [field];
    assert |fields[1..]| == 0;
  }

  lemma SmallPart(field: Text)
    requires 0 < |field| < 10
    ensures Part(field) == [ZERO + |field|, 0] + field
  {
    assert Decimal(|field|) == [Digit(|field|)];
    assert FromString([Digit(|field|)]) == [ZERO + |field|];
  }

  lemma HashedConcat(a: Text, b: Text)
    ensures Hashed(a + b) == Hashed(a) + Hashed(b)
  {
    FilterConcat(a, b, (c: nat) => !Surrogate(c));
  }

  const ZERO: nat := '0' as nat

  /**
   A config without surrogates is not safe either: the fields "3, NUL" and "z" are taken for two lone
   surrogates and "1, NUL, z", because the length counts what is dropped.
   */
  lemma CleanMayMeetUnclean(z: nat)
    requires !Surrogate(z)
    ensures var clean: seq<Text>, other: seq<Text> := [[ZERO + 3, 0], [z]], [[0xD800, 0xD800], [ZERO + 1, 0, z]];
            AllClean(clean) && NonEmpty(clean) != NonEmpty(other)
              && Hashed(Encode(clean, None)) == Hashed(Encode(other, None))
  {
    var three: Text, pair: Text, last: Text, tail: Text := [ZERO + 3, 0], [0xD800, 0xD800], [z], [ZERO + 1, 0, z];
    SmallPart(last);
    SmallPart(tail);
    assert Part(last) == tail && Part(tail) == three + tail;
    ShiftedReading(three, last, pair, tail);
  }

  /** Two dropped surrogates make room for what the next field's own length says. */
  lemma ShiftedReading(a: Text, b: Text, pair: Text, d: Text)
    requires |a| == 2 && b != [] && d != [] && |pair| == 2 && Surrogate(pair[0]) && Surrogate(pair[1])
             && !Surrogate(a[0])
    requires Part(d) == a + Part(b)
    ensures NonEmpty([a, b]) != NonEmpty([pair, d])
    ensures Hashed(Encode([a, b], None)) == Hashed(Encode([pair, d], None))
  {
    PartsOfPair(a, b);
    PartsOfPair(pair, d);
    SurrogatesDropOut([ZERO + 2, 0], pair, a, Part(b));
    DifferentFields(a, b, pair, d);
  }

  lemma PartsOfPair(a: Text, b: Text)
    requires |a| == 2
    ensures Encode([a, b], None) == [ZERO + 2, 0] + a + Part(b)
  {
    SmallPart(a);
    TwoParts(a, b);
    assert Encode([a, b], None) == Parts([a, b]);
  }

  lemma SurrogatesDropOut(a: Text, dropped: Text, b: Text, c: Text)
    requires forall i :: 0 <= i < |dropped| ==> Surrogate(dropped[i])
    ensures Hashed(a + dropped + (b + c)) == Hashed(a + b + c)
  {
    HashedConcat(a + dropped, b + c);
    HashedConcat(a, dropped);
    NothingLeft(dropped);
    assert Hashed(a) + [] == Hashed(a);
    HashedConcat(a, b + c);
    assert a + b + c == a + (b + c);
  }

  lemma DifferentFields(a: Text, b: Text, c: Text, d: Text)
    requires a != [] && b != [] && c != [] && d != [] && a[0] != c[0]
    ensures NonEmpty([a, b]) != NonEmpty([c, d])
  {
    NonEmptyNext([a, b]);
    NonEmptyNext([c, d]);
  }

  lemma TwoParts(a: Text, b: Text)
    ensures Parts([a, b]) == Part(a) + Part(b)
  {
    OnePart(b);
    assert [a, b][1..] == [b];
  }

  lemma {:induction false} NothingLeft(t: Text)
    requires forall i :: 0 <= i < |t| ==> Surrogate(t[i])
    ensures Hashed(t) == []
  {
    if t != [] {
      NothingLeft(t[1..]);
    }
  }

  // ---- the key of a config ----

  /** `int(port)` succeeds with a number, or the port stays as it is. */
  datatype Port = Valid(n: int) | Malformed(raw: Text)

  /** Every field as `str(value or "")`; linkRange is the hopping range that the link itself holds, if any. */
  datatype Endpoint = Endpoint(
    protocol: Text, address: Text, port: Port, security: Text, network: Text, path: Text, host: Text, sni: Text,
    alpn: Text, fp: Text, pbk: Text, sid: Text, flow: Text, ssMethod: Text, alterId: Text, obfs: Text,
    obfsPassword: Text, congestionControl: Text, udpRelayMode: Text, hoppingRange: Text, linkRange: Text,
    uuidOrPassword: Text)

  datatype Spelling = Spelling(lower: Text -> Text, strip: Text -> Text, address: Text -> Text)
  {
    function Fold(t: Text): Text {
      lower(strip(t))
    }
  }

  function HoppingPart(spelling: Spelling, c: Endpoint): Text {
    var stored := spelling.strip(c.hoppingRange);
    if stored == [] && spelling.lower(c.protocol) == FromString("hysteria2") then c.linkRange else stored
  }

  function UuidPart(spelling: Spelling, c: Endpoint): Text {
    if spelling.lower(c.protocol) in {FromString("vless"), FromString("vmess")} then spelling.Fold(c.uuidOrPassword)
    else c.uuidOrPassword
  }

  /** The normalised fields, in the order of `cred_parts`. */
  function Fields(spelling: Spelling, c: Endpoint): seq<Text> {
    [spelling.Fold(c.security), spelling.Fold(c.network), c.path, spelling.Fold(c.host), spelling.Fold(c.sni), c.alpn,
     c.fp, c.pbk, spelling.Fold(c.sid), c.flow, spelling.Fold(c.ssMethod), c.alterId, c.obfs, c.obfsPassword,
     spelling.Fold(c.congestionControl), spelling.Fold(c.udpRelayMode), HoppingPart(spelling, c), UuidPart(spelling, c)]
  }

  /** Which fields tell two endpoints apart, and which of them do so but for case and white space. */
  lemma FieldsEqualIff(spelling: Spelling, a: Endpoint, b: Endpoint)
    ensures Fields(spelling, a) == Fields(spelling, b) <==>
            && (a.path, a.alpn, a.fp, a.pbk, a.flow, a.alterId) == (b.path, b.alpn, b.fp, b.pbk, b.flow, b.alterId)
            && (a.obfs, a.obfsPassword) == (b.obfs, b.obfsPassword)
            && SameFolded(spelling, a.security, b.security) && SameFolded(spelling, a.network, b.network)
            && SameFolded(spelling, a.host, b.host) && SameFolded(spelling, a.sni, b.sni)
            && SameFolded(spelling, a.sid, b.sid) && SameFolded(spelling, a.ssMethod, b.ssMethod)
            && SameFolded(spelling, a.congestionControl, b.congestionControl)
            && SameFolded(spelling, a.udpRelayMode, b.udpRelayMode)
            && HoppingPart(spelling, a) == HoppingPart(spelling, b) && UuidPart(spelling, a) == UuidPart(spelling, b)
  {
    var f, g := Fields(spelling, a), Fields(spelling, b);
    assert f == g <==> forall i :: 0 <= i < 18 ==> f[i] == g[i];
  }

  /** They are one but for case and white space around them. */
  predicate SameFolded(spelling: Spelling, x: Text, y: Text) {
    spelling.lower(spelling.strip(x)) == spelling.lower(spelling.strip(y))
  }

  /** Only vless and vmess credentials are compared but for case; only hysteria2 looks into the link for a range. */
  lemma PartsOfProtocol(spelling: Spelling, c: Endpoint)
    ensures spelling.lower(c.protocol) !in {FromString("vless"), FromString("vmess")} ==>
              UuidPart(spelling, c) == c.uuidOrPassword
    ensures spelling.lower(c.protocol) in {FromString("vless"), FromString("vmess")} ==>
              UuidPart(spelling, c) == spelling.lower(spelling.strip(c.uuidOrPassword))
    ensures spelling.strip(c.hoppingRange) != [] || spelling.lower(c.protocol) != FromString("hysteria2") ==>
              HoppingPart(spelling, c) == spelling.strip(c.hoppingRange)
    ensures spelling.strip(c.hoppingRange) == [] && spelling.lower(c.protocol) == FromString("hysteria2") ==>
              HoppingPart(spelling, c) == c.linkRange
  {
  }

  function BadPort(port: Port): Option<Text> {
    if port.Malformed? then Some(port.raw) else None
  }

  /** `dedup_key`. A malformed port counts as 0 and moves into the hashed text. */
  function KeyOf(spelling: Spelling, c: Endpoint): DedupKey {
    DedupKey(
      spelling.lower(c.protocol), spelling.address(c.address), if c.port.Valid? then c.port.n else 0,
      Hashed(Encode(Fields(spelling, c), BadPort(c.port))))
  }

  ghost predicate CleanEndpoint(spelling: Spelling, c: Endpoint) {
    AllClean(Fields(spelling, c)) && (c.port.Malformed? ==> Clean(c.port.raw))
  }

  /** What it takes for two configs without lone surrogates to be one: nothing less, and nothing more. */
  lemma KeysEqualIff(spelling: Spelling, a: Endpoint, b: Endpoint)
    requires CleanEndpoint(spelling, a) && CleanEndpoint(spelling, b)
    ensures KeyOf(spelling, a) == KeyOf(spelling, b) <==>
              && spelling.lower(a.protocol) == spelling.lower(b.protocol)
              && spelling.address(a.address) == spelling.address(b.address)
              && a.port == b.port
              && NonEmpty(Fields(spelling, a)) == NonEmpty(Fields(spelling, b))
  {
    EncodeClean(Fields(spelling, a), BadPort(a.port));
    EncodeClean(Fields(spelling, b), BadPort(b.port));
    EncodeEqualIff(Fields(spelling, a), BadPort(a.port), Fields(spelling, b), BadPort(b.port));
  }

  /** An empty field leaves no trace, so a value may move to the next field: the path "x" and the host "x" are one. */
  lemma PathMeetsHost(spelling: Spelling, c: Endpoint, x: Text)
    requires x != [] && spelling.Fold(x) == x && spelling.Fold([]) == []
    ensures var a, b := c.(path := x, host := []), c.(path := [], host := x);
            a != b && KeyOf(spelling, a) == KeyOf(spelling, b)
  {
    var a, b := c.(path := x, host := []), c.(path := [], host := x);
    assert a.path != b.path;
    FieldsWith(spelling, c, x, []);
    FieldsWith(spelling, c, [], x);
    MovedField(Fields(spelling, c), 2, x);
    EncodeEqualIff(Fields(spelling, a), BadPort(c.port), Fields(spelling, b), BadPort(c.port));
  }

  function Put(fields: seq<Text>, i: nat, first: Text, second: Text): seq<Text>
    requires i + 1 < |fields|
  {
    fields[..i] + [first, second] + fields[i + 2..]
  }

  lemma FieldsWith(spelling: Spelling, c: Endpoint, path: Text, host: Text)
    ensures Fields(spelling, c.(path := path, host := host)) == Put(Fields(spelling, c), 2, path, spelling.Fold(host))
  {
  }

  lemma MovedField(fields: seq<Text>, i: nat, x: Text)
    requires i + 1 < |fields| && x != []
    ensures NonEmpty(Put(fields, i, x, [])) == NonEmpty(Put(fields, i, [], x))
  {
    PutNonEmpty(fields, i, x, []);
    PutNonEmpty(fields, i, [], x);
  }

  lemma PutNonEmpty(fields: seq<Text>, i: nat, first: Text, second: Text)
    requires i + 1 < |fields|
    ensures NonEmpty(Put(fields, i, first, second)) ==
              NonEmpty(fields[..i]) + ((if first == [] then [] else [first]) + (if second == [] then [] else [second]))
              + NonEmpty(fields[i + 2..])
  {
    NonEmptyConcat(fields[..i] + [first, second], fields[i + 2..]);
    NonEmptyConcat(fields[..i], [first, second]);
    NonEmptyPair(first, second);
  }

  lemma NonEmptyConcat(a: seq<Text>, b: seq<Text>)
    ensures NonEmpty(a + b) == NonEmpty(a) + NonEmpty(b)
  {
    FilterConcat(a, b, (f: Text) => f != []);
  }

  lemma NonEmptyPair(a: Text, b: Text)
    ensures NonEmpty([a, b]) == (if a == [] then [] else [a]) + (if b == [] then [] else [b])
  {
    NonEmptyNext([a, b]);
    assert [a, b][1..] == [b];
    NonEmptyNext([b]);
  }
}
