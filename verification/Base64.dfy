/** The base64 encoding of section 4 of RFC 4648, and the decoder that validates its input. */
module Base64 {
  import opened Options

  type Byte = b: int | 0 <= b < 0x100
  type Sextet = v: int | 0 <= v < 0x40

  function Symbol(v: Sextet): char {
    if v < 26 then ('A' as int + v) as char
    else if v < 52 then ('a' as int + v - 26) as char
    else if v < 62 then ('0' as int + v - 52) as char
    else if v == 62 then '+'
    else '/'
  }

  function Value(c: char): Option<Sextet> {
    if 'A' <= c <= 'Z' then Some(c as int - 'A' as int)
    else if 'a' <= c <= 'z' then Some(c as int - 'a' as int + 26)
    else if '0' <= c <= '9' then Some(c as int - '0' as int + 52)
    else if c == '+' then Some(62)
    else if c == '/' then Some(63)
    else None
  }

  predicate Alphabetic(c: char) {
    Value(c).Some? || c == '='
  }

  /** Table 1 of RFC 4648: three runs of consecutive characters, and two more. */
  lemma SymbolTable(v: Sextet)
    ensures Symbol(0) == 'A' && Symbol(26) == 'a' && Symbol(52) == '0' && Symbol(62) == '+' && Symbol(63) == '/'
    ensures v !in {25, 51} && v < 61 ==> Symbol(v + 1) as int == Symbol(v) as int + 1
  {
  }

  /** Three bytes as four six-bit groups. */
  function Sextets(a: Byte, b: Byte, c: Byte): (r: (Sextet, Sextet, Sextet, Sextet)) {
    (a / 4, a % 4 * 16 + b / 16, b % 16 * 4 + c / 64, c % 64)
  }

  function Symbols(q: (Sextet, Sextet, Sextet, Sextet)): (s: string)
    ensures |s| == 4
  {
    [Symbol(q.0), Symbol(q.1), Symbol(q.2), Symbol(q.3)]
  }

  function Encode(b: seq<Byte>): string {
    if b == [] then ""
    else if |b| == 1 then Symbols(Sextets(b[0], 0, 0))[..2] + "=="
    else if |b| == 2 then Symbols(Sextets(b[0], b[1], 0))[..3] + "="
    else Symbols(Sextets(b[0], b[1], b[2])) + Encode(b[3..])
  }

  /** The three bytes of four symbols, whatever they are. */
  function Bytes(v: Sextet, w: Sextet, x: Sextet, y: Sextet): (b: seq<Byte>)
    ensures |b| == 3
  {
    [v * 4 + w / 16, w % 16 * 16 + x / 4, x % 4 * 64 + y]
  }

  function Decode(s: string): Option<seq<Byte>> {
    if s == "" then Some([])
    else if |s| < 4 then None
    else
      var v, w, x, y := Value(s[0]), Value(s[1]), Value(s[2]), Value(s[3]);
      if v.None? || w.None? then None
      else if s[2..] == "==" then Some(Bytes(v.value, w.value, 0, 0)[..1])
      else if x.None? then None
      else if s[3..] == "=" then Some(Bytes(v.value, w.value, x.value, 0)[..2])
      else if y.None? then None
      else
        var rest := Decode(s[4..]);
        if rest.None? then None else Some(Bytes(v.value, w.value, x.value, y.value) + rest.value)
  }

  lemma ValueOfSymbol(v: Sextet)
    ensures Value(Symbol(v)) == Some(v) && Symbol(v) != '='
  {
  }

  lemma ValuesOfSymbols(q: (Sextet, Sextet, Sextet, Sextet))
    ensures var s := Symbols(q);
            && Value(s[0]) == Some(q.0) && Value(s[1]) == Some(q.1) && Value(s[2]) == Some(q.2)
            && Value(s[3]) == Some(q.3)
            && s[2] != '=' && s[3] != '='
  {
    ValueOfSymbol(q.0);
    ValueOfSymbol(q.1);
    ValueOfSymbol(q.2);
    ValueOfSymbol(q.3);
  }

  lemma BytesOfSextets(a: Byte, b: Byte, c: Byte)
    ensures var q := Sextets(a, b, c);
            Bytes(q.0, q.1, q.2, q.3) == [a, b, c] && (c == 0 ==> q.3 == 0) && (b == c == 0 ==> q.2 == 0)
  {
    var q := Sextets(a, b, c);
    assert q.1 / 16 == a % 4 && q.1 % 16 == b / 16;
    assert q.2 / 4 == b % 16 && q.2 % 4 == c / 64;
  }

  lemma SymbolsAlphabetic(q: (Sextet, Sextet, Sextet, Sextet), i: nat)
    requires i < 4
    ensures Alphabetic(Symbols(q)[i])
  {
    ValuesOfSymbols(q);
  }

  lemma DecodeOne(a: Byte)
    ensures Decode(Encode([a])) == Some([a])
  {
    var q := Sextets(a, 0, 0);
    ValuesOfSymbols(q);
    BytesOfSextets(a, 0, 0);
    var s := Symbols(q)[..2] + "==";
    assert Encode([a]) == s && s[2..] == "==";
    assert [a, 0, 0][..1] == [a];
  }

  lemma DecodeTwo(a: Byte, b: Byte)
    ensures Decode(Encode([a, b])) == Some([a, b])
  {
    var q := Sextets(a, b, 0);
    ValuesOfSymbols(q);
    BytesOfSextets(a, b, 0);
    var s := Symbols(q)[..3] + "=";
    assert Encode([a, b]) == s && s[3..] == "=" && s[2] != '=';
    assert [a, b, 0][..2] == [a, b];
  }

  lemma DecodeGroup(a: Byte, b: Byte, c: Byte, s: string)
    requires |s| >= 4 && s[..4] == Symbols(Sextets(a, b, c)) && Decode(s[4..]).Some?
    ensures Decode(s) == Some([a, b, c] + Decode(s[4..]).value)
  {
    var q := Sextets(a, b, c);
    ValuesOfSymbols(q);
    BytesOfSextets(a, b, c);
    var head := s[..4];
    assert s[0] == head[0] && s[1] == head[1] && s[2] == head[2] && s[3] == head[3];
    assert s[2..][0] == s[2] && s[3..][0] == s[3];
  }

  lemma EncodeGroup(b: seq<Byte>)
    requires |b| > 2
    ensures var s := Encode(b);
            |s| >= 4 && s[..4] == Symbols(Sextets(b[0], b[1], b[2])) && s[4..] == Encode(b[3..])
  {
  }

  /** One group more is decoded when the rest is. */
  lemma DecodeMore(b: seq<Byte>, s: string)
    requires |b| > 2 && |s| >= 4 && s[..4] == Symbols(Sextets(b[0], b[1], b[2])) && Decode(s[4..]) == Some(b[3..])
    ensures Decode(s) == Some(b)
  {
    FirstThree(b);
    DecodeGroup(b[0], b[1], b[2], s);
  }

  lemma FirstThree(b: seq<Byte>)
    requires |b| > 2
    ensures b == [b[0], b[1], b[2]] + b[3..]
  {
  }

  /** Three bytes and their four six-bit groups are one number of 24 bits, the first the most significant. */
  lemma SameNumber(a: Byte, b: Byte, c: Byte)
    ensures var q := Sextets(a, b, c);
            q.0 * 0x4_0000 + q.1 * 0x1000 + q.2 * 0x40 + q.3 == a * 0x1_0000 + b * 0x100 + c
  {
  }

  /** The last group: missing bytes count as zero, and their symbols are padding. */
  lemma ShortGroups(a: Byte, b: Byte, c: Byte)
    ensures Encode([a]) == Symbols(Sextets(a, 0, 0))[..2] + "=="
    ensures Encode([a, b]) == Symbols(Sextets(a, b, 0))[..3] + "="
    ensures Encode([a, b, c]) == Symbols(Sextets(a, b, c))
  {
    assert [a, b, c][3..] == [];
    assert Symbols(Sextets(a, b, c)) + "" == Symbols(Sextets(a, b, c));
  }

  /** Decoding undoes encoding. */
  lemma {:induction false} DecodeEncode(b: seq<Byte>)
    ensures Decode(Encode(b)) == Some(b)
  {
    if |b| == 1 {
      assert b == [b[0]];
      DecodeOne(b[0]);
    } else if |b| == 2 {
      assert b == [b[0], b[1]];
      DecodeTwo(b[0], b[1]);
    } else if b != [] {
      DecodeEncode(b[3..]);
      EncodeGroup(b);
      DecodeMore(b, Encode(b));
    }
  }

  /** An encoding consists of symbols and padding, and its length is a multiple of four. */
  lemma {:induction false} EncodeShape(b: seq<Byte>)
    ensures forall i :: 0 <= i < |Encode(b)| ==> Alphabetic(Encode(b)[i])
    ensures |Encode(b)| % 4 == 0 && (b != [] ==> Encode(b) != [])
  {
    if |b| > 2 {
      EncodeGroup(b);
      EncodeShape(b[3..]);
      GroupShape(Encode(b), Sextets(b[0], b[1], b[2]));
    } else if b != [] {
      LastGroupShape(b);
    }
  }

  lemma GroupShape(s: string, q: (Sextet, Sextet, Sextet, Sextet))
    requires |s| >= 4 && s[..4] == Symbols(q) && |s[4..]| % 4 == 0
    requires forall i :: 0 <= i < |s[4..]| ==> Alphabetic(s[4..][i])
    ensures |s| % 4 == 0 && forall i :: 0 <= i < |s| ==> Alphabetic(s[i])
  {
    forall i | 0 <= i < |s|
      ensures Alphabetic(s[i])
    {
      if i < 4 {
        SymbolsAlphabetic(q, i);
        assert s[..4][i] == s[i];
      } else {
        assert s[4..][i - 4] == s[i];
      }
    }
  }

  lemma LastGroupShape(b: seq<Byte>)
    requires 1 <= |b| <= 2
    ensures |Encode(b)| == 4 && forall i :: 0 <= i < 4 ==> Alphabetic(Encode(b)[i])
  {
    var q := Sextets(b[0], if |b| > 1 then b[1] else 0, 0);
    forall i | 0 <= i < 4
      ensures Alphabetic(Symbols(q)[i])
    {
      SymbolsAlphabetic(q, i);
    }
  }
}
