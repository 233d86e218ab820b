/**
 * Base64 as section 4 of RFC 4648 defines it (the alphabet `A-Z a-z 0-9 + /`
 * with `=` padding), which `Buffer.toString('base64')` produces. The strict
 * decoder accepts exactly the canonical encodings, so the two are inverse.
 */
module Base64 {

  import opened Wrappers
  import Utf8

  type Byte = Utf8.Byte

  predicate IsSymbol(c: char) {
    'A' <= c <= 'Z' || 'a' <= c <= 'z' || '0' <= c <= '9' || c == '+' || c == '/'
  }

  /** The character for a 6-bit value (Table 1 of RFC 4648). */
  function Symbol(k: int): (c: char)
    requires 0 <= k < 64
    ensures IsSymbol(c)
  {
    if k < 26 then ('A' as int + k) as char
    else if k < 52 then ('a' as int + (k - 26)) as char
    else if k < 62 then ('0' as int + (k - 52)) as char
    else if k == 62 then '+'
    else '/'
  }

  function SymbolValue(c: char): (k: int)
    requires IsSymbol(c)
    ensures 0 <= k < 64
  {
    if 'A' <= c <= 'Z' then c as int - 'A' as int
    else if 'a' <= c <= 'z' then c as int - 'a' as int + 26
    else if '0' <= c <= '9' then c as int - '0' as int + 52
    else if c == '+' then 62
    else 63
  }

  lemma SymbolRoundTrip(k: int, c: char)
    requires 0 <= k < 64 && IsSymbol(c)
    ensures SymbolValue(Symbol(k)) == k
    ensures Symbol(SymbolValue(c)) == c
  {
  }

  /** Three bytes become four characters, six bits each, most significant first. */
  function EncodeGroup(b0: Byte, b1: Byte, b2: Byte): string {
    [Symbol(b0 / 4), Symbol(b0 % 4 * 16 + b1 / 16), Symbol(b1 % 16 * 4 + b2 / 64), Symbol(b2 % 64)]
  }

  /** The encoding of b: four characters per started group of three bytes, the final one padded with `=`. */
  function Encode(b: seq<Byte>): (s: string)
    ensures |s| == 4 * ((|b| + 2) / 3)
  {
    if |b| == 0 then ""
    else if |b| == 1 then [Symbol(b[0] / 4), Symbol(b[0] % 4 * 16), '=', '=']
    else if |b| == 2 then [Symbol(b[0] / 4), Symbol(b[0] % 4 * 16 + b[1] / 16), Symbol(b[1] % 16 * 4), '=']
    else EncodeGroup(b[0], b[1], b[2]) + Encode(b[3..])
  }

  /** Four symbols back to three bytes; anything else is not a full group. */
  function DecodeGroup(q: string): Option<seq<Byte>>
    requires |q| == 4
  {
    if IsSymbol(q[0]) && IsSymbol(q[1]) && IsSymbol(q[2]) && IsSymbol(q[3]) then
      var v0, v1, v2, v3 := SymbolValue(q[0]), SymbolValue(q[1]), SymbolValue(q[2]), SymbolValue(q[3]);
      Some([v0 * 4 + v1 / 16, v1 % 16 * 16 + v2 / 4, v2 % 4 * 64 + v3])
    else None
  }

  /**
   * The final group may carry one or two `=`; the bits a padded group does
   * not use must be zero (section 3.5 of RFC 4648), so only canonical text decodes.
   */
  function DecodeFinal(q: string): Option<seq<Byte>>
    requires |q| == 4
  {
    if q[2] == '=' && q[3] == '=' then
      if IsSymbol(q[0]) && IsSymbol(q[1]) && SymbolValue(q[1]) % 16 == 0 then
        Some([SymbolValue(q[0]) * 4 + SymbolValue(q[1]) / 16])
      else None
    else if q[3] == '=' then
      if IsSymbol(q[0]) && IsSymbol(q[1]) && IsSymbol(q[2]) && SymbolValue(q[2]) % 4 == 0 then
        var v0, v1, v2 := SymbolValue(q[0]), SymbolValue(q[1]), SymbolValue(q[2]);
        Some([v0 * 4 + v1 / 16, v1 % 16 * 16 + v2 / 4])
      else None
    else DecodeGroup(q)
  }

  function Decode(s: string): Option<seq<Byte>>
    decreases |s|
  {
    if |s| == 0 then Some([])
    else if |s| < 4 then None
    else if |s| == 4 then DecodeFinal(s)
    else
      match DecodeGroup(s[..4])
      case None => None
      case Some(group) =>
        match Decode(s[4..])
        case None => None
        case Some(rest) => Some(group + rest)
  }

  /** How the six-bit fields of a group split and rejoin the bytes. */
  lemma GroupArithmetic(b0: Byte, b1: Byte, b2: Byte)
    ensures (b0 / 4) * 4 + (b0 % 4 * 16 + b1 / 16) / 16 == b0
    ensures (b0 % 4 * 16 + b1 / 16) % 16 * 16 + (b1 % 16 * 4 + b2 / 64) / 4 == b1
    ensures (b1 % 16 * 4 + b2 / 64) % 4 * 64 + b2 % 64 == b2
  {
  }

  lemma DecodeEncodeGroup(b0: Byte, b1: Byte, b2: Byte)
    ensures DecodeGroup(EncodeGroup(b0, b1, b2)) == Some([b0, b1, b2])
  {
    SymbolRoundTrip(b0 / 4, 'A');
    SymbolRoundTrip(b0 % 4 * 16 + b1 / 16, 'A');
    SymbolRoundTrip(b1 % 16 * 4 + b2 / 64, 'A');
    SymbolRoundTrip(b2 % 64, 'A');
    GroupArithmetic(b0, b1, b2);
  }

  lemma DecodeEncodeOne(b0: Byte)
    ensures Decode(Encode([b0])) == Some([b0])
  {
    SymbolRoundTrip(b0 / 4, 'A');
    SymbolRoundTrip(b0 % 4 * 16, 'A');
    GroupArithmetic(b0, 0, 0);
  }

  lemma DecodeEncodeTwo(b0: Byte, b1: Byte)
    ensures Decode(Encode([b0, b1])) == Some([b0, b1])
  {
    SymbolRoundTrip(b0 / 4, 'A');
    SymbolRoundTrip(b0 % 4 * 16 + b1 / 16, 'A');
    SymbolRoundTrip(b1 % 16 * 4, 'A');
    GroupArithmetic(b0, b1, 0);
  }

  /** Decoding an encoding gives back the bytes. */
  lemma {:induction false} DecodeEncode(b: seq<Byte>)
    ensures Decode(Encode(b)) == Some(b)
  {
    if |b| == 1 {
      assert b == [b[0]];
      DecodeEncodeOne(b[0]);
    } else if |b| == 2 {
      assert b == [b[0], b[1]];
      DecodeEncodeTwo(b[0], b[1]);
    } else if |b| == 3 {
      DecodeEncodeThree(b);
    } else if |b| > 3 {
      DecodeEncode(b[3..]);
      DecodeEncodeMore(b);
    }
  }

  lemma DecodeEncodeThree(b: seq<Byte>)
    requires |b| == 3
    ensures Decode(Encode(b)) == Some(b)
  {
    EncodeUnfold(b);
    assert b == [b[0], b[1], b[2]];
    assert Encode(b) == EncodeGroup(b[0], b[1], b[2]);
    DecodeLastGroup(b[0], b[1], b[2]);
  }

  lemma DecodeEncodeMore(b: seq<Byte>)
    requires |b| > 3 && Decode(Encode(b[3..])) == Some(b[3..])
    ensures Decode(Encode(b)) == Some(b)
  {
    EncodeUnfold(b);
    var g, r := EncodeGroup(b[0], b[1], b[2]), Encode(b[3..]);
    assert |r| > 0;
    DecodeEncodeGroup(b[0], b[1], b[2]);
    DecodeGroups(b, g, r);
  }

  lemma DecodeGroups(b: seq<Byte>, g: string, r: string)
    requires |b| > 3 && Decode(r) == Some(b[3..])
    requires |r| > 0
    requires |g| == 4 && DecodeGroup(g) == Some([b[0], b[1], b[2]])
    ensures Decode(g + r) == Some(b)
  {
    DecodeConcat(g, r);
    assert [b[0], b[1], b[2]] + b[3..] == b;
  }

  lemma DecodeLastGroup(b0: Byte, b1: Byte, b2: Byte)
    ensures Decode(EncodeGroup(b0, b1, b2)) == Some([b0, b1, b2])
  {
    DecodeEncodeGroup(b0, b1, b2);
    FinalGroupUnpadded(b0, b1, b2);
  }

  lemma EncodeUnfold(b: seq<Byte>)
    requires |b| >= 3
    ensures Encode(b) == EncodeGroup(b[0], b[1], b[2]) + Encode(b[3..])
  {
  }

  /** A group of four symbols carries no padding, so as the final group it decodes as a full one. */
  lemma FinalGroupUnpadded(b0: Byte, b1: Byte, b2: Byte)
    ensures DecodeFinal(EncodeGroup(b0, b1, b2)) == DecodeGroup(EncodeGroup(b0, b1, b2))
  {
    var g := EncodeGroup(b0, b1, b2);
    assert g[2] != '=' && g[3] != '=';
  }

  /** A full group followed by more text decodes group by group. */
  lemma DecodeConcat(group: string, rest: string)
    requires |group| == 4 && DecodeGroup(group).Some?
    requires |rest| > 0 && Decode(rest).Some?
    ensures Decode(group + rest) == Some(DecodeGroup(group).value + Decode(rest).value)
  {
    var s := group + rest;
    assert s[..4] == group && s[4..] == rest;
  }

  /** How the bytes of a decoded group split back into the six-bit fields. */
  lemma FieldArithmetic(v0: int, v1: int, v2: int, v3: int)
    requires 0 <= v0 < 64 && 0 <= v1 < 64 && 0 <= v2 < 64 && 0 <= v3 < 64
    ensures (v0 * 4 + v1 / 16) / 4 == v0
    ensures (v0 * 4 + v1 / 16) % 4 * 16 + (v1 % 16 * 16 + v2 / 4) / 16 == v1
    ensures (v1 % 16 * 16 + v2 / 4) % 16 * 4 + (v2 % 4 * 64 + v3) / 64 == v2
    ensures (v2 % 4 * 64 + v3) % 64 == v3
  {
  }

  lemma EncodeDecodeGroup(q: string)
    requires |q| == 4 && DecodeGroup(q).Some?
    ensures |DecodeGroup(q).value| == 3
    ensures EncodeGroup(DecodeGroup(q).value[0], DecodeGroup(q).value[1], DecodeGroup(q).value[2]) == q
  {
    var v0, v1, v2, v3 := SymbolValue(q[0]), SymbolValue(q[1]), SymbolValue(q[2]), SymbolValue(q[3]);
    SymbolRoundTrip(0, q[0]);
    SymbolRoundTrip(0, q[1]);
    SymbolRoundTrip(0, q[2]);
    SymbolRoundTrip(0, q[3]);
    FieldArithmetic(v0, v1, v2, v3);
    var b0, b1, b2 := v0 * 4 + v1 / 16, v1 % 16 * 16 + v2 / 4, v2 % 4 * 64 + v3;
    assert DecodeGroup(q).value == [b0, b1, b2];
    var e := EncodeGroup(b0, b1, b2);
    assert e[0] == Symbol(v0) == q[0];
    assert e[1] == Symbol(v1) == q[1];
    assert e[2] == Symbol(v2) == q[2];
    assert e[3] == Symbol(v3) == q[3];
  }

  lemma EncodeDecodeOne(q: string)
    requires |q| == 4 && q[2] == '=' && q[3] == '=' && DecodeFinal(q).Some?
    ensures Encode(DecodeFinal(q).value) == q
  {
    var v0, v1 := SymbolValue(q[0]), SymbolValue(q[1]);
    SymbolRoundTrip(0, q[0]);
    SymbolRoundTrip(0, q[1]);
    FieldArithmetic(v0, v1, 0, 0);
    var b := DecodeFinal(q).value;
    assert b == [v0 * 4 + v1 / 16];
    assert v1 == v1 / 16 * 16;
    assert Encode(b) == [Symbol(v0), Symbol(v1), '=', '='];
  }

  lemma EncodeDecodeTwo(q: string)
    requires |q| == 4 && q[2] != '=' && q[3] == '=' && DecodeFinal(q).Some?
    ensures Encode(DecodeFinal(q).value) == q
  {
    var v0, v1, v2 := SymbolValue(q[0]), SymbolValue(q[1]), SymbolValue(q[2]);
    SymbolRoundTrip(0, q[0]);
    SymbolRoundTrip(0, q[1]);
    SymbolRoundTrip(0, q[2]);
    FieldArithmetic(v0, v1, v2, 0);
    var b := DecodeFinal(q).value;
    assert b == [v0 * 4 + v1 / 16, v1 % 16 * 16 + v2 / 4];
    assert v2 == v2 / 4 * 4;
    assert Encode(b) == [Symbol(v0), Symbol(v1), Symbol(v2), '='];
  }

  lemma EncodeDecodeFinal(q: string)
    requires |q| == 4 && DecodeFinal(q).Some?
    ensures Encode(DecodeFinal(q).value) == q
  {
    if q[2] == '=' && q[3] == '=' {
      EncodeDecodeOne(q);
    } else if q[3] == '=' {
      EncodeDecodeTwo(q);
    } else {
      EncodeDecodeGroup(q);
      var g := DecodeGroup(q).value;
      assert DecodeFinal(q) == DecodeGroup(q);
      assert g[3..] == [];
      assert Encode(g) == EncodeGroup(g[0], g[1], g[2]) + Encode(g[3..]);
    }
  }

  /** Whatever decodes is the encoding of what it decodes to: the decoder accepts nothing else. */
  lemma {:induction false} EncodeDecode(s: string)
    requires Decode(s).Some?
    ensures Encode(Decode(s).value) == s
    decreases |s|
  {
    if |s| == 4 {
      EncodeDecodeFinal(s);
    } else if |s| > 4 {
      DecodeSplit(s);
      EncodeDecode(s[4..]);
      EncodeDecodeStep(s);
    }
  }

  lemma EncodeDecodeStep(s: string)
    requires |s| > 4 && Decode(s).Some?
    requires Encode(Decode(s[4..]).value) == s[4..]
    ensures Encode(Decode(s).value) == s
  {
    DecodeSplit(s);
    var g := DecodeGroup(s[..4]).value;
    var r := Decode(s[4..]).value;
    EncodeDecodeGroup(s[..4]);
    var b := g + r;
    assert b[3..] == r;
    assert b[0] == g[0] && b[1] == g[1] && b[2] == g[2];
    EncodeUnfold(b);
    assert s == s[..4] + s[4..];
  }

  /** Text longer than one group decodes only if its first group and the rest do. */
  lemma DecodeSplit(s: string)
    requires |s| > 4 && Decode(s).Some?
    ensures DecodeGroup(s[..4]).Some? && Decode(s[4..]).Some?
    ensures Decode(s).value == DecodeGroup(s[..4]).value + Decode(s[4..]).value
  {
  }

  /** Distinct byte strings have distinct encodings. */
  lemma EncodeInjective(a: seq<Byte>, b: seq<Byte>)
    ensures Encode(a) == Encode(b) <==> a == b
  {
    DecodeEncode(a);
    DecodeEncode(b);
  }
}
