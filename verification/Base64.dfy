/** Base64 as in sections 4 and 5 of RFC 4648: the canonical encoder, and a decoder that skips what is not in the alphabet. */
module Base64 {
  import opened KeyedSequences

  type Byte = b: int | 0 <= b < 256
  type Sextet = v: int | 0 <= v < 64

  const PAD: CodeUnit := 0x3D

  function Symbol(v: Sextet): CodeUnit {
    if v < 26 then 0x41 + v
    else if v < 52 then 0x61 + (v - 26)
    else if v < 62 then 0x30 + (v - 52)
    else if v == 62 then 0x2B
    else 0x2F
  }

  /** `Buffer.toString("base64")`. */
  function Encode(b: seq<Byte>): Text {
    if b == [] then []
    else if |b| == 1 then [Symbol(b[0] / 4), Symbol(b[0] % 4 * 16), PAD, PAD]
    else if |b| == 2 then
      [Symbol(b[0] / 4), Symbol(b[0] % 4 * 16 + b[1] / 16), Symbol(b[1] % 16 * 4), PAD]
    else
      [Symbol(b[0] / 4), Symbol(b[0] % 4 * 16 + b[1] / 16), Symbol(b[1] % 16 * 4 + b[2] / 64), Symbol(b[2] % 64)]
        + Encode(b[3..])
  }

  /** The value of a character of either alphabet; -1 for every other character. */
  function ValueOf(c: CodeUnit): int {
    if 0x41 <= c <= 0x5A then c - 0x41
    else if 0x61 <= c <= 0x7A then c - 0x61 + 26
    else if 0x30 <= c <= 0x39 then c - 0x30 + 52
    else if c == 0x2B || c == 0x2D then 62
    else if c == 0x2F || c == 0x5F then 63
    else -1
  }

  function Sextets(t: Text): seq<Sextet> {
    if t == [] then []
    else if ValueOf(t[0]) < 0 then Sextets(t[1..])
    else [ValueOf(t[0])] + Sextets(t[1..])
  }

  function Bytes(s: seq<Sextet>): seq<Byte> {
    if |s| < 2 then []
    else
      var v, w: int := s[0], s[1];
      if |s| == 2 then [v * 4 + w / 16]
      else
        var x: int := s[2];
        if |s| == 3 then [v * 4 + w / 16, w % 16 * 16 + x / 4]
        else [v * 4 + w / 16, w % 16 * 16 + x / 4, x % 4 * 64 + s[3]] + Bytes(s[4..])
  }

  /** `Buffer.from(t, "base64")`: lenient about alphabet, padding, stray characters and leftover bits. */
  function Decode(t: Text): seq<Byte> { Bytes(Sextets(t)) }

  /******* Round trip *******/

  lemma SymbolRoundTrip(v: Sextet)
    ensures ValueOf(Symbol(v)) == v && Symbol(v) != PAD
  {
  }

  /** The sextets that the encoder prints. */
  function SextetsOf(b: seq<Byte>): seq<Sextet> {
    if b == [] then []
    else if |b| == 1 then [b[0] / 4, b[0] % 4 * 16]
    else if |b| == 2 then [b[0] / 4, b[0] % 4 * 16 + b[1] / 16, b[1] % 16 * 4]
    else [b[0] / 4, b[0] % 4 * 16 + b[1] / 16, b[1] % 16 * 4 + b[2] / 64, b[2] % 64] + SextetsOf(b[3..])
  }

  lemma SextetsStep(v: Sextet, t: Text)
    ensures Sextets([Symbol(v)] + t) == [v] + Sextets(t)
  {
    SymbolRoundTrip(v);
    assert ([Symbol(v)] + t)[1..] == t;
  }

  lemma SextetsPad(t: Text)
    ensures Sextets([PAD] + t) == Sextets(t)
  {
    assert ([PAD] + t)[1..] == t;
  }

  lemma {:induction false} EncodedSextets(b: seq<Byte>)
    ensures Sextets(Encode(b)) == SextetsOf(b)
  {
    if |b| == 1 {
      var v, w := b[0] / 4, b[0] % 4 * 16;
      SextetsPad([]);
      SextetsPad([PAD]);
      SextetsStep(w, [PAD, PAD]);
      SextetsStep(v, [Symbol(w), PAD, PAD]);
      assert Encode(b) == [Symbol(v)] + [Symbol(w), PAD, PAD] && [Symbol(w), PAD, PAD] == [Symbol(w)] + [PAD, PAD];
      assert [PAD] + [PAD] == [PAD, PAD] && [PAD] + [] == [PAD];
    } else if |b| == 2 {
      var v, w, x := b[0] / 4, b[0] % 4 * 16 + b[1] / 16, b[1] % 16 * 4;
      SextetsPad([]);
      SextetsStep(x, [PAD]);
      SextetsStep(w, [Symbol(x), PAD]);
      SextetsStep(v, [Symbol(w), Symbol(x), PAD]);
      assert Encode(b) == [Symbol(v)] + [Symbol(w), Symbol(x), PAD];
      assert [Symbol(w), Symbol(x), PAD] == [Symbol(w)] + [Symbol(x), PAD] && [Symbol(x), PAD] == [Symbol(x)] + [PAD];
      assert [PAD] + [] == [PAD];
    } else if |b| > 2 {
      var v, w, x, y := b[0] / 4, b[0] % 4 * 16 + b[1] / 16, b[1] % 16 * 4 + b[2] / 64, b[2] % 64;
      var rest := Encode(b[3..]);
      EncodedSextets(b[3..]);
      FourSymbols(v, w, x, y, rest);
    }
  }

  lemma FourSymbols(v: Sextet, w: Sextet, x: Sextet, y: Sextet, rest: Text)
    ensures Sextets([Symbol(v), Symbol(w), Symbol(x), Symbol(y)] + rest) == [v, w, x, y] + Sextets(rest)
  {
    SextetsStep(y, rest);
    SextetsStep(x, [Symbol(y)] + rest);
    SextetsStep(w, [Symbol(x)] + ([Symbol(y)] + rest));
    SextetsStep(v, [Symbol(w)] + ([Symbol(x)] + ([Symbol(y)] + rest)));
    assert [Symbol(v), Symbol(w), Symbol(x), Symbol(y)] + rest
        == [Symbol(v)] + ([Symbol(w)] + ([Symbol(x)] + ([Symbol(y)] + rest)));
  }

  lemma Regrouped(a: Byte, b: Byte, c: Byte)
    ensures a / 4 * 4 + (a % 4 * 16 + b / 16) / 16 == a
    ensures (a % 4 * 16 + b / 16) % 16 * 16 + (b % 16 * 4 + c / 64) / 4 == b
    ensures (b % 16 * 4 + c / 64) % 4 * 64 + c % 64 == c
  {
  }

  lemma {:induction false} BytesRoundTrip(b: seq<Byte>)
    ensures Bytes(SextetsOf(b)) == b
  {
    if |b| > 2 {
      BytesRoundTrip(b[3..]);
      Regrouped(b[0], b[1], b[2]);
      var s := SextetsOf(b);
      assert s[4..] == SextetsOf(b[3..]);
      assert b == [b[0], b[1], b[2]] + b[3..];
    }
  }

  /** Decoding what was encoded gives it back. */
  lemma RoundTrip(b: seq<Byte>)
    ensures Decode(Encode(b)) == b
  {
    EncodedSextets(b);
    BytesRoundTrip(b);
  }

  /** The lenient decoder is not injective: an unpadded text, or one with stray characters, decodes like the canonical one. */
  lemma DecoderIsLenient()
    ensures Encode([0]) == [0x41, 0x41, PAD, PAD] && Decode([0x41, 0x41]) == Decode([0x41, 0x20, 0x41, PAD]) == [0]
  {
    RoundTrip([0]);
    assert Sextets([0x41, 0x41]) == [0, 0] by {
      SextetsStep(0, []);
      SextetsStep(0, [0x41]);
      assert [Symbol(0)] + [] == [0x41] && [Symbol(0)] + [0x41] == [0x41, 0x41];
    }
    assert Sextets([0x41, 0x20, 0x41, PAD]) == [0, 0] by {
      SextetsPad([]);
      SextetsStep(0, [PAD]);
      SextetsStep(0, [0x20, 0x41, PAD]);
      assert [PAD] + [] == [PAD] && [Symbol(0)] + [PAD] == [0x41, PAD];
      var t: Text := [0x20, 0x41, PAD];
      assert t[1..] == [0x41, PAD];
      assert [Symbol(0)] + [0x20, 0x41, PAD] == [0x41, 0x20, 0x41, PAD];
    }
  }

  /** Encoded text has no character that ends a line. */
  lemma {:induction false} EncodedCharacters(b: seq<Byte>)
    ensures forall i :: 0 <= i < |Encode(b)| ==> ValueOf(Encode(b)[i]) >= 0 || Encode(b)[i] == PAD
  {
    if |b| > 2 { EncodedCharacters(b[3..]); }
  }
}
