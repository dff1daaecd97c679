/**
 * The UTF-8 encoder of 04_types_contd_homework-12926-ae2162/main.c and, as its inverse, the strict
 * decoder that section 4 of RFC 3629 gives the grammar of.
 */
module Utf8 {
  import opened Wrappers

  type Octets = seq<bv8>

  // ------------------------------------------------------------- the encoder

  function Lead2(u: bv32): bv8 {
    (((u >> 6) & 0x1F) | 0xC0) as bv8
  }

  function Lead3(u: bv32): bv8 {
    (((u >> 12) & 0x0F) | 0xE0) as bv8
  }

  function Lead4(u: bv32): bv8 {
    (((u >> 18) & 0x07) | 0xF0) as bv8
  }

  /** A byte that carries six bits. */
  function Six(u: bv32): bv8 {
    ((u & 0x3F) | 0x80) as bv8
  }

  function Down6(u: bv32): bv32 {
    u >> 6
  }

  function Down12(u: bv32): bv32 {
    u >> 12
  }

  function Ascii(u: bv32): bv8 {
    (u & 0x7F) as bv8
  }

  /** The bytes that count: none for a number beyond the last code point. */
  function Encode(u: bv32): (b: Octets)
    ensures |b| <= 4
  {
    if u <= 0x7F then [Ascii(u)]
    else if u <= 0x7FF then [Lead2(u), Six(u)]
    else if u <= 0xFFFF then [Lead3(u), Six(Down6(u)), Six(u)]
    else if u <= 0x10FFFF then [Lead4(u), Six(Down12(u)), Six(Down6(u)), Six(u)]
    else []
  }

  /** Stores the bytes and a terminator; a number beyond the last code point stores U+FFFD but counts nothing. */
  method Utf8Encode(out: array<bv8>, utf: bv32) returns (len: nat)
    requires out.Length > if utf <= 0x10FFFF then |Encode(utf)| else 3
    modifies out
    ensures len == |Encode(utf)| <= 4 && out[..len] == Encode(utf)
    ensures utf <= 0x10FFFF ==> out[len] == 0
    ensures utf > 0x10FFFF ==> out[..4] == [0xEF, 0xBF, 0xBD, 0]
  {
    hide Lead2, Lead3, Lead4, Six;
    if utf <= 0x7F {
      out[0] := Ascii(utf);
      out[1] := 0;
      return 1;
    } else if utf <= 0x07FF {
      out[0] := Lead2(utf);
      out[1] := Six(utf);
      out[2] := 0;
      return 2;
    } else if utf <= 0xFFFF {
      out[0] := Lead3(utf);
      out[1] := Six(Down6(utf));
      out[2] := Six(utf);
      out[3] := 0;
      return 3;
    } else if utf <= 0x10FFFF {
      out[0] := Lead4(utf);
      out[1] := Six(Down12(utf));
      out[2] := Six(Down6(utf));
      out[3] := Six(utf);
      out[4] := 0;
      return 4;
    } else {
      out[0] := 0xEF;
      out[1] := 0xBF;
      out[2] := 0xBD;
      out[3] := 0;
      return 0;
    }
  }

  // ------------------------------------------------------------- the decoder

  /** The code points UTF-8 may encode (section 3 of RFC 3629). */
  predicate Scalar(u: bv32) {
    u <= 0x10FFFF && !(0xD800 <= u <= 0xDFFF)
  }

  predicate Tail(b: bv8) {
    0x80 <= b <= 0xBF
  }

  predicate Two(a: bv8, b: bv8) {
    0xC2 <= a <= 0xDF && Tail(b)
  }

  predicate Three(a: bv8, b: bv8, c: bv8) {
    0xE0 <= a <= 0xEF && Tail(b) && Tail(c) && (a == 0xE0 ==> b >= 0xA0) && (a == 0xED ==> b <= 0x9F)
  }

  predicate Four(a: bv8, b: bv8, c: bv8, d: bv8) {
    && 0xF0 <= a <= 0xF4 && Tail(b) && Tail(c) && Tail(d)
    && (a == 0xF0 ==> b >= 0x90) && (a == 0xF4 ==> b <= 0x8F)
  }

  function Low(b: bv8): bv32 {
    (b & 0x3F) as bv32
  }

  function Top(a: bv8): bv32 {
    (a & 0x07) as bv32
  }

  function LeadBits(u: bv32): bv32 {
    (u >> 18) & 0x07
  }

  function Low6(u: bv32): bv32 {
    u & 0x3F
  }

  function Pack(p: bv32, q: bv32, r: bv32, s: bv32): bv32 {
    (p << 18) | (q << 12) | (r << 6) | s
  }

  function Join2(a: bv8, b: bv8): bv32 {
    (((a & 0x1F) as bv32) << 6) | Low(b)
  }

  function Join3(a: bv8, b: bv8, c: bv8): bv32 {
    (((a & 0x0F) as bv32) << 12) | (Low(b) << 6) | Low(c)
  }

  function Join4(a: bv8, b: bv8, c: bv8, d: bv8): bv32 {
    Pack(Top(a), Low(b), Low(c), Low(d))
  }

  datatype Character = Character(point: bv32, length: nat)

  /** The first character of a byte string, by the grammar of RFC 3629. */
  function DecodeOne(s: Octets): (r: Option<Character>)
    ensures r.Some? ==> 0 < r.value.length <= |s|
  {
    if |s| >= 1 && s[0] <= 0x7F then Some(Character(s[0] as bv32, 1))
    else if |s| >= 2 && Two(s[0], s[1]) then Some(Character(Join2(s[0], s[1]), 2))
    else if |s| >= 3 && Three(s[0], s[1], s[2]) then Some(Character(Join3(s[0], s[1], s[2]), 3))
    else if |s| >= 4 && Four(s[0], s[1], s[2], s[3]) then Some(Character(Join4(s[0], s[1], s[2], s[3]), 4))
    else None
  }

  function Decode(s: Octets): Option<seq<bv32>> {
    if s == [] then Some([])
    else
      var first := DecodeOne(s);
      if first.None? then None
      else
        var rest := Decode(s[first.value.length..]);
        if rest.None? then None else Some([first.value.point] + rest.value)
  }

  // ------------------------------------------------- encoding, then decoding

  lemma TwoBack(u: bv32)
    requires 0x7F < u <= 0x7FF
    ensures Two(Lead2(u), Six(u)) && Join2(Lead2(u), Six(u)) == u
  {
  }

  lemma ThreeBack(u: bv32)
    requires 0x7FF < u <= 0xFFFF
    ensures Join3(Lead3(u), Six(Down6(u)), Six(u)) == u
    ensures Three(Lead3(u), Six(Down6(u)), Six(u)) <==> Scalar(u)
  {
  }

  lemma Payload(u: bv32)
    ensures Tail(Six(u)) && Low(Six(u)) == Low6(u)
    ensures Top(Lead4(u)) == LeadBits(u)
  {
  }

  lemma Pieces(u: bv32)
    requires u <= 0x1FFFFF
    ensures Pack(LeadBits(u), Low6(Down12(u)), Low6(Down6(u)), Low6(u)) == u
  {
  }

  lemma FourStarts(u: bv32)
    requires 0xFFFF < u <= 0x10FFFF
    ensures 0xF0 <= Lead4(u) <= 0xF4
    ensures Lead4(u) == 0xF0 ==> Six(Down12(u)) >= 0x90
    ensures Lead4(u) == 0xF4 ==> Six(Down12(u)) <= 0x8F
  {
  }

  lemma FourBack(u: bv32)
    requires 0xFFFF < u <= 0x10FFFF
    ensures Four(Lead4(u), Six(Down12(u)), Six(Down6(u)), Six(u))
    ensures Join4(Lead4(u), Six(Down12(u)), Six(Down6(u)), Six(u)) == u
  {
    hide Down6, Down12, Lead4, Six, Tail, Pack, Low, Low6, Top, LeadBits;
    FourStarts(u);
    Payload(u);
    Payload(Down6(u));
    Payload(Down12(u));
    Pieces(u);
  }

  /** The first bytes of the four lengths are apart. */
  lemma LeadsApart(u: bv32)
    ensures 0xC0 <= Lead2(u) <= 0xDF && 0xE0 <= Lead3(u) <= 0xEF && 0xF0 <= Lead4(u) <= 0xF7
  {
  }

  lemma LowBack(u: bv32)
    requires u <= 0x7F
    ensures Ascii(u) <= 0x7F && Ascii(u) as bv32 == u
  {
  }

  /** An encoded code point decodes to itself, whatever follows. */
  lemma EncodeDecodes(u: bv32, rest: Octets)
    requires Scalar(u)
    ensures DecodeOne(Encode(u) + rest) == Some(Character(u, |Encode(u)|))
  {
    hide Down6, Down12, Ascii, Lead2, Lead3, Lead4, Six, Tail, Join2, Join3, Join4;
    LeadsApart(u);
    if u <= 0x7F {
      LowBack(u);
    } else if u <= 0x7FF {
      TwoBack(u);
    } else if u <= 0xFFFF {
      ThreeBack(u);
    } else {
      FourBack(u);
    }
  }

  // ------------------------------------------------- decoding, then encoding

  lemma TwoForth(a: bv8, b: bv8)
    requires Two(a, b)
    ensures var u := Join2(a, b); 0x7F < u <= 0x7FF && Lead2(u) == a && Six(u) == b
  {
  }

  lemma ThreeForth(a: bv8, b: bv8, c: bv8)
    requires Three(a, b, c)
    ensures var u := Join3(a, b, c);
            0x7FF < u <= 0xFFFF && Scalar(u) && Lead3(u) == a && Six(Down6(u)) == b && Six(u) == c
  {
  }

  lemma PackForth(p: bv32, q: bv32, r: bv32, s: bv32)
    requires p <= 7 && q <= 0x3F && r <= 0x3F && s <= 0x3F
    ensures var u := Pack(p, q, r, s);
            LeadBits(u) == p && Low6(Down12(u)) == q && Low6(Down6(u)) == r && Low6(u) == s
  {
  }

  lemma PackRange(p: bv32, q: bv32, r: bv32, s: bv32)
    requires p <= 4 && q <= 0x3F && r <= 0x3F && s <= 0x3F
    requires (p == 0 ==> q >= 0x10) && (p == 4 ==> q <= 0x0F)
    ensures 0xFFFF < Pack(p, q, r, s) <= 0x10FFFF
  {
  }

  lemma TailBack(b: bv8, u: bv32)
    requires Tail(b) && Low6(u) == Low(b)
    ensures Six(u) == b
  {
  }

  lemma LeadBack(a: bv8, u: bv32)
    requires 0xF0 <= a <= 0xF4 && LeadBits(u) == Top(a)
    ensures Lead4(u) == a
  {
  }

  lemma FourRange(a: bv8, b: bv8, c: bv8, d: bv8)
    requires Four(a, b, c, d)
    ensures Top(a) <= 4 && (Top(a) == 0 ==> Low(b) >= 0x10) && (Top(a) == 4 ==> Low(b) <= 0x0F)
    ensures Low(b) <= 0x3F && Low(c) <= 0x3F && Low(d) <= 0x3F
  {
  }

  lemma FourForth(a: bv8, b: bv8, c: bv8, d: bv8)
    requires Four(a, b, c, d)
    ensures var u := Join4(a, b, c, d);
            0xFFFF < u <= 0x10FFFF && Lead4(u) == a && Six(Down12(u)) == b && Six(Down6(u)) == c && Six(u) == d
  {
    hide Down6, Down12, Lead4, Six, Tail, Pack, Low, Low6, Top, LeadBits;
    var u := Join4(a, b, c, d);
    FourRange(a, b, c, d);
    PackForth(Top(a), Low(b), Low(c), Low(d));
    PackRange(Top(a), Low(b), Low(c), Low(d));
    LeadBack(a, u);
    TailBack(b, Down12(u));
    TailBack(c, Down6(u));
    TailBack(d, u);
  }

  /** A decoded character is a code point, in its only encoding. */
  lemma DecodeEncodes(s: Octets)
    requires DecodeOne(s).Some?
    ensures var c := DecodeOne(s).value; Scalar(c.point) && s[..c.length] == Encode(c.point)
  {
    hide Down6, Down12, Ascii, Lead2, Lead3, Lead4, Six, Two, Three, Four, Join2, Join3, Join4;
    if s[0] <= 0x7F {
      SevenBits(s[0]);
    } else if |s| >= 2 && Two(s[0], s[1]) {
      TwoForth(s[0], s[1]);
    } else if |s| >= 3 && Three(s[0], s[1], s[2]) {
      ThreeForth(s[0], s[1], s[2]);
    } else {
      FourForth(s[0], s[1], s[2], s[3]);
    }
  }

  lemma SevenBits(b: bv8)
    requires b <= 0x7F
    ensures b as bv32 <= 0x7F && Ascii(b as bv32) == b
  {
  }

  // ------------------------------------------------------------ whole strings

  function EncodeAll(points: seq<bv32>): Octets {
    if points == [] then [] else Encode(points[0]) + EncodeAll(points[1..])
  }

  ghost predicate AllScalar(points: seq<bv32>) {
    forall i :: 0 <= i < |points| ==> Scalar(points[i])
  }

  lemma {:induction false} EncodeAllDecodes(points: seq<bv32>)
    requires AllScalar(points)
    ensures Decode(EncodeAll(points)) == Some(points)
  {
    hide Encode, DecodeOne, Scalar;
    if points != [] {
      var first, rest := Encode(points[0]), EncodeAll(points[1..]);
      EncodeDecodes(points[0], rest);
      EncodeAllDecodes(points[1..]);
      assert (first + rest)[|first|..] == rest && first + rest != [];
      assert [points[0]] + points[1..] == points;
    }
  }

  lemma {:induction false} DecodedIsEncoded(s: Octets)
    requires Decode(s).Some?
    ensures AllScalar(Decode(s).value) && EncodeAll(Decode(s).value) == s
    decreases |s|
  {
    hide Encode, DecodeOne, Scalar;
    if s != [] {
      DecodeEncodes(s);
      var first := DecodeOne(s).value;
      DecodedIsEncoded(s[first.length..]);
      assert Decode(s).value[1..] == Decode(s[first.length..]).value;
      assert s == s[..first.length] + s[first.length..];
    }
  }

  /** The encoder and a strict decoder are inverse to each other, on exactly the strings of code points. */
  lemma DecodeIff(s: Octets, points: seq<bv32>)
    ensures Decode(s) == Some(points) <==> AllScalar(points) && s == EncodeAll(points)
  {
    if AllScalar(points) {
      EncodeAllDecodes(points);
    }
    if Decode(s).Some? {
      DecodedIsEncoded(s);
    }
  }

  /** utf8_encode is undone by a strict decoder exactly on code points: it also encodes surrogates. */
  lemma EncodeRoundTripIff(u: bv32)
    ensures Decode(Encode(u)) == Some([u]) <==> Scalar(u)
  {
    hide Encode, Decode, Scalar;
    assert EncodeAll([u]) == Encode(u);
    assert [u][0] == u;
    DecodeIff(Encode(u), [u]);
  }

  lemma SurrogateEncoded()
    ensures Encode(0xD800) == [0xED, 0xA0, 0x80] && Decode([0xED, 0xA0, 0x80]) == None
    ensures Encode(0x110000) == []
  {
    assert Lead3(0xD800) == 0xED && Six(Down6(0xD800)) == 0xA0 && Six(0xD800) == 0x80;
  }
}
