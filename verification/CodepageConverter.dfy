/** codepage_to_utf8 of 04_types_contd_homework-12926-ae2162/main.c: the loop over a C string. */
module CodepageConverter {
  import opened Wrappers
  import opened Codepages
  import opened Utf8

  // ------------------------------------------------ what a text stands for

  /** A byte below 0x80 stands for itself, any other for its table entry. */
  function Point(cp: Codepage, b: bv8): bv32 {
    if b & 0x80 != 0 then Table(cp, b & 0x7F) else b as bv32
  }

  function Points(cp: Codepage, text: Octets): (u: seq<bv32>)
    ensures |u| == |text|
  {
    if text == [] then [] else [Point(cp, text[0])] + Points(cp, text[1..])
  }

  /** The UTF-8 form of a text. */
  function Converted(cp: Codepage, text: Octets): Octets {
    EncodeAll(Points(cp, text))
  }

  lemma ConvertedFirst(cp: Codepage, text: Octets)
    requires text != []
    ensures Converted(cp, text) == Encode(Point(cp, text[0])) + Converted(cp, text[1..])
  {
    hide Point, Encode;
    assert Points(cp, text)[1..] == Points(cp, text[1..]);
  }

  lemma NothingConverted(cp: Codepage)
    ensures Converted(cp, []) == []
  {
  }

  lemma HighBit(b: bv8)
    ensures b & 0x7F < 0x80
    ensures b & 0x80 != 0 ==> 0x80 | (b & 0x7F) == b
    ensures b & 0x80 == 0 ==> b <= 0x7F && b as bv32 <= 0x7F
  {
  }

  lemma PointSound(cp: Codepage, b: bv8)
    ensures Point(cp, b) <= 0x2FFF
    ensures b & 0x80 != 0 ==> Sound(Point(cp, b)) && HighByte(cp, Point(cp, b)) == b
    ensures b & 0x80 == 0 ==> Point(cp, b) <= 0x7F
  {
    hide Table, HighByte;
    HighBit(b);
    TableBack(cp, b & 0x7F);
  }

  // ------------------------------------------- what the names stand for

  /** Three names are known. */
  lemma NamesKnown(name: string)
    ensures CodepageOf(name).Some? <==> name in {"cp1251", "koi8-r", "iso-8859-5"}
  {
  }

  /** In cp1251 the letters from 0xC0 on are those from U+0410 on. */
  lemma Cp1251Letters(b: bv8)
    requires b >= 0xC0
    ensures Point(CodepageOf("cp1251").value, b) == b as bv32 + 0x350
  {
  }

  /** iso-8859-5 is Latin up to 0xA0, then the letters from U+0401 on, but for three signs. */
  lemma Iso88595Is(b: bv8)
    ensures Point(CodepageOf("iso-8859-5").value, b)
         == if b <= 0xA0 || b == 0xAD then b as bv32
            else if b == 0xF0 then 0x2116
            else if b == 0xFD then 0xA7
            else b as bv32 + 0x360
  {
  }

  /** In koi8-r small letters come first, and a capital is 0x20 above in the code and below in Unicode. */
  lemma Koi8rLetters(b: bv8)
    requires 0xC0 <= b <= 0xDF
    ensures var cp := CodepageOf("koi8-r").value;
            0x430 <= Point(cp, b) <= 0x44F && Point(cp, b | 0x20) == Point(cp, b) - 0x20
  {
  }

  /** The letter a (U+0430) in the three codepages. */
  lemma LetterA()
    ensures Point(CodepageOf("cp1251").value, 0xE0) == 0x430
    ensures Point(CodepageOf("koi8-r").value, 0xC1) == 0x430
    ensures Point(CodepageOf("iso-8859-5").value, 0xD0) == 0x430
  {
  }

  lemma SmallIsScalar(u: bv32)
    requires u <= 0x2FFF
    ensures Scalar(u)
  {
  }

  lemma {:induction false} PointsScalar(cp: Codepage, text: Octets)
    ensures AllScalar(Points(cp, text))
  {
    hide Point, Scalar;
    if text != [] {
      PointSound(cp, text[0]);
      SmallIsScalar(Point(cp, text[0]));
      PointsScalar(cp, text[1..]);
    }
  }

  /** Decoding the output gives exactly the mapped code points, in order. */
  lemma ConvertedDecodes(cp: Codepage, text: Octets)
    ensures Decode(Converted(cp, text)) == Some(Points(cp, text))
  {
    PointsScalar(cp, text);
    EncodeAllDecodes(Points(cp, text));
  }

  // ------------------------------------------------------------------ length

  /** Octets of a text that become one byte. */
  function Shorts(cp: Codepage, text: Octets): nat {
    if text == [] then 0 else (if Point(cp, text[0]) <= 0x7F then 1 else 0) + Shorts(cp, text[1..])
  }

  /** Octets of a text that become three. */
  function Longs(cp: Codepage, text: Octets): nat {
    if text == [] then 0 else (if Point(cp, text[0]) > 0x7FF then 1 else 0) + Longs(cp, text[1..])
  }

  lemma EncodedLength(u: bv32)
    requires u <= 0xFFFF
    ensures |Encode(u)| == if u <= 0x7F then 1 else if u <= 0x7FF then 2 else 3
  {
    hide Lead2, Lead3, Lead4, Six, Ascii, Down6, Down12;
  }

  lemma {:induction false} ConvertedLength(cp: Codepage, text: Octets)
    ensures |Converted(cp, text)| == 2 * |text| + Longs(cp, text) - Shorts(cp, text)
    ensures Longs(cp, text) + Shorts(cp, text) <= |text|
  {
    hide Point, Encode, Converted;
    if text == [] {
      NothingConverted(cp);
    } else {
      PointSound(cp, text[0]);
      EncodedLength(Point(cp, text[0]));
      ConvertedFirst(cp, text);
      ConvertedLength(cp, text[1..]);
    }
  }

  /**
   * The output and its terminator always fit in 3n + 1 bytes. The array the caller passes is twice
   * the size of the file, of which the first n bytes are the text: up to a NUL, or all of it. It
   * is large enough if and only if the long characters are fewer than the short ones and twice
   * the bytes that follow the text.
   */
  lemma RoomNeeded(cp: Codepage, file: Octets, n: nat)
    requires n <= |file| && 0 !in file[..n] && (n < |file| ==> file[n] == 0)
    ensures |Converted(cp, file[..n])| <= 3 * n
    ensures |Converted(cp, file[..n])| + 1 <= 2 * |file| <==>
            Longs(cp, file[..n]) < Shorts(cp, file[..n]) + 2 * (|file| - n)
  {
    ConvertedLength(cp, file[..n]);
  }

  /** Two box-drawing characters and a NUL: seven bytes into an array of six. */
  lemma CallersArrayTooSmall()
    ensures var file: Octets := [0x80, 0x80, 0];
            0 !in file[..2] && |Converted(Koi8r, file[..2])| + 1 == 7 && 2 * |file| == 6
  {
    var file: Octets := [0x80, 0x80, 0];
    var text: Octets := [0x80, 0x80];
    assert file[..2] == text;
    assert Point(Koi8r, 0x80) == 0x2500;
    assert text[1..] == [0x80] && text[1..][1..] == [];
    assert Shorts(Koi8r, text[1..]) == 0 && Longs(Koi8r, text[1..]) == 1;
    assert Shorts(Koi8r, text) == 0 && Longs(Koi8r, text) == 2;
    ConvertedLength(Koi8r, text);
  }

  // ------------------------------------------------------------- injectivity

  lemma PointsApart(cp: Codepage, a: bv8, b: bv8)
    requires a != 0 && b != 0 && Point(cp, a) == Point(cp, b)
    ensures a == b
  {
    hide Table, HighByte;
    PointSound(cp, a);
    PointSound(cp, b);
    WidenApart(a, b);
  }

  lemma WidenApart(a: bv8, b: bv8)
    ensures a as bv32 == b as bv32 ==> a == b
    ensures a as bv32 == 0 ==> a == 0
  {
  }

  lemma {:induction false} PointsInjective(cp: Codepage, s: Octets, t: Octets)
    requires 0 !in s && 0 !in t && Points(cp, s) == Points(cp, t)
    ensures s == t
  {
    hide Point;
    if s != [] {
      assert |s| == |Points(cp, s)| == |t|;
      PointsApart(cp, s[0], t[0]);
      assert Points(cp, s)[1..] == Points(cp, t)[1..];
      PointsInjective(cp, s[1..], t[1..]);
      assert s == [s[0]] + s[1..] && t == [t[0]] + t[1..];
    }
  }

  /** Two C strings with the same UTF-8 form are the same string. */
  lemma ConvertedInjective(cp: Codepage, s: Octets, t: Octets)
    requires 0 !in s && 0 !in t && Converted(cp, s) == Converted(cp, t)
    ensures s == t
  {
    ConvertedDecodes(cp, s);
    ConvertedDecodes(cp, t);
    PointsInjective(cp, s, t);
  }

  // ------------------------------------------------------------ inner zeros

  lemma EncodeZeroIff(u: bv32)
    requires u <= 0x10FFFF
    ensures 0 in Encode(u) <==> u == 0
  {
    hide Down6, Down12;
    LowZero(u);
    NoZero(u);
    NoZero(Down6(u));
    NoZero(Down12(u));
    hide Lead2, Lead3, Lead4, Six, Ascii;
    if u <= 0x7F {
      assert Encode(u) == [Ascii(u)];
    }
  }

  lemma LowZero(u: bv32)
    requires u <= 0x10FFFF
    ensures u <= 0x7F ==> (Ascii(u) == 0 <==> u == 0)
  {
  }

  lemma NoZero(u: bv32)
    ensures Lead2(u) != 0 && Lead3(u) != 0 && Lead4(u) != 0 && Six(u) != 0
  {
  }

  lemma PointZeroIff(cp: Codepage, b: bv8)
    ensures Point(cp, b) == 0 <==> b == 0 || (cp.Cp1251? && b == 0x98)
  {
    hide Cp1251Table, Koi8rTable, Iso88595Table;
    PointSound(cp, b);
    WidenApart(b, 0);
    CpHole();
  }

  lemma CpHole()
    ensures Cp1251Table(0x18) == 0
  {
  }

  /** The result is a C string of the returned length unless a cp1251 text holds the unassigned byte 0x98. */
  lemma {:induction false} InnerZeroIff(cp: Codepage, text: Octets)
    requires 0 !in text
    ensures 0 in Converted(cp, text) <==> cp.Cp1251? && 0x98 in text
  {
    hide Point, Encode;
    if text != [] {
      PointSound(cp, text[0]);
      PointZeroIff(cp, text[0]);
      EncodeZeroIff(Point(cp, text[0]));
      InnerZeroIff(cp, text[1..]);
      assert text == [text[0]] + text[1..];
    }
  }

  // ---------------------------------------------------------------- the loop

  lemma LowByteItself(cp: Codepage, b: bv8)
    requires b & 0x80 == 0
    ensures Encode(Point(cp, b)) == [b]
  {
    hide Table;
    HighBit(b);
    SevenBits(b);
  }

  lemma HighByteMapped(cp: Codepage, b: bv8)
    requires b & 0x80 != 0
    ensures b & 0x7F < 0x80 && Point(cp, b) == Table(cp, b & 0x7F)
  {
  }

  /** The inner loop: copies len bytes of buf to out. */
  method CopyOut(buf: array<bv8>, len: nat, out: array<bv8>, at: nat)
    requires len <= buf.Length && at + len <= out.Length && buf != out
    modifies out
    ensures out[..] == old(out[..at]) + buf[..len] + old(out[at + len..])
  {
    var k := 0;
    while k < len
      invariant k <= len
      invariant out[..at] == old(out[..at]) && out[at + k..] == old(out[..])[at + k..]
      invariant forall j | 0 <= j < k :: out[at + j] == buf[j]
    {
      out[at + k] := buf[k];
      k := k + 1;
    }
  }

  /** The body of the outer loop: stores what one byte becomes. */
  method ConvertByte(cp: Codepage, b: bv8, out: array<bv8>, at: nat) returns (next: nat)
    requires at + |Encode(Point(cp, b))| <= out.Length
    modifies out
    ensures next == at + |Encode(Point(cp, b))| <= out.Length
    ensures out[..] == old(out[..at]) + Encode(Point(cp, b)) + old(out[..])[next..]
  {
    hide Point, Encode, Table;
    if b & 0x80 != 0 {
      HighByteMapped(cp, b);
      var codepoint := Table(cp, b & 0x7F);
      var buf := new bv8[5];
      var len := Utf8Encode(buf, codepoint);
      CopyOut(buf, len, out, at);
      next := at + len;
    } else {
      LowByteItself(cp, b);
      out[at] := b;
      next := at + 1;
    }
  }

  /** One more byte done: its encoding moves from what is to come to what is stored. */
  lemma Extend(cp: Codepage, rest: Octets, done: Octets)
    requires rest != []
    ensures done + Converted(cp, rest) == (done + Encode(Point(cp, rest[0]))) + Converted(cp, rest[1..])
  {
    hide Converted, Point, Encode;
    ConvertedFirst(cp, rest);
  }

  /**
   * Converts the C string of n bytes at input. An unknown name ends the program before anything is
   * written. The array must hold the result and its terminator.
   */
  method CodepageToUtf8(input: Octets, ghost n: nat, out: array<bv8>, codepage: string) returns (written: Option<nat>)
    requires n < |input| && input[n] == 0 && 0 !in input[..n]
    requires CodepageOf(codepage).Some? ==> |Converted(CodepageOf(codepage).value, input[..n])| + 1 <= out.Length
    modifies out
    ensures written.None? <==> CodepageOf(codepage).None?
    ensures written.None? ==> out[..] == old(out[..])
    ensures written.Some? ==>
              && written.value == |Converted(CodepageOf(codepage).value, input[..n])|
              && out[..] == Converted(CodepageOf(codepage).value, input[..n]) + [0] + old(out[..])[written.value + 1..]
  {
    hide Point, Encode, Converted, Table, CodepageOf;
    if CodepageOf(codepage).None? {
      return None;
    }
    var cp := CodepageOf(codepage).value;
    ghost var all := Converted(cp, input[..n]);
    var i: nat, o: nat := 0, 0;
    while input[i] != 0
      invariant i <= n && o <= out.Length
      invariant out[..o] + Converted(cp, input[i..n]) == all
      invariant out[o..] == old(out[..])[o..]
      decreases n - i
    {
      ghost var done := out[..o];
      Extend(cp, input[i..n], done);
      assert input[i..n][1..] == input[i + 1..n];
      o := ConvertByte(cp, input[i], out, o);
      assert out[..o] == done + Encode(Point(cp, input[i]));
      i := i + 1;
    }
    NothingConverted(cp);
    assert input[i..n] == [] && out[..o] == all;
    out[o] := 0;
    written := Some(o);
  }
}
