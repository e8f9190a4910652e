/** The character encoding behind text columns (str.encode, bytes.decode and str.rstrip in pysql/types.py). */
module Utf8s {
  import opened PageBytes
  import opened RecordCodec

  /** A Unicode scalar value. */
  predicate IsScalar(c: nat) {
    c < 0xD800 || 0xE000 <= c < 0x110000
  }

  predicate AllScalars(text: seq<nat>) {
    forall i :: 0 <= i < |text| ==> IsScalar(text[i])
  }

  /** White space, as str.rstrip removes it. */
  predicate IsSpace(c: nat) {
    || 0x9 <= c <= 0xD || 0x1C <= c <= 0x20 || c == 0x85 || c == 0xA0 || c == 0x1680 || 0x2000 <= c <= 0x200A
    || c == 0x2028 || c == 0x2029 || c == 0x202F || c == 0x205F || c == 0x3000
  }

  /** The bytes of one character (table 3-6 of the Unicode Standard). */
  function Utf8(c: nat): seq<Byte>
    requires IsScalar(c)
  {
    if c < 0x80 then [c as Byte]
    else if c < 0x800 then [(0xC0 + c / 64) as Byte, (0x80 + c % 64) as Byte]
    else if c < 0x10000 then [(0xE0 + c / 4096) as Byte, (0x80 + c / 64 % 64) as Byte, (0x80 + c % 64) as Byte]
    else
      [(0xF0 + c / 262144) as Byte, (0x80 + c / 4096 % 64) as Byte, (0x80 + c / 64 % 64) as Byte,
       (0x80 + c % 64) as Byte]
  }

  function Utf8All(text: seq<nat>): seq<Byte>
    requires AllScalars(text)
  {
    if text == [] then [] else Utf8(text[0]) + Utf8All(text[1..])
  }

  /** The text without the white space at its end. */
  function RStrip(text: seq<nat>): seq<nat> {
    if text == [] || !IsSpace(text[|text| - 1]) then text else RStrip(text[..|text| - 1])
  }

  // ----- Characters -----

  lemma CharOf(c: nat, rest: seq<Byte>)
    requires IsScalar(c)
    ensures CharSize(Utf8(c) + rest) == |Utf8(c)| > 0
  {
    SizeOf(c);
    SameFirst(Utf8(c), rest);
  }

  lemma SizeOf(c: nat)
    requires IsScalar(c)
    ensures CharSize(Utf8(c)) == |Utf8(c)| > 0
  {
  }

  /** The character that stands first. */
  lemma FirstChar(s: seq<Byte>) returns (c: nat)
    requires CharSize(s) > 0
    ensures IsScalar(c) && s[..CharSize(s)] == Utf8(c)
  {
    var n := CharSize(s);
    if n == 1 {
      c := s[0] as nat;
    } else if n == 2 {
      c := PairOf(s[0], s[1]);
    } else if n == 3 {
      c := TripleOf(s[0], s[1], s[2]);
    } else {
      c := QuadOf(s[0], s[1], s[2], s[3]);
    }
  }

  lemma PairOf(x: Byte, y: Byte) returns (c: nat)
    requires 0xC2 <= x <= 0xDF && IsTail(y)
    ensures IsScalar(c) && Utf8(c) == [x, y]
  {
    c := (x as nat - 0xC0) * 64 + Low(y);
    assert c / 64 == x as nat - 0xC0 && c % 64 == Low(y);
  }

  lemma TripleOf(x: Byte, y: Byte, z: Byte) returns (c: nat)
    requires 0xE0 <= x <= 0xEF && IsTail(y) && IsTail(z) && (x == 0xE0 ==> y >= 0xA0) && (x == 0xED ==> y <= 0x9F)
    ensures IsScalar(c) && Utf8(c) == [x, y, z]
  {
    var a := x as nat - 0xE0;
    c := a * 4096 + Low(y) * 64 + Low(z);
    assert c / 4096 == a && c / 64 == a * 64 + Low(y) && c % 64 == Low(z);
    assert (a * 64 + Low(y)) % 64 == Low(y);
  }

  lemma QuadOf(x: Byte, y: Byte, z: Byte, w: Byte) returns (c: nat)
    requires 0xF0 <= x <= 0xF4 && IsTail(y) && IsTail(z) && IsTail(w)
    requires (x == 0xF0 ==> y >= 0x90) && (x == 0xF4 ==> y <= 0x8F)
    ensures IsScalar(c) && Utf8(c) == [x, y, z, w]
  {
    var a := x as nat - 0xF0;
    c := a * 262144 + Low(y) * 4096 + Low(z) * 64 + Low(w);
    assert c / 262144 == a && c / 4096 == a * 64 + Low(y) && c / 64 == a * 4096 + Low(y) * 64 + Low(z);
    assert c % 64 == Low(w) && (a * 64 + Low(y)) % 64 == Low(y);
    assert (a * 4096 + Low(y) * 64 + Low(z)) % 64 == Low(z);
  }

  function Low(b: Byte): nat
    requires IsTail(b)
  {
    b as nat - 0x80
  }

  lemma LastChar(s: seq<Byte>, c: nat)
    requires IsScalar(c)
    ensures SpaceSize(s + Utf8(c)) == if IsSpace(c) then |Utf8(c)| else 0
  {
  }

  // ----- Texts -----

  /** Bytes that decode are the encoding of some characters, and the other way round. */
  lemma TextIsUtf8(s: seq<Byte>)
    ensures IsText(s) <==> exists text :: AllScalars(text) && Utf8All(text) == s
  {
    if IsText(s) { var text := Chars(s); }
    forall text | AllScalars(text) && Utf8All(text) == s ensures IsText(s) { EncodedIsText(text); }
  }

  lemma {:induction false} Chars(s: seq<Byte>) returns (text: seq<nat>)
    requires IsText(s)
    ensures AllScalars(text) && Utf8All(text) == s
  {
    if s == [] {
      text := [];
    } else {
      var c := FirstChar(s);
      var rest := Chars(s[CharSize(s)..]);
      text := [c] + rest;
      assert text[1..] == rest && s == s[..CharSize(s)] + s[CharSize(s)..];
    }
  }

  lemma {:induction false} EncodedIsText(text: seq<nat>)
    requires AllScalars(text)
    ensures IsText(Utf8All(text))
  {
    if text != [] {
      CharOf(text[0], Utf8All(text[1..]));
      EncodedIsText(text[1..]);
      assert Utf8All(text)[|Utf8(text[0])|..] == Utf8All(text[1..]);
    }
  }

  lemma {:induction false} EncodeAppends(text: seq<nat>, c: nat)
    requires AllScalars(text) && IsScalar(c)
    ensures Utf8All(text + [c]) == Utf8All(text) + Utf8(c)
  {
    if text == [] {
      assert [] + [c] == [c] && [c][1..] == [];
    } else {
      EncodeAppends(text[1..], c);
      assert (text + [c])[1..] == text[1..] + [c];
    }
  }

  /** Stripping the bytes strips the characters. */
  lemma {:induction false} StripIsRStrip(text: seq<nat>)
    requires AllScalars(text)
    ensures AllScalars(RStrip(text)) && Strip(Utf8All(text)) == Utf8All(RStrip(text))
  {
    if text != [] {
      var n := |text| - 1;
      var front, c := text[..n], text[n];
      assert text == front + [c];
      EncodeAppends(front, c);
      LastChar(Utf8All(front), c);
      if IsSpace(c) {
        StripIsRStrip(front);
        assert (Utf8All(front) + Utf8(c))[..|Utf8All(front)|] == Utf8All(front);
      }
    }
  }
}
