/**
  How rows become bytes (pysql/storage/heap.py, pysql/types.py): a bitmap of the NULL columns followed by the other
  columns' bytes in schema order.  Text is given by its UTF-8 bytes and a float by its bit pattern.
*/
module RecordCodec {
  import opened Common
  import opened PageBytes

  datatype ColumnType =
    | Boolean | Integer | Timestamp | Float | Text | VarChar(maxLength: nat) | Char(length: nat) | Blob

  datatype Value = Null | Bool(b: bool) | Int(n: int) | Bits(bits: nat) | Str(utf8: seq<Byte>) | Bytes(bytes: seq<Byte>)

  // ----- One column -----

  const HALF_64 := LIMIT_64 / 2

  /** Exclusive or with the sign bit, of an integer without bounds. */
  function FlipSign(n: int): int {
    if n < 0 then -1 - FlipBit63(-1 - n) else FlipBit63(n)
  }

  function FlipBit63(n: nat): (r: nat)
    ensures r / LIMIT_64 == n / LIMIT_64
  {
    var q, low := n / LIMIT_64, n % LIMIT_64;
    q * LIMIT_64 + (if low < HALF_64 then low + HALF_64 else low - HALF_64)
  }

  /** Eight bytes, or nothing for a number they cannot hold. */
  function Pack64(n: int): Option<seq<Byte>> {
    if 0 <= n < LIMIT_64 then Some(Big(n, 8)) else None
  }

  /** A float's bits, changed so that the bytes sort as the numbers do. */
  function FlipFloat(bits: nat): nat
    requires bits < LIMIT_64
  {
    if bits >= HALF_64 then LIMIT_64 - 1 - bits else bits + HALF_64
  }

  function UnflipFloat(bits: nat): nat
    requires bits < LIMIT_64
  {
    if bits >= HALF_64 then bits - HALF_64 else LIMIT_64 - 1 - bits
  }

  function Prefixed(k: nat, bytes: seq<Byte>): Option<seq<Byte>> {
    if |bytes| < Power256(k) then Some(Big(|bytes|, k) + bytes) else None
  }

  function Cut(bytes: seq<Byte>, n: nat): seq<Byte> {
    if |bytes| <= n then bytes else bytes[..n]
  }

  function Spaces(n: nat): (r: seq<Byte>)
    ensures |r| == n && forall i :: 0 <= i < n ==> r[i] == 32
  {
    if n == 0 then [] else Spaces(n - 1) + [32 as Byte]
  }

  // ----- Text -----

  predicate IsTail(b: Byte) {
    0x80 <= b <= 0xBF
  }

  /** The number of bytes of the first UTF-8 character; 0 if there is none (table 3-7 of the Unicode Standard). */
  function CharSize(s: seq<Byte>): (n: nat)
    ensures n <= |s| && n <= 4
    ensures forall i :: 0 < i < n ==> IsTail(s[i])
  {
    if s == [] then 0
    else if s[0] < 0x80 then 1
    else if 0xC2 <= s[0] <= 0xDF && |s| >= 2 && IsTail(s[1]) then 2
    else if 0xE0 <= s[0] <= 0xEF && |s| >= 3 && IsTail(s[1]) && IsTail(s[2])
            && (s[0] == 0xE0 ==> s[1] >= 0xA0) && (s[0] == 0xED ==> s[1] <= 0x9F) then 3
    else if 0xF0 <= s[0] <= 0xF4 && |s| >= 4 && IsTail(s[1]) && IsTail(s[2]) && IsTail(s[3])
            && (s[0] == 0xF0 ==> s[1] >= 0x90) && (s[0] == 0xF4 ==> s[1] <= 0x8F) then 4
    else 0
  }

  /** The bytes are some text. */
  predicate IsText(s: seq<Byte>) {
    s == [] || (CharSize(s) > 0 && IsText(s[CharSize(s)..]))
  }

  predicate IsAsciiSpace(b: Byte) {
    9 <= b <= 13 || 28 <= b <= 32
  }

  /** U+1680, U+2000 to U+200A, U+2028, U+2029, U+202F, U+205F and U+3000. */
  predicate IsWideSpace(a: Byte, b: Byte, c: Byte) {
    || (a == 0xE1 && b == 0x9A && c == 0x80)
    || (a == 0xE2 && b == 0x80 && (0x80 <= c <= 0x8A || c == 0xA8 || c == 0xA9 || c == 0xAF))
    || (a == 0xE2 && b == 0x81 && c == 0x9F)
    || (a == 0xE3 && b == 0x80 && c == 0x80)
  }

  /** The number of bytes of the white space character at the end; 0 if there is none. */
  function SpaceSize(s: seq<Byte>): (k: nat)
    ensures k <= |s| && k <= 3
    ensures k > 0 ==> !IsTail(s[|s| - k])
  {
    var n := |s|;
    if n >= 1 && IsAsciiSpace(s[n - 1]) then 1
    else if n >= 2 && s[n - 2] == 0xC2 && (s[n - 1] == 0x85 || s[n - 1] == 0xA0) then 2
    else if n >= 3 && IsWideSpace(s[n - 3], s[n - 2], s[n - 1]) then 3
    else 0
  }

  function Strip(s: seq<Byte>): seq<Byte> {
    if SpaceSize(s) == 0 then s else Strip(s[..|s| - SpaceSize(s)])
  }

  lemma SameFirst(a: seq<Byte>, b: seq<Byte>)
    requires CharSize(a) > 0
    ensures CharSize(a + b) == CharSize(a)
  {
  }

  lemma {:induction false} TextJoins(a: seq<Byte>, b: seq<Byte>)
    requires IsText(a) && IsText(b)
    ensures IsText(a + b)
  {
    hide CharSize;
    if a == [] {
      assert a + b == b;
    } else {
      SameFirst(a, b);
      TextJoins(a[CharSize(a)..], b);
      assert (a + b)[CharSize(a)..] == a[CharSize(a)..] + b;
    }
  }

  lemma {:induction false} SpacesAreText(n: nat)
    ensures IsText(Spaces(n))
  {
    if n > 0 {
      SpacesAreText(n - 1);
      assert IsText([32 as Byte]) by { assert [32 as Byte][1..] == []; }
      TextJoins(Spaces(n - 1), [32 as Byte]);
    }
  }

  lemma SameSpace(s: seq<Byte>, m: nat)
    requires m + SpaceSize(s) <= |s| && SpaceSize(s) > 0
    ensures SpaceSize(s[m..]) == SpaceSize(s)
  {
  }

  lemma Slices(s: seq<Byte>, m: nat, e: nat)
    requires m <= e <= |s|
    ensures s[..e][m..] == s[m..][..e - m]
  {
  }

  /** White space at the end of a text is a character of it, not a part of one. */
  lemma {:induction false} SpaceIsChar(s: seq<Byte>)
    requires IsText(s) && SpaceSize(s) > 0
    ensures IsText(s[..|s| - SpaceSize(s)])
  {
    var m, k, n := CharSize(s), SpaceSize(s), |s|;
    if n - k == 0 {
      assert s[..0] == [];
    } else {
      assert n - k >= m;
      var rest := s[m..];
      if n - k == m {
        assert s[..m][m..] == [] && CharSize(s[..m]) == m;
      } else {
        SameSpace(s, m);
        SpaceIsChar(rest);
        Slices(s, m, n - k);
        assert CharSize(s[..n - k]) == m;
      }
    }
  }

  /** Stripping a text leaves a text. */
  lemma {:induction false} StripKeepsText(s: seq<Byte>)
    requires IsText(s)
    ensures IsText(Strip(s)) && SpaceSize(Strip(s)) == 0
    decreases |s|
  {
    if SpaceSize(s) > 0 {
      SpaceIsChar(s);
      StripKeepsText(s[..|s| - SpaceSize(s)]);
    }
  }

  // ----- Encoding and decoding -----

  /** A column's bytes; nothing where packing raises an error or the value is not of the column's kind. */
  function Encode(t: ColumnType, v: Value): Option<seq<Byte>> {
    match (t, v)
    case (Boolean, Bool(b)) => Some([if b then 1 else 0])
    case (Integer, Int(n)) => Pack64(FlipSign(n))
    case (Timestamp, Int(n)) => Pack64(FlipSign(n))
    case (Float, Bits(bits)) => if bits < LIMIT_64 then Some(Big(FlipFloat(bits), 8)) else None
    case (Text, Str(s)) => if IsText(s) then Prefixed(4, s) else None
    case (VarChar(max), Str(s)) => if IsText(s) then Prefixed(2, Cut(s, max)) else None
    case (Char(n), Str(s)) => if IsText(s) then Some(Cut(s, n) + Spaces(n - |Cut(s, n)|)) else None
    case (Blob, Bytes(b)) => Prefixed(4, b)
    case _ => None
  }

  function Unprefixed(k: nat, data: seq<Byte>): Option<seq<Byte>> {
    if |data| < k then None
    else
      var n := Unbig(data[..k]);
      Some(Cut(data[k..], n))
  }

  /** Bytes decoded as text; nothing where that raises an error. */
  function AsText(s: seq<Byte>): Option<Value> {
    if IsText(s) then Some(Str(s)) else None
  }

  /** The value at the front of the data; nothing where unpacking or decoding raises an error. */
  function Decode(t: ColumnType, data: seq<Byte>): Option<Value> {
    match t
    case Boolean => if |data| < 1 then None else Some(Bool(data[0] != 0))
    case Integer => if |data| < 8 then None else Some(Int(FlipSign(Unbig(data[..8]))))
    case Timestamp => if |data| < 8 then None else Some(Int(FlipSign(Unbig(data[..8]))))
    case Float => if |data| < 8 || Unbig(data[..8]) >= LIMIT_64 then None else Some(Bits(UnflipFloat(Unbig(data[..8]))))
    case Text => (match Unprefixed(4, data) case None => None case Some(s) => AsText(s))
    case VarChar(_) => (match Unprefixed(2, data) case None => None case Some(s) => AsText(s))
    case Char(n) => if IsText(Cut(data, n)) then Some(Str(Strip(Cut(data, n)))) else None
    case Blob => (match Unprefixed(4, data) case None => None case Some(b) => Some(Bytes(b)))
  }

  /** How far a decoded value takes the reader. */
  function StorageSize(t: ColumnType, v: Value): nat {
    match t
    case Boolean => 1
    case Integer => 8
    case Timestamp => 8
    case Float => 8
    case Text => if v.Str? then 4 + |v.utf8| else 0
    case VarChar(max) => if v.Str? then 2 + |Cut(v.utf8, max)| else 0
    case Char(n) => n
    case Blob => if v.Bytes? then 4 + |v.bytes| else 0
  }

  /** The values that survive: no negative numbers, no text too long for its column, no CHAR ending in white space. */
  predicate Survives(t: ColumnType, v: Value) {
    match (t, v)
    case (Integer, Int(n)) => 0 <= n < LIMIT_64
    case (Timestamp, Int(n)) => 0 <= n < LIMIT_64
    case (VarChar(max), Str(s)) => |s| <= max
    case (Char(n), Str(s)) => |s| <= n && SpaceSize(s) == 0
    case _ => true
  }

  /** The sign bit flipped is 2^63 added to what the low 64 bits stand for, and so keeps the order of the numbers. */
  lemma FlipOrders(n: int, m: int)
    requires -HALF_64 <= n < HALF_64 && -HALF_64 <= m < HALF_64
    ensures FlipSign(n) % LIMIT_64 == n + HALF_64
    ensures FlipSign(n) % LIMIT_64 < FlipSign(m) % LIMIT_64 <==> n < m
  {
    LowBits(n);
    LowBits(m);
  }

  lemma LowBits(n: int)
    requires -HALF_64 <= n < HALF_64
    ensures FlipSign(n) % LIMIT_64 == n + HALF_64
  {
    if n < 0 {
      assert FlipSign(n) == -1 - (-1 - n + HALF_64) == n + HALF_64 - LIMIT_64;
    } else {
      assert FlipSign(n) == n + HALF_64;
    }
  }

  lemma FlipBitTwice(n: nat)
    ensures FlipBit63(FlipBit63(n)) == n
  {
    assert FlipBit63(n) / LIMIT_64 == n / LIMIT_64;
  }

  lemma FlipTwice(n: int)
    ensures FlipSign(FlipSign(n)) == n && (0 <= FlipSign(n) < LIMIT_64 <==> 0 <= n < LIMIT_64)
  {
    FlipBitTwice(if n < 0 then -1 - n else n);
  }

  lemma UnbigFront(n: nat, k: nat, rest: seq<Byte>)
    requires n < Power256(k)
    ensures Unbig((Big(n, k) + rest)[..k]) == n
  {
    assert (Big(n, k) + rest)[..k] == Big(n, k);
    BigRoundTrip(n, k);
  }

  lemma PrefixedRoundTrip(k: nat, bytes: seq<Byte>, rest: seq<Byte>)
    requires |bytes| < Power256(k)
    ensures Unprefixed(k, Prefixed(k, bytes).value + rest) == Some(bytes)
  {
    var data := Big(|bytes|, k) + bytes + rest;
    assert data == Big(|bytes|, k) + (bytes + rest);
    UnbigFront(|bytes|, k, bytes + rest);
    assert data[k..] == bytes + rest;
    assert Cut(bytes + rest, |bytes|) == bytes;
  }

  lemma {:induction false} StripSpaces(s: seq<Byte>, n: nat)
    ensures Strip(s + Spaces(n)) == Strip(s)
  {
    if n == 0 {
      assert s + Spaces(0) == s;
    } else {
      assert (s + Spaces(n))[..|s| + n - 1] == s + Spaces(n - 1);
      StripSpaces(s, n - 1);
    }
  }

  lemma {:induction false} StripShorter(s: seq<Byte>)
    ensures |Strip(s)| <= |s|
    ensures Strip(s) == s <==> SpaceSize(s) == 0
    decreases |s|
  {
    if SpaceSize(s) > 0 { StripShorter(s[..|s| - SpaceSize(s)]); }
  }

  /** A column's value comes back exactly when it survives; the reader then moves on by as much as was written. */
  lemma ColumnRoundTrip(t: ColumnType, v: Value, rest: seq<Byte>)
    requires Encode(t, v).Some?
    ensures Decode(t, Encode(t, v).value + rest) == Some(v) <==> Survives(t, v)
    ensures StorageSize(t, v) == |Encode(t, v).value|
  {
    Powers();
    match (t, v)
    case (Boolean, Bool(_)) =>
    case (Integer, Int(n)) => Int64RoundTrip(n, rest);
    case (Timestamp, Int(n)) => Int64RoundTrip(n, rest);
    case (Float, Bits(bits)) => UnbigFront(FlipFloat(bits), 8, rest);
    case (Text, Str(s)) => PrefixedRoundTrip(4, s, rest);
    case (VarChar(max), Str(s)) => PrefixedRoundTrip(2, Cut(s, max), rest);
    case (Char(n), Str(s)) => CharRoundTrip(n, s, rest);
    case (Blob, Bytes(b)) => PrefixedRoundTrip(4, b, rest);
  }

  lemma Int64RoundTrip(n: int, rest: seq<Byte>)
    requires Pack64(FlipSign(n)).Some?
    ensures 0 <= n < LIMIT_64
    ensures var data := Pack64(FlipSign(n)).value + rest;
      |data| >= 8 && FlipSign(Unbig(data[..8])) == n
  {
    Powers();
    FlipTwice(n);
    UnbigFront(FlipSign(n), 8, rest);
  }

  lemma CharRoundTrip(n: nat, s: seq<Byte>, rest: seq<Byte>)
    requires IsText(s)
    ensures Decode(Char(n), Encode(Char(n), Str(s)).value + rest) == Some(Str(s)) <==> Survives(Char(n), Str(s))
    ensures |Encode(Char(n), Str(s)).value| == n
  {
    hide CharSize, SpaceSize, IsText, Strip;
    var c := Cut(s, n);
    var padded := c + Spaces(n - |c|);
    assert Cut(padded + rest, n) == padded;
    if |s| <= n {
      SpacesAreText(n - |s|);
      TextJoins(s, Spaces(n - |s|));
    }
    StripSpaces(c, n - |c|);
    StripShorter(c);
  }

  /** How each value is laid out: what stands at which byte. */
  lemma ColumnLayout(t: ColumnType, v: Value)
    requires Encode(t, v).Some?
    ensures var b := Encode(t, v).value;
      match (t, v)
      case (Boolean, Bool(yes)) => b == [if yes then 1 else 0]
      case (Integer, Int(n)) => |b| == 8 && (n < HALF_64 ==> Unbig(b) == n + HALF_64)
      case (Timestamp, Int(n)) => |b| == 8 && (n < HALF_64 ==> Unbig(b) == n + HALF_64)
      case (Float, Bits(bits)) => |b| == 8 && Unbig(b) == FloatRank(bits) + HALF_64
      case (Text, Str(s)) => |b| == 4 + |s| && Unbig(b[..4]) == |s| && b[4..] == s
      case (VarChar(max), Str(s)) =>
        var n := if |s| <= max then |s| else max;
        |b| == 2 + n && Unbig(b[..2]) == n && b[2..] == s[..n]
      case (Char(length), Str(s)) =>
        var n := if |s| <= length then |s| else length;
        |b| == length && b[..n] == s[..n] && forall i :: n <= i < length ==> b[i] == 32
      case (Blob, Bytes(s)) => |b| == 4 + |s| && Unbig(b[..4]) == |s| && b[4..] == s
      case _ => true
  {
    Powers();
    var b := Encode(t, v).value;
    assert b + [] == b;
    match (t, v)
    case (Integer, Int(n)) =>
      FlipTwice(n);
      BigRoundTrip(FlipSign(n), 8);
      if n < HALF_64 { LowBits(n); }
    case (Timestamp, Int(n)) =>
      FlipTwice(n);
      BigRoundTrip(FlipSign(n), 8);
      if n < HALF_64 { LowBits(n); }
    case (Float, Bits(bits)) => BigRoundTrip(FlipFloat(bits), 8);
    case (Text, Str(s)) => UnbigFront(|s|, 4, s);
    case (VarChar(max), Str(s)) =>
      var c := Cut(s, max);
      UnbigFront(|c|, 2, c);
      assert c == s[..|c|];
    case (Char(length), Str(s)) =>
    case (Blob, Bytes(s)) => UnbigFront(|s|, 4, s);
    case _ =>
  }

  /** Exactly the values that can be written, by type; the rest raise an error. */
  lemma Encodes(t: ColumnType, v: Value)
    ensures Encode(t, v).Some? <==>
      match (t, v)
      case (Boolean, Bool(_)) => true
      case (Integer, Int(n)) => 0 <= n < 0x1_0000_0000_0000_0000
      case (Timestamp, Int(n)) => 0 <= n < 0x1_0000_0000_0000_0000
      case (Float, Bits(bits)) => bits < 0x1_0000_0000_0000_0000
      case (Text, Str(s)) => IsText(s) && |s| < 0x1_0000_0000
      case (VarChar(max), Str(s)) => IsText(s) && (|s| < 0x1_0000 || max < 0x1_0000)
      case (Char(_), Str(s)) => IsText(s)
      case (Blob, Bytes(s)) => |s| < 0x1_0000_0000
      case _ => false
  {
    Powers();
    if v.Int? { FlipTwice(v.n); }
  }

  /** Whatever eight bytes are read as a number or a float are the bytes it is written with. */
  lemma ReadAsWritten(t: ColumnType, data: seq<Byte>)
    requires t.Integer? || t.Timestamp? || t.Float?
    ensures Decode(t, data).Some? <==> |data| >= 8
    ensures |data| >= 8 ==> Encode(t, Decode(t, data).value) == Some(data[..8])
  {
    Powers();
    if |data| >= 8 {
      UnbigBack(data[..8]);
      FlipTwice(Unbig(data[..8]));
    }
  }

  /** The bytes after a length: as many as it says, or as there are. */
  function Payload(data: seq<Byte>, k: nat): seq<Byte>
    requires k <= |data|
  {
    var n, rest := Unbig(data[..k]), data[k..];
    if n < |rest| then rest[..n] else rest
  }

  /** What any stored bytes are read as, whether a writer put them there or not. */
  lemma DecodesAnything(t: ColumnType, data: seq<Byte>)
    ensures Decode(t, data) ==
      match t
      case Boolean => if data == [] then None else Some(Bool(data[0] != 0))
      case Char(n) =>
        var s := if |data| <= n then data else data[..n];
        if IsText(s) then Some(Str(Strip(s))) else None
      case Blob => if |data| < 4 then None else Some(Bytes(Payload(data, 4)))
      case Text => if |data| >= 4 && IsText(Payload(data, 4)) then Some(Str(Payload(data, 4))) else None
      case VarChar(_) => if |data| >= 2 && IsText(Payload(data, 2)) then Some(Str(Payload(data, 2))) else None
      case _ => Decode(t, data)
  {
  }

  // ----- Byte order -----

  /** The order in which byte strings of one length are compared. */
  ghost predicate BytesLess(a: seq<Byte>, b: seq<Byte>) {
    exists i :: 0 <= i < |a| && i < |b| && a[..i] == b[..i] && a[i] < b[i]
  }

  /** The byte order, by all bytes but the last and then by the last. */
  lemma LastByte(a: seq<Byte>, x: Byte, b: seq<Byte>, y: Byte)
    requires |a| == |b|
    ensures BytesLess(a + [x], b + [y]) <==> BytesLess(a, b) || (a == b && x < y)
  {
    var p, q, k := a + [x], b + [y], |a|;
    if i :| 0 <= i < k && a[..i] == b[..i] && a[i] < b[i] {
      assert p[..i] == a[..i] && q[..i] == b[..i] && p[i] < q[i];
    }
    if a == b && x < y {
      assert p[..k] == a && q[..k] == b && p[k] < q[k];
    }
    if i :| 0 <= i <= k && p[..i] == q[..i] && p[i] < q[i] {
      if i < k {
        assert a[..i] == p[..i] && b[..i] == q[..i] && a[i] < b[i];
      } else {
        assert a == p[..k] && b == q[..k];
      }
    }
  }

  lemma {:induction false} BigOrder(n: nat, m: nat, k: nat)
    requires n < Power256(k) && m < Power256(k)
    ensures BytesLess(Big(n, k), Big(m, k)) <==> n < m
  {
    if k > 0 {
      BigOrder(n / 256, m / 256, k - 1);
      LastByte(Big(n / 256, k - 1), (n % 256) as Byte, Big(m / 256, k - 1), (m % 256) as Byte);
      BigRoundTrip(n / 256, k - 1);
      BigRoundTrip(m / 256, k - 1);
    }
  }

  /** Integers that can be stored sort by their bytes as by their values. */
  lemma IntegersSort(n: int, m: int)
    requires 0 <= n < HALF_64 && 0 <= m < HALF_64
    ensures Encode(Integer, Int(n)).Some? && Encode(Integer, Int(m)).Some?
    ensures BytesLess(Encode(Integer, Int(n)).value, Encode(Integer, Int(m)).value) <==> n < m
  {
    Powers();
    BigOrder(FlipSign(n), FlipSign(m), 8);
  }

  /** Where a float's bit pattern stands among all of them: by value, and -0 just below +0. */
  function FloatRank(bits: nat): int {
    if bits < HALF_64 then bits else HALF_64 - 1 - bits
  }

  /** Floats sort by their bytes as by their values. */
  lemma FloatsSort(x: nat, y: nat)
    requires x < LIMIT_64 && y < LIMIT_64
    ensures BytesLess(Encode(Float, Bits(x)).value, Encode(Float, Bits(y)).value) <==> FloatRank(x) < FloatRank(y)
  {
    Powers();
    BigOrder(FlipFloat(x), FlipFloat(y), 8);
  }

  /** No negative integer can be packed, though the type's own check lets it pass. */
  lemma IntegerPacks(n: int)
    requires -HALF_64 <= n < HALF_64
    ensures Encode(Integer, Int(n)).Some? <==> n >= 0
  {
    FlipTwice(n);
  }
}
