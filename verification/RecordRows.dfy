/** Whole rows (pysql/storage/heap.py): the NULL bitmap, the packed columns, and the serializer that reads them back. */
module RecordRows {
  import opened Common
  import opened PageBytes
  import opened RecordCodec

  // ----- Bits -----

  predicate HasBit(n: nat, i: nat) {
    if i == 0 then n % 2 == 1 else HasBit(n / 2, i - 1)
  }

  function SetBit(n: nat, i: nat): nat {
    if i == 0 then n - n % 2 + 1 else 2 * SetBit(n / 2, i - 1) + n % 2
  }

  lemma {:induction false} SetBitSets(n: nat, i: nat, j: nat)
    ensures HasBit(SetBit(n, i), j) <==> i == j || HasBit(n, j)
  {
    if i > 0 && j > 0 { SetBitSets(n / 2, i - 1, j - 1); }
  }

  function Power2(k: nat): nat {
    if k == 0 then 1 else 2 * Power2(k - 1)
  }

  lemma HalfBelow(n: nat, p: nat)
    requires n < 2 * p
    ensures n / 2 < p && n - n % 2 + 1 < 2 * p
  {
    var q, b := n / 2, n % 2;
    assert n == 2 * q + b && 0 <= b <= 1;
  }

  lemma DoubleBelow(q: nat, b: nat, p: nat)
    requires q < p && b <= 1
    ensures 2 * q + b < 2 * p
  {
  }

  lemma {:induction false} SetBitFits(n: nat, i: nat, k: nat)
    requires i < k && n < Power2(k)
    ensures SetBit(n, i) < Power2(k)
  {
    HalfBelow(n, Power2(k - 1));
    if i > 0 {
      SetBitFits(n / 2, i - 1, k - 1);
      DoubleBelow(SetBit(n / 2, i - 1), n % 2, Power2(k - 1));
    }
  }

  predicate ByteHasBit(b: Byte, i: nat) {
    HasBit(b as nat, i)
  }

  /** Byte b with bit i set. */
  function WithBit(b: Byte, i: nat): Byte
    requires i < 8
  {
    ByteFits(b, i);
    SetBit(b as nat, i) as Byte
  }

  lemma ByteFits(b: Byte, i: nat)
    requires i < 8
    ensures SetBit(b as nat, i) < 256
  {
    assert Power2(8) == 2 * (2 * (2 * (2 * Power2(4))));
    SetBitFits(b as nat, i, 8);
  }

  lemma WithBitSets(b: Byte, i: nat, j: nat)
    requires i < 8
    ensures ByteHasBit(WithBit(b, i), j) <==> i == j || ByteHasBit(b, j)
  {
    SetBitSets(b as nat, i, j);
  }

  lemma {:induction false} ZeroHasNoBits(i: nat)
    ensures !HasBit(0, i)
  {
    if i > 0 { ZeroHasNoBits(i - 1); }
  }

  // ----- The bitmap -----

  function BitmapSize(columns: nat): nat {
    (columns + 7) / 8
  }

  function Zeros(n: nat): (r: seq<Byte>)
    ensures |r| == n && forall i :: 0 <= i < n ==> r[i] == 0
  {
    if n == 0 then [] else Zeros(n - 1) + [0 as Byte]
  }

  /** The bitmap once the first i columns have been looked at. */
  function Bitmap(vs: seq<Value>, i: nat): (r: seq<Byte>)
    requires i <= |vs|
    ensures |r| == BitmapSize(|vs|)
  {
    if i == 0 then Zeros(BitmapSize(|vs|))
    else
      var m := Bitmap(vs, i - 1);
      if vs[i - 1].Null? then m[(i - 1) / 8 := WithBit(m[(i - 1) / 8], (i - 1) % 8)] else m
  }

  predicate IsMarked(bitmap: seq<Byte>, i: nat)
    requires i / 8 < |bitmap|
  {
    ByteHasBit(bitmap[i / 8], i % 8)
  }

  lemma InBitmap(i: nat, columns: nat)
    requires i < columns
    ensures i / 8 < BitmapSize(columns)
  {
  }

  lemma {:induction false} BitmapMarks(vs: seq<Value>, n: nat, i: nat)
    requires i < |vs| && n <= |vs|
    ensures IsMarked(Bitmap(vs, n), i) <==> i < n && vs[i].Null?
  {
    if n == 0 {
      ZeroHasNoBits(i % 8);
    } else {
      BitmapMarks(vs, n - 1, i);
      WithBitSets(Bitmap(vs, n - 1)[(n - 1) / 8], (n - 1) % 8, i % 8);
    }
  }

  const WEIGHTS := [1, 2, 4, 8, 16, 32, 64, 128]

  /** Bit k of a byte has the weight 2^k. */
  lemma BitWeight(n: nat, k: nat)
    requires k < 8
    ensures HasBit(n, k) <==> (n / WEIGHTS[k]) % 2 == 1
  {
    hide HasBit;
    FourBits(n, k);
    if k >= 4 {
      FourBits(n / 16, k - 4);
      assert n / 16 / 2 == n / 32 && n / 16 / 4 == n / 64 && n / 16 / 8 == n / 128;
    }
  }

  lemma FourBits(n: nat, k: nat)
    requires k < 8
    ensures k == 0 ==> (HasBit(n, k) <==> n % 2 == 1)
    ensures k == 1 ==> (HasBit(n, k) <==> (n / 2) % 2 == 1)
    ensures k == 2 ==> (HasBit(n, k) <==> (n / 4) % 2 == 1)
    ensures k == 3 ==> (HasBit(n, k) <==> (n / 8) % 2 == 1)
    ensures k >= 4 ==> (HasBit(n, k) <==> HasBit(n / 16, k - 4))
  {
    if k >= 1 { assert HasBit(n, k) == HasBit(n / 2, k - 1); }
    if k >= 2 { assert HasBit(n / 2, k - 1) == HasBit(n / 2 / 2, k - 2) && n / 2 / 2 == n / 4; }
    if k >= 3 { assert HasBit(n / 4, k - 2) == HasBit(n / 4 / 2, k - 3) && n / 4 / 2 == n / 8; }
    if k >= 4 { assert HasBit(n / 8, k - 3) == HasBit(n / 8 / 2, k - 4) && n / 8 / 2 == n / 16; }
  }

  /** Byte j of the bitmap holds the columns 8 j to 8 j + 7, the first of them in its lowest bit. */
  lemma BitmapLayout(vs: seq<Value>, j: nat, k: nat)
    requires j < BitmapSize(|vs|) && k < 8 && 8 * j + k < |vs|
    ensures (Bitmap(vs, |vs|)[j] as nat / WEIGHTS[k]) % 2 == 1 <==> vs[8 * j + k].Null?
  {
    BitmapMarks(vs, |vs|, 8 * j + k);
    assert (8 * j + k) / 8 == j && (8 * j + k) % 8 == k;
    BitWeight(Bitmap(vs, |vs|)[j] as nat, k);
  }

  // ----- Rows -----

  /** The bytes of columns i onward. */
  function Columns(ts: seq<ColumnType>, vs: seq<Value>, i: nat): Option<seq<Byte>>
    requires |ts| == |vs| && i <= |ts|
    decreases |ts| - i
  {
    if i == |ts| then Some([])
    else
      var rest := Columns(ts, vs, i + 1);
      if vs[i].Null? then rest
      else
        var b := Encode(ts[i], vs[i]);
        if b.None? || rest.None? then None else Some(b.value + rest.value)
  }

  /** The bytes of a row; nothing where the number of values is wrong or one of them cannot be packed. */
  function Serialized(ts: seq<ColumnType>, vs: seq<Value>): Option<seq<Byte>> {
    if |ts| != |vs| then None
    else match Columns(ts, vs, 0) case None => None case Some(b) => Some(Bitmap(vs, |vs|) + b)
  }

  function Rest(data: seq<Byte>, offset: nat): seq<Byte> {
    if offset <= |data| then data[offset..] else []
  }

  /** Column i, read from the given offset, and the offset of the next one. */
  function ReadColumn(ts: seq<ColumnType>, data: seq<Byte>, i: nat, offset: nat): Option<(Value, nat)>
    requires i < |ts|
  {
    if |data| < BitmapSize(|ts|) then None
    else if IsMarked(data[..BitmapSize(|ts|)], i) then Some((Null, offset))
    else
      match Decode(ts[i], Rest(data, offset))
      case None => None
      case Some(v) => Some((v, offset + StorageSize(ts[i], v)))
  }

  /** Columns i onward. */
  function ReadColumns(ts: seq<ColumnType>, data: seq<Byte>, i: nat, offset: nat): Option<seq<Value>>
    requires i <= |ts|
    decreases |ts| - i
  {
    if i == |ts| then Some([])
    else
      match ReadColumn(ts, data, i, offset)
      case None => None
      case Some((v, next)) => match ReadColumns(ts, data, i + 1, next) case None => None case Some(vs) => Some([v] + vs)
  }

  function Deserialized(ts: seq<ColumnType>, data: seq<Byte>): Option<seq<Value>> {
    ReadColumns(ts, data, 0, BitmapSize(|ts|))
  }

  predicate AllSurvive(ts: seq<ColumnType>, vs: seq<Value>, i: nat)
    requires |ts| == |vs|
  {
    forall j :: i <= j < |vs| ==> vs[j].Null? || Survives(ts[j], vs[j])
  }

  /** What stands in the data from column i on. */
  predicate Stands(ts: seq<ColumnType>, vs: seq<Value>, data: seq<Byte>, i: nat, offset: nat)
    requires |ts| == |vs| && i <= |ts|
  {
    && BitmapSize(|ts|) <= offset <= |data| && data[..BitmapSize(|ts|)] == Bitmap(vs, |vs|)
    && Columns(ts, vs, i) == Some(data[offset..])
  }

  lemma {:induction false} ColumnsReadBack(ts: seq<ColumnType>, vs: seq<Value>, data: seq<Byte>, i: nat, offset: nat)
    requires |ts| == |vs| && i <= |ts| && Stands(ts, vs, data, i, offset)
    ensures ReadColumns(ts, data, i, offset) == Some(vs[i..]) <==> AllSurvive(ts, vs, i)
    decreases |ts| - i
  {
    hide Columns, Decode, Encode, Survives, Bitmap, IsMarked, ReadColumns;
    if i == |ts| {
      NothingLeft(ts, data, offset);
    } else {
      BitmapMarks(vs, |vs|, i);
      assert vs[i..] == [vs[i]] + vs[i + 1..];
      Cancel(vs[i], vs[i + 1..]);
      assert AllSurvive(ts, vs, i) <==> (vs[i].Null? || Survives(ts[i], vs[i])) && AllSurvive(ts, vs, i + 1);
      OneColumn(ts, vs, data, i, offset);
      if vs[i].Null? {
        ColumnsReadBack(ts, vs, data, i + 1, offset);
      } else if Survives(ts[i], vs[i]) {
        ColumnsReadBack(ts, vs, data, i + 1, offset + StorageSize(ts[i], vs[i]));
      }
    }
  }

  lemma NothingLeft(ts: seq<ColumnType>, data: seq<Byte>, offset: nat)
    ensures ReadColumns(ts, data, |ts|, offset) == Some([])
  {
  }

  /** Reading one column: it is skipped if NULL; if its value survives, what follows it stands where reading goes on. */
  lemma OneColumn(ts: seq<ColumnType>, vs: seq<Value>, data: seq<Byte>, i: nat, offset: nat)
    requires |ts| == |vs| && i < |ts| && Stands(ts, vs, data, i, offset)
    requires IsMarked(data[..BitmapSize(|ts|)], i) <==> vs[i].Null?
    ensures vs[i].Null? ==>
      && Stands(ts, vs, data, i + 1, offset)
      && ReadColumns(ts, data, i, offset)
         == match ReadColumns(ts, data, i + 1, offset) case None => None case Some(r) => Some([Null] + r)
    ensures !vs[i].Null? && Survives(ts[i], vs[i]) ==>
      var after := offset + StorageSize(ts[i], vs[i]);
      && Stands(ts, vs, data, i + 1, after)
      && ReadColumns(ts, data, i, offset)
         == match ReadColumns(ts, data, i + 1, after) case None => None case Some(r) => Some([vs[i]] + r)
    ensures !vs[i].Null? && !Survives(ts[i], vs[i]) ==> ReadColumns(ts, data, i, offset) != Some(vs[i..])
  {
    hide Decode, Encode, Survives, StorageSize, IsMarked, Bitmap, BitmapSize;
    if !vs[i].Null? {
      var b, rest := Encode(ts[i], vs[i]).value, Columns(ts, vs, i + 1).value;
      ColumnRoundTrip(ts[i], vs[i], rest);
      assert Rest(data, offset) == data[offset..] == b + rest;
      assert data[offset + |b|..] == data[offset..][|b|..] == rest;
      if !Survives(ts[i], vs[i]) { NotFirst(ts, vs, data, i, offset); }
    }
  }

  lemma Cancel(v: Value, rest: seq<Value>)
    ensures forall other: seq<Value> :: [v] + other == [v] + rest <==> other == rest
  {
    forall other: seq<Value> | [v] + other == [v] + rest
      ensures other == rest
    {
      assert other == ([v] + other)[1..] == ([v] + rest)[1..] == rest;
    }
  }

  lemma NotFirst(ts: seq<ColumnType>, vs: seq<Value>, data: seq<Byte>, i: nat, offset: nat)
    requires |ts| == |vs| && i < |ts| && |data| >= BitmapSize(|ts|) && !vs[i].Null?
    requires !IsMarked(data[..BitmapSize(|ts|)], i) && Decode(ts[i], Rest(data, offset)) != Some(vs[i])
    ensures ReadColumns(ts, data, i, offset) != Some(vs[i..])
  {
    var r := ReadColumns(ts, data, i, offset);
    if r.Some? {
      var v := Decode(ts[i], Rest(data, offset)).value;
      assert r.value[0] == v && vs[i..][0] == vs[i];
    }
  }

  /** A column more at the end adds its bytes at the end: columns stand in the order of the schema. */
  lemma {:induction false} ColumnsAppend(ts: seq<ColumnType>, vs: seq<Value>, t: ColumnType, v: Value, i: nat)
    requires |ts| == |vs| && i <= |ts|
    ensures var before, after := Columns(ts, vs, i), Columns(ts + [t], vs + [v], i);
      if v.Null? then after == before
      else if before.None? || Encode(t, v).None? then after == None
      else after == Some(before.value + Encode(t, v).value)
    decreases |ts| - i
  {
    if i < |ts| {
      ColumnsAppend(ts, vs, t, v, i + 1);
      if Encode(ts[i], vs[i]).Some? && Columns(ts, vs, i + 1).Some? && Encode(t, v).Some? {
        assert Encode(ts[i], vs[i]).value + (Columns(ts, vs, i + 1).value + Encode(t, v).value)
          == Encode(ts[i], vs[i]).value + Columns(ts, vs, i + 1).value + Encode(t, v).value;
      }
    } else if Encode(t, v).Some? {
      assert Encode(t, v).value + [] == [] + Encode(t, v).value;
      assert Columns(ts + [t], vs + [v], i + 1) == Some([]);
    }
  }

  /** A row is its bitmap and then the bytes of its columns that are not NULL. */
  lemma RowLayout(ts: seq<ColumnType>, vs: seq<Value>)
    requires |ts| == |vs|
    ensures Serialized(ts, vs).Some? <==> forall i :: 0 <= i < |ts| ==> vs[i].Null? || Encode(ts[i], vs[i]).Some?
    ensures Serialized(ts, vs).Some? ==>
      Serialized(ts, vs).value == Bitmap(vs, |vs|) + Columns(ts, vs, 0).value
  {
    ColumnsFail(ts, vs, 0);
  }

  lemma {:induction false} ColumnsFail(ts: seq<ColumnType>, vs: seq<Value>, i: nat)
    requires |ts| == |vs| && i <= |ts|
    ensures Columns(ts, vs, i).Some? <==> forall k :: i <= k < |ts| ==> vs[k].Null? || Encode(ts[k], vs[k]).Some?
    decreases |ts| - i
  {
    if i < |ts| { ColumnsFail(ts, vs, i + 1); }
  }

  /** A row that can be written comes back exactly when each of its values other than NULL survives. */
  lemma RowRoundTrip(ts: seq<ColumnType>, vs: seq<Value>)
    requires Serialized(ts, vs).Some?
    ensures Deserialized(ts, Serialized(ts, vs).value) == Some(vs) <==> AllSurvive(ts, vs, 0)
  {
    var data, n := Serialized(ts, vs).value, BitmapSize(|ts|);
    assert data[..n] == Bitmap(vs, |vs|);
    assert data[n..] == Columns(ts, vs, 0).value;
    ColumnsReadBack(ts, vs, data, 0, n);
    assert vs[0..] == vs;
  }

  // ----- Reading any bytes -----

  /** Column i, read from offset `from` on, has value v, and the next one is read from `to` on. */
  predicate ReadAt(ts: seq<ColumnType>, data: seq<Byte>, i: nat, v: Value, from: nat, to: nat)
    requires i < |ts|
  {
    && BitmapSize(|ts|) <= |data|
    && if ByteHasBit(data[i / 8], i % 8) then v == Null && to == from
       else Decode(ts[i], if from <= |data| then data[from..] else []) == Some(v) && to == from + StorageSize(ts[i], v)
  }

  /** The values of the columns from i on, and where each of them and the end lie. */
  predicate ReadAll(ts: seq<ColumnType>, data: seq<Byte>, i: nat, vs: seq<Value>, at: seq<nat>)
    requires i <= |ts|
  {
    && |vs| == |ts| - i && |at| == |vs| + 1
    && forall j :: 0 <= j < |vs| ==> ReadAt(ts, data, i + j, vs[j], at[j], at[j + 1])
  }

  lemma ReadsOne(ts: seq<ColumnType>, data: seq<Byte>, i: nat, from: nat)
    requires i < |ts|
    ensures forall v: Value, to: nat :: ReadColumn(ts, data, i, from) == Some((v, to)) <==>
      ReadAt(ts, data, i, v, from, to)
  {
    InBitmap(i, |ts|);
  }

  lemma {:induction false} ReadsAll(ts: seq<ColumnType>, data: seq<Byte>, i: nat, vs: seq<Value>, at: seq<nat>)
    requires i <= |ts| && ReadAll(ts, data, i, vs, at)
    ensures ReadColumns(ts, data, i, at[0]) == Some(vs)
    decreases |ts| - i
  {
    hide ReadColumn, ReadAt;
    if i < |ts| {
      assert ReadAt(ts, data, i + 0, vs[0], at[0], at[1]);
      ReadsOne(ts, data, i, at[0]);
      forall j | 0 <= j < |vs[1..]|
        ensures ReadAt(ts, data, i + 1 + j, vs[1..][j], at[1..][j], at[1..][j + 1])
      {
        assert ReadAt(ts, data, i + (j + 1), vs[j + 1], at[j + 1], at[j + 2]);
      }
      ReadsAll(ts, data, i + 1, vs[1..], at[1..]);
      assert vs == [vs[0]] + vs[1..];
    }
  }

  lemma {:induction false} AllReadAt(ts: seq<ColumnType>, data: seq<Byte>, i: nat, from: nat) returns (at: seq<nat>)
    requires i <= |ts| && ReadColumns(ts, data, i, from).Some?
    ensures ReadAll(ts, data, i, ReadColumns(ts, data, i, from).value, at) && at[0] == from
    decreases |ts| - i
  {
    hide ReadColumn, ReadAt;
    if i == |ts| {
      at := [from];
    } else {
      var (v, to) := ReadColumn(ts, data, i, from).value;
      ReadsOne(ts, data, i, from);
      var rest := AllReadAt(ts, data, i + 1, to);
      at := [from] + rest;
      var vs := ReadColumns(ts, data, i, from).value;
      forall j | 0 <= j < |vs|
        ensures ReadAt(ts, data, i + j, vs[j], at[j], at[j + 1])
      {
        if j > 0 { assert ReadAt(ts, data, i + 1 + (j - 1), vs[1..][j - 1], rest[j - 1], rest[j]); }
      }
    }
  }

  /**
    Bytes, whoever wrote them, are read as these values exactly when each column that is not marked NULL is decoded
    from where the one before it ends.
  */
  lemma RowReads(ts: seq<ColumnType>, data: seq<Byte>, vs: seq<Value>)
    ensures Deserialized(ts, data) == Some(vs) <==>
      exists at :: ReadAll(ts, data, 0, vs, at) && at[0] == BitmapSize(|ts|)
  {
    if Deserialized(ts, data) == Some(vs) { var at := AllReadAt(ts, data, 0, BitmapSize(|ts|)); }
    if at :| ReadAll(ts, data, 0, vs, at) && at[0] == BitmapSize(|ts|) { ReadsAll(ts, data, 0, vs, at); }
  }

  // ----- The serializer -----

  class RecordSerializer {
    const types: seq<ColumnType>
    const nullBitmapSize: nat

    constructor (types: seq<ColumnType>)
      ensures this.types == types && nullBitmapSize == BitmapSize(|types|)
    {
      this.types := types;
      nullBitmapSize := (|types| + 7) / 8;
    }

    method Serialize(values: seq<Value>) returns (r: Option<seq<Byte>>)
      requires nullBitmapSize == BitmapSize(|types|)
      ensures r == Serialized(types, values)
    {
      if |values| != |types| { return None; }
      var nullBitmap := Zeros(nullBitmapSize);
      for i := 0 to |values|
        invariant nullBitmap == Bitmap(values, i)
      {
        if values[i].Null? {
          nullBitmap := nullBitmap[i / 8 := WithBit(nullBitmap[i / 8], i % 8)];
        }
      }
      var parts := nullBitmap;
      assert parts[nullBitmapSize..] == [];
      Front(Columns(types, values, 0));
      for i := 0 to |values|
        invariant nullBitmapSize <= |parts| && parts[..nullBitmapSize] == nullBitmap
        invariant Columns(types, values, 0)
               == match Columns(types, values, i) case None => None case Some(b) => Some(parts[nullBitmapSize..] + b)
      {
        if !values[i].Null? {
          var b := Encode(types[i], values[i]);
          if b.None? { return None; }
          ghost var before := parts;
          parts := parts + b.value;
          assert parts[nullBitmapSize..] == before[nullBitmapSize..] + b.value;
          Joined(before[nullBitmapSize..], b.value, Columns(types, values, i + 1));
        }
      }
      assert parts == nullBitmap + parts[nullBitmapSize..];
      assert parts[nullBitmapSize..] + [] == parts[nullBitmapSize..];
      return Some(parts);
    }

    method Deserialize(data: seq<Byte>) returns (r: Option<seq<Value>>)
      requires nullBitmapSize == BitmapSize(|types|)
      ensures r == Deserialized(types, data)
    {
      var nullBitmap := if |data| < nullBitmapSize then data else data[..nullBitmapSize];
      var offset: nat, values := nullBitmapSize, [];
      hide ReadColumns, ReadColumn, Then;
      ThenNothing(ReadColumns(types, data, 0, offset));
      for i := 0 to |types|
        invariant Deserialized(types, data) == Then(values, ReadColumns(types, data, i, offset))
      {
        ReadStep(types, data, i, offset, values);
        var column := DeserializeColumn(data, nullBitmap, i, offset);
        if column.None? { return None; }
        values := values + [column.value.0];
        offset := column.value.1;
      }
      AllRead(types, data, offset, values);
      return Some(values);
    }

    method DeserializeColumn(data: seq<Byte>, nullBitmap: seq<Byte>, i: nat, offset: nat)
      returns (r: Option<(Value, nat)>)
      requires nullBitmapSize == BitmapSize(|types|) && i < |types|
      requires nullBitmap == if |data| < nullBitmapSize then data else data[..nullBitmapSize]
      ensures r == ReadColumn(types, data, i, offset)
    {
      if |nullBitmap| < nullBitmapSize { return None; }
      InBitmap(i, |types|);
      if IsMarked(nullBitmap, i) { return Some((Null, offset)); }
      var v := Decode(types[i], Rest(data, offset));
      if v.None? { return None; }
      return Some((v.value, offset + StorageSize(types[i], v.value)));
    }
  }

  // ----- One step of reading -----

  function Then(values: seq<Value>, rest: Option<seq<Value>>): Option<seq<Value>> {
    match rest case None => None case Some(vs) => Some(values + vs)
  }

  lemma ThenNothing(rest: Option<seq<Value>>)
    ensures Then([], rest) == rest
  {
    if rest.Some? { assert [] + rest.value == rest.value; }
  }

  lemma ReadStep(ts: seq<ColumnType>, data: seq<Byte>, i: nat, offset: nat, values: seq<Value>)
    requires i < |ts|
    ensures Then(values, ReadColumns(ts, data, i, offset))
         == match ReadColumn(ts, data, i, offset)
            case None => None
            case Some((v, next)) => Then(values + [v], ReadColumns(ts, data, i + 1, next))
  {
    match ReadColumn(ts, data, i, offset)
    case None =>
    case Some((v, next)) => Prepended(values, v, ReadColumns(ts, data, i + 1, next));
  }

  lemma AllRead(ts: seq<ColumnType>, data: seq<Byte>, offset: nat, values: seq<Value>)
    ensures Then(values, ReadColumns(ts, data, |ts|, offset)) == Some(values)
  {
    assert values + [] == values;
  }

  lemma Front(rest: Option<seq<Byte>>)
    ensures rest.Some? ==> [] + rest.value == rest.value
  {
  }

  lemma Joined(a: seq<Byte>, b: seq<Byte>, rest: Option<seq<Byte>>)
    ensures rest.Some? ==> a + (b + rest.value) == (a + b) + rest.value
  {
  }

  lemma Prepended(values: seq<Value>, v: Value, rest: Option<seq<Value>>)
    ensures rest.Some? ==> values + ([v] + rest.value) == (values + [v]) + rest.value
  {
  }
}
