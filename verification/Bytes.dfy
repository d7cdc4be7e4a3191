/** Little-endian words and the typed fields a control-trace record is made of. */
module Bytes {
  import opened Options
  import opened Frames

  type Byte = b: nat | b < 256

  function Pow256(n: nat): (p: nat)
    ensures p > 0
  {
    if n == 0 then 1 else 256 * Pow256(n - 1)
  }

  /** The n low bytes of v, least significant first. */
  function LE(v: nat, n: nat): (bytes: seq<Byte>)
    ensures |bytes| == n
  {
    if n == 0 then [] else [v % 256] + LE(v / 256, n - 1)
  }

  function FromLE(bytes: seq<Byte>): nat {
    if bytes == [] then 0 else bytes[0] + 256 * FromLE(bytes[1..])
  }

  /** v shifted right by 8i bits. */
  function ShiftBytes(v: nat, i: nat): nat {
    if i == 0 then v else ShiftBytes(v / 256, i - 1)
  }

  lemma {:induction false} LEIndex(v: nat, n: nat, i: nat)
    requires i < n
    ensures LE(v, n)[i] == ShiftBytes(v, i) % 256
  {
    if i > 0 {
      LEIndex(v / 256, n - 1, i - 1);
    }
  }

  lemma {:induction false} FromLEInverse(v: nat, n: nat)
    requires v < Pow256(n)
    ensures FromLE(LE(v, n)) == v
  {
    if n > 0 {
      FromLEInverse(v / 256, n - 1);
      assert LE(v, n)[1..] == LE(v / 256, n - 1);
    }
  }

  lemma {:induction false} FromLEBound(bytes: seq<Byte>)
    ensures FromLE(bytes) < Pow256(|bytes|)
  {
    if bytes != [] {
      FromLEBound(bytes[1..]);
    }
  }

  lemma WordSizes()
    ensures Pow256(4) == WORD32 && Pow256(8) == WORD64
  {
    assert Pow256(2) == 256 * Pow256(1) == 65536;
    assert Pow256(4) == 256 * Pow256(3) == 256 * (256 * Pow256(2));
    assert Pow256(6) == 256 * Pow256(5) == 256 * (256 * Pow256(4));
    assert Pow256(8) == 256 * Pow256(7) == 256 * (256 * Pow256(6));
  }

  // ---------------------------------------------------------------- fields

  /** Doubles travel as their 64-bit patterns. */
  datatype Field =
    | Word(word: U32)
    | Long(long: U64)
    | Doubles(values: seq<U64>)
    | Text(bytes: seq<Byte>)

  /** The struct formats "I", "Q", "nd" and "ns". */
  datatype Format = FWord | FLong | FDoubles(n: nat) | FText(n: nat)

  function FormatOf(f: Field): Format {
    match f
    case Word(_) => FWord
    case Long(_) => FLong
    case Doubles(vs) => FDoubles(|vs|)
    case Text(bs) => FText(|bs|)
  }

  function Size(fmt: Format): nat {
    match fmt
    case FWord => 4
    case FLong => 8
    case FDoubles(n) => 8 * n
    case FText(n) => n
  }

  function LEs(vs: seq<U64>): (bytes: seq<Byte>)
    ensures |bytes| == 8 * |vs|
  {
    if vs == [] then [] else LE(vs[0], 8) + LEs(vs[1..])
  }

  function FromLEs(bytes: seq<Byte>, n: nat): (vs: seq<U64>)
    requires |bytes| == 8 * n
    ensures |vs| == n
  {
    if n == 0 then []
    else
      FromLEBound(bytes[..8]);
      WordSizes();
      [FromLE(bytes[..8])] + FromLEs(bytes[8..], n - 1)
  }

  lemma {:induction false} FromLEsInverse(vs: seq<U64>)
    ensures FromLEs(LEs(vs), |vs|) == vs
  {
    if vs != [] {
      WordSizes();
      FromLEInverse(vs[0], 8);
      FromLEsInverse(vs[1..]);
      assert LEs(vs)[..8] == LE(vs[0], 8);
      assert LEs(vs)[8..] == LEs(vs[1..]);
    }
  }

  lemma {:induction false} LEsAppend(xs: seq<U64>, y: U64)
    ensures LEs(xs + [y]) == LEs(xs) + LE(y, 8)
  {
    hide LE;
    if xs == [] {
      assert LEs([y]) == LE(y, 8) + LEs([]);
    } else {
      LEsAppend(xs[1..], y);
      assert (xs + [y])[0] == xs[0] && (xs + [y])[1..] == xs[1..] + [y];
      assert LEs(xs + [y]) == LE(xs[0], 8) + (LEs(xs[1..]) + LE(y, 8));
    }
  }

  function Encode(f: Field): (bytes: seq<Byte>)
    ensures |bytes| == Size(FormatOf(f))
  {
    match f
    case Word(v) => LE(v, 4)
    case Long(v) => LE(v, 8)
    case Doubles(vs) => LEs(vs)
    case Text(bs) => bs
  }

  function Decode(fmt: Format, bytes: seq<Byte>): (f: Field)
    requires |bytes| == Size(fmt)
    ensures FormatOf(f) == fmt
  {
    FromLEBound(bytes);
    WordSizes();
    match fmt
    case FWord => Word(FromLE(bytes))
    case FLong => Long(FromLE(bytes))
    case FDoubles(n) => Doubles(FromLEs(bytes, n))
    case FText(_) => Text(bytes)
  }

  lemma DecodeInverse(f: Field)
    ensures Decode(FormatOf(f), Encode(f)) == f
  {
    WordSizes();
    match f
    case Word(v) => FromLEInverse(v, 4);
    case Long(v) => FromLEInverse(v, 8);
    case Doubles(vs) => FromLEsInverse(vs);
    case Text(_) =>
  }

  function EncodeAll(fs: seq<Field>): seq<Byte> {
    if fs == [] then [] else Encode(fs[0]) + EncodeAll(fs[1..])
  }

  function FormatsOf(fs: seq<Field>): (fmts: seq<Format>)
    ensures |fmts| == |fs|
    ensures forall k :: 0 <= k < |fs| ==> fmts[k] == FormatOf(fs[k])
  {
    if fs == [] then [] else [FormatOf(fs[0])] + FormatsOf(fs[1..])
  }

  lemma {:induction false} EncodeAllConcat(xs: seq<Field>, ys: seq<Field>)
    ensures EncodeAll(xs + ys) == EncodeAll(xs) + EncodeAll(ys)
  {
    hide Encode;
    if xs == [] {
      assert xs + ys == ys;
      assert EncodeAll(xs) + EncodeAll(ys) == EncodeAll(ys);
    } else {
      var first, rest, last := Encode(xs[0]), EncodeAll(xs[1..]), EncodeAll(ys);
      EncodeAllConcat(xs[1..], ys);
      assert (xs + ys)[1..] == xs[1..] + ys && (xs + ys)[0] == xs[0];
      assert EncodeAll(xs + ys) == first + (rest + last) == (first + rest) + last;
    }
  }

  /** What consecutive struct.unpack_from calls read at an offset, and the offset behind it; None when the data
      is too short for one of them. */
  function ReadAll(fmts: seq<Format>, data: seq<Byte>, offset: nat): (r: Option<(seq<Field>, nat)>)
    ensures r.Some? ==> |r.value.0| == |fmts| && FormatsOf(r.value.0) == fmts
    decreases |fmts|
  {
    if fmts == [] then Some(([], offset))
    else if offset + Size(fmts[0]) > |data| then None
    else
      var end := offset + Size(fmts[0]);
      match ReadAll(fmts[1..], data, end)
      case None => None
      case Some((rest, last)) => Some(([Decode(fmts[0], data[offset..end])] + rest, last))
  }

  lemma SliceOfSlice<T>(s: seq<T>, a: nat, b: nat, c: nat, d: nat)
    requires a <= b <= |s| && c <= d <= b - a
    ensures s[a..b][c..d] == s[a + c..a + d]
  {
    var t, u := s[a..b][c..d], s[a + c..a + d];
    assert |t| == |u|;
    forall k | 0 <= k < |t|
      ensures t[k] == u[k]
    {
      assert t[k] == s[a..b][c + k];
    }
  }

  lemma HeadTail<T>(s: seq<T>)
    requires s != []
    ensures [s[0]] + s[1..] == s
  {
  }

  lemma SliceSplit(data: seq<Byte>, offset: nat, a: seq<Byte>, b: seq<Byte>)
    requires offset + |a| + |b| <= |data| && data[offset..offset + |a| + |b|] == a + b
    ensures data[offset..offset + |a|] == a
    ensures data[offset + |a|..offset + |a| + |b|] == b
  {
    var whole := data[offset..offset + |a| + |b|];
    assert data[offset..offset + |a|] == whole[..|a|];
    assert data[offset + |a|..offset + |a| + |b|] == whole[|a|..];
  }

  /** The bytes are in the data at this offset. */
  predicate Holds(data: seq<Byte>, offset: nat, bytes: seq<Byte>) {
    offset + |bytes| <= |data| && data[offset..offset + |bytes|] == bytes
  }

  lemma HoldsBoth(data: seq<Byte>, offset: nat, a: seq<Byte>, b: seq<Byte>)
    requires Holds(data, offset, a + b)
    ensures Holds(data, offset, a) && Holds(data, offset + |a|, b)
  {
    SliceSplit(data, offset, a, b);
  }

  lemma ReadOneMore(f: Field, fs: seq<Field>, data: seq<Byte>, offset: nat, end: nat)
    requires Holds(data, offset, Encode(f))
    requires ReadAll(FormatsOf(fs), data, offset + |Encode(f)|) == Some((fs, end))
    ensures ReadAll([FormatOf(f)] + FormatsOf(fs), data, offset) == Some(([f] + fs, end))
  {
    hide Encode, Decode, FormatsOf;
    DecodeInverse(f);
    var fmts := [FormatOf(f)] + FormatsOf(fs);
    assert fmts[0] == FormatOf(f) && fmts[1..] == FormatsOf(fs);
  }

  lemma OneFieldFirst(f: Field, fs: seq<Field>)
    ensures FormatsOf([f] + fs) == [FormatOf(f)] + FormatsOf(fs)
    ensures EncodeAll([f] + fs) == Encode(f) + EncodeAll(fs)
  {
    hide FormatOf, Encode;
    assert ([f] + fs)[1..] == fs;
  }

  lemma RestHolds(f: Field, fs: seq<Field>, data: seq<Byte>, offset: nat)
    requires Holds(data, offset, EncodeAll([f] + fs))
    ensures Holds(data, offset, Encode(f)) && Holds(data, offset + |Encode(f)|, EncodeAll(fs))
  {
    hide *;
    OneFieldFirst(f, fs);
    HoldsBoth(data, offset, Encode(f), EncodeAll(fs));
  }

  lemma ReadFieldFirst(f: Field, fs: seq<Field>, data: seq<Byte>, offset: nat)
    requires Holds(data, offset, Encode(f))
    requires ReadAll(FormatsOf(fs), data, offset + |Encode(f)|)
             == Some((fs, offset + |Encode(f)| + |EncodeAll(fs)|))
    ensures ReadAll(FormatsOf([f] + fs), data, offset) == Some(([f] + fs, offset + |EncodeAll([f] + fs)|))
  {
    hide *;
    OneFieldFirst(f, fs);
    ReadOneMore(f, fs, data, offset, offset + |Encode(f)| + |EncodeAll(fs)|);
  }

  lemma ReadNothing(data: seq<Byte>, offset: nat)
    ensures ReadAll(FormatsOf([]), data, offset) == Some(([], offset)) && EncodeAll([]) == []
  {
  }

  lemma {:induction false} ReadAllHolds(fs: seq<Field>, data: seq<Byte>, offset: nat)
    requires Holds(data, offset, EncodeAll(fs))
    ensures ReadAll(FormatsOf(fs), data, offset) == Some((fs, offset + |EncodeAll(fs)|))
    decreases |fs|
  {
    hide *;
    if fs == [] {
      ReadNothing(data, offset);
    } else {
      var f, rest := fs[0], fs[1..];
      assert fs == [f] + rest;
      RestHolds(f, rest, data, offset);
      ReadAllHolds(rest, data, offset + |Encode(f)|);
      ReadFieldFirst(f, rest, data, offset);
    }
  }

  /** Reading back what was written, in any surroundings. */
  lemma ReadAllInverse(fs: seq<Field>, data: seq<Byte>, offset: nat)
    requires offset + |EncodeAll(fs)| <= |data|
    requires data[offset..offset + |EncodeAll(fs)|] == EncodeAll(fs)
    ensures ReadAll(FormatsOf(fs), data, offset) == Some((fs, offset + |EncodeAll(fs)|))
  {
    ReadAllHolds(fs, data, offset);
  }
}
