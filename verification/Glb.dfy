/** The binary glTF file the OBJ reader writes: aligned buffer views, a JSON chunk and a binary chunk. Floats travel as
    their 32-bit patterns and the JSON text as bytes. */
module Glb {
  import opened Options
  import opened Frames
  import opened Bytes
  import opened ObjMesh

  datatype View = View(offset: nat, length: nat)

  /** `least` and `most` are empty where the source gives no limits. */
  datatype Accessor =
    Accessor(view: nat, component: nat, count: nat, kind: string, least: seq<real>, most: seq<real>)

  const FLOAT := 5126
  const UNSIGNED_INT := 5125
  const ARRAY_BUFFER := 34962
  const ELEMENT_ARRAY_BUFFER := 34963

  // ---------------------------------------------------------------- buffer views

  /** Bytes up to the next multiple of four. */
  function Padding(n: nat): (p: nat)
    ensures p < 4 && (n + p) % 4 == 0
  {
    (4 - n % 4) % 4
  }

  function Fill(b: Byte, n: nat): (bytes: seq<Byte>)
    ensures |bytes| == n
  {
    if n == 0 then [] else [b] + Fill(b, n - 1)
  }

  function Padded(data: seq<Byte>, b: Byte): (bytes: seq<Byte>)
    ensures |bytes| % 4 == 0 && |data| <= |bytes| < |data| + 4 && bytes[..|data|] == data
  {
    data + Fill(b, Padding(|data|))
  }

  /** The buffer and its views once all of `datas` have been added. */
  function Laid(datas: seq<seq<Byte>>): (r: (seq<Byte>, seq<View>))
    ensures |r.1| == |datas|
  {
    if datas == [] then ([], [])
    else
      var (binary, views) := Laid(datas[..|datas| - 1]);
      var data, aligned := datas[|datas| - 1], Padded(binary, 0);
      (aligned + data, views + [View(|aligned|, |data|)])
  }

  predicate InView(binary: seq<Byte>, view: View, data: seq<Byte>) {
    view.offset + view.length <= |binary| && binary[view.offset..view.offset + view.length] == data
  }

  /** Views are 4-aligned, in range, in order without overlap, and each holds the bytes it was added for. */
  lemma {:induction false} LayoutIsSound(datas: seq<seq<Byte>>)
    ensures var (binary, views) := Laid(datas);
            && (forall k :: 0 <= k < |datas| ==> views[k].offset % 4 == 0 && InView(binary, views[k], datas[k]))
            && (forall j, k :: 0 <= j < k < |datas| ==> views[j].offset + views[j].length <= views[k].offset)
    decreases |datas|
  {
    hide Padded;
    if datas != [] {
      var before := datas[..|datas| - 1];
      LayoutIsSound(before);
      var (binary, views) := Laid(before);
      var all, all' := Laid(datas).0, Laid(datas).1;
      var aligned := Padded(binary, 0);
      forall k | 0 <= k < |datas|
        ensures all'[k].offset % 4 == 0 && InView(all, all'[k], datas[k])
      {
        if k < |before| {
          assert InView(binary, views[k], before[k]);
          PrefixInView(binary, aligned, views[k], before[k]);
          PrefixInView(aligned, all, views[k], before[k]);
        } else {
          assert all[|aligned|..] == datas[k];
        }
      }
      forall j, k | 0 <= j < k < |datas|
        ensures all'[j].offset + all'[j].length <= all'[k].offset
      {
        assert InView(binary, views[j], before[j]);
      }
    }
  }

  lemma PrefixInView(small: seq<Byte>, large: seq<Byte>, view: View, data: seq<Byte>)
    requires InView(small, view, data) && |small| <= |large| && large[..|small|] == small
    ensures InView(large, view, data)
  {
    assert large[view.offset..view.offset + view.length] == large[..|small|][view.offset..view.offset + view.length];
  }

  /** The bytearray and the lists obj_to_glb appends to; `targets` are those of the views. */
  class GlbBuffer {
    var binary: seq<Byte>
    var views: seq<View>
    var targets: seq<nat>
    var accessors: seq<Accessor>
    ghost var added: seq<seq<Byte>>

    ghost predicate Valid()
      reads this
    {
      && Laid(added) == (binary, views)
      && |accessors| == |views| == |targets|
      && (forall k :: 0 <= k < |accessors| ==> accessors[k].view == k)
    }

    constructor ()
      ensures Valid() && added == [] && accessors == [] && targets == []
    {
      binary, views, targets, accessors, added := [], [], [], [], [];
    }

    method Add(data: seq<Byte>, target: nat, component: nat, count: nat, kind: string, least: seq<real>,
               most: seq<real>)
        returns (accessor: nat)
      requires Valid()
      modifies this
      ensures Valid()
      ensures added == old(added) + [data]
      ensures accessor == |old(accessors)|
      ensures accessors == old(accessors) + [Accessor(accessor, component, count, kind, least, most)]
      ensures targets == old(targets) + [target]
    {
      ghost var start := binary;
      while |binary| % 4 != 0
        invariant |start| <= |binary| <= |start| + Padding(|start|)
        invariant binary == start + Fill(0, |binary| - |start|)
        invariant views == old(views) && targets == old(targets) && accessors == old(accessors) && added == old(added)
        decreases |start| + Padding(|start|) - |binary|
      {
        FillMore(0, |binary| - |start|);
        binary := binary + [0];
      }
      var offset := |binary|;
      binary := binary + data;
      var view := |views|;
      views := views + [View(offset, |data|)];
      targets := targets + [target];
      accessor := |accessors|;
      accessors := accessors + [Accessor(view, component, count, kind, least, most)];
      added := added + [data];
      assert added[..|added| - 1] == old(added);
    }
  }

  lemma {:induction false} FillMore(b: Byte, n: nat)
    ensures Fill(b, n + 1) == Fill(b, n) + [b]
  {
    if n > 0 {
      FillMore(b, n - 1);
    }
  }

  // ---------------------------------------------------------------- the container

  const MAGIC: seq<Byte> := [0x67, 0x6C, 0x54, 0x46]
  const JSON_CHUNK: seq<Byte> := [0x4A, 0x53, 0x4F, 0x4E]
  const BIN_CHUNK: seq<Byte> := [0x42, 0x49, 0x4E, 0x00]

  const SPACE: Byte := 0x20

  /** Header, JSON chunk, binary chunk; None where a length does not fit its 32-bit field. */
  function Container(metadata: seq<Byte>, binary: seq<Byte>): Option<seq<Byte>> {
    var meta, bin := Padded(metadata, SPACE), Padded(binary, 0);
    var total := 12 + 8 + |meta| + 8 + |bin|;
    if total >= WORD32 then None
    else Some(MAGIC + LE(2, 4) + LE(total, 4) + LE(|meta|, 4) + JSON_CHUNK + meta
                     + LE(|bin|, 4) + BIN_CHUNK + bin)
  }

  function WordAt(file: seq<Byte>, at: nat): nat
    requires at + 4 <= |file|
  {
    FromLE(file[at..at + 4])
  }

  /** A reader after section 4.4 of the glTF 2.0 specification: magic, version and total length, then a JSON chunk and
      a binary chunk, each of a length that is a multiple of four, and nothing behind them. */
  function OpenContainer(file: seq<Byte>): Option<(seq<Byte>, seq<Byte>)> {
    if |file| < 20 || file[..4] != MAGIC || WordAt(file, 4) != 2 || WordAt(file, 8) != |file| then None
    else
      var json := WordAt(file, 12);
      var next := 20 + json;
      if json % 4 != 0 || file[16..20] != JSON_CHUNK || next + 8 > |file| then None
      else
        var bin := WordAt(file, next);
        if bin % 4 != 0 || file[next + 4..next + 8] != BIN_CHUNK || next + 8 + bin != |file| then None
        else Some((file[20..next], file[next + 8..]))
  }

  lemma WordIsBack(file: seq<Byte>, at: nat, v: nat)
    requires at + 4 <= |file| && v < WORD32 && file[at..at + 4] == LE(v, 4)
    ensures WordAt(file, at) == v
  {
    WordSizes();
    FromLEInverse(v, 4);
  }

  /** The words that make it a glTF file: "glTF", version 2, and the chunks "JSON" and "BIN" by name. */
  lemma ContainerIsMarked(metadata: seq<Byte>, binary: seq<Byte>)
    requires Container(metadata, binary).Some?
    ensures var (file, next) := (Container(metadata, binary).value, 20 + |Padded(metadata, SPACE)|);
            && |file| >= next + 8
            && file[..4] == ['g' as int, 'l' as int, 'T' as int, 'F' as int] && file[4..8] == [2, 0, 0, 0]
            && file[16..20] == ['J' as int, 'S' as int, 'O' as int, 'N' as int]
            && file[next + 4..next + 8] == ['B' as int, 'I' as int, 'N' as int, 0]
  {
    hide Padded, FromLE, LE;
    VersionBytes();
    var meta, bin := Padded(metadata, SPACE), Padded(binary, 0);
    var total := 12 + 8 + |meta| + 8 + |bin|;
    var file, next := Container(metadata, binary).value, 20 + |meta|;
    assert file[..4] == MAGIC;
    assert file[4..8] == LE(2, 4);
    assert file[16..20] == JSON_CHUNK;
    assert file[next + 4..next + 8] == BIN_CHUNK;
  }

  lemma VersionBytes()
    ensures LE(2, 4) == [2, 0, 0, 0]
  {
    assert LE(0, 3) == [0] + LE(0, 2) && LE(0, 2) == [0] + LE(0, 1) && LE(0, 1) == [0] + LE(0, 0);
  }

  /** The length field equals the file length, and a glTF reader finds both chunks. */
  lemma ContainerOpens(metadata: seq<Byte>, binary: seq<Byte>)
    requires Container(metadata, binary).Some?
    ensures var file := Container(metadata, binary).value;
            && |file| % 4 == 0 && WordAt(file, 8) == |file|
            && OpenContainer(file) == Some((Padded(metadata, SPACE), Padded(binary, 0)))
  {
    hide Padded, LE, FromLE;
    var meta, bin := Padded(metadata, SPACE), Padded(binary, 0);
    var total := 12 + 8 + |meta| + 8 + |bin|;
    var file := Container(metadata, binary).value;
    var next := 20 + |meta|;
    assert |file| == total;
    assert file[..4] == MAGIC;
    assert file[4..8] == LE(2, 4);
    assert file[8..12] == LE(total, 4);
    assert file[12..16] == LE(|meta|, 4);
    assert file[16..20] == JSON_CHUNK;
    assert file[20..next] == meta;
    assert file[next..next + 4] == LE(|bin|, 4);
    assert file[next + 4..next + 8] == BIN_CHUNK;
    assert file[next + 8..] == bin;
    WordIsBack(file, 4, 2);
    WordIsBack(file, 8, total);
    WordIsBack(file, 12, |meta|);
    WordIsBack(file, next, |bin|);
  }
}
