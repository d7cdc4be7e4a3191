/** From OBJ lines to the binary file and back: what a glTF renderer draws from the file is the triangles of the OBJ. */
module GlbMesh {
  import opened Options
  import opened Frames
  import opened Bytes
  import opened ObjMesh
  import opened Glb

  /** The 32-bit pattern a real is packed as; None where struct.pack refuses it. */
  type Rounding = real -> Option<U32>

  // ---------------------------------------------------------------- packed words

  function Words(ws: seq<U32>): (bytes: seq<Byte>)
    ensures |bytes| == 4 * |ws|
  {
    if ws == [] then [] else LE(ws[0], 4) + Words(ws[1..])
  }

  lemma {:induction false} WordsAt(ws: seq<U32>, i: nat)
    requires i < |ws|
    ensures Words(ws)[4 * i..4 * i + 4] == LE(ws[i], 4)
  {
    hide LE;
    if i > 0 {
      WordsAt(ws[1..], i - 1);
      assert Words(ws)[4 * i..4 * i + 4] == Words(ws[1..])[4 * (i - 1)..4 * (i - 1) + 4];
    }
  }

  lemma SliceOfView(binary: seq<Byte>, view: View, data: seq<Byte>, a: nat, b: nat)
    requires InView(binary, view, data) && a <= b <= |data|
    ensures view.offset + b <= |binary| && binary[view.offset + a..view.offset + b] == data[a..b]
  {
    SliceOfSlice(binary, view.offset, view.offset + view.length, a, b);
  }

  lemma BytesInView(binary: seq<Byte>, view: View, data: seq<Byte>, at: nat, v: nat)
    requires InView(binary, view, data) && at + 4 <= |data| && v < WORD32 && data[at..at + 4] == LE(v, 4)
    ensures view.offset + at + 4 <= |binary| && WordAt(binary, view.offset + at) == v
  {
    hide LE, WordAt, InView;
    SliceOfView(binary, view, data, at, at + 4);
    WordIsBack(binary, view.offset + at, v);
  }

  lemma WordInView(binary: seq<Byte>, view: View, ws: seq<U32>, i: nat)
    requires InView(binary, view, Words(ws)) && i < |ws|
    ensures view.offset + 4 * i + 4 <= |binary| && WordAt(binary, view.offset + 4 * i) == ws[i]
  {
    hide *;
    WordsAt(ws, i);
    BytesInView(binary, view, Words(ws), 4 * i, ws[i]);
  }

  predicate Representable(flat: seq<real>, bits: Rounding) {
    forall k :: 0 <= k < |flat| ==> bits(flat[k]).Some?
  }

  function Rounded(r: real, bits: Rounding): U32 {
    if bits(r).Some? then bits(r).value else 0
  }

  function RoundAll(flat: seq<real>, bits: Rounding): (ws: seq<U32>)
    ensures |ws| == |flat|
  {
    seq(|flat|, k requires 0 <= k < |flat| => Rounded(flat[k], bits))
  }

  // ---------------------------------------------------------------- the document

  datatype Primitive = Primitive(position: nat, normal: nat, color: nat, indices: nat, material: nat)

  /** The lists of the JSON text; the targets belong to the views and the colors to the materials. */
  datatype Document = Document(views: seq<View>, targets: seq<nat>, accessors: seq<Accessor>,
                               primitives: seq<Primitive>, materials: seq<string>, colors: seq<Vec>)

  // ---------------------------------------------------------------- accessor limits

  /** Every third number, packed_pos[c::3]. */
  function Component(flat: seq<real>, c: nat): (xs: seq<real>)
    requires |flat| % 3 == 0 && c < 3
    ensures |xs| == |flat| / 3 && forall i :: 0 <= i < |xs| ==> xs[i] == flat[3 * i + c]
  {
    seq(|flat| / 3, i requires 0 <= i < |flat| / 3 => flat[3 * i + c])
  }

  /** min and max, for a list that is not empty. */
  function Least(xs: seq<real>): real {
    if xs == [] then 0.0
    else if |xs| == 1 || xs[0] <= Least(xs[1..]) then xs[0] else Least(xs[1..])
  }

  function Most(xs: seq<real>): real {
    if xs == [] then 0.0
    else if |xs| == 1 || xs[0] >= Most(xs[1..]) then xs[0] else Most(xs[1..])
  }

  lemma {:induction false} LeastBounds(xs: seq<real>)
    ensures forall i :: 0 <= i < |xs| ==> Least(xs) <= xs[i]
    ensures xs != [] ==> Least(xs) in xs
  {
    if |xs| > 1 {
      LeastBounds(xs[1..]);
      assert forall i :: 1 <= i < |xs| ==> xs[i] == xs[1..][i - 1];
    }
  }

  lemma {:induction false} MostBounds(xs: seq<real>)
    ensures forall i :: 0 <= i < |xs| ==> xs[i] <= Most(xs)
    ensures xs != [] ==> Most(xs) in xs
  {
    if |xs| > 1 {
      MostBounds(xs[1..]);
      assert forall i :: 1 <= i < |xs| ==> xs[i] == xs[1..][i - 1];
    }
  }

  lemma LimitsOf(xs: seq<real>)
    ensures forall i :: 0 <= i < |xs| ==> Least(xs) <= xs[i] <= Most(xs)
    ensures xs != [] ==> Least(xs) in xs && Most(xs) in xs
  {
    LeastBounds(xs);
    MostBounds(xs);
  }

  function Reals(indices: seq<nat>): (xs: seq<real>)
    ensures |xs| == |indices| && forall i :: 0 <= i < |xs| ==> xs[i] == indices[i] as real
  {
    seq(|indices|, i requires 0 <= i < |indices| => indices[i] as real)
  }

  function PositionAccessor(m: Mesh): Accessor
    requires |m.positions| % 3 == 0
  {
    Accessor(0, FLOAT, |m.positions| / 3, "VEC3",
             [Least(Component(m.positions, 0)), Least(Component(m.positions, 1)), Least(Component(m.positions, 2))],
             [Most(Component(m.positions, 0)), Most(Component(m.positions, 1)), Most(Component(m.positions, 2))])
  }

  /** The accessor of the index list of material k. */
  function IndexAccessor(m: Mesh, k: nat): Accessor
    requires k < |m.materials| && m.materials[k] in m.faces
  {
    var indices := m.faces[m.materials[k]];
    Accessor(3 + k, UNSIGNED_INT, |indices|, "SCALAR", [Least(Reals(indices))], [Most(Reals(indices))])
  }

  predicate Writable(m: Mesh, bits: Rounding) {
    && Representable(m.positions, bits) && Representable(m.normals, bits) && Representable(m.colors, bits)
    && (forall name :: name in m.faces ==> forall k :: 0 <= k < |m.faces[name]| ==> m.faces[name][k] < WORD32)
  }

  /** The index list of material k. */
  function IndicesOf(m: Mesh, bits: Rounding, k: nat): seq<U32>
    requires Writable(m, bits) && k < |m.materials| && m.materials[k] in m.faces
  {
    m.faces[m.materials[k]]
  }

  /** What is added to the buffer: three attribute arrays, then the index lists of the first n materials. */
  function Datas(m: Mesh, bits: Rounding, n: nat): (datas: seq<seq<Byte>>)
    requires Writable(m, bits) && n <= |m.materials| && forall k :: 0 <= k < n ==> m.materials[k] in m.faces
    ensures |datas| == 3 + n
    ensures datas[0] == Words(RoundAll(m.positions, bits))
    ensures datas[1] == Words(RoundAll(m.normals, bits))
    ensures datas[2] == Words(RoundAll(m.colors, bits))
    ensures forall k :: 0 <= k < n ==> datas[3 + k] == Words(IndicesOf(m, bits, k))
  {
    if n == 0
    then [Words(RoundAll(m.positions, bits)), Words(RoundAll(m.normals, bits)), Words(RoundAll(m.colors, bits))]
    else Datas(m, bits, n - 1) + [Words(IndicesOf(m, bits, n - 1))]
  }

  function AccessorsOf(m: Mesh, n: nat): (accessors: seq<Accessor>)
    requires |m.positions| % 3 == 0
    requires n <= |m.materials| && forall k :: 0 <= k < n ==> m.materials[k] in m.faces
    ensures |accessors| == 3 + n
    ensures accessors[0] == PositionAccessor(m)
    ensures forall k :: 1 <= k < 3 ==> accessors[k] == Accessor(k, FLOAT, |m.positions| / 3, "VEC3", [], [])
    ensures forall k :: 0 <= k < n ==> accessors[3 + k] == IndexAccessor(m, k)
  {
    var count := |m.positions| / 3;
    if n == 0
    then [PositionAccessor(m), Accessor(1, FLOAT, count, "VEC3", [], []), Accessor(2, FLOAT, count, "VEC3", [], [])]
    else AccessorsOf(m, n - 1) + [IndexAccessor(m, n - 1)]
  }

  function TargetsOf(n: nat): (targets: seq<nat>)
    ensures |targets| == 3 + n
    ensures forall k :: 0 <= k < 3 + n ==> targets[k] == if k < 3 then ARRAY_BUFFER else ELEMENT_ARRAY_BUFFER
  {
    if n == 0 then [ARRAY_BUFFER, ARRAY_BUFFER, ARRAY_BUFFER] else TargetsOf(n - 1) + [ELEMENT_ARRAY_BUFFER]
  }

  /** The diffuse color of a material, a light grey if no library gives it one. */
  function ColorOf(rgb: map<string, Vec>, material: string): Vec {
    if material in rgb then rgb[material] else Vec(0.8, 0.8, 0.8)
  }

  function ColorsOf(rgb: map<string, Vec>, materials: seq<string>): (colors: seq<Vec>)
    ensures |colors| == |materials| && forall k :: 0 <= k < |colors| ==> colors[k] == ColorOf(rgb, materials[k])
  {
    seq(|materials|, k requires 0 <= k < |materials| => ColorOf(rgb, materials[k]))
  }

  function PrimitivesOf(n: nat): (primitives: seq<Primitive>)
    ensures |primitives| == n
    ensures forall k :: 0 <= k < n ==> primitives[k] == Primitive(0, 1, 2, 3 + k, k)
  {
    if n == 0 then [] else PrimitivesOf(n - 1) + [Primitive(0, 1, 2, 2 + n, n - 1)]
  }

  function DocumentOf(m: Mesh, bits: Rounding, rgb: map<string, Vec>): Document
    requires Writable(m, bits) && ListsMaterials(m) && |m.positions| % 3 == 0
  {
    Document(Laid(Datas(m, bits, |m.materials|)).1, TargetsOf(|m.materials|), AccessorsOf(m, |m.materials|),
             PrimitivesOf(|m.materials|), m.materials, ColorsOf(rgb, m.materials))
  }

  /** Accessors and views are marked as section 3.6 of the glTF 2.0 specification wants them: vectors of 32-bit floats in
      array buffers, unsigned 32-bit indices in element array buffers, as many as there are entries. */
  lemma DocumentIsMarked(m: Mesh, bits: Rounding, rgb: map<string, Vec>, k: nat)
    requires Writable(m, bits) && ListsMaterials(m) && |m.positions| % 3 == 0 && k < 3 + |m.materials|
    ensures var (document, a) := (DocumentOf(m, bits, rgb), DocumentOf(m, bits, rgb).accessors[k]);
            && a.view == k && |document.accessors| == |document.targets| == |document.views| == 3 + |m.materials|
            && (k < 3 ==> a.component == 5126 && a.kind == "VEC3" && 3 * a.count == |m.positions|
                          && document.targets[k] == 34962)
            && (k >= 3 ==> a.component == 5125 && a.kind == "SCALAR" && a.count == |m.faces[m.materials[k - 3]]|
                           && document.targets[k] == 34963)
            && (k >= 3 ==>
                  && |document.colors| == |document.materials| == |m.materials|
                  && document.materials[k - 3] == m.materials[k - 3]
                  && (m.materials[k - 3] in rgb ==> document.colors[k - 3] == rgb[m.materials[k - 3]])
                  && (m.materials[k - 3] !in rgb ==> document.colors[k - 3] == Vec(0.8, 0.8, 0.8)))
  {
    hide Least, Most, Laid;
    if k >= 3 {
      assert DocumentOf(m, bits, rgb).accessors[3 + (k - 3)] == IndexAccessor(m, k - 3);
    }
  }

  lemma NoneYet(m: Mesh, bits: Rounding)
    requires Writable(m, bits) && |m.positions| % 3 == 0
    ensures Datas(m, bits, 0) == [Words(RoundAll(m.positions, bits)), Words(RoundAll(m.normals, bits)),
                                  Words(RoundAll(m.colors, bits))]
    ensures AccessorsOf(m, 0) == [PositionAccessor(m), Accessor(1, FLOAT, |m.positions| / 3, "VEC3", [], []),
                                  Accessor(2, FLOAT, |m.positions| / 3, "VEC3", [], [])]
    ensures TargetsOf(0) == [ARRAY_BUFFER, ARRAY_BUFFER, ARRAY_BUFFER]
    ensures PrimitivesOf(0) == []
  {
    hide Words, RoundAll, Writable, PositionAccessor;
  }

  /** One material more adds one view, one accessor and one primitive. */
  lemma OneMore(m: Mesh, bits: Rounding, n: nat)
    requires Writable(m, bits) && |m.positions| % 3 == 0
    requires n < |m.materials| && forall k :: 0 <= k <= n ==> m.materials[k] in m.faces
    ensures Datas(m, bits, n + 1) == Datas(m, bits, n) + [Words(IndicesOf(m, bits, n))]
    ensures AccessorsOf(m, n + 1) == AccessorsOf(m, n) + [IndexAccessor(m, n)]
    ensures TargetsOf(n + 1) == TargetsOf(n) + [ELEMENT_ARRAY_BUFFER]
    ensures PrimitivesOf(n + 1) == PrimitivesOf(n) + [Primitive(0, 1, 2, 3 + n, n)]
  {
    hide Words, RoundAll, Writable, PositionAccessor, IndexAccessor;
  }

  /** The file for a mesh, with the colors its material libraries give; None where a number does not fit its field. */
  method WriteGlb(m: Mesh, bits: Rounding, rgb: map<string, Vec>, json: Document -> seq<Byte>)
      returns (file: Option<seq<Byte>>)
    requires ListsMaterials(m) && m.positions != [] && |m.positions| % 3 == 0
    ensures !Writable(m, bits) ==> file == None
    ensures Writable(m, bits) ==>
              file == Container(json(DocumentOf(m, bits, rgb)), Laid(Datas(m, bits, |m.materials|)).0)
  {
    hide Container, Laid, Words, Writable, RoundAll, Datas, AccessorsOf, TargetsOf, PrimitivesOf, IndexAccessor;
    if !Writable(m, bits) {
      return None;
    }
    var buffer := new GlbBuffer();
    var position, normal, color := AddArrays(buffer, m, bits);
    var primitives, materials, colors := [], [], [];
    for n := 0 to |m.materials|
      invariant buffer.Valid() && fresh(buffer)
      invariant buffer.added == Datas(m, bits, n) && buffer.accessors == AccessorsOf(m, n)
      invariant buffer.targets == TargetsOf(n)
      invariant primitives == PrimitivesOf(n) && materials == m.materials[..n]
      invariant |colors| == n && forall k :: 0 <= k < n ==> colors[k] == ColorOf(rgb, m.materials[k])
    {
      OneMore(m, bits, n);
      var index := AddIndices(buffer, m, bits, n);
      materials := materials + [m.materials[n]];
      colors := colors + [if m.materials[n] in rgb then rgb[m.materials[n]] else Vec(0.8, 0.8, 0.8)];
      primitives := primitives + [Primitive(position, normal, color, index, |materials| - 1)];
    }
    assert m.materials[..|m.materials|] == m.materials;
    assert colors == ColorsOf(rgb, m.materials);
    var document := Document(buffer.views, buffer.targets, buffer.accessors, primitives, materials, colors);
    file := Container(json(document), buffer.binary);
  }

  /** The three attribute arrays. */
  method AddArrays(buffer: GlbBuffer, m: Mesh, bits: Rounding) returns (position: nat, normal: nat, color: nat)
    requires buffer.Valid() && buffer.added == [] && buffer.accessors == [] && buffer.targets == []
    requires Writable(m, bits) && m.positions != [] && |m.positions| % 3 == 0
    modifies buffer
    ensures buffer.Valid() && position == 0 && normal == 1 && color == 2
    ensures buffer.added == Datas(m, bits, 0) && buffer.accessors == AccessorsOf(m, 0) && buffer.targets == TargetsOf(0)
  {
    hide Laid, Words, Writable, RoundAll, Datas, AccessorsOf, TargetsOf, Least, Most, Component;
    NoneYet(m, bits);
    var count := |m.positions| / 3;
    var xs, ys, zs := Component(m.positions, 0), Component(m.positions, 1), Component(m.positions, 2);
    position := buffer.Add(Words(RoundAll(m.positions, bits)), ARRAY_BUFFER, FLOAT, count, "VEC3",
                           [Least(xs), Least(ys), Least(zs)], [Most(xs), Most(ys), Most(zs)]);
    normal := buffer.Add(Words(RoundAll(m.normals, bits)), ARRAY_BUFFER, FLOAT, count, "VEC3", [], []);
    color := buffer.Add(Words(RoundAll(m.colors, bits)), ARRAY_BUFFER, FLOAT, count, "VEC3", [], []);
  }

  /** The index list of one material. */
  method AddIndices(buffer: GlbBuffer, m: Mesh, bits: Rounding, n: nat) returns (index: nat)
    requires buffer.Valid() && |buffer.accessors| == 3 + n
    requires Writable(m, bits) && n < |m.materials| && m.materials[n] in m.faces
    modifies buffer
    ensures buffer.Valid() && index == 3 + n
    ensures buffer.added == old(buffer.added) + [Words(IndicesOf(m, bits, n))]
    ensures buffer.accessors == old(buffer.accessors) + [IndexAccessor(m, n)]
    ensures buffer.targets == old(buffer.targets) + [ELEMENT_ARRAY_BUFFER]
  {
    hide Laid, Words, Writable, Least, Most;
    var indices := IndicesOf(m, bits, n);
    index := buffer.Add(Words(indices), ELEMENT_ARRAY_BUFFER, UNSIGNED_INT, |indices|, "SCALAR",
                        [Least(Reals(indices))], [Most(Reals(indices))]);
  }

  // ---------------------------------------------------------------- what a renderer draws

  type Bits3 = (nat, nat, nat)

  function VecAt(binary: seq<Byte>, view: View, i: nat): Bits3
    requires view.offset + 12 * i + 12 <= |binary|
  {
    (WordAt(binary, view.offset + 12 * i), WordAt(binary, view.offset + 12 * i + 4),
     WordAt(binary, view.offset + 12 * i + 8))
  }

  function Round3(v: Vec, bits: Rounding): Bits3 {
    (Rounded(v.x, bits), Rounded(v.y, bits), Rounded(v.z, bits))
  }

  /** Corner c of a primitive, found through its index and attribute accessors. */
  ghost predicate CornerIs(binary: seq<Byte>, document: Document, p: Primitive, c: nat, a: Attributes, bits: Rounding) {
    && p.position < |document.views| && p.normal < |document.views| && p.color < |document.views|
    && p.indices < |document.views| && document.views[p.indices].offset + 4 * c + 4 <= |binary|
    && (var i := WordAt(binary, document.views[p.indices].offset + 4 * c);
        && Holds(binary, document.views[p.position], i, Round3(a.position, bits))
        && Holds(binary, document.views[p.normal], i, Round3(a.normal, bits))
        && Holds(binary, document.views[p.color], i, Round3(a.color, bits)))
  }

  predicate Holds(binary: seq<Byte>, view: View, i: nat, v: Bits3) {
    view.offset + 12 * i + 12 <= |binary| && VecAt(binary, view, i) == v
  }

  lemma EntryInView(binary: seq<Byte>, view: View, flat: seq<real>, bits: Rounding, i: nat)
    requires InView(binary, view, Words(RoundAll(flat, bits))) && 3 * i + 3 <= |flat|
    ensures view.offset + 12 * i + 12 <= |binary|
    ensures VecAt(binary, view, i) == Round3(Entry(flat, i), bits)
  {
    hide WordAt, Words, InView, Rounded;
    var ws := RoundAll(flat, bits);
    WordInView(binary, view, ws, 3 * i);
    WordInView(binary, view, ws, 3 * i + 1);
    WordInView(binary, view, ws, 3 * i + 2);
  }

  /** A legal file with faces, once written: the binary chunk and the document together draw, for every primitive,
      exactly the triangles of its material, corner by corner, as 32-bit floats; and every material that has a
      triangle has its own primitive. */
  lemma FileShowsTheSoup(lines: seq<Line>, bits: Rounding, rgb: map<string, Vec>, json: Document -> seq<Byte>, k: nat,
                         c: nat)
    requires Convert(lines).Some? && Writable(Convert(lines).value, bits)
    requires Container(json(DocumentOf(Convert(lines).value, bits, rgb)),
                       Laid(Datas(Convert(lines).value, bits, |Convert(lines).value.materials|)).0).Some?
    requires k < |DocumentOf(Convert(lines).value, bits, rgb).primitives|
    ensures Legal(lines)
    ensures var m := Convert(lines).value;
            var document := DocumentOf(m, bits, rgb);
            var file := Container(json(document), Laid(Datas(m, bits, |m.materials|)).0).value;
            var soup := Triangles(lines, document.materials[k]);
            && OpenContainer(file).Some?
            && document.primitives[k].material == k && document.colors[k] == ColorOf(rgb, document.materials[k])
            && document.accessors[document.primitives[k].indices].count == |soup|
            && (c < |soup| ==>
                  CornerIs(OpenContainer(file).value.1, document, document.primitives[k], c, soup[c], bits))
  {
    hide Container, OpenContainer, Laid, Datas, AccessorsOf, TargetsOf, PrimitivesOf, Index, Legal, Triangles, Packed,
         Padded, CornerIs, Writable, Least, Most;
    var m := Convert(lines).value;
    var keys := IndexedMeshIsTheSoup(lines);
    var document, datas := DocumentOf(m, bits, rgb), Datas(m, bits, |m.materials|);
    var binary := Laid(datas).0;
    ContainerOpens(json(document), binary);
    LayoutIsSound(datas);
    var chunk := Padded(binary, 0);
    var soup := Triangles(lines, document.materials[k]);
    assert Shows(m, document.materials[k], soup);
    assert document.accessors[3 + k] == IndexAccessor(m, k);
    if c < |soup| {
      forall j | j in {0, 1, 2, 3 + k}
        ensures InView(chunk, document.views[j], datas[j])
      {
        PrefixInView(binary, chunk, document.views[j], datas[j]);
      }
      CornerShown(m, bits, chunk, document, k, c, soup);
    }
  }

  /** The limits of the position accessor are the box around all triangle corners: no corner is outside it, and each of
      its sides is a coordinate of some entry. */
  lemma PositionLimitsAreTight(lines: seq<Line>, material: string, c: nat, axis: nat)
    requires Convert(lines).Some?
    ensures Legal(lines)
    ensures c < |Triangles(lines, material)| ==>
              InBox(Triangles(lines, material)[c].position, PositionAccessor(Convert(lines).value))
    ensures axis < 3 ==>
              var (m, box) := (Convert(lines).value, PositionAccessor(Convert(lines).value));
              box.least[axis] in Component(m.positions, axis) && box.most[axis] in Component(m.positions, axis)
  {
    hide Index, Legal, Triangles, Packed, Least, Most, InBox;
    var m := Convert(lines).value;
    if axis < 3 {
      LimitsOf(Component(m.positions, axis));
    }
    var keys := IndexedMeshIsTheSoup(lines);
    var soup := Triangles(lines, material);
    assert Shows(m, material, soup);
    if c < |soup| {
      InsideTheBox(m, FacesOf(m, material)[c]);
    }
  }

  lemma InsideTheBox(m: Mesh, i: nat)
    requires |m.positions| % 3 == 0 && 3 * i + 3 <= |m.positions|
    ensures InBox(Entry(m.positions, i), PositionAccessor(m))
  {
    hide Least, Most;
    ComponentsOf(m.positions, i);
    LimitsOf(Component(m.positions, 0));
    LimitsOf(Component(m.positions, 1));
    LimitsOf(Component(m.positions, 2));
  }

  /** The limits of an index list keep it within the arrays. */
  lemma IndexLimitsFit(lines: seq<Line>, k: nat)
    requires Convert(lines).Some? && k < |Convert(lines).value.materials|
    ensures var m := Convert(lines).value;
            IndexAccessor(m, k).least[0] >= 0.0 && IndexAccessor(m, k).most[0] < PositionAccessor(m).count as real
  {
    hide Index, Legal, Triangles, Packed, Least, Most;
    var m := Convert(lines).value;
    var keys := IndexedMeshIsTheSoup(lines);
    assert Shows(m, m.materials[k], Triangles(lines, m.materials[k]));
    IndicesFit(m.faces[m.materials[k]], |m.positions| / 3);
  }

  lemma ComponentsOf(flat: seq<real>, i: nat)
    requires |flat| % 3 == 0 && 3 * i + 3 <= |flat|
    ensures Entry(flat, i) == Vec(Component(flat, 0)[i], Component(flat, 1)[i], Component(flat, 2)[i])
  {
  }

  lemma IndicesFit(indices: seq<nat>, n: nat)
    requires indices != [] && InRange(indices, n)
    ensures Least(Reals(indices)) >= 0.0 && Most(Reals(indices)) < n as real
  {
    hide Least, Most;
    LimitsOf(Reals(indices));
  }

  predicate InBox(v: Vec, box: Accessor) {
    && |box.least| == |box.most| == 3
    && box.least[0] <= v.x <= box.most[0] && box.least[1] <= v.y <= box.most[1] && box.least[2] <= v.z <= box.most[2]
  }

  lemma CornerShown(m: Mesh, bits: Rounding, chunk: seq<Byte>, document: Document, k: nat, c: nat, soup: seq<Attributes>)
    requires Writable(m, bits) && ListsMaterials(m) && k < |m.materials|
    requires Shows(m, m.materials[k], soup) && c < |soup|
    requires |document.views| == 3 + |m.materials| && document.primitives == PrimitivesOf(|m.materials|)
    requires InView(chunk, document.views[0], Words(RoundAll(m.positions, bits)))
    requires InView(chunk, document.views[1], Words(RoundAll(m.normals, bits)))
    requires InView(chunk, document.views[2], Words(RoundAll(m.colors, bits)))
    requires InView(chunk, document.views[3 + k], Words(IndicesOf(m, bits, k)))
    ensures CornerIs(chunk, document, document.primitives[k], c, soup[c], bits)
  {
    hide InView, Words, RoundAll, WordAt, VecAt, Round3, Entry, Writable, PrimitivesOf;
    var indices := IndicesOf(m, bits, k);
    var i := indices[c];
    WordInView(chunk, document.views[3 + k], indices, c);
    EntryInView(chunk, document.views[0], m.positions, bits, i);
    EntryInView(chunk, document.views[1], m.normals, bits, i);
    EntryInView(chunk, document.views[2], m.colors, bits, i);
  }

  /** No triangle is lost: materials with triangles are exactly those with a primitive, one each. */
  lemma EveryMaterialHasItsPrimitive(lines: seq<Line>, bits: Rounding, rgb: map<string, Vec>, material: string)
    requires Convert(lines).Some? && Writable(Convert(lines).value, bits)
    ensures Legal(lines)
    ensures var document := DocumentOf(Convert(lines).value, bits, rgb);
            && |document.primitives| == |document.materials|
            && (material in document.materials <==> Triangles(lines, material) != [])
            && (forall i, j :: 0 <= i < j < |document.materials| ==> document.materials[i] != document.materials[j])
  {
    hide Laid, Datas, AccessorsOf, Index, Legal, Triangles, Packed, Writable;
    var keys := IndexedMeshIsTheSoup(lines);
    assert Shows(Convert(lines).value, material, Triangles(lines, material));
  }
}
