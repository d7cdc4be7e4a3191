/** The OBJ reader of the visualization build: faces become indices into packed vertex arrays, one entry for each
    distinct pair of vertex and normal. Coordinates are exact reals and a normal line carries its unit vector. */
module ObjMesh {
  import opened Options

  datatype Vec = Vec(x: real, y: real, z: real)

  /** The numbers of one face token; the normal is 0 where the token has none. */
  datatype Corner = Corner(vertex: int, normal: int)

  /** A line of the file: "v", "vn", "usemtl" and "f" with enough fields, or anything else. */
  datatype Line =
    | Position(at: Vec, color: Vec)
    | Normal(unit: Vec)
    | UseMaterial(name: string)
    | Face(corners: seq<Corner>)
    | Ignored

  /** What the lines so far have declared. */
  datatype Geometry = Geometry(vertices: seq<Vec>, colors: seq<Vec>, normals: seq<Vec>, material: string)

  const START: Geometry := Geometry([], [], [], "default")

  function Declare(g: Geometry, line: Line): Geometry {
    match line
    case Position(at, color) => g.(vertices := g.vertices + [at], colors := g.colors + [color])
    case Normal(unit) => g.(normals := g.normals + [unit])
    case UseMaterial(name) => g.(material := name)
    case _ => g
  }

  function GeometryOf(lines: seq<Line>): (g: Geometry)
    ensures |g.colors| == |g.vertices|
  {
    if lines == [] then START else Declare(GeometryOf(lines[..|lines| - 1]), lines[|lines| - 1])
  }

  // ---------------------------------------------------------------- face indices

  /** Positive numbers count from 1, the others back from the newest vertex. */
  function VertexAt(c: Corner, g: Geometry): int {
    if c.vertex > 0 then c.vertex - 1 else |g.vertices| + c.vertex
  }

  /** The same for normals, with 0 for none. */
  function NormalAt(c: Corner, g: Geometry): int {
    if c.normal > 0 then c.normal - 1 else if c.normal < 0 then |g.normals| + c.normal else -1
  }

  type Key = (int, int)

  function KeyOf(c: Corner, g: Geometry): Key {
    (VertexAt(c, g), NormalAt(c, g))
  }

  /** The test of the reader. It has no lower bound for the normal: one that counts back too far means none. */
  predicate IsKey(key: Key, g: Geometry) {
    0 <= key.0 < |g.vertices| && key.1 < |g.normals|
  }

  predicate LegalFace(corners: seq<Corner>, g: Geometry) {
    forall k :: 0 <= k < |corners| ==> IsKey(KeyOf(corners[k], g), g)
  }

  /** The attributes one corner is drawn with, with the Z-up axes turned to Y-up. */
  datatype Attributes = Attributes(position: Vec, normal: Vec, color: Vec)

  function Turned(v: Vec): Vec {
    Vec(v.x, v.z, -v.y)
  }

  function AttributesOf(key: Key, g: Geometry): Attributes
    requires IsKey(key, g) && |g.colors| == |g.vertices|
  {
    Attributes(Turned(g.vertices[key.0]), Turned(if key.1 >= 0 then g.normals[key.1] else Vec(0.0, 0.0, 1.0)),
               g.colors[key.0])
  }

  /** For a corner with a vertex, a normal past the end is refused and one before the beginning is not. */
  lemma NormalRangeIsOneSided(c: Corner, g: Geometry)
    requires 0 <= VertexAt(c, g) < |g.vertices|
    ensures IsKey(KeyOf(c, g), g) <==> c.normal <= |g.normals|
  {
    assert NormalAt(c, g) < |g.normals| <==> c.normal <= |g.normals|;
  }

  /** A corner whose normal resolves below zero is drawn like one without a normal. */
  lemma FarNormalMeansNone(key: Key, g: Geometry)
    requires IsKey(key, g) && |g.colors| == |g.vertices| && key.1 < 0
    ensures IsKey((key.0, -1), g) && AttributesOf(key, g) == AttributesOf((key.0, -1), g)
  {
  }

  // ---------------------------------------------------------------- the naive triangles

  predicate IsPolygon(line: Line) {
    line.Face? && |line.corners| >= 3
  }

  /** The reader accepts a file unless some face, where it stands, names a vertex that is not there or a normal that
      is not there yet. */
  predicate Legal(lines: seq<Line>) {
    lines == []
    || (Legal(lines[..|lines| - 1])
        && (IsPolygon(lines[|lines| - 1]) ==>
              LegalFace(lines[|lines| - 1].corners, GeometryOf(lines[..|lines| - 1]))))
  }

  /** The first n triangles of the fan around the first corner, three corners each. */
  function Fan<T>(polygon: seq<T>, n: nat): (corners: seq<T>)
    requires n == 0 || n + 2 <= |polygon|
    ensures |corners| == 3 * n
  {
    if n == 0 then [] else Fan(polygon, n - 1) + [polygon[0], polygon[n], polygon[n + 1]]
  }

  function Drawn(corners: seq<Corner>, g: Geometry): (drawn: seq<Attributes>)
    requires LegalFace(corners, g) && |g.colors| == |g.vertices|
    ensures |drawn| == |corners|
    ensures forall k :: 0 <= k < |corners| ==> drawn[k] == AttributesOf(KeyOf(corners[k], g), g)
  {
    seq(|corners|, k requires 0 <= k < |corners| => AttributesOf(KeyOf(corners[k], g), g))
  }

  /** All triangles of one material, corner by corner, with nothing shared. */
  function Triangles(lines: seq<Line>, material: string): (soup: seq<Attributes>)
    requires Legal(lines)
  {
    if lines == [] then []
    else
      var before, line := lines[..|lines| - 1], lines[|lines| - 1];
      var g := GeometryOf(before);
      Triangles(before, material) +
      (if IsPolygon(line) && g.material == material then Fan(Drawn(line.corners, g), |line.corners| - 2) else [])
  }

  // ---------------------------------------------------------------- what the triangles are

  /** What each line declares: positions and colors in parallel, normals, and the material of the faces to come. */
  lemma GeometryGrows(lines: seq<Line>, line: Line)
    ensures GeometryOf([]) == Geometry([], [], [], "default")
    ensures var (g, next) := (GeometryOf(lines), GeometryOf(lines + [line]));
            && next.vertices == g.vertices + (if line.Position? then [line.at] else [])
            && next.colors == g.colors + (if line.Position? then [line.color] else [])
            && next.normals == g.normals + (if line.Normal? then [line.unit] else [])
            && next.material == (if line.UseMaterial? then line.name else g.material)
  {
    assert (lines + [line])[..|lines|] == lines;
  }

  /** A face may stand here: each of its vertices exists, and no normal is numbered past the last. */
  predicate MayStand(corners: seq<Corner>, g: Geometry) {
    forall k :: 0 <= k < |corners| ==>
      && (if corners[k].vertex > 0 then corners[k].vertex <= |g.vertices|
          else corners[k].vertex < 0 && -corners[k].vertex <= |g.vertices|)
      && corners[k].normal <= |g.normals|
  }

  lemma LegalExactly(lines: seq<Line>, line: Line)
    ensures Legal([])
    ensures Legal(lines + [line]) <==>
              Legal(lines) && (line.Face? && |line.corners| >= 3 ==> MayStand(line.corners, GeometryOf(lines)))
  {
    assert (lines + [line])[..|lines|] == lines;
    if line.Face? {
      KeysExactly(line.corners, GeometryOf(lines));
    }
  }

  lemma KeysExactly(corners: seq<Corner>, g: Geometry)
    ensures LegalFace(corners, g) <==> MayStand(corners, g)
  {
    if MayStand(corners, g) {
      forall k | 0 <= k < |corners|
        ensures IsKey(KeyOf(corners[k], g), g)
      {
      }
    } else {
      var k :| 0 <= k < |corners|
               && !((if corners[k].vertex > 0 then corners[k].vertex <= |g.vertices|
                     else corners[k].vertex < 0 && -corners[k].vertex <= |g.vertices|)
                    && corners[k].normal <= |g.normals|);
      assert !IsKey(KeyOf(corners[k], g), g);
    }
  }

  /** A corner as it is drawn: positive numbers count from 1 and negative ones back from the newest, a corner without a
      normal that exists faces up, and what was Z-up becomes Y-up. */
  predicate DrawnAs(a: Attributes, c: Corner, g: Geometry) {
    var v := if c.vertex > 0 then c.vertex - 1 else |g.vertices| + c.vertex;
    var n := if c.normal > 0 then c.normal - 1 else |g.normals| + c.normal;
    && 0 <= v < |g.vertices| == |g.colors|
    && a.position == Vec(g.vertices[v].x, g.vertices[v].z, -g.vertices[v].y)
    && a.color == g.colors[v]
    && a.normal == (if c.normal != 0 && 0 <= n < |g.normals| then Vec(g.normals[n].x, g.normals[n].z, -g.normals[n].y)
                    else Vec(0.0, 1.0, 0.0))
  }

  lemma {:induction false} FanCorners<T>(polygon: seq<T>, n: nat, k: nat)
    requires k < n && n + 2 <= |polygon|
    ensures var fan := Fan(polygon, n);
            fan[3 * k] == polygon[0] && fan[3 * k + 1] == polygon[k + 1] && fan[3 * k + 2] == polygon[k + 2]
  {
    if k < n - 1 {
      FanCorners(polygon, n - 1, k);
    }
  }

  /** The triangles of a face with n corners: n - 2 of them, each its first corner and two that follow each other, in
      this order. */
  predicate FanDrawn(added: seq<Attributes>, corners: seq<Corner>, g: Geometry) {
    && |corners| >= 3 && |added| == 3 * (|corners| - 2)
    && forall k :: 0 <= k < |corners| - 2 ==> TriangleDrawn(added, corners, g, k)
  }

  predicate TriangleDrawn(added: seq<Attributes>, corners: seq<Corner>, g: Geometry, k: nat)
    requires 3 * k + 2 < |added| && k + 2 < |corners|
  {
    && DrawnAs(added[3 * k], corners[0], g) && DrawnAs(added[3 * k + 1], corners[k + 1], g)
    && DrawnAs(added[3 * k + 2], corners[k + 2], g)
  }

  /** A face adds its triangles to its material; no other line adds any. */
  lemma TrianglesGrow(lines: seq<Line>, line: Line, material: string) returns (added: seq<Attributes>)
    requires Legal(lines + [line])
    ensures Legal(lines) && Triangles(lines + [line], material) == Triangles(lines, material) + added
    ensures if line.Face? && |line.corners| >= 3 && GeometryOf(lines).material == material
            then FanDrawn(added, line.corners, GeometryOf(lines)) else added == []
  {
    hide LegalFace, Fan, Legal, Triangles, Drawn, GeometryOf, FanDrawn;
    PrefixIsLegal(lines, line);
    TrianglesOfMore(lines, line, material);
    added := [];
    if line.Face? && |line.corners| >= 3 && GeometryOf(lines).material == material {
      added := Fan(Drawn(line.corners, GeometryOf(lines)), |line.corners| - 2);
      FanIsDrawn(line.corners, GeometryOf(lines));
    }
  }

  lemma FanIsDrawn(corners: seq<Corner>, g: Geometry)
    requires LegalFace(corners, g) && |g.colors| == |g.vertices| && |corners| >= 3
    ensures FanDrawn(Fan(Drawn(corners, g), |corners| - 2), corners, g)
  {
    hide LegalFace, Fan, DrawnAs, FanDrawn;
    forall k | 0 <= k < |corners|
      ensures DrawnAs(Drawn(corners, g)[k], corners[k], g)
    {
      AttributesAre(corners, g, k);
    }
    FanOfDrawn(Drawn(corners, g), corners, g);
  }

  lemma FanOfDrawn(drawn: seq<Attributes>, corners: seq<Corner>, g: Geometry)
    requires |drawn| == |corners| >= 3 && forall k :: 0 <= k < |corners| ==> DrawnAs(drawn[k], corners[k], g)
    ensures FanDrawn(Fan(drawn, |corners| - 2), corners, g)
  {
    hide Fan, DrawnAs;
    var n := |corners| - 2;
    var fan := Fan(drawn, n);
    forall k | 0 <= k < n
      ensures TriangleDrawn(fan, corners, g, k)
    {
      FanCorners(drawn, n, k);
    }
  }

  lemma TrianglesOfMore(lines: seq<Line>, line: Line, material: string)
    requires Legal(lines + [line]) && Legal(lines)
    requires line.Face? && |line.corners| >= 3 ==> LegalFace(line.corners, GeometryOf(lines))
    ensures Triangles(lines + [line], material)
            == Triangles(lines, material)
               + (if line.Face? && |line.corners| >= 3 && GeometryOf(lines).material == material
                  then Fan(Drawn(line.corners, GeometryOf(lines)), |line.corners| - 2) else [])
  {
    hide LegalFace, Fan, Legal, Drawn;
    assert (lines + [line])[..|lines|] == lines;
  }

  lemma PrefixIsLegal(lines: seq<Line>, line: Line)
    requires Legal(lines + [line])
    ensures Legal(lines)
    ensures line.Face? && |line.corners| >= 3 ==> LegalFace(line.corners, GeometryOf(lines))
  {
    assert (lines + [line])[..|lines|] == lines;
  }

  lemma AttributesAre(corners: seq<Corner>, g: Geometry, k: nat)
    requires LegalFace(corners, g) && |g.colors| == |g.vertices| && k < |corners|
    ensures DrawnAs(Drawn(corners, g)[k], corners[k], g)
  {
    assert IsKey(KeyOf(corners[k], g), g);
  }

  // ---------------------------------------------------------------- the indexed mesh

  datatype Mesh = Mesh(
    geometry: Geometry,
    unique: map<Key, nat>,
    positions: seq<real>, normals: seq<real>, colors: seq<real>,   // three numbers an entry
    faces: map<string, seq<nat>>, materials: seq<string>)          // materials in the order of their first face

  const EMPTY: Mesh := Mesh(START, map[], [], [], [], map[], [])

  function Flat(v: Vec): seq<real> {
    [v.x, v.y, v.z]
  }

  function Pack(m: Mesh, key: Key): Mesh
    requires IsKey(key, m.geometry) && |m.geometry.colors| == |m.geometry.vertices|
  {
    var a := AttributesOf(key, m.geometry);
    m.(unique := m.unique[key := |m.unique|], positions := m.positions + Flat(a.position),
       normals := m.normals + Flat(a.normal), colors := m.colors + Flat(a.color))
  }

  /** The index of one corner, packing it first if it is new. */
  function AddCorner(m: Mesh, c: Corner): (r: (Mesh, nat))
    requires IsKey(KeyOf(c, m.geometry), m.geometry) && |m.geometry.colors| == |m.geometry.vertices|
    ensures r.0.geometry == m.geometry && r.0.faces == m.faces && r.0.materials == m.materials
  {
    var key := KeyOf(c, m.geometry);
    if key in m.unique then (m, m.unique[key]) else (Pack(m, key), |m.unique|)
  }

  function AddCorners(m: Mesh, corners: seq<Corner>): (r: (Mesh, seq<nat>))
    requires LegalFace(corners, m.geometry) && |m.geometry.colors| == |m.geometry.vertices|
    ensures |r.1| == |corners|
    ensures r.0.geometry == m.geometry && r.0.faces == m.faces && r.0.materials == m.materials
  {
    if corners == [] then (m, [])
    else
      var (before, polygon) := AddCorners(m, corners[..|corners| - 1]);
      var (after, index) := AddCorner(before, corners[|corners| - 1]);
      (after, polygon + [index])
  }

  function FacesOf(m: Mesh, material: string): seq<nat> {
    if material in m.faces then m.faces[material] else []
  }

  function AddFace(m: Mesh, corners: seq<Corner>): Mesh
    requires LegalFace(corners, m.geometry) && |corners| >= 3 && |m.geometry.colors| == |m.geometry.vertices|
  {
    var (packed, polygon) := AddCorners(m, corners);
    var material := m.geometry.material;
    packed.(faces := packed.faces[material := FacesOf(packed, material) + Fan(polygon, |corners| - 2)],
            materials := if material in packed.faces then packed.materials else packed.materials + [material])
  }

  function AddLine(m: Mesh, line: Line): (r: Option<Mesh>)
    requires |m.geometry.colors| == |m.geometry.vertices|
    ensures r.Some? ==> |r.value.geometry.colors| == |r.value.geometry.vertices|
  {
    if !IsPolygon(line) then Some(m.(geometry := Declare(m.geometry, line)))
    else if !LegalFace(line.corners, m.geometry) then None
    else Some(AddFace(m, line.corners))
  }

  /** The mesh after these lines; None for the ValueError. */
  function Index(lines: seq<Line>): (r: Option<Mesh>)
    ensures r.Some? ==> |r.value.geometry.colors| == |r.value.geometry.vertices|
  {
    if lines == [] then Some(EMPTY)
    else
      match Index(lines[..|lines| - 1])
      case None => None
      case Some(m) => AddLine(m, lines[|lines| - 1])
  }

  // ---------------------------------------------------------------- what the packed arrays hold

  function Entry(flat: seq<real>, i: nat): Vec
    requires 3 * i + 3 <= |flat|
  {
    Vec(flat[3 * i], flat[3 * i + 1], flat[3 * i + 2])
  }

  predicate ArraysFit(m: Mesh) {
    |m.positions| == |m.normals| == |m.colors| == 3 * |m.unique|
  }

  /** What a reader of the three arrays finds under an index. */
  function Lookup(m: Mesh, i: nat): Attributes
    requires ArraysFit(m) && i < |m.unique|
  {
    Attributes(Entry(m.positions, i), Entry(m.normals, i), Entry(m.colors, i))
  }

  predicate InRange(indices: seq<nat>, count: nat) {
    forall k :: 0 <= k < |indices| ==> indices[k] < count
  }

  function Expand(m: Mesh, indices: seq<nat>): (soup: seq<Attributes>)
    requires ArraysFit(m) && InRange(indices, |m.unique|)
    ensures |soup| == |indices|
    ensures forall k :: 0 <= k < |indices| ==> soup[k] == Lookup(m, indices[k])
  {
    seq(|indices|, k requires 0 <= k < |indices| => Lookup(m, indices[k]))
  }

  /** `keys` lists the keys of the dictionary by index, so that the two are inverse to each other. */
  ghost predicate Inverse(unique: map<Key, nat>, keys: seq<Key>) {
    && |keys| == |unique|
    && (forall key :: key in unique ==> unique[key] < |keys| && keys[unique[key]] == key)
    && (forall i :: 0 <= i < |keys| ==> keys[i] in unique && unique[keys[i]] == i)
  }

  /** What the reader keeps: indices and keys correspond one to one, and every entry holds what its key means. */
  ghost predicate Packed(m: Mesh, keys: seq<Key>) {
    && |m.geometry.colors| == |m.geometry.vertices|
    && ArraysFit(m)
    && Inverse(m.unique, keys)
    && (forall i :: 0 <= i < |keys| ==>
          IsKey(keys[i], m.geometry) && Lookup(m, i) == AttributesOf(keys[i], m.geometry))
  }

  lemma EntryOfAppend(flat: seq<real>, v: Vec, i: nat)
    requires 3 * i <= |flat|
    ensures 3 * i + 3 <= |flat| ==> Entry(flat + Flat(v), i) == Entry(flat, i)
    ensures 3 * i == |flat| ==> Entry(flat + Flat(v), i) == v
  {
  }

  lemma InverseGrows(unique: map<Key, nat>, keys: seq<Key>, key: Key)
    requires Inverse(unique, keys) && key !in unique
    ensures Inverse(unique[key := |unique|], keys + [key])
    ensures |unique[key := |unique|]| == |unique| + 1
  {
  }

  /** Old indices keep their meaning. */
  ghost predicate Extends(m: Mesh, next: Mesh) {
    && ArraysFit(m) && ArraysFit(next) && |m.unique| <= |next.unique|
    && (forall i :: 0 <= i < |m.unique| ==> Lookup(next, i) == Lookup(m, i))
  }

  lemma PackKeeps(m: Mesh, keys: seq<Key>, key: Key)
    requires Packed(m, keys) && IsKey(key, m.geometry) && key !in m.unique
    ensures Packed(Pack(m, key), keys + [key])
    ensures Extends(m, Pack(m, key))
    ensures Lookup(Pack(m, key), |m.unique|) == AttributesOf(key, m.geometry)
  {
    hide Entry, Flat, Inverse, AttributesOf;
    var next, all, a := Pack(m, key), keys + [key], AttributesOf(key, m.geometry);
    InverseGrows(m.unique, keys, key);
    InverseSizes(m.unique, keys);
    FlatLength(a.position);
    FlatLength(a.normal);
    FlatLength(a.color);
    forall i | 0 <= i < |all|
      ensures i < |keys| ==> Lookup(next, i) == Lookup(m, i)
      ensures i == |keys| ==> Lookup(next, i) == a
    {
      EntryOfAppend(m.positions, a.position, i);
      EntryOfAppend(m.normals, a.normal, i);
      EntryOfAppend(m.colors, a.color, i);
    }
  }

  lemma InverseSizes(unique: map<Key, nat>, keys: seq<Key>)
    requires Inverse(unique, keys)
    ensures |keys| == |unique|
  {
  }

  lemma FlatLength(v: Vec)
    ensures |Flat(v)| == 3
  {
  }

  lemma AddCornerKeeps(m: Mesh, keys: seq<Key>, c: Corner) returns (keys': seq<Key>)
    requires Packed(m, keys) && IsKey(KeyOf(c, m.geometry), m.geometry)
    ensures var (next, index) := AddCorner(m, c);
            && Packed(next, keys') && Extends(m, next)
            && index < |next.unique| && Lookup(next, index) == AttributesOf(KeyOf(c, m.geometry), m.geometry)
  {
    var key := KeyOf(c, m.geometry);
    if key in m.unique {
      assert keys[m.unique[key]] == key;
      keys' := keys;
    } else {
      PackKeeps(m, keys, key);
      keys' := keys + [key];
      InverseGrows(m.unique, keys, key);
    }
  }

  lemma ExtendsExpand(m: Mesh, next: Mesh, indices: seq<nat>)
    requires Extends(m, next) && InRange(indices, |m.unique|)
    ensures ArraysFit(m) && ArraysFit(next)
    ensures InRange(indices, |next.unique|)
    ensures Expand(next, indices) == Expand(m, indices)
  {
    hide Lookup;
  }

  lemma ExtendsTransitive(a: Mesh, b: Mesh, c: Mesh)
    requires Extends(a, b) && Extends(b, c)
    ensures Extends(a, c)
  {
    hide Lookup;
  }

  lemma ExpandAppend(m: Mesh, xs: seq<nat>, ys: seq<nat>)
    requires ArraysFit(m) && InRange(xs, |m.unique|) && InRange(ys, |m.unique|)
    ensures InRange(xs + ys, |m.unique|)
    ensures Expand(m, xs + ys) == Expand(m, xs) + Expand(m, ys)
  {
    hide Lookup;
  }

  lemma DrawnAppend(corners: seq<Corner>, g: Geometry)
    requires corners != [] && LegalFace(corners, g) && |g.colors| == |g.vertices|
    ensures Drawn(corners, g)
            == Drawn(corners[..|corners| - 1], g) + [AttributesOf(KeyOf(corners[|corners| - 1], g), g)]
  {
    hide AttributesOf, KeyOf, IsKey;
  }

  lemma {:induction false} AddCornersKeeps(m: Mesh, keys: seq<Key>, corners: seq<Corner>) returns (keys': seq<Key>)
    requires Packed(m, keys) && LegalFace(corners, m.geometry)
    ensures var (next, polygon) := AddCorners(m, corners);
            && Packed(next, keys') && Extends(m, next)
            && InRange(polygon, |next.unique|)
            && Expand(next, polygon) == Drawn(corners, m.geometry)
    decreases |corners|
  {
    hide Inverse, Lookup, AttributesOf, AddCorner, Pack, IsKey, KeyOf;
    if corners == [] {
      keys' := keys;
    } else {
      var init, last := corners[..|corners| - 1], corners[|corners| - 1];
      keys' := AddCornersKeeps(m, keys, init);
      var (before, polygon) := AddCorners(m, init);
      var (after, index) := AddCorner(before, last);
      keys' := AddCornerKeeps(before, keys', last);
      ExtendsExpand(before, after, polygon);
      ExtendsTransitive(m, before, after);
      ExpandAppend(after, polygon, [index]);
      DrawnAppend(corners, m.geometry);
      assert Expand(after, [index]) == [AttributesOf(KeyOf(last, m.geometry), m.geometry)];
    }
  }

  lemma {:induction false} ExpandFan(m: Mesh, polygon: seq<nat>, n: nat)
    requires ArraysFit(m) && InRange(polygon, |m.unique|)
    requires n == 0 || n + 2 <= |polygon|
    ensures InRange(Fan(polygon, n), |m.unique|)
    ensures Expand(m, Fan(polygon, n)) == Fan(Expand(m, polygon), n)
  {
    hide Lookup;
    if n > 0 {
      ExpandFan(m, polygon, n - 1);
      ExpandAppend(m, Fan(polygon, n - 1), [polygon[0], polygon[n], polygon[n + 1]]);
    }
  }

  // ---------------------------------------------------------------- whole files

  lemma KeyStable(key: Key, g: Geometry, line: Line)
    requires IsKey(key, g) && |g.colors| == |g.vertices|
    ensures IsKey(key, Declare(g, line)) && |Declare(g, line).colors| == |Declare(g, line).vertices|
    ensures AttributesOf(key, Declare(g, line)) == AttributesOf(key, g)
  {
  }

  /** A declaration changes no vertex or normal an entry was packed from. */
  lemma DeclareKeeps(m: Mesh, keys: seq<Key>, line: Line)
    requires Packed(m, keys)
    ensures Packed(m.(geometry := Declare(m.geometry, line)), keys)
    ensures Extends(m, m.(geometry := Declare(m.geometry, line)))
  {
    hide IsKey, AttributesOf, Inverse, Entry;
    var next := m.(geometry := Declare(m.geometry, line));
    InverseSizes(m.unique, keys);
    forall i | 0 <= i < |keys|
      ensures IsKey(keys[i], next.geometry) && Lookup(next, i) == AttributesOf(keys[i], next.geometry)
    {
      KeyStable(keys[i], m.geometry, line);
    }
  }

  /** The faces of one material, drawn from the packed arrays, are its triangles. */
  ghost predicate Shows(m: Mesh, material: string, soup: seq<Attributes>) {
    ArraysFit(m) && InRange(FacesOf(m, material), |m.unique|) && Expand(m, FacesOf(m, material)) == soup
  }

  lemma ExtendsShows(m: Mesh, next: Mesh, material: string, soup: seq<Attributes>)
    requires Extends(m, next) && Shows(m, material, soup) && FacesOf(next, material) == FacesOf(m, material)
    ensures Shows(next, material, soup)
  {
    ExtendsExpand(m, next, FacesOf(m, material));
  }

  /** Appending the corners of a fan to the faces appends its triangles. */
  lemma AppendShows(packed: Mesh, next: Mesh, before: seq<nat>, fan: seq<nat>, soup: seq<Attributes>,
                    drawn: seq<Attributes>)
    requires Extends(packed, next) && InRange(before, |packed.unique|) && InRange(fan, |packed.unique|)
    requires Expand(packed, before) == soup && Expand(packed, fan) == drawn
    ensures InRange(before + fan, |next.unique|) && Expand(next, before + fan) == soup + drawn
  {
    hide Lookup, Expand;
    ExtendsExpand(packed, next, before);
    ExtendsExpand(packed, next, fan);
    ExpandAppend(next, before, fan);
  }

  lemma FacesAfter(m: Mesh, corners: seq<Corner>, material: string)
    requires |m.geometry.colors| == |m.geometry.vertices| && LegalFace(corners, m.geometry) && |corners| >= 3
    ensures FacesOf(AddFace(m, corners), material)
            == if m.geometry.material == material
               then FacesOf(m, material) + Fan(AddCorners(m, corners).1, |corners| - 2)
               else FacesOf(m, material)
  {
    hide AddCorners, Fan, LegalFace;
  }

  lemma AddFaceArrays(m: Mesh, corners: seq<Corner>)
    requires |m.geometry.colors| == |m.geometry.vertices| && LegalFace(corners, m.geometry) && |corners| >= 3
    requires ArraysFit(AddCorners(m, corners).0)
    ensures Extends(AddCorners(m, corners).0, AddFace(m, corners))
  {
    hide AddCorners, Fan, LegalFace;
    SameArrays(AddCorners(m, corners).0, AddFace(m, corners));
  }

  /** The fan of a new face, in the indices of the mesh it is packed into. */
  lemma NewFan(m: Mesh, keys: seq<Key>, corners: seq<Corner>)
    requires Packed(m, keys) && LegalFace(corners, m.geometry) && |corners| >= 3
    ensures |m.geometry.colors| == |m.geometry.vertices|
    ensures var (packed, polygon) := AddCorners(m, corners);
            && Extends(m, packed) && Extends(packed, AddFace(m, corners))
            && ArraysFit(packed)
            && var fan := Fan(polygon, |corners| - 2);
               InRange(fan, |packed.unique|)
               && Expand(packed, fan) == Fan(Drawn(corners, m.geometry), |corners| - 2)
  {
    hide Packed, Lookup, Extends, ArraysFit, AddCorners, AddFace, InRange, LegalFace, Fan, Expand, Drawn;
    PackedFits(m, keys);
    var keys' := AddCornersKeeps(m, keys, corners);
    var (packed, polygon) := AddCorners(m, corners);
    PackedFits(packed, keys');
    AddFaceArrays(m, corners);
    ExpandFan(packed, polygon, |corners| - 2);
  }

  lemma AddFaceShows(m: Mesh, keys: seq<Key>, corners: seq<Corner>, material: string, soup: seq<Attributes>)
    requires Packed(m, keys) && LegalFace(corners, m.geometry) && |corners| >= 3
    requires Shows(m, material, soup)
    ensures |m.geometry.colors| == |m.geometry.vertices|
    ensures Shows(AddFace(m, corners), material,
                  if m.geometry.material == material
                  then soup + Fan(Drawn(corners, m.geometry), |corners| - 2) else soup)
  {
    hide Packed, Lookup, Extends, ArraysFit, AddCorners, AddFace, InRange, LegalFace, Fan, Expand, Drawn, FacesOf;
    NewFan(m, keys, corners);
    var (packed, polygon) := AddCorners(m, corners);
    var next, before := AddFace(m, corners), FacesOf(m, material);
    ExtendsFits(packed, next);
    ExtendsExpand(m, packed, before);
    FacesAfter(m, corners, material);
    if m.geometry.material == material {
      AppendShows(packed, next, before, Fan(polygon, |corners| - 2), soup,
                  Fan(Drawn(corners, m.geometry), |corners| - 2));
    } else {
      ExtendsExpand(packed, next, before);
    }
  }

  lemma ExtendsFits(m: Mesh, next: Mesh)
    requires Extends(m, next)
    ensures ArraysFit(next)
  {
  }

  lemma SameArrays(m: Mesh, next: Mesh)
    requires ArraysFit(m)
    requires next == m.(faces := next.faces, materials := next.materials)
    ensures Extends(m, next)
  {
  }

  lemma PackedFits(m: Mesh, keys: seq<Key>)
    requires Packed(m, keys)
    ensures ArraysFit(m) && |m.geometry.colors| == |m.geometry.vertices|
  {
  }

  /** The materials listed are those with faces, each once, and each has at least one triangle. */
  ghost predicate ListsMaterials(m: Mesh) {
    && (forall name :: name in m.faces <==> name in m.materials)
    && (forall i, j :: 0 <= i < j < |m.materials| ==> m.materials[i] != m.materials[j])
    && (forall name :: name in m.faces ==> |m.faces[name]| >= 3)
  }

  lemma AddFaceLists(m: Mesh, corners: seq<Corner>)
    requires |m.geometry.colors| == |m.geometry.vertices|
    requires LegalFace(corners, m.geometry) && |corners| >= 3 && ListsMaterials(m)
    ensures ListsMaterials(AddFace(m, corners))
  {
    hide AddCorners, Fan;
  }

  /** The reader accepts exactly the legal files, and then its indices and keys correspond one to one, every index is
      in range, and its indexed faces show exactly the triangles of the file, material by material. */
  lemma {:induction false} IndexedMeshIsTheSoup(lines: seq<Line>) returns (keys: seq<Key>)
    ensures Index(lines).Some? <==> Legal(lines)
    ensures Legal(lines) ==>
              var m := Index(lines).value;
              && m.geometry == GeometryOf(lines)
              && Packed(m, keys) && ListsMaterials(m)
              && (forall material :: Shows(m, material, Triangles(lines, material)))
    decreases |lines|
  {
    hide Packed, Shows, ListsMaterials, Expand, AddFace, LegalFace, Fan, Drawn;
    if lines == [] {
      keys := [];
      EmptyIsPacked();
    } else {
      var before, line := lines[..|lines| - 1], lines[|lines| - 1];
      keys := IndexedMeshIsTheSoup(before);
      if Legal(before) {
        var m := Index(before).value;
        if Legal(lines) {
          keys := AddLineKeeps(before, m, keys, line);
          assert before + [line] == lines;
        }
      }
    }
  }

  lemma EmptyIsPacked()
    ensures Packed(EMPTY, []) && ListsMaterials(EMPTY)
    ensures forall material :: Shows(EMPTY, material, [])
  {
  }

  lemma AddLineKeeps(before: seq<Line>, m: Mesh, keys: seq<Key>, line: Line) returns (keys': seq<Key>)
    requires Legal(before + [line]) && Legal(before) && m.geometry == GeometryOf(before)
    requires Packed(m, keys) && ListsMaterials(m)
    requires forall material :: Shows(m, material, Triangles(before, material))
    ensures var r := AddLine(m, line);
            && r.Some? && r.value.geometry == GeometryOf(before + [line])
            && Packed(r.value, keys') && ListsMaterials(r.value)
            && (forall material :: Shows(r.value, material, Triangles(before + [line], material)))
  {
    hide Packed, Shows, ListsMaterials, Expand, AddFace, LegalFace, Fan, Drawn, Extends, AddCorners, Lookup;
    PackedFits(m, keys);
    assert (before + [line])[..|before|] == before;
    var next := AddLine(m, line).value;
    if IsPolygon(line) {
      keys' := AddCornersKeeps(m, keys, line.corners);
      AddFacePacked(m, line.corners, keys');
      AddFaceLists(m, line.corners);
      forall material
        ensures Shows(next, material, Triangles(before + [line], material))
      {
        AddFaceShows(m, keys, line.corners, material, Triangles(before, material));
        assert Triangles(before, material) + [] == Triangles(before, material);
      }
    } else {
      keys' := keys;
      DeclareKeeps(m, keys, line);
      SameFacesList(m, next);
      forall material
        ensures Shows(next, material, Triangles(before + [line], material))
      {
        ExtendsShows(m, next, material, Triangles(before, material));
        assert Triangles(before, material) + [] == Triangles(before, material);
      }
    }
  }

  lemma AddFacePacked(m: Mesh, corners: seq<Corner>, keys: seq<Key>)
    requires |m.geometry.colors| == |m.geometry.vertices| && LegalFace(corners, m.geometry) && |corners| >= 3
    requires Packed(AddCorners(m, corners).0, keys)
    ensures Packed(AddFace(m, corners), keys) && AddFace(m, corners).geometry == m.geometry
  {
    hide AddCorners, AttributesOf, Inverse;
    var packed, next := AddCorners(m, corners).0, AddFace(m, corners);
    SameArrays(packed, next);
  }

  lemma SameFacesList(m: Mesh, next: Mesh)
    requires ListsMaterials(m) && next.faces == m.faces && next.materials == m.materials
    ensures ListsMaterials(next)
  {
  }

  // ---------------------------------------------------------------- the reader

  lemma IndexLists(lines: seq<Line>)
    requires Index(lines).Some?
    ensures ListsMaterials(Index(lines).value) && |Index(lines).value.positions| % 3 == 0
  {
    hide Packed, Shows, ListsMaterials, Index, Legal;
    var keys := IndexedMeshIsTheSoup(lines);
    PackedFits(Index(lines).value, keys);
  }

  /** What the reader returns: it also refuses a file without faces. */
  function Convert(lines: seq<Line>): (r: Option<Mesh>)
    ensures r.Some? ==> ListsMaterials(r.value) && r.value.positions != [] && |r.value.positions| % 3 == 0
  {
    match Index(lines)
    case None => None
    case Some(m) =>
      IndexLists(lines);
      if m.positions == [] || (forall name :: name in m.faces ==> m.faces[name] == []) then None else Some(m)
  }

  /** The triangles of one polygon, appended to the index list of its material. */
  method ExtendFaces(faces: map<string, seq<nat>>, materials: seq<string>, material: string, polygon: seq<nat>)
      returns (faces': map<string, seq<nat>>, materials': seq<string>)
    requires |polygon| >= 3
    ensures faces' == faces[material := (if material in faces then faces[material] else []) + Fan(polygon, |polygon| - 2)]
    ensures materials' == if material in faces then materials else materials + [material]
  {
    faces', materials' := faces, materials;
    if material !in faces {
      faces' := faces'[material := []];
      materials' := materials' + [material];
    }
    ghost var before := faces'[material];
    assert before + Fan(polygon, 0) == before;
    for i := 1 to |polygon| - 1
      invariant material in faces'
      invariant faces' == faces[material := before + Fan(polygon, i - 1)]
    {
      faces' := faces'[material := faces'[material] + [polygon[0], polygon[i], polygon[i + 1]]];
      assert before + Fan(polygon, i) == (before + Fan(polygon, i - 1)) + [polygon[0], polygon[i], polygon[i + 1]];
    }
  }

  /** One face token: resolve its two numbers, and pack the pair unless it has an index already. */
  method ReadCorner(m: Mesh, c: Corner) returns (r: Option<(Mesh, nat)>)
    requires |m.geometry.colors| == |m.geometry.vertices|
    ensures r == if IsKey(KeyOf(c, m.geometry), m.geometry) then Some(AddCorner(m, c)) else None
  {
    hide Flat, Turned;
    var g := m.geometry;
    var vertex := if c.vertex > 0 then c.vertex - 1 else |g.vertices| + c.vertex;
    var normal := if c.normal > 0 then c.normal - 1 else if c.normal < 0 then |g.normals| + c.normal else -1;
    if !(0 <= vertex < |g.vertices|) || normal >= |g.normals| {
      return None;
    }
    if (vertex, normal) in m.unique {
      return Some((m, m.unique[(vertex, normal)]));
    }
    var index := |m.unique|;
    var facing := if normal >= 0 then g.normals[normal] else Vec(0.0, 0.0, 1.0);
    var next := m.(unique := m.unique[(vertex, normal) := index],
                   positions := m.positions + Flat(Turned(g.vertices[vertex])),
                   normals := m.normals + Flat(Turned(facing)), colors := m.colors + Flat(g.colors[vertex]));
    r := Some((next, index));
  }

  /** A face line: number its corners and append the fan to the faces of its material. */
  method ReadFace(m: Mesh, corners: seq<Corner>) returns (r: Option<Mesh>)
    requires |m.geometry.colors| == |m.geometry.vertices| && |corners| >= 3
    ensures r == if LegalFace(corners, m.geometry) then Some(AddFace(m, corners)) else None
  {
    hide Fan, AddCorner, IsKey, KeyOf;
    var packed, polygon: seq<nat> := m, [];
    for k := 0 to |corners|
      invariant packed.geometry == m.geometry && LegalFace(corners[..k], m.geometry) && |polygon| == k
      invariant AddCorners(m, corners[..k]) == (packed, polygon)
    {
      assert corners[..k + 1][..k] == corners[..k];
      var next := ReadCorner(packed, corners[k]);
      if next.None? {
        return None;
      }
      packed, polygon := next.value.0, polygon + [next.value.1];
    }
    assert corners[..|corners|] == corners;
    var faces, materials := ExtendFaces(packed.faces, packed.materials, m.geometry.material, polygon);
    r := Some(packed.(faces := faces, materials := materials));
  }

  /** Every line is one step of Index; the lists and dictionaries grow in place. */
  method ReadObj(lines: seq<Line>) returns (r: Option<Mesh>)
    ensures r == Convert(lines)
  {
    hide AddFace, LegalFace;
    var m := EMPTY;
    for n := 0 to |lines|
      invariant Index(lines[..n]) == Some(m)
      invariant |m.geometry.colors| == |m.geometry.vertices|
    {
      assert lines[..n + 1][..n] == lines[..n];
      match lines[n] {
        case Position(at, color) =>
          m := m.(geometry := m.geometry.(vertices := m.geometry.vertices + [at], colors := m.geometry.colors + [color]));
        case Normal(unit) =>
          m := m.(geometry := m.geometry.(normals := m.geometry.normals + [unit]));
        case UseMaterial(name) =>
          m := m.(geometry := m.geometry.(material := name));
        case Face(corners) =>
          if |corners| >= 3 {
            var next := ReadFace(m, corners);
            if next.None? {
              StaysRefused(lines, n + 1);
              return None;
            }
            m := next.value;
          }
        case Ignored =>
      }
    }
    assert lines[..|lines|] == lines;
    if m.positions == [] || forall name :: name in m.faces ==> m.faces[name] == [] {
      return None;
    }
    r := Some(m);
  }

  lemma {:induction false} StaysRefused(lines: seq<Line>, n: nat)
    requires n <= |lines| && Index(lines[..n]).None?
    ensures Index(lines).None?
    decreases |lines|
  {
    if n < |lines| {
      assert lines[..|lines| - 1][..n] == lines[..n];
      StaysRefused(lines[..|lines| - 1], n);
    } else {
      assert lines[..n] == lines;
    }
  }

  /** The conversion succeeds exactly for the legal files that have a face. */
  lemma AcceptedExactly(lines: seq<Line>)
    ensures Convert(lines).Some? <==> Legal(lines) && exists n :: 0 <= n < |lines| && IsPolygon(lines[n])
  {
    hide Packed, Shows, Index, Legal;
    var keys := IndexedMeshIsTheSoup(lines);
    if Legal(lines) {
      var m := Index(lines).value;
      FacesFromPolygons(lines);
      PositionsFromFaces(m, keys, lines);
    }
  }

  lemma {:induction false} FacesFromPolygons(lines: seq<Line>)
    requires Index(lines).Some?
    ensures Index(lines).value.faces != map[] <==> exists n :: 0 <= n < |lines| && IsPolygon(lines[n])
    decreases |lines|
  {
    hide AddCorners, LegalFace, Fan;
    if lines != [] {
      var before := lines[..|lines| - 1];
      FacesFromPolygons(before);
      var m, next := Index(before).value, Index(lines).value;
      if IsPolygon(lines[|lines| - 1]) {
        assert m.geometry.material in next.faces;
      } else {
        assert next.faces == m.faces;
        if n :| 0 <= n < |lines| && IsPolygon(lines[n]) {
          assert before[n] == lines[n];
        }
      }
      assert forall n :: 0 <= n < |before| ==> before[n] == lines[n];
    }
  }

  lemma PositionsFromFaces(m: Mesh, keys: seq<Key>, lines: seq<Line>)
    requires Legal(lines) && Index(lines) == Some(m) && Packed(m, keys) && ListsMaterials(m)
    requires forall material :: Shows(m, material, Triangles(lines, material))
    ensures m.faces == map[] || (m.positions != [] && exists name :: name in m.faces && m.faces[name] != [])
  {
    if m.faces != map[] {
      var name :| name in m.faces;
      assert Shows(m, name, Triangles(lines, name));
      assert m.faces[name][0] < |m.unique|;
    }
  }
}
