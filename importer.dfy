/**
 * The whole import: read the header row, run the row loop over the data rows,
 * zero-fill the two dictionaries and list their values by ascending key. The
 * result is what would be handed to the mesh builder, or the error that aborts
 * the import before any mesh exists.
 */
module Importer {
  import opened PixTypes
  import Header
  import Rows
  import Fill
  import KeyOrder

  /** The indices the two dictionaries hold after the zero-fill, when `present` are the indices the rows stored. */
  ghost function FilledKeys(present: set<int>): set<int>
  {
    present + Below(|present|)
  }

  /** The indices of `range(n)`. */
  ghost function Below(n: nat): (r: set<int>)
    ensures forall i :: i in r <==> 0 <= i < n
  {
    if n == 0 then {} else Below(n - 1) + {n - 1}
  }

  /** After the row loop: zero-fill up to the number of distinct indices, then list both dictionaries by key. */
  function Finish(s: Rows.Stream): Mesh
  {
    var n := |s.positions|;
    var vertexDict := Fill.ZeroFilled(s.positions, s.positions.Keys, n);
    var normalDict := Fill.ZeroFilled(s.normals, s.positions.Keys, n);
    Mesh(KeyOrder.Dense(vertexDict), s.faces, KeyOrder.Dense(normalDict), s.uvs)
  }

  /**
   * One call of the importer on `file`, the rows of the CSV file, or None when
   * no file path is given. The first row is the header; every later row is a
   * data row.
   */
  function Import(file: Option<seq<Row>>, mirrorX: bool, vertexOrder: bool,
                  parseInt: string -> Option<int>, parseNum: string -> Option<real>): (r: Outcome)
    ensures r.NoFile? <==> file.None?
    ensures file == Some([]) ==> r == Aborted(EmptyInput)
  {
    match file
    case None => NoFile
    case Some(lines) =>
      if lines == [] then Aborted(EmptyInput)
      else match Header.HeaderMap(lines[0])
        case Err(e) => Aborted(e)
        case Ok(columns) =>
          match Rows.ReadAll(lines[1..], columns, mirrorX, vertexOrder, parseInt, parseNum)
          case Err(e) => Aborted(e)
          case Ok(stream) => Imported(Finish(stream))
  }

  /** The importer, step by step: header, row loop, zero-fill, and the two listings by key. */
  method ImportCsv(file: Option<seq<Row>>, mirrorX: bool, vertexOrder: bool,
                   parseInt: string -> Option<int>, parseNum: string -> Option<real>) returns (r: Outcome)
    ensures r == Import(file, mirrorX, vertexOrder, parseInt, parseNum)
  {
    if file.None? {
      return NoFile;
    }
    var lines := file.value;
    if lines == [] {
      return Aborted(EmptyInput);
    }
    var header := Header.ReadHeader(lines[0]);
    if header.Err? {
      return Aborted(header.error);
    }
    var stream := Rows.ReadRows(lines[1..], header.value, mirrorX, vertexOrder, parseInt, parseNum);
    if stream.Err? {
      return Aborted(stream.error);
    }
    var s := stream.value;
    var vertexDict, normalDict := Fill.FillMissing(s.positions, s.normals);
    var vertices := KeyOrder.ValuesInKeyOrder(vertexDict);
    var normals := KeyOrder.ValuesInKeyOrder(normalDict);
    return Imported(Mesh(vertices, s.faces, normals, s.uvs));
  }

  /**
   * The lists built from a row-loop result whose dictionaries hold the same
   * indices: vertices and normals have one entry per index of FilledKeys, in
   * ascending index order; an index the rows stored keeps its position and
   * normal, an index the fill added has the origin in both; faces and UV
   * triples pass through unchanged.
   */
  lemma FinishFacts(s: Rows.Stream)
    requires s.positions.Keys == s.normals.Keys
    ensures var m := Finish(s);
      && |m.vertices| == |m.normals| == |FilledKeys(s.positions.Keys)|
      && m.faces == s.faces && m.uvs == s.uvs
      && forall t :: 0 <= t < |m.vertices| ==>
           var k := KeyOrder.Ascending(FilledKeys(s.positions.Keys))[t];
           && (k in s.positions ==> m.vertices[t] == s.positions[k] && m.normals[t] == s.normals[k])
           && (k !in s.positions ==> m.vertices[t] == Origin && m.normals[t] == Origin)
  {
    var n := |s.positions|;
    var vertexDict := Fill.ZeroFilled(s.positions, s.positions.Keys, n);
    var normalDict := Fill.ZeroFilled(s.normals, s.positions.Keys, n);
    Fill.ZeroFillFacts(s.positions, s.normals);
    assert vertexDict.Keys == FilledKeys(s.positions.Keys) by {
      forall k ensures k in vertexDict.Keys <==> k in FilledKeys(s.positions.Keys) {
      }
    }
    KeyOrder.SameKeysAligned(vertexDict, normalDict);
  }

  /**
   * A successful import: the header parsed, every data row decoded (corner j
   * from data row j), and the mesh is the row-loop result finished. There are
   * floor(data rows / 3) faces and as many UV triples, face f built from data
   * rows 3f, 3f+1, 3f+2 (reversed when `vertexOrder`), UV triple f in row
   * order; and vertices and normals have the same length, one per index that
   * is stored or lies below the number of distinct stored indices.
   */
  lemma ImportedShape(lines: seq<Row>, mirrorX: bool, vertexOrder: bool,
                      parseInt: string -> Option<int>, parseNum: string -> Option<real>)
    requires Import(Some(lines), mirrorX, vertexOrder, parseInt, parseNum).Imported?
    ensures lines != [] && Header.HeaderMap(lines[0]).Ok?
    ensures var rows := lines[1..];
      var columns := Header.HeaderMap(lines[0]).value;
      var decoded := Rows.DecodeAll(rows, columns, mirrorX, parseInt, parseNum);
      && decoded.Ok?
      && |decoded.value| == |rows|
      && (forall j :: 0 <= j < |rows| ==> Rows.DecodeRow(rows[j], j, columns, mirrorX, parseInt, parseNum) == Ok(decoded.value[j]))
      && var corners := decoded.value;
         var m := Import(Some(lines), mirrorX, vertexOrder, parseInt, parseNum).mesh;
         && m == Finish(Rows.Collect(corners, vertexOrder))
         && |m.faces| == |m.uvs| == |rows| / 3
         && (forall f :: 0 <= f < |rows| / 3 ==>
               && m.faces[f] == Rows.MakeFace(corners[3 * f].vertex, corners[3 * f + 1].vertex, corners[3 * f + 2].vertex, vertexOrder)
               && m.uvs[f] == Tri(corners[3 * f].uv, corners[3 * f + 1].uv, corners[3 * f + 2].uv))
         && |m.vertices| == |m.normals| == |FilledKeys(Rows.Named(corners))|
  {
    var rows := lines[1..];
    var columns := Header.HeaderMap(lines[0]).value;
    Rows.DecodePrefixValues(rows, |rows|, columns, mirrorX, parseInt, parseNum);
    var corners := Rows.DecodeAll(rows, columns, mirrorX, parseInt, parseNum).value;
    Rows.Grouping(corners, vertexOrder);
    Rows.StoredKeys(corners);
    FinishFacts(Rows.Collect(corners, vertexOrder));
  }

  /**
   * An import aborts exactly when the file is empty, a header cell from
   * column 2 on has no space, or the header is fine and some data row cannot
   * be decoded. A trailing group of one or two rows is no reason to abort.
   */
  lemma AbortedWhen(lines: seq<Row>, mirrorX: bool, vertexOrder: bool,
                    parseInt: string -> Option<int>, parseNum: string -> Option<real>)
    ensures Import(Some(lines), mirrorX, vertexOrder, parseInt, parseNum).Aborted? <==>
      || lines == []
      || (exists k :: 2 <= k < |lines[0]| && ' ' !in lines[0][k])
      || (&& Header.HeaderMap(lines[0]).Ok?
          && exists j :: 0 <= j < |lines| - 1 &&
               Rows.DecodeRow(lines[1..][j], j, Header.HeaderMap(lines[0]).value, mirrorX, parseInt, parseNum).Err?)
  {
    if lines != [] {
      var header := lines[0];
      Header.HeaderFails(header, 0);
      match Header.HeaderMap(header)
      case Err(_) =>
      case Ok(columns) =>
        Rows.DecodePrefixOk(lines[1..], |lines| - 1, columns, mirrorX, parseInt, parseNum);
    }
  }

  /**
   * An attribute the row loop reads that no header cell names aborts the
   * import as soon as there is one data row.
   */
  lemma MissingColumnAborts(lines: seq<Row>, name: string, mirrorX: bool, vertexOrder: bool,
                            parseInt: string -> Option<int>, parseNum: string -> Option<real>)
    requires |lines| >= 2 && Header.HeaderMap(lines[0]).Ok?
    requires name in Rows.Attributes
    requires forall k :: 2 <= k < |lines[0]| ==> Header.ColumnName(lines[0][k]) != Some(name)
    ensures Import(Some(lines), mirrorX, vertexOrder, parseInt, parseNum).Aborted?
  {
    var header := lines[0];
    var columns := Header.HeaderMap(header).value;
    Header.HeaderLookup(header, name);
    assert name !in columns;
    var row := lines[1..][0];
    Rows.DecodedCorner(row, 0, columns, mirrorX, parseInt, parseNum);
    AbortedWhen(lines, mirrorX, vertexOrder, parseInt, parseNum);
  }

  /** With a header and no data rows nothing is looked up: the import succeeds with four empty lists. */
  lemma HeaderOnly(header: Row, mirrorX: bool, vertexOrder: bool,
                   parseInt: string -> Option<int>, parseNum: string -> Option<real>)
    requires Header.HeaderMap(header).Ok?
    ensures Import(Some([header]), mirrorX, vertexOrder, parseInt, parseNum) == Imported(Mesh([], [], [], []))
  {
    var columns := Header.HeaderMap(header).value;
    assert [header][1..] == [];
    assert Rows.ReadAll([], columns, mirrorX, vertexOrder, parseInt, parseNum) == Ok(Rows.Stream(map[], map[], [], []));
    assert KeyOrder.Ascending({}) == [];
  }

  /**
   * The lists for a row-loop result are `vertices` and `normals` when `ks`
   * lists the indices after the fill in increasing order and each entry is
   * the stored value of its index, or the origin for an index the fill added.
   */
  lemma FinishListing(s: Rows.Stream, ks: seq<int>, vertices: seq<Vec3>, normals: seq<Vec3>)
    requires s.positions.Keys == s.normals.Keys
    requires KeyOrder.Increasing(ks)
    requires forall k :: k in ks <==> k in FilledKeys(s.positions.Keys)
    requires |vertices| == |ks| && |normals| == |ks|
    requires forall t :: 0 <= t < |ks| && ks[t] in s.positions ==>
               s.positions[ks[t]] == vertices[t] && s.normals[ks[t]] == normals[t]
    requires forall t :: 0 <= t < |ks| && ks[t] !in s.positions ==> vertices[t] == Origin && normals[t] == Origin
    ensures Finish(s).vertices == vertices && Finish(s).normals == normals
  {
    var n := |s.positions|;
    var vertexDict := Fill.ZeroFilled(s.positions, s.positions.Keys, n);
    var normalDict := Fill.ZeroFilled(s.normals, s.positions.Keys, n);
    Fill.ZeroFillFacts(s.positions, s.normals);
    forall k ensures k in ks <==> k in vertexDict {
      assert k in FilledKeys(s.positions.Keys) <==> k in s.positions || 0 <= k < n;
    }
    forall t | 0 <= t < |ks|
      ensures ks[t] in vertexDict && vertexDict[ks[t]] == vertices[t]
      ensures ks[t] in normalDict && normalDict[ks[t]] == normals[t]
    {
      assert ks[t] in ks;
    }
    KeyOrder.DenseListing(vertexDict, ks, vertices);
    KeyOrder.DenseListing(normalDict, ks, normals);
  }

  /** Indices {0, 5}: the fill covers range(2), so the indices afterwards are 0, 1 and 5. */
  lemma SparseFilledKeys()
    ensures forall k :: k in [0, 1, 5] <==> k in FilledKeys({0, 5})
  {
    assert |{0, 5}| == 2;
  }

  /** The row loop over rows with indices 0, 5, 5 (no mirroring of faces): index 5 keeps the later row. */
  lemma SparseStream(p: Vec3, q: Vec3, r: Vec3, np: Vec3, nq: Vec3, nr: Vec3, uv: Uv)
    ensures Rows.Collect([Corner(0, p, np, uv), Corner(5, q, nq, uv), Corner(5, r, nr, uv)], false) ==
              Rows.Stream(map[0 := p, 5 := r], map[0 := np, 5 := nr], [Tri(0, 5, 5)], [Tri(uv, uv, uv)])
  {
    var c0, c1, c2 := Corner(0, p, np, uv), Corner(5, q, nq, uv), Corner(5, r, nr, uv);
    var corners := [c0, c1, c2];
    assert corners[..2] == [c0, c1] && [c0, c1][..1] == [c0] && [c0][..0] == [];
    assert Rows.Positions([c0]) == map[0 := p];
    assert Rows.Positions([c0, c1]) == map[0 := p, 5 := q];
    assert Rows.Normals([c0]) == map[0 := np];
    assert Rows.Normals([c0, c1]) == map[0 := np, 5 := nq];
    assert corners[3..] == [];
    assert Rows.Faces(corners, false) == [Rows.MakeFace(0, 5, 5, false)] + Rows.Faces([], false);
    assert Rows.UvTriples(corners) == [Tri(uv, uv, uv)] + Rows.UvTriples([]);
  }

  /**
   * Rows with indices 0, 5, 5: two distinct indices, so the fill covers only
   * range(2) and adds index 1. The lists have three entries, index 5 keeps
   * the later row's values, and the one face refers to index 5, past the end
   * of the vertex list.
   */
  lemma SparseIndices(p: Vec3, q: Vec3, r: Vec3, np: Vec3, nq: Vec3, nr: Vec3, uv: Uv)
    ensures var corners := [Corner(0, p, np, uv), Corner(5, q, nq, uv), Corner(5, r, nr, uv)];
      var m := Finish(Rows.Collect(corners, false));
      && m.vertices == [p, Origin, r]
      && m.normals == [np, Origin, nr]
      && m.faces == [Tri(0, 5, 5)]
      && m.faces[0].third >= |m.vertices|
  {
    SparseStream(p, q, r, np, nq, nr, uv);
    var s := Rows.Stream(map[0 := p, 5 := r], map[0 := np, 5 := nr], [Tri(0, 5, 5)], [Tri(uv, uv, uv)]);
    assert s.positions.Keys == {0, 5} == s.normals.Keys;
    SparseFilledKeys();
    FinishListing(s, [0, 1, 5], [p, Origin, r], [np, Origin, nr]);
  }
}
