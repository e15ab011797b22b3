/**
 * The row loop of the importer: every data row is decoded into a corner (vertex
 * index, position with x optionally mirrored, normal, UV pair); positions and
 * normals go into dictionaries keyed by vertex index, where a later row for the
 * same index overwrites the earlier one; and every third row closes a face and
 * a UV triple. A trailing one or two rows never close a face.
 */
module Rows {
  import opened PixTypes

  const PositionX := "a_Position0.x"
  const PositionY := "a_Position0.y"
  const PositionZ := "a_Position0.z"
  const NormalX := "a_Normal0.x"
  const NormalY := "a_Normal0.y"
  const NormalZ := "a_Normal0.z"
  const TexU := "a_TexCoord0.x"
  const TexV := "a_TexCoord0.y"

  /** The attribute columns every data row is read through, in the order they are read. */
  const Attributes := [PositionX, PositionY, PositionZ, NormalX, NormalY, NormalZ, TexU, TexV]

  /** `row[header_dict[name]]`: KeyError when the name has no column, IndexError when the row is short. */
  function Cell(row: Row, j: nat, columns: Columns, name: string): (r: Result<string>)
    ensures r.Ok? <==> name in columns && columns[name] < |row|
    ensures r.Ok? ==> r.value == row[columns[name]]
    ensures name !in columns ==> r == Err(MissingColumn(name))
    ensures name in columns && columns[name] >= |row| ==> r == Err(ShortRow(j, columns[name]))
  {
    if name !in columns then Err(MissingColumn(name))
    else if columns[name] >= |row| then Err(ShortRow(j, columns[name]))
    else Ok(row[columns[name]])
  }

  /** The error of a failed lookup or conversion in data row `j`: a missing column, or a cell of row `j`. */
  predicate InRow(e: Error, j: nat)
  {
    e.MissingColumn? || ((e.ShortRow? || e.BadNumber?) && e.row == j)
  }

  /** `float(row[header_dict[name]])` in data row `j`: the lookup's error first, then ValueError for a rejected literal. */
  function Number(row: Row, j: nat, columns: Columns, name: string, parseNum: string -> Option<real>): (r: Result<real>)
    ensures r.Ok? <==> name in columns && columns[name] < |row| && parseNum(row[columns[name]]).Some?
    ensures r.Ok? ==> parseNum(row[columns[name]]) == Some(r.value)
    ensures name in columns && columns[name] < |row| && parseNum(row[columns[name]]).None? ==>
              r == Err(BadNumber(j, columns[name]))
    ensures r.Err? && !(name in columns && columns[name] < |row|) ==> r.error == Cell(row, j, columns, name).error
  {
    var text :- Cell(row, j, columns, name);
    match parseNum(text)
    case None => Err(BadNumber(j, columns[name]))
    case Some(x) => Ok(x)
  }

  /** `int(row[header_dict["VTX"]])` in data row `j`: the lookup's error first, then ValueError for a rejected literal. */
  function VertexIndex(row: Row, j: nat, columns: Columns, parseInt: string -> Option<int>): (r: Result<int>)
    ensures r.Ok? <==> "VTX" in columns && columns["VTX"] < |row| && parseInt(row[columns["VTX"]]).Some?
    ensures r.Ok? ==> parseInt(row[columns["VTX"]]) == Some(r.value)
    ensures "VTX" in columns && columns["VTX"] < |row| && parseInt(row[columns["VTX"]]).None? ==>
              r == Err(BadNumber(j, columns["VTX"]))
    ensures r.Err? && !("VTX" in columns && columns["VTX"] < |row|) ==> r.error == Cell(row, j, columns, "VTX").error
  {
    var text :- Cell(row, j, columns, "VTX");
    match parseInt(text)
    case None => Err(BadNumber(j, columns["VTX"]))
    case Some(v) => Ok(v)
  }

  /** The attribute cells `names` of data row `j` converted with `float()`, left to right. */
  function Numbers(row: Row, j: nat, columns: Columns, names: seq<string>,
                   parseNum: string -> Option<real>): (r: Result<seq<real>>)
    ensures r.Ok? ==> |r.value| == |names|
    ensures r.Err? ==> InRow(r.error, j)
  {
    if names == [] then Ok([])
    else
      var x :- Number(row, j, columns, names[0], parseNum);
      var rest :- Numbers(row, j, columns, names[1..], parseNum);
      Ok([x] + rest)
  }

  /**
   * One data row, read in the order the loop body reads it: the vertex index,
   * then position x (times -1 when mirroring), y, z, then the normal, then the
   * UV pair. The first lookup or conversion that fails is the error.
   */
  function DecodeRow(row: Row, j: nat, columns: Columns, mirrorX: bool,
                     parseInt: string -> Option<int>, parseNum: string -> Option<real>): (r: Result<Corner>)
    ensures r.Err? ==> InRow(r.error, j)
  {
    var vertex :- VertexIndex(row, j, columns, parseInt);
    var xMod: real := if mirrorX then -1.0 else 1.0;
    var n :- Numbers(row, j, columns, Attributes, parseNum);
    Ok(Corner(vertex, Vec3(xMod * n[0], n[1], n[2]), Vec3(n[3], n[4], n[5]), Uv(n[6], n[7])))
  }

  /** The header names a column for `name`, the row reaches it, and its text parses to `x`. */
  ghost predicate Holds(row: Row, columns: Columns, name: string, parseNum: string -> Option<real>, x: real)
  {
    name in columns && columns[name] < |row| && parseNum(row[columns[name]]) == Some(x)
  }

  /** The cells `names` convert exactly when each exists and parses; then value k is what cell k holds. */
  lemma {:induction false} NumbersRead(row: Row, j: nat, columns: Columns, names: seq<string>,
                                       parseNum: string -> Option<real>)
    ensures Numbers(row, j, columns, names, parseNum).Ok? <==>
              forall k :: 0 <= k < |names| ==>
                names[k] in columns && columns[names[k]] < |row| && parseNum(row[columns[names[k]]]).Some?
    ensures Numbers(row, j, columns, names, parseNum).Ok? ==>
              forall k :: 0 <= k < |names| ==>
                Holds(row, columns, names[k], parseNum, Numbers(row, j, columns, names, parseNum).value[k])
  {
    if names != [] {
      NumbersRead(row, j, columns, names[1..], parseNum);
      assert forall k :: 1 <= k < |names| ==> names[1..][k - 1] == names[k];
    }
  }

  /** Cell `names[k]` is the first of `names` whose conversion fails, and it fails with `e`. */
  ghost predicate FirstBadNumber(row: Row, j: nat, columns: Columns, names: seq<string>,
                                 parseNum: string -> Option<real>, k: nat, e: Error)
    requires k < |names|
  {
    && Number(row, j, columns, names[k], parseNum) == Err(e)
    && forall i :: 0 <= i < k ==> Number(row, j, columns, names[i], parseNum).Ok?
  }

  /** The cells `names` fail with `e` exactly when `e` is the error of the first cell, in read order, that fails. */
  lemma {:induction false} NumbersErr(row: Row, j: nat, columns: Columns, names: seq<string>,
                                      parseNum: string -> Option<real>, e: Error)
    ensures Numbers(row, j, columns, names, parseNum) == Err(e) <==>
              exists k :: 0 <= k < |names| && FirstBadNumber(row, j, columns, names, parseNum, k, e)
  {
    if names != [] {
      var rest := names[1..];
      NumbersErr(row, j, columns, rest, parseNum, e);
      var head := Number(row, j, columns, names[0], parseNum);
      if head.Err? {
        assert FirstBadNumber(row, j, columns, names, parseNum, 0, head.error);
        if exists k :: 0 <= k < |names| && FirstBadNumber(row, j, columns, names, parseNum, k, e) {
          var k :| 0 <= k < |names| && FirstBadNumber(row, j, columns, names, parseNum, k, e);
          assert k == 0;
        }
      } else {
        if Numbers(row, j, columns, names, parseNum) == Err(e) {
          var k :| 0 <= k < |rest| && FirstBadNumber(row, j, columns, rest, parseNum, k, e);
          assert FirstBadNumber(row, j, columns, names, parseNum, k + 1, e) by {
            forall i | 0 <= i < k + 1
              ensures Number(row, j, columns, names[i], parseNum).Ok?
            {
              if i > 0 { assert names[i] == rest[i - 1]; }
            }
          }
        }
        if exists k :: 0 <= k < |names| && FirstBadNumber(row, j, columns, names, parseNum, k, e) {
          var k :| 0 <= k < |names| && FirstBadNumber(row, j, columns, names, parseNum, k, e);
          assert k > 0;
          assert FirstBadNumber(row, j, columns, rest, parseNum, k - 1, e) by {
            forall i | 0 <= i < k - 1
              ensures Number(row, j, columns, rest[i], parseNum).Ok?
            {
              assert rest[i] == names[i + 1];
            }
          }
        }
      }
    }
  }

  /**
   * A row fails with `e` exactly when the VTX lookup or `int()` fails with `e`,
   * or the index is read and the first attribute cell that fails, in read
   * order, fails with `e`.
   */
  lemma DecodeRowErr(row: Row, j: nat, columns: Columns, mirrorX: bool,
                     parseInt: string -> Option<int>, parseNum: string -> Option<real>, e: Error)
    ensures DecodeRow(row, j, columns, mirrorX, parseInt, parseNum) == Err(e) <==>
              || VertexIndex(row, j, columns, parseInt) == Err(e)
              || (&& VertexIndex(row, j, columns, parseInt).Ok?
                  && exists k :: 0 <= k < |Attributes| && FirstBadNumber(row, j, columns, Attributes, parseNum, k, e))
  {
    NumbersErr(row, j, columns, Attributes, parseNum, e);
  }

  /**
   * A row decodes exactly when its index cell parses as an integer and all eight
   * attribute cells exist and parse; then the corner holds those numbers, with the
   * position's x negated when mirroring and y, z and the normal unchanged.
   */
  lemma DecodedCorner(row: Row, j: nat, columns: Columns, mirrorX: bool,
                      parseInt: string -> Option<int>, parseNum: string -> Option<real>)
    ensures DecodeRow(row, j, columns, mirrorX, parseInt, parseNum).Ok? <==>
              && "VTX" in columns && columns["VTX"] < |row| && parseInt(row[columns["VTX"]]).Some?
              && forall k :: 0 <= k < |Attributes| ==>
                   Attributes[k] in columns && columns[Attributes[k]] < |row| && parseNum(row[columns[Attributes[k]]]).Some?
    ensures DecodeRow(row, j, columns, mirrorX, parseInt, parseNum).Ok? ==>
              var c := DecodeRow(row, j, columns, mirrorX, parseInt, parseNum).value;
              && parseInt(row[columns["VTX"]]) == Some(c.vertex)
              && Holds(row, columns, PositionX, parseNum, if mirrorX then -c.position.x else c.position.x)
              && Holds(row, columns, PositionY, parseNum, c.position.y)
              && Holds(row, columns, PositionZ, parseNum, c.position.z)
              && Holds(row, columns, NormalX, parseNum, c.normal.x)
              && Holds(row, columns, NormalY, parseNum, c.normal.y)
              && Holds(row, columns, NormalZ, parseNum, c.normal.z)
              && Holds(row, columns, TexU, parseNum, c.uv.u)
              && Holds(row, columns, TexV, parseNum, c.uv.v)
  {
    NumbersRead(row, j, columns, Attributes, parseNum);
    var r := DecodeRow(row, j, columns, mirrorX, parseInt, parseNum);
    if r.Ok? {
      var n := Numbers(row, j, columns, Attributes, parseNum).value;
      assert Holds(row, columns, Attributes[0], parseNum, n[0]);
      assert r.value.position.x == (if mirrorX then -1.0 else 1.0) * n[0];
    }
  }

  /** The first `n` data rows decoded in order; the first row that fails decides the error. */
  function DecodePrefix(rows: seq<Row>, n: nat, columns: Columns, mirrorX: bool,
                        parseInt: string -> Option<int>, parseNum: string -> Option<real>): (r: Result<seq<Corner>>)
    requires n <= |rows|
    ensures r.Ok? ==> |r.value| == n
  {
    if n == 0 then Ok([])
    else
      var init :- DecodePrefix(rows, n - 1, columns, mirrorX, parseInt, parseNum);
      var last :- DecodeRow(rows[n - 1], n - 1, columns, mirrorX, parseInt, parseNum);
      Ok(init + [last])
  }

  /** All data rows decoded in order. */
  function DecodeAll(rows: seq<Row>, columns: Columns, mirrorX: bool,
                     parseInt: string -> Option<int>, parseNum: string -> Option<real>): Result<seq<Corner>>
  {
    DecodePrefix(rows, |rows|, columns, mirrorX, parseInt, parseNum)
  }

  /** The first `n` rows decode exactly when every one of them does. */
  lemma {:induction false} DecodePrefixOk(rows: seq<Row>, n: nat, columns: Columns, mirrorX: bool,
                                          parseInt: string -> Option<int>, parseNum: string -> Option<real>)
    requires n <= |rows|
    ensures DecodePrefix(rows, n, columns, mirrorX, parseInt, parseNum).Ok? <==>
              forall j :: 0 <= j < n ==> DecodeRow(rows[j], j, columns, mirrorX, parseInt, parseNum).Ok?
  {
    if n > 0 {
      DecodePrefixOk(rows, n - 1, columns, mirrorX, parseInt, parseNum);
    }
  }

  /** When the first `n` rows decode, corner j is what row j decodes to. */
  lemma {:induction false} DecodePrefixValues(rows: seq<Row>, n: nat, columns: Columns, mirrorX: bool,
                                              parseInt: string -> Option<int>, parseNum: string -> Option<real>)
    requires n <= |rows|
    requires DecodePrefix(rows, n, columns, mirrorX, parseInt, parseNum).Ok?
    ensures forall j :: 0 <= j < n ==>
              DecodeRow(rows[j], j, columns, mirrorX, parseInt, parseNum) ==
                Ok(DecodePrefix(rows, n, columns, mirrorX, parseInt, parseNum).value[j])
  {
    if n > 0 {
      DecodePrefixValues(rows, n - 1, columns, mirrorX, parseInt, parseNum);
    }
  }

  /** Row `j` fails with `e` and every row before it decodes. */
  ghost predicate FirstFailure(rows: seq<Row>, j: nat, columns: Columns, mirrorX: bool,
                               parseInt: string -> Option<int>, parseNum: string -> Option<real>, e: Error)
    requires j < |rows|
  {
    && DecodeRow(rows[j], j, columns, mirrorX, parseInt, parseNum) == Err(e)
    && forall i :: 0 <= i < j ==> DecodeRow(rows[i], i, columns, mirrorX, parseInt, parseNum).Ok?
  }

  /** The first `n` rows fail with `e` exactly when `e` is the error of the first row among them that fails. */
  lemma DecodePrefixErr(rows: seq<Row>, n: nat, columns: Columns, mirrorX: bool,
                        parseInt: string -> Option<int>, parseNum: string -> Option<real>, e: Error)
    requires n <= |rows|
    ensures DecodePrefix(rows, n, columns, mirrorX, parseInt, parseNum) == Err(e) <==>
              exists j :: 0 <= j < n && FirstFailure(rows, j, columns, mirrorX, parseInt, parseNum, e)
  {
    if DecodePrefix(rows, n, columns, mirrorX, parseInt, parseNum) == Err(e) {
      var j := FailureSource(rows, n, columns, mirrorX, parseInt, parseNum, e);
    }
    if exists j :: 0 <= j < n && FirstFailure(rows, j, columns, mirrorX, parseInt, parseNum, e) {
      var j :| 0 <= j < n && FirstFailure(rows, j, columns, mirrorX, parseInt, parseNum, e);
      DecodePrefixOk(rows, j, columns, mirrorX, parseInt, parseNum);
      FailurePersists(rows, j, n, columns, mirrorX, parseInt, parseNum, e);
    }
  }

  /** An error of the first `n` rows comes from the first row among them that fails. */
  lemma {:induction false} FailureSource(rows: seq<Row>, n: nat, columns: Columns, mirrorX: bool,
                                         parseInt: string -> Option<int>, parseNum: string -> Option<real>, e: Error)
    returns (j: nat)
    requires n <= |rows|
    requires DecodePrefix(rows, n, columns, mirrorX, parseInt, parseNum) == Err(e)
    ensures j < n && FirstFailure(rows, j, columns, mirrorX, parseInt, parseNum, e)
  {
    var prefix := DecodePrefix(rows, n - 1, columns, mirrorX, parseInt, parseNum);
    if prefix.Err? {
      j := FailureSource(rows, n - 1, columns, mirrorX, parseInt, parseNum, e);
    } else {
      DecodePrefixOk(rows, n - 1, columns, mirrorX, parseInt, parseNum);
      j := n - 1;
    }
  }

  /** Once row `j` fails after rows that decode, every longer prefix fails with its error. */
  lemma {:induction false} FailurePersists(rows: seq<Row>, j: nat, n: nat, columns: Columns, mirrorX: bool,
                                           parseInt: string -> Option<int>, parseNum: string -> Option<real>, e: Error)
    requires j < n <= |rows|
    requires DecodePrefix(rows, j, columns, mirrorX, parseInt, parseNum).Ok?
    requires DecodeRow(rows[j], j, columns, mirrorX, parseInt, parseNum) == Err(e)
    ensures DecodePrefix(rows, n, columns, mirrorX, parseInt, parseNum) == Err(e)
  {
    if n > j + 1 {
      FailurePersists(rows, j, n - 1, columns, mirrorX, parseInt, parseNum, e);
    }
  }

  /** `vertex_dict` after the rows `corners`: each row stores its position under its vertex index. */
  function Positions(corners: seq<Corner>): map<int, Vec3>
  {
    if corners == [] then map[]
    else
      var n := |corners| - 1;
      Positions(corners[..n])[corners[n].vertex := corners[n].position]
  }

  /** `normal_dict` after the rows `corners`. */
  function Normals(corners: seq<Corner>): map<int, Vec3>
  {
    if corners == [] then map[]
    else
      var n := |corners| - 1;
      Normals(corners[..n])[corners[n].vertex := corners[n].normal]
  }

  /** The vertex indices the rows `corners` name. */
  ghost function Named(corners: seq<Corner>): set<int>
  {
    set i | 0 <= i < |corners| :: corners[i].vertex
  }

  /** Both dictionaries hold exactly the vertex indices some row names. */
  lemma {:induction false} StoredKeys(corners: seq<Corner>)
    ensures Positions(corners).Keys == Named(corners)
    ensures Normals(corners).Keys == Named(corners)
  {
    if corners != [] {
      var n := |corners| - 1;
      var init := corners[..n];
      StoredKeys(init);
      assert forall i :: 0 <= i < n ==> init[i] == corners[i];
      assert Named(corners) == Named(init) + {corners[n].vertex};
    }
  }

  /**
   * Last write wins: when row `i` is the last row naming its vertex index, the
   * position and normal stored under that index are row `i`'s, whatever earlier
   * rows stored there.
   */
  lemma {:induction false} LastWriteWins(corners: seq<Corner>, i: nat)
    requires i < |corners|
    requires forall j :: i < j < |corners| ==> corners[j].vertex != corners[i].vertex
    ensures corners[i].vertex in Positions(corners) && Positions(corners)[corners[i].vertex] == corners[i].position
    ensures corners[i].vertex in Normals(corners) && Normals(corners)[corners[i].vertex] == corners[i].normal
  {
    var n := |corners| - 1;
    if i < n {
      var init := corners[..n];
      assert forall j :: 0 <= j < n ==> init[j] == corners[j];
      LastWriteWins(init, i);
    }
  }

  /** The face the source emits for rows a, b, c: reversed as (c, b, a) when `reverse` is set. */
  function MakeFace(a: int, b: int, c: int, reverse: bool): Tri<int>
  {
    if reverse then Tri(c, b, a) else Tri(a, b, c)
  }

  /** `faces`: one face per three consecutive rows from the first; a trailing one or two rows give none. */
  function Faces(corners: seq<Corner>, reverse: bool): (r: seq<Tri<int>>)
    ensures |r| == |corners| / 3
  {
    if |corners| < 3 then []
    else [MakeFace(corners[0].vertex, corners[1].vertex, corners[2].vertex, reverse)] + Faces(corners[3..], reverse)
  }

  /** `uvs`: the UV pairs of each group of three rows, always in row order. */
  function UvTriples(corners: seq<Corner>): (r: seq<Tri<Uv>>)
    ensures |r| == |corners| / 3
  {
    if |corners| < 3 then []
    else [Tri(corners[0].uv, corners[1].uv, corners[2].uv)] + UvTriples(corners[3..])
  }

  /**
   * Grouping: there are floor(rows / 3) faces and as many UV triples; face f is
   * built from rows 3f, 3f+1, 3f+2 and is reversed when `reverse` is set, while
   * UV triple f keeps row order either way.
   */
  lemma Grouping(corners: seq<Corner>, reverse: bool)
    ensures |Faces(corners, reverse)| == |corners| / 3
    ensures |UvTriples(corners)| == |corners| / 3
    ensures forall f :: 0 <= f < |corners| / 3 ==>
              && Faces(corners, reverse)[f] ==
                   (if reverse then Tri(corners[3 * f + 2].vertex, corners[3 * f + 1].vertex, corners[3 * f].vertex)
                    else Tri(corners[3 * f].vertex, corners[3 * f + 1].vertex, corners[3 * f + 2].vertex))
              && UvTriples(corners)[f] == Tri(corners[3 * f].uv, corners[3 * f + 1].uv, corners[3 * f + 2].uv)
  {
    GroupCount(corners, reverse);
    forall f | 0 <= f < |corners| / 3 {
      GroupAt(corners, reverse, f);
    }
  }

  /** There are floor(rows / 3) faces and as many UV triples. */
  lemma {:induction false} GroupCount(corners: seq<Corner>, reverse: bool)
    ensures |Faces(corners, reverse)| == |corners| / 3
    ensures |UvTriples(corners)| == |corners| / 3
  {
    if |corners| >= 3 {
      GroupCount(corners[3..], reverse);
    }
  }

  /** Face f and UV triple f come from rows 3f, 3f+1 and 3f+2. */
  lemma {:induction false} GroupAt(corners: seq<Corner>, reverse: bool, f: nat)
    requires 3 * f + 3 <= |corners|
    ensures f < |Faces(corners, reverse)| && f < |UvTriples(corners)|
    ensures Faces(corners, reverse)[f] == MakeFace(corners[3 * f].vertex, corners[3 * f + 1].vertex, corners[3 * f + 2].vertex, reverse)
    ensures UvTriples(corners)[f] == Tri(corners[3 * f].uv, corners[3 * f + 1].uv, corners[3 * f + 2].uv)
  {
    if f > 0 {
      var rest := corners[3..];
      GroupAt(rest, reverse, f - 1);
      var b := 3 * (f - 1);
      assert 3 * f == b + 3;
      assert Faces(corners, reverse)[f] == Faces(rest, reverse)[f - 1];
      assert UvTriples(corners)[f] == UvTriples(rest)[f - 1];
      assert rest[b] == corners[b + 3] && rest[b + 1] == corners[b + 4] && rest[b + 2] == corners[b + 5];
    }
  }


  /** A row that fails after rows that decoded is the error of the whole file. */
  lemma DecodeStops(rows: seq<Row>, j: nat, columns: Columns, mirrorX: bool,
                    parseInt: string -> Option<int>, parseNum: string -> Option<real>, e: Error)
    requires j < |rows|
    requires DecodePrefix(rows, j, columns, mirrorX, parseInt, parseNum).Ok?
    requires DecodeRow(rows[j], j, columns, mirrorX, parseInt, parseNum) == Err(e)
    ensures DecodeAll(rows, columns, mirrorX, parseInt, parseNum) == Err(e)
  {
    FailurePersists(rows, j, |rows|, columns, mirrorX, parseInt, parseNum, e);
  }

  /** Storing one more row updates both dictionaries under its vertex index. */
  lemma StoreNext(corners: seq<Corner>, c: Corner)
    ensures Positions(corners + [c]) == Positions(corners)[c.vertex := c.position]
    ensures Normals(corners + [c]) == Normals(corners)[c.vertex := c.normal]
  {
    assert (corners + [c])[..|corners|] == corners;
  }

  /** Three more rows after a whole number of groups add one face and one UV triple. */
  lemma {:induction false} GroupAppend(done: seq<Corner>, groups: nat, group: seq<Corner>, reverse: bool)
    requires |done| == 3 * groups && |group| == 3
    ensures Faces(done + group, reverse) ==
              Faces(done, reverse) + [MakeFace(group[0].vertex, group[1].vertex, group[2].vertex, reverse)]
    ensures UvTriples(done + group) == UvTriples(done) + [Tri(group[0].uv, group[1].uv, group[2].uv)]
  {
    if done == [] {
      assert done + group == group;
      assert group[3..] == [];
    } else {
      GroupAppend(done[3..], groups - 1, group, reverse);
      assert (done + group)[3..] == done[3..] + group;
      assert (done + group)[..3] == done[..3];
    }
  }

  /**
   * Closing a group from the accumulators: the face emitted from the three
   * held indices (reversed as slots 2, 1, 0 when `reverse`) and the UV triple
   * in slot order are the next face and UV triple of the rows read so far.
   */
  lemma CloseGroup(done: seq<Corner>, groups: nat, pending: seq<Corner>,
                   currentFace: seq<int>, currentUv: seq<Uv>, reverse: bool)
    requires |done| == 3 * groups && |pending| == 3 && |currentFace| == 3 && |currentUv| == 3
    requires forall k :: 0 <= k < 3 ==> currentFace[k] == pending[k].vertex && currentUv[k] == pending[k].uv
    ensures Faces(done + pending, reverse) ==
              Faces(done, reverse) + [if reverse then Tri(currentFace[2], currentFace[1], currentFace[0])
                                      else Tri(currentFace[0], currentFace[1], currentFace[2])]
    ensures UvTriples(done + pending) == UvTriples(done) + [Tri(currentUv[0], currentUv[1], currentUv[2])]
  {
    GroupAppend(done, groups, pending, reverse);
  }

  /** One or two rows after a whole number of groups add no face and no UV triple. */
  lemma {:induction false} GroupRemainder(done: seq<Corner>, groups: nat, pending: seq<Corner>, reverse: bool)
    requires |done| == 3 * groups && |pending| < 3
    ensures Faces(done + pending, reverse) == Faces(done, reverse)
    ensures UvTriples(done + pending) == UvTriples(done)
  {
    if done != [] {
      GroupRemainder(done[3..], groups - 1, pending, reverse);
      assert (done + pending)[3..] == done[3..] + pending;
      assert (done + pending)[..3] == done[..3];
    }
  }

  /** What the row loop leaves behind: the two dictionaries and the two lists. */
  datatype Stream = Stream(positions: map<int, Vec3>, normals: map<int, Vec3>, faces: seq<Tri<int>>, uvs: seq<Tri<Uv>>)

  /** The loop's result for rows that all decoded to `corners`. */
  function Collect(corners: seq<Corner>, vertexOrder: bool): Stream
  {
    Stream(Positions(corners), Normals(corners), Faces(corners, vertexOrder), UvTriples(corners))
  }

  /** The row loop over all data rows, or the error of the first row that fails. */
  function ReadAll(rows: seq<Row>, columns: Columns, mirrorX: bool, vertexOrder: bool,
                   parseInt: string -> Option<int>, parseNum: string -> Option<real>): Result<Stream>
  {
    var corners :- DecodeAll(rows, columns, mirrorX, parseInt, parseNum);
    Ok(Collect(corners, vertexOrder))
  }

  /**
   * What holds after the first `j` data rows: they decoded to `corners`; the
   * dictionaries hold what those rows stored; `done` are the rows already
   * grouped into `faces` and `uvs`; and the accumulators hold the index and
   * UV of each row in `pending`, the one or two rows of an unfinished group.
   */
  ghost predicate LoopState(rows: seq<Row>, j: nat, columns: Columns, mirrorX: bool, vertexOrder: bool,
                            parseInt: string -> Option<int>, parseNum: string -> Option<real>,
                            vertexDict: map<int, Vec3>, normalDict: map<int, Vec3>,
                            faces: seq<Tri<int>>, uvs: seq<Tri<Uv>>, currentFace: seq<int>, currentUv: seq<Uv>,
                            corners: seq<Corner>, done: seq<Corner>, pending: seq<Corner>)
    requires j <= |rows|
  {
    && DecodePrefix(rows, j, columns, mirrorX, parseInt, parseNum) == Ok(corners)
    && vertexDict == Positions(corners) && normalDict == Normals(corners)
    && corners == done + pending && |done| == 3 * |faces|
    && faces == Faces(done, vertexOrder) && uvs == UvTriples(done)
    && |pending| < 3 && |currentFace| == |pending| && |currentUv| == |pending|
    && forall k :: 0 <= k < |pending| ==> currentFace[k] == pending[k].vertex && currentUv[k] == pending[k].uv
  }

  /** Reading a row that leaves its group unfinished: store it and hold it in the accumulators. */
  lemma HoldRow(rows: seq<Row>, j: nat, columns: Columns, mirrorX: bool, vertexOrder: bool,
                parseInt: string -> Option<int>, parseNum: string -> Option<real>,
                vertexDict: map<int, Vec3>, normalDict: map<int, Vec3>,
                faces: seq<Tri<int>>, uvs: seq<Tri<Uv>>, currentFace: seq<int>, currentUv: seq<Uv>,
                corners: seq<Corner>, done: seq<Corner>, pending: seq<Corner>, c: Corner)
    requires j < |rows| && |pending| < 2
    requires LoopState(rows, j, columns, mirrorX, vertexOrder, parseInt, parseNum, vertexDict, normalDict,
                       faces, uvs, currentFace, currentUv, corners, done, pending)
    requires DecodeRow(rows[j], j, columns, mirrorX, parseInt, parseNum) == Ok(c)
    ensures LoopState(rows, j + 1, columns, mirrorX, vertexOrder, parseInt, parseNum,
                      vertexDict[c.vertex := c.position], normalDict[c.vertex := c.normal],
                      faces, uvs, currentFace + [c.vertex], currentUv + [c.uv], corners + [c], done, pending + [c])
  {
    StoreNext(corners, c);
    assert corners + [c] == done + (pending + [c]);
  }

  /** Reading the third row of a group: store it, emit the face and the UV triple, and empty the accumulators. */
  lemma CloseRow(rows: seq<Row>, j: nat, columns: Columns, mirrorX: bool, vertexOrder: bool,
                 parseInt: string -> Option<int>, parseNum: string -> Option<real>,
                 vertexDict: map<int, Vec3>, normalDict: map<int, Vec3>,
                 faces: seq<Tri<int>>, uvs: seq<Tri<Uv>>, currentFace: seq<int>, currentUv: seq<Uv>,
                 corners: seq<Corner>, done: seq<Corner>, pending: seq<Corner>, c: Corner)
    requires j < |rows| && |pending| == 2
    requires LoopState(rows, j, columns, mirrorX, vertexOrder, parseInt, parseNum, vertexDict, normalDict,
                       faces, uvs, currentFace, currentUv, corners, done, pending)
    requires DecodeRow(rows[j], j, columns, mirrorX, parseInt, parseNum) == Ok(c)
    ensures var face := currentFace + [c.vertex];
      var uv := currentUv + [c.uv];
      LoopState(rows, j + 1, columns, mirrorX, vertexOrder, parseInt, parseNum,
                vertexDict[c.vertex := c.position], normalDict[c.vertex := c.normal],
                faces + [if vertexOrder then Tri(face[2], face[1], face[0]) else Tri(face[0], face[1], face[2])],
                uvs + [Tri(uv[0], uv[1], uv[2])], [], [], corners + [c], done + (pending + [c]), [])
  {
    StoreNext(corners, c);
    assert corners + [c] == (done + (pending + [c])) + [];
    CloseGroup(done, |faces|, pending + [c], currentFace + [c.vertex], currentUv + [c.uv], vertexOrder);
  }

  /**
   * The row loop: decode a row, store its position and normal under its vertex
   * index, and push index and UV onto the 3-slot accumulators; on every third
   * row emit the face (reversed when `vertexOrder` is set) and the UV triple and
   * empty the accumulators.
   */
  method ReadRows(rows: seq<Row>, columns: Columns, mirrorX: bool, vertexOrder: bool,
                  parseInt: string -> Option<int>, parseNum: string -> Option<real>) returns (r: Result<Stream>)
    ensures r == ReadAll(rows, columns, mirrorX, vertexOrder, parseInt, parseNum)
  {
    var vertexDict: map<int, Vec3> := map[];
    var normalDict: map<int, Vec3> := map[];
    var faces: seq<Tri<int>> := [];
    var uvs: seq<Tri<Uv>> := [];
    var i := 0;
    var currentFace: seq<int> := [];
    var currentUv: seq<Uv> := [];
    ghost var corners: seq<Corner> := [];
    ghost var done: seq<Corner> := [];     // the rows already grouped into faces
    ghost var pending: seq<Corner> := [];  // the rows held in the accumulators
    for j := 0 to |rows|
      invariant LoopState(rows, j, columns, mirrorX, vertexOrder, parseInt, parseNum, vertexDict, normalDict,
                          faces, uvs, currentFace, currentUv, corners, done, pending)
      invariant i == |pending|
    {
      var decoded := DecodeRow(rows[j], j, columns, mirrorX, parseInt, parseNum);
      if decoded.Err? {
        DecodeStops(rows, j, columns, mirrorX, parseInt, parseNum, decoded.error);
        return Err(decoded.error);
      }
      var c := decoded.value;
      ghost var storedVertices, storedNormals := vertexDict, normalDict;
      vertexDict := vertexDict[c.vertex := c.position];
      normalDict := normalDict[c.vertex := c.normal];
      if i < 2 {
        HoldRow(rows, j, columns, mirrorX, vertexOrder, parseInt, parseNum, storedVertices, storedNormals,
                faces, uvs, currentFace, currentUv, corners, done, pending, c);
        currentFace := currentFace + [c.vertex];
        currentUv := currentUv + [c.uv];
        i := i + 1;
        corners, pending := corners + [c], pending + [c];
      } else {
        CloseRow(rows, j, columns, mirrorX, vertexOrder, parseInt, parseNum, storedVertices, storedNormals,
                 faces, uvs, currentFace, currentUv, corners, done, pending, c);
        currentFace := currentFace + [c.vertex];
        if vertexOrder {
          faces := faces + [Tri(currentFace[2], currentFace[1], currentFace[0])];
        } else {
          faces := faces + [Tri(currentFace[0], currentFace[1], currentFace[2])];
        }
        currentUv := currentUv + [c.uv];
        uvs := uvs + [Tri(currentUv[0], currentUv[1], currentUv[2])];
        corners, done, pending := corners + [c], done + (pending + [c]), [];
        currentFace := [];
        currentUv := [];
        i := 0;
      }
    }
    GroupRemainder(done, |faces|, pending, vertexOrder);
    return Ok(Stream(vertexDict, normalDict, faces, uvs));
  }
}
