/**
 * Values shared by the stages of the RenderDoc PIX CSV importer: the rows the
 * csv reader yields, the decoded per-corner record, the arrays handed to the
 * mesh builder, and the ways an import can end.
 */
module PixTypes {

  /** One CSV record as the csv reader yields it: one string per cell. */
  type Row = seq<string>

  /** The header dictionary: attribute name to column index. */
  type Columns = map<string, nat>

  datatype Option<+T> = None | Some(value: T)

  /** Why an import aborts. Every one is fatal and leaves no mesh behind. */
  datatype Error =
    | EmptyInput                            // the file has no header row at all
    | HeaderCellWithoutSpace(column: nat)   // a header cell from column 2 on has no second token
    | MissingColumn(name: string)           // an attribute the row loop looks up has no column
    | ShortRow(row: nat, column: nat)       // a data row has no cell at the column looked up
    | BadNumber(row: nat, column: nat)      // a cell that int() or float() rejects

  /** Success or the error that aborted; usable with `:-`. */
  datatype Result<+T> = Ok(value: T) | Err(error: Error) {
    predicate IsFailure() { Err? }
    function PropagateFailure<U>(): Result<U>
      requires Err?
    {
      Err(error)
    }
    function Extract(): T
      requires Ok?
    {
      value
    }
  }

  /** A position or a normal: three coordinates. */
  datatype Vec3 = Vec3(x: real, y: real, z: real)

  /** The value the zero-fill stores for a missing vertex index. */
  const Origin := Vec3(0.0, 0.0, 0.0)

  datatype Uv = Uv(u: real, v: real)

  /** Three things that belong to the corners of one triangle, in the order stored. */
  datatype Tri<T> = Tri(first: T, second: T, third: T)

  /** What one data row contributes: its vertex index, position, normal and UV pair. */
  datatype Corner = Corner(vertex: int, position: Vec3, normal: Vec3, uv: Uv)

  /** The four lists handed to the mesh builder. */
  datatype Mesh = Mesh(vertices: seq<Vec3>, faces: seq<Tri<int>>, normals: seq<Vec3>, uvs: seq<Tri<Uv>>)

  /** How one call of the importer ends. */
  datatype Outcome =
    | NoFile                // no file path was given: nothing happens
    | Aborted(error: Error) // an exception escapes: no mesh is built
    | Imported(mesh: Mesh)  // the lists passed on to the mesh builder
}
