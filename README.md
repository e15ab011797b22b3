# RenderDoc PIX CSV importer: the parsing core

This project models the parsing core of the Blender add-on that imports a
RenderDoc PIX vertex dump saved as CSV. The core is the body of `importCSV` in
`2.7.8/import_pix.py`. It turns the rows of the file into the four lists that
are handed to the mesh builder: vertex positions, faces, normals and UV
triples. It works in four stages:

1. **Header discovery.** The first row becomes a dictionary from attribute
   name to column. `VTX` is column 0 and `IDX` is column 1. Every later column
   is keyed by the second piece of its header cell split at single spaces.
   Because the dictionary is built with `dict.update`, a later column with the
   same name replaces an earlier one. This includes a column that names
   itself `VTX` or `IDX`.
2. **Row loop.** Each data row is decoded in this order:
   - the vertex index, read with `int()`;
   - the position, whose x is multiplied by -1 when mirroring;
   - the normal;
   - the UV pair.

   Position and normal are stored in two dictionaries keyed by the vertex
   index, so a later row for the same index wins. The index and UV are pushed
   onto 3-slot accumulators. Every third row emits a face and a UV triple:
   - the face is reversed when `vertex_order` is set;
   - the UV triple always keeps row order.

   A trailing one or two rows are dropped silently.
3. **Zero-fill.** For every `i` in `range(len(vertex_dict))` that has no entry,
   both dictionaries get the origin.
4. **Densify.** Both dictionaries are sorted by key, and their values are
   listed in ascending key order.

Each loop of the source is a method proved equal to a specification function
of its inputs:
- `Header.ReadHeader` against `Header.HeaderMap`;
- `Rows.ReadRows` against `Rows.ReadAll`;
- `Fill.FillMissing` against `Fill.ZeroFilled`;
- `KeyOrder.ValuesInKeyOrder` against `KeyOrder.Dense`.

`Importer.ImportCsv` runs them in sequence and is proved equal to
`Importer.Import`. The properties of the importer are lemmas about those
functions.

`int()` and `float()` are parameters of type `string -> Option<int>` and
`string -> Option<real>`, where `None` is a rejected literal. An import ends in
one of three ways:
- `NoFile` when no path is given;
- `Aborted(e)` when an exception escapes;
- `Imported(mesh)` with the four lists.

The error values stand for the Python exceptions as follows:
- `EmptyInput`: `next(reader)` on an empty file;
- `HeaderCellWithoutSpace`: the `IndexError` of `header[1]`;
- `MissingColumn`: the `KeyError` of `header_dict[...]`;
- `ShortRow`: the `IndexError` of `row[...]`;
- `BadNumber`: the `ValueError` of `int()` or `float()`.

In three places the code does less than a reader would expect. The model
follows the code:
- **The fill range.** The comment at line 247, "Zero out any missing
  vertices/normals", suggests that every index up to the largest one seen is
  filled, giving `max + 1` vertices. The code loops over
  `range(len(vertex_dict))`, which is the number of distinct indices.
  With indices {0, 5} the lists get three entries (0, 1, 5), and a face that
  uses index 5 points past the end (`Importer.SparseIndices`,
  `Fill.FillStopsAtCount`). The model reproduces this, and no "max + 1"
  property is claimed.
- **Missing columns.** The code does not check the header for missing
  attributes. A missing column only aborts once a data row looks it up, so a
  file with a header and no data rows imports an empty mesh
  (`Importer.HeaderOnly`).
- **Face indices.** No face index is checked against the vertex count.

## Model

| member | source | states |
|---|---|---|
| Header.Split | 2.7.8/import_pix.py:193 | `split(" ")` gives at least one piece; no piece contains a space; there is more than one piece exactly when the cell contains a space |
| Header.JoinSplit | 2.7.8/import_pix.py:193 | splitting at spaces loses nothing: joining the pieces with single spaces gives the cell back |
| Header.SplitJoin | 2.7.8/import_pix.py:193 | pieces without spaces, joined and split again, come back unchanged |
| Header.ColumnName | 2.7.8/import_pix.py:193-194 | the name `header[1]` is missing (IndexError) exactly when the cell has no space; a name never contains a space |
| Header.ColumnNameOf | 2.7.8/import_pix.py:193-194 | a cell "group name" or "group name more…" is keyed by `name` |
| Header.Assign | 2.7.8/import_pix.py:192-194 | reading the columns from `col` on keeps every name already in the dictionary; a failure is a header cell without a space at a column from `col` on (lookups: `Header.AssignLookup`) |
| Header.HeaderMap | 2.7.8/import_pix.py:189-194 | the header dictionary always has VTX and IDX; a failure is a header cell without a space at a column from 2 on (which names map where: `Header.HeaderLookup`; which column fails: `Header.HeaderFails`) |
| Header.ReadHeader | 2.7.8/import_pix.py:189-194 | the header loop yields exactly the dictionary `HeaderMap` describes, or the error for the first cell without a space |
| Header.HeaderLookup | 2.7.8/import_pix.py:189-194 | a name is a key exactly when it is VTX, IDX or the name of some column from 2 on; a repeated name maps to its last column; VTX→0 and IDX→1 unless a column renames them |
| Header.HeaderFails | 2.7.8/import_pix.py:192-194 | the header fails exactly when a cell from column 2 on has no space, and the error names the first such column |
| Rows.Cell | 2.7.8/import_pix.py:206 | the lookup `row[header_dict[name]]` succeeds exactly when the name has a column and the row reaches it, and then gives that cell; a name with no column is a KeyError (`MissingColumn`), checked before the IndexError (`ShortRow`) of a row too short for the column |
| Rows.VertexIndex | 2.7.8/import_pix.py:206 | `int()` of the VTX cell succeeds exactly when the cell exists and parses, and gives the parsed value; a rejected literal is a ValueError (`BadNumber`) at that row and column; a failed lookup keeps the lookup's error |
| Rows.Number | 2.7.8/import_pix.py:209-226 | `float()` of an attribute cell succeeds exactly when the cell exists and parses, and gives the parsed value; a rejected literal is `BadNumber` at that row and column; a failed lookup keeps the lookup's error |
| Rows.Numbers | 2.7.8/import_pix.py:209-226 | the eight attribute cells give eight values; an error is a missing column or names the row being read (values: `Rows.NumbersRead`; which error: `Rows.NumbersErr`) |
| Rows.NumbersErr | 2.7.8/import_pix.py:209-226 | the attribute cells fail with e exactly when e is the error of the first cell, in read order (position x, y, z, normal x, y, z, UV u, v), whose lookup or `float()` fails |
| Rows.DecodeRow | 2.7.8/import_pix.py:206-226 | a row that fails to decode fails with a missing column or with an error naming that row (what a decoded row holds: `Rows.DecodedCorner`; which error: `Rows.DecodeRowErr`) |
| Rows.DecodeRowErr | 2.7.8/import_pix.py:206-226 | a row fails with e exactly when the VTX lookup or `int()` fails with e, or VTX is read and e is the error of the first attribute cell that fails; a bad VTX cell is reported even when an attribute column is missing |
| Rows.NumbersRead | 2.7.8/import_pix.py:209-226 | the attribute cells are read exactly when every name has a column the row reaches and whose text parses, and value k is what cell k parses to |
| Rows.DecodedCorner | 2.7.8/import_pix.py:197-226 | a row decodes exactly when VTX parses as an integer and the eight attribute cells parse; position x is the parsed x negated when mirroring and unchanged otherwise; y, z and the normal and UV components are the parsed values |
| Rows.DecodePrefix | 2.7.8/import_pix.py:205-226 | the first n rows decode to n corners (which corners and which error: `Rows.DecodePrefixOk`, `Rows.DecodePrefixValues`, `Rows.DecodePrefixErr`) |
| Rows.DecodePrefixOk | 2.7.8/import_pix.py:205-226 | the rows read so far decode exactly when each of them does |
| Rows.DecodePrefixValues | 2.7.8/import_pix.py:205-226 | corner j is what data row j decodes to |
| Rows.DecodePrefixErr | 2.7.8/import_pix.py:205-226 | the loop fails with error e exactly when e is the error of the first row that fails to decode |
| Rows.Positions | 2.7.8/import_pix.py:209-213 | `vertex_dict` after the rows: each row stores its position under its vertex index; its keys are given by `Rows.StoredKeys` and its values by `Rows.LastWriteWins` and `Rows.StoreNext` |
| Rows.Normals | 2.7.8/import_pix.py:216-220 | `normal_dict` after the rows: each row stores its normal under its vertex index; stated by the same three lemmas as `Rows.Positions` |
| Rows.StoredKeys | 2.7.8/import_pix.py:206-220 | both dictionaries hold exactly the vertex indices of the rows read |
| Rows.LastWriteWins | 2.7.8/import_pix.py:206-220 | the position and normal stored for an index are those of the last row with that index |
| Rows.StoreNext | 2.7.8/import_pix.py:209-220 | the one-step update of lines 209 and 216, used by the loop proof: one more row sets its vertex index in both dictionaries and changes nothing else |
| Rows.MakeFace | 2.7.8/import_pix.py:237-238 | the face built from a group's three indices, reversed when `vertex_order` is set; its place among the faces is stated by `Rows.Grouping` |
| Rows.Faces | 2.7.8/import_pix.py:228-245 | `faces` after the rows: floor(rows / 3) faces (each face: `Rows.Grouping`) |
| Rows.UvTriples | 2.7.8/import_pix.py:223-245 | `uvs` after the rows: floor(rows / 3) UV triples (each triple: `Rows.Grouping`) |
| Rows.Grouping | 2.7.8/import_pix.py:228-245 | there are floor(rows / 3) faces and as many UV triples; face f is (r3, r2, r1) of rows 3f..3f+2 when `vertex_order` is set and (r1, r2, r3) otherwise; UV triple f is in row order either way |
| Rows.GroupRemainder | 2.7.8/import_pix.py:228-232 | one or two trailing rows add no face and no UV triple |
| Rows.CloseGroup | 2.7.8/import_pix.py:233-240 | the face and UV triple built from the accumulator slots are the next group's face and UV triple |
| Rows.HoldRow | 2.7.8/import_pix.py:228-232 | a row that leaves its group unfinished keeps the loop state: stored in the dictionaries, held in the accumulators, no face emitted |
| Rows.CloseRow | 2.7.8/import_pix.py:233-245 | the third row of a group keeps the loop state: stored, its face and UV triple emitted, accumulators emptied |
| Rows.ReadRows | 2.7.8/import_pix.py:200-245 | the row loop yields exactly the dictionaries, faces and UV triples of `ReadAll`, or the error of the first bad row |
| Fill.ZeroFilled | 2.7.8/import_pix.py:248-254 | a dictionary after the fill loop over range(n); its promises are stated by `Fill.ZeroFillFacts` and the loop is `Fill.FillMissing` |
| Fill.FillStep | 2.7.8/import_pix.py:248-254 | one turn of the fill loop adds the origin at i when i is missing and changes nothing otherwise |
| Fill.FillMissing | 2.7.8/import_pix.py:248-254 | the fill loop adds the origin under every missing index below the count of distinct indices, in both dictionaries, with the missing test made on the vertex dictionary |
| Fill.ZeroFillFacts | 2.7.8/import_pix.py:248-254 | every i below the count becomes a key; nothing else is added; added keys map to the origin in both; existing entries are unchanged; both end with the same keys |
| Fill.FillStopsAtCount | 2.7.8/import_pix.py:248 | indices {0, 5} come out as {0, 1, 5}: three entries, not six |
| KeyOrder.Ascending | 2.7.8/import_pix.py:257-258 | `sorted` lists every key exactly once in strictly increasing order |
| KeyOrder.AscendingUnique | 2.7.8/import_pix.py:257-258 | any strictly increasing listing of exactly the keys is the sorted one |
| KeyOrder.Dense | 2.7.8/import_pix.py:257-262 | one value per key of the dictionary (order and contents: `KeyOrder.DenseListing`) |
| KeyOrder.ValuesInKeyOrder | 2.7.8/import_pix.py:257-262 | iterating the sorted dictionary lists its values by ascending key |
| KeyOrder.DenseListing | 2.7.8/import_pix.py:257-262 | given the keys in increasing order, the list is the value of each key in that order |
| KeyOrder.SameKeysAligned | 2.7.8/import_pix.py:257-262 | two dictionaries with the same keys give lists of equal length whose entry t comes from the same key in both |
| Importer.Import | 2.7.8/import_pix.py:166-262 | the whole body of `importCSV`: nothing happens exactly when no file is given; an empty file aborts with EmptyInput (when it aborts: `Importer.AbortedWhen`; what a successful import yields: `Importer.ImportedShape`) |
| Importer.ImportCsv | 2.7.8/import_pix.py:166-262 | the importer step by step yields exactly the outcome `Import` describes |
| Importer.Finish | 2.7.8/import_pix.py:248-262 | the zero-fill with the count of distinct indices, then both listings by key; stated by `Importer.FinishFacts` and `Importer.FinishListing` |
| Importer.FinishFacts | 2.7.8/import_pix.py:248-262 | vertices and normals have equal length, one entry per index that was stored or lies below the count; a stored index keeps its values, an added one has the origin in both; faces and UVs pass through |
| Importer.FinishListing | 2.7.8/import_pix.py:248-262 | given the filled indices in increasing order with their values, these are exactly the vertex and normal lists |
| Importer.ImportedShape | 2.7.8/import_pix.py:184-262 | a successful import decoded every data row; faces and UV triples number floor(data rows / 3) with the grouping and reversal above; vertices and normals have equal length |
| Importer.AbortedWhen | 2.7.8/import_pix.py:184-226 | an import aborts exactly when the file is empty, a header cell from column 2 on has no space, or some data row fails to decode |
| Importer.MissingColumnAborts | 2.7.8/import_pix.py:206-226 | an attribute no header cell names aborts the import once there is a data row |
| Importer.HeaderOnly | 2.7.8/import_pix.py:205 | a header with no data rows imports four empty lists |
| Importer.SparseStream | 2.7.8/import_pix.py:205-245 | rows with indices 0, 5, 5 store index 5 from the later row and emit the face (0, 5, 5) |
| Importer.SparseIndices | 2.7.8/import_pix.py:248-262 | rows with indices 0, 5, 5 give three vertices [p, origin, r], and the face refers to index 5, past the end of the list |

## Left out

- `make_mesh` (2.7.8/import_pix.py:115-164) is not part of this model. It consists of Blender calls: the mesh buffers, the UV layer, object linking, mode switches and the clean-up operators.
- The `PIX_CSV_Operator` class and `axis_conversion` (2.7.8/import_pix.py:39-112) are not part of this model. They are GUI properties and a library matrix routine, and `global_matrix` (line 169) is only passed on to `make_mesh`.
- Opening the file and the `csv.reader` tokenisation (lines 184-188) are not modelled. The input is the rows the reader would yield, and the file failing to open is not modelled.
- The text parsing inside `int()` and `float()` is not modelled. The two conversions are parameters, and a rejected literal is `None`.
- Coordinates are reals: floating-point rounding is not modelled. The mirror is an exact negation, and the fill's integer `(0, 0, 0)` is the real origin.
- The keyword defaults of `importCSV` are not modelled, because `Importer.Import` takes the file, `mirror_x` and `vertex_order` as explicit arguments. The defaults at line 166 are `filepath=None`, `mirror_x=False` and `vertex_order=True`. The operator passes every keyword at line 90, and its own default for `vertex_order` is `False` (line 57). No behaviour is lost.
- Registration and the `__main__` block (lines 272-289) are plugin wiring and are not modelled.
- Rows.ReadRows: when `vertex_order` is unset, the source appends the accumulator list itself, and a face is a 3-element list rather than a tuple. Both are modelled as the same `Tri` value. The list is never mutated after it is appended, because the accumulator is rebound to a fresh list, so no aliasing is lost.
