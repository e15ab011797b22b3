/**
 * Header discovery: the first CSV row becomes the header dictionary. Columns 0
 * and 1 are always "VTX" and "IDX"; every later column is keyed by the second
 * piece of its header cell split at single spaces, and `dict.update` lets a
 * later column with the same name replace an earlier one.
 */
module Header {
  import opened PixTypes

  /** `s.split(" ")`: cut at every single space, so n spaces give n + 1 pieces. */
  function Split(s: string): (parts: seq<string>)
    ensures |parts| >= 1
    ensures forall i :: 0 <= i < |parts| ==> ' ' !in parts[i]
    ensures |parts| > 1 <==> ' ' in s
  {
    if s == [] then [""]
    else
      var rest := Split(s[1..]);
      assert ' ' in s <==> s[0] == ' ' || ' ' in s[1..] by {
        assert s == [s[0]] + s[1..];
      }
      if s[0] == ' ' then [""] + rest
      else [[s[0]] + rest[0]] + rest[1..]
  }

  /** `" ".join(parts)`: the pieces glued back with single spaces. */
  function Join(parts: seq<string>): string
  {
    if parts == [] then ""
    else if |parts| == 1 then parts[0]
    else parts[0] + " " + Join(parts[1..])
  }

  /** Splitting loses nothing: joining the pieces gives the cell back. */
  lemma {:induction false} JoinSplit(s: string)
    ensures Join(Split(s)) == s
  {
    if s != [] {
      var rest := Split(s[1..]);
      JoinSplit(s[1..]);
      if s[0] == ' ' {
        assert ([""] + rest)[1..] == rest;
      } else if |rest| > 1 {
        var parts := [[s[0]] + rest[0]] + rest[1..];
        assert parts[1..] == rest[1..];
        assert Join(rest) == rest[0] + " " + Join(rest[1..]);
        assert s == [s[0]] + s[1..];
      } else {
        assert s == [s[0]] + s[1..];
      }
    }
  }

  /** A cell without spaces is a single piece. */
  lemma {:induction false} SplitWord(w: string)
    requires ' ' !in w
    ensures Split(w) == [w]
  {
    if w != [] {
      assert ' ' !in w[1..] by {
        assert w == [w[0]] + w[1..];
      }
      SplitWord(w[1..]);
      assert [w[0]] + w[1..] == w;
    }
  }

  /** A word followed by a space is the first piece; the rest splits on its own. */
  lemma {:induction false} SplitAfterWord(w: string, r: string)
    requires ' ' !in w
    ensures Split(w + " " + r) == [w] + Split(r)
  {
    if w == [] {
      assert (w + " " + r)[1..] == r;
    } else {
      var s := w + " " + r;
      assert s[1..] == w[1..] + " " + r;
      assert ' ' !in w[1..] by {
        assert w == [w[0]] + w[1..];
      }
      SplitAfterWord(w[1..], r);
      assert [w[0]] + w[1..] == w;
    }
  }

  /** Joining pieces that hold no space and splitting again gives the same pieces. */
  lemma {:induction false} SplitJoin(parts: seq<string>)
    requires |parts| >= 1
    requires forall i :: 0 <= i < |parts| ==> ' ' !in parts[i]
    ensures Split(Join(parts)) == parts
  {
    if |parts| == 1 {
      SplitWord(parts[0]);
    } else {
      SplitJoin(parts[1..]);
      SplitAfterWord(parts[0], Join(parts[1..]));
      assert [parts[0]] + parts[1..] == parts;
    }
  }

  /**
   * The attribute name of a header cell: `cell.split(" ")[1]`, or None where
   * that index does not exist (the source then raises IndexError).
   */
  function ColumnName(cell: string): (r: Option<string>)
    ensures r.None? <==> ' ' !in cell
    ensures r.Some? ==> ' ' !in r.value
  {
    var parts := Split(cell);
    if |parts| < 2 then None else Some(parts[1])
  }

  /** A PIX header cell "<group> <name>" (optionally followed by more space-separated text) is keyed by <name>. */
  lemma ColumnNameOf(group: string, name: string, rest: string)
    requires ' ' !in group && ' ' !in name
    requires rest == [] || rest[0] == ' '
    ensures ColumnName(group + " " + name + rest) == Some(name)
  {
    assert group + " " + name + rest == group + " " + (name + rest);
    SplitAfterWord(group, name + rest);
    if rest == [] {
      assert name + rest == name;
      SplitWord(name);
    } else {
      assert name + rest == name + " " + rest[1..];
      SplitAfterWord(name, rest[1..]);
    }
  }

  /** The dictionary before any attribute column is read. */
  const Fixed: Columns := map["VTX" := 0, "IDX" := 1]

  /** The dictionary the column loop reaches from `m` by reading columns `col` to the end. */
  function Assign(m: Columns, header: seq<string>, col: nat): (r: Result<Columns>)
    ensures r.Ok? ==> m.Keys <= r.value.Keys
    ensures r.Err? ==> r.error.HeaderCellWithoutSpace? && col <= r.error.column < |header|
    decreases |header| - col
  {
    if col >= |header| then Ok(m)
    else match ColumnName(header[col])
      case None => Err(HeaderCellWithoutSpace(col))
      case Some(name) => Assign(m[name := col], header, col + 1)
  }

  /** The header dictionary of a header row, or the error the column loop raises. */
  function HeaderMap(header: seq<string>): (r: Result<Columns>)
    ensures r.Ok? ==> "VTX" in r.value && "IDX" in r.value
    ensures r.Err? ==> r.error.HeaderCellWithoutSpace? && 2 <= r.error.column < |header|
  {
    Assign(Fixed, header, 2)
  }

  /** The column loop of the header: one `dict.update` per column from 2 on. */
  method ReadHeader(header: seq<string>) returns (r: Result<Columns>)
    ensures r == HeaderMap(header)
  {
    var dict: Columns := Fixed;
    var index := 2;
    while index < |header|
      invariant 2 <= index
      invariant Assign(dict, header, index) == HeaderMap(header)
      decreases |header| - index
    {
      var name := ColumnName(header[index]);
      if name.None? {
        return Err(HeaderCellWithoutSpace(index));
      }
      dict := dict[name.value := index];
      index := index + 1;
    }
    return Ok(dict);
  }

  /** Where each name ends up when the columns from `col` on are read into `m`. */
  lemma {:induction false} AssignLookup(m: Columns, header: seq<string>, col: nat, name: string)
    requires Assign(m, header, col).Ok?
    ensures var r := Assign(m, header, col).value;
      && (name in r <==> name in m || exists k :: col <= k < |header| && ColumnName(header[k]) == Some(name))
      && ((exists k :: col <= k < |header| && ColumnName(header[k]) == Some(name)) ==>
            && col <= r[name] < |header|
            && ColumnName(header[r[name]]) == Some(name)
            && forall j :: r[name] < j < |header| ==> ColumnName(header[j]) != Some(name))
      && ((forall k :: col <= k < |header| ==> ColumnName(header[k]) != Some(name)) && name in m ==>
            r[name] == m[name])
    decreases |header| - col
  {
    if col < |header| {
      var n0 := ColumnName(header[col]).value;
      var m' := m[n0 := col];
      AssignLookup(m', header, col + 1, name);
      var r := Assign(m, header, col).value;
      assert r == Assign(m', header, col + 1).value;
      if exists k :: col + 1 <= k < |header| && ColumnName(header[k]) == Some(name) {
        var k :| col + 1 <= k < |header| && ColumnName(header[k]) == Some(name);
        assert name in r;
      } else if name == n0 {
        assert r[name] == col;
      }
    }
  }

  /** Header lookup: "VTX" and "IDX" are always present, every named column is present, and a
      repeated name maps to its LAST column; "VTX" keeps 0 and "IDX" keeps 1 unless a column renames them. */
  lemma HeaderLookup(header: seq<string>, name: string)
    requires HeaderMap(header).Ok?
    ensures var m := HeaderMap(header).value;
      && (name in m <==> name == "VTX" || name == "IDX" || exists k :: 2 <= k < |header| && ColumnName(header[k]) == Some(name))
      && ((exists k :: 2 <= k < |header| && ColumnName(header[k]) == Some(name)) ==>
            && 2 <= m[name] < |header|
            && ColumnName(header[m[name]]) == Some(name)
            && forall j :: m[name] < j < |header| ==> ColumnName(header[j]) != Some(name))
      && ((forall k :: 2 <= k < |header| ==> ColumnName(header[k]) != Some(name)) ==>
            (name == "VTX" ==> m[name] == 0) && (name == "IDX" ==> m[name] == 1))
  {
    AssignLookup(Fixed, header, 2, name);
  }

  /** Reading columns `col` on fails exactly at the first cell without a space. */
  lemma {:induction false} AssignFails(m: Columns, header: seq<string>, col: nat, k: nat)
    ensures Assign(m, header, col).Ok? <==> forall j :: col <= j < |header| ==> ' ' in header[j]
    ensures Assign(m, header, col) == Err(HeaderCellWithoutSpace(k)) <==>
              col <= k < |header| && ' ' !in header[k] && forall j :: col <= j < k ==> ' ' in header[j]
    decreases |header| - col
  {
    if col < |header| && ' ' in header[col] {
      AssignFails(m[ColumnName(header[col]).value := col], header, col + 1, k);
    }
  }

  /** The header fails, with the column of the first offending cell, exactly when some cell from
      column 2 on has no space; columns 0 and 1 are never split. */
  lemma HeaderFails(header: seq<string>, k: nat)
    ensures HeaderMap(header).Ok? <==> forall j :: 2 <= j < |header| ==> ' ' in header[j]
    ensures HeaderMap(header) == Err(HeaderCellWithoutSpace(k)) <==>
              2 <= k < |header| && ' ' !in header[k] && forall j :: 2 <= j < k ==> ' ' in header[j]
  {
    AssignFails(Fixed, header, 2, k);
  }
}
