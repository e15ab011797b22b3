/**
 * The zero-fill pass after the row loop. It walks `range(len(vertex_dict))`,
 * that is, the indices below the NUMBER of distinct vertex indices, not below
 * the largest index plus one; every such index that has no position gets the
 * origin as position and as normal.
 */
module Fill {
  import opened PixTypes

  /** `m` after the fill loop over range(n): each i in [0, n) that `present` lacks is set to the origin. */
  function ZeroFilled(m: map<int, Vec3>, present: set<int>, n: nat): map<int, Vec3>
  {
    m + map i | 0 <= i < n && i !in present :: Origin
  }

  /** One more turn of the fill loop. */
  lemma FillStep(m: map<int, Vec3>, present: set<int>, i: nat)
    ensures i in present ==> ZeroFilled(m, present, i + 1) == ZeroFilled(m, present, i)
    ensures i !in present ==> ZeroFilled(m, present, i + 1) == ZeroFilled(m, present, i)[i := Origin]
  {
    var before := map k | 0 <= k < i && k !in present :: Origin;
    var after := map k | 0 <= k < i + 1 && k !in present :: Origin;
    if i in present {
      assert after == before;
    } else {
      assert after == before[i := Origin];
    }
  }

  /**
   * The fill loop: for i in range(len(vertex_dict)), an index missing from
   * `vertex_dict` gets the origin in both dictionaries. The bound is read once,
   * before the loop adds anything.
   */
  method FillMissing(vertexDict: map<int, Vec3>, normalDict: map<int, Vec3>)
    returns (vertices: map<int, Vec3>, normals: map<int, Vec3>)
    ensures vertices == ZeroFilled(vertexDict, vertexDict.Keys, |vertexDict|)
    ensures normals == ZeroFilled(normalDict, vertexDict.Keys, |vertexDict|)
  {
    vertices, normals := vertexDict, normalDict;
    var count := |vertices|;
    for i := 0 to count
      invariant vertices == ZeroFilled(vertexDict, vertexDict.Keys, i)
      invariant normals == ZeroFilled(normalDict, vertexDict.Keys, i)
    {
      FillStep(vertexDict, vertexDict.Keys, i);
      FillStep(normalDict, vertexDict.Keys, i);
      if i in vertices {
        assert i in vertexDict;
      } else {
        vertices := vertices[i := Origin];
        normals := normals[i := Origin];
      }
    }
  }

  /**
   * With n the number of distinct indices before the fill, and both
   * dictionaries holding the same indices (as the row loop leaves them): every
   * i in [0, n) becomes an index of both, nothing else is added, every added
   * index maps to the origin in both, existing entries are unchanged, and the
   * two dictionaries still hold the same indices.
   */
  lemma ZeroFillFacts(vertexDict: map<int, Vec3>, normalDict: map<int, Vec3>)
    requires vertexDict.Keys == normalDict.Keys
    ensures var n := |vertexDict|;
      var vs := ZeroFilled(vertexDict, vertexDict.Keys, n);
      var ns := ZeroFilled(normalDict, vertexDict.Keys, n);
      && vs.Keys == ns.Keys
      && (forall k :: k in vs <==> k in vertexDict || 0 <= k < n)
      && (forall k :: k in vertexDict ==> vs[k] == vertexDict[k] && ns[k] == normalDict[k])
      && (forall k :: k in vs && k !in vertexDict ==> vs[k] == Origin && ns[k] == Origin)
  {
  }

  /**
   * The fill stops at the count, not at the largest index: indices {0, 5}
   * come out as {0, 1, 5}, three entries where the largest index is 5, and
   * indices 2, 3 and 4 stay absent.
   */
  lemma FillStopsAtCount(p: Vec3, q: Vec3)
    ensures var m := map[0 := p, 5 := q];
      var filled := ZeroFilled(m, m.Keys, |m|);
      && filled.Keys == {0, 1, 5}
      && |filled| == 3
      && filled[0] == p && filled[1] == Origin && filled[5] == q
  {
    var m := map[0 := p, 5 := q];
    assert m.Keys == {0, 5};
    assert |m| == 2;
    var filled := ZeroFilled(m, m.Keys, 2);
    forall k ensures k in filled <==> k in {0, 1, 5} {
      if k == 1 {
        assert 0 <= 1 < 2 && 1 !in m.Keys;
      }
    }
    assert filled.Keys == {0, 1, 5};
    assert filled[1] == Origin;
  }
}
