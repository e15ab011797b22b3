/**
 * Densifying: both dictionaries are sorted by key and their values are
 * appended in ascending key order, giving the vertex and normal lists.
 */
module KeyOrder {
  import opened PixTypes

  ghost predicate Increasing(ks: seq<int>)
  {
    forall i, j :: 0 <= i < j < |ks| ==> ks[i] < ks[j]
  }

  /** `k` is the smallest element of `s`. */
  predicate IsLeast(s: set<int>, k: int)
  {
    k in s && forall j :: j in s ==> k <= j
  }

  /** A set with no element is the empty set. */
  lemma EmptyOrMember(s: set<int>)
    ensures s == {} || exists x :: x in s
  {
    if forall x :: x !in s {
      assert s == {};
    }
  }

  /** Every non-empty finite set of integers has a least element. */
  lemma {:induction false} HasLeast(s: set<int>)
    requires s != {}
    ensures exists k :: IsLeast(s, k)
    decreases |s|
  {
    EmptyOrMember(s);
    var pick :| pick in s;
    var rest := s - {pick};
    if rest == {} {
      forall j | j in s ensures pick <= j {
        assert j !in rest;
      }
      assert IsLeast(s, pick);
    } else {
      HasLeast(rest);
      var y :| IsLeast(rest, y);
      var k := if pick < y then pick else y;
      forall j | j in s ensures k <= j {
        if j != pick {
          assert j in rest;
        }
      }
      assert IsLeast(s, k);
    }
  }

  /** `sorted(keys)`: the keys listed smallest first, each exactly once. */
  function Ascending(s: set<int>): (ks: seq<int>)
    ensures Increasing(ks)
    ensures forall k :: k in ks <==> k in s
    ensures |ks| == |s|
    decreases |s|
  {
    if s == {} then []
    else
      HasLeast(s);
      var k :| IsLeast(s, k);
      [k] + Ascending(s - {k})
  }

  /** Any strictly increasing listing of exactly the keys is the sorted one: the order is fully determined. */
  lemma {:induction false} AscendingUnique(s: set<int>, ks: seq<int>)
    requires Increasing(ks)
    requires forall k :: k in ks <==> k in s
    ensures ks == Ascending(s)
    decreases |ks|
  {
    if ks == [] {
      assert forall x :: x !in s;
      assert s == {};
    } else {
      var k := ks[0];
      LeadingIsLeast(s, ks);
      var rest := ks[1..];
      RestAscending(s, ks);
      AscendingUnique(s - {k}, rest);
      assert ks == [k] + rest;
    }
  }

  /** The first entry of a strictly increasing listing of `s` is its least element. */
  lemma LeadingIsLeast(s: set<int>, ks: seq<int>)
    requires Increasing(ks) && ks != []
    requires forall k :: k in ks <==> k in s
    ensures IsLeast(s, ks[0])
  {
    forall j | j in s ensures ks[0] <= j {
      var t :| 0 <= t < |ks| && ks[t] == j;
    }
  }

  /** Dropping the first entry of a strictly increasing listing of `s` lists the rest of `s`. */
  lemma RestAscending(s: set<int>, ks: seq<int>)
    requires Increasing(ks) && ks != []
    requires forall k :: k in ks <==> k in s
    ensures Increasing(ks[1..])
    ensures forall x :: x in ks[1..] <==> x in s - {ks[0]}
  {
    var rest := ks[1..];
    forall x ensures x in rest <==> x in s - {ks[0]} {
      if x in rest {
        var t :| 0 <= t < |rest| && rest[t] == x;
        assert ks[t + 1] == x;
      }
      if x in s - {ks[0]} {
        var t :| 0 <= t < |ks| && ks[t] == x;
        assert rest[t - 1] == x;
      }
    }
  }

  /** The values of `m` listed by ascending key. */
  function Dense(m: map<int, Vec3>): (values: seq<Vec3>)
    ensures |values| == |m|
  {
    var ks := Ascending(m.Keys);
    seq(|ks|, t requires 0 <= t < |ks| => m[ks[t]])
  }

  /** Given the keys in increasing order and the value of each, the listing is those values in that order. */
  lemma DenseListing(m: map<int, Vec3>, ks: seq<int>, values: seq<Vec3>)
    requires Increasing(ks)
    requires forall k :: k in ks <==> k in m
    requires |values| == |ks|
    requires forall t :: 0 <= t < |ks| ==> ks[t] in m && m[ks[t]] == values[t]
    ensures Dense(m) == values
  {
    AscendingUnique(m.Keys, ks);
  }

  /**
   * Iterating the key-sorted dictionary and appending each value: value t is
   * the one stored under the t-th smallest key, so there is one value per key.
   */
  method ValuesInKeyOrder(m: map<int, Vec3>) returns (values: seq<Vec3>)
    ensures values == Dense(m)
  {
    var sorted := Ascending(m.Keys);
    values := [];
    for t := 0 to |sorted|
      invariant values == Dense(m)[..t]
    {
      values := values + [m[sorted[t]]];
    }
  }

  /**
   * Two dictionaries with the same keys give lists of the same length, and
   * entry t of both comes from the same key, the t-th smallest.
   */
  lemma SameKeysAligned(a: map<int, Vec3>, b: map<int, Vec3>)
    requires a.Keys == b.Keys
    ensures |Dense(a)| == |Dense(b)| == |a|
    ensures forall t :: 0 <= t < |Dense(a)| ==>
              var k := Ascending(a.Keys)[t];
              k in a && k in b && Dense(a)[t] == a[k] && Dense(b)[t] == b[k]
  {
  }
}
