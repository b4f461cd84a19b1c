/** `JSONArray.getDimensions`: for each nesting depth, the largest length of
    an array found at that depth. */
module Dimensions {
  import opened JsonValues

  function Max(x: int, y: int): int {
    if x >= y then x else y
  }

  // ---------------------------------------------------------------------
  // The library's accumulation
  // ---------------------------------------------------------------------

  /** The update `processArrayDimensions` makes for an array of length
      `len` met at depth `index`: a new depth is appended, a known depth
      grows to `len` if `len` is larger. */
  function Record(dims: seq<int>, len: int, index: nat): (r: seq<int>)
    requires index <= |dims|
    ensures |r| == if index == |dims| then index + 1 else |dims|
  {
    if |dims| <= index then dims + [len]
    else if len > dims[index] then dims[index := len]
    else dims
  }

  /** `processArrayDimensions(array, dims, index)`: record this array, then
      visit the nested arrays among its elements in order, one level down. */
  function Process(es: seq<JsonValue>, dims: seq<int>, index: nat): (r: seq<int>)
    requires index <= |dims|
    ensures |r| > index
    decreases es, 1
  {
    ProcessChildren(es, Record(dims, |es|, index), index + 1)
  }

  /** The loop over the elements of an array whose children sit at depth
      `index`. */
  function ProcessChildren(items: seq<JsonValue>, dims: seq<int>, index: nat): (r: seq<int>)
    requires index <= |dims|
    ensures |r| >= |dims|
    decreases items, 0
  {
    if items == [] then dims
    else
      var dims' := if items[0].Array? then Process(items[0].elems, dims, index) else dims;
      ProcessChildren(items[1..], dims', index)
  }

  /** `getDimensions(array)`: `[0]` for an empty array, otherwise the
      accumulated depths. */
  function GetDimensions(es: seq<JsonValue>): (dims: seq<int>)
    ensures |dims| >= 1
  {
    if |es| == 0 then [0] else Process(es, [], 0)
  }

  // ---------------------------------------------------------------------
  // The reference: level-wise maxima
  // ---------------------------------------------------------------------

  /** Level-wise maximum of two depth profiles; the longer one supplies the
      levels the shorter lacks. */
  function Merge(p: seq<int>, q: seq<int>): (r: seq<int>)
    ensures |r| == if |p| >= |q| then |p| else |q|
    ensures forall j :: 0 <= j < |r| ==>
              r[j] == if j < |p| && j < |q| then Max(p[j], q[j]) else if j < |p| then p[j] else q[j]
  {
    if p == [] then q
    else if q == [] then p
    else [Max(p[0], q[0])] + Merge(p[1..], q[1..])
  }

  /** The depth profile of an array: its own length, then, level by level,
      the largest length among the nested arrays at that level. */
  function Profile(es: seq<JsonValue>): (r: seq<int>)
    ensures |r| >= 1 && r[0] == |es|
    decreases es, 1
  {
    [|es|] + ChildrenProfile(es)
  }

  /** The level-wise maximum of the profiles of the nested arrays among
      `items`. */
  function ChildrenProfile(items: seq<JsonValue>): seq<int>
    decreases items, 0
  {
    if items == [] then []
    else Merge(if items[0].Array? then Profile(items[0].elems) else [], ChildrenProfile(items[1..]))
  }

  // ---------------------------------------------------------------------
  // Accumulation computes the profile
  // ---------------------------------------------------------------------

  /** `dims` with `prof` merged in from depth `index` on. */
  function MergeAt(dims: seq<int>, prof: seq<int>, index: nat): seq<int>
    requires index <= |dims|
  {
    dims[..index] + Merge(dims[index..], prof)
  }

  lemma MergeAssociative(a: seq<int>, b: seq<int>, c: seq<int>)
    ensures Merge(Merge(a, b), c) == Merge(a, Merge(b, c))
  {
  }

  lemma MergeNeutral(p: seq<int>)
    ensures Merge(p, []) == p && Merge([], p) == p
  {
  }

  lemma RecordIsMerge(dims: seq<int>, len: int, index: nat)
    requires index <= |dims|
    ensures Record(dims, len, index) == MergeAt(dims, [len], index)
  {
    var r := MergeAt(dims, [len], index);
    if index < |dims| {
      assert |r| == |dims|;
      assert forall j :: 0 <= j < |r| ==> r[j] == Record(dims, len, index)[j];
    } else {
      assert dims[index..] == [];
    }
  }

  /** Merging twice at the same depth is merging the merged profiles. */
  lemma MergeAtTwice(dims: seq<int>, p: seq<int>, q: seq<int>, index: nat)
    requires index <= |dims|
    ensures index <= |MergeAt(dims, p, index)|
    ensures MergeAt(MergeAt(dims, p, index), q, index) == MergeAt(dims, Merge(p, q), index)
  {
    var d := MergeAt(dims, p, index);
    assert d[..index] == dims[..index];
    assert d[index..] == Merge(dims[index..], p);
    MergeAssociative(dims[index..], p, q);
  }

  /** Merging `[x]` at `index` and then `q` one level down is merging
      `[x] + q` at `index`. */
  lemma MergeAtCons(dims: seq<int>, x: int, q: seq<int>, index: nat)
    requires index <= |dims|
    ensures index + 1 <= |MergeAt(dims, [x], index)|
    ensures MergeAt(MergeAt(dims, [x], index), q, index + 1) == MergeAt(dims, [x] + q, index)
  {
    var d := MergeAt(dims, [x], index);
    var lhs := MergeAt(d, q, index + 1);
    var rhs := MergeAt(dims, [x] + q, index);
    if index < |dims| {
      assert d[..index + 1] == dims[..index] + [Max(dims[index], x)];
      assert d[index + 1..] == dims[index + 1..];
    } else {
      assert d == dims + [x];
      assert d[index + 1..] == [];
      assert dims[index..] == [];
    }
    assert |lhs| == |rhs|;
    assert forall j :: 0 <= j < |lhs| ==> lhs[j] == rhs[j];
  }

  /** `processArrayDimensions` merges the array's profile into `dims` at
      `index`; the loop over its elements merges their profiles one level
      down. */
  lemma {:induction false} ProcessMerges(es: seq<JsonValue>, dims: seq<int>, index: nat)
    requires index <= |dims|
    ensures Process(es, dims, index) == MergeAt(dims, Profile(es), index)
    decreases es, 1
  {
    var d := Record(dims, |es|, index);
    RecordIsMerge(dims, |es|, index);
    ChildrenMerge(es, d, index + 1);
    MergeAtCons(dims, |es|, ChildrenProfile(es), index);
  }

  lemma {:induction false} ChildrenMerge(items: seq<JsonValue>, dims: seq<int>, index: nat)
    requires index <= |dims|
    ensures ProcessChildren(items, dims, index) == MergeAt(dims, ChildrenProfile(items), index)
    decreases items, 0
  {
    if items == [] {
      MergeNeutral(dims[index..]);
      assert dims[..index] + dims[index..] == dims;
    } else {
      var head := if items[0].Array? then Profile(items[0].elems) else [];
      var dims' := if items[0].Array? then Process(items[0].elems, dims, index) else dims;
      if items[0].Array? {
        ProcessMerges(items[0].elems, dims, index);
      } else {
        MergeNeutral(dims[index..]);
        assert dims[..index] + dims[index..] == dims;
      }
      assert dims' == MergeAt(dims, head, index);
      ChildrenMerge(items[1..], dims', index);
      MergeAtTwice(dims, head, ChildrenProfile(items[1..]), index);
    }
  }

  /** `getDimensions` returns the depth profile, the empty array included
      (its profile is `[0]`, which the short circuit returns directly). */
  lemma DimensionsAreProfile(es: seq<JsonValue>)
    ensures GetDimensions(es) == Profile(es)
  {
    if |es| > 0 {
      ProcessMerges(es, [], 0);
      MergeNeutral(Profile(es));
    }
  }

  // ---------------------------------------------------------------------
  // The profile as maxima of the lengths at each depth
  // ---------------------------------------------------------------------

  /** The lengths of all arrays at depth `d` below `es` (depth 0 is `es`
      itself), in document order. */
  function LengthsAt(es: seq<JsonValue>, d: nat): seq<int>
    decreases es, 1
  {
    if d == 0 then [|es|] else ChildLengthsAt(es, d - 1)
  }

  function ChildLengthsAt(items: seq<JsonValue>, d: nat): seq<int>
    decreases items, 0
  {
    if items == [] then []
    else (if items[0].Array? then LengthsAt(items[0].elems, d) else []) + ChildLengthsAt(items[1..], d)
  }

  /** `m` is the largest member of `ls`. */
  predicate IsMaxOf(m: int, ls: seq<int>) {
    m in ls && forall k :: 0 <= k < |ls| ==> ls[k] <= m
  }

  /** Level `d` of the profile exists exactly when some array sits at depth
      `d`, and then it is the largest length at that depth. */
  lemma {:induction false} ProfileIsLevelMax(es: seq<JsonValue>, d: nat)
    ensures d < |Profile(es)| <==> LengthsAt(es, d) != []
    ensures d < |Profile(es)| ==> IsMaxOf(Profile(es)[d], LengthsAt(es, d))
    decreases es, 1
  {
    var cp := ChildrenProfile(es);
    assert Profile(es) == [|es|] + cp;
    if d == 0 {
      assert LengthsAt(es, 0) == [|es|];
    } else {
      ChildrenProfileIsLevelMax(es, d - 1);
      assert LengthsAt(es, d) == ChildLengthsAt(es, d - 1);
      hide *;
      assert d < |Profile(es)| ==> Profile(es)[d] == cp[d - 1];
    }
  }

  /** Level `d` of a merged profile summarises the lengths both profiles
      summarise. */
  lemma MergeSummarises(p: seq<int>, q: seq<int>, lp: seq<int>, lq: seq<int>, d: nat)
    requires d < |p| <==> lp != []
    requires d < |p| ==> IsMaxOf(p[d], lp)
    requires d < |q| <==> lq != []
    requires d < |q| ==> IsMaxOf(q[d], lq)
    ensures d < |Merge(p, q)| <==> lp + lq != []
    ensures d < |Merge(p, q)| ==> IsMaxOf(Merge(p, q)[d], lp + lq)
  {
    var all := lp + lq;
    if d < |Merge(p, q)| {
      var m := Merge(p, q)[d];
      if d < |p| && d < |q| {
        assert m in all by {
          if p[d] >= q[d] {
            assert m == p[d];
            var k :| 0 <= k < |lp| && lp[k] == m;
            assert all[k] == m;
          } else {
            assert m == q[d];
            var k :| 0 <= k < |lq| && lq[k] == m;
            assert all[|lp| + k] == m;
          }
        }
        forall k | 0 <= k < |all| ensures all[k] <= m {
          if k >= |lp| {
            assert all[k] == lq[k - |lp|];
          }
        }
      } else if d < |p| {
        assert lq == [] && all == lp;
      } else {
        assert lp == [] && all == lq;
      }
    }
  }

  lemma {:induction false} ChildrenProfileIsLevelMax(items: seq<JsonValue>, d: nat)
    ensures d < |ChildrenProfile(items)| <==> ChildLengthsAt(items, d) != []
    ensures d < |ChildrenProfile(items)| ==> IsMaxOf(ChildrenProfile(items)[d], ChildLengthsAt(items, d))
    decreases items, 0
  {
    if items != [] {
      var head := if items[0].Array? then Profile(items[0].elems) else [];
      var headLs := if items[0].Array? then LengthsAt(items[0].elems, d) else [];
      if items[0].Array? {
        ProfileIsLevelMax(items[0].elems, d);
      }
      ChildrenProfileIsLevelMax(items[1..], d);
      MergeSummarises(head, ChildrenProfile(items[1..]), headLs, ChildLengthsAt(items[1..], d), d);
    }
  }

  /** The library's result, read level by level: the number of levels is
      the nesting depth, and each level holds the largest length there. */
  lemma DimensionsAreLevelMaxima(es: seq<JsonValue>, d: nat)
    ensures d < |GetDimensions(es)| <==> LengthsAt(es, d) != []
    ensures d < |GetDimensions(es)| ==> IsMaxOf(GetDimensions(es)[d], LengthsAt(es, d))
  {
    DimensionsAreProfile(es);
    ProfileIsLevelMax(es, d);
  }

  /** `[[1,2],[3]]` has dimensions `[2, 2]`. */
  lemma DimensionsFlat()
    ensures GetDimensions([Array([Num(1), Num(2)]), Array([Num(3)])]) == [2, 2]
  {
    var a := [Array([Num(1), Num(2)]), Array([Num(3)])];
    DimensionsAreProfile(a);
    assert a[1..] == [Array([Num(3)])];
    assert ChildrenProfile([Num(1), Num(2)]) == [];
    assert ChildrenProfile([Num(3)]) == [];
    assert Profile([Num(3)]) == [1];
    assert ChildrenProfile(a[1..]) == [1];
  }

  /** `[[],[[1]]]` has dimensions `[2, 1, 1]`: the empty nested array
      counts at depth 1 but contributes nothing below. */
  lemma DimensionsRagged()
    ensures GetDimensions([Array([]), Array([Array([Num(1)])])]) == [2, 1, 1]
  {
    var b := [Array([]), Array([Array([Num(1)])])];
    DimensionsAreProfile(b);
    assert b[1..] == [Array([Array([Num(1)])])];
    SingletonNestedProfile();
    assert ChildrenProfile(b[1..]) == [1, 1];
  }

  /** `[[1]]` has profile `[1, 1]`. */
  lemma SingletonNestedProfile()
    ensures Profile([Array([Num(1)])]) == [1, 1]
  {
    assert ChildrenProfile([Num(1)]) == [];
    assert Profile([Num(1)]) == [1];
    assert ChildrenProfile([Array([Num(1)])]) == [1];
  }
}
