/** `Pair.DefaultImpl`: a mutable left/right record, and the helpers `of` and `extract`. */
module Pairs {

  class DefaultImpl<L(==), R(==)> {
    var left: L
    var right: R

    constructor (left: L, right: R)
      ensures this.left == left && this.right == right
    {
      this.left := left;
      this.right := right;
    }

    /** `l()` */
    function Left(): (l: L)
      reads this
      ensures l == left
    {
      left
    }

    /** `r()` */
    function Right(): (r: R)
      reads this
      ensures r == right
    {
      right
    }

    /** `sl(x)`: replaces the left value only. */
    method SetLeft(x: L)
      modifies this
      ensures Left() == x && Right() == old(Right())
    {
      left := x;
    }

    /** `sr(y)`: replaces the right value only. */
    method SetRight(y: R)
      modifies this
      ensures Right() == y && Left() == old(Left())
    {
      right := y;
    }

    /** `map()`: a one-entry map from the left value to the right value. */
    function Map(): (m: map<L, R>)
      reads this
      ensures m.Keys == {Left()} && |m| == 1
      ensures m[Left()] == Right()
    {
      map[left := right]
    }

    /** `equals(o)` against another pair; null is never equal. */
    function Equals(o: DefaultImpl?<L, R>): (b: bool)
      reads this, o
      ensures b ==> o != null && Map() == o.Map()
      ensures o != null && Map() == o.Map() ==> b
    {
      o != null && left == o.left && right == o.right
    }

    /**
     * `toString()` with the components rendered by `showL` and `showR`:
     * the rendered left value, one `=`, then the rendered right value.
     */
    function ToString(showL: L -> string, showR: R -> string): (s: string)
      reads this
      ensures |s| == |showL(Left())| + 1 + |showR(Right())|
      ensures s[..|showL(Left())|] == showL(Left())
      ensures s[|showL(Left())|] == '='
      ensures s[|showL(Left())| + 1..] == showR(Right())
    {
      showL(left) + "=" + showR(right)
    }
  }

  /** `Pair.of(l, r)` */
  method Of<L(==), R(==)>(l: L, r: R) returns (p: DefaultImpl<L, R>)
    ensures fresh(p)
    ensures p.Left() == l && p.Right() == r
  {
    p := new DefaultImpl(l, r);
  }

  /**
   * `Pair.extract(m)`: one fresh pair per entry of `m`. The order is the
   * map's iteration order, which the model leaves unspecified.
   */
  method Extract<L(==), R(==)>(m: map<L, R>) returns (ps: seq<DefaultImpl<L, R>>)
    ensures |ps| == |m|
    ensures forall i :: 0 <= i < |ps| ==> fresh(ps[i])
    ensures forall i :: 0 <= i < |ps| ==> ps[i].left in m && m[ps[i].left] == ps[i].right
    ensures forall k :: k in m ==> exists i :: 0 <= i < |ps| && ps[i].left == k
    ensures forall i, j :: 0 <= i < j < |ps| ==> ps[i].left != ps[j].left
  {
    ps := [];
    ghost var lefts: seq<L> := [];
    var rest := m.Keys;
    while rest != {}
      invariant rest <= m.Keys
      invariant |ps| == |lefts| && |lefts| + |rest| == |m|
      invariant forall i :: 0 <= i < |lefts| ==> lefts[i] in m && lefts[i] !in rest
      invariant forall i :: 0 <= i < |ps| ==> fresh(ps[i]) && ps[i].left == lefts[i] && ps[i].right == m[lefts[i]]
      invariant forall k :: k in m && k !in rest ==> k in lefts
      invariant forall i, j :: 0 <= i < j < |lefts| ==> lefts[i] != lefts[j]
      decreases |rest|
    {
      var k :| k in rest;
      var p := new DefaultImpl(k, m[k]);
      ps := ps + [p];
      lefts := lefts + [k];
      rest := rest - {k};
    }
    forall k | k in m
      ensures exists i :: 0 <= i < |ps| && ps[i].left == k
    {
      var i :| 0 <= i < |lefts| && lefts[i] == k;
      assert ps[i].left == k;
    }
  }

  /** Extracting the one-entry map of a pair yields exactly one pair, equal to it. */
  method ExtractOfMap<L(==), R(==)>(p: DefaultImpl<L, R>) returns (ps: seq<DefaultImpl<L, R>>)
    ensures |ps| == 1 && ps[0].Equals(p)
  {
    ps := Extract(p.Map());
    assert ps[0].left in p.Map();
  }

  /**
   * The pair test's scenario: extracting {key1: value1, key2: value2}
   * yields a pair equal to `of("key1", "value1")`.
   */
  method ExtractedPairEqualsOf() returns (found: bool)
    ensures found
  {
    var vm := map["key1" := "value1", "key2" := "value2"];
    var ps := Extract(vm);
    var q := Of("key1", "value1");
    found := false;
    var i := 0;
    while i < |ps|
      invariant 0 <= i <= |ps|
      invariant found <==> exists j :: 0 <= j < i && ps[j].Equals(q)
    {
      if ps[i].Equals(q) {
        found := true;
      }
      i := i + 1;
    }
    assert "key1" in vm;
    var w :| 0 <= w < |ps| && ps[w].left == "key1";
    assert ps[w].Equals(q);
  }
}
