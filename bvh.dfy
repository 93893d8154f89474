/**
 * Bounding volume hierarchy construction (src/bvh.rs) and the box comparators it sorts with (src/aabb.rs). The
 * random axis each `BvhNode::new` call draws is supplied by `axisOf`, a function of the node's range; distinct
 * nodes of one build have distinct ranges.
 */
module Bvh {
  import opened Wrappers
  import opened Vectors
  import opened Aabbs
  import opened Hittables

  /**
   * `AABB::box_compare(a, b, axis)`: both boxes are asked for with times 0 and 0 and a zero scratch box. If `a` has
   * no box, `b` is not asked (the `||` short-circuits) and stays the zero box; the failure is only reported. The
   * order is that of the `minimum` fields at `axis`.
   */
  function BoxCompare(a: Hittable, b: Hittable, axis: int): (o: Ordering)
    requires 0 <= axis < 3 && BoxDefined(a) && BoxDefined(b)
    ensures BoxOf(a, 0.0, 0.0).0 && BoxOf(b, 0.0, 0.0).0 ==>
              o == CompareMinimum(BoxOf(a, 0.0, 0.0).1, BoxOf(b, 0.0, 0.0).1, axis)
    ensures !BoxOf(a, 0.0, 0.0).0 ==> o == CompareMinimum(BoxOf(a, 0.0, 0.0).1, ZeroBox(), axis)
  {
    var (okA, boxA) := BoundingBox(a, 0.0, 0.0, ZeroBox());
    var (_, boxB) := if okA then BoundingBox(b, 0.0, 0.0, ZeroBox()) else (false, ZeroBox());
    CompareMinimum(boxA, boxB, axis)
  }

  /** Whether `h` has a box when asked as `box_compare` asks. */
  predicate HasBox(h: Hittable)
    requires BoxDefined(h)
  {
    BoxOf(h, 0.0, 0.0).0
  }

  /** The sort key `box_compare` reads: the `minimum` field of the box at `axis`. */
  function Key(h: Hittable, axis: int): real
    requires 0 <= axis < 3 && BoxDefined(h)
  {
    E(BoxOf(h, 0.0, 0.0).1.Min(), axis)
  }

  /** `box_x_compare`: `Less` exactly when the `minimum` x of `a`'s box is below `b`'s, when both boxes exist. */
  function BoxXCompare(a: Hittable, b: Hittable): (o: Ordering)
    requires BoxDefined(a) && BoxDefined(b)
    ensures HasBox(a) && HasBox(b) ==> (o == Less <==> BoxOf(a, 0.0, 0.0).1.minimum.x < BoxOf(b, 0.0, 0.0).1.minimum.x)
  {
    BoxCompare(a, b, 0)
  }

  /** `box_y_compare`, on the y components. */
  function BoxYCompare(a: Hittable, b: Hittable): (o: Ordering)
    requires BoxDefined(a) && BoxDefined(b)
    ensures HasBox(a) && HasBox(b) ==> (o == Less <==> BoxOf(a, 0.0, 0.0).1.minimum.y < BoxOf(b, 0.0, 0.0).1.minimum.y)
  {
    BoxCompare(a, b, 1)
  }

  /** `box_z_compare`, on the z components. */
  function BoxZCompare(a: Hittable, b: Hittable): (o: Ordering)
    requires BoxDefined(a) && BoxDefined(b)
    ensures HasBox(a) && HasBox(b) ==> (o == Less <==> BoxOf(a, 0.0, 0.0).1.minimum.z < BoxOf(b, 0.0, 0.0).1.minimum.z)
  {
    BoxCompare(a, b, 2)
  }

  /** The comparator `BvhNode::new` picks for the drawn axis: x for 0, y for 1, z for anything else. */
  function ComparatorAxis(axis: int): (k: int)
    ensures 0 <= k < 3
    ensures axis == 0 ==> k == 0
    ensures axis == 1 ==> k == 1
    ensures axis != 0 && axis != 1 ==> k == 2
  {
    if axis == 0 then 0 else if axis == 1 then 1 else 2
  }

  /**
   * Place `x` into `sorted` after every element it is not `Less` than, scanning from the back; this keeps equal
   * elements in their original order.
   */
  function InsertBy(sorted: seq<Hittable>, x: Hittable, axis: int): (r: seq<Hittable>)
    requires 0 <= axis < 3 && AllBoxDefined(sorted) && BoxDefined(x)
    ensures multiset(r) == multiset(sorted) + multiset{x}
    ensures |r| == |sorted| + 1
  {
    if |sorted| == 0 then [x]
    else
      var last := sorted[|sorted| - 1];
      assert sorted == sorted[..|sorted| - 1] + [last];
      if BoxCompare(x, last, axis) == Less then InsertBy(sorted[..|sorted| - 1], x, axis) + [last]
      else sorted + [x]
  }

  /** `objects.sort_by(comparator)`, as a stable insertion sort of the whole vector: a permutation of it. */
  function SortBy(s: seq<Hittable>, axis: int): (r: seq<Hittable>)
    requires 0 <= axis < 3 && AllBoxDefined(s)
    ensures multiset(r) == multiset(s)
    ensures |r| == |s|
  {
    if |s| == 0 then []
    else
      assert s == s[..|s| - 1] + [s[|s| - 1]];
      var prefix := SortBy(s[..|s| - 1], axis);
      PermutationKeepsDefined(prefix, s[..|s| - 1]);
      InsertBy(prefix, s[|s| - 1], axis)
  }

  lemma PermutationKeepsDefined(r: seq<Hittable>, s: seq<Hittable>)
    requires multiset(r) == multiset(s) && AllBoxDefined(s)
    ensures AllBoxDefined(r)
  {
    forall i | 0 <= i < |r| ensures BoxDefined(r[i]) {
      assert r[i] in multiset(s);
    }
  }

  predicate AllHaveBoxes(s: seq<Hittable>)
    requires AllBoxDefined(s)
  {
    forall i :: 0 <= i < |s| ==> HasBox(s[i])
  }

  predicate SortedByKey(s: seq<Hittable>, axis: int)
    requires 0 <= axis < 3 && AllBoxDefined(s)
  {
    forall i, j :: 0 <= i < j < |s| ==> Key(s[i], axis) <= Key(s[j], axis)
  }

  lemma PermutationKeepsBoxes(r: seq<Hittable>, s: seq<Hittable>)
    requires multiset(r) == multiset(s) && AllBoxDefined(s) && AllHaveBoxes(s)
    ensures AllBoxDefined(r) && AllHaveBoxes(r)
  {
    PermutationKeepsDefined(r, s);
    forall i | 0 <= i < |r| ensures HasBox(r[i]) {
      assert r[i] in multiset(s);
      var j :| 0 <= j < |s| && s[j] == r[i];
    }
  }

  /** With both boxes present, `box_compare` answers `Less` exactly when the first key is the smaller. */
  lemma CompareIsKeyOrder(a: Hittable, b: Hittable, axis: int)
    requires 0 <= axis < 3 && BoxDefined(a) && BoxDefined(b) && HasBox(a) && HasBox(b)
    ensures BoxCompare(a, b, axis) == Less <==> Key(a, axis) < Key(b, axis)
  {
  }

  /** Appending an element no smaller than every key keeps a sequence sorted. */
  lemma AppendSorted(s: seq<Hittable>, y: Hittable, axis: int)
    requires 0 <= axis < 3 && AllBoxDefined(s) && BoxDefined(y) && SortedByKey(s, axis)
    requires forall i :: 0 <= i < |s| ==> Key(s[i], axis) <= Key(y, axis)
    ensures AllBoxDefined(s + [y]) && SortedByKey(s + [y], axis)
  {
    var t := s + [y];
    assert forall i :: 0 <= i < |s| ==> t[i] == s[i];
    assert t[|s|] == y;
  }

  /** A bound on every key survives a permutation. */
  lemma PermutationKeepsBound(r: seq<Hittable>, s: seq<Hittable>, y: Hittable, axis: int)
    requires 0 <= axis < 3 && multiset(r) == multiset(s) && AllBoxDefined(s) && BoxDefined(y)
    requires forall i :: 0 <= i < |s| ==> Key(s[i], axis) <= Key(y, axis)
    ensures AllBoxDefined(r) && forall i :: 0 <= i < |r| ==> Key(r[i], axis) <= Key(y, axis)
  {
    PermutationKeepsDefined(r, s);
    forall i | 0 <= i < |r| ensures Key(r[i], axis) <= Key(y, axis) {
      assert r[i] in multiset(s);
      var j :| 0 <= j < |s| && s[j] == r[i];
    }
  }

  lemma {:induction false} InsertBySorted(sorted: seq<Hittable>, x: Hittable, axis: int)
    requires 0 <= axis < 3 && AllBoxDefined(sorted) && BoxDefined(x)
    requires AllHaveBoxes(sorted) && HasBox(x) && SortedByKey(sorted, axis)
    ensures AllBoxDefined(InsertBy(sorted, x, axis)) && SortedByKey(InsertBy(sorted, x, axis), axis)
    decreases |sorted|
  {
    var r := InsertBy(sorted, x, axis);
    PermutationKeepsBoxes(r, sorted + [x]);
    if |sorted| > 0 {
      var last := sorted[|sorted| - 1];
      var prefix := sorted[..|sorted| - 1];
      CompareIsKeyOrder(x, last, axis);
      if BoxCompare(x, last, axis) == Less {
        assert AllBoxDefined(prefix) && AllHaveBoxes(prefix) && SortedByKey(prefix, axis);
        InsertBySorted(prefix, x, axis);
        var inner := InsertBy(prefix, x, axis);
        var pool := prefix + [x];
        forall i | 0 <= i < |pool| ensures Key(pool[i], axis) <= Key(last, axis) {
          if i < |prefix| {
            assert pool[i] == sorted[i];
          }
        }
        PermutationKeepsBound(inner, pool, last, axis);
        assert r == inner + [last];
        AppendSorted(inner, last, axis);
      } else {
        forall i | 0 <= i < |sorted| ensures Key(sorted[i], axis) <= Key(x, axis) {
          if i < |sorted| - 1 {
            assert Key(sorted[i], axis) <= Key(last, axis);
          }
        }
        assert r == sorted + [x];
        AppendSorted(sorted, x, axis);
      }
    }
  }

  /** When every object has a box, the sorted vector is ordered by the comparator's key. */
  lemma {:induction false} SortBySorted(s: seq<Hittable>, axis: int)
    requires 0 <= axis < 3 && AllBoxDefined(s) && AllHaveBoxes(s)
    ensures AllBoxDefined(SortBy(s, axis)) && SortedByKey(SortBy(s, axis), axis)
    decreases |s|
  {
    if |s| > 0 {
      var front := s[..|s| - 1];
      SortBySorted(front, axis);
      PermutationKeepsBoxes(SortBy(front, axis), front);
      InsertBySorted(SortBy(front, axis), s[|s| - 1], axis);
    }
  }

  /** The node's children were taken from `elems`, directly or through nodes built the same way. */
  predicate FromElements(h: Hittable, elems: set<Hittable>) {
    h.BvhNode? && (h.left in elems || FromElements(h.left, elems)) && (h.right in elems || FromElements(h.right, elems))
  }

  /**
   * `BvhNode::new(src_objects, start, end, time0, time1)`: clone the whole vector, then a span of one uses
   * `objects[start]` twice, a span of two orders the pair by the comparator, and a longer span sorts the whole clone
   * and splits at `start + span / 2`. The node's box surrounds the children's boxes; a missing box is only reported.
   */
  function Build(src: seq<Hittable>, start: nat, end: nat, time0: real, time1: real, axisOf: (nat, nat) -> int)
    : (node: Hittable)
    requires start < end <= |src| && AllBoxDefined(src)
    ensures node.BvhNode?
    ensures FromElements(node, set x | x in src)
    decreases end - start
  {
    var objects := src;
    var k := ComparatorAxis(axisOf(start, end));
    var objectSpan := end - start;
    var (left, right) := (
      if objectSpan == 1 then (objects[start], objects[start])
      else if objectSpan == 2 then
        if BoxCompare(objects[start], objects[start + 1], k) == Less then (objects[start], objects[start + 1])
        else (objects[start + 1], objects[start])
      else
        var sorted := SortBy(objects, k);
        PermutationKeepsDefined(sorted, objects);
        var mid := start + objectSpan / 2;
        var l, r := Build(sorted, start, mid, time0, time1, axisOf), Build(sorted, mid, end, time0, time1, axisOf);
        SameElements(sorted, objects);
        (l, r));
    var (okLeft, boxLeft) := BoundingBox(left, time0, time1, ZeroBox());
    var (_, boxRight) := if okLeft then BoundingBox(right, time0, time1, ZeroBox()) else (false, ZeroBox());
    BvhNode(left, right, SurroundingBox(boxLeft, boxRight))
  }

  lemma SameElements(r: seq<Hittable>, s: seq<Hittable>)
    requires multiset(r) == multiset(s)
    ensures (set x | x in r) == (set x | x in s)
  {
    forall x ensures x in r <==> x in s {
      assert x in r <==> x in multiset(r);
      assert x in s <==> x in multiset(s);
    }
  }

  /** `BvhNode::from(list, time0, time1)`: the build over the whole list, which must not be empty. */
  function From(list: seq<Hittable>, time0: real, time1: real, axisOf: (nat, nat) -> int): (node: Hittable)
    requires 0 < |list| && AllBoxDefined(list)
    ensures node.BvhNode? && FromElements(node, set x | x in list)
  {
    Build(list, 0, |list|, time0, time1, axisOf)
  }

  /** With a span of one, both children are `objects[start]`. */
  lemma BuildSpanOne(src: seq<Hittable>, start: nat, time0: real, time1: real, axisOf: (nat, nat) -> int)
    requires start + 1 <= |src| && AllBoxDefined(src)
    ensures var node := Build(src, start, start + 1, time0, time1, axisOf);
            node.left == src[start] && node.right == src[start]
  {
  }

  /** With a span of two, the pair stays in order exactly when the comparator says `Less`, and is swapped otherwise. */
  lemma BuildSpanTwo(src: seq<Hittable>, start: nat, time0: real, time1: real, axisOf: (nat, nat) -> int)
    requires start + 2 <= |src| && AllBoxDefined(src)
    ensures var node := Build(src, start, start + 2, time0, time1, axisOf);
            var k := ComparatorAxis(axisOf(start, start + 2));
            (BoxCompare(src[start], src[start + 1], k) == Less ==> node.left == src[start] && node.right == src[start + 1]) &&
            (BoxCompare(src[start], src[start + 1], k) != Less ==> node.left == src[start + 1] && node.right == src[start])
  {
  }

  /**
   * With a span of three or more, both children are built from the sorted clone of the whole vector, over
   * `[start, mid)` and `[mid, end)`, both non-empty and strictly shorter than the span.
   */
  lemma BuildSplits(src: seq<Hittable>, start: nat, end: nat, time0: real, time1: real, axisOf: (nat, nat) -> int)
    requires start + 3 <= end <= |src| && AllBoxDefined(src)
    ensures var mid := start + (end - start) / 2;
            var sorted := SortBy(src, ComparatorAxis(axisOf(start, end)));
            var node := Build(src, start, end, time0, time1, axisOf);
            start < mid < end && mid - start < end - start && end - mid < end - start &&
            AllBoxDefined(sorted) &&
            node.left == Build(sorted, start, mid, time0, time1, axisOf) &&
            node.right == Build(sorted, mid, end, time0, time1, axisOf)
  {
    PermutationKeepsDefined(SortBy(src, ComparatorAxis(axisOf(start, end))), src);
  }

  /** When both children have boxes, the node's box surrounds them; `bounding_box` hands back that cached box. */
  lemma BuildBox(src: seq<Hittable>, start: nat, end: nat, time0: real, time1: real, axisOf: (nat, nat) -> int,
                 out: Aabb)
    requires start < end <= |src| && AllBoxDefined(src)
    ensures var node := Build(src, start, end, time0, time1, axisOf);
            BoundingBox(node, time0, time1, out) == (true, node.bbox) &&
            (BoxDefined(node.left) && BoxDefined(node.right) &&
             BoxOf(node.left, time0, time1).0 && BoxOf(node.right, time0, time1).0 ==>
               node.bbox == SurroundingBox(BoxOf(node.left, time0, time1).1, BoxOf(node.right, time0, time1).1))
  {
  }
  /**
   * The objects a node built over the span `[start, end)` takes as leaves, read along the shape `BvhNode::new`
   * gives it: a span of one contributes its object once, a span of two its pair, and a longer span its two halves,
   * split at `start + span / 2`.
   */
  function SpanLeaves(h: Hittable, start: nat, end: nat): multiset<Hittable>
    decreases end - start
  {
    if !h.BvhNode? || end <= start then multiset{}
    else if end - start == 1 then multiset{h.left}
    else if end - start == 2 then multiset{h.left, h.right}
    else
      var mid := start + (end - start) / 2;
      SpanLeaves(h.left, start, mid) + SpanLeaves(h.right, mid, end)
  }

  /** Sorting only `objects[start..end]` of the clone, as `objects[start..end].sort_by(comparator)` does. */
  function SortSpan(objects: seq<Hittable>, start: nat, end: nat, axis: int): (r: seq<Hittable>)
    requires start <= end <= |objects| && 0 <= axis < 3 && AllBoxDefined(objects)
    ensures |r| == |objects| && AllBoxDefined(r)
    ensures multiset(r[start..end]) == multiset(objects[start..end])
  {
    var span := objects[start..end];
    assert AllBoxDefined(span) by {
      forall i | 0 <= i < |span| ensures BoxDefined(span[i]) {
        assert span[i] == objects[start + i];
      }
    }
    var sorted := SortBy(span, axis);
    PermutationKeepsDefined(sorted, span);
    var r := objects[..start] + sorted + objects[end..];
    assert r[start..end] == sorted;
    assert AllBoxDefined(r) by {
      forall i | 0 <= i < |r| ensures BoxDefined(r[i]) {
        if i < start {
          assert r[i] == objects[i];
        } else if i < end {
          assert r[i] == sorted[i - start];
        } else {
          assert r[i] == objects[i];
        }
      }
    }
    r
  }

  /** A node over `left` and `right` whose cached box surrounds theirs, as the tail of `BvhNode::new` builds it. */
  function MakeNode(left: Hittable, right: Hittable, time0: real, time1: real): (node: Hittable)
    requires BoxDefined(left) && BoxDefined(right)
    ensures node.BvhNode? && node.left == left && node.right == right
  {
    var (okLeft, boxLeft) := BoundingBox(left, time0, time1, ZeroBox());
    var (_, boxRight) := if okLeft then BoundingBox(right, time0, time1, ZeroBox()) else (false, ZeroBox());
    BvhNode(left, right, SurroundingBox(boxLeft, boxRight))
  }

  /** A node over a longer span takes the leaves of its two halves. */
  lemma LeavesOfHalves(node: Hittable, start: nat, mid: nat, end: nat, leftLeaves: multiset<Hittable>,
                       rightLeaves: multiset<Hittable>, leaves: multiset<Hittable>)
    requires node.BvhNode? && start + 3 <= end && mid == start + (end - start) / 2
    requires SpanLeaves(node.left, start, mid) == leftLeaves && SpanLeaves(node.right, mid, end) == rightLeaves
    requires leftLeaves + rightLeaves == leaves
    ensures SpanLeaves(node, start, end) == leaves
  {
  }

  /** Sorting the span leaves the rest of the clone where it was. */
  lemma SortSpanKeepsRest(objects: seq<Hittable>, start: nat, end: nat, axis: int)
    requires start <= end <= |objects| && 0 <= axis < 3 && AllBoxDefined(objects)
    ensures var r := SortSpan(objects, start, end, axis);
            r[..start] == objects[..start] && r[end..] == objects[end..]
  {
  }

  /**
   * `BvhNode::new` as evidently intended: a longer span sorts only its own range of the clone before splitting.
   * Every object of `src[start..end]` is then a leaf exactly once, and nothing else is.
   */
  function BuildSpanSorted(src: seq<Hittable>, start: nat, end: nat, time0: real, time1: real,
                           axisOf: (nat, nat) -> int): (node: Hittable)
    requires start < end <= |src| && AllBoxDefined(src)
    ensures node.BvhNode?
    ensures SpanLeaves(node, start, end) == multiset(src[start..end])
    decreases end - start, 1
  {
    var objectSpan := end - start;
    if objectSpan == 1 then
      assert src[start..end] == [src[start]];
      MakeNode(src[start], src[start], time0, time1)
    else if objectSpan == 2 then
      assert src[start..end] == [src[start], src[start + 1]];
      if BoxCompare(src[start], src[start + 1], ComparatorAxis(axisOf(start, end))) == Less then
        MakeNode(src[start], src[start + 1], time0, time1)
      else
        MakeNode(src[start + 1], src[start], time0, time1)
    else
      SplitNode(src, start, end, time0, time1, axisOf)
  }

  /** A span of three or more: sort `objects[start..end]` of the clone and build both halves of it. */
  function SplitNode(src: seq<Hittable>, start: nat, end: nat, time0: real, time1: real,
                     axisOf: (nat, nat) -> int): (node: Hittable)
    requires start + 3 <= end <= |src| && AllBoxDefined(src)
    ensures node.BvhNode?
    ensures SpanLeaves(node, start, end) == multiset(src[start..end])
    decreases end - start, 0
  {
    var objectSpan := end - start;
    var sorted := SortSpan(src, start, end, ComparatorAxis(axisOf(start, end)));
    var mid := start + objectSpan / 2;
    var l := BuildSpanSorted(sorted, start, mid, time0, time1, axisOf);
    var r := BuildSpanSorted(sorted, mid, end, time0, time1, axisOf);
    var node := MakeNode(l, r, time0, time1);
    SliceSplit(sorted, start, mid, end);
    LeavesOfHalves(node, start, mid, end, multiset(sorted[start..mid]), multiset(sorted[mid..end]),
                   multiset(src[start..end]));
    node
  }

  lemma SliceSplit(s: seq<Hittable>, i: nat, j: nat, k: nat)
    requires i <= j <= k <= |s|
    ensures multiset(s[i..k]) == multiset(s[i..j]) + multiset(s[j..k])
  {
    assert s[i..k] == s[i..j] + s[j..k];
  }

  /** A block with no sides whose box has `minimum` corner `(x, y, 0)`: its x key is `x` and its y key `y`. */
  function Marker(x: real, y: real): Hittable {
    Block(Vec3(x, y, 0.0), Vec3(0.0, 0.0, 0.0), [])
  }

  lemma MarkerKeys(x: real, y: real)
    ensures BoxDefined(Marker(x, y)) && HasBox(Marker(x, y))
    ensures Key(Marker(x, y), 0) == x && Key(Marker(x, y), 1) == y
  {
  }

  /**
   * Five objects whose keys rise along x, no two equal, and whose y keys are equal except the last object's, which
   * is lower: sorting on y moves that object to the front and keeps the rest in order.
   */
  predicate Staggered(m: seq<Hittable>) {
    |m| == 5 && AllBoxDefined(m) && AllHaveBoxes(m) &&
    (forall i, j :: 0 <= i < j < 5 ==> Key(m[i], 0) < Key(m[j], 0)) &&
    (forall i :: 0 <= i < 4 ==> Key(m[i], 1) == Key(m[0], 1)) && Key(m[4], 1) < Key(m[0], 1)
  }

  /** `x` goes to the back of a vector when its key is no smaller than the last element's. */
  lemma InsertByBack(sorted: seq<Hittable>, x: Hittable, axis: int)
    requires 0 <= axis < 3 && AllBoxDefined(sorted) && AllHaveBoxes(sorted) && BoxDefined(x) && HasBox(x)
    requires |sorted| > 0 && Key(sorted[|sorted| - 1], axis) <= Key(x, axis)
    ensures InsertBy(sorted, x, axis) == sorted + [x]
  {
    CompareIsKeyOrder(x, sorted[|sorted| - 1], axis);
  }

  /** `x` goes to the front when its key is below every element's. */
  lemma {:induction false} InsertByFront(sorted: seq<Hittable>, x: Hittable, axis: int)
    requires 0 <= axis < 3 && AllBoxDefined(sorted) && AllHaveBoxes(sorted) && BoxDefined(x) && HasBox(x)
    requires forall i :: 0 <= i < |sorted| ==> Key(x, axis) < Key(sorted[i], axis)
    ensures InsertBy(sorted, x, axis) == [x] + sorted
    decreases |sorted|
  {
    if |sorted| > 0 {
      var prefix := sorted[..|sorted| - 1];
      assert forall i :: 0 <= i < |prefix| ==> prefix[i] == sorted[i];
      CompareIsKeyOrder(x, sorted[|sorted| - 1], axis);
      InsertByFront(prefix, x, axis);
      SplitLast(sorted);
    }
  }

  lemma SplitLast<T>(s: seq<T>)
    requires |s| > 0
    ensures s == s[..|s| - 1] + [s[|s| - 1]]
  {
  }

  /** One step of the sort: the last element is inserted into the sorted prefix. */
  lemma SortBySnoc(s: seq<Hittable>, axis: int)
    requires 0 <= axis < 3 && AllBoxDefined(s) && |s| > 0
    ensures AllBoxDefined(s[..|s| - 1]) && AllBoxDefined(SortBy(s[..|s| - 1], axis))
    ensures SortBy(s, axis) == InsertBy(SortBy(s[..|s| - 1], axis), s[|s| - 1], axis)
  {
    PermutationKeepsDefined(SortBy(s[..|s| - 1], axis), s[..|s| - 1]);
  }

  /** The stable sort leaves a vector alone when its keys already rise (ties included). */
  lemma {:induction false} SortByAscending(s: seq<Hittable>, axis: int)
    requires 0 <= axis < 3 && AllBoxDefined(s) && AllHaveBoxes(s) && SortedByKey(s, axis)
    ensures SortBy(s, axis) == s
    decreases |s|
  {
    if |s| > 0 {
      var prefix := s[..|s| - 1];
      var x := s[|s| - 1];
      SortBySnoc(s, axis);
      assert AllBoxDefined(prefix) && AllHaveBoxes(prefix) && SortedByKey(prefix, axis) && BoxDefined(x) && HasBox(x);
      SortByAscending(prefix, axis);
      var ins := InsertBy(prefix, x, axis);
      if |prefix| > 0 {
        InsertByBack(prefix, x, axis);
      }
      assert ins == prefix + [x];
      SplitLast(s);
      assert SortBy(s, axis) == ins;
    }
  }

  /** The axis drawn for each range in the counterexample: y for `[2, 5)`, x everywhere else. */
  function CounterAxis(start: nat, end: nat): int {
    if start == 2 && end == 5 then 1 else 0
  }

  /**
   * As written, a sub-span re-sorts the whole clone on its own axis. Over staggered objects, with y drawn only for
   * `[2, 5)`, the left half reads objects 0 and 1 of the x-sorted clone and the right half reads positions 2 to 4
   * of the y-sorted clone, which hold objects 1, 2 and 3: object 4 is lost and object 1 taken twice.
   */
  lemma StaggeredBuild(m: seq<Hittable>)
    requires Staggered(m)
    ensures SpanLeaves(Build(m, 0, 5, 0.0, 0.0, CounterAxis), 0, 5) == multiset{m[0], m[1]} + multiset{m[1], m[2], m[3]}
  {
    var top := Build(m, 0, 5, 0.0, 0.0, CounterAxis);
    TopChildren(m);
    StaggeredRightHalf(m);
    LeavesOfHalves(top, 0, 2, 5, multiset{m[0], m[1]}, multiset{m[1], m[2], m[3]}, multiset{m[0], m[1]} + multiset{m[1], m[2], m[3]});
  }

  /** The top node sorts on x, which keeps staggered objects in place: its left child is the pair `m[0], m[1]`. */
  lemma TopChildren(m: seq<Hittable>)
    requires Staggered(m)
    ensures SpanLeaves(Build(m, 0, 5, 0.0, 0.0, CounterAxis).left, 0, 2) == multiset{m[0], m[1]}
    ensures Build(m, 0, 5, 0.0, 0.0, CounterAxis).right == Build(m, 2, 5, 0.0, 0.0, CounterAxis)
  {
    SortByAscending(m, 0);
    var sorted := SortBy(m, ComparatorAxis(CounterAxis(0, 5)));
    assert sorted == m;
    BuildSplits(m, 0, 5, 0.0, 0.0, CounterAxis);
    BuildSpanTwo(sorted, 0, 0.0, 0.0, CounterAxis);
    assert CounterAxis(0, 2) == 0;
    CompareIsKeyOrder(m[0], m[1], 0);
  }

  /** The right half `[2, 5)` re-sorts the whole clone on y and reads objects 1, 2 and 3. */
  lemma StaggeredRightHalf(m: seq<Hittable>)
    requires Staggered(m)
    ensures SpanLeaves(Build(m, 2, 5, 0.0, 0.0, CounterAxis), 2, 5) == multiset{m[1], m[2], m[3]}
  {
    var right := Build(m, 2, 5, 0.0, 0.0, CounterAxis);
    RightHalfChildren(m);
    JoinOneTwo(m[1], m[2], m[3]);
    LeavesOfHalves(right, 2, 3, 5, multiset{m[1]}, multiset{m[2], m[3]}, multiset{m[1], m[2], m[3]});
  }

  /** In the y-sorted clone, position 2 holds object 1 and positions 3 and 4 hold objects 2 and 3, in x order. */
  lemma RightHalfChildren(m: seq<Hittable>)
    requires Staggered(m)
    ensures SpanLeaves(Build(m, 2, 5, 0.0, 0.0, CounterAxis).left, 2, 3) == multiset{m[1]}
    ensures SpanLeaves(Build(m, 2, 5, 0.0, 0.0, CounterAxis).right, 3, 5) == multiset{m[2], m[3]}
  {
    var byY := StaggeredByY(m);
    var sorted := SortBy(m, ComparatorAxis(CounterAxis(2, 5)));
    assert sorted == byY;
    BuildSplits(m, 2, 5, 0.0, 0.0, CounterAxis);
    BuildSpanOne(sorted, 2, 0.0, 0.0, CounterAxis);
    BuildSpanTwo(sorted, 3, 0.0, 0.0, CounterAxis);
    assert CounterAxis(3, 5) == 0;
    CompareIsKeyOrder(m[2], m[3], 0);
  }

  lemma JoinOneTwo<T>(a: T, b: T, c: T)
    ensures multiset{a} + multiset{b, c} == multiset{a, b, c}
  {
  }

  /** Sorting staggered objects on y: the last one first, then the others in order. */
  lemma StaggeredByY(m: seq<Hittable>) returns (byY: seq<Hittable>)
    requires Staggered(m)
    ensures AllBoxDefined(byY) && byY == SortBy(m, 1)
    ensures byY == [m[4], m[0], m[1], m[2], m[3]]
  {
    SplitFront(m);
    var front := m[..4];
    forall i | 0 <= i < |front| ensures front[i] == m[i] && BoxDefined(front[i]) && HasBox(front[i]) {
    }
    forall i, j | 0 <= i < j < |front| ensures Key(front[i], 1) <= Key(front[j], 1) {
      assert front[i] == m[i] && front[j] == m[j];
    }
    forall i | 0 <= i < |front| ensures Key(m[4], 1) < Key(front[i], 1) {
      assert front[i] == m[i];
    }
    SortLastFirst(front, m[4], 1);
    byY := SortBy(m, 1);
    PermutationKeepsDefined(byY, m);
  }

  /** Sorting an in-order vector followed by an element of lower key than all of it moves that element to the front. */
  lemma SortLastFirst(front: seq<Hittable>, last: Hittable, axis: int)
    requires 0 <= axis < 3 && AllBoxDefined(front) && AllHaveBoxes(front) && BoxDefined(last) && HasBox(last)
    requires SortedByKey(front, axis)
    requires forall i :: 0 <= i < |front| ==> Key(last, axis) < Key(front[i], axis)
    ensures AllBoxDefined(front + [last])
    ensures SortBy(front + [last], axis) == [last] + front
  {
    var s := front + [last];
    SnocParts(front, last);
    SortBySnoc(s, axis);
    SortByAscending(front, axis);
    InsertByFront(front, last, axis);
  }

  lemma SnocParts<T>(front: seq<T>, last: T)
    ensures (front + [last])[..|front + [last]| - 1] == front && (front + [last])[|front + [last]| - 1] == last
  {
  }

  lemma SplitFront<T>(m: seq<T>)
    requires |m| == 5
    ensures m[..4] == [m[0], m[1], m[2], m[3]] && m[..|m| - 1] == m[..4] && m[|m| - 1] == m[4]
    ensures [m[4]] + m[..4] == [m[4], m[0], m[1], m[2], m[3]]
  {
  }

  /** Staggered objects are distinct from one another: their x keys differ. */
  lemma StaggeredDistinct(m: seq<Hittable>)
    requires Staggered(m)
    ensures forall i, j :: 0 <= i < j < 5 ==> m[i] != m[j]
  {
    forall i, j | 0 <= i < j < 5 ensures m[i] != m[j] {
      assert Key(m[i], 0) < Key(m[j], 0);
    }
  }

  /**
   * Over staggered objects, with y drawn only for `[2, 5)`, the build as written loses object 4 and takes object 1
   * twice.
   */
  lemma WholeSortLosesObjects(m: seq<Hittable>)
    requires Staggered(m)
    ensures m[4] !in SpanLeaves(Build(m, 0, 5, 0.0, 0.0, CounterAxis), 0, 5)
    ensures SpanLeaves(Build(m, 0, 5, 0.0, 0.0, CounterAxis), 0, 5)[m[1]] == 2
    ensures SpanLeaves(Build(m, 0, 5, 0.0, 0.0, CounterAxis), 0, 5) != multiset(m)
  {
    StaggeredBuild(m);
    StaggeredDistinct(m);
    LostAndDoubled(m);
  }

  /** Of five distinct values, the bag that takes the second twice and leaves the last out is not theirs. */
  lemma LostAndDoubled<T>(m: seq<T>)
    requires |m| == 5 && forall i, j :: 0 <= i < j < 5 ==> m[i] != m[j]
    ensures m[4] !in multiset{m[0], m[1]} + multiset{m[1], m[2], m[3]}
    ensures (multiset{m[0], m[1]} + multiset{m[1], m[2], m[3]})[m[1]] == 2
    ensures multiset{m[0], m[1]} + multiset{m[1], m[2], m[3]} != multiset(m)
  {
    assert m[4] in multiset(m);
  }

  /** Over the same objects, the build that sorts only each span keeps every object exactly once. */
  lemma SpanSortKeepsObjects(m: seq<Hittable>)
    requires Staggered(m)
    ensures SpanLeaves(BuildSpanSorted(m, 0, 5, 0.0, 0.0, CounterAxis), 0, 5) == multiset(m)
  {
    assert m[0..5] == m;
  }

  /** Five markers in x order, the last one lower on y, are staggered: the lemma above has a witness. */
  lemma MarkersStaggered()
    ensures Staggered([Marker(0.0, 0.0), Marker(1.0, 0.0), Marker(2.0, 0.0), Marker(3.0, 0.0), Marker(4.0, -1.0)])
  {
    MarkerKeys(0.0, 0.0);
    MarkerKeys(1.0, 0.0);
    MarkerKeys(2.0, 0.0);
    MarkerKeys(3.0, 0.0);
    MarkerKeys(4.0, -1.0);
  }
}
