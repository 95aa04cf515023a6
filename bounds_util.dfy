/**
 * Piglet's `BoundsUtil.GetRendererBoundsForHierarchy`: the world-space
 * axis-aligned box around every renderer in a GameObject hierarchy, or
 * nothing when the hierarchy has no renderer. Coordinates are integers.
 */
module BoundsUtil {
  import opened Wrappers

  datatype Point = Point(x: int, y: int, z: int)

  /** An axis-aligned box, as Unity's `Bounds` by its `min` and `max` corners. */
  datatype Box = Box(min: Point, max: Point)

  /** A GameObject as the bounds computation sees it: an optional renderer box and the children. */
  datatype SceneObject = SceneObject(renderer: Option<Box>, children: seq<SceneObject>)

  function Min(a: int, b: int): int { if a <= b then a else b }
  function Max(a: int, b: int): int { if a <= b then b else a }

  /** `Bounds.Encapsulate(Bounds)`: grows `a` to take in `b`'s min and max corners. */
  function Encapsulate(a: Box, b: Box): Box {
    Box(Point(Min(a.min.x, b.min.x), Min(a.min.y, b.min.y), Min(a.min.z, b.min.z)),
        Point(Max(a.max.x, b.max.x), Max(a.max.y, b.max.y), Max(a.max.z, b.max.z)))
  }

  /** `inner` lies within `outer` on every axis. */
  predicate Inside(inner: Box, outer: Box) {
    outer.min.x <= inner.min.x && outer.min.y <= inner.min.y && outer.min.z <= inner.min.z &&
    inner.max.x <= outer.max.x && inner.max.y <= outer.max.y && inner.max.z <= outer.max.z
  }

  /** Every box of `s` lies within `b`. */
  ghost predicate Encloses(b: Box, s: set<Box>) {
    forall x :: x in s ==> Inside(x, b)
  }

  /** `r` is the smallest box around `s`, and absent exactly when `s` is empty. */
  ghost predicate IsHull(r: Option<Box>, s: set<Box>) {
    (r.None? <==> s == {}) &&
    (r.Some? ==> Encloses(r.value, s) && forall b :: Encloses(b, s) ==> Inside(r.value, b))
  }

  /** The renderer boxes of every object in the hierarchy rooted at `o`. */
  ghost function Boxes(o: SceneObject): set<Box>
    decreases o, 1
  {
    (if o.renderer.Some? then {o.renderer.value} else {}) + ChildBoxes(o, 0)
  }

  /** The renderer boxes of the hierarchies of children `i..` of `o`. */
  ghost function ChildBoxes(o: SceneObject, i: nat): set<Box>
    requires i <= |o.children|
    decreases o, 0, |o.children| - i
  {
    if i == |o.children| then {} else Boxes(o.children[i]) + ChildBoxes(o, i + 1)
  }

  /** `GetRendererBoundsForHierarchy`: the root's renderer box, then each child's result folded in. */
  function GetRendererBoundsForHierarchy(o: SceneObject): Option<Box>
    decreases o, 1
  {
    FoldChildren(o, o.renderer, 0)
  }

  /** The `foreach` over children from index `i`, with `bounds` as the accumulator. */
  function FoldChildren(o: SceneObject, bounds: Option<Box>, i: nat): Option<Box>
    requires i <= |o.children|
    decreases o, 0, |o.children| - i
  {
    if i == |o.children| then bounds
    else
      var childBounds := GetRendererBoundsForHierarchy(o.children[i]);
      var next :=
        if childBounds.None? then bounds
        else if bounds.None? then childBounds
        else Some(Encapsulate(bounds.value, childBounds.value));
      FoldChildren(o, next, i + 1)
  }

  /** The hull of a union is the encapsulation of the two hulls. */
  lemma EncapsulateHull(a: Box, s: set<Box>, b: Box, t: set<Box>)
    requires IsHull(Some(a), s) && IsHull(Some(b), t)
    ensures IsHull(Some(Encapsulate(a, b)), s + t)
  {
    var e := Encapsulate(a, b);
    forall x | x in s + t
      ensures Inside(x, e)
    {
      if x in s {
        assert Inside(x, a);
      } else {
        assert Inside(x, b);
      }
    }
    forall c | Encloses(c, s + t)
      ensures Inside(e, c)
    {
      assert Encloses(c, s) && Encloses(c, t);
    }
  }

  lemma {:induction false} FoldChildrenHull(o: SceneObject, bounds: Option<Box>, s: set<Box>, i: nat)
    requires i <= |o.children|
    requires IsHull(bounds, s)
    ensures IsHull(FoldChildren(o, bounds, i), s + ChildBoxes(o, i))
    decreases o, 0, |o.children| - i
  {
    if i < |o.children| {
      var c := o.children[i];
      var cb := GetRendererBoundsForHierarchy(c);
      BoundsAreHull(c);
      var next :=
        if cb.None? then bounds
        else if bounds.None? then cb
        else Some(Encapsulate(bounds.value, cb.value));
      if cb.Some? && bounds.Some? {
        EncapsulateHull(bounds.value, s, cb.value, Boxes(c));
      }
      assert IsHull(next, s + Boxes(c));
      FoldChildrenHull(o, next, s + Boxes(c), i + 1);
      assert s + Boxes(c) + ChildBoxes(o, i + 1) == s + ChildBoxes(o, i);
    }
  }

  /**
   * The result is the smallest box enclosing every renderer box of the
   * hierarchy, and absent exactly when the hierarchy has no renderer.
   */
  lemma {:induction false} BoundsAreHull(o: SceneObject)
    ensures IsHull(GetRendererBoundsForHierarchy(o), Boxes(o))
    decreases o, 1
  {
    var s: set<Box> := if o.renderer.Some? then {o.renderer.value} else {};
    FoldChildrenHull(o, o.renderer, s, 0);
  }

  /** The result is absent iff no object of the hierarchy has a renderer. */
  lemma BoundsAbsentIffNoRenderer(o: SceneObject)
    ensures GetRendererBoundsForHierarchy(o).None? <==> Boxes(o) == {}
  {
    BoundsAreHull(o);
  }

  /** The root's own renderer box lies within the result. */
  lemma RootBoxInside(o: SceneObject)
    requires o.renderer.Some?
    ensures GetRendererBoundsForHierarchy(o).Some?
    ensures Inside(o.renderer.value, GetRendererBoundsForHierarchy(o).value)
  {
    BoundsAreHull(o);
  }

  lemma {:induction false} ChildBoxesContain(o: SceneObject, i: nat, j: nat)
    requires i <= j < |o.children|
    ensures Boxes(o.children[j]) <= ChildBoxes(o, i)
    decreases j - i
  {
    if i < j {
      ChildBoxesContain(o, i + 1, j);
    }
  }

  /** Every child's result lies within the parent's result. */
  lemma ChildBoundsInside(o: SceneObject, j: nat)
    requires j < |o.children|
    requires GetRendererBoundsForHierarchy(o.children[j]).Some?
    ensures GetRendererBoundsForHierarchy(o).Some?
    ensures Inside(GetRendererBoundsForHierarchy(o.children[j]).value,
                   GetRendererBoundsForHierarchy(o).value)
  {
    var c := o.children[j];
    BoundsAreHull(c);
    BoundsAreHull(o);
    ChildBoxesContain(o, 0, j);
    var r := GetRendererBoundsForHierarchy(o).value;
    assert Encloses(r, Boxes(c));
  }

  /** A leaf with a renderer returns exactly its own box. */
  lemma LeafBounds(o: SceneObject)
    requires o.renderer.Some? && |o.children| == 0
    ensures GetRendererBoundsForHierarchy(o) == o.renderer
  {
  }

  lemma HullUnique(r: Option<Box>, r': Option<Box>, s: set<Box>)
    requires IsHull(r, s) && IsHull(r', s)
    ensures r == r'
  {
    if r.Some? {
      assert Inside(r.value, r'.value) && Inside(r'.value, r.value);
    }
  }

  /** Two hierarchies whose renderer boxes are the same set have the same bounds, whatever the child order. */
  lemma BoundsDependOnlyOnBoxes(o: SceneObject, o': SceneObject)
    requires Boxes(o) == Boxes(o')
    ensures GetRendererBoundsForHierarchy(o) == GetRendererBoundsForHierarchy(o')
  {
    BoundsAreHull(o);
    BoundsAreHull(o');
    HullUnique(GetRendererBoundsForHierarchy(o), GetRendererBoundsForHierarchy(o'), Boxes(o));
  }

  /** The renderer boxes of children `i..` are those of the children's hierarchies in that range. */
  lemma {:induction false} ChildBoxesMembers(o: SceneObject, i: nat, b: Box)
    requires i <= |o.children|
    ensures b in ChildBoxes(o, i) <==> exists j :: i <= j < |o.children| && b in Boxes(o.children[j])
    decreases |o.children| - i
  {
    if i < |o.children| {
      ChildBoxesMembers(o, i + 1, b);
    }
  }

  /** Reordering (or repeating) children does not change the bounds. */
  lemma ChildOrderIrrelevant(o: SceneObject, o': SceneObject)
    requires o.renderer == o'.renderer
    requires forall c :: c in o.children <==> c in o'.children
    ensures GetRendererBoundsForHierarchy(o) == GetRendererBoundsForHierarchy(o')
  {
    forall b
      ensures b in ChildBoxes(o, 0) <==> b in ChildBoxes(o', 0)
    {
      ChildBoxesMembers(o, 0, b);
      ChildBoxesMembers(o', 0, b);
      if b in ChildBoxes(o, 0) {
        var j :| 0 <= j < |o.children| && b in Boxes(o.children[j]);
        var c := o.children[j];
        assert c in o'.children;
        var j' :| 0 <= j' < |o'.children| && o'.children[j'] == c;
      }
      if b in ChildBoxes(o', 0) {
        var j :| 0 <= j < |o'.children| && b in Boxes(o'.children[j]);
        var c := o'.children[j];
        assert c in o.children;
        var j' :| 0 <= j' < |o.children| && o.children[j'] == c;
      }
    }
    assert Boxes(o) == Boxes(o');
    BoundsDependOnlyOnBoxes(o, o');
  }
}
