/**
 * The loaded model's scene graph and the traversal in `Model` that marks
 * every mesh to cast and receive shadows.
 *
 * The graph is held as an array of nodes in the order `traverse` visits them
 * (a node before its children); each node records the index of its parent,
 * so the tree shape is part of the data the traversal must leave alone.
 */
module SceneGraph {

  datatype Object3D = Object3D(isMesh: bool, castShadow: bool, receiveShadow: bool, parent: int)

  /** The root comes first with no parent; every other node's parent was visited before it. */
  predicate IsTree(nodes: seq<Object3D>) {
    |nodes| > 0 && nodes[0].parent == -1 &&
    forall i :: 1 <= i < |nodes| ==> 0 <= nodes[i].parent < i
  }

  /** The callback passed to `traverse`, applied to one node. */
  function FlagShadows(n: Object3D): (r: Object3D)
    ensures r.isMesh == n.isMesh && r.parent == n.parent
    ensures r.isMesh ==> r.castShadow && r.receiveShadow
    ensures !n.isMesh ==> r == n
  {
    if n.isMesh then n.(castShadow := true, receiveShadow := true) else n
  }

  /** The graph after the traversal: the callback applied to every node. */
  function ShadowFlagged(nodes: seq<Object3D>): (r: seq<Object3D>)
    ensures |r| == |nodes|
    ensures forall i :: 0 <= i < |nodes| ==> r[i] == FlagShadows(nodes[i])
  {
    if nodes == [] then [] else [FlagShadows(nodes[0])] + ShadowFlagged(nodes[1..])
  }

  /** `scene.traverse(child => { if (child.isMesh) { ... } })`, updating the nodes in place. */
  method Traverse(scene: array<Object3D>)
    modifies scene
    ensures scene[..] == ShadowFlagged(old(scene[..]))
  {
    var i := 0;
    while i < scene.Length
      invariant 0 <= i <= scene.Length
      invariant forall k :: 0 <= k < i ==> scene[k] == FlagShadows(old(scene[k]))
      invariant forall k :: i <= k < scene.Length ==> scene[k] == old(scene[k])
    {
      if scene[i].isMesh {
        scene[i] := scene[i].(castShadow := true, receiveShadow := true);
      }
      i := i + 1;
    }
  }

  /**
   * After the traversal every mesh casts and receives shadows, every other
   * node is as it was, and the tree shape and the mesh/non-mesh split are
   * unchanged.
   */
  lemma TraversalFlagsExactlyMeshes(nodes: seq<Object3D>)
    ensures var r := ShadowFlagged(nodes);
      |r| == |nodes| &&
      (forall i :: 0 <= i < |r| && r[i].isMesh ==> r[i].castShadow && r[i].receiveShadow) &&
      (forall i :: 0 <= i < |r| && !nodes[i].isMesh ==> r[i] == nodes[i]) &&
      (forall i :: 0 <= i < |r| ==> r[i].isMesh == nodes[i].isMesh && r[i].parent == nodes[i].parent) &&
      (IsTree(nodes) ==> IsTree(r))
  {
  }

  /** `Model` runs the traversal on every render; running it again changes nothing. */
  lemma {:induction false} TraversalIdempotent(nodes: seq<Object3D>)
    ensures ShadowFlagged(ShadowFlagged(nodes)) == ShadowFlagged(nodes)
  {
    var r := ShadowFlagged(nodes);
    forall i | 0 <= i < |r| ensures ShadowFlagged(r)[i] == r[i] {
      assert r[i] == FlagShadows(nodes[i]);
    }
  }
}
