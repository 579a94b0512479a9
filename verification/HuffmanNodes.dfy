/** The node table of the Huffman tree builder: entry `i + 1` is node `i`,
    entry 0 a barrier in front of the leaves. */
module HuffmanNodes {
  import opened Kraft

  /** `nodeElt`. */
  datatype NodeElt = NodeElt(count: nat, parent: nat, symbol: nat, nbBits: nat)

  const HUF_SYMBOLVALUE_MAX: nat := 255
  const HUFF_NODE_TABLE_SIZE: nat := 2 * (HUF_SYMBOLVALUE_MAX + 1)
  const STARTNODE: nat := HUF_SYMBOLVALUE_MAX + 1

  function Leaf(nodes: seq<NodeElt>, i: nat): NodeElt
    requires i + 1 < |nodes|
  {
    nodes[i + 1]
  }

  function Inner(nodes: seq<NodeElt>, k: nat): NodeElt
    requires STARTNODE + 1 + k < |nodes|
  {
    nodes[STARTNODE + 1 + k]
  }

  /** The lengths of the first `m` leaves. */
  function Lens(nodes: seq<NodeElt>, m: nat): (s: seq<nat>)
    requires m < |nodes|
    ensures |s| == m && forall i :: 0 <= i < m ==> s[i] == nodes[i + 1].nbBits
  {
    seq(m, i requires 0 <= i < m => nodes[i + 1].nbBits)
  }

  /** Only the lengths of the first `m` leaves may differ. */
  ghost predicate SameButLens(a: seq<NodeElt>, b: seq<NodeElt>, m: nat) {
    && |a| == |b|
    && forall i :: 0 <= i < |a| ==>
         b[i] == a[i].(nbBits := b[i].nbBits) && (i == 0 || i > m ==> b[i] == a[i])
  }

  method SetLen(nodes: array<NodeElt>, m: nat, i: nat, v: nat)
    requires i < m < nodes.Length
    modifies nodes
    ensures Lens(nodes[..], m) == Lens(old(nodes[..]), m)[i := v]
    ensures SameButLens(old(nodes[..]), nodes[..], m)
  {
    nodes[i + 1] := nodes[i + 1].(nbBits := v);
  }

  lemma SameTrans(a: seq<NodeElt>, b: seq<NodeElt>, c: seq<NodeElt>, m: nat)
    requires SameButLens(a, b, m) && SameButLens(b, c, m)
    ensures SameButLens(a, c, m)
  {
    forall i | 0 <= i < |a|
      ensures c[i] == a[i].(nbBits := c[i].nbBits)
    {
      assert b[i] == a[i].(nbBits := b[i].nbBits);
    }
    forall i | 0 <= i < |a| && (i == 0 || i > m)
      ensures c[i] == a[i]
    {
      assert b[i] == a[i].(nbBits := b[i].nbBits);
    }
  }
}
