/** The parent list of the grouping loop: union by linking roots, with path halving and no ranks. */
module DisjointSets {

  /** The parents form a forest whose roots are given: parents keep their root, roots are their own parents,
      and a rank that grows along parent links rules out cycles. */
  ghost predicate Forest(parents: seq<nat>, root: seq<nat>, rank: seq<nat>, bound: nat) {
    && |parents| == |root| == |rank|
    && (forall i :: 0 <= i < |parents| ==> parents[i] < |parents| && root[i] < |parents|)
    && (forall i :: 0 <= i < |parents| ==> root[parents[i]] == root[i] && parents[root[i]] == root[i])
    && (forall i :: 0 <= i < |parents| && parents[i] == i ==> root[i] == i)
    && (forall i :: 0 <= i < |parents| && parents[i] != i ==> rank[i] < rank[parents[i]])
    && (forall i :: 0 <= i < |parents| ==> rank[i] <= bound)
  }

  /** A forest has only one assignment of roots: where every parent chain ends. */
  lemma {:induction false} RootsDetermined(parents: seq<nat>, root: seq<nat>, rank: seq<nat>, bound: nat, other: seq<nat>, rank': seq<nat>, bound': nat, i: nat)
    requires Forest(parents, root, rank, bound) && Forest(parents, other, rank', bound') && i < |parents|
    ensures root[i] == other[i]
    decreases bound - rank[i]
  {
    if parents[i] != i {
      RootsDetermined(parents, root, rank, bound, other, rank', bound', parents[i]);
    }
  }

  /** The loop of `find`: path halving changes no root. */
  method Find(parents: array<nat>, start: nat, ghost root: seq<nat>, ghost rank: seq<nat>, ghost bound: nat) returns (index: nat)
    requires Forest(parents[..], root, rank, bound) && start < parents.Length
    modifies parents
    ensures Forest(parents[..], root, rank, bound)
    ensures index == root[start] && parents[index] == index
  {
    index := start;
    while parents[index] != index
      invariant index < parents.Length && root[index] == root[start]
      invariant Forest(parents[..], root, rank, bound)
      decreases bound - rank[index]
    {
      ghost var before := parents[..];
      assert before[before[index]] == parents[parents[index]];
      parents[index] := parents[parents[index]];
      HalvingKeepsForest(before, root, rank, bound, index);
      assert parents[..] == before[index := before[before[index]]];
      index := parents[index];
    }
  }

  /** What a forest says of one element. */
  ghost predicate Node(parents: seq<nat>, root: seq<nat>, rank: seq<nat>, i: nat) {
    && i < |parents| == |root| == |rank|
    && parents[i] < |parents| && root[i] < |parents|
    && root[parents[i]] == root[i] && parents[root[i]] == root[i]
    && (if parents[i] == i then root[i] == i else rank[i] < rank[parents[i]])
  }

  lemma NodeOf(parents: seq<nat>, root: seq<nat>, rank: seq<nat>, bound: nat, i: nat)
    requires Forest(parents, root, rank, bound) && i < |parents|
    ensures Node(parents, root, rank, i)
  {
  }

  lemma NodesMakeForest(parents: seq<nat>, root: seq<nat>, rank: seq<nat>, bound: nat)
    requires |parents| == |root| == |rank| && forall i :: 0 <= i < |parents| ==> Node(parents, root, rank, i) && rank[i] <= bound
    ensures Forest(parents, root, rank, bound)
  {
    forall i | 0 <= i < |parents|
      ensures parents[i] < |parents| && root[i] < |parents|
      ensures root[parents[i]] == root[i] && parents[root[i]] == root[i]
      ensures if parents[i] == i then root[i] == i else rank[i] < rank[parents[i]]
    {
      assert Node(parents, root, rank, i);
    }
  }

  lemma HalvedNode(parents: seq<nat>, root: seq<nat>, rank: seq<nat>, i: nat, k: nat)
    requires Node(parents, root, rank, i) && parents[i] != i && Node(parents, root, rank, parents[i]) && Node(parents, root, rank, k)
    ensures Node(parents[i := parents[parents[i]]], root, rank, k)
  {
    assert root[k] != i;
  }

  /** Halving a path keeps every root and the ranks. */
  lemma HalvingKeepsForest(parents: seq<nat>, root: seq<nat>, rank: seq<nat>, bound: nat, i: nat)
    requires Forest(parents, root, rank, bound) && i < |parents| && parents[i] != i
    ensures Forest(parents[i := parents[parents[i]]], root, rank, bound)
    ensures rank[i] < rank[parents[parents[i]]]
  {
    NodeOf(parents, root, rank, bound, i);
    NodeOf(parents, root, rank, bound, parents[i]);
    forall k | 0 <= k < |parents|
      ensures Node(parents[i := parents[parents[i]]], root, rank, k) && rank[k] <= bound
    {
      NodeOf(parents, root, rank, bound, k);
      HalvedNode(parents, root, rank, i, k);
    }
    NodesMakeForest(parents[i := parents[parents[i]]], root, rank, bound);
  }

  /** Replace one root by another. */
  ghost function Merged(root: seq<nat>, a: nat, b: nat): (r: seq<nat>)
    ensures |r| == |root| && forall i :: 0 <= i < |root| ==> r[i] == if root[i] == a then b else root[i]
  {
    seq(|root|, i requires 0 <= i < |root| => if root[i] == a then b else root[i])
  }

  ghost function Raised(rank: seq<nat>, a: nat, b: nat): seq<nat>
    requires a < |rank| && b < |rank|
  {
    if a == b || rank[a] < rank[b] then rank else rank[b := rank[a] + 1]
  }

  /** Linking two roots joins their trees and keeps the parent list acyclic. */
  lemma LinkKeepsForest(parents: seq<nat>, root: seq<nat>, rank: seq<nat>, bound: nat, a: nat, b: nat)
    requires Forest(parents, root, rank, bound) && a < |parents| && b < |parents|
    requires parents[a] == a && parents[b] == b
    ensures Forest(parents[a := b], Merged(root, a, b), Raised(rank, a, b), bound + 1)
  {
  }

  /** The assignment `parents[find(index)] = find(other)`. */
  method Unite(parents: array<nat>, index: nat, other: nat, ghost root: seq<nat>, ghost rank: seq<nat>, ghost bound: nat)
    returns (ghost rank': seq<nat>)
    requires Forest(parents[..], root, rank, bound) && index < parents.Length && other < parents.Length
    modifies parents
    ensures Forest(parents[..], Merged(root, root[index], root[other]), rank', bound + 1)
  {
    var b := Find(parents, other, root, rank, bound);
    var a := Find(parents, index, root, rank, bound);
    LinkKeepsForest(parents[..], root, rank, bound, a, b);
    ghost var before := parents[..];
    parents[a] := b;
    assert parents[..] == before[a := b];
    rank' := Raised(rank, a, b);
  }
}
