/** Triangle meshes by vertex index, and how often they traverse an edge. */
module Mesh {

  datatype Tri = Tri(a: nat, b: nat, c: nat) {
    /** The same triangle seen from the other side. */
    function Flip(): Tri {
      Tri(a, c, b)
    }
  }

  /** An undirected edge, smaller vertex first. */
  datatype Edge = Edge(low: nat, high: nat)

  function EdgeOf(u: nat, v: nat): Edge {
    if u < v then Edge(u, v) else Edge(v, u)
  }

  function One(condition: bool): nat {
    if condition then 1 else 0
  }

  /** How often the triangle runs from u to v. */
  function TriUses(t: Tri, u: nat, v: nat): nat {
    One(t.a == u && t.b == v) + One(t.b == u && t.c == v) + One(t.c == u && t.a == v)
  }

  /** How often the first n triangles run from u to v. */
  function UsesTo(ts: seq<Tri>, u: nat, v: nat, n: nat): nat
    requires n <= |ts|
    decreases n
  {
    if n == 0 then 0 else UsesTo(ts, u, v, n - 1) + TriUses(ts[n - 1], u, v)
  }

  function Uses(ts: seq<Tri>, u: nat, v: nat): nat {
    UsesTo(ts, u, v, |ts|)
  }

  /** Uses of the edge between u and v in either direction. */
  function EdgeUses(ts: seq<Tri>, u: nat, v: nat): nat {
    if u == v then Uses(ts, u, u) else Uses(ts, u, v) + Uses(ts, v, u)
  }

  /** Every edge that occurs is used exactly twice, degenerate ones included. */
  ghost predicate EveryEdgeTwice(ts: seq<Tri>) {
    forall u: nat, v: nat :: EdgeUses(ts, u, v) == 0 || EdgeUses(ts, u, v) == 2
  }

  /** Every edge between two vertices has exactly two uses, whatever their direction. */
  ghost predicate TwoManifold(ts: seq<Tri>) {
    forall u: nat, v: nat :: u != v && Uses(ts, u, v) + Uses(ts, v, u) > 0 ==> Uses(ts, u, v) + Uses(ts, v, u) == 2
  }

  /** Every edge is traversed once in each direction or not at all. */
  ghost predicate Coherent(ts: seq<Tri>) {
    forall u: nat, v: nat :: u != v ==> Uses(ts, u, v) == Uses(ts, v, u) <= 1
  }

  ghost predicate NoLoops(ts: seq<Tri>) {
    forall t :: 0 <= t < |ts| ==> ts[t].a != ts[t].b && ts[t].b != ts[t].c && ts[t].c != ts[t].a
  }

  /** `flips` says which triangles are turned over. */
  function Flipped(ts: seq<Tri>, flips: seq<bool>): (r: seq<Tri>)
    requires |flips| == |ts|
    ensures |r| == |ts|
  {
    seq(|ts|, t requires 0 <= t < |ts| => if flips[t] then ts[t].Flip() else ts[t])
  }

  lemma FlipUses(t: Tri, u: nat, v: nat)
    ensures TriUses(t.Flip(), u, v) == TriUses(t, v, u)
  {
  }

  lemma {:induction false} SameUses(ts: seq<Tri>, ts': seq<Tri>, u: nat, v: nat, n: nat)
    requires n <= |ts| && n <= |ts'| && forall t :: 0 <= t < n ==> ts[t] == ts'[t]
    ensures UsesTo(ts, u, v, n) == UsesTo(ts', u, v, n)
    decreases n
  {
    if n > 0 {
      SameUses(ts, ts', u, v, n - 1);
    }
  }

  /** Turning every triangle over reverses every edge. */
  lemma {:induction false} AllFlippedUses(ts: seq<Tri>, ts': seq<Tri>, u: nat, v: nat, n: nat)
    requires n <= |ts| == |ts'| && forall t :: 0 <= t < |ts| ==> ts'[t] == ts[t].Flip()
    ensures UsesTo(ts', u, v, n) == UsesTo(ts, v, u, n)
    decreases n
  {
    if n > 0 {
      AllFlippedUses(ts, ts', u, v, n - 1);
      FlipUses(ts[n - 1], u, v);
    }
  }

  lemma AllFlippedCoherent(ts: seq<Tri>, ts': seq<Tri>)
    requires |ts| == |ts'| && forall t :: 0 <= t < |ts| ==> ts'[t] == ts[t].Flip()
    ensures Coherent(ts) <==> Coherent(ts')
  {
    forall u: nat, v: nat
      ensures Uses(ts', u, v) == Uses(ts, v, u)
    {
      AllFlippedUses(ts, ts', u, v, |ts|);
    }
  }
}
