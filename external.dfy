/**
 * The collaborators of the polygonizer whose code is not modelled: the
 * planar graph's three phases and the containment search among shells. Each is an uninterpreted
 * function; the graph's phases are functions of everything done to the
 * graph so far.
 */
module External {
  import opened Wrappers
  import opened Sequences
  import opened Geometries

  /** An operation applied to the polygonize graph. */
  datatype GraphOp = AddEdge(line: Geometry) | DeleteDangles | DeleteCutEdges | GetEdgeRings

  datatype Collaborators = Collaborators(
    /** The lines a pruning phase removes, given the graph's trace ending with that phase. */
    removedLines: seq<GraphOp> -> seq<Geometry>,
    /** The rings extracted, given the graph's trace ending with the extraction. */
    edgeRings: seq<GraphOp> -> seq<EdgeRing>,
    /** The index of the shell that contains the hole, if any. */
    findEdgeRingContaining: (EdgeRing, seq<EdgeRing>) -> Option<nat>)
  {
    /** What the polygonizer relies on: a shell found for a hole is one of the candidate shells. */
    ghost predicate Wellformed() {
      FindsAmong(findEdgeRingContaining)
    }
  }

  ghost predicate FindsAmong(find: (EdgeRing, seq<EdgeRing>) -> Option<nat>) {
    forall hole, shells :: find(hole, shells).Some? ==> find(hole, shells).value < |shells|
  }

  /** One AddEdge operation per line, in order. */
  function Adds(lines: seq<Geometry>): seq<GraphOp>
    decreases |lines|
  {
    if lines == [] then [] else Adds(Front(lines)) + [AddEdge(Last(lines))]
  }

  lemma {:induction false} AddsAppend(a: seq<Geometry>, b: seq<Geometry>)
    ensures Adds(a + b) == Adds(a) + Adds(b)
    decreases |b|
  {
    if b == [] {
      assert a + b == a;
    } else {
      assert Front(a + b) == a + Front(b);
      assert Last(a + b) == Last(b);
      AddsAppend(a, Front(b));
      assert Adds(a) + Adds(Front(b)) + [AddEdge(Last(b))] == Adds(a) + (Adds(Front(b)) + [AddEdge(Last(b))]);
    }
  }

  /** Adding one batch of lines after another adds the two batches in order. */
  lemma AddsExtend(t0: seq<GraphOp>, t1: seq<GraphOp>, t2: seq<GraphOp>, done: seq<Geometry>, more: seq<Geometry>)
    requires t1 == t0 + Adds(done) && t2 == t1 + Adds(more)
    ensures t2 == t0 + Adds(done + more)
  {
    AddsAppend(done, more);
  }

  /** The lines added to a graph with the given trace, in the order they were added. */
  function AddedLines(trace: seq<GraphOp>): seq<Geometry>
    decreases |trace|
  {
    if trace == [] then []
    else AddedLines(Front(trace)) + (if Last(trace).AddEdge? then [Last(trace).line] else [])
  }

  /** Adding lines extends the added lines by exactly those lines; other operations add none. */
  lemma {:induction false} AddedLinesAppend(trace: seq<GraphOp>, more: seq<GraphOp>)
    ensures AddedLines(trace + more) == AddedLines(trace) + AddedLines(more)
    decreases |more|
  {
    if more == [] {
      assert trace + more == trace;
    } else {
      assert Front(trace + more) == trace + Front(more);
      AddedLinesAppend(trace, Front(more));
    }
  }

  lemma {:induction false} AddedLinesOfAdds(lines: seq<Geometry>)
    ensures AddedLines(Adds(lines)) == lines
    decreases |lines|
  {
    if lines != [] {
      assert Front(Adds(lines)) == Adds(Front(lines));
      AddedLinesOfAdds(Front(lines));
    }
  }

  /** A graph given the AddEdge operations of some lines has those lines added after its earlier ones. */
  lemma AddedLinesAfterAdds(trace: seq<GraphOp>, lines: seq<Geometry>)
    ensures AddedLines(trace + Adds(lines)) == AddedLines(trace) + lines
  {
    AddedLinesAppend(trace, Adds(lines));
    AddedLinesOfAdds(lines);
  }
}
