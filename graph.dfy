/**
 * The polygonize graph, as far as the polygonizer sees it: an object that
 * accepts edges and then runs three phases. Its only state is the trace of
 * operations applied to it; what each phase returns is an uninterpreted
 * function of that trace.
 */
module Graph {
  import opened Geometries
  import opened External

  class PolygonizeGraph {
    const env: Collaborators
    var trace: seq<GraphOp>

    constructor (env: Collaborators)
      ensures this.env == env && trace == []
    {
      this.env := env;
      trace := [];
    }

    /** The lines passed to the graph so far, in order; whether it keeps each as an edge is not modelled. */
    ghost function PassedLines(): seq<Geometry>
      reads this
    {
      AddedLines(trace)
    }

    method AddEdge(line: Geometry)
      modifies this
      ensures trace == old(trace) + [GraphOp.AddEdge(line)]
      ensures PassedLines() == old(PassedLines()) + [line]
    {
      trace := trace + [GraphOp.AddEdge(line)];
      AddedLinesAppend(old(trace), [GraphOp.AddEdge(line)]);
    }

    method DeleteDangles() returns (dangles: seq<Geometry>)
      modifies this
      ensures trace == old(trace) + [GraphOp.DeleteDangles]
      ensures dangles == env.removedLines(trace)
    {
      trace := trace + [GraphOp.DeleteDangles];
      dangles := env.removedLines(trace);
    }

    method DeleteCutEdges() returns (cutEdges: seq<Geometry>)
      modifies this
      ensures trace == old(trace) + [GraphOp.DeleteCutEdges]
      ensures cutEdges == env.removedLines(trace)
    {
      trace := trace + [GraphOp.DeleteCutEdges];
      cutEdges := env.removedLines(trace);
    }

    method GetEdgeRings() returns (rings: seq<EdgeRing>)
      modifies this
      ensures trace == old(trace) + [GraphOp.GetEdgeRings]
      ensures rings == env.edgeRings(trace)
    {
      trace := trace + [GraphOp.GetEdgeRings];
      rings := env.edgeRings(trace);
    }
  }
}
