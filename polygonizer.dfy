/**
 * The polygonizer: it collects linework into a polygonize graph and, on the
 * first request for a result, runs the graph's phases once, sorts the
 * extracted rings into invalid rings, holes and shells, attaches holes to
 * shells and builds one polygon per shell. Results are cached.
 */
module Polygonization {
  import opened Wrappers
  import opened Sequences
  import opened Geometries
  import opened External
  import opened HoleAssignment
  import opened Graph

  /** Everything one polygonization pass produces. */
  datatype Resolution = Resolution(
    dangles: seq<Geometry>,
    cutEdges: seq<Geometry>,
    invalidRingLines: seq<Geometry>,
    holes: seq<EdgeRing>,
    shells: seq<EdgeRing>,
    polygons: seq<Polygon>)

  /** The graph operations of one polygonization pass, in the order they run. */
  function Phases(): seq<GraphOp> {
    [GraphOp.DeleteDangles, GraphOp.DeleteCutEdges, GraphOp.GetEdgeRings]
  }

  /** Running the phases one after the other leaves them on the trace in order. */
  lemma PhasesInOrder(t: seq<GraphOp>)
    ensures t + [GraphOp.DeleteDangles] + [GraphOp.DeleteCutEdges] == t + [GraphOp.DeleteDangles, GraphOp.DeleteCutEdges]
    ensures t + [GraphOp.DeleteDangles] + [GraphOp.DeleteCutEdges] + [GraphOp.GetEdgeRings] == t + Phases()
  {
  }

  /** A pass adds no line to the graph: the lines added before it are all there are after it. */
  lemma PhasesAddNoLines(trace: seq<GraphOp>)
    ensures AddedLines(trace + Phases()) == AddedLines(trace)
  {
    AddedLinesAppend(trace, Phases());
    var p := Phases();
    assert Front(p) == [GraphOp.DeleteDangles, GraphOp.DeleteCutEdges];
    assert Front(Front(p)) == [GraphOp.DeleteDangles];
    assert Front(Front(Front(p))) == [];
    assert trace + [] == trace;
  }

  /** The rings extracted by a pass over a graph with the given trace. */
  function ExtractedRings(env: Collaborators, trace: seq<GraphOp>): seq<EdgeRing> {
    env.edgeRings(trace + Phases())
  }

  /** What a pass makes of the rings it extracts. */
  datatype Assembly = Assembly(
    invalidRingLines: seq<Geometry>,
    holes: seq<EdgeRing>,
    shells: seq<EdgeRing>,
    polygons: seq<Polygon>)

  /**
   * The rings are split into invalid and valid ones, the valid ones into
   * holes and shells, every hole is attached to its containing shell, and
   * each shell becomes one polygon.
   */
  function Assembled(find: (EdgeRing, seq<EdgeRing>) -> Option<nat>, rings: seq<EdgeRing>): Assembly
    requires FindsAmong(find)
  {
    var valid := Select(rings, IsValid, true);
    var holes := Select(valid, IsHole, true);
    var shells := AssignHoles(find, holes, Select(valid, IsHole, false));
    Assembly(LinesOf(Select(rings, IsValid, false)), holes, shells, PolygonsOf(shells))
  }

  /**
   * What polygonizing a graph with the given trace yields: dangles from the
   * first phase, cut edges from the second (run on the graph without its
   * dangles), then the rings of the pruned graph, split and assembled.
   */
  function Resolve(env: Collaborators, trace: seq<GraphOp>): Resolution
    requires env.Wellformed()
  {
    var a := Assembled(env.findEdgeRingContaining, ExtractedRings(env, trace));
    Resolution(
      env.removedLines(trace + [GraphOp.DeleteDangles]),
      env.removedLines(trace + [GraphOp.DeleteDangles, GraphOp.DeleteCutEdges]),
      a.invalidRingLines, a.holes, a.shells, a.polygons)
  }

  /** The shells among the rings, before any hole is attached. */
  function BareShells(rings: seq<EdgeRing>): seq<EdgeRing> {
    Select(Select(rings, IsValid, true), IsHole, false)
  }

  /**
   * The rings are split without loss and without reordering: the valid
   * ones and the invalid ones interleave to the ring list, the holes and
   * the shells interleave to the valid list, and the invalid-ring lines,
   * holes and shells together are as many as the rings.
   */
  lemma AssembledPartitions(find: (EdgeRing, seq<EdgeRing>) -> Option<nat>, rings: seq<EdgeRing>)
    requires FindsAmong(find)
    ensures var valid := Select(rings, IsValid, true);
      var invalid := Select(rings, IsValid, false);
      var a := Assembled(find, rings);
      && Interleaving(rings, valid, invalid)
      && a.invalidRingLines == LinesOf(invalid)
      && Interleaving(valid, a.holes, BareShells(rings))
      && |a.invalidRingLines| + |a.holes| + |a.shells| == |rings|
  {
    SelectPartitions(rings, IsValid);
    SelectPartitions(Select(rings, IsValid, true), IsHole);
  }

  /** Every invalid-ring line is the line of one of the rings that is not valid. */
  lemma AssembledInvalidLines(find: (EdgeRing, seq<EdgeRing>) -> Option<nat>, rings: seq<EdgeRing>)
    requires FindsAmong(find)
    ensures forall l :: l in Assembled(find, rings).invalidRingLines ==> exists r :: r in rings && !r.valid && r.line == l
  {
    var invalid := Select(rings, IsValid, false);
    SelectFrom(rings, IsValid, false);
    LinesOfIndex(invalid);
    forall l | l in LinesOf(invalid)
      ensures exists r :: r in rings && !r.valid && r.line == l
    {
      var i :| 0 <= i < |invalid| && LinesOf(invalid)[i] == l;
      assert invalid[i] in rings && !invalid[i].valid;
    }
  }

  /** Every hole is one of the rings, valid and tagged as a hole. */
  lemma AssembledHoles(find: (EdgeRing, seq<EdgeRing>) -> Option<nat>, rings: seq<EdgeRing>)
    requires FindsAmong(find)
    ensures forall h :: h in Assembled(find, rings).holes ==> h in rings && h.valid && h.hole
  {
    SelectFrom(rings, IsValid, true);
    SelectFrom(Select(rings, IsValid, true), IsHole, true);
  }

  /**
   * Every shell is a valid ring not tagged as a hole, and the i-th shell
   * differs from the i-th bare shell only by its holes.
   */
  lemma AssembledShells(find: (EdgeRing, seq<EdgeRing>) -> Option<nat>, rings: seq<EdgeRing>)
    requires FindsAmong(find)
    ensures var a := Assembled(find, rings);
      && (forall i :: 0 <= i < |a.shells| ==> a.shells[i].valid && !a.shells[i].hole)
      && (forall i :: 0 <= i < |a.shells| ==>
            SameRing(a.shells[i], BareShells(rings)[i]) && BareShells(rings)[i].holes <= a.shells[i].holes)
  {
    var valid := Select(rings, IsValid, true);
    var bare := BareShells(rings);
    var a := Assembled(find, rings);
    SelectFrom(rings, IsValid, true);
    SelectFrom(valid, IsHole, false);
    AssignHolesKeepsShells(find, a.holes, bare);
    forall i | 0 <= i < |a.shells|
      ensures a.shells[i].valid && !a.shells[i].hole
    {
      assert SameRing(a.shells[i], bare[i]);
      assert bare[i] in valid;
    }
  }

  /**
   * The polygons: exactly one per shell, in shell order, each with its
   * shell's ring as exterior and its shell's attached holes as interiors.
   * When the rings come with no holes, every attached hole is the ring of
   * one of the holes, and at most as many holes are attached in total as
   * there are holes.
   */
  lemma AssembledPolygons(find: (EdgeRing, seq<EdgeRing>) -> Option<nat>, rings: seq<EdgeRing>)
    requires FindsAmong(find)
    requires forall i :: 0 <= i < |rings| ==> rings[i].holes == []
    ensures var a := Assembled(find, rings);
      && |a.polygons| == |a.shells|
      && (forall i :: 0 <= i < |a.shells| ==> a.polygons[i] == Polygon(a.shells[i].ring, a.shells[i].holes))
      && Attached(a.shells) <= multiset(RingsOf(a.holes))
      && |Attached(a.shells)| <= |a.holes|
  {
    var bare := BareShells(rings);
    var valid := Select(rings, IsValid, true);
    SelectFrom(rings, IsValid, true);
    SelectFrom(valid, IsHole, false);
    AssignHolesAttached(find, Select(valid, IsHole, true), bare);
    PolygonsOfIndex(Assembled(find, rings).shells);
    forall i | 0 <= i < |bare|
      ensures bare[i].holes == []
    {
      assert bare[i] in valid;
      var j :| 0 <= j < |rings| && rings[j] == bare[i];
    }
    AttachedNone(bare);
  }

  /** The line-string adder: the component filter that forwards line strings to its polygonizer. */
  class LineStringAdder {
    const pol: Polygonizer

    constructor (p: Polygonizer)
      ensures pol == p
    {
      pol := p;
    }

    /** A geometry whose exact type is line string is added to the polygonizer; any other is ignored. */
    method FilterRw(g: Geometry)
      requires pol.Valid()
      modifies pol`graph, pol.graph
      ensures pol.Valid()
      ensures old(pol.graph) != null ==> pol.graph == old(pol.graph)
      ensures old(pol.graph) == null ==> pol.graph == null || fresh(pol.graph)
      ensures !IsLineString(g) ==> pol.graph == old(pol.graph)
      ensures pol.Trace() == old(pol.Trace()) + Adds(Linework([g]))
    {
      if IsLineString(g) {
        pol.AddLine(g);
      }
    }
  }

  class Polygonizer {
    /** The collaborators: graph phases and containment search. */
    const env: Collaborators
    var lineStringAdder: LineStringAdder?
    /** The graph, created with the first line added. */
    var graph: PolygonizeGraph?
    var dangles: seq<Geometry>
    var cutEdges: seq<Geometry>
    var invalidRingLines: seq<Geometry>
    var holeList: seq<EdgeRing>
    var shellList: seq<EdgeRing>
    /** The polygons; None until the one polygonization pass has run. */
    var polyList: Option<seq<Polygon>>

    /**
     * The polygonizer's adder forwards to it, its graph (once created)
     * shares its collaborators, and it is only resolved through its graph.
     */
    ghost predicate Valid()
      reads this
    {
      env.Wellformed() &&
      lineStringAdder != null && lineStringAdder.pol == this &&
      (graph != null ==> graph.env == env) &&
      (polyList.Some? ==> graph != null)
    }

    /** Everything done to the graph so far; nothing when there is no graph yet. */
    ghost function Trace(): seq<GraphOp>
      reads this, graph
    {
      if graph == null then [] else graph.trace
    }

    /** The lines added so far, in the order they were added. */
    ghost function Lines(): seq<Geometry>
      reads this, graph
    {
      AddedLines(Trace())
    }

    constructor (env: Collaborators)
      requires env.Wellformed()
      ensures Valid() && polyList.None? && this.env == env
      ensures graph == null && Lines() == []
      ensures dangles == [] && cutEdges == [] && invalidRingLines == []
    {
      this.env := env;
      graph := null;
      dangles, cutEdges, invalidRingLines := [], [], [];
      holeList, shellList := [], [];
      polyList := None;
      lineStringAdder := null;
      new;
      lineStringAdder := new LineStringAdder(this);
    }

    /**
     * Add each geometry of the list, in list order; the lines added are the
     * line strings among each geometry's components, geometry by geometry.
     * Each geometry is given as the components its traversal visits.
     */
    method AddAll(geomList: seq<seq<Geometry>>)
      requires Valid()
      modifies this`graph, graph
      ensures Valid()
      ensures old(graph) != null ==> graph == old(graph)
      ensures old(graph) == null ==> graph == null || fresh(graph)
      ensures LineworkOfFirst(geomList, |geomList|) == [] ==> graph == old(graph)
      ensures Trace() == old(Trace()) + Adds(LineworkOfFirst(geomList, |geomList|))
    {
      var i := 0;
      ghost var done: seq<Geometry> := [];
      while i < |geomList|
        invariant 0 <= i <= |geomList|
        invariant Valid()
        invariant graph == old(graph) || (old(graph) == null && fresh(graph))
        invariant done == [] ==> graph == old(graph)
        invariant Trace() == old(Trace()) + Adds(done)
        invariant done == LineworkOfFirst(geomList, i)
      {
        ghost var before := Trace();
        AddGeometry(geomList[i]);
        AddsExtend(old(Trace()), before, Trace(), done, Linework(geomList[i]));
        LineworkOfFirstNext(geomList, i);
        EmptyConcat(done, Linework(geomList[i]));
        done := done + Linework(geomList[i]);
        i := i + 1;
      }
    }

    /**
     * Add a geometry, given as the components its traversal visits (itself
     * and its parts): the filter is applied to each of them in that order.
     */
    method AddGeometry(components: seq<Geometry>)
      requires Valid()
      modifies this`graph, graph
      ensures Valid()
      ensures old(graph) != null ==> graph == old(graph)
      ensures old(graph) == null ==> graph == null || fresh(graph)
      ensures Linework(components) == [] ==> graph == old(graph)
      ensures Trace() == old(Trace()) + Adds(Linework(components))
      ensures Lines() == old(Lines()) + Linework(components)
    {
      var i := 0;
      ghost var done: seq<Geometry> := [];
      while i < |components|
        invariant 0 <= i <= |components|
        invariant Valid()
        invariant old(graph) != null ==> graph == old(graph)
        invariant old(graph) == null ==> graph == null || fresh(graph)
        invariant done == [] ==> graph == old(graph)
        invariant Trace() == old(Trace()) + Adds(done)
        invariant done == Linework(components[..i])
      {
        ghost var before := Trace();
        lineStringAdder.FilterRw(components[i]);
        LineworkPrefix(components, i);
        AddsExtend(old(Trace()), before, Trace(), done, Linework([components[i]]));
        done := done + Linework([components[i]]);
        i := i + 1;
      }
      assert components[..i] == components;
      AddedLinesAfterAdds(old(Trace()), Linework(components));
    }

    /** Add a line: the graph is created on the first line, and the line becomes its next edge. */
    method AddLine(line: Geometry)
      requires Valid()
      modifies this`graph, graph
      ensures Valid() && graph != null
      ensures old(graph) != null ==> graph == old(graph)
      ensures old(graph) == null ==> fresh(graph)
      ensures Trace() == old(Trace()) + [GraphOp.AddEdge(line)]
      ensures Lines() == old(Lines()) + [line]
    {
      if graph == null {
        graph := new PolygonizeGraph(env);
      }
      graph.AddEdge(line);
      AddedLinesAppend(old(Trace()), [GraphOp.AddEdge(line)]);
    }

    method GetPolygons() returns (polygons: seq<Polygon>)
      requires Valid() && graph != null
      modifies this, graph
      ensures Valid() && polyList.Some? && graph == old(graph) && lineStringAdder == old(lineStringAdder)
      ensures Lines() == old(Lines())
      ensures old(polyList.Some?) ==> unchanged(this, graph)
      ensures !old(polyList.Some?) ==> graph.trace == old(graph.trace) + Phases()
      ensures !old(polyList.Some?) ==>
        Resolution(dangles, cutEdges, invalidRingLines, holeList, shellList, polyList.value) == Resolve(env, old(graph.trace))
      ensures polygons == polyList.value
    {
      Polygonize();
      polygons := polyList.value;
    }

    method GetDangles() returns (lines: seq<Geometry>)
      requires Valid() && graph != null
      modifies this, graph
      ensures Valid() && polyList.Some? && graph == old(graph) && lineStringAdder == old(lineStringAdder)
      ensures Lines() == old(Lines())
      ensures old(polyList.Some?) ==> unchanged(this, graph)
      ensures !old(polyList.Some?) ==> graph.trace == old(graph.trace) + Phases()
      ensures !old(polyList.Some?) ==>
        Resolution(dangles, cutEdges, invalidRingLines, holeList, shellList, polyList.value) == Resolve(env, old(graph.trace))
      ensures lines == dangles
    {
      Polygonize();
      lines := dangles;
    }

    method GetCutEdges() returns (lines: seq<Geometry>)
      requires Valid() && graph != null
      modifies this, graph
      ensures Valid() && polyList.Some? && graph == old(graph) && lineStringAdder == old(lineStringAdder)
      ensures Lines() == old(Lines())
      ensures old(polyList.Some?) ==> unchanged(this, graph)
      ensures !old(polyList.Some?) ==> graph.trace == old(graph.trace) + Phases()
      ensures !old(polyList.Some?) ==>
        Resolution(dangles, cutEdges, invalidRingLines, holeList, shellList, polyList.value) == Resolve(env, old(graph.trace))
      ensures lines == cutEdges
    {
      Polygonize();
      lines := cutEdges;
    }

    method GetInvalidRingLines() returns (lines: seq<Geometry>)
      requires Valid() && graph != null
      modifies this, graph
      ensures Valid() && polyList.Some? && graph == old(graph) && lineStringAdder == old(lineStringAdder)
      ensures Lines() == old(Lines())
      ensures old(polyList.Some?) ==> unchanged(this, graph)
      ensures !old(polyList.Some?) ==> graph.trace == old(graph.trace) + Phases()
      ensures !old(polyList.Some?) ==>
        Resolution(dangles, cutEdges, invalidRingLines, holeList, shellList, polyList.value) == Resolve(env, old(graph.trace))
      ensures lines == invalidRingLines
    {
      Polygonize();
      lines := invalidRingLines;
    }

    /**
     * Run the polygonization pass unless it has run already: once resolved,
     * nothing changes; otherwise the graph runs its three phases in order
     * and the cached results are those of Resolve.
     */
    method Polygonize()
      requires Valid() && graph != null
      modifies this, graph
      ensures Valid() && polyList.Some? && graph == old(graph) && lineStringAdder == old(lineStringAdder)
      ensures Lines() == old(Lines())
      ensures old(polyList.Some?) ==> unchanged(this, graph)
      ensures !old(polyList.Some?) ==> graph.trace == old(graph.trace) + Phases()
      ensures !old(polyList.Some?) ==>
        Resolution(dangles, cutEdges, invalidRingLines, holeList, shellList, polyList.value) == Resolve(env, old(graph.trace))
    {
      if polyList.Some? {
        return;
      }
      ghost var t := graph.trace;
      var danglesFound := graph.DeleteDangles();
      var cutEdgesFound := graph.DeleteCutEdges();
      var edgeRingList := graph.GetEdgeRings();
      PhasesInOrder(t);
      PhasesAddNoLines(t);
      var a := Assemble(env.findEdgeRingContaining, edgeRingList);
      dangles, cutEdges, invalidRingLines := danglesFound, cutEdgesFound, a.invalidRingLines;
      holeList, shellList := a.holes, a.shells;
      polyList := Some(a.polygons);
    }
  }

  /** The value part of a pass, on the rings the graph returned. */
  method Assemble(find: (EdgeRing, seq<EdgeRing>) -> Option<nat>, edgeRingList: seq<EdgeRing>) returns (a: Assembly)
    requires FindsAmong(find)
    ensures a == Assembled(find, edgeRingList)
  {
    var validEdgeRingList, invalidLines := FindValidRings(edgeRingList);
    var holes, shells := FindShellsAndHoles(validEdgeRingList);
    shells := AssignHolesToShells(find, holes, shells);
    var polygons := BuildPolygons(shells);
    a := Assembly(invalidLines, holes, shells, polygons);
  }

  /** One polygon per shell, in shell order. */
  method BuildPolygons(shells: seq<EdgeRing>) returns (polygons: seq<Polygon>)
    ensures polygons == PolygonsOf(shells)
  {
    polygons := [];
    var i := 0;
    while i < |shells|
      invariant 0 <= i <= |shells|
      invariant polygons == PolygonsOf(shells[..i])
    {
      assert Front(shells[..i + 1]) == shells[..i];
      polygons := polygons + [GetPolygon(shells[i])];
      i := i + 1;
    }
    assert shells[..i] == shells;
  }

  /** Split the rings, in order, into the valid ones and the line strings of the invalid ones. */
  method FindValidRings(edgeRingList: seq<EdgeRing>) returns (valid: seq<EdgeRing>, invalidLines: seq<Geometry>)
    ensures valid == Select(edgeRingList, IsValid, true)
    ensures invalidLines == LinesOf(Select(edgeRingList, IsValid, false))
  {
    valid, invalidLines := [], [];
    var i := 0;
    while i < |edgeRingList|
      invariant 0 <= i <= |edgeRingList|
      invariant valid == Select(edgeRingList[..i], IsValid, true)
      invariant invalidLines == LinesOf(Select(edgeRingList[..i], IsValid, false))
    {
      var er := edgeRingList[i];
      SelectPrefix(edgeRingList, i, IsValid, true);
      SelectPrefix(edgeRingList, i, IsValid, false);
      if er.valid {
        valid := valid + [er];
      } else {
        LinesOfSnoc(Select(edgeRingList[..i], IsValid, false), er);
        invalidLines := invalidLines + [er.line];
      }
      i := i + 1;
    }
    assert edgeRingList[..i] == edgeRingList;
  }

  /** Split the valid rings, in order, into holes and shells. */
  method FindShellsAndHoles(edgeRingList: seq<EdgeRing>) returns (holeList: seq<EdgeRing>, shellList: seq<EdgeRing>)
    ensures holeList == Select(edgeRingList, IsHole, true)
    ensures shellList == Select(edgeRingList, IsHole, false)
  {
    holeList, shellList := [], [];
    var i := 0;
    while i < |edgeRingList|
      invariant 0 <= i <= |edgeRingList|
      invariant holeList == Select(edgeRingList[..i], IsHole, true)
      invariant shellList == Select(edgeRingList[..i], IsHole, false)
    {
      var er := edgeRingList[i];
      SelectPrefix(edgeRingList, i, IsHole, true);
      SelectPrefix(edgeRingList, i, IsHole, false);
      if er.hole {
        holeList := holeList + [er];
      } else {
        shellList := shellList + [er];
      }
      i := i + 1;
    }
    assert edgeRingList[..i] == edgeRingList;
  }

  /**
   * Attach every hole of the hole list, in list order, to its containing
   * shell, if any. The shells are rings shared with the caller: the result
   * is the shell list as it stands once every hole has been attached.
   */
  method AssignHolesToShells(find: (EdgeRing, seq<EdgeRing>) -> Option<nat>, holeList: seq<EdgeRing>, shellList: seq<EdgeRing>)
    returns (shells: seq<EdgeRing>)
    requires FindsAmong(find)
    ensures shells == AssignHoles(find, holeList, shellList)
  {
    shells := shellList;
    var i := 0;
    while i < |holeList|
      invariant 0 <= i <= |holeList|
      invariant shells == AssignHoles(find, holeList[..i], shellList)
    {
      assert Front(holeList[..i + 1]) == holeList[..i];
      shells := AssignHoleToShell(find, holeList[i], shells);
      i := i + 1;
    }
    assert holeList[..i] == holeList;
  }

  /** Attach the hole to the shell the containment search finds; with none found, nothing changes. */
  method AssignHoleToShell(find: (EdgeRing, seq<EdgeRing>) -> Option<nat>, holeER: EdgeRing, shellList: seq<EdgeRing>)
    returns (shells: seq<EdgeRing>)
    requires FindsAmong(find)
    ensures shells == AssignHole(find, holeER, shellList)
  {
    shells := shellList;
    var shell := find(holeER, shellList);
    if shell.Some? {
      var k := shell.value;
      shells := shells[k := shells[k].(holes := shells[k].holes + [holeER.ring])];
    }
  }

  lemma LineworkOfFirstNext(geomList: seq<seq<Geometry>>, i: nat)
    requires i < |geomList|
    ensures LineworkOfFirst(geomList, i + 1) == LineworkOfFirst(geomList, i) + Linework(geomList[i])
  {
  }

  /** The lines added by adding the first n geometries of the list, one after the other. */
  function LineworkOfFirst(geomList: seq<seq<Geometry>>, n: nat): seq<Geometry>
    requires n <= |geomList|
  {
    if n == 0 then [] else LineworkOfFirst(geomList, n - 1) + Linework(geomList[n - 1])
  }
}
