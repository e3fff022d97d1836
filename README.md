# Polygonizer

A model of the GEOS `Polygonizer`: the object that collects linework and
turns it into polygons. It works in two stages.

1. **Collecting lines.** Geometries are added one by one or as a list. Each
   geometry's components are passed through a line-string filter. Every
   component whose exact dynamic type is `LineString` becomes an edge of a
   polygonize graph. A `LinearRing` is not a `LineString` here. The graph
   is created when the first line is added.
2. **Polygonizing.** The first request for a result runs one pass, and
   later requests return the same cached results. A pass has these steps:
   - the graph deletes its dangles, then its cut edges, then returns its
     edge rings;
   - the rings are split, in order, into the lines of the invalid rings and
     the valid rings;
   - the valid rings are split, in order, into holes and shells;
   - each hole is attached to the shell the containment search finds for
     it, or dropped when none is found;
   - each shell becomes one polygon, in shell order.

Adding lines after a result has been requested reaches the graph but does
not reset the cache, so every later request returns the results of the
first pass.

The planar graph and the edge ring are collaborators whose code is not
modelled. The graph's only state is the trace of operations applied to it
(`External.GraphOp`). What each phase returns is an uninterpreted function
of that trace (`External.Collaborators`). The containment search is an
uninterpreted function that returns the index of a shell or nothing.

Modules:
- `Sequences`: `Front`/`Last` and the stable-partition predicate
  `Interleaving`.
- `Geometries`: geometry values, the line-string filter (`Linework`), edge
  rings, the ordered selection `Select` and polygons.
- `External`: the collaborators and graph operations.
- `Graph`: the polygonize graph as a class over its trace.
- `HoleAssignment`: attaching holes to shells, as functions on ring lists
  with their lemmas.
- `Polygonization`: the `LineStringAdder` and `Polygonizer` classes, the
  value-level steps of a pass as methods with loops, and the specification
  of a pass, `Resolve`/`Assembled`, with its lemmas.

## Model

| member | source | states |
|---|---|---|
| Polygonization.LineStringAdder.FilterRw | source/operation/polygonize/Polygonizer.cpp:31-34 | A geometry of exact type line string is added to the polygonizer as one more graph edge. Any other geometry, a linear ring included, leaves the graph unchanged. The trace grows by exactly the filtered lines. |
| Polygonization.Polygonizer.constructor | source/operation/polygonize/Polygonizer.cpp:41-50 | A new polygonizer has no graph, no lines and empty result lists. It is not yet polygonized, and its adder points back to it. |
| Polygonization.Polygonizer.AddAll | source/operation/polygonize/Polygonizer.cpp:71-76 | Adds the geometries in list order. The graph's trace grows by one edge per filtered line, geometry after geometry (`LineworkOfFirst`). An existing graph is kept; otherwise at most one fresh graph is created, and none at all when no line string was added. |
| Polygonization.Polygonizer.AddGeometry | source/operation/polygonize/Polygonizer.cpp:86-88 | Passes the geometry's components through the filter in traversal order. The trace grows by the edges of exactly the filtered line strings, and the added lines grow by those line strings. With no line string among the components, the graph stays as it was (none stays none). |
| Polygonization.Polygonizer.AddLine | source/operation/polygonize/Polygonizer.cpp:95-100 | Creates a fresh graph when there is none, or keeps the existing one. Appends exactly one edge for the line, and the added lines grow by that line. |
| Polygonization.Polygonizer.Polygonize | source/operation/polygonize/Polygonizer.cpp:141-157 | Once polygonized, nothing changes (idempotent). Otherwise the graph runs dangles, cut edges and edge rings, in that order and nothing else. All cached results then equal `Resolve` of the trace before the pass. Either way the graph, the adder and the added lines stay as they were. |
| Polygonization.Polygonizer.GetPolygons | source/operation/polygonize/Polygonizer.cpp:106-109 | Polygonizes at most once and returns the cached polygons. A repeated call changes nothing and returns the same list. The adder and the added lines are never changed. |
| Polygonization.Polygonizer.GetDangles | source/operation/polygonize/Polygonizer.cpp:115-118 | Polygonizes at most once and returns the dangles found by the first phase. A repeated call changes nothing. The adder and the added lines are never changed. |
| Polygonization.Polygonizer.GetCutEdges | source/operation/polygonize/Polygonizer.cpp:124-127 | Polygonizes at most once and returns the cut edges found by the second phase. A repeated call changes nothing. The adder and the added lines are never changed. |
| Polygonization.Polygonizer.GetInvalidRingLines | source/operation/polygonize/Polygonizer.cpp:133-136 | Polygonizes at most once and returns the lines of the invalid rings. A repeated call changes nothing. The adder and the added lines are never changed. |
| Polygonization.PhasesAddNoLines | source/operation/polygonize/Polygonizer.cpp:144-146 | A pass adds no line to the graph: the lines added after it are those added before it. |
| Polygonization.Assemble | source/operation/polygonize/Polygonizer.cpp:147-156 | The value part of a pass (split, split, assign, build) yields exactly `Assembled` of the extracted rings. |
| Polygonization.AssembledPartitions | source/operation/polygonize/Polygonizer.cpp:147-151 | Valid and invalid rings interleave to the extracted rings, and holes and shells interleave to the valid rings. Invalid-ring lines, holes and shells are as many as the rings. |
| Polygonization.AssembledInvalidLines | source/operation/polygonize/Polygonizer.cpp:159-167 | Every reported invalid-ring line is the line of an extracted ring that is not valid. |
| Polygonization.AssembledHoles | source/operation/polygonize/Polygonizer.cpp:169-179 | Every hole is an extracted ring that is valid and tagged as a hole. |
| Polygonization.AssembledShells | source/operation/polygonize/Polygonizer.cpp:169-186 | Every shell is valid and not a hole. The i-th shell equals the i-th bare shell in everything but its holes, and the bare shell's holes are a prefix of its holes. |
| Polygonization.AssembledPolygons | source/operation/polygonize/Polygonizer.cpp:152-156 | One polygon per shell, in shell order, with the shell's ring and holes. For rings that come without holes, every attached ring is a hole's ring, and no more are attached than there are holes. |
| Polygonization.FindValidRings | source/operation/polygonize/Polygonizer.cpp:159-167 | Returns the valid rings in order, and the lines of the invalid rings in order: the two halves of a stable partition by validity. |
| Polygonization.FindShellsAndHoles | source/operation/polygonize/Polygonizer.cpp:169-179 | Returns the holes in order and the shells (non-holes) in order: the two halves of a stable partition by orientation. |
| Polygonization.AssignHolesToShells | source/operation/polygonize/Polygonizer.cpp:181-186 | Attaching the holes one by one, in list order, yields `AssignHoles` of the hole and shell lists. |
| Polygonization.AssignHoleToShell | source/operation/polygonize/Polygonizer.cpp:188-192 | Attaching one hole yields `AssignHole`: the found shell, if any, gains the hole's ring. |
| Polygonization.BuildPolygons | source/operation/polygonize/Polygonizer.cpp:152-156 | The polygon list is `PolygonsOf(shells)`: one polygon per shell, in shell order. |
| HoleAssignment.AssignHoleSpec | source/operation/polygonize/Polygonizer.cpp:188-192 | With no containing shell, the shells are exactly as before and the hole is dropped. With shell k found, only shell k changes, by gaining exactly this hole's ring at the end. Either way the attached rings grow by at most this one. |
| HoleAssignment.AssignHolesKeepsShells | source/operation/polygonize/Polygonizer.cpp:181-186 | No shell is added, removed or reordered. Each shell keeps its ring and tags, and its holes list only grows at the end. |
| HoleAssignment.AssignHolesAttached | source/operation/polygonize/Polygonizer.cpp:181-186 | Every newly attached ring is the ring of one of the holes. Each hole is attached at most once, so no more are attached than there are holes. |
| HoleAssignment.AttachedAddHole | source/operation/polygonize/Polygonizer.cpp:191 | Adding a hole to one shell adds exactly that ring to the multiset of all attached rings. |
| Geometries.LineworkOnlyLineStrings | source/operation/polygonize/Polygonizer.cpp:31-34 | The filter lets through only geometries of exact type line string, each one of the inputs. |
| Geometries.LineworkKeepsLineStrings | source/operation/polygonize/Polygonizer.cpp:31-34 | The filter lets every line string of the input through. |
| Geometries.SelectPartitions | source/operation/polygonize/Polygonizer.cpp:159-179 | Selecting the rings that pass a test and those that fail it is a stable partition: an interleaving, with sizes and multisets adding up. |
| Geometries.SelectFrom | source/operation/polygonize/Polygonizer.cpp:162-165 | Every selected ring passes or fails the test as asked, and is one of the input rings. |
| Geometries.SelectKeepsAll | source/operation/polygonize/Polygonizer.cpp:162-165 | No ring that passes or fails the test as asked is left out of the selection. |
| Geometries.PolygonsOfIndex | source/operation/polygonize/Polygonizer.cpp:153-156 | The i-th polygon has the i-th shell's ring as exterior and that shell's holes as interiors. |
| External.AddedLinesAfterAdds | source/operation/polygonize/Polygonizer.cpp:99 | Adding edges for some lines extends the graph's added lines by exactly those lines, in order. |
| Graph.PolygonizeGraph.AddEdge | source/operation/polygonize/Polygonizer.cpp:99 | The trace gains one `AddEdge` for the line, and the lines passed to the graph grow by that line. Whether the graph keeps it as an edge is not modelled. |
| Graph.PolygonizeGraph.DeleteDangles | source/operation/polygonize/Polygonizer.cpp:144 | The trace gains the dangle phase, and the result is what that phase removes. |
| Graph.PolygonizeGraph.DeleteCutEdges | source/operation/polygonize/Polygonizer.cpp:145 | The trace gains the cut-edge phase, and the result is what that phase removes. |
| Graph.PolygonizeGraph.GetEdgeRings | source/operation/polygonize/Polygonizer.cpp:146 | The trace gains the ring extraction, and the result is the rings it returns. |

## Left out

- Geometry traversal (`apply_rw`): a geometry is given as the sequence of components its traversal visits. The traversal order itself is not modelled.
- Planar graph internals: the graph, the dangle and cut-edge deletion, ring extraction and the edge ring's validity and orientation tests are not part of this model. They are uninterpreted functions of the graph's trace and of the ring's tags.
- Containment search (`findEdgeRingContaining`): an uninterpreted function returning the index of a shell in the given list, or nothing. The model relies only on the index being in range (`External.FindsAmong`).
- Polygonization.AssembledPolygons: assumes the extracted rings come with no holes attached. That is a property of ring extraction, which is not modelled.
- Polygonization.Polygonizer.Polygonize: requires a graph to exist. The source dereferences the graph without a check, so polygonizing before any line string was added is undefined there.
- Polygonization.Polygonizer.AddAll: states the new trace, not the new added lines. The lines follow from the trace by `External.AddedLinesAfterAdds`.
- Polygonization.Polygonizer.GetPolygons, Polygonization.Polygonizer.GetDangles, Polygonization.Polygonizer.GetCutEdges, Polygonization.Polygonizer.GetInvalidRingLines: the source returns pointers to the cached lists themselves, so a caller that changes a returned list changes what later calls return. The model returns the cached lists as values, and this aliasing is not captured.
- Shared ring objects: holes and shells are rings shared between the lists and the graph, and the source attaches a hole to a shell in place. The model uses values: attaching replaces the shell in the shell list.
- `findShellsAndHoles` and `assignHolesToShells` write the member lists in place. They are modelled as methods returning the new lists, which `Polygonize` stores.
- Intermediate states: `polygonize` writes its members one by one. The model writes them together at the end of the pass, and nothing observes the states in between.
- Memory management: the destructor, the vectors the source leaks when it replaces them, and the geometry factory that creates the graph are not modelled.
- Polygon construction (`getPolygon`): modelled as a value pairing the shell's ring with its attached hole rings.
