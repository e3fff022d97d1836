/**
 * The geometry values the polygonizer handles. Geometries are opaque: only
 * their dynamic type matters here, and an id stands for object identity.
 */
module Geometries {
  import opened Sequences

  /** Dynamic geometry types; a linear ring is a different dynamic type from a line string. */
  datatype GeometryType =
    | PointType | LineStringType | LinearRingType | PolygonType
    | MultiPointType | MultiLineStringType | MultiPolygonType | CollectionType

  datatype Geometry = Geometry(kind: GeometryType, id: nat)

  /** The exact-type test of the line-string filter: true only for a plain line string. */
  predicate IsLineString(g: Geometry) {
    g.kind == LineStringType
  }

  /** The geometries the line-string filter lets through, in order. */
  function Linework(gs: seq<Geometry>): (ls: seq<Geometry>)
    ensures |ls| <= |gs|
    decreases |gs|
  {
    if gs == [] then []
    else
      assert gs == Front(gs) + [Last(gs)];
      Linework(Front(gs)) + (if IsLineString(Last(gs)) then [Last(gs)] else [])
  }

  /** Filtering a sequence extended by one geometry extends the filtered lines by that geometry's own. */
  lemma LineworkSnoc(gs: seq<Geometry>, g: Geometry)
    ensures Linework(gs + [g]) == Linework(gs) + Linework([g])
  {
    assert Front(gs + [g]) == gs;
    assert Front([g]) == [];
  }

  /** The filtered prefix grows by the filtered next geometry. */
  lemma LineworkPrefix(gs: seq<Geometry>, i: nat)
    requires i < |gs|
    ensures Linework(gs[..i + 1]) == Linework(gs[..i]) + Linework([gs[i]])
  {
    assert gs[..i + 1] == gs[..i] + [gs[i]];
    LineworkSnoc(gs[..i], gs[i]);
  }

  /** The filter lets through nothing but line strings, each one of the given geometries. */
  lemma {:induction false} LineworkOnlyLineStrings(gs: seq<Geometry>)
    ensures forall i :: 0 <= i < |Linework(gs)| ==> IsLineString(Linework(gs)[i]) && Linework(gs)[i] in gs
    decreases |gs|
  {
    if gs != [] {
      LineworkOnlyLineStrings(Front(gs));
      assert forall g :: g in Front(gs) ==> g in gs;
    }
  }

  /** No line string is left out by the filter. */
  lemma {:induction false} LineworkKeepsLineStrings(gs: seq<Geometry>)
    ensures forall i :: 0 <= i < |gs| && IsLineString(gs[i]) ==> gs[i] in Linework(gs)
    decreases |gs|
  {
    if gs != [] {
      LineworkKeepsLineStrings(Front(gs));
      assert forall i :: 0 <= i < |gs| - 1 ==> gs[i] == Front(gs)[i];
    }
  }

  /**
   * An edge ring extracted from the graph: its line string (reported when
   * it is invalid), its linear ring (used as a hole of another ring), the
   * validity and orientation tags the ring computes, and the holes
   * attached to it so far.
   */
  datatype EdgeRing = EdgeRing(id: nat, line: Geometry, ring: Geometry, valid: bool, hole: bool, holes: seq<Geometry>)

  /** The two tests the polygonizer asks of a ring: isValid() and isHole(). */
  datatype RingTest = IsValid | IsHole

  predicate Passes(r: EdgeRing, test: RingTest) {
    match test
    case IsValid => r.valid
    case IsHole => r.hole
  }

  /** The rings r of rs with Passes(r, test) == keep, in the order they have in rs. */
  function Select(rs: seq<EdgeRing>, test: RingTest, keep: bool): (sel: seq<EdgeRing>)
    ensures |sel| <= |rs|
    decreases |rs|
  {
    if rs == [] then []
    else
      assert rs == Front(rs) + [Last(rs)];
      Select(Front(rs), test, keep) + (if Passes(Last(rs), test) == keep then [Last(rs)] else [])
  }

  /** Selecting from a sequence extended by one ring extends the selection by that ring or by nothing. */
  lemma SelectSnoc(rs: seq<EdgeRing>, r: EdgeRing, test: RingTest, keep: bool)
    ensures Select(rs + [r], test, keep) == Select(rs, test, keep) + (if Passes(r, test) == keep then [r] else [])
  {
    assert Front(rs + [r]) == rs;
  }

  /** The selection from a prefix grows by the next ring or by nothing. */
  lemma SelectPrefix(rs: seq<EdgeRing>, i: nat, test: RingTest, keep: bool)
    requires i < |rs|
    ensures Passes(rs[i], test) == keep ==> Select(rs[..i + 1], test, keep) == Select(rs[..i], test, keep) + [rs[i]]
    ensures Passes(rs[i], test) != keep ==> Select(rs[..i + 1], test, keep) == Select(rs[..i], test, keep)
  {
    assert rs[..i + 1] == rs[..i] + [rs[i]];
    SelectSnoc(rs[..i], rs[i], test, keep);
    assert Select(rs[..i], test, keep) + [] == Select(rs[..i], test, keep);
  }

  /** Every selected ring passes the test as asked and is one of the given rings. */
  lemma {:induction false} SelectFrom(rs: seq<EdgeRing>, test: RingTest, keep: bool)
    ensures forall i :: 0 <= i < |Select(rs, test, keep)| ==>
      Passes(Select(rs, test, keep)[i], test) == keep && Select(rs, test, keep)[i] in rs
    decreases |rs|
  {
    if rs != [] {
      SelectFrom(Front(rs), test, keep);
      assert forall r :: r in Front(rs) ==> r in rs;
    }
  }

  /** No ring that passes the test as asked is left out of the selection. */
  lemma {:induction false} SelectKeepsAll(rs: seq<EdgeRing>, test: RingTest, keep: bool)
    ensures forall i :: 0 <= i < |rs| && Passes(rs[i], test) == keep ==> rs[i] in Select(rs, test, keep)
    decreases |rs|
  {
    if rs != [] {
      SelectKeepsAll(Front(rs), test, keep);
      assert forall i :: 0 <= i < |rs| - 1 ==> rs[i] == Front(rs)[i];
    }
  }

  /**
   * Selecting the rings that pass a test and those that fail it is a
   * stable partition: rs is an interleaving of the two selections, so
   * every ring lands in exactly one of them, in its original relative
   * order, and none is lost or duplicated.
   */
  lemma {:induction false} SelectPartitions(rs: seq<EdgeRing>, test: RingTest)
    ensures Interleaving(rs, Select(rs, test, true), Select(rs, test, false))
    ensures |Select(rs, test, true)| + |Select(rs, test, false)| == |rs|
    ensures multiset(Select(rs, test, true)) + multiset(Select(rs, test, false)) == multiset(rs)
    decreases |rs|
  {
    if rs != [] {
      SelectPartitions(Front(rs), test);
      var a, b := Select(rs, test, true), Select(rs, test, false);
      if Passes(Last(rs), test) {
        assert Front(a) == Select(Front(rs), test, true);
        assert b == Select(Front(rs), test, false);
      } else {
        assert a == Select(Front(rs), test, true);
        assert Front(b) == Select(Front(rs), test, false);
      }
    }
    InterleavingSizes(rs, Select(rs, test, true), Select(rs, test, false));
  }

  /** a and b are the same ring, except perhaps for the holes attached to them. */
  predicate SameRing(a: EdgeRing, b: EdgeRing) {
    a.(holes := b.holes) == b
  }

  /** A polygon: the shell's ring as exterior and the attached hole rings as interiors. */
  datatype Polygon = Polygon(shell: Geometry, holes: seq<Geometry>)

  function GetPolygon(er: EdgeRing): Polygon {
    Polygon(er.ring, er.holes)
  }

  /** The line strings of the given rings, in ring order. */
  function LinesOf(rs: seq<EdgeRing>): (ls: seq<Geometry>)
    ensures |ls| == |rs|
    decreases |rs|
  {
    if rs == [] then [] else LinesOf(Front(rs)) + [Last(rs).line]
  }

  /** The i-th line is the line of the i-th ring. */
  lemma {:induction false} LinesOfIndex(rs: seq<EdgeRing>)
    ensures forall i :: 0 <= i < |rs| ==> LinesOf(rs)[i] == rs[i].line
    decreases |rs|
  {
    if rs != [] {
      LinesOfIndex(Front(rs));
    }
  }

  lemma LinesOfSnoc(rs: seq<EdgeRing>, r: EdgeRing)
    ensures LinesOf(rs + [r]) == LinesOf(rs) + [r.line]
  {
    assert Front(rs + [r]) == rs;
  }

  /** The linear rings of the given rings, in ring order. */
  function RingsOf(rs: seq<EdgeRing>): (gs: seq<Geometry>)
    ensures |gs| == |rs|
    decreases |rs|
  {
    if rs == [] then [] else RingsOf(Front(rs)) + [Last(rs).ring]
  }

  /** The i-th linear ring is the ring of the i-th edge ring. */
  lemma {:induction false} RingsOfIndex(rs: seq<EdgeRing>)
    ensures forall i :: 0 <= i < |rs| ==> RingsOf(rs)[i] == rs[i].ring
    decreases |rs|
  {
    if rs != [] {
      RingsOfIndex(Front(rs));
    }
  }

  /** The polygons of the given shells, one per shell, in shell order. */
  function PolygonsOf(shells: seq<EdgeRing>): (ps: seq<Polygon>)
    ensures |ps| == |shells|
    decreases |shells|
  {
    if shells == [] then [] else PolygonsOf(Front(shells)) + [GetPolygon(Last(shells))]
  }

  /** The i-th polygon has the i-th shell's ring as exterior and its attached holes as interiors. */
  lemma {:induction false} PolygonsOfIndex(shells: seq<EdgeRing>)
    ensures forall i :: 0 <= i < |shells| ==> PolygonsOf(shells)[i] == Polygon(shells[i].ring, shells[i].holes)
    decreases |shells|
  {
    if shells != [] {
      PolygonsOfIndex(Front(shells));
    }
  }
}
