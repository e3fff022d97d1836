/**
 * Hole assignment: each hole, in list order, is attached to the shell the
 * containment search finds for it, or to none.
 */
module HoleAssignment {
  import opened Wrappers
  import opened Sequences
  import opened Geometries
  import opened External

  /** Every hole ring attached to any of the shells, with multiplicity. */
  function Attached(shells: seq<EdgeRing>): multiset<Geometry>
    decreases |shells|
  {
    if shells == [] then multiset{} else Attached(Front(shells)) + multiset(Last(shells).holes)
  }

  lemma {:induction false} AttachedAddHole(shells: seq<EdgeRing>, k: nat, x: Geometry)
    requires k < |shells|
    ensures Attached(shells[k := shells[k].(holes := shells[k].holes + [x])]) == Attached(shells) + multiset{x}
    decreases |shells|
  {
    var updated := shells[k := shells[k].(holes := shells[k].holes + [x])];
    if k == |shells| - 1 {
      assert Front(updated) == Front(shells);
      assert multiset(Last(updated).holes) == multiset(Last(shells).holes) + multiset{x};
    } else {
      assert Front(updated) == Front(shells)[k := shells[k].(holes := shells[k].holes + [x])];
      assert Last(updated) == Last(shells);
      AttachedAddHole(Front(shells), k, x);
    }
  }

  /** Rings that come with no holes attached have nothing attached between them. */
  lemma {:induction false} AttachedNone(shells: seq<EdgeRing>)
    requires forall i :: 0 <= i < |shells| ==> shells[i].holes == []
    ensures Attached(shells) == multiset{}
    decreases |shells|
  {
    if shells != [] {
      AttachedNone(Front(shells));
    }
  }

  /**
   * Attach one hole: the shell the containment search finds for it gets
   * the hole's ring appended to its holes; with none found, nothing changes.
   */
  function AssignHole(find: (EdgeRing, seq<EdgeRing>) -> Option<nat>, hole: EdgeRing, shells: seq<EdgeRing>): (r: seq<EdgeRing>)
    requires FindsAmong(find)
    ensures |r| == |shells|
  {
    match find(hole, shells)
    case None => shells
    case Some(k) => shells[k := shells[k].(holes := shells[k].holes + [hole.ring])]
  }

  /**
   * When the search finds no containing shell the shells are left exactly
   * as they were (the hole is dropped); when it finds shell k, shell k
   * gains exactly this hole's ring at the end of its holes and no other
   * shell changes. Either way the attached rings grow by at most this one.
   */
  lemma AssignHoleSpec(find: (EdgeRing, seq<EdgeRing>) -> Option<nat>, hole: EdgeRing, shells: seq<EdgeRing>)
    requires FindsAmong(find)
    ensures var r := AssignHole(find, hole, shells);
      && (forall j :: 0 <= j < |r| ==> SameRing(r[j], shells[j]) && shells[j].holes <= r[j].holes)
      && (find(hole, shells).None? ==> r == shells)
      && (find(hole, shells).Some? ==>
            var k := find(hole, shells).value;
            r[k].holes == shells[k].holes + [hole.ring] &&
            forall j :: 0 <= j < |r| && j != k ==> r[j] == shells[j])
      && Attached(r) == Attached(shells) + (if find(hole, shells).Some? then multiset{hole.ring} else multiset{})
  {
    match find(hole, shells)
    case None =>
    case Some(k) => AttachedAddHole(shells, k, hole.ring);
  }

  /** Attach the holes one after the other, in list order. */
  function AssignHoles(find: (EdgeRing, seq<EdgeRing>) -> Option<nat>, holes: seq<EdgeRing>, shells: seq<EdgeRing>): (r: seq<EdgeRing>)
    requires FindsAmong(find)
    ensures |r| == |shells|
    decreases |holes|
  {
    if holes == [] then shells
    else AssignHole(find, Last(holes), AssignHoles(find, Front(holes), shells))
  }

  /** No shell is added, removed or reordered, and a shell only gains holes at the end of its list. */
  lemma {:induction false} AssignHolesKeepsShells(find: (EdgeRing, seq<EdgeRing>) -> Option<nat>, holes: seq<EdgeRing>, shells: seq<EdgeRing>)
    requires FindsAmong(find)
    ensures var r := AssignHoles(find, holes, shells);
      forall j :: 0 <= j < |r| ==> SameRing(r[j], shells[j]) && shells[j].holes <= r[j].holes
    decreases |holes|
  {
    if holes != [] {
      var mid := AssignHoles(find, Front(holes), shells);
      AssignHolesKeepsShells(find, Front(holes), shells);
      AssignHoleSpec(find, Last(holes), mid);
      var r := AssignHoles(find, holes, shells);
      forall j | 0 <= j < |r|
        ensures SameRing(r[j], shells[j]) && shells[j].holes <= r[j].holes
      {
        assert SameRing(mid[j], shells[j]) && shells[j].holes <= mid[j].holes;
        assert SameRing(r[j], mid[j]) && mid[j].holes <= r[j].holes;
      }
    }
  }

  /**
   * Every ring attached while assigning is the ring of one of the holes,
   * and no more holes are attached than there are holes.
   */
  lemma {:induction false} AssignHolesAttached(find: (EdgeRing, seq<EdgeRing>) -> Option<nat>, holes: seq<EdgeRing>, shells: seq<EdgeRing>)
    requires FindsAmong(find)
    ensures var r := AssignHoles(find, holes, shells);
      && Attached(shells) <= Attached(r) <= Attached(shells) + multiset(RingsOf(holes))
      && |Attached(r)| <= |Attached(shells)| + |holes|
    decreases |holes|
  {
    if holes != [] {
      var mid := AssignHoles(find, Front(holes), shells);
      AssignHolesAttached(find, Front(holes), shells);
      AssignHoleSpec(find, Last(holes), mid);
      var added := if find(Last(holes), mid).Some? then multiset{Last(holes).ring} else multiset{};
      assert Attached(AssignHoles(find, holes, shells)) == Attached(mid) + added;
      assert multiset(RingsOf(holes)) == multiset(RingsOf(Front(holes))) + multiset{Last(holes).ring} by {
        assert RingsOf(holes) == RingsOf(Front(holes)) + [Last(holes).ring];
      }
    }
  }
}
