/** Two small trees and a key whose removal spoils them as the code is written: a leaf maximum of 2
    and an internal maximum of 3, two internal pages below the root. */
module TreeSamples {
  import opened Common
  import opened TreePages
  import opened TreeShape
  import opened TreeSteps
  import opened TreeInsertion
  import opened TreeRemoval
  import opened TreeSoundness

  /** The left internal page has three kids if it is to lend one, and two if it is to be merged.
      Slot 0 of every page has the key 0, as in a fresh frame. */
  ghost function Pages(lends: bool): Heap {
    map[0 := Leaf(2, 4, 1, [Entry(5, RID(0, 0))]),
        1 := Leaf(2, 4, if lends then 2 else 3, [Entry(15, RID(0, 1))]),
        2 := Leaf(2, 4, 3, [Entry(25, RID(0, 2))]),
        3 := Leaf(2, 5, 7, [Entry(45, RID(0, 3))]),
        7 := Leaf(2, 5, INVALID_PAGE_ID, [Entry(55, RID(0, 4))]),
        4 := Inner(3, 6, if lends then [Slot(0, 0), Slot(10, 1), Slot(20, 2)] else [Slot(0, 0), Slot(10, 1)]),
        5 := Inner(3, 6, [Slot(0, 3), Slot(50, 7)]),
        6 := Inner(3, INVALID_PAGE_ID, [Slot(0, 4), Slot(40, 5)])]
  }

  ghost function Ranges(lends: bool): Shape {
    if lends then
      map[0 := Info(0, NegInf, At(10)), 1 := Info(0, At(10), At(20)), 2 := Info(0, At(20), At(40)),
        3 := Info(0, At(40), At(50)),
          7 := Info(0, At(50), PosInf), 4 := Info(1, NegInf, At(40)), 5 := Info(1, At(40), PosInf),
            6 := Info(2, NegInf, PosInf)]
    else
      map[0 := Info(0, NegInf, At(10)), 1 := Info(0, At(10), At(40)), 3 := Info(0, At(40), At(50)),
          7 := Info(0, At(50), PosInf), 4 := Info(1, NegInf, At(40)), 5 := Info(1, At(40), PosInf),
            6 := Info(2, NegInf, PosInf)]
  }

  ghost function Pairs(lends: bool): map<int, RID> {
    if lends then map[5 := RID(0, 0), 15 := RID(0, 1), 25 := RID(0, 2), 45 := RID(0, 3), 55 := RID(0, 4)]
    else map[5 := RID(0, 0), 15 := RID(0, 1), 45 := RID(0, 3), 55 := RID(0, 4)]
  }

  lemma LeavesLeft(lends: bool)
    ensures var h, g := Pages(lends), Ranges(lends);
            PageOk(h, g, 6, 0) && PageOk(h, g, 6, 1) && (lends ==> PageOk(h, g, 6, 2))
  {
    var h := Pages(lends);
    AtChild(h[4].slots, 0, 0);
    AtChild(h[4].slots, 1, 1);
    if lends { AtChild(h[4].slots, 2, 2); }
  }

  lemma LeavesRight(lends: bool)
    ensures var h, g := Pages(lends), Ranges(lends); PageOk(h, g, 6, 3) && PageOk(h, g, 6, 7)
  {
    var h := Pages(lends);
    AtChild(h[5].slots, 0, 3);
    AtChild(h[5].slots, 1, 7);
  }

  lemma LeftInnerOk(lends: bool)
    ensures PageOk(Pages(lends), Ranges(lends), 6, 4)
  {
    AtChild(Pages(lends)[6].slots, 0, 4);
  }

  lemma RightInnerOk(lends: bool)
    ensures PageOk(Pages(lends), Ranges(lends), 6, 5)
  {
    AtChild(Pages(lends)[6].slots, 1, 5);
  }

  lemma RootOk(lends: bool)
    ensures PageOk(Pages(lends), Ranges(lends), 6, 6)
  {
  }

  lemma SizesOk(lends: bool)
    ensures SizedBut(Pages(lends), Ranges(lends), 6, 2, 3, {})
  {
  }

  lemma PairsOk(lends: bool)
    ensures Represents(Pages(lends), Ranges(lends), Pairs(lends))
  {
    var h, g, m := Pages(lends), Ranges(lends), Pairs(lends);
    forall e ensures Stored(h, g, e) <==> e.key in m && m[e.key] == e.rid {
      if e.key in m && m[e.key] == e.rid {
        var p := if e.key == 5 then 0 else if e.key == 15 then 1 else if e.key == 25 then 2 else if e.key == 45 then 3
          else 7;
        assert h[p].entries[0] == e;
        assert EntryIn(h, g, p, e);
      }
    }
  }

  /** Both are well-formed trees. */
  lemma SampleHolds(lends: bool)
    ensures Holds(Pages(lends), Ranges(lends), 6, 2, 3, {}, Pairs(lends))
  {
    hide PageOk, SizedBut, Represents;
    LeavesLeft(lends);
    LeavesRight(lends);
    LeftInnerOk(lends);
    RightInnerOk(lends);
    RootOk(lends);
    SizesOk(lends);
    PairsOk(lends);
  }

  /** Removing 45 empties the leaf 3, which is merged with the leaf 7; the internal page 5 then borrows
      from the left, where 5 and 15 lie between the stale key 0 and the right key 20, or is merged. */
  lemma SampleSpoils(lends: bool)
    ensures SpoilsRemoval(Pages(lends), Ranges(lends), 6, 45, Pairs(lends) - {45})
  {
    var h, m := Pages(lends), Pairs(lends) - {45};
    assert h[3].entries[0].key == 45;
    assert ChildIndex(h[5].slots, 3) == 0 && ChildIndex(h[6].slots, 5) == 1;
    assert lends ==> 5 in m && 0 <= 5 < 20;
    assert SpoilsInner(h, 5, m);
    assert SpoilsLeaf(h, 6, 3, m);
  }
}
