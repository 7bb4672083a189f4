/** The sizes a tree gets when its creator names none, in the usual layout: four bytes for an int or
    a page id, eight for a record id, sixteen for the header that all pages share. */
module TreeSizes {

  const PAGE_BYTES: nat := 4096
  const HEADER: nat := 16
  const PAGE_ID: nat := 4
  const LEAF_ENTRY: nat := 12
  const INNER_ENTRY: nat := 8

  /** How many entries fit behind a header. */
  function Room(header: nat, entry: nat): nat
    requires entry > 0 && header <= PAGE_BYTES
  {
    (PAGE_BYTES - header) / entry
  }

  function DefaultLeafMax(): nat {
    (PAGE_BYTES - HEADER - PAGE_ID) / LEAF_ENTRY
  }

  function DefaultInnerMax(): nat {
    (PAGE_BYTES - HEADER) / INNER_ENTRY
  }

  /** An insert into a full page, before the split, stays inside the page exactly when the maximum is
      below the room in the page. */
  lemma {:induction false} FitsBeforeSplit(header: nat, entry: nat, max: nat)
    requires entry > 0 && header <= PAGE_BYTES
    ensures header + (max + 1) * entry <= PAGE_BYTES <==> max < Room(header, entry)
  {
    var room := Room(header, entry);
    Scale(max + 1, room, entry);
    Scale(room + 1, max + 1, entry);
    assert room * entry <= PAGE_BYTES - header < (room + 1) * entry;
  }

  lemma Scale(a: nat, b: nat, k: nat)
    ensures a <= b ==> a * k <= b * k
  {
  }

  /** Of all maxima up to the defaults, exactly the defaults themselves are one entry too large. */
  lemma DefaultsOverflow(leafMax: nat, innerMax: nat)
    requires leafMax <= DefaultLeafMax() && innerMax <= DefaultInnerMax()
    ensures DefaultLeafMax() == 339 && DefaultInnerMax() == 510
    ensures HEADER + PAGE_ID + (leafMax + 1) * LEAF_ENTRY <= PAGE_BYTES <==> leafMax != DefaultLeafMax()
    ensures HEADER + (innerMax + 1) * INNER_ENTRY <= PAGE_BYTES <==> innerMax != DefaultInnerMax()
    ensures HEADER + PAGE_ID + 340 * LEAF_ENTRY == 4100 && HEADER + 511 * INNER_ENTRY == 4104
  {
    FitsBeforeSplit(HEADER + PAGE_ID, LEAF_ENTRY, leafMax);
    FitsBeforeSplit(HEADER, INNER_ENTRY, innerMax);
  }
}
