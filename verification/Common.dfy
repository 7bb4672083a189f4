/** Identifiers shared by every component. */
module Common {

  /** `page_id_t`; allocated ids are non-negative. */
  type PageId = int

  const INVALID_PAGE_ID: PageId := -1

  /** Record id: page and slot number. */
  datatype RID = RID(page: PageId, slot: int)

  type Byte = b: int | 0 <= b < 256

  datatype Option<+T> = None | Some(value: T)

  function Without<T>(s: seq<T>, i: nat): seq<T>
    requires i < |s|
  {
    s[..i] + s[i + 1..]
  }

  lemma SubsetSize<T>(a: set<T>, b: set<T>)
    requires a <= b
    ensures |a| <= |b|
  {
    assert b == a + (b - a);
  }

  lemma HasMember<T>(s: set<T>)
    requires s != {}
    ensures exists x :: x in s
  {
  }
}
