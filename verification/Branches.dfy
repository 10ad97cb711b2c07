/** Branch ids: the search for a branch by its id, shared by the tables that are indexed by branch. */
module BranchIds {

  ghost predicate Distinct(ids: seq<int>) {
    forall i, j :: 0 <= i < j < |ids| ==> ids[i] != ids[j]
  }

  /** The first position that holds id, or -1. */
  function IndexOf(ids: seq<int>, id: int): (r: int)
    ensures -1 <= r < |ids|
    ensures r >= 0 ==> ids[r] == id
    ensures r == -1 <==> id !in ids
  {
    if |ids| == 0 then -1
    else if ids[0] == id then 0
    else
      var k := IndexOf(ids[1..], id);
      if k < 0 then -1 else k + 1
  }

  /** With distinct ids, the place an id is found at is the only place it has. */
  lemma IndexOfIsPlace(ids: seq<int>, i: int)
    requires Distinct(ids) && 0 <= i < |ids|
    ensures IndexOf(ids, ids[i]) == i
  {
  }

  /** au_br_index: linear search from the top branch. */
  method BrIndex(ids: seq<int>, id: int) returns (index: int)
    ensures index == IndexOf(ids, id)
  {
    index := 0;
    while index < |ids|
      invariant 0 <= index <= |ids|
      invariant var k := IndexOf(ids[index..], id); IndexOf(ids, id) == if k < 0 then -1 else index + k
    {
      if ids[index] == id { return; }
      index := index + 1;
    }
    index := -1;
  }
}
