/** The free-list allocator behind the DOM: fixed-size items in blocks, freed items linked through the items
    themselves. */
module MemPool {
  import opened Collections

  const NONE := -1

  /** Following the links from `root` visits the list and ends. */
  predicate Chained(root: int, next: map<int, int>, list: seq<int>)
    decreases |list|
  {
    if list == [] then root == NONE
    else root == list[0] && root != NONE && root in next && Chained(next[root], next, list[1..])
  }

  /** A chain is determined by where it starts. */
  lemma {:induction false} ChainUnique(root: int, next: map<int, int>, a: seq<int>, b: seq<int>)
    requires Chained(root, next, a) && Chained(root, next, b)
    ensures a == b
    decreases |a|
  {
    if a != [] {
      ChainUnique(next[root], next, a[1..], b[1..]);
    }
  }

  /** Items that are not on the list may be written to. */
  lemma {:induction false} WriteElsewhere(root: int, next: map<int, int>, list: seq<int>, item: int, data: int)
    requires Chained(root, next, list) && item !in list
    ensures Chained(root, next[item := data], list)
    decreases |list|
  {
    if list != [] {
      assert list[0] in list;
      WriteElsewhere(next[root], next, list[1..], item, data);
    }
  }

  lemma Hooked(root: int, next: map<int, int>, list: seq<int>, item: int)
    requires Chained(root, next, list) && item !in list && item != NONE
    ensures Chained(item, next[item := root], [item] + list)
  {
    WriteElsewhere(root, next, list, item, root);
    assert ([item] + list)[1..] == list;
  }

  predicate Run(items: seq<int>, first: int) {
    forall k :: 0 <= k < |items| ==> items[k] == first + k
  }

  lemma RunMembers(items: seq<int>, first: int)
    requires Run(items, first)
    ensures NoDuplicates(items) && forall x :: x in items <==> first <= x < first + |items|
  {
    forall x | first <= x < first + |items| ensures x in items {
      assert items[x - first] == x;
    }
  }

  /** Links the items of a new block into a list. */
  method LinkItems(next: map<int, int>, first: nat, n: nat) returns (linked: map<int, int>, ghost items: seq<int>)
    requires n > 0
    ensures |items| == n && Run(items, first) && Chained(first, linked, items)
  {
    var i := n - 1;
    linked := next[first + i := NONE];
    items := [first + i];
    while i > 0
      invariant 0 <= i < n && |items| == n - i && Run(items, first + i) && Chained(first + i, linked, items)
    {
      RunMembers(items, first + i);
      Hooked(first + i, linked, items, first + i - 1);
      linked := linked[first + i - 1 := first + i];
      items := [first + i - 1] + items;
      i := i - 1;
    }
  }

  class MemPoolT {
    const itemsPerBlock: nat
    var mBlocks: nat
    var mRoot: int
    var mNext: map<int, int>
    var mCurrentAllocs: int
    var mNAllocs: int
    var mMaxAllocs: int
    ghost var free: seq<int>
    ghost var live: set<int>

    /** Each item of each block is live or free, not both. */
    ghost predicate Valid()
      reads this
    {
      && itemsPerBlock > 0
      && NoDuplicates(free) && Chained(mRoot, mNext, free)
      && (forall x :: x in free <==> 0 <= x < mBlocks * itemsPerBlock && x !in live)
      && (forall x :: x in live ==> 0 <= x < mBlocks * itemsPerBlock)
      && mCurrentAllocs == |live| && mCurrentAllocs <= mMaxAllocs <= mNAllocs
    }

    constructor (perBlock: nat)
      requires perBlock > 0
      ensures Valid() && live == {} && mBlocks == 0 && itemsPerBlock == perBlock
    {
      itemsPerBlock, mBlocks, mRoot, mNext, mCurrentAllocs, mNAllocs, mMaxAllocs := perBlock, 0, NONE, map[], 0, 0, 0;
      free, live := [], {};
    }

    /** The counters account for every item of every block. */
    lemma Accounted()
      requires Valid()
      ensures mBlocks * itemsPerBlock == |free| + mCurrentAllocs
    {
      var frees := set x | x in free;
      DistinctSize(free);
      assert frees + live == UpTo(mBlocks * itemsPerBlock);
      assert frees * live == {};
    }

    method NewBlock()
      requires Valid() && free == []
      modifies this`mBlocks, this`mRoot, this`mNext, this`free
      ensures Valid() && mBlocks == old(mBlocks) + 1 && free != []
    {
      var first := mBlocks * itemsPerBlock;
      assert (mBlocks + 1) * itemsPerBlock == first + itemsPerBlock;
      forall x | 0 <= x < first ensures x in live {
        assert x !in free;
      }
      ghost var items;
      mNext, items := LinkItems(mNext, first, itemsPerBlock);
      RunMembers(items, first);
      mRoot := first;
      mBlocks := mBlocks + 1;
      free := items;
    }

    /** Never hands out an item that is in use. */
    method Alloc() returns (item: int)
      requires Valid()
      modifies this
      ensures Valid() && item !in old(live) && live == old(live) + {item}
      ensures mBlocks == if old(free) == [] then old(mBlocks) + 1 else old(mBlocks)
      ensures old(free) != [] ==> item == old(free)[0] && free == old(free)[1..]
    {
      if mRoot == NONE {
        NewBlock();
      }
      item := mRoot;
      assert item in free && forall x :: x in free <==> x == item || x in free[1..];
      mRoot := mNext[mRoot];
      mCurrentAllocs := mCurrentAllocs + 1;
      if mCurrentAllocs > mMaxAllocs {
        mMaxAllocs := mCurrentAllocs;
      }
      mNAllocs := mNAllocs + 1;
      assert item !in free[1..];
      free, live := free[1..], live + {item};
    }

    /** Gives an item back; null is ignored. */
    method Free(item: int)
      requires Valid() && (item == NONE || item in live)
      modifies this`mRoot, this`mNext, this`mCurrentAllocs, this`free, this`live
      ensures Valid()
      ensures item == NONE ==> live == old(live) && free == old(free)
      ensures item != NONE ==> live == old(live) - {item} && free == [item] + old(free)
    {
      if item == NONE {
        assert item !in live;
        return;
      }
      mCurrentAllocs := mCurrentAllocs - 1;
      Hooked(mRoot, mNext, free, item);
      mNext := mNext[item := mRoot];
      mRoot := item;
      free, live := [item] + free, live - {item};
    }

    /** The owner of a live item writes over all of it, the link included. */
    method WriteItem(item: int, data: int)
      requires Valid() && item in live
      modifies this`mNext
      ensures Valid()
    {
      WriteElsewhere(mRoot, mNext, free, item, data);
      mNext := mNext[item := data];
    }
  }
}
