/** The children of a DOM node: a doubly linked list, edited in place, that stands for a sequence. */
module XmlDom {
  import opened Collections

  function Position<T(==)>(s: seq<T>, x: T): (r: nat)
    requires x in s
    ensures r < |s| && s[r] == x && x !in s[..r]
  {
    if s[0] == x then 0 else
      assert x in s[1..];
      var r := 1 + Position(s[1..], x);
      assert s[..r] == [s[0]] + s[1..][..r - 1];
      r
  }

  /** A sequence without one of its members. */
  function Removed<T(==)>(s: seq<T>, x: T): seq<T> {
    if x in s then s[..Position(s, x)] + s[Position(s, x) + 1..] else s
  }

  lemma RemovedAt<T>(s: seq<T>, x: T)
    requires x in s
    ensures var r, k := Removed(s, x), Position(s, x);
            |r| == |s| - 1 && forall j :: 0 <= j < |r| ==> r[j] == s[if j < k then j else j + 1]
  {
    WithoutAt(s, Position(s, x));
  }

  lemma WithoutAt<T>(s: seq<T>, k: nat)
    requires k < |s|
    ensures var r := s[..k] + s[k + 1..];
            |r| == |s| - 1 && forall j :: 0 <= j < |r| ==> r[j] == s[if j < k then j else j + 1]
  {
  }

  lemma RemovedMembers<T>(s: seq<T>, x: T)
    requires NoDuplicates(s)
    ensures NoDuplicates(Removed(s, x)) && x !in Removed(s, x)
    ensures forall y :: y in Removed(s, x) <==> y in s && y != x
  {
    if x in s {
      RemovedAt(s, x);
      hide Removed;
      var k, r := Position(s, x), Removed(s, x);
      forall y ensures y in r <==> y in s && y != x {
        if y in s && y != x {
          var j :| 0 <= j < |s| && s[j] == y;
          assert r[if j < k then j else j - 1] == y;
        }
      }
    }
  }

  lemma DistinctAt<T>(s: seq<T>, k: nat)
    requires NoDuplicates(s) && k < |s|
    ensures forall j :: 0 <= j < |s| && j != k ==> s[j] != s[k]
  {
  }

  function InsertedAt<T>(s: seq<T>, k: nat, x: T): seq<T>
    requires k <= |s|
  {
    s[..k] + [x] + s[k..]
  }

  function InsertedAfter<T(==)>(s: seq<T>, after: T, x: T): seq<T>
    requires after in s
  {
    InsertedAt(s, Position(s, after) + 1, x)
  }

  /** A node inserted behind another stands right behind it, and all others stay in their order. */
  lemma InsertedBehind<T>(s: seq<T>, k: nat, x: T)
    requires NoDuplicates(s) && x !in s && k < |s|
    ensures var r := InsertedAfter(s, s[k], x);
            && |r| == |s| + 1 && r[k] == s[k] && r[k + 1] == x
            && forall j :: 0 <= j < |s| ==> r[if j <= k then j else j + 1] == s[j]
  {
    DistinctAt(s, k);
    PositionIs(s, k, s[k]);
    InsertedDistinct(s, k + 1, x);
  }

  /** A node taken out leaves all others in their order. */
  lemma RemovedAround<T>(s: seq<T>, k: nat)
    requires NoDuplicates(s) && k < |s|
    ensures var r := Removed(s, s[k]);
            |r| == |s| - 1 && forall j :: 0 <= j < |r| ==> r[j] == s[if j < k then j else j + 1]
  {
    DistinctAt(s, k);
    PositionIs(s, k, s[k]);
    RemovedAt(s, s[k]);
  }

  class XMLNode {
    const document: int
    var parent: XMLNode?
    var firstChild: XMLNode?
    var lastChild: XMLNode?
    var prev: XMLNode?
    var next: XMLNode?
    ghost var children: seq<XMLNode>

    constructor (doc: int)
      ensures document == doc && parent == null && prev == null && next == null && children == [] && Valid()
    {
      document := doc;
      parent, firstChild, lastChild, prev, next, children := null, null, null, null, null, [];
    }

    /** The pointers of the child at `i` name its parent and neighbours. */
    ghost predicate LinkedAt(i: nat)
      requires i < |children|
      reads this`children, children`parent, children`prev, children`next
    {
      && children[i].parent == this
      && children[i].prev == (if i == 0 then null else children[i - 1])
      && children[i].next == (if i == |children| - 1 then null else children[i + 1])
    }

    /** The pointers spell out the sequence. */
    ghost predicate Valid()
      reads this`firstChild, this`lastChild, this`children, children`parent, children`prev, children`next
    {
      && NoDuplicates(children)
      && firstChild == (if children == [] then null else children[0])
      && lastChild == (if children == [] then null else children[|children| - 1])
      && forall i :: 0 <= i < |children| ==> LinkedAt(i)
    }

    /** What the pointers of a child are before it is taken out. */
    lemma Neighbours(c: XMLNode)
      requires Valid() && c in children
      ensures c.prev != null ==> c.prev in children && c.prev != c
      ensures c.next != null ==> c.next in children && c.next != c
    {
      var k := Position(children, c);
      assert LinkedAt(k);
      DistinctAt(children, k);
    }

    /** After the pointers around a child have been redirected, and nothing else in the list. */
    twostate lemma UnlinkKeeps(child: XMLNode)
      requires old(Valid()) && child in old(children) && children == Removed(old(children), child)
      requires firstChild == if child == old(firstChild) then old(child.next) else old(firstChild)
      requires lastChild == if child == old(lastChild) then old(child.prev) else old(lastChild)
      requires forall c :: c in old(children) && c != child ==> c.parent == old(c.parent)
      requires forall c :: c in old(children) && c != child ==>
                             c.next == if c == old(child.prev) then old(child.next) else old(c.next)
      requires forall c :: c in old(children) && c != child ==>
                             c.prev == if c == old(child.next) then old(child.prev) else old(c.prev)
      ensures Valid()
    {
      var before, k := old(children), Position(old(children), child);
      RemovedAt(before, child);
      RemovedMembers(before, child);
      DistinctAt(before, k);
      if k > 0 {
        DistinctAt(before, k - 1);
      }
      if k < |before| - 1 {
        DistinctAt(before, k + 1);
      }
      hide Removed;
      hide Position;
      hide NoDuplicates;
      assert old(LinkedAt(k));
      forall i | 0 <= i < |children| ensures LinkedAt(i) {
        var j := if i < k then i else i + 1;
        assert old(LinkedAt(j)) && children[i] == before[j] && before[j] in before;
      }
    }

    /** The ends of the list, without the child. */
    method UnlinkEnds(child: XMLNode)
      modifies this`firstChild, this`lastChild
      ensures firstChild == if child == old(firstChild) then child.next else old(firstChild)
      ensures lastChild == if child == old(lastChild) then child.prev else old(lastChild)
    {
      if child == firstChild {
        firstChild := firstChild.next;
      }
      if child == lastChild {
        lastChild := lastChild.prev;
      }
    }

    /** The neighbours of the child, joined to each other. */
    method Bypass(child: XMLNode)
      requires child.prev != null ==> child.prev in children && child.prev != child
      requires child.next != null ==> child.next in children && child.next != child
      modifies children`prev, children`next
      ensures child.prev == old(child.prev) && child.next == old(child.next)
      ensures forall c :: c in children ==> c.next == if c == old(child.prev) then old(child.next) else old(c.next)
      ensures forall c :: c in children ==> c.prev == if c == old(child.next) then old(child.prev) else old(c.prev)
    {
      if child.prev != null {
        child.prev.next := child.next;
      }
      if child.next != null {
        child.next.prev := child.prev;
      }
    }

    /** Takes a child out of the list. */
    method Unlink(child: XMLNode)
      requires Valid() && child in children
      modifies this`firstChild, this`lastChild, this`children, children`prev, children`next, child`parent
      ensures Valid() && children == Removed(old(children), child)
      ensures child.parent == null && child.prev == null && child.next == null
    {
      hide *;
      Neighbours(child);
      UnlinkEnds(child);
      Bypass(child);
      child.next := null;
      child.prev := null;
      child.parent := null;
      children := Removed(children, child);
      UnlinkKeeps(child);
    }

    // ----- Insertion -----

    /** The node whose list this one is in, and the members of that list. */
    ghost function Lists(): set<XMLNode>
      reads this`parent
    {
      if parent == null then {} else {parent}
    }

    ghost function Siblings(): set<XMLNode>
      reads this`parent, Lists()`children
    {
      if parent == null then {} else set c | c in parent.children
    }

    /** In its parent's list, if it has a parent. */
    ghost predicate Placed()
      reads this`parent, Lists()`firstChild, Lists()`lastChild, Lists()`children
      reads Siblings()`parent, Siblings()`prev, Siblings()`next
    {
      parent != null ==> parent.Valid() && this in parent.children
    }

    /** A node that is already in a list leaves it first. */
    method InsertChildPreamble(insertThis: XMLNode)
      requires Valid() && insertThis.Placed()
      modifies insertThis.Lists()`firstChild, insertThis.Lists()`lastChild, insertThis.Lists()`children
      modifies insertThis.Siblings()`prev, insertThis.Siblings()`next, insertThis`parent
      ensures Valid() && children == Removed(old(children), insertThis) && insertThis !in children
      ensures insertThis.parent == null
      ensures var q := old(insertThis.parent);
              q != null && q != this ==> q.Valid() && q.children == Removed(old(q.children), insertThis)
    {
      Distinctness();
      RemovedMembers(children, insertThis);
      if insertThis in children {
        ChildOf(insertThis);
      }
      if insertThis.parent != null {
        if insertThis.parent == this {
          Unlink(insertThis);
        } else {
          NotInOther(insertThis.parent);
          assert insertThis !in children;
          label L:
          insertThis.parent.Unlink(insertThis);
          Undisturbed@L();
        }
      }
    }

    lemma ChildOf(c: XMLNode)
      requires Valid() && c in children
      ensures c.parent == this
    {
      assert LinkedAt(Position(children, c));
    }

    lemma Distinctness()
      requires Valid()
      ensures NoDuplicates(children)
    {
    }

    twostate lemma Undisturbed()
      requires old(Valid()) && firstChild == old(firstChild) && lastChild == old(lastChild) && children == old(children)
      requires forall c :: c in children ==> c.parent == old(c.parent) && c.prev == old(c.prev) && c.next == old(c.next)
      ensures Valid()
    {
      forall i | 0 <= i < |children| ensures LinkedAt(i) {
        assert old(LinkedAt(i)) && children[i] in children;
      }
    }

    /** No node is in two lists. */
    lemma NotInOther(q: XMLNode)
      requires Valid() && q.Valid() && q != this
      ensures forall x :: x in children ==> x !in q.children
    {
      forall x | x in children ensures x !in q.children {
        ChildOf(x);
        if x in q.children {
          q.ChildOf(x);
        }
      }
    }

    /** A node linked in behind the last child. */
    twostate lemma AppendKeeps(addThis: XMLNode)
      requires old(Valid()) && addThis !in old(children) && children == old(children) + [addThis]
      requires firstChild == (if old(children) == [] then addThis else old(firstChild)) && lastChild == addThis
      requires addThis.parent == this && addThis.prev == old(lastChild) && addThis.next == null
      requires forall c :: c in old(children) ==> c.parent == old(c.parent) && c.prev == old(c.prev)
      requires forall c :: c in old(children) ==> c.next == if c == old(lastChild) then addThis else old(c.next)
      ensures Valid()
    {
      var before, n := old(children), |old(children)|;
      InsertedDistinct(before, n, addThis);
      AtEnds(before, addThis);
      forall i | 0 <= i < |children| ensures LinkedAt(i) {
        if i < n {
          DistinctAt(before, n - 1);
          assert old(LinkedAt(i)) && children[i] == before[i] && before[i] in before;
        }
      }
    }

    /** A node linked in before the first child. */
    twostate lemma PrependKeeps(addThis: XMLNode)
      requires old(Valid()) && addThis !in old(children) && children == [addThis] + old(children)
      requires lastChild == (if old(children) == [] then addThis else old(lastChild)) && firstChild == addThis
      requires addThis.parent == this && addThis.next == old(firstChild) && addThis.prev == null
      requires forall c :: c in old(children) ==> c.parent == old(c.parent) && c.next == old(c.next)
      requires forall c :: c in old(children) ==> c.prev == if c == old(firstChild) then addThis else old(c.prev)
      ensures Valid()
    {
      var before := old(children);
      InsertedDistinct(before, 0, addThis);
      AtEnds(before, addThis);
      forall i | 0 <= i < |children| ensures LinkedAt(i) {
        if i > 0 {
          DistinctAt(before, 0);
          assert old(LinkedAt(i - 1)) && children[i] == before[i - 1] && before[i - 1] in before;
        }
      }
    }

    /** Links an unplaced node in behind the last child. */
    method LinkLast(addThis: XMLNode)
      requires Valid() && addThis !in children
      modifies this`firstChild, this`lastChild, this`children, children`next
      modifies addThis`prev, addThis`next, addThis`parent
      ensures Valid() && children == old(children) + [addThis] && addThis.parent == this
    {
      Ends();
      hide *;
      if lastChild != null {
        lastChild.next := addThis;
        addThis.prev := lastChild;
        lastChild := addThis;
        addThis.next := null;
      } else {
        firstChild, lastChild := addThis, addThis;
        addThis.prev := null;
        addThis.next := null;
      }
      addThis.parent := this;
      children := children + [addThis];
      AppendKeeps(addThis);
    }

    /** Links an unplaced node in before the first child. */
    method LinkFirst(addThis: XMLNode)
      requires Valid() && addThis !in children
      modifies this`firstChild, this`lastChild, this`children, children`prev
      modifies addThis`prev, addThis`next, addThis`parent
      ensures Valid() && children == [addThis] + old(children) && addThis.parent == this
    {
      Ends();
      hide *;
      if firstChild != null {
        firstChild.prev := addThis;
        addThis.next := firstChild;
        firstChild := addThis;
        addThis.prev := null;
      } else {
        firstChild, lastChild := addThis, addThis;
        addThis.prev := null;
        addThis.next := null;
      }
      addThis.parent := this;
      children := [addThis] + children;
      PrependKeeps(addThis);
    }

    lemma Ends()
      requires Valid()
      ensures children == [] ==> firstChild == null && lastChild == null
      ensures children != [] ==> firstChild == children[0] && firstChild in children && firstChild.prev == null
      ensures children != [] ==> lastChild == children[|children| - 1] && lastChild in children && lastChild.next == null
      ensures forall j :: 0 <= j < |children| ==> (children[j] == firstChild <==> j == 0)
      ensures forall j :: 0 <= j < |children| ==> (children[j] == lastChild <==> j == |children| - 1)
    {
      if children != [] {
        assert LinkedAt(0) && LinkedAt(|children| - 1);
      }
    }

    /** The list gets a node at its end; if the node was in this list or another, it has left it. */
    method InsertEndChild(addThis: XMLNode) returns (r: XMLNode?)
      requires Valid() && addThis.Placed() && addThis != this
      modifies this`firstChild, this`lastChild, this`children, children`next, addThis`prev, addThis`next
      modifies addThis.Lists()`firstChild, addThis.Lists()`lastChild, addThis.Lists()`children
      modifies addThis.Siblings()`prev, addThis.Siblings()`next, addThis`parent
      ensures Valid()
      ensures addThis.document != document ==> r == null && children == old(children)
      ensures addThis.document == document ==> r == addThis && children == Removed(old(children), addThis) + [addThis]
      ensures var q := old(addThis.parent);
              addThis.document == document && q != null && q != this ==>
                q.Valid() && q.children == Removed(old(q.children), addThis)
    {
      if addThis.document != document {
        return null;
      }
      ghost var q, before := addThis.parent, children;
      Distinctness();
      InsertChildPreamble(addThis);
      RemovedMembers(before, addThis);
      if q != null && q != this {
        NotInOther(q);
        q.NotOwn(addThis);
      }
      hide *;
      label L:
      LinkLast(addThis);
      if q != null && q != this {
        q.Undisturbed@L();
      }
      r := addThis;
    }

    /** The list gets a node at its head. */
    method InsertFirstChild(addThis: XMLNode) returns (r: XMLNode?)
      requires Valid() && addThis.Placed() && addThis != this
      modifies this`firstChild, this`lastChild, this`children, children`prev, addThis`prev, addThis`next
      modifies addThis.Lists()`firstChild, addThis.Lists()`lastChild, addThis.Lists()`children
      modifies addThis.Siblings()`prev, addThis.Siblings()`next, addThis`parent
      ensures Valid()
      ensures addThis.document != document ==> r == null && children == old(children)
      ensures addThis.document == document ==> r == addThis && children == [addThis] + Removed(old(children), addThis)
      ensures var q := old(addThis.parent);
              addThis.document == document && q != null && q != this ==>
                q.Valid() && q.children == Removed(old(q.children), addThis)
    {
      if addThis.document != document {
        return null;
      }
      ghost var q, before := addThis.parent, children;
      Distinctness();
      InsertChildPreamble(addThis);
      RemovedMembers(before, addThis);
      if q != null && q != this {
        NotInOther(q);
        q.NotOwn(addThis);
      }
      hide *;
      label L:
      LinkFirst(addThis);
      if q != null && q != this {
        q.Undisturbed@L();
      }
      r := addThis;
    }

    /** A node linked in behind a child that was not the last; that child is now its predecessor. */
    twostate lemma MiddleKeeps(addThis: XMLNode)
      requires old(Valid()) && addThis !in old(children) && addThis.prev != null
      requires var afterThis := addThis.prev;
               && afterThis in old(children) && old(afterThis.next) != null
               && children == InsertedAfter(old(children), afterThis, addThis)
               && addThis.parent == this && addThis.next == old(afterThis.next)
               && (forall c :: c in old(children) ==> c.parent == old(c.parent))
               && (forall c :: c in old(children) ==> c.prev == if c == old(afterThis.next) then addThis else old(c.prev))
               && (forall c :: c in old(children) ==> c.next == if c == afterThis then addThis else old(c.next))
      requires firstChild == old(firstChild) && lastChild == old(lastChild)
      ensures Valid()
    {
      var before, k := old(children), Position(old(children), addThis.prev) + 1;
      assert old(LinkedAt(k - 1));
      InsertedDistinct(before, k, addThis);
      DistinctAt(before, k - 1);
      DistinctAt(before, k);
      hide NoDuplicates;
      hide InsertedAt;
      forall i | 0 <= i < |children| ensures LinkedAt(i) {
        if i != k {
          var j := if i < k then i else i - 1;
          assert old(LinkedAt(j)) && children[i] == before[j] && before[j] in before;
        }
      }
    }

    lemma Successor(c: XMLNode)
      requires Valid() && c in children
      ensures var k := Position(children, c);
              && (c.next == null <==> k == |children| - 1)
              && (c.next != null ==> k + 1 < |children| && c.next == children[k + 1] && c.next in children)
    {
      assert LinkedAt(Position(children, c));
    }

    /** Links an unplaced node in behind a child that is not the last. */
    method LinkAfter(afterThis: XMLNode, addThis: XMLNode)
      requires Valid() && addThis !in children && afterThis in children && afterThis.next != null
      modifies this`children, children`prev, children`next, addThis`prev, addThis`next, addThis`parent
      ensures Valid() && children == InsertedAfter(old(children), afterThis, addThis) && addThis.parent == this
    {
      Successor(afterThis);
      ChildOf(afterThis);
      hide *;
      addThis.prev := afterThis;
      addThis.next := afterThis.next;
      afterThis.next.prev := addThis;
      afterThis.next := addThis;
      addThis.parent := this;
      children := InsertedAfter(children, afterThis, addThis);
      MiddleKeeps(addThis);
    }

    /** The list gets a node behind one of its children. `fault` is where the code would dereference a null
        pointer: the node to add stood right behind `afterThis` and was the last child, so that moving it
        away first leaves nothing behind `afterThis`. */
    method InsertAfterChild(afterThis: XMLNode, addThis: XMLNode) returns (r: XMLNode?, fault: bool)
      requires Valid() && addThis.Placed() && addThis != this
      requires afterThis.parent == this ==> afterThis in children
      modifies this`firstChild, this`lastChild, this`children, children`prev, children`next, addThis`prev, addThis`next
      modifies addThis.Lists()`firstChild, addThis.Lists()`lastChild, addThis.Lists()`children
      modifies addThis.Siblings()`prev, addThis.Siblings()`next, addThis`parent
      ensures Valid()
      ensures var refused := addThis.document != document || old(afterThis.parent) != this;
              && (refused ==> r == null && !fault && children == old(children))
              && (!refused && afterThis == addThis ==> r == addThis && !fault && children == old(children))
              && (!refused && afterThis != addThis ==>
                    && (fault <==> old(afterThis.next) == addThis && old(addThis.next) == null)
                    && (!fault ==> r == addThis && afterThis in Removed(old(children), addThis)
                                   && children == InsertedAfter(Removed(old(children), addThis), afterThis, addThis)))
      ensures var q := old(addThis.parent);
              var moved := addThis.document == document && old(afterThis.parent) == this && afterThis != addThis;
              moved && q != null && q != this ==> q.Valid() && q.children == Removed(old(q.children), addThis)
    {
      fault := false;
      if addThis.document != document {
        return null, false;
      }
      if afterThis.parent != this {
        return null, false;
      }
      if afterThis == addThis {
        return addThis, false;
      }
      r, fault := MoveBehind(afterThis, addThis);
    }

    /** The case of two different nodes of one document. */
    method MoveBehind(afterThis: XMLNode, addThis: XMLNode) returns (r: XMLNode?, fault: bool)
      requires Valid() && addThis.Placed() && addThis != this && addThis.document == document
      requires afterThis in children && afterThis != addThis
      modifies this`firstChild, this`lastChild, this`children, children`prev, children`next, addThis`prev, addThis`next
      modifies addThis.Lists()`firstChild, addThis.Lists()`lastChild, addThis.Lists()`children
      modifies addThis.Siblings()`prev, addThis.Siblings()`next, addThis`parent
      ensures Valid() && (fault <==> old(afterThis.next) == addThis && old(addThis.next) == null)
      ensures !fault ==> r == addThis && afterThis in Removed(old(children), addThis)
                         && children == InsertedAfter(Removed(old(children), addThis), afterThis, addThis)
      ensures var q := old(addThis.parent);
              q != null && q != this ==> q.Valid() && q.children == Removed(old(q.children), addThis)
    {
      fault := false;
      Distinctness();
      Behind(afterThis, addThis);
      hide *;
      if afterThis.next == null {
        r := InsertEndChild(addThis);
      } else {
        fault := MoveBetween(afterThis, addThis);
        r := if fault then null else addThis;
      }
    }

    method MoveBetween(afterThis: XMLNode, addThis: XMLNode) returns (fault: bool)
      requires Valid() && addThis.Placed() && afterThis in Removed(children, addThis)
      modifies this`firstChild, this`lastChild, this`children, children`prev, children`next, addThis`prev, addThis`next
      modifies addThis.Lists()`firstChild, addThis.Lists()`lastChild, addThis.Lists()`children
      modifies addThis.Siblings()`prev, addThis.Siblings()`next, addThis`parent
      ensures Valid()
      ensures var r := Removed(old(children), addThis);
              && (fault <==> Position(r, afterThis) == |r| - 1)
              && children == if fault then r else InsertedAfter(r, afterThis, addThis)
      ensures var q := old(addThis.parent);
              q != null && q != this ==> q.Valid() && q.children == Removed(old(q.children), addThis)
    {
      hide Valid;
      hide LinkedAt;
      hide NoDuplicates;
      hide Position;
      hide Removed;
      ghost var q, before := addThis.parent, children;
      Distinctness();
      InsertChildPreamble(addThis);
      RemovedWithin(before, addThis);
      Successor(afterThis);
      if q != null && q != this {
        NotInOther(q);
        q.NotOwn(addThis);
      }
      fault := afterThis.next == null;
      if !fault {
        label L:
        LinkAfter(afterThis, addThis);
        if q != null && q != this {
          q.Undisturbed@L();
        }
      }
    }

    /** Where moving a node behind `afterThis` leads. */
    lemma Behind(afterThis: XMLNode, addThis: XMLNode)
      requires Valid() && addThis.Placed() && afterThis in children && afterThis != addThis
      ensures var r := Removed(children, addThis);
              && afterThis in r && |r| > 0
              && (afterThis.next == null ==> r + [addThis] == InsertedAfter(r, afterThis, addThis))
              && (Position(r, afterThis) == |r| - 1 <==>
                    afterThis.next == null || (afterThis.next == addThis && addThis.next == null))
      ensures afterThis.next == addThis ==> addThis in children
    {
      Successor(afterThis);
      BehindRemoved(children, afterThis, addThis);
      if addThis in children {
        Successor(addThis);
        var k := Position(children, addThis);
        DistinctAt(children, k);
      }
    }

    lemma RemovedWithin(before: seq<XMLNode>, c: XMLNode)
      requires children == Removed(before, c) && NoDuplicates(before)
      ensures forall x :: x in children ==> x in before
    {
      RemovedMembers(before, c);
    }

    lemma NotOwn(c: XMLNode)
      requires Valid() && c.parent == null
      ensures c !in children
    {
      if c in children {
        ChildOf(c);
      }
    }
  }

  lemma InsertedDistinct<T>(s: seq<T>, k: nat, x: T)
    requires NoDuplicates(s) && x !in s && k <= |s|
    ensures var r := InsertedAt(s, k, x);
            NoDuplicates(r) && |r| == |s| + 1 && r[k] == x
            && forall i :: 0 <= i < |r| && i != k ==> r[i] == s[if i < k then i else i - 1]
  {
    var r := InsertedAt(s, k, x);
    forall i, j | 0 <= i < j < |r| ensures r[i] != r[j] {
      assert i != k ==> r[i] == s[if i < k then i else i - 1];
      assert j != k ==> r[j] == s[if j < k then j else j - 1];
    }
  }

  /** What stands behind a member once another has been removed. */
  lemma BehindRemoved<T>(s: seq<T>, after: T, x: T)
    requires NoDuplicates(s) && after in s && after != x
    ensures after in Removed(s, x)
    ensures var r := Removed(s, x); var k := Position(s, after);
            && (Position(r, after) == |r| - 1 <==> k == |s| - 1 || (k == |s| - 2 && s[k + 1] == x))
            && (k == |s| - 1 ==> r + [x] == InsertedAfter(r, after, x))
  {
    var r, k := Removed(s, x), Position(s, after);
    RemovedMembers(s, x);
    if x in s {
      var p := Position(s, x);
      RemovedAt(s, x);
      DistinctAt(s, k);
      var m := if k < p then k else k - 1;
      assert r[m] == after;
      PositionIs(r, m, after);
      if p != k + 1 && k == |s| - 2 {
        DistinctAt(s, p);
      }
      hide Removed;
      hide NoDuplicates;
      hide Position;
      AtEnds(r, x);
    } else {
      AtEnds(s, x);
    }
  }

  lemma PositionIs<T>(s: seq<T>, k: nat, x: T)
    requires NoDuplicates(s) && k < |s| && s[k] == x
    ensures Position(s, x) == k
  {
    DistinctAt(s, k);
  }

  lemma AtEnds<T>(s: seq<T>, x: T)
    ensures InsertedAt(s, 0, x) == [x] + s && InsertedAt(s, |s|, x) == s + [x]
  {
  }
}
