/**
 * The doubly linked list behind the certificate cache: a ring of elements through a sentinel root, updated
 * in place.  The ghost field holds the elements from front to back.
 */
module LruList {

  /** A cached certificate is known by its identity. */
  type Cert = nat

  datatype Entry = Entry(hostname: string, cert: Cert)

  lemma CutAt<T>(s: seq<T>, k: nat)
    requires k < |s|
    ensures var cut := s[..k] + s[k + 1..];
      && |cut| == |s| - 1
      && (forall i {:trigger cut[i]} | 0 <= i < k :: cut[i] == s[i])
      && (forall i {:trigger cut[i]} | k <= i < |s| - 1 :: cut[i] == s[i + 1])
  {
  }

  class Element {
    var next: Element?
    var prev: Element?
    const entry: Entry

    constructor (entry: Entry)
      ensures this.entry == entry && next == null && prev == null
    {
      this.entry := entry;
      next, prev := null, null;
    }
  }

  class List {
    const root: Element
    var len: nat
    ghost var elems: seq<Element>

    /** The element at a position, the sentinel standing before the first and after the last. */
    ghost function At(k: int): Element
      reads this
    {
      if 0 <= k < |elems| then elems[k] else root
    }

    ghost predicate Valid()
      reads this, root, elems
    {
      && len == |elems|
      && root !in elems
      && (forall i, j | 0 <= i < j < |elems| :: elems[i] != elems[j])
      && root.next == At(0) && root.prev == At(|elems| - 1)
      && (forall i {:trigger elems[i].next} | 0 <= i < |elems| :: elems[i].next == At(i + 1))
      && (forall i {:trigger elems[i].prev} | 0 <= i < |elems| :: elems[i].prev == At(i - 1))
    }

    constructor ()
      ensures Valid() && elems == [] && fresh(root)
    {
      var r := new Element(Entry("", 0));
      r.next, r.prev := r, r;
      root := r;
      len := 0;
      elems := [];
    }

    /** The last element, or null when the list is empty. */
    method Back() returns (e: Element?)
      requires Valid()
      ensures e == if elems == [] then null else elems[|elems| - 1]
    {
      if len == 0 {
        return null;
      }
      return root.prev;
    }

    method PushFront(entry: Entry) returns (e: Element)
      requires Valid()
      modifies this, root, elems
      ensures Valid() && fresh(e) && e.entry == entry
      ensures elems == [e] + old(elems)
    {
      e := new Element(entry);
      InsertFront(e);
    }

    /** Links e, which is in no list position, right after the sentinel. */
    method InsertFront(e: Element)
      requires Valid() && e != root && e !in elems
      modifies this, root, elems, e
      ensures Valid() && elems == [e] + old(elems)
    {
      e.prev := root;
      e.next := root.next;
      e.prev.next := e;
      e.next.prev := e;
      len := len + 1;
      elems := [e] + elems;
    }

    /** Unlinks the element at ghost position k. */
    method Unlink(e: Element, ghost k: nat)
      requires Valid() && k < |elems| && elems[k] == e
      modifies this, root, elems
      ensures Valid() && elems == old(elems)[..k] + old(elems)[k + 1..]
      ensures e != root && e !in elems
    {
      ghost var was := elems;
      assert e.prev == At(k - 1) && e.next == At(k + 1);
      e.prev.next := e.next;
      e.next.prev := e.prev;
      len := len - 1;
      CutAt(was, k);
      elems := was[..k] + was[k + 1..];
      assert forall i {:trigger elems[i].next} | 0 <= i < |elems| :: elems[i].next == At(i + 1);
      assert forall i {:trigger elems[i].prev} | 0 <= i < |elems| :: elems[i].prev == At(i - 1);
    }

    method Remove(e: Element) returns (ghost k: nat)
      requires Valid() && e in elems
      modifies this, root, elems
      ensures Valid()
      ensures k < |old(elems)| && old(elems)[k] == e && elems == old(elems)[..k] + old(elems)[k + 1..]
    {
      k :| 0 <= k < |elems| && elems[k] == e;
      Unlink(e, k);
      e.next, e.prev := null, null;
    }

    method MoveToFront(e: Element) returns (ghost k: nat)
      requires Valid() && e in elems
      modifies this, root, elems
      ensures Valid()
      ensures k < |old(elems)| && old(elems)[k] == e && elems == [e] + (old(elems)[..k] + old(elems)[k + 1..])
    {
      k :| 0 <= k < |elems| && elems[k] == e;
      if root.next == e {
        assert elems == [e] + (elems[..0] + elems[1..]);
        return;
      }
      Unlink(e, k);
      InsertFront(e);
      assert elems == [e] + (old(elems)[..k] + old(elems)[k + 1..]);
    }
  }
}
