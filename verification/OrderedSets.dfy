/** The abstract value of an ordered set: a sequence without repetitions, and what the set's
    operations do to it. */
module OrderedQueues {

  ghost predicate NoDup(q: seq<string>) {
    forall i, j :: 0 <= i < j < |q| ==> q[i] != q[j]
  }

  lemma SomeMember(q: seq<string>)
    ensures q == [] || exists x :: x in q
  {
    if q != [] {
      assert q[0] in q;
    }
  }

  lemma HeadGone(q: seq<string>)
    requires NoDup(q) && q != []
    ensures NoDup(q[1..]) && q[0] !in q[1..] && forall x :: x in q[1..] ==> x in q
  {
  }

  lemma Appended(q: seq<string>, v: string)
    requires NoDup(q) && v !in q
    ensures NoDup(q + [v])
  {
  }

  lemma Joined(a: seq<string>, b: seq<string>)
    requires NoDup(a) && NoDup(b) && forall x :: x in b ==> x !in a
    ensures NoDup(a + b)
  {
    assert forall i :: 0 <= i < |a + b| ==> (a + b)[i] == if i < |a| then a[i] else b[i - |a|];
    assert forall i :: 0 <= i < |b| ==> b[i] in b;
  }

  /** q without v; everything else keeps its relative order (see DeleteKeepsOrder). */
  function Without(q: seq<string>, v: string): (r: seq<string>)
    ensures forall x :: x in r <==> x in q && x != v
    ensures NoDup(q) ==> NoDup(r)
    ensures v !in q ==> r == q
  {
    if q == [] then
      []
    else
      var rest := Without(q[1..], v);
      assert q == [q[0]] + q[1..];
      assert NoDup(q) ==> NoDup(q[1..]) && q[0] !in q[1..];
      if q[0] == v then rest else [q[0]] + rest
  }

  /** q after Add(v, front): to the front always, to the back only if v is new. */
  function Including(q: seq<string>, v: string, front: bool): (r: seq<string>)
    ensures forall x :: x in r <==> x in q || x == v
    ensures NoDup(q) ==> NoDup(r)
  {
    if front then [v] + Without(q, v) else if v in q then q else q + [v]
  }

  lemma {:induction false} DeleteKeepsOrder(q: seq<string>, k: nat)
    requires NoDup(q) && k < |q|
    ensures Without(q, q[k]) == q[..k] + q[k + 1..]
  {
    assert q == [q[0]] + q[1..];
    if k == 0 {
      assert q[0] !in q[1..];
    } else {
      DeleteKeepsOrder(q[1..], k - 1);
      assert q[1..][k - 1] == q[k] && q[0] != q[k];
      ConcatAssociates([q[0]], q[1..][..k - 1], q[1..][k..]);
      assert [q[0]] + q[1..][..k - 1] == q[..k] && q[1..][k..] == q[k + 1..];
    }
  }

  /** Deleting a value that only the second half may hold. */
  lemma {:induction false} WithoutConcat(a: seq<string>, b: seq<string>, v: string)
    requires v !in a
    ensures Without(a + b, v) == a + Without(b, v)
  {
    if a == [] {
      assert a + b == b;
    } else {
      var rest := a[1..];
      assert a == [a[0]] + rest && a[0] in a;
      ConcatTail(a, b);
      assert Without(a + b, v) == [a[0]] + Without(rest + b, v);
      WithoutConcat(rest, b, v);
      ConcatAssociates([a[0]], rest, Without(b, v));
    }
  }

  lemma ConcatTail(a: seq<string>, b: seq<string>)
    requires a != []
    ensures (a + b)[0] == a[0] && (a + b)[1..] == a[1..] + b
  {
  }

  lemma ConcatAssociates(a: seq<string>, b: seq<string>, c: seq<string>)
    ensures a + (b + c) == a + b + c
  {
  }

  lemma AddThenDelete(q: seq<string>, v: string)
    requires v !in q
    ensures Without(Including(q, v, false), v) == q
  {
    WithoutConcat(q, [v], v);
    assert q + [] == q;
  }

  /** Adding several values at the back, one by one. */
  function IncludingAll(q: seq<string>, vs: seq<string>): (r: seq<string>)
    ensures forall x :: x in r <==> x in q || x in vs
    ensures NoDup(q) ==> NoDup(r)
    decreases |vs|
  {
    if vs == [] then
      q
    else
      assert vs == [vs[0]] + vs[1..];
      IncludingAll(Including(q, vs[0], false), vs[1..])
  }

  /** Fresh distinct values are simply appended. */
  lemma {:induction false} IncludingAllAppends(q: seq<string>, vs: seq<string>)
    requires NoDup(q + vs)
    ensures IncludingAll(q, vs) == q + vs
    decreases |vs|
  {
    if vs != [] {
      assert vs == [vs[0]] + vs[1..];
      assert forall i :: 0 <= i < |q| ==> (q + vs)[i] == q[i];
      assert (q + vs)[|q|] == vs[0];
      assert vs[0] !in q;
      assert (q + [vs[0]]) + vs[1..] == q + vs;
      IncludingAllAppends(q + [vs[0]], vs[1..]);
    } else {
      assert q + vs == q;
    }
  }

  ghost function ToSet(q: seq<string>): set<string> {
    set x | x in q
  }

  lemma SetIncluding(q: seq<string>, v: string, front: bool)
    ensures ToSet(Including(q, v, front)) == ToSet(q) + {v}
  {
  }

  lemma SetWithout(q: seq<string>, v: string)
    ensures ToSet(Without(q, v)) == ToSet(q) - {v}
  {
  }

  /** Two enumerations of the same values are permutations of each other. */
  lemma {:induction false} NoDupSameElements(a: seq<string>, b: seq<string>)
    requires NoDup(a) && NoDup(b)
    requires forall x :: x in a <==> x in b
    ensures multiset(a) == multiset(b)
  {
    forall x
      ensures multiset(a)[x] == multiset(b)[x]
    {
      NoDupMultiplicity(a, x);
      NoDupMultiplicity(b, x);
    }
  }

  lemma {:induction false} NoDupMultiplicity(q: seq<string>, x: string)
    requires NoDup(q)
    ensures multiset(q)[x] == if x in q then 1 else 0
  {
    if q != [] {
      assert q == [q[0]] + q[1..];
      NoDupMultiplicity(q[1..], x);
    }
  }
}

/** A doubly linked list in the shape of Go's container/list: a ring of elements around a root. */
module LinkedLists {

  function Inserted<T>(s: seq<T>, k: nat, x: T): seq<T>
    requires k <= |s|
  {
    s[..k] + [x] + s[k..]
  }

  function Removed<T>(s: seq<T>, k: nat): seq<T>
    requires k < |s|
  {
    s[..k] + s[k + 1..]
  }

  class Element {
    var next: Element
    var prev: Element
    const value: string

    constructor (v: string)
      ensures value == v && next == this && prev == this
    {
      value := v;
      next := this;
      prev := this;
    }
  }

  /** The ring around a root: the root, the elements in order, and the root again. */
  function Around(root: Element, elems: seq<Element>): seq<Element> {
    [root] + elems + [root]
  }

  lemma AroundInserted(root: Element, elems: seq<Element>, k: nat, e: Element)
    requires k <= |elems|
    ensures Inserted(Around(root, elems), k + 1, e) == Around(root, Inserted(elems, k, e))
  {
  }

  lemma AroundRemoved(root: Element, elems: seq<Element>, k: nat)
    requires k < |elems|
    ensures Removed(Around(root, elems), k + 1) == Around(root, Removed(elems, k))
  {
  }

  /** No element occurs twice on a ring, but for the root at its two ends. */
  ghost predicate Distinct(ring: seq<Element>) {
    forall i, j :: 0 <= i < j < |ring| - 1 ==> ring[i] != ring[j]
  }

  /** Walking `next` visits the ring in order. */
  ghost predicate Forward(ring: seq<Element>)
    reads ring
  {
    forall k :: 0 <= k < |ring| - 1 ==> ring[k].next == ring[k + 1]
  }

  /** Walking `prev` visits the ring backwards. */
  ghost predicate Backward(ring: seq<Element>)
    reads ring
  {
    forall k :: 0 < k < |ring| ==> ring[k].prev == ring[k - 1]
  }

  /** Splicing e in after position k: only the two links around the gap had to change. */
  lemma SpliceInserts(ring: seq<Element>, k: nat, e: Element)
    requires k < |ring| - 1 && Distinct(ring) && e !in ring
    requires forall i :: 0 <= i < |ring| - 1 && i != k ==> ring[i].next == ring[i + 1]
    requires forall i :: 0 < i < |ring| && i != k + 1 ==> ring[i].prev == ring[i - 1]
    requires ring[k].next == e && e.next == ring[k + 1]
    requires ring[k + 1].prev == e && e.prev == ring[k]
    ensures Distinct(Inserted(ring, k + 1, e))
    ensures Forward(Inserted(ring, k + 1, e)) && Backward(Inserted(ring, k + 1, e))
  {
    var r := Inserted(ring, k + 1, e);
    forall i | 0 <= i < |r| - 1
      ensures r[i].next == r[i + 1]
    {
      assert i > k + 1 ==> r[i] == ring[i - 1];
    }
    forall i | 0 < i < |r|
      ensures r[i].prev == r[i - 1]
    {
      assert i > k + 1 ==> r[i] == ring[i - 1];
    }
  }

  /** Joining the neighbours of position k takes its element off the ring. */
  lemma SpliceRemoves(ring: seq<Element>, k: nat)
    requires 0 < k < |ring| - 1 && Distinct(ring) && ring[0] == ring[|ring| - 1]
    requires forall i :: 0 <= i < |ring| - 1 && i != k - 1 ==> ring[i].next == ring[i + 1]
    requires forall i :: 0 < i < |ring| && i != k + 1 ==> ring[i].prev == ring[i - 1]
    requires ring[k - 1].next == ring[k + 1] && ring[k + 1].prev == ring[k - 1]
    ensures Distinct(Removed(ring, k)) && ring[k] !in Removed(ring, k)
    ensures Forward(Removed(ring, k)) && Backward(Removed(ring, k))
  {
    var r := Removed(ring, k);
    forall i | 0 <= i < |r|
      ensures ring[k] != r[i]
      ensures i < |r| - 1 ==> r[i].next == r[i + 1]
      ensures 0 < i ==> r[i].prev == r[i - 1]
    {
      assert r[i] == if i < k then ring[i] else ring[i + 1];
    }
  }

  class List {
    const root: Element
    var length: nat
    ghost var elems: seq<Element>
    ghost var ring: seq<Element>  // Around(root, elems)
    ghost var Repr: set<object>

    ghost predicate Valid()
      reads this, Repr
      ensures Valid() ==> this in Repr
    {
      && this in Repr
      && length == |elems|
      && ring == Around(root, elems)
      && (forall k :: 0 <= k < |ring| ==> ring[k] in Repr)
      && Distinct(ring) && Forward(ring) && Backward(ring)
    }

    constructor ()
      ensures Valid() && fresh(Repr)
      ensures elems == []
    {
      var r := new Element("");
      root := r;
      length := 0;
      elems := [];
      ring := [r, r];
      Repr := {this, r};
    }

    /** Puts an unlinked element right after ring position k. */
    method Insert(e: Element, at: Element, ghost k: nat)
      requires Valid()
      requires e !in ring
      requires k <= |elems| && ring[k] == at
      modifies Repr, e
      ensures Valid() && Repr == old(Repr) + {e}
      ensures elems == Inserted(old(elems), k, e)
    {
      assert ring[k].next == ring[k + 1] && ring[k + 1] in Repr;
      e.prev := at;
      e.next := at.next;
      e.prev.next := e;
      e.next.prev := e;
      length := length + 1;
      SpliceInserts(ring, k, e);
      AroundInserted(root, elems, k, e);
      ring := Inserted(ring, k + 1, e);
      elems := Inserted(elems, k, e);
      Repr := Repr + {e};
    }

    method PushFront(v: string) returns (e: Element)
      requires Valid()
      modifies Repr
      ensures Valid() && fresh(Repr - old(Repr))
      ensures fresh(e) && e.value == v
      ensures elems == [e] + old(elems)
    {
      e := new Element(v);
      Insert(e, root, 0);
    }

    method PushBack(v: string) returns (e: Element)
      requires Valid()
      modifies Repr
      ensures Valid() && fresh(Repr - old(Repr))
      ensures fresh(e) && e.value == v
      ensures elems == old(elems) + [e]
    {
      e := new Element(v);
      assert root.prev == ring[|elems|] by {
        assert ring[|ring| - 1].prev == ring[|ring| - 2];
      }
      Insert(e, root.prev, |elems|);
    }

    /** Unlinks the k-th element. */
    method Remove(e: Element, ghost k: nat)
      requires Valid()
      requires k < |elems| && elems[k] == e
      modifies Repr
      ensures Valid() && Repr == old(Repr)
      ensures e !in ring && e in Repr
      ensures elems == Removed(old(elems), k)
    {
      assert ring[k + 1] == e;
      assert ring[k + 1].next == ring[k + 2] && ring[k + 2] in Repr;
      assert ring[k + 1].prev == ring[k] && ring[k] in Repr;
      e.prev.next := e.next;
      e.next.prev := e.prev;
      length := length - 1;
      SpliceRemoves(ring, k + 1);
      AroundRemoved(root, elems, k);
      ring := Removed(ring, k + 1);
      elems := Removed(elems, k);
    }

    /** Moves the k-th element to the head; it stays the same object. */
    method MoveToFront(e: Element, ghost k: nat)
      requires Valid()
      requires k < |elems| && elems[k] == e
      modifies Repr
      ensures Valid() && Repr == old(Repr)
      ensures elems == [e] + Removed(old(elems), k)
    {
      assert ring[0].next == ring[1] && ring[k + 1] == e;
      if root.next == e {
        return;
      }
      Remove(e, k);
      Insert(e, root, 0);
    }
  }
}

/** The controller's work queue: a linked list of values, indexed by a map from value to element. */
module OrderedSets {
  import opened OrderedQueues
  import opened LinkedLists

  /** The index holds exactly the listed values, each pointing at its own element. */
  ghost predicate Index(m: map<string, Element>, elems: seq<Element>, contents: seq<string>) {
    && |elems| == |contents|
    && NoDup(contents)
    && (forall v :: v in m <==> v in contents)
    && (forall k :: 0 <= k < |elems| ==> elems[k].value == contents[k] && m[contents[k]] == elems[k])
  }

  lemma IndexAtFront(m: map<string, Element>, elems: seq<Element>, contents: seq<string>, e: Element)
    requires Index(m, elems, contents) && e.value !in contents
    ensures Index(m[e.value := e], [e] + elems, [e.value] + contents)
  {
    var m', es, c := m[e.value := e], [e] + elems, [e.value] + contents;
    forall k | 0 <= k < |es|
      ensures es[k].value == c[k] && m'[c[k]] == es[k]
    {
      if k > 0 {
        assert es[k] == elems[k - 1] && c[k] == contents[k - 1];
      }
    }
  }

  lemma IndexAtBack(m: map<string, Element>, elems: seq<Element>, contents: seq<string>, e: Element)
    requires Index(m, elems, contents) && e.value !in contents
    ensures Index(m[e.value := e], elems + [e], contents + [e.value])
  {
    Appended(contents, e.value);
    var m', es, c := m[e.value := e], elems + [e], contents + [e.value];
    forall k | 0 <= k < |es|
      ensures es[k].value == c[k] && m'[c[k]] == es[k]
    {
      if k < |elems| {
        assert es[k] == elems[k] && c[k] == contents[k];
      }
    }
  }

  lemma IndexAdded(m: map<string, Element>, elems: seq<Element>, contents: seq<string>, e: Element, front: bool)
    requires Index(m, elems, contents) && e.value !in contents
    ensures Index(m[e.value := e], if front then [e] + elems else elems + [e], Including(contents, e.value, front))
  {
    if front {
      IndexAtFront(m, elems, contents, e);
    } else {
      IndexAtBack(m, elems, contents, e);
    }
  }

  lemma IndexMoved(m: map<string, Element>, elems: seq<Element>, contents: seq<string>, k: nat)
    requires Index(m, elems, contents) && k < |contents|
    ensures Index(m, [elems[k]] + Removed(elems, k), Including(contents, contents[k], true))
  {
    var v := contents[k];
    IndexRemoved(m, elems, contents, k);
    IndexAdded(m - {v}, Removed(elems, k), Removed(contents, k), elems[k], true);
    assert (m - {v})[v := elems[k]] == m;
    assert Including(Removed(contents, k), v, true) == Including(contents, v, true);
  }

  lemma IndexRemoved(m: map<string, Element>, elems: seq<Element>, contents: seq<string>, k: nat)
    requires Index(m, elems, contents) && k < |contents|
    ensures Index(m - {contents[k]}, Removed(elems, k), Removed(contents, k))
    ensures Without(contents, contents[k]) == Removed(contents, k)
  {
    DeleteKeepsOrder(contents, k);
    var m', es, c := m - {contents[k]}, Removed(elems, k), Removed(contents, k);
    forall j | 0 <= j < |es|
      ensures es[j].value == c[j] && c[j] in m' && m'[c[j]] == es[j]
    {
      var i := if j < k then j else j + 1;
      assert es[j] == elems[i] && c[j] == contents[i];
    }
  }

  class OrderedSet {
    var l: List
    var m: map<string, Element>
    ghost var Contents: seq<string>
    ghost var Repr: set<object>

    ghost predicate Valid()
      reads this, Repr
      ensures Valid() ==> this in Repr
    {
      && this in Repr
      && l in Repr && l.Repr <= Repr && this !in l.Repr && l.Valid()
      && Index(m, l.elems, Contents)
    }

    constructor ()
      ensures Valid() && fresh(Repr)
      ensures Contents == []
    {
      l := new List();
      m := map[];
      Contents := [];
      new;
      Repr := {this} + l.Repr;
    }

    /** Where v's element stands in the list. */
    ghost function Position(v: string): (k: nat)
      requires Valid() && v in m
      reads this, Repr
      ensures k < |l.elems| && l.elems[k] == m[v] && Contents[k] == v
    {
      var k :| 0 <= k < |Contents| && Contents[k] == v;
      k
    }

    /** Adds v if it is new; with front it ends up at the head either way. */
    method Add(v: string, front: bool)
      requires Valid()
      modifies Repr
      ensures Valid() && fresh(Repr - old(Repr))
      ensures Contents == Including(old(Contents), v, front)
    {
      if v in m {
        if front {
          MoveToFront(v);
        }
      } else {
        AddNew(v, front);
      }
    }

    method MoveToFront(v: string)
      requires Valid() && v in m
      modifies Repr
      ensures Valid() && Repr == old(Repr)
      ensures Contents == Including(old(Contents), v, true)
    {
      ghost var k := Position(v);
      IndexMoved(m, l.elems, Contents, k);
      l.MoveToFront(m[v], k);
      Contents := Including(Contents, v, true);
    }

    method AddNew(v: string, front: bool)
      requires Valid() && v !in Contents
      modifies Repr
      ensures Valid() && fresh(Repr - old(Repr))
      ensures Contents == Including(old(Contents), v, front)
    {
      ghost var elems := l.elems;
      var e: Element;
      if front {
        e := l.PushFront(v);
      } else {
        e := l.PushBack(v);
      }
      IndexAdded(m, elems, Contents, e, front);
      m := m[v := e];
      Contents := Including(Contents, v, front);
      Repr := Repr + l.Repr;
    }

    /** Pops the head, or returns "" on an empty set. */
    method Front() returns (v: string)
      requires Valid()
      modifies Repr
      ensures Valid() && Repr == old(Repr)
      ensures old(Contents) == [] ==> v == "" && Contents == []
      ensures old(Contents) != [] ==> v == old(Contents)[0] && Contents == old(Contents)[1..]
    {
      if l.length == 0 {
        return "";
      }
      var e := l.root.next;
      assert e == l.elems[0] by {
        assert l.ring[0].next == l.ring[1];
      }
      v := e.value;
      IndexRemoved(m, l.elems, Contents, 0);
      m := m - {v};
      l.Remove(e, 0);
      Contents := Contents[1..];
    }

    function Len(): (n: nat)
      requires Valid()
      reads this, Repr
      ensures n == |Contents|
    {
      l.length
    }

    method Delete(v: string) returns (found: bool)
      requires Valid()
      modifies Repr
      ensures Valid() && Repr == old(Repr)
      ensures found == (v in old(Contents))
      ensures Contents == Without(old(Contents), v)
    {
      if v !in m {
        return false;
      }
      ghost var k := Position(v);
      IndexRemoved(m, l.elems, Contents, k);
      var e := m[v];
      m := m - {v};
      l.Remove(e, k);
      Contents := Removed(Contents, k);
      return true;
    }

    predicate IsSet(v: string)
      requires Valid()
      reads this, Repr
      ensures IsSet(v) == (v in Contents)
    {
      v in m
    }

    /** Lists the values by ranging over the index, so in no particular order. */
    method AsList() returns (out: seq<string>)
      requires Valid()
      ensures NoDup(out) && multiset(out) == multiset(Contents)
    {
      out := [];
      var todo := m.Keys;
      while todo != {}
        invariant todo <= m.Keys
        invariant NoDup(out)
        invariant forall x :: x in out <==> x in m.Keys - todo
      {
        var v :| v in todo;
        ghost var k := Position(v);
        assert m[v].value == v && v !in out;
        out := out + [m[v].value];
        todo := todo - {v};
      }
      NoDupSameElements(out, Contents);
    }
  }
}
