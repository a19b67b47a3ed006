/** The circular lists of gtest-linked_ptr.h: joining and leaving a circle by walking it, and
    the operations of linked_ptr, proved against LinkedPtrSpec. */
module LinkedPtrHeap {
  import opened Basics
  import opened LinkedPtrSpec

  /** A linked_ptr; the link that it embeds is the pointer itself. */
  class LinkedPtr<T> {
    var value: Option<T>
    var next: LinkedPtr?<T>

    constructor ()
    {
      value := None;
      next := null;
    }

    method JoinNew()
      modifies this`next
      ensures Cycle([this])
    {
      next := this;
    }

    /** Joins the circle r, which starts at ptr, just before ptr. */
    method Join(ptr: LinkedPtr<T>, ghost r: seq<LinkedPtr<T>>)
      requires Cycle(r) && r[0] == ptr && this !in r
      modifies this`next, Last(r)`next
      ensures Cycle(r + [this])
    {
      var p := ptr;
      ghost var i := 0;
      while p.next != ptr
        invariant 0 <= i < |r| && p == r[i]
        decreases |r| - i
      {
        p := p.next;
        i := i + 1;
      }
      OnlyLastCloses(r, i);
      p.next := this;
      next := ptr;
    }

    /** Leaves the circle r, which starts here; says whether it was the last one in it. */
    method Depart(ghost r: seq<LinkedPtr<T>>) returns (last: bool)
      requires Cycle(r) && r[0] == this
      modifies Last(r)`next
      ensures last <==> |r| == 1
      ensures last ==> next == old(next)
      ensures !last ==> Cycle(r[1..])
    {
      OnlyLastCloses(r, 0);
      if next == this {
        return true;
      }
      var p := next;
      ghost var i := 1;
      while p.next != this
        invariant 1 <= i < |r| && p == r[i]
        decreases |r| - i
      {
        p := p.next;
        i := i + 1;
      }
      OnlyLastCloses(r, i);
      p.next := next;
      return false;
    }
  }

  /** The pointers of r, each once, in the order in which next runs through them. */
  ghost predicate Cycle<T>(r: seq<LinkedPtr<T>>)
    reads r
  {
    && r != []
    && (forall i, j :: 0 <= i < j < |r| ==> r[i] != r[j])
    && (forall i :: 0 <= i < |r| - 1 ==> r[i].next == r[i + 1])
    && r[|r| - 1].next == r[0]
  }

  lemma OnlyLastCloses<T>(r: seq<LinkedPtr<T>>, i: nat)
    requires Cycle(r) && i < |r|
    ensures r[i].next == r[0] <==> i == |r| - 1
  {
    if i < |r| - 1 {
      assert r[i].next == r[i + 1];
    }
  }

  ghost function Last<T>(r: seq<LinkedPtr<T>>): LinkedPtr<T>
    requires r != []
  {
    r[|r| - 1]
  }

  ghost predicate SameMembers<T>(r: seq<T>, s: seq<T>) {
    (forall q :: q in r ==> q in s) && (forall q :: q in s ==> q in r)
  }

  ghost function Rotated<T>(r: seq<T>, k: nat): seq<T>
    requires k < |r|
  {
    r[k..] + r[..k]
  }

  /** A circle may be read from any of its members. */
  lemma RotatedCycle<T>(r: seq<LinkedPtr<T>>, k: nat)
    requires Cycle(r) && k < |r|
    ensures Cycle(Rotated(r, k)) && Rotated(r, k)[0] == r[k]
    ensures SameMembers(Rotated(r, k), r)
  {
    var n, t := |r|, Rotated(r, k);
    assert forall i :: 0 <= i < n ==> t[i] == if i < n - k then r[i + k] else r[i - (n - k)];
    RotatedMembers(r, k);
  }

  lemma RotatedMembers<T>(r: seq<T>, k: nat)
    requires k < |r|
    ensures SameMembers(Rotated(r, k), r)
  {
    assert r == r[..k] + r[k..];
  }

  lemma CircleStarts<T>(r: seq<LinkedPtr<T>>)
    requires Cycle(r)
    ensures r != [] && r[0] !in r[1..] && Last(r) in r
  {
  }

  /** The pointers r all hold o and form one circle. */
  ghost predicate RingOk<T>(o: T, r: seq<LinkedPtr<T>>)
    reads r
  {
    (forall p :: p in r ==> p.value == Some(o)) && Cycle(r)
  }

  /** A pointer is alone or in the circle of what it holds. */
  ghost predicate Placed<T>(p: LinkedPtr<T>, rings: map<T, seq<LinkedPtr<T>>>)
    reads p
  {
    if p.value.None? then p.next == p else p.value.value in rings && p in rings[p.value.value]
  }

  /** The pointers ps that hold an object form one circle; those that hold none are alone. */
  ghost predicate Linked<T(!new)>(rings: map<T, seq<LinkedPtr<T>>>, ps: set<LinkedPtr<T>>)
    reads ps
  {
    && (forall o :: o in rings ==> (forall p :: p in rings[o] ==> p in ps) && RingOk(o, rings[o]))
    && (forall p :: p in ps ==> Placed(p, rings))
  }

  /** The same with p out of its place, but the others of its circle on their way. */
  ghost predicate LinkedBut<T(!new)>(rings: map<T, seq<LinkedPtr<T>>>, ps: set<LinkedPtr<T>>, p: LinkedPtr<T>)
    reads p, ps
  {
    && p in ps
    && (forall o :: o in rings ==>
          (forall q :: q in rings[o] ==> q in ps) && (Some(o) != p.value ==> RingOk(o, rings[o])))
    && (forall q :: q in ps && q != p ==> Placed(q, rings))
  }

  /** The circles when p has left its circle r. */
  ghost function Without<T(!new)>(rings: map<T, seq<LinkedPtr<T>>>, p: LinkedPtr<T>, r: seq<LinkedPtr<T>>):
      map<T, seq<LinkedPtr<T>>>
    requires r != []
    reads p
  {
    if p.value.None? then rings
    else if |r| == 1 then rings - {p.value.value}
    else rings[p.value.value := r[1..]]
  }

  /** What the circle of a departed pointer looks like. */
  ghost predicate Departed<T(!new)>(rings: map<T, seq<LinkedPtr<T>>>, ps: set<LinkedPtr<T>>, p: LinkedPtr<T>,
                                    r: seq<LinkedPtr<T>>)
    reads p, ps, r
  {
    && LinkedBut(rings, ps, p) && r != [] && r[0] == p && p !in r[1..]
    && (p.value.None? ==> |r| == 1)
    && (p.value.Some? ==> p.value.value in rings && SameMembers(r, rings[p.value.value]))
    && (forall q :: q in r ==> q in ps && q.value == p.value)
    && (|r| > 1 ==> Cycle(r[1..]))
  }

  /** The object's circle goes with its last holder, or goes on without the one that left. */
  lemma LinkedWithout<T(!new)>(rings: map<T, seq<LinkedPtr<T>>>, ps: set<LinkedPtr<T>>, p: LinkedPtr<T>,
                               r: seq<LinkedPtr<T>>)
    requires Departed(rings, ps, p, r)
    ensures Linked(Without(rings, p, r), ps - {p})
  {
    hide Cycle;
    assert forall o :: o in rings && Some(o) != p.value ==> RingOk(o, rings[o]);
    assert r == [p] + r[1..];
  }

  /** A pointer that holds nothing joins the others. */
  lemma LinkedIdle<T(!new)>(rings: map<T, seq<LinkedPtr<T>>>, ps: set<LinkedPtr<T>>, p: LinkedPtr<T>)
    requires Linked(rings, ps) && p !in ps && p.value.None? && p.next == p
    ensures Linked(rings, ps + {p})
  {
    hide RingOk;
  }

  /** The only holder of an object joins the others. */
  lemma LinkedFirst<T(!new)>(rings: map<T, seq<LinkedPtr<T>>>, ps: set<LinkedPtr<T>>, p: LinkedPtr<T>, o: T)
    requires Linked(rings, ps) && p !in ps && p.value == Some(o) && Cycle([p]) && o !in rings
    ensures Linked(rings[o := [p]], ps + {p})
  {
    hide Cycle;
  }

  /** The circle r of an object, grown by p. */
  lemma LinkedMore<T(!new)>(rings: map<T, seq<LinkedPtr<T>>>, ps: set<LinkedPtr<T>>, p: LinkedPtr<T>, o: T,
                            r: seq<LinkedPtr<T>>)
    requires p !in ps && o in rings && p.value == Some(o) && Cycle(r + [p])
    requires forall o' :: o' in rings ==>
        (forall q :: q in rings[o'] ==> q in ps) && (o' != o ==> RingOk(o', rings[o']))
    requires SameMembers(r, rings[o]) && forall q :: q in r ==> q in ps && q.value == Some(o)
    requires forall q :: q in ps ==> Placed(q, rings)
    ensures Linked(rings[o := r + [p]], ps + {p})
  {
    hide Cycle;
    assert forall q :: q in r + [p] <==> q in r || q == p;
    assert RingOk(o, r + [p]);
  }

  /** The circle of p lies apart from those of other objects. */
  lemma CircleApart<T(!new)>(rings: map<T, seq<LinkedPtr<T>>>, ps: set<LinkedPtr<T>>, p: LinkedPtr<T>,
                             r: seq<LinkedPtr<T>>)
    requires Linked(rings, ps) && p in ps
    requires p.value.None? ==> r == [p]
    requires p.value.Some? ==> p.value.value in rings && SameMembers(r, rings[p.value.value])
    ensures forall q :: q in r ==> q in ps && q.value == p.value
    ensures forall o :: o in rings && Some(o) != p.value ==>
        RingOk(o, rings[o]) && forall q :: q in r ==> q !in rings[o]
  {
    hide Cycle;
    assert p.value.Some? ==> RingOk(p.value.value, rings[p.value.value]);
  }

  /** A pointer that is not live is in no circle. */
  lemma NewInNoRing<T(!new)>(rings: map<T, seq<LinkedPtr<T>>>, ps: set<LinkedPtr<T>>, p: LinkedPtr<T>)
    requires Linked(rings, ps) && p !in ps
    ensures forall o :: o in rings ==> RingOk(o, rings[o]) && p !in rings[o]
  {
    hide RingOk;
  }

  ghost function Holding<T>(ps: set<LinkedPtr<T>>): map<LinkedPtr<T>, Option<T>>
    reads ps
  {
    map p | p in ps :: p.value
  }

  lemma HoldingMore<T>(ps: set<LinkedPtr<T>>, p: LinkedPtr<T>)
    ensures Holding(ps + {p}) == Holding(ps)[p := p.value]
  {
  }

  /** All the linked_ptrs of one kind of object, and what they have deleted. */
  class World<T(==,!new)> {
    ghost var live: set<LinkedPtr<T>>
    ghost var ring: map<T, seq<LinkedPtr<T>>>
    ghost var captured: set<T>
    var deleted: seq<T>

    ghost predicate Valid()
      reads `live, `ring, `captured, live
    {
      Linked(ring, live) && ring.Keys <= captured
    }

    ghost function View(): Owners<LinkedPtr<T>, T>
      reads this, live
    {
      Owners(Holding(live), captured, deleted)
    }

    constructor ()
      ensures Valid() && View() == Owners(map[], {}, []) && live == {}
    {
      live, ring, captured, deleted := {}, map[], {}, [];
    }

    /** The circle that p is in, read from p. */
    ghost method CircleOf(p: LinkedPtr<T>) returns (r: seq<LinkedPtr<T>>)
      requires Valid() && p in live
      ensures Cycle(r) && r[0] == p
      ensures p.value.None? ==> r == [p]
      ensures p.value.Some? ==> p.value.value in ring && SameMembers(r, ring[p.value.value])
    {
      assert Placed(p, ring);
      if p.value.None? {
        return [p];
      }
      var k :| 0 <= k < |ring[p.value.value]| && ring[p.value.value][k] == p;
      RotatedCycle(ring[p.value.value], k);
      return Rotated(ring[p.value.value], k);
    }

    /** Whether someone else holds what p holds shows in the circle of p. */
    lemma HeldByRing(p: LinkedPtr<T>, r: seq<LinkedPtr<T>>)
      requires Valid() && p in live && p.value.Some? && Cycle(r) && r[0] == p
      requires p.value.value in ring && SameMembers(r, ring[p.value.value])
      ensures Held(View().held - {p}, p.value.value) <==> |r| > 1
    {
      var o, rest := p.value.value, View().held - {p};
      assert RingOk(o, ring[o]);
      if |r| > 1 {
        assert r[1] in r && r[1] != r[0];
        assert r[1] in rest && rest[r[1]] == Some(o);
      }
      if Held(rest, o) {
        var q :| q in rest && rest[q] == Some(o);
        assert Placed(q, ring);
        assert q in r && q != p;
      }
    }

    /** The walk itself: p takes itself out of its circle. */
    method DepartCircle(p: LinkedPtr<T>) returns (last: bool, ghost r: seq<LinkedPtr<T>>)
      requires Valid() && p in live
      modifies live`next
      ensures Departed(ring, live, p, r) && (last <==> |r| == 1)
      ensures View() == old(View())
      ensures p.value.Some? ==> (last <==> !Held(View().held - {p}, p.value.value))
    {
      hide Cycle, RingOk, Last;
      r := CircleOf(p);
      CircleStarts(r);
      CircleApart(ring, live, p, r);
      if p.value.Some? {
        HeldByRing(p, r);
      }
      last := p.Depart(r);
      assert View().held == old(View().held);
    }

    /** The private depart of linked_ptr: p leaves, and the last one deletes the object. */
    method Leave(p: LinkedPtr<T>)
      requires Valid() && p in live
      modifies this, live`next
      ensures Valid() && live == old(live) - {p} && p.value == old(p.value)
      ensures View() == LinkedPtrSpec.Leave(old(View()), p)
    {
      hide Departed, Linked;
      ghost var r;
      var last;
      last, r := DepartCircle(p);
      LinkedWithout(ring, live, p, r);
      DepartedStarts(p, r);
      ring := Without(ring, p, r);
      live := live - {p};
      if last && p.value.Some? {
        deleted := deleted + [p.value.value];
      }
      assert View().held == old(View()).held - {p};
    }

    lemma DepartedStarts(p: LinkedPtr<T>, r: seq<LinkedPtr<T>>)
      requires Departed(ring, live, p, r)
      ensures r != [] && p in live && (p.value.Some? ==> p.value.value in ring)
    {
    }

    /** The private capture of linked_ptr: takes hold of a raw pointer, alone. */
    method Capture(p: LinkedPtr<T>, v: Option<T>)
      requires Valid() && p !in live && (v.Some? ==> v.value !in captured)
      modifies `live, `ring, `captured, p
      ensures Valid() && live == old(live) + {p}
      ensures View() == Enter(old(View()), p, v) && p.value == v
    {
      hide Linked;
      p.value := v;
      p.JoinNew();
      if v.Some? {
        LinkedFirst(ring, live, p, v.value);
        ring := ring[v.value := [p]];
        captured := captured + {v.value};
      } else {
        LinkedIdle(ring, live, p);
      }
      live := live + {p};
      assert View().held == old(View()).held[p := v];
    }

    /** The walk itself: p joins the circle of another pointer, whose object it already names. */
    method JoinWalk(p: LinkedPtr<T>, from: LinkedPtr<T>) returns (ghost r: seq<LinkedPtr<T>>)
      requires Valid() && p !in live && from in live && p.value == from.value && p.value.Some?
      modifies p`next, live`next
      ensures Holding(live) == old(Holding(live))
      ensures p.value.value in ring && Linked(ring[p.value.value := r + [p]], live + {p})
    {
      hide Cycle, RingOk, Last, SameMembers;
      r := CircleOf(from);
      CircleStarts(r);
      CircleApart(ring, live, from, r);
      NewInNoRing(ring, live, p);
      p.Join(from, r);
      LinkedMore(ring, live, p, p.value.value, r);
    }

    method JoinCircle(p: LinkedPtr<T>, from: LinkedPtr<T>)
      requires Valid() && p !in live && from in live && p.value == from.value && p.value.Some?
      modifies `ring, `live, p`next, live`next
      ensures Valid() && live == old(live) + {p}
      ensures View() == old(View()).(held := old(View()).held[p := old(from.value)])
    {
      hide Linked, Holding;
      ghost var r := JoinWalk(p, from);
      HoldingMore(live, p);
      ring := ring[p.value.value := r + [p]];
      live := live + {p};
    }

    lemma HeldIsCaptured(p: LinkedPtr<T>)
      requires Valid() && p in live
      ensures p.value.Some? ==> p.value.value in captured
    {
      assert Placed(p, ring);
    }

    /** The private copy of linked_ptr: takes hold of what another pointer holds. */
    method Copy(p: LinkedPtr<T>, from: LinkedPtr<T>)
      requires Valid() && p !in live && from in live
      modifies `ring, `live, p, live`next
      ensures Valid() && live == old(live) + {p}
      ensures View() == Enter(old(View()), p, old(from.value)) && p.value == old(from.value)
    {
      hide Linked;
      HeldIsCaptured(from);
      p.value := from.value;
      assert View() == old(View());
      if p.value.Some? {
        JoinCircle(p, from);
      } else {
        p.JoinNew();
        LinkedIdle(ring, live, p);
        live := live + {p};
        assert View().held == old(View()).held[p := None];
      }
    }

    // ---------- The operations of linked_ptr ----------

    method Construct(v: Option<T>) returns (p: LinkedPtr<T>)
      requires Valid() && (v.Some? ==> v.value !in captured)
      modifies `live, `ring, `captured
      ensures Valid() && fresh(p) && live == old(live) + {p}
      ensures View() == Apply(old(View()), Op.Construct(p, v))
      ensures p.value == v
      ensures forall q :: q in live && q != p ==> q.value == old(q.value)
    {
      p := new LinkedPtr<T>();
      Capture(p, v);
    }

    method CopyConstruct(from: LinkedPtr<T>) returns (p: LinkedPtr<T>)
      requires Valid() && from in live
      modifies `live, `ring, live`next
      ensures Valid() && fresh(p) && live == old(live) + {p}
      ensures View() == Apply(old(View()), Op.CopyConstruct(p, from))
      ensures p.value == old(from.value)
      ensures forall q :: q in live && q != p ==> q.value == old(q.value)
    {
      p := new LinkedPtr<T>();
      Copy(p, from);
    }

    /** Releases the old value and acquires the new; assigning to itself does nothing. */
    method Assign(p: LinkedPtr<T>, from: LinkedPtr<T>)
      requires Valid() && p in live && from in live
      modifies this, live
      ensures Valid() && live == old(live)
      ensures View() == Apply(old(View()), Op.Assign(p, from))
      ensures p.value == old(from.value)
      ensures forall q :: q in live && q != p ==> q.value == old(q.value)
    {
      hide Linked;
      if from != p {
        Leave(p);
        Copy(p, from);
      }
    }

    method Reset(p: LinkedPtr<T>, v: Option<T>)
      requires Valid() && p in live && (v.Some? ==> v.value !in captured)
      modifies this, live
      ensures Valid() && live == old(live)
      ensures View() == Apply(old(View()), Op.Reset(p, v))
      ensures p.value == v
      ensures forall q :: q in live && q != p ==> q.value == old(q.value)
    {
      hide Linked, Holding;
      Leave(p);
      Capture(p, v);
    }

    method Destroy(p: LinkedPtr<T>)
      requires Valid() && p in live
      modifies this, live`next
      ensures Valid() && live == old(live) - {p}
      ensures View() == Apply(old(View()), Op.Destroy(p))
      ensures p !in live && p.value == old(p.value)
      ensures forall q :: q in live && q != p ==> q.value == old(q.value)
    {
      Leave(p);
    }
  }
}
