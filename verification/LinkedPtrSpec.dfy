/** What linked_ptr promises, without the links: who holds which object, and that over any
    sequence of operations every object is deleted once, when its last holder lets go. */
module LinkedPtrSpec {
  import opened Basics

  /** Live pointers with what they hold, the objects captured so far and those deleted. */
  datatype Owners<P, O> = Owners(held: map<P, Option<O>>, captured: set<O>, deleted: seq<O>)

  ghost predicate Held<P, O>(held: map<P, Option<O>>, o: O) {
    exists p :: p in held && held[p] == Some(o)
  }

  /** A pointer lets go; the object goes with it if nobody else holds it. */
  ghost function Leave<P, O>(st: Owners<P, O>, p: P): Owners<P, O>
    requires p in st.held
  {
    var rest := st.held - {p};
    Owners(rest, st.captured,
           match st.held[p]
           case None => st.deleted
           case Some(o) => if Held(rest, o) then st.deleted else st.deleted + [o])
  }

  /** A pointer takes hold of a raw pointer or of what another one holds. */
  ghost function Enter<P, O>(st: Owners<P, O>, p: P, v: Option<O>): Owners<P, O> {
    Owners(st.held[p := v], if v.Some? then st.captured + {v.value} else st.captured, st.deleted)
  }

  datatype Op<P, O> =
    | Construct(p: P, v: Option<O>)
    | CopyConstruct(p: P, from: P)
    | Assign(p: P, from: P)
    | Reset(p: P, v: Option<O>)
    | Destroy(p: P)

  /** Raw pointers are captured once; everything else names live pointers. */
  ghost predicate Legal<P, O>(st: Owners<P, O>, op: Op<P, O>) {
    match op
    case Construct(p, v) => p !in st.held && (v.Some? ==> v.value !in st.captured)
    case CopyConstruct(p, from) => p !in st.held && from in st.held
    case Assign(p, from) => p in st.held && from in st.held
    case Reset(p, v) => p in st.held && (v.Some? ==> v.value !in st.captured)
    case Destroy(p) => p in st.held
  }

  ghost function Apply<P, O>(st: Owners<P, O>, op: Op<P, O>): Owners<P, O>
    requires Legal(st, op)
  {
    match op
    case Construct(p, v) => Enter(st, p, v)
    case CopyConstruct(p, from) => Enter(st, p, st.held[from])
    case Assign(p, from) => if p == from then st else Enter(Leave(st, p), p, st.held[from])
    case Reset(p, v) => Enter(Leave(st, p), p, v)
    case Destroy(p) => Leave(st, p)
  }

  /** Every captured object is either held or deleted, never both, and deleted once. */
  ghost predicate Sound<P, O(!new)>(st: Owners<P, O>) {
    && (forall o :: o in st.captured <==> Held(st.held, o) || o in st.deleted)
    && (forall o :: o in st.deleted ==> !Held(st.held, o))
    && (forall i, j :: 0 <= i < j < |st.deleted| ==> st.deleted[i] != st.deleted[j])
  }

  lemma LeaveHeld<P, O(!new)>(st: Owners<P, O>, p: P)
    requires p in st.held
    ensures forall o :: Held(st.held, o) <==> Held(Leave(st, p).held, o) || st.held[p] == Some(o)
  {
    forall o | Held(st.held, o)
      ensures Held(Leave(st, p).held, o) || st.held[p] == Some(o)
    {
      var q :| q in st.held && st.held[q] == Some(o);
      if q != p {
        assert q in Leave(st, p).held && Leave(st, p).held[q] == Some(o);
      }
    }
    forall o | Held(Leave(st, p).held, o)
      ensures Held(st.held, o)
    {
      var q :| q in Leave(st, p).held && Leave(st, p).held[q] == Some(o);
      assert q in st.held && st.held[q] == Some(o);
    }
  }

  lemma EnterHeld<P, O(!new)>(st: Owners<P, O>, p: P, v: Option<O>)
    requires p !in st.held
    ensures forall o :: Held(Enter(st, p, v).held, o) <==> Held(st.held, o) || v == Some(o)
  {
    var next := Enter(st, p, v).held;
    forall o | Held(st.held, o)
      ensures Held(next, o)
    {
      var q :| q in st.held && st.held[q] == Some(o);
      assert q in next && next[q] == Some(o);
    }
    assert p in next && next[p] == v;
  }

  lemma LeaveSound<P, O(!new)>(st: Owners<P, O>, p: P)
    requires Sound(st) && p in st.held
    ensures Sound(Leave(st, p))
  {
    LeaveHeld(st, p);
    if st.held[p].Some? {
      assert Held(st.held, st.held[p].value);
    }
  }

  lemma EnterSound<P, O(!new)>(st: Owners<P, O>, p: P, v: Option<O>)
    requires Sound(st) && p !in st.held
    requires v.Some? ==> v.value !in st.deleted
    ensures Sound(Enter(st, p, v))
  {
    EnterHeld(st, p, v);
  }

  /** What a pointer other than p holds stays held and undeleted when p lets go. */
  lemma OthersKeep<P, O(!new)>(st: Owners<P, O>, p: P, q: P)
    requires Sound(st) && p in st.held && q in st.held && p != q
    ensures st.held[q].Some? ==> st.held[q].value !in Leave(st, p).deleted
  {
    if st.held[q].Some? {
      var rest := st.held - {p};
      assert q in rest && rest[q] == st.held[q];
      assert Held(st.held, st.held[q].value);
    }
  }

  /** Every operation keeps the state sound. */
  lemma ApplySound<P, O(!new)>(st: Owners<P, O>, op: Op<P, O>)
    requires Sound(st) && Legal(st, op)
    ensures Sound(Apply(st, op))
  {
    match op
    case Construct(p, v) => EnterSound(st, p, v);
    case CopyConstruct(p, from) =>
      if st.held[from].Some? { assert Held(st.held, st.held[from].value); }
      EnterSound(st, p, st.held[from]);
    case Assign(p, from) =>
      if p != from {
        LeaveSound(st, p);
        OthersKeep(st, p, from);
        EnterSound(Leave(st, p), p, st.held[from]);
      }
    case Reset(p, v) =>
      LeaveSound(st, p);
      if st.held[p].Some? { assert Held(st.held, st.held[p].value); }
      EnterSound(Leave(st, p), p, v);
    case Destroy(p) => LeaveSound(st, p);
  }

  /** An operation deletes an object exactly when the object was held before it and nobody
      holds it after it, and then once. */
  lemma DeletesWithLastHolder<P, O(!new)>(st: Owners<P, O>, op: Op<P, O>, o: O)
    requires Sound(st) && Legal(st, op)
    ensures multiset(Apply(st, op).deleted)[o]
            == multiset(st.deleted)[o]
               + if Held(st.held, o) && !Held(Apply(st, op).held, o) then 1 else 0
  {
    match op
    case Construct(p, v) => EnterHeld(st, p, v);
    case CopyConstruct(p, from) => EnterHeld(st, p, st.held[from]);
    case Assign(p, from) =>
      if p != from {
        LeaveHeld(st, p);
        EnterHeld(Leave(st, p), p, st.held[from]);
        if st.held[from].Some? {
          var rest := st.held - {p};
          assert from in rest && rest[from] == st.held[from];
        }
      }
    case Reset(p, v) =>
      LeaveHeld(st, p);
      EnterHeld(Leave(st, p), p, v);
      if v.Some? { assert !Held(st.held, v.value); }
    case Destroy(p) => LeaveHeld(st, p);
  }

  // ---------- Runs ----------

  ghost predicate LegalRun<P, O(!new)>(st: Owners<P, O>, ops: seq<Op<P, O>>)
    decreases |ops|
  {
    ops != [] ==> Legal(st, ops[0]) && LegalRun(Apply(st, ops[0]), ops[1..])
  }

  ghost function Run<P, O(!new)>(st: Owners<P, O>, ops: seq<Op<P, O>>): Owners<P, O>
    requires LegalRun(st, ops)
    decreases |ops|
  {
    if ops == [] then st else Run(Apply(st, ops[0]), ops[1..])
  }

  lemma {:induction false} RunSound<P, O(!new)>(st: Owners<P, O>, ops: seq<Op<P, O>>)
    requires Sound(st) && LegalRun(st, ops)
    ensures Sound(Run(st, ops))
    decreases |ops|
  {
    if ops != [] {
      ApplySound(st, ops[0]);
      RunSound(Apply(st, ops[0]), ops[1..]);
    }
  }

  /** After any run from the start, an object has been deleted once if it was captured and
      nobody holds it any more, and not at all otherwise. */
  lemma DeletedExactlyOnce<P, O(!new)>(ops: seq<Op<P, O>>, o: O)
    requires LegalRun(Owners(map[], {}, []), ops)
    ensures var st := Run(Owners(map[], {}, []), ops);
            multiset(st.deleted)[o] == if o in st.captured && !Held(st.held, o) then 1 else 0
  {
    var start: Owners<P, O> := Owners(map[], {}, []);
    assert Sound(start);
    RunSound(start, ops);
    OnceEach(Run(start, ops).deleted, o);
  }

  lemma {:induction false} OnceEach<O>(s: seq<O>, o: O)
    requires forall i, j :: 0 <= i < j < |s| ==> s[i] != s[j]
    ensures multiset(s)[o] == if o in s then 1 else 0
  {
    if s != [] {
      assert s == [s[0]] + s[1..];
      OnceEach(s[1..], o);
    }
  }
}
