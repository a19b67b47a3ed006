/** Which object each linked_ptr holds, after one operation and after any run of them. */
module LinkedPtrHistory {
  import opened Basics
  import opened LinkedPtrSpec

  /** What one operation leaves in the pointers: only the one it names changes. */
  lemma WhatEachHolds<P, O(!new)>(st: Owners<P, O>, op: Op<P, O>)
    requires Legal(st, op)
    ensures Apply(st, op).held ==
      match op
      case Construct(p, v) => st.held[p := v]
      case CopyConstruct(p, from) => st.held[p := st.held[from]]
      case Assign(p, from) => st.held[p := st.held[from]]
      case Reset(p, v) => st.held[p := v]
      case Destroy(p) => st.held - {p}
  {
    match op
    case Assign(p, from) =>
      assert (st.held - {p})[p := st.held[from]] == st.held[p := st.held[from]];
      if p == from {
        assert st.held == st.held[p := st.held[from]];
      }
    case Reset(p, v) =>
      assert (st.held - {p})[p := v] == st.held[p := v];
    case _ =>
  }

  /** Only what is given as a raw pointer is captured. */
  lemma WhatIsCaptured<P, O(!new)>(st: Owners<P, O>, op: Op<P, O>)
    requires Sound(st) && Legal(st, op)
    ensures Apply(st, op).captured ==
      if (op.Construct? || op.Reset?) && op.v.Some? then st.captured + {op.v.value} else st.captured
  {
    if op.CopyConstruct? || op.Assign? {
      assert st.held[op.from].Some? ==> Held(st.held, st.held[op.from].value);
    }
  }

  ghost predicate Captures<P, O>(op: Op<P, O>) {
    op.Construct? || op.Reset?
  }

  /** The number of the operation that captured what p holds after the operations, following
      copies and assignments back to where they took it from; -1 if there is none. */
  ghost function Origin<P, O>(ops: seq<Op<P, O>>, p: P): int
    decreases |ops|
  {
    if ops == [] then -1
    else
      var n := |ops| - 1;
      match ops[n]
      case Construct(q, _) => if p == q then n else Origin(ops[..n], p)
      case Reset(q, _) => if p == q then n else Origin(ops[..n], p)
      case CopyConstruct(q, from) => Origin(ops[..n], if p == q then from else p)
      case Assign(q, from) => Origin(ops[..n], if p == q then from else p)
      case Destroy(_) => Origin(ops[..n], p)
  }

  ghost function Start<P, O>(): Owners<P, O> {
    Owners(map[], {}, [])
  }

  /** A run is a shorter one and its last operation. */
  lemma {:induction false} LastOperation<P, O(!new)>(st: Owners<P, O>, ops: seq<Op<P, O>>, n: nat)
    requires LegalRun(st, ops) && |ops| == n + 1
    ensures LegalRun(st, ops[..n]) && Legal(Run(st, ops[..n]), ops[n])
    ensures Run(st, ops) == Apply(Run(st, ops[..n]), ops[n])
    decreases n
  {
    hide Legal, Apply;
    if n > 0 {
      assert ops[..n][0] == ops[0] && ops[..n][1..] == ops[1..][..n - 1];
      LastOperation(Apply(st, ops[0]), ops[1..], n - 1);
    } else {
      assert ops[..0] == [] && ops[1..] == [];
    }
  }

  /** A live pointer holds what the operation of its origin was given. */
  lemma {:induction false} HoldsWhatWasCaptured<P, O(!new)>(ops: seq<Op<P, O>>, p: P)
    requires LegalRun(Start(), ops) && p in Run(Start(), ops).held
    ensures 0 <= Origin(ops, p) < |ops| && Captures(ops[Origin(ops, p)])
    ensures Run(Start(), ops).held[p] == ops[Origin(ops, p)].v
    decreases |ops|
  {
    hide Apply, Run, LegalRun;
    if ops == [] {
      assert Run(Start<P, O>(), ops).held == map[] by { EmptyRun<P, O>(); }
      assert false;
    }
    var n := |ops| - 1;
    LastOperation(Start(), ops, n);
    var before := Run(Start(), ops[..n]);
    WhatEachHolds(before, ops[n]);
    var source := if (ops[n].CopyConstruct? || ops[n].Assign?) && p == ops[n].p then ops[n].from else p;
    if !(Captures(ops[n]) && p == ops[n].p) {
      assert source in before.held;
      HoldsWhatWasCaptured(ops[..n], source);
    }
  }

  lemma EmptyRun<P, O(!new)>()
    ensures LegalRun(Start<P, O>(), []) && Run(Start<P, O>(), []) == Start<P, O>()
  {
  }

  /** What an operation has captured stays on record. */
  lemma {:induction false} OnRecord<P, O(!new)>(ops: seq<Op<P, O>>, i: nat)
    requires LegalRun(Start(), ops) && i < |ops| && Captures(ops[i]) && ops[i].v.Some?
    ensures ops[i].v.value in Run(Start(), ops).captured
    decreases |ops|
  {
    hide Apply, Run, LegalRun;
    var n := |ops| - 1;
    LastOperation(Start(), ops, n);
    assert Sound(Start<P, O>());
    RunSound(Start(), ops[..n]);
    WhatIsCaptured(Run(Start(), ops[..n]), ops[n]);
    if i < n {
      OnRecord(ops[..n], i);
    }
  }

  /** No object is captured by two operations. */
  lemma {:induction false} CapturedOnce<P, O(!new)>(ops: seq<Op<P, O>>, i: nat, j: nat)
    requires LegalRun(Start(), ops) && i < j < |ops| && Captures(ops[i]) && Captures(ops[j]) && ops[i].v.Some?
    ensures ops[i].v != ops[j].v
    decreases |ops|
  {
    hide Apply, Run, LegalRun;
    var n := |ops| - 1;
    LastOperation(Start(), ops, n);
    if j < n {
      CapturedOnce(ops[..n], i, j);
    } else {
      OnRecord(ops[..n], i);
    }
  }

  /** Two pointers hold the same object exactly if copies and assignments lead both of them back
      to the operation that captured it. */
  lemma SameObjectIffLinked<P, O(!new)>(ops: seq<Op<P, O>>, p: P, q: P)
    requires LegalRun(Start(), ops) && p in Run(Start(), ops).held && q in Run(Start(), ops).held
    requires Run(Start(), ops).held[p].Some?
    ensures Run(Start(), ops).held[p] == Run(Start(), ops).held[q] <==> Origin(ops, p) == Origin(ops, q)
  {
    hide Run, LegalRun, Origin;
    HoldsWhatWasCaptured(ops, p);
    HoldsWhatWasCaptured(ops, q);
    var i, j := Origin(ops, p), Origin(ops, q);
    if i < j {
      CapturedOnce(ops, i, j);
    } else if j < i && ops[j].v.Some? {
      CapturedOnce(ops, j, i);
    }
  }
}
