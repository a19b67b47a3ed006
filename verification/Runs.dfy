/** Runs of a machine that takes one character at a time, for any machine: the driver loop of
    request_handler.h, and paths of a machine that may refuse a character.  Nothing here knows the
    states of the request parser, so proofs about whole inputs never look at its table; they use
    only what a single step keeps. */
module Runs {
  import opened Basics

  datatype Tribool = True | False | Indeterminate

  datatype Turn<+S> = Stop(accept: bool) | Continue(s: S)

  /** What a run does: its verdict, what it leaves and how much it has consumed. */
  datatype Outcome<+S> = Outcome(verdict: Tribool, left: S, consumed: nat)

  /** The driver loop, for any way of consuming a byte. */
  function Drive<S>(consume: (S, char) -> Turn<S>, s: S, data: string): (o: Outcome<S>)
    ensures o.consumed <= |data|
    ensures o.verdict == Indeterminate ==> o.consumed == |data|
    decreases |data|
  {
    if data == "" then Outcome(Indeterminate, s, 0)
    else
      match consume(s, data[0])
      case Stop(accept) => Outcome(if accept then True else False, s, 1)
      case Continue(next) =>
        var o := Drive(consume, next, data[1..]);
        o.(consumed := o.consumed + 1)
  }

  lemma {:induction false} DriveIsIncremental<S>(consume: (S, char) -> Turn<S>, s: S, a: string, b: string)
    ensures var first := Drive(consume, s, a);
            Drive(consume, s, a + b)
            == if first.verdict != Indeterminate then first
               else var second := Drive(consume, first.left, b);
                    second.(consumed := |a| + second.consumed)
    decreases |a|
  {
    if a == "" {
      assert a + b == b;
    } else {
      assert (a + b)[0] == a[0] && (a + b)[1..] == a[1..] + b;
      var t := consume(s, a[0]);
      if t.Continue? {
        DriveIsIncremental(consume, t.s, a[1..], b);
      }
    }
  }

  /** A verdict comes with the last byte consumed; what is before it gives none. */
  lemma {:induction false} DriveLastByte<S>(consume: (S, char) -> Turn<S>, s: S, data: string)
    requires Drive(consume, s, data).verdict != Indeterminate
    ensures var o := Drive(consume, s, data);
            && 0 < o.consumed
            && Drive(consume, s, data[..o.consumed - 1]) == Outcome(Indeterminate, o.left, o.consumed - 1)
            && consume(o.left, data[o.consumed - 1]) == Stop(o.verdict == True)
    decreases |data|
  {
    match consume(s, data[0])
    case Stop(accept) =>
      assert data[..0] == "";
    case Continue(next) =>
      DriveLastByte(consume, next, data[1..]);
      var n := Drive(consume, s, data).consumed;
      assert data[..n - 1][0] == data[0] && data[..n - 1][1..] == data[1..][..n - 2];
  }

  // ---------- Paths ----------

  /** Where the characters of w lead, if none is refused. */
  function Follow<S>(step: (S, char) -> Option<S>, s: S, w: string): Option<S>
    decreases |w|
  {
    if w == "" then Some(s)
    else
      match step(s, w[0])
      case None => None
      case Some(next) => Follow(step, next, w[1..])
  }

  lemma {:induction false} FollowAppend<S>(step: (S, char) -> Option<S>, s: S, a: string, b: string)
    ensures Follow(step, s, a + b)
            == match Follow(step, s, a)
               case None => None
               case Some(t) => Follow(step, t, b)
    decreases |a|
  {
    if a == "" {
      assert a + b == b;
    } else {
      assert (a + b)[0] == a[0] && (a + b)[1..] == a[1..] + b;
      if step(s, a[0]).Some? {
        FollowAppend(step, step(s, a[0]).value, a[1..], b);
      }
    }
  }

  lemma FollowOne<S>(step: (S, char) -> Option<S>, s: S, c: char)
    ensures Follow(step, s, [c]) == step(s, c)
  {
    assert [c][1..] == "";
  }

  /** If every step writes its character, a path writes its text. */
  lemma {:induction false} FollowWrites<S(!new)>(step: (S, char) -> Option<S>, out: S -> string, s: S, w: string)
    requires forall t, c :: step(t, c).Some? ==> out(step(t, c).value) == out(t) + [c]
    ensures Follow(step, s, w).Some? ==> out(Follow(step, s, w).value) == out(s) + w
    decreases |w|
  {
    if w == "" {
      assert out(s) + w == out(s);
    } else if step(s, w[0]).Some? {
      FollowWrites(step, out, step(s, w[0]).value, w[1..]);
      assert out(s) + [w[0]] + w[1..] == out(s) + w;
    }
  }

  /** If a machine steps exactly where consume goes on, its paths are the runs without a
      verdict. */
  lemma {:induction false} FollowDrives<S(!new), P>(
      step: (S, char) -> Option<S>, consume: (P, char) -> Turn<P>, view: S -> P, s: S, w: string)
    requires forall t, c ::
        if step(t, c).Some? then consume(view(t), c) == Continue(view(step(t, c).value))
        else consume(view(t), c).Stop?
    ensures Drive(consume, view(s), w).verdict == Indeterminate <==> Follow(step, s, w).Some?
    ensures Follow(step, s, w).Some? ==> Drive(consume, view(s), w).left == view(Follow(step, s, w).value)
    decreases |w|
  {
    if w != "" && step(s, w[0]).Some? {
      FollowDrives(step, consume, view, step(s, w[0]).value, w[1..]);
    }
  }
}
