/** The view capability as the playback engine sees it. A view is anything
    with `tick(n)` and `reset()`; the engine never looks inside one, so a view
    is modelled by its position in the registration list and the engine's
    effect on views by the ordered trace of calls it makes. */
module ViewCalls {

  /** One call made on the view registered at position `view`. */
  datatype Call = Tick(view: nat, n: nat) | Reset(view: nat)

  /** The calls of one fan-out `views.forEach(view => view.tick(n))`. */
  function TickAll(nViews: nat, n: nat): seq<Call>
  {
    if nViews == 0 then [] else TickAll(nViews - 1, n) + [Tick(nViews - 1, n)]
  }

  /** The calls of one fan-out `views.forEach(view => view.reset())`. */
  function ResetAll(nViews: nat): seq<Call>
  {
    if nViews == 0 then [] else ResetAll(nViews - 1) + [Reset(nViews - 1)]
  }

  /** The fan-outs for ticks 0, 1, ..., n - 1, one after the other. */
  function Rounds(nViews: nat, n: nat): seq<Call>
  {
    if n == 0 then [] else Rounds(nViews, n - 1) + TickAll(nViews, n - 1)
  }

  /** The tick numbers view `v` received, in the order it received them. */
  function TicksTo(t: seq<Call>, v: nat): seq<nat>
  {
    if t == [] then []
    else
      var last := t[|t| - 1];
      TicksTo(t[..|t| - 1], v) + (if last.Tick? && last.view == v then [last.n] else [])
  }

  /** The number of reset calls view `v` received. */
  function ResetsTo(t: seq<Call>, v: nat): nat
  {
    if t == [] then 0 else ResetsTo(t[..|t| - 1], v) + (if t[|t| - 1] == Reset(v) then 1 else 0)
  }

  /** 0, 1, ..., n - 1. */
  function Range(n: nat): (r: seq<nat>)
    ensures |r| == n
  {
    if n == 0 then [] else Range(n - 1) + [n - 1]
  }

  /** The calls made since the last reset call (all of them if there was none). */
  function SinceReset(t: seq<Call>): seq<Call>
  {
    if t == [] then []
    else if t[|t| - 1].Reset? then []
    else SinceReset(t[..|t| - 1]) + [t[|t| - 1]]
  }

  predicate NoResets(t: seq<Call>)
  {
    forall i :: 0 <= i < |t| ==> t[i].Tick?
  }

  /** No view was ever ticked at an index `bound` or beyond, and every call
      went to a registered view. */
  predicate CallsWithin(t: seq<Call>, nViews: nat, bound: nat)
  {
    forall i :: 0 <= i < |t| ==> t[i].view < nViews && (t[i].Tick? ==> t[i].n < bound)
  }

  lemma {:induction false} TicksToAppend(t: seq<Call>, u: seq<Call>, v: nat)
    ensures TicksTo(t + u, v) == TicksTo(t, v) + TicksTo(u, v)
    decreases |u|
  {
    if u == [] {
      assert t + u == t;
    } else {
      var w := u[..|u| - 1];
      assert (t + u)[..|t + u| - 1] == t + w;
      assert u[..|u| - 1] == w;
      TicksToAppend(t, w, v);
    }
  }

  lemma {:induction false} ResetsToAppend(t: seq<Call>, u: seq<Call>, v: nat)
    ensures ResetsTo(t + u, v) == ResetsTo(t, v) + ResetsTo(u, v)
    decreases |u|
  {
    if u == [] {
      assert t + u == t;
    } else {
      var w := u[..|u| - 1];
      assert (t + u)[..|t + u| - 1] == t + w;
      ResetsToAppend(t, w, v);
    }
  }

  /** One tick fan-out gives view `v` exactly the tick `n` when `v` is
      registered, and nothing otherwise. */
  lemma {:induction false} TicksToTickAll(nViews: nat, n: nat, v: nat)
    ensures TicksTo(TickAll(nViews, n), v) == if v < nViews then [n] else []
  {
    if nViews > 0 {
      TicksToTickAll(nViews - 1, n, v);
      TicksToAppend(TickAll(nViews - 1, n), [Tick(nViews - 1, n)], v);
      assert [Tick(nViews - 1, n)][..0] == [];
    }
  }

  /** A tick fan-out resets no view. */
  lemma {:induction false} ResetsToTickAll(nViews: nat, n: nat, v: nat)
    ensures ResetsTo(TickAll(nViews, n), v) == 0
  {
    if nViews > 0 {
      ResetsToTickAll(nViews - 1, n, v);
      ResetsToAppend(TickAll(nViews - 1, n), [Tick(nViews - 1, n)], v);
      assert [Tick(nViews - 1, n)][..0] == [];
    }
  }

  /** A reset fan-out gives every registered view exactly one reset and no tick. */
  lemma {:induction false} ResetAllCalls(nViews: nat, v: nat)
    ensures TicksTo(ResetAll(nViews), v) == []
    ensures ResetsTo(ResetAll(nViews), v) == if v < nViews then 1 else 0
  {
    if nViews > 0 {
      ResetAllCalls(nViews - 1, v);
      TicksToAppend(ResetAll(nViews - 1), [Reset(nViews - 1)], v);
      ResetsToAppend(ResetAll(nViews - 1), [Reset(nViews - 1)], v);
      assert [Reset(nViews - 1)][..0] == [];
    }
  }

  lemma {:induction false} TickAllShape(nViews: nat, n: nat)
    ensures |TickAll(nViews, n)| == nViews
    ensures forall i :: 0 <= i < nViews ==> TickAll(nViews, n)[i] == Tick(i, n)
  {
    if nViews > 0 {
      TickAllShape(nViews - 1, n);
    }
  }

  lemma {:induction false} ResetAllShape(nViews: nat)
    ensures |ResetAll(nViews)| == nViews
    ensures forall i :: 0 <= i < nViews ==> ResetAll(nViews)[i] == Reset(i)
  {
    if nViews > 0 {
      ResetAllShape(nViews - 1);
    }
  }

  /** After the fan-outs for ticks 0 .. n - 1, each registered view has
      received tick(0), ..., tick(n - 1), once each and in increasing order. */
  lemma {:induction false} RoundsPerView(nViews: nat, n: nat, v: nat)
    requires v < nViews
    ensures TicksTo(Rounds(nViews, n), v) == Range(n)
  {
    if n > 0 {
      RoundsPerView(nViews, n - 1, v);
      TicksToAppend(Rounds(nViews, n - 1), TickAll(nViews, n - 1), v);
      TicksToTickAll(nViews, n - 1, v);
    }
  }

  /** With no registered views, no fan-out makes a call. */
  lemma {:induction false} RoundsOfNoViews(n: nat)
    ensures Rounds(0, n) == []
  {
    if n > 0 {
      RoundsOfNoViews(n - 1);
    }
  }

  lemma {:induction false} SinceResetNoResets(t: seq<Call>, u: seq<Call>)
    requires NoResets(u)
    ensures SinceReset(t + u) == SinceReset(t) + u
    decreases |u|
  {
    if u == [] {
      assert t + u == t;
    } else {
      var w := u[..|u| - 1];
      assert (t + u)[..|t + u| - 1] == t + w;
      SinceResetNoResets(t, w);
    }
  }

  lemma {:induction false} SinceResetAll(t: seq<Call>, nViews: nat)
    ensures SinceReset(t + ResetAll(nViews)) == if nViews == 0 then SinceReset(t) else []
  {
    if nViews == 0 {
      assert t + ResetAll(nViews) == t;
    } else {
      assert (t + ResetAll(nViews))[|t + ResetAll(nViews)| - 1] == Reset(nViews - 1);
    }
  }

  lemma {:induction false} TickAllHasNoResets(nViews: nat, n: nat)
    ensures NoResets(TickAll(nViews, n))
  {
    TickAllShape(nViews, n);
  }

  lemma {:induction false} CallsWithinTickAll(t: seq<Call>, nViews: nat, n: nat, bound: nat)
    requires CallsWithin(t, nViews, bound) && n < bound
    ensures CallsWithin(t + TickAll(nViews, n), nViews, bound)
  {
    TickAllShape(nViews, n);
  }

  lemma {:induction false} CallsWithinResetAll(t: seq<Call>, nViews: nat, bound: nat)
    requires CallsWithin(t, nViews, bound)
    ensures CallsWithin(t + ResetAll(nViews), nViews, bound)
  {
    ResetAllShape(nViews);
  }
}
