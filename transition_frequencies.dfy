/** The transition-frequency book of the states and edges views
    (src/views/statesView.js, views/edgesView.js): one list per ordered pair
    of distinct state names, keyed `from:to`, to which every tick appends the
    number of that tick's events between the two states. */
module TransitionFrequencies {
  import opened Data

  /** `_transtitionName`: the key of the pair from → to. */
  function PairName(from: string, to: string): string
  {
    from + ":" + to
  }

  /** The key an event is counted under in a tick. */
  function EventKey(e: Event): string
  {
    PairName(e.oldState, e.newState)
  }

  predicate ColonFree(s: string)
  {
    forall i :: 0 <= i < |s| ==> s[i] != ':'
  }

  predicate AllColonFree(names: seq<string>)
  {
    forall i :: 0 <= i < |names| ==> ColonFree(names[i])
  }

  /** Two colon-free names are recovered from their key: no other pair of
      strings gives the same key. */
  lemma PairNameInjective(a: string, b: string, x: string, y: string)
    requires ColonFree(x) && ColonFree(y) && PairName(a, b) == PairName(x, y)
    ensures a == x && b == y
  {
    var s := PairName(a, b);
    assert s[|a|] == ':';
    assert |a| == |x|;
    assert a == s[..|a|] == x;
    assert b == s[|a| + 1..] == y;
  }

  /** The keys of `_transitionsMap`: one per ordered pair of distinct names. */
  function PairKeys(names: seq<string>): set<string>
  {
    set a, b | 0 <= a < |names| && 0 <= b < |names| && names[a] != names[b] :: PairName(names[a], names[b])
  }

  /** With colon-free names, the pair from → to has an entry exactly when
      both are names and they differ; in particular no self-pair has one. */
  lemma PairKeysIff(names: seq<string>, from: string, to: string)
    requires AllColonFree(names)
    ensures PairName(from, to) in PairKeys(names) <==> from in names && to in names && from != to
  {
    if PairName(from, to) in PairKeys(names) {
      var a, b :| 0 <= a < |names| && 0 <= b < |names| && names[a] != names[b] && PairName(names[a], names[b]) == PairName(from, to);
      PairNameInjective(from, to, names[a], names[b]);
    }
    if from in names && to in names && from != to {
      var a :| 0 <= a < |names| && names[a] == from;
      var b :| 0 <= b < |names| && names[b] == to;
      assert PairName(names[a], names[b]) in PairKeys(names);
    }
  }

  /** The scratch table `transitionsInTick` read with `|| 0`: the number of
      the tick's events counted under `key`. */
  function Count(events: seq<Event>, key: string): (r: nat)
    ensures r <= |events|
  {
    if events == [] then 0
    else Count(events[..|events| - 1], key) + (if EventKey(events[|events| - 1]) == key then 1 else 0)
  }

  /** The number of a tick's events from `from` to `to`. */
  function PairCount(events: seq<Event>, from: string, to: string): (r: nat)
    ensures r <= |events|
  {
    if events == [] then 0
    else
      var e := events[|events| - 1];
      PairCount(events[..|events| - 1], from, to) + (if e.oldState == from && e.newState == to then 1 else 0)
  }

  /** For colon-free state names, the number counted under `from:to` is the
      number of the tick's events from `from` to `to`: no other event,
      whatever its states, is counted under that key. */
  lemma {:induction false} CountIsPairCount(events: seq<Event>, from: string, to: string)
    requires ColonFree(from) && ColonFree(to)
    ensures Count(events, PairName(from, to)) == PairCount(events, from, to)
  {
    if events != [] {
      var e := events[|events| - 1];
      CountIsPairCount(events[..|events| - 1], from, to);
      if EventKey(e) == PairName(from, to) {
        PairNameInjective(e.oldState, e.newState, from, to);
      }
    }
  }

  /** A key's count is positive exactly when some event of the tick has it. */
  lemma {:induction false} CountPositiveIff(events: seq<Event>, key: string)
    ensures Count(events, key) > 0 <==> exists i :: 0 <= i < |events| && EventKey(events[i]) == key
  {
    if events != [] {
      var init := events[..|events| - 1];
      CountPositiveIff(init, key);
      if exists i :: 0 <= i < |init| && EventKey(init[i]) == key {
        var i :| 0 <= i < |init| && EventKey(init[i]) == key;
        assert events[i] == init[i];
      }
      if exists i :: 0 <= i < |events| && EventKey(events[i]) == key {
        var i :| 0 <= i < |events| && EventKey(events[i]) == key;
        if i < |init| {
          assert init[i] == events[i];
        }
      }
    }
  }

  /** An event that is a self-transition or names a state outside the table
      is counted in the scratch table but recorded under no entry. */
  lemma StrayEventIgnored(names: seq<string>, events: seq<Event>, e: Event)
    requires AllColonFree(names)
    requires e.oldState == e.newState || e.oldState !in names || e.newState !in names
    ensures forall k :: k in PairKeys(names) ==> Count(events + [e], k) == Count(events, k)
  {
    PairKeysIff(names, e.oldState, e.newState);
    assert (events + [e])[..|events|] == events;
  }

  /** `transitionsInTick[k] || 0`. */
  function Lookup0(m: map<string, int>, k: string): int
  {
    if k in m then m[k] else 0
  }

  /** The map `_createTransitionsMap` builds: every entry's list is empty. */
  function Fresh(names: seq<string>): map<string, seq<int>>
  {
    map k | k in PairKeys(names) :: []
  }

  /** The lists after `_tickTransitions`: each entry gets its count appended. */
  function RecordSpec(lists: map<string, seq<int>>, events: seq<Event>): map<string, seq<int>>
  {
    map k | k in lists :: lists[k] + [Count(events, k)]
  }

  /** The lists after `_tickTransitions` for each tick in turn. */
  function RecordAll(lists: map<string, seq<int>>, ticks: seq<seq<Event>>): map<string, seq<int>>
  {
    if ticks == [] then lists
    else RecordSpec(RecordAll(lists, ticks[..|ticks| - 1]), ticks[|ticks| - 1])
  }

  /** The history a set of entries should hold after the given ticks: entry
      i of each list is that key's count in tick i. */
  function Recorded(keys: set<string>, ticks: seq<seq<Event>>): (r: map<string, seq<int>>)
    ensures r.Keys == keys
    ensures forall k :: k in r ==> |r[k]| == |ticks|
  {
    map k | k in keys :: seq(|ticks|, i requires 0 <= i < |ticks| => Count(ticks[i], k))
  }

  /** Recording a tick extends the history by that tick. */
  lemma RecordExtends(keys: set<string>, ticks: seq<seq<Event>>, events: seq<Event>)
    ensures RecordSpec(Recorded(keys, ticks), events) == Recorded(keys, ticks + [events])
  {
    var l := RecordSpec(Recorded(keys, ticks), events);
    var r := Recorded(keys, ticks + [events]);
    forall k | k in keys
      ensures l[k] == r[k]
    {
      assert |l[k]| == |r[k]|;
      forall i | 0 <= i < |r[k]|
        ensures l[k][i] == r[k][i]
      {
        if i < |ticks| {
          assert (ticks + [events])[i] == ticks[i];
        }
      }
    }
  }

  /** From a fresh map, the lists after k ticks are that k-tick history: each
      has length k and holds the per-tick counts in order. */
  lemma {:induction false} RecordAllFromFresh(names: seq<string>, ticks: seq<seq<Event>>)
    ensures RecordAll(Fresh(names), ticks) == Recorded(PairKeys(names), ticks)
  {
    if ticks == [] {
      assert Fresh(names) == Recorded(PairKeys(names), []);
    } else {
      var init := ticks[..|ticks| - 1];
      RecordAllFromFresh(names, init);
      RecordExtends(PairKeys(names), init, ticks[|ticks| - 1]);
      assert init + [ticks[|ticks| - 1]] == ticks;
    }
  }

  /** `sum`: the total of a list. */
  function Sum(l: seq<int>): int
  {
    if l == [] then 0 else Sum(l[..|l| - 1]) + l[|l| - 1]
  }

  lemma {:induction false} SumAppend(a: seq<int>, b: seq<int>)
    ensures Sum(a + b) == Sum(a) + Sum(b)
    decreases |b|
  {
    if b != [] {
      var init := b[..|b| - 1];
      SumAppend(a, init);
      assert (a + b)[..|a + b| - 1] == a + init;
      assert (a + b)[|a + b| - 1] == b[|b| - 1];
    } else {
      assert a + b == a;
    }
  }

  lemma {:induction false} SumNonNegative(l: seq<int>)
    requires forall i :: 0 <= i < |l| ==> l[i] >= 0
    ensures Sum(l) >= 0
  {
    if l != [] {
      SumNonNegative(l[..|l| - 1]);
    }
  }

  /** `slice(-10)`: the last ten entries, or all of them when there are fewer. */
  function Window(l: seq<int>): (r: seq<int>)
    ensures |r| == if |l| < 10 then |l| else 10
    ensures forall i :: 0 <= i < |r| ==> r[i] == l[|l| - |r| + i]
  {
    if |l| <= 10 then l else l[|l| - 10..]
  }

  /** An edge's weight input: the sum over the window. With non-negative
      counts it lies between 0 and the sum of the whole list. */
  lemma WindowSumBound(l: seq<int>)
    requires forall i :: 0 <= i < |l| ==> l[i] >= 0
    ensures 0 <= Sum(Window(l)) <= Sum(l)
  {
    var w := Window(l);
    var front := l[..|l| - |w|];
    assert front + w == l;
    SumAppend(front, w);
    SumNonNegative(front);
    SumNonNegative(w);
  }

  /** Appending a tick's count slides the window: the new count comes in and,
      once the list is ten long, the count from ten ticks back goes out. */
  lemma WindowSlide(l: seq<int>, x: int)
    ensures Sum(Window(l + [x])) == Sum(Window(l)) + x - (if |l| >= 10 then l[|l| - 10] else 0)
  {
    var w := Window(l);
    var w' := Window(l + [x]);
    if |l| >= 10 {
      assert w == [l[|l| - 10]] + w'[..9];
      assert w' == w'[..9] + [x];
      SumAppend([l[|l| - 10]], w'[..9]);
      SumAppend(w'[..9], [x]);
    } else {
      assert w' == w + [x];
      SumAppend(w, [x]);
    }
  }

  /** The keys made by the first `a` turns of the outer loop of
      `_createTransitionsMap` and the first `b` turns of the inner one. */
  ghost function Made(names: seq<string>, a: nat, b: nat): set<string>
  {
    set x, y | 0 <= x < |names| && 0 <= y < |names| && (x < a || (x == a && y < b)) && names[x] != names[y]
      :: PairName(names[x], names[y])
  }

  lemma MadeStep(names: seq<string>, a: nat, b: nat)
    requires a < |names| && b < |names|
    ensures Made(names, a, b + 1) == Made(names, a, b) + (if names[a] != names[b] then {PairName(names[a], names[b])} else {})
  {
    var l := Made(names, a, b + 1);
    var r := Made(names, a, b) + (if names[a] != names[b] then {PairName(names[a], names[b])} else {});
    forall k | k in l
      ensures k in r
    {
      var x, y :| 0 <= x < |names| && 0 <= y < |names| && (x < a || (x == a && y < b + 1)) && names[x] != names[y]
        && k == PairName(names[x], names[y]);
      if !(x == a && y == b) {
        assert k in Made(names, a, b);
      }
    }
    forall k | k in r
      ensures k in l
    {
      if k in Made(names, a, b) {
        var x, y :| 0 <= x < |names| && 0 <= y < |names| && (x < a || (x == a && y < b)) && names[x] != names[y]
          && k == PairName(names[x], names[y]);
        assert x < a || (x == a && y < b + 1);
      } else {
        assert names[a] != names[b] && k == PairName(names[a], names[b]);
      }
    }
  }

  lemma MadeRow(names: seq<string>, a: nat)
    requires a < |names|
    ensures Made(names, a, |names|) == Made(names, a + 1, 0)
  {
    forall k | k in Made(names, a + 1, 0)
      ensures k in Made(names, a, |names|)
    {
      var x, y :| 0 <= x < |names| && 0 <= y < |names| && (x < a + 1 || (x == a + 1 && y < 0)) && names[x] != names[y]
        && k == PairName(names[x], names[y]);
      assert x < a || (x == a && y < |names|);
    }
  }

  lemma MadeAll(names: seq<string>)
    ensures Made(names, |names|, 0) == PairKeys(names)
  {
    forall k | k in PairKeys(names)
      ensures k in Made(names, |names|, 0)
    {
      var x, y :| 0 <= x < |names| && 0 <= y < |names| && names[x] != names[y] && k == PairName(names[x], names[y]);
      assert x < |names|;
    }
  }

  /** `_transitionsMap`, reduced to each entry's per-tick list (an entry's
      `source` and `target` records only feed the drawing). */
  class TransitionBook {
    const names: seq<string>
    var lists: map<string, seq<int>>

    constructor (names: seq<string>)
      ensures this.names == names && lists == Fresh(names)
    {
      this.names := names;
      new;
      Rebuild();
    }

    /** `_createTransitionsMap`: both loops run over the state names and skip
        the self-pair; every entry starts with an empty list. */
    method Rebuild()
      modifies this
      ensures lists == Fresh(names)
    {
      lists := map[];
      var a := 0;
      while a < |names|
        invariant 0 <= a <= |names|
        invariant lists.Keys == Made(names, a, 0)
        invariant forall k :: k in lists ==> lists[k] == []
      {
        var b := 0;
        while b < |names|
          invariant 0 <= b <= |names|
          invariant lists.Keys == Made(names, a, b)
          invariant forall k :: k in lists ==> lists[k] == []
        {
          if names[a] != names[b] {
            lists := lists[PairName(names[a], names[b]) := []];
          }
          MadeStep(names, a, b);
          b := b + 1;
        }
        MadeRow(names, a);
        a := a + 1;
      }
      MadeAll(names);
    }

    /** `_tickTransitions`: count the tick's events per key, then append to
        every entry its count, or 0. */
    method Record(events: seq<Event>)
      modifies this
      ensures lists == RecordSpec(old(lists), events)
    {
      var inTick: map<string, int> := map[];
      var i := 0;
      while i < |events|
        invariant 0 <= i <= |events|
        invariant forall k :: Lookup0(inTick, k) == Count(events[..i], k)
      {
        var key := EventKey(events[i]);
        inTick := inTick[key := Lookup0(inTick, key) + 1];
        assert events[..i + 1][..i] == events[..i];
        i := i + 1;
      }
      assert events[..|events|] == events;
      ghost var before := lists;
      var pending := lists.Keys;
      while pending != {}
        invariant pending <= before.Keys && lists.Keys == before.Keys
        invariant forall k :: k in before ==> lists[k] == if k in pending then before[k] else before[k] + [Count(events, k)]
        decreases pending
      {
        var k :| k in pending;
        lists := lists[k := lists[k] + [Lookup0(inTick, k)]];
        pending := pending - {k};
      }
    }
  }
}
