/** The three diagram views the controller drives (src/views/statesView.js,
    views/edgesView.js, views/agentsView.js), reduced to what they keep
    besides their drawing: the state table and, for the states and edges
    views, the transition-frequency book. */
module Views {
  import opened Wrappers
  import opened Data
  import opened StateCounts
  import opened TransitionFrequencies

  /** What `tick` and `reset` of the states and edges views act on: the
      state counts by name and the per-pair transition lists. */
  datatype Diagram = Diagram(counts: map<string, int>, lists: map<string, seq<int>>)

  /** A diagram after a call, and whether the call threw. */
  datatype Ticked = Ticked(diagram: Diagram, threw: bool)

  /** The seven state names contain no colon, so their pair keys never clash. */
  lemma StateNamesColonFree()
    ensures AllColonFree(StateNames())
  {
    var n := StateNames();
    assert n == ["townHealthyPersons", "townIncPerPersons", "townIncPerPersons2", "townAntTrPersons",
                 "townAntTrPersons2", "hospAntTrPersons", "healthyHospPeople"];
  }

  /** `tick(n)` of the states and edges views. Slot n's events are first
      counted into the lists and then moved through the state counts. Past
      the last slot, `events` is undefined and the first `forEach` throws
      before anything changes; an event naming a state outside the table
      throws in the count loop, after the lists have grown. */
  function AfterTick(ticks: seq<seq<Event>>, d: Diagram, n: nat): (r: Ticked)
    ensures n >= |ticks| ==> r.threw && r.diagram == d
    ensures n < |ticks| ==> (r.threw <==> exists i :: 0 <= i < |ticks[n]| && !Known(d.counts.Keys, ticks[n][i]))
    ensures r.diagram.lists.Keys == d.lists.Keys && r.diagram.counts.Keys == d.counts.Keys
  {
    if n >= |ticks| then Ticked(d, true)
    else
      var a := ApplyEvents(d.counts, ticks[n]);
      ApplyEventsThrowsIff(d.counts, ticks[n]);
      Ticked(Diagram(a.counts, RecordSpec(d.lists, ticks[n])), a.threw)
  }

  /** `reset()` of the states and edges views: a fresh transition map; the
      state counts stay as they are. */
  function AfterReset(names: seq<string>, d: Diagram): (r: Diagram)
    ensures r.counts == d.counts
    ensures forall k :: k in r.lists <==> k in PairKeys(names)
    ensures forall k :: k in r.lists ==> r.lists[k] == []
  {
    Diagram(d.counts, Fresh(names))
  }

  /** Ticks 0 .. n-1 in order, as the controller issues them after a reset,
      for a run that stops at the first tick that throws. The controller
      itself does not stop there: its timer fires again and re-issues the
      same tick, which this function does not follow. */
  function Run(ticks: seq<seq<Event>>, d: Diagram, n: nat): Ticked
  {
    if n == 0 then Ticked(d, false)
    else
      var p := Run(ticks, d, n - 1);
      if p.threw then p else AfterTick(ticks, p.diagram, n - 1)
  }

  predicate AllKnown(states: set<string>, ticks: seq<seq<Event>>, n: nat)
  {
    forall t, i :: 0 <= t < n && t < |ticks| && 0 <= i < |ticks[t]| ==> Known(states, ticks[t][i])
  }

  /** After a reset and n ticks over slots whose events all name table
      states, nothing has thrown and every transition list holds exactly the
      per-slot counts of slots 0 .. n-1; the states stay the same. */
  lemma {:induction false} RunFromReset(names: seq<string>, ticks: seq<seq<Event>>, d: Diagram, n: nat)
    requires n <= |ticks| && AllKnown(d.counts.Keys, ticks, n)
    ensures !Run(ticks, AfterReset(names, d), n).threw
    ensures Run(ticks, AfterReset(names, d), n).diagram.lists == Recorded(PairKeys(names), ticks[..n])
    ensures Run(ticks, AfterReset(names, d), n).diagram.counts.Keys == d.counts.Keys
  {
    var start := AfterReset(names, d);
    if n == 0 {
      assert start.lists == Recorded(PairKeys(names), ticks[..0]);
    } else {
      RunFromReset(names, ticks, d, n - 1);
      var p := Run(ticks, start, n - 1);
      RecordExtends(PairKeys(names), ticks[..n - 1], ticks[n - 1]);
      assert ticks[..n - 1] + [ticks[n - 1]] == ticks[..n];
      var slot := ticks[n - 1];
      forall i | 0 <= i < |slot|
        ensures Known(p.diagram.counts.Keys, slot[i])
      {
        assert Known(d.counts.Keys, slot[i]);
      }
    }
  }

  /** Counts that start non-negative stay so through any run. */
  lemma {:induction false} RunNonNegative(ticks: seq<seq<Event>>, d: Diagram, n: nat)
    requires NonNegative(d.counts)
    ensures NonNegative(Run(ticks, d, n).diagram.counts)
  {
    if n > 0 {
      RunNonNegative(ticks, d, n - 1);
      var p := Run(ticks, d, n - 1);
      if !p.threw && n - 1 < |ticks| {
        ApplyEventsNonNegative(p.diagram.counts, ticks[n - 1]);
      }
    }
  }

  /** Reset rebuilds the lists but does not restore the counts: replaying
      the same first slot after a reset gives the same lists as the first
      time, while the counts move a second time. */
  lemma ResetDoesNotRestoreCounts()
    ensures var names := ["a", "b"];
            var ticks := [[Event("0", "a", "b")]];
            var first := AfterTick(ticks, Diagram(map["a" := 1, "b" := 0], Fresh(names)), 0).diagram;
            var again := AfterTick(ticks, AfterReset(names, first), 0).diagram;
            && first.counts == map["a" := 0, "b" := 1]
            && again.lists == first.lists
            && again.counts == map["a" := 0, "b" := 2]
  {
    var e := Event("0", "a", "b");
    var c0 := map["a" := 1, "b" := 0];
    assert ApplyEvent(c0, e).counts == map["a" := 0, "b" := 1];
    assert ApplyEvents(c0, [e]) == ApplyEvent(c0, e);
    var c1 := map["a" := 0, "b" := 1];
    assert ApplyEvent(c1, e).counts == map["a" := 0, "b" := 2];
    assert ApplyEvents(c1, [e]) == ApplyEvent(c1, e);
  }

  /** `tick(n)` of the agents view: slot n's events move through the state
      counts (the agent dots are drawing only). Past the last slot the
      agent selection's `data(undefined)` yields an array without `enter`,
      which throws before anything changes. */
  function AgentsAfterTick(ticks: seq<seq<Event>>, counts: map<string, int>, n: nat): (r: Applied)
    ensures n >= |ticks| ==> r.threw && r.counts == counts
    ensures n < |ticks| ==> (r.threw <==> exists i :: 0 <= i < |ticks[n]| && !Known(counts.Keys, ticks[n][i]))
    ensures r.counts.Keys == counts.Keys
  {
    if n >= |ticks| then Applied(counts, true)
    else
      ApplyEventsThrowsIff(counts, ticks[n]);
      ApplyEvents(counts, ticks[n])
  }

  /** In the agents view, a slot whose events all name table states never
      lowers the total count and keeps counts non-negative. */
  lemma AgentsTickTotal(ticks: seq<seq<Event>>, counts: map<string, int>, n: nat)
    requires n < |ticks| && NonNegative(counts) && counts.Keys == set i | 0 <= i < |StateNames()| :: StateNames()[i]
    requires forall i :: 0 <= i < |ticks[n]| ==> Known(counts.Keys, ticks[n][i])
    ensures !AgentsAfterTick(ticks, counts, n).threw
    ensures NonNegative(AgentsAfterTick(ticks, counts, n).counts)
    ensures Total(StateNames(), AgentsAfterTick(ticks, counts, n).counts) >= Total(StateNames(), counts)
  {
    StateNamesDistinct();
    assert forall k :: k in counts <==> k in StateNames();
    ApplyEventsTotal(StateNames(), counts, ticks[n]);
    ApplyEventsNonNegative(counts, ticks[n]);
  }

  /** The view's state table built from the abundance table. */
  method NewTable(infos: seq<StateInfo>) returns (table: StateTable)
    requires Names(infos) == StateNames() && DistinctNames(infos)
    ensures fresh(table.Repr) && table.Valid()
    ensures table.RecordNames() == StateNames() && table.Counts() == CountsOf(infos)
  {
    table := new StateTable(infos);
  }

  /** `StatesView`: the state table, the transition book and the event
      slots. The three animation flags only choose what is drawn. */
  class StatesView {
    const table: StateTable
    const book: TransitionBook
    const ticks: seq<seq<Event>>
    const animateTransitionFrequency: bool
    const animateAgents: bool
    const animateStates: bool

    ghost predicate Valid()
    {
      table.Valid() && table.RecordNames() == StateNames() && book.names == StateNames()
    }

    function State(): Diagram
      reads table.Repr, book
      requires table.Valid()
    {
      Diagram(table.Counts(), book.lists)
    }

    constructor (infos: seq<StateInfo>, ticks: seq<seq<Event>>,
                 animateTransitionFrequency: bool, animateAgents: bool, animateStates: bool)
      requires Names(infos) == StateNames() && DistinctNames(infos)
      ensures Valid() && fresh(table.Repr) && fresh(book) && this.ticks == ticks
      ensures State() == Diagram(CountsOf(infos), Fresh(StateNames()))
    {
      var t := NewTable(infos);
      table := t;
      book := new TransitionBook(t.RecordNames());
      this.ticks := ticks;
      this.animateTransitionFrequency := animateTransitionFrequency;
      this.animateAgents := animateAgents;
      this.animateStates := animateStates;
    }

    /** `new StatesView({...})`: throws while building the state table when
        the abundance table has no row or lacks a state column. */
    static method Create(abundance: seq<Row<int>>, ticks: seq<seq<Event>>,
                         animateTransitionFrequency: bool, animateAgents: bool, animateStates: bool)
      returns (r: Result<StatesView, ConvertError>)
      ensures r.Err? <==> ConvertAbundance(abundance).Err?
      ensures r.Err? ==> r.error == ConvertAbundance(abundance).error
      ensures r.Ok? ==> fresh(r.value) && r.value.Valid() && r.value.ticks == ticks
      ensures r.Ok? ==> r.value.State() == Diagram(CountsOf(ConvertAbundance(abundance).value), Fresh(StateNames()))
    {
      var infos := ConvertAbundance(abundance);
      if infos.Err? {
        return Err(infos.error);
      }
      var v := new StatesView(infos.value, ticks, animateTransitionFrequency, animateAgents, animateStates);
      r := Ok(v);
    }

    /** `tick(n)`: the lists and then the counts, whatever the flags say. */
    method Tick(n: nat) returns (ok: bool)
      requires Valid()
      modifies table.Repr, book
      ensures State() == AfterTick(ticks, old(State()), n).diagram
      ensures ok == !AfterTick(ticks, old(State()), n).threw
    {
      if n >= |ticks| {
        return false;
      }
      book.Record(ticks[n]);
      ok := table.Apply(ticks[n]);
    }

    /** `reset()`: rebuilds the transition map only. */
    method Reset()
      requires Valid()
      modifies book
      ensures State() == AfterReset(StateNames(), old(State()))
    {
      book.Rebuild();
    }
  }

  /** `EdgesView`: the same bookkeeping as the states view, always drawing
      the edges. */
  class EdgesView {
    const table: StateTable
    const book: TransitionBook
    const ticks: seq<seq<Event>>

    ghost predicate Valid()
    {
      table.Valid() && table.RecordNames() == StateNames() && book.names == StateNames()
    }

    function State(): Diagram
      reads table.Repr, book
      requires table.Valid()
    {
      Diagram(table.Counts(), book.lists)
    }

    constructor (infos: seq<StateInfo>, ticks: seq<seq<Event>>)
      requires Names(infos) == StateNames() && DistinctNames(infos)
      ensures Valid() && fresh(table.Repr) && fresh(book) && this.ticks == ticks
      ensures State() == Diagram(CountsOf(infos), Fresh(StateNames()))
    {
      var t := NewTable(infos);
      table := t;
      book := new TransitionBook(t.RecordNames());
      this.ticks := ticks;
    }

    /** `new EdgesView({...})`, which throws as the states view's does. */
    static method Create(abundance: seq<Row<int>>, ticks: seq<seq<Event>>) returns (r: Result<EdgesView, ConvertError>)
      ensures r.Err? <==> ConvertAbundance(abundance).Err?
      ensures r.Err? ==> r.error == ConvertAbundance(abundance).error
      ensures r.Ok? ==> fresh(r.value) && r.value.Valid() && r.value.ticks == ticks
      ensures r.Ok? ==> r.value.State() == Diagram(CountsOf(ConvertAbundance(abundance).value), Fresh(StateNames()))
    {
      var infos := ConvertAbundance(abundance);
      if infos.Err? {
        return Err(infos.error);
      }
      var v := new EdgesView(infos.value, ticks);
      r := Ok(v);
    }

    /** `tick(n)`: list update, edge redraw, then the counts. */
    method Tick(n: nat) returns (ok: bool)
      requires Valid()
      modifies table.Repr, book
      ensures State() == AfterTick(ticks, old(State()), n).diagram
      ensures ok == !AfterTick(ticks, old(State()), n).threw
    {
      if n >= |ticks| {
        return false;
      }
      book.Record(ticks[n]);
      ok := table.Apply(ticks[n]);
    }

    /** `reset()`: rebuilds the transition map only. */
    method Reset()
      requires Valid()
      modifies book
      ensures State() == AfterReset(StateNames(), old(State()))
    {
      book.Rebuild();
    }
  }

  /** `AgentsView`: the state table and the event slots; it has no `reset`. */
  class AgentsView {
    const table: StateTable
    const ticks: seq<seq<Event>>

    ghost predicate Valid()
    {
      table.Valid() && table.RecordNames() == StateNames()
    }

    constructor (infos: seq<StateInfo>, ticks: seq<seq<Event>>)
      requires Names(infos) == StateNames() && DistinctNames(infos)
      ensures Valid() && fresh(table.Repr) && this.ticks == ticks
      ensures table.Counts() == CountsOf(infos)
    {
      var t := NewTable(infos);
      table := t;
      this.ticks := ticks;
    }

    /** `new AgentsView({...})`, which throws as the states view's does. */
    static method Create(abundance: seq<Row<int>>, ticks: seq<seq<Event>>) returns (r: Result<AgentsView, ConvertError>)
      ensures r.Err? <==> ConvertAbundance(abundance).Err?
      ensures r.Err? ==> r.error == ConvertAbundance(abundance).error
      ensures r.Ok? ==> fresh(r.value) && r.value.Valid() && r.value.ticks == ticks
      ensures r.Ok? ==> r.value.table.Counts() == CountsOf(ConvertAbundance(abundance).value)
    {
      var infos := ConvertAbundance(abundance);
      if infos.Err? {
        return Err(infos.error);
      }
      var v := new AgentsView(infos.value, ticks);
      r := Ok(v);
    }

    /** `tick(n)`: the events of slot n move through the counts. */
    method Tick(n: nat) returns (ok: bool)
      requires Valid()
      modifies table.Repr
      ensures table.Counts() == AgentsAfterTick(ticks, old(table.Counts()), n).counts
      ensures ok == !AgentsAfterTick(ticks, old(table.Counts()), n).threw
    {
      if n >= |ticks| {
        return false;
      }
      ok := table.Apply(ticks[n]);
    }
  }
}
