/** The state table the three diagram views keep (src/views/statesView.js,
    views/edgesView.js, views/agentsView.js): seven state records, listed in
    a fixed order and also reachable by name through a map that shares the
    same record objects, and the count loop that moves one unit per event. */
module StateCounts {
  import opened Wrappers
  import opened Data

  /** The seven states: the abundance column each count is read from, and
      the state's name in the transition log, in the order of the table. */
  const StateColumns: seq<(string, string)> := [
    ("HealthyPersonsInTown", "townHealthyPersons"),
    ("IncPeriodPersonsInTown", "townIncPerPersons"),
    ("IncPeriodPersonsInTown2", "townIncPerPersons2"),
    ("AntibioticTreatedPersonsInTown", "townAntTrPersons"),
    ("AntibioticTreatedPersonsInTown2", "townAntTrPersons2"),
    ("InfectedPersonsInHospital", "hospAntTrPersons"),
    ("HealthyPersonsInHospital", "healthyHospPeople")]

  /** A state's name and count (its drawing position is not modelled). */
  datatype StateInfo = StateInfo(name: string, count: int)

  /** Why building the state table throws (both are TypeErrors). */
  datatype ConvertError =
    | NoAbundanceRow           // `abundance[0]` is undefined and is indexed
    | MissingColumn(column: string)   // `count = 0` assigns to a constant

  predicate DistinctNames(infos: seq<StateInfo>)
  {
    forall i, j :: 0 <= i < j < |infos| ==> infos[i].name != infos[j].name
  }

  function Names(infos: seq<StateInfo>): seq<string>
  {
    seq(|infos|, i requires 0 <= i < |infos| => infos[i].name)
  }

  /** A state table's counts by name. */
  function CountsOf(infos: seq<StateInfo>): map<string, int>
    requires DistinctNames(infos)
  {
    map i | 0 <= i < |infos| :: infos[i].name := infos[i].count
  }

  /** The table's state names, in order. */
  function StateNames(): seq<string>
  {
    seq(|StateColumns|, i requires 0 <= i < |StateColumns| => StateColumns[i].1)
  }

  lemma StateNamesDistinct()
    ensures |StateNames()| == 7 && Distinct(StateNames())
  {
  }

  /** A table with the seven state names has no name twice. */
  lemma StateInfosDistinct(infos: seq<StateInfo>)
    requires Names(infos) == StateNames()
    ensures DistinctNames(infos)
  {
    StateNamesDistinct();
    forall i, j | 0 <= i < j < |infos|
      ensures infos[i].name != infos[j].name
    {
      assert Names(infos)[i] == infos[i].name && Names(infos)[j] == infos[j].name;
    }
  }

  /** The `_.map` over the state columns, as written: a column missing from
      the first row makes the `count = 0` fallback assign to a constant,
      which throws. */
  function ConvertColumns(first: Row<int>, cols: seq<(string, string)>): (r: Result<seq<StateInfo>, ConvertError>)
    ensures r.Ok? <==> forall i :: 0 <= i < |cols| ==> cols[i].0 in first.cells
    ensures r.Ok? ==> |r.value| == |cols|
    ensures r.Ok? ==> forall i :: 0 <= i < |cols| ==> r.value[i] == StateInfo(cols[i].1, first.cells[cols[i].0])
    ensures r.Err? ==> exists i :: 0 <= i < |cols| && r.error == MissingColumn(cols[i].0) && cols[i].0 !in first.cells
  {
    if cols == [] then Ok([])
    else if cols[0].0 !in first.cells then Err(MissingColumn(cols[0].0))
    else
      var rest := ConvertColumns(first, cols[1..]);
      if rest.Err? then
        var i :| 0 <= i < |cols[1..]| && rest.error == MissingColumn(cols[1..][i].0) && cols[1..][i].0 !in first.cells;
        assert cols[i + 1] == cols[1..][i];
        rest
      else Ok([StateInfo(cols[0].1, first.cells[cols[0].0])] + rest.value)
  }

  /** The state table of `_convertAbundance` (names and counts): each state's
      count is its column in the first abundance row. It throws when there
      is no row or when a column is missing. */
  function ConvertAbundance(abundance: seq<Row<int>>): (r: Result<seq<StateInfo>, ConvertError>)
    ensures r.Ok? <==> abundance != [] && forall i :: 0 <= i < |StateColumns| ==> StateColumns[i].0 in abundance[0].cells
    ensures r.Ok? ==> Names(r.value) == StateNames() && DistinctNames(r.value)
    ensures r.Ok? ==> forall i :: 0 <= i < |StateColumns| ==> r.value[i].count == abundance[0].cells[StateColumns[i].0]
  {
    var t := if abundance == [] then Err(NoAbundanceRow) else ConvertColumns(abundance[0], StateColumns);
    if t.Ok? then StateInfosDistinct(t.value); t else t
  }

  /** `_convertAbundance` as its warning says it was meant to work: a
      missing column counts 0 instead of throwing. */
  function ConvertAbundanceDefaulting(abundance: seq<Row<int>>): (r: Result<seq<StateInfo>, ConvertError>)
    ensures r.Ok? <==> abundance != []
    ensures r.Ok? ==> Names(r.value) == StateNames()
    ensures r.Ok? ==> forall i :: 0 <= i < |StateColumns| ==>
        r.value[i].count == (if StateColumns[i].0 in abundance[0].cells then abundance[0].cells[StateColumns[i].0] else 0)
  {
    if abundance == [] then Err(NoAbundanceRow)
    else
      var first := abundance[0];
      Ok(seq(|StateColumns|, i requires 0 <= i < |StateColumns| =>
        StateInfo(StateColumns[i].1, if StateColumns[i].0 in first.cells then first.cells[StateColumns[i].0] else 0)))
  }

  /** Where the table as written does not throw, the intended one gives the same table. */
  lemma {:induction false} DefaultingAgreesWhenComplete(abundance: seq<Row<int>>)
    requires ConvertAbundance(abundance).Ok?
    ensures ConvertAbundanceDefaulting(abundance) == ConvertAbundance(abundance)
  {
    var a := ConvertAbundance(abundance).value;
    var d := ConvertAbundanceDefaulting(abundance).value;
    assert |a| == |d| == |StateColumns|;
    forall i | 0 <= i < |a|
      ensures a[i] == d[i]
    {
      assert Names(a)[i] == StateNames()[i] == Names(d)[i];
      assert StateColumns[i].0 in abundance[0].cells;
      assert a[i].count == d[i].count;
    }
    assert a == d;
  }

  /** With a row lacking a column, the table as written throws where the
      intended one counts 0. */
  lemma MissingColumnThrows()
    ensures var row := Row(["HealthyPersonsInTown"], map["HealthyPersonsInTown" := 10]);
            && ConvertAbundance([row]) == Err(MissingColumn("IncPeriodPersonsInTown"))
            && ConvertAbundanceDefaulting([row]).Ok?
            && ConvertAbundanceDefaulting([row]).value[0] == StateInfo("townHealthyPersons", 10)
            && ConvertAbundanceDefaulting([row]).value[1] == StateInfo("townIncPerPersons", 0)
  {
  }

  /** `Math.max(0, x)`. */
  function Max0(x: int): int
  {
    if x > 0 then x else 0
  }

  /** The counts after the count loop, and whether the loop threw. */
  datatype Applied = Applied(counts: map<string, int>, threw: bool)

  /** One turn of the count loop: the old state's count becomes
      `max(0, c - 1)`, then the new state's `max(0, c + 1)`. Looking up an
      unknown state throws: before any change when it is the old state,
      after the decrement when it is the new one. */
  function ApplyEvent(counts: map<string, int>, e: Event): (r: Applied)
    ensures r.counts.Keys == counts.Keys
  {
    if e.oldState !in counts then Applied(counts, true)
    else
      var c := counts[e.oldState := Max0(counts[e.oldState] - 1)];
      if e.newState !in c then Applied(c, true)
      else Applied(c[e.newState := Max0(c[e.newState] + 1)], false)
  }

  /** The count loop over one tick's events, in order, stopping at the
      first that throws. */
  function ApplyEvents(counts: map<string, int>, events: seq<Event>): (r: Applied)
    ensures r.counts.Keys == counts.Keys
    decreases |events|
  {
    if events == [] then Applied(counts, false)
    else
      var a := ApplyEvent(counts, events[0]);
      if a.threw then a else ApplyEvents(a.counts, events[1..])
  }

  predicate Known(states: set<string>, e: Event)
  {
    e.oldState in states && e.newState in states
  }

  /** The loop throws exactly when some event names a state not in the table. */
  lemma {:induction false} ApplyEventsThrowsIff(counts: map<string, int>, events: seq<Event>)
    ensures ApplyEvents(counts, events).threw <==> exists i :: 0 <= i < |events| && !Known(counts.Keys, events[i])
    decreases |events|
  {
    if events != [] {
      var a := ApplyEvent(counts, events[0]);
      if !a.threw {
        ApplyEventsThrowsIff(a.counts, events[1..]);
        if exists i :: 0 <= i < |events[1..]| && !Known(counts.Keys, events[1..][i]) {
          var i :| 0 <= i < |events[1..]| && !Known(counts.Keys, events[1..][i]);
          assert events[i + 1] == events[1..][i];
        }
        if exists i :: 0 <= i < |events| && !Known(counts.Keys, events[i]) {
          var i :| 0 <= i < |events| && !Known(counts.Keys, events[i]);
          assert i > 0 && events[1..][i - 1] == events[i];
        }
      }
    }
  }

  predicate NonNegative(counts: map<string, int>)
  {
    forall k :: k in counts ==> counts[k] >= 0
  }

  /** Counts that start non-negative stay non-negative, thrown or not. */
  lemma {:induction false} ApplyEventsNonNegative(counts: map<string, int>, events: seq<Event>)
    requires NonNegative(counts)
    ensures NonNegative(ApplyEvents(counts, events).counts)
    decreases |events|
  {
    if events != [] {
      var a := ApplyEvent(counts, events[0]);
      if !a.threw {
        ApplyEventsNonNegative(a.counts, events[1..]);
      }
    }
  }

  /** The sum of the counts of `names`. */
  function Total(names: seq<string>, counts: map<string, int>): int
  {
    if names == [] then 0
    else Total(names[..|names| - 1], counts) + (if names[|names| - 1] in counts then counts[names[|names| - 1]] else 0)
  }

  lemma {:induction false} TotalUpdate(names: seq<string>, counts: map<string, int>, k: string, v: int)
    requires Distinct(names) && k in counts
    ensures Total(names, counts[k := v]) == Total(names, counts) + (if k in names then v - counts[k] else 0)
  {
    if names != [] {
      var init := names[..|names| - 1];
      assert Distinct(init);
      TotalUpdate(init, counts, k, v);
      assert k in names <==> k in init || k == names[|names| - 1];
      if k == names[|names| - 1] {
        assert k !in init;
      }
    }
  }

  /** An event between known states never lowers the total of the counts;
      it keeps it when the old state's count was positive. */
  lemma {:induction false} ApplyEventTotal(names: seq<string>, counts: map<string, int>, e: Event)
    requires Distinct(names) && Known(counts.Keys, e) && e.oldState in names && e.newState in names
    ensures !ApplyEvent(counts, e).threw
    ensures Total(names, ApplyEvent(counts, e).counts) >= Total(names, counts)
    ensures NonNegative(counts) && counts[e.oldState] > 0 ==> Total(names, ApplyEvent(counts, e).counts) == Total(names, counts)
  {
    var c := counts[e.oldState := Max0(counts[e.oldState] - 1)];
    TotalUpdate(names, counts, e.oldState, Max0(counts[e.oldState] - 1));
    TotalUpdate(names, c, e.newState, Max0(c[e.newState] + 1));
  }

  /** A tick's events that all name states of the table never lower the
      total of the counts. */
  lemma {:induction false} ApplyEventsTotal(names: seq<string>, counts: map<string, int>, events: seq<Event>)
    requires Distinct(names) && (forall k :: k in counts <==> k in names)
    requires forall i :: 0 <= i < |events| ==> Known(counts.Keys, events[i])
    ensures !ApplyEvents(counts, events).threw
    ensures Total(names, ApplyEvents(counts, events).counts) >= Total(names, counts)
    decreases |events|
  {
    if events != [] {
      ApplyEventTotal(names, counts, events[0]);
      var a := ApplyEvent(counts, events[0]);
      assert forall i :: 0 <= i < |events[1..]| ==> events[1..][i] == events[i + 1];
      ApplyEventsTotal(names, a.counts, events[1..]);
      assert ApplyEvents(counts, events) == ApplyEvents(a.counts, events[1..]);
      assert Total(names, a.counts) >= Total(names, counts);
    }
  }

  /** The total can fall only on the path that throws: an event to an unknown
      state after a positive old count leaves that count decremented. */
  lemma PartialEventLowersTotal()
    ensures var counts := map["townHealthyPersons" := 5, "townIncPerPersons" := 2];
            var e := Event("0", "townHealthyPersons", "hospital");
            && ApplyEvent(counts, e) == Applied(counts["townHealthyPersons" := 4], true)
            && Total(["townHealthyPersons", "townIncPerPersons"], ApplyEvent(counts, e).counts)
               == Total(["townHealthyPersons", "townIncPerPersons"], counts) - 1
  {
    var counts := map["townHealthyPersons" := 5, "townIncPerPersons" := 2];
    var names := ["townHealthyPersons", "townIncPerPersons"];
    assert names[..1] == ["townHealthyPersons"] && names[..1][..0] == [];
    assert Total(names, counts) == 7;
    var after := counts["townHealthyPersons" := 4];
    assert after["townHealthyPersons"] == 4 && after["townIncPerPersons"] == 2;
    assert Total(names[..1], after) == 4;
    assert Total(names, after) == 6;
  }

  /** A state record `{name, count}`, an object both the list and the map refer to. */
  class StateRecord {
    const name: string
    var count: int

    constructor (name: string, count: int)
      ensures this.name == name && this.count == count
    {
      this.name := name;
      this.count := count;
    }
  }

  /** The records of a table, made one per state, in order, with the map
      from each name to its record. */
  method BuildRecords(infos: seq<StateInfo>) returns (records: seq<StateRecord>, index: map<string, StateRecord>)
    requires DistinctNames(infos)
    ensures |records| == |infos|
    ensures forall j :: 0 <= j < |infos| ==> records[j].name == infos[j].name && records[j].count == infos[j].count
    ensures forall j :: 0 <= j < |infos| ==> fresh(records[j])
    ensures fresh(index.Values)
    ensures forall k :: k in index <==> exists j :: 0 <= j < |infos| && infos[j].name == k
    ensures forall j :: 0 <= j < |infos| ==> infos[j].name in index && index[infos[j].name] == records[j]
  {
    records := [];
    index := map[];
    var i := 0;
    while i < |infos|
      invariant 0 <= i <= |infos| && |records| == i
      invariant forall j :: 0 <= j < i ==> records[j].name == infos[j].name && records[j].count == infos[j].count
      invariant forall j :: 0 <= j < i ==> fresh(records[j])
      invariant fresh(index.Values)
      invariant forall k :: k in index <==> exists j :: 0 <= j < i && infos[j].name == k
      invariant forall j :: 0 <= j < i ==> infos[j].name in index && index[infos[j].name] == records[j]
    {
      assert forall j :: 0 <= j < i ==> infos[j].name != infos[i].name;
      var r := new StateRecord(infos[i].name, infos[i].count);
      records := records + [r];
      index := index[infos[i].name := r];
      i := i + 1;
    }
  }

  /** The list and the map hold the same records: names are distinct, each
      listed record is reachable by its name, and each name in the map leads
      to a listed record of that name. */
  ghost predicate Linked(states: seq<StateRecord>, byName: map<string, StateRecord>)
  {
    && (forall i, j :: 0 <= i < j < |states| ==> states[i].name != states[j].name)
    && (forall i :: 0 <= i < |states| ==> states[i].name in byName && byName[states[i].name] == states[i])
    && (forall k :: k in byName ==> byName[k].name == k && exists i :: 0 <= i < |states| && states[i].name == k)
  }

  /** The records `BuildRecords` makes form a linked table whose counts are
      those of the infos. */
  lemma BuiltLinked(infos: seq<StateInfo>, records: seq<StateRecord>, index: map<string, StateRecord>)
    requires DistinctNames(infos)
    requires |records| == |infos|
    requires forall j :: 0 <= j < |infos| ==> records[j].name == infos[j].name && records[j].count == infos[j].count
    requires forall k :: k in index <==> exists j :: 0 <= j < |infos| && infos[j].name == k
    requires forall j :: 0 <= j < |infos| ==> infos[j].name in index && index[infos[j].name] == records[j]
    ensures Linked(records, index)
    ensures CountsIn(index) == CountsOf(infos)
  {
    forall k | k in index
      ensures index[k].name == k && exists i :: 0 <= i < |records| && records[i].name == k
      ensures k in CountsOf(infos) && index[k].count == CountsOf(infos)[k]
    {
      var j :| 0 <= j < |infos| && infos[j].name == k;
      assert records[j].name == k;
    }
    assert CountsIn(index).Keys == CountsOf(infos).Keys;
  }

  /** The count of each record in a name map. */
  function CountsIn(byName: map<string, StateRecord>): map<string, int>
    reads byName.Values
  {
    map k | k in byName :: byName[k].count
  }

  /** `_states` (the records in table order) and `_statesMap` (the same
      records by name, `_.object(names, states)`). */
  class StateTable {
    const states: seq<StateRecord>
    const byName: map<string, StateRecord>
    ghost const Repr: set<StateRecord>

    ghost predicate Valid()
    {
      Repr == byName.Values && Linked(states, byName)
    }

    function RecordNames(): seq<string>
    {
      seq(|states|, i requires 0 <= i < |states| => states[i].name)
    }

    /** Each state's count, by name. */
    function Counts(): map<string, int>
      reads Repr
      requires Valid()
    {
      CountsIn(byName)
    }

    /** The counts in table order, as the list shows them: an update made
        through the map is seen in the list. */
    function Listed(): (r: seq<int>)
      reads Repr
      requires Valid()
      ensures |r| == |states| && forall i :: 0 <= i < |states| ==> r[i] == Counts()[RecordNames()[i]]
    {
      seq(|states|, i reads Repr requires 0 <= i < |states| => states[i].count)
    }

    constructor (infos: seq<StateInfo>)
      requires DistinctNames(infos)
      ensures Valid() && fresh(Repr)
      ensures RecordNames() == Names(infos)
      ensures forall i :: 0 <= i < |infos| ==> infos[i].name in byName
      ensures forall i :: 0 <= i < |infos| ==> Counts()[infos[i].name] == infos[i].count
      ensures Counts() == CountsOf(infos)
    {
      var records, index := BuildRecords(infos);
      states := records;
      byName := index;
      Repr := index.Values;
      new;
      BuiltLinked(infos, states, byName);
      assert RecordNames() == Names(infos);
      forall j | 0 <= j < |infos|
        ensures infos[j].name in byName && Counts()[infos[j].name] == infos[j].count
      {
        assert byName[infos[j].name] == states[j];
      }
    }

    /** Assigns a state's `count` through the map. */
    method SetCount(k: string, v: int)
      requires Valid() && k in byName
      modifies byName[k]
      ensures Counts() == old(Counts())[k := v]
    {
      byName[k].count := v;
    }

    /** One turn of the count loop of `_animateStates`. */
    method ApplyOne(e: Event) returns (ok: bool)
      requires Valid()
      modifies Repr
      ensures Counts() == ApplyEvent(old(Counts()), e).counts
      ensures ok == !ApplyEvent(old(Counts()), e).threw
    {
      if e.oldState !in byName {
        return false;
      }
      SetCount(e.oldState, Max0(byName[e.oldState].count - 1));
      if e.newState !in byName {
        return false;
      }
      SetCount(e.newState, Max0(byName[e.newState].count + 1));
      ok := true;
    }

    /** The count loop of `_animateStates` over one tick's events: it stops
        at the first event that throws. */
    method Apply(events: seq<Event>) returns (ok: bool)
      requires Valid()
      modifies Repr
      ensures Counts() == ApplyEvents(old(Counts()), events).counts
      ensures ok == !ApplyEvents(old(Counts()), events).threw
    {
      ghost var start := Counts();
      var i := 0;
      while i < |events|
        invariant 0 <= i <= |events|
        invariant ApplyEvents(Counts(), events[i..]) == ApplyEvents(start, events)
      {
        assert events[i..][0] == events[i] && events[i..][1..] == events[i + 1..];
        var stepped := ApplyOne(events[i]);
        if !stepped {
          return false;
        }
        i := i + 1;
      }
      ok := true;
    }
  }
}
