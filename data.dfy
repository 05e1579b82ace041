/** The data shaping of src/views/data.js: turning the parsed transition log
    into per-tick groups of events, and the abundance table into named
    series. Reading and parsing the files is not modelled: a parsed table is
    given as a sequence of rows. */
module Data {
  import opened Wrappers

  /** One parsed row of a tab-separated table: its column names in header
      order, and the cell under each. */
  datatype Row<V> = Row(columns: seq<string>, cells: map<string, V>)

  /** A row as the TSV parser produces it: its header names are distinct
      and are exactly the keys of its cells. */
  predicate WellFormedRow<V>(row: Row<V>)
  {
    && (forall i, j :: 0 <= i < j < |row.columns| ==> row.columns[i] != row.columns[j])
    && row.cells.Keys == set k | k in row.columns
  }

  /** `row[column]`: absent (`undefined`) when the row has no such column. */
  function Cell<V>(row: Row<V>, column: string): Option<V>
  {
    if column in row.cells then Some(row.cells[column]) else None
  }

  /** A transition event. Its tick is the text read from the log, never
      converted to a number. */
  datatype Event = Event(tick: string, oldState: string, newState: string)

  /** A cell of the transition log as text. A missing column reads as
      `undefined`; every later use of an event field (the comparison with
      "NA", the nesting key, the template literal of a transition name, the
      lookup of a state by name) turns that into the text "undefined". */
  function Text(row: Row<string>, column: string): string
  {
    if column in row.cells then row.cells[column] else "undefined"
  }

  /** The `map` step of `loadTransitions`. */
  function ToEvent(row: Row<string>): Event
  {
    Event(Text(row, "Ticks"), Text(row, "TransFromClass"), Text(row, "TransToClass"))
  }

  /** The positions of the rows whose from-class is not "NA", in increasing
      order: every such row once, and no other. */
  function KeptIndices(rows: seq<Row<string>>): (idx: seq<nat>)
    ensures |idx| <= |rows|
    ensures forall j :: 0 <= j < |idx| ==> idx[j] < |rows| && ToEvent(rows[idx[j]]).oldState != "NA"
    ensures forall j, k :: 0 <= j < k < |idx| ==> idx[j] < idx[k]
    ensures forall i :: 0 <= i < |rows| && ToEvent(rows[i]).oldState != "NA" ==> i in idx
  {
    if rows == [] then []
    else
      var last := |rows| - 1;
      KeptIndices(rows[..last]) + (if ToEvent(rows[last]).oldState != "NA" then [last] else [])
  }

  /** The `map` then `filter` of `loadTransitions`: an event is kept exactly
      when its from-class is not "NA", with its three fields copied from
      its row; self-transitions are kept. */
  function KeptEvents(rows: seq<Row<string>>): (r: seq<Event>)
    ensures |r| <= |rows|
    ensures forall i :: 0 <= i < |r| ==> r[i].oldState != "NA"
    ensures forall e :: e in r <==> (exists row :: row in rows && ToEvent(row) == e) && e.oldState != "NA"
  {
    if rows == [] then []
    else
      var init := rows[..|rows| - 1];
      var e := ToEvent(rows[|rows| - 1]);
      assert forall row :: row in rows <==> row in init || row == rows[|rows| - 1];
      KeptEvents(init) + (if e.oldState != "NA" then [e] else [])
  }

  /** Every row whose from-class is not "NA" gives its own event, once, in
      row order: the kept events are the events of the kept positions, so
      equal rows give equal events each time they occur. */
  lemma {:induction false} KeptEventsInRowOrder(rows: seq<Row<string>>)
    ensures |KeptEvents(rows)| == |KeptIndices(rows)|
    ensures forall j :: 0 <= j < |KeptEvents(rows)| ==> KeptEvents(rows)[j] == ToEvent(rows[KeptIndices(rows)[j]])
  {
    if rows != [] {
      var init := rows[..|rows| - 1];
      KeptEventsInRowOrder(init);
      assert forall i :: 0 <= i < |init| ==> init[i] == rows[i];
    }
  }

  /** Two agents making the same transition in the same tick log two equal
      rows, and both are kept. */
  lemma KeptEventsKeepsDuplicates(row: Row<string>)
    requires ToEvent(row).oldState != "NA"
    ensures KeptEvents([row, row]) == [ToEvent(row), ToEvent(row)]
  {
    assert [row, row][..1] == [row] && [row][..0] == [];
  }

  /** The events of `events` whose tick is `tick`, in input order. */
  function OfTick(events: seq<Event>, tick: string): seq<Event>
  {
    if events == [] then []
    else
      var e := events[|events| - 1];
      OfTick(events[..|events| - 1], tick) + (if e.tick == tick then [e] else [])
  }

  /** The index `d3.nest().key(d => d.tick)` builds, event by event: the
      keys in insertion order, and for each key the events filed under it. */
  datatype Nesting = Nesting(keys: seq<string>, groups: map<string, seq<Event>>)

  predicate Distinct(s: seq<string>)
  {
    forall i, j :: 0 <= i < j < |s| ==> s[i] != s[j]
  }

  /** Files each event under its tick: appended to the tick's group if there
      is one, otherwise opening a new group at the end. */
  function Nest(events: seq<Event>): Nesting
  {
    if events == [] then Nesting([], map[])
    else
      var n := Nest(events[..|events| - 1]);
      var e := events[|events| - 1];
      if e.tick in n.groups then Nesting(n.keys, n.groups[e.tick := n.groups[e.tick] + [e]])
      else Nesting(n.keys + [e.tick], n.groups[e.tick := [e]])
  }

  /** The nesting holds one key per distinct tick, and under each key
      exactly that tick's events in input order; no group is empty. */
  lemma {:induction false} NestShape(events: seq<Event>)
    ensures var r := Nest(events);
      && Distinct(r.keys)
      && (forall i :: 0 <= i < |r.keys| ==> r.keys[i] in r.groups)
      && (forall k :: k in r.groups ==> k in r.keys)
      && (forall k :: k in r.groups ==> r.groups[k] == OfTick(events, k) && r.groups[k] != [])
      && (forall k :: k !in r.groups ==> OfTick(events, k) == [])
  {
    if events != [] {
      NestShape(events[..|events| - 1]);
    }
  }

  /** `groupEvents`: the groups of the nesting in key order, keys dropped. */
  function GroupEvents(events: seq<Event>): seq<seq<Event>>
  {
    var n := Nest(events);
    NestShape(events);
    seq(|n.keys|, i requires 0 <= i < |n.keys| => n.groups[n.keys[i]])
  }

  /** One group per distinct tick value, none of them empty, holding that
      tick's events in input order; a tick with no event has no group. */
  lemma {:induction false} GroupEventsByTick(events: seq<Event>)
    ensures |GroupEvents(events)| == |Nest(events).keys|
    ensures forall i :: 0 <= i < |GroupEvents(events)| ==>
      GroupEvents(events)[i] != [] && GroupEvents(events)[i] == OfTick(events, Nest(events).keys[i])
    ensures forall i :: 0 <= i < |events| ==> events[i].tick in Nest(events).keys
    ensures forall k :: k in Nest(events).keys ==> exists i :: 0 <= i < |events| && events[i].tick == k
  {
    var n := Nest(events);
    NestShape(events);
    forall i | 0 <= i < |events|
      ensures events[i].tick in n.keys
    {
      OfTickHas(events, i);
    }
    forall k | k in n.keys
      ensures exists i :: 0 <= i < |events| && events[i].tick == k
    {
      OfTickSource(events, k);
    }
  }

  lemma {:induction false} OfTickHas(events: seq<Event>, i: nat)
    requires i < |events|
    ensures events[i] in OfTick(events, events[i].tick)
  {
    if i < |events| - 1 {
      OfTickHas(events[..|events| - 1], i);
    }
  }

  lemma {:induction false} OfTickSource(events: seq<Event>, k: string)
    requires OfTick(events, k) != []
    ensures exists i :: 0 <= i < |events| && events[i].tick == k
  {
    var init := events[..|events| - 1];
    if events[|events| - 1].tick != k {
      OfTickSource(init, k);
      var i :| 0 <= i < |init| && init[i].tick == k;
      assert events[i] == init[i];
    }
  }

  /** Groups appear in order of their tick's first appearance: nesting a
      prefix of the events gives a prefix of the keys. */
  lemma {:induction false} NestKeysInFirstAppearanceOrder(events: seq<Event>, n: nat)
    requires n <= |events|
    ensures Nest(events[..n]).keys <= Nest(events).keys
    decreases |events| - n
  {
    if n < |events| {
      var init := events[..|events| - 1];
      assert init[..n] == events[..n];
      NestKeysInFirstAppearanceOrder(init, n);
    } else {
      assert events[..n] == events;
    }
  }

  /** The groups concatenated, in order. */
  function Flatten(groups: seq<seq<Event>>): seq<Event>
  {
    if groups == [] then [] else Flatten(groups[..|groups| - 1]) + groups[|groups| - 1]
  }

  lemma {:induction false} FlattenAppendTo(groups: seq<seq<Event>>, j: nat, e: Event)
    requires j < |groups|
    ensures multiset(Flatten(groups[j := groups[j] + [e]])) == multiset(Flatten(groups)) + multiset{e}
  {
    var g' := groups[j := groups[j] + [e]];
    var last := |groups| - 1;
    if j < last {
      assert g'[..last] == groups[..last][j := groups[j] + [e]];
      FlattenAppendTo(groups[..last], j, e);
    } else {
      assert g'[..last] == groups[..last];
    }
  }

  /** Concatenating the groups gives back the input events, each as often as
      it occurs there: grouping loses and invents nothing. */
  lemma {:induction false} GroupEventsIsPermutation(events: seq<Event>)
    ensures multiset(Flatten(GroupEvents(events))) == multiset(events)
  {
    if events != [] {
      var init := events[..|events| - 1];
      var e := events[|events| - 1];
      assert events == init + [e];
      GroupEventsIsPermutation(init);
      GroupEventsSnoc(init, e);
    }
  }

  /** Grouping one more event adds exactly that event to the flattened groups. */
  lemma GroupEventsSnoc(init: seq<Event>, e: Event)
    ensures multiset(Flatten(GroupEvents(init + [e]))) == multiset(Flatten(GroupEvents(init))) + multiset{e}
  {
    var events := init + [e];
    assert events[..|events| - 1] == init;
    var n := Nest(init);
    var g := GroupEvents(init);
    var g' := GroupEvents(events);
    NestShape(init);
    if e.tick in n.groups {
      var j :| 0 <= j < |n.keys| && n.keys[j] == e.tick;
      assert g' == g[j := g[j] + [e]];
      FlattenAppendTo(g, j, e);
    } else {
      assert g' == g + [[e]];
      assert g'[..|g'| - 1] == g;
    }
  }

  /** `loadTransitions` once the log is read: with no path (absent or the
      empty string) the result is absent and nothing is read; otherwise it
      is the grouping of the kept events of the parsed `contents`. */
  function LoadTransitions(path: Option<string>, contents: seq<Row<string>>): (r: Option<seq<seq<Event>>>)
    ensures r.None? <==> path.None? || path.value == ""
    ensures r.Some? ==> multiset(Flatten(r.value)) == multiset(KeptEvents(contents))
  {
    if path.None? || path.value == "" then None
    else
      GroupEventsIsPermutation(KeptEvents(contents));
      Some(GroupEvents(KeptEvents(contents)))
  }

  /** A series of the abundance table: a column's name and its values. */
  datatype Series<V> = Series(name: string, data: seq<Option<V>>)

  /** `getColumn`: row by row, the row's value in `column` (absent where
      the row has none). */
  function GetColumn<V>(data: seq<Row<V>>, column: string): (r: seq<Option<V>>)
    ensures |r| == |data|
    ensures forall i :: 0 <= i < |data| ==> r[i] == Cell(data[i], column)
  {
    if data == [] then [] else [Cell(data[0], column)] + GetColumn(data[1..], column)
  }

  /** The columns `getSeries` uses: those given, or else the first row's
      columns (none when there is no row). An empty list given is used as
      it is. */
  function SeriesColumns<V>(data: seq<Row<V>>, columns: Option<seq<string>>): seq<string>
  {
    if columns.Some? then columns.value
    else if data == [] then []
    else data[0].columns
  }

  /** `getSeries`: one series per column, in column order, each named after
      its column and holding that column's values. */
  function GetSeries<V>(data: seq<Row<V>>, columns: Option<seq<string>>): (r: seq<Series<V>>)
    ensures |r| == |SeriesColumns(data, columns)|
    ensures forall i :: 0 <= i < |r| ==>
      r[i].name == SeriesColumns(data, columns)[i] && |r[i].data| == |data| &&
      forall j :: 0 <= j < |data| ==> r[i].data[j] == Cell(data[j], r[i].name)
    ensures columns.None? && data != [] && WellFormedRow(data[0]) ==>
      (forall i, j :: 0 <= i < j < |r| ==> r[i].name != r[j].name) &&
      (forall k :: k in data[0].cells <==> exists i :: 0 <= i < |r| && r[i].name == k)
  {
    SeriesOf(data, SeriesColumns(data, columns))
  }

  function SeriesOf<V>(data: seq<Row<V>>, columns: seq<string>): (r: seq<Series<V>>)
    ensures |r| == |columns|
    ensures forall i :: 0 <= i < |r| ==> r[i] == Series(columns[i], GetColumn(data, columns[i]))
  {
    if columns == [] then [] else [Series(columns[0], GetColumn(data, columns[0]))] + SeriesOf(data, columns[1..])
  }

  /** The decimal text of a tick number, as the transition log writes it. */
  function TickLabel(i: nat): (r: string)
    ensures r != []
  {
    if i < 10 then ["0123456789"[i]] else TickLabel(i / 10) + ["0123456789"[i % 10]]
  }

  /** One slot per tick index 0 .. nTicks - 1, the slot of tick `i` holding
      the events logged at tick `i` (empty when there are none): the
      grouping the views assume when they read slot `n` at tick `n`. */
  function SlotsByTick(events: seq<Event>, nTicks: nat): (r: seq<seq<Event>>)
    ensures |r| == nTicks
  {
    seq(nTicks, i requires 0 <= i < nTicks => OfTick(events, TickLabel(i)))
  }

  /** Slot `i` of the corrected grouping is the group `groupEvents` forms for
      tick `i`, or empty where `groupEvents` forms none. */
  lemma {:induction false} SlotsByTickAgreesWithNest(events: seq<Event>, nTicks: nat, i: nat)
    requires i < nTicks
    ensures var n := Nest(events);
            SlotsByTick(events, nTicks)[i] == if TickLabel(i) in n.groups then n.groups[TickLabel(i)] else []
  {
    NestShape(events);
  }

  /** `groupEvents` forms no slot for a tick without events, so slot `i` is
      not tick `i`: with events only at ticks 0 and 2, slot 1 holds tick 2's
      event and there is no slot 2, while the slot-per-tick grouping has
      tick 1 empty and tick 2's event in slot 2. */
  lemma SlotIsNotTick()
    ensures var e0 := Event("0", "townHealthyPersons", "townIncPerPersons");
            var e2 := Event("2", "townIncPerPersons", "townAntTrPersons");
            && GroupEvents([e0, e2]) == [[e0], [e2]]
            && GroupEvents([e0, e2])[1][0].tick == "2"
            && SlotsByTick([e0, e2], 3) == [[e0], [], [e2]]
  {
    var e0 := Event("0", "townHealthyPersons", "townIncPerPersons");
    var e2 := Event("2", "townIncPerPersons", "townAntTrPersons");
    GroupTwoTicks(e0, e2);
    SlotsTwoTicks(e0, e2);
  }

  lemma GroupTwoTicks(e0: Event, e2: Event)
    requires e0.tick == "0" && e2.tick == "2"
    ensures GroupEvents([e0, e2]) == [[e0], [e2]]
  {
    var es := [e0, e2];
    assert es[..1] == [e0] && [e0][..0] == [];
    assert Nest([e0]) == Nesting(["0"], map["0" := [e0]]);
    assert Nest(es) == Nesting(["0", "2"], map["0" := [e0], "2" := [e2]]);
  }

  lemma SlotsTwoTicks(e0: Event, e2: Event)
    requires e0.tick == "0" && e2.tick == "2"
    ensures SlotsByTick([e0, e2], 3) == [[e0], [], [e2]]
  {
    var es := [e0, e2];
    assert es[..1] == [e0] && [e0][..0] == [];
    SmallTickLabels();
    assert OfTick([e0], "0") == [e0] && OfTick([e0], "1") == [] && OfTick([e0], "2") == [];
    assert OfTick(es, "0") == [e0] && OfTick(es, "1") == [] && OfTick(es, "2") == [e2];
  }

  lemma SmallTickLabels()
    ensures TickLabel(0) == "0" && TickLabel(1) == "1" && TickLabel(2) == "2"
  {
    var digits := "0123456789";
    assert digits[0] == '0' && digits[1] == '1' && digits[2] == '2';
  }
}
