/**
 Many working copies writing to one source, each write guarded by the version its copy held when it was sent.

 A flush builds its operations first and awaits their answers later, so operations are in flight while copies are loaded
 again. `history` keeps every content a row has had.

 Whatever is refreshed when, the versions of a row rise one by one, and a write of a present row is accepted exactly when
 it expects the version the last accepted write left (`RunsKeepCount`, `AcceptedWriteExpectsTheLast`). That it also saw
 that write's content (`AcceptedWriteReplacesWhatItSaw`) holds over the runs in which no report is adopted on top of an
 older content, and only over those: `BackdatedWriteIsLost` says exactly when the next write of a copy overwrites what it
 never saw. The last section has the runs left out: deletes, and the largest whole number.
 */
module LostUpdates {
  import opened Wrappers
  import opened ConnectorWrites

  /** A source's id column and version column. */
  datatype Source = Source(idKey: string, field: string)

  /** A client's copy of a row: the version it will expect, the content its fields are based on, and which load made it. */
  datatype Copy = Copy(version: Option<Value>, seen: Row, stamp: nat)

  /** The version an accepted write left, and the row it left it in. */
  datatype Report = Report(version: Value, row: Row)

  /** An operation as it was built from a copy, and its report once the source has answered. */
  datatype Flight = Flight(c: nat, key: string, version: Option<Value>, seen: Row, edits: Row, stamp: nat, report: Option<Report>)

  datatype State = State(rows: Rows, history: map<string, seq<Row>>, copies: map<(nat, string), Copy>, flights: map<nat, Flight>, clock: nat)

  datatype Event =
    | Create(c: nat, key: string)
    | Load(c: nat, key: string, i: nat)
    | Vanish(c: nat, key: string)
    | Send(c: nat, key: string, edits: Row)
    | Arrive(id: nat, answered: bool)
    | Adopt(id: nat)
    | Remove(key: string)

  // ---- steps --------------------------------------------------------------------------------------------------

  function WriteBatch(source: Source): Batch {
    Batch("", source.idKey, [], Optimistic, Sequential, Some(source.field))
  }

  /** The operation built from a copy: its edits, with the version it holds as a field and as the expectation. */
  function OperationOf(source: Source, flight: Flight): Operation {
    Operation(Upsert, flight.key, if flight.version.Some? then flight.edits[source.field := flight.version.value] else flight.edits, flight.version)
  }

  function Perform(source: Source, rows: Rows, flight: Flight): Step {
    ApplyOne(rows, WriteBatch(source), BumpedOp(OperationOf(source, flight), source.field), false)
  }

  function HistoryOf(s: State, key: string): seq<Row> {
    if key in s.history then s.history[key] else []
  }

  function Loaded(s: State, c: nat, key: string, version: Option<Value>, seen: Row): State {
    s.(copies := s.copies[(c, key) := Copy(version, seen, s.clock)], clock := s.clock + 1)
  }

  /** A flight after its write was accepted; an answer that is lost leaves it as it was, to arrive again. */
  function Answered(source: Source, flight: Flight, answered: bool, row: Row): Flight {
    var op := OperationOf(source, flight);
    if answered && Bumps(op, source.field) then flight.(report := Some(Report(NextVersion(op, source.field), row))) else flight
  }

  /** A write that changed the table: its row joins the history. */
  function Landed(source: Source, s: State, id: nat, answered: bool, rows: Rows): State
    requires id in s.flights && s.flights[id].key in rows
  {
    var flight := s.flights[id];
    var row := rows[flight.key];
    s.(rows := rows, history := s.history[flight.key := HistoryOf(s, flight.key) + [row]],
       flights := s.flights[id := Answered(source, flight, answered, row)])
  }

  /** The copy gets the reported version; it is based on the row written unless it was loaded again in between. */
  function Adopted(copy: Copy, flight: Flight): Copy
    requires flight.report.Some?
  {
    copy.(version := Some(flight.report.value.version), seen := if copy.stamp == flight.stamp then flight.report.value.row else copy.seen)
  }

  predicate Adoptable(s: State, id: nat) {
    id in s.flights && s.flights[id].report.Some? && (s.flights[id].c, s.flights[id].key) in s.copies
  }

  /** The state after an event; None when it cannot happen. A load may be of any content the row has had. */
  function Next(source: Source, s: State, e: Event): Option<State> {
    match e
    case Create(c, key) => Some(Loaded(s, c, key, None, map[]))
    case Load(c, key, i) =>
      if i >= |HistoryOf(s, key)| then None
      else Some(Loaded(s, c, key, Some(Column(s.history[key][i], source.field)), s.history[key][i]))
    case Vanish(c, key) => Some(s.(copies := s.copies - {(c, key)}))
    case Send(c, key, edits) =>
      if (c, key) !in s.copies then None
      else
        var copy := s.copies[(c, key)];
        Some(s.(flights := s.flights[s.clock := Flight(c, key, copy.version, copy.seen, edits, copy.stamp, None)], clock := s.clock + 1))
    case Arrive(id, answered) =>
      if id !in s.flights || s.flights[id].report.Some? then None
      else
        var step := Perform(source, s.rows, s.flights[id]);
        if step.failure.Some? || s.flights[id].key !in step.rows || step.rows == s.rows then Some(s)
        else Some(Landed(source, s, id, answered, step.rows))
    case Adopt(id) =>
      if !Adoptable(s, id) then None
      else
        var flight := s.flights[id];
        Some(s.(copies := s.copies[(flight.c, flight.key) := Adopted(s.copies[(flight.c, flight.key)], flight)], flights := s.flights - {id}))
    case Remove(key) => Some(s.(rows := s.rows - {key}))
  }

  function Run(source: Source, s: State, events: seq<Event>): Option<State>
    decreases |events|
  {
    if events == [] then Some(s)
    else
      match Next(source, s, events[0])
      case None => None
      case Some(t) => Run(source, t, events[1..])
  }

  // ---- what a run may not do ----------------------------------------------------------------------------------

  predicate AtLimit(source: Source, s: State, key: string) {
    key in s.rows && Column(s.rows[key], source.field) == Number(LARGEST)
  }

  /** No version set by hand, no write past the limit, no delete. Copies are loaded and lost at any time. */
  predicate Calm(source: Source, s: State, e: Event) {
    match e
    case Send(_, _, edits) => source.field !in edits
    case Arrive(id, _) => id in s.flights ==> !AtLimit(source, s, s.flights[id].key)
    case Remove(_) => false
    case _ => true
  }

  predicate CalmRun(source: Source, s: State, events: seq<Event>)
    decreases |events|
  {
    events == [] || (Calm(source, s, events[0]) && match Next(source, s, events[0])
                                                   case None => true
                                                   case Some(t) => CalmRun(source, t, events[1..]))
  }

  // ---- versions -----------------------------------------------------------------------------------------------

  /** Versions count up from the first; a row inserted without one stays as it is. */
  predicate Rising(source: Source, h: seq<Row>) {
    && |h| > 0
    && (Column(h[0], source.field) == Null ==> |h| == 1)
    && (Column(h[0], source.field) != Null ==>
          Column(h[0], source.field).Number? && forall i :: 0 <= i < |h| ==> Column(h[i], source.field).Number? && Column(h[i], source.field).n == Column(h[0], source.field).n + i)
  }

  predicate RowsOk(source: Source, s: State) {
    && source.field != source.idKey
    && s.rows.Keys == s.history.Keys
    && (forall key :: key in s.rows ==> Rising(source, s.history[key]) && s.rows[key] == s.history[key][|s.history[key]| - 1])
  }

  predicate Occurs(source: Source, h: seq<Row>, v: Value) {
    exists i :: 0 <= i < |h| && v == Column(h[i], source.field)
  }

  predicate HeldOk(source: Source, s: State, key: string, version: Option<Value>) {
    version.Some? ==> Occurs(source, HistoryOf(s, key), version.value)
  }

  predicate FlightCounted(source: Source, s: State, flight: Flight) {
    && source.field !in flight.edits && HeldOk(source, s, flight.key, flight.version)
    && (flight.report.Some? ==> flight.report.value.version.Number? && Occurs(source, HistoryOf(s, flight.key), flight.report.value.version))
  }

  /** Versions rise one by one, and every version a copy or an operation holds is one its row has had. */
  predicate Counted(source: Source, s: State) {
    && RowsOk(source, s)
    && (forall k :: k in s.copies ==> HeldOk(source, s, k.1, s.copies[k].version))
    && (forall id :: id in s.flights ==> FlightCounted(source, s, s.flights[id]))
  }

  /** The fields a write adds to its row: the edits, and the next version. */
  function Changes(source: Source, flight: Flight): Row
    requires flight.version.Some? && flight.version.value.Number?
  {
    flight.edits[source.field := Number(Successor(flight.version.value.n))] - {source.idKey}
  }

  /** The operation expects the version the row has. */
  predicate ExpectsIt(source: Source, s: State, flight: Flight) {
    flight.key in s.rows && flight.version == Some(Column(s.rows[flight.key], source.field)) && flight.version.value.Number?
  }

  /** A guarded write of a present row applies exactly when it expects the row's version, adding the edits and the next version. */
  lemma WriteApplies(source: Source, s: State, flight: Flight)
    requires RowsOk(source, s) && flight.key in s.rows && source.field !in flight.edits
    requires flight.version.Some? ==> flight.version.value.Number? || flight.version.value.Null?
    ensures var step := Perform(source, s.rows, flight);
            && ((step.failure.None? && step.rows != s.rows) ==> ExpectsIt(source, s, flight))
            && (ExpectsIt(source, s, flight) ==> step == Step(s.rows[flight.key := s.rows[flight.key] + Changes(source, flight)], None))
  {
    var op := OperationOf(source, flight);
    var sent := BumpedOp(op, source.field);
    if flight.version.Some? && flight.version.value.Number? {
      assert Bumps(op, source.field) && sent.fields == flight.edits[source.field := Number(Successor(flight.version.value.n))];
      assert FieldsOf(WriteBatch(source), sent) == Changes(source, flight);
      assert source.field in FieldsOf(WriteBatch(source), sent);
    }
  }

  lemma HeldVersions(source: Source, s: State, key: string, version: Option<Value>)
    requires RowsOk(source, s) && HeldOk(source, s, key, version) && version.Some?
    ensures key in s.rows && (version.value.Number? || version.value.Null?)
  {
    var i :| 0 <= i < |HistoryOf(s, key)| && version.value == Column(HistoryOf(s, key)[i], source.field);
    assert Rising(source, s.history[key]);
  }

  /**
   A write of a present row is accepted exactly when it expects the version the row has, which is the one its last accepted
   write left: it then adds its edits and the version one above, and no other row changes.
   */
  lemma AcceptedWriteExpectsTheLast(source: Source, s: State, id: nat, answered: bool)
    requires Counted(source, s) && id in s.flights && s.flights[id].report.None? && s.flights[id].key in s.rows
    requires Calm(source, s, Arrive(id, answered))
    ensures var t := Next(source, s, Arrive(id, answered)).value; var flight := s.flights[id]; var key := flight.key;
            && (t.rows != s.rows <==> ExpectsIt(source, s, flight))
            && (t.rows != s.rows ==> flight.version.value == Column(s.history[key][|s.history[key]| - 1], source.field)
                                     && t.rows == s.rows[key := s.rows[key] + Changes(source, flight)]
                                     && Column(t.rows[key], source.field) == Number(flight.version.value.n + 1))
            && (t.rows == s.rows ==> t == s)
  {
    var flight := s.flights[id];
    assert FlightCounted(source, s, flight);
    if flight.version.Some? {
      HeldVersions(source, s, flight.key, flight.version);
    }
    WriteApplies(source, s, flight);
    if ExpectsIt(source, s, flight) {
      var row := s.rows[flight.key] + Changes(source, flight);
      assert Column(row, source.field) == Number(flight.version.value.n + 1);
      assert s.rows[flight.key := row][flight.key] == row;
      assert s.rows[flight.key := row] != s.rows;
    }
  }

  // ---- contents -----------------------------------------------------------------------------------------------

  /** Some content at or after version v of the row is what was seen. */
  predicate SeenSince(source: Source, h: seq<Row>, v: Value, seen: Row) {
    exists i, j :: 0 <= i <= j < |h| && v == Column(h[i], source.field) && seen == h[j]
  }

  /** A copy created here has seen nothing. */
  predicate CopySees(source: Source, s: State, key: string, version: Option<Value>, seen: Row) {
    if version.Some? then SeenSince(source, HistoryOf(s, key), version.value, seen) else seen == map[]
  }

  /** The row reported is one the source's row has been, and has the version reported. */
  predicate ReportOk(source: Source, s: State, key: string, report: Report) {
    report.row in HistoryOf(s, key) && Column(report.row, source.field) == report.version
  }

  predicate FlightSees(source: Source, s: State, flight: Flight) {
    && CopySees(source, s, flight.key, flight.version, flight.seen)
    && (flight.report.Some? ==> ReportOk(source, s, flight.key, flight.report.value))
  }

  /** What a copy or an operation has seen is no older than the version it holds. */
  predicate Sees(source: Source, s: State) {
    && (forall k :: k in s.copies ==> CopySees(source, s, k.1, s.copies[k].version, s.copies[k].seen))
    && (forall id :: id in s.flights ==> FlightSees(source, s, s.flights[id]))
  }

  predicate Ordered(source: Source, s: State) {
    Counted(source, s) && Sees(source, s)
  }

  /** The version of a content, counted in whole numbers; a content without one comes before them all. */
  predicate OlderThan(source: Source, seen: Row, version: Value) {
    version.Number? && (Column(seen, source.field).Number? ==> Column(seen, source.field).n < version.n)
  }

  /** The report comes to a copy that was loaded again after the operation was sent, with a content older than the report. */
  predicate Backdates(source: Source, s: State, id: nat)
    requires Adoptable(s, id)
  {
    var flight := s.flights[id];
    var copy := s.copies[(flight.c, flight.key)];
    copy.stamp != flight.stamp && OlderThan(source, copy.seen, flight.report.value.version)
  }

  /** A version occurs once: the latest is held only by what has seen the latest. */
  lemma LatestIsSeen(source: Source, h: seq<Row>, v: Value, seen: Row)
    requires Rising(source, h) && v != Null && SeenSince(source, h, v, seen)
    requires v == Column(h[|h| - 1], source.field)
    ensures seen == h[|h| - 1]
  {
    var i, j :| 0 <= i <= j < |h| && v == Column(h[i], source.field) && seen == h[j];
  }

  /** An accepted write of a present row was sent by a client that has seen the row exactly as it is. */
  lemma AcceptedWriteReplacesWhatItSaw(source: Source, s: State, id: nat, answered: bool)
    requires Ordered(source, s) && id in s.flights && s.flights[id].report.None? && s.flights[id].key in s.rows
    requires Calm(source, s, Arrive(id, answered))
    ensures var t := Next(source, s, Arrive(id, answered)).value; var flight := s.flights[id];
            t.rows != s.rows ==> ExpectsIt(source, s, flight) && flight.seen == s.rows[flight.key] && t.rows == s.rows[flight.key := flight.seen + Changes(source, flight)]
  {
    AcceptedWriteExpectsTheLast(source, s, id, answered);
    var flight := s.flights[id];
    assert FlightSees(source, s, flight) && Rising(source, s.history[flight.key]);
    if ExpectsIt(source, s, flight) {
      hide Next;
      LatestIsSeen(source, s.history[flight.key], flight.version.value, flight.seen);
    }
  }

  // ---- a write extends the history ----------------------------------------------------------------------------

  lemma RisingGrows(source: Source, h: seq<Row>, row: Row)
    requires Rising(source, h) && Column(h[|h| - 1], source.field).Number?
    requires Column(row, source.field).Number? && Column(row, source.field).n == Column(h[|h| - 1], source.field).n + 1
    ensures Rising(source, h + [row])
  {
  }

  lemma RowsGrow(source: Source, s: State, t: State, key: string, row: Row)
    requires RowsOk(source, s) && t.rows == s.rows[key := row] && t.history == s.history[key := HistoryOf(s, key) + [row]]
    requires Rising(source, HistoryOf(s, key) + [row])
    ensures RowsOk(source, t)
  {
    hide Rising;
    assert (HistoryOf(s, key) + [row])[|HistoryOf(s, key)|] == row;
  }

  /** A write that changes the table is the step of `Landed`. */
  lemma WriteLands(source: Source, s: State, id: nat, answered: bool)
    requires Next(source, s, Arrive(id, answered)).Some? && Next(source, s, Arrive(id, answered)).value != s
    ensures var step := Perform(source, s.rows, s.flights[id]); var key := s.flights[id].key;
            && key in step.rows && step.rows == s.rows[key := step.rows[key]] && step.failure.None?
            && Next(source, s, Arrive(id, answered)).value == Landed(source, s, id, answered, step.rows)
  {
  }

  /** An insert without a version leaves a row without one. */
  lemma InsertIsUnversioned(source: Source, s: State, flight: Flight)
    requires flight.key !in s.rows && flight.version.None? && source.field !in flight.edits && source.field != source.idKey
    ensures var step := Perform(source, s.rows, flight); flight.key in step.rows && Column(step.rows[flight.key], source.field) == Null
  {
    assert source.field !in FieldsOf(WriteBatch(source), BumpedOp(OperationOf(source, flight), source.field));
  }

  /** The row a write left extends the row's history by one version. */
  lemma WriteExtends(source: Source, s: State, id: nat, answered: bool)
    requires Counted(source, s) && Calm(source, s, Arrive(id, answered))
    requires Next(source, s, Arrive(id, answered)).Some? && Next(source, s, Arrive(id, answered)).value != s
    ensures var t := Next(source, s, Arrive(id, answered)).value; var key := s.flights[id].key;
            && key in t.rows && t.rows == s.rows[key := t.rows[key]] && RowsOk(source, t)
            && t == Landed(source, s, id, answered, t.rows)
            && (Bumps(OperationOf(source, s.flights[id]), source.field) ==> Column(t.rows[key], source.field) == NextVersion(OperationOf(source, s.flights[id]), source.field))
  {
    var flight := s.flights[id];
    var t := Next(source, s, Arrive(id, answered)).value;
    WriteLands(source, s, id, answered);
    assert FlightCounted(source, s, flight);
    if flight.key in s.rows {
      AcceptedWriteExpectsTheLast(source, s, id, answered);
      hide Next, Perform, Changes;
      assert Rising(source, s.history[flight.key]);
      RisingGrows(source, s.history[flight.key], t.rows[flight.key]);
    } else {
      if flight.version.Some? {
        HeldVersions(source, s, flight.key, flight.version);
      }
      InsertIsUnversioned(source, s, flight);
      hide Next, Perform, Changes;
    }
    RowsGrow(source, s, t, flight.key, t.rows[flight.key]);
  }

  /** The history of one row is longer by one content. */
  predicate Extends(s: State, t: State, key: string, row: Row) {
    t.history == s.history[key := HistoryOf(s, key) + [row]]
  }

  lemma HistoryGrows(s: State, t: State, key: string, row: Row, k: string)
    requires Extends(s, t, key, row)
    ensures HistoryOf(t, k) == HistoryOf(s, k) + if k == key then [row] else []
  {
  }

  lemma OccursStill(source: Source, h: seq<Row>, more: seq<Row>, v: Value)
    requires Occurs(source, h, v)
    ensures Occurs(source, h + more, v)
  {
    var i :| 0 <= i < |h| && v == Column(h[i], source.field);
    assert v == Column((h + more)[i], source.field);
  }

  lemma SeenStill(source: Source, h: seq<Row>, more: seq<Row>, v: Value, seen: Row)
    requires SeenSince(source, h, v, seen)
    ensures SeenSince(source, h + more, v, seen)
  {
    var i, j :| 0 <= i <= j < |h| && v == Column(h[i], source.field) && seen == h[j];
    var g := h + more;
    assert 0 <= i <= j < |g| && v == Column(g[i], source.field) && seen == g[j];
  }

  lemma HeldStill(source: Source, s: State, t: State, key: string, row: Row, k: string, version: Option<Value>)
    requires Extends(s, t, key, row) && HeldOk(source, s, k, version)
    ensures HeldOk(source, t, k, version)
  {
    hide Occurs;
    HistoryGrows(s, t, key, row, k);
    if version.Some? {
      OccursStill(source, HistoryOf(s, k), if k == key then [row] else [], version.value);
    }
  }

  lemma FlightCountedStill(source: Source, s: State, t: State, key: string, row: Row, flight: Flight)
    requires Extends(s, t, key, row) && FlightCounted(source, s, flight)
    ensures FlightCounted(source, t, flight)
  {
    hide Occurs;
    HeldStill(source, s, t, key, row, flight.key, flight.version);
    HistoryGrows(s, t, key, row, flight.key);
    if flight.report.Some? {
      OccursStill(source, HistoryOf(s, flight.key), if flight.key == key then [row] else [], flight.report.value.version);
    }
  }

  lemma AnsweredIsCounted(source: Source, s: State, t: State, flight: Flight, answered: bool, row: Row)
    requires Extends(s, t, flight.key, row) && FlightCounted(source, s, flight)
    requires Bumps(OperationOf(source, flight), source.field) ==> Column(row, source.field) == NextVersion(OperationOf(source, flight), source.field)
    ensures FlightCounted(source, t, Answered(source, flight, answered, row))
  {
    FlightCountedStill(source, s, t, flight.key, row, flight);
    var h := HistoryOf(t, flight.key);
    assert h[|h| - 1] == row;
  }

  lemma ArriveKeepsCount(source: Source, s: State, id: nat, answered: bool)
    requires Counted(source, s) && Calm(source, s, Arrive(id, answered)) && Next(source, s, Arrive(id, answered)).Some?
    ensures Counted(source, Next(source, s, Arrive(id, answered)).value)
  {
    var t := Next(source, s, Arrive(id, answered)).value;
    if t != s {
      WriteExtends(source, s, id, answered);
      hide Next, Perform, RowsOk, HeldOk, FlightCounted, Bumps, Answered;
      var flight := s.flights[id];
      var row := t.rows[flight.key];
      assert Extends(s, t, flight.key, row);
      forall k | k in t.copies ensures HeldOk(source, t, k.1, t.copies[k].version) {
        HeldStill(source, s, t, flight.key, row, k.1, t.copies[k].version);
      }
      forall i | i in t.flights ensures FlightCounted(source, t, t.flights[i]) {
        if i == id {
          AnsweredIsCounted(source, s, t, flight, answered, row);
        } else {
          FlightCountedStill(source, s, t, flight.key, row, t.flights[i]);
        }
      }
    }
  }

  lemma RowsOnly(source: Source, s: State, t: State)
    requires RowsOk(source, s) && s.rows == t.rows && s.history == t.history
    ensures RowsOk(source, t)
  {
  }

  /** A load takes a version the row has had. */
  lemma LoadedOccurs(source: Source, s: State, c: nat, key: string, i: nat)
    requires i < |HistoryOf(s, key)|
    ensures Occurs(source, HistoryOf(s, key), Column(s.history[key][i], source.field))
    ensures SeenSince(source, HistoryOf(s, key), Column(s.history[key][i], source.field), s.history[key][i])
  {
    var h := HistoryOf(s, key);
    assert 0 <= i <= i < |h| && Column(h[i], source.field) == Column(s.history[key][i], source.field) && h[i] == s.history[key][i];
  }

  lemma CopiesKeepCount(source: Source, s: State, t: State)
    requires Counted(source, s) && t.rows == s.rows && t.history == s.history
    requires forall k :: k in t.copies ==> (k in s.copies && t.copies[k] == s.copies[k]) || HeldOk(source, s, k.1, t.copies[k].version)
    requires forall id :: id in t.flights ==> (id in s.flights && t.flights[id] == s.flights[id]) || FlightCounted(source, s, t.flights[id])
    ensures Counted(source, t)
  {
    hide Occurs, Rising;
  }

  /** One step keeps the versions counted. */
  lemma StepKeepsCount(source: Source, s: State, e: Event)
    requires Counted(source, s) && Calm(source, s, e) && Next(source, s, e).Some?
    ensures Counted(source, Next(source, s, e).value)
  {
    hide RowsOk, Perform, Occurs;
    match e
    case Arrive(id, answered) => ArriveKeepsCount(source, s, id, answered);
    case Load(c, key, i) =>
      LoadedOccurs(source, s, c, key, i);
      CopiesKeepCount(source, s, Next(source, s, e).value);
    case Adopt(id) =>
      assert FlightCounted(source, s, s.flights[id]);
      CopiesKeepCount(source, s, Next(source, s, e).value);
    case Remove(_) =>
    case _ => CopiesKeepCount(source, s, Next(source, s, e).value);
  }

  /**
   Every run of any number of clients, refreshed at any time, keeps the versions counted: they rise one by one, and nobody
   holds one the row has not had.
   */
  lemma {:induction false} RunsKeepCount(source: Source, s: State, events: seq<Event>)
    requires Counted(source, s) && CalmRun(source, s, events) && Run(source, s, events).Some?
    ensures Counted(source, Run(source, s, events).value)
    decreases |events|
  {
    hide Counted, Calm, Next;
    if events != [] {
      StepKeepsCount(source, s, events[0]);
      RunsKeepCount(source, Next(source, s, events[0]).value, events[1..]);
    }
  }

  /** Nothing accepted is ever dropped from a row's history: later contents only come after it. */
  lemma {:induction false} HistoryIsKept(source: Source, s: State, events: seq<Event>, key: string)
    requires Run(source, s, events).Some?
    ensures HistoryOf(s, key) <= HistoryOf(Run(source, s, events).value, key)
    decreases |events|
  {
    hide Perform;
    if events != [] {
      HistoryIsKept(source, Next(source, s, events[0]).value, events[1..], key);
    }
  }

  // ---- what is seen -------------------------------------------------------------------------------------------

  lemma CopySeesStill(source: Source, s: State, t: State, key: string, row: Row, k: string, version: Option<Value>, seen: Row)
    requires Extends(s, t, key, row) && CopySees(source, s, k, version, seen)
    ensures CopySees(source, t, k, version, seen)
  {
    hide SeenSince;
    HistoryGrows(s, t, key, row, k);
    if version.Some? {
      SeenStill(source, HistoryOf(s, k), if k == key then [row] else [], version.value, seen);
    }
  }

  lemma FlightSeesStill(source: Source, s: State, t: State, key: string, row: Row, flight: Flight)
    requires Extends(s, t, key, row) && FlightSees(source, s, flight)
    ensures FlightSees(source, t, flight)
  {
    hide CopySees;
    CopySeesStill(source, s, t, key, row, flight.key, flight.version, flight.seen);
    HistoryGrows(s, t, key, row, flight.key);
  }

  lemma AnsweredSees(source: Source, s: State, t: State, flight: Flight, answered: bool, row: Row)
    requires Extends(s, t, flight.key, row) && FlightSees(source, s, flight)
    requires Bumps(OperationOf(source, flight), source.field) ==> Column(row, source.field) == NextVersion(OperationOf(source, flight), source.field)
    ensures FlightSees(source, t, Answered(source, flight, answered, row))
  {
    FlightSeesStill(source, s, t, flight.key, row, flight);
    var h := HistoryOf(t, flight.key);
    assert h[|h| - 1] == row;
  }

  lemma ArriveKeepsSight(source: Source, s: State, id: nat, answered: bool)
    requires Ordered(source, s) && Calm(source, s, Arrive(id, answered)) && Next(source, s, Arrive(id, answered)).Some?
    ensures Sees(source, Next(source, s, Arrive(id, answered)).value)
  {
    var t := Next(source, s, Arrive(id, answered)).value;
    if t != s {
      WriteExtends(source, s, id, answered);
      hide Next, Perform, RowsOk, CopySees, FlightSees, Bumps, Answered, FlightCounted;
      var flight := s.flights[id];
      var row := t.rows[flight.key];
      assert Extends(s, t, flight.key, row);
      forall k | k in t.copies ensures CopySees(source, t, k.1, t.copies[k].version, t.copies[k].seen) {
        CopySeesStill(source, s, t, flight.key, row, k.1, t.copies[k].version, t.copies[k].seen);
      }
      forall i | i in t.flights ensures FlightSees(source, t, t.flights[i]) {
        if i == id {
          AnsweredSees(source, s, t, flight, answered, row);
        } else {
          FlightSeesStill(source, s, t, flight.key, row, t.flights[i]);
        }
      }
    }
  }

  /** Contents and versions rise together: what has been seen since a version is what is no older. */
  lemma NotOlderIsSeen(source: Source, h: seq<Row>, v: Value, seen: Row)
    requires Rising(source, h) && Occurs(source, h, v) && v.Number? && (seen in h || seen == map[])
    ensures SeenSince(source, h, v, seen) <==> !OlderThan(source, seen, v)
  {
    var i :| 0 <= i < |h| && v == Column(h[i], source.field);
    if !OlderThan(source, seen, v) {
      var j :| 0 <= j < |h| && seen == h[j];
      assert i <= j;
    }
  }

  lemma SeenWasThere(source: Source, s: State, key: string, version: Option<Value>, seen: Row)
    requires CopySees(source, s, key, version, seen)
    ensures seen in HistoryOf(s, key) || seen == map[]
  {
  }

  lemma RisingHere(source: Source, s: State, flight: Flight)
    requires Counted(source, s) && FlightCounted(source, s, flight) && flight.report.Some?
    ensures flight.key in s.rows && HistoryOf(s, flight.key) == s.history[flight.key] && Rising(source, s.history[flight.key])
    ensures s.rows[flight.key] == s.history[flight.key][|s.history[flight.key]| - 1]
  {
  }

  /** An adopted report keeps the order exactly when it is not put on top of an older content. */
  lemma AdoptedSees(source: Source, s: State, id: nat)
    requires Ordered(source, s) && Adoptable(s, id)
    ensures var flight := s.flights[id]; var copy := Adopted(s.copies[(flight.c, flight.key)], flight);
            CopySees(source, s, flight.key, copy.version, copy.seen) <==> !Backdates(source, s, id)
  {
    var flight := s.flights[id];
    var key, report, copy := flight.key, flight.report.value, s.copies[(flight.c, flight.key)];
    assert FlightCounted(source, s, flight) && FlightSees(source, s, flight) && CopySees(source, s, key, copy.version, copy.seen);
    RisingHere(source, s, flight);
    SeenWasThere(source, s, key, copy.version, copy.seen);
    hide Counted, Sees, SeenSince, Rising, Occurs;
    NotOlderIsSeen(source, s.history[key], report.version, if copy.stamp == flight.stamp then report.row else copy.seen);
  }

  lemma CopiesKeepSight(source: Source, s: State, t: State)
    requires Sees(source, s) && t.history == s.history
    requires forall k :: k in t.copies ==> (k in s.copies && t.copies[k] == s.copies[k]) || CopySees(source, s, k.1, t.copies[k].version, t.copies[k].seen)
    requires forall id :: id in t.flights ==> (id in s.flights && t.flights[id] == s.flights[id]) || FlightSees(source, s, t.flights[id])
    ensures Sees(source, t)
  {
    hide SeenSince;
  }

  lemma AdoptKeepsSight(source: Source, s: State, id: nat)
    requires Ordered(source, s) && Adoptable(s, id)
    ensures Sees(source, Next(source, s, Adopt(id)).value) <==> !Backdates(source, s, id)
  {
    AdoptedSees(source, s, id);
    hide Perform, Backdates, Adopted, SeenSince, Counted, ReportOk;
    var t := Next(source, s, Adopt(id)).value;
    var k := (s.flights[id].c, s.flights[id].key);
    assert k in t.copies && t.copies[k] == Adopted(s.copies[k], s.flights[id]);
    assert CopySees(source, t, k.1, t.copies[k].version, t.copies[k].seen) <==> !Backdates(source, s, id);
    if !Backdates(source, s, id) {
      CopiesKeepSight(source, s, t);
    }
  }

  lemma OthersKeepSight(source: Source, s: State, e: Event)
    requires Ordered(source, s) && Calm(source, s, e) && Next(source, s, e).Some? && !e.Adopt?
    ensures Sees(source, Next(source, s, e).value)
  {
    hide Perform, SeenSince, ReportOk, Counted;
    match e
    case Arrive(id, answered) => ArriveKeepsSight(source, s, id, answered);
    case Load(c, key, i) =>
      LoadedOccurs(source, s, c, key, i);
      CopiesKeepSight(source, s, Next(source, s, e).value);
    case Remove(_) =>
    case Adopt(_) =>
    case _ => CopiesKeepSight(source, s, Next(source, s, e).value);
  }

  /** One step keeps the order, unless it puts a report on top of an older content. */
  lemma StepKeepsOrder(source: Source, s: State, e: Event)
    requires Ordered(source, s) && Calm(source, s, e) && Next(source, s, e).Some?
    ensures Ordered(source, Next(source, s, e).value) <==> !(e.Adopt? && Backdates(source, s, e.id))
  {
    hide Counted, Sees, Backdates, Perform, Landed;
    StepKeepsCount(source, s, e);
    if e.Adopt? {
      AdoptKeepsSight(source, s, e.id);
    } else {
      OthersKeepSight(source, s, e);
    }
  }

  /** No report of the run is adopted on top of an older content. */
  predicate TimelyRun(source: Source, s: State, events: seq<Event>)
    decreases |events|
  {
    events == [] || (&& Calm(source, s, events[0])
                     && (events[0].Adopt? && Adoptable(s, events[0].id) ==> !Backdates(source, s, events[0].id))
                     && match Next(source, s, events[0])
                        case None => true
                        case Some(t) => TimelyRun(source, t, events[1..]))
  }

  /** Every run keeps the order in which no report is adopted on top of an older content, whatever else is refreshed. */
  lemma {:induction false} RunsKeepOrder(source: Source, s: State, events: seq<Event>)
    requires Ordered(source, s) && TimelyRun(source, s, events) && Run(source, s, events).Some?
    ensures Ordered(source, Run(source, s, events).value)
    decreases |events|
  {
    hide Ordered, Calm, Backdates;
    if events != [] {
      StepKeepsOrder(source, s, events[0]);
      RunsKeepOrder(source, Next(source, s, events[0]).value, events[1..]);
    }
  }

  /** Sources start with numbered rows and no copies. */
  lemma StartsOrdered(source: Source, rows: Rows)
    requires source.field != source.idKey
    requires forall key :: key in rows ==> Column(rows[key], source.field).Number?
    ensures Ordered(source, Start(rows))
  {
  }

  function Start(rows: Rows): State {
    State(rows, map key | key in rows :: [rows[key]], map[], map[], 0)
  }

  /** However its clients interleave and refresh, every accepted write of a present row expected what the last one left. */
  lemma EveryWriteExpectsTheLast(source: Source, rows: Rows, events: seq<Event>, id: nat, answered: bool)
    requires source.field != source.idKey && forall key :: key in rows ==> Column(rows[key], source.field).Number?
    requires CalmRun(source, Start(rows), events) && Run(source, Start(rows), events).Some?
    requires var s := Run(source, Start(rows), events).value;
             id in s.flights && s.flights[id].report.None? && s.flights[id].key in s.rows && Calm(source, s, Arrive(id, answered))
    ensures var s := Run(source, Start(rows), events).value; var flight := s.flights[id]; var t := Next(source, s, Arrive(id, answered)).value;
            && (t.rows != s.rows <==> ExpectsIt(source, s, flight))
            && (t.rows != s.rows ==> Column(t.rows[flight.key], source.field) == Number(flight.version.value.n + 1))
  {
    hide Counted, Sees, Next, Run, CalmRun, ExpectsIt, Start;
    StartsOrdered(source, rows);
    RunsKeepCount(source, Start(rows), events);
    AcceptedWriteExpectsTheLast(source, Run(source, Start(rows), events).value, id, answered);
  }

  /** If no report came to an older content, it also saw what the last one left: no update is lost. */
  lemma NoUpdateIsLost(source: Source, rows: Rows, events: seq<Event>, id: nat, answered: bool)
    requires source.field != source.idKey && forall key :: key in rows ==> Column(rows[key], source.field).Number?
    requires TimelyRun(source, Start(rows), events) && Run(source, Start(rows), events).Some?
    requires var s := Run(source, Start(rows), events).value;
             id in s.flights && s.flights[id].report.None? && s.flights[id].key in s.rows && Calm(source, s, Arrive(id, answered))
    ensures var s := Run(source, Start(rows), events).value; var flight := s.flights[id]; var t := Next(source, s, Arrive(id, answered)).value;
            t.rows != s.rows ==> ExpectsIt(source, s, flight) && flight.seen == s.rows[flight.key] && t.rows == s.rows[flight.key := flight.seen + Changes(source, flight)]
  {
    hide Counted, Sees, Next, Run, TimelyRun, ExpectsIt, Start;
    StartsOrdered(source, rows);
    RunsKeepOrder(source, Start(rows), events);
    AcceptedWriteExpectsTheLast(source, Run(source, Start(rows), events).value, id, answered);
    AcceptedWriteReplacesWhatItSaw(source, Run(source, Start(rows), events).value, id, answered);
  }

  // ---- when a refresh during a flush loses a write ------------------------------------------------------------

  lemma TheLatestIsSeen(source: Source, h: seq<Row>)
    requires |h| > 0
    ensures SeenSince(source, h, Column(h[|h| - 1], source.field), h[|h| - 1])
  {
    var n := |h| - 1;
    assert 0 <= n <= n < |h| && Column(h[n], source.field) == Column(h[n], source.field) && h[n] == h[n];
  }

  /** A write sent from the copy now and executed at once changes the row. */
  predicate WouldWrite(source: Source, s: State, c: nat, key: string, edits: Row)
    requires (c, key) in s.copies
  {
    var copy := s.copies[(c, key)];
    var step := Perform(source, s.rows, Flight(c, key, copy.version, copy.seen, edits, copy.stamp, None));
    step.failure.None? && step.rows != s.rows
  }

  /**
   When a report is adopted whose version the row still has, the copy's next write is accepted, whatever it is; and it
   overwrites a content its client never saw exactly when the copy was loaded again, during the flush, with a content older
   than the report.
   */
  lemma BackdatedWriteIsLost(source: Source, s: State, id: nat, edits: Row)
    requires Ordered(source, s) && Adoptable(s, id) && source.field !in edits
    requires s.flights[id].key in s.rows && Column(s.rows[s.flights[id].key], source.field) == s.flights[id].report.value.version
    requires !AtLimit(source, s, s.flights[id].key)
    ensures var flight := s.flights[id]; var t := Next(source, s, Adopt(id)).value;
            && (flight.c, flight.key) in t.copies && t.rows == s.rows && flight.key in t.rows
            && WouldWrite(source, t, flight.c, flight.key, edits)
            && (t.copies[(flight.c, flight.key)].seen != t.rows[flight.key] <==> Backdates(source, s, id))
  {
    var flight := s.flights[id];
    var key := flight.key;
    var t := Next(source, s, Adopt(id)).value;
    var copy := t.copies[(flight.c, key)];
    AdoptedSees(source, s, id);
    assert FlightCounted(source, s, flight);
    RisingHere(source, s, flight);
    var next := Flight(flight.c, key, copy.version, copy.seen, edits, copy.stamp, None);
    assert RowsOk(source, t) by {
      RowsOnly(source, s, t);
    }
    hide Counted, Sees, Backdates, FlightCounted, RowsOk;
    WriteApplies(source, t, next);
    assert ExpectsIt(source, t, next);
    var row := t.rows[key] + Changes(source, next);
    assert Column(row, source.field) != Column(t.rows[key], source.field);
    assert t.rows[key := row][key] == row;
    hide Perform, Changes;
    TheLatestIsSeen(source, s.history[key]);
    if CopySees(source, s, key, copy.version, copy.seen) {
      LatestIsSeen(source, s.history[key], copy.version.value, copy.seen);
    }
  }

  // ---- the runs left out --------------------------------------------------------------------------------------

  /** An accepted write raises its row's version exactly below the largest whole number a double counts one by one. */
  lemma VersionRisesIff(source: Source, s: State, flight: Flight)
    requires RowsOk(source, s) && ExpectsIt(source, s, flight) && source.field !in flight.edits
    ensures var step := Perform(source, s.rows, flight);
            && step.failure.None? && flight.key in step.rows
            && (Column(step.rows[flight.key], source.field) == Column(s.rows[flight.key], source.field) <==> AtLimit(source, s, flight.key))
  {
    WriteApplies(source, s, flight);
  }

  /** A write of a row that was deleted is accepted whatever version it expects, and inserts the row with its fields alone. */
  lemma AbsentRowTakesAnyWrite(source: Source, s: State, flight: Flight)
    requires flight.key !in s.rows
    ensures var step := Perform(source, s.rows, flight);
            step.failure.None? && flight.key in step.rows && step.rows != s.rows
            && forall column :: column in flight.edits && column != source.idKey && column != source.field ==>
                                  column in step.rows[flight.key] && step.rows[flight.key][column] == flight.edits[column]
  {
    var fields := FieldsOf(WriteBatch(source), BumpedOp(OperationOf(source, flight), source.field));
    forall column | column in flight.edits && column != source.idKey && column != source.field
      ensures column in fields && fields[column] == flight.edits[column]
    {
    }
  }

  /** A row, two columns: the version and one other. */
  function Content(n: Whole, value: string): Row {
    map["id" := Text("1"), "v" := Number(n), "f" := Text(value)]
  }

  const Table: Source := Source("id", "v")

  function Sent(c: nat, n: Whole, value: string, stamp: nat): Flight {
    Flight(c, "1", Some(Number(n)), Content(n, "old"), map["f" := Text(value)], stamp, None)
  }

  /** Two clients have loaded the same row, and each has a write of it on its way. */
  function Two(n: Whole): State {
    var row := Content(n, "old");
    State(map["1" := row], map["1" := [row]],
          map[(0, "1") := Copy(Some(Number(n)), row, 0), (1, "1") := Copy(Some(Number(n)), row, 1)],
          map[2 := Sent(0, n, "mine", 0), 3 := Sent(1, n, "theirs", 1)], 4)
  }

  lemma WriteOf(s: State, flight: Flight, n: Whole, value: string)
    requires flight.key == "1" && flight.version == Some(Number(n)) && flight.edits == map["f" := Text(value)]
    requires "1" in s.rows ==> Column(s.rows["1"], "v") == Number(n)
    ensures var step := Perform(Table, s.rows, flight);
            step.failure == None && "1" in step.rows
            && step.rows["1"] == (if "1" in s.rows then s.rows["1"] else map["id" := Text("1")])
                                 + map["f" := Text(value), "v" := Number(Successor(n))]
  {
    var op := OperationOf(Table, flight);
    assert Bumps(op, "v");
    var fields := FieldsOf(WriteBatch(Table), BumpedOp(op, "v"));
    assert fields == map["f" := Text(value), "v" := Number(Successor(n))];
    assert "f" in fields;
  }

  /** At the largest whole number the version stands still: the second client overwrites the first unseen. */
  lemma AtTheLimitAWriteIsLost()
    ensures var s := Next(Table, Two(LARGEST), Arrive(2, true)).value; var t := Next(Table, s, Arrive(3, true)).value;
            && Column(s.rows["1"], "f") == Text("mine") && Column(t.rows["1"], "f") == Text("theirs")
            && s.flights[3].seen != s.rows["1"]
  {
    var s := Two(LARGEST);
    WriteOf(s, s.flights[2], LARGEST, "mine");
    LandsOn(s, 2);
    var t := Next(Table, s, Arrive(2, true)).value;
    hide Next, Perform;
    WriteOf(t, t.flights[3], LARGEST, "theirs");
    LandsOn(t, 3);
  }

  /** A write that changes the row's content lands. */
  lemma LandsOn(s: State, id: nat)
    requires id in s.flights && s.flights[id].report.None? && s.flights[id].key in s.rows
    requires var step := Perform(Table, s.rows, s.flights[id]); var key := s.flights[id].key;
             step.failure.None? && key in step.rows && Column(step.rows[key], "f") != Column(s.rows[key], "f")
    ensures Next(Table, s, Arrive(id, true)) == Some(Landed(Table, s, id, true, Perform(Table, s.rows, s.flights[id]).rows))
  {
    hide Perform, Landed;
  }

  /** A copy is loaded and its write accepted; before the report comes, the old content is loaded again. */
  function Raced(): seq<Event> {
    [Load(0, "1", 0), Send(0, "1", map["f" := Text("new")]), Arrive(1, true), Load(0, "1", 0)]
  }

  function Written(): Row {
    map["id" := Text("1"), "v" := Number(2), "f" := Text("new")]
  }

  function BeforeTheReport(): State {
    var row := Content(1, "old");
    State(map["1" := Written()], map["1" := [row, Written()]], map[(0, "1") := Copy(Some(Number(1)), row, 2)],
          map[1 := Sent(0, 1, "new", 0).(report := Some(Report(Number(2), Written())))], 3)
  }

  lemma FirstSent()
    ensures var start := Start(map["1" := Content(1, "old")]); var s := State(start.rows, start.history, map[(0, "1") := Copy(Some(Number(1)), Content(1, "old"), 0)], map[1 := Sent(0, 1, "new", 0)], 2);
            Next(Table, start, Load(0, "1", 0)).Some? && Next(Table, Next(Table, start, Load(0, "1", 0)).value, Send(0, "1", map["f" := Text("new")])) == Some(s)
  {
    hide Perform;
  }

  lemma ThenWritten(s: State)
    requires s.rows == map["1" := Content(1, "old")] && s.history == map["1" := [Content(1, "old")]] && s.flights == map[1 := Sent(0, 1, "new", 0)]
    ensures var flight := Sent(0, 1, "new", 0).(report := Some(Report(Number(2), Written())));
            Next(Table, s, Arrive(1, true)) == Some(s.(rows := map["1" := Written()], history := map["1" := [Content(1, "old"), Written()]], flights := map[1 := flight]))
  {
    WriteOf(s, s.flights[1], 1, "new");
    LandsOn(s, 1);
    var step := Perform(Table, s.rows, s.flights[1]);
    assert step.rows["1"] == Written();
    assert Bumps(OperationOf(Table, s.flights[1]), "v") && NextVersion(OperationOf(Table, s.flights[1]), "v") == Number(2);
    WriteLands(Table, s, 1, true);
    hide Perform, Next;
    assert step.rows == map["1" := Written()];
    assert [Content(1, "old")] + [Written()] == [Content(1, "old"), Written()];
    var t := Landed(Table, s, 1, true, step.rows);
    assert t.history == map["1" := [Content(1, "old"), Written()]];
    assert Answered(Table, s.flights[1], true, Written()) == Sent(0, 1, "new", 0).(report := Some(Report(Number(2), Written())));
    assert t.flights == map[1 := Sent(0, 1, "new", 0).(report := Some(Report(Number(2), Written())))];
  }

  /** The report is then adopted on top of the old content: nothing else went wrong before. */
  lemma RefreshDuringAFlushLosesItsWrite()
    ensures var start := Start(map["1" := Content(1, "old")]);
            && Run(Table, start, Raced()) == Some(BeforeTheReport()) && Adoptable(BeforeTheReport(), 1) && Backdates(Table, BeforeTheReport(), 1)
            && Column(BeforeTheReport().rows["1"], "v") == BeforeTheReport().flights[1].report.value.version
  {
    var start := Start(map["1" := Content(1, "old")]);
    FirstSent();
    var s1 := Next(Table, start, Load(0, "1", 0)).value;
    var s2 := Next(Table, s1, Send(0, "1", map["f" := Text("new")])).value;
    ThenWritten(s2);
    var s3 := Next(Table, s2, Arrive(1, true)).value;
    hide Perform, Start;
    assert HistoryOf(s3, "1")[0] == Content(1, "old") && s3.copies == map[(0, "1") := Copy(Some(Number(1)), Content(1, "old"), 0)];
    assert Next(Table, s3, Load(0, "1", 0)).value.copies == BeforeTheReport().copies;
    assert Next(Table, s3, Load(0, "1", 0)) == Some(BeforeTheReport());
    assert Raced()[1..] == [Send(0, "1", map["f" := Text("new")]), Arrive(1, true), Load(0, "1", 0)];
    assert Raced()[1..][1..] == [Arrive(1, true), Load(0, "1", 0)] && Raced()[1..][1..][1..] == [Load(0, "1", 0)];
    assert [Load(0, "1", 0)][1..] == [];
    hide Next;
    assert Run(Table, BeforeTheReport(), []) == Some(BeforeTheReport());
    assert Run(Table, s3, [Load(0, "1", 0)]) == Some(BeforeTheReport());
    assert Run(Table, s2, [Arrive(1, true), Load(0, "1", 0)]) == Some(BeforeTheReport());
    assert Run(Table, s1, Raced()[1..]) == Some(BeforeTheReport());
  }
}
