/**
 Retrying and reopening a data-source connection, for any number of concurrent callers.

 Between two awaits a caller runs undisturbed, so the protocol is a state machine over those stretches. The running reopen
 tasks are kept apart from the field that callers look at; the field is cleared a moment after its task has ended.
 `RunKeepsOrder` says what every run keeps: at most one reopen runs, and it is the field's; a replaced adapter is disposed
 exactly once and never current again, no call starts on a disposed adapter, and each caller makes at most
 max(1, MaxAttempts) calls. `NothingAfterPermanent`: none after a permanent failure. `SecondTransientWaits`: the second
 transient failure in a row on the current adapter waits for a reopen. `AdaptersFollowDeliveries` says which adapter is
 current after any run, `CallerFinishes` bounds every caller's steps, and `RetriesOnFailedIff` says when a caller that waited
 for a reopen calls the adapter that failed it again, as it does in `LateJoinIsReached`.
 */
module Reconnect {
  import opened Wrappers

  datatype Kind = Transient | Auth | Permanent

  /** Why a caller gave up. */
  datatype Reason = WasPermanent | AttemptsSpent | ReopenFailed

  /** A waiting caller is late when the reopen it joined had already given its adapter. */
  datatype Phase =
    | Calling
    | Waiting(reopen: nat, kind: Kind, late: bool)
    | Sleeping
    | Finished(failure: Option<Reason>)

  /** A caller's loop variables, the adapter of its last call, and how many calls it has made. */
  datatype Caller = Caller(phase: Phase, attempt: nat, transients: nat, on: nat, calls: nat)

  /** A reopen waits for its new adapter, then for the old one to be disposed of. */
  datatype Task = Opening(previous: nat) | Disposing(previous: nat) | Ended(previous: nat, ok: bool)

  /**
   `reopening` is the field, `tasks` are all reopens ever started, numbered; `seen` are the adapters ever made, `replaced`
   those no longer current; `disposals` counts calls of Dispose.
   */
  datatype State = State(inner: nat, reopening: Option<nat>, tasks: seq<Task>, callers: map<nat, Caller>, seen: set<nat>,
                         replaced: set<nat>, disposals: multiset<nat>)

  datatype Event =
    | Start(c: nat)
    | CallSucceeds(c: nat)
    | CallFails(c: nat, kind: Kind)
    | Wake(c: nat)
    | Resume(c: nat)
    | ReopenGives(id: nat, next: nat)
    | ReopenFails(id: nat)
    | DisposeEnds(id: nat)
    | Clear

  function Init(inner: nat): State {
    State(inner, None, [], map[], {inner}, {}, multiset{})
  }

  // ---- steps --------------------------------------------------------------------------------------------------

  function With(s: State, c: nat, caller: Caller): State {
    s.(callers := s.callers[c := caller])
  }

  /** One more call, on the adapter that is current now. */
  function Call(s: State, c: nat, caller: Caller): State {
    With(s, c, caller.(phase := Calling, on := s.inner, calls := caller.calls + 1))
  }

  /** Joins the reopen in the field, or starts one. */
  function Reopen(s: State, c: nat, caller: Caller, kind: Kind): State {
    match s.reopening
    case Some(id) => With(s, c, caller.(phase := Waiting(id, kind, id < |s.tasks| && !s.tasks[id].Opening?)))
    case None =>
      With(s, c, caller.(phase := Waiting(|s.tasks|, kind, false))).(reopening := Some(|s.tasks|), tasks := s.tasks + [Opening(s.inner)])
  }

  function GiveUp(s: State, c: nat, caller: Caller, reason: Reason): State {
    With(s, c, caller.(phase := Finished(Some(reason))))
  }

  /** What a caller does with a failed call, up to its next await. */
  function Failed(s: State, c: nat, caller: Caller, kind: Kind, maxAttempts: int): State {
    if kind.Permanent? then GiveUp(s, c, caller, WasPermanent)
    else if caller.attempt >= maxAttempts then GiveUp(s, c, caller, AttemptsSpent)
    else if s.inner != caller.on then With(s, c, caller.(phase := Sleeping, transients := 0))
    else if kind.Auth? then Reopen(s, c, caller, Auth)
    else
      var next := caller.(transients := caller.transients + 1);
      if next.transients >= 2 then Reopen(s, c, next, Transient) else With(s, c, next.(phase := Sleeping))
  }

  predicate Running(s: State, id: nat) {
    id < |s.tasks| && !s.tasks[id].Ended?
  }

  /** The field is cleared before anyone who awaited the task goes on. */
  predicate MayResume(s: State, c: nat) {
    c in s.callers && s.callers[c].phase.Waiting? && s.callers[c].phase.reopen < |s.tasks| && s.tasks[s.callers[c].phase.reopen].Ended?
    && s.reopening != Some(s.callers[c].phase.reopen)
  }

  /** The state after an event; None when the event cannot happen. A reopen gives an adapter never seen before. */
  function Next(s: State, e: Event, maxAttempts: int): Option<State> {
    match e
    case Start(c) =>
      if c in s.callers then None else Some(Call(s, c, Caller(Sleeping, 1, 0, s.inner, 0)))
    case CallSucceeds(c) =>
      if c in s.callers && s.callers[c].phase.Calling? then Some(With(s, c, s.callers[c].(phase := Finished(None)))) else None
    case CallFails(c, kind) =>
      if c in s.callers && s.callers[c].phase.Calling? then Some(Failed(s, c, s.callers[c], kind, maxAttempts)) else None
    case Wake(c) =>
      if c in s.callers && s.callers[c].phase.Sleeping? then Some(Call(s, c, s.callers[c].(attempt := s.callers[c].attempt + 1))) else None
    case Resume(c) =>
      if !MayResume(s, c) then None
      else
        var caller := s.callers[c];
        if !s.tasks[caller.phase.reopen].ok then Some(GiveUp(s, c, caller, ReopenFailed))
        else Some(With(s, c, caller.(phase := Sleeping, transients := if caller.phase.kind.Auth? then 0 else caller.transients)))
    case ReopenGives(id, next) =>
      if id >= |s.tasks| || !s.tasks[id].Opening? || next in s.seen then None
      else
        var previous := s.tasks[id].previous;
        Some(s.(inner := next, tasks := s.tasks[id := Disposing(previous)], seen := s.seen + {next},
                replaced := s.replaced + {previous}, disposals := s.disposals + multiset{previous}))
    case ReopenFails(id) =>
      if id >= |s.tasks| || !s.tasks[id].Opening? then None
      else Some(s.(tasks := s.tasks[id := Ended(s.tasks[id].previous, false)]))
    case DisposeEnds(id) =>
      if id >= |s.tasks| || !s.tasks[id].Disposing? then None
      else Some(s.(tasks := s.tasks[id := Ended(s.tasks[id].previous, true)]))
    case Clear =>
      if s.reopening.None? || Running(s, s.reopening.value) then None else Some(s.(reopening := None))
  }

  /** The caller an event belongs to. */
  function CallerOf(e: Event): Option<nat> {
    match e
    case Start(c) => Some(c)
    case CallSucceeds(c) => Some(c)
    case CallFails(c, _) => Some(c)
    case Wake(c) => Some(c)
    case Resume(c) => Some(c)
    case _ => None
  }

  function Run(s: State, events: seq<Event>, maxAttempts: int): Option<State>
    decreases |events|
  {
    if events == [] then Some(s)
    else
      match Next(s, events[0], maxAttempts)
      case None => None
      case Some(t) => Run(t, events[1..], maxAttempts)
  }

  // ---- what every run keeps -----------------------------------------------------------------------------------

  function MostCalls(maxAttempts: int): int {
    if maxAttempts < 1 then 1 else maxAttempts
  }

  /** The current adapter is open; every other adapter was replaced, and disposed of once. */
  predicate AdaptersOk(s: State) {
    && s.inner !in s.replaced && s.seen == s.replaced + {s.inner}
    && s.disposals == multiset(s.replaced)
  }

  /** At most one reopen runs, and it is the field's; one that is opening is to replace the current adapter. */
  ghost predicate TasksOk(s: State) {
    && (s.reopening.Some? ==> s.reopening.value < |s.tasks|)
    && (forall id: nat :: Running(s, id) ==> s.reopening == Some(id))
    && (forall id: nat :: id < |s.tasks| && s.tasks[id].Opening? ==> s.tasks[id].previous == s.inner)
    && (forall id: nat :: id < |s.tasks| && (s.tasks[id].Disposing? || (s.tasks[id].Ended? && s.tasks[id].ok)) ==> s.tasks[id].previous in s.replaced)
  }

  /** A caller that was not late waits for the reopen that is to replace the adapter that failed it. */
  predicate WaitOk(s: State, caller: Caller, maxAttempts: int)
    requires caller.phase.Waiting?
  {
    && caller.attempt < maxAttempts && caller.phase.reopen < |s.tasks|
    && (caller.phase.kind.Transient? ==> caller.transients >= 2) && !caller.phase.kind.Permanent?
    && (!caller.phase.late ==> s.tasks[caller.phase.reopen].previous == caller.on)
    && (caller.phase.late ==> !s.tasks[caller.phase.reopen].Opening?)
  }

  predicate CallerOk(s: State, caller: Caller, maxAttempts: int) {
    && caller.calls == caller.attempt >= 1
    && caller.calls <= MostCalls(maxAttempts)
    && caller.on in s.seen
    && (caller.phase.Waiting? ==> WaitOk(s, caller, maxAttempts))
    && (caller.phase.Sleeping? ==> caller.attempt < maxAttempts)
    && (caller.phase == Finished(Some(AttemptsSpent)) ==> caller.attempt >= maxAttempts)
  }

  ghost predicate Ordered(s: State, maxAttempts: int) {
    && AdaptersOk(s) && TasksOk(s)
    && (forall c :: c in s.callers ==> CallerOk(s, s.callers[c], maxAttempts))
  }

  lemma InitOrdered(inner: nat, maxAttempts: int)
    ensures Ordered(Init(inner), maxAttempts)
  {
  }

  lemma AdaptersKept(s: State, e: Event, maxAttempts: int)
    requires AdaptersOk(s) && TasksOk(s) && Next(s, e, maxAttempts).Some?
    ensures AdaptersOk(Next(s, e, maxAttempts).value)
  {
    if e.ReopenGives? {
      var previous := s.tasks[e.id].previous;
      assert multiset(s.replaced + {previous}) == multiset(s.replaced) + multiset{previous};
    }
  }

  /** What a failed call does to the reopens: nothing, or it starts one where the field is empty. */
  lemma FailedStarts(s: State, c: nat, caller: Caller, kind: Kind, maxAttempts: int)
    ensures var t := Failed(s, c, caller, kind, maxAttempts);
            && t.inner == s.inner && t.replaced == s.replaced && t.seen == s.seen && t.disposals == s.disposals
            && (if s.reopening.None? && t.reopening.Some? then t.reopening == Some(|s.tasks|) && t.tasks == s.tasks + [Opening(s.inner)]
                else t.reopening == s.reopening && t.tasks == s.tasks)
  {
  }

  lemma TasksKept(s: State, e: Event, maxAttempts: int)
    requires AdaptersOk(s) && TasksOk(s) && Next(s, e, maxAttempts).Some?
    ensures TasksOk(Next(s, e, maxAttempts).value)
  {
    hide Failed;
    if e.CallFails? {
      FailedStarts(s, e.c, s.callers[e.c], e.kind, maxAttempts);
    }
    var t := Next(s, e, maxAttempts).value;
    assert forall id: nat :: id < |s.tasks| && s.tasks[id].Opening? ==> Running(s, id);
    assert forall id: nat :: Running(t, id) && id < |s.tasks| ==> Running(s, id);
  }

  /** Tasks keep their adapter, only move on, and are only added to. */
  predicate TasksMoveOn(s: State, t: State) {
    && |s.tasks| <= |t.tasks|
    && forall id: nat :: id < |s.tasks| ==> t.tasks[id].previous == s.tasks[id].previous && (t.tasks[id].Opening? ==> s.tasks[id].Opening?)
  }

  lemma TasksMove(s: State, e: Event, maxAttempts: int)
    requires Next(s, e, maxAttempts).Some?
    ensures TasksMoveOn(s, Next(s, e, maxAttempts).value) && s.seen <= Next(s, e, maxAttempts).value.seen
  {
  }

  lemma FailedCallerOk(s: State, c: nat, caller: Caller, kind: Kind, maxAttempts: int)
    requires CallerOk(s, caller, maxAttempts) && caller.phase.Calling? && TasksOk(s)
    ensures var t := Failed(s, c, caller, kind, maxAttempts); c in t.callers && CallerOk(t, t.callers[c], maxAttempts)
  {
    if s.reopening.Some? {
      var id := s.reopening.value;
      assert s.tasks[id].Opening? ==> s.tasks[id].previous == s.inner;
    }
    hide TasksOk;
  }

  lemma OtherCallerOk(s: State, t: State, caller: Caller, maxAttempts: int)
    requires CallerOk(s, caller, maxAttempts) && TasksMoveOn(s, t) && s.seen <= t.seen
    ensures CallerOk(t, caller, maxAttempts)
  {
  }

  lemma CallerKept(s: State, e: Event, maxAttempts: int, c: nat)
    requires Ordered(s, maxAttempts) && Next(s, e, maxAttempts).Some? && c in Next(s, e, maxAttempts).value.callers
    requires TasksMoveOn(s, Next(s, e, maxAttempts).value) && s.seen <= Next(s, e, maxAttempts).value.seen
    ensures CallerOk(Next(s, e, maxAttempts).value, Next(s, e, maxAttempts).value.callers[c], maxAttempts)
  {
    assert c in s.callers ==> CallerOk(s, s.callers[c], maxAttempts);
    hide Failed, TasksMoveOn;
    if CallerOf(e) != Some(c) {
      assert Next(s, e, maxAttempts).value.callers[c] == s.callers[c] by {
        if e.CallFails? {
          FailedKeepsOthers(s, e.c, s.callers[e.c], e.kind, maxAttempts, c);
        }
      }
      OtherCallerOk(s, Next(s, e, maxAttempts).value, s.callers[c], maxAttempts);
    } else if e.CallFails? {
      FailedCallerOk(s, c, s.callers[c], e.kind, maxAttempts);
    } else {
      hide TasksOk;
    }
  }

  lemma FailedKeepsOthers(s: State, c: nat, caller: Caller, kind: Kind, maxAttempts: int, other: nat)
    requires other != c
    ensures other in Failed(s, c, caller, kind, maxAttempts).callers ==> other in s.callers && Failed(s, c, caller, kind, maxAttempts).callers[other] == s.callers[other]
  {
  }

  lemma CallersKept(s: State, e: Event, maxAttempts: int)
    requires Ordered(s, maxAttempts) && Next(s, e, maxAttempts).Some?
    ensures forall c :: c in Next(s, e, maxAttempts).value.callers ==> CallerOk(Next(s, e, maxAttempts).value, Next(s, e, maxAttempts).value.callers[c], maxAttempts)
  {
    hide Next, CallerOk, Ordered, TasksMoveOn;
    TasksMove(s, e, maxAttempts);
    forall c | c in Next(s, e, maxAttempts).value.callers
      ensures CallerOk(Next(s, e, maxAttempts).value, Next(s, e, maxAttempts).value.callers[c], maxAttempts)
    {
      CallerKept(s, e, maxAttempts, c);
    }
  }

  /** One step keeps the order. */
  lemma StepKeepsOrder(s: State, e: Event, maxAttempts: int)
    requires Ordered(s, maxAttempts) && Next(s, e, maxAttempts).Some?
    ensures Ordered(Next(s, e, maxAttempts).value, maxAttempts)
  {
    hide AdaptersOk, TasksOk, CallerOk, Next;
    AdaptersKept(s, e, maxAttempts);
    TasksKept(s, e, maxAttempts);
    CallersKept(s, e, maxAttempts);
  }

  /** Every run from a fresh connection, however its callers interleave, keeps the order. */
  lemma {:induction false} RunKeepsOrder(s: State, events: seq<Event>, maxAttempts: int)
    requires Ordered(s, maxAttempts) && Run(s, events, maxAttempts).Some?
    ensures Ordered(Run(s, events, maxAttempts).value, maxAttempts)
    decreases |events|
  {
    hide Ordered, Next;
    if events != [] {
      StepKeepsOrder(s, events[0], maxAttempts);
      RunKeepsOrder(Next(s, events[0], maxAttempts).value, events[1..], maxAttempts);
    }
  }

  // ---- what a run can change ----------------------------------------------------------------------------------

  /** After every run from a fresh connection at most one reopen is running, and the field names it. */
  lemma OneReopenInFlight(inner: nat, events: seq<Event>, maxAttempts: int, i: nat, j: nat)
    requires Run(Init(inner), events, maxAttempts).Some?
    requires Running(Run(Init(inner), events, maxAttempts).value, i) && Running(Run(Init(inner), events, maxAttempts).value, j)
    ensures i == j && Run(Init(inner), events, maxAttempts).value.reopening == Some(i)
  {
    InitOrdered(inner, maxAttempts);
    RunKeepsOrder(Init(inner), events, maxAttempts);
  }

  /** The adapters the reopens of a run gave, in order. */
  function Delivered(events: seq<Event>): seq<nat> {
    if events == [] then []
    else (if events[0].ReopenGives? then [events[0].next] else []) + Delivered(events[1..])
  }

  function SetOf(s: seq<nat>): set<nat> {
    set x | x in s
  }

  /** The current adapter changes only when a reopen gives a new one: it is the last given, and all others are replaced. */
  lemma {:induction false} AdaptersFollowDeliveries(s: State, events: seq<Event>, maxAttempts: int)
    requires Ordered(s, maxAttempts) && Run(s, events, maxAttempts).Some?
    ensures var t := Run(s, events, maxAttempts).value; var all := [s.inner] + Delivered(events);
            && t.inner == all[|all| - 1]
            && t.replaced == s.replaced + SetOf(all[..|all| - 1])
            && t.disposals == s.disposals + multiset(all[..|all| - 1])
    decreases |events|
  {
    hide AdaptersOk, CallerOk, TasksOk, Ordered;
    var given := Delivered(events);
    if events != [] {
      var next := Next(s, events[0], maxAttempts).value;
      StepKeepsOrder(s, events[0], maxAttempts);
      GivenReplaces(s, events[0], maxAttempts);
      AdaptersFollowDeliveries(next, events[1..], maxAttempts);
      hide Next;
      var rest := [next.inner] + Delivered(events[1..]);
      var all := [s.inner] + given;
      if events[0].ReopenGives? {
        assert all == [s.inner] + rest;
        assert all[..|all| - 1] == [s.inner] + rest[..|rest| - 1];
        assert SetOf([s.inner] + rest[..|rest| - 1]) == {s.inner} + SetOf(rest[..|rest| - 1]);
      } else {
        assert all == rest;
      }
    } else {
      assert [s.inner] + given == [s.inner] && [s.inner][..0] == [];
    }
  }

  lemma GivenReplaces(s: State, e: Event, maxAttempts: int)
    requires Ordered(s, maxAttempts) && Next(s, e, maxAttempts).Some?
    ensures var t := Next(s, e, maxAttempts).value;
            if e.ReopenGives? then t.inner == e.next && t.replaced == s.replaced + {s.inner} && t.disposals == s.disposals + multiset{s.inner}
            else t.inner == s.inner && t.replaced == s.replaced && t.disposals == s.disposals
  {
    hide CallerOk, AdaptersOk;
  }

  /** Once replaced, never current again. */
  lemma {:induction false} ReplacedStaysReplaced(s: State, events: seq<Event>, maxAttempts: int, adapter: nat)
    requires Ordered(s, maxAttempts) && Run(s, events, maxAttempts).Some? && adapter in s.replaced
    ensures adapter in Run(s, events, maxAttempts).value.replaced && Run(s, events, maxAttempts).value.inner != adapter
    ensures Run(s, events, maxAttempts).value.disposals[adapter] == 1
    decreases |events|
  {
    hide TasksOk, CallerOk;
    if events != [] {
      StepKeepsOrder(s, events[0], maxAttempts);
      StillReplaced(s, events[0], maxAttempts, adapter);
      ReplacedStaysReplaced(Next(s, events[0], maxAttempts).value, events[1..], maxAttempts, adapter);
    }
  }

  lemma StillReplaced(s: State, e: Event, maxAttempts: int, adapter: nat)
    requires Next(s, e, maxAttempts).Some? && adapter in s.replaced
    ensures adapter in Next(s, e, maxAttempts).value.replaced
  {
  }

  /** No call starts on an adapter that was disposed of. */
  lemma CallsStartOnOpenAdapter(s: State, e: Event, maxAttempts: int, c: nat)
    requires Ordered(s, maxAttempts) && Next(s, e, maxAttempts).Some?
    requires var t := Next(s, e, maxAttempts).value; c in t.callers && t.callers[c].calls > (if c in s.callers then s.callers[c].calls else 0)
    ensures var t := Next(s, e, maxAttempts).value; t.callers[c].phase.Calling? && t.callers[c].on == s.inner && s.disposals[s.inner] == 0
  {
    hide TasksOk, CallerOk;
  }

  /** A finished caller does nothing more. */
  lemma {:induction false} FinishedStays(s: State, events: seq<Event>, maxAttempts: int, c: nat)
    requires Run(s, events, maxAttempts).Some? && c in s.callers && s.callers[c].phase.Finished?
    ensures c in Run(s, events, maxAttempts).value.callers && Run(s, events, maxAttempts).value.callers[c] == s.callers[c]
    decreases |events|
  {
    if events != [] {
      FinishedStep(s, events[0], maxAttempts, c);
      FinishedStays(Next(s, events[0], maxAttempts).value, events[1..], maxAttempts, c);
    }
  }

  /** After a permanent failure its caller makes no call in any continuation, and that failure is what it ends with. */
  lemma NothingAfterPermanent(s: State, c: nat, events: seq<Event>, maxAttempts: int)
    requires c in s.callers && s.callers[c].phase.Calling? && Run(s, [CallFails(c, Permanent)] + events, maxAttempts).Some?
    ensures var t := Run(s, [CallFails(c, Permanent)] + events, maxAttempts).value;
            c in t.callers && t.callers[c].calls == s.callers[c].calls && t.callers[c].phase == Finished(Some(WasPermanent))
  {
    assert ([CallFails(c, Permanent)] + events)[1..] == events;
    FinishedStays(Next(s, CallFails(c, Permanent), maxAttempts).value, events, maxAttempts, c);
  }

  lemma FinishedStep(s: State, e: Event, maxAttempts: int, c: nat)
    requires Next(s, e, maxAttempts).Some? && c in s.callers && s.callers[c].phase.Finished?
    ensures c in Next(s, e, maxAttempts).value.callers && Next(s, e, maxAttempts).value.callers[c] == s.callers[c]
  {
  }

  /** An error comes out only for a permanent failure, with the attempts spent, or after a failed reopen. */
  lemma GivesUpForAReason(s: State, e: Event, maxAttempts: int, c: nat)
    requires Ordered(s, maxAttempts) && Next(s, e, maxAttempts).Some? && c in s.callers && !s.callers[c].phase.Finished?
    requires var t := Next(s, e, maxAttempts).value; t.callers[c].phase.Finished? && t.callers[c].phase.failure.Some?
    ensures match e
            case CallFails(d, kind) => d == c && (kind.Permanent? || s.callers[c].attempt >= maxAttempts)
            case Resume(d) => d == c && s.callers[c].phase.reopen < |s.tasks| && s.tasks[s.callers[c].phase.reopen] == Ended(s.tasks[s.callers[c].phase.reopen].previous, false)
            case _ => false
  {
    hide AdaptersOk, TasksOk, CallerOk;
  }

  // ---- every caller ends --------------------------------------------------------------------------------------

  /** The steps a caller can still take: three for every attempt left. */
  function StepsLeft(caller: Caller, maxAttempts: int): int {
    match caller.phase
    case Finished(_) => 0
    case Calling => 3 * (MostCalls(maxAttempts) - caller.attempt) + 1
    case Waiting(_, _, _) => 3 * (MostCalls(maxAttempts) - caller.attempt)
    case Sleeping => 3 * (MostCalls(maxAttempts) - caller.attempt) - 1
  }

  lemma StepCounts(s: State, e: Event, maxAttempts: int, c: nat)
    requires Ordered(s, maxAttempts) && Next(s, e, maxAttempts).Some? && c in s.callers
    ensures var t := Next(s, e, maxAttempts).value;
            c in t.callers && 0 <= StepsLeft(t.callers[c], maxAttempts)
            && if CallerOf(e) == Some(c) then StepsLeft(t.callers[c], maxAttempts) < StepsLeft(s.callers[c], maxAttempts)
               else t.callers[c] == s.callers[c]
  {
    hide AdaptersOk, TasksOk;
    StepKeepsOrder(s, e, maxAttempts);
    assert CallerOk(s, s.callers[c], maxAttempts);
    assert CallerOk(Next(s, e, maxAttempts).value, Next(s, e, maxAttempts).value.callers[c], maxAttempts);
  }

  function StepsOf(events: seq<Event>, c: nat): nat {
    if events == [] then 0 else (if CallerOf(events[0]) == Some(c) then 1 else 0) + StepsOf(events[1..], c)
  }

  /** In any run a caller takes no more steps than it has left, whatever the others do. */
  lemma {:induction false} CallerFinishes(s: State, events: seq<Event>, maxAttempts: int, c: nat)
    requires Ordered(s, maxAttempts) && Run(s, events, maxAttempts).Some? && c in s.callers
    ensures StepsOf(events, c) <= StepsLeft(s.callers[c], maxAttempts) <= 3 * MostCalls(maxAttempts) - 2
    decreases |events|
  {
    hide AdaptersOk, TasksOk, Next;
    assert CallerOk(s, s.callers[c], maxAttempts);
    if events != [] {
      StepCounts(s, events[0], maxAttempts, c);
      StepKeepsOrder(s, events[0], maxAttempts);
      CallerFinishes(Next(s, events[0], maxAttempts).value, events[1..], maxAttempts, c);
    }
  }

  // ---- a reopen asked for is not always a reopen --------------------------------------------------------------

  /** What was current when the caller failed is current as long as no reopen gives another adapter. */
  lemma UnlessGivenSame(s: State, events: seq<Event>, maxAttempts: int)
    requires Ordered(s, maxAttempts) && Run(s, events, maxAttempts).Some?
    ensures Run(s, events, maxAttempts).value.inner == s.inner <==> Delivered(events) == []
  {
    hide TasksOk, CallerOk;
    AdaptersFollowDeliveries(s, events, maxAttempts);
    RunKeepsOrder(s, events, maxAttempts);
    var all := [s.inner] + Delivered(events);
    if Delivered(events) != [] {
      assert all[..|all| - 1][0] == s.inner;
      assert s.inner in SetOf(all[..|all| - 1]);
    }
  }

  lemma {:induction false} RunConcat(s: State, a: seq<Event>, b: seq<Event>, maxAttempts: int)
    ensures Run(s, a + b, maxAttempts) == match Run(s, a, maxAttempts) case None => None case Some(t) => Run(t, b, maxAttempts)
    decreases |a|
  {
    hide Next;
    if a == [] {
      assert a + b == b;
    } else {
      assert (a + b)[0] == a[0] && (a + b)[1..] == a[1..] + b;
      if Next(s, a[0], maxAttempts).Some? {
        RunConcat(Next(s, a[0], maxAttempts).value, a[1..], b, maxAttempts);
      }
    }
  }

  /** The caller's call failed on the current adapter, and it waits for a reopen. */
  predicate FailsToWait(s: State, c: nat, kind: Kind, maxAttempts: int) {
    && c in s.callers && s.callers[c].phase.Calling?
    && Failed(s, c, s.callers[c], kind, maxAttempts).callers[c].phase.Waiting?
  }

  /** Its reopen has not given an adapter yet. */
  predicate JoinsInTime(s: State) {
    s.reopening.Some? ==> s.reopening.value < |s.tasks| && s.tasks[s.reopening.value].Opening?
  }

  lemma FailedWaits(s: State, c: nat, kind: Kind, maxAttempts: int)
    requires Ordered(s, maxAttempts) && FailsToWait(s, c, kind, maxAttempts)
    ensures var t := Next(s, CallFails(c, kind), maxAttempts).value;
            && s.callers[c].on == s.inner == t.inner && t.callers[c].calls == s.callers[c].calls
            && (JoinsInTime(s) ==> Pursues(t, c, s.inner))
  {
  }

  /** The caller waits for the reopen that is to replace an adapter, or has gone on, or given up, after it did. */
  predicate Pursues(s: State, c: nat, adapter: nat) {
    c in s.callers
    && match s.callers[c].phase
       case Waiting(id, _, _) => id < |s.tasks| && s.tasks[id].previous == adapter
       case Sleeping => adapter in s.replaced
       case Finished(_) => true
       case Calling => false
  }

  lemma PursuesStep(s: State, e: Event, maxAttempts: int, c: nat, adapter: nat)
    requires Ordered(s, maxAttempts) && Pursues(s, c, adapter) && Next(s, e, maxAttempts).Some?
    ensures var t := Next(s, e, maxAttempts).value;
            c in t.callers && t.callers[c].calls >= s.callers[c].calls && (t.callers[c].calls == s.callers[c].calls ==> Pursues(t, c, adapter))
  {
    hide AdaptersOk, CallerOk, Failed;
    if e.CallFails? {
      FailedStarts(s, e.c, s.callers[e.c], e.kind, maxAttempts);
      FailedKeepsOthers(s, e.c, s.callers[e.c], e.kind, maxAttempts, c);
      FailedHasAll(s, e.c, s.callers[e.c], e.kind, maxAttempts);
    }
  }

  lemma FailedHasAll(s: State, c: nat, caller: Caller, kind: Kind, maxAttempts: int)
    ensures Failed(s, c, caller, kind, maxAttempts).callers.Keys == s.callers.Keys + {c}
  {
  }

  /** Calls are only added. */
  lemma {:induction false} CallsGrow(s: State, events: seq<Event>, maxAttempts: int, c: nat)
    requires Run(s, events, maxAttempts).Some? && c in s.callers
    ensures c in Run(s, events, maxAttempts).value.callers && Run(s, events, maxAttempts).value.callers[c].calls >= s.callers[c].calls
    decreases |events|
  {
    if events != [] {
      var t := Next(s, events[0], maxAttempts).value;
      assert c in t.callers && t.callers[c].calls >= s.callers[c].calls;
      hide Next;
      CallsGrow(t, events[1..], maxAttempts, c);
    }
  }

  lemma {:induction false} PursuesOn(s: State, events: seq<Event>, maxAttempts: int, c: nat, adapter: nat)
    requires Ordered(s, maxAttempts) && Pursues(s, c, adapter) && Run(s, events, maxAttempts).Some?
    requires var t := Run(s, events, maxAttempts).value; c in t.callers && t.callers[c].calls == s.callers[c].calls
    ensures Pursues(Run(s, events, maxAttempts).value, c, adapter)
    decreases |events|
  {
    hide Ordered, Next, Pursues;
    if events != [] {
      var t := Next(s, events[0], maxAttempts).value;
      PursuesStep(s, events[0], maxAttempts, c, adapter);
      StepKeepsOrder(s, events[0], maxAttempts);
      CallsGrow(t, events[1..], maxAttempts, c);
      PursuesOn(t, events[1..], maxAttempts, c, adapter);
    }
  }

  /**
   A caller's call fails, it waits for a reopen, and after any run in which it made no call it calls again: on the adapter
   that failed it if and only if no reopen gave an adapter in that run. If the reopen it joined had not given its adapter
   yet, one has been given, and the call is on another adapter.
   */
  lemma RetriesOnFailedIff(s: State, c: nat, kind: Kind, between: seq<Event>, maxAttempts: int)
    requires Ordered(s, maxAttempts) && FailsToWait(s, c, kind, maxAttempts) && Run(s, [CallFails(c, kind)] + between + [Wake(c)], maxAttempts).Some?
    requires var t := Run(s, [CallFails(c, kind)] + between + [Wake(c)], maxAttempts).value;
             c in t.callers && t.callers[c].calls == s.callers[c].calls + 1
    ensures var t := Run(s, [CallFails(c, kind)] + between + [Wake(c)], maxAttempts).value;
            && t.callers[c].phase.Calling?
            && (t.callers[c].on == s.callers[c].on <==> Delivered(between) == [])
            && (JoinsInTime(s) ==> Delivered(between) != [])
  {
    var t := Next(s, CallFails(c, kind), maxAttempts).value;
    FailedWaits(s, c, kind, maxAttempts);
    StepKeepsOrder(s, CallFails(c, kind), maxAttempts);
    var events := [CallFails(c, kind)] + between + [Wake(c)];
    assert events[0] == CallFails(c, kind) && events[1..] == between + [Wake(c)];
    RunConcat(t, between, [Wake(c)], maxAttempts);
    var u := Run(t, between, maxAttempts).value;
    assert [Wake(c)][1..] == [] && Run(u, [Wake(c)], maxAttempts) == Next(u, Wake(c), maxAttempts);
    UnlessGivenSame(t, between, maxAttempts);
    RunKeepsOrder(t, between, maxAttempts);
    hide TasksOk, CallerOk, Failed;
    if JoinsInTime(s) {
      PursuesOn(t, between, maxAttempts, c, s.inner);
    }
  }

  /** No call of the caller fails. */
  predicate NoFailureOf(events: seq<Event>, c: nat) {
    forall i :: 0 <= i < |events| ==> !(events[i].CallFails? && events[i].c == c)
  }

  /** The caller's transient failures are not forgotten before its next call fails. */
  predicate Remembers(s: State, c: nat, transients: nat) {
    c in s.callers && s.callers[c].transients == transients && (s.callers[c].phase.Waiting? ==> s.callers[c].phase.kind.Transient?)
  }

  lemma {:induction false} StillRemembers(s: State, events: seq<Event>, maxAttempts: int, c: nat, transients: nat)
    requires Remembers(s, c, transients) && NoFailureOf(events, c) && Run(s, events, maxAttempts).Some?
    ensures Remembers(Run(s, events, maxAttempts).value, c, transients)
    decreases |events|
  {
    if events != [] {
      var t := Next(s, events[0], maxAttempts).value;
      if events[0].CallFails? {
        FailedKeepsOthers(s, events[0].c, s.callers[events[0].c], events[0].kind, maxAttempts, c);
        FailedHasAll(s, events[0].c, s.callers[events[0].c], events[0].kind, maxAttempts);
      }
      assert Remembers(t, c, transients) by {
        hide Failed;
      }
      hide Next;
      StillRemembers(t, events[1..], maxAttempts, c, transients);
    }
  }

  /** The caller's call fails on the adapter that is current, and it has attempts left. */
  predicate FailsOnCurrent(s: State, c: nat, maxAttempts: int) {
    c in s.callers && s.callers[c].phase.Calling? && s.callers[c].on == s.inner && s.callers[c].attempt < maxAttempts
  }

  /** Two transient failures of one caller in a row, each on the adapter current at the time: after the second it waits for a reopen. */
  lemma SecondTransientWaits(s: State, c: nat, between: seq<Event>, maxAttempts: int)
    requires FailsOnCurrent(s, c, maxAttempts) && NoFailureOf(between, c)
    requires Run(s, [CallFails(c, Transient)] + between, maxAttempts).Some?
    requires FailsOnCurrent(Run(s, [CallFails(c, Transient)] + between, maxAttempts).value, c, maxAttempts)
    ensures FailsToWait(Run(s, [CallFails(c, Transient)] + between, maxAttempts).value, c, Transient, maxAttempts)
  {
    var events := [CallFails(c, Transient)] + between;
    assert events[0] == CallFails(c, Transient) && events[1..] == between;
    var t := Next(s, CallFails(c, Transient), maxAttempts).value;
    StillRemembers(t, between, maxAttempts, c, t.callers[c].transients);
  }

  /** A caller's first failure, if it is transient, starts no reopen: it sleeps and calls again. */
  lemma FirstTransientSleeps(s: State, c: nat, between: seq<Event>, maxAttempts: int)
    requires c !in s.callers && NoFailureOf(between, c) && Run(s, [Start(c)] + between, maxAttempts).Some?
    requires FailsOnCurrent(Run(s, [Start(c)] + between, maxAttempts).value, c, maxAttempts)
    ensures var t := Run(s, [Start(c)] + between, maxAttempts).value; var u := Next(t, CallFails(c, Transient), maxAttempts);
            u.Some? && u.value.callers[c].phase.Sleeping? && u.value.reopening == t.reopening && u.value.tasks == t.tasks
  {
    var events := [Start(c)] + between;
    assert events[0] == Start(c) && events[1..] == between;
    StillRemembers(Next(s, Start(c), maxAttempts).value, between, maxAttempts, c, 0);
  }

  /** No transient failure counts for the caller's next call. */
  predicate CountsAnew(s: State, c: nat) {
    c in s.callers && if s.callers[c].phase.Waiting? then s.callers[c].phase.kind.Auth? else s.callers[c].phase.Finished? || s.callers[c].transients == 0
  }

  lemma {:induction false} StillAnew(s: State, events: seq<Event>, maxAttempts: int, c: nat)
    requires CountsAnew(s, c) && NoFailureOf(events, c) && Run(s, events, maxAttempts).Some?
    ensures CountsAnew(Run(s, events, maxAttempts).value, c)
    decreases |events|
  {
    if events != [] {
      var t := Next(s, events[0], maxAttempts).value;
      if events[0].CallFails? {
        FailedKeepsOthers(s, events[0].c, s.callers[events[0].c], events[0].kind, maxAttempts, c);
        FailedHasAll(s, events[0].c, s.callers[events[0].c], events[0].kind, maxAttempts);
      }
      assert CountsAnew(t, c) by {
        hide Failed;
      }
      hide Next;
      StillAnew(t, events[1..], maxAttempts, c);
    }
  }

  /** After an authorization failure, or any failure on a replaced adapter, counting starts anew: one transient failure sleeps. */
  lemma CountStartsAnew(s: State, c: nat, kind: Kind, between: seq<Event>, maxAttempts: int)
    requires c in s.callers && s.callers[c].phase.Calling? && s.callers[c].attempt < maxAttempts && NoFailureOf(between, c)
    requires kind.Auth? || (kind.Transient? && s.callers[c].on != s.inner)
    requires Run(s, [CallFails(c, kind)] + between, maxAttempts).Some?
    requires FailsOnCurrent(Run(s, [CallFails(c, kind)] + between, maxAttempts).value, c, maxAttempts)
    ensures !FailsToWait(Run(s, [CallFails(c, kind)] + between, maxAttempts).value, c, Transient, maxAttempts)
  {
    var events := [CallFails(c, kind)] + between;
    assert events[0] == CallFails(c, kind) && events[1..] == between;
    StillAnew(Next(s, CallFails(c, kind), maxAttempts).value, between, maxAttempts, c);
  }

  /** An authorization failure on the current adapter waits for a reopen at once; on a replaced one no failure does. */
  lemma AuthWaitsIff(s: State, c: nat, maxAttempts: int)
    requires c in s.callers && s.callers[c].phase.Calling?
    ensures FailsToWait(s, c, Auth, maxAttempts) <==> FailsOnCurrent(s, c, maxAttempts)
    ensures FailsToWait(s, c, Transient, maxAttempts) ==> FailsOnCurrent(s, c, maxAttempts)
  {
  }

  /**
   A caller whose call on the fresh adapter fails while the old one is still being disposed of joins the reopen that made
   the fresh adapter: it waits, and then retries on the adapter that just failed.
   */
  lemma JoinsFinishedReopen(s: State, c: nat, maxAttempts: int)
    requires c in s.callers && s.callers[c].phase.Calling? && s.callers[c].on == s.inner && s.callers[c].attempt < maxAttempts
    requires s.reopening.Some? && s.reopening.value < |s.tasks| && s.tasks[s.reopening.value].Disposing?
    ensures var events := [CallFails(c, Auth), DisposeEnds(s.reopening.value), Clear, Resume(c), Wake(c)];
            Run(s, events, maxAttempts).Some? && Run(s, events, maxAttempts).value.inner == s.inner
            && c in Run(s, events, maxAttempts).value.callers && Run(s, events, maxAttempts).value.callers[c].phase.Calling?
            && Run(s, events, maxAttempts).value.callers[c].on == s.inner
            && Run(s, events, maxAttempts).value.callers[c].calls == s.callers[c].calls + 1
  {
    var id := s.reopening.value;
    var events := [CallFails(c, Auth), DisposeEnds(id), Clear, Resume(c), Wake(c)];
    var s1 := Next(s, events[0], maxAttempts).value;
    var s2 := Next(s1, DisposeEnds(id), maxAttempts).value;
    var s3 := Next(s2, Clear, maxAttempts).value;
    var s4 := Next(s3, Resume(c), maxAttempts).value;
    var s5 := Next(s4, Wake(c), maxAttempts).value;
    assert events[1..] == [DisposeEnds(id), Clear, Resume(c), Wake(c)] && events[1..][1..] == [Clear, Resume(c), Wake(c)];
    assert [Clear, Resume(c), Wake(c)][1..] == [Resume(c), Wake(c)] && [Resume(c), Wake(c)][1..] == [Wake(c)] && [Wake(c)][1..] == [];
    assert Run(s4, [Wake(c)], maxAttempts) == Run(s5, [], maxAttempts);
    assert Run(s3, [Resume(c), Wake(c)], maxAttempts) == Run(s4, [Wake(c)], maxAttempts);
    assert Run(s2, [Clear, Resume(c), Wake(c)], maxAttempts) == Run(s3, [Resume(c), Wake(c)], maxAttempts);
    assert Run(s1, events[1..], maxAttempts) == Run(s2, [Clear, Resume(c), Wake(c)], maxAttempts);
  }

  /** From a fresh connection: the second caller's call on the fresh adapter fails, and its next call is on that adapter again. */
  lemma LateJoinIsReached(maxAttempts: int)
    requires maxAttempts > 1
    ensures var before := [Start(0), CallFails(0, Auth), ReopenGives(0, 1), Start(1)];
            var after := [CallFails(1, Auth), DisposeEnds(0), Clear, Resume(1), Wake(1)];
            && Run(Init(0), before, maxAttempts).Some? && FailsToWait(Run(Init(0), before, maxAttempts).value, 1, Auth, maxAttempts)
            && Run(Init(0), before + after, maxAttempts).Some?
            && var t := Run(Init(0), before + after, maxAttempts).value;
               1 in t.callers && t.callers[1].phase.Calling? && t.callers[1].on == 1 == t.inner && t.callers[1].calls == 2
  {
    var before := [Start(0), CallFails(0, Auth), ReopenGives(0, 1), Start(1)];
    var after := [CallFails(1, Auth), DisposeEnds(0), Clear, Resume(1), Wake(1)];
    var s1 := Next(Init(0), Start(0), maxAttempts).value;
    var s2 := Next(s1, CallFails(0, Auth), maxAttempts).value;
    var s3 := Next(s2, ReopenGives(0, 1), maxAttempts).value;
    var s4 := Next(s3, Start(1), maxAttempts).value;
    assert before[1..] == [CallFails(0, Auth), ReopenGives(0, 1), Start(1)] && before[1..][1..] == [ReopenGives(0, 1), Start(1)];
    assert [ReopenGives(0, 1), Start(1)][1..] == [Start(1)] && [Start(1)][1..] == [];
    assert Run(s3, [Start(1)], maxAttempts) == Run(s4, [], maxAttempts);
    assert Run(s2, [ReopenGives(0, 1), Start(1)], maxAttempts) == Some(s4);
    assert Run(s1, before[1..], maxAttempts) == Some(s4);
    JoinsFinishedReopen(s4, 1, maxAttempts);
    RunConcat(Init(0), before, after, maxAttempts);
  }
}
