/** Request guards and the counters they share, one atomic operation at a time. */
module RequestAccounting {
  import opened NarFormat
  import opened Options
  import opened Totals

  /** A 64-bit counter that wraps around. */
  function Wrapped(n: nat): u64 {
    n % (U64_MAX + 1)
  }

  type GuardId = nat

  datatype HttpMethod = Get | Head | Put | OtherMethod

  datatype Route = Health | Ready | Metrics | CacheInfo | Nar | NarInfo | Invalid | Missing | OtherRoute

  /** The statuses with a counter of their own; the others share one. */
  const RECORDED: set<nat> := {200, 201, 206, 400, 401, 404, 405, 411, 413, 415, 416, 422, 429, 500, 503, 507}
  const OTHER: nat := 0

  function RecordedStatus(status: nat): nat {
    if status in RECORDED then status else OTHER
  }

  /** The status counter a request is recorded in. */
  datatype Cell = Cell(httpMethod: HttpMethod, route: Route, status: nat)

  datatype Kind = CompletedResponse | AbortedResponse

  /** How far a guard has come in recording its one outcome. */
  datatype Phase =
    | Pending
    | Decided(kind: Kind, cell: Cell)
    | StatusAdded(kind: Kind, cell: Cell)
    | Finished(kind: Kind, cell: Cell)

  datatype Guard = Guard(httpMethod: HttpMethod, route: Route, phase: Phase, dropping: bool, gone: bool)

  datatype State = State(
    guards: map<GuardId, Guard>,
    completed: u64,
    aborted: u64,
    statuses: map<Cell, u64>,
    inFlight: u64)

  const INITIAL: State := State(map[], 0, 0, map[], 0)

  datatype Step =
    | Create(id: GuardId, httpMethod: HttpMethod, route: Route)
    | RecordCompleted(id: GuardId, status: nat)
    | RecordFailed(id: GuardId, status: nat)
    | RecordAborted(id: GuardId)
    | AddStatus(id: GuardId)
    | AddOutcome(id: GuardId)
    | StartDrop(id: GuardId)
    | EndDrop(id: GuardId)

  /** No call on the guard is under way. */
  predicate Idle(g: Guard) {
    !g.dropping && !g.gone && (g.phase.Pending? || g.phase.Finished?)
  }

  predicate Enabled(s: State, step: Step) {
    match step
    case Create(id, _, _) => id !in s.guards
    case RecordCompleted(id, _) => id in s.guards && Idle(s.guards[id])
    case RecordFailed(id, _) => id in s.guards && Idle(s.guards[id])
    case RecordAborted(id) => id in s.guards && Idle(s.guards[id])
    case AddStatus(id) => id in s.guards && s.guards[id].phase.Decided?
    case AddOutcome(id) => id in s.guards && s.guards[id].phase.StatusAdded?
    case StartDrop(id) => id in s.guards && Idle(s.guards[id])
    case EndDrop(id) => id in s.guards && s.guards[id].dropping && !s.guards[id].gone && s.guards[id].phase.Finished?
  }

  function Count(statuses: map<Cell, u64>, cell: Cell): u64 {
    if cell in statuses then statuses[cell] else 0
  }

  /** The guard's outcome is replaced by finished; only the first replacement decides. */
  function Decide(g: Guard, kind: Kind, status: nat): Guard {
    if g.phase.Pending? then g.(phase := Decided(kind, Cell(g.httpMethod, g.route, status))) else g
  }

  function Apply(s: State, step: Step): State
    requires Enabled(s, step)
  {
    match step
    case Create(id, httpMethod, route) =>
      s.(guards := s.guards[id := Guard(httpMethod, route, Pending, false, false)], inFlight := Wrapped(s.inFlight + 1))
    case RecordCompleted(id, status) =>
      s.(guards := s.guards[id := Decide(s.guards[id], CompletedResponse, RecordedStatus(status))])
    case RecordFailed(id, status) =>
      s.(guards := s.guards[id := Decide(s.guards[id], AbortedResponse, RecordedStatus(status))])
    case RecordAborted(id) =>
      s.(guards := s.guards[id := Decide(s.guards[id], AbortedResponse, OTHER)])
    case AddStatus(id) =>
      var g := s.guards[id];
      s.(guards := s.guards[id := g.(phase := StatusAdded(g.phase.kind, g.phase.cell))],
         statuses := s.statuses[g.phase.cell := Saturate(Count(s.statuses, g.phase.cell) + 1)])
    case AddOutcome(id) =>
      var g := s.guards[id];
      var guards := s.guards[id := g.(phase := Finished(g.phase.kind, g.phase.cell))];
      if g.phase.kind.CompletedResponse? then s.(guards := guards, completed := Wrapped(s.completed + 1))
      else s.(guards := guards, aborted := Wrapped(s.aborted + 1))
    case StartDrop(id) =>
      s.(guards := s.guards[id := Decide(s.guards[id], AbortedResponse, OTHER).(dropping := true)])
    case EndDrop(id) =>
      s.(guards := s.guards[id := s.guards[id].(gone := true)], inFlight := Wrapped(s.inFlight + U64_MAX))
  }

  function Run(s: State, steps: seq<Step>): Option<State>
    decreases |steps|
  {
    if steps == [] then Some(s)
    else if Enabled(s, steps[0]) then Run(Apply(s, steps[0]), steps[1..])
    else None
  }

  /* ---- counting guards ---- */

  predicate StatusIsAdded(g: Guard) {
    g.phase.StatusAdded? || g.phase.Finished?
  }

  ghost function Unfinished(s: State): set<GuardId> {
    set id | id in s.guards && !s.guards[id].phase.Finished?
  }

  ghost function FinishedAs(s: State, kind: Kind): set<GuardId> {
    set id | id in s.guards && s.guards[id].phase.Finished? && s.guards[id].phase.kind == kind
  }

  ghost function Recorded(s: State): set<GuardId> {
    set id | id in s.guards && StatusIsAdded(s.guards[id])
  }

  ghost function RecordedIn(s: State, cell: Cell): set<GuardId> {
    set id | id in s.guards && StatusIsAdded(s.guards[id]) && s.guards[id].phase.cell == cell
  }

  ghost function Live(s: State): set<GuardId> {
    set id | id in s.guards && !s.guards[id].gone
  }

  /** Every counter is the number of guards it counts, up to its wrap or its limit. */
  ghost predicate Counted(s: State) {
    && s.completed == Wrapped(|FinishedAs(s, CompletedResponse)|)
    && s.aborted == Wrapped(|FinishedAs(s, AbortedResponse)|)
    && s.inFlight == Wrapped(|Live(s)|)
    && forall cell: Cell :: Count(s.statuses, cell) == Saturate(|RecordedIn(s, cell)|)
  }

  lemma WrapNext(n: nat)
    ensures Wrapped(Wrapped(n) + 1) == Wrapped(n + 1)
  {
  }

  lemma WrapBack(n: nat)
    requires n > 0
    ensures Wrapped(Wrapped(n) + U64_MAX) == Wrapped(n - 1)
  {
  }

  lemma WrapNone(n: nat)
    requires n <= U64_MAX
    ensures Wrapped(n) == n
  {
  }

  /** Replacing one guard by one at the same place leaves every count of finished and recorded guards. */
  predicate SamePlace(s: State, guards: map<GuardId, Guard>, id: GuardId) {
    && id in s.guards && id in guards && guards == s.guards[id := guards[id]]
    && (guards[id].phase == s.guards[id].phase || (s.guards[id].phase.Pending? && guards[id].phase.Decided?))
  }

  lemma SameSets(s: State, s': State, id: GuardId)
    requires SamePlace(s, s'.guards, id)
    ensures forall kind: Kind :: FinishedAs(s', kind) == FinishedAs(s, kind)
    ensures forall cell: Cell :: RecordedIn(s', cell) == RecordedIn(s, cell)
  {
  }

  /** A step that only decides an outcome, or starts dropping, changes no count. */
  lemma SameCounts(s: State, s': State, id: GuardId)
    requires Counted(s) && s' == s.(guards := s'.guards) && SamePlace(s, s'.guards, id)
    requires s'.guards[id].gone == s.guards[id].gone
    ensures Counted(s')
  {
    SameSets(s, s', id);
    assert Live(s') == Live(s);
    hide FinishedAs, RecordedIn, Live, Wrapped;
  }

  lemma CreateSets(s: State, s': State, id: GuardId)
    requires id !in s.guards && id in s'.guards && s'.guards == s.guards[id := s'.guards[id]]
    requires s'.guards[id].phase.Pending? && !s'.guards[id].gone
    ensures forall kind: Kind :: FinishedAs(s', kind) == FinishedAs(s, kind)
    ensures forall cell: Cell :: RecordedIn(s', cell) == RecordedIn(s, cell)
    ensures |Live(s')| == |Live(s)| + 1
  {
    assert Live(s') == Live(s) + {id};
  }

  lemma CreateCounted(s: State, id: GuardId, httpMethod: HttpMethod, route: Route)
    requires Counted(s) && Enabled(s, Create(id, httpMethod, route))
    ensures Counted(Apply(s, Create(id, httpMethod, route)))
  {
    CreateSets(s, Apply(s, Create(id, httpMethod, route)), id);
    WrapNext(|Live(s)|);
    hide FinishedAs, RecordedIn, Live, Wrapped;
  }

  lemma StatusSets(s: State, s': State, id: GuardId)
    requires id in s.guards && id in s'.guards && s'.guards == s.guards[id := s'.guards[id]]
    requires s.guards[id].phase.Decided? && s'.guards[id].gone == s.guards[id].gone
    requires s'.guards[id].phase == StatusAdded(s.guards[id].phase.kind, s.guards[id].phase.cell)
    ensures forall kind: Kind :: FinishedAs(s', kind) == FinishedAs(s, kind)
    ensures forall cell: Cell ::
              |RecordedIn(s', cell)| == |RecordedIn(s, cell)| + if cell == s.guards[id].phase.cell then 1 else 0
    ensures Live(s') == Live(s)
  {
    var c := s.guards[id].phase.cell;
    assert RecordedIn(s', c) == RecordedIn(s, c) + {id};
    forall cell: Cell | cell != c ensures RecordedIn(s', cell) == RecordedIn(s, cell) {}
  }

  lemma StatusCounted(s: State, id: GuardId)
    requires Counted(s) && Enabled(s, AddStatus(id))
    ensures Counted(Apply(s, AddStatus(id)))
  {
    StatusSets(s, Apply(s, AddStatus(id)), id);
    hide FinishedAs, RecordedIn, Live, Wrapped;
  }

  lemma OutcomeSets(s: State, s': State, id: GuardId)
    requires id in s.guards && id in s'.guards && s'.guards == s.guards[id := s'.guards[id]]
    requires s.guards[id].phase.StatusAdded? && s'.guards[id].gone == s.guards[id].gone
    requires s'.guards[id].phase == Finished(s.guards[id].phase.kind, s.guards[id].phase.cell)
    ensures forall kind: Kind ::
              |FinishedAs(s', kind)| == |FinishedAs(s, kind)| + if kind == s.guards[id].phase.kind then 1 else 0
    ensures forall cell: Cell :: RecordedIn(s', cell) == RecordedIn(s, cell)
    ensures Live(s') == Live(s)
  {
    var k := s.guards[id].phase.kind;
    assert FinishedAs(s', k) == FinishedAs(s, k) + {id};
    forall kind: Kind | kind != k ensures FinishedAs(s', kind) == FinishedAs(s, kind) {}
  }

  lemma OutcomeCounted(s: State, id: GuardId)
    requires Counted(s) && Enabled(s, AddOutcome(id))
    ensures Counted(Apply(s, AddOutcome(id)))
  {
    OutcomeSets(s, Apply(s, AddOutcome(id)), id);
    WrapNext(|FinishedAs(s, s.guards[id].phase.kind)|);
    hide FinishedAs, RecordedIn, Live, Wrapped;
  }

  lemma DropCounted(s: State, id: GuardId)
    requires Counted(s) && Enabled(s, EndDrop(id))
    ensures Counted(Apply(s, EndDrop(id)))
  {
    var s' := Apply(s, EndDrop(id));
    SameSets(s, s', id);
    assert Live(s') == Live(s) - {id} && id in Live(s);
    WrapBack(|Live(s)|);
    hide FinishedAs, RecordedIn, Live, Wrapped;
  }

  lemma StepCounted(s: State, step: Step)
    requires Counted(s) && Enabled(s, step)
    ensures Counted(Apply(s, step))
  {
    hide Counted;
    var s' := Apply(s, step);
    match step
    case Create(id, httpMethod, route) => CreateCounted(s, id, httpMethod, route);
    case RecordCompleted(id, _) => SameCounts(s, s', id);
    case RecordFailed(id, _) => SameCounts(s, s', id);
    case RecordAborted(id) => SameCounts(s, s', id);
    case AddStatus(id) => StatusCounted(s, id);
    case AddOutcome(id) => OutcomeCounted(s, id);
    case StartDrop(id) => SameCounts(s, s', id);
    case EndDrop(id) => DropCounted(s, id);
  }

  lemma {:induction false} RunCounted(s: State, steps: seq<Step>)
    requires Counted(s) && Run(s, steps).Some?
    ensures Counted(Run(s, steps).value)
    decreases |steps|
  {
    hide Counted, Enabled, Apply;
    if steps != [] {
      StepCounted(s, steps[0]);
      RunCounted(Apply(s, steps[0]), steps[1..]);
    }
  }

  /* ---- the status table as a whole ---- */

  /** While fewer requests were made than a counter holds, the table counts every recorded guard once. */
  ghost predicate TableExact(s: State) {
    |s.guards| <= U64_MAX ==> Total(s.statuses) == |Recorded(s)|
  }

  lemma GuardsBelow(s: State, cell: Cell, id: GuardId)
    requires id in s.guards && id !in RecordedIn(s, cell)
    ensures |RecordedIn(s, cell)| < |s.guards|
  {
    Subset(RecordedIn(s, cell) + {id}, s.guards.Keys);
  }

  lemma {:induction false} Subset(a: set<GuardId>, b: set<GuardId>)
    requires a <= b
    ensures |a| <= |b|
    decreases |a|
  {
    if a != {} {
      var x :| x in a;
      Subset(a - {x}, b - {x});
    }
  }

  lemma StatusExact(s: State, id: GuardId)
    requires Counted(s) && TableExact(s) && Enabled(s, AddStatus(id))
    ensures TableExact(Apply(s, AddStatus(id)))
  {
    hide Total;
    var s' := Apply(s, AddStatus(id));
    var c := s.guards[id].phase.cell;
    assert s'.guards.Keys == s.guards.Keys;
    assert |s'.guards| == |s'.guards.Keys| && |s.guards| == |s.guards.Keys|;
    assert Recorded(s') == Recorded(s) + {id};
    if |s.guards| <= U64_MAX {
      GuardsBelow(s, c, id);
      TotalUpdate(s.statuses, c, Count(s.statuses, c) + 1);
    }
  }

  lemma StepExact(s: State, step: Step)
    requires Counted(s) && TableExact(s) && Enabled(s, step)
    ensures TableExact(Apply(s, step))
  {
    hide Total, Counted;
    if step.AddStatus? {
      StatusExact(s, step.id);
    } else {
      var s' := Apply(s, step);
      assert Recorded(s') == Recorded(s);
      assert s.guards.Keys <= s'.guards.Keys;
      assert |s'.guards| == |s'.guards.Keys| && |s.guards| == |s.guards.Keys|;
      Subset(s.guards.Keys, s'.guards.Keys);
    }
  }

  lemma {:induction false} RunExact(s: State, steps: seq<Step>)
    requires Counted(s) && TableExact(s) && Run(s, steps).Some?
    ensures TableExact(Run(s, steps).value)
    decreases |steps|
  {
    hide Counted, TableExact, Enabled, Apply;
    if steps != [] {
      StepCounted(s, steps[0]);
      StepExact(s, steps[0]);
      RunExact(Apply(s, steps[0]), steps[1..]);
    }
  }

  lemma InitiallyCounted()
    ensures Counted(INITIAL) && TableExact(INITIAL)
  {
    hide Wrapped;
    WrapNone(0);
    assert Live(INITIAL) == {} && Recorded(INITIAL) == {};
    forall kind: Kind ensures FinishedAs(INITIAL, kind) == {} {}
    forall cell: Cell ensures RecordedIn(INITIAL, cell) == {} {}
  }

  lemma Disjoint(a: set<GuardId>, b: set<GuardId>, c: set<GuardId>)
    requires a !! b && a !! c && b !! c
    ensures |a + b + c| == |a| + |b| + |c|
  {
  }

  /** A guard is unfinished, or finished as completed, or finished as aborted. */
  lemma Partition(s: State)
    ensures |s.guards.Keys| == |Unfinished(s)| + |FinishedAs(s, CompletedResponse)| + |FinishedAs(s, AbortedResponse)|
  {
    assert s.guards.Keys == Unfinished(s) + FinishedAs(s, CompletedResponse) + FinishedAs(s, AbortedResponse);
    Disjoint(Unfinished(s), FinishedAs(s, CompletedResponse), FinishedAs(s, AbortedResponse));
  }

  /** The guards whose status is in the table and whose outcome is not yet counted. */
  ghost function HalfWay(s: State): set<GuardId> {
    set id | id in s.guards && s.guards[id].phase.StatusAdded?
  }

  /** No guard is between its status and its outcome being added. */
  predicate Settled(s: State) {
    forall id :: id in s.guards ==> !s.guards[id].phase.StatusAdded?
  }

  lemma RecordedSets(s: State)
    ensures |Recorded(s)| == |FinishedAs(s, CompletedResponse)| + |FinishedAs(s, AbortedResponse)| + |HalfWay(s)|
    ensures |HalfWay(s)| == 0 <==> Settled(s)
  {
    assert Recorded(s) == FinishedAs(s, CompletedResponse) + FinishedAs(s, AbortedResponse) + HalfWay(s);
    Disjoint(FinishedAs(s, CompletedResponse), FinishedAs(s, AbortedResponse), HalfWay(s));
    assert |HalfWay(s)| == 0 <==> HalfWay(s) == {};
    assert Settled(s) <==> HalfWay(s) == {} by {
      if !Settled(s) {
        var id :| id in s.guards && s.guards[id].phase.StatusAdded?;
        assert id in HalfWay(s);
      }
    }
  }

  /** In every interleaving of fewer requests than a counter holds: each request is unfinished, completed or
      aborted, and counted so once; the requests in flight are the guards not yet dropped; the status table is
      ahead of the completed and aborted responses by the guards half-way through recording, and so adds up to
      them if and only if there is none. */
  lemma Accounting(steps: seq<Step>)
    requires Run(INITIAL, steps).Some? && |Run(INITIAL, steps).value.guards| <= U64_MAX
    ensures var s := Run(INITIAL, steps).value;
            && |s.guards| == |Unfinished(s)| + s.completed + s.aborted
            && s.inFlight == |Live(s)|
            && Total(s.statuses) == s.completed + s.aborted + |HalfWay(s)|
            && (Total(s.statuses) == s.completed + s.aborted <==> Settled(s))
            && s.completed == |OutcomesCalled(s, steps, true)| && s.aborted == |OutcomesCalled(s, steps, false)|
  {
    CountersAsCalled(steps);
    hide OutcomesCalled;
    InitiallyCounted();
    RunCounted(INITIAL, steps);
    RunExact(INITIAL, steps);
    var s := Run(INITIAL, steps).value;
    AccountingOf(s);
  }

  lemma AccountingOf(s: State)
    requires Counted(s) && TableExact(s) && |s.guards| <= U64_MAX
    ensures |s.guards| == |Unfinished(s)| + s.completed + s.aborted
    ensures s.inFlight == |Live(s)|
    ensures Total(s.statuses) == s.completed + s.aborted + |HalfWay(s)|
    ensures Total(s.statuses) == s.completed + s.aborted <==> Settled(s)
  {
    Partition(s);
    assert |s.guards| == |s.guards.Keys|;
    assert Live(s) <= s.guards.Keys;
    RecordedSets(s);
    hide Total, Unfinished, FinishedAs, Live, Recorded, RecordedIn, Wrapped, Settled, HalfWay;
    Subset(Live(s), s.guards.Keys);
    WrapNone(|Live(s)|);
    WrapNone(|FinishedAs(s, CompletedResponse)|);
    WrapNone(|FinishedAs(s, AbortedResponse)|);
  }

  /** A reader of the counters can find the table ahead: here one response is in the table and in neither outcome. */
  lemma TableAhead(httpMethod: HttpMethod, route: Route)
    ensures var steps := [Create(0, httpMethod, route), RecordCompleted(0, 200), AddStatus(0)];
            && Run(INITIAL, steps).Some?
            && var s := Run(INITIAL, steps).value;
            && s.completed == 0 && s.aborted == 0
            && s.statuses == map[Cell(httpMethod, route, 200) := 1]
            && Total(s.statuses) == 1
  {
    var create, record, add := Create(0, httpMethod, route), RecordCompleted(0, 200), AddStatus(0);
    var s1 := Apply(INITIAL, create);
    var s2 := Apply(s1, record);
    var s3 := Apply(s2, add);
    var steps := [create, record, add];
    assert steps[1..] == [record, add] && steps[1..][1..] == [add] && steps[1..][1..][1..] == [];
    assert Run(s3, []) == Some(s3);
    assert Run(s2, [add]) == Some(s3);
    assert Run(s1, [record, add]) == Some(s3);
    assert s3.statuses == map[Cell(httpMethod, route, 200) := 1];
    TotalAny(s3.statuses, Cell(httpMethod, route, 200));
    assert s3.statuses - {Cell(httpMethod, route, 200)} == map[];
  }

  /* ---- from the calls made to what is counted ---- */

  /** The first call that records an outcome for the guard: one of the three recording calls, or the drop. */
  function FirstCall(steps: seq<Step>, id: GuardId): Option<Step> {
    if steps == [] then None
    else
      var before := FirstCall(steps[..|steps| - 1], id);
      var last := steps[|steps| - 1];
      if before.None? && Records(last) && last.id == id then Some(last) else before
  }

  predicate Records(step: Step) {
    step.RecordCompleted? || step.RecordFailed? || step.RecordAborted? || step.StartDrop?
  }

  /** The status a call records: its own if that has a counter, or else the one for all others. */
  function StatusOf(call: Step): nat {
    match call
    case RecordCompleted(_, status) => if OwnCounter(status) then status else 0
    case RecordFailed(_, status) => if OwnCounter(status) then status else 0
    case _ => 0
  }

  predicate OwnCounter(status: nat) {
    || status in {200, 201, 206} || 400 <= status <= 401 || 404 <= status <= 405
    || status in {411, 413, 415, 416, 422, 429} || status in {500, 503, 507}
  }

  /** The guard was made once, with the method and route it has. */
  ghost predicate MadeOnce(s: State, steps: seq<Step>, id: GuardId) {
    && (id in s.guards ==> Create(id, s.guards[id].httpMethod, s.guards[id].route) in steps)
    && forall m, r :: Create(id, m, r) in steps ==>
         id in s.guards && s.guards[id].httpMethod == m && s.guards[id].route == r
  }

  /** The guard has come as far as the operations done for it. */
  ghost predicate AsFar(s: State, steps: seq<Step>, id: GuardId) {
    && (AddStatus(id) in steps <==> id in s.guards && StatusIsAdded(s.guards[id]))
    && (AddOutcome(id) in steps <==> id in s.guards && s.guards[id].phase.Finished?)
    && (EndDrop(id) in steps <==> id in s.guards && s.guards[id].gone)
  }

  /** The guard is recorded as its first call says. */
  ghost predicate AsCalled(s: State, steps: seq<Step>, id: GuardId) {
    var call := FirstCall(steps, id);
    && (call.Some? <==> id in s.guards && !s.guards[id].phase.Pending?)
    && (call.Some? ==>
          && var g := s.guards[id];
          && (g.phase.kind == CompletedResponse <==> call.value.RecordCompleted?)
          && g.phase.cell == Cell(g.httpMethod, g.route, StatusOf(call.value)))
  }

  lemma {:induction false} RunSnoc(s: State, steps: seq<Step>)
    requires steps != [] && Run(s, steps).Some?
    ensures var front := Run(s, steps[..|steps| - 1]);
            && front.Some? && Enabled(front.value, steps[|steps| - 1])
            && Run(s, steps) == Some(Apply(front.value, steps[|steps| - 1]))
    decreases |steps|
  {
    hide Enabled, Apply;
    if |steps| == 1 {
      assert steps[1..] == [] && steps[..0] == [];
    } else {
      RunSnoc(Apply(s, steps[0]), steps[1..]);
      assert steps[1..][..|steps| - 2] == steps[..|steps| - 1][1..];
    }
  }

  lemma StepMade(s: State, steps: seq<Step>, step: Step, id: GuardId)
    requires MadeOnce(s, steps, id) && Enabled(s, step)
    ensures MadeOnce(Apply(s, step), steps + [step], id)
  {
  }

  lemma StepFar(s: State, steps: seq<Step>, step: Step, id: GuardId)
    requires AsFar(s, steps, id) && Enabled(s, step)
    ensures AsFar(Apply(s, step), steps + [step], id)
  {
  }

  lemma StepCalled(s: State, steps: seq<Step>, step: Step, id: GuardId)
    requires AsCalled(s, steps, id) && Enabled(s, step)
    ensures AsCalled(Apply(s, step), steps + [step], id)
  {
    assert (steps + [step])[..|steps|] == steps;
  }

  lemma {:induction false} RunAsCalled(steps: seq<Step>, id: GuardId)
    requires Run(INITIAL, steps).Some?
    ensures var s := Run(INITIAL, steps).value;
            MadeOnce(s, steps, id) && AsFar(s, steps, id) && AsCalled(s, steps, id)
    decreases |steps|
  {
    if steps != [] {
      hide Enabled, Apply, MadeOnce, AsFar, AsCalled;
      var front, last := steps[..|steps| - 1], steps[|steps| - 1];
      RunSnoc(INITIAL, steps);
      RunAsCalled(front, id);
      var s := Run(INITIAL, front).value;
      StepMade(s, front, last, id);
      StepFar(s, front, last, id);
      StepCalled(s, front, last, id);
      assert front + [last] == steps;
    }
  }

  /** The requests whose outcome was added after a first call that completes them, or one that does not. */
  ghost function OutcomesCalled(s: State, steps: seq<Step>, completed: bool): set<GuardId> {
    set id | id in s.guards && AddOutcome(id) in steps
             && FirstCall(steps, id).Some? && FirstCall(steps, id).value.RecordCompleted? == completed
  }

  /** The requests made with the cell's method and route whose first call records the cell's status. */
  ghost function StatusesCalled(s: State, steps: seq<Step>, cell: Cell): set<GuardId> {
    set id | id in s.guards && AddStatus(id) in steps && Create(id, cell.httpMethod, cell.route) in steps
             && FirstCall(steps, id).Some? && StatusOf(FirstCall(steps, id).value) == cell.status
  }

  /** In every interleaving of fewer requests than a counter holds, each counter is the number of requests whose
      first call belongs to it, whatever was called on them later. */
  lemma CountersAsCalled(steps: seq<Step>)
    requires Run(INITIAL, steps).Some? && |Run(INITIAL, steps).value.guards| <= U64_MAX
    ensures var s := Run(INITIAL, steps).value;
            && s.completed == |OutcomesCalled(s, steps, true)|
            && s.aborted == |OutcomesCalled(s, steps, false)|
            && forall cell: Cell :: Count(s.statuses, cell) == |StatusesCalled(s, steps, cell)|
  {
    var s := Run(INITIAL, steps).value;
    InitiallyCounted();
    RunCounted(INITIAL, steps);
    forall id ensures MadeOnce(s, steps, id) && AsFar(s, steps, id) && AsCalled(s, steps, id) {
      RunAsCalled(steps, id);
    }
    hide Run;
    OutcomesAsCalled(s, steps);
    assert |s.guards| == |s.guards.Keys|;
    BelowKeys(s);
    forall cell: Cell ensures RecordedIn(s, cell) == StatusesCalled(s, steps, cell) {
      StatusesAsCalled(s, steps, cell);
    }
    hide MadeOnce, AsFar, AsCalled, OutcomesCalled, StatusesCalled, FinishedAs, RecordedIn, Live, Wrapped;
    WrapNone(|FinishedAs(s, CompletedResponse)|);
    WrapNone(|FinishedAs(s, AbortedResponse)|);
  }

  lemma OutcomesAsCalled(s: State, steps: seq<Step>)
    requires forall id :: AsFar(s, steps, id) && AsCalled(s, steps, id)
    ensures FinishedAs(s, CompletedResponse) == OutcomesCalled(s, steps, true)
    ensures FinishedAs(s, AbortedResponse) == OutcomesCalled(s, steps, false)
  {
    forall id | id in s.guards
      ensures id in FinishedAs(s, CompletedResponse) <==> id in OutcomesCalled(s, steps, true)
      ensures id in FinishedAs(s, AbortedResponse) <==> id in OutcomesCalled(s, steps, false)
    {
      assert AsFar(s, steps, id) && AsCalled(s, steps, id);
    }
  }

  lemma StatusesAsCalled(s: State, steps: seq<Step>, cell: Cell)
    requires forall id :: MadeOnce(s, steps, id) && AsFar(s, steps, id) && AsCalled(s, steps, id)
    ensures RecordedIn(s, cell) == StatusesCalled(s, steps, cell)
  {
    forall id | id in s.guards ensures id in RecordedIn(s, cell) <==> id in StatusesCalled(s, steps, cell) {
      assert MadeOnce(s, steps, id) && AsFar(s, steps, id) && AsCalled(s, steps, id);
    }
  }

  /** No counter counts more than there are guards. */
  lemma BelowKeys(s: State)
    ensures forall kind: Kind :: |FinishedAs(s, kind)| <= |s.guards.Keys|
    ensures forall cell: Cell :: |RecordedIn(s, cell)| <= |s.guards.Keys|
  {
    forall kind: Kind ensures |FinishedAs(s, kind)| <= |s.guards.Keys| {
      Subset(FinishedAs(s, kind), s.guards.Keys);
    }
    forall cell: Cell ensures |RecordedIn(s, cell)| <= |s.guards.Keys| {
      Subset(RecordedIn(s, cell), s.guards.Keys);
    }
  }

  /* ---- each guard on its own ---- */

  /** Once decided, what a guard is recorded as never changes, whatever is called on it later. */
  lemma {:induction false} OutcomeStays(s: State, steps: seq<Step>, id: GuardId)
    requires Run(s, steps).Some? && id in s.guards && !s.guards[id].phase.Pending?
    ensures var s' := Run(s, steps).value;
            && id in s'.guards && !s'.guards[id].phase.Pending?
            && s'.guards[id].phase.kind == s.guards[id].phase.kind
            && s'.guards[id].phase.cell == s.guards[id].phase.cell
    decreases |steps|
  {
    if steps != [] {
      OutcomeStays(Apply(s, steps[0]), steps[1..], id);
    }
  }

  /** A guard that is gone was counted. */
  ghost predicate GoneCounted(s: State) {
    forall id :: id in s.guards && s.guards[id].gone ==> s.guards[id].phase.Finished?
  }

  lemma {:induction false} DroppedCounted(s: State, steps: seq<Step>)
    requires GoneCounted(s) && Run(s, steps).Some?
    ensures GoneCounted(Run(s, steps).value)
    decreases |steps|
  {
    if steps != [] {
      DroppedCounted(Apply(s, steps[0]), steps[1..]);
    }
  }
}
