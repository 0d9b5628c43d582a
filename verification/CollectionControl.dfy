/** Online collection: a dispatcher thread admits requests, a collector thread serves them one at
    a time through a one-slot queue, and two shutdown flags may be raised at any moment. Every
    atomic access of either thread is one action; a run is any interleaving of actions. */
module CollectionControl {
  import opened Options

  type Job = nat

  datatype Failure = BusyNow | Changed | BackendMismatch | StoppingNow | Policy | Storage

  datatype Reply = Completed(targetMet: bool) | Failed(failure: Failure)

  datatype Outcome = Success | TargetNotReached | Busy | InventoryChanged | OtherFailure

  function OutcomeOf(reply: Reply): Outcome {
    match reply
    case Completed(met) => if met then Success else TargetNotReached
    case Failed(BusyNow) => Busy
    case Failed(Changed) => InventoryChanged
    case Failed(_) => OtherFailure
  }

  datatype Dispatcher =
    | CheckLocal
    | CheckDaemon
    | Accepting
    | Admitting(job: Job)
    | Sending(job: Job)
    | Releasing(job: Job)
    | Rejecting(job: Job, failure: Failure)
    | Ended

  datatype Collector =
    | Receiving
    | LookLocal(job: Job)
    | LookDaemon(job: Job)
    | Collecting(job: Job)
    | Replying(job: Job, reply: Reply)
    | Dropping
    | Unwinding
    | Closing
    | Finished

  datatype Record = Record(job: Job, outcome: Outcome)

  datatype State = State(
    stopping: bool,
    daemonStopping: bool,
    busy: bool,
    queue: seq<Job>,
    queueOpen: bool,
    dispatcher: Dispatcher,
    collector: Collector,
    issued: nat,
    records: seq<Record>,
    lost: seq<Job>,
    panicked: bool)

  const INIT: State := State(false, false, false, [], true, CheckLocal, Receiving, 0, [], [], false)

  datatype Arrival = NoConnection | FatalError | Malformed | Request

  datatype Action =
    | RaiseStopping
    | RaiseDaemonStopping
    | Dispatch(arrival: Arrival)
    | Collect(reply: Reply)
    | Panic

  /* ---- the threads, one atomic access at a time ---- */

  function DispatcherStep(s: State, arrival: Arrival): State {
    match s.dispatcher
    case CheckLocal => s.(dispatcher := if s.stopping then Ended else CheckDaemon)
    case CheckDaemon => s.(dispatcher := if s.daemonStopping then Ended else Accepting)
    case Accepting =>
      (match arrival
       case FatalError => s.(dispatcher := Ended)
       case Request => s.(dispatcher := Admitting(s.issued), issued := s.issued + 1)
       case _ => s.(dispatcher := CheckLocal))
    case Admitting(job) =>
      if s.busy then s.(dispatcher := Rejecting(job, BusyNow))
      else s.(busy := true, dispatcher := Sending(job))
    case Sending(job) =>
      if s.queueOpen && |s.queue| < 1 then s.(queue := s.queue + [job], dispatcher := CheckLocal)
      else s.(dispatcher := Releasing(job))
    case Releasing(job) => s.(busy := false, dispatcher := Rejecting(job, StoppingNow))
    case Rejecting(job, failure) =>
      s.(records := s.records + [Record(job, OutcomeOf(Failed(failure)))], dispatcher := CheckLocal)
    case Ended => s
  }

  function CollectorStep(s: State, reply: Reply): State {
    match s.collector
    case Receiving =>
      if s.queue != [] then s.(collector := LookLocal(s.queue[0]), queue := s.queue[1..])
      else if s.dispatcher.Ended? then s.(collector := Finished, queueOpen := false)
      else s
    case LookLocal(job) =>
      s.(collector := if s.stopping then Replying(job, Failed(StoppingNow)) else LookDaemon(job))
    case LookDaemon(job) =>
      s.(collector := if s.daemonStopping then Replying(job, Failed(StoppingNow)) else Collecting(job))
    case Collecting(job) => s.(collector := Replying(job, reply))
    case Replying(job, answer) =>
      s.(records := s.records + [Record(job, OutcomeOf(answer))], collector := Dropping)
    case Dropping => s.(busy := false, collector := Receiving)
    case Unwinding => s.(busy := false, collector := Closing)
    case Closing => s.(lost := s.lost + s.queue, queue := [], queueOpen := false, collector := Finished)
    case Finished => s
  }

  predicate Enabled(s: State, a: Action) {
    match a
    case RaiseStopping => true
    case RaiseDaemonStopping => true
    case Dispatch(_) => !s.dispatcher.Ended?
    case Collect(_) =>
      && !s.collector.Finished?
      && (s.collector.Receiving? ==> s.queue != [] || s.dispatcher.Ended?)
    case Panic => s.collector.Collecting?
  }

  function Apply(s: State, a: Action): State {
    match a
    case RaiseStopping => s.(stopping := true)
    case RaiseDaemonStopping => s.(daemonStopping := true)
    case Dispatch(arrival) => DispatcherStep(s, arrival)
    case Collect(reply) => CollectorStep(s, reply)
    case Panic =>
      if s.collector.Collecting?
      then s.(collector := Unwinding, lost := s.lost + [s.collector.job], panicked := true)
      else s
  }

  /** s leads to t by the given interleaving. */
  predicate Leads(s: State, actions: seq<Action>, t: State)
    decreases |actions|
  {
    if actions == [] then s == t
    else Enabled(s, actions[0]) && Leads(Apply(s, actions[0]), actions[1..], t)
  }

  /** The dispatcher ends at a raised flag or a fatal error and at nothing else, and reads a request exactly when one
      arrives. */
  lemma DispatcherExact(s: State, arrival: Arrival)
    requires !s.dispatcher.Ended?
    ensures DispatcherStep(s, arrival).dispatcher.Ended? <==>
            || (s.dispatcher.CheckLocal? && s.stopping) || (s.dispatcher.CheckDaemon? && s.daemonStopping)
            || (s.dispatcher.Accepting? && arrival.FatalError?)
    ensures DispatcherStep(s, arrival).issued == s.issued + One(s.dispatcher.Accepting? && arrival.Request?)
  {
    hide OutcomeOf;
  }

  /* ---- where every request is ---- */

  function One(b: bool): nat {
    if b then 1 else 0
  }

  function Times(jobs: seq<Job>, j: Job): nat {
    if jobs == [] then 0 else Times(jobs[..|jobs| - 1], j) + One(jobs[|jobs| - 1] == j)
  }

  function Recorded(records: seq<Record>, j: Job): nat {
    if records == [] then 0
    else Recorded(records[..|records| - 1], j) + One(records[|records| - 1].job == j)
  }

  function AtDispatcher(d: Dispatcher, j: Job): nat {
    match d
    case Admitting(job) => One(job == j)
    case Sending(job) => One(job == j)
    case Releasing(job) => One(job == j)
    case Rejecting(job, _) => One(job == j)
    case _ => 0
  }

  function AtCollector(c: Collector, j: Job): nat {
    match c
    case LookLocal(job) => One(job == j)
    case LookDaemon(job) => One(job == j)
    case Collecting(job) => One(job == j)
    case Replying(job, _) => One(job == j)
    case _ => 0
  }

  /** In how many places request j is: recorded, lost, queued, or with a thread. */
  function Tally(s: State, j: Job): nat {
    Recorded(s.records, j) + Times(s.lost, j) + Times(s.queue, j)
    + AtDispatcher(s.dispatcher, j) + AtCollector(s.collector, j)
  }

  /** How many hold the admission: a job being sent or released, queued, or with the collector. */
  function Holders(s: State): nat {
    (if s.dispatcher.Sending? || s.dispatcher.Releasing? then 1 else 0)
    + |s.queue|
    + (if s.collector.Receiving? || s.collector.Finished? || s.collector.Closing? then 0 else 1)
  }

  /** How flags, queue and threads hang together. */
  ghost predicate Shape(s: State) {
    && (s.queueOpen <==> !s.collector.Finished?)
    && (s.panicked <==> s.lost != [])
    && (s.collector.Unwinding? || s.collector.Closing? ==> s.panicked)
    && (s.collector.Unwinding? ==> |s.lost| == 1 && s.queue == [])
    && (s.collector.Closing? ==> |s.lost| == 1 && |s.queue| <= 1)
    && |s.lost| <= 2
    && (!s.panicked ==>
          && Holders(s) == (if s.busy then 1 else 0) && !s.dispatcher.Releasing?
          && (s.collector.Finished? ==> s.dispatcher.Ended? && s.queue == []))
    && (s.panicked && !s.collector.Closing? && !s.collector.Unwinding? ==> s.collector.Finished? && s.queue == [])
    && (s.collector.Unwinding? ==> s.busy && !s.dispatcher.Sending? && !s.dispatcher.Releasing?)
  }

  lemma RecordedSnoc(records: seq<Record>, r: Record, j: Job)
    ensures Recorded(records + [r], j) == Recorded(records, j) + One(r.job == j)
  {
    assert (records + [r])[..|records|] == records;
  }

  lemma TimesSnoc(jobs: seq<Job>, job: Job, j: Job)
    ensures Times(jobs + [job], j) == Times(jobs, j) + One(job == j)
  {
    assert (jobs + [job])[..|jobs|] == jobs;
  }

  lemma {:induction false} TimesConcat(a: seq<Job>, b: seq<Job>, j: Job)
    ensures Times(a + b, j) == Times(a, j) + Times(b, j)
    decreases |b|
  {
    if b == [] {
      assert a + b == a;
    } else {
      var n := |b| - 1;
      assert (a + b)[..|a| + n] == a + b[..n];
      TimesConcat(a, b[..n], j);
    }
  }

  lemma TimesHead(jobs: seq<Job>, j: Job)
    requires jobs != []
    ensures Times(jobs, j) == One(jobs[0] == j) + Times(jobs[1..], j)
  {
    assert jobs == [jobs[0]] + jobs[1..];
    TimesConcat([jobs[0]], jobs[1..], j);
  }

  ghost predicate SameJobs(s: State, t: State, j: Job) {
    Tally(t, j) == Tally(s, j) && t.issued == s.issued
  }

  lemma TallyAccept(s: State, arrival: Arrival, j: Job)
    requires s.dispatcher.Accepting?
    ensures var t := DispatcherStep(s, arrival);
            if arrival.Request? then Tally(t, j) == Tally(s, j) + One(s.issued == j) && t.issued == s.issued + 1
            else SameJobs(s, t, j)
  {
    hide Recorded, Times;
  }

  lemma TallyHandOver(s: State, arrival: Arrival, j: Job)
    requires s.dispatcher.Sending? || s.dispatcher.Rejecting?
    ensures SameJobs(s, DispatcherStep(s, arrival), j)
  {
    hide Recorded, Times, OutcomeOf;
    if s.dispatcher.Sending? {
      TimesSnoc(s.queue, s.dispatcher.job, j);
    } else {
      RecordedSnoc(s.records, Record(s.dispatcher.job, OutcomeOf(Failed(s.dispatcher.failure))), j);
    }
  }

  lemma TallyDispatcher(s: State, arrival: Arrival, j: Job)
    requires !s.dispatcher.Accepting?
    ensures SameJobs(s, DispatcherStep(s, arrival), j)
  {
    hide Recorded, Times, OutcomeOf;
    match s.dispatcher
    case Sending(_) => TallyHandOver(s, arrival, j);
    case Rejecting(_, _) => TallyHandOver(s, arrival, j);
    case Admitting(job) =>
    case Releasing(job) =>
    case CheckLocal =>
    case CheckDaemon =>
    case Ended =>
  }

  lemma TallyReceive(s: State, reply: Reply, j: Job)
    requires s.collector.Receiving?
    ensures SameJobs(s, CollectorStep(s, reply), j)
  {
    hide Recorded, Times;
    if s.queue != [] { TimesHead(s.queue, j); }
  }

  lemma TallyClose(s: State, reply: Reply, j: Job)
    requires s.collector.Closing?
    ensures SameJobs(s, CollectorStep(s, reply), j)
  {
    hide Recorded, Times;
    TimesConcat(s.lost, s.queue, j);
    NoTimes(j);
  }

  lemma TallyReply(s: State, reply: Reply, j: Job)
    requires s.collector.Replying?
    ensures SameJobs(s, CollectorStep(s, reply), j)
  {
    hide Recorded, Times, OutcomeOf;
    RecordedSnoc(s.records, Record(s.collector.job, OutcomeOf(s.collector.reply)), j);
  }

  lemma TallyLook(s: State, reply: Reply, j: Job)
    requires s.collector.LookLocal? || s.collector.LookDaemon? || s.collector.Collecting?
    ensures SameJobs(s, CollectorStep(s, reply), j)
  {
    hide Recorded, Times;
  }

  lemma TallyCollector(s: State, reply: Reply, j: Job)
    ensures SameJobs(s, CollectorStep(s, reply), j)
  {
    hide Recorded, Times, SameJobs;
    match s.collector
    case Receiving => TallyReceive(s, reply, j);
    case Replying(_, _) => TallyReply(s, reply, j);
    case Closing => TallyClose(s, reply, j);
    case LookLocal(_) => TallyLook(s, reply, j);
    case LookDaemon(_) => TallyLook(s, reply, j);
    case Collecting(_) => TallyLook(s, reply, j);
    case _ => TallyDrop(s, reply, j);
  }

  lemma TallyDrop(s: State, reply: Reply, j: Job)
    requires s.collector.Dropping? || s.collector.Unwinding? || s.collector.Finished?
    ensures SameJobs(s, CollectorStep(s, reply), j)
  {
    hide Recorded, Times;
  }

  /** No action loses or duplicates a request; issuing one adds it once. */
  lemma TallyKept(s: State, a: Action, j: Job)
    requires Enabled(s, a)
    ensures Tally(Apply(s, a), j) == Tally(s, j) + One(s.issued == j < Apply(s, a).issued)
    ensures s.issued <= Apply(s, a).issued <= s.issued + 1
  {
    hide Recorded, Times, DispatcherStep, CollectorStep;
    match a
    case Dispatch(arrival) =>
      if s.dispatcher.Accepting? { TallyAccept(s, arrival, j); } else { TallyDispatcher(s, arrival, j); }
    case Collect(reply) => TallyCollector(s, reply, j);
    case Panic => TimesSnoc(s.lost, s.collector.job, j);
    case _ =>
  }

  lemma NoTimes(j: Job)
    ensures Times([], j) == 0
  {
  }

  lemma DispatcherShape(s: State, arrival: Arrival)
    requires Shape(s)
    ensures Shape(DispatcherStep(s, arrival))
  {
    hide OutcomeOf;
    match s.dispatcher
    case CheckLocal =>
    case CheckDaemon =>
    case Accepting => match arrival { case NoConnection => case FatalError => case Malformed => case Request => }
    case Admitting(job) =>
    case Sending(job) =>
    case Releasing(job) =>
    case Rejecting(job, failure) =>
    case Ended =>
  }

  lemma CollectorShape(s: State, reply: Reply)
    requires Shape(s)
    ensures Shape(CollectorStep(s, reply))
  {
    hide OutcomeOf;
    match s.collector
    case Receiving =>
    case LookLocal(job) =>
    case LookDaemon(job) =>
    case Collecting(job) =>
    case Replying(job, answer) =>
    case Dropping =>
    case Unwinding =>
    case Closing =>
    case Finished =>
  }

  lemma ShapeKept(s: State, a: Action)
    requires Shape(s) && Enabled(s, a)
    ensures Shape(Apply(s, a))
  {
    hide DispatcherStep, CollectorStep;
    match a
    case Dispatch(arrival) => DispatcherShape(s, arrival);
    case Collect(reply) => CollectorShape(s, reply);
    case _ =>
  }

  lemma {:induction false} ShapeReached(s: State, actions: seq<Action>, t: State)
    requires Shape(s) && Leads(s, actions, t)
    ensures Shape(t)
    decreases |actions|
  {
    hide Shape, Apply, Enabled;
    if actions != [] {
      ShapeKept(s, actions[0]);
      ShapeReached(Apply(s, actions[0]), actions[1..], t);
    }
  }

  lemma {:induction false} TallyReached(s: State, actions: seq<Action>, t: State, j: Job)
    requires Tally(s, j) == One(j < s.issued) && Leads(s, actions, t)
    ensures Tally(t, j) == One(j < t.issued)
    decreases |actions|
  {
    hide Tally, Apply, Enabled;
    if actions != [] {
      TallyKept(s, actions[0], j);
      TallyReached(Apply(s, actions[0]), actions[1..], t, j);
    }
  }

  lemma Reached(actions: seq<Action>, s: State)
    requires Leads(INIT, actions, s)
    ensures Shape(s)
    ensures forall j: Job :: Tally(s, j) == One(j < s.issued)
  {
    hide Leads;
    ShapeReached(INIT, actions, s);
    forall j: Job ensures Tally(s, j) == One(j < s.issued) { TallyReached(INIT, actions, s, j); }
  }

  /* ---- the promises ---- */

  /** While the collector has not panicked, `busy` holds exactly when one job is being sent,
      queued or with the collector, and never more than one is. */
  lemma BusyExact(actions: seq<Action>, s: State)
    requires Leads(INIT, actions, s) && !s.panicked
    ensures Holders(s) <= 1 && (s.busy <==> Holders(s) == 1)
    ensures !s.dispatcher.Releasing?
  {
    hide Leads, Tally;
    Reached(actions, s);
  }

  /** Hence the dispatcher's send never meets a full or closed queue. */
  lemma SendSucceeds(actions: seq<Action>, s: State, arrival: Arrival)
    requires Leads(INIT, actions, s) && !s.panicked && s.dispatcher.Sending?
    ensures DispatcherStep(s, arrival).queue == [s.dispatcher.job]
    ensures DispatcherStep(s, arrival).dispatcher == CheckLocal
  {
    hide Leads, Tally;
    Reached(actions, s);
  }

  /** Every well-formed request is in exactly one place: with a thread, queued, recorded or, after
      a panic, lost. In particular none gets two outcomes, and malformed ones get none. */
  lemma OnePlace(actions: seq<Action>, s: State, j: Job)
    requires Leads(INIT, actions, s)
    ensures Tally(s, j) == One(j < s.issued)
    ensures Recorded(s.records, j) <= One(j < s.issued)
    ensures !s.panicked ==> s.lost == []
  {
    hide Leads, Tally;
    Reached(actions, s);
    TallyParts(s, j);
  }

  lemma TallyParts(s: State, j: Job)
    ensures Recorded(s.records, j) <= Tally(s, j)
    ensures s.dispatcher.Ended? && s.collector.Finished? && s.queue == []
            ==> Tally(s, j) == Recorded(s.records, j) + Times(s.lost, j)
  {
  }

  /** When both threads have ended, every request that was read has exactly one recorded outcome, if and only if
      the collector never panicked, and then it is the right one. A panic loses the request being collected and at
      most one more. */
  lemma Drained(actions: seq<Action>, s: State)
    requires Leads(INIT, actions, s) && s.dispatcher.Ended? && s.collector.Finished?
    ensures (forall j: Job :: j < s.issued ==> Recorded(s.records, j) == 1) <==> !s.panicked
    ensures !s.panicked ==> forall j: Job :: j < s.issued ==> RightlyRecorded(actions, s, j)
    ensures |s.lost| <= 2
  {
    hide Leads, Tally, Recorded, Times, RightlyRecorded;
    Reached(actions, s);
    forall j: Job
      ensures Tally(s, j) == Recorded(s.records, j) + Times(s.lost, j) == One(j < s.issued)
    {
      TallyParts(s, j);
    }
    if s.panicked {
      var j := s.lost[|s.lost| - 1];
      LastCounts(s.lost);
      assert Tally(s, j) == Recorded(s.records, j) + Times(s.lost, j) == One(j < s.issued);
      assert j < s.issued && Recorded(s.records, j) == 0;
    } else {
      forall j: Job | j < s.issued ensures Recorded(s.records, j) == 1 && RightlyRecorded(actions, s, j) {
        assert Tally(s, j) == Recorded(s.records, j) + Times(s.lost, j) == One(j < s.issued);
        NoTimes(j);
        RecordIsRight(actions, s, j);
      }
    }
  }

  lemma LastCounts(jobs: seq<Job>)
    requires jobs != []
    ensures Times(jobs, jobs[|jobs| - 1]) >= 1
  {
  }

  /* ---- which outcome is recorded ---- */

  /** What settles a request: it is turned away, it meets a shutdown flag, the queue is closed on it, or its
      collection reports. */
  datatype Decision = TurnedAway | ShutDown | QueueClosed | Reported(reply: Reply)

  /** What the next action of a run settles for request j, if anything. */
  function Settles(s: State, a: Action, j: Job): Option<Decision> {
    match a
    case Dispatch(_) =>
      if s.dispatcher == Admitting(j) && s.busy then Some(TurnedAway)
      else if s.dispatcher == Sending(j) && (!s.queueOpen || s.queue != []) then Some(QueueClosed)
      else None
    case Collect(reply) =>
      if s.collector == LookLocal(j) && s.stopping then Some(ShutDown)
      else if s.collector == LookDaemon(j) && s.daemonStopping then Some(ShutDown)
      else if s.collector == Collecting(j) then Some(Reported(reply))
      else None
    case _ => None
  }

  /** What a run from s settles first for request j. */
  function Settled(s: State, actions: seq<Action>, j: Job): Option<Decision>
    decreases |actions|
  {
    if actions == [] then None else Earlier(Settles(s, actions[0], j), Settled(Apply(s, actions[0]), actions[1..], j))
  }

  function Earlier(first: Option<Decision>, later: Option<Decision>): Option<Decision> {
    if first.Some? then first else later
  }

  /** What must have been settled for an outcome to be the right one. */
  predicate CalledFor(outcome: Outcome, decision: Decision) {
    match outcome
    case Success => decision == Reported(Completed(true))
    case TargetNotReached => decision == Reported(Completed(false))
    case Busy => decision == TurnedAway || decision == Reported(Failed(BusyNow))
    case InventoryChanged => decision == Reported(Failed(Changed))
    case OtherFailure =>
      || decision == ShutDown || decision == QueueClosed
      || decision == Reported(Failed(BackendMismatch)) || decision == Reported(Failed(StoppingNow))
      || decision == Reported(Failed(Policy)) || decision == Reported(Failed(Storage))
  }

  /** Every record of j is the one called for by what was settled, and so will be the one underway. */
  ghost predicate Truthful(s: State, j: Job, decision: Option<Decision>) {
    && RecordsRight(s.records, j, decision)
    && Undecided(s, j, decision)
    && (s.dispatcher == Releasing(j) ==> decision == Some(QueueClosed))
    && (s.dispatcher.Rejecting? && s.dispatcher.job == j ==>
          decision == Some(if s.dispatcher.failure == BusyNow then TurnedAway else QueueClosed))
    && (s.dispatcher.Rejecting? ==> s.dispatcher.failure in {BusyNow, StoppingNow})
    && (s.collector.Replying? && s.collector.job == j ==>
          || decision == Some(Reported(s.collector.reply))
          || (decision == Some(ShutDown) && s.collector.reply == Failed(StoppingNow)))
  }

  ghost predicate RecordsRight(records: seq<Record>, j: Job, decision: Option<Decision>) {
    forall i :: 0 <= i < |records| && records[i].job == j ==>
      decision.Some? && CalledFor(records[i].outcome, decision.value)
  }

  /** Nothing is settled for a request before it is read, or on its way to the end of its collection. */
  ghost predicate Undecided(s: State, j: Job, decision: Option<Decision>) {
    && (j >= s.issued ==> decision.None?)
    && (s.dispatcher == Admitting(j) || s.dispatcher == Sending(j) || j in s.queue ==> decision.None?)
    && (s.collector == LookLocal(j) || s.collector == LookDaemon(j) || s.collector == Collecting(j) ==> decision.None?)
  }

  lemma {:induction false} QueuedCounts(jobs: seq<Job>, j: Job)
    requires Times(jobs, j) == 0
    ensures j !in jobs
    decreases |jobs|
  {
    if jobs != [] { QueuedCounts(jobs[..|jobs| - 1], j); }
  }

  /** Where a dispatcher's request is, it is nowhere else; and what was not read is nowhere. */
  lemma OnlyThere(s: State, j: Job)
    requires Tally(s, j) == One(j < s.issued)
    ensures AtDispatcher(s.dispatcher, j) + AtCollector(s.collector, j) <= One(j < s.issued)
    ensures AtDispatcher(s.dispatcher, j) + AtCollector(s.collector, j) == 1 || j >= s.issued ==> j !in s.queue
  {
    hide Recorded, Times;
    if Times(s.queue, j) == 0 { QueuedCounts(s.queue, j); }
  }

  /** As long as nothing was settled there is no record, and anything may be settled. */
  lemma NoRecords(records: seq<Record>, j: Job, decision: Option<Decision>)
    requires RecordsRight(records, j, None)
    ensures RecordsRight(records, j, decision)
  {
  }

  lemma OneRecordMore(records: seq<Record>, r: Record, j: Job, decision: Option<Decision>)
    requires RecordsRight(records, j, decision)
    requires r.job == j ==> decision.Some? && CalledFor(r.outcome, decision.value)
    ensures RecordsRight(records + [r], j, decision)
  {
  }

  lemma ListenTruthful(s: State, arrival: Arrival, j: Job, decision: Option<Decision>)
    requires Truthful(s, j, decision)
    requires s.dispatcher.CheckLocal? || s.dispatcher.CheckDaemon? || s.dispatcher.Accepting?
    ensures Truthful(DispatcherStep(s, arrival), j, decision)
  {
    hide RecordsRight, OutcomeOf;
    match arrival { case NoConnection => case FatalError => case Malformed => case Request => }
  }

  lemma AdmitTruthful(s: State, arrival: Arrival, j: Job, decision: Option<Decision>)
    requires Tally(s, j) == One(j < s.issued) && Truthful(s, j, decision) && s.dispatcher.Admitting?
    ensures Truthful(DispatcherStep(s, arrival), j, Earlier(decision, Settles(s, Dispatch(arrival), j)))
  {
    OnlyThere(s, j);
    hide RecordsRight, OutcomeOf, Tally;
    if decision.None? { NoRecords(s.records, j, Settles(s, Dispatch(arrival), j)); }
  }

  lemma SendTruthful(s: State, arrival: Arrival, j: Job, decision: Option<Decision>)
    requires Tally(s, j) == One(j < s.issued) && Truthful(s, j, decision) && s.dispatcher.Sending?
    ensures Truthful(DispatcherStep(s, arrival), j, Earlier(decision, Settles(s, Dispatch(arrival), j)))
  {
    OnlyThere(s, j);
    Sent(s, arrival);
    hide RecordsRight, Tally, DispatcherStep;
    if decision.None? { NoRecords(s.records, j, Settles(s, Dispatch(arrival), j)); }
  }

  lemma Sent(s: State, arrival: Arrival)
    requires s.dispatcher.Sending?
    ensures var t := DispatcherStep(s, arrival);
            && t.records == s.records && t.issued == s.issued && t.collector == s.collector
            && if s.queueOpen && s.queue == [] then t.queue == [s.dispatcher.job] && t.dispatcher.CheckLocal?
               else t.queue == s.queue && t.dispatcher == Releasing(s.dispatcher.job)
  {
  }

  lemma RejectTruthful(s: State, arrival: Arrival, j: Job, decision: Option<Decision>)
    requires Truthful(s, j, decision) && (s.dispatcher.Releasing? || s.dispatcher.Rejecting?)
    ensures Truthful(DispatcherStep(s, arrival), j, decision)
  {
    hide RecordsRight;
    if s.dispatcher.Rejecting? {
      OneRecordMore(s.records, Record(s.dispatcher.job, OutcomeOf(Failed(s.dispatcher.failure))), j, decision);
    }
  }

  lemma DispatcherTruthful(s: State, arrival: Arrival, j: Job, decision: Option<Decision>)
    requires Tally(s, j) == One(j < s.issued) && Truthful(s, j, decision) && !s.dispatcher.Ended?
    ensures Truthful(DispatcherStep(s, arrival), j, Earlier(decision, Settles(s, Dispatch(arrival), j)))
  {
    hide DispatcherStep, Truthful, Tally;
    match s.dispatcher
    case Admitting(_) => AdmitTruthful(s, arrival, j, decision);
    case Sending(_) => SendTruthful(s, arrival, j, decision);
    case Releasing(_) => RejectTruthful(s, arrival, j, decision);
    case Rejecting(_, _) => RejectTruthful(s, arrival, j, decision);
    case _ => ListenTruthful(s, arrival, j, decision);
  }

  lemma CollectTruthful(s: State, reply: Reply, j: Job, decision: Option<Decision>)
    requires Tally(s, j) == One(j < s.issued) && Truthful(s, j, decision)
    requires s.collector.LookLocal? || s.collector.LookDaemon? || s.collector.Collecting?
    ensures Truthful(CollectorStep(s, reply), j, Earlier(decision, Settles(s, Collect(reply), j)))
  {
    OnlyThere(s, j);
    hide RecordsRight, Tally;
    if decision.None? { NoRecords(s.records, j, Settles(s, Collect(reply), j)); }
    match s.collector { case LookLocal(job) => case LookDaemon(job) => case Collecting(job) => }
  }

  lemma ReplyTruthful(s: State, reply: Reply, j: Job, decision: Option<Decision>)
    requires Truthful(s, j, decision) && s.collector.Replying?
    ensures Truthful(CollectorStep(s, reply), j, decision)
  {
    hide RecordsRight;
    OneRecordMore(s.records, Record(s.collector.job, OutcomeOf(s.collector.reply)), j, decision);
  }

  lemma RestTruthful(s: State, reply: Reply, j: Job, decision: Option<Decision>)
    requires Truthful(s, j, decision)
    requires s.collector.Receiving? || s.collector.Dropping? || s.collector.Unwinding? || s.collector.Closing?
    ensures Truthful(CollectorStep(s, reply), j, decision)
  {
    hide RecordsRight;
    match s.collector { case Receiving => case Dropping => case Unwinding => case Closing => }
  }

  lemma CollectorTruthful(s: State, reply: Reply, j: Job, decision: Option<Decision>)
    requires Tally(s, j) == One(j < s.issued) && Truthful(s, j, decision) && !s.collector.Finished?
    ensures Truthful(CollectorStep(s, reply), j, Earlier(decision, Settles(s, Collect(reply), j)))
  {
    hide CollectorStep, Truthful, Tally;
    match s.collector
    case LookLocal(_) => CollectTruthful(s, reply, j, decision);
    case LookDaemon(_) => CollectTruthful(s, reply, j, decision);
    case Collecting(_) => CollectTruthful(s, reply, j, decision);
    case Replying(_, _) => ReplyTruthful(s, reply, j, decision);
    case _ => RestTruthful(s, reply, j, decision);
  }

  lemma ActionTruthful(s: State, a: Action, j: Job, decision: Option<Decision>)
    requires Tally(s, j) == One(j < s.issued) && Truthful(s, j, decision) && Enabled(s, a)
    ensures Truthful(Apply(s, a), j, Earlier(decision, Settles(s, a, j)))
  {
    hide DispatcherStep, CollectorStep, Tally;
    match a
    case Dispatch(arrival) => DispatcherTruthful(s, arrival, j, decision);
    case Collect(reply) => CollectorTruthful(s, reply, j, decision);
    case RaiseStopping =>
    case RaiseDaemonStopping =>
    case Panic =>
  }

  lemma {:induction false} TruthfulReached(s: State, actions: seq<Action>, t: State, j: Job, decision: Option<Decision>)
    requires Tally(s, j) == One(j < s.issued) && Truthful(s, j, decision) && Leads(s, actions, t)
    ensures Truthful(t, j, Earlier(decision, Settled(s, actions, j)))
    decreases |actions|
  {
    hide Tally, Truthful, Apply, Enabled, Settles;
    if actions != [] {
      var next := Earlier(decision, Settles(s, actions[0], j));
      TallyKept(s, actions[0], j);
      ActionTruthful(s, actions[0], j, decision);
      TruthfulReached(Apply(s, actions[0]), actions[1..], t, j, next);
    }
  }

  /** The request has a record, and the outcome in it is the one called for by what the run settled first. */
  ghost predicate RightlyRecorded(actions: seq<Action>, s: State, j: Job) {
    exists i :: 0 <= i < |s.records| && s.records[i].job == j && RecordedRight(actions, s.records[i])
  }

  predicate RecordedRight(actions: seq<Action>, r: Record) {
    var decision := Settled(INIT, actions, r.job);
    decision.Some? && CalledFor(r.outcome, decision.value)
  }

  /** In every reachable state every record holds the outcome that the history of its request calls for. */
  lemma OutcomesRight(actions: seq<Action>, s: State)
    requires Leads(INIT, actions, s)
    ensures forall i :: 0 <= i < |s.records| ==> RecordedRight(actions, s.records[i])
  {
    forall i | 0 <= i < |s.records| ensures RecordedRight(actions, s.records[i]) {
      var j := s.records[i].job;
      NoTimes(j);
      assert Tally(INIT, j) == 0 && Truthful(INIT, j, None);
      hide Leads, CalledFor, Settled, Tally;
      TruthfulReached(INIT, actions, s, j, None);
    }
  }

  lemma {:induction false} RecordedSome(records: seq<Record>, j: Job)
    requires Recorded(records, j) > 0
    ensures exists i :: 0 <= i < |records| && records[i].job == j
    decreases |records|
  {
    var last := |records| - 1;
    if records[last].job != j {
      RecordedSome(records[..last], j);
      var i :| 0 <= i < last && records[..last][i].job == j;
      assert records[i].job == j;
    }
  }

  lemma RecordIsRight(actions: seq<Action>, s: State, j: Job)
    requires Leads(INIT, actions, s) && Recorded(s.records, j) == 1
    ensures RightlyRecorded(actions, s, j)
  {
    hide Leads, Recorded, RecordedRight;
    OutcomesRight(actions, s);
    RecordedSome(s.records, j);
  }

  lemma {:induction false} LeadsOn(s: State, actions: seq<Action>, t: State, more: seq<Action>, u: State)
    requires Leads(s, actions, t) && Leads(t, more, u)
    ensures Leads(s, actions + more, u)
    decreases |actions|
  {
    hide Apply, Enabled;
    if actions == [] {
      assert actions + more == more;
    } else {
      LeadsOn(Apply(s, actions[0]), actions[1..], t, more, u);
      assert (actions + more)[1..] == actions[1..] + more;
    }
  }

  /* ---- progress ---- */

  /** How many of its own actions the dispatcher still has to do for request j. */
  function DispatcherLeft(d: Dispatcher, j: Job): nat {
    match d
    case Admitting(job) => if job == j then 2 else 0
    case Sending(job) => if job == j then 1 else 0
    case Releasing(job) => if job == j then 2 else 0
    case Rejecting(job, _) => if job == j then 1 else 0
    case _ => 0
  }

  /** How many actions the collector can still do for what it holds or finds queued. */
  function Backlog(s: State): nat {
    6 * |s.queue| +
    match s.collector
    case LookLocal(_) => 5
    case LookDaemon(_) => 4
    case Collecting(_) => 3
    case Replying(_, _) => 2
    case Dropping => 1
    case _ => 0
  }

  function WithCollector(c: Collector, j: Job): nat {
    match c
    case LookLocal(job) => if job == j then 4 else 0
    case LookDaemon(job) => if job == j then 3 else 0
    case Collecting(job) => if job == j then 2 else 0
    case Replying(job, _) => if job == j then 1 else 0
    case _ => 0
  }

  /** How many actions the collector can do at most until request j has its outcome; none are needed for one
      that is turned away. */
  function CollectorLeft(s: State, j: Job): nat {
    if s.dispatcher == Admitting(j) || s.dispatcher == Sending(j) then Backlog(s) + 5
    else if j in s.queue then 5
    else WithCollector(s.collector, j)
  }

  function Less(n: nat, acted: bool): nat {
    if acted && n > 0 then n - 1 else n
  }

  lemma QueueTimes(queue: seq<Job>, j: Job)
    requires |queue| <= 1
    ensures Times(queue, j) == One(j in queue)
  {
    if |queue| == 1 {
      assert queue == [] + [queue[0]];
      TimesSnoc([], queue[0], j);
    }
  }

  /** Where a request is while nothing is lost. */
  lemma FourPlaces(s: State, j: Job)
    requires Shape(s) && !s.panicked && Tally(s, j) == 1
    ensures AtDispatcher(s.dispatcher, j) + One(j in s.queue) + AtCollector(s.collector, j)
            + Recorded(s.records, j) == 1
  {
    hide Recorded, Times;
    QueueTimes(s.queue, j);
    NoTimes(j);
  }

  lemma DispatcherProgress(s: State, arrival: Arrival, j: Job)
    requires Shape(s) && !s.panicked && Tally(s, j) == 1 && j < s.issued && !s.dispatcher.Ended?
    ensures !DispatcherStep(s, arrival).panicked
    ensures DispatcherLeft(DispatcherStep(s, arrival).dispatcher, j) <= Less(DispatcherLeft(s.dispatcher, j), true)
    ensures CollectorLeft(DispatcherStep(s, arrival), j) <= CollectorLeft(s, j)
  {
    FourPlaces(s, j);
    hide OutcomeOf, Recorded, Times, Tally;
    match s.dispatcher
    case CheckLocal =>
    case CheckDaemon =>
    case Accepting => match arrival { case NoConnection => case FatalError => case Malformed => case Request => }
    case Admitting(job) =>
    case Sending(job) =>
    case Rejecting(job, failure) =>
  }

  lemma CollectorProgress(s: State, reply: Reply, j: Job)
    requires Shape(s) && !s.panicked && Tally(s, j) == 1 && Enabled(s, Collect(reply))
    ensures !CollectorStep(s, reply).panicked && CollectorStep(s, reply).dispatcher == s.dispatcher
    ensures CollectorLeft(CollectorStep(s, reply), j) <= Less(CollectorLeft(s, j), true)
  {
    FourPlaces(s, j);
    hide OutcomeOf, Recorded, Times, Tally;
    match s.collector
    case Receiving =>
    case LookLocal(job) =>
    case LookDaemon(job) =>
    case Collecting(job) =>
    case Replying(job, answer) =>
    case Dropping =>
  }

  lemma ActionProgress(s: State, a: Action, j: Job)
    requires Shape(s) && !s.panicked && Tally(s, j) == 1 && j < s.issued && Enabled(s, a) && !a.Panic?
    ensures !Apply(s, a).panicked
    ensures DispatcherLeft(Apply(s, a).dispatcher, j) <= Less(DispatcherLeft(s.dispatcher, j), a.Dispatch?)
    ensures CollectorLeft(Apply(s, a), j) <= Less(CollectorLeft(s, j), a.Collect?)
  {
    hide DispatcherStep, CollectorStep, Tally, Shape;
    match a
    case Dispatch(arrival) => DispatcherProgress(s, arrival, j);
    case Collect(reply) => CollectorProgress(s, reply, j);
    case RaiseStopping =>
    case RaiseDaemonStopping =>
  }

  function Dispatches(actions: seq<Action>): nat {
    if actions == [] then 0 else One(actions[0].Dispatch?) + Dispatches(actions[1..])
  }

  function Collects(actions: seq<Action>): nat {
    if actions == [] then 0 else One(actions[0].Collect?) + Collects(actions[1..])
  }

  predicate PanicFree(actions: seq<Action>) {
    forall i :: 0 <= i < |actions| ==> !actions[i].Panic?
  }

  /** The two threads do at least what the place of request j calls for. */
  predicate Enough(s: State, j: Job, actions: seq<Action>) {
    Dispatches(actions) >= DispatcherLeft(s.dispatcher, j) && Collects(actions) >= CollectorLeft(s, j)
  }

  lemma NothingLeft(s: State, j: Job)
    requires Shape(s) && !s.panicked && Tally(s, j) == 1
    requires DispatcherLeft(s.dispatcher, j) == 0 && CollectorLeft(s, j) == 0
    ensures Recorded(s.records, j) == 1
  {
    hide Shape, Tally, Recorded;
    FourPlaces(s, j);
  }

  lemma {:induction false} AnsweredFrom(s: State, j: Job, more: seq<Action>, t: State)
    requires Shape(s) && !s.panicked && Tally(s, j) == 1 && j < s.issued
    requires Leads(s, more, t) && PanicFree(more) && Enough(s, j, more)
    ensures Recorded(t.records, j) == 1
    decreases |more|
  {
    hide Shape, Tally, Apply, Enabled, CollectorLeft, DispatcherLeft, Recorded;
    if more == [] {
      NothingLeft(s, j);
    } else {
      ShapeKept(s, more[0]);
      TallyKept(s, more[0], j);
      ActionProgress(s, more[0], j);
      AnsweredFrom(Apply(s, more[0]), j, more[1..], t);
    }
  }

  /** Whatever else happens, shutdown or none: once each thread has done as many actions as the place of a
      request calls for, and no panic came between, the request has its one outcome, and the right one. */
  lemma Answered(actions: seq<Action>, s: State, j: Job, more: seq<Action>, t: State)
    requires Leads(INIT, actions, s) && !s.panicked && j < s.issued
    requires Leads(s, more, t) && PanicFree(more) && Enough(s, j, more)
    ensures Recorded(t.records, j) == 1 && RightlyRecorded(actions + more, t, j)
  {
    hide Leads, Tally, RightlyRecorded;
    Reached(actions, s);
    AnsweredFrom(s, j, more, t);
    LeadsOn(INIT, actions, s, more, t);
    RecordIsRight(actions + more, t, j);
  }

  /** A request without an outcome never waits: the thread it is with can act, or the collector if it is queued.
      Two actions of the dispatcher and eleven of the collector are always enough. */
  lemma NeverWaits(actions: seq<Action>, s: State, j: Job)
    requires Leads(INIT, actions, s) && !s.panicked && j < s.issued && Recorded(s.records, j) == 0
    ensures if DispatcherLeft(s.dispatcher, j) > 0 then forall arrival :: Enabled(s, Dispatch(arrival))
            else CollectorLeft(s, j) > 0 && forall reply :: Enabled(s, Collect(reply))
    ensures DispatcherLeft(s.dispatcher, j) <= 2 && CollectorLeft(s, j) <= 11
  {
    hide Leads, Tally, Recorded;
    Reached(actions, s);
    FourPlaces(s, j);
  }

  /* ---- shutdown ---- */

  /** Raising the daemon's flag ends a dispatcher at its check of that flag. */
  function DispatcherRank(d: Dispatcher, daemonStopping: bool): nat {
    match d
    case CheckDaemon => if daemonStopping then 1 else 23
    case Accepting => 22
    case Admitting(_) => 21
    case Sending(_) => 20
    case Releasing(_) => 4
    case Rejecting(_, _) => 3
    case CheckLocal => 2
    case Ended => 0
  }

  function CollectorRank(c: Collector): nat {
    match c
    case LookLocal(_) => 9
    case LookDaemon(_) => 8
    case Collecting(_) => 7
    case Replying(_, _) => 6
    case Dropping => 5
    case Unwinding => 4
    case Closing => 3
    case Receiving => 1
    case Finished => 0
  }

  function Rank(s: State): nat {
    DispatcherRank(s.dispatcher, s.daemonStopping) + 10 * |s.queue| + CollectorRank(s.collector)
  }

  /** Shutdown has begun: the local or the daemon's flag is up. */
  predicate ShuttingDown(s: State) {
    s.stopping || s.daemonStopping
  }

  predicate ThreadAction(a: Action) {
    a.Dispatch? || a.Collect? || a.Panic?
  }

  /** Once shutdown has begun, every thread action brings the end closer. */
  lemma RankFalls(s: State, a: Action)
    requires ShuttingDown(s) && Enabled(s, a)
    ensures ShuttingDown(Apply(s, a))
    ensures ThreadAction(a) ==> Rank(Apply(s, a)) < Rank(s)
    ensures !ThreadAction(a) ==> Rank(Apply(s, a)) <= Rank(s)
  {
    hide DispatcherStep, CollectorStep;
    match a
    case Dispatch(arrival) => DispatcherRankFalls(s, arrival);
    case Collect(reply) => CollectorRankFalls(s, reply);
    case _ =>
  }

  lemma DispatcherRankFalls(s: State, arrival: Arrival)
    requires ShuttingDown(s) && !s.dispatcher.Ended?
    ensures ShuttingDown(DispatcherStep(s, arrival)) && Rank(DispatcherStep(s, arrival)) < Rank(s)
  {
    hide OutcomeOf;
    match s.dispatcher
    case CheckLocal =>
    case CheckDaemon =>
    case Accepting => match arrival { case NoConnection => case FatalError => case Malformed => case Request => }
    case Admitting(job) =>
    case Sending(job) =>
    case Releasing(job) =>
    case Rejecting(job, failure) =>
    case Ended =>
  }

  lemma CollectorRankFalls(s: State, reply: Reply)
    requires Enabled(s, Collect(reply))
    ensures ShuttingDown(CollectorStep(s, reply)) == ShuttingDown(s) && Rank(CollectorStep(s, reply)) < Rank(s)
  {
    hide OutcomeOf;
    match s.collector
    case Receiving =>
    case LookLocal(job) =>
    case LookDaemon(job) =>
    case Collecting(job) =>
    case Replying(job, answer) =>
    case Dropping =>
    case Unwinding =>
    case Closing =>
    case Finished =>
  }

  function ThreadActions(actions: seq<Action>): nat {
    if actions == [] then 0 else One(ThreadAction(actions[0])) + ThreadActions(actions[1..])
  }

  /** By either flag, shutdown takes a bounded number of thread actions in every interleaving ... */
  lemma {:induction false} ShutdownBounded(s: State, actions: seq<Action>, t: State)
    requires ShuttingDown(s) && Leads(s, actions, t)
    ensures ThreadActions(actions) <= Rank(s)
    decreases |actions|
  {
    hide Rank, Apply, Enabled;
    if actions != [] {
      RankFalls(s, actions[0]);
      ShutdownBounded(Apply(s, actions[0]), actions[1..], t);
    }
  }

  /** ... and never gets stuck: until both threads have ended, one of them can act. */
  lemma NoDeadlock(s: State)
    ensures s.dispatcher.Ended? && s.collector.Finished? <==>
            forall a :: ThreadAction(a) ==> !Enabled(s, a)
  {
    if !s.dispatcher.Ended? {
      assert ThreadAction(Dispatch(NoConnection)) && Enabled(s, Dispatch(NoConnection));
    } else if !s.collector.Finished? {
      assert ThreadAction(Collect(Completed(true))) && Enabled(s, Collect(Completed(true)));
    }
  }

  /* ---- admission after a panic ---- */

  /** What a panic leaves of the flag: until the queue is closed `busy` stands for the one job being sent or
      queued, and then for a job being sent in vain, or for one lost with the queue. */
  ghost predicate Aftermath(s: State) {
    && (s.collector.Closing? ==> Holders(s) == One(s.busy) && !s.dispatcher.Releasing?)
    && (s.panicked && s.collector.Finished? ==>
          if |s.lost| == 2 then s.busy && !s.dispatcher.Sending? && !s.dispatcher.Releasing?
          else s.busy <==> s.dispatcher.Sending? || s.dispatcher.Releasing?)
  }

  /** A second request went into the queue behind the panic. */
  predicate Trapped(s: State) {
    |s.lost| == 2 || (s.collector.Closing? && s.queue != [])
  }

  /** However the threads go on, no further request is ever admitted. */
  ghost predicate ClosedForGood(s: State) {
    forall more, t :: Leads(s, more, t) ==> t.busy
  }

  lemma DispatcherAftermath(s: State, arrival: Arrival)
    requires Shape(s) && Aftermath(s)
    ensures Aftermath(DispatcherStep(s, arrival)) && (Trapped(s) ==> Trapped(DispatcherStep(s, arrival)))
  {
    hide OutcomeOf;
    match s.dispatcher
    case CheckLocal =>
    case CheckDaemon =>
    case Accepting => match arrival { case NoConnection => case FatalError => case Malformed => case Request => }
    case Admitting(job) =>
    case Sending(job) =>
    case Releasing(job) =>
    case Rejecting(job, failure) =>
    case Ended =>
  }

  lemma CollectorAftermath(s: State, reply: Reply)
    requires Shape(s) && Aftermath(s)
    ensures Aftermath(CollectorStep(s, reply)) && (Trapped(s) ==> Trapped(CollectorStep(s, reply)))
  {
    hide OutcomeOf;
    match s.collector
    case Receiving =>
    case LookLocal(job) =>
    case LookDaemon(job) =>
    case Collecting(job) =>
    case Replying(job, answer) =>
    case Dropping =>
    case Unwinding =>
    case Closing =>
    case Finished =>
  }

  lemma AftermathKept(s: State, a: Action)
    requires Shape(s) && Aftermath(s) && Enabled(s, a)
    ensures Aftermath(Apply(s, a)) && (Trapped(s) ==> Trapped(Apply(s, a)))
  {
    hide DispatcherStep, CollectorStep;
    match a
    case Dispatch(arrival) => DispatcherAftermath(s, arrival);
    case Collect(reply) => CollectorAftermath(s, reply);
    case _ =>
  }

  lemma {:induction false} AftermathReached(s: State, actions: seq<Action>, t: State)
    requires Shape(s) && Aftermath(s) && Leads(s, actions, t)
    ensures Shape(t) && Aftermath(t) && (Trapped(s) ==> Trapped(t))
    decreases |actions|
  {
    hide Shape, Aftermath, Trapped, Apply, Enabled;
    if actions != [] {
      ShapeKept(s, actions[0]);
      AftermathKept(s, actions[0]);
      AftermathReached(Apply(s, actions[0]), actions[1..], t);
    }
  }

  lemma TrappedBusy(s: State)
    requires Shape(s) && Aftermath(s) && Trapped(s)
    ensures s.busy
  {
  }

  /** The action that brings a taken admission closer to its release. */
  function Onwards(s: State): Action {
    if s.dispatcher.Releasing? || (s.dispatcher.Sending? && (!s.panicked || s.collector.Finished?))
    then Dispatch(NoConnection) else Collect(Completed(true))
  }

  lemma OnwardsHelps(s: State)
    requires Shape(s) && Aftermath(s) && !Trapped(s) && s.busy
    ensures Enabled(s, Onwards(s)) && !Trapped(Apply(s, Onwards(s))) && Rank(Apply(s, Onwards(s))) < Rank(s)
  {
    hide OutcomeOf, Rank;
    if Onwards(s).Dispatch? {
      SendingFalls(s);
    } else {
      CollectorRankFalls(s, Completed(true));
    }
  }

  lemma SendingFalls(s: State)
    requires s.dispatcher.Sending? || s.dispatcher.Releasing?
    ensures Rank(DispatcherStep(s, NoConnection)) < Rank(s)
  {
  }

  lemma Reopens(s: State) returns (more: seq<Action>, t: State)
    requires Shape(s) && Aftermath(s) && !Trapped(s)
    ensures Leads(s, more, t) && !t.busy
    decreases Rank(s)
  {
    if !s.busy {
      more, t := [], s;
    } else {
      hide Shape, Aftermath, Trapped, Apply, Enabled, Rank, Onwards;
      var a := Onwards(s);
      OnwardsHelps(s);
      ShapeKept(s, a);
      AftermathKept(s, a);
      more, t := Reopens(Apply(s, a));
      Step(s, a, more, t);
      more := [a] + more;
    }
  }

  /** In every reachable state admission is closed for good if and only if a second request is trapped behind a
      panic; once the collector has ended, that is, if and only if two requests are lost. */
  lemma AdmissionExact(actions: seq<Action>, s: State)
    requires Leads(INIT, actions, s)
    ensures ClosedForGood(s) <==> Trapped(s)
    ensures s.collector.Finished? ==> (ClosedForGood(s) <==> |s.lost| == 2)
  {
    AftermathReached(INIT, actions, s);
    if Trapped(s) {
      TrappedStays(s);
    } else {
      var more, t := Reopens(s);
    }
  }

  lemma TrappedStays(s: State)
    requires Shape(s) && Aftermath(s) && Trapped(s)
    ensures ClosedForGood(s)
  {
    hide Leads, Shape, Aftermath, Trapped;
    forall more, t | Leads(s, more, t) ensures t.busy {
      AftermathReached(s, more, t);
      TrappedBusy(t);
    }
  }

  /** What a panic can do: between the guard's release and the closing of the queue another request is admitted
      and queued. Both requests are lost, neither ever gets an outcome, and `busy` stays set for good. */
  lemma PanicWindow()
    ensures exists actions :: Leads(INIT, actions, LOSS)
    ensures |LOSS.lost| == 2 && LOSS.issued == 2 && !LOSS.stopping && !LOSS.daemonStopping
    ensures ClosedForGood(LOSS)
    ensures forall more, t :: Leads(LOSS, more, t) ==> Recorded(t.records, 0) == 0 && Recorded(t.records, 1) == 0
  {
    var actions := LossActions();
    LossReached();
    hide Leads;
    AdmissionExact(actions, LOSS);
    forall more, t | Leads(LOSS, more, t) ensures Recorded(t.records, 0) == 0 && Recorded(t.records, 1) == 0 {
      LostStay(LOSS, more, t);
      LossTally(more, t, 0);
      LossTally(more, t, 1);
    }
  }

  lemma {:induction false} LostStay(s: State, actions: seq<Action>, t: State)
    requires s.collector.Finished? && Leads(s, actions, t)
    ensures t.lost == s.lost
    decreases |actions|
  {
    hide Apply, Enabled;
    if actions != [] {
      LostKept(s, actions[0]);
      LostStay(Apply(s, actions[0]), actions[1..], t);
    }
  }

  lemma LostKept(s: State, a: Action)
    requires s.collector.Finished? && Enabled(s, a)
    ensures Apply(s, a).collector.Finished? && Apply(s, a).lost == s.lost
  {
    hide DispatcherStep;
    if a.Dispatch? { DispatcherKeeps(s, a.arrival); }
  }

  /** The dispatcher touches neither the collector nor what is lost. */
  lemma DispatcherKeeps(s: State, arrival: Arrival)
    ensures DispatcherStep(s, arrival).collector == s.collector && DispatcherStep(s, arrival).lost == s.lost
  {
    hide OutcomeOf;
    match s.dispatcher
    case CheckLocal =>
    case CheckDaemon =>
    case Accepting => match arrival { case NoConnection => case FatalError => case Malformed => case Request => }
    case Admitting(job) =>
    case Sending(job) =>
    case Releasing(job) =>
    case Rejecting(job, failure) =>
    case Ended =>
  }

  lemma LossTally(more: seq<Action>, t: State, j: Job)
    requires Leads(LOSS, more, t) && t.lost == [0, 1] && j < 2
    ensures Recorded(t.records, j) == 0
  {
    assert LOSS.records == [] && LOSS.queue == [];
    TwoTimes(j);
    assert Tally(LOSS, j) == 1;
    TallyReached(LOSS, more, t, j);
  }

  lemma TwoTimes(j: Job)
    requires j < 2
    ensures Times([0, 1], j) == 1
  {
    assert [0 as Job, 1] == [0 as Job] + [1 as Job];
    TimesSnoc([0], 1, j);
    TimesSnoc([], 0, j);
    assert [] + [0 as Job] == [0];
  }

  function LossActions(): seq<Action> {
    var d, r, c := Dispatch(NoConnection), Dispatch(Request), Collect(Completed(true));
    [d] + ([d] + ([r] + ([d] + ([d] + ([c] + ([c] + ([c] + ([Panic] + ([c] + [d, d, r, d, d, c])))))))))
  }

  lemma LossReached()
    ensures Leads(INIT, LossActions(), LOSS)
  {
    var d, r, c := Dispatch(NoConnection), Dispatch(Request), Collect(Completed(true));
    var rest := [d, d, r, d, d, c];
    WindowAfterUnwinding(d, r, c);
    hide Leads;
    WindowBeforeUnwinding(c, rest, LOSS);
    FirstRequest(d, r, [c] + ([c] + ([c] + ([Panic] + ([c] + rest)))), LOSS);
  }

  /** From the start, one request admitted and queued. */
  lemma FirstRequest(d: Action, r: Action, rest: seq<Action>, end: State)
    requires d == Dispatch(NoConnection) && r == Dispatch(Request)
    requires Leads(INIT.(busy := true, issued := 1, queue := [0]), rest, end)
    ensures Leads(INIT, [d] + ([d] + ([r] + ([d] + ([d] + rest)))), end)
  {
    hide Leads;
    assert [] + [0 as Job] == [0];
    Step(INIT.(busy := true, issued := 1, dispatcher := Sending(0)), d, rest, end);
    Step(INIT.(dispatcher := Admitting(0), issued := 1), d, [d] + rest, end);
    UntilAdmitting(INIT, d, r, [d] + ([d] + rest), end);
  }

  /** An idle dispatcher takes the next request. */
  lemma UntilAdmitting(s: State, d: Action, r: Action, rest: seq<Action>, end: State)
    requires d == Dispatch(NoConnection) && r == Dispatch(Request)
    requires s.dispatcher == INIT.dispatcher && !s.stopping && !s.daemonStopping
    requires Leads(s.(dispatcher := Admitting(s.issued), issued := s.issued + 1), rest, end)
    ensures Leads(s, [d] + ([d] + ([r] + rest)), end)
  {
    hide Leads;
    Step(s.(dispatcher := Accepting), r, rest, end);
    Step(s.(dispatcher := CheckDaemon), d, [r] + rest, end);
    Step(s, d, [d] + ([r] + rest), end);
  }

  lemma WindowBeforeUnwinding(c: Action, rest: seq<Action>, end: State)
    requires c == Collect(Completed(true)) && Leads(WINDOW, rest, end)
    ensures Leads(INIT.(busy := true, issued := 1, queue := [0]),
                  [c] + ([c] + ([c] + ([Panic] + ([c] + rest)))), end)
  {
    hide Leads;
    var s := INIT.(busy := true, issued := 1);
    Step(s.(collector := Unwinding, lost := [0], panicked := true), c, rest, end);
    assert [] + [0 as Job] == [0];
    Step(s.(collector := Collecting(0)), Panic, [c] + rest, end);
    Step(s.(collector := LookDaemon(0)), c, [Panic] + ([c] + rest), end);
    Step(s.(collector := LookLocal(0)), c, [c] + ([Panic] + ([c] + rest)), end);
    assert [0 as Job][1..] == [];
    Step(s.(queue := [0]), c, [c] + ([c] + ([Panic] + ([c] + rest))), end);
  }

  /** Two requests gone, none with an outcome, and the admission taken for good. */
  const LOSS: State := WINDOW.(busy := true, queueOpen := false, collector := Finished, issued := 2, lost := [0, 1])

  /** The guard is released, the queue not yet closed. */
  const WINDOW: State := INIT.(collector := Closing, issued := 1, lost := [0], panicked := true)

  lemma WindowAfterUnwinding(d: Action, r: Action, c: Action)
    requires d == Dispatch(NoConnection) && r == Dispatch(Request) && c == Collect(Completed(true))
    ensures Leads(WINDOW, [d, d, r, d, d, c], LOSS)
  {
    var end := LOSS;
    assert Leads(end, [], end);
    hide Leads;
    Step(WINDOW.(busy := true, issued := 2, queue := [1]), c, [], end);
    Step(WINDOW.(busy := true, issued := 2, dispatcher := Sending(1)), d, [c], end);
    Step(WINDOW.(issued := 2, dispatcher := Admitting(1)), d, [d] + [c], end);
    UntilAdmitting(WINDOW, d, r, [d] + ([d] + [c]), end);
    assert [d] + ([d] + ([r] + ([d] + ([d] + [c])))) == [d, d, r, d, d, c];
  }

  lemma Step(s: State, a: Action, rest: seq<Action>, t: State)
    requires Enabled(s, a) && Leads(Apply(s, a), rest, t)
    ensures Leads(s, [a] + rest, t)
  {
    assert ([a] + rest)[1..] == rest;
  }
}
