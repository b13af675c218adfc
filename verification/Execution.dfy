/**
 Executing a sealed trace: a schedule is materialized on the arena, both sides
 are delivered to fresh states, one per stream, and the summaries compared.
 */
module Execution {
  import opened Prelude
  import opened Cache
  import opened StreamSpec
  import opened Ledger
  import opened StreamStates
  import opened Arena
  import opened DeliveryArenas
  import opened Planner
  import opened Trace
  import opened Normalizer
  import opened Assembler
  import opened Verdict

  datatype ExecutionMode = Pristine | Faulted

  datatype ScenarioError =
    | ScheduleIndexOutOfRange(count: nat, actual: nat)
    | MaterializationFailed
    | ExecutionInvariant
    | ExecutionState(mode: ExecutionMode, stream: nat, cause: AdmitError)

  datatype MaterializedSchedule = MaterializedSchedule(
    scheduleId: string, streamPrefix: nat, sourcePrefix: nat, allocatedOccurrences: nat, deliveries: seq<ScheduledDelivery>)

  // ------------------------------------------------------- materialization

  /** Carries out one planned action on the arena. */
  method Carry(arena: DeliveryArena, action: PlannedAction) returns (r: Result<(), ArenaError>)
    requires arena.Valid()
    modifies arena
    ensures arena.Valid()
    ensures match Perform(Listing(old(arena.Keys()), old(arena.Allocated())), action)
            case None => r.Err?
            case Some(l) => r.Ok? && Listing(arena.Keys(), arena.Allocated()) == l
  {
    match action {
      case Drop(target) => r := arena.DropDelivery(target);
      case Duplicate(target, first, copies) => r := arena.Duplicate(target, first, copies);
      case MoveBefore(target, anchor) => r := arena.MoveBefore(target, anchor);
    }
  }

  /** The number of occurrences a schedule allocates. */
  method CountAllocated(plan: SchedulePlan) returns (total: nat)
    ensures total == plan.prefixLen + Copies(plan.actions)
  {
    total := plan.prefixLen;
    assert plan.actions[0..] == plan.actions;
    for i := 0 to |plan.actions|
      invariant total + Copies(plan.actions[i..]) == plan.prefixLen + Copies(plan.actions)
    {
      assert plan.actions[i..][1..] == plan.actions[i + 1..];
      if plan.actions[i].Duplicate? {
        total := total + plan.actions[i].copies;
      }
    }
  }

  /** The prefixes a plan was made for still cover it. */
  predicate PrefixesHold(plan: SchedulePlan, sources: seq<Envelope>, sourceStreams: seq<nat>, streamCount: nat) {
    && plan.prefixLen <= |sources| == |sourceStreams|
    && plan.streamPrefixLen <= streamCount
    && (forall j :: 0 <= j < plan.prefixLen ==> sourceStreams[j] < plan.streamPrefixLen)
  }

  /** The keys a plan leaves to deliver, in order, as plain sequence operations. */
  function FaultedOrder(plan: SchedulePlan): seq<DeliveryKey> {
    match PerformAll(StartListing(plan.prefixLen), plan.actions)
    case None => []
    case Some(listing) => listing.order
  }

  /** Exactly when materialization succeeds. */
  predicate Materializable(plan: SchedulePlan, sources: seq<Envelope>, sourceStreams: seq<nat>, streamCount: nat, limits: TraceLimits) {
    && PrefixesHold(plan, sources, sourceStreams, streamCount)
    && plan.prefixLen + Copies(plan.actions) <= limits.maxOccurrences
    && PerformAll(StartListing(plan.prefixLen), plan.actions).Some?
    && InPrefix(FaultedOrder(plan), plan.prefixLen)
  }

  /** Replays a plan on the linked list and reads the deliveries off it. */
  method MaterializeSchedule(plan: SchedulePlan, sources: seq<Envelope>, sourceStreams: seq<nat>, streamCount: nat, limits: TraceLimits)
      returns (r: Result<MaterializedSchedule, ScenarioError>)
    ensures r.Ok? <==> Materializable(plan, sources, sourceStreams, streamCount, limits)
    ensures r.Ok? ==>
      r.value == MaterializedSchedule(plan.id, plan.streamPrefixLen, plan.prefixLen, plan.prefixLen + Copies(plan.actions),
                                      Scheduled(FaultedOrder(plan), sources, sourceStreams))
    ensures r.Err? ==> r.error == MaterializationFailed
  {
    if !PrefixesHold(plan, sources, sourceStreams, streamCount) {
      return Err(MaterializationFailed);
    }
    var total := CountAllocated(plan);
    if total > limits.maxOccurrences {
      return Err(MaterializationFailed);
    }
    var arena := new DeliveryArena(plan.prefixLen);
    ghost var replay := PerformAll(StartListing(plan.prefixLen), plan.actions);
    assert plan.actions[0..] == plan.actions;
    for i := 0 to |plan.actions|
      invariant arena.Valid() && fresh(arena)
      invariant replay == PerformAll(Listing(arena.Keys(), arena.Allocated()), plan.actions[i..])
    {
      assert plan.actions[i..][1..] == plan.actions[i + 1..];
      var step := Carry(arena, plan.actions[i]);
      if step.Err? {
        return Err(MaterializationFailed);
      }
    }
    var deliveries := arena.Materialize(sources, sourceStreams, plan.prefixLen);
    if deliveries.Err? {
      return Err(MaterializationFailed);
    }
    return Ok(MaterializedSchedule(plan.id, plan.streamPrefixLen, plan.prefixLen, total, deliveries.value));
  }

  // ------------------------------------------------------------- the fleet

  /** A running state that stands for the value `m`. */
  ghost predicate Stands(st: StreamState, m: State, session: SessionMarker, limits: Limits)
    reads st, st.view
  {
    st.Valid() && st.Model() == m && st.session == session && st.limits == limits
  }

  /** No two states share anything. */
  ghost predicate Apart(states: seq<StreamState>) {
    forall i, k {:trigger StreamAt(i), StreamAt(k)} :: StreamAt(i) && StreamAt(k) && 0 <= i < k < |states| ==>
      states[i] != states[k] && states[i].view != states[k].view
  }

  function Views(states: seq<StreamState>): set<CacheView> {
    set st | st in states :: st.view
  }

  /** One separate running state per stream. */
  ghost predicate Fleet(states: seq<StreamState>, models: seq<State>, session: SessionMarker, limits: Limits)
    reads states, Views(states)
  {
    && |models| == |states|
    && Apart(states)
    && (forall i {:trigger StreamAt(i)} :: StreamAt(i) && 0 <= i < |states| ==> Stands(states[i], models[i], session, limits))
  }

  /** Delivers one envelope to one state of the fleet. */
  method DeliverTo(states: seq<StreamState>, ghost models: seq<State>, ghost after: seq<State>, session: SessionMarker,
        limits: Limits, stream: nat, source: Envelope)
      returns (r: Result<Disposition, AdmitError>)
    requires Fleet(states, models, session, limits) && stream < |states| && session.status == Sealed
    requires Advances(models, after, stream, source, limits)
    modifies states[stream], states[stream].view
    ensures Fleet(states, after, session, limits)
    ensures r == StreamSpec.Admit(models[stream], Sealed, source, limits).1
    ensures !models[stream].failed ==> (r.Err? <==> after[stream].failed)
  {
    assert StreamAt(stream);
    r := states[stream].Admit(source);
    if !models[stream].failed {
      ErrorMeansFailed(models[stream], source, limits);
    }
    forall i {:trigger StreamAt(i)} | StreamAt(i) && 0 <= i < |states| && i != stream
      ensures Stands(states[i], models[i], session, limits)
    {
    }
  }

  // ------------------------------------------------------------- the lanes

  datatype Delivery = Delivery(stream: nat, source: Envelope)

  /** The state in which a stream of the trace begins. */
  function StartOf(trace: SealedTrace, i: nat): State
    requires i < |trace.streams|
  {
    var r := trace.streams[i].registration;
    Start(trace.session.id, r.declaration.streamId, r.declaration.scope, r.declaration.initialCursor, r.authority == TrustDeclaredEmpty)
  }

  /** What one stream receives out of a mixed delivery order. */
  function Lane(ds: seq<Delivery>, i: nat): seq<Envelope>
    decreases |ds|
  {
    if ds == [] then [] else
      Lane(ds[..|ds| - 1], i) + (if ds[|ds| - 1].stream == i then [ds[|ds| - 1].source] else [])
  }

  ghost function LaneRun(trace: SealedTrace, ds: seq<Delivery>, i: nat): State
    requires i < |trace.streams|
  {
    Run(StartOf(trace, i), Lane(ds, i), trace.limits.state)
  }

  /** The states of the first `n` streams after the deliveries. */
  ghost function Ended(trace: SealedTrace, ds: seq<Delivery>, n: nat): (models: seq<State>)
    requires n <= |trace.streams|
    ensures |models| == n && forall i :: 0 <= i < n ==> models[i] == LaneRun(trace, ds, i)
  {
    seq(n, i requires 0 <= i < n => LaneRun(trace, ds, i))
  }

  ghost predicate NoneFailed(trace: SealedTrace, ds: seq<Delivery>, n: nat)
    requires n <= |trace.streams|
  {
    forall i: nat :: i < n ==> !LaneRun(trace, ds, i).failed
  }

  /** Every delivery is routed to its own stream, among the first `n`. */
  ghost predicate Deliverable(trace: SealedTrace, ds: seq<Delivery>, n: nat) {
    && n <= |trace.streams|
    && (forall k :: 0 <= k < |ds| ==> ds[k].stream < n && Belongs(StartOf(trace, ds[k].stream), ds[k].source))
  }

  lemma {:induction false} LaneSplit(ds: seq<Delivery>, k: nat, i: nat)
    requires k <= |ds|
    ensures Lane(ds, i) == Lane(ds[..k], i) + Lane(ds[k..], i)
    decreases |ds|
  {
    if k == |ds| {
      assert ds[..k] == ds && ds[k..] == [];
    } else {
      var front := ds[..|ds| - 1];
      LaneSplit(front, k, i);
      assert front[..k] == ds[..k] && ds[k..][..|ds[k..]| - 1] == front[k..];
    }
  }

  /** One model has admitted the envelope; the others are as they were. */
  ghost predicate Advances(before: seq<State>, after: seq<State>, stream: nat, source: Envelope, limits: Limits)
    requires stream < |before|
  {
    after == before[stream := StreamSpec.Admit(before[stream], Sealed, source, limits).0]
  }

  /** One delivery moves one lane by one admission. */
  lemma EndedStep(trace: SealedTrace, ds: seq<Delivery>, k: nat, n: nat, before: seq<State>, after: seq<State>)
    requires k < |ds| && ds[k].stream < n <= |trace.streams|
    requires before == Ended(trace, ds[..k], n) && after == Ended(trace, ds[..k + 1], n)
    ensures Advances(before, after, ds[k].stream, ds[k].source, trace.limits.state)
    ensures NoneFailed(trace, ds[..k], n) && !after[ds[k].stream].failed ==> NoneFailed(trace, ds[..k + 1], n)
  {
    var now := ds[..k + 1];
    assert now[..|now| - 1] == ds[..k];
    forall i | 0 <= i < n ensures LaneRun(trace, now, i) ==
      if i == ds[k].stream then StreamSpec.Admit(LaneRun(trace, ds[..k], i), Sealed, ds[k].source, trace.limits.state).0
      else LaneRun(trace, ds[..k], i)
    {
      if i == ds[k].stream {
        RunAppend(StartOf(trace, i), Lane(ds[..k], i), [ds[k].source], trace.limits.state);
      } else {
        assert Lane(now, i) == Lane(ds[..k], i);
      }
    }
  }

  /** A lane that failed early is still failed at the end. */
  lemma FailureRemains(trace: SealedTrace, ds: seq<Delivery>, k: nat, i: nat)
    requires k <= |ds| && i < |trace.streams| && LaneRun(trace, ds[..k], i).failed
    ensures LaneRun(trace, ds, i).failed
  {
    LaneSplit(ds, k, i);
    RunAppend(StartOf(trace, i), Lane(ds[..k], i), Lane(ds[k..], i), trace.limits.state);
    FailureIsFinal(LaneRun(trace, ds[..k], i), Lane(ds[k..], i), trace.limits.state);
  }

  /** A routed delivery that a healthy lane refuses was refused by a cache limit or counter. */
  lemma RefusalIsCache(trace: SealedTrace, ds: seq<Delivery>, k: nat, n: nat)
    requires k < |ds| && Deliverable(trace, ds, n)
    requires var m := LaneRun(trace, ds[..k], ds[k].stream);
             !m.failed && StreamSpec.Admit(m, Sealed, ds[k].source, trace.limits.state).1.Err?
    ensures var m := LaneRun(trace, ds[..k], ds[k].stream);
            StreamSpec.Admit(m, Sealed, ds[k].source, trace.limits.state).1.error.CacheFailure?
    ensures LaneRun(trace, ds, ds[k].stream).failed
  {
    var i := ds[k].stream;
    var l := trace.limits.state;
    var r := trace.streams[i].registration;
    StartInv(trace.session.id, r.declaration.streamId, r.declaration.scope, r.declaration.initialCursor, r.authority == TrustDeclaredEmpty, l);
    RunKeepsInv(StartOf(trace, i), Lane(ds[..k], i), l);
    RunKeepsIdentity(StartOf(trace, i), Lane(ds[..k], i), l);
    OnlyCacheFails(LaneRun(trace, ds[..k], i), ds[k].source, l);
    EndedStep(trace, ds, k, n, Ended(trace, ds[..k], n), Ended(trace, ds[..k + 1], n));
    assert Ended(trace, ds[..k + 1], n)[i].failed;
    FailureRemains(trace, ds, k + 1, i);
  }

  // -------------------------------------------------------------- execution

  datatype ScenarioExecution = ScenarioExecution(
    mode: ExecutionMode, scheduleId: string, streamPrefix: nat, sourcePrefix: nat, deliveryCount: nat, streams: seq<Summary>)

  /** A fresh state for one blueprint of a session that reached its end. */
  method StartState(blueprint: StreamBlueprint, sealed: SessionMarker) returns (r: Result<StreamState, AdmitError>)
    ensures blueprint.session != sealed ==> r == Err(SessionMismatch)
    ensures blueprint.session == sealed && sealed.status != Sealed ==> r == Err(AdmitError.NormalizerFailed)
    ensures blueprint.session == sealed && sealed.status == Sealed ==>
      var d := blueprint.registration.declaration;
      && r.Ok? && fresh(r.value) && fresh(r.value.view)
      && Stands(r.value, Start(sealed.id, d.streamId, d.scope, d.initialCursor, blueprint.registration.authority == TrustDeclaredEmpty),
                sealed, blueprint.limits.state)
  {
    if blueprint.session != sealed {
      return Err(SessionMismatch);
    }
    if sealed.status != Sealed {
      return Err(AdmitError.NormalizerFailed);
    }
    var d := blueprint.registration.declaration;
    var st := new StreamState(sealed, blueprint.limits.state, d.streamId, d.scope, d.initialCursor,
                              blueprint.registration.authority == TrustDeclaredEmpty);
    return Ok(st);
  }

  lemma EndedGrows(trace: SealedTrace, n: nat)
    requires n < |trace.streams|
    ensures Ended(trace, [], n + 1) == Ended(trace, [], n) + [StartOf(trace, n)]
  {
  }

  /** A fresh state for one stream of a sealed trace. */
  method StartStream(trace: SealedTrace, mode: ExecutionMode, i: nat) returns (r: Result<StreamState, ScenarioError>)
    requires trace.Bound() && trace.session.status == Sealed && i < |trace.streams|
    ensures r.Ok? && fresh(r.value) && fresh(r.value.view)
    ensures Stands(r.value, StartOf(trace, i), trace.session, trace.limits.state)
  {
    assert StreamAt(i);
    var started := StartState(trace.streams[i], trace.session);
    match started {
      case Err(cause) => return Err(ExecutionState(mode, i, cause));
      case Ok(st) => return Ok(st);
    }
  }

  lemma FleetGrows(states: seq<StreamState>, models: seq<State>, st: StreamState, m: State, session: SessionMarker, limits: Limits)
    requires Fleet(states, models, session, limits) && Stands(st, m, session, limits)
    requires st !in states && st.view !in Views(states)
    ensures Fleet(states + [st], models + [m], session, limits)
    ensures Views(states + [st]) == Views(states) + {st.view}
  {
    assert forall other :: other in states + [st] <==> other in states || other == st;
  }

  /** Fresh states for the first streams of the trace. */
  method StartAll(trace: SealedTrace, mode: ExecutionMode, n: nat) returns (r: Result<seq<StreamState>, ScenarioError>)
    requires trace.Bound() && trace.session.status == Sealed && n <= |trace.streams|
    ensures r.Ok? && |r.value| == n
    ensures Fleet(r.value, Ended(trace, [], n), trace.session, trace.limits.state)
    ensures fresh(r.value) && fresh(Views(r.value))
  {
    var states: seq<StreamState> := [];
    for i: nat := 0 to n
      invariant |states| == i
      invariant Fleet(states, Ended(trace, [], i), trace.session, trace.limits.state)
      invariant fresh(states) && fresh(Views(states))
    {
      var started := StartStream(trace, mode, i);
      match started {
        case Err(error) => return Err(error);
        case Ok(st) =>
          FleetGrows(states, Ended(trace, [], i), st, StartOf(trace, i), trace.session, trace.limits.state);
          EndedGrows(trace, i);
          states := states + [st];
      }
    }
    return Ok(states);
  }

  /** Admits delivery `k` to its own state. */
  method DeliverNext(trace: SealedTrace, mode: ExecutionMode, states: seq<StreamState>, ds: seq<Delivery>, k: nat)
      returns (r: Result<(), ScenarioError>)
    requires trace.session.status == Sealed && |states| <= |trace.streams| && k < |ds|
    requires NoneFailed(trace, ds[..k], |states|)
    requires Fleet(states, Ended(trace, ds[..k], |states|), trace.session, trace.limits.state)
    modifies states, Views(states)
    ensures r.Ok? ==> NoneFailed(trace, ds[..k + 1], |states|)
    ensures r.Ok? ==> Fleet(states, Ended(trace, ds[..k + 1], |states|), trace.session, trace.limits.state)
    ensures r.Err? && Deliverable(trace, ds, |states|) ==> CacheFailed(trace, mode, ds, |states|, r.error)
  {
    var stream := ds[k].stream;
    if stream >= |states| {
      return Err(ExecutionInvariant);
    }
    ghost var before, after := Ended(trace, ds[..k], |states|), Ended(trace, ds[..k + 1], |states|);
    EndedStep(trace, ds, k, |states|, before, after);
    var admitted := DeliverTo(states, before, after, trace.session, trace.limits.state, stream, ds[k].source);
    if admitted.Err? {
      if Deliverable(trace, ds, |states|) {
        RefusalIsCache(trace, ds, k, |states|);
      }
      return Err(ExecutionState(mode, stream, admitted.error));
    }
    return Ok(());
  }

  /** Admits every delivery to its own state, in order, until one is refused. */
  method DeliverAll(trace: SealedTrace, mode: ExecutionMode, states: seq<StreamState>, ds: seq<Delivery>)
      returns (r: Result<(), ScenarioError>)
    requires trace.session.status == Sealed && |states| <= |trace.streams|
    requires Fleet(states, Ended(trace, [], |states|), trace.session, trace.limits.state)
    modifies states, Views(states)
    ensures r.Ok? ==> NoneFailed(trace, ds, |states|)
    ensures r.Ok? ==> Fleet(states, Ended(trace, ds, |states|), trace.session, trace.limits.state)
    ensures r.Err? && Deliverable(trace, ds, |states|) ==> CacheFailed(trace, mode, ds, |states|, r.error)
  {
    for k: nat := 0 to |ds|
      invariant NoneFailed(trace, ds[..k], |states|)
      invariant Fleet(states, Ended(trace, ds[..k], |states|), trace.session, trace.limits.state)
    {
      r := DeliverNext(trace, mode, states, ds, k);
      if r.Err? {
        return;
      }
    }
    assert ds[..|ds|] == ds;
    return Ok(());
  }

  /** The only way an execution of routed deliveries fails: a cache limit or counter was exceeded. */
  ghost predicate CacheFailed(trace: SealedTrace, mode: ExecutionMode, ds: seq<Delivery>, n: nat, error: ScenarioError)
    requires n <= |trace.streams|
  {
    && error.ExecutionState? && error.mode == mode && error.cause.CacheFailure?
    && error.stream < n && LaneRun(trace, ds, error.stream).failed
  }

  /** Finalizes every state of the fleet. */
  method FinishAll(trace: SealedTrace, mode: ExecutionMode, states: seq<StreamState>, ghost ds: seq<Delivery>)
      returns (r: Result<seq<Summary>, ScenarioError>)
    requires trace.session.status == Sealed && |states| <= |trace.streams| && NoneFailed(trace, ds, |states|)
    requires Fleet(states, Ended(trace, ds, |states|), trace.session, trace.limits.state)
    modifies states
    ensures r.Ok? && |r.value| == |states|
    ensures forall i :: 0 <= i < |states| ==> r.value[i] == SummaryOf(LaneRun(trace, ds, i), trace.limits.state)
  {
    var summaries: seq<Summary> := [];
    ghost var models := Ended(trace, ds, |states|);
    for i: nat := 0 to |states|
      invariant |summaries| == i && Apart(states)
      invariant forall k {:trigger StreamAt(k)} :: StreamAt(k) && i <= k < |states| ==>
        Stands(states[k], models[k], trace.session, trace.limits.state)
      invariant forall k :: 0 <= k < i ==> summaries[k] == SummaryOf(LaneRun(trace, ds, k), trace.limits.state)
    {
      assert StreamAt(i);
      var summary := states[i].Finish(trace.session);
      match summary {
        case Err(cause) => return Err(ExecutionState(mode, i, cause));
        case Ok(value) => summaries := summaries + [value];
      }
    }
    return Ok(summaries);
  }

  /** Starts, delivers and finalizes one side of a schedule. */
  method Execute(trace: SealedTrace, mode: ExecutionMode, scheduleId: string, streamPrefix: nat, sourcePrefix: nat, ds: seq<Delivery>)
      returns (r: Result<ScenarioExecution, ScenarioError>)
    requires trace.Bound() && trace.session.status == Sealed
    ensures r.Ok? ==> streamPrefix <= |trace.streams| && sourcePrefix <= |trace.sources| && NoneFailed(trace, ds, streamPrefix)
    ensures r.Ok? ==>
      && r.value == ScenarioExecution(mode, scheduleId, streamPrefix, sourcePrefix, |ds|, r.value.streams)
      && |r.value.streams| == streamPrefix
      && (forall i :: 0 <= i < streamPrefix ==> r.value.streams[i] == SummaryOf(LaneRun(trace, ds, i), trace.limits.state))
    ensures r.Err? && Deliverable(trace, ds, streamPrefix) && sourcePrefix <= |trace.sources| ==>
      CacheFailed(trace, mode, ds, streamPrefix, r.error)
  {
    if streamPrefix > |trace.streams| || sourcePrefix > |trace.sources| {
      return Err(ExecutionInvariant);
    }
    var states := StartAll(trace, mode, streamPrefix);
    match states {
      case Err(error) => return Err(error);
      case Ok(fleet) =>
        var delivered := DeliverAll(trace, mode, fleet, ds);
        if delivered.Err? {
          return Err(delivered.error);
        }
        var summaries := FinishAll(trace, mode, fleet, ds);
        match summaries {
          case Err(error) => return Err(error);
          case Ok(streams) => return Ok(ScenarioExecution(mode, scheduleId, streamPrefix, sourcePrefix, |ds|, streams));
        }
    }
  }

  // ------------------------------------------------------------- comparison

  datatype ScheduleComparison = ScheduleComparison(
    pristine: ScenarioExecution, faulted: ScenarioExecution, streams: seq<StreamComparison>)

  /** The prefix of the sources, each once, in physical order. */
  function PristineDeliveries(trace: SealedTrace, plan: SchedulePlan): (ds: seq<Delivery>)
    requires plan.prefixLen <= |trace.sources| == |trace.sourceStreams|
    ensures |ds| == plan.prefixLen
    ensures forall j :: 0 <= j < plan.prefixLen ==> ds[j] == Delivery(trace.sourceStreams[j], trace.sources[j])
  {
    seq(plan.prefixLen, j requires 0 <= j < plan.prefixLen => Delivery(trace.sourceStreams[j], trace.sources[j]))
  }

  /** What the schedule leaves of it, with its copies and in its order. */
  function FaultedDeliveries(trace: SealedTrace, plan: SchedulePlan): (ds: seq<Delivery>)
    requires InPrefix(FaultedOrder(plan), plan.prefixLen) && plan.prefixLen <= |trace.sources| == |trace.sourceStreams|
    ensures |ds| == |FaultedOrder(plan)|
    ensures forall j :: 0 <= j < |ds| ==>
      ds[j] == Delivery(trace.sourceStreams[FaultedOrder(plan)[j].source], trace.sources[FaultedOrder(plan)[j].source])
  {
    seq(|FaultedOrder(plan)|, j requires 0 <= j < |FaultedOrder(plan)| =>
      Delivery(trace.sourceStreams[FaultedOrder(plan)[j].source], trace.sources[FaultedOrder(plan)[j].source]))
  }

  /** A schedule of a sealed trace always materializes. */
  lemma ScheduleMaterializes(trace: SealedTrace, plan: SchedulePlan)
    requires trace.Bound() && trace.Runnable(plan)
    ensures Materializable(plan, trace.sources, trace.sourceStreams, |trace.streams|, trace.limits.trace)
    ensures |FaultedOrder(plan)| == plan.prefixLen + Copies(plan.actions) - Drops(plan.actions)
  {
    DeliveryCount(plan.prefixLen, plan.actions);
    forall j | 0 <= j < plan.prefixLen ensures trace.sourceStreams[j] < plan.streamPrefixLen {
      assert SourceAt(j);
    }
  }

  /** Both delivery orders reach only the streams of the prefix, and each stream only its own envelopes. */
  lemma DeliveriesAreRouted(trace: SealedTrace, plan: SchedulePlan)
    requires trace.Bound() && trace.Runnable(plan) && InPrefix(FaultedOrder(plan), plan.prefixLen)
    ensures Deliverable(trace, PristineDeliveries(trace, plan), plan.streamPrefixLen)
    ensures Deliverable(trace, FaultedDeliveries(trace, plan), plan.streamPrefixLen)
  {
    forall j | 0 <= j < plan.prefixLen
      ensures trace.sourceStreams[j] < plan.streamPrefixLen && Belongs(StartOf(trace, trace.sourceStreams[j]), trace.sources[j])
    {
      assert SourceAt(j) && trace.SourceBound(j);
    }
  }

  /** What the comparison of one stream must be. */
  ghost function Compared(trace: SealedTrace, plan: SchedulePlan, i: nat): StreamComparison
    requires InPrefix(FaultedOrder(plan), plan.prefixLen) && plan.prefixLen <= |trace.sources| == |trace.sourceStreams|
    requires i < |trace.streams|
    requires !LaneRun(trace, PristineDeliveries(trace, plan), i).failed && !LaneRun(trace, FaultedDeliveries(trace, plan), i).failed
  {
    CompareStreams(SummaryOf(LaneRun(trace, PristineDeliveries(trace, plan), i), trace.limits.state),
                   SummaryOf(LaneRun(trace, FaultedDeliveries(trace, plan), i), trace.limits.state))
  }

  /** The record of one side: its mode and schedule, its prefixes, how much it delivered, and how each of its streams ended. */
  ghost predicate SideOf(trace: SealedTrace, plan: SchedulePlan, mode: ExecutionMode, ds: seq<Delivery>, side: ScenarioExecution) {
    && side.mode == mode && side.scheduleId == plan.id
    && side.streamPrefix == plan.streamPrefixLen && side.sourcePrefix == plan.prefixLen
    && side.deliveryCount == |ds| && |side.streams| == plan.streamPrefixLen <= |trace.streams|
    && NoneFailed(trace, ds, plan.streamPrefixLen)
    && (forall i :: 0 <= i < plan.streamPrefixLen ==> side.streams[i] == SummaryOf(LaneRun(trace, ds, i), trace.limits.state))
  }

  /** Neither side of a schedule was refused anything. */
  ghost predicate BothComplete(trace: SealedTrace, plan: SchedulePlan)
    requires trace.Bound() && trace.Runnable(plan)
  {
    && InPrefix(FaultedOrder(plan), plan.prefixLen)
    && NoneFailed(trace, PristineDeliveries(trace, plan), plan.streamPrefixLen)
    && NoneFailed(trace, FaultedDeliveries(trace, plan), plan.streamPrefixLen)
  }

  /** Some side of a schedule exceeded a cache limit or counter. */
  ghost predicate SomeSideExceeded(trace: SealedTrace, plan: SchedulePlan, error: ScenarioError)
    requires trace.Bound() && trace.Runnable(plan)
  {
    && InPrefix(FaultedOrder(plan), plan.prefixLen)
    && (CacheFailed(trace, Pristine, PristineDeliveries(trace, plan), plan.streamPrefixLen, error)
        || CacheFailed(trace, Faulted, FaultedDeliveries(trace, plan), plan.streamPrefixLen, error))
  }

  /**
   Compares the two executions of one schedule. On a sealed trace it can fail
   only because a side exceeded a cache limit or counter; otherwise it reports one
   verdict for each stream of the prefix, and both sides as they were executed.
   */
  method CompareSchedule(trace: SealedTrace, index: nat) returns (r: Result<ScheduleComparison, ScenarioError>)
    requires trace.Bound() && trace.session.status == Sealed
    ensures index >= |trace.schedules| ==> r == Err(ScheduleIndexOutOfRange(|trace.schedules|, index))
    ensures index < |trace.schedules| ==>
      var plan := trace.schedules[index];
      && trace.Runnable(plan)
      && (r.Ok? <==> BothComplete(trace, plan))
      && (r.Err? ==> SomeSideExceeded(trace, plan, r.error))
      && (r.Ok? ==>
            && |r.value.streams| == plan.streamPrefixLen
            && (forall i :: 0 <= i < plan.streamPrefixLen ==> r.value.streams[i] == Compared(trace, plan, i))
            && SideOf(trace, plan, Pristine, PristineDeliveries(trace, plan), r.value.pristine)
            && SideOf(trace, plan, Faulted, FaultedDeliveries(trace, plan), r.value.faulted)
            && r.value.pristine.deliveryCount == plan.prefixLen && r.value.faulted.deliveryCount == |FaultedOrder(plan)|)
  {
    if index >= |trace.schedules| {
      return Err(ScheduleIndexOutOfRange(|trace.schedules|, index));
    }
    assert PlanAt(index);
    var plan := trace.schedules[index];
    ScheduleMaterializes(trace, plan);
    DeliveriesAreRouted(trace, plan);
    var materialized := MaterializeSchedule(plan, trace.sources, trace.sourceStreams, |trace.streams|, trace.limits.trace);
    match materialized {
      case Err(error) => return Err(error);
      case Ok(schedule) =>
        var originals := PristineDeliveries(trace, plan);
        var pristine := Execute(trace, Pristine, plan.id, plan.streamPrefixLen, plan.prefixLen, originals);
        if pristine.Err? {
          return Err(pristine.error);
        }
        var remaining := seq(|schedule.deliveries|, k requires 0 <= k < |schedule.deliveries| =>
          Delivery(schedule.deliveries[k].streamIndex, schedule.deliveries[k].source));
        assert remaining == FaultedDeliveries(trace, plan);
        var faulted := Execute(trace, Faulted, plan.id, plan.streamPrefixLen, plan.prefixLen, remaining);
        if faulted.Err? {
          return Err(faulted.error);
        }
        r := Paired(pristine.value, faulted.value);
    }
  }

  /** Pairs two executions of the same schedule, stream by stream. */
  method Paired(pristine: ScenarioExecution, faulted: ScenarioExecution) returns (r: Result<ScheduleComparison, ScenarioError>)
    ensures r.Ok? <==>
      && pristine.mode == Pristine && faulted.mode == Faulted
      && pristine.scheduleId == faulted.scheduleId && pristine.streamPrefix == faulted.streamPrefix
      && pristine.sourcePrefix == faulted.sourcePrefix && |pristine.streams| == |faulted.streams|
    ensures r.Err? ==> r.error == ExecutionInvariant
    ensures r.Ok? ==>
      && r.value.pristine == pristine && r.value.faulted == faulted
      && |r.value.streams| == |pristine.streams|
      && (forall i :: 0 <= i < |pristine.streams| ==>
            r.value.streams[i] == CompareStreams(pristine.streams[i], faulted.streams[i]))
  {
    if pristine.mode != Pristine || faulted.mode != Faulted
       || pristine.scheduleId != faulted.scheduleId || pristine.streamPrefix != faulted.streamPrefix
       || pristine.sourcePrefix != faulted.sourcePrefix || |pristine.streams| != |faulted.streams| {
      return Err(ExecutionInvariant);
    }
    var streams: seq<StreamComparison> := [];
    for i := 0 to |pristine.streams|
      invariant |streams| == i
      invariant forall k :: 0 <= k < i ==> streams[k] == CompareStreams(pristine.streams[k], faulted.streams[k])
    {
      streams := streams + [CompareStreams(pristine.streams[i], faulted.streams[i])];
    }
    return Ok(ScheduleComparison(pristine, faulted, streams));
  }
}
