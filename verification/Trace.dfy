/**
 Streaming structural validation: declaration order, unique identities, bounded
 counters, and the symbolic planning of each fault schedule over the envelopes
 already seen.
 */
module Trace {
  import opened Prelude
  import opened Cache
  import opened StreamSpec
  import opened Arena
  import opened Planner

  // -------------------------------------------------------------- records

  datatype TraceLimits = TraceLimits(
    maxRecords: u64, maxStreams: u64, maxEnvelopes: u64, maxSchedules: u64, maxFaultActions: u64,
    maxIdentityBytes: u64, maxOccurrences: u64, maxScheduleWork: u64, maxDuplicateCopies: nat)

  datatype StreamDeclaration = StreamDeclaration(
    streamId: string, scope: Scope, initialCursor: u64, emptyAtEngineStart: bool)

  datatype SourceEnvelope = SourceEnvelope(
    envelopeId: string, streamId: string, cursor: u64, mutations: seq<Mutation>)

  datatype DeliveryRef = DeliveryRef(envelopeId: string, occurrence: nat)

  datatype FaultAction =
    | FaultDrop(target: DeliveryRef)
    | FaultDuplicate(target: DeliveryRef, copies: nat)
    | FaultMoveBefore(target: DeliveryRef, anchor: DeliveryRef)

  datatype FaultSchedule = FaultSchedule(scheduleId: string, actions: seq<FaultAction>)

  /** Which disclosure of tokens, if any, a whole trace is declared to contain. */
  datatype RedactionMode = Omitted | KeyedDigests | UnkeyedLinkable | ContainsTokenIds

  datatype Record =
    | TraceHeader(redaction: RedactionMode)
    | StreamRecord(stream: StreamDeclaration)
    | EnvelopeRecord(envelope: SourceEnvelope)
    | ScheduleRecord(schedule: FaultSchedule)

  /** The record-local facts about schedules that later steps rely on. */
  predicate RecordValid(record: Record, limits: TraceLimits) {
    record.ScheduleRecord? ==>
      forall i :: 0 <= i < |record.schedule.actions| ==> ActionValid(record.schedule.actions[i], limits)
  }

  predicate ActionValid(action: FaultAction, limits: TraceLimits) {
    match action
    case FaultDrop(_) => true
    case FaultDuplicate(_, copies) => 1 <= copies <= limits.maxDuplicateCopies
    case FaultMoveBefore(target, anchor) => target != anchor
  }

  predicate EvidenceMatches(mode: RedactionMode, tokens: TokenEvidence) {
    match tokens
    case KeyedDigest => mode == KeyedDigests
    case UnkeyedDigest => mode == UnkeyedLinkable
    case TokenIds => mode == ContainsTokenIds
  }

  predicate Disclosable(mode: RedactionMode, m: Mutation) {
    m.StoreRun? && m.tokens.Some? ==> EvidenceMatches(mode, m.tokens.value)
  }

  /** No mutation discloses tokens in a way that the header does not announce. */
  predicate Redacted(mode: RedactionMode, mutations: seq<Mutation>) {
    forall i :: 0 <= i < |mutations| ==> Disclosable(mode, mutations[i])
  }

  datatype TraceResource =
    | Records | Streams | Envelopes | FaultSchedules | FaultActions | IdentityBytes
    | ScheduleOccurrences | ScheduleWork

  datatype DeliveryRole = Target | Anchor

  datatype TraceError =
    | ValidatorFailed | MissingHeader | HeaderNotFirst | DuplicateHeader | InvalidRecord
    | TraceResourceLimit(resource: TraceResource, maximum: nat, observed: nat)
    | TraceCounterOverflow
    | DuplicateStreamId | DuplicateStreamIdentity | UndeclaredStream | SourceCursorBeforeInitial
    | DuplicateEnvelopeId | DuplicateScheduleId
    | TokenEvidenceMismatch(mutation: nat, expected: RedactionMode, disclosed: TokenEvidence)
    | FaultEnvelopeNotPrior(action: nat, role: DeliveryRole)
    | FaultOccurrenceNotCreated(action: nat, role: DeliveryRole)
    | FaultOccurrenceRemoved(action: nat, role: DeliveryRole)
    | FaultOccurrenceOverflow(action: nat)

  /** A total is above its limit, or above what any counter can hold. */
  predicate OverLimit(error: TraceError, resource: TraceResource, total: nat, maximum: u64) {
    && total > maximum
    && match error
       case TraceCounterOverflow => total > U64_MAX
       case TraceResourceLimit(named, bound, observed) =>
         named == resource && bound == maximum && observed == total <= U64_MAX
       case _ => false
  }

  function CheckedLimit(resource: TraceResource, current: nat, added: nat, maximum: u64): (r: Result<nat, TraceError>)
    ensures r.Ok? <==> current + added <= maximum
    ensures r.Ok? ==> r.value == current + added
    ensures r.Err? ==> OverLimit(r.error, resource, current + added, maximum)
  {
    if current + added > U64_MAX then Err(TraceCounterOverflow)
    else if current + added > maximum then Err(TraceResourceLimit(resource, maximum, current + added))
    else Ok(current + added)
  }

  function ScopeBytes(scope: Scope): nat {
    |scope.engine| + |scope.engineVersion| + |scope.engineInstance| + |scope.publisher| + |scope.epoch|
  }

  /** One independent schedule over the physical prefix at its record. */
  datatype SchedulePlan = SchedulePlan(id: string, streamPrefixLen: nat, prefixLen: nat, actions: seq<PlannedAction>)

  // --------------------------------------------------- meaning of a plan

  /** The numeric key a reference names, when it names an earlier envelope. */
  function Resolve(envelopes: map<string, nat>, ref: DeliveryRef): Option<DeliveryKey> {
    if ref.envelopeId in envelopes then Some(DeliveryKey(envelopes[ref.envelopeId], ref.occurrence)) else None
  }

  /** The numeric action a fault action stands for at one point of planning. */
  function ResolveAction(envelopes: map<string, nat>, plan: Plan, action: FaultAction): Option<PlannedAction> {
    match action
    case FaultDrop(target) =>
      (match Resolve(envelopes, target) case None => None case Some(t) => Some(Drop(t)))
    case FaultDuplicate(target, copies) =>
      (match Resolve(envelopes, target)
       case None => None
       case Some(t) => Some(PlannedAction.Duplicate(t, NextOf(plan.next, t.source), copies)))
    case FaultMoveBefore(target, anchor) =>
      (match (Resolve(envelopes, target), Resolve(envelopes, anchor))
       case (Some(t), Some(a)) => Some(MoveBefore(t, a))
       case _ => None)
  }

  /** The whole schedule in numbers, or nothing when some action is not acceptable. */
  function PlanOf(envelopes: map<string, nat>, prefix: nat, plan: Plan, actions: seq<FaultAction>): Option<seq<PlannedAction>>
    decreases actions
  {
    if actions == [] then Some([]) else
      match ResolveAction(envelopes, plan, actions[0])
      case None => None
      case Some(first) =>
        if !Accepts(plan, prefix, first) then None else
          match PlanOf(envelopes, prefix, Advance(plan, first), actions[1..])
          case None => None
          case Some(rest) => Some([first] + rest)
  }

  lemma {:induction false} PlanIsAccepted(envelopes: map<string, nat>, prefix: nat, plan: Plan, actions: seq<FaultAction>)
    requires PlanOf(envelopes, prefix, plan, actions).Some?
    ensures AcceptsAll(plan, prefix, PlanOf(envelopes, prefix, plan, actions).value)
    ensures Copies(PlanOf(envelopes, prefix, plan, actions).value) == FaultCopies(actions)
    decreases actions
  {
    if actions != [] {
      var first := ResolveAction(envelopes, plan, actions[0]).value;
      PlanIsAccepted(envelopes, prefix, Advance(plan, first), actions[1..]);
      var rest := PlanOf(envelopes, prefix, Advance(plan, first), actions[1..]).value;
      assert ([first] + rest)[1..] == rest;
    }
  }

  /** The reference that plays a role in an action. */
  function Plays(action: FaultAction, role: DeliveryRole): Option<DeliveryRef> {
    match role
    case Target => Some(action.target)
    case Anchor => if action.FaultMoveBefore? then Some(action.anchor) else None
  }

  function FaultCopies(actions: seq<FaultAction>): nat
    decreases actions
  {
    if actions == [] then 0 else
      (if actions[0].FaultDuplicate? then actions[0].copies else 0) + FaultCopies(actions[1..])
  }

  predicate HasDuplicate(actions: seq<FaultAction>) {
    exists i :: 0 <= i < |actions| && actions[i].FaultDuplicate?
  }

  // ------------------------------------------ what a plan's numbers say

  /** The key is the occurrence that the reference names, of the envelope that it names. */
  predicate Names(ss: seq<SourceEnvelope>, ref: DeliveryRef, key: DeliveryKey) {
    key.source < |ss| && ss[key.source].envelopeId == ref.envelopeId && key.occurrence == ref.occurrence
  }

  /** How many copies of a source have been planned. */
  function CopiesOf(done: seq<PlannedAction>, source: nat): nat {
    if done == [] then 0 else
      var last := done[|done| - 1];
      CopiesOf(done[..|done| - 1], source) + (if last.Duplicate? && last.target.source == source then last.copies else 0)
  }

  /** An original or a copy that has been planned and not been dropped. */
  predicate Available(done: seq<PlannedAction>, key: DeliveryKey) {
    key.occurrence <= CopiesOf(done, key.source) && Drop(key) !in done
  }

  /** What one fault action becomes after others have been planned. */
  predicate Becomes(ss: seq<SourceEnvelope>, done: seq<PlannedAction>, action: FaultAction, planned: PlannedAction) {
    match action
    case FaultDrop(target) =>
      planned.Drop? && Names(ss, target, planned.target) && Available(done, planned.target)
    case FaultDuplicate(target, copies) =>
      && planned.Duplicate? && Names(ss, target, planned.target) && Available(done, planned.target)
      && planned.copies == copies && planned.firstOccurrence == 1 + CopiesOf(done, planned.target.source)
      && planned.firstOccurrence + copies <= 65536
    case FaultMoveBefore(target, anchor) =>
      && planned.MoveBefore? && Names(ss, target, planned.target) && Names(ss, anchor, planned.anchor)
      && Available(done, planned.target) && Available(done, planned.anchor) && planned.target != planned.anchor
  }

  /** A plan says action by action what the schedule says. */
  predicate Follows(ss: seq<SourceEnvelope>, actions: seq<FaultAction>, planned: seq<PlannedAction>) {
    |planned| == |actions| && forall i :: 0 <= i < |actions| ==> Becomes(ss, planned[..i], actions[i], planned[i])
  }

  predicate FollowsFrom(ss: seq<SourceEnvelope>, done: seq<PlannedAction>, actions: seq<FaultAction>, planned: seq<PlannedAction>)
    decreases actions
  {
    if actions == [] then planned == [] else
      planned != [] && Becomes(ss, done, actions[0], planned[0]) && FollowsFrom(ss, done + [planned[0]], actions[1..], planned[1..])
  }

  lemma {:induction false} FollowsStepwise(ss: seq<SourceEnvelope>, done: seq<PlannedAction>, actions: seq<FaultAction>, planned: seq<PlannedAction>)
    ensures FollowsFrom(ss, done, actions, planned) <==>
            |planned| == |actions| && forall i :: 0 <= i < |actions| ==> Becomes(ss, done + planned[..i], actions[i], planned[i])
    decreases actions
  {
    if actions != [] && planned != [] {
      var more := done + [planned[0]];
      FollowsStepwise(ss, more, actions[1..], planned[1..]);
      assert done + planned[..0] == done;
      forall i | 0 <= i < |planned| - 1 ensures more + planned[1..][..i] == done + planned[..i + 1] {
        assert planned[..i + 1] == [planned[0]] + planned[1..][..i];
      }
      if |planned| == |actions| {
        StepsShift(ss, done, actions, planned);
      }
    }
  }

  lemma StepsShift(ss: seq<SourceEnvelope>, done: seq<PlannedAction>, actions: seq<FaultAction>, planned: seq<PlannedAction>)
    requires |planned| == |actions| > 0
    requires forall i :: 0 <= i < |planned| - 1 ==> done + [planned[0]] + planned[1..][..i] == done + planned[..i + 1]
    requires done + planned[..0] == done
    ensures (forall i :: 0 <= i < |actions| ==> Becomes(ss, done + planned[..i], actions[i], planned[i])) <==>
            && Becomes(ss, done, actions[0], planned[0])
            && (forall i :: 0 <= i < |actions| - 1 ==> Becomes(ss, done + [planned[0]] + planned[1..][..i], actions[1..][i], planned[1..][i]))
  {
    if forall i :: 0 <= i < |actions| ==> Becomes(ss, done + planned[..i], actions[i], planned[i]) {
      forall i | 0 <= i < |actions| - 1 ensures Becomes(ss, done + [planned[0]] + planned[1..][..i], actions[1..][i], planned[1..][i]) {
        assert Becomes(ss, done + planned[..i + 1], actions[i + 1], planned[i + 1]);
      }
    }
    if Becomes(ss, done, actions[0], planned[0])
       && forall i :: 0 <= i < |actions| - 1 ==> Becomes(ss, done + [planned[0]] + planned[1..][..i], actions[1..][i], planned[1..][i]) {
      forall i | 0 <= i < |actions| ensures Becomes(ss, done + planned[..i], actions[i], planned[i]) {
        if i > 0 {
          assert Becomes(ss, done + [planned[0]] + planned[1..][..i - 1], actions[1..][i - 1], planned[1..][i - 1]);
        }
      }
    }
  }

  /** The planner's counters and its set of removed keys are those of the actions it has planned. */
  ghost predicate Bookkept(plan: Plan, done: seq<PlannedAction>) {
    && (forall source :: NextOf(plan.next, source) == 1 + CopiesOf(done, source))
    && (forall k :: k in plan.removed <==> Drop(k) in done)
  }

  lemma BookkeepingAdvances(plan: Plan, done: seq<PlannedAction>, prefix: nat, action: PlannedAction)
    requires Bookkept(plan, done) && Accepts(plan, prefix, action)
    ensures Bookkept(Advance(plan, action), done + [action])
  {
    var more := done + [action];
    assert more[..|more| - 1] == done;
    forall k ensures Drop(k) in more <==> Drop(k) in done || action == Drop(k) {
    }
  }

  /** The name table leads from a name to the one envelope that bears it. */
  lemma NameLeads(ss: seq<SourceEnvelope>, envelopes: map<string, nat>, order: seq<string>, ref: DeliveryRef, key: DeliveryKey)
    requires EnvelopesIndexed(ss, envelopes, order)
    ensures Resolve(envelopes, ref) == Some(key) <==> Names(ss, ref, key)
  {
    assert NameAt(ref.envelopeId) && SourceAt(key.source);
  }

  lemma ActionBecomes(ss: seq<SourceEnvelope>, envelopes: map<string, nat>, order: seq<string>, plan: Plan, done: seq<PlannedAction>,
                      action: FaultAction, planned: PlannedAction)
    requires EnvelopesIndexed(ss, envelopes, order) && Bookkept(plan, done)
    ensures ResolveAction(envelopes, plan, action) == Some(planned) && Accepts(plan, |ss|, planned) <==> Becomes(ss, done, action, planned)
  {
    match action {
      case FaultDrop(target) =>
        if planned.Drop? {
          NameLeads(ss, envelopes, order, target, planned.target);
        }
      case FaultDuplicate(target, _) =>
        if planned.Duplicate? {
          NameLeads(ss, envelopes, order, target, planned.target);
        }
      case FaultMoveBefore(target, anchor) =>
        if planned.MoveBefore? {
          NameLeads(ss, envelopes, order, target, planned.target);
          NameLeads(ss, envelopes, order, anchor, planned.anchor);
        }
    }
  }

  lemma {:induction false} PlanFollowsFrom(ss: seq<SourceEnvelope>, envelopes: map<string, nat>, order: seq<string>, plan: Plan,
                                           done: seq<PlannedAction>, actions: seq<FaultAction>, planned: seq<PlannedAction>)
    requires EnvelopesIndexed(ss, envelopes, order) && Bookkept(plan, done)
    ensures PlanOf(envelopes, |ss|, plan, actions) == Some(planned) <==> FollowsFrom(ss, done, actions, planned)
    decreases actions
  {
    if actions != [] {
      var first := ResolveAction(envelopes, plan, actions[0]);
      if first.Some? && Accepts(plan, |ss|, first.value) {
        ActionBecomes(ss, envelopes, order, plan, done, actions[0], first.value);
        BookkeepingAdvances(plan, done, |ss|, first.value);
        if planned != [] {
          ActionBecomes(ss, envelopes, order, plan, done, actions[0], planned[0]);
          PlanFollowsFrom(ss, envelopes, order, Advance(plan, first.value), done + [first.value], actions[1..], planned[1..]);
          FirstAndRest(planned, first.value, PlanOf(envelopes, |ss|, Advance(plan, first.value), actions[1..]));
        }
      } else if planned != [] {
        ActionBecomes(ss, envelopes, order, plan, done, actions[0], planned[0]);
      }
    }
  }

  lemma FirstAndRest(planned: seq<PlannedAction>, first: PlannedAction, rest: Option<seq<PlannedAction>>)
    requires planned != []
    ensures rest.Some? && planned == [first] + rest.value <==> planned[0] == first && rest == Some(planned[1..])
  {
    if planned[0] == first && rest == Some(planned[1..]) {
      assert planned == [first] + planned[1..];
    }
  }

  /** A schedule can be planned exactly when some plan says what it says, and then that is the plan. */
  lemma PlanFollows(ss: seq<SourceEnvelope>, envelopes: map<string, nat>, order: seq<string>, actions: seq<FaultAction>, planned: seq<PlannedAction>)
    requires EnvelopesIndexed(ss, envelopes, order)
    ensures PlanOf(envelopes, |ss|, StartPlan(|ss|), actions) == Some(planned) <==> Follows(ss, actions, planned)
  {
    PlanFollowsFrom(ss, envelopes, order, StartPlan(|ss|), [], actions, planned);
    FollowsStepwise(ss, [], actions, planned);
    forall i | 0 <= i <= |planned| ensures [] + planned[..i] == planned[..i] {
    }
  }

  lemma PlanIsFollowed(ss: seq<SourceEnvelope>, envelopes: map<string, nat>, order: seq<string>, actions: seq<FaultAction>)
    requires EnvelopesIndexed(ss, envelopes, order)
    ensures match PlanOf(envelopes, |ss|, StartPlan(|ss|), actions)
            case Some(planned) => Follows(ss, actions, planned)
            case None => forall planned :: !Follows(ss, actions, planned)
  {
    forall planned ensures PlanOf(envelopes, |ss|, StartPlan(|ss|), actions) == Some(planned) <==> Follows(ss, actions, planned) {
      PlanFollows(ss, envelopes, order, actions, planned);
    }
  }

  // ------------------------------------------- tables over the history

  // Marks for positions in the accepted history; the facts below speak about marked positions only.
  predicate StreamAt(i: int) { true }
  predicate SourceAt(j: int) { true }
  predicate PlanAt(k: int) { true }
  predicate NameAt(id: string) { true }

  /** The stream tables hold exactly the accepted declarations; `ordinal` numbers their names. */
  ghost predicate StreamsIndexed(ds: seq<StreamDeclaration>, ordinal: map<string, nat>, streams: map<string, u64>, order: seq<string>) {
    && |order| == |ds| == |streams| && ordinal.Keys == streams.Keys
    && (forall i {:trigger StreamAt(i)} :: StreamAt(i) && 0 <= i < |ds| ==>
          order[i] == ds[i].streamId && ds[i].streamId in ordinal && ordinal[ds[i].streamId] == i)
    && (forall id {:trigger NameAt(id)} :: NameAt(id) && id in ordinal ==>
          && ordinal[id] < |ds| && ds[ordinal[id]].streamId == id
          && id in streams && streams[id] == ds[ordinal[id]].initialCursor)
  }

  /** The envelope tables hold exactly the accepted envelopes, numbered in physical order. */
  ghost predicate EnvelopesIndexed(ss: seq<SourceEnvelope>, envelopes: map<string, nat>, order: seq<string>) {
    && |order| == |ss| == |envelopes|
    && (forall j {:trigger SourceAt(j)} :: SourceAt(j) && 0 <= j < |ss| ==>
          order[j] == ss[j].envelopeId && ss[j].envelopeId in envelopes && envelopes[ss[j].envelopeId] == j)
    && (forall id {:trigger NameAt(id)} :: NameAt(id) && id in envelopes ==> envelopes[id] < |ss| && ss[envelopes[id]].envelopeId == id)
  }

  /** The first `m` envelopes all belong to the first `n` declared streams. */
  ghost predicate Routed(ss: seq<SourceEnvelope>, m: nat, ordinal: map<string, nat>, n: nat) {
    && m <= |ss|
    && (forall j {:trigger SourceAt(j)} :: SourceAt(j) && 0 <= j < m ==>
          ss[j].streamId in ordinal && ordinal[ss[j].streamId] < n)
  }

  /** No envelope lies below its stream's first valid cursor. */
  ghost predicate CursorsValid(ss: seq<SourceEnvelope>, streams: map<string, u64>) {
    forall j {:trigger SourceAt(j)} :: SourceAt(j) && 0 <= j < |ss| ==>
      ss[j].streamId in streams && streams[ss[j].streamId] <= ss[j].cursor
  }

  /** The actions are acceptable one after another and stay within the occurrence limit. */
  predicate Executable(actions: seq<PlannedAction>, prefix: nat, limits: TraceLimits) {
    AcceptsAll(StartPlan(prefix), prefix, actions) && prefix + Copies(actions) <= limits.maxOccurrences
  }

  /** A retained plan is executable over the prefixes it was planned for. */
  ghost predicate PlanValid(plan: SchedulePlan, streamCount: nat, ordinal: map<string, nat>, ss: seq<SourceEnvelope>, limits: TraceLimits) {
    && plan.streamPrefixLen <= streamCount
    && Executable(plan.actions, plan.prefixLen, limits)
    && Routed(ss, plan.prefixLen, ordinal, plan.streamPrefixLen)
  }

  ghost predicate PlansValid(plans: seq<SchedulePlan>, streamCount: nat, ordinal: map<string, nat>, ss: seq<SourceEnvelope>, limits: TraceLimits) {
    forall k {:trigger PlanAt(k)} :: PlanAt(k) && 0 <= k < |plans| ==> PlanValid(plans[k], streamCount, ordinal, ss, limits)
  }

  /** Everything the tables promise about the accepted declarations, envelopes and plans. */
  ghost predicate Recorded(
      ds: seq<StreamDeclaration>, ordinal: map<string, nat>, streams: map<string, u64>, streamOrder: seq<string>,
      ss: seq<SourceEnvelope>, envelopes: map<string, nat>, envelopeOrder: seq<string>,
      plans: seq<SchedulePlan>, limits: TraceLimits)
  {
    && StreamsIndexed(ds, ordinal, streams, streamOrder) && |ds| <= limits.maxStreams
    && EnvelopesIndexed(ss, envelopes, envelopeOrder) && |ss| <= limits.maxEnvelopes
    && Routed(ss, |ss|, ordinal, |ds|)
    && CursorsValid(ss, streams)
    && PlansValid(plans, |ds|, ordinal, ss, limits)
  }

  /** An accepted declaration disturbs no earlier record and no retained plan. */
  lemma StreamRecorded(
      ds: seq<StreamDeclaration>, ordinal: map<string, nat>, streams: map<string, u64>, streamOrder: seq<string>,
      ss: seq<SourceEnvelope>, envelopes: map<string, nat>, envelopeOrder: seq<string>,
      plans: seq<SchedulePlan>, limits: TraceLimits, d: StreamDeclaration)
    requires Recorded(ds, ordinal, streams, streamOrder, ss, envelopes, envelopeOrder, plans, limits)
    requires d.streamId !in streams && |streams| < limits.maxStreams
    ensures Recorded(ds + [d], ordinal[d.streamId := |ds|], streams[d.streamId := d.initialCursor], streamOrder + [d.streamId],
                     ss, envelopes, envelopeOrder, plans, limits)
  {
    MapInsertSize(streams, d.streamId, d.initialCursor);
  }

  /** Nor does an accepted envelope. */
  lemma SourceRecorded(
      ds: seq<StreamDeclaration>, ordinal: map<string, nat>, streams: map<string, u64>, streamOrder: seq<string>,
      ss: seq<SourceEnvelope>, envelopes: map<string, nat>, envelopeOrder: seq<string>,
      plans: seq<SchedulePlan>, limits: TraceLimits, e: SourceEnvelope)
    requires Recorded(ds, ordinal, streams, streamOrder, ss, envelopes, envelopeOrder, plans, limits)
    requires e.envelopeId !in envelopes && |envelopes| < limits.maxEnvelopes
    requires e.streamId in streams && streams[e.streamId] <= e.cursor
    ensures Recorded(ds, ordinal, streams, streamOrder,
                     ss + [e], envelopes[e.envelopeId := |ss|], envelopeOrder + [e.envelopeId], plans, limits)
  {
    MapInsertSize(envelopes, e.envelopeId, |ss|);
    assert NameAt(e.streamId);
  }

  /** A schedule planned over everything seen so far joins the valid plans. */
  lemma PlanRecorded(
      ds: seq<StreamDeclaration>, ordinal: map<string, nat>, streams: map<string, u64>, streamOrder: seq<string>,
      ss: seq<SourceEnvelope>, envelopes: map<string, nat>, envelopeOrder: seq<string>,
      plans: seq<SchedulePlan>, limits: TraceLimits, id: string, actions: seq<PlannedAction>)
    requires Recorded(ds, ordinal, streams, streamOrder, ss, envelopes, envelopeOrder, plans, limits)
    requires Executable(actions, |ss|, limits)
    ensures Recorded(ds, ordinal, streams, streamOrder, ss, envelopes, envelopeOrder,
                     plans + [SchedulePlan(id, |streamOrder|, |envelopeOrder|, actions)], limits)
  {
  }

  /** The names, scopes and identity bytes on record. */
  datatype Tables = Tables(streams: set<string>, scopes: set<Scope>, envelopes: set<string>, bytes: nat)

  /** What an accepted record adds to the tables. */
  predicate Grows(record: Record, before: Tables, after: Tables) {
    match record
    case StreamRecord(d) =>
      && d.streamId !in before.streams && d.scope !in before.scopes
      && after == before.(streams := before.streams + {d.streamId}, scopes := before.scopes + {d.scope},
                          bytes := before.bytes + |d.streamId| + ScopeBytes(d.scope))
    case EnvelopeRecord(e) =>
      && e.envelopeId !in before.envelopes && e.streamId in before.streams
      && after == before.(envelopes := before.envelopes + {e.envelopeId}, bytes := before.bytes + |e.envelopeId|)
    case ScheduleRecord(f) => after == before.(bytes := before.bytes + |f.scheduleId|)
    case TraceHeader(_) => after == before
  }

  function DeclaredBy(record: Record): seq<StreamDeclaration> {
    if record.StreamRecord? then [record.stream] else []
  }

  function CarriedBy(record: Record): seq<SourceEnvelope> {
    if record.EnvelopeRecord? then [record.envelope] else []
  }

  /** The newest plan is that of the record, over all envelopes before it, and says what its schedule says. */
  predicate PlanSays(record: Record, ss: seq<SourceEnvelope>, plans: seq<SchedulePlan>) {
    record.ScheduleRecord? ==>
      && plans != []
      && var newest := plans[|plans| - 1];
      && newest.id == record.schedule.scheduleId && newest.prefixLen == |ss|
      && Follows(ss, record.schedule.actions, newest.actions)
  }

  /** The plan a record adds, made over everything accepted before it; acceptance means there is one. */
  function PlannedBy(record: Record, envelopes: map<string, nat>, streamCount: nat, prefix: nat): seq<SchedulePlan> {
    if !record.ScheduleRecord? then [] else
      match PlanOf(envelopes, prefix, StartPlan(prefix), record.schedule.actions)
      case None => []
      case Some(actions) => [SchedulePlan(record.schedule.scheduleId, streamCount, prefix, actions)]
  }

  // ------------------------------------------------------------ validator

  /** Finds the first mutation that discloses tokens against the header. */
  method ValidateRedaction(mode: RedactionMode, mutations: seq<Mutation>) returns (r: Result<(), TraceError>)
    ensures r.Ok? <==> Redacted(mode, mutations)
    ensures r.Err? ==>
      && r.error.TokenEvidenceMismatch? && r.error.mutation < |mutations| && r.error.expected == mode
      && Redacted(mode, mutations[..r.error.mutation])
      && mutations[r.error.mutation].StoreRun? && mutations[r.error.mutation].tokens == Some(r.error.disclosed)
      && !EvidenceMatches(mode, r.error.disclosed)
  {
    for i := 0 to |mutations|
      invariant Redacted(mode, mutations[..i])
    {
      if !Disclosable(mode, mutations[i]) {
        return Err(TokenEvidenceMismatch(i, mode, mutations[i].tokens.value));
      }
      assert mutations[..i + 1] == mutations[..i] + [mutations[i]];
    }
    assert mutations[..|mutations|] == mutations;
    return Ok(());
  }

  class TraceValidator {
    const limits: TraceLimits
    var records: nat
    var header: Option<RedactionMode>
    var streams: map<string, u64>
    var streamOrder: seq<string>
    var streamIdentities: set<Scope>
    var envelopes: map<string, nat>
    var envelopeOrder: seq<string>
    var schedules: set<string>
    var schedulePlans: seq<SchedulePlan>
    var faultActions: nat
    var identityBytes: nat
    var scheduleWork: nat
    var failed: bool
    /** Everything accepted so far, in physical order. */
    ghost var declared: seq<StreamDeclaration>
    ghost var sources: seq<SourceEnvelope>
    /** The declaration ordinal of each stream name. */
    ghost var ordinal: map<string, nat>

    /** The tables are exactly what the accepted history says they should be. */
    ghost predicate Tabled()
      reads this`streams, this`streamOrder, this`envelopes, this`envelopeOrder,
            this`schedulePlans, this`identityBytes, this`declared, this`sources, this`ordinal
    {
      && Recorded(declared, ordinal, streams, streamOrder, sources, envelopes, envelopeOrder, schedulePlans, limits)
      && identityBytes <= limits.maxIdentityBytes
    }

    /** And the header stands exactly when something was accepted: it comes first. */
    ghost predicate Valid()
      reads this`streams, this`streamOrder, this`envelopes, this`envelopeOrder, this`schedulePlans,
            this`identityBytes, this`declared, this`sources, this`ordinal, this`header, this`records
    {
      Tabled() && (header.Some? <==> records > 0)
    }

    constructor (limits: TraceLimits)
      ensures Valid() && this.limits == limits && !failed && records == 0
      ensures declared == [] && sources == [] && identityBytes == 0 && schedulePlans == []
      ensures streams == map[] && streamIdentities == {} && envelopes == map[]
    {
      this.limits := limits;
      records := 0;
      header := None;
      streams := map[];
      streamOrder := [];
      streamIdentities := {};
      envelopes := map[];
      envelopeOrder := [];
      schedules := {};
      schedulePlans := [];
      faultActions := 0;
      identityBytes := 0;
      scheduleWork := 0;
      failed := false;
      declared := [];
      sources := [];
      ordinal := map[];
    }

    ghost function OnRecord(): Tables
      reads this`streams, this`streamIdentities, this`envelopes, this`identityBytes
    {
      Tables.Tables(streams.Keys, streamIdentities, envelopes.Keys, identityBytes)
    }

    /** Accepts one record, or fails for good. */
    method Push(record: Record) returns (r: Result<(), TraceError>)
      requires Valid()
      modifies this
      ensures Valid()
      ensures old(failed) ==> r == Err(ValidatorFailed)
      ensures failed == (old(failed) || r.Err?)
      ensures r.Ok? ==> Grows(record, old(OnRecord()), OnRecord())
      ensures r.Ok? ==> RecordValid(record, limits)
      ensures declared == if r.Ok? then old(declared) + DeclaredBy(record) else old(declared)
      ensures sources == if r.Ok? then old(sources) + CarriedBy(record) else old(sources)
      ensures schedulePlans ==
        if r.Ok? then old(schedulePlans + PlannedBy(record, envelopes, |declared|, |sources|)) else old(schedulePlans)
      ensures r.Ok? ==> |schedulePlans| == old(|schedulePlans|) + (if record.ScheduleRecord? then 1 else 0)
      ensures r.Ok? ==> PlanSays(record, old(sources), schedulePlans)
      ensures header == if r.Ok? && record.TraceHeader? then Some(record.redaction) else old(header)
      ensures records == old(records) + (if r.Ok? then 1 else 0)
    {
      if failed {
        return Err(ValidatorFailed);
      }
      r := PushInner(record);
      if r.Err? {
        failed := true;
      }
    }

    method PushInner(record: Record) returns (r: Result<(), TraceError>)
      requires Valid() && !failed
      modifies this
      ensures Valid() && failed == old(failed)
      ensures r.Ok? ==> Grows(record, old(OnRecord()), OnRecord())
      ensures r.Ok? ==> RecordValid(record, limits)
      ensures declared == if r.Ok? then old(declared) + DeclaredBy(record) else old(declared)
      ensures sources == if r.Ok? then old(sources) + CarriedBy(record) else old(sources)
      ensures schedulePlans ==
        if r.Ok? then old(schedulePlans + PlannedBy(record, envelopes, |declared|, |sources|)) else old(schedulePlans)
      ensures r.Ok? ==> |schedulePlans| == old(|schedulePlans|) + (if record.ScheduleRecord? then 1 else 0)
      ensures r.Ok? ==> PlanSays(record, old(sources), schedulePlans)
      ensures header == if r.Ok? && record.TraceHeader? then Some(record.redaction) else old(header)
      ensures records == old(records) + (if r.Ok? then 1 else 0)
    {
      var counted := CheckOrder(record);
      if counted.Err? {
        return Err(counted.error);
      }
      r := Accept(record);
      if r.Ok? {
        records := counted.value;
      }
    }

    /** The record's own part: the header is noted, anything else goes to its table. */
    method Accept(record: Record) returns (r: Result<(), TraceError>)
      requires Tabled() && RecordValid(record, limits)
      modifies this`header, this`streams, this`streamOrder, this`streamIdentities, this`envelopes, this`envelopeOrder,
               this`schedules, this`schedulePlans, this`faultActions, this`identityBytes, this`scheduleWork,
               this`declared, this`sources, this`ordinal
      ensures Tabled()
      ensures r.Ok? ==> Grows(record, old(OnRecord()), OnRecord())
      ensures declared == if r.Ok? then old(declared) + DeclaredBy(record) else old(declared)
      ensures sources == if r.Ok? then old(sources) + CarriedBy(record) else old(sources)
      ensures schedulePlans ==
        if r.Ok? then old(schedulePlans + PlannedBy(record, envelopes, |declared|, |sources|)) else old(schedulePlans)
      ensures r.Ok? ==> |schedulePlans| == old(|schedulePlans|) + (if record.ScheduleRecord? then 1 else 0)
      ensures r.Ok? ==> PlanSays(record, old(sources), schedulePlans)
      ensures header == if r.Ok? && record.TraceHeader? then Some(record.redaction) else old(header)
    {
      if record.TraceHeader? {
        assert declared == declared + [] && sources == sources + [] && schedulePlans == schedulePlans + [];
        header := Some(record.redaction);
        return Ok(());
      }
      r := Dispatch(record);
    }

    /** Ends the trace: no plan is handed on before the whole trace was accepted. */
    method FinishPlanned() returns (r: Result<ValidatedTracePlan, TraceError>)
      ensures r == if failed then Err(ValidatorFailed)
                   else if header.None? then Err(MissingHeader)
                   else Ok(ValidatedTracePlan(limits, streamOrder, envelopeOrder, schedulePlans))
    {
      if failed {
        return Err(ValidatorFailed);
      }
      if header.None? {
        return Err(MissingHeader);
      }
      return Ok(ValidatedTracePlan(limits, streamOrder, envelopeOrder, schedulePlans));
    }

    /** The record count after a record that may come next: one header, and it comes first. */
    method CheckOrder(record: Record) returns (r: Result<nat, TraceError>)
      ensures r.Ok? <==>
        && records + 1 <= limits.maxRecords && RecordValid(record, limits)
        && (record.TraceHeader? <==> records == 0)
      ensures r.Ok? ==> r.value == records + 1
      ensures r.Err? ==>
        if records + 1 > limits.maxRecords then OverLimit(r.error, Records, records + 1, limits.maxRecords)
        else
          && (r.error.InvalidRecord? <==> !RecordValid(record, limits))
          && (RecordValid(record, limits) && record.TraceHeader? ==> r.error.DuplicateHeader? && records > 0)
          && (RecordValid(record, limits) && !record.TraceHeader? ==> r.error.HeaderNotFirst? && records == 0)
    {
      var counted := CheckedLimit(Records, records, 1, limits.maxRecords);
      if counted.Err? {
        return counted;
      }
      if !RecordValid(record, limits) {
        return Err(InvalidRecord);
      }
      if record.TraceHeader? && records != 0 {
        return Err(DuplicateHeader);
      }
      if !record.TraceHeader? && records == 0 {
        return Err(HeaderNotFirst);
      }
      return counted;
    }

    method Dispatch(record: Record) returns (r: Result<(), TraceError>)
      requires Tabled() && RecordValid(record, limits) && !record.TraceHeader?
      modifies this`streams, this`streamOrder, this`streamIdentities, this`envelopes, this`envelopeOrder,
               this`schedules, this`schedulePlans, this`faultActions, this`identityBytes, this`scheduleWork,
               this`declared, this`sources, this`ordinal
      ensures Tabled()
      ensures r.Ok? ==> Grows(record, old(OnRecord()), OnRecord())
      ensures declared == if r.Ok? then old(declared) + DeclaredBy(record) else old(declared)
      ensures sources == if r.Ok? then old(sources) + CarriedBy(record) else old(sources)
      ensures schedulePlans ==
        if r.Ok? then old(schedulePlans + PlannedBy(record, envelopes, |declared|, |sources|)) else old(schedulePlans)
      ensures r.Ok? ==> |schedulePlans| == old(|schedulePlans|) + (if record.ScheduleRecord? then 1 else 0)
      ensures r.Ok? ==> PlanSays(record, old(sources), schedulePlans)
    {
      assert declared == declared + [] && sources == sources + [] && schedulePlans == schedulePlans + [];
      match record {
        case StreamRecord(stream) => r := PushStream(stream);
        case EnvelopeRecord(envelope) => r := PushEnvelope(envelope);
        case ScheduleRecord(schedule) => r := PushSchedule(schedule);
      }
    }

    method PushStream(stream: StreamDeclaration) returns (r: Result<(), TraceError>)
      requires Tabled()
      modifies this`streams, this`streamOrder, this`streamIdentities, this`identityBytes, this`declared, this`ordinal
      ensures Tabled()
      ensures r.Ok? ==> Grows(StreamRecord(stream), old(OnRecord()), OnRecord())
      ensures declared == old(declared) + (if r.Ok? then [stream] else [])
    {
      var bytes := CheckStream(stream);
      if bytes.Err? {
        return Err(bytes.error);
      }
      MapInsertKeys(streams, stream.streamId, stream.initialCursor);
      EnrolStream(stream, bytes.value);
      return Ok(());
    }

    /** The identity bytes after a declaration that may be accepted. */
    method CheckStream(stream: StreamDeclaration) returns (r: Result<nat, TraceError>)
      ensures r.Ok? <==>
        && stream.streamId !in streams && stream.scope !in streamIdentities
        && |streams| + 1 <= limits.maxStreams
        && identityBytes + |stream.streamId| + ScopeBytes(stream.scope) <= limits.maxIdentityBytes
      ensures r.Ok? ==> r.value == identityBytes + |stream.streamId| + ScopeBytes(stream.scope)
      ensures r.Err? ==>
        && (r.error.DuplicateStreamId? <==> stream.streamId in streams)
        && (r.error.DuplicateStreamIdentity? <==> stream.streamId !in streams && stream.scope in streamIdentities)
        && (stream.streamId !in streams && stream.scope !in streamIdentities ==>
              if |streams| + 1 > limits.maxStreams then OverLimit(r.error, Streams, |streams| + 1, limits.maxStreams)
              else OverLimit(r.error, IdentityBytes, identityBytes + |stream.streamId| + ScopeBytes(stream.scope), limits.maxIdentityBytes))
    {
      if stream.streamId in streams {
        return Err(DuplicateStreamId);
      }
      if stream.scope in streamIdentities {
        return Err(DuplicateStreamIdentity);
      }
      var count := CheckedLimit(Streams, |streams|, 1, limits.maxStreams);
      if count.Err? {
        return Err(count.error);
      }
      return CheckedLimit(IdentityBytes, identityBytes, |stream.streamId| + ScopeBytes(stream.scope), limits.maxIdentityBytes);
    }

    method EnrolStream(stream: StreamDeclaration, bytes: nat)
      requires Tabled() && stream.streamId !in streams && |streams| < limits.maxStreams && bytes <= limits.maxIdentityBytes
      modifies this`streams, this`streamOrder, this`streamIdentities, this`identityBytes, this`declared, this`ordinal
      ensures Tabled()
      ensures streams == old(streams)[stream.streamId := stream.initialCursor]
      ensures streamIdentities == old(streamIdentities) + {stream.scope}
      ensures identityBytes == bytes && declared == old(declared) + [stream]
    {
      StreamRecorded(declared, ordinal, streams, streamOrder, sources, envelopes, envelopeOrder, schedulePlans, limits, stream);
      streams := streams[stream.streamId := stream.initialCursor];
      streamOrder := streamOrder + [stream.streamId];
      streamIdentities := streamIdentities + {stream.scope};
      identityBytes := bytes;
      ordinal := ordinal[stream.streamId := |declared|];
      declared := declared + [stream];
    }

    method PushEnvelope(envelope: SourceEnvelope) returns (r: Result<(), TraceError>)
      requires Tabled()
      modifies this`envelopes, this`envelopeOrder, this`identityBytes, this`sources
      ensures Tabled()
      ensures r.Ok? ==> Grows(EnvelopeRecord(envelope), old(OnRecord()), OnRecord())
      ensures sources == old(sources) + (if r.Ok? then [envelope] else [])
    {
      var bytes := CheckEnvelope(envelope);
      if bytes.Err? {
        return Err(bytes.error);
      }
      EnrolEnvelope(envelope, bytes.value);
      return Ok(());
    }

    /** The name is new and there is room for it. */
    predicate NewEnvelope(envelope: SourceEnvelope)
      reads this`envelopes
    {
      envelope.envelopeId !in envelopes && |envelopes| + 1 <= limits.maxEnvelopes
    }

    /** And the envelope belongs to a declared stream, at one of its cursors. */
    predicate Declared(envelope: SourceEnvelope)
      reads this`envelopes, this`streams
    {
      NewEnvelope(envelope) && envelope.streamId in streams && streams[envelope.streamId] <= envelope.cursor
    }

    /** The identity bytes after an envelope that may be accepted. */
    method CheckEnvelope(envelope: SourceEnvelope) returns (r: Result<nat, TraceError>)
      ensures r.Ok? <==>
        && envelope.envelopeId !in envelopes
        && |envelopes| + 1 <= limits.maxEnvelopes
        && envelope.streamId in streams && streams[envelope.streamId] <= envelope.cursor
        && header.Some? && Redacted(header.value, envelope.mutations)
        && identityBytes + |envelope.envelopeId| <= limits.maxIdentityBytes
      ensures r.Ok? ==> r.value == identityBytes + |envelope.envelopeId|
      ensures r.Err? ==>
        match r.error
        case DuplicateEnvelopeId => envelope.envelopeId in envelopes
        case UndeclaredStream => NewEnvelope(envelope) && envelope.streamId !in streams
        case SourceCursorBeforeInitial =>
          NewEnvelope(envelope) && envelope.streamId in streams && envelope.cursor < streams[envelope.streamId]
        case HeaderNotFirst => Declared(envelope) && header.None?
        case TokenEvidenceMismatch(at, mode, disclosed) =>
          && Declared(envelope) && header == Some(mode) && at < |envelope.mutations|
          && Redacted(mode, envelope.mutations[..at]) && !EvidenceMatches(mode, disclosed)
          && envelope.mutations[at].StoreRun? && envelope.mutations[at].tokens == Some(disclosed)
        case _ =>
          if |envelopes| + 1 > limits.maxEnvelopes then
            envelope.envelopeId !in envelopes && OverLimit(r.error, Envelopes, |envelopes| + 1, limits.maxEnvelopes)
          else
            && Declared(envelope) && header.Some? && Redacted(header.value, envelope.mutations)
            && OverLimit(r.error, IdentityBytes, identityBytes + |envelope.envelopeId|, limits.maxIdentityBytes)
    {
      if envelope.envelopeId in envelopes {
        return Err(DuplicateEnvelopeId);
      }
      var count := CheckedLimit(Envelopes, |envelopes|, 1, limits.maxEnvelopes);
      if count.Err? {
        return Err(count.error);
      }
      if envelope.streamId !in streams {
        return Err(UndeclaredStream);
      }
      if envelope.cursor < streams[envelope.streamId] {
        return Err(SourceCursorBeforeInitial);
      }
      if header.None? {
        return Err(HeaderNotFirst);
      }
      var redacted := ValidateRedaction(header.value, envelope.mutations);
      if redacted.Err? {
        return Err(redacted.error);
      }
      return CheckedLimit(IdentityBytes, identityBytes, |envelope.envelopeId|, limits.maxIdentityBytes);
    }

    method EnrolEnvelope(envelope: SourceEnvelope, bytes: nat)
      requires Tabled() && envelope.envelopeId !in envelopes && |envelopes| < limits.maxEnvelopes
      requires envelope.streamId in streams && streams[envelope.streamId] <= envelope.cursor
      requires bytes == identityBytes + |envelope.envelopeId| <= limits.maxIdentityBytes
      modifies this`envelopes, this`envelopeOrder, this`identityBytes, this`sources
      ensures Tabled()
      ensures Grows(EnvelopeRecord(envelope), old(OnRecord()), OnRecord()) && sources == old(sources) + [envelope]
    {
      SourceRecorded(declared, ordinal, streams, streamOrder, sources, envelopes, envelopeOrder, schedulePlans, limits, envelope);
      MapInsertKeys(envelopes, envelope.envelopeId, |sources|);
      var source := |envelopeOrder|;
      envelopes := envelopes[envelope.envelopeId := source];
      envelopeOrder := envelopeOrder + [envelope.envelopeId];
      identityBytes := bytes;
      sources := sources + [envelope];
    }

    method PushSchedule(schedule: FaultSchedule) returns (r: Result<(), TraceError>)
      requires Tabled() && RecordValid(ScheduleRecord(schedule), limits)
      modifies this`schedules, this`schedulePlans, this`faultActions, this`identityBytes, this`scheduleWork
      ensures Tabled()
      ensures var plan := PlanOf(envelopes, |sources|, StartPlan(|sources|), schedule.actions);
              && (r.Ok? <==>
                    && old(ScheduleFits(schedule)) && plan.Some?
                    && |sources| + FaultCopies(schedule.actions) <= limits.maxOccurrences
                    && old(scheduleWork) + |sources| + FaultCopies(schedule.actions) <= limits.maxScheduleWork)
              && (r.Ok? ==>
                    && schedulePlans == old(schedulePlans) + [SchedulePlan(schedule.scheduleId, |declared|, |sources|, plan.value)]
                    && schedules == old(schedules) + {schedule.scheduleId}
                    && faultActions == old(faultActions) + |schedule.actions|
                    && identityBytes == old(identityBytes) + |schedule.scheduleId|
                    && scheduleWork == old(scheduleWork) + |sources| + FaultCopies(schedule.actions))
      ensures r.Ok? ==> Grows(ScheduleRecord(schedule), old(OnRecord()), OnRecord())
      ensures r.Ok? ==> PlanSays(ScheduleRecord(schedule), sources, schedulePlans)
      ensures r.Err? ==> schedulePlans == old(schedulePlans)
    {
      var admitted := AdmitSchedule(schedule);
      if admitted.Err? {
        return Err(admitted.error);
      }
      var planned := PlanSchedule(schedule);
      if planned.Err? {
        return Err(planned.error);
      }
      var work := CheckedLimit(ScheduleWork, scheduleWork, planned.value.0, limits.maxScheduleWork);
      if work.Err? {
        return Err(work.error);
      }
      EnrolSchedule(schedule, planned.value.1, admitted.value, work.value);
      return Ok(());
    }

    method EnrolSchedule(schedule: FaultSchedule, actions: seq<PlannedAction>, totals: (nat, nat), work: nat)
      requires Tabled() && Executable(actions, |sources|, limits)
      requires totals.1 == identityBytes + |schedule.scheduleId| <= limits.maxIdentityBytes
      modifies this`schedules, this`schedulePlans, this`faultActions, this`identityBytes, this`scheduleWork
      ensures Tabled() && Grows(ScheduleRecord(schedule), old(OnRecord()), OnRecord())
      ensures schedulePlans == old(schedulePlans) + [SchedulePlan(schedule.scheduleId, |declared|, |sources|, actions)]
      ensures schedules == old(schedules) + {schedule.scheduleId}
      ensures faultActions == totals.0 && identityBytes == totals.1 && scheduleWork == work
    {
      RetainPlan(schedule.scheduleId, actions);
      CountSchedule(schedule, totals, work);
    }

    method CountSchedule(schedule: FaultSchedule, totals: (nat, nat), work: nat)
      requires totals.1 == identityBytes + |schedule.scheduleId|
      modifies this`schedules, this`faultActions, this`identityBytes, this`scheduleWork
      ensures Grows(ScheduleRecord(schedule), old(OnRecord()), OnRecord())
      ensures schedules == old(schedules) + {schedule.scheduleId}
      ensures faultActions == totals.0 && identityBytes == totals.1 && scheduleWork == work
    {
      schedules := schedules + {schedule.scheduleId};
      faultActions := totals.0;
      identityBytes := totals.1;
      scheduleWork := work;
    }

    /** The schedule is new and fits the trace-wide totals. */
    predicate ScheduleFits(schedule: FaultSchedule)
      reads this`schedules, this`faultActions, this`identityBytes
    {
      && schedule.scheduleId !in schedules
      && |schedules| + 1 <= limits.maxSchedules
      && faultActions + |schedule.actions| <= limits.maxFaultActions
      && identityBytes + |schedule.scheduleId| <= limits.maxIdentityBytes
    }

    /** Keeps an accepted plan together with the prefixes it was planned over. */
    method RetainPlan(id: string, actions: seq<PlannedAction>)
      requires Tabled() && Executable(actions, |sources|, limits)
      modifies this`schedulePlans
      ensures Tabled()
      ensures schedulePlans == old(schedulePlans) + [SchedulePlan(id, |declared|, |sources|, actions)]
    {
      var plan := SchedulePlan(id, |streamOrder|, |envelopeOrder|, actions);
      PlanRecorded(declared, ordinal, streams, streamOrder, sources, envelopes, envelopeOrder, schedulePlans, limits, id, actions);
      schedulePlans := schedulePlans + [plan];
    }

    /** The trace-wide checks before a schedule is planned: its action total and identity bytes. */
    method AdmitSchedule(schedule: FaultSchedule) returns (r: Result<(nat, nat), TraceError>)
      ensures r.Ok? <==> ScheduleFits(schedule)
      ensures r.Ok? ==> r.value == (faultActions + |schedule.actions|, identityBytes + |schedule.scheduleId|)
      ensures r.Err? ==>
        if schedule.scheduleId in schedules then r.error.DuplicateScheduleId?
        else if |schedules| + 1 > limits.maxSchedules then
          OverLimit(r.error, FaultSchedules, |schedules| + 1, limits.maxSchedules)
        else if faultActions + |schedule.actions| > limits.maxFaultActions then
          OverLimit(r.error, FaultActions, faultActions + |schedule.actions|, limits.maxFaultActions)
        else
          OverLimit(r.error, IdentityBytes, identityBytes + |schedule.scheduleId|, limits.maxIdentityBytes)
    {
      if schedule.scheduleId in schedules {
        return Err(DuplicateScheduleId);
      }
      var count := CheckedLimit(FaultSchedules, |schedules|, 1, limits.maxSchedules);
      if count.Err? {
        return Err(count.error);
      }
      var actionTotal := CheckedLimit(FaultActions, faultActions, |schedule.actions|, limits.maxFaultActions);
      if actionTotal.Err? {
        return Err(actionTotal.error);
      }
      var bytes := CheckedLimit(IdentityBytes, identityBytes, |schedule.scheduleId|, limits.maxIdentityBytes);
      if bytes.Err? {
        return Err(bytes.error);
      }
      return Ok((actionTotal.value, bytes.value));
    }

    /**
     Resolves every action to numbers, tracking created and removed occurrences.
     Succeeds exactly when each action is acceptable in turn and the totals fit.
     */
    method PlanSchedule(schedule: FaultSchedule) returns (r: Result<(nat, seq<PlannedAction>), TraceError>)
      requires Tabled() && RecordValid(ScheduleRecord(schedule), limits)
      ensures r.Ok? <==>
        && PlanOf(envelopes, |sources|, StartPlan(|sources|), schedule.actions).Some?
        && |sources| + FaultCopies(schedule.actions) <= limits.maxOccurrences
        && (HasDuplicate(schedule.actions) ==>
              scheduleWork + |sources| + FaultCopies(schedule.actions) <= limits.maxScheduleWork)
      ensures r.Ok? ==> r.value.0 == |sources| + FaultCopies(schedule.actions)
      ensures r.Ok? ==> PlanOf(envelopes, |sources|, StartPlan(|sources|), schedule.actions) == Some(r.value.1)
      ensures r.Ok? ==> Executable(r.value.1, |sources|, limits)
      ensures r.Ok? ==> Follows(sources, schedule.actions, r.value.1)
      ensures r.Err? ==>
        || (forall planned :: !Follows(sources, schedule.actions, planned))
        || |sources| + FaultCopies(schedule.actions) > limits.maxOccurrences
        || (HasDuplicate(schedule.actions) && scheduleWork + |sources| + FaultCopies(schedule.actions) > limits.maxScheduleWork)
    {
      PlanIsFollowed(sources, envelopes, envelopeOrder, schedule.actions);
      r := PlanInTurn(schedule);
    }

    /** Plans the actions one after another, from the untouched prefix on. */
    method PlanInTurn(schedule: FaultSchedule) returns (r: Result<(nat, seq<PlannedAction>), TraceError>)
      requires Tabled() && RecordValid(ScheduleRecord(schedule), limits)
      ensures r.Ok? <==>
        && PlanOf(envelopes, |sources|, StartPlan(|sources|), schedule.actions).Some?
        && |sources| + FaultCopies(schedule.actions) <= limits.maxOccurrences
        && (HasDuplicate(schedule.actions) ==>
              scheduleWork + |sources| + FaultCopies(schedule.actions) <= limits.maxScheduleWork)
      ensures r.Ok? ==> r.value.0 == |sources| + FaultCopies(schedule.actions)
      ensures r.Ok? ==> PlanOf(envelopes, |sources|, StartPlan(|sources|), schedule.actions) == Some(r.value.1)
      ensures r.Ok? ==> Executable(r.value.1, |sources|, limits)
    {
      var prefix := |envelopes|;
      var start := CheckedLimit(ScheduleOccurrences, 0, prefix, limits.maxOccurrences);
      if start.Err? {
        return Err(start.error);
      }
      var plan := StartPlan(start.value);
      var work: nat := prefix;
      var actions: seq<PlannedAction> := [];
      ghost var goal := PlanOf(envelopes, prefix, plan, schedule.actions);
      assert schedule.actions[0..] == schedule.actions;
      PlanBegins(goal);
      for i := 0 to |schedule.actions|
        invariant PlannedTo(schedule.actions, i, plan, work, actions, goal)
      {
        var step := PlanNext(schedule.actions, i, plan, work, actions, goal);
        if step.Err? {
          return Err(step.error);
        }
        actions, plan, work := step.value.0, step.value.1, step.value.2;
      }
      assert schedule.actions[..|schedule.actions|] == schedule.actions;
      assert actions + [] == actions;
      PlanIsAccepted(envelopes, prefix, StartPlan(prefix), schedule.actions);
      return Ok((work, actions));
    }

    /** The first `i` actions are planned, and the whole plan is what they gave followed by what remains. */
    ghost predicate PlannedTo(actions: seq<FaultAction>, i: nat, plan: Plan, work: nat, done: seq<PlannedAction>, goal: Option<seq<PlannedAction>>)
      requires i <= |actions|
      reads this`envelopes, this`scheduleWork
    {
      && plan.occurrences == work == |envelopes| + FaultCopies(actions[..i]) <= limits.maxOccurrences
      && (HasDuplicate(actions[..i]) ==> scheduleWork + work <= limits.maxScheduleWork)
      && PlanContinues(goal, done, PlanOf(envelopes, |envelopes|, plan, actions[i..]))
    }

    /** Plans one action more, or shows that the whole cannot be planned. */
    method PlanNext(actions: seq<FaultAction>, i: nat, plan: Plan, work: nat, done: seq<PlannedAction>, ghost goal: Option<seq<PlannedAction>>)
        returns (r: Result<(seq<PlannedAction>, Plan, nat), TraceError>)
      requires Tabled() && i < |actions| && ActionValid(actions[i], limits) && PlannedTo(actions, i, plan, work, done, goal)
      ensures r.Ok? ==> PlannedTo(actions, i + 1, r.value.1, r.value.2, r.value.0, goal)
      ensures r.Err? ==>
        || goal.None? || |envelopes| + FaultCopies(actions) > limits.maxOccurrences
        || (HasDuplicate(actions) && scheduleWork + |envelopes| + FaultCopies(actions) > limits.maxScheduleWork)
    {
      PrefixStep(actions, i);
      CopiesGrow(actions, i);
      PlanStep(goal, done, envelopes, |envelopes|, plan, actions, i);
      var step := PlanAction(i, actions[i], plan, work);
      match step {
        case Err(error) => return Err(error);
        case Ok(planned) => return Ok((done + [planned.0], planned.1, planned.2));
      }
    }

    /** An error names the action, the role and the reason for which it cannot be planned. */
    predicate Blames(error: TraceError, i: nat, action: FaultAction, plan: Plan, work: nat)
      reads this`envelopes, this`scheduleWork
    {
      match error
      case FaultEnvelopeNotPrior(at, role) =>
        at == i && Plays(action, role).Some? && Plays(action, role).value.envelopeId !in envelopes
      case FaultOccurrenceNotCreated(at, role) =>
        && at == i && Plays(action, role).Some? && var ref := Plays(action, role).value;
        ref.envelopeId in envelopes && ref.occurrence >= NextOf(plan.next, envelopes[ref.envelopeId])
      case FaultOccurrenceRemoved(at, role) =>
        && at == i && Plays(action, role).Some? && var ref := Plays(action, role).value;
        ref.envelopeId in envelopes && DeliveryKey(envelopes[ref.envelopeId], ref.occurrence) in plan.removed
      case FaultOccurrenceOverflow(at) =>
        && at == i && action.FaultDuplicate? && action.target.envelopeId in envelopes
        && NextOf(plan.next, envelopes[action.target.envelopeId]) + action.copies > 65536
      case _ =>
        && action.FaultDuplicate?
        && (|| OverLimit(error, ScheduleOccurrences, plan.occurrences + action.copies, limits.maxOccurrences)
            || OverLimit(error, ScheduleWork, scheduleWork + work + action.copies, limits.maxScheduleWork))
    }

    /** Plans copies: their occurrences are the next ones of their source, and every total must allow them. */
    method PlanDuplicate(i: nat, action: FaultAction, plan: Plan, work: nat) returns (r: Result<(PlannedAction, Plan, nat), TraceError>)
      requires Tabled() && ActionValid(action, limits) && action.FaultDuplicate?
      ensures var resolved := ResolveAction(envelopes, plan, action);
              && (r.Ok? <==>
                    && resolved.Some? && Accepts(plan, |sources|, resolved.value)
                    && plan.occurrences + action.copies <= limits.maxOccurrences
                    && scheduleWork + work + action.copies <= limits.maxScheduleWork)
              && (r.Ok? ==> r.value == (resolved.value, Advance(plan, resolved.value), work + action.copies))
      ensures r.Err? ==> Blames(r.error, i, action, plan, work)
    {
      var copies := action.copies;
      var target := ResolveDelivery(i, action.target, Target, plan);
      if target.Err? {
        return Err(target.error);
      }
      var next := NextOf(plan.next, target.value.source);
      var newNext := next + copies;
      if newNext > U16_MAX + 1 || next > U16_MAX {
        return Err(FaultOccurrenceOverflow(i));
      }
      var allowed := CheckedLimit(ScheduleOccurrences, plan.occurrences, copies, limits.maxOccurrences);
      if allowed.Err? {
        return Err(allowed.error);
      }
      if work + copies > U64_MAX {
        return Err(TraceCounterOverflow);
      }
      var affordable := CheckedLimit(ScheduleWork, scheduleWork, work + copies, limits.maxScheduleWork);
      if affordable.Err? {
        return Err(affordable.error);
      }
      var grown := plan.(next := plan.next[target.value.source := newNext], occurrences := allowed.value);
      return Ok((PlannedAction.Duplicate(target.value, next, copies), grown, work + copies));
    }

    /** Plans one action: its numbers, the bookkeeping after it, and the work so far. */
    method PlanAction(i: nat, action: FaultAction, plan: Plan, work: nat) returns (r: Result<(PlannedAction, Plan, nat), TraceError>)
      requires Tabled() && ActionValid(action, limits)
      ensures var resolved := ResolveAction(envelopes, plan, action);
              var copies := if action.FaultDuplicate? then action.copies else 0;
              && (r.Ok? <==>
                    && resolved.Some? && Accepts(plan, |sources|, resolved.value)
                    && (action.FaultDuplicate? ==>
                          && plan.occurrences + copies <= limits.maxOccurrences
                          && scheduleWork + work + copies <= limits.maxScheduleWork))
              && (r.Ok? ==> r.value == (resolved.value, Advance(plan, resolved.value), work + copies))
      ensures r.Err? ==> Blames(r.error, i, action, plan, work)
    {
      match action {
        case FaultDrop(ref) =>
          var target := ResolveDelivery(i, ref, Target, plan);
          if target.Err? {
            return Err(target.error);
          }
          return Ok((Drop(target.value), plan.(removed := plan.removed + {target.value}), work));
        case FaultDuplicate(_, _) =>
          r := PlanDuplicate(i, action, plan, work);
        case FaultMoveBefore(targetRef, anchorRef) =>
          var target := ResolveDelivery(i, targetRef, Target, plan);
          if target.Err? {
            return Err(target.error);
          }
          var anchor := ResolveDelivery(i, anchorRef, Anchor, plan);
          if anchor.Err? {
            return Err(anchor.error);
          }
          assert NameAt(targetRef.envelopeId) && NameAt(anchorRef.envelopeId);
          return Ok((MoveBefore(target.value, anchor.value), plan, work));
      }
    }

    /** The key of a reference to an earlier, created and not yet dropped delivery. */
    method ResolveDelivery(
        action: nat, delivery: DeliveryRef, role: DeliveryRole, plan: Plan)
        returns (r: Result<DeliveryKey, TraceError>)
      requires Tabled()
      ensures var key := Resolve(envelopes, delivery);
              r == (if key.None? then Err(FaultEnvelopeNotPrior(action, role))
                    else if !Created(plan, key.value) then
                      Err(FaultOccurrenceNotCreated(action, role))
                    else if key.value in plan.removed then Err(FaultOccurrenceRemoved(action, role))
                    else Ok(key.value))
      ensures r.Ok? ==> r.value.source < |sources|
    {
      if delivery.envelopeId !in envelopes {
        return Err(FaultEnvelopeNotPrior(action, role));
      }
      var source := envelopes[delivery.envelopeId];
      assert NameAt(delivery.envelopeId);
      var next := NextOf(plan.next, source);
      if delivery.occurrence >= next {
        return Err(FaultOccurrenceNotCreated(action, role));
      }
      var key := DeliveryKey(source, delivery.occurrence);
      if key in plan.removed {
        return Err(FaultOccurrenceRemoved(action, role));
      }
      return Ok(key);
    }
  }

  /** What a completely validated trace hands on. */
  datatype ValidatedTracePlan = ValidatedTracePlan(
    limits: TraceLimits, streamIds: seq<string>, envelopeIds: seq<string>, schedules: seq<SchedulePlan>)

  /** The whole plan is what has been planned followed by what remains. */
  predicate PlanContinues(goal: Option<seq<PlannedAction>>, done: seq<PlannedAction>, rest: Option<seq<PlannedAction>>) {
    match rest
    case None => goal.None?
    case Some(more) => goal == Some(done + more)
  }

  lemma PlanBegins(goal: Option<seq<PlannedAction>>)
    ensures PlanContinues(goal, [], goal)
  {
    if goal.Some? {
      assert [] + goal.value == goal.value;
    }
  }

  /** Planning one more action either extends the plan or shows there is none. */
  lemma PlanStep(goal: Option<seq<PlannedAction>>, done: seq<PlannedAction>, envelopes: map<string, nat>,
                 prefix: nat, plan: Plan, actions: seq<FaultAction>, i: nat)
    requires i < |actions| && PlanContinues(goal, done, PlanOf(envelopes, prefix, plan, actions[i..]))
    ensures match ResolveAction(envelopes, plan, actions[i])
            case None => goal.None?
            case Some(first) =>
              if Accepts(plan, prefix, first) then
                PlanContinues(goal, done + [first], PlanOf(envelopes, prefix, Advance(plan, first), actions[i + 1..]))
              else goal.None?
  {
    assert actions[i..][1..] == actions[i + 1..];
    match ResolveAction(envelopes, plan, actions[i])
    case None =>
    case Some(first) =>
      match PlanOf(envelopes, prefix, Advance(plan, first), actions[i + 1..])
      case None =>
      case Some(rest) => AppendAssociates(done, [first], rest);
  }

  lemma PrefixStep(actions: seq<FaultAction>, i: nat)
    requires i < |actions|
    ensures FaultCopies(actions[..i + 1]) == FaultCopies(actions[..i]) + (if actions[i].FaultDuplicate? then actions[i].copies else 0)
    ensures HasDuplicate(actions[..i + 1]) <==> HasDuplicate(actions[..i]) || actions[i].FaultDuplicate?
    ensures actions[i..][0] == actions[i] && actions[i..][1..] == actions[i + 1..]
  {
    FaultCopiesAppend(actions[..i], [actions[i]]);
    assert actions[..i + 1] == actions[..i] + [actions[i]];
    if HasDuplicate(actions[..i]) {
      var j :| 0 <= j < i && actions[..i][j].FaultDuplicate?;
      assert actions[..i + 1][j].FaultDuplicate?;
    }
    if actions[i].FaultDuplicate? {
      assert actions[..i + 1][i].FaultDuplicate?;
    }
  }

  lemma {:induction false} FaultCopiesAppend(a: seq<FaultAction>, b: seq<FaultAction>)
    ensures FaultCopies(a + b) == FaultCopies(a) + FaultCopies(b)
    decreases a
  {
    if a == [] {
      assert a + b == b;
    } else {
      FaultCopiesAppend(a[1..], b);
      assert (a + b)[1..] == a[1..] + b;
    }
  }

  /** Copies still to come only add to the totals. */
  lemma CopiesGrow(actions: seq<FaultAction>, i: nat)
    requires i < |actions|
    ensures FaultCopies(actions) >= FaultCopies(actions[..i + 1])
    ensures HasDuplicate(actions[..i + 1]) ==> HasDuplicate(actions)
    ensures actions[i].FaultDuplicate? ==> HasDuplicate(actions)
  {
    assert actions == actions[..i + 1] + actions[i + 1..];
    FaultCopiesAppend(actions[..i + 1], actions[i + 1..]);
  }
}
