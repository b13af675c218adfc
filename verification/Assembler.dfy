/**
 The assembler feeds every accepted record to the structural validator and to
 the normalizer, and binds their results into one sealed trace. The two layers
 stay in step, so binding them cannot fail.
 */
module Assembler {
  import opened Prelude
  import opened StreamSpec
  import opened StreamStates
  import opened Trace
  import opened Normalizer

  datatype AssembleError =
    | AssemblerFailed | BaselineAuthorityRequired | UnexpectedBaselineAuthority | AssemblyInvariant
    | TraceFailure(trace: TraceError)
    | NormalizationFailure(cause: NormalizeError)

  // ---------------------------------------------------------- sealed trace

  /** The only executable form of a trace: everything bound, nothing to be added. */
  datatype SealedTrace = SealedTrace(
    session: SessionMarker, limits: SessionLimits, canonical: Canonicalizer, streams: seq<StreamBlueprint>,
    sources: seq<Envelope>, sourceStreams: seq<nat>, schedules: seq<SchedulePlan>)
  {
    ghost predicate StreamBound(i: nat)
      requires i < |streams|
    {
      && streams[i].session == session && streams[i].limits == limits
      && Supported(streams[i].registration.declaration, streams[i].registration.authority)
    }

    /** A source belongs to this session and to the stream its route names. */
    ghost predicate SourceBound(j: nat)
      requires j < |sources| == |sourceStreams|
    {
      && sourceStreams[j] < |streams|
      && sources[j].streamId == NameOf(streams[sourceStreams[j]])
      && sources[j].session == session.id
      && canonical(sources[j].mutations) == Some(sources[j].canonicalBytes)
      && streams[sourceStreams[j]].registration.declaration.initialCursor <= sources[j].cursor
    }

    /** A schedule that stays inside its prefixes and whose actions can all be carried out. */
    ghost predicate Runnable(plan: SchedulePlan)
      requires |sources| == |sourceStreams|
    {
      && plan.streamPrefixLen <= |streams| && plan.prefixLen <= |sources|
      && Executable(plan.actions, plan.prefixLen, limits.trace)
      && (forall j {:trigger SourceAt(j)} :: SourceAt(j) && 0 <= j < plan.prefixLen ==> sourceStreams[j] < plan.streamPrefixLen)
    }

    ghost predicate Bound() {
      && |sourceStreams| == |sources|
      && (forall i {:trigger StreamAt(i)} :: StreamAt(i) && 0 <= i < |streams| ==> StreamBound(i))
      && (forall j {:trigger SourceAt(j)} :: SourceAt(j) && 0 <= j < |sources| ==> SourceBound(j))
      && (forall k {:trigger PlanAt(k)} :: PlanAt(k) && 0 <= k < |schedules| ==> Runnable(schedules[k]))
    }
  }

  // -------------------------------------------------------------- lockstep

  /** The blueprints were made from the accepted declarations, in order. */
  ghost predicate Blueprinted(streams: seq<StreamBlueprint>, declared: seq<StreamDeclaration>, session: SessionMarker, limits: SessionLimits) {
    && |streams| == |declared|
    && (forall i {:trigger StreamAt(i)} :: StreamAt(i) && 0 <= i < |streams| ==>
          && streams[i].session == session && streams[i].limits == limits
          && streams[i].registration.declaration == declared[i]
          && Supported(declared[i], streams[i].registration.authority))
  }

  /** The prepared envelopes are the accepted ones, in order. */
  ghost predicate Prepared(prepared: seq<Envelope>, sources: seq<SourceEnvelope>, session: nat, canonical: Canonicalizer) {
    && |prepared| == |sources|
    && (forall j {:trigger SourceAt(j)} :: SourceAt(j) && 0 <= j < |prepared| ==>
          && prepared[j] == PreparedFrom(session, sources[j], prepared[j].canonicalBytes)
          && canonical(prepared[j].mutations) == Some(prepared[j].canonicalBytes))
  }

  /** Neither layer knows a name or scope that the other does not. */
  ghost predicate SameTables(tables: Tables, streams: map<string, RegisteredStream>, scopes: map<Scope, string>, envelopeIds: set<string>, identityBytes: nat) {
    && streams.Keys == tables.streams
    && scopes.Keys == tables.scopes
    && envelopeIds == tables.envelopes
    && identityBytes <= tables.bytes
  }

  /** The blueprint of a declaration under the trust decision that came with it. */
  function BlueprintsBy(record: Record, authority: Option<BaselineAuthority>, session: SessionMarker, limits: SessionLimits): seq<StreamBlueprint> {
    if record.StreamRecord? && authority.Some? then [StreamBlueprint(session, limits, RegisteredStream(record.stream, authority.value))] else []
  }

  /** A prepared envelope is the source envelope, field by field, in its session. */
  predicate Carries(source: SourceEnvelope, prepared: Envelope, session: nat) {
    && prepared.session == session && prepared.envelopeId == source.envelopeId && prepared.streamId == source.streamId
    && prepared.cursor == source.cursor && prepared.mutations == source.mutations
  }

  /** What a sealed trace holds are the accepted declarations and envelopes, in order. */
  ghost predicate HoldsAccepted(sealed: SealedTrace, declared: seq<StreamDeclaration>, carried: seq<SourceEnvelope>) {
    && |sealed.streams| == |declared| && |sealed.sources| == |carried|
    && (forall i :: 0 <= i < |declared| ==> sealed.streams[i].registration.declaration == declared[i])
    && (forall j :: 0 <= j < |carried| ==> Carries(carried[j], sealed.sources[j], sealed.session.id))
  }

  lemma AcceptedIsHeld(sealed: SealedTrace, declared: seq<StreamDeclaration>, carried: seq<SourceEnvelope>)
    requires Blueprinted(sealed.streams, declared, sealed.session, sealed.limits)
    requires Prepared(sealed.sources, carried, sealed.session.id, sealed.canonical)
    ensures HoldsAccepted(sealed, declared, carried)
  {
    forall i | 0 <= i < |declared| ensures sealed.streams[i].registration.declaration == declared[i] {
      assert StreamAt(i);
    }
    forall j | 0 <= j < |carried| ensures Carries(carried[j], sealed.sources[j], sealed.session.id) {
      assert SourceAt(j);
    }
  }

  // --------------------------------------------------------------- binding

  function NameOf(blueprint: StreamBlueprint): string { blueprint.registration.declaration.streamId }

  predicate StreamsMatch(ids: seq<string>, streams: seq<StreamBlueprint>, session: SessionMarker) {
    && |ids| == |streams|
    && (forall i :: 0 <= i < |streams| ==> ids[i] == NameOf(streams[i]) && streams[i].session == session)
  }

  predicate SourcesMatch(ids: seq<string>, sources: seq<Envelope>, session: SessionMarker) {
    && |ids| == |sources|
    && (forall j :: 0 <= j < |sources| ==> ids[j] == sources[j].envelopeId && sources[j].session == session.id)
  }

  predicate Named(streams: seq<StreamBlueprint>, id: string) {
    exists i :: 0 <= i < |streams| && NameOf(streams[i]) == id
  }

  /** The ordinal of every stream name. */
  method Ordinals(streams: seq<StreamBlueprint>) returns (ordinals: map<string, nat>)
    ensures forall id :: id in ordinals <==> Named(streams, id)
    ensures forall id :: id in ordinals ==> ordinals[id] < |streams| && NameOf(streams[ordinals[id]]) == id
  {
    ordinals := map[];
    for i := 0 to |streams|
      invariant forall id :: id in ordinals ==> ordinals[id] < i && NameOf(streams[ordinals[id]]) == id
      invariant forall k :: 0 <= k < i ==> NameOf(streams[k]) in ordinals
    {
      ordinals := ordinals[NameOf(streams[i]) := i];
    }
    forall id ensures id in ordinals <==> Named(streams, id) {
      if Named(streams, id) {
        var i :| 0 <= i < |streams| && NameOf(streams[i]) == id;
      }
    }
  }

  /** Every source's route, or nothing when some source names no stream. */
  method Routes(streams: seq<StreamBlueprint>, sources: seq<Envelope>) returns (routes: Option<seq<nat>>)
    ensures routes.Some? <==> forall j :: 0 <= j < |sources| ==> Named(streams, sources[j].streamId)
    ensures routes.Some? ==> |routes.value| == |sources|
    ensures routes.Some? ==> forall j :: 0 <= j < |sources| ==>
              routes.value[j] < |streams| && NameOf(streams[routes.value[j]]) == sources[j].streamId
  {
    var ordinals := Ordinals(streams);
    var found: seq<nat> := [];
    for j := 0 to |sources|
      invariant |found| == j
      invariant forall k :: 0 <= k < j ==> sources[k].streamId in ordinals && found[k] == ordinals[sources[k].streamId]
    {
      if sources[j].streamId !in ordinals {
        return None;
      }
      found := found + [ordinals[sources[j].streamId]];
    }
    return Some(found);
  }

  /** Binds the validated plan to the prepared material; succeeds exactly when they belong together. */
  method BindOwned(plan: ValidatedTracePlan, session: SessionMarker, limits: SessionLimits, canonical: Canonicalizer,
      streams: seq<StreamBlueprint>, sources: seq<Envelope>)
      returns (r: Result<SealedTrace, AssembleError>)
    ensures r.Ok? <==>
      && plan.limits == limits.trace
      && StreamsMatch(plan.streamIds, streams, session) && SourcesMatch(plan.envelopeIds, sources, session)
      && (forall j :: 0 <= j < |sources| ==> Named(streams, sources[j].streamId))
    ensures r.Err? ==> r == Err(AssemblyInvariant)
    ensures r.Ok? ==>
      && r.value == SealedTrace(session, limits, canonical, streams, sources, r.value.sourceStreams, plan.schedules)
      && |r.value.sourceStreams| == |sources|
      && (forall j :: 0 <= j < |sources| ==>
            r.value.sourceStreams[j] < |streams| && NameOf(streams[r.value.sourceStreams[j]]) == sources[j].streamId)
  {
    if plan.limits != limits.trace || !StreamsMatch(plan.streamIds, streams, session)
       || !SourcesMatch(plan.envelopeIds, sources, session) {
      return Err(AssemblyInvariant);
    }
    var routes := Routes(streams, sources);
    if routes.None? {
      return Err(AssemblyInvariant);
    }
    return Ok(SealedTrace(session, limits, canonical, streams, sources, routes.value, plan.schedules));
  }

  /** What the two layers hold at the end always belongs together. */
  lemma LayersMatch(
      ds: seq<StreamDeclaration>, ordinal: map<string, nat>, names: map<string, u64>, streamOrder: seq<string>,
      carried: seq<SourceEnvelope>, envelopes: map<string, nat>, envelopeOrder: seq<string>,
      plans: seq<SchedulePlan>, limits: SessionLimits,
      streams: seq<StreamBlueprint>, sources: seq<Envelope>, session: SessionMarker, canonical: Canonicalizer)
    requires Recorded(ds, ordinal, names, streamOrder, carried, envelopes, envelopeOrder, plans, limits.trace)
    requires Blueprinted(streams, ds, session, limits) && Prepared(sources, carried, session.id, canonical)
    ensures StreamsMatch(streamOrder, streams, session) && SourcesMatch(envelopeOrder, sources, session)
    ensures forall j :: 0 <= j < |sources| ==> Named(streams, sources[j].streamId)
  {
    forall i | 0 <= i < |streams| ensures streamOrder[i] == NameOf(streams[i]) && streams[i].session == session {
      assert StreamAt(i);
    }
    forall j | 0 <= j < |sources|
      ensures envelopeOrder[j] == sources[j].envelopeId && sources[j].session == session.id && Named(streams, sources[j].streamId)
    {
      assert SourceAt(j) && NameAt(carried[j].streamId) && StreamAt(ordinal[carried[j].streamId]);
      assert NameOf(streams[ordinal[carried[j].streamId]]) == sources[j].streamId;
    }
  }

  /** And once routed, it is a sound sealed trace. */
  lemma SealedIsBound(
      ds: seq<StreamDeclaration>, ordinal: map<string, nat>, names: map<string, u64>, streamOrder: seq<string>,
      carried: seq<SourceEnvelope>, envelopes: map<string, nat>, envelopeOrder: seq<string>,
      limits: SessionLimits, sealed: SealedTrace)
    requires Recorded(ds, ordinal, names, streamOrder, carried, envelopes, envelopeOrder, sealed.schedules, limits.trace)
    requires sealed.limits == limits && Blueprinted(sealed.streams, ds, sealed.session, limits)
    requires Prepared(sealed.sources, carried, sealed.session.id, sealed.canonical) && |sealed.sourceStreams| == |sealed.sources|
    requires forall j :: 0 <= j < |sealed.sources| ==>
      sealed.sourceStreams[j] < |sealed.streams| && NameOf(sealed.streams[sealed.sourceStreams[j]]) == sealed.sources[j].streamId
    ensures sealed.Bound()
  {
    forall j {:trigger SourceAt(j)} | SourceAt(j) && 0 <= j < |sealed.sources|
      ensures sealed.SourceBound(j) && sealed.sourceStreams[j] == ordinal[carried[j].streamId]
    {
      assert StreamAt(sealed.sourceStreams[j]) && NameAt(carried[j].streamId);
    }
    forall k {:trigger PlanAt(k)} | PlanAt(k) && 0 <= k < |sealed.schedules| ensures sealed.Runnable(sealed.schedules[k]) {
      assert PlanValid(sealed.schedules[k], |ds|, ordinal, carried, limits.trace);
    }
  }

  class TraceAssembler {
    const validator: TraceValidator
    const normalizer: EnvelopeNormalizer
    var streams: seq<StreamBlueprint>
    var sources: seq<Envelope>
    var failed: bool

    ghost predicate InStep()
      reads this, validator, normalizer, normalizer.session
    {
      && normalizer.session.status == Open
      && !validator.failed
      && SameTables(validator.OnRecord(), normalizer.streams, normalizer.scopes, normalizer.envelopeIds, normalizer.identityBytes)
      && normalizer.envelopes == |validator.sources|
      && Blueprinted(streams, validator.declared, normalizer.session, normalizer.limits)
      && Prepared(sources, validator.sources, normalizer.session.id, normalizer.canonical)
    }

    ghost predicate Valid()
      reads this, validator, normalizer, normalizer.session
    {
      && validator.limits == normalizer.limits.trace
      && validator.Valid() && normalizer.Valid()
      && (!failed ==> InStep())
    }

    constructor (id: nat, limits: SessionLimits, canonical: Canonicalizer)
      ensures Valid() && !failed && fresh(validator) && fresh(normalizer) && fresh(normalizer.session)
      ensures normalizer.session.id == id && normalizer.limits == limits && normalizer.canonical == canonical
      ensures streams == [] && sources == [] && validator.schedulePlans == [] && validator.records == 0
    {
      validator := new TraceValidator(limits.trace);
      normalizer := new EnvelopeNormalizer(id, limits, canonical);
      streams := [];
      sources := [];
      failed := false;
    }

    /** A trust decision accompanies exactly the stream declarations. */
    predicate Authorized(record: Record, authority: Option<BaselineAuthority>) {
      authority.Some? <==> record.StreamRecord?
    }

    /**
     Passes one record to both layers. Once the validator has accepted it, the
     normalizer can refuse only an unsupported trust decision or a fingerprint
     that does not fit.
     */
    method Push(record: Record, authority: Option<BaselineAuthority>) returns (r: Result<(), AssembleError>)
      requires Valid()
      modifies this, validator, normalizer, normalizer.session
      ensures Valid()
      ensures old(failed) ==> r == Err(AssemblerFailed)
      ensures failed == (old(failed) || r.Err?)
      ensures r.Err? && r.error.NormalizationFailure? ==> Refused(record, authority, r.error.cause, old(normalizer.fingerprintBytes))
      ensures r != Err(AssemblyInvariant)
      ensures r.Ok? ==>
        && Authorized(record, authority)
        && validator.declared == old(validator.declared) + DeclaredBy(record)
        && validator.sources == old(validator.sources) + CarriedBy(record)
        && validator.schedulePlans ==
             old(validator.schedulePlans + PlannedBy(record, validator.envelopes, |validator.declared|, |validator.sources|))
        && |validator.schedulePlans| == old(|validator.schedulePlans|) + (if record.ScheduleRecord? then 1 else 0)
        && PlanSays(record, old(validator.sources), validator.schedulePlans)
        && validator.records == old(validator.records) + 1
        && streams == old(streams) + BlueprintsBy(record, authority, normalizer.session, normalizer.limits)
    {
      if failed {
        return Err(AssemblerFailed);
      }
      r := PushInner(record, authority);
      if r.Err? {
        failed := true;
      }
    }

    /**
     Ends the trace. It fails only after an earlier failure or on an empty
     trace: the two layers always fit together.
     */
    method FinishTrace() returns (r: Result<SealedTrace, AssembleError>)
      requires Valid()
      modifies normalizer.session
      ensures r.Ok? <==> !failed && validator.records > 0
      ensures r.Err? ==> r.error == if failed then AssemblerFailed else TraceFailure(MissingHeader)
      ensures r.Ok? ==>
        && r.value.Bound() && r.value.session.status == Sealed
        && r.value == SealedTrace(normalizer.session, normalizer.limits, normalizer.canonical, streams, sources, r.value.sourceStreams, validator.schedulePlans)
        && HoldsAccepted(r.value, validator.declared, validator.sources)
    {
      if failed {
        return Err(AssemblerFailed);
      }
      var plan := validator.FinishPlanned();
      if plan.Err? {
        return Err(TraceFailure(plan.error));
      }
      var sealed := normalizer.Seal();
      match sealed {
        case Err(cause) => return Err(NormalizationFailure(cause));
        case Ok(_) =>
      }
      LayersMatch(validator.declared, validator.ordinal, validator.streams, validator.streamOrder, validator.sources,
                  validator.envelopes, validator.envelopeOrder, validator.schedulePlans, normalizer.limits,
                  streams, sources, normalizer.session, normalizer.canonical);
      r := BindOwned(plan.value, sealed.value, normalizer.limits, normalizer.canonical, streams, sources);
      SealedIsBound(validator.declared, validator.ordinal, validator.streams, validator.streamOrder, validator.sources,
                    validator.envelopes, validator.envelopeOrder, normalizer.limits, r.value);
      AcceptedIsHeld(r.value, validator.declared, validator.sources);
    }

    /** The only reasons the normalizer has left after the validator accepted a record. */
    predicate Refused(record: Record, authority: Option<BaselineAuthority>, cause: NormalizeError, used: nat) {
      match record
      case StreamRecord(stream) =>
        cause == BaselineAuthorityMismatch && authority.Some? && !Supported(stream, authority.value)
      case EnvelopeRecord(envelope) =>
        used <= normalizer.limits.maxFingerprintBytes && Fingerprinted(normalizer.canonical(envelope.mutations), normalizer.limits, used) == Err(cause)
      case _ => false
    }

    method PushInner(record: Record, authority: Option<BaselineAuthority>) returns (r: Result<(), AssembleError>)
      requires Valid() && !failed
      modifies this`streams, this`sources, validator, normalizer, normalizer.session
      ensures validator.limits == normalizer.limits.trace && validator.Valid() && normalizer.Valid()
      ensures r.Ok? ==> InStep()
      ensures r.Err? && r.error.NormalizationFailure? ==> Refused(record, authority, r.error.cause, old(normalizer.fingerprintBytes))
      ensures r != Err(AssemblyInvariant)
      ensures r.Ok? ==>
        && Authorized(record, authority)
        && validator.declared == old(validator.declared) + DeclaredBy(record)
        && validator.sources == old(validator.sources) + CarriedBy(record)
        && validator.schedulePlans ==
             old(validator.schedulePlans + PlannedBy(record, validator.envelopes, |validator.declared|, |validator.sources|))
        && |validator.schedulePlans| == old(|validator.schedulePlans|) + (if record.ScheduleRecord? then 1 else 0)
        && PlanSays(record, old(validator.sources), validator.schedulePlans)
        && validator.records == old(validator.records) + 1
        && streams == old(streams) + BlueprintsBy(record, authority, normalizer.session, normalizer.limits)
    {
      if record.StreamRecord? && authority.None? {
        return Err(BaselineAuthorityRequired);
      }
      if !record.StreamRecord? && authority.Some? {
        return Err(UnexpectedBaselineAuthority);
      }
      ghost var before, declared, carried := validator.OnRecord(), validator.declared, validator.sources;
      var accepted := validator.Push(record);
      if accepted.Err? {
        return Err(TraceFailure(accepted.error));
      }
      r := Forward(record, authority, before, declared, carried);
    }

    /** Hands an accepted record to the normalizer, if it carries anything for it. */
    method Forward(record: Record, authority: Option<BaselineAuthority>,
        ghost before: Tables, ghost declared: seq<StreamDeclaration>, ghost carried: seq<SourceEnvelope>)
        returns (r: Result<(), AssembleError>)
      requires Authorized(record, authority) && RecordValid(record, normalizer.limits.trace) && normalizer.Valid()
      requires normalizer.session.status == Open
      requires SameTables(before, normalizer.streams, normalizer.scopes, normalizer.envelopeIds, normalizer.identityBytes)
      requires Grows(record, before, validator.OnRecord()) && validator.OnRecord().bytes <= normalizer.limits.trace.maxIdentityBytes
      requires record.StreamRecord? ==> |before.streams| < normalizer.limits.trace.maxStreams
      requires record.EnvelopeRecord? ==> |carried| < normalizer.limits.trace.maxEnvelopes
      requires Blueprinted(streams, declared, normalizer.session, normalizer.limits)
      requires normalizer.envelopes == |carried| && Prepared(sources, carried, normalizer.session.id, normalizer.canonical)
      modifies this`streams, this`sources, normalizer, normalizer.session
      ensures normalizer.Valid()
      ensures r.Err? ==> r.error.NormalizationFailure? && Refused(record, authority, r.error.cause, old(normalizer.fingerprintBytes))
      ensures r.Ok? ==>
        && normalizer.session.status == Open
        && SameTables(validator.OnRecord(), normalizer.streams, normalizer.scopes, normalizer.envelopeIds, normalizer.identityBytes)
        && Blueprinted(streams, declared + DeclaredBy(record), normalizer.session, normalizer.limits)
        && normalizer.envelopes == |carried + CarriedBy(record)|
        && streams == old(streams) + BlueprintsBy(record, authority, normalizer.session, normalizer.limits)
        && Prepared(sources, carried + CarriedBy(record), normalizer.session.id, normalizer.canonical)
    {
      assert declared + [] == declared && carried + [] == carried && streams + [] == streams;
      match record {
        case StreamRecord(_) => r := Register(record, authority.value, before, declared);
        case EnvelopeRecord(_) => r := Normalize(record, before, carried);
        case _ => r := Ok(());
      }
    }

    /** Registers a stream that the validator has just accepted. */
    method Register(record: Record, authority: BaselineAuthority, ghost before: Tables, ghost declared: seq<StreamDeclaration>)
        returns (r: Result<(), AssembleError>)
      requires record.StreamRecord? && RecordValid(record, normalizer.limits.trace) && normalizer.Valid()
      requires normalizer.session.status == Open
      requires SameTables(before, normalizer.streams, normalizer.scopes, normalizer.envelopeIds, normalizer.identityBytes)
      requires Grows(record, before, validator.OnRecord()) && validator.OnRecord().bytes <= normalizer.limits.trace.maxIdentityBytes
      requires |before.streams| < normalizer.limits.trace.maxStreams
      requires Blueprinted(streams, declared, normalizer.session, normalizer.limits)
      modifies this`streams, normalizer`streams, normalizer`scopes, normalizer`identityBytes, normalizer.session
      ensures normalizer.Valid()
      ensures r.Err? ==> r == Err(NormalizationFailure(BaselineAuthorityMismatch)) && !Supported(record.stream, authority)
      ensures r.Ok? ==>
        && normalizer.session.status == Open
        && SameTables(validator.OnRecord(), normalizer.streams, normalizer.scopes, normalizer.envelopeIds, normalizer.identityBytes)
        && Blueprinted(streams, declared + [record.stream], normalizer.session, normalizer.limits)
        && streams == old(streams) + [StreamBlueprint(normalizer.session, normalizer.limits, RegisteredStream(record.stream, authority))]
    {
      MapInsertKeys(normalizer.streams, record.stream.streamId, RegisteredStream(record.stream, authority));
      MapInsertKeys(normalizer.scopes, record.stream.scope, record.stream.streamId);
      var blueprint := normalizer.RegisterStream(record, authority);
      if blueprint.Err? {
        return Err(NormalizationFailure(blueprint.error));
      }
      streams := streams + [blueprint.value];
      return Ok(());
    }

    /** Normalizes an envelope that the validator has just accepted. */
    method Normalize(record: Record, ghost before: Tables, ghost carried: seq<SourceEnvelope>)
        returns (r: Result<(), AssembleError>)
      requires record.EnvelopeRecord? && RecordValid(record, normalizer.limits.trace) && normalizer.Valid()
      requires normalizer.session.status == Open
      requires SameTables(before, normalizer.streams, normalizer.scopes, normalizer.envelopeIds, normalizer.identityBytes)
      requires Grows(record, before, validator.OnRecord()) && validator.OnRecord().bytes <= normalizer.limits.trace.maxIdentityBytes
      requires normalizer.envelopes == |carried| < normalizer.limits.trace.maxEnvelopes
      requires Prepared(sources, carried, normalizer.session.id, normalizer.canonical)
      modifies this`sources, normalizer`fingerprintBytes, normalizer`envelopeIds, normalizer`envelopes, normalizer`identityBytes, normalizer.session
      ensures normalizer.Valid()
      ensures r.Err? ==>
        r.error.NormalizationFailure? &&
        Fingerprinted(normalizer.canonical(record.envelope.mutations), normalizer.limits, old(normalizer.fingerprintBytes)) == Err(r.error.cause)
      ensures r.Ok? ==>
        && normalizer.session.status == Open
        && SameTables(validator.OnRecord(), normalizer.streams, normalizer.scopes, normalizer.envelopeIds, normalizer.identityBytes)
        && normalizer.envelopes == |carried| + 1
        && Prepared(sources, carried + [record.envelope], normalizer.session.id, normalizer.canonical)
    {
      var source := normalizer.Prepare(record);
      if source.Err? {
        return Err(NormalizationFailure(source.error));
      }
      sources := sources + [source.value];
      return Ok(());
    }
  }
}
