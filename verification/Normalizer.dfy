/**
 The normalization session: registers stream contracts, fingerprints each source
 envelope once under a cumulative budget, and fails closed.
 */
module Normalizer {
  import opened Prelude
  import opened Cache
  import opened StreamSpec
  import opened StreamStates
  import opened Trace

  datatype BaselineAuthority = TrustDeclaredEmpty | TreatAsUnknown

  /** The finite limits shared by validation, normalization and execution. */
  datatype SessionLimits = SessionLimits(
    trace: TraceLimits, maxLineBytes: nat, maxFingerprintBytes: u64, state: Limits)

  /** The canonical serializer: the length of its output, or nothing when it refuses. */
  type Canonicalizer = seq<Mutation> -> Option<nat>

  datatype SessionResource =
    | SessionStreams | SessionEnvelopes | SessionIdentityBytes | FingerprintBytes | CanonicalMutationBytes

  datatype NormalizeError =
    | NormalizerFailed | RecordValidation | WrongRecordKind | CounterOverflow
    | BaselineAuthorityMismatch | ConflictingStreamRegistration | DuplicateStreamScope
    | DuplicateEnvelopeRegistration | FingerprintCanonicalization
    | ResourceLimit(resource: SessionResource, maximum: nat)

  /** One immutable stream contract together with the external trust decision. */
  datatype RegisteredStream = RegisteredStream(declaration: StreamDeclaration, authority: BaselineAuthority)

  /** The recipe for fresh states of one declared stream, bound to its session. */
  datatype StreamBlueprint = StreamBlueprint(session: SessionMarker, limits: SessionLimits, registration: RegisteredStream)

  /** A trust decision that the declaration itself supports. */
  predicate Supported(stream: StreamDeclaration, authority: BaselineAuthority) {
    authority == TrustDeclaredEmpty ==> stream.emptyAtEngineStart
  }

  /** The bytes one more fingerprint may take, and which limit would stop it. */
  function HashAllowance(limits: SessionLimits, used: nat): int {
    Min(limits.maxLineBytes, limits.maxFingerprintBytes - used)
  }

  function HashResource(limits: SessionLimits, used: nat): SessionResource {
    if limits.maxFingerprintBytes - used < limits.maxLineBytes then FingerprintBytes else CanonicalMutationBytes
  }

  /** The maximum that is reported: a trace limit counts what was hashed before. */
  function HashMaximum(limits: SessionLimits, used: nat): int {
    if HashResource(limits, used) == FingerprintBytes then used + HashAllowance(limits, used) else HashAllowance(limits, used)
  }

  /** Canonical hashing of one envelope: its byte length, a refusal, or a limit. */
  function Fingerprinted(canonical: Option<nat>, limits: SessionLimits, used: nat): (r: Result<nat, NormalizeError>)
    requires used <= limits.maxFingerprintBytes
    ensures r.Ok? ==> used + r.value <= limits.maxFingerprintBytes && r.value <= limits.maxLineBytes
    ensures r.Ok? <==> canonical.Some? && canonical.value <= HashAllowance(limits, used)
    ensures r.Err? && canonical.Some? ==>
      || (r.error == ResourceLimit(FingerprintBytes, limits.maxFingerprintBytes) && used + canonical.value > limits.maxFingerprintBytes)
      || (r.error == ResourceLimit(CanonicalMutationBytes, limits.maxLineBytes) && canonical.value > limits.maxLineBytes)
  {
    match canonical
    case None => Err(FingerprintCanonicalization)
    case Some(n) =>
      if n <= HashAllowance(limits, used) then Ok(n)
      else Err(ResourceLimit(HashResource(limits, used), HashMaximum(limits, used)))
  }

  class EnvelopeNormalizer {
    const session: SessionMarker
    const limits: SessionLimits
    const canonical: Canonicalizer
    var fingerprintBytes: nat
    var streams: map<string, RegisteredStream>
    var scopes: map<Scope, string>
    var envelopeIds: set<string>
    var envelopes: nat
    var identityBytes: nat

    ghost predicate Valid()
      reads this`fingerprintBytes, this`envelopes, this`identityBytes
    {
      && fingerprintBytes <= limits.maxFingerprintBytes
      && envelopes <= limits.trace.maxEnvelopes
      && identityBytes <= limits.trace.maxIdentityBytes
    }

    constructor (id: nat, limits: SessionLimits, canonical: Canonicalizer)
      ensures Valid() && fresh(session) && session.id == id && session.status == Open
      ensures this.limits == limits && this.canonical == canonical
      ensures streams == map[] && scopes == map[] && envelopeIds == {} && envelopes == 0
      ensures identityBytes == 0 && fingerprintBytes == 0
    {
      session := new SessionMarker(id);
      this.limits := limits;
      this.canonical := canonical;
      fingerprintBytes := 0;
      streams := map[];
      scopes := map[];
      envelopeIds := {};
      envelopes := 0;
      identityBytes := 0;
    }

    /** Everything but the fingerprint that a source envelope must satisfy. */
    predicate Admissible(record: Record)
      reads this`envelopeIds, this`envelopes, this`identityBytes
    {
      && RecordValid(record, limits.trace)
      && record.EnvelopeRecord?
      && record.envelope.envelopeId !in envelopeIds
      && envelopes + 1 <= limits.trace.maxEnvelopes
      && identityBytes + |record.envelope.envelopeId| <= limits.trace.maxIdentityBytes
    }

    /** Everything that a new stream declaration must satisfy. */
    predicate Registrable(record: Record, authority: BaselineAuthority)
      reads this`streams, this`scopes, this`identityBytes
    {
      && RecordValid(record, limits.trace)
      && record.StreamRecord?
      && record.stream.streamId !in streams
      && record.stream.scope !in scopes
      && |streams| + 1 <= limits.trace.maxStreams
      && identityBytes + |record.stream.streamId| + ScopeBytes(record.stream.scope) <= limits.trace.maxIdentityBytes
      && Supported(record.stream, authority)
    }

    /** Normalizes one envelope; any failure closes the session for good. */
    method Prepare(record: Record) returns (r: Result<Envelope, NormalizeError>)
      requires Valid()
      modifies this`fingerprintBytes, this`envelopeIds, this`envelopes, this`identityBytes, session
      ensures Valid()
      ensures old(session.status) == Open && old(Admissible(record)) ==>
        match Fingerprinted(canonical(record.envelope.mutations), limits, old(fingerprintBytes))
        case Err(e) => r == Err(e)
        case Ok(n) => r == Ok(PreparedFrom(session.id, record.envelope, n))
      ensures r.Ok? ==> old(session.status) == Open && old(Admissible(record))
      ensures r.Ok? ==>
        && envelopeIds == old(envelopeIds) + {record.envelope.envelopeId}
        && envelopes == old(envelopes) + 1
        && identityBytes == old(identityBytes) + |record.envelope.envelopeId|
        && fingerprintBytes == old(fingerprintBytes) + r.value.canonicalBytes
      ensures r.Err? ==> unchanged(this)
      ensures session.status == if r.Err? && old(session.status) == Open then Failed else old(session.status)
    {
      if session.status != Open {
        return Err(NormalizeError.NormalizerFailed);
      }
      r := PrepareInner(record);
      if r.Err? {
        session.status := Failed;
      }
    }

    method PrepareInner(record: Record) returns (r: Result<Envelope, NormalizeError>)
      requires Valid()
      modifies this`fingerprintBytes, this`envelopeIds, this`envelopes, this`identityBytes
      ensures Valid()
      ensures old(Admissible(record)) ==>
        match Fingerprinted(canonical(record.envelope.mutations), limits, old(fingerprintBytes))
        case Err(e) => r == Err(e)
        case Ok(n) => r == Ok(PreparedFrom(session.id, record.envelope, n))
      ensures r.Ok? ==> old(Admissible(record))
      ensures r.Ok? ==>
        && envelopeIds == old(envelopeIds) + {record.envelope.envelopeId}
        && envelopes == old(envelopes) + 1
        && identityBytes == old(identityBytes) + |record.envelope.envelopeId|
        && fingerprintBytes == old(fingerprintBytes) + r.value.canonicalBytes
      ensures r.Err? ==> unchanged(this)
    {
      if !RecordValid(record, limits.trace) {
        return Err(RecordValidation);
      }
      if !record.EnvelopeRecord? {
        return Err(WrongRecordKind);
      }
      var envelope := record.envelope;
      if envelope.envelopeId in envelopeIds {
        return Err(DuplicateEnvelopeRegistration);
      }
      if envelopes + 1 > U64_MAX {
        return Err(CounterOverflow);
      }
      if envelopes + 1 > limits.trace.maxEnvelopes {
        return Err(ResourceLimit(SessionEnvelopes, limits.trace.maxEnvelopes));
      }
      var identity := identityBytes + |envelope.envelopeId|;
      if identity > U64_MAX {
        return Err(CounterOverflow);
      }
      if identity > limits.trace.maxIdentityBytes {
        return Err(ResourceLimit(SessionIdentityBytes, limits.trace.maxIdentityBytes));
      }
      var computed := Fingerprinted(canonical(envelope.mutations), limits, fingerprintBytes);
      if computed.Err? {
        return Err(computed.error);
      }
      if fingerprintBytes + computed.value > U64_MAX {
        return Err(CounterOverflow);
      }
      if fingerprintBytes + computed.value > limits.maxFingerprintBytes {
        return Err(ResourceLimit(FingerprintBytes, limits.maxFingerprintBytes));
      }
      fingerprintBytes := fingerprintBytes + computed.value;
      envelopes := envelopes + 1;
      identityBytes := identity;
      envelopeIds := envelopeIds + {envelope.envelopeId};
      return Ok(PreparedFrom(session.id, envelope, computed.value));
    }

    /** Registers a stream; only an unsupported trust decision leaves the session open. */
    method RegisterStream(record: Record, authority: BaselineAuthority) returns (r: Result<StreamBlueprint, NormalizeError>)
      requires Valid()
      modifies this`streams, this`scopes, this`identityBytes, session
      ensures Valid()
      ensures old(session.status) == Open && old(Registrable(record, authority)) ==>
        && r == Ok(StreamBlueprint(session, limits, RegisteredStream(record.stream, authority)))
        && streams == old(streams)[record.stream.streamId := RegisteredStream(record.stream, authority)]
        && scopes == old(scopes)[record.stream.scope := record.stream.streamId]
        && identityBytes == old(identityBytes) + |record.stream.streamId| + ScopeBytes(record.stream.scope)
      ensures r == Err(BaselineAuthorityMismatch) <==>
        && old(session.status) == Open && RecordValid(record, limits.trace)
        && record.StreamRecord? && !Supported(record.stream, authority)
      ensures r.Ok? ==> old(session.status) == Open && record.StreamRecord? && Supported(record.stream, authority)
      ensures r.Err? ==> streams == old(streams) && scopes == old(scopes) && identityBytes == old(identityBytes)
      ensures session.status ==
        if r.Err? && old(session.status) == Open && r.error != BaselineAuthorityMismatch then Failed else old(session.status)
    {
      if session.status != Open {
        return Err(NormalizeError.NormalizerFailed);
      }
      if !RecordValid(record, limits.trace) {
        session.status := Failed;
        return Err(RecordValidation);
      }
      if !record.StreamRecord? {
        session.status := Failed;
        return Err(WrongRecordKind);
      }
      if authority == TrustDeclaredEmpty && !record.stream.emptyAtEngineStart {
        return Err(BaselineAuthorityMismatch);
      }
      var bound := BindStream(record.stream, authority);
      if bound.Err? {
        session.status := Failed;
        return Err(bound.error);
      }
      return Ok(StreamBlueprint(session, limits, bound.value));
    }

    method BindStream(stream: StreamDeclaration, authority: BaselineAuthority) returns (r: Result<RegisteredStream, NormalizeError>)
      requires Valid()
      modifies this`streams, this`scopes, this`identityBytes
      ensures Valid()
      ensures old(stream.streamId in streams) ==>
        unchanged(this) && (r.Ok? <==> old(streams)[stream.streamId] == RegisteredStream(stream, authority))
      ensures old(stream.streamId !in streams) ==>
        (r.Ok? <==>
          && stream.scope !in old(scopes)
          && |old(streams)| + 1 <= limits.trace.maxStreams
          && old(identityBytes) + |stream.streamId| + ScopeBytes(stream.scope) <= limits.trace.maxIdentityBytes)
      ensures r.Ok? ==> r.value == RegisteredStream(stream, authority)
      ensures r.Ok? && old(stream.streamId !in streams) ==>
        && streams == old(streams)[stream.streamId := r.value]
        && scopes == old(scopes)[stream.scope := stream.streamId]
        && identityBytes == old(identityBytes) + |stream.streamId| + ScopeBytes(stream.scope)
      ensures r.Err? ==> unchanged(this) && r.error != BaselineAuthorityMismatch
    {
      var registration := RegisteredStream(stream, authority);
      if stream.streamId in streams {
        return if streams[stream.streamId] == registration then Ok(registration) else Err(ConflictingStreamRegistration);
      }
      if stream.scope in scopes {
        return Err(DuplicateStreamScope);
      }
      if |streams| + 1 > limits.trace.maxStreams {
        return Err(ResourceLimit(SessionStreams, limits.trace.maxStreams));
      }
      var identity := identityBytes + |stream.streamId| + ScopeBytes(stream.scope);
      if identity > U64_MAX {
        return Err(CounterOverflow);
      }
      if identity > limits.trace.maxIdentityBytes {
        return Err(ResourceLimit(SessionIdentityBytes, limits.trace.maxIdentityBytes));
      }
      streams := streams[stream.streamId := registration];
      scopes := scopes[stream.scope := stream.streamId];
      identityBytes := identity;
      return Ok(registration);
    }

    /** Closes a session that never failed. */
    method Seal() returns (r: Result<SessionMarker, NormalizeError>)
      modifies session
      ensures old(session.status) == Open ==> r == Ok(session) && session.status == Sealed
      ensures old(session.status) != Open ==> r == Err(NormalizeError.NormalizerFailed) && session.status == old(session.status)
    {
      if session.status != Open {
        return Err(NormalizeError.NormalizerFailed);
      }
      session.status := Sealed;
      return Ok(session);
    }
  }

  function PreparedFrom(session: nat, envelope: SourceEnvelope, canonicalBytes: u64): Envelope {
    Envelope(session, envelope.envelopeId, envelope.streamId, envelope.cursor, envelope.mutations, canonicalBytes)
  }
}
