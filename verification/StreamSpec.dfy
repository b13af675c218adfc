/**
 Meaning of one publisher stream: its state as a plain value and the
 transition that one delivery causes. Everything the running state stores only
 to save work (certainty, poison ceiling, byte totals) is a function here.
 */
module StreamSpec {
  import opened Prelude
  import opened Cache

  // -------------------------------------------------------------- inputs

  datatype Limits = Limits(
    maxRecent: nat, maxPending: nat, maxPendingBytes: u64, maxGapSpan: u64,
    maxDiagnostic: u64, cache: CacheLimits)

  /** A digest that identifies its input: equal exactly for equal mutations. */
  datatype Fingerprint = Fingerprint(preimage: seq<Mutation>)

  /** One source envelope after normalization. */
  datatype Envelope = Envelope(
    session: nat, envelopeId: string, streamId: string, cursor: u64,
    mutations: seq<Mutation>, canonicalBytes: u64)
  {
    function Print(): Fingerprint { Fingerprint(mutations) }

    function FirstClear(): Option<nat> { ClearPosition(mutations, 0) }

    predicate HasClear() { FirstClear().Some? }
  }

  /** Position of the first clear at or after `from`. */
  function ClearPosition(mutations: seq<Mutation>, from: nat): (r: Option<nat>)
    requires from <= |mutations|
    ensures r.None? <==> forall i :: from <= i < |mutations| ==> !mutations[i].Clear?
    ensures r.Some? ==> from <= r.value < |mutations| && mutations[r.value].Clear?
    ensures r.Some? ==> forall i :: from <= i < r.value ==> !mutations[i].Clear?
    decreases |mutations| - from
  {
    if from == |mutations| then None
    else if mutations[from].Clear? then Some(from)
    else ClearPosition(mutations, from + 1)
  }

  // --------------------------------------------------------------- state

  datatype Certainty = Exact | Recovering | Unknown

  datatype Disposition =
    | Applied | BarrierApplied | Buffered | Duplicate | Equivocation
    | StaleUnverifiable | StaleBarrier | PendingLimit | GapLimit | UnverifiableGap

  datatype PendingSlot =
    | Candidate(source: Envelope)
    | Conflict(first: Fingerprint, second: Fingerprint)

  datatype RecentSlot =
    | Seen(first: Fingerprint)
    | Disputed(first: Fingerprint, second: Fingerprint)

  datatype Diagnostics = Diagnostics(
    duplicates: nat, equivocations: nat, staleUnverifiable: nat, staleBarriers: nat,
    missingExact: nat, missingPartial: nat, pendingLimits: nat, gapLimits: nat,
    unverifiableGaps: nat, unclosedGaps: nat, truncated: bool)

  const NO_DIAGNOSTICS := Diagnostics(0, 0, 0, 0, 0, 0, 0, 0, 0, 0, false)

  datatype Scope = Scope(
    engine: string, engineVersion: string, engineInstance: string,
    publisher: string, dataParallelRank: nat, epoch: string)

  datatype State = State(
    session: nat, streamId: string, scope: Scope, initial: u64,
    frontier: Option<u64>, baselineUnknown: bool, viewAuthoritative: bool,
    equivocationCeiling: Option<u64>,
    unavailableFloor: Option<u64>, unavailableCeiling: Option<u64>,
    keys: set<CacheKey>, pending: map<u64, PendingSlot>, recent: map<u64, RecentSlot>,
    diagnostics: Diagnostics, failed: bool)
  {
    function Poison(): Option<u64> { PoisonOf(equivocationCeiling, unavailableCeiling) }

    function Certainty(): Certainty { CertaintyOf(baselineUnknown, Poison(), pending) }

    function Expected(): Option<u64> { ExpectedOf(initial, frontier) }

    /** Whether `cursor` lies beyond everything applied so far. */
    predicate Ahead(cursor: u64) { frontier.Some? ==> frontier.value < cursor }
  }

  function PoisonOf(equivocation: Option<u64>, unavailable: Option<u64>): Option<u64> {
    match (equivocation, unavailable)
    case (Some(a), Some(b)) => Some(if a < b then b else a)
    case (Some(a), None) => Some(a)
    case (None, other) => other
  }

  function CertaintyOf(baselineUnknown: bool, poison: Option<u64>, pending: map<u64, PendingSlot>): Certainty {
    if baselineUnknown || poison.Some? then Unknown
    else if pending == map[] then Exact
    else Recovering
  }

  function ExpectedOf(initial: u64, frontier: Option<u64>): Option<u64> {
    match frontier
    case None => Some(initial)
    case Some(f) => if f == U64_MAX then None else Some(f + 1)
  }

  function SlotBytes(slot: PendingSlot): nat {
    match slot case Candidate(source) => source.canonicalBytes case Conflict(_, _) => 0
  }

  /** Canonical bytes held by the clean candidates of a pending ledger. */
  ghost function PendingBytes(pending: map<u64, PendingSlot>): nat
    decreases |pending|
  {
    if pending == map[] then 0 else
      var c :| c in pending;
      MapRemoveSize(pending, c);
      SlotBytes(pending[c]) + PendingBytes(pending - {c})
  }

  // -------------------------------------------------------- diagnostics

  function Incremented(counter: nat, maximum: nat): nat {
    if counter >= maximum then counter else counter + 1
  }

  function Added(counter: nat, added: nat, maximum: nat): nat {
    if added > (if maximum < counter then 0 else maximum - counter) then maximum else counter + added
  }

  function BumpDuplicate(d: Diagnostics, max: nat): Diagnostics {
    d.(duplicates := Incremented(d.duplicates, max), truncated := d.truncated || d.duplicates >= max)
  }

  function BumpEquivocation(d: Diagnostics, max: nat): Diagnostics {
    d.(equivocations := Incremented(d.equivocations, max), truncated := d.truncated || d.equivocations >= max)
  }

  function BumpStale(d: Diagnostics, barrier: bool, max: nat): Diagnostics {
    if barrier then
      d.(staleBarriers := Incremented(d.staleBarriers, max), truncated := d.truncated || d.staleBarriers >= max)
    else
      d.(staleUnverifiable := Incremented(d.staleUnverifiable, max),
         truncated := d.truncated || d.staleUnverifiable >= max)
  }

  function BumpGapLimit(d: Diagnostics, max: nat): Diagnostics {
    d.(gapLimits := Incremented(d.gapLimits, max), truncated := d.truncated || d.gapLimits >= max)
  }

  function BumpPendingLimit(d: Diagnostics, max: nat): Diagnostics {
    d.(pendingLimits := Incremented(d.pendingLimits, max), truncated := d.truncated || d.pendingLimits >= max)
  }

  function BumpUnverifiable(d: Diagnostics, max: nat): Diagnostics {
    d.(unverifiableGaps := Incremented(d.unverifiableGaps, max),
       truncated := d.truncated || d.unverifiableGaps >= max)
  }

  function BumpUnclosed(d: Diagnostics, max: nat): Diagnostics {
    d.(unclosedGaps := Incremented(d.unclosedGaps, max), truncated := d.truncated || d.unclosedGaps >= max)
  }

  function AddMissing(d: Diagnostics, exact: bool, missing: nat, max: nat): Diagnostics {
    if exact then
      d.(missingExact := Added(d.missingExact, missing, max),
         truncated := d.truncated || d.missingExact + missing > Max(max, d.missingExact))
    else
      d.(missingPartial := Added(d.missingPartial, missing, max),
         truncated := d.truncated || d.missingPartial + missing > Max(max, d.missingPartial))
  }

  // ------------------------------------------------------- redeliveries

  function Raised(current: Option<u64>, cursor: u64): Option<u64> {
    if current.Some? && cursor < current.value then current else Some(cursor)
  }

  function Lowered(current: Option<u64>, cursor: u64): Option<u64> {
    if current.Some? && current.value < cursor then current else Some(cursor)
  }

  function MarkEquivocation(s: State, cursor: u64, invalidatesView: bool, l: Limits): State {
    s.(equivocationCeiling := Raised(s.equivocationCeiling, cursor),
       viewAuthoritative := s.viewAuthoritative && !invalidatesView,
       diagnostics := BumpEquivocation(s.diagnostics, l.maxDiagnostic))
  }

  function MarkUnavailable(s: State, cursor: u64): State {
    s.(unavailableFloor := Lowered(s.unavailableFloor, cursor),
       unavailableCeiling := Raised(s.unavailableCeiling, cursor))
  }

  function MarkDuplicate(s: State, l: Limits): State {
    s.(diagnostics := BumpDuplicate(s.diagnostics, l.maxDiagnostic))
  }

  function PendingRedelivery(s: State, e: Envelope, l: Limits): (State, Disposition)
    requires e.cursor in s.pending
  {
    match s.pending[e.cursor]
    case Candidate(first) =>
      if first.Print() == e.Print() then (MarkDuplicate(s, l), Duplicate)
      else
        (MarkEquivocation(s.(pending := s.pending[e.cursor := Conflict(first.Print(), e.Print())]), e.cursor, false, l),
         Equivocation)
    case Conflict(first, second) =>
      if first == e.Print() || second == e.Print() then (MarkDuplicate(s, l), Duplicate)
      else (MarkEquivocation(s, e.cursor, false, l), Equivocation)
  }

  function PastDelivery(s: State, e: Envelope, l: Limits): (State, Disposition) {
    if e.cursor !in s.recent then
      (s.(diagnostics := BumpStale(s.diagnostics, e.HasClear(), l.maxDiagnostic)),
       if e.HasClear() then StaleBarrier else StaleUnverifiable)
    else
      match s.recent[e.cursor]
      case Seen(first) =>
        if first == e.Print() then (MarkDuplicate(s, l), Duplicate)
        else
          (MarkEquivocation(s.(recent := s.recent[e.cursor := Disputed(first, e.Print())]), e.cursor, true, l),
           Equivocation)
      case Disputed(first, second) =>
        if first == e.Print() || second == e.Print() then (MarkDuplicate(s, l), Duplicate)
        else (MarkEquivocation(s, e.cursor, true, l), Equivocation)
  }

  // ---------------------------------------------------------- gap ledger

  predicate UnavailableBlocks(s: State, e: Envelope) {
    && s.unavailableFloor.Some?
    && e.cursor >= s.unavailableFloor.value
    && (e.HasClear() ==> s.unavailableCeiling.None? || e.cursor <= s.unavailableCeiling.value)
  }

  predicate EligibleBarrier(s: State, e: Envelope) {
    && e.HasClear()
    && s.Ahead(e.cursor)
    && (s.Certainty().Exact? ==> s.Expected().Some? && e.cursor > s.Expected().value)
  }

  ghost function Buffer(s: State, e: Envelope, expected: u64, l: Limits): (State, Disposition)
    requires expected < e.cursor
  {
    if e.cursor - expected > l.maxGapSpan then
      (MarkUnavailable(s, e.cursor).(diagnostics := BumpGapLimit(s.diagnostics, l.maxDiagnostic)), GapLimit)
    else if |s.pending| >= l.maxPending || PendingBytes(s.pending) + e.canonicalBytes > l.maxPendingBytes then
      (MarkUnavailable(s, e.cursor).(diagnostics := BumpPendingLimit(s.diagnostics, l.maxDiagnostic)), PendingLimit)
    else
      (s.(pending := s.pending[e.cursor := Candidate(e)]), Buffered)
  }

  // --------------------------------------------------------- application

  predicate CleanAt(pending: map<u64, PendingSlot>, c: int) {
    0 <= c <= U64_MAX && c in pending && pending[c].Candidate?
  }

  predicate Blocked(floor: Option<u64>, c: nat) { floor.Some? && floor.value <= c }

  /** Last cursor of the clean contiguous run that follows `cursor`, stopping below `floor`. */
  function DrainEnd(pending: map<u64, PendingSlot>, floor: Option<u64>, cursor: u64): (last: u64)
    ensures cursor <= last
    ensures forall c :: cursor < c <= last ==> CleanAt(pending, c) && !Blocked(floor, c)
    ensures Blocked(floor, last + 1) || !CleanAt(pending, last + 1)
    decreases U64_MAX - cursor
  {
    if cursor == U64_MAX || Blocked(floor, cursor + 1) || !CleanAt(pending, cursor + 1) then cursor
    else DrainEnd(pending, floor, cursor + 1)
  }

  predicate CleanSpan(pending: map<u64, PendingSlot>, from: nat, last: nat) {
    forall c :: from < c <= last ==> CleanAt(pending, c)
  }

  /** Key operations of the clean candidates in `(from, last]`, in cursor order. */
  function SpanOps(pending: map<u64, PendingSlot>, from: nat, last: nat): seq<KeyOp>
    requires CleanSpan(pending, from, last)
    decreases last - from
  {
    if from >= last then [] else
      assert CleanAt(pending, from + 1);
      Ops(pending[from + 1].source.mutations) + SpanOps(pending, from + 1, last)
  }

  datatype Fact = Fact(cursor: u64, digest: Fingerprint)

  function SpanFacts(pending: map<u64, PendingSlot>, from: nat, last: nat): seq<Fact>
    requires CleanSpan(pending, from, last)
    decreases last - from
  {
    if from >= last then [] else
      assert CleanAt(pending, from + 1);
      [Fact(from + 1, pending[from + 1].source.Print())] + SpanFacts(pending, from + 1, last)
  }

  /** The lowest retained cursor. */
  ghost function Oldest(recent: map<u64, RecentSlot>): (k: u64)
    requires recent != map[]
    ensures k in recent && forall j :: j in recent ==> k <= j
  {
    assert recent.Keys != {};
    LeastFrom(recent.Keys, 0)
  }

  ghost function TrimOldest(recent: map<u64, RecentSlot>, maximum: nat): map<u64, RecentSlot>
    decreases |recent|
  {
    if |recent| <= maximum then recent else
      MapRemoveSize(recent, Oldest(recent));
      TrimOldest(recent - {Oldest(recent)}, maximum)
  }

  ghost function Retain(recent: map<u64, RecentSlot>, facts: seq<Fact>, maximum: nat): map<u64, RecentSlot>
    decreases facts
  {
    if facts == [] then recent else
      Retain(TrimOldest(recent[facts[0].cursor := Seen(facts[0].digest)], maximum), facts[1..], maximum)
  }

  function Above(pending: map<u64, PendingSlot>, cursor: u64): map<u64, PendingSlot> {
    map c | c in pending && c > cursor :: pending[c]
  }

  function AtOrUnder(pending: map<u64, PendingSlot>, cursor: u64): map<u64, PendingSlot> {
    map c | c in pending && c <= cursor :: pending[c]
  }

  /** The ledger after each recorded cursor has left it. */
  function Drained(pending: map<u64, PendingSlot>, facts: seq<Fact>): map<u64, PendingSlot>
    decreases facts
  {
    if facts == [] then pending else Drained(pending - {facts[0].cursor}, facts[1..])
  }

  function ClearedBelow(ceiling: Option<u64>, cursor: u64): Option<u64> {
    if ceiling.Some? && ceiling.value < cursor then None else ceiling
  }

  /** What a barrier does before its mutations are folded. */
  function Rebased(s: State, cursor: u64): State {
    var superseded := s.unavailableCeiling.Some? && s.unavailableCeiling.value < cursor;
    s.(pending := Above(s.pending, cursor),
       recent := map[],
       baselineUnknown := false,
       viewAuthoritative := true,
       equivocationCeiling := ClearedBelow(s.equivocationCeiling, cursor),
       unavailableFloor := if superseded then None else s.unavailableFloor,
       unavailableCeiling := if superseded then None else s.unavailableCeiling)
  }

  /** The horizon that still limits draining after the first envelope is applied. */
  function DrainFloor(s: State, e: Envelope, barrier: bool): Option<u64> {
    if barrier && s.unavailableCeiling.Some? && e.cursor > s.unavailableCeiling.value then None
    else s.unavailableFloor
  }

  function AppliedFrom(e: Envelope, barrier: bool): seq<Mutation>
    requires barrier ==> e.HasClear()
  {
    e.mutations[if barrier then e.FirstClear().value else 0..]
  }

  ghost function Committed(s: State, e: Envelope, barrier: bool, last: u64, f: Folded, l: Limits): State
    requires CleanSpan(s.pending, e.cursor, last)
  {
    var span := SpanFacts(s.pending, e.cursor, last);
    var base := if barrier then Rebased(s, e.cursor) else s;
    base.(
      frontier := Some(last),
      keys := f.keys,
      pending := Drained(base.pending, span),
      recent := Retain(base.recent, [Fact(e.cursor, e.Print())] + span, l.maxRecent),
      diagnostics := AddMissing(s.diagnostics, barrier || s.viewAuthoritative, f.missing, l.maxDiagnostic))
  }

  datatype AdmitError =
    | StateFailed | NormalizerFailed | SessionMismatch | StreamMismatch | CursorBeforeInitial
    | CacheFailure(cause: CacheError)

  ghost function ApplyOps(s: State, e: Envelope, barrier: bool): seq<KeyOp>
    requires barrier ==> e.HasClear()
  {
    var last := DrainEnd(s.pending, DrainFloor(s, e, barrier), e.cursor);
    Ops(AppliedFrom(e, barrier)) + SpanOps(s.pending, e.cursor, last)
  }

  ghost function ApplySource(s: State, e: Envelope, barrier: bool, l: Limits): Result<(State, Disposition), AdmitError>
    requires barrier ==> e.HasClear()
  {
    var last := DrainEnd(s.pending, DrainFloor(s, e, barrier), e.cursor);
    match FoldBounded(Folded(s.keys, 0), ApplyOps(s, e, barrier), l.cache)
    case Err(c) => Err(CacheFailure(c))
    case Ok(f) => Ok((Committed(s, e, barrier, last, f, l), if barrier then BarrierApplied else Applied))
  }

  // ------------------------------------------------------------ delivery

  /** What the expected cursor decides. */
  ghost function AdmitInOrder(s: State, e: Envelope, l: Limits): Result<(State, Disposition), AdmitError> {
    match s.Expected()
    case Some(expected) =>
      if e.cursor == expected then ApplySource(s, e, false, l)
      else if e.cursor > expected then Ok(Buffer(s, e, expected, l))
      else Ok(PastDelivery(s, e, l))
    case None => Ok(PastDelivery(s, e, l))
  }

  ghost function AdmitInner(s: State, e: Envelope, l: Limits): Result<(State, Disposition), AdmitError> {
    if e.session != s.session then Err(SessionMismatch)
    else if e.streamId != s.streamId then Err(StreamMismatch)
    else if e.cursor < s.initial then Err(CursorBeforeInitial)
    else if e.cursor in s.pending then Ok(PendingRedelivery(s, e, l))
    else if !s.Ahead(e.cursor) then Ok(PastDelivery(s, e, l))
    else if UnavailableBlocks(s, e) then
      Ok((MarkUnavailable(s, e.cursor).(diagnostics := BumpUnverifiable(s.diagnostics, l.maxDiagnostic)),
          UnverifiableGap))
    else if EligibleBarrier(s, e) then ApplySource(s, e, true, l)
    else if s.baselineUnknown && s.frontier.None? then ApplySource(s, e, false, l)
    else AdmitInOrder(s, e, l)
  }

  datatype SessionStatus = Open | Sealed | Failed

  /** One call of the public entry point: the state it leaves and what it reports. */
  ghost function Admit(s: State, status: SessionStatus, e: Envelope, l: Limits): (State, Result<Disposition, AdmitError>) {
    if s.failed then (s, Err(StateFailed))
    else if status == Failed then (s, Err(NormalizerFailed))
    else
      match AdmitInner(s, e, l)
      case Err(error) => (s.(failed := true), Err(error))
      case Ok(step) => (step.0, Ok(step.1))
  }

  function Start(session: nat, streamId: string, scope: Scope, initial: u64, trustedEmpty: bool): State {
    State(session, streamId, scope, initial, None, !trustedEmpty, trustedEmpty,
          None, None, None, {}, map[], map[], NO_DIAGNOSTICS, false)
  }

  // ------------------------------------------------------------ summary

  datatype Reasons = Reasons(baseline: bool, equivocation: bool, unavailableGap: bool, unclosedGap: bool)
  {
    predicate IsEmpty() { !baseline && !equivocation && !unavailableGap && !unclosedGap }
  }

  /** An opaque comparable cache snapshot. */
  datatype Snapshot = Snapshot(scope: Scope, keys: set<CacheKey>, identityBytes: nat)

  datatype Summary = Summary(
    certainty: Certainty, frontier: Option<u64>, viewAuthoritative: bool, view: Snapshot,
    pendingEnvelopes: nat, pendingBytes: nat, recentFingerprints: nat, fingerprintWindow: nat,
    reasons: Reasons, diagnostics: Diagnostics)

  ghost function Finish(s: State, status: SessionStatus, sealedSession: nat, l: Limits): Result<Summary, AdmitError> {
    if s.failed then Err(StateFailed)
    else if s.session != sealedSession then Err(SessionMismatch)
    else if status != Sealed then Err(NormalizerFailed)
    else
      var unclosed := s.pending != map[];
      Ok(Summary(
        if unclosed then Unknown else s.Certainty(),
        s.frontier, s.viewAuthoritative, Snapshot(s.scope, s.keys, Bytes(s.keys)),
        |s.pending|, PendingBytes(s.pending), |s.recent|, l.maxRecent,
        Reasons(s.baselineUnknown, s.equivocationCeiling.Some?, s.unavailableFloor.Some?, unclosed),
        if unclosed then BumpUnclosed(s.diagnostics, l.maxDiagnostic) else s.diagnostics))
  }
}
