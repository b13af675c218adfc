/**
 The running consumer of one publisher stream: mutable fields, derived values
 kept up to date by hand, and one entry point per delivery. Every method is
 tied to the transition on values in `StreamSpec`.
 */
module StreamStates {
  import opened Prelude
  import opened Cache
  import opened StreamSpec
  import opened Ledger

  class SessionMarker {
    const id: nat
    var status: SessionStatus

    constructor (id: nat)
      ensures this.id == id && status == Open
    {
      this.id := id;
      status := Open;
    }
  }

  datatype ApplicationPlan = ApplicationPlan(
    cache: CachePlan, missingRemoves: nat, missingRemovesAreExact: bool, applied: seq<Fact>)

  /** The canonical bytes held by a ledger, added up slot by slot in 64 bits; nothing when they do not fit. */
  method SumPending(slots: map<u64, PendingSlot>) returns (total: Option<u64>)
    ensures total == if PendingBytes(slots) <= U64_MAX then Some(PendingBytes(slots)) else None
  {
    var sum: u64 := 0;
    var rest := slots;
    while rest != map[]
      invariant sum + PendingBytes(rest) == PendingBytes(slots)
      decreases |rest|
    {
      var c :| c in rest;
      PendingBytesRemove(rest, c);
      MapRemoveSize(rest, c);
      if sum + SlotBytes(rest[c]) > U64_MAX {
        return None;
      }
      sum := sum + SlotBytes(rest[c]);
      rest := rest - {c};
    }
    return Some(sum);
  }

  lemma LastFact(s: State, e: Envelope, last: u64)
    requires e.cursor <= last && CleanSpan(s.pending, e.cursor, last)
    ensures var facts := AppliedFacts(s, e, last);
            facts[|facts| - 1].cursor == last
  {
    AppliedFactsDigests(s, e, last);
  }

  /** Draining either stops at a cursor or takes the clean candidate behind it and goes on from there. */
  lemma DrainStep(pending: map<u64, PendingSlot>, floor: Option<u64>, cursor: u64)
    requires cursor < U64_MAX
    ensures if Blocked(floor, cursor + 1) || !CleanAt(pending, cursor + 1) then DrainEnd(pending, floor, cursor) == cursor
            else
              && cursor < DrainEnd(pending, floor, cursor) == DrainEnd(pending, floor, cursor + 1)
              && SpanFacts(pending, cursor, DrainEnd(pending, floor, cursor)) ==
                   [Fact(cursor + 1, pending[cursor + 1].source.Print())] + SpanFacts(pending, cursor + 1, DrainEnd(pending, floor, cursor))
  {
  }

  class StreamState {
    const session: SessionMarker
    const limits: Limits
    const streamId: string
    const scope: Scope
    const initialCursor: u64
    const view: CacheView
    var certainty: Certainty
    var frontier: Option<u64>
    var baselineUnknown: bool
    var viewAuthoritative: bool
    var poisonCeiling: Option<u64>
    var equivocationCeiling: Option<u64>
    var unavailableFloor: Option<u64>
    var unavailableCeiling: Option<u64>
    var pending: map<u64, PendingSlot>
    var pendingBytes: nat
    var recent: map<u64, RecentSlot>
    var diagnostics: Diagnostics
    var failed: bool

    /** The value this object stands for. */
    ghost function Model(): State
      reads this, view
    {
      State(session.id, streamId, scope, initialCursor, frontier, baselineUnknown, viewAuthoritative,
            equivocationCeiling, unavailableFloor, unavailableCeiling,
            view.keys, pending, recent, diagnostics, failed)
    }

    /** The stored byte totals and the poison ceiling agree with what they summarize. */
    ghost predicate Tallied()
      reads this, view
    {
      && view.Valid()
      && pendingBytes == PendingBytes(pending)
      && poisonCeiling == PoisonOf(equivocationCeiling, unavailableCeiling)
    }

    ghost predicate Tied()
      reads this, view
    {
      Tallied() && certainty == CertaintyOf(baselineUnknown, poisonCeiling, pending)
    }

    ghost predicate Valid()
      reads this, view
    {
      Tied() && Inv(Model(), limits)
    }

    constructor (session: SessionMarker, limits: Limits, streamId: string, scope: Scope, initialCursor: u64, trustedEmpty: bool)
      ensures Valid() && fresh(view)
      ensures this.session == session && this.limits == limits
      ensures Model() == Start(session.id, streamId, scope, initialCursor, trustedEmpty)
    {
      this.session := session;
      this.limits := limits;
      this.streamId := streamId;
      this.scope := scope;
      this.initialCursor := initialCursor;
      certainty := if trustedEmpty then Exact else Unknown;
      frontier := None;
      baselineUnknown := !trustedEmpty;
      viewAuthoritative := trustedEmpty;
      poisonCeiling := None;
      equivocationCeiling := None;
      unavailableFloor := None;
      unavailableCeiling := None;
      view := new CacheView.Empty();
      pending := map[];
      pendingBytes := 0;
      recent := map[];
      diagnostics := NO_DIAGNOSTICS;
      failed := false;
      new;
      StartInv(session.id, streamId, scope, initialCursor, trustedEmpty, limits);
    }

    /** Admits one delivery; a failure leaves everything but the failed flag as it was. */
    method Admit(source: Envelope) returns (r: Result<Disposition, AdmitError>)
      requires Valid()
      modifies this, view
      ensures Valid()
      ensures (Model(), r) == StreamSpec.Admit(old(Model()), old(session.status), source, limits)
    {
      if failed {
        return Err(StateFailed);
      }
      if session.status == Failed {
        return Err(NormalizerFailed);
      }
      AdmitKeepsInv(Model(), session.status, source, limits);
      r := AdmitInner(source);
      if r.Err? {
        failed := true;
      }
    }

    method AdmitInner(source: Envelope) returns (r: Result<Disposition, AdmitError>)
      requires Valid()
      modifies this, view
      ensures Tied()
      ensures match StreamSpec.AdmitInner(old(Model()), source, limits)
              case Ok(step) => Model() == step.0 && r == Ok(step.1)
              case Err(e) => Model() == old(Model()) && r == Err(e)
    {
      if source.session != session.id {
        return Err(SessionMismatch);
      }
      if source.streamId != streamId {
        return Err(StreamMismatch);
      }
      var cursor := source.cursor;
      if cursor < initialCursor {
        return Err(CursorBeforeInitial);
      }
      if cursor in pending {
        var disposition := HandlePendingRedelivery(source);
        return Ok(disposition);
      }
      if frontier.Some? && cursor <= frontier.value {
        var disposition := HandlePastDelivery(source);
        return Ok(disposition);
      }
      if UnavailableBlocks(source) {
        DiscardEvidence(cursor, BumpUnverifiable(diagnostics, limits.maxDiagnostic));
        return Ok(UnverifiableGap);
      }
      if EligibleBarrier(source) {
        r := ApplySource(source, true);
        return;
      }
      if baselineUnknown && frontier.None? {
        r := ApplySource(source, false);
        return;
      }
      r := AdmitInOrder(source);
    }

    /** Compares with the expected cursor: applies, buffers, or treats the delivery as past. */
    method AdmitInOrder(source: Envelope) returns (r: Result<Disposition, AdmitError>)
      requires Valid() && source.cursor !in pending && !UnavailableBlocks(source) && !EligibleBarrier(source)
      modifies this, view
      ensures Tied()
      ensures match StreamSpec.AdmitInOrder(old(Model()), source, limits)
              case Ok(step) => Model() == step.0 && r == Ok(step.1)
              case Err(e) => Model() == old(Model()) && r == Err(e)
    {
      var cursor, expected := source.cursor, ExpectedCursor();
      if expected.Some? && cursor == expected.value {
        r := ApplySource(source, false);
      } else if expected.Some? && cursor > expected.value {
        var disposition := Buffer(source, expected.value);
        r := Ok(disposition);
      } else {
        var disposition := HandlePastDelivery(source);
        r := Ok(disposition);
      }
    }

    method HandlePendingRedelivery(source: Envelope) returns (d: Disposition)
      requires Tied() && source.cursor in pending
      modifies this`pending, this`pendingBytes, this`equivocationCeiling, this`viewAuthoritative,
               this`poisonCeiling, this`diagnostics, this`certainty
      ensures Tied()
      ensures (Model(), d) == PendingRedelivery(old(Model()), source, limits)
    {
      var cursor := source.cursor;
      match pending[cursor] {
        case Candidate(first) =>
          if first.Print() == source.Print() {
            diagnostics := BumpDuplicate(diagnostics, limits.maxDiagnostic);
            return Duplicate;
          }
          var removedBytes := SlotBytes(pending[cursor]);
          var slot := Conflict(first.Print(), source.Print());
          PendingBytesUpdate(pending, cursor, slot);
          pending := pending[cursor := slot];
          pendingBytes := pendingBytes - removedBytes;
        case Conflict(first, second) =>
          if first == source.Print() || second == source.Print() {
            diagnostics := BumpDuplicate(diagnostics, limits.maxDiagnostic);
            return Duplicate;
          }
      }
      RecordEquivocation(cursor, false);
      return Equivocation;
    }

    method HandlePastDelivery(source: Envelope) returns (d: Disposition)
      requires Tied()
      modifies this`recent, this`equivocationCeiling, this`viewAuthoritative,
               this`poisonCeiling, this`diagnostics, this`certainty
      ensures Tied()
      ensures (Model(), d) == PastDelivery(old(Model()), source, limits)
    {
      var cursor := source.cursor;
      if cursor !in recent {
        diagnostics := BumpStale(diagnostics, source.HasClear(), limits.maxDiagnostic);
        return if source.HasClear() then StaleBarrier else StaleUnverifiable;
      }
      match recent[cursor] {
        case Seen(first) =>
          if first == source.Print() {
            diagnostics := BumpDuplicate(diagnostics, limits.maxDiagnostic);
            return Duplicate;
          }
          recent := recent[cursor := Disputed(first, source.Print())];
        case Disputed(first, second) =>
          if first == source.Print() || second == source.Print() {
            diagnostics := BumpDuplicate(diagnostics, limits.maxDiagnostic);
            return Duplicate;
          }
      }
      RecordEquivocation(cursor, true);
      return Equivocation;
    }

    predicate EligibleBarrier(source: Envelope)
      requires Tied()
      reads this, view
      ensures EligibleBarrier(source) == StreamSpec.EligibleBarrier(Model(), source)
    {
      if !source.HasClear() then false
      else if frontier.Some? && source.cursor <= frontier.value then false
      else
        match certainty
        case Unknown => true
        case Recovering => true
        case Exact => ExpectedCursor().Some? && source.cursor > ExpectedCursor().value
    }

    method Buffer(source: Envelope, expected: u64) returns (d: Disposition)
      requires Tied() && expected < source.cursor && source.cursor !in pending
      modifies this`pending, this`pendingBytes, this`unavailableFloor, this`unavailableCeiling,
               this`poisonCeiling, this`diagnostics, this`certainty
      ensures Tied()
      ensures (Model(), d) == StreamSpec.Buffer(old(Model()), source, expected, limits)
    {
      var cursor := source.cursor;
      var span := cursor - expected;
      if span > limits.maxGapSpan {
        DiscardEvidence(cursor, BumpGapLimit(diagnostics, limits.maxDiagnostic));
        return GapLimit;
      }
      var observed := pendingBytes + source.canonicalBytes;
      if |pending| >= limits.maxPending || observed > U64_MAX || observed > limits.maxPendingBytes {
        DiscardEvidence(cursor, BumpPendingLimit(diagnostics, limits.maxDiagnostic));
        return PendingLimit;
      }
      RetainCandidate(source, observed);
      return Buffered;
    }

    method RetainCandidate(source: Envelope, observed: nat)
      requires Tied() && source.cursor !in pending && observed == pendingBytes + source.canonicalBytes
      modifies this`pending, this`pendingBytes, this`certainty
      ensures Tied()
      ensures pending == old(pending)[source.cursor := Candidate(source)]
    {
      PendingBytesUpdate(pending, source.cursor, Candidate(source));
      pendingBytes := observed;
      pending := pending[source.cursor := Candidate(source)];
      RecomputeCertainty();
    }

    /** Puts the delivered cursor inside the unavailable horizon. */
    method DiscardEvidence(cursor: u64, d: Diagnostics)
      requires Tied()
      modifies this`unavailableFloor, this`unavailableCeiling, this`poisonCeiling, this`diagnostics, this`certainty
      ensures Tied()
      ensures Model() == MarkUnavailable(old(Model()), cursor).(diagnostics := d)
    {
      diagnostics := d;
      SetUnavailable(cursor);
      RecomputeCertainty();
    }

    method RecordEquivocation(cursor: u64, invalidatesView: bool)
      requires Tallied()
      modifies this`equivocationCeiling, this`viewAuthoritative, this`poisonCeiling, this`diagnostics, this`certainty
      ensures Tied()
      ensures Model() == MarkEquivocation(old(Model()), cursor, invalidatesView, limits)
    {
      diagnostics := BumpEquivocation(diagnostics, limits.maxDiagnostic);
      SetEquivocation(cursor, invalidatesView);
      RecomputeCertainty();
    }

    method ApplySource(source: Envelope, barrier: bool) returns (r: Result<Disposition, AdmitError>)
      requires Valid() && Applicable(Model(), source, barrier)
      modifies this, view
      ensures Tied()
      ensures match StreamSpec.ApplySource(old(Model()), source, barrier, limits)
              case Ok(step) => Model() == step.0 && r == Ok(step.1)
              case Err(e) => Model() == old(Model()) && r == Err(e)
    {
      var start := if barrier then source.FirstClear().value else 0;
      var authoritative := if barrier then true else viewAuthoritative;
      var plan := PlanApplication(source, start, authoritative, barrier);
      if plan.Err? {
        return Err(plan.error);
      }
      ghost var f := FoldBounded(Folded(view.keys, 0), ApplyOps(Model(), source, barrier), limits.cache).value;
      CommitApplication(plan.value, source, barrier, authoritative, DrainLast(Model(), source, barrier), f);
      return Ok(if barrier then BarrierApplied else Applied);
    }

    /** A plan succeeds exactly when the bounded fold does, and then carries its outcome. */
    ghost predicate PlanMatches(r: Result<ApplicationPlan, AdmitError>, folded: Result<Folded, CacheError>, authoritative: bool)
      reads view
    {
      match folded
      case Err(c) => r == Err(CacheFailure(c))
      case Ok(f) =>
        && r.Ok?
        && PlanFits(r.value.cache, view.keys, f.keys)
        && r.value.missingRemoves == f.missing
        && r.value.missingRemovesAreExact == authoritative
    }

    /** Projects the delivery and the clean suffix behind it without changing anything. */
    method PlanApplication(first: Envelope, start: nat, authoritative: bool, barrier: bool)
        returns (r: Result<ApplicationPlan, AdmitError>)
      requires Tied() && (barrier ==> first.HasClear())
      requires start == if barrier then first.FirstClear().value else 0
      ensures PlanMatches(r, FoldBounded(Folded(view.keys, 0), ApplyOps(Model(), first, barrier), limits.cache), authoritative)
      ensures r.Ok? ==> r.value.applied == AppliedFacts(Model(), first, DrainLast(Model(), first, barrier))
    {
      var cache := new CacheTransaction(view);
      var step, drained := Project(cache, first, start, barrier);
      if step.Err? {
        return Err(CacheFailure(step.error));
      }
      var plan := cache.Finish();
      return Ok(ApplicationPlan(plan, plan.missingRemoves, authoritative, [Fact(first.cursor, first.Print())] + drained));
    }

    /** Projects the delivery from `start` on, and then what it drains. */
    method Project(cache: CacheTransaction, first: Envelope, start: nat, barrier: bool)
        returns (step: Result<(), CacheError>, drained: seq<Fact>)
      requires Tied() && (barrier ==> first.HasClear()) && cache.Valid() && cache.base == view
      requires start == if barrier then first.FirstClear().value else 0
      modifies cache
      ensures cache.Valid()
      ensures cache.Outcome(step) == FoldBounded(old(cache.Value()), ApplyOps(Model(), first, barrier), limits.cache)
      ensures step.Ok? ==> drained == SpanFacts(pending, first.cursor, DrainLast(Model(), first, barrier))
    {
      ghost var last := DrainLast(Model(), first, barrier);
      BoundedFoldAppend(cache.Value(), Ops(AppliedFrom(first, barrier)), SpanOps(pending, first.cursor, last), limits.cache);
      step := cache.Apply(first.mutations[start..], limits.cache);
      drained := [];
      if step.Ok? {
        var superseded := barrier && unavailableCeiling.Some? && first.cursor > unavailableCeiling.value;
        step, drained := DrainPending(cache, first.cursor, superseded);
      }
    }

    /** Projects the clean candidate right behind `cursor`. */
    method DrainOne(cache: CacheTransaction, cursor: u64, source: Envelope, ghost last: u64) returns (step: Result<(), CacheError>)
      requires cache.Valid() && cursor < last && CleanSpan(pending, cursor, last)
      requires cursor + 1 in pending && pending[cursor + 1] == Candidate(source)
      modifies cache
      ensures cache.Valid()
      ensures var goal := FoldBounded(old(cache.Value()), SpanOps(pending, cursor, last), limits.cache);
              if step.Ok? then goal == FoldBounded(cache.Value(), SpanOps(pending, cursor + 1, last), limits.cache)
              else goal == cache.Outcome(step)
    {
      BoundedFoldAppend(cache.Value(), Ops(source.mutations), SpanOps(pending, cursor + 1, last), limits.cache);
      step := cache.Apply(source.mutations, limits.cache);
    }

    /** Projects the clean contiguous suffix that follows `from`, stopping below a live horizon. */
    method DrainPending(cache: CacheTransaction, from: u64, superseded: bool)
        returns (step: Result<(), CacheError>, applied: seq<Fact>)
      requires cache.Valid() && cache.base == view
      modifies cache
      ensures cache.Valid()
      ensures var last := DrainEnd(pending, if superseded then None else unavailableFloor, from);
              && cache.Outcome(step) == FoldBounded(old(cache.Value()), SpanOps(pending, from, last), limits.cache)
              && (step.Ok? ==> applied == SpanFacts(pending, from, last))
    {
      ghost var p := pending;
      ghost var floor := if superseded then None else unavailableFloor;
      ghost var last := DrainEnd(p, floor, from);
      ghost var goal := FoldBounded(cache.Value(), SpanOps(p, from, last), limits.cache);
      applied := [];
      var cursor := from;
      while cursor < U64_MAX
        invariant cache.Valid()
        invariant from <= cursor <= last && last == DrainEnd(p, floor, cursor)
        invariant goal == FoldBounded(cache.Value(), SpanOps(p, cursor, last), limits.cache)
        invariant applied + SpanFacts(p, cursor, last) == SpanFacts(p, from, last)
        decreases U64_MAX - cursor
      {
        var next := cursor + 1;
        DrainStep(p, floor, cursor);
        if !superseded && unavailableFloor.Some? && next >= unavailableFloor.value {
          break;
        }
        if next !in pending || !pending[next].Candidate? {
          break;
        }
        var source := pending[next].source;
        step := DrainOne(cache, cursor, source, last);
        if step.Err? {
          return;
        }
        AppendAssociates(applied, [Fact(next, source.Print())], SpanFacts(p, next, last));
        applied := applied + [Fact(next, source.Print())];
        cursor := next;
      }
      step := Ok(());
    }

    method CommitApplication(plan: ApplicationPlan, first: Envelope, barrier: bool, authoritative: bool,
        ghost last: u64, ghost f: Folded)
      requires Tied() && pendingBytes <= U64_MAX && CleanSpan(pending, first.cursor, last)
      requires authoritative == (barrier || viewAuthoritative)
      requires PlanFits(plan.cache, view.keys, f.keys) && plan.missingRemoves == f.missing
      requires plan.missingRemovesAreExact == authoritative
      requires first.cursor <= last && plan.applied == AppliedFacts(Model(), first, last)
      modifies this, view
      ensures Tied()
      ensures Model() == Committed(old(Model()), first, barrier, last, f, limits)
    {
      ghost var span := SpanFacts(pending, first.cursor, last);
      assert plan.applied[1..] == span;
      ghost var base := if barrier then Rebased(Model(), first.cursor) else Model();
      if barrier {
        Rebase(first.cursor);
      }
      assert Model() == base;
      InstallPlan(plan, authoritative, f);
      LastFact(old(Model()), first, last);
    }

    /** The sum of what is discarded always fits, because the whole ledger does. */
    method DiscardThrough(cursor: u64)
      requires pendingBytes == PendingBytes(pending) <= U64_MAX
      modifies this`pending, this`pendingBytes
      ensures pendingBytes == PendingBytes(pending)
      ensures pending == Above(old(pending), cursor)
    {
      PendingBytesSplit(pending, cursor);
      var discardedBytes := SumPending(AtOrUnder(pending, cursor));
      pending := Above(pending, cursor);
      pendingBytes := pendingBytes - discardedBytes.value;
    }

    /** Folds the planned view in and moves the applied cursors from the ledger to the window. */
    method InstallPlan(plan: ApplicationPlan, authoritative: bool, ghost f: Folded)
      requires Tallied()
      requires plan.applied != []
      requires PlanFits(plan.cache, view.keys, f.keys) && plan.missingRemoves == f.missing
      requires authoritative == viewAuthoritative
      modifies view, this`pending, this`pendingBytes, this`recent, this`frontier,
               this`viewAuthoritative, this`diagnostics, this`certainty
      ensures Tied()
      ensures Model() == old(Model()).(
                frontier := Some(plan.applied[|plan.applied| - 1].cursor),
                keys := f.keys,
                pending := Drained(old(pending), plan.applied[1..]),
                recent := Retain(old(recent), plan.applied, limits.maxRecent),
                diagnostics := AddMissing(old(diagnostics), plan.missingRemovesAreExact, f.missing, limits.maxDiagnostic))
    {
      InstallView(plan, f);
      viewAuthoritative := authoritative;
      diagnostics := AddMissing(diagnostics, plan.missingRemovesAreExact, plan.missingRemoves, limits.maxDiagnostic);
      RecomputeCertainty();
    }

    method InstallView(plan: ApplicationPlan, ghost f: Folded)
      requires view.Valid() && pendingBytes == PendingBytes(pending)
      requires plan.applied != [] && PlanFits(plan.cache, view.keys, f.keys)
      modifies view, this`pending, this`pendingBytes, this`recent, this`frontier
      ensures view.Valid() && view.keys == f.keys && pendingBytes == PendingBytes(pending)
      ensures frontier == Some(plan.applied[|plan.applied| - 1].cursor)
      ensures pending == Drained(old(pending), plan.applied[1..])
      ensures recent == Retain(old(recent), plan.applied, limits.maxRecent)
    {
      CommitPlan(plan.cache, view, f.keys);
      InstallFacts(plan.applied);
    }

    /** Discards everything at or below a barrier and forgets what the barrier supersedes. */
    method Rebase(cursor: u64)
      requires Tallied() && pendingBytes <= U64_MAX
      modifies this`pending, this`pendingBytes, this`recent, this`baselineUnknown, this`viewAuthoritative,
               this`equivocationCeiling, this`unavailableFloor, this`unavailableCeiling, this`poisonCeiling
      ensures Tallied()
      ensures Model() == Rebased(old(Model()), cursor)
    {
      DiscardThrough(cursor);
      recent := map[];
      baselineUnknown := false;
      viewAuthoritative := true;
      ForgetSuperseded(cursor);
    }

    method ForgetSuperseded(cursor: u64)
      modifies this`equivocationCeiling, this`unavailableFloor, this`unavailableCeiling, this`poisonCeiling
      ensures equivocationCeiling == ClearedBelow(old(equivocationCeiling), cursor)
      ensures unavailableCeiling == ClearedBelow(old(unavailableCeiling), cursor)
      ensures unavailableFloor == if unavailableCeiling == old(unavailableCeiling) then old(unavailableFloor) else None
      ensures poisonCeiling == PoisonOf(equivocationCeiling, unavailableCeiling)
    {
      if equivocationCeiling.Some? && equivocationCeiling.value < cursor {
        equivocationCeiling := None;
      }
      if unavailableCeiling.Some? && unavailableCeiling.value < cursor {
        unavailableFloor := None;
        unavailableCeiling := None;
      }
      RecomputePoison();
    }

    /** Moves each applied fact from the ledger into the window, oldest first. */
    method InstallFacts(facts: seq<Fact>)
      requires pendingBytes == PendingBytes(pending)
      requires facts != []
      modifies this`pending, this`pendingBytes, this`recent, this`frontier
      ensures pendingBytes == PendingBytes(pending)
      ensures frontier == Some(facts[|facts| - 1].cursor)
      ensures pending == Drained(old(pending), facts[1..])
      ensures recent == Retain(old(recent), facts, limits.maxRecent)
    {
      ghost var ledger := Drained(pending, facts[1..]);
      ghost var window := Retain(recent, facts, limits.maxRecent);
      for i := 0 to |facts|
        invariant pendingBytes == PendingBytes(pending)
        invariant i > 0 ==> frontier == Some(facts[i - 1].cursor)
        invariant Drained(pending, facts[if i == 0 then 1 else i..]) == ledger
        invariant Retain(recent, facts[i..], limits.maxRecent) == window
      {
        assert facts[i..][1..] == facts[i + 1..];
        if i != 0 {
          RetireSlot(facts[i].cursor);
        }
        RetainFingerprint(facts[i].cursor, facts[i].digest);
        frontier := Some(facts[i].cursor);
      }
      assert facts[|facts|..] == [];
    }

    /** Drops one drained slot together with the bytes charged for it. */
    method RetireSlot(cursor: u64)
      requires pendingBytes == PendingBytes(pending)
      modifies this`pending, this`pendingBytes
      ensures pendingBytes == PendingBytes(pending)
      ensures pending == old(pending) - {cursor}
    {
      if cursor in pending {
        PendingBytesRemove(pending, cursor);
        pendingBytes := pendingBytes - SlotBytes(pending[cursor]);
        pending := pending - {cursor};
      } else {
        assert pending - {cursor} == pending;
      }
    }

    method RetainFingerprint(cursor: u64, digest: Fingerprint)
      modifies this`recent
      ensures recent == TrimOldest(old(recent)[cursor := Seen(digest)], limits.maxRecent)
    {
      recent := recent[cursor := Seen(digest)];
      ghost var goal := TrimOldest(recent, limits.maxRecent);
      while |recent| > limits.maxRecent
        invariant goal == TrimOldest(recent, limits.maxRecent)
        decreases |recent|
      {
        var oldest := LeastFrom(recent.Keys, 0);
        MapRemoveSize(recent, oldest);
        recent := recent - {oldest};
      }
    }

    function ExpectedCursor(): Option<u64>
      reads this
    {
      if frontier.None? then Some(initialCursor)
      else if frontier.value == U64_MAX then None
      else Some(frontier.value + 1)
    }

    method SetEquivocation(cursor: u64, invalidatesView: bool)
      modifies this`equivocationCeiling, this`poisonCeiling, this`viewAuthoritative
      ensures equivocationCeiling == Raised(old(equivocationCeiling), cursor)
      ensures poisonCeiling == PoisonOf(equivocationCeiling, unavailableCeiling)
      ensures viewAuthoritative == (old(viewAuthoritative) && !invalidatesView)
    {
      equivocationCeiling :=
        Some(if equivocationCeiling.None? then cursor else Max(equivocationCeiling.value, cursor));
      RecomputePoison();
      if invalidatesView {
        viewAuthoritative := false;
      }
    }

    method SetUnavailable(cursor: u64)
      modifies this`unavailableFloor, this`unavailableCeiling, this`poisonCeiling
      ensures unavailableFloor == Lowered(old(unavailableFloor), cursor)
      ensures unavailableCeiling == Raised(old(unavailableCeiling), cursor)
      ensures poisonCeiling == PoisonOf(equivocationCeiling, unavailableCeiling)
    {
      unavailableFloor := Some(if unavailableFloor.None? then cursor else Min(unavailableFloor.value, cursor));
      unavailableCeiling := Some(if unavailableCeiling.None? then cursor else Max(unavailableCeiling.value, cursor));
      RecomputePoison();
    }

    method RecomputePoison()
      modifies this`poisonCeiling
      ensures poisonCeiling == PoisonOf(equivocationCeiling, unavailableCeiling)
    {
      if equivocationCeiling.Some? && unavailableCeiling.Some? {
        poisonCeiling := Some(Max(equivocationCeiling.value, unavailableCeiling.value));
      } else if equivocationCeiling.Some? {
        poisonCeiling := equivocationCeiling;
      } else {
        poisonCeiling := unavailableCeiling;
      }
    }

    predicate UnavailableBlocks(source: Envelope)
      reads this, view
      ensures UnavailableBlocks(source) == StreamSpec.UnavailableBlocks(Model(), source)
    {
      if unavailableFloor.None? then false
      else if source.cursor < unavailableFloor.value then false
      else if !source.HasClear() then true
      else unavailableCeiling.None? || source.cursor <= unavailableCeiling.value
    }

    method RecomputeCertainty()
      modifies this`certainty
      ensures certainty == CertaintyOf(baselineUnknown, poisonCeiling, pending)
    {
      if baselineUnknown || poisonCeiling.Some? {
        certainty := Unknown;
      } else if pending == map[] {
        certainty := Exact;
      } else {
        certainty := Recovering;
      }
    }

    /** Closes the delivered evidence; an open gap becomes a final reason. */
    method Finish(sealedSession: SessionMarker) returns (r: Result<Summary, AdmitError>)
      requires Valid()
      requires session.id == sealedSession.id <==> session == sealedSession
      modifies this
      ensures r == StreamSpec.Finish(old(Model()), old(session.status), sealedSession.id, limits)
    {
      if failed {
        return Err(StateFailed);
      }
      if session != sealedSession {
        return Err(SessionMismatch);
      }
      if session.status != Sealed {
        return Err(NormalizerFailed);
      }
      var unclosed := pending != map[];
      if unclosed {
        diagnostics := BumpUnclosed(diagnostics, limits.maxDiagnostic);
        certainty := Unknown;
      }
      var reasons := Reasons(baselineUnknown, equivocationCeiling.Some?, unavailableFloor.Some?, unclosed);
      return Ok(Summary(
        certainty, frontier, viewAuthoritative, Snapshot(scope, view.keys, view.identityBytes),
        |pending|, pendingBytes, |recent|, limits.maxRecent, reasons, diagnostics));
    }
  }
}
