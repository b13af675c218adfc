/**
 What each delivery reports and leaves behind, read off the fields of the
 state alone: which report is given in which case, and what it changes.
 */
module Reports {
  import opened Prelude
  import opened Cache
  import opened StreamSpec
  import opened Ledger
  import Truth
  import Window

  // --------------------------------------------------------------- cases

  predicate Clears(e: Envelope) { exists i :: 0 <= i < |e.mutations| && e.mutations[i].Clear? }

  /** Nothing is waiting and nothing is held against the view. */
  predicate Undoubted(s: State) {
    !s.baselineUnknown && s.pending == map[] && s.equivocationCeiling.None? && s.unavailableCeiling.None?
  }

  /** No evidence has ever arrived on an unknown baseline. */
  predicate Unattached(s: State) { s.baselineUnknown && s.frontier.None? }

  predicate Fresh(s: State, e: Envelope) { e.cursor !in s.pending && Next(s) <= e.cursor }

  /** The delivery lies in the horizon of discarded evidence and does not clear everything seen. */
  predicate Barred(s: State, e: Envelope) {
    && Fresh(s, e) && s.unavailableFloor.Some? && s.unavailableCeiling.Some? && s.unavailableFloor.value <= e.cursor
    && !(Clears(e) && s.unavailableCeiling.value < e.cursor)
  }

  /** A clear is a barrier when it is needed: the view is in doubt, or something before it is missing. */
  predicate Rebases(s: State, e: Envelope) {
    Fresh(s, e) && !Barred(s, e) && Clears(e) && (!Undoubted(s) || Next(s) < e.cursor)
  }

  predicate InTurn(s: State, e: Envelope) {
    Fresh(s, e) && !Barred(s, e) && !Rebases(s, e) && (e.cursor == Next(s) || Unattached(s))
  }

  predicate Early(s: State, e: Envelope) {
    Fresh(s, e) && !Barred(s, e) && !Clears(e) && Next(s) < e.cursor && !Unattached(s)
  }

  /** What a waiting slot has heard so far. */
  predicate Waited(slot: PendingSlot, heard: Fingerprint) {
    match slot
    case Candidate(source) => heard == source.Print()
    case Conflict(first, second) => heard == first || heard == second
  }

  /** What a slot of the window has heard so far. */
  predicate Recalled(slot: RecentSlot, heard: Fingerprint) {
    match slot
    case Seen(first) => heard == first
    case Disputed(first, second) => heard == first || heard == second
  }

  predicate Old(s: State, e: Envelope) { e.cursor !in s.pending && e.cursor < Next(s) }

  ghost predicate Roomy(s: State, e: Envelope, l: Limits) {
    |s.pending| < l.maxPending && PendingBytes(s.pending) + e.canonicalBytes <= l.maxPendingBytes
  }

  /** The case in which each report is given. */
  ghost predicate Due(s: State, e: Envelope, l: Limits, d: Disposition) {
    match d
    case Applied => InTurn(s, e)
    case BarrierApplied => Rebases(s, e)
    case UnverifiableGap => Barred(s, e)
    case GapLimit => Early(s, e) && e.cursor - Next(s) > l.maxGapSpan
    case PendingLimit => Early(s, e) && e.cursor - Next(s) <= l.maxGapSpan && !Roomy(s, e, l)
    case Buffered => Early(s, e) && e.cursor - Next(s) <= l.maxGapSpan && Roomy(s, e, l)
    case Duplicate =>
      || (e.cursor in s.pending && Waited(s.pending[e.cursor], e.Print()))
      || (Old(s, e) && e.cursor in s.recent && Recalled(s.recent[e.cursor], e.Print()))
    case Equivocation =>
      || (e.cursor in s.pending && !Waited(s.pending[e.cursor], e.Print()))
      || (Old(s, e) && e.cursor in s.recent && !Recalled(s.recent[e.cursor], e.Print()))
    case StaleBarrier => Old(s, e) && e.cursor !in s.recent && Clears(e)
    case StaleUnverifiable => Old(s, e) && e.cursor !in s.recent && !Clears(e)
  }

  // ------------------------------------------------------------- reports

  /** The tests of the transition are these cases. */
  lemma TestsMean(s: State, e: Envelope)
    requires PendingInv(s) && HorizonInv(s) && s.initial <= e.cursor
    ensures e.HasClear() <==> Clears(e)
    ensures s.Ahead(e.cursor) <==> Next(s) <= e.cursor
    ensures Fresh(s, e) ==> (UnavailableBlocks(s, e) <==> Barred(s, e))
    ensures s.Certainty().Exact? <==> Undoubted(s)
    ensures Fresh(s, e) && !Barred(s, e) ==> (EligibleBarrier(s, e) <==> Rebases(s, e))
  {
    assert s.Certainty().Exact? <==> Undoubted(s);
  }

  lemma RoutesMean(s: State, e: Envelope)
    requires PendingInv(s) && AttachInv(s) && HorizonInv(s) && s.initial <= e.cursor
    ensures match RouteOf(s, e)
            case Redelivered => e.cursor in s.pending && Next(s) <= e.cursor
            case Past => Old(s, e)
            case Withheld => Barred(s, e)
            case Apply(barrier) => if barrier then Rebases(s, e) else InTurn(s, e)
            case Held => Early(s, e)
  {
    TestsMean(s, e);
  }

  lemma RedeliveryReports(s: State, e: Envelope, l: Limits)
    requires e.cursor in s.pending
    ensures PendingRedelivery(s, e, l).1 == if Waited(s.pending[e.cursor], e.Print()) then Duplicate else Equivocation
  {
  }

  lemma PastReports(s: State, e: Envelope, l: Limits)
    requires e.HasClear() <==> Clears(e)
    ensures PastDelivery(s, e, l).1 ==
            if e.cursor !in s.recent then (if Clears(e) then StaleBarrier else StaleUnverifiable)
            else if Recalled(s.recent[e.cursor], e.Print()) then Duplicate else Equivocation
  {
  }

  lemma EarlyReports(s: State, e: Envelope, l: Limits)
    requires Next(s) < e.cursor
    ensures Buffer(s, e, Next(s), l).1 ==
            if e.cursor - Next(s) > l.maxGapSpan then GapLimit else if Roomy(s, e, l) then Buffered else PendingLimit
  {
  }

  /** The one case that is due. */
  ghost predicate OnlyDue(s: State, e: Envelope, l: Limits, d: Disposition) {
    forall other :: Due(s, e, l, other) <==> other == d
  }

  lemma WaitingIsDue(s: State, e: Envelope, l: Limits, d: Disposition)
    requires e.cursor in s.pending && Next(s) <= e.cursor
    requires d == if Waited(s.pending[e.cursor], e.Print()) then Duplicate else Equivocation
    ensures OnlyDue(s, e, l, d)
  {
  }

  lemma OldIsDue(s: State, e: Envelope, l: Limits, d: Disposition)
    requires Old(s, e)
    requires d == if e.cursor !in s.recent then (if Clears(e) then StaleBarrier else StaleUnverifiable)
                  else if Recalled(s.recent[e.cursor], e.Print()) then Duplicate else Equivocation
    ensures OnlyDue(s, e, l, d)
  {
  }

  lemma EarlyIsDue(s: State, e: Envelope, l: Limits, d: Disposition)
    requires Early(s, e)
    requires d == if e.cursor - Next(s) > l.maxGapSpan then GapLimit else if Roomy(s, e, l) then Buffered else PendingLimit
    ensures OnlyDue(s, e, l, d)
  {
  }

  lemma OthersAreDue(s: State, e: Envelope, l: Limits)
    ensures Barred(s, e) ==> OnlyDue(s, e, l, UnverifiableGap)
    ensures Rebases(s, e) ==> OnlyDue(s, e, l, BarrierApplied)
    ensures InTurn(s, e) ==> OnlyDue(s, e, l, Applied)
  {
  }

  lemma RouteReports(s: State, e: Envelope, l: Limits, t: State, d: Disposition)
    requires PendingInv(s) && AttachInv(s) && HorizonInv(s) && Delivered(s, e, l, t, d)
    ensures OnlyDue(s, e, l, d)
  {
    RoutesMean(s, e);
    match RouteOf(s, e) {
      case Redelivered =>
        RedeliveryReports(s, e, l);
        WaitingIsDue(s, e, l, d);
      case Past =>
        TestsMean(s, e);
        PastReports(s, e, l);
        OldIsDue(s, e, l, d);
      case Withheld => OthersAreDue(s, e, l);
      case Apply(barrier) =>
        CommittedFrame(s, e, barrier, l, t, d);
        OthersAreDue(s, e, l);
      case Held =>
        EarlyReports(s, e, l);
        EarlyIsDue(s, e, l, d);
    }
  }

  /**
   Every delivery of the stream is reported as the one thing that is due,
   unless it was to be applied and the cache refused it.
   */
  lemma ReportsExactly(s: State, e: Envelope, l: Limits)
    requires Inv(s, l) && Belongs(s, e) && !s.failed
    ensures match Admit(s, Sealed, e, l).1
            case Ok(d) => OnlyDue(s, e, l, d)
            case Err(error) => error.CacheFailure? && (InTurn(s, e) || Rebases(s, e))
  {
    AdmitByRoute(s, e, l);
    match AdmitInner(s, e, l) {
      case Ok(step) => RouteReports(s, e, l, step.0, step.1);
      case Err(_) =>
        RoutesMean(s, e);
        OnlyCacheFails(s, e, l);
    }
  }

  // ------------------------------------------------------------- effects

  /** A ceiling that has risen to a cursor. */
  predicate RisenTo(before: Option<u64>, cursor: u64, after: Option<u64>) {
    after.Some? && cursor <= after.value && (before.Some? ==> before.value <= after.value) && (after == Some(cursor) || after == before)
  }

  predicate FallenTo(before: Option<u64>, cursor: u64, after: Option<u64>) {
    after.Some? && after.value <= cursor && (before.Some? ==> after.value <= before.value) && (after == Some(cursor) || after == before)
  }

  /** A contradiction is kept beside the first payload, unless the slot holds one already. */
  predicate Contradicts(s: State, e: Envelope, t: State) {
    && t == s.(pending := t.pending, recent := t.recent, equivocationCeiling := t.equivocationCeiling,
               viewAuthoritative := t.viewAuthoritative, diagnostics := t.diagnostics)
    && RisenTo(s.equivocationCeiling, e.cursor, t.equivocationCeiling)
    && (if e.cursor in s.pending then
          && t.viewAuthoritative == s.viewAuthoritative && t.recent == s.recent
          && t.pending == (if s.pending[e.cursor].Candidate?
                           then s.pending[e.cursor := Conflict(s.pending[e.cursor].source.Print(), e.Print())] else s.pending)
        else
          && !t.viewAuthoritative && t.pending == s.pending && e.cursor in s.recent
          && t.recent == (if s.recent[e.cursor].Seen?
                          then s.recent[e.cursor := Disputed(s.recent[e.cursor].first, e.Print())] else s.recent))
  }

  predicate Discards(s: State, e: Envelope, t: State) {
    && t == s.(unavailableFloor := t.unavailableFloor, unavailableCeiling := t.unavailableCeiling, diagnostics := t.diagnostics)
    && FallenTo(s.unavailableFloor, e.cursor, t.unavailableFloor) && RisenTo(s.unavailableCeiling, e.cursor, t.unavailableCeiling)
  }

  /** The payload of a delivery and of everything that waited behind it up to `last`, in cursor order. */
  function Payloads(e: Envelope, pending: map<u64, PendingSlot>, last: nat): seq<Mutation>
    requires e.cursor <= last && CleanSpan(pending, e.cursor, last)
    decreases last
  {
    if last == e.cursor then e.mutations else
      assert CleanAt(pending, last);
      Payloads(e, pending, last - 1) + pending[last].source.mutations
  }

  /** A window of the last `size` cursors. */
  ghost predicate Spans(after: map<u64, RecentSlot>, last: u64, size: nat) {
    forall c: u64 :: c in after <==> last + 1 - size <= c <= last
  }

  /** Each cursor of the window holds what was applied there. */
  ghost predicate HoldsApplied(before: map<u64, RecentSlot>, pending: map<u64, PendingSlot>, e: Envelope, after: map<u64, RecentSlot>) {
    && (forall c :: c in after && c < e.cursor ==> c in before && after[c] == before[c])
    && (e.cursor in after ==> after[e.cursor] == Seen(e.Print()))
    && (forall c :: c in after && e.cursor < c ==> CleanAt(pending, c) && after[c] == Seen(pending[c].source.Print()))
  }

  /** The window after an application: the last cursors that fit, each with what was applied there. */
  ghost predicate WindowIs(before: map<u64, RecentSlot>, pending: map<u64, PendingSlot>, e: Envelope, last: u64, maximum: nat, after: map<u64, RecentSlot>)
    requires e.cursor <= last
  {
    Spans(after, last, Min(|before| + (last + 1 - e.cursor), maximum)) && HoldsApplied(before, pending, e, after)
  }

  /** The frontier after an application: the end of the clean run that waited behind the delivery, which alone leaves the ledger. */
  ghost predicate Advances(s: State, e: Envelope, t: State) {
    && t.frontier.Some? && e.cursor <= t.frontier.value
    && CleanSpan(s.pending, e.cursor, t.frontier.value) && !CleanAt(s.pending, t.frontier.value + 1)
    && (forall c :: c in t.pending <==> c in s.pending && t.frontier.value < c)
    && (forall c :: c in t.pending ==> t.pending[c] == s.pending[c])
  }

  /** A barrier makes the view good again and lifts the ceilings below it; any other application leaves all marks alone. */
  predicate Remarks(s: State, e: Envelope, barrier: bool, t: State) {
    && t == s.(frontier := t.frontier, pending := t.pending, keys := t.keys, recent := t.recent, diagnostics := t.diagnostics,
               baselineUnknown := !barrier && s.baselineUnknown, viewAuthoritative := barrier || s.viewAuthoritative,
               equivocationCeiling := t.equivocationCeiling, unavailableFloor := t.unavailableFloor, unavailableCeiling := t.unavailableCeiling)
    && t.equivocationCeiling == (if barrier && s.equivocationCeiling.Some? && s.equivocationCeiling.value < e.cursor then None else s.equivocationCeiling)
    && (if barrier && s.unavailableCeiling.Some? && s.unavailableCeiling.value < e.cursor
        then t.unavailableFloor.None? && t.unavailableCeiling.None?
        else t.unavailableFloor == s.unavailableFloor && t.unavailableCeiling == s.unavailableCeiling)
  }

  /** An application takes the delivery and the clean run that waits behind it, and nothing else. */
  ghost predicate Applies(s: State, e: Envelope, barrier: bool, l: Limits, t: State) {
    && Advances(s, e, t) && Remarks(s, e, barrier, t)
    && t.keys == Fold(if barrier then {} else s.keys, Ops(Payloads(e, s.pending, t.frontier.value)))
    && WindowIs(if barrier then map[] else s.recent, s.pending, e, t.frontier.value, l.maxRecent, t.recent)
  }

  /** What a delivery that is reported as `d` changes. */
  ghost predicate Effect(s: State, e: Envelope, l: Limits, d: Disposition, t: State) {
    match d
    case Duplicate => t == s.(diagnostics := t.diagnostics)
    case StaleBarrier => t == s.(diagnostics := t.diagnostics)
    case StaleUnverifiable => t == s.(diagnostics := t.diagnostics)
    case Equivocation => Contradicts(s, e, t)
    case Buffered => t == s.(pending := s.pending[e.cursor := Candidate(e)])
    case GapLimit => Discards(s, e, t)
    case PendingLimit => Discards(s, e, t)
    case UnverifiableGap => Discards(s, e, t)
    case Applied => Applies(s, e, false, l, t)
    case BarrierApplied => Applies(s, e, true, l, t)
  }

  lemma RedeliveryEffect(s: State, e: Envelope, l: Limits)
    requires e.cursor in s.pending
    ensures var (t, d) := PendingRedelivery(s, e, l); Effect(s, e, l, d, t)
  {
  }

  lemma PastEffect(s: State, e: Envelope, l: Limits)
    requires e.cursor !in s.pending
    ensures var (t, d) := PastDelivery(s, e, l); Effect(s, e, l, d, t)
  {
  }

  lemma EarlyEffect(s: State, e: Envelope, l: Limits)
    requires Next(s) < e.cursor
    ensures var (t, d) := Buffer(s, e, Next(s), l); Effect(s, e, l, d, t)
  {
    BufferFrame(s, e, Next(s), l);
    DiscardEffect(s, e, Buffer(s, e, Next(s), l).0.diagnostics);
  }

  lemma DiscardEffect(s: State, e: Envelope, g: Diagnostics)
    ensures Discards(s, e, MarkUnavailable(s, e.cursor).(diagnostics := g))
  {
  }

  /** Folding all payloads is folding the delivery's and then those of the span. */
  lemma {:induction false} PayloadOps(e: Envelope, pending: map<u64, PendingSlot>, last: nat)
    requires e.cursor <= last && CleanSpan(pending, e.cursor, last)
    ensures Ops(Payloads(e, pending, last)) == Ops(e.mutations) + SpanOps(pending, e.cursor, last)
    decreases last
  {
    if last == e.cursor {
      assert Ops(e.mutations) + [] == Ops(e.mutations);
    } else {
      assert CleanAt(pending, last);
      var newest := pending[last].source.mutations;
      PayloadOps(e, pending, last - 1);
      OpsAppend(Payloads(e, pending, last - 1), newest);
      SpanOpsGrow(pending, e.cursor, last);
      AppendAssociates(Ops(e.mutations), SpanOps(pending, e.cursor, last - 1), Ops(newest));
    }
  }

  lemma {:induction false} SpanOpsGrow(pending: map<u64, PendingSlot>, from: nat, last: nat)
    requires from < last && CleanSpan(pending, from, last) && CleanAt(pending, last)
    ensures SpanOps(pending, from, last) == SpanOps(pending, from, last - 1) + Ops(pending[last].source.mutations)
    decreases last - from
  {
    if from + 1 == last {
      assert SpanOps(pending, last, last) == [];
    } else {
      assert CleanAt(pending, from + 1);
      SpanOpsGrow(pending, from + 1, last);
      AppendAssociates(Ops(pending[from + 1].source.mutations), SpanOps(pending, from + 1, last - 1), Ops(pending[last].source.mutations));
    }
  }

  lemma AppliedMembership(s: State, e: Envelope, barrier: bool, l: Limits, t: State, d: Disposition)
    requires WithinLimits(s.keys, l.cache) && Applicable(s, e, barrier) && ApplySource(s, e, barrier, l) == Ok((t, d))
    ensures t.keys == Fold(if barrier then {} else s.keys, Ops(Payloads(e, s.pending, DrainLast(s, e, barrier))))
  {
    var last := DrainLast(s, e, barrier);
    AppliedKeys(s, e, barrier, l, t, d);
    PayloadOps(e, s.pending, last);
    FoldAppend(s.keys, Ops(AppliedFrom(e, barrier)), SpanOps(s.pending, e.cursor, last));
    FoldAppend(if barrier then {} else s.keys, Ops(e.mutations), SpanOps(s.pending, e.cursor, last));
    if barrier {
      Truth.ClearForgets(e.mutations, s.keys, {});
    } else {
      assert e.mutations[0..] == e.mutations;
    }
  }

  lemma AppliedWindowIs(s: State, e: Envelope, barrier: bool, l: Limits, t: State, d: Disposition)
    requires WindowInv(s, l) && DisputeInv(s) && Applicable(s, e, barrier) && ApplySource(s, e, barrier, l) == Ok((t, d))
    ensures WindowIs(if barrier then map[] else s.recent, s.pending, e, DrainLast(s, e, barrier), l.maxRecent, t.recent)
  {
    var last := DrainLast(s, e, barrier);
    Window.AppliedWindow(s, e, barrier, l, t, d);
    AppliedFactsDigests(s, e, last);
    BlockSpans(t.recent, last, |t.recent|);
    WindowSpelledOut(if barrier then map[] else s.recent, s.pending, e, last, l.maxRecent, AppliedFacts(s, e, last), t.recent);
  }

  lemma WindowSpelledOut(before: map<u64, RecentSlot>, pending: map<u64, PendingSlot>, e: Envelope, last: u64, maximum: nat,
                         facts: seq<Fact>, after: map<u64, RecentSlot>)
    requires CleanSpan(pending, e.cursor, last) && e.cursor <= last && |facts| == last + 1 - e.cursor
    requires facts[0].digest == e.Print() && forall i :: 1 <= i < |facts| ==> facts[i].digest == DigestAt(pending, e.cursor + i)
    requires WindowAfter(before, facts, e.cursor, maximum, after)
    ensures HoldsApplied(before, pending, e, after)
  {
    forall c | c in after && e.cursor < c ensures CleanAt(pending, c) && after[c] == Seen(pending[c].source.Print()) {
      DrainedDigest(pending, e.cursor, last, facts, c);
    }
  }

  lemma BlockSpans(after: map<u64, RecentSlot>, last: u64, size: nat)
    requires Contiguous(after, last + 1) && |after| == size
    ensures Spans(after, last, size)
  {
    var next: nat := last as int + 1;
    Window.BlockIsExact(after, next);
  }

  lemma DrainedDigest(pending: map<u64, PendingSlot>, from: u64, last: u64, facts: seq<Fact>, c: u64)
    requires CleanSpan(pending, from, last) && from < c <= last && |facts| == last + 1 - from
    requires forall i :: 1 <= i < |facts| ==> facts[i].digest == DigestAt(pending, from + i)
    ensures CleanAt(pending, c) && facts[c - from].digest == pending[c].source.Print()
  {
    assert facts[c - from].digest == DigestAt(pending, from + (c - from));
    assert CleanAt(pending, c);
  }

  lemma AppliedEffect(s: State, e: Envelope, barrier: bool, l: Limits, t: State, d: Disposition)
    requires Inv(s, l) && Applicable(s, e, barrier) && ApplySource(s, e, barrier, l) == Ok((t, d))
    ensures Applies(s, e, barrier, l, t)
  {
    AppliedAdvances(s, e, barrier, l, t, d);
    AppliedRemarks(s, e, barrier, l, t, d);
    AppliedMembership(s, e, barrier, l, t, d);
    AppliedWindowIs(s, e, barrier, l, t, d);
  }

  lemma AppliedAdvances(s: State, e: Envelope, barrier: bool, l: Limits, t: State, d: Disposition)
    requires PendingInv(s) && AttachInv(s) && HorizonInv(s) && Applicable(s, e, barrier) && ApplySource(s, e, barrier, l) == Ok((t, d))
    ensures Advances(s, e, t) && t.frontier == Some(DrainLast(s, e, barrier))
  {
    var f := FoldBounded(Folded(s.keys, 0), ApplyOps(s, e, barrier), l.cache).value;
    CommittedFrame(s, e, barrier, l, t, d);
    StoppedClean(s, e, barrier);
    CommittedPending(s, e, barrier, DrainLast(s, e, barrier), f, l);
  }

  lemma AppliedRemarks(s: State, e: Envelope, barrier: bool, l: Limits, t: State, d: Disposition)
    requires Applicable(s, e, barrier) && ApplySource(s, e, barrier, l) == Ok((t, d))
    ensures Remarks(s, e, barrier, t)
  {
    CommittedFrame(s, e, barrier, l, t, d);
  }

  /** And it changes exactly what belongs to its report. */
  lemma ChangesExactly(s: State, e: Envelope, l: Limits)
    requires Inv(s, l) && Belongs(s, e) && !s.failed
    ensures var (t, r) := Admit(s, Sealed, e, l);
            match r case Ok(d) => Effect(s, e, l, d, t) case Err(_) => t == s.(failed := true)
  {
    AdmitByRoute(s, e, l);
    if AdmitInner(s, e, l).Ok? {
      var (t, d) := AdmitInner(s, e, l).value;
      match RouteOf(s, e) {
        case Redelivered => RedeliveryEffect(s, e, l);
        case Past => PastEffect(s, e, l);
        case Withheld => DiscardEffect(s, e, t.diagnostics);
        case Apply(barrier) =>
          CommittedFrame(s, e, barrier, l, t, d);
          AppliedEffect(s, e, barrier, l, t, d);
        case Held => EarlyEffect(s, e, l);
      }
    }
  }

  /** A clear that is merely next on an undoubted view is no barrier: the window keeps whatever still fits. */
  lemma NextClearKeepsWindow(s: State, e: Envelope, l: Limits)
    requires Inv(s, l) && Belongs(s, e) && !s.failed && Undoubted(s) && e.cursor == Next(s)
    ensures var (t, r) := Admit(s, Sealed, e, l);
            r.Ok? ==>
              && r.value == Applied && t.frontier.Some?
              && (forall c :: c in s.recent && t.frontier.value < c + l.maxRecent ==> c in t.recent && t.recent[c] == s.recent[c])
  {
    var (t, r) := Admit(s, Sealed, e, l);
    ReportsExactly(s, e, l);
    ChangesExactly(s, e, l);
    if r.Ok? {
      assert Due(s, e, l, Applied);
      Window.BlockIsExact(s.recent, Next(s));
    }
  }
}
