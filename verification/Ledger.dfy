/**
 What every delivery keeps, whatever the order, loss or duplication: the
 pending ledger, the unavailable horizon, the fingerprint window, the reasons
 behind lost authority, and the resource ceilings.
 */
module Ledger {
  import opened Prelude
  import opened Cache
  import opened StreamSpec

  // ------------------------------------------------- pending byte totals

  lemma {:induction false} PendingBytesRemove(p: map<u64, PendingSlot>, c: u64)
    requires c in p
    ensures PendingBytes(p) == SlotBytes(p[c]) + PendingBytes(p - {c})
    decreases |p|
  {
    assert p != map[];
    var first :| first in p && PendingBytes(p) == SlotBytes(p[first]) + PendingBytes(p - {first});
    MapRemoveSize(p, first);
    MapRemoveSize(p, c);
    if first != c {
      PendingBytesRemove(p - {first}, c);
      assert p - {first} - {c} == p - {c} - {first};
      PendingBytesRemove(p - {c}, first);
    }
  }

  lemma PendingBytesUpdate(p: map<u64, PendingSlot>, c: u64, slot: PendingSlot)
    ensures PendingBytes(p[c := slot]) + (if c in p then SlotBytes(p[c]) else 0) == PendingBytes(p) + SlotBytes(slot)
  {
    var q := p[c := slot];
    PendingBytesRemove(q, c);
    if c in p {
      PendingBytesRemove(p, c);
      assert q - {c} == p - {c};
    } else {
      assert q - {c} == p;
    }
  }

  predicate SubLedger(q: map<u64, PendingSlot>, p: map<u64, PendingSlot>) {
    forall c :: c in q ==> c in p && q[c] == p[c]
  }

  /** Forgetting slots never increases the count or the byte total. */
  lemma {:induction false} SubLedgerSmaller(q: map<u64, PendingSlot>, p: map<u64, PendingSlot>)
    requires SubLedger(q, p)
    ensures |q| <= |p| && PendingBytes(q) <= PendingBytes(p)
    decreases |q|
  {
    if q != map[] {
      var c :| c in q;
      MapRemoveSize(q, c);
      MapRemoveSize(p, c);
      PendingBytesRemove(q, c);
      PendingBytesRemove(p, c);
      SubLedgerSmaller(q - {c}, p - {c});
    }
  }

  /** A ledger's bytes are those at or below a cursor plus those above it. */
  lemma {:induction false} PendingBytesSplit(p: map<u64, PendingSlot>, cursor: u64)
    ensures PendingBytes(p) == PendingBytes(AtOrUnder(p, cursor)) + PendingBytes(Above(p, cursor))
    decreases |p|
  {
    if p == map[] {
      assert AtOrUnder(p, cursor) == map[] && Above(p, cursor) == map[];
    } else {
      var c :| c in p;
      var q := p - {c};
      MapRemoveSize(p, c);
      PendingBytesRemove(p, c);
      PendingBytesSplit(q, cursor);
      if c <= cursor {
        PendingBytesRemove(AtOrUnder(p, cursor), c);
        assert AtOrUnder(q, cursor) == AtOrUnder(p, cursor) - {c};
        assert Above(q, cursor) == Above(p, cursor);
      } else {
        PendingBytesRemove(Above(p, cursor), c);
        assert AtOrUnder(q, cursor) == AtOrUnder(p, cursor);
        assert Above(q, cursor) == Above(p, cursor) - {c};
      }
    }
  }

  /** Draining consecutive cursors removes exactly the slots of that range. */
  lemma {:induction false} DrainedMembers(p: map<u64, PendingSlot>, facts: seq<Fact>, from: nat)
    requires Consecutive(facts, from)
    ensures forall c :: c in Drained(p, facts) <==> c in p && !(from <= c < from + |facts|)
    ensures SubLedger(Drained(p, facts), p)
    decreases facts
  {
    if facts != [] {
      assert Consecutive(facts[1..], from + 1);
      DrainedMembers(p - {facts[0].cursor}, facts[1..], from + 1);
    }
  }

  // ---------------------------------------------------------- invariants

  /** The cursor that follows everything applied; one past the domain when it is exhausted. */
  function Next(s: State): nat {
    if s.frontier.Some? then s.frontier.value + 1 else s.initial
  }

  /** Pending evidence lies beyond the frontier, is drained eagerly, and never holds a clear. */
  ghost predicate PendingInv(s: State) {
    && s.initial <= Next(s)
    && LedgerAhead(s.pending, Next(s))
    && !CleanAt(s.pending, Next(s))
    && LedgerFits(s.pending, s.session, s.streamId)
  }

  ghost predicate LedgerAhead(pending: map<u64, PendingSlot>, next: nat) {
    forall c :: c in pending ==> next <= c
  }

  ghost predicate LedgerFits(pending: map<u64, PendingSlot>, session: nat, streamId: string) {
    forall c :: c in pending && pending[c].Candidate? ==> CandidateFits(pending[c].source, c, session, streamId)
  }

  predicate CandidateFits(e: Envelope, c: u64, session: nat, streamId: string) {
    e.cursor == c && e.session == session && e.streamId == streamId && !e.HasClear()
  }

  /** Before its first delivery an unknown baseline holds no evidence at all. */
  predicate AttachInv(s: State) {
    s.baselineUnknown && s.frontier.None? ==> s.pending == map[] && s.unavailableFloor.None?
  }

  /** Every retained disagreement stays at or below the equivocation ceiling. */
  ghost predicate DisputeInv(s: State) {
    && ConflictsBelow(s.pending, s.equivocationCeiling)
    && DisputesBelow(s.recent, s.equivocationCeiling)
  }

  ghost predicate ConflictsBelow(pending: map<u64, PendingSlot>, ceiling: Option<u64>) {
    forall c :: c in pending && pending[c].Conflict? ==> ceiling.Some? && c <= ceiling.value
  }

  ghost predicate DisputesBelow(recent: map<u64, RecentSlot>, ceiling: Option<u64>) {
    forall c :: c in recent && recent[c].Disputed? ==> ceiling.Some? && c <= ceiling.value
  }

  /** While evidence has been discarded the frontier stays strictly below the floor. */
  predicate HorizonInv(s: State) {
    && (s.unavailableFloor.Some? <==> s.unavailableCeiling.Some?)
    && (s.unavailableFloor.Some? ==>
          && s.unavailableFloor.value <= s.unavailableCeiling.value
          && Next(s) <= s.unavailableFloor.value
          && s.unavailableFloor.value !in s.pending)
  }

  /** The fingerprint window is a contiguous block that ends at the frontier. */
  ghost predicate WindowInv(s: State, l: Limits) {
    && (s.frontier.None? ==> s.recent == map[])
    && Contiguous(s.recent, Next(s))
    && |s.recent| <= l.maxRecent
  }

  ghost predicate Contiguous(recent: map<u64, RecentSlot>, next: nat) {
    forall c :: c in recent ==> c < next && forall d :: c <= d < next ==> d in recent
  }

  /** Authority is lost only for a reason that is still on record. */
  predicate AuthorityInv(s: State) {
    && (s.viewAuthoritative ==> !s.baselineUnknown)
    && (!s.viewAuthoritative ==> s.baselineUnknown || s.equivocationCeiling.Some?)
  }

  ghost predicate SizeInv(s: State, l: Limits) {
    && |s.pending| <= l.maxPending
    && PendingBytes(s.pending) <= l.maxPendingBytes
    && WithinLimits(s.keys, l.cache)
  }

  ghost predicate Inv(s: State, l: Limits) {
    PendingInv(s) && AttachInv(s) && DisputeInv(s) && HorizonInv(s) && WindowInv(s, l) && AuthorityInv(s) && SizeInv(s, l)
  }

  // ------------------------------------------------------- preservation

  lemma StartInv(session: nat, streamId: string, scope: Scope, initial: u64, trustedEmpty: bool, l: Limits)
    ensures Inv(Start(session, streamId, scope, initial, trustedEmpty), l)
  {
  }

  lemma DiagnosticsInv(s: State, d: Diagnostics, l: Limits)
    requires Inv(s, l)
    ensures Inv(s.(diagnostics := d), l)
  {
  }

  lemma EquivocationInv(s: State, c: u64, invalidatesView: bool, l: Limits)
    requires Inv(s, l)
    ensures Inv(MarkEquivocation(s, c, invalidatesView, l), l)
  {
  }

  lemma PendingRedeliveryInv(s: State, e: Envelope, l: Limits)
    requires Inv(s, l) && e.cursor in s.pending
    ensures Inv(PendingRedelivery(s, e, l).0, l)
  {
    match s.pending[e.cursor] {
      case Candidate(first) =>
        if first.Print() != e.Print() {
          DisputedPendingLedger(s, e.cursor, first.Print(), e.Print(), l);
          DisputedPendingConflicts(s, e.cursor, first.Print(), e.Print(), l);
          DisputedPendingSizes(s, e.cursor, first.Print(), e.Print(), l);
        } else {
          DiagnosticsInv(s, BumpDuplicate(s.diagnostics, l.maxDiagnostic), l);
        }
      case Conflict(first, second) =>
        if first == e.Print() || second == e.Print() {
          DiagnosticsInv(s, BumpDuplicate(s.diagnostics, l.maxDiagnostic), l);
        } else {
          EquivocationInv(s, e.cursor, false, l);
        }
    }
  }

  function DisputedPending(s: State, c: u64, first: Fingerprint, second: Fingerprint, l: Limits): State {
    MarkEquivocation(s.(pending := s.pending[c := Conflict(first, second)]), c, false, l)
  }

  lemma DisputedPendingLedger(s: State, c: u64, first: Fingerprint, second: Fingerprint, l: Limits)
    requires PendingInv(s) && AttachInv(s) && HorizonInv(s) && c in s.pending
    ensures var r := DisputedPending(s, c, first, second, l);
            PendingInv(r) && AttachInv(r) && HorizonInv(r)
  {
  }

  lemma DisputedPendingConflicts(s: State, c: u64, first: Fingerprint, second: Fingerprint, l: Limits)
    requires DisputeInv(s) && AuthorityInv(s)
    ensures var r := DisputedPending(s, c, first, second, l);
            DisputeInv(r) && AuthorityInv(r)
  {
  }

  /** Replacing a candidate by a conflict releases its bytes and keeps its slot. */
  lemma DisputedPendingSizes(s: State, c: u64, first: Fingerprint, second: Fingerprint, l: Limits)
    requires SizeInv(s, l) && c in s.pending
    ensures SizeInv(DisputedPending(s, c, first, second, l), l)
  {
    PendingBytesUpdate(s.pending, c, Conflict(first, second));
    MapInsertSize(s.pending, c, Conflict(first, second));
  }

  lemma PastDeliveryInv(s: State, e: Envelope, l: Limits)
    requires Inv(s, l)
    ensures Inv(PastDelivery(s, e, l).0, l)
  {
    if e.cursor !in s.recent {
      DiagnosticsInv(s, BumpStale(s.diagnostics, e.HasClear(), l.maxDiagnostic), l);
    } else {
      DiagnosticsInv(s, BumpDuplicate(s.diagnostics, l.maxDiagnostic), l);
      match s.recent[e.cursor] {
        case Seen(first) =>
          if first != e.Print() {
            DisputeRecentInv(s, e.cursor, first, e.Print(), l);
          }
        case Disputed(_, _) => EquivocationInv(s, e.cursor, true, l);
      }
    }
  }

  lemma DisputeRecentInv(s: State, c: u64, first: Fingerprint, second: Fingerprint, l: Limits)
    requires Inv(s, l) && c in s.recent
    ensures Inv(MarkEquivocation(s.(recent := s.recent[c := Disputed(first, second)]), c, true, l), l)
  {
    var recent := s.recent[c := Disputed(first, second)];
    MapInsertSize(s.recent, c, Disputed(first, second));
    assert recent.Keys == s.recent.Keys;
    assert Contiguous(recent, Next(s));
  }

  /** Only the horizon and the diagnostics may have moved. */
  predicate SameButHorizon(s: State, t: State) {
    t == s.(unavailableFloor := t.unavailableFloor, unavailableCeiling := t.unavailableCeiling, diagnostics := t.diagnostics)
  }

  lemma HorizonMovedInv(s: State, t: State, l: Limits)
    requires Inv(s, l) && SameButHorizon(s, t) && HorizonInv(t) && AttachInv(t)
    ensures Inv(t, l)
  {
  }

  lemma UnverifiableInv(s: State, e: Envelope, l: Limits)
    requires Inv(s, l) && UnavailableBlocks(s, e)
    ensures Inv(MarkUnavailable(s, e.cursor).(diagnostics := BumpUnverifiable(s.diagnostics, l.maxDiagnostic)), l)
  {
    HorizonMovedInv(s, MarkUnavailable(s, e.cursor).(diagnostics := BumpUnverifiable(s.diagnostics, l.maxDiagnostic)), l);
  }

  /** Discarding unseen evidence beyond the expected cursor. */
  lemma DiscardInv(s: State, c: u64, d: Diagnostics, l: Limits)
    requires Inv(s, l) && Next(s) <= c && c !in s.pending
    requires !(s.baselineUnknown && s.frontier.None?)
    ensures Inv(MarkUnavailable(s, c).(diagnostics := d), l)
  {
    HorizonMovedInv(s, MarkUnavailable(s, c).(diagnostics := d), l);
  }

  /** Retaining one more clean candidate within both ledger ceilings. */
  lemma RetainCandidateInv(s: State, e: Envelope, l: Limits)
    requires Inv(s, l) && e.cursor !in s.pending && Next(s) < e.cursor
    requires s.unavailableFloor.Some? ==> e.cursor < s.unavailableFloor.value
    requires CandidateFits(e, e.cursor, s.session, s.streamId)
    requires !(s.baselineUnknown && s.frontier.None?)
    requires |s.pending| < l.maxPending && PendingBytes(s.pending) + e.canonicalBytes <= l.maxPendingBytes
    ensures Inv(s.(pending := s.pending[e.cursor := Candidate(e)]), l)
  {
    var pending := s.pending[e.cursor := Candidate(e)];
    PendingBytesUpdate(s.pending, e.cursor, Candidate(e));
    MapInsertSize(s.pending, e.cursor, Candidate(e));
    assert LedgerAhead(pending, Next(s));
    assert LedgerFits(pending, s.session, s.streamId);
    assert ConflictsBelow(pending, s.equivocationCeiling);
  }

  /** Nothing that carries a clear is ever buffered. */
  lemma BufferedHasNoClear(s: State, e: Envelope)
    requires !EligibleBarrier(s, e) && s.Ahead(e.cursor)
    requires s.Expected().Some? && e.cursor > s.Expected().value
    ensures !e.HasClear()
  {
  }

  lemma BufferInv(s: State, e: Envelope, l: Limits)
    requires Inv(s, l) && e.cursor !in s.pending && s.Ahead(e.cursor)
    requires e.session == s.session && e.streamId == s.streamId
    requires s.Expected().Some? && e.cursor > s.Expected().value
    requires !UnavailableBlocks(s, e) && !EligibleBarrier(s, e)
    requires !(s.baselineUnknown && s.frontier.None?)
    ensures Inv(Buffer(s, e, s.Expected().value, l).0, l)
  {
    var expected := s.Expected().value;
    assert expected == Next(s);
    BufferedHasNoClear(s, e);
    if e.cursor - expected > l.maxGapSpan {
      DiscardInv(s, e.cursor, BumpGapLimit(s.diagnostics, l.maxDiagnostic), l);
    } else if |s.pending| >= l.maxPending || PendingBytes(s.pending) + e.canonicalBytes > l.maxPendingBytes {
      DiscardInv(s, e.cursor, BumpPendingLimit(s.diagnostics, l.maxDiagnostic), l);
    } else {
      RetainCandidateInv(s, e, l);
    }
  }

  // --------------------------------------------------------- application

  /** Exactly the situations in which a delivery is applied rather than set aside. */
  predicate Applicable(s: State, e: Envelope, barrier: bool) {
    && s.initial <= e.cursor
    && Next(s) <= e.cursor
    && e.cursor !in s.pending
    && !UnavailableBlocks(s, e)
    && (if barrier then EligibleBarrier(s, e)
        else !EligibleBarrier(s, e) && (e.cursor == Next(s) || (s.baselineUnknown && s.frontier.None?)))
  }

  function DrainLast(s: State, e: Envelope, barrier: bool): (last: u64) {
    DrainEnd(s.pending, DrainFloor(s, e, barrier), e.cursor)
  }

  /** An applied delivery and everything it drains stay below a horizon that survives it. */
  lemma AppliedBelowFloor(s: State, e: Envelope, barrier: bool)
    requires HorizonInv(s) && Applicable(s, e, barrier)
    ensures DrainFloor(s, e, barrier).Some? ==> DrainLast(s, e, barrier) < DrainFloor(s, e, barrier).value
    ensures barrier ==> DrainFloor(s, e, barrier) == Rebased(s, e.cursor).unavailableFloor
  {
    var floor := DrainFloor(s, e, barrier);
    if floor.Some? {
      var last := DrainLast(s, e, barrier);
      assert s.Poison().Some?;
      assert e.cursor < floor.value;
      assert last > e.cursor ==> !Blocked(floor, last);
    }
  }

  predicate Consecutive(facts: seq<Fact>, from: nat) {
    forall i :: 0 <= i < |facts| ==> facts[i].cursor == from + i
  }

  lemma {:induction false} TrimKeepsBlock(recent: map<u64, RecentSlot>, next: nat, maximum: nat)
    requires Contiguous(recent, next)
    ensures Contiguous(TrimOldest(recent, maximum), next)
    ensures |TrimOldest(recent, maximum)| == Min(|recent|, maximum)
    ensures forall c :: c in TrimOldest(recent, maximum) ==> c in recent && TrimOldest(recent, maximum)[c] == recent[c]
    decreases |recent|
  {
    if |recent| > maximum {
      var o := Oldest(recent);
      MapRemoveSize(recent, o);
      TrimKeepsBlock(recent - {o}, next, maximum);
    }
  }

  /**
   Retaining consecutive fingerprints keeps one block ending at the last of
   them; its length is the window size or everything retained, whichever is less.
   */
  lemma {:induction false} RetainKeepsBlock(recent: map<u64, RecentSlot>, facts: seq<Fact>, from: nat, maximum: nat)
    requires Contiguous(recent, from) && Consecutive(facts, from)
    requires |recent| <= maximum
    ensures WindowAfter(recent, facts, from, maximum, Retain(recent, facts, maximum))
    decreases facts
  {
    if facts != [] {
      var c0 := facts[0].cursor;
      var grown := recent[c0 := Seen(facts[0].digest)];
      MapInsertSize(recent, c0, Seen(facts[0].digest));
      TrimKeepsBlock(grown, from + 1, maximum);
      var trimmed := TrimOldest(grown, maximum);
      var rest := facts[1..];
      assert Consecutive(rest, from + 1);
      RetainKeepsBlock(trimmed, rest, from + 1, maximum);
      WindowStep(recent, facts, from, maximum, trimmed, Retain(trimmed, rest, maximum));
    }
  }

  lemma WindowStep(
      recent: map<u64, RecentSlot>, facts: seq<Fact>, from: nat, maximum: nat,
      trimmed: map<u64, RecentSlot>, r: map<u64, RecentSlot>)
    requires facts != [] && Consecutive(facts, from) && Contiguous(recent, from) && |recent| <= maximum
    requires |trimmed| == Min(|recent| + 1, maximum)
    requires forall c :: c in trimmed ==>
               if c == from then trimmed[c] == Seen(facts[0].digest) else c in recent && trimmed[c] == recent[c]
    requires WindowAfter(trimmed, facts[1..], from + 1, maximum, r)
    ensures WindowAfter(recent, facts, from, maximum, r)
  {
    var rest := facts[1..];
    forall c | c in r && from <= c ensures c - from < |facts| && r[c] == Seen(facts[c - from].digest) {
      if c != from {
        assert facts[c - from] == rest[c - (from + 1)];
      }
    }
  }

  /** The ledger left behind by an application is exactly what lies above it. */
  lemma CommittedPending(s: State, e: Envelope, barrier: bool, last: u64, f: Folded, l: Limits)
    requires PendingInv(s) && AttachInv(s) && Applicable(s, e, barrier)
    requires e.cursor <= last && CleanSpan(s.pending, e.cursor, last)
    ensures var left := Committed(s, e, barrier, last, f, l).pending;
            && SubLedger(left, s.pending)
            && (forall c :: c in left <==> c in s.pending && c > last)
  {
    SpanFactsDigests(s.pending, e.cursor, last);
    var span := SpanFacts(s.pending, e.cursor, last);
    var base := if barrier then Above(s.pending, e.cursor) else s.pending;
    assert forall c :: c in base <==> c in s.pending && c > e.cursor;
    DrainedMembers(base, span, e.cursor + 1);
  }

  lemma CommittedSizes(s: State, e: Envelope, barrier: bool, f: Folded, l: Limits)
    requires Inv(s, l) && Applicable(s, e, barrier)
    requires FoldBounded(Folded(s.keys, 0), ApplyOps(s, e, barrier), l.cache) == Ok(f)
    ensures SizeInv(Committed(s, e, barrier, DrainLast(s, e, barrier), f, l), l)
  {
    var last := DrainLast(s, e, barrier);
    CommittedPending(s, e, barrier, last, f, l);
    SubLedgerSmaller(Committed(s, e, barrier, last, f, l).pending, s.pending);
    BoundedFoldMeaning(Folded(s.keys, 0), ApplyOps(s, e, barrier), l.cache);
  }

  /** The digests recorded by one application, oldest first. */
  function AppliedFacts(s: State, e: Envelope, last: u64): seq<Fact>
    requires CleanSpan(s.pending, e.cursor, last)
  {
    [Fact(e.cursor, e.Print())] + SpanFacts(s.pending, e.cursor, last)
  }

  /** The digest a clean slot would contribute when drained. */
  function DigestAt(pending: map<u64, PendingSlot>, c: int): Fingerprint {
    if CleanAt(pending, c) then pending[c].source.Print() else Fingerprint([])
  }

  lemma {:induction false} SpanFactsDigests(pending: map<u64, PendingSlot>, from: nat, last: nat)
    requires CleanSpan(pending, from, last) && from <= last
    ensures var facts := SpanFacts(pending, from, last);
            && |facts| == last - from
            && Consecutive(facts, from + 1)
            && forall i :: 0 <= i < |facts| ==> facts[i].digest == DigestAt(pending, from + 1 + i)
    decreases last - from
  {
    if from < last {
      SpanFactsDigests(pending, from + 1, last);
      var rest := SpanFacts(pending, from + 1, last);
      var facts := SpanFacts(pending, from, last);
      assert CleanAt(pending, from + 1);
      forall i | 0 <= i < |facts|
        ensures facts[i].cursor == from + 1 + i && facts[i].digest == DigestAt(pending, from + 1 + i)
      {
        if i > 0 { assert facts[i] == rest[i - 1]; }
      }
    }
  }

  /** One application records consecutive cursors from the delivered one to the last drained one. */
  lemma AppliedFactsDigests(s: State, e: Envelope, last: u64)
    requires CleanSpan(s.pending, e.cursor, last) && e.cursor <= last
    ensures var facts := AppliedFacts(s, e, last);
            && |facts| == last - e.cursor + 1
            && Consecutive(facts, e.cursor)
            && facts[0].digest == e.Print()
            && forall i :: 1 <= i < |facts| ==> facts[i].digest == DigestAt(s.pending, e.cursor + i)
  {
    SpanFactsDigests(s.pending, e.cursor, last);
    var facts := AppliedFacts(s, e, last);
    var span := SpanFacts(s.pending, e.cursor, last);
    forall i | 1 <= i < |facts|
      ensures facts[i].cursor == e.cursor + i && facts[i].digest == DigestAt(s.pending, e.cursor + i)
    {
      assert facts[i] == span[i - 1];
    }
  }

  /** The window after an application: its length, what it kept, and what it added. */
  ghost predicate WindowAfter(before: map<u64, RecentSlot>, facts: seq<Fact>, from: nat, maximum: nat, after: map<u64, RecentSlot>) {
    && Contiguous(after, from + |facts|)
    && |after| == Min(|before| + |facts|, maximum)
    && (forall c :: c in after && c < from ==> c in before && after[c] == before[c])
    && (forall c :: c in after && from <= c ==> c - from < |facts| && after[c] == Seen(facts[c - from].digest))
  }

  lemma CommittedWindow(s: State, e: Envelope, barrier: bool, last: u64, f: Folded, l: Limits)
    requires WindowInv(s, l) && DisputeInv(s) && Applicable(s, e, barrier)
    requires e.cursor <= last && CleanSpan(s.pending, e.cursor, last)
    ensures var r := Committed(s, e, barrier, last, f, l);
            && WindowInv(r, l)
            && DisputesBelow(r.recent, r.equivocationCeiling)
            && WindowAfter(if barrier then map[] else s.recent, AppliedFacts(s, e, last), e.cursor, l.maxRecent, r.recent)
  {
    var before := if barrier then map[] else s.recent;
    AppliedFactsDigests(s, e, last);
    RetainKeepsBlock(before, AppliedFacts(s, e, last), e.cursor, l.maxRecent);
  }

  lemma CommittedLedger(s: State, e: Envelope, barrier: bool, f: Folded, l: Limits)
    requires PendingInv(s) && AttachInv(s) && HorizonInv(s) && Applicable(s, e, barrier)
    ensures var r := Committed(s, e, barrier, DrainLast(s, e, barrier), f, l);
            PendingInv(r) && AttachInv(r)
  {
    var last := DrainLast(s, e, barrier);
    CommittedPending(s, e, barrier, last, f, l);
    StoppedClean(s, e, barrier);
    var r := Committed(s, e, barrier, last, f, l);
    assert forall c :: c in r.pending ==> c in s.pending && c > last && r.pending[c] == s.pending[c];
    assert LedgerFits(r.pending, r.session, r.streamId);
  }

  /** Draining stops only where no clean candidate is waiting. */
  lemma StoppedClean(s: State, e: Envelope, barrier: bool)
    requires HorizonInv(s) && Applicable(s, e, barrier)
    ensures !CleanAt(s.pending, DrainLast(s, e, barrier) as int + 1)
  {
    AppliedBelowFloor(s, e, barrier);
  }

  lemma CommittedHorizon(s: State, e: Envelope, barrier: bool, f: Folded, l: Limits)
    requires PendingInv(s) && AttachInv(s) && HorizonInv(s) && Applicable(s, e, barrier)
    ensures HorizonInv(Committed(s, e, barrier, DrainLast(s, e, barrier), f, l))
  {
    CommittedPending(s, e, barrier, DrainLast(s, e, barrier), f, l);
    AppliedBelowFloor(s, e, barrier);
  }

  lemma CommittedConflicts(s: State, e: Envelope, barrier: bool, f: Folded, l: Limits)
    requires PendingInv(s) && AttachInv(s) && DisputeInv(s) && Applicable(s, e, barrier)
    ensures var r := Committed(s, e, barrier, DrainLast(s, e, barrier), f, l);
            ConflictsBelow(r.pending, r.equivocationCeiling)
  {
    CommittedPending(s, e, barrier, DrainLast(s, e, barrier), f, l);
  }

  lemma CommittedInv(s: State, e: Envelope, barrier: bool, f: Folded, l: Limits)
    requires Inv(s, l) && Applicable(s, e, barrier)
    requires FoldBounded(Folded(s.keys, 0), ApplyOps(s, e, barrier), l.cache) == Ok(f)
    ensures Inv(Committed(s, e, barrier, DrainLast(s, e, barrier), f, l), l)
  {
    CommittedSizes(s, e, barrier, f, l);
    CommittedWindow(s, e, barrier, DrainLast(s, e, barrier), f, l);
    CommittedLedger(s, e, barrier, f, l);
    CommittedHorizon(s, e, barrier, f, l);
    CommittedConflicts(s, e, barrier, f, l);
  }

  // ------------------------------------------------------ one whole step

  /** The last arm of the cursor match, which treats a fresh cursor as past, is never taken. */
  lemma FallbackUnreachable(s: State, e: Envelope)
    requires PendingInv(s) && s.initial <= e.cursor && s.Ahead(e.cursor)
    ensures s.Expected().Some? && s.Expected().value == Next(s) <= e.cursor
  {
  }

  /** The five things a delivery can do once it is known to belong to the stream. */
  datatype Route = Redelivered | Past | Withheld | Apply(barrier: bool) | Held

  function RouteOf(s: State, e: Envelope): Route {
    if e.cursor in s.pending then Redelivered
    else if !s.Ahead(e.cursor) then Past
    else if UnavailableBlocks(s, e) then Withheld
    else if EligibleBarrier(s, e) then Apply(true)
    else if (s.baselineUnknown && s.frontier.None?) || e.cursor == Next(s) then Apply(false)
    else Held
  }

  predicate Belongs(s: State, e: Envelope) {
    e.session == s.session && e.streamId == s.streamId && s.initial <= e.cursor
  }

  ghost function Routed(s: State, e: Envelope, l: Limits): Result<(State, Disposition), AdmitError>
    requires RouteOf(s, e).Held? ==> Next(s) < e.cursor <= U64_MAX
  {
    match RouteOf(s, e)
    case Redelivered => Ok(PendingRedelivery(s, e, l))
    case Past => Ok(PastDelivery(s, e, l))
    case Withheld =>
      Ok((MarkUnavailable(s, e.cursor).(diagnostics := BumpUnverifiable(s.diagnostics, l.maxDiagnostic)), UnverifiableGap))
    case Apply(barrier) => ApplySource(s, e, barrier, l)
    case Held => Ok(Buffer(s, e, Next(s), l))
  }

  /** Delivery is decided by its route alone. */
  lemma AdmitByRoute(s: State, e: Envelope, l: Limits)
    requires PendingInv(s) && Belongs(s, e)
    ensures RouteOf(s, e).Held? ==> Next(s) < e.cursor && !e.HasClear()
    ensures RouteOf(s, e).Apply? ==> Applicable(s, e, RouteOf(s, e).barrier)
    ensures AdmitInner(s, e, l) == Routed(s, e, l)
  {
    if s.Ahead(e.cursor) {
      FallbackUnreachable(s, e);
    }
  }

  /** A delivery that was accepted, seen through its route. */
  ghost predicate Delivered(s: State, e: Envelope, l: Limits, t: State, d: Disposition) {
    && Belongs(s, e)
    && (RouteOf(s, e).Held? ==> Next(s) < e.cursor && !e.HasClear())
    && (RouteOf(s, e).Apply? ==> Applicable(s, e, RouteOf(s, e).barrier))
    && Routed(s, e, l) == Ok((t, d))
  }

  lemma AcceptedIsDelivered(s: State, e: Envelope, l: Limits, t: State, d: Disposition)
    requires PendingInv(s) && AdmitInner(s, e, l) == Ok((t, d))
    ensures Delivered(s, e, l, t, d)
  {
    AdmitByRoute(s, e, l);
  }

  lemma PendingRedeliveryFrame(s: State, e: Envelope, l: Limits)
    requires e.cursor in s.pending
    ensures var (t, d) := PendingRedelivery(s, e, l);
            && t == s.(pending := t.pending, equivocationCeiling := t.equivocationCeiling, diagnostics := t.diagnostics)
            && t.pending.Keys == s.pending.Keys
            && (forall c :: c in t.pending && t.pending[c].Candidate? ==> t.pending[c] == s.pending[c])
            && d in {Duplicate, Equivocation}
  {
  }

  lemma PastDeliveryFrame(s: State, e: Envelope, l: Limits)
    ensures var (t, d) := PastDelivery(s, e, l);
            && t == s.(recent := t.recent, equivocationCeiling := t.equivocationCeiling,
                       viewAuthoritative := t.viewAuthoritative, diagnostics := t.diagnostics)
            && (t.viewAuthoritative ==> s.viewAuthoritative)
            && d in {Duplicate, Equivocation, StaleBarrier, StaleUnverifiable}
  {
  }

  lemma BufferFrame(s: State, e: Envelope, expected: u64, l: Limits)
    requires expected < e.cursor
    ensures var (t, d) := Buffer(s, e, expected, l);
            if d == Buffered then t == s.(pending := s.pending[e.cursor := Candidate(e)])
            else
              && d in {GapLimit, PendingLimit}
              && t == MarkUnavailable(s, e.cursor).(diagnostics := t.diagnostics)
  {
  }

  /** An application reaches at least its own cursor and touches the horizon only by lifting it. */
  lemma CommittedFrame(s: State, e: Envelope, barrier: bool, l: Limits, t: State, d: Disposition)
    requires Applicable(s, e, barrier) && ApplySource(s, e, barrier, l) == Ok((t, d))
    ensures d == if barrier then BarrierApplied else Applied
    ensures Next(s) <= e.cursor < Next(t) && t.frontier == Some(DrainLast(s, e, barrier))
    ensures if barrier && s.unavailableCeiling.Some? && s.unavailableCeiling.value < e.cursor
            then t.unavailableFloor == None && t.unavailableCeiling == None
            else t.unavailableFloor == s.unavailableFloor && t.unavailableCeiling == s.unavailableCeiling
    ensures t.viewAuthoritative == (barrier || s.viewAuthoritative)
    ensures t.baselineUnknown == (!barrier && s.baselineUnknown)
    ensures (t.session, t.streamId, t.scope, t.initial, t.failed) == (s.session, s.streamId, s.scope, s.initial, s.failed)
  {
  }

  /** An application folds its operations and counts the removals that found nothing. */
  lemma AppliedKeys(s: State, e: Envelope, barrier: bool, l: Limits, t: State, d: Disposition)
    requires WithinLimits(s.keys, l.cache) && Applicable(s, e, barrier) && ApplySource(s, e, barrier, l) == Ok((t, d))
    ensures t.keys == Fold(s.keys, ApplyOps(s, e, barrier))
    ensures t.diagnostics == AddMissing(s.diagnostics, barrier || s.viewAuthoritative,
                                        MissingRemoves(s.keys, ApplyOps(s, e, barrier)), l.maxDiagnostic)
  {
    BoundedFoldMeaning(Folded(s.keys, 0), ApplyOps(s, e, barrier), l.cache);
  }

  /** Every delivery keeps every invariant. */
  lemma AdmitInnerKeepsInv(s: State, e: Envelope, l: Limits)
    requires Inv(s, l)
    ensures AdmitInner(s, e, l).Ok? ==> Inv(AdmitInner(s, e, l).value.0, l)
  {
    if Belongs(s, e) {
      AdmitByRoute(s, e, l);
      match RouteOf(s, e) {
        case Redelivered => PendingRedeliveryInv(s, e, l);
        case Past => PastDeliveryInv(s, e, l);
        case Withheld => UnverifiableInv(s, e, l);
        case Apply(barrier) =>
          if AdmitInner(s, e, l).Ok? {
            CommittedInv(s, e, barrier, FoldBounded(Folded(s.keys, 0), ApplyOps(s, e, barrier), l.cache).value, l);
          }
        case Held => BufferInv(s, e, l);
      }
    }
  }

  lemma AdmitKeepsInv(s: State, status: SessionStatus, e: Envelope, l: Limits)
    requires Inv(s, l)
    ensures Inv(Admit(s, status, e, l).0, l)
  {
    AdmitInnerKeepsInv(s, e, l);
  }

  /** A call leaves a state failed exactly when it reports an error. */
  lemma ErrorMeansFailed(s: State, e: Envelope, l: Limits)
    requires !s.failed
    ensures Admit(s, Sealed, e, l).1.Err? <==> Admit(s, Sealed, e, l).0.failed
  {
  }

  // ---------------------------------------------------------------- runs

  /** The state after admitting every delivery in order; a failed state stays as it failed. */
  ghost function Run(s: State, es: seq<Envelope>, l: Limits): State
    decreases es
  {
    if es == [] then s else Run(Admit(s, Sealed, es[0], l).0, es[1..], l)
  }

  lemma {:induction false} RunKeepsInv(s: State, es: seq<Envelope>, l: Limits)
    requires Inv(s, l)
    ensures Inv(Run(s, es, l), l)
    decreases es
  {
    if es != [] {
      AdmitKeepsInv(s, Sealed, es[0], l);
      RunKeepsInv(Admit(s, Sealed, es[0], l).0, es[1..], l);
    }
  }

  lemma {:induction false} RunAppend(s: State, es: seq<Envelope>, fs: seq<Envelope>, l: Limits)
    ensures Run(s, es + fs, l) == Run(Run(s, es, l), fs, l)
    decreases es
  {
    if es == [] {
      assert es + fs == fs;
    } else {
      assert (es + fs)[1..] == es[1..] + fs;
      RunAppend(Admit(s, Sealed, es[0], l).0, es[1..], fs, l);
    }
  }

  /** A delivery that reached its own stream can be refused only by the cache limits. */
  lemma OnlyCacheFails(s: State, e: Envelope, l: Limits)
    requires PendingInv(s) && Belongs(s, e) && AdmitInner(s, e, l).Err?
    ensures AdmitInner(s, e, l).error.CacheFailure?
  {
    AdmitByRoute(s, e, l);
  }

  /** No delivery changes which stream a state belongs to. */
  lemma SameIdentity(s: State, e: Envelope, l: Limits)
    requires PendingInv(s)
    ensures var t := Admit(s, Sealed, e, l).0;
            (t.session, t.streamId, t.scope, t.initial) == (s.session, s.streamId, s.scope, s.initial)
  {
    if !s.failed && AdmitInner(s, e, l).Ok? {
      AdmitByRoute(s, e, l);
      match RouteOf(s, e) {
        case Redelivered => PendingRedeliveryFrame(s, e, l);
        case Past => PastDeliveryFrame(s, e, l);
        case Withheld =>
        case Apply(barrier) => CommittedFrame(s, e, barrier, l, AdmitInner(s, e, l).value.0, AdmitInner(s, e, l).value.1);
        case Held => BufferFrame(s, e, Next(s), l);
      }
    }
  }

  lemma {:induction false} RunKeepsIdentity(s: State, es: seq<Envelope>, l: Limits)
    requires Inv(s, l)
    ensures var t := Run(s, es, l);
            (t.session, t.streamId, t.scope, t.initial) == (s.session, s.streamId, s.scope, s.initial)
    decreases es
  {
    if es != [] {
      SameIdentity(s, es[0], l);
      AdmitKeepsInv(s, Sealed, es[0], l);
      RunKeepsIdentity(Admit(s, Sealed, es[0], l).0, es[1..], l);
    }
  }

  /** After a failure nothing changes any more. */
  lemma {:induction false} FailureIsFinal(s: State, es: seq<Envelope>, l: Limits)
    requires s.failed
    ensures Run(s, es, l) == s
    decreases es
  {
    if es != [] {
      FailureIsFinal(s, es[1..], l);
    }
  }
}
