/**
 Where a trusted stream ends up depends only on which cursors were delivered,
 not on their order or multiplicity: the final view is exact precisely when the
 delivered cursors run without a gap from the initial cursor, or from some
 delivered clear, up to the greatest of them.
 */
module Confluence {
  import opened Prelude
  import opened Cache
  import opened StreamSpec
  import opened Ledger

  datatype Payload = Payload(mutations: seq<Mutation>, bytes: u64)

  /** The one payload the publisher issued at each cursor. */
  type Ledgered = nat -> Payload

  predicate Faithful(h: Ledgered, s: State, e: Envelope) {
    Belongs(s, e) && e.mutations == h(e.cursor).mutations && e.canonicalBytes == h(e.cursor).bytes
  }

  predicate AllFaithful(h: Ledgered, s: State, es: seq<Envelope>) {
    forall i :: 0 <= i < |es| ==> Faithful(h, s, es[i])
  }

  predicate ClearsAt(h: Ledgered, c: nat) {
    ClearPosition(h(c).mutations, 0).Some?
  }

  function Cursors(es: seq<Envelope>): (d: set<u64>)
    ensures forall c :: c in d <==> exists i :: 0 <= i < |es| && es[i].cursor == c
  {
    set i | 0 <= i < |es| :: es[i].cursor
  }

  // ------------------------------------------------- what a run retains

  /** Nothing has been disputed: every retained digest is the one true payload's. */
  ghost predicate Undisputed(s: State, h: Ledgered) {
    && s.equivocationCeiling.None? && !s.baselineUnknown
    && LedgerFaithful(s.pending, h)
    && WindowFaithful(s.recent, h)
  }

  ghost predicate LedgerFaithful(pending: map<u64, PendingSlot>, h: Ledgered) {
    forall c :: c in pending ==>
      pending[c].Candidate? && pending[c].source.mutations == h(c).mutations && pending[c].source.canonicalBytes == h(c).bytes
  }

  /** The delivered run `[from, last]` begins at the initial cursor or at a clear. */
  ghost predicate Anchored(h: Ledgered, initial: u64, d: set<u64>, from: nat, last: nat) {
    && from <= last
    && (from == initial || ClearsAt(h, from))
    && (forall c: nat :: from <= c <= last ==> Has(d, c))
  }

  predicate Has(d: set<u64>, c: nat) { c <= U64_MAX && c in d }

  ghost predicate Grounded(h: Ledgered, initial: u64, d: set<u64>, last: nat) {
    exists from: nat :: Anchored(h, initial, d, from, last)
  }

  /** Every delivered cursor is applied, pending, or lost inside the unavailable horizon. */
  ghost predicate Accounted(s: State, d: set<u64>) {
    && s.pending.Keys <= d
    && (forall c :: c in d ==>
          s.initial <= c &&
          (c < Next(s) || c in s.pending ||
          (s.unavailableFloor.Some? && s.unavailableCeiling.Some? && s.unavailableFloor.value <= c <= s.unavailableCeiling.value)))
  }

  ghost predicate Settling(s: State, h: Ledgered, d: set<u64>) {
    && Undisputed(s, h)
    && Accounted(s, d)
    && (s.frontier.Some? ==> Grounded(h, s.initial, d, s.frontier.value))
  }

  // ------------------------------------------------------- preservation

  lemma MoreDelivered(s: State, h: Ledgered, d: set<u64>, more: set<u64>, last: nat)
    requires Grounded(h, s.initial, d, last) && d <= more
    ensures Grounded(h, s.initial, more, last)
  {
    var from: nat :| Anchored(h, s.initial, d, from, last);
    forall c: nat | from <= c <= last ensures Has(more, c) {
      assert Has(d, c);
    }
    assert Anchored(h, s.initial, more, from, last);
  }

  lemma RepeatSettles(s: State, h: Ledgered, d: set<u64>, e: Envelope, l: Limits)
    requires Settling(s, h, d) && Faithful(h, s, e) && e.cursor in s.pending
    ensures Settling(PendingRedelivery(s, e, l).0, h, d + {e.cursor})
  {
    assert d + {e.cursor} == d;
  }

  lemma PastSettles(s: State, h: Ledgered, d: set<u64>, e: Envelope, l: Limits)
    requires Settling(s, h, d) && Faithful(h, s, e) && PendingInv(s) && !s.Ahead(e.cursor)
    ensures Settling(PastDelivery(s, e, l).0, h, d + {e.cursor})
  {
    MoreDelivered(s, h, d, d + {e.cursor}, s.frontier.value);
  }

  lemma DiscardSettles(s: State, h: Ledgered, d: set<u64>, c: u64, g: Diagnostics)
    requires Settling(s, h, d) && HorizonInv(s) && s.initial <= c
    ensures Settling(MarkUnavailable(s, c).(diagnostics := g), h, d + {c})
  {
    if s.frontier.Some? {
      MoreDelivered(s, h, d, d + {c}, s.frontier.value);
    }
  }

  lemma HeldSettles(s: State, h: Ledgered, d: set<u64>, e: Envelope, expected: u64, l: Limits)
    requires Settling(s, h, d) && HorizonInv(s) && Faithful(h, s, e) && expected < e.cursor
    ensures Settling(Buffer(s, e, expected, l).0, h, d + {e.cursor})
  {
    BufferFrame(s, e, expected, l);
    if Buffer(s, e, expected, l).1 == Buffered {
      if s.frontier.Some? {
        MoreDelivered(s, h, d, d + {e.cursor}, s.frontier.value);
      }
    } else {
      DiscardSettles(s, h, d, e.cursor, Buffer(s, e, expected, l).0.diagnostics);
    }
  }

  /** The run that an application completes is delivered throughout and begins at an anchor. */
  lemma AppliedIsGrounded(s: State, h: Ledgered, d: set<u64>, e: Envelope, barrier: bool)
    requires Settling(s, h, d) && Faithful(h, s, e) && Applicable(s, e, barrier)
    ensures Grounded(h, s.initial, d + {e.cursor}, DrainLast(s, e, barrier))
  {
    var last := DrainLast(s, e, barrier);
    var more := d + {e.cursor};
    forall c: nat | e.cursor <= c <= last ensures Has(more, c) {
      if c > e.cursor {
        assert CleanAt(s.pending, c);
      }
    }
    if barrier || s.frontier.None? {
      assert Anchored(h, s.initial, more, e.cursor, last);
    } else {
      var from: nat :| Anchored(h, s.initial, d, from, s.frontier.value);
      forall c: nat | from <= c <= last ensures Has(more, c) {
        if c <= s.frontier.value {
          assert Has(d, c);
        }
      }
      assert Anchored(h, s.initial, more, from, last);
    }
  }

  lemma AppliedSettles(s: State, h: Ledgered, d: set<u64>, e: Envelope, barrier: bool, l: Limits, t: State, g: Disposition)
    requires Inv(s, l) && Settling(s, h, d) && Faithful(h, s, e) && Applicable(s, e, barrier)
    requires ApplySource(s, e, barrier, l) == Ok((t, g))
    ensures Settling(t, h, d + {e.cursor})
  {
    var last := DrainLast(s, e, barrier);
    var f := FoldBounded(Folded(s.keys, 0), ApplyOps(s, e, barrier), l.cache).value;
    CommittedFrame(s, e, barrier, l, t, g);
    CommittedPending(s, e, barrier, last, f, l);
    AppliedIsGrounded(s, h, d, e, barrier);
    AppliedIsUndisputed(s, h, e, barrier, f, l);
  }

  lemma AppliedIsUndisputed(s: State, h: Ledgered, e: Envelope, barrier: bool, f: Folded, l: Limits)
    requires Inv(s, l) && Undisputed(s, h) && Faithful(h, s, e) && Applicable(s, e, barrier)
    ensures Undisputed(Committed(s, e, barrier, DrainLast(s, e, barrier), f, l), h)
  {
    CommittedPending(s, e, barrier, DrainLast(s, e, barrier), f, l);
    AppliedWindowIsUndisputed(s, h, e, barrier, DrainLast(s, e, barrier), f, l);
  }

  ghost predicate WindowFaithful(recent: map<u64, RecentSlot>, h: Ledgered) {
    forall c :: c in recent ==> recent[c] == Seen(Fingerprint(h(c).mutations))
  }

  lemma AppliedWindowIsUndisputed(s: State, h: Ledgered, e: Envelope, barrier: bool, last: u64, f: Folded, l: Limits)
    requires WindowInv(s, l) && DisputeInv(s) && Undisputed(s, h) && Faithful(h, s, e) && Applicable(s, e, barrier)
    requires e.cursor <= last && CleanSpan(s.pending, e.cursor, last)
    ensures WindowFaithful(Committed(s, e, barrier, last, f, l).recent, h)
  {
    CommittedWindow(s, e, barrier, last, f, l);
    FactsFaithful(s, h, e, last);
    FaithfulWindow(if barrier then map[] else s.recent, AppliedFacts(s, e, last), e.cursor, l.maxRecent,
                   Committed(s, e, barrier, last, f, l).recent, h);
  }

  predicate FactsMatch(facts: seq<Fact>, from: nat, h: Ledgered) {
    forall i :: 0 <= i < |facts| ==> facts[i].digest == Fingerprint(h(from + i).mutations)
  }

  lemma FactsFaithful(s: State, h: Ledgered, e: Envelope, last: u64)
    requires LedgerFaithful(s.pending, h) && Faithful(h, s, e)
    requires e.cursor <= last && CleanSpan(s.pending, e.cursor, last)
    ensures FactsMatch(AppliedFacts(s, e, last), e.cursor, h)
  {
    AppliedFactsDigests(s, e, last);
    var facts := AppliedFacts(s, e, last);
    forall i | 0 <= i < |facts| ensures facts[i].digest == Fingerprint(h(e.cursor + i).mutations) {
      if i > 0 {
        assert facts[i].digest == DigestAt(s.pending, e.cursor + i);
        assert CleanAt(s.pending, e.cursor + i);
      }
    }
  }

  lemma FaithfulWindow(before: map<u64, RecentSlot>, facts: seq<Fact>, from: nat, maximum: nat, after: map<u64, RecentSlot>, h: Ledgered)
    requires WindowAfter(before, facts, from, maximum, after)
    requires WindowFaithful(before, h) && FactsMatch(facts, from, h)
    ensures WindowFaithful(after, h)
  {
    forall c | c in after ensures after[c] == Seen(Fingerprint(h(c).mutations)) {
      if from <= c {
        assert facts[c - from].digest == Fingerprint(h(from + (c - from)).mutations);
      }
    }
  }

  lemma DeliverySettles(s: State, h: Ledgered, d: set<u64>, e: Envelope, l: Limits, t: State, g: Disposition)
    requires Inv(s, l) && Settling(s, h, d) && Faithful(h, s, e) && Delivered(s, e, l, t, g)
    ensures Settling(t, h, d + {e.cursor})
  {
    match RouteOf(s, e) {
      case Redelivered => RepeatSettles(s, h, d, e, l);
      case Past => PastSettles(s, h, d, e, l);
      case Withheld => DiscardSettles(s, h, d, e.cursor, t.diagnostics);
      case Apply(barrier) => AppliedSettles(s, h, d, e, barrier, l, t, g);
      case Held => HeldSettles(s, h, d, e, Next(s), l);
    }
  }

  // --------------------------------------------------------------- runs

  lemma {:induction false} RunSettles(s: State, h: Ledgered, d: set<u64>, es: seq<Envelope>, l: Limits)
    requires Inv(s, l) && Settling(s, h, d) && AllFaithful(h, s, es)
    requires !Run(s, es, l).failed
    ensures Settling(Run(s, es, l), h, d + Cursors(es))
    decreases es
  {
    if es == [] {
      assert d + Cursors(es) == d;
    } else {
      var t := Admit(s, Sealed, es[0], l).0;
      AdmitKeepsInv(s, Sealed, es[0], l);
      if t.failed {
        FailureIsFinal(t, es[1..], l);
      }
      SameIdentity(s, es[0], l);
      var g := AdmitInner(s, es[0], l).value.1;
      AcceptedIsDelivered(s, es[0], l, t, g);
      DeliverySettles(s, h, d, es[0], l, t, g);
      RestIsFaithful(s, t, h, es);
      RunSettles(t, h, d + {es[0].cursor}, es[1..], l);
      CursorsJoin(d, es);
    }
  }

  lemma RestIsFaithful(s: State, t: State, h: Ledgered, es: seq<Envelope>)
    requires es != [] && AllFaithful(h, s, es)
    requires t.session == s.session && t.streamId == s.streamId && t.initial == s.initial
    ensures Faithful(h, s, es[0]) && AllFaithful(h, t, es[1..])
  {
    forall i | 0 <= i < |es[1..]| ensures Faithful(h, t, es[1..][i]) {
      assert es[1..][i] == es[i + 1];
      assert Faithful(h, s, es[i + 1]);
    }
  }

  lemma CursorsJoin(d: set<u64>, es: seq<Envelope>)
    requires es != []
    ensures d + {es[0].cursor} + Cursors(es[1..]) == d + Cursors(es)
  {
    CursorsStep(es);
  }

  lemma CursorsStep(es: seq<Envelope>)
    requires es != []
    ensures Cursors(es) == {es[0].cursor} + Cursors(es[1..])
  {
    forall c ensures c in Cursors(es) <==> c in {es[0].cursor} + Cursors(es[1..]) {
      if c in Cursors(es) {
        var i :| 0 <= i < |es| && es[i].cursor == c;
        if i > 0 {
          assert es[1..][i - 1].cursor == c;
        }
      }
      if c in Cursors(es[1..]) {
        var i :| 0 <= i < |es[1..]| && es[1..][i].cursor == c;
        assert es[i + 1].cursor == c;
      }
    }
  }

  // ------------------------------------------------------ final outcome

  /** The delivered cursors form one anchored run up to the greatest of them. */
  ghost predicate SettledAt(h: Ledgered, initial: u64, d: set<u64>, last: nat) {
    Has(d, last) && (forall c :: c in d ==> c <= last) && Grounded(h, initial, d, last)
  }

  ghost predicate Settled(h: Ledgered, initial: u64, d: set<u64>) {
    d == {} || exists last: nat :: SettledAt(h, initial, d, last)
  }

  /** An eager state never leaves a delivered cursor of an anchored run behind. */
  lemma AnchoredRunIsApplied(s: State, h: Ledgered, d: set<u64>, from: nat, last: nat)
    requires PendingInv(s) && Settling(s, h, d) && s.unavailableFloor.None?
    requires Anchored(h, s.initial, d, from, last)
    ensures last < Next(s)
  {
    var c := if from <= Next(s) then Next(s) else from;
    assert c <= last ==> Has(d, c);
  }

  /**
   With nothing discarded, certainty is exact exactly when the delivered
   cursors are settled, and then the frontier is the greatest of them.
   */
  lemma ExactMeansSettled(s: State, h: Ledgered, d: set<u64>, l: Limits)
    requires Inv(s, l) && Settling(s, h, d) && s.unavailableFloor.None?
    ensures s.Certainty() == Exact <==> Settled(h, s.initial, d)
    ensures s.Certainty() == Exact ==>
              if d == {} then s.frontier.None? else s.frontier.Some? && SettledAt(h, s.initial, d, s.frontier.value)
  {
    if s.Certainty() == Exact {
      ExactIsSettled(s, h, d, l);
    }
    if Settled(h, s.initial, d) {
      SettledIsExact(s, h, d, l);
    }
  }

  lemma ExactIsSettled(s: State, h: Ledgered, d: set<u64>, l: Limits)
    requires Inv(s, l) && Settling(s, h, d) && s.unavailableFloor.None? && s.Certainty() == Exact
    ensures if d == {} then s.frontier.None? else s.frontier.Some? && SettledAt(h, s.initial, d, s.frontier.value)
  {
    if s.frontier.Some? {
      var from: nat :| Anchored(h, s.initial, d, from, s.frontier.value);
      assert Has(d, s.frontier.value);
    }
  }

  lemma SettledIsExact(s: State, h: Ledgered, d: set<u64>, l: Limits)
    requires Inv(s, l) && Settling(s, h, d) && s.unavailableFloor.None? && Settled(h, s.initial, d)
    ensures s.Certainty() == Exact
  {
    if d != {} {
      var last: nat :| SettledAt(h, s.initial, d, last);
      var from: nat :| Anchored(h, s.initial, d, from, last);
      AnchoredRunIsApplied(s, h, d, from, last);
    }
    assert s.pending.Keys == {};
    assert s.pending == map[];
  }

  // --------------------------------------------------- sufficient limits

  ghost function PayloadBytes(h: Ledgered, d: set<u64>): nat
    decreases d
  {
    if d == {} then 0 else
      var c :| c in d;
      h(c).bytes + PayloadBytes(h, d - {c})
  }

  lemma {:induction false} PayloadBytesRemove(h: Ledgered, d: set<u64>, c: u64)
    requires c in d
    ensures PayloadBytes(h, d) == h(c).bytes + PayloadBytes(h, d - {c})
    decreases d
  {
    var first :| first in d && PayloadBytes(h, d) == h(first).bytes + PayloadBytes(h, d - {first});
    if first != c {
      PayloadBytesRemove(h, d - {first}, c);
      assert d - {first} - {c} == d - {c} - {first};
      PayloadBytesRemove(h, d - {c}, first);
    }
  }

  /** A faithful ledger holds at most the bytes of the cursors it may name. */
  lemma {:induction false} LedgerWithin(pending: map<u64, PendingSlot>, h: Ledgered, d: set<u64>)
    requires LedgerFaithful(pending, h) && pending.Keys <= d
    ensures |pending| <= |d| && PendingBytes(pending) <= PayloadBytes(h, d)
    decreases |pending|
  {
    if pending != map[] {
      var c :| c in pending;
      MapRemoveSize(pending, c);
      PendingBytesRemove(pending, c);
      PayloadBytesRemove(h, d, c);
      LedgerWithin(pending - {c}, h, d - {c});
    }
  }

  /** Limits that can hold every one of the given cursors out of order. */
  ghost predicate Adequate(l: Limits, h: Ledgered, initial: u64, all: set<u64>) {
    && |all| <= l.maxPending
    && PayloadBytes(h, all) <= l.maxPendingBytes
    && (forall c :: c in all ==> c <= initial + l.maxGapSpan)
  }

  /** Under adequate limits nothing is ever discarded. */
  lemma NothingDiscarded(s: State, h: Ledgered, d: set<u64>, all: set<u64>, e: Envelope, l: Limits, t: State, g: Disposition)
    requires Inv(s, l) && Settling(s, h, d) && Faithful(h, s, e) && Delivered(s, e, l, t, g)
    requires Adequate(l, h, s.initial, all) && d <= all && e.cursor in all
    requires s.unavailableFloor.None?
    ensures t.unavailableFloor.None?
  {
    match RouteOf(s, e) {
      case Redelivered => PendingRedeliveryFrame(s, e, l);
      case Past => PastDeliveryFrame(s, e, l);
      case Withheld =>
      case Apply(barrier) => CommittedFrame(s, e, barrier, l, t, g);
      case Held => HeldIsKept(s, h, d, all, e, l);
    }
  }

  /** There is always room for one more cursor. */
  lemma HeldIsKept(s: State, h: Ledgered, d: set<u64>, all: set<u64>, e: Envelope, l: Limits)
    requires Inv(s, l) && Settling(s, h, d) && Faithful(h, s, e) && Next(s) < e.cursor && e.cursor !in s.pending
    requires Adequate(l, h, s.initial, all) && d <= all && e.cursor in all
    ensures Buffer(s, e, Next(s), l).0 == s.(pending := s.pending[e.cursor := Candidate(e)])
  {
    LedgerWithin(s.pending, h, all - {e.cursor});
    PayloadBytesRemove(h, all, e.cursor);
    assert |all - {e.cursor}| == |all| - 1;
  }

  lemma {:induction false} RunDiscardsNothing(s: State, h: Ledgered, d: set<u64>, all: set<u64>, es: seq<Envelope>, l: Limits)
    requires Inv(s, l) && Settling(s, h, d) && AllFaithful(h, s, es) && !Run(s, es, l).failed
    requires Adequate(l, h, s.initial, all) && d + Cursors(es) <= all
    requires s.unavailableFloor.None?
    ensures Run(s, es, l).unavailableFloor.None?
    decreases es
  {
    if es != [] {
      var t := Admit(s, Sealed, es[0], l).0;
      AdmitKeepsInv(s, Sealed, es[0], l);
      if t.failed {
        FailureIsFinal(t, es[1..], l);
      }
      SameIdentity(s, es[0], l);
      CursorsStep(es);
      var g := AdmitInner(s, es[0], l).value.1;
      AcceptedIsDelivered(s, es[0], l, t, g);
      DeliverySettles(s, h, d, es[0], l, t, g);
      NothingDiscarded(s, h, d, all, es[0], l, t, g);
      RestIsFaithful(s, t, h, es);
      RunDiscardsNothing(t, h, d + {es[0].cursor}, all, es[1..], l);
    }
  }

  // ------------------------------------------------------------ theorems

  /** A stream whose empty start an external authority vouches for. */
  function TrustedStart(session: nat, streamId: string, scope: Scope, initial: u64): State {
    Start(session, streamId, scope, initial, true)
  }

  lemma TrustedStartSettles(session: nat, streamId: string, scope: Scope, initial: u64, h: Ledgered, l: Limits)
    ensures var s := TrustedStart(session, streamId, scope, initial);
            Inv(s, l) && Settling(s, h, {}) && s.unavailableFloor.None?
  {
    StartInv(session, streamId, scope, initial, true, l);
  }

  /**
   The outcome of a run that discards nothing is decided by the set of
   delivered cursors: exact exactly when they are settled, and then at the
   greatest of them.
   */
  lemma OutcomeBySet(s: State, h: Ledgered, es: seq<Envelope>, l: Limits)
    requires Inv(s, l) && Settling(s, h, {}) && AllFaithful(h, s, es)
    requires !Run(s, es, l).failed && Run(s, es, l).unavailableFloor.None?
    ensures var t := Run(s, es, l);
            var d := Cursors(es);
            && (t.Certainty() == Exact <==> Settled(h, s.initial, d))
            && (t.Certainty() == Exact ==>
                  if d == {} then t.frontier.None? else t.frontier.Some? && SettledAt(h, s.initial, d, t.frontier.value))
  {
    var t := Run(s, es, l);
    RunKeepsInv(s, es, l);
    RunSettles(s, h, {}, es, l);
    RunKeepsIdentity(s, es, l);
    assert {} + Cursors(es) == Cursors(es);
    ExactMeansSettled(t, h, Cursors(es), l);
  }

  /**
   Order and repetition do not matter: two runs over the same cursors that
   discard nothing end at the same frontier with the same evidence pending,
   exact or not.
   */
  lemma SameCursorsSameOutcome(s: State, h: Ledgered, es: seq<Envelope>, fs: seq<Envelope>, l: Limits)
    requires Inv(s, l) && Settling(s, h, {}) && AllFaithful(h, s, es) && AllFaithful(h, s, fs)
    requires Cursors(es) == Cursors(fs)
    requires !Run(s, es, l).failed && Run(s, es, l).unavailableFloor.None?
    requires !Run(s, fs, l).failed && Run(s, fs, l).unavailableFloor.None?
    ensures var t, u := Run(s, es, l), Run(s, fs, l);
            Next(t) == Next(u) && t.pending.Keys == u.pending.Keys && t.Certainty() == u.Certainty()
  {
    RunKeepsInv(s, es, l);
    RunKeepsInv(s, fs, l);
    RunKeepsIdentity(s, es, l);
    RunKeepsIdentity(s, fs, l);
    RunSettles(s, h, {}, es, l);
    RunSettles(s, h, {}, fs, l);
    assert {} + Cursors(es) == Cursors(es);
    SameEvidenceSameState(Run(s, es, l), Run(s, fs, l), h, Cursors(es));
  }

  lemma SameEvidenceSameState(t: State, u: State, h: Ledgered, d: set<u64>)
    requires PendingInv(t) && PendingInv(u) && HorizonInv(t) && HorizonInv(u) && t.initial == u.initial
    requires Settling(t, h, d) && Settling(u, h, d) && t.unavailableFloor.None? && u.unavailableFloor.None?
    ensures Next(t) == Next(u) && t.pending.Keys == u.pending.Keys && t.Certainty() == u.Certainty()
  {
    NotBehind(t, u, h, d);
    NotBehind(u, t, h, d);
    assert t.pending.Keys == u.pending.Keys;
    assert t.pending == map[] <==> t.pending.Keys == {};
    assert u.pending == map[] <==> u.pending.Keys == {};
  }

  lemma NotBehind(t: State, u: State, h: Ledgered, d: set<u64>)
    requires PendingInv(t) && PendingInv(u) && t.initial == u.initial
    requires Settling(t, h, d) && Settling(u, h, d) && t.unavailableFloor.None?
    ensures Next(u) <= Next(t)
  {
    if u.frontier.Some? {
      var from: nat :| Anchored(h, u.initial, d, from, u.frontier.value);
      AnchoredRunIsApplied(t, h, d, from, u.frontier.value);
    }
  }
}
