/**
 What a wide fingerprint window is worth: when it can hold every cursor of a
 stream, an exact view has heard nothing that contradicts what it applied, so
 two exact sides of one comparison applied the same payloads even when the
 publisher contradicted itself.
 */
module Unanimity {
  import opened Prelude
  import opened Cache
  import opened StreamSpec
  import opened Ledger
  import Truth
  import opened Window
  import opened Confluence
  import opened Verdict

  /** One payload heard at one cursor. */
  datatype Claim = Claim(cursor: nat, digest: Fingerprint)

  function ClaimOf(e: Envelope): Claim { Claim(e.cursor, e.Print()) }

  function Claims(es: seq<Envelope>): (r: set<Claim>)
    ensures forall c :: c in r <==> exists i :: 0 <= i < |es| && ClaimOf(es[i]) == c
  {
    set i | 0 <= i < |es| :: ClaimOf(es[i])
  }

  // ------------------------------------------------------ what was heard

  /** The digests on record, oldest first. */
  function DigestsOf(past: Applications): (r: seq<Fingerprint>)
    ensures |r| == |past| && forall i :: 0 <= i < |past| ==> r[i] == past[i].digest
  {
    seq(|past|, i requires 0 <= i < |past| => past[i].digest)
  }

  /** The claim is what was applied at its cursor, in a block of digests that ends at `next`. */
  predicate OnRecord(ds: seq<Fingerprint>, next: nat, c: Claim) {
    next - |ds| <= c.cursor < next && ds[c.cursor - (next - |ds|)] == c.digest
  }

  predicate Waiting(pending: map<u64, PendingSlot>, c: Claim) {
    CleanAt(pending, c.cursor) && pending[c.cursor].source.Print() == c.digest
  }

  predicate Under(ceiling: Option<u64>, cursor: nat) { ceiling.Some? && cursor <= ceiling.value }

  /** A claim is superseded by a barrier, held against the view, applied, or waiting. */
  predicate Settles(s: State, ds: seq<Fingerprint>, c: Claim) {
    || c.cursor < Next(s) - |ds|
    || Under(s.equivocationCeiling, c.cursor)
    || Under(s.unavailableCeiling, c.cursor)
    || OnRecord(ds, Next(s), c)
    || Waiting(s.pending, c)
  }

  ghost predicate AllSettle(s: State, ds: seq<Fingerprint>, claims: set<Claim>) {
    forall c :: c in claims ==> Settles(s, ds, c)
  }

  /** Only what was heard is on record or waiting. */
  ghost predicate Backed(s: State, ds: seq<Fingerprint>, claims: set<Claim>) {
    && s.initial + |ds| <= Next(s)
    && (forall c :: OnRecord(ds, Next(s), c) ==> c in claims)
    && (forall c :: Waiting(s.pending, c) ==> c in claims)
  }

  // --------------------------------------------------- what the view is

  /** The membership after folding whole payloads in order. */
  function Replay(keys: set<CacheKey>, ds: seq<Fingerprint>): set<CacheKey>
    decreases ds
  {
    if ds == [] then keys else Replay(Fold(keys, Ops(ds[0].preimage)), ds[1..])
  }

  lemma {:induction false} ReplayAppend(keys: set<CacheKey>, a: seq<Fingerprint>, b: seq<Fingerprint>)
    ensures Replay(keys, a + b) == Replay(Replay(keys, a), b)
    decreases a
  {
    if a == [] {
      assert a + b == b;
    } else {
      assert (a + b)[1..] == a[1..] + b;
      ReplayAppend(Fold(keys, Ops(a[0].preimage)), a[1..], b);
    }
  }

  predicate ClearsFirst(ds: seq<Fingerprint>) { ds != [] && ClearPosition(ds[0].preimage, 0).Some? }

  lemma ReplayForgets(ds: seq<Fingerprint>, view: set<CacheKey>, other: set<CacheKey>)
    requires ClearsFirst(ds)
    ensures Replay(view, ds) == Replay(other, ds)
  {
    Truth.ClearForgets(ds[0].preimage, view, view);
    Truth.ClearForgets(ds[0].preimage, view, other);
  }

  /** A certain view is the replay of the record, and a record that starts late starts with a clear. */
  predicate ViewReplays(s: State, ds: seq<Fingerprint>) {
    !s.baselineUnknown ==>
      && s.keys == Replay({}, ds)
      && (ds != [] ==> Next(s) - |ds| == s.initial || ClearsFirst(ds))
  }

  // -------------------------------------------------------- application

  /** The digests one application adds. */
  function AddedDigests(s: State, e: Envelope, barrier: bool): seq<Fingerprint> {
    DigestsOf(Unopposed(AppliedFacts(s, e, DrainLast(s, e, barrier))))
  }

  /** The digests from `e` up to `next` are its own and those that waited there. */
  ghost predicate Drains(pending: map<u64, PendingSlot>, e: Envelope, added: seq<Fingerprint>, next: nat) {
    forall x :: OnRecord(added, next, x) <==> x == ClaimOf(e) || (Waiting(pending, x) && e.cursor < x.cursor < next)
  }

  /** Whatever waited from `next` on still waits, and nothing else does. */
  ghost predicate Leaves(pending: map<u64, PendingSlot>, next: nat, after: map<u64, PendingSlot>) {
    forall x :: Waiting(after, x) <==> Waiting(pending, x) && next <= x.cursor
  }

  /** What an application does to the claims: it takes its own and those it drains, and leaves the rest. */
  ghost predicate Takes(s: State, e: Envelope, barrier: bool, added: seq<Fingerprint>, t: State) {
    && added != [] && added[0] == e.Print() && e.cursor !in s.pending
    && Next(s) <= e.cursor && Next(t) == e.cursor + |added|
    && t.initial == s.initial
    && (barrier || e.cursor == Next(s) || (s.frontier.None? && s.pending == map[]))
    && Drains(s.pending, e, added, Next(t)) && Leaves(s.pending, Next(t), t.pending)
    && t.equivocationCeiling == (if barrier then ClearedBelow(s.equivocationCeiling, e.cursor) else s.equivocationCeiling)
    && t.unavailableCeiling == (if barrier then ClearedBelow(s.unavailableCeiling, e.cursor) else s.unavailableCeiling)
  }

  lemma AppliedTakes(s: State, e: Envelope, barrier: bool, l: Limits, t: State, d: Disposition)
    requires PendingInv(s) && AttachInv(s) && Applicable(s, e, barrier) && ApplySource(s, e, barrier, l) == Ok((t, d))
    ensures Takes(s, e, barrier, AddedDigests(s, e, barrier), t)
  {
    CommittedFrame(s, e, barrier, l, t, d);
    AddedRecord(s, e, DrainLast(s, e, barrier), AddedDigests(s, e, barrier), Next(t));
    AppliedLeaves(s, e, barrier, l, t, d);
  }

  lemma AddedRecord(s: State, e: Envelope, last: u64, added: seq<Fingerprint>, next: nat)
    requires CleanSpan(s.pending, e.cursor, last) && e.cursor <= last && next == last + 1
    requires added == DigestsOf(Unopposed(AppliedFacts(s, e, last)))
    ensures |added| == next - e.cursor && added[0] == e.Print() && Drains(s.pending, e, added, next)
  {
    AppliedFactsDigests(s, e, last);
    forall x ensures OnRecord(added, next, x) <==> x == ClaimOf(e) || (Waiting(s.pending, x) && e.cursor < x.cursor < next) {
      if e.cursor < x.cursor <= last {
        assert CleanAt(s.pending, x.cursor);
        assert added[x.cursor - e.cursor] == DigestAt(s.pending, e.cursor + (x.cursor - e.cursor));
      }
    }
  }

  lemma AppliedLeaves(s: State, e: Envelope, barrier: bool, l: Limits, t: State, d: Disposition)
    requires PendingInv(s) && AttachInv(s) && Applicable(s, e, barrier) && ApplySource(s, e, barrier, l) == Ok((t, d))
    ensures Leaves(s.pending, Next(t), t.pending)
    ensures t.equivocationCeiling == (if barrier then ClearedBelow(s.equivocationCeiling, e.cursor) else s.equivocationCeiling)
    ensures t.unavailableCeiling == (if barrier then ClearedBelow(s.unavailableCeiling, e.cursor) else s.unavailableCeiling)
  {
    var f := FoldBounded(Folded(s.keys, 0), ApplyOps(s, e, barrier), l.cache).value;
    CommittedPending(s, e, barrier, DrainLast(s, e, barrier), f, l);
  }

  /** Nothing heard is lost from sight by an application. */
  lemma TakingSettles(s: State, ds: seq<Fingerprint>, claims: set<Claim>, e: Envelope, barrier: bool, added: seq<Fingerprint>, t: State)
    requires PendingInv(s) && Takes(s, e, barrier, added, t)
    requires AllSettle(s, ds, claims) && |ds| <= Next(s) && (s.frontier.None? ==> ds == [])
    ensures AllSettle(t, (if barrier then [] else ds) + added, claims + {ClaimOf(e)})
  {
    var kept := if barrier then [] else ds;
    forall x | x in claims + {ClaimOf(e)} ensures Settles(t, kept + added, x) {
      if x.cursor >= e.cursor - |kept| {
        TakenRecord(kept, added, e.cursor, x);
        if x != ClaimOf(e) {
          assert Settles(s, ds, x);
        } else {
          assert OnRecord(added, Next(t), x);
        }
      }
    }
  }

  /** A record extended behind `from` holds what the two parts hold. */
  lemma TakenRecord(kept: seq<Fingerprint>, added: seq<Fingerprint>, from: nat, x: Claim)
    requires |kept| <= from
    ensures OnRecord(kept + added, from + |added|, x) <==> OnRecord(kept, from, x) || OnRecord(added, from + |added|, x)
  {
  }

  lemma TakingBacks(s: State, ds: seq<Fingerprint>, claims: set<Claim>, e: Envelope, barrier: bool, added: seq<Fingerprint>, t: State)
    requires Takes(s, e, barrier, added, t) && Backed(s, ds, claims) && (s.frontier.None? ==> ds == [])
    ensures Backed(t, (if barrier then [] else ds) + added, claims + {ClaimOf(e)})
  {
    var kept := if barrier then [] else ds;
    forall x | OnRecord(kept + added, Next(t), x) ensures x in claims + {ClaimOf(e)} {
      TakenRecord(kept, added, e.cursor, x);
      if OnRecord(kept, e.cursor, x) {
        assert OnRecord(ds, Next(s), x);
      } else {
        assert OnRecord(added, Next(t), x);
      }
    }
  }

  /** Folding the drained operations is replaying the drained digests. */
  lemma {:induction false} SpanReplays(keys: set<CacheKey>, pending: map<u64, PendingSlot>, from: nat, last: nat)
    requires CleanSpan(pending, from, last) && from <= last
    ensures Fold(keys, SpanOps(pending, from, last)) == Replay(keys, DigestsOf(Unopposed(SpanFacts(pending, from, last))))
    decreases last - from
  {
    if from < last {
      assert CleanAt(pending, from + 1);
      var first := pending[from + 1].source;
      var facts := SpanFacts(pending, from + 1, last);
      FoldAppend(keys, Ops(first.mutations), SpanOps(pending, from + 1, last));
      SpanReplays(Fold(keys, Ops(first.mutations)), pending, from + 1, last);
      var span := DigestsOf(Unopposed([Fact(from + 1, first.Print())] + facts));
      assert span[1..] == DigestsOf(Unopposed(facts));
    }
  }

  /** An application folds its own payload as a whole; a barrier folds it from nothing. */
  lemma OwnPayload(s: State, e: Envelope, barrier: bool)
    requires barrier ==> e.HasClear()
    ensures Fold(s.keys, Ops(AppliedFrom(e, barrier))) == Fold(if barrier then {} else s.keys, Ops(e.mutations))
  {
    if barrier {
      Truth.ClearForgets(e.mutations, s.keys, {});
    } else {
      assert e.mutations[0..] == e.mutations;
    }
  }

  /** What an application does to a view it can vouch for. */
  lemma AppliedReplays(s: State, e: Envelope, barrier: bool, l: Limits, t: State, d: Disposition)
    requires WithinLimits(s.keys, l.cache) && Applicable(s, e, barrier) && ApplySource(s, e, barrier, l) == Ok((t, d))
    ensures t.keys == Replay(if barrier then {} else s.keys, AddedDigests(s, e, barrier))
  {
    var last := DrainLast(s, e, barrier);
    var whole := Fold(if barrier then {} else s.keys, Ops(e.mutations));
    AppliedKeys(s, e, barrier, l, t, d);
    FoldAppend(s.keys, Ops(AppliedFrom(e, barrier)), SpanOps(s.pending, e.cursor, last));
    OwnPayload(s, e, barrier);
    SpanReplays(whole, s.pending, e.cursor, last);
    var added := AddedDigests(s, e, barrier);
    assert added[1..] == DigestsOf(Unopposed(SpanFacts(s.pending, e.cursor, last)));
  }

  lemma TakingReplays(s: State, ds: seq<Fingerprint>, e: Envelope, barrier: bool, added: seq<Fingerprint>, t: State)
    requires Takes(s, e, barrier, added, t) && ViewReplays(s, ds) && |ds| <= Next(s) && (s.frontier.None? <==> ds == [])
    requires barrier ==> e.HasClear()
    requires !barrier && !s.baselineUnknown ==> e.cursor == Next(s)
    requires t.baselineUnknown == (!barrier && s.baselineUnknown) && t.initial == s.initial
    requires t.keys == Replay(if barrier then {} else s.keys, added)
    ensures ViewReplays(t, (if barrier then [] else ds) + added)
  {
    if barrier {
      assert [] + added == added;
    } else {
      ReplayAppend({}, ds, added);
    }
  }

  // ----------------------------------------------------------- delivery

  /** A view under construction together with everything it has heard. */
  ghost predicate Sound(s: State, ds: seq<Fingerprint>, claims: set<Claim>) {
    && (s.frontier.None? <==> ds == [])
    && AllSettle(s, ds, claims) && Backed(s, ds, claims) && ViewReplays(s, ds)
  }

  /** The most that a repeated delivery changes: slots turn into conflicts under a ceiling that never falls. */
  ghost predicate Marks(s: State, t: State) {
    && t == s.(pending := t.pending, recent := t.recent, equivocationCeiling := t.equivocationCeiling,
               viewAuthoritative := t.viewAuthoritative, diagnostics := t.diagnostics)
    && (forall c: nat :: Under(s.equivocationCeiling, c) ==> Under(t.equivocationCeiling, c))
    && (forall x :: Waiting(t.pending, x) ==> Waiting(s.pending, x))
    && (forall x :: Waiting(s.pending, x) ==> Waiting(t.pending, x) || Under(t.equivocationCeiling, x.cursor))
  }

  lemma MarksSound(s: State, ds: seq<Fingerprint>, claims: set<Claim>, e: Envelope, t: State)
    requires Sound(s, ds, claims) && Marks(s, t) && Settles(t, ds, ClaimOf(e))
    ensures Sound(t, ds, claims + {ClaimOf(e)})
  {
  }

  lemma RepeatSound(s: State, ds: seq<Fingerprint>, claims: set<Claim>, e: Envelope, l: Limits)
    requires Sound(s, ds, claims) && DisputeInv(s) && e.cursor in s.pending
    ensures Sound(PendingRedelivery(s, e, l).0, ds, claims + {ClaimOf(e)})
  {
    RepeatMarks(s, e, l);
    RepeatSettles(s, ds, e, l);
    MarksSound(s, ds, claims, e, PendingRedelivery(s, e, l).0);
  }

  lemma RepeatMarks(s: State, e: Envelope, l: Limits)
    requires e.cursor in s.pending
    ensures Marks(s, PendingRedelivery(s, e, l).0)
  {
    var t := PendingRedelivery(s, e, l).0;
    PendingRedeliveryFrame(s, e, l);
    OnlyItsOwnSlot(s, e, l, t);
  }

  /** A repeated delivery touches no slot but its own, and raises the ceiling to it. */
  lemma OnlyItsOwnSlot(s: State, e: Envelope, l: Limits, t: State)
    requires e.cursor in s.pending && t == PendingRedelivery(s, e, l).0
    ensures forall c :: c in s.pending && c != e.cursor ==> c in t.pending && t.pending[c] == s.pending[c]
    ensures t.pending == s.pending || Under(t.equivocationCeiling, e.cursor)
    ensures t.equivocationCeiling in {s.equivocationCeiling, Raised(s.equivocationCeiling, e.cursor)}
  {
    if s.pending[e.cursor].Candidate? {
      CandidateRepeated(s, e, l, t);
    } else {
      ConflictRepeated(s, e, l, t);
    }
  }

  lemma CandidateRepeated(s: State, e: Envelope, l: Limits, t: State)
    requires e.cursor in s.pending && s.pending[e.cursor].Candidate? && t == PendingRedelivery(s, e, l).0
    ensures var first := s.pending[e.cursor].source.Print();
            if first == e.Print() then t.pending == s.pending && t.equivocationCeiling == s.equivocationCeiling
            else
              && t.pending == s.pending[e.cursor := Conflict(first, e.Print())]
              && t.equivocationCeiling == Raised(s.equivocationCeiling, e.cursor)
  {
  }

  lemma ConflictRepeated(s: State, e: Envelope, l: Limits, t: State)
    requires e.cursor in s.pending && s.pending[e.cursor].Conflict? && t == PendingRedelivery(s, e, l).0
    ensures t.pending == s.pending
    ensures t.equivocationCeiling in {s.equivocationCeiling, Raised(s.equivocationCeiling, e.cursor)}
  {
  }

  lemma RepeatSettles(s: State, ds: seq<Fingerprint>, e: Envelope, l: Limits)
    requires DisputeInv(s) && e.cursor in s.pending
    ensures Settles(PendingRedelivery(s, e, l).0, ds, ClaimOf(e))
  {
  }

  /** Every recorded cursor is still in the window. */
  ghost predicate Remembered(recent: map<u64, RecentSlot>, ds: seq<Fingerprint>, next: nat) {
    forall c: u64 :: next - |ds| <= c < next ==> c in recent && OnRecord(ds, next, Claim(c, recent[c].first))
  }

  lemma PastSound(s: State, ds: seq<Fingerprint>, claims: set<Claim>, e: Envelope, l: Limits)
    requires Sound(s, ds, claims) && DisputeInv(s) && Remembered(s.recent, ds, Next(s)) && e.cursor < Next(s)
    ensures Sound(PastDelivery(s, e, l).0, ds, claims + {ClaimOf(e)})
  {
    PastMarks(s, e, l);
    PastSettles(s, ds, e, l);
    MarksSound(s, ds, claims, e, PastDelivery(s, e, l).0);
  }

  lemma PastMarks(s: State, e: Envelope, l: Limits)
    ensures Marks(s, PastDelivery(s, e, l).0)
  {
    PastDeliveryFrame(s, e, l);
  }

  lemma PastSettles(s: State, ds: seq<Fingerprint>, e: Envelope, l: Limits)
    requires DisputeInv(s) && Remembered(s.recent, ds, Next(s)) && e.cursor < Next(s)
    ensures Settles(PastDelivery(s, e, l).0, ds, ClaimOf(e))
  {
    assert e.cursor in s.recent || e.cursor < Next(s) - |ds|;
  }

  lemma DiscardSound(s: State, ds: seq<Fingerprint>, claims: set<Claim>, e: Envelope, g: Diagnostics)
    requires Sound(s, ds, claims)
    ensures Sound(MarkUnavailable(s, e.cursor).(diagnostics := g), ds, claims + {ClaimOf(e)})
  {
  }

  /** A buffered delivery waits beside whatever else does. */
  lemma BufferedWaits(pending: map<u64, PendingSlot>, e: Envelope, x: Claim)
    requires e.cursor !in pending
    ensures Waiting(pending[e.cursor := Candidate(e)], x) <==> x == ClaimOf(e) || Waiting(pending, x)
  {
  }

  lemma BufferedSound(s: State, ds: seq<Fingerprint>, claims: set<Claim>, e: Envelope, t: State)
    requires Sound(s, ds, claims) && e.cursor !in s.pending
    requires t == s.(pending := s.pending[e.cursor := Candidate(e)])
    ensures Sound(t, ds, claims + {ClaimOf(e)})
  {
    forall x ensures Waiting(t.pending, x) <==> x == ClaimOf(e) || Waiting(s.pending, x) {
      BufferedWaits(s.pending, e, x);
    }
  }

  lemma HeldSound(s: State, ds: seq<Fingerprint>, claims: set<Claim>, e: Envelope, expected: u64, l: Limits)
    requires Sound(s, ds, claims) && expected < e.cursor && e.cursor !in s.pending
    ensures Sound(Buffer(s, e, expected, l).0, ds, claims + {ClaimOf(e)})
  {
    BufferFrame(s, e, expected, l);
    if Buffer(s, e, expected, l).1 == Buffered {
      BufferedSound(s, ds, claims, e, Buffer(s, e, expected, l).0);
    } else {
      DiscardSound(s, ds, claims, e, Buffer(s, e, expected, l).0.diagnostics);
    }
  }

  lemma AppliedSound(s: State, ds: seq<Fingerprint>, claims: set<Claim>, e: Envelope, barrier: bool, l: Limits, t: State, d: Disposition)
    requires Inv(s, l) && Sound(s, ds, claims) && Applicable(s, e, barrier) && ApplySource(s, e, barrier, l) == Ok((t, d))
    ensures Sound(t, (if barrier then [] else ds) + AddedDigests(s, e, barrier), claims + {ClaimOf(e)})
  {
    var added := AddedDigests(s, e, barrier);
    CommittedFrame(s, e, barrier, l, t, d);
    AppliedTakes(s, e, barrier, l, t, d);
    AppliedReplays(s, e, barrier, l, t, d);
    TakingSettles(s, ds, claims, e, barrier, added, t);
    TakingBacks(s, ds, claims, e, barrier, added, t);
    TakingReplays(s, ds, e, barrier, added, t);
  }

  /** A window at least as long as the record remembers all of it. */
  lemma WideWindowRemembers(s: State, past: Applications, l: Limits)
    requires WindowInv(s, l) && Covers(s, past, l) && |past| <= l.maxRecent
    ensures Remembered(s.recent, DigestsOf(past), Next(s))
  {
    WindowIsExact(s, past, l);
  }

  /** How the digests on record grow by one delivery. */
  function DigestsAfter(ds: seq<Fingerprint>, s: State, e: Envelope): seq<Fingerprint> {
    match RouteOf(s, e)
    case Apply(barrier) => (if barrier then [] else ds) + AddedDigests(s, e, barrier)
    case _ => ds
  }

  lemma ExtendedDigests(past: Applications, s: State, e: Envelope)
    ensures DigestsOf(Extend(past, s, e)) == DigestsAfter(DigestsOf(past), s, e)
  {
    match RouteOf(s, e) {
      case Apply(barrier) =>
        JoinedDigests(if barrier then [] else past, Unopposed(AppliedFacts(s, e, DrainLast(s, e, barrier))));
      case Past => assert DigestsOf(Extend(past, s, e)) == DigestsOf(past);
      case _ =>
    }
  }

  lemma JoinedDigests(a: Applications, b: Applications)
    ensures DigestsOf(a + b) == DigestsOf(a) + DigestsOf(b)
  {
  }

  lemma DeliverySound(s: State, ds: seq<Fingerprint>, claims: set<Claim>, e: Envelope, l: Limits, t: State, d: Disposition)
    requires Inv(s, l) && Remembered(s.recent, ds, Next(s)) && Sound(s, ds, claims)
    requires Delivered(s, e, l, t, d)
    ensures Sound(t, DigestsAfter(ds, s, e), claims + {ClaimOf(e)})
  {
    match RouteOf(s, e) {
      case Redelivered => RepeatSound(s, ds, claims, e, l);
      case Past => PastSound(s, ds, claims, e, l);
      case Withheld => DiscardSound(s, ds, claims, e, t.diagnostics);
      case Apply(barrier) => AppliedSound(s, ds, claims, e, barrier, l, t, d);
      case Held => HeldSound(s, ds, claims, e, Next(s), l);
    }
  }

  // --------------------------------------------------------------- runs

  function CursorsOf(claims: set<Claim>): set<nat> { set c | c in claims :: c.cursor }

  /** What is on record was heard, so it is no longer than the list of cursors heard. */
  lemma RecordFits(s: State, ds: seq<Fingerprint>, claims: set<Claim>, all: set<nat>)
    requires Backed(s, ds, claims) && CursorsOf(claims) <= all
    ensures |ds| <= |all|
  {
    var from: nat := Next(s) - |ds|;
    forall c | from <= c < from + |ds| ensures c in all {
      assert OnRecord(ds, Next(s), Claim(c, ds[c - from]));
    }
    RangeFits(all, from, |ds|);
  }

  /** One accepted delivery under a window that can hold every cursor heard so far. */
  lemma StepSound(s: State, past: Applications, claims: set<Claim>, e: Envelope, l: Limits, t: State, d: Disposition, all: set<nat>)
    requires Inv(s, l) && Covers(s, past, l) && Sound(s, DigestsOf(past), claims) && Delivered(s, e, l, t, d)
    requires CursorsOf(claims) <= all && |all| <= l.maxRecent
    ensures Covers(t, Extend(past, s, e), l) && Sound(t, DigestsOf(Extend(past, s, e)), claims + {ClaimOf(e)})
  {
    RecordFits(s, DigestsOf(past), claims, all);
    WideWindowRemembers(s, past, l);
    DeliverySound(s, DigestsOf(past), claims, e, l, t, d);
    ExtendedDigests(past, s, e);
    DeliveryCovers(s, past, e, l, t, d);
  }

  lemma {:induction false} RunSound(s: State, past: Applications, claims: set<Claim>, es: seq<Envelope>, l: Limits, all: set<nat>)
    requires Inv(s, l) && Covers(s, past, l) && Sound(s, DigestsOf(past), claims) && !Run(s, es, l).failed
    requires CursorsOf(claims + Claims(es)) <= all && |all| <= l.maxRecent
    ensures Sound(Run(s, es, l), DigestsOf(Window.History(past, s, es, l)), claims + Claims(es))
    decreases es
  {
    if es == [] {
      assert claims + Claims(es) == claims;
    } else {
      var t := Admit(s, Sealed, es[0], l).0;
      AdmitKeepsInv(s, Sealed, es[0], l);
      if t.failed {
        FailureIsFinal(t, es[1..], l);
      }
      var d := AdmitInner(s, es[0], l).value.1;
      AcceptedIsDelivered(s, es[0], l, t, d);
      ClaimsJoin(claims, es);
      StepSound(s, past, claims, es[0], l, t, d, all);
      RunSound(t, Extend(past, s, es[0]), claims + {ClaimOf(es[0])}, es[1..], l, all);
    }
  }

  lemma ClaimsJoin(claims: set<Claim>, es: seq<Envelope>)
    requires es != []
    ensures claims + {ClaimOf(es[0])} + Claims(es[1..]) == claims + Claims(es)
    ensures CursorsOf(claims) <= CursorsOf(claims + Claims(es))
  {
    ClaimsStep(es);
  }

  lemma ClaimsStep(es: seq<Envelope>)
    requires es != []
    ensures Claims(es) == {ClaimOf(es[0])} + Claims(es[1..])
  {
    forall c ensures c in Claims(es) <==> c in {ClaimOf(es[0])} + Claims(es[1..]) {
      if c in Claims(es) {
        var i :| 0 <= i < |es| && ClaimOf(es[i]) == c;
        assert i > 0 ==> ClaimOf(es[1..][i - 1]) == c;
      }
      if c in Claims(es[1..]) {
        var i :| 0 <= i < |es[1..]| && ClaimOf(es[1..][i]) == c;
        assert ClaimOf(es[i + 1]) == c;
      }
    }
  }

  // --------------------------------------------------------- comparison

  /** The record does not answer a claim that no barrier superseded. */
  ghost predicate Unanswered(ds: seq<Fingerprint>, next: nat, c: Claim) {
    next - |ds| <= c.cursor && !OnRecord(ds, next, c)
  }

  /** Two records that end together and answer each other give the same membership. */
  lemma SameReplay(initial: nat, next: nat, ds: seq<Fingerprint>, fs: seq<Fingerprint>, claims: set<Claim>)
    requires initial + |ds| <= next && initial + |fs| <= next && (ds == [] <==> fs == [])
    requires forall c :: c in claims ==> !Unanswered(ds, next, c)
    requires forall c :: OnRecord(fs, next, c) ==> c in claims
    requires ds != [] ==> next - |ds| == initial || ClearsFirst(ds)
    requires fs != [] ==> next - |fs| == initial || ClearsFirst(fs)
    ensures Replay({}, ds) == Replay({}, fs)
  {
    if |fs| <= |ds| {
      SameTail(next, ds, fs, |fs|, claims);
      HeadAndTail(ds, |fs|);
      HeadAndTail(fs, |fs|);
      TailDecides(ds[..|ds| - |fs|], fs);
    } else {
      SameTail(next, ds, fs, |ds|, claims);
      HeadAndTail(ds, |ds|);
      HeadAndTail(fs, |ds|);
      TailDecides(fs[..|fs| - |ds|], ds);
    }
  }

  /** The last `n` digests. */
  function Tail(ds: seq<Fingerprint>, n: nat): (r: seq<Fingerprint>)
    requires n <= |ds|
    ensures |r| == n && forall i :: 0 <= i < n ==> r[i] == ds[|ds| - n + i]
  {
    ds[|ds| - n..]
  }

  lemma SameTail(next: nat, ds: seq<Fingerprint>, fs: seq<Fingerprint>, n: nat, claims: set<Claim>)
    requires n <= |ds| <= next && n <= |fs| <= next
    requires forall c :: c in claims ==> !Unanswered(ds, next, c)
    requires forall c :: OnRecord(fs, next, c) ==> c in claims
    ensures Tail(ds, n) == Tail(fs, n)
  {
    forall i | 0 <= i < n ensures Tail(ds, n)[i] == Tail(fs, n)[i] {
      var c := Claim(next - n + i, Tail(fs, n)[i]);
      assert OnRecord(fs, next, c);
      assert c in claims;
    }
  }

  /** What stands before a record that clears first does not matter. */
  lemma TailDecides(front: seq<Fingerprint>, tail: seq<Fingerprint>)
    requires front != [] ==> ClearsFirst(tail)
    ensures Replay({}, front + tail) == Replay({}, tail)
  {
    ReplayAppend({}, front, tail);
    if front != [] {
      ReplayForgets(tail, Replay({}, front), {});
    }
  }

  lemma HeadAndTail(ds: seq<Fingerprint>, n: nat)
    requires n <= |ds|
    ensures ds[..|ds| - n] + Tail(ds, n) == ds
    ensures n == |ds| ==> Tail(ds, n) == ds
  {
  }

  /** A membership that is the replay of a record of what was heard, with every claim answered. */
  ghost predicate Answers(initial: nat, next: nat, ds: seq<Fingerprint>, claims: set<Claim>, keys: set<CacheKey>) {
    && initial + |ds| <= next && keys == Replay({}, ds)
    && (forall c :: c in claims ==> !Unanswered(ds, next, c))
    && (forall c :: OnRecord(ds, next, c) ==> c in claims)
    && (ds != [] ==> next - |ds| == initial || ClearsFirst(ds))
  }

  /** An exact state has answered everything it heard. */
  lemma ExactAnswersAll(s: State, ds: seq<Fingerprint>, claims: set<Claim>, l: Limits)
    requires Inv(s, l) && Sound(s, ds, claims) && s.Certainty() == Exact
    ensures Answers(s.initial, Next(s), ds, claims, s.keys) && (s.frontier.None? <==> ds == [])
  {
    forall c | c in claims ensures !Unanswered(ds, Next(s), c) {
      assert Settles(s, ds, c);
    }
  }

  /** A run from the start, with everything it heard. */
  lemma StartedRunSound(s: State, es: seq<Envelope>, l: Limits) returns (ds: seq<Fingerprint>)
    requires exists trusted :: s == Start(s.session, s.streamId, s.scope, s.initial, trusted)
    requires !Run(s, es, l).failed && |Cursors(es)| <= l.maxRecent
    ensures Inv(Run(s, es, l), l) && Sound(Run(s, es, l), ds, Claims(es))
    ensures Run(s, es, l).initial == s.initial && Run(s, es, l).scope == s.scope
  {
    var trusted :| s == Start(s.session, s.streamId, s.scope, s.initial, trusted);
    StartInv(s.session, s.streamId, s.scope, s.initial, trusted, l);
    RunKeepsInv(s, es, l);
    RunKeepsIdentity(s, es, l);
    assert {} + Claims(es) == Claims(es);
    forall c | c in CursorsOf(Claims(es)) ensures c in Cursors(es) {
      var i :| 0 <= i < |es| && ClaimOf(es[i]).cursor == c;
    }
    RunSound(s, [], {}, es, l, Cursors(es));
    ds := DigestsOf(Window.History([], s, es, l));
  }

  /** When such a run ends exact, it has answered everything it heard. */
  lemma StartedRunAnswers(s: State, es: seq<Envelope>, l: Limits) returns (ds: seq<Fingerprint>)
    requires exists trusted :: s == Start(s.session, s.streamId, s.scope, s.initial, trusted)
    requires !Run(s, es, l).failed && |Cursors(es)| <= l.maxRecent
    ensures Inv(Run(s, es, l), l) && Run(s, es, l).scope == s.scope
    ensures var t := Run(s, es, l);
            t.Certainty() == Exact ==> Answers(s.initial, Next(t), ds, Claims(es), t.keys) && (t.frontier.None? <==> ds == [])
  {
    ds := StartedRunSound(s, es, l);
    if Run(s, es, l).Certainty() == Exact {
      ExactAnswersAll(Run(s, es, l), ds, Claims(es), l);
    }
  }

  /**
   A window that can hold every cursor of the stream needs no honest publisher:
   when one side heard only what the other heard too, the two are never
   reported as diverged.
   */
  lemma WideWindowNeverDiverges(s: State, es: seq<Envelope>, fs: seq<Envelope>, l: Limits)
    requires exists trusted :: s == Start(s.session, s.streamId, s.scope, s.initial, trusted)
    requires !Run(s, es, l).failed && !Run(s, fs, l).failed
    requires Claims(fs) <= Claims(es) && |Cursors(es)| <= l.maxRecent
    ensures CompareStreams(SummaryOf(Run(s, es, l), l), SummaryOf(Run(s, fs, l), l)).verdict != Diverged
  {
    FewerCursors(es, fs);
    var ds := StartedRunAnswers(s, es, l);
    var gs := StartedRunAnswers(s, fs, l);
    var t, u := Run(s, es, l), Run(s, fs, l);
    if t.Certainty() == Exact && u.Certainty() == Exact && t.frontier == u.frontier {
      AnswersAgree(s.initial, Next(t), ds, gs, Claims(es), Claims(fs), t.keys, u.keys);
    }
    SameViewNeverDiverges(t, u, l);
  }

  lemma AnswersAgree(initial: nat, next: nat, ds: seq<Fingerprint>, gs: seq<Fingerprint>, claims: set<Claim>, fewer: set<Claim>,
                     keys: set<CacheKey>, others: set<CacheKey>)
    requires Answers(initial, next, ds, claims, keys) && Answers(initial, next, gs, fewer, others)
    requires fewer <= claims && (ds == [] <==> gs == [])
    ensures keys == others
  {
    SameReplay(initial, next, ds, gs, claims);
  }

  lemma SameViewNeverDiverges(t: State, u: State, l: Limits)
    requires Inv(t, l) && Inv(u, l) && !t.failed && !u.failed && t.scope == u.scope
    requires t.Certainty() == Exact && u.Certainty() == Exact && t.frontier == u.frontier ==> t.keys == u.keys
    ensures CompareStreams(SummaryOf(t, l), SummaryOf(u, l)).verdict != Diverged
  {
    EligibleMeansExact(t, l);
    EligibleMeansExact(u, l);
  }

  lemma FewerCursors(es: seq<Envelope>, fs: seq<Envelope>)
    requires Claims(fs) <= Claims(es)
    ensures |Cursors(fs)| <= |Cursors(es)|
  {
    forall c | c in Cursors(fs) ensures c in Cursors(es) {
      var i :| 0 <= i < |fs| && fs[i].cursor == c;
      assert ClaimOf(fs[i]) in Claims(es);
    }
    SubsetSize(Cursors(fs), Cursors(es));
  }

  // ----------------------------------------------------- narrow windows

  /** Exact, with nothing waiting and nothing against it. */
  predicate Quiet(s: State) {
    && s.pending == map[] && s.equivocationCeiling.None? && s.unavailableFloor.None? && s.unavailableCeiling.None?
    && !s.baselineUnknown && s.viewAuthoritative && !s.failed
  }

  ghost predicate Foldable(keys: set<CacheKey>, e: Envelope, l: Limits) {
    FoldBounded(Folded(keys, 0), Ops(e.mutations), l.cache).Ok?
  }

  /** The expected delivery is folded into a quiet state, which stays quiet. */
  lemma NextIsApplied(s: State, e: Envelope, l: Limits, t: State)
    requires Inv(s, l) && Quiet(s) && Belongs(s, e) && e.cursor == Next(s) && Foldable(s.keys, e, l)
    requires t == Admit(s, Sealed, e, l).0
    ensures t == s.(frontier := Some(e.cursor), keys := Fold(s.keys, Ops(e.mutations)), recent := t.recent, diagnostics := t.diagnostics)
  {
    AdmitByRoute(s, e, l);
    assert e.mutations[0..] == e.mutations && Ops(e.mutations) + [] == Ops(e.mutations);
    assert DrainEnd(s.pending, None, e.cursor) == e.cursor;
    BoundedFoldMeaning(Folded(s.keys, 0), Ops(e.mutations), l.cache);
  }

  /** Deliveries that follow one another from the expected cursor on and touch no key. */
  predicate InertRun(s: State, es: seq<Envelope>) {
    forall i :: 0 <= i < |es| ==> Belongs(s, es[i]) && es[i].cursor == Next(s) + i && Ops(es[i].mutations) == []
  }

  lemma {:induction false} InertRunIsApplied(s: State, es: seq<Envelope>, l: Limits)
    requires Inv(s, l) && Quiet(s) && InertRun(s, es)
    ensures var t := Run(s, es, l); Inv(t, l) && Quiet(t) && t.keys == s.keys && Next(t) == Next(s) + |es|
    ensures s.frontier.Some? ==> Run(s, es, l).frontier.Some?
    decreases es
  {
    if es != [] {
      var t := Admit(s, Sealed, es[0], l).0;
      AdmitKeepsInv(s, Sealed, es[0], l);
      assert Belongs(s, es[0]) && Ops(es[0].mutations) == [];
      NextIsApplied(s, es[0], l, t);
      forall i | 0 <= i < |es[1..]| ensures Belongs(t, es[1..][i]) && es[1..][i].cursor == Next(t) + i && Ops(es[1..][i].mutations) == [] {
        assert es[1..][i] == es[i + 1];
      }
      InertRunIsApplied(t, es[1..], l);
    }
  }

  /** A block longer than the window has lost its first cursor. */
  lemma FirstIsForgotten(t: State, first: u64, l: Limits)
    requires WindowInv(t, l) && first + l.maxRecent < Next(t)
    ensures first !in t.recent
  {
    if first in t.recent {
      RangeFits(t.recent.Keys, first, l.maxRecent + 1);
    }
  }

  /** An exact view of nothing but `e`, past a run of the window's length. */
  predicate Won(s: State, e: Envelope, l: Limits, t: State) {
    && Quiet(t) && t.scope == s.scope && t.keys == Fold({}, Ops(e.mutations))
    && t.frontier.Some? && t.frontier.value == s.initial + l.maxRecent
  }

  /** Two contradicting payloads at the initial cursor, each of which fits an empty view, and a run that outlasts the window. */
  ghost predicate Contradicted(s: State, e: Envelope, between: seq<Envelope>, f: Envelope, l: Limits) {
    && s == Start(s.session, s.streamId, s.scope, s.initial, true) && |between| == l.maxRecent
    && Belongs(s, e) && Belongs(s, f) && e.cursor == f.cursor == s.initial
    && Foldable({}, e, l) && Foldable({}, f, l) && InertRun(s.(frontier := Some(s.initial)), between)
    && Fold({}, Ops(e.mutations)) != Fold({}, Ops(f.mutations))
  }

  /** Whatever arrives last at a forgotten cursor is stale and changes no view. */
  lemma FirstWins(s: State, e: Envelope, between: seq<Envelope>, f: Envelope, l: Limits)
    requires Contradicted(s, e, between, f, l)
    ensures Won(s, e, l, Admit(Run(Admit(s, Sealed, e, l).0, between, l), Sealed, f, l).0)
  {
    StartInv(s.session, s.streamId, s.scope, s.initial, true, l);
    var first := Admit(s, Sealed, e, l).0;
    NextIsApplied(s, e, l, first);
    AdmitKeepsInv(s, Sealed, e, l);
    assert InertRun(first, between);
    InertRunIsApplied(first, between, l);
    RunKeepsIdentity(first, between, l);
    var u := Run(first, between, l);
    FirstIsForgotten(u, s.initial, l);
    StaleChangesNothing(u, f, l);
  }

  lemma RunsInTurn(s: State, e: Envelope, between: seq<Envelope>, f: Envelope, l: Limits)
    ensures Run(s, [e] + between + [f], l) == Admit(Run(Admit(s, Sealed, e, l).0, between, l), Sealed, f, l).0
  {
    var u := Run(Admit(s, Sealed, e, l).0, between, l);
    assert ([e] + between)[1..] == between;
    RunAppend(s, [e] + between, [f], l);
    assert Run(u, [f], l) == Run(Admit(u, Sealed, f, l).0, [], l);
  }

  lemma FirstWinsRun(s: State, e: Envelope, between: seq<Envelope>, f: Envelope, l: Limits)
    requires Contradicted(s, e, between, f, l)
    ensures Won(s, e, l, Run(s, [e] + between + [f], l)) && Inv(Run(s, [e] + between + [f], l), l)
  {
    FirstWins(s, e, between, f, l);
    RunsInTurn(s, e, between, f, l);
    StartInv(s.session, s.streamId, s.scope, s.initial, true, l);
    RunKeepsInv(s, [e] + between + [f], l);
  }

  /** Deliveries of the stream at its initial cursor. */
  predicate Late(s: State, es: seq<Envelope>) {
    forall i :: 0 <= i < |es| ==> Belongs(s, es[i]) && es[i].cursor == s.initial
  }

  lemma {:induction false} LateChangesNothing(s: State, e: Envelope, l: Limits, t: State, late: seq<Envelope>)
    requires Won(s, e, l, t) && Inv(t, l) && Late(s, late)
    requires (t.session, t.streamId, t.initial) == (s.session, s.streamId, s.initial)
    ensures Won(s, e, l, Run(t, late, l))
    decreases late
  {
    if late != [] {
      var u := Admit(t, Sealed, late[0], l).0;
      FirstIsForgotten(t, s.initial, l);
      StaleChangesNothing(t, late[0], l);
      AdmitKeepsInv(t, Sealed, late[0], l);
      LateChangesNothing(s, e, l, u, late[1..]);
    }
  }

  /** The whole run of one side, whatever else arrives at the initial cursor in the end. */
  lemma FirstWinsForGood(s: State, e: Envelope, between: seq<Envelope>, f: Envelope, late: seq<Envelope>, l: Limits)
    requires Contradicted(s, e, between, f, l) && Late(s, late)
    ensures Won(s, e, l, Run(s, [e] + between + [f] + late, l))
  {
    FirstWinsRun(s, e, between, f, l);
    StartInv(s.session, s.streamId, s.scope, s.initial, true, l);
    RunKeepsIdentity(s, [e] + between + [f], l);
    LateChangesNothing(s, e, l, Run(s, [e] + between + [f], l), late);
    RunAppend(s, [e] + between + [f], late, l);
  }

  lemma StaleChangesNothing(t: State, f: Envelope, l: Limits)
    requires Quiet(t) && Belongs(t, f) && f.cursor !in t.recent && t.frontier.Some? && f.cursor <= t.frontier.value
    ensures Admit(t, Sealed, f, l).0 == t.(diagnostics := Admit(t, Sealed, f, l).0.diagnostics)
  {
  }

  lemma WinnersDiverge(s: State, e: Envelope, f: Envelope, l: Limits, t: State, u: State)
    requires Won(s, e, l, t) && Won(s, f, l, u) && Fold({}, Ops(e.mutations)) != Fold({}, Ops(f.mutations))
    ensures CompareStreams(SummaryOf(t, l), SummaryOf(u, l)).verdict == Diverged
  {
  }

  /**
   The bound is sharp: under every window size, a stream of one cursor more
   diverges when the two contradicting deliveries at its first cursor, one at
   either end of the run, are exchanged, whatever arrives there afterwards.
   */
  lemma ForgottenConflictDiverges(s: State, e: Envelope, between: seq<Envelope>, f: Envelope, late: seq<Envelope>, l: Limits)
    requires Contradicted(s, e, between, f, l) && Late(s, late)
    ensures var es, fs := [e] + between + [f] + late, [f] + between + [e] + late;
            && !Run(s, es, l).failed && !Run(s, fs, l).failed
            && |Cursors(es)| == |Cursors(fs)| == l.maxRecent + 1
            && CompareStreams(SummaryOf(Run(s, es, l), l), SummaryOf(Run(s, fs, l), l)).verdict == Diverged
  {
    FirstWinsForGood(s, e, between, f, late, l);
    FirstWinsForGood(s, f, between, e, late, l);
    WinnersDiverge(s, e, f, l, Run(s, [e] + between + [f] + late, l), Run(s, [f] + between + [e] + late, l));
    OneCursorMore(s, e, between, f, late, l);
    OneCursorMore(s, f, between, e, late, l);
  }

  lemma OneCursorMore(s: State, e: Envelope, between: seq<Envelope>, f: Envelope, late: seq<Envelope>, l: Limits)
    requires Contradicted(s, e, between, f, l) && Late(s, late)
    ensures |Cursors([e] + between + [f] + late)| == l.maxRecent + 1
  {
    var es := [e] + between + [f] + late;
    var d := Cursors(es);
    forall c: nat ensures c in d <==> s.initial <= c < s.initial + l.maxRecent + 1 {
      if s.initial <= c < s.initial + l.maxRecent + 1 {
        assert es[c - s.initial].cursor == c;
      }
    }
    RangeSize(d, s.initial, l.maxRecent + 1);
  }

  // -------------------------------------------- a contradiction for every window

  const LONE_KEY := CacheKey(GroupUnspecified, MediumUnspecified, HashU64(0))
  const LONE_STORE := StoreRun([HashU64(0)], GroupUnspecified, MediumUnspecified, None, "")

  /** The rival payloads of one stream: a store at its first cursor, `n` empty ones after it, and two empty ones back there. */
  function Rival(session: nat, streamId: string, initial: u64, n: nat, stored: u64, empty: u64, j: nat): Envelope
    requires initial + n <= U64_MAX
  {
    Envelope(session, seq(j, _ => 'x'), streamId, if j <= n then initial + j else initial,
             if j == 0 then [LONE_STORE] else [], if j == 0 then stored else empty)
  }

  function Rivals(session: nat, streamId: string, initial: u64, n: nat, stored: u64, empty: u64): (es: seq<Envelope>)
    requires initial + n <= U64_MAX
    ensures |es| == n + 3 && forall j :: 0 <= j < n + 3 ==> es[j] == Rival(session, streamId, initial, n, stored, empty, j)
  {
    seq(n + 3, j requires 0 <= j < n + 3 => Rival(session, streamId, initial, n, stored, empty, j))
  }

  lemma LoneStoreFolds(l: Limits)
    requires l.cache.maxKeys >= 1 && l.cache.maxBytes >= 8
    ensures FoldBounded(Folded({}, 0), Ops([LONE_STORE]), l.cache).Ok? && Fold({}, Ops([LONE_STORE])) == {LONE_KEY}
  {
    assert Ops([LONE_STORE]) == [Put(LONE_KEY)] by {
      assert OpsOf(LONE_STORE) == [Put(LONE_KEY)];
      assert [LONE_STORE][1..] == [];
    }
    assert KeyBytes(LONE_KEY) == 8;
    assert FoldBounded(Folded({LONE_KEY}, 0), [], l.cache) == Ok(Folded({LONE_KEY}, 0));
  }

  /** Wherever the cursors of the run exist and one key fits the cache, there is such a contradiction. */
  lemma ContradictionExists(s: State, n: nat, stored: u64, empty: u64, l: Limits)
    requires s == Start(s.session, s.streamId, s.scope, s.initial, true) && n == l.maxRecent
    requires s.initial + n <= U64_MAX && l.cache.maxKeys >= 1 && l.cache.maxBytes >= 8
    ensures var es := Rivals(s.session, s.streamId, s.initial, n, stored, empty);
            Contradicted(s, es[0], es[1..n + 1], es[n + 1], l) && Late(s, es[n + 2..])
  {
    LoneStoreFolds(l);
  }

  /** And so, under every window size, rivals that diverge when they are exchanged. */
  lemma RivalsDiverge(s: State, n: nat, stored: u64, empty: u64, l: Limits, es: seq<Envelope>, fs: seq<Envelope>)
    requires s == Start(s.session, s.streamId, s.scope, s.initial, true) && n == l.maxRecent && s.initial + n <= U64_MAX
    requires l.cache.maxKeys >= 1 && l.cache.maxBytes >= 8
    requires var rs := Rivals(s.session, s.streamId, s.initial, n, stored, empty);
             && es == [rs[0]] + rs[1..n + 1] + [rs[n + 1]] + rs[n + 2..]
             && fs == [rs[n + 1]] + rs[1..n + 1] + [rs[0]] + rs[n + 2..]
    ensures !Run(s, es, l).failed && !Run(s, fs, l).failed && |Cursors(es)| == n + 1
    ensures CompareStreams(SummaryOf(Run(s, es, l), l), SummaryOf(Run(s, fs, l), l)).verdict == Diverged
  {
    var rs := Rivals(s.session, s.streamId, s.initial, n, stored, empty);
    ContradictionExists(s, n, stored, empty, l);
    ForgottenConflictDiverges(s, rs[0], rs[1..n + 1], rs[n + 1], rs[n + 2..], l);
  }
}
