/**
 The meaning of an authoritative view: whatever was lost, repeated or
 reordered, it is the plain fold of the publisher's true history.
 */
module Truth {
  import opened Prelude
  import opened Cache
  import opened StreamSpec
  import opened Ledger

  /** What the publisher really did at each cursor. */
  type History = nat -> seq<KeyOp>

  /** Membership after the history of cursors `[from, upto)`, starting from `before`. */
  function FoldHistory(h: History, before: set<CacheKey>, from: nat, upto: nat): set<CacheKey>
    decreases upto - from
  {
    if upto <= from then before else Fold(FoldHistory(h, before, from, upto - 1), h(upto - 1))
  }

  /** The delivery carries what the publisher did at its cursor; inert evidence may differ. */
  predicate Agrees(h: History, e: Envelope) { Ops(e.mutations) == h(e.cursor) }

  predicate AllAgree(h: History, es: seq<Envelope>) {
    forall i :: 0 <= i < |es| ==> Agrees(h, es[i])
  }

  ghost predicate LedgerAgrees(h: History, pending: map<u64, PendingSlot>) {
    forall c :: c in pending && pending[c].Candidate? ==> Agrees(h, pending[c].source)
  }

  /** An authoritative view is the fold of everything up to the frontier, delivered or not. */
  ghost predicate Truthful(s: State, h: History, before: set<CacheKey>) {
    s.viewAuthoritative ==> s.keys == FoldHistory(h, before, s.initial, Next(s))
  }

  // -------------------------------------------------------- application

  /** From its first clear on, a mutation list means the same from any view, and the same as the whole list. */
  lemma ClearForgets(mutations: seq<Mutation>, view: set<CacheKey>, other: set<CacheKey>)
    requires ClearPosition(mutations, 0).Some?
    ensures Fold(view, Ops(mutations[ClearPosition(mutations, 0).value..])) == Fold(other, Ops(mutations))
  {
    var k := ClearPosition(mutations, 0).value;
    var prefix, tail, rest := mutations[..k], mutations[k..], mutations[k + 1..];
    assert mutations == prefix + tail;
    OpsAppend(prefix, tail);
    assert tail[1..] == rest;
    assert Ops(tail) == [Wipe] + Ops(rest);
    AppendAssociates(Ops(prefix), [Wipe], Ops(rest));
    FoldForgets(other, view, Ops(prefix), Ops(rest));
  }

  /** Applying from the first clear on gives the truth at that cursor from any view whatever. */
  lemma BarrierMeaning(h: History, view: set<CacheKey>, truth: set<CacheKey>, e: Envelope)
    requires e.HasClear() && Agrees(h, e)
    ensures Fold(view, Ops(AppliedFrom(e, true))) == Fold(truth, h(e.cursor))
  {
    ClearForgets(e.mutations, view, truth);
  }

  /** Draining a contiguous clean run extends the truth cursor by cursor. */
  lemma {:induction false} SpanMeaning(h: History, before: set<CacheKey>, s: State, from: nat, last: nat)
    requires CleanSpan(s.pending, from, last) && from <= last && s.initial <= from + 1
    requires LedgerAgrees(h, s.pending) && LedgerFits(s.pending, s.session, s.streamId)
    ensures Fold(FoldHistory(h, before, s.initial, from + 1), SpanOps(s.pending, from, last))
         == FoldHistory(h, before, s.initial, last + 1)
    decreases last - from
  {
    if from < last {
      assert CleanAt(s.pending, from + 1);
      var here := FoldHistory(h, before, s.initial, from + 1);
      var ops := Ops(s.pending[from + 1].source.mutations);
      FoldAppend(here, ops, SpanOps(s.pending, from + 1, last));
      assert FoldHistory(h, before, s.initial, from + 2) == Fold(here, h(from + 1));
      SpanMeaning(h, before, s, from + 1, last);
    }
  }

  /** The view folded by an application is the truth at the last cursor it reaches. */
  lemma ApplicationMeaning(h: History, before: set<CacheKey>, s: State, e: Envelope, barrier: bool)
    requires PendingInv(s) && AuthorityInv(s) && Applicable(s, e, barrier)
    requires LedgerAgrees(h, s.pending) && Agrees(h, e) && Truthful(s, h, before)
    requires barrier || s.viewAuthoritative
    ensures Fold(s.keys, ApplyOps(s, e, barrier))
         == FoldHistory(h, before, s.initial, DrainLast(s, e, barrier) + 1)
  {
    var last := DrainLast(s, e, barrier);
    var truth := FoldHistory(h, before, s.initial, e.cursor);
    FoldAppend(s.keys, Ops(AppliedFrom(e, barrier)), SpanOps(s.pending, e.cursor, last));
    if barrier {
      BarrierMeaning(h, s.keys, truth, e);
    } else {
      assert e.mutations[0..] == e.mutations;
    }
    assert Fold(s.keys, Ops(AppliedFrom(e, barrier))) == FoldHistory(h, before, s.initial, e.cursor + 1);
    SpanMeaning(h, before, s, e.cursor, last);
  }

  lemma AppliedLedgerAgrees(h: History, s: State, e: Envelope, barrier: bool, l: Limits, t: State, d: Disposition)
    requires PendingInv(s) && AttachInv(s) && LedgerAgrees(h, s.pending)
    requires Applicable(s, e, barrier) && ApplySource(s, e, barrier, l) == Ok((t, d))
    ensures LedgerAgrees(h, t.pending)
  {
    CommittedPending(s, e, barrier, DrainLast(s, e, barrier), FoldBounded(Folded(s.keys, 0), ApplyOps(s, e, barrier), l.cache).value, l);
  }

  lemma TruthfulAt(h: History, before: set<CacheKey>, s: State, last: u64)
    requires s.frontier == Some(last) && s.keys == FoldHistory(h, before, s.initial, last + 1)
    ensures Truthful(s, h, before)
  {
  }

  lemma AppliedKeepsTruth(h: History, before: set<CacheKey>, s: State, e: Envelope, barrier: bool, l: Limits, t: State, d: Disposition)
    requires PendingInv(s) && AuthorityInv(s) && WithinLimits(s.keys, l.cache)
    requires Applicable(s, e, barrier) && ApplySource(s, e, barrier, l) == Ok((t, d))
    requires LedgerAgrees(h, s.pending) && Agrees(h, e) && Truthful(s, h, before)
    ensures Truthful(t, h, before)
  {
    CommittedFrame(s, e, barrier, l, t, d);
    if t.viewAuthoritative {
      AppliedKeys(s, e, barrier, l, t, d);
      ApplicationMeaning(h, before, s, e, barrier);
      TruthfulAt(h, before, t, DrainLast(s, e, barrier));
    }
  }

  lemma RedeliveryKeepsTruth(h: History, before: set<CacheKey>, s: State, e: Envelope, l: Limits)
    requires e.cursor in s.pending && LedgerAgrees(h, s.pending) && Truthful(s, h, before)
    ensures var t := PendingRedelivery(s, e, l).0;
            Truthful(t, h, before) && LedgerAgrees(h, t.pending)
  {
    PendingRedeliveryFrame(s, e, l);
  }

  lemma PastKeepsTruth(h: History, before: set<CacheKey>, s: State, e: Envelope, l: Limits)
    requires LedgerAgrees(h, s.pending) && Truthful(s, h, before)
    ensures var t := PastDelivery(s, e, l).0;
            Truthful(t, h, before) && LedgerAgrees(h, t.pending)
  {
    PastDeliveryFrame(s, e, l);
  }

  lemma HeldKeepsTruth(h: History, before: set<CacheKey>, s: State, e: Envelope, expected: u64, l: Limits)
    requires expected < e.cursor && Agrees(h, e) && LedgerAgrees(h, s.pending) && Truthful(s, h, before)
    ensures var t := Buffer(s, e, expected, l).0;
            Truthful(t, h, before) && LedgerAgrees(h, t.pending)
  {
    BufferFrame(s, e, expected, l);
  }

  // --------------------------------------------------------------- runs

  lemma DeliveryKeepsTruth(h: History, before: set<CacheKey>, s: State, e: Envelope, l: Limits, t: State, d: Disposition)
    requires Inv(s, l) && Delivered(s, e, l, t, d)
    requires LedgerAgrees(h, s.pending) && Agrees(h, e) && Truthful(s, h, before)
    ensures Truthful(t, h, before) && LedgerAgrees(h, t.pending)
  {
    match RouteOf(s, e) {
      case Redelivered => RedeliveryKeepsTruth(h, before, s, e, l);
      case Past => PastKeepsTruth(h, before, s, e, l);
      case Withheld =>
      case Apply(barrier) =>
        AppliedKeepsTruth(h, before, s, e, barrier, l, t, d);
        AppliedLedgerAgrees(h, s, e, barrier, l, t, d);
      case Held => HeldKeepsTruth(h, before, s, e, Next(s), l);
    }
  }

  lemma {:induction false} RunKeepsTruth(h: History, before: set<CacheKey>, s: State, es: seq<Envelope>, l: Limits)
    requires Inv(s, l) && AllAgree(h, es) && LedgerAgrees(h, s.pending) && Truthful(s, h, before)
    ensures Truthful(Run(s, es, l), h, before)
    decreases es
  {
    if es != [] {
      var t := Admit(s, Sealed, es[0], l).0;
      AdmitKeepsInv(s, Sealed, es[0], l);
      if !s.failed && AdmitInner(s, es[0], l).Ok? {
        AcceptedIsDelivered(s, es[0], l, t, AdmitInner(s, es[0], l).value.1);
        DeliveryKeepsTruth(h, before, s, es[0], l, t, AdmitInner(s, es[0], l).value.1);
      }
      forall i | 0 <= i < |es[1..]| ensures Agrees(h, es[1..][i]) {
        assert es[1..][i] == es[i + 1];
      }
      RunKeepsTruth(h, before, t, es[1..], l);
    }
  }

  /**
   The central law of the consumer. Starting empty by trusted authority, or with
   no trusted baseline and any real initial membership, every authoritative view
   is exactly the publisher's membership at the frontier.
   */
  lemma AuthoritativeViewIsTrue(
      h: History, before: set<CacheKey>, session: nat, streamId: string, scope: Scope, initial: u64,
      trustedEmpty: bool, es: seq<Envelope>, l: Limits)
    requires AllAgree(h, es)
    requires trustedEmpty ==> before == {}
    ensures var t := Run(Start(session, streamId, scope, initial, trustedEmpty), es, l);
            t.viewAuthoritative ==> t.keys == FoldHistory(h, before, initial, Next(t))
  {
    var s := Start(session, streamId, scope, initial, trustedEmpty);
    StartInv(session, streamId, scope, initial, trustedEmpty, l);
    RunKeepsTruth(h, before, s, es, l);
    RunKeepsIdentity(s, es, l);
  }
}
