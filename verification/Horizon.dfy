/**
 Safety of discarded evidence: while something has been thrown away, nothing at
 or above it is ever folded, and only a clear strictly above everything seen
 lifts the restriction.
 */
module Horizon {
  import opened Prelude
  import opened StreamSpec
  import opened Ledger

  /** How one delivery may move the frontier and the unavailable horizon. */
  predicate HorizonMoves(s: State, t: State, e: Envelope) {
    && Next(s) <= Next(t)
    && (s.unavailableFloor.Some? ==>
          if t.unavailableFloor.Some? then
            && t.unavailableFloor.value <= s.unavailableFloor.value
            && s.unavailableCeiling.Some? && t.unavailableCeiling.Some?
            && s.unavailableCeiling.value <= t.unavailableCeiling.value
          else
            && s.unavailableCeiling.Some?
            && e.HasClear() && s.unavailableCeiling.value < e.cursor
            && Next(t) > e.cursor)
  }

  /** The frontier never retreats; the floor only falls, the ceiling only rises, and only a clear above it lifts both. */
  lemma DeliveryMovesHorizon(s: State, e: Envelope, l: Limits, t: State, d: Disposition)
    requires PendingInv(s) && HorizonInv(s) && AdmitInner(s, e, l) == Ok((t, d))
    ensures HorizonMoves(s, t, e)
  {
    AcceptedIsDelivered(s, e, l, t, d);
    RouteMovesHorizon(s, e, l, t, d);
  }

  lemma RouteMovesHorizon(s: State, e: Envelope, l: Limits, t: State, d: Disposition)
    requires HorizonInv(s) && Delivered(s, e, l, t, d)
    ensures HorizonMoves(s, t, e)
  {
    match RouteOf(s, e) {
      case Redelivered => RepeatMoves(s, e, l);
      case Past => PastMoves(s, e, l);
      case Withheld => DiscardMoves(s, e, t.diagnostics);
      case Apply(barrier) => AppliedMoves(s, e, barrier, l, t, d);
      case Held => HeldMoves(s, e, Next(s), l);
    }
  }

  lemma RepeatMoves(s: State, e: Envelope, l: Limits)
    requires HorizonInv(s) && e.cursor in s.pending
    ensures HorizonMoves(s, PendingRedelivery(s, e, l).0, e)
  {
    PendingRedeliveryFrame(s, e, l);
  }

  lemma PastMoves(s: State, e: Envelope, l: Limits)
    requires HorizonInv(s)
    ensures HorizonMoves(s, PastDelivery(s, e, l).0, e)
  {
    PastDeliveryFrame(s, e, l);
  }

  lemma HeldMoves(s: State, e: Envelope, expected: u64, l: Limits)
    requires HorizonInv(s) && expected < e.cursor
    ensures HorizonMoves(s, Buffer(s, e, expected, l).0, e)
  {
    BufferFrame(s, e, expected, l);
    DiscardMoves(s, e, Buffer(s, e, expected, l).0.diagnostics);
  }

  lemma AppliedMoves(s: State, e: Envelope, barrier: bool, l: Limits, t: State, d: Disposition)
    requires HorizonInv(s) && Applicable(s, e, barrier) && ApplySource(s, e, barrier, l) == Ok((t, d))
    ensures HorizonMoves(s, t, e)
  {
    CommittedFrame(s, e, barrier, l, t, d);
  }

  lemma DiscardMoves(s: State, e: Envelope, g: Diagnostics)
    requires HorizonInv(s)
    ensures HorizonMoves(s, MarkUnavailable(s, e.cursor).(diagnostics := g), e)
  {
  }

  /** No delivery of the run carries a clear above `ceiling`. */
  predicate NoClearAbove(es: seq<Envelope>, ceiling: u64) {
    forall i :: 0 <= i < |es| ==> es[i].HasClear() ==> es[i].cursor <= ceiling
  }

  /**
   Once evidence at `floor` has been discarded, a run without a clear above the
   ceiling can never reach the floor again, and never reports an exact or a
   merely recovering view.
   */
  lemma {:induction false} DiscardedEvidenceIsNeverPassed(s: State, es: seq<Envelope>, l: Limits)
    requires Inv(s, l) && s.unavailableFloor.Some? && s.unavailableCeiling.Some?
    requires NoClearAbove(es, s.unavailableCeiling.value)
    ensures var t := Run(s, es, l);
            && t.unavailableFloor.Some?
            && Next(s) <= Next(t) <= t.unavailableFloor.value <= s.unavailableFloor.value
            && t.unavailableFloor.value !in t.pending
            && t.Certainty() == Unknown
    decreases es
  {
    if es != [] {
      var t := Admit(s, Sealed, es[0], l).0;
      AdmitKeepsInv(s, Sealed, es[0], l);
      if !s.failed && AdmitInner(s, es[0], l).Ok? {
        DeliveryMovesHorizon(s, es[0], l, t, AdmitInner(s, es[0], l).value.1);
        assert es[0].HasClear() ==> es[0].cursor <= s.unavailableCeiling.value;
      }
      forall i | 0 <= i < |es[1..]| ensures es[1..][i].HasClear() ==> es[1..][i].cursor <= t.unavailableCeiling.value {
        assert es[1..][i] == es[i + 1];
      }
      DiscardedEvidenceIsNeverPassed(t, es[1..], l);
    }
  }

  predicate Discards(d: Disposition) { d.PendingLimit? || d.GapLimit? || d.UnverifiableGap? }

  /**
   Evidence is thrown away only with a report, and every report starts or
   extends the horizon; without one the horizon stays as it is or is gone.
   */
  predicate DiscardReported(s: State, t: State, d: Disposition, e: Envelope) {
    if Discards(d) then
      && t == s.(unavailableFloor := t.unavailableFloor, unavailableCeiling := t.unavailableCeiling, diagnostics := t.diagnostics)
      && t.unavailableFloor.Some? && t.unavailableCeiling.Some?
      && t.unavailableFloor.value <= e.cursor <= t.unavailableCeiling.value
    else
      || (t.unavailableFloor == s.unavailableFloor && t.unavailableCeiling == s.unavailableCeiling)
      || (t.unavailableFloor.None? && t.unavailableCeiling.None?)
  }

  lemma DiscardIsReported(s: State, e: Envelope, l: Limits, t: State, d: Disposition)
    requires PendingInv(s) && AdmitInner(s, e, l) == Ok((t, d))
    ensures DiscardReported(s, t, d, e)
  {
    AcceptedIsDelivered(s, e, l, t, d);
    RouteReports(s, e, l, t, d);
  }

  lemma RouteReports(s: State, e: Envelope, l: Limits, t: State, d: Disposition)
    requires Delivered(s, e, l, t, d)
    ensures DiscardReported(s, t, d, e)
  {
    match RouteOf(s, e) {
      case Redelivered => PendingRedeliveryFrame(s, e, l);
      case Past => PastDeliveryFrame(s, e, l);
      case Withheld =>
      case Apply(barrier) => CommittedFrame(s, e, barrier, l, t, d);
      case Held => HeldReported(s, e, Next(s), l);
    }
  }

  lemma HeldReported(s: State, e: Envelope, expected: u64, l: Limits)
    requires expected < e.cursor
    ensures var (t, d) := Buffer(s, e, expected, l);
            DiscardReported(s, t, d, e)
  {
  }
}
