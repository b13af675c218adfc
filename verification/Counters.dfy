/**
 What the diagnostic counters mean: over a whole run each one is the true total
 of what it counts, up to the configured ceiling, and the truncation flag is
 raised exactly when some total has passed the ceiling.
 */
module Counters {
  import opened Prelude
  import opened Cache
  import opened StreamSpec
  import opened Ledger

  /** What a counter counts: reports of one kind, or removals of absent keys, apart for exact and for partial views. */
  datatype Meter = Reported(kind: Disposition) | Missing(exact: bool)

  /** Whether a counter is kept; applied and buffered deliveries have none. */
  predicate Kept(m: Meter) {
    m.Reported? ==> m.kind != Applied && m.kind != BarrierApplied && m.kind != Buffered
  }

  function Reading(g: Diagnostics, m: Meter): nat
    requires Kept(m)
  {
    match m
    case Missing(exact) => if exact then g.missingExact else g.missingPartial
    case Reported(kind) =>
      match kind
      case Duplicate => g.duplicates
      case Equivocation => g.equivocations
      case StaleUnverifiable => g.staleUnverifiable
      case StaleBarrier => g.staleBarriers
      case PendingLimit => g.pendingLimits
      case GapLimit => g.gapLimits
      case UnverifiableGap => g.unverifiableGaps
  }

  /** The removals of absent keys that an application performs on an exact, or on a partial, view. */
  ghost function MissingIn(s: State, e: Envelope, exact: bool): nat {
    match RouteOf(s, e)
    case Apply(barrier) =>
      if (barrier || s.viewAuthoritative) == exact then MissingRemoves(s.keys, ApplyOps(s, e, barrier)) else 0
    case _ => 0
  }

  /** What one accepted delivery, reported as `d`, adds to a total. */
  ghost function Gain(s: State, e: Envelope, d: Disposition, m: Meter): nat {
    match m
    case Reported(kind) => if kind == d then 1 else 0
    case Missing(exact) => MissingIn(s, e, exact)
  }

  /** The true total over a run, up to a failure. */
  ghost function Total(s: State, es: seq<Envelope>, l: Limits, m: Meter): nat
    decreases es
  {
    if es == [] then 0 else
      var (t, r) := Admit(s, Sealed, es[0], l);
      (if r.Ok? then Gain(s, es[0], r.value, m) else 0) + Total(t, es[1..], l, m)
  }

  // ------------------------------------------------------- one delivery

  /** The counter follows its total up to the ceiling and raises the flag when it no longer can. */
  predicate Follows(g: Diagnostics, after: Diagnostics, gain: nat, m: Meter, max: nat)
    requires Kept(m)
  {
    && Reading(after, m) == Min(Reading(g, m) + gain, max)
    && (g.truncated || Reading(g, m) + gain > max ==> after.truncated)
  }

  /** The flag is raised for no reason but some total passing the ceiling. */
  ghost predicate FlagIsEarned(s: State, e: Envelope, d: Disposition, after: Diagnostics, max: nat) {
    after.truncated ==> s.diagnostics.truncated || exists m :: Kept(m) && Reading(s.diagnostics, m) + Gain(s, e, d, m) > max
  }

  /** No counter has passed the ceiling. */
  ghost predicate Bounded(g: Diagnostics, max: nat) {
    forall m :: Kept(m) ==> Reading(g, m) <= max
  }

  /** The counters after one report that is no application. */
  function Bumped(g: Diagnostics, d: Disposition, max: nat): Diagnostics {
    match d
    case Duplicate => BumpDuplicate(g, max)
    case Equivocation => BumpEquivocation(g, max)
    case StaleUnverifiable => BumpStale(g, false, max)
    case StaleBarrier => BumpStale(g, true, max)
    case PendingLimit => BumpPendingLimit(g, max)
    case GapLimit => BumpGapLimit(g, max)
    case UnverifiableGap => BumpUnverifiable(g, max)
    case _ => g
  }

  lemma BumpedFollows(g: Diagnostics, d: Disposition, m: Meter, max: nat)
    requires Kept(m) && Reading(g, m) <= max
    ensures Follows(g, Bumped(g, d, max), if m == Reported(d) then 1 else 0, m, max)
  {
  }

  lemma BumpedFlag(g: Diagnostics, d: Disposition, max: nat)
    ensures Bumped(g, d, max).truncated && !g.truncated ==> Kept(Reported(d)) && Reading(g, Reported(d)) + 1 > max
  {
  }

  lemma AddMissingFollows(g: Diagnostics, exact: bool, missing: nat, m: Meter, max: nat)
    requires Kept(m) && Reading(g, m) <= max
    ensures Follows(g, AddMissing(g, exact, missing, max), if m == Missing(exact) then missing else 0, m, max)
  {
  }

  lemma AddMissingFlag(g: Diagnostics, exact: bool, missing: nat, max: nat)
    ensures AddMissing(g, exact, missing, max).truncated && !g.truncated ==> Reading(g, Missing(exact)) + missing > max
  {
  }

  /** Every delivery but an application bumps the counter of its report and nothing else. */
  lemma OthersBump(s: State, e: Envelope, l: Limits, t: State, d: Disposition)
    requires Delivered(s, e, l, t, d) && !RouteOf(s, e).Apply?
    ensures t.diagnostics == Bumped(s.diagnostics, d, l.maxDiagnostic)
  {
    match RouteOf(s, e) {
      case Redelivered => RepeatBumps(s, e, l);
      case Past => PastBumps(s, e, l);
      case Withheld =>
      case Held => HeldBumps(s, e, Next(s), l);
    }
  }

  lemma RepeatBumps(s: State, e: Envelope, l: Limits)
    requires e.cursor in s.pending
    ensures var (t, d) := PendingRedelivery(s, e, l); t.diagnostics == Bumped(s.diagnostics, d, l.maxDiagnostic)
  {
  }

  lemma PastBumps(s: State, e: Envelope, l: Limits)
    ensures var (t, d) := PastDelivery(s, e, l); t.diagnostics == Bumped(s.diagnostics, d, l.maxDiagnostic)
  {
  }

  lemma HeldBumps(s: State, e: Envelope, expected: u64, l: Limits)
    requires expected < e.cursor
    ensures var (t, d) := Buffer(s, e, expected, l); t.diagnostics == Bumped(s.diagnostics, d, l.maxDiagnostic)
  {
  }

  /** One delivery moves every counter by what it adds to the total. */
  lemma DeliveryCounts(s: State, e: Envelope, l: Limits, t: State, d: Disposition, m: Meter)
    requires SizeInv(s, l) && Delivered(s, e, l, t, d) && Kept(m) && Reading(s.diagnostics, m) <= l.maxDiagnostic
    ensures Follows(s.diagnostics, t.diagnostics, Gain(s, e, d, m), m, l.maxDiagnostic)
  {
    match RouteOf(s, e) {
      case Apply(barrier) =>
        CommittedFrame(s, e, barrier, l, t, d);
        AppliedKeys(s, e, barrier, l, t, d);
        AddMissingFollows(s.diagnostics, barrier || s.viewAuthoritative, MissingRemoves(s.keys, ApplyOps(s, e, barrier)), m, l.maxDiagnostic);
      case _ =>
        OthersBump(s, e, l, t, d);
        BumpedFollows(s.diagnostics, d, m, l.maxDiagnostic);
    }
  }

  lemma DeliveryEarnsFlag(s: State, e: Envelope, l: Limits, t: State, d: Disposition)
    requires SizeInv(s, l) && Delivered(s, e, l, t, d)
    ensures FlagIsEarned(s, e, d, t.diagnostics, l.maxDiagnostic)
  {
    if t.diagnostics.truncated && !s.diagnostics.truncated {
      var m: Meter;
      match RouteOf(s, e) {
        case Apply(barrier) =>
          AppliedKeys(s, e, barrier, l, t, d);
          AddMissingFlag(s.diagnostics, barrier || s.viewAuthoritative, MissingRemoves(s.keys, ApplyOps(s, e, barrier)), l.maxDiagnostic);
          m := Missing(barrier || s.viewAuthoritative);
        case _ =>
          OthersBump(s, e, l, t, d);
          BumpedFlag(s.diagnostics, d, l.maxDiagnostic);
          m := Reported(d);
      }
      assert Kept(m) && Reading(s.diagnostics, m) + Gain(s, e, d, m) > l.maxDiagnostic;
    }
  }

  // --------------------------------------------------------------- runs

  /** A counter that stands for a total, cut off at the ceiling and exact unless flagged. */
  predicate Stands(g: Diagnostics, m: Meter, total: nat, max: nat) {
    && Kept(m)
    && Reading(g, m) == Min(total, max)
    && (!g.truncated ==> Reading(g, m) == total)
  }

  /** The first delivery of a run: the state it leaves and what it adds. */
  lemma FirstDelivery(s: State, es: seq<Envelope>, l: Limits, m: Meter) returns (t: State, gain: nat)
    requires Inv(s, l) && Kept(m) && Reading(s.diagnostics, m) <= l.maxDiagnostic && es != []
    ensures t == Admit(s, Sealed, es[0], l).0 && Inv(t, l) && Run(s, es, l) == Run(t, es[1..], l)
    ensures Total(s, es, l, m) == gain + Total(t, es[1..], l, m)
    ensures Follows(s.diagnostics, t.diagnostics, gain, m, l.maxDiagnostic)
  {
    var (after, r) := Admit(s, Sealed, es[0], l);
    t, gain := after, if r.Ok? then Gain(s, es[0], r.value, m) else 0;
    AdmitKeepsInv(s, Sealed, es[0], l);
    if r.Ok? {
      AcceptedIsDelivered(s, es[0], l, t, r.value);
      DeliveryCounts(s, es[0], l, t, r.value, m);
    }
  }

  /** What remains after the first delivery, added to its gain, gives the whole. */
  lemma GainFirst(g: Diagnostics, after: Diagnostics, end: Diagnostics, gain: nat, m: Meter, later: nat, max: nat)
    requires Kept(m) && Reading(g, m) <= max && Follows(g, after, gain, m, max)
    requires Stands(end, m, Reading(after, m) + later, max) && (after.truncated ==> end.truncated)
    ensures Stands(end, m, Reading(g, m) + gain + later, max) && (g.truncated ==> end.truncated)
  {
  }

  /**
   Over a whole run every counter is the total of what it counts, cut off at the
   ceiling, and it is exact unless the truncation flag says otherwise.
   */
  lemma {:induction false} RunCounts(s: State, es: seq<Envelope>, l: Limits, m: Meter)
    requires Inv(s, l) && Kept(m) && Reading(s.diagnostics, m) <= l.maxDiagnostic
    ensures Stands(Run(s, es, l).diagnostics, m, Reading(s.diagnostics, m) + Total(s, es, l, m), l.maxDiagnostic)
    ensures s.diagnostics.truncated ==> Run(s, es, l).diagnostics.truncated
    decreases es
  {
    if es != [] {
      var t, gain := FirstDelivery(s, es, l, m);
      RunCounts(t, es[1..], l, m);
      GainFirst(s.diagnostics, t.diagnostics, Run(t, es[1..], l).diagnostics, gain, m, Total(t, es[1..], l, m), l.maxDiagnostic);
    }
  }

  /** Some total of the run passes the ceiling. */
  ghost predicate SomeTotalExceeds(s: State, es: seq<Envelope>, l: Limits) {
    exists m :: Kept(m) && Reading(s.diagnostics, m) + Total(s, es, l, m) > l.maxDiagnostic
  }

  /** The truncation flag of a run that began without it is raised exactly when some total passed the ceiling. */
  lemma RunTruncates(s: State, es: seq<Envelope>, l: Limits)
    requires Inv(s, l) && Bounded(s.diagnostics, l.maxDiagnostic) && !s.diagnostics.truncated
    ensures Run(s, es, l).diagnostics.truncated <==> SomeTotalExceeds(s, es, l)
  {
    RunEarnsFlag(s, es, l);
    if m :| Kept(m) && Reading(s.diagnostics, m) + Total(s, es, l, m) > l.maxDiagnostic {
      RunCounts(s, es, l, m);
    }
  }

  lemma {:induction false} RunEarnsFlag(s: State, es: seq<Envelope>, l: Limits)
    requires Inv(s, l) && Bounded(s.diagnostics, l.maxDiagnostic)
    ensures Run(s, es, l).diagnostics.truncated ==> s.diagnostics.truncated || SomeTotalExceeds(s, es, l)
    decreases es
  {
    if es != [] && Run(s, es, l).diagnostics.truncated {
      var t := Admit(s, Sealed, es[0], l).0;
      AdmitKeepsInv(s, Sealed, es[0], l);
      StaysBounded(s, es, l, t);
      RunEarnsFlag(t, es[1..], l);
      if t.diagnostics.truncated {
        FirstEarnsFlag(s, es, l, t);
      } else {
        var m :| Kept(m) && Reading(t.diagnostics, m) + Total(t, es[1..], l, m) > l.maxDiagnostic;
        var u, gain := FirstDelivery(s, es, l, m);
        assert Reading(s.diagnostics, m) + Total(s, es, l, m) > l.maxDiagnostic;
      }
    }
  }

  lemma StaysBounded(s: State, es: seq<Envelope>, l: Limits, t: State)
    requires Inv(s, l) && Bounded(s.diagnostics, l.maxDiagnostic) && es != [] && t == Admit(s, Sealed, es[0], l).0
    ensures Bounded(t.diagnostics, l.maxDiagnostic)
  {
    forall m | Kept(m) ensures Reading(t.diagnostics, m) <= l.maxDiagnostic {
      var u, gain := FirstDelivery(s, es, l, m);
    }
  }

  lemma FirstEarnsFlag(s: State, es: seq<Envelope>, l: Limits, t: State)
    requires Inv(s, l) && es != [] && t == Admit(s, Sealed, es[0], l).0 && t.diagnostics.truncated
    ensures s.diagnostics.truncated || SomeTotalExceeds(s, es, l)
  {
    var r := Admit(s, Sealed, es[0], l).1;
    if r.Ok? && !s.diagnostics.truncated {
      AcceptedIsDelivered(s, es[0], l, t, r.value);
      DeliveryEarnsFlag(s, es[0], l, t, r.value);
      var m :| Kept(m) && Reading(s.diagnostics, m) + Gain(s, es[0], r.value, m) > l.maxDiagnostic;
      assert Reading(s.diagnostics, m) + Total(s, es, l, m) > l.maxDiagnostic;
    }
  }
}
