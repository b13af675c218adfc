/**
 The comparison of a pristine and a faulted execution of one stream, and what
 its verdicts are worth.
 */
module Verdict {
  import opened Prelude
  import opened Cache
  import opened StreamSpec
  import opened Ledger
  import Truth
  import opened Confluence

  datatype ConvergenceVerdict = Converged | Diverged | Ineligible

  datatype Ineligibility = Ineligibility(pristineInexact: bool, faultedInexact: bool, frontierMismatch: bool)
  {
    predicate IsEmpty() { !pristineInexact && !faultedInexact && !frontierMismatch }
  }

  datatype StreamComparison = StreamComparison(verdict: ConvergenceVerdict, ineligibility: Ineligibility)

  predicate EligibleSummary(s: Summary) {
    && s.certainty == Exact
    && s.viewAuthoritative
    && s.reasons.IsEmpty()
    && s.pendingEnvelopes == 0
    && s.pendingBytes == 0
  }

  function CompareStreams(pristine: Summary, faulted: Summary): StreamComparison {
    var ineligibility := Ineligibility(
      !EligibleSummary(pristine), !EligibleSummary(faulted), pristine.frontier != faulted.frontier);
    var verdict :=
      if !ineligibility.IsEmpty() then Ineligible
      else if pristine.view == faulted.view then Converged
      else Diverged;
    StreamComparison(verdict, ineligibility)
  }

  /** The summary of a state that reached the end of its evidence without failing. */
  ghost function SummaryOf(s: State, l: Limits): Summary
    requires !s.failed
  {
    Finish(s, Sealed, s.session, l).value
  }

  // --------------------------------------------------------- eligibility

  /** The five eligibility tests stand or fall together with certainty. */
  lemma EligibleMeansExact(s: State, l: Limits)
    requires Inv(s, l) && !s.failed
    ensures EligibleSummary(SummaryOf(s, l)) <==> SummaryOf(s, l).certainty == Exact
    ensures SummaryOf(s, l).certainty == Exact <==> s.Certainty() == Exact
    ensures s.Certainty() == Exact ==> s.viewAuthoritative && s.unavailableFloor.None?
  {
    if s.Certainty() == Exact {
      assert s.pending == map[];
    }
  }

  /** What is reported of a state: each reason for doubt by itself, the view, and how much is left over. */
  lemma SummaryMeans(s: State, l: Limits)
    requires Inv(s, l) && !s.failed
    ensures var r := SummaryOf(s, l);
            && r.certainty == (if s.Certainty() == Exact then Exact else Unknown)
            && (r.reasons.baseline <==> s.baselineUnknown) && (r.reasons.equivocation <==> s.equivocationCeiling.Some?)
            && (r.reasons.unavailableGap <==> s.unavailableCeiling.Some?) && (r.reasons.unclosedGap <==> s.pending != map[])
            && r.frontier == s.frontier && r.view.scope == s.scope && r.view.keys == s.keys && r.view.identityBytes == Bytes(s.keys)
            && (r.pendingEnvelopes == 0 <==> s.pending == map[]) && r.pendingEnvelopes == |s.pending.Keys|
            && r.recentFingerprints == |s.recent.Keys| <= r.fingerprintWindow == l.maxRecent
  {
    assert |s.pending| == |s.pending.Keys| && |s.recent| == |s.recent.Keys|;
    if s.Certainty() == Exact {
      assert s.pending == map[];
    }
    if s.pending != map[] {
      var c :| c in s.pending;
      MapRemoveSize(s.pending, c);
    }
  }

  /**
   A comparison of two states is eligible exactly when both are exact at one
   frontier, says of each side whether it is not, and is then decided by the
   two memberships.
   */
  lemma ComparisonMeans(t: State, u: State, l: Limits)
    requires Inv(t, l) && Inv(u, l) && !t.failed && !u.failed && t.scope == u.scope
    ensures var c := CompareStreams(SummaryOf(t, l), SummaryOf(u, l));
            && (c.ineligibility.pristineInexact <==> t.Certainty() != Exact)
            && (c.ineligibility.faultedInexact <==> u.Certainty() != Exact)
            && (c.ineligibility.frontierMismatch <==> t.frontier != u.frontier)
            && (c.verdict == Converged <==> t.Certainty() == Exact && u.Certainty() == Exact && t.frontier == u.frontier && t.keys == u.keys)
            && (c.verdict == Diverged <==> t.Certainty() == Exact && u.Certainty() == Exact && t.frontier == u.frontier && t.keys != u.keys)
  {
    EligibleMeansExact(t, l);
    EligibleMeansExact(u, l);
  }

  // ----------------------------------------------------------- soundness

  /**
   The oracle never accuses wrongly: when every delivery on both sides agrees
   with one history, whatever each side lost, repeated, reordered or had to
   discard, the two views are never reported as diverged.
   */
  lemma AgreeingSidesNeverDiverge(
      s: State, h: Truth.History, es: seq<Envelope>, fs: seq<Envelope>, l: Limits)
    requires exists trusted :: s == Start(s.session, s.streamId, s.scope, s.initial, trusted)
    requires Truth.AllAgree(h, es) && Truth.AllAgree(h, fs)
    requires !Run(s, es, l).failed && !Run(s, fs, l).failed
    ensures CompareStreams(SummaryOf(Run(s, es, l), l), SummaryOf(Run(s, fs, l), l)).verdict != Diverged
  {
    var trusted :| s == Start(s.session, s.streamId, s.scope, s.initial, trusted);
    var t, u := Run(s, es, l), Run(s, fs, l);
    StartInv(s.session, s.streamId, s.scope, s.initial, trusted, l);
    RunKeepsInv(s, es, l);
    RunKeepsInv(s, fs, l);
    RunKeepsIdentity(s, es, l);
    RunKeepsIdentity(s, fs, l);
    Truth.AuthoritativeViewIsTrue(h, {}, s.session, s.streamId, s.scope, s.initial, trusted, es, l);
    Truth.AuthoritativeViewIsTrue(h, {}, s.session, s.streamId, s.scope, s.initial, trusted, fs, l);
  }

  // -------------------------------------------------------- completeness

  /** The membership history behind a history of payloads. */
  function Meaning(h: Ledgered): Truth.History {
    (c: nat) => Ops(h(c).mutations)
  }

  lemma FaithfulAgrees(h: Ledgered, s: State, es: seq<Envelope>)
    requires AllFaithful(h, s, es)
    ensures Truth.AllAgree(Meaning(h), es)
  {
    forall i | 0 <= i < |es| ensures Truth.Agrees(Meaning(h), es[i]) {
      assert Faithful(h, s, es[i]);
    }
  }

  /** A trusted stream that took faithful deliveries only, and none beyond its cache limits. */
  ghost predicate TrustedRun(s: State, h: Ledgered, es: seq<Envelope>, l: Limits) {
    && s == TrustedStart(s.session, s.streamId, s.scope, s.initial)
    && AllFaithful(h, s, es)
    && !Run(s, es, l).failed
  }

  /** Such a run that discarded nothing. */
  ghost predicate WholeRun(s: State, h: Ledgered, es: seq<Envelope>, l: Limits) {
    TrustedRun(s, h, es, l) && Run(s, es, l).unavailableFloor.None?
  }

  /** Both sides are settled at one and the same cursor, or neither received anything. */
  ghost predicate SettledTogether(h: Ledgered, initial: u64, d: set<u64>, e: set<u64>) {
    (d == {} && e == {}) || exists last: nat :: SettledAt(h, initial, d, last) && SettledAt(h, initial, e, last)
  }

  /**
   The verdict for a trusted stream, decided by the two sets of delivered
   cursors alone: converged exactly when both are settled at the same cursor,
   ineligible otherwise.
   */
  lemma VerdictBySet(s: State, h: Ledgered, es: seq<Envelope>, fs: seq<Envelope>, l: Limits)
    requires WholeRun(s, h, es, l) && WholeRun(s, h, fs, l)
    ensures var verdict := CompareStreams(SummaryOf(Run(s, es, l), l), SummaryOf(Run(s, fs, l), l)).verdict;
            && (verdict == Converged <==> SettledTogether(h, s.initial, Cursors(es), Cursors(fs)))
            && (verdict == Ineligible <==> !SettledTogether(h, s.initial, Cursors(es), Cursors(fs)))
  {
    var t, u := Run(s, es, l), Run(s, fs, l);
    TrustedStartSettles(s.session, s.streamId, s.scope, s.initial, h, l);
    RunKeepsInv(s, es, l);
    RunKeepsInv(s, fs, l);
    EligibleMeansExact(t, l);
    EligibleMeansExact(u, l);
    OutcomeBySet(s, h, es, l);
    OutcomeBySet(s, h, fs, l);
    FaithfulAgrees(h, s, es);
    FaithfulAgrees(h, s, fs);
    AgreeingSidesNeverDiverge(s, Meaning(h), es, fs, l);
    SettledTogetherMeans(h, s.initial, Cursors(es), Cursors(fs), t.frontier, u.frontier, t.Certainty() == Exact, u.Certainty() == Exact);
  }

  ghost predicate EndsAt(h: Ledgered, initial: u64, d: set<u64>, frontier: Option<u64>, exact: bool) {
    && (exact <==> Settled(h, initial, d))
    && (exact ==> if d == {} then frontier.None? else frontier.Some? && SettledAt(h, initial, d, frontier.value))
  }

  lemma SettledTogetherMeans(h: Ledgered, initial: u64, d: set<u64>, e: set<u64>, df: Option<u64>, ef: Option<u64>, dx: bool, ex: bool)
    requires EndsAt(h, initial, d, df, dx) && EndsAt(h, initial, e, ef, ex)
    ensures SettledTogether(h, initial, d, e) <==> dx && ex && df == ef
  {
    if SettledTogether(h, initial, d, e) {
      if !(d == {} && e == {}) {
        var last: nat :| SettledAt(h, initial, d, last) && SettledAt(h, initial, e, last);
        assert Has(d, last) && Has(e, last);
      }
    }
    if dx && ex && df == ef {
      if d != {} {
        assert SettledAt(h, initial, d, df.value) && SettledAt(h, initial, e, ef.value);
      }
    }
  }

  /** A settled set of cursors has one greatest cursor, and the run ends there. */
  lemma SettledOnce(h: Ledgered, initial: u64, d: set<u64>, last: nat, frontier: Option<u64>, exact: bool)
    requires EndsAt(h, initial, d, frontier, exact) && SettledAt(h, initial, d, last)
    ensures exact && frontier.Some? && frontier.value == last
  {
    assert Settled(h, initial, d) && Has(d, last);
    if frontier.Some? {
      assert Has(d, frontier.value);
    }
  }

  /** Both sides of a comparison are exact at one frontier with one view. */
  predicate ExactTogether(pristine: Summary, faulted: Summary) {
    && EligibleSummary(pristine) && EligibleSummary(faulted)
    && pristine.frontier == faulted.frontier
    && pristine.view == faulted.view
    && CompareStreams(pristine, faulted).verdict == Converged
  }

  predicate ConvergedAt(pristine: Summary, faulted: Summary, last: nat) {
    ExactTogether(pristine, faulted) && pristine.frontier.Some? && pristine.frontier.value == last
  }

  /** Trusted runs that are settled together are exact together, at the greatest cursor delivered. */
  lemma SettledRunsConverge(s: State, h: Ledgered, es: seq<Envelope>, fs: seq<Envelope>, l: Limits)
    requires WholeRun(s, h, es, l) && WholeRun(s, h, fs, l)
    requires SettledTogether(h, s.initial, Cursors(es), Cursors(fs))
    ensures var pristine, faulted := SummaryOf(Run(s, es, l), l), SummaryOf(Run(s, fs, l), l);
            && ExactTogether(pristine, faulted)
            && forall last: nat :: SettledAt(h, s.initial, Cursors(es), last) ==> ConvergedAt(pristine, faulted, last)
  {
    var t := Run(s, es, l);
    VerdictBySet(s, h, es, fs, l);
    TrustedStartSettles(s.session, s.streamId, s.scope, s.initial, h, l);
    OutcomeBySet(s, h, es, l);
    RunKeepsInv(s, es, l);
    EligibleMeansExact(t, l);
    forall last: nat | SettledAt(h, s.initial, Cursors(es), last) ensures t.frontier.Some? && t.frontier.value == last {
      SettledOnce(h, s.initial, Cursors(es), last, t.frontier, t.Certainty() == Exact);
    }
  }

  /** Reordering and repeating deliveries never changes the verdict of a settled trusted stream: it converges. */
  lemma SameCursorsConverge(s: State, h: Ledgered, es: seq<Envelope>, fs: seq<Envelope>, l: Limits)
    requires TrustedRun(s, h, es, l) && TrustedRun(s, h, fs, l)
    requires Cursors(es) == Cursors(fs) && Adequate(l, h, s.initial, Cursors(es))
    ensures var verdict := CompareStreams(SummaryOf(Run(s, es, l), l), SummaryOf(Run(s, fs, l), l)).verdict;
            verdict == if Settled(h, s.initial, Cursors(es)) then Converged else Ineligible
  {
    TrustedStartSettles(s.session, s.streamId, s.scope, s.initial, h, l);
    RunDiscardsNothing(s, h, {}, Cursors(es), es, l);
    RunDiscardsNothing(s, h, {}, Cursors(es), fs, l);
    VerdictBySet(s, h, es, fs, l);
    var d := Cursors(es);
    if Settled(h, s.initial, d) && d != {} {
      var last: nat :| SettledAt(h, s.initial, d, last);
      assert SettledTogether(h, s.initial, d, d);
    }
  }
}
