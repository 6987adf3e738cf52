// clif/epoch_auto.py: the daemon that signs the rewards of each closed epoch and then claims that epoch.
module EpochAuto {
  import opened Hex
  import opened Merkle
  import opened Fsp
  import opened AutoStates
  import opened EpochTraces
  import A = Ascending

  const MAX_CATCHUP := 8

  // --- Steps of a trace --------------------------------------------------------------------------------------

  // The cooldowns and the window are as they were.
  ghost predicate Kept(cfg: Config, trace: seq<Act>, later: seq<Act>) {
    Window(later) == Window(trace) && forall e :: Until(cfg, later, e) == Until(cfg, trace, e)
  }

  ghost predicate SameRecord(cfg: Config, trace: seq<Act>, later: seq<Act>) {
    Kept(cfg, trace, later) && forall e :: Retries(later, e) == Retries(trace, e)
  }

  lemma KeptStep(cfg: Config, trace: seq<Act>, a: Act)
    requires !a.Terminal? && !a.Released? && !a.Cycle?
    ensures Kept(cfg, trace, trace + [a])
  {
    hide Until, Window;
    WindowStep(trace, a);
    forall x
      ensures Until(cfg, trace + [a], x) == Until(cfg, trace, x)
    {
      UntilStep(cfg, trace, a, x);
    }
  }

  lemma RecordStep(cfg: Config, trace: seq<Act>, a: Act)
    requires !a.Terminal? && !a.Released? && !a.Cycle? && !a.Retryable?
    ensures SameRecord(cfg, trace, trace + [a])
  {
    hide Until, Window, Retries, Kept;
    KeptStep(cfg, trace, a);
    forall x
      ensures Retries(trace + [a], x) == Retries(trace, x)
    {
      RetriesStep(trace, a, x);
    }
  }

  lemma QuietStep(cfg: Config, trace: seq<Act>, a: Act)
    requires Safe(cfg, trace) && !Pending(trace) && Allowed(cfg, trace, a)
    requires !a.Retryable? && !a.Terminal? && !a.Released? && !a.Cycle?
    ensures Safe(cfg, trace + [a]) && !Pending(trace + [a]) && SameRecord(cfg, trace, trace + [a])
  {
    SafeStep(cfg, trace, a);
    RecordStep(cfg, trace, a);
  }

  lemma JustStep(trace: seq<Act>, a: Act, e: int)
    ensures JustUnsigned(trace + [a], e) <==>
              if a.Looked? then a.epoch == e && Unsigned(a) else !a.Drive? && JustUnsigned(trace, e)
  {
    assert (trace + [a])[..|trace|] == trace;
  }

  // An act of signing an epoch, asked for in the right circumstances.
  ghost predicate SigningAct(cfg: Config, trace: seq<Act>, e: int, a: Act) {
    && a.epoch == e && (a.LegOne? || a.LegTwo? || a.HashRead? || a.Broadcast? || a.FinalizedRevert?)
    && (a.LegOne? ==> Trustworthy(cfg.K, a.data, e) && a.token == SignRetryToken(cfg.base, Retries(trace, e)))
  }

  lemma SigningStep(cfg: Config, trace: seq<Act>, e: int, a: Act)
    requires Safe(cfg, trace) && !Pending(trace) && SigningAct(cfg, trace, e, a) && JustUnsigned(trace, e)
    ensures Safe(cfg, trace + [a]) && !Pending(trace + [a]) && SameRecord(cfg, trace, trace + [a])
    ensures JustUnsigned(trace + [a], e)
  {
    QuietStep(cfg, trace, a);
    JustStep(trace, a, e);
  }

  lemma {:induction false} SigningKeepsSafe(cfg: Config, trace: seq<Act>, e: int, acts: seq<Act>)
    requires Safe(cfg, trace) && !Pending(trace) && JustUnsigned(trace, e)
    requires forall a :: a in acts ==> SigningAct(cfg, trace, e, a)
    ensures Safe(cfg, trace + acts) && !Pending(trace + acts) && SameRecord(cfg, trace, trace + acts)
    ensures JustUnsigned(trace + acts, e)
  {
    if acts == [] {
      assert trace + acts == trace;
    } else {
      var init, last := acts[..|acts| - 1], acts[|acts| - 1];
      SigningKeepsSafe(cfg, trace, e, init);
      assert trace + acts == trace + init + [last];
      hide Safe, Pending, Allowed, Trustworthy, JustUnsigned, Until, Window;
      assert SigningAct(cfg, trace, e, last);
      SigningStep(cfg, trace + init, e, last);
    }
  }

  // --- Driving one epoch -------------------------------------------------------------------------------------

  datatype Phase = RewardWait | RewardSign | ClaimWait | Claiming | Finished

  datatype Obs = Obs(epoch: int, phase: Phase, done: bool, terminal: bool, waitUntil: Option<int>)

  // What the outside answers while one epoch is driven.  events: what our_signed_fn would answer, if there is one.
  datatype DriveWire = DriveWire(
    uptime: Outcome<()>, rewardsHash: Answer<bool>, signInfo: Answer<bool>, events: Option<bool>,
    endTs: int, published: bool, sign: SignWire, claims: nat -> Outcome<Status>)

  function Look(epoch: int, w: DriveWire): Act {
    Looked(epoch, w.rewardsHash, w.signInfo, w.events)
  }

  function Seen(w: DriveWire): Outcome<Sight> {
    Sighting(w.rewardsHash, w.signInfo, w.events)
  }

  function LookActs(epoch: int, w: DriveWire): seq<Act> {
    (if w.rewardsHash.Got? then [HashRead(epoch, w.rewardsHash.value)] else []) + [Look(epoch, w)]
  }

  lemma LookKeepsSafe(cfg: Config, trace: seq<Act>, epoch: int, w: DriveWire)
    requires Safe(cfg, trace) && !Pending(trace)
    ensures var later := trace + LookActs(epoch, w);
            && Safe(cfg, later) && !Pending(later) && SameRecord(cfg, trace, later)
            && (JustUnsigned(later, epoch) <==> Seen(w) == Done(Sight(false, false)))
    ensures Seen(w).Done? && Seen(w).value.finalized ==> HashRead(epoch, true) in LookActs(epoch, w)
  {
    hide Safe, Pending, NotSignedYet, JustUnsigned, Until, Window, Retries;
    var t := trace;
    if w.rewardsHash.Got? {
      QuietStep(cfg, t, HashRead(epoch, w.rewardsHash.value));
      t := t + [HashRead(epoch, w.rewardsHash.value)];
    }
    QuietStep(cfg, t, Look(epoch, w));
    JustStep(t, Look(epoch, w), epoch);
    assert trace + LookActs(epoch, w) == t + [Look(epoch, w)];
  }

  const CLAIM_DONE := {SubmittedMined, MinedNoop, NothingClaimable}

  // The claim for the k-th pair of claim type and beneficiary.
  function ClaimOf(cfg: Config, epoch: int, k: nat, status: Status): Act
    requires k < |cfg.claimers|
  {
    Claimed(epoch, cfg.claimers[k].0, cfg.claimers[k].1, status)
  }

  // The first n claimers are claimed for, and nothing else happens.
  ghost predicate ClaimActs(cfg: Config, epoch: int, w: DriveWire, n: nat, acts: seq<Act>) {
    && n <= |cfg.claimers| && |acts| == n
    && forall k :: 0 <= k < n ==> w.claims(k).Done? && acts[k] == ClaimOf(cfg, epoch, k, w.claims(k).value)
  }

  // The k-th claim is for the k-th claim type and beneficiary, and came back as it was answered.
  lemma ClaimActsExactly(cfg: Config, epoch: int, w: DriveWire, acts: seq<Act>, k: nat)
    requires ClaimActs(cfg, epoch, w, |acts|, acts) && k < |acts|
    ensures k < |cfg.claimers| && w.claims(k).Done?
    ensures acts[k] == Claimed(epoch, cfg.claimers[k].0, cfg.claimers[k].1, w.claims(k).value)
  {}

  // Every claim is run, or one raises; done exactly when each came back with nothing left to do, terminal exactly when
  // one came back terminal.
  ghost predicate ClaimsEnd(cfg: Config, epoch: int, w: DriveWire, acts: seq<Act>, r: Outcome<Obs>) {
    && ClaimActs(cfg, epoch, w, |acts|, acts)
    && if r.Raised? then |acts| < |cfg.claimers| && w.claims(|acts|).Raised?
       else
         var done := forall k :: 0 <= k < |acts| ==> acts[k].status in CLAIM_DONE;
         && |acts| == |cfg.claimers|
         && r.value == Obs(epoch, if done then Finished else Claiming, done,
                           exists k :: 0 <= k < |acts| && acts[k].status == FailedTerminal, None)
  }

  // The claim phase: one claim per claimer, in order, until a claim raises.
  method ClaimAll(cfg: Config, epoch: int, w: DriveWire) returns (r: Outcome<Obs>, acts: seq<Act>)
    ensures ClaimsEnd(cfg, epoch, w, acts, r)
  {
    var allDone, anyTerminal := true, false;
    acts := [];
    for k := 0 to |cfg.claimers|
      invariant ClaimActs(cfg, epoch, w, k, acts)
      invariant allDone <==> forall i :: 0 <= i < k ==> acts[i].status in CLAIM_DONE
      invariant anyTerminal <==> exists i :: 0 <= i < k && acts[i].status == FailedTerminal
    {
      var co := w.claims(k);
      if co.Raised? { return Raised, acts; }
      ghost var before := acts;
      acts := acts + [ClaimOf(cfg, epoch, k, co.value)];
      assert forall i :: 0 <= i < k ==> acts[i] == before[i];
      if co.value !in CLAIM_DONE {
        allDone := false;
        if co.value == FailedTerminal { anyTerminal := true; }
      }
    }
    r := Done(if allDone then Obs(epoch, Finished, true, false, None)
              else Obs(epoch, Claiming, false, anyTerminal, None));
  }

  lemma {:induction false} ClaimingKeepsSafe(cfg: Config, trace: seq<Act>, e: int, acts: seq<Act>)
    requires Safe(cfg, trace) && !Pending(trace) && (HashRead(e, true) in trace || FinalizedRevert(e) in trace)
    requires forall a :: a in acts ==> a.Claimed? && a.epoch == e
    ensures Safe(cfg, trace + acts) && !Pending(trace + acts) && SameRecord(cfg, trace, trace + acts)
  {
    if acts == [] {
      assert trace + acts == trace;
    } else {
      var init, last := acts[..|acts| - 1], acts[|acts| - 1];
      ClaimingKeepsSafe(cfg, trace, e, init);
      assert trace + acts == trace + init + [last];
      hide Safe, Pending, Until, Window;
      QuietStep(cfg, trace + init, last);
    }
  }

  ghost predicate Counted(counts: map<int, nat>, trace: seq<Act>) {
    forall e :: Retries(trace, e) == if e in counts then counts[e] else 0
  }

  lemma CountIs(counts: map<int, nat>, trace: seq<Act>, e: int)
    requires Counted(counts, trace)
    ensures Retries(trace, e) == if e in counts then counts[e] else 0
  {}

  lemma CountedStill(cfg: Config, counts: map<int, nat>, trace: seq<Act>, later: seq<Act>)
    requires Counted(counts, trace) && SameRecord(cfg, trace, later)
    ensures Counted(counts, later) && Kept(cfg, trace, later) && forall e :: Retries(later, e) == Retries(trace, e)
  {}

  lemma KeptOn(cfg: Config, trace: seq<Act>, later: seq<Act>, last: seq<Act>)
    requires Kept(cfg, trace, later) && Kept(cfg, later, last)
    ensures Kept(cfg, trace, last)
  {}

  lemma KeptAnyway(cfg: Config, trace: seq<Act>)
    ensures Kept(cfg, trace, trace)
  {}

  lemma RetryStep(cfg: Config, trace: seq<Act>, counts: map<int, nat>, e: int)
    requires Safe(cfg, trace) && !Pending(trace) && Counted(counts, trace)
    ensures var count := if e in counts then counts[e] else 0;
            var later := trace + [Retryable(e)];
            && Safe(cfg, later) && Counted(counts[e := count + 1], later) && Kept(cfg, trace, later)
            && (Pending(later) <==> count + 1 >= MAX_REWARD_SIGN_RETRIES)
            && forall x :: x != e ==> Retries(later, x) == Retries(trace, x)
  {
    hide Kept, Until, Window;
    SafeStep(cfg, trace, Retryable(e));
    KeptStep(cfg, trace, Retryable(e));
    forall x
      ensures Retries(trace + [Retryable(e)], x) == Retries(trace, x) + if x == e then 1 else 0
    {
      RetriesStep(trace, Retryable(e), x);
    }
  }

  // The acts of driving an epoch: it is taken up once, and nobody escalates within it.
  ghost predicate DriveActs(epoch: int, now: int, acts: seq<Act>) {
    && acts != [] && acts[0] == Drive(epoch, now)
    && forall i :: 0 <= i < |acts| ==> acts[i].epoch == epoch && !acts[i].Terminal? && (i > 0 ==> !acts[i].Drive?)
  }

  ghost predicate EndsWith(acts: seq<Act>, tail: seq<Act>) {
    |tail| <= |acts| && acts[|acts| - |tail|..] == tail
  }

  ghost predicate Settled(cfg: Config, epoch: int, k: nat, acts: seq<Act>)
    requires k < |cfg.claimers|
  {
    exists s :: s in CLAIM_DONE && ClaimOf(cfg, epoch, k, s) in acts
  }

  // Every claimer's claim came back with nothing left to do.
  ghost predicate ClaimedFor(cfg: Config, epoch: int, acts: seq<Act>) {
    forall k :: 0 <= k < |cfg.claimers| ==> Settled(cfg, epoch, k, acts)
  }

  lemma AllClaimed(cfg: Config, epoch: int, w: DriveWire, acts: seq<Act>, claims: seq<Act>)
    requires ClaimActs(cfg, epoch, w, |cfg.claimers|, claims) && EndsWith(acts, claims)
    requires forall k :: 0 <= k < |claims| ==> claims[k].status in CLAIM_DONE
    ensures ClaimedFor(cfg, epoch, acts)
  {
    forall k | 0 <= k < |cfg.claimers|
      ensures Settled(cfg, epoch, k, acts)
    {
      assert acts[|acts| - |claims|..][k] == ClaimOf(cfg, epoch, k, claims[k].status);
    }
  }

  // A rewards signature was asked for.
  ghost predicate AskedIn(acts: seq<Act>, epoch: int) {
    exists a :: a in acts && a.LegOne? && a.epoch == epoch
  }

  // A claim was run.
  ghost predicate ClaimedIn(acts: seq<Act>, epoch: int) {
    exists a :: a in acts && a.Claimed? && a.epoch == epoch
  }

  // There is a claimer, and its claim does not raise.
  predicate FirstClaimRuns(cfg: Config, w: DriveWire) {
    cfg.claimers != [] && w.claims(0).Done?
  }

  // Rewards are signed in this cycle: the epoch is open, unsigned by us, old enough and published.
  predicate DueForSigning(cfg: Config, w: DriveWire, now: int) {
    && !(cfg.uptime && w.uptime.Raised?) && Seen(w) == Done(Sight(false, false))
    && now >= w.endTs + cfg.delay && w.published
  }

  // Claiming begins: the epoch was seen to be final, or the signing run showed it.
  predicate Begins(cfg: Config, w: DriveWire, epoch: int, now: int) {
    || (!(cfg.uptime && w.uptime.Raised?) && Seen(w).Done? && Seen(w).value.finalized)
    || (DueForSigning(cfg, w, now) && SignFinal(cfg.K, epoch, w.sign))
  }

  predicate SomeClaimRaises(cfg: Config, w: DriveWire) {
    exists k :: 0 <= k < |cfg.claimers| && w.claims(k).Raised?
  }

  // The first three of what can stop a drive.
  predicate StopsEarly(cfg: Config, w: DriveWire, epoch: int, now: int) {
    || (cfg.uptime && w.uptime.Raised?)
    || Seen(w).Raised?
    || (DueForSigning(cfg, w, now) && SignRaises(cfg.K, epoch, w.sign))
  }

  // An exception leaves the drive, and with it the cycle: the uptime leg, a read refused for any other reason than that
  // nobody has signed yet, the signing run, or a claim.
  predicate Stops(cfg: Config, w: DriveWire, epoch: int, now: int) {
    || StopsEarly(cfg, w, epoch, now)
    || (Begins(cfg, w, epoch, now) && SomeClaimRaises(cfg, w))
  }

  // Every claim comes back with nothing left to do.
  predicate Completes(cfg: Config, w: DriveWire, epoch: int, now: int) {
    && Begins(cfg, w, epoch, now)
    && forall k :: 0 <= k < |cfg.claimers| ==> w.claims(k).Done? && w.claims(k).value in CLAIM_DONE
  }

  // An operator is needed: a terminal signing run, the third retryable one, or a terminal claim.  count: the retryable
  // failures before.
  predicate Escalates(cfg: Config, w: DriveWire, epoch: int, now: int, count: nat) {
    || EscalatesEarly(cfg, w, epoch, now, count)
    || (Begins(cfg, w, epoch, now) && !SomeClaimRaises(cfg, w) &&
        exists k :: 0 <= k < |cfg.claimers| && w.claims(k) == Done(FailedTerminal))
  }

  // We see our own vote on an epoch that is not final yet.
  predicate SeesOurVote(cfg: Config, w: DriveWire) {
    !(cfg.uptime && w.uptime.Raised?) && Seen(w) == Done(Sight(false, true))
  }

  // The first two, before any claim.
  predicate EscalatesEarly(cfg: Config, w: DriveWire, epoch: int, now: int, count: nat) {
    && DueForSigning(cfg, w, now)
    && (SignTerminal(cfg.K, epoch, w.sign) ||
        (SignRetryable(cfg.K, epoch, w.sign) && count + 1 >= MAX_REWARD_SIGN_RETRIES))
  }

  // What a drive that does not stop reports.
  function ObsOf(cfg: Config, w: DriveWire, epoch: int, now: int, count: nat): Obs {
    var phase :=
      if Completes(cfg, w, epoch, now) then Finished
      else if Begins(cfg, w, epoch, now) then Claiming
      else if SeesOurVote(cfg, w) then ClaimWait
      else if DueForSigning(cfg, w, now) then RewardSign else RewardWait;
    Obs(epoch, phase, Completes(cfg, w, epoch, now), Escalates(cfg, w, epoch, now, count),
        if phase == RewardWait && now < w.endTs + cfg.delay then Some(w.endTs + cfg.delay) else None)
  }

  // Raised exactly when something stops the drive, and otherwise what it comes to.
  ghost predicate Outcomes(cfg: Config, w: DriveWire, epoch: int, now: int, count: nat, r: Outcome<Obs>) {
    && (r.Raised? <==> Stops(cfg, w, epoch, now))
    && (r.Done? ==> r.value == ObsOf(cfg, w, epoch, now, count))
    && (Escalates(cfg, w, epoch, now, count) ==> r.Done?)
    && (Completes(cfg, w, epoch, now) ==> r.Done?)
    && !(Completes(cfg, w, epoch, now) && Escalates(cfg, w, epoch, now, count))
  }

  lemma OnlyClaims(cfg: Config, epoch: int, w: DriveWire, acts: seq<Act>, r: Outcome<Obs>)
    requires ClaimsEnd(cfg, epoch, w, acts, r)
    ensures ClaimActs(cfg, epoch, w, |acts|, acts) && forall a :: a in acts ==> a.Claimed? && a.epoch == epoch
  {}

  lemma SomeClaimRuns(cfg: Config, epoch: int, w: DriveWire, acts: seq<Act>, r: Outcome<Obs>)
    requires ClaimsEnd(cfg, epoch, w, acts, r)
    ensures acts != [] <==> FirstClaimRuns(cfg, w)
  {}

  // What the look alone decides.
  lemma EarlyOutcomes(cfg: Config, w: DriveWire, epoch: int, now: int, count: nat)
    ensures (cfg.uptime && w.uptime.Raised?) || Seen(w).Raised? ==> Outcomes(cfg, w, epoch, now, count, Raised)
    ensures SeesOurVote(cfg, w) ==> Outcomes(cfg, w, epoch, now, count, Done(Obs(epoch, ClaimWait, false, false, None)))
  {
    hide Seen, SignRaises, SignFinal, SignTerminal, SignRetryable, SomeClaimRaises;
  }

  // What the signing run decides.
  lemma SigningOutcome(cfg: Config, w: DriveWire, epoch: int, now: int, count: nat, r: Outcome<Obs>)
    requires !(cfg.uptime && w.uptime.Raised?) && Seen(w) == Done(Sight(false, false))
    requires var due := now >= w.endTs + cfg.delay && w.published;
             && !(due && SignFinal(cfg.K, epoch, w.sign)) && (r.Raised? <==> due && SignRaises(cfg.K, epoch, w.sign))
             && (due && (SignTerminal(cfg.K, epoch, w.sign) || SignRetryable(cfg.K, epoch, w.sign)) ==> r.Done?)
             && (r.Done? ==>
                   r.value == Obs(epoch, if due then RewardSign else RewardWait, false,
                                  EscalatesEarly(cfg, w, epoch, now, count),
                                  if now < w.endTs + cfg.delay then Some(w.endTs + cfg.delay) else None))
    ensures Outcomes(cfg, w, epoch, now, count, r)
  {
    hide Seen, SignRaises, SignFinal, SignTerminal, SignRetryable, SomeClaimRaises;
  }

  lemma ClaimsDecide(cfg: Config, epoch: int, now: int, w: DriveWire, count: nat, acts: seq<Act>, r: Outcome<Obs>)
    requires Begins(cfg, w, epoch, now) && !EscalatesEarly(cfg, w, epoch, now, count)
    requires ClaimsEnd(cfg, epoch, w, acts, r)
    requires !StopsEarly(cfg, w, epoch, now)
    ensures Outcomes(cfg, w, epoch, now, count, r)
  {
    hide Begins, EscalatesEarly, StopsEarly;
    if r.Done? {
      forall k | 0 <= k < |cfg.claimers|
        ensures w.claims(k) == Done(acts[k].status)
      {}
    }
  }

  class Daemon {
    const cfg: Config
    const state: AutoState
    var retryCounts: map<int, nat>
    var lastDone: Option<int>
    ghost var trace: seq<Act>

    // A daemon starts with nothing but the persisted watermark.
    constructor (cfg: Config, lastDone: Option<int>)
      ensures this.cfg == cfg && this.lastDone == lastDone && retryCounts == map[] && trace == []
      ensures fresh(state) && state.streams == map[] && Valid()
    {
      this.cfg, this.lastDone := cfg, lastDone;
      retryCounts, trace := map[], [];
      state := new AutoState();
    }

    // At rest and in the middle of a cycle.
    ghost predicate Sound()
      reads this
    {
      Safe(cfg, trace) && Counted(retryCounts, trace)
    }

    // Between cycles.
    ghost predicate Valid()
      reads this, state
    {
      Sound() && !Pending(trace) && Watched(cfg, trace, state.At(cfg.key)) && Ahead(trace, lastDone)
    }

    // One signing attempt under the token of the current count; a retryable failure raises the count.
    method Attempt(epoch: int, w: SignWire) returns (ro: Outcome<Status>, stuck: bool, ghost acts: seq<Act>)
      requires Sound() && !Pending(trace) && JustUnsigned(trace, epoch)
      modifies this`trace, this`retryCounts
      ensures Sound() && trace == old(trace) + acts && Kept(cfg, old(trace), trace)
      ensures forall a :: a in acts ==> a.epoch == epoch && !a.Terminal? && !a.Drive? && !a.Claimed?
      ensures (exists a :: a in acts && a.LegOne?) <==> PastGuards(cfg.K, epoch, w)
      ensures ro.Raised? <==> SignRaises(cfg.K, epoch, w)
      ensures ro == Done(AlreadyFinalized) <==> SignFinal(cfg.K, epoch, w)
      ensures ro == Done(FailedTerminal) <==> SignTerminal(cfg.K, epoch, w)
      ensures ro == Done(FailedRetryable) <==> SignRetryable(cfg.K, epoch, w)
      ensures Retryable(epoch) in acts <==> ro == Done(FailedRetryable)
      ensures stuck <==> Pending(trace)
      ensures stuck <==> SignRetryable(cfg.K, epoch, w) && Retries(old(trace), epoch) >= 2
      ensures stuck ==> acts != []
      ensures forall e :: e != epoch ==> Retries(trace, e) == Retries(old(trace), e)
      ensures ro == Done(AlreadyFinalized) ==> HashRead(epoch, true) in acts || FinalizedRevert(epoch) in acts
    {
      hide Safe, Trustworthy, Pending, Counted, SameRecord, Kept, SignRetryToken, Retries, JustUnsigned, PastGuards,
        SignRaises, SignFinal, SignRetryable, SignTerminal, Submits;
      var count := if epoch in retryCounts then retryCounts[epoch] else 0;
      CountIs(retryCounts, trace, epoch);
      ro, acts := RunSignRewards(cfg.K, epoch, SignRetryToken(cfg.base, count), w);
      SigningKeepsSafe(cfg, trace, epoch, acts);
      CountedStill(cfg, retryCounts, trace, trace + acts);
      trace, stuck := trace + acts, false;
      if ro == Done(FailedRetryable) {
        RetryStep(cfg, trace, retryCounts, epoch);
        KeptOn(cfg, old(trace), trace, trace + [Retryable(epoch)]);
        acts, trace := acts + [Retryable(epoch)], trace + [Retryable(epoch)];
        retryCounts := retryCounts[epoch := count + 1];
        stuck := count + 1 >= MAX_REWARD_SIGN_RETRIES;
      }
    }

    // The reward phase of an epoch that is open and that we have not signed; None goes on to the claims.
    method SignPhase(epoch: int, now: int, w: DriveWire) returns (r: Option<Outcome<Obs>>, ghost acts: seq<Act>)
      requires Sound() && !Pending(trace) && JustUnsigned(trace, epoch)
      modifies this`trace, this`retryCounts
      ensures Sound() && trace == old(trace) + acts && Kept(cfg, old(trace), trace)
      ensures forall e :: e != epoch ==> Retries(trace, e) == Retries(old(trace), e)
      ensures forall a :: a in acts ==> a.epoch == epoch && !a.Terminal? && !a.Drive? && !a.Claimed?
      ensures Pending(trace) ==> acts != [] && r.Some? && r.value.Done? && r.value.value.terminal
      ensures var due := now >= w.endTs + cfg.delay && w.published;
              && ((exists a :: a in acts && a.LegOne?) <==> due && PastGuards(cfg.K, epoch, w.sign))
              && (Retryable(epoch) in acts <==> due && SignRetryable(cfg.K, epoch, w.sign))
              && (r.None? <==> due && SignFinal(cfg.K, epoch, w.sign))
              && (r == Some(Raised) <==> due && SignRaises(cfg.K, epoch, w.sign))
              && (r.Some? && r.value.Done? ==>
                    r.value.value ==
                    Obs(epoch, if due then RewardSign else RewardWait, false,
                        due && (SignTerminal(cfg.K, epoch, w.sign) ||
                                (SignRetryable(cfg.K, epoch, w.sign) &&
                                 Retries(old(trace), epoch) + 1 >= MAX_REWARD_SIGN_RETRIES)),
                        if now < w.endTs + cfg.delay then Some(w.endTs + cfg.delay) else None))
              && (due && (SignTerminal(cfg.K, epoch, w.sign) || SignRetryable(cfg.K, epoch, w.sign)) ==>
                    r.Some? && r.value.Done?)
      ensures r.None? ==> !Pending(trace) && (HashRead(epoch, true) in acts || FinalizedRevert(epoch) in acts)
    {
      hide Safe, Pending, Counted, PastGuards, Kept, JustUnsigned, Retries, SignRaises, SignFinal, SignTerminal,
        SignRetryable;
      acts := [];
      assert Kept(cfg, trace, trace) by { KeptAnyway(cfg, trace); }
      if now < w.endTs + cfg.delay {
        return Some(Done(Obs(epoch, RewardWait, false, false, Some(w.endTs + cfg.delay)))), acts;
      }
      if !w.published { return Some(Done(Obs(epoch, RewardWait, false, false, None))), acts; }
      var ro, stuck;
      ro, stuck, acts := Attempt(epoch, w.sign);
      if ro.Raised? { return Some(Raised), acts; }
      if ro.value == AlreadyFinalized { return None, acts; }
      var terminal := ro.value == FailedTerminal || (ro.value == FailedRetryable && stuck);
      return Some(Done(Obs(epoch, RewardSign, false, terminal, None))), acts;
    }

    // Taking an epoch up: the uptime leg, then whether it is final and whether we have signed.
    method Open(epoch: int, now: int, w: DriveWire) returns (sight: Outcome<Sight>, ghost acts: seq<Act>)
      requires Sound() && !Pending(trace) && InWindow(trace, epoch) && Until(cfg, trace, epoch) <= now
      modifies this`trace
      ensures Sound() && !Pending(trace) && Kept(cfg, old(trace), trace)
      ensures forall e :: Retries(trace, e) == Retries(old(trace), e)
      ensures trace == old(trace) + acts && acts != [] && acts[0] == Drive(epoch, now)
      ensures forall i :: 0 < i < |acts| ==> acts[i].epoch == epoch && (acts[i].HashRead? || acts[i].Looked?)
      ensures Look(epoch, w) in acts <==> !(cfg.uptime && w.uptime.Raised?)
      ensures sight == if cfg.uptime && w.uptime.Raised? then Raised else Seen(w)
      ensures sight == Done(Sight(false, false)) ==> JustUnsigned(trace, epoch)
      ensures sight.Done? && sight.value.finalized ==> HashRead(epoch, true) in trace
    {
      hide Safe, Pending, Counted, Seen, Kept, JustUnsigned, Until, Window, Retries;
      acts := [Drive(epoch, now)];
      TakenUp(cfg, trace, retryCounts, epoch, now);
      trace := trace + acts;
      if cfg.uptime && w.uptime.Raised? { return Raised, acts; }
      LookKeepsSafe(cfg, trace, epoch, w);
      ghost var look := LookActs(epoch, w);
      CountedStill(cfg, retryCounts, trace, trace + look);
      KeptOn(cfg, old(trace), trace, trace + look);
      assert (acts + look)[|acts + look| - 1] == Look(epoch, w);
      acts, trace := acts + look, trace + look;
      sight := Seen(w);
    }

    // Everything before the claims; None goes on to them.
    method UpToClaims(epoch: int, now: int, w: DriveWire) returns (r: Option<Outcome<Obs>>, ghost acts: seq<Act>)
      requires Sound() && !Pending(trace) && InWindow(trace, epoch) && Until(cfg, trace, epoch) <= now
      modifies this`trace, this`retryCounts
      ensures Sound() && Kept(cfg, old(trace), trace) && trace == old(trace) + acts && DriveActs(epoch, now, acts)
      ensures forall e :: e != epoch ==> Retries(trace, e) == Retries(old(trace), e)
      ensures forall a :: a in acts ==> !a.Claimed?
      ensures Pending(trace) ==> r.Some? && r.value.Done? && r.value.value.terminal && trace[|trace| - 1].epoch == epoch
      ensures !(cfg.uptime && w.uptime.Raised?) ==> Look(epoch, w) in acts
      ensures (exists a :: a in acts && a.LegOne?) <==> DueForSigning(cfg, w, now) && PastGuards(cfg.K, epoch, w.sign)
      ensures Retryable(epoch) in acts <==> DueForSigning(cfg, w, now) && SignRetryable(cfg.K, epoch, w.sign)
      ensures r.None? <==> Begins(cfg, w, epoch, now)
      ensures r.None? ==> HashRead(epoch, true) in trace || FinalizedRevert(epoch) in trace
      ensures r.Some? ==> Outcomes(cfg, w, epoch, now, Retries(old(trace), epoch), r.value)
      ensures r.None? ==> !StopsEarly(cfg, w, epoch, now)
      ensures r.None? ==> !EscalatesEarly(cfg, w, epoch, now, Retries(old(trace), epoch))
    {
      hide Safe, Pending, Counted, PastGuards, Seen, Kept, JustUnsigned, Until, Window, Retries, SignRaises, SignFinal,
        SignTerminal, SignRetryable, Outcomes;
      ghost var count := Retries(trace, epoch);
      EarlyOutcomes(cfg, w, epoch, now, count);
      var sight;
      sight, acts := Open(epoch, now, w);
      if sight.Raised? { return Some(Raised), acts; }
      if sight.value.finalized { return None, acts; }
      if sight.value.signed { return Some(Done(Obs(epoch, ClaimWait, false, false, None))), acts; }
      ghost var legs, middle := [], trace;
      r, legs := SignPhase(epoch, now, w);
      if r.Some? { SigningOutcome(cfg, w, epoch, now, count, r.value); }
      KeptOn(cfg, old(trace), middle, trace);
      acts := acts + legs;
    }

    // The claim phase of an epoch whose finality was shown.
    method ClaimPhase(epoch: int, w: DriveWire) returns (r: Outcome<Obs>, ghost acts: seq<Act>)
      requires Sound() && !Pending(trace) && (HashRead(epoch, true) in trace || FinalizedRevert(epoch) in trace)
      modifies this`trace
      ensures Sound() && !Pending(trace) && Kept(cfg, old(trace), trace)
      ensures forall e :: Retries(trace, e) == Retries(old(trace), e)
      ensures trace == old(trace) + acts && ClaimActs(cfg, epoch, w, |acts|, acts)
      ensures forall a :: a in acts ==> a.Claimed? && a.epoch == epoch
      ensures ClaimsEnd(cfg, epoch, w, acts, r)
    {
      hide Safe, Pending, Counted, SameRecord, Kept, ClaimsEnd, Retries;
      r, acts := ClaimAll(cfg, epoch, w);
      OnlyClaims(cfg, epoch, w, acts, r);
      ClaimingKeepsSafe(cfg, trace, epoch, acts);
      CountedStill(cfg, retryCounts, trace, trace + acts);
      trace := trace + acts;
    }

    // drive_epoch.  claims: the claims, once they began.
    method DriveEpoch(epoch: int, now: int, w: DriveWire)
      returns (r: Outcome<Obs>, ghost acts: seq<Act>, ghost claims: Option<seq<Act>>)
      requires Sound() && !Pending(trace) && InWindow(trace, epoch) && Until(cfg, trace, epoch) <= now
      modifies this`trace, this`retryCounts
      ensures Sound() && Kept(cfg, old(trace), trace) && trace == old(trace) + acts && DriveActs(epoch, now, acts)
      ensures forall e :: e != epoch ==> Retries(trace, e) == Retries(old(trace), e)
      ensures Pending(trace) ==> r.Done? && r.value.terminal && trace[|trace| - 1].epoch == epoch
      // It raises, escalates and completes in exactly the stated circumstances, and reports what they come to.
      ensures Outcomes(cfg, w, epoch, now, Retries(old(trace), epoch), r)
      // A signature is asked for in exactly these, whatever was seen or asked for before, and only a retryable failure
      // counts as one.
      ensures (exists a :: a in acts && a.LegOne?) <==> DueForSigning(cfg, w, now) && PastGuards(cfg.K, epoch, w.sign)
      ensures Retryable(epoch) in acts <==> DueForSigning(cfg, w, now) && SignRetryable(cfg.K, epoch, w.sign)
      ensures !(cfg.uptime && w.uptime.Raised?) ==> Look(epoch, w) in acts
      ensures claims.Some? <==> Begins(cfg, w, epoch, now)
      ensures claims.Some? ==> ClaimsEnd(cfg, epoch, w, claims.value, r) && EndsWith(acts, claims.value)
      ensures (exists a :: a in acts && a.Claimed?) <==> claims.Some? && claims.value != []
    {
      hide Safe, Pending, Counted, PastGuards, Seen, DueForSigning, ClaimActs, Kept, Until, Window, Retries, Outcomes,
        SignRetryable, Begins, StopsEarly, EscalatesEarly, ClaimsEnd;
      claims := None;
      var stop;
      stop, acts := UpToClaims(epoch, now, w);
      if stop.Some? { return stop.value, acts, claims; }
      ghost var last, middle := [], trace;
      r, last := ClaimPhase(epoch, w);
      KeptOn(cfg, old(trace), middle, trace);
      ClaimsDecide(cfg, epoch, now, w, Retries(old(trace), epoch), last, r);
      claims, acts := Some(last), acts + last;
      assert last != [] ==> last[0] in last;
      assert forall a :: a in last ==> a in acts;
    }

    // One epoch of a cycle: driven, and put into its cooldown if it came out terminal.
    method DriveAndRecord(epoch: int, now: int, w: DriveWire) returns (r: Outcome<Obs>, ghost acts: seq<Act>)
      requires Sound() && !Pending(trace) && InWindow(trace, epoch)
      requires Watched(cfg, trace, state.At(cfg.key)) && !state.InCooldown(cfg.key, epoch, now)
      modifies this`trace, this`retryCounts, state
      ensures Sound() && !Pending(trace) && trace == old(trace) + acts
      ensures Watched(cfg, trace, state.At(cfg.key)) && Window(trace) == Window(old(trace))
      ensures Until(cfg, trace, epoch) <= now || (r.Done? && r.value.terminal)
      ensures forall e :: e != epoch ==> Until(cfg, trace, e) == Until(cfg, old(trace), e)
      ensures forall e :: e != epoch ==> Retries(trace, e) == Retries(old(trace), e)
      ensures state.At(cfg.key).firstSeen == old(state.At(cfg.key)).firstSeen
      ensures forall e :: CooldownUntil(state.At(cfg.key), e) ==
                          if e == epoch && r.Done? && r.value.terminal then now + cfg.cooldown
                          else CooldownUntil(old(state.At(cfg.key)), e)
      ensures Driven(cfg, Retries(old(trace), epoch), now, epoch, w, acts, r)
      ensures r.Done? && r.value.done ==> ClaimedFor(cfg, epoch, acts)
    {
      hide Safe, Pending, Counted, DueForSigning, PastGuards, Seen, Watched, Until, Window, Look, ClaimedFor, ClaimActs,
        EndsWith, Retries, SignRetryable, Outcomes, Begins, Driven, ClaimsEnd;
      FreeToDrive(cfg, trace, state.At(cfg.key), now, epoch);
      ghost var claims, count := None, Retries(trace, epoch);
      r, acts, claims := DriveEpoch(epoch, now, w);
      WatchedStill(cfg, old(trace), trace, state.At(cfg.key));
      DoneIsClaimed(cfg, epoch, now, w, count, acts, claims, r);
      if claims.Some? { SomeClaimRuns(cfg, epoch, w, claims.value, r); }
      IsDriven(cfg, count, now, epoch, w, acts, r);
      if r.Done? && r.value.terminal {
        EscalationStep(cfg, trace, retryCounts, epoch, now);
        ghost var s0 := state.At(cfg.key);
        state.RecordTerminal(cfg.key, epoch, now, cfg.cooldown);
        assert !state.InCooldown(cfg.key, epoch, now + cfg.cooldown);
        assert state.InCooldown(cfg.key, epoch, now + cfg.cooldown - 1);
        WatchedTerminal(cfg, trace, s0, state.At(cfg.key), now, epoch);
        ClaimedForOn(cfg, epoch, acts, [Terminal(epoch, now)]);
        acts, trace := acts + [Terminal(epoch, now)], trace + [Terminal(epoch, now)];
      }
    }

    // One turn of the loop: an epoch in its cooldown is only reported, any other is driven.
    method Visit(epoch: int, now: int, w: DriveWire) returns (r: Outcome<Obs>, ghost acts: seq<Act>)
      requires Sound() && !Pending(trace) && InWindow(trace, epoch) && Watched(cfg, trace, state.At(cfg.key))
      modifies this`trace, this`retryCounts, state
      ensures Sound() && !Pending(trace) && trace == old(trace) + acts
      ensures Watched(cfg, trace, state.At(cfg.key)) && Window(trace) == Window(old(trace))
      ensures state.At(cfg.key).firstSeen == old(state.At(cfg.key)).firstSeen
      ensures forall e :: e != epoch ==> Until(cfg, trace, e) == Until(cfg, old(trace), e)
      ensures forall e :: e != epoch ==> Retries(trace, e) == Retries(old(trace), e)
      ensures forall e :: CooldownUntil(state.At(cfg.key), e) ==
                          if Terminal(e, now) in acts then now + cfg.cooldown
                          else CooldownUntil(old(state.At(cfg.key)), e)
      ensures r.Done? ==> r.value.epoch == epoch
      ensures Visited(cfg, CooldownUntil(old(state.At(cfg.key)), epoch), Retries(old(trace), epoch), now, epoch, w,
                      acts, r)
      ensures r.Done? && r.value.done ==> ClaimedFor(cfg, epoch, acts) && Until(cfg, trace, epoch) <= now
    {
      hide Safe, Pending, Counted, Watched, ClaimedFor, Until, Window, DueForSigning, PastGuards, Look, Retries,
        Outcomes, Escalates;
      if state.InCooldown(cfg.key, epoch, now) {
        r, acts := Done(Obs(epoch, Claiming, false, true, None)), [];
        assert trace + acts == trace;
      } else {
        r, acts := DriveAndRecord(epoch, now, w);
        NotBoth(cfg, Retries(old(trace), epoch), now, epoch, w, acts, r);
      }
    }

    // The loop of run_cycle, oldest epoch first.  A stuck epoch stops the watermark and not the epochs after it, unless
    // an exception leaves its drive: that ends the cycle.
    method DriveWindow(start: nat, current: nat, base: int, now: nat, w: CycleWire, ghost c: Scene)
      returns (r: Outcome<seq<Obs>>, newLast: int, ghost acts: seq<Act>, ghost k: nat, ghost reached: int)
      requires Sound() && !Pending(trace) && Watched(cfg, trace, state.At(cfg.key))
      requires Window(trace) == Span(start, current) && c == Scene(cfg, w, state.At(cfg.key), c.before, now)
      requires forall e :: Retries(trace, e) == Retries(c.before, e)
      modifies this`trace, this`retryCounts, state
      ensures Sound() && !Pending(trace) && trace == old(trace) + acts
      ensures Watched(cfg, trace, state.At(cfg.key)) && Window(trace) == Span(start, current)
      ensures state.At(cfg.key).firstSeen == c.s.firstSeen && CooledBy(c, state.At(cfg.key), acts)
      ensures Turned(c, start, reached, acts) && Cut(c, start, current, reached, r.Raised?)
      ensures r.Done? ==> reached == start + |r.value| && Reported(c, start, acts, r.value)
      ensures r.Done? ==> Rested(cfg, trace, now, r.value)
      ensures r.Done? ==> Leading(r.value, k) && newLast == if k == 0 then base else start + k - 1
    {
      hide Safe, Pending, Counted, Watched, Reported, Turned, Leading, CooldownUntil, AutoState.At, Until, Window,
        CooledBy, Rested, ClaimedFor, Retries, Visited, Clear, Taken, Halts;
      var epoch, obs, advancing := start, [], true;
      acts, k, newLast, reached := [], 0, base, start;
      NothingYet(c, trace, start);
      while epoch < current
        invariant start <= epoch == start + |obs| == reached && (epoch <= current || epoch == start)
        invariant Sound() && !Pending(trace) && trace == old(trace) + acts
        invariant Watched(cfg, trace, state.At(cfg.key)) && Window(trace) == Span(start, current)
        invariant state.At(cfg.key).firstSeen == c.s.firstSeen && CooledBy(c, state.At(cfg.key), acts)
        invariant forall e :: e >= epoch ==> Retries(trace, e) == Retries(c.before, e)
        invariant Turned(c, start, epoch, acts) && Clear(c, start, epoch) && Reported(c, start, acts, obs)
        invariant Rested(cfg, trace, now, obs)
        invariant Leading(obs, k) && (advancing <==> k == |obs|) && newLast == if k == 0 then base else start + k - 1
      {
        var o;
        ghost var more, s, before := [], state.At(cfg.key), trace;
        NotYetCooled(c, s, start, epoch, acts);
        o, more := Visit(epoch, now, w.drives(epoch));
        TurnedStep(c, start, epoch, acts, more, o);
        CooledStep(c, s, state.At(cfg.key), start, epoch, acts, more);
        acts, reached := acts + more, reached + 1;
        if o.Raised? { return Raised, newLast, acts, k, reached; }
        ReportedStep(c, start, acts[..|acts| - |more|], obs, more, o.value);
        RestedStep(c, before, trace, start, acts, obs, o.value);
        LeadingStep(obs, k, o.value);
        obs := obs + [o.value];
        if o.value.done && advancing { newLast, k := epoch, k + 1; } else { advancing := false; }
        epoch := epoch + 1;
      }
      r := Done(obs);
    }

    // What is remembered of a window: its active epochs.  Any other epoch is forgotten, with its cooldown.
    method Remember(obs: seq<Obs>, now: nat) returns (ghost released: seq<Act>)
      requires Sound() && !Pending(trace) && Watched(cfg, trace, state.At(cfg.key))
      requires forall e :: InWindow(trace, e) && e !in Active(obs) ==> Until(cfg, trace, e) <= now
      modifies this`trace, state
      ensures Sound() && !Pending(trace) && trace == old(trace) + released && forall a :: a in released ==> a.Released?
      ensures Watched(cfg, trace, state.At(cfg.key)) && Window(trace) == Window(old(trace))
      ensures state.At(cfg.key) == Observed(old(state.At(cfg.key)), Active(obs), now)
    {
      hide Safe, Pending, Counted, Watched, Until, Window, Observed, Active;
      ghost var s := state.At(cfg.key);
      var gone := state.Observe(cfg.key, Active(obs), now);
      ghost var dropped := A.Sorted(set e | e in gone && e in s.cooldownUntil);
      released := Drops(dropped, now);
      AllDropped(cfg, trace, retryCounts, dropped, now, Active(obs));
      WatchedObserved(cfg, trace, trace + released, s, Active(obs), now, dropped);
      trace := trace + released;
    }

    // The loop and what is remembered of it.
    method Settle(start: nat, current: nat, base: int, now: nat, w: CycleWire, ghost c: Scene)
      returns (r: Outcome<seq<Obs>>, newLast: int, ghost acts: seq<Act>, ghost released: seq<Act>, ghost k: nat,
               ghost reached: int)
      requires Sound() && !Pending(trace) && Watched(cfg, trace, state.At(cfg.key))
      requires Window(trace) == Span(start, current) && c == Scene(cfg, w, state.At(cfg.key), c.before, now)
      requires forall e :: Retries(trace, e) == Retries(c.before, e)
      modifies this`trace, this`retryCounts, state
      ensures Sound() && !Pending(trace) && trace == old(trace) + acts + released
      ensures Watched(cfg, trace, state.At(cfg.key)) && Window(trace) == Span(start, current)
      ensures forall a :: a in released ==> a.Released?
      ensures Turned(c, start, reached, acts) && Cut(c, start, current, reached, r.Raised?)
      ensures r.Raised? ==> state.At(cfg.key).firstSeen == c.s.firstSeen && CooledBy(c, state.At(cfg.key), acts)
      ensures r.Done? ==> reached == start + |r.value| && Reported(c, start, acts, r.value)
      ensures r.Done? ==> Remembered(c, state.At(cfg.key), acts, Active(r.value))
      ensures r.Done? ==> Leading(r.value, k) && newLast == if k == 0 then base else start + k - 1
    {
      hide Safe, Pending, Counted, Watched, Reported, Turned, Leading, CooldownUntil, AutoState.At, Until, Window,
        CooledBy, Rested, Active, Observed, Retries, Clear, Taken, Halts, Remembered;
      released := [];
      r, newLast, acts, k, reached := DriveWindow(start, current, base, now, w, c);
      if r.Raised? { return; }
      ghost var driven := state.At(cfg.key);
      InactiveIsRested(c, trace, acts, start, r.value);
      released := Remember(r.value, now);
      IsRemembered(c, driven, acts, start, r.value);
    }

    // One poll cycle.
    method RunCycle(now: nat, w: CycleWire)
      returns (r: Outcome<seq<Obs>>, ghost acts: seq<Act>, ghost released: seq<Act>, ghost k: nat, ghost reached: int)
      requires Valid()
      modifies this, state
      ensures Valid()
      // A cycle that raises keeps the watermark.
      ensures r.Raised? ==> lastDone == old(lastDone)
      ensures w.current.Failed? ==> r.Raised? && trace == old(trace) && state.streams == old(state.streams)
      ensures w.current.Got? ==>
                var current := w.current.value;
                var base := Watermark(old(lastDone), current);
                var start := WindowStart(base, current);
                var c := Scene(cfg, w, old(state.At(cfg.key)), old(trace), now);
                && trace == old(trace) + [Cycle(current, start)] + acts + released
                && (forall a :: a in released ==> a.Released?)
                // The epochs of the window that are not in a cooldown are driven, once, oldest first, to the first
                // whose drive stops; each is asked for, and escalated, exactly where its answers say so.
                && Turned(c, start, reached, acts) && Cut(c, start, current, reached, r.Raised?)
                && (r.Done? ==> reached == start + |r.value| && Reported(c, start, acts, r.value))
                // An escalation starts a cooldown; then, of a window driven to its end, the others are forgotten.
                && (r.Raised? ==>
                      state.At(cfg.key).firstSeen == c.s.firstSeen && CooledBy(c, state.At(cfg.key), acts))
                && (r.Done? ==> Remembered(c, state.At(cfg.key), acts, Active(r.value)))
                // The watermark moves over the leading epochs that are done, and no further.
                && (r.Done? ==> Leading(r.value, k) && lastDone == Some(if k == 0 then base else start + k - 1))
    {
      hide Safe, Pending, Counted, Watched, Reported, Turned, Leading, Until, Window, WindowStart, CooledBy, Cut,
        Remembered, AutoState.At, CooldownUntil, Retries;
      k, reached, acts, released := 0, 0, [], [];
      if w.current.Failed? { return Raised, acts, released, k, reached; }
      var current := w.current.value;
      var base := Watermark(lastDone, current);
      var start := WindowStart(base, current);
      ghost var c := Scene(cfg, w, state.At(cfg.key), trace, now);
      CycleStep(cfg, trace, state.At(cfg.key), retryCounts, lastDone, current);
      trace := trace + [Cycle(current, start)];
      var newLast;
      r, newLast, acts, released, k, reached := Settle(start, current, base, now, w, c);
      assert trace == old(trace) + [Cycle(current, start)] + acts + released;
      StillAhead(trace, base, newLast, start, current, old(lastDone));
      if r.Done? { lastDone := Some(newLast); }
    }

    // build_epoch_report between two cycles: expired cooldowns are dropped.
    method Report(now: nat, staleAfter: int) returns (degraded: bool)
      requires Valid()
      modifies this`trace, state
      ensures Valid()
      ensures forall e, t :: now <= t ==> (state.InCooldown(cfg.key, e, t) <==> old(state.InCooldown(cfg.key, e, t)))
      ensures state.At(cfg.key).firstSeen == old(state.At(cfg.key)).firstSeen
      ensures degraded <==>
                exists k, e :: k in old(state.streams) && e in old(state.streams)[k].firstSeen &&
                               Overdue(old(state.streams)[k], e, now, staleAfter)
    {
      hide Safe, Pending, Counted, Watched, Until, Window, Ahead, Overdue;
      ghost var s := state.At(cfg.key);
      ghost var expired := A.Sorted(set e | e in s.cooldownUntil && s.cooldownUntil[e] <= now);
      degraded := state.Evaluate(now, staleAfter);
      forall e
        ensures CooldownUntil(state.At(cfg.key), e) == if CooldownUntil(s, e) > now then CooldownUntil(s, e) else 0
      {
        assert state.InCooldown(cfg.key, e, now) <==> old(state.InCooldown(cfg.key, e, now));
      }
      ExpiredDropped(cfg, trace, retryCounts, s, state.At(cfg.key), expired, now, lastDone);
      trace := trace + Drops(expired, now);
    }
  }

  // --- Cooldowns ---------------------------------------------------------------------------------------------

  // An epoch that is to be left alone is in its cooldown.
  ghost predicate Watched(cfg: Config, trace: seq<Act>, s: Stream) {
    forall e :: Until(cfg, trace, e) <= CooldownUntil(s, e)
  }

  lemma FreeToDrive(cfg: Config, trace: seq<Act>, s: Stream, now: int, epoch: int)
    requires Watched(cfg, trace, s) && CooldownUntil(s, epoch) <= now
    ensures Until(cfg, trace, epoch) <= now
  {}

  lemma WatchedStill(cfg: Config, trace: seq<Act>, later: seq<Act>, s: Stream)
    requires Watched(cfg, trace, s) && Kept(cfg, trace, later)
    ensures Watched(cfg, later, s)
    ensures Window(later) == Window(trace) && forall e :: Until(cfg, later, e) == Until(cfg, trace, e)
  {}

  lemma WatchedTerminal(cfg: Config, trace: seq<Act>, s: Stream, after: Stream, now: int, epoch: int)
    requires Watched(cfg, trace, s) && Until(cfg, trace, epoch) <= now
    requires forall e :: CooldownUntil(after, e) == if e == epoch then now + cfg.cooldown else CooldownUntil(s, e)
    ensures Watched(cfg, trace + [Terminal(epoch, now)], after)
    ensures forall e :: e != epoch ==> Until(cfg, trace + [Terminal(epoch, now)], e) == Until(cfg, trace, e)
  {
    hide Until;
    forall e
      ensures Until(cfg, trace + [Terminal(epoch, now)], e) <= CooldownUntil(after, e)
      ensures e != epoch ==> Until(cfg, trace + [Terminal(epoch, now)], e) == Until(cfg, trace, e)
    {
      UntilStep(cfg, trace, Terminal(epoch, now), e);
    }
  }

  lemma EscalationStep(cfg: Config, trace: seq<Act>, counts: map<int, nat>, epoch: int, now: int)
    requires Safe(cfg, trace) && Counted(counts, trace) && InWindow(trace, epoch)
    requires Pending(trace) ==> trace[|trace| - 1].epoch == epoch
    ensures var later := trace + [Terminal(epoch, now)];
            && Safe(cfg, later) && Counted(counts, later) && !Pending(later) && Window(later) == Window(trace)
            && forall e :: Retries(later, e) == Retries(trace, e)
  {
    hide Window;
    SafeStep(cfg, trace, Terminal(epoch, now));
    WindowStep(trace, Terminal(epoch, now));
    forall x
      ensures Retries(trace + [Terminal(epoch, now)], x) == Retries(trace, x)
    {
      RetriesStep(trace, Terminal(epoch, now), x);
    }
  }

  lemma TakenUp(cfg: Config, trace: seq<Act>, counts: map<int, nat>, epoch: int, now: int)
    requires Safe(cfg, trace) && !Pending(trace) && Counted(counts, trace)
    requires InWindow(trace, epoch) && Until(cfg, trace, epoch) <= now
    ensures var later := trace + [Drive(epoch, now)];
            Safe(cfg, later) && !Pending(later) && Counted(counts, later) && SameRecord(cfg, trace, later)
  {
    QuietStep(cfg, trace, Drive(epoch, now));
  }

  // --- Windows -----------------------------------------------------------------------------------------------

  // A fresh start looks at the epoch that just closed.
  function Watermark(lastDone: Option<int>, current: int): int {
    if lastDone.Some? then lastDone.value else current - 2
  }

  function WindowStart(lastDone: int, current: int): nat {
    var start := if lastDone + 1 < current - MAX_CATCHUP then current - MAX_CATCHUP else lastDone + 1;
    if start < 0 then 0 else start
  }

  // The window begins behind the watermark, but at most eight epochs back and not below zero; a fresh start begins with
  // the epoch that just closed.
  lemma WindowExactly(lastDone: int, current: int)
    ensures var start := WindowStart(lastDone, current);
            && start >= lastDone + 1 && start >= current - 8 && start in {lastDone + 1, current - 8, 0}
    ensures Watermark(Some(lastDone), current) == lastDone
    ensures current >= 1 ==> WindowStart(Watermark(None, current), current) == current - 1
  {}

  // The next window is the latest one or lies above it, unless the epoch counter falls.
  ghost predicate Ahead(trace: seq<Act>, lastDone: Option<int>) {
    var w := Window(trace);
    w.start <= WindowStart(Watermark(lastDone, w.current), w.current)
  }

  // The epochs driven in a stretch of the trace, in order.
  ghost function DrivenIn(acts: seq<Act>): seq<int> {
    if acts == [] then []
    else DrivenIn(acts[..|acts| - 1]) + if acts[|acts| - 1].Drive? then [acts[|acts| - 1].epoch] else []
  }

  // The epochs of a window that are not in a cooldown, in order.
  ghost function Due(lo: int, hi: int, s: Stream, now: int): seq<int>
    decreases hi - lo
  {
    if hi <= lo then [] else Due(lo, hi - 1, s, now) + if CooldownUntil(s, hi - 1) > now then [] else [hi - 1]
  }

  lemma DueStep(lo: int, e: int, s: Stream, now: int)
    requires lo <= e
    ensures Due(lo, e + 1, s, now) == Due(lo, e, s, now) + if CooldownUntil(s, e) > now then [] else [e]
  {}

  lemma {:induction false} DrivenOnce(before: seq<Act>, epoch: int, now: int, acts: seq<Act>)
    requires acts != [] && acts[0] == Drive(epoch, now) && forall i :: 0 < i < |acts| ==> !acts[i].Drive?
    ensures DrivenIn(before + acts) == DrivenIn(before) + [epoch]
  {
    var all := before + acts;
    assert all[..|all| - 1] == before + acts[..|acts| - 1];
    if |acts| == 1 {
      assert all[..|all| - 1] == before;
    } else {
      DrivenOnce(before, epoch, now, acts[..|acts| - 1]);
    }
  }

  // --- One turn of the loop ----------------------------------------------------------------------------------

  datatype CycleWire = CycleWire(current: Answer<nat>, drives: int -> DriveWire)

  // What a cycle meets: the answers, what is remembered, what was done before, and the time.
  datatype Scene = Scene(cfg: Config, w: CycleWire, s: Stream, before: seq<Act>, now: nat)

  // What a drive does: it is taken up once, looks, asks as its answers say, and is escalated if it came out terminal.
  ghost predicate Driven(
    cfg: Config, count: nat, now: int, epoch: int, w: DriveWire, acts: seq<Act>, r: Outcome<Obs>)
  {
    && acts != [] && acts[0] == Drive(epoch, now) && (forall i :: 0 < i < |acts| ==> !acts[i].Drive?)
    && (!(cfg.uptime && w.uptime.Raised?) ==> Look(epoch, w) in acts)
    && Outcomes(cfg, w, epoch, now, count, r)
    && (forall e :: AskedIn(acts, e) <==>
                      e == epoch && DueForSigning(cfg, w, now) && PastGuards(cfg.K, e, w.sign))
    && (forall e :: ClaimedIn(acts, e) <==> e == epoch && Begins(cfg, w, e, now) && FirstClaimRuns(cfg, w))
    && (forall e, u :: Terminal(e, u) in acts <==> e == epoch && u == now && Escalates(cfg, w, e, now, count))
  }

  // The drive, with its escalation still to be recorded.
  lemma IsDriven(cfg: Config, count: nat, now: int, epoch: int, w: DriveWire, acts: seq<Act>, r: Outcome<Obs>)
    requires DriveActs(epoch, now, acts) && Outcomes(cfg, w, epoch, now, count, r)
    requires !(cfg.uptime && w.uptime.Raised?) ==> Look(epoch, w) in acts
    requires (exists a :: a in acts && a.LegOne?) <==> DueForSigning(cfg, w, now) && PastGuards(cfg.K, epoch, w.sign)
    requires (exists a :: a in acts && a.Claimed?) <==> Begins(cfg, w, epoch, now) && FirstClaimRuns(cfg, w)
    ensures var all := if r.Done? && r.value.terminal then acts + [Terminal(epoch, now)] else acts;
            Driven(cfg, count, now, epoch, w, all, r)
  {
    hide DueForSigning, PastGuards, Escalates, Begins, Completes, Stops, SeesOurVote, Look;
    var all := if r.Done? && r.value.terminal then acts + [Terminal(epoch, now)] else acts;
    forall e
      ensures AskedIn(all, e) <==> e == epoch && exists a :: a in acts && a.LegOne?
    {
      if a :| a in acts && a.LegOne? { assert a in all; }
    }
    forall e
      ensures ClaimedIn(all, e) <==> e == epoch && exists a :: a in acts && a.Claimed?
    {
      if a :| a in acts && a.Claimed? { assert a in all; }
    }
    assert r.Done? && r.value.terminal ==> all[|acts|] == Terminal(epoch, now);
    assert forall e, u :: Terminal(e, u) in acts ==> false;
  }

  lemma DoneIsClaimed(cfg: Config, epoch: int, now: int, w: DriveWire, count: nat, acts: seq<Act>,
                      claims: Option<seq<Act>>, r: Outcome<Obs>)
    requires Outcomes(cfg, w, epoch, now, count, r) && (claims.Some? <==> Begins(cfg, w, epoch, now))
    requires claims.Some? ==> ClaimsEnd(cfg, epoch, w, claims.value, r) && EndsWith(acts, claims.value)
    ensures r.Done? && r.value.done ==> ClaimedFor(cfg, epoch, acts)
  {
    hide Begins, Escalates, Stops, SeesOurVote, DueForSigning, ClaimedFor, EndsWith;
    if r.Done? && r.value.done { AllClaimed(cfg, epoch, w, acts, claims.value); }
  }

  lemma NotBoth(cfg: Config, count: nat, now: int, epoch: int, w: DriveWire, acts: seq<Act>, r: Outcome<Obs>)
    requires Driven(cfg, count, now, epoch, w, acts, r)
    ensures r.Done? ==> !(r.value.done && r.value.terminal) && r.value.epoch == epoch
    ensures Terminal(epoch, now) in acts <==> r.Done? && r.value.terminal
  {
    hide Begins, Escalates, Stops, SeesOurVote, DueForSigning, Completes;
  }

  // An epoch in its cooldown is only reported; any other is driven.
  ghost predicate Visited(
    cfg: Config, until: int, count: nat, now: int, epoch: int, w: DriveWire, acts: seq<Act>, r: Outcome<Obs>)
  {
    if until > now then acts == [] && r == Done(Obs(epoch, Claiming, false, true, None))
    else Driven(cfg, count, now, epoch, w, acts, r)
  }

  // --- What a cycle does -------------------------------------------------------------------------------------

  // An epoch between lo and hi that is not in a cooldown.
  predicate Taken(c: Scene, lo: int, hi: int, e: int) {
    lo <= e < hi && CooldownUntil(c.s, e) <= c.now
  }

  predicate Halts(c: Scene, e: int) {
    Stops(c.cfg, c.w.drives(e), e, c.now)
  }

  ghost predicate Escalated(c: Scene, lo: int, hi: int, e: int) {
    Taken(c, lo, hi, e) && Escalates(c.cfg, c.w.drives(e), e, c.now, Retries(c.before, e))
  }

  // No drive between lo and hi stops.
  ghost predicate Clear(c: Scene, lo: int, hi: int) {
    forall e :: Taken(c, lo, hi, e) ==> !Halts(c, e)
  }

  // Of the epochs from lo to hi exactly those outside a cooldown are driven, oldest first, and of these a signature is
  // asked for exactly where it is due and every guard passes, a claim run exactly where claiming begins, and exactly
  // those that call for it are escalated.
  ghost predicate Turned(c: Scene, lo: int, hi: int, acts: seq<Act>) {
    && DrivenIn(acts) == Due(lo, hi, c.s, c.now)
    && (forall e, u :: Drive(e, u) in acts <==> u == c.now && Taken(c, lo, hi, e))
    && (forall e :: AskedIn(acts, e) <==>
                      && Taken(c, lo, hi, e) && DueForSigning(c.cfg, c.w.drives(e), c.now)
                      && PastGuards(c.cfg.K, e, c.w.drives(e).sign))
    && (forall e :: ClaimedIn(acts, e) <==>
                      && Taken(c, lo, hi, e) && Begins(c.cfg, c.w.drives(e), e, c.now)
                      && FirstClaimRuns(c.cfg, c.w.drives(e)))
    && (forall e :: Taken(c, lo, hi, e) && !(c.cfg.uptime && c.w.drives(e).uptime.Raised?) ==>
                      Look(e, c.w.drives(e)) in acts)
    && (forall e, u :: Terminal(e, u) in acts <==> u == c.now && Escalated(c, lo, hi, e))
  }

  // A cycle ends with the window, or with the first drive that stops.
  ghost predicate Cut(c: Scene, start: int, current: int, reached: int, raised: bool) {
    if raised
    then && start < reached <= current && Taken(c, start, reached, reached - 1) && Halts(c, reached - 1)
         && Clear(c, start, reached - 1)
    else reached == (if start < current then current else start) && Clear(c, start, reached)
  }

  lemma AskedInBoth(acts: seq<Act>, more: seq<Act>, e: int)
    ensures AskedIn(acts + more, e) <==> AskedIn(acts, e) || AskedIn(more, e)
  {
    forall a | a in acts || a in more
      ensures a in acts + more
    {}
  }

  lemma ClaimedInBoth(acts: seq<Act>, more: seq<Act>, e: int)
    ensures ClaimedIn(acts + more, e) <==> ClaimedIn(acts, e) || ClaimedIn(more, e)
  {
    forall a | a in acts || a in more
      ensures a in acts + more
    {}
  }

  lemma TurnedStep(c: Scene, lo: int, hi: int, acts: seq<Act>, more: seq<Act>, r: Outcome<Obs>)
    requires lo <= hi && Turned(c, lo, hi, acts) && Clear(c, lo, hi)
    requires Visited(c.cfg, CooldownUntil(c.s, hi), Retries(c.before, hi), c.now, hi, c.w.drives(hi), more, r)
    ensures Turned(c, lo, hi + 1, acts + more)
    ensures if r.Raised? then Taken(c, lo, hi + 1, hi) && Halts(c, hi) else Clear(c, lo, hi + 1)
  {
    hide DueForSigning, PastGuards, Look, AskedIn, Stops, Escalates, Retries, CooldownUntil, Completes, ObsOf,
      ClaimedIn, Begins, FirstClaimRuns;
    DueStep(lo, hi, c.s, c.now);
    if CooldownUntil(c.s, hi) > c.now { assert acts + more == acts; } else { DrivenOnce(acts, hi, c.now, more); }
    forall e
      ensures AskedIn(acts + more, e) <==> AskedIn(acts, e) || AskedIn(more, e)
      ensures ClaimedIn(acts + more, e) <==> ClaimedIn(acts, e) || ClaimedIn(more, e)
    {
      AskedInBoth(acts, more, e);
      ClaimedInBoth(acts, more, e);
    }
  }

  // --- Which epochs are driven, and which are asked for ------------------------------------------------------

  // An epoch of the window is driven exactly if it is not in a cooldown and no drive before it stops; the cycle raises
  // exactly if some drive of the window stops.
  lemma DrivenExactly(c: Scene, start: int, current: int, reached: int, raised: bool, acts: seq<Act>)
    requires Turned(c, start, reached, acts) && Cut(c, start, current, reached, raised)
    ensures forall e :: e in DrivenIn(acts) <==> Taken(c, start, current, e) && Clear(c, start, e)
    ensures raised <==> exists e :: Taken(c, start, current, e) && Halts(c, e)
  {
    hide Halts, CooldownUntil, DueForSigning, PastGuards, Escalates, Look, AskedIn;
    DueIsExact(start, reached, c.s, c.now);
    if raised { assert Taken(c, start, current, reached - 1) && Halts(c, reached - 1); }
    forall e
      ensures Taken(c, start, reached, e) <==> Taken(c, start, current, e) && Clear(c, start, e)
    {
      if Taken(c, start, current, e) && e >= reached {
        assert raised && Taken(c, start, e, reached - 1);
      }
    }
  }

  // Neither a wait, nor a failure, nor an escalation, nor a cooldown of one epoch keeps a later one from being driven.
  lemma OnlyStopsBlock(c: Scene, start: int, current: int, reached: int, raised: bool, acts: seq<Act>, e: int)
    requires Turned(c, start, reached, acts) && Cut(c, start, current, reached, raised)
    requires Taken(c, start, current, e) && e !in DrivenIn(acts)
    ensures exists i :: Taken(c, start, e, i) && Halts(c, i)
  {
    DrivenExactly(c, start, current, reached, raised, acts);
  }

  // A read refused for any other reason than that nobody has signed yet stops the drive, at any time.
  lemma RefusedReadStops(cfg: Config, w: DriveWire, epoch: int, now: int)
    requires w.rewardsHash.Failed? && !NotSignedYet(w.rewardsHash.message)
    ensures Stops(cfg, w, epoch, now)
  {}

  // Spelled out: whether our vote was seen before plays no part.  An epoch of the window outside a cooldown is signed,
  // if no drive before it stops, once its own answers say that it is open and unsigned, or one of the reads reverts
  // because nobody has signed yet and the log does not show our vote.
  lemma AskedExactly(c: Scene, start: int, current: int, reached: int, raised: bool, acts: seq<Act>, e: int)
    requires Turned(c, start, reached, acts) && Cut(c, start, current, reached, raised)
    ensures var d, cfg := c.w.drives(e), c.cfg;
            AskedIn(acts, e) <==>
              && Taken(c, start, current, e) && Clear(c, start, e) && !(cfg.uptime && d.uptime.Raised?)
              && c.now >= d.endTs + cfg.delay && d.published && PastGuards(cfg.K, e, d.sign)
              && (|| (d.rewardsHash == Got(false) && d.signInfo == Got(false))
                  || (d.rewardsHash.Failed? && NotSignedYet(d.rewardsHash.message) && d.events != Some(true))
                  || (d.rewardsHash.Got? && d.signInfo.Failed? && NotSignedYet(d.signInfo.message) &&
                      d.events != Some(true)))
  {
    hide PastGuards, NotSignedYet, DrivenIn, Due, Halts, Escalates, Clear, Cut;
    DrivenExactly(c, start, current, reached, raised, acts);
    DueIsExact(start, reached, c.s, c.now);
    UnsignedExactly(Look(e, c.w.drives(e)));
    assert Taken(c, start, reached, e) <==> e in Due(start, reached, c.s, c.now);
  }

  // In the answers alone: claiming begins exactly if rewardsHash is nonzero and the sign info is answered, or if a
  // signature is due and its run shows finality.
  lemma BeginsExactly(cfg: Config, w: DriveWire, epoch: int, now: int)
    ensures Begins(cfg, w, epoch, now) <==>
              || (!(cfg.uptime && w.uptime.Raised?) && w.rewardsHash == Got(true) && w.signInfo.Got?)
              || (DueForSigning(cfg, w, now) && SignFinal(cfg.K, epoch, w.sign))
  {
    hide DueForSigning, SignFinal;
    SightExactly(w.rewardsHash, w.signInfo, w.events);
  }

  // An epoch waits for finality exactly if it is not final and our vote is seen, on the contract or, while a read
  // reverts because nobody has signed yet, on the log.
  lemma WaitsExactly(cfg: Config, w: DriveWire, epoch: int, now: int, count: nat)
    ensures ObsOf(cfg, w, epoch, now, count).phase == ClaimWait <==> SeesOurVote(cfg, w)
    ensures SeesOurVote(cfg, w) <==>
              && !(cfg.uptime && w.uptime.Raised?)
              && (|| (w.rewardsHash == Got(false) && w.signInfo == Got(true))
                  || (w.rewardsHash.Failed? && Says(w.rewardsHash.message, "not signed yet") && w.events == Some(true))
                  || (w.rewardsHash.Got? && w.signInfo.Failed? && Says(w.signInfo.message, "not signed yet") &&
                      w.events == Some(true)))
  {
    hide Says, SignFinal, Escalates, SomeClaimRaises, NotSignedYet;
    if w.rewardsHash.Failed? { NotSignedYetExactly(w.rewardsHash.message); }
    if w.signInfo.Failed? { NotSignedYetExactly(w.signInfo.message); }
  }

  // A drive stops exactly on a refused uptime leg, a read refused for any other reason, a signing run that raises, or a
  // claim that does once claiming began.
  lemma StopsExactly(cfg: Config, w: DriveWire, epoch: int, now: int)
    ensures Stops(cfg, w, epoch, now) <==>
              || (cfg.uptime && w.uptime.Raised?)
              || (w.rewardsHash.Failed? && !Says(w.rewardsHash.message, "not signed yet"))
              || (w.rewardsHash.Got? && w.signInfo.Failed? && !Says(w.signInfo.message, "not signed yet"))
              || (DueForSigning(cfg, w, now) && SignRaises(cfg.K, epoch, w.sign))
              || (Begins(cfg, w, epoch, now) && exists k :: 0 <= k < |cfg.claimers| && w.claims(k).Raised?)
  {
    hide Says, Sighting, SignFinal, SignRaises, DueForSigning, Begins;
    SightExactly(w.rewardsHash, w.signInfo, w.events);
  }

  // So in a cycle an epoch is claimed for exactly if it is driven, there is a claim to run, and one of the two holds.
  lemma ClaimedExactly(c: Scene, start: int, current: int, reached: int, raised: bool, acts: seq<Act>, e: int)
    requires Turned(c, start, reached, acts) && Cut(c, start, current, reached, raised)
    ensures var d, cfg := c.w.drives(e), c.cfg;
            ClaimedIn(acts, e) <==>
              && Taken(c, start, current, e) && Clear(c, start, e) && cfg.claimers != [] && d.claims(0).Done?
              && (|| (!(cfg.uptime && d.uptime.Raised?) && d.rewardsHash == Got(true) && d.signInfo.Got?)
                  || (DueForSigning(cfg, d, c.now) && SignFinal(cfg.K, e, d.sign)))
  {
    hide PastGuards, DueForSigning, SignFinal, DrivenIn, Due, Halts, Escalates, Clear, Cut, Begins;
    DrivenExactly(c, start, current, reached, raised, acts);
    DueIsExact(start, reached, c.s, c.now);
    BeginsExactly(c.cfg, c.w.drives(e), e, c.now);
    assert Taken(c, start, reached, e) <==> e in Due(start, reached, c.s, c.now);
  }

  // What counts as nothing left to do.
  lemma DoneStatuses(s: Status)
    ensures s in CLAIM_DONE <==> !s.SubmittedPending? && !s.AlreadyFinalized? && !s.AlreadySigned? &&
                                 !s.FailedRetryable? && !s.FailedTerminal?
  {}

  // One observation per epoch of the window, in order; what is done was claimed for in this cycle.
  ghost predicate Observes(cfg: Config, acts: seq<Act>, start: int, obs: seq<Obs>) {
    forall i :: 0 <= i < |obs| ==>
                  && obs[i].epoch == start + i && !(obs[i].done && obs[i].terminal)
                  && (obs[i].done ==> ClaimedFor(cfg, start + i, acts))
  }

  // What is observed of an epoch.
  ghost function ObsAt(c: Scene, e: int): Obs {
    if CooldownUntil(c.s, e) > c.now then Obs(e, Claiming, false, true, None)
    else ObsOf(c.cfg, c.w.drives(e), e, c.now, Retries(c.before, e))
  }

  ghost predicate Reported(c: Scene, start: int, acts: seq<Act>, obs: seq<Obs>) {
    Observes(c.cfg, acts, start, obs) && forall i :: 0 <= i < |obs| ==> obs[i] == ObsAt(c, start + i)
  }

  lemma ClaimedForOn(cfg: Config, epoch: int, acts: seq<Act>, more: seq<Act>)
    ensures ClaimedFor(cfg, epoch, acts) || ClaimedFor(cfg, epoch, more) ==> ClaimedFor(cfg, epoch, acts + more)
  {
    forall k | 0 <= k < |cfg.claimers| && (Settled(cfg, epoch, k, acts) || Settled(cfg, epoch, k, more))
      ensures Settled(cfg, epoch, k, acts + more)
    {
      var s :| s in CLAIM_DONE && (ClaimOf(cfg, epoch, k, s) in acts || ClaimOf(cfg, epoch, k, s) in more);
      assert ClaimOf(cfg, epoch, k, s) in acts + more;
    }
  }

  lemma ReportedStep(c: Scene, start: int, acts: seq<Act>, obs: seq<Obs>, more: seq<Act>, o: Obs)
    requires Reported(c, start, acts, obs)
    requires var e := start + |obs|;
             Visited(c.cfg, CooldownUntil(c.s, e), Retries(c.before, e), c.now, e, c.w.drives(e), more, Done(o))
    requires o.done ==> ClaimedFor(c.cfg, o.epoch, more)
    ensures Reported(c, start, acts + more, obs + [o])
  {
    hide ClaimedFor, DueForSigning, PastGuards, AskedIn, CooldownUntil, Retries, Stops, Escalates, Completes, Begins,
      SeesOurVote;
    forall e
      ensures ClaimedFor(c.cfg, e, acts) || ClaimedFor(c.cfg, e, more) ==> ClaimedFor(c.cfg, e, acts + more)
    {
      ClaimedForOn(c.cfg, e, acts, more);
    }
  }

  // What driving leaves of the cooldowns: those escalated begin one.
  ghost predicate CooledBy(c: Scene, after: Stream, acts: seq<Act>) {
    forall e :: CooldownUntil(after, e) ==
                if Terminal(e, c.now) in acts then c.now + c.cfg.cooldown else CooldownUntil(c.s, e)
  }

  lemma NotYetCooled(c: Scene, s: Stream, lo: int, epoch: int, acts: seq<Act>)
    requires CooledBy(c, s, acts) && Turned(c, lo, epoch, acts)
    ensures CooldownUntil(s, epoch) == CooldownUntil(c.s, epoch)
  {
    hide DueForSigning, PastGuards, Escalates, Look, AskedIn, CooldownUntil, Retries;
  }

  lemma CooledStep(c: Scene, s: Stream, after: Stream, lo: int, epoch: int, acts: seq<Act>, more: seq<Act>)
    requires CooledBy(c, s, acts) && Turned(c, lo, epoch + 1, acts + more)
    requires forall e :: CooldownUntil(after, e) ==
                         if Terminal(e, c.now) in more then c.now + c.cfg.cooldown else CooldownUntil(s, e)
    ensures CooledBy(c, after, acts + more)
  {
    hide DueForSigning, PastGuards, Escalates, Look, AskedIn, CooldownUntil, Retries;
  }

  // What is done has no cooldown to run.
  ghost predicate Rested(cfg: Config, trace: seq<Act>, now: int, obs: seq<Obs>) {
    forall i :: 0 <= i < |obs| && obs[i].done ==> Until(cfg, trace, obs[i].epoch) <= now
  }

  lemma RestedStep(c: Scene, trace: seq<Act>, later: seq<Act>, start: int, acts: seq<Act>, obs: seq<Obs>, o: Obs)
    requires Rested(c.cfg, trace, c.now, obs) && Reported(c, start, acts, obs + [o])
    requires o.done ==> Until(c.cfg, later, o.epoch) <= c.now
    requires forall e :: e != o.epoch ==> Until(c.cfg, later, e) == Until(c.cfg, trace, e)
    ensures Rested(c.cfg, later, c.now, obs + [o])
  {
    hide ClaimedFor, ObsAt, Until;
    assert forall i :: 0 <= i < |obs| ==> obs[i] == (obs + [o])[i];
    assert (obs + [o])[|obs|] == o;
  }

  // The first k epochs of the window, and not the next, are done.
  ghost predicate Leading(obs: seq<Obs>, k: nat) {
    k <= |obs| && (forall i :: 0 <= i < k ==> obs[i].done) && (k < |obs| ==> !obs[k].done)
  }

  lemma NothingYet(c: Scene, trace: seq<Act>, start: int)
    ensures Turned(c, start, start, []) && Clear(c, start, start) && Reported(c, start, [], [])
    ensures CooledBy(c, c.s, []) && Rested(c.cfg, trace, c.now, []) && Leading([], 0)
  {}

  lemma LeadingStep(obs: seq<Obs>, k: nat, o: Obs)
    requires Leading(obs, k)
    ensures Leading(obs + [o], if k == |obs| && o.done then k + 1 else k)
    ensures k <= |obs|
  {}

  function Active(obs: seq<Obs>): (r: seq<int>)
    ensures forall e :: e in r <==> exists i :: 0 <= i < |obs| && !obs[i].done && obs[i].epoch == e
  {
    if obs == [] then []
    else
      var rest := Active(obs[..|obs| - 1]);
      if obs[|obs| - 1].done then rest else rest + [obs[|obs| - 1].epoch]
  }

  // --- Dropping cooldowns ------------------------------------------------------------------------------------

  ghost function Drops(epochs: seq<int>, now: int): seq<Act> {
    seq(|epochs|, i requires 0 <= i < |epochs| => Released(epochs[i], now))
  }

  lemma {:induction false} DropAll(cfg: Config, trace: seq<Act>, counts: map<int, nat>, epochs: seq<int>, now: nat)
    requires Safe(cfg, trace) && !Pending(trace) && Counted(counts, trace)
    requires forall e :: e in epochs && InWindow(trace, e) ==> Until(cfg, trace, e) <= now
    ensures var later := trace + Drops(epochs, now);
            && Safe(cfg, later) && !Pending(later) && Counted(counts, later) && Window(later) == Window(trace)
            && forall e :: Until(cfg, later, e) == if e in epochs then 0 else Until(cfg, trace, e)
  {
    hide Safe, Pending, Counted, Window, Until;
    if epochs == [] {
      assert trace + Drops(epochs, now) == trace;
    } else {
      var init, last := epochs[..|epochs| - 1], epochs[|epochs| - 1];
      DropAll(cfg, trace, counts, init, now);
      assert trace + Drops(epochs, now) == trace + Drops(init, now) + [Released(last, now)];
      assert last in epochs;
      DropOne(cfg, trace + Drops(init, now), counts, last, now);
    }
  }

  lemma DropOne(cfg: Config, trace: seq<Act>, counts: map<int, nat>, epoch: int, now: int)
    requires Safe(cfg, trace) && !Pending(trace) && Counted(counts, trace)
    requires InWindow(trace, epoch) ==> Until(cfg, trace, epoch) <= now
    ensures var later := trace + [Released(epoch, now)];
            && Safe(cfg, later) && !Pending(later) && Counted(counts, later) && Window(later) == Window(trace)
            && forall e :: Until(cfg, later, e) == if e == epoch then 0 else Until(cfg, trace, e)
  {
    var a := Released(epoch, now);
    SafeStep(cfg, trace, a);
    WindowStep(trace, a);
    forall e
      ensures Until(cfg, trace + [a], e) == if e == epoch then 0 else Until(cfg, trace, e)
      ensures Retries(trace + [a], e) == Retries(trace, e)
    {
      UntilStep(cfg, trace, a, e);
      RetriesStep(trace, a, e);
    }
  }

  lemma AllDropped(cfg: Config, trace: seq<Act>, counts: map<int, nat>, epochs: seq<int>, now: nat, active: seq<int>)
    requires Safe(cfg, trace) && !Pending(trace) && Counted(counts, trace)
    requires forall e :: InWindow(trace, e) && e !in active ==> Until(cfg, trace, e) <= now
    requires forall e :: e in epochs ==> e !in active
    ensures var later := trace + Drops(epochs, now);
            && Safe(cfg, later) && !Pending(later) && Counted(counts, later) && Window(later) == Window(trace)
            && forall e :: Until(cfg, later, e) == if e in epochs then 0 else Until(cfg, trace, e)
    ensures forall a :: a in Drops(epochs, now) ==> a.Released?
  {
    DropAll(cfg, trace, counts, epochs, now);
  }

  lemma WatchedObserved(cfg: Config, trace: seq<Act>, later: seq<Act>, s: Stream, active: seq<int>, now: int,
                        dropped: seq<int>)
    requires Watched(cfg, trace, s)
    requires forall e :: Until(cfg, later, e) == if e in dropped then 0 else Until(cfg, trace, e)
    requires forall e :: e in dropped <==> e in s.firstSeen && e !in active && e in s.cooldownUntil
    ensures Watched(cfg, later, Observed(s, active, now))
  {
    hide Until;
  }

  lemma InactiveIsRested(c: Scene, trace: seq<Act>, acts: seq<Act>, start: int, obs: seq<Obs>)
    requires Reported(c, start, acts, obs) && Rested(c.cfg, trace, c.now, obs)
    requires forall e :: InWindow(trace, e) ==> start <= e < start + |obs|
    ensures forall e :: InWindow(trace, e) && e !in Active(obs) ==> Until(c.cfg, trace, e) <= c.now
  {
    hide Until, Window, ClaimedFor, ObsAt;
    forall e | InWindow(trace, e) && e !in Active(obs)
      ensures Until(c.cfg, trace, e) <= c.now
    {
      assert obs[e - start].epoch == e;
    }
  }

  // What a cycle leaves in memory: the active epochs, the cooldowns it started, and of the others those of epochs that
  // are active, or were not.
  ghost predicate Remembered(c: Scene, after: Stream, acts: seq<Act>, active: seq<int>) {
    && (forall e :: e in after.firstSeen <==> e in active)
    && (forall e :: e in after.firstSeen ==>
                      after.firstSeen[e] == if e in c.s.firstSeen then c.s.firstSeen[e] else c.now)
    && (forall e :: CooldownUntil(after, e) ==
                    if Terminal(e, c.now) in acts then c.now + c.cfg.cooldown
                    else if e in c.s.firstSeen && e !in active then 0 else CooldownUntil(c.s, e))
  }

  lemma IsRemembered(c: Scene, driven: Stream, acts: seq<Act>, start: int, obs: seq<Obs>)
    requires Turned(c, start, start + |obs|, acts) && Reported(c, start, acts, obs)
    requires CooledBy(c, driven, acts) && driven.firstSeen == c.s.firstSeen
    ensures Remembered(c, Observed(driven, Active(obs), c.now), acts, Active(obs))
  {
    hide CooldownUntil, Active, Observed;
    ObservedCooldowns(driven, Active(obs), c.now);
    EscalatedAreActive(c, start, acts, obs);
  }

  lemma ObservedCooldowns(s: Stream, active: seq<int>, now: int)
    ensures forall e :: CooldownUntil(Observed(s, active, now), e) ==
                        if e in s.firstSeen && e !in active then 0 else CooldownUntil(s, e)
    ensures var after := Observed(s, active, now);
            && (forall e :: e in after.firstSeen <==> e in active)
            && forall e :: e in active ==> after.firstSeen[e] == if e in s.firstSeen then s.firstSeen[e] else now
  {}

  lemma EscalatedAreActive(c: Scene, start: int, acts: seq<Act>, obs: seq<Obs>)
    requires Turned(c, start, start + |obs|, acts) && Reported(c, start, acts, obs)
    ensures forall e :: Terminal(e, c.now) in acts ==> e in Active(obs)
  {
    hide ClaimedFor, DueForSigning, PastGuards, Escalates, Completes, Begins, SeesOurVote, Look, AskedIn, Retries,
      CooldownUntil, Active;
    ActiveExactly(c.cfg, acts, start, obs);
    forall e | Terminal(e, c.now) in acts
      ensures e in Active(obs)
    {
      assert obs[e - start] == ObsAt(c, start + (e - start));
    }
  }

  lemma ActiveExactly(cfg: Config, acts: seq<Act>, start: int, obs: seq<Obs>)
    requires Observes(cfg, acts, start, obs)
    ensures forall e :: e in Active(obs) <==> start <= e < start + |obs| && !obs[e - start].done
  {
    hide ClaimedFor;
    forall e | start <= e < start + |obs| && !obs[e - start].done
      ensures e in Active(obs)
    {
      assert obs[e - start].epoch == e;
    }
  }

  // An epoch that was not in a cooldown is in one after the cycle exactly if it was driven and called for it.
  lemma EntersCooldownExactly(c: Scene, start: int, reached: int, acts: seq<Act>, after: Stream, active: seq<int>,
                              e: int)
    requires Turned(c, start, reached, acts) && Remembered(c, after, acts, active)
    requires CooldownUntil(c.s, e) <= c.now && c.cfg.cooldown > 0
    ensures CooldownUntil(after, e) > c.now <==> Escalated(c, start, reached, e)
  {
    hide Escalated, CooldownUntil, Taken;
  }

  // A cooldown that still runs goes on for an epoch of the window and for one that was not active before; that of an
  // epoch that was active and is outside the window is lost.
  lemma RunningCooldownExactly(c: Scene, start: int, acts: seq<Act>, obs: seq<Obs>, after: Stream, e: int)
    requires Turned(c, start, start + |obs|, acts) && Reported(c, start, acts, obs)
    requires Remembered(c, after, acts, Active(obs)) && CooldownUntil(c.s, e) > c.now
    ensures CooldownUntil(after, e) ==
            if start <= e < start + |obs| || e !in c.s.firstSeen then CooldownUntil(c.s, e) else 0
  {
    hide ClaimedFor, DueForSigning, PastGuards, Escalates, Look, AskedIn, Retries, CooldownUntil, Active;
    ActiveExactly(c.cfg, acts, start, obs);
    if start <= e < start + |obs| { assert obs[e - start] == ObsAt(c, start + (e - start)); }
  }

  lemma ExpiredDropped(cfg: Config, trace: seq<Act>, counts: map<int, nat>, s: Stream, after: Stream, epochs: seq<int>,
                       now: nat, lastDone: Option<int>)
    requires Safe(cfg, trace) && !Pending(trace) && Counted(counts, trace) && Ahead(trace, lastDone)
    requires Watched(cfg, trace, s)
    requires forall e :: e in epochs <==> e in s.cooldownUntil && s.cooldownUntil[e] <= now
    requires forall e :: CooldownUntil(after, e) == if CooldownUntil(s, e) > now then CooldownUntil(s, e) else 0
    ensures var later := trace + Drops(epochs, now);
            && Safe(cfg, later) && !Pending(later) && Counted(counts, later) && Ahead(later, lastDone)
            && Watched(cfg, later, after)
  {
    DropAll(cfg, trace, counts, epochs, now);
  }

  // --- The start and the end of a cycle ----------------------------------------------------------------------

  lemma WindowRises(lastDone: Option<int>, current: int, later: int)
    requires current <= later
    ensures WindowStart(Watermark(lastDone, current), current) <= WindowStart(Watermark(lastDone, later), later)
  {}

  lemma CycleStep(cfg: Config, trace: seq<Act>, s: Stream, counts: map<int, nat>, lastDone: Option<int>, current: nat)
    requires Safe(cfg, trace) && !Pending(trace) && Counted(counts, trace) && Ahead(trace, lastDone)
    requires Watched(cfg, trace, s)
    ensures var start := WindowStart(Watermark(lastDone, current), current);
            var later := trace + [Cycle(current, start)];
            && Safe(cfg, later) && !Pending(later) && Counted(counts, later) && Window(later) == Span(start, current)
            && Watched(cfg, later, s) && forall e :: Retries(later, e) == Retries(trace, e)
  {
    hide WindowStart;
    var a := Cycle(current, WindowStart(Watermark(lastDone, current), current));
    if Window(trace).current <= current { WindowRises(lastDone, Window(trace).current, current); }
    SafeStep(cfg, trace, a);
    WindowStep(trace, a);
    forall e
      ensures Until(cfg, trace + [a], e) == Until(cfg, trace, e)
      ensures Retries(trace + [a], e) == Retries(trace, e)
    {
      UntilStep(cfg, trace, a, e);
      RetriesStep(trace, a, e);
    }
  }

  lemma StillAhead(trace: seq<Act>, base: int, newLast: int, start: int, current: int, lastDone: Option<int>)
    requires Window(trace) == Span(start, current) && base == Watermark(lastDone, current)
    requires start == WindowStart(base, current)
    ensures Ahead(trace, lastDone)
    ensures base <= newLast ==> Ahead(trace, Some(newLast))
    ensures base <= start - 1
  {}

  // --- What a cycle does to the watermark --------------------------------------------------------------------

  // Moving from base to last, it passes over epochs claimed for in this very cycle, or too far back, or none at all.
  lemma WatermarkIsContiguous(
    cfg: Config, acts: seq<Act>, base: int, current: nat, obs: seq<Obs>, k: nat, last: int)
    requires Observes(cfg, acts, WindowStart(base, current), obs) && Leading(obs, k)
    requires last == if k == 0 then base else WindowStart(base, current) + k - 1
    ensures base <= last
    ensures forall e :: base < e <= last ==> ClaimedFor(cfg, e, acts) || e < current - MAX_CATCHUP || e < 0
    ensures last > base ==> forall e :: WindowStart(base, current) <= e <= last ==> ClaimedFor(cfg, e, acts)
    ensures k < |obs| ==> !obs[k].done && obs[k].epoch == WindowStart(base, current) + k > last
  {
    hide ClaimedFor;
    var start := WindowStart(base, current);
    forall e | start <= e <= last && k > 0
      ensures ClaimedFor(cfg, e, acts)
    {
      assert obs[e - start].done;
    }
  }

  lemma {:induction false} DueIsExact(lo: int, hi: int, s: Stream, now: int)
    ensures forall e :: e in Due(lo, hi, s, now) <==> lo <= e < hi && CooldownUntil(s, e) <= now
    decreases hi - lo
  {
    if lo < hi { DueIsExact(lo, hi - 1, s, now); }
  }

  // What is due in a window comes once and in order.
  lemma {:induction false} DueAscends(lo: int, hi: int, s: Stream, now: int, i: nat, j: nat)
    requires i < j < |Due(lo, hi, s, now)|
    ensures Due(lo, hi, s, now)[i] < Due(lo, hi, s, now)[j]
    decreases hi - lo
  {
    var init := Due(lo, hi - 1, s, now);
    if j < |init| {
      DueAscends(lo, hi - 1, s, now, i, j);
    } else {
      DueIsExact(lo, hi - 1, s, now);
      assert init[i] in init;
    }
  }

  // --- Timing ------------------------------------------------------------------------------------------------

  // When an active epoch next becomes actionable.
  function Moment(o: Obs, now: int, poll: int): int {
    if o.waitUntil.Some? then o.waitUntil.value else now + poll
  }

  function Earliest(obs: seq<Obs>, now: int, poll: int): Option<int> {
    if obs == [] then None
    else
      var rest := Earliest(obs[..|obs| - 1], now, poll);
      var o := obs[|obs| - 1];
      if o.done || (rest.Some? && rest.value <= Moment(o, now, poll)) then rest else Some(Moment(o, now, poll))
  }

  function Clamp(low: int, x: int, high: int): int {
    var capped := if x < high then x else high;
    if capped < low then low else capped
  }

  // currentEnd: the end of the current epoch, if it is known.
  function NextSleep(obs: seq<Obs>, currentEnd: Option<int>, now: int, poll: int, delay: int): int {
    var wake := match Earliest(obs, now, poll)
                case Some(t) => t
                case None => if currentEnd.Some? then currentEnd.value + delay else now + poll;
    Clamp(60, wake - now, if poll < 3600 then 3600 else poll)
  }

  // The sleep ends before any active epoch's moment, unless that is within the minute, and lasts no longer than an
  // hour or a poll.
  lemma {:induction false} SleepNeverOvershoots(obs: seq<Obs>, currentEnd: Option<int>, now: int, poll: int, delay: int)
    ensures var sleep := NextSleep(obs, currentEnd, now, poll, delay);
            && 60 <= sleep && (sleep <= 3600 || sleep <= poll)
            && forall i :: 0 <= i < |obs| && !obs[i].done ==> sleep == 60 || now + sleep <= Moment(obs[i], now, poll)
  {
    EarliestIsLeast(obs, now, poll);
  }

  // The moment that the sleep aims at: the least of those of the active epochs, or, if none is active, the end of the
  // current epoch and the delay, or the next poll if that is not known.
  ghost predicate Wakes(obs: seq<Obs>, currentEnd: Option<int>, now: int, poll: int, delay: int, wake: int) {
    if forall i :: 0 <= i < |obs| ==> obs[i].done
    then wake == (if currentEnd.Some? then currentEnd.value + delay else now + poll)
    else && (exists i :: 0 <= i < |obs| && !obs[i].done && Moment(obs[i], now, poll) == wake)
         && forall i :: 0 <= i < |obs| && !obs[i].done ==> wake <= Moment(obs[i], now, poll)
  }

  // The sleep lasts until then, if that is at least a minute and no more than an hour or a poll away, and else the one
  // or the other of these.
  lemma SleepExactly(obs: seq<Obs>, currentEnd: Option<int>, now: int, poll: int, delay: int)
    returns (wake: int)
    ensures Wakes(obs, currentEnd, now, poll, delay, wake)
    ensures var sleep, most := NextSleep(obs, currentEnd, now, poll, delay), if poll < 3600 then 3600 else poll;
            && (60 <= wake - now <= most ==> sleep == wake - now)
            && (wake - now < 60 ==> sleep == 60) && (wake - now > most ==> sleep == most)
    ensures forall o: Obs :: Moment(o, now, poll) == match o.waitUntil case Some(t) => t case None => now + poll
  {
    EarliestIsLeast(obs, now, poll);
    EarliestIsSome(obs, now, poll);
    wake := match Earliest(obs, now, poll)
            case Some(t) => t
            case None => if currentEnd.Some? then currentEnd.value + delay else now + poll;
  }

  lemma {:induction false} EarliestIsSome(obs: seq<Obs>, now: int, poll: int)
    ensures Earliest(obs, now, poll).Some? ==>
              exists i :: 0 <= i < |obs| && !obs[i].done && Moment(obs[i], now, poll) == Earliest(obs, now, poll).value
  {
    if obs != [] {
      var init := obs[..|obs| - 1];
      EarliestIsSome(init, now, poll);
      if Earliest(init, now, poll).Some? {
        var i :| 0 <= i < |init| && !init[i].done && Moment(init[i], now, poll) == Earliest(init, now, poll).value;
        assert obs[i] == init[i];
      }
    }
  }

  lemma {:induction false} EarliestIsLeast(obs: seq<Obs>, now: int, poll: int)
    ensures forall i :: 0 <= i < |obs| && !obs[i].done ==>
                          Earliest(obs, now, poll).Some? && Earliest(obs, now, poll).value <= Moment(obs[i], now, poll)
  {
    if obs != [] { EarliestIsLeast(obs[..|obs| - 1], now, poll); }
  }
}
