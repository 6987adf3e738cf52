// Runs of the epoch daemon on which it does less than clif/epoch_auto.py says, for all answers that bring it about.
module EpochRuns {
  import opened Hex
  import Merkle
  import opened Fsp
  import opened AutoStates
  import opened EpochTraces
  import opened EpochAuto
  import S = SigningProgress

  // --- Our vote, seen and not seen ---------------------------------------------------------------------------

  ghost predicate SignedAfterVote(trace: seq<Act>, e: int) {
    exists i, j :: 0 <= i < j < |trace| && VoteAt(trace, e, i) && trace[j].LegOne? && trace[j].epoch == e
  }

  ghost predicate VoteAt(trace: seq<Act>, e: int, i: nat) {
    i < |trace| && trace[i].Looked? && trace[i].epoch == e && OurVoteShown(trace[i])
  }

  lemma VoteThenRequest(before: seq<Act>, more: seq<Act>, e: int)
    requires (exists i :: VoteAt(before, e, i)) && AskedIn(more, e)
    ensures SignedAfterVote(before + more, e)
  {
    var i :| VoteAt(before, e, i);
    var a :| a in more && a.LegOne? && a.epoch == e;
    var j :| 0 <= j < |more| && more[j] == a;
    assert VoteAt(before + more, e, i) && (before + more)[|before| + j] == a;
  }

  lemma VoteNoted(c: Scene, start: int, reached: int, before: seq<Act>, acts: seq<Act>, after: seq<Act>, e: int)
    requires Turned(c, start, reached, acts) && Taken(c, start, reached, e) && SeesOurVote(c.cfg, c.w.drives(e))
    ensures exists i :: VoteAt(before + acts + after, e, i)
  {
    hide DueForSigning, PastGuards, Escalates;
    var look := Look(e, c.w.drives(e));
    assert look in acts;
    var i :| 0 <= i < |acts| && acts[i] == look;
    assert (before + acts + after)[|before| + i] == look;
    assert VoteAt(before + acts + after, e, |before| + i);
  }

  lemma VoteWaits(cfg: Config, w: DriveWire, epoch: int, now: int, count: nat)
    requires SeesOurVote(cfg, w)
    ensures !Stops(cfg, w, epoch, now) && !Completes(cfg, w, epoch, now) && !Escalates(cfg, w, epoch, now, count)
  {}

  // On a window of one epoch on which we see our vote nothing stops, nothing is passed over, and nothing is put into a
  // cooldown.
  lemma WaitsForFinality(c: Scene, start: nat, reached: int, raised: bool, acts: seq<Act>)
    requires Turned(c, start, reached, acts) && Cut(c, start, start + 1, reached, raised)
    requires CooldownUntil(c.s, start) <= c.now && SeesOurVote(c.cfg, c.w.drives(start))
    ensures !raised && Terminal(start, c.now) !in acts && !ObsAt(c, start).done
  {
    hide Stops, Completes, Escalates, SeesOurVote, Retries;
    VoteWaits(c.cfg, c.w.drives(start), start, c.now, Retries(c.before, start));
  }

  // An epoch on which our vote was seen is signed again as soon as its answers say that it is open and unsigned: a
  // fresh daemon whose first cycle sees the vote and whose second does not.
  method SignAgain(cfg: Config, now: nat, later: nat, first: DriveWire, second: DriveWire) returns (d: Daemon)
    requires now <= later && SeesOurVote(cfg, first)
    requires DueForSigning(cfg, second, later) && PastGuards(cfg.K, 5, second.sign)
    ensures d.Valid() && d.cfg == cfg && SignedAfterVote(d.trace, 5)
  {
    hide Safe, Pending, Counted, Watched, Ahead, Window, Until, DueForSigning, PastGuards, SeesOurVote, Due, DrivenIn,
      Turned, Cut, SignedAfterVote, ObsAt, ClaimedFor, Retries;
    d := new Daemon(cfg, None);
    var w1, w2 := CycleWire(Got(6), _ => first), CycleWire(Got(6), _ => second);
    ghost var c := Scene(cfg, w1, d.state.At(cfg.key), [], now);
    var r, acts, released, k, reached := d.RunCycle(now, w1);
    WaitsForFinality(c, 5, reached, r.Raised?, acts);
    ghost var trace := d.trace;
    assert reached == 6 by { WindowEnds(c, 5, 6, reached, acts); }
    assert trace == [Cycle(6, 5)] + acts + released;
    VoteNoted(c, 5, 6, [Cycle(6, 5)], acts, released, 5);
    assert r.value[0] == ObsAt(c, 5 + 0);
    c := Scene(cfg, w2, d.state.At(cfg.key), trace, later);
    r, acts, released, k, reached := d.RunCycle(later, w2);
    FirstIsAsked(c, 5, 6, reached, r.Raised?, acts);
    AskedInBoth([Cycle(6, 5)], acts, 5);
    AskedInBoth([Cycle(6, 5)] + acts, released, 5);
    assert d.trace == trace + ([Cycle(6, 5)] + acts + released);
    VoteThenRequest(trace, [Cycle(6, 5)] + acts + released, 5);
  }

  lemma WindowEnds(c: Scene, start: int, current: int, reached: int, acts: seq<Act>)
    requires Cut(c, start, current, reached, false) && start <= current
    ensures reached == current
  {}

  lemma FirstIsAsked(c: Scene, start: int, current: int, reached: int, raised: bool, acts: seq<Act>)
    requires Turned(c, start, reached, acts) && Cut(c, start, current, reached, raised)
    requires Taken(c, start, current, start) && DueForSigning(c.cfg, c.w.drives(start), c.now)
    requires PastGuards(c.cfg.K, start, c.w.drives(start).sign)
    ensures AskedIn(acts, start)
  {
    hide DueForSigning, PastGuards, Escalates, Halts, AskedIn, Look, Retries, CooldownUntil;
    assert Taken(c, start, reached, start);
  }

  // our_signed_fn of the daemon: without a log node of its own, and on any refused read, the answer is no.
  function OurSigned(logNode: bool, refresh: S.Outcome<S.Progress>): bool {
    logNode && refresh.Done? && refresh.value.ourSigned
  }

  // While the view reverts because nobody has signed yet, the log's answer decides alone, and a refused log read is
  // as good as a log without our vote.
  lemma LogDecides(cfg: Config, w: DriveWire, logNode: bool, refresh: S.Outcome<S.Progress>)
    requires w.rewardsHash == Failed("rewards hash not signed yet") && !(cfg.uptime && w.uptime.Raised?)
    ensures var told := w.(events := Some(OurSigned(logNode, refresh)));
            && (SeesOurVote(cfg, told) <==> logNode && refresh.Done? && refresh.value.ourSigned)
            && (Seen(told) == Done(Sight(false, false)) <==> !logNode || refresh.Raised? || !refresh.value.ourSigned)
  {
    hide NotSignedYet;
    RevertText();
  }

  lemma RevertText()
    ensures NotSignedYet("rewards hash not signed yet")
  {
    var text, part := "rewards hash not signed yet", "not signed yet";
    assert Lower(text) == text;
    Inside(text, part, 13);
  }

  lemma Inside(text: string, part: string, i: nat)
    requires i + |part| <= |text| && text[i..i + |part|] == part
    ensures Contains(text, part)
  {
    assert StandsAt(text, part, i);
  }

  // Once another hash weighs more than the one we signed, a log that holds our vote answers that we have not signed.
  lemma OvertakenVoteIsDenied(cfg: Config, w: DriveWire, c: S.Chain, p: S.Progress, q: S.Progress)
    requires w.rewardsHash == Failed("rewards hash not signed yet") && !(cfg.uptime && w.uptime.Raised?)
    requires c.weight("0x01") == 1 && c.weight("0x02") == 2
    requires S.Reports(p, {S.Event(1, "0xaa", "0x01", false)}, c, Some("0x01"))
    requires S.Reports(q, {S.Event(1, "0xaa", "0x01", false), S.Event(2, "0xbb", "0x02", false)}, c, Some("0x01"))
    ensures SeesOurVote(cfg, w.(events := Some(OurSigned(true, S.Done(p)))))
    ensures Seen(w.(events := Some(OurSigned(true, S.Done(q))))) == Done(Sight(false, false))
  {
    S.OurVoteIsOvertaken(c, p, q);
    LogDecides(cfg, w, true, S.Done(p));
    LogDecides(cfg, w, true, S.Done(q));
  }

  // --- A drive that stops ------------------------------------------------------------------------------------

  // Epoch 5's rewardsHash read is refused for some other reason than that nobody has signed yet: however ready epoch 6
  // is, it is neither driven nor asked for in any of n cycles, each of which drives epoch 5 again, and the watermark
  // stays where it was.
  method StopBlocksLater(cfg: Config, refused: DriveWire, ready: DriveWire, times: nat -> nat, n: nat)
    returns (d: Daemon)
    requires refused.rewardsHash.Failed? && !NotSignedYet(refused.rewardsHash.message)
    ensures d.Valid() && d.cfg == cfg && d.lastDone == Some(4)
    ensures NeverTaken(d.trace, 6) && DrivenIn(d.trace) == seq(n, _ => 5)
  {
    hide Safe, Pending, Counted, Watched, Ahead, Window, Until, Due, DrivenIn, Turned, Cut, NeverTaken, NotSignedYet,
      Retries;
    d := new Daemon(cfg, Some(4));
    var w := CycleWire(Got(7), e => if e == 5 then refused else ready);
    NothingTaken(6);
    NothingDrivenIn([]);
    for i := 0 to n
      invariant fresh(d) && fresh(d.state) && d.Valid() && d.cfg == cfg && d.lastDone == Some(4)
      invariant CooldownUntil(d.state.At(cfg.key), 5) == 0 && NeverTaken(d.trace, 6)
      invariant DrivenIn(d.trace) == seq(i, _ => 5)
    {
      ghost var c := Scene(cfg, w, d.state.At(cfg.key), d.trace, times(i));
      var r, acts, released, k, reached := d.RunCycle(times(i), w);
      FirstStops(c, 5, 7, reached, r.Raised?, acts);
      StillNeverTaken(c.before, [Cycle(7, 5)], acts, released, 6);
      DrivenInCycle(c.before, [Cycle(7, 5)], acts, released);
      assert seq(i + 1, _ => 5) == seq(i, _ => 5) + [5];
    }
  }

  lemma {:induction false} DrivenInJoins(acts: seq<Act>, more: seq<Act>)
    ensures DrivenIn(acts + more) == DrivenIn(acts) + DrivenIn(more)
  {
    if more == [] {
      assert acts + more == acts;
    } else {
      assert (acts + more)[..|acts + more| - 1] == acts + more[..|more| - 1];
      DrivenInJoins(acts, more[..|more| - 1]);
    }
  }

  lemma {:induction false} NothingDrivenIn(acts: seq<Act>)
    requires forall a :: a in acts ==> !a.Drive?
    ensures DrivenIn(acts) == []
  {
    if acts != [] { NothingDrivenIn(acts[..|acts| - 1]); }
  }

  lemma DrivenInCycle(before: seq<Act>, cycle: seq<Act>, acts: seq<Act>, released: seq<Act>)
    requires (forall a :: a in cycle ==> a.Cycle?) && (forall a :: a in released ==> a.Released?)
    ensures DrivenIn(before + cycle + acts + released) == DrivenIn(before) + DrivenIn(acts)
  {
    NothingDrivenIn(cycle);
    NothingDrivenIn(released);
    DrivenInJoins(before, cycle);
    DrivenInJoins(before + cycle, acts);
    DrivenInJoins(before + cycle + acts, released);
  }

  ghost predicate NeverTaken(trace: seq<Act>, e: int) {
    !AskedIn(trace, e) && forall u :: Drive(e, u) !in trace
  }

  lemma NothingTaken(e: int)
    ensures NeverTaken([], e)
  {}

  lemma StillNeverTaken(before: seq<Act>, cycle: seq<Act>, acts: seq<Act>, released: seq<Act>, e: int)
    requires NeverTaken(before, e) && (forall a :: a in cycle ==> a.Cycle?) && NeverTaken(acts, e)
    requires forall a :: a in released ==> a.Released?
    ensures NeverTaken(before + cycle + acts + released, e)
  {
    AskedInBoth(before, cycle, e);
    AskedInBoth(before + cycle, acts, e);
    AskedInBoth(before + cycle + acts, released, e);
  }

  lemma FirstStops(c: Scene, start: int, current: int, reached: int, raised: bool, acts: seq<Act>)
    requires Turned(c, start, reached, acts) && Cut(c, start, current, reached, raised) && start < current
    requires var w := c.w.drives(start); w.rewardsHash.Failed? && !NotSignedYet(w.rewardsHash.message)
    requires CooldownUntil(c.s, start) <= c.now
    ensures raised && Terminal(start, c.now) !in acts && DrivenIn(acts) == [start]
    ensures forall e :: e > start ==> NeverTaken(acts, e)
  {
    hide NotSignedYet, Retries, CooldownUntil, PastGuards, AskedIn, Look, SomeClaimRaises, SignTerminal, SignRetryable,
      SignRaises, SignFinal;
    RefusedReadStops(c.cfg, c.w.drives(start), start, c.now);
    assert Due(start, start + 1, c.s, c.now) == [start] by { DueStep(start, start, c.s, c.now); }
    assert Taken(c, start, current, start) && Halts(c, start);
    assert reached == start + 1 by {
      hide Halts, Escalates;
      assert Taken(c, start, reached - 1, start) <==> start < reached - 1;
    }
  }

  // --- A cooldown that is lost -------------------------------------------------------------------------------

  ghost predicate DrivenAfter(trace: seq<Act>, e: int, at: int, later: int) {
    exists i, j :: 0 <= i < j < |trace| && trace[i] == Terminal(e, at) && trace[j] == Drive(e, later)
  }

  // A fresh daemon escalates epoch 5, then reads a current epoch of 5 or less, then 6 again: epoch 5 is driven although
  // its cooldown has not passed.
  method DrivenInCooldown(cfg: Config, now: nat, mid: nat, later: nat, low: nat, first: DriveWire, last: DriveWire)
    returns (d: Daemon)
    requires now <= mid <= later < now + cfg.cooldown && low <= 5
    requires Escalates(cfg, first, 5, now, 0)
    ensures d.Valid() && d.cfg == cfg && DrivenAfter(d.trace, 5, now, later) && later < now + cfg.cooldown
  {
    hide Safe, Pending, Counted, Watched, Ahead, Window, Until, Due, DrivenIn, Turned, Cut, ObsAt, ClaimedFor, Retries,
      Escalates, DrivenAfter;
    d := new Daemon(cfg, None);
    var w1, w2 := CycleWire(Got(6), _ => first), CycleWire(Got(low), _ => first);
    var w3 := CycleWire(Got(6), _ => last);
    ghost var c := Scene(cfg, w1, d.state.At(cfg.key), [], now);
    assert Retries([], 5) == 0 by { NoRetries(5); }
    var r, acts, released, k, reached := d.RunCycle(now, w1);
    OnlyEscalates(c, 5, reached, r.Raised?, acts);
    assert r.value[0] == ObsAt(c, 5 + 0);
    assert 5 in d.state.At(cfg.key).firstSeen && d.lastDone == Some(4);
    ghost var trace1 := d.trace;
    assert Terminal(5, now) in trace1;
    c := Scene(cfg, w2, d.state.At(cfg.key), d.trace, mid);
    r, acts, released, k, reached := d.RunCycle(mid, w2);
    NothingToDrive(c, 5, low, reached, r.Raised?, acts);
    assert CooldownUntil(d.state.At(cfg.key), 5) == 0 && d.lastDone == Some(4);
    ghost var trace2 := d.trace;
    c := Scene(cfg, w3, d.state.At(cfg.key), d.trace, later);
    r, acts, released, k, reached := d.RunCycle(later, w3);
    FirstIsDriven(c, 5, 6, reached, r.Raised?, acts);
    assert d.trace == trace2 + ([Cycle(6, 5)] + acts + released);
    IsDrivenAfter(trace2, [Cycle(6, 5)] + acts + released, 5, now, later);
  }

  lemma NoRetries(e: int)
    ensures Retries([], e) == 0
  {}

  // A drive that calls for an operator does not stop.
  lemma EscalatingDoesNotStop(cfg: Config, w: DriveWire, epoch: int, now: int, count: nat)
    requires Escalates(cfg, w, epoch, now, count)
    ensures !Stops(cfg, w, epoch, now) && !Completes(cfg, w, epoch, now)
  {
    hide Trustworthy, IsNonceTooLow, IsFinalizationRevert, IsAlreadySignedRevert, Sighting;
    if DueForSigning(cfg, w, now) { OneOutcome(cfg.K, epoch, w.sign); }
  }

  lemma OneOutcome(K: Merkle.Keccak, epoch: int, w: SignWire)
    ensures SignTerminal(K, epoch, w) || SignRetryable(K, epoch, w) ==> !SignFinal(K, epoch, w)
    ensures SignTerminal(K, epoch, w) || SignRetryable(K, epoch, w) || SignFinal(K, epoch, w) ==>
              !SignRaises(K, epoch, w)
  {
    hide IsNonceTooLow, IsFinalizationRevert, IsAlreadySignedRevert, Asks;
  }

  lemma OnlyEscalates(c: Scene, start: nat, reached: int, raised: bool, acts: seq<Act>)
    requires Turned(c, start, reached, acts) && Cut(c, start, start + 1, reached, raised)
    requires CooldownUntil(c.s, start) <= c.now
    requires Escalates(c.cfg, c.w.drives(start), start, c.now, Retries(c.before, start))
    ensures !raised && reached == start + 1 && Terminal(start, c.now) in acts && !ObsAt(c, start).done
  {
    hide Stops, Completes, Escalates, SeesOurVote, Retries, Begins, DueForSigning, PastGuards;
    EscalatingDoesNotStop(c.cfg, c.w.drives(start), start, c.now, Retries(c.before, start));
    assert Taken(c, start, reached, start);
  }

  lemma NothingToDrive(c: Scene, start: int, current: int, reached: int, raised: bool, acts: seq<Act>)
    requires Turned(c, start, reached, acts) && Cut(c, start, current, reached, raised) && current <= start
    ensures !raised && reached == start && forall e :: Terminal(e, c.now) !in acts
  {
    hide Halts, Escalates, Retries, DueForSigning, PastGuards, Look;
  }

  lemma FirstIsDriven(c: Scene, start: int, current: int, reached: int, raised: bool, acts: seq<Act>)
    requires Turned(c, start, reached, acts) && Cut(c, start, current, reached, raised)
    requires Taken(c, start, current, start)
    ensures Drive(start, c.now) in acts
  {
    hide DueForSigning, PastGuards, Escalates, Halts, AskedIn, Look, Retries, CooldownUntil;
    assert Taken(c, start, reached, start);
  }

  lemma IsDrivenAfter(before: seq<Act>, more: seq<Act>, e: int, at: int, later: int)
    requires Terminal(e, at) in before && Drive(e, later) in more
    ensures DrivenAfter(before + more, e, at, later)
  {
    var i :| 0 <= i < |before| && before[i] == Terminal(e, at);
    var j :| 0 <= j < |more| && more[j] == Drive(e, later);
    assert (before + more)[i] == Terminal(e, at) && (before + more)[|before| + j] == Drive(e, later);
  }
}
