// What the epoch daemon of clif/epoch_auto.py has done so far, and which act may come next.
module EpochTraces {
  import opened Hex
  import opened Merkle
  import opened Fsp

  const MAX_REWARD_SIGN_RETRIES := 3

  datatype Config = Config(
    K: Keccak, key: string, base: Option<string>, cooldown: nat, delay: int, uptime: bool, claimers: seq<(int, string)>)

  // --- Retry tokens ------------------------------------------------------------------------------------------

  function Decimal(n: nat): (s: string)
    ensures s != ""
  {
    if n < 10 then [Digit(n)] else Decimal(n / 10) + [Digit(n % 10)]
  }

  lemma {:induction false} DecimalInjective(m: nat, n: nat)
    requires Decimal(m) == Decimal(n)
    ensures m == n
  {
    var s, t := Decimal(m), Decimal(n);
    assert HexValue(s[|s| - 1]) == Some(m % 10) && HexValue(t[|t| - 1]) == Some(n % 10);
    if m >= 10 && n >= 10 {
      assert s[..|s| - 1] == Decimal(m / 10) && t[..|t| - 1] == Decimal(n / 10);
      DecimalInjective(m / 10, n / 10);
    }
  }

  function SignRetryToken(base: Option<string>, count: nat): Option<string> {
    if count == 0 then base
    else if base.Some? && base.value != "" then Some(base.value + "-r" + Decimal(count))
    else Some("r" + Decimal(count))
  }

  // No two counts share a token, whatever the configured base.
  lemma TokensDiffer(base: Option<string>, m: nat, n: nat)
    requires m != n
    ensures SignRetryToken(base, m) != SignRetryToken(base, n)
  {
    var prefix := if base.Some? && base.value != "" then base.value + "-r" else "r";
    assert (prefix + Decimal(m))[|prefix|..] == Decimal(m);
    assert (prefix + Decimal(n))[|prefix|..] == Decimal(n);
    if Decimal(m) == Decimal(n) { DecimalInjective(m, n); }
  }

  // The number that decimal digits stand for.
  function Reading(s: string): nat {
    if s == "" then 0
    else 10 * Reading(s[..|s| - 1]) + if s[|s| - 1] in "0123456789" then (s[|s| - 1] as int - '0' as int) else 0
  }

  // A count is written in decimal digits, without a zero in front.
  lemma {:induction false} DecimalReads(n: nat)
    ensures Reading(Decimal(n)) == n && (n > 0 ==> Decimal(n)[0] != '0')
    ensures forall i :: 0 <= i < |Decimal(n)| ==> Decimal(n)[i] in "0123456789"
  {
    DigitIsDecimal(n % 10);
    var s := Decimal(n);
    if n >= 10 {
      DecimalReads(n / 10);
      assert s[..|s| - 1] == Decimal(n / 10);
    } else {
      assert s[..0] == "";
    }
  }

  lemma DigitIsDecimal(d: nat)
    requires d < 10
    ensures Digit(d) in "0123456789" && Digit(d) as int - '0' as int == d
  {
    assert "0123456789"[d] == Digit(d);
  }

  // The configured token for a fresh epoch; then the count behind an r, and behind the token if one is configured.
  lemma TokenExactly(base: string, count: nat)
    requires count > 0
    ensures SignRetryToken(None, 0) == None && SignRetryToken(Some(base), 0) == Some(base)
    ensures SignRetryToken(None, count) == SignRetryToken(Some(""), count) == Some("r" + Decimal(count))
    ensures base != "" ==> SignRetryToken(Some(base), count) == Some(base + "-r" + Decimal(count))
  {}

  // --- Is the epoch final, and have we signed? ---------------------------------------------------------------

  datatype Sight = Sight(finalized: bool, signed: bool)

  predicate NotSignedYet(message: string) {
    Contains(Lower(message), "not signed yet")
  }

  // Both reads, or the event log when either reverts because nobody has signed yet.
  function Sighting(hash: Answer<bool>, info: Answer<bool>, events: Option<bool>): Outcome<Sight> {
    match (hash, info)
    case (Got(nonzero), Got(signed)) => Done(Sight(nonzero, signed))
    case (Got(_), Failed(m)) => if NotSignedYet(m) then Done(Sight(false, events == Some(true))) else Raised
    case (Failed(m), _) => if NotSignedYet(m) then Done(Sight(false, events == Some(true))) else Raised
  }

  predicate Unsigned(a: Act)
    requires a.Looked?
  {
    Sighting(a.hash, a.info, a.events) == Done(Sight(false, false))
  }

  predicate OurVoteShown(a: Act)
    requires a.Looked?
  {
    Sighting(a.hash, a.info, a.events).Done? && Sighting(a.hash, a.info, a.events).value.signed
  }

  // An epoch counts as open and not signed by us in three cases.  A log read that fails, or that reports on a hash
  // we did not sign, is a "no" like any other: events is then Some(false).
  lemma UnsignedExactly(a: Act)
    requires a.Looked?
    ensures Unsigned(a) <==>
              || (a.hash == Got(false) && a.info == Got(false))
              || (a.hash.Failed? && NotSignedYet(a.hash.message) && a.events != Some(true))
              || (a.hash.Got? && a.info.Failed? && NotSignedYet(a.info.message) && a.events != Some(true))
  {}

  lemma NotSignedYetExactly(message: string)
    ensures NotSignedYet(message) <==> Says(message, "not signed yet")
  {
    SaysIsContains(message, "not signed yet");
  }

  // The answers under which an epoch counts as final, as signed by us and not final, and under which the look raises.
  lemma SightExactly(hash: Answer<bool>, info: Answer<bool>, events: Option<bool>)
    ensures var s := Sighting(hash, info, events);
            var reverts := || (hash.Failed? && Says(hash.message, "not signed yet"))
                           || (hash.Got? && info.Failed? && Says(info.message, "not signed yet"));
            && (s.Done? && s.value.finalized <==> hash == Got(true) && info.Got?)
            && (s.Done? && s.value.signed <==> (hash.Got? && info == Got(true)) || (reverts && events == Some(true)))
            && (s.Raised? <==> !(hash.Got? && info.Got?) && !reverts)
  {
    hide Says, NotSignedYet;
    if hash.Failed? { NotSignedYetExactly(hash.message); }
    if info.Failed? { NotSignedYetExactly(info.message); }
  }

  // --- What a trace says -------------------------------------------------------------------------------------

  ghost function Retries(trace: seq<Act>, e: int): nat {
    if trace == [] then 0
    else Retries(trace[..|trace| - 1], e) + if trace[|trace| - 1] == Retryable(e) then 1 else 0
  }

  // A third retryable failure that has not been escalated yet.
  ghost predicate Pending(trace: seq<Act>) {
    trace != [] && trace[|trace| - 1].Retryable? && Retries(trace, trace[|trace| - 1].epoch) >= MAX_REWARD_SIGN_RETRIES
  }

  // Until when the epoch is to be left alone: a cooldown after its escalation, unless that was dropped.
  ghost function Until(cfg: Config, trace: seq<Act>, e: int): int {
    if trace == [] then 0
    else
      var before, a := Until(cfg, trace[..|trace| - 1], e), trace[|trace| - 1];
      if a.Terminal? && a.epoch == e then (if before < a.at + cfg.cooldown then a.at + cfg.cooldown else before)
      else if a.Released? && a.epoch == e then 0
      else before
  }

  datatype Span = Span(start: int, current: int)

  // The latest cycle's window.
  ghost function Window(trace: seq<Act>): Span {
    if trace == [] then Span(0, 0)
    else
      var a := trace[|trace| - 1];
      if a.Cycle? then Span(a.start, a.epoch) else Window(trace[..|trace| - 1])
  }

  ghost predicate InWindow(trace: seq<Act>, e: int) {
    Window(trace).start <= e < Window(trace).current
  }

  // Since the latest drive was taken up, the latest look was at this epoch, and found it open and unsigned.
  ghost predicate JustUnsigned(trace: seq<Act>, e: int) {
    trace != [] &&
    var a := trace[|trace| - 1];
    if a.Looked? then a.epoch == e && Unsigned(a) else !a.Drive? && JustUnsigned(trace[..|trace| - 1], e)
  }

  // --- What may happen next ----------------------------------------------------------------------------------

  ghost predicate Allowed(cfg: Config, trace: seq<Act>, a: Act) {
    && (Pending(trace) ==> a.Terminal? && a.epoch == trace[|trace| - 1].epoch)
    && match a
       // A window falls back only with the epoch counter.
       case Cycle(current, start) => 0 <= current && (Window(trace).current <= current ==> Window(trace).start <= start)
       case Drive(e, t) => InWindow(trace, e) && Until(cfg, trace, e) <= t
       case LegOne(e, d, t) =>
         Trustworthy(cfg.K, d, e) && t == SignRetryToken(cfg.base, Retries(trace, e)) && JustUnsigned(trace, e)
       case Terminal(e, _) => InWindow(trace, e)
       // A cooldown that still runs is dropped only outside the window.
       case Released(e, t) => InWindow(trace, e) ==> Until(cfg, trace, e) <= t
       case Claimed(e, _, _, _) => HashRead(e, true) in trace || FinalizedRevert(e) in trace
       case _ => true
  }

  ghost predicate Safe(cfg: Config, trace: seq<Act>) {
    trace == [] || (Safe(cfg, trace[..|trace| - 1]) && Allowed(cfg, trace[..|trace| - 1], trace[|trace| - 1]))
  }

  lemma {:induction false} SafeAt(cfg: Config, trace: seq<Act>, i: nat)
    requires Safe(cfg, trace) && i < |trace|
    ensures Safe(cfg, trace[..i]) && Allowed(cfg, trace[..i], trace[i])
  {
    var init := trace[..|trace| - 1];
    if i < |trace| - 1 {
      SafeAt(cfg, init, i);
      assert init[..i] == trace[..i];
    }
  }

  lemma RetriesStep(trace: seq<Act>, a: Act, e: int)
    ensures Retries(trace + [a], e) == Retries(trace, e) + if a == Retryable(e) then 1 else 0
  {
    assert (trace + [a])[..|trace|] == trace;
  }

  lemma UntilStep(cfg: Config, trace: seq<Act>, a: Act, e: int)
    ensures var before, later := Until(cfg, trace, e), Until(cfg, trace + [a], e);
            if a.Terminal? && a.epoch == e
            then later == if before < a.at + cfg.cooldown then a.at + cfg.cooldown else before
            else later == if a.Released? && a.epoch == e then 0 else before
  {
    assert (trace + [a])[..|trace|] == trace;
  }

  lemma WindowStep(trace: seq<Act>, a: Act)
    ensures Window(trace + [a]) == if a.Cycle? then Span(a.start, a.epoch) else Window(trace)
  {
    assert (trace + [a])[..|trace|] == trace;
  }

  lemma SafeStep(cfg: Config, trace: seq<Act>, a: Act)
    requires Safe(cfg, trace) && Allowed(cfg, trace, a)
    ensures Safe(cfg, trace + [a])
  {
    assert (trace + [a])[..|trace|] == trace;
  }

  lemma {:induction false} RetriesGrow(trace: seq<Act>, i: nat, j: nat, e: int)
    requires i <= j <= |trace|
    ensures Retries(trace[..i], e) <= Retries(trace[..j], e)
    ensures (exists k :: i <= k < j && trace[k] == Retryable(e)) ==> Retries(trace[..i], e) < Retries(trace[..j], e)
    decreases j
  {
    if i < j {
      RetriesGrow(trace, i, j - 1, e);
      assert trace[..j][..j - 1] == trace[..j - 1];
    }
  }

  // --- What every run keeps ----------------------------------------------------------------------------------

  // No claim before the network's finality was shown: a nonzero rewardsHash, or the contract's own refusal.
  lemma {:induction false} ClaimedAfterFinality(cfg: Config, trace: seq<Act>, i: nat)
    requires Safe(cfg, trace) && i < |trace| && trace[i].Claimed?
    ensures exists j :: 0 <= j < i && trace[j] in {HashRead(trace[i].epoch, true), FinalizedRevert(trace[i].epoch)}
  {
    SafeAt(cfg, trace, i);
    var e := trace[i].epoch;
    var seen := if HashRead(e, true) in trace[..i] then HashRead(e, true) else FinalizedRevert(e);
    var j :| 0 <= j < i && trace[..i][j] == seen;
    assert trace[j] == seen;
  }

  // No rewards signature is asked for in a drive that saw our vote: between the latest look, which found the epoch
  // open and unsigned, and the request there is no other look and no other drive.
  lemma {:induction false} SignatureFollowsItsLook(cfg: Config, trace: seq<Act>, j: nat)
    requires Safe(cfg, trace) && j < |trace| && trace[j].LegOne?
    ensures exists k :: 0 <= k < j && LooksUnsigned(trace, k, j)
  {
    SafeAt(cfg, trace, j);
    var k := LatestLook(trace[..j], trace[j].epoch);
    assert trace[..j][k] == trace[k];
    assert LooksUnsigned(trace, k, j) by {
      assert forall m :: k < m < j ==> trace[m] == trace[..j][m];
    }
  }

  // The look at k found open and unsigned the epoch of the act at j, which belongs to the same drive.
  ghost predicate LooksUnsigned(trace: seq<Act>, k: nat, j: nat)
    requires k < j < |trace|
  {
    && trace[k].Looked? && trace[k].epoch == trace[j].epoch && Unsigned(trace[k])
    && forall m :: k < m < j ==> !trace[m].Looked? && !trace[m].Drive?
  }

  lemma {:induction false} LatestLook(trace: seq<Act>, e: int) returns (k: nat)
    requires JustUnsigned(trace, e)
    ensures k < |trace| && trace[k].Looked? && trace[k].epoch == e && Unsigned(trace[k])
    ensures forall m :: k < m < |trace| ==> !trace[m].Looked? && !trace[m].Drive?
  {
    k := |trace| - 1;
    if !trace[k].Looked? {
      ghost var init := trace[..k];
      k := LatestLook(init, e);
    }
  }

  // A request after our vote was seen means that a later look of that epoch did not show it any more.
  lemma {:induction false} SignatureAfterOurVote(cfg: Config, trace: seq<Act>, i: nat, j: nat)
    requires Safe(cfg, trace) && i < j < |trace| && trace[j].LegOne?
    requires trace[i].Looked? && trace[i].epoch == trace[j].epoch && OurVoteShown(trace[i])
    ensures exists k :: i < k < j && LooksUnsigned(trace, k, j)
  {
    SignatureFollowsItsLook(cfg, trace, j);
  }

  // Every signature is asked for over a file of that epoch whose claims, if any, rehash to its root.
  lemma {:induction false} SignaturesAreBound(cfg: Config, trace: seq<Act>, i: nat)
    requires Safe(cfg, trace) && i < |trace| && trace[i].LegOne?
    ensures trace[i].data.epoch == trace[i].epoch
    ensures trace[i].data.claims != [] ==>
              Root(cfg.K, trace[i].data.claims).Some? &&
              Lower(Root(cfg.K, trace[i].data.claims).value) == Lower(trace[i].data.merkleRoot)
  {
    SafeAt(cfg, trace, i);
  }

  // After a retryable failure the next request runs under a token that was never used for the epoch.
  lemma {:induction false} TokensAreFresh(cfg: Config, trace: seq<Act>, i: nat, k: nat, j: nat)
    requires Safe(cfg, trace) && i < k < j < |trace|
    requires trace[i].LegOne? && trace[j].LegOne? && trace[i].epoch == trace[j].epoch
    requires trace[k] == Retryable(trace[j].epoch)
    ensures trace[i].token != trace[j].token
  {
    SafeAt(cfg, trace, i);
    SafeAt(cfg, trace, j);
    RetriesGrow(trace, i, j, trace[j].epoch);
    TokensDiffer(cfg.base, Retries(trace[..i], trace[i].epoch), Retries(trace[..j], trace[j].epoch));
  }

  // A third retryable failure is escalated at once.
  lemma {:induction false} ThirdFailureIsEscalated(cfg: Config, trace: seq<Act>, i: nat)
    requires Safe(cfg, trace) && i + 1 < |trace| && trace[i].Retryable?
    requires Retries(trace[..i], trace[i].epoch) >= 2
    ensures trace[i + 1].Terminal? && trace[i + 1].epoch == trace[i].epoch
  {
    SafeAt(cfg, trace, i + 1);
    assert trace[..i + 1][..i] == trace[..i];
  }

  // An escalated epoch is left alone for its cooldown, as long as the cooldown is not dropped.
  lemma {:induction false} EscalatedIsLeftAlone(cfg: Config, trace: seq<Act>, i: nat, j: nat)
    requires Safe(cfg, trace) && i < j < |trace| && trace[i].Terminal? && trace[j].Drive?
    requires trace[i].epoch == trace[j].epoch
    requires forall k :: i < k < j ==> !(trace[k].Released? && trace[k].epoch == trace[j].epoch)
    ensures trace[j].at >= trace[i].at + cfg.cooldown
  {
    SafeAt(cfg, trace, j);
    UntilLasts(cfg, trace, i, j);
  }

  lemma {:induction false} UntilLasts(cfg: Config, trace: seq<Act>, i: nat, j: nat)
    requires i < j <= |trace| && trace[i].Terminal?
    requires forall k :: i < k < j ==> !(trace[k].Released? && trace[k].epoch == trace[i].epoch)
    ensures Until(cfg, trace[..j], trace[i].epoch) >= trace[i].at + cfg.cooldown
    decreases j
  {
    assert trace[..j][..j - 1] == trace[..j - 1];
    if i < j - 1 { UntilLasts(cfg, trace, i, j - 1); }
  }

  // --- On an epoch counter and a clock that do not run backwards ----------------------------------------------

  ghost predicate Forward(trace: seq<Act>) {
    && (forall i, j :: 0 <= i < j < |trace| && trace[i].Cycle? && trace[j].Cycle? ==> trace[i].epoch <= trace[j].epoch)
    && (forall i, j :: 0 <= i < j < |trace| && Timed(trace[i]) && Timed(trace[j]) ==> trace[i].at <= trace[j].at)
  }

  predicate Timed(a: Act) {
    a.Drive? || a.Terminal? || a.Released?
  }

  lemma {:induction false} ForwardWindows(cfg: Config, trace: seq<Act>, i: nat, j: nat)
    requires Safe(cfg, trace) && Forward(trace) && i <= j <= |trace|
    ensures Window(trace[..i]).start <= Window(trace[..j]).start
    ensures Window(trace[..i]).current <= Window(trace[..j]).current
    decreases j
  {
    if i < j {
      ForwardWindows(cfg, trace, i, j - 1);
      SafeAt(cfg, trace, j - 1);
      assert trace[..j][..j - 1] == trace[..j - 1];
      WindowIsACycles(trace, j - 1);
    }
  }

  lemma {:induction false} WindowIsACycles(trace: seq<Act>, j: nat)
    requires j <= |trace|
    ensures Window(trace[..j]) == Span(0, 0) ||
            exists i :: 0 <= i < j && trace[i].Cycle? && Window(trace[..j]) == Span(trace[i].start, trace[i].epoch)
  {
    if j > 0 {
      assert trace[..j][..j - 1] == trace[..j - 1];
      WindowIsACycles(trace, j - 1);
    }
  }

  // Then an escalated epoch is left alone for its whole cooldown: what is dropped has expired, or lies below every
  // window to come.
  lemma {:induction false} ForwardEscalation(cfg: Config, trace: seq<Act>, i: nat, j: nat)
    requires Safe(cfg, trace) && Forward(trace) && i < j < |trace| && trace[i].Terminal? && trace[j].Drive?
    requires trace[i].epoch == trace[j].epoch
    ensures trace[j].at >= trace[i].at + cfg.cooldown
  {
    DropsDoNotMatter(cfg, trace, i, j, i + 1);
  }

  lemma {:induction false} DropsDoNotMatter(cfg: Config, trace: seq<Act>, i: nat, j: nat, k: nat)
    requires Safe(cfg, trace) && Forward(trace) && i < k <= j < |trace| && trace[i].Terminal? && trace[j].Drive?
    requires trace[i].epoch == trace[j].epoch
    requires forall m :: i < m < k ==> !(trace[m].Released? && trace[m].epoch == trace[j].epoch)
    ensures trace[j].at >= trace[i].at + cfg.cooldown
    decreases j - k
  {
    if k == j {
      EscalatedIsLeftAlone(cfg, trace, i, j);
    } else if trace[k].Released? && trace[k].epoch == trace[j].epoch {
      SafeAt(cfg, trace, i);
      SafeAt(cfg, trace, k);
      SafeAt(cfg, trace, j);
      UntilLasts(cfg, trace, i, k);
      ForwardWindows(cfg, trace, i, k);
      ForwardWindows(cfg, trace, k, j);
      assert Timed(trace[k]) && Timed(trace[j]);
    } else {
      DropsDoNotMatter(cfg, trace, i, j, k + 1);
    }
  }
}
