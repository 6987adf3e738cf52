// clif/fsp.py: signing a reward epoch, from the guards in front of the first signature to the classified outcome.
module Fsp {
  import opened Hex
  import opened Merkle

  datatype Status =
    | NothingClaimable | SubmittedMined | SubmittedPending | MinedNoop
    | AlreadyFinalized | AlreadySigned | FailedRetryable | FailedTerminal

  datatype Message = RewardDistribution | Uptime

  // An RPC read: what it returned, or the text of the RpcError.
  datatype Answer<T> = Got(value: T) | Failed(message: string)

  // A signature asked of fwd; conflict is the error code idempotency_conflict, Broken an error of neither kind.
  datatype FwdAnswer = Signed | Denied(conflict: bool) | Transient | Broken

  // A call's outcome; Raised is an exception nobody caught.
  datatype Outcome<T> = Done(value: T) | Raised

  // reward-distribution-data.json.
  datatype RewardsData = RewardsData(epoch: int, claimCount: int, merkleRoot: string, claims: seq<Claim>)

  // What happens on the way, as far as safety depends on it.
  datatype Act =
    // A cycle begins: the current epoch was read, and the closed ones from start on are its window.
    | Cycle(epoch: int, start: nat)
    // An epoch is taken up.
    | Drive(epoch: int, at: int)
    // rewardsHash was read.
    | HashRead(epoch: int, nonzero: bool)
    // The answers on whether the epoch is final and signed by us: both reads and the event log, if there is one.
    | Looked(epoch: int, hash: Answer<bool>, info: Answer<bool>, events: Option<bool>)
    // A signature over the rewards hash was asked for, and one over a transaction.
    | LegOne(epoch: int, data: RewardsData, token: Option<string>)
    | LegTwo(epoch: int, data: RewardsData, token: Option<string>)
    | Broadcast(epoch: int)
    // The contract had finalized before us.
    | FinalizedRevert(epoch: int)
    | Retryable(epoch: int)
    | Terminal(epoch: int, at: int)
    // The epoch's cooldown was dropped.
    | Released(epoch: int, at: int)
    // A claim was run.
    | Claimed(epoch: int, claimType: int, beneficiary: string, status: Status)

  // --- Revert and rejection texts ----------------------------------------------------------------------------

  predicate StandsAt(text: string, part: string, i: int) {
    0 <= i <= |text| - |part| && text[i..i + |part|] == part
  }

  predicate Contains(text: string, part: string) {
    exists i | 0 <= i <= |text| :: StandsAt(text, part, i)
  }

  function FinalizationText(mt: Message): string {
    match mt
    case RewardDistribution => "rewards hash already signed"
    case Uptime => "uptime vote hash already signed"
  }

  predicate IsFinalizationRevert(mt: Message, reason: Option<string>) {
    reason.Some? && Contains(Lower(reason.value), Lower(FinalizationText(mt)))
  }

  predicate IsAlreadySignedRevert(reason: Option<string>) {
    reason.Some? && Contains(Lower(reason.value), "voter already signed")
  }

  lemma Mismatch(text: string, part: string, i: nat, k: nat)
    requires k < |part| && (i + |part| <= |text| ==> text[i + k] != part[k])
    ensures !StandsAt(text, part, i)
  {
    if i + |part| <= |text| { assert text[i..i + |part|][k] == text[i + k]; }
  }

  lemma NoVoterInside(text: string, mt: Message, i: nat)
    requires text == FinalizationText(mt) && i + 20 <= |text|
    ensures text[i] != 'v' || text[i + 4] != 'r'
    ensures LowerChar(text[i]) == text[i] && LowerChar(text[i + 4]) == text[i + 4]
  {
    match mt {
      case RewardDistribution =>
      case Uptime =>
    }
  }

  // The contract's own texts fall into one class each: the per-voter guard is never taken for finality.
  lemma GuardTextsAreDistinct(mt: Message)
    ensures !IsFinalizationRevert(mt, Some("voter already signed"))
    ensures !IsAlreadySignedRevert(Some(FinalizationText(mt)))
  {
    hide FinalizationText;
    LongerThanVoterGuard(mt);
    var text, part := Lower(FinalizationText(mt)), "voter already signed";
    forall i | 0 <= i <= |text|
      ensures !StandsAt(text, part, i)
    {
      if i + 20 <= |text| {
        NoVoterInside(FinalizationText(mt), mt, i);
        if FinalizationText(mt)[i] != 'v' { Mismatch(text, part, i, 0); } else { Mismatch(text, part, i, 4); }
      }
    }
  }

  lemma LongerThanVoterGuard(mt: Message)
    ensures |FinalizationText(mt)| > 20
  {}

  // The wordings by which a node rejects a stale nonce.
  predicate IsNonceTooLow(message: string) {
    Contains(Lower(message), "nonce too low") || Contains(Lower(message), "nonce too small")
      || Contains(Lower(message), "tx nonce too low")
  }

  // Somewhere in the text, in any case of its letters, stands the part.
  ghost predicate Says(text: string, part: string) {
    exists i: nat :: SaysAt(text, part, i)
  }

  ghost predicate SaysAt(text: string, part: string, i: nat) {
    i + |part| <= |text| && forall k :: 0 <= k < |part| ==> LowerChar(text[i + k]) == part[k]
  }

  lemma SaysIsContains(text: string, part: string)
    ensures Contains(Lower(text), part) <==> Says(text, part)
  {
    var low := Lower(text);
    forall i: nat
      ensures StandsAt(low, part, i) <==> SaysAt(text, part, i)
    {
      if i + |part| <= |text| {
        var slice := low[i..i + |part|];
        assert forall k :: 0 <= k < |part| ==> slice[k] == LowerChar(text[i + k]);
      }
    }
    if Contains(low, part) { var i :| 0 <= i <= |low| && StandsAt(low, part, i); }
    if Says(text, part) { var i: nat :| SaysAt(text, part, i); }
  }

  // The texts that are recognised, each for its own message.
  lemma TextsExactly(text: string)
    ensures IsFinalizationRevert(RewardDistribution, Some(text)) <==> Says(text, "rewards hash already signed")
    ensures IsFinalizationRevert(Uptime, Some(text)) <==> Says(text, "uptime vote hash already signed")
    ensures IsAlreadySignedRevert(Some(text)) <==> Says(text, "voter already signed")
    ensures IsNonceTooLow(text) <==> Says(text, "nonce too low") || Says(text, "nonce too small")
  {
    hide Contains, Says;
    assert Lower("rewards hash already signed") == "rewards hash already signed";
    assert Lower("uptime vote hash already signed") == "uptime vote hash already signed";
    SaysIsContains(text, "rewards hash already signed");
    SaysIsContains(text, "uptime vote hash already signed");
    SaysIsContains(text, "voter already signed");
    SaysIsContains(text, "nonce too low");
    SaysIsContains(text, "nonce too small");
    SaysIsContains(text, "tx nonce too low");
    NonceEither(text);
  }

  lemma NonceEither(text: string)
    ensures Says(text, "tx nonce too low") ==> Says(text, "nonce too low")
  {
    if i: nat :| SaysAt(text, "tx nonce too low", i) {
      forall k | 0 <= k < 13
        ensures LowerChar(text[i + 3 + k]) == "nonce too low"[k]
      {
        assert "tx nonce too low"[3 + k] == "nonce too low"[k];
      }
      assert SaysAt(text, "nonce too low", i + 3);
    }
  }

  // Neither finality text is taken for the other's.
  lemma MessagesAreDistinct()
    ensures !Says("uptime vote hash already signed", "rewards hash already signed")
    ensures !Says("rewards hash already signed", "uptime vote hash already signed")
  {
    var text, part := "uptime vote hash already signed", "rewards hash already signed";
    assert |text| == 31 && |part| == 27;
    assert !Says(part, text);
    assert text[..5] == "uptim" && part[0] == 'r';
    forall i: nat | i <= 4
      ensures !SaysAt(text, part, i)
    {
      assert LowerChar(text[i + 0]) == text[..5][i] != part[0];
    }
    assert forall i: nat :: SaysAt(text, part, i) ==> i <= 4;
  }

  // --- Broadcast and receipt ---------------------------------------------------------------------------------

  // receipt: None when polling timed out, else whether the transaction succeeded.
  datatype Submission = Submission(sent: Answer<()>, receipt: Answer<Option<bool>>, reason: Option<string>)

  predicate Reverts(w: Submission) {
    w.sent.Got? && w.receipt == Got(Some(false))
  }

  lemma NoReason(mt: Message)
    ensures !IsFinalizationRevert(mt, None) && !IsAlreadySignedRevert(None)
  {}

  method BroadcastAndConfirm(mt: Message, epoch: int, w: Submission) returns (r: Outcome<Status>, acts: seq<Act>)
    ensures acts == (if w.sent.Failed? then [] else [Broadcast(epoch)]) +
                    (if r == Done(AlreadyFinalized) then [FinalizedRevert(epoch)] else [])
    ensures r == Raised <==> w.sent.Got? && w.receipt.Failed?
    ensures r == Done(FailedRetryable) <==> w.sent.Failed? && IsNonceTooLow(w.sent.message)
    ensures r == Done(FailedTerminal) <==>
              || (w.sent.Failed? && !IsNonceTooLow(w.sent.message))
              || (Reverts(w) && !IsFinalizationRevert(mt, w.reason) && !IsAlreadySignedRevert(w.reason))
    ensures r == Done(SubmittedPending) <==> w.sent.Got? && w.receipt == Got(None)
    ensures r == Done(SubmittedMined) <==> w.sent.Got? && w.receipt == Got(Some(true))
    ensures r == Done(AlreadyFinalized) <==> Reverts(w) && IsFinalizationRevert(mt, w.reason)
    ensures r == Done(AlreadySigned) <==>
              Reverts(w) && !IsFinalizationRevert(mt, w.reason) && IsAlreadySignedRevert(w.reason)
    ensures r.Done? ==> r.value !in {NothingClaimable, MinedNoop}
    // With the contract's and the node's own words.
    ensures r == Done(AlreadyFinalized) <==>
              && Reverts(w) && w.reason.Some?
              && Says(w.reason.value,
                      if mt.Uptime? then "uptime vote hash already signed" else "rewards hash already signed")
    ensures r == Done(AlreadySigned) <==>
              && Reverts(w) && r != Done(AlreadyFinalized) && w.reason.Some?
              && Says(w.reason.value, "voter already signed")
    ensures r == Done(FailedRetryable) <==>
              && w.sent.Failed?
              && (Says(w.sent.message, "nonce too low") || Says(w.sent.message, "nonce too small"))
  {
    if w.reason.Some? { TextsExactly(w.reason.value); }
    if w.sent.Failed? { TextsExactly(w.sent.message); }
    NoReason(mt);
    hide IsFinalizationRevert, IsAlreadySignedRevert, IsNonceTooLow, Says;
    if w.sent.Failed? {
      return Done(if IsNonceTooLow(w.sent.message) then FailedRetryable else FailedTerminal), [];
    }
    acts := [Broadcast(epoch)];
    match w.receipt {
      case Failed(_) => return Raised, acts;
      case Got(None) => return Done(SubmittedPending), acts;
      case Got(Some(ok)) =>
        if !ok {
          if IsFinalizationRevert(mt, w.reason) { return Done(AlreadyFinalized), acts + [FinalizedRevert(epoch)]; }
          return Done(if IsAlreadySignedRevert(w.reason) then AlreadySigned else FailedTerminal), acts;
        }
    }
    return Done(SubmittedMined), acts;
  }

  // --- Reward signing ----------------------------------------------------------------------------------------

  // The file is bound to the epoch, and a claim list, if there is one, rehashes to the root that is to be signed.
  predicate Trustworthy(K: Keccak, data: RewardsData, epoch: int) {
    data.epoch == epoch &&
    (data.claims != [] ==> Root(K, data.claims).Some? && Lower(Root(K, data.claims).value) == Lower(data.merkleRoot))
  }

  datatype SignWire = SignWire(
    configured: bool, file: Option<RewardsData>, rewardsHash: Answer<bool>, legOne: FwdAnswer, fees: Answer<()>,
    legTwo: FwdAnswer, submission: Submission)

  predicate Asks(w: SignWire) {
    !(w.rewardsHash.Got? && w.rewardsHash.value)
  }

  // A claim of the file cannot be encoded.
  predicate Malformed(K: Keccak, epoch: int, w: SignWire) {
    && w.configured && w.file.Some? && w.file.value.epoch == epoch && w.file.value.claims != []
    && Root(K, w.file.value.claims).None?
  }

  predicate PastGuards(K: Keccak, epoch: int, w: SignWire) {
    w.configured && w.file.Some? && Trustworthy(K, w.file.value, epoch) && Asks(w)
  }

  // The second signature is asked for.
  predicate AsksTwice(K: Keccak, epoch: int, w: SignWire) {
    PastGuards(K, epoch, w) && w.legOne.Signed? && w.fees.Got?
  }

  // The signed transaction is handed to the node.
  predicate Submits(K: Keccak, epoch: int, w: SignWire) {
    AsksTwice(K, epoch, w) && w.legTwo.Signed?
  }

  // --- What becomes of a run --------------------------------------------------------------------------------

  // An exception that nobody catches: in the guards, from fwd, or on reading the receipt.
  predicate SignRaises(K: Keccak, epoch: int, w: SignWire) {
    || Malformed(K, epoch, w)
    || (PastGuards(K, epoch, w) && w.legOne.Broken?)
    || (AsksTwice(K, epoch, w) && w.legTwo.Broken?)
    || (Submits(K, epoch, w) && w.submission.sent.Got? && w.submission.receipt.Failed?)
  }

  // Finality is shown, before the first signature or by the contract's refusal.
  predicate SignFinal(K: Keccak, epoch: int, w: SignWire) {
    || (w.configured && w.file.Some? && Trustworthy(K, w.file.value, epoch) && !Asks(w))
    || (Submits(K, epoch, w) && Reverts(w.submission) && IsFinalizationRevert(RewardDistribution, w.submission.reason))
  }

  predicate SignRetryable(K: Keccak, epoch: int, w: SignWire) {
    || (PastGuards(K, epoch, w) && (w.legOne.Transient? || (w.legOne.Signed? && w.fees.Failed?)))
    || (AsksTwice(K, epoch, w) && w.legTwo in {Transient, Denied(true)})
    || (Submits(K, epoch, w) && w.submission.sent.Failed? && IsNonceTooLow(w.submission.sent.message))
  }

  predicate SignTerminal(K: Keccak, epoch: int, w: SignWire) {
    || !w.configured || w.file.None?
    || (!Trustworthy(K, w.file.value, epoch) && !Malformed(K, epoch, w))
    || (PastGuards(K, epoch, w) && w.legOne.Denied?)
    || (AsksTwice(K, epoch, w) && w.legTwo == Denied(false))
    || (Submits(K, epoch, w) && w.submission.sent.Failed? && !IsNonceTooLow(w.submission.sent.message))
    || (Submits(K, epoch, w) && Reverts(w.submission) && !IsAlreadySignedRevert(w.submission.reason) &&
        !IsFinalizationRevert(RewardDistribution, w.submission.reason))
  }

  // What a signing run comes to.
  ghost predicate ComesTo(K: Keccak, epoch: int, w: SignWire, r: Outcome<Status>) {
    && (r == Raised <==> SignRaises(K, epoch, w))
    && (r == Done(AlreadyFinalized) <==> SignFinal(K, epoch, w))
    && (r == Done(FailedRetryable) <==> SignRetryable(K, epoch, w))
    && (r == Done(FailedTerminal) <==> SignTerminal(K, epoch, w))
    && (r == Done(SubmittedMined) <==>
        Submits(K, epoch, w) && w.submission.sent.Got? && w.submission.receipt == Got(Some(true)))
    && (r == Done(SubmittedPending) <==>
        Submits(K, epoch, w) && w.submission.sent.Got? && w.submission.receipt == Got(None))
    && (r == Done(AlreadySigned) <==>
        Submits(K, epoch, w) && Reverts(w.submission) && IsAlreadySignedRevert(w.submission.reason) &&
        !IsFinalizationRevert(RewardDistribution, w.submission.reason))
    && (r.Done? ==> r.value !in {NothingClaimable, MinedNoop})
  }

  // The same for the part behind the guards.
  ghost predicate LegsComeTo(w: SignWire, r: Outcome<Status>) {
    var twice := w.legOne.Signed? && w.fees.Got?;
    var submits := twice && w.legTwo.Signed?;
    && (r == Raised <==>
        || w.legOne.Broken? || (twice && w.legTwo.Broken?)
        || (submits && w.submission.sent.Got? && w.submission.receipt.Failed?))
    && (r == Done(AlreadyFinalized) <==>
        submits && Reverts(w.submission) && IsFinalizationRevert(RewardDistribution, w.submission.reason))
    && (r == Done(FailedRetryable) <==>
        || w.legOne.Transient? || (w.legOne.Signed? && w.fees.Failed?)
        || (twice && w.legTwo in {Transient, Denied(true)})
        || (submits && w.submission.sent.Failed? && IsNonceTooLow(w.submission.sent.message)))
    && (r == Done(FailedTerminal) <==>
        || w.legOne.Denied? || (twice && w.legTwo == Denied(false))
        || (submits && w.submission.sent.Failed? && !IsNonceTooLow(w.submission.sent.message))
        || (submits && Reverts(w.submission) && !IsAlreadySignedRevert(w.submission.reason) &&
            !IsFinalizationRevert(RewardDistribution, w.submission.reason)))
    && (r == Done(SubmittedMined) <==>
        submits && w.submission.sent.Got? && w.submission.receipt == Got(Some(true)))
    && (r == Done(SubmittedPending) <==>
        submits && w.submission.sent.Got? && w.submission.receipt == Got(None))
    && (r == Done(AlreadySigned) <==>
        submits && Reverts(w.submission) && IsAlreadySignedRevert(w.submission.reason) &&
        !IsFinalizationRevert(RewardDistribution, w.submission.reason))
    && (r.Done? ==> r.value !in {NothingClaimable, MinedNoop})
  }

  lemma BehindTheGuards(K: Keccak, epoch: int, w: SignWire, r: Outcome<Status>)
    requires PastGuards(K, epoch, w) && LegsComeTo(w, r)
    ensures ComesTo(K, epoch, w, r)
  {
    hide Trustworthy, IsNonceTooLow, IsFinalizationRevert, IsAlreadySignedRevert, Root, Malformed, Reverts;
    AtTheGuards(K, epoch, w);
  }

  lemma StoppedByGuards(K: Keccak, epoch: int, w: SignWire, r: Outcome<Status>)
    requires !PastGuards(K, epoch, w) && (r == Raised <==> Malformed(K, epoch, w))
    requires r == Done(AlreadyFinalized) <==>
               w.configured && w.file.Some? && Trustworthy(K, w.file.value, epoch) && !Asks(w)
    requires r in {Done(AlreadyFinalized), Done(FailedTerminal), Raised}
    ensures ComesTo(K, epoch, w, r)
  {
    hide Trustworthy, IsNonceTooLow, IsFinalizationRevert, IsAlreadySignedRevert, Root, Malformed, Reverts;
    AtTheGuards(K, epoch, w);
  }

  // Everything before the first request to fwd that can end the run.
  method Guards(K: Keccak, epoch: int, w: SignWire) returns (r: Option<Outcome<Status>>, acts: seq<Act>)
    ensures r.None? <==> PastGuards(K, epoch, w)
    ensures r == Some(Done(AlreadyFinalized)) <==>
              w.configured && w.file.Some? && Trustworthy(K, w.file.value, epoch) && !Asks(w)
    ensures r == Some(Raised) <==> Malformed(K, epoch, w)
    ensures r.Some? ==> r.value in {Done(AlreadyFinalized), Done(FailedTerminal), Raised}
    ensures acts == if (r.None? || r == Some(Done(AlreadyFinalized))) && w.rewardsHash.Got?
                    then [HashRead(epoch, w.rewardsHash.value)] else []
  {
    if !w.configured || w.file.None? { return Some(Done(FailedTerminal)), []; }
    var data := w.file.value;
    if data.epoch != epoch { return Some(Done(FailedTerminal)), []; }
    if data.claims != [] {
      var root := BuildRewardMerkleRoot(K, data.claims);
      if root.None? { return Some(Raised), []; }
      if Lower(root.value) != Lower(data.merkleRoot) { return Some(Done(FailedTerminal)), []; }
    }
    match w.rewardsHash {
      case Got(nonzero) => return if nonzero then Some(Done(AlreadyFinalized)) else None, [HashRead(epoch, nonzero)];
      case Failed(_) => return None, [];
    }
  }

  method RunSignRewards(K: Keccak, epoch: int, token: Option<string>, w: SignWire)
    returns (r: Outcome<Status>, acts: seq<Act>)
    // A signature is asked for exactly when every guard passes, over the file that passed them, under the given token.
    ensures forall a :: a in acts && a.LegOne? ==>
                          w.file.Some? && a == LegOne(epoch, w.file.value, token) && Trustworthy(K, w.file.value, epoch)
    ensures (exists a :: a in acts && a.LegOne?) <==> PastGuards(K, epoch, w)
    ensures forall i :: 0 <= i < |acts| && (acts[i].LegTwo? || acts[i].Broadcast? || acts[i].FinalizedRevert?) ==>
                          exists j :: 0 <= j < i && acts[j].LegOne?
    ensures forall a :: a in acts && a.LegTwo? ==> w.file.Some? && a == LegTwo(epoch, w.file.value, token)
    // Each outcome arises in exactly its circumstances.
    ensures ComesTo(K, epoch, w, r)
    ensures r == Done(AlreadyFinalized) <==> HashRead(epoch, true) in acts || FinalizedRevert(epoch) in acts
    ensures Broadcast(epoch) in acts <==> Submits(K, epoch, w) && w.submission.sent.Got?
    ensures forall a :: a in acts ==>
              a.epoch == epoch && (a.LegOne? || a.LegTwo? || a.HashRead? || a.Broadcast? || a.FinalizedRevert?)
  {
    hide Trustworthy, Malformed, Root, ComesTo, LegsComeTo;
    var stop;
    stop, acts := Guards(K, epoch, w);
    if stop.Some? {
      StoppedByGuards(K, epoch, w, stop.value);
      return stop.value, acts;
    }
    var legs;
    r, legs := AskAndSubmit(epoch, token, w);
    BehindTheGuards(K, epoch, w, r);
    assert legs[0].LegOne?;
    var before := acts;
    acts := before + legs;
    assert forall i :: 0 <= i < |legs| ==> acts[|before| + i] == legs[i];
  }

  lemma AtTheGuards(K: Keccak, epoch: int, w: SignWire)
    ensures Malformed(K, epoch, w) ==> w.configured && w.file.Some? && !PastGuards(K, epoch, w)
  {}

  // What the requests to fwd and the submission come to.
  method AskAndSubmit(epoch: int, token: Option<string>, w: SignWire) returns (r: Outcome<Status>, acts: seq<Act>)
    requires w.file.Some?
    ensures acts != [] && acts[0] == LegOne(epoch, w.file.value, token)
    ensures forall i :: 0 < i < |acts| ==>
                          acts[i] in {LegTwo(epoch, w.file.value, token), Broadcast(epoch), FinalizedRevert(epoch)}
    ensures LegsComeTo(w, r)
    ensures r == Done(AlreadyFinalized) <==> FinalizedRevert(epoch) in acts
    ensures Broadcast(epoch) in acts <==>
              w.legOne.Signed? && w.fees.Got? && w.legTwo.Signed? && w.submission.sent.Got?
  {
    hide IsNonceTooLow, IsFinalizationRevert, IsAlreadySignedRevert;
    acts := [LegOne(epoch, w.file.value, token)];
    if w.legOne.Broken? { return Raised, acts; }
    if !w.legOne.Signed? { return Done(if w.legOne.Transient? then FailedRetryable else FailedTerminal), acts; }
    if w.fees.Failed? { return Done(FailedRetryable), acts; }
    acts := acts + [LegTwo(epoch, w.file.value, token)];
    if w.legTwo.Broken? { return Raised, acts; }
    if !w.legTwo.Signed? {
      return Done(if w.legTwo.Transient? || w.legTwo.conflict then FailedRetryable else FailedTerminal), acts;
    }
    var more;
    r, more := BroadcastAndConfirm(RewardDistribution, epoch, w.submission);
    acts := acts + more;
  }
}
