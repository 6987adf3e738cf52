// clif/discovery.py: looking one beneficiary's claim up in the published reward file.
module Discovery {
  import opened Hex
  import opened Merkle

  // reward-distribution-data-tuples.json: the published root and the claims with their proofs.
  datatype RewardsFile = RewardsFile(merkleRoot: string, entries: seq<Entry>)
  datatype Entry = Entry(proof: seq<string>, claim: Claim)

  // Raised is the ValueError of a malformed address or hash on the way.
  datatype Lookup = Missing | Raised | Found(entry: Entry)

  predicate IsFor(e: Entry, beneficiary: string, claimType: int) {
    Lower(e.claim.beneficiary) == Lower(beneficiary) && e.claim.claimType == claimType
  }

  // The first entry for the beneficiary and claim type decides.
  function LookedUp(K: Keccak, entries: seq<Entry>, root: string, beneficiary: string, claimType: int): Lookup {
    if entries == [] then Missing
    else if !IsFor(entries[0], beneficiary, claimType) then LookedUp(K, entries[1..], root, beneficiary, claimType)
    else
      match ComputeLeaf(K, entries[0].claim)
      case None => Raised
      case Some(leaf) =>
        match Verdict(K, leaf, entries[0].proof, root)
        case None => Raised
        case Some(ok) => if ok then Found(entries[0]) else Missing
  }

  // The file is None when it cannot be fetched; rewardsHash is the hash on chain.
  method RewardClaimFor(K: Keccak, file: Option<RewardsFile>, rewardsHash: string, beneficiary: string, claimType: int)
    returns (r: Lookup)
    ensures r == if file.Some? && Lower(file.value.merkleRoot) == Lower(rewardsHash)
                 then LookedUp(K, file.value.entries, file.value.merkleRoot, beneficiary, claimType) else Missing
  {
    if file.None? || Lower(file.value.merkleRoot) != Lower(rewardsHash) { return Missing; }
    var entries, root := file.value.entries, file.value.merkleRoot;
    assert entries[0..] == entries;
    for k := 0 to |entries|
      invariant LookedUp(K, entries, root, beneficiary, claimType) ==
                LookedUp(K, entries[k..], root, beneficiary, claimType)
    {
      assert entries[k..][1..] == entries[k + 1..];
      var e := entries[k];
      if IsFor(e, beneficiary, claimType) {
        var leaf := ComputeLeaf(K, e.claim);
        if leaf.None? { return Raised; }
        var ok := VerifyProof(K, leaf.value, e.proof, root);
        if ok.None? { return Raised; }
        return if ok.value then Found(e) else Missing;
      }
    }
    return Missing;
  }

  // An entry is for a beneficiary and claim type if it names both, in any case of the letters.
  lemma IsForExactly(e: Entry, beneficiary: string, claimType: int)
    ensures IsFor(e, beneficiary, claimType) <==>
              && e.claim.claimType == claimType && |e.claim.beneficiary| == |beneficiary|
              && forall i :: 0 <= i < |beneficiary| ==>
                               LowerChar(e.claim.beneficiary[i]) == LowerChar(beneficiary[i])
  {
    var a, b := Lower(e.claim.beneficiary), Lower(beneficiary);
    assert |a| == |e.claim.beneficiary| && |b| == |beneficiary|;
    if IsFor(e, beneficiary, claimType) { assert forall i :: 0 <= i < |b| ==> a[i] == b[i]; }
  }

  // No entry matches, or the first one that does decides: found if its proof is accepted, missing if it is rejected,
  // and raised if it cannot be checked.
  lemma {:induction false} FirstMatchDecides(K: Keccak, entries: seq<Entry>, root: string, beneficiary: string,
                                             claimType: int, k: nat)
    requires k <= |entries| && forall j :: 0 <= j < k ==> !IsFor(entries[j], beneficiary, claimType)
    requires k < |entries| ==> IsFor(entries[k], beneficiary, claimType)
    ensures var r := LookedUp(K, entries, root, beneficiary, claimType);
            if k == |entries| then r == Missing
            else
              var leaf := ComputeLeaf(K, entries[k].claim);
              && (r == Raised <==> leaf.None? || Verdict(K, leaf.value, entries[k].proof, root).None?)
              && (r == Found(entries[k]) <==> Proven(K, entries[k].claim, entries[k].proof, root))
              && (r == Missing <==>
                  leaf.Some? && Verdict(K, leaf.value, entries[k].proof, root) == Some(false))
  {
    if k > 0 { FirstMatchDecides(K, entries[1..], root, beneficiary, claimType, k - 1); }
  }

  lemma {:induction false} FoundIsProven(K: Keccak, entries: seq<Entry>, root: string, beneficiary: string,
                                         claimType: int)
    requires LookedUp(K, entries, root, beneficiary, claimType).Found?
    ensures var e := LookedUp(K, entries, root, beneficiary, claimType).entry;
            e in entries && IsFor(e, beneficiary, claimType) && Proven(K, e.claim, e.proof, root)
  {
    if !IsFor(entries[0], beneficiary, claimType) {
      FoundIsProven(K, entries[1..], root, beneficiary, claimType);
    }
  }

  // The claim is one of the list, and says of that beneficiary what an entry says.
  ghost predicate Genuine(claims: seq<Claim>, e: Entry, beneficiary: string, claimType: int) {
    exists c | c in claims ::
      && BodyOf(c).Some? && BodyOf(c) == BodyOf(e.claim)
      && Some(BodyOf(c).value.address) == AddressOf(beneficiary) && BodyOf(c).value.claimType == claimType
  }

  // When the hash on chain is the root of a nonempty list of claims, a claim that is found for a beneficiary is that
  // beneficiary's in the list, or two different strings with one hash are computed from it, one hashed in checking its
  // proof and one in building the tree.
  lemma FoundClaimIsGenuine(
    K: Keccak, claims: seq<Claim>, rewardsHash: string, file: RewardsFile, beneficiary: string, claimType: int)
    returns (p: Bytes, q: Bytes)
    requires claims != [] && Root(K, claims).Some? && Lower(Root(K, claims).value) == Lower(rewardsHash)
    requires Lower(file.merkleRoot) == Lower(rewardsHash)
    requires LookedUp(K, file.entries, file.merkleRoot, beneficiary, claimType).Found?
    ensures var e := LookedUp(K, file.entries, file.merkleRoot, beneficiary, claimType).entry;
            BodyOf(e.claim).Some? &&
            (Genuine(claims, e, beneficiary, claimType) ||
             Collides(K, p, PathInputs(K, e.claim, e.proof), q, TreeInputs(K, claims)))
  {
    hide PathInputs, TreeInputs, Collides, Root;
    FoundIsProven(K, file.entries, file.merkleRoot, beneficiary, claimType);
    var e := LookedUp(K, file.entries, file.merkleRoot, beneficiary, claimType).entry;
    if BodyOf(e.claim).value in Bodies(claims) {
      p, q := [], [];
    } else {
      p, q := AcceptedProofIsSound(K, claims, e.claim, e.proof, file.merkleRoot);
    }
  }

  // So unless Keccak-256 collides between these finitely many strings, what is found is genuine.
  lemma FoundClaimIsListed(
    K: Keccak, claims: seq<Claim>, rewardsHash: string, file: RewardsFile, e: Entry, beneficiary: string,
    claimType: int)
    requires claims != [] && Root(K, claims).Some? && Lower(Root(K, claims).value) == Lower(rewardsHash)
    requires Lower(file.merkleRoot) == Lower(rewardsHash)
    requires LookedUp(K, file.entries, file.merkleRoot, beneficiary, claimType) == Found(e)
    requires BodyOf(e.claim).Some? ==> Apart(K, PathInputs(K, e.claim, e.proof), TreeInputs(K, claims))
    ensures Genuine(claims, e, beneficiary, claimType)
  {
    hide PathInputs, TreeInputs, Genuine, Root, LookedUp;
    var p, q := FoundClaimIsGenuine(K, claims, rewardsHash, file, beneficiary, claimType);
  }

  // A file whose entries for the beneficiary and claim type start with an honest one - a claim of the list behind the
  // hash on chain, with the sibling path of its leaf - is answered with that entry.
  lemma HonestEntryIsFound(
    K: Keccak, claims: seq<Claim>, rewardsHash: string, file: RewardsFile, k: nat, beneficiary: string, claimType: int)
    requires Root(K, claims).Some? && Lower(Root(K, claims).value) == Lower(rewardsHash) == Lower(file.merkleRoot)
    requires k < |file.entries| && IsFor(file.entries[k], beneficiary, claimType)
    requires forall j | 0 <= j < k :: !IsFor(file.entries[j], beneficiary, claimType)
    requires file.entries[k].claim in claims && SiblingPath(K, claims, file.entries[k].claim, file.entries[k].proof)
    ensures LookedUp(K, file.entries, file.merkleRoot, beneficiary, claimType) == Found(file.entries[k])
  {
    hide SiblingPath, Root, Proven;
    SiblingPathIsProven(K, claims, file.entries[k].claim, file.entries[k].proof, file.merkleRoot);
    ProvenEntryIsFound(K, file.entries, k, file.merkleRoot, beneficiary, claimType);
  }

  lemma {:induction false} ProvenEntryIsFound(
    K: Keccak, entries: seq<Entry>, k: nat, root: string, beneficiary: string, claimType: int)
    requires k < |entries| && IsFor(entries[k], beneficiary, claimType)
    requires forall j | 0 <= j < k :: !IsFor(entries[j], beneficiary, claimType)
    requires Proven(K, entries[k].claim, entries[k].proof, root)
    ensures LookedUp(K, entries, root, beneficiary, claimType) == Found(entries[k])
  {
    if k > 0 { ProvenEntryIsFound(K, entries[1..], k - 1, root, beneficiary, claimType); }
  }
}
