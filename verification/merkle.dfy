// clif/merkle.py: the reward-distribution Merkle tree, its leaves, root and proofs.
//
// Keccak-256 stays abstract here: K is any function from byte strings to 32 bytes. What the tree
// promises rests on collisions of K being out of reach, so each soundness result computes one.
module Merkle {
  import opened Hex
  import H = HeapTree

  type Bytes = seq<Byte>
  type Hash = h: Bytes | |h| == 32 witness seq(32, _ => 0)
  type Keccak = Bytes -> Hash

  ghost predicate Collision(K: Keccak, p: Bytes, q: Bytes) {
    p != q && K(p) == K(q)
  }

  // ----- digests as text

  // A computed hash as the source writes it: "0x" and 64 lower-case digits.
  function Text(h: Hash): string {
    "0x" + ToHex(h)
  }

  // The bytes that node() reads out of a string: from_hex(s[2:]), or None where it raises.
  function Payload(s: string): Option<Bytes> {
    FromHex(if |s| < 2 then "" else s[2..])
  }

  lemma TextPayload(h: Hash)
    ensures |Text(h)| == 66 && Payload(Text(h)) == Some(h) && Lower(Text(h)) == Text(h) && Text(h)[..2] == "0x"
  {
    HexRoundTrip(h);
    HexIsLower(h);
    assert Text(h)[2..] == ToHex(h);
    forall i | 0 <= i < 66
      ensures LowerChar(Text(h)[i]) == Text(h)[i]
    {
      if i >= 2 { assert Text(h)[i] == ToHex(h)[i - 2]; }
    }
  }

  // ----- static ABI encoding in 32-byte words

  function BigEndian(v: nat, n: nat): (r: Bytes)
    ensures |r| == n
  {
    if n == 0 then [] else BigEndian(v / 256, n - 1) + [v % 256]
  }

  ghost function Pow256(n: nat): nat
    decreases n
  {
    if n == 0 then 1 else 256 * Pow256(n - 1)
  }

  lemma {:induction false} BigEndianInjective(v: nat, w: nat, n: nat)
    requires v < Pow256(n) && w < Pow256(n) && BigEndian(v, n) == BigEndian(w, n)
    ensures v == w
  {
    if n > 0 {
      assert BigEndian(v, n)[..n - 1] == BigEndian(v / 256, n - 1) &&
             BigEndian(w, n)[..n - 1] == BigEndian(w / 256, n - 1);
      assert BigEndian(v, n)[n - 1] == v % 256 && BigEndian(w, n)[n - 1] == w % 256;
      BigEndianInjective(v / 256, w / 256, n - 1);
    }
  }

  lemma {:induction false} Pow256Grows(m: nat, n: nat)
    requires m <= n
    ensures Pow256(m) <= Pow256(n)
  {
    if m < n { Pow256Grows(m, n - 1); }
  }

  function PadRight(b: Bytes): (r: Bytes)
    requires |b| <= 32
    ensures |r| == 32
  {
    b + seq(32 - |b|, _ => 0)
  }

  // A claim after the source's int() and str() conversions.
  datatype Claim = Claim(epoch: int, beneficiary: string, amount: int, claimType: int)

  // What a claim says once its address is read as bytes.
  datatype Body = Body(epoch: nat, address: Bytes, amount: nat, claimType: nat)

  function AddressOf(beneficiary: string): Option<Bytes> {
    var s := Lower(beneficiary);
    match FromHex(if "0x" <= s then s[2..] else s)
    case Some(b) => if |b| == 20 then Some(b) else None
    case None => None
  }

  // (uint24, bytes20, uint120, uint8); None is the ValueError of a malformed address or the
  // encoder's refusal of a number out of range.
  function BodyOf(c: Claim): Option<Body> {
    match AddressOf(c.beneficiary)
    case None => None
    case Some(a) =>
      if 0 <= c.epoch < 0x100_0000 && 0 <= c.amount < 0x100_0000_0000_0000_0000_0000_0000_0000 &&
           0 <= c.claimType < 0x100
      then Some(Body(c.epoch, a, c.amount, c.claimType))
      else None
  }

  predicate InRange(b: Body) {
    && b.epoch < 0x100_0000 && |b.address| == 20
    && b.amount < 0x100_0000_0000_0000_0000_0000_0000_0000 && b.claimType < 0x100
  }

  function Encoding(b: Body): (r: Bytes)
    requires InRange(b)
    ensures |r| == 128
  {
    BigEndian(b.epoch, 32) + PadRight(b.address) + BigEndian(b.amount, 32) + BigEndian(b.claimType, 32)
  }

  lemma EncodingInjective(b: Body, c: Body)
    requires InRange(b) && InRange(c) && Encoding(b) == Encoding(c)
    ensures b == c
  {
    var e, f := Encoding(b), Encoding(c);
    assert e[..32] == BigEndian(b.epoch, 32) && f[..32] == BigEndian(c.epoch, 32);
    assert e[32..52] == b.address && f[32..52] == c.address;
    assert e[64..96] == BigEndian(b.amount, 32) && f[64..96] == BigEndian(c.amount, 32);
    assert e[96..] == BigEndian(b.claimType, 32) && f[96..] == BigEndian(c.claimType, 32);
    WordRange();
    BigEndianInjective(b.epoch, c.epoch, 32);
    BigEndianInjective(b.amount, c.amount, 32);
    BigEndianInjective(b.claimType, c.claimType, 32);
  }

  lemma WordRange()
    ensures 0x100_0000_0000_0000_0000_0000_0000_0000 <= Pow256(32)
  {
    assert Pow256(4) == 0x1_0000_0000;
    assert Pow256(8) == 0x1_0000_0000_0000_0000;
    assert Pow256(12) == 0x1_0000_0000_0000_0000_0000_0000;
    assert Pow256(15) == 0x100_0000_0000_0000_0000_0000_0000_0000;
    Pow256Grows(15, 32);
  }

  // The number that bytes stand for, the highest first.
  function Reading(bs: Bytes): nat {
    if bs == [] then 0 else 256 * Reading(bs[..|bs| - 1]) + bs[|bs| - 1]
  }

  lemma {:induction false} WordReads(v: nat, n: nat)
    requires v < Pow256(n)
    ensures Reading(BigEndian(v, n)) == v
  {
    if n > 0 { WordReads(v / 256, n - 1); }
  }

  // What the 128 bytes say: the epoch in the first word, the address at the start of the second with zeros behind it,
  // the amount in the third, the claim type in the fourth.
  lemma EncodingReads(b: Body)
    requires InRange(b)
    ensures var e := Encoding(b);
            && |e| == 128 && Reading(e[..32]) == b.epoch
            && e[32..52] == b.address && (forall i :: 52 <= i < 64 ==> e[i] == 0)
            && Reading(e[64..96]) == b.amount && Reading(e[96..]) == b.claimType
  {
    var e := Encoding(b);
    WordRange();
    WordReads(b.epoch, 32);
    WordReads(b.amount, 32);
    WordReads(b.claimType, 32);
    assert e[..32] == BigEndian(b.epoch, 32) && e[64..96] == BigEndian(b.amount, 32);
    assert e[96..] == BigEndian(b.claimType, 32) && e[32..64] == PadRight(b.address);
    assert forall i :: 52 <= i < 64 ==> e[i] == e[32..64][i - 32];
  }

  // A claim has a leaf exactly if its address is 20 bytes and its numbers fit 3, 15 and 1 bytes.
  lemma BodyExactly(c: Claim)
    ensures BodyOf(c).Some? <==>
              && AddressOf(c.beneficiary).Some? && 0 <= c.epoch < Pow256(3) && 0 <= c.amount < Pow256(15)
              && 0 <= c.claimType < Pow256(1)
    ensures BodyOf(c).Some? ==>
              var b := BodyOf(c).value;
              && b.epoch == c.epoch && Some(b.address) == AddressOf(c.beneficiary) && b.amount == c.amount
              && b.claimType == c.claimType && InRange(b)
  {
    assert Pow256(1) == 0x100 && Pow256(3) == 0x100_0000;
    assert Pow256(4) == 0x1_0000_0000;
    assert Pow256(8) == 0x1_0000_0000_0000_0000;
    assert Pow256(12) == 0x1_0000_0000_0000_0000_0000_0000;
    assert Pow256(15) == 0x100_0000_0000_0000_0000_0000_0000_0000;
  }

  // An address is 20 bytes in hexadecimal, with or without 0x in front.
  lemma AddressReads(b: Bytes)
    ensures AddressOf(ToHex(b)) == AddressOf("0x" + ToHex(b)) == if |b| == 20 then Some(b) else None
  {
    hide ToHex, FromHex;
    var s, t := ToHex(b), "0x" + ToHex(b);
    HexRoundTrip(b);
    HexIsLower(b);
    LowerBehind(s);
    assert t[2..] == s && "0x" <= t;
    NoPrefix(b);
  }

  lemma LowerBehind(s: string)
    requires Lower(s) == s
    ensures Lower("0x" + s) == "0x" + s
  {
    var t := "0x" + s;
    forall i | 0 <= i < |t|
      ensures Lower(t)[i] == t[i]
    {
      if i >= 2 { assert t[i] == s[i - 2] && LowerChar(s[i - 2]) == Lower(s)[i - 2]; }
    }
  }

  lemma NoPrefix(b: Bytes)
    ensures !("0x" <= ToHex(b))
  {
    if b != [] { ToHexAt(b, 0); }
  }

  function ComputeLeaf(K: Keccak, c: Claim): Option<string> {
    match BodyOf(c)
    case None => None
    case Some(b) => Some(Text(K(Encoding(b))))
  }

  // ----- internal nodes

  // The leaf of a claim hashes 128 bytes in which its fields are read back.
  lemma LeafReads(K: Keccak, c: Claim) returns (e: Bytes)
    requires BodyOf(c).Some?
    ensures ComputeLeaf(K, c) == Some(Text(K(e))) && |e| == 128
    ensures Reading(e[..32]) == c.epoch && Some(e[32..52]) == AddressOf(c.beneficiary)
    ensures forall i :: 52 <= i < 64 ==> e[i] == 0
    ensures Reading(e[64..96]) == c.amount && Reading(e[96..]) == c.claimType
  {
    hide Encoding, Reading;
    BodyExactly(c);
    e := Encoding(BodyOf(c).value);
    EncodingReads(BodyOf(c).value);
  }

  // The 64 bytes hashed for the pair (x, y), the lower of the two texts first; None where it raises.
  function Preimage(x: string, y: string): Option<Bytes> {
    var (a, b) := if LexLeq(Lower(x), Lower(y)) then (x, y) else (y, x);
    match (Payload(a), Payload(b))
    case (Some(p), Some(q)) => if |p| <= 32 && |q| <= 32 then Some(PadRight(p) + PadRight(q)) else None
    case _ => None
  }

  function Node(K: Keccak, x: string, y: string): Option<string> {
    match Preimage(x, y)
    case Some(p) => Some(Text(K(p)))
    case None => None
  }

  ghost predicate IsDigest(s: string) {
    exists h: Hash :: s == Text(h)
  }

  // The bytes of a digest.
  ghost function Decoded(s: string): (h: Hash)
    requires IsDigest(s)
    ensures s == Text(h) && Payload(s) == Some(h)
  {
    var h: Hash :| s == Text(h);
    TextPayload(h);
    h
  }

  // Two digests always combine, in either order to the same node, over 64 bytes that are theirs.
  lemma NodeOfDigests(K: Keccak, x: string, y: string)
    requires IsDigest(x) && IsDigest(y)
    ensures Node(K, x, y).Some? && IsDigest(Node(K, x, y).value)
    ensures Node(K, x, y) == Node(K, y, x)
    ensures Preimage(x, y) == Some(Decoded(x) + Decoded(y)) || Preimage(x, y) == Some(Decoded(y) + Decoded(x))
  {
    var g, h := Decoded(x), Decoded(y);
    TextPayload(g);
    TextPayload(h);
    LexTotal(x, y);
    assert PadRight(g) == g && PadRight(h) == h;
  }

  // ----- the leaves

  function LeavesOf(K: Keccak, claims: seq<Claim>): Option<seq<string>> {
    if claims == [] then Some([])
    else
      match (ComputeLeaf(K, claims[0]), LeavesOf(K, claims[1..]))
      case (Some(l), Some(rest)) => Some([l] + rest)
      case _ => None
  }

  // sorted(set(leaves)).
  function SortedUnique(xs: seq<string>): seq<string> {
    if xs == [] then [] else Inserted(xs[0], SortedUnique(xs[1..]))
  }

  function Inserted(x: string, s: seq<string>): seq<string> {
    if s == [] then [x]
    else if x == s[0] then s
    else if LexLeq(x, s[0]) then [x] + s
    else [s[0]] + Inserted(x, s[1..])
  }

  ghost predicate Ascending(s: seq<string>) {
    forall i, j | 0 <= i < j < |s| :: LexLeq(s[i], s[j]) && s[i] != s[j]
  }

  ghost function Elements(s: seq<string>): set<string> {
    set x | x in s
  }

  lemma {:induction false} InsertedSorts(x: string, s: seq<string>)
    requires Ascending(s)
    ensures Ascending(Inserted(x, s)) && Elements(Inserted(x, s)) == {x} + Elements(s)
  {
    if s != [] && x != s[0] {
      if LexLeq(x, s[0]) {
        LeastFirst(x, s);
      } else {
        InsertedSorts(x, s[1..]);
        InsertedBehind(x, s);
      }
    }
  }

  lemma LeastFirst(x: string, s: seq<string>)
    requires Ascending(s) && s != [] && x != s[0] && LexLeq(x, s[0])
    ensures Ascending([x] + s) && Elements([x] + s) == {x} + Elements(s)
  {
    hide LexLeq;
    forall j | 0 <= j < |s|
      ensures LexLeq(x, s[j]) && x != s[j]
    {
      if j > 0 {
        LexTransitive(x, s[0], s[j]);
        LexTotal(s[0], s[j]);
        LexTotal(x, s[0]);
      }
    }
  }

  lemma InsertedBehind(x: string, s: seq<string>)
    requires Ascending(s) && s != [] && x != s[0] && !LexLeq(x, s[0])
    requires Ascending(Inserted(x, s[1..])) && Elements(Inserted(x, s[1..])) == {x} + Elements(s[1..])
    ensures var r := [s[0]] + Inserted(x, s[1..]); Ascending(r) && Elements(r) == {x} + Elements(s)
  {
    hide LexLeq, Inserted;
    var rest := Inserted(x, s[1..]);
    LexTotal(x, s[0]);
    assert Elements(s) == {s[0]} + Elements(s[1..]);
    assert Elements([s[0]] + rest) == {s[0]} + Elements(rest);
    forall j | 0 <= j < |rest|
      ensures LexLeq(s[0], rest[j]) && s[0] != rest[j]
    {
      assert rest[j] in Elements(rest);
    }
  }

  lemma {:induction false} SortedUniqueSorts(xs: seq<string>)
    ensures Ascending(SortedUnique(xs)) && Elements(SortedUnique(xs)) == Elements(xs)
  {
    if xs != [] {
      SortedUniqueSorts(xs[1..]);
      InsertedSorts(xs[0], SortedUnique(xs[1..]));
      assert Elements(xs) == {xs[0]} + Elements(xs[1..]);
    }
  }

  lemma NoElements(s: seq<string>)
    ensures Elements(s) == {} ==> s == []
  {
    if s != [] { assert s[0] in Elements(s); }
  }

  lemma {:induction false} AscendingUnique(s: seq<string>, t: seq<string>)
    requires Ascending(s) && Ascending(t) && Elements(s) == Elements(t)
    ensures s == t
  {
    if s == [] {
      NoElements(t);
    } else {
      assert s[0] in Elements(t) && t[0] in Elements(s);
      LexTotal(s[0], t[0]);
      assert s[0] == t[0];
      assert Elements(s[1..]) == Elements(s) - {s[0]};
      assert Elements(t[1..]) == Elements(t) - {t[0]};
      AscendingUnique(s[1..], t[1..]);
    }
  }

  // ----- the tree

  // Of two digests the one that is smaller in the first byte where they differ is hashed first.
  lemma PairInOrder(K: Keccak, g: Hash, h: Hash, k: nat)
    ensures Preimage(Text(g), Text(g)) == Some(g + g) && Node(K, Text(g), Text(g)) == Some(Text(K(g + g)))
    ensures BytesDifferAt(g, h, k) ==>
              var pair := if g[k] < h[k] then g + h else h + g;
              Preimage(Text(g), Text(h)) == Some(pair) && Node(K, Text(g), Text(h)) == Some(Text(K(pair)))
  {
    hide LexLeq, ToHex;
    TextPayload(g);
    TextPayload(h);
    LexTotal(Text(g), Text(g));
    assert PadRight(g) == g && PadRight(h) == h;
    if BytesDifferAt(g, h, k) {
      HexOrder(g, h, k);
      LexLeqBehind("0x", ToHex(g), ToHex(h));
    }
  }

  // A nonempty sequence of digests, the leaves of a tree.
  ghost predicate IsLeafList(leaves: seq<string>) {
    |leaves| > 0 && forall l | l in leaves :: IsDigest(l)
  }

  // node() where it does not raise, as inside a tree it never does.
  function Joined(K: Keccak, x: string, y: string): string {
    match Node(K, x, y)
    case Some(s) => s
    case None => ""
  }

  function JoinOf(K: Keccak): H.Join<string> {
    (x, y) => Joined(K, x, y)
  }

  // "0x" + "0" * 64
  function ZeroRoot(): string {
    "0x" + seq(64, _ => '0')
  }

  lemma {:induction false} LeavesAreDigests(K: Keccak, claims: seq<Claim>)
    requires LeavesOf(K, claims).Some?
    ensures |LeavesOf(K, claims).value| == |claims|
    ensures forall k | 0 <= k < |claims| ::
              && BodyOf(claims[k]).Some?
              && LeavesOf(K, claims).value[k] == Text(K(Encoding(BodyOf(claims[k]).value)))
  {
    if claims != [] {
      LeavesAreDigests(K, claims[1..]);
    }
  }

  lemma UniqueLeaves(K: Keccak, claims: seq<Claim>)
    requires LeavesOf(K, claims).Some? && claims != []
    ensures IsLeafList(SortedUnique(LeavesOf(K, claims).value))
  {
    var ls := LeavesOf(K, claims).value;
    LeavesAreDigests(K, claims);
    SortedUniqueSorts(ls);
    assert ls[0] in Elements(ls);
    forall l | l in SortedUnique(ls)
      ensures IsDigest(l)
    {
      assert l in Elements(SortedUnique(ls));
    }
  }

  // The root of a list of claims; None where a claim is malformed.
  function Root(K: Keccak, claims: seq<Claim>): Option<string> {
    match LeavesOf(K, claims)
    case None => None
    case Some(ls) =>
      if claims == [] then Some(ZeroRoot())
      else UniqueLeaves(K, claims); Some(H.Subtree(JoinOf(K), SortedUnique(ls), 0))
  }

  // There is a root exactly if every claim can be encoded.
  lemma {:induction false} RootExactly(K: Keccak, claims: seq<Claim>)
    ensures Root(K, claims).Some? <==> forall c :: c in claims ==> BodyOf(c).Some?
  {
    hide BodyOf;
    if claims != [] {
      RootExactly(K, claims[1..]);
      assert claims == [claims[0]] + claims[1..];
    }
  }

  // No claims: 32 zero bytes.
  lemma EmptyRoot(K: Keccak)
    ensures Root(K, []) == Some(Text(seq(32, _ => 0)))
  {
    var zeros: Hash := seq(32, _ => 0);
    var s := ToHex(zeros);
    forall i | 0 <= i < 64
      ensures s[i] == '0'
    {
      ToHexAt(zeros, i / 2);
    }
    assert ZeroRoot() == "0x" + s;
  }

  method BuildRewardMerkleRoot(K: Keccak, claims: seq<Claim>) returns (root: Option<string>)
    ensures root == Root(K, claims)
  {
    var leaves := LeavesOf(K, claims);
    if leaves.None? { return None; }
    var sortedUnique := SortedUnique(leaves.value);
    var n := |sortedUnique|;
    if claims == [] {
      assert n == 0;
    } else {
      UniqueLeaves(K, claims);
    }
    if n == 0 { return Some(ZeroRoot()); }
    if n == 1 { return Some(sortedUnique[0]); }
    var top := H.Fill(JoinOf(K), sortedUnique, ZeroRoot());
    root := Some(top);
  }

  // Every place of a tree over digests holds a digest.
  lemma {:induction false} PlacesAreDigests(K: Keccak, leaves: seq<string>, i: nat)
    requires IsLeafList(leaves) && i < 2 * |leaves| - 1
    ensures IsDigest(H.Subtree(JoinOf(K), leaves, i))
    decreases 2 * |leaves| - i
  {
    if i >= |leaves| - 1 {
      assert leaves[i - (|leaves| - 1)] in leaves;
    } else {
      var l, r := H.Subtree(JoinOf(K), leaves, 2 * i + 1), H.Subtree(JoinOf(K), leaves, 2 * i + 2);
      PlacesAreDigests(K, leaves, 2 * i + 1);
      PlacesAreDigests(K, leaves, 2 * i + 2);
      JoinOfDigests(K, l, r);
      assert H.Subtree(JoinOf(K), leaves, i) == JoinOf(K)(l, r);
    }
  }

  lemma ChildrenAreDigests(K: Keccak, leaves: seq<string>, x: string, y: string)
    requires IsLeafList(leaves) && H.AreChildren(JoinOf(K), leaves, x, y)
    ensures IsDigest(x) && IsDigest(y)
  {
    hide IsLeafList, IsDigest, H.Subtree;
    var i :| 0 <= i < |leaves| - 1 && H.ChildrenOf(JoinOf(K), leaves, i) == (x, y);
    PlacesAreDigests(K, leaves, 2 * i + 1);
    PlacesAreDigests(K, leaves, 2 * i + 2);
  }

  lemma JoinOfDigests(K: Keccak, x: string, y: string)
    requires IsDigest(x) && IsDigest(y)
    ensures Node(K, x, y) == Some(JoinOf(K)(x, y)) && IsDigest(JoinOf(K)(x, y))
    ensures JoinOf(K)(x, y) == JoinOf(K)(y, x)
  {
    NodeOfDigests(K, x, y);
  }

  // ----- proofs

  // The hash that verify_proof holds after the whole of the proof; None where node() raises.
  function Folded(K: Keccak, leaf: string, proof: seq<string>): Option<string> {
    if proof == [] then Some(leaf)
    else
      match Folded(K, leaf, proof[..|proof| - 1])
      case None => None
      case Some(h) => Node(K, proof[|proof| - 1], h)
  }

  function Verdict(K: Keccak, leaf: string, proof: seq<string>, root: string): Option<bool> {
    match Folded(K, leaf, proof)
    case None => None
    case Some(h) => Some(Lower(h) == Lower(root))
  }

  // The proof is accepted for the claim against the root.
  ghost predicate Proven(K: Keccak, c: Claim, proof: seq<string>, root: string) {
    ComputeLeaf(K, c).Some? && Verdict(K, ComputeLeaf(K, c).value, proof, root) == Some(true)
  }

  method VerifyProof(K: Keccak, leaf: string, proof: seq<string>, root: string) returns (ok: Option<bool>)
    ensures ok == Verdict(K, leaf, proof, root)
  {
    var h := leaf;
    for j := 0 to |proof|
      invariant Folded(K, leaf, proof[..j]) == Some(h)
    {
      assert proof[..j + 1][..j] == proof[..j];
      var next := Node(K, proof[j], h);
      if next.None? {
        FoldedRaises(K, leaf, proof, j + 1);
        return None;
      }
      h := next.value;
    }
    assert proof[..|proof|] == proof;
    return Some(Lower(h) == Lower(root));
  }

  lemma {:induction false} FoldedRaises(K: Keccak, leaf: string, proof: seq<string>, j: nat)
    requires j <= |proof| && Folded(K, leaf, proof[..j]).None?
    ensures Folded(K, leaf, proof).None?
    decreases |proof| - j
  {
    if j == |proof| {
      assert proof[..j] == proof;
    } else {
      assert proof[..j + 1][..j] == proof[..j];
      FoldedRaises(K, leaf, proof, j + 1);
    }
  }

  // A fold that does not raise is the tree's own joining along the proof.
  lemma {:induction false} FoldedIsFold(K: Keccak, leaf: string, proof: seq<string>)
    requires IsDigest(leaf) && Folded(K, leaf, proof).Some?
    ensures Folded(K, leaf, proof).value == H.Fold(JoinOf(K), leaf, proof)
    ensures IsDigest(Folded(K, leaf, proof).value)
  {
    if proof != [] {
      FoldedIsFold(K, leaf, proof[..|proof| - 1]);
    }
  }

  // What the k-th step of the fold hashes.
  ghost function StepInput(K: Keccak, leaf: string, proof: seq<string>, k: nat): Option<Bytes>
    requires k < |proof|
  {
    match Folded(K, leaf, proof[..k])
    case None => None
    case Some(h) => Preimage(proof[k], h)
  }

  // Every step of such a fold hashes 64 bytes.
  lemma StepOfFold(K: Keccak, leaf: string, proof: seq<string>, k: nat) returns (h: string, p: Bytes)
    requires IsDigest(leaf) && Folded(K, leaf, proof).Some? && k < |proof|
    ensures h == H.Fold(JoinOf(K), leaf, proof[..k]) && IsDigest(h)
    ensures Preimage(proof[k], h) == Some(p) == StepInput(K, leaf, proof, k) && |p| == 64
    ensures JoinOf(K)(proof[k], h) == Text(K(p))
  {
    if Folded(K, leaf, proof[..k + 1]).None? { FoldedRaises(K, leaf, proof, k + 1); }
    assert proof[..k + 1][..k] == proof[..k];
    FoldedIsFold(K, leaf, proof[..k]);
    h := Folded(K, leaf, proof[..k]).value;
    p := Preimage(proof[k], h).value;
  }

  lemma TextInjective(g: Hash, h: Hash)
    requires Text(g) == Text(h)
    ensures g == h
  {
    TextPayload(g);
    TextPayload(h);
  }

  // ----- soundness

  // What the well-formed claims of a list say.
  ghost function Bodies(claims: seq<Claim>): set<Body> {
    set c | c in claims && BodyOf(c).Some? :: BodyOf(c).value
  }

  // What is hashed in building the tree: the encodings of the claims, and the pairs under its inner places.
  ghost function NodeInput(K: Keccak, leaves: seq<string>, i: nat): Option<Bytes>
    requires i < |leaves| - 1
  {
    var (x, y) := H.ChildrenOf(JoinOf(K), leaves, i);
    Preimage(x, y)
  }

  ghost function ClaimInputs(claims: seq<Claim>): set<Bytes> {
    set b | b in Bodies(claims) && InRange(b) :: Encoding(b)
  }

  ghost function NodeInputs(K: Keccak, leaves: seq<string>): set<Bytes> {
    set i | 0 <= i < |leaves| - 1 && NodeInput(K, leaves, i).Some? :: NodeInput(K, leaves, i).value
  }

  ghost function TreeInputs(K: Keccak, claims: seq<Claim>): set<Bytes>
    requires LeavesOf(K, claims).Some?
  {
    ClaimInputs(claims) + NodeInputs(K, SortedUnique(LeavesOf(K, claims).value))
  }

  // What is hashed in checking a proof: the claim's encoding, and the pair of every step.
  ghost function StepInputs(K: Keccak, leaf: string, proof: seq<string>): set<Bytes> {
    set k | 0 <= k < |proof| && StepInput(K, leaf, proof, k).Some? :: StepInput(K, leaf, proof, k).value
  }

  ghost function PathInputs(K: Keccak, c: Claim, proof: seq<string>): set<Bytes>
    requires BodyOf(c).Some?
  {
    var e := Encoding(BodyOf(c).value);
    {e} + StepInputs(K, Text(K(e)), proof)
  }

  // A string of the one set and a different one of the other have the same hash.
  ghost predicate Collides(K: Keccak, p: Bytes, ps: set<Bytes>, q: Bytes, qs: set<Bytes>) {
    p in ps && q in qs && Collision(K, p, q)
  }

  ghost predicate Apart(K: Keccak, ps: set<Bytes>, qs: set<Bytes>) {
    forall p, q :: p in ps && q in qs ==> !Collision(K, p, q)
  }

  // Every leaf is the hash of the encoding of one of the claims.
  lemma LeafOpens(K: Keccak, claims: seq<Claim>, leaf: string) returns (b: Body)
    requires LeavesOf(K, claims).Some? && leaf in SortedUnique(LeavesOf(K, claims).value)
    ensures b in Bodies(claims) && InRange(b) && leaf == Text(K(Encoding(b)))
    ensures Encoding(b) in ClaimInputs(claims)
  {
    var ls := LeavesOf(K, claims).value;
    LeavesAreDigests(K, claims);
    SortedUniqueSorts(ls);
    assert leaf in Elements(ls);
    var k :| 0 <= k < |ls| && ls[k] == leaf;
    b := BodyOf(claims[k]).value;
  }

  // The 64 bytes behind a join of digests, which are the two of them.
  lemma PairPreimage(K: Keccak, leaves: seq<string>, c: string, d: string) returns (q: Bytes)
    requires IsLeafList(leaves) && H.AreChildren(JoinOf(K), leaves, c, d)
    ensures IsDigest(c) && IsDigest(d) && |q| == 64 && JoinOf(K)(c, d) == Text(K(q))
    ensures q == Decoded(c) + Decoded(d) || q == Decoded(d) + Decoded(c)
    ensures q in NodeInputs(K, leaves)
  {
    ChildrenAreDigests(K, leaves, c, d);
    NodeOfDigests(K, c, d);
    q := Preimage(c, d).value;
    var i :| 0 <= i < |leaves| - 1 && H.ChildrenOf(JoinOf(K), leaves, i) == (c, d);
    assert NodeInput(K, leaves, i) == Some(q);
  }

  lemma PreimageHolds(x: string, h: string, c: string, d: string)
    requires IsDigest(h) && IsDigest(c) && IsDigest(d) && Preimage(x, h).Some?
    requires Preimage(x, h).value == Decoded(c) + Decoded(d) || Preimage(x, h).value == Decoded(d) + Decoded(c)
    ensures h == c || h == d
  {
    var w := Preimage(x, h).value;
    assert PadRight(Decoded(h)) == Decoded(h);
    assert w[..32] == Decoded(h) || w[32..] == Decoded(h);
  }

  // From a proof that is accepted for a claim outside the list behind the root, two different strings with one hash
  // are computed, one hashed in checking the proof and one in building the tree.
  lemma AcceptedProofIsSound(K: Keccak, claims: seq<Claim>, c: Claim, proof: seq<string>, root: string)
    returns (p: Bytes, q: Bytes)
    requires claims != [] && Root(K, claims).Some? && Lower(Root(K, claims).value) == Lower(root)
    requires Proven(K, c, proof, root) && BodyOf(c).value !in Bodies(claims)
    ensures Collides(K, p, PathInputs(K, c, proof), q, TreeInputs(K, claims))
  {
    hide Collides, PathInputs, TreeInputs;
    var leaf, join, leaves := ComputeLeaf(K, c).value, JoinOf(K), SortedUnique(LeavesOf(K, claims).value);
    UniqueLeaves(K, claims);
    PlacesAreDigests(K, leaves, 0);
    FoldedIsFold(K, leaf, proof);
    SameDigest(Folded(K, leaf, proof).value, H.Subtree(join, leaves, 0));
    var clash, k := H.PathFromLeaf(join, leaves, 0, leaf, proof);
    p, q := PathClashCollides(K, claims, c, proof, clash, k);
  }

  // So unless Keccak-256 collides between these finitely many strings, a claim with an accepted proof is in the list.
  lemma AcceptedClaimIsListed(K: Keccak, claims: seq<Claim>, c: Claim, proof: seq<string>, root: string)
    requires claims != [] && Root(K, claims).Some? && Lower(Root(K, claims).value) == Lower(root)
    requires Proven(K, c, proof, root) && Apart(K, PathInputs(K, c, proof), TreeInputs(K, claims))
    ensures BodyOf(c).value in Bodies(claims)
  {
    hide PathInputs, TreeInputs, Bodies, Root;
    if BodyOf(c).value !in Bodies(claims) { var p, q := AcceptedProofIsSound(K, claims, c, proof, root); }
  }

  lemma SameDigest(x: string, y: string)
    requires IsDigest(x) && IsDigest(y) && Lower(x) == Lower(y)
    ensures x == y
  {
    TextPayload(Decoded(x));
    TextPayload(Decoded(y));
  }

  lemma PathClashCollides(
    K: Keccak, claims: seq<Claim>, c: Claim, proof: seq<string>, clash: H.Clash<string>, k: nat)
    returns (p: Bytes, q: Bytes)
    requires claims != [] && LeavesOf(K, claims).Some? && BodyOf(c).Some? && BodyOf(c).value !in Bodies(claims)
    requires Folded(K, Text(K(Encoding(BodyOf(c).value))), proof).Some?
    requires var leaves, leaf := SortedUnique(LeavesOf(K, claims).value), Text(K(Encoding(BodyOf(c).value)));
             match clash
             case NoClash => leaf in leaves
             case Joins(x, h, l, r) =>
               && k < |proof| && x == proof[k] && h == H.Fold(JoinOf(K), leaf, proof[..k]) && h != l && h != r
               && JoinOf(K)(x, h) == JoinOf(K)(l, r) && H.AreChildren(JoinOf(K), leaves, l, r)
             case LeafJoin(v, x, h) =>
               && k <= |proof| && v == JoinOf(K)(x, h)
               && if k == |proof| then v == leaf && H.AreChildren(JoinOf(K), leaves, x, h)
                  else v in leaves && x == proof[k] && h == H.Fold(JoinOf(K), leaf, proof[..k])
    ensures Collides(K, p, PathInputs(K, c, proof), q, TreeInputs(K, claims))
  {
    hide NodeInputs, ClaimInputs, StepInputs, Encoding, Text, Folded, SortedUnique, JoinOf, Bodies;
    var leaves, e := SortedUnique(LeavesOf(K, claims).value), Encoding(BodyOf(c).value);
    UniqueLeaves(K, claims);
    match clash
    case NoClash => p, q := LeafMeetsLeaf(K, claims, c);
    case Joins(x, h, l, r) => p, q := StepMeetsNode(K, Text(K(e)), proof, k, leaves, l, r);
    case LeafJoin(v, x, h) =>
      if k == |proof| {
        p, q := LeafMeetsNode(K, e, leaves, x, h);
      } else {
        p, q := StepMeetsLeaf(K, Text(K(e)), proof, k, claims, v);
      }
  }

  lemma LeafMeetsLeaf(K: Keccak, claims: seq<Claim>, c: Claim) returns (p: Bytes, q: Bytes)
    requires LeavesOf(K, claims).Some? && BodyOf(c).Some? && BodyOf(c).value !in Bodies(claims)
    requires Text(K(Encoding(BodyOf(c).value))) in SortedUnique(LeavesOf(K, claims).value)
    ensures Collides(K, p, {Encoding(BodyOf(c).value)}, q, ClaimInputs(claims))
  {
    hide ClaimInputs;
    p := Encoding(BodyOf(c).value);
    var b := LeafOpens(K, claims, Text(K(p)));
    q := Encoding(b);
    TextInjective(K(p), K(q));
    if p == q { EncodingInjective(b, BodyOf(c).value); }
  }

  lemma StepMeetsNode(
    K: Keccak, leaf: string, proof: seq<string>, k: nat, leaves: seq<string>, l: string, r: string)
    returns (p: Bytes, q: Bytes)
    requires IsDigest(leaf) && Folded(K, leaf, proof).Some? && k < |proof|
    requires IsLeafList(leaves) && H.AreChildren(JoinOf(K), leaves, l, r)
    requires var h := H.Fold(JoinOf(K), leaf, proof[..k]);
             h != l && h != r && JoinOf(K)(proof[k], h) == JoinOf(K)(l, r)
    ensures Collides(K, p, StepInputs(K, leaf, proof), q, NodeInputs(K, leaves))
  {
    hide NodeInputs, IsLeafList, H.AreChildren, H.Fold, Folded;
    var h;
    h, p := StepOfFold(K, leaf, proof, k);
    assert StepInput(K, leaf, proof, k) == Some(p);
    q := PairPreimage(K, leaves, l, r);
    TextInjective(K(p), K(q));
    if p == q { PreimageHolds(proof[k], h, l, r); }
  }

  lemma LeafMeetsNode(K: Keccak, e: Bytes, leaves: seq<string>, x: string, y: string) returns (p: Bytes, q: Bytes)
    requires |e| == 128 && IsLeafList(leaves) && H.AreChildren(JoinOf(K), leaves, x, y)
    requires Text(K(e)) == JoinOf(K)(x, y)
    ensures Collides(K, p, {e}, q, NodeInputs(K, leaves))
  {
    hide NodeInputs;
    p := e;
    q := PairPreimage(K, leaves, x, y);
    TextInjective(K(p), K(q));
  }

  lemma StepMeetsLeaf(K: Keccak, leaf: string, proof: seq<string>, k: nat, claims: seq<Claim>, v: string)
    returns (p: Bytes, q: Bytes)
    requires IsDigest(leaf) && Folded(K, leaf, proof).Some? && k < |proof|
    requires LeavesOf(K, claims).Some? && v in SortedUnique(LeavesOf(K, claims).value)
    requires v == JoinOf(K)(proof[k], H.Fold(JoinOf(K), leaf, proof[..k]))
    ensures Collides(K, p, StepInputs(K, leaf, proof), q, ClaimInputs(claims))
  {
    hide ClaimInputs;
    var h;
    h, p := StepOfFold(K, leaf, proof, k);
    var b := LeafOpens(K, claims, v);
    q := Encoding(b);
    TextInjective(K(p), K(q));
  }

  // ----- one root, one set of claims

  // From two lists of claims that say different things and have one root, two different strings with one hash are
  // computed, one hashed in building each tree.
  lemma RootBindsClaims(K: Keccak, claims1: seq<Claim>, claims2: seq<Claim>) returns (p: Bytes, q: Bytes)
    requires claims1 != [] && claims2 != [] && Root(K, claims1).Some?
    requires Root(K, claims1) == Root(K, claims2)
    ensures Bodies(claims1) == Bodies(claims2) || Collides(K, p, TreeInputs(K, claims1), q, TreeInputs(K, claims2))
  {
    hide NodeInputs, ClaimInputs, Bodies;
    var l1, l2 := SortedUnique(LeavesOf(K, claims1).value), SortedUnique(LeavesOf(K, claims2).value);
    UniqueLeaves(K, claims1);
    UniqueLeaves(K, claims2);
    var clash := H.SameValueSameLeaves(JoinOf(K), l1, 0, l2, 0);
    match clash
    case NoClash =>
      forall x: string
        ensures x in l1 <==> x in l2
      {
        H.AllLeavesUnderRoot(l1, x);
        H.AllLeavesUnderRoot(l2, x);
      }
      p, q := SharedLeaves(K, claims1, claims2);
      if Bodies(claims1) <= Bodies(claims2) { q, p := SharedLeaves(K, claims2, claims1); }
    case Joins(a, b, c, d) =>
      p, q := JoinClashCollides(K, l1, a, b, l2, c, d);
    case LeafJoin(leaf, a, b) =>
      if leaf in l1 && H.AreChildren(JoinOf(K), l2, a, b) {
        p, q := LeafClashCollides(K, claims1, leaf, l2, a, b);
      } else {
        q, p := LeafClashCollides(K, claims2, leaf, l1, a, b);
      }
  }

  // So unless Keccak-256 collides between these finitely many strings, one root means one set of claims.
  lemma SameRootSameClaims(K: Keccak, claims1: seq<Claim>, claims2: seq<Claim>)
    requires claims1 != [] && claims2 != [] && Root(K, claims1).Some?
    requires Root(K, claims1) == Root(K, claims2) && Apart(K, TreeInputs(K, claims1), TreeInputs(K, claims2))
    ensures Bodies(claims1) == Bodies(claims2)
  {
    hide TreeInputs, Bodies;
    var p, q := RootBindsClaims(K, claims1, claims2);
  }

  lemma JoinClashCollides(K: Keccak, l1: seq<string>, a: string, b: string, l2: seq<string>, c: string, d: string)
    returns (p: Bytes, q: Bytes)
    requires IsLeafList(l1) && H.AreChildren(JoinOf(K), l1, a, b)
    requires IsLeafList(l2) && H.AreChildren(JoinOf(K), l2, c, d)
    requires JoinOf(K)(a, b) == JoinOf(K)(c, d) && !(a == c && b == d) && !(a == d && b == c)
    ensures Collides(K, p, NodeInputs(K, l1), q, NodeInputs(K, l2))
  {
    hide NodeInputs;
    p := PairPreimage(K, l1, a, b);
    q := PairPreimage(K, l2, c, d);
    TextInjective(K(p), K(q));
    if p == q { SamePair(a, b, c, d, p); }
  }

  lemma SamePair(a: string, b: string, c: string, d: string, w: Bytes)
    requires IsDigest(a) && IsDigest(b) && IsDigest(c) && IsDigest(d)
    requires w == Decoded(a) + Decoded(b) || w == Decoded(b) + Decoded(a)
    requires w == Decoded(c) + Decoded(d) || w == Decoded(d) + Decoded(c)
    ensures (a == c && b == d) || (a == d && b == c)
  {
    var x, y := w[..32], w[32..];
    assert (x == Decoded(a) && y == Decoded(b)) || (x == Decoded(b) && y == Decoded(a));
    assert (x == Decoded(c) && y == Decoded(d)) || (x == Decoded(d) && y == Decoded(c));
  }

  lemma LeafClashCollides(K: Keccak, claims: seq<Claim>, leaf: string, other: seq<string>, a: string, b: string)
    returns (p: Bytes, q: Bytes)
    requires LeavesOf(K, claims).Some? && leaf in SortedUnique(LeavesOf(K, claims).value)
    requires IsLeafList(other) && H.AreChildren(JoinOf(K), other, a, b)
    requires leaf == JoinOf(K)(a, b)
    ensures Collides(K, p, ClaimInputs(claims), q, NodeInputs(K, other))
  {
    hide NodeInputs, ClaimInputs;
    var body := LeafOpens(K, claims, leaf);
    p := Encoding(body);
    q := PairPreimage(K, other, a, b);
    TextInjective(K(p), K(q));
  }

  lemma SharedLeaves(K: Keccak, claims1: seq<Claim>, claims2: seq<Claim>) returns (p: Bytes, q: Bytes)
    requires LeavesOf(K, claims1).Some? && LeavesOf(K, claims2).Some?
    requires forall x | x in SortedUnique(LeavesOf(K, claims1).value) :: x in SortedUnique(LeavesOf(K, claims2).value)
    ensures Bodies(claims1) <= Bodies(claims2) || Collides(K, p, ClaimInputs(claims1), q, ClaimInputs(claims2))
  {
    p, q := [], [];
    if !(Bodies(claims1) <= Bodies(claims2)) {
      var b :| b in Bodies(claims1) && b !in Bodies(claims2);
      var leaf := Text(K(Encoding(b)));
      LeafOfBody(K, claims1, b);
      SortedUniqueSorts(LeavesOf(K, claims1).value);
      assert leaf in Elements(SortedUnique(LeavesOf(K, claims1).value));
      var c := LeafOpens(K, claims2, leaf);
      p, q := Encoding(b), Encoding(c);
      TextInjective(K(p), K(q));
      if p == q { EncodingInjective(b, c); }
    }
  }

  lemma LeafOfBody(K: Keccak, claims: seq<Claim>, b: Body)
    requires LeavesOf(K, claims).Some? && b in Bodies(claims)
    ensures InRange(b) && Encoding(b) in ClaimInputs(claims)
    ensures Text(K(Encoding(b))) in Elements(LeavesOf(K, claims).value)
  {
    LeavesAreDigests(K, claims);
    var k :| 0 <= k < |claims| && BodyOf(claims[k]) == Some(b);
    assert LeavesOf(K, claims).value[k] == Text(K(Encoding(b)));
  }

  // ----- completeness

  // Every claim of the list has a proof that is accepted, at most ceil(log2 n) hashes long: d is any
  // power for which 2^d reaches the number of leaves.
  lemma EveryClaimHasProof(K: Keccak, claims: seq<Claim>, c: Claim, d: nat) returns (proof: seq<string>)
    requires Root(K, claims).Some? && c in claims
    requires |SortedUnique(LeavesOf(K, claims).value)| <= H.Pow2(d)
    ensures Proven(K, c, proof, Root(K, claims).value) && |proof| <= d
  {
    var leaves := SortedUnique(LeavesOf(K, claims).value);
    UniqueLeaves(K, claims);
    var k := PlaceOfClaim(K, claims, c);
    proof := PathOfPlace(K, leaves, k, d);
  }

  // The siblings of the place of the claim's leaf are such a proof, whatever the case of the digits.
  ghost predicate SiblingPath(K: Keccak, claims: seq<Claim>, c: Claim, proof: seq<string>)
    requires LeavesOf(K, claims).Some?
  {
    var leaves := SortedUnique(LeavesOf(K, claims).value);
    exists k :: 0 <= k < |leaves| && ComputeLeaf(K, c) == Some(leaves[k]) &&
                SameButCase(proof, H.Siblings(JoinOf(K), leaves, |leaves| - 1 + k))
  }

  lemma SiblingPathIsProven(K: Keccak, claims: seq<Claim>, c: Claim, proof: seq<string>, root: string)
    requires claims != [] && Root(K, claims).Some? && SiblingPath(K, claims, c, proof)
    requires Lower(root) == Lower(Root(K, claims).value)
    ensures Proven(K, c, proof, root)
  {
    hide LeavesOf, SortedUnique, ComputeLeaf, SameButCase, Lower, Verdict, JoinOf, H.Subtree, H.Siblings, IsLeafList;
    var leaves := SortedUnique(LeavesOf(K, claims).value);
    UniqueLeaves(K, claims);
    assert Root(K, claims).value == H.Subtree(JoinOf(K), leaves, 0);
    var k :| 0 <= k < |leaves| && ComputeLeaf(K, c) == Some(leaves[k]) &&
             SameButCase(proof, H.Siblings(JoinOf(K), leaves, |leaves| - 1 + k));
    PathIsAccepted(K, leaves, k, proof, root);
  }

  lemma PathIsAccepted(K: Keccak, leaves: seq<string>, k: nat, proof: seq<string>, root: string)
    requires IsLeafList(leaves) && k < |leaves| && Lower(root) == Lower(H.Subtree(JoinOf(K), leaves, 0))
    requires SameButCase(proof, H.Siblings(JoinOf(K), leaves, |leaves| - 1 + k))
    ensures Verdict(K, leaves[k], proof, root) == Some(true)
  {
    hide SameButCase, IsLeafList, Lower, H.Siblings, H.Subtree, JoinOf, Folded;
    var i := |leaves| - 1 + k;
    H.LeafIsSubtree(JoinOf(K), leaves, k);
    SiblingsFold(K, leaves, i);
    VerdictIgnoresCase(K, leaves[k], proof, root, leaves[k], H.Siblings(JoinOf(K), leaves, i), root);
  }

  lemma PathOfPlace(K: Keccak, leaves: seq<string>, k: nat, d: nat) returns (proof: seq<string>)
    requires IsLeafList(leaves) && k < |leaves| <= H.Pow2(d)
    ensures Folded(K, leaves[k], proof) == Some(H.Subtree(JoinOf(K), leaves, 0)) && |proof| <= d
  {
    var i := |leaves| - 1 + k;
    proof := H.Siblings(JoinOf(K), leaves, i);
    SiblingsFold(K, leaves, i);
    H.SiblingsShort(JoinOf(K), leaves, i, d);
  }

  lemma PlaceOfClaim(K: Keccak, claims: seq<Claim>, c: Claim) returns (k: nat)
    requires LeavesOf(K, claims).Some? && c in claims
    ensures var leaves := SortedUnique(LeavesOf(K, claims).value);
            k < |leaves| && ComputeLeaf(K, c) == Some(leaves[k])
  {
    var ls := LeavesOf(K, claims).value;
    LeavesAreDigests(K, claims);
    SortedUniqueSorts(ls);
    var j :| 0 <= j < |claims| && claims[j] == c;
    assert ls[j] in Elements(SortedUnique(ls));
    k :| 0 <= k < |SortedUnique(ls)| && SortedUnique(ls)[k] == ls[j];
  }

  // verify_proof does not raise on a path of digests.
  lemma {:induction false} DigestsFold(K: Keccak, leaf: string, path: seq<string>)
    requires IsDigest(leaf) && forall x | x in path :: IsDigest(x)
    ensures Folded(K, leaf, path) == Some(H.Fold(JoinOf(K), leaf, path))
  {
    if path != [] {
      var m := |path| - 1;
      DigestsFold(K, leaf, path[..m]);
      FoldedIsFold(K, leaf, path[..m]);
      JoinOfDigests(K, path[m], H.Fold(JoinOf(K), leaf, path[..m]));
    }
  }

  lemma SiblingsFold(K: Keccak, leaves: seq<string>, i: nat)
    requires IsLeafList(leaves) && i < 2 * |leaves| - 1
    ensures Folded(K, H.Subtree(JoinOf(K), leaves, i), H.Siblings(JoinOf(K), leaves, i)) ==
            Some(H.Subtree(JoinOf(K), leaves, 0))
  {
    var join := JoinOf(K);
    forall a, b | 0 <= a < 2 * |leaves| - 1 && 0 <= b < 2 * |leaves| - 1
      ensures var x, y := H.Subtree(join, leaves, a), H.Subtree(join, leaves, b); join(x, y) == join(y, x)
    {
      PlacesAreDigests(K, leaves, a);
      PlacesAreDigests(K, leaves, b);
      JoinOfDigests(K, H.Subtree(join, leaves, a), H.Subtree(join, leaves, b));
    }
    H.SiblingsReachRoot(join, leaves, i);
    PlacesAreDigests(K, leaves, i);
    SiblingsAreDigests(K, leaves, i);
    DigestsFold(K, H.Subtree(join, leaves, i), H.Siblings(join, leaves, i));
  }

  lemma {:induction false} SiblingsAreDigests(K: Keccak, leaves: seq<string>, i: nat)
    requires IsLeafList(leaves) && i < 2 * |leaves| - 1
    ensures forall x | x in H.Siblings(JoinOf(K), leaves, i) :: IsDigest(x)
    decreases i
  {
    if i > 0 {
      PlacesAreDigests(K, leaves, H.Sibling(i));
      SiblingsAreDigests(K, leaves, (i - 1) / 2);
    }
  }

  // ----- canonicity

  // The root depends on the set of leaves only: order and repetition do not matter.
  lemma RootIsCanonical(K: Keccak, claims1: seq<Claim>, claims2: seq<Claim>)
    requires Root(K, claims1).Some? && Root(K, claims2).Some?
    requires Bodies(claims1) == Bodies(claims2)
    ensures Root(K, claims1) == Root(K, claims2)
  {
    var l1, l2 := LeavesOf(K, claims1).value, LeavesOf(K, claims2).value;
    SortedUniqueSorts(l1);
    SortedUniqueSorts(l2);
    SameBodiesSameLeaves(K, claims1, claims2);
    SameBodiesSameLeaves(K, claims2, claims1);
    AscendingUnique(SortedUnique(l1), SortedUnique(l2));
    NoElements(l1);
    NoElements(l2);
    LeavesAreDigests(K, claims1);
    LeavesAreDigests(K, claims2);
  }

  lemma SameBodiesSameLeaves(K: Keccak, claims1: seq<Claim>, claims2: seq<Claim>)
    requires LeavesOf(K, claims1).Some? && LeavesOf(K, claims2).Some? && Bodies(claims1) <= Bodies(claims2)
    ensures Elements(LeavesOf(K, claims1).value) <= Elements(LeavesOf(K, claims2).value)
  {
    var ls := LeavesOf(K, claims1).value;
    LeavesAreDigests(K, claims1);
    forall l | l in Elements(ls)
      ensures l in Elements(LeavesOf(K, claims2).value)
    {
      var k :| 0 <= k < |ls| && ls[k] == l;
      assert BodyOf(claims1[k]).value in Bodies(claims1);
      LeafOfBody(K, claims2, BodyOf(claims1[k]).value);
    }
  }

  // ----- letter case

  ghost predicate SameButCase(s: seq<string>, t: seq<string>) {
    |s| == |t| && forall i | 0 <= i < |s| :: Lower(s[i]) == Lower(t[i])
  }

  lemma NodeIgnoresCase(K: Keccak, x: string, y: string, x': string, y': string)
    requires Lower(x) == Lower(x') && Lower(y) == Lower(y')
    ensures Node(K, x, y) == Node(K, x', y')
  {
    PayloadIgnoresCase(x, x');
    PayloadIgnoresCase(y, y');
  }

  lemma PayloadIgnoresCase(x: string, y: string)
    requires Lower(x) == Lower(y)
    ensures Payload(x) == Payload(y)
  {
    assert |x| == |Lower(y)|;
    if |x| >= 2 {
      LowerDrop(x, 2);
      LowerDrop(y, 2);
      FromHexIgnoresCase(x[2..], y[2..]);
    }
  }

  // The verdict on a proof does not depend on the case of any hexadecimal digit in it, in the leaf
  // or in the root.
  lemma VerdictIgnoresCase(
    K: Keccak, leaf: string, proof: seq<string>, root: string, leaf': string, proof': seq<string>, root': string)
    requires Lower(leaf) == Lower(leaf') && SameButCase(proof, proof') && Lower(root) == Lower(root')
    ensures Verdict(K, leaf, proof, root) == Verdict(K, leaf', proof', root')
  {
    FoldedIgnoresCase(K, leaf, proof, leaf', proof');
  }

  lemma {:induction false} FoldedIgnoresCase(
    K: Keccak, leaf: string, proof: seq<string>, leaf': string, proof': seq<string>)
    requires Lower(leaf) == Lower(leaf') && SameButCase(proof, proof')
    ensures var f, g := Folded(K, leaf, proof), Folded(K, leaf', proof');
            f.Some? == g.Some? && (f.Some? ==> Lower(f.value) == Lower(g.value))
    decreases |proof|
  {
    if proof != [] {
      var m := |proof| - 1;
      FoldedIgnoresCase(K, leaf, proof[..m], leaf', proof'[..m]);
      var f, g := Folded(K, leaf, proof[..m]), Folded(K, leaf', proof'[..m]);
      if f.Some? { NodeIgnoresCase(K, proof[m], f.value, proof'[m], g.value); }
    }
  }
}
