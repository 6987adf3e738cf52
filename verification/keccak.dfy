// clif/_keccak.py: the compact in-place Keccak-f[1600] and the Keccak-256 sponge around it.
module Keccak {
  import opened Iteration
  import F = Fips202

  // A non-negative integer of the source, as the set of positions of its one bits. Like the
  // source's integers it has no width of its own.
  type Int = set<nat>

  function Positions(v: nat, low: nat := 0): Int {
    if v == 0 then {} else (if v % 2 == 1 then {low} else {}) + Positions(v / 2, low + 1)
  }

  // x < 2^n.
  predicate Below(x: Int, n: nat) {
    forall i | i in x :: i < n
  }

  function Xor(x: Int, y: Int): Int {
    (x - y) + (y - x)
  }

  // ~x & y: clear in y the bits of x.
  function AndNot(x: Int, y: Int): Int {
    y - x
  }

  function Shl(x: Int, n: nat): Int {
    set i | i in x :: i + n
  }

  function Shr(x: Int, n: nat): Int {
    set i | i in x && i >= n :: i - n
  }

  // x & (2^64 - 1), the source's _MASK.
  function Masked(x: Int): Int {
    set i | i in x && i < F.W
  }

  const RHO: seq<nat> := [1, 3, 6, 10, 15, 21, 28, 36, 45, 55, 2, 14, 27, 41, 56, 8, 25, 43, 62, 18, 39, 61, 20, 44]
  const PI: seq<nat> := [10, 7, 11, 17, 18, 3, 5, 16, 8, 21, 24, 4, 15, 23, 19, 13, 12, 2, 20, 14, 22, 9, 6, 1]
  const RC: seq<nat> := [
    0x0000000000000001, 0x0000000000008082, 0x800000000000808A, 0x8000000080008000,
    0x000000000000808B, 0x0000000080000001, 0x8000000080008081, 0x8000000000008009,
    0x000000000000008A, 0x0000000000000088, 0x0000000080008009, 0x000000008000000A,
    0x000000008000808B, 0x800000000000008B, 0x8000000000008089, 0x8000000000008003,
    0x8000000000008002, 0x8000000000000080, 0x000000000000800A, 0x800000008000000A,
    0x8000000080008081, 0x8000000000008080, 0x0000000080000001, 0x8000000080008008
  ]

  function Rol(x: Int, n: nat): Int
    requires n < F.W
  {
    Masked(Shl(x, n) + Shr(x, F.W - n))
  }

  // A left rotation of a 64-bit value moves bit z - n (modulo 64) to bit z and stays below 2^64.
  lemma {:induction false} RolBits(x: Int, n: nat)
    requires n < F.W && Below(x, F.W)
    ensures Below(Rol(x, n), F.W)
    ensures forall z | 0 <= z < F.W :: z in Rol(x, n) <==> (z - n) % F.W in x
  {
    forall z | 0 <= z < F.W
      ensures z in Rol(x, n) <==> (z - n) % F.W in x
    {
      if z >= n {
        assert z in Shl(x, n) <==> z - n in x by { assert z == (z - n) + n; }
        assert z !in Shr(x, F.W - n);
      } else {
        assert z in Shr(x, F.W - n) <==> z - n + F.W in x by { assert z == (z - n + F.W) - (F.W - n); }
        assert z !in Shl(x, n);
      }
    }
  }

  // ----- the state list as a state array of FIPS 202

  type State = s: seq<Int> | |s| == 25 witness seq(25, _ => {})

  // Rows and columns of the state array.
  const SIDE: nat := 5

  // Where the list keeps lane (x, y).
  function Entry(x: nat, y: nat): (k: nat)
    requires x < 5 && y < 5
    ensures k < 25
  {
    5 * y + x
  }

  // The entry of lane (x, y) is below 2^64 and holds the bits of that lane.
  ghost predicate LaneAgrees(s: State, A: F.Bits, x: nat, y: nat)
    requires x < 5 && y < 5
  {
    && Below(s[Entry(x, y)], F.W)
    && forall z | 0 <= z < F.W :: z in s[Entry(x, y)] <==> F.Pos(x, y, z) in A
  }

  ghost predicate Represents(s: State, A: F.Bits) {
    forall x: nat, y: nat | x < 5 && y < 5 :: LaneAgrees(s, A, x, y)
  }

  // ----- theta

  function Parity(s: State, x: int): Int
    requires 0 <= x < 5
  {
    Xor(Xor(Xor(Xor(s[x], s[x + 5]), s[x + 10]), s[x + 15]), s[x + 20])
  }

  function Parities(s: State): seq<Int> {
    seq(5, x requires 0 <= x < 5 => Parity(s, x))
  }

  function MixFrom(c: seq<Int>, x: int): Int
    requires |c| == 5 && 0 <= x < 5
  {
    Xor(c[(x + 4) % 5], Rol(c[(x + 1) % 5], 1))
  }

  function Mixes(s: State): seq<Int> {
    seq(5, x requires 0 <= x < 5 => MixFrom(Parities(s), x))
  }

  // Theta goes column by column: the state once columns 0 to x - 1 and the first y entries of
  // column x have taken up their d.
  function Theta(s: State, d: seq<Int>, x: nat, y: nat): State
    requires |d| == 5 && x < 5 && y <= 5
    decreases x, y
  {
    if y > 0 then Theta(s, d, x, y - 1)[Entry(x, y - 1) := Xor(s[Entry(x, y - 1)], d[x])]
    else if x > 0 then Theta(s, d, x - 1, 5)
    else s
  }

  lemma {:induction false} ThetaAt(s: State, d: seq<Int>, x: nat, y: nat, u: nat, v: nat)
    requires |d| == 5 && x < 5 && y <= 5 && u < 5 && v < 5
    ensures Theta(s, d, x, y)[Entry(u, v)] ==
            if u < x || (u == x && v < y) then Xor(s[Entry(u, v)], d[u]) else s[Entry(u, v)]
    decreases x, y
  {
    if y > 0 {
      ThetaAt(s, d, x, y - 1, u, v);
    } else if x > 0 {
      ThetaAt(s, d, x - 1, 5, u, v);
    }
  }

  lemma ParityBits(s: State, A: F.Bits, x: nat)
    requires Represents(s, A) && x < 5
    ensures Below(Parity(s, x), F.W)
    ensures forall z | 0 <= z < F.W :: z in Parity(s, x) <==> F.Column(A, x, z)
  {
    assert LaneAgrees(s, A, x, 0) && LaneAgrees(s, A, x, 1) && LaneAgrees(s, A, x, 2);
    assert LaneAgrees(s, A, x, 3) && LaneAgrees(s, A, x, 4);
  }

  lemma MixBits(s: State, A: F.Bits, x: nat)
    requires Represents(s, A) && x < 5
    ensures Below(Mixes(s)[x], F.W)
    ensures forall z | 0 <= z < F.W ::
              z in Mixes(s)[x] <==> F.Column(A, (x + 4) % 5, z) != F.Column(A, (x + 1) % 5, (z - 1) % F.W)
  {
    ParityBits(s, A, (x + 4) % 5);
    ParityBits(s, A, (x + 1) % 5);
    RolBits(Parity(s, (x + 1) % 5), 1);
  }

  lemma ThetaLane(s: State, A: F.Bits, x: nat, y: nat)
    requires Represents(s, A) && x < 5 && y < 5
    ensures LaneAgrees(Theta(s, Mixes(s), SIDE - 1, SIDE), F.Theta(A), x, y)
  {
    assert LaneAgrees(s, A, x, y);
    MixBits(s, A, x);
    ThetaAt(s, Mixes(s), SIDE - 1, SIDE, x, y);
    ThetaBits(A, x, y, s[Entry(x, y)], Mixes(s)[x]);
  }

  lemma ThetaBits(A: F.Bits, x: int, y: int, lane: Int, mix: Int)
    requires Below(lane, F.W) && Below(mix, F.W)
    requires forall z | 0 <= z < F.W :: z in lane <==> F.Pos(x, y, z) in A
    requires forall z | 0 <= z < F.W ::
               z in mix <==> F.Column(A, (x + 4) % 5, z) != F.Column(A, (x + 1) % 5, (z - 1) % F.W)
    ensures Below(Xor(lane, mix), F.W)
    ensures forall z | 0 <= z < F.W :: z in Xor(lane, mix) <==> F.Pos(x, y, z) in F.Theta(A)
  {}

  // ----- rho and pi

  // The entry whose old value step i of the walk drops into entry PI[i].
  function Source(i: nat): nat
    requires i < 24
  {
    if i == 0 then 1 else PI[i - 1]
  }

  // The state after i steps of the walk from s.
  function Walked(s: State, i: nat): State
    requires i <= 24
  {
    if i == 0 then s else StepPosition(i - 1); Walked(s, i - 1)[PI[i - 1] := Rol(s[Source(i - 1)], RHO[i - 1])]
  }

  // STEP[k] is the step of the walk that writes entry k.
  const STEP: seq<nat> := [24, 23, 17, 5, 11, 6, 22, 1, 8, 21, 0, 2, 16, 15, 19, 12, 7, 3, 4, 14, 18, 9, 20, 13, 10]

  lemma StepPosition(i: nat)
    requires i < 24
    ensures 1 <= PI[i] < 25 && STEP[PI[i]] == i && RHO[i] < F.W
  {}

  lemma PositionStep(k: nat)
    requires 1 <= k < 25
    ensures STEP[k] < 24 && PI[STEP[k]] == k
  {}

  // One step of the walk, on entry numbers.
  function Next(k: nat): (p: nat)
    requires k < 25
    ensures p < 25 && p % 5 == k / 5 && p / 5 == (2 * (k % 5) + 3 * (k / 5)) % 5
  {
    5 * ((2 * (k % 5) + 3 * (k / 5)) % 5) + k / 5
  }

  lemma TableStep(i: nat)
    requires i < 24
    ensures Source(i) < 25 && PI[i] == Next(Source(i))
  {}

  lemma TableOffset(i: nat)
    requires i < 24
    ensures RHO[i] == F.Offset(i) % F.W
  {
    hide RHO, F.Offset;
    if i < 8 {
      EarlyOffset(i);
    } else if i < 16 {
      MiddleOffset(i);
    } else {
      LateOffset(i);
    }
  }

  lemma EarlyOffset(i: nat)
    requires i < 8
    ensures RHO[i] == F.Offset(i) % F.W
  {}

  lemma MiddleOffset(i: nat)
    requires 8 <= i < 16
    ensures RHO[i] == F.Offset(i) % F.W
  {}

  lemma LateOffset(i: nat)
    requires 16 <= i < 24
    ensures RHO[i] == F.Offset(i) % F.W
  {}

  // The in-place tables follow the walk of FIPS 202 section 3.2.2, and one step of that walk is
  // the move that section 3.2.3 makes afterwards.
  lemma TablesMeetWalk(i: nat)
    requires i < 24
    ensures Source(i) < 25 && PI[i] < 25
    ensures F.Walk(i) == (Source(i) % 5, Source(i) / 5)
    ensures F.Walk(i + 1) == (PI[i] % 5, PI[i] / 5)
  {
    TableStep(i);
    if i > 0 { TablesMeetWalk(i - 1); }
    WalkStep(i, Source(i), PI[i]);
  }

  lemma WalkStep(t: nat, from: nat, to: nat)
    requires from < 25 && to == Next(from)
    requires F.Walk(t) == (from % 5, from / 5)
    ensures F.Walk(t + 1) == (to % 5, to / 5)
  {}

  lemma WalkedStep(s: State, i: nat)
    requires i < 24
    ensures PI[i] < 25 && RHO[i] < F.W && Walked(s, i + 1) == Walked(s, i)[PI[i] := Rol(s[Source(i)], RHO[i])]
  {
    StepPosition(i);
  }

  // Every step of the walk writes an entry that no other step writes and reads an old value.
  lemma {:induction false} WalkedAt(s: State, n: nat, j: nat)
    requires n <= 24 && j < 24
    ensures 1 <= PI[j] < 25
    ensures Walked(s, n)[PI[j]] == if j < n then Rol(s[Source(j)], RHO[j]) else s[PI[j]]
    ensures Walked(s, n)[0] == s[0]
  {
    hide PI, RHO, STEP, Source;
    StepPosition(j);
    if n > 0 {
      StepPosition(n - 1);
      WalkedAt(s, n - 1, j);
      WalkedStep(s, n - 1);
    }
  }

  // FIPS 202 section 3.2.2: its loop leaves at each visited lane the rotation of that lane.
  lemma {:induction false} RhoAt(A: F.Bits, n: nat, j: nat, z: int)
    requires j < n <= 24
    ensures var (x, y) := F.Walk(j); F.RhoBit(A, n, x, y, z) == (F.Pos(x, y, (z - F.Offset(j)) % F.W) in A)
  {
    if j < n - 1 {
      VisitedOnce(j, n - 1);
      RhoAt(A, n - 1, j, z);
    }
  }

  lemma VisitedOnce(i: nat, j: nat)
    requires i < j < 24
    ensures F.Walk(i) != F.Walk(j)
  {
    if F.Walk(i) == F.Walk(j) {
      TablesMeetWalk(i);
      TablesMeetWalk(j);
      SameEntry(Source(i), Source(j));
      SourceStep(i);
      SourceStep(j);
    }
  }

  lemma SameEntry(k: nat, l: nat)
    requires k % 5 == l % 5 && k / 5 == l / 5
    ensures k == l
  {}

  lemma SourceStep(i: nat)
    requires i < 24
    ensures PI[i] == Next(Source(i)) && STEP[PI[i]] == i
  {
    TableStep(i);
    StepPosition(i);
  }

  lemma {:induction false} RhoOrigin(A: F.Bits, n: nat, z: int)
    requires n <= 24
    ensures F.RhoBit(A, n, 0, 0, z) == (F.Pos(0, 0, z) in A)
  {
    if n > 0 {
      RhoOrigin(A, n - 1, z);
      TablesMeetWalk(n - 1);
      if n > 1 { StepPosition(n - 2); }
    }
  }

  lemma RhoLane(from: Int, r: nat, A: F.Bits, i: nat, u: int, v: int)
    requires i < F.TURNS && (u, v) == F.Walk(i)
    requires r == F.Offset(i) % F.W && Below(from, F.W)
    requires forall z | 0 <= z < F.W :: z in from <==> F.Pos(u, v, z) in A
    ensures Below(Rol(from, r), F.W)
    ensures forall z | 0 <= z < F.W :: z in Rol(from, r) <==> F.RhoBit(A, F.TURNS, u, v, z)
  {
    RolBits(from, r);
    forall z | 0 <= z < F.W
      ensures z in Rol(from, r) <==> F.RhoBit(A, F.TURNS, u, v, z)
    {
      RhoAt(A, F.TURNS, i, z);
      SameRotation(z, F.Offset(i), r);
    }
  }

  lemma SameRotation(z: int, o: nat, r: nat)
    requires r == o % F.W
    ensures (z - r) % F.W == (z - o) % F.W
  {}

  // Which turn of the walk fills entry k, from which entry and with which rotation.
  lemma Traced(s: State, k: nat) returns (i: nat, from: nat, r: nat)
    requires 1 <= k < 25
    ensures i < F.TURNS && from < 25 && k == Next(from)
    ensures F.Walk(i) == (from % 5, from / 5)
    ensures r == F.Offset(i) % F.W
    ensures Walked(s, F.TURNS)[k] == Rol(s[from], r)
  {
    PositionStep(k);
    i := STEP[k];
    from, r := Source(i), RHO[i];
    TablesMeetWalk(i);
    TableOffset(i);
    TableStep(i);
    WalkedAt(s, F.TURNS, i);
  }

  lemma Coordinates(from: nat, x: nat, y: nat) returns (u: nat, v: nat)
    requires from < 25 && x < 5 && y < 5 && Entry(x, y) == Next(from)
    ensures u == from % 5 && v == from / 5 && u < 5 && v < 5
    ensures from == Entry(u, v) && x == v && y == (2 * u + 3 * v) % 5
  {
    u, v := from % 5, from / 5;
    EntryInjective(x, y, v, (2 * u + 3 * v) % 5);
  }

  lemma EntryInjective(x: nat, y: nat, u: nat, v: nat)
    requires x < 5 && y < 5 && u < 5 && v < 5 && Entry(x, y) == Entry(u, v)
    ensures x == u && y == v
  {}

  // Rotating along the walk and dropping each lane one step ahead is rho followed by pi.
  lemma RhoPiLane(s: State, A: F.Bits, x: nat, y: nat)
    requires Represents(s, A) && x < 5 && y < 5
    ensures LaneAgrees(Walked(s, F.TURNS), F.Pi(F.Rho(A)), x, y)
  {
    if x == 0 && y == 0 {
      RhoPiOrigin(s, A);
    } else {
      var i, from, r := Traced(s, Entry(x, y));
      var u, v := Coordinates(from, x, y);
      assert LaneAgrees(s, A, u, v);
      RhoLane(s[Entry(u, v)], r, A, i, u, v);
      PiLane(Rol(s[Entry(u, v)], r), A, u, v, x, y);
    }
  }

  lemma RhoPiOrigin(s: State, A: F.Bits)
    requires Represents(s, A)
    ensures LaneAgrees(Walked(s, F.TURNS), F.Pi(F.Rho(A)), 0, 0)
  {
    assert LaneAgrees(s, A, 0, 0);
    WalkedAt(s, F.TURNS, 0);
    forall z: int
      ensures F.RhoBit(A, F.TURNS, 0, 0, z) == (F.Pos(0, 0, z) in A)
    {
      RhoOrigin(A, F.TURNS, z);
    }
  }

  lemma PiUndoesStep(u: int, v: int, x: int, y: int)
    requires 0 <= u < 5 && 0 <= v < 5 && x == v && y == (2 * u + 3 * v) % 5
    ensures u == (x + 3 * y) % 5
  {}

  lemma PiLane(lane: Int, A: F.Bits, u: int, v: int, x: int, y: int)
    requires 0 <= u < 5 && 0 <= v < 5 && x == v && y == (2 * u + 3 * v) % 5
    requires forall z | 0 <= z < F.W :: z in lane <==> F.RhoBit(A, F.TURNS, u, v, z)
    ensures forall z | 0 <= z < F.W :: z in lane <==> F.Pos(x, y, z) in F.Pi(F.Rho(A))
  {
    PiUndoesStep(u, v, x, y);
  }

  // ----- chi

  function ChiAt(s: State, x: nat, y: nat): Int
    requires x < 5 && y < 5
  {
    Xor(s[Entry(x, y)], AndNot(s[Entry((x + 1) % 5, y)], s[Entry((x + 2) % 5, y)]))
  }

  // Chi goes row by row: the state once rows 0 to y - 1 and the first x entries of row y are updated.
  function Chi(s: State, y: nat, x: nat): State
    requires y < 5 && x <= 5
    decreases y, x
  {
    if x > 0 then Chi(s, y, x - 1)[Entry(x - 1, y) := ChiAt(s, x - 1, y)]
    else if y > 0 then Chi(s, y - 1, 5)
    else s
  }

  lemma {:induction false} ChiEntry(s: State, y: nat, x: nat, u: nat, v: nat)
    requires y < 5 && x <= 5 && u < 5 && v < 5
    ensures Chi(s, y, x)[Entry(u, v)] == if v < y || (v == y && u < x) then ChiAt(s, u, v) else s[Entry(u, v)]
    decreases y, x
  {
    if x > 0 {
      ChiEntry(s, y, x - 1, u, v);
    } else if y > 0 {
      ChiEntry(s, y - 1, 5, u, v);
    }
  }

  lemma ChiLane(s: State, A: F.Bits, x: nat, y: nat)
    requires Represents(s, A) && x < 5 && y < 5
    ensures LaneAgrees(Chi(s, SIDE - 1, SIDE), F.Chi(A), x, y)
  {
    assert LaneAgrees(s, A, x, y) && LaneAgrees(s, A, (x + 1) % 5, y) && LaneAgrees(s, A, (x + 2) % 5, y);
    ChiEntry(s, SIDE - 1, SIDE, x, y);
  }

  // ----- iota

  function Iota(s: State, rnd: nat): State
    requires rnd < F.TURNS
  {
    s[0 := Xor(s[0], Positions(RC[rnd]))]
  }

  // c is the constant of round rnd: below 2^64, with the bits that section 3.2.5 gives.
  ghost predicate IsRoundConstant(c: nat, rnd: nat) {
    && Below(Positions(c), F.W)
    && forall z: nat :: z in Positions(c) <==> F.RoundConstant(rnd, z)
  }

  ghost function Pow2(p: nat): nat {
    if p == 0 then 1 else 2 * Pow2(p - 1)
  }

  lemma {:induction false} Pow2Grows(p: nat, q: nat)
    requires p <= q
    ensures 1 <= Pow2(p) <= Pow2(q)
  {
    if p < q { Pow2Grows(p, q - 1); } else if p > 0 { Pow2Grows(p - 1, q - 1); }
  }

  lemma Powers()
    ensures Pow2(0) == 1 && Pow2(1) == 2 && Pow2(3) == 8 && Pow2(7) == 0x80 && Pow2(15) == 0x8000
    ensures Pow2(31) == 0x80000000 && Pow2(63) == 0x8000000000000000
  {
    assert Pow2(11) == 0x800; assert Pow2(15) == 0x8000; assert Pow2(19) == 0x80000; assert Pow2(23) == 0x800000;
    assert Pow2(27) == 0x8000000; assert Pow2(31) == 0x80000000; assert Pow2(35) == 0x800000000;
    assert Pow2(39) == 0x8000000000; assert Pow2(43) == 0x80000000000; assert Pow2(47) == 0x800000000000;
    assert Pow2(51) == 0x8000000000000; assert Pow2(55) == 0x80000000000000; assert Pow2(59) == 0x800000000000000;
  }

  lemma {:induction false} AddTopBit(v: nat, p: nat, low: nat)
    requires v < Pow2(p)
    ensures Positions(v + Pow2(p), low) == Positions(v, low) + {low + p}
  {
    if p > 0 {
      AddTopBit(v / 2, p - 1, low + 1);
      assert (v + Pow2(p)) / 2 == v / 2 + Pow2(p - 1) && (v + Pow2(p)) % 2 == v % 2;
    }
  }

  lemma PlaceBit(v: nat, b: bool, p: nat, value: nat, q: nat) returns (w: nat)
    requires value == Pow2(p) && v < value && p < q
    ensures w == v + Placed(b, value) < Pow2(q)
    ensures forall z: nat :: z in Positions(w) <==> z in Positions(v) || (b && z == p)
  {
    w := v + Placed(b, value);
    Pow2Grows(p + 1, q);
    if b { AddTopBit(v, p, 0); }
  }

  ghost function Placed(b: bool, value: nat): nat {
    if b then value else 0
  }

  // Seven output bits of the register, placed at bits 0, 1, 3, 7, 15, 31 and 63.
  ghost function Assembled(b0: bool, b1: bool, b2: bool, b3: bool, b4: bool, b5: bool, b6: bool): nat {
    Placed(b0, 1) + Placed(b1, 2) + Placed(b2, 8) + Placed(b3, 0x80)
    + Placed(b4, 0x8000) + Placed(b5, 0x80000000) + Placed(b6, 0x8000000000000000)
  }

  lemma NoPositions(v: nat)
    requires v == 0
    ensures Positions(v) == {}
  {}

  lemma AssembledBits(b0: bool, b1: bool, b2: bool, b3: bool, b4: bool, b5: bool, b6: bool)
    ensures forall z: nat ::
      z in Positions(Assembled(b0, b1, b2, b3, b4, b5, b6)) <==>
        || (b0 && z == 0) || (b1 && z == 1) || (b2 && z == 3) || (b3 && z == 7)
        || (b4 && z == 15) || (b5 && z == 31) || (b6 && z == 63)
  {
    hide Positions, Placed, Pow2;
    NoPositions(0);
    Powers();
    var w := PlaceBit(0, b0, 0, 1, 1);
    w := PlaceBit(w, b1, 1, 2, 3);
    w := PlaceBit(w, b2, 3, 8, 7);
    w := PlaceBit(w, b3, 7, 0x80, 15);
    w := PlaceBit(w, b4, 15, 0x8000, 31);
    w := PlaceBit(w, b5, 31, 0x80000000, 63);
    w := PlaceBit(w, b6, 63, 0x8000000000000000, 64);
  }

  ghost predicate Low(r: bv8) {
    r & 1 == 1
  }

  lemma RegisterStep(t: nat, r: bv8) returns (next: bv8)
    requires t < 254 && F.RegisterAt(t) == r
    ensures F.RoundBit(t) == Low(r)
    ensures next == F.Shifted(r) == F.RegisterAt(t + 1)
  {
    next := F.Shifted(r);
  }

  // The seven turns of the register that round rnd makes from r.
  lemma RegisterBlock(rnd: nat, r: bv8) returns (r1: bv8, r2: bv8, r3: bv8, r4: bv8, r5: bv8, r6: bv8, next: bv8)
    requires rnd < F.TURNS && F.RegisterAt(7 * rnd) == r
    ensures r1 == F.Shifted(r) && r2 == F.Shifted(r1) && r3 == F.Shifted(r2) && r4 == F.Shifted(r3)
    ensures r5 == F.Shifted(r4) && r6 == F.Shifted(r5) && next == F.Shifted(r6) == F.RegisterAt(7 * (rnd + 1))
    ensures IsRoundConstant(Assembled(Low(r), Low(r1), Low(r2), Low(r3), Low(r4), Low(r5), Low(r6)), rnd)
  {
    hide Assembled, IsRoundConstant, Low, F.RoundBit, F.Shifted, F.RegisterAt;
    var t := 7 * rnd;
    r1 := RegisterStep(t, r);
    r2 := RegisterStep(t + 1, r1);
    r3 := RegisterStep(t + 2, r2);
    r4 := RegisterStep(t + 3, r3);
    r5 := RegisterStep(t + 4, r4);
    r6 := RegisterStep(t + 5, r5);
    next := RegisterStep(t + 6, r6);
    ConstantBits(rnd, Low(r), Low(r1), Low(r2), Low(r3), Low(r4), Low(r5), Low(r6));
  }

  lemma ConstantBits(rnd: nat, b0: bool, b1: bool, b2: bool, b3: bool, b4: bool, b5: bool, b6: bool)
    requires rnd < F.TURNS
    requires var t := 7 * rnd;
             && b0 == F.RoundBit(t) && b1 == F.RoundBit(t + 1) && b2 == F.RoundBit(t + 2) && b3 == F.RoundBit(t + 3)
             && b4 == F.RoundBit(t + 4) && b5 == F.RoundBit(t + 5) && b6 == F.RoundBit(t + 6)
    ensures IsRoundConstant(Assembled(b0, b1, b2, b3, b4, b5, b6), rnd)
  {
    hide Assembled, F.RoundBit, Positions;
    AssembledBits(b0, b1, b2, b3, b4, b5, b6);
  }

  lemma Constant(rnd: nat, r: bv8, next: bv8)
    requires rnd < F.TURNS && F.RegisterAt(7 * rnd) == r
    requires var r1 := F.Shifted(r); var r2 := F.Shifted(r1); var r3 := F.Shifted(r2); var r4 := F.Shifted(r3);
             var r5 := F.Shifted(r4); var r6 := F.Shifted(r5);
             && next == F.Shifted(r6)
             && RC[rnd] == Assembled(Low(r), Low(r1), Low(r2), Low(r3), Low(r4), Low(r5), Low(r6))
    ensures IsRoundConstant(RC[rnd], rnd) && F.RegisterAt(7 * (rnd + 1)) == next
  {
    var r1, r2, r3, r4, r5, r6, r7 := RegisterBlock(rnd, r);
  }

  lemma Turn(t: nat, r: bv8, next: bv8)
    requires F.RegisterAt(t) == r
    requires next == F.Shifted(F.Shifted(F.Shifted(F.Shifted(F.Shifted(F.Shifted(F.Shifted(r)))))))
    ensures F.RegisterAt(t + 7) == next
  {
    assert F.RegisterAt(t + 1) == F.Shifted(r);
    assert F.RegisterAt(t + 3) == F.Shifted(F.Shifted(F.RegisterAt(t + 1)));
    assert F.RegisterAt(t + 5) == F.Shifted(F.Shifted(F.RegisterAt(t + 3)));
  }

  // The register at the start of every round.
  lemma Registers()
    ensures F.RegisterAt(0) == 0x01 && F.RegisterAt(7) == 0x80 && F.RegisterAt(14) == 0xD8 && F.RegisterAt(21) == 0x1A
    ensures F.RegisterAt(28) == 0xDF && F.RegisterAt(35) == 0x09 && F.RegisterAt(42) == 0x35 && F.RegisterAt(49) == 0x4F
    ensures F.RegisterAt(56) == 0xCA && F.RegisterAt(63) == 0x70 && F.RegisterAt(70) == 0x41 && F.RegisterAt(77) == 0xEC
    ensures F.RegisterAt(84) == 0xD5 && F.RegisterAt(91) == 0xCD && F.RegisterAt(98) == 0x63
    ensures F.RegisterAt(105) == 0xAB
    ensures F.RegisterAt(112) == 0xAA && F.RegisterAt(119) == 0x2A && F.RegisterAt(126) == 0xF2
    ensures F.RegisterAt(133) == 0xE8
    ensures F.RegisterAt(140) == 0x37 && F.RegisterAt(147) == 0x3E && F.RegisterAt(154) == 0x0B
    ensures F.RegisterAt(161) == 0x44
  {
    Turn(0, 0x01, 0x80); Turn(7, 0x80, 0xD8); Turn(14, 0xD8, 0x1A); Turn(21, 0x1A, 0xDF); Turn(28, 0xDF, 0x09);
    Turn(35, 0x09, 0x35);
    Turn(42, 0x35, 0x4F); Turn(49, 0x4F, 0xCA); Turn(56, 0xCA, 0x70); Turn(63, 0x70, 0x41); Turn(70, 0x41, 0xEC);
    Turn(77, 0xEC, 0xD5);
    Turn(84, 0xD5, 0xCD); Turn(91, 0xCD, 0x63); Turn(98, 0x63, 0xAB); Turn(105, 0xAB, 0xAA); Turn(112, 0xAA, 0x2A);
    Turn(119, 0x2A, 0xF2);
    Turn(126, 0xF2, 0xE8); Turn(133, 0xE8, 0x37); Turn(140, 0x37, 0x3E); Turn(147, 0x3E, 0x0B); Turn(154, 0x0B, 0x44);
  }

  lemma EarlyConstants(rnd: nat)
    requires 0 <= rnd < 8
    ensures IsRoundConstant(RC[rnd], rnd)
  {
    hide IsRoundConstant, F.RegisterAt;
    Registers();
    if rnd == 0 { Constant(0, 0x01, 0x80); }
    else if rnd == 1 { Constant(1, 0x80, 0xD8); }
    else if rnd == 2 { Constant(2, 0xD8, 0x1A); }
    else if rnd == 3 { Constant(3, 0x1A, 0xDF); }
    else if rnd == 4 { Constant(4, 0xDF, 0x09); }
    else if rnd == 5 { Constant(5, 0x09, 0x35); }
    else if rnd == 6 { Constant(6, 0x35, 0x4F); }
    else if rnd == 7 { Constant(7, 0x4F, 0xCA); }
  }

  lemma MiddleConstants(rnd: nat)
    requires 8 <= rnd < 16
    ensures IsRoundConstant(RC[rnd], rnd)
  {
    hide IsRoundConstant, F.RegisterAt;
    Registers();
    if rnd == 8 { Constant(8, 0xCA, 0x70); }
    else if rnd == 9 { Constant(9, 0x70, 0x41); }
    else if rnd == 10 { Constant(10, 0x41, 0xEC); }
    else if rnd == 11 { Constant(11, 0xEC, 0xD5); }
    else if rnd == 12 { Constant(12, 0xD5, 0xCD); }
    else if rnd == 13 { Constant(13, 0xCD, 0x63); }
    else if rnd == 14 { Constant(14, 0x63, 0xAB); }
    else if rnd == 15 { Constant(15, 0xAB, 0xAA); }
  }

  lemma LateConstants(rnd: nat)
    requires 16 <= rnd < 24
    ensures IsRoundConstant(RC[rnd], rnd)
  {
    hide IsRoundConstant, F.RegisterAt;
    Registers();
    if rnd == 16 { Constant(16, 0xAA, 0x2A); }
    else if rnd == 17 { Constant(17, 0x2A, 0xF2); }
    else if rnd == 18 { Constant(18, 0xF2, 0xE8); }
    else if rnd == 19 { Constant(19, 0xE8, 0x37); }
    else if rnd == 20 { Constant(20, 0x37, 0x3E); }
    else if rnd == 21 { Constant(21, 0x3E, 0x0B); }
    else if rnd == 22 { Constant(22, 0x0B, 0x44); }
    else if rnd == 23 { Constant(23, 0x44, 0x8E); }
  }

  // The table of round constants is what the shift register of section 3.2.5 produces.
  lemma RoundConstantTable(rnd: nat)
    requires rnd < F.TURNS
    ensures IsRoundConstant(RC[rnd], rnd)
  {
    if rnd < 8 {
      EarlyConstants(rnd);
    } else if rnd < 16 {
      MiddleConstants(rnd);
    } else {
      LateConstants(rnd);
    }
  }

  lemma IotaLane(s: State, A: F.Bits, rnd: nat, x: nat, y: nat)
    requires Represents(s, A) && rnd < F.TURNS && x < 5 && y < 5
    ensures LaneAgrees(Iota(s, rnd), F.Iota(A, rnd), x, y)
  {
    assert LaneAgrees(s, A, x, y);
    if Entry(x, y) == 0 { RoundConstantTable(rnd); }
  }

  // ----- the permutation

  function Round(s: State, rnd: nat): State
    requires rnd < F.TURNS
  {
    Iota(Chi(Walked(Theta(s, Mixes(s), SIDE - 1, SIDE), F.TURNS), SIDE - 1, SIDE), rnd)
  }

  ghost function Turned(s: State, rnd: nat): State {
    if rnd < F.TURNS then Round(s, rnd) else s
  }

  ghost function Rounds(s: State, n: nat): State {
    Iterate(Turned, s, n)
  }

  // One round of the source is one round of FIPS 202 section 3.3, and its lanes stay below 2^64.
  lemma RoundMeetsFips(s: State, A: F.Bits, rnd: nat)
    requires Represents(s, A) && rnd < F.TURNS
    ensures Represents(Round(s, rnd), F.Round(A, rnd))
  {
    var s1, A1 := Theta(s, Mixes(s), SIDE - 1, SIDE), F.Theta(A);
    forall x: nat, y: nat | x < 5 && y < 5 ensures LaneAgrees(s1, A1, x, y) { ThetaLane(s, A, x, y); }
    var s2, A2 := Walked(s1, F.TURNS), F.Pi(F.Rho(A1));
    forall x: nat, y: nat | x < 5 && y < 5 ensures LaneAgrees(s2, A2, x, y) { RhoPiLane(s1, A1, x, y); }
    var s3, A3 := Chi(s2, SIDE - 1, SIDE), F.Chi(A2);
    forall x: nat, y: nat | x < 5 && y < 5 ensures LaneAgrees(s3, A3, x, y) { ChiLane(s2, A2, x, y); }
    forall x: nat, y: nat | x < 5 && y < 5
      ensures LaneAgrees(Iota(s3, rnd), F.Iota(A3, rnd), x, y)
    {
      IotaLane(s3, A3, rnd, x, y);
    }
  }

  lemma RoundsMeetFips(s: State, A: F.Bits)
    requires Represents(s, A)
    ensures Represents(Rounds(s, F.TURNS), F.Rounds(A, F.TURNS))
  {
    forall s: State, A: F.Bits, i: nat | Represents(s, A) && i < F.TURNS
      ensures Represents(Turned(s, i), F.Round(A, i))
    {
      RoundMeetsFips(s, A, i);
    }
    IterateRelated(Turned, F.Round, Represents, s, A, F.TURNS);
  }

  // ----- the in-place methods

  method ThetaStep(st: array<Int>)
    requires st.Length == 25
    modifies st
    ensures st[..] == Theta(old(st[..]), Mixes(old(st[..])), SIDE - 1, SIDE)
  {
    ghost var s: State := st[..];
    var d := ColumnMixes(st);
    for x := 0 to 5
      invariant st[..] == if x < 5 then Theta(s, d, x, 0) else Theta(s, d, SIDE - 1, SIDE)
    {
      AddToColumn(st, x, d, s);
    }
  }

  method ColumnMixes(st: array<Int>) returns (d: seq<Int>)
    requires st.Length == 25
    ensures d == Mixes(st[..])
  {
    var c := ColumnParities(st);
    d := seq(5, x requires 0 <= x < 5 => MixFrom(c, x));
  }

  method ColumnParities(st: array<Int>) returns (c: seq<Int>)
    requires st.Length == 25
    ensures c == Parities(st[..])
  {
    c := seq(5, x requires 0 <= x < 5 reads st =>
      Xor(Xor(Xor(Xor(st[x], st[x + 5]), st[x + 10]), st[x + 15]), st[x + 20]));
  }

  method AddToColumn(st: array<Int>, x: nat, d: seq<Int>, ghost s: State)
    requires st.Length == 25 && x < 5 && |d| == 5
    requires st[..] == Theta(s, d, x, 0)
    modifies st
    ensures st[..] == Theta(s, d, x, 5)
  {
    ghost var n := 0;
    var y := 0;
    while y < 25
      invariant 0 <= n <= 5 && y == 5 * n
      invariant st[..] == Theta(s, d, x, n)
    {
      ThetaAt(s, d, x, n, x, n);
      st[y + x] := Xor(st[y + x], d[x]);
      y, n := y + 5, n + 1;
    }
  }

  method RhoPiStep(st: array<Int>)
    requires st.Length == 25
    modifies st
    ensures st[..] == Walked(old(st[..]), F.TURNS)
  {
    ghost var s: State := st[..];
    var t := st[1];
    for i := 0 to 24
      invariant st[..] == Walked(s, i)
      invariant i < 24 ==> t == s[Source(i)]
    {
      WalkedAt(s, i, i);
      StepPosition(i);
      var j := PI[i];
      t, st[j] := st[j], Rol(t, RHO[i]);
    }
  }

  method ChiStep(st: array<Int>)
    requires st.Length == 25
    modifies st
    ensures st[..] == Chi(old(st[..]), SIDE - 1, SIDE)
  {
    ghost var s: State := st[..];
    ghost var n := 0;
    var y := 0;
    while y < 25
      invariant 0 <= n <= 5 && y == 5 * n
      invariant st[..] == if n < 5 then Chi(s, n, 0) else Chi(s, SIDE - 1, SIDE)
    {
      var row := st[y..y + 5];
      ChiRow(s, n);
      for x := 0 to 5
        invariant st[..] == Chi(s, n, x)
      {
        st[y + x] := Xor(row[x], AndNot(row[(x + 1) % 5], row[(x + 2) % 5]));
      }
      y, n := y + 5, n + 1;
    }
  }

  // Before a row is updated it still holds its old entries.
  lemma ChiRow(s: State, y: nat)
    requires y < 5
    ensures forall x: nat | x < 5 :: Chi(s, y, 0)[5 * y + x] == s[Entry(x, y)]
  {
    forall x: nat | x < 5
      ensures Chi(s, y, 0)[5 * y + x] == s[Entry(x, y)]
    {
      ChiEntry(s, y, 0, x, y);
    }
  }

  method RoundStep(st: array<Int>, rnd: nat)
    requires st.Length == 25 && rnd < F.TURNS
    modifies st
    ensures st[..] == Round(old(st[..]), rnd)
  {
    ThetaStep(st);
    RhoPiStep(st);
    ChiStep(st);
    ghost var s: State := st[..];
    st[0] := Xor(st[0], Positions(RC[rnd]));
    assert st[..] == Iota(s, rnd);
  }

  // One turn of the source's loop, on the state that rnd rounds have made of s.
  method NextRound(st: array<Int>, rnd: nat, ghost s: State)
    requires st.Length == 25 && rnd < F.TURNS && st[..] == Rounds(s, rnd)
    modifies st
    ensures st[..] == Rounds(s, rnd + 1)
  {
    ghost var before: State := st[..];
    RoundStep(st, rnd);
    OneMoreRound(s, rnd, before, st[..]);
  }

  lemma OneMoreRound(s: State, n: nat, before: State, after: State)
    requires n < F.TURNS && before == Rounds(s, n) && after == Round(before, n)
    ensures after == Rounds(s, n + 1)
  {}

  // The permutation in place: 24 rounds of FIPS 202 on the state array that the list represents.
  method KeccakF1600(st: array<Int>, ghost A: F.Bits)
    requires st.Length == 25 && Represents(st[..], A)
    modifies st
    ensures Represents(st[..], F.Rounds(A, F.TURNS))
  {
    for rnd := 0 to 24
      invariant st[..] == Rounds(old(st[..]), rnd)
    {
      NextRound(st, rnd, old(st[..]));
    }
    PermutedMeetsFips(old(st[..]), st[..], A);
  }

  lemma PermutedMeetsFips(s: State, t: State, A: F.Bits)
    requires Represents(s, A) && t == Rounds(s, F.TURNS)
    ensures Represents(t, F.Rounds(A, F.TURNS))
  {
    RoundsMeetFips(s, A);
  }

  // ----- the sponge

  // A byte string of the source; FIPS 202 appendix B.1 reads each byte from its low bit upwards.
  type Bytes = bs: seq<Int> | forall k | 0 <= k < |bs| :: Below(bs[k], 8) witness []

  const RATE: nat := 136

  ghost function BitString(bs: Bytes): (r: seq<bool>)
    ensures |r| == 8 * |bs|
  {
    seq(8 * |bs|, p requires 0 <= p < 8 * |bs| => p % 8 in bs[p / 8])
  }

  // int.from_bytes(..., "little") of eight bytes.
  function FromBytes(bs: seq<Int>): Int {
    set k: nat, i | k < |bs| && i in bs[k] :: 8 * k + i
  }

  // to_bytes(8, "little").
  function ToBytes(x: Int): Bytes
    requires Below(x, F.W)
  {
    seq(8, k requires 0 <= k < 8 => set i | i in x && 8 * k <= i < 8 * k + 8 :: i - 8 * k)
  }

  function ZeroBytes(n: nat): Bytes {
    seq(n, _ => {})
  }

  // The zero bytes that the source's padding loop appends after the byte 0x01.
  function Fill(n: nat): nat {
    (RATE - (n + 1) % RATE) % RATE
  }

  function Padded(data: Bytes): Bytes {
    var block := data + [{0}] + ZeroBytes(Fill(|data|));
    block[|block| - 1 := Xor(block[|block| - 1], {7})]
  }

  // The padded length is the least multiple of the rate above the data length.
  lemma PaddedLength(data: Bytes)
    ensures |Padded(data)| % RATE == 0 && |data| < |Padded(data)| <= |data| + RATE
  {}

  lemma PaddedAt(data: Bytes, k: nat)
    requires k < |Padded(data)|
    ensures Padded(data)[k] ==
            if k < |data| then data[k]
            else (if k == |data| then {0} else {}) + (if k == |Padded(data)| - 1 then {7} else {})
  {}

  // Padding loses nothing, whatever the two lengths.
  lemma PaddedInjective(a: Bytes, b: Bytes)
    requires Padded(a) == Padded(b) && |a| <= |b|
    ensures a == b
  {
    PaddedLength(a);
    PaddedLength(b);
    PaddedAt(a, |b|);
    PaddedAt(b, |b|);
    forall k: nat | k < |a|
      ensures a[k] == b[k]
    {
      PaddedAt(a, k);
      PaddedAt(b, k);
    }
  }

  lemma PadLength(n: nat)
    ensures |F.Pad(8 * n)| == 8 * (1 + Fill(n))
  {
    var t := (n + 1 + Fill(n)) / RATE;
    assert n + 1 + Fill(n) == 136 * t;
    Residue(-(8 * n) - 2, 8 * Fill(n) + 6, t);
  }

  lemma Residue(a: int, r: int, t: int)
    requires a == r - 1088 * t && 0 <= r < 1088
    ensures a % F.RATE == r
  {}

  lemma PadBit(m: nat, p: nat)
    requires p < |F.Pad(m)|
    ensures F.Pad(m)[p] == (p == 0 || p == |F.Pad(m)| - 1)
  {}

  lemma PaddedBit(data: Bytes, p: nat)
    requires p < 8 * |Padded(data)|
    ensures |F.Pad(8 * |data|)| == 8 * (|Padded(data)| - |data|)
    ensures BitString(Padded(data))[p] == (BitString(data) + F.Pad(8 * |data|))[p]
  {
    var k, i := p / 8, p % 8;
    PadLength(|data|);
    PaddedAt(data, k);
    if k >= |data| { PadBit(8 * |data|, p - 8 * |data|); }
  }

  // In bits the padding is pad10*1 of FIPS 202 section 5.1 and nothing else.
  lemma {:induction false} PaddedBits(data: Bytes)
    ensures BitString(Padded(data)) == BitString(data) + F.Pad(8 * |data|)
  {
    PadLength(|data|);
    forall p | 0 <= p < 8 * |Padded(data)|
      ensures BitString(Padded(data))[p] == (BitString(data) + F.Pad(8 * |data|))[p]
    {
      PaddedBit(data, p);
    }
  }

  // Lanes of one block that the source folds into the state.
  const LANES: nat := 17

  function Word(block: seq<Int>, i: nat): Int
    requires |block| == RATE && i < LANES
  {
    FromBytes(block[8 * i..8 * i + 8])
  }

  // The state once the first n words of a block are folded in.
  function Folded(s: State, block: seq<Int>, n: nat): State
    requires |block| == RATE && n <= LANES
  {
    if n == 0 then s else Folded(s, block, n - 1)[n - 1 := Xor(s[n - 1], Word(block, n - 1))]
  }

  lemma {:induction false} FoldedAt(s: State, block: seq<Int>, n: nat, k: nat)
    requires |block| == RATE && n <= LANES && k < 25
    ensures Folded(s, block, n)[k] == if k < n then Xor(s[k], Word(block, k)) else s[k]
  {
    if n > 0 {
      FoldedAt(s, block, n - 1, k);
    }
  }

  lemma WordBits(block: Bytes, i: nat)
    requires |block| == RATE && i < LANES
    ensures Below(Word(block, i), F.W)
    ensures forall z | 0 <= z < F.W :: z in Word(block, i) <==> BitString(block)[64 * i + z]
  {
    var bs := block[8 * i..8 * i + 8];
    forall z | 0 <= z < F.W
      ensures z in Word(block, i) <==> BitString(block)[64 * i + z]
    {
      assert (64 * i + z) / 8 == 8 * i + z / 8 && (64 * i + z) % 8 == z % 8;
      assert bs[z / 8] == block[8 * i + z / 8];
      if z % 8 in bs[z / 8] {
        assert z == 8 * (z / 8) + z % 8;
      }
      if z in FromBytes(bs) {
        var k: nat, j :| k < |bs| && j in bs[k] && z == 8 * k + j;
        assert k == z / 8 && j == z % 8;
      }
    }
  }

  lemma FoldedLane(s: State, A: F.Bits, block: Bytes, x: nat, y: nat)
    requires Represents(s, A) && |block| == RATE && x < 5 && y < 5
    ensures LaneAgrees(Folded(s, block, LANES), F.Absorbed(A, BitString(block)), x, y)
  {
    var k := Entry(x, y);
    assert LaneAgrees(s, A, x, y);
    FoldedAt(s, block, LANES, k);
    if k < LANES { WordBits(block, k); }
  }

  lemma FoldedMeetsFips(s: State, A: F.Bits, block: Bytes, t: State)
    requires Represents(s, A) && |block| == RATE && t == Folded(s, block, LANES)
    ensures Represents(t, F.Absorbed(A, BitString(block)))
  {
    forall x: nat, y: nat | x < 5 && y < 5
      ensures LaneAgrees(t, F.Absorbed(A, BitString(block)), x, y)
    {
      FoldedLane(s, A, block, x, y);
    }
  }

  lemma BitStringSplit(P: Bytes)
    requires |P| >= RATE
    ensures BitString(P)[..F.RATE] == BitString(P[..RATE])
    ensures BitString(P)[F.RATE..] == BitString(P[RATE..])
  {
    forall p | 0 <= p < 8 * (|P| - RATE)
      ensures BitString(P)[F.RATE..][p] == BitString(P[RATE..])[p]
    {
      assert (p + 1088) / 8 == p / 8 + 136 && (p + 1088) % 8 == p % 8;
    }
  }

  // Taking the first block of what is left to absorb.
  lemma FirstBlock(A: F.Bits, P: Bytes, head: Bytes, rest: Bytes, goal: F.Bits)
    requires |head| == RATE && P == head + rest && F.Absorb(A, BitString(P)) == goal
    ensures F.Absorb(F.Rounds(F.Absorbed(A, BitString(head)), F.TURNS), BitString(rest)) == goal
  {
    assert P[..RATE] == head && P[RATE..] == rest;
    BitStringSplit(P);
    TakeBlock(A, BitString(P), F.Rounds(F.Absorbed(A, BitString(head)), F.TURNS), BitString(rest));
  }

  lemma TakeBlock(A: F.Bits, N: seq<bool>, B: F.Bits, rest: seq<bool>)
    requires |N| >= F.RATE && rest == N[F.RATE..]
    requires B == F.Rounds(F.Absorbed(A, N[..F.RATE]), F.TURNS)
    ensures F.Absorb(A, N) == F.Absorb(B, rest)
  {}

  lemma NothingLeft(t: State, B: F.Bits, rest: Bytes, goal: F.Bits)
    requires Represents(t, B) && |rest| == 0 && F.Absorb(B, BitString(rest)) == goal
    ensures Represents(t, goal)
  {}

  // The bytes of the first n entries, each of which fits in eight bytes.
  ghost predicate AreBytesOf(out: Bytes, s: State, n: nat)
    requires n <= 25
  {
    && |out| == 8 * n
    && forall i | 0 <= i < n :: Below(s[i], F.W) && forall k | 0 <= k < 8 :: out[8 * i + k] == ToBytes(s[i])[k]
  }

  // The first 32 of the bytes squeezed are the first 256 bits of the state.
  lemma SqueezedBits(s: State, A: F.Bits, out: Bytes)
    requires Represents(s, A) && AreBytesOf(out, s, 4)
    ensures BitString(out) == F.Truncated(A, 256)
  {
    forall p | 0 <= p < 256
      ensures BitString(out)[p] == F.Truncated(A, 256)[p]
    {
      var i, z := p / 64, p % 64;
      assert LaneAgrees(s, A, i, 0);
      assert p / 8 == 8 * i + z / 8 && p % 8 == z % 8;
      assert out[8 * i + z / 8] == ToBytes(s[i])[z / 8];
      assert z == 8 * (z / 8) + z % 8;
    }
  }

  lemma {:induction false} FillIsLeast(n: nat, m: nat)
    requires n < m <= n + 1 + Fill(n)
    ensures m % RATE == 0 <==> m == n + 1 + Fill(n)
  {}

  method Pad(data: Bytes) returns (block: Bytes)
    ensures block == Padded(data)
  {
    var b: seq<Int> := data + [{0}];
    FillIsLeast(|data|, |b|);
    while |b| % RATE != 0
      invariant |data| < |b| <= |data| + 1 + Fill(|data|)
      invariant |b| % RATE == 0 <==> |b| == |data| + 1 + Fill(|data|)
      invariant b == data + [{0}] + ZeroBytes(|b| - |data| - 1)
      decreases |data| + 1 + Fill(|data|) - |b|
    {
      b := b + [{}];
      FillIsLeast(|data|, |b|);
    }
    block := b[|b| - 1 := Xor(b[|b| - 1], {7})];
  }

  method FoldBlock(st: array<Int>, block: Bytes, off: nat, ghost A: F.Bits)
    requires st.Length == 25 && off + RATE <= |block| && Represents(st[..], A)
    modifies st
    ensures Represents(st[..], F.Absorbed(A, BitString(block[off..off + RATE])))
  {
    ghost var s: State, b := st[..], block[off..off + RATE];
    for i := 0 to LANES
      invariant st[..] == Folded(s, b, i)
    {
      FoldedAt(s, b, i, i);
      WordOfBlock(block, off, i);
      st[i] := Xor(st[i], FromBytes(block[off + i * 8..off + i * 8 + 8]));
    }
    FoldedMeetsFips(s, A, b, st[..]);
  }

  lemma WordOfBlock(block: Bytes, off: nat, i: nat)
    requires off + RATE <= |block| && i < LANES
    ensures block[off + i * 8..off + i * 8 + 8] == block[off..off + RATE][8 * i..8 * i + 8]
  {
    var word, w := block[off + i * 8..off + i * 8 + 8], block[off..off + RATE][8 * i..8 * i + 8];
    forall k | 0 <= k < 8
      ensures word[k] == w[k]
    {
      assert w[k] == block[off..off + RATE][8 * i + k] == block[off + (8 * i + k)];
    }
  }

  // One turn of the absorbing loop takes the first block off what is left to absorb.
  method AbsorbBlock(st: array<Int>, block: Bytes, off: nat, ghost A: F.Bits, ghost goal: F.Bits)
    returns (ghost B: F.Bits)
    requires st.Length == 25 && off + RATE <= |block| && Represents(st[..], A)
    requires F.Absorb(A, BitString(block[off..])) == goal
    modifies st
    ensures Represents(st[..], B)
    ensures F.Absorb(B, BitString(block[off + RATE..])) == goal
  {
    ghost var folded := F.Absorbed(A, BitString(block[off..off + RATE]));
    FoldBlock(st, block, off, A);
    KeccakF1600(st, folded);
    B := F.Rounds(folded, F.TURNS);
    assert block[off..] == block[off..off + RATE] + block[off + RATE..];
    FirstBlock(A, block[off..], block[off..off + RATE], block[off + RATE..], goal);
  }

  // The absorbing loop is FIPS 202 section 4, steps 5 and 6, on the bits of the same string.
  method AbsorbAll(st: array<Int>, block: Bytes, ghost n: nat, ghost A: F.Bits, ghost goal: F.Bits)
    requires st.Length == 25 && |block| == 136 * n && Represents(st[..], A)
    requires goal == F.Absorb(A, BitString(block))
    modifies st
    ensures Represents(st[..], goal)
  {
    ghost var B, i := A, 0;
    var off := 0;
    assert block[0..] == block;
    while off < |block|
      invariant 0 <= i <= n && off == 136 * i
      invariant Represents(st[..], B)
      invariant F.Absorb(B, BitString(block[off..])) == goal
    {
      B := AbsorbBlock(st, block, off, B, goal);
      off, i := off + RATE, i + 1;
    }
    NothingLeft(st[..], B, block[off..], goal);
  }

  method Squeeze(st: array<Int>, ghost A: F.Bits) returns (out: Bytes)
    requires st.Length == 25 && Represents(st[..], A)
    ensures AreBytesOf(out, st[..], 4)
  {
    var all: Bytes := [];
    for i := 0 to LANES
      invariant AreBytesOf(all, st[..], i)
    {
      assert LaneAgrees(st[..], A, i % 5, i / 5) && Entry(i % 5, i / 5) == i;
      all := all + ToBytes(st[i]);
    }
    out := all[..32];
  }

  // The digest of any byte string is the Keccak of FIPS 202 section 4 with capacity 512 and 256 bits
  // of output, read over the string's bits with pad10*1 and no suffix in front of it.
  method Keccak256(data: Bytes) returns (out: Bytes)
    ensures |out| == 32
    ensures BitString(out) == F.Keccak256(BitString(data))
  {
    var st := new Int[25](_ => {});
    ghost var A: F.Bits := iset{};
    assert forall x: nat, y: nat | x < 5 && y < 5 :: LaneAgrees(st[..], A, x, y);
    var block := Pad(data);
    PaddedLength(data);
    PaddedBits(data);
    ghost var B := F.Absorb(A, BitString(block));
    AbsorbAll(st, block, |block| / RATE, A, B);
    out := Squeeze(st, B);
    SqueezedBits(st[..], B, out);
  }
}
