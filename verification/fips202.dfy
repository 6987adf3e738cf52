// Repeating a numbered step.
module Iteration {
  ghost function Iterate<T>(step: (T, nat) -> T, t: T, n: nat): T
    decreases n, t
  {
    if n == 0 then t else step(Iterate(step, t, n - 1), n - 1)
  }

  // A relation that every pair of steps keeps is kept by any number of them.
  lemma {:induction false} IterateRelated<S(!new), T(!new)>(
    f: (S, nat) -> S, g: (T, nat) -> T, related: (S, T) -> bool, s: S, t: T, n: nat)
    requires related(s, t)
    requires forall s: S, t: T, i: nat | related(s, t) && i < n :: related(f(s, i), g(t, i))
    ensures related(Iterate(f, s, n), Iterate(g, t, n))
  {
    if n > 0 { IterateRelated(f, g, related, s, t, n - 1); }
  }
}

// The bit-level definitions of FIPS 202 (SHA-3 Standard) that the vendored Keccak has to meet:
// the step mappings of sections 3.2.1 to 3.2.5 at lane width 64, KECCAK-p[1600, 24] of section 3.3,
// and the sponge of section 4 with pad10*1 of section 5.1 at rate 1088 and no SHA-3 suffix.
module Fips202 {
  import opened Iteration

  const W: nat := 64

  // A bit position A[x, y, z] of the state array; only 0 <= x, y < 5 and 0 <= z < W is read.
  datatype Pos = Pos(x: int, y: int, z: int)

  // A state array, as the set of positions that hold a one.
  type Bits = iset<Pos>

  // Section 3.2.1, step 1: the parity of a column.
  ghost predicate Column(A: Bits, x: int, z: int) {
    ((((Pos(x, 0, z) in A) != (Pos(x, 1, z) in A)) != (Pos(x, 2, z) in A)) != (Pos(x, 3, z) in A)) !=
    (Pos(x, 4, z) in A)
  }

  // Section 3.2.1, steps 2 and 3.
  ghost function Theta(A: Bits): Bits {
    iset p: Pos | (p in A) != (Column(A, (p.x + 4) % 5, p.z) != Column(A, (p.x + 1) % 5, (p.z - 1) % W))
  }

  // Section 3.2.2: the lane visited at turn t of its loop.
  ghost function Walk(t: nat): (xy: (int, int))
    ensures 0 <= xy.0 < 5 && 0 <= xy.1 < 5
  {
    if t == 0 then (1, 0) else (Walk(t - 1).1, (2 * Walk(t - 1).0 + 3 * Walk(t - 1).1) % 5)
  }

  // Section 3.2.2, step 3a: the rotation of the lane visited at turn t.
  ghost function Offset(t: nat): nat {
    (t + 1) * (t + 2) / 2
  }

  // Section 3.2.2: a bit of the array that t turns of its loop have built.
  ghost predicate RhoBit(A: Bits, t: nat, x: int, y: int, z: int) {
    if t == 0 then Pos(x, y, z) in A
    else if (x, y) == Walk(t - 1) then Pos(x, y, (z - Offset(t - 1)) % W) in A
    else RhoBit(A, t - 1, x, y, z)
  }

  // Turns of the loop of section 3.2.2, and rounds of section 3.3.
  const TURNS: nat := 24

  ghost function Rho(A: Bits): Bits {
    iset p: Pos | RhoBit(A, TURNS, p.x, p.y, p.z)
  }

  // Section 3.2.3.
  ghost function Pi(A: Bits): Bits {
    iset p: Pos | Pos((p.x + 3 * p.y) % 5, p.x, p.z) in A
  }

  // Section 3.2.4.
  ghost function Chi(A: Bits): Bits {
    iset p: Pos | (p in A) != (Pos((p.x + 1) % 5, p.y, p.z) !in A && Pos((p.x + 2) % 5, p.y, p.z) in A)
  }

  // Algorithm 5 of section 3.2.5, steps 3a to 3f, on the eight-bit register R with R[i] as bit i:
  // a zero enters at R[0], and the bit leaving R[7] is added to R[0], R[4], R[5] and R[6].
  ghost function Shifted(r: bv8): bv8 {
    (r << 1) ^ (if r & 0x80 == 0 then 0 else 0x71)
  }

  ghost function RegisterAt(t: nat): bv8 {
    if t == 0 then 1 else Shifted(RegisterAt(t - 1))
  }

  // rc(t) of section 3.2.5.
  ghost predicate RoundBit(t: nat) {
    RegisterAt(t % 255) & 1 == 1
  }

  // Algorithm 6, steps 2 and 3: bit z of the constant RC of round ir.
  ghost predicate RoundConstant(ir: nat, z: int) {
    || (z == 0 && RoundBit(7 * ir))
    || (z == 1 && RoundBit(7 * ir + 1))
    || (z == 3 && RoundBit(7 * ir + 2))
    || (z == 7 && RoundBit(7 * ir + 3))
    || (z == 15 && RoundBit(7 * ir + 4))
    || (z == 31 && RoundBit(7 * ir + 5))
    || (z == 63 && RoundBit(7 * ir + 6))
  }

  // Section 3.2.5.
  ghost function Iota(A: Bits, ir: nat): Bits {
    iset p: Pos | (p in A) != (p.x == 0 && p.y == 0 && RoundConstant(ir, p.z))
  }

  ghost function Round(A: Bits, ir: nat): Bits {
    Iota(Chi(Pi(Rho(Theta(A)))), ir)
  }

  // Section 3.3: rounds 0 to n - 1.
  ghost function Rounds(A: Bits, n: nat): Bits {
    Iterate(Round, A, n)
  }

  const RATE: nat := 1088

  // Section 5.1: pad10*1(RATE, m).
  ghost function Pad(m: nat): (r: seq<bool>)
    ensures (m + |r|) % RATE == 0
  {
    var j: int := (-(m as int) - 2) % RATE;
    [true] + seq(j, _ => false) + [true]
  }

  // Section 4, step 6, on one rate-wide block P whose capacity part is zero; bit W(5y + x) + z of
  // the string is bit (x, y, z) of the array (section 3.1.2).
  ghost function Absorbed(A: Bits, P: seq<bool>): Bits {
    iset p: Pos | (p in A) != (0 <= W * (5 * p.y + p.x) + p.z < |P| && P[W * (5 * p.y + p.x) + p.z])
  }

  // Section 4, step 6, over the blocks of the padded string P.
  ghost function Absorb(A: Bits, P: seq<bool>): Bits
    decreases |P|
  {
    if |P| < RATE then A else Absorb(Rounds(Absorbed(A, P[..RATE]), TURNS), P[RATE..])
  }

  // Section 3.1.3: the first n bits of the state array read back as a string.
  ghost function Truncated(A: Bits, n: nat): seq<bool> {
    seq(n, p requires 0 <= p < n => Pos(p / W % 5, p / W / 5, p % W) in A)
  }

  // KECCAK[512](N, 256): the sponge with no domain suffix before the padding.
  ghost function Keccak256(N: seq<bool>): seq<bool> {
    Truncated(Absorb(iset{}, N + Pad(|N|)), 256)
  }
}
