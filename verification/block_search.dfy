// clif/observe/reward_rule.py: the first block at or after a time, on a node that may have pruned old blocks.
module BlockSearch {
  import opened Hex

  const TRIES: nat := 4

  // One answer to a timestamp read; notFound: the error text says so.
  datatype Reply = Stamp(ts: int) | Error(notFound: bool)

  datatype Outcome = Found(block: nat) | Raised

  // Replies by block and attempt.
  type Node = (nat, nat) -> Reply

  // The last attempt that counts: the first that answers, or the last allowed.
  method BlockTsRetry(node: Node, n: nat) returns (r: Reply)
    ensures exists i :: 0 <= i < TRIES && r == node(n, i) && (r.Stamp? || i == TRIES - 1) &&
                        forall j :: 0 <= j < i ==> node(n, j).Error?
  {
    var i := 0;
    r := node(n, 0);
    while r.Error? && i < TRIES - 1
      invariant 0 <= i < TRIES && r == node(n, i) && forall j :: 0 <= j < i ==> node(n, j).Error?
    {
      i := i + 1;
      r := node(n, i);
    }
  }

  // A block is served when one of four attempts answers, gone when all fail and the last says it was not found.
  ghost predicate Served(node: Node, n: nat) {
    exists i :: 0 <= i < TRIES && node(n, i).Stamp?
  }

  ghost predicate Gone(node: Node, n: nat) {
    !Served(node, n) && node(n, TRIES - 1) == Error(true)
  }

  // Four attempts, and what the last of them says.
  lemma FourAttempts(node: Node, n: nat)
    ensures Served(node, n) <==> exists r :: r in [node(n, 0), node(n, 1), node(n, 2), node(n, 3)] && r.Stamp?
    ensures Gone(node, n) <==>
              (forall r :: r in [node(n, 0), node(n, 1), node(n, 2)] ==> r.Error?) && node(n, 3) == Error(true)
  {
    var replies := [node(n, 0), node(n, 1), node(n, 2), node(n, 3)];
    assert forall i :: 0 <= i < 4 ==> node(n, i) == replies[i];
    assert forall i :: 0 <= i < 3 ==> [node(n, 0), node(n, 1), node(n, 2)][i] == replies[i];
    if r :| r in replies && r.Stamp? { var i :| 0 <= i < 4 && replies[i] == r; }
  }

  // The node prunes below some block and nowhere else; what it serves it dates truly, and times never fall.
  ghost predicate Pruned(node: Node, time: nat -> int, keep: nat) {
    && (forall n: nat :: n < keep ==> !Served(node, n))
    && (forall n: nat :: n >= keep ==> !Gone(node, n))
    && (forall n: nat, i: nat :: i < TRIES && node(n, i).Stamp? ==> node(n, i).ts == time(n))
    && (forall m: nat, n: nat :: keep <= m <= n ==> time(m) <= time(n))
  }

  // How often a number can be halved before nothing is left.
  function Halvings(n: nat): nat {
    if n == 0 then 0 else 1 + Halvings(n / 2)
  }

  function Pow2(k: nat): nat {
    if k == 0 then 1 else 2 * Pow2(k - 1)
  }

  function Middle(lo: nat, hi: nat): nat {
    (lo + hi) / 2
  }

  // So many probes are enough for the blocks from lo up to hi.
  ghost predicate Enough(budget: int, lo: nat, hi: nat) {
    budget >= 0 && (lo <= hi ==> Halvings(hi - lo) <= budget)
  }

  // Whatever a probe in the middle says, one probe less is enough for the rest.
  lemma Midpoint(budget: int, lo: nat, hi: nat, mid: nat)
    requires lo < hi && mid == Middle(lo, hi) && Enough(budget, lo, hi)
    ensures lo <= mid < hi && Enough(budget - 1, mid + 1, hi) && Enough(budget - 1, lo, mid)
  {
    var d := hi - lo;
    assert mid == lo + d / 2;
    HalvingsGrow(hi - (mid + 1), d / 2);
  }

  // floor(log2 n) + 1 of a positive number.
  lemma {:induction false} HalvingsIsLog(n: nat)
    requires n > 0
    ensures Pow2(Halvings(n) - 1) <= n < Pow2(Halvings(n))
  {
    if n > 1 { HalvingsIsLog(n / 2); }
  }

  lemma {:induction false} HalvingsGrow(m: nat, n: nat)
    requires m <= n
    ensures Halvings(m) <= Halvings(n)
  {
    if m > 0 { HalvingsGrow(m / 2, n / 2); }
  }

  // What one probe says about every block up to it, or from it on.
  lemma ProbeDecides(node: Node, time: nat -> int, keep: nat, mid: nat, target: int)
    requires Pruned(node, time, keep)
    ensures Gone(node, mid) || (Served(node, mid) && time(mid) < target) ==>
              forall n: nat :: n <= mid && Served(node, n) ==> time(n) < target
  {}

  lemma ReplyDecides(node: Node, time: nat -> int, keep: nat, n: nat, i: nat)
    requires Pruned(node, time, keep) && i < TRIES && (node(n, i).Stamp? || i == TRIES - 1)
    requires forall j :: 0 <= j < i ==> node(n, j).Error?
    ensures node(n, i).Stamp? ==> Served(node, n) && node(n, i).ts == time(n)
    ensures node(n, i).Error? ==> !Served(node, n) && (node(n, i).notFound <==> Gone(node, n))
  {}

  datatype Verdict = Higher | Lower | Fails

  // One probe: a block that is gone is older than any recent target.
  method Probe(node: Node, mid: nat, target: int, ghost time: nat -> int, ghost keep: nat) returns (v: Verdict)
    requires Pruned(node, time, keep)
    ensures v.Fails? <==> !Served(node, mid) && !Gone(node, mid)
    ensures v.Lower? <==> Served(node, mid) && time(mid) >= target
    ensures v.Higher? ==> Below(node, time, mid + 1, target)
  {
    hide Pruned, Served, Gone;
    var reply := BlockTsRetry(node, mid);
    ghost var i :| 0 <= i < TRIES && reply == node(mid, i) && (reply.Stamp? || i == TRIES - 1) &&
                   forall j :: 0 <= j < i ==> node(mid, j).Error?;
    ReplyDecides(node, time, keep, mid, i);
    ProbeDecides(node, time, keep, mid, target);
    ServedOrGone(node, mid);
    v := match reply
         case Error(notFound) => if notFound then Higher else Fails
         case Stamp(ts) => if ts < target then Higher else Lower;
  }

  lemma ServedOrGone(node: Node, n: nat)
    ensures !(Served(node, n) && Gone(node, n))
  {}

  predicate Distinct(s: seq<nat>) {
    forall i, j :: 0 <= i < j < |s| ==> s[i] != s[j]
  }

  lemma DistinctSnoc(s: seq<nat>, x: nat)
    requires Distinct(s) && x !in s
    ensures Distinct(s + [x])
  {}

  // No served block below this one qualifies.
  ghost predicate Below(node: Node, time: nat -> int, lo: nat, target: int) {
    forall n: nat :: n < lo && Served(node, n) ==> time(n) < target
  }

  method FindBlockForTs(node: Node, head: nat, target: int, ghost time: nat -> int, ghost keep: nat)
    returns (r: Outcome, probes: seq<nat>)
    requires Pruned(node, time, keep)
    // It raises only on a block that fails for another reason.
    ensures r.Raised? ==> probes != [] && !Served(node, probes[|probes| - 1]) && !Gone(node, probes[|probes| - 1])
    // Block 0 is never looked at, and a chain of nothing else is answered with block 1.
    ensures r.Found? ==> r.block == 1 || Below(node, time, r.block, target)
    ensures r.Found? ==> 1 <= r.block && (r.block <= head || head == 0)
    ensures r.Found? && r.block < head ==> Served(node, r.block) && time(r.block) >= target
    // No block is asked for twice, and few are.
    ensures Distinct(probes)
    ensures |probes| <= if head == 0 then 0 else Halvings(head - 1)
  {
    var lo: nat, hi: nat := 1, head;
    ghost var allowed := if head == 0 then 0 else Halvings(head - 1);
    ghost var budget := allowed;
    probes := [];
    while lo < hi
      invariant 1 <= lo && (lo <= hi || head == 0) && hi <= head && (head == 0 ==> lo == 1)
      invariant forall n :: n in probes ==> n < lo || n >= hi
      invariant hi < head ==> Served(node, hi) && time(hi) >= target
      invariant lo == 1 || Below(node, time, lo, target)
      invariant Distinct(probes)
      invariant |probes| + budget == allowed && Enough(budget, lo, hi)
      decreases hi - lo
    {
      hide Pruned, Served, Gone, Halvings, Middle, Below, Distinct, Enough;
      var mid := Middle(lo, hi);
      Midpoint(budget, lo, hi, mid);
      budget := budget - 1;
      DistinctSnoc(probes, mid);
      probes := probes + [mid];
      var v := Probe(node, mid, target, time, keep);
      match v {
        case Fails => return Raised, probes;
        case Higher => lo := mid + 1;
        case Lower => hi := mid;
      }
    }
    r := Found(lo);
  }

  // The probes are at most floor(log2 head) + 1.
  lemma FewProbes(head: nat, probes: nat)
    requires head > 0 && probes <= Halvings(head - 1)
    ensures probes == 0 || Pow2(probes - 1) <= head
  {
    HalvingsGrow(head - 1, head);
    HalvingsIsLog(head);
    if probes > 0 { Pow2Grows(probes - 1, Halvings(head) - 1); }
  }

  lemma {:induction false} Pow2Grows(a: nat, b: nat)
    requires a <= b
    ensures Pow2(a) <= Pow2(b)
  {
    if a < b { Pow2Grows(a, b - 1); }
  }
}
