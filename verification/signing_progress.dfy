// clif/signing_progress.py: weighted votes per message hash, scanned from the event log and cached between refreshes.
module SigningProgress {
  import opened Hex
  import opened Sums

  const CHUNK_BLOCKS: nat := 5000
  const MAX_REQUESTS: nat := 240

  type Hash = string
  type Signer = string

  datatype Outcome<T> = Done(value: T) | Raised

  // One signing event of the epoch: who signed which hash, and whether that vote reached the threshold.
  datatype Event = Event(block: nat, hash: Hash, signer: Signer, reached: bool)

  // What is true of one (network, epoch, kind) for good: the append-only log, block times and fixed weights.
  datatype Chain = Chain(
    log: set<Event>, time: nat -> int, total: nat, ppm: nat, weight: Signer -> nat, voter: Signer -> string)

  function Within(log: set<Event>, lo: int, hi: int): set<Event> {
    set e | e in log && lo <= e.block <= hi
  }

  // --- Votes -------------------------------------------------------------------------------------------------

  // by_hash: a dictionary keeps the order in which its keys arrived.
  datatype Tally = Tally(order: seq<Hash>, votes: map<Hash, map<Signer, bool>>)

  const EMPTY := Tally([], map[])

  function Put(t: Tally, e: Event): Tally {
    var inner := if e.hash in t.votes then t.votes[e.hash] else map[];
    Tally(if e.hash in t.votes then t.order else t.order + [e.hash], t.votes[e.hash := inner[e.signer := e.reached]])
  }

  function Merged(t: Tally, logs: seq<Event>): Tally {
    if logs == [] then t else Put(Merged(t, logs[..|logs| - 1]), logs[|logs| - 1])
  }

  method Merge(t: Tally, logs: seq<Event>) returns (r: Tally)
    ensures r == Merged(t, logs)
  {
    r := t;
    for i := 0 to |logs|
      invariant r == Merged(t, logs[..i])
    {
      assert logs[..i + 1][..i] == logs[..i];
      r := Put(r, logs[i]);
    }
    assert logs[..|logs|] == logs;
  }

  ghost predicate Cast(es: set<Event>, h: Hash, s: Signer) {
    exists e :: e in es && e.hash == h && e.signer == s
  }

  predicate Has(t: Tally, h: Hash, s: Signer) {
    h in t.votes && s in t.votes[h]
  }

  // The tally holds the votes of these events and nothing else.
  ghost predicate Reflects(t: Tally, es: set<Event>) {
    && (forall e :: e in es ==> Has(t, e.hash, e.signer) && t.votes[e.hash][e.signer] == e.reached)
    && (forall h, s :: Has(t, h, s) ==> Cast(es, h, s))
    && (forall h :: h in t.votes ==> exists s :: Has(t, h, s))
    && (forall h :: h in t.order <==> h in t.votes)
    && (forall i, j :: 0 <= i < j < |t.order| ==> t.order[i] != t.order[j])
  }

  // No signer is on record twice for one hash with different flags.
  ghost predicate Consistent(es: set<Event>) {
    forall e, f :: e in es && f in es && e.hash == f.hash && e.signer == f.signer ==> e.reached == f.reached
  }

  lemma PutHas(t: Tally, e: Event)
    ensures forall h, s :: Has(Put(t, e), h, s) <==> Has(t, h, s) || (h == e.hash && s == e.signer)
    ensures Put(t, e).votes[e.hash][e.signer] == e.reached
    ensures forall h, s :: Has(t, h, s) && (h != e.hash || s != e.signer) ==> Put(t, e).votes[h][s] == t.votes[h][s]
  {
    var r := Put(t, e);
    forall h, s
      ensures Has(r, h, s) <==> Has(t, h, s) || (h == e.hash && s == e.signer)
    {
      if h == e.hash {} else {}
    }
  }

  lemma PutFlags(t: Tally, es: set<Event>, e: Event)
    requires Reflects(t, es) && Consistent(es + {e})
    ensures forall f :: f in es + {e} ==>
              Has(Put(t, e), f.hash, f.signer) && Put(t, e).votes[f.hash][f.signer] == f.reached
  {
    PutHas(t, e);
    forall f | f in es + {e}
      ensures Has(Put(t, e), f.hash, f.signer) && Put(t, e).votes[f.hash][f.signer] == f.reached
    {
      assert e in es + {e};
    }
  }

  lemma PutOrder(t: Tally, es: set<Event>, e: Event)
    requires Reflects(t, es)
    ensures var r := Put(t, e);
            && (forall h :: h in r.votes ==> exists s :: Has(r, h, s))
            && (forall h :: h in r.order <==> h in r.votes)
            && (forall i, j :: 0 <= i < j < |r.order| ==> r.order[i] != r.order[j])
  {
    PutHas(t, e);
    var r := Put(t, e);
    forall h | h in r.votes
      ensures exists s :: Has(r, h, s)
    {
      if h == e.hash {
        assert Has(r, h, e.signer);
      } else {
        var s :| Has(t, h, s);
        assert Has(r, h, s);
      }
    }
  }

  lemma PutCast(t: Tally, es: set<Event>, e: Event)
    requires Reflects(t, es)
    ensures forall h, s :: Has(Put(t, e), h, s) ==> Cast(es + {e}, h, s)
  {
    PutHas(t, e);
    forall h, s | Has(Put(t, e), h, s)
      ensures Cast(es + {e}, h, s)
    {
      if h == e.hash && s == e.signer {
        assert e in es + {e};
      } else {
        assert Cast(es, h, s);
        var f :| f in es && f.hash == h && f.signer == s;
        assert f in es + {e};
      }
    }
  }

  lemma PutReflects(t: Tally, es: set<Event>, e: Event)
    requires Reflects(t, es) && Consistent(es + {e})
    ensures Reflects(Put(t, e), es + {e})
  {
    PutFlags(t, es, e);
    PutOrder(t, es, e);
    PutCast(t, es, e);
  }

  lemma {:induction false} MergeReflects(t: Tally, es: set<Event>, logs: seq<Event>, all: set<Event>)
    requires Reflects(t, es) && Consistent(all) && all == es + (set e | e in logs)
    ensures Reflects(Merged(t, logs), all)
  {
    if logs == [] {
      assert all == es;
    } else {
      var init, last := logs[..|logs| - 1], logs[|logs| - 1];
      assert logs == init + [last];
      var part := es + (set e | e in init);
      assert all == part + {last};
      MergeReflects(t, es, init, part);
      PutReflects(Merged(t, init), part, last);
    }
  }

  // One of the two hashes arrived before the other was seen at all.
  ghost predicate Earlier(logs: seq<Event>, g: Hash, h: Hash) {
    exists k :: 0 <= k < |logs| && logs[k].hash == g && forall j :: 0 <= j <= k ==> logs[j].hash != h
  }

  // The hashes on record are those that arrived, in the order in which they did for the first time.
  ghost predicate Arrived(t: Tally, logs: seq<Event>) {
    && (forall h :: h in t.order <==> h in t.votes)
    && (forall h :: h in t.votes <==> exists k :: 0 <= k < |logs| && logs[k].hash == h)
    && (forall i, j :: 0 <= i < j < |t.order| ==> Earlier(logs, t.order[i], t.order[j]))
  }

  lemma {:induction false} OrderOfArrival(logs: seq<Event>)
    ensures Arrived(Merged(EMPTY, logs), logs)
  {
    if logs != [] {
      var init, e := logs[..|logs| - 1], logs[|logs| - 1];
      OrderOfArrival(init);
      assert logs == init + [e];
      hide Arrived, Put;
      OneMoreArrives(Merged(EMPTY, init), init, e);
    }
  }

  lemma OneMoreArrives(t: Tally, logs: seq<Event>, e: Event)
    requires Arrived(t, logs)
    ensures Arrived(Put(t, e), logs + [e])
  {
    var more, later := logs + [e], Put(t, e);
    assert more[|logs|] == e && forall k :: 0 <= k < |logs| ==> more[k] == logs[k];
    forall h
      ensures h in later.votes <==> exists k :: 0 <= k < |more| && more[k].hash == h
    {
      if h == e.hash { assert more[|logs|].hash == h; }
      if k :| 0 <= k < |logs| && logs[k].hash == h { assert more[k].hash == h; }
    }
    forall i, j | 0 <= i < j < |later.order|
      ensures Earlier(more, later.order[i], later.order[j])
    {
      ArrivesBefore(t, logs, e, i, j);
    }
  }

  lemma ArrivesBefore(t: Tally, logs: seq<Event>, e: Event, i: nat, j: nat)
    requires Arrived(t, logs) && i < j < |Put(t, e).order|
    ensures Earlier(logs + [e], Put(t, e).order[i], Put(t, e).order[j])
  {
    var more := logs + [e];
    assert forall k :: 0 <= k < |logs| ==> more[k] == logs[k];
    if j < |t.order| {
      assert Earlier(logs, t.order[i], t.order[j]);
      var k :| 0 <= k < |logs| && logs[k].hash == t.order[i] && forall m :: 0 <= m <= k ==> logs[m].hash != t.order[j];
      assert more[k].hash == t.order[i] && forall m :: 0 <= m <= k ==> more[m].hash != t.order[j];
    } else {
      assert t.order[i] in t.order;
      var k :| 0 <= k < |logs| && logs[k].hash == t.order[i];
      assert more[k].hash == t.order[i] && forall m :: 0 <= m <= k ==> more[m].hash != e.hash;
    }
  }

  lemma SameVotes(t: Tally, u: Tally, es: set<Event>)
    requires Reflects(t, es) && Reflects(u, es)
    ensures forall h, s :: Has(t, h, s) ==> Has(u, h, s) && t.votes[h][s] == u.votes[h][s]
    ensures forall h :: h in t.votes ==> h in u.votes
  {
    forall h, s | Has(t, h, s)
      ensures Has(u, h, s) && t.votes[h][s] == u.votes[h][s]
    {
      assert Cast(es, h, s);
    }
    forall h | h in t.votes
      ensures h in u.votes
    {
      var s :| Has(t, h, s);
      assert Has(u, h, s);
    }
  }

  lemma SameMaps(t: Tally, u: Tally)
    requires forall h :: h in t.votes <==> h in u.votes
    requires forall h, s :: Has(t, h, s) <==> Has(u, h, s)
    requires forall h, s :: Has(t, h, s) && Has(u, h, s) ==> t.votes[h][s] == u.votes[h][s]
    ensures t.votes == u.votes
  {
    forall h | h in t.votes
      ensures t.votes[h] == u.votes[h]
    {
      assert forall s :: s in t.votes[h] <==> Has(t, h, s);
    }
  }

  // Two tallies of the same events hold the same votes, whatever order they were merged in.
  lemma ReflectsOnce(t: Tally, u: Tally, es: set<Event>)
    requires Reflects(t, es) && Reflects(u, es)
    ensures t.votes == u.votes
  {
    SameVotes(t, u, es);
    SameVotes(u, t, es);
    SameMaps(t, u);
  }

  // --- The node ----------------------------------------------------------------------------------------------

  // Refused carries the N of a "maximum is set to N" message, if the error has one.
  datatype Reply = Logs(events: seq<Event>) | Refused(cap: Option<nat>)

  // What the node answers during one call: logs by attempt and block range, the rest by argument.
  datatype Wire = Wire(
    head: Outcome<nat>, logs: (nat, nat, nat) -> Reply, stamp: nat -> Outcome<int>,
    weight: Signer -> Outcome<(string, nat)>, sums: Outcome<nat>, ppm: Outcome<nat>)

  // Whatever is answered is true; anything may be refused at any moment.
  ghost predicate Honest(w: Wire, c: Chain) {
    && (forall i: nat, lo: nat, hi: nat :: w.logs(i, lo, hi).Logs? ==>
                              (set e | e in w.logs(i, lo, hi).events) == Within(c.log, lo, hi))
    && (forall b :: w.stamp(b).Done? ==> w.stamp(b).value == c.time(b))
    && (forall s :: w.weight(s).Done? ==> w.weight(s).value == (c.voter(s), c.weight(s)))
    && (w.sums.Done? ==> w.sums.value == c.total)
    && (w.ppm.Done? ==> w.ppm.value == c.ppm)
  }

  // A healthy node that serves ranges of up to cap blocks.
  ghost predicate Steady(w: Wire, cap: nat) {
    && (forall i: nat, lo: nat, hi: nat :: lo <= hi ==>
                              if hi - lo + 1 <= cap then w.logs(i, lo, hi).Logs?
                              else w.logs(i, lo, hi) == Refused(Some(cap)))
    && (forall b :: w.stamp(b).Done?)
  }

  ghost predicate Healthy(w: Wire, cap: nat) {
    Steady(w, cap) && w.head.Done? && w.sums.Done? && w.ppm.Done? && forall s :: w.weight(s).Done?
  }

  lemma HealthyAnswers(w: Wire, cap: nat)
    requires Healthy(w, cap)
    ensures w.head.Done? && forall s :: w.weight(s).Done?
  {}

  // Block times never fall, and nobody signs before the epoch ended.
  ghost predicate Timely(c: Chain, target: int) {
    && (forall a, b :: a <= b ==> c.time(a) <= c.time(b))
    && (forall e :: e in c.log ==> target <= c.time(e.block))
  }

  // The slice size after a refusal; None when the error is passed on.
  function Shrunk(chunk: nat, cap: Option<nat>): Option<nat> {
    if cap.Some? && 0 < cap.value < chunk then cap else None
  }

  function Stride(cap: nat): nat {
    if cap < CHUNK_BLOCKS then cap else CHUNK_BLOCKS
  }

  // A refusal shrinks the slice exactly to the cap it names, if that is smaller; slices begin at 5000 blocks, and 240
  // of them are the budget.
  lemma ShrunkExactly(chunk: nat, cap: Option<nat>, n: nat)
    ensures Shrunk(chunk, cap) == Some(n) <==> cap == Some(n) && 0 < n < chunk
    ensures Shrunk(chunk, cap).None? <==> cap.None? || cap.value == 0 || cap.value >= chunk
  {}

  lemma BudgetExactly(cap: nat)
    ensures MAX_REQUESTS * Stride(cap) == if cap < 5000 then 240 * cap else 1_200_000
  {}

  // --- Backward scan -----------------------------------------------------------------------------------------

  datatype Window = Window(tally: Tally, scannedFrom: nat, complete: bool)

  // How far down 240 requests reach.
  function Deepest(latest: nat, cap: nat): nat {
    if MAX_REQUESTS * Stride(cap) <= latest then latest + 1 - MAX_REQUESTS * Stride(cap) else 0
  }

  // 240 requests reach below the window.
  ghost predicate Shallow(c: Chain, target: int, latest: nat, cap: nat) {
    Deepest(latest, cap) == 0 || c.time(Deepest(latest, cap)) < target
  }

  lemma {:induction false} NothingBelow(c: Chain, target: int, from: nat, latest: nat)
    requires Timely(c, target) && (from == 0 || c.time(from) < target)
    ensures Within(c.log, from, latest) == Within(c.log, 0, latest)
  {
    forall e | e in Within(c.log, 0, latest)
      ensures from <= e.block
    {
      assert e.block <= from ==> target <= c.time(e.block) <= c.time(from);
    }
  }

  lemma Spent(reqs: nat, m: nat)
    requires reqs < MAX_REQUESTS
    ensures (reqs + 1) * m == reqs * m + m <= MAX_REQUESTS * m
  {
    var rest := MAX_REQUESTS - 1 - reqs;
    assert MAX_REQUESTS * m == (reqs + 1) * m + rest * m;
  }

  // Where the scan stopped decides whether the deepest reachable block lies before the window.
  lemma StopDecides(c: Chain, target: int, latest: nat, cap: nat, lo: nat)
    requires Timely(c, target) && Deepest(latest, cap) <= lo && (lo == 0 || c.time(lo) < target)
    ensures Shallow(c, target, latest, cap)
  {
    assert c.time(Deepest(latest, cap)) <= c.time(lo);
  }

  lemma NothingYet(log: set<Event>, lo: int, hi: int)
    requires hi < lo
    ensures Reflects(EMPTY, Within(log, lo, hi))
  {
    assert Within(log, lo, hi) == {};
  }

  lemma WithinJoins(log: set<Event>, lo: int, mid: int, hi: int)
    requires lo <= mid <= hi + 1
    ensures Within(log, mid, hi) + Within(log, lo, mid - 1) == Within(log, lo, hi)
  {}

  lemma HeldGrows(log: set<Event>, held: set<Event>, lo: int, mid: int, hi: int)
    requires held <= log && lo <= mid <= hi + 1
    ensures held + Within(log, lo, mid - 1) <= log
    ensures held + Within(log, lo, mid - 1) + Within(log, mid, hi) == held + Within(log, lo, hi)
    ensures held + Within(log, lo, lo - 1) == held
  {}

  // A served slice adds exactly its blocks' events to what the tally reflects.
  lemma SliceReflects(w: Wire, c: Chain, attempt: nat, lo: nat, hi: nat, t: Tally, es: set<Event>)
    requires Honest(w, c) && Consistent(c.log) && es <= c.log && Reflects(t, es) && w.logs(attempt, lo, hi).Logs?
    ensures Reflects(Merged(t, w.logs(attempt, lo, hi).events), es + Within(c.log, lo, hi))
  {
    MergeReflects(t, es, w.logs(attempt, lo, hi).events, es + Within(c.log, lo, hi));
  }

  method ScanWindow(w: Wire, latest: nat, target: int, ghost c: Chain, ghost cap: nat) returns (r: Outcome<Window>)
    requires Honest(w, c) && Consistent(c.log) && Timely(c, target) && cap > 0
    ensures r.Done? ==> r.value.scannedFrom <= latest
    ensures r.Done? ==> Reflects(r.value.tally, Within(c.log, r.value.scannedFrom, latest))
    ensures r.Done? && r.value.complete ==> r.value.scannedFrom == 0 || c.time(r.value.scannedFrom) < target
    ensures Steady(w, cap) ==>
              r.Done? && (r.value.complete <==> Shallow(c, target, latest, cap))
  {
    hide Reflects, Consistent, Timely, Merged;
    var tally, chunk, reqs, hi: int, from, complete := EMPTY, CHUNK_BLOCKS, 0, latest, latest + 1, false;
    var attempt := 0;
    ghost var m, used := Stride(cap), 0;
    NothingYet(c.log, from, latest);
    while hi >= 0 && reqs < MAX_REQUESTS
      invariant 0 < chunk <= CHUNK_BLOCKS && 0 <= reqs <= MAX_REQUESTS && latest + 1 >= from == hi + 1 >= 0
      invariant Reflects(tally, Within(c.log, from, latest))
      invariant used == reqs * m <= MAX_REQUESTS * m
      invariant Steady(w, cap) ==> (chunk == CHUNK_BLOCKS || chunk == m) && hi == latest - used
      invariant reqs > 0 ==> 0 < from <= latest && c.time(from) >= target
      invariant !complete
      decreases hi + 1, chunk
    {
      var lo: nat := if hi - chunk + 1 > 0 then hi - chunk + 1 else 0;
      var reply := w.logs(attempt, lo, hi);
      if reply.Refused? {
        var smaller := Shrunk(chunk, reply.cap);
        if smaller.None? { return Raised; }
        attempt, chunk := attempt + 1, smaller.value;
        continue;
      }
      Spent(reqs, m);
      SliceReflects(w, c, attempt, lo, hi, tally, Within(c.log, from, latest));
      WithinJoins(c.log, lo, from, latest);
      tally := Merge(tally, reply.events);
      attempt, reqs, used, from := attempt + 1, reqs + 1, used + m, lo;
      if lo == 0 {
        complete := true;
        break;
      }
      var stamp := w.stamp(lo);
      if stamp.Raised? { return Raised; }
      if stamp.value < target {
        complete := true;
        break;
      }
      hi := lo - 1;
    }
    if Steady(w, cap) && complete { StopDecides(c, target, latest, cap, from); }
    return Done(Window(tally, from, complete));
  }

  // --- Weights -----------------------------------------------------------------------------------------------

  method HashWeight(spas: map<Signer, bool>, weightOf: map<Signer, nat>, ghost weight: Signer -> nat) returns (n: nat)
    requires spas.Keys <= weightOf.Keys && forall s :: s in weightOf ==> weightOf[s] == weight(s)
    ensures n == Sum(spas.Keys, weight)
  {
    var rest := spas.Keys;
    n := 0;
    while rest != {}
      invariant rest <= spas.Keys && n + Sum(rest, weight) == Sum(spas.Keys, weight)
      decreases |rest|
    {
      var s :| s in rest;
      SumRemove(rest, s, weight);
      n, rest := n + weightOf[s], rest - {s};
    }
  }

  // --- Aggregation -------------------------------------------------------------------------------------------

  datatype SignerEntry = SignerEntry(signer: Signer, voter: string, weight: nat)

  datatype Progress = Progress(
    signedWeight: nat, totalWeight: nat, thresholdWeight: nat, finalized: bool, ourSigned: bool,
    messageHash: Hash, signers: set<SignerEntry>, complete: bool, scannedFrom: nat)

  // ceil(total * ppm / 1_000_000)
  function Threshold(total: nat, ppm: nat): nat {
    (total * ppm + 999_999) / 1_000_000
  }

  // The least weight whose millionfold reaches the total's share.
  lemma ThresholdIsLeast(total: nat, ppm: nat, n: nat)
    ensures n >= Threshold(total, ppm) <==> 1_000_000 * n >= total * ppm
  {
    var x := total * ppm;
    assert 1_000_000 * ((x + 999_999) / 1_000_000) <= x + 999_999 < 1_000_000 * ((x + 999_999) / 1_000_000) + 1_000_000;
  }

  function SignersFor(es: set<Event>, h: Hash): set<Signer> {
    set e | e in es && e.hash == h :: e.signer
  }

  // What a progress report says about a set of signing events.
  ghost predicate Reports(p: Progress, es: set<Event>, c: Chain, ours: Option<Signer>) {
    && p.totalWeight == c.total && p.thresholdWeight == Threshold(c.total, c.ppm)
    && (if es == {} then p.messageHash == "" else SignersFor(es, p.messageHash) != {})
    && (forall h :: HashTotal(es, h, c) <= p.signedWeight)
    && p.signedWeight == HashTotal(es, p.messageHash, c)
    && p.finalized == ((exists e :: e in es && e.hash == p.messageHash && e.reached) ||
                       p.signedWeight > p.thresholdWeight)
    && p.ourSigned == (ours.Some? && ours.value != "" && Lower(ours.value) in SignersFor(es, p.messageHash))
    && p.signers == (set s | s in SignersFor(es, p.messageHash) :: SignerEntry(s, Lower(c.voter(s)), c.weight(s)))
  }

  lemma TalliedSigners(t: Tally, es: set<Event>, h: Hash)
    requires Reflects(t, es)
    ensures h in t.votes ==> t.votes[h].Keys == SignersFor(es, h) && SignersFor(es, h) != {}
    ensures h !in t.votes ==> SignersFor(es, h) == {}
  {
    if h in t.votes {
      forall s
        ensures s in t.votes[h].Keys <==> s in SignersFor(es, h)
      {
        assert s in t.votes[h].Keys <==> Has(t, h, s);
        assert s in SignersFor(es, h) <==> Cast(es, h, s);
      }
      var s :| Has(t, h, s);
      assert s in SignersFor(es, h);
    }
  }

  lemma TalliedFlags(t: Tally, es: set<Event>, h: Hash)
    requires Reflects(t, es) && h in t.votes
    ensures (exists s :: s in t.votes[h] && t.votes[h][s]) <==> (exists e :: e in es && e.hash == h && e.reached)
  {
    if s :| s in t.votes[h] && t.votes[h][s] {
      assert Has(t, h, s) && Cast(es, h, s);
    }
    if e :| e in es && e.hash == h && e.reached {
      assert Has(t, h, e.signer);
    }
  }

  // weight_of and voter_of, filled signer by signer.
  datatype Facts = Facts(weightOf: map<Signer, nat>, voterOf: map<Signer, string>)

  ghost predicate Known(f: Facts, c: Chain) {
    && f.weightOf.Keys == f.voterOf.Keys
    && forall s :: s in f.weightOf ==> f.weightOf[s] == c.weight(s) && f.voterOf[s] == Lower(c.voter(s))
  }

  function Seen(t: Tally): set<Signer> {
    set h, s | h in t.votes && s in t.votes[h] :: s
  }

  predicate Covers(f: Facts, t: Tally) {
    forall s :: s in Seen(t) ==> s in f.weightOf
  }

  lemma Learnt(w: Wire, f: Facts, s: Signer, c: Chain)
    requires Honest(w, c) && Known(f, c) && w.weight(s).Done?
    ensures Known(Facts(f.weightOf[s := w.weight(s).value.1], f.voterOf[s := Lower(w.weight(s).value.0)]), c)
  {}

  // A signer already known is never asked for again; those fetched before a refusal stay known.
  method LookupWeights(w: Wire, t: Tally, f: Facts, ghost c: Chain) returns (r: Facts, ok: bool)
    requires Honest(w, c) && Known(f, c)
    ensures Known(r, c) && (forall s :: s in f.weightOf ==> s in r.weightOf)
    ensures ok ==> Covers(r, t)
    ensures ok <==> forall s :: s in Seen(t) && s !in f.weightOf ==> w.weight(s).Done?
  {
    hide Seen, Known, Honest;
    var missing := Seen(t) - f.weightOf.Keys;
    r := f;
    while missing != {}
      invariant Known(r, c) && forall s :: s in f.weightOf ==> s in r.weightOf
      invariant forall s :: s in Seen(t) ==> s in r.weightOf || s in missing
      invariant forall s :: s in missing ==> s in Seen(t) && s !in f.weightOf
      invariant forall s :: s in Seen(t) && s !in f.weightOf && s !in missing ==> w.weight(s).Done?
      decreases |missing|
    {
      var s :| s in missing;
      if w.weight(s).Raised? { return r, false; }
      Learnt(w, r, s, c);
      r := Facts(r.weightOf[s := w.weight(s).value.1], r.voterOf[s := Lower(w.weight(s).value.0)]);
      missing := missing - {s};
    }
    ok := true;
  }

  ghost function HashTotal(es: set<Event>, h: Hash, c: Chain): nat {
    Sum(SignersFor(es, h), c.weight)
  }

  // _hash_weight of a hash on record.
  method TalliedWeight(t: Tally, f: Facts, h: Hash, ghost es: set<Event>, ghost c: Chain) returns (n: nat)
    requires Reflects(t, es) && Known(f, c) && Covers(f, t) && h in t.votes
    ensures n == HashTotal(es, h, c)
  {
    TalliedSigners(t, es, h);
    assert forall s :: s in t.votes[h] ==> s in Seen(t);
    n := HashWeight(t.votes[h], f.weightOf, c.weight);
  }

  lemma OrderIsOnRecord(t: Tally, es: set<Event>)
    requires Reflects(t, es)
    ensures forall i :: 0 <= i < |t.order| ==> t.order[i] in t.votes
    ensures forall h :: h in t.votes ==> exists i :: 0 <= i < |t.order| && t.order[i] == h
  {}

  // max(by_hash, key=weight): the first of the heaviest.
  method Leader(t: Tally, f: Facts, ghost es: set<Event>, ghost c: Chain) returns (h: Hash, n: nat, ghost k: nat)
    requires Reflects(t, es) && Known(f, c) && Covers(f, t) && t.order != []
    ensures k < |t.order| && t.order[k] == h && h in t.votes && n == HashTotal(es, h, c)
    ensures forall i :: 0 <= i < k ==> HashTotal(es, t.order[i], c) < n
    ensures forall i :: k <= i < |t.order| ==> HashTotal(es, t.order[i], c) <= n
  {
    hide Reflects, Known, Seen, HashTotal;
    OrderIsOnRecord(t, es);
    h, k := t.order[0], 0;
    n := TalliedWeight(t, f, h, es, c);
    for j := 1 to |t.order|
      invariant k < j && t.order[k] == h && h in t.votes && n == HashTotal(es, h, c)
      invariant forall i :: 0 <= i < k ==> HashTotal(es, t.order[i], c) < n
      invariant forall i :: k <= i < j ==> HashTotal(es, t.order[i], c) <= n
    {
      var other := TalliedWeight(t, f, t.order[j], es, c);
      if other > n { h, n, k := t.order[j], other, j; }
    }
  }

  lemma LeaderIsHeaviest(t: Tally, es: set<Event>, c: Chain, n: nat)
    requires Reflects(t, es) && forall i :: 0 <= i < |t.order| ==> HashTotal(es, t.order[i], c) <= n
    ensures forall h :: HashTotal(es, h, c) <= n
  {
    hide HashTotal, Reflects;
    OrderIsOnRecord(t, es);
    forall h
      ensures HashTotal(es, h, c) <= n
    {
      if h !in t.votes { NoVotes(t, es, h, c); }
    }
  }

  lemma NoVotes(t: Tally, es: set<Event>, h: Hash, c: Chain)
    requires Reflects(t, es) && h !in t.votes
    ensures HashTotal(es, h, c) == 0 && SignersFor(es, h) == {}
  {
    TalliedSigners(t, es, h);
  }

  lemma NobodyYet(t: Tally, es: set<Event>)
    requires Reflects(t, es)
    ensures t.order == [] <==> es == {}
    ensures t.order == [] ==> forall h :: h !in t.votes
  {
    if t.order != [] {
      var h := t.order[0];
      assert h in t.votes;
      var s :| Has(t, h, s);
      assert Cast(es, h, s);
    }
    if es != {} {
      var e :| e in es;
      assert Has(t, e.hash, e.signer);
    }
  }

  function Entries(f: Facts, lead: map<Signer, bool>): set<SignerEntry>
    requires lead.Keys <= f.weightOf.Keys && f.weightOf.Keys == f.voterOf.Keys
  {
    set s | s in lead :: SignerEntry(s, f.voterOf[s], f.weightOf[s])
  }

  lemma EntriesAreTrue(f: Facts, lead: map<Signer, bool>, signers: set<Signer>, c: Chain)
    requires Known(f, c) && lead.Keys <= f.weightOf.Keys && lead.Keys == signers
    ensures Entries(f, lead) == set s | s in signers :: SignerEntry(s, Lower(c.voter(s)), c.weight(s))
  {}

  method Aggregate(t: Tally, f: Facts, total: nat, ppm: nat, ours: Option<Signer>, complete: bool, from: nat,
                   ghost es: set<Event>, ghost c: Chain) returns (p: Progress)
    requires Reflects(t, es) && Known(f, c) && Covers(f, t) && total == c.total && ppm == c.ppm
    ensures Reports(p, es, c, ours) && p.complete == complete && p.scannedFrom == from
  {
    hide Reflects, HashTotal, SignersFor, Entries;
    var hash, n, lead := "", 0, map[];
    NobodyYet(t, es);
    if t.order != [] {
      ghost var k;
      hash, n, k := Leader(t, f, es, c);
      LeaderIsHeaviest(t, es, c, n);
      lead := t.votes[hash];
      TalliedSigners(t, es, hash);
      TalliedFlags(t, es, hash);
      assert forall s :: s in lead ==> s in Seen(t);
    } else {
      LeaderIsHeaviest(t, es, c, 0);
      NoVotes(t, es, "", c);
    }
    EntriesAreTrue(f, lead, SignersFor(es, hash), c);
    p := Progress(n, total, Threshold(total, ppm), (exists s :: s in lead && lead[s]) || n > Threshold(total, ppm),
                  ours.Some? && ours.value != "" && Lower(ours.value) in lead, hash, Entries(f, lead), complete, from);
  }

  // --- What reports mean -------------------------------------------------------------------------------------

  // Reports on the same events agree on every figure that does not depend on which of the heaviest hashes leads,
  // and on everything once they name the same hash.
  lemma {:induction false} ReportsAgree(p: Progress, q: Progress, es: set<Event>, c: Chain, ours: Option<Signer>)
    requires Reports(p, es, c, ours) && Reports(q, es, c, ours)
    ensures p.signedWeight == q.signedWeight && p.totalWeight == q.totalWeight && p.thresholdWeight == q.thresholdWeight
    ensures p.messageHash == q.messageHash ==> p == q.(complete := p.complete, scannedFrom := p.scannedFrom)
    ensures SoleLeader(es, c) ==> p.messageHash == q.messageHash
  {
    hide HashTotal, SignersFor;
  }

  ghost predicate SoleLeader(es: set<Event>, c: Chain) {
    exists g :: forall h :: h != g && SignersFor(es, h) != {} ==> HashTotal(es, h, c) < HashTotal(es, g, c)
  }

  lemma TotalsGrow(es: set<Event>, later: set<Event>, h: Hash, c: Chain)
    requires es <= later
    ensures HashTotal(es, h, c) <= HashTotal(later, h, c)
  {
    assert SignersFor(es, h) <= SignersFor(later, h);
    SumGrows(SignersFor(es, h), SignersFor(later, h), c.weight);
  }

  // What is missing from a report can only hold it down.
  lemma ReportIsFloor(p: Progress, q: Progress, es: set<Event>, later: set<Event>, c: Chain, ours: Option<Signer>)
    requires es <= later && Reports(p, es, c, ours) && Reports(q, later, c, ours)
    ensures p.signedWeight <= q.signedWeight
  {
    hide SignersFor, HashTotal;
    TotalsGrow(es, later, p.messageHash, c);
  }

  // --- Quorum ------------------------------------------------------------------------------------------------

  // Each signer stands behind one hash, and together they weigh at most the total.
  ghost predicate OneVoteEach(es: set<Event>, c: Chain) {
    && (forall e, f :: e in es && f in es && e.signer == f.signer ==> e.hash == f.hash)
    && Sum(set e | e in es :: e.signer, c.weight) <= c.total
  }

  lemma HalfOrMore(total: nat, ppm: nat)
    requires ppm >= 500_000
    ensures 2 * Threshold(total, ppm) >= total
  {
    assert total * ppm == total * 500_000 + total * (ppm - 500_000);
  }

  lemma OneQuorum(es: set<Event>, g: Hash, h: Hash, c: Chain)
    requires OneVoteEach(es, c) && c.ppm >= 500_000 && g != h
    ensures HashTotal(es, g, c) <= Threshold(c.total, c.ppm) || HashTotal(es, h, c) <= Threshold(c.total, c.ppm)
  {
    var a, b, all := SignersFor(es, g), SignersFor(es, h), set e | e in es :: e.signer;
    HalfOrMore(c.total, c.ppm);
    SumOfUnion(a, b, c.weight);
    SumGrows(a + b, all, c.weight);
  }

  // Once a hash is past the threshold, every later report names it and stays final.
  lemma FinalityIsStable(p: Progress, q: Progress, es: set<Event>, later: set<Event>, c: Chain, ours: Option<Signer>)
    requires es <= later && OneVoteEach(later, c) && c.ppm >= 500_000
    requires Reports(p, es, c, ours) && Reports(q, later, c, ours) && p.signedWeight > p.thresholdWeight
    ensures q.messageHash == p.messageHash && q.finalized && q.signedWeight >= p.signedWeight
  {
    hide SignersFor, HashTotal, OneVoteEach;
    TotalsGrow(es, later, p.messageHash, c);
    if q.messageHash != p.messageHash { OneQuorum(later, p.messageHash, q.messageHash, c); }
  }

  // A report is final exactly if a vote for its hash was flagged so, or if even one unit of weight less would still
  // reach the total's share.
  lemma FinalExactly(p: Progress, es: set<Event>, c: Chain, ours: Option<Signer>)
    requires Reports(p, es, c, ours)
    ensures p.finalized <==>
              || (exists e :: e in es && e.hash == p.messageHash && e.reached)
              || (p.signedWeight > 0 && 1_000_000 * (p.signedWeight - 1) >= c.total * c.ppm)
  {
    hide HashTotal, SignersFor, Threshold;
    if p.signedWeight > 0 {
      ThresholdIsLeast(c.total, c.ppm, p.signedWeight - 1);
    }
  }

  // Of a total of 100 and half of it needed, 51 are enough and 50 are not.
  lemma HalfOfHundred()
    ensures Threshold(100, 500_000) == 50
  {}

  // --- Our own vote ------------------------------------------------------------------------------------------

  // A report says whether we stand behind the leading hash.  With one vote a signer, one that shows our vote is
  // followed by reports that show it exactly as long as they name the same hash.
  lemma OurVoteIsShownWhileItLeads(p: Progress, q: Progress, es: set<Event>, later: set<Event>, c: Chain,
                                   ours: Option<Signer>)
    requires es <= later && OneVoteEach(later, c) && Reports(p, es, c, ours) && Reports(q, later, c, ours)
    requires p.ourSigned
    ensures q.ourSigned <==> q.messageHash == p.messageHash
  {
    hide HashTotal;
    var e :| e in es && e.hash == p.messageHash && e.signer == Lower(ours.value);
    assert e in later;
    if q.ourSigned {
      var f :| f in later && f.hash == q.messageHash && f.signer == Lower(ours.value);
    }
  }

  // A vote of weight 1, and then one of weight 2 for another hash.
  lemma OurVoteIsOvertaken(c: Chain, p: Progress, q: Progress)
    requires c.weight("0x01") == 1 && c.weight("0x02") == 2
    requires Reports(p, {Event(1, "0xaa", "0x01", false)}, c, Some("0x01"))
    requires Reports(q, {Event(1, "0xaa", "0x01", false), Event(2, "0xbb", "0x02", false)}, c, Some("0x01"))
    ensures p.ourSigned && !q.ourSigned
  {
    hide HashTotal, SignersFor, Threshold;
    var e, f := Event(1, "0xaa", "0x01", false), Event(2, "0xbb", "0x02", false);
    assert Lower("0x01") == "0x01";
    TwoVotes(c, e, f);
    assert HashTotal({e, f}, "0xbb", c) <= q.signedWeight == HashTotal({e, f}, q.messageHash, c);
    assert q.messageHash == "0xbb" && p.messageHash == "0xaa";
  }

  lemma TwoVotes(c: Chain, e: Event, f: Event)
    requires e.hash == "0xaa" && f.hash == "0xbb" && c.weight(e.signer) == 1 && c.weight(f.signer) == 2
    ensures SignersFor({e}, "0xaa") == {e.signer} && forall h :: h != "0xaa" ==> SignersFor({e}, h) == {}
    ensures SignersFor({e, f}, "0xaa") == {e.signer} && SignersFor({e, f}, "0xbb") == {f.signer}
    ensures forall h :: h !in {"0xaa", "0xbb"} ==> SignersFor({e, f}, h) == {}
    ensures HashTotal({e, f}, "0xaa", c) == 1 && HashTotal({e, f}, "0xbb", c) == 2
  {
    assert e in {e} && e in {e, f} && f in {e, f};
    assert SignersFor({e}, "0xaa") == {e.signer};
    assert SignersFor({e, f}, "0xaa") == {e.signer} && SignersFor({e, f}, "0xbb") == {f.signer};
    SumRemove({e.signer}, e.signer, c.weight);
    SumRemove({f.signer}, f.signer, c.weight);
  }

  // --- One-shot ----------------------------------------------------------------------------------------------

  method ComputeSigningProgress(w: Wire, registered: bool, ours: Option<Signer>, target: int, ghost c: Chain,
                                ghost cap: nat) returns (r: Outcome<Progress>)
    requires Honest(w, c) && Consistent(c.log) && Timely(c, target) && cap > 0
    ensures registered && Healthy(w, cap) ==> r.Done?
    ensures r.Done? ==> w.head.Done? && r.value.scannedFrom <= w.head.value
    ensures r.Done? ==> Reports(r.value, Within(c.log, r.value.scannedFrom, w.head.value), c, ours)
    ensures r.Done? && r.value.complete ==> Reports(r.value, Within(c.log, 0, w.head.value), c, ours)
    ensures r.Done? && Steady(w, cap) ==> (r.value.complete <==> Shallow(c, target, w.head.value, cap))
  {
    hide Reflects, Consistent, Timely, Reports, Known, Covers;
    if !registered || w.head.Raised? { return Raised; }
    var latest := w.head.value;
    var window := ScanWindow(w, latest, target, c, cap);
    if window.Raised? || w.sums.Raised? || w.ppm.Raised? { return Raised; }
    var scan := window.value;
    NothingKnown(c);
    var facts, ok := LookupWeights(w, scan.tally, Facts(map[], map[]), c);
    if !ok { return Raised; }
    if scan.complete { NothingBelow(c, target, scan.scannedFrom, latest); }
    var p := Aggregate(scan.tally, facts, w.sums.value, w.ppm.value, ours, scan.complete, scan.scannedFrom,
                       Within(c.log, scan.scannedFrom, latest), c);
    return Done(p);
  }

  lemma NothingKnown(c: Chain)
    ensures Known(Facts(map[], map[]), c)
  {}

  // --- Cache -------------------------------------------------------------------------------------------------

  datatype Key = Key(net: string, epoch: int, kind: string)

  datatype State = State(
    total: nat, ppm: nat, facts: Facts, tally: Tally, scannedHi: nat, scannedFrom: nat, baseComplete: bool)

  // Ghost record of an entry: the events merged so far and the highest block that counts as scanned.
  datatype Trail = Trail(held: set<Event>, head: nat)

  ghost predicate Coherent(st: State, c: Chain, tr: Trail) {
    && Reflects(st.tally, tr.held) && Known(st.facts, c)
    && tr.held <= Within(c.log, 0, tr.head) && st.scannedHi <= tr.head
    && st.total == c.total && st.ppm == c.ppm
  }

  // Nothing at or below the high-water mark is missing.
  ghost predicate UpToDate(st: State, c: Chain, tr: Trail) {
    st.baseComplete && Within(c.log, 0, st.scannedHi) <= tr.held
  }

  // Nothing at or below the highest block is missing, and nothing else is held.
  ghost predicate Full(st: State, c: Chain, tr: Trail) {
    st.baseComplete && tr.held == Within(c.log, 0, tr.head)
  }

  // Refusals, if any, name a cap of at least this much.
  ghost predicate ServesAtLeast(w: Wire, cap: nat) {
    forall i: nat, lo: nat, hi: nat :: w.logs(i, lo, hi).Refused? && w.logs(i, lo, hi).cap.Some? ==>
                                         w.logs(i, lo, hi).cap.value == 0 || w.logs(i, lo, hi).cap.value >= cap
  }

  // _scan_forward: the tally after the slices that were served, and the first block not covered.
  method ScanForward(w: Wire, lo: nat, hi: nat, t: Tally, ghost held: set<Event>, ghost c: Chain, ghost cap: nat)
    returns (r: Tally, ok: bool, cur: nat)
    requires Honest(w, c) && Consistent(c.log) && Reflects(t, held) && held <= c.log && cap > 0 && lo <= hi
    ensures lo <= cur <= hi + 1 && Reflects(r, held + Within(c.log, lo, cur - 1))
    ensures ok && ServesAtLeast(w, cap) && hi - lo < MAX_REQUESTS * Stride(cap) ==>
              cur == hi + 1 && Reflects(r, held + Within(c.log, lo, hi))
    ensures Steady(w, cap) ==>
              ok && cur == if hi - lo < MAX_REQUESTS * Stride(cap) then hi + 1 else lo + MAX_REQUESTS * Stride(cap)
  {
    hide Reflects, Consistent, Within, Honest, Merged;
    var chunk, reqs, attempt, at := CHUNK_BLOCKS, 0, 0, lo;
    ghost var m, used := Stride(cap), 0;
    r := t;
    HeldGrows(c.log, held, lo, lo, hi);
    while at <= hi && reqs < MAX_REQUESTS
      invariant 0 < chunk <= CHUNK_BLOCKS && 0 <= reqs <= MAX_REQUESTS && lo <= at <= hi + 1
      invariant Reflects(r, held + Within(c.log, lo, at - 1))
      invariant used == reqs * m <= MAX_REQUESTS * m
      invariant ServesAtLeast(w, cap) ==> chunk >= m && (at == hi + 1 || at >= lo + used)
      invariant Steady(w, cap) ==>
                  (chunk == CHUNK_BLOCKS || chunk == m) && ((at == hi + 1 && at <= lo + used) || at == lo + used)
      decreases hi + 1 - at, chunk
    {
      var top := if hi <= at + chunk - 1 then hi else at + chunk - 1;
      var reply := w.logs(attempt, at, top);
      if reply.Refused? {
        var smaller := Shrunk(chunk, reply.cap);
        if smaller.None? { return r, false, at; }
        attempt, chunk := attempt + 1, smaller.value;
        continue;
      }
      Spent(reqs, m);
      HeldGrows(c.log, held, lo, at, top);
      SliceReflects(w, c, attempt, at, top, r, held + Within(c.log, lo, at - 1));
      r := Merge(r, reply.events);
      attempt, reqs, used, at := attempt + 1, reqs + 1, used + m, top + 1;
    }
    return r, true, at;
  }

  lemma GapDecides(log: set<Event>, held: set<Event>, mark: nat, cur: nat, latest: nat)
    requires Within(log, 0, mark) <= held && mark < cur <= latest + 1
    ensures Within(log, 0, latest) <= held + Within(log, mark + 1, cur - 1) <==> Within(log, cur, latest) <= held
  {
    var got := held + Within(log, mark + 1, cur - 1);
    if Within(log, cur, latest) <= held {
      forall e | e in Within(log, 0, latest)
        ensures e in got
      {
        assert e in Within(log, 0, mark) || e in Within(log, mark + 1, cur - 1) || e in Within(log, cur, latest);
      }
    }
    if Within(log, 0, latest) <= got {
      assert forall e :: e in Within(log, cur, latest) ==> e in Within(log, 0, latest);
    }
  }

  lemma FullGrows(log: set<Event>, head: nat, mark: nat, top: int)
    requires mark <= head && mark <= top
    ensures Within(log, 0, head) + Within(log, mark + 1, top) == Within(log, 0, if head < top then top else head)
  {}

  // The incremental branch: slices served before a refusal stay merged; the mark moves only after the loop.
  method Advance(w: Wire, st: State, latest: nat, ghost c: Chain, ghost tr: Trail, ghost cap: nat)
    returns (r: State, ok: bool, ghost now: Trail)
    requires Honest(w, c) && Consistent(c.log) && Coherent(st, c, tr) && cap > 0 && w.head == Done(latest)
    ensures Coherent(r, c, now) && tr.held <= now.held && tr.head <= now.head <= Highest(tr, latest)
    ensures ok ==> now.head == Highest(tr, latest)
    ensures r == st.(tally := r.tally, scannedHi := if ok then latest else st.scannedHi)
    ensures UpToDate(st, c, tr) && (ok ==> Fits(st, w, latest, cap)) ==> UpToDate(r, c, now)
    ensures Full(st, c, tr) && (ok ==> Fits(st, w, latest, cap)) ==> Full(r, c, now)
    ensures Steady(w, cap) ==>
              ok && now.held == tr.held + Within(c.log, st.scannedHi + 1, Reach(st.scannedHi, latest, cap))
    ensures Steady(w, cap) && UpToDate(st, c, tr) ==>
              (UpToDate(r, c, now) <==>
               Within(c.log, st.scannedHi + 1 + MAX_REQUESTS * Stride(cap), latest) <= tr.held)
  {
    hide Reflects, Consistent, Honest, Known;
    r, ok, now := st, true, tr;
    if st.scannedHi >= latest {
      assert Within(c.log, st.scannedHi + 1, Reach(st.scannedHi, latest, cap)) == {};
    }
    if st.scannedHi < latest {
      ghost var cur;
      var tally;
      tally, ok, cur := ScanForward(w, st.scannedHi + 1, latest, st.tally, tr.held, c, cap);
      now := Trail(tr.held + Within(c.log, st.scannedHi + 1, cur - 1),
                   Highest(tr, if ok then latest else cur - 1));
      if Full(st, c, tr) { FullGrows(c.log, tr.head, st.scannedHi, cur - 1); }
      if UpToDate(st, c, tr) { GapDecides(c.log, tr.held, st.scannedHi, cur, latest); }
      r := st.(tally := tally);
    }
    if ok { r := r.(scannedHi := latest); }
  }

  // How far up 240 requests reach.
  function Reach(mark: nat, latest: nat, cap: nat): nat {
    if latest - mark <= MAX_REQUESTS * Stride(cap) then latest else mark + MAX_REQUESTS * Stride(cap)
  }

  function Highest(tr: Trail, head: nat): nat {
    if tr.head < head then head else tr.head
  }

  // The blocks above the mark fit the request budget.
  ghost predicate Fits(st: State, w: Wire, latest: nat, cap: nat) {
    ServesAtLeast(w, cap) && latest - st.scannedHi <= MAX_REQUESTS * Stride(cap)
  }

  // The full-scan branch.
  method Rebuild(w: Wire, latest: nat, target: int, ghost c: Chain, ghost cap: nat)
    returns (r: Outcome<State>, ghost tr: Trail)
    requires Honest(w, c) && Consistent(c.log) && Timely(c, target) && cap > 0
    ensures r.Done? ==> Coherent(r.value, c, tr) && r.value.scannedHi == latest == tr.head
    ensures Healthy(w, cap) ==> r.Done?
    ensures r.Done? ==> tr.held == Within(c.log, r.value.scannedFrom, latest)
    ensures r.Done? && r.value.baseComplete ==> tr.held == Within(c.log, 0, latest)
    ensures r.Done? && Steady(w, cap) ==> (r.value.baseComplete <==> Shallow(c, target, latest, cap))
  {
    hide Reflects, Consistent, Timely, Known;
    tr := Trail({}, latest);
    var window := ScanWindow(w, latest, target, c, cap);
    if window.Raised? || w.sums.Raised? || w.ppm.Raised? { return Raised, tr; }
    var scan := window.value;
    if scan.complete { NothingBelow(c, target, scan.scannedFrom, latest); }
    NothingKnown(c);
    tr := Trail(Within(c.log, scan.scannedFrom, latest), latest);
    r := Done(State(w.sums.value, w.ppm.value, Facts(map[], map[]), scan.tally, latest, scan.scannedFrom,
                    scan.complete));
  }

  lemma EntryKnows(st: State, c: Chain, tr: Trail)
    requires Coherent(st, c, tr)
    ensures Known(st.facts, c) && Reflects(st.tally, tr.held) && st.total == c.total && st.ppm == c.ppm
  {}

  lemma NewFacts(st: State, f: Facts, c: Chain, tr: Trail)
    requires Coherent(st, c, tr) && Known(f, c)
    ensures Coherent(st.(facts := f), c, tr)
    ensures UpToDate(st.(facts := f), c, tr) == UpToDate(st, c, tr)
  {}

  lemma WholeView(st: State, c: Chain, tr: Trail)
    requires Coherent(st, c, tr)
    ensures UpToDate(st, c, tr) && tr.head == st.scannedHi ==> tr.held == Within(c.log, 0, st.scannedHi)
  {}

  // An entry is stale once its epoch lies five or more below one of the same network.
  lemma StaleExactly(j: Key, k: Key)
    ensures Cache.Stale(j, k) <==> j.net == k.net && k.epoch - j.epoch >= 5
  {}

  // An entry is built on if it is there and its first scan reached down to the epoch's end.
  lemma UsableExactly(entries: map<Key, State>, k: Key)
    ensures Usable(entries, k) <==> exists st :: (k, st) in entries.Items && st.baseComplete
  {
    if k in entries { assert (k, entries[k]) in entries.Items; }
  }

  // An entry to build on exists.
  predicate Usable(entries: map<Key, State>, k: Key) {
    k in entries && entries[k].baseComplete
  }

  class Cache {
    var entries: map<Key, State>
    ghost var trail: map<Key, Trail>
    ghost const world: Key -> Chain

    ghost predicate Valid()
      reads this
    {
      && trail.Keys == entries.Keys
      && forall k :: k in entries ==> Coherent(entries[k], world(k), trail[k])
    }

    constructor (ghost world: Key -> Chain)
      ensures Valid() && entries == map[] && this.world == world
    {
      entries, trail := map[], map[];
      this.world := world;
    }

    // Entries of this network more than four epochs behind are dropped with each full scan.
    static predicate Stale(j: Key, k: Key) {
      j.net == k.net && j.epoch < k.epoch - 4
    }

    method Store(k: Key, st: State, ghost tr: Trail)
      requires Valid() && Coherent(st, world(k), tr)
      modifies this
      ensures Valid() && entries == old(entries)[k := st] && trail == old(trail)[k := tr]
    {
      entries, trail := entries[k := st], trail[k := tr];
    }

    method Prune(k: Key)
      requires Valid()
      modifies this
      ensures Valid()
      ensures entries == (map j | j in old(entries) && !Stale(j, k) :: old(entries[j]))
      ensures trail == (map j | j in old(trail) && !Stale(j, k) :: old(trail[j]))
    {
      trail := map j | j in trail && !Stale(j, k) :: trail[j];
      entries := map j | j in entries && !Stale(j, k) :: entries[j];
    }

    // Refresh up to the point where the entry holds what the scans found.
    method Fetch(k: Key, w: Wire, latest: nat, target: int, ghost cap: nat) returns (ok: bool)
      requires Valid() && cap > 0 && w.head == Done(latest)
      requires Honest(w, world(k)) && Consistent(world(k).log) && Timely(world(k), target)
      modifies this
      ensures Valid() && (ok ==> k in entries && entries[k].scannedHi == latest)
      ensures Healthy(w, cap) ==> ok
      ensures forall j :: j != k && j in entries ==>
                j in old(entries) && entries[j] == old(entries[j]) && trail[j] == old(trail[j])
      ensures forall j :: j in old(entries) && j !in entries ==> Stale(j, k) && !old(Usable(entries, k))
      ensures old(Usable(entries, k)) ==> Usable(entries, k) && old(trail[k].held) <= trail[k].held
      ensures old(Usable(entries, k)) && old(UpToDate(entries[k], world(k), trail[k])) ==>
                Fits(old(entries[k]), w, latest, cap) ==> UpToDate(entries[k], world(k), trail[k])
      ensures old(Usable(entries, k)) && old(Full(entries[k], world(k), trail[k])) ==>
                (ok ==> Fits(old(entries[k]), w, latest, cap)) ==> Full(entries[k], world(k), trail[k])
      ensures ok && !old(Usable(entries, k)) ==> forall j :: j in entries ==> !Stale(j, k)
      ensures ok && old(Usable(entries, k)) ==> trail[k].head == Highest(old(trail[k]), latest)
      ensures ok && !old(Usable(entries, k)) && entries[k].baseComplete ==>
                trail[k].head == latest && UpToDate(entries[k], world(k), trail[k]) &&
                Full(entries[k], world(k), trail[k])
      ensures ok && !old(Usable(entries, k)) ==>
                trail[k].held == Within(world(k).log, entries[k].scannedFrom, latest)
      ensures ok && !old(Usable(entries, k)) && Steady(w, cap) ==>
                (entries[k].baseComplete <==> Shallow(world(k), target, latest, cap))
      ensures old(Usable(entries, k)) && Steady(w, cap) ==>
                var mark := old(entries[k]).scannedHi;
                trail[k].held == old(trail[k].held) + Within(world(k).log, mark + 1, Reach(mark, latest, cap))
    {
      hide Coherent, Reflects, Consistent, Timely, Honest;
      ghost var c := world(k);
      if !Usable(entries, k) {
        var scan;
        ghost var tr;
        scan, tr := Rebuild(w, latest, target, c, cap);
        if scan.Raised? { return false; }
        Store(k, scan.value, tr);
        Prune(k);
        return true;
      }
      assert Coherent(entries[k], c, trail[k]);
      var st;
      ghost var tr;
      st, ok, tr := Advance(w, entries[k], latest, c, trail[k], cap);
      Store(k, st, tr);
    }

    // Weights of newly seen signers, then the figures.
    method Reduce(k: Key, w: Wire, ours: Option<Signer>) returns (r: Outcome<Progress>)
      requires Valid() && k in entries && Honest(w, world(k))
      modifies this`entries
      ensures Valid() && entries == old(entries)[k := old(entries[k]).(facts := entries[k].facts)]
      ensures UpToDate(entries[k], world(k), trail[k]) == old(UpToDate(entries[k], world(k), trail[k]))
      ensures Full(entries[k], world(k), trail[k]) == old(Full(entries[k], world(k), trail[k]))
      ensures r.Raised? ==> exists s :: w.weight(s).Raised?
      ensures r.Done? ==> Reports(r.value, trail[k].held, world(k), ours) && r.value.complete == entries[k].baseComplete
    {
      hide Coherent, Reflects, Reports, Known, Covers, Honest, UpToDate, Seen;
      ghost var c := world(k);
      EntryKnows(entries[k], c, trail[k]);
      var st := entries[k];
      var facts, ok := LookupWeights(w, st.tally, st.facts, c);
      NewFacts(st, facts, c, trail[k]);
      entries := entries[k := st.(facts := facts)];
      if !ok { return Raised; }
      var p := Aggregate(st.tally, facts, st.total, st.ppm, ours, st.baseComplete, st.scannedFrom, trail[k].held, c);
      return Done(p);
    }

    // One daemon cycle.  cap bounds the node's range cap from below.
    method Refresh(k: Key, w: Wire, registered: bool, ours: Option<Signer>, target: int, ghost cap: nat)
      returns (r: Outcome<Progress>)
      requires Valid() && cap > 0
      requires Honest(w, world(k)) && Consistent(world(k).log) && Timely(world(k), target)
      modifies this
      ensures Valid()
      ensures registered && Healthy(w, cap) ==> r.Done?
      ensures r.Done? ==> w.head.Done? && k in entries && entries[k].scannedHi == w.head.value
      ensures r.Done? ==> Reports(r.value, trail[k].held, world(k), ours) && r.value.complete == entries[k].baseComplete
      ensures forall j :: j != k && j in entries ==>
                j in old(entries) && entries[j] == old(entries[j]) && trail[j] == old(trail[j])
      ensures forall j :: j in old(entries) && j !in entries ==> Stale(j, k) && !old(Usable(entries, k))
      ensures r.Done? && !old(Usable(entries, k)) ==> forall j :: j in entries ==> !Stale(j, k)
      // A usable entry only gains votes, and with fitting gaps it never falls behind its mark, even when a call raises.
      ensures old(Usable(entries, k)) ==> Usable(entries, k) && old(trail[k].held) <= trail[k].held
      ensures old(Usable(entries, k)) && old(UpToDate(entries[k], world(k), trail[k])) ==>
                (w.head.Done? ==> Fits(old(entries[k]), w, w.head.value, cap)) ==>
                  UpToDate(entries[k], world(k), trail[k])
      // An entry that holds exactly the events up to its highest block keeps that while gaps fit; a complete refresh
      // then reports on the events up to the highest head answered, be it this one or a higher one before.
      ensures old(Usable(entries, k)) && old(Full(entries[k], world(k), trail[k])) ==>
                (w.head.Done? ==> Fits(old(entries[k]), w, w.head.value, cap)) ==> Full(entries[k], world(k), trail[k])
      ensures r.Done? && r.value.complete ==>
                (old(Usable(entries, k)) ==>
                   old(Full(entries[k], world(k), trail[k])) && Fits(old(entries[k]), w, w.head.value, cap)) ==>
                  && Full(entries[k], world(k), trail[k])
                  && trail[k].head == (if old(Usable(entries, k)) then Highest(old(trail[k]), w.head.value)
                                       else w.head.value)
                  && Reports(r.value, Within(world(k).log, 0, trail[k].head), world(k), ours)
      // A full scan holds what it scanned, and on a steady node each refresh adds what 240 requests reach.
      ensures r.Done? && !old(Usable(entries, k)) ==>
                trail[k].held == Within(world(k).log, entries[k].scannedFrom, w.head.value)
      ensures r.Done? && !old(Usable(entries, k)) && Steady(w, cap) ==>
                (r.value.complete <==> Shallow(world(k), target, w.head.value, cap))
      ensures r.Done? && old(Usable(entries, k)) && Steady(w, cap) ==>
                var mark := old(entries[k]).scannedHi;
                trail[k].held == old(trail[k].held) + Within(world(k).log, mark + 1, Reach(mark, w.head.value, cap))
      // With fitting gaps it reports what a complete scan at the same head would.
      ensures r.Done? && r.value.complete ==>
                (old(Usable(entries, k)) ==>
                   && old(UpToDate(entries[k], world(k), trail[k])) && Fits(old(entries[k]), w, w.head.value, cap)
                   && old(trail[k].head) <= w.head.value) ==>
                  && UpToDate(entries[k], world(k), trail[k])
                  && Reports(r.value, Within(world(k).log, 0, w.head.value), world(k), ours)
    {
      hide Coherent, Reflects, Consistent, Timely, Reports, Honest, UpToDate, Fits, Stale, Healthy, Within;
      if Healthy(w, cap) { HealthyAnswers(w, cap); }
      if !registered || w.head.Raised? { return Raised; }
      var latest := w.head.value;
      var ok := Fetch(k, w, latest, target, cap);
      if !ok { return Raised; }
      r := Reduce(k, w, ours);
      WholeView(entries[k], world(k), trail[k]);
    }
  }

  // --- A gap that does not fit -------------------------------------------------------------------------------

  // One vote of weight 1 in one block, one second a block, an epoch that ended before it.
  function LateVote(at: nat): Event {
    Event(at, "0xab", "0x01", false)
  }

  function LateChain(at: nat): Chain {
    Chain({LateVote(at)}, (b: nat) => b, 1, 500_000, (s: Signer) => 1, (s: Signer) => "")
  }

  const LATE_KEY := Key("flare", 1, "rewards")

  // A healthy node with that cap and head.
  function CappedNode(at: nat, head: nat, cap: nat): Wire {
    Wire(Done(head),
         (i: nat, lo: nat, hi: nat) =>
           if lo <= hi && hi - lo + 1 > cap then Refused(Some(cap))
           else Logs(if lo <= at <= hi then [LateVote(at)] else []),
         (b: nat) => Done(b), (s: Signer) => Done(("", 1)), Done(1), Done(500_000))
  }

  lemma LateChainIsFine(at: nat, target: int)
    requires target <= at
    ensures Consistent(LateChain(at).log) && Timely(LateChain(at), target)
    ensures OneVoteEach(LateChain(at).log, LateChain(at))
  {
    var c := LateChain(at);
    assert (set e | e in c.log :: e.signer) == {"0x01"} by { assert LateVote(at) in c.log; }
    SumRemove({"0x01"}, "0x01", c.weight);
  }

  lemma CappedNodeIsHealthy(at: nat, head: nat, cap: nat)
    ensures Honest(CappedNode(at, head, cap), LateChain(at)) && Healthy(CappedNode(at, head, cap), cap)
  {
    var w, c := CappedNode(at, head, cap), LateChain(at);
    forall i: nat, lo: nat, hi: nat | w.logs(i, lo, hi).Logs?
      ensures (set e | e in w.logs(i, lo, hi).events) == Within(c.log, lo, hi)
    {
      assert w.logs(i, lo, hi).events == if lo <= at <= hi then [LateVote(at)] else [];
    }
  }

  lemma LateReports(p: Progress, es: set<Event>, at: nat, ours: Option<Signer>)
    requires Reports(p, es, LateChain(at), ours) && es <= LateChain(at).log
    ensures p.signedWeight == if es == {} then 0 else 1
  {
    var c, e := LateChain(at), LateVote(at);
    if es == {} {
      assert SignersFor(es, p.messageHash) == {};
    } else {
      assert e in es;
      assert SignersFor(es, "0xab") == {"0x01"};
      SumRemove({"0x01"}, "0x01", c.weight);
      assert SignersFor(es, p.messageHash) != {} ==> p.messageHash == "0xab";
    }
  }

  lemma NothingInReach(mark: nat, latest: nat, cap: nat)
    requires cap > 0 && latest - mark > MAX_REQUESTS * Stride(cap)
    ensures Shallow(LateChain(latest), mark, mark, cap)
    ensures forall from: nat :: Within(LateChain(latest).log, from, mark) == {}
    ensures Within(LateChain(latest).log, mark + 1, Reach(mark, latest, cap)) == {}
    ensures forall from: nat :: from <= latest ==> Within(LateChain(latest).log, from, latest) == {LateVote(latest)}
  {}

  // Whenever the gap between two refreshes is wider than 240 requests reach, there is a chain and a healthy node on
  // which a complete report of the second refresh passes over a vote that a fresh scan at the same head counts.
  method WideGapSkipsAVote(mark: nat, latest: nat, cap: nat) returns (cache: Cache, late: Progress, full: Progress)
    requires cap > 0 && latest - mark > MAX_REQUESTS * Stride(cap)
    ensures cache.Valid() && cache.world(LATE_KEY) == LateChain(latest)
    // The entry counts as complete up to the head and holds nothing, and that is what the second refresh reports.
    ensures LATE_KEY in cache.entries && cache.trail[LATE_KEY].held == {}
    ensures cache.entries[LATE_KEY].baseComplete && cache.entries[LATE_KEY].scannedHi == latest
    ensures late.complete && late.signedWeight == 0 && Reports(late, {}, LateChain(latest), None)
    // The fresh scan reports on everything up to the head.
    ensures full.signedWeight == 1 && Reports(full, Within(LateChain(latest).log, 0, latest), LateChain(latest), None)
  {
    hide Reports, Honest, Consistent, Timely, OneVoteEach, Within, Reach, Shallow, Steady, Coherent, UpToDate, Fits;
    var k, c := LATE_KEY, LateChain(latest);
    LateChainIsFine(latest, mark);
    CappedNodeIsHealthy(latest, mark, cap);
    CappedNodeIsHealthy(latest, latest, cap);
    NothingInReach(mark, latest, cap);
    cache := new Cache(_ => c);
    var r := cache.Refresh(k, CappedNode(latest, mark, cap), true, None, mark, cap);
    assert r.value.complete && cache.trail[k].held == {};
    r := cache.Refresh(k, CappedNode(latest, latest, cap), true, None, mark, cap);
    assert cache.trail[k].held == {};
    late := r.value;
    LateReports(late, {}, latest, None);
    r := ComputeSigningProgress(CappedNode(latest, latest, cap), true, None, mark, c, cap);
    full := r.value;
    LateReports(full, {LateVote(latest)}, latest, None);
  }
}
