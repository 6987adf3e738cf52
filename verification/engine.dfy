// clif/observe/engine.py: the block loop that feeds the observer state and the ledger.
module Engines {
  import opened Hex
  import M = Mincond
  import opened Ascending
  import opened ObserverStates

  const CHUNK: nat := 30

  // --- The pace of the chain ---------------------------------------------------------------------------------

  ghost predicate NeverFalls(time: nat -> int) {
    forall b: nat :: time(b) <= time(b + 1)
  }

  // Block times never fall, and 28 steps take at most one second more than a voting round.
  ghost predicate Paced(t: Timing, time: nat -> int, step: nat) {
    && t.length > 0 && 28 * step <= t.length + 1
    && forall b: nat :: time(b) <= time(b + 1) <= time(b) + step
  }

  lemma {:induction false} Drift(time: nat -> int, step: nat, a: nat, b: nat)
    requires a <= b && forall n: nat :: time(n) <= time(n + 1) <= time(n) + step
    ensures time(a) <= time(b) <= time(a) + (b - a) * step
    decreases b
  {
    if a < b {
      Drift(time, step, a, b - 1);
      assert time(b - 1) <= time(b - 1 + 1) <= time(b - 1) + step;
      assert (b - a) * step == (b - 1 - a) * step + step;
    }
  }

  lemma RoundSpan(t: Timing, ts: int)
    requires t.length > 0
    ensures StartOf(t, RoundAt(t, ts)) <= ts < StartOf(t, RoundAt(t, ts) + 1)
    ensures StartOf(t, RoundAt(t, ts) + 2) == StartOf(t, RoundAt(t, ts) + 1) + t.length
  {
    var r := RoundAt(t, ts);
    assert (r + 1) * t.length == r * t.length + t.length;
    assert (r + 2) * t.length == r * t.length + 2 * t.length;
  }

  // The round of a time is not due before more than a round has passed since.
  lemma {:induction false} NotDueYet(t: Timing, ts: int, now: int)
    requires t.length > 0 && now <= ts + t.length + 1
    ensures !IsDue(t, RoundAt(t, ts), now)
  {
    RoundSpan(t, ts);
  }

  // --- Starting over -----------------------------------------------------------------------------------------

  function Max(a: int, b: int): int {
    if a < b then b else a
  }

  function Min(a: int, b: int): int {
    if a < b then a else b
  }

  function ResumeCursor(head: int, lookback: nat, prior: Option<int>, maxBlocks: int): int {
    var base := Max(1, head - lookback);
    if prior.None? || prior.value <= 0 then base
    else
      var cur := Min(base, Max(1, prior.value - lookback));
      if maxBlocks > 0 then Max(cur, Max(1, head - maxBlocks)) else cur
  }

  // Which blocks a start scans: from the lookback behind the head on, or behind the block on record if that is earlier,
  // and then none that the cap excludes.
  lemma ResumeExactly(head: int, lookback: nat, prior: Option<int>, maxBlocks: int, b: int)
    ensures var resumes := prior.Some? && prior.value >= 1;
            b >= ResumeCursor(head, lookback, prior, maxBlocks) <==>
              && b >= 1 && (b + lookback >= head || (resumes && b + lookback >= prior.value))
              && (resumes && maxBlocks >= 1 ==> b + maxBlocks >= head)
  {}

  // through: the last block that the previous run really processed; it is one short of the block it left on record
  // when it stopped before processing any.  No block is left out exactly when the cap reaches back to the next one.
  lemma ResumeLeavesNoHole(head: int, lookback: nat, prior: int, maxBlocks: int, through: int)
    requires prior > 0 && (through == prior || through == prior - 1)
    ensures ResumeCursor(head, lookback, Some(prior), maxBlocks) <= through + 1 <==>
            maxBlocks <= 0 || head - maxBlocks <= through + 1
    ensures 1 <= ResumeCursor(head, lookback, Some(prior), maxBlocks)
  {}

  // With a lookback of a chunk the blocks whose events were not flushed yet are scanned again.
  lemma UnflushedAreRescanned(head: int, lookback: nat, prior: int, maxBlocks: int, scanLo: int)
    requires lookback >= CHUNK - 2 && prior > 0 && 1 <= scanLo && scanLo >= prior - (CHUNK - 2)
    requires maxBlocks <= 0 || head - maxBlocks <= scanLo
    ensures ResumeCursor(head, lookback, Some(prior), maxBlocks) <= scanLo
  {}

  // --- Epoch overlays ----------------------------------------------------------------------------------------

  class Overlay {
    var checked: int
    constructor () { checked := 0; }
  }

  class Registration {
    var epoch: Option<int>
    var registered: Option<bool>
    var checked: int
    constructor () { epoch, registered, checked := None, None, 0; }
  }

  // The tracked epoch only moves forward, an answer about the old epoch does not outlive the move, and everything is
  // probed again.
  method ExpireEpochOverlays(newEpoch: int, reg: Registration, overlays: seq<Overlay>)
    modifies reg, overlays
    ensures var before := if old(reg.epoch).Some? then old(reg.epoch).value else -1;
            if newEpoch > before then reg.epoch == Some(newEpoch) && reg.registered == None
            else reg.epoch == old(reg.epoch) && reg.registered == old(reg.registered)
    ensures reg.checked == 0 && forall o :: o in overlays ==> o.checked == 0
  {
    if newEpoch > (if reg.epoch.Some? then reg.epoch.value else -1) {
      reg.epoch, reg.registered := Some(newEpoch), None;
    }
    reg.checked := 0;
    for i := 0 to |overlays|
      invariant forall j :: 0 <= j < i ==> overlays[j].checked == 0
      invariant reg.checked == 0
      modifies overlays
    {
      overlays[i].checked := 0;
    }
  }

  // --- The loop ----------------------------------------------------------------------------------------------

  datatype Tx = Tx(submission: Submission, from: string)

  datatype BlockReply = Unavailable | Block(ts: int, txs: seq<Tx>)

  // Event logs of a range, by block number; None when the node refuses.
  datatype Logs = Logs(fdc: Option<seq<nat>>, fastUpdates: Option<seq<nat>>)

  // What happened in one turn of the loop, as far as the outside decides it; written: whether ledger lines reach the
  // disk.
  datatype Turn = Turn(reply: BlockReply, logs: Logs, written: bool)

  // An event counted for a round, and the rounds finalized by then.
  datatype Credit = Credit(round: int, finalized: seq<int>)

  // A flushed range, and what was read for it.
  datatype Span = Span(lo: int, hi: int, logs: Logs)

  // The flushed ranges follow one another from the start, none longer than a chunk.
  ghost predicate Tiles(spans: seq<Span>, start: int, end: int) {
    if spans == [] then start == end
    else
      var last := spans[|spans| - 1];
      last.hi + 1 == end && last.lo <= last.hi < last.lo + CHUNK && Tiles(spans[..|spans| - 1], start, last.lo)
  }

  lemma TilesStep(spans: seq<Span>, start: int, end: int, hi: int, logs: Logs)
    requires Tiles(spans, start, end) && end <= hi < end + CHUNK
    ensures Tiles(spans + [Span(end, hi, logs)], start, hi + 1)
  {
    assert (spans + [Span(end, hi, logs)])[..|spans|] == spans;
  }

  // Every block between the ends lies in exactly one flushed range.
  lemma {:induction false} TilesCover(spans: seq<Span>, start: int, end: int, b: int)
    requires Tiles(spans, start, end) && start <= b < end
    ensures exists i :: 0 <= i < |spans| && spans[i].lo <= b <= spans[i].hi
    ensures forall i, j :: 0 <= i < j < |spans| ==> spans[i].hi < spans[j].lo
  {
    var init, last := spans[..|spans| - 1], spans[|spans| - 1];
    TilesAscend(spans, start, end);
    if b < last.lo {
      TilesCover(init, start, last.lo, b);
      var i :| 0 <= i < |init| && init[i].lo <= b <= init[i].hi;
      assert spans[i] == init[i];
    } else {
      assert spans[|spans| - 1] == last;
    }
  }

  lemma {:induction false} TilesAscend(spans: seq<Span>, start: int, end: int)
    requires Tiles(spans, start, end)
    ensures forall i, j :: 0 <= i < j < |spans| ==> spans[i].hi < spans[j].lo
    ensures forall i :: 0 <= i < |spans| ==> spans[i].hi < end
  {
    if spans != [] {
      var init, last := spans[..|spans| - 1], spans[|spans| - 1];
      TilesAscend(init, start, last.lo);
      assert spans == init + [last];
    }
  }

  // Counted before the round was finalized.
  ghost predicate InTime(credits: seq<Credit>) {
    forall i :: 0 <= i < |credits| ==> credits[i].round !in credits[i].finalized
  }

  // The timestamps of exactly the processed blocks whose events are still to be fetched.
  ghost predicate Holds(tsMap: map<nat, int>, time: nat -> int, lo: nat, hi: nat) {
    forall b :: (b in tsMap <==> lo <= b < hi) && (b in tsMap ==> tsMap[b] == time(b))
  }

  // Every round finalized so far was due by the time of the last processed block.
  ghost predicate DueBy(t: Timing, emitted: seq<RoundState>, now: int) {
    forall rs :: rs in emitted ==> IsDue(t, rs.id, now)
  }

  class Engine {
    const state: ObserverState
    const ledger: M.Ledger
    ghost const time: nat -> int
    ghost const step: nat
    const start: nat
    var cursor: nat
    var scanLo: nat
    var tsMap: map<nat, int>
    var lastBlock: nat
    var catchingUp: bool
    // How each turn went, what was flushed, and what was counted.
    ghost var processed: seq<Turn>
    ghost var flushed: seq<Span>
    ghost var credits: seq<Credit>

    ghost predicate Valid()
      reads this, state, ledger
    {
      && state.Valid() && state.timing.length > 0 && ledger.Valid() && NeverFalls(time)
      && start <= scanLo <= cursor < scanLo + CHUNK && Holds(tsMap, time, scanLo, cursor)
      && Tiles(flushed, start, scanLo)
      && (Paced(state.timing, time, step) ==> InTime(credits))
      && lastBlock == (if cursor == start then start else cursor - 1)
      && state.lastTs == (if cursor == start then None else Some(time(cursor - 1)))
      && (cursor == start ==> state.emitted == [])
      && (cursor > start ==> DueBy(state.timing, state.emitted, time(cursor - 1)))
    }

    constructor (state: ObserverState, ledger: M.Ledger, cursor: nat, ghost time: nat -> int, ghost step: nat)
      requires state.Valid() && ledger.Valid() && NeverFalls(time)
      requires state.emitted == [] && state.lastTs == None
      ensures Valid() && this.state == state && this.ledger == ledger
      ensures this.cursor == this.start == cursor && !catchingUp
      ensures this.time == time && this.step == step && processed == [] && flushed == [] && credits == []
    {
      this.state, this.ledger, this.time, this.step := state, ledger, time, step;
      this.start, this.cursor, scanLo, lastBlock := cursor, cursor, cursor, cursor;
      tsMap, catchingUp, processed, flushed, credits := map[], false, [], [], [];
    }

    // One event of a known block, counted for the round of that block.
    // prompt: the blocks came fast enough for it to be in time.
    method CreditOne(bts: int, fastUpdate: bool, ghost now: int, ghost prompt: bool)
      requires state.Valid() && state.timing.length > 0 && DueBy(state.timing, state.emitted, now)
      requires prompt ==> InTime(credits) && now <= bts + state.timing.length + 1
      modifies this`credits, state`rounds, state`fuEvents
      ensures state.Valid() && (prompt ==> InTime(credits))
      ensures credits == old(credits) + [Credit(RoundAt(state.timing, bts), IdsOf(state.emitted))]
      ensures state.rounds == Touched(old(state.rounds), RoundAt(state.timing, bts), state.CurrentRound(),
                                      if fastUpdate then FastUpdated() else Requested())
      ensures state.fuEvents == if fastUpdate then Pushed(old(state.fuEvents), bts, FAST_UPDATES_CAP)
              else old(state.fuEvents)
    {
      hide ObserverState.Valid, InTime, DueBy, Touched, Pushed, RoundAt, IdsOf;
      var rid := RoundAt(state.timing, bts);
      if fastUpdate {
        state.RecordFastUpdate(bts);
        state.RecordRoundFu(rid);
      } else {
        state.RecordFdcRequest(rid);
      }
      if prompt {
        NotDueYet(state.timing, bts, now);
        NewCredit(state.timing, credits, state.emitted, rid, now);
      }
      credits := credits + [Credit(rid, IdsOf(state.emitted))];
    }

    // Events of one protocol; those of a block outside the map are passed over.
    method Credited(blocks: seq<nat>, fastUpdate: bool, ghost now: int, ghost prompt: bool)
      requires state.Valid() && state.timing.length > 0 && DueBy(state.timing, state.emitted, now)
      requires prompt ==> InTime(credits) && forall b :: b in tsMap ==> now <= tsMap[b] + state.timing.length + 1
      modifies this`credits, state`rounds, state`fuEvents
      ensures state.Valid() && (prompt ==> InTime(credits))
      ensures credits == old(credits) + CreditsFor(Rounds(state.timing, tsMap, blocks), IdsOf(state.emitted))
      ensures state.rounds ==
              Counted(old(state.rounds), Rounds(state.timing, tsMap, blocks), state.CurrentRound(), fastUpdate)
      ensures state.fuEvents == if fastUpdate then Noted(old(state.fuEvents), tsMap, blocks) else old(state.fuEvents)
    {
      hide ObserverState.Valid, InTime, DueBy, Touched, CreditsFor, RoundAt, Pushed, IdsOf, Counted, Noted, Rounds;
      assert blocks[..0] == [];
      NothingCounted(state.timing, tsMap, state.rounds, state.CurrentRound(), fastUpdate, state.fuEvents,
                     IdsOf(state.emitted));
      for i := 0 to |blocks|
        invariant state.Valid() && (prompt ==> InTime(credits))
        invariant credits == old(credits) + CreditsFor(Rounds(state.timing, tsMap, blocks[..i]), IdsOf(state.emitted))
        invariant state.rounds == Counted(old(state.rounds), Rounds(state.timing, tsMap, blocks[..i]),
                                          state.CurrentRound(), fastUpdate)
        invariant state.fuEvents ==
                  if fastUpdate then Noted(old(state.fuEvents), tsMap, blocks[..i]) else old(state.fuEvents)
      {
        RoundsStep(state.timing, tsMap, blocks, i);
        NotedStep(old(state.fuEvents), tsMap, blocks, i);
        if blocks[i] in tsMap {
          ghost var rids, rid := Rounds(state.timing, tsMap, blocks[..i]), RoundAt(state.timing, tsMap[blocks[i]]);
          CountedStep(old(state.rounds), rids, rid, state.CurrentRound(), fastUpdate);
          CreditsForStep(rids, rid, IdsOf(state.emitted));
          CreditOne(tsMap[blocks[i]], fastUpdate, now, prompt);
        }
      }
      assert blocks[..|blocks|] == blocks;
    }

    // _flush_events on everything not flushed yet; a refused read is given up.
    method Flush(hi: nat, logs: Logs, ghost now: int, ghost prompt: bool)
      requires state.Valid() && state.timing.length > 0 && DueBy(state.timing, state.emitted, now)
      requires prompt ==> InTime(credits) && forall b :: b in tsMap ==> now <= tsMap[b] + state.timing.length + 1
      requires Tiles(flushed, start, scanLo) && scanLo <= hi < scanLo + CHUNK
      modifies this`credits, this`scanLo, this`tsMap, this`flushed, state`rounds, state`fuEvents
      ensures state.Valid() && (prompt ==> InTime(credits))
      ensures credits == old(credits) + CreditsFor(AllRounds(state.timing, old(tsMap), logs), IdsOf(state.emitted))
      ensures state.rounds == AllCounted(state.timing, old(state.rounds), old(tsMap), logs, state.CurrentRound())
      ensures state.fuEvents == Noted(old(state.fuEvents), old(tsMap), FastUpdatesOf(logs))
      ensures scanLo == hi + 1 && tsMap == map[] && flushed == old(flushed) + [Span(old(scanLo), hi, logs)]
      ensures Tiles(flushed, start, scanLo)
    {
      hide ObserverState.Valid, InTime, DueBy, Tiles, Counted, Rounds, IdsOf, Noted;
      Credited(FdcOf(logs), false, now, prompt);
      Credited(FastUpdatesOf(logs), true, now, prompt);
      TilesStep(flushed, start, scanLo, hi, logs);
      flushed := flushed + [Span(scanLo, hi, logs)];
      scanLo, tsMap := hi + 1, map[];
    }

    // The rounds finalized by a block go into the ledger; while backfilling, offences are not trusted.
    method RecordRounds(done: seq<RoundState>, written: bool)
      requires ledger.Valid()
      modifies ledger
      ensures ledger.Valid() && ledger.kept == old(ledger.kept)
      ensures forall rid :: rid in old(ledger.recs) ==> rid in ledger.recs && ledger.recs[rid] == old(ledger.recs[rid])
      ensures forall rid :: rid in ledger.recs ==> rid in old(ledger.recs) || rid in IdsOf(done)
      ensures forall rs :: rs in done ==> rs.id in ledger.recs
      ensures catchingUp ==> NoNewOffence(old(ledger.recs), ledger.recs)
      ensures Entered(old(ledger.recs), ledger.recs, done, catchingUp)
      ensures Logged(old(ledger.recs), done, written, old(ledger.lost), ledger.lost)
    {
      hide M.Ledger.Valid, M.FromRound, NoNewOffence, Entered, IdsOf, Logged;
      ghost var before := ledger.recs;
      NothingLogged(before, written, ledger.lost);
      assert done[..0] == [];
      for i := 0 to |done|
        invariant ledger.Valid() && ledger.kept == old(ledger.kept)
        invariant ledger.recs == Entries(before, done[..i], catchingUp)
        invariant Logged(before, done[..i], written, old(ledger.lost), ledger.lost)
      {
        assert done[..i + 1] == done[..i] + [done[i]];
        EntriesMean(before, done[..i], catchingUp);
        ghost var lost := ledger.lost;
        OneMoreLogged(before, done[..i], done[i], written, old(ledger.lost), lost);
        var added, rolled := ledger.Record(done[i], catchingUp, written);
        assert ledger.lost == if !added then lost
                              else if written then lost - {done[i].id} else lost + {done[i].id};
      }
      assert done[..|done|] == done;
      EntriesMean(before, done, catchingUp);
    }

    // Our transactions of a block, in order.
    method RecordTxs(txs: seq<Tx>, ts: int)
      requires state.Valid() && state.timing.length > 0
      modifies state`rounds
      ensures state.Valid()
      ensures state.rounds == Transacted(old(state.rounds), txs, ts, state.timing, Lower(state.ourSubmit),
                                         Lower(state.ourSig), state.CurrentRound())
    {
      hide ObserverState.Valid, Recorded;
      for i := 0 to |txs|
        invariant state.Valid()
        invariant state.rounds == Transacted(old(state.rounds), txs[..i], ts, state.timing, Lower(state.ourSubmit),
                                             Lower(state.ourSig), state.CurrentRound())
      {
        assert txs[..i + 1][..i] == txs[..i];
        state.Record(txs[i].submission, txs[i].from, ts);
      }
      assert txs[..|txs|] == txs;
    }

    // The rounds that a block makes due.
    method Settle(ts: int, written: bool, ghost before: int) returns (done: seq<RoundState>)
      requires state.Valid() && ledger.Valid() && DueBy(state.timing, state.emitted, before) && before <= ts
      modifies state, ledger
      ensures state.Valid() && ledger.Valid() && state.lastTs == Some(ts) && DueBy(state.timing, state.emitted, ts)
      ensures state.emitted == old(state.emitted) + done && (forall rs :: rs in done ==> rs.id in ledger.recs)
      ensures forall rid :: rid in old(ledger.recs) ==> rid in ledger.recs && ledger.recs[rid] == old(ledger.recs[rid])
      ensures catchingUp ==> NoNewOffence(old(ledger.recs), ledger.recs)
      ensures Entered(old(ledger.recs), ledger.recs, done, catchingUp)
      ensures Logged(old(ledger.recs), done, written, old(ledger.lost), ledger.lost)
      ensures Judges(state, old(state.rounds), ts, done) && state.fuEvents == old(state.fuEvents)
    {
      hide ObserverState.Valid, M.Ledger.Valid, DueBy, Left, Verdicts, NoNewOffence, IdsOf, Settled, Entered, Logged;
      ghost var pending := Sorted(state.rounds.Keys);
      ghost var finalized, rounds := state.emitted, state.rounds;
      state.SawBlock(ts);
      done := state.FinalizeDue(ts);
      StillDueBy(state.timing, finalized, before, done, pending, ts, state.observeStart);
      IsSettled(state.timing, rounds, ts, state.observeStart, IdsOf(done));
      RecordRounds(done, written);
    }

    // The first half of a block's turn: its transactions, and a flush when a chunk is full.
    method Ingest(ts: int, txs: seq<Tx>, logs: Logs, ghost before: int, ghost prompt: bool)
      requires state.Valid() && state.timing.length > 0 && DueBy(state.timing, state.emitted, before)
      requires Holds(tsMap, time, scanLo, cursor) && ts == time(cursor) && Tiles(flushed, start, scanLo)
      requires scanLo <= cursor < scanLo + CHUNK
      requires prompt ==>
                 InTime(credits) && forall b :: scanLo <= b <= cursor ==> before <= time(b) + state.timing.length + 1
      modifies this`credits, this`scanLo, this`tsMap, this`flushed, state`rounds, state`fuEvents
      ensures state.Valid() && (prompt ==> InTime(credits)) && Tiles(flushed, start, scanLo)
      ensures scanLo <= cursor + 1 < scanLo + CHUNK && Holds(tsMap, time, scanLo, cursor + 1) && old(scanLo) <= scanLo
      // Our transactions are recorded, and with a full chunk its events are counted on top of them.
      ensures var own := Transacted(old(state.rounds), txs, ts, state.timing, Lower(state.ourSubmit),
                                    Lower(state.ourSig), state.CurrentRound());
              var known := old(tsMap)[cursor := ts];
              if cursor - old(scanLo) == 29
              then && scanLo == cursor + 1 && flushed == old(flushed) + [Span(old(scanLo), cursor, logs)]
                   && credits == old(credits) + CreditsFor(AllRounds(state.timing, known, logs), IdsOf(state.emitted))
                   && state.rounds == AllCounted(state.timing, own, known, logs, state.CurrentRound())
                   && state.fuEvents == Noted(old(state.fuEvents), known, FastUpdatesOf(logs))
              else && scanLo == old(scanLo) && flushed == old(flushed) && credits == old(credits)
                   && state.rounds == own && state.fuEvents == old(state.fuEvents)
    {
      hide ObserverState.Valid, InTime, DueBy, Tiles, Transacted, CreditsFor, AllRounds, AllCounted, Noted, IdsOf;
      tsMap := tsMap[cursor := ts];
      RecordTxs(txs, ts);
      if cursor - scanLo + 1 >= CHUNK { Flush(cursor, logs, before, prompt); }
    }

    // One block: its transactions, a flush when a chunk is full, and only then the rounds that have become due.
    method ProcessBlock(ts: int, txs: seq<Tx>, logs: Logs, written: bool) returns (done: seq<RoundState>)
      requires Valid() && ts == time(cursor)
      modifies this, state, ledger
      ensures Valid() && cursor == old(cursor) + 1 && lastBlock == old(cursor) && catchingUp == old(catchingUp)
      ensures processed == old(processed) + [Turn(Block(ts, txs), logs, written)]
      // Our transactions are recorded; a full chunk is counted on top of them for the rounds of its blocks, and only
      // then are the due rounds judged.
      ensures var own := Transacted(old(state.rounds), txs, ts, state.timing, Lower(state.ourSubmit),
                                    Lower(state.ourSig), old(state.CurrentRound()));
              var known := old(tsMap)[old(cursor) := ts];
              if old(cursor) - old(scanLo) == 29
              then && scanLo == cursor && flushed == old(flushed) + [Span(old(scanLo), old(cursor), logs)]
                   && credits == old(credits) +
                                 CreditsFor(AllRounds(state.timing, known, logs), IdsOf(old(state.emitted)))
                   && Judges(state, AllCounted(state.timing, own, known, logs, old(state.CurrentRound())), ts, done)
                   && state.fuEvents == Noted(old(state.fuEvents), known, FastUpdatesOf(logs))
              else && scanLo == old(scanLo) && flushed == old(flushed) && credits == old(credits)
                   && Judges(state, own, ts, done) && state.fuEvents == old(state.fuEvents)
      ensures state.emitted == old(state.emitted) + done && (forall rs :: rs in done ==> rs.id in ledger.recs)
      ensures forall rid :: rid in old(ledger.recs) ==> rid in ledger.recs && ledger.recs[rid] == old(ledger.recs[rid])
      ensures Entered(old(ledger.recs), ledger.recs, done, catchingUp)
      ensures Logged(old(ledger.recs), done, written, old(ledger.lost), ledger.lost)
      ensures catchingUp ==> NoNewOffence(old(ledger.recs), ledger.recs)
    {
      hide ObserverState.Valid, M.Ledger.Valid, InTime, DueBy, Tiles, Holds, Transacted, CreditsFor, Logged, AllRounds,
        IdsOf, Judges, NoNewOffence, Entered, RoundAt, Paced, NeverFalls, AllCounted, Noted;
      ghost var before, prompt := if cursor == start then ts else time(cursor - 1), Paced(state.timing, time, step);
      BeforeBlock(state.timing, time, step, start, scanLo, cursor);
      NothingDueBy(state.timing, before);
      Ingest(ts, txs, logs, before, prompt);
      lastBlock := cursor;
      done := Settle(ts, written, before);
      cursor, processed := cursor + 1, processed + [Turn(Block(ts, txs), logs, written)];
    }

    // Caught up, or paused on a read error: the partial chunk is flushed too.
    method FlushRest(logs: Logs)
      requires Valid()
      modifies this`credits, this`scanLo, this`tsMap, this`flushed, state`rounds, state`fuEvents
      ensures Valid() && scanLo == cursor && tsMap == map[] && old(scanLo) <= cursor <= old(scanLo) + 29
      ensures flushed == old(flushed) + if old(scanLo) < cursor then [Span(old(scanLo), cursor - 1, logs)] else []
      ensures if old(scanLo) < cursor
              then && state.rounds ==
                      AllCounted(state.timing, old(state.rounds), old(tsMap), logs, state.CurrentRound())
                   && state.fuEvents == Noted(old(state.fuEvents), old(tsMap), FastUpdatesOf(logs))
              else state.rounds == old(state.rounds) && state.fuEvents == old(state.fuEvents)
    {
      hide ObserverState.Valid, M.Ledger.Valid, InTime, DueBy, Tiles, CreditsFor, AllRounds, IdsOf, AllCounted, Noted;
      if cursor > scanLo {
        ghost var prompt := Paced(state.timing, time, step);
        if prompt { ReachesBack(state.timing, time, step, scanLo, cursor); }
        hide Paced, NeverFalls;
        Flush(cursor - 1, logs, time(cursor - 1), prompt);
      } else {
        assert tsMap == map[];
      }
    }

    // One turn of the loop whose block could be read.
    method TakeTurn(turn: Turn)
      requires Valid() && turn.reply.Block? && turn.reply.ts == time(cursor)
      modifies this, state, ledger
      ensures Valid() && cursor == old(cursor) + 1 && catchingUp == old(catchingUp)
      ensures processed == old(processed) + [turn]
      ensures flushed in {old(flushed), old(flushed) + [Span(old(cursor) - 29, old(cursor), turn.logs)]}
      ensures old(state.emitted) <= state.emitted
      ensures forall i :: |old(state.emitted)| <= i < |state.emitted| ==> state.emitted[i].id in ledger.recs
      ensures forall rid :: rid in old(ledger.recs) ==> rid in ledger.recs && ledger.recs[rid] == old(ledger.recs[rid])
      ensures catchingUp ==> NoNewOffence(old(ledger.recs), ledger.recs)
    {
      hide ObserverState.Valid, M.Ledger.Valid, InTime, DueBy, Tiles, Holds, Paced, NeverFalls, Transacted, Judges,
        CreditsFor, AllRounds, AllCounted, Noted, IdsOf, Entered, NoNewOffence, Logged;
      var done := ProcessBlock(turn.reply.ts, turn.reply.txs, turn.logs, turn.written);
    }

    // The blocks up to the safe head, until one cannot be read.
    method CatchUp(safeHead: int, turns: nat -> Turn, rest: Logs)
      requires Valid() && forall b :: turns(b).reply.Block? ==> turns(b).reply.ts == time(b)
      modifies this, state, ledger
      ensures Valid() && scanLo == cursor && old(cursor) <= cursor
      ensures cursor > safeHead || turns(cursor).reply.Unavailable?
      ensures cursor <= safeHead + 1 || cursor == old(cursor)
      // Each of these blocks is processed once, as its turn goes; a full chunk's events are those read in the turn of
      // its last block, and those left over are read at the end.
      ensures Follow(processed, old(processed), old(cursor), cursor, turns)
      ensures ReadFor(flushed, old(flushed), turns, rest)
      ensures old(state.emitted) <= state.emitted
      ensures forall i :: |old(state.emitted)| <= i < |state.emitted| ==> state.emitted[i].id in ledger.recs
      ensures catchingUp == old(catchingUp) && (catchingUp ==> NoNewOffence(old(ledger.recs), ledger.recs))
      ensures forall rid :: rid in old(ledger.recs) ==> rid in ledger.recs && ledger.recs[rid] == old(ledger.recs[rid])
    {
      hide ObserverState.Valid, M.Ledger.Valid, InTime, DueBy, Tiles, Holds, Paced, NeverFalls, Transacted, Judges,
        CreditsFor, AllRounds, AllCounted, Noted, IdsOf, Entered;
      NothingFollows(processed, cursor, flushed, turns, rest);
      hide Engine.Valid, Follow, ReadFor;
      while cursor <= safeHead && turns(cursor).reply.Block?
        invariant Valid() && old(cursor) <= cursor
        invariant cursor <= safeHead + 1 || cursor == old(cursor)
        invariant Follow(processed, old(processed), old(cursor), cursor, turns)
        invariant ReadFor(flushed, old(flushed), turns, rest)
        invariant old(state.emitted) <= state.emitted
        invariant forall i :: |old(state.emitted)| <= i < |state.emitted| ==> state.emitted[i].id in ledger.recs
        invariant catchingUp == old(catchingUp) && (catchingUp ==> NoNewOffence(old(ledger.recs), ledger.recs))
        invariant forall rid :: rid in old(ledger.recs) ==>
                    rid in ledger.recs && ledger.recs[rid] == old(ledger.recs[rid])
        decreases safeHead - cursor
      {
        ghost var spans, went, b := flushed, processed, cursor;
        TakeTurn(turns(cursor));
        OneMoreFollows(went, old(processed), old(cursor), b, turns);
        if flushed != spans { OneMoreRead(spans, old(flushed), turns, rest, flushed[|spans|]); }
      }
      ghost var spans := flushed;
      FlushRest(rest);
      if flushed != spans { OneMoreRead(spans, old(flushed), turns, rest, flushed[|spans|]); }
    }

    // One turn of the outer loop after the head was read.  recovered: the read had failed before.  A backfill begins
    // when a recovery finds the loop too far behind, and ends when the loop has come close enough to the head.
    method Poll(head: int, recovered: bool, confirmations: nat, liveLag: int, turns: nat -> Turn, rest: Logs)
      requires Valid() && forall b :: turns(b).reply.Block? ==> turns(b).reply.ts == time(b)
      modifies this, state, ledger
      ensures Valid() && scanLo == cursor && old(cursor) <= cursor
      ensures cursor > head - confirmations || turns(cursor).reply.Unavailable?
      ensures cursor <= head - confirmations + 1 || cursor == old(cursor)
      ensures Follow(processed, old(processed), old(cursor), cursor, turns)
      ensures ReadFor(flushed, old(flushed), turns, rest)
      ensures var backfill := if recovered then head - old(cursor) > liveLag else old(catchingUp);
              && (catchingUp <==> backfill && head - lastBlock > liveLag)
              // Offences found in a backfill are not trusted.
              && (backfill ==> NoNewOffence(old(ledger.recs), ledger.recs))
      ensures forall rid :: rid in old(ledger.recs) ==> rid in ledger.recs && ledger.recs[rid] == old(ledger.recs[rid])
    {
      hide ObserverState.Valid, M.Ledger.Valid, InTime, DueBy, Tiles, Holds, Paced, NeverFalls, NoNewOffence;
      if recovered { catchingUp := head - cursor > liveLag; }
      CatchUp(head - confirmations, turns, rest);
      if catchingUp && head - lastBlock <= liveLag { catchingUp := false; }
    }
  }

  // The blocks from lo up to hi could be read and were processed once each, in order, as their turns went.
  ghost predicate Follow(after: seq<Turn>, before: seq<Turn>, lo: int, hi: int, turns: nat -> Turn) {
    && |after| - |before| == hi - lo >= 0 && lo >= 0 && before <= after
    && forall b: nat :: lo <= b < hi ==> after[|before| + b - lo] == turns(b) && turns(b).reply.Block?
  }

  // What was read for the ranges flushed since: a full chunk's events in the turn of its last block, others at the end.
  ghost predicate ReadFor(after: seq<Span>, before: seq<Span>, turns: nat -> Turn, rest: Logs) {
    before <= after &&
    forall i :: |before| <= i < |after| ==>
                  && after[i].hi >= 0
                  && after[i].logs == if after[i].hi - after[i].lo == 29 then turns(after[i].hi).logs else rest
  }

  lemma NothingFollows(processed: seq<Turn>, cursor: nat, flushed: seq<Span>, turns: nat -> Turn, rest: Logs)
    ensures Follow(processed, processed, cursor, cursor, turns) && ReadFor(flushed, flushed, turns, rest)
  {}

  lemma OneMoreFollows(after: seq<Turn>, before: seq<Turn>, lo: nat, hi: nat, turns: nat -> Turn)
    requires Follow(after, before, lo, hi, turns) && turns(hi).reply.Block?
    ensures Follow(after + [turns(hi)], before, lo, hi + 1, turns)
  {}

  lemma OneMoreRead(after: seq<Span>, before: seq<Span>, turns: nat -> Turn, rest: Logs, span: Span)
    requires ReadFor(after, before, turns, rest)
    requires span.hi >= 0 && span.logs == if span.hi - span.lo == 29 then turns(span.hi).logs else rest
    ensures ReadFor(after + [span], before, turns, rest)
  {}

  // A round that was not in the ledger is entered as it was judged, in a backfill without its offence flag.
  ghost predicate Entered(before: map<int, M.RoundRecord>, after: map<int, M.RoundRecord>, done: seq<RoundState>,
                          catchingUp: bool) {
    forall j :: 0 <= j < |done| && FirstOf(done, j) && done[j].id !in before ==>
                  && done[j].id in after
                  && after[done[j].id] ==
                     M.FromRound(done[j]).(offence := if catchingUp then 0 else M.Bit(done[j].offence))
  }

  // Of the rounds that were not in the ledger the line is lost exactly if it could not be written.
  ghost predicate Logged(recs: map<int, M.RoundRecord>, done: seq<RoundState>, written: bool, before: set<int>,
                         after: set<int>) {
    forall id :: id in after <==> if id in IdsOf(done) && id !in recs then !written else id in before
  }

  lemma NothingLogged(recs: map<int, M.RoundRecord>, written: bool, lost: set<int>)
    ensures Logged(recs, [], written, lost, lost)
  {}

  lemma OneMoreLogged(recs: map<int, M.RoundRecord>, done: seq<RoundState>, rs: RoundState, written: bool,
                      before: set<int>, after: set<int>)
    requires Logged(recs, done, written, before, after)
    ensures Logged(recs, done + [rs], written, before,
                   if rs.id in recs || rs.id in IdsOf(done) then after
                   else if written then after - {rs.id} else after + {rs.id})
  {
    IdsGrow(done, rs);
  }

  ghost predicate FirstOf(done: seq<RoundState>, j: nat)
    requires j < |done|
  {
    forall i :: 0 <= i < j ==> done[i].id != done[j].id
  }

  // record, round by round: one already there is left alone.
  ghost function Entries(before: map<int, M.RoundRecord>, done: seq<RoundState>,
                         catchingUp: bool): map<int, M.RoundRecord> {
    if done == [] then before
    else
      var rest, rs := Entries(before, done[..|done| - 1], catchingUp), done[|done| - 1];
      if rs.id in rest then rest
      else rest[rs.id := M.FromRound(rs).(offence := if catchingUp then 0 else M.Bit(rs.offence))]
  }

  lemma {:induction false} EntriesMean(before: map<int, M.RoundRecord>, done: seq<RoundState>, catchingUp: bool)
    ensures var after := Entries(before, done, catchingUp);
            && (forall rid :: rid in before ==> rid in after && after[rid] == before[rid])
            && (forall rid :: rid in after <==> rid in before || rid in IdsOf(done))
            && (forall rs :: rs in done ==> rs.id in after)
            && Entered(before, after, done, catchingUp) && (catchingUp ==> NoNewOffence(before, after))
  {
    hide M.FromRound, IdsOf;
    if done == [] {
      NoIds();
    } else {
      var init, rs := done[..|done| - 1], done[|done| - 1];
      EntriesMean(before, init, catchingUp);
      assert done == init + [rs];
      IdsGrow(init, rs);
      hide Entered;
      EnteredStep(before, Entries(before, init, catchingUp), init, rs, catchingUp);
    }
  }

  lemma NoIds()
    ensures IdsOf([]) == []
  {}

  lemma IdsGrow(done: seq<RoundState>, rs: RoundState)
    ensures IdsOf(done + [rs]) == IdsOf(done) + [rs.id]
  {}

  lemma EnteredStep(before: map<int, M.RoundRecord>, rest: map<int, M.RoundRecord>, init: seq<RoundState>,
                    rs: RoundState, catchingUp: bool)
    requires Entered(before, rest, init, catchingUp)
    requires forall rid :: rid in rest <==> rid in before || rid in IdsOf(init)
    ensures var after := if rs.id in rest then rest
                         else rest[rs.id := M.FromRound(rs).(offence := if catchingUp then 0 else M.Bit(rs.offence))];
            Entered(before, after, init + [rs], catchingUp)
  {
    hide M.FromRound;
    var after := if rs.id in rest then rest
                 else rest[rs.id := M.FromRound(rs).(offence := if catchingUp then 0 else M.Bit(rs.offence))];
    var done := init + [rs];
    forall j | 0 <= j < |done| && FirstOf(done, j) && done[j].id !in before
      ensures done[j].id in after
      ensures after[done[j].id] == M.FromRound(done[j]).(offence := if catchingUp then 0 else M.Bit(done[j].offence))
    {
      if j < |init| {
        assert forall i :: 0 <= i <= j ==> done[i] == init[i];
        assert FirstOf(init, j);
      } else {
        assert forall i :: 0 <= i < |init| ==> done[i] == init[i] && IdsOf(init)[i] == init[i].id;
        assert rs.id !in IdsOf(init);
      }
    }
  }

  // No record that is new carries an offence.
  ghost predicate NoNewOffence(before: map<int, M.RoundRecord>, after: map<int, M.RoundRecord>) {
    forall rid :: rid in after && rid !in before ==> after[rid].offence == 0
  }

  // Of the rounds in flight exactly those not due stay, and those due that count are emitted.
  ghost predicate Settled(t: Timing, before: map<int, RoundState>, after: map<int, RoundState>, now: int,
                          observeStart: int, emitted: seq<int>) {
    && (forall id :: id in after <==> id in before && !IsDue(t, id, now))
    && (forall id :: id in after ==> after[id] == before[id])
    && (forall id :: id in emitted <==> id in before && IsDue(t, id, now) && StartOf(t, id) >= observeStart)
  }

  // The due rounds leave these rounds, each with its verdict.
  ghost predicate Judges(state: ObserverState, before: map<int, RoundState>, now: int, done: seq<RoundState>)
    reads state
  {
    && Settled(state.timing, before, state.rounds, now, state.observeStart, IdsOf(done))
    && Verdicts(state.commitHash, state.score, before, now, done)
  }

  lemma IsSettled(t: Timing, rounds: map<int, RoundState>, now: int, observeStart: int, emitted: seq<int>)
    requires emitted == DueIds(t, Sorted(rounds.Keys), now, observeStart)
    ensures Settled(t, rounds, Left(rounds, Sorted(rounds.Keys), t, now), now, observeStart, emitted)
  {
    hide IsDue, StartOf, Left, Sorted;
    NothingDueIsLeft(rounds, t, now);
    DueAreEmitted(t, rounds, now, observeStart);
  }

  lemma DueAreEmitted(t: Timing, rounds: map<int, RoundState>, now: int, observeStart: int)
    ensures forall id :: id in DueIds(t, Sorted(rounds.Keys), now, observeStart) <==>
                           id in rounds && IsDue(t, id, now) && StartOf(t, id) >= observeStart
  {
    hide IsDue, StartOf, DueIds;
    forall id
      ensures id in DueIds(t, Sorted(rounds.Keys), now, observeStart) <==>
                id in rounds && IsDue(t, id, now) && StartOf(t, id) >= observeStart
    {
      DueIsExact(t, Sorted(rounds.Keys), now, observeStart, id);
    }
  }

  lemma BeforeBlock(t: Timing, time: nat -> int, step: nat, start: nat, scanLo: nat, cursor: nat)
    requires t.length > 0 && NeverFalls(time) && start <= scanLo <= cursor < scanLo + CHUNK
    ensures var before := if cursor == start then time(cursor) else time(cursor - 1);
            && before <= time(cursor)
            && (Paced(t, time, step) ==> forall b: nat :: scanLo <= b <= cursor ==> before <= time(b) + t.length + 1)
  {
    if cursor > start {
      assert time(cursor - 1) <= time(cursor - 1 + 1);
      if Paced(t, time, step) { ReachesBack(t, time, step, scanLo, cursor); }
    }
  }

  function FdcOf(logs: Logs): seq<nat> {
    if logs.fdc.Some? then logs.fdc.value else []
  }

  function FastUpdatesOf(logs: Logs): seq<nat> {
    if logs.fastUpdates.Some? then logs.fastUpdates.value else []
  }

  // The events of each kind come from that kind's own read, and there are none when it was refused.
  lemma EventsExactly(requests: seq<nat>, updates: seq<nat>, other: Option<seq<nat>>)
    ensures FdcOf(Logs(Some(requests), other)) == requests && FastUpdatesOf(Logs(other, Some(updates))) == updates
    ensures FdcOf(Logs(None, other)) == FastUpdatesOf(Logs(other, None)) == []
  {}

  // The rounds for which the events of a flush are counted, FDC requests first.
  ghost function AllRounds(t: Timing, tsMap: map<nat, int>, logs: Logs): seq<int>
    requires t.length > 0
  {
    Rounds(t, tsMap, FdcOf(logs)) + Rounds(t, tsMap, FastUpdatesOf(logs))
  }

  // The rounds once these events are counted, FDC requests first.
  ghost function AllCounted(t: Timing, rounds: map<int, RoundState>, tsMap: map<nat, int>, logs: Logs,
                            current: Option<int>): map<int, RoundState>
    requires t.length > 0
  {
    Counted(Counted(rounds, Rounds(t, tsMap, FdcOf(logs)), current, false),
            Rounds(t, tsMap, FastUpdatesOf(logs)), current, true)
  }

  // The times of the fast updates of known blocks join the bounded history.
  ghost function Noted(history: seq<int>, tsMap: map<nat, int>, blocks: seq<nat>): seq<int> {
    if blocks == [] then history
    else
      var rest, last := Noted(history, tsMap, blocks[..|blocks| - 1]), blocks[|blocks| - 1];
      if last in tsMap then Pushed(rest, tsMap[last], FAST_UPDATES_CAP) else rest
  }

  ghost function CreditsFor(rids: seq<int>, finalized: seq<int>): seq<Credit> {
    seq(|rids|, i requires 0 <= i < |rids| => Credit(rids[i], finalized))
  }

  lemma NothingCounted(t: Timing, tsMap: map<nat, int>, rounds: map<int, RoundState>, current: Option<int>,
                       fastUpdate: bool, history: seq<int>, finalized: seq<int>)
    requires t.length > 0
    ensures Rounds(t, tsMap, []) == [] && CreditsFor([], finalized) == [] && Noted(history, tsMap, []) == history
    ensures Counted(rounds, [], current, fastUpdate) == rounds
  {}

  lemma NotedStep(history: seq<int>, tsMap: map<nat, int>, blocks: seq<nat>, i: nat)
    requires i < |blocks|
    ensures Noted(history, tsMap, blocks[..i + 1]) ==
            if blocks[i] in tsMap then Pushed(Noted(history, tsMap, blocks[..i]), tsMap[blocks[i]], FAST_UPDATES_CAP)
            else Noted(history, tsMap, blocks[..i])
  {
    assert blocks[..i + 1][..i] == blocks[..i];
  }

  lemma CreditsForStep(rids: seq<int>, rid: int, finalized: seq<int>)
    ensures CreditsFor(rids + [rid], finalized) == CreditsFor(rids, finalized) + [Credit(rid, finalized)]
  {}

  lemma FewSteps(n: nat, step: nat)
    requires n <= 28
    ensures n * step <= 28 * step
  {
    assert 28 * step == n * step + (28 - n) * step;
  }

  lemma ReachesOne(t: Timing, time: nat -> int, step: nat, b: nat, last: nat)
    requires Paced(t, time, step) && b <= last + 1 && last <= b + 28
    ensures time(last) <= time(b) + t.length + 1
  {
    if b <= last {
      Drift(time, step, b, last);
      FewSteps(last - b, step);
    } else {
      Drift(time, step, last, b);
    }
  }

  // Every block not flushed yet lies within a voting round and a second of the last one processed.
  lemma ReachesBack(t: Timing, time: nat -> int, step: nat, scanLo: nat, cursor: nat)
    requires Paced(t, time, step) && scanLo <= cursor < scanLo + CHUNK && cursor > 0
    ensures forall b: nat :: scanLo <= b <= cursor ==> time(cursor - 1) <= time(b) + t.length + 1
    ensures time(cursor - 1) <= time(cursor)
  {
    forall b: nat | scanLo <= b <= cursor
      ensures time(cursor - 1) <= time(b) + t.length + 1
    {
      hide Paced;
      ReachesOne(t, time, step, b, cursor - 1);
    }
    Drift(time, step, cursor - 1, cursor);
  }

  lemma NothingDueBy(t: Timing, now: int)
    ensures DueBy(t, [], now)
  {}

  lemma StillDueBy(t: Timing, emitted: seq<RoundState>, before: int, done: seq<RoundState>, pending: seq<int>,
                   ts: int, observeStart: int)
    requires DueBy(t, emitted, before) && before <= ts && IdsOf(done) == DueIds(t, pending, ts, observeStart)
    ensures DueBy(t, emitted + done, ts)
  {
    forall rs | rs in done
      ensures IsDue(t, rs.id, ts)
    {
      var k :| 0 <= k < |done| && done[k] == rs;
      assert IdsOf(done)[k] == rs.id;
      DueIsExact(t, pending, ts, observeStart, rs.id);
    }
  }

  // record, transaction by transaction.
  ghost function Transacted(rounds: map<int, RoundState>, txs: seq<Tx>, ts: int, t: Timing, submitter: string,
                            signer: string,
                            current: Option<int>): map<int, RoundState> {
    if txs == [] then rounds
    else
      var last := txs[|txs| - 1];
      Recorded(Transacted(rounds, txs[..|txs| - 1], ts, t, submitter, signer, current), last.submission,
               Lower(last.from) == submitter, Lower(last.from) == signer, ts, t, current)
  }

  // The rounds of the blocks that the map knows.
  ghost function Rounds(t: Timing, tsMap: map<nat, int>, blocks: seq<nat>): seq<int>
    requires t.length > 0
  {
    if blocks == [] then []
    else
      var last := blocks[|blocks| - 1];
      Rounds(t, tsMap, blocks[..|blocks| - 1]) + if last in tsMap then [RoundAt(t, tsMap[last])] else []
  }

  lemma RoundsStep(t: Timing, tsMap: map<nat, int>, blocks: seq<nat>, i: nat)
    requires t.length > 0 && i < |blocks|
    ensures Rounds(t, tsMap, blocks[..i + 1]) ==
            if blocks[i] in tsMap then Rounds(t, tsMap, blocks[..i]) + [RoundAt(t, tsMap[blocks[i]])]
            else Rounds(t, tsMap, blocks[..i])
  {
    assert blocks[..i + 1][..i] == blocks[..i];
  }

  // One more FDC request, or fast update, for each of these rounds in turn.
  ghost function Counted(rounds: map<int, RoundState>, rids: seq<int>, current: Option<int>,
                         fastUpdate: bool): map<int, RoundState> {
    if rids == [] then rounds
    else
      Touched(Counted(rounds, rids[..|rids| - 1], current, fastUpdate), rids[|rids| - 1], current,
              if fastUpdate then FastUpdated() else Requested())
  }

  lemma CountedStep(rounds: map<int, RoundState>, rids: seq<int>, rid: int, current: Option<int>, fastUpdate: bool)
    ensures Counted(rounds, rids + [rid], current, fastUpdate) ==
            Touched(Counted(rounds, rids, current, fastUpdate), rid, current,
                    if fastUpdate then FastUpdated() else Requested())
  {
    assert (rids + [rid])[..|rids|] == rids;
  }

  lemma NewCredit(t: Timing, credits: seq<Credit>, emitted: seq<RoundState>, rid: int, now: int)
    requires InTime(credits) && DueBy(t, emitted, now) && !IsDue(t, rid, now)
    ensures InTime(credits + [Credit(rid, IdsOf(emitted))])
  {
    forall i | 0 <= i < |emitted|
      ensures IdsOf(emitted)[i] != rid
    {
      assert emitted[i] in emitted;
    }
  }

  // --- Where the pace ends -----------------------------------------------------------------------------------

  // Block 1 comes in the last second of round 0, the others at a steady pace.
  function SteadyTime(t: Timing, step: nat): nat -> int {
    (b: nat) => StartOf(t, 1) - 1 - step + b * step
  }

  lemma SteadyRises(t: Timing, step: nat)
    ensures NeverFalls(SteadyTime(t, step))
    ensures forall b: nat :: SteadyTime(t, step)(b + 1) == SteadyTime(t, step)(b) + step
  {
    forall b: nat
      ensures SteadyTime(t, step)(b + 1) == SteadyTime(t, step)(b) + step
    {
      assert (b + 1) * step == b * step + step;
    }
  }

  lemma LastSecond(t: Timing, step: nat)
    requires t.length > 0 && 28 * step > t.length + 1
    ensures RoundAt(t, SteadyTime(t, step)(1)) == 0 && StartOf(t, 0) == t.first
    ensures IsDue(t, 0, SteadyTime(t, step)(29)) && !IsDue(t, 0, SteadyTime(t, step)(1))
  {
    var ts := StartOf(t, 1) - 1;
    assert SteadyTime(t, step)(1) == ts;
    assert StartOf(t, 0) == t.first && StartOf(t, 1) == t.first + t.length && StartOf(t, 2) == t.first + 2 * t.length;
    RoundSpan(t, ts);
    assert RoundAt(t, ts) == 0;
  }

  // The round is in flight, or finalized.
  ghost predicate Known(rounds: map<int, RoundState>, emitted: seq<RoundState>, rid: int) {
    rid in rounds || rid in IdsOf(emitted)
  }

  lemma StillKnown(t: Timing, before: map<int, RoundState>, after: map<int, RoundState>, now: int, observeStart: int,
                   emitted: seq<RoundState>, done: seq<RoundState>, rid: int)
    requires Known(before, emitted, rid) && StartOf(t, rid) >= observeStart
    requires Settled(t, before, after, now, observeStart, IdsOf(done))
    ensures Known(after, emitted + done, rid)
    ensures IsDue(t, rid, now) ==> rid in IdsOf(emitted + done)
  {
    assert IdsOf(emitted + done) == IdsOf(emitted) + IdsOf(done);
  }

  lemma FirstIsKnown(tx: Tx, ts: int, t: Timing, submitter: string, signer: string)
    requires tx.submission.fdcRound.None?
    ensures tx.submission.roundId in Transacted(map[], [tx], ts, t, submitter, signer, None)
  {
    assert [tx][..0] == [];
  }

  lemma NoTransaction(rounds: map<int, RoundState>, ts: int, t: Timing, submitter: string, signer: string,
                      current: Option<int>)
    ensures Transacted(rounds, [], ts, t, submitter, signer, current) == rounds
  {}

  // A run on that chain whose first chunk is not full yet: round 0 is in flight, or finalized, and nothing is counted.
  ghost predicate Underway(e: Engine, t: Timing, step: nat)
    reads e, e.state, e.ledger
  {
    && e.Valid() && e.state.timing == t && e.state.observeStart == t.first && e.time == SteadyTime(t, step)
    && e.start == e.scanLo == 1 && e.credits == [] && Known(e.state.rounds, e.state.emitted, 0)
  }

  method FirstBlock(t: Timing, step: nat, commitHash: CommitHash, score: RoundState -> seq<Score>) returns (e: Engine)
    requires t.length > 0 && RoundAt(t, SteadyTime(t, step)(1)) == 0 && StartOf(t, 0) == t.first
    requires !IsDue(t, 0, SteadyTime(t, step)(1))
    ensures fresh(e) && fresh(e.state) && fresh(e.ledger) && Underway(e, t, step) && e.cursor == 2
  {
    hide ObserverState.Valid, M.Ledger.Valid, InTime, Transacted, Settled, IsDue, SteadyTime, NoNewOffence, AllRounds,
      CreditsFor, IdsOf, Known, StartOf, RoundAt, Paced, NeverFalls, Tiles, Holds, DueBy;
    var state := new ObserverState(t, 40, t.first, "0x", "0x", commitHash, score);
    var ledger := new M.Ledger([], None);
    SteadyRises(t, step);
    e := new Engine(state, ledger, 1, SteadyTime(t, step), step);
    var tx := Tx(Submission(Submit1, 0, None, None, None, None), "0x");
    FirstIsKnown(tx, e.time(1), t, Lower("0x"), Lower("0x"));
    ghost var rounds := Transacted(map[], [tx], e.time(1), t, Lower("0x"), Lower("0x"), None);
    assert Known(rounds, [], 0) by { IsKnown(rounds, 0); }
    var done := e.ProcessBlock(SteadyTime(t, step)(1), [tx], Logs(None, None), true);
    StillKnown(t, rounds, e.state.rounds, SteadyTime(t, step)(1), t.first, [], done, 0);
  }

  lemma IsKnown(rounds: map<int, RoundState>, rid: int)
    requires rid in rounds
    ensures Known(rounds, [], rid)
  {}

  method QuietBlock(e: Engine, t: Timing, step: nat)
    requires Underway(e, t, step) && e.cursor < 30 && StartOf(t, 0) == t.first
    modifies e, e.state, e.ledger
    ensures Underway(e, t, step) && e.cursor == old(e.cursor) + 1
    ensures IsDue(t, 0, SteadyTime(t, step)(old(e.cursor))) ==> 0 in IdsOf(e.state.emitted)
  {
    hide ObserverState.Valid, M.Ledger.Valid, InTime, Transacted, Settled, IsDue, SteadyTime, NoNewOffence, AllRounds,
      CreditsFor, IdsOf, Known, StartOf, RoundAt, Paced, NeverFalls, Tiles, Holds, DueBy;
    ghost var rounds, emitted := e.state.rounds, e.state.emitted;
    var ts := SteadyTime(t, step)(e.cursor);
    NoTransaction(rounds, ts, t, Lower(e.state.ourSubmit), Lower(e.state.ourSig), e.state.CurrentRound());
    var done := e.ProcessBlock(ts, [], Logs(None, None), true);
    StillKnown(t, rounds, e.state.rounds, ts, t.first, emitted, done, 0);
  }

  // A request of the first block, read with the full chunk.
  method FullChunk(e: Engine, t: Timing, step: nat)
    requires Underway(e, t, step) && e.cursor == 30 && RoundAt(t, SteadyTime(t, step)(1)) == 0
    requires 0 in IdsOf(e.state.emitted)
    modifies e, e.state, e.ledger
    ensures e.Valid() && e.state.timing == t && e.time == SteadyTime(t, step) && e.start == 1 && e.cursor == 31
    ensures !InTime(e.credits)
  {
    hide ObserverState.Valid, M.Ledger.Valid, InTime, Transacted, Settled, IsDue, SteadyTime, NoNewOffence, AllRounds,
      CreditsFor, IdsOf, Known, StartOf, RoundAt, Paced, NeverFalls, Tiles, DueBy;
    ghost var tsMap, finalized := e.tsMap[30 := SteadyTime(t, step)(30)], IdsOf(e.state.emitted);
    var logs := Logs(Some([1]), None);
    assert tsMap[1] == SteadyTime(t, step)(1);
    OneRequest(t, tsMap, logs, finalized);
    hide Holds;
    var done := e.ProcessBlock(SteadyTime(t, step)(30), [], logs, true);
  }

  lemma OneRequest(t: Timing, tsMap: map<nat, int>, logs: Logs, finalized: seq<int>)
    requires t.length > 0 && logs == Logs(Some([1]), None) && 1 in tsMap && RoundAt(t, tsMap[1]) in finalized
    ensures !InTime([] + CreditsFor(AllRounds(t, tsMap, logs), finalized))
  {
    assert [1][..0] == [];
    var rid := RoundAt(t, tsMap[1]);
    assert AllRounds(t, tsMap, logs) == [rid];
    assert ([] + CreditsFor([rid], finalized))[0] == Credit(rid, finalized);
  }

  // With steps ever so slightly too long, 28 of them taking more than a round and a second, the loop counts a request
  // of the first block for a round that it has already finalized.
  method LateCredit(t: Timing, step: nat, commitHash: CommitHash, score: RoundState -> seq<Score>) returns (e: Engine)
    requires t.length > 0 && 28 * step > t.length + 1
    ensures e.Valid() && e.state.timing == t && e.time == SteadyTime(t, step) && e.start == 1 && e.cursor == 31
    ensures !InTime(e.credits)
  {
    hide Engine.Valid, InTime, IsDue, SteadyTime, IdsOf, Known, StartOf, RoundAt;
    LastSecond(t, step);
    e := FirstBlock(t, step, commitHash, score);
    while e.cursor < 30
      invariant fresh(e) && fresh(e.state) && fresh(e.ledger)
      invariant Underway(e, t, step) && 2 <= e.cursor <= 30 && (e.cursor == 30 ==> 0 in IdsOf(e.state.emitted))
      decreases 30 - e.cursor
    {
      QuietBlock(e, t, step);
    }
    FullChunk(e, t, step);
  }

  // --- A restart ---------------------------------------------------------------------------------------------

  // Whatever the run before it did, a restart leaves no block out exactly when the cap reaches back to the first block
  // that the run has not processed.
  lemma RestartLeavesNoHole(e: Engine, head: int, lookback: nat, maxBlocks: int)
    requires e.Valid() && e.lastBlock > 0
    ensures ResumeCursor(head, lookback, Some(e.lastBlock), maxBlocks) <= e.cursor <==>
            maxBlocks <= 0 || head - maxBlocks <= e.cursor
  {
    hide ObserverState.Valid, M.Ledger.Valid, InTime, Tiles, Holds, DueBy;
    ResumeLeavesNoHole(head, lookback, e.lastBlock, maxBlocks, e.cursor - 1);
  }

  // A run that could not read its first block left that block on record; a restart under a cap that reaches exactly to
  // the one behind it never processes it.
  method UnprocessedStartIsSkipped(state: ObserverState, ledger: M.Ledger, p: nat, lookback: nat, maxBlocks: nat,
                                   ghost time: nat -> int, ghost step: nat)
    returns (e: Engine, cursor: int)
    requires state.Valid() && ledger.Valid() && NeverFalls(time) && state.emitted == [] && state.lastTs == None
    requires p > 0 && maxBlocks > 0
    modifies state, ledger
    ensures e.Valid() && e.start == e.cursor == e.lastBlock == p
    ensures cursor == ResumeCursor(p + 1 + maxBlocks, lookback, Some(e.lastBlock), maxBlocks) == p + 1
  {
    hide ObserverState.Valid, M.Ledger.Valid, InTime, Tiles, Holds, DueBy, NeverFalls, Paced, NoNewOffence;
    e := new Engine(state, ledger, p, time, step);
    e.CatchUp(p, _ => Turn(Unavailable, Logs(None, None), false), Logs(None, None));
    cursor := ResumeCursor(p + 1 + maxBlocks, lookback, Some(e.lastBlock), maxBlocks);
  }
}
