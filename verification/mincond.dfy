// clif/observe/mincond.py and the ledger guard of clif/observe/engine.py: one record per finalized round, on an
// append-only log that is replayed on start.
module Mincond {
  import opened Ascending
  import opened Hex
  import O = ObserverStates
  import opened Sums

  const VRS_PER_REWARD_EPOCH: nat := 3360

  datatype RoundRecord = RoundRecord(
    rid: int, s1: nat, s2: nat, clean: nat, fdcExpected: nat, fdcOk: nat, fastUpdates: nat, offence: nat)

  // A line of the log: blank, unreadable, or a record.
  datatype Line = Blank | Corrupt | Entry(rec: RoundRecord)

  function EpochOf(rid: int): int {
    rid / VRS_PER_REWARD_EPOCH
  }

  // Which rounds are retained: all, or those of the epoch and the one before.
  datatype Retention = All | From(epoch: int)

  function Retain(rewardEpoch: Option<int>): Retention {
    if rewardEpoch.None? then All else From(rewardEpoch.value - 1)
  }

  predicate Keeps(k: Retention, rid: int) {
    k.All? || EpochOf(rid) >= k.epoch
  }

  predicate Tighter(k: Retention, l: Retention) {
    k.All? || (l.From? && k.epoch <= l.epoch)
  }

  // The stricter of two.
  function Stricter(k: Retention, l: Retention): Retention {
    if Tighter(k, l) then l else k
  }

  // An epoch's rounds are 3360 in a row; loading for an epoch keeps its rounds, those of the one before and later ones.
  lemma EpochExactly(rid: int, epoch: int)
    ensures EpochOf(rid) == epoch <==> 3360 * epoch <= rid < 3360 * (epoch + 1)
    ensures Keeps(Retain(None), rid) && (Keeps(Retain(Some(epoch)), rid) <==> rid >= 3360 * (epoch - 1))
  {}

  // A retention is tighter exactly if it keeps no round that the other drops, and the stricter of two keeps what both
  // do.
  lemma TighterExactly(k: Retention, l: Retention)
    ensures Tighter(k, l) <==> forall rid :: Keeps(l, rid) ==> Keeps(k, rid)
    ensures forall rid :: Keeps(Stricter(k, l), rid) <==> Keeps(k, rid) && Keeps(l, rid)
  {
    hide EpochOf;
    EpochsHaveRounds();
    if k.From? {
      assert !Keeps(k, 3360 * (k.epoch - 1));
      if l.From? && k.epoch > l.epoch { assert !Keeps(k, 3360 * l.epoch) && Keeps(l, 3360 * l.epoch); }
    }
  }

  lemma EpochsHaveRounds()
    ensures forall e :: EpochOf(3360 * e) == e
  {}

  // --- The log -----------------------------------------------------------------------------------------------

  function Loaded(log: seq<Line>, k: Retention): map<int, RoundRecord> {
    if log == [] then map[]
    else
      var before, last := Loaded(log[..|log| - 1], k), log[|log| - 1];
      if last.Entry? && Keeps(k, last.rec.rid) then before[last.rec.rid := last.rec] else before
  }

  // An unreadable file counts as empty.
  method LoadHistory(file: Option<seq<Line>>, rewardEpoch: Option<int>) returns (out: map<int, RoundRecord>)
    ensures out == Loaded(if file.Some? then file.value else [], Retain(rewardEpoch))
  {
    out := map[];
    if file.None? { return; }
    var lines := file.value;
    for i := 0 to |lines|
      invariant out == Loaded(lines[..i], Retain(rewardEpoch))
    {
      assert lines[..i + 1][..i] == lines[..i];
      var ln := lines[i];
      if ln.Entry? && Keeps(Retain(rewardEpoch), ln.rec.rid) { out := out[ln.rec.rid := ln.rec]; }
    }
    assert lines[..|lines|] == lines;
  }

  // A round is loaded once, from the last line that records it.
  lemma {:induction false} LastLineWins(log: seq<Line>, k: Retention, rid: int)
    ensures rid in Loaded(log, k) <==>
              Keeps(k, rid) && exists i :: 0 <= i < |log| && log[i].Entry? && log[i].rec.rid == rid
    ensures rid in Loaded(log, k) ==>
              exists i :: 0 <= i < |log| && log[i] == Entry(Loaded(log, k)[rid]) && log[i].rec.rid == rid &&
                          forall j :: i < j < |log| && log[j].Entry? ==> log[j].rec.rid != rid
  {
    if log != [] {
      var init, last := log[..|log| - 1], log[|log| - 1];
      LastLineWins(init, k, rid);
      if last.Entry? && last.rec.rid == rid {
        assert log[|log| - 1] == last;
      } else if rid in Loaded(init, k) {
        var i :| 0 <= i < |init| && init[i] == Entry(Loaded(init, k)[rid]) && init[i].rec.rid == rid &&
                 forall j :: i < j < |init| && init[j].Entry? ==> init[j].rec.rid != rid;
        assert log[i] == init[i];
      }
    }
  }

  // Loading less is loading everything and dropping the rest.
  lemma {:induction false} LoadedIsFiltered(log: seq<Line>, k: Retention, l: Retention)
    requires Tighter(k, l)
    ensures Loaded(log, l) == map rid | rid in Loaded(log, k) && Keeps(l, rid) :: Loaded(log, k)[rid]
  {
    if log != [] { LoadedIsFiltered(log[..|log| - 1], k, l); }
  }

  // The log that pruning writes.
  function Rewritten(kept: map<int, RoundRecord>): seq<Line> {
    Listed(Sorted(kept.Keys), kept)
  }

  function Listed(ids: seq<int>, kept: map<int, RoundRecord>): seq<Line>
    requires forall i :: 0 <= i < |ids| ==> ids[i] in kept
  {
    seq(|ids|, i requires 0 <= i < |ids| => Entry(kept[ids[i]]))
  }

  lemma {:induction false} ListedLoads(ids: seq<int>, kept: map<int, RoundRecord>, k: Retention)
    requires forall i :: 0 <= i < |ids| ==> ids[i] in kept
    requires forall rid :: rid in kept ==> kept[rid].rid == rid && Keeps(k, rid)
    ensures Loaded(Listed(ids, kept), k).Keys == set rid | rid in ids
    ensures forall rid :: rid in ids ==> Loaded(Listed(ids, kept), k)[rid] == kept[rid]
  {
    var log := Listed(ids, kept);
    if ids != [] {
      var init, last := ids[..|ids| - 1], ids[|ids| - 1];
      assert log[..|log| - 1] == Listed(init, kept);
      ListedLoads(init, kept, k);
      assert ids == init + [last];
      assert log[|log| - 1] == Entry(kept[last]);
    }
  }

  lemma RewrittenLoads(kept: map<int, RoundRecord>, k: Retention)
    requires forall rid :: rid in kept ==> kept[rid].rid == rid && Keeps(k, rid)
    ensures Loaded(Rewritten(kept), k) == kept
  {
    var r := Loaded(Rewritten(kept), k);
    ListedLoads(Sorted(kept.Keys), kept, k);
    assert r.Keys == kept.Keys;
    forall rid | rid in kept
      ensures r[rid] == kept[rid]
    {
      assert rid in Sorted(kept.Keys);
    }
  }

  // Pruning for an epoch and then loading for it, or for a later one, is loading.
  lemma PruneThenLoad(log: seq<Line>, k: Retention, l: Retention)
    requires Tighter(k, l)
    ensures Loaded(Rewritten(Loaded(log, k)), l) == Loaded(log, l)
  {
    var kept := Loaded(log, k);
    forall rid | rid in kept
      ensures kept[rid].rid == rid && Keeps(k, rid)
    {
      LastLineWins(log, k, rid);
    }
    RewrittenLoads(kept, k);
    LoadedIsFiltered(Rewritten(kept), k, l);
    LoadedIsFiltered(log, k, l);
  }

  // --- The ledger --------------------------------------------------------------------------------------------

  function Bit(b: bool): nat {
    if b then 1 else 0
  }

  function FromRound(rs: O.RoundState): RoundRecord {
    RoundRecord(rs.id, Bit(rs.submit1Seen), Bit(rs.submit2Seen), Bit(O.Clean(rs)), Bit(O.FdcExpected(rs)),
                Bit(O.Participated(rs)), rs.fuCount, Bit(rs.offence))
  }

  // Replaying the log gives the records back, but for those whose line was lost.
  ghost predicate Replays(recs: map<int, RoundRecord>, log: seq<Line>, kept: Retention, lost: set<int>) {
    && (forall rid :: rid in recs ==> recs[rid].rid == rid)
    && (forall rid :: rid in recs && rid !in lost ==> rid in Loaded(log, All) && Loaded(log, All)[rid] == recs[rid])
    && (forall rid :: rid in Loaded(log, All) && Keeps(kept, rid) ==> rid in recs && rid !in lost)
  }

  lemma LoadReplays(log: seq<Line>, k: Retention)
    ensures Replays(Loaded(log, k), log, k, {})
  {
    LoadedIsFiltered(log, All, k);
    forall rid | rid in Loaded(log, k)
      ensures Loaded(log, k)[rid].rid == rid
    {
      LastLineWins(log, k, rid);
    }
  }

  lemma WrittenReplays(recs: map<int, RoundRecord>, log: seq<Line>, kept: Retention, lost: set<int>, rec: RoundRecord)
    requires Replays(recs, log, kept, lost) && rec.rid !in recs
    ensures Replays(recs[rec.rid := rec], log + [Entry(rec)], kept, lost - {rec.rid})
  {
    assert (log + [Entry(rec)])[..|log|] == log;
    assert Loaded(log + [Entry(rec)], All) == Loaded(log, All)[rec.rid := rec];
  }

  lemma LostReplays(recs: map<int, RoundRecord>, log: seq<Line>, kept: Retention, lost: set<int>, rec: RoundRecord)
    requires Replays(recs, log, kept, lost) && rec.rid !in recs
    ensures Replays(recs[rec.rid := rec], log, kept, lost + {rec.rid})
  {}

  lemma PrunedReplays(recs: map<int, RoundRecord>, log: seq<Line>, kept: Retention, lost: set<int>, k: Retention,
                      written: bool)
    requires Replays(recs, log, kept, lost)
    ensures Replays(map rid | rid in recs && Keeps(k, rid) :: recs[rid],
                    if written then Rewritten(Loaded(log, k)) else log, Stricter(kept, k), lost)
  {
    hide EpochOf, Rewritten;
    if written {
      LoadedIsFiltered(log, All, k);
      forall rid | rid in Loaded(log, k)
        ensures Loaded(log, k)[rid].rid == rid && Keeps(k, rid)
      {
        LastLineWins(log, k, rid);
      }
      RewrittenLoads(Loaded(log, k), All);
    }
  }

  // A restart at an epoch that nothing kept has been pruned for yields exactly what the running ledger holds for it.
  lemma RestartAgrees(recs: map<int, RoundRecord>, log: seq<Line>, kept: Retention, l: Retention)
    requires Replays(recs, log, kept, {}) && Tighter(kept, l)
    ensures Loaded(log, l) == map rid | rid in recs && Keeps(l, rid) :: recs[rid]
  {
    LoadedIsFiltered(log, All, l);
  }

  lemma SameId(rs: O.RoundState)
    ensures FromRound(rs).rid == rs.id && FromRound(rs).offence == Bit(rs.offence)
  {}

  class Ledger {
    var recs: map<int, RoundRecord>
    var log: seq<Line>
    var epoch: Option<int>
    // What the last load or prune kept, and the rounds whose line could not be written.
    ghost var kept: Retention
    ghost var lost: set<int>

    ghost predicate Valid()
      reads this
    {
      Replays(recs, log, kept, lost)
    }

    // A start: the log is replayed.
    constructor (file: seq<Line>, rewardEpoch: Option<int>)
      ensures Valid() && log == file && recs == Loaded(file, Retain(rewardEpoch)) && epoch == rewardEpoch
      ensures kept == Retain(rewardEpoch) && lost == {}
    {
      log, epoch, kept, lost := file, rewardEpoch, Retain(rewardEpoch), {};
      recs := map[];
      new;
      recs := LoadHistory(Some(file), rewardEpoch);
      LoadReplays(file, Retain(rewardEpoch));
    }

    // A finalized round is recorded unless it is already there; a backfilled one without its offence flag.
    // rolled: the epoch that this round closes, if it opens a later one.
    method Record(rs: O.RoundState, catchingUp: bool, written: bool) returns (added: bool, rolled: Option<int>)
      requires Valid()
      modifies this
      ensures Valid() && kept == old(kept)
      ensures added <==> rs.id !in old(recs)
      ensures recs == if added
                      then old(recs)[rs.id := FromRound(rs).(offence := if catchingUp then 0 else Bit(rs.offence))]
                      else old(recs)
      ensures log == if added && written then old(log) + [Entry(recs[rs.id])] else old(log)
      ensures lost == if added && !written then old(lost) + {rs.id} else old(lost) - (if added then {rs.id} else {})
      ensures epoch == if added && (old(epoch).None? || EpochOf(rs.id) > old(epoch).value) then Some(EpochOf(rs.id))
                       else old(epoch)
      ensures rolled == if added && old(epoch).Some? && EpochOf(rs.id) > old(epoch).value then old(epoch) else None
    {
      hide Replays, Loaded, FromRound, EpochOf;
      added, rolled := rs.id !in recs, None;
      if added {
        var re := EpochOf(rs.id);
        if epoch.None? || re > epoch.value {
          rolled := epoch;
          epoch := Some(re);
        }
        var rec := FromRound(rs);
        SameId(rs);
        if catchingUp { rec := rec.(offence := 0); }
        recs := recs[rs.id := rec];
        if written {
          WrittenReplays(old(recs), log, kept, lost, rec);
          log, lost := log + [Entry(rec)], lost - {rs.id};
        } else {
          LostReplays(old(recs), log, kept, lost, rec);
          lost := lost + {rs.id};
        }
      }
    }

    // The hourly pruning, in memory and on disk, for whatever epoch was read last; a failed write leaves the file as it
    // was.
    method Prune(rewardEpoch: int, written: bool)
      requires Valid()
      modifies this
      ensures Valid() && kept == Stricter(old(kept), From(rewardEpoch - 1)) && epoch == old(epoch) && lost == old(lost)
      ensures recs == map rid | rid in old(recs) && Keeps(From(rewardEpoch - 1), rid) :: old(recs[rid])
      ensures forall l :: Tighter(From(rewardEpoch - 1), l) ==> Loaded(log, l) == Loaded(old(log), l)
    {
      hide Replays, Loaded, Rewritten, Keeps, EpochOf;
      ghost var k := From(rewardEpoch - 1);
      PrunedReplays(recs, log, kept, lost, k, written);
      recs := map rid | rid in recs && Keeps(From(rewardEpoch - 1), rid) :: recs[rid];
      if written {
        var history := LoadHistory(Some(log), Some(rewardEpoch));
        forall l | Tighter(k, l)
          ensures Loaded(Rewritten(history), l) == Loaded(log, l)
        {
          PruneThenLoad(log, k, l);
        }
        log := Rewritten(history);
      }
      kept := Stricter(kept, k);
    }
  }

  // --- Gaps --------------------------------------------------------------------------------------------------

  datatype Range = Range(lo: int, hi: int)

  // The holes between consecutive recorded rounds.
  function Gaps(rids: seq<int>): seq<Range> {
    if |rids| < 2 then []
    else
      var n := |rids| - 1;
      Gaps(rids[..n]) + if rids[n] > rids[n - 1] + 1 then [Range(rids[n - 1] + 1, rids[n] - 1)] else []
  }

  predicate Inside(r: int, ranges: seq<Range>) {
    exists i :: 0 <= i < |ranges| && ranges[i].lo <= r <= ranges[i].hi
  }

  ghost function Length(ranges: seq<Range>): int {
    if ranges == [] then 0 else Length(ranges[..|ranges| - 1]) + ranges[|ranges| - 1].hi - ranges[|ranges| - 1].lo + 1
  }

  lemma {:induction false} GapBounds(rids: seq<int>, g: int)
    requires Increasing(rids) && 0 <= g < |Gaps(rids)|
    ensures Gaps(rids)[g].lo <= Gaps(rids)[g].hi
    ensures Gaps(rids)[g].lo - 1 in rids && Gaps(rids)[g].hi + 1 in rids
    ensures rids[0] < Gaps(rids)[g].lo && Gaps(rids)[g].hi < rids[|rids| - 1]
  {
    var n := |rids| - 1;
    if g < |Gaps(rids[..n])| {
      GapBounds(rids[..n], g);
    } else {
      assert rids[n - 1] in rids && rids[n] in rids;
    }
  }

  // Between the first and the last recorded round, a round is recorded or in a gap, never both.
  lemma {:induction false} GapsPartition(rids: seq<int>, r: int)
    requires rids != [] && Increasing(rids) && rids[0] <= r <= rids[|rids| - 1]
    ensures Inside(r, Gaps(rids)) <==> r !in rids
  {
    var n := |rids| - 1;
    if n > 0 {
      var init, more := rids[..n], Gaps(rids)[|Gaps(rids[..n])|..];
      assert Gaps(rids) == Gaps(init) + more;
      if r <= rids[n - 1] {
        GapsPartition(init, r);
        assert r in rids <==> r in init;
        NotBelow(rids, r);
      } else {
        AtTheEnd(rids, r);
      }
    }
  }

  lemma AtTheEnd(rids: seq<int>, r: int)
    requires |rids| > 1 && Increasing(rids) && rids[|rids| - 2] < r <= rids[|rids| - 1]
    ensures Inside(r, Gaps(rids)) <==> r !in rids
  {
    var n := |rids| - 1;
    var init := rids[..n];
    forall x | x in init
      ensures x < r
    {}
    assert r in rids <==> r == rids[n];
    if r < rids[n] {
      assert Gaps(rids)[|Gaps(init)|] == Range(rids[n - 1] + 1, rids[n] - 1);
    } else {
      forall i | 0 <= i < |Gaps(rids)|
        ensures Gaps(rids)[i].hi < r
      {
        GapBounds(rids, i);
      }
    }
  }

  lemma NotBelow(rids: seq<int>, r: int)
    requires |rids| > 1 && Increasing(rids) && r <= rids[|rids| - 2]
    ensures Inside(r, Gaps(rids)) <==> Inside(r, Gaps(rids[..|rids| - 1]))
  {
    var init := rids[..|rids| - 1];
    if i :| 0 <= i < |Gaps(init)| && Gaps(init)[i].lo <= r <= Gaps(init)[i].hi {
      assert Gaps(rids)[i] == Gaps(init)[i];
    }
    if i :| 0 <= i < |Gaps(rids)| && Gaps(rids)[i].lo <= r <= Gaps(rids)[i].hi {
      assert i < |Gaps(init)| && Gaps(rids)[i] == Gaps(init)[i];
    }
  }

  // Gaps come in order, and no two touch.
  lemma {:induction false} GapsAscend(rids: seq<int>, g: int, h: int)
    requires Increasing(rids) && 0 <= g < h < |Gaps(rids)|
    ensures Gaps(rids)[g].hi + 1 < Gaps(rids)[h].lo
  {
    var n := |rids| - 1;
    var init := rids[..n];
    if h < |Gaps(init)| {
      GapsAscend(init, g, h);
    } else {
      GapBounds(init, g);
    }
  }

  lemma {:induction false} GapLengths(rids: seq<int>)
    requires rids != [] && Increasing(rids)
    ensures Length(Gaps(rids)) == rids[|rids| - 1] - rids[0] + 1 - |rids|
  {
    var n := |rids| - 1;
    if n > 0 {
      var init := rids[..n];
      GapLengths(init);
      if rids[n] > rids[n - 1] + 1 {
        assert Gaps(rids)[..|Gaps(rids)| - 1] == Gaps(init);
      } else {
        assert Gaps(rids) == Gaps(init);
      }
    }
  }

  function InEpoch(recs: map<int, RoundRecord>, epoch: int): set<int> {
    set rid | rid in recs && EpochOf(rid) == epoch
  }

  method EpochGapRanges(recs: map<int, RoundRecord>, epoch: int, limit: nat) returns (shown: seq<Range>, total: nat)
    ensures total == |Gaps(Sorted(InEpoch(recs, epoch)))|
    ensures shown == Gaps(Sorted(InEpoch(recs, epoch)))[..if limit < total then limit else total]
  {
    var rids := Sorted(InEpoch(recs, epoch));
    var ranges := [];
    var i := 1;
    while i < |rids|
      invariant 1 <= i && (i <= |rids| || |rids| == 0)
      invariant if |rids| > 0 then ranges == Gaps(rids[..i]) else ranges == []
    {
      assert rids[..i + 1][..i] == rids[..i];
      if rids[i] > rids[i - 1] + 1 { ranges := ranges + [Range(rids[i - 1] + 1, rids[i] - 1)]; }
      i := i + 1;
    }
    assert |rids| > 0 ==> rids[..i] == rids;
    total := |ranges|;
    shown := ranges[..if limit < total then limit else total];
  }

  // --- Totals ------------------------------------------------------------------------------------------------

  const REVEAL_OFFENCE_PENALTY_ROUNDS: nat := 30

  datatype Column = FdcExpected | FdcOk | Revealed | CleanRounds | FastUpdates | RevealOffences

  // What a record contributes to a column; an offence is a commit that was seen without its reveal.
  function Cell(c: Column, rec: RoundRecord): nat {
    match c
    case FdcExpected => rec.fdcExpected
    case FdcOk => rec.fdcOk
    case Revealed => rec.s2
    case CleanRounds => rec.clean
    case FastUpdates => rec.fastUpdates
    case RevealOffences => Bit(rec.s1 != 0 && rec.s2 == 0)
  }

  function Cells(recs: map<int, RoundRecord>, c: Column): int -> nat {
    rid => if rid in recs then Cell(c, recs[rid]) else 0
  }

  datatype Tally = Tally(
    n: nat, totals: map<Column, nat>, first: Option<int>, last: Option<int>, span: int, missing: int,
    penaltyRounds: nat)

  const COLUMNS := {FdcExpected, FdcOk, Revealed, CleanRounds, FastUpdates, RevealOffences}

  function AddRow(totals: map<Column, nat>, rec: RoundRecord): map<Column, nat> {
    map c | c in totals :: totals[c] + Cell(c, rec)
  }

  // The totals of everything but the rest.
  ghost predicate Partial(recs: map<int, RoundRecord>, all: set<int>, rest: set<int>, totals: map<Column, nat>) {
    totals.Keys == COLUMNS &&
    forall c :: c in totals ==> totals[c] + Sum(rest, Cells(recs, c)) == Sum(all, Cells(recs, c))
  }

  lemma EpochIsRecorded(recs: map<int, RoundRecord>, epoch: int)
    ensures InEpoch(recs, epoch) <= recs.Keys
  {}

  lemma NothingAdded(recs: map<int, RoundRecord>, all: set<int>)
    ensures Partial(recs, all, all, map c | c in COLUMNS :: 0)
  {}

  lemma RowAdded(recs: map<int, RoundRecord>, all: set<int>, rest: set<int>, r: int, totals: map<Column, nat>)
    requires Partial(recs, all, rest, totals) && r in rest && r in recs
    ensures Partial(recs, all, rest - {r}, AddRow(totals, recs[r]))
  {
    forall c | c in totals
      ensures AddRow(totals, recs[r])[c] + Sum(rest - {r}, Cells(recs, c)) == Sum(all, Cells(recs, c))
    {
      SumRemove(rest, r, Cells(recs, c));
    }
  }

  // The least and the greatest round, if there is one.
  ghost predicate Bounds(rids: set<int>, first: Option<int>, last: Option<int>) {
    if rids == {} then first.None? && last.None?
    else first.Some? && last.Some? && first.value in rids && last.value in rids &&
         forall r :: r in rids ==> first.value <= r <= last.value
  }

  lemma NoBounds()
    ensures Bounds({}, None, None)
  {}

  lemma Stretched(rids: set<int>, r: int, first: Option<int>, last: Option<int>)
    requires Bounds(rids, first, last)
    ensures Bounds(rids + {r}, if first.None? || r < first.value then Some(r) else first,
                   if last.None? || r > last.value then Some(r) else last)
  {}

  lemma Ends(rids: set<int>, first: Option<int>, last: Option<int>)
    requires Bounds(rids, first, last)
    ensures (first.None? <==> |rids| == 0) && (last.None? <==> |rids| == 0)
  {}

  lemma AllAdded(recs: map<int, RoundRecord>, all: set<int>, totals: map<Column, nat>)
    requires Partial(recs, all, {}, totals)
    ensures totals.Keys == COLUMNS && forall c :: c in COLUMNS ==> totals[c] == Sum(all, Cells(recs, c))
  {}

  lemma PenaltyExactly(offences: nat)
    ensures (if offences * REVEAL_OFFENCE_PENALTY_ROUNDS < VRS_PER_REWARD_EPOCH
             then offences * REVEAL_OFFENCE_PENALTY_ROUNDS else VRS_PER_REWARD_EPOCH)
            == if offences <= 112 then 30 * offences else 3360
  {}

  // One pass over the records of the epoch, in any order.
  method EpochTally(recs: map<int, RoundRecord>, epoch: int) returns (t: Tally)
    ensures t.n == |InEpoch(recs, epoch)| && t.totals.Keys == COLUMNS
    ensures forall c :: c in COLUMNS ==> t.totals[c] == Sum(InEpoch(recs, epoch), Cells(recs, c))
    ensures Bounds(InEpoch(recs, epoch), t.first, t.last)
    ensures t.span == if t.first.None? then 0 else t.last.value - t.first.value + 1
    ensures t.missing == if t.span - t.n > 0 then t.span - t.n else 0
    // Thirty rounds for each offence, up to the whole epoch.
    ensures t.penaltyRounds == if t.totals[RevealOffences] <= 112 then 30 * t.totals[RevealOffences] else 3360
  {
    hide InEpoch, Cell, Cells, Partial, AddRow, Bounds, EpochOf, REVEAL_OFFENCE_PENALTY_ROUNDS, VRS_PER_REWARD_EPOCH;
    var all := InEpoch(recs, epoch);
    assert all <= recs.Keys by { EpochIsRecorded(recs, epoch); }
    var rest, n, first, last := all, 0, None, None;
    var totals := map c | c in COLUMNS :: 0;
    NothingAdded(recs, all);
    ghost var seen: set<int> := {};
    assert Bounds(seen, first, last) by { NoBounds(); }
    while rest != {}
      invariant seen + rest == all && n + |rest| == |all|
      invariant Partial(recs, all, rest, totals) && Bounds(seen, first, last)
      decreases |rest|
    {
      ghost var some := Member(rest);
      var r :| r in rest;
      RowAdded(recs, all, rest, r, totals);
      Stretched(seen, r, first, last);
      n, rest, seen, totals := n + 1, rest - {r}, seen + {r}, AddRow(totals, recs[r]);
      if first.None? || r < first.value { first := Some(r); }
      if last.None? || r > last.value { last := Some(r); }
    }
    AllAdded(recs, all, totals);
    Ends(all, first, last);
    var span := if n > 0 then last.value - first.value + 1 else 0;
    PenaltyExactly(totals[RevealOffences]);
    var penalty := totals[RevealOffences] * REVEAL_OFFENCE_PENALTY_ROUNDS;
    t := Tally(n, totals, first, last, span, if span - n > 0 then span - n else 0,
               if penalty < VRS_PER_REWARD_EPOCH then penalty else VRS_PER_REWARD_EPOCH);
  }

  // What is recorded, and so counted, of a judged round, by its issues and what was seen of it: an offence counted is
  // a reveal found missing after its commit, participation is what was expected and not missed, and a clean round has
  // no FTSO issue.
  lemma CellsOfJudgedRound(commitHash: O.CommitHash, rs: O.RoundState)
    requires O.InFlight(rs)
    ensures var r := O.Judgement(commitHash, rs); var rec := FromRound(r);
            && (forall c: Column :: c == FastUpdates || Cell(c, rec) <= 1)
            && (Cell(RevealOffences, rec) == 1 <==> O.RevealMissing in r.issues)
            && (Cell(Revealed, rec) == 1 <==> O.RevealMissing !in r.issues && O.NoReveal !in r.issues)
            && (Cell(FdcExpected, rec) == 1 <==> rs.fdcRequests > 0)
            && (Cell(FdcOk, rec) == 1 <==> rs.fdcRequests > 0 && O.NoBitvote !in r.issues)
            && (Cell(CleanRounds, rec) == 1 <==> forall i :: i in r.issues ==> i == O.NoBitvote)
            && Cell(FastUpdates, rec) == rs.fuCount
            && rec.rid == rs.id && (rec.s1 == if O.NoCommit in r.issues then 0 else 1)
            && rec.offence == if O.RevealMissing in r.issues || O.Mismatch in r.issues then 1 else 0
  {
    var r := O.Judgement(commitHash, rs);
    assert r.fuCount == rs.fuCount && r.id == rs.id;
    hide O.Judgement;
    O.VerdictIsJudged(commitHash, rs);
    O.CountedExactly(commitHash, rs);
    CellsOfRound(r);
    hide FromRound, Cell;
  }

  lemma CellsOfRound(r: O.RoundState)
    ensures var rec := FromRound(r);
            && rec.rid == r.id && rec.s1 == Bit(!O.NoCommitSeen(r)) && rec.offence == Bit(O.Offending(r))
            && Cell(RevealOffences, rec) == Bit(O.MissedReveal(r)) && Cell(Revealed, rec) == Bit(r.submit2Seen)
            && Cell(FdcExpected, rec) == Bit(O.FdcExpected(r)) && Cell(FdcOk, rec) == Bit(O.Participated(r))
            && Cell(CleanRounds, rec) == Bit(O.Clean(r)) && Cell(FastUpdates, rec) == r.fuCount
  {
    hide O.Clean, O.FdcExpected, O.Participated;
  }

  // The rounds of an epoch are those recorded under the 3360 ids that are its own.
  lemma InEpochExactly(recs: map<int, RoundRecord>, epoch: int, rid: int)
    ensures rid in InEpoch(recs, epoch) <==> rid in recs && 3360 * epoch <= rid < 3360 * (epoch + 1)
  {}

  // The rounds missing from the observed span are exactly those in its gaps.
  lemma MissingIsInGaps(rids: set<int>, first: int, last: int)
    requires first in rids && last in rids && forall r :: r in rids ==> first <= r <= last
    ensures last - first + 1 - |rids| == Length(Gaps(Sorted(rids))) >= 0
    ensures forall r :: first <= r <= last ==> (Inside(r, Gaps(Sorted(rids))) <==> r !in rids)
  {
    var ids := Sorted(rids);
    SortedIncreases(rids);
    assert ids[0] in ids && ids[|ids| - 1] in ids;
    assert first in ids && last in ids;
    GapLengths(ids);
    LengthIsNatural(ids);
    forall r | first <= r <= last
      ensures Inside(r, Gaps(ids)) <==> r !in rids
    {
      GapsPartition(ids, r);
    }
  }

  lemma {:induction false} LengthIsNatural(rids: seq<int>)
    requires Increasing(rids)
    ensures Length(Gaps(rids)) >= 0
  {
    if |rids| >= 2 {
      var init := rids[..|rids| - 1];
      LengthIsNatural(init);
      if rids[|rids| - 1] > rids[|rids| - 2] + 1 {
        assert Gaps(rids)[..|Gaps(rids)| - 1] == Gaps(init);
      } else {
        assert Gaps(rids) == Gaps(init);
      }
    }
  }
}
