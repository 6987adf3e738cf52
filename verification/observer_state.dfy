// clif/observe/state.py: the rounds in flight, the rounds finalized, and the bounded histories behind the reports.
module ObserverStates {
  import opened Ascending
  import opened Hex

  const FUTURE_ROUND_MARGIN := 4
  const ROUNDS_CAP: nat := 512
  const HISTORY_CAP: nat := 3600
  const FAST_UPDATES_CAP: nat := 4000

  // Voting rounds start at a fixed pace; a reveal is due by an offset into the next round.
  datatype Timing = Timing(first: int, length: nat, revealOffset: int)

  function StartOf(t: Timing, rid: int): int {
    t.first + rid * t.length
  }

  function RoundAt(t: Timing, ts: int): int
    requires t.length > 0
  {
    (ts - t.first) / t.length
  }

  // The round after it has fully ended.
  predicate IsDue(t: Timing, rid: int, now: int) {
    StartOf(t, rid + 2) < now
  }

  // A time lies in exactly one round, and a round is due once the moment before is past its successor.
  lemma {:induction false} ClockExactly(t: Timing, rid: int, ts: int)
    requires t.length > 0
    ensures RoundAt(t, ts) == rid <==> t.first + rid * t.length <= ts < t.first + rid * t.length + t.length
    ensures IsDue(t, rid, ts) <==> RoundAt(t, ts - 1) > rid + 1
  {
    RoundAtExactly(t, rid, ts);
    var q := RoundAt(t, ts - 1);
    RoundAtExactly(t, q, ts - 1);
    hide RoundAt, StartOf;
    LaterStart(t, q, q + 1);
    if q > rid + 1 { LaterStart(t, rid + 2, q); } else { LaterStart(t, q + 1, rid + 2); }
  }

  lemma RoundAtExactly(t: Timing, rid: int, ts: int)
    requires t.length > 0
    ensures RoundAt(t, ts) == rid <==> StartOf(t, rid) <= ts < StartOf(t, rid) + t.length
    ensures StartOf(t, rid) == t.first + rid * t.length
  {
    QuotientExactly(ts - t.first, t.length, rid);
  }

  lemma QuotientExactly(a: int, n: nat, q: int)
    requires n > 0
    ensures a / n == q <==> q * n <= a < q * n + n
  {
    var d := a / n - q;
    assert (a / n) * n == q * n + d * n;
    if d > 0 { assert d * n >= n; }
    if d < 0 { assert d * n + n <= 0; }
  }

  lemma LaterStart(t: Timing, i: int, j: int)
    requires i <= j
    ensures StartOf(t, i) <= StartOf(t, j)
    ensures StartOf(t, i + 1) == StartOf(t, i) + t.length
  {
    assert (j - i) * t.length >= 0;
    assert (i + 1) * t.length == i * t.length + t.length;
  }

  // --- Bounded deques ----------------------------------------------------------------------------------------

  function LastOf<T>(s: seq<T>, n: nat): seq<T> {
    if |s| <= n then s else s[|s| - n..]
  }

  // deque.append with a maxlen.
  function Pushed<T>(s: seq<T>, x: T, maxlen: nat): seq<T> {
    LastOf(s + [x], maxlen)
  }

  lemma {:induction false} PushedIsLast<T>(all: seq<T>, x: T, n: nat)
    ensures Pushed(LastOf(all, n), x, n) == LastOf(all + [x], n)
  {}

  // The longest suffix of at most n elements, whatever the type.
  lemma LastOfExactly<T>(s: seq<T>, n: nat)
    ensures |LastOf(s, n)| == (if |s| < n then |s| else n)
    ensures s == s[..|s| - |LastOf(s, n)|] + LastOf(s, n)
  {}

  // How much is held: 3600 tallies and 4000 fast updates.
  lemma CapsExactly<T>(s: seq<T>, x: T)
    ensures |s| < 3600 ==> Pushed(s, x, HISTORY_CAP) == s + [x]
    ensures |s| == 3600 ==> Pushed(s, x, HISTORY_CAP) == s[1..] + [x]
    ensures |s| < 4000 ==> Pushed(s, x, FAST_UPDATES_CAP) == s + [x]
    ensures |s| == 4000 ==> Pushed(s, x, FAST_UPDATES_CAP) == s[1..] + [x]
  {}

  // --- Rounds ------------------------------------------------------------------------------------------------

  datatype Issue = NoCommit | CommitOffWindow | RevealMissing | NoReveal | RevealOffWindow | Mismatch | NoBitvote

  // How AP's value of one feed stood to the band of all voters.
  datatype Score = Score(inside: bool, boundary: bool, pctHit: bool, capped: bool)

  datatype Tally = Tally(rid: int, ts: int, feeds: nat, inside: nat, boundary: nat, pct: nat, capped: nat)

  datatype RoundState = RoundState(
    id: int, submit1Seen: bool, submit1Ontime: bool, commit: Option<string>,
    submit2Seen: bool, submit2Ontime: bool, random: Option<int>, feeds: Option<string>, sigSeen: bool,
    fdcRequests: nat, bitvoteSeen: bool, fdcSigSeen: bool, fuCount: nat,
    fdcGap: bool, offence: bool, issues: seq<Issue>, scores: seq<Score>, tally: Option<Tally>)

  function Opened(id: int): RoundState {
    RoundState(id, false, false, None, false, false, None, None, false, 0, false, false, 0, false, false, [], [], None)
  }

  predicate FdcExpected(rs: RoundState) {
    rs.fdcRequests > 0
  }

  predicate Clean(rs: RoundState) {
    rs.submit1Seen && rs.submit1Ontime && rs.submit2Seen && rs.submit2Ontime && !rs.offence
  }

  // No verdict yet.
  predicate InFlight(rs: RoundState) {
    rs.issues == [] && !rs.offence && !rs.fdcGap && rs.tally.None?
  }

  // The hash that a commit must equal: of the round, the random number and the feed values.
  type CommitHash = (int, int, string) -> string

  // The checks on the commit and on the reveal of a round whose windows have closed.
  method JudgeSubmissions(rs: RoundState) returns (issues: seq<Issue>, offence: bool)
    ensures issues == CommitComplaints(rs) + RevealComplaints(rs)
    ensures offence <==> rs.submit1Seen && !rs.submit2Seen
  {
    issues, offence := [], false;
    if !rs.submit1Seen {
      issues := issues + [NoCommit];
    } else if !rs.submit1Ontime {
      issues := issues + [CommitOffWindow];
    }
    if !rs.submit2Seen {
      if rs.submit1Seen {
        offence, issues := true, issues + [RevealMissing];
      } else {
        issues := issues + [NoReveal];
      }
    } else if !rs.submit2Ontime {
      issues := issues + [RevealOffWindow];
    }
  }

  // All FTSO and FDC checks.
  method Judge(commitHash: CommitHash, rs: RoundState) returns (r: RoundState)
    requires InFlight(rs)
    ensures r == Judgement(commitHash, rs)
  {
    hide Mismatched, CommitComplaints, RevealComplaints;
    var issues, offence := JudgeSubmissions(rs);
    if Mismatched(commitHash, rs) { offence, issues := true, issues + [Mismatch]; }
    if FdcExpected(rs) && !rs.bitvoteSeen { issues := issues + [NoBitvote]; }
    r := rs.(issues := issues, offence := offence, fdcGap := FdcExpected(rs) && !rs.bitvoteSeen);
  }

  function CommitComplaints(rs: RoundState): seq<Issue> {
    if !rs.submit1Seen then [NoCommit] else if !rs.submit1Ontime then [CommitOffWindow] else []
  }

  function RevealComplaints(rs: RoundState): seq<Issue> {
    if !rs.submit2Seen then [if rs.submit1Seen then RevealMissing else NoReveal]
    else if !rs.submit2Ontime then [RevealOffWindow] else []
  }

  function Complaints(commitHash: CommitHash, rs: RoundState): (r: seq<Issue>)
    ensures forall i :: i in r <==> Raised(commitHash, rs, i)
  {
    CommitComplaints(rs) + RevealComplaints(rs) + (if Mismatched(commitHash, rs) then [Mismatch] else []) +
    (if FdcExpected(rs) && !rs.bitvoteSeen then [NoBitvote] else [])
  }

  function Judgement(commitHash: CommitHash, rs: RoundState): RoundState {
    rs.(issues := Complaints(commitHash, rs), offence := Offends(commitHash, rs),
        fdcGap := FdcExpected(rs) && !rs.bitvoteSeen)
  }

  predicate Offends(commitHash: CommitHash, rs: RoundState) {
    (rs.submit1Seen && !rs.submit2Seen) || Mismatched(commitHash, rs)
  }

  predicate Mismatched(commitHash: CommitHash, rs: RoundState) {
    rs.submit1Seen && rs.submit2Seen && rs.commit.Some? &&
    rs.commit.value != commitHash(rs.id, if rs.random.Some? then rs.random.value else 0,
                                  if rs.feeds.Some? then rs.feeds.value else "")
  }

  predicate Raised(commitHash: CommitHash, rs: RoundState, i: Issue) {
    match i
    case NoCommit => !rs.submit1Seen
    case CommitOffWindow => rs.submit1Seen && !rs.submit1Ontime
    case RevealMissing => rs.submit1Seen && !rs.submit2Seen
    case NoReveal => !rs.submit1Seen && !rs.submit2Seen
    case RevealOffWindow => rs.submit2Seen && !rs.submit2Ontime
    case Mismatch => Mismatched(commitHash, rs)
    case NoBitvote => FdcExpected(rs) && !rs.bitvoteSeen
  }

  // What a verdict means: clean exactly without an FTSO issue, an FDC gap exactly with the FDC issue.
  ghost predicate Judged(rs: RoundState) {
    && (Clean(rs) <==> forall i :: i in rs.issues ==> i == NoBitvote)
    && (rs.fdcGap <==> NoBitvote in rs.issues)
    && (rs.fdcGap <==> FdcExpected(rs) && !rs.bitvoteSeen)
    && (rs.offence <==> RevealMissing in rs.issues || Mismatch in rs.issues)
  }

  lemma VerdictIsJudged(commitHash: CommitHash, rs: RoundState)
    ensures Judged(Judgement(commitHash, rs))
  {
    hide Mismatched, Complaints;
    var r := Judgement(commitHash, rs);
    if Clean(r) {
      forall i | i in r.issues
        ensures i == NoBitvote
      {
        assert Raised(commitHash, rs, i);
      }
    } else {
      assert exists i :: i != NoBitvote && Raised(commitHash, rs, i) by {
        assert || Raised(commitHash, rs, NoCommit) || Raised(commitHash, rs, CommitOffWindow)
               || Raised(commitHash, rs, RevealMissing) || Raised(commitHash, rs, NoReveal)
               || Raised(commitHash, rs, RevealOffWindow) || Raised(commitHash, rs, Mismatch);
      }
    }
  }

  // A mismatch is exactly a commit, seen and read, other than the hash of what was then revealed; what could not be
  // read of the reveal counts as 0 and as nothing.
  lemma MismatchExactly(commitHash: CommitHash, rs: RoundState)
    ensures Mismatch in Judgement(commitHash, rs).issues <==>
              && rs.submit1Seen && rs.submit2Seen && rs.commit.Some?
              && rs.commit != Some(match (rs.random, rs.feeds)
                                   case (Some(n), Some(f)) => commitHash(rs.id, n, f)
                                   case (Some(n), None) => commitHash(rs.id, n, "")
                                   case (None, Some(f)) => commitHash(rs.id, 0, f)
                                   case (None, None) => commitHash(rs.id, 0, ""))
  {
    assert Mismatch in Complaints(commitHash, rs) <==> Raised(commitHash, rs, Mismatch);
  }

  lemma ScoringKeepsJudged(rs: RoundState, r: RoundState)
    requires Judged(rs) && r == rs.(scores := r.scores, tally := r.tally)
    ensures Judged(r)
  {}

  // --- Rounds in flight --------------------------------------------------------------------------------------

  // _round: looking a round up may open it, unless it lies implausibly far ahead, and may evict the stalest.
  function Opening(rounds: map<int, RoundState>, rid: int, current: Option<int>): map<int, RoundState> {
    if rid in rounds || (current.Some? && rid > current.value + FUTURE_ROUND_MARGIN) then rounds
    else
      var more := rounds[rid := Opened(rid)];
      if |more| > ROUNDS_CAP then more - {Least(more.Keys)} else more
  }

  // Writing to the round that was looked up; what is written to a round that was not kept is lost.
  function Touched(rounds: map<int, RoundState>, rid: int, current: Option<int>,
                   f: RoundState -> RoundState): map<int, RoundState> {
    var open := Opening(rounds, rid, current);
    if rid in open then open[rid := f(open[rid])] else open
  }

  ghost predicate Bounded(rounds: map<int, RoundState>) {
    |rounds| <= ROUNDS_CAP && forall id :: id in rounds ==> rounds[id].id == id && InFlight(rounds[id])
  }

  // The cap holds; a known round and a far one change nothing; otherwise only the stalest can be lost, and only for
  // room.
  lemma {:induction false} OpeningIsBounded(rounds: map<int, RoundState>, rid: int, current: Option<int>)
    requires Bounded(rounds)
    ensures var open := Opening(rounds, rid, current);
            && Bounded(open)
            && (forall id :: id in open && id in rounds ==> open[id] == rounds[id])
            && (forall id :: id in open ==> id in rounds || id == rid)
            && (forall id :: id in rounds && id !in open ==>
                               |rounds| == ROUNDS_CAP && id < rid && forall other :: other in open ==> id < other)
            && (rid !in open ==> open == rounds)
  {
    if rid !in rounds && !(current.Some? && rid > current.value + FUTURE_ROUND_MARGIN) {
      var more := rounds[rid := Opened(rid)];
      assert more.Keys == rounds.Keys + {rid};
      if |more| > ROUNDS_CAP { EvictionIsBounded(rounds, rid, more); }
    }
  }

  // Which rounds a look-up leaves known: those up to four ahead, as far as 512 have room for them, and what is opened
  // is blank.
  lemma OpeningExactly(rounds: map<int, RoundState>, rid: int, current: Option<int>)
    requires Bounded(rounds)
    ensures rid in Opening(rounds, rid, current) <==>
              || rid in rounds
              || ((current == None || rid - current.value < 5) &&
                  (|rounds| < 512 || exists id :: id in rounds && id < rid))
    ensures rid !in rounds && rid in Opening(rounds, rid, current) ==> Blank(Opening(rounds, rid, current)[rid], rid)
  {
    assert |rounds| <= ROUNDS_CAP;
    hide Bounded, Blank, Opened;
    if rid !in rounds && !Far(rid, current) {
      OpenedIsBlank(rid);
      RoomExactly(rounds, rid, rounds[rid := Opened(rid)]);
    }
  }

  lemma RoomExactly(rounds: map<int, RoundState>, rid: int, more: map<int, RoundState>)
    requires |rounds| <= ROUNDS_CAP && rid !in rounds && rid in more && more == rounds[rid := more[rid]]
    ensures var open := if |more| > ROUNDS_CAP then more - {Least(more.Keys)} else more;
            && (rid in open <==> |rounds| < 512 || exists id :: id in rounds && id < rid)
            && (rid in open ==> open[rid] == more[rid])
  {
    hide Least;
    assert more.Keys == rounds.Keys + {rid} && |more| == |more.Keys| && |rounds| == |rounds.Keys|;
    if |more| > ROUNDS_CAP {
      var least := Least(more.Keys);
      assert IsLeast(least, more.Keys);
      assert forall id :: id in more.Keys <==> id in rounds || id == rid;
    }
  }

  lemma OpenedIsBlank(rid: int)
    ensures Blank(Opened(rid), rid)
  {}

  // Nothing was seen of it, counted or decided.
  ghost predicate Blank(rs: RoundState, id: int) {
    && rs.id == id && InFlight(rs) && rs.scores == [] && rs.fdcRequests == 0 && rs.fuCount == 0
    && true !in [rs.submit1Seen, rs.submit1Ontime, rs.submit2Seen, rs.submit2Ontime, rs.sigSeen, rs.bitvoteSeen,
                 rs.fdcSigSeen]
    && rs.commit.None? && rs.random.None? && rs.feeds.None?
  }

  lemma EvictionIsBounded(rounds: map<int, RoundState>, rid: int, more: map<int, RoundState>)
    requires Bounded(rounds) && rid !in rounds && more == rounds[rid := Opened(rid)] && |more| > ROUNDS_CAP
    requires more.Keys == rounds.Keys + {rid}
    ensures var open := more - {Least(more.Keys)};
            && Bounded(open) && |rounds| == ROUNDS_CAP
            && (forall id :: id in open ==> id in rounds || id == rid)
            && (forall id :: id in open && id in rounds ==> open[id] == rounds[id])
            && (forall id :: id in rounds && id !in open ==> id < rid && forall other :: other in open ==> id < other)
            && (rid !in open ==> open == rounds)
  {
    var least := Least(more.Keys);
    var open := more - {least};
    assert open.Keys == more.Keys - {least};
    assert forall id :: id in open ==> open[id] == more[id];
    if least == rid {
      assert open.Keys == rounds.Keys;
      assert open == rounds;
    }
  }

  lemma TouchedIsBounded(rounds: map<int, RoundState>, rid: int, current: Option<int>, f: RoundState -> RoundState)
    requires Bounded(rounds)
    requires forall rs: RoundState :: rs.id == rid && InFlight(rs) ==> f(rs).id == rid && InFlight(f(rs))
    ensures Bounded(Touched(rounds, rid, current, f))
  {
    OpeningIsBounded(rounds, rid, current);
    hide Opening, InFlight, Bounded;
    var open := Opening(rounds, rid, current);
    if rid in open {
      HeldRound(open, rid);
      WriteIsBounded(open, rid, f(open[rid]));
    }
  }

  lemma HeldRound(rounds: map<int, RoundState>, rid: int)
    requires Bounded(rounds) && rid in rounds
    ensures rounds[rid].id == rid && InFlight(rounds[rid])
  {}

  lemma WriteIsBounded(rounds: map<int, RoundState>, rid: int, rs: RoundState)
    requires Bounded(rounds) && rid in rounds && rs.id == rid && InFlight(rs)
    ensures Bounded(rounds[rid := rs])
  {
    assert rounds[rid := rs].Keys == rounds.Keys;
  }

  // --- What a transaction changes ----------------------------------------------------------------------------

  datatype Kind = Submit1 | Submit2 | Signatures

  datatype Submission = Submission(
    kind: Kind, roundId: int, commit: Option<string>, random: Option<int>, feeds: Option<string>, fdcRound: Option<int>)

  type Change = RoundState -> RoundState

  function Unchanged(): Change { (rs: RoundState) => rs }

  // A commit belongs into its round's own window.
  function Committed(t: Timing, s: Submission, ts: int): Change {
    (rs: RoundState) => rs.(submit1Seen := true, commit := s.commit,
                            submit1Ontime := StartOf(t, s.roundId) <= ts <= StartOf(t, s.roundId + 1))
  }

  // A reveal belongs between the start of the next round and its reveal deadline.
  function Revealed(t: Timing, s: Submission, ts: int): Change {
    (rs: RoundState) => rs.(submit2Seen := true, random := s.random, feeds := s.feeds,
                            submit2Ontime :=
                              StartOf(t, s.roundId + 1) <= ts <= StartOf(t, s.roundId + 1) + t.revealOffset)
  }

  function Signed(): Change { (rs: RoundState) => rs.(sigSeen := true) }

  function FdcSigned(): Change { (rs: RoundState) => rs.(fdcSigSeen := true) }

  function Bitvoted(): Change { (rs: RoundState) => rs.(bitvoteSeen := true) }

  function Requested(): Change { (rs: RoundState) => rs.(fdcRequests := rs.fdcRequests + 1) }

  function FastUpdated(): Change { (rs: RoundState) => rs.(fuCount := rs.fuCount + 1) }

  // A request and a fast update add one to their own count and change nothing else.
  lemma CountersExactly(rs: RoundState)
    ensures Requested()(rs).fdcRequests == rs.fdcRequests + 1 && FastUpdated()(rs).fuCount == rs.fuCount + 1
    ensures Requested()(rs).(fdcRequests := 0) == rs.(fdcRequests := 0)
    ensures FastUpdated()(rs).(fuCount := 0) == rs.(fuCount := 0)
  {}

  predicate Far(rid: int, current: Option<int>) {
    current.Some? && rid > current.value + FUTURE_ROUND_MARGIN
  }

  // A round as it is known, opened or not.
  function RoundOf(rounds: map<int, RoundState>, id: int): RoundState {
    if id in rounds then rounds[id] else Opened(id)
  }

  // After looking these rounds up: nothing far ahead was opened, and only the stalest were lost, for room.
  ghost predicate KeptFresh(before: map<int, RoundState>, after: map<int, RoundState>, looked: set<int>,
                            current: Option<int>) {
    && (forall id :: id in after ==> id in before || (id in looked && !Far(id, current)))
    && (forall id :: id !in after && (id in before || (id in looked && !Far(id, current))) ==>
                       |after| == ROUNDS_CAP && forall other :: other in after ==> id < other)
  }

  lemma OpeningKeepsFresh(rounds: map<int, RoundState>, rid: int, current: Option<int>)
    requires Bounded(rounds)
    ensures KeptFresh(rounds, Opening(rounds, rid, current), {rid}, current)
    ensures forall id :: id in Opening(rounds, rid, current) ==>
              Opening(rounds, rid, current)[id] == RoundOf(rounds, id)
  {
    assert |rounds| <= ROUNDS_CAP;
    hide Bounded, Opened, KeptFresh;
    if rid in rounds || Far(rid, current) {
      assert KeptFresh(rounds, rounds, {rid}, current) by { NothingLost(rounds, rid, current); }
    } else {
      OpenedKeepsFresh(rounds, rid, current);
    }
  }

  lemma NothingLost(rounds: map<int, RoundState>, rid: int, current: Option<int>)
    requires rid in rounds || Far(rid, current)
    ensures KeptFresh(rounds, rounds, {rid}, current)
  {}

  lemma OpenedKeepsFresh(rounds: map<int, RoundState>, rid: int, current: Option<int>)
    requires rid !in rounds && !Far(rid, current) && |rounds| <= ROUNDS_CAP
    ensures var more := rounds[rid := Opened(rid)];
            var open := if |more| > ROUNDS_CAP then more - {Least(more.Keys)} else more;
            KeptFresh(rounds, open, {rid}, current) && forall id :: id in open ==> open[id] == RoundOf(rounds, id)
  {
    hide Opened, Far, KeptFresh, RoundOf, Least;
    var more := rounds[rid := Opened(rid)];
    assert more.Keys == rounds.Keys + {rid};
    assert |more| == |more.Keys| && |rounds| == |rounds.Keys|;
    OpenedAddsOne(rounds, more, rid, current);
    if |more| > ROUNDS_CAP {
      assert IsLeast(Least(more.Keys), more.Keys);
      StalestMakesRoom(rounds, more, rid, current, Least(more.Keys));
    }
  }

  lemma OpenedAddsOne(rounds: map<int, RoundState>, more: map<int, RoundState>, rid: int, current: Option<int>)
    requires rid !in rounds && !Far(rid, current) && more == rounds[rid := Opened(rid)]
    ensures KeptFresh(rounds, more, {rid}, current) && forall id :: id in more ==> more[id] == RoundOf(rounds, id)
    ensures forall id :: id in more <==> id in rounds || id == rid
  {}

  lemma StalestMakesRoom(rounds: map<int, RoundState>, more: map<int, RoundState>, rid: int, current: Option<int>,
                         least: int)
    requires KeptFresh(rounds, more, {rid}, current) && (forall id :: id in more ==> more[id] == RoundOf(rounds, id))
    requires forall id :: id in more <==> id in rounds || id == rid
    requires IsLeast(least, more.Keys) && |more.Keys| == ROUNDS_CAP + 1
    ensures KeptFresh(rounds, more - {least}, {rid}, current)
    ensures forall id :: id in more - {least} ==> (more - {least})[id] == RoundOf(rounds, id)
  {
    hide RoundOf, Far;
    StalestGone(more, least);
  }

  lemma StalestGone(more: map<int, RoundState>, least: int)
    requires IsLeast(least, more.Keys) && |more.Keys| == ROUNDS_CAP + 1
    ensures var open := more - {least};
            && |open| == ROUNDS_CAP && (forall id :: id in open <==> id in more && id != least)
            && (forall id :: id in open ==> open[id] == more[id] && least < id)
  {
    var open := more - {least};
    assert open.Keys == more.Keys - {least};
    assert |open| == |open.Keys|;
  }

  // What a write to one round leaves.
  lemma TouchedMeans(rounds: map<int, RoundState>, rid: int, current: Option<int>, f: RoundState -> RoundState)
    requires Bounded(rounds)
    ensures var after := Touched(rounds, rid, current, f);
            && KeptFresh(rounds, after, {rid}, current)
            && forall id :: id in after ==>
              after[id] == if id == rid then f(RoundOf(rounds, id)) else RoundOf(rounds, id)
  {
    hide Opening, Bounded, RoundOf;
    OpeningKeepsFresh(rounds, rid, current);
    var open, after := Opening(rounds, rid, current), Touched(rounds, rid, current, f);
    assert after.Keys == open.Keys;
    assert |after| == |after.Keys| && |open| == |open.Keys|;
  }

  lemma FreshTwice(a: map<int, RoundState>, b: map<int, RoundState>, c: map<int, RoundState>, x: int, y: int,
                   current: Option<int>)
    requires KeptFresh(a, b, {x}, current) && KeptFresh(b, c, {y}, current) && |b| <= ROUNDS_CAP && |c| <= ROUNDS_CAP
    ensures KeptFresh(a, c, {x, y}, current)
    ensures forall id :: id in c && (id in a || id == x) ==> id in b
  {
    hide Far;
    forall id | id in c && (id in a || id == x)
      ensures id in b
    {
      if id !in b { StillStalest(b, c, y, id, current); }
    }
    forall id | id !in c && (id in a || (id in {x, y} && !Far(id, current)))
      ensures |c| == ROUNDS_CAP && forall other :: other in c ==> id < other
    {
      if id !in b && !(id == y && !Far(id, current)) {
        StillStalest(b, c, y, id, current);
      }
    }
  }

  lemma StillStalest(b: map<int, RoundState>, c: map<int, RoundState>, y: int, id: int, current: Option<int>)
    requires KeptFresh(b, c, {y}, current) && |b| == ROUNDS_CAP && |c| <= ROUNDS_CAP
    requires forall other :: other in b ==> id < other
    ensures |c| == ROUNDS_CAP && forall other :: other in c ==> id < other
  {
    if z :| z in b && z !in c {
      assert z !in c;
    } else {
      assert forall z :: z in b ==> z in c;
      assert forall z :: z in b.Keys ==> z in c.Keys;
      SubsetSize(b.Keys, c.Keys);
      assert b.Keys == c.Keys;
    }
  }

  lemma SubsetSize(s: set<int>, u: set<int>)
    requires s <= u
    ensures |s| <= |u| && (|s| == |u| ==> s == u)
  {
    assert u == s + (u - s);
  }

  // --- What a record means -----------------------------------------------------------------------------------

  // What one transaction of ours says about the round.
  datatype Marks = Marks(commit: bool, revelation: bool, signature: bool, fdcSignature: bool, bitvote: bool)

  function MarksOn(s: Submission, submitter: bool, signer: bool, id: int): Marks {
    Marks(
      s.kind.Submit1? && submitter && id == s.roundId,
      s.kind.Submit2? && submitter && id == s.roundId,
      s.kind.Signatures? && signer && id == s.roundId,
      s.kind.Signatures? && signer && s.fdcRound == Some(id),
      s.kind.Submit2? && submitter && s.fdcRound == Some(id))
  }

  // A commit belongs into its round's own window, a reveal between the start of the next round and its deadline.
  ghost predicate Marked(was: RoundState, m: Marks, s: Submission, ts: int, t: Timing, r: RoundState) {
    && (r.submit1Seen <==> was.submit1Seen || m.commit)
    && (r.submit1Ontime <==> if m.commit then StartOf(t, r.id) <= ts <= StartOf(t, r.id + 1) else was.submit1Ontime)
    && r.commit == (if m.commit then s.commit else was.commit)
    && (r.submit2Seen <==> was.submit2Seen || m.revelation)
    && (r.submit2Ontime <==>
        if m.revelation then StartOf(t, r.id + 1) <= ts <= StartOf(t, r.id + 1) + t.revealOffset else was.submit2Ontime)
    && r.random == (if m.revelation then s.random else was.random)
    && r.feeds == (if m.revelation then s.feeds else was.feeds)
    && (r.sigSeen <==> was.sigSeen || m.signature)
    && (r.fdcSigSeen <==> was.fdcSigSeen || m.fdcSignature)
    && (r.bitvoteSeen <==> was.bitvoteSeen || m.bitvote)
    && r == was.(submit1Seen := r.submit1Seen, submit1Ontime := r.submit1Ontime, commit := r.commit,
                 submit2Seen := r.submit2Seen, submit2Ontime := r.submit2Ontime, random := r.random, feeds := r.feeds,
                 sigSeen := r.sigSeen, fdcSigSeen := r.fdcSigSeen, bitvoteSeen := r.bitvoteSeen)
  }

  // An FDC round rides along with our reveal or signature.
  predicate Rides(s: Submission, submitter: bool, signer: bool) {
    s.fdcRound.Some? && ((s.kind.Signatures? && signer) || (s.kind.Submit2? && submitter))
  }

  function FdcChange(s: Submission): Change {
    if s.kind.Signatures? then FdcSigned() else Bitvoted()
  }

  // The rounds that a transaction has looked up.
  function Looked(s: Submission, submitter: bool, signer: bool): set<int> {
    if Rides(s, submitter, signer) then {s.roundId, s.fdcRound.value} else {s.roundId}
  }

  ghost predicate Records(before: map<int, RoundState>, after: map<int, RoundState>, s: Submission, submitter: bool,
                          signer: bool, ts: int, t: Timing, current: Option<int>) {
    && KeptFresh(before, after, Looked(s, submitter, signer), current)
    && forall id :: id in after ==>
                      Marked(RoundOf(before, id), MarksOn(s, submitter, signer, id), s, ts, t, after[id])
  }

  // The transaction's own round.
  function OwnChange(s: Submission, submitter: bool, signer: bool, ts: int, t: Timing): Change {
    if s.kind.Submit1? && submitter then Committed(t, s, ts)
    else if s.kind.Submit2? && submitter then Revealed(t, s, ts)
    else if s.kind.Signatures? && signer then Signed() else Unchanged()
  }

  // record: the transaction's own round, then the FDC round.
  function Recorded(rounds: map<int, RoundState>, s: Submission, submitter: bool, signer: bool, ts: int, t: Timing,
                    current: Option<int>): map<int, RoundState> {
    var first := Touched(rounds, s.roundId, current, OwnChange(s, submitter, signer, ts, t));
    if Rides(s, submitter, signer) then Touched(first, s.fdcRound.value, current, FdcChange(s)) else first
  }

  // A transaction marks its own round and the FDC round as its kind and its sender say, on time exactly inside the
  // window, and nothing of a foreign sender is marked; a round is lost only for room.
  lemma RecordedMeans(before: map<int, RoundState>, s: Submission, submitter: bool, signer: bool, ts: int, t: Timing,
                      current: Option<int>)
    requires Bounded(before)
    ensures Records(before, Recorded(before, s, submitter, signer, ts, t, current), s, submitter, signer, ts, t,
                    current)
    ensures Bounded(Recorded(before, s, submitter, signer, ts, t, current))
  {
    hide Touched, KeptFresh, Bounded, Marked, MarksOn, OwnChange, InFlight, RoundOf;
    var own := OwnChange(s, submitter, signer, ts, t);
    OwnKeepsFlight(s, submitter, signer, ts, t);
    var first := Touched(before, s.roundId, current, own);
    var after := Recorded(before, s, submitter, signer, ts, t, current);
    TouchedMeans(before, s.roundId, current, own);
    TouchedIsBounded(before, s.roundId, current, own);
    if Rides(s, submitter, signer) {
      FdcKeepsFlight();
      TouchedIsBounded(first, s.fdcRound.value, current, FdcChange(s));
      BothMean(before, first, s, submitter, signer, ts, t, current);
    } else {
      forall id | id in after
        ensures Marked(RoundOf(before, id), MarksOn(s, submitter, signer, id), s, ts, t, after[id])
      {
        HasItsId(before, id);
        ChangesMark(RoundOf(before, id), id, s, submitter, signer, ts, t);
      }
    }
  }

  lemma BothMean(before: map<int, RoundState>, first: map<int, RoundState>, s: Submission, submitter: bool,
                 signer: bool, ts: int, t: Timing, current: Option<int>)
    requires Bounded(before) && Bounded(first) && Rides(s, submitter, signer)
    requires first == Touched(before, s.roundId, current, OwnChange(s, submitter, signer, ts, t))
    requires Bounded(Touched(first, s.fdcRound.value, current, FdcChange(s)))
    ensures var after := Touched(first, s.fdcRound.value, current, FdcChange(s));
            && KeptFresh(before, after, {s.roundId, s.fdcRound.value}, current)
            && forall id :: id in after ==>
                              Marked(RoundOf(before, id), MarksOn(s, submitter, signer, id), s, ts, t, after[id])
  {
    hide Touched, KeptFresh, Bounded, Marked, MarksOn, OwnChange, FdcChange;
    var own, after := OwnChange(s, submitter, signer, ts, t), Touched(first, s.fdcRound.value, current, FdcChange(s));
    TouchedMeans(before, s.roundId, current, own);
    TouchedMeans(first, s.fdcRound.value, current, FdcChange(s));
    AtMostTheCap(first);
    AtMostTheCap(after);
    FreshTwice(before, first, after, s.roundId, s.fdcRound.value, current);
    forall id | id in after
      ensures Marked(RoundOf(before, id), MarksOn(s, submitter, signer, id), s, ts, t, after[id])
    {
      HasItsId(before, id);
      ChangesMark(RoundOf(before, id), id, s, submitter, signer, ts, t);
    }
  }

  lemma FdcKeepsFlight()
    ensures forall rs: RoundState, s: Submission :: InFlight(rs) ==>
              InFlight(FdcChange(s)(rs)) && FdcChange(s)(rs).id == rs.id
  {}

  lemma OwnKeepsFlight(s: Submission, submitter: bool, signer: bool, ts: int, t: Timing)
    ensures forall rs: RoundState :: InFlight(rs) ==>
              var r := OwnChange(s, submitter, signer, ts, t)(rs); InFlight(r) && r.id == rs.id
  {}

  // The own round's change alone.
  lemma OwnChangeMarks(was: RoundState, s: Submission, submitter: bool, signer: bool, ts: int, t: Timing)
    requires was.id == s.roundId
    ensures var m := MarksOn(s, submitter, signer, s.roundId);
            Marked(was, m.(fdcSignature := false, bitvote := false), s, ts, t,
                   OwnChange(s, submitter, signer, ts, t)(was))
  {
    hide StartOf;
  }

  // The FDC round's change on top of it.
  lemma FdcChangeMarks(was: RoundState, m: Marks, s: Submission, ts: int, t: Timing, r: RoundState)
    requires Marked(was, m.(fdcSignature := false, bitvote := false), s, ts, t, r)
    ensures !m.fdcSignature && !m.bitvote ==> Marked(was, m, s, ts, t, r)
    ensures m.fdcSignature != m.bitvote && (m.fdcSignature <==> s.kind.Signatures?) ==>
              Marked(was, m, s, ts, t, FdcChange(s)(r))
  {
    hide StartOf;
  }

  lemma ChangesMark(was: RoundState, id: int, s: Submission, submitter: bool, signer: bool, ts: int, t: Timing)
    requires was.id == id
    ensures var first := if id == s.roundId then OwnChange(s, submitter, signer, ts, t)(was) else was;
            var r := if Rides(s, submitter, signer) && s.fdcRound == Some(id) then FdcChange(s)(first) else first;
            Marked(was, MarksOn(s, submitter, signer, id), s, ts, t, r)
  {
    hide Marked, OwnChange, FdcChange;
    var first := if id == s.roundId then OwnChange(s, submitter, signer, ts, t)(was) else was;
    OwnPartMarks(was, id, s, submitter, signer, ts, t);
    FdcChangeMarks(was, MarksOn(s, submitter, signer, id), s, ts, t, first);
  }

  lemma OwnPartMarks(was: RoundState, id: int, s: Submission, submitter: bool, signer: bool, ts: int, t: Timing)
    requires was.id == id
    ensures Marked(was, MarksOn(s, submitter, signer, id).(fdcSignature := false, bitvote := false), s, ts, t,
                   if id == s.roundId then OwnChange(s, submitter, signer, ts, t)(was) else was)
  {
    hide Marked, OwnChange;
    if id == s.roundId { OwnChangeMarks(was, s, submitter, signer, ts, t); } else { NothingMarked(was, s, ts, t); }
  }

  lemma NothingMarked(was: RoundState, s: Submission, ts: int, t: Timing)
    ensures Marked(was, Marks(false, false, false, false, false), s, ts, t, was)
  {
    hide StartOf;
  }

  lemma HasItsId(rounds: map<int, RoundState>, id: int)
    requires Bounded(rounds)
    ensures RoundOf(rounds, id).id == id
  {}

  lemma AtMostTheCap(rounds: map<int, RoundState>)
    requires Bounded(rounds)
    ensures |rounds| <= ROUNDS_CAP
  {}

  // A round with one commit and then one reveal of ours, none lost for room, is judged clean exactly if each came in
  // its own window and the commit, if it could be read, is the hash of what was revealed.
  lemma CleanExactly(commitHash: CommitHash, before: map<int, RoundState>, a: Submission, b: Submission, ts: int,
                     later: int, t: Timing, current: Option<int>)
    requires Bounded(before) && a.kind.Submit1? && b.kind.Submit2? && a.roundId == b.roundId
    requires var after := Recorded(before, a, true, false, ts, t, current);
             a.roundId in after && a.roundId in Recorded(after, b, true, false, later, t, current)
    requires b.random.Some? && b.feeds.Some?
    ensures var after := Recorded(Recorded(before, a, true, false, ts, t, current), b, true, false, later, t, current);
            Clean(Judgement(commitHash, after[a.roundId])) <==>
              && t.first + a.roundId * t.length <= ts <= t.first + (a.roundId + 1) * t.length
              && 0 <= later - (t.first + (a.roundId + 1) * t.length) <= t.revealOffset
              && (a.commit.Some? ==> a.commit.value == commitHash(a.roundId, b.random.value, b.feeds.value))
  {
    hide Recorded, KeptFresh, Bounded;
    var rid := a.roundId;
    var first := Recorded(before, a, true, false, ts, t, current);
    var second := Recorded(first, b, true, false, later, t, current);
    RecordedMeans(before, a, true, false, ts, t, current);
    RecordedMeans(first, b, true, false, later, t, current);
    HasItsId(before, rid);
    assert Marked(RoundOf(before, rid), MarksOn(a, true, false, rid), a, ts, t, first[rid]);
    assert Marked(RoundOf(first, rid), MarksOn(b, true, false, rid), b, later, t, second[rid]);
  }

  // --- Histories ---------------------------------------------------------------------------------------------

  function Rids(history: seq<Tally>): set<int> {
    set t | t in history :: t.rid
  }

  ghost predicate Distinct(history: seq<Tally>) {
    forall i, j :: 0 <= i < j < |history| ==> history[i].rid != history[j].rid
  }

  lemma {:induction false} DistinctCount(history: seq<Tally>)
    requires Distinct(history)
    ensures |Rids(history)| == |history|
  {
    if history != [] {
      var init, last := history[..|history| - 1], history[|history| - 1];
      DistinctCount(init);
      assert history == init + [last];
      assert Rids(history) == Rids(init) + {last.rid};
    }
  }

  // Adding a round not yet held: within the cap its id joins, past it the ids are those of what is left.
  lemma Remembered(history: seq<Tally>, t: Tally)
    requires Distinct(history) && |history| <= HISTORY_CAP && t.rid !in Rids(history)
    ensures var later := Pushed(history, t, HISTORY_CAP);
            Distinct(later) && |later| <= HISTORY_CAP &&
            (|Rids(history) + {t.rid}| <= HISTORY_CAP ==> Rids(later) == Rids(history) + {t.rid})
  {
    DistinctCount(history);
    forall i | 0 <= i < |history|
      ensures history[i].rid != t.rid
    {
      assert history[i] in history;
    }
    if |history| < HISTORY_CAP {
      assert Pushed(history, t, HISTORY_CAP) == history + [t];
      assert Rids(history + [t]) == Rids(history) + {t.rid};
    }
  }

  function Count<T>(s: seq<T>, p: T -> bool): nat {
    if s == [] then 0 else Count(s[..|s| - 1], p) + if p(s[|s| - 1]) then 1 else 0
  }

  function TallyOf(rid: int, ts: int, scores: seq<Score>): Tally {
    Tally(rid, ts, |scores|, Count(scores, (s: Score) => s.inside), Count(scores, (s: Score) => s.boundary),
          Count(scores, (s: Score) => s.pctHit), Count(scores, (s: Score) => s.capped))
  }

  // How many places satisfy it.
  lemma {:induction false} CountIsCard<T>(s: seq<T>, p: T -> bool)
    ensures Count(s, p) == |set i | 0 <= i < |s| && p(s[i])|
  {
    if s != [] {
      var n := |s| - 1;
      var init := s[..n];
      CountIsCard(init, p);
      var before, all := set i | 0 <= i < n && p(init[i]), set i | 0 <= i < |s| && p(s[i]);
      assert all - {n} == before;
      assert p(s[n]) <==> n in all;
      assert all == if p(s[n]) then before + {n} else before;
    }
  }

  lemma CountPlaces<T>(s: seq<T>, p: T -> bool, places: set<int>)
    requires forall i :: i in places <==> 0 <= i < |s| && p(s[i])
    ensures Count(s, p) == |places|
  {
    CountIsCard(s, p);
    assert places == set i | 0 <= i < |s| && p(s[i]);
  }

  // What a tally counts, feed by feed.
  lemma TallyExactly(rid: int, ts: int, scores: seq<Score>)
    ensures var t := TallyOf(rid, ts, scores);
            && t.rid == rid && t.ts == ts && t.feeds == |scores|
            && t.inside == |set i | 0 <= i < |scores| && scores[i].inside|
            && t.boundary == |set i | 0 <= i < |scores| && scores[i].boundary|
            && t.pct == |set i | 0 <= i < |scores| && scores[i].pctHit|
            && t.capped == |set i | 0 <= i < |scores| && scores[i].capped|
  {
    hide Count;
    CountPlaces(scores, (s: Score) => s.inside, set i | 0 <= i < |scores| && scores[i].inside);
    CountPlaces(scores, (s: Score) => s.boundary, set i | 0 <= i < |scores| && scores[i].boundary);
    CountPlaces(scores, (s: Score) => s.pctHit, set i | 0 <= i < |scores| && scores[i].pctHit);
    CountPlaces(scores, (s: Score) => s.capped, set i | 0 <= i < |scores| && scores[i].capped);
  }

  // The ids of the due rounds that count, in the order given.
  function DueIds(t: Timing, ids: seq<int>, now: int, observeStart: int): seq<int> {
    if ids == [] then []
    else
      var last := ids[|ids| - 1];
      DueIds(t, ids[..|ids| - 1], now, observeStart) +
      if IsDue(t, last, now) && StartOf(t, last) >= observeStart then [last] else []
  }

  function IdsOf(done: seq<RoundState>): seq<int> {
    seq(|done|, i requires 0 <= i < |done| => done[i].id)
  }

  // From a round in flight to the same round with its verdict, its scores and their tally.
  ghost predicate VerdictOn(commitHash: CommitHash, score: RoundState -> seq<Score>, rs: RoundState, ts: int,
                            r: RoundState) {
    r == Judgement(commitHash, rs).(
      scores := score(rs), tally := if score(rs) != [] then Some(TallyOf(rs.id, ts, score(rs))) else None)
  }

  ghost predicate Verdicts(commitHash: CommitHash, score: RoundState -> seq<Score>, rounds: map<int, RoundState>,
                           ts: int,
                           done: seq<RoundState>) {
    forall k :: 0 <= k < |done| ==>
      done[k].id in rounds && VerdictOn(commitHash, score, rounds[done[k].id], ts, done[k])
  }

  // The rounds that stay when these ids have been looked at.
  function Left(rounds: map<int, RoundState>, ids: seq<int>, t: Timing, now: int): map<int, RoundState> {
    map id | id in rounds && !(id in ids && IsDue(t, id, now)) :: rounds[id]
  }

  lemma LeftNone(rounds: map<int, RoundState>, t: Timing, now: int)
    ensures Left(rounds, [], t, now) == rounds
  {}

  lemma LeftStep(rounds: map<int, RoundState>, ids: seq<int>, i: nat, t: Timing, now: int)
    requires Increasing(ids) && i < |ids| && ids[i] in rounds
    ensures var left := Left(rounds, ids[..i], t, now);
            && ids[i] in left && left[ids[i]] == rounds[ids[i]]
            && Left(rounds, ids[..i + 1], t, now) == if IsDue(t, ids[i], now) then left - {ids[i]} else left
  {
    assert ids[..i + 1] == ids[..i] + [ids[i]];
    assert ids[i] !in ids[..i];
  }

  lemma DueStep(t: Timing, ids: seq<int>, i: nat, now: int, observeStart: int)
    requires i < |ids|
    ensures DueIds(t, ids[..i + 1], now, observeStart) ==
            DueIds(t, ids[..i], now, observeStart) +
            if IsDue(t, ids[i], now) && StartOf(t, ids[i]) >= observeStart then [ids[i]] else []
  {
    assert ids[..i + 1][..i] == ids[..i];
  }

  lemma RemovalIsBounded(rounds: map<int, RoundState>, rid: int)
    requires Bounded(rounds) && rid in rounds
    ensures Bounded(rounds - {rid})
  {
    assert (rounds - {rid}).Keys == rounds.Keys - {rid};
  }

  lemma NoVerdicts(commitHash: CommitHash, score: RoundState -> seq<Score>, rounds: map<int, RoundState>, ts: int,
                   t: Timing, start: int)
    ensures Verdicts(commitHash, score, rounds, ts, []) && IdsOf([]) == DueIds(t, [], ts, start)
  {}

  lemma OneMoreVerdict(commitHash: CommitHash, score: RoundState -> seq<Score>, rounds: map<int, RoundState>, ts: int,
                       done: seq<RoundState>, r: RoundState, rs: RoundState)
    requires Verdicts(commitHash, score, rounds, ts, done) && rs.id in rounds && rounds[rs.id] == rs
    requires VerdictOn(commitHash, score, rs, ts, r)
    ensures Verdicts(commitHash, score, rounds, ts, done + [r]) && IdsOf(done + [r]) == IdsOf(done) + [rs.id]
  {}

  class ObserverState {
    const timing: Timing
    const window: nat
    const observeStart: int
    const ourSubmit: string
    const ourSig: string
    const commitHash: CommitHash
    const score: RoundState -> seq<Score>
    var rounds: map<int, RoundState>
    var finalized: seq<RoundState>
    var lastTs: Option<int>
    var lastRoundFinalized: Option<int>
    var iqrHistory: seq<Tally>
    var iqrRids: set<int>
    var fuEvents: seq<int>
    // Every round finalized so far.
    ghost var emitted: seq<RoundState>

    ghost predicate Valid()
      reads this
    {
      && timing.length > 0 && Bounded(rounds)
      && iqrRids == Rids(iqrHistory) && Distinct(iqrHistory) && |iqrHistory| <= HISTORY_CAP
      && finalized == LastOf(emitted, window) && (forall rs :: rs in emitted ==> Judged(rs))
      && |fuEvents| <= FAST_UPDATES_CAP
    }

    constructor (timing: Timing, window: nat, observeStart: int, ourSubmit: string, ourSig: string,
                 commitHash: CommitHash, score: RoundState -> seq<Score>)
      requires timing.length > 0
      ensures Valid() && rounds == map[] && emitted == [] && iqrHistory == [] && lastTs == None
      ensures this.timing == timing && this.window == window && this.observeStart == observeStart
      ensures this.ourSubmit == ourSubmit && this.ourSig == ourSig && this.commitHash == commitHash &&
              this.score == score
    {
      this.timing, this.window, this.observeStart := timing, window, observeStart;
      this.ourSubmit, this.ourSig, this.commitHash, this.score := ourSubmit, ourSig, commitHash, score;
      rounds, finalized, lastTs, lastRoundFinalized := map[], [], None, None;
      iqrHistory, iqrRids, fuEvents, emitted := [], {}, [], [];
    }

    function CurrentRound(): Option<int>
      requires timing.length > 0
      reads this
    {
      if lastTs.None? then None else Some(RoundAt(timing, lastTs.value))
    }

    // _remember_tally: a round already in the history is not added again.
    method RememberTally(t: Tally) returns (isNew: bool)
      requires Valid()
      modifies this`iqrHistory, this`iqrRids
      ensures Valid() && (isNew <==> t.rid !in Rids(old(iqrHistory)))
      ensures iqrHistory == if isNew then Pushed(old(iqrHistory), t, HISTORY_CAP) else old(iqrHistory)
    {
      hide Bounded, Judged, Rids, Distinct, Pushed;
      if t.rid in iqrRids { return false; }
      Remembered(iqrHistory, t);
      iqrRids := iqrRids + {t.rid};
      iqrHistory := Pushed(iqrHistory, t, HISTORY_CAP);
      if |iqrRids| > HISTORY_CAP { iqrRids := Rids(iqrHistory); }
      return true;
    }

    method Touch(rid: int, f: RoundState -> RoundState)
      requires Valid() && forall rs: RoundState :: rs.id == rid && InFlight(rs) ==> f(rs).id == rid && InFlight(f(rs))
      modifies this`rounds
      ensures Valid() && rounds == Touched(old(rounds), rid, CurrentRound(), f)
    {
      hide Bounded, Judged, Rids, Distinct, Opening, InFlight;
      TouchedIsBounded(rounds, rid, CurrentRound(), f);
      rounds := Opening(rounds, rid, CurrentRound());
      if rid in rounds { rounds := rounds[rid := f(rounds[rid])]; }
    }

    // The engine moves the clock with every block.
    method SawBlock(ts: int)
      requires Valid()
      modifies this`lastTs
      ensures Valid() && lastTs == Some(ts)
    {
      lastTs := Some(ts);
    }

    // One decoded transaction from one of our addresses.
    method Record(s: Submission, from: string, ts: int)
      requires Valid()
      modifies this`rounds
      ensures Valid()
      ensures rounds == Recorded(old(rounds), s, Lower(from) == Lower(ourSubmit), Lower(from) == Lower(ourSig), ts,
                                 timing, CurrentRound())
      ensures Records(old(rounds), rounds, s, Lower(from) == Lower(ourSubmit), Lower(from) == Lower(ourSig), ts, timing,
                      CurrentRound())
    {
      hide Bounded, Judged, Rids, Distinct, Touched, Opening, Records;
      RecordedMeans(rounds, s, Lower(from) == Lower(ourSubmit), Lower(from) == Lower(ourSig), ts, timing,
                    CurrentRound());
      var frm := Lower(from);
      if s.kind.Submit1? && frm == Lower(ourSubmit) {
        Touch(s.roundId, Committed(timing, s, ts));
      } else if s.kind.Submit2? && frm == Lower(ourSubmit) {
        Touch(s.roundId, Revealed(timing, s, ts));
      } else if s.kind.Signatures? && frm == Lower(ourSig) {
        Touch(s.roundId, Signed());
        if s.fdcRound.Some? { Touch(s.fdcRound.value, FdcSigned()); }
      } else {
        Touch(s.roundId, Unchanged());
      }
      if s.kind.Submit2? && frm == Lower(ourSubmit) && s.fdcRound.Some? { Touch(s.fdcRound.value, Bitvoted()); }
    }

    method RecordFdcRequest(rid: int)
      requires Valid()
      modifies this`rounds
      ensures Valid() && rounds == Touched(old(rounds), rid, CurrentRound(), Requested())
    {
      Touch(rid, Requested());
    }

    method RecordRoundFu(rid: int)
      requires Valid()
      modifies this`rounds
      ensures Valid() && rounds == Touched(old(rounds), rid, CurrentRound(), FastUpdated())
    {
      Touch(rid, FastUpdated());
    }

    method RecordFastUpdate(ts: int)
      requires Valid()
      modifies this`fuEvents
      ensures Valid() && fuEvents == Pushed(old(fuEvents), ts, FAST_UPDATES_CAP)
    {
      fuEvents := Pushed(fuEvents, ts, FAST_UPDATES_CAP);
    }

    // The first half of _finalize: the checks, then the scores and their tally.
    method Verdict(rs: RoundState, ts: int) returns (r: RoundState)
      requires InFlight(rs)
      ensures VerdictOn(commitHash, score, rs, ts, r) && Judged(r)
    {
      hide Judgement, Judged, TallyOf, InFlight;
      r := Judge(commitHash, rs);
      VerdictIsJudged(commitHash, rs);
      var scores := score(rs);
      r := r.(scores := scores, tally := if scores != [] then Some(TallyOf(rs.id, ts, scores)) else None);
      ScoringKeepsJudged(Judgement(commitHash, rs), r);
    }

    method Finalize(rs: RoundState, ts: int) returns (r: RoundState)
      requires Valid() && InFlight(rs)
      modifies this`finalized, this`lastRoundFinalized, this`iqrHistory, this`iqrRids, this`emitted
      ensures Valid() && VerdictOn(commitHash, score, rs, ts, r)
      ensures emitted == old(emitted) + [r] && lastRoundFinalized == Some(rs.id)
      ensures iqrHistory == if r.tally.Some? && r.tally.value.rid !in Rids(old(iqrHistory))
                            then Pushed(old(iqrHistory), r.tally.value, HISTORY_CAP) else old(iqrHistory)
    {
      hide Bounded, Rids, Distinct, Judged, Pushed, LastOf, VerdictOn;
      r := Verdict(rs, ts);
      if r.tally.Some? { var isNew := RememberTally(r.tally.value); }
      PushedIsLast(emitted, r, window);
      finalized, emitted, lastRoundFinalized := Pushed(finalized, r, window), emitted + [r], Some(rs.id);
    }

    // Taking one due round out.
    method Retire(rid: int, now: int, ghost before: map<int, RoundState>,
                  done: seq<RoundState>) returns (r: seq<RoundState>)
      requires Valid() && rid in rounds && rid in before && rounds[rid] == before[rid]
      requires Verdicts(commitHash, score, before, now, done)
      modifies this`rounds, this`finalized, this`lastRoundFinalized, this`iqrHistory, this`iqrRids, this`emitted
      ensures Valid() && rounds == old(rounds) - {rid} && done <= r && emitted == old(emitted) + r[|done|..]
      ensures Verdicts(commitHash, score, before, now, r)
      ensures IdsOf(r) == IdsOf(done) + if StartOf(timing, rid) >= observeStart then [rid] else []
    {
      hide Bounded, Judged, Rids, Distinct, Pushed, LastOf, VerdictOn, InFlight, StartOf, IdsOf, Verdicts;
      HeldRound(rounds, rid);
      RemovalIsBounded(rounds, rid);
      var rs := rounds[rid];
      rounds, r := rounds - {rid}, done;
      if StartOf(timing, rid) >= observeStart {
        var judged := Finalize(rs, now);
        OneMoreVerdict(commitHash, score, before, now, done, judged, rs);
        r := done + [judged];
      }
    }

    // Every due round is taken out; those begun before we watched are dropped, the others are judged in order.
    method FinalizeDue(now: int) returns (done: seq<RoundState>)
      requires Valid()
      modifies this`rounds, this`finalized, this`lastRoundFinalized, this`iqrHistory, this`iqrRids, this`emitted
      ensures Valid() && emitted == old(emitted) + done
      ensures rounds == Left(old(rounds), Sorted(old(rounds).Keys), timing, now)
      ensures IdsOf(done) == DueIds(timing, Sorted(old(rounds).Keys), now, observeStart)
      ensures Verdicts(commitHash, score, old(rounds), now, done)
    {
      hide Bounded, Judged, Rids, Distinct, Pushed, LastOf, VerdictOn, InFlight, IsDue, StartOf, Left, IdsOf, DueIds,
        Verdicts;
      ghost var before := rounds;
      var ids := Sorted(rounds.Keys);
      SortedIncreases(rounds.Keys);
      done := [];
      LeftNone(before, timing, now);
      NoVerdicts(commitHash, score, before, now, timing, observeStart);
      assert ids[..0] == [];
      for i := 0 to |ids|
        invariant Valid() && emitted == old(emitted) + done
        invariant rounds == Left(before, ids[..i], timing, now) && Bounded(before)
        invariant IdsOf(done) == DueIds(timing, ids[..i], now, observeStart)
        invariant Verdicts(commitHash, score, before, now, done)
      {
        var rid := ids[i];
        LeftStep(before, ids, i, timing, now);
        DueStep(timing, ids, i, now, observeStart);
        if IsDue(timing, rid, now) { done := Retire(rid, now, before, done); }
      }
      assert ids[..|ids|] == ids;
    }
  }

  // What finalize_due takes out: the due rounds that count,
  lemma {:induction false} DueIsExact(t: Timing, ids: seq<int>, now: int, observeStart: int, id: int)
    ensures id in DueIds(t, ids, now, observeStart) <==>
              id in ids && IsDue(t, id, now) && StartOf(t, id) >= observeStart
  {
    if ids != [] {
      var init, last := ids[..|ids| - 1], ids[|ids| - 1];
      DueIsExact(t, init, now, observeStart, id);
      assert id in ids <==> id in init || id == last;
    }
  }

  // in increasing order,
  lemma {:induction false} DueAscends(t: Timing, ids: seq<int>, now: int, observeStart: int)
    requires Increasing(ids)
    ensures Increasing(DueIds(t, ids, now, observeStart))
  {
    if ids != [] {
      var init, last := ids[..|ids| - 1], ids[|ids| - 1];
      DueAscends(t, init, now, observeStart);
      var due := DueIds(t, init, now, observeStart);
      forall i | 0 <= i < |due|
        ensures due[i] < last
      {
        DueIsExact(t, init, now, observeStart, due[i]);
      }
    }
  }

  // and what it leaves: every round that is not due, untouched.
  lemma {:induction false} NothingDueIsLeft(rounds: map<int, RoundState>, t: Timing, now: int)
    ensures forall id :: id in Left(rounds, Sorted(rounds.Keys), t, now) <==> id in rounds && !IsDue(t, id, now)
    ensures forall id :: id in Left(rounds, Sorted(rounds.Keys), t, now) ==>
              Left(rounds, Sorted(rounds.Keys), t, now)[id] == rounds[id]
  {}

  // --- Aggregates --------------------------------------------------------------------------------------------

  datatype Aggregates = Aggregates(
    window: nat, trailingClean: nat, complete: nat, missingSubmit1: nat, missingSubmit2: nat, offences: nat,
    offWindow: nat, signatures: nat, fdcRequestRounds: nat, fdcParticipated: nat, fdcMissing: nat)

  predicate MissedReveal(rs: RoundState) { rs.submit1Seen && !rs.submit2Seen }
  predicate OffWindow(rs: RoundState) { (rs.submit1Seen && !rs.submit1Ontime) || (rs.submit2Seen && !rs.submit2Ontime) }
  predicate NoCommitSeen(rs: RoundState) { !rs.submit1Seen }
  predicate Offending(rs: RoundState) { rs.offence }
  predicate SignatureSeen(rs: RoundState) { rs.sigSeen }
  predicate Participated(rs: RoundState) { FdcExpected(rs) && rs.bitvoteSeen && !rs.fdcGap }
  predicate Gap(rs: RoundState) { rs.fdcGap }
  ghost predicate Faulty(rs: RoundState) { exists i :: i in rs.issues && i != NoBitvote }

  // What the counts are of, by the issues of a judged round.
  lemma CountedExactly(commitHash: CommitHash, rs: RoundState)
    ensures var r := Judgement(commitHash, rs);
            && (NoCommitSeen(r) <==> NoCommit in r.issues)
            && (MissedReveal(r) <==> RevealMissing in r.issues)
            && (r.submit2Seen <==> RevealMissing !in r.issues && NoReveal !in r.issues)
            && (OffWindow(r) <==> CommitOffWindow in r.issues || RevealOffWindow in r.issues)
            && (Offending(r) <==> RevealMissing in r.issues || Mismatch in r.issues)
            && (Gap(r) <==> NoBitvote in r.issues)
            && (FdcExpected(r) <==> 0 < rs.fdcRequests)
            && (Participated(r) <==> 0 < rs.fdcRequests && NoBitvote !in r.issues)
            && (SignatureSeen(r) <==> rs.sigSeen)
  {
    hide Mismatched, Complaints;
    var r := Judgement(commitHash, rs);
    VerdictIsJudged(commitHash, rs);
    SameMarks(commitHash, rs);
    hide Judgement;
    assert forall i :: i in r.issues <==> Raised(commitHash, rs, i);
    assert NoCommit in r.issues <==> !rs.submit1Seen;
    assert RevealMissing in r.issues <==> rs.submit1Seen && !rs.submit2Seen;
    assert NoReveal in r.issues <==> !rs.submit1Seen && !rs.submit2Seen;
  }

  lemma SameMarks(commitHash: CommitHash, rs: RoundState)
    ensures var r := Judgement(commitHash, rs);
            && r.issues == Complaints(commitHash, rs) && r.sigSeen == rs.sigSeen && r.fdcRequests == rs.fdcRequests
            && r.submit1Seen == rs.submit1Seen && r.submit2Seen == rs.submit2Seen && r.bitvoteSeen == rs.bitvoteSeen
            && r.submit1Ontime == rs.submit1Ontime && r.submit2Ontime == rs.submit2Ontime
  {
    hide Complaints, Mismatched;
  }

  // Clean rounds at the newest end.
  ghost predicate Trailing(w: seq<RoundState>, n: nat) {
    n <= |w| && (forall i :: |w| - n <= i < |w| ==> Clean(w[i])) && (n < |w| ==> !Clean(w[|w| - n - 1]))
  }

  method Aggregate(w: seq<RoundState>) returns (a: Aggregates)
    ensures Trailing(w, a.trailingClean)
    ensures a == Aggregates(|w|, a.trailingClean, Count(w, Clean), Count(w, NoCommitSeen), Count(w, MissedReveal),
                            Count(w, Offending), Count(w, OffWindow), Count(w, SignatureSeen), Count(w, FdcExpected),
                            Count(w, Participated), Count(w, Gap))
  {
    hide Clean;
    var trailing := 0;
    while trailing < |w| && Clean(w[|w| - trailing - 1])
      invariant trailing <= |w| && forall i :: |w| - trailing <= i < |w| ==> Clean(w[i])
    {
      trailing := trailing + 1;
    }
    a := Aggregates(|w|, trailing, Count(w, Clean), Count(w, NoCommitSeen), Count(w, MissedReveal), Count(w, Offending),
                    Count(w, OffWindow), Count(w, SignatureSeen), Count(w, FdcExpected), Count(w, Participated),
                    Count(w, Gap));
  }

  // Two properties that split a third split its count.
  lemma {:induction false} CountSplits<T>(s: seq<T>, p: T -> bool, q: T -> bool, r: T -> bool)
    requires forall x :: x in s ==> (p(x) <==> q(x) || r(x)) && !(q(x) && r(x))
    ensures Count(s, p) == Count(s, q) + Count(s, r)
  {
    if s != [] { CountSplits(s[..|s| - 1], p, q, r); }
  }

  // Over judged rounds: every round with requests was taken part in or missed.
  lemma FdcAddsUp(w: seq<RoundState>)
    requires forall rs :: rs in w ==> Judged(rs)
    ensures Count(w, FdcExpected) == Count(w, Participated) + Count(w, Gap)
  {
    CountSplits(w, FdcExpected, Participated, Gap);
  }

  // Every judged round is clean or has an FTSO issue, never both.
  lemma CleanOrFaulty(w: seq<RoundState>)
    requires forall rs :: rs in w ==> Judged(rs)
    ensures Count(w, Clean) + Count(w, rs => Faulty(rs)) == |w|
  {
    CountSplits(w, rs => true, Clean, rs => Faulty(rs));
    CountAll(w);
  }

  lemma {:induction false} CountAll(w: seq<RoundState>)
    ensures Count(w, rs => true) == |w|
  {
    if w != [] { CountAll(w[..|w| - 1]); }
  }
}
