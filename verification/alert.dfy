// clif/alert.py, decide: when a severity reading pages somebody.
module Alerts {
  import opened Hex

  datatype Level = OK | WARN | CRIT

  function Order(l: Level): nat {
    match l
    case OK => 0
    case WARN => 1
    case CRIT => 2
  }

  // What is kept between readings; a missing entry reads as in EMPTY.
  datatype State = State(level: Level, lastSent: int, pending: Option<Level>, pendingN: nat)

  const EMPTY := State(OK, 0, None, 0)

  datatype Kind = Alert | Update | Resolved | Reminder

  // None when nothing is sent.
  datatype Decision = Decision(sent: Option<Kind>, state: State)

  datatype Reading = Reading(level: Level, now: int)

  function Decide(s: State, r: Reading, repeatSec: int, confirm: int): Decision {
    var pendingN := if s.pending == Some(r.level) then s.pendingN + 1 else 1;
    var confirmed := if pendingN >= confirm then r.level else s.level;
    var sent :=
      if confirmed != s.level then
        Some(if Order(confirmed) > Order(s.level) then Alert else if confirmed == OK then Resolved else Update)
      else if Order(confirmed) >= Order(WARN) && r.now - s.lastSent >= repeatSec then Some(Reminder)
      else None;
    Decision(sent, State(confirmed, if sent.Some? then r.now else s.lastSent, Some(r.level), pendingN))
  }

  // The state after a run of readings from the start.
  function Run(rs: seq<Reading>, repeatSec: int, confirm: int): State {
    if rs == [] then EMPTY
    else Decide(Run(rs[..|rs| - 1], repeatSec, confirm), rs[|rs| - 1], repeatSec, confirm).state
  }

  // What the i-th reading sent.
  function SentAt(rs: seq<Reading>, i: nat, repeatSec: int, confirm: int): Option<Kind>
    requires i < |rs|
  {
    Decide(Run(rs[..i], repeatSec, confirm), rs[i], repeatSec, confirm).sent
  }

  // --- The trace specification -------------------------------------------------------------------------------

  function Needed(confirm: int): nat {
    if confirm < 1 then 1 else confirm
  }

  // The readings just before k agree, as many as it takes.
  ghost predicate Confirms(rs: seq<Reading>, k: nat, confirm: int) {
    Needed(confirm) <= k <= |rs| && forall i :: k - Needed(confirm) <= i < k ==> rs[i].level == rs[k - 1].level
  }

  // The level of the most recent such readings, or OK if there are none.
  ghost predicate LevelIs(rs: seq<Reading>, confirm: int, l: Level) {
    || (l == OK && forall k :: 0 <= k <= |rs| ==> !Confirms(rs, k, confirm))
    || (exists k :: 0 < k <= |rs| && Confirms(rs, k, confirm) && rs[k - 1].level == l &&
                    forall j :: k < j <= |rs| ==> !Confirms(rs, j, confirm))
  }

  // The end of the run is n equal readings and no more.
  ghost predicate Ends(rs: seq<Reading>, l: Level, n: nat) {
    && 1 <= n <= |rs| && (forall i :: |rs| - n <= i < |rs| ==> rs[i].level == l)
    && (n < |rs| ==> rs[|rs| - n - 1].level != l)
  }

  lemma {:induction false} PendingIsTheEnd(rs: seq<Reading>, repeatSec: int, confirm: int)
    ensures rs == [] ==> Run(rs, repeatSec, confirm) == EMPTY
    ensures rs != [] ==> var s := Run(rs, repeatSec, confirm);
                         s.pending == Some(rs[|rs| - 1].level) && Ends(rs, rs[|rs| - 1].level, s.pendingN)
  {
    if rs != [] { PendingIsTheEnd(rs[..|rs| - 1], repeatSec, confirm); }
  }

  lemma EndConfirms(rs: seq<Reading>, l: Level, n: nat, confirm: int)
    requires Ends(rs, l, n)
    ensures Confirms(rs, |rs|, confirm) <==> n >= confirm
  {
    if n < Needed(confirm) <= |rs| { assert rs[|rs| - n - 1].level != l; }
  }

  lemma EarlierConfirms(rs: seq<Reading>, k: nat, confirm: int)
    requires rs != [] && k < |rs|
    ensures Confirms(rs, k, confirm) <==> Confirms(rs[..|rs| - 1], k, confirm)
  {}

  // The stored level is the one that the trace prescribes.
  lemma {:induction false} StoredLevel(rs: seq<Reading>, repeatSec: int, confirm: int)
    ensures LevelIs(rs, confirm, Run(rs, repeatSec, confirm).level)
  {
    if rs != [] {
      var init := rs[..|rs| - 1];
      StoredLevel(init, repeatSec, confirm);
      PendingIsTheEnd(rs, repeatSec, confirm);
      EndConfirms(rs, rs[|rs| - 1].level, Run(rs, repeatSec, confirm).pendingN, confirm);
      forall k: nat | k < |rs|
        ensures Confirms(rs, k, confirm) <==> Confirms(init, k, confirm)
      {
        EarlierConfirms(rs, k, confirm);
      }
      NewLevel(rs, confirm, Run(init, repeatSec, confirm).level);
    }
  }

  lemma NewLevel(rs: seq<Reading>, confirm: int, before: Level)
    requires rs != [] && LevelIs(rs[..|rs| - 1], confirm, before)
    requires forall k: nat :: k < |rs| ==> (Confirms(rs, k, confirm) <==> Confirms(rs[..|rs| - 1], k, confirm))
    ensures LevelIs(rs, confirm, if Confirms(rs, |rs|, confirm) then rs[|rs| - 1].level else before)
  {
    var init := rs[..|rs| - 1];
    hide Confirms;
    if !Confirms(rs, |rs|, confirm) {
      if k :| 0 < k <= |init| && Confirms(init, k, confirm) && init[k - 1].level == before &&
              forall j :: k < j <= |init| ==> !Confirms(init, j, confirm) {
        assert Confirms(rs, k, confirm) && rs[k - 1].level == before;
        assert forall j :: k < j <= |rs| ==> !Confirms(rs, j, confirm);
      } else {
        assert forall k :: 0 <= k <= |rs| ==> !Confirms(rs, k, confirm);
      }
    }
  }

  // The last time something was sent, or 0.
  function LastSend(rs: seq<Reading>, repeatSec: int, confirm: int): int {
    if rs == [] then 0
    else if SentAt(rs, |rs| - 1, repeatSec, confirm).Some? then rs[|rs| - 1].now
    else LastSend(rs[..|rs| - 1], repeatSec, confirm)
  }

  lemma {:induction false} StoredSend(rs: seq<Reading>, repeatSec: int, confirm: int)
    ensures Run(rs, repeatSec, confirm).lastSent == LastSend(rs, repeatSec, confirm)
  {
    if rs != [] { StoredSend(rs[..|rs| - 1], repeatSec, confirm); }
  }

  // Something is sent at a reading exactly when the confirmed level changes there, or stays bad long enough after the
  // previous message; the kind says which way it went.
  lemma {:induction false} MessagesFollowTheTrace(rs: seq<Reading>, i: nat, repeatSec: int, confirm: int)
    requires i < |rs|
    ensures var before, after := Run(rs[..i], repeatSec, confirm).level, Run(rs[..i + 1], repeatSec, confirm).level;
            && LevelIs(rs[..i], confirm, before) && LevelIs(rs[..i + 1], confirm, after)
            && (SentAt(rs, i, repeatSec, confirm).Some? <==>
                before != after || (after != OK && rs[i].now >= LastSend(rs[..i], repeatSec, confirm) + repeatSec))
            && (SentAt(rs, i, repeatSec, confirm) == Some(Alert) <==>
                (before == OK != after) || (before == WARN && after == CRIT))
            && (SentAt(rs, i, repeatSec, confirm) == Some(Update) <==> before == CRIT && after == WARN)
            && (SentAt(rs, i, repeatSec, confirm) == Some(Resolved) <==> before != OK == after)
            && (SentAt(rs, i, repeatSec, confirm) == Some(Reminder) <==>
                before == after != OK && rs[i].now >= LastSend(rs[..i], repeatSec, confirm) + repeatSec)
  {
    StoredLevel(rs[..i], repeatSec, confirm);
    StoredLevel(rs[..i + 1], repeatSec, confirm);
    StoredSend(rs[..i], repeatSec, confirm);
    assert rs[..i + 1][..i] == rs[..i];
  }

  // The prescription leaves no choice.
  lemma {:induction false} LevelIsUnique(rs: seq<Reading>, confirm: int, l: Level, m: Level)
    requires LevelIs(rs, confirm, l) && LevelIs(rs, confirm, m)
    ensures l == m
  {
    hide Confirms;
  }
}
