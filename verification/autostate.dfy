// clif/autostate.py: what the daemon remembers between cycles.
module AutoStates {
  // Per stream: when an epoch was first seen active, and until when it is left alone.
  datatype Stream = Stream(firstSeen: map<int, int>, cooldownUntil: map<int, int>)

  function CooldownUntil(s: Stream, epoch: int): int {
    if epoch in s.cooldownUntil then s.cooldownUntil[epoch] else 0
  }

  // The stream once these epochs, and no others, are active: an epoch that left is forgotten with its cooldown.
  function Observed(s: Stream, epochs: seq<int>, now: int): Stream {
    Stream(
      map e | e in epochs :: if e in s.firstSeen then s.firstSeen[e] else now,
      map e | e in s.cooldownUntil && (e in epochs || e !in s.firstSeen) :: s.cooldownUntil[e])
  }

  function Pruned(s: Stream, now: int): Stream {
    s.(cooldownUntil := map e | e in s.cooldownUntil && s.cooldownUntil[e] > now :: s.cooldownUntil[e])
  }

  lemma Forgetting(s: Stream, epochs: seq<int>, now: int, seen: map<int, int>, gone: set<int>)
    requires forall e :: e in seen <==> e in s.firstSeen || e in epochs
    requires forall e :: e in seen ==> seen[e] == if e in s.firstSeen then s.firstSeen[e] else now
    requires gone == set e | e in seen && e !in epochs
    ensures Stream(seen - gone, s.cooldownUntil - gone) == Observed(s, epochs, now)
    ensures gone == set e | e in s.firstSeen && e !in epochs
  {
    var r := Observed(s, epochs, now);
    forall e
      ensures e in gone <==> e in s.firstSeen && e !in epochs
      ensures e in seen - gone <==> e in r.firstSeen
    {
      assert e in r.firstSeen <==> e in epochs;
    }
    var kept := seen - gone;
    assert kept.Keys == r.firstSeen.Keys;
    assert forall e :: e in kept ==> kept[e] == r.firstSeen[e];
    assert kept == r.firstSeen;
    assert s.cooldownUntil - gone == r.cooldownUntil;
  }

  predicate Overdue(s: Stream, epoch: int, now: int, staleAfter: int)
    requires epoch in s.firstSeen
  {
    now - s.firstSeen[epoch] > staleAfter || CooldownUntil(s, epoch) > now
  }

  // An epoch is overdue once it has been active for longer than allowed, or while the end noted for its cooldown is
  // still to come.
  lemma OverdueExactly(s: Stream, epoch: int, now: nat, staleAfter: int)
    requires epoch in s.firstSeen
    ensures Overdue(s, epoch, now, staleAfter) <==>
              s.firstSeen[epoch] + staleAfter < now || exists t :: t > now && (epoch, t) in s.cooldownUntil.Items
  {
    if epoch in s.cooldownUntil { assert (epoch, s.cooldownUntil[epoch]) in s.cooldownUntil.Items; }
  }

  class AutoState {
    var streams: map<string, Stream>

    constructor ()
      ensures streams == map[]
    {
      streams := map[];
    }

    function At(key: string): Stream
      reads this
    {
      if key in streams then streams[key] else Stream(map[], map[])
    }

    method Observe(key: string, claimEpochs: seq<int>, now: int) returns (gone: set<int>)
      modifies this
      ensures streams == old(streams)[key := Observed(old(At(key)), claimEpochs, now)]
      ensures gone == set e | e in old(At(key)).firstSeen && e !in claimEpochs
    {
      var s := At(key);
      var seen := s.firstSeen;
      for i := 0 to |claimEpochs|
        invariant forall e :: e in seen <==> e in s.firstSeen || e in claimEpochs[..i]
        invariant forall e :: e in seen ==> seen[e] == if e in s.firstSeen then s.firstSeen[e] else now
      {
        if claimEpochs[i] !in seen { seen := seen[claimEpochs[i] := now]; }
      }
      assert claimEpochs[..|claimEpochs|] == claimEpochs;
      gone := set e | e in seen && e !in claimEpochs;
      Forgetting(s, claimEpochs, now, seen, gone);
      streams := streams[key := Stream(seen - gone, s.cooldownUntil - gone)];
    }

    // The epoch is left alone until the cooldown is over; no other answer changes.
    method RecordTerminal(key: string, epoch: int, now: int, cooldownSec: int)
      modifies this
      ensures forall t :: InCooldown(key, epoch, t) <==> t < now + cooldownSec
      ensures forall k, e :: k != key || e != epoch ==> CooldownUntil(At(k), e) == CooldownUntil(old(At(k)), e)
      ensures forall k :: At(k).firstSeen == old(At(k)).firstSeen
    {
      var s := At(key);
      streams := streams[key := s.(cooldownUntil := s.cooldownUntil[epoch := now + cooldownSec])];
    }

    predicate InCooldown(key: string, epoch: int, now: int)
      reads this
    {
      CooldownUntil(At(key), epoch) > now
    }

    // Degraded while an epoch has been active for too long or sits in a cooldown.  What has expired is dropped, which
    // changes no answer from now on.
    method Evaluate(now: nat, staleAfter: int) returns (degraded: bool)
      modifies this
      ensures degraded <==>
                exists k, e :: k in old(streams) && e in old(streams)[k].firstSeen &&
                               Overdue(old(streams)[k], e, now, staleAfter)
      ensures forall k, e, t :: now <= t ==> (InCooldown(k, e, t) <==> old(InCooldown(k, e, t)))
      ensures forall k, e :: CooldownUntil(At(k), e) in {0, CooldownUntil(old(At(k)), e)}
      ensures forall k, e :: e in At(k).cooldownUntil ==> At(k).cooldownUntil[e] > now
      ensures forall k :: At(k).firstSeen == old(At(k)).firstSeen
    {
      streams := map k | k in streams :: Pruned(streams[k], now);
      degraded := exists k | k in streams ::
        exists e | e in streams[k].firstSeen :: Overdue(streams[k], e, now, staleAfter);
      if degraded {
        ghost var k, e :| k in streams && e in streams[k].firstSeen && Overdue(streams[k], e, now, staleAfter);
        assert Overdue(old(streams)[k], e, now, staleAfter);
      } else {
        forall k, e | k in old(streams) && e in old(streams)[k].firstSeen
          ensures !Overdue(old(streams)[k], e, now, staleAfter)
        {
          assert k in streams && !Overdue(streams[k], e, now, staleAfter);
        }
      }
    }
  }

  // Pruning changes no answer about a cooldown that still runs.
  lemma PruningKeepsCooldowns(s: Stream, epoch: int, now: nat, later: int)
    requires now <= later
    ensures CooldownUntil(Pruned(s, now), epoch) > later <==> CooldownUntil(s, epoch) > later
  {}

  // A running cooldown is forgotten exactly with an epoch that was active before and is not any more.
  lemma ForgottenExactly(s: Stream, active: seq<int>, now: int, epoch: int, later: nat)
    requires CooldownUntil(s, epoch) > later
    ensures CooldownUntil(Observed(s, active, now), epoch) > later <==> epoch in active || epoch !in s.firstSeen
  {}
}
