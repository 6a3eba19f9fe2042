/**
 The resolve coalescer's tables and its lock regions.

 Every function of `Tables` is the effect of one lock region of the program; the class
 performs the same regions on its own fields, and `CoalescerProtocol` interleaves them.
 A broadcast channel is an index into `channels`; the slot of a key in `inflight` names
 the channel its running fetch will publish on.
 */
module Coalescer {
  import opened Common
  import opened ArtworkTypes

  /** A broadcast channel: its sender is live, has sent the one outcome, or was dropped. */
  datatype Channel = Open | Published(outcome: Outcome) | Closed

  datatype MemoEntry = MemoEntry(outcome: Outcome, expiresAt: nat)

  datatype Tables = Tables(memo: map<Key, MemoEntry>, inflight: map<Key, nat>, channels: seq<Channel>)

  ghost predicate WellFormed(t: Tables) {
    forall k :: k in t.inflight ==> t.inflight[k] < |t.channels|
  }

  predicate Fresh(memo: map<Key, MemoEntry>, k: Key, now: nat) {
    k in memo && now < memo[k].expiresAt
  }

  /** Fast path: a fresh entry answers, a stale one is evicted on sight. */
  function CheckMemo(t: Tables, k: Key, now: nat): (Tables, Option<Outcome>) {
    if Fresh(t.memo, k, now) then (t, Some(t.memo[k].outcome))
    else (t.(memo := t.memo - {k}), None)
  }

  /** Miss path: join the running fetch, or claim the key's slot with a new channel. */
  function JoinOrClaim(t: Tables, k: Key): (Tables, Option<nat>) {
    if k in t.inflight then (t, Some(t.inflight[k]))
    else (t.(inflight := t.inflight[k := |t.channels|], channels := t.channels + [Open]), None)
  }

  function Memoise(t: Tables, k: Key, outcome: Outcome, expiresAt: nat): Tables {
    t.(memo := t.memo[k := MemoEntry(outcome, expiresAt)])
  }

  /**
   The guard's drop. It frees whatever slot the key has at that moment and publishes on
   that slot's channel, or leaves the channel closed when no outcome was set.
   */
  function DropGuard(t: Tables, k: Key, outcome: Option<Outcome>): Tables
    requires WellFormed(t)
  {
    if k !in t.inflight then t
    else
      var end := match outcome case Some(o) => Published(o) case None => Closed;
      t.(inflight := t.inflight - {k}, channels := t.channels[t.inflight[k] := end])
  }

  function Forget(t: Tables, k: Key): Tables {
    t.(memo := t.memo - {k})
  }

  function Clear(t: Tables): Tables {
    t.(memo := map[])
  }

  /** The coalescer object shared by the request handlers. */
  class ArtworkResolveCoalescer {
    var memo: map<Key, MemoEntry>
    var inflight: map<Key, nat>
    var channels: seq<Channel>
    const memoTtl: nat

    ghost function View(): Tables
      reads this
    {
      Tables(memo, inflight, channels)
    }

    ghost predicate Valid()
      reads this
    {
      WellFormed(View())
    }

    constructor (ttl: nat)
      ensures Valid() && memoTtl == ttl
      ensures View() == Tables(map[], map[], [])
    {
      memo, inflight, channels, memoTtl := map[], map[], [], ttl;
    }

    method LookUp(k: Key, now: nat) returns (hit: Option<Outcome>)
      requires Valid()
      modifies this`memo
      ensures Valid() && (View(), hit) == CheckMemo(old(View()), k, now)
    {
      if k in memo {
        if now < memo[k].expiresAt {
          return Some(memo[k].outcome);
        }
        memo := memo - {k};
      }
      assert old(memo) - {k} == memo;
      hit := None;
    }

    method Enter(k: Key) returns (joined: Option<nat>)
      requires Valid()
      modifies this`inflight, this`channels
      ensures Valid() && (View(), joined) == JoinOrClaim(old(View()), k)
    {
      if k in inflight {
        return Some(inflight[k]);
      }
      inflight := inflight[k := |channels|];
      channels := channels + [Open];
      joined := None;
    }

    method Insert(k: Key, outcome: Outcome, now: nat)
      requires Valid()
      modifies this`memo
      ensures Valid() && View() == Memoise(old(View()), k, outcome, now + memoTtl)
    {
      memo := memo[k := MemoEntry(outcome, now + memoTtl)];
    }

    method Release(k: Key, outcome: Option<Outcome>)
      requires Valid()
      modifies this`inflight, this`channels
      ensures Valid() && View() == DropGuard(old(View()), k, outcome)
    {
      if k in inflight {
        var tx := inflight[k];
        inflight := inflight - {k};
        match outcome {
          case Some(o) => channels := channels[tx := Published(o)];
          case None => channels := channels[tx := Closed];
        }
      }
    }

    method ForgetKey(k: Key)
      requires Valid()
      modifies this`memo
      ensures Valid() && View() == Forget(old(View()), k)
    {
      memo := memo - {k};
    }

    method ClearAll()
      requires Valid()
      modifies this`memo
      ensures Valid() && View() == Clear(old(View()))
    {
      memo := map[];
    }

    /**
     One whole call that no other task interleaves with. `fetched` is what the fetcher
     would answer if it were run, `ran` says whether it was.
     */
    method ResolveAlone(k: Key, startedAt: nat, fetched: Outcome, finishedAt: nat)
      returns (outcome: Outcome, ran: bool)
      requires Valid() && k !in inflight
      requires startedAt <= finishedAt
      modifies this
      ensures Valid()
      ensures ran <==> !Fresh(old(memo), k, startedAt)
      ensures outcome == if ran then fetched else old(memo)[k].outcome
      ensures inflight == old(inflight)
      ensures memo == if ran then old(memo)[k := MemoEntry(fetched, finishedAt + memoTtl)] else old(memo)
      ensures ran ==> channels == old(channels) + [Published(fetched)]
    {
      var hit := LookUp(k, startedAt);
      if hit.Some? {
        return hit.value, false;
      }
      var joined := Enter(k);
      Insert(k, fetched, finishedAt);
      Release(k, Some(fetched));
      outcome, ran := fetched, true;
    }
  }
}
