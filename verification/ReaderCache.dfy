/**
 The shard-reader cache of the search registry: an LRU over an explicit clock, filled by
 threads that look a shard up, open it without the lock, and come back to insert it.
 */
module ReaderCache {
  import opened Prelude

  type Id = nat
  type Reader = nat

  // ----- Recency, from the history of touches --------------------------------------------------

  /** One-based position of the last touch of `id`, 0 if it was never touched. */
  function LastTouch(history: seq<Id>, id: Id): (k: nat)
    ensures k <= |history|
    ensures k > 0 ==> history[k - 1] == id
  {
    if history == [] then 0
    else if history[|history| - 1] == id then |history|
    else LastTouch(history[..|history| - 1], id)
  }

  function Touched(history: seq<Id>): set<Id> {
    set id | id in history
  }

  /** Everything touched after some member of `s` is in `s`. */
  ghost predicate MostRecent(s: set<Id>, history: seq<Id>) {
    && s <= Touched(history)
    && forall a, b :: a in s && b in history && b !in s ==> LastTouch(history, b) < LastTouch(history, a)
  }

  /** `s` is exactly the `n` most recently touched distinct ids. */
  ghost predicate IsRecent(s: set<Id>, history: seq<Id>, n: nat) {
    MostRecent(s, history) && |s| == (if n < |Touched(history)| then n else |Touched(history)|)
  }

  /** The description fixes the set: recency decides everything. */
  lemma RecentIsUnique(s: set<Id>, t: set<Id>, history: seq<Id>, n: nat)
    requires IsRecent(s, history, n) && IsRecent(t, history, n)
    ensures s == t
  {
    if !(s <= t) {
      var a :| a in s && a !in t;
      forall b | b in t
        ensures b in s
      {
        assert LastTouch(history, a) < LastTouch(history, b);
      }
      SubsetSize(t, s - {a});
      assert false;
    }
    SubsetSize(s, t);
  }

  lemma TouchMoves(history: seq<Id>, id: Id)
    ensures LastTouch(history + [id], id) == |history| + 1
    ensures forall b :: b != id ==> LastTouch(history + [id], b) == LastTouch(history, b)
    ensures Touched(history + [id]) == Touched(history) + {id}
  {
    assert (history + [id])[..|history|] == history;
  }

  lemma TouchKeepsMostRecent(s: set<Id>, history: seq<Id>, id: Id)
    requires MostRecent(s, history)
    ensures MostRecent(s + {id}, history + [id])
  {
    TouchMoves(history, id);
    assert forall b :: b in history + [id] <==> b in history || b == id;
  }

  lemma TouchHit(s: set<Id>, history: seq<Id>, n: nat, id: Id)
    requires IsRecent(s, history, n) && id in s
    ensures IsRecent(s, history + [id], n)
  {
    TouchMoves(history, id);
    TouchKeepsMostRecent(s, history, id);
    assert s + {id} == s && Touched(history) + {id} == Touched(history);
  }

  /** Dropping the least recently touched member keeps the most recent ones. */
  lemma EvictKeepsMostRecent(s: set<Id>, history: seq<Id>, victim: Id)
    requires MostRecent(s, history) && victim in s
    requires forall a :: a in s && a != victim ==> LastTouch(history, victim) < LastTouch(history, a)
    ensures MostRecent(s - {victim}, history)
  {
  }

  /** Size after inserting a missing id and evicting down to capacity. */
  lemma InsertSize(s: set<Id>, history: seq<Id>, n: nat, id: Id)
    requires IsRecent(s, history, n) && id !in s
    ensures var all := |Touched(history + [id])|;
      (if n < |s + {id}| then n else |s + {id}|) == (if n < all then n else all)
  {
    TouchMoves(history, id);
    SubsetSize(s, Touched(history));
    if |s| == |Touched(history)| {
      assert s == Touched(history);
    } else {
      SubsetSize(Touched(history), Touched(history) + {id});
    }
  }

  /** `used` has exactly these keys and holds the true time of each id's last touch. */
  ghost predicate Ticks(used: map<Id, nat>, keys: set<Id>, history: seq<Id>) {
    used.Keys == keys && forall id :: id in used ==> used[id] == LastTouch(history, id) && id in history
  }

  /** Dropping one id from both maps. */
  lemma DropBoth(shards: map<Id, Reader>, used: map<Id, nat>, history: seq<Id>, id: Id)
    requires id in shards && Ticks(used, shards.Keys, history)
    ensures Ticks(used - {id}, (shards - {id}).Keys, history)
    ensures (shards - {id}).Keys == shards.Keys - {id} && |shards - {id}| == |shards| - 1
    ensures Within(shards - {id}, shards)
  {
    assert (shards - {id}).Keys == shards.Keys - {id};
    assert (used - {id}).Keys == used.Keys - {id};
  }

  /** The cache by its contents alone: `used` says when, and the open readers are the most recent. */
  ghost predicate Recent(shards: map<Id, Reader>, used: map<Id, nat>, history: seq<Id>) {
    exists h :: h == history && Ticks(used, shards.Keys, h) && MostRecent(shards.Keys, h)
  }

  ghost predicate LeastRecent(shards: map<Id, Reader>, history: seq<Id>, victim: Id) {
    victim in shards && forall a :: a in shards && a != victim ==> LastTouch(history, victim) < LastTouch(history, a)
  }

  lemma WithinItself(a: map<Id, Reader>)
    ensures Within(a, a)
  {
  }

  lemma DropVictim(shards: map<Id, Reader>, used: map<Id, nat>, history: seq<Id>, victim: Id)
    requires Recent(shards, used, history) && LeastRecent(shards, history, victim)
    ensures Recent(shards - {victim}, used - {victim}, history)
    ensures |shards - {victim}| == |shards| - 1 && Within(shards - {victim}, shards)
  {
    EvictKeepsMostRecent(shards.Keys, history, victim);
    DropBoth(shards, used, history, victim);
  }

  /** Part way through an eviction down to `maxOpen`: the most recent of `was` are left. */
  ghost predicate Evicting(was: map<Id, Reader>, now: map<Id, Reader>, used: map<Id, nat>, history: seq<Id>, maxOpen: nat) {
    Recent(now, used, history) && Within(now, was) && (|now| == |was| || maxOpen <= |now| <= |was|)
  }

  lemma EvictsOn(was: map<Id, Reader>, now: map<Id, Reader>, used: map<Id, nat>, history: seq<Id>, victim: Id, maxOpen: nat)
    requires Evicting(was, now, used, history, maxOpen) && |now| > maxOpen && LeastRecent(now, history, victim)
    ensures Evicting(was, now - {victim}, used - {victim}, history, maxOpen)
  {
    DropVictim(now, used, history, victim);
  }

  // ----- The cache -----------------------------------------------------------------------------

  class OpenShards {
    var shards: map<Id, Reader>
    var used: map<Id, nat>
    var clock: nat
    /** Every touch so far, oldest first. */
    ghost var history: seq<Id>

    /** Both maps have the same keys, and `used` holds the true time of each id's last touch. */
    ghost predicate Clocked()
      reads this
    {
      clock == |history| && Ticks(used, shards.Keys, history)
    }

    ghost predicate Valid(maxOpen: nat)
      reads this
    {
      Clocked() && IsRecent(shards.Keys, history, maxOpen)
    }

    constructor ()
      ensures forall maxOpen: nat :: Valid(maxOpen)
      ensures shards == map[] && history == []
    {
      shards, used, clock, history := map[], map[], 0, [];
    }

    /** Note a use of an open shard. */
    method Touch(id: Id)
      requires id in shards && clock == |history|
      requires Ticks(used, shards.Keys, history) || Ticks(used, shards.Keys - {id}, history)
      modifies this`used, this`clock, this`history
      ensures Clocked() && history == old(history) + [id]
    {
      TouchMoves(history, id);
      clock := clock + 1;
      used := used[id := clock];
      history := history + [id];
    }

    /** The open shard with the smallest tick. */
    method Victim() returns (victim: Id)
      requires Clocked() && shards != map[]
      ensures LeastRecent(shards, history, victim)
    {
      var rest := used.Keys;
      victim :| victim in rest;
      rest := rest - {victim};
      while rest != {}
        invariant victim in used && rest <= used.Keys
        invariant forall a :: a in used && a !in rest ==> used[victim] <= used[a]
      {
        var id :| id in rest;
        if used[id] < used[victim] {
          victim := id;
        }
        rest := rest - {id};
      }
      forall a | a in shards && a != victim
        ensures LastTouch(history, victim) < LastTouch(history, a)
      {
        SameTouchSameId(history, victim, a);
      }
    }

    /** Drop the least recently used reader. */
    method EvictOne() returns (victim: Id)
      requires clock == |history| && Recent(shards, used, history) && shards != map[]
      modifies this`shards, this`used
      ensures LeastRecent(old(shards), history, victim)
      ensures shards == old(shards) - {victim} && used == old(used) - {victim}
    {
      victim := Victim();
      shards, used := shards - {victim}, used - {victim};
    }

    /** Drop least recently used readers until at most `maxOpen` remain. */
    method EvictToCapacity(maxOpen: nat)
      requires clock == |history| && Recent(shards, used, history)
      modifies this`shards, this`used
      ensures Recent(shards, used, history)
      ensures |shards| == (if maxOpen < |old(shards)| then maxOpen else |old(shards)|) && Within(shards, old(shards))
    {
      hide Recent, Within, LeastRecent;
      WithinItself(shards);
      while |shards| > maxOpen
        invariant Evicting(old(shards), shards, used, history, maxOpen)
        decreases |shards|
      {
        ghost var was, ticks := shards, used;
        var victim := EvictOne();
        EvictsOn(old(shards), was, ticks, history, victim, maxOpen);
      }
    }

    /** The fast path: a hit touches the shard and hands its reader out. */
    method Lookup(maxOpen: nat, id: Id) returns (r: Option<Reader>)
      requires Valid(maxOpen)
      modifies this`used, this`clock, this`history
      ensures Valid(maxOpen)
      ensures r == if id in shards then Some(shards[id]) else None
      ensures history == if id in shards then old(history) + [id] else old(history)
    {
      if id !in shards {
        return None;
      }
      TouchHit(shards.Keys, history, maxOpen, id);
      Touch(id);
      r := Some(shards[id]);
    }

    /**
     The slow path, after `reader` was opened without the lock: another thread may have
     inserted the shard meanwhile, and then its reader is preferred.
     */
    method Insert(maxOpen: nat, id: Id, reader: Reader) returns (r: Reader)
      requires Valid(maxOpen) && maxOpen >= 1
      modifies this
      ensures Valid(maxOpen) && history == old(history) + [id]
      ensures id in shards && shards[id] == r
      ensures r == if id in old(shards) then old(shards)[id] else reader
      ensures Within(shards, old(shards)[id := r])
    {
      if id in shards {
        TouchHit(shards.Keys, history, maxOpen, id);
        Touch(id);
        r := shards[id];
      } else {
        InsertMissing(maxOpen, id, reader);
        r := reader;
      }
    }

    method InsertMissing(maxOpen: nat, id: Id, reader: Reader)
      requires Valid(maxOpen) && maxOpen >= 1 && id !in shards
      modifies this
      ensures Valid(maxOpen) && history == old(history) + [id]
      ensures id in shards && Within(shards, old(shards)[id := reader])
    {
      hide MostRecent, Ticks, Within;
      InsertSize(shards.Keys, history, maxOpen, id);
      AddOpened(id, reader);
      EvictToCapacity(maxOpen);
      assert shards != map[];
      NewestStays(shards.Keys, history, id);
    }

    /** Put a newly opened reader in, before eviction. */
    method AddOpened(id: Id, reader: Reader)
      requires Clocked() && MostRecent(shards.Keys, history) && id !in shards
      modifies this
      ensures Clocked() && MostRecent(shards.Keys, history) && history == old(history) + [id]
      ensures shards == old(shards)[id := reader] && shards.Keys == old(shards).Keys + {id}
      ensures |shards| == |old(shards).Keys + {id}|
    {
      TouchKeepsMostRecent(shards.Keys, history, id);
      shards := shards[id := reader];
      Touch(id);
    }
  }

  lemma SameTouchSameId(history: seq<Id>, a: Id, b: Id)
    requires a in history && b in history && a != b
    ensures LastTouch(history, a) != LastTouch(history, b)
  {
    WasTouched(history, a);
  }

  lemma {:induction false} WasTouched(history: seq<Id>, a: Id)
    requires a in history
    ensures LastTouch(history, a) > 0
  {
    if history[|history| - 1] != a {
      var init := history[..|history| - 1];
      assert history == init + [history[|history| - 1]];
      WasTouched(init, a);
    }
  }

  /** `a` is a part of `b`: fewer shards, the same readers. */
  ghost predicate Within(a: map<Id, Reader>, b: map<Id, Reader>) {
    a.Keys <= b.Keys && forall id :: id in a ==> a[id] == b[id]
  }

  /** A non-empty most-recent set always holds the last id touched. */
  lemma NewestStays(s: set<Id>, history: seq<Id>, id: Id)
    requires MostRecent(s, history) && s != {} && history != [] && history[|history| - 1] == id
    ensures id in s
  {
    var a :| a in s;
    assert id !in s ==> LastTouch(history, id) < LastTouch(history, a);
  }
}
