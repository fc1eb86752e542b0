/** The expiring map behind sessions and login flows: reads hide what is too old, and a write
    sweeps it out. Times are milliseconds. */
module Expiring {
  import opened Wrappers

  /** What a store is made with: the age limit, and where a value keeps its creation time. */
  datatype Policy<!T> = Policy(maxAge: nat, created: T -> int)

  /** A value from the future counts as live: `duration_since` fails and the code says `true`. */
  predicate Live<T>(p: Policy<T>, value: T, now: int) {
    now < p.created(value) || now - p.created(value) < p.maxAge
  }

  function Look<T>(p: Policy<T>, entries: map<string, T>, id: string, now: int): Option<T> {
    if id in entries && Live(p, entries[id], now) then Some(entries[id]) else None
  }

  function Sweep<T>(p: Policy<T>, entries: map<string, T>, now: int): map<string, T> {
    map id | id in entries && Live(p, entries[id], now) :: entries[id]
  }

  function Stored<T>(p: Policy<T>, entries: map<string, T>, id: string, value: T, now: int): map<string, T> {
    Sweep(p, entries, now)[id := value]
  }

  class Store<!T(==)> {
    const policy: Policy<T>
    var entries: map<string, T>

    constructor (policy: Policy<T>)
      ensures this.policy == policy && entries == map[]
    {
      this.policy := policy;
      entries := map[];
    }

    method Get(id: string, now: int) returns (found: Option<T>)
      ensures found == Look(policy, entries, id, now)
      ensures found == if id in entries && now - policy.created(entries[id]) < policy.maxAge
                       then Some(entries[id]) else None
    {
      found := None;
      if id in entries {
        var value := entries[id];
        if now < policy.created(value) || now - policy.created(value) < policy.maxAge {
          found := Some(value);
        }
      }
    }

    /** After a put, everything but the new entry is live, and every live entry is still there. */
    method Put(id: string, value: T, now: int)
      modifies this
      ensures entries == Stored(policy, old(entries), id, value, now)
      ensures id in entries && entries[id] == value
      ensures forall other | other in entries && other != id ::
                other in old(entries) && entries[other] == old(entries)[other] && Live(policy, entries[other], now)
      ensures forall other | other in old(entries) && Live(policy, old(entries)[other], now) :: other in entries
      ensures forall other | other in old(entries) && other != id ::
                other in entries <==> now - policy.created(old(entries)[other]) < policy.maxAge
    {
      var kept: map<string, T> := map[];
      var left := entries.Keys;
      while left != {}
        invariant left <= entries.Keys
        invariant kept == map k | k in entries && k !in left && Live(policy, entries[k], now) :: entries[k]
      {
        var k :| k in left;
        if Live(policy, entries[k], now) {
          kept := kept[k := entries[k]];
        }
        left := left - {k};
      }
      assert kept == Sweep(policy, entries, now);
      entries := kept[id := value];
    }

    method Remove(id: string)
      modifies this
      ensures entries == old(entries) - {id}
    {
      entries := map k | k in entries && k != id :: entries[k];
    }
  }

  // ----- against a map that never sweeps ---------------------------------------------------

  datatype Op<T> = Get(id: string, now: int) | Put(id: string, value: T, now: int) | Remove(id: string, now: int)

  /** All answers of a sequence of operations, on a store that sweeps or on one that does not. */
  function Answers<T>(p: Policy<T>, sweeps: bool, entries: map<string, T>, ops: seq<Op<T>>): seq<Option<T>>
    decreases |ops|
  {
    if ops == [] then []
    else match ops[0]
      case Get(id, now) => [Look(p, entries, id, now)] + Answers(p, sweeps, entries, ops[1..])
      case Put(id, value, now) =>
        Answers(p, sweeps, if sweeps then Stored(p, entries, id, value, now) else entries[id := value], ops[1..])
      case Remove(id, _) => Answers(p, sweeps, entries - {id}, ops[1..])
  }

  ghost predicate Forward<T>(ops: seq<Op<T>>, from: int)
    decreases |ops|
  {
    ops == [] || (from <= ops[0].now && Forward(ops[1..], ops[0].now))
  }

  /** From `now` on nobody can tell the two maps apart. */
  ghost predicate LooksAlike<T>(p: Policy<T>, swept: map<string, T>, full: map<string, T>, now: int) {
    forall id, t | now <= t :: Look(p, swept, id, t) == Look(p, full, id, t)
  }

  lemma {:induction false} SweepingIsInvisibleFrom<T>(p: Policy<T>, swept: map<string, T>, full: map<string, T>,
      ops: seq<Op<T>>, from: int)
    requires LooksAlike(p, swept, full, from) && Forward(ops, from)
    ensures Answers(p, true, swept, ops) == Answers(p, false, full, ops)
    decreases |ops|
  {
    if ops != [] {
      var now := ops[0].now;
      match ops[0]
      case Get(id, _) => SweepingIsInvisibleFrom(p, swept, full, ops[1..], now);
      case Put(id, value, _) =>
        var swept', full' := Stored(p, swept, id, value, now), full[id := value];
        forall k, t | now <= t ensures Look(p, swept', k, t) == Look(p, full', k, t) {
          assert Look(p, swept, k, t) == Look(p, full, k, t);
        }
        SweepingIsInvisibleFrom(p, swept', full', ops[1..], now);
      case Remove(id, _) =>
        forall k, t | now <= t ensures Look(p, swept - {id}, k, t) == Look(p, full - {id}, k, t) {
          assert Look(p, swept, k, t) == Look(p, full, k, t);
        }
        SweepingIsInvisibleFrom(p, swept - {id}, full - {id}, ops[1..], now);
    }
  }

  /** Over a clock that never goes back, the sweeping store answers every sequence of operations
      as the map that keeps everything. */
  lemma SweepingIsInvisible<T>(p: Policy<T>, entries: map<string, T>, ops: seq<Op<T>>, from: int)
    requires Forward(ops, from)
    ensures Answers(p, true, entries, ops) == Answers(p, false, entries, ops)
  {
    SweepingIsInvisibleFrom(p, entries, entries, ops, from);
  }

  /** Whether an entry once put can still be told from one that is gone, after a sweep at `now`
      and a look at `t`: only by a clock that went back, and only into the entry's lifetime. */
  lemma SweepShowsExactlyOnSetback<T>(p: Policy<T>, entries: map<string, T>, id: string, other: string, value: T,
      now: int, t: int)
    requires id in entries && id != other
    ensures Answers(p, true, entries, [Put(other, value, now), Get(id, t)]) !=
            Answers(p, false, entries, [Put(other, value, now), Get(id, t)])
            <==> !Live(p, entries[id], now) && Live(p, entries[id], t)
    ensures !Live(p, entries[id], now) && Live(p, entries[id], t) ==> t < now
  {
    var get: Op<T> := Get(id, t);
    var ops := [Put(other, value, now), get];
    assert ops[1..] == [get] && [get][1..] == [];
    var swept, full := Stored(p, entries, other, value, now), entries[other := value];
    assert Answers(p, true, swept, [get]) == [Look(p, swept, id, t)] + [];
    assert Answers(p, false, full, [get]) == [Look(p, full, id, t)] + [];
    assert Answers(p, true, entries, ops) == Answers(p, true, swept, [get]);
    assert Answers(p, false, entries, ops) == Answers(p, false, full, [get]);
    assert ([Look(p, swept, id, t)] + [])[0] == Look(p, swept, id, t);
    assert ([Look(p, full, id, t)] + [])[0] == Look(p, full, id, t);
  }

  /** Two puts into an empty store, the second as late as the first entry's age limit, and a look with
      the clock set back: the sweeping store has lost what the other still shows. */
  lemma {:induction false} SetbackShows(p: Policy<int>, first: string, second: string)
    requires p.maxAge > 0 && (forall created :: p.created(created) == created) && first != second
    ensures var ops := [Put(first, 0, 0), Put(second, p.maxAge, p.maxAge), Get(first, 0)];
      Answers(p, true, map[], ops) == [None] && Answers(p, false, map[], ops) == [Some(0)]
  {
    var put, get: Op<int> := Put(second, p.maxAge, p.maxAge), Get(first, 0);
    var ops := [Put(first, 0, 0), put, get];
    assert ops[1..] == [put, get] && [put, get][1..] == [get] && [get][1..] == [];
    var one, swept, full := map[first := 0], map[second := p.maxAge], map[first := 0, second := p.maxAge];
    assert Stored(p, map[], first, 0, 0) == one && Stored(p, one, second, p.maxAge, p.maxAge) == swept;
    assert map[][first := 0] == one && one[second := p.maxAge] == full;
    assert Answers(p, true, swept, [get]) == [Look(p, swept, first, 0)] + [];
    assert Answers(p, false, full, [get]) == [Look(p, full, first, 0)] + [];
    assert Answers(p, true, one, [put, get]) == Answers(p, true, swept, [get]);
    assert Answers(p, false, one, [put, get]) == Answers(p, false, full, [get]);
  }

  /** An entry is live for less than the age limit from its creation, and before it. */
  lemma LiveExactly<T>(p: Policy<T>, value: T, now: int)
    ensures Live(p, value, now) <==> now < p.created(value) + p.maxAge
  {
  }
}
