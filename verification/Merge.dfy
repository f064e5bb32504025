/**
 internal/lantern/lantern.go, `ReceiveFlash` over whole deliveries: where no tombstone is lifted, merging
 is a join and lanterns converge; a word that lifts one is exactly what makes the order matter.
 */
module Merge {
  import opened Base
  import opened Quorum
  import opened Memory

  // ---- The guards, as one question ----

  /** Some guard drops the observation. */
  predicate Refused(id: Name, m: Memory, o: Observation) {
    || (!Receipt(o)
        && (o.observer == id
            || (o.observer in m.departed && o.seen <= m.departed[o.observer])
            || (o.target in m.departed && o.seen <= m.departed[o.target])))
    || (o.About() in m.forgotten && o.seen <= m.forgotten[o.About()])
  }

  /** A word from after the farewell of its own observer. */
  predicate Returns(m: Memory, o: Observation) {
    !Receipt(o) && o.observer in m.departed && o.seen > m.departed[o.observer]
  }

  /** A word from after the retirement of its own subject. */
  predicate Revives(id: Name, m: Memory, o: Observation) {
    !Refused(id, m, o) && o.About() in m.forgotten
  }

  function Newer(store: Store, o: Observation): Store {
    if KeyOf(o) !in store || o.seen > store[KeyOf(o)].seen then store[KeyOf(o) := o] else store
  }

  lemma HeardStore(id: Name, m: Memory, o: Observation)
    ensures Heard(id, m, o).store == if Refused(id, m, o) then m.store else Newer(m.store, o)
  {
  }

  lemma HeardDeparted(id: Name, m: Memory, o: Observation)
    ensures Heard(id, m, o).departed
         == if o.observer != id && Returns(m, o) then m.departed - {o.observer} else m.departed
  {
    assert o.observer !in m.departed ==> m.departed - {o.observer} == m.departed;
  }

  lemma HeardForgotten(id: Name, m: Memory, o: Observation)
    ensures Heard(id, m, o).forgotten == if Refused(id, m, o) then m.forgotten else m.forgotten - {o.About()}
    ensures Heard(id, m, o).lastPulse
         == if !Refused(id, m, o) && Receipt(o) && o.seen > PulseAt(m.lastPulse, o.target)
            then m.lastPulse[o.target := o.seen] else m.lastPulse
  {
  }

  lemma HeardInPlace(id: Name, m: Memory, o: Observation)
    requires id !in m.departed && !Returns(m, o)
    ensures
      var m' := Heard(id, m, o);
      if Refused(id, m, o) then m' == m
      else
        && m'.departed == m.departed && m'.forgotten == m.forgotten - {o.About()}
        && m'.store == Newer(m.store, o)
        && m'.lastPulse == (if Receipt(o) && o.seen > PulseAt(m.lastPulse, o.target)
                            then m.lastPulse[o.target := o.seen] else m.lastPulse)
  {
    if !Receipt(o) {
      assert o.observer !in m.departed ==> m.departed - {o.observer} == m.departed;
    }
  }

  // ---- Merging converges ----

  /** The observation leaves every tombstone where it is. */
  predicate LeavesTombs(id: Name, m: Memory, o: Observation) {
    !Returns(m, o) && !Revives(id, m, o)
  }

  lemma HeardLeaves(id: Name, m: Memory, o: Observation)
    requires id !in m.departed && LeavesTombs(id, m, o)
    ensures
      var m' := Heard(id, m, o);
      && m'.departed == m.departed && m'.forgotten == m.forgotten
      && m'.store == (if Refused(id, m, o) then m.store else Newer(m.store, o))
      && m'.lastPulse == (if !Refused(id, m, o) && Receipt(o) && o.seen > PulseAt(m.lastPulse, o.target)
                          then m.lastPulse[o.target := o.seen] else m.lastPulse)
  {
    HeardInPlace(id, m, o);
    assert o.About() !in m.forgotten ==> m.forgotten - {o.About()} == m.forgotten;
  }

  predicate SameTombs(m: Memory, m': Memory) {
    m.departed == m'.departed && m.forgotten == m'.forgotten
  }

  lemma {:induction false} HeardAllLeaves(id: Name, m: Memory, obs: seq<Observation>)
    requires id !in m.departed && forall o :: o in obs ==> LeavesTombs(id, m, o)
    ensures SameTombs(m, HeardAll(id, m, obs))
  {
    if obs != [] {
      var rest, o := obs[..|obs| - 1], obs[|obs| - 1];
      assert obs == rest + [o];
      assert o in obs && LeavesTombs(id, m, o);
      HeardAllLeaves(id, m, rest);
      HeardLeaves(id, HeardAll(id, m, rest), o);
    }
  }

  /** What came through the guards. */
  function Taken(id: Name, m: Memory, obs: seq<Observation>): set<Observation> {
    set o | o in obs && !Refused(id, m, o)
  }

  /** `store` holds under `k` the newest of what was held and what was taken. */
  ghost predicate NewestOf(before: Store, taken: set<Observation>, store: Store, k: Key) {
    && (k in store <==> k in before || exists o :: o in taken && KeyOf(o) == k)
    && (k in store ==>
          && ((k in before && store[k] == before[k]) || (store[k] in taken && KeyOf(store[k]) == k))
          && (k in before ==> before[k].seen <= store[k].seen)
          && (forall o :: o in taken && KeyOf(o) == k ==> o.seen <= store[k].seen))
  }

  lemma NewestGrows(before: Store, taken: set<Observation>, o: Observation, store: Store, k: Key)
    requires NewestOf(before, taken, store, k)
    ensures NewestOf(before, taken + {o}, Newer(store, o), k)
  {
    if KeyOf(o) == k {
      assert o in taken + {o};
    }
  }

  lemma TakenGrows(id: Name, m: Memory, rest: seq<Observation>, o: Observation)
    ensures Taken(id, m, rest + [o]) == Taken(id, m, rest) + if Refused(id, m, o) then {} else {o}
  {
  }

  /** Where no tombstone is lifted, the store after any deliveries holds, key by key, the newest word of all. */
  lemma {:induction false} MergeKeepsNewest(id: Name, m: Memory, obs: seq<Observation>, k: Key)
    requires id !in m.departed && forall o :: o in obs ==> LeavesTombs(id, m, o)
    ensures NewestOf(m.store, Taken(id, m, obs), HeardAll(id, m, obs).store, k)
  {
    if obs != [] {
      var rest, o := obs[..|obs| - 1], obs[|obs| - 1];
      assert obs == rest + [o];
      assert o in obs && LeavesTombs(id, m, o);
      MergeKeepsNewest(id, m, rest, k);
      HeardAllLeaves(id, m, rest);
      HeardLeaves(id, HeardAll(id, m, rest), o);
      TakenGrows(id, m, rest, o);
      NewestGrows(m.store, Taken(id, m, rest), o, HeardAll(id, m, rest).store, k);
      assert Taken(id, m, rest) + {} == Taken(id, m, rest);
    }
  }

  /** Everything a lantern could hold after some deliveries. */
  function Pool(id: Name, m: Memory, obs: seq<Observation>): set<Observation> {
    m.store.Values + Taken(id, m, obs)
  }

  /** What a pool says under `k`, up to detail. */
  function Words(pool: set<Observation>, k: Key): set<Observation> {
    set o | o in pool && KeyOf(o) == k :: Bare(o)
  }

  /** One observer says one thing about one subject at one instant, up to detail. */
  ghost predicate Coherent(pool: set<Observation>) {
    forall o, p :: o in pool && p in pool && KeyOf(o) == KeyOf(p) && o.seen == p.seen ==> Alike(o, p)
  }

  /** Under `k` the store holds a newest element of the pool. */
  ghost predicate Tops(store: Store, pool: set<Observation>, k: Key) {
    && (k in store ==> store[k] in pool && KeyOf(store[k]) == k)
    && (forall o :: o in pool && KeyOf(o) == k ==> k in store && o.seen <= store[k].seen)
  }

  lemma StoreTopsPool(id: Name, m: Memory, obs: seq<Observation>, k: Key)
    requires id !in m.departed && WellKeyed(m.store) && forall o :: o in obs ==> LeavesTombs(id, m, o)
    ensures Tops(HeardAll(id, m, obs).store, Pool(id, m, obs), k)
  {
    MergeKeepsNewest(id, m, obs, k);
    var store := HeardAll(id, m, obs).store;
    forall o | o in Pool(id, m, obs) && KeyOf(o) == k ensures k in store && o.seen <= store[k].seen {
      if o in m.store.Values {
        var l :| l in m.store && m.store[l] == o;
        assert l == k;
      } else {
        assert o in Taken(id, m, obs);
      }
    }
  }

  lemma BareKeeps(o: Observation)
    ensures KeyOf(Bare(o)) == KeyOf(o) && Bare(o).seen == o.seen
  {
  }

  lemma NotOlder(store1: Store, pool1: set<Observation>, store2: Store, pool2: set<Observation>, k: Key)
    requires Tops(store1, pool1, k) && Tops(store2, pool2, k) && Words(pool1, k) == Words(pool2, k)
    requires k in store1
    ensures k in store2 && store1[k].seen <= store2[k].seen
  {
    assert Bare(store1[k]) in Words(pool2, k);
    var p :| p in pool2 && KeyOf(p) == k && Bare(p) == Bare(store1[k]);
    BareKeeps(p);
    BareKeeps(store1[k]);
  }

  lemma TopsAgree(store1: Store, pool1: set<Observation>, store2: Store, pool2: set<Observation>, k: Key)
    requires Tops(store1, pool1, k) && Tops(store2, pool2, k) && Words(pool1, k) == Words(pool2, k)
    requires Coherent(pool1)
    ensures k in store1 <==> k in store2
    ensures k in store1 ==> Alike(store1[k], store2[k])
  {
    if k in store1 {
      NotOlder(store1, pool1, store2, pool2, k);
    }
    if k in store2 {
      NotOlder(store2, pool2, store1, pool1, k);
      assert Bare(store2[k]) in Words(pool1, k);
      var q :| q in pool1 && KeyOf(q) == k && Bare(q) == Bare(store2[k]);
      BareKeeps(q);
      BareKeeps(store2[k]);
      assert Alike(store1[k], q);
    }
  }

  /**
   Strong convergence: two lanterns that held and took the same things under a key, in whatever order,
   chunking and multiplicity and with details trimmed or not, agree on that key.
   */
  lemma MergeConverges(id1: Name, m1: Memory, obs1: seq<Observation>, id2: Name, m2: Memory, obs2: seq<Observation>,
                       k: Key)
    requires id1 !in m1.departed && WellKeyed(m1.store) && forall o :: o in obs1 ==> LeavesTombs(id1, m1, o)
    requires id2 !in m2.departed && WellKeyed(m2.store) && forall o :: o in obs2 ==> LeavesTombs(id2, m2, o)
    requires Words(Pool(id1, m1, obs1), k) == Words(Pool(id2, m2, obs2), k)
    requires Coherent(Pool(id1, m1, obs1))
    ensures
      var store1, store2 := HeardAll(id1, m1, obs1).store, HeardAll(id2, m2, obs2).store;
      (k in store1 <==> k in store2) && (k in store1 ==> Alike(store1[k], store2[k]))
  {
    StoreTopsPool(id1, m1, obs1, k);
    StoreTopsPool(id2, m2, obs2, k);
    var store1, store2 := HeardAll(id1, m1, obs1).store, HeardAll(id2, m2, obs2).store;
    TopsAgree(store1, Pool(id1, m1, obs1), store2, Pool(id2, m2, obs2), k);
  }

  lemma SwapFillsPool(id: Name, m: Memory, all: seq<Observation>, other: Memory, k: Key)
    requires Enumerates(all, other.store) && forall o :: o in all && KeyOf(o) == k ==> !Refused(id, m, o)
    ensures Words(Pool(id, m, all), k) == Words(m.store.Values + other.store.Values, k)
    ensures Pool(id, m, all) <= m.store.Values + other.store.Values
  {
    forall o ensures o in all <==> o in other.store.Values {
      assert o in Elements(all) <==> o in other.store.Values;
    }
    assert forall o :: KeyOf(o) == k ==> (o in Pool(id, m, all) <==> o in m.store.Values + other.store.Values);
  }

  /** One push/pull exchange: each side merges the other's whole store, and they agree wherever neither refuses. */
  lemma PushPullAgrees(id1: Name, m1: Memory, all1: seq<Observation>, id2: Name, m2: Memory, all2: seq<Observation>,
                       k: Key)
    requires id1 !in m1.departed && WellKeyed(m1.store) && Enumerates(all1, m1.store)
    requires id2 !in m2.departed && WellKeyed(m2.store) && Enumerates(all2, m2.store)
    requires forall o :: o in all2 ==> LeavesTombs(id1, m1, o) && (KeyOf(o) == k ==> !Refused(id1, m1, o))
    requires forall o :: o in all1 ==> LeavesTombs(id2, m2, o) && (KeyOf(o) == k ==> !Refused(id2, m2, o))
    requires Coherent(m1.store.Values + m2.store.Values)
    ensures
      var store1, store2 := HeardAll(id1, m1, all2).store, HeardAll(id2, m2, all1).store;
      (k in store1 <==> k in store2) && (k in store1 ==> Alike(store1[k], store2[k]))
  {
    var pool := m1.store.Values + m2.store.Values;
    SwapFillsPool(id1, m1, all2, m2, k);
    SwapFillsPool(id2, m2, all1, m1, k);
    assert m2.store.Values + m1.store.Values == pool;
    MergeConverges(id1, m1, all2, id2, m2, all1, k);
  }

  ghost predicate Absorbed(id: Name, m: Memory, o: Observation) {
    !Refused(id, m, o) ==>
      && KeyOf(o) in m.store && o.seen <= m.store[KeyOf(o)].seen
      && (Receipt(o) ==> o.seen <= PulseAt(m.lastPulse, o.target))
  }

  lemma {:induction false} DeliveredIsAbsorbed(id: Name, m: Memory, obs: seq<Observation>, o: Observation)
    requires id !in m.departed && o in obs && forall p :: p in obs ==> LeavesTombs(id, m, p)
    ensures Absorbed(id, HeardAll(id, m, obs), o)
  {
    var rest, last := obs[..|obs| - 1], obs[|obs| - 1];
    assert obs == rest + [last];
    assert last in obs && LeavesTombs(id, m, last);
    HeardAllLeaves(id, m, rest);
    HeardLeaves(id, HeardAll(id, m, rest), last);
    if o in rest {
      DeliveredIsAbsorbed(id, m, rest, o);
    }
  }

  /** Hearing again what was already delivered changes nothing at all. */
  lemma {:induction false} RedeliveryChangesNothing(id: Name, m: Memory, obs: seq<Observation>, again: seq<Observation>)
    requires id !in m.departed && forall o :: o in obs ==> LeavesTombs(id, m, o)
    requires forall o :: o in again ==> o in obs
    ensures HeardAll(id, HeardAll(id, m, obs), again) == HeardAll(id, m, obs)
  {
    if again != [] {
      var rest, o := again[..|again| - 1], again[|again| - 1];
      assert again == rest + [o];
      assert o in again && LeavesTombs(id, m, o);
      RedeliveryChangesNothing(id, m, obs, rest);
      DeliveredIsAbsorbed(id, m, obs, o);
      HeardAllLeaves(id, m, obs);
      HeardLeaves(id, HeardAll(id, m, obs), o);
    }
  }

  // ---- When the order matters ----

  /**
   Hearing this observation would let stale words through: it lifts the tombstone of its observer, or
   that of its subject while no farewell of the target keeps the same words out.
   */
  predicate Opens(id: Name, m: Memory, o: Observation) {
    || Returns(m, o)
    || (Revives(id, m, o) && (o.check == "pulse" || o.target !in m.departed
        || m.departed[o.target] < m.forgotten[o.About()]))
  }

  /** Two different words of one observer on one subject never carry one instant. */
  predicate Apart(o: Observation, p: Observation) {
    KeyOf(o) != KeyOf(p) || o.seen != p.seen || o == p
  }

  lemma StillJudged(id: Name, m: Memory, o: Observation, p: Observation)
    requires id !in m.departed && !Opens(id, m, o) && !Returns(m, p)
    ensures
      var m' := Heard(id, m, o);
      m'.departed == m.departed && (Refused(id, m', p) <==> Refused(id, m, p)) && !Returns(m', p)
  {
    HeardInPlace(id, m, o);
  }

  lemma NewerCommutes(store: Store, o: Observation, p: Observation)
    requires Apart(o, p)
    ensures Newer(Newer(store, o), p) == Newer(Newer(store, p), o)
  {
    if KeyOf(o) != KeyOf(p) {
      assert store[KeyOf(o) := o][KeyOf(p) := p] == store[KeyOf(p) := p][KeyOf(o) := o];
    } else {
      assert store[KeyOf(o) := o][KeyOf(p) := p] == store[KeyOf(p) := p];
      assert store[KeyOf(p) := p][KeyOf(o) := o] == store[KeyOf(o) := o];
    }
  }

  lemma SecondHeard(id: Name, m: Memory, o: Observation, p: Observation)
    requires id !in m.departed && !Opens(id, m, o) && !Returns(m, p)
    ensures
      var one := if Refused(id, m, o) then m.store else Newer(m.store, o);
      Heard(id, Heard(id, m, o), p).store == if Refused(id, m, p) then one else Newer(one, p)
  {
    HeardInPlace(id, m, o);
    StillJudged(id, m, o, p);
    HeardInPlace(id, Heard(id, m, o), p);
  }

  lemma ClosedWordsCommute(id: Name, m: Memory, o: Observation, p: Observation)
    requires id !in m.departed && !Opens(id, m, o) && !Opens(id, m, p) && Apart(o, p)
    ensures Heard(id, Heard(id, m, o), p).store == Heard(id, Heard(id, m, p), o).store
  {
    SecondHeard(id, m, o, p);
    SecondHeard(id, m, p, o);
    NewerCommutes(m.store, o, p);
  }

  /** `p` opens nothing itself, and yet hearing it before or after `o` leaves different stores. */
  ghost predicate Stale(id: Name, m: Memory, o: Observation, p: Observation) {
    !Opens(id, m, p) && Apart(o, p) && Heard(id, Heard(id, m, o), p).store != Heard(id, Heard(id, m, p), o).store
  }

  predicate NoneLonger(used: set<string>, n: nat) {
    forall x :: x in used ==> |x| <= n
  }

  lemma {:induction false} LengthsAreBounded(used: set<string>)
    ensures exists n: nat :: NoneLonger(used, n)
    decreases used
  {
    if used == {} {
      assert NoneLonger(used, 0);
    } else {
      var y :| y in used;
      LengthsAreBounded(used - {y});
      var n: nat :| NoneLonger(used - {y}, n);
      forall x | x in used ensures |x| <= n + |y| {
        assert x == y || x in used - {y};
      }
      assert NoneLonger(used, n + |y|);
    }
  }

  ghost function FreshName(used: set<string>): (x: string)
    ensures x !in used
  {
    LengthsAreBounded(used);
    var n: nat :| NoneLonger(used, n);
    var x := seq(n + 1, _ => 'x');
    assert |x| == n + 1;
    x
  }

  /** After a return, a word its observer said before the farewell passes where it was refused. */
  lemma ReturnLetsThrough(id: Name, m: Memory, o: Observation)
    requires id !in m.departed && Returns(m, o)
    ensures exists p :: Stale(id, m, o, p)
  {
    var check := FreshName({"pulse", o.check} + (set k | k in m.store :: k.check)
                           + set s | s in m.forgotten :: s.check);
    var p := Observation(o.observer, o.observer, check, Up, "", m.departed[o.observer], 0);
    assert Subject(check, p.target) !in m.forgotten;
    assert KeyOf(p) !in m.store;
    var m' := Heard(id, m, o);
    assert o.observer !in m'.departed && KeyOf(p) !in m'.store && p.About() !in m'.forgotten;
    assert Heard(id, m, p) == m;
    assert KeyOf(p) in Heard(id, m', p).store;
    assert Stale(id, m, o, p);
  }

  /** After a revival, a word on the subject from before its retirement passes where it was refused. */
  lemma RevivalLetsThrough(id: Name, m: Memory, o: Observation)
    requires id !in m.departed && !Returns(m, o) && Opens(id, m, o)
    ensures exists p :: Stale(id, m, o, p)
  {
    var s := o.About();
    var name := FreshName({id, o.observer} + m.departed.Keys + set k | k in m.store :: k.observer);
    var p := Observation(name, o.target, o.check, Up, "", m.forgotten[s], 0);
    HeardInPlace(id, m, o);
    var m' := Heard(id, m, o);
    assert KeyOf(p) !in m.store && KeyOf(p) !in m'.store;
    HeardInPlace(id, m, p);
    HeardInPlace(id, m', p);
    assert Stale(id, m, o, p);
  }

  /**
   Merging is not order-independent while tombstones stand, and this is exactly when: an observation can
   be reordered freely with every other that opens no tombstone if and only if it opens none itself.
   */
  lemma OrderMattersIff(id: Name, m: Memory, o: Observation)
    requires id !in m.departed
    ensures (exists p :: Stale(id, m, o, p)) <==> Opens(id, m, o)
  {
    if Opens(id, m, o) {
      if Returns(m, o) {
        ReturnLetsThrough(id, m, o);
      } else {
        RevivalLetsThrough(id, m, o);
      }
    } else {
      forall p | !Opens(id, m, p) && Apart(o, p) ensures !Stale(id, m, o, p) {
        ClosedWordsCommute(id, m, o, p);
      }
    }
  }

  // ---- When two given words commute ----

  /** The memory without the tombstones that hearing `o` lifts. */
  function Lifted(id: Name, m: Memory, o: Observation): Memory {
    m.(departed := if Returns(m, o) then m.departed - {o.observer} else m.departed,
       forgotten := if Refused(id, m, o) then m.forgotten else m.forgotten - {o.About()})
  }

  /** `p` is kept out by a tombstone that hearing `o` lifts, and by nothing else. */
  predicate Frees(id: Name, m: Memory, o: Observation, p: Observation) {
    Refused(id, m, p) && !Refused(id, Lifted(id, m, o), p)
  }

  /** The store would take the word in. */
  predicate Lands(store: Store, o: Observation) {
    KeyOf(o) !in store || o.seen > store[KeyOf(o)].seen
  }

  /** What the store is after one word. */
  function AfterOne(id: Name, m: Memory, o: Observation): Store {
    if Refused(id, m, o) then m.store else Newer(m.store, o)
  }

  /** Both words would be taken in, and they say different things under one key at one instant. */
  predicate Tied(id: Name, m: Memory, o: Observation, p: Observation) {
    !Apart(o, p) && !Refused(id, m, o) && !Refused(id, m, p) && Lands(m.store, o)
  }

  lemma RefusedAfter(id: Name, m: Memory, o: Observation, p: Observation)
    requires id !in m.departed
    ensures Refused(id, Heard(id, m, o), p) <==> Refused(id, m, p) && !Frees(id, m, o, p)
  {
    HeardDeparted(id, m, o);
    HeardForgotten(id, m, o);
  }

  lemma FreedOneWay(id: Name, m: Memory, o: Observation, p: Observation)
    requires id !in m.departed && Frees(id, m, o, p)
    ensures !Frees(id, m, p, o)
  {
  }

  lemma AfterBoth(id: Name, m: Memory, o: Observation, p: Observation)
    requires id !in m.departed
    ensures
      var one := AfterOne(id, m, o);
      Heard(id, Heard(id, m, o), p).store == if Refused(id, m, p) && !Frees(id, m, o, p) then one else Newer(one, p)
  {
    HeardStore(id, m, o);
    HeardStore(id, Heard(id, m, o), p);
    RefusedAfter(id, m, o, p);
  }

  lemma LandingShows(store: Store, p: Observation)
    ensures Newer(store, p) != store <==> Lands(store, p)
  {
    if Lands(store, p) {
      assert Newer(store, p)[KeyOf(p)] == p;
    }
  }

  lemma TieShows(store: Store, o: Observation, p: Observation)
    requires !Apart(o, p)
    ensures Newer(Newer(store, o), p) == Newer(Newer(store, p), o) <==> !Lands(store, o)
  {
    if Lands(store, o) {
      assert Newer(Newer(store, o), p)[KeyOf(o)] == o && Newer(Newer(store, p), o)[KeyOf(p)] == p;
    }
  }

  /**
   Any two words, whatever they lift, and exactly when their order shows: one of them is kept out only by a
   tombstone the other lifts and would still be taken in after it, or both are taken in and they tie.
   */
  lemma PairCommutesIff(id: Name, m: Memory, o: Observation, p: Observation)
    requires id !in m.departed
    ensures Heard(id, Heard(id, m, o), p).store != Heard(id, Heard(id, m, p), o).store
       <==> (Frees(id, m, o, p) && Lands(AfterOne(id, m, o), p))
            || (Frees(id, m, p, o) && Lands(AfterOne(id, m, p), o))
            || Tied(id, m, o, p)
  {
    AfterBoth(id, m, o, p);
    AfterBoth(id, m, p, o);
    if Frees(id, m, o, p) {
      FreedOneWay(id, m, o, p);
      LandingShows(AfterOne(id, m, o), p);
    } else if Frees(id, m, p, o) {
      LandingShows(AfterOne(id, m, p), o);
    } else if Apart(o, p) {
      NewerCommutes(m.store, o, p);
    } else {
      TieShows(m.store, o, p);
    }
  }
}
