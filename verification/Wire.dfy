/**
 internal/lantern/lantern.go, `ReceiveFlash` before the guards: which of the wire's payloads is a farewell, a
 retirement or a flash, what each leaves in memory, and which one measures a clock.
 */
module Wire {
  import opened Base
  import opened Quorum
  import opened Memory
  import opened Merge
  import Skew

  const FLASH_VERSION: int := 1

  /** A decoded gossip payload: unparsable, a bare array from before the envelope, or an envelope. */
  datatype Payload =
    | Garbage
    | Legacy(obs: seq<Observation>)
    | Envelope(version: int, from: Name, sent: Option<Time>, obs: seq<Observation>, leave: Name,
        forget: Option<Subject>)

  predicate IsLeave(id: Name, p: Payload) {
    p.Envelope? && p.leave != "" && p.leave != id
  }

  predicate IsForget(id: Name, p: Payload) {
    p.Envelope? && !IsLeave(id, p) && p.forget.Some?
  }

  predicate IsFlash(id: Name, p: Payload) {
    p.Envelope? && !IsLeave(id, p) && !IsForget(id, p) && p.version == FLASH_VERSION
  }

  /** Only a stamped envelope of somebody else measures a clock; a farewell stops the measuring. */
  function Measured(id: Name, interval: int, views: Skew.Views, p: Payload, now: Time): Skew.Views {
    if IsLeave(id, p) then views - {p.leave}
    else if IsFlash(id, p) && p.from != "" && p.from != id && p.sent.Some? && p.sent.value != ZERO_TIME then
      var v := if p.from in views then Some(views[p.from]) else None;
      views[p.from := Skew.Sampled(v, Skew.SkewWindow(interval), now - p.sent.value, now)]
    else views
  }

  function Received(id: Name, m: Memory, p: Payload, now: Time): Memory {
    if IsLeave(id, p) then Parted(m, p.leave, now)
    else if IsForget(id, p) then Retired(m, p.forget.value, now)
    else if p.Legacy? || IsFlash(id, p) then HeardAll(id, m, p.obs)
    else m
  }

  // ---- A flash ----

  /** A bare array, or an envelope of version 1 that is neither somebody else's farewell nor a retirement. */
  predicate CarriesWords(id: Name, p: Payload) {
    || p.Legacy?
    || (p.Envelope? && p.version == 1 && (p.leave == "" || p.leave == id) && p.forget.None?)
  }

  /** What no guard dropped, each word judged by the memory the ones before it left. */
  ghost function Heeded(id: Name, m: Memory, obs: seq<Observation>): set<Observation> {
    set i | 0 <= i < |obs| && !Refused(id, HeardAll(id, m, obs[..i]), obs[i]) :: obs[i]
  }

  lemma HeededGrows(id: Name, m: Memory, rest: seq<Observation>, o: Observation)
    ensures Heeded(id, m, rest + [o])
         == Heeded(id, m, rest) + if Refused(id, HeardAll(id, m, rest), o) then {} else {o}
  {
    var all := rest + [o];
    assert all[..|rest|] == rest && all[|rest|] == o;
    assert forall i :: 0 <= i < |rest| ==> all[..i] == rest[..i] && all[i] == rest[i];
  }

  lemma {:induction false} HeardKeepsNewest(id: Name, m: Memory, obs: seq<Observation>, k: Key)
    ensures NewestOf(m.store, Heeded(id, m, obs), HeardAll(id, m, obs).store, k)
  {
    if obs != [] {
      var rest, o := obs[..|obs| - 1], obs[|obs| - 1];
      assert obs == rest + [o];
      HeardKeepsNewest(id, m, rest, k);
      HeardStore(id, HeardAll(id, m, rest), o);
      HeededGrows(id, m, rest, o);
      NewestGrows(m.store, Heeded(id, m, rest), o, HeardAll(id, m, rest).store, k);
      assert Heeded(id, m, rest) + {} == Heeded(id, m, rest);
    }
  }

  /**
   Gossip arrives: a flash of this version leaves in the store, under every key, the newest of what was held and of
   those of its observations that no guard drops, whatever tombstones they lift on the way.
   */
  lemma FlashIsHeard(id: Name, m: Memory, p: Payload, now: Time, k: Key)
    requires CarriesWords(id, p)
    ensures NewestOf(m.store, Heeded(id, m, p.obs), Received(id, m, p, now).store, k)
  {
    HeardKeepsNewest(id, m, p.obs, k);
  }

  /** In particular a peer's first word on a subject that no tombstone covers is held afterwards. */
  lemma FirstWordIsHeld(id: Name, m: Memory, p: Payload, o: Observation, now: Time)
    requires CarriesWords(id, p) && p.obs == [o] && KeyOf(o) !in m.store && o.observer != id
    requires o.observer !in m.departed && o.target !in m.departed && Subject(o.check, o.target) !in m.forgotten
    ensures Received(id, m, p, now).store == m.store[KeyOf(o) := o]
  {
    assert p.obs[..|p.obs| - 1] == [];
    assert HeardAll(id, m, p.obs) == Heard(id, m, o);
    HeardStore(id, m, o);
  }

  /** Garbage, and an envelope of any other version that is no farewell or retirement, change nothing at all. */
  lemma OthersAreIgnored(id: Name, m: Memory, interval: int, views: Skew.Views, p: Payload, now: Time)
    requires p.Garbage? || (p.Envelope? && p.version != 1 && (p.leave == "" || p.leave == id) && p.forget.None?)
    ensures Received(id, m, p, now) == m && Measured(id, interval, views, p, now) == views
  {
  }

  // ---- A farewell and a retirement ----

  /** A word that is not the record of a ping. */
  predicate Opinion(o: Observation) {
    o.check != "pulse" || o.state != Up
  }

  /** Somebody else's farewell, whatever else the envelope says. */
  predicate SaysFarewell(id: Name, p: Payload) {
    p.Envelope? && p.leave != "" && p.leave != id
  }

  /**
   A farewell takes every opinion by or about the sender out of the store and leaves all the rest; from then on its
   words up to that instant change nothing, and those of others about it change no word held.
   */
  lemma FarewellIsHeard(id: Name, m: Memory, p: Payload, now: Time, o: Observation)
    requires SaysFarewell(id, p)
    ensures
      var m' := Received(id, m, p, now);
      && (forall k :: k in m'.store <==>
            k in m.store && !(Opinion(m.store[k]) && (m.store[k].observer == p.leave || m.store[k].target == p.leave)))
      && (forall k :: k in m'.store ==> m'.store[k] == m.store[k])
      && (Opinion(o) && o.observer == p.leave && o.seen <= now ==> Heard(id, m', o) == m')
      && (Opinion(o) && o.target == p.leave && o.seen <= now ==> Heard(id, m', o).store == m'.store)
  {
  }

  /**
   A retirement takes every word on the subject out of the store and leaves all the rest; from then on no word on it
   up to that instant is taken in.
   */
  lemma RetirementIsHeard(id: Name, m: Memory, p: Payload, now: Time, o: Observation)
    requires p.Envelope? && !SaysFarewell(id, p) && p.forget.Some?
    ensures
      var m' := Received(id, m, p, now);
      && (forall k :: k in m'.store <==>
            k in m.store && !(m.store[k].check == p.forget.value.check && m.store[k].target == p.forget.value.target))
      && (forall k :: k in m'.store ==> m'.store[k] == m.store[k])
      && (o.check == p.forget.value.check && o.target == p.forget.value.target && o.seen <= now ==>
            Heard(id, m', o).store == m'.store && Heard(id, m', o).lastPulse == m'.lastPulse)
  {
  }

  // ---- A clock sample ----

  /**
   Only a stamped envelope of this version, from somebody else, measures a clock: of its sender, by how much later
   than its stamp it arrived. A farewell ends the measuring of the one who leaves; nothing else touches the clocks.
   */
  lemma StampIsMeasured(id: Name, interval: int, views: Skew.Views, p: Payload, now: Time)
    ensures
      var views' := Measured(id, interval, views, p, now);
      if SaysFarewell(id, p) then views' == views - {p.leave}
      else if p.Envelope? && CarriesWords(id, p) && p.from != "" && p.from != id && p.sent.Some?
           && p.sent.value != ZERO_TIME then
        var sample := now - p.sent.value;
        && views' - {p.from} == views - {p.from} && p.from in views' && views'[p.from].sampled == now
        && views'[p.from].offset ==
            if p.from in views && now - views[p.from].window <= 15 * interval && views[p.from].offset < sample
            then views[p.from].offset else sample
      else views' == views
  {
  }
}
