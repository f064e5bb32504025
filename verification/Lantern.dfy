/**
 internal/lantern/lantern.go: the agent itself. The class holds the source's maps; each method is one
 locked section, proved against the specification in `Memory`, `Pacing`, `Pulse`, `Skew` and `Flash`.
 */
module Lantern {
  import opened Base
  import opened Quorum
  import M = Memory
  import P = Pacing
  import PU = Pulse
  import Skew
  import Flash
  import Status
  import Blackout
  import R = Roster
  import T = Tracker
  import H = HoldDown
  import opened Wire

  const FLASH_OBS_LIMIT: nat := 900
  const PACKET_LIMIT: int := 1000

  class Lantern {
    const cfg: M.Config
    const interval: int
    const blackoutMin: int
    const checks: seq<P.Check>
    const clocks: Skew.ClockTable
    const swarm: R.Swarm
    var store: Store
    var departed: map<Name, Time>
    var forgotten: map<Subject, Time>
    var lastPulse: map<Name, Time>
    var lastRun: map<Subject, Time>
    var lastVerdict: map<Subject, P.Outcome>
    var addrs: map<Subject, string>

    ghost function Contents(): M.Memory
      reads this
    {
      M.Memory(store, departed, forgotten, lastPulse)
    }

    ghost function Pace(): P.Pace
      reads this
    {
      P.Pace(lastRun, lastVerdict, addrs)
    }

    function PaceConfig(): P.Config {
      P.Config(cfg.id, interval, cfg.maxAge)
    }

    /** Every word is filed under its own key, and the tombstones are doing their work. */
    ghost predicate Valid()
      reads this, clocks
    {
      && interval > 0 && cfg.maxAge > 0
      && clocks.Valid() && clocks.id == cfg.id && clocks.interval == interval
      && WellKeyed(store) && M.Buried(cfg.id, Contents())
    }

    /** Zero or negative settings take the source's defaults; a negative blackout setting switches the rule off. */
    constructor (id: Name, interval: int, maxAge: int, skewMax: int, pulses: map<Name, int>, checks: seq<P.Check>,
                 blackout: int, start: Time, swarm: R.Swarm)
      ensures Valid() && Contents() == M.BLANK && Pace() == P.Pace(map[], map[], map[])
      ensures this.interval == (if interval <= 0 then 2 * SECOND else interval)
      ensures cfg == M.Config(id, if maxAge <= 0 then 5 * this.interval else maxAge, pulses, start)
      ensures blackoutMin == if blackout == 0 then 3 else Max(blackout, 0)
      ensures this.checks == checks && this.swarm == swarm && fresh(clocks) && clocks.Contents() == map[]
          && clocks.skewMax == skewMax
    {
      var every := if interval <= 0 then 2 * SECOND else interval;
      this.interval := every;
      cfg := M.Config(id, if maxAge <= 0 then 5 * every else maxAge, pulses, start);
      blackoutMin := if blackout == 0 then Blackout.DEFAULT_BLACKOUT else if blackout < 0 then 0 else blackout;
      this.checks, this.swarm := checks, swarm;
      clocks := new Skew.ClockTable(id, every, skewMax);
      store, departed, forgotten, lastPulse := map[], map[], map[], map[];
      lastRun, lastVerdict, addrs := map[], map[], map[];
    }

    // ---- Gossip in ----

    method ReceiveFlash(p: Payload, now: Time)
      requires Valid()
      modifies this`store, this`departed, this`forgotten, this`lastPulse, clocks, clocks.clocks.Values, swarm`everSeen
      ensures Valid() && Contents() == Received(cfg.id, old(Contents()), p, now)
      ensures swarm.Contents() == if IsLeave(cfg.id, p) then R.After(old(swarm.Contents()), R.Farewell(p.leave))
          else old(swarm.Contents())
      ensures clocks.Contents() == Measured(cfg.id, interval, old(clocks.Contents()), p, now)
    {
      match p {
        case Garbage =>
        case Legacy(obs) =>
          Merge(obs);
        case Envelope(version, from, sent, obs, leave, forget) =>
          if leave != "" && leave != cfg.id {
            Forget(leave, now);
          } else if forget.Some? {
            ForgetSubject(forget.value, now);
          } else if version == FLASH_VERSION {
            SampleClock(p, now);
            Merge(obs);
          }
      }
    }

    method SampleClock(p: Payload, now: Time)
      requires clocks.Valid() && clocks.id == cfg.id && clocks.interval == interval && IsFlash(cfg.id, p)
      modifies clocks, clocks.clocks.Values
      ensures clocks.Valid() && clocks.Contents() == Measured(cfg.id, interval, old(clocks.Contents()), p, now)
    {
      if p.from != "" && p.from != cfg.id && p.sent.Some? && p.sent.value != ZERO_TIME {
        clocks.ObserveClock(p.from, p.sent.value, now);
      }
    }

    method Merge(obs: seq<Observation>)
      requires WellKeyed(store) && M.Buried(cfg.id, Contents())
      modifies this`store, this`departed, this`forgotten, this`lastPulse
      ensures Contents() == M.HeardAll(cfg.id, old(Contents()), obs)
      ensures WellKeyed(store) && M.Buried(cfg.id, Contents())
    {
      ghost var m := Contents();
      for i := 0 to |obs|
        invariant Contents() == M.HeardAll(cfg.id, m, obs[..i])
        invariant WellKeyed(store) && M.Buried(cfg.id, Contents())
      {
        assert obs[..i + 1][..i] == obs[..i];
        M.HeardStaysBuried(cfg.id, Contents(), obs[i]);
        MergeOne(obs[i]);
      }
      assert obs[..|obs|] == obs;
    }

    method MergeOne(o: Observation)
      modifies this`store, this`departed, this`forgotten, this`lastPulse
      ensures Contents() == M.Heard(cfg.id, old(Contents()), o)
    {
      var receipt := o.check == "pulse" && o.state == Up;
      if o.observer == cfg.id && !receipt {
        return;
      }
      if o.observer in departed && !receipt {
        if o.seen <= departed[o.observer] {
          return;
        }
        departed := departed - {o.observer};
      }
      if o.target in departed && o.seen <= departed[o.target] && !receipt {
        return;
      }
      if o.About() in forgotten {
        if o.seen <= forgotten[o.About()] {
          return;
        }
        forgotten := forgotten - {o.About()};
      }
      assert forgotten == old(forgotten) - {o.About()};
      assert departed == if receipt then old(departed) else old(departed) - {o.observer};
      var key := KeyOf(o);
      if key !in store || o.seen > store[key].seen {
        store := store[key := o];
      }
      if receipt && o.seen > M.PulseAt(lastPulse, o.target) {
        lastPulse := lastPulse[o.target := o.seen];
      }
    }

    /** A graceful farewell heard from `name`. */
    method Forget(name: Name, now: Time)
      requires Valid() && name != cfg.id
      modifies this`store, this`departed, clocks`clocks, swarm`everSeen
      ensures Valid() && Contents() == M.Parted(old(Contents()), name, now)
      ensures clocks.clocks == old(clocks.clocks) - {name} && clocks.Contents() == old(clocks.Contents()) - {name}
      ensures swarm.Contents() == R.After(old(swarm.Contents()), R.Farewell(name))
    {
      Entomb(name, now);
      clocks.Forget(name);
      swarm.Forget(name);
    }

    method Entomb(name: Name, now: Time)
      requires WellKeyed(store) && M.Buried(cfg.id, Contents()) && name != cfg.id
      modifies this`store, this`departed
      ensures WellKeyed(store) && M.Buried(cfg.id, Contents())
      ensures Contents() == M.Parted(old(Contents()), name, now)
    {
      M.FarewellStaysBuried(cfg.id, Contents(), name, now);
      DropWordOf(name);
      departed := departed[name := now];
    }

    method DropWordOf(name: Name)
      modifies this`store
      ensures store == M.WithoutWordOf(old(store), name)
    {
      ghost var before := store;
      var todo := store.Keys;
      while todo != {}
        invariant todo <= before.Keys
        invariant store == map k | k in before && (k in todo || M.OutlivesFarewell(before[k], name)) :: before[k]
        decreases todo
      {
        var k :| k in todo;
        todo := todo - {k};
        var o := store[k];
        if !(o.check == "pulse" && o.state == Up) && (o.observer == name || o.target == name) {
          store := store - {k};
        }
      }
    }

    method ForgetSubject(s: Subject, now: Time)
      requires Valid()
      modifies this`store, this`forgotten
      ensures Valid() && Contents() == M.Retired(old(Contents()), s, now)
    {
      M.RetirementStaysBuried(cfg.id, Contents(), s, now);
      DropSubject(s);
      forgotten := forgotten[s := now];
    }

    method DropSubject(s: Subject)
      modifies this`store
      ensures store == M.WithoutSubject(old(store), s)
    {
      ghost var before := store;
      var todo := store.Keys;
      while todo != {}
        invariant todo <= before.Keys
        invariant store == map k | k in before && (k in todo || before[k].About() != s) :: before[k]
        decreases todo
      {
        var k :| k in todo;
        todo := todo - {k};
        if store[k].About() == s {
          store := store - {k};
        }
      }
    }

    /** Everything this lantern believes, in no particular order: what a push/pull exchange ships. */
    method SyncState() returns (obs: seq<Observation>)
      ensures Enumerates(obs, store)
    {
      obs := [];
      var todo := store.Keys;
      while todo != {}
        invariant todo <= store.Keys
        invariant forall o :: o in obs <==> exists k :: k in store && k !in todo && store[k] == o
        decreases todo
      {
        var k :| k in todo;
        obs := obs + [store[k]];
        todo := todo - {k};
      }
    }

    // ---- Pulses ----

    method Pulse(name: Name, now: Time) returns (declared: bool)
      requires Valid()
      modifies this`store, this`lastPulse
      ensures Valid() && Contents() == M.Pinged(cfg, old(Contents()), name, now)
      ensures declared <==> name in cfg.pulses
    {
      declared := name in cfg.pulses;
      var ttl := M.DEFAULT_PULSE_TTL;
      if declared && cfg.pulses[name] >= SECOND {
        ttl := cfg.pulses[name] / SECOND;
      }
      var o := Observation(cfg.id, name, "pulse", Up, "", now, ttl);
      store := store[KeyOf(o) := o];
      if now > M.PulseAt(lastPulse, name) {
        lastPulse := lastPulse[name := now];
      }
    }

    ghost predicate SilenceOf(p: Name, o: Observation, now: Time)
      reads this
    {
      PU.Silent(cfg, Contents(), p, now) && o == PU.VoteFor(cfg, p, now)
    }

    method PulseObservations(now: Time) returns (obs: seq<Observation>)
      ensures Elements(obs) == PU.SilenceVotes(cfg, Contents(), now) && OnePerTarget(obs)
    {
      obs := [];
      var todo := cfg.pulses.Keys;
      while todo != {}
        invariant todo <= cfg.pulses.Keys
        invariant forall o :: o in obs <==>
          exists p :: p in cfg.pulses && p !in todo && SilenceOf(p, o, now)
        invariant OnePerTarget(obs) && forall i :: 0 <= i < |obs| ==> obs[i].target !in todo
        decreases todo
      {
        var name :| name in todo;
        var baseline := cfg.start;
        if name in lastPulse && lastPulse[name] > baseline {
          baseline := lastPulse[name];
        }
        if now - baseline > cfg.pulses[name] {
          obs := obs + [Observation(cfg.id, name, "pulse", Down, "", now, 0)];
        }
        todo := todo - {name};
      }
    }

    // ---- The flash ----

    /** The checks that are due run; `results` is what each of them would say. */
    method RunChecks(results: seq<P.Result>, now: Time) returns (words: seq<Observation>)
      requires |results| == |checks|
      modifies this`lastRun, this`lastVerdict, this`addrs
      ensures (Pace(), words) == P.ProbedAll(PaceConfig(), old(Pace()), checks, results, now)
    {
      words := [];
      ghost var p := Pace();
      for i := 0 to |checks|
        invariant (Pace(), words) == P.ProbedAll(PaceConfig(), p, checks[..i], results[..i], now)
      {
        assert checks[..i + 1][..i] == checks[..i] && results[..i + 1][..i] == results[..i];
        var word := RunCheck(checks[i], results[i], now);
        words := words + word;
      }
      assert checks[..|checks|] == checks && results[..|checks|] == results;
    }

    method RunCheck(c: P.Check, res: P.Result, now: Time) returns (word: seq<Observation>)
      modifies this`lastRun, this`lastVerdict, this`addrs
      ensures (Pace(), word) == P.Probed(PaceConfig(), old(Pace()), c, res, now)
    {
      word := [];
      var key := c.About();
      var every, nominal, paced := interval, interval, false;
      if c.every.Some? && c.every.value > every {
        every, nominal, paced := c.every.value, c.every.value, true;
        if key in lastVerdict && lastVerdict[key] == P.Failed && every > P.RECHECK_WHILE_DOWN {
          every := P.RECHECK_WHILE_DOWN;
        }
        if key in lastRun && now - lastRun[key] < every {
          return;
        }
        lastRun := lastRun[key := now];
      }
      if paced {
        lastVerdict := lastVerdict[key := res.outcome];
      }
      if res.addr != "" {
        addrs := addrs[key := res.addr];
      }
      if res.outcome == P.NotApplicable {
        return;
      }
      var state := match res.outcome case Passed => Up case Warning => Warn case _ => Down;
      var ttl := 3 * cfg.maxAge / SECOND;
      if nominal > interval {
        ttl := 5 * nominal / SECOND;
      }
      word := [Observation(cfg.id, c.target, c.name, state, res.detail, now, ttl)];
    }

    /** Everything said in one flash: own checks, the peers' clocks, silent pulses and the view of the roster. */
    ghost function Sayings(probed: seq<Observation>, m: M.Memory, views: Skew.Views, roster: set<Name>,
                           alive: seq<Name>, now: Time): set<Observation>
      reads clocks
    {
      Elements(probed) + Asides(m, views, roster, alive, now)
    }

    /** The part that is not the result of a check. */
    ghost function Asides(m: M.Memory, views: Skew.Views, roster: set<Name>, alive: seq<Name>, now: Time)
      : set<Observation>
      reads clocks
    {
      Skew.Drifts(cfg.id, views, Skew.SkewWindow(interval), clocks.skewMax, now)
      + PU.SilenceVotes(cfg, m, now) + Flash.PeerWords(cfg.id, alive, roster, now)
    }

    lemma SayingsAreHonest(p: P.Pace, results: seq<P.Result>, m: M.Memory, views: Skew.Views, roster: set<Name>,
                           alive: seq<Name>, now: Time)
      requires |results| == |checks|
      ensures
        var probed := P.ProbedAll(PaceConfig(), p, checks, results, now).1;
        && (forall o :: o in Sayings(probed, m, views, roster, alive, now) ==> o.observer == cfg.id)
        && ((forall c :: c in checks ==> c.name != "pulse") ==>
              forall o :: o in Sayings(probed, m, views, roster, alive, now) ==> !M.Receipt(o))
    {
      P.WordsAreOwn(PaceConfig(), p, checks, results, now);
    }

    /**
     Nothing is left unsaid: every peer of the roster is reported as it answers or not, every declared pulse past its
     window as silent, every clock heard of lately, and every check that ran.
     */
    lemma NothingIsLeftUnsaid(probed: seq<Observation>, m: M.Memory, views: Skew.Views, roster: set<Name>,
                              alive: seq<Name>, now: Time)
      ensures
        var said := Sayings(probed, m, views, roster, alive, now);
        && (forall o :: o in probed ==> o in said)
        && (forall p :: p in roster && p != cfg.id ==>
              Observation(cfg.id, p, "lantern", if p in alive then Up else Down, "", now, 0) in said)
        && (forall p :: p in cfg.pulses && now - cfg.start > cfg.pulses[p]
                        && (p in m.lastPulse ==> now - m.lastPulse[p] > cfg.pulses[p])
              ==> Observation(cfg.id, p, "pulse", Down, "", now, 0) in said)
        && (forall p :: p in views && clocks.skewMax > 0 && now - views[p].sampled <= 15 * interval && interval > 0 ==>
              Observation(cfg.id, p, "skew", if -clocks.skewMax <= views[p].offset <= clocks.skewMax then Up else Warn,
                          "", now, 0) in said)
    {
      forall p | p in roster && p != cfg.id
        ensures Observation(cfg.id, p, "lantern", if p in alive then Up else Down, "", now, 0)
                in Flash.PeerWords(cfg.id, alive, roster, now)
      {
        assert Flash.PeerWord(cfg.id, p, alive, now) in Flash.PeerWords(cfg.id, alive, roster, now);
      }
      forall p | p in cfg.pulses && PU.Silent(cfg, m, p, now)
        ensures Observation(cfg.id, p, "pulse", Down, "", now, 0) in PU.SilenceVotes(cfg, m, now)
      {
        assert PU.VoteFor(cfg, p, now) in PU.SilenceVotes(cfg, m, now);
      }
      var width := Skew.SkewWindow(interval);
      forall p | p in views && clocks.skewMax > 0 && Skew.Current(views[p], width, now)
        ensures Skew.Drift(cfg.id, p, views[p], clocks.skewMax, now)
                in Skew.Drifts(cfg.id, views, width, clocks.skewMax, now)
      {
      }
    }

    /** The locked half of a flash: say everything there is to say, write it down, and prune. */
    method Speak(results: seq<P.Result>, alive: seq<Name>, now: Time) returns (own: seq<Observation>)
      requires Valid() && |results| == |checks|
      modifies this`store, this`departed, this`forgotten, this`lastPulse, this`lastRun, this`lastVerdict, this`addrs,
          clocks`clocks
      ensures Valid() && Contents() == M.Flashed(cfg, old(Contents()), own, now)
      ensures Pace() == P.ProbedAll(PaceConfig(), old(Pace()), checks, results, now).0
      ensures clocks.Contents() == Skew.Kept(old(clocks.Contents()), Skew.SkewWindow(interval), clocks.skewMax, now)
      ensures P.ProbedAll(PaceConfig(), old(Pace()), checks, results, now).1 <= own
      ensures Elements(own) == Sayings(P.ProbedAll(PaceConfig(), old(Pace()), checks, results, now).1, old(Contents()),
                                       old(clocks.Contents()), swarm.everSeen, alive, now)
    {
      SayingsAreHonest(Pace(), results, Contents(), clocks.Contents(), swarm.everSeen, alive, now);
      own := Say(results, alive, now, Pace(), clocks.Contents());
      WriteAndPrune(own, now);
    }

    method Say(results: seq<P.Result>, alive: seq<Name>, now: Time, ghost p: P.Pace, ghost views: Skew.Views)
      returns (own: seq<Observation>)
      requires clocks.Valid() && clocks.id == cfg.id && clocks.interval == interval && |results| == |checks|
      requires p == Pace() && views == clocks.Contents()
      modifies this`lastRun, this`lastVerdict, this`addrs, clocks`clocks
      ensures clocks.Valid()
      ensures clocks.Contents() == Skew.Kept(views, Skew.SkewWindow(interval), clocks.skewMax, now)
      ensures Pace() == P.ProbedAll(PaceConfig(), p, checks, results, now).0
      ensures P.ProbedAll(PaceConfig(), p, checks, results, now).1 <= own
      ensures Elements(own) == Sayings(P.ProbedAll(PaceConfig(), p, checks, results, now).1, Contents(), views,
                                       swarm.everSeen, alive, now)
    {
      var probed := RunChecks(results, now);
      assert clocks.Contents() == views;
      var asides := SayAside(alive, now, views);
      own := probed + asides;
      ElementsJoin(probed, asides);
    }

    method SayAside(alive: seq<Name>, now: Time, ghost views: Skew.Views) returns (obs: seq<Observation>)
      requires clocks.Valid() && clocks.id == cfg.id && clocks.interval == interval && views == clocks.Contents()
      modifies clocks`clocks
      ensures clocks.Valid()
      ensures clocks.Contents() == Skew.Kept(views, Skew.SkewWindow(interval), clocks.skewMax, now)
      ensures Elements(obs) == Asides(Contents(), views, swarm.everSeen, alive, now)
    {
      var drifts := clocks.SkewObservations(now);
      var silences := PulseObservations(now);
      var roster := swarm.Roster();
      var peers := Flash.LivenessObservations(cfg.id, alive, roster, now);
      obs := drifts + silences + peers;
      ElementsJoin(drifts, silences);
      ElementsJoin(drifts + silences, peers);
    }

    static lemma ElementsJoin(a: seq<Observation>, b: seq<Observation>)
      ensures Elements(a + b) == Elements(a) + Elements(b)
    {
    }

    method WriteAndPrune(own: seq<Observation>, now: Time)
      requires WellKeyed(store) && M.Buried(cfg.id, Contents())
      requires forall o :: o in Elements(own) ==> o.observer == cfg.id
      modifies this`store, this`departed, this`forgotten, this`lastPulse
      ensures WellKeyed(store) && M.Buried(cfg.id, Contents())
      ensures Contents() == M.Flashed(cfg, old(Contents()), own, now)
    {
      assert forall o :: o in own ==> o in Elements(own);
      M.FlashStaysBuried(cfg, Contents(), own, now);
      M.WrittenHas(store, own);
      Write(own);
      Prune(now);
    }

    method Write(own: seq<Observation>)
      modifies this`store
      ensures store == M.Written(old(store), own)
    {
      for i := 0 to |own|
        invariant store == M.Written(old(store), own[..i])
      {
        assert own[..i + 1][..i] == own[..i];
        store := store[KeyOf(own[i]) := own[i]];
      }
      assert own[..|own|] == own;
    }

    method Prune(now: Time)
      modifies this`store, this`departed, this`forgotten, this`lastPulse
      ensures Contents() == M.Pruned(cfg, old(Contents()), now)
    {
      PruneStore(now);
      PruneDeparted(now);
      PruneForgotten(now);
      PrunePulses(now);
    }

    method PruneStore(now: Time)
      modifies this`store
      ensures store == map k | k in old(store) && now - old(store)[k].seen <= M.Horizon(old(store)[k], cfg.maxAge) ::
          old(store)[k]
    {
      var todo := store.Keys;
      ghost var before := store;
      while todo != {}
        invariant todo <= before.Keys
        invariant store == map k | k in before
            && (k in todo || now - before[k].seen <= M.Horizon(before[k], cfg.maxAge)) :: before[k]
        decreases todo
      {
        var k :| k in todo;
        todo := todo - {k};
        var o := store[k];
        var ttl := cfg.maxAge;
        if o.ttl > 0 {
          ttl := o.ttl * SECOND;
        }
        var horizon := 3 * ttl;
        if horizon < HOUR {
          horizon := HOUR;
        }
        if now - o.seen > horizon {
          store := store - {k};
        }
      }
    }

    method PruneDeparted(now: Time)
      modifies this`departed
      ensures departed == map n | n in old(departed) && now - old(departed)[n] <= M.TOMBSTONE_AFTER :: old(departed)[n]
    {
      var todo := departed.Keys;
      while todo != {}
        invariant todo <= old(departed).Keys
        invariant departed == map n | n in old(departed)
            && (n in todo || now - old(departed)[n] <= M.TOMBSTONE_AFTER) :: old(departed)[n]
        decreases todo
      {
        var n :| n in todo;
        todo := todo - {n};
        if now - departed[n] > M.TOMBSTONE_AFTER {
          departed := departed - {n};
        }
      }
    }

    method PruneForgotten(now: Time)
      modifies this`forgotten
      ensures forgotten == map s | s in old(forgotten) && now - old(forgotten)[s] <= M.TOMBSTONE_AFTER ::
          old(forgotten)[s]
    {
      var todo := forgotten.Keys;
      while todo != {}
        invariant todo <= old(forgotten).Keys
        invariant forgotten == map s | s in old(forgotten)
            && (s in todo || now - old(forgotten)[s] <= M.TOMBSTONE_AFTER) :: old(forgotten)[s]
        decreases todo
      {
        var s :| s in todo;
        todo := todo - {s};
        if now - forgotten[s] > M.TOMBSTONE_AFTER {
          forgotten := forgotten - {s};
        }
      }
    }

    method PrunePulses(now: Time)
      modifies this`lastPulse
      ensures lastPulse == map n | n in old(lastPulse)
          && (n in cfg.pulses || now - old(lastPulse)[n] <= M.TOMBSTONE_AFTER) :: old(lastPulse)[n]
    {
      var todo := lastPulse.Keys;
      while todo != {}
        invariant todo <= old(lastPulse).Keys
        invariant lastPulse == map n | n in old(lastPulse)
            && (n in todo || n in cfg.pulses || now - old(lastPulse)[n] <= M.TOMBSTONE_AFTER) :: old(lastPulse)[n]
        decreases todo
      {
        var n :| n in todo;
        todo := todo - {n};
        if n !in cfg.pulses && now - lastPulse[n] > M.TOMBSTONE_AFTER {
          lastPulse := lastPulse - {n};
        }
      }
    }

    predicate Own(k: Key)
      reads this
    {
      k in store && store[k].observer == cfg.id
    }

    /** The lantern's own words, clamped for the wire; what cannot be clamped is left out. */
    method OwnGossip(size: Flash.Size, toValidUTF8: string -> string) returns (own: seq<Observation>)
      ensures forall o :: o in own ==>
        Flash.Fits(size, o, 900) && exists k :: Own(k) && M.Alike(o, store[k])
      ensures Flash.DetailAdds(size) ==>
        forall k :: Own(k) && Flash.Gossipable(size, store[k], 900) ==> Flash.Carried(own, store[k])
    {
      own := [];
      var todo := store.Keys;
      while todo != {}
        invariant todo <= store.Keys
        invariant forall o :: o in own ==>
          Flash.Fits(size, o, FLASH_OBS_LIMIT) && exists k :: Own(k) && M.Alike(o, store[k])
        invariant Flash.DetailAdds(size) ==>
          forall k :: Own(k) && k !in todo && Flash.Gossipable(size, store[k], FLASH_OBS_LIMIT)
              ==> Flash.Carried(own, store[k])
        decreases todo
      {
        var k :| k in todo;
        todo := todo - {k};
        if store[k].observer == cfg.id {
          var fit, ok := Flash.FitForGossip(size, toValidUTF8, store[k], FLASH_OBS_LIMIT);
          if ok {
            own := own + [fit];
            assert fit in own && Own(k);
          }
        }
      }
    }

    /** The packets of one flash: none too large, and no word of its own missing that could be sent at all. */
    method Gossip(size: Flash.Size, base: nat, toValidUTF8: string -> string) returns (payloads: seq<seq<Observation>>)
      ensures forall p :: p in payloads ==> Flash.Sendable(size, base, 1000, p)
      ensures base <= 99 ==> forall p :: p in payloads ==> Flash.PayloadSize(size, base, p) <= 1008
      ensures forall o :: o in Flash.Flat(payloads) ==> exists k :: Own(k) && M.Alike(o, store[k])
      ensures Flash.DetailAdds(size) ==>
        forall k :: Own(k) && Flash.Gossipable(size, store[k], 900)
            ==> Flash.Carried(Flash.Flat(payloads), store[k])
    {
      var own := OwnGossip(size, toValidUTF8);
      Flash.FitsEncode(size, own, FLASH_OBS_LIMIT);
      payloads := Flash.ChunkFlash(size, base, own, PACKET_LIMIT);
      Flash.FlatFits(size, payloads, FLASH_OBS_LIMIT);
      if base <= 99 {
        forall p | p in payloads ensures Flash.PayloadSize(size, base, p) <= 1008 {
          Flash.PacketsFit(size, base, p);
        }
      }
    }

    // ---- The verdict ----

    /** What the status is computed from. */
    ghost function Read(readAt: Time): H.Reading
      reads this, swarm
    {
      H.Reading(store, |swarm.everSeen|, cfg.maxAge, readAt)
    }

    method StatusAndBlackouts(readAt: Time) returns (subjects: seq<Decision>, blackouts: seq<Decision>)
      requires Valid()
      ensures Status.Panel(subjects, Read(readAt))
      ensures Blackout.BlackoutsOf(blackouts, subjects, addrs, blackoutMin)
      ensures H.StatusOf(subjects + blackouts, Read(readAt))
      ensures Read(readAt) == H.Reading(store, |swarm.Contents().everSeen|, cfg.maxAge, readAt)
      ensures forall i :: 0 <= i < |subjects| ==> subjects[i].swarmSize == |swarm.Contents().everSeen|
    {
      var all := SyncState();
      var lastKnown := swarm.LastKnownSize();
      var order: seq<Subject>;
      subjects, order := Status.DecideAll(all, store, lastKnown, cfg.maxAge, readAt);
      blackouts := Blackout.Blackout(subjects, addrs, blackoutMin);
      assert Status.Verdicts(subjects, order, Read(readAt));
      Status.ReportIsStatus(subjects + blackouts, subjects, blackouts, Read(readAt), addrs, blackoutMin);
    }

    /** The last step of a flash: hand the swarm's verdicts to the alert tracker. */
    method Notify(notify: T.Tracker, alive: seq<Name>, readAt: Time, now: Time)
      returns (decisions: seq<Decision>, sent: seq<T.Event>)
      requires Valid()
      modifies notify
      ensures Status.Report(decisions, Read(readAt), addrs, blackoutMin) && H.StatusOf(decisions, Read(readAt))
      ensures
        var (m, log) := T.Observed(notify.cfg, T.Memory(old(notify.start), old(notify.Contents())),
            T.Call(decisions, alive, now));
        T.Memory(notify.start, notify.Contents()) == m && sent == T.SentBy(notify.self, log)
    {
      var subjects, blackouts := StatusAndBlackouts(readAt);
      decisions := subjects + blackouts;
      assert Status.Reported(decisions, subjects, blackouts, Read(readAt), addrs, blackoutMin);
      sent := notify.Observe(decisions, alive, now);
    }
  }
}
