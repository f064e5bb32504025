/**
 internal/lantern/liveness.go: what goes on the wire. A flash is cut into packets, an observation too
 large for a packet loses its detail, and membership becomes observations.

 JSON is a length: `size` of an encoded observation (None when it cannot be encoded), `base` of the
 empty envelope. An envelope around n > 0 observations adds `,"obs":[` and `]` and n-1 commas.
 */
module Flash {
  import opened Base
  import opened Quorum
  import opened Memory

  type Size = Observation -> Option<nat>

  predicate Encodes(size: Size, o: Observation) {
    size(o).Some?
  }

  function Encodable(size: Size, obs: seq<Observation>): seq<Observation> {
    if obs == [] then []
    else
      var rest, o := Encodable(size, obs[..|obs| - 1]), obs[|obs| - 1];
      if Encodes(size, o) then rest + [o] else rest
  }

  function Bytes(size: Size, o: Observation): nat {
    if size(o).Some? then size(o).value else 0
  }

  /** The source's running estimate, on top of the envelope: every element and one separator each. */
  function Estimate(size: Size, batch: seq<Observation>): nat {
    if batch == [] then 0 else Estimate(size, batch[..|batch| - 1]) + Bytes(size, batch[|batch| - 1]) + 1
  }

  function TotalBytes(size: Size, batch: seq<Observation>): nat {
    if batch == [] then 0 else TotalBytes(size, batch[..|batch| - 1]) + Bytes(size, batch[|batch| - 1])
  }

  /** The true length of the encoded payload. */
  function PayloadSize(size: Size, base: nat, batch: seq<Observation>): nat {
    if batch == [] then base else base + 9 + TotalBytes(size, batch) + (|batch| - 1)
  }

  function Flat(parts: seq<seq<Observation>>): seq<Observation> {
    if parts == [] then [] else Flat(parts[..|parts| - 1]) + parts[|parts| - 1]
  }

  /** A batch the source would send: one observation of any size, or several that fit its estimate. */
  predicate Sendable(size: Size, base: nat, limit: int, batch: seq<Observation>) {
    batch != [] && (|batch| == 1 || base + Estimate(size, batch) <= limit)
  }

  predicate Splits(size: Size, base: nat, limit: int, parts: seq<seq<Observation>>, obs: seq<Observation>) {
    Flat(parts) == obs && forall p :: p in parts ==> Sendable(size, base, limit, p)
  }

  predicate Overflows(size: Size, base: nat, limit: int, batch: seq<Observation>, next: seq<Observation>) {
    next != [] && base + Estimate(size, batch + [next[0]]) > limit
  }

  /** No batch could have taken the observation that opens the next one. */
  predicate Full(size: Size, base: nat, limit: int, parts: seq<seq<Observation>>) {
    forall k, l :: 0 <= k < |parts| && l == k + 1 && l < |parts| ==> Overflows(size, base, limit, parts[k], parts[l])
  }

  lemma FlatGrows(parts: seq<seq<Observation>>, batch: seq<Observation>)
    ensures Flat(parts + [batch]) == Flat(parts) + batch
  {
    assert (parts + [batch])[..|parts|] == parts;
  }

  lemma FullGrows(size: Size, base: nat, limit: int, parts: seq<seq<Observation>>, batch: seq<Observation>,
                  o: Observation)
    requires Full(size, base, limit, parts + [batch]) && base + Estimate(size, batch + [o]) > limit
    ensures Full(size, base, limit, parts + [batch] + [[o]])
  {
    var all := parts + [batch] + [[o]];
    forall k, l | 0 <= k < |all| && l == k + 1 && l < |all| ensures Overflows(size, base, limit, all[k], all[l]) {
      if l < |all| - 1 {
        assert all[k] == (parts + [batch])[k] && all[l] == (parts + [batch])[l];
      }
    }
  }

  lemma LastGrows(size: Size, base: nat, limit: int, parts: seq<seq<Observation>>, batch: seq<Observation>,
                  o: Observation)
    requires batch != [] ==> Full(size, base, limit, parts + [batch])
    requires batch == [] ==> parts == []
    ensures Full(size, base, limit, parts + [batch + [o]])
  {
    var all := parts + [batch + [o]];
    forall k, l | 0 <= k < |all| && l == k + 1 && l < |all| ensures Overflows(size, base, limit, all[k], all[l]) {
      var before := parts + [batch];
      assert batch != [] && Overflows(size, base, limit, before[k], before[l]);
      assert all[k] == before[k] && all[l][0] == before[l][0];
    }
  }

  function Reach(parts: seq<seq<Observation>>, k: nat): nat
    requires k <= |parts|
  {
    |Flat(parts[..k])|
  }

  lemma {:induction false} PartIsSlice(parts: seq<seq<Observation>>, k: nat)
    requires k < |parts|
    ensures Reach(parts, k) <= Reach(parts, k + 1) == Reach(parts, k) + |parts[k]| <= |Flat(parts)|
    ensures parts[k] == Flat(parts)[Reach(parts, k)..Reach(parts, k + 1)]
    decreases |parts|
  {
    var init := parts[..|parts| - 1];
    assert parts[..k + 1][..k] == parts[..k];
    if k < |parts| - 1 {
      PartIsSlice(init, k);
      assert init[..k] == parts[..k] && init[..k + 1] == parts[..k + 1];
    } else {
      assert parts[..k + 1] == parts && parts[..k] == init;
    }
  }

  lemma {:induction false} EstimateJoins(size: Size, xs: seq<Observation>, ys: seq<Observation>)
    ensures Estimate(size, xs + ys) == Estimate(size, xs) + Estimate(size, ys)
  {
    if ys == [] {
      assert xs + ys == xs;
    } else {
      assert (xs + ys)[..|xs + ys| - 1] == xs + ys[..|ys| - 1];
      EstimateJoins(size, xs, ys[..|ys| - 1]);
    }
  }

  lemma EstimateOfPart(size: Size, xs: seq<Observation>, i: nat, j: nat, k: nat, l: nat)
    requires i <= j <= k <= l <= |xs|
    ensures Estimate(size, xs[j..k]) <= Estimate(size, xs[i..l])
  {
    assert xs[i..l] == xs[i..j] + xs[j..k] + xs[k..l];
    EstimateJoins(size, xs[i..j] + xs[j..k], xs[k..l]);
    EstimateJoins(size, xs[i..j], xs[j..k]);
  }

  /** A sendable slice that starts no later than an overflowing one cannot reach past it. */
  lemma CannotOvertake(size: Size, base: nat, limit: int, obs: seq<Observation>, start: nat, end: nat, from: nat,
                       to: nat)
    requires start <= from < to < |obs| && start <= end <= |obs|
    requires base + Estimate(size, obs[from..to + 1]) > limit && Sendable(size, base, limit, obs[start..end])
    ensures end <= to
  {
    if end > to {
      EstimateOfPart(size, obs, start, from, to + 1, end);
    }
  }

  lemma OverflowIsSlice(size: Size, base: nat, limit: int, parts: seq<seq<Observation>>, obs: seq<Observation>, k: nat)
    requires Splits(size, base, limit, parts, obs) && Full(size, base, limit, parts) && 0 < k < |parts|
    ensures Reach(parts, k - 1) < Reach(parts, k) < |obs|
    ensures base + Estimate(size, obs[Reach(parts, k - 1)..Reach(parts, k) + 1]) > limit
  {
    PartIsSlice(parts, k - 1);
    PartIsSlice(parts, k);
    assert Overflows(size, base, limit, parts[k - 1], parts[k]) && parts[k - 1] in parts;
    assert parts[k][0] == obs[Reach(parts, k)];
    assert obs[Reach(parts, k - 1)..Reach(parts, k) + 1] == parts[k - 1] + [parts[k][0]];
  }

  /** Whatever any other split does, the greedy one has come at least as far after the same number of batches. */
  lemma {:induction false} GreedyStaysAhead(size: Size, base: nat, limit: int, parts: seq<seq<Observation>>,
                                            other: seq<seq<Observation>>, obs: seq<Observation>, k: nat)
    requires Splits(size, base, limit, parts, obs) && Full(size, base, limit, parts)
        && Splits(size, base, limit, other, obs)
    requires k <= |parts| && k <= |other|
    ensures Reach(other, k) <= Reach(parts, k)
  {
    if k > 0 {
      GreedyStaysAhead(size, base, limit, parts, other, obs, k - 1);
      PartIsSlice(other, k - 1);
      assert Sendable(size, base, limit, other[k - 1]);
      if k == |parts| {
        assert parts[..k] == parts;
      } else {
        OverflowIsSlice(size, base, limit, parts, obs, k);
        CannotOvertake(size, base, limit, obs, Reach(other, k - 1), Reach(other, k), Reach(parts, k - 1),
            Reach(parts, k));
      }
    }
  }

  lemma GreedyIsOptimal(size: Size, base: nat, limit: int, parts: seq<seq<Observation>>, other: seq<seq<Observation>>,
                        obs: seq<Observation>)
    requires Splits(size, base, limit, parts, obs) && (|parts| > 0 ==> Full(size, base, limit, parts))
    requires Splits(size, base, limit, other, obs)
    ensures |parts| <= |other|
  {
    assert other[..|other|] == other;
    forall k | 0 <= k < |parts| ensures parts[k] in parts && parts[k] != [] {
      assert Sendable(size, base, limit, parts[k]);
    }
    if |other| < |parts| {
      GreedyStaysAhead(size, base, limit, parts, other, obs, |other|);
      PartIsSlice(parts, |other|);
    }
  }

  method ChunkFlash(size: Size, base: nat, obs: seq<Observation>, limit: int) returns (payloads: seq<seq<Observation>>)
    ensures Splits(size, base, limit, payloads, Encodable(size, obs))
    ensures forall other :: Splits(size, base, limit, other, Encodable(size, obs)) ==> |payloads| <= |other|
  {
    payloads := [];
    var batch: seq<Observation> := [];
    var used := base;
    for i := 0 to |obs|
      invariant Flat(payloads) + batch == Encodable(size, obs[..i])
      invariant used == base + Estimate(size, batch)
      invariant forall p :: p in payloads ==> Sendable(size, base, limit, p)
      invariant batch != [] ==> Sendable(size, base, limit, batch) && Full(size, base, limit, payloads + [batch])
      invariant batch == [] ==> payloads == []
    {
      assert obs[..i + 1][..i] == obs[..i];
      var o := obs[i];
      if size(o).Some? {
        var b := size(o).value;
        assert (batch + [o])[..|batch|] == batch;
        if |batch| > 0 && used + b + 1 > limit {
          FlatGrows(payloads, batch);
          FullGrows(size, base, limit, payloads, batch, o);
          payloads := payloads + [batch];
          batch, used := [], base;
        } else {
          LastGrows(size, base, limit, payloads, batch, o);
        }
        assert ([]  + [o])[..0] == [];
        batch := batch + [o];
        used := used + b + 1;
      }
    }
    assert obs[..|obs|] == obs;
    if |batch| > 0 {
      FlatGrows(payloads, batch);
      payloads := payloads + [batch];
    }
    forall other | Splits(size, base, limit, other, Encodable(size, obs)) ensures |payloads| <= |other| {
      GreedyIsOptimal(size, base, limit, payloads, other, Encodable(size, obs));
    }
  }

  // ---- How large a payload can get ----

  lemma {:induction false} EstimateCountsSeparators(size: Size, batch: seq<Observation>)
    ensures Estimate(size, batch) == TotalBytes(size, batch) + |batch|
  {
    if batch != [] {
      EstimateCountsSeparators(size, batch[..|batch| - 1]);
    }
  }

  /** The estimate forgets eight bytes of envelope: a payload of several observations stays within them of the limit. */
  lemma PayloadBound(size: Size, base: nat, limit: int, batch: seq<Observation>)
    requires Sendable(size, base, limit, batch)
    ensures PayloadSize(size, base, batch) == base + Estimate(size, batch) + 8
    ensures |batch| > 1 ==> PayloadSize(size, base, batch) <= limit + 8
    ensures |batch| == 1 ==> PayloadSize(size, base, batch) == base + Bytes(size, batch[0]) + 9
  {
    EstimateCountsSeparators(size, batch);
    if |batch| == 1 {
      assert batch[..0] == [];
    }
  }

  /** With observations clamped to 900 bytes and an envelope of at most 99, no packet exceeds 1008. */
  lemma PacketsFit(size: Size, base: nat, batch: seq<Observation>)
    requires Sendable(size, base, 1000, batch) && base <= 99
    requires forall o :: o in batch ==> Bytes(size, o) <= 900
    ensures PayloadSize(size, base, batch) <= 1008
  {
    PayloadBound(size, base, 1000, batch);
    assert batch[0] in batch;
  }

  /** A batch stays within the limit the caller named exactly when its estimate leaves those eight bytes free. */
  lemma WithinLimitIff(size: Size, base: nat, limit: int, batch: seq<Observation>)
    requires Sendable(size, base, limit, batch)
    ensures PayloadSize(size, base, batch) <= limit <==> base + Estimate(size, batch) <= limit - 8
  {
    PayloadBound(size, base, limit, batch);
  }

  // ---- Real lengths ----

  function Digits(n: nat): nat {
    if n < 10 then 1 else 1 + Digits(n / 10)
  }

  function Word(s: State): string {
    match s case Up => "up" case Warn => "warn" case Down => "down"
  }

  /**
   The JSON length of an observation whose texts need no escaping and whose time prints as `stamp` characters:
   braces, names, quotes and commas take 59, an empty detail and a zero TTL are omitted.
   */
  function JsonLength(stamp: nat, o: Observation): nat {
    59 + |o.observer| + |o.target| + |o.check| + |Word(o.state)| + stamp
    + (if o.detail == "" then 0 else 12 + |o.detail|)
    + (if o.ttl == 0 then 0 else 7 + if o.ttl < 0 then 1 + Digits(-o.ttl) else Digits(o.ttl))
  }

  function JsonSize(stamp: nat): Size {
    (o: Observation) => Some(JsonLength(stamp, o))
  }

  /** The empty envelope: version, sender and time of sending. */
  function EnvelopeSize(from: Name, stamp: nat): nat {
    27 + |from| + stamp
  }

  /** An observation by a lantern with an id of 42 characters about `h`, its detail cut to exactly fill 900. */
  function Largest(): Observation {
    Observation(seq(42, _ => 'n'), "h", "http", Down, seq(739, _ => 'e'), 1, 50)
  }

  predicate Fits(size: Size, o: Observation, limit: nat) {
    size(o).Some? && size(o).value <= limit
  }

  /** The bound is reached: that observation passes the clamp at 900, and its packet of 1008 misses the limit. */
  lemma LargestPacket()
    ensures
      var size, base, o := JsonSize(30), EnvelopeSize(Largest().observer, 30), Largest();
      && base == 99 && size(o) == Some(900)
      && Fits(size, o, 900) && Sendable(size, base, 1000, [o]) && PayloadSize(size, base, [o]) == 1008
  {
    var size, base, o := JsonSize(30), EnvelopeSize(Largest().observer, 30), Largest();
    assert Digits(50) == 2;
    assert |o.observer| == 42 && |o.detail| == 739 && o.detail != "";
    assert [o][..0] == [];
    PayloadBound(size, base, 1000, [o]);
  }

  /** Any detail only makes an observation longer. */
  ghost predicate DetailAdds(size: Size) {
    forall o, p :: Alike(o, p) && p == Bare(p) && size(o).Some? ==> size(p).Some? && size(p).value <= size(o).value
  }

  /** Those lengths behave as `DetailAdds` asks of any size. */
  lemma JsonDetailAdds(stamp: nat)
    ensures DetailAdds(JsonSize(stamp))
  {
    var size := JsonSize(stamp);
    forall o, p | Alike(o, p) && p == Bare(p) && size(o).Some? ensures size(p).Some? && size(p).value <= size(o).value {
      assert p == Bare(o);
    }
  }

  // ---- Clamping ----

  lemma {:induction false} FitsEncode(size: Size, own: seq<Observation>, limit: nat)
    requires forall o :: o in own ==> Fits(size, o, limit)
    ensures Encodable(size, own) == own
  {
    if own != [] {
      assert own == own[..|own| - 1] + [own[|own| - 1]];
      assert own[|own| - 1] in own;
      FitsEncode(size, own[..|own| - 1], limit);
    }
  }

  lemma {:induction false} PartOfFlat(parts: seq<seq<Observation>>, p: seq<Observation>, o: Observation)
    requires p in parts && o in p
    ensures o in Flat(parts)
  {
    if p != parts[|parts| - 1] {
      assert parts == parts[..|parts| - 1] + [parts[|parts| - 1]];
      PartOfFlat(parts[..|parts| - 1], p, o);
    }
  }

  lemma FlatFits(size: Size, parts: seq<seq<Observation>>, limit: nat)
    requires forall o :: o in Flat(parts) ==> Fits(size, o, limit)
    ensures forall p :: p in parts ==> forall o :: o in p ==> Bytes(size, o) <= limit
  {
    forall p, o | p in parts && o in p ensures Bytes(size, o) <= limit {
      PartOfFlat(parts, p, o);
    }
  }

  /** Without its detail the observation fits. */
  predicate Gossipable(size: Size, o: Observation, limit: nat) {
    size(o).Some? && Fits(size, Bare(o), limit)
  }

  ghost predicate Carried(own: seq<Observation>, o: Observation) {
    exists p :: p in own && Alike(p, o)
  }

  lemma BareIsBare(o: Observation)
    ensures Alike(o, Bare(o)) && Bare(Bare(o)) == Bare(o)
  {
  }

  /** The observation with its detail cut by as much as it is too long and eight more, for the dots, if any is left. */
  function Shortened(size: Size, toValidUTF8: string -> string, o: Observation, limit: nat): Option<Observation>
    requires size(o).Some?
  {
    var keep := |o.detail| - (size(o).value - limit) - 8;
    if 0 < keep <= |o.detail| then Some(o.(detail := toValidUTF8(o.detail[..keep]) + "...")) else None
  }

  /** Where texts need no escaping, a detail that is cut leaves the observation five bytes short of the limit. */
  lemma ShortenedJustFits(stamp: nat, o: Observation, limit: nat)
    requires JsonLength(stamp, o) > limit && |o.detail| > JsonLength(stamp, o) - limit + 8
    ensures
      var shorter := Shortened(JsonSize(stamp), (x: string) => x, o, limit);
      && shorter.Some? && JsonLength(stamp, shorter.value) == limit - 5
      && (exists kept :: 0 <= kept < |o.detail| && shorter.value == o.(detail := o.detail[..kept] + "..."))
  {
    var kept := |o.detail| - (JsonLength(stamp, o) - limit) - 8;
    assert Shortened(JsonSize(stamp), (x: string) => x, o, limit).value == o.(detail := o.detail[..kept] + "...");
  }

  method FitForGossip(size: Size, toValidUTF8: string -> string, o: Observation, limit: nat)
    returns (fit: Observation, ok: bool)
    ensures Alike(fit, o)
    ensures ok ==> Fits(size, fit, limit)
    ensures Fits(size, o, limit) ==> ok && fit == o
    ensures DetailAdds(size) ==> (ok <==> Gossipable(size, o, limit))
    ensures
      size(o).Some? && size(o).value > limit ==>
        var shorter := Shortened(size, toValidUTF8, o, limit);
        if shorter.Some? && Fits(size, shorter.value, limit) then fit == shorter.value else fit == Bare(o)
  {
    fit, ok := o, false;
    var b := size(o);
    if b.None? {
      return;
    }
    if b.value <= limit {
      ok := true;
      BareIsBare(o);
      return;
    }
    var cut := |o.detail| - (b.value - limit) - 8;
    BareIsBare(o);
    if cut > 0 {
      fit := o.(detail := toValidUTF8(o.detail[..cut]) + "...");
      b := size(fit);
      if b.Some? && b.value <= limit {
        ok := true;
        BareIsBare(fit);
        return;
      }
    }
    fit := fit.(detail := "");
    b := size(fit);
    ok := b.Some? && b.value <= limit;
  }

  // ---- Membership ----

  function PeerWord(id: Name, peer: Name, alive: seq<Name>, now: Time): Observation {
    Observation(id, peer, "lantern", if peer in alive then Up else Down, "", now, 0)
  }

  function PeerWords(id: Name, alive: seq<Name>, roster: set<Name>, now: Time): set<Observation> {
    set p | p in roster && p != id :: PeerWord(id, p, alive, now)
  }

  /** One word per entry of the roster but the lantern's own, in the roster's order. */
  function RosterWords(id: Name, alive: seq<Name>, roster: seq<Name>, now: Time): seq<Observation> {
    if roster == [] then []
    else
      var peer := roster[|roster| - 1];
      RosterWords(id, alive, roster[..|roster| - 1], now) + if peer == id then [] else [PeerWord(id, peer, alive, now)]
  }

  lemma {:induction false} RosterWordsAre(id: Name, alive: seq<Name>, roster: seq<Name>, now: Time)
    ensures Elements(RosterWords(id, alive, roster, now)) == PeerWords(id, alive, Elements(roster), now)
  {
    if roster != [] {
      var rest, peer := roster[..|roster| - 1], roster[|roster| - 1];
      var words := RosterWords(id, alive, rest, now);
      RosterWordsAre(id, alive, rest, now);
      assert roster == rest + [peer] && Elements(roster) == Elements(rest) + {peer};
      if peer == id {
        assert words + [] == words;
      } else {
        assert Elements(words + [PeerWord(id, peer, alive, now)]) == Elements(words) + {PeerWord(id, peer, alive, now)};
      }
    }
  }

  lemma {:induction false} RosterWordsApart(id: Name, alive: seq<Name>, roster: seq<Name>, now: Time)
    requires Ascending(roster)
    ensures OnePerTarget(RosterWords(id, alive, roster, now))
    ensures forall o :: o in RosterWords(id, alive, roster, now) ==> o.target in roster
  {
    if roster != [] {
      var rest, peer := roster[..|roster| - 1], roster[|roster| - 1];
      RosterWordsApart(id, alive, rest, now);
      var words := RosterWords(id, alive, rest, now);
      forall i | 0 <= i < |words| ensures words[i].target != peer {
        EarlierNames(roster, |rest|);
        assert words[i] in words && words[i].target in Elements(rest);
        BeforeIrreflexive(peer);
      }
    }
  }

  /** Each tells of one peer whether it is alive. */
  lemma {:induction false} RosterWordsTell(id: Name, alive: seq<Name>, roster: seq<Name>, now: Time)
    ensures forall p :: p in roster && p != id ==>
      Observation(id, p, "lantern", if p in alive then Up else Down, "", now, 0) in RosterWords(id, alive, roster, now)
    ensures forall o :: o in RosterWords(id, alive, roster, now) ==>
      && o.observer == id && o.target in roster && o.target != id && o.check == "lantern" && o.seen == now && o.ttl == 0
      && (o.state == Up <==> o.target in alive) && (o.state == Down <==> o.target !in alive)
  {
    if roster != [] {
      var rest, peer := roster[..|roster| - 1], roster[|roster| - 1];
      RosterWordsTell(id, alive, rest, now);
      assert roster == rest + [peer];
    }
  }

  method LivenessObservations(id: Name, alive: seq<Name>, roster: seq<Name>, now: Time) returns (obs: seq<Observation>)
    ensures obs == RosterWords(id, alive, roster, now)
    ensures Elements(obs) == PeerWords(id, alive, Elements(roster), now)
    ensures Ascending(roster) ==> OnePerTarget(obs)
    ensures forall p :: p in roster && p != id ==>
      Observation(id, p, "lantern", if p in alive then Up else Down, "", now, 0) in obs
    ensures forall o :: o in obs ==>
      && o.observer == id && o.target in roster && o.target != id && o.check == "lantern" && o.seen == now && o.ttl == 0
      && (o.state == Up <==> o.target in alive) && (o.state == Down <==> o.target !in alive)
  {
    obs := [];
    for i := 0 to |roster|
      invariant obs == RosterWords(id, alive, roster[..i], now)
    {
      PrefixGrows(roster, i);
      var peer := roster[i];
      if peer != id {
        obs := obs + [Observation(id, peer, "lantern", if peer in alive then Up else Down, "", now, 0)];
      }
    }
    assert roster[..|roster|] == roster;
    RosterWordsAre(id, alive, roster, now);
    RosterWordsTell(id, alive, roster, now);
    if Ascending(roster) {
      RosterWordsApart(id, alive, roster, now);
    }
  }
}
