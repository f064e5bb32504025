/**
 From what was delivered to what is paged: lanterns that were told the same words, in whatever order, chunking
 and multiplicity and with details trimmed or not, page exactly once.
 */
module Deliveries {
  import opened Base
  import opened Quorum
  import opened Memory
  import opened Merge
  import opened Fleet
  import T = Tracker
  import L = TrackerLife
  import Paging

  /** What a lantern held and what it was then told. */
  datatype Inbox = Inbox(id: Name, held: Memory, told: seq<Observation>)
  {
    function Store(): Store {
      HeardAll(id, held, told).store
    }

    /** Everything it could hold. */
    function News(): set<Observation> {
      Pool(id, held, told)
    }
  }

  /** Nothing it was told lifts a tombstone, and nobody contradicts itself within one instant. */
  ghost predicate Plain(x: Inbox) {
    && x.id !in x.held.departed && WellKeyed(x.held.store) && Coherent(x.News())
    && forall o :: o in x.told ==> LeavesTombs(x.id, x.held, o)
  }

  /** The two have the same words under every key, up to detail. */
  ghost predicate SameNews(x: Inbox, y: Inbox) {
    forall k :: Words(x.News(), k) == Words(y.News(), k)
  }

  lemma {:induction false} HeardAllWellKeyed(id: Name, m: Memory, obs: seq<Observation>)
    requires WellKeyed(m.store)
    ensures WellKeyed(HeardAll(id, m, obs).store)
  {
    if obs != [] {
      HeardAllWellKeyed(id, m, obs[..|obs| - 1]);
    }
  }

  /** The same news leaves stores that agree on every subject. */
  lemma SameNewsAgree(x: Inbox, y: Inbox, s: Subject)
    requires Plain(x) && Plain(y) && SameNews(x, y)
    ensures AgreeOn(x.Store(), y.Store(), s)
  {
    forall n
      ensures
        var k := Key(n, s.check, s.target);
        (k in x.Store() <==> k in y.Store()) && (k in x.Store() ==> Alike(x.Store()[k], y.Store()[k]))
    {
      MergeConverges(x.id, x.held, x.told, y.id, y.held, y.told, Key(n, s.check, s.target));
    }
  }

  /** The order and the repetitions of what the same lantern is told make no difference to the news. */
  lemma OrderIsNoNews(x: Inbox, y: Inbox)
    requires x.id == y.id && x.held == y.held && Elements(x.told) == Elements(y.told)
    ensures SameNews(x, y)
  {
    assert forall o :: o in x.told <==> o in Elements(x.told);
    assert forall o :: o in y.told <==> o in Elements(y.told);
    assert Taken(x.id, x.held, x.told) == Taken(y.id, y.held, y.told);
  }

  // ---- Flash by flash ----

  /** The store read at every flash is what had been delivered by then. */
  ghost predicate ReadsAll(sights: seq<Sight>, inboxes: seq<Inbox>) {
    && |sights| == |inboxes|
    && forall f :: 0 <= f < |sights| ==> Plain(inboxes[f]) && sights[f].reading.store == inboxes[f].Store()
  }

  ghost predicate SameNewsThroughout(inboxes: seq<Inbox>, others: seq<Inbox>) {
    |inboxes| == |others| && forall f :: 0 <= f < |inboxes| ==> SameNews(inboxes[f], others[f])
  }

  /** Rosters, address books, alive lists and clocks agree. */
  ghost predicate SameBesides(v: Sight, w: Sight) {
    v.(reading := w.reading) == w && v.reading.(store := w.reading.store) == w.reading
  }

  ghost predicate SameBesidesThroughout(sights: seq<Sight>, others: seq<Sight>) {
    |sights| == |others| && forall f :: 0 <= f < |sights| ==> SameBesides(sights[f], others[f])
  }

  lemma SameNewsSameSight(v: Sight, x: Inbox, w: Sight, y: Inbox)
    requires Plain(x) && Plain(y) && SameNews(x, y) && SameBesides(v, w)
    requires v.reading.store == x.Store() && w.reading.store == y.Store()
    ensures SameSight(v, w)
  {
    HeardAllWellKeyed(x.id, x.held, x.told);
    HeardAllWellKeyed(y.id, y.held, y.told);
    forall s ensures AgreeOn(x.Store(), y.Store(), s) {
      SameNewsAgree(x, y, s);
    }
  }

  lemma SameNewsSameSights(sights: seq<Sight>, inboxes: seq<Inbox>, others: seq<Sight>, theirs: seq<Inbox>)
    requires ReadsAll(sights, inboxes) && ReadsAll(others, theirs)
    requires SameNewsThroughout(inboxes, theirs) && SameBesidesThroughout(sights, others)
    ensures SameSights(sights, others)
  {
    forall f | 0 <= f < |sights| ensures SameSight(sights[f], others[f]) {
      SameNewsSameSight(sights[f], inboxes[f], others[f], theirs[f]);
    }
  }

  /**
   Exactly-once paging from what was delivered. If by every flash every lantern has been told the same words, up to
   detail and in any order, and besides that they agree on rosters, address books, who is alive and the clock, the
   fleet sends what any one of them announced, once.
   */
  lemma DeliveriesArePagedExactlyOnce(cfg: T.Config, fleet: seq<Name>, runs: seq<seq<T.Call>>,
                                      sights: seq<seq<Sight>>, inboxes: seq<seq<Inbox>>, k: nat)
    requires |fleet| == |runs| == |sights| == |inboxes| && k < |fleet| && Paging.Distinct(fleet)
    requires forall i :: 0 <= i < |runs| ==> ReportsAll(runs[i], sights[i]) && ReadsAll(sights[i], inboxes[i])
    requires forall i :: 0 <= i < |runs| ==>
      SameNewsThroughout(inboxes[i], inboxes[k]) && SameBesidesThroughout(sights[i], sights[k])
    requires forall v :: v in sights[k] ==> Paging.Manned(v.alive, fleet)
    ensures Paging.AllSent(fleet, Logs(cfg, runs)) == Paging.Announced(L.Run(cfg, runs[k]).1)
  {
    forall i | 0 <= i < |runs| ensures SameSights(sights[i], sights[k]) {
      SameNewsSameSights(sights[i], inboxes[i], sights[k], inboxes[k]);
    }
    ConvergedFleetPagesExactlyOnce(cfg, fleet, runs, sights, k);
  }
}
