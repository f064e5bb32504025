/**
 internal/lantern/blackout.go: many watched services at one address going dark together are one
 outage of the machine.
 */
module Blackout {
  import opened Base
  import opened Quorum

  const BLACKOUT_SITES: nat := 2
  const DEFAULT_BLACKOUT: int := 3

  // ---- Sites ----

  function TrimPrefix(s: string, prefix: string): string {
    if prefix <= s then s[|prefix|..] else s
  }

  function TrimSuffix(s: string, suffix: string): string {
    if |suffix| <= |s| && s[|s| - |suffix|..] == suffix then s[..|s| - |suffix|] else s
  }

  function UpToSlash(s: string): string {
    if s == "" || s[0] == '/' then "" else [s[0]] + UpToSlash(s[1..])
  }

  function SiteOf(target: string): string {
    TrimSuffix(UpToSlash(TrimPrefix(TrimPrefix(target, "https://"), "http://")), ":443")
  }

  lemma {:induction false} NoSlashToCut(host: string, rest: string)
    requires '/' !in host && (rest == "" || rest[0] == '/')
    ensures UpToSlash(host + rest) == host
  {
    if host == "" {
      assert host + rest == rest;
    } else {
      assert (host + rest)[1..] == host[1..] + rest;
      NoSlashToCut(host[1..], rest);
    }
  }

  /** The first slash of `s` is at `i`, and another one follows: how a URL's scheme ends. */
  predicate SchemeEnd(s: string, i: nat) {
    i + 1 < |s| && s[i] == '/' && s[i + 1] == '/' && '/' !in s[..i]
  }

  lemma SchemesEnd(s: string)
    ensures "https://" <= s ==> SchemeEnd(s, 6)
    ensures "http://" <= s ==> SchemeEnd(s, 5)
  {
    if "https://" <= s {
      assert s[..6] == "https:" && s[6] == s[7] == '/';
    }
    if "http://" <= s {
      assert s[..5] == "http:" && s[5] == s[6] == '/';
    }
  }

  lemma NoSchemeEnd(host: string, rest: string, i: nat)
    requires '/' !in host
    requires rest == "" || (rest[0] == '/' && (|rest| < 2 || rest[1] != '/'))
    ensures !SchemeEnd(host + rest, i)
  {
    var x := host + rest;
    if |host| < i <= |x| {
      assert x[|host|] == '/' && x[|host|] in x[..i];
    }
  }

  /** A bare host with a path does not look like a URL. */
  lemma NotAScheme(host: string, rest: string)
    requires '/' !in host
    requires rest == "" || (rest[0] == '/' && (|rest| < 2 || rest[1] != '/'))
    ensures !("https://" <= host + rest) && !("http://" <= host + rest)
  {
    SchemesEnd(host + rest);
    NoSchemeEnd(host, rest, 6);
    NoSchemeEnd(host, rest, 5);
  }

  lemma BareSite(host: string, rest: string)
    requires '/' !in host
    requires rest == "" || (rest[0] == '/' && (|rest| < 2 || rest[1] != '/'))
    ensures UpToSlash(TrimPrefix(host + rest, "http://")) == host
    ensures UpToSlash(TrimPrefix(TrimPrefix(host + rest, "https://"), "http://")) == host
  {
    NotAScheme(host, rest);
    NoSlashToCut(host, rest);
  }

  lemma PrefixTrimmed(prefix: string, rest: string)
    ensures TrimPrefix(prefix + rest, prefix) == rest
  {
  }

  lemma HttpsSite(host: string, path: string)
    requires '/' !in host && TrimSuffix(host, ":443") == host
    requires path == "" || (path[0] == '/' && (|path| < 2 || path[1] != '/'))
    ensures SiteOf("https://" + host + path) == host
  {
    BareSite(host, path);
    assert "https://" + host + path == "https://" + (host + path);
    PrefixTrimmed("https://", host + path);
  }

  lemma HttpSite(host: string, path: string)
    requires '/' !in host && TrimSuffix(host, ":443") == host
    requires path == "" || (path[0] == '/' && (|path| < 2 || path[1] != '/'))
    ensures SiteOf("http://" + host + path) == host
  {
    NoSlashToCut(host, path);
    var x := "http://" + host + path;
    assert x == "http://" + (host + path);
    assert x[4] == ':' && "https://"[4] == 's';
    assert TrimPrefix(x, "https://") == x;
    assert TrimPrefix(x, "http://") == host + path;
  }

  lemma PortSite(host: string)
    requires '/' !in host
    ensures SiteOf(host + ":443") == host
  {
    var h := host + ":443";
    assert h + "" == h;
    BareSite(h, "");
    assert h[|h| - 4..] == ":443" && h[..|h| - 4] == host;
  }

  /** The http and the cert of one site are one site: scheme, path and the implicit port do not count. */
  lemma OneSiteCountsOnce(host: string, path: string)
    requires '/' !in host && TrimSuffix(host, ":443") == host
    requires path == "" || (path[0] == '/' && (|path| < 2 || path[1] != '/'))
    ensures SiteOf("https://" + host + path) == host
    ensures SiteOf("http://" + host + path) == host
    ensures SiteOf(host + ":443") == host
  {
    HttpsSite(host, path);
    HttpSite(host, path);
    PortSite(host);
  }

  /** Any other port is part of the site. */
  lemma OtherPortsCount(site: string)
    requires '/' !in site && (|site| < 4 || site[|site| - 4..] != ":443")
    ensures SiteOf(site) == site
  {
    assert site + "" == site;
    BareSite(site, "");
  }

  // ---- Groups ----

  type Addresses = map<Subject, string>

  predicate LivesAt(d: Decision, addrs: Addresses, addr: string) {
    d.About() in addrs && addrs[d.About()] == addr && addr != ""
  }

  function Members(subjects: seq<Decision>, addrs: Addresses, addr: string): set<int> {
    set i | 0 <= i < |subjects| && LivesAt(subjects[i], addrs, addr)
  }

  function DownMembers(subjects: seq<Decision>, addrs: Addresses, addr: string): set<int> {
    set i | 0 <= i < |subjects| && LivesAt(subjects[i], addrs, addr) && subjects[i].state == Down
  }

  function Sites(subjects: seq<Decision>, addrs: Addresses, addr: string): set<string> {
    set i | i in Members(subjects, addrs, addr) :: SiteOf(subjects[i].target)
  }

  function DarkSites(subjects: seq<Decision>, addrs: Addresses, addr: string): set<string> {
    set i | i in DownMembers(subjects, addrs, addr) :: SiteOf(subjects[i].target)
  }

  /** Big enough to be capable of a blackout. */
  predicate Capable(subjects: seq<Decision>, addrs: Addresses, min: int, addr: string) {
    |Members(subjects, addrs, addr)| >= min && |Sites(subjects, addrs, addr)| >= BLACKOUT_SITES
  }

  /** Every watched subject at the address is down. */
  predicate Dark(subjects: seq<Decision>, addrs: Addresses, addr: string) {
    forall i :: i in Members(subjects, addrs, addr) ==> subjects[i].state == Down
  }

  function GroupDecision(subjects: seq<Decision>, addrs: Addresses, min: nat, addr: string): Decision {
    Decision(addr, "blackout", if Dark(subjects, addrs, addr) then Down else Up, "", false,
             |DownMembers(subjects, addrs, addr)|, |Members(subjects, addrs, addr)|, min, 0)
  }

  function GroupAddresses(subjects: seq<Decision>, addrs: Addresses): set<string> {
    set d | d in subjects && d.About() in addrs && addrs[d.About()] != "" :: addrs[d.About()]
  }

  datatype Group = Group(down: nat, known: nat, sites: set<string>, darkSites: set<string>)

  function GroupOf(subjects: seq<Decision>, addrs: Addresses, addr: string): Group {
    Group(|DownMembers(subjects, addrs, addr)|, |Members(subjects, addrs, addr)|,
          Sites(subjects, addrs, addr), DarkSites(subjects, addrs, addr))
  }

  const NO_GROUP: Group := Group(0, 0, {}, {})

  function Joined(g: Group, d: Decision): Group {
    var site := SiteOf(d.target);
    Group(if d.state == Down then g.down + 1 else g.down, g.known + 1, g.sites + {site},
          if d.state == Down then g.darkSites + {site} else g.darkSites)
  }

  lemma SitesGrow(subjects: seq<Decision>, d: Decision, addrs: Addresses, addr: string)
    ensures Sites(subjects + [d], addrs, addr)
         == if LivesAt(d, addrs, addr) then Sites(subjects, addrs, addr) + {SiteOf(d.target)}
             else Sites(subjects, addrs, addr)
    ensures DarkSites(subjects + [d], addrs, addr)
         == if LivesAt(d, addrs, addr) && d.state == Down then DarkSites(subjects, addrs, addr) + {SiteOf(d.target)}
            else DarkSites(subjects, addrs, addr)
  {
    var n, all := |subjects|, subjects + [d];
    assert all[n] == d;
    forall site | site in Sites(subjects, addrs, addr) ensures site in Sites(all, addrs, addr) {
      var i :| i in Members(subjects, addrs, addr) && SiteOf(subjects[i].target) == site;
      assert all[i] == subjects[i] && i in Members(all, addrs, addr);
    }
    forall site | site in DarkSites(subjects, addrs, addr) ensures site in DarkSites(all, addrs, addr) {
      var i :| i in DownMembers(subjects, addrs, addr) && SiteOf(subjects[i].target) == site;
      assert all[i] == subjects[i] && i in DownMembers(all, addrs, addr);
    }
    if LivesAt(d, addrs, addr) {
      assert n in Members(all, addrs, addr);
      assert d.state == Down ==> n in DownMembers(all, addrs, addr);
    }
  }

  lemma GroupGrows(subjects: seq<Decision>, d: Decision, addrs: Addresses, addr: string)
    ensures GroupOf(subjects + [d], addrs, addr)
         == if LivesAt(d, addrs, addr) then Joined(GroupOf(subjects, addrs, addr), d)
             else GroupOf(subjects, addrs, addr)
  {
    var n, all := |subjects|, subjects + [d];
    if LivesAt(d, addrs, addr) {
      assert Members(all, addrs, addr) == Members(subjects, addrs, addr) + {n};
      if d.state == Down {
        assert DownMembers(all, addrs, addr) == DownMembers(subjects, addrs, addr) + {n};
      } else {
        assert DownMembers(all, addrs, addr) == DownMembers(subjects, addrs, addr);
      }
    } else {
      assert Members(all, addrs, addr) == Members(subjects, addrs, addr);
      assert DownMembers(all, addrs, addr) == DownMembers(subjects, addrs, addr);
    }
    SitesGrow(subjects, d, addrs, addr);
  }

  /** In a capable group the source's three counters say no more than that everybody is down. */
  lemma CountersMeanDark(subjects: seq<Decision>, addrs: Addresses, min: int, addr: string)
    requires Capable(subjects, addrs, min, addr)
    ensures
      var g := GroupOf(subjects, addrs, addr);
      (g.down == g.known && g.down >= min && |g.darkSites| >= BLACKOUT_SITES) <==> Dark(subjects, addrs, addr)
  {
    var all, down := Members(subjects, addrs, addr), DownMembers(subjects, addrs, addr);
    if Dark(subjects, addrs, addr) {
      assert down == all;
    } else {
      var i :| i in all && subjects[i].state != Down;
      SubsetSize(down, all - {i});
    }
  }

  ghost predicate GroupAt(subjects: seq<Decision>, addrs: Addresses, a: string, groups: map<string, Group>) {
    GroupOf(subjects, addrs, a) == if a in groups then groups[a] else NO_GROUP
  }

  ghost predicate Grouped(groups: map<string, Group>, subjects: seq<Decision>, addrs: Addresses) {
    && groups.Keys == GroupAddresses(subjects, addrs)
    && forall a :: GroupAt(subjects, addrs, a, groups)
  }

  function Counted(groups: map<string, Group>, s: Decision, addrs: Addresses): map<string, Group> {
    if s.About() in addrs && addrs[s.About()] != "" then
      var addr := addrs[s.About()];
      groups[addr := Joined(if addr in groups then groups[addr] else NO_GROUP, s)]
    else groups
  }

  lemma AddressesGrow(subjects: seq<Decision>, s: Decision, addrs: Addresses)
    ensures GroupAddresses(subjects + [s], addrs)
         == GroupAddresses(subjects, addrs) + if s.About() in addrs && addrs[s.About()] != "" then {addrs[s.About()]}
             else {}
  {
    assert forall d :: d in subjects + [s] <==> d in subjects || d == s;
  }

  lemma CountedIsJoined(groups: map<string, Group>, s: Decision, addrs: Addresses, a: string)
    ensures
      var grown := Counted(groups, s, addrs);
      var before := if a in groups then groups[a] else NO_GROUP;
      (if a in grown then grown[a] else NO_GROUP) == (if LivesAt(s, addrs, a) then Joined(before, s) else before)
    ensures Counted(groups, s, addrs).Keys
         == groups.Keys + if s.About() in addrs && addrs[s.About()] != "" then {addrs[s.About()]} else {}
  {
  }

  lemma GroupsGrow(groups: map<string, Group>, subjects: seq<Decision>, s: Decision, addrs: Addresses)
    requires Grouped(groups, subjects, addrs)
    ensures Grouped(Counted(groups, s, addrs), subjects + [s], addrs)
  {
    AddressesGrow(subjects, s, addrs);
    CountedIsJoined(groups, s, addrs, "");
    var grown := Counted(groups, s, addrs);
    forall a ensures GroupAt(subjects + [s], addrs, a, grown) {
      assert GroupAt(subjects, addrs, a, groups);
      CountedIsJoined(groups, s, addrs, a);
      GroupGrows(subjects, s, addrs, a);
    }
  }

  method Count(groups: map<string, Group>, s: Decision, addrs: Addresses) returns (grown: map<string, Group>)
    ensures grown == Counted(groups, s, addrs)
  {
    grown := groups;
    if s.About() in addrs && addrs[s.About()] != "" {
      var addr := addrs[s.About()];
      var g := if addr in groups then groups[addr] else NO_GROUP;
      g := g.(known := g.known + 1, sites := g.sites + {SiteOf(s.target)});
      if s.state == Down {
        g := g.(down := g.down + 1, darkSites := g.darkSites + {SiteOf(s.target)});
      }
      grown := groups[addr := g];
    }
  }

  lemma EmptyGrouped(addrs: Addresses)
    ensures Grouped(map[], [], addrs)
  {
    forall a ensures GroupAt([], addrs, a, map[]) {
      assert Members([], addrs, a) == {} && DownMembers([], addrs, a) == {};
    }
  }

  method GroupByAddress(subjects: seq<Decision>, addrs: Addresses) returns (groups: map<string, Group>)
    ensures Grouped(groups, subjects, addrs)
  {
    groups := map[];
    EmptyGrouped(addrs);
    for i := 0 to |subjects|
      invariant Grouped(groups, subjects[..i], addrs)
    {
      assert subjects[..i + 1] == subjects[..i] + [subjects[i]];
      GroupsGrow(groups, subjects[..i], subjects[i], addrs);
      groups := Count(groups, subjects[i], addrs);
    }
    assert subjects[..|subjects|] == subjects;
  }

  /** `out` holds, in order, the decision of every capable address among `done`. */
  ghost predicate Covers(out: seq<Decision>, done: set<string>, subjects: seq<Decision>, addrs: Addresses, min: nat) {
    && (forall d :: d in out ==>
          && d.target in done && Capable(subjects, addrs, min, d.target)
          && d == GroupDecision(subjects, addrs, min, d.target))
    && (forall a :: a in done && Capable(subjects, addrs, min, a) ==> GroupDecision(subjects, addrs, min, a) in out)
    && (forall i, j :: 0 <= i < j < |out| ==> Before(out[i].target, out[j].target))
  }

  lemma CoversMore(out: seq<Decision>, done: set<string>, subjects: seq<Decision>, addrs: Addresses, min: nat,
                   addr: string)
    requires Covers(out, done, subjects, addrs, min) && forall x :: x in done ==> Before(x, addr)
    ensures Capable(subjects, addrs, min, addr) ==>
      Covers(out + [GroupDecision(subjects, addrs, min, addr)], done + {addr}, subjects, addrs, min)
    ensures !Capable(subjects, addrs, min, addr) ==> Covers(out, done + {addr}, subjects, addrs, min)
  {
    var more := GroupDecision(subjects, addrs, min, addr);
    assert forall d :: d in out + [more] <==> d in out || d == more;
  }

  /** The decisions of all capable addresses and no others, in address order. */
  ghost predicate BlackoutsOf(out: seq<Decision>, subjects: seq<Decision>, addrs: Addresses, min: int) {
    if min <= 0 then out == []
    else
      && (forall d :: d in out ==>
            Capable(subjects, addrs, min, d.target) && d == GroupDecision(subjects, addrs, min, d.target))
      && (forall a :: Capable(subjects, addrs, min, a) ==> GroupDecision(subjects, addrs, min, a) in out)
      && (forall i, j :: 0 <= i < j < |out| ==> Before(out[i].target, out[j].target))
  }

  lemma CapableIsGrouped(subjects: seq<Decision>, addrs: Addresses, min: int, a: string)
    requires min > 0 && Capable(subjects, addrs, min, a)
    ensures a in GroupAddresses(subjects, addrs)
  {
    var i :| i in Members(subjects, addrs, a);
    assert subjects[i] in subjects;
  }

  /** One decision for every address capable of a blackout, dark or not, in address order. */
  method Blackout(subjects: seq<Decision>, addrs: Addresses, min: int) returns (out: seq<Decision>)
    ensures BlackoutsOf(out, subjects, addrs, min)
  {
    out := [];
    if min <= 0 {
      return;
    }
    var groups := GroupByAddress(subjects, addrs);
    var names := SortNames(groups.Keys);
    for i := 0 to |names|
      invariant Covers(out, Elements(names[..i]), subjects, addrs, min)
    {
      var addr := names[i];
      EarlierNames(names, i);
      assert addr in Elements(names);
      CoversMore(out, Elements(names[..i]), subjects, addrs, min, addr);
      var g := groups[addr];
      assert GroupAt(subjects, addrs, addr, groups);
      if !(g.known < min || |g.sites| < BLACKOUT_SITES) {
        CountersMeanDark(subjects, addrs, min, addr);
        var d := Decision(addr, "blackout", Up, "", false, g.down, g.known, min, 0);
        if g.down == g.known && g.down >= min && |g.darkSites| >= BLACKOUT_SITES {
          d := d.(state := Down);
        }
        assert d == GroupDecision(subjects, addrs, min, addr);
        out := out + [d];
      }
    }
    assert names[..|names|] == names;
    forall a | Capable(subjects, addrs, min, a) ensures GroupDecision(subjects, addrs, min, a) in out {
      CapableIsGrouped(subjects, addrs, min, a);
    }
  }

  // ---- What a group's decision depends on ----

  /** The subjects living at an address. */
  function Residents(subjects: seq<Decision>, addrs: Addresses, addr: string): set<Subject> {
    set i | i in Members(subjects, addrs, addr) :: subjects[i].About()
  }

  /** No subject has two decisions. */
  predicate Apart(subjects: seq<Decision>) {
    forall i, j :: 0 <= i < j < |subjects| ==> subjects[i].About() != subjects[j].About()
  }

  lemma OneEach(subjects: seq<Decision>, addrs: Addresses, addr: string)
    requires Apart(subjects)
    ensures |Residents(subjects, addrs, addr)| == |Members(subjects, addrs, addr)|
  {
    var all := Members(subjects, addrs, addr);
    var about := (i: int) => if 0 <= i < |subjects| then subjects[i].About() else Subject("", "");
    InjectiveImage(about, all);
    forall s | s in Residents(subjects, addrs, addr) ensures s in Image(about, all) {
      var i :| i in all && subjects[i].About() == s;
      assert about(i) == s;
    }
    assert Residents(subjects, addrs, addr) == Image(about, all);
  }

  lemma SitesOfResidents(xs: seq<Decision>, addrs: Addresses, addr: string)
    ensures Sites(xs, addrs, addr) == set s | s in Residents(xs, addrs, addr) :: SiteOf(s.target)
  {
    forall site | site in Sites(xs, addrs, addr)
        ensures exists s :: s in Residents(xs, addrs, addr) && SiteOf(s.target) == site {
      var i :| i in Members(xs, addrs, addr) && SiteOf(xs[i].target) == site;
      assert xs[i].About() in Residents(xs, addrs, addr) && xs[i].About().target == xs[i].target;
    }
  }

  /** Which addresses are spoken about depends on who lives there and never on any state. */
  lemma CapableIgnoresStates(xs: seq<Decision>, ys: seq<Decision>, addrs: Addresses, books: Addresses, min: int,
                             addr: string)
    requires Apart(xs) && Apart(ys) && Residents(xs, addrs, addr) == Residents(ys, books, addr)
    ensures Capable(xs, addrs, min, addr) <==> Capable(ys, books, min, addr)
  {
    OneEach(xs, addrs, addr);
    OneEach(ys, books, addr);
    SitesOfResidents(xs, addrs, addr);
    SitesOfResidents(ys, books, addr);
  }

  // ---- The rule in full ----

  /** The subjects on the list that live at the address, by their places. */
  function At(subjects: seq<Decision>, addrs: Addresses, addr: string): set<int> {
    set i | 0 <= i < |subjects| && Subject(subjects[i].check, subjects[i].target) in addrs
            && addrs[Subject(subjects[i].check, subjects[i].target)] == addr
  }

  /**
   An address is spoken of if and only if at least `min` subjects live there, at two sites or more, and then once:
   Down if and only if all of them are down, with the number that are as votes and of all as voters.
   */
  lemma BlackoutRule(out: seq<Decision>, subjects: seq<Decision>, addrs: Addresses, min: int, addr: string)
    requires BlackoutsOf(out, subjects, addrs, min)
    ensures
      var at := At(subjects, addrs, addr);
      var down := set i | i in at && subjects[i].state == Down;
      && ((exists d :: d in out && d.target == addr) <==>
            min > 0 && addr != "" && |at| >= min && |set i | i in at :: SiteOf(subjects[i].target)| >= 2)
      && (forall d :: d in out && d.target == addr ==>
            && d.check == "blackout" && d.votes == |down| && d.voters == |at| && d.needed == min && !d.authority
            && (d.state == Down <==> forall i :: i in at ==> subjects[i].state == Down)
            && (d.state == Up <==> exists i :: i in at && subjects[i].state != Down))
      && (forall i, j :: 0 <= i < |out| && 0 <= j < |out| && out[i].target == out[j].target ==> i == j)
  {
    var at := At(subjects, addrs, addr);
    if addr != "" {
      assert Members(subjects, addrs, addr) == at;
      assert DownMembers(subjects, addrs, addr) == set i | i in at && subjects[i].state == Down;
      assert Sites(subjects, addrs, addr) == set i | i in at :: SiteOf(subjects[i].target);
      if min > 0 && Capable(subjects, addrs, min, addr) {
        assert GroupDecision(subjects, addrs, min, addr) in out;
      }
    } else {
      assert Members(subjects, addrs, addr) == {};
    }
    forall i, j | 0 <= i < |out| && 0 <= j < |out| && out[i].target == out[j].target ensures i == j {
      BeforeIrreflexive(out[i].target);
    }
  }
}
