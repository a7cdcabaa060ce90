/** The games cache as an object: licences and titles arrive, the ready event follows, and the plugin reads the library. */
module GamesCache {
  import opened Maybe
  import opened Licenses
  import opened Selections
  import Decimal

  /** A Python set member: a number and its text are different members. */
  datatype Key = Number(n: nat) | Word(s: string)

  const WITCHER_3_DLCS_APP_IDS := ["355880", "378648", "378649"]

  // ---------- What the library shows ----------

  /** Whether reading the library for apps of a kind yields this one; two DLC ids also pass as games. */
  predicate Emits(app: App, appid: string, kind: string) {
    app.kind == kind || (kind == "game" && app.kind == "dlc" && appid in WITCHER_3_DLCS_APP_IDS)
  }

  ghost function Offered(l: License, apps: map<string, App>, kind: string): set<App> {
    set a | a in l.appIds && a in apps && Emits(apps[a], a, kind) :: apps[a]
  }

  /** What one licence contributes to the library of a flag and kind. */
  ghost function Share(l: License, apps: map<string, App>, shared: bool, kind: string): multiset<App> {
    if l.shared == shared then multiset(Offered(l, apps, kind)) else multiset{}
  }

  /** Every app of every licence with the flag, once per licence. */
  ghost function Library(licenses: seq<License>, apps: map<string, App>, shared: bool, kind: string): multiset<App> {
    if licenses == [] then multiset{}
    else Library(licenses[..|licenses| - 1], apps, shared, kind) + Share(licenses[|licenses| - 1], apps, shared, kind)
  }

  ghost function Open(l: License, titled: set<string>): set<string> {
    set a | a in l.appIds && a !in titled
  }

  /** How many unresolved apps a reading of one licence meets. */
  ghost function Gap(l: License, titled: set<string>, shared: bool): nat {
    if l.shared == shared then |Open(l, titled)| else 0
  }

  ghost function Missing(licenses: seq<License>, titled: set<string>, shared: bool): nat {
    if licenses == [] then 0
    else Missing(licenses[..|licenses| - 1], titled, shared) + Gap(licenses[|licenses| - 1], titled, shared)
  }

  function OfKind(apps: seq<App>, kind: string): seq<App> {
    if apps == [] then []
    else OfKind(apps[..|apps| - 1], kind) + (if apps[|apps| - 1].kind == kind then [apps[|apps| - 1]] else [])
  }

  /** Apps are stored under their own ids. */
  ghost predicate Keyed(apps: map<string, App>) {
    forall k :: k in apps ==> apps[k].appid == k
  }

  /** What happens to a cache: a list of licences, or a report. */
  datatype Change = Listing(steam: seq<SteamLicense>) | Reporting(r: Report)

  function After(c: Cache, change: Change): Cache {
    match change
    case Listing(steam) => ImportLicenses(c, steam).0
    case Reporting(r) => Take(c, r)
  }

  function AfterAll(c: Cache, changes: seq<Change>): Cache {
    if changes == [] then c else After(AfterAll(c, changes[..|changes| - 1]), changes[|changes| - 1])
  }

  /** In every run that starts with an empty map, or another keyed one, the map is keyed. */
  lemma {:induction false} AlwaysKeyed(c: Cache, changes: seq<Change>)
    requires Keyed(c.apps)
    ensures Keyed(AfterAll(c, changes).apps)
    decreases |changes|
  {
    if changes != [] {
      AlwaysKeyed(c, changes[..|changes| - 1]);
    }
  }

  /** When all apps are titled, reading the library meets no unresolved app. */
  lemma {:induction false} NothingMissing(licenses: seq<License>, titled: set<string>, shared: bool)
    requires forall l :: l in licenses ==> l.appIds <= titled
    ensures Missing(licenses, titled, shared) == 0
  {
    if licenses != [] {
      var l := licenses[|licenses| - 1];
      assert l in licenses;
      assert Open(l, titled) == {};
      NothingMissing(licenses[..|licenses| - 1], titled, shared);
    }
  }

  /** The licence shows the app: it holds its id, the app is titled, and of the kind, or one of three DLCs read as a game. */
  ghost predicate ShowsApp(l: License, apps: map<string, App>, kind: string, x: App) {
    exists a :: a in l.appIds && a in apps && apps[a] == x
                && (x.kind == kind || (kind == "game" && x.kind == "dlc" && a in {"355880", "378648", "378649"}))
  }

  /** The places of the licences of that sharing which show the app. */
  ghost function ShownBy(licenses: seq<License>, apps: map<string, App>, shared: bool, kind: string, x: App): set<int> {
    set i | 0 <= i < |licenses| && licenses[i].shared == shared && ShowsApp(licenses[i], apps, kind, x)
  }

  lemma {:induction false} OfferedExactly(l: License, apps: map<string, App>, kind: string, x: App)
    ensures x in Offered(l, apps, kind) <==> ShowsApp(l, apps, kind, x)
  {
    assert forall a: string :: a in WITCHER_3_DLCS_APP_IDS <==> a in {"355880", "378648", "378649"};
  }

  lemma {:induction false} ShownNext(licenses: seq<License>, apps: map<string, App>, shared: bool, kind: string, x: App)
    requires licenses != []
    ensures var n := |licenses| - 1;
            var before, all := ShownBy(licenses[..n], apps, shared, kind, x), ShownBy(licenses, apps, shared, kind, x);
            && n !in before
            && all == if licenses[n].shared == shared && ShowsApp(licenses[n], apps, kind, x) then before + {n} else before
  {
    assert forall i :: 0 <= i < |licenses| - 1 ==> licenses[..|licenses| - 1][i] == licenses[i];
  }

  lemma {:induction false} ShareExactly(l: License, apps: map<string, App>, shared: bool, kind: string, x: App)
    ensures Share(l, apps, shared, kind)[x] == if l.shared == shared && ShowsApp(l, apps, kind, x) then 1 else 0
  {
    OfferedExactly(l, apps, kind, x);
  }

  /** The library holds an app exactly as often as licences of that sharing show it. */
  lemma {:induction false} LibraryExactly(licenses: seq<License>, apps: map<string, App>, shared: bool, kind: string, x: App)
    ensures Library(licenses, apps, shared, kind)[x] == |ShownBy(licenses, apps, shared, kind, x)|
    decreases |licenses|
  {
    if licenses == [] {
      assert ShownBy(licenses, apps, shared, kind, x) == {};
    } else {
      LibraryExactly(licenses[..|licenses| - 1], apps, shared, kind, x);
      ShareExactly(licenses[|licenses| - 1], apps, shared, kind, x);
      ShownNext(licenses, apps, shared, kind, x);
    }
  }

  /** Exactly the apps of the kind, in order. */
  lemma {:induction false} OfKindExactly(apps: seq<App>, kind: string)
    ensures Selects(apps, (x: App) => x.kind == kind, OfKind(apps, kind))
  {
    OfKindSelected(apps, kind, (x: App) => x.kind == kind);
  }

  lemma {:induction false} OfKindSelected(apps: seq<App>, kind: string, p: App -> bool)
    requires forall x :: p(x) <==> x.kind == kind
    ensures Selects(apps, p, OfKind(apps, kind))
    decreases |apps|
  {
    if apps == [] {
      SelectsNothing(p);
    } else {
      OfKindSelected(apps[..|apps| - 1], kind, p);
      SelectsAll(apps, p, OfKind(apps[..|apps| - 1], kind), OfKind(apps, kind));
    }
  }

  lemma {:induction false} OfKindAppend(apps: seq<App>, app: App, kind: string)
    ensures OfKind(apps + [app], kind) == OfKind(apps, kind) + (if app.kind == kind then [app] else [])
  {
    assert (apps + [app])[..|apps|] == apps;
  }

  class GamesCache {
    var licenses: seq<License>
    var apps: map<string, App>
    var packagesToParse: Option<int>
    var appsToParse: Option<int>
    var ready: bool
    var addGameLever: bool
    var sentApps: seq<App>
    var appsAdded: seq<App>

    constructor ()
      ensures View() == Cache([], map[], None, None, false, false, [], [])
    {
      licenses, apps, packagesToParse, appsToParse := [], map[], None, None;
      ready, addGameLever, sentApps, appsAdded := false, false, [], [];
    }

    ghost function View(): Cache
      reads this
    {
      Cache(licenses, apps, packagesToParse, appsToParse, ready, addGameLever, sentApps, appsAdded)
    }

    method UpdateReadyState()
      modifies this`ready
      ensures View() == UpdateReady(old(View()))
    {
      if packagesToParse == Some(0) && appsToParse == Some(0) {
        if ready {
          return;
        }
        ready := true;
      } else {
        ready := false;
      }
    }

    method GetPackageIds() returns (ids: set<Key>)
      ensures ids == set p | p in PackageIds(licenses) :: Word(p)
    {
      ids := set l | l in licenses :: Word(l.packageId);
    }

    /** The membership test compares a number with texts, so no listed licence is ever skipped. */
    method StartPackagesImport(steam: seq<SteamLicense>)
      modifies this`licenses, this`packagesToParse, this`appsToParse, this`ready
      ensures View() == StartImport(old(View()), steam)
    {
      var packageIds := GetPackageIds();
      var count := 0;
      for i := 0 to |steam|
        invariant count == i
        invariant licenses == old(licenses) + NewLicenses(steam[..i])
      {
        assert steam[..i + 1][..i] == steam[..i];
        if Number(steam[i].packageId) !in packageIds {
          licenses := licenses + [License(Decimal.Text(steam[i].packageId), steam[i].shared, {})];
          count := count + 1;
        }
      }
      assert steam[..|steam|] == steam;
      packagesToParse := Some(count);
      appsToParse := Some(0);
      UpdateReadyState();
    }

    method ResetStoringMap()
      modifies this`licenses, this`apps
      ensures View() == ResetMap(old(View()))
    {
      licenses, apps := [], map[];
    }

    method UpdatePackages() returns (raised: bool)
      modifies this`packagesToParse, this`ready
      ensures raised == Raises(old(View()), PackageReported) && View() == Take(old(View()), PackageReported)
    {
      if packagesToParse == None {
        return true;
      }
      packagesToParse := Some(packagesToParse.value - 1);
      UpdateReadyState();
      raised := false;
    }

    method UpdateLicenseApps(packageId: string, appid: string) returns (raised: bool)
      modifies this`licenses, this`appsToParse
      ensures raised == Raises(old(View()), AppReported(packageId, appid))
      ensures View() == Take(old(View()), AppReported(packageId, appid))
    {
      if appsToParse == None {
        return true;
      }
      appsToParse := Some(appsToParse.value + 1);
      ghost var all := AddApp(licenses, packageId, appid);
      for i := 0 to |licenses|
        invariant |licenses| == |all| == |old(licenses)| && appsToParse == Some(old(appsToParse).value + 1)
        invariant licenses[..i] == all[..i] && licenses[i..] == old(licenses)[i..]
      {
        AddAppAt(old(licenses), packageId, appid, i);
        assert licenses[i] == licenses[i..][0] == old(licenses)[i];
        ghost var before := licenses;
        if licenses[i].packageId == packageId {
          licenses := licenses[i := licenses[i].(appIds := licenses[i].appIds + {appid})];
        }
        assert licenses[i] == all[i];
        assert licenses[..i + 1] == before[..i] + [licenses[i]];
        assert licenses[i + 1..] == before[i..][1..];
      }
      assert licenses == licenses[..|licenses|] == all[..|licenses|] == all;
      raised := false;
    }

    method UpdateAppTitle(app: App) returns (raised: bool)
      modifies this`apps, this`appsToParse, this`appsAdded, this`ready
      ensures raised == Raises(old(View()), AppTitled(app)) && View() == Take(old(View()), AppTitled(app))
    {
      ghost var holders := Holders(licenses, app.appid);
      ghost var seen := 0;
      for i := 0 to |licenses|
        invariant seen + Holders(licenses[i..], app.appid) == holders
        invariant appsToParse == if old(appsToParse) == None then None else Some(old(appsToParse).value - seen)
        invariant appsToParse == None ==> seen == 0
        invariant apps == old(apps) && appsAdded == old(appsAdded) && ready == old(ready)
      {
        assert licenses[i..][1..] == licenses[i + 1..];
        if app.appid in licenses[i].appIds {
          if appsToParse == None {
            return true;
          }
          appsToParse := Some(appsToParse.value - 1);
          seen := seen + 1;
        }
      }
      apps := apps[app.appid := app];
      if addGameLever && app !in sentApps {
        appsAdded := appsAdded + [app];
      }
      UpdateReadyState();
      raised := false;
    }

    /** The handler of app infos. */
    method HandleAppInfo(i: Info) returns (raised: bool)
      modifies this`licenses, this`apps, this`appsToParse, this`appsAdded, this`ready
      ensures (View(), raised) == TakeInfo(old(View()), i)
    {
      raised := false;
      if Given(i.packageId) {
        raised := UpdateLicenseApps(i.packageId.value, i.appid);
        if raised {
          return;
        }
      }
      if GivesTitle(i) {
        raised := UpdateAppTitle(App(i.appid, i.title.value, i.kind.value, i.parent));
      }
    }

    method GetResolvedPackages() returns (packages: set<string>)
      ensures packages == Resolved(licenses, apps.Keys)
    {
      packages := {};
      for i := 0 to |licenses|
        invariant packages == Resolved(licenses[..i], apps.Keys)
      {
        var l := licenses[i];
        assert licenses[..i + 1] == licenses[..i] + [l];
        if l.appIds != {} {
          var resolved, rest := true, l.appIds;
          while rest != {}
            invariant rest <= l.appIds
            invariant resolved <==> l.appIds - rest <= apps.Keys
            decreases |rest|
          {
            var appid :| appid in rest;
            if appid !in apps {
              resolved := false;
            }
            rest := rest - {appid};
          }
          assert l.appIds - rest == l.appIds;
          if resolved {
            packages := packages + {l.packageId};
          }
        }
      }
      assert licenses[..|licenses|] == licenses;
    }

    /** Which licences are asked for, and the import that this starts. */
    method HandleLicenses(steam: seq<SteamLicense>) returns (asked: seq<SteamLicense>)
      modifies this
      ensures (View(), asked) == ImportLicenses(old(View()), steam)
    {
      var open: seq<SteamLicense> := [];
      var resolved := GetResolvedPackages();
      var packageIds := set l | l in steam :: Word(Decimal.Text(l.packageId));
      for i := 0 to |steam|
        invariant open == StillOpen(steam[..i], resolved)
      {
        assert steam[..i + 1][..i] == steam[..i];
        if Decimal.Text(steam[i].packageId) !in resolved {
          open := open + [steam[i]];
        }
      }
      assert steam[..|steam|] == steam;
      WordsOf(SteamIds(steam), PackageIds(licenses));
      assert packageIds == set p | p in SteamIds(steam) :: Word(p);
      if |packageIds| < BIG_LIBRARY {
        var cached := GetPackageIds();
        if packageIds != cached {
          ResetStoringMap();
          StartPackagesImport(steam);
          return steam;
        }
      }
      StartPackagesImport(open);
      asked := open;
    }

    /** The games added since the last call, all of which now count as sent. */
    method ConsumeAddedGames() returns (games: seq<App>)
      modifies this`sentApps, this`appsAdded
      ensures appsAdded == [] && sentApps == old(sentApps) + old(appsAdded) && games == OfKind(old(appsAdded), "game")
    {
      var added := appsAdded;
      appsAdded := [];
      games := [];
      for i := 0 to |added|
        invariant appsAdded == []
        invariant sentApps == old(sentApps) + added[..i] && games == OfKind(added[..i], "game")
      {
        assert added[..i + 1] == added[..i] + [added[i]];
        OfKindAppend(added[..i], added[i], "game");
        sentApps := sentApps + [added[i]];
        if added[i].kind == "game" {
          games := games + [added[i]];
        }
      }
      assert added[..|added|] == added;
    }

    /** Yields one resolved app, after those yielded so far, and remembers it as sent if it is of the kind. */
    method ConsumeApp(app: App, appid: string, kind: string, before: seq<App>, ghost sent: seq<App>)
      returns (yielded: seq<App>)
      requires sentApps == sent + OfKind(before, kind)
      modifies this`sentApps
      ensures yielded == before + (if Emits(app, appid, kind) then [app] else [])
      ensures sentApps == sent + OfKind(yielded, kind)
    {
      yielded := before;
      OfKindAppend(before, app, kind);
      if app.kind == kind {
        sentApps := sentApps + [app];
        yielded := yielded + [app];
      } else if kind == "game" && app.kind == "dlc" && appid in WITCHER_3_DLCS_APP_IDS {
        yielded := yielded + [app];
      }
    }

    /** The apps of one licence, in whatever order the set gives them. */
    method ConsumeIds(l: License, kind: string, before: seq<App>, ghost sent: seq<App>)
      returns (yielded: seq<App>, missed: nat)
      requires Keyed(apps) && sentApps == sent + OfKind(before, kind)
      modifies this`sentApps
      ensures ReadSoFar(l, {}, apps, kind, before, yielded, missed)
      ensures sentApps == sent + OfKind(yielded, kind)
    {
      yielded, missed := before, 0;
      var known := apps;
      var rest := l.appIds;
      NothingRead(l, known, kind, before);
      while rest != {}
        invariant rest <= l.appIds && apps == known
        invariant ReadSoFar(l, rest, known, kind, before, yielded, missed)
        invariant sentApps == sent + OfKind(yielded, kind)
        decreases |rest|
      {
        var appid :| appid in rest;
        OneMoreRead(l, rest, known, kind, before, yielded, missed, appid);
        rest := rest - {appid};
        if appid !in known {
          missed := missed + 1;
        } else {
          yielded := ConsumeApp(known[appid], appid, kind, yielded, sent);
        }
      }
    }

    /** get_owned_games, get_dlcs and get_shared_games: the library of one flag and kind. */
    method ConsumeResolvedApps(shared: bool, kind: string) returns (yielded: seq<App>, missed: nat)
      requires Keyed(apps)
      modifies this`sentApps
      ensures LibraryRead(licenses, apps, shared, kind, yielded, missed)
      ensures sentApps == old(sentApps) + OfKind(yielded, kind)
    {
      yielded, missed := [], 0;
      var ls, known := licenses, apps;
      ghost var sent := sentApps;
      for i := 0 to |ls|
        invariant apps == known
        invariant LibraryRead(ls[..i], known, shared, kind, yielded, missed)
        invariant sentApps == sent + OfKind(yielded, kind)
      {
        ghost var before, sofar := yielded, missed;
        if ls[i].shared == shared {
          var absent;
          yielded, absent := ConsumeIds(ls[i], kind, yielded, sent);
          missed := missed + absent;
        }
        OneMoreLicense(ls, i, known, shared, kind, before, sofar, yielded, missed);
      }
      assert ls[..|ls|] == ls;
    }
  }

  /** Exactly the library was yielded, and exactly its unresolved apps were missed. */
  ghost predicate LibraryRead(licenses: seq<License>, apps: map<string, App>, shared: bool, kind: string,
                              yielded: seq<App>, missed: nat)
  {
    && multiset(yielded) == Library(licenses, apps, shared, kind)
    && missed == Missing(licenses, apps.Keys, shared)
  }

  /** What reading one licence has yielded and missed when some of its ids are still to come. */
  ghost predicate ReadSoFar(l: License, rest: set<string>, apps: map<string, App>, kind: string,
                            before: seq<App>, yielded: seq<App>, missed: nat)
  {
    && multiset(yielded) == multiset(before) + multiset(Offered(Without(l, rest), apps, kind))
    && missed == |Open(Without(l, rest), apps.Keys)|
  }

  lemma {:induction false} NothingRead(l: License, apps: map<string, App>, kind: string, before: seq<App>)
    ensures ReadSoFar(l, l.appIds, apps, kind, before, before, 0)
  {
    NoIds(l, apps, kind);
  }

  lemma {:induction false} OneMoreRead(l: License, rest: set<string>, apps: map<string, App>, kind: string,
                    before: seq<App>, yielded: seq<App>, missed: nat, appid: string)
    requires Keyed(apps) && appid in rest && rest <= l.appIds
    requires ReadSoFar(l, rest, apps, kind, before, yielded, missed)
    ensures appid !in apps ==> ReadSoFar(l, rest - {appid}, apps, kind, before, yielded, missed + 1)
    ensures appid in apps ==>
              ReadSoFar(l, rest - {appid}, apps, kind, before,
                        yielded + (if Emits(apps[appid], appid, kind) then [apps[appid]] else []), missed)
  {
    OneMoreId(l, rest, apps, kind, appid);
  }

  lemma {:induction false} OneMoreLicense(licenses: seq<License>, i: nat, apps: map<string, App>, shared: bool, kind: string,
                       before: seq<App>, sofar: nat, yielded: seq<App>, missed: nat)
    requires i < |licenses| && LibraryRead(licenses[..i], apps, shared, kind, before, sofar)
    requires if licenses[i].shared == shared
             then missed >= sofar && ReadSoFar(licenses[i], {}, apps, kind, before, yielded, missed - sofar)
             else yielded == before && missed == sofar
    ensures LibraryRead(licenses[..i + 1], apps, shared, kind, yielded, missed)
  {
    LibraryStep(licenses, i, apps, shared, kind);
    assert Without(licenses[i], {}) == licenses[i];
  }

  /** The licence without some of its app ids. */
  ghost function Without(l: License, rest: set<string>): License {
    l.(appIds := l.appIds - rest)
  }

  lemma {:induction false} NoIds(l: License, apps: map<string, App>, kind: string)
    ensures Offered(Without(l, l.appIds), apps, kind) == {}
    ensures Open(Without(l, l.appIds), apps.Keys) == {}
  {
  }

  lemma {:induction false} LibraryStep(licenses: seq<License>, i: nat, apps: map<string, App>, shared: bool, kind: string)
    requires i < |licenses|
    ensures Library(licenses[..i + 1], apps, shared, kind) ==
            Library(licenses[..i], apps, shared, kind) + Share(licenses[i], apps, shared, kind)
    ensures Missing(licenses[..i + 1], apps.Keys, shared) ==
            Missing(licenses[..i], apps.Keys, shared) + Gap(licenses[i], apps.Keys, shared)
  {
    assert licenses[..i + 1][..i] == licenses[..i];
  }

  lemma {:induction false} WordsOf(a: set<string>, b: set<string>)
    ensures |set p | p in a :: Word(p)| == |a|
    ensures (set p | p in a :: Word(p)) == (set p | p in b :: Word(p)) <==> a == b
  {
    WordsCount(a);
    var wa, wb := set p | p in a :: Word(p), set p | p in b :: Word(p);
    if wa == wb {
      forall p
        ensures p in a <==> p in b
      {
        assert p in a <==> Word(p) in wa;
        assert p in b <==> Word(p) in wb;
      }
    }
  }

  lemma {:induction false} WordsCount(a: set<string>)
    ensures |set p | p in a :: Word(p)| == |a|
  {
    if a != {} {
      var p :| p in a;
      WordsCount(a - {p});
      assert (set q | q in a :: Word(q)) == (set q | q in a - {p} :: Word(q)) + {Word(p)};
    }
  }

  /** What one more app id of a licence adds: a missing app, an app to yield, or neither. */
  lemma {:induction false} OneMoreId(l: License, rest: set<string>, apps: map<string, App>, kind: string, appid: string)
    requires Keyed(apps) && appid in rest && rest <= l.appIds
    ensures var before, after := Without(l, rest), Without(l, rest - {appid});
            && |Open(after, apps.Keys)| == |Open(before, apps.Keys)| + (if appid in apps then 0 else 1)
            && multiset(Offered(after, apps, kind)) == multiset(Offered(before, apps, kind))
                 + (if appid in apps && Emits(apps[appid], appid, kind) then multiset{apps[appid]} else multiset{})
  {
    var before, after := Without(l, rest), Without(l, rest - {appid});
    assert after == before.(appIds := before.appIds + {appid}) by {
      assert l.appIds - (rest - {appid}) == (l.appIds - rest) + {appid};
    }
    if appid !in apps {
      assert Open(after, apps.Keys) == Open(before, apps.Keys) + {appid};
    } else {
      assert Open(after, apps.Keys) == Open(before, apps.Keys);
    }
    if appid in apps && Emits(apps[appid], appid, kind) {
      OfferedOneMore(before, apps, kind, appid);
    } else {
      assert Offered(after, apps, kind) == Offered(before, apps, kind);
    }
  }

  lemma {:induction false} OfferedOneMore(l: License, apps: map<string, App>, kind: string, appid: string)
    requires Keyed(apps) && appid in apps && appid !in l.appIds && Emits(apps[appid], appid, kind)
    ensures apps[appid] !in Offered(l, apps, kind)
    ensures Offered(l.(appIds := l.appIds + {appid}), apps, kind) == Offered(l, apps, kind) + {apps[appid]}
  {
    var next := l.(appIds := l.appIds + {appid});
    assert appid in next.appIds;
    forall a | a in Offered(l, apps, kind)
      ensures a in Offered(next, apps, kind)
    {
      assert a.appid in l.appIds && a.appid in next.appIds;
    }
  }
}
