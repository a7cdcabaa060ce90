/**
 The state of the games cache and its accounting: licences gather app ids, apps
 gather titles, and two counters decide when the library is ready.
*/
module Licenses {
  import opened Maybe
  import Decimal

  datatype App = App(appid: string, title: string, kind: string, parent: Option<string>)

  datatype License = License(packageId: string, shared: bool, appIds: set<string>)

  /** A licence as Steam lists it, with the numeric package id of the message. */
  datatype SteamLicense = SteamLicense(packageId: nat, shared: bool)

  datatype Cache = Cache(licenses: seq<License>, apps: map<string, App>,
                         packagesToParse: Option<int>, appsToParse: Option<int>, ready: bool,
                         lever: bool, sent: seq<App>, added: seq<App>)

  /** What the product-info handler reports. */
  datatype Report = PackageReported | AppReported(packageId: string, appid: string) | AppTitled(app: App)

  // ---------- One report ----------

  function UpdateReady(c: Cache): Cache {
    c.(ready := c.packagesToParse == Some(0) && c.appsToParse == Some(0))
  }

  function AddApp(licenses: seq<License>, packageId: string, appid: string): (r: seq<License>)
    ensures |r| == |licenses|
  {
    if licenses == [] then []
    else
      var l := licenses[0];
      [if l.packageId == packageId then l.(appIds := l.appIds + {appid}) else l] + AddApp(licenses[1..], packageId, appid)
  }

  lemma {:induction false} AddAppAt(licenses: seq<License>, packageId: string, appid: string, j: nat)
    requires j < |licenses|
    ensures var l := licenses[j];
            AddApp(licenses, packageId, appid)[j] ==
            if l.packageId == packageId then l.(appIds := l.appIds + {appid}) else l
  {
    if j > 0 {
      AddAppAt(licenses[1..], packageId, appid, j - 1);
    }
  }

  /** How many licences hold the app. */
  function Holders(licenses: seq<License>, appid: string): nat {
    if licenses == [] then 0 else (if appid in licenses[0].appIds then 1 else 0) + Holders(licenses[1..], appid)
  }

  /** Whether the report raises: arithmetic on a counter that is still None. */
  predicate Raises(c: Cache, r: Report) {
    match r
    case PackageReported => c.packagesToParse == None
    case AppReported(_, _) => c.appsToParse == None
    case AppTitled(app) => c.appsToParse == None && Holders(c.licenses, app.appid) > 0
  }

  /** The cache after one report; a report that raises changes nothing. */
  function Take(c: Cache, r: Report): Cache {
    if Raises(c, r) then c
    else match r
      case PackageReported =>
        UpdateReady(c.(packagesToParse := Some(c.packagesToParse.value - 1)))
      case AppReported(packageId, appid) =>
        c.(appsToParse := Some(c.appsToParse.value + 1), licenses := AddApp(c.licenses, packageId, appid))
      case AppTitled(app) =>
        UpdateReady(c.(
          appsToParse := if c.appsToParse == None then None else Some(c.appsToParse.value - Holders(c.licenses, app.appid)),
          apps := c.apps[app.appid := app],
          added := if c.lever && app !in c.sent then c.added + [app] else c.added))
  }

  function TakeAll(c: Cache, reports: seq<Report>): Cache {
    if reports == [] then c else Take(TakeAll(c, reports[..|reports| - 1]), reports[|reports| - 1])
  }

  function Packages(reports: seq<Report>): nat {
    if reports == [] then 0
    else Packages(reports[..|reports| - 1]) + (if reports[|reports| - 1].PackageReported? then 1 else 0)
  }

  lemma {:induction false} PackagesLeft(total: nat, p: seq<Report>, c: Cache, r: Report)
    requires c.packagesToParse == Some(total - Packages(p)) && c.appsToParse.Some?
    ensures Take(c, r).packagesToParse == Some(total - Packages(p + [r]))
  {
    PackagesAfter(p, r);
  }

  lemma {:induction false} PackagesAfter(p: seq<Report>, r: Report)
    ensures Packages(p + [r]) == Packages(p) + (if r.PackageReported? then 1 else 0)
  {
    assert (p + [r])[..|p|] == p;
  }

  // ---------- What is dropped ----------

  /** What the handler of app infos is called with. */
  datatype Info = Info(appid: string, packageId: Option<string>, title: Option<string>, kind: Option<string>, parent: Option<string>)

  /** Neither None nor empty. */
  predicate Given(o: Option<string>) {
    o.Some? && o.value != ""
  }

  predicate GivesTitle(i: Info) {
    Given(i.title) && Given(i.kind)
  }

  /** The cache after the handler, and whether it raised: an empty title or type is dropped without a word. */
  function TakeInfo(c: Cache, i: Info): (Cache, bool) {
    if Given(i.packageId) && Raises(c, AppReported(i.packageId.value, i.appid)) then (c, true)
    else
      var d := if Given(i.packageId) then Take(c, AppReported(i.packageId.value, i.appid)) else c;
      if GivesTitle(i) then
        var titled := AppTitled(App(i.appid, i.title.value, i.kind.value, i.parent));
        (Take(d, titled), Raises(d, titled))
      else (d, false)
  }

  function TakeInfos(c: Cache, infos: seq<Info>): Cache {
    if infos == [] then c else TakeInfo(TakeInfos(c, infos[..|infos| - 1]), infos[|infos| - 1]).0
  }

  /** Once an import was started: a given package makes a pair of the info, and a title and a type that are both given, a title. */
  lemma {:induction false} InfoExactly(c: Cache, i: Info)
    requires c.appsToParse.Some? && c.packagesToParse.Some?
    ensures !TakeInfo(c, i).1
    ensures TakeInfo(c, i).0 ==
            TakeAll(c, (if i.packageId != None && i.packageId != Some("") then [AppReported(i.packageId.value, i.appid)] else [])
                       + (if i.title != None && i.title != Some("") && i.kind != None && i.kind != Some("")
                          then [AppTitled(App(i.appid, i.title.value, i.kind.value, i.parent))] else []))
  {
    var pair := if Given(i.packageId) then [AppReported(i.packageId.value, i.appid)] else [];
    var d := TakeAll(c, pair);
    assert TakeAll(c, []) == c;
    if Given(i.packageId) {
      assert pair[..0] == [];
      assert d == Take(c, pair[0]);
    }
    if GivesTitle(i) {
      var titled := AppTitled(App(i.appid, i.title.value, i.kind.value, i.parent));
      assert (pair + [titled])[..|pair|] == pair;
      assert TakeAll(c, pair + [titled]) == Take(d, titled);
    } else {
      assert pair + [] == pair;
    }
  }

  lemma {:induction false} AddAppHolds(licenses: seq<License>, packageId: string, appid: string, a: string)
    ensures Holders(AddApp(licenses, packageId, appid), a) >= Holders(licenses, a)
  {
    if licenses != [] {
      AddAppHolds(licenses[1..], packageId, appid, a);
    }
  }

  lemma {:induction false} TitleDropped(c: Cache, i: Info, a: string)
    requires a !in c.apps && Holders(c.licenses, a) > 0 && (i.appid == a ==> !GivesTitle(i))
    ensures a !in TakeInfo(c, i).0.apps && Holders(TakeInfo(c, i).0.licenses, a) > 0
  {
    if Given(i.packageId) {
      AddAppHolds(c.licenses, i.packageId.value, i.appid, a);
    }
  }

  /** An app that a licence holds, and that never gets both a title and a type, stays open for good. */
  lemma {:induction false} DroppedTitleStaysOpen(c: Cache, infos: seq<Info>, a: string)
    requires a !in c.apps && Holders(c.licenses, a) > 0
    requires forall i :: i in infos && i.appid == a ==> !GivesTitle(i)
    ensures var d := TakeInfos(c, infos);
            a !in d.apps && Holders(d.licenses, a) > 0 && Unresolved(d.licenses, d.apps.Keys) > 0
    decreases |infos|
  {
    if infos != [] {
      var before, i := infos[..|infos| - 1], infos[|infos| - 1];
      assert infos == before + [i];
      DroppedTitleStaysOpen(c, before, a);
      TitleDropped(TakeInfos(c, before), i, a);
    }
    HeldIsOpen(TakeInfos(c, infos), a);
  }

  lemma {:induction false} HeldIsOpen(d: Cache, a: string)
    requires a !in d.apps && Holders(d.licenses, a) > 0
    ensures Unresolved(d.licenses, d.apps.Keys) > 0
  {
    NoHolders(d.licenses, a);
    NothingUnresolved(d.licenses, d.apps.Keys);
  }

  // ---------- What is kept, and what raises ----------

  /** The last title reported for an app. */
  function LastTitle(reports: seq<Report>, a: string): Option<App> {
    if reports == [] then None
    else
      var r := reports[|reports| - 1];
      if r.AppTitled? && r.app.appid == a then Some(r.app) else LastTitle(reports[..|reports| - 1], a)
  }

  /** Once an import was started, every app has its last title, or that of the cached map. */
  lemma {:induction false} TitlesExactly(c: Cache, reports: seq<Report>, a: string)
    requires c.appsToParse.Some? && c.packagesToParse.Some?
    ensures var d := TakeAll(c, reports);
            && (a in d.apps <==> LastTitle(reports, a).Some? || a in c.apps)
            && (a in d.apps ==> d.apps[a] == if LastTitle(reports, a).Some? then LastTitle(reports, a).value else c.apps[a])
    decreases |reports|
  {
    if reports != [] {
      CounterLaw(c, reports[..|reports| - 1]);
      TitlesExactly(c, reports[..|reports| - 1], a);
    }
  }

  /**
   Before any import nothing is counted: a package and a pair raise, and so does
   the title of an app that a cached licence holds; the title of any other is kept.
  */
  lemma {:induction false} BeforeAnyImport(c: Cache, r: Report)
    requires c.packagesToParse == None && c.appsToParse == None && !c.ready
    ensures var d := Take(c, r);
            && d.packagesToParse == None && d.appsToParse == None && !d.ready && d.licenses == c.licenses
            && (Raises(c, r) <==> r.PackageReported? || r.AppReported? || exists l :: l in c.licenses && r.app.appid in l.appIds)
            && (Raises(c, r) ==> d == c)
            && (!Raises(c, r) ==> d.apps == c.apps[r.app.appid := r.app])
  {
    if r.AppTitled? {
      NoHolders(c.licenses, r.app.appid);
    }
  }

  /** After that no report raises. */
  lemma {:induction false} NothingRaises(c: Cache, r: Report)
    requires c.packagesToParse.Some? && c.appsToParse.Some?
    ensures !Raises(c, r)
  {
  }

  // ---------- The double sum ----------

  /** The sum over the licences of their apps without a title. */
  function Unresolved(licenses: seq<License>, titled: set<string>): nat {
    if licenses == [] then 0 else |licenses[0].appIds - titled| + Unresolved(licenses[1..], titled)
  }

  /** How many untitled apps a report of this pair adds to the sum. */
  function Gains(licenses: seq<License>, packageId: string, appid: string, titled: set<string>): nat {
    if licenses == [] then 0
    else
      (if licenses[0].packageId == packageId && appid !in licenses[0].appIds && appid !in titled then 1 else 0)
      + Gains(licenses[1..], packageId, appid, titled)
  }

  /** By how much a report moves the counter away from the sum. */
  function Drift(c: Cache, r: Report): int {
    match r
    case PackageReported => 0
    case AppReported(packageId, appid) => 1 - Gains(c.licenses, packageId, appid, c.apps.Keys)
    case AppTitled(app) => if app.appid in c.apps then 0 - Holders(c.licenses, app.appid) else 0
  }

  function TotalDrift(c: Cache, reports: seq<Report>): int {
    if reports == [] then 0
    else
      var before := reports[..|reports| - 1];
      TotalDrift(c, before) + Drift(TakeAll(c, before), reports[|reports| - 1])
  }

  /** The counter minus the sum it is meant to be. */
  function Error(c: Cache): int
    requires c.appsToParse.Some?
  {
    c.appsToParse.value - Unresolved(c.licenses, c.apps.Keys)
  }

  lemma {:induction false} AddAppGains(licenses: seq<License>, packageId: string, appid: string, titled: set<string>)
    ensures Unresolved(AddApp(licenses, packageId, appid), titled) ==
            Unresolved(licenses, titled) + Gains(licenses, packageId, appid, titled)
  {
    if licenses != [] {
      AddAppGains(licenses[1..], packageId, appid, titled);
      var l := licenses[0];
      if appid in l.appIds || appid in titled {
        assert l.appIds + {appid} - titled == l.appIds - titled;
      } else {
        assert l.appIds + {appid} - titled == (l.appIds - titled) + {appid};
      }
    }
  }

  lemma {:induction false} TitleResolves(licenses: seq<License>, appid: string, titled: set<string>)
    ensures Unresolved(licenses, titled + {appid}) ==
            Unresolved(licenses, titled) - (if appid in titled then 0 else Holders(licenses, appid))
  {
    if licenses != [] {
      TitleResolves(licenses[1..], appid, titled);
      var l := licenses[0];
      if appid in l.appIds && appid !in titled {
        assert l.appIds - titled == (l.appIds - (titled + {appid})) + {appid};
      } else {
        assert l.appIds - (titled + {appid}) == l.appIds - titled;
      }
    }
  }

  lemma {:induction false} TakeDrifts(c: Cache, r: Report)
    requires c.appsToParse.Some? && !Raises(c, r)
    ensures Take(c, r).appsToParse.Some? && Error(Take(c, r)) == Error(c) + Drift(c, r)
  {
    match r
    case PackageReported =>
    case AppReported(packageId, appid) =>
      AddAppGains(c.licenses, packageId, appid, c.apps.Keys);
    case AppTitled(app) =>
      TitleDrifts(c, app);
  }

  lemma {:induction false} TitleDrifts(c: Cache, app: App)
    requires c.appsToParse.Some?
    ensures var d := Take(c, AppTitled(app)); d.appsToParse.Some? && Error(d) == Error(c) + Drift(c, AppTitled(app))
  {
    TitleResolves(c.licenses, app.appid, c.apps.Keys);
    assert c.apps[app.appid := app].Keys == c.apps.Keys + {app.appid};
  }

  /**
   The accounting law of every run: the counter differs from the double sum by
   exactly the drift of the reports so far (plus the difference at the start).
  */
  lemma {:induction false} CounterLaw(c: Cache, reports: seq<Report>)
    requires c.appsToParse.Some? && c.packagesToParse.Some?
    ensures var d := TakeAll(c, reports);
            d.appsToParse.Some? && d.packagesToParse.Some? && Error(d) == Error(c) + TotalDrift(c, reports)
    decreases |reports|
  {
    if reports != [] {
      var before := reports[..|reports| - 1];
      CounterLaw(c, before);
      TakeDrifts(TakeAll(c, before), reports[|reports| - 1]);
    }
  }

  /** How many licences carry the package id. */
  function Matches(licenses: seq<License>, packageId: string): nat {
    if licenses == [] then 0
    else (if licenses[0].packageId == packageId then 1 else 0) + Matches(licenses[1..], packageId)
  }

  /** A pair that is new to every licence of its package, of an app without a title. */
  predicate NewPair(c: Cache, packageId: string, appid: string) {
    && appid !in c.apps
    && forall l :: l in c.licenses && l.packageId == packageId ==> appid !in l.appIds
  }

  lemma {:induction false} NewPairGains(licenses: seq<License>, packageId: string, appid: string, titled: set<string>)
    requires appid !in titled && forall l :: l in licenses && l.packageId == packageId ==> appid !in l.appIds
    ensures Gains(licenses, packageId, appid, titled) == Matches(licenses, packageId)
  {
    if licenses != [] {
      assert licenses[0] in licenses;
      NewPairGains(licenses[1..], packageId, appid, titled);
    }
  }

  lemma {:induction false} NoHolders(licenses: seq<License>, appid: string)
    ensures Holders(licenses, appid) == 0 <==> forall l :: l in licenses ==> appid !in l.appIds
  {
    if licenses != [] {
      assert forall l :: l in licenses <==> l == licenses[0] || l in licenses[1..];
      NoHolders(licenses[1..], appid);
    }
  }

  /**
   When a report keeps the counter exact: a new pair must match exactly one
   licence, and a title must be the app's first, unless no licence holds it.
  */
  lemma {:induction false} ExactStep(c: Cache, r: Report)
    requires c.appsToParse.Some? && c.packagesToParse.Some? && Error(c) == 0
    ensures r.AppReported? && NewPair(c, r.packageId, r.appid) ==>
              (Error(Take(c, r)) == 0 <==> Matches(c.licenses, r.packageId) == 1)
    ensures r.AppTitled? ==>
              (Error(Take(c, r)) == 0 <==>
               r.app.appid !in c.apps || forall l :: l in c.licenses ==> r.app.appid !in l.appIds)
  {
    TakeDrifts(c, r);
    if r.AppReported? && NewPair(c, r.packageId, r.appid) {
      NewPairGains(c.licenses, r.packageId, r.appid, c.apps.Keys);
    }
    if r.AppTitled? {
      NoHolders(c.licenses, r.app.appid);
    }
  }

  /** The sum is zero exactly when every licence's apps have titles. */
  lemma {:induction false} NothingUnresolved(licenses: seq<License>, titled: set<string>)
    ensures Unresolved(licenses, titled) == 0 <==> forall l :: l in licenses ==> l.appIds <= titled
  {
    if licenses != [] {
      assert forall l :: l in licenses <==> l == licenses[0] || l in licenses[1..];
      NothingUnresolved(licenses[1..], titled);
      var open := licenses[0].appIds - titled;
      if open == {} {
        assert forall a :: a in licenses[0].appIds ==> a in titled || a in open;
      }
    }
  }

  /** What an exact counter needs of a report. */
  ghost predicate Clean(c: Cache, r: Report) {
    match r
    case PackageReported => true
    case AppReported(packageId, appid) => NewPair(c, packageId, appid) && Matches(c.licenses, packageId) == 1
    case AppTitled(app) => app.appid !in c.apps
  }

  lemma {:induction false} CleanStep(c: Cache, r: Report)
    requires c.appsToParse.Some? && c.packagesToParse.Some? && Error(c) == 0 && Clean(c, r)
    ensures Take(c, r).appsToParse.Some? && Take(c, r).packagesToParse.Some? && Error(Take(c, r)) == 0
  {
    TakeDrifts(c, r);
    ExactStep(c, r);
  }

  lemma {:induction false} CleanRun(c: Cache, reports: seq<Report>)
    requires c.appsToParse.Some? && c.packagesToParse.Some? && Error(c) == 0
    requires forall k :: 0 <= k < |reports| ==> Clean(TakeAll(c, reports[..k]), reports[k])
    ensures var d := TakeAll(c, reports); d.appsToParse.Some? && d.packagesToParse.Some? && Error(d) == 0
    decreases |reports|
  {
    if reports != [] {
      var before := reports[..|reports| - 1];
      forall k | 0 <= k < |before|
        ensures Clean(TakeAll(c, before[..k]), before[k])
      {
        assert before[..k] == reports[..k];
      }
      CleanRun(c, before);
      CleanStep(TakeAll(c, before), reports[|before|]);
    }
  }

  /**
   Double counting: if every pair is new, of one listed package and an untitled
   app, and no app is titled twice, the counter is the number of licence and app
   pairs still without title; it is never negative, and zero exactly when none is left.
  */
  lemma {:induction false} CounterExact(c: Cache, reports: seq<Report>)
    requires c.appsToParse.Some? && c.packagesToParse.Some? && Error(c) == 0
    requires forall k :: 0 <= k < |reports| ==> Clean(TakeAll(c, reports[..k]), reports[k])
    ensures var d := TakeAll(c, reports);
            && d.appsToParse == Some(Unresolved(d.licenses, d.apps.Keys))
            && (d.appsToParse == Some(0) <==> forall l :: l in d.licenses ==> l.appIds <= d.apps.Keys)
  {
    CleanRun(c, reports);
    NoError(TakeAll(c, reports));
  }

  lemma {:induction false} NoError(d: Cache)
    requires d.appsToParse.Some? && Error(d) == 0
    ensures d.appsToParse == Some(Unresolved(d.licenses, d.apps.Keys))
    ensures d.appsToParse == Some(0) <==> forall l :: l in d.licenses ==> l.appIds <= d.apps.Keys
  {
    NothingUnresolved(d.licenses, d.apps.Keys);
  }

  // ---------- Starting an import ----------

  function NewLicenses(steam: seq<SteamLicense>): (r: seq<License>)
    ensures |r| == |steam|
  {
    if steam == [] then []
    else NewLicenses(steam[..|steam| - 1])
         + [License(Decimal.Text(steam[|steam| - 1].packageId), steam[|steam| - 1].shared, {})]
  }

  /** start_packages_import: every listed licence is appended, cached or not, and awaited. */
  function StartImport(c: Cache, steam: seq<SteamLicense>): Cache {
    UpdateReady(c.(licenses := c.licenses + NewLicenses(steam), packagesToParse := Some(|steam|), appsToParse := Some(0)))
  }

  function ResetMap(c: Cache): Cache {
    c.(licenses := [], apps := map[])
  }

  function PackageIds(licenses: seq<License>): set<string> {
    set l | l in licenses :: l.packageId
  }

  function Resolved(licenses: seq<License>, titled: set<string>): set<string> {
    set l | l in licenses && l.appIds != {} && l.appIds <= titled :: l.packageId
  }

  function SteamIds(steam: seq<SteamLicense>): set<string> {
    set l | l in steam :: Decimal.Text(l.packageId)
  }

  const BIG_LIBRARY: nat := 12000

  /** Whether a licence list makes the protocol client drop the cached map. */
  predicate StartsAfresh(c: Cache, steam: seq<SteamLicense>) {
    |SteamIds(steam)| < BIG_LIBRARY && SteamIds(steam) != PackageIds(c.licenses)
  }

  function StillOpen(steam: seq<SteamLicense>, resolved: set<string>): seq<SteamLicense> {
    if steam == [] then []
    else StillOpen(steam[..|steam| - 1], resolved)
         + (if Decimal.Text(steam[|steam| - 1].packageId) in resolved then [] else [steam[|steam| - 1]])
  }

  /** The licences whose packages are asked for, and the cache that awaits them. */
  function ImportLicenses(c: Cache, steam: seq<SteamLicense>): (Cache, seq<SteamLicense>) {
    if StartsAfresh(c, steam) then
      (StartImport(ResetMap(c), steam), steam)
    else
      var open := StillOpen(steam, Resolved(c.licenses, c.apps.Keys));
      (StartImport(c, open), open)
  }

  lemma {:induction false} UnresolvedAppend(a: seq<License>, b: seq<License>, titled: set<string>)
    ensures Unresolved(a + b, titled) == Unresolved(a, titled) + Unresolved(b, titled)
    decreases |a|
  {
    if a == [] {
      assert a + b == b;
    } else {
      assert (a + b)[1..] == a[1..] + b;
      UnresolvedAppend(a[1..], b, titled);
    }
  }

  lemma {:induction false} NewLicensesEmpty(steam: seq<SteamLicense>, titled: set<string>)
    ensures Unresolved(NewLicenses(steam), titled) == 0
    decreases |steam|
  {
    if steam != [] {
      var last := [License(Decimal.Text(steam[|steam| - 1].packageId), steam[|steam| - 1].shared, {})];
      NewLicensesEmpty(steam[..|steam| - 1], titled);
      UnresolvedAppend(NewLicenses(steam[..|steam| - 1]), last, titled);
      assert last[1..] == [] && last[0].appIds - titled == {};
    }
  }

  /**
   An import on top of a cached map starts its counter at 0 whatever the cache
   still lacks. So once all apps are titled, after reports that did not drift,
   the library is ready only if the cache lacked nothing to begin with.
  */
  lemma {:induction false} CachedImport(c: Cache, steam: seq<SteamLicense>, reports: seq<Report>)
    requires !StartsAfresh(c, steam)
    ensures var d := ImportLicenses(c, steam).0;
            var e := TakeAll(d, reports);
            && d.appsToParse == Some(0) && Error(d) == 0 - Unresolved(c.licenses, c.apps.Keys)
            && (TotalDrift(d, reports) == 0 && Unresolved(e.licenses, e.apps.Keys) == 0
                ==> (e.appsToParse == Some(0) <==> Unresolved(c.licenses, c.apps.Keys) == 0))
  {
    var (d, open) := ImportLicenses(c, steam);
    UnresolvedAppend(c.licenses, NewLicenses(open), c.apps.Keys);
    NewLicensesEmpty(open, c.apps.Keys);
    CounterLaw(d, reports);
  }

  lemma {:induction false} PackagesCounted(total: int, c: Cache, reports: seq<Report>)
    requires c.packagesToParse == Some(total) && c.appsToParse.Some?
    ensures TakeAll(c, reports).packagesToParse == Some(total - Packages(reports)) && TakeAll(c, reports).appsToParse.Some?
    decreases |reports|
  {
    if reports != [] {
      PackagesCounted(total, c, reports[..|reports| - 1]);
    }
  }

  /**
   The ready event of any import, after a package or a title, whatever was
   reported: it is set exactly if all packages came and as much is open as was
   open when the import started, up to the drift.
  */
  lemma {:induction false} ImportReady(c: Cache, steam: seq<SteamLicense>, reports: seq<Report>)
    requires reports != [] && !reports[|reports| - 1].AppReported?
    ensures var d := StartImport(c, steam);
            var e := TakeAll(d, reports);
            e.ready <==>
              Packages(reports) == |steam|
              && Unresolved(e.licenses, e.apps.Keys) + TotalDrift(d, reports) == Unresolved(c.licenses, c.apps.Keys)
  {
    var d := StartImport(c, steam);
    UnresolvedAppend(c.licenses, NewLicenses(steam), c.apps.Keys);
    NewLicensesEmpty(steam, c.apps.Keys);
    CounterLaw(d, reports);
    PackagesCounted(|steam|, d, reports);
    LastLooks(d, reports);
  }

  /**
   On top of a cached map. If anything was open in the cache, and nothing
   drifted, ready means that something is open, not that all is titled.
  */
  lemma {:induction false} CachedReady(c: Cache, steam: seq<SteamLicense>, reports: seq<Report>)
    requires !StartsAfresh(c, steam) && reports != [] && !reports[|reports| - 1].AppReported?
    ensures var (d, open) := ImportLicenses(c, steam);
            var e := TakeAll(d, reports);
            e.ready <==>
              Packages(reports) == |open|
              && Unresolved(e.licenses, e.apps.Keys) + TotalDrift(d, reports) == Unresolved(c.licenses, c.apps.Keys)
  {
    ImportReady(c, StillOpen(steam, Resolved(c.licenses, c.apps.Keys)), reports);
  }

  /** On the reset path nothing is open at first, so what is open must make up for the drift. */
  lemma {:induction false} FreshReady(c: Cache, steam: seq<SteamLicense>, reports: seq<Report>)
    requires reports != [] && !reports[|reports| - 1].AppReported?
    ensures var d := StartImport(ResetMap(c), steam);
            var e := TakeAll(d, reports);
            e.ready <==> Packages(reports) == |steam| && Unresolved(e.licenses, e.apps.Keys) + TotalDrift(d, reports) == 0
  {
    ImportReady(ResetMap(c), steam, reports);
  }

  /** After a package or a title the ready event is what the two counters say. */
  lemma {:induction false} LastLooks(d: Cache, reports: seq<Report>)
    requires d.packagesToParse.Some? && d.appsToParse.Some?
    requires reports != [] && !reports[|reports| - 1].AppReported?
    ensures var e := TakeAll(d, reports); e.ready <==> e.packagesToParse == Some(0) && e.appsToParse == Some(0)
  {
    PackagesCounted(d.packagesToParse.value, d, reports[..|reports| - 1]);
  }

  const CACHED: Cache := Cache([License("7", false, {"10"})], map[], None, None, false, false, [], [])

  const LISTED: seq<SteamLicense> := [SteamLicense(7, false)]

  /** A cached licence whose app has no title is listed again: the map is kept and the licence doubled. */
  lemma {:induction false} LicenceDoubled()
    ensures ImportLicenses(CACHED, LISTED) ==
            (CACHED.(licenses := [License("7", false, {"10"}), License("7", false, {})],
                     packagesToParse := Some(1), appsToParse := Some(0)), LISTED)
  {
    ListedAgain();
    var open := StillOpen(LISTED, Resolved(CACHED.licenses, CACHED.apps.Keys));
    assert LISTED[..0] == [];
    assert NewLicenses(LISTED) == [License("7", false, {})];
    assert CACHED.licenses + NewLicenses(open) == [License("7", false, {"10"}), License("7", false, {})];
  }

  lemma {:induction false} ListedAgain()
    ensures Decimal.Text(7) == "7"
    ensures !StartsAfresh(CACHED, LISTED)
    ensures StillOpen(LISTED, Resolved(CACHED.licenses, CACHED.apps.Keys)) == LISTED
  {
    assert Decimal.Text(7) == "7";
    assert LISTED[0] in LISTED && SteamIds(LISTED) == {"7"};
    assert CACHED.licenses[0] in CACHED.licenses && PackageIds(CACHED.licenses) == {"7"};
    assert "10" in CACHED.licenses[0].appIds && "10" !in CACHED.apps.Keys;
    assert Resolved(CACHED.licenses, CACHED.apps.Keys) == {};
    assert LISTED[..0] == [];
  }

  lemma {:induction false} BothGain(d: Cache)
    requires d.licenses == [License("7", false, {"10"}), License("7", false, {})]
    ensures AddApp(d.licenses, "7", "10") == [License("7", false, {"10"}), License("7", false, {"10"})]
    ensures Holders(AddApp(d.licenses, "7", "10"), "10") == 2
  {
    var second := License("7", false, {}).(appIds := {} + {"10"});
    assert second == License("7", false, {"10"});
    assert d.licenses[0].appIds + {"10"} == {"10"};
    assert d.licenses[1..] == [License("7", false, {})];
    assert d.licenses[1..][1..] == [];
    assert AddApp(d.licenses[1..], "7", "10") == [second];
    assert [second][1..] == [];
    assert Holders([second], "10") == 1;
    assert AddApp(d.licenses, "7", "10")[1..] == [second];
  }

  /**
   Then ready is the wrong way round: it is set by the package, stays set with
   the pair while the app has no title, and is taken back by the title, which
   leaves the counter at -1.
  */
  lemma {:induction false} DoubledLicenceReadyInReverse(d: Cache, app: App)
    requires d.licenses == [License("7", false, {"10"}), License("7", false, {})] && d.apps == map[]
    requires d.packagesToParse == Some(1) && d.appsToParse == Some(0) && app.appid == "10"
    ensures TakeAll(d, [PackageReported]).ready
    ensures var e := TakeAll(d, [PackageReported, AppReported("7", "10")]); e.ready && e.apps == map[]
    ensures var e := TakeAll(d, [PackageReported, AppReported("7", "10"), AppTitled(app)]);
            "10" in e.apps && e.packagesToParse == Some(0) && e.appsToParse == Some(-1) && !e.ready
  {
    BothGain(d);
    var reports := [PackageReported, AppReported("7", "10"), AppTitled(app)];
    var d1 := Take(d, PackageReported);
    var d2 := Take(d1, AppReported("7", "10"));
    assert d2.licenses == AddApp(d.licenses, "7", "10") && d2.appsToParse == Some(1);
    assert reports[..2] == [PackageReported, AppReported("7", "10")];
    assert reports[..2][..1] == [PackageReported];
    assert reports[..2][..1][..0] == [];
    assert TakeAll(d, reports[..2][..1]) == d1;
    assert TakeAll(d, reports[..2]) == d2;
  }

  // ---------- One app in two packages ----------

  const PAIR_OF_PACKAGES: seq<SteamLicense> := [SteamLicense(1, false), SteamLicense(2, false)]

  /** A package's message, and the title of its app that Steam is then asked for. */
  function OneMessage(packageId: string, app: App): seq<Report> {
    [PackageReported, AppReported(packageId, app.appid), AppTitled(app)]
  }

  /** The two licences, with the app in one, both or none of them. */
  predicate Holding(c: Cache, one: set<string>, two: set<string>) {
    c.licenses == [License("1", false, one), License("2", false, two)]
  }

  /**
   Such an import is ready too early, with the second package's pair still to
   come, and not ready in the end, when all packages came and all apps are
   titled: the title counts both licences, and the first one a second time.
  */
  lemma {:induction false} SharedAppReadyInReverse(c: Cache, app: App)
    ensures var d := StartImport(ResetMap(c), PAIR_OF_PACKAGES);
            && TakeAll(d, OneMessage("1", app) + [PackageReported]).ready
            && var e := TakeAll(d, OneMessage("1", app) + OneMessage("2", app));
               !e.ready && e.packagesToParse == Some(0) && e.appsToParse == Some(-1) && Unresolved(e.licenses, e.apps.Keys) == 0
  {
    var d := StartImport(ResetMap(c), PAIR_OF_PACKAGES);
    TwoFresh(c);
    FirstMessage(d, app);
    TakeThree(d, [], PackageReported, AppReported("1", app.appid), AppTitled(app));
    assert [] + OneMessage("1", app) == OneMessage("1", app);
    SecondMessage(TakeAll(d, OneMessage("1", app)), app);
    TakeNext(d, OneMessage("1", app), PackageReported);
    TakeThree(d, OneMessage("1", app), PackageReported, AppReported("2", app.appid), AppTitled(app));
  }

  lemma {:induction false} FirstMessage(d: Cache, app: App)
    requires Holding(d, {}, {}) && d.packagesToParse == Some(2) && d.appsToParse == Some(0)
    ensures var e := Take(Take(Take(d, PackageReported), AppReported("1", app.appid)), AppTitled(app));
            Holding(e, {app.appid}, {}) && app.appid in e.apps && e.packagesToParse == Some(1) && e.appsToParse == Some(0)
  {
    TwoLicenses({}, {}, app.appid);
    TwoLicenses({app.appid}, {}, app.appid);
    var e := Take(Take(d, PackageReported), AppReported("1", app.appid));
    assert Holding(e, {app.appid}, {}) && e.appsToParse == Some(1);
  }

  lemma {:induction false} SecondMessage(d: Cache, app: App)
    requires Holding(d, {app.appid}, {}) && app.appid in d.apps && d.packagesToParse == Some(1) && d.appsToParse == Some(0)
    ensures Take(d, PackageReported).ready
    ensures var e := Take(Take(Take(d, PackageReported), AppReported("2", app.appid)), AppTitled(app));
            !e.ready && e.packagesToParse == Some(0) && e.appsToParse == Some(-1) && Unresolved(e.licenses, e.apps.Keys) == 0
  {
    TwoLicenses({app.appid}, {}, app.appid);
    TwoLicenses({app.appid}, {app.appid}, app.appid);
    var f := Take(Take(d, PackageReported), AppReported("2", app.appid));
    assert Holding(f, {app.appid}, {app.appid}) && f.appsToParse == Some(1);
    var e := Take(f, AppTitled(app));
    assert e.licenses == f.licenses && app.appid in e.apps;
    NothingUnresolved(e.licenses, e.apps.Keys);
  }

  lemma {:induction false} TakeNext(d: Cache, reports: seq<Report>, r: Report)
    ensures TakeAll(d, reports + [r]) == Take(TakeAll(d, reports), r)
  {
    assert (reports + [r])[..|reports|] == reports;
  }

  lemma {:induction false} TakeTwo(d: Cache, reports: seq<Report>, r1: Report, r2: Report)
    ensures TakeAll(d, reports + [r1, r2]) == Take(Take(TakeAll(d, reports), r1), r2)
  {
    assert reports + [r1, r2] == (reports + [r1]) + [r2];
    TakeNext(d, reports + [r1], r2);
    TakeNext(d, reports, r1);
  }

  lemma {:induction false} TakeThree(d: Cache, reports: seq<Report>, r1: Report, r2: Report, r3: Report)
    ensures TakeAll(d, reports + [r1, r2, r3]) == Take(Take(Take(TakeAll(d, reports), r1), r2), r3)
  {
    assert reports + [r1, r2, r3] == (reports + [r1, r2]) + [r3];
    TakeNext(d, reports + [r1, r2], r3);
    TakeTwo(d, reports, r1, r2);
  }

  lemma {:induction false} TwoFresh(c: Cache)
    ensures var d := StartImport(ResetMap(c), PAIR_OF_PACKAGES);
            && d.licenses == [License("1", false, {}), License("2", false, {})] && d.apps == map[]
            && d.packagesToParse == Some(2) && d.appsToParse == Some(0)
  {
    var steam := PAIR_OF_PACKAGES;
    assert steam[..1] == [SteamLicense(1, false)] && steam[..1][..0] == [];
    assert Decimal.Text(1) == "1" && Decimal.Text(2) == "2";
    assert NewLicenses(steam[..1]) == [License("1", false, {})];
  }

  lemma {:induction false} TwoLicenses(one: set<string>, two: set<string>, a: string)
    ensures var licenses := [License("1", false, one), License("2", false, two)];
            && AddApp(licenses, "1", a) == [License("1", false, one + {a}), License("2", false, two)]
            && AddApp(licenses, "2", a) == [License("1", false, one), License("2", false, two + {a})]
            && Holders(licenses, a) == (if a in one then 1 else 0) + (if a in two then 1 else 0)
    ensures {} + {a} == {a}
  {
    var licenses := [License("1", false, one), License("2", false, two)];
    var second := [License("2", false, two)];
    assert licenses[1..] == second && second[1..] == [];
    assert Holders(second, a) == if a in two then 1 else 0;
    assert AddApp(second, "1", a) == second;
    assert AddApp(second, "2", a) == [License("2", false, two + {a})];
  }
}
