/**
 A whole import on the reset path: when the library first becomes ready, and
 what the cache holds then.
*/
module LibraryImport {
  import opened Maybe
  import opened Licenses
  import Decimal

  /** The cache just after a licence list made the client start afresh. */
  function Fresh(c: Cache, steam: seq<SteamLicense>): Cache {
    StartImport(ResetMap(c), steam)
  }

  /** The listed packages are distinct. */
  ghost predicate DistinctPackages(steam: seq<SteamLicense>) {
    forall i, j :: 0 <= i < j < |steam| ==> steam[i].packageId != steam[j].packageId
  }

  /** Reports about listed packages, each pair once and before the title of its app, and each app titled once. */
  ghost predicate Legal(steam: seq<SteamLicense>, reports: seq<Report>) {
    && (forall i :: 0 <= i < |reports| && reports[i].AppReported? ==> reports[i].packageId in SteamIds(steam))
    && (forall i, j :: 0 <= i < j < |reports| && reports[i].AppReported? ==> reports[i] != reports[j])
    && (forall i, j :: 0 <= i < j < |reports| && reports[i].AppTitled? ==> !ConcernsApp(reports[j], reports[i].app.appid))
  }

  predicate ConcernsApp(r: Report, appid: string) {
    (r.AppReported? && r.appid == appid) || (r.AppTitled? && r.app.appid == appid)
  }

  /** All pairs come before any title; packages may come at any time. */
  ghost predicate PairsFirst(reports: seq<Report>) {
    forall i, j :: 0 <= i < j < |reports| && reports[i].AppTitled? ==> !reports[j].AppReported?
  }

  ghost predicate Reported(reports: seq<Report>, appid: string) {
    exists i :: 0 <= i < |reports| && reports[i].AppReported? && reports[i].appid == appid
  }

  function TitledIds(reports: seq<Report>): set<string> {
    if reports == [] then {}
    else
      var r := reports[|reports| - 1];
      TitledIds(reports[..|reports| - 1]) + (if r.AppTitled? then {r.app.appid} else {})
  }

  /** The apps reported for one package. */
  function AppsOf(reports: seq<Report>, packageId: string): set<string> {
    if reports == [] then {}
    else
      var r := reports[|reports| - 1];
      AppsOf(reports[..|reports| - 1], packageId)
      + (if r.AppReported? && r.packageId == packageId then {r.appid} else {})
  }

  lemma {:induction false} TitledIdsExact(reports: seq<Report>, a: string)
    ensures a in TitledIds(reports) <==> exists i :: 0 <= i < |reports| && reports[i].AppTitled? && reports[i].app.appid == a
    decreases |reports|
  {
    if reports != [] {
      var p := reports[..|reports| - 1];
      TitledIdsExact(p, a);
      assert forall i :: 0 <= i < |p| ==> p[i] == reports[i];
      if i :| 0 <= i < |reports| && reports[i].AppTitled? && reports[i].app.appid == a {
        assert i < |p| ==> p[i] == reports[i];
      }
    }
  }

  lemma {:induction false} AppsOfExact(reports: seq<Report>, packageId: string, a: string)
    ensures a in AppsOf(reports, packageId) <==> AppReported(packageId, a) in reports
    decreases |reports|
  {
    if reports != [] {
      var p := reports[..|reports| - 1];
      AppsOfExact(p, packageId, a);
      assert reports == p + [reports[|reports| - 1]];
    }
  }

  ghost predicate Titled(reports: seq<Report>, appid: string) {
    appid in TitledIds(reports)
  }

  /** Every listed package is reported, and the titled apps are the reported ones. */
  ghost predicate Complete(steam: seq<SteamLicense>, reports: seq<Report>) {
    && Packages(reports) == |steam|
    && forall appid :: Titled(reports, appid) <==> Reported(reports, appid)
  }

  // ---------- What the cache holds after some reports ----------

  function Expected(l: SteamLicense, reports: seq<Report>): License {
    var packageId := Decimal.Text(l.packageId);
    License(packageId, l.shared, AppsOf(reports, packageId))
  }

  /** The licences of the list, each with the apps reported for it. */
  function ExpectedAll(steam: seq<SteamLicense>, reports: seq<Report>): (r: seq<License>)
    ensures |r| == |steam|
  {
    if steam == [] then [] else ExpectedAll(steam[..|steam| - 1], reports) + [Expected(steam[|steam| - 1], reports)]
  }

  lemma {:induction false} ExpectedAt(steam: seq<SteamLicense>, reports: seq<Report>, j: nat)
    requires j < |steam|
    ensures ExpectedAll(steam, reports)[j] == Expected(steam[j], reports)
    decreases |steam|
  {
    if j < |steam| - 1 {
      ExpectedAt(steam[..|steam| - 1], reports, j);
    }
  }

  ghost predicate Described(steam: seq<SteamLicense>, reports: seq<Report>, c: Cache) {
    && c.packagesToParse == Some(|steam| - Packages(reports))
    && c.appsToParse.Some?
    && c.licenses == ExpectedAll(steam, reports)
    && c.apps.Keys == TitledIds(reports)
  }

  /** Every app that a licence holds has a title. */
  ghost predicate AllTitled(c: Cache) {
    forall l :: l in c.licenses ==> l.appIds <= c.apps.Keys
  }

  lemma {:induction false} NewLicensesExpected(steam: seq<SteamLicense>)
    ensures NewLicenses(steam) == ExpectedAll(steam, [])
    ensures Unresolved(NewLicenses(steam), {}) == 0
    decreases |steam|
  {
    if steam != [] {
      NewLicensesExpected(steam[..|steam| - 1]);
    }
    forall l | l in NewLicenses(steam)
      ensures l.appIds <= {}
    {
      var j :| 0 <= j < |steam| && ExpectedAll(steam, [])[j] == l;
      ExpectedAt(steam, [], j);
    }
    NothingUnresolved(NewLicenses(steam), {});
  }

  lemma {:induction false} FreshDescribed(c: Cache, steam: seq<SteamLicense>)
    ensures Described(steam, [], Fresh(c, steam)) && (Fresh(c, steam).ready <==> steam == [])
  {
    FreshLicenses(c, steam);
    assert Fresh(c, steam).apps.Keys == {};
  }

  lemma {:induction false} FreshLicenses(c: Cache, steam: seq<SteamLicense>)
    ensures Fresh(c, steam).licenses == ExpectedAll(steam, [])
  {
    NewLicensesExpected(steam);
  }

  lemma {:induction false} OneMatch(licenses: seq<License>, packageId: string)
    requires exists j :: 0 <= j < |licenses| && licenses[j].packageId == packageId
    requires forall i, j :: 0 <= i < j < |licenses| ==> licenses[i].packageId != licenses[j].packageId
    ensures Matches(licenses, packageId) == 1
  {
    var rest := licenses[1..];
    assert forall j :: 0 <= j < |rest| ==> rest[j] == licenses[j + 1];
    if licenses[0].packageId == packageId {
      NoMatch(rest, packageId);
    } else {
      var j :| 0 <= j < |licenses| && licenses[j].packageId == packageId;
      assert rest[j - 1].packageId == packageId;
      OneMatch(rest, packageId);
    }
  }

  lemma {:induction false} NoMatch(licenses: seq<License>, packageId: string)
    requires forall j :: 0 <= j < |licenses| ==> licenses[j].packageId != packageId
    ensures Matches(licenses, packageId) == 0
  {
    if licenses != [] {
      NoMatch(licenses[1..], packageId);
    }
  }

  lemma {:induction false} DistinctKeys(steam: seq<SteamLicense>, reports: seq<Report>, licenses: seq<License>)
    requires DistinctPackages(steam) && licenses == ExpectedAll(steam, reports)
    ensures forall i, j :: 0 <= i < j < |licenses| ==> licenses[i].packageId != licenses[j].packageId
  {
    forall i, j | 0 <= i < j < |licenses|
      ensures licenses[i].packageId != licenses[j].packageId
    {
      ExpectedAt(steam, reports, i);
      ExpectedAt(steam, reports, j);
      if licenses[i].packageId == licenses[j].packageId {
        Decimal.TextIsInjective(steam[i].packageId, steam[j].packageId);
      }
    }
  }

  lemma {:induction false} LegalPrefix(steam: seq<SteamLicense>, reports: seq<Report>, n: nat)
    requires Legal(steam, reports) && n <= |reports|
    ensures Legal(steam, reports[..n])
  {
    var p := reports[..n];
    assert forall i :: 0 <= i < |p| ==> p[i] == reports[i];
  }

  lemma {:induction false} LicensesAfter(steam: seq<SteamLicense>, p: seq<Report>, c: Cache, r: Report)
    requires c.licenses == ExpectedAll(steam, p) && c.appsToParse.Some?
    ensures Take(c, r).licenses == ExpectedAll(steam, p + [r])
  {
    forall j | 0 <= j < |steam|
      ensures Take(c, r).licenses[j] == ExpectedAll(steam, p + [r])[j]
    {
      LicenseAfter(steam, p, c, r, j);
    }
  }

  lemma {:induction false} LicenseAfter(steam: seq<SteamLicense>, p: seq<Report>, c: Cache, r: Report, j: nat)
    requires c.licenses == ExpectedAll(steam, p) && c.appsToParse.Some? && j < |steam|
    ensures Take(c, r).licenses[j] == ExpectedAll(steam, p + [r])[j]
  {
    ExpectedAt(steam, p, j);
    ExpectedAt(steam, p + [r], j);
    AppsAfter(p, r, c.licenses[j].packageId);
    if r.AppReported? {
      AddAppAt(c.licenses, r.packageId, r.appid, j);
      assert Take(c, r).licenses == AddApp(c.licenses, r.packageId, r.appid);
    } else {
      assert Take(c, r).licenses == c.licenses;
    }
  }

  lemma {:induction false} AppsAfter(p: seq<Report>, r: Report, packageId: string)
    ensures AppsOf(p + [r], packageId) ==
            if r.AppReported? && r.packageId == packageId then AppsOf(p, packageId) + {r.appid} else AppsOf(p, packageId)
  {
    assert (p + [r])[..|p|] == p;
  }

  lemma {:induction false} TitlesAfter(p: seq<Report>, c: Cache, r: Report)
    requires c.apps.Keys == TitledIds(p) && c.appsToParse.Some? && c.packagesToParse.Some?
    ensures Take(c, r).apps.Keys == TitledIds(p + [r])
  {
    assert (p + [r])[..|p|] == p;
  }

  /** The place of a listed package. */
  lemma {:induction false} FindPackage(steam: seq<SteamLicense>, packageId: string) returns (j: nat)
    requires packageId in SteamIds(steam)
    ensures j < |steam| && Decimal.Text(steam[j].packageId) == packageId
  {
    var l :| l in steam && Decimal.Text(l.packageId) == packageId;
    j :| 0 <= j < |steam| && steam[j] == l;
  }

  /** A pair reported in a legal run is new when it comes, and matches one licence. */
  lemma {:induction false} PairIsExact(steam: seq<SteamLicense>, p: seq<Report>, c: Cache, r: Report)
    requires DistinctPackages(steam) && Legal(steam, p + [r]) && Described(steam, p, c) && r.AppReported?
    ensures NewPair(c, r.packageId, r.appid) && Matches(c.licenses, r.packageId) == 1
  {
    PairIsNew(steam, p, r);
    forall l | l in c.licenses && l.packageId == r.packageId
      ensures r.appid !in l.appIds
    {
      var k :| 0 <= k < |c.licenses| && c.licenses[k] == l;
      ExpectedAt(steam, p, k);
    }
    assert (p + [r])[|p|] == r;
    var j := FindPackage(steam, r.packageId);
    ExpectedAt(steam, p, j);
    DistinctKeys(steam, p, c.licenses);
    OneMatch(c.licenses, r.packageId);
  }

  lemma {:induction false} PairIsNew(steam: seq<SteamLicense>, p: seq<Report>, r: Report)
    requires Legal(steam, p + [r]) && r.AppReported?
    ensures r.appid !in AppsOf(p, r.packageId) && r.appid !in TitledIds(p)
  {
    var q := p + [r];
    assert q[|p|] == r;
    assert forall i :: 0 <= i < |p| ==> q[i] == p[i];
    AppsOfExact(p, r.packageId, r.appid);
    TitledIdsExact(p, r.appid);
  }

  /**
   After any legal reports on the reset path the cache is what the reports say,
   and the app counter is the double sum over licences and untitled apps.
  */
  lemma {:induction false} ImportDescribed(c0: Cache, steam: seq<SteamLicense>, reports: seq<Report>)
    requires DistinctPackages(steam) && Legal(steam, reports)
    ensures Described(steam, reports, TakeAll(Fresh(c0, steam), reports))
    ensures Error(TakeAll(Fresh(c0, steam), reports)) == 0
    decreases |reports|
  {
    if reports == [] {
      FreshDescribed(c0, steam);
      NewLicensesExpected(steam);
    } else {
      var p, r := reports[..|reports| - 1], reports[|reports| - 1];
      assert reports == p + [r];
      LegalPrefix(steam, reports, |p|);
      ImportDescribed(c0, steam, p);
      CountStep(steam, p, TakeAll(Fresh(c0, steam), p), r);
      DescribedStep(steam, p, TakeAll(Fresh(c0, steam), p), r, reports, TakeAll(Fresh(c0, steam), reports));
    }
  }

  lemma {:induction false} DescribedStep(steam: seq<SteamLicense>, p: seq<Report>, c: Cache, r: Report, q: seq<Report>, d: Cache)
    requires Described(steam, p, c) && q == p + [r] && d == Take(c, r)
    ensures Described(steam, q, d)
  {
    PackagesLeft(|steam|, p, c, r);
    LicensesAfter(steam, p, c, r);
    TitlesAfter(p, c, r);
  }

  /** A report of a legal run has no drift. */
  lemma {:induction false} CountStep(steam: seq<SteamLicense>, p: seq<Report>, c: Cache, r: Report)
    requires DistinctPackages(steam) && Legal(steam, p + [r]) && Described(steam, p, c) && Error(c) == 0
    ensures Take(c, r).appsToParse.Some? && Error(Take(c, r)) == 0
  {
    TakeDrifts(c, r);
    if r.AppReported? {
      PairIsExact(steam, p, c, r);
      ExactStep(c, r);
    } else if r.AppTitled? {
      TitleIsFirst(steam, p, r);
    }
  }

  lemma {:induction false} TitleIsFirst(steam: seq<SteamLicense>, p: seq<Report>, r: Report)
    requires Legal(steam, p + [r]) && r.AppTitled?
    ensures !Titled(p, r.app.appid)
  {
    var q := p + [r];
    assert q[|p|] == r;
    assert forall i :: 0 <= i < |p| ==> q[i] == p[i];
    TitledIdsExact(p, r.app.appid);
  }

  // ---------- When the library becomes ready ----------

  function After(c0: Cache, steam: seq<SteamLicense>, reports: seq<Report>, n: nat): Cache
    requires n <= |reports|
  {
    TakeAll(Fresh(c0, steam), reports[..n])
  }

  /** All packages are reported, and every reported pair's app is titled. */
  ghost predicate Closed(steam: seq<SteamLicense>, reports: seq<Report>) {
    && Packages(reports) == |steam|
    && forall i :: 0 <= i < |reports| && reports[i].AppReported? ==> Titled(reports, reports[i].appid)
  }

  /** How many of the first n reports there were when the ready event was last looked at: a pair does not look. */
  function LastTest(reports: seq<Report>, n: nat): (m: nat)
    requires n <= |reports|
    ensures m <= n
  {
    if n == 0 || !reports[n - 1].AppReported? then n else LastTest(reports, n - 1)
  }

  /** In a described cache all apps of the licences are titled exactly if those of the reported pairs are. */
  lemma {:induction false} PairsDecide(steam: seq<SteamLicense>, reports: seq<Report>, c: Cache)
    requires Legal(steam, reports) && Described(steam, reports, c)
    ensures AllTitled(c) <==> forall i :: 0 <= i < |reports| && reports[i].AppReported? ==> Titled(reports, reports[i].appid)
  {
    if AllTitled(c) {
      forall i | 0 <= i < |reports| && reports[i].AppReported?
        ensures Titled(reports, reports[i].appid)
      {
        PairIsHeld(steam, reports, c, reports[i]);
      }
    }
    if forall i :: 0 <= i < |reports| && reports[i].AppReported? ==> Titled(reports, reports[i].appid) {
      forall l, a | l in c.licenses && a in l.appIds
        ensures a in c.apps.Keys
      {
        HeldIsPair(steam, reports, c, l, a);
      }
    }
  }

  lemma {:induction false} PairIsHeld(steam: seq<SteamLicense>, reports: seq<Report>, c: Cache, r: Report)
    requires Described(steam, reports, c) && r in reports && r.AppReported? && r.packageId in SteamIds(steam)
    ensures exists l :: l in c.licenses && r.appid in l.appIds
  {
    var j := FindPackage(steam, r.packageId);
    ExpectedAt(steam, reports, j);
    AppsOfExact(reports, r.packageId, r.appid);
    assert c.licenses[j] in c.licenses;
  }

  lemma {:induction false} HeldIsPair(steam: seq<SteamLicense>, reports: seq<Report>, c: Cache, l: License, a: string)
    requires Described(steam, reports, c) && l in c.licenses && a in l.appIds
    ensures AppReported(l.packageId, a) in reports
  {
    var j :| 0 <= j < |c.licenses| && c.licenses[j] == l;
    ExpectedAt(steam, reports, j);
    AppsOfExact(reports, l.packageId, a);
  }

  /** With an exact counter, the ready test asks whether all packages came and all apps are titled. */
  lemma {:induction false} ReadyTest(c: Cache)
    requires c.appsToParse.Some? && Error(c) == 0
    ensures UpdateReady(c).ready <==> c.packagesToParse == Some(0) && AllTitled(c)
  {
    NothingUnresolved(c.licenses, c.apps.Keys);
  }

  lemma {:induction false} ReadyStep(c: Cache, r: Report)
    requires c.appsToParse.Some? && c.packagesToParse.Some?
    ensures Take(c, r).ready == if r.AppReported? then c.ready else UpdateReady(Take(c, r)).ready
  {
  }

  /**
   The ready event at every moment of any legal import, however packages, pairs
   and titles are interleaved: it is set exactly if, when it was last looked at,
   all packages were reported and every pair reported by then was titled.
  */
  lemma {:induction false} ReadyLaw(c0: Cache, steam: seq<SteamLicense>, reports: seq<Report>, n: nat)
    requires DistinctPackages(steam) && Legal(steam, reports) && n <= |reports|
    ensures After(c0, steam, reports, n).ready <==> Closed(steam, reports[..LastTest(reports, n)])
    decreases n
  {
    if n == 0 {
      FreshDescribed(c0, steam);
      assert reports[..0] == [];
    } else {
      ReadyLaw(c0, steam, reports, n - 1);
      ReadyNext(c0, steam, reports, n);
    }
  }

  lemma {:induction false} ReadyNext(c0: Cache, steam: seq<SteamLicense>, reports: seq<Report>, n: nat)
    requires DistinctPackages(steam) && Legal(steam, reports) && 0 < n <= |reports|
    ensures After(c0, steam, reports, n).ready <==>
            if reports[n - 1].AppReported? then After(c0, steam, reports, n - 1).ready else Closed(steam, reports[..n])
  {
    var p, c := reports[..n], After(c0, steam, reports, n);
    assert p[..|p| - 1] == reports[..n - 1];
    LegalPrefix(steam, reports, n);
    LegalPrefix(steam, reports, n - 1);
    ImportDescribed(c0, steam, p);
    ImportDescribed(c0, steam, reports[..n - 1]);
    ReadyTest(c);
    ReadyStep(After(c0, steam, reports, n - 1), reports[n - 1]);
    PairsDecide(steam, p, c);
  }

  // ---------- Ready at the end, and not before ----------

  /** Some pair comes before the last package report. */
  ghost predicate PairBeforeLastPackage(reports: seq<Report>) {
    exists i, j :: 0 <= i < j < |reports| && reports[i].AppReported? && reports[j].PackageReported?
  }

  lemma {:induction false} PackagesMonotone(reports: seq<Report>, n: nat)
    requires n <= |reports|
    ensures Packages(reports[..n]) <= Packages(reports)
    ensures (exists k :: n <= k < |reports| && reports[k].PackageReported?) ==> Packages(reports[..n]) < Packages(reports)
    decreases |reports|
  {
    if n < |reports| {
      var p := reports[..|reports| - 1];
      assert p[..n] == reports[..n];
      PackagesMonotone(p, n);
      if k :| n <= k < |reports| && reports[k].PackageReported? {
        assert k < |p| ==> p[k] == reports[k];
      }
    } else {
      assert reports[..n] == reports;
    }
  }

  lemma {:induction false} TitledSomewhere(reports: seq<Report>, n: nat, appid: string) returns (k: nat)
    requires n <= |reports| && Titled(reports[..n], appid)
    ensures k < n && reports[k].AppTitled? && reports[k].app.appid == appid
  {
    TitledIdsExact(reports[..n], appid);
    k :| 0 <= k < n && reports[..n][k].AppTitled? && reports[..n][k].app.appid == appid;
  }

  /** A titled app of a complete import was reported at some place. */
  lemma {:induction false} ReportedSomewhere(steam: seq<SteamLicense>, reports: seq<Report>, m: nat) returns (k: nat)
    requires Complete(steam, reports) && m < |reports| && reports[m].AppTitled?
    ensures k < |reports| && reports[k].AppReported? && reports[k].appid == reports[m].app.appid
  {
    var a := reports[m].app.appid;
    TitledIdsExact(reports, a);
    assert Titled(reports, a) && Reported(reports, a);
    k :| 0 <= k < |reports| && reports[k].AppReported? && reports[k].appid == a;
  }

  /** A proper beginning of a complete import is not closed, if it has some pair and all pairs precede all titles. */
  lemma {:induction false} NotClosedBefore(steam: seq<SteamLicense>, reports: seq<Report>, m: nat, i: nat)
    requires Legal(steam, reports) && Complete(steam, reports) && PairsFirst(reports)
    requires i < m < |reports| && reports[i].AppReported? && Packages(reports[..m]) == |steam|
    ensures !Closed(steam, reports[..m])
  {
    PackagesMonotone(reports, m);
    assert !reports[m].PackageReported?;
    if Closed(steam, reports[..m]) {
      if reports[m].AppReported? {
        assert reports[..m][i] == reports[i];
        var k := TitledSomewhere(reports, m, reports[i].appid);
      } else {
        var k := ReportedSomewhere(steam, reports, m);
        assert k < m && reports[..m][k] == reports[k];
        var t := TitledSomewhere(reports, m, reports[k].appid);
      }
    }
  }

  /** With a pair before the last package report, no earlier moment than the end is ready. */
  lemma {:induction false} NotReadyEarly(c0: Cache, steam: seq<SteamLicense>, reports: seq<Report>, n: nat)
    requires DistinctPackages(steam) && Legal(steam, reports) && Complete(steam, reports) && PairsFirst(reports)
    requires PairBeforeLastPackage(reports) && n < |reports|
    ensures !After(c0, steam, reports, n).ready
  {
    var i, j :| 0 <= i < j < |reports| && reports[i].AppReported? && reports[j].PackageReported?;
    var m := LastTest(reports, n);
    ReadyLaw(c0, steam, reports, n);
    PackagesMonotone(reports, m);
    if Packages(reports[..m]) == |steam| {
      NotClosedBefore(steam, reports, m, i);
    }
  }

  /** A pair is never the last report of a complete import: its app still needs a title. */
  lemma {:induction false} LastIsNoPair(steam: seq<SteamLicense>, reports: seq<Report>)
    requires Legal(steam, reports) && Complete(steam, reports) && reports != []
    ensures !reports[|reports| - 1].AppReported?
  {
    var r := reports[|reports| - 1];
    if r.AppReported? {
      assert Reported(reports, r.appid) && Titled(reports, r.appid);
      TitledIdsExact(reports, r.appid);
    }
  }

  lemma {:induction false} CompleteIsClosed(steam: seq<SteamLicense>, reports: seq<Report>)
    requires Complete(steam, reports)
    ensures Closed(steam, reports)
  {
    forall i | 0 <= i < |reports| && reports[i].AppReported?
      ensures Titled(reports, reports[i].appid)
    {
      assert Reported(reports, reports[i].appid);
    }
  }

  lemma {:induction false} ReadyAtEnd(c0: Cache, steam: seq<SteamLicense>, reports: seq<Report>)
    requires DistinctPackages(steam) && Legal(steam, reports) && Complete(steam, reports)
    ensures After(c0, steam, reports, |reports|).ready
  {
    assert reports[..|reports|] == reports;
    ReadyLaw(c0, steam, reports, |reports|);
    CompleteIsClosed(steam, reports);
    if reports != [] {
      LastIsNoPair(steam, reports);
    }
  }

  /** If all packages are reported before the first pair, ready is set before any pair is. */
  lemma {:induction false} ReadyTooEarly(c0: Cache, steam: seq<SteamLicense>, reports: seq<Report>)
    requires DistinctPackages(steam) && steam != [] && Legal(steam, reports) && Complete(steam, reports)
    requires !PairBeforeLastPackage(reports) && exists i :: 0 <= i < |reports| && reports[i].AppReported?
    ensures exists n :: 0 <= n < |reports| && After(c0, steam, reports, n).ready
  {
    var n := LastPackage(steam, reports);
    ReadyLaw(c0, steam, reports, n);
    ClosedWithoutPairs(steam, reports, n);
  }

  lemma {:induction false} ClosedWithoutPairs(steam: seq<SteamLicense>, reports: seq<Report>, n: nat)
    requires !PairBeforeLastPackage(reports) && 0 < n <= |reports| && reports[n - 1].PackageReported?
    requires Packages(reports[..n]) == |steam|
    ensures Closed(steam, reports[..n])
  {
    assert forall m :: 0 <= m < n ==> reports[..n][m] == reports[m] && !reports[m].AppReported?;
  }

  /** The number of reports up to the last package report, which are the ones that count the packages down. */
  lemma {:induction false} LastPackage(steam: seq<SteamLicense>, reports: seq<Report>) returns (n: nat)
    requires Packages(reports) == |steam| && steam != []
    ensures 0 < n <= |reports| && reports[n - 1].PackageReported? && Packages(reports[..n]) == |steam|
    decreases |reports|
  {
    if reports[|reports| - 1].PackageReported? {
      n := |reports|;
      assert reports[..n] == reports;
    } else {
      var p := reports[..|reports| - 1];
      n := LastPackage(steam, p);
      assert p[..n] == reports[..n];
    }
  }

  lemma {:induction false} NoPairsNotReady(c0: Cache, steam: seq<SteamLicense>, reports: seq<Report>, n: nat)
    requires DistinctPackages(steam) && Legal(steam, reports) && Complete(steam, reports)
    requires n < |reports| && forall i :: 0 <= i < |reports| ==> !reports[i].AppReported?
    ensures !After(c0, steam, reports, n).ready
  {
    ReadyLaw(c0, steam, reports, n);
    if reports[n].AppTitled? {
      var k := ReportedSomewhere(steam, reports, n);
    }
    PackagesMonotone(reports, n);
  }

  /**
   If all pairs come before any title, the library first becomes ready with the
   last report of a complete import exactly when some pair comes before the last
   package report, or there is no pair at all.
  */
  lemma {:induction false} ReadyExactlyAtTheEnd(c0: Cache, steam: seq<SteamLicense>, reports: seq<Report>)
    requires DistinctPackages(steam) && steam != [] && Legal(steam, reports) && Complete(steam, reports) && PairsFirst(reports)
    ensures After(c0, steam, reports, |reports|).ready
    ensures (forall n :: 0 <= n < |reports| ==> !After(c0, steam, reports, n).ready) <==>
            (PairBeforeLastPackage(reports) || forall i :: 0 <= i < |reports| ==> !reports[i].AppReported?)
  {
    ReadyAtEnd(c0, steam, reports);
    if PairBeforeLastPackage(reports) {
      forall n | 0 <= n < |reports|
        ensures !After(c0, steam, reports, n).ready
      {
        NotReadyEarly(c0, steam, reports, n);
      }
    } else if exists i :: 0 <= i < |reports| && reports[i].AppReported? {
      ReadyTooEarly(c0, steam, reports);
    } else {
      forall n | 0 <= n < |reports|
        ensures !After(c0, steam, reports, n).ready
      {
        NoPairsNotReady(c0, steam, reports, n);
      }
    }
  }

  /** At the end of a complete import the resolved packages are those with apps, and no licence holds an app without a title. */
  lemma {:induction false} ResolvedAtTheEnd(c0: Cache, steam: seq<SteamLicense>, reports: seq<Report>)
    requires DistinctPackages(steam) && Legal(steam, reports) && Complete(steam, reports)
    ensures var c := After(c0, steam, reports, |reports|);
            && AllTitled(c)
            && (forall p :: p in Resolved(c.licenses, c.apps.Keys) <==> exists a :: AppReported(p, a) in reports)
  {
    var c := After(c0, steam, reports, |reports|);
    assert reports[..|reports|] == reports;
    ImportDescribed(c0, steam, reports);
    CompleteIsClosed(steam, reports);
    PairsDecide(steam, reports, c);
    forall p
      ensures p in Resolved(c.licenses, c.apps.Keys) <==> exists a :: AppReported(p, a) in reports
    {
      HasApps(steam, reports, c, p);
    }
  }

  lemma {:induction false} HasApps(steam: seq<SteamLicense>, reports: seq<Report>, c: Cache, p: string)
    requires Legal(steam, reports) && Described(steam, reports, c)
    ensures (exists l :: l in c.licenses && l.appIds != {} && l.packageId == p) <==>
            exists a :: AppReported(p, a) in reports
  {
    if l :| l in c.licenses && l.appIds != {} && l.packageId == p {
      var a :| a in l.appIds;
      HeldIsPair(steam, reports, c, l, a);
    }
    if a :| AppReported(p, a) in reports {
      var i :| 0 <= i < |reports| && reports[i] == AppReported(p, a);
      var j := FindPackage(steam, reports[i].packageId);
      ExpectedAt(steam, reports, j);
      AppsOfExact(reports, p, a);
    }
  }
}
