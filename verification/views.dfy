/**
 * The map's `update` lambda in `MapScreen` (`MainActivity.kt`): which reports
 * the selected category tab shows, and the density tier of the circle drawn
 * around each of them.
 */
module MapView {
  import opened Wrappers
  import opened Seqs
  import opened Markers
  import opened CrimeTypes

  // ---------------------------------------------------------------------------
  // Category tabs
  // ---------------------------------------------------------------------------

  /**
   * `crimeTypeToFilter`: no category on the "All" tab, otherwise the name of
   * the constant one place before the tab. Tab indices come from the tab row,
   * so they never pass the last tab (Kotlin would throw there).
   */
  function TabCategory(tab: int): (c: Option<string>)
    requires tab <= |Values|
    ensures c.None? <==> tab <= 0
    ensures 0 < tab ==> c == Some(Name(Values[tab - 1])) && Tabs()[tab] == Spaced(c.value)
  {
    if tab > 0 then Some(Name(Values[tab - 1])) else None
  }

  /** The test `crimeTypeToFilter == null || it.crimeType == crimeTypeToFilter`. */
  function InCategory(c: Option<string>): MarkerData -> bool {
    (m: MarkerData) => c.None? || m.crimeType == c.value
  }

  /** `filteredMarkersData`: the reports the selected tab shows. */
  function FilterByTab(markers: seq<MarkerData>, tab: int): (r: seq<MarkerData>)
    requires tab <= |Values|
    ensures tab <= 0 ==> r == markers
    ensures 0 < tab ==> forall m :: m in markers ==> (m in r <==> m.crimeType == Name(Values[tab - 1]))
    ensures forall m :: m in r ==> m in markers
  {
    var p := InCategory(TabCategory(tab));
    if tab <= 0 then
      FilterKeepsAll(markers, p);
      Filter(markers, p)
    else
      Filter(markers, p)
  }

  /** The tab filter keeps relative order: it distributes over concatenation. */
  lemma FilterByTabKeepsOrder(a: seq<MarkerData>, b: seq<MarkerData>, tab: int)
    requires tab <= |Values|
    ensures FilterByTab(a + b, tab) == FilterByTab(a, tab) + FilterByTab(b, tab)
  {
    FilterAppend(a, b, InCategory(TabCategory(tab)));
  }

  /**
   * The tab filter keeps each record of the selected category exactly as often
   * as the list holds it, and no other record: it picks a subsequence.
   */
  lemma FilterByTabMultiplicity(markers: seq<MarkerData>, tab: int, m: MarkerData)
    requires tab <= |Values|
    ensures tab <= 0 ==> multiset(FilterByTab(markers, tab))[m] == multiset(markers)[m]
    ensures 0 < tab ==> multiset(FilterByTab(markers, tab))[m]
                        == if m.crimeType == Name(Values[tab - 1]) then multiset(markers)[m] else 0
  {
    FilterMultiplicity(markers, InCategory(TabCategory(tab)), m);
  }

  /**
   * Each report whose category string names a constant is shown on exactly two
   * tabs: "All" and its own.
   */
  lemma KnownCategoryTabs(markers: seq<MarkerData>, m: MarkerData, c: CrimeType, tab: int)
    requires m in markers && m.crimeType == Name(c)
    requires tab <= |Values|
    ensures m in FilterByTab(markers, tab) <==> tab <= 0 || tab == Ordinal(c) + 1
  {
    NameRoundTrip(c);
    if 0 < tab && m in FilterByTab(markers, tab) {
      assert Name(Values[tab - 1]) == Name(c);
    }
  }

  /** A marker's icon: the yellow warning while PENDING, the category's own icon after. */
  datatype Icon = PendingWarning | CategoryIcon(category: CrimeType)

  /** The icon chosen for a shown report. */
  function MarkerIcon(m: MarkerData): Icon {
    if m.status == "PENDING" then PendingWarning else CategoryIcon(Rendered(m.crimeType))
  }

  /**
   * A category string that names no constant is treated as OTHER (and gets
   * OTHER's icon once it is not pending), yet the report appears on the "All"
   * tab only, not on the OTHER tab.
   */
  lemma UnknownCategoryOnlyOnAllTab(markers: seq<MarkerData>, m: MarkerData, tab: int)
    requires m in markers && forall c :: Name(c) != m.crimeType
    requires tab <= |Values|
    ensures Rendered(m.crimeType) == OTHER
    ensures MarkerIcon(m) == if m.status == "PENDING" then PendingWarning else CategoryIcon(OTHER)
    ensures m in FilterByTab(markers, tab) <==> tab <= 0
  {
    if 0 < tab {
      assert Name(Values[tab - 1]) != m.crimeType;
    }
  }

  // ---------------------------------------------------------------------------
  // Heatmap density
  // ---------------------------------------------------------------------------

  /** osmdroid's `GeoPoint(latitude, longitude)`. */
  datatype GeoPoint = GeoPoint(latitude: Double, longitude: Double)

  /** Where a report is pinned. */
  function Position(m: MarkerData): GeoPoint {
    GeoPoint(m.latitude, m.longitude)
  }

  /** The fill colour of a density circle: blue, yellow or red (all at alpha 100). */
  datatype Tier = Low | Medium | High

  /** The `when` over `nearbyCrimes`. */
  function TierOf(n: int): (t: Tier)
    ensures t == Low <==> n <= 1
    ensures t == Medium <==> 2 <= n <= 5
    ensures t == High <==> 5 < n
  {
    if n <= 1 then Low else if 2 <= n <= 5 then Medium else High
  }

  /** Low < Medium < High. */
  function Rank(t: Tier): nat {
    match t
    case Low => 0
    case Medium => 1
    case High => 2
  }

  /** More nearby reports never give a lower tier. */
  lemma TierMonotone(a: int, b: int)
    requires a <= b
    ensures Rank(TierOf(a)) <= Rank(TierOf(b))
  {
  }

  /**
   * The test "within 2000 m of the target". The great-circle distance is not
   * modelled: `near` stands for it, and is reflexive wherever a lemma says so.
   */
  function NearTo(near: (GeoPoint, GeoPoint) -> bool, target: MarkerData): MarkerData -> bool {
    (m: MarkerData) => near(Position(m), Position(target))
  }

  /** `nearbyCrimes`: how many reports of the full list lie near the target, itself included. */
  function Density(all: seq<MarkerData>, target: MarkerData, near: (GeoPoint, GeoPoint) -> bool): (n: nat)
    ensures n <= |all|
    ensures (forall p :: near(p, p)) && target in all ==> 1 <= n
  {
    var p := NearTo(near, target);
    assert p(target) == near(Position(target), Position(target));
    assert target in all && p(target) ==> target in Filter(all, p);
    Count(all, p)
  }

  /**
   * A report with `k` other reports near it, under a reflexive `near`, has
   * density k + 1: no neighbours gives Low, one to four Medium, five or more High.
   */
  lemma TierFromNeighbours(pre: seq<MarkerData>, target: MarkerData, post: seq<MarkerData>,
                           near: (GeoPoint, GeoPoint) -> bool)
    requires forall p :: near(p, p)
    ensures var k := Count(pre + post, NearTo(near, target));
            && Density(pre + [target] + post, target, near) == k + 1
            && TierOf(Density(pre + [target] + post, target, near))
               == if k == 0 then Low else if k <= 4 then Medium else High
  {
    var p := NearTo(near, target);
    assert p(target) == near(Position(target), Position(target));
    CountWithOne(pre, target, post, p);
  }

  /** Adding reports never lowers anyone's density. */
  lemma DensityGrows(all: seq<MarkerData>, extra: seq<MarkerData>, target: MarkerData,
                     near: (GeoPoint, GeoPoint) -> bool)
    ensures Density(all, target, near) <= Density(all + extra, target, near)
  {
    CountAppend(all, extra, NearTo(near, target));
  }

  /**
   * The density circles. With the heatmap toggle off there are none; with it
   * on, one circle per shown report, in the shown order. A circle's tier
   * depends on the report and the FULL list only, so the tab decides which
   * circles are drawn but never their colour.
   */
  function Heatmap(all: seq<MarkerData>, tab: int, show: bool, near: (GeoPoint, GeoPoint) -> bool)
    : (circles: seq<(MarkerData, Tier)>)
    requires tab <= |Values|
    ensures !show ==> circles == []
    ensures show ==> |circles| == |FilterByTab(all, tab)|
    ensures show ==> forall i :: 0 <= i < |circles| ==> circles[i].0 == FilterByTab(all, tab)[i]
    ensures forall i :: 0 <= i < |circles| ==> circles[i].1 == TierOf(Density(all, circles[i].0, near))
  {
    if !show then []
    else
      var shown := FilterByTab(all, tab);
      seq(|shown|, i requires 0 <= i < |shown| => (shown[i], TierOf(Density(all, shown[i], near))))
  }

  /**
   * Counting over the full list rather than over the shown reports never gives
   * a lower tier than counting over the shown ones would.
   */
  lemma FullListTierAtLeastShown(all: seq<MarkerData>, tab: int, m: MarkerData,
                                 near: (GeoPoint, GeoPoint) -> bool)
    requires tab <= |Values|
    ensures Rank(TierOf(Density(FilterByTab(all, tab), m, near))) <= Rank(TierOf(Density(all, m, near)))
  {
    CountOfFilterAtMost(all, InCategory(TabCategory(tab)), NearTo(near, m));
    if tab <= 0 {
      FilterKeepsAll(all, InCategory(TabCategory(tab)));
    }
    TierMonotone(Density(FilterByTab(all, tab), m, near), Density(all, m, near));
  }
}

/**
 * `CustomInfoWindow.onOpen` (`MainActivity.kt`): whether the approve button is
 * shown for a report.
 */
module InfoWindow {
  import opened Wrappers
  import opened Seqs
  import opened Markers
  import opened Api
  import opened ReportList

  /** `canApprove`: the report is pending, the user has not approved it and did not file it. */
  function CanApprove(data: MarkerData, username: string): (b: bool)
    ensures b ==> data.status == "PENDING"
    ensures b ==> username != data.reportedBy && username !in data.approvers
  {
    data.status == "PENDING" && !(username in data.approvers) && data.reportedBy != username
  }

  /**
   * Approval is offered exactly when the report is pending, the user has not
   * approved it and did not file it: a reporter is never offered their own
   * report, a report in any other status (APPROVED or otherwise) is offered to
   * nobody, and an approver is not offered it again.
   */
  lemma GateExcludes(data: MarkerData, username: string)
    ensures !CanApprove(data, data.reportedBy)
    ensures data.status == "APPROVED" ==> !CanApprove(data, username)
    ensures username in data.approvers ==> !CanApprove(data, username)
    ensures data.status == "PENDING" && username !in data.approvers && username != data.reportedBy
            ==> CanApprove(data, username)
    ensures CanApprove(data, username)
            <==> data.status == "PENDING" && username !in data.approvers && username != data.reportedBy
  {
  }

  /**
   * Opening the window for the report with `markerId`: the window looks the
   * record up by id (first match) and shows nothing when it is missing.
   */
  function ApproveButton(markers: seq<MarkerData>, markerId: string, username: string): (shown: Option<bool>)
    ensures shown.None? <==> forall j :: 0 <= j < |markers| ==> markers[j].id != markerId
    ensures shown.Some? ==> shown.value == CanApprove(markers[IndexOfFirst(markers, HasId(markerId))], username)
  {
    var i := IndexOfFirst(markers, HasId(markerId));
    if i < 0 then None else Some(CanApprove(markers[i], username))
  }

  /**
   * Once the server's answer to an approval lists the user among the
   * approvers (or is no longer pending), the button is gone for that report.
   */
  lemma NotOfferedAfterStoredApproval(markers: seq<MarkerData>, updated: MarkerReport, username: string)
    requires updated.id in Ids(markers)
    requires username in updated.approvers || updated.status != "PENDING"
    ensures ApproveButton(Approve(markers, Success(Some(Complete(updated)))).markers,
                          updated.id, username) == Some(false)
  {
    var i := IndexOfFirst(markers, HasId(updated.id));
    var k :| 0 <= k < |markers| && Ids(markers)[k] == updated.id;
    assert HasId(updated.id)(markers[k]);
    var after := ReplaceFirstWhere(markers, HasId(updated.id), ToMarkerData(updated));
    assert IndexOfFirst(after, HasId(updated.id)) == i by {
      assert HasId(updated.id)(after[i]);
      forall j | 0 <= j < i
        ensures !HasId(updated.id)(after[j])
      {
        assert after[j] == markers[j];
      }
    }
  }
}

/**
 * The dialogs of `MainActivity.kt`: the login screen's button gates, the new
 * report draft of `AddMarkerDialog`, and the list of `ReportsDialog`.
 */
module Dialogs {
  import opened Wrappers
  import opened Seqs
  import opened Markers
  import opened CrimeTypes
  import opened Api
  import opened MapView
  import opened InfoWindow

  /** Kotlin's `Char.isWhitespace` on the JVM: Java whitespace or a Unicode space separator. */
  predicate IsWhitespace(c: char) {
    var n := c as int;
    (9 <= n <= 13) || (0x1C <= n <= 0x20) || n == 0xA0 || n == 0x1680
    || (0x2000 <= n <= 0x200A) || n == 0x2028 || n == 0x2029 || n == 0x202F
    || n == 0x205F || n == 0x3000
  }

  /** Kotlin's `isBlank`: empty, or whitespace only. */
  predicate IsBlank(s: string) {
    forall i :: 0 <= i < |s| ==> IsWhitespace(s[i])
  }

  /** A non-blank text holds at least one visible character, so it is not empty. */
  lemma NotBlankHasVisibleChar(s: string)
    requires !IsBlank(s)
    ensures |s| > 0
    ensures exists i :: 0 <= i < |s| && !IsWhitespace(s[i])
  {
  }

  /** "Login as User" is enabled for any non-blank name. */
  function UserLoginEnabled(name: string): (b: bool)
    ensures b ==> |name| > 0
    ensures b <==> exists i :: 0 <= i < |name| && !IsWhitespace(name[i])
  {
    !IsBlank(name)
  }

  /** "Login as Admin" is enabled for the fixed credentials admin/admin only. */
  function AdminLoginEnabled(name: string, password: string): (b: bool)
    ensures b ==> UserLoginEnabled(name)
    ensures b <==> name == "admin" && password == "admin"
  {
    assert name == "admin" ==> !IsWhitespace(name[0]);
    name == "admin" && password == "admin"
  }

  /** "Submit Report" is enabled only when both title and description are non-blank. */
  function SubmitEnabled(title: string, description: string): (b: bool)
    ensures b ==> |title| > 0 && |description| > 0
    ensures b <==> !IsBlank(title) && !IsBlank(description)
  {
    !IsBlank(title) && !IsBlank(description)
  }

  /**
   * The draft `AddMarkerDialog` builds from its fields. The random UUID and the
   * map centre are parameters.
   */
  function NewDraft(id: string, center: GeoPoint, title: string, description: string,
                    category: CrimeType, user: User): (d: MarkerData)
    ensures d.id == id && Position(d) == center && d.title == title && d.snippet == description
    ensures d.reportedBy == user.username
    ensures ValueOf(d.crimeType) == Some(category)
    ensures user.isAdmin ==> d.status == "APPROVED" && d.approvers == [user.username]
    ensures !user.isAdmin ==> d.status == "PENDING" && d.approvers == []
  {
    NameRoundTrip(category);
    MarkerData(id, center.latitude, center.longitude, title, description, user.username,
               Name(category), if user.isAdmin then "APPROVED" else "PENDING",
               if user.isAdmin then [user.username] else [])
  }

  /**
   * The draft is filed by the current user; an admin's draft starts approved
   * with the admin as sole approver, anyone else's starts pending with none.
   * Either way nobody can approve it from the author's seat, and its category
   * string names a constant.
   */
  lemma DraftByRole(id: string, center: GeoPoint, title: string, description: string,
                    category: CrimeType, user: User)
    ensures var d := NewDraft(id, center, title, description, category, user);
            && d.reportedBy == user.username
            && d.id == id && Position(d) == center && d.title == title && d.snippet == description
            && (user.isAdmin ==> d.status == "APPROVED" && d.approvers == [user.username])
            && (!user.isAdmin ==> d.status == "PENDING" && d.approvers == [])
            && !CanApprove(d, user.username)
            && ValueOf(d.crimeType) == Some(category)
  {
    NameRoundTrip(category);
  }

  /** The dialog's category defaults to OTHER. */
  const DefaultCategory: CrimeType := OTHER

  /**
   * A regular user's draft left on the dialog's default category is the record
   * `MarkerData`'s own defaults would give: category "OTHER", PENDING, no approvers.
   */
  lemma DefaultDraftMatchesRecordDefaults(id: string, center: GeoPoint, title: string,
                                          description: string, user: User)
    requires !user.isAdmin
    ensures NewDraft(id, center, title, description, DefaultCategory, user)
            == MarkerData(id, center.latitude, center.longitude, title, description, user.username)
  {
  }

  /** `userReports`: everything for an admin, otherwise the user's own reports in list order. */
  function UserReports(markers: seq<MarkerData>, user: User): (r: seq<MarkerData>)
    ensures user.isAdmin ==> r == markers
    ensures !user.isAdmin ==> forall m :: m in markers ==> (m in r <==> m.reportedBy == user.username)
    ensures forall m :: m in r ==> m in markers
  {
    if user.isAdmin then markers else Filter(markers, (m: MarkerData) => m.reportedBy == user.username)
  }

  /**
   * A regular user's list holds each of their reports exactly as often as the
   * full list does, and nobody else's.
   */
  lemma UserReportsMultiplicity(markers: seq<MarkerData>, user: User, m: MarkerData)
    requires !user.isAdmin
    ensures multiset(UserReports(markers, user))[m]
            == if m.reportedBy == user.username then multiset(markers)[m] else 0
  {
    FilterMultiplicity(markers, (x: MarkerData) => x.reportedBy == user.username, m);
  }

  /**
   * A regular user's list never shows a report filed by someone else, and it
   * keeps the list order: it distributes over concatenation.
   */
  lemma OwnReportsOnly(a: seq<MarkerData>, b: seq<MarkerData>, user: User)
    requires !user.isAdmin
    ensures forall i :: 0 <= i < |UserReports(a, user)| ==> UserReports(a, user)[i].reportedBy == user.username
    ensures UserReports(a + b, user) == UserReports(a, user) + UserReports(b, user)
  {
    FilterAppend(a, b, (m: MarkerData) => m.reportedBy == user.username);
  }
}
