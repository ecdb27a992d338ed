/**
 * The report category enumeration (`model/CrimeType.kt`). Only the constant
 * names and their declaration order matter to the logic; the icons do not.
 */
module CrimeTypes {
  import opened Wrappers

  datatype CrimeType = THEFT | HIT_AND_RUN | MURDER | OTHER

  /** `CrimeType.values()`: the constants in declaration order. */
  const Values: seq<CrimeType> := [THEFT, HIT_AND_RUN, MURDER, OTHER]

  /** `CrimeType.name`: the identifier of the constant, as a string. */
  function Name(c: CrimeType): string {
    match c
    case THEFT => "THEFT"
    case HIT_AND_RUN => "HIT_AND_RUN"
    case MURDER => "MURDER"
    case OTHER => "OTHER"
  }

  /** `CrimeType.valueOf`: the constant with that exact name; `None` where Kotlin throws. */
  function ValueOf(s: string): (r: Option<CrimeType>)
    ensures r.Some? ==> Name(r.value) == s
    ensures r.None? ==> forall c :: Name(c) != s
  {
    if s == "THEFT" then Some(THEFT)
    else if s == "HIT_AND_RUN" then Some(HIT_AND_RUN)
    else if s == "MURDER" then Some(MURDER)
    else if s == "OTHER" then Some(OTHER)
    else None
  }

  /** The category a report is drawn with: its own if the string names one, OTHER otherwise. */
  function Rendered(s: string): (c: CrimeType)
    ensures (exists k :: Name(k) == s) ==> Name(c) == s
    ensures (forall k :: Name(k) != s) ==> c == OTHER
  {
    ValueOf(s).OrElse(OTHER)
  }

  /** `CrimeType.ordinal`: the position of the constant in declaration order. */
  function Ordinal(c: CrimeType): (i: nat)
    ensures i < |Values| && Values[i] == c
  {
    match c
    case THEFT => 0
    case HIT_AND_RUN => 1
    case MURDER => 2
    case OTHER => 3
  }

  /** The declaration order lists every constant exactly once. */
  lemma ValuesEnumerateEachOnce()
    ensures |Values| == 4
    ensures forall c :: c in Values
    ensures forall i, j :: 0 <= i < j < |Values| ==> Values[i] != Values[j]
  {
    forall c ensures c in Values {
      assert Values[Ordinal(c)] == c;
    }
  }

  /** Names identify constants: `valueOf(c.name) == c`, and distinct constants have distinct names. */
  lemma NameRoundTrip(c: CrimeType)
    ensures ValueOf(Name(c)) == Some(c)
    ensures forall k :: Name(k) == Name(c) ==> k == c
  {
  }

  /** `name.replace('_', ' ')`. */
  function Spaced(s: string): (r: string)
    ensures |r| == |s|
    ensures forall i :: 0 <= i < |s| ==> r[i] == if s[i] == '_' then ' ' else s[i]
  {
    seq(|s|, i requires 0 <= i < |s| => if s[i] == '_' then ' ' else s[i])
  }

  /** The filter-tab titles: "All" followed by each constant's spaced name. */
  function Tabs(): (r: seq<string>)
    ensures |r| == |Values| + 1
    ensures r[0] == "All"
    ensures forall i :: 1 <= i < |r| ==> r[i] == Spaced(Name(Values[i - 1]))
  {
    ["All"] + seq(|Values|, i requires 0 <= i < |Values| => Spaced(Name(Values[i])))
  }

  /** The five tab titles, spelled out. */
  lemma TabTitles()
    ensures Tabs() == ["All", "THEFT", "HIT AND RUN", "MURDER", "OTHER"]
  {
    assert Spaced("HIT_AND_RUN") == "HIT AND RUN";
    assert Spaced("THEFT") == "THEFT";
    assert Spaced("MURDER") == "MURDER";
    assert Spaced("OTHER") == "OTHER";
  }
}

/**
 * The report record (`model/MarkerData.kt`), the wire record the server sends
 * (`model/MarkerReport.kt`) and the field-for-field mapper between them
 * (`model/MarkerMapper.kt`).
 */
module Markers {

  /**
   * A Kotlin `Double`, kept as its 64-bit pattern. Coordinates are only copied
   * and compared, never computed on, so no arithmetic is modelled.
   */
  datatype Double = Double(bits: bv64)

  /** The app-side report. Omitted arguments take the Kotlin defaults. */
  datatype MarkerData = MarkerData(
    id: string,
    latitude: Double,
    longitude: Double,
    title: string,
    snippet: string,
    reportedBy: string,
    crimeType: string := "OTHER",
    status: string := "PENDING",
    approvers: seq<string> := [])

  /** The report as the server's JSON carries it: the same nine fields, no defaults. */
  datatype MarkerReport = MarkerReport(
    id: string,
    latitude: Double,
    longitude: Double,
    title: string,
    snippet: string,
    reportedBy: string,
    crimeType: string,
    status: string,
    approvers: seq<string>)

  /** Omitting the last three constructor arguments yields "OTHER", "PENDING" and no approvers. */
  lemma Defaults(id: string, lat: Double, lon: Double, title: string, snippet: string, author: string)
    ensures MarkerData(id, lat, lon, title, snippet, author)
            == MarkerData(id, lat, lon, title, snippet, author, "OTHER", "PENDING", [])
  {
  }

  /** `MarkerReport.toMarkerData()`. */
  function ToMarkerData(r: MarkerReport): MarkerData {
    MarkerData(r.id, r.latitude, r.longitude, r.title, r.snippet, r.reportedBy,
               r.crimeType, r.status, r.approvers)
  }

  /** The mapper copies every field verbatim: no arithmetic, no normalisation, same approver order. */
  lemma MapperCopiesFields(r: MarkerReport)
    ensures var d := ToMarkerData(r);
            && d.id == r.id
            && d.latitude == r.latitude && d.longitude == r.longitude
            && d.title == r.title && d.snippet == r.snippet && d.reportedBy == r.reportedBy
            && d.crimeType == r.crimeType && d.status == r.status
            && d.approvers == r.approvers
  {
  }

  /** The inverse direction, used only to state that the mapper loses nothing. */
  function ToMarkerReport(d: MarkerData): MarkerReport {
    MarkerReport(d.id, d.latitude, d.longitude, d.title, d.snippet, d.reportedBy,
                 d.crimeType, d.status, d.approvers)
  }

  /** The mapper is a bijection: each direction undoes the other. */
  lemma MapperRoundTrip(r: MarkerReport, d: MarkerData)
    ensures ToMarkerReport(ToMarkerData(r)) == r
    ensures ToMarkerData(ToMarkerReport(d)) == d
  {
  }

  /** Two server reports map to equal records exactly when they are equal. */
  lemma MapperInjective(a: MarkerReport, b: MarkerReport)
    ensures ToMarkerData(a) == ToMarkerData(b) <==> a == b
  {
    MapperRoundTrip(a, ToMarkerData(a));
    MapperRoundTrip(b, ToMarkerData(b));
  }

  /** `list.map { it.toMarkerData() }`. */
  function MapAll(rs: seq<MarkerReport>): (ds: seq<MarkerData>)
    ensures |ds| == |rs|
    ensures forall i :: 0 <= i < |rs| ==> ds[i] == ToMarkerData(rs[i])
  {
    seq(|rs|, i requires 0 <= i < |rs| => ToMarkerData(rs[i]))
  }

  /** Mapping a server list loses nothing: equal results come from equal lists. */
  lemma MapAllInjective(a: seq<MarkerReport>, b: seq<MarkerReport>)
    ensures MapAll(a) == MapAll(b) <==> a == b
  {
    if MapAll(a) == MapAll(b) {
      forall i | 0 <= i < |a|
        ensures a[i] == b[i]
      {
        MapperInjective(a[i], b[i]);
      }
    }
  }

  /** The ids of a list of records, in order. */
  function Ids(ms: seq<MarkerData>): (r: seq<string>)
    ensures |r| == |ms|
    ensures forall i :: 0 <= i < |ms| ==> r[i] == ms[i].id
  {
    seq(|ms|, i requires 0 <= i < |ms| => ms[i].id)
  }

  /** Mapping a server list keeps its id sequence. */
  lemma MapAllKeepsIds(rs: seq<MarkerReport>)
    ensures forall i :: 0 <= i < |rs| ==> Ids(MapAll(rs))[i] == rs[i].id
  {
  }

  /** No two records of the list share an id. */
  ghost predicate UniqueIds(ms: seq<MarkerData>) {
    forall i, j :: 0 <= i < j < |ms| ==> ms[i].id != ms[j].id
  }

  /** The test `it.id == id` as a function value. */
  function HasId(id: string): MarkerData -> bool {
    (m: MarkerData) => m.id == id
  }

  /** The test `it.id != id` as a function value. */
  function LacksId(id: string): MarkerData -> bool {
    (m: MarkerData) => m.id != id
  }

  /** The test `it == m` (structural data-class equality) as a function value. */
  function Equals(m: MarkerData): MarkerData -> bool {
    (x: MarkerData) => x == m
  }
}
