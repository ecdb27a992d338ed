/**
 * The report-list state machine of `MapScreen` (`MainActivity.kt`): the
 * ordered list of reports plus the error and success banners, and how each
 * answer of the remote service changes them. Every transition is a pure
 * function of the previous state and the response.
 */
module ReportList {
  import opened Wrappers
  import opened Seqs
  import opened Markers
  import opened Api

  /** The error banner: an HTTP status from the poll loop, or a text. */
  datatype Banner = HttpStatus(code: int) | Text(text: string)

  const ApproveFailedText: string := "Failed to approve report"
  const ApprovedText: string := "Report approved successfully!"

  /** MapScreen's `markersData`, `errorMessage` and `successMessage`. */
  datatype Screen = Screen(markers: seq<MarkerData>, error: Option<Banner>, notice: Option<string>)

  /** What a suspend helper leaves behind: the list after it ran, and the Boolean it returns. */
  datatype Outcome = Outcome(markers: seq<MarkerData>, ok: bool)

  /** A 2xx response whose body `toMarkerData` accepts. */
  predicate Delivered(r: Response<Element>) {
    r.Success? && r.body.Some? && r.body.value.Complete?
  }

  /** A 2xx response whose body `toMarkerData` rejects. */
  predicate Rejected(r: Response<Element>) {
    r.Success? && r.body.Some? && r.body.value.Incomplete?
  }

  /** The report a delivered response carries. */
  function Report(r: Response<Element>): MarkerReport
    requires Delivered(r)
  {
    r.body.value.report
  }

  // ---------------------------------------------------------------------------
  // The poll loop
  // ---------------------------------------------------------------------------

  /** The error banner an exception leaves: its message, or none when the message is null. */
  function ThrownBanner(message: Option<string>): Option<Banner> {
    match message
    case Some(m) => Some(Text(m))
    case None => None
  }

  /**
   * One iteration of the poll loop. A 2xx answer clears the list and refills it
   * with the server's (a null body counting as empty), then clears the error.
   * The refill maps the elements in order, so the first element `toMarkerData`
   * rejects throws after the clear: the list stays EMPTY and the error is that
   * exception's message. A non-2xx answer or an exception thrown by the call
   * itself keeps the list and sets the error to the status code or to the
   * message, which Kotlin allows to be null.
   */
  function Poll(s: Screen, r: Response<seq<Element>>): (t: Screen)
    ensures r.Success? && IndexOfFirst(r.body.OrElse([]), IsIncomplete) < 0 ==>
              && |t.markers| == |r.body.OrElse([])|
              && (forall i :: 0 <= i < |t.markers| ==>
                    r.body.OrElse([])[i].Complete? && t.markers[i] == ToMarkerData(r.body.OrElse([])[i].report))
              && t.error.None?
    ensures r.Success? && 0 <= IndexOfFirst(r.body.OrElse([]), IsIncomplete) ==>
              && t.markers == []
              && t.error == ThrownBanner(r.body.OrElse([])[IndexOfFirst(r.body.OrElse([]), IsIncomplete)].message)
    ensures !r.Success? ==> t.markers == s.markers
    ensures r.HttpError? ==> t.error == Some(HttpStatus(r.code))
    ensures r.Thrown? ==> t.error == if r.message.Some? then Some(Text(r.message.value)) else None
    ensures t.notice == s.notice
  {
    match r
    case Success(body) =>
      var b := body.OrElse([]);
      var k := IndexOfFirst(b, IsIncomplete);
      if k < 0 then
        s.(markers := seq(|b|, i requires 0 <= i < |b| => assert !IsIncomplete(b[i]); ToMarkerData(b[i].report)),
           error := None)
      else
        s.(markers := [], error := ThrownBanner(b[k].message))
    case HttpError(code) => s.(error := Some(HttpStatus(code)))
    case Thrown(message) => s.(error := ThrownBanner(message))
  }

  /**
   * After a successful poll of a well-formed list the list is the server's
   * snapshot, whatever it held before, and it determines that snapshot: equal
   * lists come from equal snapshots.
   */
  lemma PollSnapshotWins(s1: Screen, s2: Screen, b1: seq<MarkerReport>, b2: seq<MarkerReport>)
    ensures Poll(s1, Success(Some(AsElements(b1)))).markers == MapAll(b1)
    ensures Poll(s1, Success(Some(AsElements(b1)))).markers == Poll(s2, Success(Some(AsElements(b1)))).markers
    ensures forall i :: 0 <= i < |b1| ==> Ids(Poll(s1, Success(Some(AsElements(b1)))).markers)[i] == b1[i].id
    ensures Poll(s1, Success(Some(AsElements(b1)))).markers == Poll(s2, Success(Some(AsElements(b2)))).markers
            <==> b1 == b2
  {
    var e1, e2 := AsElements(b1), AsElements(b2);
    assert IndexOfFirst(e1, IsIncomplete) < 0 by {
      assert forall j :: 0 <= j < |e1| ==> !IsIncomplete(e1[j]);
    }
    assert IndexOfFirst(e2, IsIncomplete) < 0 by {
      assert forall j :: 0 <= j < |e2| ==> !IsIncomplete(e2[j]);
    }
    MapAllKeepsIds(b1);
    MapAllInjective(b1, b2);
  }

  /**
   * A 2xx answer holding one element `toMarkerData` rejects wipes the list,
   * whatever it held and whatever the other elements are.
   */
  lemma IncompletePollEmptiesList(s: Screen, pre: seq<MarkerReport>, id: Option<string>,
                                  message: Option<string>, post: seq<Element>)
    ensures var t := Poll(s, Success(Some(AsElements(pre) + [Incomplete(id, message)] + post)));
            t.markers == [] && t.error == ThrownBanner(message)
  {
    var b := AsElements(pre) + [Incomplete(id, message)] + post;
    assert IsIncomplete(b[|pre|]);
    assert forall j :: 0 <= j < |pre| ==> !IsIncomplete(b[j]);
  }

  // ---------------------------------------------------------------------------
  // postReportToServer
  // ---------------------------------------------------------------------------

  /**
   * The list update of `postReportToServer`: the server's created report, and
   * only that, is appended. A 2xx answer reports success even with no body;
   * a body `toMarkerData` rejects throws inside the `try`, so the call reports
   * failure and the list stays as it was.
   */
  function PostReport(markers: seq<MarkerData>, r: Response<Element>): (o: Outcome)
    ensures o.ok <==> r.Success? && !Rejected(r)
    ensures Delivered(r) ==> o.markers == markers + [ToMarkerData(Report(r))]
    ensures !Delivered(r) ==> o.markers == markers
  {
    match r
    case Success(Some(Complete(created))) => Outcome(markers + [ToMarkerData(created)], true)
    case Success(Some(Incomplete(_, _))) => Outcome(markers, false)
    case Success(None) => Outcome(markers, true)
    case _ => Outcome(markers, false)
  }

  /**
   * Submitting a draft: the request built from it goes to `create`, and the
   * list then changes by the answer alone. The draft itself is never inserted:
   * every record of the result was already there or is the server's report.
   */
  function Submit(markers: seq<MarkerData>, draft: MarkerData, user: User,
                  create: (ReportRequest, User) -> Response<Element>): (o: Outcome)
    ensures markers <= o.markers && |o.markers| <= |markers| + 1
    ensures forall x :: x in o.markers ==>
              x in markers || (Delivered(create(RequestOf(draft), user)) &&
                               x == ToMarkerData(Report(create(RequestOf(draft), user))))
  {
    PostReport(markers, create(RequestOf(draft), user))
  }

  /**
   * A draft whose server answer does not echo it back never shows up, even if
   * the server accepted the request.
   */
  lemma DraftNeverInserted(markers: seq<MarkerData>, draft: MarkerData, r: Response<Element>)
    requires draft !in markers
    requires Delivered(r) ==> ToMarkerData(Report(r)) != draft
    ensures draft !in PostReport(markers, r).markers
  {
  }

  /** Appending the created report keeps ids unique exactly when its id is new. */
  lemma PostKeepsUniqueIdsIff(markers: seq<MarkerData>, created: MarkerReport)
    requires UniqueIds(markers)
    ensures UniqueIds(PostReport(markers, Success(Some(Complete(created)))).markers)
            <==> created.id !in Ids(markers)
  {
    var t := PostReport(markers, Success(Some(Complete(created)))).markers;
    if created.id in Ids(markers) {
      var k :| 0 <= k < |markers| && Ids(markers)[k] == created.id;
      assert t[k].id == t[|markers|].id;
    }
  }

  // ---------------------------------------------------------------------------
  // approveReportOnServer
  // ---------------------------------------------------------------------------

  /**
   * Whether a rejected approve body makes `toMarkerData` throw: only when its
   * id is present and some record carries it, since the conversion runs only
   * after a matching index is found.
   */
  predicate RejectedMatch(markers: seq<MarkerData>, r: Response<Element>) {
    Rejected(r) && r.body.value.id.Some? && 0 <= IndexOfFirst(markers, HasId(r.body.value.id.value))
  }

  /**
   * The list update of `approveReportOnServer`: the record at the first index
   * whose id equals the RETURNED report's id is replaced by that report; no
   * match, no body, a rejected body or a failed call leaves the list as it
   * was. A rejected body reports failure only when a record matched it, as
   * that is when the conversion throws. The status and approvers are the
   * server's: nothing is recomputed here.
   */
  function Approve(markers: seq<MarkerData>, r: Response<Element>): (o: Outcome)
    ensures o.ok <==> r.Success? && !RejectedMatch(markers, r)
    ensures |o.markers| == |markers| && Ids(o.markers) == Ids(markers)
    ensures !Delivered(r) ==> o.markers == markers
    ensures Delivered(r) ==>
              var i := IndexOfFirst(markers, HasId(Report(r).id));
              && (i < 0 ==> o.markers == markers)
              && (0 <= i ==> o.markers[i] == ToMarkerData(Report(r))
                             && forall j :: 0 <= j < |markers| && j != i ==> o.markers[j] == markers[j])
  {
    match r
    case Success(Some(Complete(updated))) =>
      var t := ReplaceFirstWhere(markers, HasId(updated.id), ToMarkerData(updated));
      assert Ids(t) == Ids(markers) by {
        var i := IndexOfFirst(markers, HasId(updated.id));
        if 0 <= i {
          assert HasId(updated.id)(markers[i]);
        }
      }
      Outcome(t, true)
    case Success(Some(Incomplete(id, _))) =>
      Outcome(markers, !(id.Some? && 0 <= IndexOfFirst(markers, HasId(id.value))))
    case Success(None) => Outcome(markers, true)
    case _ => Outcome(markers, false)
  }

  /** Reference definition: every record carrying the id is replaced. */
  function ReplaceEveryById(markers: seq<MarkerData>, d: MarkerData): (r: seq<MarkerData>)
    ensures |r| == |markers|
    ensures forall i :: 0 <= i < |markers| ==> r[i] == if markers[i].id == d.id then d else markers[i]
  {
    seq(|markers|, i requires 0 <= i < |markers| => if markers[i].id == d.id then d else markers[i])
  }

  /** When ids are unique, replacing the first match is replacing every match. */
  lemma ApproveReplacesById(markers: seq<MarkerData>, updated: MarkerReport)
    requires UniqueIds(markers)
    ensures Approve(markers, Success(Some(Complete(updated)))).markers
            == ReplaceEveryById(markers, ToMarkerData(updated))
  {
    var t := Approve(markers, Success(Some(Complete(updated)))).markers;
    var i := IndexOfFirst(markers, HasId(updated.id));
    forall j | 0 <= j < |markers|
      ensures t[j] == ReplaceEveryById(markers, ToMarkerData(updated))[j]
    {
      if 0 <= i && j != i {
        assert markers[i].id == updated.id;
      }
    }
  }

  /** Approval never disturbs id uniqueness. */
  lemma ApproveKeepsUniqueIds(markers: seq<MarkerData>, r: Response<Element>)
    requires UniqueIds(markers)
    ensures UniqueIds(Approve(markers, r).markers)
  {
    var t := Approve(markers, r).markers;
    forall i, j | 0 <= i < j < |t|
      ensures t[i].id != t[j].id
    {
      assert Ids(t)[i] == Ids(markers)[i] && Ids(t)[j] == Ids(markers)[j];
    }
  }

  // ---------------------------------------------------------------------------
  // deleteReportOnServer and the delete dispatch
  // ---------------------------------------------------------------------------

  /**
   * The list update of `deleteReportOnServer`: on a 2xx answer the first record
   * with that id is removed (an absent id is a no-op); otherwise nothing changes.
   */
  function Delete(markers: seq<MarkerData>, id: string, r: Response<()>): (o: Outcome)
    ensures o.ok <==> r.Success?
    ensures !r.Success? ==> o.markers == markers
    ensures r.Success? && (forall j :: 0 <= j < |markers| ==> markers[j].id != id) ==> o.markers == markers
    ensures r.Success? ==>
              var i := IndexOfFirst(markers, HasId(id));
              0 <= i ==> && markers[i].id == id
                         && (forall j :: 0 <= j < i ==> markers[j].id != id)
                         && o.markers == markers[..i] + markers[i + 1..]
  {
    if r.Success? then Outcome(RemoveFirstWhere(markers, HasId(id)), true)
    else Outcome(markers, false)
  }

  /** When ids are unique, a successful delete is exactly "keep the records with another id". */
  lemma DeleteIsFilterById(markers: seq<MarkerData>, id: string)
    requires UniqueIds(markers)
    ensures Delete(markers, id, Success(None)).markers == Filter(markers, LacksId(id))
  {
    var i := IndexOfFirst(markers, HasId(id));
    if i < 0 {
      FilterKeepsAll(markers, LacksId(id));
    } else {
      assert markers == markers[..i] + [markers[i]] + markers[i + 1..];
      FilterDropsOne(markers[..i], markers[i], markers[i + 1..], LacksId(id));
    }
  }

  /** Removing one position keeps the other ids in order. */
  lemma IdsOfRemoveAt(markers: seq<MarkerData>, i: int)
    requires 0 <= i < |markers|
    ensures Ids(RemoveAt(markers, i)) == RemoveAt(Ids(markers), i)
  {
  }

  /** Removing the first match of any test keeps ids unique and only ever drops an id. */
  lemma RemoveFirstKeepsIds(markers: seq<MarkerData>, p: MarkerData -> bool)
    ensures multiset(Ids(RemoveFirstWhere(markers, p))) <= multiset(Ids(markers))
    ensures UniqueIds(markers) ==> UniqueIds(RemoveFirstWhere(markers, p))
  {
    var i := IndexOfFirst(markers, p);
    if 0 <= i {
      IdsOfRemoveAt(markers, i);
      var t := RemoveAt(markers, i);
      if UniqueIds(markers) {
        forall a, b | 0 <= a < b < |t|
          ensures t[a].id != t[b].id
        {
          var a' := if a < i then a else a + 1;
          var b' := if b < i then b else b + 1;
          assert t[a] == markers[a'] && t[b] == markers[b'];
        }
      }
    }
  }

  /**
   * The delete button's handler. An admin asks the server; if that fails, the
   * first record structurally equal to the dialog's copy is removed locally.
   * A non-admin never reaches the server and only removes locally; the
   * response is then ignored.
   */
  function OnDeleteClicked(user: User, s: Screen, marker: MarkerData, r: Response<()>): (t: Screen)
    ensures user.isAdmin && r.Success? ==> t.markers == RemoveFirstWhere(s.markers, HasId(marker.id))
    ensures !(user.isAdmin && r.Success?) ==> t.markers == RemoveFirstWhere(s.markers, Equals(marker))
    ensures marker !in s.markers && !(user.isAdmin && r.Success?) ==> t.markers == s.markers
    ensures t.error == s.error && t.notice == s.notice
  {
    if user.isAdmin then
      var o := Delete(s.markers, marker.id, r);
      if o.ok then s.(markers := o.markers)
      else s.(markers := RemoveFirstWhere(s.markers, Equals(marker)))
    else
      s.(markers := RemoveFirstWhere(s.markers, Equals(marker)))
  }

  /**
   * While the dialog's copy is still current, the server-confirmed delete and
   * the local fallback remove the same record.
   */
  lemma FallbackAgreesWhileCurrent(markers: seq<MarkerData>, marker: MarkerData)
    requires UniqueIds(markers) && marker in markers
    ensures RemoveFirstWhere(markers, Equals(marker)) == RemoveFirstWhere(markers, HasId(marker.id))
  {
    var i := IndexOfFirst(markers, Equals(marker));
    var k := IndexOfFirst(markers, HasId(marker.id));
    assert HasId(marker.id)(markers[i]);
  }

  /**
   * Once an approval has replaced the dialog's record by a different version,
   * the local fallback (structural equality) removes nothing.
   */
  lemma StaleFallbackRemovesNothing(markers: seq<MarkerData>, marker: MarkerData, updated: MarkerReport)
    requires UniqueIds(markers) && marker in markers
    requires updated.id == marker.id && ToMarkerData(updated) != marker
    ensures var after := Approve(markers, Success(Some(Complete(updated)))).markers;
            marker !in after && RemoveFirstWhere(after, Equals(marker)) == after
  {
    var after := Approve(markers, Success(Some(Complete(updated)))).markers;
    ApproveReplacesById(markers, updated);
  }

  // ---------------------------------------------------------------------------
  // The screen as a whole
  // ---------------------------------------------------------------------------

  /** The approve button's handler: the list update, then the success or error banner. */
  function OnApproveAnswered(s: Screen, r: Response<Element>): (t: Screen)
    ensures t.markers == Approve(s.markers, r).markers
    ensures r.Success? && !RejectedMatch(s.markers, r) ==> t.notice == Some(ApprovedText) && t.error == s.error
    ensures !r.Success? || RejectedMatch(s.markers, r) ==>
              t.error == Some(Text(ApproveFailedText)) && t.notice == s.notice
  {
    var o := Approve(s.markers, r);
    if o.ok then s.(markers := o.markers, notice := Some(ApprovedText))
    else s.(markers := o.markers, error := Some(Text(ApproveFailedText)))
  }

  /**
   * A 2xx approval whose body carries the id of a listed report but that
   * `toMarkerData` rejects is a failure: the list stays and the failure
   * banner shows, although the server accepted the approval.
   */
  lemma RejectedApproveShowsFailure(s: Screen, id: string, message: Option<string>)
    requires id in Ids(s.markers)
    ensures OnApproveAnswered(s, Success(Some(Incomplete(Some(id), message))))
            == s.(error := Some(Text(ApproveFailedText)))
  {
    var k :| 0 <= k < |s.markers| && Ids(s.markers)[k] == id;
    assert HasId(id)(s.markers[k]);
  }

  /** Everything the service can answer, each tied to the call that asked. */
  datatype Event =
    | Polled(list: Response<seq<Element>>)
    | Posted(created: Response<Element>)
    | ApproveAnswered(approved: Response<Element>)
    | DeleteClicked(marker: MarkerData, deleted: Response<()>)

  /** One event applied to the screen of `user`. */
  function Step(user: User, s: Screen, e: Event): Screen {
    match e
    case Polled(r) => Poll(s, r)
    case Posted(r) => s.(markers := PostReport(s.markers, r).markers)
    case ApproveAnswered(r) => OnApproveAnswered(s, r)
    case DeleteClicked(m, r) => OnDeleteClicked(user, s, m, r)
  }

  /** Events in order. */
  function Run(user: User, s: Screen, es: seq<Event>): Screen
    decreases |es|
  {
    if |es| == 0 then s else Run(user, Step(user, s, es[0]), es[1..])
  }

  /** An event that brings reports from the server into the list. */
  predicate Arrival(e: Event) {
    (e.Polled? && e.list.Success?) || (e.Posted? && Delivered(e.created))
  }

  /** Without arrivals a step never adds an id, and keeps unique ids unique. */
  lemma StepWithoutArrival(user: User, s: Screen, e: Event)
    requires !Arrival(e)
    ensures multiset(Ids(Step(user, s, e).markers)) <= multiset(Ids(s.markers))
    ensures UniqueIds(s.markers) ==> UniqueIds(Step(user, s, e).markers)
  {
    match e
    case Polled(r) =>
    case Posted(r) =>
    case ApproveAnswered(r) =>
      if UniqueIds(s.markers) {
        ApproveKeepsUniqueIds(s.markers, r);
      }
    case DeleteClicked(m, r) =>
      RemoveFirstKeepsIds(s.markers, HasId(m.id));
      RemoveFirstKeepsIds(s.markers, Equals(m));
  }

  /**
   * Between two arrivals the list can only lose ids: approvals keep them,
   * deletions drop one, failures change nothing. Unique ids stay unique.
   */
  lemma {:induction false} RunWithoutArrivals(user: User, s: Screen, es: seq<Event>)
    requires forall k :: 0 <= k < |es| ==> !Arrival(es[k])
    ensures multiset(Ids(Run(user, s, es).markers)) <= multiset(Ids(s.markers))
    ensures UniqueIds(s.markers) ==> UniqueIds(Run(user, s, es).markers)
    decreases |es|
  {
    if |es| > 0 {
      StepWithoutArrival(user, s, es[0]);
      RunWithoutArrivals(user, Step(user, s, es[0]), es[1..]);
    }
  }

  /**
   * A poll that fails before a body arrives, and a create or approve that
   * delivers no usable report (a failure, no body, or a body `toMarkerData`
   * rejects), leave the list exactly as it was.
   */
  lemma FailuresKeepList(user: User, s: Screen, e: Event)
    requires !e.DeleteClicked?
    requires e.Polled? ==> !e.list.Success?
    requires e.Posted? ==> !Delivered(e.created)
    requires e.ApproveAnswered? ==> !Delivered(e.approved)
    ensures Step(user, s, e).markers == s.markers
  {
  }
}
