# GeoSafe report list — a Dafny model

GeoSafe is an Android app where users pin crime reports on a map. Other users
approve the reports, and an admin can delete them. This project models the
logic inside the app's `MapScreen` composable that keeps the report list in
step with the remote report service. It also models the read-side functions
that decide what the map and the dialogs show.

- **The report list as a state machine.** The state is `markersData` (an
  ordered list of `MarkerData`), the error banner and the success banner. An
  event is an answer of the remote service: a poll, a create, an approve, or a
  click on delete. Each event is a pure function of the old state and the
  response (module `ReportList`). One run applies a sequence of events.
- **Read-side functions.** These are the category-tab filter, the heatmap
  density count with its three tiers (module `MapView`), the approve-button
  gate (module `InfoWindow`), and the dialogs: login-button gating, the new
  report draft and the "my reports" list (module `Dialogs`).
- **Model types.** These are the category enum (`CrimeTypes`), the report
  record with its defaults, the server's wire record and the field-for-field
  mapper (`Markers`), and the request and response shapes (`Api`). Kotlin's
  collection functions (`indexOfFirst`, `removeAt`, `filter`, `count`) are
  stated once in `Seqs`.

Remote calls are not executed. Each call is the `Response` it returns: a 2xx
answer whose body may be null, a non-2xx answer with its status code, or an
exception with its nullable message. The client only stores what the server
returns. The server decides who may approve a report and when it becomes
APPROVED, and none of the modelled code contains that rule, so the model has
no quorum rule.

Some behaviours of the code are easy to miss. The model keeps them as written:

- A create always appends, even if a record with that id is already present.
- An approve replaces the first record whose id equals the *returned*
  report's id. If there is no such record, it inserts nothing.
- A poll that throws sets the error banner to the exception's message. Kotlin
  allows that message to be null, and then the banner is *cleared*.
- An admin draft lists its author as its only approver. So the reporter of an
  admin-created report is also one of its approvers.
- The delete fallback removes the first record that is *structurally equal* to
  the dialog's copy. It does not remove by id. Once an approval has replaced
  that record, the fallback removes nothing (`StaleFallbackRemovesNothing`).
- A regular user's delete handler removes the record locally without asking
  the server. The dialog shows the delete button to admins only.
- A category string that names no constant is treated as OTHER (and gets
  OTHER's icon once it is not PENDING; every PENDING report gets the yellow
  warning icon). It still appears only on the "All" tab, not on the OTHER tab.
- A 2xx create or approve whose body `toMarkerData` rejects reports failure
  through the `catch`. For an approve this happens only when the body's id
  matches a listed record, and then the failure banner shows although the
  server accepted the approval.
- A 2xx poll clears the list before it maps the server's elements. If an
  element makes `toMarkerData` throw (a null element, or a null where the
  record needs a value), the list is left *empty* and the error banner is that
  exception's message.

## Model

| member | source | states |
|---|---|---|
| CrimeTypes.Ordinal | app/src/main/java/com/example/geosafe3/model/CrimeType.kt:5-10 | each constant sits at its declaration position in `values()` |
| CrimeTypes.ValuesEnumerateEachOnce | app/src/main/java/com/example/geosafe3/model/CrimeType.kt:5-10 | there are exactly four categories; each one appears in `values()`, and none appears twice |
| CrimeTypes.ValueOf | app/src/main/java/com/example/geosafe3/MainActivity.kt:746-750 | `valueOf` returns a constant only when the string is that constant's exact name; otherwise it fails |
| CrimeTypes.NameRoundTrip | app/src/main/java/com/example/geosafe3/MainActivity.kt:746-750 | `valueOf(c.name) == c`, and distinct constants have distinct names |
| CrimeTypes.Rendered | app/src/main/java/com/example/geosafe3/MainActivity.kt:746-750 | a known category name is drawn as that category; any other string is drawn as OTHER |
| CrimeTypes.Tabs | app/src/main/java/com/example/geosafe3/MainActivity.kt:580 | the tab list is "All" followed by each constant's spaced name, in declaration order |
| CrimeTypes.TabTitles | app/src/main/java/com/example/geosafe3/MainActivity.kt:580 | the five tabs are All, THEFT, HIT AND RUN, MURDER, OTHER |
| Markers.Defaults | app/src/main/java/com/example/geosafe3/model/MarkerData.kt:3-13 | omitted arguments give category "OTHER", status "PENDING" and no approvers |
| Markers.MapperCopiesFields | app/src/main/java/com/example/geosafe3/model/MarkerMapper.kt:3-15 | all nine fields are copied verbatim: no arithmetic on coordinates, no normalisation of category or status, same approver order and multiplicity |
| Markers.MapperRoundTrip | app/src/main/java/com/example/geosafe3/model/MarkerMapper.kt:3-15 | the mapper and its inverse undo each other, so no information is lost |
| Markers.MapperInjective | app/src/main/java/com/example/geosafe3/model/MarkerMapper.kt:3-15 | two server reports map to equal records exactly when they are field-wise equal |
| Markers.MapAll | app/src/main/java/com/example/geosafe3/MainActivity.kt:450 | mapping a server list maps it element by element, keeping length and order |
| Markers.MapAllInjective | app/src/main/java/com/example/geosafe3/MainActivity.kt:450 | two server lists map to equal lists exactly when they are equal |
| Markers.MapAllKeepsIds | app/src/main/java/com/example/geosafe3/MainActivity.kt:450 | mapping a server list keeps its sequence of ids |
| Api.RequestOf | app/src/main/java/com/example/geosafe3/MainActivity.kt:471-477 | the create request carries the draft's coordinates, title, description and category |
| Api.RequestDropsClientFields | app/src/main/java/com/example/geosafe3/MainActivity.kt:471-477 | the draft's id, reporter, status and approvers never reach the server |
| ReportList.Poll | app/src/main/java/com/example/geosafe3/MainActivity.kt:447-460 | a 2xx poll whose elements all convert makes the list the server's list mapped element by element (null means empty) and clears the error; if some element fails to convert, the list is left empty and the error is the first such element's exception message (none if null); a non-2xx answer or an exception from the call keeps the list; a non-2xx answer sets the error to its status; an exception sets the error to its message, or clears it when the message is null |
| ReportList.IncompletePollEmptiesList | app/src/main/java/com/example/geosafe3/MainActivity.kt:448-459 | a 2xx answer with one element that `toMarkerData` rejects empties the list, whatever it held and whatever the other elements are, and sets the error to that exception's message |
| ReportList.PollSnapshotWins | app/src/main/java/com/example/geosafe3/MainActivity.kt:447-452 | after a successful poll of a well-formed list, the list is the server's list mapped and does not depend on what it held before; its ids are the server's ids; equal lists come only from equal snapshots |
| ReportList.PostReport | app/src/main/java/com/example/geosafe3/MainActivity.kt:491-505 | a 2xx answer whose body converts appends exactly the server's report at the end; no body, a body `toMarkerData` rejects, a failure or an exception leaves the list unchanged; the result is true exactly for a 2xx answer whose body is null or converts |
| ReportList.Submit | app/src/main/java/com/example/geosafe3/MainActivity.kt:468-505 | submitting keeps the old list as a prefix and adds at most one record, which is the server's answer |
| ReportList.DraftNeverInserted | app/src/main/java/com/example/geosafe3/MainActivity.kt:491-497 | the locally built draft never enters the list unless the server returns that same record |
| ReportList.PostKeepsUniqueIdsIff | app/src/main/java/com/example/geosafe3/MainActivity.kt:494 | appending the created report keeps ids unique exactly when its id is new |
| ReportList.Approve | app/src/main/java/com/example/geosafe3/MainActivity.kt:524-543 | a 2xx answer whose body converts replaces only the record at the first index with the returned id; length, ids and all other records stay; no match, no body, a rejected body or a failure changes nothing; the result is false for a failure and for a rejected body whose id matches a record (the conversion throws), true otherwise |
| ReportList.ReplaceEveryById | app/src/main/java/com/example/geosafe3/MainActivity.kt:527-529 | reference definition: every record carrying the id is replaced |
| ReportList.ApproveReplacesById | app/src/main/java/com/example/geosafe3/MainActivity.kt:527-529 | when ids are unique, the approve update equals the reference replace-by-id |
| ReportList.ApproveKeepsUniqueIds | app/src/main/java/com/example/geosafe3/MainActivity.kt:527-529 | approval preserves id uniqueness |
| ReportList.Delete | app/src/main/java/com/example/geosafe3/MainActivity.kt:553-568 | a 2xx answer removes only the first record with that id, and the rest keep their order; an absent id or a failure changes nothing; the result is true exactly for 2xx |
| ReportList.DeleteIsFilterById | app/src/main/java/com/example/geosafe3/MainActivity.kt:555-557 | when ids are unique, a successful delete keeps exactly the records with another id |
| ReportList.IdsOfRemoveAt | app/src/main/java/com/example/geosafe3/MainActivity.kt:557 | removing one position removes that id and keeps the others in order |
| ReportList.RemoveFirstKeepsIds | app/src/main/java/com/example/geosafe3/MainActivity.kt:555-557 | removing the first match never adds an id and preserves id uniqueness |
| ReportList.OnDeleteClicked | app/src/main/java/com/example/geosafe3/MainActivity.kt:610-627 | an admin's confirmed delete removes by id; a failed admin delete, or any regular user's click, removes the first record equal to the dialog's copy, which is a no-op if that copy is gone; the banners are untouched |
| ReportList.FallbackAgreesWhileCurrent | app/src/main/java/com/example/geosafe3/MainActivity.kt:615-618 | while the dialog's copy is still in the list (with unique ids), the fallback and the confirmed delete remove the same record |
| ReportList.StaleFallbackRemovesNothing | app/src/main/java/com/example/geosafe3/MainActivity.kt:618 | after an approval has replaced the record with a different version, the fallback deletes nothing |
| ReportList.OnApproveAnswered | app/src/main/java/com/example/geosafe3/MainActivity.kt:766-779 | a successful approval sets the success banner; a failure, or a 2xx answer whose matching body `toMarkerData` rejects, sets the error "Failed to approve report"; the list changes as Approve says |
| ReportList.RejectedApproveShowsFailure | app/src/main/java/com/example/geosafe3/MainActivity.kt:527-542 | a 2xx approval whose body has a listed id but cannot be converted leaves the list as it was and shows only the failure banner |
| ReportList.StepWithoutArrival | app/src/main/java/com/example/geosafe3/MainActivity.kt:524-568 | an event that brings in no server report never adds an id and keeps unique ids unique |
| ReportList.RunWithoutArrivals | app/src/main/java/com/example/geosafe3/MainActivity.kt:524-627 | over any sequence of approvals, deletes and failed calls, the multiset of ids only shrinks and id uniqueness is kept |
| ReportList.FailuresKeepList | app/src/main/java/com/example/geosafe3/MainActivity.kt:447-543 | a poll that fails before any body arrives (a non-2xx answer, or an exception from the call), and a create or approve that delivers no convertible report, leave the list exactly as it was |
| MapView.TabCategory | app/src/main/java/com/example/geosafe3/MainActivity.kt:733 | tab 0 selects no category; tab i > 0 selects the name of constant i-1, which is also the category the tab's label shows |
| MapView.FilterByTab | app/src/main/java/com/example/geosafe3/MainActivity.kt:733-734 | tab 0 returns the whole list; tab i > 0 returns exactly the records whose category equals the name of constant i-1, and nothing outside the input |
| MapView.FilterByTabKeepsOrder | app/src/main/java/com/example/geosafe3/MainActivity.kt:734 | the tab filter distributes over concatenation, so it keeps the input order |
| MapView.FilterByTabMultiplicity | app/src/main/java/com/example/geosafe3/MainActivity.kt:733-734 | the tab filter keeps each record of the selected category exactly as often as the list holds it and drops every other record; tab 0 keeps every count |
| MapView.KnownCategoryTabs | app/src/main/java/com/example/geosafe3/MainActivity.kt:733-734 | a report with a known category is shown on "All" and on its own tab, and on no other |
| MapView.UnknownCategoryOnlyOnAllTab | app/src/main/java/com/example/geosafe3/MainActivity.kt:733-751 | a report whose category names no constant is treated as OTHER (the warning icon while PENDING, OTHER's icon after) but shown only on "All" |
| MapView.TierOf | app/src/main/java/com/example/geosafe3/MainActivity.kt:795-799 | a count of at most 1 is low, 2 to 5 is medium, more than 5 is high; the three cases are disjoint and cover every count |
| MapView.TierMonotone | app/src/main/java/com/example/geosafe3/MainActivity.kt:795-799 | a larger count never gives a lower tier |
| MapView.Density | app/src/main/java/com/example/geosafe3/MainActivity.kt:787-791 | the density never exceeds the list's length; if `near` is reflexive, a report of the list counts itself, so its density is at least 1 |
| MapView.TierFromNeighbours | app/src/main/java/com/example/geosafe3/MainActivity.kt:787-799 | with k other reports nearby, the density is k+1: 0 others gives low, 1 to 4 give medium, 5 or more give high |
| MapView.DensityGrows | app/src/main/java/com/example/geosafe3/MainActivity.kt:787-791 | adding reports never lowers a density |
| MapView.Heatmap | app/src/main/java/com/example/geosafe3/MainActivity.kt:785-804 | with the heatmap toggle off no circle is drawn; with it on, one circle is drawn per shown report, in the shown order; its tier depends only on that report and the full, unfiltered list, so the selected tab never changes a circle's colour |
| MapView.FullListTierAtLeastShown | app/src/main/java/com/example/geosafe3/MainActivity.kt:786-791 | counting over the full list never gives a lower tier than counting over the reports the tab shows |
| InfoWindow.CanApprove | app/src/main/java/com/example/geosafe3/MainActivity.kt:164-166 | approval is only ever offered on a PENDING report, never to its reporter and never to a user already among its approvers |
| InfoWindow.GateExcludes | app/src/main/java/com/example/geosafe3/MainActivity.kt:164-166 | approval is offered exactly when the report is PENDING, the user is not an approver and is not the reporter: a reporter is never offered their own report, a report in any other status is offered to nobody, an approver is not offered it again |
| InfoWindow.ApproveButton | app/src/main/java/com/example/geosafe3/MainActivity.kt:135-166 | the window shows nothing when no record has the id; otherwise it gates on the first record with that id |
| InfoWindow.NotOfferedAfterStoredApproval | app/src/main/java/com/example/geosafe3/MainActivity.kt:164-166 | once an approval has stored a server answer that lists the user as an approver, or is no longer pending, the button is gone for that report |
| Dialogs.NotBlankHasVisibleChar | app/src/main/java/com/example/geosafe3/MainActivity.kt:1118 | a non-blank text is non-empty and has a non-whitespace character |
| Dialogs.UserLoginEnabled | app/src/main/java/com/example/geosafe3/MainActivity.kt:380 | "Login as User" is enabled exactly when the name has a non-whitespace character |
| Dialogs.AdminLoginEnabled | app/src/main/java/com/example/geosafe3/MainActivity.kt:400 | "Login as Admin" is enabled exactly for admin/admin, and then "Login as User" is enabled too |
| Dialogs.SubmitEnabled | app/src/main/java/com/example/geosafe3/MainActivity.kt:1118 | "Submit Report" is enabled exactly when title and description are both non-blank, so both are non-empty |
| Dialogs.NewDraft | app/src/main/java/com/example/geosafe3/MainActivity.kt:1097-1107 | the draft has the given id, the map centre as position, the typed title and description, the current user as reporter and a category string that parses back to the chosen one; an admin's draft is APPROVED with the admin as sole approver, anyone else's is PENDING with no approvers |
| Dialogs.DefaultDraftMatchesRecordDefaults | app/src/main/java/com/example/geosafe3/MainActivity.kt:966 | a regular user's draft left on the dialog's default category equals the record built with `MarkerData`'s own defaults: category OTHER, PENDING, no approvers |
| Dialogs.DraftByRole | app/src/main/java/com/example/geosafe3/MainActivity.kt:1097-1107 | the draft is reported by the current user; an admin's draft is APPROVED with the admin as sole approver, anyone else's is PENDING with no approvers; its author is never offered approval; its category string parses back to the chosen category |
| Dialogs.UserReports | app/src/main/java/com/example/geosafe3/MainActivity.kt:1144 | an admin sees the whole list; a regular user sees exactly the records they reported |
| Dialogs.UserReportsMultiplicity | app/src/main/java/com/example/geosafe3/MainActivity.kt:1144 | a regular user's list holds each of their own reports exactly as often as the full list does, and nobody else's |
| Dialogs.OwnReportsOnly | app/src/main/java/com/example/geosafe3/MainActivity.kt:1144 | every entry of a regular user's list was reported by that user, and the list keeps the original order |

## Left out

- Compose UI, map overlays, icons, colours and info-window wiring are left out as presentation. The model keeps only the predicates and filters they apply.
- The great-circle distance (`distanceToAsDouble` against 2000 m) is osmdroid floating point. It is the parameter `near`. Lemmas that need `near` to be reflexive assume it.
- Coordinates are kept as 64-bit patterns and only copied and compared. Kotlin's `Double` equality treats every NaN pattern as equal, and the model does not.
- Retrofit, Gson and the JSON header are left out. Each call is represented by the response it returns, and `User` stands for the X-User-Info header. Every report body (each element of the poll's list, and the body of a create or approve answer) is either a complete report or one `toMarkerData` rejects; which JSON shapes Gson turns into which is not modelled.
- The server's approval decision (who flips PENDING to APPROVED, any quorum, admin override) does not appear in the modelled code, so it is not modelled.
- Approve: the requested report id is not an input. The client keys the update on the id of the report the server returns.
- Persistence is I/O and is left out. This covers `saveMarkersData` after each change, and the startup load from the key-value store.
- Coroutine scheduling and timing are left out. This covers the 5-second poll delay, the 3-second success-banner clear, the dispatchers, and races such as the startup load interleaving with a poll.
- The text of the error banner is left out. It is the datatype `Banner`: the status code, or a text. The string formatting of "Error: code" is not modelled.
- The random UUID and the map centre of a new draft are parameters.
- Blank text follows Java whitespace and the Unicode space separators as of current Unicode. Future Unicode additions are not tracked.
