# Quality-check rules, modelled in Dafny

The quality-check system records garment inspections. There are two kinds:

- sample evaluations, with measurement rows, pictures and an internal and a customer decision;
- final inspections, with a defect tally judged against AQL limits, size checks and a measurement chart.

The system has a React front end and a Django REST back end. This project models the pure rules inside both, as immutable datatypes and total functions, and proves what those rules promise.

| module (file) | what it models |
|---|---|
| `DefectTally` (defect_tally.dfy) | Covers the final-inspection defect tally: per-defect Critical/Major/Minor counters kept in the browser object's key order, the clamped +/- buttons, custom defects, severity totals, the Pass/Fail verdict and the flattened defect list that is submitted. |
| `MeasurementRows` (measurement_rows.dfy) | Covers measurement rows built from a selected template in both forms, the two out-of-tolerance highlights, and the empty-sample-to-null normalisation of the sample-evaluation payload. |
| `ImageSlots` (image_slots.dfy) | Covers the four fixed picture slots of the sample-evaluation form: automatic captions, caption edits, the reset, and the uploads issued after a create. |
| `Dashboard` (dashboard.dfy) | Covers the dashboard's decision buckets, the internal/customer comparison, the merged monthly pass/fail trend of final inspections, and the list-to-chart mappings. |
| `FilterState` (filter_state.dfy) | Covers the multi-select toggle, the active-filter badge count, single-key filter updates, and which clear buttons are shown. |
| `Navigation` (navigation.dfy) | Covers role-based link filtering in the desktop and mobile sidebars, and the active-link test. |
| `NestedWrites` (nested_writes.dfy) | Covers the back end's nested create and update of templates, sample evaluations and final inspections. This includes order numbering, replacing child lists only when they are supplied, and the feedback-date stamp. |
| `ReportViews` (report_views.dfy) | Covers the pure parts of the report, email, upload and dashboard views: the decision header, the truncated POM names, the sample placeholders, the 2×2 image page, the recipient fallback, the upload guard and the pass rate. |
| `InspectionSearch` (inspection_search.dfy) | Covers the inspection-list filter: date range, decision and stage choices, customer, and the case-insensitive text search on the stripped search text. |
| `Text`, `Sequences`, `Wrappers` | Shared helpers: whitespace stripping, ASCII case folding, substring search, the code-unit string order used by a default array sort, order-preserving filtering, order-preserving de-duplication, sorting, and `Option`/`Result`. |

Some inputs come from code outside this model, so they enter as parameters:

- The browser's `parseFloat` is a parameter `parse: string -> Option<real>`, where `None` stands for NaN.
- The AQL limits are a `Limits` value.
- The common-defect list is a `seq<string>`.
- Times are explicit arguments: the feedback stamp takes `now`, and a record's creation time is an `Instant` (a day number and the seconds since that day's midnight).

## Model

| member | source | states |
|---|---|---|
| DefectTally.Initial | frontend/src/components/FinalInspectionForm.tsx:87-93 | The tally starts with exactly the common defects as keys. Each key appears once, the keys are in the object's enumeration order, and all three counters are 0. |
| DefectTally.IndexValueInjective | frontend/src/components/FinalInspectionForm.tsx:254 | Two different array-index names never denote the same number, so the numeric order among such keys is strict. |
| DefectTally.Put | frontend/src/components/FinalInspectionForm.tsx:90 | Assigning an existing key changes nothing. A new key is placed where the object enumerates it, and the keys stay distinct and in enumeration order. |
| DefectTally.Clamp | frontend/src/components/FinalInspectionForm.tsx:225 | `Math.max(0, x)` is never negative and never below `x`. It is `x` when `x` ≥ 0 and 0 otherwise. |
| DefectTally.UpdateCount | frontend/src/components/FinalInspectionForm.tsx:221-229 | The chosen counter becomes max(0, old + delta). The defect's other severities, every other defect and the key order are unchanged. |
| DefectTally.AddCustomDefect | frontend/src/components/FinalInspectionForm.tsx:231-236 | The tally changes iff the typed name is non-empty, not yet a key and not a name every object inherits (such as "constructor"); the name is not trimmed. The new key then gets zero counters in its enumeration place, and the input box is cleared. Otherwise the input stays. The set of names grows by exactly the new one. |
| DefectTally.AddPlacesKey | frontend/src/components/FinalInspectionForm.tsx:233 | A new name that is not an array index goes last. An array-index name such as "5" goes after exactly the array-index keys of smaller value and ahead of every other key. |
| DefectTally.InheritedNameRefused | frontend/src/components/FinalInspectionForm.tsx:232 | "constructor" and "__proto__" are never added, because looking them up on the tally finds something. |
| DefectTally.NumericNameListedFirst | frontend/src/components/FinalInspectionForm.tsx:233 | A custom defect "5" added after "Stain" is listed before it. |
| DefectTally.TotalDefects | frontend/src/components/FinalInspectionForm.tsx:187-195 | Each severity total is the sum of that severity's counters over all defects. |
| DefectTally.ResultStatus | frontend/src/components/FinalInspectionForm.tsx:204-209 | The verdict is Fail iff some severity total strictly exceeds its limit. It is Pass iff every total is at most its limit, so a total equal to its limit passes. |
| DefectTally.UpdateMovesOneTotal | frontend/src/components/FinalInspectionForm.tsx:187-195 | A counter update leaves the other two severity totals unchanged. Its own total moves by exactly the clamped change of that counter. |
| DefectTally.AddKeepsTotals | frontend/src/components/FinalInspectionForm.tsx:231-236 | Adding a custom defect changes none of the three totals. |
| DefectTally.IncrementNeverPasses | frontend/src/components/FinalInspectionForm.tsx:204-229 | Raising any counter never turns a Fail into a Pass. |
| DefectTally.Flatten | frontend/src/components/FinalInspectionForm.tsx:254-259 | Every submitted line has a positive count and names a defect of the tally. |
| DefectTally.FlattenMembers | frontend/src/components/FinalInspectionForm.tsx:254-259 | A line (defect, severity, n) is submitted iff that defect's counter for that severity equals n and n > 0. |
| DefectTally.FlattenKeepsTotals | frontend/src/components/FinalInspectionForm.tsx:254-259 | For each severity, the submitted counts add up to that severity's total. |
| DefectTally.FlattenOrdered | frontend/src/components/FinalInspectionForm.tsx:254-259 | Lines follow the order in which `Object.entries` lists the keys (array-index names first, in numeric order), and within one defect they run Critical, Major, Minor. |
| DefectTally.FlattenNoRepeats | frontend/src/components/FinalInspectionForm.tsx:254-259 | No (defect, severity) pair is submitted twice. |
| MeasurementRows.FindTemplate | frontend/src/components/FinalInspectionForm.tsx:172 | Like `find`, it returns the first template with the selected id, or nothing when no template has it. |
| MeasurementRows.ChartRowsOf | frontend/src/components/FinalInspectionForm.tsx:173-178 | There is one chart row per POM of the template, in POM order. Each row copies the name, default_std (as spec) and default_tol, with five empty samples. |
| MeasurementRows.SelectChartTemplate | frontend/src/components/FinalInspectionForm.tsx:170-183 | The chart is replaced only when a template is selected, the list is loaded and the id is found. Otherwise it is left as it was. |
| MeasurementRows.IsOutOfTolerance | frontend/src/components/FinalInspectionForm.tsx:212-217 | An empty or unparseable value is never flagged. Otherwise the value is flagged iff \|v − spec\| > tol, with a null spec read as 0. |
| MeasurementRows.NullSpecFlagged | frontend/src/components/FinalInspectionForm.tsx:212-217 | As written, a sample of 30 in a row with no spec and tolerance 0.5 is flagged red. |
| MeasurementRows.IsOutOfToleranceGuarded | frontend/src/components/FinalInspectionForm.tsx:212-217 | A row with no spec is never flagged. With a spec, the result equals the written highlight. |
| MeasurementRows.BoundaryNotFlagged | frontend/src/components/FinalInspectionForm.tsx:212-217 | A deviation exactly equal to the tolerance is not flagged. |
| MeasurementRows.FreshChartUnflagged | frontend/src/components/FinalInspectionForm.tsx:170-183 | A chart just loaded from a template shows no highlighted cell. |
| MeasurementRows.EvalRowsOf | frontend/src/pages/Inspections.tsx:157-162 | There is one row per POM, in order. Each row copies the name, tol and std, has three empty samples and has status "OK". |
| MeasurementRows.FormsReadTemplateAlike | frontend/src/pages/Inspections.tsx:157-162 | The evaluation rows and the final-inspection chart rows of one template name the same POMs in the same order, with the same tolerance and standard. |
| MeasurementRows.FreshEvalUnflagged | frontend/src/pages/Inspections.tsx:152-166 | Selecting a known template leaves every evaluation row at status "OK" with no sample highlighted. |
| MeasurementRows.SelectEvalTemplate | frontend/src/pages/Inspections.tsx:153-165 | The rows are replaced only for a selected, loaded and found template. Otherwise they stay as they were. |
| MeasurementRows.CheckTol | frontend/src/pages/Inspections.tsx:293-296 | An empty sample is never flagged, and neither is any sample in a row whose std is null or 0. Otherwise a sample is flagged iff it parses and lies more than tol from std. |
| MeasurementRows.HighlightsAgree | frontend/src/pages/Inspections.tsx:293-296 | Where std is a non-zero number, the two forms' highlights agree. |
| MeasurementRows.Normalize | frontend/src/pages/Inspections.tsx:92-100 | The payload keeps the row count and every non-sample field. A sample becomes null exactly when it is empty, and a non-empty sample passes through unchanged. |
| MeasurementRows.NormalizeRoundTrip | frontend/src/pages/Inspections.tsx:92-100 | Normalisation loses nothing: reading null back as empty text gives back the form rows. |
| ImageSlots.InitialSlots | frontend/src/pages/Inspections.tsx:46-51 | The form opens, and resets after a create whose uploads all succeed, with four slots. Each has no file and an empty caption. |
| ImageSlots.ChangeImage | frontend/src/pages/Inspections.tsx:187-196 | Only slot i changes, and its file becomes f. Its caption becomes "Front View" (i = 0) or "Back View" (i = 1) only when f is present and the caption was empty. In every other case the caption is kept. |
| ImageSlots.ChangeCaption | frontend/src/pages/Inspections.tsx:198-202 | Only slot i changes: its caption becomes the typed text and its file is kept. |
| ImageSlots.ApplyEdits | frontend/src/pages/Inspections.tsx:187-202 | No sequence of file and caption edits changes the number of slots. |
| ImageSlots.AlwaysFourSlots | frontend/src/pages/Inspections.tsx:46-51 | Starting from the initial slots, there are four slots after any edits. |
| ImageSlots.FilledIndices | frontend/src/pages/Inspections.tsx:106-107 | It lists exactly the slots holding a file, in ascending slot order. |
| ImageSlots.Uploads | frontend/src/pages/Inspections.tsx:106-116 | There is one upload per filled slot, in slot order, carrying that slot's file. An empty caption is replaced by "Inspection Image". |
| ImageSlots.UploadCaptionsNonEmpty | frontend/src/pages/Inspections.tsx:110 | Every caption the form sends is non-empty. |
| ImageSlots.NoFilesNoUploads | frontend/src/pages/Inspections.tsx:106-107 | Slots without files issue no upload. |
| ImageSlots.ResetUploadsNothing | frontend/src/pages/Inspections.tsx:123-126 | The reset form would upload nothing. |
| Dashboard.BucketsPartition | frontend/src/pages/Dashboard.tsx:57-65 | Accepted + Rejected + Other equals the sum of all counts. |
| Dashboard.ProcessDecisions | frontend/src/pages/Dashboard.tsx:57-65 | A missing list gives three zeros. Otherwise only an exact "Accepted" or "Rejected" reaches those buckets, every other value (a missing one included) goes to Other, and the buckets add up to the total. |
| Dashboard.ComparisonColumnsSum | frontend/src/pages/Dashboard.tsx:67-74 | The comparison rows are Accepted, Rejected and Other, in that order, each pairing the internal and customer bucket. Each column adds up to its breakdown's total. |
| Dashboard.SeriesMap | frontend/src/pages/Dashboard.tsx:78-88 | The map's keys are the series' month keys. A key's value is the count of its last entry. |
| Dashboard.SeriesMapSnoc | frontend/src/pages/Dashboard.tsx:81-88 | One more entry sets its key to its count and leaves the other keys alone, as `Map.set` does. |
| Dashboard.BuildSeriesMap | frontend/src/pages/Dashboard.tsx:81-88 | The entry-by-entry loop builds that map: every key is present, and later entries override earlier ones. |
| Dashboard.MergeSeries | frontend/src/pages/Dashboard.tsx:90-95 | The rows are strictly ascending, and their keys are the duplicate-free union of both series' keys. Each row carries each series' count, or 0 when that series lacks the month. |
| Dashboard.Trend | frontend/src/pages/Dashboard.tsx:90-95 | The merge is keyed by the month label and sorted in string order, with missing series treated as empty. |
| Dashboard.TrendOfTwo | frontend/src/pages/Dashboard.tsx:91 | Two months are drawn in the string order of their labels, whatever their calendar order. |
| Dashboard.TrendNotChronological | frontend/src/pages/Dashboard.tsx:90-95 | As written, January 2025 (3 passes) and February 2025 (1 pass) are drawn February first. |
| Dashboard.ChronologicalTrend | frontend/src/pages/Dashboard.tsx:90-95 | Rows are in calendar order and cover the union of months. Each row is labelled as the chart labels it and carries each series' count, or 0. |
| Wrappers.OrElse | frontend/src/pages/Dashboard.tsx:98-108 | A missing or empty value gives way to the fallback ("Unknown" for a chart label), any other value is kept, and a non-empty fallback makes the result non-empty. |
| Dashboard.PassFailData | frontend/src/pages/Dashboard.tsx:22-25 | The pie has two slices, Pass and Fail, in that order. Each carries its server count, with a missing count read as 0. |
| Dashboard.StageData | frontend/src/pages/Dashboard.tsx:28-31 | It keeps the length and order of the stage list, with a missing list read as empty. |
| Dashboard.CustomerData | frontend/src/pages/Dashboard.tsx:34-37 | It keeps length and order. A missing customer name becomes "Unknown". |
| Dashboard.MonthlyTrendData | frontend/src/pages/Dashboard.tsx:40-43 | It keeps length and order, with one point per month label. |
| Dashboard.FiCustomerData | frontend/src/pages/Dashboard.tsx:98-102 | It keeps length and order. A missing name becomes "Unknown" and missing pass or fail counts become 0. |
| Dashboard.FiDefectsData | frontend/src/pages/Dashboard.tsx:105-108 | It keeps length and order. A missing description becomes "Unknown" and a missing total becomes 0. |
| Dashboard.PassFailTotal | frontend/src/pages/Dashboard.tsx:22-25 | The pie's slices add up to the reported passes plus fails, a missing count adding nothing. |
| Dashboard.StageChartTotal | frontend/src/pages/Dashboard.tsx:28-31 | The stage bars add up to the server's stage counts. |
| Dashboard.MonthlyChartTotal | frontend/src/pages/Dashboard.tsx:40-43 | The monthly points add up to the server's monthly counts. |
| Dashboard.CustomerChartTotal | frontend/src/pages/Dashboard.tsx:34-37 | The customer bars add up to the server's counts, whatever names the groups are shown under. |
| Dashboard.FiCustomerChartTotals | frontend/src/pages/Dashboard.tsx:98-102 | The final-inspection customer chart keeps both the pass total and the fail total, missing counts adding nothing. |
| Dashboard.DefectChartTotal | frontend/src/pages/Dashboard.tsx:105-108 | The defect bars add up to the server's totals, a missing total adding nothing. |
| FilterState.RemoveAll | frontend/src/components/MultiSelectFilter.tsx:20 | It drops every occurrence of the value and keeps every other value. |
| FilterState.Toggle | frontend/src/components/MultiSelectFilter.tsx:18-24 | A selected value is removed everywhere, and the rest keep their relative order. An unselected value is appended at the end. No other value's membership changes. |
| FilterState.ToggleFlips | frontend/src/components/MultiSelectFilter.tsx:18-24 | A toggle flips exactly the clicked value's membership. |
| FilterState.ToggleNoDuplicates | frontend/src/components/MultiSelectFilter.tsx:18-24 | A duplicate-free selection stays duplicate-free. |
| FilterState.ToggleTwice | frontend/src/components/MultiSelectFilter.tsx:18-24 | Toggling an unselected value twice restores the selection. |
| FilterState.ClearUnchecksAll | frontend/src/components/MultiSelectFilter.tsx:26-52 | After "Clear" no box is ticked and the Clear link is hidden. The link shows iff some box is ticked. |
| FilterState.ToggleFlipsCheckbox | frontend/src/components/MultiSelectFilter.tsx:52 | After a click, the option's checkbox shows the opposite state. |
| FilterState.ActiveCount | frontend/src/components/InspectionFilters.tsx:63-70 | The count is at most 6. It is 0 iff both dates, customer and search are empty and both lists are empty. |
| FilterState.OrderingNotCounted | frontend/src/components/InspectionFilters.tsx:63-70 | The sort order never contributes to the count. |
| FilterState.KeyCountsOnce | frontend/src/components/InspectionFilters.tsx:63-70 | Each of the six filter keys adds one to the count when set (a non-empty string or list) and nothing when unset, whatever the other keys hold. The ordering key adds nothing. So the count is the number of set filter fields. |
| FilterState.SearchCountsOnce | frontend/src/components/InspectionFilters.tsx:63-70 | A non-empty search adds exactly one. |
| FilterState.UpdateFilter | frontend/src/components/InspectionFilters.tsx:59-61 | Key k takes the new value and every other key keeps its old one. |
| FilterState.UpdateSameValue | frontend/src/components/InspectionFilters.tsx:59-61 | Writing back a key's current value changes nothing. |
| FilterState.UpdateOverwrites | frontend/src/components/InspectionFilters.tsx:59-61 | Of two updates to one key, only the second survives. |
| FilterState.BadgeVisibility | frontend/src/components/InspectionFilters.tsx:81 | The "n active" badge shows iff some filter field is set. |
| FilterState.ClearAllVisibility | frontend/src/components/InspectionFilters.tsx:182 | "Clear All Filters" shows iff the panel is expanded and some filter field is set. |
| FilterState.ClearDatesAsWritten | frontend/src/components/InspectionFilters.tsx:114-117 | Both updates of the date picker's Clear start from the same rendered filters, so the last object delivered clears only the end date and keeps the start date. |
| FilterState.ClearDatesKeepsStart | frontend/src/components/InspectionFilters.tsx:114-117 | A set start date survives the written Clear, and the badge stays visible. |
| FilterState.JanuaryRangeNotCleared | frontend/src/components/InspectionFilters.tsx:114-117 | A range from 2025-01-01 to 2025-01-31 keeps its start date after the written Clear. |
| FilterState.ClearDates | frontend/src/components/InspectionFilters.tsx:114-117 | The intended Clear empties both dates and leaves every other key as it was. |
| FilterState.ClearDatesUncounts | frontend/src/components/InspectionFilters.tsx:114-117 | After the intended Clear the dates no longer count, the other fields count as before, and clearing again changes nothing. |
| Navigation.IsSuperUser | frontend/src/components/Sidebar.tsx:8 | Superuser rights hold iff the stored flag is exactly the string "true". |
| Navigation.AdminLinksNeedTrueFlag | frontend/src/components/Sidebar.tsx:8-17 | An admin-only link is shown only when the stored flag is exactly "true". "True", "1" or a missing flag get the regular user's links. |
| Navigation.VisibleLinks | frontend/src/components/Sidebar.tsx:17 | A link is shown iff the user is a superuser or the link is not admin-only. |
| Navigation.SuperUserSeesAll | frontend/src/components/Sidebar.tsx:10-17 | A superuser sees the whole list, unchanged. |
| Navigation.VisibleKeepsOrder | frontend/src/components/Sidebar.tsx:17 | Filtering keeps the links' order. |
| Navigation.RegularUserSidebar | frontend/src/components/Sidebar.tsx:10-17 | Without superuser rights the desktop sidebar offers exactly /inspections and /templates. |
| Navigation.RegularUserMobileSidebar | frontend/src/components/MobileSidebar.tsx:15-22 | The mobile sidebar offers a regular user exactly /inspections and /templates. |
| Navigation.SameTargets | frontend/src/components/MobileSidebar.tsx:15-22 | Two link tables with equal targets and admin flags show every user the same targets. |
| Navigation.SidebarsAgree | frontend/src/components/MobileSidebar.tsx:15-22 | Desktop and mobile lead every user to the same pages, in the same order. |
| Navigation.ActiveOnSubpages | frontend/src/components/Sidebar.tsx:34 | The highlight is a prefix test, so any path that extends a link's target keeps that link lit. This includes "/inspections-archive". |
| NestedWrites.Overwrite | qc/serializers.py:126-128 | Every supplied attribute is written and every other attribute keeps its stored value. |
| NestedWrites.MakePom | qc/serializers.py:55-61 | A missing name becomes '', a missing tolerance 0.0 and a missing standard null. The order is the position. |
| NestedWrites.Numbered | qc/serializers.py:43-44 | The supplied POMs are stored in input order and count, the i-th from the i-th input. |
| NestedWrites.NumberedOrders | qc/serializers.py:43-44 | The i-th POM gets order i, so orders strictly increase. |
| NestedWrites.CreateTemplateAsWritten | qc/serializers.py:40-45 | As written, creation fails iff some POM supplies its own order. Otherwise it stores the attributes and the numbered POMs. |
| NestedWrites.EchoedOrderRefused | qc/serializers.py:40-45 | A POM that echoes order 0 back is refused. |
| NestedWrites.CreateTemplate | qc/serializers.py:40-45 | Creation stores the attributes and one POM per input, in order, with order = position. |
| NestedWrites.CreateTemplateAgrees | qc/serializers.py:40-45 | Wherever the written creation succeeds, it stores what the corrected one stores. |
| NestedWrites.UpdateTemplate | qc/serializers.py:47-61 | Attributes are overwritten. Absent POMs are untouched; supplied POMs replace the old ones wholesale, renumbered from 0. |
| NestedWrites.UpdateAfterCreate | qc/serializers.py:40-61 | Updating a new template with a POM list stores what creating it with that list stores. |
| NestedWrites.UpdateTemplateIdempotent | qc/serializers.py:47-61 | Repeating a template update changes nothing more. |
| NestedWrites.CreateInspection | qc/serializers.py:112-117 | The inspection stores the supplied attributes and measurements, with a missing list read as empty. |
| NestedWrites.UpdateInspection | qc/serializers.py:119-133 | Supplied attributes are written, and the feedback date is stamped iff a customer decision or comment is supplied. An explicit date wins over the stamp. Nothing else changes, and measurements are replaced only when supplied. |
| NestedWrites.FeedbackDateChanges | qc/serializers.py:122-124 | The feedback date moves to "now" iff feedback is supplied. |
| NestedWrites.EmptyInspectionUpdate | qc/serializers.py:119-133 | An update that supplies nothing leaves the inspection as it was. |
| NestedWrites.UpdateInspectionIdempotent | qc/serializers.py:119-133 | Repeating an update at the same time changes nothing more. |
| NestedWrites.CreateFinalInspection | qc/serializers.py:215-245 | Defects, size checks and measurements are stored as supplied, with each missing list empty. |
| NestedWrites.UpdateFinalInspection | qc/serializers.py:247-285 | Attributes are overwritten. Each of the three child lists is replaced independently, and only when supplied. |
| NestedWrites.UpdateAfterCreateFinal | qc/serializers.py:215-285 | Updating with all three lists gives what creating with them gives. |
| NestedWrites.EmptyFinalUpdate | qc/serializers.py:247-285 | An update that supplies nothing leaves the final inspection unchanged. |
| ReportViews.PendingDecision | qc/views.py:36 | The decision text is never empty. It reads "PENDING" exactly when no decision is recorded, the recorded one is empty, or it is literally "PENDING". |
| ReportViews.DecisionColour | qc/views.py:36-42 | The decision prints red iff "Rejected" and green iff "Approved", and black otherwise. |
| ReportViews.PendingIsBlack | qc/views.py:36-42 | A pending report's decision is black. |
| ReportViews.HeadlinePending | qc/views.py:36-44 | A report without a decision, or with an empty one, is headed "DECISION: PENDING". |
| ReportViews.HeadlineIgnoresCase | qc/views.py:44 | The stored letter case of a decision does not show in the headline: lower- or upper-casing it first gives the same headline. |
| ReportViews.PomDisplay | qc/views.py:81 | A name of at most 35 characters is shown unchanged. A longer one becomes its first 35 characters plus "..". |
| ReportViews.PomDisplayBounds | qc/views.py:81 | The shown name is at most 37 characters and starts like the name. It equals the name iff the name fits, or is already 37 characters ending in "..". |
| ReportViews.SampleCell | qc/views.py:85-87 | A missing sample prints "-", and so does 0.0. Any other value prints itself. |
| ReportViews.SampleCellsAlike | qc/views.py:85-87 | Two samples print alike iff they are equal or each is missing or 0.0: the report cannot tell a measured 0.0 from a missing sample, and loses nothing else. |
| ReportViews.DrawImage | qc/views.py:117-155 | An image is drawn at its cell with its caption (or "Image") 15 points below. An image that fails to load gets an error note at the cell instead. |
| ReportViews.ImagesPage | qc/views.py:110-118 | At most four images are drawn, the i-th in the i-th cell. |
| ReportViews.ExtraImagesIgnored | qc/views.py:117-118 | Images beyond the fourth never reach the page. |
| ReportViews.CellsDistinct | qc/views.py:110-120 | No two drawn images share a cell. |
| ReportViews.Recipients | qc/views.py:200-205 | The email goes to the requested list when it is non-empty, else to the customer's addresses. It is a 400 error iff both are empty or missing. |
| ReportViews.RecipientsFromSupplied | qc/views.py:200-205 | The recipients are always one of the two supplied lists, whole. The customer's addresses do not matter when recipients are requested. |
| ReportViews.UploadImage | qc/views.py:182-195 | An upload without a file is a 400 error. An absent caption defaults to "Inspection Image", while a supplied one, even empty, is kept. A caption longer than the 100-character column (qc/models.py:120) fails with a server error, and a stored caption always fits. |
| ReportViews.UploadAll | frontend/src/pages/Inspections.tsx:105-117 | The loop sends the requests in order and stops at the first refused one. The images stored are exactly the requests before the first caption wider than the column, each with its file and caption. The run completes iff no caption is too wide. |
| ReportViews.SlotsAfterCreate | frontend/src/pages/Inspections.tsx:118-134 | The slots are reset to four empty ones when every upload went through. A failed upload leaves them as they were. |
| ReportViews.FormUploadsAccepted | frontend/src/pages/Inspections.tsx:105-126 | Every caption the form sends is non-empty. The stored images carry the captions of the requests up to the first over-wide one. The form resets iff no caption is too wide, or it already held four empty slots. |
| ReportViews.FirstTwoFilled | frontend/src/pages/Inspections.tsx:106-116 | With the first two slots filled and captioned and the other two empty, the loop's requests are those two, in slot order. |
| ReportViews.LongFirstCaptionStopsUploads | frontend/src/pages/Inspections.tsx:105-117 | With a 101-character caption in the first slot and "Back View" in the second, nothing is stored, the second image is never sent, and the slots are kept. |
| ReportViews.LongCaptionUploadFails | frontend/src/pages/Inspections.tsx:348-353 | The caption box has no length limit: one filled slot with a 101-character caption yields one upload, and that upload fails. |
| ReportViews.CountDecision | qc/views.py:227-228 | A decision count never exceeds the number of inspections, and it is 0 iff no inspection has that decision. |
| ReportViews.CountDecisionAll | qc/views.py:227-228 | The count equals the number of inspections iff every inspection has that decision. |
| ReportViews.PassPlusFailBounded | qc/views.py:226-228 | Passes plus fails never exceed the number of inspections. |
| ReportViews.PassRate | qc/views.py:226-229 | The rate is 0 with no inspections and lies between 0 and 100. It is 100 iff there are inspections and every one is "Approved", and 0 iff none is. |
| InspectionSearch.StyleHitFound | qc/filters.py:36-41 | A search text found in the style, in any letter case, keeps the record. |
| InspectionSearch.SearchMissDrops | qc/filters.py:30-41 | A search whose stripped text is non-empty and occurs, ignoring case, in none of the four searched fields drops the record; a missing customer or creator name counts as no occurrence. |
| InspectionSearch.BlankSearchKeeps | qc/filters.py:30-35 | A search of only whitespace strips to nothing and keeps every record. |
| InspectionSearch.PaddedSearchAlike | qc/filters.py:30-41 | Whitespace around the search text does not change which records it keeps. |
| InspectionSearch.RangeReadings | qc/filters.py:13-14 | The written bounds (compared at midnight) keep a subset of the day-inclusive range. They differ only for records created after midnight on the "to" day. |
| InspectionSearch.LastDayDropped | qc/filters.py:13-14 | A record created at 10:00 on the "to" day is outside the written range. |
| InspectionSearch.Validate | qc/filters.py:17-24 | A query is refused iff a selected decision or stage is not one of that field's choices, and the error names such a value. |
| InspectionSearch.FilterAsWritten | qc/filters.py:7-41 | As written, a record is kept iff all of these hold: it lies in the midnight-bounded range, its decision and stage are among any selected, its customer matches and the stripped search matches. |
| InspectionSearch.FilterInspections | qc/filters.py:7-41 | A record is kept iff all of these hold: it was created between the two dates inclusive, its decision and stage are among any selected (a missing decision never is), its customer matches and the search, stripped of surrounding whitespace, matches. An invalid choice is an error. |
| InspectionSearch.FilterIsSubsequence | qc/filters.py:32-41 | The result is a subset of the input, in input order. |
| InspectionSearch.NoQueryKeepsAll | qc/filters.py:34-35 | No parameters, including an empty search, return every inspection. |
| InspectionSearch.FilterIdempotent | qc/filters.py:7-45 | Filtering a filtered list again with the same query changes nothing. |
| InspectionSearch.AsWrittenKeepsLess | qc/filters.py:13-14 | Whatever the written filter keeps, the corrected one keeps. |
| InspectionSearch.LastDayRecordListedOnlyWhenCorrected | qc/filters.py:13-14 | A record created at 10:00 on the "to" day is listed by the corrected filter and missing from the written one. |
| InspectionSearch.LastDayWrittenDrops | qc/filters.py:13-14 | The written filter, with only a "to" date, returns nothing for a record created at 10:00 on that day. |
| InspectionSearch.LastDayCorrectedKeeps | qc/filters.py:13-14 | The corrected filter, with only a "to" date, lists a record created at 10:00 on that day. |
| InspectionSearch.BlankSearchKeepsAll | qc/filters.py:30-35 | A query whose only parameter is a whitespace-only search returns every inspection, in order. |
| InspectionSearch.TrailingSpaceStripped | qc/filters.py:30 | The search "shirt " reaches the filter as "shirt". |
| InspectionSearch.TrailingSpaceKeeps | qc/filters.py:30-41 | A query whose only parameter is the search "shirt " lists a record of style "Shirt". |
| InspectionSearch.TrailingSpaceSearchFinds | qc/filters.py:30-41 | A record with style "Shirt" is listed for the search "shirt " as typed in the search box (frontend/src/components/InspectionFilters.tsx:102). |
| Text.ContainsIffOccurs | qc/filters.py:36-41 | Substring containment holds iff the text occurs at some position. |
| Text.TrimStart | qc/filters.py:30 | The result does not start with whitespace, and the part of the input in front of it is all whitespace. |
| Text.TrimStartIsSuffix | qc/filters.py:30 | What `TrimStart` keeps is a tail of the input. |
| Text.TrimEnd | qc/filters.py:30 | The result does not end with whitespace, and the part of the input after it is all whitespace. |
| Text.TrimEndIsPrefix | qc/filters.py:30 | What `TrimEnd` keeps is a prefix of the input. |
| Text.Trim | qc/filters.py:30 | The result is no longer than the input and neither starts nor ends with whitespace. |
| Text.TrimShape | qc/filters.py:30 | What `Trim` keeps sits in the input between a whitespace-only head and a whitespace-only tail. |
| Text.TrimUnique | qc/filters.py:30 | Any text without whitespace at its ends, padded by whitespace on both sides, strips back to exactly that text. |
| Text.TrimPadded | qc/filters.py:30 | Padding a text that has no whitespace at its ends with whitespace on both sides does not change what it strips to. |
| Text.TrimIdempotent | qc/filters.py:30 | Stripping a stripped text changes nothing. |
| Text.TrimEmptyIffBlank | qc/filters.py:30-35 | A text strips to nothing iff it is all whitespace. |
| Text.BelowIsStrictTotalOrder | frontend/src/pages/Dashboard.tsx:91 | The default sort's string order is a strict total order. |
| Sequences.Filter | frontend/src/components/Sidebar.tsx:17 | An element is kept iff it is in the input and passes the test. |
| Sequences.FilterKeepsOrder | frontend/src/components/MultiSelectFilter.tsx:20 | Filtering keeps the relative order of what it keeps. |
| Sequences.Dedup | frontend/src/pages/Dashboard.tsx:90 | The `Set` of months holds each key once, exactly the keys of the input, in their input order. |
| Sequences.Sort | frontend/src/pages/Dashboard.tsx:91 | The result is strictly ascending and a permutation of its duplicate-free input. |

Notes on what the code does:

- The final-inspection highlight (frontend/src/components/FinalInspectionForm.tsx:212-217) has no case for a missing spec. JavaScript turns `null` into 0 in the subtraction, and `IsOutOfTolerance` models that; the finding below has the detail.
- Neither highlight (frontend/src/components/FinalInspectionForm.tsx:212-217, frontend/src/pages/Inspections.tsx:293) compares with an epsilon. The only epsilon, 0.0001, is in the averaged status (frontend/src/pages/Inspections.tsx:169-184), which is not modelled.
- The decision vocabulary is inconsistent. The report colour and the pass rate test for "Approved" (qc/views.py:39, 227). The decision choices, the dashboard buckets and the filter options use "Accepted" (qc/models.py:66-68). The model keeps each literal where the code has it. Which word is intended cannot be decided from the code, so this is not listed as a finding. With the stored choices as they are, the report never prints a green decision and the pass rate stays 0.
- Template creation leaves missing POM fields to the column defaults. The name (qc/models.py:48) declares no default, so it gets Django's implicit '' for a non-null character field. The tolerance defaults to 0.0 and the standard to null (qc/models.py:49-50). These are the values the update path writes explicitly. `CreateTemplate` therefore shares `MakePom` with the update.

## Left out

- HTTP, react-query, axios, toasts, localStorage and routing are left out. Only the state they carry is modelled: the stored superuser flag is an `Option<string>`, and the server's JSON arrives as optional fields.
- ReportLab drawing, PIL compression, SMTP and file storage are left out as foreign libraries and I/O. Only the pure decisions around them are kept (what is drawn where, who receives the email, when an upload is refused). Whether an image loads is a field of `StoredImage`.
- Float arithmetic is left out:
  - the averaged FAIL/OK status with its 0.0001 epsilon (frontend/src/pages/Inspections.tsx:169-184);
  - the size-check deviation percent (frontend/src/components/FinalInspectionForm.tsx:445-447);
  - `str()` formatting of numbers in the report.
- ReportViews.PassRate: does not model rounding to one decimal (qc/views.py:240). It is stated on exact reals.
- The limits from `getAQLLimits`, `calculateSampleSize` and `AQL_STANDARDS`, and the common-defect list, come from a library that is not part of this model. They are parameters.
- `toLocaleDateString` month labels: the dashboard trend treats a label as an opaque string. `MonthLabel` renders a calendar month in the same "Jan 25" shape only so that the corrected trend can be stated.
- Multi-cell selection, drag, keyboard navigation and clipboard paste are left out, because the modelled files contain no such code.
- The search field strips whitespace as Python's `str.strip()` does: `Text.IsSpace` lists the characters `str.isspace()` accepts. The form field also refuses a value with a NUL character; that check is left out.
- `Text.Lower`/`Text.Upper` and the search fold only ASCII letters. Python's `upper()` and the database's case-insensitive match cover all of Unicode. Strings are sequences of characters, not UTF-16 code units.
- Time zones are left out. A creation time is a day number plus seconds since midnight, and the date filter bound is that day's midnight.
- The remarks line ("None" when empty) and the other plain report text are left out, because they are drawing only.
- Database effects are left out: partial writes left behind when a nested create fails midway, ids, cascade deletes and `save()`. A stored record is its attributes plus its child lists.
- Dashboard.MonthlyTrendData: the month is already the rendered label, because the date formatting is left out.
- DefectTally.Initial: a common defect named "__proto__" would replace the object's prototype instead of becoming a key. The common list comes from a library that is not part of this model, so its names are taken as plain keys.
- FilterState.ClearDatesAsWritten: the parent component that receives `onFiltersChange` is not part of this model. The model assumes it stores the object it receives; merging that object into the old state gives the same result, since the object carries every key.
- ReportViews.UploadAll: the only refused upload modelled is the over-wide caption. Network and authentication failures, and a failing create before the loop, are left out. The error toast is left out.
- ReportViews.UploadImage: the caption width is enforced as the production PostgreSQL database does (config/settings_production.py:17-19). Its length counts characters. The failure is a single server error; the response body is not modelled.
- The maintenance scripts, models, settings, URLs and admin, and the pages and components outside the ones above, are not part of this model.

## Findings

| source | as written | input that shows it | evidently intended | confidence | as-written member | corrected member |
|---|---|---|---|---|---|---|
| frontend/src/pages/Dashboard.tsx:90-95 | The final-inspection trend sorts month labels such as "Jan 25" as strings. | One pass in Jan 2025 (3) and one in Feb 2025 (1) are drawn "Feb 25" then "Jan 25". | Months in calendar order. | high, not executed | Dashboard.TrendNotChronological | Dashboard.ChronologicalTrend |
| frontend/src/components/FinalInspectionForm.tsx:212-217 | A null spec is coerced to 0 in `numVal - spec`. | A row with no spec and tol 0.5, sample "30": flagged red. | A row without a spec is never shown as failing. | medium, not executed | MeasurementRows.NullSpecFlagged | MeasurementRows.IsOutOfToleranceGuarded |
| qc/filters.py:13-14 | The "To Date" bound is a date compared with a date-time with `lte`, so it is midnight at the start of that day. | A record created at 10:00 on the "to" day is not listed. | Every record created on the "to" day is listed. | high, not executed | InspectionSearch.LastDayRecordListedOnlyWhenCorrected | InspectionSearch.FilterInspections |
| frontend/src/components/InspectionFilters.tsx:114-117 | The date picker's Clear calls `updateFilter` twice. Both calls spread the same rendered `filters`, so the second object restores the start date the first one cleared. | Filters from 2025-01-01 to 2025-01-31, then Clear: the start date stays 2025-01-01. | Clear empties both dates. | medium, not executed | FilterState.JanuaryRangeNotCleared | FilterState.ClearDates |
| qc/serializers.py:40-45 | Each POM is created with `order=i` plus `**pom`. The POM serializer accepts `order` as a writable field (qc/serializers.py:32), so a POM whose data includes it passes the keyword twice and the call fails. | A create whose first POM carries `order: 0`. | The position numbers the POMs, as the update path does. | high, not executed | NestedWrites.EchoedOrderRefused | NestedWrites.CreateTemplate |
