# School administration dashboard: the logic behind four pages

This project is a Dafny model of the logic in a school-administration
single-page application. All data in the application is mocked in memory.
Its behaviour lives in four React components:

- **Fee collection** (`src/pages/fees/FeeCollection.tsx`). One student has a
  list of fee line items. The page shows "Total Due" (the outstanding amount
  of every item not marked paid) and "Selected" (the outstanding amount of
  every item whose category is ticked). A checkbox change appends a category
  to the selection or removes it. "Pay Selected" and "Pay All Due" copy a
  total into the payment amount field.
- **Student list** (`src/pages/students/StudentList.tsx`). A search box and
  class and status filters select records. The search ignores case for the
  name and student ID, but not for the phone number. The page also shows
  status badges and avatar initials.
- **Sidebar** (`src/components/layout/Sidebar.tsx`). An entry is active when
  the location is its path or lies below it. A parent entry is highlighted
  when it or one of its children is active. The list of expanded parents is
  changed by clicks (toggle) and by an effect that expands the parent of the
  active page whenever the location changes.
- **Bulk import** (`src/pages/students/ImportStudents.tsx`). Only file names
  ending in `.xlsx` or `.csv` are accepted. An accepted file starts a timer.
  Each tick adds a random step below 15 to the progress. The first tick that
  finds the progress at 100 or more pins it at 100, marks the upload complete
  and fills in a fixed summary.

Modules: `Options`, `Lists`, `Strings` and `Badges` hold the shared pieces
(an optional value, JavaScript's `filter`, `startsWith`, `endsWith`,
`includes`, `split`/`join` and `toString`, and the badge class strings).
`FeeCollection`, `StudentList`, `Sidebar` and `ImportStudents` hold one
source file each. Pure expressions are functions. State that a handler
updates is a class: `FeeCollectionPage`, `SidebarState` and `ImportPage`.
Each handler is a method whose contract gives the whole new state, plus the
invariant it preserves. The auto-expand effect's `forEach` is a loop,
proved against the fold `AutoExpanded`.

Some behaviours of the code are worth knowing:

- "Total Due" is never negative only when no item is paid beyond its amount.
  The code does not check this.
- The selection is a list, not a set. "Selected" counts a ticked item even
  if it is marked paid. Only the disabled checkbox of a paid row keeps such
  an item out.
- The upload does not move from pending to done after a fixed delay. It
  advances by random steps. The progress can reach up to 115 (shown as
  "113%", for example) for one tick before it is pinned at 100.
- The import summary (125 records, 120 successful, 5 failed) is reported
  whatever the file holds.

## Model

| member | source | states |
|---|---|---|
| `FeeCollection.RowDue` | src/pages/fees/FeeCollection.tsx:210-213 | a row shows a "Due" line exactly when its status is not "paid", and that line plus the amount already paid equals the amount |
| `FeeCollection.TotalDueIsSumOfRowDues` | src/pages/fees/FeeCollection.tsx:60-62 | "Total Due" equals the sum of the rows' "Due" lines: paid items add nothing, every other item adds amount minus `paidAmount || 0` |
| `FeeCollection.TotalDueNonNegative` | src/pages/fees/FeeCollection.tsx:60-62 | when no item has paid more than its amount, "Total Due" is at least 0 |
| `FeeCollection.MockTotalDue` | src/pages/fees/FeeCollection.tsx:44-62 | for the mock fee structure, "Total Due" is 15000 + (2000 - 1000) + 1500 + 2500 = 20000 |
| `FeeCollection.TotalSelectedEmpty` | src/pages/fees/FeeCollection.tsx:64-66 | with nothing selected (the initial state), "Selected" is 0 |
| `FeeCollection.TotalSelectedDependsOnMembership` | src/pages/fees/FeeCollection.tsx:64-66 | two selections holding the same categories, in any order and with any repetition, give the same "Selected" |
| `FeeCollection.TotalSelectedOfAllUnpaid` | src/pages/fees/FeeCollection.tsx:60-66 | selecting exactly the categories of the unpaid items makes "Selected" equal "Total Due" |
| `FeeCollection.TotalSelectedAtMostTotalDue` | src/pages/fees/FeeCollection.tsx:60-66 | if no paid item's category is selected and nothing is overpaid, "Selected" is at most "Total Due" |
| `FeeCollection.SelectableWithinTotalDue` | src/pages/fees/FeeCollection.tsx:185-191 | if rows have distinct categories and every selected category is that of an unpaid row (paid rows' checkboxes are disabled), "Selected" is at most "Total Due" |
| `FeeCollection.UpdateSelection` | src/pages/fees/FeeCollection.tsx:68-74 | checking appends the category at the end; unchecking removes every occurrence, keeps the other entries in order and keeps how often each occurs |
| `FeeCollection.FeeStatusColor` | src/pages/fees/FeeCollection.tsx:76-83 | paid is success, partial is warning, pending is destructive, and any other status falls back to muted |
| `FeeCollection.FeeCollectionPage.constructor` | src/pages/fees/FeeCollection.tsx:54-58 | the page starts with no selection and an empty payment amount |
| `FeeCollection.FeeCollectionPage.HandleFeeSelection` | src/pages/fees/FeeCollection.tsx:68-74 | the selection becomes the updated list and the amount field is untouched; a change made through an enabled checkbox keeps the selection duplicate-free and within unpaid rows |
| `FeeCollection.FeeCollectionPage.ClickPaySelected` | src/pages/fees/FeeCollection.tsx:247-254 | the button is disabled exactly when "Selected" is 0; otherwise the amount field becomes the decimal text of "Selected", which reads back as "Selected" and, on a valid page with no overpaid item, as at most "Total Due" |
| `FeeCollection.FeeCollectionPage.SelectedWithinDue` | src/pages/fees/FeeCollection.tsx:60-66 | on a page whose selection holds distinct categories of unpaid rows only, with no overpaid item, "Selected" is at most "Total Due" |
| `FeeCollection.FeeCollectionPage.ClickPayAllDue` | src/pages/fees/FeeCollection.tsx:255-261 | the amount field becomes the decimal text of "Total Due", which reads back as "Total Due"; the selection is untouched |
| `Strings.IntToString` | src/pages/fees/FeeCollection.tsx:250 | `toString` of an integer is its canonical decimal text: a minus sign exactly when negative, then digits without a leading zero; parsing it gives the integer back |
| `Strings.NatToString` | src/pages/fees/FeeCollection.tsx:258 | the decimal digits of a natural number have no leading zero, and parsing them gives the number back |
| `StudentList.FilteredStudents` | src/pages/students/StudentList.tsx:137-145 | a student is kept iff the search, the class filter and the status filter all match, every occurrence of a kept record is kept and none of a dropped one; the result is an order-preserving subsequence, so "Showing X of Y" has X at most Y |
| `StudentList.MatchesSearchIffOccurs` | src/pages/students/StudentList.tsx:138-140 | the search matches iff the lower-cased query occurs in the lower-cased name or student ID, or the query occurs as typed in the phone |
| `StudentList.StudentIdMatchIsListed` | src/pages/students/StudentList.tsx:139 | a student whose ID contains the query in any letter case is listed when class and status are "all" |
| `StudentList.InitialFiltersKeepEveryone` | src/pages/students/StudentList.tsx:137-145 | with the initial query "" and filters "all", the whole list is shown in its order |
| `StudentList.MockClassEight` | src/pages/students/StudentList.tsx:55-111 | on the mock records, class "8" yields exactly the Amit Kumar / ST003 record |
| `StudentList.StatusColor` | src/pages/students/StudentList.tsx:119-126 | active is success, inactive is warning, graduated is primary, and anything else falls back to muted |
| `StudentList.FeeStatusColor` | src/pages/students/StudentList.tsx:128-135 | paid is success, pending is warning, overdue is destructive, and anything else falls back to muted |
| `StudentList.Capitalize` | src/pages/students/StudentList.tsx:289 | the badge label has the status's length, its first character upper-cased and the rest unchanged |
| `StudentList.CapitalizeChangesCaseOnly` | src/pages/students/StudentList.tsx:289 | the label differs from the status in letter case only |
| `StudentList.StatusLabels` | src/pages/students/StudentList.tsx:288-290 | the three statuses are labelled "Active", "Inactive" and "Graduated" |
| `StudentList.InitialsAreWordStarts` | src/pages/students/StudentList.tsx:267 | the initials are the characters that start a space-separated word, in order; empty words add nothing because `join` renders `undefined` as nothing |
| `StudentList.RahulSharmaInitials` | src/pages/students/StudentList.tsx:267 | "Rahul Sharma" gives "RS" |
| `Strings.IncludesIffOccurs` | src/pages/students/StudentList.tsx:138-140 | `includes` holds iff the needle occurs at some index of the string |
| `Strings.JoinSplit` | src/pages/students/StudentList.tsx:267 | joining the pieces of `split` with the same separator gives the string back |
| `Strings.SplitJoin` | src/pages/students/StudentList.tsx:267 | splitting the join of pieces free of the separator gives the pieces back |
| `Lists.Filter` | src/pages/students/StudentList.tsx:137 | `filter` keeps only elements satisfying the predicate and never lengthens the list |
| `Lists.FilterMembership` | src/pages/students/StudentList.tsx:137 | an element is in the filtered list iff it is in the list and satisfies the predicate |
| `Lists.FilterIsSubsequence` | src/pages/students/StudentList.tsx:137 | the filtered list keeps its elements in their original order |
| `Lists.Without` | src/pages/fees/FeeCollection.tsx:72 | `filter(y => y !== x)` removes every `x` and keeps the count of every other value |
| `Sidebar.IsActiveIffSegmentPrefix` | src/components/layout/Sidebar.tsx:124-126 | `isActive(path)` holds iff `path` is a prefix of the location ending at its end or at a "/" |
| `Sidebar.IsActiveTransitive` | src/components/layout/Sidebar.tsx:124-126 | a location active under a path that is itself active under `path` is active under `path` |
| `Sidebar.SegmentBoundaryExamples` | src/components/layout/Sidebar.tsx:125 | "/students" is active at "/students/add" but not at "/studentsx"; "/" is active at "/" but not at "/students" |
| `Sidebar.AnyActiveIff` | src/components/layout/Sidebar.tsx:129 | `children.some(child => isActive(child.path))` holds iff some child's path is active |
| `Sidebar.IsParentActiveIff` | src/components/layout/Sidebar.tsx:128-130 | a parent is highlighted iff its own path or some child's path is active |
| `Sidebar.Toggle` | src/components/layout/Sidebar.tsx:116-122 | toggling flips the path's membership and no other; an absent path is appended at the end; removing keeps the rest in order, each other path as often as before |
| `Sidebar.ToggleTwiceRestores` | src/components/layout/Sidebar.tsx:117-121 | toggling an absent path twice gives the original list |
| `Sidebar.ToggleTwiceSamePaths` | src/components/layout/Sidebar.tsx:117-121 | on a duplicate-free list, toggling any path twice leaves the same paths, each once |
| `Sidebar.ToggleKeepsNoDuplicates` | src/components/layout/Sidebar.tsx:117-121 | toggling keeps the expanded list duplicate-free |
| `Sidebar.AutoExpanded` | src/components/layout/Sidebar.tsx:132-139 | the effect never removes entries: the old list is a prefix of the new one |
| `Sidebar.AutoExpandedMembership` | src/components/layout/Sidebar.tsx:134-138 | after the effect, a path is expanded iff it was before or it is the path of an entry with an active child |
| `Sidebar.AutoExpandedKeepsNoDuplicates` | src/components/layout/Sidebar.tsx:136 | the effect appends a path only if it is absent, so a duplicate-free list stays so |
| `Sidebar.AutoExpandedUnchanged` | src/components/layout/Sidebar.tsx:132-139 | when every parent with an active child is already expanded, the effect changes nothing |
| `Sidebar.AutoExpandedIdempotent` | src/components/layout/Sidebar.tsx:132-139 | running the effect twice for one location equals running it once |
| `Sidebar.AutoExpandedSplit` | src/components/layout/Sidebar.tsx:134 | running the effect over two lists of entries in turn equals running it over their concatenation |
| `Sidebar.OpenAtAddStudent` | src/components/layout/Sidebar.tsx:132-139 | mounting at "/students/add" expands exactly "/students" |
| `Sidebar.SidebarState.constructor` | src/components/layout/Sidebar.tsx:113-114 | mounting starts from an empty list and runs the effect once; the list is duplicate-free |
| `Sidebar.SidebarState.AutoExpand` | src/components/layout/Sidebar.tsx:132-139 | the `forEach` loop leaves exactly the list `AutoExpanded` describes and does not move the location |
| `Sidebar.SidebarState.ToggleExpanded` | src/components/layout/Sidebar.tsx:116-122 | the expanded list becomes its toggle and stays duplicate-free |
| `Sidebar.SidebarState.ClickParent` | src/components/layout/Sidebar.tsx:183 | a click on a parent toggles it only when the sidebar is not collapsed |
| `Sidebar.SidebarState.Navigate` | src/components/layout/Sidebar.tsx:132-139 | the effect runs only when the location changes; afterwards every parent with an active child is expanded, so its children are shown unless the sidebar is collapsed (line 215) |
| `ImportStudents.AcceptedIffExtension` | src/pages/students/ImportStudents.tsx:28 | a file name is accepted iff it is some stem followed by ".xlsx" or ".csv" |
| `ImportStudents.ExtensionExamples` | src/pages/students/ImportStudents.tsx:28 | ".xlsx" and ".csv" are accepted; ".CSV" and ".xls" are rejected |
| `ImportStudents.NextProgress` | src/pages/students/ImportStudents.tsx:43-66 | progress at or above 100 is pinned at 100; below 100 it grows by less than 15; it stays within [0, 115) |
| `ImportStudents.ProgressOvershoots` | src/pages/students/ImportStudents.tsx:64-66 | from 99 a step of 13.5 gives 112.5, and the next tick pins it at 100 |
| `ImportStudents.ReportedStatsConsistent` | src/pages/students/ImportStudents.tsx:48-58 | both summaries satisfy successful + failed = total and one error message per failure |
| `ImportStudents.ImportPage.constructor` | src/pages/students/ImportStudents.tsx:11-19 | the page starts idle, with progress 0 and an empty summary |
| `ImportStudents.ImportPage.HandleFileUpload` | src/pages/students/ImportStudents.tsx:24-39 | no file changes nothing; a rejected name only raises the "Invalid File Format" notice; an accepted one sets uploading, progress 0 and not complete; the summary never changes here |
| `ImportStudents.ImportPage.Tick` | src/pages/students/ImportStudents.tsx:42-68 | below 100 the progress grows by the step; at 100 or more it becomes 100, uploading stops, the upload completes and the fixed summary and "Upload Complete" notice appear; the page invariant is kept |
| `ImportStudents.ImportPage.DownloadTemplate` | src/pages/students/ImportStudents.tsx:71-76 | the template button only raises a notice |

## Left out

- Rendering: JSX, framer-motion animation, icons, and Tailwind classes other than the badge colour mappings. These are UI-library code with no logic.
- Number and date formatting: `toLocaleString`, `toLocaleDateString`, `new Date(...)` parsing and the `Math.round` of the shown percentage are not modelled. Amounts are whole numbers, as in all the data, so JavaScript's floating-point numbers are modelled as integers.
- Case mapping is ASCII only. Full Unicode `toLowerCase`/`toUpperCase` is not modelled.
- StudentList.Initials: strings are modelled as sequences of Unicode scalar values, not as JavaScript's UTF-16 code units. For a name word that starts with a character outside the Basic Multilingual Plane, `n[0]` gives the first half of a surrogate pair, but the model gives the whole character. The same holds for lengths and indices in `includes`, `startsWith`, `endsWith` and `charAt` on such characters.
- Timers and randomness: the 200 ms period is not modelled. `Math.random() * 15` is the `step` parameter of `Tick`, taken from [0, 15). Nothing guarantees that the upload finishes, since the random value may stay 0.
- Toasts are recorded only as a list of notice kinds. Their descriptions and styling are left out.
- `ImportPage.HandleFileUpload` requires `ChooseFileEnabled()`, i.e. that no upload is running. Its only trigger, the "Choose File" button (line 171), is disabled while uploading, so a second concurrent timer is not modelled.
- React scheduling: each handler and the effect run as one atomic step. Queued state updaters are applied in order. Double invocation in strict mode is not modelled.
- Fee page fields that only store input are left out: the student search box (it filters nothing), the typed payment amount, the payment method and the reference number. The "Collect Fee", "Calculator", "Preview Receipt" and "View Receipt History" buttons are also left out, since they have no handlers. The selected student never changes and is the page's constant `feeStructure`.
- Student list: the query and filter values are parameters of `FilteredStudents`, because their setters only overwrite them. The row actions (view, edit, fee management, delete) have no handlers.
- Sidebar: the highlighting of `NavLink` elements and route matching are done by react-router, which is not part of this model. `collapsed` is a prop, so it is a parameter. The layout that owns it and its `onToggle` are not part of this model.
- `FeeCollection.FeeCollectionPage.HandleFeeSelection` promises a duplicate-free selection within unpaid rows only for changes made through an enabled checkbox. A direct call with `checked` true for a category already present appends it a second time, as the code does.
