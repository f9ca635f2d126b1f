# MedSync core rules in Dafny

MedSync is a clinic inventory web application: staff sign up, keep a list of
medicines with their stock levels and expiry dates, and see a dashboard of
recent activity. Almost all of it is page markup and calls into the backend.
This project models the small rules inside those pages, and proves properties
about them:

- **Sortable table** (`SortableTable`). The header-click state machine cycles
  unsorted, ascending, descending. The row comparator puts empty cells last,
  compares strings with `localeCompare` and numbers by subtraction, and counts
  any other pairing as equal. The sort runs on a copy of the rows. The header
  shows a direction icon only on the sorted column.
- **Inventory page** (`Inventory`). The stock badge (Expired, Expiring Soon,
  Low Stock, In Stock, in that precedence), the case-insensitive search, and
  the add/edit form with its normalisation rules. The page's list of medicines
  after a delete, an update or an insert. The activity-log entries those
  writes request.
- **Dashboard** (`Dashboard`). The relative-time text of an activity entry
  ("N sec/min/hour(s)/day(s) ago"), its author and its description.
- **Sign-up page** (`Signup`). The password checks in their order, the
  zero-padded `YYYY-MM-DD` birthday, and the profile record built from the form.
- **Sidebar** (`Sidebar`). The display name and the avatar initials, with
  their "User" and "U" fallbacks.
- **Profile page** (`ProfileSettings`). The form filled from the stored
  profile, saving it, the 5 MiB license-size check, and the storage path built
  from the file's extension.

Shared modules:

- `Database` holds the table rows.
- `Strings` holds the JavaScript string operations the pages rely on: `trim`,
  ASCII case mapping, `includes`, `split`/`pop`, `padStart`, the
  `x || fallback` idiom, and integers inside template literals.
- `Sequences` holds `Array.prototype.filter`.
- `Names` holds the display name. The inventory page, the dashboard and the
  profile page compute it with the same expression: at
  `app/inventory/InventoryContent.tsx:46-49`,
  `app/dashboard/DashboardContent.tsx:26-29` and
  `app/profile/ProfileContent.tsx:117-119`. It is defined once, as
  `Names.UserName`.

State the pages keep is modelled as classes:

- `SortableTable.Table` holds `sortConfig`.
- `Inventory.InventoryPage` holds the medicine list, the search box and the
  error banner.
- `Signup.SignupPage` holds the loading flag and the error.
- `ProfileSettings.ProfilePage` holds the profile, the busy flags and the
  banners.

Their methods take the backend's answer as a parameter and state the whole
new state. The current time, the random number in a file name and every
backend reply are parameters.

The expiry date is compared as an exact instant against `new Date()`. The
stored date denotes midnight of its day, so a medicine whose expiry date is
today is already Expired once that day has begun
(`Inventory.ExpiryDayCountsAsExpired`). A first name made only of spaces
makes the sidebar say "User" but shows a blank initial
(`Sidebar.BlankFirstNameGivesBlankInitial`).

## Model

| member | source | states |
|---|---|---|
| SortableTable.NextSort | components/ui/SortableTable.tsx:33-41 | the next selection is never a key without a direction; it always names the clicked key; it is unsorted exactly when the clicked key was sorted descending |
| SortableTable.NewKeyStartsAscending | components/ui/SortableTable.tsx:33-40 | clicking a column when unsorted, or when another column is sorted, sorts it ascending |
| SortableTable.ClickCycle | components/ui/SortableTable.tsx:33-40 | on one column, the clicks go unsorted → ascending → descending → unsorted |
| SortableTable.IsSortable | components/ui/SortableTable.tsx:89-93 | a column is sortable exactly when its `sortable` flag is not `false` (a missing flag counts as sortable) |
| SortableTable.LocaleCompare | components/ui/SortableTable.tsx:54-55 | string comparison yields -1, 0 or 1, and 0 exactly for equal strings |
| SortableTable.LocaleCompareAntisymmetric | components/ui/SortableTable.tsx:53-55 | swapping the two strings negates the comparison |
| SortableTable.LocaleCompareTransitive | components/ui/SortableTable.tsx:53-55 | the string order is transitive |
| SortableTable.Compare | components/ui/SortableTable.tsx:43-63 | with no sort selection every pair compares 0; an empty cell in the first row gives a positive result; an empty cell only in the second row gives a negative one |
| SortableTable.UnsortedKeepsOrder | components/ui/SortableTable.tsx:44 | without a sort selection, every order of rows is in order |
| SortableTable.NullsLast | components/ui/SortableTable.tsx:49-50 | an empty cell sorts after a filled one in both directions |
| SortableTable.DirectionFlipsSign | components/ui/SortableTable.tsx:52-60 | for two strings or two numbers, descending is exactly ascending negated |
| SortableTable.AscendingByValue | components/ui/SortableTable.tsx:52-60 | ascending keeps `a` before `b` exactly when its number is not greater, or when `localeCompare(a, b)` is not positive; with `DirectionFlipsSign` this fixes descending as the reverse |
| SortableTable.AscendingExample | components/ui/SortableTable.tsx:43-63 | rows "B", "A" and an empty cell sorted ascending: "A", "B", empty is in order, and the input order is not |
| SortableTable.MixedCompareEqual | components/ui/SortableTable.tsx:62 | any pairing other than two strings or two numbers (with neither empty) compares equal |
| SortableTable.CompareAsymmetric | components/ui/SortableTable.tsx:43-63 | if the comparator puts a strictly before b, then b is not strictly before a |
| SortableTable.Insert | components/ui/SortableTable.tsx:43-63 | one insertion step permutes the array, leaves the first i+1 rows in order and the rows after i untouched, and changes nothing when row i already may stay after row i-1 |
| SortableTable.SortRows | components/ui/SortableTable.tsx:43-63 | the sorted copy is a permutation of the rows; each row may stay before its successor; input already in that order (every input when unsorted) comes back unchanged |
| SortableTable.InOrderTransitive | components/ui/SortableTable.tsx:49-62 | on cells of one kind, "may stay before" is transitive |
| SortableTable.AdjacentInOrderIsSorted | components/ui/SortableTable.tsx:43-63 | on a column holding only strings or only numbers (plus empty cells), neighbour order implies every pair is in order |
| SortableTable.IconFor | components/ui/SortableTable.tsx:65-74 | a direction icon appears exactly on the sorted column: up exactly when it sorts ascending, otherwise down |
| SortableTable.HeaderIcon | components/ui/SortableTable.tsx:93 | a header shows an icon exactly when its column is sortable, and the icon shown is the one the sort state gives that column |
| SortableTable.OneActiveIcon | components/ui/SortableTable.tsx:65-68 | at most one column shows a direction icon |
| SortableTable.IconCycle | components/ui/SortableTable.tsx:65-74 | a click moves the clicked column's icon neutral → up → down → neutral and leaves every other column neutral |
| SortableTable.Table.constructor | components/ui/SortableTable.tsx:31 | a new table starts unsorted |
| SortableTable.Table.HeaderClick | components/ui/SortableTable.tsx:89 | a click on a sortable header advances the selection; a click on a `sortable: false` header changes nothing; the state stays reachable |
| Strings.Trim | app/inventory/InventoryContent.tsx:47 | `trim` gives the slice of the string that starts after its leading white space; everything dropped in front and behind is white space; a non-empty result has no white space at either end; it is "" exactly for an all-white-space string |
| Strings.TrimIdempotent | app/inventory/InventoryContent.tsx:47 | trimming twice is trimming once |
| Strings.ToLower | app/inventory/InventoryContent.tsx:53 | lower-casing keeps the length, leaves no upper-case letter, and changes only letters |
| Strings.ToUpper | components/Sidebar.tsx:35 | upper-casing keeps the length, leaves no lower-case letter, and changes only letters |
| Strings.LowerOfUpper | app/inventory/InventoryContent.tsx:53-55 | lower-casing after upper-casing is plain lower-casing |
| Strings.Contains | app/inventory/InventoryContent.tsx:53-55 | `includes` holds exactly when the needle occurs at some position |
| Strings.OrEmpty | app/profile/ProfileContent.tsx:26-35 | a missing value falls back to "", a present string is kept |
| Strings.EmptyToNull | app/signup/page.tsx:105-114 | falling back to null gives null exactly for the empty string and keeps any other |
| Strings.OrElse | components/Sidebar.tsx:31 | a string falls back to the default exactly when it is empty; a non-empty one is kept |
| Strings.NullRoundTrip | app/inventory/InventoryContent.tsx:81 | writing a form string with the null fallback and reading it back with the "" fallback gives it back; a stored non-empty value survives the other way round |
| Strings.Split | app/profile/ProfileContent.tsx:87 | `split` yields at least one segment, none containing the separator, and exactly one when the separator is absent |
| Strings.Join | app/signup/page.tsx:96 | renders the hyphenated `${year}-${month}-${day}` template as parts with a separator between each pair; what it means is fixed by its inverse lemmas `Strings.SplitJoin` and `Strings.JoinSplit` |
| Strings.JoinSplit | app/profile/ProfileContent.tsx:87 | joining the segments of a split at the same separator gives the string back |
| Strings.SplitJoin | app/signup/page.tsx:96 | splitting a joined sequence of separator-free parts gives the parts back |
| Strings.LastSegment | app/profile/ProfileContent.tsx:87 | `split(sep).pop()` never contains the separator |
| Strings.LastSegmentIsSuffix | app/profile/ProfileContent.tsx:87 | `split(sep).pop()` is the suffix after the last separator, or all of the string when it has none |
| Strings.LastSegmentAfterSeparator | app/profile/ProfileContent.tsx:87-88 | after appending a separator and a separator-free text, `pop` gives exactly that text |
| Strings.PadStart | app/signup/page.tsx:96 | `padStart` keeps a long-enough string, otherwise fills on the left to the width, ending in the original |
| Strings.NatToString | app/dashboard/DashboardContent.tsx:36 | a rendered count is non-empty decimal digits with no leading zero |
| Strings.IntToString | app/dashboard/DashboardContent.tsx:36 | a rendered integer is non-empty; it starts with "-" exactly when the integer is negative, followed by the digits of its magnitude; otherwise it is the digits alone |
| Strings.IntRoundTrip | app/dashboard/DashboardContent.tsx:36 | a rendered integer reads back as the same integer |
| Strings.IntToStringInjective | app/dashboard/DashboardContent.tsx:36 | different integers render differently |
| Sequences.Filter | app/inventory/InventoryContent.tsx:51-56 | `filter` gives an order-preserving subsequence, keeping exactly the elements that satisfy the predicate, each as many times as it occurs in the input |
| Sequences.FilterPartition | app/inventory/InventoryContent.tsx:117 | filtering by a predicate and by its negation splits the sequence with nothing lost or duplicated |
| Sequences.FilterAll | app/inventory/InventoryContent.tsx:51-56 | a predicate that holds everywhere filters nothing out |
| Sequences.FilterCongruent | app/inventory/InventoryContent.tsx:51-56 | predicates agreeing on every element filter identically |
| Names.FullName | app/inventory/InventoryContent.tsx:47 | the full name has no white space at either end |
| Names.UserName | app/inventory/InventoryContent.tsx:46-49 | the page name is never empty: "User" with no profile or a blank name, otherwise the full name |
| Names.FullNameEmptyIff | app/inventory/InventoryContent.tsx:47-48 | the full name is empty exactly when both parts are missing or blank |
| Names.FullNameOfTidyParts | app/inventory/InventoryContent.tsx:47 | two tidy parts are joined by exactly one space |
| Names.FullNameOfFirstOnly | app/inventory/InventoryContent.tsx:47 | a first name alone gives that name without a trailing space |
| Inventory.BadgeText | app/inventory/InventoryContent.tsx:250-279 | each of the four statuses shows its own text: "Expired", "Expiring Soon", "Low Stock", "In Stock" |
| Inventory.BadgeTextInjective | app/inventory/InventoryContent.tsx:250-279 | different badges have different texts |
| Inventory.StatusOf | app/inventory/InventoryContent.tsx:242-280 | the status is Expired exactly when the expiry instant has passed, and Expiring Soon exactly when it lies within the next 30 days |
| Inventory.StatusPrecedence | app/inventory/InventoryContent.tsx:242-280 | Expired exactly when expiry has passed; Expiring Soon exactly when expiry is within [now, now+30 days]; otherwise Low Stock exactly when quantity ≤ threshold, else In Stock; exactly one badge per medicine |
| Inventory.WindowBoundaries | app/inventory/InventoryContent.tsx:247-261 | expiry at now and at now+30 days is Expiring Soon; at now+31 days the stock rules decide; one millisecond ago is Expired |
| Inventory.ExpiryDayCountsAsExpired | app/inventory/InventoryContent.tsx:243-250 | an expiry date of today (midnight) is Expired at any later moment of the day |
| Inventory.FourRecordScenario | app/inventory/InventoryContent.tsx:242-280 | no expiry and 5 ≤ 10 is Low Stock; expiry in 20 days is Expiring Soon; in 40 days with 50 > 10 is In Stock; yesterday is Expired |
| Inventory.MatchesQuery | app/inventory/InventoryContent.tsx:52-55 | an empty query matches every medicine |
| Inventory.Search | app/inventory/InventoryContent.tsx:51-56 | the search keeps, in list order, exactly the medicines whose name, category or description contains the query ignoring case, each as often as it occurs in the list |
| Inventory.EmptyQueryShowsAll | app/inventory/InventoryContent.tsx:51-56 | an empty query shows the whole list |
| Inventory.SearchIgnoresCase | app/inventory/InventoryContent.tsx:53-55 | an upper-cased query finds the same medicines |
| Inventory.EditForm | app/inventory/InventoryContent.tsx:78-89 | the edit form copies name, quantity, unit, expiry date and threshold, shows each null text column (description, category, supplier, batch number) as "", and a null price as 0 |
| Inventory.QuantityFromInput | app/inventory/InventoryContent.tsx:557 | the quantity input keeps a parsed number and gives 0 for input that does not parse |
| Inventory.ThresholdFromInput | app/inventory/InventoryContent.tsx:592 | the threshold input is never 0; it keeps any parsed non-zero number and gives 10 for input that does not parse or parses as 0 |
| Inventory.PriceFromInput | app/inventory/InventoryContent.tsx:630 | the price input keeps a parsed number and gives 0 for input that does not parse |
| Inventory.StoredThreshold | app/inventory/InventoryContent.tsx:183 | a threshold of 0 is stored as 10; any other is kept |
| Inventory.StoredPrice | app/inventory/InventoryContent.tsx:182 | a price of 0 is stored as null; any other is kept |
| Inventory.ToFields | app/inventory/InventoryContent.tsx:174-183 | a submit keeps name, quantity, unit and expiry date; writes each empty optional text as null; stores the price through the zero-to-null rule and the threshold through the zero-to-10 rule, so never a zero threshold |
| Inventory.EditRoundTrip | app/inventory/InventoryContent.tsx:78-89 | opening a medicine and saving it unchanged writes back its own columns exactly when it holds no empty string, zero price or zero threshold |
| Inventory.ToFieldsIdempotent | app/inventory/InventoryContent.tsx:174-183 | a saved row, edited and saved again unchanged, is written back exactly |
| Inventory.RequestFor | app/inventory/InventoryContent.tsx:170-217 | a submit updates by id exactly when a medicine is being edited, stamped with the update time, or inserts a new one created by the signed-in user; both write the normalised fields |
| Inventory.WithoutId | app/inventory/InventoryContent.tsx:117 | a delete keeps, in order, exactly the medicines with another id, each as often as it occurs |
| Inventory.DeleteRemovesOnlyThatId | app/inventory/InventoryContent.tsx:117 | the medicines removed are exactly those with the deleted id |
| Inventory.ReplaceById | app/inventory/InventoryContent.tsx:192-194 | an update keeps the length and replaces exactly the entries with the edited id |
| Inventory.UpdateKeepsIds | app/inventory/InventoryContent.tsx:192-194 | when the saved row keeps its id, no position changes id and no other medicine changes |
| Inventory.InsertThenDelete | app/inventory/InventoryContent.tsx:223 | deleting a just-prepended medicine's id leaves what deleting it from the old list would |
| Inventory.MedicineLog | app/inventory/InventoryContent.tsx:119-124 | an activity entry names the medicine's id, type "medicine", the action, and "<verb> <name>" |
| Inventory.InventoryPage.constructor | app/inventory/InventoryContent.tsx:23-30 | the page starts with the given medicines, an empty search and no error |
| Inventory.InventoryPage.Visible | app/inventory/InventoryContent.tsx:51-56 | the visible rows are the search of the list by the current query, a subsequence of the list |
| Inventory.InventoryPage.SetSearchQuery | app/inventory/InventoryContent.tsx:414 | typing changes only the search query |
| Inventory.InventoryPage.ConfirmDelete | app/inventory/InventoryContent.tsx:105-134 | nothing happens without a target; a deleted target leaves the list with every row of its id removed, and logs "Deleted <name>" for a signed-in user; an error keeps the list and shows the message or "An error occurred" |
| Inventory.InventoryPage.Submit | app/inventory/InventoryContent.tsx:156-240 | the error is cleared first; no signed-in user gives "User not authenticated"; a saved row replaces the edited medicine or is prepended, with an update or create log entry; an error keeps the list and shows its message or "An error occurred" |
| Dashboard.ElapsedSeconds | app/dashboard/DashboardContent.tsx:34 | the difference is the floor of the milliseconds over 1000 |
| Dashboard.AgoOf | app/dashboard/DashboardContent.tsx:36-40 | seconds below 60 (including negative), minutes below 3600, hours below 86400, else days; the count is the floor in that unit (1-59 minutes, 1-23 hours, at least 1 day) |
| Dashboard.UnitWord | app/dashboard/DashboardContent.tsx:36-40 | the unit's word starts with the unit's letter (s, m, h, d) and ends in "s" exactly for more than one hour or day |
| Dashboard.Render | app/dashboard/DashboardContent.tsx:36-40 | the text starts with the count and a space and ends in " ago" |
| Dashboard.FormatTimeAgo | app/dashboard/DashboardContent.tsx:31-41 | the text starts with the count of whole units elapsed and a space, and ends in " ago" |
| Dashboard.FormatTimeAgoCases | app/dashboard/DashboardContent.tsx:31-41 | the text of each of the four branches, with the plural only above one hour or day |
| Dashboard.FutureDateShowsNegativeSeconds | app/dashboard/DashboardContent.tsx:36 | a future date falls in the seconds branch with a negative count |
| Dashboard.PluralOnlyAboveOne | app/dashboard/DashboardContent.tsx:39-40 | "hour" and "day" end in "s" exactly when the count is more than one |
| Dashboard.RenderInjective | app/dashboard/DashboardContent.tsx:36-40 | the text determines both the count and the unit |
| Dashboard.MinuteBoundary | app/dashboard/DashboardContent.tsx:36-37 | 59 s is "59 sec ago", 60 s is "1 min ago" |
| Dashboard.HourAndDayBoundaries | app/dashboard/DashboardContent.tsx:38-40 | 3600 s is "1 hour ago", 7200 s is "2 hours ago", 86400 s is "1 day ago" |
| Dashboard.ActivityAuthor | app/dashboard/DashboardContent.tsx:152-155 | the author is "System" with no joined profile, the full name when it is non-empty, else "Unknown"; never empty |
| Dashboard.BlankAuthorIsUnknown | app/dashboard/DashboardContent.tsx:152-155 | a joined profile with blank or missing name parts shows "Unknown" |
| Dashboard.NamedAuthorShowsName | app/dashboard/DashboardContent.tsx:152-155 | a joined profile with a non-blank first name shows its full name |
| Dashboard.ActivityDescription | app/dashboard/DashboardContent.tsx:164 | a missing or empty description falls back to the action |
| Dashboard.ActivityByline | app/dashboard/DashboardContent.tsx:167 | the byline starts "By <author> - " and continues with the relative time of the entry |
| Signup.ValidatePasswords | app/signup/page.tsx:48-58 | a mismatch is reported first; then a password under 6 characters; it passes exactly when both agree and it has at least 6 |
| Signup.PasswordLengthBoundary | app/signup/page.tsx:54-58 | six matching characters pass; five are too short |
| Signup.Pad2 | app/signup/page.tsx:96 | `padStart(2, "0")` keeps inputs of length ≥ 2 and fills shorter ones on the left with "0" characters to length 2, ending in the input |
| Signup.Birthday | app/signup/page.tsx:94-97 | a birthday exists exactly when year, month and day are all filled in, and is year, padded month and padded day joined by "-" |
| Signup.BirthdayRoundTrip | app/signup/page.tsx:94-97 | the birthday splits back at "-" into year, padded month and padded day |
| Signup.BirthdayPadding | app/signup/page.tsx:96 | one-character month and day get a leading zero, two-character ones are kept |
| Signup.ProfileData | app/signup/page.tsx:103-117 | every empty input becomes null; the email falls back to the auth email; the role is staff; the id is the new user's |
| Signup.ProfileDataHasNoEmptyStrings | app/signup/page.tsx:103-117 | no column of the new profile holds an empty string |
| Signup.SignupPage.constructor | app/signup/page.tsx:29-30 | the page starts idle with no error |
| Signup.SignupPage.Submit | app/signup/page.tsx:42-153 | a failed password check shows its message and sends nothing; an auth error shows its message or the default; a new user gets the built profile record; loading is off afterwards |
| Sidebar.FirstChar | components/Sidebar.tsx:33 | the first character of a part, or nothing for a missing or empty part |
| Sidebar.Initials | components/Sidebar.tsx:32-35 | the initials are one or two characters with no lower-case letter: the upper-cased first characters of the present parts, or "U" when both are missing or empty |
| Sidebar.LabelsFor | components/Sidebar.tsx:14-36 | without a profile the box shows "User"/"U"; with one, the full name or "User" and the initials |
| Sidebar.NameAgreesWithPages | components/Sidebar.tsx:30-31 | the sidebar name equals the pages' name for the same profile |
| Sidebar.InitialsOfBothParts | components/Sidebar.tsx:32-35 | with both parts, the initials are the two upper-cased first letters in order |
| Sidebar.InitialsSkipMissingPart | components/Sidebar.tsx:33 | a missing or empty part is skipped, in either position |
| Sidebar.InitialsFallback | components/Sidebar.tsx:33-34 | with no letters at all the initials are "U" |
| Sidebar.BlankFirstNameGivesBlankInitial | components/Sidebar.tsx:29-35 | a first name of one space gives the name "User" and the initial " " |
| ProfileSettings.CheckSize | app/profile/ProfileContent.tsx:78-81 | a file passes exactly when it is at most 5·1024·1024 bytes; otherwise "File size must be less than 5MB" |
| ProfileSettings.SizeBoundary | app/profile/ProfileContent.tsx:78 | exactly 5 MiB passes, one byte more fails |
| ProfileSettings.Extension | app/profile/ProfileContent.tsx:87 | the extension is a dot-free suffix of the name, preceded by a dot when shorter than the name, and the whole name exactly when it has no dot |
| ProfileSettings.StoragePath | app/profile/ProfileContent.tsx:88-89 | the path starts "licenses/<userId>-" |
| ProfileSettings.StoragePathKeepsExtension | app/profile/ProfileContent.tsx:87-89 | the stored file has the uploaded file's extension |
| ProfileSettings.StoragePathOfDotlessName | app/profile/ProfileContent.tsx:87-89 | a name without a dot ends the path as ".<name>" |
| ProfileSettings.InitialForm | app/profile/ProfileContent.tsx:25-36 | without a profile every field is ""; otherwise each of the ten fields is its column, with null shown as "" |
| ProfileSettings.SavedProfile | app/profile/ProfileContent.tsx:52-58 | saving writes each of the ten form fields into its column, keeps the id, email, role, license and creation time, and stamps the update time |
| ProfileSettings.SaveThenReload | app/profile/ProfileContent.tsx:25-58 | loading the page after a save shows exactly the saved form |
| ProfileSettings.SignupFieldsReachProfileForm | app/profile/ProfileContent.tsx:25-36 | after sign-up, the profile form shows each name and address field as typed at sign-up, and the assembled birthday or "" |
| ProfileSettings.ProfilePage.constructor | app/profile/ProfileContent.tsx:17-23 | the page starts with the given profile, idle, with no banners |
| ProfileSettings.ProfilePage.DisplayName | app/profile/ProfileContent.tsx:117-119 | the header name is the same display name the other pages compute for the current profile, and never empty |
| ProfileSettings.ProfilePage.Submit | app/profile/ProfileContent.tsx:45-72 | the banners are cleared first; an updated row replaces the profile and shows the success banner; an error shows its message or "An error occurred"; loading is off afterwards |
| ProfileSettings.ProfilePage.HandleFileUpload | app/profile/ProfileContent.tsx:74-115 | nothing without a file; an oversized file only shows the size error; otherwise the file goes to the storage path, and the page shows success or the failure message (or "Failed to upload license"), no longer uploading |

## Left out

- Backend calls are not modelled: Supabase auth, table and storage calls, and `router.refresh`/`router.push`. Their answers enter the methods as parameters.
- Inventory.InventoryPage.ConfirmDelete: does not model the delete request itself or `medicineToDelete`/modal state; the target and the backend's error are parameters.
- Inventory.InventoryPage.Submit: does not model `loading`, the modal or the `updated_at` timestamp; the edited medicine, the signed-in user and the backend's reply are parameters.
- Signup.SignupPage.Submit: the auto-confirm request, the half-second wait, the profile-creation request and its ignored failures, sessionStorage and the redirect are left out; the method returns the profile record that would be sent.
- ProfileSettings.ProfilePage.HandleFileUpload: the upload, the public URL and the profile update are one outcome parameter; `success` is not cleared before an upload, just as in the page.
- The login flow, the server pages that load data and count the dashboard cards, the API routes, the layout and the UI widgets are not part of this model. They are network and session plumbing, or markup only.
- The five-second timer that clears the profile success banner is left out (timers).
- React's asynchronous state scheduling is left out; each method applies its updates in order.
- SortableTable.LocaleCompare: is plain lexicographic order on code points, not locale-dependent collation.
- SortableTable.SortRows: the engine's sort algorithm is replaced by a stable insertion sort. The comparator is not a consistent order in general (two empty cells each compare as "after" the other; a string against a number compares equal). So for arbitrary columns the method promises neighbour order and permutation only. Pairwise order is proved for columns holding only strings or only numbers (`SortableTable.AdjacentInOrderIsSorted`).
- SortableTable: numbers are real numbers; floating-point rounding, NaN and `undefined` cells (treated as null) are not distinguished.
- Strings.ToLower: only ASCII letters change case; other Unicode case mappings are not modelled.
- Strings.ToUpper: only ASCII letters change case; other Unicode case mappings are not modelled.
- Strings: string length and indexing count code points, not UTF-16 code units. So `password.length` and `first_name?.[0]` differ from JavaScript for characters outside the Basic Multilingual Plane.
- Inventory: dates are millisecond instants. Parsing `expiry_date` strings, time zones and the daylight-saving shift of `setDate(+30)` are left out; "thirty days from now" is exactly 30 × 86 400 000 ms later.
- Inventory.QuantityFromInput: `parseInt` itself is left out; its result (or failure to parse) is the parameter.
- Inventory.ThresholdFromInput: `parseInt` itself is left out; its result (or failure to parse) is the parameter.
- Inventory.PriceFromInput: `parseFloat` and floating-point prices are left out; the parsed value is a real number.
- ProfileSettings.StoragePath: `Math.random()` and its decimal rendering are left out; the rendered text is a parameter.
- Dashboard: `new Date(created_at)` parsing is left out; the creation time is an instant.
