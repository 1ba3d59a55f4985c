# China cities travel map — a Dafny model

The application is a single-page React app for marking the Chinese cities a
user has visited. A user logs in with a username, which is checked against a
weighted-length rule. The user can then:

- click cities on a Leaflet map, or find them through a search box;
- record a first visit date, photos in four categories, a comment and a
  1..10 star rating for each city;
- export a PDF with a cover map and one section per dated, photographed
  city.

This project models the logic inside that application and proves what it
promises:

- **City colour.** The 32-bit rolling hash behind each city's colour, in its
  two copies: the live map and the export's cover map.
- **Map layers.** Each polygon's style and its hover transitions, and the
  table from names to layers.
- **Export content.** Which cities the export lays out, and in what order.
- **Pagination.** The page-break loop of the export ("page i of N" on every
  page) and the export's file name.
- **Date picker.** Zero padding, month lengths, wheel stepping, day
  clamping and the `YYYY-MM-DD` string.
- **Username validation.** The validation rule, and the login gate that
  consults the backend only for a valid name.
- **Sidebar photo slots.** The record of photo slots per category, file
  choice, the upload loop and the rows handed to `onSave`.
- **Sidebar display.** The rewrite of a Cloudinary URL to its original
  image, and the rating line.
- **Small widgets.** The star widget, the search box, the comment dialog
  and the visited/remaining counters.

## How the model is organised

One module per source component, plus three shared modules:

- **`Js`:** the JavaScript semantics the code depends on. This covers
  ToInt32 wrap-around, UTF-16 `length`, `trim`, `includes` and `indexOf`,
  `repeat`, decimal numerals, and `%` truncating toward zero.
- **`JsObject`:** objects and `Map`s as insertion-ordered lists of entries.
  Assigning to an existing key keeps its position; a new key goes last.
- **`Sorting`:** the stable sort the export uses.

How the source's code becomes Dafny:

- Code that changes state in place becomes a class whose methods carry
  `modifies` clauses and state the whole new state. This covers the React
  component state, the jsPDF document and a Leaflet layer.
- Loops in the source are `for` or `while` loops with invariants, proved
  against a specification function. These are the two hash loops,
  `validateUsername`, the layout loop, `addHeaderAndFooter`, the
  `layersMap` fill and the upload loop.
- Pure expressions are functions with lemmas.

External services become parameters of the operations that use them:

- **Backend:** the Supabase reply to a login or a query.
- **Upload service:** the Cloudinary reply to an upload, a function of the
  category and the file.
- **Snapshot and images:** the map snapshot data URL, the height jsPDF
  finds for a photo, and the page size.
- **Dates and pointer:** the date parser used by the sort, today's date,
  and whether a mousedown fell inside an element.

## Model

| member | source | states |
|---|---|---|
| Js.ToInt32 | src/components/Map.jsx:17 | the bitwise-or with 0 yields an Int32 congruent to its operand modulo 2^32 |
| Js.Rem | src/components/DatePicker.jsx:44 | JavaScript `%` by a positive divisor takes the sign of the dividend, stays strictly inside the divisor's bounds and differs from the dividend by a multiple of the divisor |
| Js.Trim | src/components/Search.jsx:19 | `trim()` is the slice of the string left once the white space at both ends is removed: everything outside it is white space and neither of its ends is |
| Js.TrimEmptyIff | src/components/Search.jsx:19 | the trimmed input is empty exactly when every character is white space |
| Js.IncludesIff | src/components/Search.jsx:20 | `includes` holds exactly when the pattern occurs at some position |
| Js.IndexOf | src/components/Sidebar.jsx:120 | `indexOf` finds an occurrence with none before it, and reports -1 only when there is no occurrence |
| Js.IncludesIffIndexOf | src/components/Sidebar.jsx:118-120 | `includes` and `indexOf` agree on whether the pattern occurs |
| Js.Repeat | src/components/Sidebar.jsx:171 | `c.repeat(n)` is n copies of c |
| Js.NatToString | src/components/DatePicker.jsx:5 | `toString` of a natural number is a string of digits that denotes that number, with no leading zero for a positive number |
| Js.ReplaceAll | src/App.jsx:242 | `replace(/\//g, '-')` keeps the length and replaces every '/' and nothing else |
| JsObject.GetDefinedIff | src/App.jsx:70 | `visitedCities.get(name)` is defined exactly when name is a key |
| JsObject.SetSpec | src/components/Map.jsx:36 | after `o[k] = v`, k reads v, every other key reads as before, and an existing key keeps its place while a new one goes last |
| JsObject.FromPairsKeys | src/App.jsx:41 | a `Map` built from pairs has distinct keys, in order of first appearance |
| JsObject.FromPairsGet | src/App.jsx:41 | in a `Map` built from pairs, the last pair with a key wins |
| CityColour.StepIsRolling | src/components/Map.jsx:16-17 | one loop step `c + ((hash << 5) - hash)` followed by the or with 0 is `31 * hash + c` wrapped to 32 bits |
| CityColour.HashRange | src/components/Map.jsx:14-18 | the empty name hashes to 0 and every hash is an Int32 |
| CityColour.ColorIndexRange | src/components/Map.jsx:19 | `Math.abs(hash) % 1000` is in 0..999, and the wrap-around hash -2^31 gives 648 |
| CityColour.WrapAroundWitness | src/components/Map.jsx:14-19 | the wrap-around case is reachable: "xfjfxtf" hashes to -2^31 and gets index 648 |
| MapView.GetColorfulColor | src/components/Map.jsx:13-21 | the live map's loop over UTF-16 code units computes the colour index of the name |
| MapView.BaseStyleSpec | src/components/Map.jsx:90-98 | opacity is 0.6 exactly for a marked city and 0 otherwise; fill colour is '#48cae4' in single mode and the hash colour otherwise, whatever is marked |
| MapView.HoverEffect | src/components/Map.jsx:48-58 | hovering darkens a marked city in single mode, previews an unmarked one at 0.3, and leaves a marked city in colourful mode alone |
| MapView.HoverThenOutRestores | src/components/Map.jsx:48-69 | mouseover then mouseout restores the base style in every mode and selection |
| MapView.Layer.MouseOver | src/components/Map.jsx:48-58 | the layer's style becomes the hovered style and its tooltip opens |
| MapView.Layer.MouseOut | src/components/Map.jsx:59-69 | the layer's style becomes the unhovered style and its tooltip closes |
| MapView.Layer.Click | src/components/Map.jsx:70-73 | a click closes the tooltip, keeps the style and reports the layer's name |
| MapView.BuildLayersMap | src/components/Map.jsx:31-40 | the `eachLayer` loop builds the object the pairs (name, layer) define |
| MapView.LayersMapSpec | src/components/Map.jsx:33-37 | one entry per distinct feature name, in order of first appearance, and a later layer with the same name wins |
| Sorting.SortBySorted | src/App.jsx:166 | the sort orders records by key |
| Sorting.SortByPermutes | src/App.jsx:166 | the sort keeps every record exactly as often as it occurs |
| Sorting.SortByStable | src/App.jsx:166 | records with equal keys keep their relative order |
| Visits.KeepExportable | src/App.jsx:165 | every kept record has a truthy date and photo |
| Visits.KeepExportableCounts | src/App.jsx:165 | the filter keeps exactly the records with a date and a photo, each as often as it occurs |
| Visits.ExportListSpec | src/App.jsx:164-166 | the content list is ordered by date and holds exactly the visited records with both a date and a photo, with their multiplicities |
| Visits.ExportListStable | src/App.jsx:166 | records with the same date keep their order in the visited map |
| Visits.ExportListEmpty | src/App.jsx:164-168 | the content list is empty exactly when no visited record has both a date and a photo |
| Export.GetColor | src/App.jsx:124-130 | the export's own hash loop computes the same colour index |
| Export.ColoursAgree | src/App.jsx:124-130 | the live map and the cover map give every city the same index, and it is below 1000 |
| Export.CoverStyleSpec | src/App.jsx:131-139 | on the cover a city is filled (0.6) exactly when it is a key of the visited map, and always takes the colourful-mode hash colour |
| Export.RenderDocument | src/App.jsx:205-241 | drawing the cover, laying out the content and stamping the pages fails exactly when some photo's size cannot be read; otherwise it produces the export's pages |
| Export.ExportPagesSpec | src/App.jsx:194-241 | the document has the cover, one content page and one page per break; every page i of N ends in the title and "第 i 页 / 共 N 页" |
| Export.FileName | src/App.jsx:242 | the date part of the file name holds no '/' |
| Pdf.Document.constructor | src/App.jsx:174 | a new document is one empty, current page |
| Pdf.Document.AddPage | src/App.jsx:217 | a new empty page goes at the end and becomes current |
| Pdf.Document.SetPage | src/App.jsx:197 | page n of 1..N becomes current and no page changes |
| Pdf.Document.Draw | src/App.jsx:230-236 | a draw call appends one item to the current page only |
| Pdf.PlaceSpec | src/App.jsx:224-237 | a page is added and y reset to the margin exactly when `y + 15 + h > height - margin`; y then advances by h + 25; the city's four items go at the end of the current page and no earlier page changes |
| Pdf.PhotoFits | src/App.jsx:224-237 | a photo that fits on an empty page ends above the bottom margin; a taller one is drawn anyway, on a fresh page |
| Pdf.LayoutPages | src/App.jsx:216-239 | layout adds exactly one page per break and leaves every earlier page alone |
| Pdf.BlankFirstPage | src/App.jsx:216-228 | a first photo too tall for an empty page leaves the first content page blank |
| Pdf.Heights | src/App.jsx:220 | the photo heights line up with the records, or some photo's height cannot be read |
| Pdf.DrawCity | src/App.jsx:224-237 | one pass of the loop body changes the document and y exactly as the break rule says |
| Pdf.LayoutContent | src/App.jsx:216-239 | the loop succeeds exactly when every photo's height can be read, and then leaves the document the layout describes |
| Pdf.AddHeaderAndFooter | src/App.jsx:194-202 | every page gets the title and its own label, N being the final page count |
| Pdf.StampedLabels | src/App.jsx:194-202 | each stamped page keeps its items, ends in the title and the label "i of N", and no two pages share a label |
| Pdf.NatToStringInjective | src/App.jsx:200 | different page numbers are written differently |
| App.Toggled | src/App.jsx:65-67 | the new theme is 'light' or 'dark', and differs from a theme that was one of them |
| App.ToggleTwice | src/App.jsx:65-67 | two toggles restore 'light' or 'dark'; any other stored value becomes 'light', then 'dark' |
| App.App.constructor | src/App.jsx:22-29 | a session starts with the stored theme and user, no map data, an empty visited map, a closed sidebar and no export running |
| App.App.ToggleTheme | src/App.jsx:65-67 | only the theme changes, as `toggleTheme` says |
| App.Clicked | src/App.jsx:69-77 | a click on the city the open sidebar shows closes it and keeps the city; any other click opens it on the clicked city with its visited record |
| App.ClickedSpec | src/App.jsx:69-77 | an open sidebar shows the clicked city, marked visited exactly when its name is a key of the visited map; clicking the same city twice opens, then closes |
| App.App.HandleCityClick | src/App.jsx:69-77 | only the sidebar state changes, as `handleCityClick` says |
| App.App.MouseDown | src/App.jsx:33 | a mousedown outside the right column closes the sidebar; one inside changes nothing |
| App.App.HandleLogout | src/App.jsx:95-98 | logging out clears the user and closes the sidebar |
| App.App.FetchVisitedCities | src/App.jsx:36-44 | with a user and rows, the visited map becomes the `Map` of the rows by city name; without a user or when the query fails, nothing changes |
| App.VisitedMapSpec | src/App.jsx:41 | the visited map has one entry per city name, in order of first appearance, holding the last row with that name |
| App.App.HandleExportPdf | src/App.jsx:101-250 | covers every way the export ends. No map data: nothing happens. A failed snapshot, an empty content list or an unreadable photo: the export aborts with `isExporting` false. Otherwise it saves the laid-out and stamped pages under the dated file name, again with `isExporting` false |
| DatePicker.PadSpec | src/components/DatePicker.jsx:5 | `pad` gives '0' and the digit for 0..9, the plain numeral from 10, and never fewer than two characters |
| DatePicker.DaysInMonth | src/components/DatePicker.jsx:8 | `getDaysInMonth` is always 28..31 |
| DatePicker.DaysInMonthGregorian | src/components/DatePicker.jsx:8 | outside years 0..99 it is the Gregorian month length, and February has 29 days exactly in leap years |
| DatePicker.DaysInMonthTwoDigitYear | src/components/DatePicker.jsx:8 | years 0..99 take the month lengths of 1900 plus the year, so year 0 gets a 28-day February although it is a leap year |
| DatePicker.WheelStep | src/components/DatePicker.jsx:41 | the step is -1 exactly when delta is positive, otherwise +1 |
| DatePicker.WheeledChangesOnePart | src/components/DatePicker.jsx:38-52 | a wheel event changes only the part it is over, and the year by exactly one step |
| DatePicker.StepMonthSpec | src/components/DatePicker.jsx:44 | month stepping stays in 1..12, wraps 12 to 1 and 1 to 12, and a forward step then a back step is the identity |
| DatePicker.StepDaySpec | src/components/DatePicker.jsx:45-47 | day stepping stays in 1..days-in-month, wraps at both ends, and a forward step then a back step is the identity |
| DatePicker.DateStringSpec | src/components/DatePicker.jsx:34 | for a four-digit year the emitted string is ten characters, YYYY-MM-DD |
| DatePicker.OptionsSpec | src/components/DatePicker.jsx:83-97 | the popup offers exactly the years 1900..2099, the months 1..12 and the days 1..maxDays |
| DatePicker.CommittedSpec | src/components/DatePicker.jsx:28-36 | after a change the day is at most the month's length, which `maxDays` holds; a day that fits is kept; the unclamped date's string is emitted first, followed by the clamped one's when a clamp happened |
| DatePicker.WheelDaySettled | src/components/DatePicker.jsx:28-52 | wheeling the day of a settled date needs no clamp and emits just the new date |
| DatePicker.Picker.constructor | src/components/DatePicker.jsx:20-36 | mounting settles on the parsed date with its day clamped, and emits its string (and the clamped one) |
| DatePicker.Picker.Effect | src/components/DatePicker.jsx:28-36 | one effect run refreshes `maxDays`, clamps a day past the month's end and emits the date's string |
| DatePicker.Picker.Commit | src/components/DatePicker.jsx:28-36 | `setDate` and the effect runs it causes take the picker to the committed view |
| DatePicker.Picker.HandleWheel | src/components/DatePicker.jsx:38-52 | a wheel event commits the stepped date, and the popup is unchanged |
| DatePicker.Picker.HandlePartClick | src/components/DatePicker.jsx:55 | a click on a part toggles the popup only |
| DatePicker.Picker.MouseDown | src/components/DatePicker.jsx:58-66 | a mousedown outside closes the popup, one inside keeps it |
| DatePicker.Picker.Select | src/components/DatePicker.jsx:84-98 | choosing an option commits the date with that part replaced |
| Auth.WeightCounts | src/components/Auth.jsx:15-23 | the weighted length is the number of code points plus the number of ideographs in U+4E00..U+9FA5 |
| Auth.ValidateUsername | src/components/Auth.jsx:13-36 | the loop's weight and the ordered checks give the verdict and message of the validation rule |
| Auth.ValidateSpec | src/components/Auth.jsx:9-35 | a name is valid exactly when it weighs 2..14 and every character is allowed; too short exactly below 2, too long exactly above 14; the empty name and one non-CJK character are too short whatever the character |
| Auth.WeightBounds | src/components/Auth.jsx:25-30 | long enough means two characters or one ideograph; a valid name has at most 7 ideographs and 14 characters |
| Auth.LoginForm.HandleProceed | src/components/Auth.jsx:45-89 | an invalid name is alerted and never looked up; a valid one is looked up once, then logs in or alerts the backend's message, with `loading` false again |
| Sidebar.PhotoCategoriesDistinct | src/components/Sidebar.jsx:20-25 | the four category ids are scenery, friends, food and lover, all distinct |
| Sidebar.FreshRecordSpec | src/components/Sidebar.jsx:40-44 | a rebuilt record has one slot per stored category, holding that category's last photo and no file, plus `cityName`; its keys are distinct |
| Sidebar.ReducedSpec | src/components/Sidebar.jsx:38-47 | the record is rebuilt exactly when it is empty or belongs to another city, and kept otherwise; a second run for the same city changes nothing |
| Sidebar.WithFileSpec | src/components/Sidebar.jsx:54-57 | the chosen file goes into the named slot, keeping its url; every other entry and the key order are kept |
| Sidebar.UploadStepSpec | src/components/Sidebar.jsx:66-85 | one turn touches only its category's slot: either it uploads that slot's file and stores the new url, or it stops at that one failed request |
| Sidebar.FailureSticks | src/components/Sidebar.jsx:80-84 | after a failure, later categories change nothing |
| Sidebar.UploadKeeps | src/components/Sidebar.jsx:63-86 | the upload loop keeps the record's keys and every entry outside the categories |
| Sidebar.UploadSuccessCalls | src/components/Sidebar.jsx:65-86 | without a failure the loop uploads exactly the chosen files, in category order, and every upload succeeded |
| Sidebar.UploadSuccessSlots | src/components/Sidebar.jsx:65-86 | without a failure each category with a file ends holding its new url and no file, and others are untouched |
| Sidebar.UploadFailure | src/components/Sidebar.jsx:77-84 | with a failure the uploads made are a prefix of the failure-free ones; all but the last succeeded and the last failed |
| Sidebar.PhotosToSave | src/components/Sidebar.jsx:88-90 | there are never more rows than entries |
| Sidebar.PhotosToSaveSpec | src/components/Sidebar.jsx:88-90 | the saved rows are exactly the slots with a truthy url, under their keys; the `cityName` entry is never a row |
| Sidebar.VisitDateField | src/components/Sidebar.jsx:94 | the saved date is null exactly when the date is empty, and the date otherwise |
| Sidebar.FirstPart | src/components/Sidebar.jsx:119-120 | `split('/upload/')[1]` is the text up to the next "/upload/", or to the end when there is none |
| Sidebar.VIndex | src/components/Sidebar.jsx:120 | `substring(indexOf('v'))` starts at the segment's first 'v', and at 0 when there is no 'v' |
| Sidebar.KeptSpec | src/components/Sidebar.jsx:119-121 | the kept text is the segment from its first 'v' on, or all of it without a 'v'; it holds no "/upload/", and keeping it again changes nothing |
| Sidebar.OriginalUrlSpec | src/components/Sidebar.jsx:117-122 | a falsy url or one without "/upload/" comes back unchanged; otherwise the result is the text through the first "/upload/" followed by the segment after it from that segment's first 'v' on |
| Sidebar.OriginalUrlIdempotent | src/components/Sidebar.jsx:117-122 | rewriting an already rewritten url changes nothing |
| Sidebar.RatingLineSpec | src/components/Sidebar.jsx:168-173 | the line shows only for a positive rating; for 1..10 it is ten glyphs with the first `rating` filled; a rating above 10 makes `repeat` throw |
| Sidebar.Panel.constructor | src/components/Sidebar.jsx:28-33 | the initial panel state: empty date and record, scenery tab, not uploading or dragging |
| Sidebar.Panel.Receive | src/components/Sidebar.jsx:35-50 | a city sets the date (or today), runs the record reducer and selects scenery; no city changes nothing else |
| Sidebar.Panel.SelectCategory | src/components/Sidebar.jsx:145 | a tab click makes that category active |
| Sidebar.Panel.SetVisitDate | src/components/Sidebar.jsx:134 | the picker's `onChange` sets the date only |
| Sidebar.Panel.HandleFileChange | src/components/Sidebar.jsx:52-59 | only an image file changes the record, and only the active slot's file |
| Sidebar.Panel.HandleDragOver | src/components/Sidebar.jsx:109 | dragging over sets the drag flag only |
| Sidebar.Panel.HandleDragLeave | src/components/Sidebar.jsx:110 | leaving clears the drag flag only |
| Sidebar.Panel.HandleDrop | src/components/Sidebar.jsx:111 | a drop clears the drag flag and handles the first file, if any, as a choice |
| Sidebar.Panel.UploadOne | src/components/Sidebar.jsx:66-85 | one turn of the loop sends the upload it makes and returns the record and failure of the loop step |
| Sidebar.Panel.UploadChosen | src/components/Sidebar.jsx:63-86 | the loop returns the record and failure the upload loop defines, and sends exactly its requests |
| Sidebar.Panel.HandleSave | src/components/Sidebar.jsx:61-100 | a failed upload shows its message and saves nothing; otherwise `onSave` gets the city, the date field and the saved rows once; the panel's record is never updated and uploading ends false |
| StarRating.ClickedSpec | src/components/StarRating.jsx:29-32 | a click clears the rating exactly when the clicked star is the current rating (or 0), sets it otherwise, a second click clears it, and 0..totalStars is kept |
| StarRating.Stars | src/components/StarRating.jsx:40-51 | exactly `totalStars` stars are drawn |
| StarRating.StarsSpec | src/components/StarRating.jsx:40-46 | stars are valued 1..totalStars, star k is filled exactly when k is at most the hover value if nonzero, else the rating; with no hover the first `rating` stars are filled |
| StarRating.Widget.constructor | src/components/StarRating.jsx:20-22 | the rating starts at `initialRating` and the hover at 0 |
| StarRating.Widget.HandleClick | src/components/StarRating.jsx:29-36 | the rating becomes the clicked rating, and `onRate`, when given, receives it once |
| Search.Matching | src/components/Search.jsx:20 | the filter keeps exactly the names containing the pattern |
| Search.MatchingOrder | src/components/Search.jsx:20 | the filter keeps the names' order and their distinctness |
| Search.ResultsSpec | src/components/Search.jsx:19-25 | a blank input finds nothing; any other finds exactly the layer names containing the trimmed input, in key order, without duplicates |
| Search.SearchBox.HandleInputChange | src/components/Search.jsx:15-26 | the raw input is stored and the results are those of the trimmed input |
| Search.SearchBox.HandleItemClick | src/components/Search.jsx:29-35 | the name goes to `onCitySelect` once, and the query and results are emptied |
| Search.SearchBox.MouseDown | src/components/Search.jsx:38-50 | an outside mousedown clears the results and keeps the query |
| CommentModal.CounterSpec | src/components/CommentModal.jsx:58-60 | past 200 UTF-16 units the counter is flagged, which takes more than 100 characters and always happens past 200; for text without astral characters, flagged iff more than 200 characters |
| CommentModal.Dialog.Render | src/components/CommentModal.jsx:24-30 | when the open flag or the city name changed and the dialog is open on a city, the draft becomes its comment or '' and its rating or 0; otherwise the draft is kept |
| CommentModal.Dialog.SetComment | src/components/CommentModal.jsx:44 | typing sets the draft comment only |
| CommentModal.Dialog.OnRate | src/components/CommentModal.jsx:55 | a rating from the stars updates only the draft rating |
| CommentModal.Dialog.HandleSave | src/components/CommentModal.jsx:13-17 | closed or without a city nothing happens; otherwise one `onSave` with the name and the draft, then one `onClose` |
| CommentModal.Dialog.HandleCloseWithoutSave | src/components/CommentModal.jsx:19 | `onClose` without `onSave` |
| CommentModal.Dialog.MouseDown | src/hooks/useOnClickOutside.js:12-17 | a mousedown outside the shown dialog closes it without saving; otherwise nothing happens |
| Stats.RemainingCount | src/components/Stats.jsx:5 | remaining is 0 with no cities; otherwise visited plus remaining is the total; never negative while visited is at most the total |
| Stats.RemainingSpec | src/components/Stats.jsx:5 | visited plus remaining is the total, one more visit leaves one fewer, and remaining never exceeds the total |

## Left out

**Backend and network**
- The Supabase queries are left out because the backend is foreign code. This covers the user lookup and creation, the visited-city select, upsert and delete, and `supabaseClient.js`. The replies are inputs (`Auth.Reply`, the rows of `FetchVisitedCities`).
- `handleSaveCity` and `handleUnmarkCity` in App.jsx are left out, and so is the confirm-and-forward `handleUnmarkCity` in Sidebar.jsx. They are backend writes, refetches and a browser confirm dialog.
- The Cloudinary POST is modelled as a function from (category, file) to a reply. Network timing and form-data encoding are not modelled.

**The PDF export**
- The off-screen Leaflet map, `html2canvas` and the 500 ms delay are left out. Only their result is modelled: a data URL or a failure.
- jsPDF's font loading, font sizes and colours are left out, because they do not change the layout.
- Image aspect-ratio arithmetic is left out. Photo and map heights and the page size are inputs.
- Pdf.PlaceSpec: the layout's `y`, its offsets and the break test at App.jsx:225 are exact `real` arithmetic. JavaScript computes them in IEEE doubles, so rounding at the break boundary is not modelled.
- The d3 colour scale is left out. The colour model stops at the integer index in 0..999.
- The alert messages of the export are not modelled. The outcome datatype names each exit path instead.

**Dates and locale**
- Date parsing is left out because it depends on the locale and time zone. This covers `parseDate`, `new Date(visit_date)` in the sort comparator (a parameter), `toLocaleDateString` and "today" (both inputs).
- The picker's `value` prop effect (DatePicker.jsx:26) is left out. The constructor takes the parsed date.
- Dates that parse to NaN are not modelled.

**Browser and DOM**
- Event listener registration is reduced to the state change an event causes. This covers the DOM, the outside-click hook and `preventDefault`.
- `localStorage` persistence and the `dark` class on the root element are left out.
- `URL.createObjectURL` display sources and the lightbox call are left out.
- The browser's enforcement of `maxLength` on typing in the comment box is left out. Programmatic values can be longer, so the counter is modelled for any length.

**Render-only and unwired code**
- ImageModal, NotificationModal and ThemeToggle are left out: they render markup only.
- The wiring between components is not modelled. Each component is modelled on its own:
  - Sidebar calls `onSave(payload, photos)`, but `handleSaveCity` takes one argument.
  - App passes neither `colorMode` to the map nor `onCommentClick` to the sidebar.

**Component behaviour**
- StarRating.Widget: `hoverRating` is never changed, because `Star` does not pass `onMouseEnter`/`onMouseLeave` on to the svg, so the hover handlers cannot fire.
- StarRating.Widget.constructor: models the mount only. The `useState(() => setRating(initialRating), …)` at StarRating.jsx:25-27 runs once and ignores later `initialRating` values.
- Sidebar.Panel.HandleSave: models the evident intent of the catch block at Sidebar.jsx:80-84, a toast with the message and `isUploading` reset.
  - As written, `toast` is not defined in the file, so `toast.error` throws a ReferenceError.
  - That leaves `isUploading` true and the rejection unhandled.

**JavaScript semantics**
- String keys are ordered by insertion only. JavaScript's ordering of integer-like keys first is not modelled, because keys here are city names and category ids.
- Strings are sequences of code points. `trim` and `includes` work on them directly, which agrees with JavaScript for well-formed strings. `length` counts UTF-16 code units.

**Behaviour as written**
- Sidebar.OriginalUrlSpec: the 'v' the rewrite starts from is the first 'v' of the segment. That may fall inside a transformation name rather than at the version. The model states what the code does, and its contract names that first 'v'.
