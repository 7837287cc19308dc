# Gallery moderation and reservation wizard — a Dafny model

This project models the logic of a museum web site written in JavaScript.
The back end and the React front end share three concerns.

- **Gallery moderation store** (`GalleryController`). Visitors submit a photo
  with a message. An administrator approves, rejects or deletes it. The public
  page lists the approved photos, and the dashboard counts items per status.
  The SQL table is a class that holds a `map<int, Item>` and an auto-increment
  counter. `NOW()` is a `now` argument.
- **Reservation wizard** (`ReservationWizard`, `DateSelection`, `SlotSelection`,
  `StudentRoster`). This is a six-step form.
  - The page keeps a step counter and a form record.
  - Step 2 draws a month calendar. It asks the occupancy endpoint about every
    day of the month and marks full days.
  - Step 3 offers six fixed time slots.
  - Step 6 takes the attendee roster from a spreadsheet, checks it against the
    declared head count and builds the reservation request.
- **Pages and routing** (`UserGallery`, `AdminGallery`, `Router`).
  - The visitor gallery has a carousel with keyboard control and an upload form.
  - The admin gallery has a status filter, actions offered only for pending
    items, and the reject note.
  - The layout's header and footer rules and the admin route gate live in `Router`.

Code that changes state step by step is a class with `modifies` clauses.
Examples are the handlers that update the table, React state setters and the
wizard counter. Pure expressions are functions with contracts, and the loops
of the source are `while` loops with invariants. Shared helpers sit in
`Wrappers` (Option/Result), `Text` (decimal strings, prefixes, the JavaScript
`\s` class, ASCII lower-casing), `Arith` (floor division facts) and `Sorting`
(ordered insertion, the model of `ORDER BY … DESC`).

JavaScript truthiness is written out where the source relies on it:
- a request-body string counts only when it is present and non-empty (`Given`);
- `admin_id` counts only when it is present and not 0 (`AdminGiven`);
- `x || null` becomes `OrNull` on a request body and `NullIfEmpty` on a form's text.

JavaScript's `%` truncates toward zero. `UserGallery.JsRem` models it, because
Dafny's `%` is Euclidean.

## Model

| member | source | states |
|---|---|---|
| GalleryController.OrNull | backend/controllers/galleryController.js:54 | `v \|\| null`: the stored value is present exactly when the body value is truthy, and then it is that value unchanged |
| GalleryController.ValidPhone | backend/controllers/galleryController.js:41-43 | the phone passes `/^[0-9]{10,11}$/` after every `\s` character is removed: 10 or 11 characters, all decimal digits; `CheckSubmission` applies it only to a truthy phone |
| GalleryController.CheckSubmission | backend/controllers/galleryController.js:32-49 | a submission is accepted iff image and message are truthy and a truthy phone, stripped of `\s`, is 10–11 digits; a missing image or message is reported before the phone; no other reason is given |
| GalleryController.NewItem | backend/controllers/galleryController.js:51-54 | the inserted row: the image and message as sent, name and phone via `\|\| null`, status `pending`; the columns the INSERT leaves out take their defaults (see Left out); `Gallery.Create` states it is the only row added |
| GalleryController.StatusCountsPartition | backend/controllers/galleryController.js:277-284 | the pending, approved and rejected ids together number exactly the rows of the table |
| GalleryController.Gallery.Create | backend/controllers/galleryController.js:27-71 | succeeds iff `CheckSubmission` accepts; on refusal returns 400 with that reason and leaves the table and the counter unchanged; on success inserts exactly one `pending` row under the fresh id `nextId`, with empty name or phone stored as null and the phone stored unstripped |
| GalleryController.Gallery.Approve | backend/controllers/galleryController.js:144-195 | 400 without a truthy admin id, 404 for an absent id, 400 for an already approved row, each with no change; it succeeds exactly when `ApproveAccepted` holds (pending or rejected rows included), and then only that row changes, to `approved` with the admin id and `approved_at` = `updated_at` = now |
| GalleryController.Gallery.Reject | backend/controllers/galleryController.js:198-242 | 400 without a truthy admin id and 404 for an absent id, with no change; otherwise, whatever the prior status, only that row changes: status `rejected`, the admin id, `admin_note \|\| null`, `updated_at` = now; `approved_at` is kept |
| GalleryController.Gallery.Delete | backend/controllers/galleryController.js:245-272 | the table afterwards is the old one without that id; success iff the id was present, 404 with no change otherwise |
| GalleryController.Gallery.Detail | backend/controllers/galleryController.js:111-141 | returns the row iff the id is present, 404 otherwise |
| GalleryController.Gallery.GetStats | backend/controllers/galleryController.js:275-297 | `total` is the number of rows; the three sums are NULL exactly for an empty table, and otherwise count the rows per status and add up to `total` |
| GalleryController.Gallery.GetApprovedGallery | backend/controllers/galleryController.js:4-24 | the result is a permutation of the public view of exactly the approved rows, sorted by `approved_at` descending |
| GalleryController.Gallery.GetAllGalleryItems | backend/controllers/galleryController.js:76-108 | the result is a permutation of the rows with the given status, or of all rows when no truthy status is given, sorted by `created_at` descending |
| Sorting.InsertDesc | backend/controllers/galleryController.js:93 | inserting one row adds exactly that row: one more element, the same multiset plus the row |
| Sorting.InsertDescSorted | backend/controllers/galleryController.js:10 | insertion into a list sorted by descending key keeps it sorted |
| Text.NatToStringRoundTrip | frontend/src/components/Rezervasyon/Step2TarihSecimi.jsx:35 | the decimal rendering of a number reads back as that number |
| Text.IntToStringRoundTrip | frontend/src/components/Rezervasyon/Step2TarihSecimi.jsx:35 | the rendering of any year, a sign before the digits when negative, reads back as it |
| Text.RemoveWhitespace | backend/controllers/galleryController.js:42 | `replace(/\s/g, '')`: the result has no `\s` character, is no longer than the input, and is the input when it had none |
| Text.RemoveWhitespaceSingle | backend/controllers/galleryController.js:42 | one character is removed exactly when it is a `\s` character, and kept otherwise |
| Text.RemoveWhitespaceAppend | backend/controllers/galleryController.js:42 | removal distributes over concatenation, so with the single-character case every other character is kept, in its order |
| Text.ToLower | frontend/src/components/Rezervasyon/Step6OgrenciBilgileri.jsx:29 | same length, each character lowered, and no upper-case ASCII letter is left |
| Text.ToLowerIdempotent | frontend/src/components/Rezervasyon/Step6OgrenciBilgileri.jsx:29 | lower-casing twice is lower-casing once |
| ReservationWizard.InitialForm | frontend/src/pages/RezervasyonPage/index.jsx:11-33 | the initial form has exactly the ten fields `yetkili_ad_soyad`, `kurum_adi`, `il`, `ilce`, `telefon`, `tarih`, `saat_dilimi`, `mekanlar`, `aciklama` and `ogrenciler` (so no `kurum_tipi`), with an empty venue object, an empty roster and every other field `''` |
| ReservationWizard.StepAfter | frontend/src/pages/RezervasyonPage/index.jsx:46-58 | next adds one below step 6, back subtracts one above step 1, a sidebar click moves only to a strictly earlier step; from a step in 1..6 the result is in 1..6 |
| ReservationWizard.RunStaysInRange | frontend/src/pages/RezervasyonPage/index.jsx:35-58 | from a step in 1..6, any sequence of next, back and sidebar clicks on listed steps leaves the counter in 1..6 |
| ReservationWizard.PrevUndoesNext | frontend/src/pages/RezervasyonPage/index.jsx:46-58 | back after next returns to the step below 6 one started from |
| ReservationWizard.RunOfNexts | frontend/src/pages/RezervasyonPage/index.jsx:46-51 | k next presses advance by k, stopping at 6 |
| ReservationWizard.RunOfPrevs | frontend/src/pages/RezervasyonPage/index.jsx:53-58 | k back presses go back by k, stopping at 1 |
| ReservationWizard.Wizard.constructor | frontend/src/pages/RezervasyonPage/index.jsx:10-33 | the page starts on step 1 with the initial form |
| ReservationWizard.Wizard.NextStep | frontend/src/pages/RezervasyonPage/index.jsx:46-51 | the counter becomes `StepAfter(step, Next)` and stays in 1..6 |
| ReservationWizard.Wizard.PrevStep | frontend/src/pages/RezervasyonPage/index.jsx:53-58 | the counter becomes `StepAfter(step, Prev)` and stays in 1..6 |
| ReservationWizard.Wizard.ClickSidebar | frontend/src/pages/RezervasyonPage/index.jsx:152 | the counter changes only for a strictly earlier step, and then to that step |
| ReservationWizard.Wizard.UpdateFormData | frontend/src/pages/RezervasyonPage/index.jsx:60-65 | the field gets the value, the keys grow by at most that field, and every other field keeps its value |
| DateSelection.DaysInMonth | frontend/src/components/Rezervasyon/Step2TarihSecimi.jsx:30 | February has 29 days in a Gregorian leap year and 28 otherwise; April, June, September and November have 30; every other month has 31 |
| DateSelection.Weekday | frontend/src/components/Rezervasyon/Step2TarihSecimi.jsx:75 | `getDay()` lies in 0..6, Sunday being 0 |
| DateSelection.DaysBeforeMonthStep | frontend/src/components/Rezervasyon/Step2TarihSecimi.jsx:69-77 | the cumulative month table advances by the month's length |
| DateSelection.MonthsFillYear | frontend/src/components/Rezervasyon/Step2TarihSecimi.jsx:69-77 | the twelve months add up to the year's 365 or 366 days |
| DateSelection.YearStep | frontend/src/components/Rezervasyon/Step2TarihSecimi.jsx:69-77 | the closed-form day count of a year start advances by the year's length |
| DateSelection.FirstOfNextMonth | frontend/src/components/Rezervasyon/Step2TarihSecimi.jsx:72-75 | the first of the next month lies `DaysInMonth` days after the first of this one |
| DateSelection.NextMonthOffset | frontend/src/components/Rezervasyon/Step2TarihSecimi.jsx:72-75 | the next month's leading blanks are this month's plus its length, mod 7 |
| DateSelection.WeekdayAnchors | frontend/src/components/Rezervasyon/Step2TarihSecimi.jsx:75 | 1 January 1970 is a Thursday (4) and 10 June 2025 a Tuesday (2) |
| DateSelection.IsDatePast | frontend/src/components/Rezervasyon/Step2TarihSecimi.jsx:79-84 | a day is past when it comes before today field by field (year, then month, then day); `PastMeansEarlierDay` shows this is exactly "an earlier day" for real dates |
| DateSelection.PastMeansEarlierDay | frontend/src/components/Rezervasyon/Step2TarihSecimi.jsx:79-84 | for real dates, the field-wise "before today" test holds iff the day comes earlier in time |
| DateSelection.TwoDigits | frontend/src/components/Rezervasyon/Step2TarihSecimi.jsx:35 | a month or day number below 100, padded with `padStart(2, '0')`, is two digits that read back as the number |
| DateSelection.DateKeyRoundTrip | frontend/src/components/Rezervasyon/Step2TarihSecimi.jsx:35 | a `YYYY-MM-DD` key parses back to its date |
| DateSelection.DateKeyInjective | frontend/src/components/Rezervasyon/Step2TarihSecimi.jsx:108 | distinct days have distinct keys |
| DateSelection.FullDaysStep | frontend/src/components/Rezervasyon/Step2TarihSecimi.jsx:34-46 | the table after day n is the table after day n−1, plus day n's entry when its request succeeded |
| DateSelection.DayFull | frontend/src/components/Rezervasyon/Step2TarihSecimi.jsx:40 | `Object.values(saatler).every(saat => saat.dolu)`: every slot of the answer is `dolu`, so an answer with no slots counts as full (`MonthFullDaysMeaning`) |
| DateSelection.LoadFullDays | frontend/src/components/Rezervasyon/Step2TarihSecimi.jsx:25-53 | the loop over days 1..N builds exactly `MonthFullDays` |
| DateSelection.MonthFullDaysMeaning | frontend/src/components/Rezervasyon/Step2TarihSecimi.jsx:38-45 | a day of the month is in the table iff its request succeeded, and it is full iff moreover every slot is `dolu` (so an empty slot map counts as full); a day whose request failed is never full |
| DateSelection.IsDateFull | frontend/src/components/Rezervasyon/Step2TarihSecimi.jsx:86-88 | `doluGunler[tarih] === true`: the key is in the table with the value true; an absent key is not full |
| DateSelection.MonthFullDaysOnlyThisMonth | frontend/src/components/Rezervasyon/Step2TarihSecimi.jsx:34-35 | every key in the table is a day of the displayed month |
| DateSelection.RenderCells | frontend/src/components/Rezervasyon/Step2TarihSecimi.jsx:90-148 | the grid has as many leading blanks as the weekday of the 1st, then one cell per day in order, each carrying that day's key and its past, full and selected flags |
| DateSelection.FillGrid | frontend/src/components/Rezervasyon/Step2TarihSecimi.jsx:101-108 | the two loops emit `startingDayOfWeek` blanks followed by days 1..N in order |
| DateSelection.ColumnOfDay | frontend/src/components/Rezervasyon/Step2TarihSecimi.jsx:188-198 | in the seven-column grid headed Sunday first, each day's cell sits in the column of its weekday |
| DateSelection.CellLook | frontend/src/components/Rezervasyon/Step2TarihSecimi.jsx:121-136 | a past day is drawn past whatever else holds; a day that is not past and full is drawn full; a day neither past nor full is drawn selected exactly when it is the selected day, and open otherwise |
| DateSelection.ClickableLooks | frontend/src/components/Rezervasyon/Step2TarihSecimi.jsx:141 | a cell reacts to a click iff it is drawn selected or open |
| DateSelection.NextMonth | frontend/src/components/Rezervasyon/Step2TarihSecimi.jsx:174-177 | the corrected next-month button: the month index grows by exactly one |
| DateSelection.PrevMonth | frontend/src/components/Rezervasyon/Step2TarihSecimi.jsx:156-159 | the corrected previous-month button: the month index shrinks by exactly one |
| DateSelection.NextPrevInverse | frontend/src/components/Rezervasyon/Step2TarihSecimi.jsx:156-177 | the corrected buttons undo each other |
| DateSelection.SetMonthAsWritten | frontend/src/components/Rezervasyon/Step2TarihSecimi.jsx:157-158 | `setMonth` as written yields a valid date lying `day - 1` days after the first of the target month, so a day beyond the target month's length runs on into the next month; up to the 28th it is that day of the target month |
| DateSelection.SetMonthTarget | frontend/src/components/Rezervasyon/Step2TarihSecimi.jsx:157-158 | the month index passed to `setMonth` carries into the year: the target is the month `12 * year + month0` months after January of year 0 |
| DateSelection.NavigationAsWrittenEarlyInMonth | frontend/src/components/Rezervasyon/Step2TarihSecimi.jsx:156-177 | up to the 28th of a month the buttons as written move by exactly one month |
| DateSelection.NextSkipsFebruaryAsWritten | frontend/src/components/Rezervasyon/Step2TarihSecimi.jsx:174-177 | as written, next from 31 January 2026 shows March |
| DateSelection.PrevStaysAsWritten | frontend/src/components/Rezervasyon/Step2TarihSecimi.jsx:156-159 | as written, previous from 31 March 2026 stays on March |
| DateSelection.DatePicker.constructor | frontend/src/components/Rezervasyon/Step2TarihSecimi.jsx:10-12 | opens on today's month, with the form's date selected and no full days known |
| DateSelection.DatePicker.Load | frontend/src/components/Rezervasyon/Step2TarihSecimi.jsx:15-17 | a load, taken as one atomic step while its month is on display, replaces the table with that month's full-day table; overlapping loads are not modelled (see Left out) |
| DateSelection.DatePicker.ShowNextMonth | frontend/src/components/Rezervasyon/Step2TarihSecimi.jsx:174-177 | the display moves to the next month |
| DateSelection.DatePicker.ShowPrevMonth | frontend/src/components/Rezervasyon/Step2TarihSecimi.jsx:156-159 | the display moves to the previous month |
| DateSelection.DatePicker.ClickDay | frontend/src/components/Rezervasyon/Step2TarihSecimi.jsx:141 | the clicked day's key becomes the selection iff the day is neither past nor full; otherwise the selection stays |
| DateSelection.DatePicker.SyncFromForm | frontend/src/components/Rezervasyon/Step2TarihSecimi.jsx:19-23 | a non-empty form date becomes the selection; an empty one changes nothing |
| DateSelection.DatePicker.Submit | frontend/src/components/Rezervasyon/Step2TarihSecimi.jsx:59-67 | with no selection neither the form nor the step changes; otherwise `tarih` is set and the wizard advances once |
| SlotSelection.SlotsTable | frontend/src/components/Rezervasyon/Step3SaatSecimi.jsx:15-22 | six slots, each a well-formed `HH:MM-HH:MM` key whose title and shown length agree with it; every slot is a proper interval and each ends no later than the next begins |
| SlotSelection.SlotKeysDistinct | frontend/src/components/Rezervasyon/Step3SaatSecimi.jsx:15-22 | no two slots share a key |
| SlotSelection.SlotFull | frontend/src/components/Rezervasyon/Step3SaatSecimi.jsx:45 | `saatDurumu[saat]?.dolu`: a slot is full exactly when its status entry exists and says `dolu`; `NoStatusNothingFull` covers the missing entry of line 78 |
| SlotSelection.NoStatusNothingFull | frontend/src/components/Rezervasyon/Step3SaatSecimi.jsx:78-79 | a slot with no entry in the status map, whatever the map, counts as not full |
| SlotSelection.SlotPicker.constructor | frontend/src/components/Rezervasyon/Step3SaatSecimi.jsx:10-11 | opens with the form's slot selected and no status known |
| SlotSelection.SlotPicker.LoadStatus | frontend/src/components/Rezervasyon/Step3SaatSecimi.jsx:24-42 | with a date and a successful answer the status becomes the answer's; otherwise it is kept |
| SlotSelection.SlotPicker.Select | frontend/src/components/Rezervasyon/Step3SaatSecimi.jsx:44-47 | a slot marked `dolu` leaves the selection unchanged; any other slot becomes the selection |
| SlotSelection.SlotPicker.Submit | frontend/src/components/Rezervasyon/Step3SaatSecimi.jsx:49-54 | with no selection nothing changes; otherwise `saat_dilimi` is set and the wizard advances exactly once |
| StudentRoster.TotalAppend | frontend/src/components/Rezervasyon/Step6OgrenciBilgileri.jsx:10 | the head count of a concatenation of venue lists is the sum of their head counts |
| StudentRoster.Total | frontend/src/components/Rezervasyon/Step6OgrenciBilgileri.jsx:10 | the `reduce((a, b) => a + b, 0)` over the venue counts; `TotalAppend`, `TotalBoundsEach` and `TotalNonNegative` give its meaning |
| StudentRoster.TotalBoundsEach | frontend/src/components/Rezervasyon/Step6OgrenciBilgileri.jsx:10 | with non-negative counts, every venue's count lies between 0 and the total |
| StudentRoster.TotalNonNegative | frontend/src/components/Rezervasyon/Step6OgrenciBilgileri.jsx:10 | non-negative counts give a non-negative total |
| StudentRoster.PartySize | frontend/src/components/Rezervasyon/Step6OgrenciBilgileri.jsx:10 | the head count of an empty venue object is 0 |
| StudentRoster.Pick | frontend/src/components/Rezervasyon/Step6OgrenciBilgileri.jsx:26-29 | `a \|\| b \|\| fallback` over two cells: the first present non-empty cell, else the fallback |
| StudentRoster.RowToStudent | frontend/src/components/Rezervasyon/Step6OgrenciBilgileri.jsx:25-30 | one spreadsheet row becomes one student: each field the Turkish header's cell, else the snake_case one, else ''; the gender defaults to `erkek` and is lower-cased (`GenderNormalised`, `MissingColumnsGiveEmptyFields`) |
| StudentRoster.MapRows | frontend/src/components/Rezervasyon/Step6OgrenciBilgileri.jsx:25-30 | one student per row, in order, each mapped by `RowToStudent` |
| StudentRoster.GenderNormalised | frontend/src/components/Rezervasyon/Step6OgrenciBilgileri.jsx:29 | the mapped gender is never empty and already lower-case |
| StudentRoster.MissingColumnsGiveEmptyFields | frontend/src/components/Rezervasyon/Step6OgrenciBilgileri.jsx:26 | a row without either name header gives an empty name |
| StudentRoster.CountComplete | frontend/src/components/Rezervasyon/Step6OgrenciBilgileri.jsx:191 | the preview count never exceeds the roster length |
| StudentRoster.Complete | frontend/src/components/Rezervasyon/Step6OgrenciBilgileri.jsx:66-68 | a student is complete when both `ad_soyad` and `sinif` are non-empty, the test of line 68 and of the preview at line 191 |
| StudentRoster.CountCompleteAll | frontend/src/components/Rezervasyon/Step6OgrenciBilgileri.jsx:191 | the preview counts every student iff every student has a name and a class |
| StudentRoster.ValidateForm | frontend/src/components/Rezervasyon/Step6OgrenciBilgileri.jsx:61-74 | passes iff the length equals the head count and every student has a name and a class; a wrong length reports the expected count; otherwise it reports the 1-based number of the first incomplete student, all earlier ones being complete |
| StudentRoster.PreviewAgreesWithValidation | frontend/src/components/Rezervasyon/Step6OgrenciBilgileri.jsx:191 | the roster passes validation iff its length and its preview count both equal the head count |
| StudentRoster.TemplateRows | frontend/src/components/Rezervasyon/Step6OgrenciBilgileri.jsx:47-53 | the template has one row per expected student |
| StudentRoster.TemplateRoundTrip | frontend/src/components/Rezervasyon/Step6OgrenciBilgileri.jsx:47-53 | reading the template back gives n students named `Öğrenci 1..n`, class `9-A`, the sample phone and `erkek`, all complete |
| StudentRoster.NoteOf | frontend/src/components/Rezervasyon/Step6OgrenciBilgileri.jsx:92 | `aciklama \|\| ''`: the note when present and non-empty, `''` otherwise |
| StudentRoster.Payload | frontend/src/components/Rezervasyon/Step6OgrenciBilgileri.jsx:82-94 | the request carries the copied fields the form has, unchanged, the defaulted note and the roster unchanged, and no other field |
| StudentRoster.InitialFormHasNoInstitutionType | frontend/src/components/Rezervasyon/Step6OgrenciBilgileri.jsx:85 | a form built from the initial form sends no `kurum_tipi` |
| StudentRoster.UploadedRosterValidation | frontend/src/components/Rezervasyon/Step6OgrenciBilgileri.jsx:25-73 | after an upload of the right length, validation passes iff every row gives a name and a class |
| StudentRoster.RosterForm.constructor | frontend/src/components/Rezervasyon/Step6OgrenciBilgileri.jsx:6-8 | starts from the form's roster, or an empty one, with no file loaded |
| StudentRoster.RosterForm.Upload | frontend/src/components/Rezervasyon/Step6OgrenciBilgileri.jsx:25-38 | a row count different from the head count changes nothing; otherwise the roster becomes the mapped rows and the loaded flag is set |
| StudentRoster.RosterForm.Reset | frontend/src/components/Rezervasyon/Step6OgrenciBilgileri.jsx:144-148 | the roster is emptied and the loaded flag cleared |
| StudentRoster.RosterForm.Submit | frontend/src/components/Rezervasyon/Step6OgrenciBilgileri.jsx:76-94 | nothing is sent before a file is loaded or when validation fails; otherwise exactly the payload is sent |
| UserGallery.JsRem | frontend/src/pages/UserGalleryPage/index.jsx:191 | JavaScript's `%`: the Euclidean remainder for a non-negative dividend; for a negative dividend a remainder in (−n, 0] that differs from the dividend by a multiple of n, which is truncation toward zero |
| UserGallery.NextIndex | frontend/src/pages/UserGalleryPage/index.jsx:189-192 | for an index in [0, n) the result is in [0, n): the next index, or 0 after the last |
| UserGallery.PrevIndex | frontend/src/pages/UserGalleryPage/index.jsx:194-197 | for an index in [0, n) the result is in [0, n): the previous index, or n−1 before the first |
| UserGallery.NextPrevInverse | frontend/src/pages/UserGalleryPage/index.jsx:191-196 | back undoes forward and forward undoes back |
| UserGallery.ForwardByIsAddition | frontend/src/pages/UserGalleryPage/index.jsx:191 | k forward steps from i land on (i + k) mod n |
| UserGallery.FullRound | frontend/src/pages/UserGalleryPage/index.jsx:191 | n forward steps come back to the start |
| UserGallery.Carousel.constructor | frontend/src/pages/UserGalleryPage/index.jsx:160-163 | after loading, the first item is current and full screen is closed |
| UserGallery.Carousel.OpenFullScreen | frontend/src/pages/UserGalleryPage/index.jsx:264 | full screen opens only when there is at least one item |
| UserGallery.Carousel.CloseFullScreen | frontend/src/pages/UserGalleryPage/index.jsx:359 | a click on the backdrop closes full screen |
| UserGallery.Carousel.ShowItem | frontend/src/pages/UserGalleryPage/index.jsx:339 | a thumbnail click makes its item current |
| UserGallery.Carousel.NextItem | frontend/src/pages/UserGalleryPage/index.jsx:189-192 | the index becomes `NextIndex` and stays in range |
| UserGallery.Carousel.PrevItem | frontend/src/pages/UserGalleryPage/index.jsx:194-197 | the index becomes `PrevIndex` and stays in range |
| UserGallery.Carousel.KeyDown | frontend/src/pages/UserGalleryPage/index.jsx:200-205 | outside full screen nothing changes; in it Escape closes it and the arrow keys step the index forward or back |
| Text.NullIfEmpty | frontend/src/pages/UserGalleryPage/index.jsx:41-42 | `s \|\| null` on a text input (also the reject reason): null exactly for the empty string, the string otherwise |
| UserGallery.UploadRequest | frontend/src/pages/UserGalleryPage/index.jsx:26-43 | nothing is sent iff the image or the message is missing; otherwise the request carries both, and the name and phone with empty ones as null |
| UserGallery.UploadMeetsServerChecks | frontend/src/pages/UserGalleryPage/index.jsx:30-43 | a request the form sends is never refused for a missing image or message, is accepted when no phone was typed, and its name and phone are stored as sent |
| AdminGallery.FilterStatus | frontend/src/pages/Admin/Usergallerypage.jsx:66 | an item is kept iff it has the status, and nothing is added |
| AdminGallery.FilterItems | frontend/src/pages/Admin/Usergallerypage.jsx:62-68 | `filterItems`: no longer than the input, and an item is kept iff the filter is `all` or names its status; `FilterAllIsIdentity` and `FilterStatusAppend` fix the order |
| AdminGallery.FilterAllIsIdentity | frontend/src/pages/Admin/Usergallerypage.jsx:63-64 | the `all` filter returns the list unchanged |
| AdminGallery.FilterStatusAppend | frontend/src/pages/Admin/Usergallerypage.jsx:65-66 | filtering works piecewise over a concatenation, so kept items keep their order |
| AdminGallery.FilterStatusSingle | frontend/src/pages/Admin/Usergallerypage.jsx:66 | a single item is kept iff its status matches |
| AdminGallery.FilterStatusKeepsMatching | frontend/src/pages/Admin/Usergallerypage.jsx:66 | a list whose items all have the status is kept whole |
| AdminGallery.FilterIdempotent | frontend/src/pages/Admin/Usergallerypage.jsx:62-68 | filtering a filtered list again by the same value changes nothing |
| AdminGallery.UnknownStatusKeepsNothing | frontend/src/pages/Admin/Usergallerypage.jsx:66 | a filter value naming no status keeps nothing |
| AdminGallery.ActionsOffered | frontend/src/pages/Admin/Usergallerypage.jsx:347 | the approve and reject buttons are drawn exactly for a `pending` item; `OfferedItemsCanBeApproved` links them to the server |
| AdminGallery.OfferedItemsCanBeApproved | frontend/src/pages/Admin/Usergallerypage.jsx:347 | pressing approve on an item that offers the buttons (pending), with the admin id the page sends from whatever it has stored, meets every condition under which the server's `approveGalleryItem` updates the row |
| AdminGallery.RejectNoteStoredAsSent | frontend/src/pages/Admin/Usergallerypage.jsx:113 | the page sends `rejectReason \|\| null`, null exactly for an empty reason, and the server's `admin_note \|\| null` stores that note unchanged |
| AdminGallery.AdminIdOf | frontend/src/pages/Admin/Usergallerypage.jsx:25 | the id sent is the stored non-zero id, and otherwise 1; it is never 0 |
| AdminGallery.PageAlwaysSendsAdmin | frontend/src/pages/Admin/Usergallerypage.jsx:25 | so the server never refuses the page's approve or reject for a missing admin id |
| AdminGallery.AdminGalleryView.constructor | frontend/src/pages/Admin/Usergallerypage.jsx:9 | the page starts with no items and the `all` filter |
| AdminGallery.AdminGalleryView.Load | frontend/src/pages/Admin/Usergallerypage.jsx:28-35 | the loaded items replace the list and the shown list is their filtering by the current filter |
| AdminGallery.AdminGalleryView.SetFilter | frontend/src/pages/Admin/Usergallerypage.jsx:70-72 | the shown list is the loaded list filtered by the new filter |
| Router.HidesHeaderAndFooter | frontend/src/Router.js:38 | `hideHeaderFooter`: the path starts with `/admin`, so `/administrator` matches too (`PrefixMatchExamples`) |
| Router.HidesOnlyFooter | frontend/src/Router.js:41-42 | `hideOnlyFooter`: the path is exactly `/bilgi-yarismasi` or `/rezervasyon` (`ExactFooterMatchExamples`) |
| Router.HeaderShown | frontend/src/Router.js:38-47 | the header is shown iff the path does not start with `/admin` |
| Router.FooterShown | frontend/src/Router.js:41-52 | the footer is shown iff the header is and the path is not exactly `/bilgi-yarismasi` or `/rezervasyon` |
| Router.PrefixMatchExamples | frontend/src/Router.js:38 | `/administrator` also hides header and footer; `/` shows both |
| Router.ExactFooterMatchExamples | frontend/src/Router.js:41-42 | `/rezervasyon` hides only the footer, while `/rezervasyon/` and `/rezervasyon/x` show it |
| Router.AdminSubpathsHideBoth | frontend/src/Router.js:38 | every path below `/admin` hides header and footer |
| Router.ProtectedAdminRoute | frontend/src/Router.js:23-31 | the children are rendered iff stored admin data is present and non-empty; otherwise the browser goes to `/admin/login` |

## Left out

- SQL, the connection pool and the 500 responses. The table is a map, and a failing query is not modelled.
- `getAllGalleryItems` and `getGalleryItemDetail` join the admin's name (`admin_name`) from another table. That table is not part of this model.
- Ids arrive as URL strings. The model takes them as integers already.
- The `status` query parameter is compared exactly. The database collation (which may ignore case) is not modelled.
- Rows with equal sort keys: any order the sorted insertion yields is allowed, as SQL leaves ties unordered.
- Express routing, `backend/server.js`, `backend/routes/gallery.js` and the network wrapper `frontend/src/services/api.js`. They only forward requests.
- Reservation admission, slot conflicts and reservation approval. They are implemented in back-end routes that are not part of this model.
- Spreadsheet parsing and writing, `FileReader`, `alert`, `window.location`, `window.scrollTo` and `localStorage` are browser or library APIs.
  - Rows reach the model already parsed, as maps from header to text.
  - The stored admin data reaches the model as an optional string.
  - The stored admin id reaches the model as an optional number.
- Spreadsheet cells that are numbers rather than text are not modelled. They would have no `toLowerCase`.
- `Text.ToLower`: lower-cases only ASCII letters, while JavaScript's `toLowerCase` covers all of Unicode.
- `StudentRoster.Total`: sums integers. JavaScript's `+` on non-number venue counts (string concatenation) is not modelled.
- `DateSelection.IsDatePast`: compares (year, month, day) against an injected today. The source compares `new Date('YYYY-MM-DD')`, which is UTC midnight, with local midnight. In time zones west of UTC, local midnight is later than UTC midnight, so today counts as past there. At UTC and east of it the field-wise test is exact. The clock and time zone are not modelled.
- `DateSelection.DatePicker.ShowNextMonth` and `DateSelection.DatePicker.ShowPrevMonth` keep the displayed month as a month and use the corrected navigation (see Findings). The source keeps a full `Date`. Its as-written behaviour is modelled separately by `SetMonthAsWritten`.
- Loading flags and spinners (`loading`, `submitLoading`, `actionLoading`), modals, confirmation dialogs, alerts and the progress percentage (a floating-point `Math.round`) are presentation only.
- The About page, the headers and the admin layout are presentational UI.
- Month names and the styling of cells are not modelled. `DateSelection.CellLook` keeps only which of the four looks a cell gets.
- `UserGallery.NextIndex` and `UserGallery.PrevIndex` require at least one item. With none, JavaScript yields `NaN`, but the arrows and full screen are only reachable with items.
- The Step 3 effect runs whenever the form's `tarih` changes. The model has `LoadStatus` take the date and the answer, and does not model when React runs it.
- A slot status entry is modelled by its `dolu` flag alone. A missing flag counts as not full, as `durum.dolu || false` treats it.
- `DateSelection.DatePicker.Load`: a load is one atomic step here. In the source each month change starts a new `loadDoluGunler` run of about 30 sequential requests, and runs started by quick clicks overlap. An earlier run that finishes last can show another month's table, in which no key matches the month on display. That interleaving is not modelled.
- `GalleryController.NewItem`: the INSERT names only the image, message, name, phone and status. The model takes `created_at` as `now` and `admin_id`, `admin_note`, `approved_at` and `updated_at` as NULL. These are the table's column defaults, whose schema is not part of this model.
- `DateSelection.DaysInMonth` and `DateSelection.Weekday` use the proleptic Gregorian calendar for every year. JavaScript's `new Date(y, m, d)` reads the years 0 to 99 as 1900 to 1999, so month lengths and weekdays differ there. Reaching them takes thousands of previous-month clicks.
- The per-day requests of `loadDoluGunler` reach the model as a map from day key to answer. An absent key is one more way the request can fail.

## Findings

| source | as written | input that shows it | evidently intended | confidence | as-written member | corrected member |
|---|---|---|---|---|---|---|
| frontend/src/components/Rezervasyon/Step2TarihSecimi.jsx:174-177 | `setMonth(getMonth() + 1)` on the current day of month overflows into the following month when the target month is shorter | the page opened on 31 January 2026: next shows March 2026, skipping February | show the next calendar month | not executed | DateSelection.NextSkipsFebruaryAsWritten | DateSelection.NextMonth |
| frontend/src/components/Rezervasyon/Step2TarihSecimi.jsx:156-159 | `setMonth(getMonth() - 1)` on the 31st lands on "31 February", which rolls forward into March | the page opened on 31 March 2026: previous stays on March 2026 | show the previous calendar month | not executed | DateSelection.PrevStaysAsWritten | DateSelection.PrevMonth |

`DateSelection.SetMonthAsWritten` models JavaScript's normalising `setMonth`.
`DateSelection.NavigationAsWrittenEarlyInMonth` shows that the buttons are
right up to the 28th. The picker's
`ShowNextMonth` and `ShowPrevMonth` use the corrected `NextMonth` and
`PrevMonth`, which move the month index by exactly one and undo each other
(`DateSelection.NextPrevInverse`).
