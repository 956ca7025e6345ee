# L&Lui Signature bookings — a Dafny model of the booking core

This project models the decision and pricing logic of the L&Lui Signature
accommodation site, together with the small stores that logic reads and
writes. It then proves properties of that model. The parts covered are:

- stay pricing: the night count, subtotal, commission and total;
- the slug, truncation and label helpers;
- `createReservation`: its ordered checks (lookup, dates, manual blocks,
  confirmed reservations) and its single insert;
- the two reservation update actions, and the lifecycle the admin screen
  enforces;
- promo-code validation, with its ordered rejections and discount, and the
  administration of the `promo_codes` collection;
- the accommodation and pack actions: list-field parsing, slug, `featured`,
  status defaults, soft deletes, pack requests, and the availability upsert;
- the admin availability calendar: toggling the selection, blocking and
  unblocking;
- the pack form: toggling the selection, the empty-selection guard, and
  the `,` join;
- the admin dashboard figures: counts, sums, newest first, the first N.

The files and what they model:

- `common.dfy`: identifiers, day numbers, outcomes, and JavaScript's `||`
  idioms on form fields.
- `text.dfy`: the string built-ins the actions use: `trim`, `toUpperCase`,
  one-character `split`/`join`, the `split/map(trim)/filter(Boolean)` list
  parse, and `Number()` on decimal numerals.
- `lists.dfy`: the selection toggle `prev.includes(v) ? prev.filter(...) : [...prev, v]`.
- `types.dfy`: the status enums and the `accommodations` and `reservations`
  rows.
- `utils.dfy`: `lib/utils.ts`.
- `store.dfy`: the Supabase tables (accommodations, availability,
  reservations) as a class with maps.
- `reservations.dfy`, `accommodations.dfy`, `promo_codes.dfy`, `packs.dfy`:
  the server actions of the same names. Each action that writes is a method
  on the store it changes.
- `availability_manager.dfy`: the calendar component, as a class with the
  `selected` list and the `blocked` set.
- `pack_form.dfy`: the pack form component, as a class with the
  `selectedIds` list.
- `admin_dashboard.dfy`: the three loaders of the dashboard page.

Modelling choices:

- Calendar dates (`yyyy-MM-dd`) are integer day numbers. Timestamps are
  integers, and "now" is a parameter.
- A store call that can fail takes its error as a parameter
  (`storeError: Option<string>`, or a fault flag). The model states what the
  action returns, and what is written, on each path.
- Identifiers are natural numbers handed out by the store (`nextId`).
- A reservation's commission is a `real`, unrounded, as in the source.
- The percent discount of a promo code uses `Math.round` on an integer
  numerator, modelled as rounding half up.

## Model

| member | source | states |
|---|---|---|
| Utils.CountNights | lib/utils.ts:26-28 | check-in plus the night count is check-out; the count is positive exactly when check-out is after check-in, and it never fails |
| Utils.CalculateReservation | lib/utils.ts:42-57 | nights is the night count; subtotal is price times nights; the commission times 100 equals subtotal times rate (no rounding); the total equals the subtotal |
| Utils.CommissionWithinSubtotal | lib/utils.ts:50 | for a non-negative price, a forward range and a rate in [0, 100], the commission lies between 0 and the subtotal |
| Utils.PercentWithin | lib/utils.ts:50 | a rate in [0, 100] percent of a non-negative amount lies between 0 and the amount |
| Utils.PricingAddsUp | lib/utils.ts:48-50 | cutting a stay at any day in between splits its nights, its subtotal and its commission exactly into the two parts |
| Utils.TypeLabel | lib/utils.ts:62-69 | each accommodation type has its own label (`Villa`, `Appartement`, `Chambre`), and each label belongs to exactly one type |
| Utils.PaymentMethodLabel | lib/utils.ts:71-78 | each payment method has its own label (`Orange Money`, `Virement bancaire`, `Espèces`), and each label belongs to exactly one method |
| Utils.ReservationStatusLabel | lib/utils.ts:80-87 | each reservation status has its own label, and each label belongs to exactly one status |
| Utils.PaymentStatusLabel | lib/utils.ts:89-96 | each payment status has its own label, and each label belongs to exactly one status |
| Utils.ReservationStatusColor | lib/utils.ts:98-105 | amber exactly while pending, green exactly when confirmed, red exactly when cancelled |
| Utils.PaymentStatusColor | lib/utils.ts:107-114 | the reservation palette: pending payment has the pending colour, paid the confirmed one, cancelled the cancelled one, and no other status shares them |
| Utils.ReservationStatusLabelsDistinct | lib/utils.ts:80-105 | every reservation status has a non-empty label and colour, and no two statuses share a label |
| Utils.PaymentStatusLabelsDistinct | lib/utils.ts:89-114 | every payment status has a non-empty label and colour, and no two share a label |
| Utils.SliceEnd | lib/utils.ts:135 | the end position of `slice(0, end)` is within the string, and equals `end` for an end inside it |
| Utils.Truncate | lib/utils.ts:133-136 | a string no longer than the maximum comes back unchanged; otherwise it is cut to the first `max` characters (for a non-negative max) and ends with `…`, with length max + 1 |
| Utils.Lower | lib/utils.ts:121 | same length; each character is lower-cased (ASCII and Latin-1 capitals) |
| Utils.DropCombiningMarks | lib/utils.ts:123 | no combining mark is left; every kept character comes from the input; a string without marks is unchanged |
| Utils.KeepSlugSource | lib/utils.ts:124 | only letters, digits, white space and dashes are kept; a string made only of those is unchanged |
| Utils.Nfd | lib/utils.ts:122 | each character becomes one or two characters, so the decomposition is at least as long as the input and at most twice as long |
| Utils.SkipWhitespace | lib/utils.ts:125 | returns a suffix of the input that does not start with white space |
| Utils.HyphenateLeavesNoWhitespace | lib/utils.ts:125 | after each white-space run becomes one `-`, no white space is left and the string is no longer than before |
| Utils.HyphenateSlugChars | lib/utils.ts:125 | once white-space runs become dashes, only `a-z`, `0-9` and `-` remain |
| Utils.HyphenateWithoutWhitespace | lib/utils.ts:125 | a string without white space is unchanged |
| Utils.SkipDashes | lib/utils.ts:126 | returns a suffix of the input that does not start with a dash |
| Utils.CollapseDashes | lib/utils.ts:126 | the result keeps the first character and never has two consecutive dashes |
| Utils.CollapseSlugChars | lib/utils.ts:126 | collapsing dashes brings in no character outside `a-z0-9-` |
| Utils.CollapseDashesOfSingleDashes | lib/utils.ts:126 | a string without a dash run is unchanged |
| Utils.GenerateSlug | lib/utils.ts:119-128 | the slug contains only `a-z`, `0-9` and `-`, has no white space, and never has two consecutive dashes |
| Utils.SlugCharsPassFilters | lib/utils.ts:121-124 | slug characters pass lower-casing, mark removal and the character filter unchanged |
| Utils.NfdOfSlugChars | lib/utils.ts:122 | NFD leaves a string of slug characters unchanged |
| Utils.SlugOfSlug | lib/utils.ts:119-128 | a well-formed slug is its own slug |
| Utils.GenerateSlugIdempotent | lib/utils.ts:119-128 | `generateSlug(generateSlug(s)) == generateSlug(s)` |
| Common.OrNull | actions/packs.ts:93-96 | the `or null` idiom: null exactly when the field is absent or empty, and otherwise the field itself |
| Common.OrElse | actions/packs.ts:58 | the `or fallback` idiom: the field when it is non-empty, the fallback otherwise |
| Text.TrimStart | actions/promo-codes.ts:15 | drops the leading white space only: the result is a suffix that does not start with white space |
| Text.TrimEnd | actions/promo-codes.ts:15 | drops the trailing white space only: the result is a prefix that does not end with white space |
| Text.Trim | actions/promo-codes.ts:15 | the result has white space at neither end, and every character of it comes from the input |
| Text.TrimOfTrimmed | actions/promo-codes.ts:15 | a string with no white space at either end is its own trim |
| Text.TrimIsInfix | actions/promo-codes.ts:15 | trimming removes only white space, from the two ends |
| Text.ToUpper | actions/promo-codes.ts:15 | same length; each character is upper-cased |
| Text.Normalize | actions/promo-codes.ts:15 | the normal form `trim().toUpperCase()` is as long as the trimmed code, so it is empty exactly when the trimmed code is |
| Text.NormalizeIsNormal | actions/promo-codes.ts:15 | the normal form is trimmed and upper case |
| Text.NormalizeOfNormal | actions/promo-codes.ts:63 | a code already in normal form is its own normal form |
| Text.NormalizeIdempotent | actions/promo-codes.ts:15 | normalising twice is normalising once |
| Text.Split | actions/packs.ts:14 | `split(sep)` yields at least one piece |
| Text.SplitAvoids | actions/packs.ts:14 | no piece contains the separator |
| Text.JoinSplit | actions/packs.ts:14 | joining the pieces with the separator gives back the string |
| Text.SplitJoin | components/admin/PackForm.tsx:42 | splitting a join of separator-free pieces gives back the pieces |
| Text.Join | components/admin/PackForm.tsx:42 | `join(sep)` of no parts is empty; otherwise the first part leads and the length is the parts' total plus one separator between each two |
| Text.SplitAround | actions/packs.ts:14 | splitting `a + sep + b` is splitting `a` followed by splitting `b` |
| Text.TrimAndDropEmpty | actions/packs.ts:14 | `map(trim).filter(Boolean)`: every item is non-empty and trimmed, and there are no more items than pieces |
| Text.ParseList | actions/packs.ts:13-16 | every parsed item is non-empty, trimmed, and free of the separator |
| Text.ParseListAround | actions/packs.ts:13-14 | the items before a separator come before the items after it (order is kept) |
| Text.ParseJoin | actions/packs.ts:13-14 | parsing a join of non-empty, trimmed, separator-free items gives back the items |
| Text.ParseListStable | actions/packs.ts:13-14 | re-parsing the join of a parsed list changes nothing |
| Text.DecimalString | actions/packs.ts:94 | a non-empty, trimmed string of digits, with no leading zero |
| Text.ToNumber | actions/packs.ts:94 | `Number()` of a blank field is 0; a decimal numeral reads as a non-negative value |
| Text.DecimalRoundTrip | actions/packs.ts:94 | reading the decimal numeral of `n` gives `n` |
| Text.ToNumberOfDecimal | actions/packs.ts:94 | `Number()` of the numeral of a count is that count |
| Lists.RemoveAll | components/admin/PackForm.tsx:31 | `filter(x => x !== v)`: `v` is gone, every other element is kept, and the multiset of the result is the input's with every `v` removed, so each other element keeps its multiplicity |
| Lists.RemoveAllAppend | components/admin/PackForm.tsx:31 | filtering a concatenation filters each part, so the kept elements stay in their order |
| Lists.Toggle | components/admin/PackForm.tsx:29-33 | `v` is present afterwards exactly when it was absent before; other elements are kept; an absent `v` is appended at the end |
| Lists.ToggleKeepsOthersInOrder | components/admin/PackForm.tsx:29-33 | toggling `v` leaves the order of every other element as it was |
| Lists.ToggleTwice | components/admin/AvailabilityManager.tsx:26-34 | toggling twice restores whether `v` is present, and restores the whole list when `v` was absent |
| Lists.RemoveAllKeepsDistinct | components/admin/PackForm.tsx:31 | removing a value keeps a list free of repeats |
| Lists.ToggleKeepsDistinct | components/admin/AvailabilityManager.tsx:26-34 | toggling keeps a selection free of repeats |
| Reservations.Decide | actions/reservations.ts:15-92 | an unknown accommodation or a failed lookup is refused first, then a range that does not go forward; a request is accepted exactly when the accommodation is found, the range goes forward, no blocked night was found (or that query failed), no confirmed reservation matched the filter as written (or that query failed) and the insert succeeds; the accepted quote is `CalculateReservation` of the accommodation's price and commission rate over the stay, so nights = check-out minus check-in and total = subtotal |
| Reservations.ErrorMessagesDistinct | actions/reservations.ts:21-90 | every refusal has a non-empty message, and no two refusals share one |
| Reservations.NewReservation | actions/reservations.ts:66-85 | the inserted row copies the guest fields, dates, guest count, payment method and user; `notes` is null exactly when empty; subtotal, total and commission are the quote's; both statuses pending and every admin, timestamp and payment column null |
| Reservations.CreateReservation | actions/reservations.ts:8-98 | on a refusal, nothing is inserted and the refusal is returned; on success, exactly one new row is inserted under a fresh id, and every other table is unchanged |
| Reservations.InsertSnapshotsPricing | actions/reservations.ts:66-85 | the inserted row snapshots the accommodation's price and commission rate, with subtotal = price × nights, commission × 100 = subtotal × rate, total = subtotal, and both statuses at their pending defaults |
| Reservations.ChecksInOrder | actions/reservations.ts:21-35 | an unknown accommodation or a non-forward range decides the answer whatever the availability, the reservations and the query and insert faults |
| Reservations.BlockOutsideStayIgnored | actions/reservations.ts:38-48 | blocking a day outside `[check_in, check_out)`, the check-out day included, or a day of another accommodation changes no decision |
| Reservations.BlockInsideStayRefuses | actions/reservations.ts:38-48 | a blocked night inside the stay refuses a forward request on a known accommodation as "dates blocked" |
| Reservations.OnlyConfirmedBlock | actions/reservations.ts:50-55 | adding a reservation that is not confirmed changes no decision |
| Reservations.ConfirmedStayBlocksEveryRequest | actions/reservations.ts:56-60 | with the filter as written, any confirmed forward stay of the accommodation refuses every request that passes the earlier checks, whatever its dates |
| Reservations.OverlapsIffSharesNight | actions/reservations.ts:56 | for two stays of at least one night each, the conjunctive overlap holds exactly when they share a night |
| Reservations.DecideIntended | actions/reservations.ts:51-60 | the decision with the conjunctive overlap: an unknown accommodation is refused; a request is accepted exactly when the accommodation is found, the range goes forward, no blocked night and no overlapping confirmed stay were found (or the query failed) and the insert succeeds; the accepted quote is `CalculateReservation` of the accommodation's price and rate |
| Reservations.IntendedBlocksExactlySharedNights | actions/reservations.ts:51-60 | with the overlap test, a request is refused as already booked exactly when a confirmed stay of the same accommodation shares one of its nights |
| Reservations.AdjacentStay | actions/reservations.ts:56-60 | a request starting on a confirmed stay's check-out day is refused as written but accepted with the overlap test; one sharing its last night is refused by both |
| Reservations.ApplyPatch | actions/reservations.ts:119-122 | each of the eight patchable columns takes the patch's value when the patch names it and keeps its value otherwise; every other column (ids, user, guest fields, dates, price snapshot, commission, payment method, notes, creation time) is never touched |
| Reservations.ApplyEmptyPatch | actions/reservations.ts:119-122 | an update naming no column leaves the row as it was |
| Reservations.StatusPatch | actions/reservations.ts:108-117 | the status is always written; `confirmed_at` only on confirming and `cancelled_at` only on cancelling; a reason only on cancelling with a non-empty reason; nothing about payment |
| Reservations.PaymentPatch | actions/reservations.ts:139-143 | the payment status is always written; the payment date only for `paye`; the reference only for `paye` with a non-empty reference; nothing else |
| Reservations.UpdateWhereId | actions/reservations.ts:119-122 | `.eq('id', id)`: the same ids remain; the row with that id, if any, is patched and every other row is unchanged |
| Reservations.UpdateReservationStatus | actions/reservations.ts:100-130 | on a store error, the error message and no change; otherwise success, and the row with that id (if any) is patched with the status columns |
| Reservations.UpdatePaymentStatus | actions/reservations.ts:132-156 | on a store error, the error message and no change; otherwise success, and the row is patched with the payment columns |
| Reservations.ScreenFollowsLifecycle | components/admin/ReservationActions.tsx:57 | from a pending reservation, confirm or cancel sets the status and its own timestamp and ends the status actions, leaving the payment untouched; marking it paid ends the payment actions |
| Reservations.StatusUpdateOnAnyRow | actions/reservations.ts:108-117 | on a row in any state: confirming stamps `confirmed_at` and leaves `cancelled_at` and the reason; cancelling stamps `cancelled_at`, leaves `confirmed_at`, and replaces the reason only with a non-empty one; the payment columns are untouched |
| Reservations.PaymentUpdateOnAnyRow | actions/reservations.ts:139-143 | a payment status other than `paye` changes only `payment_status`; `paye` also stamps the payment date and records a non-empty reference, keeping the stored one otherwise |
| Reservations.ActionDoesNotCheckPriorStatus | actions/reservations.ts:108-117 | called directly, the action confirms a cancelled reservation, which then carries both timestamps |
| Accommodations.FormRecord | actions/accommodations.ts:11-37 | every form column is copied (partner, name, type, descriptions, capacity, rooms, price, commission rate, location) with the given status; images and amenities are the one-per-line parse of their fields; `featured` holds exactly when the field is `'true'` |
| Accommodations.FormSlug | actions/accommodations.ts:25 | the slug written with the name is the slug of the form's name, well formed, and re-slugging it changes nothing |
| Accommodations.ListFieldsRoundTrip | actions/accommodations.ts:11-18 | images and amenities sent one per line come back as the same lists, in order |
| Accommodations.CreateAccommodation | actions/accommodations.ts:7-48 | on a store error, that message and no change; otherwise one new row from the form, under a fresh id, with the default status |
| Accommodations.UpdateAccommodation | actions/accommodations.ts:50-92 | on a store error, that message and no change; otherwise the row is rewritten from the form, with the status given or `active`; an unknown id updates nothing |
| Accommodations.DeleteAccommodation | actions/accommodations.ts:94-108 | a soft delete: only the status becomes `inactive` |
| Accommodations.DeletedAccommodationStillBookable | actions/accommodations.ts:97-100 | the booking decision ignores the status, so a soft-deleted accommodation is decided exactly as before |
| Accommodations.UpsertRows | actions/accommodations.ts:116-120 | exactly one row per entry, in order, each with the accommodation id, the date and the flag |
| Accommodations.ApplyUpserts | actions/accommodations.ts:122-124 | the keys after the upsert are the old keys plus the keys of the rows |
| Accommodations.UpsertSetsEachKey | actions/accommodations.ts:122-124 | after an upsert with distinct keys, each row's key holds that row's flag |
| Accommodations.UpsertKeepsOthers | actions/accommodations.ts:122-124 | a key no row names keeps its flag |
| Accommodations.UpdateAvailability | actions/accommodations.ts:110-132 | a store error, or a date sent twice, is returned as an error with no change; otherwise the availability becomes the upsert of the rows |
| Accommodations.UpdateAvailabilityEffect | actions/accommodations.ts:116-124 | after a successful upsert, each sent date of the accommodation holds its flag, and every other key is unchanged |
| Accommodations.BlockedNightRefusesBooking | actions/reservations.ts:38-48 | a night blocked through `updateAvailability` refuses every later request whose stay includes it |
| PromoCodes.FindByCode | actions/promo-codes.ts:18-23 | none exactly when no document has the code; a found document is in the store and has that code |
| PromoCodes.RoundHalfUp | actions/promo-codes.ts:39 | `Math.round(x / 100)`: the nearest integer, halves rounded up |
| PromoCodes.RoundHalfUpUnique | actions/promo-codes.ts:39 | the rounding is the only integer within half a unit |
| PromoCodes.DiscountAmount | actions/promo-codes.ts:38-40 | a percent discount is total × value / 100 rounded half up; a fixed one is `min(value, total)` |
| PromoCodes.ValidatePromoCode | actions/promo-codes.ts:11-49 | accepted exactly when the normalised code is non-empty, found, active, not expired and not exhausted; an accepted result carries the normalised code, the stored type and value, and the discount |
| PromoCodes.RejectionOrder | actions/promo-codes.ts:15-36 | the first failing check gives the answer: empty, unknown, inactive, expired, exhausted, each with its own message |
| PromoCodes.OnlyNormalFormMatters | actions/promo-codes.ts:15 | two typed codes with the same normal form get the same answer |
| PromoCodes.UsageLimitBoundary | actions/promo-codes.ts:34 | `used_count == max_uses` is exhausted; `used_count == max_uses - 1` is not |
| PromoCodes.DiscountWithinTotal | actions/promo-codes.ts:38-40 | on a non-negative total, an accepted discount lies in [0, total] (for a percent of at most 100, or a non-negative fixed value) |
| PromoCodes.StoredLimit | actions/promo-codes.ts:75 | `max_uses` is null exactly when the input is null or 0, and otherwise the input |
| PromoCodes.NewPromoCode | actions/promo-codes.ts:69-78 | the added document has the normalised code, the given type, value and expiry, is active with zero uses, created now, and has the stored limit (null for none or 0) |
| PromoCodes.SetActive | actions/promo-codes.ts:85 | only the `active` flag of the documents with that id changes |
| PromoCodes.WithoutId | actions/promo-codes.ts:90 | exactly the documents with another id remain |
| PromoCodes.FindByCodeUnique | actions/promo-codes.ts:18-25 | with distinct codes, looking up a stored code finds its document |
| PromoCodes.FindByCodeAppend | actions/promo-codes.ts:66-69 | a code not yet present is found on the document just added |
| PromoCodes.PromoCodeStore.CreatePromoCode | actions/promo-codes.ts:56-82 | an empty normalised code, a failed lookup, an existing code or a failed insert is refused with no change; otherwise exactly one `NewPromoCode` document is added; codes stay normalised and distinct |
| PromoCodes.PromoCodeStore.TogglePromoCode | actions/promo-codes.ts:84-87 | an existing id has only its `active` flag set; an unknown id (NOT_FOUND) or a failed write fails and changes nothing |
| PromoCodes.PromoCodeStore.DeletePromoCode | actions/promo-codes.ts:89-92 | the documents with that id are removed and the rest kept; a failed delete fails and removes nothing |
| PromoCodes.AppendKeepsWellFormed | actions/promo-codes.ts:63-78 | adding a fresh, normalised, unused code keeps ids fresh and distinct, and codes normalised and distinct |
| PromoCodes.SetActiveKeepsWellFormed | actions/promo-codes.ts:85 | toggling keeps the store well formed |
| PromoCodes.WithoutIdKeepsWellFormed | actions/promo-codes.ts:90 | deleting keeps the store well formed |
| PromoCodes.WithoutIdKeepsDistinct | actions/promo-codes.ts:90 | deleting keeps ids and codes distinct |
| PromoCodes.CreatedCodeValidates | actions/promo-codes.ts:63-78 | a code just created validates, under any case and surrounding white space, with its own discount, while it has not expired and its limit is null or non-negative |
| PromoCodes.AcceptedWhenRedeemable | actions/promo-codes.ts:25-48 | a code whose normal form finds a redeemable document is accepted with that document's discount |
| PromoCodes.DeactivatedCodeRejected | actions/promo-codes.ts:28 | after switching a code off, validating it answers "no longer active" |
| PromoCodes.DeletedCodeRejected | actions/promo-codes.ts:23 | after deleting a code, validating it answers "invalid" |
| Packs.CaughtMessage | actions/packs.ts:36-38 | `e.message || fallback`: the error message when it is non-empty, and exactly the fallback when it is empty |
| Packs.ReadPackFields | actions/packs.ts:12-16 | a missing `accommodation_ids` or `images` field throws on `split`, and a missing name throws in the slug; the form reads successfully exactly when all three are present |
| Packs.PackContentFacts | actions/packs.ts:12-27 | a successful read has the name and pack type as sent, a well-formed slug of the name, the ids parsed from the comma list and the images from the lines, `featured` exactly when the field is `'true'`, an empty short description when absent, and the description or null |
| Packs.PackIdsRoundTrip | actions/packs.ts:13-14 | ids joined with `,` are read back as the same ids, in order |
| Packs.NewRequest | actions/packs.ts:87-103 | status `nouveau` and created now; pack name, names, e-mail and phone copied; event date, message and promo code are null exactly when empty and otherwise the typed text; `guests` is `Number()` of a non-empty field and null otherwise |
| Packs.GuestsField | actions/packs.ts:94 | a decimal guest count is stored as that count; an empty or missing one as null |
| Packs.PackStore.CreatePack | actions/packs.ts:10-39 | a form that throws leaves the store unchanged and returns the message; otherwise a store error gives that message or the fallback, and success adds one `active` pack under a fresh id |
| Packs.PackStore.InsertPack | actions/packs.ts:18-35 | the write of a read form: one new `active` document under a fresh id, or the caught message and no change |
| Packs.PackStore.UpdatePack | actions/packs.ts:41-69 | a form that throws, an unknown id or a store error changes nothing and returns the message; success rewrites the pack with the status given or `active`, keeping its creation time |
| Packs.PackStore.ReplacePack | actions/packs.ts:49-68 | the write of a read form: an unknown id fails, a store error returns the message or the fallback, success rewrites the document |
| Packs.PackStore.DeletePack | actions/packs.ts:71-83 | a soft delete: only the status (`inactive`) and the update time change |
| Packs.PackStore.RequestPack | actions/packs.ts:85-113 | a store error returns the message or the fallback and changes nothing; otherwise one new request with status `nouveau` |
| Packs.PackStore.UpdatePackRequestStatus | actions/packs.ts:115-122 | only the request's status changes; an unknown id fails |
| AvailabilityManager.DaySet | components/admin/AvailabilityManager.tsx:50-51 | the set holds exactly the days of the list |
| AvailabilityManager.Entries | components/admin/AvailabilityManager.tsx:42-45 | one entry per selected day, in order, each with that day and the same flag |
| AvailabilityManager.Calendar.constructor | components/admin/AvailabilityManager.tsx:20-21 | nothing is selected, and the stored unavailable days are blocked |
| AvailabilityManager.Calendar.HandleDayClick | components/admin/AvailabilityManager.tsx:26-34 | the selection is toggled on that day, and stays free of repeats |
| AvailabilityManager.Calendar.BlockSelected | components/admin/AvailabilityManager.tsx:36-58 | an empty selection fails without a call; a failed call changes neither the selection nor the blocked set; a success adds the selection to the blocked set, clears it, and writes every selected day as unavailable |
| AvailabilityManager.Calendar.UnblockSelected | components/admin/AvailabilityManager.tsx:60-82 | the same, with the selection removed from the blocked set and written as available |
| AvailabilityManager.BlockWritesSelection | components/admin/AvailabilityManager.tsx:42-53 | after a block, every selected day of the accommodation is stored as unavailable and every other row is unchanged |
| AvailabilityManager.UnblockWritesSelection | components/admin/AvailabilityManager.tsx:66-77 | after an unblock, every selected day is stored as available and every other row is unchanged |
| PackForm.SubmittedFields | components/admin/PackForm.tsx:41-42 | the form data sent differs from the typed fields only in `accommodation_ids`, which is present |
| PackForm.SubmittedIdsStored | components/admin/PackForm.tsx:42 | the chosen ids are read back by the action as chosen, in order |
| PackForm.AsOutcome | components/admin/PackForm.tsx:45-52 | success exactly when the action succeeded; otherwise the action's error |
| PackForm.Editor.constructor | components/admin/PackForm.tsx:27 | the selection starts as the pack's accommodation ids, or empty for a new pack |
| PackForm.Editor.ToggleAccommodation | components/admin/PackForm.tsx:29-33 | the selection is toggled on that id |
| PackForm.Editor.HandleSubmit | components/admin/PackForm.tsx:35-57 | an empty selection fails with no call and no change; otherwise the ids are joined into the form, and the result and the new packs are those of `createPack` or `updatePack` on it |
| AdminDashboard.CountStatus | app/admin/page.tsx:18 | a count of at most the number of reservations |
| AdminDashboard.Confirmed | app/admin/page.tsx:15 | as many documents as confirmed ones, each confirmed and taken from the input, and every confirmed input document kept |
| AdminDashboard.AwaitingPayment | app/admin/page.tsx:24 | exactly the documents of the input whose payment is `en_attente`: each one kept is awaiting payment, and each awaiting one is kept |
| AdminDashboard.GetAdminStats | app/admin/page.tsx:12-27 | the total is the number of reservations; the pending, confirmed and cancelled counts are the counts of those statuses; they add up to at most the total, and to the total exactly when every status is one of the three |
| AdminDashboard.StatusCountsBounded | app/admin/page.tsx:15-20 | the three counts add up to at most the total, and to exactly the total when every status is one of the three |
| AdminDashboard.PendingWithinCommission | app/admin/page.tsx:23-25 | with non-negative commissions, the returned pending payment lies between 0 and the returned total commission |
| AdminDashboard.OnlyConfirmedCount | app/admin/page.tsx:21-25 | a reservation that is not confirmed changes neither revenue, commission nor pending payment |
| AdminDashboard.ConfirmedAdds | app/admin/page.tsx:21-25 | a confirmed reservation adds its price (0 when missing) to the revenue, its commission to the total commission, and its commission to the pending payment exactly when its payment is `en_attente` |
| AdminDashboard.InsertPermutes | app/admin/page.tsx:33 | inserting into the sorted list adds exactly that element |
| AdminDashboard.InsertOrdered | app/admin/page.tsx:33 | inserting keeps a newest-first list newest first |
| AdminDashboard.NewestFirst | app/admin/page.tsx:33 | the sort is a permutation of its input, newest first |
| AdminDashboard.Take | app/admin/page.tsx:34 | `slice(0, n)`: the first `min(n, length)` elements |
| AdminDashboard.TopNewest | app/admin/page.tsx:31-34 | the first `n` after sorting: at most `n`, newest first, drawn from the input, and nothing left out is newer than anything kept |
| AdminDashboard.RecentReservations | app/admin/page.tsx:29-35 | at most 8 reservations, newest first, drawn from the input, none left out newer than one kept |
| AdminDashboard.CountNew | app/admin/page.tsx:42 | at most the number of requests, and 0 exactly when none is `nouveau` |
| AdminDashboard.GetPackRequestsData | app/admin/page.tsx:37-45 | `nouveau` counts the new requests; `recent` holds at most 5, newest first, drawn from the input, none left out newer than one kept |
| AdminDashboard.CountNewSorted | app/admin/page.tsx:40-42 | sorting in place does not change how many requests are new |
| AdminDashboard.CountNewInsert | app/admin/page.tsx:40-42 | inserting into the sorted list counts the new requests as prepending does |

## Left out

- Sending e-mail, authentication, `revalidatePath` cache invalidation,
  toasts, the `saving`/`isPending` flags and router navigation are left out.
  These are I/O or rendering only.
- Concurrency is not modelled. Each action runs alone, so the
  check-then-insert races in `createReservation` and `createPromoCode` are
  not captured.
- Dates are day numbers and timestamps are integers. `parseISO`,
  `differenceInDays`, `toISOString` and time zones are not modelled.
- Utils.CalculateReservation: amounts are exact (an unbounded integer
  subtotal and a real commission), not IEEE-754 doubles.
- Utils.Lower: lower-casing and NFD cover ASCII and the Latin-1 letters
  only. Other Unicode case mappings and decompositions are not modelled.
- Text.ToUpper: upper-cases the ASCII letters only. JavaScript also
  upper-cases accented and other non-ASCII letters.
- Text.ToNumber: reads plain decimal numerals only. Signs, fractions,
  exponents, hexadecimal and `Infinity` give `NotDecimal`, not their
  JavaScript value.
- Accommodations.FormRecord: the numeric fields (`capacity`, `price_per_night`,
  …) arrive as numbers. The `Number(...)` conversion of the form text is
  not modelled for them.
- Accommodations.CreateAccommodation: the insert does not name `status`. The
  model gives the row `active`, the value the admin screens treat as the
  table's default; the table definition is not part of this model.
- Accommodations.CreateAccommodation: the form's `name`, `images` and
  `amenities` fields are assumed present. When one is missing, `.split` or
  `generateSlug` throws before the insert and the action rejects; the model's
  form holds plain strings, so that rejection is not modelled. Missing
  `description`, `short_description`, `location` or `partner_id` fields
  (written as null) are likewise not modelled. The admin form always sends
  every one of these fields.
- Accommodations.UpdateAccommodation: the same assumption as for
  `CreateAccommodation`. A missing `name`, `images` or `amenities` field makes
  the update reject before the store is called; this is not modelled, and
  neither are null text columns.
- Reservations.NewReservation: the insert writes neither the two statuses
  nor `created_at`. They come from the table's column defaults, taken to be
  `en_attente` and the time of the insert; the table definition is not part
  of this model.
- The reservations table's `nights` column is not written by the insert, so
  it is not modelled.
- Reservations.StatusPatch: `admin_notes` is written only when notes are
  given. An absent `adminNotes` is `undefined`, and the JSON body sent to the
  store drops undefined keys, so the column keeps its value.
- Promo-code redemption (`used_count` increments, discounts on a
  reservation) does not exist in these actions and is not modelled.
  `getPromoCodes` (a sorted listing) is not modelled either.
- `handleDelete` of the pack form (a confirm dialog, then `deletePack`) is
  not modelled. The action `deletePack` itself is modelled.
- AdminDashboard.NewestFirst: every document is assumed to have a
  `created_at`. The dashboard reads the Firestore `reservations` and
  `pack_requests` collections; what writes the reservation documents there
  is not part of this model (`createReservation` inserts into Supabase).
  Documents without one are not modelled, and the relative order of
  documents with equal timestamps is not stated.
- Identifiers generated by the stores are natural numbers taken from a
  counter. The slug is not kept as a stored column: it is always
  `Utils.GenerateSlug` of the stored name.
- Utils.Truncate: lengths and the cut are counted in characters (code
  points). JavaScript's `length` and `slice` count UTF-16 units, so for a
  string with characters outside the Basic Multilingual Plane (emoji) the
  source compares a larger length and may cut a surrogate pair in half:
  `truncate("😀😀", 2)` gives `"😀…"` in the source and `"😀😀"` here.
- PromoCodes.ValidatePromoCode: a failing Firestore query makes the call
  reject with the store's error. The function models only calls the store
  answers. The store methods take the store's error as a parameter.

## Findings

| source | as written | input that shows it | evidently intended | confidence | as-written member | corrected member |
|---|---|---|---|---|---|---|
| actions/reservations.ts:56 | the confirmed-reservation filter `.or(check_in.lt.<check_out>,check_out.gt.<check_in>)` is a disjunction, so it matches every confirmed stay of the accommodation whose check-in is before its check-out | a confirmed stay on days 10–12 and a request for days 12–14 (adjacent), or for days 100–101, is refused with "Ces dates sont déjà réservées" | refuse only when a confirmed stay shares a night: `check_in < req.check_out AND check_out > req.check_in` | not executed | Reservations.ConfirmedStayBlocksEveryRequest | Reservations.IntendedBlocksExactlySharedNights |
