# 365 volte ti amo: day selection and content selection

The page shows one phrase and one audio track a day for 365 days, counted from
the launch date 2025-04-24. This project models the logic behind that page, all
of it in `app.js`:

- **Day resolver** (`getDaysSinceStart`). It takes the whole-day difference between
  today's calendar date and the launch date, both as UTC midnights, and clamps it to
  the day indices 0..364. `Calendar` models `Date.UTC` over calendar components,
  with months numbered from 0. Years are counted by adding up year lengths, and a
  lemma shows that this equals ECMAScript's closed form for the first day of a year.
  `DayResolver` holds the resolver itself.
- **Content lookup** (`getContentForDay`). It returns nothing when no catalog is
  loaded. Otherwise it returns the day's phrase and track, and substitutes a fixed
  fallback for each one separately. Catalog entries are `Option`s. A `null` or other
  falsy value and an index past the end of the array both count as missing (`Content`).
- **Navigation** (`nextTrack`, `prevTrack`). These step the day index round the
  365-day cycle using JavaScript's truncating `%` (`Navigation`).
- **Day label** (`updateDayCounter`). It shows "Day n", "Dia n" or "Giorno n" with
  the raw 0-based index, and `undefined` for any other language code (`DayCounter`,
  with the decimal text of `${n}` in `Decimal`).
- **Session state**. The module variables `currentDayIndex`, `currentLanguage`,
  `contentData` and `isPlaying` are the fields of the class
  `Session.ContentSession`. Its methods are the handlers that overwrite them.

Inputs in place of the browser:
- `new Date()` becomes today's local calendar date.
- The browser's time zone becomes an offset in minutes east of UTC.
- The fetch of `content.json` becomes a `LoadOutcome`.
- The audio element's `paused` state becomes a boolean.

The code as written applies `Date.UTC` to the local getters of the launch instant.
The model takes the result to be the UTC midnight of that instant's local day.
That identity is how ECMAScript defines the getters. No inverse of `UtcDay` is
modelled or proved.

Three behaviours of the code differ from what a reader might expect. The model follows the code:
- `getContentForDay` returns `null`, not fallback content, when no catalog is
  loaded (app.js:46).
- `switchLanguage` stores any string, not only "en", "pt" or "it" (app.js:147).
- The launch date is read in local time (see Findings). `Init` stores what the
  resolver as written gives, `DaysSinceStartAsWritten`, at the browser's offset, as
  app.js:181 does. `DaysSinceStart` is the resolver as evidently intended, with the
  launch date 2025-04-24 everywhere. The lemmas about counting days are stated for it.
  The two agree at UTC and east of it, and `Init` says so in its contract.

`getContentForDay` has no side effects, and equal inputs give equal results. The
model gets both for free because it is a Dafny function of the catalog and the index.

## Model

| member | source | states |
|---|---|---|
| `Calendar.DateUtc` | app.js:12-13 | `Date.UTC` of calendar components is a whole number of days in milliseconds, so the later division by a day is exact |
| `Calendar.DayFromYearMatchesFormula` | app.js:12-13 | for every year, counting days year by year from 1970 gives ECMAScript's closed form `365(y-1970) + floor((y-1969)/4) - floor((y-1901)/100) + floor((y-1601)/400)` |
| `Calendar.UtcDayOfValidDate` | app.js:12-13 | for a valid date, `Date.UTC`'s day needs no month carry: it is the first day of the year plus the earlier months plus the day of the month minus one |
| `Calendar.DayNumberAddDays` | app.js:12-15 | the date `k` calendar days after a valid date has a day number exactly `k` higher |
| `Calendar.DayNumberOrder` | app.js:12-15 | for valid dates, calendar order matches the order of day numbers, and equal dates match equal day numbers, in both directions |
| `DayResolver.ClampDay` | app.js:18-19 | `Math.max(0, Math.min(364, d))` is always in 0..364: 0 for `d <= 0`, 364 for `d >= 364`, `d` itself in between |
| `DayResolver.WholeDays` | app.js:15-16 | `Math.floor(timeDiff / 86400000)` multiplied back by a day gives `timeDiff` whenever `timeDiff` is a whole number of days |
| `DayResolver.DaysSinceStart` | app.js:10-20 | the day index for any date is in 0..364 |
| `DayResolver.DaysSinceStartIsClampedDifference` | app.js:12-19 | the day index is the clamped difference between today's day number and the launch date's |
| `DayResolver.OnOrBeforeStartIsDayZero` | app.js:15-19 | every valid date on or before 2025-04-24 gives day 0 |
| `DayResolver.CountsWholeDays` | app.js:12-19 | the date `k` days after launch gives day `k`, for every `k` in 0..364 |
| `DayResolver.LateDatesAreLastDay` | app.js:18-19 | every valid date on or after launch + 364 days gives day 364 |
| `DayResolver.TenDaysAfterStart` | app.js:2-19 | ten days after launch is 2025-05-04, which gives day 10 |
| `DayResolver.DaysSinceStartAsWritten` | app.js:10-20 | the resolver as written, with the launch date read through local-time getters, still stays in 0..364 |
| `DayResolver.AsWrittenAgreesEastOfUtc` | app.js:13 | at any offset from UTC+0 up to but not including UTC+24, the code as written equals the corrected resolver |
| `DayResolver.AsWrittenAheadWestOfUtc` | app.js:13 | at any offset west of UTC, the code as written gives the clamped day difference plus one |
| `DayResolver.AsWrittenLaunchDayInBrazil` | app.js:2-19 | at UTC-3 the code as written gives day 1 on the launch date, where the corrected resolver gives 0 |
| `Content.EntryAt` | app.js:50-55 | reading `entries[i]` gives an entry exactly when `i` is inside the array and the position is filled, and then it gives that entry |
| `Content.OrElse` | app.js:50-55 | the JavaScript "or" of an entry and its fallback is the entry when there is one, else the fallback |
| `Content.ContentForDay` | app.js:45-64 | gives no content exactly when no catalog is loaded. With a catalog, the phrase is `phrases[i]` when present, else the fallback phrase, and the track is `tracks[i]` when present, else the fallback track |
| `Content.FallbacksAreComplete` | app.js:50-62 | both fallbacks define "en", "pt" and "it", and the fallback track plays `silence.mp3` |
| `Content.PhraseIgnoresTracks` | app.js:50-54 | the chosen phrase is the same whatever the tracks array holds |
| `Content.TrackIgnoresPhrases` | app.js:55-62 | the chosen track is the same whatever the phrases array holds |
| `Content.CompleteCatalogGivesCompleteContent` | app.js:48-62 | if every present entry of a catalog has all three languages, so does the content of every day |
| `Content.ShortCatalogFallsBack` | app.js:48-62 | past the end of both arrays, a loaded catalog gives the fallback phrase paired with the fallback track |
| `Navigation.JsRemainder` | app.js:122-129 | JavaScript's `%` agrees with the mathematical remainder on non-negative dividends. On negative dividends it is not positive and differs from the dividend by a multiple of `b`. It always stays strictly between `-b` and `b` |
| `Navigation.NextIndex` | app.js:122 | on a valid index, the next index is valid, is `i + 1`, and wraps 364 to 0 |
| `Navigation.PrevIndex` | app.js:129 | on a valid index, the previous index is valid, is `i - 1`, and wraps 0 to 364 |
| `Navigation.PrevNextInverse` | app.js:121-132 | on a valid index, previous undoes next and next undoes previous |
| `Navigation.ForwardIsModular` | app.js:121-125 | `k` presses of "next" from a valid index give `(i + k) % 365` |
| `Navigation.FullCycleReturns` | app.js:121-125 | 365 presses of "next" return to the starting day |
| `Decimal.NatToDecimal` | app.js:138-140 | the text of a natural number is a non-empty run of digits, with a leading zero only for 0 |
| `Decimal.IntToDecimal` | app.js:138-140 | the text of an integer is non-empty and starts with a minus sign exactly when the integer is negative |
| `Decimal.DecimalRoundTrip` | app.js:138-140 | reading the decimal text of `n` back gives `n` |
| `DayCounter.DayLabel` | app.js:135-142 | there is a label exactly for "en", "pt" and "it": "Day n", "Dia n" and "Giorno n" |
| `DayCounter.LabelShowsRawIndex` | app.js:137-141 | the number after the label's space reads back as the index itself, not the index plus one |
| `DayCounter.DaySevenLabels` | app.js:137-141 | index 7 is labelled "Dia 7", "Day 7" and "Giorno 7" |
| `Session.ContentSession.constructor` | app.js:3-7 | the session starts on day 0, in Portuguese, with no catalog and not playing |
| `Session.ContentSession.FetchContent` | app.js:23-36 | a parsed body becomes the catalog and the result. A failure leaves the catalog as it was, returns nothing and reports the fixed message. Nothing else changes |
| `Session.ContentSession.Init` | app.js:176-222 | start-up sets the day index that the resolver as written gives at the browser's offset. The index is valid, and at UTC or east of it equals the corrected resolver's. It also sets Portuguese, loads the catalog, reports an error exactly on failure, and leaves the playback flag alone |
| `Session.ContentSession.CurrentContent` | app.js:67-68 | the content shown is `getContentForDay` at the current index. There is some exactly when a catalog is loaded, and its phrase and its track are each either an entry of the catalog or the fallback |
| `Session.ContentSession.DayCounterText` | app.js:135-142 | the day counter has a label exactly for "en", "pt" and "it", and the label ends in the decimal text of the current index |
| `Session.ContentSession.NextTrack` | app.js:121-125 | the index becomes the next index, stays valid, and wraps 364 to 0. Language, catalog and playback flag are unchanged |
| `Session.ContentSession.PrevTrack` | app.js:128-132 | the index becomes the previous index, stays valid, and wraps 0 to 364. Language, catalog and playback flag are unchanged |
| `Session.ContentSession.SwitchLanguage` | app.js:146-160 | the language becomes the given string, unchecked. Day index, catalog and playback flag are unchanged, so the content shown is the same, and the day counter becomes the label for the new language |
| `Session.ContentSession.TogglePlay` | app.js:109-118 | a paused player is told to play and the flag becomes true. A playing one is told to pause and the flag becomes false. Nothing else changes |
| `Session.ContentSession.NextThenPrev` | app.js:121-132 | "next" followed by "previous" restores the whole session state |

## Left out

- DOM reads and writes are not modelled. This covers `showError`, `updatePlayButton`,
  writing the phrase, title and audio source in `updateContent`, `updateTranslations`,
  and the language button classes. They are presentation only. The model still
  exposes what they would show: `CurrentContent`, `DayCounterText` and
  `FetchContent`'s error message.
- `fetch` and `response.json()` are network I/O. They become the `LoadOutcome` input.
- A parsed object whose `phrases` or `tracks` is missing or `null` is not modelled.
  Reading an index of it throws a `TypeError`.
- A `phrases` or `tracks` value that is not an array is not modelled. An object keyed
  by index or a string can be indexed without throwing.
- `LoadOutcome`'s `Parsed(None)` stands for a body that parses to `null`. Other falsy
  bodies (`false`, `0`, `""`) also leave `contentData` falsy, so `getContentForDay`
  returns `null` (app.js:46) just as for `Parsed(None)`. They are not modelled as
  separate inputs.
- Truthy catalog entries that are not objects, such as a bare string, are not
  modelled. Entries are either objects or missing.
- `tryAutoplay` is not modelled, and neither are the audio element's `play`, `pause`
  and `ended` listeners. They are asynchronous callbacks driven by the browser's
  media element, so `togglePlay` is modelled as a flag update from a given `paused`
  state. This also means `SwitchLanguage` and the navigation handlers leave
  `isPlaying` alone only in their synchronous part. The autoplay attempt they start
  may change it later.
- The clock and time zone (`new Date()` and the time zone behind the local-time
  getters) are inputs, as explained above.
- `Date.UTC` is modelled without two of its details. It maps years 0..99 onto
  1900..1999, and it gives `NaN` outside ±8.64e15 ms. Neither can happen for a
  present-day clock.
- Time values are exact integers below 2^53, so the floating-point division at
  app.js:16 is modelled as integer division.
- `Decimal.IntToDecimal` does not model JavaScript's exponent notation for
  magnitudes of 1e21 and above. Day indices are at most 364.
- `DayCounter.DayLabel` treats the label object's keys as its only properties.
  Inherited names such as "constructor" would give a non-`undefined` value in
  JavaScript.
- The `init` event wiring and the `DOMContentLoaded` registration are event plumbing.
  `Init` keeps only its state changes.

## Findings

| source | as written | input that shows it | evidently intended | confidence | as-written member | corrected member |
|---|---|---|---|---|---|---|
| app.js:13 | The launch date's year, month and day are read with the local-time getters of the instant 2025-04-24T00:00Z. West of UTC that instant falls on 2025-04-23. | offset -180 minutes (UTC-3) with today 2025-04-24 gives day 1 | the launch date is 2025-04-24 in every time zone (app.js:2 and the comment at app.js:9), giving day 0 | high, not executed | `DayResolver.AsWrittenLaunchDayInBrazil` | `DayResolver.CountsWholeDays` |
