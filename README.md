# Reading-progress tracker: a Dafny model

The tracker follows a group of participants through a 604-page text. The
server keeps the participants in a list in memory. For each one it derives
three things from the current page: the section (surah) that holds the page,
the division (juz) from 1 to 30, and the percentage read. The client sorts
the participants by progress and puts badges on the cards: leader, second
and lagger. It also refuses to send a page outside 1..604.

This project models these pieces and proves their properties:

- `js.dfy`, module `JsBuiltins`: the JavaScript built-ins the logic relies on.
  - `Number(x) || fallback` is `OrElse`.
  - `String.prototype.trim` removes exactly the characters of ECMAScript's
    WhiteSpace and LineTerminator productions.
  - `Array.prototype.join` is `Join`.
  - A JavaScript number is `Number`: either `NaN` or an integer.
- `surahs.dfy`, module `Surahs`: the section lookup over any well-formed
  table; the division and progress metrics.
  - `FindSurahEntryIn` is `findSurahEntry`'s loop, proved against the
    reference definition `LastAtMost`.
  - Progress is a whole number of tenths of a percent.
- `surah_table.dfy`, module `SurahTable`: the server's 100-row `SURAH_STARTS`
  table, the proof that it is well formed, and `findSurahEntry`, `getSurah`
  and `getSurahArabic` over it.
- `store.dfy`, module `UserStore`: the server module's state as a class
  `Store`. It holds a `seq` of records and, as a constant, the section table
  (`SURAH_STARTS`). Its methods are the effects of the GET, POST,
  PUT and DELETE handlers on the list. Pure functions describe the new list
  after each change, and lemmas about those functions state what changes and
  what does not.
- `ranking.dfy`, module `Ranking`: the client's ranking logic.
  - `maxProgress`, `minProgress` and `secondMax`.
  - The stable descending sort into the display order.
  - The badges on each card.
  - The page guard in `updatePage`.

A handler's error response is modelled as `None`: "Name required" for
create, "Not found" for update and delete. The server does not range-check
the page it receives in an update. A page above 604 is therefore stored as
it is. The section lookup clamps such a page, but the division and progress
are computed from the raw page. The model keeps this behaviour
(`UserStore.ViewOf`).

The section table has 100 rows. The lookup scans it linearly from the
front and stops at the first row that starts after the page. It clamps the
page to 1..604 first, and `NaN` and 0 become page 1.

## Model

| member | source | states |
|---|---|---|
| `JsBuiltins.OrElse` | server/index.js:205 | `NaN` and 0 give the fallback and any other number is kept; so the result is non-zero whenever the fallback is |
| `JsBuiltins.TrimSpec` | server/index.js:186 | trimming yields a contiguous piece of the name, and everything cut from either end is whitespace; the piece is empty exactly when the name is blank; otherwise it starts and ends with a non-blank |
| `JsBuiltins.Trim` | server/index.js:186 | `name.trim()`: strips the leading and then the trailing whitespace; what the result is is stated by `JsBuiltins.TrimSpec` |
| `JsBuiltins.Join` | server/index.js:156-157 | a single name comes back unchanged; the first name always begins the joined text |
| `JsBuiltins.JoinLength` | server/index.js:156-157 | the length of the joined text is the total length of the names plus one separator length for each pair of neighbours |
| `JsBuiltins.JoinSnoc` | server/index.js:156-157 | joining one more name appends the separator and that name |
| `Surahs.ClampPage` | server/index.js:142 | the page used lies within 1..604; `NaN`, 0 and numbers below 1 become 1; numbers above 604 become 604; a page in range is kept |
| `Surahs.IncreasingPairwise` | server/index.js:38-139 | in a table whose neighbouring start pages rise, any earlier row starts before any later row |
| `Surahs.LastAtMost` | server/index.js:144-149 | the reference choice of row: it starts on or before the page, and every later row starts after it |
| `Surahs.LastAtMostUnique` | server/index.js:145-149 | any row with that property is the one chosen |
| `Surahs.LastAtMostMonotone` | server/index.js:146-149 | for p1 <= p2 the row chosen for p1 comes no later than the row chosen for p2 |
| `Surahs.EndOf` | server/index.js:151-152 | the end page of a row: one before the next row's start, or 604 for the last row; `Surahs.SectionsTile` states that these ends tile the text |
| `Surahs.Describe` | server/index.js:150-159 | the record built from a row: the names and the Arabic names each joined with " / ", then the start and the end page; `Surahs.SectionsTile` and `Surahs.ContainsIffSelected` state its properties |
| `Surahs.SectionsTile` | server/index.js:152-153 | in a well-formed table the first section starts on page 1; each section ends one page before the next one starts; no section is empty; the last one ends on page 604 |
| `Surahs.ContainsIffSelected` | server/index.js:145-153 | a page in 1..604 lies between a row's start and end exactly when that row is the one chosen for it |
| `Surahs.FindSurahEntryIn` | server/index.js:141-160 | the front-to-back scan with early exit returns the chosen row's joined names, start and end; start <= clamped page <= end <= 604 |
| `Surahs.Juz` | server/index.js:33-35 | the division is the exact ceiling of 30 * page / 604 |
| `Surahs.JuzBounds` | server/index.js:33-35 | pages 1..604 fall into divisions 1..30, and page 604 into division 30 |
| `Surahs.JuzMonotone` | server/index.js:33-35 | the division never decreases as the page grows |
| `Surahs.ProgressTenths` | server/index.js:178 | progress in tenths of a percent is within half a tenth of 1000 * page / 604, i.e. the nearest tenth |
| `Surahs.ProgressBounds` | server/index.js:178 | progress is 0 at page 0 and 1000 (100.0%) at page 604, and it rises with the page |
| `SurahTable.Table` | server/index.js:38-139 | `SURAH_STARTS`, row for row: each row's start page, its section names and its Arabic names; `SurahTable.TableValid` states that it is well formed |
| `SurahTable.TableValid` | server/index.js:38-139 | the server's table has 100 rows; it starts on page 1; its start pages rise strictly; its last row starts on page 604 |
| `SurahTable.FindSurahEntry` | server/index.js:141-160 | the lookup over the server's table returns the section that holds the clamped page, and that section ends within the text |
| `SurahTable.GetSurah` | server/index.js:162-164 | the name is the joined names of the row chosen for the clamped page |
| `SurahTable.GetSurahArabic` | server/index.js:166-168 | the Arabic name is the joined Arabic names of that row |
| `SurahTable.SharedPageExample` | server/index.js:125 | page 591 opens two short sections, both named, joined with " / "; the section starts and ends on that page |
| `UserStore.MaxId` | server/index.js:189 | the largest id is 0 for an empty list; otherwise it is an id of some record and no record has a larger one |
| `UserStore.NextId` | server/index.js:189-191 | the new id is larger than every existing id (1 for an empty list), so it is fresh |
| `UserStore.FindIndex` | server/index.js:212 | `users.findIndex`: -1 exactly when no record has the id; otherwise the index of the first record with it, which is also the record `users.find` picks at server/index.js:202 |
| `UserStore.Created` | server/index.js:189-195 | the list after a create; stated by `UserStore.CreatedSpec` |
| `UserStore.WithPage` | server/index.js:205 | the list after an update of one record's page; stated by `UserStore.WithPageSpec` |
| `UserStore.RemovedAt` | server/index.js:214 | the list after `splice(k, 1)`; stated by `UserStore.RemovedAtSpec` and `UserStore.RemovedAtUnique` |
| `UserStore.CreatedSpec` | server/index.js:189-195 | a create appends exactly one record with the given name, a fresh id and page 1; all earlier records are unchanged; unique ids stay unique |
| `UserStore.WithPageSpec` | server/index.js:205 | an update changes only the page of one record; its id, its name and every other record are unchanged; unique ids stay unique |
| `UserStore.RemovedAtSpec` | server/index.js:214 | a removal drops exactly one record; the others keep their order; the multiset of records loses just that one; one fewer record carries its id |
| `UserStore.RemovedAtUnique` | server/index.js:212-214 | with unique ids, removing the first record with an id leaves no record with that id, and the ids stay unique |
| `UserStore.ViewOf` | server/index.js:171-179 | over a well-formed table, the listing keeps each record's id, name and page; for a page in 1..604 the division is within 1..30 and progress within 0..1000 |
| `UserStore.Store.constructor` | server/index.js:13-23 | the list starts as the records loaded at start-up; the section table is the server's table and is well formed |
| `UserStore.Store.List` | server/index.js:170-182 | the listing has exactly one entry per record, in the same order; entry k is record k with the fields derived from its page over the store's table |
| `UserStore.Store.Create` | server/index.js:185-198 | a blank name is refused and nothing changes; otherwise exactly one record with the trimmed name, the next id and page 1 is appended |
| `UserStore.Store.Update` | server/index.js:201-208 | an unknown id is refused and nothing changes; otherwise only the first matching record's page changes, and `NaN` or 0 keeps the old page |
| `UserStore.Store.Delete` | server/index.js:211-217 | an unknown id is refused and nothing changes; otherwise the first matching record is spliced out and returned, and the rest keep their order |
| `Ranking.ProgressValues` | client/src/App.jsx:19 | one progress value per user, in order |
| `Ranking.Max` | client/src/App.jsx:22 | the maximum of a non-empty list is one of its values, and no value exceeds it |
| `Ranking.Min` | client/src/App.jsx:34 | the minimum of a non-empty list is one of its values, and no value is below it |
| `Ranking.MaxProgress` | client/src/App.jsx:22 | 0 for no users; otherwise a progress value that no user exceeds |
| `Ranking.MinProgress` | client/src/App.jsx:34 | 0 for no users; otherwise a progress value that no user is below |
| `Ranking.Below` | client/src/App.jsx:27 | the filter keeps exactly the values below the bound |
| `Ranking.SecondMax` | client/src/App.jsx:24-32 | `secondMax`: the largest value below the maximum if it is positive, otherwise none; stated by `Ranking.SecondMaxSpec` |
| `Ranking.SecondMaxSpec` | client/src/App.jsx:24-32 | when present, the second value is a user's progress; it is positive and below the maximum, and no value below the maximum exceeds it; it is absent exactly when all values equal the maximum or every value below the maximum is 0 or less |
| `Ranking.Insert` | client/src/App.jsx:38 | inserting a user gives the same users plus exactly that one, as a multiset |
| `Ranking.InsertSorted` | client/src/App.jsx:38 | inserting into a list sorted by progress keeps it sorted, and the new head is either the inserted user or the old head |
| `Ranking.SortByProgress` | client/src/App.jsx:37-39 | the display is a permutation of the users, sorted by progress from highest to lowest |
| `Ranking.SortStable` | client/src/App.jsx:37-39 | the sort is stable: users with equal progress keep their original relative order |
| `Ranking.BadgesOf` | client/src/App.jsx:67-70 | `isLeader`, `isSecond` and `isLagger` of one card; stated by `Ranking.BadgesSpec` |
| `Ranking.BadgesSpec` | client/src/App.jsx:67-70 | no card is both leader and second; leader marks exactly the highest progress and lagger exactly the lowest; second marks exactly the best positive progress below the highest |
| `Ranking.DisplayEndsBadged` | client/src/App.jsx:37-39 | on a non-empty list the first card of the display is a leader and the last is a lagger |
| `Ranking.PageToSend` | client/src/App.jsx:41-43 | a page is sent exactly when it is a number in 1..604, and it is sent unchanged; otherwise nothing is sent |
| `Ranking.SentPageIsStored` | client/src/App.jsx:42-47 | a page that passes the guard is stored by the server's update as it is and is not clamped by the lookup |

## Left out

- HTTP plumbing is not modelled: the Express set-up, CORS, JSON parsing, routing, status codes and `app.listen`. Each handler is modelled only by its effect on the list and its result. A refusal is `None`.
- File persistence is not modelled: `fs.existsSync`, `readFileSync`, `JSON.parse`, `saveUsers` and their error logging are I/O. The records loaded at start-up are the constructor's argument. Saving has no effect on the list.
- Floating point is replaced by exact integers:
  - Progress is the nearest whole tenth of a percent, standing for `toFixed(1)` of a double. The exact value is never halfway between two tenths: it is always at least 1/302 of a tenth away from a rounding boundary. The error of the double arithmetic is far below that margin for pages of ordinary size, such as every page in 1..604 that the client sends, so no rounding mode needs modelling there.
  - `getJuz` divides by the double `604 / 30`. The model uses the exact ceiling of 30 * page / 604. The exact quotient is either an integer or at least 1/302 away from one, so the double quotient has the same ceiling as long as its rounding error stays below that margin, which again holds for pages of ordinary size.
  - Both margins are fixed, while the error of the double arithmetic grows with the page. The server stores whatever page an update sends, and for huge pages (around 10^14 and beyond) the double results can differ from the exact ones by one. `ProgressTenths` and `Juz` do not model such pages.
  - Numbers too large for a double to hold exactly (beyond 2^53) are not modelled. This covers pages, and also ids, where `MaxId + 1` is exact in the model but would not be in JavaScript.
- Numbers are only `NaN` or integers. Fractional numbers, infinities and the string-to-number conversion `Number(...)` are not modelled. For example, a page of 12.5 passes the client's guard and is stored as it is; the model does not cover that.
- `Store.Create` takes the name as a string, and a missing name is the empty string. A name of another type makes `trim` throw, which is not modelled.
- The `Array.isArray` test in `findSurahEntry` has a fallback for a table row whose names are not an array. The server's table has no such row, so the model's rows always hold lists of names.
- `users.find` returns the stored record object and updates it in place. The model replaces that record in the sequence by value, so aliasing of record objects is not modelled.
- Ids follow the server's JavaScript loose comparison `u.id == req.params.id` only when the path parameter is already parsed as an integer. String-to-number comparison is not modelled.
- The client parts that only render or fetch are not modelled: React state and memoisation, axios calls, the input fields' state, JSX rendering and CSS classes. The `surahFull` field is rendered, but the server never produces it.
- The client reads progress with `Number(u.progress) || 0`. The model takes progress as the server's value directly. The server sends progress as the `toFixed(1)` string of a finite number. `Number` gives that number back, so `|| 0` changes nothing: for "0.0" it yields 0 either way.
