# Weather diary: diary store, weather cache and diary service

A Dafny model of the core of a small diary service. Each diary entry carries
a snapshot of the day's weather. The model covers three parts:

- **Weather cache** (`DateWeatherRepository`, module `WeatherStore`): a table of
  weather records keyed by date. The daily refresh (`saveWeatherDate`) writes
  today's record. Diary creation reads the table read-through (`getDateWeather`):
  a cached record is used as is, and a miss falls back to a live fetch that is
  not cached.
- **Diary store** (`DiaryRepository`, module `DiaryStore`): diary entries under a
  generated integer id, with any number of entries per date. It offers lookup
  by date, inclusive lookup over a date range, "first entry of a date", bulk
  delete by date, and save.
- **Diary service** (`DiaryService`, module `Service`): create, read, update and
  delete of diary entries by date. Creation copies the resolved weather fields
  into the new entry by value.

Modelling choices:

- Dates are day numbers (`Domain.Date = int`), so later dates are larger.
- The two repositories are classes whose tables are fields: a `seq<Diary>` in
  stored order and a `map<Date, DateWeather>`. The service holds both as
  `const` fields. Its state-changing operations are methods with `modifies`
  clauses, and its queries are functions that read the tables.
- The live weather fetch is a parameter `fetch: Option<Reading>`. `Some(reading)`
  means a weather record can be built from the API's answer. `None` means it
  cannot: every such case ends in an exception in the source
  (`DiaryService.java:91-102`, `:113-159`). Among the cases:
  - a network error, which turns the body into a placeholder string that the JSON parser rejects;
  - an error body that lacks the `main` or `weather` fields that are read;
  - a temperature written without a fraction, which the JSON parser reads as a
    long integer, so the cast to `double` at line 98 throws;
  - an empty `weather` array, so reading its element 0 at line 154 is out of bounds;
  - a missing category, icon or temperature, a null dereference or unboxing at lines 96-98;
  - a body that is not a JSON object (`null` or an array), failing at line 144 or 151;
  - any other exception while the record is built.
- The clock (`LocalDate.now()`) is a parameter `today`.
- An exception that ends an operation early is a `false` result with nothing
  stored. This covers a failed fetch in `saveWeatherDate` and `createDiary`,
  and `updateDiary` on a date with no entry (a null dereference in the source).
- Result order is a choice of this model. The derived queries name no
  ordering, so in the source their order is whatever the database returns.
  The model returns every query result in stored order, and the "order
  included" statements below are facts about the model.
- Tie-break for `findFirstByDate`: the entry that comes first in stored order.
  Stored order is insertion order. New entries get ids 1, 2, 3, … from a
  counter (`nextId`), and the table invariant keeps ids strictly increasing
  along the table. So the first entry of a date is both the earliest inserted
  and the one with the lowest id (`FirstHasLowestId`). It is also the head of
  `findByDate`'s result.
- The entity classes `zerobase/weather/domain/Diary.java` and
  `zerobase/weather/domain/DateWeather.java` are not part of this model. Their
  fields are taken from the builder calls in `DiaryService.java`. An unsaved
  entity carries `NO_ID` (0), which never names a stored entry.
- Behaviour kept as the Java code has it:
  - `readDiaries` with the start after the end returns an empty list. It is
    not rejected.
  - `updateDiary` on a date with no entry fails. There is no explicit not-found
    signal.
  - A cache miss for a past date returns today's live weather, dated today.
    The model keeps this (`WeatherFromApi` always dates the record `today`).

## Model

| member | source | states |
|---|---|---|
| `DiaryStore.Select` | src/main/java/zerobase/weather/Repository/DiaryRepository.java:13-20 | the derived queries' filter: its result holds exactly the stored entries that pass the filter, each no more often than it is stored (multiset inclusion) |
| `DiaryStore.SelectAppend` | src/main/java/zerobase/weather/Repository/DiaryRepository.java:13-15 | filtering a table with an entry appended gives the old result followed by what the new entry contributes |
| `DiaryStore.SelectKeepsIdsIncreasing` | src/main/java/zerobase/weather/Repository/DiaryRepository.java:19-20 | deleting by a filter keeps stored order, so ids stay strictly increasing |
| `DiaryStore.IndexOfId` | src/main/java/zerobase/weather/Repository/DiaryRepository.java:12 | lookup by primary key: a position holding that id, or none when no stored entry has it |
| `DiaryStore.FindByDate` | src/main/java/zerobase/weather/Repository/DiaryRepository.java:13 | exactly the stored entries dated `d`, and nothing else; each at most as often as stored, and ids stay increasing |
| `DiaryStore.FindAllByDateBetween` | src/main/java/zerobase/weather/Repository/DiaryRepository.java:15 | exactly the stored entries with `dateAfter <= date <= dateBefore` (inclusive at both ends); empty when `dateAfter > dateBefore`; each at most as often as stored, and ids stay increasing |
| `DiaryStore.RangeIsUnionOfDays` | src/main/java/zerobase/weather/Repository/DiaryRepository.java:13-15 | an entry is in the range result iff it is in `findByDate` of some day of the range |
| `DiaryStore.SingleDayRange` | src/main/java/zerobase/weather/Repository/DiaryRepository.java:13-15 | the range from `d` to `d` equals `findByDate(d)`, order included |
| `DiaryStore.FindFirstByDate` | src/main/java/zerobase/weather/Repository/DiaryRepository.java:17 | none iff no stored entry is dated `d`; otherwise a stored entry dated `d`, namely the head of `findByDate(d)` |
| `DiaryStore.FirstHasLowestId` | src/main/java/zerobase/weather/Repository/DiaryRepository.java:17 | tie-break: when ids increase along the table, the first entry of a date has the lowest id among that date's entries |
| `DiaryStore.WithoutDate` | src/main/java/zerobase/weather/Repository/DiaryRepository.java:19-20 | the table after bulk delete holds exactly the entries with a date other than `d`, each at most as often as before, with ids still increasing |
| `DiaryStore.DeleteThenFind` | src/main/java/zerobase/weather/Repository/DiaryRepository.java:19-20 | after deleting `d`, `findByDate(d)` is empty, and every other date's result is unchanged, order included |
| `DiaryStore.AppendThenFind` | src/main/java/zerobase/weather/service/DiaryService.java:64-71 | after a new entry is stored, `findByDate` of its date ends with it, and every other date's result is unchanged |
| `DiaryStore.SelectAgree` | src/main/java/zerobase/weather/Repository/DiaryRepository.java:13-15 | two filters that agree on every stored entry give the same result |
| `DiaryStore.DiaryRepository.Save` | src/main/java/zerobase/weather/Repository/DiaryRepository.java:12 | an entity whose id is stored replaces that entry in place; any other entity is appended under the next id; ids stay unique and increasing |
| `DiaryStore.DiaryRepository.DeleteAllByDate` | src/main/java/zerobase/weather/Repository/DiaryRepository.java:19-20 | the new table is the old one without the entries dated `d`; the id counter is unchanged |
| `WeatherStore.FindByDate` | src/main/java/zerobase/weather/Repository/DateWeatherRepository.java:9 | the record stored under `d`, or none iff there is none; the record found is dated `d` |
| `WeatherStore.Upsert` | src/main/java/zerobase/weather/Repository/DateWeatherRepository.java:8 | saving keeps every record filed under its own date; it adds the record's date to the keys and grows the table only if the date was new |
| `WeatherStore.SaveThenFind` | src/main/java/zerobase/weather/Repository/DateWeatherRepository.java:8-9 | after saving `w`, `findByDate(w.date)` is `w`, and every other date gives what it gave before |
| `WeatherStore.SaveIdempotent` | src/main/java/zerobase/weather/Repository/DateWeatherRepository.java:8 | saving the same record twice gives the same table as saving it once |
| `WeatherStore.DateWeatherRepository.Save` | src/main/java/zerobase/weather/Repository/DateWeatherRepository.java:8 | the new table is the old one upserted with `w`; at most one record per date, each under its own date |
| `Service.KelvinToCelsius` | src/main/java/zerobase/weather/service/DiaryService.java:98 | the result is within half a hundredth (rounding half up) of `kelvin - 273.15` and has two decimal places |
| `Service.KelvinExample` | src/main/java/zerobase/weather/service/DiaryService.java:98 | 300 K is stored as 26.85 °C |
| `Service.WeatherFromApi` | src/main/java/zerobase/weather/service/DiaryService.java:91-102 | a record exists iff the fetch succeeded; it is dated `today` whatever date was asked for, and copies the category and icon; its temperature equals `KelvinToCelsius` of the reading, so it has two decimals and lies within half a hundredth of `kelvin - 273.15` |
| `Service.DiaryService.SaveWeatherDate` | src/main/java/zerobase/weather/service/DiaryService.java:45-50 | on a successful fetch, today's record is stored under `today` and found there afterwards; on failure the cache is unchanged; other dates are unchanged either way |
| `Service.DiaryService.GetDateWeather` | src/main/java/zerobase/weather/service/DiaryService.java:104-111 | on a cache hit, exactly the cached record, whatever the fetch is; on a miss, the live fetch's result; the cache is not written |
| `Service.DiaryService.CreateDiary` | src/main/java/zerobase/weather/service/DiaryService.java:53-66 | succeeds iff the weather resolves; then exactly one entry is appended, with the next id, the date, the text and the resolved weather fields; `readDiary` of that date gains it at the end and other dates are unchanged; on failure nothing is stored |
| `Service.DiaryService.ReadDiary` | src/main/java/zerobase/weather/service/DiaryService.java:69-72 | exactly the stored entries of the date, no id repeated |
| `Service.DiaryService.ReadDiaries` | src/main/java/zerobase/weather/service/DiaryService.java:75-77 | exactly the stored entries of the inclusive range, no id repeated; empty for an inverted range |
| `Service.DiaryService.UpdateDiary` | src/main/java/zerobase/weather/service/DiaryService.java:80-84 | fails iff the date has no entry, leaving the table unchanged; otherwise only the first entry of the date (head of `readDiary`) changes, and only in its text |
| `Service.DiaryService.DeleteDiary` | src/main/java/zerobase/weather/service/DiaryService.java:87-89 | afterwards `readDiary(date)` is empty, every other date reads as before, and the table is the old one without that date |

## Left out

- `getWeatherString` (HTTP request to the weather API, stream reading) is I/O. The parameter `fetch` stands for it.
- `parseWeather` wraps a JSON library that is not part of this model. A parse failure is part of `fetch = None`.
- Service.KelvinToCelsius: uses exact real arithmetic with `Math.round` as "floor of x + 0.5". The rounding error of double subtraction and multiplication is not modelled.
- Transactions (`@Transactional`, `SERIALIZABLE` isolation, rollback) and concurrent callers are left out. The model is sequential, so each operation is atomic.
- The daily `@Scheduled` trigger is left out. `SaveWeatherDate` is the callable refresh.
- Logging and the injected API key are configuration only and are left out.
- The HTTP controller is routing only. Each handler forwards to a service operation.
- DiaryStore.DiaryRepository.Save: an entity with a non-zero id that is not stored is appended under a fresh id. The JPA merge of such a detached entity is not modelled in more detail. The service never saves one.
