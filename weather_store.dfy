/**
 * The weather cache: one weather record per date, the date being the
 * primary key of the table.
 */
module WeatherStore {
  import opened Wrappers
  import opened Domain

  /** Every record is filed under its own date. */
  predicate KeyedByDate(records: map<Date, DateWeather>)
  {
    forall d :: d in records ==> records[d].date == d
  }

  /** findByDate: the record stored under `d`, or nothing when there is none. */
  function FindByDate(records: map<Date, DateWeather>, d: Date): (r: Option<DateWeather>)
    ensures r.Some? <==> d in records
    ensures r.Some? ==> r.value == records[d]
    ensures KeyedByDate(records) && r.Some? ==> r.value.date == d
  {
    if d in records then Some(records[d]) else None
  }

  /** The table after saving `w`: an upsert keyed by the record's date. */
  function Upsert(records: map<Date, DateWeather>, w: DateWeather): (r: map<Date, DateWeather>)
    ensures KeyedByDate(records) ==> KeyedByDate(r)
    ensures r.Keys == records.Keys + {w.date}
    ensures |r| == if w.date in records then |records| else |records| + 1
  {
    records[w.date := w]
  }

  /** After saving `w`, findByDate on its date gives `w`, and every other date gives what it gave before. */
  lemma SaveThenFind(records: map<Date, DateWeather>, w: DateWeather, d: Date)
    ensures FindByDate(Upsert(records, w), d) == if d == w.date then Some(w) else FindByDate(records, d)
  {
  }

  /** Saving the same record twice leaves the table as saving it once. */
  lemma SaveIdempotent(records: map<Date, DateWeather>, w: DateWeather)
    ensures Upsert(Upsert(records, w), w) == Upsert(records, w)
  {
  }

  /** The stored weather table. */
  class DateWeatherRepository {
    var records: map<Date, DateWeather>

    ghost predicate Valid()
      reads this
    {
      KeyedByDate(records)
    }

    constructor ()
      ensures Valid() && records == map[]
    {
      records := map[];
    }

    /** save: stores `w` under its date, replacing any record already there. */
    method Save(w: DateWeather)
      requires Valid()
      modifies this
      ensures Valid()
      ensures records == Upsert(old(records), w)
    {
      records := Upsert(records, w);
    }
  }
}
