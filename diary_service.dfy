/**
 * The diary service: resolves the weather for a date through the weather
 * cache, falling back to a live fetch, and runs the diary operations over
 * the diary table.
 *
 * The live fetch is a parameter `fetch`: `Some(reading)` when a weather
 * record can be built from the API's answer, `None` when it cannot. `None`
 * covers every exception on the way. Among them: a failed request (its
 * placeholder text does not parse), an error body without the fields read,
 * a temperature written without a fraction (parsed as a long, so the cast
 * to double throws), an empty weather array (the index 0 is out of bounds),
 * a missing category, icon or temperature (a null dereference or unboxing)
 * and a body that is not a JSON object.
 * The clock is a parameter `today`.
 */
module Service {
  import opened Wrappers
  import opened Domain
  import DiaryStore
  import WeatherStore

  /** The fields read from the weather API's answer: the weather category, its icon and the temperature in kelvin. */
  datatype Reading = Reading(main: string, icon: string, kelvin: real)

  /** Kelvin to degrees Celsius, rounded half up to two decimal places. */
  function KelvinToCelsius(kelvin: real): (c: real)
    ensures -0.005 < c - (kelvin - 273.15) <= 0.005
    ensures (c * 100.0).Floor as real == c * 100.0
  {
    ((kelvin - 273.15) * 100.0 + 0.5).Floor as real / 100.0
  }

  /** 300 K is stored as 26.85 degrees Celsius. */
  lemma KelvinExample()
    ensures KelvinToCelsius(300.0) == 26.85
  {
    // (300 - 273.15) * 100 + 0.5 = 2685.5, whose floor 2685 gives 26.85
  }

  /**
   * getWeatherFromApi: a fetched reading becomes a record dated today,
   * whatever date the caller is after; a failed fetch yields nothing.
   */
  function WeatherFromApi(today: Date, fetch: Option<Reading>): (r: Option<DateWeather>)
    ensures r.Some? <==> fetch.Some?
    ensures r.Some? ==> r.value.date == today
    ensures r.Some? ==> r.value.weather == fetch.value.main && r.value.icon == fetch.value.icon
    ensures r.Some? ==> r.value.temperature == KelvinToCelsius(fetch.value.kelvin)
    ensures r.Some? ==> -0.005 < r.value.temperature - (fetch.value.kelvin - 273.15) <= 0.005
    ensures r.Some? ==> (r.value.temperature * 100.0).Floor as real == r.value.temperature * 100.0
  {
    match fetch
    case None => None
    case Some(reading) => Some(DateWeather(today, reading.main, reading.icon, KelvinToCelsius(reading.kelvin)))
  }

  class DiaryService {
    const diaryRepository: DiaryStore.DiaryRepository
    const dateWeatherRepository: WeatherStore.DateWeatherRepository

    ghost predicate Valid()
      reads diaryRepository, dateWeatherRepository
    {
      diaryRepository.Valid() && dateWeatherRepository.Valid()
    }

    constructor (diaryRepository: DiaryStore.DiaryRepository, dateWeatherRepository: WeatherStore.DateWeatherRepository)
      requires diaryRepository.Valid() && dateWeatherRepository.Valid()
      ensures Valid()
      ensures this.diaryRepository == diaryRepository
      ensures this.dateWeatherRepository == dateWeatherRepository
    {
      this.diaryRepository := diaryRepository;
      this.dateWeatherRepository := dateWeatherRepository;
    }

    /**
     * saveWeatherDate: the daily refresh. On a successful fetch, today's record
     * is stored under today's date; on a failed fetch nothing is stored.
     * Records of every other date stay as they were.
     */
    method SaveWeatherDate(today: Date, fetch: Option<Reading>) returns (ok: bool)
      requires Valid()
      modifies dateWeatherRepository
      ensures Valid()
      ensures ok == fetch.Some?
      ensures !ok ==> dateWeatherRepository.records == old(dateWeatherRepository.records)
      ensures ok ==> dateWeatherRepository.records
                     == WeatherStore.Upsert(old(dateWeatherRepository.records), WeatherFromApi(today, fetch).value)
      ensures ok ==> WeatherStore.FindByDate(dateWeatherRepository.records, today) == WeatherFromApi(today, fetch)
      ensures forall d :: d != today ==>
        WeatherStore.FindByDate(dateWeatherRepository.records, d) == old(WeatherStore.FindByDate(dateWeatherRepository.records, d))
    {
      var dateWeather := WeatherFromApi(today, fetch);
      if dateWeather.None? {
        // building the record throws: the refresh ends before anything is saved
        return false;
      }
      dateWeatherRepository.Save(dateWeather.value);
      ok := true;
    }

    /**
     * getDateWeather: a read-through lookup. A cached record is returned as it
     * is, whatever the fetch would give; on a miss the live fetch is returned
     * and is not cached.
     */
    function GetDateWeather(date: Date, today: Date, fetch: Option<Reading>): (r: Option<DateWeather>)
      reads dateWeatherRepository
      ensures date in dateWeatherRepository.records ==> r == Some(dateWeatherRepository.records[date])
      ensures date !in dateWeatherRepository.records ==> r == WeatherFromApi(today, fetch)
    {
      match WeatherStore.FindByDate(dateWeatherRepository.records, date)
      case Some(dateWeather) => Some(dateWeather)
      case None => WeatherFromApi(today, fetch)
    }

    /**
     * createDiary: on success, exactly one entry is appended, with the next
     * identifier, the given date and text and the resolved weather fields;
     * when the weather cannot be resolved, nothing is stored.
     */
    method CreateDiary(date: Date, text: string, today: Date, fetch: Option<Reading>) returns (ok: bool)
      requires Valid()
      modifies diaryRepository
      ensures Valid()
      ensures ok == GetDateWeather(date, today, fetch).Some?
      ensures !ok ==> diaryRepository.entries == old(diaryRepository.entries)
      ensures diaryRepository.nextId == old(diaryRepository.nextId) + (if ok then 1 else 0)
      ensures ok ==>
        var w := GetDateWeather(date, today, fetch).value;
        var created := Diary(old(diaryRepository.nextId), date, w.weather, w.icon, w.temperature, text);
        && diaryRepository.entries == old(diaryRepository.entries) + [created]
        && ReadDiary(date) == old(ReadDiary(date)) + [created]
        && forall d :: d != date ==> ReadDiary(d) == old(ReadDiary(d))
    {
      var dateWeather := GetDateWeather(date, today, fetch);
      if dateWeather.None? {
        // building the record throws: the entry is never built
        return false;
      }
      var w := dateWeather.value;
      var nowDiary := Diary(NO_ID, date, w.weather, w.icon, w.temperature, text);
      ghost var before := diaryRepository.entries;
      var saved := diaryRepository.Save(nowDiary);
      forall d
        ensures DiaryStore.FindByDate(diaryRepository.entries, d)
                == DiaryStore.FindByDate(before, d) + (if saved.date == d then [saved] else [])
      {
        DiaryStore.AppendThenFind(before, saved, d);
      }
      ok := true;
    }

    /** readDiary: every entry dated `date`, in stored order. */
    function ReadDiary(date: Date): (r: seq<Diary>)
      reads diaryRepository
      ensures forall x :: x in r <==> x in diaryRepository.entries && x.date == date
      ensures diaryRepository.Valid() ==> DiaryStore.UniqueIds(r)
    {
      DiaryStore.FindByDate(diaryRepository.entries, date)
    }

    /** readDiaries: every entry dated from `startDate` to `endDate`, both included; none when the range is inverted. */
    function ReadDiaries(startDate: Date, endDate: Date): (r: seq<Diary>)
      reads diaryRepository
      ensures forall x :: x in r <==> x in diaryRepository.entries && startDate <= x.date <= endDate
      ensures startDate > endDate ==> r == []
      ensures diaryRepository.Valid() ==> DiaryStore.UniqueIds(r)
    {
      DiaryStore.FindAllByDateBetween(diaryRepository.entries, startDate, endDate)
    }

    /**
     * updateDiary: the first entry dated `date` (the head of readDiary) gets
     * the new text and keeps its identifier, date and weather; every other
     * entry is unchanged. With no entry on that date the update fails and
     * nothing changes.
     */
    method UpdateDiary(date: Date, text: string) returns (ok: bool)
      requires Valid()
      modifies diaryRepository
      ensures Valid()
      ensures ok == (old(ReadDiary(date)) != [])
      ensures diaryRepository.nextId == old(diaryRepository.nextId)
      ensures !ok ==> diaryRepository.entries == old(diaryRepository.entries)
      ensures ok ==>
        var first := old(ReadDiary(date))[0];
        && |diaryRepository.entries| == |old(diaryRepository.entries)|
        && forall j :: 0 <= j < |diaryRepository.entries| ==>
             diaryRepository.entries[j]
             == if old(diaryRepository.entries[j]).id == first.id then first.(text := text)
                else old(diaryRepository.entries[j])
    {
      var diary := DiaryStore.FindFirstByDate(diaryRepository.entries, date);
      if diary.None? {
        // the source dereferences the missing entry: the update fails
        return false;
      }
      var edited := diary.value.(text := text);
      var _ := diaryRepository.Save(edited);
      ok := true;
    }

    /** deleteDiary: removes every entry dated `date` and keeps every other entry. */
    method DeleteDiary(date: Date)
      requires Valid()
      modifies diaryRepository
      ensures Valid()
      ensures diaryRepository.entries == DiaryStore.WithoutDate(old(diaryRepository.entries), date)
      ensures diaryRepository.nextId == old(diaryRepository.nextId)
      ensures ReadDiary(date) == []
      ensures forall d :: d != date ==> ReadDiary(d) == old(ReadDiary(d))
    {
      ghost var before := diaryRepository.entries;
      diaryRepository.DeleteAllByDate(date);
      forall d
        ensures DiaryStore.FindByDate(diaryRepository.entries, d)
                == if d == date then [] else DiaryStore.FindByDate(before, d)
      {
        DiaryStore.DeleteThenFind(before, date, d);
      }
    }
  }
}
