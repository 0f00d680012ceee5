/**
 * The two persisted entities of the weather diary: the daily weather record
 * and the diary entry that carries a copy of it.
 */
module Domain {

  /** A calendar date, as a day number; later dates are larger numbers. */
  type Date = int

  /** A temperature in degrees Celsius. */
  type Temperature = real

  /** The identifier of an entry that has not been stored yet. */
  const NO_ID: int := 0

  /** One weather record per date: the weather category, its icon and the temperature. */
  datatype DateWeather = DateWeather(date: Date, weather: string, icon: string, temperature: Temperature)

  /**
   * A diary entry: its identifier, its date, the text the user wrote and a
   * snapshot of the weather fields, copied by value when the entry is created.
   */
  datatype Diary = Diary(id: int, date: Date, weather: string, icon: string, temperature: Temperature, text: string)

}
