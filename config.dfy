/**
 * The tab editor's configuration: how many sections, measures per section,
 * strings per measure and notes per measure a new tab starts with, and the
 * names of its strings.  A config is never changed after it is made, so it is
 * a value here; its JSON form lists the same fields in the constructor's
 * order.
 */
module EditorConfig {

  datatype Config = Config(
    startStrings: int,
    startSections: int,
    startMeasures: int,
    startNotesPerMeasure: int,
    stringNames: seq<string>)

  datatype ConfigJson = ConfigJson(
    startSections: int,
    startMeasures: int,
    startStrings: int,
    startNotesPerMeasure: int,
    stringNames: seq<string>)

  /**
   * The constructor: its positional parameters come in the order sections,
   * measures, strings, notes per measure, names, and each lands in the field of
   * the same name although the fields are declared with strings first.
   */
  function NewConfig(startSections: int, startMeasures: int, startStrings: int, startNotesPerMeasure: int, stringNames: seq<string>): (c: Config)
    ensures c.startSections == startSections && c.startMeasures == startMeasures
    ensures c.startStrings == startStrings && c.startNotesPerMeasure == startNotesPerMeasure
    ensures c.stringNames == stringNames
  {
    Config(startStrings, startSections, startMeasures, startNotesPerMeasure, stringNames)
  }

  /** Standard guitar tuning, high string first. */
  const StandardTuning: seq<string> := ["e", "B", "G", "D", "A", "E"]

  /** The default: one section of four measures, six strings, four notes per measure. */
  function Default(): (c: Config)
    ensures c.startSections == 1 && c.startMeasures == 4
    ensures c.startStrings == 6 && c.startNotesPerMeasure == 4
    ensures c.stringNames == StandardTuning
    ensures |c.stringNames| == c.startStrings
  {
    NewConfig(1, 4, 6, 4, StandardTuning)
  }

  function ToJson(c: Config): (j: ConfigJson)
    ensures j.startSections == c.startSections && j.startMeasures == c.startMeasures
    ensures j.startStrings == c.startStrings && j.startNotesPerMeasure == c.startNotesPerMeasure
    ensures j.stringNames == c.stringNames
  {
    ConfigJson(c.startSections, c.startMeasures, c.startStrings, c.startNotesPerMeasure, c.stringNames)
  }

  /** fromJSON passes the parsed fields to the constructor in its parameter order. */
  function FromJson(j: ConfigJson): (c: Config)
    ensures ToJson(c) == j
  {
    NewConfig(j.startSections, j.startMeasures, j.startStrings, j.startNotesPerMeasure, j.stringNames)
  }

  /** Reading back what toJSON wrote gives the same config, and every JSON form is written by exactly one config. */
  lemma JsonRoundTrip(c: Config, j: ConfigJson)
    ensures FromJson(ToJson(c)) == c
    ensures ToJson(FromJson(j)) == j
  {
  }
}
