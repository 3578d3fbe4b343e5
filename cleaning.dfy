/** The stages of `clean_data` (backend/data_processing.py) as functions on
    table values: drop the identifying columns, rename, strip text, blank
    the non-answer tokens, coerce each declared column, impute means. */
module Cleaning {
  import opened Cells
  import opened Text
  import opened Numerals
  import opened Imputation

  // ---------------------------------------------------------------------
  // Fixed tables

  /** The columns dropped first. */
  const Identifying: seq<string> := ["Timestamp", "Username"]

  /** The answers treated as "no data", matched exactly and case-sensitively
      (the misspelling "ocassions" is the table's own). */
  const NonAnswers: seq<string> := [
    "NA", "NIL", "Nil", "No", "Nope", "No consumption", "None", "No activity",
    "Not much", "low", "Depends", "No expectations", "No clue", "Rare", "Rarely",
    "Rarely only on ocassions", "Weekly", "Once a month", "Once a week",
    "Once in two weeks", "None of the above", ".", "Missing"]

  const GenderCodes: map<string, int> := map["Male" := 0, "Female" := 1, "Non-binary" := 2, "Other" := 2]
  const RelationshipCodes: map<string, int> :=
    map["Single" := 0, "In a relationship" := 1, "Married/Partnered" := 2, "Other" := 3]
  const YesNoCodes: map<string, int> := map["Yes" := 1, "No" := 0]
  const RoommateCodes: map<string, int> := map["Alone" := 0, "Shared room" := 1, "Shared apartment" := 2]
  const LivingCodes: map<string, int> :=
    map["Off-campus shared" := 0, "On-campus dorm" := 1, "Living with family" := 2]

  /** How one declared column is coerced. */
  datatype Rule =
    | ToNumeric                   // pd.to_numeric(col, errors='coerce')
    | Replace(codes: map<string, int>)  // col.replace(codes)
    | ExtractInteger              // col.str.extract('(\d+)').astype(float)
    | ExtractDecimal              // col.str.extract('(\d+\.?\d*)').astype(float)

  /** One entry of the column specification: a label and its rule. */
  datatype Entry = Entry(name: string, rule: Rule)

  /** The column specification, in the order the columns are coerced. */
  const Schema: seq<Entry> := [
    Entry("age", ToNumeric),
    Entry("gender", Replace(GenderCodes)),
    Entry("relationship_status", Replace(RelationshipCodes)),
    Entry("sleep_quality", ToNumeric),
    Entry("water_intake_litres", ExtractDecimal),
    Entry("food_quality", ToNumeric),
    Entry("meals_count", ExtractInteger),
    Entry("caffeine_intake_cups", ExtractInteger),
    Entry("alcohol_consumption_drinks_week", ExtractInteger),
    Entry("smoking_status", Replace(YesNoCodes)),
    Entry("chronic_health_issues", Replace(YesNoCodes)),
    Entry("medication_use", Replace(YesNoCodes)),
    Entry("physical_activity_minutes_day", ExtractInteger),
    Entry("sedentary_time_hours_day", ExtractDecimal),
    Entry("environment_noise", ToNumeric),
    Entry("lighting_quality", ToNumeric),
    Entry("study_space_quality", ToNumeric),
    Entry("roommate_situation", Replace(RoommateCodes)),
    Entry("living_arrangement", Replace(LivingCodes)),
    Entry("commute_time_minutes_day", ExtractInteger),
    Entry("study_hours_last_24h", ExtractDecimal),
    Entry("study_stress", ToNumeric),
    Entry("upcoming_exam_assignment_stress", ToNumeric),
    Entry("grades_estimate_gpa", ExtractDecimal),
    Entry("financial_stress", ToNumeric),
    Entry("mood_last_24h", ToNumeric),
    Entry("anxiety_score_gad_7", ToNumeric),
    Entry("depression_score_phq_9", ToNumeric),
    Entry("life_satisfaction", ToNumeric),
    Entry("screen_time_hours_day", ExtractDecimal),
    Entry("social_media_time_hours_day", ExtractDecimal),
    Entry("social_interaction_time_minutes_day", ExtractDecimal)]

  /** Applies a column rule to every column. */
  function MapColumns(cols: seq<Column>, f: Column -> Column): (r: seq<Column>)
    ensures |r| == |cols|
    ensures forall j :: 0 <= j < |cols| ==> r[j] == f(cols[j])
  {
    seq(|cols|, j requires 0 <= j < |cols| => f(cols[j]))
  }

  function MapCells(cells: seq<Cell>, f: Cell -> Cell): (r: seq<Cell>)
    ensures |r| == |cells|
    ensures forall i :: 0 <= i < |cells| ==> r[i] == f(cells[i])
  {
    seq(|cells|, i requires 0 <= i < |cells| => f(cells[i]))
  }

  // ---------------------------------------------------------------------
  // Stage 1: df.drop(columns=['Timestamp', 'Username'])

  /** The keys that label no column, in order. */
  function Absent(names: seq<string>, keys: seq<string>): (r: seq<string>)
    ensures forall k :: k in r <==> k in keys && k !in names
  {
    if keys == [] then []
    else (if keys[0] in names then [] else [keys[0]]) + Absent(names, keys[1..])
  }

  /** The columns whose label is not one of `keys`, in their order. */
  function Without(cols: seq<Column>, keys: seq<string>): (r: seq<Column>)
    ensures |r| <= |cols|
    ensures forall c :: c in r <==> c in cols && c.name !in keys
  {
    if cols == [] then []
    else (if cols[0].name in keys then [] else [cols[0]]) + Without(cols[1..], keys)
  }

  /** `drop` fails, naming every absent label, unless both labels exist. */
  function DropIdentifying(cols: seq<Column>): Result<seq<Column>> {
    var absent := Absent(Names(cols), Identifying);
    if absent != [] then Failure(KeyNotFound(absent)) else Success(Without(cols, Identifying))
  }

  // ---------------------------------------------------------------------
  // Stage 2: df.columns = [normalised name for each column]

  function RenameColumn(c: Column): Column {
    Column(NormalizeName(c.name), c.cells)
  }

  // ---------------------------------------------------------------------
  // Stage 3: strip the text columns, then blank the non-answer tokens

  /** `.str.strip()` on one cell: text is stripped, and anything that is not
      a string comes out as NaN. */
  function StripCell(c: Cell): Cell {
    if c.Text? then Text(StripSpace(c.text)) else Missing
  }

  /** Only the `object` (text-holding) columns are stripped. */
  function StripColumn(c: Column): Column {
    if IsNumeric(c.cells) then c else Column(c.name, MapCells(c.cells, StripCell))
  }

  /** `df.replace(NonAnswers, np.nan)` on one cell. */
  function BlankToken(c: Cell): Cell {
    if c.Text? && c.text in NonAnswers then Missing else c
  }

  function BlankTokens(c: Column): Column {
    Column(c.name, MapCells(c.cells, BlankToken))
  }

  /** Stages 2 and 3 on one column. */
  function Prepare(c: Column): Column {
    BlankTokens(StripColumn(RenameColumn(c)))
  }

  // ---------------------------------------------------------------------
  // Stage 4: coerce the declared columns

  function Coerce(rule: Rule, c: Cell): Cell {
    match rule
    case ToNumeric =>
      if c.Text? then (match ParseNumber(c.text) case Some(v) => Num(v) case None => Missing) else c
    case Replace(codes) =>
      if c.Text? && c.text in codes then Num(codes[c.text] as real) else c
    case ExtractInteger =>
      if c.Text? then ExtractWith(c.text, SearchInteger(c.text)) else Missing
    case ExtractDecimal =>
      if c.Text? then ExtractWith(c.text, SearchDecimal(c.text)) else Missing
  }

  function CoerceColumn(rule: Rule, c: Column): (r: Column)
    ensures r.name == c.name && |r.cells| == |c.cells|
  {
    Column(c.name, MapCells(c.cells, x => Coerce(rule, x)))
  }

  /** `df[name] = rule(df[name])` for each entry in turn; the first absent
      label raises. */
  function CoerceAll(cols: seq<Column>, sch: seq<Entry>): Result<seq<Column>>
    decreases |sch|
  {
    if sch == [] then Success(cols)
    else
      var j := IndexOf(cols, sch[0].name);
      if j == |cols| then Failure(KeyNotFound([sch[0].name]))
      else CoerceAll(cols[j := CoerceColumn(sch[0].rule, cols[j])], sch[1..])
  }

  // ---------------------------------------------------------------------
  // Stage 5 and the whole pipeline

  function ImputeMeans(c: Column): Column {
    Column(c.name, ImputeColumn(c.cells))
  }

  /** `clean_data(df)`. */
  function Clean(t: Table): Result<Table> {
    match DropIdentifying(t.columns)
    case Failure(e) => Failure(e)
    case Success(kept) =>
      var cleaned := MapColumns(MapColumns(MapColumns(kept, RenameColumn), StripColumn), BlankTokens);
      match CoerceAll(cleaned, Schema)
      case Failure(e) => Failure(e)
      case Success(coerced) => Success(Table(MapColumns(coerced, ImputeMeans), t.rows))
  }
}
