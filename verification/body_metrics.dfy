/** The body-metrics state of the progress view: eight numeric fields, edited one at a time
    (`handleMetricUpdate`), replaced wholesale when a `body_metrics` row is loaded, and shown as
    three progress bars. Values are exact reals; JavaScript's floating point is not modelled. */
module BodyMetrics {
  import opened Wrappers

  datatype Metrics = Metrics(
    weightLost: real,
    bodyFatReduced: real,
    muscleGained: real,
    arms: real,
    chest: real,
    back: real,
    abdomen: real,
    legs: real)

  /** The names of the eight fields (`keyof BodyMetrics`). */
  datatype Field = WeightLost | BodyFatReduced | MuscleGained | Arms | Chest | Back | Abdomen | Legs

  /** The state before anything is loaded: every field 0. */
  const Initial := Metrics(0.0, 0.0, 0.0, 0.0, 0.0, 0.0, 0.0, 0.0)

  function Get(m: Metrics, f: Field): real
  {
    match f
    case WeightLost => m.weightLost
    case BodyFatReduced => m.bodyFatReduced
    case MuscleGained => m.muscleGained
    case Arms => m.arms
    case Chest => m.chest
    case Back => m.back
    case Abdomen => m.abdomen
    case Legs => m.legs
  }

  /** Two states with the same value in every field are the same state. */
  lemma Extensionality(a: Metrics, b: Metrics)
    requires forall f :: Get(a, f) == Get(b, f)
    ensures a == b
  {
    assert Get(a, WeightLost) == Get(b, WeightLost);
    assert Get(a, BodyFatReduced) == Get(b, BodyFatReduced);
    assert Get(a, MuscleGained) == Get(b, MuscleGained);
    assert Get(a, Arms) == Get(b, Arms);
    assert Get(a, Chest) == Get(b, Chest);
    assert Get(a, Back) == Get(b, Back);
    assert Get(a, Abdomen) == Get(b, Abdomen);
    assert Get(a, Legs) == Get(b, Legs);
  }

  /** `{ ...m, [f]: v }`: the named field takes the new value and every other field keeps its own. */
  function Set(m: Metrics, f: Field, v: real): (r: Metrics)
    ensures Get(r, f) == v
    ensures forall g :: g != f ==> Get(r, g) == Get(m, g)
  {
    match f
    case WeightLost => m.(weightLost := v)
    case BodyFatReduced => m.(bodyFatReduced := v)
    case MuscleGained => m.(muscleGained := v)
    case Arms => m.(arms := v)
    case Chest => m.(chest := v)
    case Back => m.(back := v)
    case Abdomen => m.(abdomen := v)
    case Legs => m.(legs := v)
  }

  /** Writing back a field's own value changes nothing. */
  lemma SetOwnValue(m: Metrics, f: Field)
    ensures Set(m, f, Get(m, f)) == m
  {
    Extensionality(Set(m, f, Get(m, f)), m);
  }

  /** Of two edits to the same field, the later wins. */
  lemma SetTwice(m: Metrics, f: Field, a: real, b: real)
    ensures Set(Set(m, f, a), f, b) == Set(m, f, b)
  {
    Extensionality(Set(Set(m, f, a), f, b), Set(m, f, b));
  }

  /** Edits to different fields commute. */
  lemma SetCommutes(m: Metrics, f: Field, g: Field, a: real, b: real)
    requires f != g
    ensures Set(Set(m, f, a), g, b) == Set(Set(m, g, b), f, a)
  {
    Extensionality(Set(Set(m, f, a), g, b), Set(Set(m, g, b), f, a));
  }

  /** `parseFloat(x) || 0`: a value that parses to NaN (here `None`) or to zero becomes 0. */
  function OrZero(parsed: Option<real>): (v: real)
    ensures parsed.None? ==> v == 0.0
    ensures parsed.Some? ==> v == parsed.value
  {
    parsed.GetOr(0.0)
  }

  /** The edit handler: the input box's text, parsed (`None` for NaN), replaces the one field. */
  function UpdateMetric(m: Metrics, f: Field, input: Option<real>): (r: Metrics)
    ensures Get(r, f) == (if input.Some? then input.value else 0.0)
    ensures forall g :: g != f ==> Get(r, g) == Get(m, g)
  {
    Set(m, f, OrZero(input))
  }

  /** A `body_metrics` row, each column as `parseFloat` reads it (`None` for NaN). */
  datatype MetricsRow = MetricsRow(
    weightLost: Option<real>,
    bodyFatReduced: Option<real>,
    muscleGained: Option<real>,
    arms: Option<real>,
    chest: Option<real>,
    back: Option<real>,
    abdomen: Option<real>,
    legs: Option<real>)

  function Column(row: MetricsRow, f: Field): Option<real>
  {
    match f
    case WeightLost => row.weightLost
    case BodyFatReduced => row.bodyFatReduced
    case MuscleGained => row.muscleGained
    case Arms => row.arms
    case Chest => row.chest
    case Back => row.back
    case Abdomen => row.abdomen
    case Legs => row.legs
  }

  /** Loading the selected month's row: when a row exists every field becomes its column's value
      or 0; when none exists the previous state stays as it was. */
  function Load(previous: Metrics, row: Option<MetricsRow>): (r: Metrics)
    ensures row.None? ==> r == previous
    ensures row.Some? ==> forall f :: Get(r, f) == OrZero(Column(row.value, f))
  {
    match row
    case None => previous
    case Some(m) =>
      Metrics(OrZero(m.weightLost), OrZero(m.bodyFatReduced), OrZero(m.muscleGained), OrZero(m.arms),
              OrZero(m.chest), OrZero(m.back), OrZero(m.abdomen), OrZero(m.legs))
  }

  /** A loaded row leaves no trace of the previous state, so loading it again changes nothing. */
  lemma LoadForgetsPrevious(a: Metrics, b: Metrics, row: MetricsRow)
    ensures Load(a, Some(row)) == Load(b, Some(row))
    ensures Load(Load(a, Some(row)), Some(row)) == Load(a, Some(row))
  {
  }

  /** The row an edit writes back (`...updatedMetrics`): every column holds the field's number. */
  function AsRow(m: Metrics): (row: MetricsRow)
    ensures forall f :: Column(row, f) == Some(Get(m, f))
  {
    MetricsRow(Some(m.weightLost), Some(m.bodyFatReduced), Some(m.muscleGained), Some(m.arms),
               Some(m.chest), Some(m.back), Some(m.abdomen), Some(m.legs))
  }

  /** Reading back the row an edit wrote restores exactly the edited state, whatever came before. */
  lemma ReloadAfterEdit(previous: Metrics, m: Metrics, f: Field, input: Option<real>)
    ensures Load(previous, Some(AsRow(UpdateMetric(m, f, input)))) == UpdateMetric(m, f, input)
  {
    var edited := UpdateMetric(m, f, input);
    Extensionality(Load(previous, Some(AsRow(edited))), edited);
  }

  function Abs(x: real): (r: real)
    ensures r >= 0.0
    ensures r == x || r == -x
  {
    if x < 0.0 then -x else x
  }

  /** `Math.min(100, scale * x)`: the fill of a progress bar, saturating at 100. */
  function Bar(scaled: real): (r: real)
    ensures r <= 100.0
    ensures scaled <= 100.0 ==> r == scaled
    ensures scaled >= 100.0 ==> r == 100.0
  {
    if scaled < 100.0 then scaled else 100.0
  }

  /** The "weight lost" bar: five kilograms either way fill it. */
  function WeightLostBar(m: Metrics): (r: real)
    ensures 0.0 <= r <= 100.0
    ensures r == 100.0 <==> Abs(m.weightLost) >= 5.0
  {
    Bar(Abs(m.weightLost) * 20.0)
  }

  /** The "fat reduced" bar: four points either way fill it. */
  function BodyFatBar(m: Metrics): (r: real)
    ensures 0.0 <= r <= 100.0
    ensures r == 100.0 <==> Abs(m.bodyFatReduced) >= 4.0
  {
    Bar(Abs(m.bodyFatReduced) * 25.0)
  }

  /** The "muscle gained" bar takes no absolute value: it never exceeds 100, and it is negative
      exactly when the muscle gained is. */
  function MuscleBar(m: Metrics): (r: real)
    ensures r <= 100.0
    ensures r < 0.0 <==> m.muscleGained < 0.0
    ensures r == 100.0 <==> m.muscleGained * 33.0 >= 100.0
  {
    Bar(m.muscleGained * 33.0)
  }

  /** The view starts with every bar empty. */
  lemma InitialBarsEmpty()
    ensures WeightLostBar(Initial) == 0.0 && BodyFatBar(Initial) == 0.0 && MuscleBar(Initial) == 0.0
  {
  }
}
