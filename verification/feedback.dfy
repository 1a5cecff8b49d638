/** Choice of the motivational feedback text (`generateMotivationalFeedback`). The view holds two
    fixed tables of messages: thirteen keyed by the number of photos (0 to 11, then "12 or more"),
    and twelve personalised ones that interpolate the metrics and the photo count. The texts are
    not modelled; a `Choice` fixes which entry of which table is shown. */
module Feedback {
  import opened Wrappers

  /** Entries of the table keyed by photo count. */
  const MilestoneTableSize := 13

  /** Entries of the personalised table. */
  const PersonalizedTableSize := 12

  /** Below this many photos, the photo-count table wins even when metrics exist. */
  const PriorityThreshold := 3

  /** The wording a personalised message uses for the photo count: "foto"/"fotos",
      "mês"/"meses", "registro"/"registros". */
  datatype Noun = Singular | Plural

  /** Which entry the feedback is. An index outside its table reads as `undefined` in the view. */
  datatype Choice = Milestone(index: int) | Personalized(index: int, noun: Noun)

  predicate InBounds(c: Choice)
  {
    match c
    case Milestone(i) => 0 <= i < MilestoneTableSize
    case Personalized(i, _) => 0 <= i < PersonalizedTableSize
  }

  function Min(a: int, b: int): (r: int)
    ensures r <= a && r <= b
    ensures r == a || r == b
  {
    if a < b then a else b
  }

  /** JavaScript's `%` on integers: the remainder of division truncated toward zero, so it takes
      the sign of the dividend. */
  function JsRemainder(a: int, b: int): (r: int)
    requires b > 0
    ensures -b < r < b
    ensures a >= 0 ==> r >= 0
    ensures a <= 0 ==> r <= 0
    ensures a >= 0 ==> r == a % b
  {
    if a >= 0 then a % b else -((-a) % b)
  }

  /** Singular wording only for exactly one photo (`photoCount === 1`). */
  function CountNoun(photoCount: int): (n: Noun)
    ensures n == Singular <==> photoCount == 1
  {
    if photoCount == 1 then Singular else Plural
  }

  /** The feedback entry for the view's selected `month` and `year`, the number of photos found in
      the history, and whether a metrics row exists for the selected month. */
  function SelectFeedback(hasMetrics: bool, photoCount: nat, month: int, year: int): (c: Choice)
    // Without metrics, or with fewer than three photos: the photo-count table, clamped to its last entry.
    ensures !hasMetrics || photoCount < PriorityThreshold ==>
      c == Milestone(if photoCount < MilestoneTableSize then photoCount else MilestoneTableSize - 1)
    // With metrics and three or more photos: a personalised entry, always with plural wording.
    ensures hasMetrics && photoCount >= PriorityThreshold ==> c.Personalized? && c.noun == Plural
    // Its index agrees with month + year + photoCount modulo twelve.
    ensures c.Personalized? ==> (c.index - (month + year + photoCount)) % PersonalizedTableSize == 0
    // The entry is missing from its table exactly when the sum is negative and not a multiple of 12.
    ensures !InBounds(c) <==>
      c.Personalized? && month + year + photoCount < 0 && (month + year + photoCount) % PersonalizedTableSize != 0
  {
    if !hasMetrics then
      Milestone(Min(photoCount, MilestoneTableSize - 1))
    else if photoCount < PriorityThreshold then
      Milestone(Min(photoCount, MilestoneTableSize - 1))
    else
      Personalized(JsRemainder(month + year + photoCount, PersonalizedTableSize), CountNoun(photoCount))
  }

  /** For any selected month of a year from 0 on, the entry exists; with metrics and three or more
      photos it is entry `(month + year + photoCount) mod 12`. */
  lemma FeedbackInBounds(hasMetrics: bool, photoCount: nat, month: int, year: int)
    requires 1 <= month <= 12 && year >= 0
    ensures InBounds(SelectFeedback(hasMetrics, photoCount, month, year))
    ensures hasMetrics && photoCount >= PriorityThreshold ==>
      SelectFeedback(hasMetrics, photoCount, month, year).index == (month + year + photoCount) % PersonalizedTableSize
  {
  }

  /** The priority rule: with fewer than three photos, neither the metrics row nor the calendar
      affects the choice. */
  lemma PriorityIgnoresMetrics(photoCount: nat, month: int, year: int, month': int, year': int)
    requires photoCount < PriorityThreshold
    ensures SelectFeedback(true, photoCount, month, year) == SelectFeedback(false, photoCount, month', year')
    ensures SelectFeedback(true, photoCount, month, year) == Milestone(photoCount)
  {
  }

  /** The text shown for a choice, given the two tables; `None` is JavaScript's `undefined`. */
  function Entry(c: Choice, milestones: seq<string>, personalized: seq<string>): (text: Option<string>)
    requires |milestones| == MilestoneTableSize && |personalized| == PersonalizedTableSize
    ensures text.Some? <==> InBounds(c)
    ensures text.Some? && c.Milestone? ==> text.value == milestones[c.index]
    ensures text.Some? && c.Personalized? ==> text.value == personalized[c.index]
  {
    if !InBounds(c) then None
    else if c.Milestone? then Some(milestones[c.index])
    else Some(personalized[c.index])
  }
}
