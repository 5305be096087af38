/** Small classifiers the market research panel uses when it renders a
    report (market-research-new.js): the price badge of a competitor, its
    star rating, and the colour and label of a state's market level.
    A number the source compares may be `undefined` in the report data;
    `None` stands for it, and every comparison with it is false. */
module Badges {
  import opened Wrappers

  // ===== Price badge =====

  /** `getPriceBadgeClass` (market-research-new.js:621-625) */
  function GetPriceBadgeClass(price: Option<real>): (c: string)
    ensures c == "badge-green" <==> price.Some? && price.value < 50.0
    ensures c == "badge-yellow" <==> price.Some? && 50.0 <= price.value < 150.0
    ensures c == "badge-red" <==> price.None? || price.value >= 150.0
  {
    if price.Some? && price.value < 50.0 then "badge-green"
    else if price.Some? && price.value < 150.0 then "badge-yellow"
    else "badge-red"
  }

  /** `getPriceBadgeLabel` (market-research-new.js:628-632) */
  function GetPriceBadgeLabel(price: Option<real>): (l: string)
    ensures l == "Baixo" <==> price.Some? && price.value < 50.0
    ensures l == "M\U{00E9}dio" <==> price.Some? && 50.0 <= price.value < 150.0
    ensures l == "Alto" <==> price.None? || price.value >= 150.0
  {
    if price.Some? && price.value < 50.0 then "Baixo"
    else if price.Some? && price.value < 150.0 then "M\U{00E9}dio"
    else "Alto"
  }

  /** The two functions repeat the same thresholds, so a badge's colour
      and its label always agree */
  lemma BadgeClassMatchesLabel(price: Option<real>)
    ensures GetPriceBadgeClass(price) == "badge-green" <==> GetPriceBadgeLabel(price) == "Baixo"
    ensures GetPriceBadgeClass(price) == "badge-yellow" <==> GetPriceBadgeLabel(price) == "M\U{00E9}dio"
    ensures GetPriceBadgeClass(price) == "badge-red" <==> GetPriceBadgeLabel(price) == "Alto"
  {
  }

  // ===== Star rating =====

  datatype Star = Filled | Hollow

  /** `generateStars` (market-research-new.js:608-618): icon i, for i from
      1 to 5, is filled when i <= rating */
  method GenerateStars(rating: Option<real>) returns (stars: seq<Star>)
    ensures |stars| == 5
    ensures forall k :: 0 <= k < 5 ==> (stars[k] == Filled <==> rating.Some? && (k + 1) as real <= rating.value)
  {
    stars := [];
    var i := 1;
    while i <= 5
      invariant 1 <= i <= 6
      invariant |stars| == i - 1
      invariant forall k :: 0 <= k < i - 1 ==> (stars[k] == Filled <==> rating.Some? && (k + 1) as real <= rating.value)
    {
      if rating.Some? && i as real <= rating.value {
        stars := stars + [Filled];
      } else {
        stars := stars + [Hollow];
      }
      i := i + 1;
    }
  }

  function FilledCount(stars: seq<Star>): nat {
    if |stars| == 0 then 0
    else FilledCount(stars[..|stars| - 1]) + (if stars[|stars| - 1] == Filled then 1 else 0)
  }

  /** The number of i in 1..5 with i <= rating */
  function ExpectedFilled(rating: Option<real>): nat {
    match rating
    case None => 0
    case Some(v) => if v < 1.0 then 0 else if v >= 5.0 then 5 else v.Floor
  }

  /** A row whose first n icons are filled and the rest hollow counts n
      filled icons (or its length, if shorter) */
  lemma {:induction false} FilledPrefixCount(stars: seq<Star>, n: nat)
    requires forall k :: 0 <= k < |stars| ==> (stars[k] == Filled <==> k < n)
    ensures FilledCount(stars) == if n <= |stars| then n else |stars|
    decreases |stars|
  {
    if |stars| > 0 {
      FilledPrefixCount(stars[..|stars| - 1], n);
    }
  }

  /** The row of stars fills exactly as many icons as there are whole
      numbers from 1 to 5 not above the rating */
  lemma StarsFilledCount(stars: seq<Star>, rating: Option<real>)
    requires |stars| == 5
    requires forall k :: 0 <= k < 5 ==> (stars[k] == Filled <==> rating.Some? && (k + 1) as real <= rating.value)
    ensures FilledCount(stars) == ExpectedFilled(rating)
  {
    var n := ExpectedFilled(rating);
    forall k | 0 <= k < 5
      ensures stars[k] == Filled <==> k < n
    {
      if rating.Some? && 1.0 <= rating.value < 5.0 {
        var v := rating.value;
        assert (k + 1) as real <= v <==> k + 1 <= v.Floor;
      }
    }
    FilledPrefixCount(stars, n);
  }

  // ===== State level =====

  const DefaultColor: string := "#9ca3af"
  const DefaultLabel: string := "Indefinido"

  /** The `colors` table of `getStateColor` */
  const StateColors: map<string, string> :=
    map["excelente" := "#1e40af", "bom" := "#3b82f6", "medio" := "#fbbf24", "pouco" := "#ef4444"]

  /** The `labels` table of `getLevelLabel` */
  const LevelLabels: map<string, string> :=
    map["excelente" := "Excelente", "bom" := "Bom", "medio" := "M\U{00E9}dio", "pouco" := "Pouco"]

  predicate IsKnownLevel(level: Option<string>) {
    level.Some? && level.value in {"excelente", "bom", "medio", "pouco"}
  }

  /** `getStateColor` (market-research-new.js:479-487) */
  function GetStateColor(level: Option<string>): (color: string)
    ensures color == DefaultColor <==> !IsKnownLevel(level)
    ensures IsKnownLevel(level) ==> color == StateColors[level.value]
  {
    if level.Some? && level.value in StateColors then StateColors[level.value] else DefaultColor
  }

  /** `getLevelLabel` (market-research-new.js:490-498) */
  function GetLevelLabel(level: Option<string>): (text: string)
    ensures text == DefaultLabel <==> !IsKnownLevel(level)
    ensures IsKnownLevel(level) ==> text == LevelLabels[level.value]
  {
    if level.Some? && level.value in LevelLabels then LevelLabels[level.value] else DefaultLabel
  }

  /** Colour and label sort levels the same way: two levels share a colour
      exactly when they share a label */
  lemma ColorAndLabelAgree(a: Option<string>, b: Option<string>)
    ensures GetStateColor(a) == GetStateColor(b) <==> GetLevelLabel(a) == GetLevelLabel(b)
  {
  }
}
