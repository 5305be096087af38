# Seller toolkit pricing core, modelled in Dafny

This project models the computational core of a browser toolkit for
marketplace sellers. The core has two parts.

1. **The reverse-pricing engine of the two fee calculators** (`script.js`).
   The Shopee calculator and the Mercado Livre calculator take these inputs:
   - a product cost and a cost multiplier;
   - a list of extra costs, each flat ("real") or a percentage ("percent");
   - variable expenses;
   - a tax percentage;
   - a desired margin;
   - the marketplace's fees.

   From these they solve for the sale price at which everything is covered.
   They then derive the platform fee, the tax, the net profit, the return on
   cost and the markups. Also modelled: the multiplier arrows, the reset
   buttons, the add/remove buttons of the extra-cost rows, the numeric-text
   sanitiser, the tax clamp, the margin-slider colour bands and the profit
   colour.
2. **The pure helpers of the market research panel**
   (`market-research-new.js`):
   - the search-query validator;
   - the ten-entry search history;
   - the 24-hour result cache;
   - the price badge, star rating and state-level classifiers.

Money and percentages are Dafny `real`s, so the pricing algebra holds exactly.
Each DOM read of the source becomes a field of an input record
(`ShopeeInput`, `MLInput`). Text-to-number parsing (`parseFloat`) and number
formatting sit at the boundary and are not modelled. A JavaScript number a
comparison may receive as `NaN` or `undefined` is an `Option<real>`, where
`None` fails every comparison. The clock is a parameter. The browser storage
behind the cache is a `map`.

Modules: `Wrappers` (Option), `ExtraCosts`, `Pricing`, `NumericText`,
`FieldRules`, `SearchInput`, `SearchHistory`, `ResultCache`, `Badges`.

### Behaviour of the code worth knowing

- **Configurations with no valid price.** When the denominator is ≤ 0, the
  price, the tax, the percentage extras and (for Mercado Livre) the
  commission fee are 0, and with a positive cost so is markupX. The costs,
  the variable expenses and Shopee's R$4.00 fee (or Mercado Livre's shipping
  value) are still charged. With a positive cost the markup is then −100%
  (`Pricing.ShopeeInfeasible`, `Pricing.MLInfeasible`). Shopee's profit is
  always negative there, because of the fixed fee. Mercado Livre's profit is
  ≤ 0, and negative as soon as the cost, the expenses or the shipping value
  are positive (`Pricing.MLInfeasibleColor`). With a tax of 100% and every
  other field empty, for example, the denominator is exactly 0 and the
  profit is 0.
- **Mercado Livre shipping.** The denominator subtracts the shipping value as
  if it were a percentage. The profit then subtracts it again as a flat
  amount. The margin identity therefore holds only when shipping is 0
  (`Pricing.MLMarginIdentity`). For example, cost 50 × 2, 12% commission,
  shipping 15, 5% tax and 25% margin price at 100 / 0.43 ≈ 232.56, because
  shipping also enters the denominator (`Pricing.MLShippingExample`).
- **Mercado Livre fee figure.** The fee the code displays is the selected
  commission of the price alone; the shipping value is not part of it
  (`Pricing.MLFeeSchedule`).
- **Reset.** The Shopee reset switches free shipping on, so the fixed fee
  alone gives a price of 4.00 / 0.80 = 5.00 (`Pricing.ShopeeReset`). The
  Mercado Livre reset gives all zeros (`Pricing.MLReset`).

## Model

| member | source | states |
|---|---|---|
| `ExtraCosts.NewRow` | script.js:529-535 | A freshly added extra-cost row is of kind "real" and adds nothing to either the flat sum or the percentage rate |
| `ExtraCosts.Partition` | script.js:194-209 | The single accumulation pass over the rows yields exactly the flat sum of the "real" rows and the sum of value/100 over the "percent" rows |
| `ExtraCosts.PartitionOrderIndependent` | script.js:197-209 | Any permutation of the rows gives the same flat sum and the same percentage rate |
| `ExtraCosts.RemoveRow` | script.js:541-549 | Removing row i subtracts exactly that row's flat amount and rate; removing a row of unknown kind changes neither |
| `ExtraCosts.AddThenRemove` | script.js:523-549 | Appending a row adds exactly its contribution, and removing it again gives back the original list |
| `Pricing.MultiplierUp` | script.js:108 | The up arrow raises the multiplier by exactly one |
| `Pricing.MultiplierDown` | script.js:116 | The down arrow lowers the multiplier by one but never below 1 |
| `Pricing.MultiplierUpDown` | script.js:106-120 | Down after up restores the multiplier; up after down restores it unless it was 1, where down is a no-op |
| `Pricing.MultiplierScalesBaseCostOnly` | script.js:182-211 | Multiplier m on a base cost equals multiplier 1 on m × base cost; the flat extras contribute the same whatever the multiplier |
| `Pricing.PriceWithMultiplier` | script.js:180-218 | Both calculators give identical results for multiplier m and for m × base cost with multiplier 1, so extras and expenses are never scaled |
| `Pricing.Ratios` | script.js:227-229 | With a positive total cost, return × cost = profit × 100, markup% × cost = (price − cost) × 100 and markupX × cost = price; otherwise all three are 0 |
| `Pricing.ShopeePrice` | script.js:179-242 | With a positive denominator, price × denominator = total cost + variable expenses + R$4.00; otherwise the price is 0. The total cost is base × multiplier + flat extras |
| `Pricing.ShopeeCostRatios` | script.js:227-229 | For the Shopee result: with a positive total cost, return × cost = profit × 100, markup% × cost = (price − cost) × 100 and markupX × cost = price; otherwise all three are 0 |
| `Pricing.ShopeeFeeSchedule` | script.js:212-223 | The platform fee is 20% of the price plus R$4.00 with free shipping and 14% plus R$4.00 without; the tax and the percentage extras are their rates of the price |
| `Pricing.MLFeeSchedule` | script.js:437-439 | The Mercado Livre fee figure is the commission percentage of the price alone, without the shipping value; the tax and the percentage extras are their rates of the price |
| `Pricing.ShopeeMarginIdentity` | script.js:214-225 | With a positive denominator the net profit is exactly margin/100 × sale price |
| `Pricing.ShopeeInfeasible` | script.js:214-229 | With a denominator ≤ 0: price, tax and percentage extras are 0; the fee is R$4.00; profit = −(total cost + variable expenses + 4); a positive cost gives markup −100% and markupX 0 |
| `Pricing.MLPrice` | script.js:395-458 | With a positive denominator, price × denominator = total cost + variable expenses (no fixed fee); otherwise the price is 0 |
| `Pricing.MLCostRatios` | script.js:443-445 | For the Mercado Livre result: the same guarded identities between return, markup%, markupX, profit, price and total cost as for Shopee |
| `Pricing.MLMarginIdentity` | script.js:431-441 | With a positive denominator, profit = (margin/100 + shipping/100) × price − shipping, which is margin/100 × price exactly when shipping is 0 |
| `Pricing.MLInfeasible` | script.js:431-445 | With a denominator ≤ 0: price, tax, percentage extras and commission are 0, profit = −(total cost + variable expenses + shipping), and with a positive cost the markup is −100% and markupX is 0 |
| `Pricing.ShopeeExtrasOrderIndependent` | script.js:197-218 | Permuting the extra-cost rows leaves the whole Shopee result unchanged |
| `Pricing.MLExtrasOrderIndependent` | script.js:413-435 | Permuting the extra-cost rows leaves the whole Mercado Livre result unchanged |
| `Pricing.ShopeeRemoveExtra` | script.js:541-549 | After a row is removed, the Shopee total cost drops by that row's flat amount and the denominator rises by that row's rate |
| `Pricing.MLRemoveExtra` | script.js:541-549 | After a row is removed, the Mercado Livre total cost drops by that row's flat amount and the denominator rises by that row's rate |
| `Pricing.AddExtra` | script.js:523-539 | Adding a row raises the total cost by its flat amount and lowers the denominator by its rate in both calculators; a row of unknown kind leaves both results unchanged |
| `Pricing.NewRowIsNeutral` | script.js:523-539 | Pressing "add extra cost" does not change either calculator's result |
| `Pricing.ShopeeReset` | script.js:265-278 | After reset the Shopee denominator is 0.80, the price is 5.00 and the profit is 0 |
| `Pricing.MLReset` | script.js:481-495 | After reset the Mercado Livre denominator is 1 and every figure is 0 |
| `Pricing.ShopeeStandardExample` | script.js:212-218 | Cost 20, margin 20%, standard commission prices at 24 / 0.66, between 36.36 and 36.37 |
| `Pricing.MLShippingExample` | script.js:429-435 | Cost 50 × 2, 12% commission, shipping 15, 5% tax, 25% margin prices at 100 / 0.43, because shipping also enters the denominator |
| `Pricing.MLBreakEvenExample` | script.js:431-441 | Tax 100% with every other field empty makes the denominator exactly 0, and the profit is 0 with the neutral colour, not a loss |
| `Pricing.ProfitColorOf` | script.js:255-262 | The profit shows the success colour iff it is positive, the danger colour iff negative, the primary colour iff zero |
| `Pricing.ShopeeProfitColor` | script.js:214-262 | With non-negative costs, an infeasible Shopee configuration always shows a loss; a feasible one shows a gain iff the margin is positive and zero when the margin is 0 |
| `Pricing.MLInfeasibleColor` | script.js:431-478 | With non-negative costs, an infeasible Mercado Livre configuration never shows a gain; it shows a loss iff costs, expenses or shipping are positive |
| `NumericText.ReplaceFirst` | script.js:507 | With p the index of the first `from`, the result is the text with position p changed to `to` and nothing else changed; without a `from` the text is unchanged. Hence one fewer `from`, one more `to`, same length and digits |
| `NumericText.ReplaceFirstRoundTrip` | script.js:507-515 | Turning the first comma into a point and then the first point back into a comma restores a text that held no point |
| `NumericText.KeepNumeric` | script.js:508 | Only digits and points remain, the digit sequence and the number of points are kept, numeric text passes through unchanged and text with no digit or point gives "" |
| `NumericText.KeepNumericAppend` | script.js:508 | Filtering distributes over concatenation, so every kept digit and point stays in its original order relative to the others |
| `NumericText.SplitOn` | script.js:511 | Splitting gives one more piece than there are separators, no piece holds the separator, and joining the pieces with the separator gives the text back |
| `NumericText.ConcatOfSplit` | script.js:511-513 | Joining the pieces of a split with "" deletes every separator and nothing else |
| `NumericText.Collapse` | script.js:510-514 | With p the index of the first point, the result is the text up to and including that point followed by the rest with every point deleted; text without a point is unchanged |
| `NumericText.Sanitize` | script.js:506-516 | With p the index of the first comma or point, the output is the digits before p, a comma, then the digits after p; with neither, it is the digits alone. So it holds only digits and at most one comma |
| `NumericText.SanitizeFixesNumericText` | script.js:506-516 | Digits with at most one comma pass through the sanitiser unchanged |
| `NumericText.SanitizeIdempotent` | script.js:506-516 | Sanitising twice equals sanitising once |
| `FieldRules.FormatField` | script.js:518-521 | On blur a money field becomes a whole number of cents within half a cent of its value (0 when it does not parse), ties rounded away from zero |
| `FieldRules.FormatFieldIdempotent` | script.js:518-521 | Leaving a formatted field again writes the same value |
| `FieldRules.RoundToCents` | script.js:153 | The result is a whole number of cents within half a cent of the input, rounding ties up |
| `FieldRules.ClampTax` | script.js:145-154 | The tax is always within 0..100: unparsable or negative gives 0, above 100 gives 100, otherwise the value rounded to cents |
| `FieldRules.ClampTaxIdempotent` | script.js:145-154 | Clamping an already clamped tax changes nothing |
| `FieldRules.MarginClass` | script.js:606-625 | Each of the seven colour classes is given exactly to the values of its ten-point band; an unparsable value gets "margem-azul-escuro" |
| `FieldRules.MarginColorOf` | script.js:606-624 | The band's rank is the number of thresholds 10, 20, …, 60 the margin exceeds; an unparsable value gets the last band |
| `FieldRules.MarginColorMonotone` | script.js:610-624 | A larger margin never gets a lower band |
| `SearchInput.Trim` | market-research-new.js:62 | The result is a slice of the input with only ECMAScript white space removed around it, and it neither starts nor ends with white space |
| `SearchInput.TrimIdempotent` | market-research-new.js:62 | Trimming twice equals trimming once |
| `SearchInput.Utf16Length` | market-research-new.js:65-73 | The length in UTF-16 units is between the number of characters and twice it, and equals it when no character is above U+FFFF |
| `SearchInput.ValidateSearchInput` | market-research-new.js:59-85 | Returns true iff the trimmed query is 3 to 100 UTF-16 units long and contains none of `< > { } [ ] \` |
| `SearchInput.HasNoForbiddenChar` | market-research-new.js:76-77 | Returns true iff no character of the query is one of `< > { } [ ] \`, the class of the regular expression the validator tests |
| `SearchInput.TrimPadded` | market-research-new.js:62 | White space added before or after a text does not change its trimmed form |
| `SearchInput.ValidationSeesTrimmedQuery` | market-research-new.js:62-73 | Adding white space around a query never changes the verdict |
| `SearchHistory.WithoutQuery` | market-research-new.js:771 | The result is a subsequence of the history that holds every entry whose query differs and drops exactly the entries for the query, so its length is the history length minus those entries |
| `SearchHistory.Take` | market-research-new.js:780 | `slice(0, n)` yields the first min(n, length) entries |
| `SearchHistory.AddToSearchHistory` | market-research-new.js:768-787 | The result has 1 to 10 entries; the new query is at the front with the current time and nowhere else; the rest is the filtered old history, cut only when 10 is reached |
| `SearchHistory.AddedQueryOnceAtFront` | market-research-new.js:770-780 | After an addition the query occurs exactly once, at the head, and the remaining entries are a subsequence of the old history |
| `SearchHistory.AddKeepsDistinct` | market-research-new.js:770-777 | A history without repeated queries stays without repeated queries |
| `SearchHistory.AddKeepsNewestFirst` | market-research-new.js:773-780 | With a clock that does not go backwards, a newest-first history stays newest first |
| `ResultCache.GetCachedResult` | market-research-new.js:719-739 | Results are returned iff the query is Latin-1, present and younger than 24 h; a stale entry is deleted and nothing else changes |
| `ResultCache.SetCachedResult` | market-research-new.js:741-753 | A Latin-1 query is stored with the current time; other keys are untouched; any other query leaves the store as it was |
| `ResultCache.StoreThenLookup` | market-research-new.js:719-753 | Stored results are found again for less than 24 h; after that the lookup fails and the entry is gone |
| `ResultCache.UnencodableNeverCached` | market-research-new.js:721-743 | A query with a character above U+00FF is never stored and never found |
| `ResultCache.StoreIsolated` | market-research-new.js:741-749 | Storing one query does not change what a lookup of another query finds |
| `ResultCache.LookupIdempotent` | market-research-new.js:719-739 | A second lookup at the same time returns the same answer and store as the first |
| `Badges.GetPriceBadgeClass` | market-research-new.js:621-625 | Green iff price < 50, yellow iff 50 ≤ price < 150, red otherwise, including a missing price |
| `Badges.GetPriceBadgeLabel` | market-research-new.js:628-632 | "Baixo" iff price < 50, "Médio" iff 50 ≤ price < 150, "Alto" otherwise |
| `Badges.BadgeClassMatchesLabel` | market-research-new.js:621-632 | The badge colour and the badge label always name the same tier |
| `Badges.GenerateStars` | market-research-new.js:608-618 | Exactly five icons, and icon i is filled iff i ≤ rating |
| `Badges.StarsFilledCount` | market-research-new.js:608-618 | The number of filled icons is the number of whole numbers 1..5 not above the rating |
| `Badges.GetStateColor` | market-research-new.js:479-487 | The four known levels get their fixed colours; anything else, including a missing level, gets `#9ca3af` |
| `Badges.GetLevelLabel` | market-research-new.js:490-498 | The four known levels get their labels; anything else gets "Indefinido" |
| `Badges.ColorAndLabelAgree` | market-research-new.js:479-498 | Two levels share a colour iff they share a label |

## Left out

- DOM reads and writes, event wiring, focus, tabs, the theme toggle and the user dropdown. These are the UI around the core; the model takes the values they read as inputs.
- Number formatting (`formatarReal`, `formatarPercentual`, the `…X` markup text, `atualizarMargemValue`, the slider's `--track-fill` style). These are presentation only.
- `formatarCampo` is not presentation: on blur it writes the value, rounded to cents, back into the cost, expense and extra-value fields, and the price is recomputed from it (script.js:130-132, 342-344, 560-567). `FieldRules.FormatField` models that step. The calculators take a field's value as it is when they run, so after a blur they see the rounded value; the decimal comma of the written text is not modelled.
- FieldRules.FormatField: rounds exact decimals to cents. `toFixed(2)` rounds the binary double, which can differ on ties.
- `parseFloat` leniency and the `|| 0` fallbacks. The model receives numbers that are already parsed, with `None` where parsing gives `NaN`.
- IEEE-754 floating point. All arithmetic is exact over `real`.
- FieldRules.ClampTax: rounds exact decimals half-up to cents. `toFixed(2)` rounds the binary double, which can differ on ties such as 1.005.
- Badges.GetPriceBadgeClass: a `null` price (which JavaScript compares as 0) is not modelled; only a missing price is.
- Badges.GetStateColor: a level that names an inherited object property (such as "toString") is treated as unknown. JavaScript would return the inherited function instead.
- The shared module-level multipliers are a field of each input record, not global state.
- `spa.js` (routing, templates and its call to a non-existent ML reset), `market-research-integration.js` and the `.jsx` components are glue or rendering, not part of this model.
- `handleSearch`, `performMarketResearch` and the Supabase session. These are network I/O and async code; the `isSearching` re-entry guard is left out with them.
- `loadSearchHistory` and the writes to `localStorage`, which are persistence. The history and the cache are values here, and the cache key is the query itself (its base-64 form is one-to-one).
- Cache entries that fail to parse as JSON, and results that JavaScript treats as false. These paths depend on the storage format, which is not modelled.
