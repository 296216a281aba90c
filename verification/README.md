# Walmart.ca price-per-unit: the text-to-number path

The content script of this browser extension runs on walmart.ca product
listings. For each product container it does three things:

- It reads the price: the price text is stripped of everything but digits
  and dots, then read with `parseFloat`.
- It reads the amount and unit from the product title: the title is
  lower-cased and split on commas, and its second field is trimmed. That
  field is matched against the pattern
  `(\d+(?:\.\d+)?)\s*(ct|g|kg|ml|l|oz|lb|count|pound)` with the `i` flag.
- It computes a per-unit figure with its caption: grams and millilitres are
  priced per 100, litres per 100 ml, and every other unit per single unit.

The model is pure. It is made of datatypes, functions and lemmas, one
module per step:

- `Chars`: character classes, `toLowerCase`, the regex's case folding, and
  runs of digits and white space.
- `PriceText`: the price cleaning and a `parseFloat` restricted to digits and
  dots (`ParseFloat`), plus a declarative description of what `parseFloat`
  reads (the longest leading decimal literal).
- `TitleText`: `split(',')`, `trim`, and the unit segment.
- `UnitPattern`: the regular expression as an explicit left-to-right scan
  over start positions and alternatives (`Exec`). A separate declarative
  description (`IsLeftmostFirstMatch`) says which match ECMAScript
  backtracking reports. The scan is proved to meet it, and it determines the
  result uniquely.
- `UnitExtraction`: `extractUnit`.
- `PerUnit`: the `!price || !unitObj` guard and the unit branch.
- `Listing`: the `forEach` callback for one container, over the two texts.

JavaScript values are modelled as follows:

- A missing element is `None`.
- The `TypeError` that `split(',')[1].trim()` throws on a title without a
  comma is `Err(NoSecondField)`.
- `NaN` is `Num.NaN`.
- Division by a zero amount is `Quotient.Infinity`.

Two consequences of the source are proved rather than assumed:

- The alternative `lb` can never be reported, because `l` comes before it
  in the pattern. So `2 lb` is read as 2 of `l` and priced per 100 ml.
- `parseFloat` is not `NaN` on `.5`, which it reads as 0.5, nor on `5.`,
  which it reads as 5. On cleaned price text only `""`, `"."` and text
  starting with `..` give `NaN`.

## Model

| member | source | states |
|---|---|---|
| PriceText.Clean | content.js:7 | the cleaned text holds only digits and dots, and is no longer than the input |
| PriceText.CleanCounts | content.js:7 | every digit and dot keeps its number of occurrences; every other character is dropped |
| PriceText.CleanAppend | content.js:7 | cleaning works character by character: cleaning a concatenation concatenates the cleaned parts, so kept characters stay in their relative order |
| PriceText.CleanKeepsCleaned | content.js:7 | text of only digits and dots is left unchanged |
| PriceText.CleanIdempotent | content.js:7 | cleaning twice is cleaning once |
| PriceText.DecimalValue | content.js:8 | the value of `whole.frac` lies in `[whole, whole + 1)` |
| PriceText.DigitsValue | content.js:8 | a run of n digits is worth less than 10^n |
| PriceText.ParseFloatLongestPrefix | content.js:8 | `parseFloat` on cleaned text is NaN exactly when no prefix is a decimal literal; otherwise it is the value of the longest such prefix |
| PriceText.ParseFloat | content.js:8 | on cleaned text, NaN exactly when the text is empty or starts with a dot that is not followed by a digit; a run of digits reads as its integer value |
| PriceText.ParseFloatLiteral | content.js:8 | a whole decimal literal reads as its own value |
| PriceText.TwoDotsNoLiteral | content.js:8 | text with two dots is not a decimal literal, so reading stops before the second dot |
| PriceText.ExtractPrice | content.js:3-9 | null exactly without a price element; NaN exactly when the cleaned text has no literal prefix; otherwise the value of its longest literal prefix |
| PriceText.ExamplePrice | content.js:7-8 | `$3.60` reads as 3.6 |
| Chars.Lower | content.js:15 | the modelled `toLowerCase` maps each character on its own, so the length is kept, and leaves no ASCII capital |
| Chars.ToLower | content.js:15 | ASCII capitals map to their own lower-case letter and the Kelvin sign to `k`; every other character is kept |
| Chars.Fold | content.js:17 | the `i` flag folds each ASCII capital to its own lower-case letter and leaves every other character as it is |
| Chars.DigitRun | content.js:17 | the end of the longest run of digits from a position, as `\d+` takes it greedily |
| Chars.SpaceRun | content.js:17 | the end of the longest run of white space from a position, as `\s*` takes it greedily |
| TitleText.Split | content.js:15 | `split(',')` yields one more field than the text has commas |
| TitleText.CommaCountIsMultiplicity | content.js:15 | the comma count used for `split` is the number of occurrences of the comma |
| TitleText.SplitJoin | content.js:15 | joining the fields of `split(',')` with commas gives back the text |
| TitleText.JoinSplit | content.js:15 | splitting comma-free fields joined with commas gives back the fields |
| TitleText.SplitFieldsHaveNoComma | content.js:15 | no field of `split(',')` holds a comma |
| TitleText.SplitHasSecondField | content.js:15 | `split(',')[1]` exists exactly when the text holds a comma |
| TitleText.SecondField | content.js:15 | `split(',')[1]` is the text between the first comma and the next comma or the end |
| TitleText.SecondFieldUnique | content.js:15 | the second field is determined by the text |
| TitleText.TrimStart | content.js:15 | removes exactly the leading white space |
| TitleText.TrimEnd | content.js:15 | removes exactly the trailing white space |
| TitleText.Trim | content.js:15 | the result is a slice of the text, with only white space on either side of it, and it neither starts nor ends with white space |
| TitleText.TrimIdempotent | content.js:15 | trimming twice is trimming once |
| TitleText.LowerKeepsCommas | content.js:15 | lower-casing neither adds nor removes a comma |
| TitleText.UnitSegment | content.js:15 | throws exactly when the title has no comma; otherwise it is the trimmed second field of the lower-cased title, with no ASCII capital |
| TitleText.ExampleUnitSegment | content.js:15 | `Eggs, 12 CT` yields `12 ct` |
| UnitPattern.FirstAlias | content.js:17 | the first alternative, in the pattern's order, that fits at a position; none earlier fits |
| UnitPattern.NumberEnd | content.js:17 | the end of `\d+(?:\.\d+)?` from a position: past the position when a digit is there, covering only digits and dots, and not followed by a digit (that it is the greedy end is `NumberEndMaximal`) |
| UnitPattern.NumberEndMaximal | content.js:17 | the number is greedy: from a digit, no stretch of the text longer than the one `NumberEnd` takes is a number of the pattern |
| UnitPattern.MatchShape | content.js:17 | every match at a position uses the longest number and the longest white-space run there, so backtracking into them never yields a different match |
| UnitPattern.NumberEndIsPatternNumber | content.js:17 | from a digit, the greedy number is a non-empty `\d+(?:\.\d+)?` |
| UnitPattern.MatchHere | content.js:17 | at one position: the first alternative that fits after the number and the white space, or the proof that nothing matches there |
| UnitPattern.NoMatchOffDigit | content.js:17 | no match starts at a character that is not a digit |
| UnitPattern.Scan | content.js:17 | the scan from a position finds the first matching position at or after it, with the first alternative there, or proves there is none |
| UnitPattern.Exec | content.js:17-18 | `match` reports the leftmost matching position, with the first alternative that fits there, or null when no position matches |
| UnitPattern.LeftmostFirstMatchUnique | content.js:17 | at most one result fits that description |
| UnitPattern.ExecIsDetermined | content.js:17 | any result that fits the description is the one `match` reports |
| UnitPattern.LbNeverReported | content.js:17 | the alternative `lb` is never reported |
| UnitPattern.AliasAtLowerText | content.js:17 | on lower-cased text, the matched unit is spelled as in the pattern |
| UnitPattern.ExamplePoundsReadAsLitres | content.js:17 | `2 lb` is read with the unit `l` |
| UnitPattern.ExampleKilograms | content.js:17 | `1.5 kg` is read as 1.5 with the unit `kg` |
| UnitPattern.ExampleMillilitres | content.js:17 | `250ml` is read with the unit `ml`, without white space |
| UnitPattern.ExampleMultiPack | content.js:17 | in `12 x 355 ml` the `12` is skipped and `355 ml` is read |
| UnitPattern.ExampleCountPattern | content.js:17 | `12 ct` is read with the unit `ct` |
| UnitExtraction.PatternNumberParses | content.js:19 | the captured number is a decimal literal, and `parseFloat` reads it whole |
| UnitExtraction.UnitFromText | content.js:17-19 | null exactly when nothing matches; otherwise the amount is the value of the leftmost match's number and the unit is its matched text, which on lower-cased text is one of the nine alternatives |
| UnitExtraction.ExtractUnit | content.js:11-20 | null without a title element; throws exactly when the title has no comma; any unit read is one of the nine alternatives |
| UnitExtraction.ExtractUnitNull | content.js:17-18 | the result is null exactly when no position of the unit field matches |
| UnitExtraction.ExtractUnitReadsLeftmostMatch | content.js:15-19 | a unit object read from a title is the leftmost first-alternative match of its unit field, with the unit spelled as in the pattern |
| UnitExtraction.ExampleCountUnit | content.js:15-19 | `Eggs, 12 CT` is read as 12 of `ct` |
| PerUnit.Divide | content.js:26 | a positive price divided by 0 is Infinity; otherwise the quotient times the divisor is the price |
| PerUnit.PricePerUnit | content.js:25-37 | the caption for each branch; Infinity exactly for a zero amount; the figure times the amount is 100 times the price for `g` and `ml`, is 100 times the price for `l` once litres are counted in millilitres, and is the price for every other unit |
| PerUnit.ShowPricePerUnit | content.js:23-37 | a figure is shown exactly when the price is a number other than NaN and 0 and there is a unit object, and it is then the branch figure of `PricePerUnit` for that price and unit object |
| PerUnit.LitreAsMillilitres | content.js:31-33 | an amount in litres is priced like a thousand times that amount in millilitres |
| PerUnit.GramsLikeMillilitres | content.js:25-30 | grams and millilitres share one formula and differ only in the caption |
| PerUnit.KilogramsNotConverted | content.js:34-36 | `kg` is priced per kilogram under `Price per kg`, ten times the per-100g figure of the same weight in grams |
| PerUnit.PricePerUnitProportional | content.js:25-37 | the figure scales with the price and the caption does not change |
| PerUnit.ExamplePerCount | content.js:34-36 | 12 `ct` at 3.6 show 0.3 under `Price per ct` |
| Listing.ProcessListing | content.js:57-61 | one container throws exactly when its title has no comma; a figure needs both a price element and a title element |
| Listing.ShownExactlyWhen | content.js:23 | a figure is shown exactly when a unit is read and the cleaned price text reads as a positive number |
| Listing.ShownFigure | content.js:58-60 | a shown figure is the branch figure of `PricePerUnit` for the positive price read from the cleaned price text and the unit object read from the title |
| Listing.ThrowsWhateverThePrice | content.js:58-59 | whether the container throws does not depend on the price |
| Listing.ExampleCount | content.js:57-61 | `Eggs, 12 CT` at `$3.60` shows 0.3 under `Price per ct` |
| Listing.ExampleNoComma | content.js:15 | `Organic Bananas` throws, whatever the price |

## Left out

- DOM access (`querySelector`, `querySelectorAll`, `textContent`): the price text and the title text are inputs, and a missing element is `None`.
- Rendering (creating the `div`, its styles, `insertBefore`, `prepend`): these are browser side effects, and the model returns the figure and caption instead.
- The `forEach` driver over all containers: a `TypeError` thrown for one container ends the callback loop for the remaining ones. The model covers a single container.
- `toFixed(2)` and the `: $` text after the caption: these are floating-point presentation. The caption keeps only its `Price per …` part, and the figure is an exact `real`.
- PerUnit.PricePerUnit: it computes over exact reals, not IEEE doubles, so rounding and overflow to Infinity for huge values are not modelled. Division by a zero amount is modelled as Infinity.
- PriceText.ParseFloat: it covers only text made of digits and dots, which is all that can reach it after cleaning. Signs, exponents, `Infinity` and leading white space are not modelled.
- PriceText.ParseFloat: the value read is the exact decimal value of the literal, not the nearest double. A literal of 309 or more digits, which reads as `Infinity`, and a literal so small that it reads as 0 are not modelled; the model gives the exact positive value, so a figure is shown where the `!price` guard would hide a price that underflows to 0.
- UnitExtraction.UnitFromText: the amount is likewise the exact value of the captured number, without rounding to a double, overflow or underflow.
- Chars.ToLower: it models only the `toLowerCase` mappings that affect this pattern: ASCII capitals, and the Kelvin sign, which becomes `k`. Other non-ASCII case mappings are not modelled, including those that change the length: `İ` (U+0130) lower-cases to `i` followed by U+0307. None of them can produce a digit, a comma, white space or an alternative's letter, so the matched number and unit do not change.
- popup.js is not part of this model: it only stores and reads a preference and wires up UI events.
- package.py is not part of this model: it only writes a zip file.
- Multi-pack quantities (`N x M`), retailer per-unit prices, promotions, coupons and user unit preferences are not part of this model, because the script does not implement them.
