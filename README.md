# A verified model of the Emlak AI front end's rules

This project models the rules in the real-estate front end in Dafny and proves properties of them. It covers the map component and the rule helpers and state logic of five pages.

- **Map component** (`Map.jsx`). It places a marker for a district and a typed neighbourhood name:
  - `normalizeNeighborhood` strips a Turkish *mahalle* suffix, collapses white space and trims.
  - Three hard-coded place tables.
  - `getCenter` tries five tiers in order, where the first match in declaration order wins:
    1. exact, case-insensitive;
    2. normalised;
    3. partial (containment either way);
    4. the district's centroid;
    5. the city centre.
  - The zoom rule.
- **Listing check** (`CheckListing.jsx`):
  - the digit filter, dot removal, room-count parser and verdict colour;
  - the form's fields and what each input stores;
  - the payload `handleSubmit` posts;
  - the submit gating.
- **Comparison** (`Compare.jsx`):
  - the same helpers, in their unguarded variants;
  - the two property forms;
  - the request body of each side, with its optional neighbourhood;
  - the compare gating and the winner expression.
- **Model training** (`TrainModel.jsx`):
  - the CSV acceptance check (extension after the last dot, or MIME type);
  - the page's state and how file choice, training start, training end, removal and start-over change it;
  - the row count and the train-button gating.
- **Trends** (`Trends.jsx`): the month label of a `YYYY-MM` date and the demand-level thresholds.
- **Presentation** (`Presentation.jsx`): the clamped slide index moved by the dots and the previous/next buttons, the disabled predicates and the call-to-action slide.

## How the model is built

- **JavaScript built-ins.** The ones the code depends on are written out as functions on Dafny strings, in modules `JsString` and `JsNumber`:
  - the `\s` class, `trim`, `toLowerCase`, `includes`, `split`, `lastIndexOf`, `substring`, and `replace` with a one-character global pattern;
  - `Number(string)`, `parseInt`, `||` and `+` on numbers.

  A number is an integer or NaN.
- **Coordinates** are integers in units of 1e-4 degrees. Every literal in the tables has four decimals, and nothing computes with them.
- **Ordering.** A district's neighbourhood entries are an ordered sequence, which keeps the `Object.keys` order the `find` calls and the `for … of` loop depend on.
- **Code shape follows the source.**
  - Pure rules are functions.
  - The partial tier's loop is a `while` loop (`Resolver.ScanPartial`) proved equal to the first-match function.
  - `getCenter` is a method proved equal to `Resolver.Resolve`.
  - The payload construction is a method that adds the optional keys one by one, proved equal to `ListingForm.PayloadOf`.
  - The training page and the slide show are classes whose methods update their fields.

Four behaviours are easy to assume otherwise; the model follows the code in each case:

- **The exact tier trims only the typed name, not the key** (`Map.jsx:172`). A key with surrounding spaces can never match exactly.
- **Normalisation is not idempotent** (`Map.jsx:31-33`). Each suffix pattern is applied once, and only at the very end of the untrimmed string. `Moda Mh. Mah.` normalises to `Moda Mh.`, which normalises again to `Moda`. `Moda Mh. ` keeps its suffix.
- **Lowercase queries resolve in the exact tier.** `çengelköy` in Üsküdar is an exact match of the key `Çengelköy` because the comparison is case-insensitive. It is not a normalised or partial match.
- **The zoom depends only on which inputs are non-empty.** An unmatched neighbourhood still gets zoom 15.

`Resolution.tier` is an addition of the model: the component returns only the coordinate. The tier lets the lemmas say which rule applied.

## Model

| member | source | states |
|---|---|---|
| JsString.Trim | frontend/src/components/Map.jsx:35 | `trim` returns a slice of the input that starts and ends with a non-space, and only white space is cut off at either end |
| JsString.TrimEmptyIffBlank | frontend/src/components/Map.jsx:194 | a string trims to empty exactly when it is all white space |
| JsString.TrimOfBordered | frontend/src/components/Map.jsx:172 | trimming a string that starts and ends with a non-space returns it unchanged |
| JsString.LowerAppend | frontend/src/components/Map.jsx:172 | `toLowerCase` works character by character, so it distributes over concatenation |
| JsString.Lower | frontend/src/components/Map.jsx:172 | `toLowerCase`, one character at a time; the result is never shorter than the input (a capital `İ` becomes two characters) |
| JsString.Split | frontend/src/pages/Trends.jsx:52 | `split` on one character gives one more piece than there are separators, and no piece contains the separator |
| JsString.JoinSplit | frontend/src/pages/Trends.jsx:52 | joining the pieces of `split` with the separator gives back the input |
| JsString.FilterCounts | frontend/src/pages/CheckListing.jsx:35 | `replace(/x/g, '')` keeps every other character as often as it occurs and removes every `x` |
| JsString.FilterAppend | frontend/src/pages/CheckListing.jsx:47 | the kept characters stay in input order |
| JsString.FilterIdempotent | frontend/src/pages/CheckListing.jsx:47 | removing a character class twice is the same as once |
| JsString.Filter | frontend/src/pages/CheckListing.jsx:35 | `replace(/x/g, '')` keeps only characters outside the pattern class and is never longer than its input; its contents and order are stated by `FilterCounts` and `FilterAppend` |
| JsString.Includes | frontend/src/components/Map.jsx:196-200 | `includes`: the second string occurs at some position of the first; `IncludesChars` states that every character of an included string is in the including one |
| JsString.LastIndexOf | frontend/src/pages/TrainModel.jsx:21 | the result is -1 exactly when the character is absent; otherwise the character is at that index and not after it |
| JsString.SubstringFrom | frontend/src/pages/TrainModel.jsx:21 | `substring` with a negative start returns the whole string |
| JsNumber.Or | frontend/src/pages/CheckListing.jsx:72-73 | `a \|\| b` on numbers is `a` when it is neither 0 nor NaN, else `b` |
| JsNumber.Plus | frontend/src/pages/CheckListing.jsx:54 | a sum is NaN exactly when one operand is; otherwise it adds |
| JsNumber.LongestPrefix | frontend/src/pages/Trends.jsx:55 | the digits `parseInt` reads form the longest prefix of qualifying characters: all of them qualify, and the next one does not |
| JsNumber.ToNumberOfTrim | frontend/src/pages/CheckListing.jsx:72 | `Number(s)` reads `s.trim()`: digits, optionally after one sign, give their value, the empty string gives 0, and everything else gives NaN |
| JsNumber.ToNumberOfDigits | frontend/src/pages/CheckListing.jsx:72 | `Number` of a digit string is its decimal value, and of a blank string 0 |
| JsNumber.ToNumberOfSigned | frontend/src/pages/CheckListing.jsx:74 | `Number` reads one leading sign: `-` before digits gives the negated value, and `+` gives the value |
| JsNumber.ToNumber | frontend/src/pages/CheckListing.jsx:72-74 | `Number(string)`; the definition itself, whose meaning `ToNumberOfTrim`, `ToNumberOfDigits` and `ToNumberOfSigned` state |
| JsNumber.ParseIntOfDigits | frontend/src/pages/Trends.jsx:55 | `parseInt` of a non-empty digit string is its value, and of the empty string NaN |
| JsNumber.ParseInt | frontend/src/pages/Trends.jsx:55 | `parseInt` with no radix, as a definition: leading white space, an optional sign, an optional `0x`, then the longest digit run; `ParseIntOfDigits` and `LongestPrefix` state its meaning |
| Normalizer.StripSuffix | frontend/src/components/Map.jsx:31-33 | one `/stem last?$/i` removal drops the longer suffix if the string ends with it, else the shorter one, else nothing; at most one removal, and it is a prefix of the input |
| Normalizer.StripSuffixes | frontend/src/components/Map.jsx:31-33 | the three removals in order leave a prefix of the input |
| Normalizer.CollapseSpaces | frontend/src/components/Map.jsx:34 | `replace(/\s+/g, ' ')` leaves only single spaces, never two in a row; it is empty exactly when its input is, it starts with the input's first character or a space, and its ends are white space exactly where the input's are |
| Normalizer.CollapseKeepsText | frontend/src/components/Map.jsx:34 | every character that is not white space is kept, all of them and in their order: filtering out the white space of the result gives that of the input |
| Normalizer.CollapseAppend | frontend/src/components/Map.jsx:34 | no run crosses a cut made right after a non-space, so collapsing the two parts separately and joining them gives the collapse of the whole |
| Normalizer.CollapseRun | frontend/src/components/Map.jsx:34 | a maximal run of white space of any length and kind becomes exactly one space, with each side collapsing as on its own |
| Normalizer.RunsCollapseAlike | frontend/src/components/Map.jsx:34 | any two maximal runs in the same place give the same collapsed string |
| Normalizer.CollapseSpaceStep | frontend/src/components/Map.jsx:34 | a white-space character followed by more white space is absorbed into the run; followed by a non-space it is the run's one space |
| Normalizer.WidenedGapCollapses | frontend/src/components/Map.jsx:34 | widening the gap of a canonical two-word name, followed by a space, to any run leaves its collapsed form unchanged |
| Normalizer.Normalize | frontend/src/components/Map.jsx:27-36 | absent exactly for an absent or empty name; otherwise a string with collapsed spaces and no white space at either end |
| Normalizer.CollapseOfCollapsed | frontend/src/components/Map.jsx:34 | collapsing an already collapsed string changes nothing |
| Normalizer.CanonicalFixed | frontend/src/components/Map.jsx:34-35 | collapsing and trimming leave a canonical name unchanged |
| Normalizer.TrailingSpaceBlocksStripping | frontend/src/components/Map.jsx:31-33 | a name ending in white space keeps every suffix, because the patterns are anchored at the very end |
| Normalizer.SuffixFormsVanish | frontend/src/components/Map.jsx:31-33 | each of `Mah.`, `Mah`, `Mahallesi`, `Mahalles`, `Mh.` and `Mh`, on its own, is removed entirely |
| Normalizer.StripSuffixesAfterSpace | frontend/src/components/Map.jsx:31-33 | after a space the removals act on the last word alone, and on a case variant of it as on the word |
| Normalizer.NormalizeStripsSuffixWord | frontend/src/components/Map.jsx:27-36 | a canonical name, a space and any case variant of a suffix spelling normalise to the name |
| Normalizer.SuffixWordRemoved | frontend/src/components/Map.jsx:31-33 | a case variant of a suffix spelling after a space is removed and the space before it stays |
| Normalizer.NormalizeCollapsesInnerRun | frontend/src/components/Map.jsx:27-36 | a suffixed canonical two-word name whose gap is widened to any run of white space normalises to the name with one space in the gap |
| Normalizer.NormalizeKeepsPlainName | frontend/src/components/Map.jsx:27-36 | a non-empty canonical name that ends with no suffix spelling normalises to itself |
| Normalizer.NormalizeKeepsSuffixBeforeSpace | frontend/src/components/Map.jsx:30-35 | a canonical name plus one trailing space normalises to the name itself, suffix included |
| Normalizer.NormalizeRemovesOnlyLastSuffix | frontend/src/components/Map.jsx:31-33 | `Moda Mh. Mah.` normalises to `Moda Mh.` |
| Normalizer.NormalizeRemovesMh | frontend/src/components/Map.jsx:33 | `Moda Mh.` normalises to `Moda` |
| Normalizer.NormalizeNotIdempotent | frontend/src/components/Map.jsx:31-35 | normalising twice differs from normalising once on `Moda Mh. Mah.` |
| Normalizer.NormalizeBlank | frontend/src/components/Map.jsx:28-35 | a non-empty all-white-space name is truthy but normalises to the empty string |
| Gazetteer.Uncharted | frontend/src/components/Map.jsx:50-161 | `Bayrampaşa` and `Büyükçekmece` are in neither the centroid table nor the neighbourhood table |
| Gazetteer.UskudarCentroid | frontend/src/components/Map.jsx:52 | Üsküdar's centroid is (41.0214, 29.0119) |
| Resolver.FindFirst | frontend/src/components/Map.jsx:171-173 | `find` returns the first position whose element passes the test, and none exactly when no element passes |
| Resolver.FindFirstAt | frontend/src/components/Map.jsx:180-185 | an element that passes, with none passing before it, is what `find` returns |
| Resolver.SearchTerm | frontend/src/components/Map.jsx:194 | the partial tier searches for the normalised name when that is non-empty, else for the trimmed typed name |
| Resolver.MatchNeighborhood | frontend/src/components/Map.jsx:169-203 | a match lands on the coordinate of an entry that passes its tier's test: a non-empty key passing the exact test, a key passing the normalised test against a non-empty normalised name, or a key passing the partial test against the search term |
| Resolver.MatchNoneIff | frontend/src/components/Map.jsx:171-203 | no tier matches exactly when no entry passes the partial test, none passes the normalised test (when the normalised name is non-empty), and only empty keys pass the exact test |
| Resolver.NothingMatchesFallsBack | frontend/src/components/Map.jsx:171-212 | a neighbourhood that passes no test puts the marker at the district's centroid, or at the city centre when there is none |
| Resolver.Resolve | frontend/src/components/Map.jsx:163-213 | a neighbourhood tier applies only with both names non-empty and entries for the district, at one of its entries; the district tier gives its centroid; the default tier gives the city centre and occurs only when the district has no centroid |
| Resolver.GetCenter | frontend/src/components/Map.jsx:163-213 | the step-by-step `getCenter` returns the position `Resolve` specifies |
| Resolver.MatchEntries | frontend/src/components/Map.jsx:166-203 | the two `find` calls and the loop return the match `MatchNeighborhood` specifies, or nothing exactly when it finds none |
| Resolver.ScanPartial | frontend/src/components/Map.jsx:192-203 | the loop with early return finds the first entry that passes the partial test, in order |
| Resolver.ZoomLevel | frontend/src/components/Map.jsx:224 | the zoom is 15 iff the neighbourhood is non-empty, 13 iff only the district is, and 11 iff neither is |
| Resolver.MatchExactTier | frontend/src/components/Map.jsx:171-176 | the first key with a non-empty name that passes the exact test gives the position |
| Resolver.MatchNormalizedTier | frontend/src/components/Map.jsx:178-189 | with no exact match and a non-empty normalised name, the first key passing the normalised test gives the position |
| Resolver.MatchPartialTier | frontend/src/components/Map.jsx:191-203 | with no exact or normalised match, the first entry passing the partial test, in order, gives the position |
| Resolver.ResolveUsesMatch | frontend/src/components/Map.jsx:165-176 | a neighbourhood match is where the marker goes |
| Resolver.ResolveDistrictFallback | frontend/src/components/Map.jsx:207-212 | without a neighbourhood match, the position is the district's centroid if it has one and the city centre otherwise, the same as with no neighbourhood |
| Resolver.BlankMatchesNothing | frontend/src/components/Map.jsx:171-203 | a neighbourhood made only of white space matches no entry |
| Resolver.BlankNeighborhoodIgnored | frontend/src/components/Map.jsx:163-213 | a blank neighbourhood resolves exactly as no neighbourhood |
| Resolver.ZoomAgreesWithTier | frontend/src/components/Map.jsx:224 | a neighbourhood match always has zoom 15, and zoom 11 only ever shows the city centre |
| MapExamples.CengelkoyIsExact | frontend/src/components/Map.jsx:92-93 | `çengelköy` in Üsküdar is found by the exact tier at `Çengelköy` |
| MapExamples.ModaIsExact | frontend/src/components/Map.jsx:112-113 | `Moda` in Kadıköy is found by the exact tier |
| MapExamples.UskudarAlone | frontend/src/components/Map.jsx:208-209 | Üsküdar alone gives its centroid at zoom 13 |
| MapExamples.NothingGiven | frontend/src/components/Map.jsx:212 | with no input the map shows the city centre at zoom 11 |
| MapExamples.UnknownDistrict | frontend/src/components/Map.jsx:47 | Bayrampaşa with any neighbourhood gives the city centre at zoom 15 |
| FormHelpers.FormatNumber | frontend/src/pages/CheckListing.jsx:33-37 | the result holds only digits and is no longer than the input |
| FormHelpers.FormatNumberCounts | frontend/src/pages/CheckListing.jsx:33-37 | every digit of the input is kept as often as it occurs, and nothing else is kept |
| FormHelpers.FormatNumberAppend | frontend/src/pages/CheckListing.jsx:33-37 | the digits keep their order: formatting a concatenation is concatenating the formatted parts |
| FormHelpers.FormatNumberIdempotent | frontend/src/pages/CheckListing.jsx:33-37 | formatting twice is formatting once |
| FormHelpers.FormatNumberKeepsDigits | frontend/src/pages/CheckListing.jsx:33-37 | a string of digits is left unchanged |
| FormHelpers.FormatNumberUnguarded | frontend/src/pages/Compare.jsx:35 | the comparison page's version without the empty guard gives the same result |
| FormHelpers.FormatPrice | frontend/src/pages/CheckListing.jsx:39-44 | the display is blank exactly when the input has no digit; otherwise it groups the input's digits |
| FormHelpers.FormatPriceUnguarded | frontend/src/pages/Compare.jsx:36-39 | the comparison page's version gives the same display |
| FormHelpers.ParsePrice | frontend/src/pages/CheckListing.jsx:46-48 | the result has no `.` |
| FormHelpers.ParsePriceCounts | frontend/src/pages/CheckListing.jsx:46-48 | every other character keeps its number of occurrences |
| FormHelpers.ParsePriceAppend | frontend/src/pages/Compare.jsx:40 | the characters kept stay in order |
| FormHelpers.ParsePriceIdempotent | frontend/src/pages/CheckListing.jsx:46-48 | removing the dots twice is removing them once |
| FormHelpers.ParsePriceWithoutDots | frontend/src/pages/CheckListing.jsx:46-48 | a string without dots is unchanged |
| FormHelpers.ParsePriceOfGroupedDigits | frontend/src/pages/CheckListing.jsx:158-159 | digit groups joined with dots, as the price field shows them, parse back to the digits |
| FormHelpers.SumOfNumbers | frontend/src/pages/CheckListing.jsx:53-54 | `map(Number).reduce((a, b) => a + b, 0)`, as a definition; `SumOfNumbersSnoc` and `SumOfTwo` state what it computes |
| FormHelpers.ParseRooms | frontend/src/pages/CheckListing.jsx:50-55 | `parseRooms`, as a definition; `ParseRoomsOfSum`, `ParseRoomsOfDigits` and `RoomOptionValues` state its results |
| FormHelpers.ParseRoomsOfSum | frontend/src/pages/CheckListing.jsx:50-55 | `n+m` for digit strings gives the sum of their values |
| FormHelpers.SumOfNumbersSnoc | frontend/src/pages/CheckListing.jsx:53-54 | the reduction adds the pieces from left to right, starting from 0 |
| FormHelpers.SumOfTwo | frontend/src/pages/Compare.jsx:44-45 | two pieces that read as numbers sum to the sum of those numbers |
| FormHelpers.ParseRoomsOfDigits | frontend/src/pages/CheckListing.jsx:50-55 | a single digit string gives its value |
| FormHelpers.RoomOptionValues | frontend/src/pages/CheckListing.jsx:50-55 | the six room options `Stüdyo`, `1+1` … `5+1` give 1 to 6 in order |
| FormHelpers.VerdictColor | frontend/src/pages/CheckListing.jsx:57-61 | green exactly when the verdict contains `IYI` or `İYİ`; red exactly when it contains neither but contains `KOTU` or `KÖTÜ`; blue otherwise, including an absent verdict |
| FormHelpers.VerdictColorNeedsCapitals | frontend/src/pages/Compare.jsx:85-89 | a verdict without `I` and `İ` is never green, and without `K` as well it is blue |
| FormHelpers.VerdictColorGoodWins | frontend/src/pages/CheckListing.jsx:58 | a good marker anywhere makes the verdict green, whatever else it contains |
| ListingForm.InitialWellFormed | frontend/src/pages/CheckListing.jsx:15-27 | the initial form satisfies the field invariant |
| ListingForm.Apply | frontend/src/pages/CheckListing.jsx:127-288 | the input handlers as a definition: each edit replaces one field, the numeric ones through `formatNumber` and the price through `parsePrice`; `ApplyPreservesWellFormed` states the invariant they keep |
| ListingForm.WellFormed | frontend/src/pages/CheckListing.jsx:127-288 | the invariant the handlers keep (digits in the numeric fields, no dot in the price, offered values in the selects), proved by `InitialWellFormed` and `EditsPreserveWellFormed` |
| ListingForm.ApplyPreservesWellFormed | frontend/src/pages/CheckListing.jsx:127-288 | every input change keeps the invariant: numeric fields hold digits, the price holds no dot, and selects hold offered values |
| ListingForm.EditsPreserveWellFormed | frontend/src/pages/CheckListing.jsx:127-288 | the invariant holds after any run of input changes |
| ListingForm.IfPresent | frontend/src/pages/CheckListing.jsx:78-84 | an optional key is present exactly when its field is non-empty, and then holds the value |
| ListingForm.PayloadOf | frontend/src/pages/CheckListing.jsx:70-84 | the area is the net area when that is non-zero and not NaN, else the gross area; an empty room choice sends 0; the price is sent without dots; each optional key is present exactly when its field is non-empty, and then holds the field (neighbourhood, purpose) or its `Number` value |
| ListingForm.BuildPayload | frontend/src/pages/CheckListing.jsx:70-84 | adding the optional keys one by one builds the payload `PayloadOf` specifies |
| ListingForm.PayloadArea | frontend/src/pages/CheckListing.jsx:72 | on a well-formed form the area is the net area's value when non-zero, else the gross area's value (0 when both are empty) |
| ListingForm.PayloadRooms | frontend/src/pages/CheckListing.jsx:73 | on a well-formed form the rooms are 0 with no choice and 1 to 6 for the six options |
| ListingForm.PayloadPrice | frontend/src/pages/CheckListing.jsx:158-159 | a price typed as dot-grouped digits is stored without the dots and sent as the value of its digits |
| ListingForm.PayloadNegativePrice | frontend/src/pages/CheckListing.jsx:74 | a price typed with a leading `-` is sent as the negative number `Number` reads |
| ListingForm.SubmittedRooms | frontend/src/pages/CheckListing.jsx:297 | a form the button lets through sends a room count between 1 and 6 |
| ListingForm.SubmitEnabled | frontend/src/pages/CheckListing.jsx:297 | the `disabled` expression itself, negated; `SubmitGating` and `SubmittedRooms` state what it lets through |
| ListingForm.SubmitGating | frontend/src/pages/CheckListing.jsx:297 | the initial form cannot be submitted, and nothing can be submitted while loading |
| ListingForm.DistrictsWithoutCentroid | frontend/src/pages/CheckListing.jsx:4-12 | every listed district has a centroid except Bayrampaşa and Büyükçekmece |
| ListingForm.UncentredDistrictsSelectable | frontend/src/pages/CheckListing.jsx:6-7 | both of them are offered by the select and lack a centroid |
| ListingForm.UncentredDistrictShowsDefault | frontend/src/components/Map.jsx:208-212 | for those two the map shows the city centre, whatever the neighbourhood |
| ComparePage.Apply | frontend/src/pages/Compare.jsx:107-245 | an edit changes its own side as the handler does and leaves the other side as it was |
| ComparePage.ApplyTo | frontend/src/pages/Compare.jsx:107-245 | the handlers of one side, as a definition; `ApplyPreservesWellFormed` states the invariant they keep |
| ComparePage.EmptyWellFormed | frontend/src/pages/Compare.jsx:16-31 | both initial sides satisfy the field invariant |
| ComparePage.ApplyPreservesWellFormed | frontend/src/pages/Compare.jsx:107-245 | every input change keeps both sides well formed |
| ComparePage.Body | frontend/src/pages/Compare.jsx:55-72 | each side's body carries its district, the numbers read from its fields and the parsed rooms; `neighborhood` is present exactly when non-empty |
| ComparePage.BodyNumbers | frontend/src/pages/Compare.jsx:57-59 | on a well-formed side the area is its decimal value, the rooms are 0 with no choice or 1 to 6, and a stored price of digits is its decimal value |
| ComparePage.BodyPrice | frontend/src/pages/Compare.jsx:166-168 | a price typed as dot-grouped digits is stored without the dots, and the body built at line 59 sends the value of all its digits |
| ComparePage.RoomsAgreeWithListingForm | frontend/src/pages/Compare.jsx:41-46 | without the `\|\| 0` of the listing form, the room count is still the same for every selectable value |
| ComparePage.GatingIgnoresOtherFields | frontend/src/pages/Compare.jsx:258 | only the districts and the loading flag decide whether the compare button is enabled |
| ComparePage.CompareEnabled | frontend/src/pages/Compare.jsx:258 | the `disabled` expression itself, negated; `GatingIgnoresOtherFields` states that only the districts and loading decide it |
| ComparePage.OrDefault | frontend/src/pages/Compare.jsx:333-334 | `d \|\| 999` keeps a present non-zero difference and turns an absent or zero one into 999 |
| ComparePage.WinnerAsWritten | frontend/src/pages/Compare.jsx:332-336 | with both differences kept, listing 1 wins iff its absolute difference is smaller; an absent or zero difference counts as 999; ties go to listing 2 |
| ComparePage.ExactEstimateLoses | frontend/src/pages/Compare.jsx:333-335 | a 0% difference loses to a 50% one as written, but wins under the corrected rule |
| ComparePage.Winner | frontend/src/pages/Compare.jsx:332-336 | corrected rule: of two present differences the one closer to 0 wins, 0% included; an absent one counts as 999; ties go to listing 2 |
| ComparePage.WinnerAgreesAwayFromZero | frontend/src/pages/Compare.jsx:333-334 | the corrected rule and the written one agree when no difference is exactly 0 |
| ComparePage.WinnerSymmetric | frontend/src/pages/Compare.jsx:335 | swapping the listings swaps the winner unless they tie |
| TrainModel.ExtensionOfDotted | frontend/src/pages/TrainModel.jsx:21 | the extension of `base.ext` with no dot in `ext` is `.ext` lower-cased, whatever `base` holds |
| TrainModel.ExtensionWithoutDot | frontend/src/pages/TrainModel.jsx:21 | a name without a dot is its own extension, lower-cased |
| TrainModel.UpperCaseCsvAccepted | frontend/src/pages/TrainModel.jsx:20-23 | `X.CSV` is accepted by its extension alone, whatever its MIME type |
| TrainModel.Extension | frontend/src/pages/TrainModel.jsx:21 | the extension expression itself; `ExtensionOfDotted` and `ExtensionWithoutDot` state its value |
| TrainModel.Acceptable | frontend/src/pages/TrainModel.jsx:20-23 | the acceptance test itself; `UpperCaseCsvAccepted` and `ChooseFile` state its effect |
| TrainModel.RowCount | frontend/src/pages/TrainModel.jsx:134 | the row count shown, `split('\n').length - 1`, is the number of line breaks in the content |
| TrainModel.TrainingPage.constructor | frontend/src/pages/TrainModel.jsx:5-14 | the page starts with no file, no content, no error, no results and not training |
| TrainModel.TrainingPage.ChooseFile | frontend/src/pages/TrainModel.jsx:16-43 | no selection changes nothing; an accepted file is kept with its name and the error cleared, then its text becomes the content or the read error is shown; a rejected file sets the format error and clears the file and the name |
| TrainModel.TrainingPage.BeginTraining | frontend/src/pages/TrainModel.jsx:45-53 | without a file or content only the error is set; otherwise training starts with the error and old results cleared |
| TrainModel.TrainingPage.FinishTraining | frontend/src/pages/TrainModel.jsx:73-80 | training stops; the results, or the message (the default one when empty), are shown |
| TrainModel.TrainingPage.RemoveFile | frontend/src/pages/TrainModel.jsx:139-145 | file, name, content and error are cleared |
| TrainModel.TrainingPage.StartOver | frontend/src/pages/TrainModel.jsx:403-408 | results, file, name and content are cleared and the error stays |
| TrainModel.TrainingGuard | frontend/src/pages/TrainModel.jsx:46-49 | on an idle page training starts exactly when the train button is enabled, and a refused start leaves the page idle with the error set |
| TrainModel.TrainingPage.TrainDisabled | frontend/src/pages/TrainModel.jsx:216 | the `disabled` expression itself; `TrainingGuard` and `ClearedPageCannotTrain` state its role |
| TrainModel.ClearedPageCannotTrain | frontend/src/pages/TrainModel.jsx:216 | after removal or start-over the train button is disabled |
| Trends.MonthNameInRange | frontend/src/pages/Trends.jsx:55 | a month of digits from 1 to 12 names that month |
| Trends.MonthNameOutOfRange | frontend/src/pages/Trends.jsx:55 | a month of digits outside 1 to 12 names no month (`undefined`) |
| Trends.FormatMonthOfDate | frontend/src/pages/Trends.jsx:51-57 | `YYYY-MM` with MM from 01 to 12 gives that month's name, a space and the year text unchanged |
| Trends.FormatMonthOutOfRange | frontend/src/pages/Trends.jsx:51-57 | a month number outside 1 to 12 gives `undefined` and the year |
| Trends.FormatMonthWithoutDash | frontend/src/pages/Trends.jsx:51-57 | a date without a dash gives `undefined` and the whole text |
| Trends.MonthName | frontend/src/pages/Trends.jsx:53-55 | `months[parseInt(month) - 1]` as a definition; `MonthNameInRange` and `MonthNameOutOfRange` state its value |
| Trends.FormatMonth | frontend/src/pages/Trends.jsx:51-57 | `formatMonth` as a definition; `FormatMonthOfDate`, `FormatMonthOutOfRange` and `FormatMonthWithoutDash` state its value |
| Trends.DemandOf | frontend/src/pages/Trends.jsx:73-75 | very high iff the trend is above 5; high iff above 2 and at most 5; medium iff above -2 and at most 2; low iff at most -2 |
| Trends.DemandMonotone | frontend/src/pages/Trends.jsx:73-75 | a higher trend never gives a lower demand level |
| Trends.TrendPercent | frontend/src/pages/Trends.jsx:48 | `trend \|\| 0` turns a missing, null or NaN trend into 0 and keeps every number |
| Trends.MissingTrendIsMedium | frontend/src/pages/Trends.jsx:48-75 | a missing trend is shown as `Orta`, the same as a trend of 0 |
| Trends.ShownDemand | frontend/src/pages/Trends.jsx:48-75 | the demand label of a response's trend, as a definition; `MissingTrendIsMedium` and `DemandOf` state its value |
| Presentation.Step | frontend/src/pages/Presentation.jsx:117-139 | a dot selects its slide; previous goes back one but not below 0; next goes on one but not past the last slide |
| Presentation.StepInRange | frontend/src/pages/Presentation.jsx:117-139 | one clickable action from a slide stays on a slide |
| Presentation.RunInRange | frontend/src/pages/Presentation.jsx:5 | from slide 0, or any slide, every run of clickable actions stays on a slide |
| Presentation.DisabledIffNoOp | frontend/src/pages/Presentation.jsx:131-139 | each of previous and next is disabled exactly where pressing it would change nothing |
| Presentation.NextPreviousInverse | frontend/src/pages/Presentation.jsx:131-138 | next then previous returns to the slide except on the last one, and previous then next except on the first |
| Presentation.NextReachesCta | frontend/src/pages/Presentation.jsx:102 | pressing next enough times reaches the slide that shows the link |
| Presentation.ShowsCta | frontend/src/pages/Presentation.jsx:102 | the condition for showing the link, as a definition; `NextReachesCta` states that it is always reachable |
| Presentation.PreviousDisabled | frontend/src/pages/Presentation.jsx:132 | the `disabled` expression itself; `DisabledIffNoOp` states that it holds exactly where previous does nothing |
| Presentation.NextDisabled | frontend/src/pages/Presentation.jsx:139 | the `disabled` expression itself; `DisabledIffNoOp` states that it holds exactly where next does nothing |
| Presentation.SlideShow.constructor | frontend/src/pages/Presentation.jsx:5 | the show starts on slide 0 |
| Presentation.SlideShow.SelectSlide | frontend/src/pages/Presentation.jsx:120 | a dot sets the current slide to its own and keeps the index valid |
| Presentation.SlideShow.GoPrevious | frontend/src/pages/Presentation.jsx:131 | previous moves as `Step` says and keeps the index valid |
| Presentation.SlideShow.GoNext | frontend/src/pages/Presentation.jsx:138 | next moves as `Step` says and keeps the index valid |

## Left out

- Rendering is not modelled. This covers React state hooks as a mechanism, Leaflet (`MapContainer`, tiles, the marker and its icon, the `setView` effect) and the `isClient` gate. The model covers the values they display.
- Network requests and their responses (`fetch`, `Promise.all`) are not modelled. The request bodies are modelled up to the point where they would be serialised. The training outcome and the file text are parameters of the methods that receive them.
- The key order of `JSON.stringify` is not modelled. The payload is a record whose absent optional keys are `None`.
- The DOM resets of the file input (`document.getElementById(...).value = ''`, `e.target.value = ''`) are not modelled, nor is `console.error`.
- The state updates are modelled as taking effect in program order. The page scheduler and interleaving with other handlers while a file is read or a request runs are not modelled.
- FormHelpers.FormatPrice: the digit grouping of `toLocaleString('tr-TR')` is kept abstract (`Grouped(digits)`), because it belongs to the runtime's locale data. Only the blank/non-blank decision and the digits are modelled. `FormHelpers.ParsePriceOfGroupedDigits` states what dot grouping parses back to.
- JsNumber.ToNumber: only white space, one leading sign and decimal digits are read. Every other numeric syntax gives NaN in the model, though JavaScript reads it as a number: a fraction (`1.5` cannot reach it, since the dots are removed first), an exponent (`1e6`), `0x`/`0o`/`0b`, `Infinity`. The numeric fields of both pages hold digits only (`ListingForm.WellFormed`, `ComparePage.WellFormed`), so the model agrees with JavaScript on them. The asking price of both pages is free text with only its dots removed (CheckListing.jsx:159, Compare.jsx:168 and 245). So a pasted exponent or `Infinity` there is sent as a number by the page but as NaN in `ListingForm.PayloadOf` and `ComparePage.Body`. The same holds for the pieces of a free `+` split in `ComparePage.Body` rooms, which the room select never produces.
- JsNumber.JsNum: numbers are unbounded integers. IEEE rounding of integers above 2^53 is not modelled.
- ComparePage.Winner and ComparePage.WinnerAsWritten: the differences are Dafny reals. A NaN or non-numeric `difference_percent` from the server is not modelled.
- Trends.TrendPercent: every falsy value of the response's trend (missing, `null`, NaN) is one case, and all of them become 0 as the `|| 0` makes them. A trend that the server sends as a non-numeric string is not modelled.
- Float computations on the trends page are not modelled: the volatility, the bar heights and `toFixed` display.
- JsString.LowerChar: `toLowerCase` is modelled for the ASCII, Latin-1 and Latin Extended-A case pairs, which include every Turkish capital, and for `İ`. Other scripts are taken to be their own lower case.
- Resolver.Resolve: the tables are plain maps. Keys inherited from `Object.prototype` (a district named `constructor`, say) are not modelled; the select never offers them.
- The pages' remaining markup, the home, dashboard and routing components, and the `trainingConfig` display are not modelled. They hold no rule beyond `||` defaults for display.

## Findings

| source | as written | input that shows it | evidently intended | confidence | as-written member | corrected member |
|---|---|---|---|---|---|---|
| frontend/src/pages/Compare.jsx:333-335 | `difference_percent \|\| 999` turns a 0% difference, a listing priced exactly at its estimate, into 999 | differences 0 and 50: listing 2 is named the winner | only a missing difference becomes 999 (`?? 999`), so the listing at its estimate wins | medium, not executed | ComparePage.WinnerAsWritten, ComparePage.ExactEstimateLoses | ComparePage.Winner, ComparePage.WinnerAgreesAwayFromZero |
