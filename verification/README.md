# Allergen scanner core, in Dafny

A model of the logic behind a barcode-scanning allergen checker. A product
record from a public food database is turned into a `Product`. Its eight
allergens are classified as `Present`, `MayContain`, `NotPresent` or
`Unknown`. Its ingredient text is split into at most twenty entries. Each
product scanned successfully goes to the front of a scan history that is
unique by barcode and holds at most fifty entries.

Modules, one per concern of the original:

- `Products` (`products.dfy`): the status enum, the eight allergen keys, the
  allergen record with one field per key, and the `Product` record
  (types/product.ts).
- `Text` (`text.dfy`): the string operations the services use. These are
  substring search (`includes`), lower-casing, `trim` and `split(/[,;]/)`.
- `Allergens` (`allergens.dfy`): `parseAllergens`. It is written as the
  source's three passes over a map that starts all `Unknown`, and it is
  proved equal, key by key, to `ExpectedStatus`. `ExpectedStatus` reads the
  status off the inputs directly: a declared tag gives `Present`; otherwise a
  trace tag gives `MayContain`; otherwise the lower-cased ingredients text
  gives `Present`; otherwise the key is `NotPresent`.
- `Ingredients` (`ingredients.dfy`): `parseIngredients`.
- `Normalizer` (`normalizer.dfy`): `parseOpenFoodFactsProduct`.
- `ScanHistory` (`scan_history.dfy`): the list rule of `addToScanHistory`,
  plus `getScanHistory` and `clearScanHistory` over an abstract storage
  slot.
- `Lookup` (`lookup.dfy`): `getProductByBarcode` and its stand-in products.
- `Wrappers` (`wrappers.dfy`): `Option`, for fields that may be absent.

Inputs the model takes as parameters instead of performing:

- the outcome of the HTTP request (`FetchOutcome`: not found, failed, or a record);
- the current time (`now`, stored as `scanDate`);
- the value of `Math.random()` (`random`, a real in [0, 1)).

Behaviour worth knowing, all kept as the code has it:

- Tags are matched case-sensitively. The ingredients text is lower-cased
  first. So "MILK" in the ingredients text makes milk `Present`, while a tag
  "en:MILK" alone matches nothing.
- Keywords overlap. A tag containing "peanuts" also marks tree nuts (it
  contains "nuts"). A tag containing "shellfish" also marks fish.
- A match in the ingredients text is reported as `Present`, the same status
  a declared tag gives.
- JavaScript's `||` treats the empty string as false. So an empty product
  name or brand is replaced by the placeholder, just as an absent one is.
- An add keeps barcodes unique but does not make them unique. The new
  product's barcode occurs once afterwards. Duplicates of other barcodes
  already in a stored history stay, so uniqueness is proved as an invariant
  that an add preserves.
- A stored history that does not parse reads as `[]`. The next add then
  overwrites it with a one-entry history.

## Model

| member | source | states |
|---|---|---|
| Products.Set | types/product.ts:9-18 | writing one allergen key sets that key and leaves the other seven unchanged |
| Products.Uniform | services/foodService.ts:57-66 | the initial map gives every key the same status |
| Products.Get | services/foodService.ts:97 | `allergens[key]`; Set states how a write changes it, and Extensionality that the eight reads determine the map |
| Products.Extensionality | types/product.ts:9-18 | two allergen maps are equal exactly when they agree on all eight keys |
| Products.AllKeysEnumerates | services/foodService.ts:68-77 | the order the classifier visits keys in lists all eight keys, each once |
| Products.Entries | types/product.ts:9-18 | the allergen object has exactly eight keys, each mapped to its status |
| Text.Contains | services/foodService.ts:85 | `includes`: with ContainsIff, the search holds exactly when the pattern occurs at some index |
| Text.ContainsIff | services/foodService.ts:85 | the recursive substring search holds exactly when the pattern occurs at some index |
| Text.ContainsTransitive | services/foodService.ts:71-76 | a substring of a substring is a substring; this is why overlapping keywords cascade |
| Text.MissingFirstChar | services/foodService.ts:85 | a pattern whose first character does not occur in the text is not found |
| Text.Lower | services/foodService.ts:79 | ASCII lower-casing keeps the length, leaves no upper-case letter, and changes only upper-case letters, each to its lower-case partner |
| Text.LowerIdempotent | services/foodService.ts:79 | lower-casing twice is the same as lower-casing once |
| Text.ContainsSurvivesLower | services/foodService.ts:79 | a lower-case keyword found in the raw text is still found after lower-casing |
| Text.IsWhitespace | services/foodService.ts:125 | the characters `trim` removes: the ECMAScript WhiteSpace and LineTerminator set; Trim and TrimUnique characterise the cut |
| Text.Trim | services/foodService.ts:125 | the result is a slice of the input, all the cut-off characters are whitespace, and neither end of the result is whitespace |
| Text.TrimUnique | services/foodService.ts:125 | only one string meets the trim contract, so that contract pins the result down |
| Text.TrimKeepsNoSeparator | services/foodService.ts:124-125 | trimming a piece free of `,` and `;` leaves it free of them |
| Text.Split | services/foodService.ts:124 | splitting gives at least one piece, and no piece holds `,` or `;` |
| Text.SplitPlain | services/foodService.ts:124 | text without separators is one piece: itself |
| Text.SplitAtSeparator | services/foodService.ts:124 | splitting at a separator gives the pieces of the left part, then those of the right part |
| Allergens.Keywords | services/foodService.ts:68-77 | the keyword table `allergenMapping`; KeywordsAreLowerCase states every keyword has three or more lower-case letters |
| Allergens.Mentions | services/foodService.ts:84-86 | `.some(term => text.includes(term))`; with ContainsIff, some keyword occurs at some index of the text |
| Allergens.KeywordsAreLowerCase | services/foodService.ts:68-77 | every keyword has at least three letters, all lower case |
| Allergens.ExpectedStatus | services/foodService.ts:52-118 | the reference status of a key: a mentioning tag gives `Present`, else a mentioning trace gives `MayContain`, else the lowered text decides; ParseAllergens is proved equal to it |
| Allergens.DeclaredPass | services/foodService.ts:82-90 | the first pass over the declared tags; DeclaredPassEffect states what it does to each key |
| Allergens.MarkDeclared | services/foodService.ts:83-89 | the inner loop of the first pass for one tag; MarkDeclaredEffect states its effect on each key |
| Allergens.MarkDeclaredEffect | services/foodService.ts:83-89 | one declared tag sets to `Present` exactly the visited keys it mentions; every other key keeps its status |
| Allergens.DeclaredPassEffect | services/foodService.ts:82-90 | after the first pass a key is `Present` if any tag mentions it; otherwise it keeps its status |
| Allergens.TracePass | services/foodService.ts:93-101 | the second pass over the trace tags; TracePassEffect states what it does to each key |
| Allergens.MarkTrace | services/foodService.ts:94-100 | the inner loop of the second pass for one trace; MarkTraceEffect states its effect on each key |
| Allergens.MarkTraceEffect | services/foodService.ts:94-100 | one trace tag changes only `Unknown` keys it mentions, and changes them to `MayContain` |
| Allergens.TracePassEffect | services/foodService.ts:93-101 | the second pass turns a key to `MayContain` exactly when it was `Unknown` and some trace mentions it; no other key changes |
| Allergens.IngredientsPass | services/foodService.ts:104-115 | the third pass over the lowered text; IngredientsPassEffect states what it does to each key |
| Allergens.IngredientsPassEffect | services/foodService.ts:104-115 | the third pass decides each `Unknown` key from the lowered text (`Present` if mentioned, else `NotPresent`) and leaves decided keys alone |
| Allergens.ParseAllergens | services/foodService.ts:52-118 | the three passes agree on every key with the independent reference: tags, then traces, then the lower-cased text |
| Allergens.ParseAllergensDecidesEveryKey | services/foodService.ts:104-115 | no key is `Unknown` in the result, and the result has all eight keys |
| Allergens.PresentIff | services/foodService.ts:82-113 | `Present` exactly when a tag mentions the key, or no trace does and the lower-cased text does |
| Allergens.MayContainIff | services/foodService.ts:93-101 | `MayContain` exactly when a trace mentions the key and no tag does; a trace never downgrades a declared key |
| Allergens.NotPresentIff | services/foodService.ts:104-113 | `NotPresent` exactly when no tag, no trace and not the lower-cased text mentions the key |
| Allergens.IngredientsCaseInsensitive | services/foodService.ts:79 | lower-casing the ingredients text beforehand does not change the result |
| Allergens.UpperCaseIngredientsDetected | services/foodService.ts:79 | "MILK" in the ingredients text makes milk `Present` |
| Allergens.NoLowerCaseNoMention | services/foodService.ts:85 | a text with no lower-case letter mentions no allergen |
| Allergens.ShortRunsMissWord | services/foodService.ts:85 | a word of three or more lower-case letters is not found in a text with no three lower-case letters in a row |
| Allergens.ShortLowerRunsNoMention | services/foodService.ts:83-89 | a text with no three lower-case letters in a row mentions no allergen |
| Allergens.UpperCaseTagIgnored | services/foodService.ts:82-90 | a single tag with no three lower-case letters in a row, no traces and no text leaves the key `NotPresent`: tags are not lower-cased |
| Allergens.LanguagePrefixedTagIgnored | services/foodService.ts:82-90 | a tag "en:" followed by text without lower-case letters leaves every key `NotPresent` |
| Allergens.EnMilkTagIgnored | services/foodService.ts:82-90 | the tag "en:MILK" alone leaves milk `NotPresent` |
| Allergens.MentionsThroughWord | services/foodService.ts:85 | text containing a word mentions every key that has a keyword inside that word |
| Allergens.PeanutsTagCascades | services/foodService.ts:71-72 | a tag containing "peanuts" makes both peanuts and tree nuts `Present` |
| Allergens.ShellfishTagCascades | services/foodService.ts:75-76 | a tag containing "shellfish" makes both shellfish and fish `Present` |
| Allergens.AnyMentionsDependsOnMembers | services/foodService.ts:82-101 | whether some tag mentions a key depends only on which tags there are |
| Allergens.TagOrderIrrelevant | services/foodService.ts:82-101 | only which tags and traces occur matters: reordering or repeating them does not change the classification |
| Ingredients.Clean | services/foodService.ts:125-126 | kept entries are non-empty and trimmed, there are no more of them than pieces, and they stay free of separators |
| Ingredients.CleanAppend | services/foodService.ts:125-126 | trim-and-filter works piece by piece: cleaning `a + b` is cleaning `a`, then cleaning `b` |
| Ingredients.ParseIngredients | services/foodService.ts:120-128 | empty text gives `[]`; there are at most 20 entries, each non-empty, trimmed and free of `,` and `;` |
| Ingredients.Pieces | services/foodService.ts:123-126 | split, trim and drop empty entries, before the cap; PiecesOfPlainText and PiecesAtSeparator determine it |
| Ingredients.PiecesOfPlainText | services/foodService.ts:123-126 | text without separators gives its trimmed form as the only entry, or none if that is empty |
| Ingredients.PiecesAtSeparator | services/foodService.ts:123-126 | entries before a separator come before those after it, in source order |
| Ingredients.PiecesAtTwoSeparators | services/foodService.ts:123-126 | with two separators, the entries of the three parts follow one another in source order |
| Ingredients.Take | services/foodService.ts:127 | `slice(0, n)`; ParseIngredientsTakesPrefix states the result is the first 20 entries, or all when fewer |
| Ingredients.ParseIngredientsTakesPrefix | services/foodService.ts:127 | the result is the first 20 entries, or all of them when there are at most 20 |
| Ingredients.PlainEntry | services/foodService.ts:123-126 | a separator-free text with non-empty trimmed form `t` is the single entry `t` |
| Ingredients.ParseIngredientsExample | services/foodService.ts:120-128 | "Sugar, Salt; Water" gives ["Sugar", "Salt", "Water"] |
| Normalizer.OrElse | services/foodService.ts:42-43 | a present non-empty value is kept; an absent or empty one becomes the fallback |
| Normalizer.ParseOpenFoodFactsProduct | services/foodService.ts:33-50 | keeps the barcode; names default to "Unknown Product" / "Unknown Brand"; image and grade pass through; `scanDate` is now; the ingredients are `parseIngredients` of the record's text (or of `""`), so at most 20; allergens fully decided as the classifier specifies |
| Normalizer.EmptyRecordDefaults | services/foodService.ts:33-50 | a record with every field absent gives both placeholder names, no ingredients and every allergen `NotPresent` |
| ScanHistory.WithoutBarcode | services/storageService.ts:26-28 | the filter removes exactly the entries with that barcode, keeps the others in order, and shrinks by the number removed |
| ScanHistory.SubsequenceOfTail | services/storageService.ts:26-28 | an order-preserving selection from the tail is one from the whole list |
| ScanHistory.SubsequenceDropFirst | services/storageService.ts:26-28 | dropping the first selected element keeps the selection order-preserving |
| ScanHistory.SubsequencePrefix | services/storageService.ts:31 | a prefix of an order-preserving selection is still one |
| ScanHistory.AddToHistory | services/storageService.ts:26-31 | the new product is first and its barcode appears nowhere else; the rest is old entries in their old order; the length is capped at 50 |
| ScanHistory.WithoutAbsentBarcode | services/storageService.ts:26-28 | filtering out a barcode no entry has changes nothing |
| ScanHistory.WithoutBarcodeAvoids | services/storageService.ts:26-28 | the filtered list holds no barcode the old list lacked |
| ScanHistory.WithoutBarcodeKeepsUnique | services/storageService.ts:26-28 | filtering keeps barcodes unique |
| ScanHistory.AddLeavesOneEntryPerBarcode | services/storageService.ts:26-31 | after an add, the product's barcode occurs exactly once |
| ScanHistory.AddPreservesUniqueBarcodes | services/storageService.ts:26-31 | if the old history had unique barcodes, so does the new one |
| ScanHistory.AddKeepsMostRecentRest | services/storageService.ts:31 | after the new entry come the filtered old entries, cut to the first 49 |
| ScanHistory.AddIdempotent | services/storageService.ts:26-31 | adding the same product twice in a row equals adding it once |
| ScanHistory.AddToFullHistoryDropsOldest | services/storageService.ts:31 | a new barcode added to a full history of 50 drops the oldest entry and keeps the other 49 in order |
| ScanHistory.AddToScanHistory | services/storageService.ts:20-38 | with storage available, the stored history becomes the old one with the product added, headed by it and at most 50 long; without storage nothing changes |
| ScanHistory.ClearScanHistory | services/storageService.ts:40-48 | afterwards the history reads as `[]`; with storage the slot is emptied; without storage nothing changes |
| ScanHistory.GetScanHistory | services/storageService.ts:7-18 | reads the stored list; ReadWithoutHistoryIsEmpty gives the `[]` cases and AddToScanHistory relates it to writes |
| ScanHistory.ReadWithoutHistoryIsEmpty | services/storageService.ts:7-18 | no storage, an empty slot or an unparsable slot all read as `[]` |
| ScanHistory.ReadAfterClearIsEmpty | services/storageService.ts:43 | reading after a clear gives `[]` |
| ScanHistory.StoreTwiceSameAsOnce | services/storageService.ts:20-38 | storing the same product twice in a row leaves the same storage as storing it once |
| ScanHistory.StoreKeepsUniqueBarcodes | services/storageService.ts:20-38 | unique barcodes in the stored history survive an add |
| Lookup.MockProducts | services/foodService.ts:130-169 | there are two stand-in products, each carrying the requested barcode and with no key `Unknown` |
| Lookup.MockIndex | services/foodService.ts:171 | for a random value in [0, 1) the index is 0 or 1, and it is 0 exactly when the value is below one half |
| Lookup.GetMockProduct | services/foodService.ts:130-172 | the stand-in is one of the two, carrying the requested barcode |
| Lookup.GetProductByBarcode | services/foodService.ts:7-31 | the result always carries the requested barcode, both names and decided allergens; a found record is normalised and added to history; any other outcome returns a stand-in and leaves storage alone |
| Lookup.FoundLookupIsMostRecent | services/foodService.ts:16-21 | after a successful lookup with storage available, the product heads the history and its barcode occurs once |
| Lookup.FailedLookupKeepsHistory | services/foodService.ts:22-30 | a not-found or failed lookup leaves the history unchanged |

## Left out

- Text.Lower: lower-cases ASCII letters only, while `toLowerCase` uses full Unicode case mapping. This can change the result. U+212A KELVIN SIGN lower-cases to ASCII `k`, so ingredients text "MIL\u212A" makes milk `Present` in the source but `NotPresent` in the model. Full case mapping also changes lengths: U+0130 lower-cases to two code units, so the source's lower-casing does not keep the length. The model's results agree with the source for ASCII ingredients text.
- Strings: a Dafny `string` is a sequence of Unicode scalar values, while a JavaScript string is a sequence of UTF-16 code units. Every keyword, separator and whitespace character is a single BMP code unit, so `includes`, `trim`, `split(/[,;]/)` and the non-empty test behave the same on representable text. Lone surrogates cannot be represented in the model.
- The HTTP request, `response.json()` and the shape of the database response (services/foodService.ts:9-10) are network I/O. Their result is the `FetchOutcome` parameter. A response with a non-zero status but no usable record throws in the source; it falls under `Failed`.
- `new Date()` (services/foodService.ts:48, 149, 167) is a clock read. It is the `now` parameter.
- `Math.random()` (services/foodService.ts:171) is the `random` parameter.
- `localStorage`, `JSON.stringify`/`JSON.parse` and the `window` check (services/storageService.ts:9-11, 33, 43) are platform storage. They are the abstract `Storage` slot. Serialisation is not modelled: dates do not come back as strings, and a parsed value that is not an array is not modelled. A `setItem` that throws (for example, a full quota) would leave the old history in place. The model's add always succeeds while storage is available.
- `async`/`await` and the lost-update race between overlapping adds are left out. The interface lets only one lookup run at a time.
- `console.warn`/`console.error` logging is left out, and so is the distinction it draws between "not found" and other failures. That distinction has no effect on the result.
- The React Native screens and components, including the `hasAllergens` display predicate, are not part of this model.
