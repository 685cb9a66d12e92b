# Deadstock intake and listing portal: a Dafny model of the backend core

The backend lets merchants bring deadstock (unsold, unworn stock) into an
inventory and price it for resale. Items are created one at a time or
uploaded as a CSV file. Each item is priced by a fixed rule: the original
price times a condition multiplier times a category multiplier. An item
moves DRAFT → PRICED → LISTED. Buyers check out LISTED items in a
seven-step transaction that can apply a discount code and asks a payment
gateway for authorization.

The model covers six parts of that backend:

| module | file | models |
|---|---|---|
| `Pricing` | pricing.dfy | the multiplier tables and `calculateResalePrice` |
| `Discounts` | discounts.dfy | the discount catalog, `validateDiscount` and `applyDiscount` |
| `InventorySchema` | schema.dfy | the field rules of one CSV row (`inventoryRowSchema`) |
| `CsvValidation` | csv_validation.dfy | `validateRow`, `validateRows`, `validateHeaders` and `isEmptyRow` |
| `Inventory` | inventory.dfy | the inventory service: create, read, update, delete, pricing, listing and bulk upload |
| `Orders`, `OrderNumber` | orders.dfy, order_number.dfy | the checkout transaction, order reads and order numbers |

Four support modules sit underneath:

- `Text`: JavaScript's `trim`, the `\s` class, string length in UTF-16 code units, ASCII case mapping and character filtering.
- `Money`: `Math.round` and rounding to cents, on exact rationals.
- `Clock`: clock readings and `toISOString`.
- `Wrappers`: `Option` and `Result`.

Each service operation is a pure function. It takes the database's rows as a
map from id to record and returns its answer together with the rows after
the call. A thrown `HttpException` becomes the `Failure` of a `Result`.

Order creation runs in a Prisma transaction, and any failing step rolls the
whole transaction back. `Orders.CreateOrder` models this: it returns the
database it was given whenever a step fails. `Orders.Expected` restates the
seven steps directly in terms of the request and the stock. Both
`Orders.RunStepsIsExpected` and `Orders.Transaction` prove that the steps
compute it.

Some inputs come from outside the database. These become explicit
parameters:

- every `new Date()` is an `Instant` argument;
- every draw of `Math.random()` is an argument (the base-36 text of the draw, or the draw itself);
- the payment gateway's answer is a function argument;
- `parseFloat` and `parseInt` are function arguments;
- the id the database assigns to a new row is an argument.

## Model

| member | source | states |
|---|---|---|
| Money.RoundHalfUp | backend/src/common/constants/pricing.constants.ts:43 | `Math.round` returns the integer within half of its argument, and a half goes up |
| Money.Round2 | backend/src/common/constants/discounts.constants.ts:123 | rounding to two decimals gives a whole number of cents, within half a cent of the input |
| Money.RoundHalfUpMonotone | backend/src/common/constants/pricing.constants.ts:43 | a larger input never rounds to a smaller integer |
| Money.Round2Monotone | backend/src/common/constants/discounts.constants.ts:123 | a larger amount never rounds to fewer cents |
| Money.Round2OfCents | backend/src/common/constants/discounts.constants.ts:123 | an amount already in whole cents is unchanged by rounding |
| Money.CentsClosed | backend/src/common/constants/discounts.constants.ts:163-164 | the sum or difference of two whole-cent amounts is in whole cents |
| Text.Trim | backend/src/inventory/helpers/csv-validation.ts:101-103 | `trim` returns the infix that is left after the leading and trailing whitespace runs; the result is empty or has non-whitespace at both ends |
| Text.TrimEmptyIffAllWhitespace | backend/src/inventory/helpers/csv-validation.ts:101-103 | a value trims to empty exactly when every character is whitespace |
| Text.TrimIdempotent | backend/src/inventory/dto/inventory.schema.ts:47 | trimming twice gives the same result as trimming once |
| Text.ToUpper | backend/src/inventory/dto/inventory.schema.ts:80 | `toUpperCase` on ASCII letters: each lower-case ASCII letter becomes its capital and every other character is kept, so the length is kept |
| Text.ToUpperUtf16Length | backend/src/inventory/dto/inventory.schema.ts:80 | ASCII upper-casing keeps the JavaScript length |
| Text.ToLower | backend/src/inventory/dto/inventory.schema.ts:68 | `toLowerCase` on ASCII letters: each capital ASCII letter becomes its lower-case letter and every other character is kept, so the length is kept |
| Text.Utf16Length | backend/src/inventory/dto/inventory.schema.ts:45-51 | a string's JavaScript length counts UTF-16 code units: at least its number of characters, at most twice that, and zero only for the empty string |
| Text.Utf16LengthConcat | backend/src/inventory/dto/inventory.schema.ts:45-51 | the JavaScript length of a concatenation is the sum of the lengths |
| Text.Utf16LengthOfBmp | backend/src/inventory/dto/inventory.schema.ts:45-51 | text inside the Basic Multilingual Plane has as many code units as characters |
| Text.LowerUpperRoundTrip | backend/src/inventory/inventory.service.ts:53 | a string without capitals upper-cases and then lower-cases back to itself |
| Text.RemoveChars | backend/src/inventory/dto/inventory.schema.ts:76 | `replace(/[...]/g, '')` keeps only characters outside the class, in order, and adds none |
| Text.RemoveCharsConcat | backend/src/orders/orders.service.ts:478 | filtering distributes over concatenation |
| Text.ReplaceChars | backend/src/inventory/dto/inventory.schema.ts:69 | `replace(/[\s-]/g, '_')` replaces exactly the characters in the class and keeps the length |
| Clock.AfterIsStrictOrder | backend/src/common/constants/discounts.constants.ts:87 | the date comparison used for expiry is irreflexive, asymmetric and transitive |
| Clock.DecimalValueOfDigits | backend/src/orders/orders.service.ts:478 | a zero-padded field of `toISOString` reads back as its number |
| Clock.ToIso | backend/src/orders/orders.service.ts:478 | `toISOString` is 24 characters long for a four-digit year |
| OrderNumber.Substring | backend/src/orders/orders.service.ts:479 | `substring` with bounds clamped to the length returns no more than `end - start` characters, all taken from the input |
| OrderNumber.RandomPart | backend/src/orders/orders.service.ts:479 | the random suffix has at most four characters and no lower-case letter |
| OrderNumber.IsoDigits | backend/src/orders/orders.service.ts:478 | with the ISO separators removed, the reading leaves its 14 calendar digits followed by the 3 millisecond digits |
| OrderNumber.IsoDigitsAreCalendar | backend/src/orders/orders.service.ts:478 | removing `-`, `:`, `T`, `.` and `Z` from the ISO text leaves exactly the digit runs, joined |
| OrderNumber.DatePart | backend/src/orders/orders.service.ts:478 | cutting at 14 drops the milliseconds and keeps the calendar digits |
| OrderNumber.GenerateOrderNumber | backend/src/orders/orders.service.ts:476-484 | an order number is `ORD-`, then the 14 date digits, then `-`, then the random part; its length is 19 to 23 |
| OrderNumber.DatePartDecodes | backend/src/orders/orders.service.ts:476-484 | the date digits read back as year, month, day, hour, minute and second |
| OrderNumber.DistinctSecondsDistinctNumbers | backend/src/orders/orders.service.ts:476-484 | readings that differ in any field down to the second give different order numbers, whatever the random parts |
| OrderNumber.ShortRandomTextGivesEmptySuffix | backend/src/orders/orders.service.ts:479 | a random text of at most two characters leaves the suffix empty |
| Pricing.RateOfFound | backend/src/common/constants/pricing.constants.ts:4-21 | a table lookup succeeds exactly when some entry has the key, and then returns the first such entry's multiplier |
| Pricing.RateWithin | backend/src/common/constants/pricing.constants.ts:4-21 | a looked-up multiplier lies within the bounds of the table's multipliers |
| Pricing.ConditionMultiplier | backend/src/common/constants/pricing.constants.ts:41 | the condition multiplier (table entry, otherwise 0.5) lies in [0.35, 0.7] |
| Pricing.CategoryMultiplier | backend/src/common/constants/pricing.constants.ts:42 | the category multiplier (table entry, otherwise 0.85) lies in [0.75, 1.1] |
| Pricing.ResalePriceIsNearest | backend/src/common/constants/pricing.constants.ts:36-44 | the resale price is the integer within half of original × condition multiplier × category multiplier, and a half goes up |
| Pricing.ValidConditionsAreTableKeys | backend/src/common/constants/pricing.constants.ts:4-23 | the valid conditions are the condition table's keys, in order: four of them, all distinct |
| Pricing.ValidCategoriesAreTableKeys | backend/src/common/constants/pricing.constants.ts:11-34 | the valid categories are the category table's keys: nine of them, all distinct |
| Pricing.ConditionEntries | backend/src/common/constants/pricing.constants.spec.ts:63-72 | new 0.7, like_new 0.6, good 0.5, fair 0.35 |
| Pricing.ConditionRateAt | backend/src/common/constants/pricing.constants.ts:4-9 | each entry of the condition table is what its own key looks up |
| Pricing.CategoryEntries | backend/src/common/constants/pricing.constants.spec.ts:76-96 | the nine category multipliers, from Outerwear 1.1 down to Accessories 0.75 |
| Pricing.ConditionMultiplierCases | backend/src/common/constants/pricing.constants.ts:41 | a condition is found in the table exactly when it is valid; a valid one gets its entry and any other text (other than an inherited property name) 0.5 |
| Pricing.CategoryMultiplierCases | backend/src/common/constants/pricing.constants.ts:42 | a category is found in the table exactly when it is valid; a valid one gets its entry and any other text (other than an inherited property name) 0.85 |
| Pricing.LookupsAreCaseSensitive | backend/src/common/constants/pricing.constants.ts:41-42 | "NEW", "Like_New" and "outerwear" miss the tables and fall back to the defaults |
| Pricing.ResalePriceOfZero | backend/src/common/constants/pricing.constants.spec.ts:51-54 | an original price of 0 resells for 0 under any condition and category |
| Pricing.ResalePriceMonotone | backend/src/common/constants/pricing.constants.ts:36-44 | with condition and category fixed, a dearer original never resells for less |
| Pricing.ResalePriceBounds | backend/src/common/constants/pricing.constants.ts:36-44 | for a non-negative original, the resale price lies between 0 and the rounding of 77% of the original |
| Pricing.PriceIs | backend/src/common/constants/pricing.constants.ts:36-44 | with both multipliers known, the price is the integer n with n − 0.5 ≤ exact < n + 0.5 |
| Pricing.NewOuterwearPrice | backend/src/common/constants/pricing.constants.spec.ts:9-13 | 1000, new, Outerwear resells for 770 |
| Pricing.LikeNewTopsPrice | backend/src/common/constants/pricing.constants.spec.ts:15-19 | 500, like_new, Tops resells for 240 |
| Pricing.GoodJacketsPrice | backend/src/common/constants/pricing.constants.spec.ts:21-25 | 899, good, Jackets resells for 472 (the Blue Denim Jacket sample repeats this case) |
| Pricing.FairAccessoriesPrice | backend/src/common/constants/pricing.constants.spec.ts:27-31 | 400, fair, Accessories resells for 105 |
| Pricing.UnknownConditionPrice | backend/src/common/constants/pricing.constants.spec.ts:33-37 | an unknown condition uses 0.5: 1000 in Shoes resells for 475 |
| Pricing.UnknownCategoryPrice | backend/src/common/constants/pricing.constants.spec.ts:39-43 | an unknown category uses 0.85: 1000 in good condition resells for 425 |
| Pricing.KnitwearRoundsUp | backend/src/common/constants/pricing.constants.spec.ts:45-49 | 333, like_new, Knitwear resells for 180 |
| Pricing.LargePrice | backend/src/common/constants/pricing.constants.spec.ts:56-59 | 5000, new, Outerwear resells for 3850 |
| Pricing.ShirtPrice | backend/src/common/constants/pricing.constants.spec.ts:107-112 | 349, like_new, Tops resells for 168 |
| Pricing.BootsPrice | backend/src/common/constants/pricing.constants.spec.ts:114-118 | 1299, fair, Shoes resells for 432 |
| Pricing.TrenchCoatPrice | backend/src/common/constants/pricing.constants.spec.ts:120-124 | 2499, like_new, Outerwear resells for 1649 |
| Discounts.Find | backend/src/common/constants/discounts.constants.ts:68 | `DISCOUNTS[key]` is absent exactly when no entry is filed under the key; when present it is filed under that key |
| Discounts.FindIsEntry | backend/src/common/constants/discounts.constants.ts:68 | what the lookup returns is an entry of the catalog |
| Discounts.NormalizeCode | backend/src/common/constants/discounts.constants.ts:65 | a normalised code has no lower-case ASCII letter and, with ASCII case mapping, is no longer than the input |
| Discounts.NormalizeCodeIdempotent | backend/src/common/constants/discounts.constants.ts:65 | normalising twice gives the same result as normalising once |
| Discounts.PaddedWelcomeNormalises | backend/src/common/constants/discounts.constants.ts:65 | " welcome10 " normalises to WELCOME10 |
| Discounts.UpperCodeIsKey | backend/src/common/constants/discounts.constants.ts:65 | a trimmed code of capitals and digits is its own key |
| Discounts.RawAmount | backend/src/common/constants/discounts.constants.ts:105-114 | a fixed discount is its value; a percentage discount never exceeds a set cap |
| Discounts.RawAmountPercentage | backend/src/common/constants/discounts.constants.ts:105-111 | a percentage discount is value% of the subtotal, or the set cap when the cap is smaller |
| Discounts.DiscountAmountClamped | backend/src/common/constants/discounts.constants.ts:118-123 | the amount is in whole cents and never exceeds the rounded subtotal; it is the raw amount rounded unless that exceeds the subtotal |
| Discounts.CheckDiscount | backend/src/common/constants/discounts.constants.ts:79-100 | each rejection happens exactly under its own condition, in source order: inactive, then expired, then below the minimum |
| Discounts.ValidateKey | backend/src/common/constants/discounts.constants.ts:68-130 | a code is unknown exactly when it is not in the catalog; success returns the entry and its clamped, rounded amount |
| Discounts.ApplyDiscount | backend/src/common/constants/discounts.constants.ts:132-173 | the subtotal is kept; with no discount, the amount is 0 and the total is the subtotal (Discounts.ApplyDiscountFollowsValidation and Discounts.ApplyDiscountTotals state the rest) |
| Discounts.ApplyDiscountFollowsValidation | backend/src/common/constants/discounts.constants.ts:142-172 | a discount is recorded exactly when a non-empty code validates, and then with the validated amount |
| Discounts.CatalogWellFormed | backend/src/common/constants/discounts.constants.ts:12-51 | catalog codes are distinct and upper case; every value and threshold is non-negative |
| Discounts.CatalogEntries | backend/src/common/constants/discounts.constants.ts:12-51 | each of the five codes finds its own entry |
| Discounts.LookupByCode | backend/src/common/constants/discounts.constants.ts:68-76 | a found entry is well formed and filed under the key it was looked up by; the lookup misses exactly the keys not in the catalog |
| Discounts.AppliedCodeIsCatalogued | backend/src/common/constants/discounts.constants.ts:166-172 | the recorded code is the catalog's canonical code, whatever case and padding the buyer typed |
| Discounts.AmountWithinSubtotal | backend/src/common/constants/discounts.constants.ts:118-123 | for a whole-cent subtotal, a well-formed entry's amount lies in [0, subtotal] |
| Discounts.ApplyDiscountTotals | backend/src/common/constants/discounts.constants.ts:163-172 | for a whole-cent subtotal, total = subtotal − amount and 0 ≤ total ≤ subtotal |
| Discounts.PricedTotals | backend/src/common/constants/discounts.constants.ts:153-172 | pricing a validation outcome keeps total = subtotal − amount within [0, subtotal] |
| Discounts.KeyAmount | backend/src/common/constants/discounts.constants.ts:68-130 | a key that validates names a well-formed catalog entry, and its amount is that entry's clamped discount |
| Discounts.ValidatedAmount | backend/src/common/constants/discounts.constants.ts:60-130 | a code that validates names a well-formed catalog entry, and its amount is that entry's clamped discount |
| Discounts.ApplyDiscountTotalNonNegative | backend/src/common/constants/discounts.constants.ts:163-164 | for any non-negative subtotal the total is non-negative |
| Discounts.CodeIsNormalised | backend/src/common/constants/discounts.constants.ts:65 | a code and its normal form give the same pricing |
| Discounts.WholeAmount | backend/src/common/constants/discounts.constants.ts:123 | a whole amount is unchanged by rounding to cents |
| Discounts.AppliedPricing | backend/src/common/constants/discounts.constants.ts:163-172 | a code that validates to an amount prices as subtotal − amount, with the canonical code and description |
| Discounts.Welcome10Amount | backend/src/common/constants/discounts.constants.ts:13-19 | WELCOME10 on 1000 is worth 100 |
| Discounts.Welcome10Example | backend/src/common/constants/discounts.constants.ts:132-173 | WELCOME10 on 1000 gives a total of 900 |
| Discounts.Vip20Amount | backend/src/common/constants/discounts.constants.ts:28-35 | VIP20 on 2000 is capped at 200 |
| Discounts.Vip20CappedExample | backend/src/common/constants/discounts.constants.ts:105-111 | VIP20 on 2000 gives a total of 1800, not 1600 |
| Discounts.Save50Amount | backend/src/common/constants/discounts.constants.ts:20-27 | SAVE50 on 600 is worth 50 |
| Discounts.Save50RefusedBelowMinimum | backend/src/common/constants/discounts.constants.ts:95-100 | SAVE50 on 300 is refused for the 500 minimum |
| Discounts.Save50BelowMinimum | backend/src/common/constants/discounts.constants.ts:153-161 | SAVE50 is refused below its minimum, and checkout then charges the full subtotal with no code recorded |
| Discounts.Save50Example | backend/src/common/constants/discounts.constants.ts:114 | SAVE50 on 600 gives a total of 550 |
| Discounts.InactiveRefused | backend/src/common/constants/discounts.constants.ts:79-84 | INACTIVE is refused at any subtotal and any time |
| Discounts.ExpiredRefused | backend/src/common/constants/discounts.constants.ts:87-92 | EXPIRED is refused at any time after 2025-12-31 |
| Discounts.ZeroMinimumIsUnset | backend/src/common/constants/discounts.constants.ts:95 | a minimum order amount of 0 checks exactly as an unset one |
| Discounts.ZeroCapIsUnset | backend/src/common/constants/discounts.constants.ts:107 | a cap of 0 checks exactly as an unset one |
| Discounts.InactiveWinsOverLaterChecks | backend/src/common/constants/discounts.constants.ts:79-100 | an inactive code is reported as inactive, even if it has also expired or is below its minimum |
| InventorySchema.BoundedText | backend/src/inventory/dto/inventory.schema.ts:45-51 | a text field passes exactly when its trimmed value is non-empty and has at most max UTF-16 code units, and the trimmed value is what is kept |
| InventorySchema.BrandValue | backend/src/inventory/dto/inventory.schema.ts:52-58 | a brand longer than 20 UTF-16 code units fails; a missing or blank brand becomes null; otherwise the trimmed brand is kept |
| InventorySchema.CategoryValue | backend/src/inventory/dto/inventory.schema.ts:59-64 | a category passes exactly when its trimmed value is a valid category |
| InventorySchema.NormalizeCondition | backend/src/inventory/dto/inventory.schema.ts:65-69 | with ASCII lower-casing, a normalised condition is as long as the trimmed input, has no ASCII capitals, and has no whitespace or '-' |
| InventorySchema.ConditionValue | backend/src/inventory/dto/inventory.schema.ts:65-72 | a condition passes exactly when its normal form is a valid condition, and that normal form is kept |
| InventorySchema.PriceText | backend/src/inventory/dto/inventory.schema.ts:76 | the text given to `parseFloat` contains no ',', '$' or whitespace |
| InventorySchema.PriceValue | backend/src/inventory/dto/inventory.schema.ts:73-79 | a price passes exactly when it parses to a number in (0, 5000] |
| InventorySchema.CurrencyValue | backend/src/inventory/dto/inventory.schema.ts:80 | a currency passes exactly when its trimmed value is three UTF-16 code units long, and it is kept upper-cased (ASCII) |
| InventorySchema.QuantityValue | backend/src/inventory/dto/inventory.schema.ts:81-87 | a quantity passes exactly when it parses to an integer in 1..200 |
| InventorySchema.FailingFields | backend/src/inventory/dto/inventory.schema.ts:44-88 | the reported fields are exactly the fields whose rule fails, and there are none exactly when every rule holds |
| InventorySchema.Parse | backend/src/inventory/dto/inventory.schema.ts:44-88 | a row that passes keeps every transformed value, and each value satisfies its field's rule |
| InventorySchema.ValidateRow | backend/src/inventory/dto/inventory.schema.ts:44-88 | `safeParse` succeeds exactly when every field passes; otherwise it reports a non-empty list of exactly the failing fields |
| InventorySchema.ValidIffNoFailingField | backend/src/inventory/dto/inventory.schema.ts:44-88 | a row passes exactly when no field rule fails |
| CsvValidation.Outcomes | backend/src/inventory/helpers/csv-validation.ts:13-26 | there is one schema verdict per row, in file order |
| CsvValidation.ScanPrefix | backend/src/inventory/helpers/csv-validation.ts:48-65 | after n rows, the three lists together hold exactly n reports |
| CsvValidation.ScanPrefixSeen | backend/src/inventory/helpers/csv-validation.ts:57-64 | after n rows, the seen set holds exactly the keys of the earlier rows that passed the schema |
| CsvValidation.ScanPrefixReports | backend/src/inventory/helpers/csv-validation.ts:48-65 | after n rows, each row is reported in the list of its verdict and every report is of such a row |
| CsvValidation.ScanPrefixOrdered | backend/src/inventory/helpers/csv-validation.ts:48-65 | after n rows, each list is in file order and the accepted keys are distinct |
| CsvValidation.StepVerdict | backend/src/inventory/helpers/csv-validation.ts:49-64 | one iteration puts the row, numbered index + 2, in the list its verdict selects |
| CsvValidation.StepOrdered | backend/src/inventory/helpers/csv-validation.ts:57-64 | one iteration appends a row numbered above every earlier report and accepts only an unseen key |
| CsvValidation.ValidateRows | backend/src/inventory/helpers/csv-validation.ts:40-78 | the summary counts the three lists, and valid + invalid + duplicates = total |
| CsvValidation.ValidateRowsReports | backend/src/inventory/helpers/csv-validation.ts:40-78 | each row is reported exactly once, in the list of its verdict: invalid with its failing fields, a duplicate with its key, otherwise valid with its data |
| CsvValidation.ValidateRowsOrdered | backend/src/inventory/helpers/csv-validation.ts:40-78 | each list is in file order, and no two accepted rows share a key |
| CsvValidation.AcceptedRowsAreParsed | backend/src/inventory/helpers/csv-validation.ts:63-64 | every accepted row holds what the schema produced for that line of the file |
| CsvValidation.AcceptedRowsAreWellFormed | backend/src/inventory/helpers/csv-validation.ts:63-64 | under the row schema, every accepted row satisfies every field rule |
| CsvValidation.FirstOccurrenceWins | backend/src/inventory/helpers/csv-validation.spec.ts:118-162 | of two valid rows with the same key, the later one is reported as a duplicate and is not accepted |
| CsvValidation.KeyIsAmbiguous | backend/src/inventory/helpers/csv-validation.ts:57 | merchant "a:b" with SKU "c" and merchant "a" with SKU "b:c" share a key |
| CsvValidation.KeyLayout | backend/src/inventory/helpers/csv-validation.ts:57 | the key is the merchant id, then ':', then the SKU |
| CsvValidation.KeyInjectiveWithoutColon | backend/src/inventory/helpers/csv-validation.ts:57 | without ':' in merchant ids, the key determines merchant and SKU |
| CsvValidation.MissingHeaders | backend/src/inventory/helpers/csv-validation.ts:92-99 | the missing columns are exactly the required names that no header normalises to |
| CsvValidation.ValidateHeaders | backend/src/inventory/helpers/csv-validation.ts:92-99 | headers are valid exactly when nothing is missing, which is exactly when every required column is present |
| CsvValidation.UpperCaseHeadersPass | backend/src/inventory/helpers/csv-validation.spec.ts:36-51 | upper-cased required names pass the header check |
| CsvValidation.UpperCaseHeaderMatches | backend/src/inventory/helpers/csv-validation.ts:95 | an upper-cased required name normalises back to itself |
| CsvValidation.IsEmptyRow | backend/src/inventory/helpers/csv-validation.ts:101-103 | a row is empty exactly when every value is whitespace |
| CsvValidation.BlankIffAllWhitespace | backend/src/inventory/helpers/csv-validation.ts:101-103 | every value trims to empty exactly when every value is whitespace |
| CsvValidation.EmptyRowIsInvalid | backend/src/inventory/helpers/csv-validation.ts:101-103 | an empty row never passes the schema, and merchant_id is among its failing fields |
| Inventory.Create | backend/src/inventory/inventory.service.ts:24-64 | creation fails exactly when the user already holds the merchant id and SKU, and then changes nothing; otherwise it stores a DRAFT with the upper-cased condition and the computed resale price |
| Inventory.CreateKeepsUniqueKeys | backend/src/inventory/inventory.service.ts:25-37 | creation keeps each user's merchant id and SKU pairs unique |
| Inventory.SecondCreateConflicts | backend/src/inventory/inventory.service.ts:25-37 | creating the same merchant id and SKU a second time fails and changes nothing |
| Inventory.FindOne | backend/src/inventory/inventory.service.ts:78-84 | an item is found exactly when it exists and belongs to the user |
| Inventory.FindAll | backend/src/inventory/inventory.service.ts:66-76 | the result is the user's items, restricted to the given statuses when the list of statuses is non-empty |
| Inventory.MapUpdateData | backend/src/inventory/inventory.service.ts:195-208 | only truthy fields are copied (the condition upper-cased); brand and resale price are copied whenever given, null included |
| Inventory.ApplyPatch | backend/src/inventory/inventory.service.ts:86-92 | an update never changes the owner or the status |
| Inventory.ApplyPatchIdempotent | backend/src/inventory/inventory.service.ts:195-208 | writing the same update twice gives the same result as writing it once |
| Inventory.FalsyFieldsAreIgnored | backend/src/inventory/inventory.service.ts:195-208 | an empty merchant id, a zero quantity or a zero price leaves that column as it was |
| Inventory.NullClearsBrandAndPrice | backend/src/inventory/inventory.service.ts:195-208 | an explicit null clears brand and resale price, and a LISTED item stays LISTED |
| Inventory.Update | backend/src/inventory/inventory.service.ts:86-92 | NotFound unless the user owns the item; otherwise the database refuses the write, changing nothing, exactly when another of the user's items holds the patched merchant id and SKU; otherwise only that item is rewritten |
| Inventory.UpdateKeepsUniqueKeys | backend/src/inventory/inventory.service.ts:86-92 | an update keeps each user's merchant id and SKU pairs unique |
| Inventory.UpdateOntoHeldKeyRefused | backend/src/inventory/inventory.service.ts:86-92 | giving an item the SKU of another item of the same user and merchant is refused, and nothing changes |
| Inventory.Remove | backend/src/inventory/inventory.service.ts:94-97 | NotFound unless the user owns the item; otherwise exactly that item is deleted |
| Inventory.Reprice | backend/src/inventory/inventory.service.ts:211-222 | repricing applies the pricing rule to the lower-cased condition, sets PRICED and keeps every other field |
| Inventory.AutoPrice | backend/src/inventory/inventory.service.ts:211-222 | NotFound unless the user owns the item; otherwise only that item is repriced |
| Inventory.OwnedAmong | backend/src/inventory/inventory.service.ts:225-247 | the owned ids are exactly the requested ids of the user's items |
| Inventory.AutoPriceBulk | backend/src/inventory/inventory.service.ts:225-247 | every requested item of the user is repriced and every other item is untouched; the count is the number of such items |
| Inventory.SetPrice | backend/src/inventory/inventory.service.ts:250-256 | NotFound unless the user owns the item; otherwise it takes the given price and becomes PRICED |
| Inventory.ListItem | backend/src/inventory/inventory.service.ts:259-268 | listing succeeds exactly for an owned item that is not DRAFT, and makes it LISTED; a DRAFT fails with MustBePriced |
| Inventory.ListBulk | backend/src/inventory/inventory.service.ts:271-299 | all or nothing: refused, with nothing changed, exactly when a requested item of the user is DRAFT; otherwise every such item becomes LISTED |
| Inventory.SingleItemOperationsFollowTheMachine | backend/src/inventory/inventory.service.ts:211-268 | autoPrice, setPrice and listItem move statuses only along DRAFT → PRICED → LISTED |
| Inventory.BulkOperationsFollowTheMachine | backend/src/inventory/inventory.service.ts:225-299 | the bulk operations move statuses only along the same machine |
| Inventory.RepricingUnlists | backend/src/inventory/inventory.service.ts:211-256 | pricing a LISTED item takes it back to PRICED |
| Inventory.ValidConditionsAreLowerCase | backend/src/common/constants/pricing.constants.ts:23 | the valid conditions contain no capitals |
| Inventory.AutoPriceAgreesWithCreate | backend/src/inventory/inventory.service.ts:211-222 | repricing a freshly created item gives back the price it was created with |
| Inventory.ExistingKeys | backend/src/inventory/inventory.service.ts:124-130 | the existing keys are exactly `merchantId:sku` of the user's items |
| Inventory.NonEmptyRows | backend/src/inventory/inventory.service.ts:120 | a non-blank record is kept as many times as it occurs, and a blank one never |
| Inventory.NonEmptyRowsConcat | backend/src/inventory/inventory.service.ts:120 | the filter keeps file order: the kept records of two parts, one after the other |
| Inventory.SplitByExisting | backend/src/inventory/inventory.service.ts:133-146 | a valid row is inserted exactly when its key is not held; every held one is reported with its row number and key |
| Inventory.SplitKeepsDistinctKeys | backend/src/inventory/inventory.service.ts:133-146 | the rows to insert have pairwise distinct keys |
| Inventory.ItemFromRowKeepsKey | backend/src/inventory/inventory.service.ts:149-176 | a row's item belongs to the uploader, starts as DRAFT and keeps the row's key |
| Inventory.InsertRows | backend/src/inventory/inventory.service.ts:149-176 | insertion adds exactly the fresh ids and leaves every existing item as it was |
| Inventory.InsertedAt | backend/src/inventory/inventory.service.ts:149-176 | the i-th fresh id holds the item of the i-th row |
| Inventory.InsertedAreDrafts | backend/src/inventory/inventory.service.ts:149-176 | inserted items belong to the uploader and are DRAFT |
| Inventory.Upload | backend/src/inventory/inventory.service.ts:120-192 | the summary totals every row and inserted + already held + invalid + in-file duplicates = total; the invalid and in-file duplicate lists are those of the validation; existing items are untouched; every new item is a DRAFT of the user under a fresh id |
| Inventory.BulkUpload | backend/src/inventory/inventory.service.ts:99-193 | an empty file fails with EmptyFile and missing columns fail with the missing names, both changing nothing; the upload succeeds exactly otherwise, totals the non-blank records with counts that add up, reports the validation's invalid and duplicate rows, and touches no existing item |
| Inventory.InsertPlacesRows | backend/src/inventory/inventory.service.ts:133-176 | a valid row whose key is not held is stored under a fresh id |
| Inventory.UploadPlacesRows | backend/src/inventory/inventory.service.ts:120-192 | every valid row is either reported as already held or stored as a new item |
| Inventory.UploadPlacesEveryValidRow | backend/src/inventory/inventory.service.ts:99-193 | the same holds for a whole accepted file |
| Inventory.UploadKeepsUniqueKeys | backend/src/inventory/inventory.service.ts:99-193 | an upload keeps each user's merchant id and SKU pairs unique |
| Inventory.UploadRowsKeepUniqueKeys | backend/src/inventory/inventory.service.ts:120-176 | upload of the rows keeps the pairs unique |
| Inventory.InsertKeepsUniqueKeys | backend/src/inventory/inventory.service.ts:149-176 | inserting distinct, unheld keys keeps the pairs unique |
| Orders.ParseStatusHistory | backend/src/orders/orders.service.ts:39-51 | a stored list comes back as it is, and anything else comes back as the empty list |
| Orders.ParseStatusHistoryIdempotent | backend/src/orders/orders.service.ts:39-51 | parsing a parsed history changes nothing |
| Orders.FetchProducts | backend/src/orders/orders.service.ts:486-516 | fetching succeeds exactly when every line's product is present, LISTED and priced, and then resolves each line to it; otherwise the first bad line names the error |
| Orders.FetchedProductsResolve | backend/src/orders/orders.service.ts:486-516 | each fetched line resolves to its stored product |
| Orders.OrderItems | backend/src/orders/orders.service.ts:167-179 | one snapshot line per requested line (their contents are stated by Orders.Snapshot) |
| Orders.Snapshot | backend/src/orders/orders.service.ts:167-179 | each line snapshots the product's title, brand and price, with line total = price × quantity, and gives back the request |
| Orders.OrderCurrency | backend/src/orders/orders.service.ts:188 | the order's currency is never empty: the first product's currency, or ZAR |
| Orders.CheckInventory | backend/src/orders/orders.service.ts:222-247 | the stock check passes exactly when no line has a problem; otherwise it reports the problem of the first line that has one |
| Orders.ValidateInventoryPerLine | backend/src/orders/orders.service.ts:222-247 | the check passes exactly when each line, on its own, finds its product LISTED with enough stock |
| Orders.StockCheckedLinesExist | backend/src/orders/orders.service.ts:231-233 | every line that passes the stock check names a product in the store |
| Orders.DeductInventory | backend/src/orders/orders.service.ts:342-356 | the deductions keep the set of products (what each product loses is stated by Orders.DeductIsDecrement) |
| Orders.DeductAt | backend/src/orders/orders.service.ts:342-356 | after the deductions, a product has lost the total its lines ask for and kept every other field |
| Orders.DeductIsDecrement | backend/src/orders/orders.service.ts:342-356 | the sequential decrements equal one subtraction per product of its requested total |
| Orders.TotalRequestedDistinct | backend/src/orders/orders.service.ts:342-356 | with distinct products, a product's total is its one line's quantity |
| Orders.TotalRequestedCoversLine | backend/src/orders/orders.service.ts:342-356 | with positive quantities, a product's total is at least any one of its lines |
| Orders.UnorderedItemsUnchanged | backend/src/orders/orders.service.ts:342-356 | products that no line names are left exactly as they were |
| Orders.CreateOrder | backend/src/orders/orders.service.ts:62-150 | an empty or missing list is refused as EmptyOrder; any failure leaves the database as it was; a success adds the order under its fresh id; no existing order changes; otherwise the outcome is that of the seven steps |
| Orders.Transaction | backend/src/orders/orders.service.ts:73-149 | inside the transaction, a failing step rolls back every change, and a success writes the order under its id |
| Orders.ExpectedNeverEmpty | backend/src/orders/orders.service.ts:66-68 | no step after the emptiness check fails with EmptyOrder |
| Orders.RunStepsIsExpected | backend/src/orders/orders.service.ts:73-142 | the seven steps compute the checkout stated directly from the request and the store |
| Orders.PendingOrderRecorded | backend/src/orders/orders.service.ts:155-216 | step 1 records a PENDING order with the snapshot lines, their subtotal, the order's currency and one PENDING history entry |
| Orders.StockCheckDecides | backend/src/orders/orders.service.ts:222-247 | after step 1, the stock check runs on the request's own lines |
| Orders.RecordedAsksPayment | backend/src/orders/orders.service.ts:298-323 | step 4 asks the gateway for the discounted subtotal in the order's currency |
| Orders.SettleAuthorized | backend/src/orders/orders.service.ts:253-417 | after an authorization, steps 3 to 7 give the settled order and the deducted inventory |
| Orders.SettleDeclined | backend/src/orders/orders.service.ts:310-314 | a decline aborts with the gateway's error |
| Orders.SettledDeclined | backend/src/orders/orders.service.ts:310-314 | after step 1, a decline aborts with the gateway's error |
| Orders.FulfilledFromRecorded | backend/src/orders/orders.service.ts:253-417 | steps 3 to 7 turn the PENDING order into the fulfilled order of a checkout |
| Orders.SettledAuthorized | backend/src/orders/orders.service.ts:253-417 | after an authorization, the checkout is the fulfilled order plus the decremented inventory |
| Orders.CheckoutSucceedsIff | backend/src/orders/orders.service.ts:62-150 | a checkout succeeds exactly when every line is purchasable and in stock on its own and the gateway authorizes |
| Orders.PaymentDeclineAborts | backend/src/orders/orders.service.ts:310-314 | a declined payment fails the checkout with the gateway's error |
| Orders.UnavailableProductAborts | backend/src/orders/orders.service.ts:500-512 | the first line whose product is missing, unlisted or unpriced names the error |
| Orders.CheckoutRecords | backend/src/orders/orders.service.ts:62-417 | a successful checkout stores the FULFILLED order: snapshot lines, subtotal, discount, authorization id, and history PENDING then FULFILLED; every product loses what its lines ask for |
| Orders.FulfilledOrderFields | backend/src/orders/orders.service.ts:370-417 | the fulfilled order's fields: buyer, lines, subtotal, discount, FULFILLED, authorization id, and history PENDING then FULFILLED |
| Orders.ExpectedInventory | backend/src/orders/orders.service.ts:342-356 | a successful checkout leaves each product with its stock less its requested total |
| Orders.DistinctLinesKeepStockNonNegative | backend/src/orders/orders.service.ts:222-356 | with distinct products, no ordered product's stock goes negative |
| Orders.OversellWithDuplicateLines | backend/src/orders/orders.service.ts:222-356 | two lines of one product with stock 1 both pass, and the product ends at −1 |
| Orders.NegativeQuantityRaisesStock | backend/src/orders/orders.service.ts:222-356 | a line asking for −1 units passes the stock check and the checkout raises the product's stock by one |
| Orders.CheckedRefusesNonPositiveQuantity | backend/src/orders/orders.service.ts:222-247 | the corrected checkout refuses a cart with a line of quantity below one, and nothing changes |
| Orders.DuplicateLinesPass | backend/src/orders/orders.service.ts:222-247 | lines repeating one product of stock 1 each pass the per-line check |
| Orders.CreateOrderChecked | backend/src/orders/orders.service.ts:62-150 | the corrected checkout has the same rollback contract as the original |
| Orders.CheckedOrderKeepsStockNonNegative | backend/src/orders/orders.service.ts:222-356 | under the corrected check, every ordered product keeps stock ≥ 0 and loses some |
| Orders.CheckedAgreesOnDistinctLines | backend/src/orders/orders.service.ts:222-247 | on carts of distinct products with positive quantities, the corrected checkout equals the original |
| Orders.CheckInventoryAgrees | backend/src/orders/orders.service.ts:222-247 | two stock checks that agree line by line give the same verdict |
| Orders.FindAll | backend/src/orders/orders.service.ts:423-437 | the listing holds exactly the buyer's orders, each with its number of lines |
| Orders.FindOne | backend/src/orders/orders.service.ts:439-470 | an order is found exactly when it is the buyer's own; otherwise the result is OrderNotFound |
| Orders.FindOneAgreesWithFindAll | backend/src/orders/orders.service.ts:423-470 | `findOne` finds exactly what `findAll` lists, with the same order |
| Orders.BuyerReadsCreatedOrder | backend/src/orders/orders.service.ts:439-470 | the buyer reads back the created order, and no one else can |
| Orders.SimulatedDecline | backend/src/orders/payment.service.ts:152-175 | the simulator draws one of its five declines, never INVALID_CARD or UNKNOWN_ERROR |

## Left out

- I/O is not modelled. This covers Prisma queries, the CSV parser (`csv-parse`), logging, HTTP and JWT guards, and the frontend. Database rows are maps, and a parsed CSV file is a header list plus records.
- The Prisma schema is not part of this model. New items are assumed to start as DRAFT, the column default the service code relies on. The unique constraint on user, merchant id and SKU is taken from the compound key `userId_merchantId_sku` that `create` looks items up by (backend/src/inventory/inventory.service.ts:25-31).
- Ordering is left out. `findAll` of inventory and of orders is a set or map of ids: the ordering by `createdAt` is not modelled, and neither is `include` of related rows.
- `parseStatusHistory` on a JSON string is left out. The model stores the history already decoded: a list, or something else.
- The database's own failures are left out: timeouts (the 30-second transaction limit) and lost connections. `createOrder`'s rethrow keeps the error it caught, so only the model's error values matter.
- JavaScript's floating point is replaced by exact rationals, so representation errors such as `0.1 + 0.2` do not arise.
- Orders.OrderCurrency: the source takes the first product in the database's return order, which nothing fixes. The model takes a parameter that picks which of the order's products comes first.
- The payment simulator's latency, its success rate and its id formats are not modelled. The gateway is a function parameter; only the set of declines the simulator draws from is modelled (`Orders.SimulatedDecline`).
- The zod schemas for a single create, an update, a set price and bulk ids (`inventoryCreateSchema`, `inventoryUpdateSchema`, `setPriceSchema`, `bulkIdsSchema`) run in the validation pipe before the service. The service operations take their already validated output. Only the row schema is modelled field by field.
- Error messages are not modelled. Each error is a constructor carrying the data the message names. The per-field messages of the row schema are reduced to the failing field.
- `Inventory.Create` and `Orders.CreateOrder` take the new row's id as an argument that is not already in the store.
- Text.ToUpper: JavaScript's `toUpperCase` maps all of Unicode and can lengthen a string ("ß" becomes "SS"); the model maps the ASCII letters only and keeps every other character.
- Text.ToLower: JavaScript's `toLowerCase` maps all of Unicode (the Kelvin sign becomes "k", and "İ" gains a code unit); the model maps the ASCII letters only.
- Discounts.NormalizeCode: with ASCII case mapping only, a code such as "ſave50", which JavaScript upper-cases to "SAVE50", is not recognised, and the normal form is never longer than the input.
- InventorySchema.NormalizeCondition: the lower-casing is ASCII only, so the normal form is as long as the trimmed input; JavaScript's full Unicode lower-casing may change the length.
- InventorySchema.CurrencyValue: the upper-casing is ASCII only, so a currency such as "ßab", which JavaScript upper-cases to the four-letter "SSAB" and rejects, is accepted.
- Pricing.ConditionMultiplier: the lookup `CONDITION_MULTIPLIERS[condition] ?? 0.5` also finds inherited properties such as "constructor", which make the price NaN; the model gives such names 0.5. The validated callers never pass them.
- Pricing.CategoryMultiplier: the same holds for `CATEGORY_MULTIPLIERS[category] ?? 0.85`: inherited property names are given 0.85, not NaN.
- Pricing.ConditionMultiplierCases: "any other text gets 0.5" leaves out the inherited property names, as for Pricing.ConditionMultiplier.
- Pricing.CategoryMultiplierCases: "any other text gets 0.85" leaves out the inherited property names, as for Pricing.CategoryMultiplier.
- Pricing.ResalePriceIsNearest: `calculateResalePrice` multiplies binary floating-point numbers. The contract holds for exact rationals and says nothing about a product that lands within a rounding error of a half.

## Findings

| source | as written | input that shows it | evidently intended | confidence | as-written member | corrected member |
|---|---|---|---|---|---|---|
| backend/src/orders/orders.service.ts:222-356 | step 2 checks each line's quantity against the stock on its own; step 6 then decrements once per line | a cart with two lines for the same product, 1 unit each, when that product has 1 unit in stock: both lines pass step 2 and the stock ends at −1 | check each product against the total its lines ask for, so that stock never goes negative (proved as Orders.CheckedOrderKeepsStockNonNegative) | not executed | Orders.OversellWithDuplicateLines | Orders.CreateOrderChecked |
| backend/src/orders/orders.service.ts:222-356 | nothing checks that a line's quantity is positive: step 2 compares stock with the quantity, and step 6 decrements by it | a cart with one line asking for −1 units of a LISTED, priced product: the line passes step 2 and the product's stock goes up by one | refuse quantities below one, so that a checkout only ever lowers stock (refusal proved as Orders.CheckedRefusesNonPositiveQuantity, lowering as Orders.CheckedOrderKeepsStockNonNegative) | not executed; medium, since a validation pipe outside these files could reject such a body | Orders.NegativeQuantityRaisesStock | Orders.CreateOrderChecked |
