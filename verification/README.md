# Portfolio manager: import, asset store and dashboard

This project is a Dafny model of the core of a small Spring portfolio manager.
The application keeps a list of assets. Each asset has a symbol, a name, a type
(STOCK, BOND, ETF, CRYPTO or CASH), a quantity, an average buy price and an
optional current price. The model covers four parts:

- **The import service** (`FileImportService`). It reads an uploaded `.xlsx` or
  `.csv` file row by row. The validator `buildAssetDTO` turns each row into an
  asset request or an error message. Each request is handed to
  `AssetService.createAsset`. The service builds a report with row counts, the
  errors as `Row n: message` and the created assets.
- **The asset service** (`AssetService`). It holds the business rules and the
  create, update, delete, get and list operations over the id-keyed store. It
  also derives the money values (`toDto`, `scaleMoney`).
- **The dashboard** (`DashboardService`). It computes the total value, the best
  and worst performers by gain, and the allocation per type in percent.
- **The request record** (`AssetDTO`). Its Bean Validation annotations become a
  validity predicate.

Java's `BigDecimal` is modelled as an unscaled integer with a scale
(`Decimals.Decimal`), exactly while every scale stays within Java's `int`
range. `compareTo`, `add`, `subtract`, `multiply`,
`setScale(k, HALF_UP)` and `divide(x, k, HALF_UP)` are stated by what they
mean: both operands are brought to a common finer scale, and a HALF_UP result is
the nearest integer with ties away from zero (`Decimals.NearestHalfUp`).
`new BigDecimal(String)` is a parser over Java's grammar, including the exponent
and its 32-bit bounds (`DecimalText.ParseDecimal`). Java's `String.trim`,
ASCII case mapping and `endsWith` are in `Text`.

The row sink is a parameter of the import fold: a function from a state and a
candidate to a new state and a response. `StoreImport` instantiates that sink
with the asset store's `createAsset`. The spreadsheet and CSV readers are
represented by what they yield (`FileImport.Workbook`, `FileImport.CsvRecords`).

Files, one module each: `wrappers.dfy` (Option, Result), `decimals.dfy`,
`text.dfy`, `decimal_text.dfy`, `assets.dfy` (entity, request record, money
values), `asset_service.dfy`, `dashboard.dfy`, `file_import.dfy` and
`store_import.dfy`.

## Model

| member | source | states |
|---|---|---|
| Decimals.Compare | src/main/java/com/portfolio/manager/service/AssetService.java:97-103 | compareTo ignores scale: the sign of the result orders the two values at every scale fine enough for both |
| Decimals.CompareAntisymmetric | src/main/java/com/portfolio/manager/service/DashboardService.java:46-51 | swapping the operands of compareTo negates the result |
| Decimals.CompareTransitive | src/main/java/com/portfolio/manager/service/DashboardService.java:46-51 | compareTo is transitive, and strictly so when either step is strict |
| Decimals.Add | src/main/java/com/portfolio/manager/service/DashboardService.java:42-44 | add is exact: at any scale at least the larger operand scale, the sum's unscaled value is the sum of the operands' |
| Decimals.Subtract | src/main/java/com/portfolio/manager/service/DashboardService.java:86-90 | subtract is exact in the same sense |
| Decimals.Multiply | src/main/java/com/portfolio/manager/service/DashboardService.java:81-84 | multiply is exact: the scales add and the unscaled values multiply at any pair of finer scales |
| Decimals.DivHalfUp | src/main/java/com/portfolio/manager/service/AssetService.java:108-110 | integer division rounded HALF_UP: the quotient is within half a unit, ties away from zero |
| Decimals.NearestHalfUpUnique | src/main/java/com/portfolio/manager/service/AssetService.java:108-110 | there is only one HALF_UP rounding of a quotient |
| Decimals.SetScaleHalfUp | src/main/java/com/portfolio/manager/service/AssetService.java:108-110 | setScale(k, HALF_UP) gives the value's HALF_UP rounding to k places, and is exact when k is not below the scale |
| Decimals.RoundedToUnique | src/main/java/com/portfolio/manager/service/AssetService.java:108-110 | a value has only one rounding to k places, so any two results of setScale agree |
| Decimals.DivideHalfUp | src/main/java/com/portfolio/manager/service/DashboardService.java:75 | divide(total, k, HALF_UP) has scale k and is the HALF_UP rounding of the exact quotient at every common scale |
| Decimals.DigitsBelow | src/main/java/com/portfolio/manager/dto/AssetDTO.java:35 | a non-zero number has at most k digits exactly when it is below 10^k |
| Decimals.NumDigits | src/main/java/com/portfolio/manager/dto/AssetDTO.java:35 | precision of an unscaled value: the number of decimal digits, one for zero |
| Text.Trim | src/main/java/com/portfolio/manager/service/FileImportService.java:147-151 | String.trim leaves no character at or below space at either end |
| Text.TrimOfPadded | src/main/java/com/portfolio/manager/service/FileImportService.java:147-151 | trimming a trimmed text padded on both sides by such characters gives that text back |
| Text.TrimIdempotent | src/main/java/com/portfolio/manager/service/FileImportService.java:206-207 | trimming twice is trimming once |
| Text.BlankIffAllTrimmed | src/main/java/com/portfolio/manager/service/FileImportService.java:164-172 | a text is empty after trimming exactly when every character is at or below space |
| Text.NatToString | src/main/java/com/portfolio/manager/service/FileImportService.java:85 | %d of a row number: decimal digits whose value is the number, with no leading zero |
| DecimalText.ParseDecimal | src/main/java/com/portfolio/manager/service/FileImportService.java:182-187 | new BigDecimal(text) accepts only non-empty texts, gives a scale within the 32-bit int range, and a value whose sign follows a leading minus |
| DecimalText.ParsedIsNumeral | src/main/java/com/portfolio/manager/service/FileImportService.java:182-194 | an accepted text holds only digits, the point, signs and exponent marks |
| DecimalText.LeadingSpaceRejected | src/main/java/com/portfolio/manager/service/FileImportService.java:132-136 | a number with leading whitespace is rejected, which is what an untrimmed spreadsheet cell such as " 10" meets |
| DecimalText.PlainStringRoundTrip | src/main/java/com/portfolio/manager/service/FileImportService.java:182-187 | parsing the plain rendering of any decimal with a scale in 0..2^31-1 gives that decimal back |
| Assets.ValueOf | src/main/java/com/portfolio/manager/service/FileImportService.java:174-180 | AssetType.valueOf returns a constant exactly when the text is that constant's name |
| Assets.NotBlank | src/main/java/com/portfolio/manager/dto/AssetDTO.java:24-28 | @NotBlank holds exactly when the text is present and has a character above U+0020 |
| Assets.DigitsWithin | src/main/java/com/portfolio/manager/dto/AssetDTO.java:35-44 | @Digits(integer, fraction) on a non-zero value holds exactly when its magnitude is below 10^(integer + scale) and its scale is at most fraction; zero needs integer + scale of at least 1 |
| Assets.MinimumSigns | src/main/java/com/portfolio/manager/dto/AssetDTO.java:34-43 | @DecimalMin("0.0001") makes the quantity positive, @DecimalMin("0.00", inclusive = false) the average buy price positive, and @DecimalMin("0.00") the current price non-negative |
| Assets.ValidAssetDto | src/main/java/com/portfolio/manager/dto/AssetDTO.java:24-45 | a valid request has a visible symbol and name, a type, a positive quantity with at most 4 fraction digits, a positive average buy price with at most 2, and a current price that is absent or non-negative with at most 2 |
| Assets.CurrentValue | src/main/java/com/portfolio/manager/service/DashboardService.java:81-84 | the scale of quantity times the current price is the sum of their scales, a missing price counting as zero at scale 0 |
| Assets.InvestedValue | src/main/java/com/portfolio/manager/service/AssetService.java:82 | the scale of quantity times the average buy price is the sum of their scales |
| Assets.ValuesAreProducts | src/main/java/com/portfolio/manager/service/DashboardService.java:81-90 | both money values are the exact products of their factors at every finer pair of scales; a missing price gives a zero market value, and positive factors give positive values |
| Assets.Gain | src/main/java/com/portfolio/manager/service/DashboardService.java:86-90 | gain is current value minus invested value, exactly |
| Assets.ScaleMoney | src/main/java/com/portfolio/manager/service/AssetService.java:108-110 | money values are the HALF_UP roundings to two places |
| Assets.ToDto | src/main/java/com/portfolio/manager/service/AssetService.java:79-94 | the response copies the stored fields; currentValue and investedValue are the two-place roundings of quantity times price, a missing current price counting as zero |
| Assets.ToDtoExactInCents | src/main/java/com/portfolio/manager/service/AssetService.java:79-94 | when the product has at most two fraction digits, the response's values are the exact products in cents |
| Assets.ToDtoExample | src/test/java/com/portfolio/manager/service/AssetServiceTest.java:57-61 | 10.0000 units bought at 150.00 and now at 170.00 give currentValue 1700.00 and investedValue 1500.00, both at scale 2 |
| AssetService.RulesBySign | src/main/java/com/portfolio/manager/service/AssetService.java:96-106 | each rule's compareTo against zero depends only on the sign of the unscaled value |
| AssetService.ValidateBusinessRules | src/main/java/com/portfolio/manager/service/AssetService.java:96-106 | no error exactly when all three rules hold; otherwise the first broken rule, in the order current price, quantity, average price, names the error; a missing field skips its rule |
| AssetService.ValidDtoPassesRules | src/main/java/com/portfolio/manager/dto/AssetDTO.java:33-45 | every request meeting the AssetDTO constraints passes the business rules |
| AssetService.RulesDoNotImplyValid | src/main/java/com/portfolio/manager/dto/AssetDTO.java:24-36 | the converse fails: a blank symbol with quantity 0.00001 passes the rules but not the constraints |
| AssetService.Stored | src/main/java/com/portfolio/manager/service/AssetService.java:38-45 | the stored entity has the trimmed symbol and name and the request's other fields |
| AssetService.CreateAsset | src/main/java/com/portfolio/manager/service/AssetService.java:36-49 | a rule violation is reported before anything is stored; otherwise a new id, absent before, maps to the trimmed request, other entries are kept, and the response is that entity's toDto |
| AssetService.UpdateAsset | src/main/java/com/portfolio/manager/service/AssetService.java:51-64 | rules are checked before the lookup, so a bad request on a missing id reports the rule; a missing id fails with "Asset not found"; a success keeps the id and the key set and replaces that entry only |
| AssetService.DeleteAsset | src/main/java/com/portfolio/manager/service/AssetService.java:66-71 | a missing id fails with "Asset not found" and leaves the store alone; otherwise exactly that id is removed |
| AssetService.GetAssetById | src/main/java/com/portfolio/manager/service/AssetService.java:73-77 | succeeds exactly for stored ids, with the toDto of the stored entity (carrying that id in a valid store), and otherwise fails with "Asset not found" |
| AssetService.CreateThenGet | src/main/java/com/portfolio/manager/service/AssetService.java:36-77 | reading back a created asset by its new id gives the create response |
| AssetService.UpdateThenGet | src/main/java/com/portfolio/manager/service/AssetService.java:51-77 | reading back an updated asset gives the update response |
| AssetService.DeleteThenGet | src/main/java/com/portfolio/manager/service/AssetService.java:66-77 | after a delete, both get and a second delete of that id fail with "Asset not found" |
| AssetService.ListedIds | src/main/java/com/portfolio/manager/service/AssetService.java:30-32 | the ids of exactly the stored assets that match the type filter, in increasing order |
| AssetService.Responses | src/main/java/com/portfolio/manager/service/AssetService.java:33 | one toDto response per listed id, in the same order |
| AssetService.ResponsesAdmitted | src/main/java/com/portfolio/manager/service/AssetService.java:30-34 | each listed response carries the id it was listed for |
| AssetService.ResponsesComplete | src/main/java/com/portfolio/manager/service/AssetService.java:30-34 | every matching stored asset's response is in the list |
| AssetService.ResponsesDistinct | src/main/java/com/portfolio/manager/service/AssetService.java:30-34 | no asset is listed twice |
| AssetService.GetAssets | src/main/java/com/portfolio/manager/service/AssetService.java:30-34 | with a type, exactly the assets of that type; without, all assets; each once, as toDto |
| Dashboard.MaxScale | src/main/java/com/portfolio/manager/service/DashboardService.java:42-44 | a scale fine enough for every current value |
| Dashboard.SumValues | src/main/java/com/portfolio/manager/service/DashboardService.java:42-44 | the reduce with add is the exact sum of the current values |
| Dashboard.Values | src/main/java/com/portfolio/manager/service/DashboardService.java:81-84 | the current value of each asset, quantity times price with a missing price as zero |
| Dashboard.Gains | src/main/java/com/portfolio/manager/service/DashboardService.java:86-90 | the gain of each asset in list order |
| Dashboard.MaxIndex | src/main/java/com/portfolio/manager/service/DashboardService.java:46-48 | the left fold of maxBy gives an index of the list whose value is at least the first and the last |
| Dashboard.MinIndex | src/main/java/com/portfolio/manager/service/DashboardService.java:49-51 | the left fold of minBy gives an index of the list whose value is at most the first and the last |
| Dashboard.MaxIndexIsFirstMaximum | src/main/java/com/portfolio/manager/service/DashboardService.java:46-48 | Stream.max with maxBy picks a largest element, and no earlier element equals it |
| Dashboard.MinIndexIsFirstMinimum | src/main/java/com/portfolio/manager/service/DashboardService.java:49-51 | Stream.min with minBy picks a smallest element, and no earlier element equals it |
| Dashboard.TypeTotals | src/main/java/com/portfolio/manager/service/DashboardService.java:67-71 | the merged map has exactly the types present as keys |
| Dashboard.TypeTotalIsSum | src/main/java/com/portfolio/manager/service/DashboardService.java:67-71 | each merged entry is the exact sum of the current values of that type |
| Dashboard.NoneOfType | src/main/java/com/portfolio/manager/service/DashboardService.java:67-71 | a type missing from the merged map has no assets |
| Dashboard.Percent | src/main/java/com/portfolio/manager/service/DashboardService.java:72-77 | a zero total gives zero; otherwise the HALF_UP rounding to two places of 100 times the part over the unrounded total |
| Dashboard.Allocation | src/main/java/com/portfolio/manager/service/DashboardService.java:66-79 | the allocation has exactly the types present as keys |
| Dashboard.PortfolioSummaryOf | src/main/java/com/portfolio/manager/service/DashboardService.java:32-64 | no assets: total zero, no performers, empty allocation, count 0; otherwise the total is the two-place rounding of the exact sum, and the performers are the toDto of the first largest and first smallest gain |
| Dashboard.AllocationEntry | src/main/java/com/portfolio/manager/service/DashboardService.java:72-77 | each type's percent is the HALF_UP rounding to two places of 100 times that type's sum over the unrounded total, or zero when the total is zero |
| Dashboard.BestPerformer | src/main/java/com/portfolio/manager/service/DashboardService.java:46-59 | the best performer's gain is at least every asset's gain |
| Dashboard.WorstPerformer | src/main/java/com/portfolio/manager/service/DashboardService.java:49-60 | the worst performer's gain is at most every asset's gain |
| FileImport.ParseText | src/main/java/com/portfolio/manager/service/FileImportService.java:182-194 | a null text fails like a malformed one; otherwise the text is parsed |
| FileImport.BuildCandidate | src/main/java/com/portfolio/manager/service/FileImportService.java:160-213 | the checks run in the order symbol, name, type, known type, quantity, average price, current price, and each error is reported exactly when the checks before it pass; the messages carry the rejected text; a success has the trimmed non-empty symbol and name, the type whose name is the upper-cased text, the exact parsed numbers, and no current price exactly when that text is null or blank |
| FileImport.CellValue | src/main/java/com/portfolio/manager/service/FileImportService.java:215-238 | a missing, blank or other cell reads as null, and a text cell as its text |
| FileImport.Wrapped | src/main/java/com/portfolio/manager/service/FileImportService.java:140-142 | every validator error is prefixed "Invalid data format: " and a success passes through |
| FileImport.ParseSheetRow | src/main/java/com/portfolio/manager/service/FileImportService.java:130-143 | an empty row fails with the wrapped "Symbol is required"; every failure is the data-format prefix plus a validator message; an accepted row has the trimmed symbol and name of cells 0 and 1, the upper-cased untrimmed type of cell 2, the numbers parsed from cells 3 and 4 as they are, and no current price exactly when cell 5 is missing or blank |
| FileImport.SheetFields | src/main/java/com/portfolio/manager/service/FileImportService.java:130-137 | the six fields are the values of cells 0 to 5 as they are, untrimmed; a cell past the end of the row is null, so a row of five cells has no current price |
| FileImport.SheetMatchesCsv | src/main/java/com/portfolio/manager/service/FileImportService.java:130-158 | a row of text cells whose texts have nothing to trim parses exactly like the CSV record of the same texts: the two paths differ only in trimming |
| FileImport.SheetRoundTrip | src/main/java/com/portfolio/manager/service/FileImportService.java:130-143 | a row of text cells holding a candidate's plain texts, sixth cell missing when there is no current price, gives the candidate back |
| FileImport.SheetRoundTripBlankPrice | src/main/java/com/portfolio/manager/service/FileImportService.java:130-143 | without a current price, a blank, empty or all-space sixth cell is read as no price and the candidate still comes back |
| FileImport.CsvFields | src/main/java/com/portfolio/manager/service/FileImportService.java:147-152 | each of the first five fields is the trimmed record field at the same index; the current price is the trimmed sixth field, and absent exactly when the record has five fields |
| FileImport.ParseCsvRecord | src/main/java/com/portfolio/manager/service/FileImportService.java:145-158 | a record with fewer than five fields fails with the wrapped index error; with five or more, every failure is the data-format prefix followed by one of the validator's messages |
| FileImport.CsvRecordAccepted | src/main/java/com/portfolio/manager/service/FileImportService.java:145-158 | an accepted record gives the trimmed symbol and name, the trimmed upper-cased type, the numbers parsed from the trimmed fields, and no current price exactly when there are five fields or the sixth is blank |
| FileImport.CsvRecordRequired | src/main/java/com/portfolio/manager/service/FileImportService.java:145-158 | a record fails with "Symbol is required", "Name is required" or "Asset type is required", wrapped, exactly when that field, in check order, is blank or all spaces |
| FileImport.BuildRenderedRoundTrip | src/main/java/com/portfolio/manager/service/FileImportService.java:160-213 | the validator gives back any candidate from its symbol, name, type name and plain-rendered numbers |
| FileImport.CsvRoundTrip | src/main/java/com/portfolio/manager/service/FileImportService.java:145-158 | a CSV record of those texts padded with spaces or control characters parses to the candidate |
| FileImport.SheetKeepsTypePadding | src/main/java/com/portfolio/manager/service/FileImportService.java:130-139 | a spreadsheet type cell padded with spaces is rejected as an invalid type, though the same CSV field is accepted |
| FileImport.PaddedTypeUnknown | src/main/java/com/portfolio/manager/service/FileImportService.java:174-180 | a padded type name is not blank but names no constant |
| FileImport.Step | src/main/java/com/portfolio/manager/service/FileImportService.java:77-88 | a row that failed to parse is rejected with its message and the sink is not called; otherwise the sink's answer decides the outcome and its state is kept |
| FileImport.Record | src/main/java/com/portfolio/manager/service/FileImportService.java:75-86 | each row adds one to totalRows and one to exactly one of the other counters, appending the asset or "Row n: message" |
| FileImport.ImportRows | src/main/java/com/portfolio/manager/service/FileImportService.java:72-89 | totalRows is the number of data rows, successCount plus failureCount is totalRows, and the lists are as long as their counters |
| FileImport.OutcomeOfRow | src/main/java/com/portfolio/manager/service/FileImportService.java:72-89 | each row's outcome is one step from the state the earlier rows left |
| FileImport.ReportOfOutcomes | src/main/java/com/portfolio/manager/service/FileImportService.java:72-89 | the loop's final state, errors and imported assets are those of the rows' outcomes in order |
| FileImport.FailedIndices | src/main/java/com/portfolio/manager/service/FileImportService.java:83-86 | the rejected rows' positions, increasing |
| FileImport.ImportedIndices | src/main/java/com/portfolio/manager/service/FileImportService.java:77-81 | the imported rows' positions, increasing |
| FileImport.ErrorsByIndex | src/main/java/com/portfolio/manager/service/FileImportService.java:83-86 | the j-th error is the j-th rejected row's message under its row number |
| FileImport.AssetsByIndex | src/main/java/com/portfolio/manager/service/FileImportService.java:77-81 | the j-th imported asset is the j-th accepted row's response |
| FileImport.ReportInRowOrder | src/main/java/com/portfolio/manager/service/FileImportService.java:71-88 | the report lists the errors of the rejected rows and the assets of the accepted rows in row order, each error under its row number (the k-th data row is row k+1, the header being row 1) |
| FileImport.DropRow | src/main/java/com/portfolio/manager/service/FileImportService.java:77-88 | a row that leaves the sink's state unchanged can be removed without changing any other outcome or the final state |
| FileImport.ParseFailureIsolated | src/main/java/com/portfolio/manager/service/FileImportService.java:77-88 | a row that fails to parse is rejected with its own message and has no effect on the other rows |
| FileImport.ParseFailureReported | src/main/java/com/portfolio/manager/service/FileImportService.java:83-86 | a row that fails to parse appears in the errors as "Row n: message" |
| FileImport.DataRows | src/main/java/com/portfolio/manager/service/FileImportService.java:66-69 | the header row is skipped whatever it holds |
| FileImport.ImportSheet | src/main/java/com/portfolio/manager/service/FileImportService.java:53-93 | an unreadable workbook fails with nothing imported; otherwise a report over the data rows |
| FileImport.ImportCsv | src/main/java/com/portfolio/manager/service/FileImportService.java:95-128 | the rows before a reader failure are still stored; with no failure the report counts every record |
| FileImport.ImportFile | src/main/java/com/portfolio/manager/service/FileImportService.java:38-51 | a null name fails with "File name is required"; otherwise the lower-cased name's suffix picks the spreadsheet path, then the CSV path, else fails with "Unsupported file format..." and leaves the state unchanged |
| FileImport.DispatchIgnoresCase | src/main/java/com/portfolio/manager/service/FileImportService.java:44-50 | upper-casing the file name does not change the import |
| FileImport.PdfRefused | src/test/java/com/portfolio/manager/service/FileImportServiceTest.java:204-211 | "portfolio.pdf" is refused as an unsupported format |
| FileImport.HeaderOnly | src/main/java/com/portfolio/manager/service/FileImportService.java:66-69 | a header-only file gives an all-zero report and changes nothing |
| FileImport.EmptySymbolRejected | src/main/java/com/portfolio/manager/service/FileImportService.java:164-166 | a sheet row with an empty symbol fails with "Invalid data format: Symbol is required" |
| FileImport.SecondDataRowNumber | src/test/java/com/portfolio/manager/service/FileImportServiceTest.java:196-200 | the second data row's errors read "Row 3: ..." |
| StoreImport.CreateFromCandidate | src/main/java/com/portfolio/manager/service/FileImportService.java:79 | createAsset on an imported candidate succeeds exactly when the business rules hold; a rejection keeps the store and carries the rule's message unwrapped; a success stores the candidate under the next id |
| StoreImport.StoreStep | src/main/java/com/portfolio/manager/service/FileImportService.java:77-88 | one row keeps the store valid and adds at most the next id |
| StoreImport.ImportIntoEmptyStore | src/main/java/com/portfolio/manager/service/FileImportService.java:72-89 | the empty store is valid, and an import into it stores exactly the ids 1 to successCount, the j-th imported response being the entity under id j + 1 |
| StoreImport.ImportIntoStore | src/main/java/com/portfolio/manager/service/FileImportService.java:72-89 | importing into the store keeps it valid and the old entries unchanged, and adds exactly successCount new ids; the j-th imported response is the entity stored under the j-th new id |
| StoreImport.RejectedRowIsolated | src/main/java/com/portfolio/manager/service/FileImportService.java:77-88 | a row the store rejects can be removed without changing the other rows' outcomes or the final store |

## Left out

- Reading files: the input stream, `MultipartFile`, try-with-resources and `IOException`.
  Apache POI and Commons CSV are foreign libraries, so they are represented by their output.
  A workbook is a sequence of optional cells per row or a read failure. A CSV file is the records after the header plus an optional failure that ends the iteration.
- FileImport.CellValue: a numeric cell's text is taken as given. The source formats a `double`, which is floating point.
- FileImport.ParseCsvRecord: the message of `record.get(i)` on a short record is a parameter. The JDK's exact text is not modelled.
- Logging, the HTTP controllers, `GlobalExceptionHandler`, the "Import failed: " rewrap in the controller, and Spring's `@Valid` invocation.
- The database: id generation is a counter starting at 1, timestamps are omitted, and the column precision and length limits of the entity are not enforced. The store keeps decimals as given. It does not rescale them to the column scales of `Asset.java:46-53` (4 places for quantity, 2 for the prices).
- AssetService.CreateThenGet: holds for the modelled store only. In the program, a value read back from the database is rescaled to its column scale, so the read-back decimals can differ in scale from the create response.
- AssetService.UpdateThenGet: holds for the modelled store only, for the same reason as `CreateThenGet`.
- Decimals.Multiply, Decimals.Add, Decimals.Subtract and Decimals.SetScaleHalfUp never fail. In Java they throw `ArithmeticException` ("Overflow" or "Underflow") when a result scale leaves the `int` range, or when rescaling needs a power of ten beyond `BigInteger`. `new BigDecimal` accepts a text such as `1E-2147483647` (scale 2^31 - 1). With that quantity and an average buy price that has a fraction digit, `createAsset` reaches `save` and then `toDto` throws while multiplying. The source reports that row as failed although the repository was asked to save it, and the model reports it imported. This overflow is not modelled.
- `PriceUpdateService`: it returns a constant text and has no logic.
- AssetService.UpdateAsset: a request with a null symbol or name fails in the source when `trim` dereferences the null (`AssetService.java:55-56`). A null type, quantity or average buy price fails at the not-null constraint on save. Both are one `NullField` error here, reported after the lookup, so a missing id is reported first, as in the source.
- AssetService.CreateAsset: a request with a null symbol, name, type, quantity or average buy price that passes the rules fails in the source when `trim` dereferences the null or when the database applies its not-null constraint. Both are one `NullField` error here.
- AssetService.GetAssets: the repository's order is unspecified, so the model lists assets by increasing id.
- Text.ToUpper: upper- and lower-casing cover ASCII letters only. Java maps all of Unicode, which matters only for non-ASCII type names and file names.
- DecimalText.ParseDecimal: only ASCII digits are accepted. `new BigDecimal(String)` also accepts other Unicode decimal digits.
- The `int` and `long` counters and ids are unbounded integers. Overflow would need more than 2^31 rows or assets.
- `toDto` is duplicated in `DashboardService` and `AssetService`. The dashboard copy also returns null for a null asset (`DashboardService.java:93-95`). That guard cannot fire, because the best and worst performers are set whenever the asset list is non-empty. The model expresses the performers as an `Option` and the conversion is modelled once as `Assets.ToDto`.

## Notes on behaviour

- When gains tie, the best and worst performers are the first asset with the largest and the first with the smallest gain. That is what `Stream.max` and `Stream.min` do with a comparator (`Dashboard.MaxIndexIsFirstMaximum`).
- Every error that `buildAssetDTO` raises happens inside the try blocks of the row parsers. The report therefore shows it as `Row n: Invalid data format: <message>`, for example `Row 3: Invalid data format: Symbol is required`. Only the rejections from `createAsset` appear unprefixed.
- The CSV path trims every field before validation. The spreadsheet path does not. Symbol and name are trimmed later in any case, but a type cell with surrounding spaces is rejected in a spreadsheet and accepted in a CSV file (`FileImport.SheetKeepsTypePadding`).
- If the CSV reader fails partway through a file, the rows before the failure have already been stored. The import still ends with an error and no report (`FileImport.ImportCsv`).
