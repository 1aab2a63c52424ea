# Receipt extraction and route-sheet update

This project is a Dafny model of the two steps at the centre of the
route-sheet generator. First, a registration receipt's OCR text, already
split into lines, becomes a JSON-like record. Then that record is written
into the row-4 and column-C cells of the route-sheet template, and the
output file name is chosen.

**Receipt extraction** (`receipt_processing.py`, modules `Receipt` and `Classifier`):

- Every line is stripped and passed through five rules:
  - district: the last entry of the district table named in the line, ignoring case;
  - unit number: the first digit run of a line naming Troop, Pack, Crew, Ship or Post;
  - charter renewal: the first digit run of a "Charter Renewal" or "Unit Charter" line, where a "Unit Charter" quantity of 100 is read as 1;
  - program: a five-way cascade on program names and unit keywords;
  - priced item: "`<digits>` `<whitespace>` `<label>`", ignoring case.
- District, unit, renewal and program are last-writer-wins fields.
- The eleven fee counters are sums.
- The record also gets the fixed council number "456", the term "12 months", the first of the current month as the effective date, and an expiration date 364 days later.

The loop is the method `Receipt.ExtractReceipt`. It is proved equal to the fold `Receipt.Fold` / `Receipt.Extract`, and the lemmas are about that fold.

**Route-sheet update** (`route_sheet.py`, module `RouteSheet`):

- "YYYY-MM-DD" dates are rewritten as "MM/DD/YYYY", with defaults for missing dates.
- Row 4 (B4, C4, D4, E4, G4, H4, I4, J4) is filled with record values or their defaults.
- The unit type written to E4 comes from the program.
- Each fee present in the record is copied to its cell C8..C18.
- The output name `Route_Sheet_<district>_<unit>_<MM-DD-YYYY>.xlsx` is built.

The worksheet is a map from cells to values, and the template is an `Option` that is absent when the file does not exist. The update is the method `RouteSheet.UpdateRouteSheet`. It is proved equal to `RouteSheet.FilledSheet` and `RouteSheet.OutputFilename`.

**Pipeline** (module `Pipeline`): what the update does with a record the extractor produced.

**Worked receipt** (module `Scenario`): four OCR lines, one per rule, taken through the extraction loop to the record they produce.

Support modules:

- `Wrappers` has `Option` and `Result`.
- `Text` models the Python string operations the core uses:
  - `in` on strings, `strip()` and ASCII `lower()`;
  - the first `\d+` match, and `int()` of it without CPython's limit on the number of digits;
  - `split`/`join` on one character, and `replace` of one character.
- `Dates` models the proleptic Gregorian calendar of `datetime`, `timedelta` arithmetic with its year-9999 limit, and `%Y-%m-%d` formatting and parsing.

## Model

| member | source | states |
|---|---|---|
| Receipt.ExtractReceipt | receipt_processing.py:117-216 | The extraction loop returns exactly `Extract(lines, today)`: the fold of the line rules over the lines, plus the fixed fields and the dates |
| Receipt.ScanLine | receipt_processing.py:149-208 | One iteration (strip, then district, unit, renewal, program and priced-item rules, each updating the record or a counter) has the effect of `Step` |
| Receipt.MatchDistricts | receipt_processing.py:154-157 | The district loop over the table, with its overwrites, leaves the district of the last table entry the line names, or the old pair if none |
| Receipt.ExtractSpec | receipt_processing.py:118-216 | Extraction fails only when the year is 9999. Otherwise: council "456"; term "12 months"; effective date parses back to the first of today's month; expiration parses to the day 364 days later; every other field is the line loop's |
| Receipt.FoldDistrict | receipt_processing.py:154-157 | District name and number come from the district fact of the last line that has one |
| Receipt.FoldUnit | receipt_processing.py:161-164 | The unit number is the unit fact of the last line that has one |
| Receipt.FoldCharterRenewal | receipt_processing.py:169-177 | `charter_renewal` is the quantity of the last renewal line; absent if there is none |
| Receipt.FoldProgram | receipt_processing.py:183-192 | The program is the program fact of the last line that has one |
| Receipt.StepFields | receipt_processing.py:151-192 | In one iteration, each scalar field is overwritten by its rule's fact when there is one, and kept otherwise |
| Receipt.DistrictPaired | receipt_processing.py:154-157 | District name and number are set together or not at all, and always as one table entry |
| Receipt.LaterDistrictLineWins | receipt_processing.py:154-157 | Appending a line that names a district makes that district the record's, whatever came before |
| Receipt.FoldPrices | receipt_processing.py:144-208 | Every counter is the sum over the lines of what each line adds to it |
| Receipt.StepPrices | receipt_processing.py:176-208 | One iteration adds the line's amount to each counter |
| Receipt.AmountOutsideCounted | receipt_processing.py:176-208 | A line adds nothing to a counter other than Charter Renewal, Youth Registration, Youth SL Subscription, Adult Registration or Program Fee |
| Receipt.PricesWellFormed | receipt_processing.py:130-144 | After any lines, all eleven counters are present and non-negative, and the six categories no rule reaches stay 0 |
| Receipt.YouthRenewalSum | receipt_processing.py:195-204 | Lines "k1 Youth Renewal" ... "kN Youth Renewal" give Youth Registration k1 + ... + kN |
| Receipt.AmountYouthRenewal | receipt_processing.py:195-204 | A "`<digits>` Youth Renewal" line adds its count to Youth Registration |
| Receipt.CharterRenewalTotal | receipt_processing.py:176-177 | The Charter Renewal counter sums the quantities of every renewal line (while `charter_renewal` keeps only the last) |
| Receipt.AmountCharterRenewal | receipt_processing.py:169-176 | A line adds its renewal quantity to Charter Renewal and nothing from the priced-item rule |
| Classifier.CountedKeysArePriceKeys | receipt_processing.py:130-142 | The five categories the rules add to are among the eleven counters |
| Classifier.LastDistrictInSpec | receipt_processing.py:154-157 | The district fact is the table entry at the last index whose name occurs in the line, ignoring case. There is none exactly when no name occurs |
| Classifier.UnitFact | receipt_processing.py:161-164 | A unit number exists iff the line names a unit keyword and has a digit. It is then the line's first, non-empty digit run |
| Classifier.RenewalFactSpec | receipt_processing.py:169-175 | A renewal quantity exists iff the line mentions a renewal and has a digit. It is the first digit run's value, except that a "Unit Charter" line reading 100 gives 1 |
| Classifier.UnitCharterCorrection | receipt_processing.py:173-175 | A "Unit Charter" line reading 100 renews 1 charter |
| Classifier.CharterRenewalNotCorrected | receipt_processing.py:169-175 | A "Charter Renewal" line reading 100 without "Unit Charter" renews 100 |
| Classifier.ProgramFactSpec | receipt_processing.py:183-192 | The program is the first cascade entry whose name or keyword occurs in the line. There is none iff no entry matches |
| Classifier.UnitLineHasProgram | receipt_processing.py:161-192 | A line that yields a unit number always yields a program too |
| Classifier.PriceItemSpec | receipt_processing.py:195-208 | A priced item exists iff some index of the line holds digits, then whitespace, then one of the six labels ignoring case. The item is the category of the label the search reports, counted by the digits it reports |
| Classifier.PriceItemOfMatch | receipt_processing.py:195-208 | A line has a priced item iff the search matches. The item is the category of the matched label, counted by the matched digits |
| Classifier.PriceMatchSpec | receipt_processing.py:195 | The price search matches iff the pattern occurs in the line. It reports the occurrence at the least index: the whole digit run there, all the whitespace after it, and the first of the six labels in alternation order that fits. Its groups are those slices of the line |
| Classifier.SearchSpec | receipt_processing.py:195 | The same for any alternatives that start with neither a digit nor whitespace: a match iff an occurrence exists, and then the leftmost one, with the runs and first label it must have |
| Classifier.MatchAt | receipt_processing.py:195 | The attempt at one index succeeds iff the pattern occurs there. It returns the digit and whitespace counts every occurrence there has, and the least label index among them |
| Classifier.PatternDetermined | receipt_processing.py:195 | At a given index, an occurrence's digits are the whole digit run and its whitespace is all the whitespace after it; backtracking gives no other split |
| Classifier.FirstLabelAt | receipt_processing.py:195 | The first alternative in order that occurs at a position, ignoring case; none iff no alternative does |
| Classifier.SearchFrom | receipt_processing.py:195 | The search from an index finds nothing iff no attempt from there succeeds; otherwise it is the first index whose attempt succeeds |
| Classifier.SearchAtStart | receipt_processing.py:195 | An occurrence at index 0 whose earlier labels do not fit there is what the search returns |
| Classifier.MatchAtFirstLabel | receipt_processing.py:195 | An occurrence whose label is the first that fits at its position is what the attempt at its index returns |
| Classifier.NoItemDigitsAtEnd | receipt_processing.py:195-197 | A line whose only digits end it has no priced item |
| Classifier.YouthNewNotCounted | receipt_processing.py:195-204 | "`<digits>` Youth New" has no priced item: the pattern has no "Youth New" label, so the `"youth new"` test is never reached |
| Classifier.LabelCategories | receipt_processing.py:198-208 | The category chain sends youth bl to Youth SL Subscription and youth renewal to Youth Registration. It sends adult renewal and adult new to Adult Registration, and both program-fee labels to Program Fee |
| Classifier.NotYouth | receipt_processing.py:201-208 | A label without a "y" (the adult and program-fee labels lower-cased) takes none of the youth branches |
| Classifier.LabelEnds | receipt_processing.py:198 | No label begins or ends with whitespace, so `strip()` of the match is the match |
| Classifier.TroopUnit | receipt_processing.py:161-164 | "Troop `<digits>`" has those digits as its unit number |
| Classifier.CharterRenewalQuantity | receipt_processing.py:169-172 | "Charter Renewal `<digits>`" renews the value of those digits |
| Classifier.YouthRenewalMatch | receipt_processing.py:195 | The search on "`<digits>` Youth Renewal" returns the digits and "Youth Renewal" |
| Classifier.YouthRenewalLine | receipt_processing.py:195-204 | "`<digits>` Youth Renewal" is a Youth Registration item of that count |
| Classifier.YouthRenewalNotRenewal | receipt_processing.py:169 | A "`<digits>` Youth Renewal" line is not a charter-renewal line |
| Scenario.DistrictLineFacts | receipt_processing.py:149-208 | "Calumet District" names Calumet, number 1, and yields no unit, renewal, program or priced item |
| Scenario.UnitLineFacts | receipt_processing.py:149-208 | "Troop 123" yields unit "123" and program Scouts BSA, and no district, renewal or priced item |
| Scenario.ItemLineFacts | receipt_processing.py:149-208 | "5 Youth Renewal" is 5 youth registrations and yields no other fact |
| Scenario.RenewalLineFacts | receipt_processing.py:149-208 | "Charter Renewal 2" renews 2 charters and yields no other fact |
| Scenario.ExtractScenario | receipt_processing.py:144-208 | The lines "Calumet District", "Troop 123", "5 Youth Renewal", "Charter Renewal 2" give district Calumet, number 1, unit "123", program Scouts BSA, Youth Registration 5, Charter Renewal 2 and `charter_renewal` 2 |
| Dates.Expiration | receipt_processing.py:214-216 | The effective date plus 365 days minus 1 is the in-range day whose ordinal is 364 more. It is absent exactly when the +365 step passes year 9999 |
| Dates.ExpirationOfFirstOfMonth | receipt_processing.py:214-216 | For the first of a month, the expiration overflows only in year 9999 |
| Dates.ExpirationExample | receipt_processing.py:214-216 | 2024-03-01 expires 2025-02-28 |
| Dates.ParseFormatIso | receipt_processing.py:120-214 | `strptime("%Y-%m-%d")` of the `strftime` form gives the date back |
| Dates.FormatParseIso | receipt_processing.py:214-216 | Whatever parses is exactly the formatting of its date |
| RouteSheet.FormatDateRotates | route_sheet.py:82-83 | Formatting a join of dash-free parts moves the first part to the end, joined with "/" |
| RouteSheet.FormatDateYMD | route_sheet.py:82-83 | "Y-M-D" becomes "M/D/Y" |
| RouteSheet.FormatDateNoDash | route_sheet.py:82-83 | A date without "-" is written unchanged |
| RouteSheet.FormatDateDashed | route_sheet.py:82-137 | Replacing "/" by "-" in the formatted "Y-M-D" gives "M-D-Y" |
| RouteSheet.DefaultEffectiveFormatted | route_sheet.py:77-82 | The default effective date is written 01/01/2023 |
| RouteSheet.DefaultExpirationFormatted | route_sheet.py:78-83 | The default expiration date is written 12/31/2023 |
| RouteSheet.UnitType | route_sheet.py:101-111 | E4 is the table's unit type for a listed program, and "Unknown" for any other program or none |
| RouteSheet.UnitTypeOfCascade | route_sheet.py:101-110 | Each of the five extractor programs maps to its own unit keyword (Scouts BSA to Troop, and so on) |
| RouteSheet.UnitTypeNonUnit | route_sheet.py:107-110 | District and Council are "Non-Unit" |
| RouteSheet.UnitTypeMissing | route_sheet.py:110 | A missing program is "Unknown" |
| RouteSheet.PriceMappingCells | route_sheet.py:116-128 | Mapping entry i is cell C(8+i) |
| RouteSheet.PriceMappingFields | route_sheet.py:116-128 | The mapping names exactly the eleven fee categories the extractor counts |
| RouteSheet.PriceCellsDistinct | route_sheet.py:116-128 | No two fees share a cell |
| RouteSheet.WritePricesSpec | route_sheet.py:129-131 | Given distinct cells, every category present in the prices has its count in its cell, and every cell no present category maps to is untouched |
| RouteSheet.PriceCellsNotHeader | route_sheet.py:89-128 | No price cell is a row-4 cell |
| RouteSheet.FilledHeader | route_sheet.py:77-111 | Row 4 holds the record's program, council, district number, unit, term and formatted dates. Missing values get "Unknown Program", "N/A", 01/01/2023 and 12/31/2023. E4 holds the unit type |
| RouteSheet.PricesKeepHeader | route_sheet.py:129-131 | The price loop leaves row 4 as written |
| RouteSheet.FilledPrices | route_sheet.py:115-131 | Each category present in the prices has its count in its C cell. An absent one leaves the template's cell, or its absence |
| RouteSheet.FilledOthers | route_sheet.py:89-131 | Every other cell keeps the template's value, or its absence |
| RouteSheet.FilenameDistrict | route_sheet.py:135 | The district part has no spaces, and gives the name back when the name had no "_" |
| RouteSheet.FilenameDate | route_sheet.py:135-143 | For a "Y-M-D" effective date the name is `Route_Sheet_<district>_<unit>_M-D-Y.xlsx` |
| RouteSheet.FilenameDefaults | route_sheet.py:135-143 | With no district, unit or date the name is "Route_Sheet_Unknown_Unknown_01-01-2023.xlsx" |
| RouteSheet.UpdateRouteSheet | route_sheet.py:67-143 | A missing template is TemplateNotFound. Otherwise the result is the filled sheet and the output name |
| Pipeline.SheetFormOfIso | route_sheet.py:82-83 | A date the extractor wrote as YYYY-MM-DD appears on the sheet as MM/DD/YYYY |
| Pipeline.ExtractedPricesAllWritten | route_sheet.py:129-131 | For an extracted record, all eleven price cells are written with the extractor's counters |
| Pipeline.ExtractedHeader | route_sheet.py:82-94 | For an extracted record: C4 "456", I4 "12 months", and H4 the first of today's month as MM/01/YYYY |
| Pipeline.ExtractedExpiration | route_sheet.py:83-95 | For an extracted record, J4 is the day 364 days after the effective date, as MM/DD/YYYY |
| Pipeline.ExtractedFilename | route_sheet.py:135-143 | An extracted record is saved under a name dated MM-01-YYYY |
| Pipeline.ExtractedProgram | receipt_processing.py:183-192 | An extracted program is one of the five cascade programs |
| Pipeline.ExtractedUnitType | route_sheet.py:101-111 | For an extracted record, E4 is the unit keyword of its program, never "Non-Unit", and "Unknown" when no line named a program |

Notes on the code's behaviour:

- The program cascade (receipt_processing.py:183-192) compares case-sensitively, unlike the district rule.
- The priced-item pattern (receipt_processing.py:195) has no "Youth New" label. So the `"youth new"` test in the category chain can never fire, and new youth registrations are not counted (`Classifier.YouthNewNotCounted`). The model keeps the six labels the pattern has.
- Adding 365 days to a date in year 9999 raises an error in `datetime`. The model returns `Err(DateOverflow)`; the code's own error handling around that is not modelled.

## Left out

- OCR, image preprocessing, reading the image file, configuration, logging and writing the JSON file are not modelled. The model starts from the OCR text already split into lines, and ends with the record.
- `str.splitlines` is not modelled; the input is the sequence of lines.
- `datetime.now()` is the parameter `today`.
- Text.DigitsValue: gives the value of a digit string of any length. CPython's `int()` raises `ValueError` on a string of more than 4300 digits (the default `sys.int_max_str_digits`). The model does not have that limit.
- Receipt.ExtractSpec: "fails only when the year is 9999" holds for the model. The code also fails, through receipt_processing.py:226-228, on a renewal or priced-item digit run of more than 4300 digits (see Text.DigitsValue).
- Only ASCII letters are lower-cased and only ASCII digits count as `\d`. Unicode case folding and non-ASCII digits are not modelled.
- Only the form `strftime` writes is accepted by `strptime`; single-digit month or day fields are not.
- Dates.FormatIso: writes years below 1000 with four digits, where `%Y` may write fewer; the extractor only formats today's date.
- The route-sheet record is modelled with the value types the extractor writes. A non-string date (which raises in `split`), the resulting `ValueError`, and the generic exception re-wrapping are not modelled.
- Loading and saving the workbook, `os.path` joins and `makedirs` are not modelled. The sheet is a map from (column, row) cells to values. The template is an `Option` that is absent when the file is missing, and the result is the sheet with the file name, not a path.
- `json.dumps` of the record, and whatever caller passes the record from one step to the next, are not modelled. `Pipeline.ToRouteData` plays that role.
