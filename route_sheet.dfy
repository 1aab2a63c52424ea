/**
 * The workbook-free part of `update_route_sheet_from_json`: the cells the
 * route sheet receives from an extracted record, with their defaults, and the
 * name of the file it is saved under. The worksheet is a map from cell to
 * value that the update writes into.
 */
module RouteSheet {
  import opened Wrappers
  import opened Text
  import opened Classifier

  // ---------------------------------------------------------------------------
  // Sheet and input
  // ---------------------------------------------------------------------------

  /** A worksheet cell: its column letter and row number ("C8" is `Cell('C', 8)`). */
  datatype Cell = Cell(column: char, row: nat)

  /** What a cell can hold here: text, or a whole number. */
  datatype CellValue = Text(text: string) | Number(number: int)

  type Sheet = map<Cell, CellValue>

  /** The keys of the record the update reads; an absent key is `None`. */
  datatype RouteData = RouteData(
    councilNumber: Option<string>,
    effectiveDate: Option<string>,
    term: Option<string>,
    districtName: Option<string>,
    districtNumber: Option<int>,
    localUnitNumber: Option<string>,
    program: Option<string>,
    prices: Option<map<string, int>>,
    expirationDate: Option<string>)

  datatype Failure = TemplateNotFound

  // ---------------------------------------------------------------------------
  // Dates: "Y-M-D" becomes "M/D/Y"
  // ---------------------------------------------------------------------------

  const DefaultEffectiveDate: string := "2023-01-01"
  const DefaultExpirationDate: string := "2023-12-31"

  /** The "-"-separated parts after the first, then the first, joined by "/". */
  function FormatDate(s: string): (r: string)
  {
    var parts := Split(s, '-');
    Join('/', parts[1..] + [parts[0]])
  }

  /** On a join of dash-free parts, formatting moves the first part to the end and joins with "/". */
  lemma FormatDateRotates(parts: seq<string>)
    requires |parts| >= 1
    requires forall j :: 0 <= j < |parts| ==> '-' !in parts[j]
    ensures FormatDate(Join('-', parts)) == Join('/', parts[1..] + [parts[0]])
  {
    SplitJoin(parts, '-');
  }

  /** "Y-M-D" becomes "M/D/Y". */
  lemma FormatDateYMD(y: string, m: string, d: string)
    requires '-' !in y && '-' !in m && '-' !in d
    ensures FormatDate(y + "-" + m + "-" + d) == m + "/" + d + "/" + y
  {
    var parts := [y, m, d];
    Join3(y, m, d, '-');
    FormatDateRotates(parts);
    assert parts[1..] + [parts[0]] == [m, d, y];
    Join3(m, d, y, '/');
  }

  /** A string without "-" is returned unchanged. */
  lemma FormatDateNoDash(s: string)
    requires '-' !in s
    ensures FormatDate(s) == s
  {
    FormatDateRotates([s]);
  }

  /** Replacing "/" by "-" in a formatted "Y-M-D" date gives "M-D-Y". */
  lemma FormatDateDashed(y: string, m: string, d: string)
    requires '-' !in y && '-' !in m && '-' !in d
    requires '/' !in y && '/' !in m && '/' !in d
    ensures ReplaceChar(FormatDate(y + "-" + m + "-" + d), '/', '-') == m + "-" + d + "-" + y
  {
    FormatDateYMD(y, m, d);
    ReplaceJoin([m, d, y], '/', '-');
    Join3(m, d, y, '/');
    Join3(m, d, y, '-');
  }

  /** The default effective date formats as "01/01/2023". */
  lemma DefaultEffectiveFormatted(s: string)
    requires s == DefaultEffectiveDate
    ensures FormatDate(s) == "01/01/2023"
  {
    var y, m, d := "2023", "01", "01";
    assert s == y + "-" + m + "-" + d;
    assert m + "/" + d + "/" + y == "01/01/2023";
    FormatDateYMD(y, m, d);
  }

  /** The default expiration date formats as "12/31/2023". */
  lemma DefaultExpirationFormatted(s: string)
    requires s == DefaultExpirationDate
    ensures FormatDate(s) == "12/31/2023"
  {
    var y, m, d := "2023", "12", "31";
    assert s == y + "-" + m + "-" + d;
    assert m + "/" + d + "/" + y == "12/31/2023";
    FormatDateYMD(y, m, d);
  }

  // ---------------------------------------------------------------------------
  // Unit type
  // ---------------------------------------------------------------------------

  /** `program_to_unit_type`. */
  const ProgramToUnitType: map<string, string> := map[
    "Scouts BSA" := "Troop",
    "Cub Scouts" := "Pack",
    "Venturing" := "Crew",
    "Sea Scouts" := "Ship",
    "Exploring" := "Post",
    "District" := "Non-Unit",
    "Council" := "Non-Unit"
  ]

  /** The unit type written to E4: the table's entry for the program, "Unknown" for any other or none. */
  function UnitType(program: Option<string>): (r: string)
    ensures program.Some? && program.value in ProgramToUnitType ==> r == ProgramToUnitType[program.value]
    ensures (program.None? || program.value !in ProgramToUnitType) ==> r == "Unknown"
  {
    var p := program.GetOr("");
    if p in ProgramToUnitType then ProgramToUnitType[p] else "Unknown"
  }

  /**
   * The five programs the receipt extractor can report get the very keyword
   * that selects them there; District and Council are non-unit.
   */
  lemma UnitTypeOfCascade(k: nat)
    requires k < |ProgramCascade|
    ensures UnitType(Some(ProgramCascade[k].0)) == ProgramCascade[k].1
  {
  }

  /** District and Council records are not units. */
  lemma UnitTypeNonUnit()
    ensures UnitType(Some("District")) == "Non-Unit"
    ensures UnitType(Some("Council")) == "Non-Unit"
  {
  }

  /** A missing program is of unknown unit type. */
  lemma UnitTypeMissing()
    ensures UnitType(None) == "Unknown"
  {
    assert "" !in ProgramToUnitType;
  }

  // ---------------------------------------------------------------------------
  // Price cells
  // ---------------------------------------------------------------------------

  /** `price_mapping` in its iteration order: each fee category and its cell in column C. */
  const PriceMapping: seq<(string, Cell)> := [
    (CharterRenewal, Cell('C', 8)),
    (YouthRegistration, Cell('C', 9)),
    (YouthSLSubscription, Cell('C', 10)),
    (YouthTransfer, Cell('C', 11)),
    (AdultRegistration, Cell('C', 12)),
    (MultiplePositionChange, Cell('C', 13)),
    (AdultTransfer, Cell('C', 14)),
    (AdultSLSubscription, Cell('C', 15)),
    (YouthExploring, Cell('C', 16)),
    (AdultExploring, Cell('C', 17)),
    (ProgramFee, Cell('C', 18))
  ]

  /** Entry `i` of the mapping is written to row 8 + i of column C. */
  lemma PriceMappingCells(i: nat)
    requires i < |PriceMapping|
    ensures PriceMapping[i].1 == Cell('C', 8 + i)
  {
  }

  /** The mapping names exactly the eleven fee categories the extractor counts. */
  lemma PriceMappingFields()
    ensures forall i :: 0 <= i < |PriceMapping| ==> PriceMapping[i].0 in PriceKeys
    ensures forall key :: key in PriceKeys ==> exists i :: 0 <= i < |PriceMapping| && PriceMapping[i].0 == key
  {
    forall key | key in PriceKeys
      ensures exists i :: 0 <= i < |PriceMapping| && PriceMapping[i].0 == key
    {
      if key == CharterRenewal { assert PriceMapping[0].0 == key; }
      else if key == YouthRegistration { assert PriceMapping[1].0 == key; }
      else if key == YouthSLSubscription { assert PriceMapping[2].0 == key; }
      else if key == YouthTransfer { assert PriceMapping[3].0 == key; }
      else if key == AdultRegistration { assert PriceMapping[4].0 == key; }
      else if key == MultiplePositionChange { assert PriceMapping[5].0 == key; }
      else if key == AdultTransfer { assert PriceMapping[6].0 == key; }
      else if key == AdultSLSubscription { assert PriceMapping[7].0 == key; }
      else if key == YouthExploring { assert PriceMapping[8].0 == key; }
      else if key == AdultExploring { assert PriceMapping[9].0 == key; }
      else { assert PriceMapping[10].0 == key; }
    }
  }

  /** Does some entry of `mapping` whose category is in `prices` write `c`? */
  predicate WrittenBy(mapping: seq<(string, Cell)>, prices: map<string, int>, c: Cell)
  {
    exists i :: 0 <= i < |mapping| && mapping[i].1 == c && mapping[i].0 in prices
  }

  /** The sheet after the price loop has run over `mapping`: present categories write their count. */
  function WritePrices(sheet: Sheet, prices: map<string, int>, mapping: seq<(string, Cell)>): (r: Sheet)
  {
    if mapping == [] then sheet
    else
      var (field, cell) := mapping[|mapping| - 1];
      var s := WritePrices(sheet, prices, mapping[..|mapping| - 1]);
      if field in prices then s[cell := Number(prices[field])] else s
  }

  /**
   * With distinct cells, the price loop writes each present category's count
   * to its cell and leaves every other cell as it was.
   */
  lemma {:induction false} WritePricesSpec(sheet: Sheet, prices: map<string, int>, mapping: seq<(string, Cell)>)
    requires forall i, j :: 0 <= i < j < |mapping| ==> mapping[i].1 != mapping[j].1
    ensures forall i :: 0 <= i < |mapping| && mapping[i].0 in prices ==>
              mapping[i].1 in WritePrices(sheet, prices, mapping)
              && WritePrices(sheet, prices, mapping)[mapping[i].1] == Number(prices[mapping[i].0])
    ensures forall c :: !WrittenBy(mapping, prices, c) ==>
              (c in WritePrices(sheet, prices, mapping) <==> c in sheet)
              && (c in sheet ==> WritePrices(sheet, prices, mapping)[c] == sheet[c])
  {
    if mapping != [] {
      var n := |mapping| - 1;
      var front := mapping[..n];
      WritePricesSpec(sheet, prices, front);
      assert forall i :: 0 <= i < n ==> mapping[i] == front[i];
      forall i | 0 <= i < |mapping| && mapping[i].0 in prices
        ensures mapping[i].1 in WritePrices(sheet, prices, mapping)
        ensures WritePrices(sheet, prices, mapping)[mapping[i].1] == Number(prices[mapping[i].0])
      {
        if i < n {
          assert mapping[i] == front[i];
        }
      }
    }
  }

  /** The cells of `PriceMapping` are distinct. */
  lemma PriceCellsDistinct()
    ensures forall i, j :: 0 <= i < j < |PriceMapping| ==> PriceMapping[i].1 != PriceMapping[j].1
  {
    forall i, j | 0 <= i < j < |PriceMapping|
      ensures PriceMapping[i].1 != PriceMapping[j].1
    {
      PriceMappingCells(i);
      PriceMappingCells(j);
    }
  }

  // ---------------------------------------------------------------------------
  // The filled sheet
  // ---------------------------------------------------------------------------

  /** The row-4 cells the update writes, in the order it writes them. */
  const ProgramCell: Cell := Cell('B', 4)
  const CouncilCell: Cell := Cell('C', 4)
  const DistrictCell: Cell := Cell('D', 4)
  const UnitCell: Cell := Cell('G', 4)
  const EffectiveCell: Cell := Cell('H', 4)
  const TermCell: Cell := Cell('I', 4)
  const ExpirationCell: Cell := Cell('J', 4)
  const UnitTypeCell: Cell := Cell('E', 4)

  const HeaderCells: set<Cell> :=
    {ProgramCell, CouncilCell, DistrictCell, UnitCell, EffectiveCell, TermCell, ExpirationCell, UnitTypeCell}

  /** A text cell for a present value, `default` otherwise. */
  function TextOr(value: Option<string>, default: string): CellValue
  {
    Text(value.GetOr(default))
  }

  /** The template after the row-4 writes. */
  function HeaderWritten(data: RouteData, template: Sheet): (r: Sheet)
  {
    template[ProgramCell := TextOr(data.program, "Unknown Program")]
            [CouncilCell := TextOr(data.councilNumber, "N/A")]
            [DistrictCell := match data.districtNumber case Some(n) => Number(n) case None => Text("N/A")]
            [UnitCell := TextOr(data.localUnitNumber, "N/A")]
            [EffectiveCell := Text(FormatDate(data.effectiveDate.GetOr(DefaultEffectiveDate)))]
            [TermCell := TextOr(data.term, "N/A")]
            [ExpirationCell := Text(FormatDate(data.expirationDate.GetOr(DefaultExpirationDate)))]
            [UnitTypeCell := Text(UnitType(data.program))]
  }

  /** The sheet the update saves: the row-4 writes, then the price loop. */
  function FilledSheet(data: RouteData, template: Sheet): Sheet
  {
    WritePrices(HeaderWritten(data, template), data.prices.GetOr(map[]), PriceMapping)
  }

  /** No price cell is a row-4 cell. */
  lemma PriceCellsNotHeader(i: nat)
    requires i < |PriceMapping|
    ensures PriceMapping[i].1 !in HeaderCells
  {
    PriceMappingCells(i);
  }

  /**
   * Row 4 of the saved sheet: the record's values, and for a missing key
   * "Unknown Program" in B4, "N/A" in C4, D4, G4 and I4, and the default
   * dates 01/01/2023 in H4 and 12/31/2023 in J4; E4 holds the unit type.
   */
  lemma FilledHeader(data: RouteData, template: Sheet)
    ensures HeaderCells <= FilledSheet(data, template).Keys
    ensures var sheet := FilledSheet(data, template);
            && sheet[ProgramCell] == Text(if data.program.Some? then data.program.value else "Unknown Program")
            && sheet[CouncilCell] == Text(if data.councilNumber.Some? then data.councilNumber.value else "N/A")
            && sheet[DistrictCell] == (if data.districtNumber.Some? then Number(data.districtNumber.value) else Text("N/A"))
            && sheet[UnitCell] == Text(if data.localUnitNumber.Some? then data.localUnitNumber.value else "N/A")
            && sheet[TermCell] == Text(if data.term.Some? then data.term.value else "N/A")
            && sheet[UnitTypeCell] == Text(UnitType(data.program))
            && (data.effectiveDate.None? ==> sheet[EffectiveCell] == Text("01/01/2023"))
            && (data.effectiveDate.Some? ==> sheet[EffectiveCell] == Text(FormatDate(data.effectiveDate.value)))
            && (data.expirationDate.None? ==> sheet[ExpirationCell] == Text("12/31/2023"))
            && (data.expirationDate.Some? ==> sheet[ExpirationCell] == Text(FormatDate(data.expirationDate.value)))
  {
    var header := HeaderWritten(data, template);
    var sheet := FilledSheet(data, template);
    PricesKeepHeader(data, template);
    assert sheet[ProgramCell] == header[ProgramCell];
    assert sheet[CouncilCell] == header[CouncilCell];
    assert sheet[DistrictCell] == header[DistrictCell];
    assert sheet[UnitCell] == header[UnitCell];
    assert sheet[TermCell] == header[TermCell];
    assert sheet[UnitTypeCell] == header[UnitTypeCell];
    assert sheet[EffectiveCell] == header[EffectiveCell];
    assert sheet[ExpirationCell] == header[ExpirationCell];
    if data.effectiveDate.None? {
      DefaultEffectiveFormatted(DefaultEffectiveDate);
    }
    if data.expirationDate.None? {
      DefaultExpirationFormatted(DefaultExpirationDate);
    }
  }

  /** The price loop does not touch row 4. */
  lemma PricesKeepHeader(data: RouteData, template: Sheet)
    ensures forall c :: c in HeaderCells ==>
              c in FilledSheet(data, template) && FilledSheet(data, template)[c] == HeaderWritten(data, template)[c]
  {
    var prices := data.prices.GetOr(map[]);
    PriceCellsDistinct();
    WritePricesSpec(HeaderWritten(data, template), prices, PriceMapping);
    forall c | c in HeaderCells
      ensures !WrittenBy(PriceMapping, prices, c)
    {
      if WrittenBy(PriceMapping, prices, c) {
        var i :| 0 <= i < |PriceMapping| && PriceMapping[i].1 == c && PriceMapping[i].0 in prices;
        PriceCellsNotHeader(i);
      }
    }
  }

  /**
   * The price cells of the saved sheet: each category present in `prices`
   * writes its count to its cell; an absent category leaves its cell as the
   * template had it.
   */
  lemma FilledPrices(data: RouteData, template: Sheet)
    ensures var sheet := FilledSheet(data, template);
            var prices := data.prices.GetOr(map[]);
            forall i :: 0 <= i < |PriceMapping| && PriceMapping[i].0 in prices ==>
              PriceMapping[i].1 in sheet && sheet[PriceMapping[i].1] == Number(prices[PriceMapping[i].0])
    ensures var sheet := FilledSheet(data, template);
            var prices := data.prices.GetOr(map[]);
            forall i :: 0 <= i < |PriceMapping| && PriceMapping[i].0 !in prices ==>
              (PriceMapping[i].1 in sheet <==> PriceMapping[i].1 in template)
              && (PriceMapping[i].1 in template ==> sheet[PriceMapping[i].1] == template[PriceMapping[i].1])
  {
    var prices := data.prices.GetOr(map[]);
    var header := HeaderWritten(data, template);
    PriceCellsDistinct();
    WritePricesSpec(header, prices, PriceMapping);
    forall i | 0 <= i < |PriceMapping| && PriceMapping[i].0 !in prices
      ensures !WrittenBy(PriceMapping, prices, PriceMapping[i].1)
      ensures PriceMapping[i].1 in header <==> PriceMapping[i].1 in template
      ensures PriceMapping[i].1 in template ==> header[PriceMapping[i].1] == template[PriceMapping[i].1]
    {
      PriceCellsNotHeader(i);
    }
  }

  /** Every cell outside row 4 and the price cells keeps the template's value (or absence). */
  lemma FilledOthers(data: RouteData, template: Sheet, c: Cell)
    requires c !in HeaderCells
    requires forall i :: 0 <= i < |PriceMapping| ==> PriceMapping[i].1 != c
    ensures c in FilledSheet(data, template) <==> c in template
    ensures c in template ==> FilledSheet(data, template)[c] == template[c]
  {
    var prices := data.prices.GetOr(map[]);
    PriceCellsDistinct();
    WritePricesSpec(HeaderWritten(data, template), prices, PriceMapping);
  }

  // ---------------------------------------------------------------------------
  // Output file name
  // ---------------------------------------------------------------------------

  /** `Route_Sheet_<district>_<unit>_<date>.xlsx`. */
  function OutputFilename(data: RouteData): (r: string)
  {
    var district := ReplaceChar(data.districtName.GetOr("Unknown"), ' ', '_');
    var unit := data.localUnitNumber.GetOr("Unknown");
    var date := ReplaceChar(FormatDate(data.effectiveDate.GetOr(DefaultEffectiveDate)), '/', '-');
    "Route_Sheet_" + district + "_" + unit + "_" + date + ".xlsx"
  }

  /** The district part of the name has no spaces, and gives the district name back when it had no "_". */
  lemma FilenameDistrict(name: string)
    ensures ' ' !in ReplaceChar(name, ' ', '_')
    ensures '_' !in name ==> ReplaceChar(ReplaceChar(name, ' ', '_'), '_', ' ') == name
  {
    ReplaceRemoves(name, ' ', '_');
    if '_' !in name {
      ReplaceRoundTrip(name, ' ', '_');
    }
  }

  /** The date part of the name is "M-D-Y" for a "Y-M-D" effective date, "01-01-2023" when it is missing. */
  lemma FilenameDate(data: RouteData, y: string, m: string, d: string)
    requires '-' !in y && '-' !in m && '-' !in d
    requires '/' !in y && '/' !in m && '/' !in d
    ensures data.effectiveDate == Some(y + "-" + m + "-" + d) ==>
              OutputFilename(data)
              == "Route_Sheet_" + ReplaceChar(data.districtName.GetOr("Unknown"), ' ', '_') + "_"
                 + data.localUnitNumber.GetOr("Unknown") + "_" + m + "-" + d + "-" + y + ".xlsx"
  {
    FormatDateDashed(y, m, d);
  }

  /** A record without district, unit or date is saved as "Route_Sheet_Unknown_Unknown_01-01-2023.xlsx". */
  lemma FilenameDefaults(data: RouteData)
    requires data.districtName.None? && data.localUnitNumber.None? && data.effectiveDate.None?
    ensures OutputFilename(data) == "Route_Sheet_Unknown_Unknown_01-01-2023.xlsx"
  {
    var unknown := "Unknown";
    var y, m, d := "2023", "01", "01";
    assert "Route_Sheet_" + unknown + "_" + unknown + "_" + (m + "-" + d + "-" + y) + ".xlsx"
           == "Route_Sheet_Unknown_Unknown_01-01-2023.xlsx";
    assert DefaultEffectiveDate == y + "-" + m + "-" + d;
    assert ' ' !in unknown;
    FormatDateDashed(y, m, d);
    ReplaceAbsent(unknown, ' ', '_');
  }

  // ---------------------------------------------------------------------------
  // The update
  // ---------------------------------------------------------------------------

  /**
   * `update_route_sheet_from_json` without the file system: fail before any
   * write if there is no template; otherwise write row 4, then each present
   * price into its cell, and name the output file.
   */
  method UpdateRouteSheet(data: RouteData, template: Option<Sheet>) returns (r: Result<(Sheet, string), Failure>)
    ensures template.None? ==> r == Err(TemplateNotFound)
    ensures template.Some? ==> r == Ok((FilledSheet(data, template.value), OutputFilename(data)))
  {
    if template.None? {
      return Err(TemplateNotFound);
    }
    var sheet := template.value;

    var effectiveDate := data.effectiveDate.GetOr(DefaultEffectiveDate);
    var expirationDate := data.expirationDate.GetOr(DefaultExpirationDate);
    var effectiveFormatted := FormatDate(effectiveDate);
    var expirationFormatted := FormatDate(expirationDate);

    sheet := sheet[ProgramCell := TextOr(data.program, "Unknown Program")];
    sheet := sheet[CouncilCell := TextOr(data.councilNumber, "N/A")];
    sheet := sheet[DistrictCell := match data.districtNumber case Some(n) => Number(n) case None => Text("N/A")];
    sheet := sheet[UnitCell := TextOr(data.localUnitNumber, "N/A")];
    sheet := sheet[EffectiveCell := Text(effectiveFormatted)];
    sheet := sheet[TermCell := TextOr(data.term, "N/A")];
    sheet := sheet[ExpirationCell := Text(expirationFormatted)];
    sheet := sheet[UnitTypeCell := Text(UnitType(data.program))];

    var prices := data.prices.GetOr(map[]);
    ghost var header := sheet;
    var k := 0;
    while k < |PriceMapping|
      invariant k <= |PriceMapping|
      invariant sheet == WritePrices(header, prices, PriceMapping[..k])
    {
      var (field, cell) := PriceMapping[k];
      if field in prices {
        sheet := sheet[cell := Number(prices[field])];
      }
      assert PriceMapping[..k + 1][..k] == PriceMapping[..k];
      k := k + 1;
    }
    assert PriceMapping[..k] == PriceMapping;

    var districtName := ReplaceChar(data.districtName.GetOr("Unknown"), ' ', '_');
    var localUnitNumber := data.localUnitNumber.GetOr("Unknown");
    var currentDate := ReplaceChar(effectiveFormatted, '/', '-');
    var filename := "Route_Sheet_" + districtName + "_" + localUnitNumber + "_" + currentDate + ".xlsx";
    return Ok((sheet, filename));
  }
}
