/**
 * The extracted record handed to the route-sheet update: which cells an
 * extraction fills, and what the saved file is called.
 */
module Pipeline {
  import opened Wrappers
  import opened Text
  import opened Dates
  import opened Classifier
  import opened Receipt
  import opened RouteSheet

  /** The record as the route-sheet update reads it: every key the extractor always writes is present. */
  function ToRouteData(r: Record): RouteData
  {
    RouteData(Some(r.councilNumber), Some(r.effectiveDate), Some(r.term), r.districtName, r.districtNumber,
              r.localUnitNumber, r.program, Some(r.prices), Some(r.expirationDate))
  }

  /** Zero-padded numbers contain neither separator. */
  lemma PadsHaveNoSeparators(n: nat)
    requires n < 10000
    ensures '-' !in Pad4(n) && '/' !in Pad4(n)
    ensures n < 100 ==> '-' !in Pad2(n) && '/' !in Pad2(n)
  {
  }

  /** A date written "YYYY-MM-DD" is written "MM/DD/YYYY" on the route sheet. */
  lemma SheetFormOfIso(d: Date)
    requires InRange(d)
    ensures FormatDate(FormatIso(d)) == Pad2(d.month) + "/" + Pad2(d.day) + "/" + Pad4(d.year)
    ensures ReplaceChar(FormatDate(FormatIso(d)), '/', '-') == Pad2(d.month) + "-" + Pad2(d.day) + "-" + Pad4(d.year)
  {
    PadsHaveNoSeparators(d.year);
    PadsHaveNoSeparators(d.month);
    PadsHaveNoSeparators(d.day);
    FormatDateYMD(Pad4(d.year), Pad2(d.month), Pad2(d.day));
    FormatDateDashed(Pad4(d.year), Pad2(d.month), Pad2(d.day));
  }

  /**
   * A successful extraction fills every one of the eleven price cells with
   * its counter, since all eleven counters are present in the record.
   */
  lemma ExtractedPricesAllWritten(lines: seq<string>, today: Date, template: Sheet)
    requires InRange(today)
    requires Extract(lines, today).Ok?
    ensures var sheet := FilledSheet(ToRouteData(Extract(lines, today).value), template);
            forall i :: 0 <= i < |PriceMapping| ==>
              PriceMapping[i].1 in sheet
              && PriceMapping[i].0 in Fold(lines).prices
              && sheet[PriceMapping[i].1] == Number(Fold(lines).prices[PriceMapping[i].0])
  {
    ExtractSpec(lines, today);
    PriceMappingFields();
    FilledPrices(ToRouteData(Extract(lines, today).value), template);
  }

  /**
   * Row 4 of the sheet for an extracted record: council 456, term 12 months,
   * and the first of the month in H4 as MM/01/YYYY.
   */
  lemma ExtractedHeader(lines: seq<string>, today: Date, template: Sheet, r: Record)
    requires InRange(today)
    requires Extract(lines, today) == Ok(r)
    ensures var sheet := FilledSheet(ToRouteData(r), template);
            && HeaderCells <= sheet.Keys
            && sheet[CouncilCell] == Text("456")
            && sheet[TermCell] == Text("12 months")
            && sheet[EffectiveCell] == Text(Pad2(today.month) + "/" + Pad2(1) + "/" + Pad4(today.year))
  {
    var start := Date(today.year, today.month, 1);
    assert r.effectiveDate == FormatIso(start);
    ExtractSpec(lines, today);
    FilledHeader(ToRouteData(r), template);
    SheetFormOfIso(start);
  }

  /** J4 for an extracted record: the day 364 days after the effective date, as MM/DD/YYYY. */
  lemma ExtractedExpiration(lines: seq<string>, today: Date, template: Sheet, r: Record)
    requires InRange(today)
    requires Extract(lines, today) == Ok(r)
    ensures var sheet := FilledSheet(ToRouteData(r), template);
            && ExpirationCell in sheet
            && exists end: Date ::
                 InRange(end) && Ordinal(end) == Ordinal(Date(today.year, today.month, 1)) + 364
                 && sheet[ExpirationCell] == Text(Pad2(end.month) + "/" + Pad2(end.day) + "/" + Pad4(end.year))
  {
    var start := Date(today.year, today.month, 1);
    ExtractSpec(lines, today);
    ExpirationOfFirstOfMonth(today.year, today.month);
    var end := Expiration(start).value;
    assert r.expirationDate == FormatIso(end);
    FilledHeader(ToRouteData(r), template);
    SheetFormOfIso(end);
    var sheet := FilledSheet(ToRouteData(r), template);
    assert sheet[ExpirationCell] == Text(Pad2(end.month) + "/" + Pad2(end.day) + "/" + Pad4(end.year));
  }

  /** The saved file of an extracted record is dated MM-01-YYYY, the first of the month. */
  lemma ExtractedFilename(lines: seq<string>, today: Date)
    requires InRange(today)
    requires Extract(lines, today).Ok?
    ensures OutputFilename(ToRouteData(Extract(lines, today).value))
            == "Route_Sheet_" + ReplaceChar(Fold(lines).districtName.GetOr("Unknown"), ' ', '_') + "_"
               + Fold(lines).localUnitNumber.GetOr("Unknown") + "_"
               + (Pad2(today.month) + "-" + Pad2(1) + "-" + Pad4(today.year)) + ".xlsx"
  {
    var start := Date(today.year, today.month, 1);
    assert Extract(lines, today).value.effectiveDate == FormatIso(start);
    ExtractSpec(lines, today);
    SheetFormOfIso(start);
  }

  /** An extracted program is always one of the five cascade programs. */
  lemma ExtractedProgram(lines: seq<string>)
    ensures Fold(lines).program.Some? ==>
              exists k :: 0 <= k < |ProgramCascade| && Fold(lines).program.value == ProgramCascade[k].0
  {
    FoldProgram(lines);
    var facts := ProgramFacts(lines);
    LastSomeSpec(facts);
    if LastSome(facts).Some? {
      var m :| 0 <= m < |facts| && facts[m] == LastSome(facts) && forall j :: m < j < |facts| ==> facts[j].None?;
      ProgramFactSpec(Strip(lines[m]));
    }
  }

  /**
   * E4 for an extracted record: the unit keyword of its program (Troop,
   * Pack, Crew, Ship or Post), never "Non-Unit"; "Unknown" if no line named
   * a program.
   */
  lemma ExtractedUnitType(lines: seq<string>)
    ensures Fold(lines).program.None? ==> UnitType(Fold(lines).program) == "Unknown"
    ensures Fold(lines).program.Some? ==>
              exists k :: 0 <= k < |ProgramCascade| && UnitType(Fold(lines).program) == ProgramCascade[k].1
  {
    ExtractedProgram(lines);
    if Fold(lines).program.Some? {
      var k :| 0 <= k < |ProgramCascade| && Fold(lines).program.value == ProgramCascade[k].0;
      UnitTypeOfCascade(k);
    } else {
      UnitTypeMissing();
    }
  }
}
