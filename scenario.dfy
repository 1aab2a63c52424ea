/**
 * A worked receipt: four OCR lines, one per rule, run through the
 * extraction loop. Each line's facts are derived from the rules, then the
 * loop's final state is read off.
 */
module Scenario {
  import opened Wrappers
  import opened Text
  import opened Classifier
  import opened Receipt

  const DistrictLine: string := "Calumet District"
  const UnitLine: string := "Troop 123"
  const ItemLine: string := "5 Youth Renewal"
  const RenewalLine: string := "Charter Renewal 2"

  // ---------------------------------------------------------------------------
  // Absent names
  // ---------------------------------------------------------------------------

  /** A line lacking, ignoring case, letter `j` of district `k`'s name does not name that district. */
  lemma NotNamedAt(line: string, k: nat, j: nat)
    requires k < |DistrictTable| && j < |DistrictTable[k].name|
    requires LowerChar(DistrictTable[k].name[j]) !in Lower(line)
    ensures !NamesDistrict(line, DistrictTable[k])
  {
    NotContainsByChar(Lower(line), Lower(DistrictTable[k].name), j);
  }

  /** Every district name has a 'g', an 'i' or an 'm': a line with none of them names no district. */
  lemma NoDistrictLackingGIM(line: string)
    requires 'g' !in Lower(line) && 'i' !in Lower(line) && 'm' !in Lower(line)
    ensures LineDistrict(line).None?
  {
    forall k | 0 <= k < |DistrictTable|
      ensures !NamesDistrict(line, DistrictTable[k])
    {
      assert k == 0 || k == 1 || k == 2 || k == 3 || k == 4 || k == 5 || k == 6 || k == 7 || k == 8 || k == 9;
      NotNamedAt(line, k, [4, 1, 3, 8, 6, 0, 2, 1, 5, 3][k]);
    }
    LastDistrictInSpec(line, DistrictTable);
  }

  /**
   * A line naming Calumet and lacking 'b', 'f', 'g', 'n' and '-' names no
   * other district, so Calumet is its district.
   */
  lemma OnlyCalumet(line: string)
    requires Contains(Lower(line), "calumet")
    requires 'b' !in Lower(line) && 'f' !in Lower(line) && 'g' !in Lower(line)
    requires 'n' !in Lower(line) && '-' !in Lower(line)
    ensures LineDistrict(line) == Some(District("Calumet", 1))
  {
    assert NamesDistrict(line, DistrictTable[0]) by {
      assert Lower("Calumet") == "calumet";
    }
    forall k | 1 <= k < |DistrictTable|
      ensures !NamesDistrict(line, DistrictTable[k])
    {
      assert k == 1 || k == 2 || k == 3 || k == 4 || k == 5 || k == 6 || k == 7 || k == 8 || k == 9;
      NotNamedAt(line, k, [0, 1, 10, 3, 6, 3, 3, 0, 5, 5][k]);
    }
    LastDistrictInSpec(line, DistrictTable);
  }

  /** Both renewal phrases have an 'h': a line without one mentions no renewal. */
  lemma NoRenewalLackingH(line: string)
    requires 'h' !in line
    ensures RenewalFact(line).None?
  {
    NotContainsByChar(line, "Charter Renewal", 1);
    NotContainsByChar(line, "Unit Charter", 6);
  }

  /**
   * A line without 'E', 'P', 'S', 'T' or 'V' and without "Crew" names no
   * unit type and no program.
   */
  lemma NoProgramLackingCapitals(line: string)
    requires 'E' !in line && 'P' !in line && 'S' !in line && 'T' !in line && 'V' !in line
    requires !Contains(line, "Crew")
    ensures UnitFact(line).None? && ProgramFact(line).None?
  {
    NotContainsByChar(line, "Troop", 0);
    NotContainsByChar(line, "Pack", 0);
    NotContainsByChar(line, "Ship", 0);
    NotContainsByChar(line, "Post", 0);
    NotContainsByChar(line, "Scouts BSA", 0);
    NotContainsByChar(line, "Cub Scouts", 4);
    NotContainsByChar(line, "Venturing", 0);
    NotContainsByChar(line, "Sea Scouts", 0);
    NotContainsByChar(line, "Exploring", 0);
  }

  /** "Charter Renewal 2" does not contain "Crew": its only 'C' is followed by 'h'. */
  lemma NoCrewInRenewalLine()
    ensures !Contains(RenewalLine, "Crew")
  {
    var line := RenewalLine;
    assert line[1..] == "harter Renewal 2";
    forall i | 0 <= i <= |line| - 4
      ensures !OccursAt(line, "Crew", i)
    {
      if i == 0 {
        assert line[0..4][1] == 'h';
      } else {
        assert line[i..i + 4][0] == line[1..][i - 1];
      }
    }
  }

  // ---------------------------------------------------------------------------
  // The letters of each line
  // ---------------------------------------------------------------------------

  /** "Calumet District" has no digit and none of these letters. */
  lemma DistrictLineLetters()
    ensures var s := DistrictLine; 'E' !in s && 'P' !in s && 'S' !in s && 'T' !in s && 'V' !in s && 'h' !in s && 'w' !in s
    ensures forall j :: 0 <= j < 16 ==> !IsDigit(DistrictLine[j])
  {
    var s := DistrictLine;
    forall j | 0 <= j < |s|
      ensures s[j] != 'E' && s[j] != 'P' && s[j] != 'S' && s[j] != 'T' && s[j] != 'V' && s[j] != 'h' && s[j] != 'w' && (j < 16 ==> !IsDigit(s[j]))
    {
      assert j == 0 || j == 1 || j == 2 || j == 3 || j == 4 || j == 5 || j == 6 || j == 7 || j == 8 ||
        j == 9 || j == 10 || j == 11 || j == 12 || j == 13 || j == 14 || j == 15;
    }
  }

  /** "Calumet District" lower-cased, and letters it lacks. */
  lemma DistrictLineLowered()
    ensures Lower(DistrictLine) == "calumet district"
    ensures var s := "calumet district"; 'b' !in s && 'f' !in s && 'g' !in s && 'n' !in s && '-' !in s
  {
    var s := "calumet district";
    forall j | 0 <= j < |s|
      ensures s[j] != 'b' && s[j] != 'f' && s[j] != 'g' && s[j] != 'n' && s[j] != '-'
    {
      assert j == 0 || j == 1 || j == 2 || j == 3 || j == 4 || j == 5 || j == 6 || j == 7 || j == 8 ||
        j == 9 || j == 10 || j == 11 || j == 12 || j == 13 || j == 14 || j == 15;
    }
  }

  /** "Troop 123" has no 'h' and no digit before "123". */
  lemma UnitLineLetters()
    ensures UnitLine == "Troop " + "123"
    ensures var s := UnitLine; 'h' !in s
    ensures forall j :: 0 <= j < 6 ==> !IsDigit(UnitLine[j])
  {
    var s := UnitLine;
    forall j | 0 <= j < |s|
      ensures s[j] != 'h' && (j < 6 ==> !IsDigit(s[j]))
    {
      assert j == 0 || j == 1 || j == 2 || j == 3 || j == 4 || j == 5 || j == 6 || j == 7 || j == 8;
    }
  }

  /** "Troop 123" lower-cased lacks 'g', 'i' and 'm'. */
  lemma UnitLineLowered()
    ensures Lower(UnitLine) == "troop 123"
    ensures var s := "troop 123"; 'g' !in s && 'i' !in s && 'm' !in s
  {
    var s := "troop 123";
    forall j | 0 <= j < |s|
      ensures s[j] != 'g' && s[j] != 'i' && s[j] != 'm'
    {
      assert j == 0 || j == 1 || j == 2 || j == 3 || j == 4 || j == 5 || j == 6 || j == 7 || j == 8;
    }
  }

  /** "5 Youth Renewal" lacks these capitals. */
  lemma ItemLineLetters()
    ensures ItemLine == "5" + " Youth Renewal"
    ensures var s := ItemLine; 'C' !in s && 'E' !in s && 'P' !in s && 'S' !in s && 'T' !in s && 'V' !in s
  {
    var s := ItemLine;
    forall j | 0 <= j < |s|
      ensures s[j] != 'C' && s[j] != 'E' && s[j] != 'P' && s[j] != 'S' && s[j] != 'T' && s[j] != 'V'
    {
      assert j == 0 || j == 1 || j == 2 || j == 3 || j == 4 || j == 5 || j == 6 || j == 7 || j == 8 ||
        j == 9 || j == 10 || j == 11 || j == 12 || j == 13 || j == 14;
    }
  }

  /** "5 Youth Renewal" lower-cased lacks 'g', 'i' and 'm'. */
  lemma ItemLineLowered()
    ensures Lower(ItemLine) == "5 youth renewal"
    ensures var s := "5 youth renewal"; 'g' !in s && 'i' !in s && 'm' !in s
  {
    var s := "5 youth renewal";
    forall j | 0 <= j < |s|
      ensures s[j] != 'g' && s[j] != 'i' && s[j] != 'm'
    {
      assert j == 0 || j == 1 || j == 2 || j == 3 || j == 4 || j == 5 || j == 6 || j == 7 || j == 8 ||
        j == 9 || j == 10 || j == 11 || j == 12 || j == 13 || j == 14;
    }
  }

  /** "Charter Renewal 2" lacks these capitals and has no digit before "2". */
  lemma RenewalLineLetters()
    ensures RenewalLine == "Charter Renewal " + "2"
    ensures var s := RenewalLine; 'E' !in s && 'P' !in s && 'S' !in s && 'T' !in s && 'V' !in s
    ensures forall j :: 0 <= j < 16 ==> !IsDigit(RenewalLine[j])
  {
    var s := RenewalLine;
    forall j | 0 <= j < |s|
      ensures s[j] != 'E' && s[j] != 'P' && s[j] != 'S' && s[j] != 'T' && s[j] != 'V' && (j < 16 ==> !IsDigit(s[j]))
    {
      assert j == 0 || j == 1 || j == 2 || j == 3 || j == 4 || j == 5 || j == 6 || j == 7 || j == 8 ||
        j == 9 || j == 10 || j == 11 || j == 12 || j == 13 || j == 14 || j == 15 || j == 16;
    }
  }

  /** "Charter Renewal 2" lower-cased lacks 'g', 'i' and 'm'. */
  lemma RenewalLineLowered()
    ensures Lower(RenewalLine) == "charter renewal 2"
    ensures var s := "charter renewal 2"; 'g' !in s && 'i' !in s && 'm' !in s
  {
    var s := "charter renewal 2";
    forall j | 0 <= j < |s|
      ensures s[j] != 'g' && s[j] != 'i' && s[j] != 'm'
    {
      assert j == 0 || j == 1 || j == 2 || j == 3 || j == 4 || j == 5 || j == 6 || j == 7 || j == 8 ||
        j == 9 || j == 10 || j == 11 || j == 12 || j == 13 || j == 14 || j == 15 || j == 16;
    }
  }

  // ---------------------------------------------------------------------------
  // The facts of each line
  // ---------------------------------------------------------------------------

  /** "Calumet District" names Calumet, district 1. */
  lemma DistrictLineName()
    ensures LineDistrict(DistrictLine) == Some(District("Calumet", 1))
  {
    DistrictLineLowered();
    assert OccursAt(Lower(DistrictLine), "calumet", 0);
    OnlyCalumet(DistrictLine);
  }

  /** "Calumet District" yields no unit, renewal, program or item fact. */
  lemma DistrictLineNoOther()
    ensures UnitFact(DistrictLine).None? && RenewalFact(DistrictLine).None?
    ensures ProgramFact(DistrictLine).None? && PriceItem(DistrictLine).None?
  {
    var line := DistrictLine;
    DistrictLineLetters();
    NotContainsByChar(line, "Crew", 3);
    NoProgramLackingCapitals(line);
    NoRenewalLackingH(line);
    assert line + "" == line;
    NoItemDigitsAtEnd(line, "");
  }

  /** "Calumet District" names Calumet (district 1) and yields no other fact. */
  lemma DistrictLineFacts()
    ensures Strip(DistrictLine) == DistrictLine
    ensures LineDistrict(DistrictLine) == Some(District("Calumet", 1))
    ensures UnitFact(DistrictLine).None? && RenewalFact(DistrictLine).None?
    ensures ProgramFact(DistrictLine).None? && PriceItem(DistrictLine).None?
  {
    StripNoop(DistrictLine);
    DistrictLineName();
    DistrictLineNoOther();
  }

  /** "Troop 123" gives unit number "123" and program Scouts BSA. */
  lemma UnitLineUnit()
    ensures UnitFact(UnitLine) == Some("123") && ProgramFact(UnitLine) == Some("Scouts BSA")
  {
    UnitLineLetters();
    TroopUnit("123");
    assert OccursAt(UnitLine, "Troop", 0);
  }

  /** "Troop 123" yields no district, renewal or item fact. */
  lemma UnitLineNoOther()
    ensures LineDistrict(UnitLine).None? && RenewalFact(UnitLine).None? && PriceItem(UnitLine).None?
  {
    UnitLineLetters();
    UnitLineLowered();
    NoDistrictLackingGIM(UnitLine);
    NoRenewalLackingH(UnitLine);
    NoItemDigitsAtEnd("Troop ", "123");
  }

  /** "Troop 123" gives unit number "123" and program Scouts BSA, and nothing else. */
  lemma UnitLineFacts()
    ensures Strip(UnitLine) == UnitLine
    ensures LineDistrict(UnitLine).None? && UnitFact(UnitLine) == Some("123")
    ensures RenewalFact(UnitLine).None? && ProgramFact(UnitLine) == Some("Scouts BSA")
    ensures PriceItem(UnitLine).None?
  {
    StripNoop(UnitLine);
    UnitLineUnit();
    UnitLineNoOther();
  }

  /** "5 Youth Renewal" yields no district, unit, renewal or program fact. */
  lemma ItemLineNoOther()
    ensures LineDistrict(ItemLine).None? && UnitFact(ItemLine).None?
    ensures RenewalFact(ItemLine).None? && ProgramFact(ItemLine).None?
  {
    ItemLineLetters();
    ItemLineLowered();
    NoDistrictLackingGIM(ItemLine);
    NotContainsByChar(ItemLine, "Crew", 0);
    NoProgramLackingCapitals(ItemLine);
    YouthRenewalNotRenewal("5");
  }

  /** "5 Youth Renewal" is a priced item of 5 youth registrations and yields no other fact. */
  lemma ItemLineFacts()
    ensures Strip(ItemLine) == ItemLine
    ensures LineDistrict(ItemLine).None? && UnitFact(ItemLine).None?
    ensures RenewalFact(ItemLine).None? && ProgramFact(ItemLine).None?
    ensures PriceItem(ItemLine) == Some((YouthRegistration, 5))
  {
    StripNoop(ItemLine);
    ItemLineNoOther();
    ItemLineLetters();
    YouthRenewalLine("5");
    assert DigitsValue("5") == 5;
  }

  /** "Charter Renewal 2" renews 2 charters. */
  lemma RenewalLineQuantity()
    ensures RenewalFact(RenewalLine) == Some(2)
  {
    RenewalLineLetters();
    CharterRenewalQuantity("2");
    assert DigitsValue("2") == 2;
  }

  /** "Charter Renewal 2" yields no district, unit, program or item fact. */
  lemma RenewalLineNoOther()
    ensures LineDistrict(RenewalLine).None? && UnitFact(RenewalLine).None?
    ensures ProgramFact(RenewalLine).None? && PriceItem(RenewalLine).None?
  {
    RenewalLineLetters();
    RenewalLineLowered();
    NoDistrictLackingGIM(RenewalLine);
    NoCrewInRenewalLine();
    NoProgramLackingCapitals(RenewalLine);
    NoItemDigitsAtEnd("Charter Renewal ", "2");
  }

  /** "Charter Renewal 2" renews 2 charters and yields no other fact. */
  lemma RenewalLineFacts()
    ensures Strip(RenewalLine) == RenewalLine
    ensures LineDistrict(RenewalLine).None? && UnitFact(RenewalLine).None?
    ensures RenewalFact(RenewalLine) == Some(2) && ProgramFact(RenewalLine).None?
    ensures PriceItem(RenewalLine).None?
  {
    assert Strip(RenewalLine) == RenewalLine by {
      StripNoop(RenewalLine);
    }
    RenewalLineQuantity();
    RenewalLineNoOther();
  }

  // ---------------------------------------------------------------------------
  // The whole receipt
  // ---------------------------------------------------------------------------

  /** A step over the district line records Calumet, number 1, and changes nothing else. */
  lemma DistrictLineStep(st: Scan)
    requires st.prices.Keys == PriceKeys
    ensures Step(st, DistrictLine) == st.(districtName := Some("Calumet"), districtNumber := Some(1))
  {
    DistrictLineFacts();
  }

  /** A step over the unit line records unit 123 and Scouts BSA, and changes nothing else. */
  lemma UnitLineStep(st: Scan)
    requires st.prices.Keys == PriceKeys
    ensures Step(st, UnitLine) == st.(localUnitNumber := Some("123"), program := Some("Scouts BSA"))
  {
    UnitLineFacts();
  }

  /** A step over the item line adds 5 to the youth-registration counter and changes nothing else. */
  lemma ItemLineStep(st: Scan)
    requires st.prices.Keys == PriceKeys
    ensures Step(st, ItemLine) == st.(prices := st.prices[YouthRegistration := st.prices[YouthRegistration] + 5])
  {
    ItemLineFacts();
    ItemUpdate(st, YouthRegistration, 5);
  }

  /** A step over the renewal line adds 2 to the charter-renewal counter and records 2 renewals. */
  lemma RenewalLineStep(st: Scan)
    requires st.prices.Keys == PriceKeys
    ensures Step(st, RenewalLine)
            == st.(prices := st.prices[CharterRenewal := st.prices[CharterRenewal] + 2], charterRenewal := Some(2))
  {
    RenewalLineFacts();
    RenewalUpdate(st, 2);
  }

  /** The state after each prefix of the receipt. */
  const AfterDistrict: Scan := Initial.(districtName := Some("Calumet"), districtNumber := Some(1))
  const AfterUnit: Scan := AfterDistrict.(localUnitNumber := Some("123"), program := Some("Scouts BSA"))
  const AfterItem: Scan := AfterUnit.(prices := InitialPrices[YouthRegistration := 5])

  /** The district line, from the initial state. */
  lemma FoldDistrictLine()
    ensures Fold([DistrictLine]) == AfterDistrict
  {
    FoldOne(DistrictLine);
    DistrictLineStep(Initial);
  }

  /** The unit line after the district line. */
  lemma FoldUnitLine()
    ensures Fold([DistrictLine, UnitLine]) == AfterUnit
  {
    FoldTwo(DistrictLine, UnitLine);
    FoldDistrictLine();
    UnitLineStep(AfterDistrict);
  }

  /** The item line after the unit line: 5 youth registrations on a zero counter. */
  lemma FoldItemLine()
    ensures Fold([DistrictLine, UnitLine, ItemLine]) == AfterItem
  {
    FoldThree(DistrictLine, UnitLine, ItemLine);
    FoldUnitLine();
    InitialCounts();
    ItemLineStep(AfterUnit);
  }

  /**
   * The receipt "Calumet District", "Troop 123", "5 Youth Renewal",
   * "Charter Renewal 2" gives district Calumet (number 1), unit 123, program
   * Scouts BSA, 5 youth registrations and 2 charter renewals, the last also
   * recorded as the charter-renewal field.
   */
  lemma ExtractScenario()
    ensures var st := Fold([DistrictLine, UnitLine, ItemLine, RenewalLine]);
            && st.districtName == Some("Calumet") && st.districtNumber == Some(1)
            && st.localUnitNumber == Some("123") && st.program == Some("Scouts BSA")
            && YouthRegistration in st.prices && st.prices[YouthRegistration] == 5
            && CharterRenewal in st.prices && st.prices[CharterRenewal] == 2
            && st.charterRenewal == Some(2)
  {
    FoldRenewalLine();
    InitialCounts();
    assert |YouthRegistration| != |CharterRenewal|;
  }

  /** The renewal line after the item line: 2 more charter renewals, and the renewal field set. */
  lemma FoldRenewalLine()
    ensures Fold([DistrictLine, UnitLine, ItemLine, RenewalLine])
            == AfterItem.(prices := AfterItem.prices[CharterRenewal := AfterItem.prices[CharterRenewal] + 2],
                          charterRenewal := Some(2))
  {
    FoldFour(DistrictLine, UnitLine, ItemLine, RenewalLine);
    FoldItemLine();
    RenewalLineStep(AfterItem);
  }

  /** The two counters the scenario touches start at zero. */
  lemma InitialCounts()
    ensures YouthRegistration in InitialPrices && InitialPrices[YouthRegistration] == 0
    ensures CharterRenewal in InitialPrices && InitialPrices[CharterRenewal] == 0
  {
    CountedKeysArePriceKeys();
  }

  // Folding a short list of lines: the last line is stepped over after the rest.

  lemma FoldOne(a: string)
    ensures Fold([a]) == Step(Initial, a)
  {
    assert [a][..0] == [];
  }

  lemma FoldTwo(a: string, b: string)
    ensures Fold([a, b]) == Step(Fold([a]), b)
  {
    assert [a, b][..1] == [a];
  }

  lemma FoldThree(a: string, b: string, c: string)
    ensures Fold([a, b, c]) == Step(Fold([a, b]), c)
  {
    assert [a, b, c][..2] == [a, b];
  }

  lemma FoldFour(a: string, b: string, c: string, d: string)
    ensures Fold([a, b, c, d]) == Step(Fold([a, b, c]), d)
  {
    assert [a, b, c, d][..3] == [a, b, c];
  }
}
