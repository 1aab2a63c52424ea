/**
 * The record the receipt extractor builds from the OCR lines: a fixed
 * council, term and first-of-month effective date, the scalar fields the
 * last matching line writes, the eleven fee counters every matching line
 * adds to, and the expiration date derived from the effective date.
 *
 * `Fold` is the specification of the per-line loop; `ExtractReceipt` is the
 * loop itself, proved to compute `Extract`.
 */
module Receipt {
  import opened Wrappers
  import opened Text
  import opened Dates
  import opened Classifier

  /** The fields of `data` the per-line loop writes, with the `prices` counters. */
  datatype Scan = Scan(
    districtName: Option<string>,
    districtNumber: Option<int>,
    localUnitNumber: Option<string>,
    program: Option<string>,
    charterRenewal: Option<int>,
    prices: map<string, int>)

  /** `{field: 0 for field in price_fields.keys()}`. */
  const InitialPrices: map<string, int> := map k | k in PriceKeys :: 0

  const Initial: Scan := Scan(None, None, None, None, None, InitialPrices)

  /** `prices[key] += n`. */
  function AddTo(prices: map<string, int>, key: string, n: int): (r: map<string, int>)
    requires key in prices
    ensures r.Keys == prices.Keys
  {
    prices[key := prices[key] + n]
  }

  /** District rule: a district fact overwrites name and number together. */
  function ApplyDistrict(st: Scan, fact: Option<District>): (r: Scan)
    ensures r.prices == st.prices
  {
    match fact
    case None => st
    case Some(d) => st.(districtName := Some(d.name), districtNumber := Some(d.number))
  }

  /** Unit rule: a unit fact overwrites the unit number. */
  function ApplyUnit(st: Scan, fact: Option<string>): (r: Scan)
    ensures r.prices == st.prices
  {
    match fact
    case None => st
    case Some(u) => st.(localUnitNumber := Some(u))
  }

  /** Renewal rule: the quantity is added to its counter and also overwrites `charter_renewal`. */
  function ApplyRenewal(st: Scan, fact: Option<nat>): (r: Scan)
    requires st.prices.Keys == PriceKeys
    ensures r.prices.Keys == PriceKeys
  {
    match fact
    case None => st
    case Some(q) =>
      CountedKeysArePriceKeys();
      st.(prices := AddTo(st.prices, CharterRenewal, q), charterRenewal := Some(q))
  }

  /** Program rule: a program fact overwrites the program. */
  function ApplyProgram(st: Scan, fact: Option<string>): (r: Scan)
    ensures r.prices == st.prices
  {
    match fact
    case None => st
    case Some(p) => st.(program := Some(p))
  }

  /** Priced-item rule: the count is added to the item's category. */
  function ApplyItem(st: Scan, fact: Option<(string, nat)>): (r: Scan)
    requires st.prices.Keys == PriceKeys
    requires fact.Some? ==> fact.value.0 in ItemKeys
    ensures r.prices.Keys == PriceKeys
  {
    match fact
    case None => st
    case Some((category, count)) =>
      CountedKeysArePriceKeys();
      st.(prices := AddTo(st.prices, category, count))
  }

  /** One pass of the loop body on a raw OCR line: strip it, then apply the five rules in order. */
  function Step(st: Scan, raw: string): (r: Scan)
    requires st.prices.Keys == PriceKeys
    ensures r.prices.Keys == PriceKeys
  {
    var line := Strip(raw);
    var s1 := ApplyDistrict(st, LineDistrict(line));
    var s2 := ApplyUnit(s1, UnitFact(line));
    var s3 := ApplyRenewal(s2, RenewalFact(line));
    var s4 := ApplyProgram(s3, ProgramFact(line));
    ApplyItem(s4, PriceItem(line))
  }

  /** The state after the loop has run over `lines` in order. */
  function Fold(lines: seq<string>): (st: Scan)
    ensures st.prices.Keys == PriceKeys
  {
    if lines == [] then Initial
    else Step(Fold(lines[..|lines| - 1]), lines[|lines| - 1])
  }

  /** The renewal rule as an in-place update of its counter and field. */
  lemma RenewalUpdate(st: Scan, q: nat)
    requires st.prices.Keys == PriceKeys
    ensures ApplyRenewal(st, Some(q))
            == st.(prices := st.prices[CharterRenewal := st.prices[CharterRenewal] + q], charterRenewal := Some(q))
  {
  }

  /** The priced-item rule as an in-place update of one counter. */
  lemma ItemUpdate(st: Scan, category: string, count: nat)
    requires st.prices.Keys == PriceKeys
    requires category in ItemKeys
    ensures ApplyItem(st, Some((category, count))) == st.(prices := st.prices[category := st.prices[category] + count])
  {
  }

  /** Running the loop over one more line is one more step. */
  lemma FoldSnoc(lines: seq<string>, i: int)
    requires 0 <= i < |lines|
    ensures Fold(lines[..i + 1]) == Step(Fold(lines[..i]), lines[i])
  {
    assert lines[..i + 1][..i] == lines[..i];
  }

  // ---------------------------------------------------------------------------
  // Last write wins
  // ---------------------------------------------------------------------------

  /** The last present fact of a sequence of per-line facts. */
  function LastSome<T>(xs: seq<Option<T>>): (r: Option<T>)
  {
    if xs == [] then None
    else if xs[|xs| - 1].Some? then xs[|xs| - 1]
    else LastSome(xs[..|xs| - 1])
  }

  /** The last present fact is the one at the last index that has a fact; none if no index has one. */
  lemma {:induction false} LastSomeSpec<T>(xs: seq<Option<T>>)
    ensures LastSome(xs).None? <==> forall i :: 0 <= i < |xs| ==> xs[i].None?
    ensures LastSome(xs).Some? ==>
              exists k :: 0 <= k < |xs| && xs[k] == LastSome(xs) && forall j :: k < j < |xs| ==> xs[j].None?
  {
    if xs != [] && xs[|xs| - 1].None? {
      var front := xs[..|xs| - 1];
      LastSomeSpec(front);
      if LastSome(front).Some? {
        var k :| 0 <= k < |front| && front[k] == LastSome(front) && forall j :: k < j < |front| ==> front[j].None?;
        assert xs[k] == front[k];
      }
    }
  }

  function DistrictFacts(lines: seq<string>): (r: seq<Option<District>>)
    ensures |r| == |lines|
  {
    seq(|lines|, i requires 0 <= i < |lines| => LineDistrict(Strip(lines[i])))
  }

  function UnitFacts(lines: seq<string>): (r: seq<Option<string>>)
    ensures |r| == |lines|
  {
    seq(|lines|, i requires 0 <= i < |lines| => UnitFact(Strip(lines[i])))
  }

  function RenewalFacts(lines: seq<string>): (r: seq<Option<nat>>)
    ensures |r| == |lines|
  {
    seq(|lines|, i requires 0 <= i < |lines| => RenewalFact(Strip(lines[i])))
  }

  function ProgramFacts(lines: seq<string>): (r: seq<Option<string>>)
    ensures |r| == |lines|
  {
    seq(|lines|, i requires 0 <= i < |lines| => ProgramFact(Strip(lines[i])))
  }

  /** The district pair is the district fact of the last line that has one, written as a pair. */
  lemma {:induction false} FoldDistrict(lines: seq<string>)
    ensures Fold(lines).districtName == (match LastSome(DistrictFacts(lines)) case None => None case Some(d) => Some(d.name))
    ensures Fold(lines).districtNumber == (match LastSome(DistrictFacts(lines)) case None => None case Some(d) => Some(d.number))
  {
    if lines != [] {
      var front := lines[..|lines| - 1];
      FoldDistrict(front);
      assert DistrictFacts(lines)[..|lines| - 1] == DistrictFacts(front);
      StepFields(Fold(front), lines[|lines| - 1]);
    }
  }

  /** The unit number is the unit fact of the last line that has one. */
  lemma {:induction false} FoldUnit(lines: seq<string>)
    ensures Fold(lines).localUnitNumber == LastSome(UnitFacts(lines))
  {
    if lines != [] {
      var front := lines[..|lines| - 1];
      FoldUnit(front);
      assert UnitFacts(lines)[..|lines| - 1] == UnitFacts(front);
      StepFields(Fold(front), lines[|lines| - 1]);
    }
  }

  /** `charter_renewal` is the renewal quantity of the last renewal line; absent if there is none. */
  lemma {:induction false} FoldCharterRenewal(lines: seq<string>)
    ensures Fold(lines).charterRenewal == (match LastSome(RenewalFacts(lines)) case None => None case Some(q) => Some(q as int))
  {
    if lines != [] {
      var front := lines[..|lines| - 1];
      FoldCharterRenewal(front);
      assert RenewalFacts(lines)[..|lines| - 1] == RenewalFacts(front);
      StepFields(Fold(front), lines[|lines| - 1]);
    }
  }

  /** What one step does to each scalar field: its rule's fact, if any, overwrites it. */
  lemma StepFields(st: Scan, raw: string)
    requires st.prices.Keys == PriceKeys
    ensures var line := Strip(raw);
            && Step(st, raw).districtName
               == (match LineDistrict(line) case None => st.districtName case Some(d) => Some(d.name))
            && Step(st, raw).districtNumber
               == (match LineDistrict(line) case None => st.districtNumber case Some(d) => Some(d.number))
            && Step(st, raw).localUnitNumber
               == (match UnitFact(line) case None => st.localUnitNumber case Some(u) => Some(u))
            && Step(st, raw).charterRenewal
               == (match RenewalFact(line) case None => st.charterRenewal case Some(q) => Some(q as int))
            && Step(st, raw).program
               == (match ProgramFact(line) case None => st.program case Some(p) => Some(p))
  {
  }

  /** The program is the program fact of the last line that has one. */
  lemma {:induction false} FoldProgram(lines: seq<string>)
    ensures Fold(lines).program == LastSome(ProgramFacts(lines))
  {
    if lines != [] {
      var front := lines[..|lines| - 1];
      FoldProgram(front);
      assert ProgramFacts(lines)[..|lines| - 1] == ProgramFacts(front);
      StepFields(Fold(front), lines[|lines| - 1]);
    }
  }

  /**
   * District name and number are set together or not at all, and always as
   * one entry of the district table.
   */
  lemma DistrictPaired(lines: seq<string>)
    ensures Fold(lines).districtName.Some? <==> Fold(lines).districtNumber.Some?
    ensures Fold(lines).districtName.Some? ==>
              District(Fold(lines).districtName.value, Fold(lines).districtNumber.value) in DistrictTable
  {
    FoldDistrict(lines);
    var facts := DistrictFacts(lines);
    LastSomeSpec(facts);
    if LastSome(facts).Some? {
      var k :| 0 <= k < |facts| && facts[k] == LastSome(facts) && forall j :: k < j < |facts| ==> facts[j].None?;
      LastDistrictInSpec(Strip(lines[k]), DistrictTable);
    }
  }

  /** Appending a line with a district fact makes its district the record's, whatever came before. */
  lemma LaterDistrictLineWins(lines: seq<string>, raw: string)
    requires LineDistrict(Strip(raw)).Some?
    ensures Fold(lines + [raw]).districtName == Some(LineDistrict(Strip(raw)).value.name)
    ensures Fold(lines + [raw]).districtNumber == Some(LineDistrict(Strip(raw)).value.number)
  {
    assert (lines + [raw])[..|lines|] == lines;
    StepFields(Fold(lines), raw);
  }

  // ---------------------------------------------------------------------------
  // Additive counters
  // ---------------------------------------------------------------------------

  /** What one raw line adds to the counter `key`. */
  function Amount(raw: string, key: string): (n: nat)
  {
    var line := Strip(raw);
    var renewal := if key == CharterRenewal && RenewalFact(line).Some? then RenewalFact(line).value else 0;
    var item := match PriceItem(line) case Some((category, count)) => if category == key then count else 0 case None => 0;
    renewal + item
  }

  /** The sum of what the lines add to the counter `key`. */
  function Total(lines: seq<string>, key: string): (n: nat)
  {
    if lines == [] then 0 else Total(lines[..|lines| - 1], key) + Amount(lines[|lines| - 1], key)
  }

  /** Each counter is the sum over all lines of what each line adds to it: counts add, never overwrite. */
  lemma {:induction false} FoldPrices(lines: seq<string>)
    ensures forall key :: key in PriceKeys ==> Fold(lines).prices[key] == Total(lines, key)
  {
    if lines != [] {
      FoldPrices(lines[..|lines| - 1]);
      StepPrices(Fold(lines[..|lines| - 1]), lines[|lines| - 1]);
    }
  }

  lemma StepPrices(st: Scan, raw: string)
    requires st.prices.Keys == PriceKeys
    ensures forall key :: key in PriceKeys ==> Step(st, raw).prices[key] == st.prices[key] + Amount(raw, key)
  {
  }

  /** A line adds nothing to a counter outside the five counted categories. */
  lemma AmountOutsideCounted(raw: string, key: string)
    requires key !in CountedKeys
    ensures Amount(raw, key) == 0
  {
  }

  lemma {:induction false} TotalOutsideCounted(lines: seq<string>, key: string)
    requires key !in CountedKeys
    ensures Total(lines, key) == 0
  {
    if lines != [] {
      TotalOutsideCounted(lines[..|lines| - 1], key);
      AmountOutsideCounted(lines[|lines| - 1], key);
    }
  }

  /**
   * After any lines, all eleven counters are present and non-negative, and
   * only the five counted categories can be nonzero.
   */
  lemma PricesWellFormed(lines: seq<string>)
    ensures Fold(lines).prices.Keys == PriceKeys
    ensures forall key :: key in PriceKeys ==> Fold(lines).prices[key] >= 0
    ensures forall key :: key in PriceKeys && key !in CountedKeys ==> Fold(lines).prices[key] == 0
  {
    FoldPrices(lines);
    forall key | key in PriceKeys && key !in CountedKeys
      ensures Fold(lines).prices[key] == 0
    {
      TotalOutsideCounted(lines, key);
    }
  }

  /** The sum of the digit strings' values. */
  function SumOfValues(counts: seq<string>): (n: nat)
    requires forall i :: 0 <= i < |counts| ==> AllDigits(counts[i])
  {
    if counts == [] then 0 else SumOfValues(counts[..|counts| - 1]) + DigitsValue(counts[|counts| - 1])
  }

  /** Lines "k1 Youth Renewal", ..., "kN Youth Renewal" count k1 + ... + kN youth registrations. */
  lemma {:induction false} YouthRenewalSum(counts: seq<string>)
    requires forall i :: 0 <= i < |counts| ==> counts[i] != [] && AllDigits(counts[i])
    ensures Fold(seq(|counts|, i requires 0 <= i < |counts| => counts[i] + " Youth Renewal")).prices[YouthRegistration]
            == SumOfValues(counts)
  {
    var lines := seq(|counts|, i requires 0 <= i < |counts| => counts[i] + " Youth Renewal");
    FoldPrices(lines);
    assert YouthRegistration in PriceKeys;
    TotalYouthRenewal(counts);
  }

  lemma {:induction false} TotalYouthRenewal(counts: seq<string>)
    requires forall i :: 0 <= i < |counts| ==> counts[i] != [] && AllDigits(counts[i])
    ensures Total(seq(|counts|, i requires 0 <= i < |counts| => counts[i] + " Youth Renewal"), YouthRegistration)
            == SumOfValues(counts)
  {
    var lines := seq(|counts|, i requires 0 <= i < |counts| => counts[i] + " Youth Renewal");
    if counts != [] {
      var n := |counts| - 1;
      var front := counts[..n];
      TotalYouthRenewal(front);
      assert lines[..n] == seq(|front|, i requires 0 <= i < |front| => front[i] + " Youth Renewal");
      AmountYouthRenewal(counts[n]);
    }
  }

  /** A "<digits> Youth Renewal" line adds its count to Youth Registration. */
  lemma AmountYouthRenewal(ds: string)
    requires ds != [] && AllDigits(ds)
    ensures Amount(ds + " Youth Renewal", YouthRegistration) == DigitsValue(ds)
  {
    var line := ds + " Youth Renewal";
    assert Strip(line) == line by {
      StripNoop(line);
    }
    YouthRenewalLine(ds);
    YouthRenewalNotRenewal(ds);
  }

  /** `prices["Charter Renewal"]` sums every renewal line while `charter_renewal` keeps only the last. */
  lemma {:induction false} CharterRenewalTotal(lines: seq<string>)
    ensures Fold(lines).prices[CharterRenewal] == SumOfSome(RenewalFacts(lines))
  {
    FoldPrices(lines);
    assert CharterRenewal in PriceKeys;
    TotalCharterRenewal(lines);
  }

  function SumOfSome(xs: seq<Option<nat>>): (n: nat)
  {
    if xs == [] then 0
    else SumOfSome(xs[..|xs| - 1]) + (match xs[|xs| - 1] case Some(q) => q case None => 0)
  }

  lemma {:induction false} TotalCharterRenewal(lines: seq<string>)
    ensures Total(lines, CharterRenewal) == SumOfSome(RenewalFacts(lines))
  {
    if lines != [] {
      var front := lines[..|lines| - 1];
      TotalCharterRenewal(front);
      assert RenewalFacts(lines)[..|lines| - 1] == RenewalFacts(front);
      AmountCharterRenewal(lines[|lines| - 1]);
    }
  }

  /** A line adds its renewal quantity to "Charter Renewal" and nothing else. */
  lemma AmountCharterRenewal(raw: string)
    ensures Amount(raw, CharterRenewal) == (match RenewalFact(Strip(raw)) case Some(q) => q case None => 0)
  {
    assert CharterRenewal !in ItemKeys;
  }

  // ---------------------------------------------------------------------------
  // The record
  // ---------------------------------------------------------------------------

  /** The JSON record the extractor returns; absent optional keys are `None`. */
  datatype Record = Record(
    councilNumber: string,
    effectiveDate: string,
    term: string,
    districtName: Option<string>,
    districtNumber: Option<int>,
    localUnitNumber: Option<string>,
    program: Option<string>,
    charterRenewal: Option<int>,
    prices: map<string, int>,
    expirationDate: string)

  datatype Failure =
    | DateNotParsed   // `strptime` rejects the effective date
    | DateOverflow    // the effective date plus 365 days passes year 9999

  const CouncilNumber: string := "456"
  const Term: string := "12 months"

  /** `today.strftime("%Y-%m-01")`: the first day of the current month. */
  function EffectiveDate(today: Date): (s: string)
    requires InRange(today)
  {
    FormatIso(Date(today.year, today.month, 1))
  }

  /** What the extractor returns for the OCR lines of a receipt read on `today`. */
  function Extract(lines: seq<string>, today: Date): Result<Record, Failure>
    requires InRange(today)
  {
    var effective := EffectiveDate(today);
    var st := Fold(lines);
    match ParseIso(effective)
    case None => Err(DateNotParsed)
    case Some(start) =>
      match Expiration(start)
      case None => Err(DateOverflow)
      case Some(end) =>
        Ok(Record(CouncilNumber, effective, Term, st.districtName, st.districtNumber,
                  st.localUnitNumber, st.program, st.charterRenewal, st.prices, FormatIso(end)))
  }

  /**
   * Extraction fails only in year 9999, where the expiration date would pass
   * the last representable year. Otherwise the record has the fixed council
   * and term, the first of the month as effective date, an expiration date
   * 364 days later, and the fields the line loop produced; no line changes
   * council, term or effective date.
   */
  lemma ExtractSpec(lines: seq<string>, today: Date)
    requires InRange(today)
    ensures Extract(lines, today).Ok? <==> today.year < MaxYear
    ensures Extract(lines, today).Ok? ==>
              var r := Extract(lines, today).value;
              var start := Date(today.year, today.month, 1);
              && r.councilNumber == "456" && r.term == "12 months"
              && ParseIso(r.effectiveDate) == Some(start)
              && ParseIso(r.expirationDate).Some?
              && Ordinal(ParseIso(r.expirationDate).value) == Ordinal(start) + 364
              && r.districtName == Fold(lines).districtName
              && r.districtNumber == Fold(lines).districtNumber
              && r.localUnitNumber == Fold(lines).localUnitNumber
              && r.program == Fold(lines).program
              && r.charterRenewal == Fold(lines).charterRenewal
              && r.prices == Fold(lines).prices
  {
    var start := Date(today.year, today.month, 1);
    ParseFormatIso(start);
    ExpirationOfFirstOfMonth(today.year, today.month);
    if today.year < MaxYear {
      ParseFormatIso(Expiration(start).value);
    }
  }

  /**
   * The district loop: for each table entry in order, a line naming it
   * (ignoring case) overwrites the district name and number, so the last
   * entry named wins.
   */
  method MatchDistricts(data: Scan, line: string) returns (r: Scan)
    ensures r == ApplyDistrict(data, LineDistrict(line))
  {
    r := data;
    var k := 0;
    while k < |DistrictTable|
      invariant k <= |DistrictTable|
      invariant r == ApplyDistrict(data, LastDistrictIn(line, DistrictTable[..k]))
    {
      var d := DistrictTable[k];
      if NamesDistrict(line, d) {
        r := r.(districtName := Some(d.name), districtNumber := Some(d.number));
      }
      assert DistrictTable[..k + 1][..k] == DistrictTable[..k];
      k := k + 1;
    }
    assert DistrictTable[..k] == DistrictTable;
  }

  /**
   * The body of the line loop: strip the line, then apply the district,
   * unit, renewal, program and priced-item rules in that order, updating the
   * fields and counters in place.
   */
  method ScanLine(data: Scan, raw: string) returns (r: Scan)
    requires data.prices.Keys == PriceKeys
    ensures r == Step(data, raw)
  {
    var line := Strip(raw);
    r := data;
    CountedKeysArePriceKeys();

    // District.
    r := MatchDistricts(r, line);
    ghost var s1 := r;

    // Unit number.
    var unit := UnitFact(line);
    if unit.Some? {
      r := r.(localUnitNumber := unit);
    }
    assert r == ApplyUnit(s1, unit);
    ghost var s2 := r;

    // Charter renewal: added to its counter, and kept as the last quantity seen.
    var quantity := RenewalFact(line);
    if quantity.Some? {
      var q := quantity.value;
      RenewalUpdate(s2, q);
      r := r.(prices := r.prices[CharterRenewal := r.prices[CharterRenewal] + q], charterRenewal := Some(q));
    }
    assert r == ApplyRenewal(s2, quantity);
    ghost var s3 := r;

    // Program.
    var found := ProgramFact(line);
    if found.Some? {
      r := r.(program := found);
    }
    assert r == ApplyProgram(s3, found);
    ghost var s4 := r;

    // Priced line item: the count is added to its category.
    var item := PriceItem(line);
    if item.Some? {
      var (category, count) := item.value;
      ItemUpdate(s4, category, count);
      r := r.(prices := r.prices[category := r.prices[category] + count]);
    }
    assert r == ApplyItem(s4, item);
  }

  /**
   * The extraction loop of `extract_receipt_text_to_json`: walk the lines in
   * order, updating the record's fields and counters, then derive the
   * expiration date.
   */
  method ExtractReceipt(lines: seq<string>, today: Date) returns (r: Result<Record, Failure>)
    requires InRange(today)
    ensures r == Extract(lines, today)
  {
    var effective := FormatIso(Date(today.year, today.month, 1));
    var data := Initial;

    var i := 0;
    while i < |lines|
      invariant i <= |lines|
      invariant data == Fold(lines[..i])
    {
      data := ScanLine(data, lines[i]);
      FoldSnoc(lines, i);
      i := i + 1;
    }
    assert lines[..i] == lines;

    match ParseIso(effective)
    case None =>
      r := Err(DateNotParsed);
    case Some(start) =>
      match Expiration(start)
      case None =>
        r := Err(DateOverflow);
      case Some(end) =>
        r := Ok(Record(CouncilNumber, effective, Term, data.districtName, data.districtNumber,
                       data.localUnitNumber, data.program, data.charterRenewal, data.prices, FormatIso(end)));
  }
}
