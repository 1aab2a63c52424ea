/**
 * The five per-line rules of the receipt extractor. Each looks at one
 * stripped OCR line and yields at most one fact; the extraction loop in
 * module Receipt applies the facts to the record.
 */
module Classifier {
  import opened Wrappers
  import opened Text

  // ---------------------------------------------------------------------------
  // Fee categories (the keys of `price_fields`)
  // ---------------------------------------------------------------------------

  const CharterRenewal: string := "Charter Renewal"
  const YouthRegistration: string := "Youth Registration"
  const YouthSLSubscription: string := "Youth SL Subscription"
  const AdultRegistration: string := "Adult Registration"
  const ProgramFee: string := "Program Fee"
  const YouthTransfer: string := "Youth Transfer"
  const MultiplePositionChange: string := "Multiple/Position Change"
  const AdultTransfer: string := "Adult Transfer"
  const AdultSLSubscription: string := "Adult SL Subscription"
  const YouthExploring: string := "Youth Exploring"
  const AdultExploring: string := "Adult Exploring"

  /** `price_fields`: the eleven fee categories and the route-sheet cell of each. */
  const PriceFields: map<string, string> := map[
    YouthRegistration := "C9",
    CharterRenewal := "C8",
    YouthSLSubscription := "C10",
    YouthTransfer := "C11",
    AdultRegistration := "C12",
    MultiplePositionChange := "C13",
    AdultTransfer := "C14",
    AdultSLSubscription := "C15",
    YouthExploring := "C16",
    AdultExploring := "C17",
    ProgramFee := "C18"
  ]

  /** The keys of `prices`. */
  const PriceKeys: set<string> := PriceFields.Keys

  /** The four categories a priced line item can add to. */
  const ItemKeys: set<string> := {YouthRegistration, YouthSLSubscription, AdultRegistration, ProgramFee}

  /** The five categories some rule adds to; the other six are never touched. */
  const CountedKeys: set<string> := ItemKeys + {CharterRenewal}

  /** Every category a rule adds to is a key of `prices`. */
  lemma CountedKeysArePriceKeys()
    ensures CountedKeys <= PriceKeys
  {
    assert PriceFields[YouthRegistration] == "C9";
    assert PriceFields[CharterRenewal] == "C8";
    assert PriceFields[YouthSLSubscription] == "C10";
    assert PriceFields[AdultRegistration] == "C12";
    assert PriceFields[ProgramFee] == "C18";
  }

  // ---------------------------------------------------------------------------
  // District rule
  // ---------------------------------------------------------------------------

  datatype District = District(name: string, number: int)

  /** `district_map` in its iteration order; fee district numbers 8 and 10 do not exist. */
  const DistrictTable: seq<District> := [
    District("Calumet", 1), District("Aguila", 2), District("Prairie Dunes", 3),
    District("Thunderbird", 4), District("Checaugau", 5), District("Iron Horse", 6),
    District("Tri-Star", 7), District("Five Creeks", 9), District("Tall Grass", 11),
    District("Trailblazer", 12)
  ]

  /** `district.lower() in line.lower()`. */
  predicate NamesDistrict(line: string, d: District)
  {
    Contains(Lower(line), Lower(d.name))
  }

  /** The entry the district loop over `entries` leaves in the record: the last that matches. */
  function LastDistrictIn(line: string, entries: seq<District>): (r: Option<District>)
  {
    if entries == [] then None
    else if NamesDistrict(line, entries[|entries| - 1]) then Some(entries[|entries| - 1])
    else LastDistrictIn(line, entries[..|entries| - 1])
  }

  /** The district fact of a line. */
  function LineDistrict(line: string): Option<District>
  {
    LastDistrictIn(line, DistrictTable)
  }

  /**
   * The district fact is the table entry at the LAST index whose name occurs
   * in the line, ignoring case; there is none exactly when no name occurs.
   */
  lemma {:induction false} LastDistrictInSpec(line: string, entries: seq<District>)
    ensures LastDistrictIn(line, entries).None? <==>
              forall k :: 0 <= k < |entries| ==> !NamesDistrict(line, entries[k])
    ensures LastDistrictIn(line, entries).Some? ==>
              exists k :: 0 <= k < |entries| && entries[k] == LastDistrictIn(line, entries).value
                && NamesDistrict(line, entries[k])
                && forall j :: k < j < |entries| ==> !NamesDistrict(line, entries[j])
    decreases |entries|
  {
    if entries != [] {
      var n := |entries| - 1;
      if NamesDistrict(line, entries[n]) {
        assert LastDistrictIn(line, entries) == Some(entries[n]);
      } else {
        var front := entries[..n];
        LastDistrictInSpec(line, front);
        assert LastDistrictIn(line, entries) == LastDistrictIn(line, front);
        assert forall j :: 0 <= j < n ==> entries[j] == front[j];
        if LastDistrictIn(line, front).Some? {
          var k :| 0 <= k < |front| && front[k] == LastDistrictIn(line, front).value
                   && NamesDistrict(line, front[k])
                   && forall j :: k < j < |front| ==> !NamesDistrict(line, front[j]);
          assert entries[k] == front[k];
        }
      }
    }
  }

  // ---------------------------------------------------------------------------
  // Unit-number rule
  // ---------------------------------------------------------------------------

  /** One of the unit-type keywords occurs in the line, case-sensitively. */
  predicate HasUnitKeyword(line: string)
  {
    Contains(line, "Troop") || Contains(line, "Pack") || Contains(line, "Crew")
    || Contains(line, "Ship") || Contains(line, "Post")
  }

  /** The unit-number fact: the first digit run of a line that names a unit type. */
  function UnitFact(line: string): (r: Option<string>)
    ensures r.Some? <==> HasUnitKeyword(line) && exists i :: 0 <= i < |line| && IsDigit(line[i])
    ensures r.Some? ==> r == FirstDigitRun(line) && r.value != [] && AllDigits(r.value)
  {
    if HasUnitKeyword(line) then FirstDigitRun(line) else None
  }

  /** A "Troop" line such as "Troop 123" gives its digits as the unit number. */
  lemma TroopUnit(ds: string)
    requires ds != [] && AllDigits(ds)
    ensures UnitFact("Troop " + ds) == Some(ds)
  {
    var line := "Troop " + ds;
    assert Contains(line, "Troop") by {
      assert OccursAt(line, "Troop", 0);
    }
    assert FirstDigitRun(line) == Some(ds) by {
      FirstDigitRunAfter("Troop ", ds);
      LeadingDigitsStop(ds, "");
      assert ds + "" == ds;
    }
  }

  // ---------------------------------------------------------------------------
  // Charter-renewal rule
  // ---------------------------------------------------------------------------

  predicate MentionsRenewal(line: string)
  {
    Contains(line, "Charter Renewal") || Contains(line, "Unit Charter")
  }

  /**
   * The renewal quantity of a line: the first digit run, except that on a
   * "Unit Charter" line a reading of exactly 100 is taken to be 1.
   */
  function RenewalFact(line: string): (r: Option<nat>)
  {
    if MentionsRenewal(line) then
      match FirstDigitRun(line)
      case None => None
      case Some(ds) =>
        var quantity := DigitsValue(ds);
        Some(if Contains(line, "Unit Charter") && quantity == 100 then 1 else quantity)
    else None
  }

  /**
   * A renewal fact needs a renewal mention and a digit; its quantity is the
   * first digit run read as a number, and differs from it only for a
   * "Unit Charter" line reading 100, which becomes 1.
   */
  lemma RenewalFactSpec(line: string)
    ensures RenewalFact(line).Some? <==> MentionsRenewal(line) && FirstDigitRun(line).Some?
    ensures RenewalFact(line).Some? ==>
              var read := DigitsValue(FirstDigitRun(line).value);
              (RenewalFact(line).value != read <==> Contains(line, "Unit Charter") && read == 100)
              && (RenewalFact(line).value != read ==> RenewalFact(line).value == 1)
  {
  }

  /** A "Unit Charter" line whose quantity reads 100 (say "Unit Charter 100") renews 1 charter. */
  lemma UnitCharterCorrection(ds: string)
    requires AllDigits(ds) && DigitsValue(ds) == 100
    ensures RenewalFact("Unit Charter " + ds) == Some(1)
  {
    var line := "Unit Charter " + ds;
    assert Contains(line, "Unit Charter") by {
      assert OccursAt(line, "Unit Charter", 0);
    }
    assert FirstDigitRun(line) == Some(ds) by {
      FirstDigitRunAfter("Unit Charter ", ds);
      LeadingDigitsStop(ds, "");
      assert ds + "" == ds;
    }
  }

  /** A "Charter Renewal" line renews the quantity it reads. */
  lemma CharterRenewalQuantity(ds: string)
    requires ds != [] && AllDigits(ds)
    ensures RenewalFact("Charter Renewal " + ds) == Some(DigitsValue(ds))
  {
    var line := "Charter Renewal " + ds;
    assert Contains(line, "Charter Renewal") by {
      assert OccursAt(line, "Charter Renewal", 0);
    }
    assert FirstDigitRun(line) == Some(ds) by {
      FirstDigitRunAfter("Charter Renewal ", ds);
      LeadingDigitsStop(ds, "");
      assert ds + "" == ds;
    }
    NoUnitCharter(ds);
  }

  /** A "Charter Renewal" line reading 100 (say "Charter Renewal 100") keeps 100. */
  lemma CharterRenewalNotCorrected(ds: string)
    requires AllDigits(ds) && DigitsValue(ds) == 100
    ensures RenewalFact("Charter Renewal " + ds) == Some(100)
  {
    CharterRenewalQuantity(ds);
  }

  /** "Charter Renewal" followed by digits never mentions "Unit Charter": it has no 'U'. */
  lemma NoUnitCharter(ds: string)
    requires AllDigits(ds)
    ensures !Contains("Charter Renewal " + ds, "Unit Charter")
  {
    var line := "Charter Renewal " + ds;
    assert 'U' !in "Charter Renewal ";
    assert 'U' !in ds by {
      forall i | 0 <= i < |ds| ensures ds[i] != 'U' {
        assert IsDigit(ds[i]);
      }
    }
    assert 'U' !in line;
    NotContainsByChar(line, "Unit Charter", 0);
  }

  // ---------------------------------------------------------------------------
  // Program rule
  // ---------------------------------------------------------------------------

  /** The five programs, each with the unit-type keyword that also selects it, in cascade order. */
  const ProgramCascade: seq<(string, string)> := [
    ("Scouts BSA", "Troop"), ("Cub Scouts", "Pack"), ("Venturing", "Crew"),
    ("Sea Scouts", "Ship"), ("Exploring", "Post")
  ]

  /** Branch `k` of the cascade fires on this line if nothing earlier did. */
  predicate SelectsProgram(line: string, k: int)
    requires 0 <= k < |ProgramCascade|
  {
    Contains(line, ProgramCascade[k].0) || Contains(line, ProgramCascade[k].1)
  }

  /** The program fact of a line: the first branch of the if/elif cascade that matches. */
  function ProgramFact(line: string): (r: Option<string>)
  {
    if Contains(line, "Scouts BSA") || Contains(line, "Troop") then Some("Scouts BSA")
    else if Contains(line, "Cub Scouts") || Contains(line, "Pack") then Some("Cub Scouts")
    else if Contains(line, "Venturing") || Contains(line, "Crew") then Some("Venturing")
    else if Contains(line, "Sea Scouts") || Contains(line, "Ship") then Some("Sea Scouts")
    else if Contains(line, "Exploring") || Contains(line, "Post") then Some("Exploring")
    else None
  }

  /**
   * The program fact is the program of the FIRST cascade branch whose
   * program name or unit keyword occurs in the line; none when no branch does.
   */
  lemma ProgramFactSpec(line: string)
    ensures ProgramFact(line).None? <==>
              forall k :: 0 <= k < |ProgramCascade| ==> !SelectsProgram(line, k)
    ensures ProgramFact(line).Some? ==>
              exists k :: 0 <= k < |ProgramCascade| && ProgramCascade[k].0 == ProgramFact(line).value
                && SelectsProgram(line, k)
                && forall j :: 0 <= j < k ==> !SelectsProgram(line, j)
  {
    if ProgramFact(line).None? {
      forall k | 0 <= k < |ProgramCascade|
        ensures !SelectsProgram(line, k)
      {
        assert k == 0 || k == 1 || k == 2 || k == 3 || k == 4;
      }
    } else {
      var k :=
        if SelectsProgram(line, 0) then 0 else if SelectsProgram(line, 1) then 1
        else if SelectsProgram(line, 2) then 2 else if SelectsProgram(line, 3) then 3 else 4;
      assert ProgramCascade[k].0 == ProgramFact(line).value && SelectsProgram(line, k);
      forall j | 0 <= j < k
        ensures !SelectsProgram(line, j)
      {
        assert j == 0 || j == 1 || j == 2 || j == 3;
      }
    }
  }

  /** A line that yields a unit number always yields a program too. */
  lemma UnitLineHasProgram(line: string)
    requires UnitFact(line).Some?
    ensures ProgramFact(line).Some?
  {
  }

  // ---------------------------------------------------------------------------
  // Priced-item rule: digits, whitespace, then one of six labels, ignoring case
  // ---------------------------------------------------------------------------

  /** The label alternatives of the pattern, in alternation order. */
  const PriceLabels: seq<string> := [
    "Youth BL", "Youth Renewal", "Adult Renewal", "Adult New", "Youth Program Fee", "Adult Program Fee"
  ]

  /** The same labels lower-cased: matching ignoring case compares against these. */
  const LowerPriceLabels: seq<string> := [
    "youth bl", "youth renewal", "adult renewal", "adult new", "youth program fee", "adult program fee"
  ]

  lemma LowerPriceLabelsAreLowered(k: nat)
    requires k < |PriceLabels|
    ensures |LowerPriceLabels| == |PriceLabels| && Lower(PriceLabels[k]) == LowerPriceLabels[k]
  {
    if k == 0 {
      assert Lower("Youth BL") == "youth bl";
    } else if k == 1 {
      LowerYouthRenewal();
    } else if k == 2 {
      assert Lower("Adult Renewal") == "adult renewal";
    } else if k == 3 {
      assert Lower("Adult New") == "adult new";
    } else if k == 4 {
      assert Lower("Youth Program Fee") == "youth program fee";
    } else {
      assert Lower("Adult Program Fee") == "adult program fee";
    }
  }

  lemma LowerYouthRenewal()
    ensures Lower("Youth Renewal") == "youth renewal"
  {
  }

  /** The alternative `alt` occurs at index `p` of `s`, ignoring case. */
  predicate LabelAt(s: string, p: int, alt: string)
  {
    0 <= p && p + |alt| <= |s| && Lower(s[p..p + |alt|]) == alt
  }

  /** Every alt is non-empty and starts with neither a digit nor whitespace. */
  predicate LabelsStartClean(labels: seq<string>)
  {
    forall k :: 0 <= k < |labels| ==> labels[k] != [] && !IsDigit(labels[k][0]) && !IsSpace(labels[k][0])
  }

  /**
   * The priced-item pattern, with the alternatives `labels`, matches at
   * index `i`: `n` digits, then `w` whitespace characters, then alt `k`.
   */
  ghost predicate PatternAt(s: string, i: int, n: int, w: int, labels: seq<string>, k: int)
  {
    0 <= i && 1 <= n && 1 <= w && i + n + w <= |s|
    && (forall j :: i <= j < i + n ==> IsDigit(s[j]))
    && (forall j :: i + n <= j < i + n + w ==> IsSpace(s[j]))
    && 0 <= k < |labels| && LabelAt(s, i + n + w, labels[k])
  }

  /** Some match of the pattern starts at index `i`. */
  ghost predicate MatchesAt(s: string, i: int, labels: seq<string>)
  {
    exists n, w, k :: PatternAt(s, i, n, w, labels, k)
  }

  lemma LowerPriceLabelsStartClean()
    ensures LabelsStartClean(LowerPriceLabels)
  {
  }

  /** Where a cleanly starting alternative occurs, `s` has neither a digit nor whitespace. */
  lemma LabelStartsClean(s: string, p: int, alt: string)
    requires LabelAt(s, p, alt)
    requires alt != [] && !IsDigit(alt[0]) && !IsSpace(alt[0])
    ensures p < |s| && !IsSpace(s[p]) && !IsDigit(s[p])
  {
    assert Lower(s[p..p + |alt|])[0] == LowerChar(s[p]);
  }

  /** The length of the digit run at index `i`. */
  function DigitCount(s: string, i: nat): (n: nat)
    requires i <= |s|
    ensures i + n <= |s|
  {
    |LeadingDigits(s[i..])|
  }

  /** The length of the whitespace run after the digit run at index `i`. */
  function GapCount(s: string, i: nat): (w: nat)
    requires i <= |s|
    ensures i + DigitCount(s, i) + w <= |s|
  {
    LeadingSpaces(s[i + DigitCount(s, i)..])
  }

  /**
   * At a given index the digit and whitespace counts of a match are forced:
   * the digits are the whole run there, the whitespace all that follows it.
   */
  lemma PatternDetermined(s: string, i: nat, n: int, w: int, labels: seq<string>, k: int)
    requires LabelsStartClean(labels)
    requires PatternAt(s, i, n, w, labels, k)
    ensures n == DigitCount(s, i) && w == GapCount(s, i)
  {
    var t := s[i..];
    assert forall j :: 0 <= j < n ==> IsDigit(t[j]) by {
      forall j | 0 <= j < n ensures IsDigit(t[j]) {
        assert t[j] == s[i + j];
      }
    }
    assert !IsDigit(t[n]) by {
      assert t[n] == s[i + n];
    }
    var ld := LeadingDigits(t);
    assert forall j :: 0 <= j < |ld| ==> ld[j] == t[j];
    assert |ld| == n;
    var u := s[i + n..];
    LabelStartsClean(s, i + n + w, labels[k]);
    assert forall j :: 0 <= j < w ==> IsSpace(u[j]) by {
      forall j | 0 <= j < w ensures IsSpace(u[j]) {
        assert u[j] == s[i + n + j];
      }
    }
    assert !IsSpace(u[w]) by {
      assert u[w] == s[i + n + w];
    }
    assert LeadingSpaces(u) == w;
  }

  /** Without a digit run followed by whitespace at `i`, no match starts there. */
  lemma NoMatchWithoutRuns(s: string, i: nat, labels: seq<string>)
    requires i <= |s| && LabelsStartClean(labels)
    requires DigitCount(s, i) == 0 || GapCount(s, i) == 0
    ensures !MatchesAt(s, i, labels)
  {
    if MatchesAt(s, i, labels) {
      var n, w, k :| PatternAt(s, i, n, w, labels, k);
      PatternDetermined(s, i, n, w, labels, k);
    }
  }

  /** Without a label after the runs at `i`, no match starts there. */
  lemma NoMatchWithoutLabel(s: string, i: nat, labels: seq<string>)
    requires i <= |s| && LabelsStartClean(labels)
    requires forall j :: 0 <= j < |labels| ==> !LabelAt(s, i + DigitCount(s, i) + GapCount(s, i), labels[j])
    ensures !MatchesAt(s, i, labels)
  {
    if MatchesAt(s, i, labels) {
      var n, w, k :| PatternAt(s, i, n, w, labels, k);
      PatternDetermined(s, i, n, w, labels, k);
    }
  }

  /**
   * Non-empty runs at `i` followed by label `k`, and by no earlier label:
   * the pattern occurs there, and every occurrence at `i` has the same runs
   * and a label no earlier than `k`.
   */
  lemma FirstLabelMatches(s: string, i: nat, labels: seq<string>, k: nat)
    requires i <= |s| && LabelsStartClean(labels)
    requires 1 <= DigitCount(s, i) && 1 <= GapCount(s, i) && k < |labels|
    requires LabelAt(s, i + DigitCount(s, i) + GapCount(s, i), labels[k])
    requires forall j :: 0 <= j < k ==> !LabelAt(s, i + DigitCount(s, i) + GapCount(s, i), labels[j])
    ensures PatternAt(s, i, DigitCount(s, i), GapCount(s, i), labels, k)
    ensures forall n', w', k' :: PatternAt(s, i, n', w', labels, k') ==>
              n' == DigitCount(s, i) && w' == GapCount(s, i) && k <= k'
  {
    var n := DigitCount(s, i);
    var w := GapCount(s, i);
    forall j | i <= j < i + n
      ensures IsDigit(s[j])
    {
      assert s[j] == s[i..][j - i];
    }
    forall j | i + n <= j < i + n + w
      ensures IsSpace(s[j])
    {
      assert s[j] == s[i + n..][j - i - n];
    }
    forall n', w', k' | PatternAt(s, i, n', w', labels, k')
      ensures n' == n && w' == w && k <= k'
    {
      PatternDetermined(s, i, n', w', labels, k');
    }
  }

  /** The first of `labels`, from index `k` on, that occurs at `p`. */
  function FirstLabelAt(s: string, p: int, labels: seq<string>, k: nat): (r: Option<nat>)
    requires k <= |labels|
    ensures r.None? <==> forall j :: k <= j < |labels| ==> !LabelAt(s, p, labels[j])
    ensures r.Some? ==> k <= r.value < |labels| && LabelAt(s, p, labels[r.value])
                        && forall j :: k <= j < r.value ==> !LabelAt(s, p, labels[j])
    decreases |labels| - k
  {
    if k == |labels| then None
    else if LabelAt(s, p, labels[k]) then Some(k)
    else FirstLabelAt(s, p, labels, k + 1)
  }

  /**
   * The attempt at index `i`: the whole digit run, all the whitespace after
   * it, then the first label in alternation order. Backtracking cannot help,
   * since a shorter run is followed by a digit and a shorter gap by
   * whitespace, and no label starts with either.
   */
  function MatchAt(s: string, i: nat, labels: seq<string>): (r: Option<(nat, nat, nat)>)
    requires i <= |s|
    requires LabelsStartClean(labels)
    ensures r.None? <==> !MatchesAt(s, i, labels)
    ensures r.Some? ==>
              var (n, w, k) := r.value;
              PatternAt(s, i, n, w, labels, k)
              && forall n', w', k' :: PatternAt(s, i, n', w', labels, k') ==> n' == n && w' == w && k <= k'
  {
    var n := DigitCount(s, i);
    var w := GapCount(s, i);
    if n == 0 || w == 0 then
      NoMatchWithoutRuns(s, i, labels);
      None
    else
      match FirstLabelAt(s, i + n + w, labels, 0)
      case None =>
        NoMatchWithoutLabel(s, i, labels);
        None
      case Some(k) =>
        FirstLabelMatches(s, i, labels, k);
        Some((n, w, k))
  }

  /** `re.search` from index `i` on: the attempt at each index in order; the first that succeeds. */
  function SearchFrom(s: string, i: nat, labels: seq<string>): (r: Option<(nat, nat, nat, nat)>)
    requires i <= |s|
    requires LabelsStartClean(labels)
    ensures r.None? <==> forall j :: i <= j <= |s| ==> !MatchesAt(s, j, labels)
    ensures r.Some? ==>
              var (j, n, w, k) := r.value;
              i <= j <= |s| && MatchAt(s, j, labels) == Some((n, w, k))
              && forall j' :: i <= j' < j ==> !MatchesAt(s, j', labels)
    decreases |s| - i
  {
    match MatchAt(s, i, labels)
    case Some((n, w, k)) => Some((i, n, w, k))
    case None =>
      if i == |s| then None
      else
        var r := SearchFrom(s, i + 1, labels);
        SearchPastMiss(s, i, labels, r);
        r
  }

  /** A failed attempt at `i` leaves the search from `i + 1` as the search from `i`. */
  lemma SearchPastMiss(s: string, i: nat, labels: seq<string>, r: Option<(nat, nat, nat, nat)>)
    requires i < |s| && LabelsStartClean(labels)
    requires !MatchesAt(s, i, labels)
    requires r.None? <==> forall j :: i + 1 <= j <= |s| ==> !MatchesAt(s, j, labels)
    requires r.Some? ==>
               var (j, n, w, k) := r.value;
               i + 1 <= j <= |s| && MatchAt(s, j, labels) == Some((n, w, k))
               && forall j' :: i + 1 <= j' < j ==> !MatchesAt(s, j', labels)
    ensures r.None? <==> forall j :: i <= j <= |s| ==> !MatchesAt(s, j, labels)
    ensures r.Some? ==>
              var (j, n, w, k) := r.value;
              i <= j <= |s| && MatchAt(s, j, labels) == Some((n, w, k))
              && forall j' :: i <= j' < j ==> !MatchesAt(s, j', labels)
  {
  }

  /**
   * `re.search(r"(\d+)\s+(<labels>)", s, re.IGNORECASE)`: group 1 (the
   * digits) and group 2 (the alternative as written in `s`) of the leftmost
   * match.
   */
  function Search(s: string, labels: seq<string>): (r: Option<(string, string)>)
    requires LabelsStartClean(labels)
    ensures r.Some? ==> r.value.0 != [] && AllDigits(r.value.0)
    ensures r.Some? ==> exists k :: 0 <= k < |labels| && Lower(r.value.1) == labels[k]
  {
    var found := SearchFrom(s, 0, labels);
    if found.None? then None
    else
      PatternGroups(s, found.value.0, found.value.1, found.value.2, labels, found.value.3);
      Groups(s, labels, found.value.0, found.value.1, found.value.2, found.value.3)
  }

  /** Group 1 and group 2 of the occurrence with runs `n`, `w` and alternative `k` at `i`. */
  function Groups(s: string, labels: seq<string>, i: nat, n: nat, w: nat, k: nat): Option<(string, string)>
    requires k < |labels| && i + n + w + |labels[k]| <= |s|
  {
    Some((s[i..i + n], s[i + n + w..i + n + w + |labels[k]|]))
  }

  /** The two groups of an occurrence: a non-empty digit run, and text that lower-cases to its alternative. */
  lemma PatternGroups(s: string, i: int, n: int, w: int, labels: seq<string>, k: int)
    requires PatternAt(s, i, n, w, labels, k)
    ensures 0 <= i && i + n + w + |labels[k]| <= |s|
    ensures s[i..i + n] != [] && AllDigits(s[i..i + n])
    ensures Lower(s[i + n + w..i + n + w + |labels[k]|]) == labels[k]
  {
    var digits := s[i..i + n];
    forall j | 0 <= j < |digits|
      ensures IsDigit(digits[j])
    {
      assert digits[j] == s[i + j];
    }
  }

  /**
   * The search finds a match exactly when the pattern occurs somewhere in
   * `s`. It then reports the occurrence at the least index, with the digits
   * (the whole run) and the whitespace (all of it) that any occurrence
   * there has, and the first alternative in order that fits.
   */
  lemma SearchSpec(s: string, labels: seq<string>)
    requires LabelsStartClean(labels)
    ensures Search(s, labels).None? <==> forall i, n, w, k :: !PatternAt(s, i, n, w, labels, k)
    ensures Search(s, labels).Some? ==>
              exists i, n, w, k ::
                && PatternAt(s, i, n, w, labels, k)
                && (forall j :: 0 <= j < i ==> !MatchesAt(s, j, labels))
                && (forall n', w', k' :: PatternAt(s, i, n', w', labels, k') ==> n' == n && w' == w && k <= k')
                && Search(s, labels).value == (s[i..i + n], s[i + n + w..i + n + w + |labels[k]|])
  {
    if Search(s, labels).None? {
      forall i, n, w, k
        ensures !PatternAt(s, i, n, w, labels, k)
      {
        if PatternAt(s, i, n, w, labels, k) {
          assert MatchesAt(s, i, labels);
        }
      }
    } else {
      var (i, n, w, k) := SearchFrom(s, 0, labels).value;
      assert PatternAt(s, i, n, w, labels, k);
    }
  }

  /** An occurrence at index 0 whose label comes first among those that fit there is what the search returns. */
  lemma SearchAtStart(s: string, labels: seq<string>, n: nat, w: nat, k: nat)
    requires LabelsStartClean(labels)
    requires PatternAt(s, 0, n, w, labels, k)
    requires forall j :: 0 <= j < k ==> !LabelAt(s, n + w, labels[j])
    ensures Search(s, labels) == Some((s[0..n], s[n + w..n + w + |labels[k]|]))
  {
    assert MatchAt(s, 0, labels) == Some((n, w, k)) by {
      MatchAtFirstLabel(s, 0, labels, n, w, k);
    }
    assert SearchFrom(s, 0, labels) == Some((0, n, w, k)) by {
      SearchFromHit(s, 0, labels, n, w, k);
    }
    SearchReturns(s, labels, n, w, k);
  }

  /** An attempt that succeeds at `i` is what the search from `i` returns. */
  lemma SearchFromHit(s: string, i: nat, labels: seq<string>, n: nat, w: nat, k: nat)
    requires i <= |s| && LabelsStartClean(labels)
    requires MatchAt(s, i, labels) == Some((n, w, k))
    ensures SearchFrom(s, i, labels) == Some((i, n, w, k))
  {
  }

  /** The search returns the two groups of the occurrence the attempts find at index 0. */
  lemma SearchReturns(s: string, labels: seq<string>, n: nat, w: nat, k: nat)
    requires LabelsStartClean(labels)
    requires SearchFrom(s, 0, labels) == Some((0, n, w, k))
    requires k < |labels| && n + w + |labels[k]| <= |s|
    ensures Search(s, labels) == Some((s[0..n], s[n + w..n + w + |labels[k]|]))
  {
  }

  /** An occurrence at `i` whose label comes first among those that fit there is what the attempt at `i` finds. */
  lemma MatchAtFirstLabel(s: string, i: nat, labels: seq<string>, n: nat, w: nat, k: nat)
    requires i <= |s| && LabelsStartClean(labels)
    requires PatternAt(s, i, n, w, labels, k)
    requires forall j :: 0 <= j < k ==> !LabelAt(s, i + n + w, labels[j])
    ensures MatchAt(s, i, labels) == Some((n, w, k))
  {
    var r := MatchAt(s, i, labels);
    MatchAtRuns(s, i, labels, n, w, k);
    assert LabelAt(s, i + n + w, labels[r.value.2]);
  }

  /** When the pattern occurs at `i`, the attempt there finds its runs and a label no later than `k`. */
  lemma MatchAtRuns(s: string, i: nat, labels: seq<string>, n: nat, w: nat, k: nat)
    requires i <= |s| && LabelsStartClean(labels)
    requires PatternAt(s, i, n, w, labels, k)
    ensures var r := MatchAt(s, i, labels);
      r.Some? && r.value.0 == n && r.value.1 == w && r.value.2 <= k
  {
    assert MatchesAt(s, i, labels);
  }

  /** The priced-item search: digits, whitespace, then one of the six labels, ignoring case. */
  function PriceMatch(s: string): (r: Option<(string, string)>)
    ensures r.Some? ==> r.value.0 != [] && AllDigits(r.value.0)
    ensures r.Some? ==> exists k :: 0 <= k < |LowerPriceLabels| && Lower(r.value.1) == LowerPriceLabels[k]
  {
    LowerPriceLabelsStartClean();
    Search(s, LowerPriceLabels)
  }

  /**
   * The priced-item search finds a match exactly when the pattern occurs in
   * the line, and then returns the digits and label text of the occurrence
   * at the least index (whole digit run, all the whitespace, first label in
   * alternation order).
   */
  lemma PriceMatchSpec(s: string)
    ensures PriceMatch(s).None? <==> forall i, n, w, k :: !PatternAt(s, i, n, w, LowerPriceLabels, k)
    ensures PriceMatch(s).Some? ==>
              exists i, n, w, k ::
                && PatternAt(s, i, n, w, LowerPriceLabels, k)
                && (forall j :: 0 <= j < i ==> !MatchesAt(s, j, LowerPriceLabels))
                && (forall n', w', k' :: PatternAt(s, i, n', w', LowerPriceLabels, k') ==> n' == n && w' == w && k <= k')
                && PriceMatch(s).value == (s[i..i + n], s[i + n + w..i + n + w + |LowerPriceLabels[k]|])
  {
    LowerPriceLabelsStartClean();
    SearchSpec(s, LowerPriceLabels);
  }

  /** The category cascade on the lower-cased label. */
  function LabelCategory(lowered: string): (r: Option<string>)
    ensures r.Some? ==> r.value in ItemKeys
  {
    if Contains(lowered, "youth bl") then Some(YouthSLSubscription)
    else if Contains(lowered, "youth renewal") || Contains(lowered, "youth new") then Some(YouthRegistration)
    else if Contains(lowered, "adult renewal") || Contains(lowered, "adult new") then Some(AdultRegistration)
    else if Contains(lowered, "program fee") then Some(ProgramFee)
    else None
  }

  /** The category each label of the pattern is counted under. */
  function CategoryOfLabel(k: nat): string
    requires k < |PriceLabels|
  {
    if k == 0 then YouthSLSubscription
    else if k == 1 then YouthRegistration
    else if k <= 3 then AdultRegistration
    else ProgramFee
  }

  /** The category cascade sends every label of the pattern to its category. */
  lemma LabelCategories(k: nat)
    requires k < |PriceLabels|
    ensures LabelCategory(LowerPriceLabels[k]) == Some(CategoryOfLabel(k))
  {
    if k == 0 {
      YouthBLCategory(LowerPriceLabels[k]);
    } else if k == 1 {
      YouthRenewalCategory(LowerPriceLabels[k]);
    } else if k == 2 {
      AdultRenewalCategory(LowerPriceLabels[k]);
    } else if k == 3 {
      AdultNewCategory(LowerPriceLabels[k]);
    } else if k == 4 {
      YouthProgramFeeCategory(LowerPriceLabels[k]);
    } else {
      AdultProgramFeeCategory(LowerPriceLabels[k]);
    }
  }

  lemma YouthBLCategory(l: string)
    requires l == "youth bl"
    ensures LabelCategory(l) == Some(CategoryOfLabel(0))
  {
    assert l == "" + "youth bl" + "";
    ContainsPiece("", "youth bl", "");
  }

  lemma YouthRenewalCategory(l: string)
    requires l == "youth renewal"
    ensures LabelCategory(l) == Some(CategoryOfLabel(1))
  {
    assert l == "" + "youth renewal" + "";
    ContainsPiece("", "youth renewal", "");
    NotContainsByChar(l, "youth bl", 6);
  }

  lemma AdultRenewalCategory(l: string)
    requires l == "adult renewal"
    ensures LabelCategory(l) == Some(CategoryOfLabel(2))
  {
    assert l == "" + "adult renewal" + "";
    ContainsPiece("", "adult renewal", "");
    NotYouth(l);
  }

  lemma AdultNewCategory(l: string)
    requires l == "adult new"
    ensures LabelCategory(l) == Some(CategoryOfLabel(3))
  {
    assert l == "" + "adult new" + "";
    ContainsPiece("", "adult new", "");
    NotYouth(l);
    NotContainsByChar(l, "adult renewal", 6);
  }

  lemma YouthProgramFeeCategory(l: string)
    requires l == "youth program fee"
    ensures LabelCategory(l) == Some(CategoryOfLabel(4))
  {
    assert l[6..17] == "program fee";
    assert OccursAt(l, "program fee", 6);
    NotContainsByChar(l, "youth bl", 6);
    NotContainsByChar(l, "youth renewal", 10);
    NotContainsByChar(l, "youth new", 8);
    NotContainsByChar(l, "adult renewal", 1);
    NotContainsByChar(l, "adult new", 1);
  }

  lemma AdultProgramFeeCategory(l: string)
    requires l == "adult program fee"
    ensures LabelCategory(l) == Some(CategoryOfLabel(5))
  {
    assert l[6..17] == "program fee";
    assert OccursAt(l, "program fee", 6);
    NotYouth(l);
    NotContainsByChar(l, "adult renewal", 10);
    NotContainsByChar(l, "adult new", 8);
  }

  /** A label without a `y` is none of the youth labels. */
  lemma NotYouth(l: string)
    requires 'y' !in l
    ensures !Contains(l, "youth bl") && !Contains(l, "youth renewal") && !Contains(l, "youth new")
  {
    NotContainsByChar(l, "youth bl", 0);
    NotContainsByChar(l, "youth renewal", 0);
    NotContainsByChar(l, "youth new", 0);
  }

  /** The priced-item fact: the category and count of the first match. */
  function PriceItem(line: string): (r: Option<(string, nat)>)
    ensures r.Some? ==> r.value.0 in ItemKeys
  {
    match PriceMatch(line)
    case None => None
    case Some((ds, matched)) =>
      match LabelCategory(Lower(Strip(matched)))
      case None => None
      case Some(category) => Some((category, DigitsValue(ds)))
  }

  /** No label of the pattern begins or ends with whitespace, even lower-cased. */
  lemma LabelEnds(k: nat)
    requires k < |PriceLabels|
    ensures |LowerPriceLabels[k]| > 0
    ensures !IsSpace(LowerPriceLabels[k][0]) && !IsSpace(LowerPriceLabels[k][|LowerPriceLabels[k]| - 1])
  {
  }

  /**
   * A line yields a priced item exactly when the pattern occurs in it; the
   * item is the category of the label that matched, counted by the digits
   * before it. So "youth bl" counts as Youth SL Subscription, "youth
   * renewal" as Youth Registration, "adult renewal" and "adult new" as Adult
   * Registration, and the two program-fee labels as Program Fee.
   */
  lemma PriceItemSpec(line: string)
    ensures PriceItem(line).None? <==> forall i, n, w, k :: !PatternAt(line, i, n, w, LowerPriceLabels, k)
    ensures PriceItem(line).Some? ==>
              exists k :: 0 <= k < |PriceLabels| && Lower(PriceMatch(line).value.1) == LowerPriceLabels[k]
                && PriceItem(line).value == (CategoryOfLabel(k), DigitsValue(PriceMatch(line).value.0))
  {
    PriceItemOfMatch(line);
    PriceMatchSpec(line);
  }

  /** Every match of the search is a priced item: the category of its label, counted by its digits. */
  lemma PriceItemOfMatch(line: string)
    ensures PriceItem(line).Some? <==> PriceMatch(line).Some?
    ensures PriceItem(line).Some? ==>
              exists k :: 0 <= k < |PriceLabels| && Lower(PriceMatch(line).value.1) == LowerPriceLabels[k]
                && PriceItem(line).value == (CategoryOfLabel(k), DigitsValue(PriceMatch(line).value.0))
  {
    if PriceMatch(line).Some? {
      var (ds, m) := PriceMatch(line).value;
      var k :| 0 <= k < |LowerPriceLabels| && Lower(m) == LowerPriceLabels[k];
      MatchedLabelCategory(m, k);
    }
  }

  /** Text that lower-cases to label `k` is stripped to itself and counted under that label's category. */
  lemma MatchedLabelCategory(m: string, k: nat)
    requires k < |LowerPriceLabels| && Lower(m) == LowerPriceLabels[k]
    ensures k < |PriceLabels| && LabelCategory(Lower(Strip(m))) == Some(CategoryOfLabel(k))
  {
    LabelEnds(k);
    assert !IsSpace(m[0]) && !IsSpace(m[|m| - 1]);
    StripNoop(m);
    LabelCategories(k);
  }

  /**
   * In "<digits> Youth Renewal" the pattern occurs at index 0 with the second
   * label, and the first label does not fit there.
   */
  lemma YouthRenewalPattern(ds: string)
    requires ds != [] && AllDigits(ds)
    ensures PatternAt(ds + " Youth Renewal", 0, |ds|, 1, LowerPriceLabels, 1)
    ensures !LabelAt(ds + " Youth Renewal", |ds| + 1, LowerPriceLabels[0])
  {
    var s := ds + " Youth Renewal";
    var p := |ds| + 1;
    assert s[p..p + 13] == "Youth Renewal";
    assert s[p..p + 8] == "Youth Re";
    assert Lower(s[p..p + 8])[6] == 'r';
    LowerYouthRenewal();
    assert forall j :: 0 <= j < |ds| ==> s[j] == ds[j];
  }

  /** "<digits> Youth Renewal" mentions no charter renewal: it has no 'C'. */
  lemma YouthRenewalNotRenewal(ds: string)
    requires AllDigits(ds)
    ensures RenewalFact(ds + " Youth Renewal").None?
  {
    var line := ds + " Youth Renewal";
    assert 'C' !in " Youth Renewal";
    assert 'C' !in ds by {
      forall i | 0 <= i < |ds| ensures ds[i] != 'C' {
        assert IsDigit(ds[i]);
      }
    }
    assert 'C' !in line;
    NotContainsByChar(line, "Charter Renewal", 0);
    NotContainsByChar(line, "Unit Charter", 5);
  }

  /** The search on "<digits> Youth Renewal" returns the digits and the label text. */
  lemma YouthRenewalMatch(ds: string)
    requires ds != [] && AllDigits(ds)
    ensures PriceMatch(ds + " Youth Renewal") == Some((ds, "Youth Renewal"))
  {
    YouthRenewalSearch(ds);
    PrefixAndRest(ds, " Youth Renewal", 1);
    assert " Youth Renewal"[1..] == "Youth Renewal";
  }

  /** In `a + b`, the first `|a|` characters are `a` and what follows `b[..d]` is `b[d..]`. */
  lemma PrefixAndRest(a: string, b: string, d: nat)
    requires d <= |b|
    ensures (a + b)[0..|a|] == a && (a + b)[|a| + d..|a| + |b|] == b[d..]
  {
    var s := a + b;
    assert s[0..|a|] == a;
    forall j | 0 <= j < |b| - d ensures s[|a| + d..|a| + |b|][j] == b[d..][j] {
      assert s[|a| + d + j] == b[d + j];
    }
  }

  /** The search on "<digits> Youth Renewal" stops at index 0, on the second label. */
  lemma YouthRenewalSearch(ds: string)
    requires ds != [] && AllDigits(ds)
    ensures var s := ds + " Youth Renewal"; PriceMatch(s) == Some((s[0..|ds|], s[|ds| + 1..|ds| + 14]))
  {
    assert |LowerPriceLabels[1]| == 13;
    YouthRenewalPattern(ds);
    PriceMatchAtStart(ds + " Youth Renewal", |ds|, 1, 1);
  }

  /** A pattern at index 0 whose earlier labels do not fit is what the search returns. */
  lemma PriceMatchAtStart(s: string, n: nat, w: nat, k: nat)
    requires PatternAt(s, 0, n, w, LowerPriceLabels, k)
    requires forall j :: 0 <= j < k ==> !LabelAt(s, n + w, LowerPriceLabels[j])
    ensures PriceMatch(s) == Some((s[0..n], s[n + w..n + w + |LowerPriceLabels[k]|]))
  {
    LowerPriceLabelsStartClean();
    SearchAtStart(s, LowerPriceLabels, n, w, k);
  }

  /** "<digits> Youth Renewal" is a priced item: that many youth registrations. */
  lemma YouthRenewalLine(ds: string)
    requires ds != [] && AllDigits(ds)
    ensures PriceItem(ds + " Youth Renewal") == Some((YouthRegistration, DigitsValue(ds)))
  {
    YouthRenewalMatch(ds);
    YouthRenewalLabel();
    PricedMatch(ds + " Youth Renewal", ds, "Youth Renewal", YouthRegistration);
  }

  /** The label text "Youth Renewal" is counted as youth registrations. */
  lemma YouthRenewalLabel()
    ensures LabelCategory(Lower(Strip("Youth Renewal"))) == Some(YouthRegistration)
  {
    StripNoop("Youth Renewal");
    LowerYouthRenewal();
    YouthRenewalCategory("youth renewal");
  }

  /** A match whose label text names a category is an item of that category, priced by its digits. */
  lemma PricedMatch(line: string, ds: string, matched: string, category: string)
    requires PriceMatch(line) == Some((ds, matched))
    requires LabelCategory(Lower(Strip(matched))) == Some(category)
    ensures PriceItem(line) == Some((category, DigitsValue(ds)))
  {}

  /** A line whose digits all come at its end has no priced item: no digit run is followed by whitespace. */
  lemma NoItemDigitsAtEnd(pre: string, ds: string)
    requires forall j :: 0 <= j < |pre| ==> !IsDigit(pre[j])
    requires AllDigits(ds)
    ensures PriceItem(pre + ds).None?
  {
    var s := pre + ds;
    forall i, n, w, k
      ensures !PatternAt(s, i, n, w, LowerPriceLabels, k)
    {
      if 0 <= i < |pre| {
        assert s[i] == pre[i];
      } else if 0 <= i && 1 <= n && i + n < |s| {
        assert s[i + n] == ds[i + n - |pre|];
      }
    }
    PriceItemSpec(s);
  }

  /**
   * After "<digits> " the pattern can only continue at the next character
   * when that character is neither a digit nor whitespace: the digit run is
   * the whole of `ds` and the gap is one character.
   */
  lemma PatternAfterDigits(ds: string, rest: string, labels: seq<string>, i: int, n: int, w: int, k: int)
    requires AllDigits(ds)
    requires |rest| >= 2 && IsSpace(rest[0]) && !IsSpace(rest[1])
    requires forall j :: 0 <= j < |rest| ==> !IsDigit(rest[j])
    requires PatternAt(ds + rest, i, n, w, labels, k)
    ensures i + n == |ds| && w == 1
  {
    var s := ds + rest;
    assert forall j :: 0 <= j < |ds| ==> s[j] == ds[j];
    assert forall j :: |ds| <= j < |s| ==> s[j] == rest[j - |ds|];
    assert IsDigit(s[i + n - 1]) && IsSpace(s[i + n]);
    assert i + n == |ds|;
    assert !IsSpace(s[|ds| + 1]);
  }

  /** No label fits after "<digits> " in "<digits> Youth New". */
  lemma NoLabelAtYouthNew(ds: string)
    ensures forall k :: 0 <= k < |LowerPriceLabels| ==> !LabelAt(ds + " Youth New", |ds| + 1, LowerPriceLabels[k])
  {
    var s := ds + " Youth New";
    var p := |ds| + 1;
    assert s[p..] == "Youth New";
    forall k | 0 <= k < |LowerPriceLabels|
      ensures !LabelAt(s, p, LowerPriceLabels[k])
    {
      if k == 0 {
        assert s[p..p + 8][6] == 'N';
        assert Lower(s[p..p + 8])[6] == 'n';
      } else if k == 3 {
        assert Lower(s[p..p + 9])[0] == 'y';
      }
    }
  }

  /** "<digits> Youth New" is not a priced item: new youth registrations are not counted. */
  lemma YouthNewNotCounted(ds: string)
    requires AllDigits(ds)
    ensures PriceItem(ds + " Youth New").None?
  {
    var s := ds + " Youth New";
    var rest := " Youth New";
    forall j | 0 <= j < |rest|
      ensures !IsDigit(rest[j])
    {
      assert rest[j] in rest;
    }
    NoLabelAtYouthNew(ds);
    forall i, n, w, k
      ensures !PatternAt(s, i, n, w, LowerPriceLabels, k)
    {
      if PatternAt(s, i, n, w, LowerPriceLabels, k) {
        PatternAfterDigits(ds, rest, LowerPriceLabels, i, n, w, k);
      }
    }
    PriceItemSpec(s);
  }
}
