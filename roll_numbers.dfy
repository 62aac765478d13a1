/**
  Roll numbers of the result portal: `YY` + a three-letter department code +
  a three-digit sequence number 001-150. The generator produces them wrapped
  in double quotes; its callers strip the quotes before fetching.
 */
module RollNumbers {
  import opened Text

  /** The enrolment years the portal serves. */
  const Years: seq<string> := ["21", "22", "23", "24"]

  /** The closed set of department codes. */
  const AllDepartments: seq<string> :=
    ["BEC", "BCS", "DCS", "DEC", "BPH", "BME", "BCH", "BMA", "BMS", "BCE", "BEE", "BAR"]

  /** How many roll numbers a department has in one year. */
  const BatchSize := 150

  const QuoteChar := '"'

  /** One generated roll number: `year`, `dept` and `i` padded to three digits, between double quotes. */
  function Quoted(year: string, dept: string, i: nat): string
  {
    [QuoteChar] + year + dept + ZeroPad(i, 3) + [QuoteChar]
  }

  /** The list `[f'"{year}{dept}{i:03d}"' for i in range(1, 151)]`. */
  function GenerateRollNumbers(year: string, dept: string): (r: seq<string>)
    ensures |r| == BatchSize
  {
    seq(BatchSize, i requires 0 <= i => Quoted(year, dept, i + 1))
  }

  /** `roll.strip('"')`, as the batch drivers apply it before fetching. */
  function StripQuotes(roll: string): string
  {
    StripChars(roll, {QuoteChar})
  }

  /** The single-student check: eight characters, a served year, a known department
      and a number 1-150 written in three digits. */
  predicate ValidateRollNumber(roll: string)
  {
    |roll| == 8 &&
    roll[..2] in Years &&
    roll[2..5] in AllDepartments &&
    IsDigits(roll[5..]) &&
    1 <= DigitsValue(roll[5..]) <= BatchSize
  }

  /** The i-th generated entry (0-based) is the year, the department and the
      three-digit number i + 1, between double quotes. Read in order, the
      numbers run 1, 2, ..., 150. */
  lemma GeneratedShape(year: string, dept: string, i: nat)
    requires i < BatchSize
    ensures var r := GenerateRollNumbers(year, dept)[i];
      var n := |year| + |dept|;
      |r| == n + 5 && r[0] == QuoteChar && r[n + 4] == QuoteChar &&
      r[1..|year| + 1] == year && r[|year| + 1..n + 1] == dept &&
      IsDigits(r[n + 1..n + 4]) && DigitsValue(r[n + 1..n + 4]) == i + 1
  {
    var r := GenerateRollNumbers(year, dept)[i];
    var n := |year| + |dept|;
    var p := ZeroPad(i + 1, 3);
    DecimalLength(i + 1);
    assert r == [QuoteChar] + year + dept + p + [QuoteChar];
    assert r[1..|year| + 1] == year;
    assert r[|year| + 1..n + 1] == dept;
    assert r[n + 1..n + 4] == p;
  }

  /** The generated entries are pairwise different. */
  lemma GeneratedDistinct(year: string, dept: string, i: nat, j: nat)
    requires i < j < BatchSize
    ensures GenerateRollNumbers(year, dept)[i] != GenerateRollNumbers(year, dept)[j]
  {
    GeneratedShape(year, dept, i);
    GeneratedShape(year, dept, j);
    var n := |year| + |dept|;
    assert GenerateRollNumbers(year, dept)[i][n + 1..n + 4] != GenerateRollNumbers(year, dept)[j][n + 1..n + 4];
  }

  /** With its quotes stripped, a generated entry is the bare roll number, for any
      year and department text that does not itself begin with a double quote. */
  lemma StripGenerated(year: string, dept: string, i: nat)
    requires year + dept != [] ==> (year + dept)[0] != QuoteChar
    requires i < BatchSize
    ensures StripQuotes(GenerateRollNumbers(year, dept)[i]) == year + dept + ZeroPad(i + 1, 3)
  {
    var p := ZeroPad(i + 1, 3);
    var bare := year + dept + p;
    assert bare[0] == if year + dept != [] then (year + dept)[0] else p[0];
    assert bare[|bare| - 1] == p[|p| - 1];
    assert GenerateRollNumbers(year, dept)[i] == [QuoteChar] + bare + [QuoteChar];
    StripWrapped(bare, QuoteChar);
  }

  lemma YearShape(year: string)
    requires year in Years
    ensures |year| == 2 && IsDigits(year)
  {
  }

  lemma DepartmentShape(dept: string)
    requires dept in AllDepartments
    ensures |dept| == 3
  {
  }

  /** Every roll number generated for a served year and a known department,
      with its quotes stripped, passes `ValidateRollNumber`. */
  lemma GeneratedAreValid(year: string, dept: string, i: nat)
    requires year in Years && dept in AllDepartments
    requires i < BatchSize
    ensures ValidateRollNumber(StripQuotes(GenerateRollNumbers(year, dept)[i]))
  {
    YearShape(year);
    DepartmentShape(dept);
    assert (year + dept)[0] == year[0] && IsDigit(year[0]);
    StripGenerated(year, dept, i);
    var p := ZeroPad(i + 1, 3);
    DecimalLength(i + 1);
    var bare := year + dept + p;
    assert |bare| == 8;
    assert bare[..2] == year;
    assert bare[2..5] == dept;
    assert bare[5..] == p;
  }

  /** Conversely, every roll number that passes `ValidateRollNumber` is one of the
      generated entries of its own year and department, with the quotes stripped:
      the one at its own number. */
  lemma ValidAreGenerated(roll: string)
    requires ValidateRollNumber(roll)
    ensures var k := DigitsValue(roll[5..]);
      1 <= k <= BatchSize &&
      roll == StripQuotes(GenerateRollNumbers(roll[..2], roll[2..5])[k - 1])
  {
    var k := DigitsValue(roll[5..]);
    ThreeDigitsRoundTrip(roll[5..]);
    assert IsDigits(roll[..2]);
    StripGenerated(roll[..2], roll[2..5], k - 1);
    assert roll == roll[..2] + roll[2..5] + roll[5..];
  }

  /** An identifier the validator accepts, and ones it rejects for each of its conditions. */
  lemma AcceptsExample()
    ensures ValidateRollNumber("21BCS005")
  {
    var s := "21BCS005";
    assert s[..2] == "21" && s[2..5] == "BCS";
    var n := s[5..];
    assert n == "005" && n[..2] == "00" && "00"[..1] == "0" && "0"[..0] == "";
    assert DigitsValue("0") == 0;
    assert DigitsValue("00") == 0;
    assert DigitsValue(n) == 5;
  }

  lemma RejectsExamples()
    ensures !ValidateRollNumber("25BCS005")
    ensures !ValidateRollNumber("21XXX005")
    ensures !ValidateRollNumber("21BCS0A5")
    ensures !ValidateRollNumber("21BCS151")
    ensures !ValidateRollNumber("21BCS000")
    ensures !ValidateRollNumber("21BCS05")
  {
    assert "25BCS005"[..2] == "25";
    assert "21XXX005"[2..5] == "XXX";
    assert "21BCS0A5"[5..][1] == 'A';
    assert "21BCS151"[5..][..2] == "15";
    assert "15"[..1] == "1";
    assert DigitsValue("21BCS151"[5..]) == 151;
    assert "21BCS000"[5..][..2] == "00";
    assert "00"[..1] == "0";
    assert DigitsValue("21BCS000"[5..]) == 0;
  }
}
