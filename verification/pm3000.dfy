/**
 * The PM3000 prescription file: a text file named after its receipt number
 * (`YYYYMMDD...`), whose first non-blank line is the patient's name and whose
 * following lines hold one medicine each, as backslash-separated fields
 * (the `.txt` branch of `parsePrescriptionFile`, renderer.js:1482-1572).
 */
module Pm3000 {
  import opened Wrappers
  import opened Text
  import opened Ordered

  /** One medicine line; the numeric fields are `parseInt` results, `None` standing for `NaN`. */
  datatype Medicine = Medicine(pillCode: string, pillName: string,
                               volume: Option<int>, daily: Option<int>, period: Option<int>,
                               total: Option<int>, date: string, lineNumber: Option<int>)

  /** `receiptTime` and `parsedAt` are clock readings, given by the caller. */
  datatype Patient = Patient(name: string, receiptTime: string, receiptDate: string,
                             receiptNumber: string, parsedAt: string)

  datatype Prescription = Prescription(patient: Patient, medicines: seq<Medicine>)

  const FieldSeparator: char := '\\'
  const MinFields: nat := 8

  /** A line that `filter(line => line.trim())` keeps. */
  predicate NotBlank(line: string)
  {
    Trim(line) != ""
  }

  /** The non-blank lines of the file, in order. */
  function Lines(content: string): (r: seq<string>)
    ensures forall l :: l in r <==> l in Split(content, '\n') && !AllWhite(l)
  {
    Filter(Split(content, '\n'), l => NotBlank(l))
  }

  /** One medicine line: kept when splitting its trimmed text on `\` gives at least eight fields. */
  function ParseMedicine(line: string): (r: Option<Medicine>)
    ensures r.Some? <==> |Split(Trim(line), FieldSeparator)| >= MinFields
    ensures r.Some? ==> FieldSeparator !in r.value.pillCode && FieldSeparator !in r.value.pillName
                        && FieldSeparator !in r.value.date
  {
    var p := Split(Trim(line), FieldSeparator);
    if |p| >= MinFields then
      Some(Medicine(p[0], p[1], ParseInt(p[2]), ParseInt(p[3]), ParseInt(p[4]),
                    ParseInt(p[5]), p[6], ParseInt(p[7])))
    else None
  }

  /** How a dispensing program writes a medicine line with numeric fields. */
  function MedicineLine(code: string, name: string, volume: nat, daily: nat, period: nat,
                        total: nat, date: string, lineNumber: nat): string
  {
    Join([code, name, NatToString(volume), NatToString(daily), NatToString(period),
          NatToString(total), date, NatToString(lineNumber)], FieldSeparator)
  }

  /** Parsing a well-formed medicine line gives back every field. */
  lemma {:induction false} MedicineLineRoundTrip(code: string, name: string, volume: nat, daily: nat, period: nat,
                              total: nat, date: string, lineNumber: nat)
    requires code != "" && !IsWhite(code[0])
    requires FieldSeparator !in code && FieldSeparator !in name && FieldSeparator !in date
    ensures ParseMedicine(MedicineLine(code, name, volume, daily, period, total, date, lineNumber))
            == Some(Medicine(code, name, Some(volume), Some(daily), Some(period), Some(total),
                             date, Some(lineNumber)))
  {
    var parts := [code, name, NatToString(volume), NatToString(daily), NatToString(period),
                  NatToString(total), date, NatToString(lineNumber)];
    var s := Join(parts, FieldSeparator);
    JoinEnds(parts, FieldSeparator);
    var last := NatToString(lineNumber);
    assert s[0] == code[0];
    assert s[|s| - 1] == last[|last| - 1];
    TrimKeeps(s);
    forall k | 0 <= k < |parts|
      ensures FieldSeparator !in parts[k]
    {
      if 2 <= k <= 5 || k == 7 {
        assert forall i :: 0 <= i < |parts[k]| ==> IsDigit(parts[k][i]);
      }
    }
    SplitJoin(parts, FieldSeparator);
    ParseNatString(volume);
    ParseNatString(daily);
    ParseNatString(period);
    ParseNatString(total);
    ParseNatString(lineNumber);
  }

  /** `lines.map(...).filter(m => m !== null)`: the medicines of the lines that parse, in order. */
  function Medicines(lines: seq<string>): (r: seq<Medicine>)
    ensures |r| <= |lines|
    ensures forall m :: m in r <==> exists l :: l in lines && ParseMedicine(l) == Some(m)
  {
    if |lines| == 0 then []
    else
      var rest := Medicines(lines[1..]);
      assert forall l :: l in lines <==> l == lines[0] || l in lines[1..];
      match ParseMedicine(lines[0])
      case Some(m) => [m] + rest
      case None => rest
  }

  // ---------------------------------------------------------------------------
  // `medicines.sort((a, b) => a.line_number - b.line_number)`

  /**
   * The comparator says `a` goes after `b`. A `NaN` line number makes the
   * difference `NaN`, which the sort treats as "equal".
   */
  predicate After(a: Medicine, b: Medicine)
  {
    a.lineNumber.Some? && b.lineNumber.Some? && a.lineNumber.value > b.lineNumber.value
  }

  predicate AllNumbered(s: seq<Medicine>)
  {
    forall i :: 0 <= i < |s| ==> s[i].lineNumber.Some?
  }

  predicate SortedByLine(s: seq<Medicine>)
  {
    AllNumbered(s) && forall i, j :: 0 <= i < j < |s| ==> s[i].lineNumber.value <= s[j].lineNumber.value
  }

  /** Put `x` after every element that does not go after it. */
  function Insert(x: Medicine, s: seq<Medicine>): (r: seq<Medicine>)
    ensures multiset(r) == multiset(s) + multiset{x}
    ensures |r| == |s| + 1
    ensures r[0] == x || (|s| > 0 && r[0] == s[0])
    ensures SortedByLine(s) && x.lineNumber.Some? ==> SortedByLine(r)
  {
    if |s| == 0 then [x]
    else if After(s[0], x) then [x] + s
    else
      var rest := Insert(x, s[1..]);
      assert s == [s[0]] + s[1..];
      assert SortedByLine(s) && x.lineNumber.Some? ==> SortedByLine([s[0]] + rest) by {
        if SortedByLine(s) && x.lineNumber.Some? {
          InsertAbove(x, s, rest);
        }
      }
      [s[0]] + rest
  }

  /** `s[0]` may stand before an insertion into the rest of a sorted `s`. */
  lemma {:induction false} InsertAbove(x: Medicine, s: seq<Medicine>, rest: seq<Medicine>)
    requires SortedByLine(s) && |s| > 0 && x.lineNumber.Some? && !After(s[0], x)
    requires multiset(rest) == multiset(s[1..]) + multiset{x} && SortedByLine(rest)
    ensures SortedByLine([s[0]] + rest)
  {
    forall j | 0 <= j < |rest|
      ensures s[0].lineNumber.value <= rest[j].lineNumber.value
    {
      assert rest[j] in multiset(rest);
      if rest[j] != x {
        assert rest[j] in multiset(s[1..]);
        var k :| 0 <= k < |s[1..]| && s[1..][k] == rest[j];
        assert s[k + 1] == rest[j];
      }
    }
    var r := [s[0]] + rest;
    forall a, b | 0 <= a < b < |r|
      ensures r[a].lineNumber.value <= r[b].lineNumber.value
    {
      if a > 0 {
        assert r[a] == rest[a - 1] && r[b] == rest[b - 1];
      } else {
        assert r[b] == rest[b - 1];
      }
    }
  }

  /** A stable insertion sort by line number. */
  function SortByLine(s: seq<Medicine>): (r: seq<Medicine>)
    ensures multiset(r) == multiset(s)
    ensures AllNumbered(s) ==> SortedByLine(r)
  {
    if |s| == 0 then []
    else
      assert s == s[..|s| - 1] + [s[|s| - 1]];
      Insert(s[|s| - 1], SortByLine(s[..|s| - 1]))
  }

  // ---------------------------------------------------------------------------
  // The file

  /** `s.substring(a, b)` for `a <= b`: both ends clamped to the string. */
  function Substring(s: string, a: nat, b: nat): (r: string)
    requires a <= b
  {
    var i := if a < |s| then a else |s|;
    var j := if b < |s| then b else |s|;
    s[i..j]
  }

  /** `YYYY-MM-DD`, from the first eight characters of the receipt number. */
  function ReceiptDate(receipt: string): (r: string)
    ensures |receipt| >= 8 ==> r == receipt[..4] + "-" + receipt[4..6] + "-" + receipt[6..8]
    ensures |receipt| >= 8 ==> |r| == 10 && r[4] == '-' && r[7] == '-'
  {
    var d := Substring(receipt, 0, 8);
    Substring(d, 0, 4) + "-" + Substring(d, 4, 6) + "-" + Substring(d, 6, 8)
  }

  /**
   * The PM3000 branch of `parsePrescriptionFile` once the bytes are decoded:
   * no record for a file without a non-blank line; otherwise the trimmed first
   * line names the patient and the remaining lines give the medicines, sorted
   * by line number.
   */
  function ParsePrescription(content: string, receipt: string, receiptTime: string, now: string)
    : (r: Option<Prescription>)
    ensures r.None? <==> forall l :: l in Split(content, '\n') ==> AllWhite(l)
    ensures r.Some? ==>
      var lines := Lines(content);
      |lines| > 0 && r.value.patient == Patient(Trim(lines[0]), receiptTime, ReceiptDate(receipt), receipt, now)
      && r.value.patient.name != ""
      && multiset(r.value.medicines) == multiset(Medicines(lines[1..]))
      && (AllNumbered(Medicines(lines[1..])) ==> SortedByLine(r.value.medicines))
  {
    var lines := Lines(content);
    if |lines| == 0 then
      assert forall l :: l in Split(content, '\n') ==> AllWhite(l);
      None
    else
      assert lines[0] in lines;
      Some(Prescription(Patient(Trim(lines[0]), receiptTime, ReceiptDate(receipt), receipt, now),
                        SortByLine(Medicines(lines[1..]))))
  }

  /** Every medicine of a parsed prescription comes from a line after the patient's name. */
  lemma {:induction false} MedicinesComeFromLines(content: string, receipt: string, receiptTime: string, now: string, m: Medicine)
    requires ParsePrescription(content, receipt, receiptTime, now).Some?
    requires m in ParsePrescription(content, receipt, receiptTime, now).value.medicines
    ensures exists l :: l in Lines(content)[1..] && ParseMedicine(l) == Some(m)
  {
    var r := ParsePrescription(content, receipt, receiptTime, now).value;
    assert multiset(r.medicines)[m] > 0;
    assert m in Medicines(Lines(content)[1..]);
  }
}
