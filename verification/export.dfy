/**
 * The two text exports of `useMeasurements`: the Res2DInv `.dat` file
 * (`exportToDAT`) and the spreadsheet `.csv` file (`exportToCSV`). Both
 * are lines joined with `'\n'`. JavaScript's `toFixed`, the `toString` of
 * the electrode spacing and `toISOString` are not reproduced digit by
 * digit: they come in as a `Formatter`, and only what every such
 * formatting guarantees is assumed of them.
 */
module Export {
  import opened Text
  import opened Number
  import opened Measurements

  /**
   * `fixed(x, d)` is `x.toFixed(d)`, `show(x)` is the `toString` of the
   * electrode spacing, `iso(t)` is `new Date(t).toISOString()`.
   */
  datatype Formatter = Formatter(fixed: (Num, nat) -> string, show: real -> string, iso: int -> string)

  /** A field that cannot break a line, a CSV row or a `.dat` data line. */
  predicate IsField(s: string) {
    '\n' !in s && ',' !in s && ' ' !in s
  }

  /** Number and date formatting never produce a newline, a comma or a space. */
  ghost predicate Plain(fmt: Formatter) {
    && (forall x: Num, d: nat :: IsField(fmt.fixed(x, d)))
    && (forall x: real :: IsField(fmt.show(x)))
    && (forall t: int :: IsField(fmt.iso(t)))
  }

  /** `getArrayTypeCode`: Wenner is 1, Schlumberger is 2, dipole-dipole and anything else is 3. */
  function ArrayTypeCode(t: ArrayType): (code: string)
    ensures code == "1" <==> t == Wenner
    ensures code == "2" <==> t == Schlumberger
    ensures code == "3" <==> t != Wenner && t != Schlumberger
  {
    match t
    case DipoleDipole => "3"
    case Wenner => "1"
    case Schlumberger => "2"
    case Unrecognized(_) => "3"
  }

  /** `(a + b + m + n) / 4`: the midpoint of the four electrodes, never outside their range. */
  function Center(m: Measurement): (x: real)
    ensures x <= m.a as real || x <= m.b as real || x <= m.m as real || x <= m.n as real
    ensures x >= m.a as real || x >= m.b as real || x >= m.m as real || x >= m.n as real
    ensures 4.0 * x == (m.a + m.b + m.m + m.n) as real
  {
    (m.a + m.b + m.m + m.n) as real / 4.0
  }

  /** JavaScript division of a non-negative number: by zero it gives infinity, or NaN for `0 / 0`. */
  function Divide(x: real, y: real): (q: Num)
    requires x >= 0.0
    ensures y != 0.0 ==> q.Finite? && q.value * y == x
    ensures y == 0.0 && x == 0.0 ==> q == NaN
    ensures y == 0.0 && x > 0.0 ==> q == Infinite(false)
  {
    if y != 0.0 then Finite(x / y)
    else if x == 0.0 then NaN
    else Infinite(false)
  }

  /** `Math.abs(m.m - m.b) / spacing`: the dipole separation in units of the spacing. */
  function SeparationFactor(m: Measurement, spacing: real): (q: Num)
    ensures spacing != 0.0 ==> q.Finite? && q.value * spacing == (if m.m >= m.b then m.m - m.b else m.b - m.m) as real
    ensures spacing == 0.0 ==> (q == NaN <==> m.m == m.b)
  {
    var gap := if m.m >= m.b then m.m - m.b else m.b - m.m;
    Divide(gap as real, spacing)
  }

  /** The four fields of one `.dat` data line: position, spacing, separation factor, resistance. */
  function DatFields(m: Measurement, config: SurveyConfig, fmt: Formatter): seq<string>
  {
    [ fmt.fixed(Finite(Center(m)), 2),
      fmt.fixed(Finite(config.electrodeSpacing), 2),
      fmt.fixed(SeparationFactor(m, config.electrodeSpacing), 0),
      fmt.fixed(m.ra, 2) ]
  }

  /** One `.dat` data line: the fields separated by single spaces. */
  function DatRow(m: Measurement, config: SurveyConfig, fmt: Formatter): string
  {
    Join(DatFields(m, config, fmt), ' ')
  }

  /** A data line reads back, split on spaces, as exactly its four fields. */
  lemma DatRowFields(m: Measurement, config: SurveyConfig, fmt: Formatter)
    requires Plain(fmt)
    ensures Split(DatRow(m, config, fmt), ' ') == DatFields(m, config, fmt)
    ensures '\n' !in DatRow(m, config, fmt)
  {
    var fields := DatFields(m, config, fmt);
    assert forall i :: 0 <= i < |fields| ==> IsField(fields[i]);
    SplitJoin(fields, ' ');
    JoinKeepsOut(fields, ' ', '\n');
  }

  /** Joining pieces that lack a character, with another character, gives a string that lacks it. */
  lemma {:induction false} JoinKeepsOut(parts: seq<string>, d: char, c: char)
    requires c != d
    requires forall i :: 0 <= i < |parts| ==> c !in parts[i]
    ensures c !in Join(parts, d)
    decreases |parts|
  {
    if |parts| > 1 {
      JoinKeepsOut(parts[1..], d, c);
    }
  }

  /** The data lines, one per measurement, in ledger order. */
  function DatRows(ms: seq<Measurement>, config: SurveyConfig, fmt: Formatter): (rows: seq<string>)
    ensures |rows| == |ms|
    ensures forall i :: 0 <= i < |ms| ==> rows[i] == DatRow(ms[i], config, fmt)
    decreases |ms|
  {
    if |ms| == 0 then [] else [DatRow(ms[0], config, fmt)] + DatRows(ms[1..], config, fmt)
  }

  /** The five header lines: title, array code, number of measurements, spacing and a zero type flag. */
  function DatHeader(count: nat, config: SurveyConfig, fmt: Formatter): seq<string>
  {
    [ config.projectName + " - par " + config.operator,
      ArrayTypeCode(config.arrayType),
      IntToString(count),
      fmt.show(config.electrodeSpacing),
      "0" ]
  }

  /**
   * The lines of `exportToDAT`: a five-line header, then one data line per
   * measurement in ledger order.
   */
  function DatLines(ms: seq<Measurement>, config: SurveyConfig, fmt: Formatter): (lines: seq<string>)
    ensures |lines| == 5 + |ms|
    ensures lines[0] == config.projectName + " - par " + config.operator
    ensures lines[1] == ArrayTypeCode(config.arrayType)
    ensures lines[2] == IntToString(|ms|)
    ensures lines[3] == fmt.show(config.electrodeSpacing) && lines[4] == "0"
    ensures forall i :: 0 <= i < |ms| ==> lines[5 + i] == DatRow(ms[i], config, fmt)
  {
    var header := DatHeader(|ms|, config, fmt);
    var rows := DatRows(ms, config, fmt);
    assert forall i :: 0 <= i < |ms| ==> (header + rows)[5 + i] == rows[i];
    header + rows
  }

  /** The count line of the header reads back as the number of measurements. */
  lemma DatCountLine(ms: seq<Measurement>, config: SurveyConfig, fmt: Formatter)
    ensures ParseFloat(DatLines(ms, config, fmt)[2]) == Finite(|ms| as real)
  {
    IntToStringRoundTrip(|ms|);
  }

  /** `exportToDAT`. */
  function ExportDat(ms: seq<Measurement>, config: SurveyConfig, fmt: Formatter): string
  {
    Join(DatLines(ms, config, fmt), '\n')
  }

  /**
   * The `.dat` text splits back into exactly its lines, provided the
   * project and operator names hold no newline of their own.
   */
  lemma DatRoundTrip(ms: seq<Measurement>, config: SurveyConfig, fmt: Formatter)
    requires Plain(fmt)
    requires '\n' !in config.projectName && '\n' !in config.operator
    ensures Split(ExportDat(ms, config, fmt), '\n') == DatLines(ms, config, fmt)
    ensures |Split(ExportDat(ms, config, fmt), '\n')| == 5 + |ms|
  {
    var lines := DatLines(ms, config, fmt);
    assert forall i :: 0 <= i < |lines| ==> '\n' !in lines[i] by {
      forall i | 5 <= i < |lines|
        ensures '\n' !in lines[i]
      {
        DatRowFields(ms[i - 5], config, fmt);
      }
      assert IsField(lines[3]);
    }
    SplitJoin(lines, '\n');
  }

  /** With no measurements the `.dat` file is the header alone, announcing zero lines. */
  lemma DatEmpty(config: SurveyConfig, fmt: Formatter)
    ensures DatLines([], config, fmt) == DatHeader(0, config, fmt)
    ensures |DatLines([], config, fmt)| == 5
  {
  }

  /** The CSV header line: seven column names separated by commas. */
  const CsvHeader: string := "Index,A,B,M,N,Rho_a (Ohm.m),Timestamp"


  /** The header is one line. */
  lemma CsvHeaderOneLine()
    ensures '\n' !in CsvHeader
  {
  }

  /** The seven fields of the row for the measurement at zero-based position `idx`. */
  function CsvFields(idx: nat, m: Measurement, fmt: Formatter): seq<string>
  {
    [ IntToString(idx + 1), IntToString(m.a), IntToString(m.b), IntToString(m.m), IntToString(m.n),
      fmt.fixed(m.ra, 2), fmt.iso(m.timestamp) ]
  }

  function CsvRow(idx: nat, m: Measurement, fmt: Formatter): string
  {
    Join(CsvFields(idx, m, fmt), ',')
  }

  /** A CSV row splits on commas into one field per column. */
  lemma CsvRowFields(idx: nat, m: Measurement, fmt: Formatter)
    requires Plain(fmt)
    ensures Split(CsvRow(idx, m, fmt), ',') == CsvFields(idx, m, fmt)
    ensures |CsvFields(idx, m, fmt)| == 7
    ensures '\n' !in CsvRow(idx, m, fmt)
  {
    var fields := CsvFields(idx, m, fmt);
    assert forall i :: 0 <= i < |fields| ==> IsField(fields[i]);
    assert Split(CsvRow(idx, m, fmt), ',') == fields by {
      SplitJoin(fields, ',');
    }
    JoinKeepsOut(fields, ',', '\n');
  }

  /** The first field of a row reads back as the one-based row number. */
  lemma CsvRowNumber(idx: nat, m: Measurement, fmt: Formatter)
    ensures ParseFloat(CsvFields(idx, m, fmt)[0]) == Finite((idx + 1) as real)
  {
    IntToStringRoundTrip(idx + 1);
  }

  /** The electrode fields of a row read back as the positions A, B, M and N. */
  lemma CsvRowElectrodes(idx: nat, m: Measurement, fmt: Formatter)
    ensures ParseFloat(CsvFields(idx, m, fmt)[1]) == Finite(m.a as real)
    ensures ParseFloat(CsvFields(idx, m, fmt)[2]) == Finite(m.b as real)
    ensures ParseFloat(CsvFields(idx, m, fmt)[3]) == Finite(m.m as real)
    ensures ParseFloat(CsvFields(idx, m, fmt)[4]) == Finite(m.n as real)
  {
    var f := CsvFields(idx, m, fmt);
    assert f[1] == IntToString(m.a) && f[2] == IntToString(m.b);
    assert f[3] == IntToString(m.m) && f[4] == IntToString(m.n);
    IntToStringRoundTrip(m.a);
    IntToStringRoundTrip(m.b);
    IntToStringRoundTrip(m.m);
    IntToStringRoundTrip(m.n);
  }

  /** The rows for `ms`, numbered from `start + 1`. */
  function CsvRows(ms: seq<Measurement>, start: nat, fmt: Formatter): (rows: seq<string>)
    ensures |rows| == |ms|
    ensures forall i :: 0 <= i < |ms| ==> rows[i] == CsvRow(start + i, ms[i], fmt)
    decreases |ms|
  {
    if |ms| == 0 then [] else [CsvRow(start, ms[0], fmt)] + CsvRows(ms[1..], start + 1, fmt)
  }

  /** The lines of `exportToCSV`: the header, then the rows numbered 1, 2, … in ledger order. */
  function CsvLines(ms: seq<Measurement>, fmt: Formatter): (lines: seq<string>)
    ensures |lines| == 1 + |ms| && lines[0] == CsvHeader
    ensures forall i :: 0 <= i < |ms| ==> lines[1 + i] == CsvRow(i, ms[i], fmt)
  {
    var rows := CsvRows(ms, 0, fmt);
    var lines := [CsvHeader] + rows;
    assert forall i :: 0 <= i < |ms| ==> lines[1 + i] == rows[i];
    lines
  }

  /** `exportToCSV`. */
  function ExportCsv(ms: seq<Measurement>, fmt: Formatter): string
  {
    Join(CsvLines(ms, fmt), '\n')
  }

  /** The CSV text splits back into the header and one row per measurement. */
  lemma CsvRoundTrip(ms: seq<Measurement>, fmt: Formatter)
    requires Plain(fmt)
    ensures Split(ExportCsv(ms, fmt), '\n') == CsvLines(ms, fmt)
    ensures |Split(ExportCsv(ms, fmt), '\n')| == 1 + |ms|
  {
    var lines := CsvLines(ms, fmt);
    assert forall i :: 0 <= i < |lines| ==> '\n' !in lines[i] by {
      forall i | 1 <= i < |lines|
        ensures '\n' !in lines[i]
      {
        CsvRowFields(i - 1, ms[i - 1], fmt);
      }
      CsvHeaderOneLine();
    }
    SplitJoin(lines, '\n');
  }

  /** With no measurements the CSV text is the header line alone. */
  lemma CsvEmpty(fmt: Formatter)
    ensures ExportCsv([], fmt) == CsvHeader
  {
  }
}
