/** `BenefitsEnrollmentProcessedRecord`: one line of a job's report, its four
    constructors, and the `|`-delimited text form the report file holds
    (line number first, then the description; empty lines are ignored). */
module ProcessedRecord {
  import opened Wrappers
  import opened Errors
  import opened Text
  import opened Numerals
  import opened Validation

  datatype OutcomeRow = OutcomeRow(lineNumber: int, description: string)

  /** The reader's `ErrorInfo` for a line it could not parse. */
  datatype ErrorInfo = ErrorInfo(lineNumber: int, exceptionMessage: string)

  const SuccessDescription := "Successfully Processed."
  const ValidationPrefix := "Validation failed: "
  const Delimiter := '|'

  /** `(lineNumber, string)`: refuses a null or whitespace description. */
  function FromDescription(lineNumber: int, description: Option<string>): (r: Result<OutcomeRow, Exn>)
    ensures r.Failure? <==> IsNullOrWhiteSpace(description)
    ensures r.Failure? ==> r.error == Argument("'description' cannot be null or whitespace.", "description")
    ensures r.Success? ==> r.value.lineNumber == lineNumber && r.value.description == description.value
  {
    if IsNullOrWhiteSpace(description) then
      Failure(Argument("'description' cannot be null or whitespace.", "description"))
    else Success(OutcomeRow(lineNumber, description.value))
  }

  /** `(lineNumber, exception)`: the description is the message, whatever it is. */
  function FromException(lineNumber: int, exception: Option<Exn>): (r: Result<OutcomeRow, Exn>)
    ensures r.Failure? <==> exception.None?
    ensures r.Failure? ==> r.error == ArgumentNull("exception")
    ensures r.Success? ==> r.value.lineNumber == lineNumber && r.value.description == exception.value.Message()
  {
    match exception
    case None => Failure(ArgumentNull("exception"))
    case Some(e) => Success(OutcomeRow(lineNumber, e.Message()))
  }

  /** `"<Property>: <Message> Severity: <Severity>"`. */
  function RenderFailure(f: ValidationFailure): string {
    f.propertyName + ": " + f.errorMessage + " Severity: " + SeverityName(f.severity)
  }

  function RenderFailures(fs: seq<ValidationFailure>): (rs: seq<string>)
    ensures |rs| == |fs|
    ensures forall i :: 0 <= i < |fs| ==> rs[i] == RenderFailure(fs[i])
  {
    seq(|fs|, i requires 0 <= i < |fs| => RenderFailure(fs[i]))
  }

  /** `(lineNumber, ValidationResult)`: the prefix, then every failure joined by ';'. */
  function FromValidation(lineNumber: int, result: Option<seq<ValidationFailure>>): (r: Result<OutcomeRow, Exn>)
    ensures r.Failure? <==> result.None?
    ensures r.Failure? ==> r.error == ArgumentNull("result")
    ensures r.Success? ==>
      && r.value.lineNumber == lineNumber
      && |ValidationPrefix| <= |r.value.description|
      && r.value.description[..|ValidationPrefix|] == ValidationPrefix
  {
    match result
    case None => Failure(ArgumentNull("result"))
    case Some(fs) => Success(OutcomeRow(lineNumber, ValidationPrefix + Join(';', RenderFailures(fs))))
  }

  /** `(ErrorInfo)`: line number and message both come from the reader's error. */
  function FromParseError(error: Option<ErrorInfo>): (r: Result<OutcomeRow, Exn>)
    ensures r.Failure? <==> error.None?
    ensures r.Failure? ==> r.error == ArgumentNull("error")
    ensures r.Success? ==> r.value.lineNumber == error.value.lineNumber
    ensures r.Success? ==> r.value.description == error.value.exceptionMessage
  {
    match error
    case None => Failure(ArgumentNull("error"))
    case Some(e) => Success(OutcomeRow(e.lineNumber, e.exceptionMessage))
  }

  /** The validation description can be taken apart again: after the prefix,
      splitting at ';' gives back each failure's rendering, in order, as long
      as no rendering itself contains ';'. */
  lemma ValidationDescriptionDecodes(lineNumber: int, fs: seq<ValidationFailure>)
    requires |fs| > 0
    requires forall i :: 0 <= i < |fs| ==> ';' !in RenderFailure(fs[i])
    ensures var d := FromValidation(lineNumber, Some(fs)).value.description;
      Split(';', d[|ValidationPrefix|..]) == RenderFailures(fs)
  {
    var d := FromValidation(lineNumber, Some(fs)).value.description;
    assert d[|ValidationPrefix|..] == Join(';', RenderFailures(fs));
    SplitJoin(';', RenderFailures(fs));
  }

  /** One report line: the line number, '|', the description. */
  function Serialize(row: OutcomeRow): string {
    IntToString(row.lineNumber) + [Delimiter] + row.description
  }

  /** Reads one report line: exactly two fields, the first an integer. */
  function ParseLine(text: string): Option<OutcomeRow> {
    var fields := Split(Delimiter, text);
    if |fields| != 2 then None
    else match ParseInt(fields[0])
      case None => None
      case Some(n) => Some(OutcomeRow(n, fields[1]))
  }

  /** A description the two-field format can carry. */
  predicate Writable(row: OutcomeRow) {
    Delimiter !in row.description && '\n' !in row.description
  }

  lemma LineRoundTrip(row: OutcomeRow)
    requires Delimiter !in row.description
    ensures ParseLine(Serialize(row)) == Some(row)
  {
    var number := IntToString(row.lineNumber);
    assert Delimiter !in number by {
      forall i | 0 <= i < |number| ensures number[i] != Delimiter {
        assert IsDigit(number[i]) || number[i] == '-';
      }
    }
    SplitField(Delimiter, number, row.description);
    SplitPrefix(Delimiter, row.description, "");
    assert row.description + "" == row.description;
    IntRoundTrip(row.lineNumber);
  }

  /** The report file: one serialized row per line, each ending in a newline. */
  function RenderReport(rows: seq<OutcomeRow>): string
    decreases |rows|
  {
    if |rows| == 0 then "" else Serialize(rows[0]) + "\n" + RenderReport(rows[1..])
  }

  /** Reads report lines, skipping empty ones; `None` if any line is malformed. */
  function ParseLines(lines: seq<string>): Option<seq<OutcomeRow>>
    decreases |lines|
  {
    if |lines| == 0 then Some([])
    else if |lines[0]| == 0 then ParseLines(lines[1..])
    else match (ParseLine(lines[0]), ParseLines(lines[1..]))
      case (Some(row), Some(rest)) => Some([row] + rest)
      case _ => None
  }

  function ReadReport(text: string): Option<seq<OutcomeRow>> {
    ParseLines(Split('\n', text))
  }

  /** Reading a written report gives back the rows, in order, when every
      description avoids the delimiter and the line break. */
  lemma {:induction false} ReportRoundTrip(rows: seq<OutcomeRow>)
    requires forall i :: 0 <= i < |rows| ==> Writable(rows[i])
    ensures ReadReport(RenderReport(rows)) == Some(rows)
    decreases |rows|
  {
    if |rows| > 0 {
      var line := Serialize(rows[0]);
      var number := IntToString(rows[0].lineNumber);
      assert '\n' !in number by {
        forall i | 0 <= i < |number| ensures number[i] != '\n' {
          assert IsDigit(number[i]) || number[i] == '-';
        }
      }
      assert '\n' !in line;
      assert |line| > 0;
      SplitField('\n', line, RenderReport(rows[1..]));
      assert RenderReport(rows) == line + ['\n'] + RenderReport(rows[1..]);
      ReportRoundTrip(rows[1..]);
      LineRoundTrip(rows[0]);
      var lines := [line] + Split('\n', RenderReport(rows[1..]));
      assert Split('\n', RenderReport(rows)) == lines;
      assert lines[0] == line && lines[1..] == Split('\n', RenderReport(rows[1..]));
      assert ParseLines(lines) == Some([rows[0]] + rows[1..]);
      assert [rows[0]] + rows[1..] == rows;
    }
  }
}
