/**
  The second-generation WILLI2 parser skeleton: a mandatory header line, a
  CSV body read record by record, a split of the type column into type
  letters and id, and per-record line errors. A CSV-level error aborts the
  whole parse; a record type whose handler is still `todo!()` panics.

  The CSV tokenizer is a parameter that turns the body text into rows. The
  reader is built with its defaults: its first row is taken as the column
  header and never reaches `parse_record`, and since it is not flexible,
  every later row must have as many fields as that first one.
*/
module WilliDocument {
  import opened Wrappers
  import opened Strings
  import opened WilliHeader

  /** The `DocumentError` variants that `parse` produces. */
  datatype DocumentError = MissingHeader | InvalidHeader | Csv

  datatype LineError = MissingType | BadId

  //// The type column ////

  /**
    The type-column split as written: `split_once` at the first non-alphabetic
    character, which drops that character, then the rest must parse as a
    `usize`; a column of letters only is the type with id 0.
  */
  function SplitTypeIdAsWritten(col: string): (r: Result<(string, nat), LineError>)
    ensures FirstNonAlphabetic(col) == |col| ==> r == Ok((col, 0))
    ensures var i := FirstNonAlphabetic(col);
      i < |col| ==>
        (r.Err? <==> ParseUsize(col[i + 1..]).None?)
        && (r.Err? ==> r.error == BadId)
        && (r.Ok? ==> r.value == (col[..i], ParseUsize(col[i + 1..]).value))
  {
    var i := FirstNonAlphabetic(col);
    if i == |col| then Ok((col, 0))
    else match ParseUsize(col[i + 1..])
      case None => Err(BadId)
      case Some(id) => Ok((col[..i], id))
  }

  /**
    The split as written loses the first digit of the id: "F12" gives id 2,
    and a one-digit id such as "F5" is rejected as a bad id.
  */
  lemma AsWrittenDropsFirstDigit()
    ensures SplitTypeIdAsWritten("F12") == Ok(("F", 2))
    ensures SplitTypeIdAsWritten("F5") == Err(BadId)
  {
    assert FirstNonAlphabetic("F12") == 1 by { assert !IsAlphabetic('1'); }
    assert "F12"[2..] == "2" == DecimalString(2);
    ParseDecimalString(2);
    assert "F12"[..1] == "F";
    assert FirstNonAlphabetic("F5") == 1;
    assert "F5"[2..] == "";
  }

  /** As written, an id survives only behind one separator character: "F 3" is type F with id 3. */
  lemma AsWrittenSkipsSeparator(typ: string, sep: char, id: nat)
    requires forall j :: 0 <= j < |typ| ==> IsAlphabetic(typ[j])
    requires !IsAlphabetic(sep) && id <= USIZE_MAX
    ensures SplitTypeIdAsWritten(typ + [sep] + DecimalString(id)) == Ok((typ, id))
  {
    var col := typ + [sep] + DecimalString(id);
    assert forall j :: 0 <= j < |typ| ==> col[j] == typ[j];
    assert col[|typ|] == sep;
    assert FirstNonAlphabetic(col) == |typ|;
    assert col[..|typ|] == typ && col[|typ| + 1..] == DecimalString(id);
    ParseDecimalString(id);
  }

  /** Every one-digit id is rejected by the split as written. */
  lemma AsWrittenRejectsOneDigitIds(typ: string, id: nat)
    requires forall j :: 0 <= j < |typ| ==> IsAlphabetic(typ[j])
    requires id < 10
    ensures SplitTypeIdAsWritten(typ + DecimalString(id)) == Err(BadId)
  {
    var col := typ + DecimalString(id);
    assert forall j :: 0 <= j < |typ| ==> col[j] == typ[j];
    assert !IsAlphabetic(col[|typ|]);
    assert FirstNonAlphabetic(col) == |typ|;
    assert col[|typ| + 1..] == [];
  }

  /**
    The type-column split as intended: the type letters are the longest
    alphabetic prefix and the id is everything after them, which must parse as
    a `usize`; a column of letters only is the type with id 0.
  */
  function SplitTypeId(col: string): (r: Result<(string, nat), LineError>)
    ensures r.Ok? ==> forall j :: 0 <= j < |r.value.0| ==> IsAlphabetic(r.value.0[j])
    ensures r.Ok? ==> |r.value.0| <= |col| && col[..|r.value.0|] == r.value.0
    ensures r.Ok? && |r.value.0| < |col| ==>
      !IsAlphabetic(col[|r.value.0|]) && ParseUsize(col[|r.value.0|..]) == Some(r.value.1)
    ensures r.Ok? && |r.value.0| == |col| ==> r.value.1 == 0
    ensures r.Err? ==> r.error == BadId && ParseUsize(col[FirstNonAlphabetic(col)..]).None?
  {
    var i := FirstNonAlphabetic(col);
    if i == |col| then Ok((col, 0))
    else match ParseUsize(col[i..])
      case None => Err(BadId)
      case Some(id) => Ok((col[..i], id))
  }

  /** Type letters followed by a printed id split back into the two. */
  lemma SplitTypeIdRoundTrip(typ: string, id: nat)
    requires forall j :: 0 <= j < |typ| ==> IsAlphabetic(typ[j])
    requires id <= USIZE_MAX
    ensures SplitTypeId(typ + DecimalString(id)) == Ok((typ, id))
  {
    var col := typ + DecimalString(id);
    assert forall j :: 0 <= j < |typ| ==> col[j] == typ[j];
    assert !IsAlphabetic(col[|typ|]);
    assert FirstNonAlphabetic(col) == |typ|;
    assert col[..|typ|] == typ && col[|typ|..] == DecimalString(id);
    ParseDecimalString(id);
  }

  /** A column of letters only is a type without id. */
  lemma SplitTypeIdLettersOnly(col: string)
    requires forall j :: 0 <= j < |col| ==> IsAlphabetic(col[j])
    ensures SplitTypeId(col) == Ok((col, 0))
  {
  }

  //// Records ////

  /** Record types that `parse_record` recognises but whose handling is still `todo!()`. */
  const PendingTypes: set<string> := {
    "W", "WP", "T", "S", "MP", "L", "LB", "R", "G", "F", "K",
    "X", "O", "Z", "A", "AV", "J", "U", "PL", "PLS", "PKS", "PRS"}

  /**
    What `parse_record` does with one record: accept it, reject it with a line
    error, or panic in a `todo!()` arm.
  */
  datatype RecordOutcome = Accepted | Rejected(error: LineError) | Unimplemented

  /**
    `parse_record`: the type column is the second field; a record without it
    is a `MissingType` error, a bad id a `BadId` error, a pending type panics
    and any other type is accepted with only a warning. The type column is
    split as written, so the id loses its first character.
  */
  function ParseRecord(fields: seq<string>): (r: RecordOutcome)
    ensures r == Rejected(MissingType) <==> |fields| < 2
    ensures r == Rejected(BadId) <==> |fields| >= 2 && SplitTypeIdAsWritten(fields[1]).Err?
    ensures r.Unimplemented? <==>
      (|fields| >= 2 && SplitTypeIdAsWritten(fields[1]).Ok? && SplitTypeIdAsWritten(fields[1]).value.0 in PendingTypes)
    ensures r.Accepted? <==>
      (|fields| >= 2 && SplitTypeIdAsWritten(fields[1]).Ok? && SplitTypeIdAsWritten(fields[1]).value.0 !in PendingTypes)
  {
    if |fields| < 2 then Rejected(MissingType)
    else match SplitTypeIdAsWritten(fields[1])
      case Err(e) => Rejected(e)
      case Ok((typ, _)) => if typ in PendingTypes then Unimplemented else Accepted
  }

  /**
    Through the split as written, a pending type with a one-digit id is a line
    error instead of a panic, an unknown one too instead of an accepted record,
    and a pending type whose id follows a space panics.
  */
  lemma RecordsAsWritten()
    ensures ParseRecord(["x", "F5"]) == Rejected(BadId)
    ensures ParseRecord(["x", "Q5"]) == Rejected(BadId)
    ensures ParseRecord(["x", "F 3"]) == Unimplemented
  {
    assert IsAlphabetic('F') && IsAlphabetic('Q');
    AsWrittenRejectsOneDigitIds("F", 5);
    AsWrittenRejectsOneDigitIds("Q", 5);
    assert "F" + DecimalString(5) == "F5" && "Q" + DecimalString(5) == "Q5";
    AsWrittenSkipsSeparator("F", ' ', 3);
    assert "F" + [' '] + DecimalString(3) == "F 3";
  }

  /** A record that ends the parse: a CSV error, or a panic. */
  predicate Stops(rec: CsvRecord) {
    rec.Malformed? || ParseRecord(rec.fields).Unimplemented?
  }

  /** The index of the first record that ends the parse. */
  function FirstStop(records: seq<CsvRecord>): (r: Option<nat>)
    ensures r.Some? ==> r.value < |records| && Stops(records[r.value])
    ensures r.Some? ==> forall j :: 0 <= j < r.value ==> !Stops(records[j])
    ensures r.None? <==> forall j :: 0 <= j < |records| ==> !Stops(records[j])
  {
    if |records| == 0 then None
    else if Stops(records[0]) then Some(0)
    else match FirstStop(records[1..])
      case None => None
      case Some(i) => Some(i + 1)
  }

  /** The rejected records with their errors, in input order. */
  function LineErrors(records: seq<CsvRecord>): seq<(seq<string>, LineError)> {
    if |records| == 0 then []
    else
      var n := |records| - 1;
      match records[n]
      case Record(fields) =>
        if ParseRecord(fields).Rejected? then LineErrors(records[..n]) + [(fields, ParseRecord(fields).error)]
        else LineErrors(records[..n])
      case Malformed => LineErrors(records[..n])
  }

  /**
    The result of a parse: the document's header version with the line errors
    collected on the way, a document error, or a panic.
  */
  datatype Outcome = Parsed(version: nat, lineErrors: seq<(seq<string>, LineError)>)
                   | Failed(error: DocumentError)
                   | Panicked

  /** A row as the reader hands it on: one whose width is not `width` is an `UnequalLengths` error. */
  function WidthChecked(width: nat, row: CsvRecord): (r: CsvRecord)
    ensures r.Record? <==> row.Record? && |row.fields| == width
    ensures r.Record? ==> r == row
  {
    if row.Record? && |row.fields| == width then row else Malformed
  }

  /**
    The records `csv::Reader::from_reader` yields. The first row is read as the
    column names and is not yielded; a CSV error in it is the first error
    yielded. Every later row of another width than the first is an error.
  */
  function BodyRecords(rows: seq<CsvRecord>): (r: seq<CsvRecord>)
    ensures |rows| == 0 ==> r == []
    ensures |rows| > 0 && rows[0].Malformed? ==> r == [Malformed]
    ensures |rows| > 0 && rows[0].Record? ==> |r| == |rows| - 1
    ensures |rows| > 0 && rows[0].Record? ==> forall j :: 0 <= j < |r| ==>
      (r[j].Record? <==> rows[j + 1].Record? && |rows[j + 1].fields| == |rows[0].fields|)
      && (r[j].Record? ==> r[j] == rows[j + 1])
  {
    if |rows| == 0 then []
    else match rows[0]
      case Malformed => [Malformed]
      case Record(names) => seq(|rows| - 1, j requires 0 <= j < |rows| - 1 => WidthChecked(|names|, rows[j + 1]))
  }

  /** The outcome of reading the body records of a document with a recognised header. */
  function RecordsOutcome(version: nat, records: seq<CsvRecord>): Outcome {
    match FirstStop(records)
    case Some(i) => if records[i].Malformed? then Failed(Csv) else Panicked
    case None => Parsed(version, LineErrors(records))
  }

  /** The outcome of `WilliDocument::parse` on `source`. */
  function DocumentOutcome(source: string, tokenize: string -> seq<CsvRecord>): Outcome {
    match SplitOnce(source, "\r\n")
    case None => Failed(MissingHeader)
    case Some((line, body)) =>
      match HeaderVersion(line)
      case None => Failed(InvalidHeader)
      case Some(version) => RecordsOutcome(version, BodyRecords(tokenize(body)))
  }

  /**
    `WilliDocument::parse`: the header line up to the first CRLF is mandatory
    and must be recognised; then every body record is read in order, a
    rejected record adds a line error and reading goes on, and the first CSV
    error or panic ends the parse.
  */
  method Parse(source: string, tokenize: string -> seq<CsvRecord>) returns (r: Outcome)
    ensures r == DocumentOutcome(source, tokenize)
  {
    var split := SplitOnce(source, "\r\n");
    if split.None? {
      return Failed(MissingHeader);
    }
    var (line, body) := split.value;
    var version := HeaderVersion(line);
    if version.None? {
      return Failed(InvalidHeader);
    }
    r := ReadBody(version.value, BodyRecords(tokenize(body)));
  }

  /** The `while let Some(next_record) = records.next()` loop over the body records. */
  method ReadBody(version: nat, records: seq<CsvRecord>) returns (r: Outcome)
    ensures r == RecordsOutcome(version, records)
  {
    var lineErrors: seq<(seq<string>, LineError)> := [];
    var i := 0;
    while i < |records|
      invariant i <= |records|
      invariant forall j :: 0 <= j < i ==> !Stops(records[j])
      invariant lineErrors == LineErrors(records[..i])
    {
      assert records[..i + 1][..i] == records[..i];
      match records[i] {
        case Malformed =>
          return Failed(Csv);
        case Record(fields) =>
          match ParseRecord(fields) {
            case Unimplemented =>
              return Panicked;
            case Rejected(e) =>
              lineErrors := lineErrors + [(fields, e)];
            case Accepted =>
          }
      }
      i := i + 1;
    }
    assert records[..i] == records;
    return Parsed(version, lineErrors);
  }

  //// Properties of the outcome ////

  /** Without a CRLF there is no header line, and the parse fails at once. */
  lemma NoCrlfIsMissingHeader(source: string, tokenize: string -> seq<CsvRecord>)
    requires forall j :: 0 <= j <= |source| ==> !OccursAt(source, "\r\n", j)
    ensures DocumentOutcome(source, tokenize) == Failed(MissingHeader)
  {
  }

  /** A header line that is not recognised fails the parse, whatever the body. */
  lemma BadHeaderIsInvalid(line: string, body: string, tokenize: string -> seq<CsvRecord>)
    requires '\r' !in line && HeaderVersion(line).None?
    ensures DocumentOutcome(line + "\r\n" + body, tokenize) == Failed(InvalidHeader)
  {
    SplitOnceCrlf(line, body);
  }

  /** With a recognised header line, the outcome is decided by the body records alone. */
  lemma GoodHeaderReadsBody(line: string, body: string, tokenize: string -> seq<CsvRecord>)
    requires '\r' !in line && HeaderVersion(line).Some?
    ensures DocumentOutcome(line + "\r\n" + body, tokenize)
      == RecordsOutcome(HeaderVersion(line).value, BodyRecords(tokenize(body)))
  {
    SplitOnceCrlf(line, body);
  }

  /**
    The first row is the CSV column header: given the same later rows, two
    first rows of the same width give the same outcome, so only its width
    matters.
  */
  lemma FirstRowOnlyWidth(version: nat, first: seq<string>, first': seq<string>, rest: seq<CsvRecord>)
    requires |first| == |first'|
    ensures RecordsOutcome(version, BodyRecords([Record(first)] + rest))
      == RecordsOutcome(version, BodyRecords([Record(first')] + rest))
  {
    var a := BodyRecords([Record(first)] + rest);
    var b := BodyRecords([Record(first')] + rest);
    assert |a| == |b|;
    forall j | 0 <= j < |a|
      ensures a[j] == b[j]
    {
      assert ([Record(first)] + rest)[j + 1] == rest[j] == ([Record(first')] + rest)[j + 1];
    }
    assert a == b;
  }

  /** A column-name row that is itself a CSV error aborts the parse. */
  lemma BadFirstRowAborts(version: nat, rest: seq<CsvRecord>)
    ensures RecordsOutcome(version, BodyRecords([Malformed] + rest)) == Failed(Csv)
  {
    assert BodyRecords([Malformed] + rest) == [Malformed];
    assert Stops(Malformed);
  }

  /**
    The reader is not flexible: the first later row whose width differs from
    the column-name row's aborts the parse with a CSV error, unless an earlier
    row panicked.
  */
  lemma WidthMismatchAborts(version: nat, first: seq<string>, rest: seq<CsvRecord>, j: nat)
    requires j < |rest| && rest[j].Record? && |rest[j].fields| != |first|
    requires forall i :: 0 <= i < j ==>
      rest[i].Record? && |rest[i].fields| == |first| && !ParseRecord(rest[i].fields).Unimplemented?
    ensures RecordsOutcome(version, BodyRecords([Record(first)] + rest)) == Failed(Csv)
  {
    var rows := [Record(first)] + rest;
    var records := BodyRecords(rows);
    assert rows[j + 1] == rest[j];
    forall i | 0 <= i < j
      ensures !Stops(records[i])
    {
      assert rows[i + 1] == rest[i];
    }
    CsvErrorAborts(version, records, j);
  }

  /** A rejected record's line error is collected, with its fields. */
  lemma {:induction false} LineErrorCollected(records: seq<CsvRecord>, j: nat)
    requires j < |records| && records[j].Record? && ParseRecord(records[j].fields).Rejected?
    ensures (records[j].fields, ParseRecord(records[j].fields).error) in LineErrors(records)
  {
    var n := |records| - 1;
    if j < n {
      assert records[..n][j] == records[j];
      LineErrorCollected(records[..n], j);
    }
  }

  /** Every collected line error belongs to a rejected record. */
  lemma {:induction false} LineErrorIsRejection(records: seq<CsvRecord>, fields: seq<string>, e: LineError)
    requires (fields, e) in LineErrors(records)
    ensures Record(fields) in records && ParseRecord(fields) == Rejected(e)
  {
    var n := |records| - 1;
    if (fields, e) in LineErrors(records[..n]) {
      LineErrorIsRejection(records[..n], fields, e);
      assert records[..n] <= records;
    }
  }

  /** A parse that completes has seen no CSV error and no pending record type. */
  lemma ParsedMeansClean(version: nat, records: seq<CsvRecord>)
    requires RecordsOutcome(version, records).Parsed?
    ensures forall j :: 0 <= j < |records| ==> records[j].Record? && !ParseRecord(records[j].fields).Unimplemented?
    ensures RecordsOutcome(version, records).version == version
  {
  }

  /** A CSV error aborts the parse unless a pending record type panicked earlier. */
  lemma CsvErrorAborts(version: nat, records: seq<CsvRecord>, j: nat)
    requires j < |records| && records[j].Malformed?
    requires forall i :: 0 <= i < j ==> !Stops(records[i])
    ensures RecordsOutcome(version, records) == Failed(Csv)
  {
    assert Stops(records[j]);
  }
}
