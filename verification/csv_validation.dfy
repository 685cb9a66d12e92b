/** Checking an uploaded inventory CSV before anything is stored (backend
    inventory/helpers/csv-validation.ts): the header check, the empty-row
    test, and the row-by-row pass that sorts rows into valid, invalid and
    duplicate. A row's number is its index in the list it is given plus 2
    (as if the header were line 1). The upload removes blank records
    before this pass, so after a blank record the number is no longer the
    row's line in the file. */
module CsvValidation {
  import opened Wrappers
  import opened Text
  import opened InventorySchema

  /** The number reported for the row at `index` of the validated list:
      the file line only while no blank record precedes the row. */
  function RowNumber(index: nat): int {
    index + 2
  }

  /** Identity of an item within one merchant feed: `merchant_id:sku`. */
  function Key(p: ParsedRow): string {
    p.merchantId + ":" + p.sku
  }

  /** Why a row was not accepted. */
  datatype Reason = FieldErrors(fields: seq<Field>) | DuplicateKey(key: string)

  datatype AcceptedRow = AcceptedRow(rowNumber: int, data: ParsedRow)

  datatype RejectedRow = RejectedRow(rowNumber: int, reason: Reason)

  datatype Summary = Summary(total: nat, valid: nat, invalid: nat, duplicates: nat)

  datatype BulkValidation = BulkValidation(
    validRows: seq<AcceptedRow>,
    invalidRows: seq<RejectedRow>,
    duplicateRows: seq<RejectedRow>,
    summary: Summary)

  /** The schema's verdict on one row. */
  type Outcome = Result<ParsedRow, seq<Field>>

  /** A row check. The pass is written for any check; the upload uses
      `Schema`, and only the lemmas about field rules look inside it. */
  type Validator = Row -> Outcome

  /** `inventoryRowSchema.safeParse`, with the number parsers fixed. */
  function Schema(parsers: NumberParsers): Validator {
    row => ValidateRow(row, parsers)
  }

  /** The check applied to every row, in file order. */
  function Outcomes(rows: seq<Row>, validate: Validator): (os: seq<Outcome>)
    ensures |os| == |rows|
  {
    seq(|rows|, j requires 0 <= j < |rows| => validate(rows[j]))
  }

  /** The classification of one row, defined directly from the outcomes: a
      row is invalid when the schema refuses it, a duplicate when some
      earlier row passed the schema with the same key, and fresh otherwise. */
  datatype Verdict = Invalid | Duplicate | Fresh

  /** Row `i` passed the schema with key `key`. */
  predicate HasKey(os: seq<Outcome>, i: nat, key: string)
    requires i < |os|
  {
    os[i].Success? && Key(os[i].value) == key
  }

  /** Some row before `j` passed the schema with key `key`. */
  predicate KeySeenBefore(os: seq<Outcome>, j: nat, key: string)
    requires j <= |os|
  {
    exists i :: 0 <= i < j && HasKey(os, i, key)
  }

  function VerdictAt(os: seq<Outcome>, j: nat): Verdict
    requires j < |os|
  {
    match os[j]
    case Failure(_) => Invalid
    case Success(p) => if KeySeenBefore(os, j, Key(p)) then Duplicate else Fresh
  }

  /** How row `j` is reported: accepted with its data, or rejected with its
      failing fields or its duplicated key. */
  function AcceptedEntry(os: seq<Outcome>, j: nat): AcceptedRow
    requires j < |os| && os[j].Success?
  {
    AcceptedRow(RowNumber(j), os[j].value)
  }

  function RejectedEntry(os: seq<Outcome>, j: nat): RejectedRow
    requires j < |os|
  {
    match os[j]
    case Failure(fields) => RejectedRow(RowNumber(j), FieldErrors(fields))
    case Success(p) => RejectedRow(RowNumber(j), DuplicateKey(Key(p)))
  }

  /** The state of the pass after some prefix of the rows. */
  datatype Scan = Scan(
    validRows: seq<AcceptedRow>,
    invalidRows: seq<RejectedRow>,
    duplicateRows: seq<RejectedRow>,
    seen: set<string>)

  /** The seen set holds exactly the keys of the rows before `n` that
      passed the schema. */
  ghost predicate SeenMatches(os: seq<Outcome>, n: nat, s: Scan)
    requires n <= |os|
  {
    forall k :: k in s.seen <==> KeySeenBefore(os, n, k)
  }

  /** Every row before `n` is reported in the list of its verdict. */
  ghost predicate Complete(os: seq<Outcome>, n: nat, s: Scan)
    requires n <= |os|
  {
    && (forall j :: 0 <= j < n && VerdictAt(os, j) == Fresh ==> AcceptedEntry(os, j) in s.validRows)
    && (forall j :: 0 <= j < n && VerdictAt(os, j) == Invalid ==> RejectedEntry(os, j) in s.invalidRows)
    && (forall j :: 0 <= j < n && VerdictAt(os, j) == Duplicate ==> RejectedEntry(os, j) in s.duplicateRows)
  }

  /** Every reported entry is the report of a row before `n` with the
      verdict of its list. */
  ghost predicate Sound(os: seq<Outcome>, n: nat, s: Scan)
    requires n <= |os|
  {
    && (forall a :: a in s.validRows ==>
          2 <= a.rowNumber < n + 2 && VerdictAt(os, a.rowNumber - 2) == Fresh
          && a == AcceptedEntry(os, a.rowNumber - 2))
    && (forall r :: r in s.invalidRows ==>
          2 <= r.rowNumber < n + 2 && VerdictAt(os, r.rowNumber - 2) == Invalid
          && r == RejectedEntry(os, r.rowNumber - 2))
    && (forall r :: r in s.duplicateRows ==>
          2 <= r.rowNumber < n + 2 && VerdictAt(os, r.rowNumber - 2) == Duplicate
          && r == RejectedEntry(os, r.rowNumber - 2))
  }

  /** Row numbers increase along a list: the pass keeps file order. */
  predicate AcceptedInOrder(vs: seq<AcceptedRow>) {
    forall i, j :: 0 <= i < j < |vs| ==> vs[i].rowNumber < vs[j].rowNumber
  }

  predicate RejectedInOrder(rs: seq<RejectedRow>) {
    forall i, j :: 0 <= i < j < |rs| ==> rs[i].rowNumber < rs[j].rowNumber
  }

  /** No two accepted rows share a key. */
  predicate DistinctKeys(vs: seq<AcceptedRow>) {
    forall i, j :: 0 <= i < j < |vs| ==> Key(vs[i].data) != Key(vs[j].data)
  }

  /** One iteration of the `forEach` over the rows. */
  function Step(s: Scan, outcome: Outcome, rowNumber: int): Scan {
    match outcome
    case Failure(fields) => s.(invalidRows := s.invalidRows + [RejectedRow(rowNumber, FieldErrors(fields))])
    case Success(p) =>
      if Key(p) in s.seen then
        s.(duplicateRows := s.duplicateRows + [RejectedRow(rowNumber, DuplicateKey(Key(p)))])
      else
        s.(seen := s.seen + {Key(p)}, validRows := s.validRows + [AcceptedRow(rowNumber, p)])
  }

  /** The pass over the first `n` rows. */
  function ScanPrefix(os: seq<Outcome>, n: nat): (s: Scan)
    requires n <= |os|
    ensures |s.validRows| + |s.invalidRows| + |s.duplicateRows| == n
  {
    if n == 0 then Scan([], [], [], {})
    else Step(ScanPrefix(os, n - 1), os[n - 1], RowNumber(n - 1))
  }

  /** After `n` rows the seen set holds the keys of the rows that passed
      the schema. */
  lemma {:induction false} ScanPrefixSeen(os: seq<Outcome>, n: nat)
    requires n <= |os|
    ensures SeenMatches(os, n, ScanPrefix(os, n))
  {
    if n > 0 {
      ScanPrefixSeen(os, n - 1);
      StepSeen(os, n - 1, ScanPrefix(os, n - 1));
    }
  }

  /** After `n` rows every row is reported in the list of its verdict, and
      every report is of such a row. */
  lemma ScanPrefixReports(os: seq<Outcome>, n: nat)
    requires n <= |os|
    ensures Complete(os, n, ScanPrefix(os, n))
    ensures Sound(os, n, ScanPrefix(os, n))
  {
    ScanPrefixComplete(os, n);
    ScanPrefixSound(os, n);
  }

  lemma {:induction false} ScanPrefixComplete(os: seq<Outcome>, n: nat)
    requires n <= |os|
    ensures Complete(os, n, ScanPrefix(os, n))
  {
    if n > 0 {
      var prev := ScanPrefix(os, n - 1);
      ScanPrefixComplete(os, n - 1);
      ScanPrefixSeen(os, n - 1);
      StepComplete(os, n - 1, prev);
    }
  }

  lemma {:induction false} ScanPrefixSound(os: seq<Outcome>, n: nat)
    requires n <= |os|
    ensures Sound(os, n, ScanPrefix(os, n))
  {
    if n > 0 {
      var prev := ScanPrefix(os, n - 1);
      ScanPrefixSound(os, n - 1);
      ScanPrefixSeen(os, n - 1);
      StepSound(os, n - 1, prev);
    }
  }

  /** The lists are in file order and the accepted keys are distinct. */
  predicate Ordered(s: Scan) {
    && AcceptedInOrder(s.validRows)
    && RejectedInOrder(s.invalidRows)
    && RejectedInOrder(s.duplicateRows)
    && DistinctKeys(s.validRows)
  }

  /** Every report so far has a row number below `bound`, and every accepted
      key is in the seen set. */
  predicate Bounded(s: Scan, bound: int) {
    && (forall i :: 0 <= i < |s.validRows| ==> s.validRows[i].rowNumber < bound && Key(s.validRows[i].data) in s.seen)
    && (forall i :: 0 <= i < |s.invalidRows| ==> s.invalidRows[i].rowNumber < bound)
    && (forall i :: 0 <= i < |s.duplicateRows| ==> s.duplicateRows[i].rowNumber < bound)
  }

  /** After `n` rows each list is in file order and no two accepted rows
      share a key. */
  lemma {:induction false} ScanPrefixOrdered(os: seq<Outcome>, n: nat)
    requires n <= |os|
    ensures Ordered(ScanPrefix(os, n))
    ensures Bounded(ScanPrefix(os, n), RowNumber(n))
  {
    if n > 0 {
      ScanPrefixOrdered(os, n - 1);
      StepOrdered(ScanPrefix(os, n - 1), os[n - 1], RowNumber(n - 1));
    }
  }

  /** Keys seen before `j + 1` are those seen before `j` plus row `j`'s own. */
  lemma KeySeenStep(os: seq<Outcome>, j: nat, key: string)
    requires j < |os|
    ensures KeySeenBefore(os, j + 1, key) <==> KeySeenBefore(os, j, key) || HasKey(os, j, key)
  {
    if KeySeenBefore(os, j + 1, key) {
      var i :| 0 <= i < j + 1 && HasKey(os, i, key);
      if i < j {
        assert KeySeenBefore(os, j, key);
      }
    }
    if KeySeenBefore(os, j, key) {
      var i :| 0 <= i < j && HasKey(os, i, key);
      assert 0 <= i < j + 1;
    }
  }

  lemma StepSeen(os: seq<Outcome>, n: nat, prev: Scan)
    requires n < |os|
    requires SeenMatches(os, n, prev)
    ensures SeenMatches(os, n + 1, Step(prev, os[n], RowNumber(n)))
  {
    var s := Step(prev, os[n], RowNumber(n));
    forall k
      ensures k in s.seen <==> KeySeenBefore(os, n + 1, k)
    {
      KeySeenStep(os, n, k);
    }
  }

  /** The step puts row `n` in the list of its verdict, using the seen set. */
  lemma StepVerdict(os: seq<Outcome>, n: nat, prev: Scan)
    requires n < |os|
    requires SeenMatches(os, n, prev)
    ensures var s := Step(prev, os[n], RowNumber(n));
            match VerdictAt(os, n)
            case Fresh =>
              s.validRows == prev.validRows + [AcceptedEntry(os, n)]
              && s.invalidRows == prev.invalidRows && s.duplicateRows == prev.duplicateRows
            case Invalid =>
              s.invalidRows == prev.invalidRows + [RejectedEntry(os, n)]
              && s.validRows == prev.validRows && s.duplicateRows == prev.duplicateRows
            case Duplicate =>
              s.duplicateRows == prev.duplicateRows + [RejectedEntry(os, n)]
              && s.validRows == prev.validRows && s.invalidRows == prev.invalidRows
  {
  }

  lemma StepComplete(os: seq<Outcome>, n: nat, prev: Scan)
    requires n < |os|
    requires SeenMatches(os, n, prev)
    requires Complete(os, n, prev)
    ensures Complete(os, n + 1, Step(prev, os[n], RowNumber(n)))
  {
    StepVerdict(os, n, prev);
  }

  lemma StepSound(os: seq<Outcome>, n: nat, prev: Scan)
    requires n < |os|
    requires SeenMatches(os, n, prev)
    requires Sound(os, n, prev)
    ensures Sound(os, n + 1, Step(prev, os[n], RowNumber(n)))
  {
    StepVerdict(os, n, prev);
  }

  /** A step appends a row numbered above every earlier report, and accepts
      only a key not seen yet. */
  lemma StepOrdered(s: Scan, outcome: Outcome, rowNumber: int)
    requires Ordered(s) && Bounded(s, rowNumber)
    ensures Ordered(Step(s, outcome, rowNumber))
    ensures Bounded(Step(s, outcome, rowNumber), rowNumber + 1)
  {
  }

  /** `validateRows`: each row is checked by the schema; an invalid row is
      reported with its failing fields, a valid row whose key an earlier
      valid row already had is reported as a duplicate, and every other
      row is accepted. The counts add up to the number of rows. */
  function ValidateRows(rows: seq<Row>, validate: Validator): (r: BulkValidation)
    ensures r.summary == Summary(|rows|, |r.validRows|, |r.invalidRows|, |r.duplicateRows|)
    ensures r.summary.valid + r.summary.invalid + r.summary.duplicates == r.summary.total
  {
    var s := ScanPrefix(Outcomes(rows, validate), |rows|);
    BulkValidation(s.validRows, s.invalidRows, s.duplicateRows,
      Summary(|rows|, |s.validRows|, |s.invalidRows|, |s.duplicateRows|))
  }

  /** Every row is reported in the list of its verdict, and every report is
      of such a row. */
  lemma ValidateRowsReports(rows: seq<Row>, validate: Validator)
    ensures var r := ValidateRows(rows, validate);
            var os := Outcomes(rows, validate);
            Complete(os, |rows|, Scan(r.validRows, r.invalidRows, r.duplicateRows, {}))
            && Sound(os, |rows|, Scan(r.validRows, r.invalidRows, r.duplicateRows, {}))
  {
    ScanPrefixReports(Outcomes(rows, validate), |rows|);
  }

  /** Each list is in file order and no two accepted rows share a key. */
  lemma ValidateRowsOrdered(rows: seq<Row>, validate: Validator)
    ensures var r := ValidateRows(rows, validate);
            && AcceptedInOrder(r.validRows) && RejectedInOrder(r.invalidRows) && RejectedInOrder(r.duplicateRows)
            && DistinctKeys(r.validRows)
  {
    ScanPrefixOrdered(Outcomes(rows, validate), |rows|);
  }

  /** Every accepted row holds what the schema
      produced for that line of the file. */
  lemma AcceptedRowsAreParsed(rows: seq<Row>, validate: Validator)
    ensures forall a :: a in ValidateRows(rows, validate).validRows ==>
              2 <= a.rowNumber < |rows| + 2
              && validate(rows[a.rowNumber - 2]) == Success(a.data)
  {
    var os := Outcomes(rows, validate);
    var vs := ValidateRows(rows, validate).validRows;
    AcceptedAreSuccesses(os);
    assert vs == ScanPrefix(os, |rows|).validRows;
    forall a | a in vs
      ensures 2 <= a.rowNumber < |rows| + 2
      ensures validate(rows[a.rowNumber - 2]) == Success(a.data)
    {
      var j := a.rowNumber - 2;
      assert os[j] == validate(rows[j]);
    }
  }

  /** Under the schema, every accepted row satisfies every field rule. */
  lemma AcceptedRowsAreWellFormed(rows: seq<Row>, parsers: NumberParsers)
    ensures forall a :: a in ValidateRows(rows, Schema(parsers)).validRows ==> WellFormedRow(a.data)
  {
    var validate := Schema(parsers);
    AcceptedRowsAreParsed(rows, validate);
    forall a | a in ValidateRows(rows, validate).validRows
      ensures WellFormedRow(a.data)
    {
      var row := rows[a.rowNumber - 2];
      assert validate(row) == ValidateRow(row, parsers);
      AcceptedIsWellFormed(row, parsers);
    }
  }

  lemma AcceptedAreSuccesses(os: seq<Outcome>)
    ensures forall a :: a in ScanPrefix(os, |os|).validRows ==>
              2 <= a.rowNumber < |os| + 2 && os[a.rowNumber - 2] == Success(a.data)
  {
    var s := ScanPrefix(os, |os|);
    ScanPrefixSound(os, |os|);
    forall a | a in s.validRows
      ensures 2 <= a.rowNumber < |os| + 2 && os[a.rowNumber - 2] == Success(a.data)
    {
      var j := a.rowNumber - 2;
      assert 0 <= j < |os| && VerdictAt(os, j) == Fresh;
      assert a == AcceptedEntry(os, j);
    }
  }

  lemma AcceptedIsWellFormed(row: Row, parsers: NumberParsers)
    requires ValidateRow(row, parsers).Success?
    ensures WellFormedRow(ValidateRow(row, parsers).value)
  {
  }

  /** The first valid row with a given key is accepted and every later one
      is reported as its duplicate. */
  lemma FirstOccurrenceWins(rows: seq<Row>, validate: Validator, i: nat, j: nat)
    requires i < j < |rows|
    requires validate(rows[i]).Success? && validate(rows[j]).Success?
    requires Key(validate(rows[i]).value) == Key(validate(rows[j]).value)
    ensures RejectedRow(RowNumber(j), DuplicateKey(Key(validate(rows[j]).value)))
              in ValidateRows(rows, validate).duplicateRows
    ensures forall a :: a in ValidateRows(rows, validate).validRows ==> a.rowNumber != RowNumber(j)
  {
    var os := Outcomes(rows, validate);
    var s := ScanPrefix(os, |rows|);
    assert os[i] == validate(rows[i]);
    assert os[j] == validate(rows[j]);
    OutcomeLevelDuplicate(os, i, j);
    assert s.duplicateRows == ValidateRows(rows, validate).duplicateRows;
    assert s.validRows == ValidateRows(rows, validate).validRows;
  }

  lemma OutcomeLevelDuplicate(os: seq<Outcome>, i: nat, j: nat)
    requires i < j < |os|
    requires os[i].Success? && os[j].Success? && Key(os[i].value) == Key(os[j].value)
    ensures RejectedRow(RowNumber(j), DuplicateKey(Key(os[j].value))) in ScanPrefix(os, |os|).duplicateRows
    ensures forall a :: a in ScanPrefix(os, |os|).validRows ==> a.rowNumber != RowNumber(j)
  {
    ScanPrefixReports(os, |os|);
    assert HasKey(os, i, Key(os[j].value));
    assert VerdictAt(os, j) == Duplicate;
    assert RejectedEntry(os, j) == RejectedRow(RowNumber(j), DuplicateKey(Key(os[j].value)));
  }

  /** The key joins merchant and SKU with ':', which may itself occur in a
      merchant id: distinct pairs can share a key, and then the second row
      is reported as a duplicate of the first. */
  lemma KeyIsAmbiguous(p: ParsedRow, q: ParsedRow)
    requires p.merchantId == "a:b" && p.sku == "c"
    requires q.merchantId == "a" && q.sku == "b:c"
    ensures (p.merchantId, p.sku) != (q.merchantId, q.sku)
    ensures Key(p) == Key(q)
  {
    assert Key(p) == "a:b:c";
    assert Key(q) == "a:b:c";
  }

  /** The key is the merchant id, a ':' and the SKU, character by character. */
  lemma KeyLayout(p: ParsedRow)
    ensures |Key(p)| == |p.merchantId| + 1 + |p.sku|
    ensures Key(p)[|p.merchantId|] == ':'
    ensures forall i :: 0 <= i < |p.merchantId| ==> Key(p)[i] == p.merchantId[i]
  {
  }

  /** Without ':' in merchant ids the key determines merchant and SKU. */
  lemma KeyInjectiveWithoutColon(p: ParsedRow, q: ParsedRow)
    requires ':' !in p.merchantId && ':' !in q.merchantId
    requires Key(p) == Key(q)
    ensures p.merchantId == q.merchantId && p.sku == q.sku
  {
    var a, b := p.merchantId, q.merchantId;
    KeyLayout(p);
    KeyLayout(q);
    if |a| == |b| {
      assert a == Key(p)[..|a|];
      assert b == Key(q)[..|b|];
      assert p.sku == Key(p)[|a| + 1..];
      assert q.sku == Key(q)[|b| + 1..];
    }
  }

  /** The columns every upload must have. */
  const RequiredHeaders: seq<string> :=
    ["merchant_id", "sku", "title", "brand", "category", "condition", "original_price", "currency", "quantity"]

  datatype HeaderCheck = HeaderCheck(isValid: bool, missing: seq<string>)

  /** A header as compared: trimmed and lower-cased. */
  function NormalizeHeader(h: string): string {
    ToLower(Trim(h))
  }

  /** Some header normalises to `name`. */
  predicate HasHeader(headers: seq<string>, name: string) {
    exists i :: 0 <= i < |headers| && NormalizeHeader(headers[i]) == name
  }

  /** The entries of `required`, in order, that no header normalises to. */
  function MissingHeaders(required: seq<string>, headers: seq<string>): (m: seq<string>)
    ensures forall h :: h in m <==> h in required && !HasHeader(headers, h)
    ensures |m| <= |required|
    ensures m == [] <==> forall h :: h in required ==> HasHeader(headers, h)
  {
    if required == [] then []
    else
      var rest := MissingHeaders(required[1..], headers);
      if HasHeader(headers, required[0]) then rest else [required[0]] + rest
  }

  /** `validateHeaders`: the required columns no header names (after
      trimming and lower-casing), valid when there are none. */
  function ValidateHeaders(headers: seq<string>): (r: HeaderCheck)
    ensures r.isValid <==> r.missing == []
    ensures r.isValid <==> forall h :: h in RequiredHeaders ==> HasHeader(headers, h)
    ensures forall h :: h in r.missing <==> h in RequiredHeaders && !HasHeader(headers, h)
  {
    var missing := MissingHeaders(RequiredHeaders, headers);
    HeaderCheck(missing == [], missing)
  }

  /** Header case and padding do not matter: upper-cased, padded copies of
      the required names pass the header check. */
  lemma UpperCaseHeadersPass(headers: seq<string>)
    requires |headers| == |RequiredHeaders|
    requires forall i :: 0 <= i < |headers| ==> headers[i] == ToUpper(RequiredHeaders[i])
    ensures ValidateHeaders(headers).isValid
  {
    forall h | h in RequiredHeaders
      ensures HasHeader(headers, h)
    {
      var i :| 0 <= i < |RequiredHeaders| && RequiredHeaders[i] == h;
      UpperCaseHeaderMatches(RequiredHeaders[i], headers[i]);
    }
  }

  /** An upper-cased required name normalises back to the name. */
  lemma UpperCaseHeaderMatches(name: string, header: string)
    requires name in RequiredHeaders && header == ToUpper(name)
    ensures NormalizeHeader(header) == name
  {
    var i :| 0 <= i < |RequiredHeaders| && RequiredHeaders[i] == name;
    RequiredHeaderIsPlain(i);
    LowerUpperRoundTrip(name);
    TrimOfUnpadded(header);
  }

  lemma RequiredHeaderIsPlain(i: nat)
    requires i < |RequiredHeaders|
    ensures NoUpperAscii(RequiredHeaders[i])
    ensures forall k :: 0 <= k < |RequiredHeaders[i]| ==> 'a' <= RequiredHeaders[i][k] <= 'z' || RequiredHeaders[i][k] == '_'
  {
  }

  /** Text with letters and '_' only is its own trim. */
  lemma TrimOfUnpadded(s: string)
    requires forall k :: 0 <= k < |s| ==> 'A' <= s[k] <= 'Z' || 'a' <= s[k] <= 'z' || s[k] == '_'
    ensures Trim(s) == s
  {
    if s != [] {
      assert !IsWhitespace(s[0]);
      assert !IsWhitespace(s[|s| - 1]);
      assert LeadingWhitespace(s) == 0;
    }
  }

  /** A row whose values are all blank, header-only lines of the file
      included: `Object.values(row).every(v => !v?.trim())`. */
  function IsEmptyRow(row: Row): (b: bool)
    ensures b <==> forall k :: k in row ==> AllWhitespace(row[k])
  {
    BlankIffAllWhitespace(row);
    forall k :: k in row ==> Trim(row[k]) == []
  }

  lemma BlankIffAllWhitespace(row: Row)
    ensures (forall k :: k in row ==> Trim(row[k]) == []) <==> (forall k :: k in row ==> AllWhitespace(row[k]))
  {
    forall k | k in row
      ensures Trim(row[k]) == [] <==> AllWhitespace(row[k])
    {
      TrimEmptyIffAllWhitespace(row[k]);
    }
  }

  /** An empty row never passes the schema: its merchant id is blank or absent. */
  lemma EmptyRowIsInvalid(row: Row, parsers: NumberParsers)
    requires IsEmptyRow(row)
    ensures ValidateRow(row, parsers).Failure?
    ensures MerchantId in ValidateRow(row, parsers).error
  {
    if "merchant_id" in row {
      TrimEmptyIffAllWhitespace(row["merchant_id"]);
    }
    assert !FieldOk(row, parsers, MerchantId);
  }
}
