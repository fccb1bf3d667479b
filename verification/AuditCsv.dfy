/** The CSV of the audit export (api/src/routes/audit.ts), and a reader for RFC 4180 section 2 with LF
    line ends and carriage return as ordinary text. */
module AuditCsv {
  import opened Basics

  // ----- The printer -----

  function Doubled(f: string): string {
    if f == "" then "" else (if f[0] == '"' then "\"\"" else [f[0]]) + Doubled(f[1..])
  }

  function EscapeCsvField(f: string): string {
    if ',' in f || '"' in f || '\n' in f then "\"" + Doubled(f) + "\"" else f
  }

  function Join(parts: seq<string>, separator: char): string {
    if parts == [] then "" else if |parts| == 1 then parts[0] else parts[0] + [separator] + Join(parts[1..], separator)
  }

  function Escaped(fields: seq<string>): (r: seq<string>)
    ensures |r| == |fields|
  {
    seq(|fields|, i requires 0 <= i < |fields| => EscapeCsvField(fields[i]))
  }

  function Line(fields: seq<string>): string {
    Join(Escaped(fields), ',')
  }

  function Lines(rows: seq<seq<string>>): (r: seq<string>)
    ensures |r| == |rows|
  {
    seq(|rows|, i requires 0 <= i < |rows| => Line(rows[i]))
  }

  /** `[header, ...rows].join("\n") + "\n"`. */
  function Csv(header: seq<string>, rows: seq<seq<string>>): string {
    Join(Lines([header] + rows), '\n') + "\n"
  }

  // ----- The reader -----

  /** An unquoted field and what follows it; a quote inside is an error. */
  function ReadPlain(s: string): Option<(string, string)> {
    if s == "" || s[0] == ',' || s[0] == '\n' then Some(("", s))
    else if s[0] == '"' then None
    else
      var r := ReadPlain(s[1..]);
      if r.None? then None else Some(([s[0]] + r.value.0, r.value.1))
  }

  /** The rest of a quoted field, after its opening quote. */
  function ReadQuoted(s: string): Option<(string, string)> {
    if s == "" then None
    else if s[0] == '"' then
      if |s| > 1 && s[1] == '"' then
        var r := ReadQuoted(s[2..]);
        if r.None? then None else Some((['"'] + r.value.0, r.value.1))
      else Some(("", s[1..]))
    else
      var r := ReadQuoted(s[1..]);
      if r.None? then None else Some(([s[0]] + r.value.0, r.value.1))
  }

  function ReadField(s: string): Option<(string, string)> {
    if s != "" && s[0] == '"' then ReadQuoted(s[1..]) else ReadPlain(s)
  }

  lemma {:induction false} PlainShrinks(s: string)
    ensures ReadPlain(s).Some? ==> |ReadPlain(s).value.1| <= |s|
  {
    if s != "" {
      PlainShrinks(s[1..]);
    }
  }

  lemma {:induction false} QuotedShrinks(s: string)
    ensures ReadQuoted(s).Some? ==> |ReadQuoted(s).value.1| <= |s|
    decreases |s|
  {
    if s != "" {
      QuotedShrinks(s[1..]);
      if |s| > 1 {
        QuotedShrinks(s[2..]);
      }
    }
  }

  /** One record and the text after its line end. */
  function ReadRecord(s: string): (r: Option<(seq<string>, string)>)
    ensures r.Some? ==> |r.value.1| < |s|
    decreases |s|
  {
    PlainShrinks(s);
    if s != "" then QuotedShrinks(s[1..]); ReadRecordBody(s) else None
  }

  function ReadRecordBody(s: string): (r: Option<(seq<string>, string)>)
    requires s != ""
    requires ReadPlain(s).Some? ==> |ReadPlain(s).value.1| <= |s|
    requires ReadQuoted(s[1..]).Some? ==> |ReadQuoted(s[1..]).value.1| < |s|
    ensures r.Some? ==> |r.value.1| < |s|
    decreases |s|, 0
  {
    var field := ReadField(s);
    if field.None? then None
    else
      var rest := field.value.1;
      if rest == "" then Some(([field.value.0], ""))
      else if rest[0] == '\n' then Some(([field.value.0], rest[1..]))
      else if rest[0] == ',' then
        var more := ReadRecord(rest[1..]);
        if more.None? then None else Some(([field.value.0] + more.value.0, more.value.1))
      else None
  }

  function ReadFile(s: string): Option<seq<seq<string>>>
    decreases |s|
  {
    if s == "" then Some([])
    else
      var record := ReadRecord(s);
      if record.None? then None
      else
        var more := ReadFile(record.value.1);
        if more.None? then None else Some([record.value.0] + more.value)
  }

  // ----- Reading back what was printed -----

  /** Text that can follow a field. */
  predicate EndsField(rest: string) {
    rest != "" && (rest[0] == ',' || rest[0] == '\n')
  }

  lemma {:induction false} PlainBack(f: string, rest: string)
    requires ',' !in f && '"' !in f && '\n' !in f && EndsField(rest)
    ensures ReadPlain(f + rest) == Some((f, rest))
  {
    if f == "" {
      assert f + rest == rest;
    } else {
      assert (f + rest)[1..] == f[1..] + rest;
      PlainBack(f[1..], rest);
      assert [f[0]] + f[1..] == f;
    }
  }

  lemma {:induction false} QuotedBack(f: string, rest: string)
    requires EndsField(rest)
    ensures ReadQuoted(Doubled(f) + "\"" + rest) == Some((f, rest))
  {
    var s := Doubled(f) + "\"" + rest;
    if f == "" {
      assert s == ['"'] + rest && s[1..] == rest;
    } else {
      QuotedBack(f[1..], rest);
      var tail := Doubled(f[1..]) + "\"" + rest;
      assert [f[0]] + f[1..] == f;
      if f[0] == '"' {
        assert s == ['"', '"'] + tail && s[2..] == tail;
      } else {
        assert s == [f[0]] + tail && s[1..] == tail;
      }
    }
  }

  lemma FieldBack(f: string, rest: string)
    requires EndsField(rest)
    ensures ReadField(EscapeCsvField(f) + rest) == Some((f, rest))
  {
    hide ReadPlain, ReadQuoted, Doubled;
    if ',' in f || '"' in f || '\n' in f {
      QuotedBack(f, rest);
      var body := Doubled(f) + "\"" + rest;
      assert EscapeCsvField(f) + rest == ['"'] + body;
      assert (['"'] + body)[1..] == body;
    } else {
      PlainBack(f, rest);
      assert (f + rest)[0] == if f == "" then rest[0] else f[0];
    }
  }

  lemma RecordOfField(s: string, f: string, rest: string)
    requires s != "" && ReadField(s) == Some((f, rest)) && rest != ""
    ensures rest[0] == '\n' ==> ReadRecord(s) == Some(([f], rest[1..]))
    ensures rest[0] == ',' && |rest| <= |s| && ReadRecord(rest[1..]).Some? ==>
              ReadRecord(s) == Some(([f] + ReadRecord(rest[1..]).value.0, ReadRecord(rest[1..]).value.1))
  {}

  lemma {:induction false} RecordBack(fields: seq<string>, rest: string)
    requires fields != []
    ensures ReadRecord(Line(fields) + "\n" + rest) == Some((fields, rest))
    decreases |fields|
  {
    hide ReadRecord, ReadField, EscapeCsvField;
    var s := Line(fields) + "\n" + rest;
    var first := EscapeCsvField(fields[0]);
    if |fields| == 1 {
      var after := "\n" + rest;
      assert s == first + after;
      FieldBack(fields[0], after);
      RecordOfField(s, fields[0], after);
      assert after[1..] == rest && [fields[0]] == fields;
    } else {
      var tail := fields[1..];
      assert Escaped(fields)[1..] == Escaped(tail);
      var after := "," + (Line(tail) + "\n" + rest);
      assert s == first + after;
      FieldBack(fields[0], after);
      RecordBack(tail, rest);
      assert after[1..] == Line(tail) + "\n" + rest;
      RecordOfField(s, fields[0], after);
      assert [fields[0]] + tail == fields;
    }
  }

  /** The whole text, one terminated line per record. */
  function Text(rows: seq<seq<string>>): string {
    if rows == [] then "" else Line(rows[0]) + "\n" + Text(rows[1..])
  }

  lemma {:induction false} JoinedLines(rows: seq<seq<string>>)
    requires rows != []
    ensures Join(Lines(rows), '\n') + "\n" == Text(rows)
    decreases |rows|
  {
    if |rows| == 1 {
      assert Text(rows[1..]) == "";
    } else {
      assert Lines(rows)[1..] == Lines(rows[1..]);
      JoinedLines(rows[1..]);
      assert Join(Lines(rows), '\n') == Line(rows[0]) + "\n" + Join(Lines(rows[1..]), '\n');
    }
  }

  lemma {:induction false} TextBack(rows: seq<seq<string>>)
    requires forall i :: 0 <= i < |rows| ==> rows[i] != []
    ensures ReadFile(Text(rows)) == Some(rows)
    decreases |rows|
  {
    hide ReadRecord, Line;
    if rows != [] {
      RecordBack(rows[0], Text(rows[1..]));
      TextBack(rows[1..]);
      assert [rows[0]] + rows[1..] == rows;
    }
  }

  /** Whatever the fields contain, the reader recovers the header and every field of every row. */
  lemma CsvRoundTrip(header: seq<string>, rows: seq<seq<string>>)
    requires header != [] && forall i :: 0 <= i < |rows| ==> rows[i] != []
    ensures ReadFile(Csv(header, rows)) == Some([header] + rows)
  {
    JoinedLines([header] + rows);
    TextBack([header] + rows);
  }

  // ----- The export of audit entries -----

  datatype AuditEntry = AuditEntry(
    timestamp: string, sessionId: string, sequenceNum: int, provider: string,
    model: Option<string>, requestHash: Option<string>, responseHash: Option<string>,
    totalTokens: int, integrityStatus: string, httpStatus: Option<int>, captureComplete: bool)

  const HEADER: seq<string> := [
    "timestamp", "session_id", "sequence_num", "provider", "model", "request_hash", "response_hash",
    "total_tokens", "integrity_status", "http_status", "capture_complete"]

  function Digits(n: nat): (r: string)
    ensures |r| > 0
  {
    var last := [('0' as int + n % 10) as char];
    if n < 10 then last else Digits(n / 10) + last
  }

  /** `String(n)` for the integers JavaScript prints in full. */
  function Decimal(n: int): string {
    if n < 0 then "-" + Digits(-n) else Digits(n)
  }

  function OrEmpty(o: Option<string>): string {
    if o.None? then "" else o.value
  }

  function FieldsOf(e: AuditEntry): (r: seq<string>)
    ensures |r| == 11
  {
    [e.timestamp, e.sessionId, Decimal(e.sequenceNum), e.provider,
     OrEmpty(e.model), OrEmpty(e.requestHash), OrEmpty(e.responseHash),
     Decimal(e.totalTokens), e.integrityStatus,
     if e.httpStatus.None? then "" else Decimal(e.httpStatus.value),
     if e.captureComplete then "true" else "false"]
  }

  function Rows(entries: seq<AuditEntry>): (r: seq<seq<string>>)
    ensures |r| == |entries|
    ensures forall i :: 0 <= i < |r| ==> r[i] == FieldsOf(entries[i])
  {
    seq(|entries|, i requires 0 <= i < |entries| => FieldsOf(entries[i]))
  }

  function ExportCsv(entries: seq<AuditEntry>): string {
    Csv(HEADER, Rows(entries))
  }

  lemma {:induction false} DigitsInjective(a: nat, b: nat)
    requires Digits(a) == Digits(b)
    ensures a == b
    decreases a
  {
    var x, y := Digits(a), Digits(b);
    assert x[|x| - 1] == y[|y| - 1];
    if a >= 10 && b >= 10 {
      assert x[..|x| - 1] == Digits(a / 10) && y[..|y| - 1] == Digits(b / 10);
      DigitsInjective(a / 10, b / 10);
    }
  }

  lemma {:induction false} DigitsAreDigits(n: nat)
    ensures '0' <= Digits(n)[0] <= '9'
  {
    if n >= 10 {
      DigitsAreDigits(n / 10);
    }
  }

  lemma DecimalInjective(a: int, b: int)
    ensures Decimal(a) == Decimal(b) <==> a == b
  {
    DigitsAreDigits(if a < 0 then -a else a);
    DigitsAreDigits(if b < 0 then -b else b);
    if Decimal(a) == Decimal(b) {
      if a < 0 && b < 0 {
        assert Decimal(a)[1..] == Digits(-a) && Decimal(b)[1..] == Digits(-b);
        DigitsInjective(-a, -b);
      } else if a >= 0 && b >= 0 {
        DigitsInjective(a, b);
      }
    }
  }

  /** Entries an auditor cannot tell apart: equal but for a missing text printed as an empty one. */
  predicate SameEntry(a: AuditEntry, b: AuditEntry) {
    a.(model := None, requestHash := None, responseHash := None)
    == b.(model := None, requestHash := None, responseHash := None)
    && OrEmpty(a.model) == OrEmpty(b.model)
    && OrEmpty(a.requestHash) == OrEmpty(b.requestHash)
    && OrEmpty(a.responseHash) == OrEmpty(b.responseHash)
  }

  lemma FieldsIdentify(a: AuditEntry, b: AuditEntry)
    ensures FieldsOf(a) == FieldsOf(b) <==> SameEntry(a, b)
  {
    hide Decimal;
    DecimalInjective(a.sequenceNum, b.sequenceNum);
    DecimalInjective(a.totalTokens, b.totalTokens);
    if a.httpStatus.Some? {
      DecimalNotEmpty(a.httpStatus.value);
    }
    if b.httpStatus.Some? {
      DecimalNotEmpty(b.httpStatus.value);
    }
    if a.httpStatus.Some? && b.httpStatus.Some? {
      DecimalInjective(a.httpStatus.value, b.httpStatus.value);
    }
    var x, y := FieldsOf(a), FieldsOf(b);
    if x == y {
      assert forall i :: 0 <= i < 11 ==> x[i] == y[i];
      assert x[0] == y[0] && x[1] == y[1] && x[2] == y[2] && x[3] == y[3] && x[4] == y[4] && x[5] == y[5];
      assert x[6] == y[6] && x[7] == y[7] && x[8] == y[8] && x[9] == y[9] && x[10] == y[10];
    }
  }

  lemma DecimalNotEmpty(n: int)
    ensures Decimal(n) != ""
  {}

  /** Two exports are the same text exactly when they export the same entries in the same order. */
  lemma ExportInjective(a: seq<AuditEntry>, b: seq<AuditEntry>)
    ensures ExportCsv(a) == ExportCsv(b)
            <==> |a| == |b| && forall i :: 0 <= i < |a| ==> SameEntry(a[i], b[i])
  {
    hide Csv, FieldsOf, SameEntry;
    CsvRoundTrip(HEADER, Rows(a));
    CsvRoundTrip(HEADER, Rows(b));
    forall i | 0 <= i < |a| && 0 <= i < |b| ensures FieldsOf(a[i]) == FieldsOf(b[i]) <==> SameEntry(a[i], b[i]) {
      FieldsIdentify(a[i], b[i]);
    }
    if ExportCsv(a) == ExportCsv(b) {
      assert ([HEADER] + Rows(a))[1..] == Rows(a) && ([HEADER] + Rows(b))[1..] == Rows(b);
      forall i | 0 <= i < |a| ensures SameEntry(a[i], b[i]) {
        assert Rows(a)[i] == Rows(b)[i];
      }
    }
    if |a| == |b| && forall i :: 0 <= i < |a| ==> SameEntry(a[i], b[i]) {
      assert Rows(a) == Rows(b);
    }
  }

  // ----- What stands in the columns -----

  /** A field is printed as it is exactly when it holds no separator, quote or line end. */
  lemma EscapedIffNeeded(f: string)
    ensures EscapeCsvField(f) == f <==> ',' !in f && '"' !in f && '\n' !in f
  {
    DoubledIsLonger(f);
  }

  lemma {:induction false} DoubledIsLonger(f: string)
    ensures |Doubled(f)| >= |f|
  {
    if f != "" {
      DoubledIsLonger(f[1..]);
    }
  }

  function ValueOf(digits: string): int
    decreases |digits|
  {
    if digits == "" then 0
    else 10 * ValueOf(digits[..|digits| - 1]) + (digits[|digits| - 1] as int - '0' as int)
  }

  /** Decimal digits of the number, without leading zeros. */
  lemma {:induction false} DigitsBack(n: nat)
    ensures ValueOf(Digits(n)) == n
    ensures forall c :: c in Digits(n) ==> '0' <= c <= '9'
    ensures n > 0 ==> Digits(n)[0] != '0'
    ensures n == 0 ==> Digits(n) == "0"
    decreases n
  {
    var last := [('0' as int + n % 10) as char];
    if n < 10 {
      assert Digits(n) == last && last[..0] == "";
    } else {
      DigitsBack(n / 10);
      assert Digits(n)[..|Digits(n)| - 1] == Digits(n / 10);
    }
  }

  /** The number a printed integer reads as. */
  function Parsed(s: string): int {
    if s != "" && s[0] == '-' then -ValueOf(s[1..]) else ValueOf(s)
  }

  lemma DecimalBack(n: int)
    ensures Parsed(Decimal(n)) == n
  {
    DigitsBack(if n < 0 then -n else n);
    DigitsAreDigits(if n < 0 then -n else n);
    if n < 0 {
      assert ("-" + Digits(-n))[1..] == Digits(-n);
    }
  }

  /** The columns of a row hold what the header says, null texts as empty ones. */
  ghost predicate RowOf(e: AuditEntry, row: seq<string>) {
    && |row| == 11
    && row[0] == e.timestamp && row[1] == e.sessionId && Parsed(row[2]) == e.sequenceNum && row[3] == e.provider
    && row[4] == (match e.model case None => "" case Some(text) => text)
    && row[5] == (match e.requestHash case None => "" case Some(text) => text)
    && row[6] == (match e.responseHash case None => "" case Some(text) => text)
    && Parsed(row[7]) == e.totalTokens && row[8] == e.integrityStatus
    && (match e.httpStatus case None => row[9] == "" case Some(code) => row[9] != "" && Parsed(row[9]) == code)
    && row[10] == if e.captureComplete then "true" else "false"
  }

  lemma FieldsInColumns(e: AuditEntry)
    ensures RowOf(e, FieldsOf(e))
  {
    hide Decimal, Parsed;
    DecimalBack(e.sequenceNum);
    DecimalBack(e.totalTokens);
    if e.httpStatus.Some? {
      DecimalBack(e.httpStatus.value);
      DecimalNotEmpty(e.httpStatus.value);
    }
  }

  /** What a reader finds in an export: the named columns, one row per entry in the same order, each value in
      its own column; and the text ends its last line. */
  lemma ExportReadsBack(entries: seq<AuditEntry>)
    ensures var text := ExportCsv(entries);
            && text != "" && text[|text| - 1] == '\n'
            && ReadFile(text).Some?
            && var file := ReadFile(text).value;
               && |file| == |entries| + 1
               && file[0] == ["timestamp", "session_id", "sequence_num", "provider", "model", "request_hash",
                              "response_hash", "total_tokens", "integrity_status", "http_status", "capture_complete"]
               && forall i :: 0 <= i < |entries| ==> RowOf(entries[i], file[i + 1])
  {
    hide FieldsOf, RowOf;
    CsvRoundTrip(HEADER, Rows(entries));
    var file := [HEADER] + Rows(entries);
    assert ReadFile(ExportCsv(entries)) == Some(file);
    hide ReadFile;
    forall i | 0 <= i < |entries| ensures RowOf(entries[i], file[i + 1]) {
      FieldsInColumns(entries[i]);
    }
  }
}
