/** The text-to-rows body of `parseCSV` (frontend/src/pages/admin/AdminStudents.jsx):
    the first line names the columns, every later non-blank line becomes
    one student object keyed by those names, and only objects with a
    truthy `email` are kept, in input order. Reading the file is not part
    of the model: the parser starts from the text. */
module CsvImport {
  import opened Common
  import opened Text

  /** A property of the built object: a trimmed string, a number from
      `Number(...)` (`None` is `NaN`), or `undefined` for a column the line
      does not reach. */
  datatype Cell = Str(s: string) | Num(n: Option<int>) | Undefined

  /** One student object, property name to value. */
  type Row = map<string, Cell>

  /** JavaScript truthiness of a cell. */
  predicate CellTruthy(c: Cell) {
    match c
    case Str(s) => s != ""
    case Num(n) => NumberTruthy(n)
    case Undefined => false
  }

  /** `student.email` is truthy. */
  predicate HasEmail(row: Row) {
    "email" in row && CellTruthy(row["email"])
  }

  /** Each part trimmed and lowercased. */
  function Normalise(parts: seq<string>): (names: seq<string>)
    ensures |names| == |parts|
  {
    if parts == [] then [] else [ToLower(Trim(parts[0]))] + Normalise(parts[1..])
  }

  /** The column names: the first line split on `,`, each part trimmed and
      lowercased. */
  function Headers(first: string): seq<string> {
    Normalise(Split(first, ','))
  }

  /** The value stored under `header`, the `index`-th column: the trimmed
      text of that column, or `undefined` past the end of the line; the
      `batch` column goes through `Number` (`toNumber`, which gives `None`
      for `NaN`, and `Number(undefined)` is `NaN`). */
  function CellAt(header: string, values: seq<string>, index: nat, toNumber: string -> Option<int>): (c: Cell)
    ensures c.Num? <==> header == "batch"
    ensures index >= |values| ==> c == Undefined || c == Num(None)
    ensures header != "batch" && index < |values| ==> c == Str(Trim(values[index]))
  {
    var raw := if index < |values| then Some(Trim(values[index])) else None;
    if header == "batch" then Num(if raw.Some? then toNumber(raw.value) else None)
    else if raw.Some? then Str(raw.value)
    else Undefined
  }

  /** The object built from the column values of one line, the columns
      assigned left to right (so a repeated name keeps its last column). */
  function RowOf(headers: seq<string>, values: seq<string>, toNumber: string -> Option<int>): Row
    decreases |headers|
  {
    if headers == [] then map[]
    else
      var n := |headers| - 1;
      RowOf(headers[..n], values, toNumber)[headers[n] := CellAt(headers[n], values, n, toNumber)]
  }

  /** What one line contributes: nothing when it is blank or its object
      has no truthy email, otherwise that object. */
  function LineRow(headers: seq<string>, line: string, toNumber: string -> Option<int>): (r: Option<Row>)
    ensures r.Some? ==> HasEmail(r.value)
  {
    if Trim(line) == "" then None
    else
      var row := RowOf(headers, Split(line, ','), toNumber);
      if HasEmail(row) then Some(row) else None
  }

  /** The objects kept from `lines`, in order. */
  function Rows(headers: seq<string>, lines: seq<string>, toNumber: string -> Option<int>): seq<Row>
    decreases |lines|
  {
    if lines == [] then []
    else
      var prev := Rows(headers, lines[..|lines| - 1], toNumber);
      match LineRow(headers, lines[|lines| - 1], toNumber)
      case Some(row) => prev + [row]
      case None => prev
  }

  /** The students `parseCSV` previews for `text`. */
  function ParsedStudents(text: string, toNumber: string -> Option<int>): seq<Row> {
    var lines := Split(text, '\n');
    Rows(Headers(lines[0]), lines[1..], toNumber)
  }

  /** The `headers.forEach` of `parseCSV`: one property per column, left
      to right. */
  method BuildRow(headers: seq<string>, values: seq<string>, toNumber: string -> Option<int>) returns (student: Row)
    ensures student == RowOf(headers, values, toNumber)
  {
    student := map[];
    var j := 0;
    while j < |headers|
      invariant 0 <= j <= |headers|
      invariant student == RowOf(headers[..j], values, toNumber)
    {
      assert headers[..j + 1][..j] == headers[..j];
      var header := headers[j];
      var value: Cell := if j < |values| then Str(Trim(values[j])) else Undefined;
      if header == "batch" {
        value := Num(if value.Str? then toNumber(value.s) else None);
      }
      student := student[header := value];
      j := j + 1;
    }
    assert headers[..j] == headers;
  }

  /** The objects of one more line. */
  lemma RowsStep(headers: seq<string>, prefix: seq<string>, line: string, toNumber: string -> Option<int>)
    ensures Rows(headers, prefix + [line], toNumber)
      == match LineRow(headers, line, toNumber)
         case Some(row) => Rows(headers, prefix, toNumber) + [row]
         case None => Rows(headers, prefix, toNumber)
  {
    assert (prefix + [line])[..|prefix|] == prefix;
  }

  /** One line of the loop of `parseCSV`: skip it when blank, build its
      object, keep that when it has an email. */
  method ParseLine(headers: seq<string>, line: string, toNumber: string -> Option<int>) returns (r: Option<Row>)
    ensures r == LineRow(headers, line, toNumber)
  {
    if Trim(line) == "" {
      return None;
    }
    var values := Split(line, ',');
    var student := BuildRow(headers, values, toNumber);
    if "email" in student && CellTruthy(student["email"]) {
      return Some(student);
    }
    return None;
  }

  /** The `for` loop of `parseCSV` over the lines after the header line. */
  method ParseLines(headers: seq<string>, body: seq<string>, toNumber: string -> Option<int>) returns (students: seq<Row>)
    ensures students == Rows(headers, body, toNumber)
  {
    students := [];
    var k := 0;
    while k < |body|
      invariant 0 <= k <= |body|
      invariant students == Rows(headers, body[..k], toNumber)
    {
      var line := body[k];
      assert body[..k + 1] == body[..k] + [line];
      RowsStep(headers, body[..k], line, toNumber);
      var kept := ParseLine(headers, line, toNumber);
      if kept.Some? {
        students := students + [kept.value];
      }
      k := k + 1;
    }
    assert body[..k] == body;
  }

  /** `parseCSV` from the text read: the header line names the columns,
      the remaining lines give the students. */
  method ParseCsv(text: string, toNumber: string -> Option<int>) returns (students: seq<Row>)
    ensures students == ParsedStudents(text, toNumber)
  {
    var lines := Split(text, '\n');
    var headers := Headers(lines[0]);
    students := ParseLines(headers, lines[1..], toNumber);
  }

  /* ---------------- properties ---------------- */

  /** At most one object per line. */
  lemma {:induction false} RowsBound(headers: seq<string>, lines: seq<string>, toNumber: string -> Option<int>)
    ensures |Rows(headers, lines, toNumber)| <= |lines|
    decreases |lines|
  {
    if lines != [] {
      RowsBound(headers, lines[..|lines| - 1], toNumber);
    }
  }

  /** The preview has at most one student per line after the header line. */
  lemma ParsedBound(text: string, toNumber: string -> Option<int>)
    ensures |ParsedStudents(text, toNumber)| <= |Split(text, '\n')| - 1
    ensures |ParsedStudents(text, toNumber)| <= Occurrences(text, '\n')
  {
    var lines := Split(text, '\n');
    RowsBound(Headers(lines[0]), lines[1..], toNumber);
    SplitLength(text, '\n');
  }

  /** Every object kept has a truthy email. */
  lemma {:induction false} RowsHaveEmail(headers: seq<string>, lines: seq<string>, toNumber: string -> Option<int>)
    ensures forall k :: 0 <= k < |Rows(headers, lines, toNumber)| ==> HasEmail(Rows(headers, lines, toNumber)[k])
    decreases |lines|
  {
    if lines != [] {
      RowsHaveEmail(headers, lines[..|lines| - 1], toNumber);
    }
  }

  /** Order is preserved: the objects of two runs of lines are those of
      the first run followed by those of the second. */
  lemma {:induction false} RowsAppend(headers: seq<string>, a: seq<string>, b: seq<string>, toNumber: string -> Option<int>)
    ensures Rows(headers, a + b, toNumber) == Rows(headers, a, toNumber) + Rows(headers, b, toNumber)
    decreases |b|
  {
    if b == [] {
      assert a + b == a;
    } else {
      var n := |b| - 1;
      assert (a + b)[..|a + b| - 1] == a + b[..n];
      assert (a + b)[|a + b| - 1] == b[n];
      RowsAppend(headers, a, b[..n], toNumber);
    }
  }

  /** Each line is handled on its own: a blank line adds nothing, and a
      non-blank one adds its object exactly when that has an email. */
  lemma OneLine(headers: seq<string>, line: string, toNumber: string -> Option<int>)
    ensures Trim(line) == "" ==> Rows(headers, [line], toNumber) == []
    ensures Trim(line) != "" ==>
      var row := RowOf(headers, Split(line, ','), toNumber);
      Rows(headers, [line], toNumber) == if HasEmail(row) then [row] else []
  {
    assert [line][..0] == [];
  }

  /** The object has exactly one property per column name. */
  lemma {:induction false} RowOfKeys(headers: seq<string>, values: seq<string>, toNumber: string -> Option<int>)
    ensures forall k :: k in RowOf(headers, values, toNumber) <==> k in headers
    decreases |headers|
  {
    if headers != [] {
      var n := |headers| - 1;
      RowOfKeys(headers[..n], values, toNumber);
      assert headers == headers[..n] + [headers[n]];
    }
  }

  /** The value of a name is the cell of the last column carrying it. */
  lemma {:induction false} RowOfLastColumn(headers: seq<string>, values: seq<string>, toNumber: string -> Option<int>, i: nat)
    requires i < |headers| && forall j :: i < j < |headers| ==> headers[j] != headers[i]
    ensures headers[i] in RowOf(headers, values, toNumber)
    ensures RowOf(headers, values, toNumber)[headers[i]] == CellAt(headers[i], values, i, toNumber)
    decreases |headers|
  {
    var n := |headers| - 1;
    var prefix := headers[..n];
    var prev := RowOf(prefix, values, toNumber);
    var cell := CellAt(headers[n], values, n, toNumber);
    assert RowOf(headers, values, toNumber) == prev[headers[n] := cell];
    if i < n {
      assert headers[n] != headers[i] && prefix[i] == headers[i];
      RowOfLastColumn(prefix, values, toNumber, i);
      assert prev[headers[i]] == CellAt(headers[i], values, i, toNumber);
    }
  }

  /** Only the `batch` property holds a number. */
  lemma {:induction false} OnlyBatchIsNumber(headers: seq<string>, values: seq<string>, toNumber: string -> Option<int>)
    ensures forall k :: k in RowOf(headers, values, toNumber) ==> (RowOf(headers, values, toNumber)[k].Num? <==> k == "batch")
    decreases |headers|
  {
    if headers != [] {
      OnlyBatchIsNumber(headers[..|headers| - 1], values, toNumber);
    }
  }

  /** A text without a surrounding space is its own trim. */
  lemma TrimKeeps(t: string)
    requires t == [] || (!IsWhitespace(t[0]) && !IsWhitespace(t[|t| - 1]))
    ensures Trim(t) == t
  {
  }

  /** The `i`-th column name is the `i`-th part of the first line,
      trimmed and lowercased. */
  lemma {:induction false} NormaliseAt(parts: seq<string>, i: nat)
    requires i < |parts|
    ensures Normalise(parts)[i] == ToLower(Trim(parts[i]))
  {
    var rest := Normalise(parts[1..]);
    assert Normalise(parts) == [ToLower(Trim(parts[0]))] + rest;
    if i > 0 {
      NormaliseAt(parts[1..], i - 1);
      assert parts[1..][i - 1] == parts[i];
    }
  }

  /** Lowercasing keeps a trimmed text trimmed. */
  lemma LowerKeepsTrimmed(t: string)
    requires t == [] || (!IsWhitespace(t[0]) && !IsWhitespace(t[|t| - 1]))
    ensures Trim(ToLower(t)) == ToLower(t)
  {
    var h := ToLower(t);
    if h != [] {
      assert h[0] == LowerChar(t[0]);
      assert h[|h| - 1] == LowerChar(t[|t| - 1]);
      LowerKeepsVisible(t[0]);
      LowerKeepsVisible(t[|t| - 1]);
    }
    TrimKeeps(h);
  }

  /** A trimmed, lowercased name is a fixed point of trimming and
      lowercasing. */
  lemma NameNormalised(p: string)
    ensures ToLower(Trim(ToLower(Trim(p)))) == ToLower(Trim(p))
  {
    var t := Trim(p);
    var h := ToLower(t);
    assert Trim(h) == h by { LowerKeepsTrimmed(t); }
    ToLowerIdempotent(t);
  }

  /** Column names are already normalised: trimming and lowercasing them
      again changes nothing. */
  lemma NamesNormalised(parts: seq<string>, i: nat)
    requires i < |parts|
    ensures ToLower(Trim(Normalise(parts)[i])) == Normalise(parts)[i]
  {
    NormaliseAt(parts, i);
    NameNormalised(parts[i]);
  }
}
