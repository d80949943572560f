/**
 * Field-level text of the CSV output (csv_generator.c): quoting of string
 * cells, the text of each kind of cell, key lookup in an object, and the
 * layout of header and data lines.
 *
 * Quoting follows rules 6 and 7 of section 2 of RFC 4180 except that only a
 * comma, a line feed or a double quote makes a field quoted (a carriage
 * return does not), and lines end in a line feed alone.
 */
module CsvFields {
  import opened Common
  import opened Ast

  /** A character that forces the field into quotes. */
  predicate IsSpecial(c: char) {
    c == ',' || c == '\n' || c == '"'
  }

  predicate NeedsQuotes(s: string) {
    exists i :: 0 <= i < |s| && IsSpecial(s[i])
  }

  /** The number of double quotes in `s`. */
  function QuoteCount(s: string): nat {
    if s == [] then 0 else (if s[0] == '"' then 1 else 0) + QuoteCount(s[1..])
  }

  /** `s` with every double quote written twice. */
  function DoubleQuotes(s: string): string {
    if s == [] then [] else (if s[0] == '"' then "\"\"" else [s[0]]) + DoubleQuotes(s[1..])
  }

  /** The text of a string cell: quoted, with inner quotes doubled, when it holds a special character. */
  function Escape(s: string): string {
    if NeedsQuotes(s) then "\"" + DoubleQuotes(s) + "\"" else s
  }

  /** Reads doubled quotes back as single ones, from the front. */
  function Undouble(t: string): string
    decreases |t|
  {
    if t == [] then []
    else if |t| >= 2 && t[0] == '"' && t[1] == '"' then "\"" + Undouble(t[2..])
    else [t[0]] + Undouble(t[1..])
  }

  /** How a CSV reader recovers a field's value from its text. */
  function Unescape(f: string): string {
    if |f| >= 2 && f[0] == '"' && f[|f| - 1] == '"' then Undouble(f[1..|f| - 1]) else f
  }

  lemma {:induction false} QuoteCountConcat(a: string, b: string)
    ensures QuoteCount(a + b) == QuoteCount(a) + QuoteCount(b)
  {
    if a != [] {
      assert (a + b)[1..] == a[1..] + b;
      QuoteCountConcat(a[1..], b);
    } else {
      assert a + b == b;
    }
  }

  lemma {:induction false} DoubleQuotesConcat(a: string, b: string)
    ensures DoubleQuotes(a + b) == DoubleQuotes(a) + DoubleQuotes(b)
  {
    if a != [] {
      assert (a + b)[1..] == a[1..] + b;
      DoubleQuotesConcat(a[1..], b);
    } else {
      assert a + b == b;
    }
  }

  lemma {:induction false} DoubleQuotesLength(s: string)
    ensures |DoubleQuotes(s)| == |s| + QuoteCount(s)
  {
    if s != [] {
      DoubleQuotesLength(s[1..]);
    }
  }

  lemma NeedsQuotesSnoc(s: string, c: char)
    ensures NeedsQuotes(s + [c]) <==> NeedsQuotes(s) || IsSpecial(c)
  {
    var t := s + [c];
    assert t[|s|] == c;
    if NeedsQuotes(s) {
      var i :| 0 <= i < |s| && IsSpecial(s[i]);
      assert t[i] == s[i];
    }
    if NeedsQuotes(t) {
      var i :| 0 <= i < |t| && IsSpecial(t[i]);
      if i < |s| {
        assert s[i] == t[i];
      }
    }
  }

  /** A string holding a double quote needs quotes. */
  lemma {:induction false} QuotesForceQuoting(s: string)
    requires QuoteCount(s) > 0
    ensures NeedsQuotes(s)
  {
    if s[0] == '"' {
      assert IsSpecial(s[0]);
    } else {
      QuotesForceQuoting(s[1..]);
      var i :| 0 <= i < |s[1..]| && IsSpecial(s[1..][i]);
      assert IsSpecial(s[i + 1]);
    }
  }

  /** Reading the doubled quotes back gives the original text. */
  lemma {:induction false} UndoubleDoubleQuotes(s: string)
    ensures Undouble(DoubleQuotes(s)) == s
  {
    if s != [] {
      var rest := DoubleQuotes(s[1..]);
      UndoubleDoubleQuotes(s[1..]);
      if s[0] == '"' {
        var t := "\"\"" + rest;
        assert t[2..] == rest;
      } else {
        var t := [s[0]] + rest;
        assert t[1..] == rest;
      }
    }
  }

  /** Escaping round-trips: a reader gets back exactly the string that was written. */
  lemma EscapeRoundTrip(s: string)
    ensures Unescape(Escape(s)) == s
  {
    if NeedsQuotes(s) {
      var f := "\"" + DoubleQuotes(s) + "\"";
      assert f[1..|f| - 1] == DoubleQuotes(s);
      UndoubleDoubleQuotes(s);
    } else if |s| >= 2 && s[0] == '"' {
      assert IsSpecial(s[0]);
    }
  }

  /** A quoted field is the input plus one character per inner quote plus the two enclosing quotes. */
  lemma EscapeLength(s: string)
    ensures NeedsQuotes(s) ==> |Escape(s)| == |s| + QuoteCount(s) + 2
    ensures !NeedsQuotes(s) ==> Escape(s) == s
  {
    DoubleQuotesLength(s);
  }

  /** A field comes out unchanged exactly when it holds no comma, line feed or double quote. */
  lemma EscapeUnchangedIff(s: string)
    ensures Escape(s) == s <==> !NeedsQuotes(s)
  {
    EscapeLength(s);
  }

  /** Text without double quotes is left as it is by the doubling. */
  lemma {:induction false} DoubleQuotesNoQuote(s: string)
    requires forall i :: 0 <= i < |s| ==> s[i] != '"'
    ensures DoubleQuotes(s) == s
  {
    if s != [] {
      DoubleQuotesNoQuote(s[1..]);
    }
  }

  /** A field holding a quote is quoted with the quote doubled; a plain field is left alone. */
  lemma EscapeExample()
    ensures Escape("a\"b") == "\"a\"\"b\""
    ensures Escape("ab") == "ab"
  {
    var s := "a\"b";
    assert IsSpecial(s[1]);
    assert s[1..] == "\"b" && s[1..][1..] == "b";
    var t := "ab";
    assert !IsSpecial(t[0]) && !IsSpecial(t[1]);
  }

  /** What one more character of the input adds to the quote count of escape_csv_field's scan. */
  lemma CountStep(s: string, i: nat)
    requires i < |s|
    ensures QuoteCount(s[..i + 1]) == QuoteCount(s[..i]) + (if s[i] == '"' then 1 else 0)
    ensures QuoteCount(s[..i + 1]) <= QuoteCount(s)
  {
    assert s[..i + 1] == s[..i] + [s[i]];
    QuoteCountConcat(s[..i], [s[i]]);
    assert s == s[..i + 1] + s[i + 1..];
    QuoteCountConcat(s[..i + 1], s[i + 1..]);
  }

  /** What one more character of the input adds to the copy of escape_csv_field. */
  lemma CopyStep(s: string, i: nat)
    requires i < |s|
    ensures DoubleQuotes(s[..i + 1]) == DoubleQuotes(s[..i]) + (if s[i] == '"' then "\"\"" else [s[i]])
  {
    assert s[..i + 1] == s[..i] + [s[i]];
    DoubleQuotesConcat(s[..i], [s[i]]);
  }

  /**
   * escape_csv_field: counts the quotes, returns a copy when no quoting is
   * needed, and otherwise fills a buffer of the exact size through a cursor.
   * A missing string gives the empty field.
   */
  method EscapeCsvField(str: Option<string>) returns (escaped: string)
    ensures str.None? ==> escaped == ""
    ensures str.Some? ==> escaped == Escape(str.value)
  {
    if str.None? {
      return "";
    }
    var s := str.value;
    var len := |s|;
    var escapeCount := 0;
    var needsQuotes := false;
    for i := 0 to len
      invariant escapeCount == QuoteCount(s[..i])
      invariant needsQuotes == NeedsQuotes(s[..i])
    {
      CountStep(s, i);
      assert s[..i + 1] == s[..i] + [s[i]];
      NeedsQuotesSnoc(s[..i], s[i]);
      if s[i] == '"' {
        escapeCount := escapeCount + 1;
      }
      if s[i] == ',' || s[i] == '\n' || s[i] == '"' {
        needsQuotes := true;
      }
    }
    assert s[..len] == s;
    if escapeCount == 0 && !needsQuotes {
      return s;
    }
    if escapeCount > 0 {
      QuotesForceQuoting(s);
    }
    assert needsQuotes;
    escaped := QuoteInto(s, escapeCount);
  }

  /**
   * The second half of escape_csv_field for a field that needs quotes: a
   * buffer of the exact size, filled through a cursor with the opening
   * quote, the characters with every quote doubled, and the closing quote.
   */
  method QuoteInto(s: string, escapeCount: nat) returns (escaped: string)
    requires escapeCount == QuoteCount(s)
    ensures escaped == "\"" + DoubleQuotes(s) + "\""
  {
    var len := |s|;
    var buffer := new char[len + escapeCount + 2];
    var pos := 0;
    buffer[pos] := '"';
    pos := pos + 1;
    for i := 0 to len
      invariant pos == 1 + i + QuoteCount(s[..i])
      invariant QuoteCount(s[..i]) <= QuoteCount(s)
      invariant buffer[..pos] == "\"" + DoubleQuotes(s[..i])
    {
      CountStep(s, i);
      CopyStep(s, i);
      ghost var done := buffer[..pos];
      if s[i] == '"' {
        buffer[pos] := '"';
        buffer[pos + 1] := '"';
        pos := pos + 2;
        assert buffer[..pos] == done + "\"\"";
      } else {
        buffer[pos] := s[i];
        pos := pos + 1;
        assert buffer[..pos] == done + [s[i]];
      }
    }
    assert s[..len] == s;
    buffer[pos] := '"';
    pos := pos + 1;
    escaped := buffer[..pos];
  }

  /** The number a string of decimal digits denotes (a reader's view of a printed integer). */
  function DigitsValue(s: string): int {
    if s == [] then 0 else 10 * DigitsValue(s[..|s| - 1]) + (s[|s| - 1] as int - '0' as int)
  }

  /** The decimal digits of n. */
  function NatText(n: nat): (text: string)
    ensures |text| >= 1
    ensures forall i :: 0 <= i < |text| ==> '0' <= text[i] <= '9'
    ensures text[0] == '0' ==> text == "0"
    ensures DigitsValue(text) == n
  {
    var digit := ['0' + (n % 10) as char];
    if n < 10 then digit
    else
      var text := NatText(n / 10) + digit;
      assert text[..|text| - 1] == NatText(n / 10);
      text
  }

  /**
   * printf's %d of n: a minus sign for a negative number, then the digits
   * of its magnitude, with no leading zero.
   */
  function IntText(n: int): (text: string)
    ensures |text| >= 1
    ensures text[0] == '-' <==> n < 0
    ensures var start := if n < 0 then 1 else 0;
      && start < |text|
      && (forall i :: start <= i < |text| ==> '0' <= text[i] <= '9')
      && (text[start] == '0' ==> text == "0")
    ensures n < 0 ==> DigitsValue(text[1..]) == -n
    ensures n >= 0 ==> DigitsValue(text) == n
  {
    if n < 0 then
      var text := "-" + NatText(-n);
      assert text[1..] == NatText(-n);
      text
    else NatText(n)
  }

  /** The text written into a cell for a value; objects, arrays and null leave the cell empty. */
  function CellText(v: Value): (text: string)
    ensures text == "" <==> v.Null? || v.Object? || v.Array? || v == String("")
    ensures v.String? ==> text == Escape(v.text) && Unescape(text) == v.text
    ensures v.Number? ==> text == IntText(v.number)
    ensures v.Boolean? ==> text == (if v.truth then "true" else "false")
  {
    match v
    case String(s) =>
      EscapeRoundTrip(s);
      EscapeLength(s);
      Escape(s)
    case Number(n) => IntText(n)
    case Boolean(b) => if b then "true" else "false"
    case Null => ""
    case Object(_) => ""
    case Array(_) => ""
  }

  /** find_pair_by_key: the position of the first entry of an object with the given key. */
  function FindPairByKey(obj: Value, key: string): (r: Option<nat>)
    ensures r.Some? ==> obj.Object? && r.value < |obj.pairs| && obj.pairs[r.value].key == key
    ensures r.Some? ==> forall j :: 0 <= j < r.value ==> obj.pairs[j].key != key
    ensures r.None? ==> !obj.Object? || forall j :: 0 <= j < |obj.pairs| ==> obj.pairs[j].key != key
  {
    if obj.Object? then FirstWithKey(obj.pairs, PairKey, key, 0) else None
  }

  /** The cell written for column `column` of a row sourced from `obj`: empty when the key is missing. */
  function CellFor(obj: Value, column: string): string {
    match FindPairByKey(obj, column)
    case None => ""
    case Some(k) => CellText(obj.pairs[k].value)
  }

  /** The cells of a row sourced from `obj`, one per column, in column order. */
  function RowCells(obj: Value, columns: seq<string>): (cells: seq<string>)
    ensures |cells| == |columns|
    ensures forall i :: 0 <= i < |columns| ==> cells[i] == CellFor(obj, columns[i])
  {
    if columns == [] then [] else [CellFor(obj, columns[0])] + RowCells(obj, columns[1..])
  }

  /** The columns after the first: the ones a data row fills from the source object. */
  function Tail(columns: seq<string>): seq<string> {
    if columns == [] then [] else columns[1..]
  }

  /** A line of a table file: the header or one data row. */
  datatype Line = Header(names: seq<string>) | Row(id: int, cells: seq<string>)

  /** The comma-separated fields of a line. */
  function Fields(line: Line): seq<string> {
    match line
    case Header(names) => names
    case Row(id, cells) => [IntText(id)] + cells
  }

  /** The fields after the first, each written as a comma and the field. */
  function CommaPrefixed(fields: seq<string>): string {
    if fields == [] then "" else "," + fields[0] + CommaPrefixed(fields[1..])
  }

  /** The text of a line: the first field, then comma-prefixed fields, then a line feed. */
  function LineText(line: Line): string
    requires |Fields(line)| >= 1
  {
    var fs := Fields(line);
    fs[0] + CommaPrefixed(fs[1..]) + "\n"
  }

  /** The pieces of `s` between its commas (a reader's view of one line without its line feed). */
  function SplitFields(s: string): (fs: seq<string>)
    ensures |fs| >= 1
  {
    if s == [] then [""]
    else
      var rest := SplitFields(s[1..]);
      if s[0] == ',' then [""] + rest else [[s[0]] + rest[0]] + rest[1..]
  }

  lemma {:induction false} SplitAfterField(a: string, s: string)
    requires forall i :: 0 <= i < |a| ==> a[i] != ','
    ensures SplitFields(a + s) == [a + SplitFields(s)[0]] + SplitFields(s)[1..]
  {
    if a != [] {
      assert (a + s)[1..] == a[1..] + s;
      SplitAfterField(a[1..], s);
      assert [a[0]] + (a[1..] + SplitFields(s)[0]) == a + SplitFields(s)[0];
    } else {
      var fs := SplitFields(s);
      assert a + s == s && a + fs[0] == fs[0];
      assert [fs[0]] + fs[1..] == fs;
    }
  }

  lemma {:induction false} SplitJoined(fields: seq<string>)
    requires |fields| >= 1
    requires forall k, i :: 0 <= k < |fields| && 0 <= i < |fields[k]| ==> fields[k][i] != ','
    ensures SplitFields(fields[0] + CommaPrefixed(fields[1..])) == fields
    decreases |fields|
  {
    var rest := fields[1..];
    SplitAfterField(fields[0], CommaPrefixed(rest));
    if rest == [] {
      assert fields[0] + "" == fields[0];
    } else {
      SplitJoined(rest);
      assert CommaPrefixed(rest) == "," + (rest[0] + CommaPrefixed(rest[1..]));
      assert ("," + (rest[0] + CommaPrefixed(rest[1..])))[1..] == rest[0] + CommaPrefixed(rest[1..]);
      assert SplitFields(CommaPrefixed(rest)) == [""] + rest;
      assert fields[0] + "" == fields[0];
      assert fields == [fields[0]] + rest;
    }
  }

  /**
   * Reading a written line back: dropping its line feed and splitting at
   * the commas gives its fields again, provided no field holds a comma (a
   * quoted cell with a comma needs a quote-aware reader).
   */
  lemma LineRoundTrip(line: Line)
    requires |Fields(line)| >= 1
    requires forall k, i :: 0 <= k < |Fields(line)| && 0 <= i < |Fields(line)[k]| ==> Fields(line)[k][i] != ','
    ensures var text := LineText(line);
      |text| >= 1 && text[|text| - 1] == '\n' && SplitFields(text[..|text| - 1]) == Fields(line)
  {
    var fs := Fields(line);
    var text := LineText(line);
    assert text[..|text| - 1] == fs[0] + CommaPrefixed(fs[1..]);
    SplitJoined(fs);
  }

  /**
   * A data row puts the id under the first column and fills the other
   * columns from the source object, so it has as many fields as the header
   * and the first column's own value is never written.
   */
  lemma RowLayout(obj: Value, columns: seq<string>, id: int)
    requires |columns| >= 1
    ensures var row := Fields(Row(id, RowCells(obj, Tail(columns))));
      && |row| == |Fields(Header(columns))| == |columns|
      && row[0] == IntText(id)
      && forall m :: 1 <= m < |columns| ==> row[m] == CellFor(obj, columns[m])
  {
  }
}
