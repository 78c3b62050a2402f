/**
Tab-separated output. Every special character of a field is escaped, so the raw tabs and newlines that remain are
separators and the rows can be read back.
 */
module Tsv {
  import opened Sequences
  import opened Wrappers

  /** The letter that stands for a special character after a backslash. */
  function EscapeLetter(c: char): Option<char> {
    if c == '\0' then Some('0')
    else if c == '\U{0008}' then Some('b')
    else if c == '\U{000C}' then Some('f')
    else if c == '\n' then Some('n')
    else if c == '\r' then Some('r')
    else if c == '\t' then Some('t')
    else if c == '\\' then Some('\\')
    else None
  }

  function Unescape(letter: char): Option<char> {
    if letter == '0' then Some('\0')
    else if letter == 'b' then Some('\U{0008}')
    else if letter == 'f' then Some('\U{000C}')
    else if letter == 'n' then Some('\n')
    else if letter == 'r' then Some('\r')
    else if letter == 't' then Some('\t')
    else if letter == '\\' then Some('\\')
    else None
  }

  function EscapeCharacter(c: char): string {
    if EscapeLetter(c).Some? then ['\\', EscapeLetter(c).value] else [c]
  }

  function Escape(s: string): string {
    if s == "" then "" else EscapeCharacter(s[0]) + Escape(s[1..])
  }

  function FormatRow(row: seq<string>): string {
    if row == [] then "\n"
    else Escape(row[0]) + (if |row| > 1 then "\t" else "") + FormatRow(row[1..])
  }

  function FormatRows(rows: seq<seq<string>>): string {
    if rows == [] then "" else FormatRow(rows[0]) + FormatRows(rows[1..])
  }

  lemma {:induction false} FormatRowsConcat(a: seq<seq<string>>, b: seq<seq<string>>)
    ensures FormatRows(a + b) == FormatRows(a) + FormatRows(b)
  {
    if a == [] {
      assert a + b == b;
    } else {
      assert (a + b)[1..] == a[1..] + b;
      FormatRowsConcat(a[1..], b);
    }
  }

  class TsvPrinter {
    const fieldNames: seq<string>
    var needHeader: bool
    /** What has been written. */
    var written: string

    constructor (fieldNames: seq<string>, header: bool)
      ensures this.fieldNames == fieldNames && needHeader == header && written == ""
    {
      this.fieldNames := fieldNames;
      needHeader := header;
      written := "";
    }

    /** The header row while it is still to be printed. */
    function Header(): seq<seq<string>>
      reads this
    {
      if needHeader then [fieldNames] else []
    }

    /** The header goes before the first rows, and only there. */
    method PrintRows(rows: seq<seq<string>>)
      modifies this
      ensures !needHeader
      ensures written == old(written) + FormatRows(old(Header()) + rows)
      decreases if needHeader then 1 else 0
    {
      FormatRowsConcat(Header(), rows);
      if needHeader {
        needHeader := false;
        PrintRows([fieldNames]);
        assert [] + [fieldNames] == [fieldNames];
      }
      WriteRows(rows);
    }

    /** Prints the header if no rows were. */
    method Finish()
      modifies this
      ensures !needHeader
      ensures written == old(written) + FormatRows(old(Header()))
    {
      PrintRows([]);
      assert old(Header()) + [] == old(Header());
    }

    method WriteRows(rows: seq<seq<string>>)
      modifies `written
      ensures written == old(written) + FormatRows(rows)
    {
      var i := 0;
      while i < |rows|
        invariant i <= |rows|
        invariant written + FormatRows(rows[i..]) == old(written) + FormatRows(rows)
      {
        var text := BuildRow(rows[i]);
        assert rows[i..][1..] == rows[i + 1..];
        written := written + text;
        i := i + 1;
      }
      assert written + FormatRows(rows[i..]) == written;
    }
  }

  /** The loop over the fields of a row. */
  method BuildRow(row: seq<string>) returns (sb: string)
    ensures sb == FormatRow(row)
  {
    sb := "";
    var i := 0;
    while i < |row|
      invariant i <= |row| && sb + FormatRow(row[i..]) == FormatRow(row)
    {
      NextField(sb, row, i);
      sb := AppendEscaped(sb, row[i]);
      if i + 1 < |row| {
        sb := sb + "\t";
      }
      i := i + 1;
    }
    sb := sb + "\n";
  }

  lemma NextField(sb: string, row: seq<string>, i: nat)
    requires i < |row|
    ensures sb + FormatRow(row[i..])
            == sb + Escape(row[i]) + (if i + 1 < |row| then "\t" else "") + FormatRow(row[i + 1..])
  {
    assert row[i..][1..] == row[i + 1..];
  }

  /** The loop over the characters of a field. */
  method AppendEscaped(sb: string, s: string) returns (r: string)
    ensures r == sb + Escape(s)
  {
    r := sb;
    var i := 0;
    while i < |s|
      invariant i <= |s| && r + Escape(s[i..]) == sb + Escape(s)
    {
      assert s[i..][1..] == s[i + 1..];
      r := r + EscapeCharacter(s[i]);
      i := i + 1;
    }
  }

  // ----- Reading back

  /** Reads one field up to its separator: the field, whether the separator was a newline, and the text after it. */
  function ReadField(text: string): Option<(string, bool, string)> {
    if text == "" then None
    else if text[0] == '\t' then Some(("", false, text[1..]))
    else if text[0] == '\n' then Some(("", true, text[1..]))
    else if text[0] == '\\' then
      if |text| < 2 || Unescape(text[1]).None? then None
      else
        var r := ReadField(text[2..]);
        if r.None? then None else Some(([Unescape(text[1]).value] + r.value.0, r.value.1, r.value.2))
    else
      var r := ReadField(text[1..]);
      if r.None? then None else Some(([text[0]] + r.value.0, r.value.1, r.value.2))
  }

  lemma {:induction false} ReadFieldShrinks(text: string)
    ensures ReadField(text).Some? ==> |ReadField(text).value.2| < |text|
  {
    if text != "" && text[0] != '\t' && text[0] != '\n' {
      if text[0] == '\\' {
        if |text| >= 2 { ReadFieldShrinks(text[2..]); }
      } else {
        ReadFieldShrinks(text[1..]);
      }
    }
  }

  function ReadRow(text: string): Option<(seq<string>, string)>
    decreases |text|
  {
    var f := ReadField(text);
    if f.None? then None
    else if f.value.1 then Some(([f.value.0], f.value.2))
    else
      ReadFieldShrinks(text);
      var r := ReadRow(f.value.2);
      if r.None? then None else Some(([f.value.0] + r.value.0, r.value.1))
  }

  lemma {:induction false} ReadRowShrinks(text: string)
    ensures ReadRow(text).Some? ==> |ReadRow(text).value.1| < |text|
    decreases |text|
  {
    ReadFieldShrinks(text);
    var f := ReadField(text);
    if f.Some? && !f.value.1 {
      ReadRowShrinks(f.value.2);
    }
  }

  function ReadRows(text: string): Option<seq<seq<string>>>
    decreases |text|
  {
    if text == "" then Some([])
    else
      var r := ReadRow(text);
      if r.None? then None
      else
        ReadRowShrinks(text);
        var rest := ReadRows(r.value.1);
        if rest.None? then None else Some([r.value.0] + rest.value)
  }

  lemma LetterUndone(c: char)
    ensures match EscapeLetter(c)
            case Some(letter) => Unescape(letter) == Some(c)
            case None => c != '\t' && c != '\n' && c != '\\'
  {
  }

  /** The result of reading with `c` before the field. */
  function Prefixed(c: char, r: (string, bool, string)): (string, bool, string) {
    ([c] + r.0, r.1, r.2)
  }

  lemma PairReads(letter: char, tail: string)
    requires ReadField(tail).Some? && Unescape(letter).Some?
    ensures ReadField(['\\', letter] + tail) == Some(Prefixed(Unescape(letter).value, ReadField(tail).value))
  {
    assert (['\\', letter] + tail)[2..] == tail;
  }

  lemma PlainReads(c: char, tail: string)
    requires ReadField(tail).Some? && c != '\t' && c != '\n' && c != '\\'
    ensures ReadField([c] + tail) == Some(Prefixed(c, ReadField(tail).value))
  {
    assert ([c] + tail)[1..] == tail;
  }

  lemma CharacterReadsBack(c: char, tail: string)
    requires ReadField(tail).Some?
    ensures ReadField(EscapeCharacter(c) + tail) == Some(Prefixed(c, ReadField(tail).value))
  {
    LetterUndone(c);
    match EscapeLetter(c)
    case Some(letter) => PairReads(letter, tail);
    case None => PlainReads(c, tail);
  }

  /** A field reads back up to the separator that follows it. */
  lemma {:induction false} FieldReadsBack(s: string, separator: char, rest: string)
    requires separator == '\t' || separator == '\n'
    ensures ReadField(Escape(s) + [separator] + rest) == Some((s, separator == '\n', rest))
  {
    if s == "" {
      assert Escape(s) + [separator] + rest == [separator] + rest;
    } else {
      FieldReadsBack(s[1..], separator, rest);
      var tail := Escape(s[1..]) + [separator] + rest;
      CharacterReadsBack(s[0], tail);
      assert Escape(s) + [separator] + rest == EscapeCharacter(s[0]) + tail;
      assert s == [s[0]] + s[1..];
    }
  }

  lemma {:induction false} RowReadsBack(row: seq<string>, rest: string)
    requires row != []
    ensures ReadRow(FormatRow(row) + rest) == Some((row, rest))
  {
    assert row == [row[0]] + row[1..];
    if |row| == 1 {
      assert row == [row[0]];
      FieldReadsBack(row[0], '\n', rest);
      assert FormatRow(row) + rest == Escape(row[0]) + ['\n'] + rest;
    } else {
      FieldReadsBack(row[0], '\t', FormatRow(row[1..]) + rest);
      assert FormatRow(row) + rest == Escape(row[0]) + ['\t'] + (FormatRow(row[1..]) + rest);
      RowReadsBack(row[1..], rest);
    }
  }

  lemma {:induction false} RowsWithFieldsReadBack(rows: seq<seq<string>>)
    requires forall i :: 0 <= i < |rows| ==> rows[i] != []
    ensures ReadRows(FormatRows(rows)) == Some(rows)
  {
    if rows == [] {
    } else {
      RowReadsBack(rows[0], FormatRows(rows[1..]));
      RowsWithFieldsReadBack(rows[1..]);
      assert rows == [rows[0]] + rows[1..];
    }
  }

  /** Whatever is read, every row has a field. */
  lemma {:induction false} ReadRowsHaveFields(text: string)
    ensures ReadRows(text).Some? ==> forall i :: 0 <= i < |ReadRows(text).value| ==> ReadRows(text).value[i] != []
    decreases |text|
  {
    if text != "" && ReadRow(text).Some? {
      ReadRowShrinks(text);
      ReadRowsHaveFields(ReadRow(text).value.1);
    }
  }

  /** Printed rows read back as exactly the rows that were printed if and only if every row has a field: a row without
      fields prints like a row with one empty field. */
  lemma RowsReadBackIff(rows: seq<seq<string>>)
    ensures ReadRows(FormatRows(rows)) == Some(rows) <==> forall i :: 0 <= i < |rows| ==> rows[i] != []
  {
    ReadRowsHaveFields(FormatRows(rows));
    if forall i :: 0 <= i < |rows| ==> rows[i] != [] {
      RowsWithFieldsReadBack(rows);
    }
  }

  /** Prints batch after batch and finishes: the text is the header, if any, and all rows. It reads back as exactly
      these rows if and only if each of them has a field. */
  method PrintAll(printer: TsvPrinter, batches: seq<seq<seq<string>>>)
    modifies printer
    ensures var rows := old(printer.Header()) + Concat(batches);
            && printer.written == old(printer.written) + FormatRows(rows)
            && (old(printer.written) == "" ==>
                  (ReadRows(printer.written) == Some(rows) <==> forall i :: 0 <= i < |rows| ==> rows[i] != []))
  {
    ghost var rows := printer.Header() + Concat(batches);
    PrintBatches(printer, batches);
    printer.Finish();
    RowsReadBackIff(rows);
    assert "" + FormatRows(rows) == FormatRows(rows);
  }

  /** The text so far with the header that may still be missing. */
  method PrintBatches(printer: TsvPrinter, batches: seq<seq<seq<string>>>)
    modifies printer
    ensures printer.written + FormatRows(printer.Header())
            == old(printer.written) + FormatRows(old(printer.Header()) + Concat(batches))
  {
    ghost var all := printer.written + FormatRows(printer.Header() + Concat(batches));
    var i := 0;
    assert batches[0..] == batches;
    while i < |batches|
      invariant i <= |batches| && printer.written + FormatRows(printer.Header() + Concat(batches[i..])) == all
    {
      NextBatch(printer.written, printer.Header(), batches, i);
      printer.PrintRows(batches[i]);
      i := i + 1;
    }
    assert printer.Header() + Concat(batches[i..]) == printer.Header();
  }

  lemma NextBatch(text: string, header: seq<seq<string>>, batches: seq<seq<seq<string>>>, i: nat)
    requires i < |batches|
    ensures text + FormatRows(header + Concat(batches[i..]))
            == text + FormatRows(header + batches[i]) + FormatRows([] + Concat(batches[i + 1..]))
  {
    var rest := Concat(batches[i + 1..]);
    assert batches[i..][1..] == batches[i + 1..];
    assert header + Concat(batches[i..]) == (header + batches[i]) + rest && [] + rest == rest;
    FormatRowsConcat(header + batches[i], rest);
  }

  // ----- The shape of a row

  function Occurrences(c: char, s: string): nat {
    if s == "" then 0 else (if s[0] == c then 1 else 0) + Occurrences(c, s[1..])
  }

  lemma {:induction false} OccurrencesConcat(c: char, s: string, t: string)
    ensures Occurrences(c, s + t) == Occurrences(c, s) + Occurrences(c, t)
  {
    if s == "" {
      assert s + t == t;
    } else {
      assert (s + t)[1..] == s[1..] + t;
      OccurrencesConcat(c, s[1..], t);
    }
  }

  /** What is written for each special character, and that all others are written as they are. */
  lemma EscapeTable(c: char)
    ensures EscapeCharacter('\0') == "\\0" && EscapeCharacter('\U{0008}') == "\\b" && EscapeCharacter('\U{000C}') == "\\f"
    ensures EscapeCharacter('\n') == "\\n" && EscapeCharacter('\r') == "\\r" && EscapeCharacter('\t') == "\\t"
    ensures EscapeCharacter('\\') == "\\\\"
    ensures !Special(c) ==> EscapeCharacter(c) == [c]
  {
  }

  predicate Special(c: char) {
    c == '\0' || c == '\U{0008}' || c == '\U{000C}' || c == '\n' || c == '\r' || c == '\t' || c == '\\'
  }

  /** How many characters of a text are special. */
  function Specials(s: string): nat {
    if s == "" then 0 else (if Special(s[0]) then 1 else 0) + Specials(s[1..])
  }

  lemma OccurrencesInEscape(c: char, d: char)
    ensures Special(d) && d != '\\' ==> Occurrences(d, EscapeCharacter(c)) == 0
    ensures Occurrences('\\', EscapeCharacter(c)) == if c == '\\' then 2 else if Special(c) then 1 else 0
  {
    match EscapeLetter(c)
    case Some(letter) =>
      PairOccurrences(d, '\\', letter);
      PairOccurrences('\\', '\\', letter);
    case None =>
      OneOccurrence(d, c);
      OneOccurrence('\\', c);
  }

  lemma PairOccurrences(c: char, a: char, b: char)
    ensures Occurrences(c, [a, b]) == (if c == a then 1 else 0) + (if c == b then 1 else 0)
  {
    assert [a, b][1..] == [b];
    OneOccurrence(c, b);
  }

  /** No special character but the backslash survives in an escaped field, and every special character costs one
      backslash. */
  lemma {:induction false} EscapeHides(s: string, d: char)
    ensures Special(d) && d != '\\' ==> Occurrences(d, Escape(s)) == 0
    ensures Occurrences('\\', Escape(s)) == Specials(s) + Occurrences('\\', s)
    ensures |Escape(s)| == |s| + Specials(s)
  {
    if s == "" {
    } else {
      EscapeHides(s[1..], d);
      OccurrencesInEscape(s[0], d);
      OccurrencesConcat(d, EscapeCharacter(s[0]), Escape(s[1..]));
      OccurrencesConcat('\\', EscapeCharacter(s[0]), Escape(s[1..]));
    }
  }

  lemma FieldAddsNone(c: char, field: string, separator: string, rest: string)
    requires c == '\t' || c == '\n'
    ensures Occurrences(c, Escape(field) + separator + rest) == Occurrences(c, separator) + Occurrences(c, rest)
  {
    EscapeHides(field, c);
    OccurrencesConcat(c, Escape(field) + separator, rest);
    OccurrencesConcat(c, Escape(field), separator);
  }

  lemma OneOccurrence(c: char, d: char)
    ensures Occurrences(c, [d]) == if c == d then 1 else 0
  {
    assert [d][1..] == "";
  }

  lemma {:induction false} SeparatorsOfRow(c: char, row: seq<string>)
    requires c == '\t' || c == '\n'
    ensures Occurrences(c, FormatRow(row)) == if c == '\n' then 1 else if row == [] then 0 else |row| - 1
  {
    OneOccurrence(c, '\n');
    OneOccurrence(c, '\t');
    if row == [] {
    } else {
      SeparatorsOfRow(c, row[1..]);
      FieldAddsNone(c, row[0], if |row| > 1 then "\t" else "", FormatRow(row[1..]));
    }
  }

  lemma {:induction false} RowEnds(row: seq<string>)
    ensures |FormatRow(row)| > 0 && FormatRow(row)[|FormatRow(row)| - 1] == '\n'
  {
    if row == [] {
    } else {
      RowEnds(row[1..]);
    }
  }

  /** One raw newline, at the end, and one raw tab fewer than fields. */
  lemma RowShape(row: seq<string>)
    ensures Occurrences('\n', FormatRow(row)) == 1
    ensures Occurrences('\t', FormatRow(row)) == if row == [] then 0 else |row| - 1
    ensures |FormatRow(row)| > 0 && FormatRow(row)[|FormatRow(row)| - 1] == '\n'
  {
    SeparatorsOfRow('\n', row);
    SeparatorsOfRow('\t', row);
    RowEnds(row);
  }
}
