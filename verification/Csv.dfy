/**
  The CSV export: fields are quoted only where they must be. It is read back by readers that
  follow section 2 of RFC 4180, with a bare line feed between records - which the export writes,
  where the RFC asks for CRLF - or with both.
 */
module Csv {
  import opened Common

  /** A table cell: null and undefined are exported as the empty string. */
  datatype Cell = Missing | Value(text: string)

  function CellText(c: Cell): string {
    if c.Value? then c.text else ""
  }

  predicate Special(c: char) {
    c == '\"' || c == ',' || c == '\n'
  }

  predicate Plain(s: string) {
    forall k | 0 <= k < |s| :: !Special(s[k])
  }

  function Doubled(s: string): string {
    if s == "" then "" else (if s[0] == '\"' then "\"\"" else [s[0]]) + Doubled(s[1..])
  }

  /** `csvEscape`, once the value is a string. */
  function Escaped(s: string): string {
    if Plain(s) then s else "\"" + Doubled(s) + "\""
  }

  function Join(parts: seq<string>, mark: char): string {
    if parts == [] then ""
    else if |parts| == 1 then parts[0]
    else parts[0] + ([mark] + Join(parts[1..], mark))
  }

  function Each(cells: seq<Cell>): seq<string> {
    seq(|cells|, k requires 0 <= k < |cells| => CellText(cells[k]))
  }

  function Rows(cells: seq<seq<Cell>>): seq<seq<string>> {
    seq(|cells|, i requires 0 <= i < |cells| => Each(cells[i]))
  }

  function EscapedRow(fields: seq<string>): seq<string> {
    seq(|fields|, k requires 0 <= k < |fields| => Escaped(fields[k]))
  }

  function RowLine(fields: seq<string>): string {
    Join(EscapedRow(fields), ',')
  }

  function RowLines(rows: seq<seq<string>>): seq<string> {
    seq(|rows|, k requires 0 <= k < |rows| => RowLine(rows[k]))
  }

  /** The exported text: the header names as they are, then a line per row. */
  function Export(headers: seq<string>, rows: seq<seq<string>>): string {
    Join([Join(headers, ',')] + RowLines(rows), '\n')
  }

  // ---- RFC 4180, section 2 ----

  /** The rest of a quoted field: what it holds and what follows the closing quote. */
  function ReadQuoted(s: string): (r: Option<(string, string)>)
    ensures r.Some? ==> |r.value.1| < |s|
  {
    if s == "" then None
    else if s[0] != '\"' then
      match ReadQuoted(s[1..])
      case None => None
      case Some((v, rest)) => Some(([s[0]] + v, rest))
    else if |s| > 1 && s[1] == '\"' then
      match ReadQuoted(s[2..])
      case None => None
      case Some((v, rest)) => Some(("\"" + v, rest))
    else Some(("", s[1..]))
  }

  /** The length of the record separator at the front: a line feed, or for some readers also CRLF. */
  function Break(s: string, crlf: bool): nat {
    if s != "" && s[0] == '\n' then 1
    else if crlf && |s| > 1 && s[0] == '\r' && s[1] == '\n' then 2
    else 0
  }

  /** A field that is not quoted; it may hold no quote. */
  function ReadPlain(s: string, crlf: bool): (r: Option<(string, string)>)
    ensures r.Some? ==> |r.value.1| <= |s|
  {
    if s == "" || s[0] == ',' || Break(s, crlf) > 0 then Some(("", s))
    else if s[0] == '\"' then None
    else
      match ReadPlain(s[1..], crlf)
      case None => None
      case Some((v, rest)) => Some(([s[0]] + v, rest))
  }

  function ReadField(s: string, crlf: bool): (r: Option<(string, string)>)
    ensures r.Some? ==> |r.value.1| <= |s|
  {
    if s != "" && s[0] == '\"' then ReadQuoted(s[1..]) else ReadPlain(s, crlf)
  }

  /** All records of a text; None if it is malformed. */
  function ReadRecords(s: string, crlf: bool): (r: Option<seq<seq<string>>>)
    ensures r.Some? ==> r.value != [] && r.value[0] != []
    decreases |s|
  {
    match ReadField(s, crlf)
    case None => None
    case Some((v, rest)) =>
      if rest == "" then Some([[v]])
      else if rest[0] == ',' then
        (match ReadRecords(rest[1..], crlf)
         case None => None
         case Some(more) => Some([[v] + more[0]] + more[1..]))
      else if Break(rest, crlf) > 0 then
        (match ReadRecords(rest[Break(rest, crlf)..], crlf)
         case None => None
         case Some(more) => Some([[v]] + more))
      else None
  }

  // ---- Reading what was exported ----

  /** What may follow a field. */
  predicate Ends(behind: string) {
    behind == "" || behind[0] == ',' || behind[0] == '\n'
  }

  lemma {:induction false} QuotedReads(s: string, behind: string)
    requires Ends(behind)
    ensures ReadQuoted(Doubled(s) + ("\"" + behind)) == Some((s, behind))
  {
    var closing := "\"" + behind;
    if s == "" {
      assert Doubled(s) + closing == closing;
      assert closing[1..] == behind;
    } else {
      QuotedReads(s[1..], behind);
      var rest := Doubled(s[1..]) + closing;
      assert s == [s[0]] + s[1..];
      if s[0] == '\"' {
        assert Doubled(s) + closing == "\"\"" + rest;
        assert ("\"\"" + rest)[2..] == rest;
      } else {
        assert Doubled(s) + closing == [s[0]] + rest;
        assert ([s[0]] + rest)[1..] == rest;
      }
    }
  }

  /** What a reader that also takes CRLF makes of a last field printed as it is and ending in a carriage return. */
  function Clipped(s: string): string {
    if Plain(s) && s != "" && s[|s| - 1] == '\r' then s[..|s| - 1] else s
  }

  /** Whether it does, in front of what follows the field. */
  predicate Clips(behind: string, crlf: bool) {
    crlf && behind != "" && behind[0] == '\n'
  }

  /** A field read, and what is left. */
  function FieldSeen(s: string, behind: string, crlf: bool): (string, string) {
    if Clips(behind, crlf) && Clipped(s) != s then (Clipped(s), "\r" + behind) else (s, behind)
  }

  lemma ClippedTail(s: string)
    requires Plain(s) && |s| > 1
    ensures Plain(s[1..]) && (Clipped(s) == s <==> Clipped(s[1..]) == s[1..])
    ensures Clipped(s) == [s[0]] + Clipped(s[1..])
  {
    assert s == [s[0]] + s[1..];
    assert s[..|s| - 1] == [s[0]] + s[1..][..|s| - 2];
  }

  lemma OneReads(c: char, behind: string, crlf: bool)
    requires !Special(c) && Ends(behind)
    ensures ReadPlain([c] + behind, crlf) == Some(FieldSeen([c], behind, crlf))
  {
    assert ([c] + behind)[1..] == behind;
    assert Clipped([c]) == if c == '\r' then "" else [c];
    assert ReadPlain(behind, crlf) == Some(("", behind));
    assert behind != "" ==> ([c] + behind)[1] == behind[0];
    assert [c] + "" == [c];
  }

  lemma PlainStep(c: char, behind: string, crlf: bool)
    requires !Special(c) && (behind != "" ==> behind[0] != '\n') && ReadPlain(behind, crlf).Some?
    ensures var (v, rest) := ReadPlain(behind, crlf).value; ReadPlain([c] + behind, crlf) == Some(([c] + v, rest))
  {
    assert ([c] + behind)[1..] == behind;
  }

  lemma PlainMore(c: char, rest: string, behind: string, crlf: bool)
    requires !Special(c) && rest != "" && Plain(rest) && Plain([c] + rest)
    requires ReadPlain(rest + behind, crlf) == Some(FieldSeen(rest, behind, crlf))
    ensures ReadPlain([c] + rest + behind, crlf) == Some(FieldSeen([c] + rest, behind, crlf))
  {
    hide ReadPlain, Clipped, Clips;
    assert ([c] + rest)[1..] == rest;
    ClippedTail([c] + rest);
    assert (rest + behind)[0] == rest[0];
    PlainStep(c, rest + behind, crlf);
    Regroup([c], rest, behind);
  }

  lemma {:induction false} PlainReads(s: string, behind: string, crlf: bool)
    requires Plain(s) && Ends(behind)
    ensures ReadPlain(s + behind, crlf) == Some(FieldSeen(s, behind, crlf))
    decreases |s|
  {
    hide ReadPlain, FieldSeen, Ends;
    if s == "" {
      EmptyReads(behind, crlf);
    } else if |s| == 1 {
      OneReads(s[0], behind, crlf);
      assert s == [s[0]];
    } else {
      PlainReads(s[1..], behind, crlf);
      assert s == [s[0]] + s[1..];
      PlainMore(s[0], s[1..], behind, crlf);
    }
  }

  lemma EmptyReads(behind: string, crlf: bool)
    requires Ends(behind)
    ensures ReadPlain("" + behind, crlf) == Some(FieldSeen("", behind, crlf))
  {
    assert "" + behind == behind;
  }

  lemma Requoted(inner: string, behind: string)
    ensures var all := "\"" + inner + "\"" + behind; all[0] == '\"' && all[1..] == inner + ("\"" + behind)
  {
  }

  lemma FieldReads(s: string, behind: string, crlf: bool)
    requires Ends(behind)
    ensures ReadField(Escaped(s) + behind, crlf) == Some(FieldSeen(s, behind, crlf))
  {
    if Plain(s) {
      hide ReadPlain, FieldSeen;
      PlainReads(s, behind, crlf);
      PlainUnquoted(s, behind);
    } else {
      hide Doubled, ReadQuoted;
      QuotedReads(s, behind);
      Requoted(Doubled(s), behind);
    }
  }

  lemma PlainUnquoted(s: string, behind: string)
    requires Plain(s) && Ends(behind)
    ensures s + behind != "" ==> (s + behind)[0] != '\"'
  {
  }

  /** What is read of a row; `clip` when it is read by a reader that also takes CRLF and another row follows. */
  function RowSeen(fields: seq<string>, clip: bool): seq<string> {
    if fields != [] && clip then fields[..|fields| - 1] + [Clipped(fields[|fields| - 1])] else fields
  }

  function RowsSeen(rows: seq<seq<string>>, crlf: bool): seq<seq<string>> {
    if |rows| <= 1 then rows else [RowSeen(rows[0], crlf)] + RowsSeen(rows[1..], crlf)
  }

  lemma RowSeenTail(fields: seq<string>, clip: bool)
    requires |fields| > 1
    ensures RowSeen(fields, clip) == [fields[0]] + RowSeen(fields[1..], clip)
  {
    assert fields == [fields[0]] + fields[1..];
    assert fields[..|fields| - 1] == [fields[0]] + fields[1..][..|fields| - 2];
  }

  /** The records behind a row. */
  function Behind(behind: string, crlf: bool): Option<seq<seq<string>>> {
    if behind == "" then Some([]) else ReadRecords(behind[1..], crlf)
  }

  lemma LastFieldReads(f: string, behind: string, crlf: bool)
    requires (behind == "" || behind[0] == '\n') && Behind(behind, crlf).Some?
    ensures ReadRecords(Escaped(f) + behind, crlf)
              == Some([[if Clips(behind, crlf) then Clipped(f) else f]] + Behind(behind, crlf).value)
  {
    hide ReadField, Escaped, Clipped;
    FieldReads(f, behind, crlf);
    var rest := FieldSeen(f, behind, crlf).1;
    assert behind != "" ==> Break(rest, crlf) > 0 && rest[Break(rest, crlf)..] == behind[1..];
    assert [[f]] + [] == [[f]];
  }

  /** One record, and whatever records are behind it. */
  lemma {:induction false} RowReads(fields: seq<string>, behind: string, crlf: bool)
    requires fields != [] && (behind == "" || behind[0] == '\n') && Behind(behind, crlf).Some?
    ensures ReadRecords(RowLine(fields) + behind, crlf)
              == Some([RowSeen(fields, Clips(behind, crlf))] + Behind(behind, crlf).value)
    decreases |fields|
  {
    hide ReadField, Escaped, Clipped, Clips;
    var f := fields[0];
    if |fields| == 1 {
      LastFieldReads(f, behind, crlf);
      assert fields == [f] && RowLine(fields) == Escaped(f);
      assert RowSeen(fields, Clips(behind, crlf)) == [if Clips(behind, crlf) then Clipped(f) else f];
    } else {
      RowReads(fields[1..], behind, crlf);
      var more := RowLine(fields[1..]) + behind;
      assert EscapedRow(fields)[1..] == EscapedRow(fields[1..]);
      assert RowLine(fields) + behind == Escaped(f) + ("," + more);
      NotLastFieldReads(f, more, crlf);
      RowSeenTail(fields, Clips(behind, crlf));
    }
  }

  lemma NotLastFieldReads(f: string, more: string, crlf: bool)
    requires ReadRecords(more, crlf).Some?
    ensures var records := ReadRecords(more, crlf).value;
            ReadRecords(Escaped(f) + ("," + more), crlf) == Some([[f] + records[0]] + records[1..])
  {
    hide ReadField, Escaped;
    FieldReads(f, "," + more, crlf);
    assert ("," + more)[1..] == more;
  }

  lemma {:induction false} RowsRead(rows: seq<seq<string>>, crlf: bool)
    requires rows != [] && forall k | 0 <= k < |rows| :: rows[k] != []
    ensures ReadRecords(Join(RowLines(rows), '\n'), crlf) == Some(RowsSeen(rows, crlf))
  {
    hide RowLine, ReadRecords, RowSeen;
    if |rows| == 1 {
      RowReads(rows[0], "", crlf);
      assert RowLine(rows[0]) + "" == RowLine(rows[0]);
      RowUnclipped(rows[0]);
      assert rows == [rows[0]] + [];
    } else {
      RowsRead(rows[1..], crlf);
      assert RowLines(rows)[1..] == RowLines(rows[1..]);
      var behind := "\n" + Join(RowLines(rows[1..]), '\n');
      assert behind[1..] == Join(RowLines(rows[1..]), '\n');
      RowReads(rows[0], behind, crlf);
    }
  }

  lemma RowUnclipped(fields: seq<string>)
    ensures RowSeen(fields, false) == fields
  {
  }

  /** The row's last field is printed as it is and ends in a carriage return. */
  predicate EndsInReturn(fields: seq<string>) {
    fields != [] && Clipped(fields[|fields| - 1]) != fields[|fields| - 1]
  }

  /** No row but the last does. */
  predicate NoReturns(rows: seq<seq<string>>) {
    forall k | 0 <= k < |rows| - 1 :: !EndsInReturn(rows[k])
  }

  lemma RowSeenSame(fields: seq<string>, crlf: bool)
    ensures RowSeen(fields, crlf) == fields <==> !(crlf && EndsInReturn(fields))
  {
    hide Clipped;
    if fields != [] && crlf {
      assert fields == fields[..|fields| - 1] + [fields[|fields| - 1]];
      assert RowSeen(fields, crlf)[|fields| - 1] == Clipped(fields[|fields| - 1]);
    }
  }

  lemma {:induction false} RowsSeenSame(rows: seq<seq<string>>, crlf: bool)
    ensures RowsSeen(rows, crlf) == rows <==> (crlf ==> NoReturns(rows))
  {
    hide RowSeen, EndsInReturn;
    if |rows| <= 1 {
    } else {
      RowSeenSame(rows[0], crlf);
      RowsSeenSame(rows[1..], crlf);
      assert rows == [rows[0]] + rows[1..];
      assert RowsSeen(rows, crlf)[1..] == RowsSeen(rows[1..], crlf);
      assert forall k | 0 < k < |rows| - 1 :: rows[k] == rows[1..][k - 1];
      assert forall k | 0 <= k < |rows| - 2 :: rows[1..][k] == rows[k + 1];
    }
  }

  lemma PlainRow(headers: seq<string>)
    requires forall k | 0 <= k < |headers| :: Plain(headers[k])
    ensures EscapedRow(headers) == headers
  {
  }

  // ---- A header that is not plain does not come back ----

  function LeadingQuotes(s: string): nat {
    if s == "" || s[0] != '\"' then 0 else 1 + LeadingQuotes(s[1..])
  }

  lemma {:induction false} QuotesInFront(s: string, behind: string)
    requires Ends(behind)
    ensures LeadingQuotes(s + behind) == LeadingQuotes(s)
  {
    if s == "" {
      assert s + behind == behind;
    } else {
      assert (s + behind)[1..] == s[1..] + behind;
      QuotesInFront(s[1..], behind);
    }
  }

  lemma {:induction false} QuotesDoubled(s: string, behind: string)
    ensures LeadingQuotes(Doubled(s) + behind) >= 2 * LeadingQuotes(s)
  {
    if s != "" && s[0] == '\"' {
      var rest := Doubled(s[1..]) + behind;
      QuotesDoubled(s[1..], behind);
      assert Doubled(s) + behind == "\"\"" + rest;
      assert ("\"\"" + rest)[1..] == "\"" + rest && ("\"" + rest)[1..] == rest;
    }
  }

  /** What is read of a quoted field is how it would be printed. */
  lemma {:induction false} QuotedIsDoubled(s: string)
    requires ReadQuoted(s).Some?
    ensures s == Doubled(ReadQuoted(s).value.0) + "\"" + ReadQuoted(s).value.1
  {
    var (v, rest) := ReadQuoted(s).value;
    if s[0] != '\"' {
      QuotedIsDoubled(s[1..]);
      assert v[1..] == ReadQuoted(s[1..]).value.0;
    } else if |s| > 1 && s[1] == '\"' {
      QuotedIsDoubled(s[2..]);
      assert v[1..] == ReadQuoted(s[2..]).value.0;
    }
  }

  lemma {:induction false} PlainIsPlain(s: string, crlf: bool)
    ensures ReadPlain(s, crlf).Some? ==> Plain(ReadPlain(s, crlf).value.0)
  {
    if s == "" || Special(s[0]) {
    } else {
      PlainIsPlain(s[1..], crlf);
    }
  }

  /** An unescaped field that reads back as it was is plain. */
  lemma UnescapedReads(s: string, behind: string, crlf: bool)
    requires Ends(behind) && ReadField(s + behind, crlf).Some? && ReadField(s + behind, crlf).value.0 == s
    ensures Plain(s)
  {
    var t := s + behind;
    if t != "" && t[0] == '\"' {
      var rest := "\"" + ReadQuoted(t[1..]).value.1;
      QuotedIsDoubled(t[1..]);
      QuotesInFront(s, behind);
      QuotesDoubled(s, rest);
      assert t[1..] == Doubled(s) + rest;
    } else {
      PlainIsPlain(t, crlf);
    }
  }

  lemma {:induction false} HeaderReads(headers: seq<string>, behind: string, crlf: bool)
    requires headers != [] && (behind == "" || behind[0] == '\n')
    requires var r := ReadRecords(Join(headers, ',') + behind, crlf); r.Some? && r.value[0] == headers
    ensures forall k | 0 <= k < |headers| :: Plain(headers[k])
    decreases |headers|
  {
    hide ReadField, Plain;
    var h := headers[0];
    if |headers| == 1 {
      UnescapedReads(h, behind, crlf);
    } else {
      var more := Join(headers[1..], ',') + behind;
      assert Join(headers, ',') + behind == h + ("," + more);
      UnescapedReads(h, "," + more, crlf);
      assert Escaped(h) == h;
      FieldReads(h, "," + more, crlf);
      assert ("," + more)[1..] == more;
      assert ([h] + ReadRecords(more, crlf).value[0])[1..] == ReadRecords(more, crlf).value[0];
      HeaderReads(headers[1..], behind, crlf);
      assert forall k | 0 < k < |headers| :: headers[k] == headers[1..][k - 1];
    }
  }

  /**
    The export reads back as the header and exactly the cells, for every table with a column,
    if and only if the header names - which are printed unescaped - are plain and, for a reader
    that also ends records at CRLF, no row but the last ends in a field that is printed as it is
    and ends in a carriage return. Whatever else the cells hold is no obstacle.
   */
  lemma ExportReadsBack(headers: seq<string>, cells: seq<seq<Cell>>, crlf: bool)
    requires headers != []
    requires forall i | 0 <= i < |cells| :: |cells[i]| == |headers|
    ensures ReadRecords(Export(headers, Rows(cells)), crlf) == Some([headers] + Rows(cells))
       <==> (forall k | 0 <= k < |headers| :: Plain(headers[k])) && (crlf ==> NoReturns([headers] + Rows(cells)))
  {
    hide ReadRecords, Plain, EndsInReturn, RowsSeen;
    var rows := Rows(cells);
    if forall k | 0 <= k < |headers| :: Plain(headers[k]) {
      PlainRow(headers);
      assert RowLines([headers] + rows) == [Join(headers, ',')] + RowLines(rows);
      RowsRead([headers] + rows, crlf);
      RowsSeenSame([headers] + rows, crlf);
    } else if ReadRecords(Export(headers, rows), crlf) == Some([headers] + rows) {
      var behind := ExportSplits(headers, rows);
      HeaderReads(headers, behind, crlf);
    }
  }

  /** What a reader must find for a cell: its text, or nothing where there is none. */
  predicate Shows(field: string, c: Cell) {
    match c
    case Missing => field == ""
    case Value(text) => field == text
  }

  /** So, cell by cell: record i + 1 shows exactly the cells of row i. */
  lemma CellsReadBack(headers: seq<string>, cells: seq<seq<Cell>>)
    requires headers != [] && forall k | 0 <= k < |headers| :: Plain(headers[k])
    requires forall i | 0 <= i < |cells| :: |cells[i]| == |headers|
    ensures var r := ReadRecords(Export(headers, Rows(cells)), false);
            && r.Some? && |r.value| == |cells| + 1 && r.value[0] == headers
            && forall i | 0 <= i < |cells| ::
                 && |r.value[i + 1]| == |cells[i]|
                 && forall j | 0 <= j < |cells[i]| :: Shows(r.value[i + 1][j], cells[i][j])
  {
    hide ReadRecords, Export;
    ExportReadsBack(headers, cells, false);
    var r := ReadRecords(Export(headers, Rows(cells)), false);
    assert forall i | 0 <= i < |cells| :: r.value[i + 1] == Each(cells[i]);
  }

  lemma ExportSplits(headers: seq<string>, rows: seq<seq<string>>) returns (behind: string)
    ensures Export(headers, rows) == Join(headers, ',') + behind && (behind == "" || behind[0] == '\n')
  {
    var lines := [Join(headers, ',')] + RowLines(rows);
    behind := if rows == [] then "" else "\n" + Join(lines[1..], '\n');
  }
}
