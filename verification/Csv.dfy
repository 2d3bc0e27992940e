/**
 * CSV rows as the tabular commands print them, and a reader that follows
 * section 2 of RFC 4180 with a line feed for the line break.
 */
module Csv {
  import opened Wrappers
  import opened Packing

  const SEPARATOR := ','
  const QUOTE := '"'

  // ------------------------------------------------------- The printer

  predicate MustQuote(field: string) {
    ',' in field || '"' in field || '\n' in field || '\r' in field
  }

  /** Every quote doubled. */
  function Doubled(field: string): (text: string) {
    if field == "" then ""
    else (if field[0] == QUOTE then [QUOTE, QUOTE] else [field[0]]) + Doubled(field[1..])
  }

  /** `field_of`: quoted only when its content requires it. */
  function FieldOf(field: string): (text: string) {
    if MustQuote(field) then [QUOTE] + Doubled(field) + [QUOTE] else field
  }

  function Fields(fields: seq<string>): (texts: seq<string>)
    ensures |texts| == |fields|
  {
    seq(|fields|, i requires 0 <= i < |fields| => FieldOf(fields[i]))
  }

  /** `row`. */
  function Row(fields: seq<string>): (line: string) {
    Join(Fields(fields), SEPARATOR)
  }

  function Rows(table: seq<seq<string>>): (lines: seq<string>)
    ensures |lines| == |table|
  {
    seq(|table|, i requires 0 <= i < |table| => Row(table[i]))
  }

  /** The table as a command prints it: the header and its rows, a line feed between each two. */
  function Printed(table: seq<seq<string>>): (text: string) {
    Join(Rows(table), '\n')
  }

  // ------------------------------------------------------- The reader

  /** Where the reader is in a field; `Closed` is after a quote that may end it or be doubled. */
  datatype Field = Start | Bare(text: string) | Quoted(text: string) | Closed(text: string) {
    function So(): string {
      if Start? then "" else text
    }
  }

  function Before(row: seq<string>, rest: Option<seq<seq<string>>>): Option<seq<seq<string>>> {
    if rest.None? then None else Some([row] + rest.value)
  }

  /**
   * The records of `s`, given the fields of the current one and the field being
   * read. A line feed at the very end only ends the last record. `None` is text
   * outside the grammar.
   */
  function Scan(s: string, row: seq<string>, field: Field): (table: Option<seq<seq<string>>>)
    decreases |s|
  {
    if s == "" then if field.Quoted? then None else Some([row + [field.So()]])
    else if field.Quoted? then
      Scan(s[1..], row, if s[0] == QUOTE then Closed(field.text) else Quoted(field.text + [s[0]]))
    else if s[0] == SEPARATOR then Scan(s[1..], row + [field.So()], Start)
    else if s[0] == '\n' then
      if |s| == 1 then Some([row + [field.So()]]) else Before(row + [field.So()], Scan(s[1..], [], Start))
    else if s[0] == QUOTE then
      if field.Bare? then None else Scan(s[1..], row, Quoted(if field.Closed? then field.text + [QUOTE] else ""))
    else if field.Closed? || s[0] == '\r' then None
    else Scan(s[1..], row, Bare(field.So() + [s[0]]))
  }

  function Parse(text: string): (table: Option<seq<seq<string>>>) {
    Scan(text, [], Start)
  }

  // ------------------------------------------------------- Fields

  /** What a field is followed by. */
  predicate Ends(rest: string) {
    rest == "" || rest[0] == SEPARATOR || rest[0] == '\n'
  }

  lemma {:induction false} BareScans(field: string, so: Field, row: seq<string>, rest: string)
    requires !MustQuote(field) && (so.Start? || so.Bare?) && field != ""
    ensures Scan(field + rest, row, so) == Scan(rest, row, Bare(so.So() + field))
    decreases |field|
  {
    assert field[0] in field;
    assert (field + rest)[0] == field[0] && (field + rest)[1..] == field[1..] + rest;
    var next := Bare(so.So() + [field[0]]);
    if |field| == 1 {
      assert field == [field[0]] && field[1..] + rest == rest;
    } else {
      assert forall c :: c in field[1..] ==> c in field;
      BareScans(field[1..], next, row, rest);
      assert so.So() + [field[0]] + field[1..] == so.So() + field;
    }
  }

  lemma DoubleScans(text: string, row: seq<string>, more: string)
    ensures Scan([QUOTE, QUOTE] + more, row, Quoted(text)) == Scan(more, row, Quoted(text + [QUOTE]))
  {
    var s := [QUOTE, QUOTE] + more;
    assert s[1..] == [QUOTE] + more && ([QUOTE] + more)[1..] == more;
    assert Scan(s, row, Quoted(text)) == Scan([QUOTE] + more, row, Closed(text));
  }

  lemma {:induction false} QuotedScans(field: string, so: string, row: seq<string>, rest: string)
    ensures Scan(Doubled(field) + [QUOTE] + rest, row, Quoted(so)) == Scan(rest, row, Closed(so + field))
    decreases |field|
  {
    var s := Doubled(field) + [QUOTE] + rest;
    if field == "" {
      assert s == [QUOTE] + rest && s[1..] == rest;
      assert so + field == so;
    } else {
      var more := Doubled(field[1..]) + [QUOTE] + rest;
      QuotedScans(field[1..], so + [field[0]], row, rest);
      assert so + [field[0]] + field[1..] == so + field;
      if field[0] == QUOTE {
        assert s == [QUOTE, QUOTE] + more;
        DoubleScans(so, row, more);
      } else {
        assert s == [field[0]] + more && s[1..] == more;
      }
    }
  }

  /** At its end a field is its text, however it was read. */
  lemma EndIsEnd(field: string, row: seq<string>, rest: string)
    requires Ends(rest)
    ensures Scan(rest, row, Closed(field)) == Scan(rest, row, Bare(field))
    ensures field == "" ==> Scan(rest, row, Start) == Scan(rest, row, Bare(field))
  {
  }

  /** Whatever the field holds, it is read back from its text. */
  lemma FieldScans(field: string, row: seq<string>, rest: string)
    requires Ends(rest)
    ensures Scan(FieldOf(field) + rest, row, Start) == Scan(rest, row, Bare(field))
  {
    EndIsEnd(field, row, rest);
    if MustQuote(field) {
      var more := Doubled(field) + [QUOTE] + rest;
      assert FieldOf(field) + rest == [QUOTE] + more;
      OpenScans(row, more);
      QuotedScans(field, "", row, rest);
      assert "" + field == field;
    } else if field == "" {
      assert FieldOf(field) + rest == rest;
    } else {
      hide Scan;
      BareScans(field, Start, row, rest);
      assert "" + field == field;
    }
  }

  lemma OpenScans(row: seq<string>, more: string)
    ensures Scan([QUOTE] + more, row, Start) == Scan(more, row, Quoted(""))
  {
    assert ([QUOTE] + more)[1..] == more;
  }

  lemma SeparatorScans(field: string, row: seq<string>, more: string)
    ensures Scan([SEPARATOR] + more, row, Bare(field)) == Scan(more, row + [field], Start)
  {
    assert ([SEPARATOR] + more)[1..] == more;
  }

  lemma LineScans(field: string, row: seq<string>, rest: string)
    requires rest == "" || rest[0] == '\n'
    ensures Scan(rest, row, Bare(field))
            == if |rest| <= 1 then Some([row + [field]]) else Before(row + [field], Scan(rest[1..], [], Start))
  {
  }

  // ------------------------------------------------------- Rows

  lemma RowUnfolds(fields: seq<string>)
    requires fields != []
    ensures Row(fields) == if |fields| == 1 then FieldOf(fields[0]) else FieldOf(fields[0]) + [SEPARATOR] + Row(fields[1..])
  {
    assert Fields(fields)[1..] == Fields(fields[1..]);
  }

  lemma Regroup(a: string, b: string, c: string, rest: string)
    ensures a + b + c + rest == a + (b + (c + rest))
  {
  }

  /** A row is read back, field by field, up to the end of its line. */
  lemma {:induction false} RowScans(fields: seq<string>, row: seq<string>, rest: string)
    requires fields != [] && (rest == "" || rest[0] == '\n')
    ensures Scan(Row(fields) + rest, row, Start)
            == if |rest| <= 1 then Some([row + fields]) else Before(row + fields, Scan(rest[1..], [], Start))
    decreases |fields|
  {
    RowUnfolds(fields);
    hide Row, FieldOf, Scan;
    if |fields| == 1 {
      FieldScans(fields[0], row, rest);
      LineScans(fields[0], row, rest);
      assert fields == [fields[0]];
    } else {
      var more := Row(fields[1..]) + rest;
      Regroup(FieldOf(fields[0]), [SEPARATOR], Row(fields[1..]), rest);
      FieldScans(fields[0], row, [SEPARATOR] + more);
      SeparatorScans(fields[0], row, more);
      RowScans(fields[1..], row + [fields[0]], rest);
      assert row + [fields[0]] + fields[1..] == row + fields;
    }
  }

  /** Only the row of one empty field is an empty line. */
  lemma EmptyLine(fields: seq<string>)
    requires fields != []
    ensures Row(fields) == "" <==> fields == [""]
  {
    RowUnfolds(fields);
  }

  // ------------------------------------------------------- Tables

  lemma PrintedUnfolds(table: seq<seq<string>>)
    requires table != []
    ensures Printed(table) == if |table| == 1 then Row(table[0]) else Row(table[0]) + ['\n'] + Printed(table[1..])
  {
    assert Rows(table)[1..] == Rows(table[1..]);
  }

  predicate HasRows(table: seq<seq<string>>) {
    table != [] && forall i :: 0 <= i < |table| ==> table[i] != []
  }

  lemma PrintedIsText(table: seq<seq<string>>, tail: string)
    requires HasRows(table) && (tail == "" ==> |table| > 1 || table[0] != [""])
    ensures Printed(table) + tail != ""
  {
    PrintedUnfolds(table);
    EmptyLine(table[0]);
  }

  /** A table is read back, one more line feed at its end or not. */
  lemma {:induction false} TableScans(table: seq<seq<string>>, tail: string)
    requires HasRows(table) && (tail == "" || tail == "\n")
    requires tail == "" ==> |table| == 1 || table[|table| - 1] != [""]
    ensures Parse(Printed(table) + tail) == Some(table)
  {
    PrintedUnfolds(table);
    hide Printed, Row, Scan;
    if |table| == 1 {
      RowScans(table[0], [], tail);
      assert [] + table[0] == table[0] && table == [table[0]];
    } else {
      var more := Printed(table[1..]) + tail;
      Regroup(Row(table[0]), ['\n'], Printed(table[1..]), tail);
      TableScans(table[1..], tail);
      PrintedIsText(table[1..], tail);
      RowScans(table[0], [], ['\n'] + more);
      assert (['\n'] + more)[1..] == more;
      assert [] + table[0] == table[0] && [table[0]] + table[1..] == table;
    }
  }

  /** The reader never gives a table without rows, nor a row without fields. */
  lemma {:induction false} ParsedHasRows(s: string, row: seq<string>, field: Field)
    ensures Scan(s, row, field).Some? ==> HasRows(Scan(s, row, field).value)
    decreases |s|
  {
    if s != "" {
      if field.Quoted? {
        ParsedHasRows(s[1..], row, if s[0] == QUOTE then Closed(field.text) else Quoted(field.text + [s[0]]));
      } else if s[0] == SEPARATOR {
        ParsedHasRows(s[1..], row + [field.So()], Start);
      } else if s[0] == '\n' {
        ParsedHasRows(s[1..], [], Start);
      } else if s[0] == QUOTE {
        ParsedHasRows(s[1..], row, Quoted(if field.Closed? then field.text + [QUOTE] else ""));
      } else {
        ParsedHasRows(s[1..], row, Bare(field.So() + [s[0]]));
      }
    }
  }

  lemma PrintedSnoc(table: seq<seq<string>>, fields: seq<string>)
    requires table != []
    ensures Printed(table + [fields]) == Printed(table) + ['\n'] + Row(fields)
  {
    assert Rows(table + [fields]) == Rows(table) + [Row(fields)];
    JoinSnoc(Rows(table), Row(fields), '\n');
  }

  /** A last row that is one empty field prints as nothing, and is lost. */
  lemma LastEmptyRowIsLost(table: seq<seq<string>>)
    requires HasRows(table) && |table| > 1 && table[|table| - 1] == [""]
    ensures Parse(Printed(table)) == Some(table[..|table| - 1])
  {
    var front := table[..|table| - 1];
    assert table == front + [[""]];
    PrintedSnoc(front, [""]);
    EmptyLine([""]);
    assert Printed(front) + ['\n'] + "" == Printed(front) + "\n";
    TableScans(front, "\n");
  }

  /**
   * The round trip, exactly: what is printed is read back as the table if and
   * only if the table has rows, each row has fields, and a last row after others
   * is not one empty field.
   */
  lemma RoundTripExactly(table: seq<seq<string>>)
    ensures Parse(Printed(table)) == Some(table)
            <==> HasRows(table) && (|table| == 1 || table[|table| - 1] != [""])
  {
    ParsedHasRows(Printed(table), [], Start);
    if HasRows(table) {
      if |table| == 1 || table[|table| - 1] != [""] {
        TableScans(table, "");
        assert Printed(table) + "" == Printed(table);
      } else {
        LastEmptyRowIsLost(table);
      }
    }
  }

  /** Every table a command prints has two columns or more, so every one is read back, whatever its fields hold. */
  lemma TablesRoundTrip(table: seq<seq<string>>)
    requires table != [] && forall i :: 0 <= i < |table| ==> |table[i]| >= 2
    ensures Parse(Printed(table)) == Some(table)
  {
    RoundTripExactly(table);
  }
}
