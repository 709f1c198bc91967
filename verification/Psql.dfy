/**
 `Database.psql` of rrmngmnt/db.py: the text psql prints is cut into records at
 "__RECORD_SEPARATOR__" and each record into fields at '|'.
 The separator begins and ends with the same two characters, so it can overlap the record
 in front of it; `SplittingIsExact` says for every table whether that spoils the result.
 */
module Psql {
  import opened Wrappers
  import opened Text

  type Row = seq<string>

  const SEPARATOR := "__RECORD_SEPARATOR__"

  /** The comprehension of `psql`: strip, split, drop the blank records, split the rest. */
  function Rows(out: string): seq<Row> {
    Records(Split(Strip(out, IsSpace), SEPARATOR))
  }

  function Records(pieces: seq<string>): seq<Row> {
    if pieces == [] then []
    else
      var a := Strip(pieces[0], IsSpace);
      (if a != "" then [Split(a, "|")] else []) + Records(pieces[1..])
  }

  /** What `psql` returns or raises for the remote command's exit code and output. */
  function Query(rc: int, out: string, err: string): Result<seq<Row>, string> {
    if rc != 0 then Err(err) else Ok(Rows(out))
  }

  // ---------------------------------------------------------------- the printed form

  /** A row as psql prints it with `-A -t`. */
  function RowText(row: Row): string {
    Join(row, "|")
  }

  function RowTexts(rows: seq<Row>): (r: seq<string>)
    ensures |r| == |rows|
    ensures forall i :: 0 <= i < |r| ==> r[i] == RowText(rows[i])
  {
    if rows == [] then [] else [RowText(rows[0])] + RowTexts(rows[1..])
  }

  /** The rows as psql prints them with `-R __RECORD_SEPARATOR__`. */
  function Print(rows: seq<Row>): string {
    Join(RowTexts(rows), SEPARATOR)
  }

  /** A row that can come back at all: some field, no field with '|', text neither blank nor padded. */
  predicate CleanRow(row: Row) {
    && row != []
    && (forall i :: 0 <= i < |row| ==> '|' !in row[i])
    && RowText(row) != "" && Trimmed(RowText(row), IsSpace)
  }

  predicate CleanTable(rows: seq<Row>) {
    forall i :: 0 <= i < |rows| ==> CleanRow(rows[i])
  }

  // ---------------------------------------------------------------- round trip

  /**
   Whatever blank space surrounds the printed table, the rows come back unchanged exactly when psql
   succeeded, every row is clean and no row lets the separator start early.
   */
  lemma SplittingIsExact(rows: seq<Row>, rc: int, before: string, after: string, err: string)
    requires Every(before, IsSpace) && Every(after, IsSpace)
    ensures Query(rc, before + Print(rows) + after, err) == Ok(rows)
       <==> rc == 0 && CleanTable(rows) && SplitSafe(RowTexts(rows), SEPARATOR)
    ensures rc != 0 ==> Query(rc, before + Print(rows) + after, err) == Err(err)
  {
    var out := before + Print(rows) + after;
    var pieces := Split(Strip(out, IsSpace), SEPARATOR);
    if Rows(out) == rows {
      RecordsAreClean(pieces);
    }
    if CleanTable(rows) {
      CleanTableIsTrimmed(rows);
      StripPadded(before, Print(rows), after, IsSpace);
      ExactOnCleanTables(rows);
    }
  }

  lemma CleanTableIsTrimmed(rows: seq<Row>)
    requires CleanTable(rows)
    ensures Trimmed(Print(rows), IsSpace)
  {
    var texts := RowTexts(rows);
    if rows != [] {
      assert CleanRow(rows[0]) && CleanRow(rows[|rows| - 1]);
      JoinTrimmed(texts, SEPARATOR, IsSpace);
    }
  }

  lemma ExactOnCleanTables(rows: seq<Row>)
    requires CleanTable(rows)
    ensures Records(Split(Print(rows), SEPARATOR)) == rows <==> SplitSafe(RowTexts(rows), SEPARATOR)
  {
    var texts := RowTexts(rows);
    var pieces := Split(Print(rows), SEPARATOR);
    if rows == [] {
      assert pieces == [""] by { assert Find("", SEPARATOR).None?; }
      assert Records(pieces) == [];
    } else {
      SplitJoin(texts, SEPARATOR);
      if pieces == texts {
        RecordsOfTexts(rows);
      } else if Records(pieces) == rows {
        SplitSpec(Print(rows), SEPARATOR);
        LengthForcesPieces(pieces, rows);
        assert false;
      }
    }
  }

  /** Clean rows survive stripping and splitting. */
  lemma {:induction false} RecordsOfTexts(rows: seq<Row>)
    requires CleanTable(rows)
    ensures Records(RowTexts(rows)) == rows
    decreases |rows|
  {
    if rows != [] {
      var row := rows[0];
      assert CleanRow(row);
      StripTrimmed(RowText(row), IsSpace);
      SplitSafeChar(row, '|');
      SplitJoin(row, "|");
      assert RowTexts(rows)[1..] == RowTexts(rows[1..]);
      RecordsOfTexts(rows[1..]);
    }
  }

  /** Every record returned is a clean row, whatever was split. */
  /** A piece between two separators: nothing but blanks, or a row with blanks around it. */
  datatype Piece = Blank(text: string) | Padded(before: string, row: Row, after: string)

  predicate IsPiece(p: Piece) {
    match p
    case Blank(text) => Every(text, IsSpace)
    case Padded(before, row, after) => Every(before, IsSpace) && CleanRow(row) && Every(after, IsSpace)
  }

  predicate ArePieces(ps: seq<Piece>) {
    ps == [] || (IsPiece(ps[0]) && ArePieces(ps[1..]))
  }

  function PieceTexts(ps: seq<Piece>): seq<string> {
    if ps == [] then []
    else [match ps[0] case Blank(text) => text case Padded(before, row, after) => before + RowText(row) + after]
         + PieceTexts(ps[1..])
  }

  function RowsOf(ps: seq<Piece>): seq<Row> {
    if ps == [] then [] else (if ps[0].Padded? then [ps[0].row] else []) + RowsOf(ps[1..])
  }

  /** Blank pieces are dropped, and the blanks around the others. */
  lemma {:induction false} PaddingIsDropped(ps: seq<Piece>)
    requires ArePieces(ps)
    ensures Records(PieceTexts(ps)) == RowsOf(ps)
    decreases |ps|
  {
    if ps != [] {
      PaddingIsDropped(ps[1..]);
      assert PieceTexts(ps)[1..] == PieceTexts(ps[1..]);
      match ps[0]
      case Blank(text) =>
        var _, _ := StripSpec(text, IsSpace);
      case Padded(before, row, after) =>
        StripPadded(before, RowText(row), after, IsSpace);
        SplitSafeChar(row, '|');
        SplitJoin(row, "|");
    }
  }

  lemma {:induction false} RecordsAreClean(pieces: seq<string>)
    ensures CleanTable(Records(pieces))
    decreases |pieces|
  {
    if pieces != [] {
      RecordsAreClean(pieces[1..]);
      var a := Strip(pieces[0], IsSpace);
      var _, _ := StripSpec(pieces[0], IsSpace);
      if a != "" {
        var fields := Split(a, "|");
        SplitSpec(a, "|");
        forall i | 0 <= i < |fields| ensures '|' !in fields[i] {
          ContainsChar(fields[i], '|');
        }
      }
    }
  }

  // Dropping or trimming a piece shortens the text, and joining the pieces gives the printed
  // text back; so pieces that yield the very rows that were printed are those rows' texts.

  function TotalLength(texts: seq<string>): nat {
    if texts == [] then 0 else |texts[0]| + TotalLength(texts[1..])
  }

  lemma {:induction false} JoinLength(texts: seq<string>)
    requires texts != []
    ensures |Join(texts, SEPARATOR)| == TotalLength(texts) + 20 * (|texts| - 1)
    decreases |texts|
  {
    assert |SEPARATOR| == 20;
    if |texts| > 1 {
      JoinLength(texts[1..]);
    }
  }

  /** The rows are no more and no longer than the pieces, and equal only if nothing was dropped or trimmed. */
  lemma {:induction false} RecordsKeepLength(pieces: seq<string>, rows: seq<Row>)
    requires Records(pieces) == rows
    ensures |rows| <= |pieces| && TotalLength(RowTexts(rows)) <= TotalLength(pieces)
    ensures |rows| == |pieces| && TotalLength(RowTexts(rows)) == TotalLength(pieces) ==> RowTexts(rows) == pieces
    decreases |pieces|
  {
    if pieces != [] {
      var a := Strip(pieces[0], IsSpace);
      var others := Records(pieces[1..]);
      RecordsKeepLength(pieces[1..], others);
      if a != "" {
        assert rows[0] == Split(a, "|") && rows[1..] == others;
        SplitSpec(a, "|");
        assert RowTexts(rows) == [a] + RowTexts(others);
        assert RowTexts(rows)[1..] == RowTexts(others);
        StripTrimmed(pieces[0], IsSpace);
      } else {
        assert rows == others;
      }
    }
  }

  lemma LengthForcesPieces(pieces: seq<string>, rows: seq<Row>)
    requires rows != [] && pieces != [] && Join(pieces, SEPARATOR) == Print(rows)
    requires Records(pieces) == rows
    ensures pieces == RowTexts(rows)
  {
    JoinLength(pieces);
    JoinLength(RowTexts(rows));
    RecordsKeepLength(pieces, rows);
  }

  // ---------------------------------------------------------------- the condition is needed

  /**
   Any row that ends in all but the last two characters of the separator is damaged when another
   row follows it: the separator is found two characters early. Such a row can be perfectly clean, so
   the separator condition does not follow from cleanness.
   */
  lemma OverlapDamagesRows(stem: string, row: Row)
    ensures Rows(Print([[stem + SEPARATOR[..18]], row])) != [[stem + SEPARATOR[..18]], row]
    ensures stem != "" && !IsSpace(stem[0]) && '|' !in stem ==> CleanRow([stem + SEPARATOR[..18]])
  {
    if stem != "" && !IsSpace(stem[0]) && '|' !in stem {
      DamagedRowCanBeClean(stem);
    }
    var rows := [[stem + SEPARATOR[..18]], row];
    var texts := RowTexts(rows);
    OverlappingSeparator(stem);
    assert texts[0] == stem + SEPARATOR[..18];
    assert OccursAt(texts[0] + SEPARATOR, SEPARATOR, |stem|);
    SplittingIsExact(rows, 0, "", "", "");
    assert "" + Print(rows) + "" == Print(rows);
  }

  lemma OverlappingSeparator(stem: string)
    ensures OccursAt(stem + SEPARATOR[..18] + SEPARATOR, SEPARATOR, |stem|)
  {
    var front, back := SEPARATOR[..18], SEPARATOR[2..];
    assert SEPARATOR == front + "__" && SEPARATOR == "__" + back;
    var text := stem + front + SEPARATOR;
    assert text == stem + SEPARATOR + back;
    assert text[|stem|..|stem| + |SEPARATOR|] == SEPARATOR;
  }

  lemma DamagedRowCanBeClean(stem: string)
    requires stem != "" && !IsSpace(stem[0]) && '|' !in stem
    ensures CleanRow([stem + SEPARATOR[..18]])
  {
    var field := stem + SEPARATOR[..18];
    assert field[|field| - 1] == SEPARATOR[17] == 'R' && field[0] == stem[0];
    assert '|' !in SEPARATOR;
    assert RowText([field]) == field;
  }
}
