/**
 * The DM cache file `dm_channels.txt`: `save_dm_channels_to_file` writes each
 * record as its fields joined by ',' and ended by '\n'; `load_dm_channels_from_file`
 * reads each line back as `tuple(line.strip().split(','))`. There is no escaping,
 * so the round trip holds only for fields the format can carry.
 */
module CacheFile {
  import opened Text

  /** A record as the program holds it: a tuple of strings, of any length once loaded. */
  type Row = seq<string>

  /** `",".join(item)`: one cache line without its '\n'. */
  function EncodeRow(row: Row): (line: string)
    ensures (forall k :: 0 <= k < |row| ==> '\n' !in row[k]) ==> '\n' !in line
  {
    if forall k :: 0 <= k < |row| ==> '\n' !in row[k] then
      JoinWithout(",", row, '\n');
      Join(",", row)
    else Join(",", row)
  }

  /** The whole file `save_dm_channels_to_file` writes: one '\n'-ended line per row, nothing else. */
  function Save(rows: seq<Row>): (text: string)
    ensures text == [] <==> rows == []
    ensures text != [] ==> text[|text| - 1] == '\n'
    decreases |rows|
  {
    if rows == [] then "" else EncodeRow(rows[0]) + "\n" + Save(rows[1..])
  }

  /** `tuple(line.strip().split(','))`: never empty, and no field holds a comma. */
  function DecodeLine(line: string): (row: Row)
    ensures |row| >= 1
    ensures forall k :: 0 <= k < |row| ==> ',' !in row[k]
  {
    SplitPiecesFree(Strip(line), ',');
    Split(Strip(line), ",")
  }

  /** The rows `load_dm_channels_from_file` builds: one per line of the file. */
  function Load(content: string): (rows: seq<Row>)
    ensures |rows| == |Lines(content)|
  {
    var lines := Lines(content);
    seq(|lines|, i requires 0 <= i < |lines| => DecodeLine(lines[i]))
  }

  /** Fields free of ',' and '\n'. */
  predicate PlainFields(row: Row) {
    forall k :: 0 <= k < |row| ==> ',' !in row[k] && '\n' !in row[k]
  }

  /** A row the file format carries unchanged: non-empty, plain fields, no whitespace at either end of its line. */
  predicate Storable(row: Row) {
    |row| >= 1 && PlainFields(row) && Trimmed(EncodeRow(row))
  }

  /** Rows whose fields are plain and carry no surrounding whitespace are storable. */
  lemma TrimmedFieldsStorable(row: Row)
    requires |row| >= 1 && PlainFields(row)
    requires forall k :: 0 <= k < |row| ==> Trimmed(row[k])
    ensures Storable(row)
  {
    JoinStartsClean(",", row);
    JoinEndsClean(",", row);
  }

  /** A storable row written as a line reads back as the same row. */
  lemma RowRoundTrip(row: Row)
    requires Storable(row)
    ensures DecodeLine(EncodeRow(row) + "\n") == row
  {
    var line := EncodeRow(row);
    assert line == Join(",", row);
    StripPadding([], line, "\n");
    assert [] + line + "\n" == line + "\n";
    SplitJoin(row, ',');
  }

  /**
   * For rows without '\n', storability is exactly what the line round trip
   * needs: a comma in a field, an empty tuple, or whitespace at either end
   * of the line each change the row that is read back.
   */
  lemma RowRoundTripExact(row: Row)
    requires forall k :: 0 <= k < |row| ==> '\n' !in row[k]
    ensures DecodeLine(EncodeRow(row) + "\n") == row <==> Storable(row)
  {
    var line := EncodeRow(row) + "\n";
    if DecodeLine(line) == row {
      JoinSplit(Strip(line), ",");
      assert EncodeRow(row) == Strip(line);
    }
    if Storable(row) {
      RowRoundTrip(row);
    }
  }

  /** Saving writes exactly one line per row, in order, when no field holds '\n'. */
  lemma {:induction false} SaveLines(rows: seq<Row>)
    requires forall i :: 0 <= i < |rows| ==> forall k :: 0 <= k < |rows[i]| ==> '\n' !in rows[i][k]
    ensures Lines(Save(rows)) == seq(|rows|, i requires 0 <= i < |rows| => EncodeRow(rows[i]) + "\n")
    decreases |rows|
  {
    if rows != [] {
      JoinWithout(",", rows[0], '\n');
      LinesFirst(EncodeRow(rows[0]), Save(rows[1..]));
      SaveLines(rows[1..]);
    }
  }

  /** Loading what was saved gives back the same rows, in the same order, when every row is storable. */
  lemma LoadSave(rows: seq<Row>)
    requires forall i :: 0 <= i < |rows| ==> Storable(rows[i])
    ensures Load(Save(rows)) == rows
  {
    SaveLines(rows);
    forall i | 0 <= i < |rows|
      ensures Load(Save(rows))[i] == rows[i]
    {
      RowRoundTrip(rows[i]);
    }
  }

  /** For rows without '\n', the file round trip holds exactly when every row is storable. */
  lemma LoadSaveExact(rows: seq<Row>)
    requires forall i :: 0 <= i < |rows| ==> forall k :: 0 <= k < |rows[i]| ==> '\n' !in rows[i][k]
    ensures Load(Save(rows)) == rows <==> forall i :: 0 <= i < |rows| ==> Storable(rows[i])
  {
    SaveLines(rows);
    forall i | 0 <= i < |rows|
      ensures Load(Save(rows))[i] == rows[i] <==> Storable(rows[i])
    {
      RowRoundTripExact(rows[i]);
    }
    if Load(Save(rows)) == rows {
      forall i | 0 <= i < |rows|
        ensures Storable(rows[i])
      {
        assert Load(Save(rows))[i] == rows[i];
      }
    } else if forall i :: 0 <= i < |rows| ==> Storable(rows[i]) {
      LoadSave(rows);
    }
  }

  /** A single saved row loads as the decoding of its one line. */
  lemma LoadSaveOne(row: Row)
    requires forall k :: 0 <= k < |row| ==> '\n' !in row[k]
    ensures Load(Save([row])) == [DecodeLine(EncodeRow(row) + "\n")]
  {
    JoinWithout(",", row, '\n');
    assert [row][1..] == [];
    assert Save([row]) == EncodeRow(row) + "\n" + "";
    LinesFirst(EncodeRow(row), "");
  }

  /** A name holding a comma is written as the same line as two names. */
  lemma CommaRowLine(x: string, y: string, timestamp: string, id: string)
    ensures EncodeRow([x + "," + y, timestamp, id]) == EncodeRow([x, y, timestamp, id])
  {
    var tail := [timestamp, id];
    var row, read := [x + "," + y] + tail, [x, y] + tail;
    assert row[1..] == tail && read[1..] == [y] + tail && ([y] + tail)[1..] == tail;
    assert EncodeRow(row) == x + "," + y + "," + Join(",", tail);
    assert Join(",", [y] + tail) == y + "," + Join(",", tail);
    assert EncodeRow(read) == x + "," + Join(",", [y] + tail);
    assert row == [x + "," + y, timestamp, id] && read == [x, y, timestamp, id];
  }

  /** A field the format carries unchanged on its own: no ',', no '\n', no outer whitespace. */
  predicate CleanField(s: string) {
    ',' !in s && '\n' !in s && Trimmed(s)
  }

  /**
   * A display name holding a comma comes back as two fields: the record
   * `(x,y, timestamp, id)` is read back as the four fields `(x, y, timestamp, id)`.
   */
  lemma CommaSplitsName(x: string, y: string, timestamp: string, id: string)
    requires CleanField(x) && CleanField(y) && CleanField(timestamp) && CleanField(id)
    ensures Load(Save([[x + "," + y, timestamp, id]])) == [[x, y, timestamp, id]]
  {
    var row, read := [x + "," + y, timestamp, id], [x, y, timestamp, id];
    assert read[0] == x && read[1] == y && read[2] == timestamp && read[3] == id;
    assert forall k :: 0 <= k < |read| ==> CleanField(read[k]);
    assert '\n' !in x + "," + y;
    assert row[0] == x + "," + y && row[1] == timestamp && row[2] == id;
    LoadSaveOne(row);
    CommaRowLine(x, y, timestamp, id);
    TrimmedFieldsStorable(read);
    RowRoundTrip(read);
  }
}
