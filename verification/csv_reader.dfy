/** The line logic of the vocabulary reader: every line is trimmed, lines
    starting with "#" are skipped, and every other line becomes one record of
    its comma-separated fields, each trimmed, with empty fields dropped.

    Reading the file is not modelled: the reader works on the sequence of its
    lines. Trimming uses Rust's notion of whitespace.
 */
module CsvReader {
  import opened Strings

  function RustTrim(s: string): string {
    Trim(s, IsRustWhitespace)
  }

  /** Non-empty and without whitespace at either end. */
  predicate Trimmed(f: string) {
    f != "" && !IsRustWhitespace(f[0]) && !IsRustWhitespace(f[|f| - 1])
  }

  /** What every field of a record looks like: trimmed and free of ",". */
  predicate CleanField(f: string) {
    Trimmed(f) && ',' !in f
  }

  predicate CleanRecord(rec: seq<string>) {
    forall j :: 0 <= j < |rec| ==> CleanField(rec[j])
  }

  /** A line whose trimmed form starts with "#" is a comment. */
  predicate IsComment(line: string) {
    StartsWith(RustTrim(line), "#")
  }

  /** The trimmed pieces that are not empty, in order. */
  function CleanPieces(pieces: seq<string>): (r: seq<string>)
    ensures |r| <= |pieces|
    ensures forall k :: 0 <= k < |r| ==> Trimmed(r[k])
  {
    if |pieces| == 0 then []
    else
      var f := RustTrim(pieces[0]);
      TrimmedPiece(pieces[0]);
      var rest := CleanPieces(pieces[1..]);
      if f == "" then rest else [f] + rest
  }

  lemma TrimmedPiece(p: string)
    ensures RustTrim(p) == "" || Trimmed(RustTrim(p))
  {
  }

  /** Trimming and filtering bring in no comma. */
  lemma {:induction false} CleanPiecesNoComma(pieces: seq<string>)
    requires forall i :: 0 <= i < |pieces| ==> ',' !in pieces[i]
    ensures forall k :: 0 <= k < |CleanPieces(pieces)| ==> ',' !in CleanPieces(pieces)[k]
  {
    if |pieces| > 0 {
      TrimKeepsOut(pieces[0], IsRustWhitespace, ',');
      CleanPiecesNoComma(pieces[1..]);
    }
  }

  /** A piece is kept, trimmed, exactly when trimming leaves something. */
  lemma CleanPiecesOne(p: string)
    ensures CleanPieces([p]) == if RustTrim(p) == "" then [] else [RustTrim(p)]
  {
    assert [p][1..] == [];
  }

  /** Filtering distributes over concatenation. */
  lemma {:induction false} CleanPiecesAppend(a: seq<string>, b: seq<string>)
    ensures CleanPieces(a + b) == CleanPieces(a) + CleanPieces(b)
  {
    if |a| > 0 {
      assert (a + b)[1..] == a[1..] + b;
      CleanPiecesAppend(a[1..], b);
    } else {
      assert a + b == b;
    }
  }

  /** Pieces that are already clean pass through unchanged. */
  lemma {:induction false} CleanPiecesKeepsClean(fs: seq<string>)
    requires forall i :: 0 <= i < |fs| ==> CleanField(fs[i])
    ensures CleanPieces(fs) == fs
  {
    if |fs| > 0 {
      assert CleanField(fs[0]);
      TrimTrimmed(fs[0], IsRustWhitespace);
      CleanPiecesKeepsClean(fs[1..]);
    }
  }

  /** The record of one non-comment line. */
  function LineFields(line: string): (r: seq<string>)
    ensures |r| <= Count(RustTrim(line), ',') + 1
    ensures CleanRecord(r)
  {
    CleanPiecesNoComma(Split(RustTrim(line), ','));
    CleanPieces(Split(RustTrim(line), ','))
  }

  /** Clean fields joined by "," are read back as themselves. */
  lemma LineFieldsJoin(fs: seq<string>)
    requires |fs| >= 1
    requires forall i :: 0 <= i < |fs| ==> CleanField(fs[i])
    ensures LineFields(Join(fs, ",")) == fs
  {
    var line := Join(fs, ",");
    JoinEnds(fs, ",");
    assert line[0] == fs[0][0];
    assert line[|line| - 1] == fs[|fs| - 1][|fs[|fs| - 1]| - 1];
    TrimTrimmed(line, IsRustWhitespace);
    SplitJoin(fs, ',');
    CleanPiecesKeepsClean(fs);
  }

  /** Nor is such a line a comment unless its first field starts with "#". */
  lemma JoinedNotComment(fs: seq<string>)
    requires |fs| >= 1
    requires CleanRecord(fs)
    requires !StartsWith(fs[0], "#")
    ensures !IsComment(Join(fs, ","))
  {
    var line := Join(fs, ",");
    assert CleanField(fs[0]) && CleanField(fs[|fs| - 1]);
    JoinEnds(fs, ",");
    assert line[..1] == fs[0][..1];
    TrimTrimmed(line, IsRustWhitespace);
  }

  /** A line of whitespace only gives an empty record, not a skipped line. */
  lemma BlankLineFields(line: string)
    requires forall k :: 0 <= k < |line| ==> IsRustWhitespace(line[k])
    ensures !IsComment(line)
    ensures LineFields(line) == []
  {
    var t := RustTrim(line);
    assert |t| == 0;
    SplitWithout("", ',');
  }

  /** What one line contributes: nothing for a comment, its record otherwise. */
  function LineRecords(line: string): (r: seq<seq<string>>)
    ensures |r| <= 1
    ensures forall k :: 0 <= k < |r| ==> CleanRecord(r[k])
  {
    if IsComment(line) then [] else [LineFields(line)]
  }

  /** `read_csv` over the lines of the file: one record per non-comment line,
      in input order. */
  function ReadCsv(lines: seq<string>): (r: seq<seq<string>>)
    ensures |r| <= |lines|
    ensures forall k :: 0 <= k < |r| ==> CleanRecord(r[k])
  {
    if |lines| == 0 then []
    else LineRecords(lines[0]) + ReadCsv(lines[1..])
  }

  lemma ReadCsvOne(line: string)
    ensures ReadCsv([line]) == if IsComment(line) then [] else [LineFields(line)]
  {
    assert [line][1..] == [];
    assert ReadCsv([line]) == LineRecords(line) + [];
  }

  /** Reading is line by line: the records of two chunks are the records of
      the first followed by those of the second. */
  lemma {:induction false} ReadCsvAppend(a: seq<string>, b: seq<string>)
    ensures ReadCsv(a + b) == ReadCsv(a) + ReadCsv(b)
  {
    if |a| > 0 {
      var h := LineRecords(a[0]);
      assert (a + b)[0] == a[0];
      assert (a + b)[1..] == a[1..] + b;
      ReadCsvAppend(a[1..], b);
      assert ReadCsv(a + b) == h + (ReadCsv(a[1..]) + ReadCsv(b));
      assert ReadCsv(a) == h + ReadCsv(a[1..]);
    } else {
      assert a + b == b;
    }
  }

  /** A comment line adds nothing wherever it stands. */
  lemma CommentSkipped(a: seq<string>, line: string, b: seq<string>)
    requires IsComment(line)
    ensures ReadCsv(a + [line] + b) == ReadCsv(a) + ReadCsv(b)
  {
    ReadCsvAppend(a + [line], b);
    ReadCsvAppend(a, [line]);
    ReadCsvOne(line);
    assert ReadCsv(a + [line]) == ReadCsv(a) + [];
    assert ReadCsv(a) + [] == ReadCsv(a);
  }

  /** Any other line adds exactly its own record, in its place. */
  lemma RecordInPlace(a: seq<string>, line: string, b: seq<string>)
    requires !IsComment(line)
    ensures ReadCsv(a + [line] + b) == ReadCsv(a) + [LineFields(line)] + ReadCsv(b)
  {
    ReadCsvAppend(a + [line], b);
    ReadCsvAppend(a, [line]);
    ReadCsvOne(line);
  }

  /** Without comments there is one record per line, each the record of its
      line. */
  lemma {:induction false} OneRecordPerLine(lines: seq<string>)
    requires forall i :: 0 <= i < |lines| ==> !IsComment(lines[i])
    ensures |ReadCsv(lines)| == |lines|
    ensures forall i :: 0 <= i < |lines| ==> ReadCsv(lines)[i] == LineFields(lines[i])
  {
    if |lines| > 0 {
      OneRecordPerLine(lines[1..]);
      assert forall i :: 1 <= i < |lines| ==> lines[1..][i - 1] == lines[i];
    }
  }
}
