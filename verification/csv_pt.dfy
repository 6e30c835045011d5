/** The Portuguese vocabulary reader: each record of the vocabulary file
    becomes a verb entry, the first field the Portuguese word, the second its
    English gloss and an optional third a comment.

    The source indexes the record directly, so a record with fewer than two
    fields panics; the panic is the `Err` of the model, with the message Rust
    prints for the out-of-bounds index.
 */
module CsvPt {
  import opened Wrappers
  import opened Lang
  import opened Strings
  import opened CsvReader

  const NoWord: string := "index out of bounds: the len is 0 but the index is 0"
  const NoGloss: string := "index out of bounds: the len is 1 but the index is 1"

  /** `process_verb`. */
  function ProcessVerb(fields: seq<string>): (r: Result<VocabularyVerb, string>)
    ensures r.Ok? <==> |fields| >= 2
    ensures |fields| == 0 ==> r == Err(NoWord)
    ensures |fields| == 1 ==> r == Err(NoGloss)
    ensures r.Ok? ==> r.value.pt == fields[0] && r.value.en == fields[1]
    ensures r.Ok? ==> (r.value.comments.Some? <==> |fields| >= 3)
    ensures r.Ok? && |fields| >= 3 ==> r.value.comments.value == fields[2]
  {
    if |fields| == 0 then Err(NoWord)
    else if |fields| == 1 then Err(NoGloss)
    else Ok(VocabularyVerb(fields[0], fields[1], if |fields| >= 3 then Some(fields[2]) else None))
  }

  /** The record an entry is read from: word, gloss and the comment if any. */
  function FieldsOf(v: VocabularyVerb): (r: seq<string>)
    ensures 2 <= |r| <= 3
  {
    [v.pt, v.en] + (if v.comments.Some? then [v.comments.value] else [])
  }

  /** Reading the record of an entry gives the entry back. */
  lemma ProcessFieldsOf(v: VocabularyVerb)
    ensures ProcessVerb(FieldsOf(v)) == Ok(v)
  {
  }

  /** Records of two or three fields are exactly the records of entries. */
  lemma FieldsOfProcess(fields: seq<string>)
    requires 2 <= |fields| <= 3
    ensures FieldsOf(ProcessVerb(fields).value) == fields
  {
  }

  /** Fields past the third do not reach the entry. */
  lemma ExtraFieldsIgnored(fields: seq<string>, more: seq<string>)
    requires |fields| >= 3
    ensures ProcessVerb(fields + more) == ProcessVerb(fields)
  {
  }

  /** Every record in turn, stopping at the first that panics. */
  function ProcessAll(records: seq<seq<string>>): (r: Result<seq<VocabularyVerb>, string>)
    ensures r.Ok? <==> forall k :: 0 <= k < |records| ==> |records[k]| >= 2
    ensures r.Ok? ==> |r.value| == |records|
    ensures r.Ok? ==> forall k :: 0 <= k < |records| ==> ProcessVerb(records[k]) == Ok(r.value[k])
    ensures r.Err? ==> exists k :: && 0 <= k < |records|
                                   && ProcessVerb(records[k]) == Err(r.error)
                                   && forall j :: 0 <= j < k ==> |records[j]| >= 2
  {
    if |records| == 0 then Ok([])
    else
      var v :- ProcessVerb(records[0]);
      var rest := ProcessAll(records[1..]);
      if rest.Err? then
        assert forall k :: 1 <= k < |records| ==> records[1..][k - 1] == records[k];
        var k :| && 0 <= k < |records[1..]|
                 && ProcessVerb(records[1..][k]) == Err(rest.error)
                 && forall j :: 0 <= j < k ==> |records[1..][j]| >= 2;
        assert ProcessVerb(records[k + 1]) == Err(rest.error);
        Err(rest.error)
      else
        assert forall k :: 1 <= k < |records| ==> records[1..][k - 1] == records[k];
        Ok([v] + rest.value)
  }

  lemma ProcessOne(rec: seq<string>)
    ensures ProcessAll([rec]) == match ProcessVerb(rec)
                                 case Ok(v) => Ok([v])
                                 case Err(e) => Err(e)
  {
    assert [rec][1..] == [];
    if ProcessVerb(rec).Ok? {
      assert [ProcessVerb(rec).value] + [] == [ProcessVerb(rec).value];
    }
  }

  /** Every record has a word and a gloss. */
  predicate AllWorded(records: seq<seq<string>>) {
    forall k :: 0 <= k < |records| ==> |records[k]| >= 2
  }

  /** The vocabulary file, read line by line: one entry per record, so at
      most one per line, each with a non-empty, trimmed, comma-free word and
      gloss; or the panic of the first record with fewer than two fields. */
  function ReadVerbs(lines: seq<string>): (r: Result<seq<VocabularyVerb>, string>)
    ensures r.Ok? <==> AllWorded(ReadCsv(lines))
    ensures r.Ok? ==> |r.value| == |ReadCsv(lines)| <= |lines|
    ensures r.Ok? ==> forall k :: 0 <= k < |r.value| ==> CleanField(r.value[k].pt) && CleanField(r.value[k].en)
    ensures r.Err? ==> r.error == NoWord || r.error == NoGloss
  {
    var records := ReadCsv(lines);
    ProcessedClean(records);
    ProcessAll(records)
  }

  /** Entries read from clean records have a clean word and gloss. */
  lemma ProcessedClean(records: seq<seq<string>>)
    requires forall k :: 0 <= k < |records| ==> CleanRecord(records[k])
    ensures var r := ProcessAll(records);
            r.Ok? ==> forall k :: 0 <= k < |r.value| ==> CleanField(r.value[k].pt) && CleanField(r.value[k].en)
  {
    var r := ProcessAll(records);
    if r.Ok? {
      forall k | 0 <= k < |r.value|
        ensures CleanField(r.value[k].pt) && CleanField(r.value[k].en)
      {
        assert ProcessVerb(records[k]) == Ok(r.value[k]);
        assert CleanRecord(records[k]);
      }
    }
  }

  /** A line holding an entry's fields joined by "," reads back as that
      entry, provided the fields are already clean and the word does not
      start with "#". */
  lemma ReadVerbLine(v: VocabularyVerb)
    requires CleanRecord(FieldsOf(v))
    requires !StartsWith(v.pt, "#")
    ensures ReadVerbs([Join(FieldsOf(v), ",")]) == Ok([v])
  {
    var fs := FieldsOf(v);
    var line := Join(fs, ",");
    LineFieldsJoin(fs);
    JoinedNotComment(fs);
    ReadCsvOne(line);
    assert ReadCsv([line]) == [fs];
    ProcessFieldsOf(v);
    ProcessOne(fs);
  }

  /** A blank line is not skipped: it yields an empty record, on which the
      entry reader panics. */
  lemma BlankLinePanics(line: string)
    requires forall k :: 0 <= k < |line| ==> IsRustWhitespace(line[k])
    ensures ReadVerbs([line]) == Err(NoWord)
  {
    BlankLineFields(line);
    ReadCsvOne(line);
    ProcessOne([]);
  }
}
