/** The noun processor: a line "word, gender, translation" becomes an entry
    whose source side carries the definite article of the gender, and one speech
    sample of the bare word.

    The source imports `createWordID` from a module that does not define it, so
    as written no noun line is ever processed; the corrected processor takes the
    id function as a parameter, since its intended definition is not in the
    source.
 */
module NounProcessor {
  import opened Wrappers
  import opened Strings
  import opened Processor
  import opened Deck

  /** The article for a gender field. Any other value, including a missing
      field, looks up nothing, and `undefined` is interpolated. */
  function Article(gender: Option<string>): (r: string)
    ensures gender == Some("f") ==> r == "A"
    ensures gender == Some("m") ==> r == "O"
    ensures gender != Some("f") && gender != Some("m") ==> r == "undefined"
  {
    match gender
    case Some("f") => "A"
    case Some("m") => "O"
    case _ => "undefined"
  }

  /** `processNoun` as written: the line is tokenised and its word handed to
      the missing `createWordID`, so the processor fails before it builds
      anything. */
  function ProcessNounAsWritten(line: string, upper: CaseMap): (r: Result<Processed, string>)
    ensures r.Err? && r.error == MissingWordId
  {
    var parts := SplitAndClean(line);
    match CreateWordIdAsWritten(parts[0])
    case Err(e) => Err(e)
  }

  /** Every line: as written the processor fails, while with a working id
      function it yields an entry whose sound names the sample of the line's
      word. This joins the two halves of the missing `createWordID` finding:
      the program as written and the corrected one, side by side on one
      input. */
  lemma NounAsWrittenFails(line: string, upper: CaseMap, wordId: string -> string)
    ensures ProcessNounAsWritten(line, upper) == Err(MissingWordId)
    ensures ProcessNoun(line, upper, wordId).entry.ttsA == Some(wordId(SplitAndClean(line)[0]))
  {
  }

  /** `processNoun` with a working id function. Fields are read by position as
      word, gender and translation; an unknown gender is not rejected. The
      source side is "<article> <word>", while the sample speaks the bare word,
      and the entry's sound names that sample. */
  function ProcessNoun(line: string, upper: CaseMap, wordId: string -> string): (r: Processed)
    ensures var parts := SplitAndClean(line);
            && r.entry.source == Article(Field(parts, 1)) + " " + parts[0]
            && r.entry.target == Field(parts, 2)
            && r.entry.extra.None? && r.entry.ttsB.None?
            && |r.samples| == 1
            && r.entry.ttsA == Some(r.samples[0].id)
            && r.samples[0] == Sample(wordId(parts[0]), Capitalize(parts[0], upper) + ".")
  {
    var parts := SplitAndClean(line);
    var source := parts[0];
    var id := wordId(source);
    var entry := AnkiEntry(Article(Field(parts, 1)) + " " + source, Field(parts, 2), None, Some(id), None);
    Processed(entry, [Sample(id, Capitalize(source, upper) + ".")])
  }

  /** The source side is the article, one space, and the bare word, and the
      word is never lost: it is recovered by dropping the article. */
  lemma NounSourceSplits(line: string, upper: CaseMap, wordId: string -> string)
    ensures var src := ProcessNoun(line, upper, wordId).entry.source;
            var a := Article(Field(SplitAndClean(line), 1));
            && StartsWith(src, a + " ")
            && src[|a| + 1..] == SplitAndClean(line)[0]
  {
  }

  /** A line written from a clean word, gender and translation is read back
      into them: the source side is the gender's article and the word, the
      target is the translation, and the bare word is what is spoken. */
  lemma NounLine(word: string, gender: string, target: string, upper: CaseMap, wordId: string -> string)
    requires CleanPart(word) && CleanPart(gender) && CleanPart(target)
    ensures var r := ProcessNoun(word + "," + gender + "," + target, upper, wordId);
            && r.entry.source == Article(Some(gender)) + " " + word
            && r.entry.target == Some(target)
            && r.samples[0].text == Capitalize(word, upper) + "."
  {
    var parts := [word, gender, target];
    assert Join(parts, ",") == word + "," + gender + "," + target by {
      assert parts[1..] == [gender, target];
      assert parts[1..][1..] == [target];
      assert Join([gender, target], ",") == gender + "," + target;
      assert Join(parts, ",") == word + "," + (gender + "," + target);
    }
    SplitAndCleanJoin(parts);
  }
}
