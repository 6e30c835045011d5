/** The processor for miscellaneous entries (phrases, questions): a line
    "phrase, translation" becomes an entry with one speech sample, whose text
    gets a full stop unless the phrase already ends in a question mark.

    As for nouns, the source calls the undefined import `createWordID`; the
    as-written processor fails on every line and the corrected one takes the
    id function as a parameter.
 */
module EtcProcessor {
  import opened Wrappers
  import opened Strings
  import opened Processor
  import opened Deck

  /** The text the sample speaks. */
  function SampleText(source: string, upper: CaseMap): (r: string)
    ensures EndsWith(source, "?") ==> r == Capitalize(source, upper)
    ensures !EndsWith(source, "?") ==> r == Capitalize(source, upper) + "."
  {
    Capitalize(source, upper) + (if EndsWith(source, "?") then "" else ".")
  }

  /** The spoken text always ends in "." or "?", provided the case map keeps
      "?" as it is (a lone "?" is capitalised into the whole text). */
  lemma SampleTextPunctuated(source: string, upper: CaseMap)
    requires upper('?') == "?"
    ensures EndsWith(SampleText(source, upper), ".") || EndsWith(SampleText(source, upper), "?")
  {
    var r := SampleText(source, upper);
    if EndsWith(source, "?") {
      var cap := Capitalize(source, upper);
      if |source| == 1 {
        assert source == "?";
      } else {
        assert cap == upper(source[0]) + source[1..];
        assert cap[|cap| - 1] == source[|source| - 1];
      }
    }
  }

  /** `process` as written: the line is tokenised and its phrase handed to
      the missing `createWordID`, so the processor fails before it builds
      anything. */
  function ProcessEtcAsWritten(line: string, upper: CaseMap): (r: Result<Processed, string>)
    ensures r.Err? && r.error == MissingWordId
  {
    var parts := SplitAndClean(line);
    match CreateWordIdAsWritten(parts[0])
    case Err(e) => Err(e)
  }

  /** Every line: as written the processor fails, while with a working id
      function it yields an entry with the line's phrase as its source and a
      sound naming the phrase's sample. This joins the two halves of the
      missing `createWordID` finding: the program as written and the
      corrected one, side by side on one input. */
  lemma EtcAsWrittenFails(line: string, upper: CaseMap, wordId: string -> string)
    ensures ProcessEtcAsWritten(line, upper) == Err(MissingWordId)
    ensures var r := ProcessEtc(line, upper, wordId);
            && r.entry.source == SplitAndClean(line)[0]
            && r.entry.ttsA == Some(wordId(SplitAndClean(line)[0]))
  {
  }

  /** `process` with a working id function: the first two fields are the
      entry's source and target unchanged, and only side A has a sound, which
      names the one sample requested. */
  function ProcessEtc(line: string, upper: CaseMap, wordId: string -> string): (r: Processed)
    ensures var parts := SplitAndClean(line);
            && r.entry.source == parts[0]
            && r.entry.target == Field(parts, 1)
            && r.entry.extra.None? && r.entry.ttsB.None?
            && |r.samples| == 1
            && r.entry.ttsA == Some(r.samples[0].id)
            && r.samples[0] == Sample(wordId(parts[0]), SampleText(parts[0], upper))
  {
    var parts := SplitAndClean(line);
    var source := parts[0];
    var id := wordId(source);
    Processed(AnkiEntry(source, Field(parts, 1), None, Some(id), None), [Sample(id, SampleText(source, upper))])
  }

  /** A line written from a clean phrase and translation is read back into
      them: they are the entry's two sides, and the phrase is what is spoken. */
  lemma EtcLine(source: string, target: string, upper: CaseMap, wordId: string -> string)
    requires CleanPart(source) && CleanPart(target)
    ensures var r := ProcessEtc(source + "," + target, upper, wordId);
            && r.entry.source == source
            && r.entry.target == Some(target)
            && r.samples[0].text == SampleText(source, upper)
  {
    var parts := [source, target];
    assert Join(parts, ",") == source + "," + target by {
      assert parts[1..] == [target];
    }
    SplitAndCleanJoin(parts);
  }
}
