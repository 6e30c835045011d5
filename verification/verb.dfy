/** The verb processor: renders the present-tense table of a verb as a card
    description (HTML, one sentence per line) and as the text of a speech sample
    (plain, one line), and assembles the deck entry for one input line.

    The irregular branches of the source's two formatters read a field the
    conjugation record does not have, so they render "undefined". Both the
    formatters as written and the corrected ones are given; everything else
    uses the corrected ones.

    The source also imports the synthesiser under a misspelt name, so as
    written every line whose tense is read fails at its first sample request.
    `ProcessVerbAsWritten` models that; `ProcessVerb` imports the exported
    name.
 */
module VerbProcessor {
  import opened Wrappers
  import opened Strings
  import opened Lang
  import opened Conjugator
  import opened Processor
  import opened Deck

  /** The tense every verb line asks the conjugator for. */
  const RequestedTense: string := "Presente"

  /** The subject pronouns that open the six sentences, in slot order. */
  const Pronouns: seq<string> := ["Eu", "Tu", "Ele", "Nós", "Vós", "Eles"]

  const GreenTag: string := "span style=\"color: green;\""
  const RedTag: string := "span style=\"color: red;\""
  const CloseTag: string := "/span"

  function Open(tag: string): string {
    "<" + tag + ">"
  }

  /** How a template literal renders a field the record does not have. */
  const Undefined: string := "undefined"

  // ---------------------------------------------------------------------------
  // The formatters as written

  function PlaintextAsWritten(c: Conjugation): (r: string)
    ensures c.Regular? ==> r == c.form.root + c.form.postfix
    ensures c.Irregular? ==> r == Undefined
  {
    match c
    case Regular(f) => f.root + f.postfix
    case Irregular(_) => Undefined
  }

  function HtmlAsWritten(c: Conjugation): (r: string)
    ensures c.Regular? ==> r == Html(c)
    ensures c.Irregular? ==> r == Open(RedTag) + Undefined + Open(CloseTag)
  {
    match c
    case Regular(f) => f.root + Open(GreenTag) + f.postfix + Open(CloseTag)
    case Irregular(_) => Open(RedTag) + Undefined + Open(CloseTag)
  }

  /** As written, an irregular form never reaches the card or the speech
      sample: "eu sou" is rendered "undefined" in both. */
  lemma IrregularFormLost()
    ensures var c := Irregular(Inflection("eu", "", "sou"));
            && PlaintextAsWritten(c) == "undefined"
            && !EndsWith(PlaintextAsWritten(c), c.form.postfix)
            && StripTags(HtmlAsWritten(c)) == "undefined"
  {
    var c := Irregular(Inflection("eu", "", "sou"));
    var t := Undefined + Open(CloseTag);
    assert '<' !in Undefined;
    StripTag(RedTag, t);
    StripText(Undefined, Open(CloseTag));
    StripTag(CloseTag, "");
    assert Open(RedTag) + Undefined + Open(CloseTag) == "<" + RedTag + ">" + t;
    assert Open(CloseTag) == "<" + CloseTag + ">" + "";
  }

  // ---------------------------------------------------------------------------
  // The corrected formatters

  /** The conjugated word, root then ending, whatever its kind. */
  function Plaintext(c: Conjugation): (r: string)
    ensures StartsWith(r, c.form.root) && EndsWith(r, c.form.postfix)
    ensures |r| == |c.form.root| + |c.form.postfix|
  {
    c.form.root + c.form.postfix
  }

  /** The conjugated word with colour markup: a regular ending in green, an
      irregular form in red. */
  function Html(c: Conjugation): (r: string)
    ensures c.Regular? ==> && StartsWith(r, c.form.root + Open(GreenTag))
                           && EndsWith(r, c.form.postfix + Open(CloseTag))
                           && |r| == |c.form.root + Open(GreenTag)| + |c.form.postfix + Open(CloseTag)|
    ensures c.Irregular? ==> && StartsWith(r, Open(RedTag))
                             && EndsWith(r, c.form.root + c.form.postfix + Open(CloseTag))
                             && |r| == |Open(RedTag)| + |c.form.root + c.form.postfix + Open(CloseTag)|
  {
    match c
    case Regular(f) => f.root + Open(GreenTag) + f.postfix + Open(CloseTag)
    case Irregular(f) => Open(RedTag) + f.root + f.postfix + Open(CloseTag)
  }

  /** The markup adds only tags: its text is the plain word, for either kind. */
  lemma HtmlText(c: Conjugation)
    requires '<' !in c.form.root && '<' !in c.form.postfix
    ensures HasText(Html(c), Plaintext(c))
  {
    forall rest
      ensures StripFrom(Html(c) + rest, false) == Plaintext(c) + StripFrom(rest, false)
    {
      HtmlTextBefore(c, rest);
    }
  }

  lemma HtmlTextBefore(c: Conjugation, rest: string)
    requires '<' !in c.form.root && '<' !in c.form.postfix
    ensures StripFrom(Html(c) + rest, false) == Plaintext(c) + StripFrom(rest, false)
  {
    match c
    case Regular(f) => RegularTextBefore(f, rest);
    case Irregular(f) => IrregularTextBefore(f, rest);
  }

  lemma RegularTextBefore(f: Inflection, rest: string)
    requires '<' !in f.root && '<' !in f.postfix
    ensures StripFrom(Html(Regular(f)) + rest, false) == f.root + f.postfix + StripFrom(rest, false)
  {
    var close := Open(CloseTag) + rest;
    var tail := f.postfix + close;
    var green := Open(GreenTag) + tail;
    assert Html(Regular(f)) + rest == f.root + green;
    StripText(f.root, green);
    assert green == "<" + GreenTag + ">" + tail;
    StripTag(GreenTag, tail);
    StripText(f.postfix, close);
    assert close == "<" + CloseTag + ">" + rest;
    StripTag(CloseTag, rest);
  }

  lemma IrregularTextBefore(f: Inflection, rest: string)
    requires '<' !in f.root && '<' !in f.postfix
    ensures StripFrom(Html(Irregular(f)) + rest, false) == f.root + f.postfix + StripFrom(rest, false)
  {
    var close := Open(CloseTag) + rest;
    StripTag(CloseTag, rest);
    var word := f.root + f.postfix;
    assert Html(Irregular(f)) + rest == Open(RedTag) + (word + close);
    StripTag(RedTag, word + close);
    StripText(word, close);
  }

  /** Line breaks in the markup come only from the form itself. */
  lemma HtmlNoBreak(c: Conjugation)
    requires '\n' !in c.form.root && '\n' !in c.form.postfix
    ensures '\n' !in Html(c)
  {
    assert '\n' !in Open(GreenTag) && '\n' !in Open(RedTag) && '\n' !in Open(CloseTag);
  }

  lemma PronounsPlain()
    ensures forall k :: 0 <= k < 6 ==> '\n' !in Pronouns[k] + " " && '<' !in Pronouns[k] + " "
  {
    assert Pronouns[0] == "Eu" && Pronouns[1] == "Tu" && Pronouns[2] == "Ele";
    assert Pronouns[3] == "Nós" && Pronouns[4] == "Vós" && Pronouns[5] == "Eles";
  }

  /** The six sentences "<Pronoun> <form>." in slot order. */
  function Sentences(t: Tense, format: Conjugation -> string): (r: seq<string>)
    ensures |r| == 6
    ensures forall k :: 0 <= k < 6 ==> StartsWith(r[k], Pronouns[k] + " ") && EndsWith(r[k], ".")
    ensures forall k :: 0 <= k < 6 ==> |r[k]| == |Pronouns[k]| + |format(t.Slots()[k])| + 2
    ensures forall k :: 0 <= k < 6 ==> r[k][|Pronouns[k]| + 1..|r[k]| - 1] == format(t.Slots()[k])
  {
    seq(6, k requires 0 <= k < 6 => Pronouns[k] + " " + format(t.Slots()[k]) + ".")
  }

  /** Every form of the table free of line breaks. */
  predicate NoBreaks(t: Tense) {
    forall k :: 0 <= k < 6 ==> '\n' !in t.Slots()[k].form.root && '\n' !in t.Slots()[k].form.postfix
  }

  /** Every form of the table free of `<`. */
  predicate NoTags(t: Tense) {
    forall k :: 0 <= k < 6 ==> '<' !in t.Slots()[k].form.root && '<' !in t.Slots()[k].form.postfix
  }

  /** The card description: the HTML sentences, one per line. Splitting it at
      line breaks gives back exactly the six sentences, in slot order. */
  function Description(t: Tense): (r: string)
    ensures NoBreaks(t) ==> Split(r, '\n') == Sentences(t, Html)
  {
    SplitDescription(t);
    Join(Sentences(t, Html), "\n")
  }

  lemma SplitDescription(t: Tense)
    ensures NoBreaks(t) ==> Split(Join(Sentences(t, Html), "\n"), '\n') == Sentences(t, Html)
  {
    var lines := Sentences(t, Html);
    if NoBreaks(t) {
      PronounsPlain();
      forall k | 0 <= k < 6
        ensures '\n' !in lines[k]
      {
        HtmlNoBreak(t.Slots()[k]);
        assert lines[k] == (Pronouns[k] + " ") + Html(t.Slots()[k]) + ".";
      }
      SplitJoin(lines, '\n');
    }
  }

  /** The conjugation speech text: the plain sentences joined by one space. */
  function ConjugationText(t: Tense): (r: string)
    ensures r == Join(Sentences(t, Plaintext), " ")
    ensures StartsWith(r, "Eu ") && EndsWith(r, ".")
  {
    var sentences := Sentences(t, Plaintext);
    JoinEnds(sentences, " ");
    Join(sentences, " ")
  }

  /** The card shows what the sample speaks: with the markup stripped and the
      line breaks turned into spaces, the description is the speech text. */
  lemma DescriptionMatchesSpeech(t: Tense)
    requires NoBreaks(t) && NoTags(t)
    ensures ReplaceAll(StripTags(Description(t)), '\n', " ") == ConjugationText(t)
  {
    var html := Sentences(t, Html);
    var plain := Sentences(t, Plaintext);
    forall k | 0 <= k < 6
      ensures HasText(html[k], plain[k])
      ensures '\n' !in plain[k]
    {
      SentenceText(t, k);
    }
    StripJoin(html, plain, "\n");
    ReplaceJoin(plain, '\n', " ");
  }

  /** Sentence `k` of the card has sentence `k` of the speech as its text. */
  lemma SentenceText(t: Tense, k: nat)
    requires NoBreaks(t) && NoTags(t) && k < 6
    ensures HasText(Sentences(t, Html)[k], Sentences(t, Plaintext)[k])
    ensures '\n' !in Sentences(t, Plaintext)[k]
  {
    var c := t.Slots()[k];
    var prefix := Pronouns[k] + " ";
    PronounsPlain();
    assert '<' !in c.form.root && '<' !in c.form.postfix;
    assert Sentences(t, Html)[k] == prefix + Html(c) + ".";
    assert Sentences(t, Plaintext)[k] == prefix + Plaintext(c) + ".";
    forall rest
      ensures StripFrom(prefix + Html(c) + "." + rest, false) == prefix + Plaintext(c) + "." + StripFrom(rest, false)
    {
      SentenceTextBefore(prefix, c, rest);
    }
  }

  lemma SentenceTextBefore(prefix: string, c: Conjugation, rest: string)
    requires '<' !in prefix && '<' !in c.form.root && '<' !in c.form.postfix
    ensures StripFrom(prefix + Html(c) + "." + rest, false) == prefix + Plaintext(c) + "." + StripFrom(rest, false)
  {
    assert prefix + Html(c) + "." + rest == prefix + (Html(c) + ("." + rest));
    StripText(prefix, Html(c) + ("." + rest));
    HtmlTextBefore(c, "." + rest);
    StripText(".", rest);
    assert prefix + (Plaintext(c) + ("." + StripFrom(rest, false))) == prefix + Plaintext(c) + "." + StripFrom(rest, false);
  }

  // ---------------------------------------------------------------------------
  // Speech samples and the entry

  /** A sample id: the word with its first space turned into "-", then `tag`. */
  function SampleId(word: string, tag: string): (r: string)
    ensures |r| == |word| + |tag| && EndsWith(r, tag)
    ensures forall k :: 0 <= k < |word| ==>
              r[k] == (if FirstIndex(word, ' ') == Some(k) then '-' else word[k])
  {
    ReplaceFirst(word, ' ', "-") + tag
  }

  function WordId(word: string): string {
    SampleId(word, "+word")
  }

  function ConjugationId(word: string): string {
    SampleId(word, "+conj")
  }

  /** What the word sample speaks: the capitalised word and a full stop. */
  function WordText(word: string, upper: CaseMap): (r: string)
    ensures |word| == 0 ==> r == "."
    ensures |word| > 0 ==> r == upper(word[0]) + word[1..] + "."
  {
    Capitalize(word, upper) + "."
  }

  /** The entry and samples of one line once its present tense is known. The
      entry's extra content is the description of the tense, and its two
      sound fields name the two samples requested, the word's first. */
  function VerbEntry(line: string, tense: Tense, upper: CaseMap): (r: Processed)
    ensures var parts := SplitAndClean(line);
            var e := r.entry;
            var s := r.samples;
            && e.source == parts[0]
            && e.target == Field(parts, 1)
            && e.extra == Some(Description(tense))
            && |s| == 2
            && e.ttsA == Some(s[0].id) && s[0] == Sample(WordId(parts[0]), WordText(parts[0], upper))
            && e.ttsB == Some(s[1].id) && s[1] == Sample(ConjugationId(parts[0]), ConjugationText(tense))
  {
    var parts := SplitAndClean(line);
    var source := parts[0];
    var a := Sample(WordId(source), WordText(source, upper));
    var b := Sample(ConjugationId(source), ConjugationText(tense));
    Processed(AnkiEntry(source, Field(parts, 1), Some(Description(tense)), Some(a.id), Some(b.id)), [a, b])
  }

  /** `processVerb` with the synthesiser imported under its exported name,
      for one line, given the conjugation page of its first field: it fails
      exactly when the present tense cannot be read from the page, and
      otherwise builds the entry from that tense. */
  function ProcessVerb(line: string, page: seq<TenseBox>, upper: CaseMap): (r: Result<Processed, string>)
    ensures r.Ok? <==> Conjugate(page, RequestedTense).Ok?
    ensures r.Err? ==> r.error == Conjugate(page, RequestedTense).error
    ensures r.Ok? ==> r.value == VerbEntry(line, Conjugate(page, RequestedTense).value, upper)
  {
    var tense :- Conjugate(page, RequestedTense);
    Ok(VerbEntry(line, tense, upper))
  }

  /** Calling `synthehise`, which verb.ts imports under a name tts.ts does
      not export: every call fails, whatever the id and text. */
  function SynthesiseAsWritten(id: string, text: string): Result<string, string> {
    Err(MissingSynthesiser)
  }

  /** `processVerb` as written: the present tense is read, and the first
      sample request then fails on the misspelt import, so the entry is never
      built. */
  function ProcessVerbAsWritten(line: string, page: seq<TenseBox>, upper: CaseMap): (r: Result<Processed, string>)
    ensures r.Err?
    ensures Conjugate(page, RequestedTense).Err? ==> r.error == Conjugate(page, RequestedTense).error
    ensures Conjugate(page, RequestedTense).Ok? ==> r.error == MissingSynthesiser
  {
    var tense :- Conjugate(page, RequestedTense);
    var word := SplitAndClean(line)[0];
    match SynthesiseAsWritten(WordId(word), WordText(word, upper))
    case Err(e) => Err(e)
  }

  /** As written, the verb processor fails on the misspelt import on every
      line on which the corrected one succeeds, and elsewhere fails as the
      corrected one does. */
  lemma VerbAsWrittenFails(line: string, page: seq<TenseBox>, upper: CaseMap)
    ensures ProcessVerb(line, page, upper).Ok? ==> ProcessVerbAsWritten(line, page, upper) == Err(MissingSynthesiser)
    ensures ProcessVerb(line, page, upper).Err? ==> ProcessVerbAsWritten(line, page, upper) == ProcessVerb(line, page, upper)
  {
    var tense := Conjugate(page, RequestedTense);
    var r := ProcessVerb(line, page, upper);
    var w := ProcessVerbAsWritten(line, page, upper);
    if tense.Ok? {
      assert r.Ok? && w == Err(MissingSynthesiser);
    } else {
      assert r == Err(tense.error) && w == Err(tense.error);
    }
  }

  /** A line written from a clean verb and translation is read back into
      them: the verb is the entry's source and the name of both samples, the
      translation its target. */
  lemma VerbLine(word: string, target: string, tense: Tense, upper: CaseMap)
    requires CleanPart(word) && CleanPart(target)
    ensures var r := VerbEntry(word + "," + target, tense, upper);
            && r.entry.source == word
            && r.entry.target == Some(target)
            && r.samples[0].id == WordId(word)
            && r.samples[1].id == ConjugationId(word)
  {
    var line := word + "," + target;
    assert SplitAndClean(line) == [word, target] by {
      var parts := [word, target];
      assert Join(parts, ",") == line by {
        assert parts[1..] == [target];
      }
      SplitAndCleanJoin(parts);
    }
  }
}
