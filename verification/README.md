# conjugator — a Dafny model

The conjugator builds flashcards for learning Portuguese. It has two halves.

The TypeScript half reads word lists and scrapes the present tense of each verb from a conjugation page. For every line it builds a deck entry: source word, target word, an HTML description of the tense, and two speech samples. It writes each entry as one line of an importable deck file.

The Rust half reads a vocabulary file and assembles the text sent to a speech synthesiser. It keeps a flashcard collection in sync: it registers a "Conjugator" note type, then inserts or overwrites one note per verb.

This project models the logic of both halves as pure Dafny functions over immutable data and proves properties about it. Network, disk, caching, the speech service and the flashcard store's internals are not modelled. They are either left out or passed in as parameters.

Modules, one per source file:

- `Wrappers`, `Strings`, `Seqs` and `Lang` hold shared definitions:
  - `Option`/`Result`.
  - Splitting, joining, trimming (with the JavaScript and the Rust whitespace sets), replacing, tag stripping.
  - Multiset facts.
  - The vocabulary records.
- `Conjugator` (`src/conjugator.ts`): extraction of a tense table from an already parsed conjugation page.
- `Processor` (`src/processor/index.ts`): the comma tokeniser and capitalisation.
- `VerbProcessor`, `NounProcessor`, `EtcProcessor` (`src/processor/verb.ts`, `noun.ts`, `etc.ts`): one input line to one entry plus the speech samples it requests, as written and corrected.
- `Deck` (`src/main.ts`): the entry and its serialisation. It comes with a reader for the line format, and the serialiser is proved to be that reader's inverse.
- `CsvReader`, `CsvPt` (`src/csv/mod.rs`, `src/csv/pt.rs`): the vocabulary reader over a sequence of lines.
- `LanguageFlag` (`src/main.rs`): the `--language` flag.
- `TtsPt` (`src/tts/pt.rs`): the speech text for a verb. The hash map's visiting order is a parameter.
- `Anki`, `AnkiPt` (`src/anki/mod.rs`, `src/anki/pt.rs`): the note type registry and the verb upsert. The store's search is a parameter.

Modelling conventions:

- A JavaScript `throw`, a Rust `panic!` and a failed `unwrap` are all the `Err` of a `Result`, carrying the message the program would print.
- Calling a name that its import does not export is also an `Err`, carrying the neutral `Processor.MissingImport` value. The three processors do this as written: noun and phrase lines call `createWordID`, and verb lines call `synthehise`. Each processor is given both as written and corrected.
- A JavaScript `undefined` that reaches an entry is `None`.
- `toUpperCase` is a parameter `upper: char -> string`.

Where the documented behaviour and the code disagree, the model follows the code:

- A tense row whose person occurs twice: the first row wins. It is not rejected.
- A tense missing one of the six persons is an error, not a gap.
- Overwriting a stored note replaces all of its fields with the candidate's, so the audio fields become empty.
- A tense row that carries both a regular and an irregular ending is accepted, and the irregular ending wins (`src/conjugator.ts:35-53`).
- Rows whose person is not one of the six labels are ignored. They are not an error, though they are still extracted, so a malformed one still fails the tense.

`has_verb` in `src/anki/pt.rs:10` passes the verb's word to `update_note`. That call cannot be what is meant: the surrounding match counts search results. `AnkiPt.HasVerb` models the evident intent, which is the same search `add_verb` uses.

## Model

| member | source | states |
|---|---|---|
| Conjugator.ExtractConjugation | src/conjugator.ts:24-54 | A row succeeds exactly when it has a person and a non-empty ending. A missing person and a row with no ending fail with their messages. A non-empty irregular ending makes the form irregular and wins over the regular one. The root defaults to "". |
| Conjugator.ExtractRowOf | src/conjugator.ts:24-54 | Extraction inverts rendering: the row a page shows for any form with a non-empty ending is extracted back to that form. |
| Conjugator.IrregularMarkerWins | src/conjugator.ts:35-53 | When the irregular ending is present, the regular marker does not affect the result. |
| Conjugator.ExtractAll | src/conjugator.ts:69-72 | Every row is extracted, in order. The result succeeds iff every row does, and the error is that of the first failing row. |
| Conjugator.FindConjugation | src/conjugator.ts:56-66 | Succeeds iff some form has the person. The result is the first such form; otherwise it fails with "Cannot find conjugation". |
| Conjugator.FindOverRows | src/conjugator.ts:56-82 | Searching the extracted forms for a person succeeds iff some row carries that person, and it yields the extraction of the first such row. |
| Conjugator.FindAll | src/conjugator.ts:74-81 | The six lookups succeed iff each one does, and they return the forms in slot order. On failure the error is "Cannot find conjugation" for the first person that has no form. |
| Conjugator.FoundCons | src/conjugator.ts:74-81 | The form found for the first person, followed by the forms found for the rest, is position by position what the lookups over the whole list give. |
| Conjugator.FirstMissingShift | src/conjugator.ts:74-81 | When the first person is found, the first person missing from the rest is the first person missing from the whole list. |
| Conjugator.FindAllOverRows | src/conjugator.ts:74-81 | Looking up a list of persons over the extracted rows succeeds iff every one of them occurs among the rows. Result k carries person k and is the extraction of the first row for that person. On failure the error names the first person that no row carries. |
| Conjugator.ExtractTense | src/conjugator.ts:68-82 | A box yields a table iff all its rows extract and all six persons occur. Slot k carries the k-th person label and is the first row for it. A row that fails to extract gives the first such row's error. Otherwise a failure is "Cannot find conjugation" for the first of the six labels that no row carries. |
| Conjugator.SelectTense | src/conjugator.ts:106-108 | Keeps only boxes whose heading equals the tense, and every such box. The first kept box is the first matching box on the page. |
| Conjugator.Conjugate | src/conjugator.ts:106-110 | With no box headed by the tense it fails. Otherwise it is the table of the first box so headed. |
| Processor.Capitalize | src/processor/index.ts:19-21 | The result starts with the upper-cased first character, and the rest of the word follows unchanged. "" stays "". |
| Processor.CapitalizeKeepsTail | src/processor/index.ts:19-21 | Only the first character is touched: the word's tail ends the result, and the length changes only by the case mapping. |
| Processor.CapitalizeIdempotent | src/processor/index.ts:19-21 | Capitalising twice equals capitalising once, for a case map that fixes its own output's first character. |
| Processor.SplitAndClean | src/processor/index.ts:23-25 | One part per comma plus one. No part holds a comma or has JavaScript whitespace at either end. Empty parts are kept. |
| Processor.SplitAndCleanJoin | src/processor/index.ts:23-25 | Clean parts joined with "," are tokenised back into exactly those parts. |
| Processor.SplitAndCleanPieces | src/processor/index.ts:23-25 | Any comma-free pieces joined with "," come back one per piece, each piece trimmed of JavaScript whitespace. Every line is the join of its own split, so this gives the tokeniser's output on every line. |
| Processor.SplitAndCleanTo | src/processor/index.ts:23-25 | If each comma-free piece trims to the matching field, the joined pieces tokenise to exactly those fields. |
| Processor.SplitAndCleanSpaced | src/processor/index.ts:23-25 | A line written "a, b, c", with a space after each comma, is read as the fields a, b and c. |
| Processor.TrimSpaceClean | src/processor/index.ts:24 | Trimming removes exactly one leading space from a clean field. |
| Processor.Field | src/processor/verb.ts:62 | Array destructuring: element i when present, `undefined` past the end. |
| Deck.Sound | src/main.ts:20-21 | A non-empty sample id becomes "[sound:", the id itself, then ".mp3]". A missing or empty id becomes "", and only those do. |
| Deck.Serialize | src/main.ts:15-27 | Fails, as `.replace` on `undefined` does, exactly when the target word is missing. Otherwise the line has no line break, and reading it back gives the five columns in order with breaks turned into `<br>`. |
| Deck.ParseQuoted | src/main.ts:15-27 | Quoting every field, doubling its quotes and joining with ";" is undone by the line reader. |
| Deck.ParseSingle | src/main.ts:25-26 | A line of one quoted field reads back as that field. |
| Deck.ParseCons | src/main.ts:25-26 | A quoted field followed by ";" reads back as that field, then the fields of the rest of the line. |
| Deck.ReadDoubled | src/main.ts:24-25 | A quoted field with doubled quotes reads back as the original field, and the closing quote is found where it was written. |
| VerbProcessor.PlaintextAsWritten | src/processor/verb.ts:8-15 | As written, a regular form reads root then ending, and an irregular form reads "undefined". |
| VerbProcessor.HtmlAsWritten | src/processor/verb.ts:17-24 | As written, a regular form renders as the corrected formatter does, and an irregular form renders as a red span around "undefined". |
| VerbProcessor.IrregularFormLost | src/processor/verb.ts:8-24 | For the irregular "sou", the as-written speech text and card text are "undefined"; the form is lost. |
| VerbProcessor.Plaintext | src/processor/verb.ts:8-15 | Corrected: both kinds read root followed by ending. |
| VerbProcessor.Html | src/processor/verb.ts:17-24 | Corrected: a regular form is its root, then a green span holding the ending. An irregular form is a red span holding root and ending. |
| VerbProcessor.HtmlText | src/processor/verb.ts:17-24 | Corrected: with the markup stripped, the coloured form of either kind is exactly its plain text. |
| VerbProcessor.RegularTextBefore | src/processor/verb.ts:20 | A regular form's markup strips to root then ending, whatever follows it. |
| VerbProcessor.IrregularTextBefore | src/processor/verb.ts:22 | Corrected: an irregular form's red markup strips to root then ending, whatever follows it. |
| VerbProcessor.Sentences | src/processor/verb.ts:40-45 | Six sentences. Sentence k is pronoun k and a space, then the formatter's rendering of slot k, then ".". |
| VerbProcessor.Description | src/processor/verb.ts:50-59 | Splitting the description at line breaks gives back exactly the six HTML sentences in slot order, whenever the forms hold no line break. |
| VerbProcessor.ConjugationText | src/processor/verb.ts:31-48 | The speech text is the six sentences of `Sentences(t, Plaintext)`, each pronoun k, a space, the plain form of slot k and ".", joined by single spaces. It opens with "Eu " and ends with ".". |
| VerbProcessor.DescriptionMatchesSpeech | src/processor/verb.ts:31-59 | The card says what the sample speaks: with tags stripped and breaks turned into spaces, the description is the speech text. |
| VerbProcessor.SentenceText | src/processor/verb.ts:40-57 | Sentence k of the card has sentence k of the speech as its text, and that sentence has no line break. |
| VerbProcessor.SampleId | src/processor/verb.ts:27-35 | The id is the word with its first space, and only that one, turned into "-", followed by the tag. |
| VerbProcessor.WordText | src/processor/verb.ts:26-29 | The word sample's text is the upper-cased first letter, then the rest of the word unchanged, then ".". An empty word gives ".". |
| VerbProcessor.VerbEntry | src/processor/verb.ts:61-72 | Corrected, with the synthesiser imported under its exported name. Given the tense, the entry holds the first field, the second field (if any) and the tense's description. Its two sounds name the word sample and the conjugation sample, requested in that order. |
| VerbProcessor.ProcessVerb | src/processor/verb.ts:61-72 | Corrected, with the synthesiser imported under its exported name. Fails iff the present tense cannot be read from the page, with the same error. Otherwise it is the entry built from that tense. |
| VerbProcessor.VerbLine | src/processor/verb.ts:61-72 | Corrected, with the synthesiser imported under its exported name. A line written from a clean verb and translation is read back into them, and both samples are named after the verb. |
| VerbProcessor.ProcessVerbAsWritten | src/processor/verb.ts:26-72 | As written, every line fails. A page without a readable present tense fails with the conjugator's error. Any other line fails when its word sample is requested through the misspelt import `synthehise`. |
| VerbProcessor.VerbAsWrittenFails | src/processor/verb.ts:61-72 | For every line and page: where the corrected processor yields an entry, the processor as written fails on the missing export. Where the corrected one fails, both fail with the same error. |
| NounProcessor.Article | src/processor/noun.ts:7-17 | "f" gives "A" and "m" gives "O". Any other gender, or none, gives "undefined". |
| NounProcessor.ProcessNounAsWritten | src/processor/noun.ts:1-14 | As written, every line fails with the missing export `createWordID`, whatever it holds, before an entry is built. |
| NounProcessor.NounAsWrittenFails | src/processor/noun.ts:12-24 | For every line: as written it fails, while the corrected processor yields an entry whose side-A sound names the sample of the line's word. |
| NounProcessor.ProcessNoun | src/processor/noun.ts:12-24 | Corrected: the source side is article, space, word, and the target is the third field. There is one sample, of the bare word capitalised with ".", named in side A only. |
| NounProcessor.NounSourceSplits | src/processor/noun.ts:16-20 | The source side is the article and a space followed by exactly the word. |
| NounProcessor.NounLine | src/processor/noun.ts:12-24 | A line written from clean word, gender and translation reads back into article and word, translation, and the spoken word. |
| EtcProcessor.SampleText | src/processor/etc.ts:8-9 | The spoken text is the capitalised phrase, plus "." unless the phrase ends in "?". |
| EtcProcessor.SampleTextPunctuated | src/processor/etc.ts:8-9 | The spoken text always ends in "." or "?". |
| EtcProcessor.ProcessEtcAsWritten | src/processor/etc.ts:1-8 | As written, every line fails with the missing export `createWordID`, whatever it holds, before an entry is built. |
| EtcProcessor.EtcAsWrittenFails | src/processor/etc.ts:5-17 | For every line: as written it fails, while the corrected processor yields an entry whose source is the line's phrase and whose side-A sound names the phrase's sample. |
| EtcProcessor.ProcessEtc | src/processor/etc.ts:5-17 | Corrected: source and target are the first two fields. The single sample is named in side A only; there is no description and no side-B sound. |
| EtcProcessor.EtcLine | src/processor/etc.ts:5-17 | A line written from a clean phrase and translation reads back into them. |
| CsvReader.CleanPieces | src/csv/mod.rs:17-21 | No more pieces than given; every kept piece is non-empty and trimmed. |
| CsvReader.CleanPiecesOne | src/csv/mod.rs:19-20 | A piece is kept, trimmed, exactly when trimming leaves something. |
| CsvReader.CleanPiecesAppend | src/csv/mod.rs:18-21 | Filtering distributes over concatenation. |
| CsvReader.CleanPiecesKeepsClean | src/csv/mod.rs:18-21 | Already clean fields pass through unchanged. |
| CsvReader.LineFields | src/csv/mod.rs:12-21 | Every field of a record is non-empty, free of "," and trimmed. |
| CsvReader.LineFieldsJoin | src/csv/mod.rs:12-21 | Clean fields joined by "," are read back as exactly those fields. |
| CsvReader.JoinedNotComment | src/csv/mod.rs:12-15 | Such a line is not a comment unless its first field starts with "#". |
| CsvReader.BlankLineFields | src/csv/mod.rs:12-21 | A whitespace-only line is not skipped; it yields an empty record. |
| CsvReader.LineRecords | src/csv/mod.rs:12-22 | One line contributes at most one record, and its fields are clean. |
| CsvReader.ReadCsv | src/csv/mod.rs:6-26 | At most one record per line, and every field of every record is clean. |
| CsvReader.ReadCsvOne | src/csv/mod.rs:11-23 | A comment line yields nothing, any other line its record. |
| CsvReader.ReadCsvAppend | src/csv/mod.rs:11-23 | The records of two chunks of lines are the first chunk's followed by the second's. |
| CsvReader.CommentSkipped | src/csv/mod.rs:12-15 | A comment line contributes nothing wherever it stands. |
| CsvReader.RecordInPlace | src/csv/mod.rs:17-22 | Any other line contributes exactly its own record, in its place. |
| CsvReader.OneRecordPerLine | src/csv/mod.rs:11-22 | Without comments, record i is the record of line i. |
| CsvPt.ProcessVerb | src/csv/pt.rs:4-10 | Succeeds iff there are at least two fields, with the index panic message otherwise. Word and gloss are the first two fields. The comment is the third field when present and absent otherwise. |
| CsvPt.ProcessFieldsOf | src/csv/pt.rs:4-10 | Reading an entry's own fields gives the entry back. |
| CsvPt.FieldsOfProcess | src/csv/pt.rs:4-10 | A record of two or three fields is exactly the fields of the entry read from it. |
| CsvPt.ExtraFieldsIgnored | src/csv/pt.rs:5-9 | Fields past the third do not change the entry. |
| CsvPt.ProcessAll | src/csv/mod.rs:22 | Records are processed in order. All succeed iff every record has two fields; otherwise the error is that of the first short record. |
| CsvPt.ProcessOne | src/csv/mod.rs:22 | One record gives its entry or its panic. |
| CsvPt.ReadVerbs | src/csv/mod.rs:6-26 | Succeeds iff every record of the file has a word and a gloss. Then there is one entry per record, so at most one per line, and every word and gloss is non-empty, trimmed and comma-free. Otherwise it fails with one of the two index panics. |
| CsvPt.ProcessedClean | src/csv/mod.rs:17-22 | Entries read from clean records have a clean word and gloss. |
| CsvPt.ReadVerbLine | src/csv/pt.rs:4-10 | A line of an entry's clean fields joined by "," reads back as that entry. |
| CsvPt.BlankLinePanics | src/csv/pt.rs:6 | A blank line reaches the entry reader as an empty record and panics on index 0. |
| LanguageFlag.FromStr | src/main.rs:22-31 | Portuguese iff the ASCII-lowercased input is "pt". Otherwise an error quoting the lowercased input. It never panics. |
| LanguageFlag.LowerChar | src/main.rs:26 | ASCII lower-casing sends exactly a letter and its capital to that letter. |
| LanguageFlag.AcceptedSpellings | src/main.rs:26-27 | Exactly "pt", "pT", "Pt" and "PT" are accepted. |
| LanguageFlag.ErrorIgnoresCase | src/main.rs:26-28 | Inputs equal up to ASCII case parse the same way, errors included. |
| TtsPt.Segment | src/tts/pt.rs:57-63 | A segment is the key, a space, the conjugated form, then ".\n": the form sits exactly between the key's space and the closing ".\n". |
| TtsPt.Segments | src/tts/pt.rs:56-64 | One segment per visited key, segment i being that of key i. |
| TtsPt.AssembleText | src/tts/pt.rs:51-67 | The text is the infinitive and ".", followed by the segments of the entries in visiting order. |
| TtsPt.AppendSegments | src/tts/pt.rs:56-64 | The loop appends exactly the segments of the visited keys, in order, to the text. |
| TtsPt.SpeechSegments | src/tts/pt.rs:56-64 | Appending segment by segment yields the concatenation of the segments. |
| TtsPt.SpeakOneMore | src/tts/pt.rs:56-64 | Visiting one more key appends its segment. |
| TtsPt.EmptyMapText | src/tts/pt.rs:51-67 | A verb with no conjugations is spoken as the infinitive followed by ".". |
| TtsPt.SegmentPerEntry | src/tts/pt.rs:56-64 | As many segments as map entries, and every entry's segment among them. |
| TtsPt.OrderIrrelevant | src/tts/pt.rs:56 | Any two visiting orders give the same multiset of segments. |
| TtsPt.SameKeys | src/tts/pt.rs:56 | Two visiting orders of one map list the same keys. |
| TtsPt.SegmentsCons | src/tts/pt.rs:56-64 | The first visited key's segment comes first, followed by the segments of the remaining keys. |
| TtsPt.SegmentsPermute | src/tts/pt.rs:56-64 | Permuting the keys permutes their segments. |
| TtsPt.KeyCount | src/tts/pt.rs:56 | A visiting order is as long as the map is large. |
| Anki.FirstNamed | src/anki/mod.rs:72 | The lookup by name fails iff no note type has the name. Otherwise it yields the first note type with that name. |
| Anki.FirstNamedAppend | src/anki/mod.rs:72 | Note types added after a match do not change the lookup. |
| Anki.FirstNamedNew | src/anki/mod.rs:72-74 | A note type added under an unused name is what the lookup then finds. |
| Anki.AppendFinds | src/anki/mod.rs:99-101 | After a note type is added, a lookup by its name succeeds. |
| Anki.ConjugatorNotetype | src/anki/mod.rs:80-97 | Named "Conjugator", with exactly five fields Source, Target, Comment, AudioA, AudioB in that order, and one template "Standard Card". |
| Anki.CreateNotetype | src/anki/mod.rs:80-102 | Adds that note type at the end of the registry, changes nothing else, and returns it. Afterwards a lookup by "Conjugator" succeeds. |
| Anki.GetOrCreateNotetype | src/anki/mod.rs:71-76 | An existing "Conjugator" is returned and the collection is untouched. Only when none exists is one created. Afterwards the lookup yields what was returned. |
| Anki.GetOrCreateIdempotent | src/anki/mod.rs:71-76 | A second call changes nothing and returns the same note type. |
| Anki.FromCollection | src/anki/mod.rs:44-53 | Afterwards a "Conjugator" note type exists. A collection that already has one is kept unchanged. Otherwise the earlier note types stay in place as a prefix and at most one is added. Notes, decks and the id counter are untouched. |
| Anki.New | src/anki/mod.rs:56-65 | The opened collection is wrapped as it is. |
| Anki.NewDoesNotRegister | src/anki/mod.rs:44-65 | On an empty collection, `new` leaves no "Conjugator" note type whereas `From` creates one. |
| Anki.Prepare | src/anki/mod.rs:67-69 | Always appends one "Conjugator" note type, even when one exists. The earlier note types, the notes, the decks and the next id are unchanged. |
| AnkiPt.HasVerb | src/anki/pt.rs:9-17 | No match gives false and one match gives true. More than one is a panic naming the word. |
| AnkiPt.SetField | src/anki/pt.rs:30-32 | Setting field i succeeds iff the note has it, and changes only field i. |
| AnkiPt.NewNote | src/anki/pt.rs:29 | A new note has one empty value per field of its type. |
| AnkiPt.Candidate | src/anki/pt.rs:29-32 | Succeeds iff the note type has at least three fields. The candidate holds word, gloss and "asd", with the rest empty. |
| AnkiPt.CommentIgnored | src/anki/pt.rs:29-32 | The entry's comment does not reach the note. |
| AnkiPt.AddVerb | src/anki/pt.rs:19-54 | Without the note type it panics, and with too few fields set_field panics. With several matches it panics; otherwise it succeeds (provided a single match is stored). The "Portuguese" deck is ensured. No match inserts the candidate under a fresh id in that deck. One match overwrites that note's fields in place, in its deck. The collection stays well-formed. |
| AnkiPt.AddVerbCount | src/anki/pt.rs:37-49 | No match adds exactly one note and one match keeps the set of ids; no stored id is lost. |
| AnkiPt.HasVerbAgrees | src/anki/pt.rs:9-54 | The lookup panics iff storing refuses a duplicate. When the lookup says no, storing adds a note; when it says yes, storing keeps the ids. |
| AnkiPt.OnlyMatch | src/anki/pt.rs:35 | With an exact search, when one note has the word the search finds it alone. |
| AnkiPt.NoMatch | src/anki/pt.rs:35 | With an exact search, when no note has the word the search finds nothing. |
| AnkiPt.InsertNew | src/anki/pt.rs:37-43 | A new word is inserted under the next id in "Portuguese" with word and gloss, and it is then found alone. |
| AnkiPt.OverwriteExisting | src/anki/pt.rs:44-49 | A stored word is overwritten under its id. The ids, its deck and its uniqueness are kept, and the gloss is replaced. |
| AnkiPt.UpdateInPlace | src/anki/pt.rs:68-106 | Storing "x"/"a" and then "x"/"b" leaves one note for "x", under the first call's id, with gloss "b"; the note count rises by one overall. |
| AnkiPt.AddVerbIdempotent | src/anki/pt.rs:19-54 | Storing the same verb again leaves the collection as it is. |

## Left out

- Fetching the conjugation page, the on-disk JSON cache and the DOM queries (`src/conjugator.ts:84-105,111-118`). The page is taken as already-parsed tense boxes.
- The line generator and deck file writing (`src/processor/index.ts:7-17`, `src/main.ts:29-44`): file and stream I/O. Each line's processing is modelled, as is the order of entries within one line.
- The speech synthesis calls (`src/tts.ts`, `src/tts/pt.rs:26-48`): network and file I/O. A sample is modelled as the id and text it is requested with. `synthesise` returns the id it is given (`src/tts.ts:39`), so the entry's sound is that id.
- The module system. A name imported from a module that does not export it (`createWordID` in noun.ts and etc.ts, `synthehise` in verb.ts) is `undefined` under CommonJS, and calling it throws. Under ES modules the import fails to link, and nothing runs. The model takes the first reading and fails each line with `Processor.MissingImport`. Either way, no line of those processors yields an entry.
- `src/processor/adjective.ts` and the Rust stubs in `src/lang/pt.rs`. Neither is part of the core logic.
- Unicode case mapping. `toUpperCase` is the parameter `upper`.
- Text outside the Basic Multilingual Plane on the TypeScript side. A Dafny `char` is one Unicode scalar value, whereas JavaScript indexes UTF-16 code units, so `charAt(0)` is modelled as the first scalar value. That agrees with the source only for text within the Basic Multilingual Plane.
- Command-line parsing and file reading (`src/main.rs:11-15,33-58`, `src/csv/mod.rs:9-11`).
- Flashcard store internals: persistence, real note and note-type ids, media paths, the search language, renaming of duplicate note-type names, and note-type checks on update. The search is a parameter, and exact-match properties require a search that finds exactly the notes whose first field is the word.
- `TEMPLATE_CSS` (`src/anki/mod.rs:30-38`). It is defined but never used.
- The store's own error texts. `AnkiPt.FieldOutOfRange` and `AnkiPt.NoSuchNote` stand in for them.
- AnkiPt.AddVerb: on a panic the model returns no collection. The deck created before the panic would already be in the store.
- NounProcessor.ProcessNoun, EtcProcessor.ProcessEtc: the id function the source fails to import is a parameter, because its intended definition is not in the source.
- NounProcessor.Article: a gender naming an `Object.prototype` member (such as "constructor") would interpolate that member's text, not "undefined". The model treats every unknown gender as "undefined".

## Findings

| source | as written | input that shows it | evidently intended | confidence | as-written member | corrected member |
|---|---|---|---|---|---|---|
| src/processor/verb.ts:8-24 | The irregular branches read `conjugation.verb`, a field the record does not have, so they render "undefined". | An irregular form root "" and ending "sou" (person "eu") | The irregular form is spoken and shown: root and ending, in red on the card | not executed | VerbProcessor.PlaintextAsWritten | VerbProcessor.Plaintext |
| src/processor/verb.ts:22 | The irregular HTML shows "undefined" in red. | The same "sou" form | A red span around root and ending, whose text is the plain form | not executed | VerbProcessor.HtmlAsWritten | VerbProcessor.HtmlText |
| src/processor/noun.ts:1-14 | `createWordID` is imported from a module that does not export it, so every noun line fails. | The line "casa, f, house" | Each noun gets a sample id derived from its word | not executed | NounProcessor.ProcessNounAsWritten | NounProcessor.ProcessNoun |
| src/processor/etc.ts:1-8 | The same missing import, so every phrase line fails. | The line "tudo bem?, how are you?" | Each phrase gets a sample id derived from its text | not executed | EtcProcessor.ProcessEtcAsWritten | EtcProcessor.ProcessEtc |
| src/processor/verb.ts:6 | `synthehise` is imported from tts.ts, which exports only `synthesise`. Every verb line whose present tense is read then fails when its word sample is requested (`src/processor/verb.ts:28`). | The line "ser, to be", with a page holding a complete "Presente" table | Each verb gets its entry, with the word and conjugation samples synthesised | not executed | VerbProcessor.ProcessVerbAsWritten | VerbProcessor.ProcessVerb |
