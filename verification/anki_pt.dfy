/** Storing a Portuguese verb as a flashcard: look the verb up by its
    Portuguese word and insert a new note or overwrite the one found.

    The store's search is a parameter: a function from the stored notes and a
    query to the ids of the matching notes. Its query language is not
    modelled; the properties that need it require a search that finds exactly
    the notes whose first field is the query.

    Every `unwrap` and `panic!` of the source is an `Err` here. Messages that
    come from the store are stand-ins for the store's own.
 */
module AnkiPt {
  import opened Wrappers
  import opened Lang
  import opened Anki
  import opened Seqs

  type Search = (map<NoteId, Note>, string) -> seq<NoteId>

  const DeckName: string := "Portuguese"

  /** What the third field of every stored verb holds. */
  const CommentPlaceholder: string := "asd"

  const NoNotetype: string := "called `Option::unwrap()` on a `None` value"
  const FieldOutOfRange: string := "called `Result::unwrap()` on an `Err` value: field index out of range"
  const NoSuchNote: string := "called `Result::unwrap()` on an `Err` value: note not found"
  const DuplicateNotes: string := "More than one note with the same vocabulary"

  function SeveralFound(pt: string): string {
    "More than one note found for " + pt
  }

  /** `has_verb`, with the lookup it evidently intends: no match is false,
      one match is true, more is a panic. */
  function HasVerb(c: Collection, v: VocabularyVerb, search: Search): (r: Result<bool, string>)
    ensures r.Ok? <==> |search(c.notes, v.pt)| <= 1
    ensures r.Ok? ==> (r.value <==> |search(c.notes, v.pt)| == 1)
    ensures r.Err? ==> r.error == SeveralFound(v.pt)
  {
    var ids := search(c.notes, v.pt);
    if |ids| == 0 then Ok(false)
    else if |ids| == 1 then Ok(true)
    else Err(SeveralFound(v.pt))
  }

  /** `Note::set_field`, unwrapped. */
  function SetField(fields: seq<string>, i: nat, value: string): (r: Result<seq<string>, string>)
    ensures r.Ok? <==> i < |fields|
    ensures r.Err? ==> r.error == FieldOutOfRange
    ensures r.Ok? ==> |r.value| == |fields| && r.value[i] == value
    ensures r.Ok? ==> forall k :: 0 <= k < |fields| && k != i ==> r.value[k] == fields[k]
  {
    if i < |fields| then Ok(fields[i := value]) else Err(FieldOutOfRange)
  }

  /** The field values of a new note of type `nt`: all empty. */
  function NewNote(nt: Notetype): (r: seq<string>)
    ensures |r| == |nt.fields|
    ensures forall k :: 0 <= k < |r| ==> r[k] == ""
  {
    seq(|nt.fields|, k => "")
  }

  /** The fields of the note to store: word, gloss, the placeholder, and the
      rest empty. The entry's comment is not used. */
  function Candidate(nt: Notetype, v: VocabularyVerb): (r: Result<seq<string>, string>)
    ensures r.Ok? <==> |nt.fields| >= 3
    ensures r.Err? ==> r.error == FieldOutOfRange
    ensures r.Ok? ==> && |r.value| == |nt.fields|
                      && r.value[0] == v.pt && r.value[1] == v.en && r.value[2] == CommentPlaceholder
                      && forall k :: 3 <= k < |r.value| ==> r.value[k] == ""
  {
    var f0 :- SetField(NewNote(nt), 0, v.pt);
    var f1 :- SetField(f0, 1, v.en);
    SetField(f1, 2, CommentPlaceholder)
  }

  /** The comment never reaches the note. */
  lemma CommentIgnored(nt: Notetype, v: VocabularyVerb, w: VocabularyVerb)
    requires v.pt == w.pt && v.en == w.en
    ensures Candidate(nt, v) == Candidate(nt, w)
  {
  }

  /** The collection once the deck exists. */
  function WithDeck(c: Collection): Collection {
    c.(decks := c.decks + {DeckName})
  }

  /** Whether the note type is there and has room for the three fields set. */
  predicate Ready(c: Collection) {
    NotetypeByName(c, NotetypeName).Some? && |NotetypeByName(c, NotetypeName).value.fields| >= 3
  }

  /** `add_verb`: ensure the deck, build the candidate note, then insert it
      when nothing matches the word, overwrite the one match in place, and
      refuse when several match. */
  function AddVerb(c: Collection, verb: VerbConjugations, search: Search): (r: Result<Collection, string>)
    ensures NotetypeByName(c, NotetypeName).None? ==> r == Err(NoNotetype)
    ensures NotetypeByName(c, NotetypeName).Some? && !Ready(c) ==> r == Err(FieldOutOfRange)
    ensures Ready(c) && |search(c.notes, verb.vocabulary.pt)| >= 2 ==> r == Err(DuplicateNotes)
    ensures r.Ok? <==> && Ready(c)
                       && var ids := search(c.notes, verb.vocabulary.pt);
                          |ids| == 0 || (|ids| == 1 && ids[0] in c.notes)
    ensures r.Ok? ==> r.value.decks == c.decks + {DeckName} && r.value.notetypes == c.notetypes
    ensures r.Ok? && |search(c.notes, verb.vocabulary.pt)| == 0 ==>
              && r.value.notes == c.notes[c.nextId := Note(DeckName, Candidate(NotetypeByName(c, NotetypeName).value, verb.vocabulary).value)]
              && r.value.nextId == c.nextId + 1
    ensures r.Ok? && |search(c.notes, verb.vocabulary.pt)| == 1 ==>
              var id := search(c.notes, verb.vocabulary.pt)[0];
              && r.value.notes == c.notes[id := Note(c.notes[id].deck, Candidate(NotetypeByName(c, NotetypeName).value, verb.vocabulary).value)]
              && r.value.nextId == c.nextId
    ensures Valid(c) && r.Ok? ==> Valid(r.value)
  {
    var c1 := WithDeck(c);
    var nt := NotetypeByName(c1, NotetypeName);
    if nt.None? then Err(NoNotetype)
    else
      var fields :- Candidate(nt.value, verb.vocabulary);
      var ids := search(c1.notes, verb.vocabulary.pt);
      if |ids| == 0 then
        Ok(c1.(notes := c1.notes[c1.nextId := Note(DeckName, fields)], nextId := c1.nextId + 1))
      else if |ids| == 1 then
        if ids[0] in c1.notes then Ok(c1.(notes := c1.notes[ids[0] := Note(c1.notes[ids[0]].deck, fields)]))
        else Err(NoSuchNote)
      else Err(DuplicateNotes)
  }

  /** Storing changes the number of notes by one exactly when the word was not
      found, and keeps every stored id. */
  lemma {:induction false} AddVerbCount(c: Collection, verb: VerbConjugations, search: Search)
    requires Valid(c)
    requires AddVerb(c, verb, search).Ok?
    ensures |search(c.notes, verb.vocabulary.pt)| == 0 ==>
              |AddVerb(c, verb, search).value.notes| == |c.notes| + 1
    ensures |search(c.notes, verb.vocabulary.pt)| == 1 ==>
              AddVerb(c, verb, search).value.notes.Keys == c.notes.Keys
    ensures c.notes.Keys <= AddVerb(c, verb, search).value.notes.Keys
  {
    var r := AddVerb(c, verb, search).value;
    if |search(c.notes, verb.vocabulary.pt)| == 0 {
      assert c.nextId !in c.notes;
      assert r.notes.Keys == c.notes.Keys + {c.nextId};
    }
  }

  /** The lookup and the store agree: a word the lookup finds is overwritten,
      one it does not find is inserted, and the lookup's panic is the store's
      refusal. */
  lemma HasVerbAgrees(c: Collection, verb: VerbConjugations, search: Search)
    requires Valid(c) && Ready(c)
    ensures HasVerb(c, verb.vocabulary, search).Err? <==> AddVerb(c, verb, search) == Err(DuplicateNotes)
    ensures HasVerb(c, verb.vocabulary, search) == Ok(false) ==>
              && AddVerb(c, verb, search).Ok?
              && |AddVerb(c, verb, search).value.notes| == |c.notes| + 1
    ensures HasVerb(c, verb.vocabulary, search) == Ok(true) && AddVerb(c, verb, search).Ok? ==>
              AddVerb(c, verb, search).value.notes.Keys == c.notes.Keys
  {
    if AddVerb(c, verb, search).Ok? {
      AddVerbCount(c, verb, search);
    }
  }

  // ---------------------------------------------------------------------------
  // Upsert behaviour under a search that matches the first field exactly

  predicate SourceIs(n: Note, key: string) {
    |n.fields| > 0 && n.fields[0] == key
  }

  /** `ids` lists, once each, exactly the notes whose first field is `key`. */
  predicate FindsSource(ids: seq<NoteId>, notes: map<NoteId, Note>, key: string) {
    && (forall i :: 0 <= i < |ids| ==> ids[i] in notes && SourceIs(notes[ids[i]], key))
    && (forall id :: id in notes && SourceIs(notes[id], key) ==> id in ids)
    && Distinct(ids)
  }

  ghost predicate ExactSearch(search: Search) {
    forall notes, key :: FindsSource(search(notes, key), notes, key)
  }

  /** When only `id` has the word, the search finds `id` alone. */
  lemma OnlyMatch(ids: seq<NoteId>, notes: map<NoteId, Note>, key: string, id: NoteId)
    requires FindsSource(ids, notes, key)
    requires id in notes && SourceIs(notes[id], key)
    requires forall other :: other in notes && other != id ==> !SourceIs(notes[other], key)
    ensures ids == [id]
  {
    assert id in ids;
    assert forall i :: 0 <= i < |ids| ==> ids[i] == id;
    AllCount(ids, id);
    DistinctCount(ids, id);
  }

  /** When nothing has the word, the search finds nothing. */
  lemma NoMatch(ids: seq<NoteId>, notes: map<NoteId, Note>, key: string)
    requires FindsSource(ids, notes, key)
    requires forall id :: id in notes ==> !SourceIs(notes[id], key)
    ensures ids == []
  {
    forall x
      ensures multiset(ids)[x] == 0
    {
    }
    assert multiset(ids) == multiset{};
  }

  /** Storing a new word inserts one note, found alone by its word. */
  lemma InsertNew(c: Collection, verb: VerbConjugations, search: Search)
    requires ExactSearch(search) && Valid(c) && Ready(c)
    requires forall id :: id in c.notes ==> !SourceIs(c.notes[id], verb.vocabulary.pt)
    ensures AddVerb(c, verb, search).Ok?
    ensures var c1 := AddVerb(c, verb, search).value;
            && c.nextId in c1.notes
            && c1.notes[c.nextId].deck == DeckName
            && c1.notes[c.nextId].fields[..2] == [verb.vocabulary.pt, verb.vocabulary.en]
            && search(c1.notes, verb.vocabulary.pt) == [c.nextId]
  {
    var pt := verb.vocabulary.pt;
    NoMatch(search(c.notes, pt), c.notes, pt);
    var c1 := AddVerb(c, verb, search).value;
    var fields := c1.notes[c.nextId].fields;
    assert fields[..2] == [pt, verb.vocabulary.en];
    OnlyMatch(search(c1.notes, pt), c1.notes, pt, c.nextId);
  }

  /** Storing a word again overwrites its note in place: same id, same set of
      notes, new gloss, still found alone. */
  lemma OverwriteExisting(c: Collection, verb: VerbConjugations, search: Search, id: NoteId)
    requires ExactSearch(search) && Valid(c) && Ready(c)
    requires id in c.notes && SourceIs(c.notes[id], verb.vocabulary.pt)
    requires forall other :: other in c.notes && other != id ==> !SourceIs(c.notes[other], verb.vocabulary.pt)
    ensures AddVerb(c, verb, search).Ok?
    ensures var c1 := AddVerb(c, verb, search).value;
            && c1.notes.Keys == c.notes.Keys
            && c1.notes[id].deck == c.notes[id].deck
            && c1.notes[id].fields[..2] == [verb.vocabulary.pt, verb.vocabulary.en]
            && search(c1.notes, verb.vocabulary.pt) == [id]
  {
    var pt := verb.vocabulary.pt;
    OnlyMatch(search(c.notes, pt), c.notes, pt, id);
    var c1 := AddVerb(c, verb, search).value;
    var fields := c1.notes[id].fields;
    assert fields[..2] == [pt, verb.vocabulary.en];
    OnlyMatch(search(c1.notes, pt), c1.notes, pt, id);
  }

  /** Storing "x"/"a" and then "x"/"b" leaves one note for "x", under the id
      the first call gave it, with the gloss "b". */
  lemma UpdateInPlace(c: Collection, a: VerbConjugations, b: VerbConjugations, search: Search)
    requires ExactSearch(search) && Valid(c) && Ready(c)
    requires a.vocabulary.pt == b.vocabulary.pt
    requires forall id :: id in c.notes ==> !SourceIs(c.notes[id], a.vocabulary.pt)
    ensures AddVerb(c, a, search).Ok?
    ensures var c1 := AddVerb(c, a, search).value;
            && AddVerb(c1, b, search).Ok?
            && var c2 := AddVerb(c1, b, search).value;
               && search(c2.notes, a.vocabulary.pt) == [c.nextId]
               && c2.notes[c.nextId].fields[..2] == [b.vocabulary.pt, b.vocabulary.en]
               && |c2.notes| == |c.notes| + 1
  {
    var pt := a.vocabulary.pt;
    InsertNew(c, a, search);
    var c1 := AddVerb(c, a, search).value;
    AddVerbCount(c, a, search);
    assert Ready(c1) by {
      assert c1.notetypes == c.notetypes;
    }
    forall other | other in c1.notes && other != c.nextId
      ensures !SourceIs(c1.notes[other], pt)
    {
      assert c1.notes[other] == c.notes[other];
    }
    OverwriteExisting(c1, b, search, c.nextId);
    AddVerbCount(c1, b, search);
  }

  /** Storing the same verb twice is storing it once. */
  lemma AddVerbIdempotent(c: Collection, verb: VerbConjugations, search: Search)
    requires ExactSearch(search) && Valid(c)
    requires AddVerb(c, verb, search).Ok?
    ensures var c1 := AddVerb(c, verb, search).value;
            AddVerb(c1, verb, search) == Ok(c1)
  {
    var pt := verb.vocabulary.pt;
    var c1 := AddVerb(c, verb, search).value;
    var ids := search(c.notes, pt);
    var id := if |ids| == 0 then c.nextId else ids[0];
    assert FindsSource(ids, c.notes, pt);
    forall other | other in c1.notes && other != id
      ensures !SourceIs(c1.notes[other], pt)
    {
      assert c1.notes[other] == c.notes[other];
    }
    OnlyMatch(search(c1.notes, pt), c1.notes, pt, id);
    assert WithDeck(c1) == c1;
    assert c1.notes[id := c1.notes[id]] == c1.notes;
  }
}
