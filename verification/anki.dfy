/** The flashcard store: a collection of note types, decks and notes, and
    the handler that makes sure the "Conjugator" note type exists.

    The collection is a value here. A note type is found by name, the first
    registered one winning; notes are kept by id, and new notes take the next
    free id. How the real store persists, numbers and renames things is not
    modelled.
 */
module Anki {
  import opened Wrappers

  const NotetypeName: string := "Conjugator"
  const FieldNames: seq<string> := ["Source", "Target", "Comment", "AudioA", "AudioB"]
  const TemplateName: string := "Standard Card"

  /** The front of the card: the source word over the first sound. */
  const QuestionFormat: string :=
    "\n{{Source}}\n<div style='font-family: \"Liberation Sans\"; font-size: 20px;'>{{AudioA}}</div>\n"

  /** The back: target, source and comment, then the second sound if any. */
  const AnswerFormat: string :=
    "\n{{Target}}\n\n<hr id=answer>\n\n{{Source}}\n\n<hr id=extra>\n\n{{Comment}}\n{{#AudioB}}\n"
    + "<div style='font-family: \"Liberation Sans\"; font-size: 20px;'>{{AudioB}}</div>\n{{/AudioB}}\n"

  datatype Template = Template(name: string, question: string, answer: string)

  datatype Notetype = Notetype(name: string, fields: seq<string>, templates: seq<Template>)

  type NoteId = nat

  /** A note: the deck its card lives in and its field values. */
  datatype Note = Note(deck: string, fields: seq<string>)

  datatype Collection = Collection(notetypes: seq<Notetype>, decks: set<string>,
                                   notes: map<NoteId, Note>, nextId: NoteId)

  /** Every stored note has an id below the next free one. */
  predicate Valid(c: Collection) {
    forall id :: id in c.notes ==> id < c.nextId
  }

  /** The first note type in `nts` called `name`. */
  function FirstNamed(nts: seq<Notetype>, name: string): (r: Option<Notetype>)
    ensures r.None? <==> forall i :: 0 <= i < |nts| ==> nts[i].name != name
    ensures r.Some? ==> exists i :: && 0 <= i < |nts| && nts[i] == r.value && r.value.name == name
                                    && forall j :: 0 <= j < i ==> nts[j].name != name
  {
    if |nts| == 0 then None
    else if nts[0].name == name then Some(nts[0])
    else
      var r := FirstNamed(nts[1..], name);
      assert forall i :: 1 <= i < |nts| ==> nts[1..][i - 1] == nts[i];
      r
  }

  /** A lookup is unaffected by note types registered after a match. */
  lemma {:induction false} FirstNamedAppend(nts: seq<Notetype>, more: seq<Notetype>, name: string)
    requires FirstNamed(nts, name).Some?
    ensures FirstNamed(nts + more, name) == FirstNamed(nts, name)
  {
    if nts[0].name != name {
      assert (nts + more)[1..] == nts[1..] + more;
      FirstNamedAppend(nts[1..], more, name);
    }
  }

  /** Registering a note type under a name nothing else has makes it the
      answer to a lookup by that name. */
  lemma {:induction false} FirstNamedNew(nts: seq<Notetype>, nt: Notetype)
    requires FirstNamed(nts, nt.name).None?
    ensures FirstNamed(nts + [nt], nt.name) == Some(nt)
  {
    if |nts| == 0 {
      assert nts + [nt] == [nt];
    } else {
      assert (nts + [nt])[1..] == nts[1..] + [nt];
      FirstNamedNew(nts[1..], nt);
    }
  }

  function NotetypeByName(c: Collection, name: string): Option<Notetype> {
    FirstNamed(c.notetypes, name)
  }

  /** The note type the tool registers. */
  function ConjugatorNotetype(): (nt: Notetype)
    ensures nt.name == "Conjugator"
    ensures |nt.fields| == 5
    ensures nt.fields[0] == "Source" && nt.fields[1] == "Target" && nt.fields[2] == "Comment"
    ensures nt.fields[3] == "AudioA" && nt.fields[4] == "AudioB"
    ensures |nt.templates| == 1 && nt.templates[0].name == "Standard Card"
  {
    Notetype(NotetypeName, FieldNames, [Template(TemplateName, QuestionFormat, AnswerFormat)])
  }

  /** `create_notetype`: registers a fresh "Conjugator" note type and returns
      it; nothing else in the collection changes. */
  function CreateNotetype(c: Collection): (r: (Collection, Notetype))
    ensures r.1 == ConjugatorNotetype()
    ensures r.0.notetypes == c.notetypes + [r.1]
    ensures r.0.decks == c.decks && r.0.notes == c.notes && r.0.nextId == c.nextId
    ensures NotetypeByName(r.0, NotetypeName).Some?
  {
    var nt := ConjugatorNotetype();
    AppendFinds(c.notetypes, nt);
    (c.(notetypes := c.notetypes + [nt]), nt)
  }

  /** After appending a note type, a lookup by its name succeeds. */
  lemma AppendFinds(nts: seq<Notetype>, nt: Notetype)
    ensures FirstNamed(nts + [nt], nt.name).Some?
  {
    if FirstNamed(nts, nt.name).Some? {
      FirstNamedAppend(nts, [nt], nt.name);
    } else {
      FirstNamedNew(nts, nt);
    }
  }

  /** `get_or_create_notetype`: the registered "Conjugator" note type if there
      is one, untouched; otherwise a new one. Either way a lookup by name now
      returns what was returned. */
  function GetOrCreateNotetype(c: Collection): (r: (Collection, Notetype))
    ensures NotetypeByName(c, NotetypeName).Some? ==> r == (c, NotetypeByName(c, NotetypeName).value)
    ensures NotetypeByName(c, NotetypeName).None? ==> r == CreateNotetype(c)
    ensures NotetypeByName(r.0, NotetypeName) == Some(r.1)
    ensures r.1.name == NotetypeName
  {
    match NotetypeByName(c, NotetypeName)
    case Some(nt) => (c, nt)
    case None =>
      FirstNamedNew(c.notetypes, ConjugatorNotetype());
      CreateNotetype(c)
  }

  /** Asking twice registers at most once. */
  lemma GetOrCreateIdempotent(c: Collection)
    ensures GetOrCreateNotetype(GetOrCreateNotetype(c).0) == GetOrCreateNotetype(c)
  {
  }

  /** The handler owns the collection. */
  datatype Handler = Handler(collection: Collection)

  /** `From<Collection>`: wrapping a collection makes sure the note type
      exists. A collection that already has it is wrapped unchanged; otherwise
      the one new note type goes after the existing ones, which are kept. */
  function FromCollection(c: Collection): (h: Handler)
    ensures NotetypeByName(h.collection, NotetypeName).Some?
    ensures NotetypeByName(c, NotetypeName).Some? ==> h.collection == c
    ensures h.collection.notes == c.notes && h.collection.decks == c.decks
    ensures h.collection.nextId == c.nextId
    ensures |c.notetypes| <= |h.collection.notetypes| <= |c.notetypes| + 1
    ensures h.collection.notetypes[..|c.notetypes|] == c.notetypes
  {
    Handler(GetOrCreateNotetype(c).0)
  }

  /** `new`: the collection opened from disk is wrapped as it is. */
  function New(c: Collection): (h: Handler)
    ensures h.collection == c
  {
    Handler(c)
  }

  /** Unlike `FromCollection`, `New` leaves an empty collection without the
      note type. */
  lemma NewDoesNotRegister()
    ensures NotetypeByName(New(Collection([], {}, map[], 0)).collection, NotetypeName).None?
    ensures NotetypeByName(FromCollection(Collection([], {}, map[], 0)).collection, NotetypeName).Some?
  {
  }

  /** `prepare`: registers a note type even when one is already there, and
      changes nothing else. */
  function Prepare(h: Handler): (r: Handler)
    ensures |r.collection.notetypes| == |h.collection.notetypes| + 1
    ensures r.collection.notetypes[..|h.collection.notetypes|] == h.collection.notetypes
    ensures r.collection.notetypes[|h.collection.notetypes|] == ConjugatorNotetype()
    ensures r.collection.notes == h.collection.notes && r.collection.decks == h.collection.decks
    ensures r.collection.nextId == h.collection.nextId
    ensures NotetypeByName(r.collection, NotetypeName).Some?
  {
    Handler(CreateNotetype(h.collection).0)
  }
}
