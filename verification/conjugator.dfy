/** Extraction of one tense's conjugation table from a conjugation page.

    The page is taken already parsed: a sequence of tense boxes, each with the
    text of its heading (absent when the box has none) and its list rows. A row
    carries the inner text of each of its four markers, any of which may be
    missing: the grammatical person, the root, the regular ending and the
    irregular ending. Fetching, caching and CSS selection are not modelled.
 */
module Conjugator {
  import opened Wrappers
  import opened Lang

  /** The text pieces of one conjugated form. The regular/irregular tag is the
      `Conjugated` wrapper around it. */
  datatype Inflection = Inflection(person: string, root: string, postfix: string)

  type Conjugation = Conjugated<Inflection>

  /** The six persons of one tense, singular then plural. */
  datatype Tense = Tense(s1: Conjugation, s2: Conjugation, s3: Conjugation,
                         p1: Conjugation, p2: Conjugation, p3: Conjugation)
  {
    function Slots(): (r: seq<Conjugation>)
      ensures |r| == 6
    {
      [s1, s2, s3, p1, p2, p3]
    }
  }

  function FromSlots(slots: seq<Conjugation>): (t: Tense)
    requires |slots| == 6
    ensures t.Slots() == slots
  {
    var t := Tense(slots[0], slots[1], slots[2], slots[3], slots[4], slots[5]);
    assert t.Slots()[..5] == slots[..5];
    t
  }

  /** One list row of a tense box; `None` is a marker the row does not have. */
  datatype Row = Row(person: Option<string>, root: Option<string>,
                     regular: Option<string>, irregular: Option<string>)

  datatype TenseBox = TenseBox(heading: Option<string>, rows: seq<Row>)

  /** The person labels the page uses, in slot order s1, s2, s3, p1, p2, p3. */
  const PersonLabels: seq<string> := ["eu", "tu", "ele/ela/você", "nós", "vós", "eles/elas/vocês"]

  const PersonMissing: string := "Conjugation person cannot be null"

  function NoPostfix(person: string): string {
    "No regular postfix found for conjugation '" + person + "'"
  }

  function NotFound(person: string): string {
    "Cannot find conjugation '" + person + "'"
  }

  /** What dereferencing the first element of an empty selection raises. */
  const NoSuchTense: string := "TypeError: Cannot read properties of undefined (reading 'querySelectorAll')"

  /** JavaScript truthiness of an optional string: present and not empty. */
  predicate Truthy(v: Option<string>) {
    v.Some? && v.value != ""
  }

  /** One row to one tagged form. A missing person fails; a missing or empty
      root reads as ""; a non-empty irregular ending wins over the regular one,
      and a row carrying both is accepted; with neither ending the row fails. */
  function ExtractConjugation(row: Row): (r: Result<Conjugation, string>)
    ensures r.Ok? <==> row.person.Some? && (Truthy(row.irregular) || Truthy(row.regular))
    ensures row.person.None? ==> r == Err(PersonMissing)
    ensures row.person.Some? && !Truthy(row.irregular) && !Truthy(row.regular) ==>
              r == Err(NoPostfix(row.person.value))
    ensures r.Ok? ==>
              && r.value.form.person == row.person.value
              && r.value.form.root == row.root.GetOr("")
              && r.value.form.postfix != ""
    ensures r.Ok? ==> (r.value.Irregular? <==> Truthy(row.irregular))
    ensures r.Ok? && r.value.Irregular? ==> r.value.form.postfix == row.irregular.value
    ensures r.Ok? && r.value.Regular? ==> r.value.form.postfix == row.regular.value
  {
    if row.person.None? then Err(PersonMissing)
    else
      var person := row.person.value;
      var root := if Truthy(row.root) then row.root.value else "";
      if !Truthy(row.irregular) then
        if !Truthy(row.regular) then Err(NoPostfix(person))
        else Ok(Regular(Inflection(person, root, row.regular.value)))
      else Ok(Irregular(Inflection(person, root, row.irregular.value)))
  }

  /** The row a page would show for a form: the inverse of extraction. */
  function RowOf(c: Conjugation): Row {
    var f := c.form;
    match c
    case Regular(_) => Row(Some(f.person), Some(f.root), Some(f.postfix), None)
    case Irregular(_) => Row(Some(f.person), Some(f.root), None, Some(f.postfix))
  }

  /** Extraction recovers every form whose ending is not empty. */
  lemma ExtractRowOf(c: Conjugation)
    requires c.form.postfix != ""
    ensures ExtractConjugation(RowOf(c)) == Ok(c)
  {
  }

  /** With a non-empty irregular ending, the regular marker is irrelevant. */
  lemma IrregularMarkerWins(row: Row, regular: Option<string>)
    requires Truthy(row.irregular)
    ensures ExtractConjugation(row.(regular := regular)) == ExtractConjugation(row)
  {
  }

  /** Every row extracted, in order; the first failing row's error aborts. */
  function ExtractAll(rows: seq<Row>): (r: Result<seq<Conjugation>, string>)
    ensures r.Ok? <==> forall i :: 0 <= i < |rows| ==> ExtractConjugation(rows[i]).Ok?
    ensures r.Ok? ==> |r.value| == |rows|
    ensures r.Ok? ==> forall i :: 0 <= i < |rows| ==> ExtractConjugation(rows[i]) == Ok(r.value[i])
    ensures r.Err? ==> exists i :: 0 <= i < |rows| && ExtractConjugation(rows[i]) == Err(r.error)
                                   && forall j :: 0 <= j < i ==> ExtractConjugation(rows[j]).Ok?
  {
    if |rows| == 0 then Ok([])
    else
      var c :- ExtractConjugation(rows[0]);
      var cs :- ExtractAll(rows[1..]);
      assert forall i :: 1 <= i < |rows| ==> rows[i] == rows[1..][i - 1];
      Ok([c] + cs)
  }

  /** `conjugations.find(conj => conj.person === person)`: the first form for
      `person`; failing when there is none. */
  function FindConjugation(person: string, cs: seq<Conjugation>): (r: Result<Conjugation, string>)
    ensures r.Ok? <==> exists i :: 0 <= i < |cs| && cs[i].form.person == person
    ensures r.Err? ==> r.error == NotFound(person)
    ensures r.Ok? ==> exists i :: FirstFor(cs, person, i) && cs[i] == r.value
  {
    if |cs| == 0 then Err(NotFound(person))
    else if cs[0].form.person == person then Ok(cs[0])
    else
      var r := FindConjugation(person, cs[1..]);
      assert forall i :: 1 <= i < |cs| ==> cs[i] == cs[1..][i - 1];
      r
  }

  /** Position `i` holds the first form of `cs` for `person`. */
  predicate FirstFor(cs: seq<Conjugation>, person: string, i: int) {
    && 0 <= i < |cs| && cs[i].form.person == person
    && forall j :: 0 <= j < i ==> cs[j].form.person != person
  }

  /** The first row of `rows` whose person is `who`, when its extraction
      gives `c`. */
  ghost predicate FirstRowGives(rows: seq<Row>, who: string, c: Conjugation) {
    exists i :: 0 <= i < |rows| && rows[i].person == Some(who)
                && ExtractConjugation(rows[i]) == Ok(c)
                && forall j :: 0 <= j < i ==> rows[j].person != Some(who)
  }

  ghost predicate HasPerson(rows: seq<Row>, who: string) {
    exists i :: 0 <= i < |rows| && rows[i].person == Some(who)
  }

  /** Searching the extracted forms is searching the rows they came from. */
  lemma FindOverRows(rows: seq<Row>, cs: seq<Conjugation>, who: string)
    requires |cs| == |rows|
    requires forall i :: 0 <= i < |rows| ==> ExtractConjugation(rows[i]) == Ok(cs[i])
    ensures FindConjugation(who, cs).Ok? <==> HasPerson(rows, who)
    ensures FindConjugation(who, cs).Ok? ==> FirstRowGives(rows, who, FindConjugation(who, cs).value)
  {
    var r := FindConjugation(who, cs);
    if r.Ok? {
      var i :| FirstFor(cs, who, i) && cs[i] == r.value;
      assert ExtractConjugation(rows[i]) == Ok(cs[i]);
      forall j | 0 <= j < i
        ensures rows[j].person != Some(who)
      {
        assert ExtractConjugation(rows[j]) == Ok(cs[j]);
      }
    } else {
      forall i | 0 <= i < |rows|
        ensures rows[i].person != Some(who)
      {
        assert ExtractConjugation(rows[i]) == Ok(cs[i]);
      }
    }
  }

  /** The first form for each of `whos`, in order; the first missing one
      fails. */
  function FindAll(whos: seq<string>, cs: seq<Conjugation>): (r: Result<seq<Conjugation>, string>)
    ensures r.Ok? <==> forall k :: 0 <= k < |whos| ==> FindConjugation(whos[k], cs).Ok?
    ensures r.Ok? ==> |r.value| == |whos|
    ensures r.Ok? ==> forall k :: 0 <= k < |whos| ==> FindConjugation(whos[k], cs) == Ok(r.value[k])
    ensures r.Err? ==> exists k :: FirstMissing(whos, cs, k) && r.error == NotFound(whos[k])
  {
    if |whos| == 0 then Ok([])
    else
      var first := FindConjugation(whos[0], cs);
      var rest := FindAll(whos[1..], cs);
      if first.Err? then
        assert FirstMissing(whos, cs, 0);
        Err(first.error)
      else if rest.Err? then
        assert exists k :: FirstMissing(whos, cs, k) && rest.error == NotFound(whos[k]) by {
          var k :| FirstMissing(whos[1..], cs, k) && rest.error == NotFound(whos[1..][k]);
          FirstMissingShift(whos, cs, k);
        }
        Err(rest.error)
      else
        FoundCons(whos, cs, first.value, rest.value);
        Ok([first.value] + rest.value)
  }

  /** `whos[k]` is the first of `whos` that `cs` holds no form for. */
  predicate FirstMissing(whos: seq<string>, cs: seq<Conjugation>, k: int) {
    && 0 <= k < |whos| && FindConjugation(whos[k], cs).Err?
    && forall j :: 0 <= j < k ==> FindConjugation(whos[j], cs).Ok?
  }

  /** Forms found for the head and, in order, for the tail are the forms
      found for the whole list. */
  lemma FoundCons(whos: seq<string>, cs: seq<Conjugation>, v: Conjugation, vs: seq<Conjugation>)
    requires |whos| > 0 && FindConjugation(whos[0], cs) == Ok(v) && |vs| == |whos| - 1
    requires forall k :: 0 <= k < |vs| ==> FindConjugation(whos[1..][k], cs) == Ok(vs[k])
    ensures forall k :: 0 <= k < |whos| ==> FindConjugation(whos[k], cs) == Ok(([v] + vs)[k])
  {
    var r := [v] + vs;
    forall k | 0 <= k < |whos|
      ensures FindConjugation(whos[k], cs) == Ok(r[k])
    {
      if k > 0 {
        assert whos[k] == whos[1..][k - 1] && r[k] == vs[k - 1];
      }
    }
  }

  /** A first miss in the tail, after a found head, is a first miss of the
      whole list, one place further on. */
  lemma FirstMissingShift(whos: seq<string>, cs: seq<Conjugation>, k: int)
    requires |whos| > 0 && FindConjugation(whos[0], cs).Ok?
    requires FirstMissing(whos[1..], cs, k)
    ensures FirstMissing(whos, cs, k + 1) && whos[k + 1] == whos[1..][k]
  {
    assert forall j :: 1 <= j < k + 1 ==> whos[j] == whos[1..][j - 1];
  }

  /** The table of one tense box: every row is extracted first, so a malformed
      row anywhere aborts; then each slot takes the first row for its fixed
      person label. Rows for other persons, and later duplicates, are ignored;
      a missing person fails. */
  function ExtractTense(rows: seq<Row>): (r: Result<Tense, string>)
    ensures r.Ok? <==> (forall i :: 0 <= i < |rows| ==> ExtractConjugation(rows[i]).Ok?)
                       && forall k :: 0 <= k < 6 ==> HasPerson(rows, PersonLabels[k])
    ensures r.Ok? ==> forall k :: 0 <= k < 6 ==> r.value.Slots()[k].form.person == PersonLabels[k]
    ensures r.Ok? ==> forall k :: 0 <= k < 6 ==> FirstRowGives(rows, PersonLabels[k], r.value.Slots()[k])
    ensures ExtractAll(rows).Err? ==> r == Err(ExtractAll(rows).error)
    ensures ExtractAll(rows).Ok? && r.Err? ==>
              exists k :: FirstAbsent(rows, PersonLabels, k) && r.error == NotFound(PersonLabels[k])
  {
    match ExtractAll(rows)
    case Err(e) => Err(e)
    case Ok(cs) =>
      FindAllOverRows(rows, cs, PersonLabels);
      match FindAll(PersonLabels, cs)
      case Err(e) => Err(e)
      case Ok(slots) =>
        Ok(FromSlots(slots))
  }

  /** What the searches over extracted rows establish, for any list of
      persons. */
  lemma FindAllOverRows(rows: seq<Row>, cs: seq<Conjugation>, whos: seq<string>)
    requires |cs| == |rows|
    requires forall i :: 0 <= i < |rows| ==> ExtractConjugation(rows[i]) == Ok(cs[i])
    ensures FindAll(whos, cs).Ok? <==> forall k :: 0 <= k < |whos| ==> HasPerson(rows, whos[k])
    ensures FindAll(whos, cs).Ok? ==>
              forall k :: 0 <= k < |whos| ==>
                var c := FindAll(whos, cs).value[k];
                c.form.person == whos[k] && FirstRowGives(rows, whos[k], c)
    ensures FindAll(whos, cs).Err? ==>
              exists k :: FirstAbsent(rows, whos, k) && FindAll(whos, cs).error == NotFound(whos[k])
  {
    forall k | 0 <= k < |whos|
      ensures FindConjugation(whos[k], cs).Ok? <==> HasPerson(rows, whos[k])
      ensures FindConjugation(whos[k], cs).Ok? ==>
                FindConjugation(whos[k], cs).value.form.person == whos[k]
                && FirstRowGives(rows, whos[k], FindConjugation(whos[k], cs).value)
    {
      FindOverRows(rows, cs, whos[k]);
    }
    if FindAll(whos, cs).Err? {
      var k :| FirstMissing(whos, cs, k) && FindAll(whos, cs).error == NotFound(whos[k]);
      assert FirstAbsent(rows, whos, k);
    }
  }

  /** `whos[k]` is the first of `whos` that no row is labelled with. */
  ghost predicate FirstAbsent(rows: seq<Row>, whos: seq<string>, k: int) {
    && 0 <= k < |whos| && !HasPerson(rows, whos[k])
    && forall j :: 0 <= j < k ==> HasPerson(rows, whos[j])
  }

  /** The boxes whose heading is exactly `tense`, in page order. */
  function SelectTense(boxes: seq<TenseBox>, tense: string): (r: seq<TenseBox>)
    ensures |r| <= |boxes|
    ensures forall k :: 0 <= k < |r| ==> r[k].heading == Some(tense)
    ensures forall i :: 0 <= i < |boxes| && boxes[i].heading == Some(tense) ==> boxes[i] in r
    ensures |r| > 0 ==> exists i :: 0 <= i < |boxes| && boxes[i] == r[0]
                                    && forall j :: 0 <= j < i ==> boxes[j].heading != Some(tense)
  {
    if |boxes| == 0 then []
    else
      var rest := SelectTense(boxes[1..], tense);
      assert forall i :: 1 <= i < |boxes| ==> boxes[i] == boxes[1..][i - 1];
      if boxes[0].heading == Some(tense) then [boxes[0]] + rest else rest
  }

  /** The table of the first box headed `tense`; without one, the source
      dereferences `undefined` and fails. */
  function Conjugate(boxes: seq<TenseBox>, tense: string): (r: Result<Tense, string>)
    ensures (forall i :: 0 <= i < |boxes| ==> boxes[i].heading != Some(tense)) ==> r == Err(NoSuchTense)
    ensures forall i ::
              (0 <= i < |boxes| && boxes[i].heading == Some(tense)
               && (forall j :: 0 <= j < i ==> boxes[j].heading != Some(tense))) ==>
              r == ExtractTense(boxes[i].rows)
  {
    var selected := SelectTense(boxes, tense);
    if |selected| == 0 then Err(NoSuchTense)
    else
      assert forall i ::
               (0 <= i < |boxes| && boxes[i].heading == Some(tense)
                && (forall j :: 0 <= j < i ==> boxes[j].heading != Some(tense))) ==>
               boxes[i] == selected[0];
      ExtractTense(selected[0].rows)
  }
}
