/** Helpers shared by the per-category line processors: capitalisation, the
    comma tokeniser, positional reading of its fields, and the record of what a
    processor produces.

    `String.prototype.toUpperCase` is not modelled; every function that needs
    it takes the case mapping of one character as a parameter `upper`.
 */
module Processor {
  import opened Wrappers
  import opened Strings
  import opened Deck

  /** The upper-case form of one character; it may be several characters long. */
  type CaseMap = char -> string

  /** A request to synthesise speech: the sample's id and the text to speak.
      The synthesiser returns the id it was given. */
  datatype Sample = Sample(id: string, text: string)

  /** What processing one input line yields: the deck entry and the speech
      samples requested on the way, in request order. */
  datatype Processed = Processed(entry: AnkiEntry, samples: seq<Sample>)

  /** The failure of a processor that uses a name its import does not
      export. Loaded as CommonJS, the name is `undefined` and calling it
      throws; loaded as an ES module, the import does not link and nothing
      runs. Either way no line of that processor yields an entry; the model
      takes the first reading and fails the line. */
  function MissingImport(name: string): string {
    "missing export: " + name
  }

  /** `createWordID`, which noun.ts and etc.ts import from index.ts. */
  const MissingWordId: string := MissingImport("createWordID")

  /** `synthehise`, the misspelt name verb.ts imports from tts.ts. */
  const MissingSynthesiser: string := MissingImport("synthehise")

  /** Calling `createWordID`: it is not exported, so the call always fails,
      whatever the word. */
  function CreateWordIdAsWritten(word: string): Result<string, string> {
    Err(MissingWordId)
  }

  /** `word.charAt(0).toUpperCase() + word.substring(1)`. */
  function Capitalize(w: string, upper: CaseMap): (r: string)
    ensures |w| == 0 ==> r == ""
    ensures |w| > 0 ==> StartsWith(r, upper(w[0])) && r[|upper(w[0])|..] == w[1..]
  {
    if |w| == 0 then "" else upper(w[0]) + w[1..]
  }

  /** Only the first character is touched: the rest of the word is the tail
      of the result. */
  lemma CapitalizeKeepsTail(w: string, upper: CaseMap)
    requires |w| > 0
    ensures EndsWith(Capitalize(w, upper), w[1..])
    ensures |Capitalize(w, upper)| == |upper(w[0])| + |w| - 1
  {
  }

  /** Capitalising twice is capitalising once when the case map is non-empty
      and fixes the first character of its own output, as `toUpperCase` does. */
  lemma CapitalizeIdempotent(w: string, upper: CaseMap)
    requires forall c :: |upper(c)| > 0 && upper(upper(c)[0]) == upper(c)[..1]
    ensures Capitalize(Capitalize(w, upper), upper) == Capitalize(w, upper)
  {
    if |w| > 0 {
      var u := upper(w[0]);
      var once := u + w[1..];
      assert once[0] == u[0];
      assert upper(once[0]) == u[..1];
      assert once[1..] == u[1..] + w[1..];
      assert u[..1] + u[1..] == u;
    }
  }

  /** `line.split(",").map(s => s.trim())`: one part per comma plus one, each
      trimmed of JavaScript whitespace; empty parts are kept. */
  function SplitAndClean(line: string): (r: seq<string>)
    ensures |r| == Count(line, ',') + 1
    ensures forall k :: 0 <= k < |r| ==> ',' !in r[k]
    ensures forall k :: 0 <= k < |r| && |r[k]| > 0 ==>
              !IsJsWhitespace(r[k][0]) && !IsJsWhitespace(r[k][|r[k]| - 1])
  {
    var parts := Split(line, ',');
    var r := seq(|parts|, k requires 0 <= k < |parts| => Trim(parts[k], IsJsWhitespace));
    assert forall k :: 0 <= k < |r| ==> ',' !in r[k] by {
      forall k | 0 <= k < |r|
        ensures ',' !in r[k]
      {
        TrimKeepsOut(parts[k], IsJsWhitespace, ',');
      }
    }
    r
  }

  /** A field the tokeniser gives back unchanged: no comma, and no
      whitespace at either end. */
  predicate CleanPart(p: string) {
    ',' !in p && (|p| > 0 ==> !IsJsWhitespace(p[0]) && !IsJsWhitespace(p[|p| - 1]))
  }

  /** Joining already clean comma-free parts with "," and cleaning again gives
      the parts back. */
  lemma SplitAndCleanJoin(parts: seq<string>)
    requires |parts| >= 1
    requires forall k :: 0 <= k < |parts| ==> CleanPart(parts[k])
    ensures SplitAndClean(Join(parts, ",")) == parts
  {
    SplitJoin(parts, ',');
    forall k | 0 <= k < |parts|
      ensures Trim(parts[k], IsJsWhitespace) == parts[k]
    {
      TrimTrimmed(parts[k], IsJsWhitespace);
    }
  }

  /** Any comma-free pieces joined with "," come back as those pieces, each
      trimmed of JavaScript whitespace. Every line is such a join (of its
      `Split` at ','), so this fixes the tokeniser's output on every line. */
  lemma SplitAndCleanPieces(pieces: seq<string>)
    requires |pieces| >= 1
    requires forall k :: 0 <= k < |pieces| ==> ',' !in pieces[k]
    ensures |SplitAndClean(Join(pieces, ","))| == |pieces|
    ensures forall k :: 0 <= k < |pieces| ==>
              SplitAndClean(Join(pieces, ","))[k] == Trim(pieces[k], IsJsWhitespace)
  {
    SplitJoin(pieces, ',');
  }

  /** A line written with a space after each comma, the usual way of writing
      the input lines, is read as its fields without the spaces. */
  lemma SplitAndCleanSpaced(a: string, b: string, c: string)
    requires CleanPart(a) && CleanPart(b) && CleanPart(c)
    ensures SplitAndClean(a + ", " + b + ", " + c) == [a, b, c]
  {
    JoinSpaced(a, b, c);
    SpacedPieces(a, b, c);
  }

  /** The three pieces of a spaced line tokenise to the three fields. */
  lemma SpacedPieces(a: string, b: string, c: string)
    requires CleanPart(a) && CleanPart(b) && CleanPart(c)
    ensures SplitAndClean(Join([a, " " + b, " " + c], ",")) == [a, b, c]
  {
    var pieces, fields := [a, " " + b, " " + c], [a, b, c];
    forall k | 0 <= k < 3
      ensures ',' !in pieces[k] && Trim(pieces[k], IsJsWhitespace) == fields[k]
    {
      if k == 0 {
        TrimTrimmed(a, IsJsWhitespace);
      } else if k == 1 {
        TrimSpaceClean(b);
      } else {
        TrimSpaceClean(c);
      }
    }
    SplitAndCleanTo(pieces, fields);
  }

  /** Pieces that each trim to the matching field tokenise to the fields. */
  lemma SplitAndCleanTo(pieces: seq<string>, fields: seq<string>)
    requires |pieces| >= 1 && |fields| == |pieces|
    requires forall k :: 0 <= k < |pieces| ==> ',' !in pieces[k]
    requires forall k :: 0 <= k < |pieces| ==> Trim(pieces[k], IsJsWhitespace) == fields[k]
    ensures SplitAndClean(Join(pieces, ",")) == fields
  {
    SplitAndCleanPieces(pieces);
  }

  /** Joining a field and two space-led fields with "," writes "a, b, c". */
  lemma JoinSpaced(a: string, b: string, c: string)
    ensures Join([a, " " + b, " " + c], ",") == a + ", " + b + ", " + c
  {
    var pieces := [a, " " + b, " " + c];
    assert pieces[1..][1..] == [" " + c];
    assert Join(pieces[1..], ",") == " " + b + "," + " " + c;
  }

  /** One leading space before a clean field is all that trimming removes. */
  lemma TrimSpaceClean(p: string)
    requires CleanPart(p)
    ensures Trim(" " + p, IsJsWhitespace) == p
  {
    assert (" " + p)[1..] == p;
    assert TrimStart(" " + p, IsJsWhitespace) == TrimStart(p, IsJsWhitespace);
    TrimTrimmed(p, IsJsWhitespace);
  }

  /** The `i`-th element of an array destructuring: `undefined` past the end. */
  function Field(parts: seq<string>, i: nat): (r: Option<string>)
    ensures r.Some? <==> i < |parts|
    ensures r.Some? ==> r.value == parts[i]
  {
    if i < |parts| then Some(parts[i]) else None
  }
}
