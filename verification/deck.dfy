/** The deck entry every processor produces and its serialisation as one line
    of the importable deck file: five double-quoted fields joined by ";", with
    line breaks turned into `<br>` and quotes doubled.

    A reader for that line format is given alongside, and the serialiser is
    proved to be its inverse up to the `<br>` substitution.
 */
module Deck {
  import opened Wrappers
  import opened Strings

  /** One deck entry. The target word is optional because the processors
      fill it by array destructuring, which yields `undefined` when the input
      line has too few fields. */
  datatype AnkiEntry = AnkiEntry(source: string, target: Option<string>, extra: Option<string>,
                                 ttsA: Option<string>, ttsB: Option<string>)

  /** What `.replace` on an `undefined` field raises. */
  const UndefinedField: string := "TypeError: Cannot read properties of undefined (reading 'replace')"

  /** A sound reference for an optional sample id; nothing when the id is
      missing or empty. */
  function Sound(id: Option<string>): (r: string)
    ensures id.Some? && id.value != "" ==> StartsWith(r, "[sound:") && EndsWith(r, ".mp3]")
    ensures id.Some? && id.value != "" ==> |r| == |id.value| + 12 && r[7..|r| - 5] == id.value
    ensures r == "" <==> id.None? || id.value == ""
  {
    if id.Some? && id.value != "" then "[sound:" + id.value + ".mp3]" else ""
  }

  /** The five columns, in order: source, target, extra, side-A sound,
      side-B sound. */
  function Columns(e: AnkiEntry): (r: seq<string>)
    requires e.target.Some?
    ensures |r| == 5
  {
    [e.source, e.target.value, e.extra.GetOr(""), Sound(e.ttsA), Sound(e.ttsB)]
  }

  /** Line breaks become `<br>`. */
  function Br(f: string): (r: string)
    ensures '\n' !in r
  {
    ReplaceAll(f, '\n', "<br>")
  }

  /** Quotes are doubled. */
  function Double(f: string): string {
    ReplaceAll(f, '"', "\"\"")
  }

  function Quote(f: string): string {
    "\"" + Double(Br(f)) + "\""
  }

  function QuoteAll(fs: seq<string>): (r: seq<string>)
    ensures |r| == |fs|
  {
    if |fs| == 0 then [] else [Quote(fs[0])] + QuoteAll(fs[1..])
  }

  function BrAll(fs: seq<string>): (r: seq<string>)
    ensures |r| == |fs|
  {
    if |fs| == 0 then [] else [Br(fs[0])] + BrAll(fs[1..])
  }

  /** `serializeIntoCsv`. */
  function Serialize(e: AnkiEntry): (r: Result<string, string>)
    ensures r.Err? <==> e.target.None?
    ensures r.Err? ==> r.error == UndefinedField
    ensures r.Ok? ==> '\n' !in r.value
    ensures r.Ok? ==> ParseLine(r.value) == Some(BrAll(Columns(e)))
  {
    if e.target.None? then Err(UndefinedField)
    else
      var line := Join(QuoteAll(Columns(e)), ";");
      ParseQuoted(Columns(e));
      NoBreakInQuoted(Columns(e));
      Ok(line)
  }

  // ---------------------------------------------------------------------------
  // Reading the format back

  /** The body of a quoted field up to its closing quote, with doubled quotes
      read as one; returns the body and what follows the closing quote. */
  function ReadQuoted(s: string): (r: Option<(string, string)>)
    ensures r.Some? ==> |r.value.1| < |s|
  {
    if |s| == 0 then None
    else if s[0] == '"' then
      if |s| > 1 && s[1] == '"' then
        match ReadQuoted(s[2..])
        case None => None
        case Some(p) => Some(("\"" + p.0, p.1))
      else Some(("", s[1..]))
    else
      match ReadQuoted(s[1..])
      case None => None
      case Some(p) => Some(([s[0]] + p.0, p.1))
  }

  /** A line of quoted fields separated by ";". */
  function ParseLine(s: string): Option<seq<string>>
    decreases |s|
  {
    if |s| == 0 || s[0] != '"' then None
    else
      match ReadQuoted(s[1..])
      case None => None
      case Some(p) =>
        if |p.1| == 0 then Some([p.0])
        else if p.1[0] != ';' then None
        else
          match ParseLine(p.1[1..])
          case None => None
          case Some(fs) => Some([p.0] + fs)
  }

  lemma {:induction false} ReadDoubled(f: string, rest: string)
    requires |rest| == 0 || rest[0] != '"'
    ensures ReadQuoted(Double(f) + "\"" + rest) == Some((f, rest))
  {
    var s := Double(f) + "\"" + rest;
    if |f| == 0 {
      assert s == "\"" + rest;
      assert s[1..] == rest;
    } else {
      var t := Double(f[1..]) + "\"" + rest;
      ReadDoubled(f[1..], rest);
      if f[0] == '"' {
        assert Double(f) == "\"\"" + Double(f[1..]);
        assert s == "\"\"" + t;
        assert s[2..] == t;
        assert "\"" + f[1..] == f;
      } else {
        assert Double(f) == [f[0]] + Double(f[1..]);
        assert s == [f[0]] + t;
        assert s[1..] == t;
        assert [f[0]] + f[1..] == f;
      }
    }
  }

  /** Reading a joined line of quoted fields gives back each field with its
      line breaks as `<br>`. */
  lemma {:induction false} ParseQuoted(fs: seq<string>)
    requires |fs| >= 1
    ensures ParseLine(Join(QuoteAll(fs), ";")) == Some(BrAll(fs))
  {
    var q := QuoteAll(fs);
    if |fs| == 1 {
      assert Join(q, ";") == Quote(fs[0]);
      ParseSingle(Br(fs[0]));
      assert BrAll(fs) == [Br(fs[0])];
    } else {
      var tail := Join(QuoteAll(fs[1..]), ";");
      assert q[1..] == QuoteAll(fs[1..]);
      assert Join(q, ";") == Quote(fs[0]) + ";" + tail;
      ParseCons(Br(fs[0]), tail);
      ParseQuoted(fs[1..]);
      assert BrAll(fs) == [Br(fs[0])] + BrAll(fs[1..]);
    }
  }

  /** A line of one quoted field. */
  lemma ParseSingle(f: string)
    ensures ParseLine("\"" + Double(f) + "\"") == Some([f])
  {
    var s := "\"" + Double(f) + "\"";
    assert s[1..] == Double(f) + "\"" + "";
    ReadDoubled(f, "");
  }

  /** A quoted field followed by ";" and the rest of the line. */
  lemma ParseCons(f: string, tail: string)
    ensures ParseLine("\"" + Double(f) + "\"" + ";" + tail)
            == match ParseLine(tail)
               case None => None
               case Some(fs) => Some([f] + fs)
  {
    var s := "\"" + Double(f) + "\"" + ";" + tail;
    assert s[1..] == Double(f) + "\"" + (";" + tail);
    ReadDoubled(f, ";" + tail);
    assert (";" + tail)[1..] == tail;
  }

  lemma {:induction false} NoBreakInQuoted(fs: seq<string>)
    ensures '\n' !in Join(QuoteAll(fs), ";")
  {
    if |fs| > 1 {
      NoBreakInQuoted(fs[1..]);
      assert QuoteAll(fs)[1..] == QuoteAll(fs[1..]);
    }
  }
}
