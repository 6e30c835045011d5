/** The language flag of the command line: "pt" in any ASCII letter case
    selects Portuguese; anything else is refused with a message that quotes
    the lower-cased input.
 */
module LanguageFlag {
  import opened Wrappers
  import opened Strings

  datatype Language = Portuguese

  function UnknownLanguage(lowered: string): string {
    "Unknown language: '" + lowered + "'"
  }

  /** `Language::from_str`: never a panic, only `Ok` or `Err`. */
  function FromStr(s: string): (r: Result<Language, string>)
    ensures r.Ok? <==> AsciiLower(s) == "pt"
    ensures r.Ok? ==> r.value == Portuguese
    ensures r.Err? ==> r.error == UnknownLanguage(AsciiLower(s))
  {
    match AsciiLower(s)
    case "pt" => Ok(Portuguese)
    case lowered => Err(UnknownLanguage(lowered))
  }

  /** The characters ASCII lower-casing sends to a given lower-case letter
      are that letter and its capital. */
  lemma LowerChar(c: char, lower: char)
    requires 'a' <= lower <= 'z'
    ensures AsciiLowerChar(c) == lower <==> c == lower || c as int == lower as int - 32
  {
  }

  /** Exactly the four spellings of "pt" are accepted. */
  lemma AcceptedSpellings(s: string)
    ensures FromStr(s).Ok? <==> s in ["pt", "pT", "Pt", "PT"]
  {
    if FromStr(s).Ok? {
      assert |s| == 2;
      assert AsciiLower(s)[0] == 'p' && AsciiLower(s)[1] == 't';
      LowerChar(s[0], 'p');
      LowerChar(s[1], 't');
      assert s == [s[0], s[1]];
    }
  }

  /** A refused flag is quoted lower-cased: the message is the same for every
      case variant of the input. */
  lemma ErrorIgnoresCase(s: string, t: string)
    requires AsciiLower(s) == AsciiLower(t)
    ensures FromStr(s) == FromStr(t)
  {
  }
}
