/** The Rust side's vocabulary and conjugation shapes.

    `Conjugated` is `ConjugatedVerb<V>` of src/lang/mod.rs: a closed sum type
    whose tag records whether a form follows the regular pattern. The other two
    records are declared outside src/csv, src/anki and src/tts; their fields
    are the ones those files read and write.
 */
module Lang {
  import opened Wrappers

  datatype Conjugated<V> = Regular(form: V) | Irregular(form: V)

  /** One row of the vocabulary file: Portuguese word, English gloss, and an
      optional comment. */
  datatype VocabularyVerb = VocabularyVerb(pt: string, en: string, comments: Option<string>)

  /** A verb with its conjugations. The source keeps them in a `HashMap` from a
      grammatical person to a conjugated form; both are represented here by the
      text their `to_string` produces. */
  datatype VerbConjugations = VerbConjugations(vocabulary: VocabularyVerb, conjugations: map<string, string>)
}
