/** A sentence of the corpus as the parsers hold it: a dictionary with the
    original text, the normalised text, the semiotic classes of its tokens
    and, once phonemised, its phone string. */
module Sentences {
  import opened Wrappers

  /** The contents of a sentence dictionary, as a value. A dictionary
      without a `semiotic_classes` key has an empty set here, and one
      without a `phonemised` key has `None`. */
  datatype Record = Record(
    original: string,
    normalised: string,
    semioticClasses: set<string>,
    phonemised: Option<string>)

  /** `{'original': '', 'normalised': '', 'semiotic_classes': set()}` */
  const EmptyRecord := Record("", "", {}, None)

  /** A sentence dictionary, updated in place by the token reader and the
      phonemiser. */
  class Sentence {
    var original: string
    var normalised: string
    var semioticClasses: set<string>
    var phonemised: Option<string>

    /** A fresh sentence with empty texts and no classes. */
    constructor ()
      ensures View() == EmptyRecord
    {
      original := "";
      normalised := "";
      semioticClasses := {};
      phonemised := None;
    }

    /** A fresh dictionary holding what a helper returned. */
    constructor FromRecord(r: Record)
      ensures View() == r
    {
      original := r.original;
      normalised := r.normalised;
      semioticClasses := r.semioticClasses;
      phonemised := r.phonemised;
    }

    function View(): Record
      reads this
    {
      Record(original, normalised, semioticClasses, phonemised)
    }

    /** Overwrites every key with the given contents. */
    method Set(r: Record)
      modifies this
      ensures View() == r
    {
      original, normalised, semioticClasses, phonemised := r.original, r.normalised, r.semioticClasses, r.phonemised;
    }
  }
}
