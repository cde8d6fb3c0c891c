/** Reading the semiotic-class corpus one token line at a time. A token
    line is `CLASS<TAB>original<TAB>normalised`; the normalised column is
    `<self>` when the token is read as written and `sil` for a pause. The
    sentence filter decides, per sentence, whether to drop it; its random
    draws come from an oracle `reject(k, p)`, the answer of the k-th call
    of `random_reject(p)`. */
module SproatUtils {
  import opened Wrappers
  import opened Text
  import opened Utils
  import opened Sentences

  /** `line.strip().split('\t')` */
  function Fields(line: string): seq<string> {
    SplitOn(Strip(line), '\t')
  }

  /** The fields unpack into the three names the getters bind; any other
      count is a ValueError. */
  predicate WellFormed(line: string) {
    |Fields(line)| == 3
  }

  /** `get_semiotic_class`: the first field. */
  function GetSemioticClass(line: string): (r: Option<string>)
    ensures r.Some? <==> WellFormed(line)
    ensures r.Some? ==> '\t' !in r.value && r.value == Fields(line)[0]
  {
    if WellFormed(line) then Some(Fields(line)[0]) else None
  }

  /** `get_original_token`: the second field. */
  function GetOriginalToken(line: string): (r: Option<string>)
    ensures r.Some? <==> WellFormed(line)
    ensures r.Some? ==> '\t' !in r.value && r.value == Fields(line)[1]
  {
    if WellFormed(line) then Some(Fields(line)[1]) else None
  }

  /** `get_normalised_token`: `<self>` stands for the original token, and
      after that substitution exactly `sil` becomes `<sil>`. */
  function GetNormalisedToken(line: string): (r: Option<string>)
    ensures r.Some? <==> WellFormed(line)
    ensures r.Some? && Fields(line)[2] == "<self>" ==> r.value == CleanSil(Fields(line)[1])
    ensures r.Some? && Fields(line)[2] == "sil" ==> r.value == "<sil>"
    ensures r.Some? && Fields(line)[2] != "<self>" && Fields(line)[2] != "sil" ==>
      r.value == Fields(line)[2]
  {
    if WellFormed(line) then
      var f := Fields(line);
      Some(CleanSil(if TokenNotNormalised(f[2]) then f[1] else f[2]))
    else None
  }

  /** A token line as the corpus writes it, with whatever line ending,
      gives back its three columns. */
  lemma TokenLineRoundTrip(cls: string, orig: string, norm: string, ending: string)
    requires '\t' !in cls && '\t' !in orig && '\t' !in norm
    requires cls != [] && !IsSpace(cls[0])
    requires norm != [] && !IsSpace(norm[|norm| - 1])
    requires AllSpace(ending)
    ensures var line := cls + "\t" + orig + "\t" + norm + ending;
      GetSemioticClass(line) == Some(cls) &&
      GetOriginalToken(line) == Some(orig) &&
      GetNormalisedToken(line) == Some(CleanSil(if norm == "<self>" then orig else norm))
  {
    var body := cls + "\t" + orig + "\t" + norm;
    assert body[0] == cls[0] && body[|body| - 1] == norm[|norm| - 1];
    StripPadded([], body, ending);
    assert [] + body + ending == cls + "\t" + orig + "\t" + norm + ending;
    SplitThree(cls, orig, norm, '\t');
  }

  /** `strip()` also eats an empty last column: its tab is whitespace, so
      such a line no longer has three fields. */
  lemma EmptyNormalisedColumnIsLost(cls: string, orig: string)
    requires '\t' !in cls && '\t' !in orig
    requires cls != [] && !IsSpace(cls[0])
    requires orig != [] && !IsSpace(orig[|orig| - 1])
    ensures !WellFormed(cls + "\t" + orig + "\t\n")
  {
    var body := cls + "\t" + orig;
    assert body[0] == cls[0] && body[|body| - 1] == orig[|orig| - 1];
    assert AllSpace("\t\n");
    StripPadded([], body, "\t\n");
    assert [] + body + "\t\n" == cls + "\t" + orig + "\t\n";
    SplitOnGlued(cls, '\t', orig);
  }

  /** What `update_sentence` makes of a sentence: the class joins the set
      and each token is appended with one trailing space; nothing when the
      line does not unpack. */
  function Updated(s: Record, line: string): (r: Option<Record>)
    ensures r.Some? <==> WellFormed(line)
    ensures r.Some? ==> r.value.phonemised == s.phonemised
  {
    if WellFormed(line) then
      Some(s.(semioticClasses := s.semioticClasses + {GetSemioticClass(line).value},
              original := s.original + GetOriginalToken(line).value + " ",
              normalised := s.normalised + GetNormalisedToken(line).value + " "))
    else None
  }

  /** Text that is empty or ends in whitespace: a sentence under
      construction. */
  predicate Open(text: string) {
    text == [] || IsSpace(text[|text| - 1])
  }

  /** The trailing space keeps tokens apart: appending a token and a space
      to open text adds the token's words after the text's words. */
  lemma AppendToken(text: string, token: string)
    requires Open(text)
    ensures Split(text + token + " ") == Split(text) + Split(token)
    ensures Open(text + token + " ")
  {
    SplitAppend(text, token + " ");
    SplitPadEnd(token, " ");
    assert text + (token + " ") == text + token + " ";
  }

  /** The words of an updated sentence are its earlier words followed by
      the token's words, and the class set only grows. */
  lemma UpdatedWords(s: Record, line: string)
    requires WellFormed(line) && Open(s.original) && Open(s.normalised)
    ensures var u := Updated(s, line).value;
      Split(u.original) == Split(s.original) + Split(GetOriginalToken(line).value) &&
      Split(u.normalised) == Split(s.normalised) + Split(GetNormalisedToken(line).value) &&
      Open(u.original) && Open(u.normalised) &&
      s.semioticClasses <= u.semioticClasses &&
      GetSemioticClass(line).value in u.semioticClasses
  {
    AppendToken(s.original, GetOriginalToken(line).value);
    AppendToken(s.normalised, GetNormalisedToken(line).value);
  }

  /** `update_sentence`: mutates the sentence in place. All three getters
      run before the first change, so a line that does not unpack leaves
      the sentence as it was. */
  method UpdateSentence(line: string, s: Sentence) returns (ok: bool)
    modifies s
    ensures ok <==> WellFormed(line)
    ensures ok ==> s.View() == Updated(old(s.View()), line).value
    ensures !ok ==> s.View() == old(s.View())
  {
    var cls := GetSemioticClass(line);
    var orig := GetOriginalToken(line);
    var norm := GetNormalisedToken(line);
    if cls.None? || orig.None? || norm.None? {
      return false;
    }
    s.semioticClasses := s.semioticClasses + {cls.value};
    s.original := s.original + orig.value + " ";
    s.normalised := s.normalised + norm.value + " ";
    return true;
  }

  /** The answer of `skip_sentence` and how many times it called
      `random_reject`. */
  datatype Verdict = Verdict(skip: bool, draws: nat)

  /** `skip_sentence`. `allSil` and `isShort` stand for
      `exclusively_contains_sil` and `is_short`; `reject(k, p)` answers the
      k-th call of `random_reject(p)`, and `drawn` calls were made before
      this one. `and` short-circuits, so a draw happens only when the test
      on its left holds. */
  function SkipSentence(s: Record, allSil: Record -> bool, isShort: Record -> bool,
                        reject: (nat, real) -> bool, drawn: nat): (v: Verdict)
    ensures allSil(s) ==> v == Verdict(true, 0)
    ensures v.draws <= 2
    ensures v.skip ==> allSil(s) || isShort(s) || !NormalisationInSemioticClasses(s.semioticClasses)
  {
    if allSil(s) then Verdict(true, 0)
    else if isShort(s) && reject(drawn, 0.9) then Verdict(true, 1)
    else
      var used := if isShort(s) then 1 else 0;
      if !NormalisationInSemioticClasses(s.semioticClasses) then
        Verdict(reject(drawn + used, 0.5), used + 1)
      else Verdict(false, used)
  }

  /** The short rule draws first, with probability 0.9; a rejection there
      ends the test without a second draw. */
  lemma ShortRuleFirst(s: Record, allSil: Record -> bool, isShort: Record -> bool,
                       reject: (nat, real) -> bool, drawn: nat)
    requires !allSil(s) && isShort(s)
    ensures var v := SkipSentence(s, allSil, isShort, reject, drawn);
      (reject(drawn, 0.9) ==> v == Verdict(true, 1)) &&
      (!reject(drawn, 0.9) ==>
        v == if NormalisationInSemioticClasses(s.semioticClasses) then Verdict(false, 1)
             else Verdict(reject(drawn + 1, 0.5), 2))
  {
  }

  /** A sentence that is neither all silence nor short is dropped only by
      the class rule, with the first draw at probability 0.5. */
  lemma ClassRuleAlone(s: Record, allSil: Record -> bool, isShort: Record -> bool,
                       reject: (nat, real) -> bool, drawn: nat)
    requires !allSil(s) && !isShort(s)
    ensures var v := SkipSentence(s, allSil, isShort, reject, drawn);
      v == if NormalisationInSemioticClasses(s.semioticClasses) then Verdict(false, 0)
           else Verdict(reject(drawn, 0.5), 1)
  {
  }

  /** With a generator that never rejects, only all-silence sentences are
      dropped. */
  lemma NeverRejecting(s: Record, allSil: Record -> bool, isShort: Record -> bool,
                       reject: (nat, real) -> bool, drawn: nat)
    requires forall k: nat, p: real :: !reject(k, p)
    ensures SkipSentence(s, allSil, isShort, reject, drawn).skip <==> allSil(s)
  {
  }

  /** With a generator that always rejects, every sentence that fails a
      rule is dropped. */
  lemma AlwaysRejecting(s: Record, allSil: Record -> bool, isShort: Record -> bool,
                        reject: (nat, real) -> bool, drawn: nat)
    requires forall k: nat, p: real :: reject(k, p)
    ensures SkipSentence(s, allSil, isShort, reject, drawn).skip <==>
      allSil(s) || isShort(s) || !NormalisationInSemioticClasses(s.semioticClasses)
  {
  }
}
