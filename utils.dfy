/** The small token and sentence tests shared by the corpus readers and
    the sentence filter. */
module Utils {
  import opened Wrappers
  import opened Text
  import Lexicon

  /** `contains_eos`: the end-of-sentence marker occurs in the line. */
  predicate ContainsEos(line: string) {
    Contains(line, "<eos>")
  }

  /** The marker is found wherever it sits in the line. */
  lemma EosFoundAnywhere(before: string, after: string)
    ensures ContainsEos(before + "<eos>" + after)
  {
    var line := before + "<eos>" + after;
    assert OccursAt(line, "<eos>", |before|) by {
      assert line[|before|..|before| + 5] == "<eos>";
    }
  }

  /** `token_not_normalised` (`no_normalisation` in the CSV builder): the
      normalised column says the token is read as written. */
  predicate TokenNotNormalised(token: string) {
    token == "<self>"
  }

  /** `is_sil` */
  predicate IsSil(token: string) {
    token == "<sil>"
  }

  /** `clean_sil`: the corpus writes a pause as `sil`; the pipeline's
      marker is `<sil>`. Every other token passes through. */
  function CleanSil(token: string): (r: string)
    ensures r != token <==> token == "sil"
    ensures token == "sil" ==> IsSil(r)
  {
    if token == "sil" then "<sil>" else token
  }

  /** Cleaning twice is cleaning once. */
  lemma CleanSilIdempotent(token: string)
    ensures CleanSil(CleanSil(token)) == CleanSil(token)
  {
  }

  /** `normalisation_in_semiotic_classes`: a sentence is interesting
      unless its classes are exactly {PLAIN, PUNCT}, {PLAIN} or {PUNCT}. */
  function NormalisationInSemioticClasses(classes: set<string>): (r: bool)
    ensures !r <==> classes != {} && classes <= {"PLAIN", "PUNCT"}
  {
    if classes == {"PLAIN", "PUNCT"} then false
    else if classes == {"PLAIN"} then false
    else if classes == {"PUNCT"} then false
    else true
  }

  /** `remove_sil`: `replace('<sil>', '')`, scanning left to right. */
  function RemoveSil(s: string): (r: string)
    ensures |r| <= |s|
    decreases |s|
  {
    if |s| < 5 then s
    else if s[..5] == "<sil>" then RemoveSil(s[5..])
    else [s[0]] + RemoveSil(s[1..])
  }

  /** A string is left as it is exactly when it holds no `<sil>`. */
  lemma {:induction false} RemoveSilUnchangedIff(s: string)
    ensures RemoveSil(s) == s <==> !Contains(s, "<sil>")
    decreases |s|
  {
    if |s| < 5 {
    } else if s[..5] == "<sil>" {
      assert OccursAt(s, "<sil>", 0);
    } else {
      RemoveSilUnchangedIff(s[1..]);
      ContainsSilTail(s);
      assert s == [s[0]] + s[1..];
    }
  }

  /** A string not starting with `<sil>` holds one exactly when its tail
      does. */
  lemma ContainsSilTail(s: string)
    requires |s| >= 5 && s[..5] != "<sil>"
    ensures Contains(s, "<sil>") <==> Contains(s[1..], "<sil>")
  {
    var tail := s[1..];
    if Contains(s, "<sil>") {
      var i :| 0 <= i <= |s| - 5 && OccursAt(s, "<sil>", i);
      assert i != 0;
      assert tail[i - 1..i + 4] == s[i..i + 5];
      assert OccursAt(tail, "<sil>", i - 1);
    }
    if Contains(tail, "<sil>") {
      var i :| 0 <= i <= |tail| - 5 && OccursAt(tail, "<sil>", i);
      assert s[i + 1..i + 6] == tail[i..i + 5];
      assert OccursAt(s, "<sil>", i + 1);
    }
  }

  /** Every marker goes, wherever it sits: no match can straddle the
      marker's start, since '<' occurs in it only first. */
  lemma {:induction false} RemoveSilAround(a: string, b: string)
    ensures RemoveSil(a + "<sil>" + b) == RemoveSil(a) + RemoveSil(b)
    decreases |a|
  {
    if a == [] {
      var s := a + "<sil>" + b;
      assert s[..5] == "<sil>" && s[5..] == b;
    } else if |a| >= 5 && a[..5] == "<sil>" {
      MarkerHeadStep(a, b);
      RemoveSilAround(a[5..], b);
    } else {
      PlainHeadStep(a, b);
      RemoveSilAround(a[1..], b);
      ConcatAssoc([a[0]], RemoveSil(a[1..]), RemoveSil(b));
    }
  }

  /** A leading marker goes from `a` and from `a + "<sil>" + b` alike. */
  lemma MarkerHeadStep(a: string, b: string)
    requires |a| >= 5 && a[..5] == "<sil>"
    ensures RemoveSil(a + "<sil>" + b) == RemoveSil(a[5..] + "<sil>" + b)
    ensures RemoveSil(a) == RemoveSil(a[5..])
  {
    var s := a + "<sil>" + b;
    assert s[..5] == a[..5];
    assert s[5..] == a[5..] + "<sil>" + b;
  }

  /** A leading character that starts no marker stays, in `a` and in
      `a + "<sil>" + b` alike. */
  lemma PlainHeadStep(a: string, b: string)
    requires a != [] && !(|a| >= 5 && a[..5] == "<sil>")
    ensures RemoveSil(a + "<sil>" + b) == [a[0]] + RemoveSil(a[1..] + "<sil>" + b)
    ensures RemoveSil(a) == [a[0]] + RemoveSil(a[1..])
  {
    var s := a + "<sil>" + b;
    NoMarkerAtStart(a, b);
    RemoveSilCons(s);
    RemoveSilCons(a);
    assert s[1..] == a[1..] + "<sil>" + b;
  }

  /** A string not starting with `<sil>` loses nothing at its head. */
  lemma RemoveSilCons(s: string)
    requires s != [] && !(|s| >= 5 && s[..5] == "<sil>")
    ensures RemoveSil(s) == [s[0]] + RemoveSil(s[1..])
  {
    if |s| < 5 {
      assert s == [s[0]] + s[1..];
    }
  }

  /** Text in front of a marker that does not itself start with one
      keeps the joined string from starting with one. */
  lemma NoMarkerAtStart(a: string, b: string)
    requires a != [] && !(|a| >= 5 && a[..5] == "<sil>")
    ensures var s := a + "<sil>" + b; s[0] == a[0] && !(s[..5] == "<sil>")
  {
    var s := a + "<sil>" + b;
    if |a| < 5 {
      assert s[|a|] == '<' && s[..5][|a|] == s[|a|];
      assert "<sil>"[|a|] != '<';
    } else {
      assert a[..5] == s[..5];
    }
  }

  lemma UpperSil()
    ensures Upper("<sil>") == "<SIL>"
  {
    assert Upper(">") == ">";
    assert Upper("l>") == "L>";
    assert Upper("il>") == "IL>";
    assert Upper("sil>") == "SIL>";
  }

  /** The looked-up entry of a word is missing or empty: `not
      dictionary.lookup(word)`. */
  predicate IsOov(word: string, lexicon: map<string, string>) {
    var phones := Lexicon.LookupUpper(lexicon, word);
    phones.None? || phones.value == ""
  }

  /** Some whitespace-separated word of the sentence is out of vocabulary. */
  predicate HasOov(sentence: string, lexicon: map<string, string>) {
    exists word | word in Split(sentence) :: IsOov(word, lexicon)
  }

  /** `contains_oov`: scans the words and stops at the first one whose
      lookup is missing or empty. */
  method ContainsOov(sentence: string, lex: Lexicon.CMUDict) returns (r: bool)
    ensures r <==> HasOov(sentence, lex.dictionary)
  {
    var words := Split(sentence);
    for i := 0 to |words|
      invariant forall j | 0 <= j < i :: !IsOov(words[j], lex.dictionary)
    {
      var phones := lex.Lookup(words[i]);
      assert phones == Lexicon.LookupUpper(lex.dictionary, words[i]);
      if phones.None? || phones.value == "" {
        assert IsOov(words[i], lex.dictionary);
        return true;
      }
    }
    return false;
  }

  /** A sentence with no words has nothing out of vocabulary. */
  lemma BlankSentenceHasNoOov(sentence: string, lexicon: map<string, string>)
    requires AllSpace(sentence)
    ensures !HasOov(sentence, lexicon)
  {
    SplitEmptyIff(sentence);
  }

  /** The test looks up `<sil>` like any other word: unless the dictionary
      has an entry "<SIL>", a sentence with a silence token counts as
      holding an unknown word. */
  lemma SilTokenIsOov(sentence: string, lexicon: map<string, string>)
    requires "<sil>" in Split(sentence)
    requires "<SIL>" !in lexicon
    ensures HasOov(sentence, lexicon)
  {
    UpperSil();
    assert IsOov("<sil>", lexicon);
  }
}
