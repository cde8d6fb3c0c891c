/** The two corpus readers and the steps they share: reading a corpus file
    into sentence dictionaries, cleaning them, keeping the sentences worth
    recording, and turning each normalised sentence into a `<w>`-delimited
    phone string. Files are given as the sequence of lines `readlines()`
    returns; `strip_sentence`, `replace_punct_with_sil`,
    `remove_extra_spaces`, `modify_word_for_lex_lookup`,
    `exclusively_contains_sil` and `is_short` are parameters, and
    `random_reject` is the oracle `reject(k, p)` of the sentence filter. */
module Parsers {
  import opened Wrappers
  import opened Text
  import opened Utils
  import opened Sentences
  import opened SproatUtils
  import Lexicon

  /** `modify_word_for_lex_lookup(token, tokens, i)` */
  type Modifier = (string, seq<string>, nat) -> string

  /** What a pause contributes to the phone string. */
  const SilGlue := "<sil> <w> "

  /** The lookup `phonemise_sentence` makes for the word token at `i`. */
  function WordPhones(tokens: seq<string>, i: nat, lex: map<string, string>, wordForm: Modifier): Option<string>
    requires i < |tokens|
  {
    Lexicon.LookupUpper(lex, wordForm(tokens[i], tokens, i))
  }

  /** What one token does to the phone string `acc`, `p` being the lookup
      of its word. A word adds its phones and ` <w> `; a pause adds
      `<sil> <w> ` unless the string already ends with it. A word whose
      lookup is None ends the run: `None + ' <w> '` raises TypeError. */
  function Step(acc: string, token: string, p: Option<string>): Option<string> {
    if !IsSil(token) then
      if p.None? then None else Some(acc + p.value + " <w> ")
    else if !EndsWith(acc, SilGlue) then Some(acc + SilGlue)
    else Some(acc)
  }

  /** The phone string after the first `n` tokens. */
  function Phones(tokens: seq<string>, n: nat, lex: map<string, string>, wordForm: Modifier): Option<string>
    requires n <= |tokens|
  {
    if n == 0 then Some("<w> ")
    else
      match Phones(tokens, n - 1, lex, wordForm)
      case None => None
      case Some(acc) => Step(acc, tokens[n - 1], WordPhones(tokens, n - 1, lex, wordForm))
  }

  lemma MarkedAppend(acc: string, x: string)
    requires StartsWith(acc, "<w> ") && EndsWith(x, "<w> ")
    ensures StartsWith(acc + x, "<w> ") && EndsWith(acc + x, "<w> ")
  {
    var a := acc + x;
    assert a[..4] == acc[..4];
    assert a[|a| - 4..] == x[|x| - 4..];
  }

  /** A step keeps the string starting and ending with `<w> `. */
  lemma StepShape(acc: string, token: string, p: Option<string>)
    requires StartsWith(acc, "<w> ") && EndsWith(acc, "<w> ")
    requires Step(acc, token, p).Some?
    ensures var a := Step(acc, token, p).value;
      StartsWith(a, "<w> ") && EndsWith(a, "<w> ")
  {
    if !IsSil(token) {
      var x := p.value + " <w> ";
      assert x[|x| - 4..] == "<w> ";
      MarkedAppend(acc, x);
      assert acc + x == acc + p.value + " <w> ";
    } else if !EndsWith(acc, SilGlue) {
      assert SilGlue[6..] == "<w> ";
      MarkedAppend(acc, SilGlue);
    }
  }

  /** Every intermediate phone string starts and ends with `<w> `. */
  lemma {:induction false} PhonesShape(tokens: seq<string>, n: nat, lex: map<string, string>, wordForm: Modifier)
    requires n <= |tokens| && Phones(tokens, n, lex, wordForm).Some?
    ensures var a := Phones(tokens, n, lex, wordForm).value;
      StartsWith(a, "<w> ") && EndsWith(a, "<w> ")
  {
    if n > 0 {
      PhonesShape(tokens, n - 1, lex, wordForm);
      StepShape(Phones(tokens, n - 1, lex, wordForm).value, tokens[n - 1], WordPhones(tokens, n - 1, lex, wordForm));
    }
  }

  /** A None lookup is never recovered from. */
  lemma {:induction false} PhonesNoneSticks(tokens: seq<string>, n: nat, m: nat, lex: map<string, string>, wordForm: Modifier)
    requires n <= m <= |tokens| && Phones(tokens, n, lex, wordForm).None?
    ensures Phones(tokens, m, lex, wordForm).None?
    decreases m
  {
    if n < m {
      PhonesNoneSticks(tokens, n, m - 1, lex, wordForm);
    }
  }

  /** The run fails exactly when some word token among the first `n` has
      no entry. */
  lemma {:induction false} PhonesNoneIff(tokens: seq<string>, n: nat, lex: map<string, string>, wordForm: Modifier)
    requires n <= |tokens|
    ensures Phones(tokens, n, lex, wordForm).None? <==>
      exists i | 0 <= i < n :: !IsSil(tokens[i]) && WordPhones(tokens, i, lex, wordForm).None?
  {
    if n > 0 {
      PhonesNoneIff(tokens, n - 1, lex, wordForm);
    }
  }

  /** After a pause the phone string ends with `<sil> <w> `. */
  lemma PhonesAfterSil(tokens: seq<string>, n: nat, lex: map<string, string>, wordForm: Modifier)
    requires 0 < n <= |tokens| && IsSil(tokens[n - 1])
    requires Phones(tokens, n, lex, wordForm).Some?
    ensures EndsWith(Phones(tokens, n, lex, wordForm).value, SilGlue)
  {
    var acc := Phones(tokens, n - 1, lex, wordForm).value;
    if !EndsWith(acc, SilGlue) {
      var a := acc + SilGlue;
      assert a[|a| - |SilGlue|..] == SilGlue;
    }
  }

  /** A pause right after a pause adds nothing. */
  lemma SilAfterSilAddsNothing(tokens: seq<string>, n: nat, lex: map<string, string>, wordForm: Modifier)
    requires 0 < n < |tokens| && IsSil(tokens[n - 1]) && IsSil(tokens[n])
    ensures Phones(tokens, n + 1, lex, wordForm) == Phones(tokens, n, lex, wordForm)
  {
    if Phones(tokens, n, lex, wordForm).Some? {
      PhonesAfterSil(tokens, n, lex, wordForm);
    }
  }

  /** `phonemise_sentence`: the phone string of the whitespace-separated
      tokens, stripped. It starts with `<w>` and has no whitespace at
      either end. */
  function Phonemise(sentence: string, lex: map<string, string>, wordForm: Modifier): (r: Option<string>)
    ensures r.Some? ==> StartsWith(r.value, "<w>")
    ensures r.Some? ==> Trimmed(r.value)
  {
    var tokens := Split(sentence);
    var a := Phones(tokens, |tokens|, lex, wordForm);
    if a.None? then None
    else
      StrippedPhones(tokens, lex, wordForm);
      Some(Strip(a.value))
  }

  /** The full phone string, stripped, starts with `<w>` and has no
      whitespace at either end. */
  lemma StrippedPhones(tokens: seq<string>, lex: map<string, string>, wordForm: Modifier)
    requires Phones(tokens, |tokens|, lex, wordForm).Some?
    ensures var r := Strip(Phones(tokens, |tokens|, lex, wordForm).value);
      StartsWith(r, "<w>") && Trimmed(r)
  {
    PhonesShape(tokens, |tokens|, lex, wordForm);
    StripKeepsMarker(Phones(tokens, |tokens|, lex, wordForm).value);
  }

  /** Stripping a string that starts with `<w> ` keeps the `<w>`. */
  lemma StripKeepsMarker(a: string)
    requires StartsWith(a, "<w> ")
    ensures var r := Strip(a);
      StartsWith(r, "<w>") && Trimmed(r)
  {
    assert a[0] == '<' && a[1] == 'w' && a[2] == '>';
    assert TrimStart(a) == a;
    var r := TrimEnd(a);
    assert |r| > 2;
    assert r[..3] == a[..3];
  }

  /** A sentence without tokens becomes exactly `<w>`. */
  lemma NoTokensGivesMarker(sentence: string, lex: map<string, string>, wordForm: Modifier)
    requires AllSpace(sentence)
    ensures Phonemise(sentence, lex, wordForm) == Some("<w>")
  {
    SplitEmptyIff(sentence);
    StripMarker();
  }

  lemma StripMarker()
    ensures Strip("<w> ") == "<w>"
  {
    assert AllSpace(" ");
    StripPadded([], "<w>", " ");
    assert [] + "<w>" + " " == "<w> ";
  }

  /** A word form that depends on the token alone, not on the sentence
      around it or its position there. */
  ghost predicate ContextFree(wordForm: Modifier) {
    forall w, ts, i :: wordForm(w, ts, i) == wordForm(w, [], 0)
  }

  /** The tokens of `t1` from `n1` to `m1` are those of `t2` from `n2` to
      `m2`, with the same lookups. */
  ghost predicate TokensAgree(t1: seq<string>, n1: nat, m1: nat, t2: seq<string>, n2: nat, m2: nat,
                              lex: map<string, string>, wordForm: Modifier)
    requires n1 <= m1 <= |t1| && n2 <= m2 <= |t2| && m1 - n1 == m2 - n2
    decreases m1
  {
    m1 == n1 ||
    (&& t1[m1 - 1] == t2[m2 - 1]
     && WordPhones(t1, m1 - 1, lex, wordForm) == WordPhones(t2, m2 - 1, lex, wordForm)
     && TokensAgree(t1, n1, m1 - 1, t2, n2, m2 - 1, lex, wordForm))
  }

  /** Two token lists that reach the same phone string at `n1` and `n2`
      and agree from there to `m1` and `m2` reach the same phone string at
      `m1` and `m2`. */
  lemma {:induction false} PhonesShifted(t1: seq<string>, n1: nat, m1: nat, t2: seq<string>, n2: nat, m2: nat,
                                         lex: map<string, string>, wordForm: Modifier)
    requires n1 <= m1 <= |t1| && n2 <= m2 <= |t2| && m1 - n1 == m2 - n2
    requires Phones(t1, n1, lex, wordForm) == Phones(t2, n2, lex, wordForm)
    requires TokensAgree(t1, n1, m1, t2, n2, m2, lex, wordForm)
    ensures Phones(t1, m1, lex, wordForm) == Phones(t2, m2, lex, wordForm)
    decreases m1
  {
    if n1 < m1 {
      PhonesShifted(t1, n1, m1 - 1, t2, n2, m2 - 1, lex, wordForm);
      SameStep(t1, m1, t2, m2, lex, wordForm);
    }
  }

  /** The same token with the same lookup, after the same phone string,
      gives the same phone string. */
  lemma SameStep(t1: seq<string>, m1: nat, t2: seq<string>, m2: nat, lex: map<string, string>, wordForm: Modifier)
    requires 0 < m1 <= |t1| && 0 < m2 <= |t2| && t1[m1 - 1] == t2[m2 - 1]
    requires Phones(t1, m1 - 1, lex, wordForm) == Phones(t2, m2 - 1, lex, wordForm)
    requires WordPhones(t1, m1 - 1, lex, wordForm) == WordPhones(t2, m2 - 1, lex, wordForm)
    ensures Phones(t1, m1, lex, wordForm) == Phones(t2, m2, lex, wordForm)
  {
  }

  /** With a context-free word form, equal tokens have equal lookups
      wherever they sit. */
  lemma SameWordPhones(t1: seq<string>, i1: nat, t2: seq<string>, i2: nat,
                       lex: map<string, string>, wordForm: Modifier)
    requires ContextFree(wordForm) && i1 < |t1| && i2 < |t2| && t1[i1] == t2[i2]
    ensures WordPhones(t1, i1, lex, wordForm) == WordPhones(t2, i2, lex, wordForm)
  {
    assert wordForm(t1[i1], t1, i1) == wordForm(t1[i1], [], 0);
    assert wordForm(t2[i2], t2, i2) == wordForm(t2[i2], [], 0);
  }

  /** Equal stretches of tokens agree under a context-free word form. */
  lemma {:induction false} SlicesAgree(t1: seq<string>, n1: nat, m1: nat, t2: seq<string>, n2: nat, m2: nat,
                                       lex: map<string, string>, wordForm: Modifier)
    requires n1 <= m1 <= |t1| && n2 <= m2 <= |t2| && m1 - n1 == m2 - n2
    requires ContextFree(wordForm) && t1[n1..m1] == t2[n2..m2]
    ensures TokensAgree(t1, n1, m1, t2, n2, m2, lex, wordForm)
    decreases m1
  {
    if n1 < m1 {
      var k := m1 - n1;
      assert t1[n1..m1 - 1] == t1[n1..m1][..k - 1];
      assert t2[n2..m2 - 1] == t2[n2..m2][..k - 1];
      SlicesAgree(t1, n1, m1 - 1, t2, n2, m2 - 1, lex, wordForm);
      assert t1[m1 - 1] == t1[n1..m1][k - 1] == t2[n2..m2][k - 1] == t2[m2 - 1];
      SameWordPhones(t1, m1 - 1, t2, m2 - 1, lex, wordForm);
    }
  }

  /** Dropping the second of two adjacent pauses leaves the phone string
      of the tokens unchanged. */
  lemma {:induction false} DroppedPauseTokens(t1: seq<string>, t2: seq<string>, n: nat,
                                              lex: map<string, string>, wordForm: Modifier)
    requires ContextFree(wordForm)
    requires 0 < n < |t1| && IsSil(t1[n - 1]) && IsSil(t1[n])
    requires n <= |t2| && t1[..n] == t2[..n] && t1[n + 1..] == t2[n..]
    ensures Phones(t1, |t1|, lex, wordForm) == Phones(t2, |t2|, lex, wordForm)
  {
    assert t1[0..n] == t1[..n] && t2[0..n] == t2[..n];
    SlicesAgree(t1, 0, n, t2, 0, n, lex, wordForm);
    PhonesShifted(t1, 0, n, t2, 0, n, lex, wordForm);
    SilAfterSilAddsNothing(t1, n, lex, wordForm);
    assert |t1| - (n + 1) == |t2| - n by {
      assert |t1[n + 1..]| == |t2[n..]|;
    }
    assert t1[n + 1..|t1|] == t1[n + 1..] && t2[n..|t2|] == t2[n..];
    SlicesAgree(t1, n + 1, |t1|, t2, n, |t2|, lex, wordForm);
    PhonesShifted(t1, n + 1, |t1|, t2, n, |t2|, lex, wordForm);
  }

  /** Doubling a pause leaves the phone string of the tokens unchanged. */
  lemma {:induction false} DoubledPauseTokens(a: seq<string>, b: seq<string>, lex: map<string, string>, wordForm: Modifier)
    requires ContextFree(wordForm)
    ensures var t1 := a + ["<sil>", "<sil>"] + b; var t2 := a + ["<sil>"] + b;
      Phones(t1, |t1|, lex, wordForm) == Phones(t2, |t2|, lex, wordForm)
  {
    var t1 := a + ["<sil>", "<sil>"] + b;
    var t2 := a + ["<sil>"] + b;
    var n := |a| + 1;
    assert t1[..n] == a + ["<sil>"] == t2[..n];
    assert t1[n + 1..] == b == t2[n..];
    DroppedPauseTokens(t1, t2, n, lex, wordForm);
  }

  /** A sentence whose pause is doubled is phonemised exactly as the
      sentence with the single pause. */
  lemma {:induction false} DoubledPauseChangesNothing(s1: string, s2: string, a: seq<string>, b: seq<string>,
                                   lex: map<string, string>, wordForm: Modifier)
    requires ContextFree(wordForm)
    requires Split(s1) == a + ["<sil>", "<sil>"] + b && Split(s2) == a + ["<sil>"] + b
    ensures Phonemise(s1, lex, wordForm) == Phonemise(s2, lex, wordForm)
  {
    DoubledPauseTokens(a, b, lex, wordForm);
  }

  /** One more token takes the phone string one step further. */
  lemma PhonesStepped(tokens: seq<string>, i: nat, acc: string, lex: map<string, string>, wordForm: Modifier)
    requires i < |tokens| && Phones(tokens, i, lex, wordForm) == Some(acc)
    ensures Phones(tokens, i + 1, lex, wordForm) == Step(acc, tokens[i], WordPhones(tokens, i, lex, wordForm))
  {
  }

  /** The loop of `phonemise_sentence`: the string grows by one piece per
      token, looking back at its own end before a pause, and the run stops
      at the first word without an entry. */
  method PhoneString(tokens: seq<string>, lex: Lexicon.CMUDict, wordForm: Modifier) returns (r: Option<string>)
    ensures r == Phones(tokens, |tokens|, lex.dictionary, wordForm)
  {
    var phonemised := "<w> ";
    for i := 0 to |tokens|
      invariant Phones(tokens, i, lex.dictionary, wordForm) == Some(phonemised)
    {
      PhonesStepped(tokens, i, phonemised, lex.dictionary, wordForm);
      if !IsSil(tokens[i]) {
        var token := wordForm(tokens[i], tokens, i);
        var entry := lex.Lookup(token);
        if entry.None? {
          PhonesNoneSticks(tokens, i + 1, |tokens|, lex.dictionary, wordForm);
          return None;
        }
        phonemised := phonemised + entry.value + " <w> ";
      } else if !EndsWith(phonemised, SilGlue) {
        phonemised := phonemised + SilGlue;
      }
    }
    return Some(phonemised);
  }

  /** `phonemise_sentence`: the phone string of the sentence's tokens,
      stripped. */
  method PhonemiseSentence(sentence: string, lex: Lexicon.CMUDict, wordForm: Modifier) returns (r: Option<string>)
    ensures r == Phonemise(sentence, lex.dictionary, wordForm)
  {
    var tokens := Split(sentence);
    var phonemised := PhoneString(tokens, lex, wordForm);
    if phonemised.None? {
      return None;
    }
    return Some(Strip(phonemised.value));
  }

  /** The phones of a word, where every word has an entry. */
  function EntryOf(tokens: seq<string>, i: nat, lex: map<string, string>, wordForm: Modifier): string
    requires i < |tokens|
  {
    var p := WordPhones(tokens, i, lex, wordForm);
    if p.Some? then p.value else ""
  }

  /** Every word token has an entry, and no entry ends with `<sil>`. */
  predicate PlainEntries(tokens: seq<string>, lex: map<string, string>, wordForm: Modifier)
  {
    forall i | 0 <= i < |tokens| && !IsSil(tokens[i]) ::
      WordPhones(tokens, i, lex, wordForm).Some? && !EndsWith(WordPhones(tokens, i, lex, wordForm).value, "<sil>")
  }

  /** The piece of token `i`, read off the tokens alone: a word gives its
      phones and ` <w> `, the first pause of a run gives `<sil> <w> `, any
      later pause of the run nothing. */
  function Piece(tokens: seq<string>, i: nat, lex: map<string, string>, wordForm: Modifier): string
    requires i < |tokens|
  {
    if !IsSil(tokens[i]) then EntryOf(tokens, i, lex, wordForm) + " <w> "
    else if i > 0 && IsSil(tokens[i - 1]) then ""
    else SilGlue
  }

  /** `<w> ` followed by the pieces of the first `n` tokens. */
  function Pieces(tokens: seq<string>, n: nat, lex: map<string, string>, wordForm: Modifier): string
    requires n <= |tokens|
  {
    if n == 0 then "<w> " else Pieces(tokens, n - 1, lex, wordForm) + Piece(tokens, n - 1, lex, wordForm)
  }

  /** Text ending in a space followed by phones and ` <w> ` ends with
      `<sil> <w> ` only if the phones end with `<sil>`. */
  lemma GlueEndsWithSil(acc: string, p: string)
    requires acc != [] && acc[|acc| - 1] == ' '
    requires EndsWith(acc + p + " <w> ", SilGlue)
    ensures EndsWith(p, "<sil>")
  {
    var x := acc + p + " <w> ";
    var k := |x| - 10;
    assert x[k..][..5] == "<sil>";
    assert forall m | k <= m < k + 5 :: x[m] == x[k..][..5][m - k] != ' ';
    assert x[|acc| - 1] == ' ';
    assert p[|p| - 5..] == x[k..][..5];
  }

  /** Without entries that end in a pause, the string's look-back and the
      tokens' look-back agree: the phone string ends with `<sil> <w> `
      exactly after a pause token. */
  lemma {:induction false} EndsWithSilIff(tokens: seq<string>, n: nat, lex: map<string, string>, wordForm: Modifier)
    requires n <= |tokens| && PlainEntries(tokens, lex, wordForm)
    requires Phones(tokens, n, lex, wordForm).Some?
    ensures EndsWith(Phones(tokens, n, lex, wordForm).value, SilGlue) <==> n > 0 && IsSil(tokens[n - 1])
  {
    if n == 0 {
    } else if IsSil(tokens[n - 1]) {
      PhonesAfterSil(tokens, n, lex, wordForm);
    } else {
      PhonesShape(tokens, n - 1, lex, wordForm);
      var acc := Phones(tokens, n - 1, lex, wordForm).value;
      assert acc[|acc| - 1] == "<w> "[3];
      var p := WordPhones(tokens, n - 1, lex, wordForm).value;
      if EndsWith(acc + p + " <w> ", SilGlue) {
        GlueEndsWithSil(acc, p);
      }
    }
  }

  /** Each token appends its piece to the phone string so far. */
  lemma PieceStep(tokens: seq<string>, n: nat, lex: map<string, string>, wordForm: Modifier, acc: string)
    requires 0 < n <= |tokens| && PlainEntries(tokens, lex, wordForm)
    requires Phones(tokens, n - 1, lex, wordForm) == Some(acc)
    ensures Phones(tokens, n, lex, wordForm) == Some(acc + Piece(tokens, n - 1, lex, wordForm))
  {
    var i := n - 1;
    if !IsSil(tokens[i]) {
      var e := EntryOf(tokens, i, lex, wordForm);
      assert Step(acc, tokens[i], WordPhones(tokens, i, lex, wordForm)) == Some(acc + e + " <w> ");
      assert acc + (e + " <w> ") == acc + e + " <w> ";
    } else {
      EndsWithSilIff(tokens, i, lex, wordForm);
      if i > 0 && IsSil(tokens[i - 1]) {
        assert acc + "" == acc;
      }
    }
  }

  /** The phone string is the tokens' pieces in order: a run of pauses
      gives one `<sil> <w> ` and each word its phones followed by
      ` <w> `. */
  lemma {:induction false} PhonesArePieces(tokens: seq<string>, n: nat, lex: map<string, string>, wordForm: Modifier)
    requires n <= |tokens| && PlainEntries(tokens, lex, wordForm)
    ensures Phones(tokens, n, lex, wordForm) == Some(Pieces(tokens, n, lex, wordForm))
  {
    if n > 0 {
      PhonesArePieces(tokens, n - 1, lex, wordForm);
      PieceStep(tokens, n, lex, wordForm, Pieces(tokens, n - 1, lex, wordForm));
    }
  }

  /** The loop of `phonemise_sentences`, for any phonemiser: each
      sentence in order gets `phonemise(normalised)` as its phone string,
      until one yields None (the phonemiser raised), which stops the run.
      `done` is the number of sentences phonemised; a sentence that occurs
      again later in the list is simply phonemised again, to the same
      value. */
  method SetPhonemised(sentences: seq<Sentence>, phonemise: string -> Option<string>) returns (done: nat)
    modifies set s | s in sentences
    ensures done <= |sentences|
    ensures done < |sentences| ==> phonemise(sentences[done].normalised).None?
    ensures forall i | 0 <= i < done ::
      phonemise(sentences[i].normalised).Some? && sentences[i].phonemised == phonemise(sentences[i].normalised)
    ensures forall s | s in sentences ::
      s.original == old(s.original) && s.normalised == old(s.normalised) &&
      s.semioticClasses == old(s.semioticClasses)
    ensures forall s | s in sentences && s !in sentences[..done] :: s.phonemised == old(s.phonemised)
  {
    done := 0;
    while done < |sentences|
      invariant done <= |sentences|
      invariant forall i | 0 <= i < done ::
        phonemise(sentences[i].normalised).Some? && sentences[i].phonemised == phonemise(sentences[i].normalised)
      invariant forall s | s in sentences ::
        s.original == old(s.original) && s.normalised == old(s.normalised) &&
        s.semioticClasses == old(s.semioticClasses)
      invariant forall s | s in sentences && s !in sentences[..done] :: s.phonemised == old(s.phonemised)
    {
      var s := sentences[done];
      var phones := phonemise(s.normalised);
      if phones.None? {
        return;
      }
      s.phonemised := phones;
      assert sentences[..done + 1] == sentences[..done] + [s];
      done := done + 1;
    }
  }

  /** `Parser.phonemise_sentences`: every sentence, in order, gets the
      phone string of its normalised text; nothing else changes. The run
      stops at the first sentence holding a word without an entry (the
      TypeError), leaving the sentences before it phonemised and the rest
      as they were. */
  method PhonemiseSentences(sentences: seq<Sentence>, lex: Lexicon.CMUDict, wordForm: Modifier) returns (done: nat)
    modifies set s | s in sentences
    ensures done <= |sentences|
    ensures done < |sentences| ==> Phonemise(sentences[done].normalised, lex.dictionary, wordForm).None?
    ensures forall i | 0 <= i < done ::
      Phonemise(sentences[i].normalised, lex.dictionary, wordForm).Some? &&
      sentences[i].phonemised == Phonemise(sentences[i].normalised, lex.dictionary, wordForm)
    ensures forall s | s in sentences ::
      s.original == old(s.original) && s.normalised == old(s.normalised) &&
      s.semioticClasses == old(s.semioticClasses)
    ensures forall s | s in sentences && s !in sentences[..done] :: s.phonemised == old(s.phonemised)
  {
    var d := lex.dictionary;
    done := SetPhonemised(sentences, text => Phonemise(text, d, wordForm));
  }

  /** Where the Sproat reader stands after some lines: the sentences it
      has appended, the one under construction, and whether a line failed
      to unpack (the ValueError, which ends the run). */
  datatype Reading = Reading(closed: seq<Record>, current: Record, failed: bool)

  /** One line of `SproatParser.parse_file`'s loop, for any token step
      `update`: an `<eos>` line appends the sentence under construction and
      starts an empty one; any other line is a token of it. */
  function ReadStep(r: Reading, line: string, update: (Record, string) -> Option<Record>): Reading {
    if r.failed then r
    else if ContainsEos(line) then Reading(r.closed + [r.current], EmptyRecord, false)
    else match update(r.current, line)
      case None => r.(failed := true)
      case Some(u) => r.(current := u)
  }

  /** The loop over all lines. */
  function ReadWith(lines: seq<string>, update: (Record, string) -> Option<Record>): Reading {
    if lines == [] then Reading([], EmptyRecord, false)
    else ReadStep(ReadWith(lines[..|lines| - 1], update), lines[|lines| - 1], update)
  }

  /** `SproatParser.parse_file`'s loop, whose token step is
      `update_sentence`. */
  function SproatRead(lines: seq<string>): Reading {
    ReadWith(lines, Updated)
  }

  /** The number of lines holding `<eos>`. */
  function EosCount(lines: seq<string>): nat {
    if lines == [] then 0
    else EosCount(lines[..|lines| - 1]) + if ContainsEos(lines[|lines| - 1]) then 1 else 0
  }

  /** One sentence per `<eos>` line, when no line fails. */
  lemma {:induction false} OnePerEos(lines: seq<string>)
    requires !SproatRead(lines).failed
    ensures |SproatRead(lines).closed| == EosCount(lines)
  {
    if lines != [] {
      OnePerEos(lines[..|lines| - 1]);
    }
  }

  /** A token line that does not unpack into three fields. */
  predicate BadTokenLine(line: string) {
    !ContainsEos(line) && !WellFormed(line)
  }

  /** With a step that fails on exactly the lines `bad` picks, the run
      fails exactly when some token line is bad. */
  lemma {:induction false} ReadFailsIff(lines: seq<string>, update: (Record, string) -> Option<Record>,
                                        bad: string -> bool)
    requires forall s, line :: update(s, line).None? <==> bad(line)
    ensures ReadWith(lines, update).failed <==>
      exists i | 0 <= i < |lines| :: !ContainsEos(lines[i]) && bad(lines[i])
  {
    if lines != [] {
      var init := lines[..|lines| - 1];
      ReadFailsIff(init, update, bad);
      assert forall i | 0 <= i < |init| :: lines[i] == init[i];
    }
  }

  /** The run fails exactly when some token line does not unpack. */
  lemma SproatFailsIff(lines: seq<string>)
    ensures SproatRead(lines).failed <==> exists i | 0 <= i < |lines| :: BadTokenLine(lines[i])
  {
    ReadFailsIff(lines, Updated, line => !WellFormed(line));
  }

  /** Once a line has failed, later lines change nothing. */
  lemma {:induction false} ReadFailureSticks(lines: seq<string>, n: nat, update: (Record, string) -> Option<Record>)
    requires n <= |lines| && ReadWith(lines[..n], update).failed
    ensures ReadWith(lines, update) == ReadWith(lines[..n], update)
    decreases |lines|
  {
    if n < |lines| {
      var init := lines[..|lines| - 1];
      assert init[..n] == lines[..n];
      ReadFailureSticks(init, n, update);
    } else {
      assert lines[..n] == lines;
    }
  }

  /** Token lines after the last `<eos>` never reach the sentence list. */
  lemma {:induction false} TrailingTokensDropped(lines: seq<string>, tail: seq<string>)
    requires forall i | 0 <= i < |tail| :: !ContainsEos(tail[i])
    ensures SproatRead(lines + tail).closed == SproatRead(lines).closed
    decreases |tail|
  {
    if tail == [] {
      assert lines + tail == lines;
    } else {
      var init := tail[..|tail| - 1];
      assert (lines + tail)[..|lines + tail| - 1] == lines + init;
      TrailingTokensDropped(lines, init);
    }
  }

  /** The sentence a run of token lines builds from an empty one, for any
      token step. */
  function BlockWith(block: seq<string>, update: (Record, string) -> Option<Record>): Option<Record> {
    if block == [] then Some(EmptyRecord)
    else match BlockWith(block[..|block| - 1], update)
      case None => None
      case Some(s) => update(s, block[|block| - 1])
  }

  /** The sentence `update_sentence` builds from a run of token lines. */
  function Block(block: seq<string>): Option<Record> {
    BlockWith(block, Updated)
  }

  /** After an `<eos>` (or at the start) the token lines build their
      sentence from empty, leaving the appended sentences alone. */
  lemma {:induction false} ReadBlock(prefix: seq<string>, block: seq<string>)
    requires !SproatRead(prefix).failed && SproatRead(prefix).current == EmptyRecord
    requires forall i | 0 <= i < |block| :: !ContainsEos(block[i])
    ensures var r := SproatRead(prefix + block);
      r.closed == SproatRead(prefix).closed &&
      (r.failed <==> Block(block).None?) &&
      (Block(block).Some? ==> r.current == Block(block).value)
    decreases |block|
  {
    if block == [] {
      assert prefix + block == prefix;
    } else {
      var init := block[..|block| - 1];
      assert (prefix + block)[..|prefix + block| - 1] == prefix + init;
      ReadBlock(prefix, init);
    }
  }

  /** Each `<eos>` appends the sentence its own token lines built, starting
      from empty strings and an empty class set. */
  lemma SentencePerEos(prefix: seq<string>, block: seq<string>, eos: string)
    requires !SproatRead(prefix).failed && SproatRead(prefix).current == EmptyRecord
    requires forall i | 0 <= i < |block| :: !ContainsEos(block[i])
    requires ContainsEos(eos) && Block(block).Some?
    ensures SproatRead(prefix + block + [eos]) ==
      Reading(SproatRead(prefix).closed + [Block(block).value], EmptyRecord, false)
  {
    ReadBlock(prefix, block);
    assert (prefix + block + [eos])[..|prefix + block|] == prefix + block;
  }

  /** The words of a run of lines, each line giving `words(line)`. */
  function Gathered(block: seq<string>, words: string -> seq<string>): seq<string> {
    if block == [] then [] else Gathered(block[..|block| - 1], words) + words(block[|block| - 1])
  }

  /** The words of a token line's original token. */
  function OriginalWords(line: string): seq<string> {
    var token := GetOriginalToken(line);
    if token.Some? then Split(token.value) else []
  }

  /** The words of a token line's normalised token. */
  function NormalisedWords(line: string): seq<string> {
    var token := GetNormalisedToken(line);
    if token.Some? then Split(token.value) else []
  }

  /** The classes of a run of lines. */
  function Classes(block: seq<string>): set<string> {
    if block == [] then {}
    else
      var cls := GetSemioticClass(block[|block| - 1]);
      Classes(block[..|block| - 1]) + if cls.Some? then {cls.value} else {}
  }

  /** When each step adds a line's words after a text's words and keeps
      `ok` of the text, the built text's words are the lines' words in
      order. */
  lemma {:induction false} BlockText(block: seq<string>, update: (Record, string) -> Option<Record>,
                                     text: Record -> string, words: string -> seq<string>, ok: string -> bool)
    requires forall s, line | update(s, line).Some? && ok(text(s)) ::
      Split(text(update(s, line).value)) == Split(text(s)) + words(line) && ok(text(update(s, line).value))
    requires ok(text(EmptyRecord)) && Split(text(EmptyRecord)) == []
    requires BlockWith(block, update).Some?
    ensures Split(text(BlockWith(block, update).value)) == Gathered(block, words)
    ensures ok(text(BlockWith(block, update).value))
  {
    if block != [] {
      BlockText(block[..|block| - 1], update, text, words, ok);
    }
  }

  /** A built sentence holds the tokens' words in order, in both texts. */
  lemma BlockWords(block: seq<string>)
    requires Block(block).Some?
    ensures Split(Block(block).value.original) == Gathered(block, OriginalWords)
    ensures Split(Block(block).value.normalised) == Gathered(block, NormalisedWords)
  {
    forall s, line | Updated(s, line).Some? && Open(s.original)
      ensures Split(Updated(s, line).value.original) == Split(s.original) + OriginalWords(line)
      ensures Open(Updated(s, line).value.original)
    {
      AppendToken(s.original, GetOriginalToken(line).value);
    }
    forall s, line | Updated(s, line).Some? && Open(s.normalised)
      ensures Split(Updated(s, line).value.normalised) == Split(s.normalised) + NormalisedWords(line)
      ensures Open(Updated(s, line).value.normalised)
    {
      AppendToken(s.normalised, GetNormalisedToken(line).value);
    }
    SplitEmptyIff("");
    BlockText(block, Updated, (s: Record) => s.original, OriginalWords, Open);
    BlockText(block, Updated, (s: Record) => s.normalised, NormalisedWords, Open);
  }

  /** A built sentence holds the set of its tokens' classes, and no phone
      string. */
  lemma {:induction false} BlockClasses(block: seq<string>)
    requires Block(block).Some?
    ensures Block(block).value.semioticClasses == Classes(block)
    ensures Block(block).value.phonemised == None
  {
    if block != [] {
      var init := block[..|block| - 1];
      BlockClasses(init);
    }
  }

  /** The sentences `SproatParser.subselect_sentences` keeps, in order,
      and the number of `random_reject` calls made, `drawn` having been made
      before: a sentence stays when `skip_sentence` lets it through and no
      word of its normalised text is out of vocabulary. */
  function SproatKept(ss: seq<Sentence>, lex: map<string, string>, allSil: Record -> bool,
                      isShort: Record -> bool, reject: (nat, real) -> bool, drawn: nat): (seq<Sentence>, nat)
    reads ss
  {
    if ss == [] then ([], drawn)
    else SproatKeepStep(SproatKept(ss[..|ss| - 1], lex, allSil, isShort, reject, drawn),
                        ss[|ss| - 1], lex, allSil, isShort, reject)
  }

  /** One sentence of the Sproat filter, after `acc.1` draws. */
  function SproatKeepStep(acc: (seq<Sentence>, nat), s: Sentence, lex: map<string, string>, allSil: Record -> bool,
                          isShort: Record -> bool, reject: (nat, real) -> bool): (seq<Sentence>, nat)
    reads s
  {
    var v := SkipSentence(s.View(), allSil, isShort, reject, acc.1);
    if !v.skip && !HasOov(s.normalised, lex) then (acc.0 + [s], acc.1 + v.draws) else (acc.0, acc.1 + v.draws)
  }

  /** The sentences `LJParser.subselect_sentences` keeps, in order: those
      without an out-of-vocabulary word. */
  function LJKept(ss: seq<Sentence>, lex: map<string, string>): seq<Sentence>
    reads ss
  {
    if ss == [] then []
    else
      var s := ss[|ss| - 1];
      LJKept(ss[..|ss| - 1], lex) + if HasOov(s.normalised, lex) then [] else [s]
  }

  /** `kept` is `ss` at the strictly increasing positions `idx`. */
  ghost predicate PickedAt<T>(kept: seq<T>, ss: seq<T>, idx: seq<nat>) {
    |idx| == |kept| &&
    (forall k | 0 <= k < |idx| :: idx[k] < |ss| && kept[k] == ss[idx[k]]) &&
    (forall k, l | 0 <= k < l < |idx| :: idx[k] < idx[l])
  }

  /** Picking one more element after all the picked positions. */
  lemma PickedAtExtend<T>(kept: seq<T>, ss: seq<T>, idx: seq<nat>, x: T)
    requires PickedAt(kept, ss, idx)
    ensures PickedAt(kept + [x], ss + [x], idx + [|ss|])
    ensures PickedAt(kept, ss + [x], idx)
  {
  }

  /** The Sproat filter keeps an order-preserving subsequence, each member
      of which is not all silence and has no out-of-vocabulary word; a
      sentence is kept exactly when `skip_sentence` lets it pass at its
      draw count and it has no out-of-vocabulary word. */
  lemma {:induction false} SproatKeptSubsequence(ss: seq<Sentence>, lex: map<string, string>, allSil: Record -> bool,
                                                 isShort: Record -> bool, reject: (nat, real) -> bool, drawn: nat)
    returns (idx: seq<nat>)
    ensures var kept := SproatKept(ss, lex, allSil, isShort, reject, drawn).0;
      PickedAt(kept, ss, idx) &&
      forall k | 0 <= k < |kept| :: !allSil(kept[k].View()) && !HasOov(kept[k].normalised, lex)
    ensures forall i | 0 <= i < |ss| :: i in idx <==> SproatPasses(ss, i, lex, allSil, isShort, reject, drawn)
  {
    idx := [];
    if ss != [] {
      var init := ss[..|ss| - 1];
      var s := ss[|ss| - 1];
      idx := SproatKeptSubsequence(init, lex, allSil, isShort, reject, drawn);
      var (kept, n) := SproatKept(init, lex, allSil, isShort, reject, drawn);
      assert init + [s] == ss;
      PickedAtExtend(kept, init, idx, s);
      var v := SkipSentence(s.View(), allSil, isShort, reject, n);
      if !v.skip && !HasOov(s.normalised, lex) {
        idx := idx + [|init|];
      }
      assert ss[..|init|] == init;
      forall i | 0 <= i < |init|
        ensures SproatPasses(ss, i, lex, allSil, isShort, reject, drawn) == SproatPasses(init, i, lex, allSil, isShort, reject, drawn)
      {
        assert ss[..i] == init[..i] && ss[i] == init[i];
      }
    }
  }

  /** Sentence `i` gets through the Sproat filter: `skip_sentence` lets it
      pass at the draw count the sentences before it leave, and it has no
      out-of-vocabulary word. */
  ghost predicate SproatPasses(ss: seq<Sentence>, i: nat, lex: map<string, string>, allSil: Record -> bool,
                               isShort: Record -> bool, reject: (nat, real) -> bool, drawn: nat)
    requires i < |ss|
    reads ss
  {
    && !SkipSentence(ss[i].View(), allSil, isShort, reject, SproatKept(ss[..i], lex, allSil, isShort, reject, drawn).1).skip
    && !HasOov(ss[i].normalised, lex)
  }

  /** One more sentence of the prefix is one more step of the filter. */
  lemma SproatKeptPrefix(ss: seq<Sentence>, i: nat, lex: map<string, string>, allSil: Record -> bool,
                         isShort: Record -> bool, reject: (nat, real) -> bool, drawn: nat)
    requires i < |ss|
    ensures SproatKept(ss[..i + 1], lex, allSil, isShort, reject, drawn) ==
      SproatKeepStep(SproatKept(ss[..i], lex, allSil, isShort, reject, drawn), ss[i], lex, allSil, isShort, reject)
  {
    assert ss[..i + 1][..i] == ss[..i];
  }

  /** Each sentence costs at most two draws. */
  lemma {:induction false} SproatDraws(ss: seq<Sentence>, lex: map<string, string>, allSil: Record -> bool,
                                       isShort: Record -> bool, reject: (nat, real) -> bool, drawn: nat)
    ensures drawn <= SproatKept(ss, lex, allSil, isShort, reject, drawn).1 <= drawn + 2 * |ss|
  {
    if ss != [] {
      SproatDraws(ss[..|ss| - 1], lex, allSil, isShort, reject, drawn);
    }
  }

  /** The LJ filter keeps an order-preserving subsequence, and a sentence
      is kept exactly when it has no out-of-vocabulary word. */
  lemma {:induction false} LJKeptSubsequence(ss: seq<Sentence>, lex: map<string, string>) returns (idx: seq<nat>)
    ensures PickedAt(LJKept(ss, lex), ss, idx)
    ensures forall s | s in ss :: s in LJKept(ss, lex) <==> !HasOov(s.normalised, lex)
  {
    idx := [];
    if ss != [] {
      var init := ss[..|ss| - 1];
      var s := ss[|ss| - 1];
      idx := LJKeptSubsequence(init, lex);
      assert init + [s] == ss;
      PickedAtExtend(LJKept(init, lex), init, idx, s);
      if !HasOov(s.normalised, lex) {
        idx := idx + [|init|];
      }
    }
  }

  /** With a generator that never rejects and no sentence of only pauses,
      the Sproat filter keeps what the LJ filter keeps. */
  lemma {:induction false} NeverRejectingKeepsLJ(ss: seq<Sentence>, lex: map<string, string>, allSil: Record -> bool,
                                                 isShort: Record -> bool, reject: (nat, real) -> bool, drawn: nat)
    requires forall k: nat, p: real :: !reject(k, p)
    requires forall i | 0 <= i < |ss| :: !allSil(ss[i].View())
    ensures SproatKept(ss, lex, allSil, isShort, reject, drawn).0 == LJKept(ss, lex)
  {
    if ss != [] {
      var init := ss[..|ss| - 1];
      NeverRejectingKeepsLJ(init, lex, allSil, isShort, reject, drawn);
      var n := SproatKept(init, lex, allSil, isShort, reject, drawn).1;
      NeverRejecting(ss[|ss| - 1].View(), allSil, isShort, reject, n);
    }
  }

  /** `clean_sentences` as written, on the sentence values: each sentence
      is cleaned into the loop variable, which is then dropped, and the
      list becomes the `final_sentences` nothing was appended to. */
  function CleanedAsWritten(ss: seq<Record>, clean: Record -> Record): seq<Record> {
    []
  }

  /** `clean_sentences` as evidently intended: every sentence, cleaned, in
      order. */
  function Cleaned(ss: seq<Record>, clean: Record -> Record): (r: seq<Record>)
    ensures |r| == |ss|
    ensures forall i | 0 <= i < |ss| :: r[i] == clean(ss[i])
  {
    if ss == [] then [] else Cleaned(ss[..|ss| - 1], clean) + [clean(ss[|ss| - 1])]
  }

  /** The method as written loses every sentence the intended one keeps. */
  lemma CleaningLosesSentences(ss: seq<Record>, clean: Record -> Record)
    requires ss != []
    ensures CleanedAsWritten(ss, clean) != Cleaned(ss, clean)
    ensures |Cleaned(ss, clean)| == |ss| && CleanedAsWritten(ss, clean) == []
  {
  }

  /** With an idempotent cleaner, cleaning twice is cleaning once. */
  lemma CleanedIdempotent(ss: seq<Record>, clean: Record -> Record)
    requires forall r :: clean(clean(r)) == clean(r)
    ensures Cleaned(Cleaned(ss, clean), clean) == Cleaned(ss, clean)
  {
  }

  /** The contents of the sentences, in order. */
  function Views(ss: seq<Sentence>): (r: seq<Record>)
    reads set s | s in ss
    ensures |r| == |ss| && forall i | 0 <= i < |ss| :: r[i] == ss[i].View()
  {
    if ss == [] then [] else Views(ss[..|ss| - 1]) + [ss[|ss| - 1].View()]
  }

  /** The loop `clean_sentences` evidently means: a fresh sentence holding
      `clean` of each sentence is collected, in order. */
  method CleanEach(ss: seq<Sentence>, clean: Record -> Record, ghost before: seq<Record>)
    returns (out: seq<Sentence>)
    requires before == Views(ss)
    ensures Views(out) == Cleaned(before, clean)
    ensures forall s | s in out :: fresh(s)
  {
    out := [];
    for i := 0 to |ss|
      invariant |out| == i
      invariant forall j | 0 <= j < i :: fresh(out[j]) && out[j].View() == clean(before[j])
    {
      var s := new Sentence.FromRecord(clean(ss[i].View()));
      out := out + [s];
    }
  }

  /** The line loop of `SproatParser.parse_file` for any token step:
      starting from `prior`, one fresh sentence per `<eos>` line, holding
      what `ReadWith` says, is appended in file order. The sentence under
      construction is updated in place by each token line; a line the step
      rejects stops the run, keeping what was appended before it. */
  method ReadSentences(lines: seq<string>, update: (Record, string) -> Option<Record>, prior: seq<Sentence>)
    returns (sentences: seq<Sentence>, ok: bool)
    ensures ok == !ReadWith(lines, update).failed
    ensures |sentences| == |prior| + |ReadWith(lines, update).closed|
    ensures sentences[..|prior|] == prior
    ensures forall j | |prior| <= j < |sentences| ::
      fresh(sentences[j]) && sentences[j].View() == ReadWith(lines, update).closed[j - |prior|]
  {
    sentences := prior;
    var current := new Sentence();
    for i := 0 to |lines|
      invariant !ReadWith(lines[..i], update).failed
      invariant fresh(current) && current.View() == ReadWith(lines[..i], update).current
      invariant |sentences| == |prior| + |ReadWith(lines[..i], update).closed|
      invariant sentences[..|prior|] == prior
      invariant forall j | |prior| <= j < |sentences| ::
        fresh(sentences[j]) && sentences[j] != current &&
        sentences[j].View() == ReadWith(lines[..i], update).closed[j - |prior|]
    {
      assert lines[..i + 1][..i] == lines[..i];
      if ContainsEos(lines[i]) {
        sentences := sentences + [current];
        current := new Sentence();
      } else {
        var u := update(current.View(), lines[i]);
        if u.None? {
          ReadFailureSticks(lines, i + 1, update);
          return sentences, false;
        }
        current.Set(u.value);
      }
    }
    assert lines[..|lines|] == lines;
    return sentences, true;
  }

  /** The sentence list of the semiotic-class corpus reader. */
  class SproatParser {
    var sentences: seq<Sentence>

    /** `Parser.__init__`: no sentences. */
    constructor ()
      ensures sentences == []
    {
      sentences := [];
    }

    /** `parse_file` over the file's lines: one fresh sentence per `<eos>`
        line, appended in file order, holding what `SproatRead` says. A
        token line that does not unpack stops the run (the ValueError);
        the sentences appended before it stay. */
    method ParseFile(lines: seq<string>) returns (ok: bool)
      modifies this
      ensures ok == !SproatRead(lines).failed
      ensures |sentences| == |old(sentences)| + |SproatRead(lines).closed|
      ensures sentences[..|old(sentences)|] == old(sentences)
      ensures forall j | |old(sentences)| <= j < |sentences| ::
        fresh(sentences[j]) && sentences[j].View() == SproatRead(lines).closed[j - |old(sentences)|]
    {
      sentences, ok := ReadSentences(lines, Updated, sentences);
    }

    /** `clean_sentences` as written: the list ends up empty (see
        `CleanedAsWritten`). */
    method CleanSentences()
      modifies this
      ensures sentences == []
    {
      sentences := [];
    }

    /** `clean_sentences` as evidently intended (see `Cleaned`): every
        sentence, in order, replaced by `strip_sentence` of it. */
    method CleanSentencesCorrected(strip: Record -> Record)
      modifies this
      ensures Views(sentences) == Cleaned(old(Views(sentences)), strip)
    {
      var ss := sentences;
      sentences := CleanEach(ss, strip, Views(ss));
    }

    /** `subselect_sentences`: the list becomes the sentences `SproatKept`
        keeps; `drawnAfter` counts the `random_reject` calls so far. */
    method SubselectSentences(lex: Lexicon.CMUDict, allSil: Record -> bool, isShort: Record -> bool,
                              reject: (nat, real) -> bool, drawn: nat) returns (drawnAfter: nat)
      modifies this
      ensures (sentences, drawnAfter) == SproatKept(old(sentences), lex.dictionary, allSil, isShort, reject, drawn)
    {
      var ss := sentences;
      var kept: seq<Sentence> := [];
      drawnAfter := drawn;
      for i := 0 to |ss|
        invariant (kept, drawnAfter) == SproatKept(ss[..i], lex.dictionary, allSil, isShort, reject, drawn)
        modifies {}
      {
        SproatKeptPrefix(ss, i, lex.dictionary, allSil, isShort, reject, drawn);
        var s := ss[i];
        var v := SkipSentence(s.View(), allSil, isShort, reject, drawnAfter);
        drawnAfter := drawnAfter + v.draws;
        if !v.skip {
          var oov := ContainsOov(s.normalised, lex);
          if !oov {
            kept := kept + [s];
          }
        }
      }
      assert ss[..|ss|] == ss;
      sentences := kept;
    }
  }

  /** `LJParser.parse_file`'s reading of one `id|original|normalised`
      line: `line.split('|')` unpacked into three names (a ValueError for
      any other count), then `strip_sentence` and `replace_punct_with_sil`
      on the new sentence, which has no classes and no phone string. */
  function LJRecord(line: string, strip: Record -> Record, replacePunct: Record -> Record): (r: Option<Record>)
    ensures r.Some? <==> |SplitOn(line, '|')| == 3
  {
    var f := SplitOn(line, '|');
    if |f| != 3 then None else Some(replacePunct(strip(Record(f[1], f[2], {}, None))))
  }

  /** A line as the LJ metadata file writes it gives back its two texts. */
  lemma LJLineRoundTrip(id: string, original: string, normalised: string,
                        strip: Record -> Record, replacePunct: Record -> Record)
    requires '|' !in id && '|' !in original && '|' !in normalised
    ensures LJRecord(id + "|" + original + "|" + normalised, strip, replacePunct) ==
      Some(replacePunct(strip(Record(original, normalised, {}, None))))
  {
    SplitThree(id, original, normalised, '|');
  }

  /** A line with too few or too many separators is rejected. */
  lemma LJLineWithoutThreeFields(a: string, b: string, strip: Record -> Record, replacePunct: Record -> Record)
    requires '|' !in a && '|' !in b
    ensures LJRecord(a + "|" + b, strip, replacePunct).None?
  {
    SplitOnGlued(a, '|', b);
  }

  /** The line reader `parse_file` applies to each LJ line. */
  function LJParse(strip: Record -> Record, replacePunct: Record -> Record): string -> Option<Record> {
    line => LJRecord(line, strip, replacePunct)
  }

  /** What a one-sentence-per-line reader has produced: the sentences read
      and whether a line was rejected (which ends the run). */
  datatype Parsed = Parsed(records: seq<Record>, failed: bool)

  /** Reading every line in order with `parse`, stopping at the first line
      it rejects. */
  function ParseEach(lines: seq<string>, parse: string -> Option<Record>): Parsed {
    if lines == [] then Parsed([], false)
    else
      var r := ParseEach(lines[..|lines| - 1], parse);
      if r.failed then r
      else match parse(lines[|lines| - 1])
        case None => r.(failed := true)
        case Some(x) => Parsed(r.records + [x], false)
  }

  /** The run succeeds exactly when every line is accepted, and then it
      yields one sentence per line, in order. */
  lemma {:induction false} OnePerLine(lines: seq<string>, parse: string -> Option<Record>)
    ensures !ParseEach(lines, parse).failed <==> forall i | 0 <= i < |lines| :: parse(lines[i]).Some?
    ensures !ParseEach(lines, parse).failed ==>
      |ParseEach(lines, parse).records| == |lines| &&
      forall i | 0 <= i < |lines| :: ParseEach(lines, parse).records[i] == parse(lines[i]).value
  {
    if lines != [] {
      var init := lines[..|lines| - 1];
      OnePerLine(init, parse);
      assert forall i | 0 <= i < |init| :: init[i] == lines[i];
    }
  }

  /** An LJ file is read without error exactly when every line has three
      `|`-separated fields; then sentence `i` comes from line `i`. */
  lemma LJOnePerLine(lines: seq<string>, strip: Record -> Record, replacePunct: Record -> Record)
    ensures !ParseEach(lines, LJParse(strip, replacePunct)).failed <==>
      forall i | 0 <= i < |lines| :: |SplitOn(lines[i], '|')| == 3
    ensures !ParseEach(lines, LJParse(strip, replacePunct)).failed ==>
      |ParseEach(lines, LJParse(strip, replacePunct)).records| == |lines| &&
      forall i | 0 <= i < |lines| ::
        ParseEach(lines, LJParse(strip, replacePunct)).records[i] == LJRecord(lines[i], strip, replacePunct).value
  {
    OnePerLine(lines, LJParse(strip, replacePunct));
  }

  /** Once a line is rejected, later lines change nothing. */
  lemma {:induction false} ParseFailureSticks(lines: seq<string>, n: nat, parse: string -> Option<Record>)
    requires n <= |lines| && ParseEach(lines[..n], parse).failed
    ensures ParseEach(lines, parse) == ParseEach(lines[..n], parse)
    decreases |lines|
  {
    if n < |lines| {
      var init := lines[..|lines| - 1];
      assert init[..n] == lines[..n];
      ParseFailureSticks(init, n, parse);
    } else {
      assert lines[..n] == lines;
    }
  }

  /** The line loop of a one-sentence-per-line reader: starting from
      `prior`, a fresh sentence per accepted line is appended in file
      order; a rejected line stops the run, keeping what came before. */
  method ReadEach(lines: seq<string>, parse: string -> Option<Record>, prior: seq<Sentence>)
    returns (sentences: seq<Sentence>, ok: bool)
    ensures ok == !ParseEach(lines, parse).failed
    ensures |sentences| == |prior| + |ParseEach(lines, parse).records|
    ensures sentences[..|prior|] == prior
    ensures forall j | |prior| <= j < |sentences| ::
      fresh(sentences[j]) && sentences[j].View() == ParseEach(lines, parse).records[j - |prior|]
  {
    sentences := prior;
    for i := 0 to |lines|
      invariant !ParseEach(lines[..i], parse).failed
      invariant |sentences| == |prior| + |ParseEach(lines[..i], parse).records|
      invariant sentences[..|prior|] == prior
      invariant forall j | |prior| <= j < |sentences| ::
        fresh(sentences[j]) && sentences[j].View() == ParseEach(lines[..i], parse).records[j - |prior|]
    {
      assert lines[..i + 1][..i] == lines[..i];
      var record := parse(lines[i]);
      if record.None? {
        ParseFailureSticks(lines, i + 1, parse);
        return sentences, false;
      }
      var sentence := new Sentence.FromRecord(record.value);
      sentences := sentences + [sentence];
    }
    assert lines[..|lines|] == lines;
    return sentences, true;
  }

  /** The sentence list of the LJ Speech reader. */
  class LJParser {
    var sentences: seq<Sentence>

    /** `Parser.__init__`: no sentences. */
    constructor ()
      ensures sentences == []
    {
      sentences := [];
    }

    /** `parse_file` over the file's lines: one fresh sentence per line,
        appended in file order (see `LJOnePerLine`). A line that does not
        split into three fields stops the run (the ValueError); the
        sentences appended before it stay. */
    method ParseFile(lines: seq<string>, strip: Record -> Record, replacePunct: Record -> Record) returns (ok: bool)
      modifies this
      ensures ok == !ParseEach(lines, LJParse(strip, replacePunct)).failed
      ensures |sentences| == |old(sentences)| + |ParseEach(lines, LJParse(strip, replacePunct)).records|
      ensures sentences[..|old(sentences)|] == old(sentences)
      ensures forall j | |old(sentences)| <= j < |sentences| ::
        fresh(sentences[j]) &&
        sentences[j].View() == ParseEach(lines, LJParse(strip, replacePunct)).records[j - |old(sentences)|]
    {
      sentences, ok := ReadEach(lines, LJParse(strip, replacePunct), sentences);
    }

    /** `clean_sentences` as written: the list ends up empty (see
        `CleanedAsWritten`). */
    method CleanSentences()
      modifies this
      ensures sentences == []
    {
      sentences := [];
    }

    /** `clean_sentences` as evidently intended (see `Cleaned`): every
        sentence, in order, replaced by `clean` of it, where `clean` stands
        for `strip_sentence`, `replace_punct_with_sil` and
        `remove_extra_spaces` applied in turn. */
    method CleanSentencesCorrected(clean: Record -> Record)
      modifies this
      ensures Views(sentences) == Cleaned(old(Views(sentences)), clean)
    {
      var ss := sentences;
      sentences := CleanEach(ss, clean, Views(ss));
    }

    /** `subselect_sentences`: the list becomes the sentences without an
        out-of-vocabulary word, in order (see `LJKeptSubsequence`). */
    method SubselectSentences(lex: Lexicon.CMUDict)
      modifies this
      ensures sentences == LJKept(old(sentences), lex.dictionary)
    {
      var ss := sentences;
      var kept: seq<Sentence> := [];
      for i := 0 to |ss|
        invariant kept == LJKept(ss[..i], lex.dictionary)
      {
        assert ss[..i + 1][..i] == ss[..i];
        var oov := ContainsOov(ss[i].normalised, lex);
        if !oov {
          kept := kept + [ss[i]];
        }
      }
      assert ss[..|ss|] == ss;
      sentences := kept;
    }
  }
}
