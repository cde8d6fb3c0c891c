/** The pronunciation dictionary: a map from upper-case spellings (some
    carrying a sense tag such as `WITH(2)`) to space-separated phones,
    with case-insensitive lookup, a fixed table of hand corrections and
    the removal of every word that has more than one pronunciation. */
module Lexicon {
  import opened Wrappers
  import opened Text
  import CmuUtils

  // ---------------------------------------------------------------------
  // Sense tags: the groups matched by the regular expression `\(\d\)`.
  // ---------------------------------------------------------------------

  /** `\d`: the ASCII digits. On a `str`, Python's `\d` matches every
      Unicode decimal digit, but keys decoded from the Latin-1 dictionary
      file hold no decimal digits outside '0'..'9', so the two agree. */
  predicate IsDigit(c: char) {
    '0' <= c <= '9'
  }

  /** A `(d)` group starts at index `i` of `key`. */
  predicate SenseTagAt(key: string, i: int) {
    0 <= i <= |key| - 3 && key[i] == '(' && IsDigit(key[i + 1]) && key[i + 2] == ')'
  }

  predicate HasSenseTag(key: string) {
    exists i | 0 <= i <= |key| - 3 :: SenseTagAt(key, i)
  }

  /** `re.sub(r"\(\d\)", '', key)`: scanning left to right, every `(d)`
      group is dropped and the scan resumes after it. */
  function EraseSenseTags(key: string): (r: string)
    ensures |r| <= |key|
    decreases |key|
  {
    if |key| < 3 then key
    else if SenseTagAt(key, 0) then EraseSenseTags(key[3..])
    else [key[0]] + EraseSenseTags(key[1..])
  }

  /** Erasing leaves a key as it is exactly when it carries no sense tag. */
  lemma {:induction false} EraseUnchangedIff(key: string)
    ensures EraseSenseTags(key) == key <==> !HasSenseTag(key)
    decreases |key|
  {
    if |key| < 3 {
    } else if SenseTagAt(key, 0) {
      assert |EraseSenseTags(key[3..])| <= |key| - 3;
    } else {
      var tail := key[1..];
      EraseUnchangedIff(tail);
      assert HasSenseTag(key) <==> HasSenseTag(tail) by {
        if HasSenseTag(key) {
          var i :| 0 <= i <= |key| - 3 && SenseTagAt(key, i);
          assert SenseTagAt(tail, i - 1);
        }
        if HasSenseTag(tail) {
          var i :| 0 <= i <= |tail| - 3 && SenseTagAt(tail, i);
          assert SenseTagAt(key, i + 1);
        }
      }
      assert EraseSenseTags(key) == key <==> EraseSenseTags(tail) == tail by {
        assert key == [key[0]] + tail;
      }
    }
  }

  /** A word without an opening parenthesis is left alone by erasing. */
  lemma {:induction false} EraseWithoutParen(word: string)
    requires '(' !in word
    ensures EraseSenseTags(word) == word
    decreases |word|
  {
    if |word| >= 3 {
      assert word[0] != '(';
      EraseWithoutParen(word[1..]);
      assert word == [word[0]] + word[1..];
    }
  }

  /** A single sense digit, 0 to 9. */
  type Digit = n: nat | n <= 9

  /** The key `WORD(n)` of the `n`-th alternative pronunciation of `WORD`. */
  function SenseKey(word: string, n: Digit): string {
    word + "(" + [('0' as int + n) as char] + ")"
  }

  /** `WORD(n)` reduces to `WORD` when the word has no parenthesis. */
  lemma {:induction false} SenseKeyErases(word: string, n: Digit)
    requires '(' !in word
    ensures EraseSenseTags(SenseKey(word, n)) == word
    decreases |word|
  {
    var key := SenseKey(word, n);
    if word == [] {
      assert SenseTagAt(key, 0);
      assert key[3..] == [];
    } else {
      assert key[0] == word[0] && word[0] != '(';
      assert key[1..] == SenseKey(word[1..], n);
      SenseKeyErases(word[1..], n);
    }
  }

  lemma {:induction false} SenseKeyInjective(word: string, m: Digit, n: Digit)
    requires SenseKey(word, m) == SenseKey(word, n)
    ensures m == n
  {
    assert SenseKey(word, m)[|word| + 1] == SenseKey(word, n)[|word| + 1];
  }

  // ---------------------------------------------------------------------
  // Heteronym removal.
  // ---------------------------------------------------------------------

  /** Whether `remove_heteronyms` deletes `key` as sense-tagged: the regular
      expression substitution changed it. */
  predicate Tagged(key: string) {
    EraseSenseTags(key) != key
  }

  /** The bare forms the sense-tagged keys of `d` reduce to. */
  function TaggedBases(d: map<string, string>): set<string> {
    set key | key in d && Tagged(key) :: EraseSenseTags(key)
  }

  /** What `remove_heteronyms` leaves: every sense-tagged key is deleted,
      and so is the bare form it reduces to; everything else stays. */
  function WithoutHeteronyms(d: map<string, string>): (r: map<string, string>)
    ensures r.Keys <= d.Keys
    ensures forall key | key in r :: r[key] == d[key]
  {
    map key | key in d && !Tagged(key) && key !in TaggedBases(d) :: d[key]
  }

  /** No sense-tagged key survives. */
  lemma {:induction false} NoSenseTagsRemain(d: map<string, string>)
    ensures forall key | key in WithoutHeteronyms(d) :: !HasSenseTag(key)
  {
    forall key | key in WithoutHeteronyms(d) ensures !HasSenseTag(key) {
      EraseUnchangedIff(key);
    }
  }

  /** A second run changes nothing. */
  lemma {:induction false} RemoveHeteronymsIdempotent(d: map<string, string>)
    ensures WithoutHeteronyms(WithoutHeteronyms(d)) == WithoutHeteronyms(d)
  {
    var w := WithoutHeteronyms(d);
    assert TaggedBases(w) == {};
  }

  /** A key with no sense tag is deleted exactly when some sense-tagged key
      of the original map reduces to it; when kept, its value is unchanged;
      a sense-tagged key never survives. */
  lemma {:induction false} UntaggedKeyKeptIff(d: map<string, string>, key: string)
    requires key in d
    ensures !HasSenseTag(key) ==>
      (key in WithoutHeteronyms(d) <==>
        forall other | other in d && HasSenseTag(other) :: EraseSenseTags(other) != key)
    ensures key in WithoutHeteronyms(d) ==> WithoutHeteronyms(d)[key] == d[key]
    ensures HasSenseTag(key) ==> key !in WithoutHeteronyms(d)
  {
    EraseUnchangedIff(key);
    forall other | other in d ensures Tagged(other) <==> HasSenseTag(other) {
      EraseUnchangedIff(other);
    }
  }

  // ---------------------------------------------------------------------
  // The hand corrections.
  // ---------------------------------------------------------------------

  /** One edit of the correction table:
      - `Add(key, phones)`: `dictionary[key] = phones`;
      - `Promote(word, chosen, senses)`: `dictionary[word] =
        dictionary[word(chosen)]`, then `del dictionary[word(n)]` for each
        `n` of `senses`, in order;
      - `Drop(word, sense)`: `del dictionary[word(sense)]`. */
  datatype Correction =
    | Add(key: string, phones: string)
    | Promote(word: string, chosen: Digit, senses: seq<Digit>)
    | Drop(word: string, sense: Digit)

  /** The corrections, in the order the source applies them. */
  const Corrections: seq<Correction> := [
    Add("THE_VOWEL", "DH IY0"),
    Add("THE_CONSONANT", "DH AH0"),
    Drop("IN", 1),
    Promote("WITH", 2, [1, 2, 3]),
    Drop("WHICH", 1),
    Drop("WHILE", 1),
    Drop("ONE", 1),
    Promote("ARE", 1, [1]),
    Promote("FOR", 1, [1, 2]),
    Drop("RELIEF", 1),
    Drop("BEFORE", 1),
    Promote("OF", 1, [1]),
    Drop("BE", 1),
    Drop("AS", 1),
    Drop("AND", 1),
    Promote("IT", 1, [1]),
    Promote("IS", 1, [1]),
    Promote("OR", 1, [1]),
    Promote("HAS", 1, [1]),
    Promote("BEEN", 2, [1, 2]),
    Promote("THAN", 1, [1]),
    Promote("WAS", 1, [1]),
    Promote("TO", 2, [1, 2]),
    Drop("ON", 1),
    Promote("AN", 1, [1]),
    Promote("THIS", 1, [1]),
    Drop("MOST", 1),
    Drop("NEXT", 1),
    Drop("RATHER", 1),
    Promote("ENDED", 1, [1])
  ]

  /** The dictionary after the corrections, or, when a `del` or a read
      meets a missing key (Python's KeyError), the dictionary as the edits
      before it left it and the key that was missing. */
  datatype Outcome =
    | Done(dictionary: map<string, string>)
    | Aborted(dictionary: map<string, string>, missing: string)

  function SenseKeys(word: string, senses: seq<Digit>): (keys: seq<string>)
    ensures |keys| == |senses|
    ensures forall i | 0 <= i < |senses| :: keys[i] == SenseKey(word, senses[i])
  {
    if senses == [] then [] else [SenseKey(word, senses[0])] + SenseKeys(word, senses[1..])
  }

  /** `del d[key]` for each key in turn. */
  function DeleteKeys(d: map<string, string>, keys: seq<string>): Outcome
    decreases |keys|
  {
    if keys == [] then Done(d)
    else if keys[0] !in d then Aborted(d, keys[0])
    else DeleteKeys(d - {keys[0]}, keys[1..])
  }

  /** One correction. */
  function Apply(d: map<string, string>, c: Correction): Outcome {
    match c
    case Add(key, phones) => Done(d[key := phones])
    case Promote(word, chosen, senses) =>
      var source := SenseKey(word, chosen);
      if source !in d then Aborted(d, source)
      else DeleteKeys(d[word := d[source]], SenseKeys(word, senses))
    case Drop(word, sense) => DeleteKeys(d, [SenseKey(word, sense)])
  }

  /** The corrections in order, stopping at the first missing key. */
  function ApplyAll(d: map<string, string>, cs: seq<Correction>): Outcome
    decreases |cs|
  {
    if cs == [] then Done(d)
    else
      var first := Apply(d, cs[0]);
      if first.Aborted? then first else ApplyAll(first.dictionary, cs[1..])
  }

  // ---------------------------------------------------------------------
  // What a correction table guarantees.
  // ---------------------------------------------------------------------

  /** The word a correction is about. */
  function Stem(c: Correction): string {
    match c
    case Add(key, _) => key
    case Promote(word, _, _) => word
    case Drop(word, _) => word
  }

  /** The keys `WORD(n)` for the senses `n` listed. */
  function SenseKeySet(word: string, senses: seq<Digit>): set<string> {
    set n | n in senses :: SenseKey(word, n)
  }

  /** Every key a correction reads, writes or deletes. */
  function Touched(c: Correction): set<string> {
    match c
    case Add(key, _) => {key}
    case Promote(word, chosen, senses) =>
      {word, SenseKey(word, chosen)} + SenseKeySet(word, senses)
    case Drop(word, sense) => {SenseKey(word, sense)}
  }

  /** The keys a correction needs to find in the dictionary. */
  function Required(c: Correction): set<string> {
    match c
    case Add(_, _) => {}
    case Promote(word, chosen, senses) =>
      {SenseKey(word, chosen)} + SenseKeySet(word, senses)
    case Drop(word, sense) => {SenseKey(word, sense)}
  }

  /** What a correction promises about the dictionary `after` it, in terms
      of the dictionary `before` it. */
  predicate Holds(before: map<string, string>, c: Correction, after: map<string, string>) {
    match c
    case Add(key, phones) => key in after && after[key] == phones
    case Promote(word, chosen, senses) =>
      && SenseKey(word, chosen) in before
      && word in after && after[word] == before[SenseKey(word, chosen)]
      && forall n | n in senses :: SenseKey(word, n) !in after
    case Drop(word, sense) => SenseKey(word, sense) !in after
  }

  predicate NoDuplicates<T(==)>(xs: seq<T>) {
    forall i, j | 0 <= i < j < |xs| :: xs[i] != xs[j]
  }

  /** A correction on its own makes sense: the stem has no parenthesis,
      and a promotion deletes the sense it copies, each sense once. */
  predicate ValidCorrection(c: Correction) {
    && '(' !in Stem(c)
    && (c.Promote? ==> c.chosen in c.senses && NoDuplicates(c.senses))
  }

  /** A table whose corrections are valid and about different words. */
  predicate ValidTable(cs: seq<Correction>) {
    && (forall i | 0 <= i < |cs| :: ValidCorrection(cs[i]))
    && (forall i, j | 0 <= i < j < |cs| :: Stem(cs[i]) != Stem(cs[j]))
  }

  /** Every key a valid correction touches reduces to its stem. */
  lemma {:induction false} TouchedErasesToStem(c: Correction, key: string)
    requires ValidCorrection(c) && key in Touched(c)
    ensures EraseSenseTags(key) == Stem(c)
  {
    EraseWithoutParen(Stem(c));
    match c
    case Add(_, _) =>
    case Promote(word, chosen, senses) =>
      if key != word {
        var n: Digit :| key == SenseKey(word, n);
        SenseKeyErases(word, n);
      }
    case Drop(word, sense) => SenseKeyErases(word, sense);
  }

  /** Corrections about different words touch different keys. */
  lemma {:induction false} TouchedDisjoint(c: Correction, e: Correction)
    requires ValidCorrection(c) && ValidCorrection(e) && Stem(c) != Stem(e)
    ensures Touched(c) !! Touched(e)
  {
    forall key | key in Touched(c) && key in Touched(e) ensures false {
      TouchedErasesToStem(c, key);
      TouchedErasesToStem(e, key);
    }
  }

  /** Deleting distinct keys succeeds exactly when all are present, and
      then removes exactly them. */
  lemma {:induction false} DeleteKeysEffect(d: map<string, string>, keys: seq<string>)
    requires NoDuplicates(keys)
    ensures DeleteKeys(d, keys).Done? <==> (forall k | k in keys :: k in d)
    ensures DeleteKeys(d, keys).Done? ==>
      DeleteKeys(d, keys).dictionary == d - set k | k in keys
    decreases |keys|
  {
    if keys != [] {
      var rest := keys[1..];
      assert NoDuplicates(rest) by {
        forall i, j | 0 <= i < j < |rest| ensures rest[i] != rest[j] {
          assert rest[i] == keys[i + 1] && rest[j] == keys[j + 1];
        }
      }
      assert keys[0] !in rest by {
        forall j | 0 <= j < |rest| ensures rest[j] != keys[0] { assert rest[j] == keys[j + 1]; }
      }
      DeleteKeysEffect(d - {keys[0]}, rest);
      assert forall k | k in keys :: k == keys[0] || k in rest;
      if DeleteKeys(d, keys).Done? {
        assert (d - {keys[0]}) - (set k | k in rest) == d - set k | k in keys;
      }
    }
  }

  lemma {:induction false} SenseKeysNoDuplicates(word: string, senses: seq<Digit>)
    requires NoDuplicates(senses)
    ensures NoDuplicates(SenseKeys(word, senses))
  {
    var keys := SenseKeys(word, senses);
    forall i, j | 0 <= i < j < |keys| ensures keys[i] != keys[j] {
      if keys[i] == keys[j] { SenseKeyInjective(word, senses[i], senses[j]); }
    }
  }

  /** One valid correction: it succeeds exactly when its required keys are
      present, keeps its promise, and leaves every key it does not touch
      as it was. */
  lemma {:induction false} ApplyEffect(d: map<string, string>, c: Correction)
    requires ValidCorrection(c)
    ensures Apply(d, c).Done? <==> Required(c) <= d.Keys
    ensures Apply(d, c).Done? ==> Holds(d, c, Apply(d, c).dictionary)
    ensures Apply(d, c).Done? ==> forall key | key !in Touched(c) ::
      (key in Apply(d, c).dictionary <==> key in d)
      && (key in d ==> Apply(d, c).dictionary[key] == d[key])
  {
    match c
    case Add(_, _) =>
    case Drop(word, sense) =>
      DeleteKeysEffect(d, [SenseKey(word, sense)]);
    case Promote(word, chosen, senses) =>
      PromoteEffect(d, word, chosen, senses);
  }

  /** The sense keys a promotion deletes, as a set. */
  lemma {:induction false} SenseKeysAsSet(word: string, senses: seq<Digit>)
    ensures (set k | k in SenseKeys(word, senses)) == SenseKeySet(word, senses)
    ensures word !in SenseKeySet(word, senses)
  {
    var keys := SenseKeys(word, senses);
    var sourceSet := SenseKeySet(word, senses);
    forall k | k in keys ensures k in sourceSet {
      var i :| 0 <= i < |keys| && keys[i] == k;
    }
    forall k | k in sourceSet ensures k in keys {
      var n :| n in senses && k == SenseKey(word, n);
      var i :| 0 <= i < |senses| && senses[i] == n;
      assert keys[i] == k;
    }
    forall n | n in senses ensures SenseKey(word, n) != word {
      assert |SenseKey(word, n)| == |word| + 3;
    }
  }

  lemma {:induction false} PromoteEffect(d: map<string, string>, word: string, chosen: Digit, senses: seq<Digit>)
    requires ValidCorrection(Promote(word, chosen, senses))
    ensures var c := Promote(word, chosen, senses);
      && (Apply(d, c).Done? <==> Required(c) <= d.Keys)
      && (Apply(d, c).Done? ==> Holds(d, c, Apply(d, c).dictionary))
      && (Apply(d, c).Done? ==> forall key | key !in Touched(c) ::
           (key in Apply(d, c).dictionary <==> key in d)
           && (key in d ==> Apply(d, c).dictionary[key] == d[key]))
  {
    var keys := SenseKeys(word, senses);
    var source := SenseKey(word, chosen);
    SenseKeysNoDuplicates(word, senses);
    SenseKeysAsSet(word, senses);
    if source in d {
      DeleteKeysEffect(d[word := d[source]], keys);
    }
  }

  /** A key no correction of the table touches is left as it was. */
  lemma {:induction false} ApplyAllFrame(d: map<string, string>, cs: seq<Correction>, key: string)
    requires forall i | 0 <= i < |cs| :: ValidCorrection(cs[i]) && key !in Touched(cs[i])
    requires ApplyAll(d, cs).Done?
    ensures key in ApplyAll(d, cs).dictionary <==> key in d
    ensures key in d ==> ApplyAll(d, cs).dictionary[key] == d[key]
    decreases |cs|
  {
    if cs != [] {
      ApplyEffect(d, cs[0]);
      ApplyAllFrame(Apply(d, cs[0]).dictionary, cs[1..], key);
    }
  }

  /** A valid table runs to the end exactly when every key it needs is in
      the dictionary it starts from. */
  lemma {:induction false} ApplyAllDoneIff(d: map<string, string>, cs: seq<Correction>)
    requires ValidTable(cs)
    ensures ApplyAll(d, cs).Done? <==> forall i | 0 <= i < |cs| :: Required(cs[i]) <= d.Keys
    decreases |cs|
  {
    if cs != [] {
      var rest := cs[1..];
      assert ValidTable(rest) by {
        forall i, j | 0 <= i < j < |rest| ensures Stem(rest[i]) != Stem(rest[j]) {
          assert rest[i] == cs[i + 1] && rest[j] == cs[j + 1];
        }
      }
      ApplyEffect(d, cs[0]);
      if Apply(d, cs[0]).Done? {
        var m := Apply(d, cs[0]).dictionary;
        ApplyAllDoneIff(m, rest);
        forall i | 1 <= i < |cs| ensures Required(cs[i]) <= m.Keys <==> Required(cs[i]) <= d.Keys {
          TouchedDisjoint(cs[0], cs[i]);
          assert Required(cs[i]) <= Touched(cs[i]);
        }
        assert forall i | 0 <= i < |rest| :: rest[i] == cs[i + 1];
      }
    }
  }

  /** After a valid table has run to the end, every correction in it has
      kept its promise, stated against the dictionary it started from. */
  lemma {:induction false} ApplyAllHolds(d: map<string, string>, cs: seq<Correction>, i: nat)
    requires ValidTable(cs) && i < |cs|
    requires ApplyAll(d, cs).Done?
    ensures Holds(d, cs[i], ApplyAll(d, cs).dictionary)
    decreases |cs|
  {
    var rest := cs[1..];
    assert ValidTable(rest) by {
      forall i, j | 0 <= i < j < |rest| ensures Stem(rest[i]) != Stem(rest[j]) {
        assert rest[i] == cs[i + 1] && rest[j] == cs[j + 1];
      }
    }
    ApplyEffect(d, cs[0]);
    var m := Apply(d, cs[0]).dictionary;
    var result := ApplyAll(m, rest).dictionary;
    if i == 0 {
      forall key | key in Touched(cs[0]) ensures
        (key in result <==> key in m) && (key in m ==> result[key] == m[key])
      {
        forall j | 0 <= j < |rest| ensures ValidCorrection(rest[j]) && key !in Touched(rest[j]) {
          assert rest[j] == cs[j + 1];
          TouchedDisjoint(cs[0], cs[j + 1]);
        }
        ApplyAllFrame(m, rest, key);
      }
    } else {
      ApplyAllHolds(m, rest, i - 1);
      assert rest[i - 1] == cs[i];
      TouchedDisjoint(cs[0], cs[i]);
      if cs[i].Promote? {
        assert SenseKey(cs[i].word, cs[i].chosen) in Touched(cs[i]);
      }
    }
  }

  /** Running a valid table and then removing heteronyms keeps each
      promoted word, with the value its chosen sense had before the table
      ran, provided every sense-tagged key of that word was listed in its
      promotion: those siblings are gone before heteronym removal looks. */
  lemma {:induction false} PromotedSurvives(d: map<string, string>, cs: seq<Correction>, i: nat)
    requires ValidTable(cs) && i < |cs| && cs[i].Promote?
    requires ApplyAll(d, cs).Done?
    requires forall key | key in d && Tagged(key) && EraseSenseTags(key) == cs[i].word ::
      key in Touched(cs[i])
    ensures SenseKey(cs[i].word, cs[i].chosen) in d
    ensures cs[i].word in WithoutHeteronyms(ApplyAll(d, cs).dictionary)
    ensures WithoutHeteronyms(ApplyAll(d, cs).dictionary)[cs[i].word] == d[SenseKey(cs[i].word, cs[i].chosen)]
  {
    var word := cs[i].word;
    var r := ApplyAll(d, cs).dictionary;
    ApplyAllHolds(d, cs, i);
    EraseWithoutParen(word);
    forall key | key in r && Tagged(key) ensures EraseSenseTags(key) != word {
      if EraseSenseTags(key) == word {
        if j :| 0 <= j < |cs| && key in Touched(cs[j]) {
          TouchedErasesToStem(cs[j], key);
          assert j == i;
          PromotedSenseKeyGone(cs[i], key, r);
        } else {
          ApplyAllFrame(d, cs, key);
        }
      }
    }
  }

  /** A tagged key a promotion touches is one of its deleted sense keys. */
  lemma {:induction false} PromotedSenseKeyGone(c: Correction, key: string, r: map<string, string>)
    requires c.Promote? && ValidCorrection(c) && key in Touched(c) && Tagged(key)
    requires forall n | n in c.senses :: SenseKey(c.word, n) !in r
    ensures key !in r
  {
    EraseWithoutParen(c.word);
  }

  /** After a valid table has run, no sense-tagged key of the word of entry
      `i` is left, provided every such key of the starting dictionary is
      one entry `i` touches and entry `i` leaves none of the tagged keys it
      touches. */
  lemma {:induction false} NoTaggedSiblingLeft(d: map<string, string>, cs: seq<Correction>, i: nat)
    requires ValidTable(cs) && i < |cs| && ApplyAll(d, cs).Done?
    requires forall key | key in d && Tagged(key) && EraseSenseTags(key) == Stem(cs[i]) ::
      key in Touched(cs[i])
    requires forall key | key in Touched(cs[i]) && Tagged(key) :: key !in ApplyAll(d, cs).dictionary
    ensures Stem(cs[i]) !in TaggedBases(ApplyAll(d, cs).dictionary)
  {
    var r := ApplyAll(d, cs).dictionary;
    forall key | key in r && Tagged(key) ensures EraseSenseTags(key) != Stem(cs[i]) {
      if EraseSenseTags(key) == Stem(cs[i]) {
        if j :| 0 <= j < |cs| && key in Touched(cs[j]) {
          TouchedErasesToStem(cs[j], key);
        } else {
          ApplyAllFrame(d, cs, key);
        }
      }
    }
  }

  /** A word whose tagged sense a `Drop` entry deletes keeps its own
      pronunciation through the table and heteronym removal, provided the
      dropped sense is its only sense-tagged key left to remove. */
  lemma {:induction false} DroppedSurvives(d: map<string, string>, cs: seq<Correction>, i: nat)
    requires ValidTable(cs) && i < |cs| && cs[i].Drop?
    requires ApplyAll(d, cs).Done? && cs[i].word in d
    requires forall key | key in d && Tagged(key) && EraseSenseTags(key) == cs[i].word ::
      key in Touched(cs[i])
    ensures cs[i].word in WithoutHeteronyms(ApplyAll(d, cs).dictionary)
    ensures WithoutHeteronyms(ApplyAll(d, cs).dictionary)[cs[i].word] == d[cs[i].word]
  {
    var word := cs[i].word;
    ApplyAllHolds(d, cs, i);
    EraseWithoutParen(word);
    forall j | 0 <= j < |cs| ensures ValidCorrection(cs[j]) && word !in Touched(cs[j]) {
      if word in Touched(cs[j]) {
        TouchedErasesToStem(cs[j], word);
      }
    }
    ApplyAllFrame(d, cs, word);
    NoTaggedSiblingLeft(d, cs, i);
  }

  /** A key an `Add` entry writes survives heteronym removal with the
      phones written, provided no sense-tagged key of the starting
      dictionary reduces to it. */
  lemma {:induction false} AddedSurvives(d: map<string, string>, cs: seq<Correction>, i: nat)
    requires ValidTable(cs) && i < |cs| && cs[i].Add?
    requires ApplyAll(d, cs).Done?
    requires forall key | key in d && Tagged(key) :: EraseSenseTags(key) != cs[i].key
    ensures cs[i].key in WithoutHeteronyms(ApplyAll(d, cs).dictionary)
    ensures WithoutHeteronyms(ApplyAll(d, cs).dictionary)[cs[i].key] == cs[i].phones
  {
    ApplyAllHolds(d, cs, i);
    EraseWithoutParen(cs[i].key);
    NoTaggedSiblingLeft(d, cs, i);
  }

  /** The words the correction table is about, in its order. */
  const CorrectedWords: seq<string> := [
    "THE_VOWEL", "THE_CONSONANT", "IN", "WITH", "WHICH", "WHILE", "ONE",
    "ARE", "FOR", "RELIEF", "BEFORE", "OF", "BE", "AS", "AND", "IT", "IS",
    "OR", "HAS", "BEEN", "THAN", "WAS", "TO", "ON", "AN", "THIS", "MOST",
    "NEXT", "RATHER", "ENDED"]

  lemma {:induction false} CorrectedWordsFirstHalf()
    ensures forall i | 0 <= i < 15 :: Stem(Corrections[i]) == CorrectedWords[i]
  {
  }

  lemma {:induction false} CorrectedWordsSecondHalf()
    ensures forall i | 15 <= i < 30 :: Stem(Corrections[i]) == CorrectedWords[i]
  {
  }

  lemma {:induction false} CorrectedWordsDistinct(words: seq<string>)
    requires words == CorrectedWords
    ensures forall i, j | 0 <= i < j < |words| :: words[i] != words[j]
  {
    DistinctWithinFirstHalf(words);
    DistinctWithinSecondHalf(words);
    DistinctAcrossHalves(words);
  }

  lemma {:induction false} DistinctWithinFirstHalf(words: seq<string>)
    requires words == CorrectedWords
    ensures forall i, j | 0 <= i < j < 15 :: words[i] != words[j]
  {
  }

  lemma {:induction false} DistinctWithinSecondHalf(words: seq<string>)
    requires words == CorrectedWords
    ensures forall i, j | 15 <= i < j < 30 :: words[i] != words[j]
  {
  }

  lemma {:induction false} DistinctAcrossHalves(words: seq<string>)
    requires words == CorrectedWords
    ensures forall i, j | 0 <= i < 15 <= j < 30 :: words[i] != words[j]
  {
  }

  lemma {:induction false} CorrectedWordsParenFree(words: seq<string>)
    requires words == CorrectedWords
    ensures forall i | 0 <= i < |words| :: '(' !in words[i]
  {
  }

  lemma {:induction false} PromotionsValid()
    ensures forall i | 0 <= i < |Corrections| && Corrections[i].Promote? ::
      Corrections[i].chosen in Corrections[i].senses && NoDuplicates(Corrections[i].senses)
  {
  }

  /** The correction table is valid: each entry is about its own word. */
  lemma {:induction false} CorrectionsValid()
    ensures ValidTable(Corrections)
  {
    CorrectedWordsFirstHalf();
    CorrectedWordsSecondHalf();
    CorrectedWordsDistinct(CorrectedWords);
    CorrectedWordsParenFree(CorrectedWords);
    PromotionsValid();
    assert |Corrections| == 30;
  }

  /** A key whose bare form is none of the corrected words is left as it
      was by the whole table. */
  lemma {:induction false} OtherWordsUntouched(d: map<string, string>, key: string)
    requires ApplyAll(d, Corrections).Done?
    requires EraseSenseTags(key) !in CorrectedWords
    ensures key in ApplyAll(d, Corrections).dictionary <==> key in d
    ensures key in d ==> ApplyAll(d, Corrections).dictionary[key] == d[key]
  {
    CorrectionsValid();
    CorrectedWordsFirstHalf();
    CorrectedWordsSecondHalf();
    assert |Corrections| == |CorrectedWords| == 30;
    UntouchedByTable(d, Corrections, CorrectedWords, key);
  }

  /** The same for any valid table whose stems are `words`. */
  lemma UntouchedByTable(d: map<string, string>, cs: seq<Correction>, words: seq<string>, key: string)
    requires |cs| == |words| && forall i | 0 <= i < |cs| :: ValidCorrection(cs[i]) && Stem(cs[i]) == words[i]
    requires ApplyAll(d, cs).Done?
    requires EraseSenseTags(key) !in words
    ensures key in ApplyAll(d, cs).dictionary <==> key in d
    ensures key in d ==> ApplyAll(d, cs).dictionary[key] == d[key]
  {
    forall i | 0 <= i < |cs| ensures ValidCorrection(cs[i]) && key !in Touched(cs[i]) {
      if key in Touched(cs[i]) {
        TouchedErasesToStem(cs[i], key);
      }
    }
    ApplyAllFrame(d, cs, key);
  }

  /** The table runs to the end exactly when every sense key it reads or
      deletes is present. */
  lemma {:induction false} CorrectionsRunIff(d: map<string, string>)
    ensures ApplyAll(d, Corrections).Done? <==>
      forall i | 0 <= i < |Corrections| :: Required(Corrections[i]) <= d.Keys
  {
    CorrectionsValid();
    ApplyAllDoneIff(d, Corrections);
  }

  /** After the whole table has run, entry `i` has kept its promise. */
  lemma {:induction false} TableHolds(d: map<string, string>, i: nat, c: Correction)
    requires i < |Corrections| && Corrections[i] == c
    requires ApplyAll(d, Corrections).Done?
    ensures Holds(d, c, ApplyAll(d, Corrections).dictionary)
  {
    CorrectionsValid();
    ApplyAllHolds(d, Corrections, i);
  }

  /** The two pronunciations of "the" are added under their own keys. */
  lemma {:induction false} TheEntriesAdded(d: map<string, string>)
    requires ApplyAll(d, Corrections).Done?
    ensures "THE_VOWEL" in ApplyAll(d, Corrections).dictionary
    ensures ApplyAll(d, Corrections).dictionary["THE_VOWEL"] == "DH IY0"
    ensures "THE_CONSONANT" in ApplyAll(d, Corrections).dictionary
    ensures ApplyAll(d, Corrections).dictionary["THE_CONSONANT"] == "DH AH0"
  {
    TableHolds(d, 0, Add("THE_VOWEL", "DH IY0"));
    TableHolds(d, 1, Add("THE_CONSONANT", "DH AH0"));
  }

  /** What promoting the second sense of "WITH" means for its keys. */
  lemma {:induction false} WithPromotion(before: map<string, string>, after: map<string, string>)
    requires Holds(before, Promote("WITH", 2, [1, 2, 3]), after)
    ensures "WITH(2)" in before && "WITH" in after && after["WITH"] == before["WITH(2)"]
    ensures "WITH(1)" !in after && "WITH(2)" !in after && "WITH(3)" !in after
  {
    assert SenseKey("WITH", 1) == "WITH(1)";
    assert SenseKey("WITH", 2) == "WITH(2)";
    assert SenseKey("WITH", 3) == "WITH(3)";
  }

  /** "WITH" takes the pronunciation of its second sense, and no sense of
      it is left. */
  lemma {:induction false} WithPromoted(d: map<string, string>)
    requires ApplyAll(d, Corrections).Done?
    ensures "WITH(2)" in d
    ensures "WITH" in ApplyAll(d, Corrections).dictionary
    ensures ApplyAll(d, Corrections).dictionary["WITH"] == d["WITH(2)"]
    ensures "WITH(1)" !in ApplyAll(d, Corrections).dictionary
    ensures "WITH(2)" !in ApplyAll(d, Corrections).dictionary
    ensures "WITH(3)" !in ApplyAll(d, Corrections).dictionary
  {
    TableHolds(d, 3, Promote("WITH", 2, [1, 2, 3]));
    WithPromotion(d, ApplyAll(d, Corrections).dictionary);
  }

  lemma {:induction false} WithEntry()
    ensures 3 < |Corrections| && Corrections[3] == Promote("WITH", 2, [1, 2, 3])
  {
  }

  /** Sense keys of "WITH" that the table lists are keys its promotion
      touches. */
  lemma {:induction false} WithSiblingsTouched(d: map<string, string>)
    requires forall key | key in d && Tagged(key) && EraseSenseTags(key) == "WITH" ::
      key in {"WITH(1)", "WITH(2)", "WITH(3)"}
    ensures forall key | key in d && Tagged(key) && EraseSenseTags(key) == "WITH" ::
      key in Touched(Promote("WITH", 2, [1, 2, 3]))
  {
    assert SenseKey("WITH", 1) == "WITH(1)";
    assert SenseKey("WITH", 2) == "WITH(2)";
    assert SenseKey("WITH", 3) == "WITH(3)";
  }

  /** `PromotedSurvives` for an entry given by its parts. */
  lemma {:induction false} PromotedEntrySurvives(d: map<string, string>, cs: seq<Correction>, i: nat,
                                                 word: string, chosen: Digit, senses: seq<Digit>)
    requires ValidTable(cs) && i < |cs| && cs[i] == Promote(word, chosen, senses)
    requires ApplyAll(d, cs).Done?
    requires forall key | key in d && Tagged(key) && EraseSenseTags(key) == word ::
      key in Touched(Promote(word, chosen, senses))
    ensures SenseKey(word, chosen) in d
    ensures word in WithoutHeteronyms(ApplyAll(d, cs).dictionary)
    ensures WithoutHeteronyms(ApplyAll(d, cs).dictionary)[word] == d[SenseKey(word, chosen)]
  {
    PromotedSurvives(d, cs, i);
  }

  /** When "WITH" has no senses beyond the three the table lists, the
      table followed by heteronym removal leaves "WITH" with the old
      pronunciation of "WITH(2)". */
  lemma {:induction false} WithSurvivesHeteronymRemoval(d: map<string, string>)
    requires ApplyAll(d, Corrections).Done?
    requires forall key | key in d && Tagged(key) && EraseSenseTags(key) == "WITH" ::
      key in {"WITH(1)", "WITH(2)", "WITH(3)"}
    ensures "WITH(2)" in d
    ensures "WITH" in WithoutHeteronyms(ApplyAll(d, Corrections).dictionary)
    ensures WithoutHeteronyms(ApplyAll(d, Corrections).dictionary)["WITH"] == d["WITH(2)"]
  {
    WithSecondSense();
    WithSiblingsTouched(d);
    WithEntry();
    CorrectionsValid();
    PromotedEntrySurvives(d, Corrections, 3, "WITH", 2, [1, 2, 3]);
  }

  lemma {:induction false} WithSecondSense()
    ensures SenseKey("WITH", 2) == "WITH(2)"
  {
  }

  /** `DroppedSurvives` for an entry given by its parts. */
  lemma {:induction false} DroppedEntrySurvives(d: map<string, string>, cs: seq<Correction>, i: nat,
                                                word: string, sense: Digit)
    requires ValidTable(cs) && i < |cs| && cs[i] == Drop(word, sense)
    requires ApplyAll(d, cs).Done? && word in d
    requires forall key | key in d && Tagged(key) && EraseSenseTags(key) == word :: key == SenseKey(word, sense)
    ensures word in WithoutHeteronyms(ApplyAll(d, cs).dictionary)
    ensures WithoutHeteronyms(ApplyAll(d, cs).dictionary)[word] == d[word]
  {
    DroppedSurvives(d, cs, i);
  }

  /** `AddedSurvives` for an entry given by its parts. */
  lemma {:induction false} AddedEntrySurvives(d: map<string, string>, cs: seq<Correction>, i: nat,
                                              key: string, phones: string)
    requires ValidTable(cs) && i < |cs| && cs[i] == Add(key, phones)
    requires ApplyAll(d, cs).Done?
    requires forall k | k in d && Tagged(k) :: EraseSenseTags(k) != key
    ensures key in WithoutHeteronyms(ApplyAll(d, cs).dictionary)
    ensures WithoutHeteronyms(ApplyAll(d, cs).dictionary)[key] == phones
  {
    AddedSurvives(d, cs, i);
  }

  lemma {:induction false} InEntry()
    ensures 2 < |Corrections| && Corrections[2] == Drop("IN", 1)
    ensures SenseKey("IN", 1) == "IN(1)"
  {
  }

  lemma {:induction false} TheEntries()
    ensures 1 < |Corrections| && Corrections[0] == Add("THE_VOWEL", "DH IY0")
    ensures Corrections[1] == Add("THE_CONSONANT", "DH AH0")
  {
  }

  /** The unstressed "IN" is the pronunciation kept: when "IN(1)" is its
      only sense, "IN" survives the table and heteronym removal with its
      own old value. */
  lemma {:induction false} InSurvivesHeteronymRemoval(d: map<string, string>)
    requires ApplyAll(d, Corrections).Done? && "IN" in d
    requires forall key | key in d && Tagged(key) && EraseSenseTags(key) == "IN" :: key == "IN(1)"
    ensures "IN" in WithoutHeteronyms(ApplyAll(d, Corrections).dictionary)
    ensures WithoutHeteronyms(ApplyAll(d, Corrections).dictionary)["IN"] == d["IN"]
  {
    CorrectionsValid();
    InEntry();
    DroppedEntrySurvives(d, Corrections, 2, "IN", 1);
  }

  /** The two added pronunciations of "the" survive heteronym removal,
      unless the dictionary had sense-tagged keys of their own. */
  lemma {:induction false} TheEntriesSurvive(d: map<string, string>)
    requires ApplyAll(d, Corrections).Done?
    requires forall key | key in d && Tagged(key) ::
      EraseSenseTags(key) != "THE_VOWEL" && EraseSenseTags(key) != "THE_CONSONANT"
    ensures "THE_VOWEL" in WithoutHeteronyms(ApplyAll(d, Corrections).dictionary)
    ensures WithoutHeteronyms(ApplyAll(d, Corrections).dictionary)["THE_VOWEL"] == "DH IY0"
    ensures "THE_CONSONANT" in WithoutHeteronyms(ApplyAll(d, Corrections).dictionary)
    ensures WithoutHeteronyms(ApplyAll(d, Corrections).dictionary)["THE_CONSONANT"] == "DH AH0"
  {
    CorrectionsValid();
    TheEntries();
    AddedEntrySurvives(d, Corrections, 0, "THE_VOWEL", "DH IY0");
    AddedEntrySurvives(d, Corrections, 1, "THE_CONSONANT", "DH AH0");
  }

  lemma {:induction false} InSenseRequired()
    ensures 2 < |Corrections| && "IN(1)" in Required(Corrections[2])
  {
    assert SenseKey("IN", 1) == "IN(1)";
  }

  /** The table reads sense-tagged keys, so it cannot run to the end on a
      dictionary whose heteronyms are already removed: the table has to be
      applied first. */
  lemma {:induction false} CorrectionsNeedSenseKeys(d: map<string, string>)
    ensures ApplyAll(WithoutHeteronyms(d), Corrections).Aborted?
  {
    var w := WithoutHeteronyms(d);
    CorrectionsRunIff(w);
    InSenseRequired();
    assert Tagged("IN(1)");
    assert "IN(1)" !in w;
  }

  // ---------------------------------------------------------------------
  // The dictionary object.
  // ---------------------------------------------------------------------

  /** Whether `missing` reports what an outcome says went wrong. */
  predicate Reports(out: Outcome, missing: Option<string>) {
    match out
    case Done(_) => missing.None?
    case Aborted(_, key) => missing == Some(key)
  }

  /** The CMU lookup on a dictionary value: the entry under the
      upper-cased word, absent on a miss. */
  function LookupUpper(d: map<string, string>, word: string): (r: Option<string>)
    ensures r.Some? <==> Upper(word) in d
    ensures r.Some? ==> r.value == d[Upper(word)]
  {
    if Upper(word) in d then Some(d[Upper(word)]) else None
  }

  /** The lookup ignores case: a word and its upper-cased form find the
      same entry. */
  lemma LookupCaseInsensitive(d: map<string, string>, word: string)
    ensures LookupUpper(d, Upper(word)) == LookupUpper(d, word)
  {
    UpperIdempotent(word);
  }

  /** `CMUDict`: the CMU dictionary held in `dictionary`, keys upper case. */
  class CMUDict {
    var dictionary: map<string, string>

    /** A dictionary with no entries yet. */
    constructor ()
      ensures dictionary == map[]
    {
      dictionary := map[];
    }

    /** `init`: empties the dictionary. */
    method Init()
      modifies this
      ensures dictionary == map[]
    {
      dictionary := map[];
    }

    /** The base class's `lookup`: the entry under exactly this key. */
    function LookupExact(word: string): (r: Option<string>)
      reads this
      ensures r.Some? <==> word in dictionary
      ensures r.Some? ==> r.value == dictionary[word]
    {
      if word in dictionary then Some(dictionary[word]) else None
    }

    /** `lookup`: the entry under the upper-cased word. */
    function Lookup(word: string): (r: Option<string>)
      reads this
      ensures r.Some? <==> Upper(word) in dictionary
      ensures r.Some? ==> r.value == dictionary[Upper(word)]
    {
      LookupUpper(dictionary, word)
    }

    /** `load`: the parsed file replaces the dictionary; a file with a
        malformed line raises and leaves it as it was. */
    method Load(lines: seq<string>) returns (ok: bool)
      modifies this
      ensures ok <==> CmuUtils.ParseLexicon(lines).Some?
      ensures ok ==> dictionary == CmuUtils.ParseLexicon(lines).value
      ensures !ok ==> dictionary == old(dictionary)
    {
      var parsed := CmuUtils.CmuParser(lines);
      ok := parsed.Some?;
      if ok {
        dictionary := parsed.value;
      }
    }

    /** `del dictionary[key]` for each key in turn; the first missing key
        stops the run. */
    method DeleteAll(keys: seq<string>) returns (missing: Option<string>)
      modifies this
      ensures dictionary == DeleteKeys(old(dictionary), keys).dictionary
      ensures Reports(DeleteKeys(old(dictionary), keys), missing)
    {
      var j := 0;
      while j < |keys|
        invariant 0 <= j <= |keys|
        invariant DeleteKeys(old(dictionary), keys) == DeleteKeys(dictionary, keys[j..])
      {
        assert keys[j..][0] == keys[j] && keys[j..][1..] == keys[j + 1..];
        if keys[j] !in dictionary {
          return Some(keys[j]);
        }
        dictionary := dictionary - {keys[j]};
        j := j + 1;
      }
      return None;
    }

    /** One entry of the correction table. */
    method ApplyCorrection(c: Correction) returns (missing: Option<string>)
      modifies this
      ensures dictionary == Apply(old(dictionary), c).dictionary
      ensures Reports(Apply(old(dictionary), c), missing)
    {
      match c
      case Add(key, phones) =>
        dictionary := dictionary[key := phones];
        missing := None;
      case Promote(word, chosen, senses) =>
        var source := SenseKey(word, chosen);
        if source !in dictionary {
          return Some(source);
        }
        dictionary := dictionary[word := dictionary[source]];
        missing := DeleteAll(SenseKeys(word, senses));
      case Drop(word, sense) =>
        missing := DeleteAll([SenseKey(word, sense)]);
    }

    /** `manually_modify_and_remove_entires`: the correction table in
        order; a missing key (KeyError) stops it part way. */
    method ManuallyModifyAndRemoveEntries() returns (missing: Option<string>)
      modifies this
      ensures dictionary == ApplyAll(old(dictionary), Corrections).dictionary
      ensures Reports(ApplyAll(old(dictionary), Corrections), missing)
    {
      missing := ApplyCorrections(Corrections);
    }

    /** The corrections `cs` in order, stopping at the first missing key. */
    method ApplyCorrections(cs: seq<Correction>) returns (missing: Option<string>)
      modifies this
      ensures dictionary == ApplyAll(old(dictionary), cs).dictionary
      ensures Reports(ApplyAll(old(dictionary), cs), missing)
    {
      var i := 0;
      while i < |cs|
        invariant 0 <= i <= |cs|
        invariant ApplyAll(old(dictionary), cs) == ApplyAll(dictionary, cs[i..])
      {
        assert cs[i..][0] == cs[i] && cs[i..][1..] == cs[i + 1..];
        missing := ApplyCorrection(cs[i]);
        if missing.Some? {
          return;
        }
        i := i + 1;
      }
      missing := None;
    }

    /** `remove_heteronyms`, over a snapshot of the keys taken in any
        order. It succeeds with `WithoutHeteronyms` of the old dictionary;
        it can only fail (a KeyError) when erasing the tags of some key
        leaves another tagged key, which may have been deleted already. */
    method RemoveHeteronyms() returns (ok: bool)
      modifies this
      ensures ok ==> dictionary == WithoutHeteronyms(old(dictionary))
      ensures (forall key | key in old(dictionary) :: !Tagged(EraseSenseTags(key))) ==> ok
      ensures dictionary.Keys <= old(dictionary).Keys
      ensures forall key | key in dictionary :: dictionary[key] == old(dictionary)[key]
    {
      ghost var d0 := dictionary;
      var keys := dictionary.Keys;
      ghost var done: set<string> := {};
      ok := true;
      while keys != {}
        invariant keys + done == d0.Keys && keys !! done
        invariant dictionary == Remaining(d0, done)
        invariant ok
        decreases |keys|
      {
        var key :| key in keys;
        keys := keys - {key};
        var removed := RemoveKeyIfTagged(key, d0, done);
        if !removed {
          ghost var other :| other in done && other in d0 && Tagged(other) && EraseSenseTags(other) == key;
          assert other in old(dictionary) && Tagged(EraseSenseTags(other));
          ok := false;
          return;
        }
        done := done + {key};
      }
      assert done == d0.Keys;
    }

    /** One turn of `remove_heteronyms`'s loop: a tagged key is deleted
        together with its bare form (if still there). Deleting the tagged
        key fails when it is gone already, that is when a key visited
        earlier erased to it. */
    method RemoveKeyIfTagged(key: string, ghost d0: map<string, string>, ghost done: set<string>)
      returns (ok: bool)
      modifies this
      requires key in d0 && key !in done
      requires dictionary == Remaining(d0, done)
      ensures ok ==> dictionary == Remaining(d0, done + {key})
      ensures !ok ==> Tagged(key) && key in BasesOf(d0, done) && dictionary == old(dictionary)
      ensures Tagged(key) && key in BasesOf(d0, done) ==> !ok
    {
      RemainingStep(d0, done, key);
      var cleaned := EraseSenseTags(key);
      ok := true;
      if cleaned != key {
        if key !in dictionary {
          return false;
        }
        ghost var before := dictionary;
        dictionary := dictionary - {key};
        if cleaned in dictionary {
          dictionary := dictionary - {cleaned};
        }
        assert dictionary.Keys == before.Keys - {key, cleaned};
        assert dictionary == before - {key, cleaned};
      }
    }
  }

  /** The bare forms of the tagged keys among `done`. */
  function BasesOf(d: map<string, string>, done: set<string>): set<string> {
    set key | key in done && key in d && Tagged(key) :: EraseSenseTags(key)
  }

  /** The dictionary after `remove_heteronyms` has visited the keys `done`. */
  function Remaining(d: map<string, string>, done: set<string>): (r: map<string, string>)
    ensures done == d.Keys ==> r == WithoutHeteronyms(d)
    ensures r.Keys <= d.Keys
    ensures forall key | key in r :: r[key] == d[key]
  {
    map key | key in d && !(key in done && Tagged(key)) && key !in BasesOf(d, done) :: d[key]
  }

  /** Visiting one more key: nothing changes for an untagged key; a tagged
      key is present exactly when no visited key erased to it, and it is
      then removed along with its bare form. */
  lemma {:induction false} RemainingStep(d: map<string, string>, done: set<string>, key: string)
    requires key in d && key !in done
    ensures !Tagged(key) ==> Remaining(d, done + {key}) == Remaining(d, done)
    ensures Tagged(key) ==>
      (key in Remaining(d, done) <==> key !in BasesOf(d, done))
      && Remaining(d, done + {key}) == Remaining(d, done) - {key, EraseSenseTags(key)}
  {
    if !Tagged(key) {
      assert BasesOf(d, done + {key}) == BasesOf(d, done);
    } else {
      assert BasesOf(d, done + {key}) == BasesOf(d, done) + {EraseSenseTags(key)};
    }
  }
}
