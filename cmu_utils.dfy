/** Reading the CMU pronouncing dictionary: one `WORD  PHONES` entry per
    line, `;;;` comment lines skipped. The file itself is not read here:
    `lines` stands for what `readlines()` returns, newline included. */
module CmuUtils {
  import opened Wrappers
  import opened Text

  /** `skip_line`: a comment line starts with ";;;". */
  predicate SkipLine(line: string) {
    StartsWith(line, ";;;")
  }

  /** `get_entry`: split at the first space, strip both halves. A line
      without a space has nothing to unpack and is an error. */
  function GetEntry(line: string): (r: Option<(string, string)>)
    ensures r.None? <==> ' ' !in line
    ensures r.Some? ==> ' ' !in r.value.0
  {
    match SplitOnce(line, ' ')
    case None => None
    case Some((word, phones)) => Some((Strip(word), Strip(phones)))
  }

  /** A dictionary line as the CMU file writes it (word, two spaces, the
      phones, newline) gives back exactly that word and those phones. */
  lemma EntryRoundTrip(word: string, phones: string)
    requires word != [] && NoSpace(word)
    requires Trimmed(phones)
    ensures GetEntry(word + "  " + phones + "\n") == Some((word, phones))
  {
    assert ' ' !in word;
    assert word + "  " + phones + "\n" == word + [' '] + (" " + phones + "\n");
    SplitOnceGlued(word, ' ', " " + phones + "\n");
    StripPadded(" ", phones, "\n");
    StripNoOp(word);
  }

  /** One turn of `cmu_parser`'s loop: a comment line adds nothing, any
      other line sets its word (overwriting an earlier entry for it). */
  function AddLine(lexicon: map<string, string>, line: string): Option<map<string, string>> {
    if SkipLine(line) then Some(lexicon)
    else
      var entry := GetEntry(line);
      if entry.None? then None else Some(lexicon[entry.value.0 := entry.value.1])
  }

  /** What `cmu_parser` builds from the lines seen so far; the first line
      without a space aborts the whole parse. */
  function ParseLexicon(lines: seq<string>): Option<map<string, string>>
  {
    if lines == [] then Some(map[])
    else
      var before := ParseLexicon(lines[..|lines| - 1]);
      if before.None? then None else AddLine(before.value, lines[|lines| - 1])
  }

  /** `cmu_parser`, over the file's lines. */
  method CmuParser(lines: seq<string>) returns (r: Option<map<string, string>>)
    ensures r == ParseLexicon(lines)
  {
    var lexicon: map<string, string> := map[];
    var i := 0;
    while i < |lines|
      invariant 0 <= i <= |lines|
      invariant ParseLexicon(lines[..i]) == Some(lexicon)
    {
      assert lines[..i + 1][..i] == lines[..i];
      var line := lines[i];
      if !SkipLine(line) {
        var entry := GetEntry(line);
        if entry.None? {
          ParseFailureSticks(lines, i + 1);
          return None;
        }
        var (word, phones) := entry.value;
        lexicon := lexicon[word := phones];
      }
      i := i + 1;
    }
    assert lines[..i] == lines;
    r := Some(lexicon);
  }

  /** Once a prefix of the lines fails to parse, the whole file does. */
  lemma {:induction false} ParseFailureSticks(lines: seq<string>, n: nat)
    requires n <= |lines| && ParseLexicon(lines[..n]).None?
    ensures ParseLexicon(lines).None?
  {
    if n < |lines| {
      assert lines[..|lines| - 1][..n] == lines[..n];
      ParseFailureSticks(lines[..|lines| - 1], n);
    } else {
      assert lines[..n] == lines;
    }
  }

  /** The entry a non-comment line contributes, if it has one. */
  function LineEntry(line: string): Option<(string, string)> {
    if SkipLine(line) then None else GetEntry(line)
  }

  /** The phones of the last line that defines `word`, if any. */
  function LastDefinition(lines: seq<string>, word: string): Option<string> {
    if lines == [] then None
    else
      var e := LineEntry(lines[|lines| - 1]);
      if e.Some? && e.value.0 == word then Some(e.value.1)
      else LastDefinition(lines[..|lines| - 1], word)
  }

  /** A line `get_entry` cannot unpack. */
  predicate Malformed(line: string) {
    !SkipLine(line) && ' ' !in line
  }

  /** Parsing fails exactly when some non-comment line has no space. */
  lemma {:induction false} ParseFailsIff(lines: seq<string>)
    ensures ParseLexicon(lines).None? <==> exists i | 0 <= i < |lines| :: Malformed(lines[i])
  {
    if lines != [] {
      var init := lines[..|lines| - 1];
      ParseFailsIff(init);
      if ParseLexicon(init).None? {
        var i :| 0 <= i < |init| && Malformed(init[i]);
        assert Malformed(lines[i]);
      } else if Malformed(lines[|lines| - 1]) {
        assert ParseLexicon(lines).None?;
      } else {
        assert ParseLexicon(lines).Some?;
        forall i | 0 <= i < |lines| ensures !Malformed(lines[i]) {
          if i < |init| { assert lines[i] == init[i]; }
        }
      }
    }
  }

  /** Once parsed, a word is a key exactly when some non-comment line
      defines it, and its value is the phones of the LAST such line. */
  lemma {:induction false} LastDefinitionWins(lines: seq<string>, word: string)
    requires ParseLexicon(lines).Some?
    ensures word in ParseLexicon(lines).value <==> LastDefinition(lines, word).Some?
    ensures word in ParseLexicon(lines).value ==>
      ParseLexicon(lines).value[word] == LastDefinition(lines, word).value
  {
    if lines != [] {
      LastDefinitionWins(lines[..|lines| - 1], word);
    }
  }

  /** A comment line after the others adds no entry. */
  lemma CommentAtEndAddsNothing(lines: seq<string>, comment: string)
    requires SkipLine(comment)
    ensures ParseLexicon(lines + [comment]) == ParseLexicon(lines)
  {
    assert (lines + [comment])[..|lines|] == lines;
  }

  /** One more line is one more turn of the loop. */
  lemma ParseSnoc(lines: seq<string>, line: string)
    ensures ParseLexicon(lines + [line]) ==
      if ParseLexicon(lines).None? then None else AddLine(ParseLexicon(lines).value, line)
  {
    assert (lines + [line])[..|lines|] == lines;
  }

  /** The last line split off the end. */
  lemma SplitLast(x: seq<string>, b: seq<string>)
    requires b != []
    ensures x + b == (x + b[..|b| - 1]) + [b[|b| - 1]]
  {
    assert b == b[..|b| - 1] + [b[|b| - 1]];
  }

  /** Comment lines add no entry wherever they occur. */
  lemma {:induction false} CommentLineAddsNothing(a: seq<string>, comment: string, b: seq<string>)
    requires SkipLine(comment)
    ensures ParseLexicon(a + [comment] + b) == ParseLexicon(a + b)
    decreases |b|
  {
    if b == [] {
      assert a + [comment] + b == a + [comment] && a + b == a;
      CommentAtEndAddsNothing(a, comment);
    } else {
      var init, last := b[..|b| - 1], b[|b| - 1];
      CommentLineAddsNothing(a, comment, init);
      SplitLast(a + [comment], b);
      SplitLast(a, b);
      ParseSnoc(a + [comment] + init, last);
      ParseSnoc(a + init, last);
    }
  }
}
