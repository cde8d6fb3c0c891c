/** Turning the semiotic-class corpus into rows of a two-column CSV: each
    sentence is a `defaultdict(str)` that token lines extend with their
    original and normalised tokens; an `<eos>` line strips every value and
    closes the row. The file is given as the lines `readlines()` returns.
    The token getters, `no_normalisation`, `clean_sil` and `contains_eos`
    here are the same as in the shared utilities, and the model uses those
    (`SproatUtils.GetOriginalToken`, `SproatUtils.GetNormalisedToken`,
    `Utils.TokenNotNormalised`, `Utils.CleanSil`, `Utils.ContainsEos`). */
module CreateDataCsv {
  import opened Wrappers
  import opened Text
  import opened Utils
  import opened Sentences
  import opened SproatUtils
  import Parsers

  type Row = map<string, string>

  /** `d[key]` on a `defaultdict(str)`: a missing key reads as "". */
  function Get(d: Row, key: string): string {
    if key in d then d[key] else ""
  }

  /** A `defaultdict(str)`, updated in place by `+=`. */
  class DefaultDict {
    var entries: Row

    /** `defaultdict(str)`: no keys. */
    constructor ()
      ensures entries == map[]
    {
      entries := map[];
    }

    /** `d[key] += suffix`: a missing key first gets "". */
    method Append(key: string, suffix: string)
      modifies this
      ensures entries == old(entries)[key := Get(old(entries), key) + suffix]
    {
      entries := entries[key := Get(entries, key) + suffix];
    }
  }

  /** The two `+=` of `update_current_sentence`: each token is appended
      with one trailing space, and no other key changes. */
  function AppendTokens(d: Row, original: string, normalised: string): (r: Row)
    ensures r.Keys == d.Keys + {"original", "normalised"}
    ensures r["original"] == Get(d, "original") + (original + " ")
    ensures r["normalised"] == Get(d, "normalised") + (normalised + " ")
    ensures forall key | key in d && key != "original" && key != "normalised" :: r[key] == d[key]
  {
    assert "original"[0] != "normalised"[0];
    d["original" := Get(d, "original") + (original + " ")]["normalised" := Get(d, "normalised") + (normalised + " ")]
  }

  /** What `update_current_sentence` makes of a dictionary; nothing when
      the line does not unpack into three fields. */
  function UpdatedRow(d: Row, line: string): (r: Option<Row>)
    ensures r.Some? <==> WellFormed(line)
  {
    if WellFormed(line) then
      Some(AppendTokens(d, GetOriginalToken(line).value, GetNormalisedToken(line).value))
    else None
  }

  /** `update_current_sentence`: both getters run before the first change,
      so a line that does not unpack leaves the dictionary as it was. */
  method UpdateCurrentSentence(line: string, current: DefaultDict) returns (ok: bool)
    modifies current
    ensures ok <==> WellFormed(line)
    ensures ok ==> current.entries == UpdatedRow(old(current.entries), line).value
    ensures !ok ==> current.entries == old(current.entries)
  {
    var original := GetOriginalToken(line);
    var normalised := GetNormalisedToken(line);
    if original.None? || normalised.None? {
      return false;
    }
    current.Append("original", original.value + " ");
    assert "original"[0] != "normalised"[0];
    current.Append("normalised", normalised.value + " ");
    return true;
  }

  /** `finalise_sentence`: a fresh dictionary with the same keys, each
      value stripped. */
  function Finalise(d: Row): (r: Row)
    ensures r.Keys == d.Keys
    ensures forall key | key in r :: r[key] == Strip(d[key])
  {
    map key | key in d :: Strip(d[key])
  }

  /** A row whose values are already stripped is its own finalisation. */
  lemma FinaliseTrimmed(d: Row)
    requires forall key | key in d :: Trimmed(d[key])
    ensures Finalise(d) == d
  {
    forall key | key in d
      ensures Finalise(d)[key] == d[key]
    {
      StripNoOp(d[key]);
    }
  }

  /** Finalising a finalised row changes nothing. */
  lemma FinaliseIdempotent(d: Row)
    ensures Finalise(Finalise(d)) == Finalise(d)
  {
    FinaliseTrimmed(Finalise(d));
  }

  /** Every finalised value has the words it had, and no whitespace at
      either end. */
  lemma FinaliseKeepsWords(d: Row, key: string)
    requires key in d
    ensures Split(Finalise(d)[key]) == Split(d[key])
    ensures Trimmed(Finalise(d)[key])
  {
    SplitStrip(d[key]);
  }

  /** Where `load_sentences` stands after some lines: the rows so far,
      the dictionary under construction, and whether a token line failed to
      unpack (the ValueError, which ends the run). */
  datatype Loading = Loading(rows: seq<Row>, current: Row, failed: bool)

  /** One line of `load_sentences`: an `<eos>` line appends the finalised
      dictionary and starts an empty one; any other line is a token. */
  function LoadStep(r: Loading, line: string): Loading {
    if r.failed then r
    else if ContainsEos(line) then Loading(r.rows + [Finalise(r.current)], map[], false)
    else match UpdatedRow(r.current, line)
      case None => r.(failed := true)
      case Some(d) => r.(current := d)
  }

  /** The loop of `load_sentences` over all lines. */
  function Load(lines: seq<string>): Loading {
    if lines == [] then Loading([], map[], false)
    else LoadStep(Load(lines[..|lines| - 1]), lines[|lines| - 1])
  }

  /** Once a line has failed, later lines change nothing. */
  lemma {:induction false} LoadFailureSticks(lines: seq<string>, n: nat)
    requires n <= |lines| && Load(lines[..n]).failed
    ensures Load(lines) == Load(lines[..n])
    decreases |lines|
  {
    if n < |lines| {
      var init := lines[..|lines| - 1];
      assert init[..n] == lines[..n];
      LoadFailureSticks(init, n);
    } else {
      assert lines[..n] == lines;
    }
  }

  /** `load_sentences` over the file's lines: the rows `Load` says, in file
      order; `ok` is false when a token line does not unpack (the
      ValueError), and the rows are then those closed before it. */
  method LoadSentences(lines: seq<string>) returns (sentences: seq<Row>, ok: bool)
    ensures ok == !Load(lines).failed
    ensures sentences == Load(lines).rows
  {
    sentences := [];
    var current := new DefaultDict();
    ghost var r := Load([]);
    for i := 0 to |lines|
      invariant r == Load(lines[..i]) && !r.failed
      invariant sentences == r.rows
      invariant fresh(current) && current.entries == r.current
    {
      assert lines[..i + 1][..i] == lines[..i];
      ghost var next := LoadStep(r, lines[i]);
      assert Load(lines[..i + 1]) == next;
      if ContainsEos(lines[i]) {
        var finalSentence := Finalise(current.entries);
        sentences := sentences + [finalSentence];
        current := new DefaultDict();
      } else {
        var updated := UpdateCurrentSentence(lines[i], current);
        if !updated {
          LoadFailureSticks(lines, i + 1);
          return sentences, false;
        }
      }
      r := next;
    }
    assert lines[..|lines|] == lines;
    return sentences, true;
  }

  /** The dictionary `load_sentences` holds for a sentence the Sproat
      reader holds: no keys before the first token, then the two texts. */
  function AsRow(s: Record): Row {
    if s.original == "" then map[] else map["original" := s.original, "normalised" := s.normalised]
  }

  /** A sentence under construction has both texts empty or neither. */
  predicate BothOrNeither(s: Record) {
    s.original == "" ==> s.normalised == ""
  }

  /** Appending tokens acts alike on both readers' sentences. */
  lemma AppendAsRow(s: Record, original: string, normalised: string)
    requires BothOrNeither(s)
    ensures var u := s.(original := s.original + original + " ", normalised := s.normalised + normalised + " ");
      BothOrNeither(u) && AppendTokens(AsRow(s), original, normalised) == AsRow(u)
  {
    var u := s.(original := s.original + original + " ", normalised := s.normalised + normalised + " ");
    assert u.original != "";
    ConcatAssoc(s.original, original, " ");
    ConcatAssoc(s.normalised, normalised, " ");
    assert "original"[0] != "normalised"[0];
  }

  /** A token line acts alike on both readers' sentences. */
  lemma UpdatedAsRow(s: Record, line: string)
    requires BothOrNeither(s) && WellFormed(line)
    ensures BothOrNeither(Updated(s, line).value)
    ensures UpdatedRow(AsRow(s), line) == Some(AsRow(Updated(s, line).value))
  {
    AppendAsRow(s, GetOriginalToken(line).value, GetNormalisedToken(line).value);
  }

  /** Row `i` is sentence `i`, finalised. */
  predicate RowsOf(rows: seq<Row>, closed: seq<Record>) {
    |rows| == |closed| && forall i | 0 <= i < |rows| :: rows[i] == Finalise(AsRow(closed[i]))
  }

  lemma RowsOfAppend(rows: seq<Row>, closed: seq<Record>, s: Record)
    requires RowsOf(rows, closed)
    ensures RowsOf(rows + [Finalise(AsRow(s))], closed + [s])
  {
  }

  /** The two readers agree step by step. */
  predicate Agree(c: Loading, r: Parsers.Reading) {
    c.failed == r.failed && RowsOf(c.rows, r.closed) &&
    (!c.failed ==> c.current == AsRow(r.current) && BothOrNeither(r.current))
  }

  /** One line keeps the two readers in agreement. */
  lemma AgreeStep(c: Loading, r: Parsers.Reading, line: string)
    requires Agree(c, r)
    ensures Agree(LoadStep(c, line), Parsers.ReadStep(r, line, Updated))
  {
    if c.failed {
    } else if ContainsEos(line) {
      RowsOfAppend(c.rows, r.closed, r.current);
      assert AsRow(EmptyRecord) == map[];
    } else if WellFormed(line) {
      UpdatedAsRow(r.current, line);
    } else {
      assert UpdatedRow(c.current, line).None? && Updated(r.current, line).None?;
    }
  }

  /** `load_sentences` and `SproatParser.parse_file` read the same file the
      same way: the same lines fail, and row `i` is sentence `i` of the
      Sproat reader with its texts stripped and its classes left out (an
      empty dictionary when the sentence had no tokens). */
  lemma {:induction false} LoadAgreesWithSproat(lines: seq<string>)
    ensures Agree(Load(lines), Parsers.SproatRead(lines))
  {
    if lines != [] {
      var init := lines[..|lines| - 1];
      LoadAgreesWithSproat(init);
      AgreeStep(Load(init), Parsers.SproatRead(init), lines[|lines| - 1]);
    }
  }

  /** One row per `<eos>` line, when no line fails. */
  lemma OneRowPerEos(lines: seq<string>)
    requires !Load(lines).failed
    ensures |Load(lines).rows| == Parsers.EosCount(lines)
  {
    LoadAgreesWithSproat(lines);
    Parsers.OnePerEos(lines);
  }

  /** Token lines after the last `<eos>` never reach a row. */
  lemma TrailingTokensDropped(lines: seq<string>, tail: seq<string>)
    requires forall i | 0 <= i < |tail| :: !ContainsEos(tail[i])
    ensures Load(lines + tail).rows == Load(lines).rows
  {
    LoadAgreesWithSproat(lines);
    LoadAgreesWithSproat(lines + tail);
    Parsers.TrailingTokensDropped(lines, tail);
  }

  /** An `<eos>` right after an `<eos>` (or at the start) closes an empty
      row. */
  lemma EmptySentenceEmptyRow(prefix: seq<string>, eos: string)
    requires !Load(prefix).failed && Load(prefix).current == map[]
    requires ContainsEos(eos)
    ensures Load(prefix + [eos]).rows == Load(prefix).rows + [map[]]
  {
    assert (prefix + [eos])[..|prefix|] == prefix;
  }
}
