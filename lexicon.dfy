/** Loading the glossary, the second half of `Primitive.init`: every line, stripped, is parsed
    into a sense, and the sense is appended to the list of its headword, in line order. The
    lines are given; reading them from the file is not part of this model. */
module Lexicon {
  import opened Wrappers
  import opened Text
  import opened Atoms
  import opened Words

  /** `all_words.get(w)` with a missing headword read as no senses. */
  function SensesOf(lexicon: map<string, seq<Sense>>, w: string): seq<Sense> {
    if w in lexicon then lexicon[w] else []
  }

  /** The lexicon built from parsed lines in order: the sense of each one appended to the
      list of its headword, the list created on the headword's first line. */
  function Gather(entries: seq<Entry>): map<string, seq<Sense>> {
    if entries == [] then map[]
    else
      var n := |entries| - 1;
      Filed(Gather(entries[..n]), entries[n].word, SenseOf(entries[n]))
  }

  /** The lexicon with `sense` appended to the senses of `w`. */
  function Filed(lexicon: map<string, seq<Sense>>, w: string, sense: Sense): map<string, seq<Sense>> {
    lexicon[w := SensesOf(lexicon, w) + [sense]]
  }

  /** One glossary line's bookkeeping: the list of the headword is created when it is new,
      then the sense is appended to it. */
  method File(lexicon: map<string, seq<Sense>>, w: string, sense: Sense) returns (m: map<string, seq<Sense>>)
    ensures m == Filed(lexicon, w, sense)
  {
    m := lexicon;
    if w !in m {
      m := m[w := []];
    }
    m := m[w := m[w] + [sense]];
  }

  /** One more line: its entry is gathered last. */
  lemma GatherNext(entries: seq<Entry>, e: Entry) returns (more: seq<Entry>)
    ensures more == entries + [e]
    ensures Gather(more) == Filed(Gather(entries), e.word, SenseOf(e))
  {
    more := entries + [e];
    assert more[..|entries|] == entries;
  }

  /** The senses of the lines whose headword is `w`, in line order. */
  function SensesFor(entries: seq<Entry>, w: string): seq<Sense> {
    if entries == [] then []
    else
      var n := |entries| - 1;
      SensesFor(entries[..n], w) + if entries[n].word == w then [SenseOf(entries[n])] else []
  }

  /** The lexicon lists, for every headword, the senses of exactly its lines, in line order,
      and knows a headword exactly when some line has it. */
  lemma {:induction false} GatherIsSensesFor(entries: seq<Entry>, w: string)
    ensures SensesOf(Gather(entries), w) == SensesFor(entries, w)
    ensures w in Gather(entries) <==> SensesFor(entries, w) != []
  {
    if entries != [] {
      GatherIsSensesFor(entries[..|entries| - 1], w);
    }
  }

  /** A headword has senses exactly when some line has it. */
  lemma {:induction false} SensesForSome(entries: seq<Entry>, w: string)
    ensures SensesFor(entries, w) != [] <==> exists i :: 0 <= i < |entries| && entries[i].word == w
  {
    if entries != [] {
      var n := |entries| - 1;
      SensesForSome(entries[..n], w);
      if exists i :: 0 <= i < n && entries[..n][i].word == w {
        var i :| 0 <= i < n && entries[..n][i].word == w;
        assert entries[i].word == w;
      }
      if exists i :: 0 <= i < |entries| && entries[i].word == w {
        var i :| 0 <= i < |entries| && entries[i].word == w;
        if i < n {
          assert entries[..n][i].word == w;
        }
      }
    }
  }

  /** One line of the glossary file, stripped and parsed. */
  function LineEntry(line: string): Result<Entry, ParseError> {
    EntryOf(Strip(line))
  }

  /** The glossary half of `Primitive.init`: the error of the first line that does not
      parse, or the lexicon of all the lines. */
  function Glossary(lines: seq<string>): Result<map<string, seq<Sense>>, ParseError> {
    var entries := ReadEach(LineEntry, lines);
    if entries.Err? then Err(entries.error) else Ok(Gather(entries.value))
  }

  /** A loaded lexicon knows a headword exactly when some line has it, and then lists at
      least one sense for it; the senses listed are those of its lines, in order. */
  lemma GlossaryWords(lines: seq<string>, w: string)
    requires Glossary(lines).Ok?
    ensures w in Glossary(lines).value <==>
      exists i :: 0 <= i < |lines| && LineEntry(lines[i]).Ok? && LineEntry(lines[i]).value.word == w
    ensures w in Glossary(lines).value ==> Glossary(lines).value[w] != []
    ensures SensesOf(Glossary(lines).value, w) == SensesFor(ReadEach(LineEntry, lines).value, w)
  {
    var entries := ReadEach(LineEntry, lines).value;
    ReadEachPointwise(LineEntry, lines);
    GatherIsSensesFor(entries, w);
    SensesForSome(entries, w);
  }

  /** `parse_word(line.strip())` and the headword it files the sense under. */
  method ReadLine(line: string) returns (r: Result<(string, Sense), ParseError>)
    ensures LineEntry(line).Err? ==> r == Err(LineEntry(line).error)
    ensures LineEntry(line).Ok? ==> r == Ok((LineEntry(line).value.word, SenseOf(LineEntry(line).value)))
  {
    var parsed := ParseWord(Strip(line));
    if parsed.Err? {
      return Err(parsed.error);
    }
    r := Ok((parsed.value.word, parsed.value.Snapshot()));
  }

  /** One turn of the glossary loop: line `i` is parsed and its sense filed, or its error
      is the error of the whole load. */
  method LoadLine(lexicon: map<string, seq<Sense>>, lines: seq<string>, i: nat, ghost entries: seq<Entry>)
    returns (r: Result<map<string, seq<Sense>>, ParseError>, ghost more: seq<Entry>)
    requires i < |lines| && ReadEach(LineEntry, lines[..i]) == Ok(entries) && lexicon == Gather(entries)
    ensures r.Err? ==> Glossary(lines) == Err(r.error)
    ensures r.Ok? ==> ReadEach(LineEntry, lines[..i + 1]) == Ok(more) && r.value == Gather(more)
  {
    ReadEachNext(LineEntry, lines, i, entries);
    var read := ReadLine(lines[i]);
    if read.Err? {
      return Err(read.error), entries;
    }
    var filed := File(lexicon, read.value.0, read.value.1);
    more := GatherNext(entries, LineEntry(lines[i]).value);
    r := Ok(filed);
  }

  /** The glossary loop of `Primitive.init`: each line is stripped and parsed, and its sense
      is appended to the list of its headword, created when the headword is new. */
  method LoadGlossary(lines: seq<string>) returns (r: Result<map<string, seq<Sense>>, ParseError>)
    ensures r == Glossary(lines)
  {
    var lexicon: map<string, seq<Sense>> := map[];
    ghost var entries: seq<Entry> := [];
    var i := 0;
    while i < |lines|
      invariant i <= |lines|
      invariant ReadEach(LineEntry, lines[..i]) == Ok(entries)
      invariant lexicon == Gather(entries)
    {
      var loaded;
      loaded, entries := LoadLine(lexicon, lines, i, entries);
      if loaded.Err? {
        return Err(loaded.error);
      }
      lexicon := loaded.value;
      i := i + 1;
    }
    assert lines[..i] == lines;
    r := Ok(lexicon);
  }
}
