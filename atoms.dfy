/** Atoms: the single meaning references a definition line is made of, written either as an
    abstract sememe reference `~#eng|chi` or as a concrete word `(eng|chi)`. */
module Atoms {
  import opened Wrappers
  import opened Text

  /** One parsed meaning reference. `logic` is the `~`/`^` marker, `relSymbol` the relation
      symbol, `relPrimitive` the relation name when the atom is the value of `name=value`,
      `eng`/`chi` the English tag and the Chinese label, `isConcrete` the parenthesised form. */
  datatype Atom = Atom(
    logic: Option<char>,
    relPrimitive: Option<string>,
    relSymbol: Option<char>,
    eng: string,
    chi: Option<string>,
    isConcrete: bool)

  /** Why a definition line cannot be parsed; the source raises an IndexError in each case. */
  datatype ParseError =
    | EmptyToken     // `part[0]` (or `cur_part[0]`, `parts[0]`) of an empty string
    | TooFewTokens   // `line.split(None, 2)` gave fewer than three pieces
    | MissingValue   // a `(`-wrapped relational field lost its `=` when its ends were dropped

  /** The logic markers `~` (negation) and `^` (inverse). */
  predicate IsLogic(c: char) {
    c == '~' || c == '^'
  }

  /** The nine relation symbols `# % $ * + & @ ? !`. */
  predicate IsRelSymbol(c: char) {
    c == '#' || c == '%' || c == '$' || c == '*' || c == '+' || c == '&' || c == '@' || c == '?' || c == '!'
  }

  /** `Atom.parse(part)` run on a fresh atom whose `is_concrete` has already been set to
      `concrete`: a leading `(` drops the first and the last character and sets `is_concrete`;
      then an optional logic marker, then an optional relation symbol, each consumed with the
      whitespace after it; `eng` is the first `|`-piece and `chi` the second, both stripped.
      An empty remainder at any of the three first-character checks is an error. */
  function AtomOf(part: string, concrete: bool): (r: Result<Atom, ParseError>)
    ensures part == [] ==> r == Err(EmptyToken)
    ensures r.Ok? ==> (r.value.isConcrete <==> concrete || StartsWith(part, '('))
    ensures r.Ok? ==> WellMarked(r.value)
    ensures r.Err? ==> r.error == EmptyToken
  {
    if part == [] then Err(EmptyToken)
    else if part[0] == '(' then WithLogic(Strip(Inner(part)), true)
    else WithLogic(part, concrete)
  }

  /** The parse after the concrete check: the optional logic marker. */
  function WithLogic(text: string, concrete: bool): (r: Result<Atom, ParseError>)
    ensures r.Ok? ==> r.value.isConcrete == concrete && WellMarked(r.value)
    ensures r.Err? ==> r.error == EmptyToken
  {
    if text == [] then Err(EmptyToken)
    else if IsLogic(text[0]) then WithSymbol(Strip(text[1..]), Some(text[0]), concrete)
    else WithSymbol(text, None, concrete)
  }

  /** The parse after the logic marker: the optional relation symbol. */
  function WithSymbol(text: string, logic: Option<char>, concrete: bool): (r: Result<Atom, ParseError>)
    requires logic.Some? ==> IsLogic(logic.value)
    ensures r.Ok? ==> r.value.isConcrete == concrete && r.value.logic == logic && WellMarked(r.value)
    ensures r.Err? ==> r.error == EmptyToken
  {
    if text == [] then Err(EmptyToken)
    else if IsRelSymbol(text[0]) then Ok(WithNames(Strip(text[1..]), logic, Some(text[0]), concrete))
    else Ok(WithNames(text, logic, None, concrete))
  }

  /** The last step of the parse: `eng` and `chi` from the first two `|`-pieces, stripped. */
  function WithNames(text: string, logic: Option<char>, symbol: Option<char>, concrete: bool): (a: Atom)
    ensures a.logic == logic && a.relSymbol == symbol && a.isConcrete == concrete && a.relPrimitive.None?
    ensures '|' !in a.eng && (a.chi.Some? ==> '|' !in a.chi.value)
    ensures a.chi.Some? <==> '|' in text
  {
    var pairs := Split(text, '|');
    SplitPiecesLack(text, '|');
    StripKeepsOut(pairs[0], '|');
    if |pairs| > 1 then StripKeepsOut(pairs[1], '|'); Atom(logic, None, symbol, Strip(pairs[0]), Some(Strip(pairs[1])), concrete)
    else Atom(logic, None, symbol, Strip(pairs[0]), None, concrete)
  }

  /** Only the first two `|`-pieces are read: `eng` is the text before the first `|`, `chi` the
      text between the first and the second, and whatever follows a second `|` is dropped. */
  lemma NamesKeepTwo(x: string, y: string, z: string, logic: Option<char>, symbol: Option<char>, concrete: bool)
    requires '|' !in x && '|' !in y
    ensures WithNames(x + "|" + y + "|" + z, logic, symbol, concrete).eng == Strip(x)
    ensures WithNames(x + "|" + y + "|" + z, logic, symbol, concrete).chi == Some(Strip(y))
  {
    var text := x + "|" + y + "|" + z;
    var rest := y + "|" + z;
    assert text == x + ['|'] + rest;
    SplitAtFirst(x, '|', rest);
    SplitAtFirst(y, '|', z);
    var pairs := Split(text, '|');
    assert pairs == [x] + ([y] + Split(z, '|'));
    assert pairs[0] == x && pairs[1] == y;
  }

  /** What every parsed atom satisfies: valid markers, no relation name yet, and no `|` left
      in `eng` or `chi`. */
  predicate WellMarked(a: Atom) {
    && a.relPrimitive.None?
    && (a.logic.Some? ==> IsLogic(a.logic.value))
    && (a.relSymbol.Some? ==> IsRelSymbol(a.relSymbol.value))
    && '|' !in a.eng
    && (a.chi.Some? ==> '|' !in a.chi.value)
  }

  /** `Atom(); atom.is_concrete = concrete; atom.parse(part)`, step by step as the source
      reassigns `part`. */
  method ParseAtom(part: string, concrete: bool) returns (r: Result<Atom, ParseError>)
    ensures r == AtomOf(part, concrete)
  {
    var text := part;
    var isConcrete := concrete;
    if text == [] {
      return Err(EmptyToken);
    }
    if text[0] == '(' {
      text := Strip(Inner(text));
      isConcrete := true;
    }
    assert AtomOf(part, concrete) == WithLogic(text, isConcrete);
    var logic: Option<char> := None;
    if text == [] {
      return Err(EmptyToken);
    }
    if IsLogic(text[0]) {
      logic := Some(text[0]);
      text := Strip(text[1..]);
    }
    assert AtomOf(part, concrete) == WithSymbol(text, logic, isConcrete);
    var symbol: Option<char> := None;
    if text == [] {
      return Err(EmptyToken);
    }
    if IsRelSymbol(text[0]) {
      symbol := Some(text[0]);
      text := Strip(text[1..]);
    }
    assert AtomOf(part, concrete) == Ok(WithNames(text, logic, symbol, isConcrete));
    var atom := ReadNames(text, logic, symbol, isConcrete);
    r := Ok(atom);
  }

  /** The end of `Atom.parse`: the `|`-pieces of what is left give `eng` and `chi`. A separate
      method only so that `ParseAtom`'s proof stays small; `WithNames` states what it reads. */
  method ReadNames(text: string, logic: Option<char>, symbol: Option<char>, concrete: bool) returns (a: Atom)
    ensures a == WithNames(text, logic, symbol, concrete)
  {
    var pairs := Split(text, '|');
    var chi := if |pairs| > 1 then Some(Strip(pairs[1])) else None;
    a := Atom(logic, None, symbol, Strip(pairs[0]), chi, concrete);
  }

  /** The text `Atom.__str__` puts between its quotes: `name=` when there is a non-empty
      relation name, then the body, all wrapped in parentheses for a concrete atom. */
  function Spelling(a: Atom): string {
    var rel := if a.relPrimitive.Some? && a.relPrimitive.value != [] then a.relPrimitive.value + "=" else "";
    if a.isConcrete then "(" + rel + Body(a) + ")" else rel + Body(a)
  }

  /** The markers, `eng`, and `|chi` when `chi` is non-empty. */
  function Body(a: Atom): string {
    (if a.logic.Some? then [a.logic.value] else []) + Symbol(a) + Tail(a)
  }

  /** The relation symbol as text. */
  function Symbol(a: Atom): string {
    if a.relSymbol.Some? then [a.relSymbol.value] else []
  }

  /** `eng`, and `|chi` when `chi` is non-empty. */
  function Tail(a: Atom): string {
    a.eng + (if a.chi.Some? && a.chi.value != [] then "|" + a.chi.value else "")
  }

  /** `Atom.__str__`: the spelling in double quotes. */
  function Str(a: Atom): (r: string)
    ensures |r| >= 2 && r[0] == '"' && r[|r| - 1] == '"' && r[1..|r| - 1] == Spelling(a)
  {
    "\"" + Spelling(a) + "\""
  }

  /** What `__str__` writes between its quotes reads back as the atom. */
  lemma StrRoundTrip(a: Atom)
    requires Printable(a)
    ensures AtomOf(Str(a)[1..|Str(a)| - 1], false) == Ok(a)
  {
    SpellingRoundTrip(a);
  }

  /** Text that reads back as itself: non-empty, no `|`, nothing for `strip()` to remove. */
  predicate Plain(s: string) {
    s != [] && '|' !in s && !IsSpace(s[0]) && !IsSpace(s[|s| - 1])
  }

  /** A plain tag that the parser cannot mistake for a marker or a concrete wrapper. */
  predicate Tag(s: string) {
    Plain(s) && !IsLogic(s[0]) && !IsRelSymbol(s[0]) && s[0] != '('
  }

  /** The atoms whose spelling the parser reads back unchanged: valid markers, a tag for `eng`,
      a plain `chi` if any, and no relation name (a spelled relation name only reads back
      through the field grammar of a definition line). */
  predicate Printable(a: Atom) {
    && a.relPrimitive.None?
    && (a.logic.Some? ==> IsLogic(a.logic.value))
    && (a.relSymbol.Some? ==> IsRelSymbol(a.relSymbol.value))
    && Tag(a.eng)
    && (a.chi.Some? ==> Plain(a.chi.value))
  }

  /** A character that is not a parenthesis and is missing from the body is missing from the
      spelling of an atom without a relation name. */
  lemma SpellingLacks(a: Atom, c: char)
    requires a.relPrimitive.None? && c != '(' && c != ')' && c !in Body(a)
    ensures c !in Spelling(a)
  {
    if a.isConcrete {
      WrappedSpelling(a);
    } else {
      UnwrappedSpelling(a);
    }
  }

  /** The spelling of an atom named by a non-empty relation name `k`: `k=` before the body,
      inside the parentheses of a concrete atom. */
  lemma RelationalSpelling(a: Atom, k: string)
    requires k != []
    ensures var text := k + "=" + Body(a);
      Spelling(a.(relPrimitive := Some(k))) == if a.isConcrete then "(" + text + ")" else text
  {
    assert Body(a.(relPrimitive := Some(k))) == Body(a);
  }

  /** The spelling of `eng` and `chi` has no whitespace at either end. */
  lemma TailUnspaced(a: Atom)
    requires Printable(a)
    ensures Tail(a) != [] && !IsSpace(Tail(a)[0]) && !IsSpace(Tail(a)[|Tail(a)| - 1])
  {
  }

  /** `eng|chi` splits on `|` into exactly `eng` and `chi`. */
  lemma TailSplit(a: Atom)
    requires Printable(a)
    ensures Split(Tail(a), '|') == if a.chi.Some? then [a.eng, a.chi.value] else [a.eng]
  {
    if a.chi.Some? {
      assert Tail(a) == a.eng + ['|'] + a.chi.value;
      SplitAtFirst(a.eng, '|', a.chi.value);
    }
  }

  /** After the markers, the names read back as `eng` and `chi`. */
  lemma NamesRoundTrip(a: Atom)
    requires Printable(a)
    ensures WithNames(Tail(a), a.logic, a.relSymbol, a.isConcrete) == a
  {
    TailSplit(a);
    StripUnspaced(a.eng);
    if a.chi.Some? {
      StripUnspaced(a.chi.value);
    }
  }

  /** The relation symbol, when there is one, is consumed and nothing else is. */
  lemma SymbolRoundTrip(a: Atom)
    requires Printable(a)
    ensures WithSymbol(Symbol(a) + Tail(a), a.logic, a.isConcrete) == Ok(a)
  {
    NamesRoundTrip(a);
    TailUnspaced(a);
    if a.relSymbol.Some? {
      SymbolConsumed(a.relSymbol.value, Tail(a), a.logic, a.isConcrete);
    } else {
      NoSymbol(a);
    }
  }

  /** A relation symbol followed by unspaced text is consumed alone. */
  lemma SymbolConsumed(symbol: char, tail: string, logic: Option<char>, concrete: bool)
    requires IsRelSymbol(symbol) && (logic.Some? ==> IsLogic(logic.value))
    requires tail != [] && !IsSpace(tail[0]) && !IsSpace(tail[|tail| - 1])
    ensures WithSymbol([symbol] + tail, logic, concrete) == Ok(WithNames(tail, logic, Some(symbol), concrete))
  {
    assert ([symbol] + tail)[1..] == tail;
    StripUnspaced(tail);
  }

  /** Without a relation symbol the spelling goes straight to the names. */
  lemma NoSymbol(a: Atom)
    requires Printable(a) && a.relSymbol.None?
    ensures WithSymbol(Symbol(a) + Tail(a), a.logic, a.isConcrete) == Ok(WithNames(Tail(a), a.logic, None, a.isConcrete))
  {
    assert Symbol(a) + Tail(a) == Tail(a);
    assert Tail(a)[0] == a.eng[0];
  }

  /** The logic marker, when there is one, is consumed and nothing else is. */
  lemma LogicRoundTrip(a: Atom)
    requires Printable(a)
    ensures WithLogic(Body(a), a.isConcrete) == Ok(a)
  {
    SymbolRoundTrip(a);
    if a.logic.Some? {
      LogicConsumed(a);
    } else {
      NoLogic(a);
    }
  }

  /** The text after the logic marker has no whitespace at either end. */
  lemma AfterLogicUnspaced(a: Atom)
    requires Printable(a)
    ensures var rest := Symbol(a) + Tail(a);
      rest != [] && !IsSpace(rest[0]) && !IsSpace(rest[|rest| - 1]) && !IsLogic(rest[0])
  {
    TailUnspaced(a);
    var rest := Symbol(a) + Tail(a);
    assert rest[0] == if a.relSymbol.Some? then a.relSymbol.value else a.eng[0];
    assert rest[|rest| - 1] == Tail(a)[|Tail(a)| - 1];
  }

  /** A logic marker is consumed alone. */
  lemma LogicConsumed(a: Atom)
    requires Printable(a) && a.logic.Some?
    ensures WithLogic(Body(a), a.isConcrete) == WithSymbol(Symbol(a) + Tail(a), a.logic, a.isConcrete)
  {
    AfterLogicUnspaced(a);
    var rest := Symbol(a) + Tail(a);
    assert Body(a) == [a.logic.value] + rest;
    assert Body(a)[1..] == rest;
    StripUnspaced(rest);
  }

  /** Without a logic marker the spelling goes straight to the symbol. */
  lemma NoLogic(a: Atom)
    requires Printable(a) && a.logic.None?
    ensures WithLogic(Body(a), a.isConcrete) == WithSymbol(Symbol(a) + Tail(a), a.logic, a.isConcrete)
  {
    AfterLogicUnspaced(a);
    assert Body(a) == Symbol(a) + Tail(a);
  }

  /** The body of a printable atom, parsed with its own `is_concrete`, gives the atom back. */
  lemma BodyRead(a: Atom)
    requires Printable(a)
    ensures AtomOf(Body(a), a.isConcrete) == Ok(a)
  {
    BodyUnspaced(a);
    LogicRoundTrip(a);
  }

  /** Parsing the spelling of a printable atom gives the atom back. */
  lemma SpellingRoundTrip(a: Atom)
    requires Printable(a)
    ensures AtomOf(Spelling(a), false) == Ok(a)
  {
    BodyUnspaced(a);
    if a.isConcrete {
      ConcreteUnwrapped(a);
      LogicRoundTrip(a);
    } else {
      UnwrappedSpelling(a);
      BodyRead(a);
    }
  }

  /** The spelling between the parentheses has no whitespace at either end and does not
      start with `(`. */
  lemma BodyUnspaced(a: Atom)
    requires Printable(a)
    ensures var body := Body(a);
      body != [] && !IsSpace(body[0]) && !IsSpace(body[|body| - 1]) && body[0] != '('
  {
    AfterLogicUnspaced(a);
    var rest := Symbol(a) + Tail(a);
    assert Body(a) == (if a.logic.Some? then [a.logic.value] else []) + rest;
  }

  /** Without a relation name, a concrete atom is spelled as its body in parentheses. */
  lemma WrappedSpelling(a: Atom)
    requires a.relPrimitive.None? && a.isConcrete
    ensures Spelling(a) == "(" + Body(a) + ")"
  {
  }

  /** Without a relation name, an abstract atom is spelled as its body. */
  lemma UnwrappedSpelling(a: Atom)
    requires a.relPrimitive.None? && !a.isConcrete
    ensures Spelling(a) == Body(a)
  {
  }

  /** The parentheses of a concrete atom are dropped and nothing else is. */
  lemma ConcreteUnwrapped(a: Atom)
    requires Printable(a) && a.isConcrete
    ensures AtomOf(Spelling(a), false) == WithLogic(Body(a), true)
  {
    BodyUnspaced(a);
    WrappedSpelling(a);
    WrappedRead(Body(a));
  }

  /** Unspaced text in parentheses is read as concrete, with the parentheses dropped. */
  lemma WrappedRead(body: string)
    requires body != [] && !IsSpace(body[0]) && !IsSpace(body[|body| - 1])
    ensures AtomOf("(" + body + ")", false) == WithLogic(body, true)
  {
    var spelled := "(" + body + ")";
    assert spelled[0] == '(';
    assert Inner(spelled) == body;
    StripUnspaced(body);
  }
}
