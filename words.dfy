/** Word senses: one lexicon line `word pos definition` parsed into a first primitive and
    three collections of atoms, the way `Primitive.parse_word` and `Word.add_primitive`
    build them. */
module Words {
  import opened Wrappers
  import opened Text
  import opened Atoms

  /** The collection `Word.add_primitive` files an atom into: the list of other primitives,
      the relational map under a relation name, or the symbol map under a symbol key. */
  datatype Slot = OtherSlot | RelationalSlot(key: string) | SymbolSlot(key: string)

  /** An atom with a relation name is relational, else one with a relation symbol is filed
      under the logic marker (if any) followed by the symbol, else it is an other primitive. */
  function SlotOf(a: Atom): (s: Slot)
    ensures s.RelationalSlot? <==> a.relPrimitive.Some?
    ensures s.SymbolSlot? <==> a.relPrimitive.None? && a.relSymbol.Some?
    ensures s.SymbolSlot? ==> |s.key| >= 1 && s.key[|s.key| - 1] == a.relSymbol.value
    ensures s.RelationalSlot? ==> s.key == a.relPrimitive.value
    ensures s.SymbolSlot? ==> s.key == (if a.logic.Some? then [a.logic.value] else []) + [a.relSymbol.value]
  {
    if a.relPrimitive.Some? then RelationalSlot(a.relPrimitive.value)
    else if a.relSymbol.Some? then SymbolSlot((if a.logic.Some? then [a.logic.value] else []) + [a.relSymbol.value])
    else OtherSlot
  }

  /** The atoms of `atoms` filed into `slot`, in order. */
  function Select(atoms: seq<Atom>, slot: Slot): (r: seq<Atom>)
    ensures |r| <= |atoms|
  {
    if atoms == [] then []
    else
      var n := |atoms| - 1;
      Select(atoms[..n], slot) + (if SlotOf(atoms[n]) == slot then [atoms[n]] else [])
  }

  /** Whether a slot belongs to the relational map (`relational`) or to the symbol map. */
  predicate InGroup(s: Slot, relational: bool) {
    if relational then s.RelationalSlot? else s.SymbolSlot?
  }

  /** The slot of key `k` in the relational map (`relational`) or in the symbol map. */
  function GroupSlot(k: string, relational: bool): (s: Slot)
    ensures InGroup(s, relational) && s.key == k
  {
    if relational then RelationalSlot(k) else SymbolSlot(k)
  }

  /** One of the two maps after filing `atoms` one by one: an atom that belongs to it creates
      its key if absent and appends itself to that key's list. */
  function Grouped(atoms: seq<Atom>, relational: bool): map<string, seq<Atom>> {
    if atoms == [] then map[]
    else
      var n := |atoms| - 1;
      var m := Grouped(atoms[..n], relational);
      var s := SlotOf(atoms[n]);
      if InGroup(s, relational) then m[s.key := Lookup(m, s.key) + [atoms[n]]] else m
  }

  /** `m.get(k)` with a missing key read as the empty list. */
  function Lookup(m: map<string, seq<Atom>>, k: string): seq<Atom> {
    if k in m then m[k] else []
  }

  /** Filing one more atom appends it to its own slot and to no other. */
  lemma SelectSnoc(atoms: seq<Atom>, a: Atom, slot: Slot)
    ensures Select(atoms + [a], slot) == Select(atoms, slot) + (if SlotOf(a) == slot then [a] else [])
  {
    assert (atoms + [a])[..|atoms|] == atoms;
  }

  /** A slot no atom is filed into stays empty. */
  lemma {:induction false} SelectNone(atoms: seq<Atom>, slot: Slot)
    requires forall a :: a in atoms ==> SlotOf(a) != slot
    ensures Select(atoms, slot) == []
  {
    if atoms != [] {
      var n := |atoms| - 1;
      assert forall a :: a in atoms[..n] ==> a in atoms;
      SelectNone(atoms[..n], slot);
    }
  }

  /** A slot holds only atoms of `atoms` filed into that slot. */
  lemma {:induction false} SelectSound(atoms: seq<Atom>, slot: Slot)
    ensures forall a :: a in Select(atoms, slot) ==> a in atoms && SlotOf(a) == slot
  {
    if atoms != [] {
      var n := |atoms| - 1;
      SelectSound(atoms[..n], slot);
      assert forall a :: a in atoms[..n] ==> a in atoms;
    }
  }

  /** Every atom of `atoms` is in the slot it is filed into. */
  lemma {:induction false} SelectComplete(atoms: seq<Atom>, i: nat)
    requires i < |atoms|
    ensures atoms[i] in Select(atoms, SlotOf(atoms[i]))
  {
    var n := |atoms| - 1;
    if i < n {
      SelectComplete(atoms[..n], i);
    }
  }

  /** Filing one more atom into a map touches only its own key. */
  lemma GroupedSnoc(atoms: seq<Atom>, a: Atom, relational: bool)
    ensures Grouped(atoms + [a], relational) ==
      if InGroup(SlotOf(a), relational)
      then Grouped(atoms, relational)[SlotOf(a).key := Lookup(Grouped(atoms, relational), SlotOf(a).key) + [a]]
      else Grouped(atoms, relational)
  {
    assert (atoms + [a])[..|atoms|] == atoms;
  }

  /** Each map groups the atoms by key: the list of key `k` holds exactly the atoms filed
      under `k`, in order, and the keys present are exactly those with at least one atom. */
  lemma {:induction false} GroupedIsSelect(atoms: seq<Atom>, relational: bool, k: string)
    ensures Lookup(Grouped(atoms, relational), k) == Select(atoms, GroupSlot(k, relational))
    ensures k in Grouped(atoms, relational) <==> Select(atoms, GroupSlot(k, relational)) != []
  {
    if atoms != [] {
      var n := |atoms| - 1;
      GroupedIsSelect(atoms[..n], relational, k);
    }
  }

  /** The sense a parsed line describes: its kind, its first primitive, and its later atoms
      filed into the three collections. */
  function SenseOf(e: Entry): Sense {
    Sense(e.structural, e.first, Select(e.rest, OtherSlot), Grouped(e.rest, true), Grouped(e.rest, false))
  }

  /** What the similarity measures read of a loaded sense: whether it is a function word,
      its first primitive and its three collections. A sense is not changed once the
      lexicon holds it, so the lexicon keeps it as this value. */
  datatype Sense = Sense(
    isStructural: bool,
    firstPrimitive: Atom,
    otherPrimitives: seq<Atom>,
    relationalPrimitives: map<string, seq<Atom>>,
    symbolPrimitives: map<string, seq<Atom>>)

  /** A word sense (`Word`): the headword, its part-of-speech tag (`type` in the source),
      whether it is a function word, its first primitive and the three collections. */
  class Word {
    var word: string
    var pos: string
    var isStructural: bool
    var firstPrimitive: Option<Atom>
    var otherPrimitives: seq<Atom>
    var relationalPrimitives: map<string, seq<Atom>>
    var symbolPrimitives: map<string, seq<Atom>>

    /** The three collections hold exactly the atoms of `added`, each filed into its slot,
        in the order they were added. */
    ghost predicate Collects(added: seq<Atom>)
      reads this`otherPrimitives, this`relationalPrimitives, this`symbolPrimitives
    {
      (otherPrimitives, relationalPrimitives, symbolPrimitives)
        == (Select(added, OtherSlot), Grouped(added, true), Grouped(added, false))
    }

    /** The sense holds the parsed line `e`: its headword and tag, and the sense `e` describes. */
    ghost predicate Holds(e: Entry)
      reads this
    {
      firstPrimitive.Some? && (word, pos, Snapshot()) == (e.word, e.pos, SenseOf(e))
    }

    /** Sets the headword, the tag and the kind of a sense whose primitives are those of
        `e`; the sense then holds `e`. */
    method Label(e: Entry)
      requires firstPrimitive == Some(e.first) && Collects(e.rest)
      modifies this`word, this`pos, this`isStructural
      ensures Holds(e)
    {
      word := e.word;
      pos := e.pos;
      isStructural := e.structural;
    }

    /** The value the lexicon keeps of this sense once its first primitive is set. */
    function Snapshot(): Sense
      requires firstPrimitive.Some?
      reads this
    {
      Sense(isStructural, firstPrimitive.value, otherPrimitives, relationalPrimitives, symbolPrimitives)
    }

    /** An empty sense: empty headword and tag, not a function word, no primitives. */
    constructor ()
      ensures word == [] && pos == [] && !isStructural && firstPrimitive == None
      ensures otherPrimitives == [] && relationalPrimitives == map[] && symbolPrimitives == map[]
    {
      word := [];
      pos := [];
      isStructural := false;
      firstPrimitive := None;
      otherPrimitives := [];
      relationalPrimitives := map[];
      symbolPrimitives := map[];
    }

    /** Appends `a` to the other primitives. */
    method AddOtherPrimitive(a: Atom)
      modifies this`otherPrimitives
      ensures otherPrimitives == old(otherPrimitives) + [a]
    {
      otherPrimitives := otherPrimitives + [a];
    }

    /** Appends `a` to the list of relation `key`, creating the list if the key is absent. */
    method AddRelationalPrimitive(key: string, a: Atom)
      modifies this`relationalPrimitives
      ensures relationalPrimitives == old(relationalPrimitives)[key := Lookup(old(relationalPrimitives), key) + [a]]
    {
      if key !in relationalPrimitives {
        relationalPrimitives := relationalPrimitives[key := []];
      }
      relationalPrimitives := relationalPrimitives[key := relationalPrimitives[key] + [a]];
    }

    /** Appends `a` to the list of symbol `key`, creating the list if the key is absent. */
    method AddSymbolPrimitive(key: string, a: Atom)
      modifies this`symbolPrimitives
      ensures symbolPrimitives == old(symbolPrimitives)[key := Lookup(old(symbolPrimitives), key) + [a]]
    {
      if key !in symbolPrimitives {
        symbolPrimitives := symbolPrimitives[key := []];
      }
      symbolPrimitives := symbolPrimitives[key := symbolPrimitives[key] + [a]];
    }

    /** Files `a` into exactly one collection, the one `SlotOf` names; a sense that held the
        atoms `added` then holds `added + [a]`. */
    method AddPrimitive(a: Atom, ghost added: seq<Atom>)
      requires Collects(added)
      modifies this`otherPrimitives, this`relationalPrimitives, this`symbolPrimitives
      ensures Collects(added + [a])
      ensures otherPrimitives == old(otherPrimitives) + (if SlotOf(a) == OtherSlot then [a] else [])
      ensures relationalPrimitives == if SlotOf(a).RelationalSlot?
        then old(relationalPrimitives)[SlotOf(a).key := Lookup(old(relationalPrimitives), SlotOf(a).key) + [a]]
        else old(relationalPrimitives)
      ensures symbolPrimitives == if SlotOf(a).SymbolSlot?
        then old(symbolPrimitives)[SlotOf(a).key := Lookup(old(symbolPrimitives), SlotOf(a).key) + [a]]
        else old(symbolPrimitives)
    {
      SelectSnoc(added, a, OtherSlot);
      GroupedSnoc(added, a, true);
      GroupedSnoc(added, a, false);
      if a.relPrimitive.Some? {
        AddRelationalPrimitive(a.relPrimitive.value, a);
      } else if a.relSymbol.Some? {
        var key := (if a.logic.Some? then [a.logic.value] else []) + [a.relSymbol.value];
        AddSymbolPrimitive(key, a);
      } else {
        AddOtherPrimitive(a);
      }
      assert otherPrimitives == Select(added + [a], OtherSlot);
      assert relationalPrimitives == Grouped(added + [a], true);
      assert symbolPrimitives == Grouped(added + [a], false);
    }
  }

  /** How much of the definition the pieces `parts_r` still hold: the loop of
      `parse_word` makes it smaller on every turn. */
  function Pending(partsR: seq<string>): nat {
    if partsR == [] then 0 else if |partsR| == 1 then 1 else |partsR[1]| + 2
  }

  /** The fields the loop of `parse_word` visits from the pieces `parts_r`, in order: the
      stripped first piece, then those of `parts_r[1].strip().split(',', 1)`. */
  function Segments(partsR: seq<string>): (r: seq<string>)
    ensures partsR != [] ==> |r| >= 1
    decreases Pending(partsR)
  {
    if partsR == [] then []
    else if |partsR| == 1 then [Strip(partsR[0])]
    else [Strip(partsR[0])] + Segments(SplitOnce(Strip(partsR[1]), ','))
  }

  /** The fields of a definition body, as the loop of `parse_word` visits them. */
  function Fields(body: string): (r: seq<string>)
    ensures |r| >= 1
  {
    Segments(SplitOnce(body, ','))
  }

  /** The loop visits every comma-separated piece of the body exactly once, in order,
      stripped: `[p.strip() for p in body.split(',')]`. */
  lemma {:induction false} FieldsAreStrippedPieces(body: string)
    ensures Fields(body) == StripAll(Split(body, ','))
    decreases |body|
  {
    if ',' in body {
      var x, z := CutAt(body, ',');
      FieldsCut(x, z);
      FieldsAreStrippedPieces(Strip(z));
      SplitStrip(z, ',');
      SplitAtFirst(x, ',', z);
      StripAllCons(x, Split(z, ','));
    } else {
      StripAllCons(body, []);
    }
  }

  /** The first field is the stripped text before the first comma; the loop goes on with
      the stripped text after it. */
  lemma FieldsCut(x: string, z: string)
    requires ',' !in x
    ensures Fields(x + [','] + z) == [Strip(x)] + Fields(Strip(z))
  {
    var body := x + [','] + z;
    assert body[..|x|] == x && body[|x|] == ',' && body[|x| + 1..] == z;
    assert Find(body, ',') == |x|;
  }

  /** A later field of a definition line (`parse_word`, the `else` branch of the loop):
      with an `=` it is `name=value`, optionally wrapped in parentheses that make the value
      concrete; the name is parsed as an atom first, then the value, which takes the
      name's `eng` as its relation name. Without an `=` it is a single atom. */
  function FieldAtom(field: string): (r: Result<Atom, ParseError>)
    ensures '=' !in field ==> r == AtomOf(field, false)
    ensures r.Ok? && '=' in field ==> r.value.relPrimitive.Some?
    ensures r.Ok? && '=' !in field ==> r.value.relPrimitive.None?
  {
    if '=' !in field then AtomOf(field, false)
    else
      var concrete := field[0] == '(';
      var text := if concrete then Strip(Inner(field)) else field;
      var pieces := Split(text, '=');
      var name := AtomOf(Strip(pieces[0]), false);
      if name.Err? then Err(name.error)
      else if |pieces| < 2 then Err(MissingValue)
      else
        var value := AtomOf(Strip(pieces[1]), concrete);
        if value.Err? then value
        else Ok(value.value.(relPrimitive := Some(name.value.eng)))
  }

  /** Lines 203-213 of `parse_word`, step by step. */
  method ParseField(field: string) returns (r: Result<Atom, ParseError>)
    ensures r == FieldAtom(field)
  {
    if '=' !in field {
      r := ParseAtom(field, false);
      return;
    }
    var concrete := false;
    var text := field;
    if text[0] == '(' {
      concrete := true;
      text := Strip(Inner(text));
    }
    var pieces := Split(text, '=');
    var name := ParseAtom(Strip(pieces[0]), false);
    if name.Err? {
      return Err(name.error);
    }
    if |pieces| < 2 {
      return Err(MissingValue);
    }
    r := ParseAtom(Strip(pieces[1]), concrete);
    if r.Ok? {
      r := Ok(r.value.(relPrimitive := Some(name.value.eng)));
    }
  }

  /** A field without `=` is read as the atom it spells. */
  lemma PlainFieldRoundTrip(a: Atom)
    requires Printable(a) && '=' !in Body(a)
    ensures FieldAtom(Spelling(a)) == Ok(a)
  {
    SpellingLacks(a, '=');
    SpellingRoundTrip(a);
  }

  /** The spelling `name=value` (inside parentheses for a concrete value) of an atom that a
      relation tag `k` names is read back by the field grammar as that atom. */
  lemma RelationalRoundTrip(a: Atom, k: string)
    requires Printable(a) && Tag(k) && '=' !in k && '=' !in Body(a)
    ensures FieldAtom(Spelling(a.(relPrimitive := Some(k)))) == Ok(a.(relPrimitive := Some(k)))
  {
    RelationalSpelling(a, k);
    BodyUnspaced(a);
    BodyRead(a);
    FieldOfPair(k, Body(a), a.isConcrete);
  }

  /** The field `name=value`, or `(name=value)` for a concrete value, whose name is a
      relation tag `k` and whose value `v` has no `=` and no surrounding whitespace: the
      value parsed as an atom, named by `k`. */
  lemma FieldOfPair(k: string, v: string, concrete: bool)
    requires Tag(k) && '=' !in k && '=' !in v && v != [] && !IsSpace(v[0]) && !IsSpace(v[|v| - 1])
    ensures var text := k + "=" + v;
      FieldAtom(if concrete then "(" + text + ")" else text)
        == (var value := AtomOf(v, concrete); if value.Err? then value else Ok(value.value.(relPrimitive := Some(k))))
  {
    var text := k + "=" + v;
    PairSplit(k, v);
    StripUnspaced(k);
    StripUnspaced(v);
    NameRead(k);
    if concrete {
      var field := "(" + text + ")";
      assert field[0] == '(' && '=' in field;
      assert Inner(field) == text;
      StripUnspaced(text);
    }
  }

  /** The field reading once both sides are known: the name is parsed first, then the
      value, which takes the name's `eng` as its relation name. */
  function NamedValue(name: string, value: string, concrete: bool): Result<Atom, ParseError> {
    var n := AtomOf(Strip(name), false);
    if n.Err? then Err(n.error)
    else
      var v := AtomOf(Strip(value), concrete);
      if v.Err? then v else Ok(v.value.(relPrimitive := Some(n.value.eng)))
  }

  /** A field with an `=` whose text splits into at least two pieces, `x` and `y` first, is
      read from those two. */
  lemma FieldIsNamed(field: string, text: string, concrete: bool, x: string, y: string)
    requires '=' in field && concrete == (field[0] == '(')
    requires text == if concrete then Strip(Inner(field)) else field
    requires |Split(text, '=')| >= 2 && Split(text, '=')[0] == x && Split(text, '=')[1] == y
    ensures FieldAtom(field) == NamedValue(x, y, concrete)
  {
    var name := AtomOf(Strip(x), false);
    if name.Ok? {
      var value := AtomOf(Strip(y), concrete);
      assert FieldAtom(field) == (if value.Err? then value else Ok(value.value.(relPrimitive := Some(name.value.eng))));
    }
  }

  /** Only the first two `=`-pieces of a field are read: the name is the text before the
      first `=`, the value the text between the first and the second, and whatever follows
      a second `=` is dropped. The relation name is the `eng` of the parsed name, so a name
      written with markers, such as `~host`, names the relation `host`. */
  lemma {:induction false} FieldKeepsTwo(x: string, y: string, z: string)
    requires '=' !in x && '=' !in y && (x == [] || x[0] != '(')
    ensures FieldAtom(x + "=" + y + "=" + z) == NamedValue(x, y, false)
  {
    var field := x + "=" + y + "=" + z;
    ThreePieces(x, y, z);
    FieldIsNamed(field, field, false, x, y);
  }

  /** The same for a parenthesised field `(x=y=z)`: the value is read as concrete. */
  lemma {:induction false} WrappedFieldKeepsTwo(x: string, y: string, z: string)
    requires '=' !in x && '=' !in y
    requires (x == [] || !IsSpace(x[0])) && (z == [] || !IsSpace(z[|z| - 1]))
    ensures FieldAtom("(" + (x + "=" + y + "=" + z) + ")") == NamedValue(x, y, true)
  {
    var text := x + "=" + y + "=" + z;
    WrappedPieces(x, y, z);
    FieldIsNamed("(" + text + ")", text, true, x, y);
  }

  /** What `FieldIsNamed` needs of `(x=y=z)`. */
  lemma WrappedPieces(x: string, y: string, z: string)
    requires '=' !in x && '=' !in y
    requires (x == [] || !IsSpace(x[0])) && (z == [] || !IsSpace(z[|z| - 1]))
    ensures var text := x + "=" + y + "=" + z; var field := "(" + text + ")";
      && '=' in field && field[0] == '(' && text == Strip(Inner(field))
      && |Split(text, '=')| >= 2 && Split(text, '=')[0] == x && Split(text, '=')[1] == y
  {
    ThreePieces(x, y, z);
    ThreeUnspaced(x, y, z);
    Wrapped(x + "=" + y + "=" + z);
  }

  /** `x=y=z` has no whitespace at either end when `x` does not start and `z` does not end
      with whitespace. */
  lemma ThreeUnspaced(x: string, y: string, z: string)
    requires (x == [] || !IsSpace(x[0])) && (z == [] || !IsSpace(z[|z| - 1]))
    ensures var text := x + "=" + y + "=" + z; text != [] && !IsSpace(text[0]) && !IsSpace(text[|text| - 1])
  {
    var text := x + "=" + y + "=" + z;
    assert text[|x|] == '=';
    if x == [] { assert text[0] == '='; } else { assert text[0] == x[0]; }
    if z == [] { assert text[|text| - 1] == '='; } else { assert text[|text| - 1] == z[|z| - 1]; }
  }

  /** `x=y=z` splits on `=` into `x`, `y` and the pieces of `z`. */
  lemma ThreePieces(x: string, y: string, z: string)
    requires '=' !in x && '=' !in y
    ensures var text := x + "=" + y + "=" + z;
      && |Split(text, '=')| >= 2 && Split(text, '=')[0] == x && Split(text, '=')[1] == y
      && '=' in text
  {
    var text := x + "=" + y + "=" + z;
    var rest := y + "=" + z;
    assert text == x + ['='] + rest;
    SplitAtFirst(x, '=', rest);
    SplitAtFirst(y, '=', z);
    assert Split(text, '=') == [x] + ([y] + Split(z, '='));
    assert text[|x|] == '=';
  }

  /** Text in parentheses: a field starting with `(` whose inside is the text. */
  lemma Wrapped(text: string)
    requires '=' in text
    requires !IsSpace(text[0]) && !IsSpace(text[|text| - 1])
    ensures var field := "(" + text + ")"; field[0] == '(' && '=' in field && Strip(Inner(field)) == text
  {
    StripUnspaced(text);
    var field := "(" + text + ")";
    var k :| 0 <= k < |text| && text[k] == '=';
    assert field[k + 1] == '=';
  }

  /** The relation name is the `eng` of the atom the name spells: its markers and any
      `|chi` are dropped, so `~host=value=...` is the value named `host`. */
  lemma RelationNameIsEng(a: Atom, y: string, z: string)
    requires Printable(a) && !a.isConcrete && '=' !in Body(a) && '=' !in y
    ensures FieldAtom(Body(a) + "=" + y + "=" + z)
      == (var v := AtomOf(Strip(y), false); if v.Err? then v else Ok(v.value.(relPrimitive := Some(a.eng))))
  {
    BodyUnspaced(a);
    StripUnspaced(Body(a));
    BodyRead(a);
    FieldKeepsTwo(Body(a), y, z);
    NamedValueOf(Body(a), y, false, a);
  }

  /** `NamedValue` once the name is known to read as `a`. */
  lemma NamedValueOf(x: string, y: string, concrete: bool, a: Atom)
    requires AtomOf(Strip(x), false) == Ok(a)
    ensures NamedValue(x, y, concrete)
      == (var v := AtomOf(Strip(y), concrete); if v.Err? then v else Ok(v.value.(relPrimitive := Some(a.eng))))
  {
  }

  /** `name=value` splits on `=` into the name and the value. */
  lemma PairSplit(k: string, v: string)
    requires '=' !in k && '=' !in v && k != [] && v != []
    ensures var text := k + "=" + v;
      && Split(text, '=') == [k, v] && '=' in text
      && text[0] == k[0] && text[|text| - 1] == v[|v| - 1]
  {
    SplitAtFirst(k, '=', v);
    assert k + "=" + v == k + ['='] + v;
  }

  /** A relation tag is read as a plain atom whose `eng` is the tag itself. */
  lemma NameRead(k: string)
    requires Tag(k)
    ensures AtomOf(k, false).Ok? && AtomOf(k, false).value.eng == k
  {
    assert Split(k, '|') == [k];
    StripUnspaced(k);
  }

  /** Every item read by `read`, in order; the first item that fails decides the error.
      The later fields of a definition are read this way by `FieldAtom`. */
  function ReadEach<T, U>(read: T -> Result<U, ParseError>, items: seq<T>): (r: Result<seq<U>, ParseError>)
    ensures r.Ok? ==> |r.value| == |items|
  {
    if items == [] then Ok([])
    else
      var n := |items| - 1;
      var done := ReadEach(read, items[..n]);
      if done.Err? then done
      else
        var last := read(items[n]);
        if last.Err? then Err(last.error) else Ok(done.value + [last.value])
  }

  /** When every item is read, the results are those of each item, one by one. */
  lemma {:induction false} ReadEachPointwise<T, U>(read: T -> Result<U, ParseError>, items: seq<T>)
    requires ReadEach(read, items).Ok?
    ensures forall i :: 0 <= i < |items| ==> read(items[i]) == Ok(ReadEach(read, items).value[i])
  {
    if items != [] {
      var n := |items| - 1;
      ReadEachPointwise(read, items[..n]);
      assert forall i :: 0 <= i < n ==> items[..n][i] == items[i];
    }
  }

  /** All the items are read when each of them is. */
  lemma {:induction false} ReadEachAllParse<T, U>(read: T -> Result<U, ParseError>, items: seq<T>)
    requires forall i :: 0 <= i < |items| ==> read(items[i]).Ok?
    ensures ReadEach(read, items).Ok?
  {
    if items != [] {
      var n := |items| - 1;
      assert forall i :: 0 <= i < n ==> items[..n][i] == items[i];
      ReadEachAllParse(read, items[..n]);
    }
  }

  /** Once a prefix of the items fails, the whole fails with the same error. */
  lemma {:induction false} ReadEachStop<T, U>(read: T -> Result<U, ParseError>, items: seq<T>, j: nat)
    requires j <= |items| && ReadEach(read, items[..j]).Err?
    ensures ReadEach(read, items) == ReadEach(read, items[..j])
    decreases |items| - j
  {
    if j < |items| {
      var n := |items| - 1;
      assert items[..n][..j] == items[..j];
      ReadEachStop(read, items[..n], j);
      assert items[..|items|] == items;
    } else {
      assert items[..j] == items;
    }
  }

  /** One turn of the loop of `parse_word`: the next field, then those of the rest. */
  lemma SegmentsNext(partsR: seq<string>)
    requires partsR != []
    ensures Segments(partsR)
      == [Strip(partsR[0])] + Segments(if |partsR| > 1 then SplitOnce(Strip(partsR[1]), ',') else [])
  {
  }

  /** A suffix that starts with `x` is `x` followed by the next suffix. */
  lemma Behind<T>(s: seq<T>, k: nat, x: T, rest: seq<T>)
    requires k < |s| && s[k..] == [x] + rest
    ensures s[k] == x && s[k + 1..] == rest
  {
    assert s[k..][1..] == s[k + 1..];
  }

  /** One more item after a prefix read as `done`: if the item fails, the whole fails with
      its error; otherwise the longer prefix yields `done` and the new result. */
  lemma ReadEachNext<T, U>(read: T -> Result<U, ParseError>, items: seq<T>, j: nat, done: seq<U>)
    requires j < |items| && ReadEach(read, items[..j]) == Ok(done)
    ensures read(items[j]).Err? ==> ReadEach(read, items) == Err(read(items[j]).error)
    ensures read(items[j]).Ok? ==> ReadEach(read, items[..j + 1]) == Ok(done + [read(items[j]).value])
  {
    assert items[..j + 1][..j] == items[..j];
    if read(items[j]).Err? {
      ReadEachStop(read, items, j + 1);
    }
  }

  /** The leading item read by `head` and the others by `tail`, in order; the first item
      that fails decides the error. */
  function Leading<T, U>(head: T -> Result<U, ParseError>, tail: T -> Result<U, ParseError>, items: seq<T>)
    : (r: Result<(U, seq<U>), ParseError>)
    requires |items| >= 1
    ensures r.Ok? ==> |r.value.1| == |items| - 1
  {
    var h := head(items[0]);
    if h.Err? then Err(h.error)
    else
      var t := ReadEach(tail, items[1..]);
      if t.Err? then Err(t.error) else Ok((h.value, t.value))
  }

  /** The first `k` items read one at a time, as a loop with a `first` flag reads them: the
      first by `head`, giving the leading result, and each later one by `tail`, giving the
      others in order; or the error of the first item that fails. */
  ghost function Steps<T, U>(head: T -> Result<U, ParseError>, tail: T -> Result<U, ParseError>,
                             items: seq<T>, k: nat): (r: Result<(Option<U>, seq<U>), ParseError>)
    requires k <= |items|
    ensures r.Ok? ==> |r.value.1| == if k == 0 then 0 else k - 1
  {
    if k == 0 then Ok((None, []))
    else
      var before := Steps(head, tail, items, k - 1);
      if before.Err? then before
      else if k == 1 then
        var h := head(items[0]);
        if h.Err? then Err(h.error) else Ok((Some(h.value), []))
      else
        var t := tail(items[k - 1]);
        if t.Err? then Err(t.error) else Ok((before.value.0, before.value.1 + [t.value]))
  }

  /** Reading one item at a time agrees with `Leading` on the prefix read: the leading
      result is the head's, and the others are those `ReadEach` gives. */
  lemma {:induction false} StepsLead<T, U>(head: T -> Result<U, ParseError>, tail: T -> Result<U, ParseError>,
                                           items: seq<T>, k: nat, first: Option<U>, done: seq<U>)
    requires 1 <= k <= |items| && Steps(head, tail, items, k) == Ok((first, done))
    ensures first.Some? && head(items[0]) == Ok(first.value)
    ensures ReadEach(tail, items[1..k]) == Ok(done)
  {
    if k == 1 {
      assert items[1..1] == [];
    } else {
      var before := Steps(head, tail, items, k - 1).value;
      StepsLead(head, tail, items, k - 1, before.0, before.1);
      var later := items[1..];
      assert later[..k - 2] == items[1..k - 1];
      assert later[..k - 1] == items[1..k];
      ReadEachNext(tail, later, k - 2, before.1);
    }
  }

  /** A later item that fails after `k` items were read one at a time makes `Leading` fail
      with its error. */
  lemma StepsStop<T, U>(head: T -> Result<U, ParseError>, tail: T -> Result<U, ParseError>,
                        items: seq<T>, k: nat, first: Option<U>, done: seq<U>)
    requires 1 <= k < |items| && Steps(head, tail, items, k) == Ok((first, done)) && tail(items[k]).Err?
    ensures Leading(head, tail, items) == Err(tail(items[k]).error)
  {
    StepsLead(head, tail, items, k, first, done);
    LaterFails(tail, items, k, done);
    LeadingStops(head, tail, items, tail(items[k]).error);
  }

  /** Item `k` failing after items 1 to `k - 1` were read fails the reading of all later items. */
  lemma LaterFails<T, U>(tail: T -> Result<U, ParseError>, items: seq<T>, k: nat, done: seq<U>)
    requires 1 <= k < |items| && ReadEach(tail, items[1..k]) == Ok(done) && tail(items[k]).Err?
    ensures ReadEach(tail, items[1..]) == Err(tail(items[k]).error)
  {
    var later := items[1..];
    assert later[..k - 1] == items[1..k];
    assert later[k - 1] == items[k];
    ReadEachNext(tail, later, k - 1, done);
  }

  /** A good head with failing later items makes `Leading` fail with their error. */
  lemma LeadingStops<T, U>(head: T -> Result<U, ParseError>, tail: T -> Result<U, ParseError>,
                           items: seq<T>, e: ParseError)
    requires |items| >= 1 && head(items[0]).Ok? && ReadEach(tail, items[1..]) == Err(e)
    ensures Leading(head, tail, items) == Err(e)
  {
  }

  /** Once every item was read one at a time, the result is `Leading`'s. */
  lemma StepsAll<T, U>(head: T -> Result<U, ParseError>, tail: T -> Result<U, ParseError>,
                       items: seq<T>, first: Option<U>, done: seq<U>)
    requires |items| >= 1 && Steps(head, tail, items, |items|) == Ok((first, done))
    ensures first.Some? && Leading(head, tail, items) == Ok((first.value, done))
  {
    StepsLead(head, tail, items, |items|, first, done);
    assert items[1..|items|] == items[1..];
  }

  /** A parsed lexicon line: headword, part-of-speech tag, whether it is a function word
      (its definition is wrapped in braces), the first primitive and the later atoms. */
  datatype Entry = Entry(word: string, pos: string, structural: bool, first: Atom, rest: seq<Atom>)

  /** The definition of a line, stripped, with the first and last characters dropped and
      the rest stripped again when it starts with `{`. */
  function DefinitionBody(definition: string): string {
    var parts := Strip(definition);
    if StartsWith(parts, '{') then Strip(Inner(parts)) else parts
  }

  /** `Primitive.parse_word(line)`: the first two whitespace-separated tokens are the
      headword and the tag; the rest of the line is the definition, whose first field is
      the first primitive and whose later fields are filed into the collections. Fewer
      than three tokens and any field that fails to parse are errors. */
  function EntryOf(line: string): (r: Result<Entry, ParseError>)
    ensures SplitHeader(line).None? ==> r == Err(TooFewTokens)
  {
    if SplitHeader(line).None? then Err(TooFewTokens)
    else
      var header := SplitHeader(line).value;
      EntryFrom(header.0, header.1, header.2)
  }

  /** The parse of a line once its headword, its tag and its definition are split off. */
  function EntryFrom(word: string, pos: string, definition: string): (r: Result<Entry, ParseError>)
  {
    var d := DefinitionOf(DefinitionBody(definition));
    if d.Err? then Err(d.error)
    else Ok(Entry(word, pos, StartsWith(Strip(definition), '{'), d.value.first, d.value.rest))
  }

  /** The atoms of a definition body: the first primitive and the atoms of the later fields. */
  datatype Definition = Definition(first: Atom, rest: seq<Atom>)

  /** The atoms of a definition body: its fields, read by `FieldsDefinition`. */
  function DefinitionOf(body: string): (r: Result<Definition, ParseError>)
  {
    FieldsDefinition(Fields(body))
  }

  /** The first field parsed as a plain atom, then the later fields; the first field that
      fails decides the error. */
  function FieldsDefinition(fields: seq<string>): (r: Result<Definition, ParseError>)
    requires |fields| >= 1
    ensures r.Ok? ==> |r.value.rest| == |fields| - 1
  {
    var d := Leading(FirstAtom, FieldAtom, fields);
    if d.Err? then Err(d.error) else Ok(Definition(d.value.0, d.value.1))
  }

  /** The first field of a definition: a plain atom. */
  function FirstAtom(field: string): Result<Atom, ParseError> {
    AtomOf(field, false)
  }

  /** A definition body parses exactly when its first comma-separated piece, stripped,
      parses as a plain atom and every later stripped piece parses as a field; its atoms
      are then those of the pieces, one by one. */
  lemma DefinitionIsPieces(body: string)
    ensures var fields := StripAll(Split(body, ','));
      DefinitionOf(body).Ok? <==>
        AtomOf(fields[0], false).Ok? && forall i :: 1 <= i < |fields| ==> FieldAtom(fields[i]).Ok?
    ensures var fields := StripAll(Split(body, ','));
      DefinitionOf(body).Ok? ==>
        && DefinitionOf(body).value.first == AtomOf(fields[0], false).value
        && |DefinitionOf(body).value.rest| == |fields| - 1
        && forall i :: 1 <= i < |fields| ==> FieldAtom(fields[i]) == Ok(DefinitionOf(body).value.rest[i - 1])
  {
    FieldsAreStrippedPieces(body);
    FieldsDefinitionPointwise(Fields(body));
  }

  /** `FieldsDefinition` field by field: it succeeds exactly when every field does, and its
      atoms are theirs. */
  lemma FieldsDefinitionPointwise(fields: seq<string>)
    requires |fields| >= 1
    ensures FieldsDefinition(fields).Ok? <==>
      AtomOf(fields[0], false).Ok? && forall i :: 1 <= i < |fields| ==> FieldAtom(fields[i]).Ok?
    ensures FieldsDefinition(fields).Ok? ==>
      && FieldsDefinition(fields).value.first == AtomOf(fields[0], false).value
      && forall i :: 1 <= i < |fields| ==> FieldAtom(fields[i]) == Ok(FieldsDefinition(fields).value.rest[i - 1])
  {
    var later := fields[1..];
    assert forall i :: 1 <= i < |fields| ==> later[i - 1] == fields[i];
    if ReadEach(FieldAtom, later).Ok? {
      ReadEachPointwise(FieldAtom, later);
    } else if forall i :: 1 <= i < |fields| ==> FieldAtom(fields[i]).Ok? {
      forall i | 0 <= i < |later| ensures FieldAtom(later[i]).Ok? {
        assert later[i] == fields[i + 1];
      }
      ReadEachAllParse(FieldAtom, later);
    }
  }

  /** In a definition that parses, no comma-separated piece is blank. */
  lemma NoBlankField(body: string)
    requires DefinitionOf(body).Ok?
    ensures forall p :: p in Split(body, ',') ==> Strip(p) != []
  {
    DefinitionIsPieces(body);
    var pieces := Split(body, ',');
    var fields := StripAll(pieces);
    forall p | p in pieces ensures Strip(p) != [] {
      var i :| 0 <= i < |pieces| && pieces[i] == p;
      assert fields[i] == Strip(p);
      if i > 0 {
        assert FieldAtom(fields[i]).Ok?;
      }
    }
  }

  /** `Primitive.parse_word(line)`: the header tokens, then the sense read from the rest of
      the line. The sense it returns holds exactly the parsed line, and it fails exactly
      when the line does not parse, with the same error. */
  method ParseWord(line: string) returns (r: Result<Word, ParseError>)
    ensures EntryOf(line).Err? ==> r.Err? && r.error == EntryOf(line).error
    ensures EntryOf(line).Ok? ==> r.Ok? && fresh(r.value) && r.value.Holds(EntryOf(line).value)
  {
    var header := SplitHeader(line);
    if header.None? {
      return Err(TooFewTokens);
    }
    r := ParseSense(header.value.0, header.value.1, header.value.2);
  }

  /** The body of `parse_word` once the header is split off: a new sense with the headword
      and the tag, the braces of a function word, then the loop over the fields. */
  method ParseSense(headword: string, pos: string, definition: string) returns (r: Result<Word, ParseError>)
    requires definition != [] && !IsSpace(definition[0])
    ensures EntryFrom(headword, pos, definition).Err? ==>
      r.Err? && r.error == EntryFrom(headword, pos, definition).error
    ensures EntryFrom(headword, pos, definition).Ok? ==>
      r.Ok? && fresh(r.value) && r.value.Holds(EntryFrom(headword, pos, definition).value)
  {
    var word := new Word();
    var parts, structural := DefinitionParts(definition);
    var filled := FillDefinition(word, parts);
    if filled.Err? {
      r := Err(filled.error);
    } else {
      word.Label(Entry(headword, pos, structural,
        DefinitionOf(parts).value.first, DefinitionOf(parts).value.rest));
      r := Ok(word);
    }
    EntryOfParts(headword, pos, definition, parts, structural);
  }

  /** The definition of a line, stripped; a function word's braces are dropped and the rest
      stripped again, and `structural` says whether they were there. */
  method DefinitionParts(definition: string) returns (parts: string, structural: bool)
    requires definition != [] && !IsSpace(definition[0])
    ensures parts == DefinitionBody(definition)
    ensures structural == StartsWith(Strip(definition), '{')
  {
    parts := Strip(definition);
    StripKeepsFirst(definition);
    structural := false;
    if parts[0] == '{' {
      structural := true;
      parts := Strip(Inner(parts));
    }
  }

  /** Once the header is split off, a line parses as its definition body does: its error, or
      its headword, tag and kind with the atoms of the body. */
  lemma EntryOfParts(headword: string, pos: string, definition: string, body: string, structural: bool)
    requires body == DefinitionBody(definition)
    requires structural == StartsWith(Strip(definition), '{')
    ensures DefinitionOf(body).Err? ==> EntryFrom(headword, pos, definition) == Err(DefinitionOf(body).error)
    ensures DefinitionOf(body).Ok? ==>
      EntryFrom(headword, pos, definition) == Ok(Entry(headword, pos, structural, DefinitionOf(body).value.first, DefinitionOf(body).value.rest))
  {
  }

  /** The string work of one turn of the loop of `parse_word`: the stripped first piece is
      the field, and the second piece, stripped and cut at its first comma, is what is left. */
  method NextField(partsR: seq<string>) returns (curPart: string, partsNext: seq<string>)
    requires partsR != []
    ensures curPart == Strip(partsR[0])
    ensures partsNext == if |partsR| > 1 then SplitOnce(Strip(partsR[1]), ',') else []
    ensures Segments(partsR) == [curPart] + Segments(partsNext)
    ensures Pending(partsNext) < Pending(partsR)
  {
    curPart := Strip(partsR[0]);
    partsNext := if |partsR| > 1 then SplitOnce(Strip(partsR[1]), ',') else [];
    SegmentsNext(partsR);
  }

  /** After `k` fields of `fields`: the fields read so far gave the first primitive and the
      atoms `done`, and the collections hold exactly `done`. */
  ghost predicate Filled(word: Word, fields: seq<string>, k: nat, done: seq<Atom>)
    reads word`firstPrimitive, word`otherPrimitives, word`relationalPrimitives, word`symbolPrimitives
  {
    k <= |fields| && Steps(FirstAtom, FieldAtom, fields, k) == Ok((word.firstPrimitive, done)) && word.Collects(done)
  }

  /** One turn of the loop of `parse_word`: the next field, stripped, becomes the first
      primitive when it is the first one, and is parsed and filed otherwise; the rest is
      split once more. A failure is the failure of the whole definition. */
  method FillField(word: Word, partsR: seq<string>, first: bool, ghost fields: seq<string>, ghost k: nat,
                   ghost done: seq<Atom>) returns (r: Result<(), ParseError>, partsNext: seq<string>, ghost done': seq<Atom>)
    requires Filled(word, fields, k, done)
    requires partsR != [] && Segments(partsR) == fields[k..] && (first <==> k == 0)
    modifies word`firstPrimitive, word`otherPrimitives, word`relationalPrimitives, word`symbolPrimitives
    ensures k < |fields| && Segments(partsNext) == fields[k + 1..] && Pending(partsNext) < Pending(partsR)
    ensures r.Err? ==> FieldsDefinition(fields) == Err(r.error)
    ensures r.Ok? ==> Filled(word, fields, k + 1, done')
  {
    var field;
    field, partsNext := NextField(partsR);
    Behind(fields, k, field, Segments(partsNext));
    done' := done;
    if first {
      var atom := ParseAtom(field, false);
      if atom.Err? {
        return Err(atom.error), partsNext, done';
      }
      word.firstPrimitive := Some(atom.value);
    } else {
      var atom := ParseField(field);
      if atom.Err? {
        StepsStop(FirstAtom, FieldAtom, fields, k, word.firstPrimitive, done);
        return Err(atom.error), partsNext, done';
      }
      word.AddPrimitive(atom.value, done);
      done' := done + [atom.value];
    }
    r := Ok(());
  }

  /** The loop of `parse_word` over `parts_r`: the first field becomes the first primitive,
      every later field is parsed and filed, in order. It fails exactly when the definition
      does not parse, with the same error; otherwise the sense holds the first primitive and
      exactly the later atoms; it changes nothing else of the sense. */
  method FillDefinition(word: Word, parts: string) returns (r: Result<(), ParseError>)
    requires word.firstPrimitive == None
    requires word.otherPrimitives == [] && word.relationalPrimitives == map[] && word.symbolPrimitives == map[]
    modifies word`firstPrimitive, word`otherPrimitives, word`relationalPrimitives, word`symbolPrimitives
    ensures r.Err? ==> DefinitionOf(parts) == Err(r.error)
    ensures r.Ok? ==> && DefinitionOf(parts).Ok?
                      && word.firstPrimitive == Some(DefinitionOf(parts).value.first)
                      && word.Collects(DefinitionOf(parts).value.rest)
  {
    ghost var fields := Fields(parts);
    assert word.Collects([]);
    var partsR := SplitOnce(parts, ',');
    ghost var done;
    r, done := FillFields(word, partsR, fields);
    if r.Ok? {
      StepsAll(FirstAtom, FieldAtom, fields, word.firstPrimitive, done);
    }
  }

  /** The loop itself, over the fields `Segments(partsR)` still to read: each pass strips the
      next field, fills it in, and splits the rest once more. */
  method FillFields(word: Word, partsR: seq<string>, ghost fields: seq<string>)
    returns (r: Result<(), ParseError>, ghost done: seq<Atom>)
    requires Segments(partsR) == fields && fields != []
    requires Filled(word, fields, 0, [])
    modifies word`firstPrimitive, word`otherPrimitives, word`relationalPrimitives, word`symbolPrimitives
    ensures r.Err? ==> FieldsDefinition(fields) == Err(r.error)
    ensures r.Ok? ==> Filled(word, fields, |fields|, done)
  {
    ghost var k: nat := 0;
    done := [];
    var partsR := partsR;
    var first := true;
    while |partsR| > 0
      invariant Filled(word, fields, k, done)
      invariant Segments(partsR) == fields[k..] && (first <==> k == 0)
      decreases Pending(partsR)
    {
      var step;
      step, partsR, done := FillField(word, partsR, first, fields, k, done);
      if step.Err? {
        return step, done;
      }
      first := false;
      k := k + 1;
    }
    r := Ok(());
  }
}
