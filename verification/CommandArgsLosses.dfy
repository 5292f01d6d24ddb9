/** What formatting does not write, whether it says so, and which parameters neither come back nor are reported. */
module CommandArgsLosses {
  import opened Util
  import opened CommandArgs
  import opened CommandArgsWritten
  import opened CommandArgsMeaning
  import opened CommandArgsRecovery

  // ---------------------------------------------------------------- what is reported as dropped

  predicate DropsEntry(g: Grammar, r: Rules, placed: set<string>, e: Entry) {
    && e.name !in placed && g.rest != Some(e.name) && !Nothing(e.value)
    && if KeyOf(g.keyed, e.name).None? then e.name !in SlotNames(g.positional) else ScalarToken(r, e.value).None?
  }

  lemma DropOne(g: Grammar, r: Rules, placed: set<string>, f: Formatted, e: Entry)
    ensures FormatEntry(g, r, placed, f, e).dropped == f.dropped + if DropsEntry(g, r, placed, e) then [e.name] else []
  {
    assert f.dropped + [] == f.dropped;
    assert ScalarToken(r, e.value).Some? ==> !Nothing(e.value);
  }

  lemma {:induction false} EntriesDrop(g: Grammar, r: Rules, placed: set<string>, f: Formatted, bag: seq<Entry>,
                                       name: string)
    ensures name in FormatEntries(g, r, placed, f, bag).dropped <==>
            name in f.dropped || exists i :: 0 <= i < |bag| && bag[i].name == name && DropsEntry(g, r, placed, bag[i])
  {
    if bag != [] {
      var n := |bag| - 1;
      EntriesDrop(g, r, placed, f, bag[..n], name);
      DropOne(g, r, placed, FormatEntries(g, r, placed, f, bag[..n]), bag[n]);
      assert forall i :: 0 <= i < n ==> bag[..n][i] == bag[i];
    }
  }

  lemma {:induction false} SpelledAre(r: Rules, bag: seq<Entry>, slots: seq<Slot>, name: string)
    ensures name in SpelledNames(r, bag, slots) <==> name in SlotNames(slots) && TokenOf(r, bag, name).Some?
  {
    if slots != [] {
      var n := |slots| - 1;
      SpelledAre(r, bag, slots[..n], name);
      assert slots == slots[..n] + [slots[n]];
      assert name in SlotNames(slots) <==> name in SlotNames(slots[..n]) || name == slots[n].name;
    }
  }

  /** The bag has a value for the parameter, and nothing of it was written. */
  predicate Unwritten(g: Grammar, r: Rules, bag: seq<Entry>, name: string) {
    !Nothing(Get(bag, name)) && name !in WrittenNames(g, r, bag)
  }

  /** A slot's parameter past the run with a one-token spelling: written by its key or as the rest, or not at all. */
  predicate PastRun(g: Grammar, r: Rules, bag: seq<Entry>, name: string) {
    name in SlotNames(g.positional[|Run(g, r, bag)|..]) && TokenOf(r, bag, name).Some?
  }

  /** A slot's parameter whose value has no one-token spelling, with no key and not the rest. */
  predicate Unspoken(g: Grammar, r: Rules, bag: seq<Entry>, name: string) {
    && name in SlotNames(g.positional) && TokenOf(r, bag, name).None?
    && KeyOf(g.keyed, name).None? && g.rest != Some(name)
  }

  lemma WrittenIs(g: Grammar, r: Rules, bag: seq<Entry>, name: string)
    requires Distinct(bag)
    ensures name in WrittenNames(g, r, bag) <==>
            && TokenOf(r, bag, name).Some?
            && (name in SlotNames(Run(g, r, bag)) || KeyOf(g.keyed, name).Some? || g.rest == Some(name))
  {
    KeyedNamesAre(g, r, bag, name);
    if name in SlotNames(Run(g, r, bag)) {
      var i := RunName(g, r, bag, name);
      assert Run(g, r, bag)[i] in Run(g, r, bag);
    }
  }

  lemma SlotNamesSplit(slots: seq<Slot>, n: nat)
    requires n <= |slots|
    ensures SlotNames(slots) == SlotNames(slots[..n]) + SlotNames(slots[n..])
  {
    assert slots == slots[..n] + slots[n..];
  }

  /** What the entries report, by parameter. */
  lemma EntryDrops(g: Grammar, r: Rules, bag: seq<Entry>, name: string)
    requires Distinct(bag)
    ensures var placed := SlotNames(Run(g, r, bag));
            (exists i :: 0 <= i < |bag| && bag[i].name == name && DropsEntry(g, r, placed, bag[i])) <==>
            && !Nothing(Get(bag, name)) && name !in SlotNames(Run(g, r, bag)) && g.rest != Some(name)
            && if KeyOf(g.keyed, name).None? then name !in SlotNames(g.positional) else TokenOf(r, bag, name).None?
  {
    GetIsEntry(bag, name);
  }

  lemma RestDrops(g: Grammar, r: Rules, bag: seq<Entry>, f: Formatted, name: string)
    ensures name in FormatRest(g, r, bag, f).dropped <==>
            name in f.dropped || (g.rest == Some(name) && TokenOf(r, bag, name).None? && !Nothing(Get(bag, name)))
  {
  }

  /**
   * A parameter is reported as dropped if and only if it is a spelled slot's past the run, or it has a value, was not
   * written, and is not an unspelled slot's without a key. The first may have been written all the same.
   */
  lemma DroppedExactly(g: Grammar, r: Rules, bag: seq<Entry>, name: string)
    requires Distinct(bag)
    ensures name in FormattedArgs(g, r, bag).dropped <==>
            PastRun(g, r, bag, name) || (Unwritten(g, r, bag, name) && !Unspoken(g, r, bag, name))
  {
    var run := Run(g, r, bag);
    var start := Formatted(SlotTokens(r, bag, run), SpelledNames(r, bag, g.positional[|run|..]));
    EntriesDrop(g, r, SlotNames(run), start, bag, name);
    EntryDrops(g, r, bag, name);
    SpelledAre(r, bag, g.positional[|run|..], name);
    SlotNamesSplit(g.positional, |run|);
    WrittenIs(g, r, bag, name);
    RestDrops(g, r, bag, FormatEntries(g, r, SlotNames(run), start, bag), name);
    assert TokenOf(r, bag, name).Some? ==> !Nothing(Get(bag, name));
  }

  /**
   * What is left out without a report is exactly the slots whose value has no one-token spelling and which no key
   * names and which are not the rest.
   */
  lemma LostInSilence(g: Grammar, r: Rules, bag: seq<Entry>, name: string)
    requires Distinct(bag)
    ensures Unwritten(g, r, bag, name) && name !in FormattedArgs(g, r, bag).dropped <==>
            !Nothing(Get(bag, name)) && Unspoken(g, r, bag, name)
  {
    DroppedExactly(g, r, bag, name);
    WrittenIs(g, r, bag, name);
  }

  // ---------------------------------------------------------------- a slot's parameter written as a key

  /**
   * A slot's parameter is written as `KEY=value` if and only if it is past the run, has a one-token spelling and a
   * key, and is not the rest; then it is reported as dropped all the same.
   */
  lemma SlotWrittenAsKey(g: Grammar, r: Rules, bag: seq<Entry>, name: string)
    requires Distinct(bag) && name in SlotNames(g.positional)
    ensures var f, keyed := FormattedArgs(g, r, bag), KeyedWritten(g, r, bag);
            && f.args == SlotTokens(r, bag, Run(g, r, bag)) + ItemTexts(keyed) + RestTokens(g, r, bag)
            && (name in ItemNames(keyed) <==>
                  && name !in SlotNames(Run(g, r, bag)) && TokenOf(r, bag, name).Some?
                  && KeyOf(g.keyed, name).Some? && g.rest != Some(name))
            && (name in ItemNames(keyed) ==> name in f.dropped)
  {
    WrittenInFull(g, r, bag);
    KeyedNamesAre(g, r, bag, name);
    if name in ItemNames(KeyedWritten(g, r, bag)) {
      DroppedYetWritten(g, r, bag, name);
    }
  }

  /** Past the run, what can be spelled is reported as dropped. */
  lemma DroppedYetWritten(g: Grammar, r: Rules, bag: seq<Entry>, name: string)
    requires Distinct(bag)
    requires TokenOf(r, bag, name).Some? && name in SlotNames(g.positional) && name !in SlotNames(Run(g, r, bag))
    ensures name in FormattedArgs(g, r, bag).dropped
  {
    SlotNamesSplit(g.positional, |Run(g, r, bag)|);
    DroppedExactly(g, r, bag, name);
  }

  // ---------------------------------------------------------------- which parameters come back or are reported

  /** The parameter has its own value after formatting and parsing. */
  predicate Survives(g: Grammar, r: Rules, bag: seq<Entry>, name: string) {
    Lookup(ParsedArgs(g, r, FormattedArgs(g, r, bag).args).params, name) == Some(Get(bag, name))
  }

  predicate Accounted(g: Grammar, r: Rules, bag: seq<Entry>, name: string) {
    name in FormattedArgs(g, r, bag).dropped || Survives(g, r, bag, name)
  }

  lemma SurvivesExactly(g: Grammar, r: Rules, bag: seq<Entry>, name: string)
    requires DistinctSlots(g.positional)
    ensures Survives(g, r, bag, name) <==> Outcome(g, r, WrittenArgs(g, r, bag), name) == Some(Get(bag, name))
  {
    WrittenInFull(g, r, bag);
    ParsedMeans(g, r, WrittenArgs(g, r, bag));
  }

  /** A parameter survives or is reported, exactly: for every grammar with distinct slots and every bag. */
  lemma AccountedExactly(g: Grammar, r: Rules, bag: seq<Entry>, name: string)
    requires DistinctSlots(g.positional) && Distinct(bag)
    ensures Accounted(g, r, bag, name) <==>
            || PastRun(g, r, bag, name)
            || (Unwritten(g, r, bag, name) && !Unspoken(g, r, bag, name))
            || Outcome(g, r, WrittenArgs(g, r, bag), name) == Some(Get(bag, name))
  {
    DroppedExactly(g, r, bag, name);
    SurvivesExactly(g, r, bag, name);
  }

  /** The same with each token in its place: the last case read off the run, the keyed tokens and the rest's. */
  lemma AccountedInPlace(g: Grammar, r: Rules, bag: seq<Entry>, name: string)
    requires DistinctSlots(g.positional) && Distinct(bag) && Plainly(g, r, bag) && RunAccepts(g, r, bag)
    ensures Accounted(g, r, bag, name) <==>
            || PastRun(g, r, bag, name)
            || (Unwritten(g, r, bag, name) && !Unspoken(g, r, bag, name))
            || OutcomeInPlace(g, r, bag, name) == Some(Get(bag, name))
  {
    AccountedExactly(g, r, bag, name);
    OutcomesInPlace(g, r, bag, name);
  }

  /** When what was written comes back, every value survives or is reported but an unspelled slot's without a key. */
  lemma RecoveredIsAccounted(g: Grammar, r: Rules, bag: seq<Entry>, name: string)
    requires DistinctSlots(g.positional) && Distinct(bag) && Recovered(g, r, bag) && !Nothing(Get(bag, name))
    ensures Accounted(g, r, bag, name) <==> !Unspoken(g, r, bag, name)
  {
    DroppedExactly(g, r, bag, name);
    WrittenIs(g, r, bag, name);
  }

  /**
   * A slot and a key of another type for one parameter: the value that the key gives is written as the slot's token,
   * read back as the slot's value, and not reported.
   */
  lemma ReadByAnotherType(r: Rules, slotType: ArgType, keyType: ArgType, key: string, name: string, text: string,
                          other: Value)
    requires IsKey(key) && text != "" && KeyEnd(text).None?
    requires r.coerce(keyType, text) == Some(Text(text)) && r.coerce(slotType, text) == Some(other)
        && other != Text(text)
    ensures var g := Grammar([Slot(name, slotType, true)], [Keyed(key, name, keyType)], None);
            var bag := [Entry(name, Text(text))];
            && ParsedArgs(g, r, [key + "=" + text]) == Parsed(map[name := Text(text)], [])
            && FormattedArgs(g, r, bag) == Formatted([text], [])
            && ParsedArgs(g, r, [text]) == Parsed(map[name := other], [])
            && !Accounted(g, r, bag, name)
  {
    var g := Grammar([Slot(name, slotType, true)], [Keyed(key, name, keyType)], None);
    var bag := [Entry(name, Text(text))];
    KeyMeans(g, r, key, name, text);
    SlotMeans(g, r, name, text, other);
    OneSlotWritten(g, r, name, text);
  }

  /** `KEY=text`, on its own, for the only key. */
  lemma KeyMeans(g: Grammar, r: Rules, key: string, name: string, text: string)
    requires |g.keyed| == 1 && g.keyed[0].key == key && g.keyed[0].name == name && IsKey(key)
    requires |g.positional| == 1 && g.positional[0].optional && g.rest == None
    requires r.coerce(g.keyed[0].argType, text) == Some(Text(text))
    ensures ParsedArgs(g, r, [key + "=" + text]) == Parsed(map[name := Text(text)], [])
  {
    var arg := key + "=" + text;
    KeyedReadsBack(key, text);
    var args := [arg];
    assert args[..0] == [] && PlainOf(args) == [];
    assert SpelledBy(g, r, arg) == Some((name, Text(text)));
    assert args == [] + [arg] && args[|args| - 1] == arg;
    forall n
      ensures Outcome(g, r, args, n) == Lookup(map[name := Text(text)], n)
    {
      assert LastSpelled(g, r, args, n) == if n == name then Some(Text(text)) else LastSpelled(g, r, args[..0], n);
      OutcomeIs(g, r, args, n, [], LastSpelled(g, r, args, n));
    }
    ParsedExactly(g, r, args, map[name := Text(text)]);
  }

  /** One plain token, for the only slot. */
  lemma SlotMeans(g: Grammar, r: Rules, name: string, text: string, value: Value)
    requires |g.positional| == 1 && g.positional[0].name == name && g.rest == None && KeyEnd(text).None?
    requires r.coerce(g.positional[0].argType, text) == Some(value)
    ensures ParsedArgs(g, r, [text]) == Parsed(map[name := value], [])
  {
    var args := [text];
    assert args[..0] == [] && args[1..] == [];
    assert PlainOf(args) == args;
    assert FirstTaker(r, g.positional, text, 0) == Some(0);
    SlotNamedIs(g.positional, 0);
    assert LeftFrom(r, g.positional, args, 0) == LeftFrom(r, g.positional, args[1..], 1) == [];
    assert TokenOfSlot(g, r, args, 0) == Some(text) && Leftovers(g, r, args) == [];
    forall n
      ensures Outcome(g, r, args, n) == Lookup(map[name := value], n)
    {
      assert LastSpelled(g, r, args, n) == LastSpelled(g, r, args[..0], n) == None;
      OutcomeIs(g, r, args, n, [], None);
      if n != name {
        OnlyOneSlot(g.positional, n);
      }
    }
    ParsedExactly(g, r, args, map[name := value]);
  }

  lemma OnlyOneSlot(slots: seq<Slot>, n: string)
    requires |slots| == 1 && slots[0].name != n
    ensures SlotNamed(slots, n) == None
  {
  }

  lemma OneSlotWritten(g: Grammar, r: Rules, name: string, text: string)
    requires |g.positional| == 1 && g.positional[0].name == name && g.rest == None && text != ""
    ensures FormattedArgs(g, r, [Entry(name, Text(text))]) == Formatted([text], [])
  {
    var bag := [Entry(name, Text(text))];
    assert bag[..0] == [];
    assert Get(bag, name) == Text(text) && RunLength(g, r, bag, 0) == 1;
    assert Run(g, r, bag) == g.positional && g.positional[0] in g.positional;
    assert g.positional[1..] == [];
    assert SlotTokens(r, bag, Run(g, r, bag)) == [text];
    assert name in SlotNames(Run(g, r, bag));
    assert SpelledNames(r, bag, []) == [];
    var start := Formatted([text], []);
    assert FormatEntries(g, r, SlotNames(Run(g, r, bag)), start, bag)
        == FormatEntry(g, r, SlotNames(Run(g, r, bag)), FormatEntries(g, r, SlotNames(Run(g, r, bag)), start,
            bag[..0]), bag[0])
        == start;
  }
}
