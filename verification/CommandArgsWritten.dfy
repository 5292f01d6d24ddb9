/** What formatting writes, for any grammar: the run of slots, the keyed arguments, the rest. */
module CommandArgsWritten {
  import opened Util
  import opened CommandArgs

  // ---------------------------------------------------------------- what formatting writes

  /** A parameter written as `key=token`. */
  datatype Item = Item(spec: Keyed, token: string)

  function ItemOf(g: Grammar, r: Rules, e: Entry): seq<Item> {
    var key, token := KeyOf(g.keyed, e.name), ScalarToken(r, e.value);
    if key.Some? && token.Some? then [Item(key.value, token.value)] else []
  }

  function KeyedItems(g: Grammar, r: Rules, bag: seq<Entry>): seq<Item> {
    if bag == [] then [] else KeyedItems(g, r, bag[..|bag| - 1]) + ItemOf(g, r, bag[|bag| - 1])
  }

  function ItemText(item: Item): string {
    item.spec.key + "=" + item.token
  }

  function ItemTexts(items: seq<Item>): (r: seq<string>)
    ensures |r| == |items|
  {
    if items == [] then [] else ItemTexts(items[..|items| - 1]) + [ItemText(items[|items| - 1])]
  }

  function ItemNames(items: seq<Item>): set<string> {
    if items == [] then {} else ItemNames(items[..|items| - 1]) + {items[|items| - 1].spec.name}
  }

  /** The entries that the slots and the rest leave to the keys. */
  function Outside(g: Grammar, placed: set<string>, bag: seq<Entry>): seq<Entry> {
    if bag == [] then []
    else
      var e := bag[|bag| - 1];
      Outside(g, placed, bag[..|bag| - 1]) + if e.name in placed || g.rest == Some(e.name) then [] else [e]
  }

  /** The `KEY=value` arguments of a formatted command. */
  function KeyedWritten(g: Grammar, r: Rules, bag: seq<Entry>): seq<Item> {
    KeyedItems(g, r, Outside(g, SlotNames(Run(g, r, bag)), bag))
  }

  function RestTokens(g: Grammar, r: Rules, bag: seq<Entry>): (tokens: seq<string>)
    ensures |tokens| <= 1
  {
    if g.rest.Some? && TokenOf(r, bag, g.rest.value).Some? then [TokenOf(r, bag, g.rest.value).value] else []
  }

  /** The entries of some names. */
  function Pick(bag: seq<Entry>, names: set<string>): Params {
    map name | name in names :: Get(bag, name)
  }

  /** The parameters that formatting wrote a token for. */
  function WrittenNames(g: Grammar, r: Rules, bag: seq<Entry>): set<string> {
    SlotNames(Run(g, r, bag)) + ItemNames(KeyedWritten(g, r, bag)) + if RestTokens(g, r, bag) == [] then {}
        else {g.rest.value}
  }

  function Written(g: Grammar, r: Rules, bag: seq<Entry>): Params {
    Pick(bag, WrittenNames(g, r, bag))
  }

  // ---------------------------------------------------------------- keys

  /** A key that reads back as its own entry: it has the shape of a key, and no later entry hides it. */
  predicate KeyReads(g: Grammar, r: Rules, k: Keyed) {
    IsKey(k.key) && KeyedFor(r, g.keyed, r.upper(k.key)) == Some(k)
  }

  /** Every key reads back, and no key or rest names a slot, nor a key the rest. */
  ghost predicate NamesApart(g: Grammar, r: Rules) {
    && (g.rest.Some? ==> g.rest.value !in SlotNames(g.positional))
    && (forall k :: k in g.keyed ==> KeyReads(g, r, k) && k.name !in SlotNames(g.positional) && g.rest != Some(k.name))
  }

  predicate Comes(r: Rules, argType: ArgType, token: string, value: Value) {
    r.coerce(argType, token) == Some(value)
  }

  // ---------------------------------------------------------------- the tokens written

  lemma {:induction false} ItemTextsConcat(xs: seq<Item>, ys: seq<Item>)
    ensures ItemTexts(xs + ys) == ItemTexts(xs) + ItemTexts(ys)
  {
    if ys == [] {
      assert xs + ys == xs;
    } else {
      var n := |ys| - 1;
      ItemTextsConcat(xs, ys[..n]);
      assert (xs + ys)[..|xs + ys| - 1] == xs + ys[..n];
    }
  }

  lemma {:induction false} OutsideAre(g: Grammar, placed: set<string>, bag: seq<Entry>)
    ensures forall e :: e in Outside(g, placed, bag) <==> e in bag && e.name !in placed && g.rest != Some(e.name)
  {
    if bag != [] {
      var n := |bag| - 1;
      OutsideAre(g, placed, bag[..n]);
      assert bag == bag[..n] + [bag[n]];
    }
  }

  lemma {:induction false} EntriesWrite(g: Grammar, r: Rules, placed: set<string>, f: Formatted, bag: seq<Entry>)
    ensures FormatEntries(g, r, placed, f, bag).args == f.args + ItemTexts(KeyedItems(g, r, Outside(g, placed, bag)))
  {
    if bag == [] {
      assert f.args + [] == f.args;
    } else {
      var n := |bag| - 1;
      EntriesWrite(g, r, placed, f, bag[..n]);
      EntryWrites(g, r, placed, FormatEntries(g, r, placed, f, bag[..n]), Outside(g, placed, bag[..n]), bag[n], f.args);
    }
  }

  lemma EntryWrites(g: Grammar, r: Rules, placed: set<string>, f: Formatted, front: seq<Entry>, e: Entry,
                    args: seq<string>)
    requires f.args == args + ItemTexts(KeyedItems(g, r, front))
    ensures FormatEntry(g, r, placed, f, e).args == args
            + ItemTexts(KeyedItems(g, r, front + if e.name in placed || g.rest == Some(e.name) then [] else [e]))
  {
    if e.name in placed || g.rest == Some(e.name) {
      assert front + [] == front;
    } else {
      OutsideWrites(g, r, placed, f, e);
      OneMoreItem(g, r, front, e);
      Regroup(args, ItemTexts(KeyedItems(g, r, front)), ItemTexts(ItemOf(g, r, e)));
    }
  }

  lemma OutsideWrites(g: Grammar, r: Rules, placed: set<string>, f: Formatted, e: Entry)
    requires e.name !in placed && g.rest != Some(e.name)
    ensures FormatEntry(g, r, placed, f, e).args == f.args + ItemTexts(ItemOf(g, r, e))
  {
    assert f.args + [] == f.args;
  }

  lemma OneMoreItem(g: Grammar, r: Rules, front: seq<Entry>, e: Entry)
    ensures ItemTexts(KeyedItems(g, r, front + [e])) == ItemTexts(KeyedItems(g, r, front)) + ItemTexts(ItemOf(g, r, e))
  {
    assert (front + [e])[..|front|] == front;
    ItemTextsConcat(KeyedItems(g, r, front), ItemOf(g, r, e));
  }

  lemma Regroup(a: seq<string>, b: seq<string>, c: seq<string>)
    ensures (a + b) + c == a + (b + c)
  {
  }

  /** What is written in full, for any grammar: the run, the keyed arguments, the rest. */
  lemma WrittenInFull(g: Grammar, r: Rules, bag: seq<Entry>)
    ensures FormattedArgs(g, r, bag).args
            == SlotTokens(r, bag, Run(g, r, bag)) + ItemTexts(KeyedWritten(g, r, bag)) + RestTokens(g, r, bag)
  {
    var run := Run(g, r, bag);
    var f := Formatted(SlotTokens(r, bag, run), SpelledNames(r, bag, g.positional[|run|..]));
    EntriesWrite(g, r, SlotNames(run), f, bag);
    var kept := f.args + ItemTexts(KeyedWritten(g, r, bag));
    assert kept + [] == kept;
  }

  /** Where a parameter's value comes from: its own entry. */
  lemma {:induction false} GetIsEntry(bag: seq<Entry>, name: string)
    requires Distinct(bag)
    ensures forall i :: 0 <= i < |bag| && bag[i].name == name ==> Get(bag, name) == bag[i].value
    ensures !Nothing(Get(bag, name)) ==> exists i :: 0 <= i < |bag| && bag[i].name == name
  {
    if bag != [] {
      var n := |bag| - 1;
      GetIsEntry(bag[..n], name);
      assert forall i :: 0 <= i < n ==> bag[..n][i] == bag[i];
    }
  }

  lemma {:induction false} ItemNamesAre(g: Grammar, r: Rules, bag: seq<Entry>, name: string)
    ensures name in ItemNames(KeyedItems(g, r, bag)) <==>
            exists i :: 0 <= i < |bag| && bag[i].name == name && KeyOf(g.keyed, name).Some?
                && ScalarToken(r, bag[i].value).Some?
  {
    if bag != [] {
      var n := |bag| - 1;
      ItemNamesAre(g, r, bag[..n], name);
      assert forall i :: 0 <= i < n ==> bag[..n][i] == bag[i];
      NamesOfOneMore(KeyedItems(g, r, bag[..n]), g, r, bag[n]);
    }
  }

  lemma NamesOfOneMore(front: seq<Item>, g: Grammar, r: Rules, e: Entry)
    ensures ItemNames(front + ItemOf(g, r, e))
            == ItemNames(front) + if KeyOf(g.keyed, e.name).Some? && ScalarToken(r, e.value).Some? then {e.name} else {}
  {
    if ItemOf(g, r, e) != [] {
      assert (front + ItemOf(g, r, e))[..|front|] == front;
    } else {
      assert front + ItemOf(g, r, e) == front;
    }
  }

  lemma KeyedNamesAre(g: Grammar, r: Rules, bag: seq<Entry>, name: string)
    requires Distinct(bag)
    ensures name in ItemNames(KeyedWritten(g, r, bag)) <==>
            && name !in SlotNames(Run(g, r, bag)) && g.rest != Some(name)
            && KeyOf(g.keyed, name).Some? && TokenOf(r, bag, name).Some?
  {
    var placed := SlotNames(Run(g, r, bag));
    var outside := Outside(g, placed, bag);
    ItemNamesAre(g, r, outside, name);
    OutsideAre(g, placed, bag);
    GetIsEntry(bag, name);
    if name in ItemNames(KeyedWritten(g, r, bag)) {
      var i :| 0 <= i < |outside| && outside[i].name == name && KeyOf(g.keyed, name).Some?
          && ScalarToken(r, outside[i].value).Some?;
      assert outside[i] in outside;
      var k :| 0 <= k < |bag| && bag[k] == outside[i];
    } else if name !in placed && g.rest != Some(name) && TokenOf(r, bag, name).Some? {
      assert !Nothing(Get(bag, name));
      var k :| 0 <= k < |bag| && bag[k].name == name;
      assert bag[k] in outside;
      var i :| 0 <= i < |outside| && outside[i] == bag[k];
    }
  }

  ghost predicate ItemsOfBag(g: Grammar, r: Rules, bag: seq<Entry>, items: seq<Item>) {
    && DistinctItems(items)
    && (forall item :: item in items ==> item.spec in g.keyed && TokenOf(r, bag, item.spec.name) == Some(item.token))
    && (forall name :: name in ItemNames(items) ==> exists i :: 0 <= i < |bag| && bag[i].name == name)
  }

  /** Items are for different parameters of the bag. */
  lemma {:induction false} ItemsAre(g: Grammar, r: Rules, bag: seq<Entry>)
    requires Distinct(bag)
    ensures ItemsOfBag(g, r, bag, KeyedItems(g, r, bag))
  {
    if bag != [] {
      var n := |bag| - 1;
      ItemsAre(g, r, bag[..n]);
      NextItem(g, r, bag, KeyedItems(g, r, bag[..n]), ItemOf(g, r, bag[n]));
    }
  }

  lemma NextItem(g: Grammar, r: Rules, bag: seq<Entry>, front: seq<Item>, more: seq<Item>)
    requires Distinct(bag) && bag != [] && ItemsOfBag(g, r, bag[..|bag| - 1], front)
    requires more == [] || (exists item :: && more == [item] && item.spec in g.keyed
                                           && item.spec.name == bag[|bag| - 1].name
                                           && ScalarToken(r, bag[|bag| - 1].value) == Some(item.token))
    ensures ItemsOfBag(g, r, bag, front + more)
  {
    var n := |bag| - 1;
    assert forall i :: 0 <= i < n ==> bag[..n][i] == bag[i];
    NamesOfItems(front);
    if more == [] {
      assert front + more == front;
    } else {
      assert (front + more)[..|front|] == front;
    }
  }

  predicate DistinctItems(items: seq<Item>) {
    items == [] || (items[|items| - 1].spec.name !in ItemNames(items[..|items| - 1])
        && DistinctItems(items[..|items| - 1]))
  }

  lemma {:induction false} NamesOfItems(items: seq<Item>)
    ensures forall item :: item in items ==> item.spec.name in ItemNames(items)
    ensures forall name :: name in ItemNames(items) ==> exists item :: item in items && item.spec.name == name
  {
    if items != [] {
      var n := |items| - 1;
      NamesOfItems(items[..n]);
      assert items == items[..n] + [items[n]];
      assert items[n] in items;
    }
  }

  /** An entry outside the slots and the rest keeps its value. */
  lemma {:induction false} GetOutside(g: Grammar, placed: set<string>, bag: seq<Entry>, name: string)
    requires Distinct(bag) && name !in placed && g.rest != Some(name)
    ensures Get(Outside(g, placed, bag), name) == Get(bag, name)
  {
    if bag != [] {
      var n := |bag| - 1;
      GetOutside(g, placed, bag[..n], name);
      if !(bag[n].name in placed || g.rest == Some(bag[n].name)) {
        assert (Outside(g, placed, bag[..n]) + [bag[n]])[..|Outside(g, placed, bag[..n])|] == Outside(g, placed,
            bag[..n]);
      } else {
        assert Outside(g, placed, bag) == Outside(g, placed, bag[..n]);
      }
    }
  }

  lemma {:induction false} OutsideIsDistinct(g: Grammar, placed: set<string>, bag: seq<Entry>)
    requires Distinct(bag)
    ensures Distinct(Outside(g, placed, bag))
  {
    if bag != [] {
      var n := |bag| - 1;
      OutsideIsDistinct(g, placed, bag[..n]);
      OutsideAre(g, placed, bag[..n]);
      var front := Outside(g, placed, bag[..n]);
      forall i | 0 <= i < |front|
        ensures front[i].name != bag[n].name
      {
        assert front[i] in front;
        var k :| 0 <= k < n && bag[..n][k] == front[i];
        assert bag[k].name != bag[n].name;
      }
    }
  }

  /** Keyed arguments are for different parameters, outside the run and not the rest, with the parameter's own token. */
  lemma ItemsWrittenAre(g: Grammar, r: Rules, bag: seq<Entry>)
    requires Distinct(bag)
    ensures DistinctItems(KeyedWritten(g, r, bag))
    ensures forall item :: item in KeyedWritten(g, r, bag) ==>
              && item.spec in g.keyed && TokenOf(r, bag, item.spec.name) == Some(item.token)
              && item.spec.name in ItemNames(KeyedWritten(g, r, bag))
              && item.spec.name !in SlotNames(Run(g, r, bag)) && g.rest != Some(item.spec.name)
  {
    var placed, items := SlotNames(Run(g, r, bag)), KeyedWritten(g, r, bag);
    var outside := Outside(g, placed, bag);
    OutsideIsDistinct(g, placed, bag);
    ItemsAre(g, r, outside);
    NamesOfItems(items);
    forall item | item in items
      ensures item.spec.name !in placed && g.rest != Some(item.spec.name)
          && TokenOf(r, bag, item.spec.name) == Some(item.token)
    {
      KeyedNamesAre(g, r, bag, item.spec.name);
      GetOutside(g, placed, bag, item.spec.name);
    }
  }
}
