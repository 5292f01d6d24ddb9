/** Parsing what formatting wrote: exactly when every parameter that was written comes back, and no other. */
module CommandArgsRecovery {
  import opened Util
  import opened CommandArgs
  import opened CommandArgsWritten
  import opened CommandArgsMeaning

  /** The written arguments: the run, the keyed arguments, the rest. */
  function WrittenArgs(g: Grammar, r: Rules, bag: seq<Entry>): seq<string> {
    SlotTokens(r, bag, Run(g, r, bag)) + ItemTexts(KeyedWritten(g, r, bag)) + RestTokens(g, r, bag)
  }

  /** Parsing what formatting wrote gives back every parameter that was written, no other, and no problem. */
  predicate Recovered(g: Grammar, r: Rules, bag: seq<Entry>) {
    ParsedArgs(g, r, FormattedArgs(g, r, bag).args) == Parsed(Written(g, r, bag), [])
  }

  /** The written arguments are accepted, set every written parameter to its own value, and set no other. */
  ghost predicate Recoverable(g: Grammar, r: Rules, bag: seq<Entry>) {
    && Accepted(g, r, WrittenArgs(g, r, bag))
    && (forall name :: name in WrittenNames(g, r, bag) ==>
          Outcome(g, r, WrittenArgs(g, r, bag), name) == Some(Get(bag, name)))
    && (forall name :: name !in WrittenNames(g, r, bag) ==>
          Outcome(g, r, WrittenArgs(g, r, bag), name) == None)
  }

  /** For any grammar with distinct slots, whatever its keys and its rest name. */
  lemma ParseUndoesFormat(g: Grammar, r: Rules, bag: seq<Entry>)
    requires DistinctSlots(g.positional)
    ensures Recovered(g, r, bag) <==> Recoverable(g, r, bag)
  {
    WrittenInFull(g, r, bag);
    ParsedExactly(g, r, WrittenArgs(g, r, bag), Written(g, r, bag));
    assert forall name :: Lookup(Written(g, r, bag), name)
                          == if name in WrittenNames(g, r, bag) then Some(Get(bag, name)) else None;
  }

  // ---------------------------------------------------------------- reading in parts

  predicate AllPlain(args: seq<string>) {
    forall i :: 0 <= i < |args| ==> KeyEnd(args[i]).None?
  }

  lemma {:induction false} PlainConcat(a: seq<string>, b: seq<string>)
    ensures PlainOf(a + b) == PlainOf(a) + PlainOf(b)
  {
    if b == [] {
      assert a + b == a;
    } else {
      var n := |b| - 1;
      PlainConcat(a, b[..n]);
      assert (a + b)[..|a + b| - 1] == a + b[..n];
    }
  }

  lemma {:induction false} SpelledConcat(g: Grammar, r: Rules, a: seq<string>, b: seq<string>, name: string)
    ensures LastSpelled(g, r, a + b, name)
         == if LastSpelled(g, r, b, name).Some? then LastSpelled(g, r, b, name) else LastSpelled(g, r, a, name)
  {
    if b == [] {
      assert a + b == a;
    } else {
      var n := |b| - 1;
      SpelledConcat(g, r, a, b[..n], name);
      assert (a + b)[..|a + b| - 1] == a + b[..n];
    }
  }

  lemma ReadConcat(g: Grammar, r: Rules, a: seq<string>, b: seq<string>)
    ensures AllRead(g, r, a + b) <==> AllRead(g, r, a) && AllRead(g, r, b)
  {
    assert forall i :: 0 <= i < |a| ==> (a + b)[i] == a[i];
    assert forall i :: 0 <= i < |b| ==> (a + b)[|a| + i] == b[i];
  }

  lemma {:induction false} PlainSpellsNothing(g: Grammar, r: Rules, args: seq<string>)
    requires AllPlain(args)
    ensures PlainOf(args) == args && AllRead(g, r, args) && forall name :: LastSpelled(g, r, args, name) == None
  {
    if args != [] {
      var n := |args| - 1;
      PlainSpellsNothing(g, r, args[..n]);
      assert args == args[..n] + [args[n]];
    }
  }

  /** What an item's token reads as. */
  function ItemValue(r: Rules, items: seq<Item>, name: string): Option<Value> {
    if items == [] then None
    else
      var item := items[|items| - 1];
      var coerced := r.coerce(item.spec.argType, item.token);
      if item.spec.name == name && coerced.Some? then coerced else ItemValue(r, items[..|items| - 1], name)
  }

  ghost predicate AllCoerce(r: Rules, items: seq<Item>) {
    forall item :: item in items ==> r.coerce(item.spec.argType, item.token).Some?
  }

  /** Keyed arguments whose keys read back set their parameters to what their tokens coerce to. */
  lemma {:induction false} ItemsRead(g: Grammar, r: Rules, items: seq<Item>)
    requires forall item :: item in items ==> KeyReads(g, r, item.spec)
    ensures PlainOf(ItemTexts(items)) == []
    ensures AllRead(g, r, ItemTexts(items)) <==> AllCoerce(r, items)
    ensures forall name :: LastSpelled(g, r, ItemTexts(items), name) == ItemValue(r, items, name)
  {
    if items != [] {
      var n := |items| - 1;
      var item, texts := items[n], ItemTexts(items);
      assert items == items[..n] + [item];
      assert texts[..n] == ItemTexts(items[..n]) && texts == texts[..n] + [ItemText(item)];
      ItemsRead(g, r, items[..n]);
      ItemSpells(g, r, item);
      ReadConcat(g, r, texts[..n], [ItemText(item)]);
      assert AllRead(g, r, [ItemText(item)]) <==> SpelledBy(g, r, [ItemText(item)][0]).Some?;
    }
  }

  lemma ItemSpells(g: Grammar, r: Rules, item: Item)
    requires KeyReads(g, r, item.spec)
    ensures KeyEnd(ItemText(item)).Some?
    ensures var coerced := r.coerce(item.spec.argType, item.token);
            SpelledBy(g, r, ItemText(item)) == if coerced.Some? then Some((item.spec.name, coerced.value)) else None
  {
    KeyedReadsBack(item.spec.key, item.token);
  }

  lemma {:induction false} ItemValueOf(r: Rules, items: seq<Item>, name: string)
    requires DistinctItems(items)
    ensures forall item :: item in items && item.spec.name == name ==>
              ItemValue(r, items, name) == r.coerce(item.spec.argType, item.token)
    ensures name !in ItemNames(items) ==> ItemValue(r, items, name) == None
  {
    if items != [] {
      var n := |items| - 1;
      assert items == items[..n] + [items[n]];
      ItemValueOf(r, items[..n], name);
      NamesOfItems(items[..n]);
    }
  }

  // ---------------------------------------------------------------- each token in its place

  /** No token of the run or the rest has the shape of a key, and the keys written read back. */
  ghost predicate Plainly(g: Grammar, r: Rules, bag: seq<Entry>) {
    && AllPlain(SlotTokens(r, bag, Run(g, r, bag))) && AllPlain(RestTokens(g, r, bag))
    && forall item :: item in KeyedWritten(g, r, bag) ==> KeyReads(g, r, item.spec)
  }

  /** A slot of the run accepts its own token. */
  predicate Accepts(g: Grammar, r: Rules, bag: seq<Entry>, i: nat)
    requires i < |Run(g, r, bag)|
  {
    r.coerce(g.positional[i].argType, SlotTokens(r, bag, Run(g, r, bag))[i]).Some?
  }

  ghost predicate RunAccepts(g: Grammar, r: Rules, bag: seq<Entry>) {
    forall i :: 0 <= i < |Run(g, r, bag)| ==> Accepts(g, r, bag, i)
  }

  /** The slot past the run that takes the rest's token. */
  function RestSlot(g: Grammar, r: Rules, bag: seq<Entry>): Option<nat> {
    if RestTokens(g, r, bag) == [] then None
    else FirstTaker(r, g.positional, RestTokens(g, r, bag)[0], |Run(g, r, bag)|)
  }

  predicate RestIsLeft(g: Grammar, r: Rules, bag: seq<Entry>) {
    RestTokens(g, r, bag) != [] && RestSlot(g, r, bag).None?
  }

  /** Tokens that the slots from `k` on accept one by one are handed out one by one. */
  lemma {:induction false} HandedInOrder(r: Rules, slots: seq<Slot>, tokens: seq<string>, more: seq<string>, k: nat,
                                         j: nat)
    requires k <= |tokens| <= |slots|
    requires forall i :: k <= i < |tokens| ==> r.coerce(slots[i].argType, tokens[i]).Some?
    ensures LeftFrom(r, slots, tokens[k..] + more, k) == LeftFrom(r, slots, more, |tokens|)
    ensures TokenFor(r, slots, tokens[k..] + more, k, j)
         == if k <= j < |tokens| then Some(tokens[j]) else TokenFor(r, slots, more, |tokens|, j)
    decreases |tokens| - k
  {
    if k == |tokens| {
      assert tokens[k..] + more == more;
    } else {
      HeadOf(tokens, more, k);
      HandedInOrder(r, slots, tokens, more, k + 1, j);
    }
  }

  lemma HeadOf(tokens: seq<string>, more: seq<string>, k: nat)
    requires k < |tokens|
    ensures (tokens[k..] + more)[0] == tokens[k] && (tokens[k..] + more)[1..] == tokens[k + 1..] + more
  {
  }

  /** Conversely: slots that each get a token, or would accept their own, accept their own. */
  lemma {:induction false} HandedToAll(r: Rules, slots: seq<Slot>, tokens: seq<string>, more: seq<string>, k: nat)
    requires k <= |tokens| <= |slots|
    requires forall i :: k <= i < |tokens| ==>
               r.coerce(slots[i].argType, tokens[i]).Some? || TokenFor(r, slots, tokens[k..] + more, k, i).Some?
    ensures forall i :: k <= i < |tokens| ==> r.coerce(slots[i].argType, tokens[i]).Some?
    decreases |tokens| - k
  {
    if k < |tokens| {
      HeadOf(tokens, more, k);
      PassedOver(r, slots, tokens[k..] + more, k);
      HandedToAll(r, slots, tokens, more, k + 1);
    }
  }

  /** A slot gets nothing when the first token offered to it goes past it. */
  lemma PassedOver(r: Rules, slots: seq<Slot>, tokens: seq<string>, k: nat)
    requires k < |slots| && tokens != []
    ensures r.coerce(slots[k].argType, tokens[0]).None? ==> TokenFor(r, slots, tokens, k, k).None?
    ensures forall i :: r.coerce(slots[k].argType, tokens[0]).Some? && i != k ==>
              TokenFor(r, slots, tokens, k, i) == TokenFor(r, slots, tokens[1..], k + 1, i)
  {
  }

  /** What the written arguments are, read as a command line. */
  lemma WrittenRead(g: Grammar, r: Rules, bag: seq<Entry>)
    requires Plainly(g, r, bag)
    ensures var args, items := WrittenArgs(g, r, bag), KeyedWritten(g, r, bag);
            && PlainOf(args) == SlotTokens(r, bag, Run(g, r, bag)) + RestTokens(g, r, bag)
            && (AllRead(g, r, args) <==> AllCoerce(r, items))
            && forall name :: LastSpelled(g, r, args, name) == ItemValue(r, items, name)
  {
    var a, items, c := SlotTokens(r, bag, Run(g, r, bag)), KeyedWritten(g, r, bag), RestTokens(g, r, bag);
    var b := ItemTexts(items);
    PlainSpellsNothing(g, r, a);
    PlainSpellsNothing(g, r, c);
    ItemsRead(g, r, items);
    PlainConcat(a + b, c);
    PlainConcat(a, b);
    assert a + [] == a;
    ReadConcat(g, r, a + b, c);
    ReadConcat(g, r, a, b);
    forall name
      ensures LastSpelled(g, r, a + b + c, name) == ItemValue(r, items, name)
    {
      SpelledConcat(g, r, a + b, c, name);
      SpelledConcat(g, r, a, b, name);
    }
  }

  /** What a parameter is set to, when every token of the run is accepted in its place. */
  function OutcomeInPlace(g: Grammar, r: Rules, bag: seq<Entry>, name: string): Option<Value> {
    var n := |Run(g, r, bag)|;
    if RestIsLeft(g, r, bag) && g.rest == Some(name) then Some(Text(RestTokens(g, r, bag)[0]))
    else
      match SlotNamed(g.positional, name)
      case None => ItemValue(r, KeyedWritten(g, r, bag), name)
      case Some(j) =>
        if j < n then r.coerce(g.positional[j].argType, SlotTokens(r, bag, Run(g, r, bag))[j])
        else if RestSlot(g, r, bag) == Some(j) then r.coerce(g.positional[j].argType, RestTokens(g, r, bag)[0])
        else ItemValue(r, KeyedWritten(g, r, bag), name)
  }

  /** One token, offered to the slots from `n` on. */
  lemma HandOne(r: Rules, slots: seq<Slot>, token: string, n: nat, j: nat)
    ensures LeftFrom(r, slots, [token], n) == if FirstTaker(r, slots, token, n).None? then [token] else []
    ensures TokenFor(r, slots, [token], n, j) == if FirstTaker(r, slots, token, n) == Some(j) then Some(token) else None
  {
    assert [token][1..] == [];
  }

  /** Which tokens the slots get, and which are left. */
  lemma HandedInPlace(g: Grammar, r: Rules, bag: seq<Entry>, j: nat)
    requires Plainly(g, r, bag) && RunAccepts(g, r, bag)
    ensures Leftovers(g, r, WrittenArgs(g, r, bag)) == if RestIsLeft(g, r, bag) then RestTokens(g, r, bag) else []
    ensures TokenOfSlot(g, r, WrittenArgs(g, r, bag), j)
         == if j < |Run(g, r, bag)| then Some(SlotTokens(r, bag, Run(g, r, bag))[j])
            else if RestSlot(g, r, bag) == Some(j) then Some(RestTokens(g, r, bag)[0]) else None
  {
    var a, c := SlotTokens(r, bag, Run(g, r, bag)), RestTokens(g, r, bag);
    WrittenRead(g, r, bag);
    forall i | 0 <= i < |a|
      ensures r.coerce(g.positional[i].argType, a[i]).Some?
    {
      assert Accepts(g, r, bag, i);
    }
    HandedInOrder(r, g.positional, a, c, 0, j);
    assert a[0..] == a;
    if c != [] {
      assert c == [c[0]];
      HandOne(r, g.positional, c[0], |a|, j);
    }
  }

  /** The outcome of a parameter by its parts: what is left, its slot's token, its last keyed value. */
  lemma OutcomeIs(g: Grammar, r: Rules, args: seq<string>, name: string, left: seq<string>, spelled: Option<Value>)
    requires Leftovers(g, r, args) == left && LastSpelled(g, r, args, name) == spelled
    ensures Outcome(g, r, args, name) ==
            if g.rest == Some(name) && left != [] then Some(Text(Joined(left)))
            else
              match SlotNamed(g.positional, name)
              case None => spelled
              case Some(j) =>
                match TokenOfSlot(g, r, args, j)
                case None => spelled
                case Some(token) => r.coerce(g.positional[j].argType, token)
  {
  }

  lemma SpelledInPlace(g: Grammar, r: Rules, bag: seq<Entry>, name: string)
    requires Plainly(g, r, bag)
    ensures LastSpelled(g, r, WrittenArgs(g, r, bag), name) == ItemValue(r, KeyedWritten(g, r, bag), name)
  {
    WrittenRead(g, r, bag);
  }

  /** Each parameter's outcome, in place. */
  lemma OutcomesInPlace(g: Grammar, r: Rules, bag: seq<Entry>, name: string)
    requires Plainly(g, r, bag) && RunAccepts(g, r, bag)
    ensures Outcome(g, r, WrittenArgs(g, r, bag), name) == OutcomeInPlace(g, r, bag, name)
  {
    var args, j := WrittenArgs(g, r, bag), SlotNamed(g.positional, name);
    SpelledInPlace(g, r, bag, name);
    HandedInPlace(g, r, bag, if j.Some? then j.value else 0);
    OutcomeIs(g, r, args, name, Leftovers(g, r, args), ItemValue(r, KeyedWritten(g, r, bag), name));
  }

  // ---------------------------------------------------------------- the conditions, kind by kind

  /** A run's slot: its token is its value's, unless the same parameter is the rest and gets what is left. */
  predicate SlotComesBack(g: Grammar, r: Rules, bag: seq<Entry>, i: nat)
    requires i < |Run(g, r, bag)|
  {
    var slot := g.positional[i];
    && Accepts(g, r, bag, i)
    && ((RestIsLeft(g, r, bag) && g.rest == Some(slot.name))
        || Comes(r, slot.argType, SlotTokens(r, bag, Run(g, r, bag))[i], Get(bag, slot.name)))
  }

  /** A keyed argument: its token coerces, to its value unless its slot takes the rest's token. */
  predicate ItemComesBack(g: Grammar, r: Rules, bag: seq<Entry>, item: Item) {
    && r.coerce(item.spec.argType, item.token).Some?
    && (RestTakenBy(g, r, bag, item.spec.name) || Comes(r, item.spec.argType, item.token, Get(bag, item.spec.name)))
  }

  predicate RestTakenBy(g: Grammar, r: Rules, bag: seq<Entry>, name: string) {
    RestSlot(g, r, bag).Some? && g.positional[RestSlot(g, r, bag).value].name == name
  }

  /** A slot past the run: optional, or set by its key or by the rest's token. */
  predicate SlotIsSet(g: Grammar, r: Rules, bag: seq<Entry>, j: nat)
    requires j < |g.positional|
  {
    g.positional[j].optional || g.positional[j].name in ItemNames(KeyedWritten(g, r, bag))
        || RestSlot(g, r, bag) == Some(j)
  }

  /**
   * The rest: left over it is its own text; taken by a slot it is that slot's value, and the slot is a written one's.
   */
  predicate RestComesBack(g: Grammar, r: Rules, bag: seq<Entry>) {
    RestTokens(g, r, bag) == [] ||
    match RestSlot(g, r, bag)
    case None => Get(bag, g.rest.value) == Text(RestTokens(g, r, bag)[0])
    case Some(j) =>
      var slot := g.positional[j];
      && Comes(r, slot.argType, RestTokens(g, r, bag)[0], Get(bag, slot.name))
      && (slot.name == g.rest.value
          || (g.rest.value in SlotNames(Run(g, r, bag)) && slot.name in ItemNames(KeyedWritten(g, r, bag))))
  }

  ghost predicate ComesBack(g: Grammar, r: Rules, bag: seq<Entry>) {
    && (forall i :: 0 <= i < |Run(g, r, bag)| ==> SlotComesBack(g, r, bag, i))
    && (forall item :: item in KeyedWritten(g, r, bag) ==> ItemComesBack(g, r, bag, item))
    && (forall j :: |Run(g, r, bag)| <= j < |g.positional| ==> SlotIsSet(g, r, bag, j))
    && RestComesBack(g, r, bag)
  }

  /** If the rest is a slot of the run, that slot accepts its own token. */
  ghost predicate RestSlotAccepts(g: Grammar, r: Rules, bag: seq<Entry>) {
    forall i :: 0 <= i < |Run(g, r, bag)| && g.rest == Some(g.positional[i].name) ==> Accepts(g, r, bag, i)
  }

  lemma SlotNamedIs(slots: seq<Slot>, j: nat)
    requires DistinctSlots(slots) && j < |slots|
    ensures SlotNamed(slots, slots[j].name) == Some(j)
  {
    assert slots[j] in slots;
  }

  // ---------------------------------------------------------------- the outcomes, kind by kind

  lemma RunOutcome(g: Grammar, r: Rules, bag: seq<Entry>, i: nat)
    requires DistinctSlots(g.positional) && i < |Run(g, r, bag)|
    ensures OutcomeInPlace(g, r, bag, g.positional[i].name)
         == if RestIsLeft(g, r, bag) && g.rest == Some(g.positional[i].name) then Some(Text(RestTokens(g, r, bag)[0]))
            else r.coerce(g.positional[i].argType, SlotTokens(r, bag, Run(g, r, bag))[i])
  {
    SlotNamedIs(g.positional, i);
  }

  /**
   * Outside the run, and not the rest: the slot that takes the rest's token, or the keyed argument, if there is one.
   */
  lemma OtherOutcome(g: Grammar, r: Rules, bag: seq<Entry>, name: string)
    requires DistinctSlots(g.positional) && name !in SlotNames(Run(g, r, bag))
    requires g.rest == Some(name) ==> !RestIsLeft(g, r, bag)
    ensures OutcomeInPlace(g, r, bag, name)
         == if RestTakenBy(g, r, bag, name) then r.coerce(g.positional[RestSlot(g, r, bag).value].argType,
             RestTokens(g, r, bag)[0])
            else ItemValue(r, KeyedWritten(g, r, bag), name)
  {
    var j, n := SlotNamed(g.positional, name), |Run(g, r, bag)|;
    var run := Run(g, r, bag);
    assert forall i :: 0 <= i < n ==> run[i] == g.positional[i] && run[i] in run;
    if RestTakenBy(g, r, bag, name) {
      SlotNamedIs(g.positional, RestSlot(g, r, bag).value);
    }
  }

  lemma RunName(g: Grammar, r: Rules, bag: seq<Entry>, name: string) returns (i: nat)
    requires name in SlotNames(Run(g, r, bag))
    ensures i < |Run(g, r, bag)| && g.positional[i].name == name
  {
    var run := Run(g, r, bag);
    var slot :| slot in run && slot.name == name;
    i :| 0 <= i < |run| && run[i] == slot;
  }

  lemma RunNameIn(g: Grammar, r: Rules, bag: seq<Entry>, i: nat)
    requires i < |Run(g, r, bag)|
    ensures g.positional[i].name in SlotNames(Run(g, r, bag)) && g.positional[i].name in WrittenNames(g, r, bag)
  {
    assert Run(g, r, bag)[i] == g.positional[i] && Run(g, r, bag)[i] in Run(g, r, bag);
  }

  lemma ItemNamed(items: seq<Item>, name: string) returns (item: Item)
    requires name in ItemNames(items)
    ensures item in items && item.spec.name == name
  {
    NamesOfItems(items);
    item :| item in items && item.spec.name == name;
  }

  /** The slot that takes the rest's token is past the run. */
  lemma TakerIsPast(g: Grammar, r: Rules, bag: seq<Entry>)
    requires DistinctSlots(g.positional) && RestSlot(g, r, bag).Some?
    ensures var j := RestSlot(g, r, bag).value;
            && |Run(g, r, bag)| <= j < |g.positional| && g.positional[j].name !in SlotNames(Run(g, r, bag))
            && r.coerce(g.positional[j].argType, RestTokens(g, r, bag)[0]).Some?
  {
    var j, name := RestSlot(g, r, bag).value, g.positional[RestSlot(g, r, bag).value].name;
    if name in SlotNames(Run(g, r, bag)) {
      var i := RunName(g, r, bag, name);
    }
  }

  // ---------------------------------------------------------------- when all come back

  lemma AcceptedInPlace(g: Grammar, r: Rules, bag: seq<Entry>)
    requires Distinct(bag) && Plainly(g, r, bag) && RunAccepts(g, r, bag)
    ensures Accepted(g, r, WrittenArgs(g, r, bag)) <==>
            && AllCoerce(r, KeyedWritten(g, r, bag))
            && forall j :: |Run(g, r, bag)| <= j < |g.positional| ==> SlotIsSet(g, r, bag, j)
  {
    var args, items := WrittenArgs(g, r, bag), KeyedWritten(g, r, bag);
    WrittenRead(g, r, bag);
    HandedInPlace(g, r, bag, 0);
    ItemsWrittenAre(g, r, bag);
    if AllCoerce(r, items) {
      forall j | 0 <= j < |g.positional|
        ensures (g.positional[j].optional || TokenOfSlot(g, r, args, j).Some?
            || LastSpelled(g, r, args, g.positional[j].name).Some?)
           <==> j < |Run(g, r, bag)| || SlotIsSet(g, r, bag, j)
      {
        HandedInPlace(g, r, bag, j);
        ItemIsThere(r, items, g.positional[j].name);
      }
    }
  }

  lemma ItemIsThere(r: Rules, items: seq<Item>, name: string)
    requires DistinctItems(items) && AllCoerce(r, items)
    ensures ItemValue(r, items, name).Some? <==> name in ItemNames(items)
  {
    ItemValueOf(r, items, name);
    if name in ItemNames(items) {
      var item := ItemNamed(items, name);
    }
  }

  /** With every token of the run accepted: recoverable exactly when each kind of token comes back. */
  lemma RecoverableInPlace(g: Grammar, r: Rules, bag: seq<Entry>)
    requires DistinctSlots(g.positional) && Distinct(bag) && Plainly(g, r, bag) && RunAccepts(g, r, bag)
    ensures Recoverable(g, r, bag) <==> ComesBack(g, r, bag)
  {
    AcceptedInPlace(g, r, bag);
    forall name
      ensures Outcome(g, r, WrittenArgs(g, r, bag), name) == OutcomeInPlace(g, r, bag, name)
    {
      OutcomesInPlace(g, r, bag, name);
    }
    if Recoverable(g, r, bag) {
      RecoverableComes(g, r, bag);
    }
    if ComesBack(g, r, bag) {
      forall name
        ensures OutcomeInPlace(g, r, bag, name) == if name in WrittenNames(g, r, bag) then Some(Get(bag, name))
            else None
      {
        ComesToValue(g, r, bag, name);
      }
    }
  }

  ghost predicate AllOutcomes(g: Grammar, r: Rules, bag: seq<Entry>) {
    forall name :: OutcomeInPlace(g, r, bag, name) == if name in WrittenNames(g, r, bag) then Some(Get(bag, name))
        else None
  }

  lemma RecoverableComes(g: Grammar, r: Rules, bag: seq<Entry>)
    requires DistinctSlots(g.positional) && Distinct(bag) && RunAccepts(g, r, bag)
    requires AllCoerce(r, KeyedWritten(g, r, bag))
    requires forall j :: |Run(g, r, bag)| <= j < |g.positional| ==> SlotIsSet(g, r, bag, j)
    requires AllOutcomes(g, r, bag)
    ensures ComesBack(g, r, bag)
  {
    forall i | 0 <= i < |Run(g, r, bag)|
      ensures SlotComesBack(g, r, bag, i)
    {
      RunOutcome(g, r, bag, i);
      RunNameIn(g, r, bag, i);
      assert Accepts(g, r, bag, i);
    }
    ItemsWrittenAre(g, r, bag);
    forall item | item in KeyedWritten(g, r, bag)
      ensures ItemComesBack(g, r, bag, item)
    {
      OtherOutcome(g, r, bag, item.spec.name);
      ItemValueOf(r, KeyedWritten(g, r, bag), item.spec.name);
    }
    RestMustCome(g, r, bag);
  }

  lemma RestMustCome(g: Grammar, r: Rules, bag: seq<Entry>)
    requires DistinctSlots(g.positional) && Distinct(bag) && AllOutcomes(g, r, bag)
    ensures RestComesBack(g, r, bag)
  {
    if RestTokens(g, r, bag) != [] {
      var q := g.rest.value;
      assert OutcomeInPlace(g, r, bag, q) == Some(Get(bag, q));
      if RestSlot(g, r, bag).Some? {
        var name := g.positional[RestSlot(g, r, bag).value].name;
        TakerIsPast(g, r, bag);
        OtherOutcome(g, r, bag, name);
        assert OutcomeInPlace(g, r, bag, name).Some?;
        if name != q {
          RestNotAnItem(g, r, bag);
          if q !in SlotNames(Run(g, r, bag)) {
            OtherOutcome(g, r, bag, q);
          }
        }
      }
    }
  }

  /** The rest is never written as a keyed argument. */
  lemma RestNotAnItem(g: Grammar, r: Rules, bag: seq<Entry>)
    requires Distinct(bag) && g.rest.Some?
    ensures g.rest.value !in ItemNames(KeyedWritten(g, r, bag))
    ensures ItemValue(r, KeyedWritten(g, r, bag), g.rest.value) == None
  {
    KeyedNamesAre(g, r, bag, g.rest.value);
    ItemsWrittenAre(g, r, bag);
    ItemValueOf(r, KeyedWritten(g, r, bag), g.rest.value);
  }

  /** When each kind of token comes back, every parameter has its value and no other has one. */
  lemma ComesToValue(g: Grammar, r: Rules, bag: seq<Entry>, name: string)
    requires DistinctSlots(g.positional) && Distinct(bag) && ComesBack(g, r, bag)
    ensures OutcomeInPlace(g, r, bag, name) == if name in WrittenNames(g, r, bag) then Some(Get(bag, name)) else None
  {
    var items := KeyedWritten(g, r, bag);
    if name in SlotNames(Run(g, r, bag)) {
      var i := RunName(g, r, bag, name);
      RunOutcome(g, r, bag, i);
      assert SlotComesBack(g, r, bag, i);
    } else if g.rest == Some(name) && RestIsLeft(g, r, bag) {
      assert RestComesBack(g, r, bag);
    } else {
      OtherOutcome(g, r, bag, name);
      ItemsWrittenAre(g, r, bag);
      ItemValueOf(r, items, name);
      if name in ItemNames(items) {
        var item := ItemNamed(items, name);
        assert ItemComesBack(g, r, bag, item);
      } else if RestTakenBy(g, r, bag, name) {
        TakerIsPast(g, r, bag);
      }
    }
  }

  /** If everything comes back, every slot of the run accepted its own token. */
  lemma RecoverableAccepts(g: Grammar, r: Rules, bag: seq<Entry>)
    requires DistinctSlots(g.positional) && Distinct(bag) && Plainly(g, r, bag) && RestSlotAccepts(g, r, bag)
    requires Recoverable(g, r, bag)
    ensures RunAccepts(g, r, bag)
  {
    var a, c, args := SlotTokens(r, bag, Run(g, r, bag)), RestTokens(g, r, bag), WrittenArgs(g, r, bag);
    WrittenRead(g, r, bag);
    assert a[0..] == a;
    ItemsWrittenAre(g, r, bag);
    forall i | 0 <= i < |a|
      ensures r.coerce(g.positional[i].argType, a[i]).Some? || TokenFor(r, g.positional, a[0..] + c, 0, i).Some?
    {
      var name := g.positional[i].name;
      RunNameIn(g, r, bag, i);
      SlotNamedIs(g.positional, i);
      KeyedNamesAre(g, r, bag, name);
      ItemValueOf(r, KeyedWritten(g, r, bag), name);
      assert LastSpelled(g, r, args, name) == None;
      assert Outcome(g, r, args, name) == Some(Get(bag, name));
      if g.rest == Some(name) {
        assert Accepts(g, r, bag, i);
      }
    }
    HandedToAll(r, g.positional, a, c, 0);
  }

  /**
   * Where no token of the run or the rest has the shape of a key and the keys written read back (and, if the rest is
   * a slot of the run, that slot accepts its token): everything comes back if and only if each slot of the run reads
   * its token as its value, each keyed token coerces to its value, the other slots are optional or set, and the rest's
   * token is left over as its own text or read as its value by its own slot.
   */
  lemma RecoveredInPlace(g: Grammar, r: Rules, bag: seq<Entry>)
    requires DistinctSlots(g.positional) && Distinct(bag) && Plainly(g, r, bag) && RestSlotAccepts(g, r, bag)
    ensures Recovered(g, r, bag) <==> ComesBack(g, r, bag)
  {
    ParseUndoesFormat(g, r, bag);
    if Recoverable(g, r, bag) {
      RecoverableAccepts(g, r, bag);
    }
    if ComesBack(g, r, bag) {
      ComesAccepts(g, r, bag);
    }
    if RunAccepts(g, r, bag) {
      RecoverableInPlace(g, r, bag);
    }
  }

  lemma ComesAccepts(g: Grammar, r: Rules, bag: seq<Entry>)
    requires ComesBack(g, r, bag)
    ensures RunAccepts(g, r, bag)
  {
    forall i | 0 <= i < |Run(g, r, bag)|
      ensures Accepts(g, r, bag, i)
    {
      assert SlotComesBack(g, r, bag, i);
    }
  }

  // ---------------------------------------------------------------- names apart

  lemma {:induction false} KeyedForIsKeyed(r: Rules, keyed: seq<Keyed>, typed: string)
    ensures var k := KeyedFor(r, keyed, typed); k.Some? ==> k.value in keyed
  {
    if keyed != [] {
      KeyedForIsKeyed(r, keyed[..|keyed| - 1], typed);
    }
  }

  /** Where names are apart, no keyed argument sets a slot's parameter or the rest. */
  lemma {:induction false} SpelledApart(g: Grammar, r: Rules, args: seq<string>, name: string)
    requires NamesApart(g, r) && LastSpelled(g, r, args, name).Some?
    ensures name !in SlotNames(g.positional) && g.rest != Some(name)
  {
    var text := args[|args| - 1];
    var spelled := SpelledBy(g, r, text);
    if spelled.Some? && spelled.value.0 == name {
      KeyedForIsKeyed(r, g.keyed, r.upper(text[..KeyEnd(text).value]));
    } else {
      SpelledApart(g, r, args[..|args| - 1], name);
    }
  }

  /** Slots that each get a token take as many, and the leftovers are more. */
  lemma {:induction false} TokensSuffice(r: Rules, slots: seq<Slot>, tokens: seq<string>, s: nat, n: nat)
    requires s <= n <= |slots| && forall i :: s <= i < n ==> TokenFor(r, slots, tokens, s, i).Some?
    ensures n - s + |LeftFrom(r, slots, tokens, s)| <= |tokens|
    decreases n - s
  {
    if s < n {
      assert TokenFor(r, slots, tokens, s, s).Some?;
      PassedOver(r, slots, tokens, s);
      var more, next := tokens[1..], s + 1;
      forall i | next <= i < n
        ensures TokenFor(r, slots, more, next, i).Some?
      {
        assert TokenFor(r, slots, tokens, s, i).Some?;
      }
      TokensSuffice(r, slots, more, next, n);
    } else {
      LeftIsPart(r, slots, tokens, s);
    }
  }

  lemma {:induction false} LeftIsPart(r: Rules, slots: seq<Slot>, tokens: seq<string>, s: nat)
    ensures |LeftFrom(r, slots, tokens, s)| <= |tokens|
    decreases |tokens|
  {
    if tokens != [] && FirstTaker(r, slots, tokens[0], s).Some? {
      LeftIsPart(r, slots, tokens[1..], FirstTaker(r, slots, tokens[0], s).value + 1);
    }
  }

  lemma {:induction false} PlainSize(args: seq<string>)
    ensures |PlainOf(args)| <= |args|
    ensures |PlainOf(args)| == |args| ==> AllPlain(args)
  {
    if args != [] {
      PlainSize(args[..|args| - 1]);
    }
  }

  /** Where names are apart, nothing comes back whole unless every plain token is plain. */
  lemma ApartIsPlain(g: Grammar, r: Rules, bag: seq<Entry>)
    requires DistinctSlots(g.positional) && NamesApart(g, r) && Distinct(bag) && Recovered(g, r, bag)
    ensures Plainly(g, r, bag)
  {
    var a, items, c := SlotTokens(r, bag, Run(g, r, bag)), KeyedWritten(g, r, bag), RestTokens(g, r, bag);
    ParseUndoesFormat(g, r, bag);
    ItemsWrittenAre(g, r, bag);
    PlainInParts(g, r, a, items, c);
    EnoughTokens(g, r, bag);
    PlainSize(a);
    PlainSize(c);
  }

  /** As many plain arguments are needed as the run and the rest have tokens. */
  lemma EnoughTokens(g: Grammar, r: Rules, bag: seq<Entry>)
    requires DistinctSlots(g.positional) && NamesApart(g, r) && Recoverable(g, r, bag)
    ensures |PlainOf(WrittenArgs(g, r, bag))| >= |Run(g, r, bag)| + |RestTokens(g, r, bag)|
  {
    var plain := PlainOf(WrittenArgs(g, r, bag));
    forall i | 0 <= i < |Run(g, r, bag)|
      ensures TokenFor(r, g.positional, plain, 0, i).Some?
    {
      SlotNeedsToken(g, r, bag, i);
    }
    TokensSuffice(r, g.positional, plain, 0, |Run(g, r, bag)|);
    if RestTokens(g, r, bag) != [] {
      RestNeedsToken(g, r, bag);
    }
  }

  lemma PlainInParts(g: Grammar, r: Rules, a: seq<string>, items: seq<Item>, c: seq<string>)
    requires forall item :: item in items ==> KeyReads(g, r, item.spec)
    ensures PlainOf(a + ItemTexts(items) + c) == PlainOf(a) + PlainOf(c)
  {
    var b := ItemTexts(items);
    ItemsRead(g, r, items);
    PlainConcat(a + b, c);
    PlainConcat(a, b);
    assert PlainOf(a) + [] == PlainOf(a);
  }

  lemma SlotNeedsToken(g: Grammar, r: Rules, bag: seq<Entry>, i: nat)
    requires DistinctSlots(g.positional) && NamesApart(g, r) && Recoverable(g, r, bag) && i < |Run(g, r, bag)|
    ensures TokenOfSlot(g, r, WrittenArgs(g, r, bag), i).Some?
  {
    var name := g.positional[i].name;
    RunNameIn(g, r, bag, i);
    SlotNamedIs(g.positional, i);
    assert g.positional[i] in g.positional;
    assert Outcome(g, r, WrittenArgs(g, r, bag), name) == Some(Get(bag, name));
    if LastSpelled(g, r, WrittenArgs(g, r, bag), name).Some? {
      SpelledApart(g, r, WrittenArgs(g, r, bag), name);
    }
  }

  lemma RestNeedsToken(g: Grammar, r: Rules, bag: seq<Entry>)
    requires NamesApart(g, r) && Recoverable(g, r, bag) && RestTokens(g, r, bag) != []
    ensures Leftovers(g, r, WrittenArgs(g, r, bag)) != []
  {
    var q := g.rest.value;
    assert Outcome(g, r, WrittenArgs(g, r, bag), q) == Some(Get(bag, q));
    if LastSpelled(g, r, WrittenArgs(g, r, bag), q).Some? {
      SpelledApart(g, r, WrittenArgs(g, r, bag), q);
    }
  }

  /** Where no two of slots, keys and rest name one parameter, the conditions are exact on every bag. */
  lemma RecoveredApart(g: Grammar, r: Rules, bag: seq<Entry>)
    requires DistinctSlots(g.positional) && NamesApart(g, r) && Distinct(bag)
    ensures Recovered(g, r, bag) <==> Plainly(g, r, bag) && ComesBack(g, r, bag)
  {
    if Recovered(g, r, bag) {
      ApartIsPlain(g, r, bag);
    }
    if Plainly(g, r, bag) {
      assert forall i :: 0 <= i < |Run(g, r, bag)| ==> g.positional[i] in g.positional;
      RecoveredInPlace(g, r, bag);
    }
  }

  // ---------------------------------------------------------------- a rest that is a slot

  /** Window and query slots with a query rest: a query alone goes to its own slot, and comes back. */
  lemma {:induction false} RestInItsOwnSlot(g: Grammar, r: Rules, window: ArgType, query: ArgType, bag: seq<Entry>,
                                            text: string)
    requires g == Grammar([Slot("window", window, true), Slot("q", query, true)], [], Some("q"))
    requires bag == [Entry("q", Text(text))] && text != "" && KeyEnd(text).None?
    requires r.coerce(window, text).None? && r.coerce(query, text) == Some(Text(text))
    ensures FormattedArgs(g, r, bag).args == [text] && Recovered(g, r, bag)
  {
    QueryWritten(g, r, bag, text);
    WrittenInFull(g, r, bag);
    assert FirstTaker(r, g.positional, text, 1) == Some(1) == FirstTaker(r, g.positional, text, 0);
    RecoveredInPlace(g, r, bag);
  }

  lemma QueryWritten(g: Grammar, r: Rules, bag: seq<Entry>, text: string)
    requires |g.positional| == 2 && g.positional[0].name == "window" && g.rest == Some("q")
    requires bag == [Entry("q", Text(text))] && text != ""
    ensures Run(g, r, bag) == [] && KeyedWritten(g, r, bag) == [] && RestTokens(g, r, bag) == [text]
    ensures Get(bag, "q") == Text(text)
  {
    assert bag[..0] == [];
    assert Get(bag, "q") == Text(text) && Get(bag, "window") == Get(bag[..0], "window") == Undefined;
    assert Run(g, r, bag) == [];
    assert SlotNames([]) == {} && Outside(g, {}, bag) == Outside(g, {}, bag[..0]) + [] == [];
  }
}
