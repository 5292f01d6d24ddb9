/** Which keyed values a parse overwrites: on which command line, and in which grammar. */
module CommandArgsOverwrites {
  import opened Util
  import opened CommandArgs
  import opened CommandArgsWritten
  import opened CommandArgsMeaning
  import opened CommandArgsRecovery

  /** A keyed value survives if and only if nothing later sets the parameter to another. */
  lemma KeptExactly(g: Grammar, r: Rules, args: seq<string>, name: string)
    requires DistinctSlots(g.positional) && LastSpelled(g, r, args, name).Some?
    ensures name in ParsedArgs(g, r, args).params
    ensures var kept, later := LastSpelled(g, r, args, name), LaterValue(g, r, args, name);
            Some(ParsedArgs(g, r, args).params[name]) == kept <==> later == None || later == kept
  {
    ParsedMeans(g, r, args);
    assert Lookup(ParsedArgs(g, r, args).params, name) == Outcome(g, r, args, name);
  }

  /** Where keyed parameters are neither slots nor the rest, every keyed value survives. */
  lemma KeyedIsKept(g: Grammar, r: Rules, args: seq<string>, name: string)
    requires DistinctSlots(g.positional) && NamesApart(g, r) && LastSpelled(g, r, args, name).Some?
    ensures name in ParsedArgs(g, r, args).params
    ensures Some(ParsedArgs(g, r, args).params[name]) == LastSpelled(g, r, args, name)
  {
    SpelledApart(g, r, args, name);
    KeptExactly(g, r, args, name);
  }

  // ---------------------------------------------------------------- which grammars can lose a keyed value

  /** A keyed argument that sets a parameter to a value. */
  predicate Spells(g: Grammar, r: Rules, text: string, name: string, value: Value) {
    SpelledBy(g, r, text) == Some((name, value))
  }

  /** A plain argument that a slot accepts as a value. */
  ghost predicate Admits(r: Rules, slot: Slot, token: string, value: Value) {
    KeyEnd(token).None? && r.coerce(slot.argType, token) == Some(value)
  }

  /** Every required slot before `j` can be filled. */
  ghost predicate Reachable(r: Rules, slots: seq<Slot>, s: nat, j: nat)
    requires j <= |slots|
  {
    forall i :: s <= i < j ==> slots[i].optional || exists token, value :: Admits(r, slots[i], token, value)
  }

  /** A keyed value of the parameter does not survive some command line. */
  predicate Loses(g: Grammar, r: Rules, args: seq<string>, name: string) {
    var kept := LastSpelled(g, r, args, name);
    kept.Some? && Lookup(ParsedArgs(g, r, args).params, name) != kept
  }

  /** A slot of that name can be reached and accepts an argument for another value. */
  ghost predicate SlotDisagrees(g: Grammar, r: Rules, name: string, kept: Value) {
    exists j, token, value ::
      && 0 <= j < |g.positional| && g.positional[j].name == name && Reachable(r, g.positional, 0, j)
      && Admits(r, g.positional[j], token, value) && value != kept
  }

  /** Some key sets the parameter, and it is the rest or such a slot's. */
  ghost predicate CanLose(g: Grammar, r: Rules, name: string) {
    exists text, kept :: Spells(g, r, text, name, kept) && (g.rest == Some(name) || SlotDisagrees(g, r, name, kept))
  }

  lemma {:induction false} KeyedWasSpelled(g: Grammar, r: Rules, args: seq<string>, name: string)
    requires LastSpelled(g, r, args, name).Some?
    ensures exists text :: Spells(g, r, text, name, LastSpelled(g, r, args, name).value)
  {
    var text := args[|args| - 1];
    var spelled := SpelledBy(g, r, text);
    if spelled.Some? && spelled.value.0 == name {
      assert Spells(g, r, text, name, spelled.value.1);
    } else {
      KeyedWasSpelled(g, r, args[..|args| - 1], name);
    }
  }

  lemma {:induction false} PassIsPlain(args: seq<string>)
    ensures AllPlain(PlainOf(args))
  {
    if args != [] {
      PassIsPlain(args[..|args| - 1]);
    }
  }

  /** A slot that gets a plain token was reached over slots that are optional or accept one. */
  lemma {:induction false} TokenReaches(r: Rules, slots: seq<Slot>, tokens: seq<string>, s: nat, j: nat)
    requires AllPlain(tokens) && TokenFor(r, slots, tokens, s, j).Some?
    ensures Reachable(r, slots, s, j)
    decreases |tokens|
  {
    var i := FirstTaker(r, slots, tokens[0], s).value;
    if i != j {
      assert Admits(r, slots[i], tokens[0], r.coerce(slots[i].argType, tokens[0]).value);
      TokenReaches(r, slots, tokens[1..], i + 1, j);
    }
  }

  lemma LossIsPossible(g: Grammar, r: Rules, args: seq<string>, name: string)
    requires DistinctSlots(g.positional) && Loses(g, r, args, name)
    ensures CanLose(g, r, name)
  {
    var kept := LastSpelled(g, r, args, name).value;
    ParsedMeans(g, r, args);
    assert Lookup(ParsedArgs(g, r, args).params, name) == Outcome(g, r, args, name);
    KeyedWasSpelled(g, r, args, name);
    var text :| Spells(g, r, text, name, kept);
    if g.rest != Some(name) {
      var j := SlotNamed(g.positional, name).value;
      var token := TokenOfSlot(g, r, args, j).value;
      PassIsPlain(args);
      TokenReaches(r, g.positional, PlainOf(args), 0, j);
      assert Admits(r, g.positional[j], token, LaterValue(g, r, args, name).value);
      assert SlotDisagrees(g, r, name, kept);
    }
  }

  /** Plain arguments that bring the last of them to slot `j`: one for each slot before it that accepts any. */
  lemma {:induction false} FeedTo(r: Rules, slots: seq<Slot>, last: string, s: nat,
                                  j: nat) returns (tokens: seq<string>)
    requires s <= j < |slots| && Reachable(r, slots, s, j)
    requires KeyEnd(last).None? && r.coerce(slots[j].argType, last).Some?
    ensures AllPlain(tokens) && tokens != [] && TokenFor(r, slots, tokens, s, j) == Some(last)
    decreases j - s
  {
    if s == j {
      tokens := [last];
    } else {
      tokens := FeedTo(r, slots, last, s + 1, j);
      if token, value :| Admits(r, slots[s], token, value) {
        var more := [token] + tokens;
        assert more[1..] == tokens;
        tokens := more;
      } else {
        NoneAccepted(r, slots[s], tokens[0]);
        SkipsTo(r, slots, tokens, s, j);
      }
    }
  }

  lemma NoneAccepted(r: Rules, slot: Slot, token: string)
    requires KeyEnd(token).None? && forall token, value :: !Admits(r, slot, token, value)
    ensures r.coerce(slot.argType, token).None?
  {
    if r.coerce(slot.argType, token).Some? {
      assert Admits(r, slot, token, r.coerce(slot.argType, token).value);
    }
  }

  /** One keyed argument and then plain ones. */
  lemma KeyedThenPlain(g: Grammar, r: Rules, text: string, name: string, kept: Value, tokens: seq<string>)
    requires Spells(g, r, text, name, kept) && AllPlain(tokens)
    ensures LastSpelled(g, r, [text] + tokens, name) == Some(kept)
    ensures PlainOf([text] + tokens) == tokens
  {
    var one := [text];
    assert one[..0] == [] && one[|one| - 1] == text && KeyEnd(text).Some?;
    assert PlainOf(one) == PlainOf(one[..0]) + [] == [];
    assert LastSpelled(g, r, one, name) == Some(kept);
    PlainSpellsNothing(g, r, tokens);
    PlainConcat([text], tokens);
    SpelledConcat(g, r, [text], tokens, name);
  }

  lemma SlotLoses(g: Grammar, r: Rules, text: string, name: string, kept: Value)
    requires DistinctSlots(g.positional) && g.rest != Some(name)
    requires Spells(g, r, text, name, kept) && SlotDisagrees(g, r, name, kept)
    ensures exists args :: Loses(g, r, args, name)
  {
    var j, token, value :|
      && 0 <= j < |g.positional| && g.positional[j].name == name && Reachable(r, g.positional, 0, j)
      && Admits(r, g.positional[j], token, value) && value != kept;
    var tokens := FeedTo(r, g.positional, token, 0, j);
    SlotNamedIs(g.positional, j);
    KeyedThenPlain(g, r, text, name, kept, tokens);
    LaterLoses(g, r, [text] + tokens, name);
  }

  lemma LaterLoses(g: Grammar, r: Rules, args: seq<string>, name: string)
    requires DistinctSlots(g.positional) && LastSpelled(g, r, args, name).Some?
    requires LaterValue(g, r, args, name).Some? && LaterValue(g, r, args, name) != LastSpelled(g, r, args, name)
    ensures Loses(g, r, args, name)
  {
    ParsedMeans(g, r, args);
    assert Lookup(ParsedArgs(g, r, args).params, name) == Outcome(g, r, args, name);
  }

  /** No more tokens find a slot than there are slots. */
  lemma {:induction false} ManyAreLeft(r: Rules, slots: seq<Slot>, tokens: seq<string>, s: nat)
    requires s <= |slots|
    ensures |LeftFrom(r, slots, tokens, s)| >= |tokens| - (|slots| - s)
    decreases |tokens|
  {
    if tokens != [] && FirstTaker(r, slots, tokens[0], s).Some? {
      ManyAreLeft(r, slots, tokens[1..], FirstTaker(r, slots, tokens[0], s).value + 1);
    }
  }

  lemma {:induction false} JoinedIsLong(texts: seq<string>)
    ensures |Joined(texts)| >= |texts| - 1
  {
    if |texts| > 1 {
      JoinedIsLong(texts[..|texts| - 1]);
    }
  }

  /** Enough empty arguments join to a text longer than any one value. */
  lemma RestLoses(g: Grammar, r: Rules, text: string, name: string, kept: Value)
    requires DistinctSlots(g.positional) && g.rest == Some(name) && Spells(g, r, text, name, kept)
    ensures exists args :: Loses(g, r, args, name)
  {
    var n := |g.positional| + 2 + if kept.Text? then |kept.text| else 0;
    var tokens := seq(n, _ => "");
    var args := [text] + tokens;
    KeyedThenPlain(g, r, text, name, kept, tokens);
    ManyAreLeft(r, g.positional, tokens, 0);
    JoinedIsLong(Leftovers(g, r, args));
    LaterLoses(g, r, args, name);
  }

  /**
   * A grammar with distinct slots can lose a keyed value of a parameter if and only if some key sets it and it is the
   * rest, or a slot of that name can be reached and accepts an argument for another value.
   */
  lemma LossExactly(g: Grammar, r: Rules, name: string)
    requires DistinctSlots(g.positional)
    ensures (exists args :: Loses(g, r, args, name)) <==> CanLose(g, r, name)
  {
    if args :| Loses(g, r, args, name) {
      LossIsPossible(g, r, args, name);
    }
    if CanLose(g, r, name) {
      var text, kept :| Spells(g, r, text, name, kept) && (g.rest == Some(name) || SlotDisagrees(g, r, name, kept));
      if g.rest == Some(name) {
        RestLoses(g, r, text, name, kept);
      } else {
        SlotLoses(g, r, text, name, kept);
      }
    }
  }

  // ---------------------------------------------------------------- the smallest such grammar

  /** A keyed value for a slot's parameter is lost to the next positional token. */
  lemma PositionalOverwritesKeyed(r: Rules, argType: ArgType, key: string, name: string, first: string, second: string)
    requires IsKey(key) && KeyEnd(second).None?
    requires r.coerce(argType, first).Some? && r.coerce(argType, second).Some?
    ensures var g := Grammar([Slot(name, argType, true)], [Keyed(key, name, argType)], None);
            && LastSpelled(g, r, [key + "=" + first, second], name) == r.coerce(argType, first)
            && ParsedArgs(g, r, [key + "=" + first, second]) == Parsed(map[name := r.coerce(argType, second).value], [])
  {
    var g := Grammar([Slot(name, argType, true)], [Keyed(key, name, argType)], None);
    var keyed, value := key + "=" + first, r.coerce(argType, second).value;
    var args := [keyed] + [second];
    KeyedReadsBack(key, first);
    assert SpelledBy(g, r, keyed) == Some((name, r.coerce(argType, first).value));
    KeyedThenPlain(g, r, keyed, name, r.coerce(argType, first).value, [second]);
    HandOne(r, g.positional, second, 0, 0);
    assert FirstTaker(r, g.positional, second, 0) == Some(0);
    SlotNamedIs(g.positional, 0);
    assert [keyed, second] == args && args[0] == keyed && args[1] == second;
    forall n
      ensures Outcome(g, r, args, n) == Lookup(map[name := value], n)
    {
      OthersUnset(g, r, keyed, second, name, n);
      OutcomeIs(g, r, args, n, [], LastSpelled(g, r, args, n));
    }
    ParsedExactly(g, r, args, map[name := value]);
  }

  lemma OthersUnset(g: Grammar, r: Rules, keyed: string, plain: string, name: string, n: string)
    requires |g.positional| == 1 && g.positional[0].name == name && KeyEnd(plain).None?
    requires SpelledBy(g, r, keyed).Some? && SpelledBy(g, r, keyed).value.0 == name
    ensures n != name ==> SlotNamed(g.positional, n) == None && LastSpelled(g, r, [keyed] + [plain], n) == None
  {
    var args := [keyed] + [plain];
    assert args[..1] == [keyed] && [keyed][..0] == [];
    assert LastSpelled(g, r, args, n) == LastSpelled(g, r, args[..1], n);
    assert n != name ==> LastSpelled(g, r, [keyed], n) == LastSpelled(g, r, [keyed][..0], n);
  }
}
