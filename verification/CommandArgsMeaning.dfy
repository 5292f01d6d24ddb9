/** What a command line means: where every parameter of a parse comes from, and when there is no problem. */
module CommandArgsMeaning {
  import opened Util
  import opened CommandArgs

  // ---------------------------------------------------------------- filling the slots

  ghost predicate DistinctSlots(slots: seq<Slot>) {
    forall i, j :: 0 <= i < j < |slots| ==> slots[i].name != slots[j].name
  }

  /** The slots from `s` on are still free. */
  ghost predicate FreeFrom(slots: seq<Slot>, s: nat, names: set<string>) {
    forall i :: s <= i < |slots| ==> slots[i].name !in names
  }

  function NamesFrom(slots: seq<Slot>, s: nat): set<string>
    requires s <= |slots|
    decreases |slots| - s
  {
    if s == |slots| then {} else NamesFrom(slots, s + 1) + {slots[s].name}
  }

  lemma {:induction false} NamesFromAre(slots: seq<Slot>, s: nat)
    requires s <= |slots|
    ensures forall name :: name in NamesFrom(slots, s) <==> exists i :: s <= i < |slots| && slots[i].name == name
    decreases |slots| - s
  {
    if s < |slots| {
      NamesFromAre(slots, s + 1);
      assert slots[s].name in NamesFrom(slots, s);
    }
  }

  /** Filling from some state: a slot a token, among the names `open`, and values only for them. */
  ghost predicate Fills(f: Filled, t: nat, params: Params, names: set<string>, free: set<string>) {
    && names <= f.names <= names + free
    && |f.names| == |names| + f.leftoverFrom - t
    && f.params.Keys == params.Keys + (f.names - names)
    && forall name :: name in params && name !in free ==> f.params[name] == params[name]
  }

  lemma FillsOne(f: Filled, t: nat, params: Params, names: set<string>, free: set<string>, name: string, value: Value)
    requires name !in free && name !in names
    requires Fills(f, t + 1, params[name := value], names + {name}, free)
    ensures Fills(f, t, params, names, free + {name}) && f.params[name] == value
  {
    assert |names + {name}| == |names| + 1;
  }

  lemma FillsMore(f: Filled, t: nat, params: Params, names: set<string>, free: set<string>, name: string)
    requires Fills(f, t, params, names, free)
    ensures Fills(f, t, params, names, free + {name})
  {
  }

  lemma FillSkipped(g: Grammar, r: Rules, tokens: seq<string>, t: nat, s: nat, params: Params, names: set<string>)
    requires t < |tokens| && s < |g.positional| && g.positional[s].name !in names
    requires r.coerce(g.positional[s].argType, tokens[t]) == None
    ensures Fill(g, r, tokens, t, s, params, names)
            == if g.positional[s].optional then Fill(g, r, tokens, t, s + 1, params, names)
                else Filled(params, names, t)
  {
  }

  lemma FillsNothing(t: nat, params: Params, names: set<string>, free: set<string>)
    ensures Fills(Filled(params, names, t), t, params, names, free)
  {
  }

  lemma FillTaken(g: Grammar, r: Rules, tokens: seq<string>, t: nat, s: nat, params: Params, names: set<string>,
                  value: Value)
    requires t < |tokens| && s < |g.positional| && g.positional[s].name !in names
    requires r.coerce(g.positional[s].argType, tokens[t]) == Some(value)
    ensures Fill(g, r, tokens, t, s, params, names)
            == Fill(g, r, tokens, t + 1, s + 1, params[g.positional[s].name := value], names + {g.positional[s].name})
  {
  }

  /** What filling does. */
  lemma {:induction false} FillFacts(g: Grammar, r: Rules, tokens: seq<string>, t: nat, s: nat, params: Params,
                                     names: set<string>)
    requires t <= |tokens| && s <= |g.positional|
    requires DistinctSlots(g.positional) && FreeFrom(g.positional, s, names)
    ensures Fills(Fill(g, r, tokens, t, s, params, names), t, params, names, NamesFrom(g.positional, s))
    decreases |tokens| - t + |g.positional| - s
  {
    if t < |tokens| && s < |g.positional| {
      var slot, free := g.positional[s], NamesFrom(g.positional, s + 1);
      var coerced := r.coerce(slot.argType, tokens[t]);
      if coerced.Some? {
        var next := params[slot.name := coerced.value];
        NotAmongLater(g.positional, s);
        FillFacts(g, r, tokens, t + 1, s + 1, next, names + {slot.name});
        FillTaken(g, r, tokens, t, s, params, names, coerced.value);
        FillsOne(Fill(g, r, tokens, t + 1, s + 1, next, names + {slot.name}), t, params, names, free, slot.name,
            coerced.value);
      } else {
        FillSkipped(g, r, tokens, t, s, params, names);
        if slot.optional {
          FillFacts(g, r, tokens, t, s + 1, params, names);
          FillsMore(Fill(g, r, tokens, t, s + 1, params, names), t, params, names, free, slot.name);
        } else {
          FillsNothing(t, params, names, free + {slot.name});
        }
      }
    } else {
      FillsNothing(t, params, names, NamesFrom(g.positional, s));
    }
  }

  lemma NotAmongLater(slots: seq<Slot>, s: nat)
    requires DistinctSlots(slots) && s < |slots|
    ensures slots[s].name !in NamesFrom(slots, s + 1)
  {
    NamesFromAre(slots, s + 1);
  }

  // ---------------------------------------------------------------- handing out the tokens

  /** The first slot from `s` on that accepts a token, if only optional ones refuse it before. */
  function FirstTaker(r: Rules, slots: seq<Slot>, token: string, s: nat): (i: Option<nat>)
    ensures i.Some? ==> s <= i.value < |slots| && r.coerce(slots[i.value].argType, token).Some?
    ensures i.Some? ==> forall k :: s <= k < i.value ==> slots[k].optional && r.coerce(slots[k].argType, token).None?
    decreases |slots| - s
  {
    if s >= |slots| then None
    else if r.coerce(slots[s].argType, token).Some? then Some(s)
    else if slots[s].optional then FirstTaker(r, slots, token, s + 1)
    else None
  }

  /** The token slot `j` gets when these are handed out in order, each behind the slot of the one before. */
  function TokenFor(r: Rules, slots: seq<Slot>, tokens: seq<string>, s: nat, j: nat): (token: Option<string>)
    ensures token.Some? ==> s <= j < |slots| && token.value in tokens && r.coerce(slots[j].argType, token.value).Some?
    decreases |tokens|
  {
    if tokens == [] then None
    else
      match FirstTaker(r, slots, tokens[0], s)
      case None => None
      case Some(i) => if i == j then Some(tokens[0]) else TokenFor(r, slots, tokens[1..], i + 1, j)
  }

  /** A slot that got a token holds its value; one that got none is not filled and keeps what it had. */
  ghost predicate Gives(r: Rules, slots: seq<Slot>, f: Filled, params: Params, j: nat, token: Option<string>)
    requires j < |slots|
  {
    var name := slots[j].name;
    match token
    case Some(text) => name in f.names && name in f.params && r.coerce(slots[j].argType, text) == Some(f.params[name])
    case None => name !in f.names && (name in f.params <==> name in params)
                 && (name in params ==> f.params[name] == params[name])
  }

  /** The slot-filling loop hands out the tokens so. */
  lemma {:induction false} FillGives(g: Grammar, r: Rules, tokens: seq<string>, t: nat, s: nat, params: Params,
                                     names: set<string>, j: nat)
    requires t <= |tokens| && s <= j < |g.positional|
    requires DistinctSlots(g.positional) && FreeFrom(g.positional, s, names)
    ensures Gives(r, g.positional, Fill(g, r, tokens, t, s, params, names), params, j,
        TokenFor(r, g.positional, tokens[t..], s, j))
    decreases |tokens| - t + |g.positional| - s
  {
    if t < |tokens| {
      var slot := g.positional[s];
      var coerced := r.coerce(slot.argType, tokens[t]);
      assert tokens[t..][0] == tokens[t] && tokens[t..][1..] == tokens[t + 1..];
      if coerced.Some? {
        TakenGives(g, r, tokens, t, s, params, names, j, coerced.value);
      } else {
        FillSkipped(g, r, tokens, t, s, params, names);
        if slot.optional {
          SkippedGives(g, r, tokens, t, s, params, names, j);
        }
      }
    }
  }

  lemma {:induction false} TakenGives(g: Grammar, r: Rules, tokens: seq<string>, t: nat, s: nat, params: Params,
                                      names: set<string>, j: nat, value: Value)
    requires t < |tokens| && s <= j < |g.positional|
    requires DistinctSlots(g.positional) && FreeFrom(g.positional, s, names)
    requires r.coerce(g.positional[s].argType, tokens[t]) == Some(value)
    ensures Gives(r, g.positional, Fill(g, r, tokens, t, s, params, names), params, j,
        TokenFor(r, g.positional, tokens[t..], s, j))
    decreases |tokens| - t + |g.positional| - s, 0
  {
    var slot := g.positional[s];
    var next, more := params[slot.name := value], names + {slot.name};
    FillTaken(g, r, tokens, t, s, params, names, value);
    NotAmongLater(g.positional, s);
    if j == s {
      FillFacts(g, r, tokens, t + 1, s + 1, next, more);
      assert TokenFor(r, g.positional, tokens[t..], s, j) == Some(tokens[t]);
    } else {
      FillGives(g, r, tokens, t + 1, s + 1, next, more, j);
      assert tokens[t..][1..] == tokens[t + 1..];
    }
  }

  lemma {:induction false} SkippedGives(g: Grammar, r: Rules, tokens: seq<string>, t: nat, s: nat, params: Params,
                                        names: set<string>, j: nat)
    requires t < |tokens| && s <= j < |g.positional| && g.positional[s].optional
    requires DistinctSlots(g.positional) && FreeFrom(g.positional, s, names)
    requires r.coerce(g.positional[s].argType, tokens[t]) == None
    ensures Gives(r, g.positional, Fill(g, r, tokens, t, s, params, names), params, j,
        TokenFor(r, g.positional, tokens[t..], s, j))
    decreases |tokens| - t + |g.positional| - s, 0
  {
    FillSkipped(g, r, tokens, t, s, params, names);
    SkipsTo(r, g.positional, tokens[t..], s, j);
    if j == s {
      NotAmongLater(g.positional, s);
      FillFacts(g, r, tokens, t, s + 1, params, names);
    } else {
      FillGives(g, r, tokens, t, s + 1, params, names, j);
    }
  }

  lemma SkipsTo(r: Rules, slots: seq<Slot>, tokens: seq<string>, s: nat, j: nat)
    requires s < |slots| && slots[s].optional && tokens != [] && r.coerce(slots[s].argType, tokens[0]).None?
    ensures TokenFor(r, slots, tokens, s, j) == TokenFor(r, slots, tokens, s + 1, j)
  {
  }

  /** The tokens that find no slot: all from the first on that none takes. */
  function LeftFrom(r: Rules, slots: seq<Slot>, tokens: seq<string>, s: nat): seq<string>
    decreases |tokens|
  {
    if tokens == [] then []
    else
      match FirstTaker(r, slots, tokens[0], s)
      case None => tokens
      case Some(i) => LeftFrom(r, slots, tokens[1..], i + 1)
  }

  /** The slot-filling loop leaves those. */
  lemma {:induction false} FillLeaves(g: Grammar, r: Rules, tokens: seq<string>, t: nat, s: nat, params: Params,
                                      names: set<string>)
    requires t <= |tokens| && s <= |g.positional| && DistinctSlots(g.positional) && FreeFrom(g.positional, s, names)
    ensures tokens[Fill(g, r, tokens, t, s, params, names).leftoverFrom..] == LeftFrom(r, g.positional, tokens[t..], s)
    decreases |tokens| - t + |g.positional| - s
  {
    if t < |tokens| && s < |g.positional| {
      var slot := g.positional[s];
      var coerced := r.coerce(slot.argType, tokens[t]);
      assert tokens[t..][0] == tokens[t] && tokens[t..][1..] == tokens[t + 1..];
      if coerced.Some? {
        FillTaken(g, r, tokens, t, s, params, names, coerced.value);
        FillLeaves(g, r, tokens, t + 1, s + 1, params[slot.name := coerced.value], names + {slot.name});
      } else {
        FillSkipped(g, r, tokens, t, s, params, names);
        if slot.optional {
          FillLeaves(g, r, tokens, t, s + 1, params, names);
        }
      }
    }
  }

  lemma {:induction false} NoneMissing(slots: seq<Slot>, has: set<string>)
    ensures MissingSlots(slots, has) == [] <==>
            forall i :: 0 <= i < |slots| ==> slots[i].optional || slots[i].name in has
  {
    if slots != [] {
      var n := |slots| - 1;
      NoneMissing(slots[..n], has);
      assert forall i :: 0 <= i < n ==> slots[..n][i] == slots[i];
    }
  }

  // ---------------------------------------------------------------- the keyed arguments

  /** The arguments that are not shaped like `KEY=value`. */
  function PlainOf(args: seq<string>): seq<string> {
    if args == [] then []
    else PlainOf(args[..|args| - 1]) + if KeyEnd(args[|args| - 1]).None? then [args[|args| - 1]] else []
  }

  /** What a keyed argument sets, when its key is known and its value coerces. */
  function SpelledBy(g: Grammar, r: Rules, text: string): Option<(string, Value)> {
    var end := KeyEnd(text);
    if end.None? then None
    else
      var spec := KeyedFor(r, g.keyed, r.upper(text[..end.value]));
      if spec.None? then None
      else
        match r.coerce(spec.value.argType, text[end.value + 1..])
        case None => None
        case Some(value) => Some((spec.value.name, value))
  }

  /** The value of the last keyed argument for a parameter. */
  function LastSpelled(g: Grammar, r: Rules, args: seq<string>, name: string): Option<Value> {
    if args == [] then None
    else
      var spelled := SpelledBy(g, r, args[|args| - 1]);
      if spelled.Some? && spelled.value.0 == name then Some(spelled.value.1)
      else LastSpelled(g, r, args[..|args| - 1], name)
  }

  predicate AllRead(g: Grammar, r: Rules, args: seq<string>) {
    forall i :: 0 <= i < |args| ==> KeyEnd(args[i]).None? || SpelledBy(g, r, args[i]).Some?
  }

  function Lookup(params: Params, name: string): Option<Value> {
    if name in params then Some(params[name]) else None
  }

  lemma {:induction false} PassMeans(g: Grammar, r: Rules, args: seq<string>)
    ensures var pass := KeyedPass(g, r, args);
            && Texts(pass.tokens) == PlainOf(args)
            && (pass.problems == [] <==> AllRead(g, r, args))
            && forall name :: Lookup(pass.params, name) == LastSpelled(g, r, args, name)
  {
    if args != [] {
      var n := |args| - 1;
      var front, pass := args[..n], KeyedPass(g, r, args[..n]);
      PassMeans(g, r, front);
      StepMeans(g, r, pass, args[n], n);
      assert args == front + [args[n]];
      assert AllRead(g, r, args) <==> AllRead(g, r, front) && (KeyEnd(args[n]).None? || SpelledBy(g, r, args[n]).Some?);
    }
  }

  lemma StepMeans(g: Grammar, r: Rules, pass: Pass, text: string, i: nat)
    ensures var after, spelled := KeyedStep(g, r, pass, text, i), SpelledBy(g, r, text);
            && Texts(after.tokens) == Texts(pass.tokens) + (if KeyEnd(text).None? then [text] else [])
            && (after.problems == [] <==> pass.problems == [] && (KeyEnd(text).None? || spelled.Some?))
            && after.params == if spelled.Some? then pass.params[spelled.value.0 := spelled.value.1] else pass.params
  {
  }

  // ---------------------------------------------------------------- what a command line means

  function SlotNamed(slots: seq<Slot>, name: string): (j: Option<nat>)
    ensures j.Some? ==> j.value < |slots| && slots[j.value].name == name
    ensures j.None? <==> name !in SlotNames(slots)
  {
    if slots == [] then None
    else
      var n := |slots| - 1;
      assert slots == slots[..n] + [slots[n]];
      if slots[n].name == name then Some(n) else SlotNamed(slots[..n], name)
  }

  /** The plain arguments that find no slot. */
  function Leftovers(g: Grammar, r: Rules, args: seq<string>): seq<string> {
    LeftFrom(r, g.positional, PlainOf(args), 0)
  }

  /** The plain argument a slot gets. */
  function TokenOfSlot(g: Grammar, r: Rules, args: seq<string>, j: nat): (token: Option<string>)
    ensures token.Some? ==> j < |g.positional| && r.coerce(g.positional[j].argType, token.value).Some?
  {
    TokenFor(r, g.positional, PlainOf(args), 0, j)
  }

  /** What a parameter is set to behind the keyed arguments: the leftovers joined, or its slot's token. */
  function LaterValue(g: Grammar, r: Rules, args: seq<string>, name: string): Option<Value> {
    if g.rest == Some(name) && Leftovers(g, r, args) != [] then Some(Text(Joined(Leftovers(g, r, args))))
    else
      match SlotNamed(g.positional, name)
      case None => None
      case Some(j) =>
        match TokenOfSlot(g, r, args, j)
        case None => None
        case Some(token) => r.coerce(g.positional[j].argType, token)
  }

  /** What a parameter is set to in all. */
  function Outcome(g: Grammar, r: Rules, args: seq<string>, name: string): Option<Value> {
    var later := LaterValue(g, r, args, name);
    if later.Some? then later else LastSpelled(g, r, args, name)
  }

  /** No problem: every key is known and its value coerces, leftovers have a rest, required slots are set. */
  predicate Accepted(g: Grammar, r: Rules, args: seq<string>) {
    && AllRead(g, r, args)
    && (Leftovers(g, r, args) != [] ==> g.rest.Some?)
    && forall j :: 0 <= j < |g.positional| ==>
         g.positional[j].optional || TokenOfSlot(g, r, args, j).Some?
             || LastSpelled(g, r, args, g.positional[j].name).Some?
  }

  /** After the slots, a parameter's value is its slot's token's or the keyed one. */
  lemma SlotValue(g: Grammar, r: Rules, tokens: seq<string>, params: Params, name: string)
    requires DistinctSlots(g.positional)
    ensures var f := Fill(g, r, tokens, 0, 0, params, {});
            var j := SlotNamed(g.positional, name);
            if j.Some? then Gives(r, g.positional, f, params, j.value, TokenFor(r, g.positional, tokens, 0, j.value))
            else Lookup(f.params, name) == Lookup(params, name)
  {
    var j := SlotNamed(g.positional, name);
    if j.Some? {
      FillGives(g, r, tokens, 0, 0, params, {}, j.value);
      assert tokens[0..] == tokens;
    } else {
      FillFacts(g, r, tokens, 0, 0, params, {});
      NamesFromAre(g.positional, 0);
      assert forall i :: 0 <= i < |g.positional| ==> g.positional[i].name in SlotNames(g.positional);
    }
  }

  /** Where every parameter of a parse comes from, and when the parse reports no problem. */
  lemma ParsedMeans(g: Grammar, r: Rules, args: seq<string>)
    requires DistinctSlots(g.positional)
    ensures forall name :: Lookup(ParsedArgs(g, r, args).params, name) == Outcome(g, r, args, name)
    ensures ParsedArgs(g, r, args).problems == [] <==> Accepted(g, r, args)
  {
    forall name
      ensures Lookup(ParsedArgs(g, r, args).params, name) == Outcome(g, r, args, name)
    {
      ParsedValue(g, r, args, name);
    }
    ParsedProblems(g, r, args);
  }

  /** A parsed parameter has the later value where there is one, and the last keyed value where there is none. */
  lemma ParsedValue(g: Grammar, r: Rules, args: seq<string>, name: string)
    requires DistinctSlots(g.positional)
    ensures Lookup(ParsedArgs(g, r, args).params, name) == Outcome(g, r, args, name)
  {
    var pass := KeyedPass(g, r, args);
    var plain := PlainOf(args);
    PassMeans(g, r, args);
    SlotValue(g, r, plain, pass.params, name);
    FillLeaves(g, r, plain, 0, 0, pass.params, {});
    assert plain[0..] == plain;
    var f := Fill(g, r, plain, 0, 0, pass.params, {});
    var placed := PlaceRest(g, pass.tokens, f.leftoverFrom, Parsed(f.params, pass.problems));
    assert ParsedArgs(g, r, args).params == placed.params;
    assert Leftovers(g, r, args) == plain[f.leftoverFrom..];
  }

  lemma ParsedProblems(g: Grammar, r: Rules, args: seq<string>)
    requires DistinctSlots(g.positional)
    ensures ParsedArgs(g, r, args).problems == [] <==> Accepted(g, r, args)
  {
    var pass := KeyedPass(g, r, args);
    var plain, slots := PlainOf(args), g.positional;
    PassMeans(g, r, args);
    FillLeaves(g, r, plain, 0, 0, pass.params, {});
    assert plain[0..] == plain;
    var f := Fill(g, r, plain, 0, 0, pass.params, {});
    var has := f.names + NamesIn(slots, f.params);
    assert Leftovers(g, r, args) == plain[f.leftoverFrom..];
    NoneMissing(slots, has);
    forall j | 0 <= j < |slots|
      ensures slots[j].name in has <==> TokenOfSlot(g, r, args, j).Some? || LastSpelled(g, r, args, slots[j].name).Some?
    {
      FillGives(g, r, plain, 0, 0, pass.params, {}, j);
      assert slots[j] in slots;
      assert slots[j].name in NamesIn(slots, f.params) <==> slots[j].name in f.params;
      assert Lookup(pass.params, slots[j].name) == LastSpelled(g, r, args, slots[j].name);
    }
  }

  /** A command line is parsed to given parameters without a problem if and only if it is accepted and means them. */
  lemma ParsedExactly(g: Grammar, r: Rules, args: seq<string>, params: Params)
    requires DistinctSlots(g.positional)
    ensures ParsedArgs(g, r, args) == Parsed(params, []) <==>
            Accepted(g, r, args) && forall name :: Outcome(g, r, args, name) == Lookup(params, name)
  {
    ParsedMeans(g, r, args);
    var parsed := ParsedArgs(g, r, args).params;
    if forall name :: Outcome(g, r, args, name) == Lookup(params, name) {
      forall name
        ensures Lookup(parsed, name) == Lookup(params, name)
      {
      }
      SameLookups(parsed, params);
    }
  }

  lemma SameLookups(a: Params, b: Params)
    requires forall name :: Lookup(a, name) == Lookup(b, name)
    ensures a == b
  {
    assert forall name :: Lookup(a, name) == Lookup(b, name) ==> (name in a <==> name in b);
  }
}
