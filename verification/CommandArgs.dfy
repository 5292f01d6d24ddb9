/** Command-line arguments to parameters, and parameters back to arguments. */
module CommandArgs {
  import opened Util

  // ---------------------------------------------------------------- values and grammars

  /** A parameter: a scalar, an object with the fields that have a spelling, or something that has none. */
  datatype Value =
    | Undefined
    | Null
    | Text(text: string)
    | Number(number: Option<real>)
    | Flag(on: bool)
    | Object(formula: Option<string>, ref: Option<string>, watchlist: bool, id: Option<real>, listName: Option<string>,
        others: string)
    | List(items: seq<string>)

  datatype ArgType = ArgType(name: string, values: Option<seq<string>>)

  datatype Slot = Slot(name: string, argType: ArgType, optional: bool)

  datatype Keyed = Keyed(key: string, name: string, argType: ArgType)

  datatype Grammar = Grammar(positional: seq<Slot>, keyed: seq<Keyed>, rest: Option<string>)

  /** What is not modelled further: coercion under a type, upper case, and how a number is spelled. */
  datatype Rules = Rules(coerce: (ArgType, string) -> Option<Value>, upper: string -> string, spell: real -> string)

  datatype Problem = UnknownKey(index: nat) | BadValue(index: nat) | Leftover(index: nat) | Missing(name: string)

  type Params = map<string, Value>

  datatype Parsed = Parsed(params: Params, problems: seq<Problem>)

  // ---------------------------------------------------------------- KEY=VALUE

  predicate IsLetter(c: char) {
    'A' <= c <= 'Z' || 'a' <= c <= 'z'
  }

  predicate IsKeyChar(c: char) {
    IsLetter(c) || '0' <= c <= '9' || c == '_'
  }

  predicate IsKey(s: string) {
    s != "" && IsLetter(s[0]) && forall i :: 0 <= i < |s| ==> IsKeyChar(s[i])
  }

  function KeyRun(s: string): (n: nat)
    ensures n <= |s|
  {
    if s == "" || !IsKeyChar(s[0]) then 0 else 1 + KeyRun(s[1..])
  }

  /** Where the `=` of a keyed argument is. */
  function KeyEnd(text: string): (r: Option<nat>)
    ensures r.Some? ==> r.value < |text|
  {
    var n := KeyRun(text);
    if n > 0 && IsLetter(text[0]) && n < |text| && text[n] == '=' then Some(n) else None
  }

  lemma {:induction false} RunOfKey(s: string, after: string)
    requires forall i :: 0 <= i < |s| ==> IsKeyChar(s[i])
    requires after == "" || !IsKeyChar(after[0])
    ensures KeyRun(s + after) == |s|
  {
    if s == "" {
      assert s + after == after;
    } else {
      RunOfKey(s[1..], after);
      assert (s + after)[1..] == s[1..] + after;
    }
  }

  /** A key, `=` and anything reads back as that key and that value. */
  lemma KeyedReadsBack(key: string, value: string)
    requires IsKey(key)
    ensures var text := key + "=" + value;
            KeyEnd(text) == Some(|key|) && text[..|key|] == key && text[|key| + 1..] == value
  {
    assert key + "=" + value == key + ("=" + value);
    RunOfKey(key, "=" + value);
  }

  // ---------------------------------------------------------------- parsing: what it computes

  /** The entry whose key, upper-cased, was typed; the last of them when two agree. */
  function KeyedFor(r: Rules, keyed: seq<Keyed>, typed: string): Option<Keyed> {
    if keyed == [] then None
    else if r.upper(keyed[|keyed| - 1].key) == typed then Some(keyed[|keyed| - 1])
    else KeyedFor(r, keyed[..|keyed| - 1], typed)
  }

  datatype Token = Token(text: string, index: nat)

  /** After the keyed arguments: parameters, problems, and what is left for the slots. */
  datatype Pass = Pass(params: Params, problems: seq<Problem>, tokens: seq<Token>)

  function KeyedStep(g: Grammar, r: Rules, pass: Pass, text: string, i: nat): Pass {
    var end := KeyEnd(text);
    if end.None? then pass.(tokens := pass.tokens + [Token(text, i)])
    else
      var spec := KeyedFor(r, g.keyed, r.upper(text[..end.value]));
      if spec.None? then pass.(problems := pass.problems + [UnknownKey(i)])
      else
        var coerced := r.coerce(spec.value.argType, text[end.value + 1..]);
        if coerced.Some? then pass.(params := pass.params[spec.value.name := coerced.value])
        else pass.(problems := pass.problems + [BadValue(i)])
  }

  function KeyedPass(g: Grammar, r: Rules, args: seq<string>): Pass {
    if args == [] then Pass(map[], [], [])
    else KeyedStep(g, r, KeyedPass(g, r, args[..|args| - 1]), args[|args| - 1], |args| - 1)
  }

  /** After the slots: parameters, names filled, and the first token that found no slot. */
  datatype Filled = Filled(params: Params, names: set<string>, leftoverFrom: nat)

  function Fill(g: Grammar, r: Rules, tokens: seq<string>, t: nat, s: nat, params: Params,
                names: set<string>): (f: Filled)
    requires t <= |tokens| && s <= |g.positional|
    ensures t <= f.leftoverFrom <= |tokens|
    decreases |tokens| - t + |g.positional| - s
  {
    if t == |tokens| || s == |g.positional| then Filled(params, names, t)
    else
      var slot := g.positional[s];
      if slot.name in names then Fill(g, r, tokens, t, s + 1, params, names)
      else
        var coerced := r.coerce(slot.argType, tokens[t]);
        if coerced.Some? then
          Fill(g, r, tokens, t + 1, s + 1, params[slot.name := coerced.value], names + {slot.name})
        else if slot.optional then Fill(g, r, tokens, t, s + 1, params, names)
        else Filled(params, names, t)
  }

  function Joined(texts: seq<string>): string {
    if texts == [] then ""
    else if |texts| == 1 then texts[0]
    else Joined(texts[..|texts| - 1]) + " " + texts[|texts| - 1]
  }

  function Texts(tokens: seq<Token>): (r: seq<string>)
    ensures |r| == |tokens| && forall i :: 0 <= i < |tokens| ==> r[i] == tokens[i].text
  {
    seq(|tokens|, i requires 0 <= i < |tokens| => tokens[i].text)
  }

  /** The leftovers go to the rest parameter, or the first of them is a problem. */
  function PlaceRest(g: Grammar, tokens: seq<Token>, from: nat, parsed: Parsed): Parsed
    requires from <= |tokens|
  {
    if from == |tokens| then parsed
    else if g.rest.Some? then parsed.(params := parsed.params[g.rest.value := Text(Joined(Texts(tokens)[from..]))])
    else parsed.(problems := parsed.problems + [Leftover(tokens[from].index)])
  }

  /** A problem for each required slot with no value. */
  function MissingSlots(slots: seq<Slot>, has: set<string>): seq<Problem> {
    if slots == [] then []
    else
      var last := slots[|slots| - 1];
      MissingSlots(slots[..|slots| - 1], has) + if last.optional || last.name in has then [] else [Missing(last.name)]
  }

  function NamesIn(slots: seq<Slot>, params: Params): set<string> {
    set s | s in slots && s.name in params :: s.name
  }

  function ParsedArgs(g: Grammar, r: Rules, args: seq<string>): Parsed {
    var pass := KeyedPass(g, r, args);
    var filled := Fill(g, r, Texts(pass.tokens), 0, 0, pass.params, {});
    var placed := PlaceRest(g, pass.tokens, filled.leftoverFrom, Parsed(filled.params, pass.problems));
    var has := filled.names + NamesIn(g.positional, filled.params);
    placed.(problems := placed.problems + MissingSlots(g.positional, has))
  }

  // ---------------------------------------------------------------- parsing: how

  method CollectKeyed(g: Grammar, r: Rules, args: seq<string>) returns (pass: Pass)
    ensures pass == KeyedPass(g, r, args)
  {
    pass := Pass(map[], [], []);
    assert args[..0] == [];
    for i := 0 to |args|
      invariant pass == KeyedPass(g, r, args[..i])
    {
      assert args[..i + 1][..i] == args[..i];
      var text := args[i];
      var end := KeyEnd(text);
      if end.None? {
        pass := pass.(tokens := pass.tokens + [Token(text, i)]);
      } else {
        var spec := KeyedFor(r, g.keyed, r.upper(text[..end.value]));
        if spec.None? {
          pass := pass.(problems := pass.problems + [UnknownKey(i)]);
        } else {
          var coerced := r.coerce(spec.value.argType, text[end.value + 1..]);
          if coerced.Some? {
            pass := pass.(params := pass.params[spec.value.name := coerced.value]);
          } else {
            pass := pass.(problems := pass.problems + [BadValue(i)]);
          }
        }
      }
    }
    assert args[..|args|] == args;
  }

  /** Each token is offered to the slots from where the last one stopped. */
  method FillSlots(g: Grammar, r: Rules, tokens: seq<string>, params0: Params) returns (filled: Filled)
    ensures filled == Fill(g, r, tokens, 0, 0, params0, {})
  {
    var params, names := params0, {};
    var slotIndex, t := 0, 0;
    var placed := true;
    while t < |tokens|
      invariant t <= |tokens| && slotIndex <= |g.positional|
      invariant Fill(g, r, tokens, t, slotIndex, params, names) == Fill(g, r, tokens, 0, 0, params0, {})
    {
      placed := false;
      while slotIndex < |g.positional| && !placed
        invariant t < |tokens| && slotIndex <= |g.positional|
        invariant Fill(g, r, tokens, if placed then t + 1 else t, slotIndex, params, names)
                  == Fill(g, r, tokens, 0, 0, params0, {})
        decreases |g.positional| - slotIndex
      {
        var slot := g.positional[slotIndex];
        if slot.name in names {
          slotIndex := slotIndex + 1;
        } else {
          var coerced := r.coerce(slot.argType, tokens[t]);
          if coerced.Some? {
            params, names := params[slot.name := coerced.value], names + {slot.name};
            slotIndex := slotIndex + 1;
            placed := true;
          } else if slot.optional {
            slotIndex := slotIndex + 1;
          } else {
            return Filled(params, names, t);
          }
        }
      }
      if !placed {
        return Filled(params, names, t);
      }
      t := t + 1;
    }
    filled := Filled(params, names, t);
  }

  method ParseArgs(g: Grammar, r: Rules, args: seq<string>) returns (parsed: Parsed)
    ensures parsed == ParsedArgs(g, r, args)
  {
    var pass := CollectKeyed(g, r, args);
    var filled := FillSlots(g, r, Texts(pass.tokens), pass.params);
    var names := filled.names;
    var slots := g.positional;
    for k := 0 to |slots|
      invariant names == filled.names + NamesIn(slots[..k], filled.params)
    {
      assert slots[..k + 1] == slots[..k] + [slots[k]];
      if slots[k].name in filled.params {
        names := names + {slots[k].name};
      }
    }
    assert slots[..|slots|] == slots;
    parsed := PlaceRest(g, pass.tokens, filled.leftoverFrom, Parsed(filled.params, pass.problems));
    parsed := AddMissing(slots, names, parsed);
  }

  method AddMissing(slots: seq<Slot>, names: set<string>, parsed0: Parsed) returns (parsed: Parsed)
    ensures parsed == parsed0.(problems := parsed0.problems + MissingSlots(slots, names))
  {
    parsed := parsed0;
    assert slots[..0] == [];
    for k := 0 to |slots|
      invariant parsed == parsed0.(problems := parsed0.problems + MissingSlots(slots[..k], names))
    {
      assert slots[..k + 1][..k] == slots[..k];
      if !(slots[k].optional || slots[k].name in names) {
        parsed := parsed.(problems := parsed.problems + [Missing(slots[k].name)]);
      }
    }
    assert slots[..|slots|] == slots;
  }

  // ---------------------------------------------------------------- formatting: what it computes

  function NonEmpty(s: Option<string>): bool {
    s.Some? && s.value != ""
  }

  /** One argument token for a value, when it has a one-token spelling. */
  function ScalarToken(r: Rules, v: Value): Option<string> {
    match v
    case Text(s) => if s == "" then None else Some(s)
    case Number(n) => if n.Some? then Some(r.spell(n.value)) else None
    case Flag(on) => Some(if on then "Y" else "N")
    case Object(formula, ref, watchlist, id, listName, _) =>
      if NonEmpty(formula) then Some("<" + formula.value + ">")
      else if NonEmpty(ref) then ref
      else if watchlist && id.Some? then Some(r.spell(id.value))
      else if watchlist && NonEmpty(listName) then listName
      else None
    case _ => None
  }

  datatype Entry = Entry(name: string, value: Value)

  predicate Distinct(bag: seq<Entry>) {
    forall i, j :: 0 <= i < j < |bag| ==> bag[i].name != bag[j].name
  }

  /** `bag[name]`. */
  function Get(bag: seq<Entry>, name: string): Value {
    if bag == [] then Undefined
    else if bag[|bag| - 1].name == name then bag[|bag| - 1].value
    else Get(bag[..|bag| - 1], name)
  }

  function TokenOf(r: Rules, bag: seq<Entry>, name: string): Option<string> {
    ScalarToken(r, Get(bag, name))
  }

  /** How many leading slots have a spelled value. */
  function RunLength(g: Grammar, r: Rules, bag: seq<Entry>, k: nat): (n: nat)
    requires k <= |g.positional|
    ensures k <= n <= |g.positional|
    ensures forall i :: k <= i < n ==> TokenOf(r, bag, g.positional[i].name).Some?
    ensures n < |g.positional| ==> TokenOf(r, bag, g.positional[n].name).None?
    decreases |g.positional| - k
  {
    if k < |g.positional| && TokenOf(r, bag, g.positional[k].name).Some? then RunLength(g, r, bag, k + 1) else k
  }

  /** The tokens of these slots. */
  function SlotTokens(r: Rules, bag: seq<Entry>, slots: seq<Slot>): seq<string>
    requires forall s :: s in slots ==> TokenOf(r, bag, s.name).Some?
  {
    seq(|slots|, i requires 0 <= i < |slots| => assert slots[i] in slots; TokenOf(r, bag, slots[i].name).value)
  }

  function SpelledNames(r: Rules, bag: seq<Entry>, slots: seq<Slot>): seq<string> {
    if slots == [] then []
    else
      var name := slots[|slots| - 1].name;
      SpelledNames(r, bag, slots[..|slots| - 1]) + if TokenOf(r, bag, name).Some? then [name] else []
  }

  function SlotNames(slots: seq<Slot>): set<string> {
    set s | s in slots :: s.name
  }

  /** The first keyed entry for a parameter. */
  function KeyOf(keyed: seq<Keyed>, name: string): (k: Option<Keyed>)
    ensures k.Some? ==> k.value in keyed && k.value.name == name
    ensures k.None? ==> forall x :: x in keyed ==> x.name != name
  {
    if keyed == [] then None
    else if keyed[0].name == name then Some(keyed[0])
    else KeyOf(keyed[1..], name)
  }

  predicate Nothing(v: Value) {
    v.Undefined? || v.Null?
  }

  datatype Formatted = Formatted(args: seq<string>, dropped: seq<string>)

  /** One more parameter, as a keyed argument where the grammar has a key for it. */
  function FormatEntry(g: Grammar, r: Rules, placed: set<string>, f: Formatted, e: Entry): Formatted {
    if e.name in placed || g.rest == Some(e.name) then f
    else
      var key := KeyOf(g.keyed, e.name);
      if key.None? then
        if e.name !in SlotNames(g.positional) && !Nothing(e.value) then f.(dropped := f.dropped + [e.name]) else f
      else
        var token := ScalarToken(r, e.value);
        if token.Some? then f.(args := f.args + [key.value.key + "=" + token.value])
        else if !Nothing(e.value) then f.(dropped := f.dropped + [e.name])
        else f
  }

  function FormatEntries(g: Grammar, r: Rules, placed: set<string>, f: Formatted, bag: seq<Entry>): Formatted {
    if bag == [] then f
    else FormatEntry(g, r, placed, FormatEntries(g, r, placed, f, bag[..|bag| - 1]), bag[|bag| - 1])
  }

  function FormatRest(g: Grammar, r: Rules, bag: seq<Entry>, f: Formatted): Formatted {
    if g.rest.None? then f
    else
      var token := TokenOf(r, bag, g.rest.value);
      if token.Some? then f.(args := f.args + [token.value])
      else if !Nothing(Get(bag, g.rest.value)) then f.(dropped := f.dropped + [g.rest.value])
      else f
  }

  /** The slots covered by the leading run. */
  function Run(g: Grammar, r: Rules, bag: seq<Entry>): (slots: seq<Slot>)
    ensures forall s :: s in slots ==> TokenOf(r, bag, s.name).Some?
  {
    g.positional[..RunLength(g, r, bag, 0)]
  }

  function FormattedArgs(g: Grammar, r: Rules, bag: seq<Entry>): Formatted {
    var run := Run(g, r, bag);
    var f := Formatted(SlotTokens(r, bag, run), SpelledNames(r, bag, g.positional[|run|..]));
    FormatRest(g, r, bag, FormatEntries(g, r, SlotNames(run), f, bag))
  }

  // ---------------------------------------------------------------- formatting: how

  method FormatPositional(g: Grammar, r: Rules, bag: seq<Entry>) returns (f: Formatted, placed: set<string>)
    ensures var run := Run(g, r, bag);
            && f == Formatted(SlotTokens(r, bag, run), SpelledNames(r, bag, g.positional[|run|..]))
            && placed == SlotNames(run)
  {
    var isOpen := true;
    var args: seq<string>, dropped: seq<string> := [], [];
    placed := {};
    ghost var n := |Run(g, r, bag)|;
    var slots := g.positional;
    assert slots[n..][..0] == [];
    for k := 0 to |slots|
      invariant isOpen == (k <= n)
      invariant k <= n ==> args == SlotTokens(r, bag, slots[..k]) && placed == SlotNames(slots[..k]) && dropped == []
      invariant k >= n ==> args == SlotTokens(r, bag, slots[..n]) && placed == SlotNames(slots[..n])
                           && dropped == SpelledNames(r, bag, slots[n..][..k - n])
    {
      var name := slots[k].name;
      var token := if isOpen then TokenOf(r, bag, name) else None;
      if token.None? {
        isOpen := false;
        assert slots[n..][..k + 1 - n][..k - n] == slots[n..][..k - n];
        if TokenOf(r, bag, name).Some? {
          dropped := dropped + [name];
        }
      } else {
        assert slots[..k + 1] == slots[..k] + [slots[k]];
        args, placed := args + [token.value], placed + {name};
      }
    }
    assert slots[n..][..|slots| - n] == slots[n..];
    f := Formatted(args, dropped);
  }

  method FormatArgs(g: Grammar, r: Rules, bag: seq<Entry>) returns (f: Formatted)
    requires Distinct(bag)
    ensures f == FormattedArgs(g, r, bag)
  {
    var placed: set<string>;
    f, placed := FormatPositional(g, r, bag);
    ghost var run, start := placed, f;
    assert bag[..0] == [];
    for k := 0 to |bag|
      invariant f == FormatEntries(g, r, run, start, bag[..k])
      invariant run <= placed
      invariant forall name :: name in placed ==> name in run || exists i :: 0 <= i < k && bag[i].name == name
    {
      assert bag[..k + 1][..k] == bag[..k];
      var name, value := bag[k].name, bag[k].value;
      if name !in placed && g.rest != Some(name) {
        var key := KeyOf(g.keyed, name);
        if key.None? {
          if name !in SlotNames(g.positional) && !Nothing(value) {
            f := f.(dropped := f.dropped + [name]);
          }
        } else {
          var token := ScalarToken(r, value);
          if token.None? {
            if !Nothing(value) {
              f := f.(dropped := f.dropped + [name]);
            }
          } else {
            f := f.(args := f.args + [key.value.key + "=" + token.value]);
            placed := placed + {name};
          }
        }
      }
    }
    assert bag[..|bag|] == bag;
    f := FormatRest(g, r, bag, f);
  }
}
