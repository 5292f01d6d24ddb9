/** The spellings of arguments: what a key is, which entry a key names, what values are written as, and the problems. */
module CommandArgsLaws {
  import opened Util
  import opened CommandArgs
  import opened CommandArgsMeaning

  // ---------------------------------------------------------------- keys

  predicate IsAsciiLetter(c: char) {
    'A' <= c <= 'Z' || 'a' <= c <= 'z'
  }

  /** A letter, then letters, digits and underscores. */
  predicate IsName(s: string) {
    && s != "" && IsAsciiLetter(s[0])
    && forall i :: 0 <= i < |s| ==> IsAsciiLetter(s[i]) || '0' <= s[i] <= '9' || s[i] == '_'
  }

  /** A keyed argument is a name, `=` and anything, the name being all before the first `=`. */
  lemma KeyEndExactly(text: string, n: nat)
    ensures KeyEnd(text) == Some(n) <==> n < |text| && text[n] == '=' && IsName(text[..n])
  {
    RunIsKeyChars(text);
    if n < |text| && text[n] == '=' && IsName(text[..n]) {
      assert text == text[..n] + text[n..];
      RunOfKey(text[..n], text[n..]);
    }
    if KeyEnd(text) == Some(n) {
      forall i | 0 <= i < n
        ensures IsAsciiLetter(text[i]) || '0' <= text[i] <= '9' || text[i] == '_'
      {
        assert IsKeyChar(text[i]);
      }
    }
  }

  lemma {:induction false} RunIsKeyChars(s: string)
    ensures forall i :: 0 <= i < KeyRun(s) ==> IsKeyChar(s[i])
  {
    if s != "" && IsKeyChar(s[0]) {
      RunIsKeyChars(s[1..]);
      assert forall i :: 0 < i < KeyRun(s) ==> s[i] == s[1..][i - 1];
    }
  }

  /** A typed key names the last entry with that key in capitals. */
  lemma {:induction false} LastEntryIsRead(r: Rules, keyed: seq<Keyed>, typed: string, x: Keyed)
    ensures KeyedFor(r, keyed, typed) == Some(x) <==>
              exists i :: && 0 <= i < |keyed| && keyed[i] == x && r.upper(keyed[i].key) == typed
                          && forall j :: i < j < |keyed| ==> r.upper(keyed[j].key) != typed
  {
    if keyed != [] {
      var n := |keyed| - 1;
      LastEntryIsRead(r, keyed[..n], typed, x);
      assert forall i :: 0 <= i < n ==> keyed[..n][i] == keyed[i];
    }
  }

  /** A parameter is written under the first entry for it. */
  lemma {:induction false} FirstEntryIsWritten(keyed: seq<Keyed>, name: string, x: Keyed)
    ensures KeyOf(keyed, name) == Some(x) <==>
              exists i :: && 0 <= i < |keyed| && keyed[i] == x && keyed[i].name == name
                          && forall j :: 0 <= j < i ==> keyed[j].name != name
  {
    if keyed != [] {
      FirstEntryIsWritten(keyed[1..], name, x);
      assert forall i :: 0 <= i < |keyed| - 1 ==> keyed[1..][i] == keyed[i + 1];
      if keyed[0].name != name {
        if i :| 0 <= i < |keyed| - 1 && keyed[1..][i] == x && keyed[1..][i].name == name
              && forall j :: 0 <= j < i ==> keyed[1..][j].name != name {
          forall j | 0 <= j < i + 1
            ensures keyed[j].name != name
          {
            assert j > 0 ==> keyed[j] == keyed[1..][j - 1];
          }
          assert keyed[i + 1] == x;
        }
        if i :| 0 <= i < |keyed| && keyed[i] == x && keyed[i].name == name
              && forall j :: 0 <= j < i ==> keyed[j].name != name {
          assert keyed[1..][i - 1] == x;
        }
      }
    }
  }

  // ---------------------------------------------------------------- spellings

  /** One token for each kind of value, in the order of preference where there are several. */
  lemma Spellings(r: Rules, text: string, number: real, id: Option<real>, ref: Option<string>, list: Option<string>,
                  others: string)
    ensures ScalarToken(r, Text(text)) == if text == "" then None else Some(text)
    ensures ScalarToken(r, Number(Some(number))) == Some(r.spell(number))
    ensures ScalarToken(r, Flag(true)) == Some("Y") && ScalarToken(r, Flag(false)) == Some("N")
    ensures text != "" ==>
              && ScalarToken(r, Object(Some(text), ref, true, id, list, others)) == Some("<" + text + ">")
              && ScalarToken(r, Object(None, Some(text), true, id, list, others)) == Some(text)
              && ScalarToken(r, Object(None, None, true, Some(number), list, others)) == Some(r.spell(number))
              && ScalarToken(r, Object(None, None, true, None, Some(text), others)) == Some(text)
              && ScalarToken(r, Object(None, None, false, Some(number), Some(text), others)) == None
    ensures ScalarToken(r, Object(Some(""), Some(""), true, None, Some(""), others)) == None
    ensures ScalarToken(r, Number(None)) == ScalarToken(r, Undefined) == ScalarToken(r, Null) == None
  {
  }

  /** Texts are joined by one space each. */
  lemma {:induction false} JoinedWith(texts: seq<string>, more: seq<string>)
    requires texts != [] && more != []
    ensures Joined([texts[0]]) == texts[0]
    ensures Joined(texts + more) == Joined(texts) + " " + Joined(more)
  {
    var n := |more| - 1;
    assert (texts + more)[..|texts + more| - 1] == texts + more[..n];
    if n == 0 {
      assert texts + more[..n] == texts;
    } else {
      JoinedWith(texts, more[..n]);
    }
  }

  // ---------------------------------------------------------------- problems

  /** The key of an argument, in capitals, when it has one. */
  ghost predicate Keys(r: Rules, text: string, typed: string, value: string) {
    exists n :: 0 <= n < |text| && KeyEnd(text) == Some(n) && typed == r.upper(text[..n]) && value == text[n + 1..]
  }

  ghost predicate HasUnknownKey(g: Grammar, r: Rules, text: string) {
    exists typed, value ::
      Keys(r, text, typed, value) && forall k :: k in g.keyed ==> r.upper(k.key) != typed
  }

  ghost predicate HasBadValue(g: Grammar, r: Rules, text: string) {
    exists typed, value ::
      && Keys(r, text, typed, value) && KeyedFor(r, g.keyed, typed).Some?
      && r.coerce(KeyedFor(r, g.keyed, typed).value.argType, value).None?
  }

  lemma {:induction false} NoEntry(r: Rules, keyed: seq<Keyed>, typed: string)
    ensures KeyedFor(r, keyed, typed).None? <==> forall k :: k in keyed ==> r.upper(k.key) != typed
  {
    if keyed != [] {
      var n := |keyed| - 1;
      NoEntry(r, keyed[..n], typed);
      assert keyed == keyed[..n] + [keyed[n]];
    }
  }

  lemma OneProblem(g: Grammar, r: Rules, pass: Pass, text: string, i: nat)
    ensures var after := KeyedStep(g, r, pass, text, i);
            after.problems == pass.problems + (if HasUnknownKey(g, r, text) then [UnknownKey(i)]
                                               else if HasBadValue(g, r, text) then [BadValue(i)] else [])
  {
    var end := KeyEnd(text);
    if end.Some? {
      var typed, value := r.upper(text[..end.value]), text[end.value + 1..];
      NoEntry(r, g.keyed, typed);
      assert Keys(r, text, typed, value);
    }
    assert pass.problems + [] == pass.problems;
  }

  /** The keyed arguments that are problems, each at its own place in the line. */
  lemma {:induction false} KeyedProblems(g: Grammar, r: Rules, args: seq<string>, i: nat)
    ensures var problems := KeyedPass(g, r, args).problems;
            && (UnknownKey(i) in problems <==> i < |args| && HasUnknownKey(g, r, args[i]))
            && (BadValue(i) in problems <==> i < |args| && !HasUnknownKey(g, r, args[i]) && HasBadValue(g, r, args[i]))
            && forall p :: p in problems ==> p.UnknownKey? || p.BadValue?
  {
    if args != [] {
      var n := |args| - 1;
      KeyedProblems(g, r, args[..n], i);
      OneProblem(g, r, KeyedPass(g, r, args[..n]), args[n], n);
    }
  }

  lemma {:induction false} MissingAre(slots: seq<Slot>, has: set<string>, name: string)
    ensures Missing(name) in MissingSlots(slots, has) <==>
              exists s :: s in slots && s.name == name && !s.optional && name !in has
    ensures forall p :: p in MissingSlots(slots, has) ==> p.Missing?
  {
    if slots != [] {
      var n := |slots| - 1;
      MissingAre(slots[..n], has, name);
      assert slots == slots[..n] + [slots[n]];
    }
  }

  /** The plain arguments keep their places in the line. */
  lemma {:induction false} PlacesKept(g: Grammar, r: Rules, args: seq<string>, i: nat)
    requires i < |args| && KeyEnd(args[i]).None?
    ensures var tokens, k := KeyedPass(g, r, args).tokens, |PlainOf(args[..i])|;
            k < |tokens| && tokens[k] == Token(args[i], i)
  {
    var n := |args| - 1;
    PassMeans(g, r, args[..n]);
    if i < n {
      PlacesKept(g, r, args[..n], i);
      assert args[..n][..i] == args[..i];
    }
  }

  lemma {:induction false} PlacesArePlain(g: Grammar, r: Rules, args: seq<string>, k: nat)
    requires k < |KeyedPass(g, r, args).tokens|
    ensures var i := KeyedPass(g, r, args).tokens[k].index;
            i < |args| && KeyEnd(args[i]).None? && |PlainOf(args[..i])| == k
  {
    var n := |args| - 1;
    PassMeans(g, r, args[..n]);
    if k < |KeyedPass(g, r, args[..n]).tokens| {
      PlacesArePlain(g, r, args[..n], k);
      var i := KeyedPass(g, r, args).tokens[k].index;
      assert args[..n][..i] == args[..i];
    }
  }

  /** The argument is plain, and as many plain ones come before it as find a slot. */
  ghost predicate IsFirstLeftover(g: Grammar, r: Rules, args: seq<string>, i: nat) {
    && i < |args| && KeyEnd(args[i]).None?
    && |PlainOf(args[..i])| + |Leftovers(g, r, args)| == |PlainOf(args)|
  }

  lemma LeftoverProblem(g: Grammar, r: Rules, args: seq<string>, from: nat, i: nat)
    requires from <= |PlainOf(args)| && Leftovers(g, r, args) == PlainOf(args)[from..]
    ensures Texts(KeyedPass(g, r, args).tokens) == PlainOf(args)
    ensures from < |PlainOf(args)| && KeyedPass(g, r, args).tokens[from].index == i <==>
              Leftovers(g, r, args) != [] && IsFirstLeftover(g, r, args, i)
  {
    PassMeans(g, r, args);
    if from < |PlainOf(args)| {
      PlacesArePlain(g, r, args, from);
      if IsFirstLeftover(g, r, args, i) {
        PlacesKept(g, r, args, i);
      }
    }
  }

  /** A required slot that neither a token nor a key sets. */
  ghost predicate IsMissing(g: Grammar, r: Rules, args: seq<string>, name: string) {
    exists j :: && 0 <= j < |g.positional| && g.positional[j].name == name && !g.positional[j].optional
                && TokenOfSlot(g, r, args, j).None? && LastSpelled(g, r, args, name).None?
  }

  function FilledBy(g: Grammar, r: Rules, args: seq<string>): Filled {
    var pass := KeyedPass(g, r, args);
    Fill(g, r, Texts(pass.tokens), 0, 0, pass.params, {})
  }

  /** The names that are not missing. */
  function Has(g: Grammar, r: Rules, args: seq<string>): set<string> {
    var f := FilledBy(g, r, args);
    f.names + NamesIn(g.positional, f.params)
  }

  function LeftoverProblems(g: Grammar, r: Rules, args: seq<string>): seq<Problem> {
    var tokens, from := KeyedPass(g, r, args).tokens, FilledBy(g, r, args).leftoverFrom;
    if from < |tokens| && g.rest.None? then [Leftover(tokens[from].index)] else []
  }

  lemma ThreeKinds(g: Grammar, r: Rules, args: seq<string>)
    ensures ParsedArgs(g, r, args).problems
         == KeyedPass(g, r, args).problems + LeftoverProblems(g, r, args) + MissingSlots(g.positional, Has(g, r, args))
  {
    assert KeyedPass(g, r, args).problems + [] == KeyedPass(g, r, args).problems;
  }

  lemma MissingProblem(g: Grammar, r: Rules, args: seq<string>, name: string)
    requires DistinctSlots(g.positional)
    ensures Missing(name) in MissingSlots(g.positional, Has(g, r, args)) <==> IsMissing(g, r, args, name)
  {
    var pass, plain, slots := KeyedPass(g, r, args), PlainOf(args), g.positional;
    PassMeans(g, r, args);
    assert plain[0..] == plain;
    var f, has := FilledBy(g, r, args), Has(g, r, args);
    MissingAre(slots, has, name);
    forall j | 0 <= j < |slots|
      ensures slots[j].name in has <==> TokenOfSlot(g, r, args, j).Some? || LastSpelled(g, r, args, slots[j].name).Some?
    {
      FillGives(g, r, plain, 0, 0, pass.params, {}, j);
      assert slots[j] in slots;
      assert slots[j].name in NamesIn(slots, f.params) <==> slots[j].name in f.params;
      assert Lookup(pass.params, slots[j].name) == LastSpelled(g, r, args, slots[j].name);
    }
  }

  /**
   * Every problem of a parse: a key no entry has, a value its key's type refuses, the first argument that finds no
   * slot when there is no rest, and each required slot that nothing sets.
   */
  lemma ProblemsExactly(g: Grammar, r: Rules, args: seq<string>, p: Problem)
    requires DistinctSlots(g.positional)
    ensures p in ParsedArgs(g, r, args).problems <==>
              match p
              case UnknownKey(i) => i < |args| && HasUnknownKey(g, r, args[i])
              case BadValue(i) => i < |args| && !HasUnknownKey(g, r, args[i]) && HasBadValue(g, r, args[i])
              case Leftover(i) => g.rest.None? && Leftovers(g, r, args) != [] && IsFirstLeftover(g, r, args, i)
              case Missing(name) => IsMissing(g, r, args, name)
  {
    ThreeKinds(g, r, args);
    KeyedProblems(g, r, args, if p.Missing? then 0 else p.index);
    MissingAre(g.positional, Has(g, r, args), if p.Missing? then p.name else "");
    match p
    case Missing(name) => MissingProblem(g, r, args, name);
    case Leftover(i) => LeftoverKind(g, r, args, i);
    case _ =>
  }

  lemma LeftoverKind(g: Grammar, r: Rules, args: seq<string>, i: nat)
    requires DistinctSlots(g.positional)
    ensures Leftover(i) in LeftoverProblems(g, r, args) <==>
              g.rest.None? && Leftovers(g, r, args) != [] && IsFirstLeftover(g, r, args, i)
  {
    var pass := KeyedPass(g, r, args);
    PassMeans(g, r, args);
    FillLeaves(g, r, PlainOf(args), 0, 0, pass.params, {});
    assert PlainOf(args)[0..] == PlainOf(args);
    LeftoverProblem(g, r, args, FilledBy(g, r, args).leftoverFrom, i);
  }
}
