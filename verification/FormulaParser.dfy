/**
 * The stateful recursive-descent parser, its static checks and the tree walk they share.
 *
 * The class keeps the source's fields: a moving `index`, a `depth` counter, an `aborted` flag and a
 * growing `problems` list. It recovers from every mistake, so it returns a tree for every input; each
 * method is tied to the success-only descent of `FormulaGrammar`, which answers exactly when the class
 * reports nothing.
 */
module FormulaParser {
  import opened Util
  import opened FormulaAst
  import opened FormulaGrammar

  class Parser {
    const tokens: seq<Token>
    var index: nat
    var depth: nat
    var aborted: bool
    var problems: seq<ProblemCode>

    constructor (tokens: seq<Token>)
      requires |tokens| > 0 && tokens[|tokens| - 1] == Eof
      ensures Valid() && this.tokens == tokens
      ensures index == 0 && depth == 0 && !aborted && problems == []
    {
      this.tokens := tokens;
      index, depth, aborted, problems := 0, 0, false, [];
    }

    predicate Valid()
      reads this
    {
      && index < |tokens|
      && tokens[|tokens| - 1] == Eof
      && depth <= MAX_FORMULA_DEPTH
    }

    /** Something between `from` and here was reported, or was a token the scanner could not use. */
    ghost predicate Dirty(was: seq<ProblemCode>, from: nat)
      requires Valid()
      reads this
    {
      |was| < |problems| || exists k :: from <= k < index && tokens[k] == ErrorToken
    }

    /** The state a method leaves behind, against what the success-only descent answers. */
    ghost predicate Refines(was: seq<ProblemCode>, from: nat, node: Node, r: Option<(Node, nat)>)
      requires Valid()
      reads this
    {
      match r
      case Some((n, j)) => !aborted && problems == was && index == j && node == n
      case None => Dirty(was, from)
    }

    method Next() returns (token: Token)
      requires Valid()
      modifies this`index
      ensures Valid()
      ensures token == tokens[old(index)]
      ensures index == if old(index) < |tokens| - 1 then old(index) + 1 else old(index)
    {
      token := tokens[index];
      if index < |tokens| - 1 {
        index := index + 1;
      }
    }

    method Problem(code: ProblemCode)
      modifies this`problems
      ensures problems == old(problems) + [code]
    {
      problems := problems + [code];
    }

    /** Give up: report once and consume the rest, so that nothing is reported after it. */
    method Abort()
      requires Valid() && !aborted
      modifies this`aborted, this`problems, this`index
      ensures Valid() && aborted
      ensures problems == old(problems) + [TooDeep]
      ensures old(index) <= index && tokens[index] == Eof
    {
      aborted := true;
      Problem(TooDeep);
      while tokens[index] != Eof
        invariant Valid() && aborted && problems == old(problems) + [TooDeep] && old(index) <= index
        decreases |tokens| - index
      {
        var _ := Next();
      }
    }

    method Expression() returns (node: Node)
      requires Valid()
      modifies this
      ensures Valid() && depth == old(depth)
      ensures old(index) <= index && old(problems) <= problems
      ensures old(aborted) ==> aborted && index == old(index) && problems == old(problems)
      ensures aborted && !old(aborted) ==> |old(problems)| < |problems|
      ensures !old(aborted) ==>
                Refines(old(problems), old(index), node, ParseExpr(tokens, old(index), MAX_FORMULA_DEPTH - old(depth)))
      decreases |tokens| - index, 5
    {
      if aborted { return ErrorNode; }
      if depth + 1 > MAX_FORMULA_DEPTH {
        Abort();
        return ErrorNode;
      }
      depth := depth + 1;
      ghost var b := MAX_FORMULA_DEPTH - depth;
      node := Term();
      while true
        invariant Valid() && depth == old(depth) + 1
        invariant old(index) <= index && old(problems) <= problems
        invariant aborted ==> |old(problems)| < |problems|
        invariant (&& !aborted && problems == old(problems)
                   && ParseSum(tokens, old(index), b) == SumRest(tokens, index, b, node))
                  || (ParseSum(tokens, old(index), b) == None && Dirty(old(problems), old(index)))
        decreases |tokens| - index
      {
        if aborted { break; }
        var token := tokens[index];
        var op := AddOp(token);
        if op == None { break; }
        var _ := Next();
        var right := Term();
        node := Binary(op.value, node, right);
      }
      depth := depth - 1;
    }

    method Term() returns (node: Node)
      requires Valid()
      modifies this
      ensures Valid() && depth == old(depth)
      ensures old(index) <= index && old(problems) <= problems
      ensures old(aborted) ==> aborted && index == old(index) && problems == old(problems)
      ensures aborted && !old(aborted) ==> |old(problems)| < |problems|
      ensures !old(aborted) ==>
                Refines(old(problems), old(index), node, ParseTerm(tokens, old(index), MAX_FORMULA_DEPTH - old(depth)))
      decreases |tokens| - index, 4
    {
      if aborted { return ErrorNode; }
      ghost var b := MAX_FORMULA_DEPTH - depth;
      node := UnaryExpression();
      while true
        invariant Valid() && depth == old(depth)
        invariant old(index) <= index && old(problems) <= problems
        invariant aborted ==> |old(problems)| < |problems|
        invariant (&& !aborted && problems == old(problems)
                   && ParseTerm(tokens, old(index), b) == TermRest(tokens, index, b, node))
                  || (ParseTerm(tokens, old(index), b) == None && Dirty(old(problems), old(index)))
        decreases |tokens| - index
      {
        if aborted { break; }
        var token := tokens[index];
        var op := MulOp(token);
        if op == None { break; }
        var _ := Next();
        var right := UnaryExpression();
        node := Binary(op.value, node, right);
      }
    }

    method UnaryExpression() returns (node: Node)
      requires Valid()
      modifies this
      ensures Valid() && depth == old(depth)
      ensures old(index) <= index && old(problems) <= problems
      ensures old(aborted) ==> aborted && index == old(index) && problems == old(problems)
      ensures aborted && !old(aborted) ==> |old(problems)| < |problems|
      ensures !old(aborted) ==>
                Refines(old(problems), old(index), node, ParseUnary(tokens, old(index), MAX_FORMULA_DEPTH - old(depth)))
      decreases |tokens| - index, 3
    {
      if aborted { return ErrorNode; }
      var op := SignOp(tokens[index]);
      if op == None {
        node := Primary();
        return;
      }
      var _ := Next();
      if depth + 1 > MAX_FORMULA_DEPTH {
        Abort();
        return ErrorNode;
      }
      depth := depth + 1;
      var operand := UnaryExpression();
      depth := depth - 1;
      node := Unary(op.value, operand);
    }

    method Primary() returns (node: Node)
      requires Valid()
      modifies this
      ensures Valid() && depth == old(depth)
      ensures old(index) <= index && old(problems) <= problems
      ensures old(aborted) ==> aborted && index == old(index) && problems == old(problems)
      ensures aborted && !old(aborted) ==> |old(problems)| < |problems|
      ensures !old(aborted) && SignOp(tokens[old(index)]) == None ==>
                Refines(old(problems), old(index), node,
                    ParsePrimary(tokens, old(index), MAX_FORMULA_DEPTH - old(depth)))
      decreases |tokens| - index, 2
    {
      if aborted { return ErrorNode; }
      var token := tokens[index];
      match token
      case NumberToken(value) =>
        var _ := Next();
        node := Number(value);
      case RefToken(canonical) =>
        var _ := Next();
        node := Security(canonical);
      case WordToken(upper) =>
        var _ := Next();
        if tokens[index] == LParen {
          node := CallExpression(upper);
        } else {
          node := Field(upper);
        }
      case LParen =>
        var _ := Next();
        if depth + 1 > MAX_FORMULA_DEPTH {
          Abort();
          return ErrorNode;
        }
        depth := depth + 1;
        node := Expression();
        depth := depth - 1;
        if tokens[index] == RParen {
          var _ := Next();
        } else {
          Problem(UnbalancedParen);
        }
      case ErrorToken =>
        // The scanner already reported it; consuming it keeps the scan and the parse in step.
        var _ := Next();
        node := ErrorNode;
      case RParen =>
        Problem(UnbalancedParen);
        var _ := Next();
        node := ErrorNode;
      case _ =>
        // Not consumed: the caller decides what to do with it.
        Problem(MissingOperand);
        node := ErrorNode;
    }

    method CallExpression(upper: string) returns (node: Node)
      requires Valid() && !aborted && tokens[index] == LParen
      modifies this
      ensures Valid() && depth == old(depth)
      ensures old(index) <= index && old(problems) <= problems
      ensures aborted ==> |old(problems)| < |problems|
      ensures Refines(old(problems), old(index), node,
                      ParseCall(tokens, old(index), MAX_FORMULA_DEPTH - old(depth), upper))
      decreases |tokens| - index, 1
    {
      var _ := Next();
      var args := [];
      if depth + 1 > MAX_FORMULA_DEPTH {
        Abort();
        return ErrorNode;
      }
      depth := depth + 1;
      if tokens[index] != RParen {
        args := Arguments();
      }
      depth := depth - 1;
      if tokens[index] == RParen {
        var _ := Next();
      } else if !aborted {
        Problem(UnbalancedParen);
      }
      match LookupFunction(upper)
      case None =>
        Problem(UnknownFunction);
        node := ErrorNode;
      case Some(name) =>
        node := Call(name, args);
    }

    /** `expr (',' expr)*`, keeping the first eight. */
    method Arguments() returns (args: seq<Node>)
      requires Valid() && !aborted
      modifies this
      ensures Valid() && depth == old(depth)
      ensures old(index) <= index && old(problems) <= problems
      ensures aborted ==> |old(problems)| < |problems|
      ensures match ParseArgs(tokens, old(index), MAX_FORMULA_DEPTH - old(depth))
              case Some((all, j)) => !aborted && problems == old(problems) && index == j && args == FirstArgs(all)
              case None => Dirty(old(problems), old(index))
      decreases |tokens| - index, 6
    {
      args := [];
      ghost var b := MAX_FORMULA_DEPTH - depth;
      ghost var all: seq<Node> := [];
      AfterNothing(ParseArgs(tokens, index, b));
      while true
        invariant Valid() && depth == old(depth)
        invariant old(index) <= index && old(problems) <= problems
        invariant aborted ==> |old(problems)| < |problems|
        invariant args == FirstArgs(all)
        invariant (&& !aborted && problems == old(problems)
                   && ParseArgs(tokens, old(index), b) == After(all, ParseArgs(tokens, index, b)))
                  || (ParseArgs(tokens, old(index), b) == None && Dirty(old(problems), old(index)))
        decreases |tokens| - index
      {
        if aborted { break; }
        ghost var at, before := index, all;
        var arg := Expression();
        if |args| < MAX_FORMULA_ARGS {
          args := args + [arg];
        }
        all := all + [arg];
        if tokens[index] != Comma { break; }
        var _ := Next();
        AfterPush(before, arg, ParseArgs(tokens, index, b));
      }
    }

    /** The whole formula. Nothing is reported exactly when the success-only descent answers. */
    method Parse() returns (node: Node)
      requires Valid() && index == 0 && depth == 0 && !aborted && problems == []
      modifies this
      ensures depth == 0
      ensures match ParseWhole(tokens, MAX_FORMULA_DEPTH)
              case Some(n) => problems == [] && node == n
              case None => problems != [] || ErrorToken in tokens
    {
      node := Expression();
      if !aborted && tokens[index] != Eof {
        Problem(if tokens[index] == RParen then UnbalancedParen else TrailingInput);
      }
    }
  }

  /** Arguments already read, put in front of the ones still to come. */
  ghost function After(front: seq<Node>, r: Option<(seq<Node>, nat)>): Option<(seq<Node>, nat)> {
    match r
    case None => None
    case Some((rest, j)) => Some((front + rest, j))
  }

  lemma AfterNothing(r: Option<(seq<Node>, nat)>)
    ensures After([], r) == r
  {
    if r.Some? {
      assert [] + r.value.0 == r.value.0;
    }
  }

  lemma AfterPush(front: seq<Node>, arg: Node, r: Option<(seq<Node>, nat)>)
    ensures After(front, After([arg], r)) == After(front + [arg], r)
  {
    if r.Some? {
      assert front + ([arg] + r.value.0) == front + [arg] + r.value.0;
    }
  }
}
