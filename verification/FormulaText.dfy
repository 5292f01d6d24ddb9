/** The canonical text: what the printer writes, character by character, and what reading that text gives. */
module FormulaText {
  import opened FormulaAst
  import opened FormulaPrinter
  import opened FormulaLexer

  // ---------------------------------------------------------------- references that run on

  const SECURITY_REF_SCHEMES: seq<string> := ["isin", "figi", "cusip", "sedol", "occ", "series"]

  predicate StartsWith(text: string, prefix: string) {
    |prefix| <= |text| && text[..|prefix|] == prefix
  }

  predicate IsSchemeRef(text: string) {
    exists k :: 0 <= k < |SECURITY_REF_SCHEMES| && StartsWith(text, "/" + SECURITY_REF_SCHEMES[k] + "/")
  }

  /** The schemes. */
  lemma SchemesAre(text: string)
    ensures IsSchemeRef(text) <==>
              || StartsWith(text, "/isin/") || StartsWith(text, "/figi/") || StartsWith(text, "/cusip/")
              || StartsWith(text, "/sedol/") || StartsWith(text, "/occ/") || StartsWith(text, "/series/")
  {
    var all := SECURITY_REF_SCHEMES;
    assert "/" + all[0] + "/" == "/isin/" && "/" + all[1] + "/" == "/figi/" && "/" + all[2] + "/" == "/cusip/";
    assert "/" + all[3] + "/" == "/sedol/" && "/" + all[4] + "/" == "/occ/" && "/" + all[5] + "/" == "/series/";
  }

  /** Only characters that a scheme's value may hold. */
  predicate RunsOn(text: string) {
    forall i :: 0 <= i < |text| ==> IsSchemeValueChar(text[i])
  }

  /** The text ends in a `/scheme/value` reference, which an operator written straight after would join. */
  predicate EndsWithSchemeRef(text: string) {
    exists i :: 0 <= i < |text| && IsSchemeRef(text[i..]) && RunsOn(text[i..])
  }

  /** Whether a text ends so is decided behind the last character that no reference may hold. */
  lemma EndsBehind(front: string, c: char, tail: string)
    requires !IsSchemeValueChar(c)
    ensures EndsWithSchemeRef(front + [c] + tail) <==> EndsWithSchemeRef(tail)
  {
    var text, n := front + [c] + tail, |front| + 1;
    assert forall i :: 0 <= i <= |tail| ==> text[n + i..] == tail[i..];
    if EndsWithSchemeRef(tail) {
      var i :| 0 <= i < |tail| && IsSchemeRef(tail[i..]) && RunsOn(tail[i..]);
      assert text[n + i..] == tail[i..];
    }
    if EndsWithSchemeRef(text) {
      var i :| 0 <= i < |text| && IsSchemeRef(text[i..]) && RunsOn(text[i..]);
      if i < n {
        assert text[i..][n - 1 - i] == c;
      } else {
        assert text[i..] == tail[i - n..];
      }
    }
  }

  // ---------------------------------------------------------------- the printer

  function OpText(op: BinaryOp): string {
    match op
    case Plus => "+"
    case Minus => "-"
    case Star => "*"
    case Slash => "/"
  }

  function WrapText(wrap: bool, inner: string): string {
    if wrap then "(" + inner + ")" else inner
  }

  function Between(op: BinaryOp, padded: bool): string {
    if padded then " " + OpText(op) + " " else OpText(op)
  }

  /** An operator between its operands, spaced out behind a scheme reference. */
  function JoinText(op: BinaryOp, left: string, right: string): string {
    left + Between(op, EndsWithSchemeRef(left)) + right
  }

  /** The canonical text of a tree, given how numbers are spelled. */
  function PrintText(spell: real -> string, node: Node): string {
    match node
    case Number(value) => spell(value)
    case Field(field) => field
    case Security(canonical) => canonical
    case ErrorNode => "?"
    case Unary(op, operand) =>
      (if op == Pos then "+" else "-") + WrapText(operand.Unary? || operand.Binary?, PrintText(spell, operand))
    case Call(name, args) => NameText(name) + "(" + PrintList(spell, args) + ")"
    case Binary(op, left, right) =>
      var mine := OpBinding(op);
      var rightBinding := BindingOf(right);
      var rightNeedsParens := rightBinding < mine || (rightBinding == mine && (op == Minus || op == Slash));
      JoinText(op, WrapText(BindingOf(left) < mine, PrintText(spell, left)),
               WrapText(rightNeedsParens, PrintText(spell, right)))
  }

  function PrintList(spell: real -> string, args: seq<Node>): string {
    if args == [] then ""
    else if |args| == 1 then PrintText(spell, args[0])
    else PrintText(spell, args[0]) + ", " + PrintList(spell, args[1..])
  }

  lemma NoSlashNoScheme(text: string)
    requires '/' !in text
    ensures !EndsWithSchemeRef(text)
  {
    forall i | 0 <= i < |text|
      ensures !IsSchemeRef(text[i..])
    {
      assert text[i..][0] == text[i];
    }
  }

  lemma {:induction false} PrintOf(spell: real -> string, op: BinaryOp, left: Node, right: Node)
    ensures PrintText(spell, Binary(op, left, right)) ==
              (var mine := OpBinding(op);
               var rightNeedsParens := BindingOf(right) < mine || (BindingOf(right) == mine && !Associates(op));
               JoinText(op, WrapText(BindingOf(left) < mine, PrintText(spell, left)),
                        WrapText(rightNeedsParens, PrintText(spell, right))))
  {
  }

  lemma {:induction false} TwoArguments(spell: real -> string, name: FunctionName, x: Node, y: Node)
    ensures PrintText(spell, Call(name, [x, y]))
         == NameText(name) + "(" + PrintText(spell, x) + ", " + PrintText(spell, y) + ")"
  {
    var args := [x, y];
    assert args[1..] == [y];
    assert PrintList(spell, args) == PrintText(spell, x) + ", " + PrintText(spell, y);
  }

  /** Operators are written without spaces; brackets stand where a weaker operator is an operand. */
  lemma {:induction false} PrintedProduct(spell: real -> string, b: Node, sum: Node)
    requires b == Field("B") && sum == Binary(Plus, Field("C"), Field("D"))
    ensures PrintText(spell, sum) == "C+D"
    ensures PrintText(spell, Binary(Star, b, sum)) == "B*(C+D)"
  {
    NoSlashNoScheme("C");
    NoSlashNoScheme("B");
    PrintOf(spell, Plus, Field("C"), Field("D"));
    PrintOf(spell, Star, b, sum);
  }

  /** Arguments are parted by a comma and a space. */
  lemma {:induction false} PrintedCall(spell: real -> string, x: Node, y: Node, a: string, b: string)
    requires PrintText(spell, x) == a && PrintText(spell, y) == b
    ensures PrintText(spell, Call(RATIO, [x, y])) == "RATIO(" + a + ", " + b + ")"
    ensures PrintText(spell, Call(SPREAD, [x, y])) == "SPREAD(" + a + ", " + b + ")"
  {
    TwoArguments(spell, RATIO, x, y);
    TwoArguments(spell, SPREAD, x, y);
    assert "RATIO" + "(" == "RATIO(" && "SPREAD" + "(" == "SPREAD(";
  }

  /** A right operand of its own band is bracketed behind `-` and `/` only. */
  lemma {:induction false} PrintedBands(spell: real -> string, a: Node, difference: Node)
    requires a == Field("A") && difference == Binary(Minus, Field("B"), Field("C"))
    ensures PrintText(spell, difference) == "B-C"
    ensures PrintText(spell, Binary(Minus, a, difference)) == "A-(B-C)"
    ensures PrintText(spell, Binary(Plus, a, difference)) == "A+B-C"
  {
    NoSlashNoScheme("A");
    NoSlashNoScheme("B");
    PrintOf(spell, Minus, Field("B"), Field("C"));
    PrintOf(spell, Minus, a, difference);
    PrintOf(spell, Plus, a, difference);
  }

  /** A sign behind a sign is bracketed. */
  lemma {:induction false} PrintedSigns(spell: real -> string, a: Node)
    requires a == Field("A")
    ensures PrintText(spell, Unary(Neg, a)) == "-A"
    ensures PrintText(spell, Unary(Neg, Unary(Pos, a))) == "-(+A)"
  {
  }

  /** Behind a `/scheme/` reference an operator is spaced out. */
  lemma {:induction false} PrintedScheme(spell: real -> string, security: Node, canonical: string, b: Node)
    requires canonical == "/isin/US0378331005" && security == Security(canonical) && b == Field("B")
    ensures PrintText(spell, Binary(Slash, security, b)) == "/isin/US0378331005 / B"
  {
    assert SECURITY_REF_SCHEMES[0] == "isin";
    assert canonical[..6] == "/" + "isin" + "/";
    assert canonical[0..] == canonical && IsSchemeRef(canonical) && RunsOn(canonical);
    PrintOf(spell, Slash, security, b);
  }

  // ---------------------------------------------------------------- the left-nested tree has the same text

  /** Behind `+` or `*`, padded or not, only the right operand matters. */
  lemma JoinEndsAsRight(op: BinaryOp, left: string, right: string)
    requires Associates(op)
    ensures EndsWithSchemeRef(JoinText(op, left, right)) <==> EndsWithSchemeRef(right)
  {
    var between := Between(op, EndsWithSchemeRef(left));
    var front, last := left + between[..|between| - 1], between[|between| - 1];
    assert JoinText(op, left, right) == front + [last] + right;
    EndsBehind(front, last, right);
  }

  /** Hanging an operand under the left of another changes no character, the padding included. */
  lemma JoinsAssociate(op: BinaryOp, a: string, rop: BinaryOp, b: string, c: string)
    requires Associates(op)
    ensures JoinText(rop, JoinText(op, a, b), c) == JoinText(op, a, JoinText(rop, b, c))
  {
    JoinEndsAsRight(op, a, b);
    Regroup(a, Between(op, EndsWithSchemeRef(a)), b, Between(rop, EndsWithSchemeRef(b)), c);
  }

  lemma Regroup(a: string, o: string, b: string, r: string, c: string)
    ensures (a + o + b) + r + c == a + o + (b + r + c)
  {
  }

  lemma {:induction false} SplicePrintsText(spell: real -> string, op: BinaryOp, left: Node, right: Node)
    requires Associates(op)
    ensures PrintText(spell, Splice(op, left, right)) == PrintText(spell, Binary(op, left, right))
  {
    if InBand(right, OpBinding(op)) {
      SplicePrintsText(spell, op, left, right.left);
      SpliceBand(op, left, right.left);
      var mine := OpBinding(op);
      var a := WrapText(BindingOf(left) < mine, PrintText(spell, left));
      var b := WrapText(BindingOf(right.left) < mine, PrintText(spell, right.left));
      var rightBinding := BindingOf(right.right);
      var c := WrapText(rightBinding < mine || (rightBinding == mine && (right.bop == Minus || right.bop == Slash)),
                        PrintText(spell, right.right));
      JoinsAssociate(op, a, right.bop, b, c);
    }
  }

  lemma {:induction false} ReassocPrintsTheSameText(spell: real -> string, node: Node)
    ensures PrintText(spell, Reassoc(node)) == PrintText(spell, node)
  {
    match node
    case Unary(_, operand) =>
      ReassocPrintsTheSameText(spell, operand);
      ReassocBand(operand);
    case Binary(op, left, right) =>
      ReassocPrintsTheSameText(spell, left);
      ReassocPrintsTheSameText(spell, right);
      ReassocBand(left);
      ReassocBand(right);
      if Associates(op) {
        SplicePrintsText(spell, op, Reassoc(left), Reassoc(right));
      }
    case Call(_, args) => ReassocListPrintsTheSame(spell, args);
    case _ =>
  }

  lemma {:induction false} ReassocListPrintsTheSame(spell: real -> string, args: seq<Node>)
    ensures PrintList(spell, ReassocAll(args)) == PrintList(spell, args)
  {
    if args != [] {
      ReassocPrintsTheSameText(spell, args[0]);
      ReassocListPrintsTheSame(spell, args[1..]);
      assert ReassocAll(args)[1..] == ReassocAll(args[1..]);
    }
  }
}
