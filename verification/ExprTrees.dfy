// Expression trees, printed with parentheses only where priority or associativity need them,
// and the parser of ExprParser reading them back.
module ExprTrees {
  import opened ExprParser

  datatype Expr =
    | Leaf(id: nat)
    | Unary(o: int, e: Expr)
    | Post(o: int, e: Expr)
    | Infix(o: int, l: Expr, r: Expr)
    | Index(l: Expr, i: Expr)
    | Apply(f: Expr, a: Expr)
    | Apply0(f: Expr)
    | Group(e: Expr)              // in parentheses, needed or not

  predicate UnaryOp(o: int) { o == INCBEF || o == DECBEF || EXCLA <= o <= COMPL || o == SIZEOF }

  // ?: is a QUEST whose right operand is a COLON.
  predicate InfixOp(o: int) {
    o == COLON || o == COMMA || DOT <= o <= ARROW || 53 <= o <= 55 || 60 <= o <= 80 || o == QUEST
  }

  // What is selected with . or -> is a name.
  predicate Proper(t: Expr) {
    match t
    case Leaf(_) => true
    case Unary(o, e) => UnaryOp(o) && Proper(e)
    case Post(o, e) => (o == INCAFT || o == DECAFT) && Proper(e)
    case Infix(o, l, r) => InfixOp(o) && Proper(l) && Proper(r) && (o == DOT || o == ARROW ==> r.Leaf?)
    case Index(l, i) => Proper(l) && Proper(i)
    case Apply(f, a) => Proper(f) && Proper(a)
    case Apply0(f) => Proper(f)
    case Group(e) => Proper(e)
  }

  // The build calls of a tree, operands before operators.
  function Calls(t: Expr): seq<Act> {
    match t
    case Leaf(id) => [Push(id)]
    case Unary(o, e) => Calls(e) + if o == INCBEF || o == DECBEF then [One, Build(o)] else [Build(o)]
    case Post(o, e) => Calls(e) + [One, Build(o)]
    case Infix(o, l, r) => Calls(l) + Calls(r) + [Build(o)]
    case Index(l, i) => Calls(l) + Calls(i) + [Build(LBRACK)]
    case Apply(f, a) => Calls(f) + Calls(a) + [Build(CALL)]
    case Apply0(f) => Calls(f) + [Null, Build(CALL)]
    case Group(e) => Calls(e)
  }

  // ---- printing

  // The symbol and priority with which the first operator of t that stays meets what is below.
  function Head(t: Expr): int {
    match t
    case Leaf(_) => LPARN
    case Unary(o, _) => o
    case Post(o, _) => o
    case Infix(o, _, _) => o
    case Index(_, _) => LBRACK
    case Apply(_, _) => CALL
    case Apply0(_) => MCALL
    case Group(_) => LPARN
  }

  // May t stand, without parentheses, to the right of an operator of priority ps?
  predicate FitsRight(t: Expr, ps: nat, init: bool) {
    t.Leaf? || Above(Head(t), Prio(Head(t), init), ps)
  }

  // The operators of t still on the stack when its last symbol has been read.
  function Pending(t: Expr, init: bool): seq<Entry> {
    match t
    case Leaf(_) => []
    case Unary(o, e) => [Entry(o, Prio(o, init))] + (if FitsRight(e, Prio(o, init), init) then Pending(e, init) else [])
    case Post(o, _) => [Entry(o, 37)]
    case Infix(o, _, r) => [Entry(o, Prio(o, init))] + (if FitsRight(r, Prio(o, init), init) then Pending(r, init)
        else [])
    case Index(_, _) => []
    case Apply(_, _) => []
    case Apply0(_) => [Entry(MCALL, Prio(MCALL, init))]
    case Group(_) => []
  }

  // Does o build all of these before going on the stack?
  predicate Clears(o: int, init: bool, pending: seq<Entry>) {
    forall i :: 0 <= i < |pending| ==> !Above(o, Prio(o, init), pending[i].p)
  }

  predicate FitsLeft(t: Expr, o: int, init: bool) { Clears(o, init, Pending(t, init)) }

  function Paren(toks: seq<Tok>, bare: bool): seq<Tok> {
    if bare then toks else [Sym(LPARN)] + toks + [Sym(RPARN)]
  }

  // How an operator is written.
  function Written(o: int): Tok {
    Sym(if o == INCAFT then INCBEF else if o == DECAFT then DECBEF else if o == AMPER then AND
        else if o == STAR then TIMES else if o == NEG then MINUS else o)
  }

  function Print(t: Expr, init: bool): (p: seq<Tok>)
    ensures p != []
  {
    match t
    case Leaf(id) => [Name(id)]
    case Unary(o, e) => [Written(o)] + Paren(Print(e, init), FitsRight(e, Prio(o, init), init))
    case Post(o, e) => Paren(Print(e, init), FitsLeft(e, o, init)) + [Written(o)]
    case Infix(o, l, r) =>
      Paren(Print(l, init), FitsLeft(l, o, init)) + [Sym(o)] + Paren(Print(r, init), FitsRight(r, Prio(o, init), init))
    case Index(l, i) => Paren(Print(l, init), FitsLeft(l, LBRACK, init)) + [Sym(LBRACK)] + Print(i, init) +
        [Sym(RBRACK)]
    case Apply(f, a) => Paren(Print(f, init), FitsLeft(f, CALL, init)) + [Sym(LPARN)] + Print(a, init) + [Sym(RPARN)]
    case Apply0(f) => Paren(Print(f, init), FitsLeft(f, MCALL, init)) + [Sym(LPARN), Sym(RPARN)]
    case Group(e) => Paren(Print(e, init), false)
  }

  // ---- how deep the stacks get

  function Max(a: nat, b: nat): nat { if a < b then b else a }

  function Around(d: nat, bare: bool): nat { if bare then d else d + 1 }

  // On the operator stack.
  function OpDepth(t: Expr, init: bool): nat {
    match t
    case Leaf(_) => 0
    case Unary(o, e) => 1 + Around(OpDepth(e, init), FitsRight(e, Prio(o, init), init))
    case Post(o, e) => Max(1, Around(OpDepth(e, init), FitsLeft(e, o, init)))
    case Infix(o, l, r) =>
      Max(Around(OpDepth(l, init), FitsLeft(l, o, init)), 1 + Around(OpDepth(r, init),
          FitsRight(r, Prio(o, init), init)))
    case Index(l, i) => Max(Around(OpDepth(l, init), FitsLeft(l, LBRACK, init)), 1 + OpDepth(i, init))
    case Apply(f, a) => Max(Around(OpDepth(f, init), FitsLeft(f, CALL, init)), 1 + OpDepth(a, init))
    case Apply0(f) => Max(1, Around(OpDepth(f, init), FitsLeft(f, MCALL, init)))
    case Group(e) => 1 + OpDepth(e, init)
  }

  // On the operand stack.
  function CmDepth(t: Expr): nat {
    match t
    case Leaf(_) => 1
    case Unary(_, e) => CmDepth(e)
    case Post(_, e) => CmDepth(e)
    case Infix(_, l, r) => Max(CmDepth(l), 1 + CmDepth(r))
    case Index(l, i) => Max(CmDepth(l), 1 + CmDepth(i))
    case Apply(f, a) => Max(CmDepth(f), 1 + CmDepth(a))
    case Apply0(f) => CmDepth(f)
    case Group(e) => CmDepth(e)
  }

  // ---- what the table says of the operators

  lemma UnaryFacts(o: int, init: bool)
    requires UnaryOp(o)
    ensures Prio(o, init) == 28 && Right(o) && Stacked(o, 28) == 28 && (Binary(o) <==> o == INCBEF || o == DECBEF)
    ensures Read(match Written(o) case Sym(w) => w case Name(_) => -1, false, false).o == o
  {
  }

  lemma InfixFacts(o: int, init: bool)
    requires InfixOp(o)
    ensures 5 <= Prio(o, init) <= 30 && Prio(o, init) != 29 && Binary(o) && Stacked(o, Prio(o, init)) == Prio(o, init)
    ensures Prio(o, init) == 30 <==> o == DOT || o == ARROW
    ensures Right(o) ==> Prio(o, init) < 28
    ensures o != SEOF && o != CALL && o != LPARN && o != LBRACK && o != MCALL && !(INCBEF <= o <= DECAFT)
    ensures !UnaryOp(o) && o != RPARN && o != RBRACK
  {
  }

  lemma BracketFacts(init: bool)
    ensures Prio(LPARN, init) == Prio(LBRACK, init) == Prio(CALL, init) == Prio(MCALL, init) == 30
    ensures !Right(LPARN) && !Right(LBRACK) && !Right(CALL) && !Right(MCALL)
    ensures Prio(RPARN, init) == Prio(RBRACK, init) == 2 && !Right(RPARN) && !Right(RBRACK)
    ensures Prio(INCAFT, init) == Prio(DECAFT, init) == 28 && Right(INCAFT) && Right(DECAFT)
    ensures Binary(LBRACK) && Binary(CALL) && Binary(INCAFT) && Binary(DECAFT)
  {
  }
}
