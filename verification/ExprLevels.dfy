// The levels of C's operators, from the postfix operators down to the comma, as the language
// defines them and apart from the table the parser reads: an expression printed by the levels
// is read back as what was printed.
module ExprLevels {
  import opened ExprParser
  import opened ExprTrees
  import opened ExprRoundTrip

  const POSTFIX := 15
  const PREFIX := 14

  // * / %, then + -, << >>, < > <= >=, == !=, &, | and ^, &&, ||, ?:, assignments, the comma.
  // 55 is &~, which only the compiler writes; for addresses there are four more comparisons.
  function Level(o: int): nat
    requires InfixOp(o)
  {
    match o
    case 39 => POSTFIX
    case 50 => POSTFIX
    case 42 => 13
    case 43 => 13
    case 44 => 13
    case 40 => 12
    case 41 => 12
    case 55 => 12
    case 45 => 11
    case 46 => 11
    case 62 => 10
    case 63 => 10
    case 64 => 10
    case 65 => 10
    case 66 => 10
    case 67 => 10
    case 68 => 10
    case 69 => 10
    case 60 => 9
    case 61 => 9
    case 47 => 8
    case 48 => 7
    case 49 => 7
    case 53 => 6
    case 54 => 5
    case 90 => 4
    case 8 => 4
    case 9 => 2
    case _ => 3
  }

  // a=b=c is a=(b=c), and a?b:c?d:e is a?b:(c?d:e); the other operators group to the left.
  predicate GroupsRight(level: nat) { level == 3 || level == 4 }

  function LevelOf(t: Expr): nat
    requires Proper(t)
  {
    match t
    case Leaf(_) => 16
    case Group(_) => 16
    case Unary(_, _) => PREFIX
    case Infix(o, _, _) => Level(o)
    case _ => POSTFIX
  }

  // t where the grammar asks for an expression of at least this level.
  function Operand(t: Expr, level: nat): seq<Tok>
    requires Proper(t)
    decreases t, 1
  {
    Paren(Text(t), LevelOf(t) >= level)
  }

  /** An expression as C writes it, with no more parentheses than it takes. */
  function Text(t: Expr): seq<Tok>
    requires Proper(t)
    decreases t, 0
  {
    match t
    case Leaf(id) => [Name(id)]
    case Unary(o, e) => [Written(o)] + Operand(e, PREFIX)
    case Post(o, e) => Operand(e, POSTFIX) + [Written(o)]
    case Infix(o, l, r) =>
      var v := Level(o);
      Operand(l, if GroupsRight(v) then v + 1 else v) + [Sym(o)] + Operand(r, if GroupsRight(v) then v else v + 1)
    case Index(l, i) => Operand(l, POSTFIX) + [Sym(LBRACK)] + Text(i) + [Sym(RBRACK)]
    case Apply(f, a) => Operand(f, POSTFIX) + [Sym(LPARN)] + Text(a) + [Sym(RPARN)]
    case Apply0(f) => Operand(f, POSTFIX) + [Sym(LPARN), Sym(RPARN)]
    case Group(e) => Paren(Text(e), false)
  }

  // How many operators and open brackets are waiting at once.
  function Depth(t: Expr): nat
    requires Proper(t)
    decreases t, 0
  {
    match t
    case Leaf(_) => 0
    case Unary(_, e) => 1 + OperandDepth(e, PREFIX)
    case Post(_, e) => Max(1, OperandDepth(e, POSTFIX))
    case Infix(o, l, r) =>
      var v := Level(o);
      Max(OperandDepth(l, if GroupsRight(v) then v + 1 else v),
          1 + OperandDepth(r, if GroupsRight(v) then v else v + 1))
    case Index(l, i) => Max(OperandDepth(l, POSTFIX), 1 + Depth(i))
    case Apply(f, a) => Max(OperandDepth(f, POSTFIX), 1 + Depth(a))
    case Apply0(f) => Max(1, OperandDepth(f, POSTFIX))
    case Group(e) => 1 + Depth(e)
  }

  function OperandDepth(t: Expr, level: nat): nat
    requires Proper(t)
    decreases t, 1
  {
    Around(Depth(t), LevelOf(t) >= level)
  }

  // ---- the table agrees with the levels

  /** The table puts two operators in the order of their levels, and groups each as its level
      does. */
  lemma TableAgrees(o: int, q: int)
    requires InfixOp(o) && InfixOp(q)
    ensures Prio(o, false) < Prio(q, false) <==> Level(o) < Level(q)
    ensures Right(o) <==> GroupsRight(Level(o))
    ensures Level(o) < PREFIX <==> Prio(o, false) < 28
    ensures Level(o) > PREFIX <==> Prio(o, false) > 28
  {
    LevelPrio(o);
    LevelPrio(q);
  }

  // The priority that the table has for each level.
  function PrioOf(level: nat): nat {
    match level
    case 2 => 7
    case 3 => 10
    case 4 => 12
    case 5 => 13
    case 6 => 14
    case 7 => 15
    case 8 => 16
    case 9 => 18
    case 10 => 20
    case 11 => 22
    case 12 => 24
    case 13 => 26
    case 14 => 28
    case _ => 30
  }

  lemma LevelPrio(o: int)
    requires InfixOp(o)
    ensures Prio(o, false) == PrioOf(Level(o))
    ensures 2 <= Level(o) <= POSTFIX && Level(o) != PREFIX
    ensures Right(o) <==> GroupsRight(Level(o))
  {
    if o < 53 { LowerPrio(o); } else { UpperPrio(o); }
  }

  lemma LowerPrio(o: int)
    requires InfixOp(o) && o < 53
    ensures Prio(o, false) == PrioOf(Level(o))
    ensures 2 <= Level(o) <= POSTFIX && Level(o) != PREFIX
    ensures Right(o) <==> GroupsRight(Level(o))
  {
  }

  lemma UpperPrio(o: int)
    requires InfixOp(o) && o >= 53
    ensures Prio(o, false) == PrioOf(Level(o))
    ensures 2 <= Level(o) <= POSTFIX && Level(o) != PREFIX
    ensures Right(o) <==> GroupsRight(Level(o))
  {
  }

  // ---- the two ways of printing are one

  lemma RightAgrees(o: int, r: Expr)
    requires InfixOp(o) && Proper(r) && (o == DOT || o == ARROW ==> r.Leaf?)
    ensures FitsRight(r, Prio(o, false), false)
        <==> LevelOf(r) >= if GroupsRight(Level(o)) then Level(o) else Level(o) + 1
  {
    hide Prio, Right, Level;
    LevelPrio(o);
    InfixFacts(o, false);
    BracketFacts(false);
    match r
    case Leaf(_) =>
    case Unary(u, _) => UnaryFacts(u, false);
    case Infix(q, _, _) =>
      TableAgrees(o, q);
      TableAgrees(q, o);
    case _ =>
  }

  lemma PrefixAgrees(e: Expr)
    requires Proper(e)
    ensures FitsRight(e, 28, false) <==> LevelOf(e) >= PREFIX
  {
    hide Prio, Right, Level;
    BracketFacts(false);
    match e
    case Leaf(_) =>
    case Unary(u, _) => UnaryFacts(u, false);
    case Infix(q, _, _) =>
      TableAgrees(q, q);
      LevelPrio(q);
    case _ =>
  }

  // Whatever waits behind the first operator of t is no weaker.
  lemma {:induction false} Rising(t: Expr, i: nat)
    requires Proper(t) && i < |Pending(t, false)|
    ensures Pending(t, false)[0].p <= Pending(t, false)[i].p
    ensures t.Unary? || t.Infix? ==> Pending(t, false)[0].p == Prio(Head(t), false)
    ensures t.Post? ==> |Pending(t, false)| == 1 && Pending(t, false)[0].p == 37
    ensures t.Apply0? ==> |Pending(t, false)| == 1 && Pending(t, false)[0].p == 30
    decreases t
  {
    hide Prio, Right;
    BracketFacts(false);
    match t
    case Unary(o, e) =>
      if i > 0 {
        UnaryFacts(o, false);
        Rising(e, i - 1);
        FirstPending(e);
      }
    case Infix(o, _, r) =>
      if i > 0 {
        Rising(r, i - 1);
        FirstPending(r);
      }
    case _ =>
  }

  // The first operator that waits is at least as strong as the one by which t may stand.
  lemma FirstPending(t: Expr)
    requires Proper(t) && Pending(t, false) != []
    ensures !t.Leaf? && Pending(t, false)[0].p >= Prio(Head(t), false)
  {
    hide Prio, Right;
    BracketFacts(false);
  }

  lemma ClearsHead(t: Expr, o: int)
    requires Proper(t) && (t.Unary? || t.Infix?)
    ensures FitsLeft(t, o, false) <==> !Above(o, Prio(o, false), Prio(Head(t), false))
  {
    hide Prio, Right;
    var p := Pending(t, false);
    assert p[0].p == Prio(Head(t), false);
    forall i | 0 <= i < |p|
      ensures p[0].p <= p[i].p
    {
      Rising(t, i);
    }
  }

  lemma ClearsPostfix(t: Expr, o: int)
    requires Proper(t) && !t.Unary? && !t.Infix? && Prio(o, false) <= 30 && (Right(o) ==> Prio(o, false) < 30)
    ensures FitsLeft(t, o, false)
  {
    hide Prio, Right;
    BracketFacts(false);
  }

  lemma LeftAgrees(l: Expr, o: int)
    requires InfixOp(o) && Proper(l)
    ensures FitsLeft(l, o, false) <==> LevelOf(l) >= if GroupsRight(Level(o)) then Level(o) + 1 else Level(o)
  {
    hide Prio, Right, Level, FitsLeft;
    LevelPrio(o);
    InfixFacts(o, false);
    if l.Unary? {
      UnaryFacts(l.o, false);
      ClearsHead(l, o);
    } else if l.Infix? {
      TableAgrees(o, l.o);
      TableAgrees(l.o, o);
      ClearsHead(l, o);
    } else {
      ClearsPostfix(l, o);
    }
  }

  // Before [ and ( and a postfix ++ or --.
  lemma PostfixAgrees(l: Expr, o: int)
    requires Proper(l) && (o == LBRACK || o == CALL || o == MCALL || o == INCAFT || o == DECAFT)
    ensures FitsLeft(l, o, false) <==> LevelOf(l) >= POSTFIX
  {
    hide Prio, Right, Level, FitsLeft;
    BracketFacts(false);
    if l.Unary? {
      UnaryFacts(l.o, false);
      ClearsHead(l, o);
    } else if l.Infix? {
      TableAgrees(l.o, l.o);
      LevelPrio(l.o);
      ClearsHead(l, o);
    } else {
      ClearsPostfix(l, o);
    }
  }

  lemma {:induction false} SameText(t: Expr)
    requires Proper(t)
    ensures Text(t) == Print(t, false) && Depth(t) == OpDepth(t, false)
    decreases t
  {
    hide Prio, Right, FitsLeft, FitsRight, Level, LevelOf;
    match t
    case Leaf(_) =>
    case Unary(o, e) =>
      UnaryFacts(o, false);
      PrefixAgrees(e);
      SameText(e);
    case Post(o, e) =>
      PostfixAgrees(e, o);
      SameText(e);
    case Infix(o, l, r) =>
      LeftAgrees(l, o);
      RightAgrees(o, r);
      SameText(l);
      SameText(r);
    case Index(l, i) =>
      PostfixAgrees(l, LBRACK);
      SameText(l);
      SameText(i);
    case Apply(f, a) =>
      PostfixAgrees(f, CALL);
      SameText(f);
      SameText(a);
    case Apply0(f) =>
      PostfixAgrees(f, MCALL);
      SameText(f);
    case Group(e) => SameText(e);
  }

  /** tree() makes the calls of every expression written by C's levels, up to the symbol that
      ends it, if it is within the limits of the two stacks. */
  lemma ReadsAsC(t: Expr, end: int, rest: seq<Tok>)
    requires Proper(t) && Ends(end, false) && Depth(t) < SSIZE && CmDepth(t) < CMSIZ
    ensures Parse(Bottom(), Text(t) + [Sym(end)] + rest, false)
         == (Done(Calls(t) + [Build(0)], end), [Sym(end)] + rest)
  {
    hide Parse, Prio, Right, Calls;
    SameText(t);
    BareAtTop(t);
    EndsAll(t, end, false);
    RoundTrip(t, end, rest, false);
  }

  lemma BareAtTop(t: Expr)
    requires Proper(t)
    ensures FitsRight(t, 6, false)
  {
    hide Prio, Right;
    BracketFacts(false);
    if t.Unary? { UnaryFacts(t.o, false); }
    if t.Infix? { LevelPrio(t.o); }
  }
}
