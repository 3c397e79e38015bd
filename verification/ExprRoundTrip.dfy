// The parser makes exactly the calls of the tree that was printed.
module ExprRoundTrip {
  import opened ExprParser
  import opened ExprTrees

  // The calls made by the time the last symbol of t has been read.
  function Early(t: Expr, init: bool): seq<Act>
    decreases t, 0
  {
    match t
    case Leaf(_) => Calls(t)
    case Unary(o, e) => EarlyArg(e, FitsRight(e, Prio(o, init), init), init)
    case Post(o, e) => Calls(e)
    case Infix(o, l, r) => Calls(l) + EarlyArg(r, FitsRight(r, Prio(o, init), init), init)
    case Index(_, _) => Calls(t)
    case Apply(_, _) => Calls(t)
    case Apply0(f) => Calls(f)
    case Group(_) => Calls(t)
  }

  function EarlyArg(t: Expr, bare: bool, init: bool): seq<Act>
    decreases t, 1
  {
    if bare then Early(t, init) else Calls(t)
  }

  function PendingArg(t: Expr, bare: bool, init: bool): seq<Entry> {
    if bare then Pending(t, init) else []
  }

  lemma Assoc<T>(a: seq<T>, b: seq<T>, c: seq<T>)
    ensures a + b + c == a + (b + c)
  {
  }

  // ---- the pieces of each kind of tree

  lemma UnaryParts(o: int, e: Expr, init: bool)
    requires UnaryOp(o)
    ensures var t, bare := Unary(o, e), FitsRight(e, Prio(o, init), init);
      && Print(t, init) == [Written(o)] + Paren(Print(e, init), bare)
      && Pending(t, init) == [Entry(o, Prio(o, init))] + PendingArg(e, bare, init)
      && Early(t, init) == EarlyArg(e, bare, init) && Calls(t) == Calls(e) + Popped(o)
      && OpDepth(t, init) == 1 + Around(OpDepth(e, init), bare) && CmDepth(t) == CmDepth(e) && Head(t) == o
  {
    hide Prio, Right, FitsRight, FitsLeft, Above, Opdope;
  }

  lemma PostParts(o: int, e: Expr, init: bool)
    requires o == INCAFT || o == DECAFT
    ensures var t, bare := Post(o, e), FitsLeft(e, o, init);
      && Print(t, init) == Paren(Print(e, init), bare) + [Written(o)]
      && Pending(t, init) == [Entry(o, 37)] && Early(t, init) == Calls(e) && Calls(t) == Calls(e) + Popped(o)
      && OpDepth(t, init) == Max(1, Around(OpDepth(e, init), bare)) && CmDepth(t) == CmDepth(e) && Head(t) == o
  {
    hide Prio, Right, FitsRight, FitsLeft, Above, Opdope;
  }

  lemma InfixParts(o: int, l: Expr, r: Expr, init: bool)
    ensures var t, bl, br := Infix(o, l, r), FitsLeft(l, o, init), FitsRight(r, Prio(o, init), init);
      && Print(t, init) == Paren(Print(l, init), bl) + [Sym(o)] + Paren(Print(r, init), br)
      && Pending(t, init) == [Entry(o, Prio(o, init))] + PendingArg(r, br, init)
      && Early(t, init) == Calls(l) + EarlyArg(r, br, init) && Calls(t) == Calls(l) + Calls(r) + [Build(o)]
      && OpDepth(t, init) == Max(Around(OpDepth(l, init), bl), 1 + Around(OpDepth(r, init), br))
      && CmDepth(t) == Max(CmDepth(l), 1 + CmDepth(r)) && Head(t) == o
  {
    hide Prio, Right, FitsRight, FitsLeft, Above, Opdope, Popped;
  }

  // Subscripts and calls: a left part, and something in brackets.
  lemma BracketParts(l: Expr, i: Expr, call: bool, init: bool)
    ensures var t, o := if call then Apply(l, i) else Index(l, i), if call then CALL else LBRACK;
      && Print(t, init) == Paren(Print(l, init), FitsLeft(l, o, init)) + [Sym(if call then LPARN else LBRACK)] +
          Print(i, init)
        + [Sym(if call then RPARN else RBRACK)]
      && Pending(t, init) == [] && Early(t, init) == Calls(t) == Calls(l) + Calls(i) + [Build(o)]
      && OpDepth(t, init) == Max(Around(OpDepth(l, init), FitsLeft(l, o, init)), 1 + OpDepth(i, init))
      && CmDepth(t) == Max(CmDepth(l), 1 + CmDepth(i)) && Head(t) == o
  {
    hide Prio, Right, FitsRight, FitsLeft, Above, Opdope, Popped;
  }

  // ---- building what is pending

  lemma {:induction false} PendingFacts(t: Expr, init: bool, i: nat)
    requires Proper(t) && i < |Pending(t, init)|
    ensures var e := Pending(t, init)[i]; e.p >= 5 && e.o != SEOF && e.o != CALL && e.o != LPARN && e.o != LBRACK
    decreases t
  {
    hide Prio, Right, FitsRight;
    BracketFacts(init);
    match t
    case Unary(o, e) =>
      UnaryFacts(o, init);
      if i > 0 { PendingFacts(e, init, i - 1); }
    case Infix(o, l, r) =>
      InfixFacts(o, init);
      if i > 0 { PendingFacts(r, init, i - 1); }
    case Post(_, _) =>
    case Apply0(_) =>
  }

  // An operator that goes above none of them builds them all.
  lemma {:induction false} Flush(t: Expr, s: seq<Entry>, out: seq<Act>, flag: bool, o: int, p: nat, init: bool)
    requires Proper(t) && forall i :: 0 <= i < |Pending(t, init)| ==> !Above(o, p, Pending(t, init)[i].p)
    ensures Opon(M(s + Pending(t, init), out + Early(t, init), flag), o, p) == Opon(M(s, out + Calls(t), flag), o, p)
    decreases t, 0
  {
    hide Opon, Prio, Right, Above, FitsRight, Popped, Pending, Early, Calls;
    match t
    case Leaf(_) => NonePending(t, s, init);
    case Index(_, _) => NonePending(t, s, init);
    case Apply(_, _) => NonePending(t, s, init);
    case Group(_) => NonePending(t, s, init);
    case Unary(o1, e) => FlushUnary(o1, e, s, out, flag, o, p, init);
    case Infix(o1, l, r) => FlushInfix(o1, l, r, s, out, flag, o, p, init);
    case Post(o1, e) =>
      PostParts(o1, e, init);
      PopOne(Entry(o1, 37), s, out + Calls(e), flag, o, p, t, init);
      assert out + Calls(e) + Popped(o1) == out + Calls(t);
    case Apply0(f) =>
      Apply0Parts(f, init);
      PopOne(Entry(MCALL, Prio(MCALL, init)), s, out + Calls(f), flag, o, p, t, init);
      PoppedPlain(MCALL, init);
      assert out + Calls(f) + Popped(MCALL) == out + Calls(t);
  }

  lemma {:induction false} FlushUnary(o1: int, e: Expr, s: seq<Entry>, out: seq<Act>, flag: bool, o: int, p: nat,
      init: bool)
    requires var t := Unary(o1, e); Proper(t) && forall i :: 0 <= i < |Pending(t, init)| ==>
        !Above(o, p, Pending(t, init)[i].p)
    ensures var t := Unary(o1, e);
      Opon(M(s + Pending(t, init), out + Early(t, init), flag), o, p) == Opon(M(s, out + Calls(t), flag), o, p)
    decreases e, 2
  {
    hide Opon, Prio, Right, Above, FitsRight, Popped, Pending, Early, Calls, EarlyArg, PendingArg;
    var t := Unary(o1, e);
    UnaryParts(o1, e, init);
    FlushArg(e, FitsRight(e, Prio(o1, init), init), Entry(o1, Prio(o1, init)), s, out, flag, o, p, init, t);
    PopOne(Entry(o1, Prio(o1, init)), s, out + Calls(e), flag, o, p, t, init);
    assert out + Calls(e) + Popped(o1) == out + Calls(t);
  }

  lemma {:induction false} FlushInfix(o1: int, l: Expr, r: Expr, s: seq<Entry>, out: seq<Act>, flag: bool, o: int,
      p: nat, init: bool)
    requires var t := Infix(o1, l, r);
      Proper(t) && forall i :: 0 <= i < |Pending(t, init)| ==> !Above(o, p, Pending(t, init)[i].p)
    ensures var t := Infix(o1, l, r);
      Opon(M(s + Pending(t, init), out + Early(t, init), flag), o, p) == Opon(M(s, out + Calls(t), flag), o, p)
    decreases r, 2
  {
    hide Opon, Prio, Right, Above, FitsRight, Popped, Pending, Early, Calls, EarlyArg, PendingArg;
    var t := Infix(o1, l, r);
    var bare := FitsRight(r, Prio(o1, init), init);
    InfixParts(o1, l, r, init);
    FlushArg(r, bare, Entry(o1, Prio(o1, init)), s, out + Calls(l), flag, o, p, init, t);
    Assoc(out, Calls(l), EarlyArg(r, bare, init));
    PopOne(Entry(o1, Prio(o1, init)), s, out + Calls(l) + Calls(r), flag, o, p, t, init);
    PoppedPlain(o1, init);
    Assoc(out, Calls(l), Calls(r));
    Assoc(out, Calls(l) + Calls(r), [Build(o1)]);
  }

  lemma NonePending(t: Expr, s: seq<Entry>, init: bool)
    requires t.Leaf? || t.Index? || t.Apply? || t.Group?
    ensures s + Pending(t, init) == s && Early(t, init) == Calls(t)
  {
  }

  lemma Apply0Parts(f: Expr, init: bool)
    ensures var t, bare := Apply0(f), FitsLeft(f, MCALL, init);
      && Print(t, init) == Paren(Print(f, init), bare) + [Sym(LPARN), Sym(RPARN)]
      && Pending(t, init) == [Entry(MCALL, Prio(MCALL, init))] && Early(t, init) == Calls(f)
      && Calls(t) == Calls(f) + [Null, Build(CALL)]
      && OpDepth(t, init) == Max(1, Around(OpDepth(f, init), bare)) && CmDepth(t) == CmDepth(f) && Head(t) == MCALL
  {
    hide Prio, Right, FitsRight, FitsLeft, Above, Opdope, Popped;
  }

  lemma PoppedPlain(o: int, init: bool)
    ensures InfixOp(o) ==> Popped(o) == [Build(o)]
    ensures o == MCALL ==> Popped(o) == [Null, Build(CALL)]
  {
  }

  lemma {:induction false} FlushArg(e: Expr, bare: bool, top: Entry, s: seq<Entry>, out: seq<Act>, flag: bool, o: int,
      p: nat, init: bool, t: Expr)
    requires Proper(e) && e < t && Pending(t, init) == [top] + PendingArg(e, bare, init)
    requires forall i :: 0 <= i < |Pending(t, init)| ==> !Above(o, p, Pending(t, init)[i].p)
    ensures Opon(M(s + Pending(t, init), out + EarlyArg(e, bare, init), flag), o, p) ==
        Opon(M(s + [top], out + Calls(e), flag), o, p)
    decreases e, 1
  {
    hide Opon, Pending, Early, Calls, Above, Prio;
    if bare {
      forall i | 0 <= i < |Pending(e, init)| ensures !Above(o, p, Pending(e, init)[i].p) {
        assert Pending(t, init)[i + 1] == Pending(e, init)[i];
      }
      Flush(e, s + [top], out, flag, o, p, init);
      assert s + [top] + Pending(e, init) == s + Pending(t, init);
    } else {
      assert s + ([top] + []) == s + [top];
    }
  }

  // One operator off the stack.
  lemma PopOne(top: Entry, s: seq<Entry>, out: seq<Act>, flag: bool, o: int, p: nat, t: Expr, init: bool)
    requires Proper(t) && Pending(t, init) != [] && Pending(t, init)[0] == top && !Above(o, p, top.p)
    ensures Opon(M(s + [top], out, flag), o, p) == Opon(M(s, out + Popped(top.o), flag), o, p)
  {
    PendingFacts(t, init, 0);
    assert (s + [top])[..|s|] == s;
  }

  // ---- one symbol

  // What comes of a move on toks that leaves rest if it goes on.
  function Cont(v: Move, toks: seq<Tok>, rest: seq<Tok>, init: bool): (Result, seq<Tok>) {
    match v
    case Stop(r) => (r, toks)
    case Go(m) => Parse(m, rest, init)
  }

  lemma TakeSym(m: M, o: int, rest: seq<Tok>, init: bool)
    ensures var rd := Read(o, m.flag, rest != [] && rest[0] == Sym(RPARN));
      rd.o >= 0 && rd.n == 1 ==>
        Parse(m, [Sym(o)] + rest, init) ==
          Cont(Opon(m.(flag := rd.flag), rd.o, Prio(rd.o, init)), [Sym(o)] + rest, rest, init)
  {
    hide Opon, Net, Prio;
    var toks := [Sym(o)] + rest;
    assert toks[1..] == rest;
  }

  // ---- where the first operator of a tree may stand

  predicate Head2(t: Expr, l: Expr) {
    (t.Post? && t.e == l) || (t.Infix? && t.l == l) || (t.Index? && t.l == l) || (t.Apply? && t.f == l) ||
        (t.Apply0? && t.f == l)
  }

  // What may stand right of an operator may do so with its left part in front.
  lemma LeftPart(t: Expr, l: Expr, ps: nat, init: bool)
    requires Proper(t) && Head2(t, l) && FitsRight(t, ps, init) && ps != 29
    ensures if FitsLeft(l, Head(t), init) then FitsRight(l, ps, init) else ps < 30
  {
    hide Prio, Right;
    BracketFacts(init);
    assert Proper(l);
    if t.Infix? { InfixFacts(t.o, init); }
    if l.Unary? { UnaryFacts(l.o, init); }
    if l.Infix? { InfixFacts(l.o, init); }
    if !l.Leaf? && Pending(l, init) != [] && FitsLeft(l, Head(t), init) {
      assert !Above(Head(t), Prio(Head(t), init), Pending(l, init)[0].p);
    }
  }

  // Anything may stand right of an open bracket.
  lemma FitsBracket(t: Expr, init: bool)
    requires Proper(t)
    ensures FitsRight(t, 4, init)
  {
    hide Prio, Right;
    BracketFacts(init);
    if t.Infix? { InfixFacts(t.o, init); }
    if t.Unary? { UnaryFacts(t.o, init); }
  }

  lemma ClosedByBracket(t: Expr, o: int, init: bool)
    requires Proper(t) && (o == RPARN || o == RBRACK)
    ensures forall i :: 0 <= i < |Pending(t, init)| ==> !Above(o, Prio(o, init), Pending(t, init)[i].p)
  {
    hide Pending;
    BracketFacts(init);
    forall i | 0 <= i < |Pending(t, init)| ensures !Above(o, Prio(o, init), Pending(t, init)[i].p) {
      PendingFacts(t, init, i);
    }
  }

  // ---- counting operands

  lemma {:induction false} NetSum(a: seq<Act>, b: seq<Act>)
    ensures Net(a + b) == Net(a) + Net(b)
    decreases |b|
  {
    if b == [] {
      assert a + b == a;
    } else {
      var n := |b| - 1;
      assert (a + b)[..|a + b| - 1] == a + b[..n];
      NetSum(a, b[..n]);
    }
  }

  lemma NetOf(x: Act, y: Act)
    ensures Net([x]) == match x case Build(o) => (if Binary(o) then -1 else 0) case _ => 1
    ensures Net([x, y]) == Net([x]) + Net([y])
  {
    assert [x, y] == [x] + [y];
    NetSum([x], [y]);
    assert Net([]) == 0;
  }

  lemma {:induction false} NetCalls(t: Expr, init: bool)
    requires Proper(t)
    ensures Net(Calls(t)) == 1
  {
    hide Net, Binary, Prio;
    BracketFacts(init);
    match t
    case Leaf(id) => NetOf(Push(id), One);
    case Unary(o, e) =>
      UnaryFacts(o, init);
      NetCalls(e, init);
      NetSum(Calls(e), Popped(o));
      NetOf(Build(o), One);
      NetOf(One, Build(o));
    case Post(o, e) =>
      NetCalls(e, init);
      NetSum(Calls(e), Popped(o));
      NetOf(One, Build(o));
      NetOf(Build(o), One);
    case Infix(o, l, r) =>
      InfixFacts(o, init);
      NetCalls(l, init);
      NetCalls(r, init);
      NetTwo(Calls(l), Calls(r), o);
    case Index(l, i) =>
      NetCalls(l, init);
      NetCalls(i, init);
      NetTwo(Calls(l), Calls(i), LBRACK);
    case Apply(f, a) =>
      NetCalls(f, init);
      NetCalls(a, init);
      NetTwo(Calls(f), Calls(a), CALL);
    case Apply0(f) =>
      NetCalls(f, init);
      NetSum(Calls(f), [Null, Build(CALL)]);
      NetOf(Null, Build(CALL));
      NetOf(Build(CALL), Null);
    case Group(e) => NetCalls(e, init);
  }

  lemma NetTwo(a: seq<Act>, b: seq<Act>, o: int)
    requires Net(a) == 1 && Net(b) == 1 && Binary(o)
    ensures Net(a + b + [Build(o)]) == 1
  {
    NetSum(a, b);
    NetSum(a + b, [Build(o)]);
    NetOf(Build(o), One);
  }

  // ---- reading a tree

  // Nothing in the limits stops the parser while it reads t on these stacks.
  predicate Roomy(t: Expr, bare: bool, s: seq<Entry>, out: seq<Act>, init: bool) {
    |s| + Around(OpDepth(t, init), bare) <= SSIZE && Net(out) + CmDepth(t) < CMSIZ
  }

  predicate Level(s: seq<Entry>) { s != [] && s[|s| - 1].p != 29 }

  function Top(s: seq<Entry>): nat
    requires s != []
  {
    s[|s| - 1].p
  }

  lemma {:induction false} ReadTree(t: Expr, s: seq<Entry>, out: seq<Act>, rest: seq<Tok>, init: bool)
    requires Proper(t) && Level(s) && FitsRight(t, Top(s), init) && Roomy(t, true, s, out, init)
    ensures Parse(M(s, out, false), Print(t, init) + rest, init) ==
        Parse(M(s + Pending(t, init), out + Early(t, init), true), rest, init)
    decreases t, 1
  {
    match t
    case Leaf(id) => ReadLeaf(id, s, out, rest, init);
    case Unary(o, e) => ReadUnary(o, e, s, out, rest, init);
    case Post(o, e) => ReadPost(o, e, s, out, rest, init);
    case Infix(o, l, r) => ReadInfix(o, l, r, s, out, rest, init);
    case Index(l, i) => ReadIndex(l, i, s, out, rest, init);
    case Apply(f, a) => ReadApply(f, a, s, out, rest, init);
    case Apply0(f) => ReadApply0(f, s, out, rest, init);
    case Group(e) => ReadGroup(e, s, out, rest, init);
  }

  lemma ReadLeaf(id: nat, s: seq<Entry>, out: seq<Act>, rest: seq<Tok>, init: bool)
    requires Net(out) + 1 < CMSIZ
    ensures Parse(M(s, out, false), Print(Leaf(id), init) + rest, init) ==
      Parse(M(s + Pending(Leaf(id), init), out + Early(Leaf(id), init), true), rest, init)
  {
    hide Net;
    var toks := [Name(id)] + rest;
    assert toks[1..] == rest && s + [] == s;
  }

  // A part of a tree, in parentheses or bare.
  lemma {:induction false} ReadArg(t: Expr, bare: bool, s: seq<Entry>, out: seq<Act>, rest: seq<Tok>, init: bool)
    requires Proper(t) && Level(s) && Roomy(t, bare, s, out, init)
    requires if bare then FitsRight(t, Top(s), init) else Top(s) < 30
    ensures Parse(M(s, out, false), Paren(Print(t, init), bare) + rest, init) ==
      Parse(M(s + PendingArg(t, bare, init), out + EarlyArg(t, bare, init), true), rest, init)
    decreases t, 2
  {
    hide Opon, Net, Prio, Print, Pending, Early, Calls, FitsRight, Parse, Above, Read;
    if bare {
      ReadTree(t, s, out, rest, init);
    } else {
      var close := [Sym(RPARN)] + rest;
      assert Paren(Print(t, init), false) + rest == [Sym(LPARN)] + (Print(t, init) + close);
      var s1 := s + [Entry(LPARN, 4)];
      OpenParen(s, out, Print(t, init) + close, init);
      FitsBracket(t, init);
      ReadTree(t, s1, out, close, init);
      CloseBracket(t, LPARN, RPARN, s, out, rest, init);
      assert s + [] == s && out + Calls(t) + [] == out + Calls(t);
    }
  }

  lemma OpenParen(s: seq<Entry>, out: seq<Act>, rest: seq<Tok>, init: bool)
    requires s != [] && Top(s) < 30 && |s| < SSIZE
    ensures Parse(M(s, out, false), [Sym(LPARN)] + rest, init) ==
        Parse(M(s + [Entry(LPARN, 4)], out, false), rest, init)
  {
    hide Prio, Parse;
    BracketFacts(init);
    TakeSym(M(s, out, false), LPARN, rest, init);
  }

  // What is pending is built, and the bracket taken off.
  lemma CloseBracket(t: Expr, open: int, close: int, s: seq<Entry>, out: seq<Act>, rest: seq<Tok>, init: bool)
    requires Proper(t)
    requires if open == LBRACK then close == RBRACK else close == RPARN && (open == LPARN || open == CALL)
    ensures Parse(M(s + [Entry(open, 4)] + Pending(t, init), out + Early(t, init), true), [Sym(close)] + rest, init) ==
      Parse(M(s, out + Calls(t) + (if open == LPARN then [] else [Build(open)]), true), rest, init)
  {
    hide Parse, Pending, Early, Calls, Prio, Right;
    var s1 := s + [Entry(open, 4)];
    TakeSym(M(s1 + Pending(t, init), out + Early(t, init), true), close, rest, init);
    ClosedByBracket(t, close, init);
    Flush(t, s1, out, true, close, Prio(close, init), init);
    BracketFacts(init);
    assert s1[..|s1| - 1] == s;
    assert out + Calls(t) + [] == out + Calls(t);
  }

  // The operator behind a left part builds what is pending there and goes on the stack.
  lemma PutBehind(t: Expr, l: Expr, o: int, s: seq<Entry>, out: seq<Act>, flag: bool, init: bool)
    requires Proper(t) && Head2(t, l) && o == Head(t) && Level(s) && FitsRight(t, Top(s), init) && |s| < SSIZE
    ensures var bare := FitsLeft(l, o, init);
      Opon(M(s + PendingArg(l, bare, init), out + EarlyArg(l, bare, init), flag), o, Prio(o, init)) ==
        Go(M(s + [Entry(o, Stacked(o, Prio(o, init)))], out + Calls(l), flag))
  {
    hide Pending, Early, Calls, Prio, Right;
    var bare := FitsLeft(l, o, init);
    if bare {
      Flush(l, s, out, flag, o, Prio(o, init), init);
    } else {
      assert s + [] == s;
    }
  }

  lemma {:induction false} ReadUnary(o: int, e: Expr, s: seq<Entry>, out: seq<Act>, rest: seq<Tok>, init: bool)
    requires Proper(Unary(o, e)) && Level(s) && FitsRight(Unary(o, e), Top(s), init) &&
        Roomy(Unary(o, e), true, s, out, init)
    ensures var t := Unary(o, e);
      Parse(M(s, out, false), Print(t, init) + rest, init) ==
          Parse(M(s + Pending(t, init), out + Early(t, init), true), rest, init)
    decreases e, 3
  {
    hide Opon, Net, Prio, Right, Parse, Read, Opdope, Print, Pending, Early, Calls, OpDepth, CmDepth;
    var t := Unary(o, e);
    UnaryParts(o, e, init);
    var bare := FitsRight(e, Prio(o, init), init);
    var arg := Paren(Print(e, init), bare) + rest;
    UnaryFacts(o, init);
    WrittenUnary(o);
    assert Print(t, init) + rest == [Written(o)] + arg;
    TakeSym(M(s, out, false), Written(o).o, arg, init);
    PutPrefix(o, s, out, init);
    var s1 := s + [Entry(o, 28)];
    ReadArg(e, bare, s1, out, rest, init);
    assert s1 + PendingArg(e, bare, init) == s + Pending(t, init);
  }

  lemma PutPrefix(o: int, s: seq<Entry>, out: seq<Act>, init: bool)
    requires UnaryOp(o) && s != [] && Above(o, Prio(o, init), Top(s)) && |s| < SSIZE
    ensures Opon(M(s, out, false), o, Prio(o, init)) == Go(M(s + [Entry(o, 28)], out, false))
  {
    hide Opdope;
    UnaryFacts(o, init);
  }

  lemma WrittenUnary(o: int)
    requires UnaryOp(o)
    ensures Written(o).Sym? && forall b :: Read(Written(o).o, false, b) == Reading(o, false, 1)
  {
  }

  lemma {:induction false} ReadPost(o: int, e: Expr, s: seq<Entry>, out: seq<Act>, rest: seq<Tok>, init: bool)
    requires Proper(Post(o, e)) && Level(s) && FitsRight(Post(o, e), Top(s), init) &&
        Roomy(Post(o, e), true, s, out, init)
    ensures var t := Post(o, e);
      Parse(M(s, out, false), Print(t, init) + rest, init) ==
          Parse(M(s + Pending(t, init), out + Early(t, init), true), rest, init)
    decreases e, 3
  {
    hide Opon, Net, Prio, Right, Parse, Read, Opdope, Print, Pending, Early, Calls, OpDepth, CmDepth, Above;
    var t := Post(o, e);
    PostParts(o, e, init);
    var bare := FitsLeft(e, o, init);
    var tail := [Written(o)] + rest;
    assert Print(t, init) + rest == Paren(Print(e, init), bare) + tail;
    LeftPart(t, e, Top(s), init);
    ReadArg(e, bare, s, out, tail, init);
    WrittenPost(o);
    TakeSym(M(s + PendingArg(e, bare, init), out + EarlyArg(e, bare, init), true), Written(o).o, rest, init);
    PutBehind(t, e, o, s, out, true, init);
  }

  lemma WrittenPost(o: int)
    requires o == INCAFT || o == DECAFT
    ensures Written(o).Sym? && forall b :: Read(Written(o).o, true, b) == Reading(o, true, 1)
  {
  }

  lemma {:induction false} ReadInfix(o: int, l: Expr, r: Expr, s: seq<Entry>, out: seq<Act>, rest: seq<Tok>, init: bool)
    requires Proper(Infix(o, l, r)) && Level(s) && FitsRight(Infix(o, l, r), Top(s), init) &&
        Roomy(Infix(o, l, r), true, s, out, init)
    ensures var t := Infix(o, l, r);
      Parse(M(s, out, false), Print(t, init) + rest, init) ==
          Parse(M(s + Pending(t, init), out + Early(t, init), true), rest, init)
    decreases Infix(o, l, r), 0
  {
    hide Opon, Net, Prio, Right, Parse, Read, Opdope, Print, Pending, Early, Calls, OpDepth, CmDepth, Above, FitsLeft,
        EarlyArg, PendingArg, Paren;
    var t := Infix(o, l, r);
    InfixParts(o, l, r, init);
    var p := Prio(o, init);
    var bl, br := FitsLeft(l, o, init), FitsRight(r, p, init);
    var right := Paren(Print(r, init), br) + rest;
    var tail := [Sym(o)] + right;
    Assoc(Paren(Print(l, init), bl) + [Sym(o)], Paren(Print(r, init), br), rest);
    Assoc(Paren(Print(l, init), bl), [Sym(o)], right);
    LeftPart(t, l, Top(s), init);
    ReadArg(l, bl, s, out, tail, init);
    InfixFacts(o, init);
    WrittenInfix(o);
    TakeSym(M(s + PendingArg(l, bl, init), out + EarlyArg(l, bl, init), true), o, right, init);
    PutBehind(t, l, o, s, out, false, init);
    NetCalls(l, init);
    NetSum(out, Calls(l));
    var s1 := s + [Entry(o, p)];
    ReadArg(r, br, s1, out + Calls(l), rest, init);
    Assoc(s, [Entry(o, p)], PendingArg(r, br, init));
    Assoc(out, Calls(l), EarlyArg(r, br, init));
  }

  lemma WrittenInfix(o: int)
    requires InfixOp(o)
    ensures forall b :: Read(o, true, b) == Reading(o, false, 1)
  {
  }

  lemma BracketText<T>(a: seq<T>, b: T, c: seq<T>, d: T, rest: seq<T>)
    ensures a + [b] + c + [d] + rest == a + ([b] + (c + ([d] + rest)))
  {
  }

  lemma BracketCalls(s: seq<Entry>, out: seq<Act>, a: seq<Act>, b: seq<Act>, c: Act)
    ensures s + [] == s && out + a + b + [c] == out + (a + b + [c])
  {
  }

  lemma {:induction false} ReadIndex(l: Expr, i: Expr, s: seq<Entry>, out: seq<Act>, rest: seq<Tok>, init: bool)
    requires Proper(Index(l, i)) && Level(s) && FitsRight(Index(l, i), Top(s), init) &&
        Roomy(Index(l, i), true, s, out, init)
    ensures var t := Index(l, i);
      Parse(M(s, out, false), Print(t, init) + rest, init) ==
          Parse(M(s + Pending(t, init), out + Early(t, init), true), rest, init)
    decreases Index(l, i), 0
  {
    hide Opon, Net, Prio, Right, Parse, Opdope, Print, Pending, Early, Calls, OpDepth, CmDepth, Above, FitsLeft;
    var t := Index(l, i);
    BracketParts(l, i, false, init);
    var bare := FitsLeft(l, LBRACK, init);
    var close := [Sym(RBRACK)] + rest;
    var inner := Print(i, init) + close;
    BracketText(Paren(Print(l, init), bare), Sym(LBRACK), Print(i, init), Sym(RBRACK), rest);
    LeftPart(t, l, Top(s), init);
    ReadArg(l, bare, s, out, [Sym(LBRACK)] + inner, init);
    BracketFacts(init);
    TakeSym(M(s + PendingArg(l, bare, init), out + EarlyArg(l, bare, init), true), LBRACK, inner, init);
    PutBehind(t, l, LBRACK, s, out, false, init);
    NetCalls(l, init);
    NetSum(out, Calls(l));
    FitsBracket(i, init);
    ReadTree(i, s + [Entry(LBRACK, 4)], out + Calls(l), close, init);
    CloseBracket(i, LBRACK, RBRACK, s, out + Calls(l), rest, init);
    BracketCalls(s, out, Calls(l), Calls(i), Build(LBRACK));
  }

  // No expression starts with a closing parenthesis.
  lemma {:induction false} FirstSymbol(t: Expr, init: bool)
    requires Proper(t)
    ensures Print(t, init)[0] != Sym(RPARN)
  {
    hide Prio, FitsRight, FitsLeft;
    match t
    case Leaf(_) =>
    case Unary(o, _) => UnaryFacts(o, init);
    case Post(_, e) => FirstSymbol(e, init);
    case Infix(_, l, _) => FirstSymbol(l, init);
    case Index(l, _) => FirstSymbol(l, init);
    case Apply(f, _) => FirstSymbol(f, init);
    case Apply0(f) => FirstSymbol(f, init);
    case Group(_) =>
  }

  lemma {:induction false} ReadApply(f: Expr, a: Expr, s: seq<Entry>, out: seq<Act>, rest: seq<Tok>, init: bool)
    requires Proper(Apply(f, a)) && Level(s) && FitsRight(Apply(f, a), Top(s), init) &&
        Roomy(Apply(f, a), true, s, out, init)
    ensures var t := Apply(f, a);
      Parse(M(s, out, false), Print(t, init) + rest, init) ==
          Parse(M(s + Pending(t, init), out + Early(t, init), true), rest, init)
    decreases Apply(f, a), 0
  {
    hide Opon, Net, Prio, Right, Parse, Opdope, Print, Pending, Early, Calls, OpDepth, CmDepth, Above, FitsLeft;
    var t := Apply(f, a);
    BracketParts(f, a, true, init);
    var bare := FitsLeft(f, CALL, init);
    var close := [Sym(RPARN)] + rest;
    var inner := Print(a, init) + close;
    BracketText(Paren(Print(f, init), bare), Sym(LPARN), Print(a, init), Sym(RPARN), rest);
    LeftPart(t, f, Top(s), init);
    ReadArg(f, bare, s, out, [Sym(LPARN)] + inner, init);
    BracketFacts(init);
    FirstSymbol(a, init);
    assert inner[0] == Print(a, init)[0];
    TakeSym(M(s + PendingArg(f, bare, init), out + EarlyArg(f, bare, init), true), LPARN, inner, init);
    PutBehind(t, f, CALL, s, out, false, init);
    NetCalls(f, init);
    NetSum(out, Calls(f));
    FitsBracket(a, init);
    ReadTree(a, s + [Entry(CALL, 4)], out + Calls(f), close, init);
    CloseBracket(a, CALL, RPARN, s, out + Calls(f), rest, init);
    BracketCalls(s, out, Calls(f), Calls(a), Build(CALL));
  }

  lemma {:induction false} ReadApply0(f: Expr, s: seq<Entry>, out: seq<Act>, rest: seq<Tok>, init: bool)
    requires Proper(Apply0(f)) && Level(s) && FitsRight(Apply0(f), Top(s), init) && Roomy(Apply0(f), true, s, out, init)
    ensures var t := Apply0(f);
      Parse(M(s, out, false), Print(t, init) + rest, init) ==
          Parse(M(s + Pending(t, init), out + Early(t, init), true), rest, init)
    decreases f, 3
  {
    hide Opon, Net, Prio, Right, Parse, Opdope, Print, Pending, Early, Calls, OpDepth, CmDepth, Above, FitsLeft;
    var t := Apply0(f);
    Apply0Parts(f, init);
    var bare := FitsLeft(f, MCALL, init);
    var tail := [Sym(LPARN), Sym(RPARN)] + rest;
    assert Print(t, init) + rest == Paren(Print(f, init), bare) + tail;
    LeftPart(t, f, Top(s), init);
    ReadArg(f, bare, s, out, tail, init);
    BracketFacts(init);
    TakeCall(M(s + PendingArg(f, bare, init), out + EarlyArg(f, bare, init), true), rest, init);
    PutBehind(t, f, MCALL, s, out, true, init);
  }

  lemma {:induction false} ReadGroup(e: Expr, s: seq<Entry>, out: seq<Act>, rest: seq<Tok>, init: bool)
    requires Proper(Group(e)) && Level(s) && FitsRight(Group(e), Top(s), init) && Roomy(Group(e), true, s, out, init)
    ensures var t := Group(e);
      Parse(M(s, out, false), Print(t, init) + rest, init) ==
          Parse(M(s + Pending(t, init), out + Early(t, init), true), rest, init)
    decreases e, 3
  {
    hide Opon, Net, Prio, Right, Parse, Opdope, Print, Calls, OpDepth, CmDepth, Early;
    BracketFacts(init);
    GroupParts(e, init);
    ReadArg(e, false, s, out, rest, init);
  }

  lemma GroupParts(e: Expr, init: bool)
    ensures var t := Group(e);
      && Print(t, init) == Paren(Print(e, init), false) && Pending(t, init) == [] && Early(t, init) == Calls(e)
      && OpDepth(t, init) == 1 + OpDepth(e, init) && CmDepth(t) == CmDepth(e)
  {
    hide Prio, Right, FitsRight, FitsLeft, Above, Opdope, Popped;
  }

  lemma TakeCall(m: M, rest: seq<Tok>, init: bool)
    requires m.flag
    ensures var toks := [Sym(LPARN), Sym(RPARN)] + rest;
      Parse(m, toks, init) == Cont(Opon(m, MCALL, Prio(MCALL, init)), toks, rest, init)
  {
    hide Opon, Net, Prio;
    var toks := [Sym(LPARN), Sym(RPARN)] + rest;
    assert toks[2..] == rest;
  }

  // ---- whole expressions

  // A symbol that no expression goes on with, and that is weaker than the bottom of the stack.
  predicate Stopper(o: int, init: bool) {
    o != INCBEF && o != DECBEF && o != MINUS && o != AND && o != TIMES && o != LPARN && o != COMPL && o != EXCLA &&
        o != SIZEOF && o >= 0 && !Above(o, Prio(o, init), 6)
  }

  // One that nothing pending is weaker than, whatever the expression.
  predicate Ends(o: int, init: bool) {
    Stopper(o, init) && Prio(o, init) <= 5 && !(Prio(o, init) == 5 && Right(o))
  }

  lemma EndsAll(t: Expr, o: int, init: bool)
    requires Proper(t) && Ends(o, init)
    ensures FitsLeft(t, o, init)
  {
    hide Prio, Right, Pending;
    forall i | 0 <= i < |Pending(t, init)| ensures !Above(o, Prio(o, init), Pending(t, init)[i].p) {
      PendingFacts(t, init, i);
    }
  }

  // tree() makes exactly the calls of the tree that was printed, then flushes, and leaves the
  // symbol behind it; for every tree within the limits of the two stacks.
  lemma RoundTrip(t: Expr, end: int, rest: seq<Tok>, init: bool)
    requires Proper(t) && Stopper(end, init) && (FitsRight(t, 6, init) ==> FitsLeft(t, end, init))
    requires var bare := FitsRight(t, 6, init); Around(OpDepth(t, init), bare) < SSIZE && CmDepth(t) < CMSIZ
    ensures Parse(Bottom(), Paren(Print(t, init), FitsRight(t, 6, init)) + [Sym(end)] + rest, init) ==
        (Done(Calls(t) + [Build(0)], end), [Sym(end)] + rest)
  {
    hide Opon, Prio, Right, Parse, Opdope, Pending, Early, Calls, Print, FitsLeft, Above, OpDepth, CmDepth, PendingArg,
      EarlyArg, Paren;
    var bare := FitsRight(t, 6, init);
    var s := [Entry(SEOF, 6)];
    var tail := [Sym(end)] + rest;
    var toks := Paren(Print(t, init), bare);
    assert toks + [Sym(end)] + rest == toks + tail;
    ReadArg(t, bare, s, [], tail, init);
    var m := M(s + PendingArg(t, bare, init), [] + EarlyArg(t, bare, init), true);
    TakeSym(m, end, rest, init);
    EndReads(end, init);
    Finish(t, bare, end, init);
    assert FinishesWith(t, bare, end, init, Read(end, true, rest != [] && rest[0] == Sym(RPARN)).flag);
    assert [] + Calls(t) == Calls(t);
  }

  lemma EndReads(o: int, init: bool)
    requires Stopper(o, init)
    ensures forall b :: Read(o, true, b).o == o && Read(o, true, b).n == 1
  {
    hide Prio;
  }

  predicate FinishesWith(t: Expr, bare: bool, o: int, init: bool, flag: bool) {
    Opon(M([Entry(SEOF, 6)] + PendingArg(t, bare, init), [] + EarlyArg(t, bare, init), flag), o, Prio(o, init))
      == Stop(Done([] + Calls(t) + [Build(0)], o))
  }

  lemma Finish(t: Expr, bare: bool, o: int, init: bool)
    requires Proper(t) && Stopper(o, init) && (bare ==> FitsLeft(t, o, init))
    ensures forall flag :: FinishesWith(t, bare, o, init, flag)
  {
    hide Prio, Right, Opdope, Pending, Early, Calls;
    var s := [Entry(SEOF, 6)];
    forall flag ensures FinishesWith(t, bare, o, init, flag) {
      if bare {
        Flush(t, s, [], flag, o, Prio(o, init), init);
      }
      assert s + [] == s;
    }
  }
}
