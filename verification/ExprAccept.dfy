// What tree() of v6/c/c00.c accepts: the texts of expression trees, and with them exactly the
// calls of the tree, as long as a name follows each . and ->.
module ExprAccept {
  import opened Helpers
  import opened ExprParser
  import opened ExprTrees
  import opened ExprRoundTrip

  // ---- what the parser holds while it reads

  // An operator that waits for its right operand, with what stands before it.
  datatype Frame =
    | Prefix(o: int)
    | Behind(o: int, l: Expr)
    | Open
    | Sub(l: Expr)
    | Args(f: Expr)

  function EntryOf(f: Frame, init: bool): Entry {
    match f
    case Prefix(o) => Entry(o, 28)
    case Behind(o, _) => Entry(o, Prio(o, init))
    case Open => Entry(LPARN, 4)
    case Sub(_) => Entry(LBRACK, 4)
    case Args(_) => Entry(CALL, 4)
  }

  // The operator with which the frame went on the stack.
  function OpOf(f: Frame): int {
    match f
    case Prefix(o) => o
    case Behind(o, _) => o
    case Open => LPARN
    case Sub(_) => LBRACK
    case Args(_) => CALL
  }

  function LeftOf(f: Frame): Option<Expr> {
    match f
    case Prefix(_) => None
    case Behind(_, l) => Some(l)
    case Open => None
    case Sub(l) => Some(l)
    case Args(g) => Some(g)
  }

  predicate Bracket(f: Frame) { f.Open? || f.Sub? || f.Args? }

  function FrameText(f: Frame, init: bool): seq<Tok> {
    match f
    case Prefix(o) => [Written(o)]
    case Behind(o, l) => Print(l, init) + [Sym(o)]
    case Open => [Sym(LPARN)]
    case Sub(l) => Print(l, init) + [Sym(LBRACK)]
    case Args(g) => Print(g, init) + [Sym(LPARN)]
  }

  function FrameCalls(f: Frame): seq<Act> {
    match LeftOf(f)
    case None => []
    case Some(l) => Calls(l)
  }

  function Entries(fs: seq<Frame>, init: bool): seq<Entry> {
    if fs == [] then [Entry(SEOF, 6)] else Entries(fs[..|fs| - 1], init) + [EntryOf(fs[|fs| - 1], init)]
  }

  function Made(fs: seq<Frame>): seq<Act> {
    if fs == [] then [] else Made(fs[..|fs| - 1]) + FrameCalls(fs[|fs| - 1])
  }

  function TextOf(fs: seq<Frame>, init: bool): seq<Tok> {
    if fs == [] then [] else TextOf(fs[..|fs| - 1], init) + FrameText(fs[|fs| - 1], init)
  }

  // Operands that wait.
  function Waiting(fs: seq<Frame>): nat {
    if fs == [] then 0 else Waiting(fs[..|fs| - 1]) + if LeftOf(fs[|fs| - 1]).Some? then 1 else 0
  }

  function TopP(fs: seq<Frame>, init: bool): nat {
    if fs == [] then 6 else EntryOf(fs[|fs| - 1], init).p
  }

  predicate Selecting(fs: seq<Frame>) {
    fs != [] && fs[|fs| - 1].Behind? && (fs[|fs| - 1].o == DOT || fs[|fs| - 1].o == ARROW)
  }

  // t within the limits, with the frames below it.
  predicate Within(fs: seq<Frame>, t: Expr, init: bool) {
    |fs| + OpDepth(t, init) < SSIZE && Waiting(fs) + CmDepth(t) < CMSIZ
  }

  // f may stand on top of fs.
  predicate FrameOk(fs: seq<Frame>, f: Frame, init: bool) {
    && |fs| + 1 < SSIZE
    && Above(OpOf(f), Prio(OpOf(f), init), TopP(fs, init))
    && (f.Prefix? ==> UnaryOp(f.o))
    && (f.Behind? ==> InfixOp(f.o))
    && match LeftOf(f)
      case None => true
      case Some(l) => Proper(l) && FitsLeft(l, OpOf(f), init) && Within(fs, l, init)
  }

  predicate FramesOk(fs: seq<Frame>, init: bool) {
    fs == [] || (FramesOk(fs[..|fs| - 1], init) && FrameOk(fs[..|fs| - 1], fs[|fs| - 1], init))
  }

  // t may be the operand that the top frame waits for.
  predicate OperandOk(fs: seq<Frame>, t: Expr, init: bool): (ok: bool)
    ensures ok ==> Proper(t)
  {
    && Proper(t) && FitsRight(t, TopP(fs, init), init) && Within(fs, t, init)
    && (Selecting(fs) ==> t.Leaf?)
  }

  // The operand of the top frame, if it has been read; late: its last operator, a postfix ++
  // or -- or an empty call, is still on the stack.
  datatype State = State(fs: seq<Frame>, cur: Option<Expr>, late: bool)

  predicate Primary(t: Expr) { !t.Unary? && !t.Infix? }

  ghost predicate Ok(s: State, init: bool) {
    && FramesOk(s.fs, init)
    && match s.cur
      case None => !s.late
      case Some(t) => Primary(t) && OperandOk(s.fs, t, init) && (s.late ==> t.Post? || t.Apply0?)
  }

  function LateOps(s: State, init: bool): seq<Entry> {
    if s.late && s.cur.Some? then Pending(s.cur.value, init) else []
  }

  function CurCalls(s: State): seq<Act> {
    match s.cur
    case None => []
    case Some(t) =>
      if s.late && t.Post? then Calls(t.e) else if s.late && t.Apply0? then Calls(t.f) else Calls(t)
  }

  function Machine(s: State, init: bool): M {
    M(Entries(s.fs, init) + LateOps(s, init), Made(s.fs) + CurCalls(s), s.cur.Some?)
  }

  function TextRead(s: State, init: bool): seq<Tok> {
    TextOf(s.fs, init) + if s.cur.Some? then Print(s.cur.value, init) else []
  }

  // ---- putting frames on and taking them off

  lemma OneMore(fs: seq<Frame>, f: Frame, init: bool)
    ensures var gs := fs + [f];
      && Entries(gs, init) == Entries(fs, init) + [EntryOf(f, init)] && Made(gs) == Made(fs) + FrameCalls(f)
      && TextOf(gs, init) == TextOf(fs, init) + FrameText(f, init)
      && Waiting(gs) == Waiting(fs) + (if LeftOf(f).Some? then 1 else 0)
      && TopP(gs, init) == EntryOf(f, init).p
      && (FramesOk(gs, init) <==> FramesOk(fs, init) && FrameOk(fs, f, init))
      && (Selecting(gs) <==> f.Behind? && (f.o == DOT || f.o == ARROW))
  {
    hide EntryOf, FrameText, FrameCalls, FrameOk;
    assert (fs + [f])[..|fs|] == fs;
  }

  lemma {:induction false} EntriesEnd(fs: seq<Frame>, init: bool)
    ensures |Entries(fs, init)| == |fs| + 1
    ensures Entries(fs, init)[|fs|].p == TopP(fs, init)
    ensures Entries(fs, init)[|fs|].o == if fs == [] then SEOF else EntryOf(fs[|fs| - 1], init).o
    ensures fs != [] ==> Entries(fs, init)[..|fs|] == Entries(fs[..|fs| - 1], init)
  {
    hide EntryOf;
    if fs != [] { EntriesEnd(fs[..|fs| - 1], init); }
  }

  // Nothing goes on top of . or -> or of a call.
  lemma AboveAll(o: int, init: bool)
    requires InfixOp(o) || UnaryOp(o) || o == LPARN || o == LBRACK || o == CALL || o == MCALL || o == INCAFT
        || o == DECAFT
    ensures !Above(o, Prio(o, init), 30) && !Above(o, Prio(o, init), 37) && Above(o, Prio(o, init), 4)
  {
    hide Prio, Right;
    BracketFacts(init);
    if InfixOp(o) { InfixFacts(o, init); }
    if UnaryOp(o) { UnaryFacts(o, init); }
  }

  // ---- the top operator and its operand become one

  function Combined(f: Frame, t: Expr): Expr {
    match f
    case Prefix(o) => Unary(o, t)
    case Behind(o, l) => Infix(o, l, t)
    case Open => Group(t)
    case Sub(l) => Index(l, t)
    case Args(g) => Apply(g, t)
  }

  lemma CombinedText(fs: seq<Frame>, f: Frame, t: Expr, init: bool)
    requires !Bracket(f) && FrameOk(fs, f, init) && FitsRight(t, EntryOf(f, init).p, init)
    ensures Print(Combined(f, t), init) == FrameText(f, init) + Print(t, init)
    ensures Pending(Combined(f, t), init) == [EntryOf(f, init)] + Pending(t, init)
    ensures Calls(Combined(f, t)) == FrameCalls(f) + Calls(t) + Popped(OpOf(f))
  {
    hide Prio, Right, FitsRight, FitsLeft, Above;
    match f
    case Prefix(o) =>
      UnaryFacts(o, init);
      UnaryParts(o, t, init);
    case Behind(o, l) =>
      InfixParts(o, l, t, init);
      PoppedPlain(o, init);
  }

  lemma CombinedOk(fs: seq<Frame>, f: Frame, t: Expr, init: bool)
    requires FramesOk(fs, init) && FrameOk(fs, f, init) && OperandOk(fs + [f], t, init)
    ensures OperandOk(fs, Combined(f, t), init)
  {
    hide Prio, Right, FitsLeft;
    OneMore(fs, f, init);
    var u := Combined(f, t);
    assert Proper(u);
    assert Head(u) == OpOf(f);
    if Selecting(fs) {
      if f.Behind? { InfixFacts(f.o, init); }
      if f.Prefix? { UnaryFacts(f.o, init); }
      BracketFacts(init);
      InfixFacts(fs[|fs| - 1].o, init);
      AboveAll(OpOf(f), init);
      assert false;
    }
    CombinedDepth(fs, f, t, init);
  }

  lemma CombinedDepth(fs: seq<Frame>, f: Frame, t: Expr, init: bool)
    requires FrameOk(fs, f, init) && Within(fs + [f], t, init)
    requires !Bracket(f) ==> FitsRight(t, EntryOf(f, init).p, init)
    ensures Within(fs, Combined(f, t), init)
  {
    hide Prio, Right, FitsLeft, FitsRight, Above, OpDepth, CmDepth, Combined, EntryOf, Entries, Made, TextOf, FramesOk,
      FrameText;
    OneMore(fs, f, init);
    DepthIs(f, t, init);
  }

  function LeftDepth(f: Frame, init: bool): nat {
    match LeftOf(f)
    case None => 0
    case Some(l) => OpDepth(l, init)
  }

  function LeftCm(f: Frame): nat {
    match LeftOf(f)
    case None => 0
    case Some(l) => CmDepth(l)
  }

  lemma DepthIs(f: Frame, t: Expr, init: bool)
    requires f.Prefix? ==> UnaryOp(f.o)
    requires LeftOf(f).Some? ==> FitsLeft(LeftOf(f).value, OpOf(f), init)
    requires !Bracket(f) ==> FitsRight(t, EntryOf(f, init).p, init)
    ensures OpDepth(Combined(f, t), init) == Max(LeftDepth(f, init), 1 + OpDepth(t, init))
    ensures CmDepth(Combined(f, t)) == Max(LeftCm(f), (if LeftOf(f).Some? then 1 else 0) + CmDepth(t))
  {
    hide Prio, Right, FitsLeft, FitsRight, Above, OpDepth, CmDepth, Print, Pending, Early, EarlyArg, PendingArg, Calls,
      Opdope;
    match f
    case Prefix(o) =>
      PrefixPrio(o, init);
      UnaryParts(o, t, init);
    case Behind(o, l) => InfixParts(o, l, t, init);
    case Open => GroupParts(t, init);
    case Sub(l) => BracketParts(l, t, false, init);
    case Args(g) => BracketParts(g, t, true, init);
  }

  lemma PrefixPrio(o: int, init: bool)
    requires UnaryOp(o)
    ensures Prio(o, init) == 28
  {
    UnaryFacts(o, init);
  }

  lemma EntryFacts(fs: seq<Frame>, f: Frame, init: bool)
    requires !Bracket(f) && FrameOk(fs, f, init)
    ensures var o := EntryOf(f, init).o;
      o == OpOf(f) && o != SEOF && o != CALL && o != LPARN && o != LBRACK
  {
    hide Prio, Right, Above, FitsLeft, Within, Proper;
    if f.Behind? { InfixFacts(f.o, init); }
  }

  // The machine builds it.
  lemma Builds(fs: seq<Frame>, f: Frame, t: Expr, flag: bool, o: int, p: nat, init: bool)
    requires !Bracket(f) && FrameOk(fs, f, init) && OperandOk(fs + [f], t, init) && !Above(o, p, EntryOf(f, init).p)
    ensures Opon(M(Entries(fs + [f], init), Made(fs + [f]) + Calls(t), flag), o, p)
         == Opon(M(Entries(fs, init), Made(fs) + Calls(Combined(f, t)), flag), o, p)
  {
    hide Prio, Right, Above, FrameCalls, Popped, OperandOk, FrameOk, Opon, Entries, Made, Calls, EntryOf, OpOf, Bracket,
      Combined, TextOf, FrameText, Print, Pending, FramesOk, Waiting, TopP;
    OneMore(fs, f, init);
    FitsTop(fs + [f], t, init);
    CombinedText(fs, f, t, init);
    EntryFacts(fs, f, init);
    Pop(Entries(fs, init), EntryOf(f, init), Made(fs + [f]) + Calls(t), flag, o, p);
    Assoc(Made(fs), FrameCalls(f), Calls(t));
    Assoc(Made(fs), FrameCalls(f) + Calls(t), Popped(OpOf(f)));
  }

  lemma Pop(es: seq<Entry>, top: Entry, out: seq<Act>, flag: bool, o: int, p: nat)
    requires !Above(o, p, top.p) && top.o != SEOF && top.o != CALL && top.o != LPARN && top.o != LBRACK
    ensures Opon(M(es + [top], out, flag), o, p) == Opon(M(es, out + Popped(top.o), flag), o, p)
  {
    hide Above, Popped;
    assert (es + [top])[..|es|] == es;
  }

  // ---- an operator builds what it does not go above

  // Where o stops: at a bracket, at the bottom, or on top of a weaker operator.
  predicate Stops(fs: seq<Frame>, o: int, init: bool) {
    fs == [] || Bracket(fs[|fs| - 1]) || Above(o, Prio(o, init), TopP(fs, init))
  }

  lemma {:induction false} Reduces(fs: seq<Frame>, t: Expr, flag: bool, o: int, init: bool)
      returns (gs: seq<Frame>, u: Expr)
    requires FramesOk(fs, init) && OperandOk(fs, t, init) && FitsLeft(t, o, init)
    ensures FramesOk(gs, init) && OperandOk(gs, u, init) && FitsLeft(u, o, init) && Stops(gs, o, init)
    ensures TextOf(gs, init) + Print(u, init) == TextOf(fs, init) + Print(t, init)
    ensures Opon(M(Entries(fs, init), Made(fs) + Calls(t), flag), o, Prio(o, init))
         == Opon(M(Entries(gs, init), Made(gs) + Calls(u), flag), o, Prio(o, init))
    decreases |fs|
  {
    hide Prio, Above, Entries, Made, TextOf, Print, Calls, Proper, OperandOk, Opon, EntryOf, FrameOk, FrameText,
      FrameCalls, Combined, Pending, Waiting, OpOf;
    if Stops(fs, o, init) {
      gs, u := fs, t;
    } else {
      var n := |fs| - 1;
      var front, f := fs[..n], fs[n];
      assert fs == front + [f];
      OneMore(front, f, init);
      FitsTop(fs, t, init);
      CombinedText(front, f, t, init);
      CombinedOk(front, f, t, init);
      Builds(front, f, t, flag, o, Prio(o, init), init);
      Assoc(TextOf(front, init), FrameText(f, init), Print(t, init));
      ClearsMore(f, t, o, init);
      gs, u := Reduces(front, Combined(f, t), flag, o, init);
    }
  }

  lemma ClearsMore(f: Frame, t: Expr, o: int, init: bool)
    requires Pending(Combined(f, t), init) == [EntryOf(f, init)] + Pending(t, init)
    requires FitsLeft(t, o, init) && !Above(o, Prio(o, init), EntryOf(f, init).p)
    ensures FitsLeft(Combined(f, t), o, init)
  {
    hide Pending, Above, Prio, EntryOf, Combined;
  }

  lemma FitsTop(fs: seq<Frame>, t: Expr, init: bool)
    requires OperandOk(fs, t, init)
    ensures FitsRight(t, TopP(fs, init), init)
  {
  }

  // ---- one symbol

  // An operator as symbol() returns it, before its place has been looked at.
  predicate Lexed(t: Tok) {
    t.Name? || (t.o >= 0 && t.o != INCAFT && t.o != DECAFT && !(AMPER <= t.o <= NEG) && t.o != CALL && t.o != MCALL)
  }

  // What tree() has read is t, and o ends it.
  predicate Ended(t: Expr, text: seq<Tok>, out: seq<Act>, o: int, init: bool) {
    && Proper(t) && Print(t, init) == text && out == Calls(t) + [Build(0)]
    && FitsRight(t, 6, init) && FitsLeft(t, o, init) && Stopper(o, init)
    && OpDepth(t, init) < SSIZE && CmDepth(t) < CMSIZ
  }

  // s' and t are what v makes of s: more has been read, or the expression t ends.
  ghost predicate Follows(s: State, v: Move, read: seq<Tok>, s': State, t: Expr, init: bool) {
    match v
    case Go(m) => Ok(s', init) && Machine(s', init) == m && TextRead(s', init) == TextRead(s, init) + read
    case Stop(r) => r.Done? ==> Ended(t, TextRead(s, init), r.out, r.last, init) && read == [Sym(r.last)]
  }

  lemma PrimaryFits(t: Expr, o: int, init: bool)
    requires Primary(t)
    ensures FitsLeft(t, o, init)
  {
    hide Prio, Right;
    BracketFacts(init);
    TableTop(o, init);
  }

  // No operator goes above a call or a postfix operator.
  lemma TableTop(o: int, init: bool)
    ensures Prio(o, init) <= 30 && (Prio(o, init) == 30 ==> !Right(o))
  {
  }

  lemma AtOperator(s: State, o: int, flag: bool, init: bool) returns (gs: seq<Frame>, u: Expr)
    requires Ok(s, init) && s.cur.Some?
    ensures FramesOk(gs, init) && OperandOk(gs, u, init) && FitsLeft(u, o, init) && Stops(gs, o, init)
    ensures TextOf(gs, init) + Print(u, init) == TextRead(s, init)
    ensures Opon(Machine(s, init).(flag := flag), o, Prio(o, init))
         == Opon(M(Entries(gs, init), Made(gs) + Calls(u), flag), o, Prio(o, init))
  {
    hide Prio, Above, Entries, Made, TextOf, Print, Proper, OperandOk, Opon, FramesOk, Calls, Stops, FitsLeft, Pending;
    var t := s.cur.value;
    PrimaryFits(t, o, init);
    Built(s, o, flag, init);
    gs, u := Reduces(s.fs, t, flag, o, init);
  }

  // What is late is built first.
  lemma Built(s: State, o: int, flag: bool, init: bool)
    requires Ok(s, init) && s.cur.Some?
    ensures Opon(Machine(s, init).(flag := flag), o, Prio(o, init))
         == Opon(M(Entries(s.fs, init), Made(s.fs) + Calls(s.cur.value), flag), o, Prio(o, init))
  {
    hide Prio, Right, Entries, Made, FramesOk, OperandOk, Opon;
    var t := s.cur.value;
    TableTop(o, init);
    BracketFacts(init);
    if s.late {
      var e := Pending(t, init)[0];
      assert Pending(t, init) == [e];
      assert CurCalls(s) + Popped(e.o) == Calls(t);
      Assoc(Made(s.fs), CurCalls(s), Popped(e.o));
      Pop(Entries(s.fs, init), e, Made(s.fs) + CurCalls(s), flag, o, Prio(o, init));
    } else {
      assert Entries(s.fs, init) + [] == Entries(s.fs, init);
    }
  }

  // Opon where it goes on the stack.
  lemma Pushes(fs: seq<Frame>, out: seq<Act>, flag: bool, o: int, init: bool)
    requires Above(o, Prio(o, init), TopP(fs, init))
    ensures Opon(M(Entries(fs, init), out, flag), o, Prio(o, init))
         == if |fs| + 1 >= SSIZE then Stop(Overflow)
            else Go(M(Entries(fs, init) + [Entry(o, Stacked(o, Prio(o, init)))], out, flag))
  {
    hide Prio, Right, EntryOf, Above;
    EntriesEnd(fs, init);
  }

  // An infix operator, an open bracket or an open argument list behind an operand.
  lemma StepBehind(s: State, o: int, f0: Frame, read: seq<Tok>, init: bool) returns (s': State, t: Expr)
    requires Ok(s, init) && s.cur.Some?
    requires (InfixOp(o) && f0.Behind? && f0.o == o && read == [Sym(o)])
             || (o == LBRACK && f0.Sub? && read == [Sym(LBRACK)]) || (o == CALL && f0.Args? && read == [Sym(LPARN)])
    ensures Follows(s, Opon(Machine(s, init).(flag := false), o, Prio(o, init)), read, s', t, init)
  {
    hide Prio, Right, Above, Entries, Made, Opon, OperandOk, FitsLeft, Print, Calls, TextOf, Proper, FramesOk, Machine,
      TextRead, EntryOf, FrameCalls, FrameText, Ended, Ok, FrameOk;
    var gs, u := AtOperator(s, o, false, init);
    t := u;
    var f := match f0 case Behind(_, _) => Behind(o, u) case Sub(_) => Sub(u) case _ => Args(u);
    s' := State(gs + [f], None, false);
    if Above(o, Prio(o, init), TopP(gs, init)) {
      Pushes(gs, Made(gs) + Calls(u), false, o, init);
      FrameIs(gs, f, u, o, init);
      Assoc(TextOf(gs, init), Print(u, init), read);
      if |gs| + 1 < SSIZE { NewFrame(s, gs, f, read, init); }
    } else {
      NotBehind(gs, f0, o, init);
      EndsHere(s, u, o, false, init);
    }
  }

  lemma NotBehind(gs: seq<Frame>, f0: Frame, o: int, init: bool)
    requires Stops(gs, o, init) && !Above(o, Prio(o, init), TopP(gs, init))
    requires (InfixOp(o) && f0.Behind?) || o == LBRACK || o == CALL
    ensures gs == [] && !Above(o, Prio(o, init), 6) && (o == COMMA || o == COLON)
  {
    AboveAll(o, init);
    BracketFacts(init);
    if InfixOp(o) { Weakest(o, init); }
  }

  lemma Weakest(o: int, init: bool)
    requires InfixOp(o) && !Above(o, Prio(o, init), 6)
    ensures o == COMMA || o == COLON
  {
  }

  lemma NewFrame(s: State, gs: seq<Frame>, f: Frame, read: seq<Tok>, init: bool)
    requires FramesOk(gs, init) && FrameOk(gs, f, init)
    requires TextOf(gs, init) + FrameText(f, init) == TextRead(s, init) + read
    ensures var s' := State(gs + [f], None, false);
      && Ok(s', init) && TextRead(s', init) == TextRead(s, init) + read
      && Machine(s', init) == M(Entries(gs, init) + [EntryOf(f, init)], Made(gs) + FrameCalls(f), false)
  {
    hide Entries, Made, TextOf, FramesOk, EntryOf, FrameCalls, FrameText, FrameOk;
    OneMore(gs, f, init);
  }

  lemma FrameIs(gs: seq<Frame>, f: Frame, u: Expr, o: int, init: bool)
    requires OperandOk(gs, u, init) && FitsLeft(u, o, init) && Above(o, Prio(o, init), TopP(gs, init))
    requires (InfixOp(o) && f == Behind(o, u)) || (o == LBRACK && f == Sub(u)) || (o == CALL && f == Args(u))
    ensures |gs| + 1 < SSIZE ==> FrameOk(gs, f, init)
    ensures EntryOf(f, init) == Entry(o, Stacked(o, Prio(o, init)))
    ensures FrameCalls(f) == Calls(u)
    ensures FrameText(f, init) == Print(u, init) + [Sym(if o == CALL then LPARN else o)]
  {
    hide Prio, Right, Above, FitsLeft, Proper, Within, Calls, Print;
    if InfixOp(o) { InfixFacts(o, init); }
  }

  // The bottom is reached.
  lemma EndsHere(s: State, u: Expr, o: int, flag: bool, init: bool)
    requires Ok(s, init) && OperandOk([], u, init) && FitsLeft(u, o, init)
    requires TextOf([], init) + Print(u, init) == TextRead(s, init)
    requires !Above(o, Prio(o, init), 6) && o >= 0 && o != INCBEF && o != DECBEF
    requires o != MINUS && o != AND && o != TIMES && o != LPARN && o != COMPL && o != EXCLA && o != SIZEOF
    ensures Opon(M(Entries([], init), Made([]) + Calls(u), flag), o, Prio(o, init))
         == Stop(Done(Calls(u) + [Build(0)], o))
    ensures Ended(u, TextRead(s, init), Calls(u) + [Build(0)], o, init)
  {
    hide Prio, Right, Above, FitsLeft, Proper, Print, Calls;
    assert [] + Print(u, init) == Print(u, init);
    assert [] + Calls(u) == Calls(u);
  }

  // ---- a postfix ++ or --, or an empty call

  function Posted(o: int, u: Expr): Expr {
    if o == MCALL then Apply0(u) else Post(o, u)
  }

  predicate PostOp(o: int) { o == INCAFT || o == DECAFT || o == MCALL }

  function PostText(o: int): seq<Tok> {
    if o == MCALL then [Sym(LPARN), Sym(RPARN)] else [Written(o)]
  }

  lemma StepPost(s: State, o: int, init: bool) returns (s': State)
    requires Ok(s, init) && s.cur.Some? && PostOp(o)
    ensures Follows(s, Opon(Machine(s, init), o, Prio(o, init)), PostText(o), s', Leaf(0), init)
  {
    hide Prio, Right, Above, Entries, Made, Opon, OperandOk, FitsLeft, Print, Calls, TextOf, Proper, FramesOk,
      TextRead, Ok, LateOps, CurCalls, Stops, Posted, PostText;
    var gs, u := AtOperator(s, o, true, init);
    s' := State(gs, Some(Posted(o, u)), true);
    assert Machine(s, init).(flag := true) == Machine(s, init);
    GoesBehind(gs, o, init);
    Pushes(gs, Made(gs) + Calls(u), true, o, init);
    if |gs| + 1 < SSIZE {
      PostedOk(s, gs, u, o, init);
    }
  }

  lemma GoesBehind(gs: seq<Frame>, o: int, init: bool)
    requires Stops(gs, o, init) && PostOp(o)
    ensures Above(o, Prio(o, init), TopP(gs, init))
  {
    AboveAll(o, init);
    BracketFacts(init);
  }

  lemma PostedOk(s: State, gs: seq<Frame>, u: Expr, o: int, init: bool)
    requires FramesOk(gs, init) && OperandOk(gs, u, init) && FitsLeft(u, o, init) && PostOp(o) && |gs| + 1 < SSIZE
    requires Above(o, Prio(o, init), TopP(gs, init)) && TextOf(gs, init) + Print(u, init) == TextRead(s, init)
    ensures var s' := State(gs, Some(Posted(o, u)), true);
      && Ok(s', init) && TextRead(s', init) == TextRead(s, init) + PostText(o)
      && Machine(s', init) == M(Entries(gs, init) + [Entry(o, Stacked(o, Prio(o, init)))], Made(gs) + Calls(u), true)
  {
    hide Prio, Right, Above, Entries, Made, FitsLeft, Print, Calls, TextOf, Proper, FramesOk, TextRead, OpDepth,
      CmDepth, Pending, OperandOk;
    PostedParts(u, o, init);
    Assoc(TextOf(gs, init), Print(u, init), PostText(o));
    PostedOperand(gs, u, o, init);
    TextIs(State(gs, Some(Posted(o, u)), true), init);
  }

  lemma TextIs(s: State, init: bool)
    ensures s.cur.Some? ==> TextRead(s, init) == TextOf(s.fs, init) + Print(s.cur.value, init)
    ensures s.cur.None? ==> TextRead(s, init) == TextOf(s.fs, init)
  {
  }

  lemma PostedParts(u: Expr, o: int, init: bool)
    requires PostOp(o) && FitsLeft(u, o, init)
    ensures var t := Posted(o, u);
      && Print(t, init) == Print(u, init) + PostText(o)
      && Pending(t, init) == [Entry(o, Stacked(o, Prio(o, init)))] && CurCalls(State([], Some(t), true)) == Calls(u)
      && OpDepth(t, init) == Max(1, OpDepth(u, init)) && CmDepth(t) == CmDepth(u) && Head(t) == o
  {
    hide Prio, Right, FitsLeft, Print, Calls, OpDepth, CmDepth, Pending;
    BracketFacts(init);
    if o == MCALL { Apply0Parts(u, init); } else { PostParts(o, u, init); }
  }

  lemma PostedOperand(gs: seq<Frame>, u: Expr, o: int, init: bool)
    requires OperandOk(gs, u, init) && PostOp(o) && Above(o, Prio(o, init), TopP(gs, init)) && |gs| + 1 < SSIZE
    requires var t := Posted(o, u);
      OpDepth(t, init) == Max(1, OpDepth(u, init)) && CmDepth(t) == CmDepth(u) && Head(t) == o
    ensures OperandOk(gs, Posted(o, u), init)
  {
    hide Prio, Right, FitsLeft, OpDepth, CmDepth, Waiting;
    NotSelecting(gs, o, init);
  }

  lemma NotSelecting(fs: seq<Frame>, o: int, init: bool)
    requires Above(o, Prio(o, init), TopP(fs, init))
    ensures !Selecting(fs)
  {
    hide Prio, Right;
    TableTop(o, init);
    if Selecting(fs) { InfixFacts(fs[|fs| - 1].o, init); }
  }

  // ---- closing

  lemma StepClose(s: State, o: int, init: bool) returns (s': State, t: Expr)
    requires Ok(s, init) && s.cur.Some? && (o == RPARN || o == RBRACK)
    ensures Follows(s, Opon(Machine(s, init), o, Prio(o, init)), [Sym(o)], s', t, init)
  {
    hide Prio, Right, Above, Entries, Made, Opon, OperandOk, FitsLeft, Print, Calls, TextOf, Proper, FramesOk,
      TextRead, Ok, LateOps, CurCalls, Stops, FrameOk, Ended;
    var gs, u := AtOperator(s, o, true, init);
    assert Machine(s, init).(flag := true) == Machine(s, init);
    t := u;
    s' := s;
    StopsAtBracket(gs, o, init);
    if gs == [] {
      EndsHere(s, u, o, true, init);
    } else {
      var n := |gs| - 1;
      var front, f := gs[..n], gs[n];
      assert gs == front + [f];
      OneMore(front, f, init);
      s' := State(front, Some(Combined(f, u)), false);
      Closes(front, f, u, o, init);
      if Closing(f, o) { ClosedOk(s, front, f, u, o, init); }
    }
  }

  lemma StopsAtBracket(gs: seq<Frame>, o: int, init: bool)
    requires Stops(gs, o, init) && !InfixOp(o) && o != LBRACK && o != LPARN && !UnaryOp(o) && !PostOp(o) && o != CALL
    requires FramesOk(gs, init)
    ensures gs != [] ==> Bracket(gs[|gs| - 1])
    ensures !Above(o, Prio(o, init), 6) && !Above(o, Prio(o, init), 4)
  {
    hide Prio, Above, EntryOf;
    Weak(o, init);
    AtLeast(gs, init);
  }

  // Symbols that are no operators are weaker than everything.
  lemma Weak(o: int, init: bool)
    requires !InfixOp(o) && o != LBRACK && o != LPARN && !UnaryOp(o) && !PostOp(o) && o != CALL
    ensures forall p :: p >= 4 ==> !Above(o, Prio(o, init), p)
  {
  }

  lemma AtLeast(fs: seq<Frame>, init: bool)
    requires FramesOk(fs, init)
    ensures TopP(fs, init) >= 4
  {
    hide Prio, Above, FitsLeft, Within;
    if fs != [] && fs[|fs| - 1].Behind? { InfixFacts(fs[|fs| - 1].o, init); }
  }

  predicate Closing(f: Frame, o: int) { if f.Sub? then o == RBRACK else o == RPARN }

  lemma Closes(front: seq<Frame>, f: Frame, u: Expr, o: int, init: bool)
    requires Bracket(f) && (o == RPARN || o == RBRACK)
    ensures Opon(M(Entries(front + [f], init), Made(front + [f]) + Calls(u), true), o, Prio(o, init))
         == if Closing(f, o) then Go(M(Entries(front, init), Made(front) + Calls(Combined(f, u)), true))
            else Stop(Syntax)
  {
    hide Prio, Right, Calls, Entries, Made, Opon;
    OneMore(front, f, init);
    Weak(o, init);
    Close(Entries(front, init), EntryOf(f, init), Made(front + [f]) + Calls(u), o, Prio(o, init));
    ClosedCalls(f, u);
    Assoc(Made(front), FrameCalls(f), Calls(u));
    Assoc(Made(front), FrameCalls(f) + Calls(u), CloseCalls(f));
  }

  function CloseCalls(f: Frame): seq<Act> {
    if f.Sub? then [Build(LBRACK)] else if f.Args? then [Build(CALL)] else []
  }

  lemma ClosedCalls(f: Frame, u: Expr)
    requires Bracket(f)
    ensures Calls(Combined(f, u)) == FrameCalls(f) + Calls(u) + CloseCalls(f)
  {
    if f.Open? { assert [] + Calls(u) + [] == Calls(u); }
  }

  lemma Close(es: seq<Entry>, top: Entry, out: seq<Act>, o: int, p: nat)
    requires !Above(o, p, top.p) && (o == RPARN || o == RBRACK)
    requires top.o == LPARN || top.o == LBRACK || top.o == CALL
    ensures Opon(M(es + [top], out, true), o, p)
         == if o == (if top.o == LBRACK then RBRACK else RPARN)
            then Go(M(es, out + (if top.o == LPARN then [] else [Build(top.o)]), true)) else Stop(Syntax)
  {
    hide Above;
    assert (es + [top])[..|es|] == es;
    assert out + [] == out;
  }

  lemma ClosedOk(s: State, front: seq<Frame>, f: Frame, u: Expr, o: int, init: bool)
    requires FramesOk(front, init) && FrameOk(front, f, init) && OperandOk(front + [f], u, init)
    requires Bracket(f) && Closing(f, o) && TextOf(front + [f], init) + Print(u, init) == TextRead(s, init)
    ensures var s' := State(front, Some(Combined(f, u)), false);
      && Ok(s', init) && TextRead(s', init) == TextRead(s, init) + [Sym(o)]
      && Machine(s', init) == M(Entries(front, init), Made(front) + Calls(Combined(f, u)), true)
  {
    hide Prio, Right, Calls, Entries, Made, FramesOk, FrameOk, OperandOk, TextOf, Print, Combined, FrameText, TextRead;
    var s' := State(front, Some(Combined(f, u)), false);
    CombinedOk(front, f, u, init);
    OneMore(front, f, init);
    ClosedText(front, f, u, o, init);
    TextIs(s', init);
    Assoc(TextOf(front, init), FrameText(f, init), Print(u, init));
    Assoc(TextOf(front, init), FrameText(f, init) + Print(u, init), [Sym(o)]);
    assert Entries(front, init) + [] == Entries(front, init);
  }

  lemma ClosedText(front: seq<Frame>, f: Frame, u: Expr, o: int, init: bool)
    requires Bracket(f) && Closing(f, o) && FrameOk(front, f, init)
    ensures Print(Combined(f, u), init) == FrameText(f, init) + Print(u, init) + [Sym(o)]
    ensures Primary(Combined(f, u))
  {
    hide Prio, Right, Above, FitsLeft, Proper, Within, Print, Pending, Early, Calls, OpDepth, CmDepth;
    match f
    case Open => GroupParts(u, init);
    case Sub(l) => BracketParts(l, u, false, init);
    case Args(g) => BracketParts(g, u, true, init);
  }

  // ---- a symbol that is no operator

  lemma StepEnd(s: State, o: int, init: bool) returns (t: Expr)
    requires Ok(s, init) && s.cur.Some? && o >= 0
    requires !InfixOp(o) && o != LBRACK && o != LPARN && !UnaryOp(o) && !PostOp(o) && o != CALL
    requires o != RPARN && o != RBRACK
    ensures Follows(s, Opon(Machine(s, init).(flag := false), o, Prio(o, init)), [Sym(o)], s, t, init)
  {
    hide Prio, Right, Above, Entries, Made, Opon, OperandOk, FitsLeft, Print, Calls, TextOf, Proper, FramesOk,
      TextRead, Ok, LateOps, CurCalls, Stops, FrameOk, Ended;
    var gs, u := AtOperator(s, o, false, init);
    t := u;
    StopsAtBracket(gs, o, init);
    if gs == [] {
      EndsHere(s, u, o, false, init);
    } else {
      NotClosed(gs, Made(gs) + Calls(u), o, init);
    }
  }

  lemma NotClosed(gs: seq<Frame>, out: seq<Act>, o: int, init: bool)
    requires gs != [] && Bracket(gs[|gs| - 1]) && o != RPARN && o != RBRACK && !Above(o, Prio(o, init), 4)
    ensures Opon(M(Entries(gs, init), out, false), o, Prio(o, init)) == Stop(Syntax)
  {
    hide Prio, Above;
    EntriesEnd(gs, init);
  }

  // ---- where an operand is to come

  lemma StepPrefix(s: State, o: int, init: bool) returns (s': State)
    requires Ok(s, init) && s.cur.None? && !Selecting(s.fs) && (UnaryOp(o) || o == LPARN)
    ensures Follows(s, Opon(Machine(s, init), o, Prio(o, init)), [if o == LPARN then Sym(LPARN) else Written(o)], s',
              Leaf(0), init)
  {
    hide Prio, Right, Above, Entries, Made, Opon, TextOf, FramesOk, TextRead, FrameOk, EntryOf, FrameText, FrameCalls;
    var f := if o == LPARN then Open else Prefix(o);
    s' := State(s.fs + [f], None, false);
    OnTop(s.fs, o, init);
    Pushes(s.fs, Made(s.fs), false, o, init);
    assert Machine(s, init) == M(Entries(s.fs, init), Made(s.fs), false);
    TextIs(s, init);
    if |s.fs| + 1 < SSIZE {
      PrefixIs(s.fs, o, init);
      NewFrame(s, s.fs, f, [if o == LPARN then Sym(LPARN) else Written(o)], init);
      assert Made(s.fs) + [] == Made(s.fs);
    }
  }

  lemma OnTop(fs: seq<Frame>, o: int, init: bool)
    requires FramesOk(fs, init) && !Selecting(fs) && (UnaryOp(o) || o == LPARN)
    ensures Above(o, Prio(o, init), TopP(fs, init))
  {
    hide Prio, FitsLeft, Within;
    BracketFacts(init);
    if UnaryOp(o) { UnaryFacts(o, init); }
    if fs != [] && fs[|fs| - 1].Behind? { InfixFacts(fs[|fs| - 1].o, init); }
  }

  lemma PrefixIs(fs: seq<Frame>, o: int, init: bool)
    requires (UnaryOp(o) || o == LPARN) && Above(o, Prio(o, init), TopP(fs, init)) && |fs| + 1 < SSIZE
    ensures var f := if o == LPARN then Open else Prefix(o);
      && FrameOk(fs, f, init) && EntryOf(f, init) == Entry(o, Stacked(o, Prio(o, init))) && FrameCalls(f) == []
      && FrameText(f, init) == [if o == LPARN then Sym(LPARN) else Written(o)]
  {
    hide Prio, Right, Above;
    if UnaryOp(o) { UnaryFacts(o, init); }
  }

  lemma {:induction false} NetMade(fs: seq<Frame>, init: bool)
    requires FramesOk(fs, init)
    ensures Net(Made(fs)) == Waiting(fs)
    decreases |fs|
  {
    hide Net, Above, Prio, FitsLeft, Within, EntryOf;
    if fs == [] {
      assert Net([]) == 0 by { NetNone(); }
    } else {
      var front, f := fs[..|fs| - 1], fs[|fs| - 1];
      NetMade(front, init);
      NetSum(Made(front), FrameCalls(f));
      NetNone();
      if LeftOf(f).Some? { NetCalls(LeftOf(f).value, init); }
    }
  }

  lemma NetNone()
    ensures Net([]) == 0
  {
  }

  lemma StepName(s: State, id: nat, init: bool)
    requires Ok(s, init) && s.cur.None? && Net(Machine(s, init).out) + 1 < CMSIZ
    ensures var s' := State(s.fs, Some(Leaf(id)), false);
      && Ok(s', init) && TextRead(s', init) == TextRead(s, init) + [Name(id)]
      && Machine(s', init) == M(Machine(s, init).ops, Machine(s, init).out + [Push(id)], true)
  {
    hide Prio, Right, Above, Entries, Made, TextOf, FramesOk, Net, TextRead;
    var s' := State(s.fs, Some(Leaf(id)), false);
    assert Made(s.fs) + [] == Made(s.fs);
    NetMade(s.fs, init);
    Shallow(s.fs, init);
    TextIs(s, init);
    TextIs(s', init);
  }

  lemma Shallow(fs: seq<Frame>, init: bool)
    requires FramesOk(fs, init)
    ensures |fs| < SSIZE
  {
    hide Prio, Above, FitsLeft, Within;
  }

  // ---- every symbol

  lemma Step(s: State, toks: seq<Tok>, init: bool) returns (s': State, t: Expr)
    requires Ok(s, init) && toks != [] && Lexed(toks[0])
    requires s.cur.None? && Selecting(s.fs) ==> toks[0].Name?
    ensures var v := Take(Machine(s, init), toks, init);
      Follows(s, v.0, toks[..v.1], s', t, init)
  {
    hide Prio, Above, Opon, FramesOk, OperandOk, Entries, Made, TextOf, Print, TextRead, Net, Follows, Ok;
    s', t := s, Leaf(0);
    match toks[0]
    case Name(id) =>
      assert toks[..1] == [Name(id)];
      s' := StepOperand(s, id, toks, init);
    case Sym(o) =>
      assert toks[..1] == [Sym(o)];
      if s.cur.None? {
        s' := StepFirst(s, o, toks, init);
      } else {
        s', t := StepNext(s, o, toks, init);
      }
  }

  lemma StepOperand(s: State, id: nat, toks: seq<Tok>, init: bool) returns (s': State)
    requires Ok(s, init) && toks != [] && toks[0] == Name(id)
    ensures var v := Take(Machine(s, init), toks, init);
      Follows(s, v.0, [Name(id)], s', Leaf(0), init) && v.1 == 1
  {
    hide Opon, FramesOk, OperandOk, Entries, Made, TextOf, Print, TextRead, Net, Prio;
    s' := State(s.fs, Some(Leaf(id)), false);
    if s.cur.None? && Net(Machine(s, init).out) + 1 < CMSIZ {
      StepName(s, id, init);
    }
  }

  // Where an operand is to come.
  lemma StepFirst(s: State, o: int, toks: seq<Tok>, init: bool) returns (s': State)
    requires Ok(s, init) && toks != [] && toks[0] == Sym(o) && Lexed(toks[0]) && s.cur.None? && !Selecting(s.fs)
    ensures var v := Take(Machine(s, init), toks, init);
      Follows(s, v.0, [Sym(o)], s', Leaf(0), init) && v.1 == 1
  {
    hide Opon, FramesOk, OperandOk, Entries, Made, TextOf, Print, TextRead, Net, Prio, Follows, Ok, Selecting, LateOps,
      CurCalls;
    var m := Machine(s, init);
    assert m.(flag := false) == m;
    var rd := Read(o, false, |toks| > 1 && toks[1] == Sym(RPARN));
    s' := s;
    if rd.o >= 0 {
      PrefixReading(o, rd);
      s' := StepPrefix(s, rd.o, init);
    } else {
      Refused(s, Syntax, [Sym(o)], init);
    }
  }

  lemma PrefixReading(o: int, rd: Reading)
    requires Lexed(Sym(o)) && (exists b :: rd == Read(o, false, b)) && rd.o >= 0
    ensures rd.n == 1 && !rd.flag && (UnaryOp(rd.o) || rd.o == LPARN)
    ensures (if rd.o == LPARN then Sym(LPARN) else Written(rd.o)) == Sym(o)
  {
  }

  lemma Refused(s: State, r: Result, read: seq<Tok>, init: bool)
    requires !r.Done?
    ensures Follows(s, Stop(r), read, s, Leaf(0), init)
  {
  }

  // Behind an operand.
  lemma StepNext(s: State, o: int, toks: seq<Tok>, init: bool) returns (s': State, t: Expr)
    requires Ok(s, init) && toks != [] && toks[0] == Sym(o) && Lexed(toks[0]) && s.cur.Some?
    ensures var v := Take(Machine(s, init), toks, init);
      Follows(s, v.0, toks[..v.1], s', t, init)
  {
    hide Opon, FramesOk, OperandOk, Entries, Made, TextOf, Print, TextRead, Net, Prio, Follows, Ok, LateOps, CurCalls,
      InfixOp, UnaryOp, PostOp, Lexed;
    var m := Machine(s, init);
    assert m.(flag := true) == m;
    var empty := |toks| > 1 && toks[1] == Sym(RPARN);
    s', t := s, Leaf(0);
    assert toks[..1] == [Sym(o)];
    NextReading(o, empty);
    if o == COMPL || o == EXCLA || o == SIZEOF {
      Refused(s, Syntax, [Sym(o)], init);
    } else if o == INCBEF || o == DECBEF {
      s' := StepPost(s, o + 2, init);
    } else if o == LPARN && empty {
      assert toks[..2] == [Sym(LPARN), Sym(RPARN)];
      s' := StepPost(s, MCALL, init);
    } else if o == LPARN {
      s', t := StepBehind(s, CALL, Args(Leaf(0)), [Sym(o)], init);
    } else if o == LBRACK {
      s', t := StepBehind(s, o, Sub(Leaf(0)), [Sym(o)], init);
    } else if o == RPARN || o == RBRACK {
      s', t := StepClose(s, o, init);
    } else if InfixOp(o) {
      s', t := StepBehind(s, o, Behind(o, Leaf(0)), [Sym(o)], init);
    } else {
      t := StepEnd(s, o, init);
    }
  }

  lemma NextReading(o: int, empty: bool)
    requires Lexed(Sym(o))
    ensures var rd := Read(o, true, empty);
      if o == COMPL || o == EXCLA || o == SIZEOF then rd.o < 0
      else if o == INCBEF || o == DECBEF then
        rd == Reading(o + 2, true, 1) && PostOp(o + 2) && PostText(o + 2) == [Sym(o)]
      else if o == LPARN && empty then
        rd == Reading(MCALL, true, 2) && PostOp(MCALL) && PostText(MCALL) == [Sym(LPARN), Sym(RPARN)]
      else if o == LPARN then rd == Reading(CALL, false, 1)
      else if o == RPARN || o == RBRACK then rd == Reading(o, true, 1)
      else rd == Reading(o, false, 1) && o >= 0 && (InfixOp(o) || (!UnaryOp(o) && !PostOp(o) && o != CALL))
  {
  }

  // ---- whole texts

  predicate AllLexed(toks: seq<Tok>) { forall i :: 0 <= i < |toks| ==> Lexed(toks[i]) }

  predicate Dot(t: Tok) { t == Sym(DOT) || t == Sym(ARROW) }

  // A name follows each . and ->.
  predicate DotsNamed(toks: seq<Tok>) {
    forall i :: 0 <= i < |toks| && Dot(toks[i]) ==> i + 1 < |toks| && toks[i + 1].Name?
  }

  lemma LastDot(s: State, init: bool)
    requires s.cur.None? && Selecting(s.fs)
    ensures var read := TextRead(s, init);
      read != [] && Dot(read[|read| - 1])
  {
    hide Print;
  }

  lemma {:induction false} Accepts(s: State, toks: seq<Tok>, n: nat, init: bool) returns (t: Expr)
    requires Ok(s, init) && AllLexed(toks) && n <= |toks| && DotsNamed(TextRead(s, init) + toks[..n])
    requires var r := Parse(Machine(s, init), toks, init);
      r.0.Done? && r.1 == toks[n..]
    ensures var r := Parse(Machine(s, init), toks, init).0;
      && Ended(t, TextRead(s, init) + toks[..n], r.out, r.last, init)
      && n < |toks| && toks[n] == Sym(r.last)
    decreases |toks|
  {
    hide Ok, Ended, Machine, TextRead, Take, Selecting, Lexed;
    var read := TextRead(s, init);
    var v := Take(Machine(s, init), toks, init);
    NotLonger(Machine(s, init), toks, n, init);
    if s.cur.None? && Selecting(s.fs) {
      LastDot(s, init);
      var all := read + toks[..n];
      assert Dot(all[|read| - 1]);
      assert all[|read|] == toks[0];
    }
    var s';
    s', t := Step(s, toks, init);
    match v.0
    case Stop(_) =>
      assert read + toks[..0] == read;
    case Go(m) =>
      var k := v.1;
      assert toks[..k] + toks[k..n] == toks[..n];
      Assoc(read, toks[..k], toks[k..n]);
      assert toks[k..][..n - k] == toks[k..n] && toks[k..][n - k..] == toks[n..];
      t := Accepts(s', toks[k..], n - k, init);
  }

  // What is left is a part of what there was.
  lemma {:induction false} NotLonger(m: M, toks: seq<Tok>, n: nat, init: bool)
    requires n <= |toks| && Parse(m, toks, init).1 == toks[n..] && Parse(m, toks, init).0.Done?
    ensures toks != [] && match Take(m, toks, init).0
      case Stop(_) => n == 0
      case Go(_) => Take(m, toks, init).1 <= n
    decreases |toks|
  {
    hide Take;
    if toks != [] {
      LeftShorter(m, toks, init);
      match Take(m, toks, init).0
      case Stop(_) => assert |toks[n..]| == |toks|;
      case Go(m1) => LeftShorter(m1, toks[Take(m, toks, init).1..], init);
    }
  }

  lemma {:induction false} LeftShorter(m: M, toks: seq<Tok>, init: bool)
    ensures |Parse(m, toks, init).1| <= |toks|
    decreases |toks|
  {
    hide Take;
    if toks != [] {
      var v := Take(m, toks, init);
      if v.0.Go? { LeftShorter(v.0.m, toks[v.1..], init); }
    }
  }

  // ---- exactly the texts of trees

  lemma DotsJoin(a: seq<Tok>, b: seq<Tok>)
    requires DotsNamed(a) && DotsNamed(b)
    ensures DotsNamed(a + b)
  {
  }

  lemma DotsParen(a: seq<Tok>, bare: bool)
    requires DotsNamed(a)
    ensures DotsNamed(Paren(a, bare))
  {
  }

  lemma {:induction false} TextDots(t: Expr, init: bool)
    requires Proper(t)
    ensures DotsNamed(Print(t, init))
    decreases t, 1
  {
    hide Prio, FitsRight, FitsLeft, DotsNamed, InfixOp, UnaryOp;
    match t
    case Leaf(_) => Single(Name(t.id));
    case Unary(o, e) =>
      TextDots(e, init);
      DotsParen(Print(e, init), FitsRight(e, Prio(o, init), init));
      WrittenPlain(o);
      DotsJoin([Written(o)], Paren(Print(e, init), FitsRight(e, Prio(o, init), init)));
    case Post(o, e) =>
      TextDots(e, init);
      DotsParen(Print(e, init), FitsLeft(e, o, init));
      Single(Written(o));
      DotsJoin(Paren(Print(e, init), FitsLeft(e, o, init)), [Written(o)]);
    case Infix(o, l, r) => InfixDots(o, l, r, init);
    case Index(l, i) =>
      TextDots(l, init);
      TextDots(i, init);
      BracketDots(Paren(Print(l, init), FitsLeft(l, LBRACK, init)), Print(i, init), LBRACK, RBRACK);
      DotsParen(Print(l, init), FitsLeft(l, LBRACK, init));
    case Apply(f, a) =>
      TextDots(f, init);
      TextDots(a, init);
      DotsParen(Print(f, init), FitsLeft(f, CALL, init));
      BracketDots(Paren(Print(f, init), FitsLeft(f, CALL, init)), Print(a, init), LPARN, RPARN);
    case Apply0(f) =>
      TextDots(f, init);
      DotsParen(Print(f, init), FitsLeft(f, MCALL, init));
      Single(Sym(LPARN));
      Single(Sym(RPARN));
      DotsJoin([Sym(LPARN)], [Sym(RPARN)]);
      DotsJoin(Paren(Print(f, init), FitsLeft(f, MCALL, init)), [Sym(LPARN), Sym(RPARN)]);
    case Group(e) =>
      TextDots(e, init);
      DotsParen(Print(e, init), false);
  }

  lemma Single(t: Tok)
    requires !Dot(t)
    ensures DotsNamed([t])
  {
  }

  lemma WrittenPlain(o: int)
    requires UnaryOp(o)
    ensures DotsNamed([Written(o)])
  {
  }

  lemma BracketDots(a: seq<Tok>, b: seq<Tok>, open: int, close: int)
    requires (open == LBRACK && close == RBRACK) || (open == LPARN && close == RPARN)
    requires DotsNamed(a) ==> DotsNamed(b)
    ensures DotsNamed(a) ==> DotsNamed(a + [Sym(open)] + b + [Sym(close)])
  {
    if DotsNamed(a) {
      DotsJoin(a, [Sym(open)]);
      DotsJoin(a + [Sym(open)], b);
      DotsJoin(a + [Sym(open)] + b, [Sym(close)]);
    }
  }

  lemma {:induction false} InfixDots(o: int, l: Expr, r: Expr, init: bool)
    requires Proper(Infix(o, l, r))
    ensures DotsNamed(Print(Infix(o, l, r), init))
    decreases Infix(o, l, r), 0
  {
    hide Prio, FitsRight, FitsLeft;
    TextDots(l, init);
    DotsParen(Print(l, init), FitsLeft(l, o, init));
    var left, right := Paren(Print(l, init), FitsLeft(l, o, init)), Paren(Print(r, init),
        FitsRight(r, Prio(o, init), init));
    if o == DOT || o == ARROW {
      LeafText(r, o, init);
      DotsJoin(left, [Sym(o), Name(r.id)]);
      assert left + [Sym(o), Name(r.id)] == left + [Sym(o)] + right;
    } else {
      TextDots(r, init);
      DotsParen(Print(r, init), FitsRight(r, Prio(o, init), init));
      DotsJoin(left, [Sym(o)]);
      DotsJoin(left + [Sym(o)], right);
    }
  }

  lemma LeafText(r: Expr, o: int, init: bool)
    requires r.Leaf?
    ensures Paren(Print(r, init), FitsRight(r, Prio(o, init), init)) == [Name(r.id)]
  {
  }

  /** toks begins with the text of t, a complete expression within the limits, which the next
      symbol, last, ends; out are its calls. */
  predicate Sentence(t: Expr, toks: seq<Tok>, n: nat, out: seq<Act>, last: int, init: bool) {
    n < |toks| && toks[n] == Sym(last) && Ended(t, toks[..n], out, last, init)
  }

  /** tree() takes the first n symbols, making the calls out, and stops at last, if and only if
      they are the text of an expression tree with these calls which last ends; but where a .
      or -> is not followed by a name it may do so for a text that is none. */
  lemma AcceptedIff(toks: seq<Tok>, n: nat, out: seq<Act>, last: int, init: bool)
    requires AllLexed(toks) && n <= |toks|
    ensures Parse(Bottom(), toks, init) == (Done(out, last), toks[n..]) && DotsNamed(toks[..n])
        <==> exists t :: Sentence(t, toks, n, out, last, init)
  {
    hide Parse, AllLexed, Sentence, DotsNamed;
    if Parse(Bottom(), toks, init) == (Done(out, last), toks[n..]) && DotsNamed(toks[..n]) {
      var t := TextAccepted(toks, n, out, last, init);
    }
    if t :| Sentence(t, toks, n, out, last, init) {
      SentenceRead(t, toks, n, out, last, init);
    }
  }

  lemma TextAccepted(toks: seq<Tok>, n: nat, out: seq<Act>, last: int, init: bool) returns (t: Expr)
    requires AllLexed(toks) && n <= |toks| && DotsNamed(toks[..n])
    requires Parse(Bottom(), toks, init) == (Done(out, last), toks[n..])
    ensures Sentence(t, toks, n, out, last, init)
  {
    hide Parse, AllLexed, Ok, Machine, TextRead, Ended, DotsNamed;
    var s := State([], None, false);
    StartOk(s, init);
    assert [] + toks[..n] == toks[..n];
    t := Accepts(s, toks, n, init);
  }

  lemma SentenceRead(t: Expr, toks: seq<Tok>, n: nat, out: seq<Act>, last: int, init: bool)
    requires n <= |toks| && Sentence(t, toks, n, out, last, init)
    ensures Parse(Bottom(), toks, init) == (Done(out, last), toks[n..]) && DotsNamed(toks[..n])
  {
    hide Parse, DotsNamed, FitsLeft, FitsRight, Print, Calls, OpDepth, CmDepth, Stopper;
    TextDots(t, init);
    assert toks[n..] == [Sym(last)] + toks[n + 1..];
    assert toks == toks[..n] + [Sym(last)] + toks[n + 1..];
    RoundTrip(t, last, toks[n + 1..], init);
  }

  lemma StartOk(s: State, init: bool)
    requires s == State([], None, false)
    ensures Ok(s, init) && Machine(s, init) == Bottom() && TextRead(s, init) == []
  {
  }

  // c+a.(b);
  function Misread(): seq<Tok> {
    [Name(0), Sym(40), Name(1), Sym(DOT), Sym(LPARN), Name(2), Sym(RPARN), Sym(1)]
  }

  /** It is read as (c.a)+b, though it is no expression: the parenthesis is weaker than the dot
      on the stack, which is built before its right operand has come. */
  lemma DotMisread()
    ensures AllLexed(Misread()) && !DotsNamed(Misread()[..7])
    ensures Parse(Bottom(), Misread(), false)
         == (Done(Calls(Infix(40, Infix(DOT, Leaf(0), Leaf(1)), Leaf(2))) + [Build(0)], 1), [Sym(1)])
  {
    hide Parse, Net, Opon, Prio, Right;
    var toks := Misread();
    assert Dot(toks[3]) && !toks[4].Name?;
    var es := [Entry(SEOF, 6)] + [Entry(40, 24)];
    var b, d := [Push(0)] + [Push(1)], [Push(0)] + [Push(1)] + [Build(DOT)] + [Push(2)];
    MisreadNets();
    MisreadTable();
    MisreadStart();
    ParseAt(M(es + [Entry(DOT, 30)], b, false), toks, 4, false);
    Pop(es, Entry(DOT, 30), b, false, LPARN, 30);
    Goes([Entry(SEOF, 6)], Entry(40, 24), b + [Build(DOT)], LPARN, 30);
    ParseAt(M(es + [Entry(LPARN, 4)], b + [Build(DOT)], false), toks, 5, false);
    MisreadEnd(es, d);
    assert Calls(Infix(DOT, Leaf(0), Leaf(1))) == b + [Build(DOT)];
  }

  lemma MisreadStart()
    ensures Parse(Bottom(), Misread(), false) == Parse(
      M([Entry(SEOF, 6)] + [Entry(40, 24)] + [Entry(DOT, 30)], [Push(0)] + [Push(1)], false), Misread()[4..], false)
  {
    hide Parse, Net, Opon, Prio, Right;
    var toks := Misread();
    var s1 := [Entry(SEOF, 6)];
    var s2, a := s1 + [Entry(40, 24)], [Push(0)];
    MisreadNets();
    MisreadTable();
    assert toks[0..] == toks && [] + [Push(0)] == a && [] + [Entry(SEOF, 6)] == s1;
    ParseAt(M(s1, [], false), toks, 0, false);
    ParseAt(M(s1, a, true), toks, 1, false);
    Goes([], Entry(SEOF, 6), a, 40, 24);
    ParseAt(M(s2, a, false), toks, 2, false);
    ParseAt(M(s2, a + [Push(1)], true), toks, 3, false);
    Goes(s1, Entry(40, 24), a + [Push(1)], DOT, 30);
  }

  lemma MisreadEnd(es: seq<Entry>, d: seq<Act>)
    requires es == [Entry(SEOF, 6)] + [Entry(40, 24)]
    ensures Parse(M(es + [Entry(LPARN, 4)], d, true), Misread()[6..], false)
         == (Done(d + [Build(40)] + [Build(0)], 1), [Sym(1)])
  {
    hide Parse, Net, Opon, Prio, Right;
    var toks := Misread();
    MisreadTable();
    assert toks[7..] == [Sym(1)];
    ParseAt(M(es + [Entry(LPARN, 4)], d, true), toks, 6, false);
    Close(es, Entry(LPARN, 4), d, RPARN, 2);
    assert d + [] == d;
    ParseAt(M(es, d, true), toks, 7, false);
    Pop([Entry(SEOF, 6)], Entry(40, 24), d, false, 1, 0);
    AtBottom(d + [Build(40)]);
  }

  lemma Goes(es: seq<Entry>, top: Entry, out: seq<Act>, o: int, p: nat)
    requires Above(o, p, top.p) && |es| + 1 < SSIZE
    ensures Opon(M(es + [top], out, false), o, p) == Go(M(es + [top] + [Entry(o, Stacked(o, p))], out, false))
  {
  }

  lemma AtBottom(out: seq<Act>)
    ensures Opon(M([Entry(SEOF, 6)], out, false), 1, 0) == Stop(Done(out + [Build(0)], 1))
  {
  }

  lemma MisreadTable()
    ensures Prio(40, false) == 24 && Prio(DOT, false) == Prio(LPARN, false) == 30 && Prio(1, false) == 0
    ensures Prio(RPARN, false) == 2 && !Right(LPARN) && !Right(RPARN) && !Right(1)
  {
  }

  lemma MisreadNets()
    ensures Net([]) == 0 && Net([Push(0)]) == 1 && Net([Push(0)] + [Push(1)] + [Build(DOT)]) == 1
  {
    NetNone();
    NetOf(Push(0), Push(1));
    NetOf(Push(1), One);
    NetOf(Build(DOT), One);
    NetSum([Push(0), Push(1)], [Build(DOT)]);
    assert [Push(0), Push(1)] == [Push(0)] + [Push(1)];
  }
}
