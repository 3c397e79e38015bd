// tree() of v6/c/c00.c, the operator-precedence parser of the Sixth Edition C compiler: what
// it does with one symbol, and with a whole expression. Symbols are numbered as in v6/c/c0h.c.
module ExprParser {

  const LBRACK := 4
  const RBRACK := 5
  const LPARN := 6
  const RPARN := 7
  const COLON := 8
  const COMMA := 9
  const INCBEF := 30
  const DECBEF := 31
  const INCAFT := 32
  const DECAFT := 33
  const EXCLA := 34
  const AMPER := 35
  const STAR := 36
  const NEG := 37
  const COMPL := 38
  const DOT := 39
  const MINUS := 41
  const TIMES := 42
  const AND := 47
  const ARROW := 50
  const QUEST := 90
  const SIZEOF := 91
  const CALL := 100
  const MCALL := 101
  const SEOF := 200

  const SSIZE := 20
  const CMSIZ := 40

  // opdope of v6/c/c05.c: bit 0 for binary, bit 7 for right-associative, the priority above bit 8.
  function Opdope(o: int): nat {
    if o == 4 || o == 6 then 0x3c00
    else if o == 5 || o == 7 then 0x0400
    else if o == 8 || o == 90 then 0x1881
    else if o == 9 then 0x0e01
    else if 20 <= o <= 24 then 0x0100
    else if 30 <= o <= 33 then 0x3883
    else if o == 34 || o == 36 || o == 38 then 0x3890
    else if o == 35 then 0x3882
    else if o == 37 || o == 91 then 0x3880
    else if o == 39 || o == 50 || 100 <= o <= 101 then 0x3c01
    else if o == 40 then 0x3041
    else if o == 41 || o == 55 then 0x3001
    else if o == 42 then 0x3441
    else if 43 <= o <= 44 then 0x3401
    else if 45 <= o <= 46 then 0x2c31
    else if o == 47 then 0x2071
    else if 48 <= o <= 49 then 0x1e71
    else if o == 53 then 0x1c01
    else if o == 54 then 0x1a01
    else if 60 <= o <= 61 then 0x2405
    else if 62 <= o <= 69 then 0x2805
    else if 70 <= o <= 74 || o == 80 then 0x148b
    else if 75 <= o <= 79 then 0x14ab
    else 0
  }

  // init is initflg: in an initializer , and : are weaker than the bottom of the stack.
  function Prio(o: int, init: bool): nat {
    if (o == COMMA || o == COLON) && init then 5 else Opdope(o) / 512 % 64
  }

  predicate Right(o: int) { Opdope(o) / 128 % 2 == 1 }

  predicate Binary(o: int) { Opdope(o) % 2 == 1 || o == LBRACK }

  // ---- the machine

  datatype Tok = Name(id: nat) | Sym(o: int)

  // What is done to the operand stack: an operand, the constant 1 or an empty argument list
  // pushed, or build() called.
  datatype Act = Push(id: nat) | One | Null | Build(o: int)

  datatype Entry = Entry(o: int, p: nat)

  // opst with prst; the calls made so far; andflg: was the last thing an operand?
  datatype M = M(ops: seq<Entry>, out: seq<Act>, flag: bool)

  datatype Result = Done(out: seq<Act>, last: int) | Syntax | Overflow | Unended

  // Operands on cmst after these calls.
  function Net(out: seq<Act>): int {
    if out == [] then 0
    else Net(out[..|out| - 1]) + match out[|out| - 1]
      case Build(o) => if Binary(o) then -1 else 0
      case _ => 1
  }

  // Is o, of priority p, put on top of an operator of priority ps?
  predicate Above(o: int, p: nat, ps: nat) { p > ps || (p == ps && Right(o)) }

  // The priority an operator has once on the stack.
  function Stacked(o: int, p: nat): nat {
    if o == INCAFT || o == DECAFT then 37 else if o == LPARN || o == LBRACK || o == CALL then 4 else p
  }

  datatype Move = Go(m: M) | Stop(r: Result)

  // oponst: build what o does not go above, then put o on the stack or close a bracket with it.
  function Opon(m: M, o: int, p: nat): Move
    decreases |m.ops|
  {
    if m.ops == [] then Stop(Syntax)
    else
      var n := |m.ops| - 1;
      var top := m.ops[n];
      var m1 := m.(ops := m.ops[..n]);
      if Above(o, p, top.p) then
        if |m.ops| >= SSIZE then Stop(Overflow) else Go(m.(ops := m.ops + [Entry(o, Stacked(o, p))]))
      else if top.o == SEOF then Stop(Done(m.out + [Build(0)], o))
      else if top.o == CALL then
        if o != RPARN then Stop(Syntax) else Go(m1.(out := m.out + [Build(CALL)]))
      else if top.o == LPARN then
        if o != RPARN then Stop(Syntax) else Go(m1)
      else if top.o == LBRACK then
        if o != RBRACK then Stop(Syntax) else Go(m1.(out := m.out + [Build(LBRACK)]))
      else Opon(m1.(out := m.out + Popped(top.o)), o, p)
  }

  // The calls made when an operator that is no bracket leaves the stack.
  function Popped(o: int): seq<Act> {
    if o == MCALL then [Null, Build(CALL)]
    else if INCBEF <= o <= DECAFT then [One, Build(o)]
    else [Build(o)]
  }

  // What o means where it stands, whether andflg is cleared, and how many symbols it takes;
  // a negative operator is a syntax error.
  datatype Reading = Reading(o: int, flag: bool, n: nat)

  function Read(o: int, flag: bool, callEmpty: bool): (rd: Reading)
    ensures rd.n > 0
  {
    if o == INCBEF || o == DECBEF then Reading(if flag then o + 2 else o, flag, 1)
    else if o == COMPL || o == EXCLA || o == SIZEOF then Reading(if flag then -1 else o, flag, 1)
    else if o == MINUS then Reading(if flag then o else NEG, false, 1)
    else if o == AND then Reading(if flag then o else AMPER, false, 1)
    else if o == TIMES then Reading(if flag then o else STAR, false, 1)
    else if o == LPARN then
      if !flag then Reading(LPARN, false, 1)
      else if callEmpty then Reading(MCALL, true, 2) else Reading(CALL, false, 1)
    else if o == RBRACK || o == RPARN then Reading(if flag then o else -1, flag, 1)
    else Reading(if flag then o else -1, false, 1)
  }

  // advanc: the next symbol.
  function Take(m: M, toks: seq<Tok>, init: bool): (r: (Move, nat))
    requires toks != []
    ensures 0 < r.1 <= |toks|
  {
    match toks[0]
    case Name(id) =>
      if Net(m.out) + 1 >= CMSIZ then (Stop(Overflow), 1)
      else if m.flag then (Stop(Syntax), 1)
      else (Go(M(m.ops, m.out + [Push(id)], true)), 1)
    case Sym(o) =>
      var rd := Read(o, m.flag, |toks| > 1 && toks[1] == Sym(RPARN));
      if rd.o < 0 || rd.n > |toks| then (Stop(Syntax), 1)
      else (Opon(m.(flag := rd.flag), rd.o, Prio(rd.o, init)), rd.n)
  }

  // What comes of it, and the symbols that are left, the one that has been peeked at first.
  function Parse(m: M, toks: seq<Tok>, init: bool): (Result, seq<Tok>)
    decreases |toks|
  {
    if toks == [] then (Unended, [])
    else
      var t := Take(m, toks, init);
      match t.0
      case Stop(r) => (r, toks)
      case Go(m1) => Parse(m1, toks[t.1..], init)
  }

  // The parse from symbol k on.
  lemma ParseAt(m: M, toks: seq<Tok>, k: nat, init: bool)
    requires k < |toks|
    ensures var rest := toks[k..];
      match toks[k]
      case Name(id) =>
        Parse(m, rest, init) == (
          if Net(m.out) + 1 >= CMSIZ then (Overflow, rest)
          else if m.flag then (Syntax, rest)
          else Parse(M(m.ops, m.out + [Push(id)], true), toks[k + 1..], init))
      case Sym(o) =>
        var rd := Read(o, m.flag, k + 1 < |toks| && toks[k + 1] == Sym(RPARN));
        if rd.o < 0 then Parse(m, rest, init) == (Syntax, rest)
        else
          && k + rd.n <= |toks|
          && match Opon(m.(flag := rd.flag), rd.o, Prio(rd.o, init))
            case Stop(r) => Parse(m, rest, init) == (r, rest)
            case Go(m1) => Parse(m, rest, init) == Parse(m1, toks[k + rd.n..], init)
  {
    hide Opon, Net, Prio;
    var rest := toks[k..];
    assert rest[0] == toks[k];
    assert |rest| > 1 ==> rest[1] == toks[k + 1];
    var n := Take(m, rest, init).1;
    assert rest[n..] == toks[k + n..];
  }

  // tree(): the loop over the symbols, the first k of which it takes.
  method Tree(toks: seq<Tok>, init: bool) returns (r: Result, k: nat)
    ensures k <= |toks| && (r, toks[k..]) == Parse(Bottom(), toks, init)
  {
    hide Parse, Take, Opon, Net, Prio, Read;
    var ops, out, andflg := [Entry(SEOF, 6)], [], false;
    k := 0;
    assert toks[0..] == toks;
    while k < |toks|
      invariant k <= |toks| && Parse(M(ops, out, andflg), toks[k..], init) == Parse(Bottom(), toks, init)
      decreases |toks| - k
    {
      ParseAt(M(ops, out, andflg), toks, k, init);
      match toks[k]
      case Name(id) =>
        if Net(out) + 1 >= CMSIZ {
          return Overflow, k;
        }
        if andflg {
          return Syntax, k;
        }
        out := out + [Push(id)];
        andflg := true;
        k := k + 1;
      case Sym(o) =>
        var rd := Read(o, andflg, k + 1 < |toks| && toks[k + 1] == Sym(RPARN));
        if rd.o < 0 {
          return Syntax, k;
        }
        andflg := rd.flag;
        var p := Prio(rd.o, init);
        var done: bool;
        done, ops, out, r := Operator(ops, out, rd.o, p, andflg);
        if done {
          return;
        }
        k := k + rd.n;
    }
    NothingLeft(M(ops, out, andflg), init);
    assert toks[k..] == [];
    r := Unended;
  }

  lemma NothingLeft(m: M, init: bool)
    ensures Parse(m, [], init) == (Unended, [])
  {
  }

  function Bottom(): M { M([Entry(SEOF, 6)], [], false) }

  // The loop at opon1; done when the whole parse ends here.
  method Operator(ops0: seq<Entry>, out0: seq<Act>, o: int, p: nat, flag: bool)
    returns (done: bool, ops: seq<Entry>, out: seq<Act>, r: Result)
    ensures Opon(M(ops0, out0, flag), o, p) == if done then Stop(r) else Go(M(ops, out, flag))
  {
    ops, out, r, done := ops0, out0, Syntax, true;
    while ops != []
      invariant Opon(M(ops, out, flag), o, p) == Opon(M(ops0, out0, flag), o, p) && done && r == Syntax
      decreases |ops|
    {
      var top := ops[|ops| - 1];
      if Above(o, p, top.p) {
        if |ops| >= SSIZE {
          r := Overflow;
          return;
        }
        ops := ops + [Entry(o, Stacked(o, p))];
        done := false;
        return;
      }
      ops := ops[..|ops| - 1];
      if top.o == SEOF {
        r := Done(out + [Build(0)], o);
        return;
      }
      if top.o == CALL || top.o == LPARN || top.o == LBRACK {
        if o != (if top.o == LBRACK then RBRACK else RPARN) {
          return;
        }
        if top.o != LPARN {
          out := out + [Build(top.o)];
        }
        done := false;
        return;
      }
      out := out + Popped(top.o);
    }
  }
}
