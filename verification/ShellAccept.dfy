// xv6-x86/sh.c: what a command line means, told from its tokens alone, and that the parser
// accepts exactly the lines that mean something and gives the tree they mean.

module ShellAccept {
  import opened ShellGrammar
  import opened ShellRoundTrip

  // ---- what tokens mean ----

  predicate RedSym(k: Token) { k == Sym('<') || k == Sym('>') || k == Sym('+') }

  // >> is not told from >.
  function RedFrom(k: Token, file: string): Red<string> {
    if k == Sym('<') then Red(file, O_RDONLY, 0) else Red(file, O_WRONLY_CREATE, 1)
  }

  // Words and redirections, in any order.
  predicate Units(ks: seq<Token>) {
    ks == [] || (ks[0].Word? && Units(ks[1..])) || (RedSym(ks[0]) && |ks| > 1 && ks[1].Word? && Units(ks[2..]))
  }

  // The words that name no file.
  function WordsIn(ks: seq<Token>): seq<string>
    requires Units(ks)
  {
    if ks == [] then [] else if ks[0].Word? then [ks[0].text] + WordsIn(ks[1..]) else WordsIn(ks[2..])
  }

  function RedsIn(ks: seq<Token>): seq<Red<string>>
    requires Units(ks)
  {
    if ks == [] then []
    else if ks[0].Word? then RedsIn(ks[1..])
    else [RedFrom(ks[0], ks[1].text)] + RedsIn(ks[2..])
  }

  /** A command: its words in order, at most nine, inside its redirections in order. */
  ghost predicate MeansSimple(ks: seq<Token>, c: Cmd<string>) {
    Units(ks) && |WordsIn(ks)| < MAXARGS && c == Wrap(Exec(WordsIn(ks)), RedsIn(ks))
  }

  // A line in parentheses, that closes at i, and redirections.
  ghost predicate MeansBlock(ks: seq<Token>, i: nat, b: Cmd<string>, c: Cmd<string>)
    decreases |ks|, 0
  {
    && 0 < i < |ks| && ks[0] == Sym('(') && ks[i] == Sym(')')
    && Units(ks[i + 1..]) && WordsIn(ks[i + 1..]) == []
    && MeansLine(ks[1..i], b) && c == Wrap(b, RedsIn(ks[i + 1..]))
  }

  ghost predicate MeansItem(ks: seq<Token>, c: Cmd<string>)
    decreases |ks|, 1
  {
    MeansSimple(ks, c) || exists i: nat, b :: MeansBlock(ks, i, b, c)
  }

  // The first | of a pipeline stands at i.
  ghost predicate SplitsPipe(ks: seq<Token>, i: nat, c: Cmd<string>)
    decreases |ks|, 2
  {
    c.Pipe? && i < |ks| && ks[i] == Sym('|') && MeansItem(ks[..i], c.left) && MeansPipe(ks[i + 1..], c.right)
  }

  ghost predicate MeansPipe(ks: seq<Token>, c: Cmd<string>)
    decreases |ks|, 3
  {
    MeansItem(ks, c) || exists i: nat :: SplitsPipe(ks, i, c)
  }

  // A pipeline, and an & for each time it is put in the background.
  ghost predicate MeansBacks(ks: seq<Token>, c: Cmd<string>)
    decreases |ks|, 4
  {
    MeansPipe(ks, c)
    || (c.Back? && ks != [] && ks[|ks| - 1] == Sym('&') && MeansBacks(ks[..|ks| - 1], c.cmd))
  }

  ghost predicate SplitsLine(ks: seq<Token>, i: nat, c: Cmd<string>)
    decreases |ks|, 5
  {
    c.List? && i < |ks| && ks[i] == Sym(';') && MeansBacks(ks[..i], c.left) && MeansLine(ks[i + 1..], c.right)
  }

  /** The tokens mean the tree c as a whole line. */
  ghost predicate MeansLine(ks: seq<Token>, c: Cmd<string>)
    decreases |ks|, 6
  {
    MeansBacks(ks, c) || exists i: nat :: SplitsLine(ks, i, c)
  }

  // ---- words and redirections, put together ----

  lemma {:induction false} UnitsJoin(a: seq<Token>, b: seq<Token>)
    requires Units(a) && Units(b)
    ensures Units(a + b) && WordsIn(a + b) == WordsIn(a) + WordsIn(b) && RedsIn(a + b) == RedsIn(a) + RedsIn(b)
    decreases |a|
  {
    if a == [] {
      assert a + b == b;
    } else if a[0].Word? {
      assert (a + b)[1..] == a[1..] + b;
      UnitsJoin(a[1..], b);
    } else {
      assert (a + b)[2..] == a[2..] + b;
      UnitsJoin(a[2..], b);
    }
  }

  lemma OneRed(k: Token, file: string)
    requires RedSym(k)
    ensures var ks := [k, Word(file)];
      Units(ks) && WordsIn(ks) == [] && RedsIn(ks) == [RedFrom(k, file)]
  {
    var ks := [k, Word(file)];
    assert ks[2..] == [];
  }

  lemma OneWord(w: string)
    ensures Units([Word(w)]) && WordsIn([Word(w)]) == [w] && RedsIn([Word(w)]) == []
  {
    assert [Word(w)][1..] == [];
  }

  // ---- what the parser gives is what the tokens mean ----

  // The token that has been read.
  lemma Read(t: Text, s: nat)
    requires s <= |t| && GetToken(t, s).kind != NUL
    ensures var g := GetToken(t, s);
      && Lex(t, s) == [if g.kind == 'a' then Word(Str(t, g.span)) else Sym(g.kind)] + Lex(t, g.next)
      && s < g.next <= |t|
  {
    Head(t, s);
    hide Lex, Skip;
  }

  // A symbol that peek has seen.
  lemma ReadPeeked(t: Text, s: nat, toks: string)
    requires s <= |t| && Peek(t, s, toks) && forall i :: 0 <= i < |toks| ==> Symbol(toks[i])
    ensures var g := GetToken(t, s);
      && g.kind != NUL && g.kind != 'a' && (g.kind in toks || (g.kind == '+' && '>' in toks))
      && Lex(t, s) == [Sym(g.kind)] + Lex(t, g.next) && s < g.next <= |t|
  {
    KindOf(t, s);
    hide Lex, Skip;
    Read(t, s);
  }

  lemma {:induction false} RedirsMean(t: Text, s: nat) returns (ks: seq<Token>)
    requires s <= |t| && Redirs(t, s).Done?
    ensures var r := Redirs(t, s);
      && Lex(t, s) == ks + Lex(t, r.next)
      && Units(ks) && WordsIn(ks) == [] && RedsIn(ks) == RedTexts(t, r.value)
    decreases |t| - s
  {
    hide Lex, Skip, GetToken, Units, WordsIn, RedsIn, RedTexts;
    if Peek(t, s, "<>") {
      var tok := GetToken(t, s);
      ReadPeeked(t, s, "<>");
      var f := GetToken(t, tok.next);
      Read(t, tok.next);
      var more := RedirsMean(t, f.next);
      RedirsStep(t, s);
      var k, file := Sym(tok.kind), Str(t, f.span);
      OneRed(k, file);
      UnitsJoin([k, Word(file)], more);
      ks := [k, Word(file)] + more;
      RedJoined(k, Word(file), more, Lex(t, Redirs(t, s).next));
      assert [] + WordsIn(more) == WordsIn(more);
    } else {
      ks := NoTokens(t, s);
      assert RedTexts(t, []) == [] by { NoRedTexts(t); }
    }
  }

  lemma RedJoined(k: Token, f: Token, more: seq<Token>, rest: seq<Token>)
    ensures [k, f] + more + rest == [k] + ([f] + (more + rest))
  {
  }

  lemma NoRedTexts(t: Text)
    ensures RedTexts(t, []) == []
  {
  }

  // Blanks only.
  lemma NoTokens(t: Text, s: nat) returns (ks: seq<Token>)
    requires s <= |t|
    ensures ks == [] && Lex(t, s) == ks + Lex(t, Skip(t, s)) && Units(ks) && WordsIn(ks) == [] && RedsIn(ks) == []
  {
    Head(t, s);
    hide Lex, Skip;
    ks := [];
    assert ks + Lex(t, Skip(t, s)) == Lex(t, s);
  }

  lemma {:induction false} ArgsMean(t: Text, s: nat, argc: nat) returns (ks: seq<Token>)
    requires s <= |t| && Args(t, s, argc).Done? && argc < MAXARGS
    ensures var r := Args(t, s, argc);
      && Lex(t, s) == ks + Lex(t, r.next) && argc + |WordsOr(ks)| < MAXARGS
      && Units(ks) && WordsIn(ks) == Texts(t, r.value.0) && RedsIn(ks) == RedTexts(t, r.value.1)
    decreases |t| - s
  {
    hide Lex, Skip, GetToken, Units, WordsIn, RedsIn, Args, Texts, RedTexts, Redirs;
    ArgsMore(t, s, argc);
    var tok := GetToken(t, s);
    if Peek(t, s, "|)&;") || tok.kind == NUL {
      ks := ArgsStop(t, s, argc);
    } else {
      Read(t, s);
      var reds := Redirs(t, tok.next);
      var a := RedirsMean(t, tok.next);
      var b := ArgsMean(t, reds.next, argc + 1);
      ArgsStep(t, s, argc);
      var w := Str(t, tok.span);
      var tail := Args(t, reds.next, argc + 1).value;
      RedTextsMore(t, reds.value, tail.1);
      ks := [Word(w)] + (a + b);
      JoinArg(w, a, b);
      WordsIs(b);
      assert ks + Lex(t, Args(t, s, argc).next) == [Word(w)] + (a + (b + Lex(t, Args(t, s, argc).next)));
    }
  }

  lemma JoinArg(w: string, a: seq<Token>, b: seq<Token>)
    requires Units(a) && WordsIn(a) == [] && Units(b)
    ensures var ks := [Word(w)] + (a + b);
      && Units(ks) && WordsIn(ks) == [w] + WordsIn(b) == WordsOr(ks) && RedsIn(ks) == RedsIn(a) + RedsIn(b)
  {
    hide Units, WordsIn, RedsIn;
    OneWord(w);
    UnitsJoin(a, b);
    UnitsJoin([Word(w)], a + b);
    assert [] + WordsIn(b) == WordsIn(b);
    assert [] + RedsIn(a + b) == RedsIn(a + b);
    WordsIs([Word(w)] + (a + b));
  }

  function WordsOr(ks: seq<Token>): seq<string> {
    if Units(ks) then WordsIn(ks) else []
  }

  lemma WordsIs(ks: seq<Token>)
    requires Units(ks)
    ensures WordsOr(ks) == WordsIn(ks)
  {
  }

  lemma ArgsStop(t: Text, s: nat, argc: nat) returns (ks: seq<Token>)
    requires s <= |t| && (Peek(t, s, "|)&;") || GetToken(t, s).kind == NUL)
    ensures ks == [] && Args(t, s, argc).Done? && Args(t, s, argc).value == ([], [])
    ensures Lex(t, s) == ks + Lex(t, Args(t, s, argc).next)
    ensures Units(ks) && WordsIn(ks) == Texts(t, []) == WordsOr(ks) == [] && RedsIn(ks) == RedTexts(t, [])
  {
    hide Lex, Skip, GetToken;
    ks := NoTokens(t, s);
    if !Peek(t, s, "|)&;") {
      Head(t, s);
      Head(t, |t|);
    }
  }

  // Level k: a command, a pipeline, a line.
  lemma {:induction false} ItemMeans(t: Text, s: nat) returns (ks: seq<Token>)
    requires s <= |t| && ExecOf(t, s).Done?
    ensures var r := ExecOf(t, s);
      Lex(t, s) == ks + Lex(t, r.next) && MeansItem(ks, Tree(t, r.value))
    decreases |t| - s, 0
  {
    hide Lex, Skip, GetToken, Units, WordsIn, RedsIn, Args, Texts, RedTexts, Redirs, LineOf, MeansSimple, MeansBlock;
    if Peek(t, s, "(") {
      var g := GetToken(t, s);
      ReadPeeked(t, s, "(");
      var line := LineOf(t, g.next);
      var inner := LineMeans(t, g.next);
      var h := GetToken(t, line.next);
      ReadPeeked(t, line.next, ")");
      var reds := RedirsMean(t, h.next);
      TreeWrap(t, line.value, Redirs(t, h.next).value);
      var rest := Lex(t, ExecOf(t, s).next);
      ks := [Sym('(')] + inner + [Sym(')')] + reds;
      assert ks + rest == [Sym('(')] + (inner + ([Sym(')')] + (reds + rest)));
      BlockMeans(inner, reds, Tree(t, line.value));
    } else {
      ks := SimpleMeans(t, s);
    }
  }

  lemma BlockMeans(inner: seq<Token>, reds: seq<Token>, b: Cmd<string>)
    requires MeansLine(inner, b) && Units(reds) && WordsIn(reds) == []
    ensures MeansItem([Sym('(')] + inner + [Sym(')')] + reds, Wrap(b, RedsIn(reds)))
  {
    hide Units, WordsIn, RedsIn, MeansLine, Wrap;
    var ks := [Sym('(')] + inner + [Sym(')')] + reds;
    var i := |inner| + 1;
    assert ks[i + 1..] == reds && ks[1..i] == inner;
    assert MeansBlock(ks, i, b, Wrap(b, RedsIn(reds)));
  }

  lemma SimpleMeans(t: Text, s: nat) returns (ks: seq<Token>)
    requires s <= |t| && !Peek(t, s, "(") && ExecOf(t, s).Done?
    ensures var r := ExecOf(t, s);
      Lex(t, s) == ks + Lex(t, r.next) && MeansItem(ks, Tree(t, r.value))
  {
    hide Lex, Skip, GetToken, Units, WordsIn, RedsIn, Args, Texts, RedTexts, Redirs, Wrap;
    var reds := Redirs(t, s);
    var args := Args(t, reds.next, 0);
    var a := RedirsMean(t, s);
    var b := ArgsMean(t, reds.next, 0);
    RedTextsMore(t, reds.value, args.value.1);
    UnitsJoin(a, b);
    WordsIs(b);
    ks := a + b;
    assert [] + WordsIn(b) == WordsIn(b);
    TreeExec(t, args.value.0);
    TreeWrap(t, Exec(args.value.0), reds.value + args.value.1);
    Assoc(a, b, Lex(t, args.next));
    assert MeansSimple(ks, Tree(t, ExecOf(t, s).value));
  }

  lemma {:induction false} PipeMeans(t: Text, s: nat) returns (ks: seq<Token>)
    requires s <= |t| && PipeOf(t, s).Done?
    ensures var r := PipeOf(t, s);
      Lex(t, s) == ks + Lex(t, r.next) && MeansPipe(ks, Tree(t, r.value))
    decreases |t| - s, 1
  {
    hide Lex, Skip, GetToken, ExecOf, MeansItem;
    var left := ExecOf(t, s);
    var a := ItemMeans(t, s);
    if Peek(t, left.next, "|") {
      var g := GetToken(t, left.next);
      ReadPeeked(t, left.next, "|");
      var b := PipeMeans(t, g.next);
      var c := Tree(t, PipeOf(t, s).value);
      ks := a + [Sym('|')] + b;
      assert ks + Lex(t, PipeOf(t, s).next) == a + ([Sym('|')] + (b + Lex(t, PipeOf(t, s).next)));
      assert ks[..|a|] == a && ks[|a| + 1..] == b;
      assert SplitsPipe(ks, |a|, c);
    } else {
      ks := a;
      Head(t, left.next);
    }
  }

  lemma {:induction false} BacksMean(t: Text, s: nat, c: Cmd<Span>, a: seq<Token>) returns (ks: seq<Token>)
    requires s <= |t| && Spanned(t, c) && MeansBacks(a, Tree(t, c))
    ensures var r := Backs(t, s, c);
      a + Lex(t, s) == ks + Lex(t, r.next) && MeansBacks(ks, Tree(t, r.value))
    decreases |t| - s
  {
    hide Lex, Skip, GetToken, MeansPipe;
    if Peek(t, s, "&") {
      var g := GetToken(t, s);
      ReadPeeked(t, s, "&");
      var more := a + [Sym('&')];
      assert more[..|more| - 1] == a;
      ks := BacksMean(t, g.next, Back(c), more);
      Assoc(a, [Sym('&')], Lex(t, g.next));
    } else {
      ks := a;
      Head(t, s);
    }
  }

  lemma {:induction false} LineMeans(t: Text, s: nat) returns (ks: seq<Token>)
    requires s <= |t| && LineOf(t, s).Done?
    ensures var r := LineOf(t, s);
      Lex(t, s) == ks + Lex(t, r.next) && MeansLine(ks, Tree(t, r.value))
    decreases |t| - s, 2
  {
    hide Lex, Skip, GetToken, PipeOf, MeansPipe, Backs, MeansBacks;
    var pipe := PipeOf(t, s);
    var p := PipeMeans(t, s);
    PipeIsBacks(p, Tree(t, pipe.value));
    var a := BacksMean(t, pipe.next, pipe.value, p);
    var left := Backs(t, pipe.next, pipe.value);
    if Peek(t, left.next, ";") {
      var g := GetToken(t, left.next);
      ReadPeeked(t, left.next, ";");
      var b := LineMeans(t, g.next);
      ks := a + [Sym(';')] + b;
      assert ks + Lex(t, LineOf(t, s).next) == a + ([Sym(';')] + (b + Lex(t, LineOf(t, s).next)));
      assert ks[..|a|] == a && ks[|a| + 1..] == b;
      assert SplitsLine(ks, |a|, Tree(t, LineOf(t, s).value));
    } else {
      ks := a;
    }
  }

  lemma PipeIsBacks(ks: seq<Token>, c: Cmd<string>)
    requires MeansPipe(ks, c)
    ensures MeansBacks(ks, c)
  {
  }

  // ---- what means something is accepted ----

  // The redirections that ks begins with.
  function FirstReds(ks: seq<Token>): (n: nat)
    requires Units(ks)
    ensures n <= |ks| && Units(ks[..n]) && Units(ks[n..]) && WordsIn(ks[..n]) == []
    ensures ks[n..] == [] || ks[n..][0].Word?
  {
    if ks == [] || ks[0].Word? then
      assert ks[0..] == ks;
      0
    else
      var n := FirstReds(ks[2..]);
      assert ks[n + 2..] == ks[2..][n..];
      assert ks[..n + 2][2..] == ks[2..][..n];
      n + 2
  }

  lemma {:induction false} RedirsTaken(t: Text, s: nat, ks: seq<Token>, rest: seq<Token>)
    requires s <= |t| && Lex(t, s) == ks + rest
    requires Units(ks) && WordsIn(ks) == [] && Lead(rest) !in "<>"
    ensures var r := Redirs(t, s);
      r.Done? && RedTexts(t, r.value) == RedsIn(ks) && Lex(t, r.next) == rest
    decreases |ks|
  {
    hide Lex, Skip, GetToken, Redirs, RedTexts;
    if ks == [] {
      assert ks + rest == RedToks([]) + rest;
      RedirsEnd(t, s, rest);
    } else {
      var k, f, more := ks[0], ks[1], ks[2..] + rest;
      assert ks + rest == [k] + ([f] + more);
      PeekHead(t, s, "<>");
      Taken(t, s, k, [f] + more);
      Taken(t, GetToken(t, s).next, f, more);
      RedirsTaken(t, GetToken(t, GetToken(t, s).next).next, ks[2..], rest);
      RedirsStep(t, s);
    }
  }

  lemma {:induction false} ArgsTaken(t: Text, s: nat, argc: nat, ks: seq<Token>, rest: seq<Token>)
    requires s <= |t| && Lex(t, s) == ks + rest && Stops(rest)
    requires Units(ks) && (ks == [] || ks[0].Word?) && argc + |WordsIn(ks)| < MAXARGS
    ensures var r := Args(t, s, argc);
      && r.Done? && Texts(t, r.value.0) == WordsIn(ks) && RedTexts(t, r.value.1) == RedsIn(ks)
      && Lex(t, r.next) == rest
    decreases |ks|
  {
    hide Lex, Skip, GetToken, Args, Texts, RedTexts, Redirs, Units, WordsIn, RedsIn;
    if ks == [] {
      NoUnits();
      assert ks + rest == WordToks([]) + (RedToks([]) + rest);
      ArgsEnd(t, s, argc, rest);
    } else {
      var a, b := WordSplit(ks);
      var more := a + (b + rest);
      assert ks + rest == [ks[0]] + more;
      WordStarts(ks[0], more);
      PeekHead(t, s, "|)&;");
      Taken(t, s, ks[0], more);
      AfterReds(b, rest);
      RedirsTaken(t, GetToken(t, s).next, a, b + rest);
      var reds := Redirs(t, GetToken(t, s).next);
      ArgsTaken(t, reds.next, argc + 1, b, rest);
      ArgsStep(t, s, argc);
      RedTextsMore(t, reds.value, Args(t, reds.next, argc + 1).value.1);
    }
  }

  lemma NoUnits()
    ensures Units([]) && WordsIn([]) == [] && RedsIn([]) == []
  {
  }

  lemma WordStarts(k: Token, more: seq<Token>)
    requires k.Word?
    ensures Lead([k] + more) == 'a'
  {
  }

  // A word, the redirections behind it, and the rest from the next word on.
  lemma WordSplit(ks: seq<Token>) returns (a: seq<Token>, b: seq<Token>)
    requires Units(ks) && ks != [] && ks[0].Word?
    ensures ks == [ks[0]] + (a + b) && |b| < |ks| && Units(a) && Units(b) && (b == [] || b[0].Word?)
    ensures WordsIn(a) == [] && WordsIn(ks) == [ks[0].text] + WordsIn(b) && RedsIn(ks) == RedsIn(a) + RedsIn(b)
  {
    var n := FirstReds(ks[1..]);
    a, b := ks[1..][..n], ks[1..][n..];
    assert ks[1..] == a + b;
    UnitsJoin(a, b);
    assert [] + WordsIn(b) == WordsIn(b);
  }

  lemma AfterReds(b: seq<Token>, rest: seq<Token>)
    requires Stops(rest) && (b == [] || b[0].Word?)
    ensures Lead(b + rest) !in "<>"
  {
  }

  lemma SimpleTaken(t: Text, s: nat, ks: seq<Token>, c: Cmd<string>, rest: seq<Token>)
    requires s <= |t| && Lex(t, s) == ks + rest && Stops(rest) && MeansSimple(ks, c)
    ensures var r := ExecOf(t, s);
      r.Done? && Tree(t, r.value) == c && Lex(t, r.next) == rest
  {
    hide Lex, Skip, GetToken, Redirs, Args, Tree, Wrap, Units, WordsIn, RedsIn;
    SimpleStarts(ks, rest);
    PeekHead(t, s, "(");
    var n := FirstReds(ks);
    var a, b := ks[..n], ks[n..];
    assert ks == a + b;
    UnitsJoin(a, b);
    Assoc(a, b, rest);
    AfterReds(b, rest);
    RedirsTaken(t, s, a, b + rest);
    var reds := Redirs(t, s);
    assert [] + WordsIn(b) == WordsIn(b);
    ArgsTaken(t, reds.next, 0, b, rest);
    var args := Args(t, reds.next, 0);
    RedTextsMore(t, reds.value, args.value.1);
    TreeWrap(t, Exec(args.value.0), reds.value + args.value.1);
    TreeExec(t, args.value.0);
  }

  lemma SimpleStarts(ks: seq<Token>, rest: seq<Token>)
    requires Units(ks) && Stops(rest)
    ensures Lead(ks + rest) != '('
  {
  }

  lemma {:induction false} ItemTaken(t: Text, s: nat, ks: seq<Token>, c: Cmd<string>, rest: seq<Token>)
    requires s <= |t| && Lex(t, s) == ks + rest && Stops(rest) && MeansItem(ks, c)
    ensures var r := ExecOf(t, s);
      r.Done? && Tree(t, r.value) == c && Lex(t, r.next) == rest
    decreases |ks|, 1
  {
    hide Lex, Skip, GetToken, Redirs, RedTexts, Tree, Wrap, Units, WordsIn, RedsIn, LineOf, MeansSimple;
    if MeansSimple(ks, c) {
      SimpleTaken(t, s, ks, c, rest);
    } else {
      var i: nat, b :| MeansBlock(ks, i, b, c);
      var inner, reds := ks[1..i], ks[i + 1..];
      assert ks + rest == [Sym('(')] + (inner + ([Sym(')')] + (reds + rest)));
      PeekHead(t, s, "(");
      Taken(t, s, Sym('('), inner + ([Sym(')')] + (reds + rest)));
      var open := GetToken(t, s);
      LineTaken(t, open.next, inner, b, [Sym(')')] + (reds + rest));
      var line := LineOf(t, open.next);
      PeekHead(t, line.next, ")");
      Taken(t, line.next, Sym(')'), reds + rest);
      RedirsTaken(t, GetToken(t, line.next).next, reds, rest);
      TreeWrap(t, line.value, Redirs(t, GetToken(t, line.next).next).value);
    }
  }

  lemma {:induction false} PipeTaken(t: Text, s: nat, ks: seq<Token>, c: Cmd<string>, rest: seq<Token>)
    requires s <= |t| && Lex(t, s) == ks + rest && Stops(rest) && Lead(rest) != '|' && MeansPipe(ks, c)
    ensures var r := PipeOf(t, s);
      r.Done? && Tree(t, r.value) == c && Lex(t, r.next) == rest
    decreases |ks|, 3
  {
    hide Lex, Skip, GetToken, ExecOf, MeansItem;
    if MeansItem(ks, c) {
      ItemTaken(t, s, ks, c, rest);
      var left := ExecOf(t, s);
      PeekHead(t, left.next, "|");
      Head(t, left.next);
    } else {
      var i: nat :| SplitsPipe(ks, i, c);
      var more := ks[i + 1..] + rest;
      assert ks + rest == ks[..i] + ([Sym('|')] + more);
      ItemTaken(t, s, ks[..i], c.left, [Sym('|')] + more);
      var left := ExecOf(t, s);
      PeekHead(t, left.next, "|");
      Taken(t, left.next, Sym('|'), more);
      PipeTaken(t, GetToken(t, left.next).next, ks[i + 1..], c.right, rest);
    }
  }

  // Behind ks the loop over & stands at s' with the tree of c.
  lemma {:induction false} BacksTaken(t: Text, s: nat, ks: seq<Token>, c: Cmd<string>, rest: seq<Token>)
      returns (s': nat, c': Cmd<Span>)
    requires s <= |t| && Lex(t, s) == ks + rest && Stops(rest) && Lead(rest) != '|' && MeansBacks(ks, c)
    ensures s' <= |t| && Spanned(t, c') && Tree(t, c') == c && Lex(t, s') == rest
    ensures var r := PipeOf(t, s);
      r.Done? && Backs(t, r.next, r.value) == Backs(t, s', c')
    decreases |ks|, 4
  {
    hide Lex, Skip, GetToken, PipeOf, MeansPipe;
    if MeansPipe(ks, c) {
      PipeTaken(t, s, ks, c, rest);
      s', c' := PipeOf(t, s).next, PipeOf(t, s).value;
    } else {
      var front := ks[..|ks| - 1];
      assert ks + rest == front + ([Sym('&')] + rest);
      s', c' := BacksTaken(t, s, front, c.cmd, [Sym('&')] + rest);
      PeekHead(t, s', "&");
      Taken(t, s', Sym('&'), rest);
      s', c' := GetToken(t, s').next, Back(c');
    }
  }

  lemma {:induction false} LineTaken(t: Text, s: nat, ks: seq<Token>, c: Cmd<string>, rest: seq<Token>)
    requires s <= |t| && Lex(t, s) == ks + rest && (rest == [] || Lead(rest) == ')') && MeansLine(ks, c)
    ensures var r := LineOf(t, s);
      r.Done? && Tree(t, r.value) == c && Lex(t, r.next) == rest
    decreases |ks|, 6
  {
    hide Lex, Skip, GetToken, PipeOf, MeansBacks;
    if MeansBacks(ks, c) {
      var s', c' := BacksTaken(t, s, ks, c, rest);
      LineStands(t, s, s', c', rest);
    } else {
      var i: nat :| SplitsLine(ks, i, c);
      var more := ks[i + 1..] + rest;
      assert ks + rest == ks[..i] + ([Sym(';')] + more);
      var s', c' := BacksTaken(t, s, ks[..i], c.left, [Sym(';')] + more);
      LineStands(t, s, s', c', [Sym(';')] + more);
      var left := Skip(t, s');
      Taken(t, left, Sym(';'), more);
      LineTaken(t, GetToken(t, left).next, ks[i + 1..], c.right, rest);
    }
  }

  // No & is next: the loop ends, and a ; is looked for.
  lemma LineStands(t: Text, s: nat, s': nat, c': Cmd<Span>, rest: seq<Token>)
    requires s <= |t| && s' <= |t| && Spanned(t, c') && Lex(t, s') == rest && Lead(rest) != '&'
    requires var r := PipeOf(t, s);
      r.Done? && Backs(t, r.next, r.value) == Backs(t, s', c')
    ensures var r := PipeOf(t, s);
      Backs(t, r.next, r.value) == Done(c', Skip(t, s')) && Lex(t, Skip(t, s')) == rest
    ensures Peek(t, Skip(t, s'), ";") <==> Lead(rest) == ';'
  {
    PeekHead(t, s', "&");
    Head(t, s');
    hide Lex, Skip, GetToken, PipeOf;
    PeekHead(t, Skip(t, s'), ";");
  }

  // ---- exactly the lines that mean something ----

  /** The parser makes the tree c of a line if and only if the line's tokens mean c; a line that
      means nothing panics. */
  lemma ParsesIff(t: Text, c: Cmd<string>)
    ensures MeansLine(Lex(t, 0), c) <==> CmdOf(t).Done? && Tree(t, CmdOf(t).value) == c
  {
    hide Lex, Skip, GetToken, LineOf, MeansLine, Tree;
    if MeansLine(Lex(t, 0), c) {
      assert Lex(t, 0) == Lex(t, 0) + [];
      LineTaken(t, 0, Lex(t, 0), c, []);
      Head(t, LineOf(t, 0).next);
      AtEnd(t, LineOf(t, 0).next);
    }
    if CmdOf(t).Done? {
      var ks := LineMeans(t, 0);
      AtEnd(t, LineOf(t, 0).next);
      assert ks + [] == ks;
    }
  }

  lemma AtEnd(t: Text, s: nat)
    requires s <= |t|
    ensures Lex(t, s) == [] <==> Skip(t, s) == |t|
  {
    Head(t, s);
  }

  /** A line is refused exactly if it has no meaning. */
  lemma RefusedIff(t: Text)
    ensures CmdOf(t).Panic? <==> forall c :: !MeansLine(Lex(t, 0), c)
  {
    hide Lex, CmdOf, MeansLine, Tree;
    forall c
      ensures MeansLine(Lex(t, 0), c) ==> CmdOf(t).Done?
    {
      ParsesIff(t, c);
    }
    if CmdOf(t).Done? {
      ParsesIff(t, Tree(t, CmdOf(t).value));
    }
  }

  /** And no line has two meanings. */
  lemma OneMeaning(t: Text, c: Cmd<string>, d: Cmd<string>)
    requires MeansLine(Lex(t, 0), c)
    ensures CmdOf(t).Done? && (MeansLine(Lex(t, 0), d) ==> d == c)
  {
    hide Lex, CmdOf, MeansLine;
    ParsesIff(t, c);
    ParsesIff(t, d);
  }
}
