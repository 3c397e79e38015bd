// xv6-x86/sh.c: a command tree written out as tokens, with parentheses only
// where the grammar needs them, is read back by the parser, whatever blanks
// stand between the tokens.

module ShellRoundTrip {
  import opened ShellGrammar

  datatype Token = Sym(kind: char) | Word(text: string)

  // ---- the tokens of a text ----

  function Lex(t: Text, s: nat): seq<Token>
    requires s <= |t|
    decreases |t| - s
  {
    var k := GetToken(t, s);
    if k.kind == NUL then [] else [TokenOf(t, k)] + Lex(t, k.next)
  }

  function TokenOf(t: Text, k: Lexed): Token
    requires k.span.q <= k.span.eq <= |t|
  {
    if k.kind == 'a' then Word(t[k.span.q..k.span.eq]) else Sym(k.kind)
  }

  predicate WordText(w: string) {
    w != "" && forall i :: 0 <= i < |w| ==> WordChar(w[i])
  }

  // The character that peek sees at the head of tokens ts.
  function Lead(ts: seq<Token>): char {
    if ts == [] then NUL
    else if ts[0].Word? then 'a'
    else if ts[0].kind == '+' then '>'
    else ts[0].kind
  }

  // What the parser learns about position s from the tokens there.
  lemma Head(t: Text, s: nat)
    requires s <= |t|
    ensures Lex(t, s) == [] <==> GetToken(t, s).kind == NUL
    ensures var k := GetToken(t, s);
      k.kind != NUL ==> Lex(t, s) == [TokenOf(t, k)] + Lex(t, k.next)
    ensures Lead(Lex(t, s)) != 'a' ==> Lead(Lex(t, s)) == At(t, Skip(t, s))
    ensures Lead(Lex(t, s)) == 'a' ==> WordChar(At(t, Skip(t, s)))
    ensures Lex(t, Skip(t, s)) == Lex(t, s)
  {
    KindOf(t, s);
    SameToken(t, s);
    hide Skip, GetToken;
  }

  lemma KindOf(t: Text, s: nat)
    requires s <= |t|
    ensures var k, c := GetToken(t, s).kind, At(t, Skip(t, s));
      k == (if WordChar(c) then 'a' else if k == '+' then '+' else c) && (k == '+' ==> c == '>')
  {
    hide Skip, WordEnd;
  }

  lemma SameToken(t: Text, s: nat)
    requires s <= |t|
    ensures GetToken(t, Skip(t, s)) == GetToken(t, s)
  {
    hide Skip, TokenAt;
    SkipTwice(t, s);
  }

  lemma SkipTwice(t: Text, s: nat)
    requires s <= |t|
    ensures Skip(t, Skip(t, s)) == Skip(t, s)
    decreases |t| - s
  {
  }

  lemma PeekHead(t: Text, s: nat, toks: string)
    requires s <= |t| && forall i :: 0 <= i < |toks| ==> Symbol(toks[i])
    ensures Peek(t, s, toks) <==> Lead(Lex(t, s)) in toks
  {
    Head(t, s);
    hide Lex, Skip, GetToken;
  }

  // The next token taken: a symbol, or a word.
  lemma Taken(t: Text, s: nat, k: Token, rest: seq<Token>)
    requires s <= |t| && Lex(t, s) == [k] + rest
    ensures var g := GetToken(t, s);
      && g.kind != NUL && Lex(t, g.next) == rest
      && (k.Sym? ==> g.kind == k.kind && g.kind != 'a')
      && (k.Word? ==> g.kind == 'a' && Str(t, g.span) == k.text)
  {
    Head(t, s);
    hide Lex, Skip, GetToken;
    var g := GetToken(t, s);
    assert ([TokenOf(t, g)] + Lex(t, g.next))[1..] == Lex(t, g.next);
    assert ([k] + rest)[1..] == rest;
    assert ([k] + rest)[0] == k;
  }

  // ---- trees of strings ----

  function Str(t: Text, w: Span): string {
    if w.q <= w.eq <= |t| then t[w.q..w.eq] else ""
  }

  function Texts(t: Text, ws: seq<Span>): seq<string> {
    if ws == [] then [] else [Str(t, ws[0])] + Texts(t, ws[1..])
  }

  function RedTexts(t: Text, rs: seq<Red<Span>>): seq<Red<string>> {
    if rs == [] then [] else [Red(Str(t, rs[0].file), rs[0].mode, rs[0].fd)] + RedTexts(t, rs[1..])
  }

  // A tree of spans read as a tree of strings.
  function Tree(t: Text, c: Cmd<Span>): Cmd<string> {
    match c
    case Exec(argv) => Exec(Texts(t, argv))
    case Redir(x, f, m, fd) => Redir(Tree(t, x), Str(t, f), m, fd)
    case Pipe(l, r) => Pipe(Tree(t, l), Tree(t, r))
    case List(l, r) => List(Tree(t, l), Tree(t, r))
    case Back(x) => Back(Tree(t, x))
  }

  predicate LegalRed<T>(r: Red<T>) {
    (r.mode == O_RDONLY && r.fd == 0) || (r.mode == O_WRONLY_CREATE && r.fd == 1)
  }

  /** The trees the parser can build: at most nine words to a command, and the
      two redirections there are. */
  predicate Legal(c: Cmd<string>) {
    match c
    case Exec(argv) => |argv| < MAXARGS && forall i :: 0 <= i < |argv| ==> WordText(argv[i])
    case Redir(x, f, m, fd) => Legal(x) && WordText(f) && LegalRed(Red(f, m, fd))
    case Pipe(l, r) => Legal(l) && Legal(r)
    case List(l, r) => Legal(l) && Legal(r)
    case Back(x) => Legal(x)
  }

  // ---- writing a tree ----

  // The level of the grammar at which a tree is written without parentheses.
  function Own(c: Cmd<string>): nat {
    if c.List? then 0 else if c.Back? then 1 else if c.Pipe? then 2 else 3
  }

  // How far level k is above it, round the levels and through parentheses.
  function Rank(c: Cmd<string>, k: nat): nat
    requires k < 4
  {
    (Own(c) + 4 - k) % 4
  }

  function WordToks(ws: seq<string>): seq<Token> {
    if ws == [] then [] else [Word(ws[0])] + WordToks(ws[1..])
  }

  function RedToks(rs: seq<Red<string>>): seq<Token> {
    if rs == [] then [] else RedTok(rs[0]) + RedToks(rs[1..])
  }

  function RedTok(r: Red<string>): seq<Token> {
    [Sym(if r.fd == 0 then '<' else '>'), Word(r.file)]
  }

  function LineToks(c: Cmd<string>): seq<Token>
    decreases c, Rank(c, 0)
  {
    if c.List? then BackToks(c.left) + ([Sym(';')] + LineToks(c.right)) else BackToks(c)
  }

  function BackToks(c: Cmd<string>): seq<Token>
    decreases c, Rank(c, 1)
  {
    if c.Back? then BackToks(c.cmd) + [Sym('&')] else PipeToks(c)
  }

  function PipeToks(c: Cmd<string>): seq<Token>
    decreases c, Rank(c, 2)
  {
    if c.Pipe? then ItemToks(c.left) + ([Sym('|')] + PipeToks(c.right)) else ItemToks(c)
  }

  function ItemToks(c: Cmd<string>): seq<Token>
    decreases c, Rank(c, 3)
  {
    match c
    case Exec(argv) => WordToks(argv)
    case Redir(x, f, m, fd) => ItemToks(x) + RedTok(Red(f, m, fd))
    case _ => [Sym('(')] + (LineToks(c) + [Sym(')')])
  }

  // ---- a command below its redirections ----

  function Base(c: Cmd<string>): (b: Cmd<string>)
    ensures !b.Redir? && (b == c || b < c)
  {
    if c.Redir? then Base(c.cmd) else c
  }

  function RedsOf(c: Cmd<string>): seq<Red<string>> {
    if c.Redir? then RedsOf(c.cmd) + [Red(c.file, c.mode, c.fd)] else []
  }

  predicate LegalReds(rs: seq<Red<string>>) {
    forall i :: 0 <= i < |rs| ==> LegalRed(rs[i])
  }

  lemma Assoc<T>(a: seq<T>, b: seq<T>, c: seq<T>)
    ensures (a + b) + c == a + (b + c)
  {
  }

  lemma {:induction false} RedToksMore(rs: seq<Red<string>>, r: Red<string>)
    ensures RedToks(rs + [r]) == RedToks(rs) + RedTok(r)
  {
    if rs == [] {
      assert RedToks([r]) == RedTok(r) + [];
    } else {
      assert (rs + [r])[0] == rs[0] && (rs + [r])[1..] == rs[1..] + [r];
      RedToksMore(rs[1..], r);
      Assoc(RedTok(rs[0]), RedToks(rs[1..]), RedTok(r));
    }
  }

  lemma {:induction false} ItemSplit(c: Cmd<string>)
    requires Legal(c)
    ensures ItemToks(c) == ItemToks(Base(c)) + RedToks(RedsOf(c))
    ensures Wrap(Base(c), RedsOf(c)) == c
    ensures Legal(Base(c)) && LegalReds(RedsOf(c))
    decreases c
  {
    if c.Redir? {
      ItemSplit(c.cmd);
      var r := Red(c.file, c.mode, c.fd);
      RedToksMore(RedsOf(c.cmd), r);
      Assoc(ItemToks(Base(c)), RedToks(RedsOf(c.cmd)), RedTok(r));
      assert RedsOf(c)[..|RedsOf(c)| - 1] == RedsOf(c.cmd);
    } else {
      assert RedToks(RedsOf(c)) == [];
    }
  }

  lemma {:induction false} TreeWrap(t: Text, c: Cmd<Span>, rs: seq<Red<Span>>)
    ensures Tree(t, Wrap(c, rs)) == Wrap(Tree(t, c), RedTexts(t, rs))
    decreases |rs|
  {
    if rs != [] {
      var front, r := rs[..|rs| - 1], rs[|rs| - 1];
      TreeWrap(t, c, front);
      assert rs == front + [r];
      RedTextsMore(t, front, [r]);
      assert RedTexts(t, [r])[1..] == RedTexts(t, []);
      var all := RedTexts(t, rs);
      assert all == RedTexts(t, front) + [Red(Str(t, r.file), r.mode, r.fd)];
      assert all[..|all| - 1] == RedTexts(t, front);
    }
  }

  lemma {:induction false} RedTextsMore(t: Text, a: seq<Red<Span>>, b: seq<Red<Span>>)
    ensures RedTexts(t, a + b) == RedTexts(t, a) + RedTexts(t, b)
    decreases |a|
  {
    if a == [] {
      assert a + b == b;
    } else {
      assert (a + b)[0] == a[0] && (a + b)[1..] == a[1..] + b;
      RedTextsMore(t, a[1..], b);
      Assoc([Red(Str(t, a[0].file), a[0].mode, a[0].fd)], RedTexts(t, a[1..]), RedTexts(t, b));
    }
  }

  // ---- reading it back ----

  // One round of the loop that reads redirections.
  lemma RedirsStep(t: Text, s: nat)
    requires s <= |t| && Peek(t, s, "<>")
    requires var f := GetToken(t, GetToken(t, s).next);
      f.kind == 'a' && Redirs(t, f.next).Done?
    ensures var tok := GetToken(t, s);
      var f := GetToken(t, tok.next);
      var r := Redirs(t, s);
      && r.Done? && r.next == Redirs(t, f.next).next
      && RedTexts(t, r.value)
         == [Red(Str(t, f.span), RedOf(tok.kind, f.span).mode, RedOf(tok.kind, f.span).fd)]
            + RedTexts(t, Redirs(t, f.next).value)
  {
    hide Skip, GetToken;
    var r := Redirs(t, s);
    var f := GetToken(t, GetToken(t, s).next);
    assert r.value[1..] == Redirs(t, f.next).value;
  }

  lemma {:induction false} RedirsRead(t: Text, s: nat, rs: seq<Red<string>>, rest: seq<Token>)
    requires s <= |t| && Lex(t, s) == RedToks(rs) + rest
    requires LegalReds(rs) && Lead(rest) !in "<>"
    ensures var r := Redirs(t, s);
      r.Done? && RedTexts(t, r.value) == rs && Lex(t, r.next) == rest
    decreases |rs|
  {
    hide Lex, Skip, GetToken, Redirs, RedTexts;
    if rs == [] {
      RedirsEnd(t, s, rest);
    } else {
      var f := Word(rs[0].file);
      var sym := Sym(if rs[0].fd == 0 then '<' else '>');
      var more := RedToks(rs[1..]) + rest;
      assert RedToks(rs) + rest == [sym] + ([f] + more);
      PeekHead(t, s, "<>");
      Taken(t, s, sym, [f] + more);
      Taken(t, GetToken(t, s).next, f, more);
      RedirsRead(t, GetToken(t, GetToken(t, s).next).next, rs[1..], rest);
      RedirsStep(t, s);
      assert rs == [rs[0]] + rs[1..];
    }
  }

  lemma RedirsEnd(t: Text, s: nat, rest: seq<Token>)
    requires s <= |t| && Lex(t, s) == RedToks([]) + rest && Lead(rest) !in "<>"
    ensures var r := Redirs(t, s);
      r.Done? && RedTexts(t, r.value) == [] && Lex(t, r.next) == rest
  {
    hide Lex, Skip, GetToken;
    assert RedToks([]) + rest == rest;
    PeekHead(t, s, "<>");
    Head(t, s);
  }

  // What may follow a command: nothing, or a symbol that ends it.
  predicate Stops(rest: seq<Token>) {
    Lead(rest) == NUL || Lead(rest) in "|)&;"
  }

  lemma {:induction false} ArgsRead(t: Text, s: nat, ws: seq<string>, argc: nat, rs: seq<Red<string>>,
                                    rest: seq<Token>)
    requires s <= |t| && Lex(t, s) == WordToks(ws) + (RedToks(rs) + rest)
    requires argc + |ws| < MAXARGS && LegalReds(rs) && Stops(rest)
    requires ws == [] ==> rs == []
    ensures var r := Args(t, s, argc);
      r.Done? && Texts(t, r.value.0) == ws && RedTexts(t, r.value.1) == rs && Lex(t, r.next) == rest
    decreases |ws|
  {
    hide Lex, Skip, GetToken, Args, Texts, RedTexts, Redirs, RedToks, WordToks;
    if ws == [] {
      ArgsEnd(t, s, argc, rest);
    } else {
      var reds := if |ws| == 1 then rs else [];
      var later := if |ws| == 1 then [] else rs;
      var more := WordToks(ws[1..]) + (RedToks(later) + rest);
      ArgHead(t, s, ws, rs, reds, more, rest);
      var after := Redirs(t, GetToken(t, s).next);
      ArgsRead(t, after.next, ws[1..], argc + 1, later, rest);
      ArgsStep(t, s, argc);
      RedTextsMore(t, after.value, Args(t, after.next, argc + 1).value.1);
      Parts(ws, rs, reds, later);
    }
  }

  lemma Parts(ws: seq<string>, rs: seq<Red<string>>, reds: seq<Red<string>>, later: seq<Red<string>>)
    requires ws != [] && ((reds == [] && later == rs) || (reds == rs && later == []))
    ensures [ws[0]] + ws[1..] == ws && reds + later == rs
  {
  }

  // The first word, and the redirections behind it.
  lemma ArgHead(t: Text, s: nat, ws: seq<string>, rs: seq<Red<string>>, reds: seq<Red<string>>, more: seq<Token>,
      rest: seq<Token>)
    requires s <= |t| && ws != [] && Lex(t, s) == WordToks(ws) + (RedToks(rs) + rest) && LegalReds(rs) && Stops(rest)
    requires reds == if |ws| == 1 then rs else []
    requires more == WordToks(ws[1..]) + (RedToks(if |ws| == 1 then [] else rs) + rest)
    ensures !Peek(t, s, "|)&;") && GetToken(t, s).kind == 'a' && Str(t, GetToken(t, s).span) == ws[0]
    ensures var after := Redirs(t, GetToken(t, s).next);
      after.Done? && RedTexts(t, after.value) == reds && Lex(t, after.next) == more
  {
    hide Lex, Skip, GetToken, Args, Texts, RedTexts, Redirs, RedToks, WordToks;
    ArgTokens(ws, rs, rest);
    PeekHead(t, s, "|)&;");
    Taken(t, s, Word(ws[0]), RedToks(reds) + more);
    RedirsRead(t, GetToken(t, s).next, reds, more);
  }

  lemma ArgsEnd(t: Text, s: nat, argc: nat, rest: seq<Token>)
    requires s <= |t| && Lex(t, s) == WordToks([]) + (RedToks([]) + rest) && Stops(rest)
    ensures var r := Args(t, s, argc);
      r.Done? && Texts(t, r.value.0) == [] && RedTexts(t, r.value.1) == [] && Lex(t, r.next) == rest
  {
    hide Lex, Skip, GetToken;
    assert WordToks([]) + (RedToks([]) + rest) == rest;
    PeekHead(t, s, "|)&;");
    Head(t, s);
    Head(t, |t|);
  }

  // One round of the loop that reads words.
  lemma ArgsStep(t: Text, s: nat, argc: nat)
    requires s <= |t| && !Peek(t, s, "|)&;") && GetToken(t, s).kind == 'a' && argc + 1 < MAXARGS
    requires var reds := Redirs(t, GetToken(t, s).next);
      reds.Done? && Args(t, reds.next, argc + 1).Done?
    ensures var tok := GetToken(t, s);
      var reds := Redirs(t, tok.next);
      var tail := Args(t, reds.next, argc + 1);
      var r := Args(t, s, argc);
      && r.Done? && r.next == tail.next
      && Texts(t, r.value.0) == [Str(t, tok.span)] + Texts(t, tail.value.0)
      && r.value.1 == reds.value + tail.value.1
  {
    hide Skip, GetToken, Redirs;
    var r := Args(t, s, argc);
    var tail := Args(t, Redirs(t, GetToken(t, s).next).next, argc + 1);
    assert r.value.0 == [GetToken(t, s).span] + tail.value.0 && r.value.0[1..] == tail.value.0;
  }

  // The redirections are read after the last word.
  lemma ArgTokens(ws: seq<string>, rs: seq<Red<string>>, rest: seq<Token>)
    requires ws != [] && Stops(rest)
    ensures var reds := if |ws| == 1 then rs else [];
      var later := if |ws| == 1 then [] else rs;
      var more := WordToks(ws[1..]) + (RedToks(later) + rest);
      && WordToks(ws) + (RedToks(rs) + rest) == [Word(ws[0])] + (RedToks(reds) + more)
      && Lead(more) !in "<>"
  {
    var tail := RedToks(rs) + rest;
    Assoc([Word(ws[0])], WordToks(ws[1..]), tail);
    if |ws| == 1 {
      assert WordToks(ws[1..]) + tail == tail;
      assert WordToks(ws[1..]) + (RedToks([]) + rest) == rest;
    } else {
      assert WordToks(ws[1..])[0] == Word(ws[1]);
    }
  }

  lemma {:induction false} ItemRead(t: Text, s: nat, c: Cmd<string>, rest: seq<Token>)
    requires s <= |t| && Legal(c) && Lex(t, s) == ItemToks(c) + rest && Stops(rest)
    ensures var r := ExecOf(t, s);
      r.Done? && Tree(t, r.value) == c && Lex(t, r.next) == rest
    decreases c, Rank(c, 3)
  {
    hide Lex, Skip, GetToken;
    ItemSplit(c);
    var b, rs := Base(c), RedsOf(c);
    Assoc(ItemToks(b), RedToks(rs), rest);
    PeekHead(t, s, "(");
    if b.Exec? {
      SimpleRead(t, s, b.argv, rs, rest);
    } else {
      var inner := LineToks(b);
      var after := RedToks(rs) + rest;
      Assoc([Sym('(')], inner + [Sym(')')], after);
      Assoc(inner, [Sym(')')], after);
      Taken(t, s, Sym('('), inner + ([Sym(')')] + after));
      var open := GetToken(t, s);
      LineRead(t, open.next, b, [Sym(')')] + after);
      var line := LineOf(t, open.next);
      PeekHead(t, line.next, ")");
      Taken(t, line.next, Sym(')'), after);
      RedirsRead(t, GetToken(t, line.next).next, rs, rest);
      TreeWrap(t, line.value, Redirs(t, GetToken(t, line.next).next).value);
    }
  }

  // Words and redirections without parentheses.
  lemma SimpleRead(t: Text, s: nat, ws: seq<string>, rs: seq<Red<string>>, rest: seq<Token>)
    requires s <= |t| && Legal(Exec(ws)) && LegalReds(rs) && Stops(rest)
    requires Lex(t, s) == WordToks(ws) + (RedToks(rs) + rest)
    ensures var r := ExecOf(t, s);
      r.Done? && Tree(t, r.value) == Wrap(Exec(ws), rs) && Lex(t, r.next) == rest
  {
    hide Lex, Skip, GetToken, Redirs, Args, Tree, Wrap;
    PeekHead(t, s, "(");
    var first := if ws == [] then rs else [];
    var later := if ws == [] then [] else rs;
    var more := WordToks(ws) + (RedToks(later) + rest);
    FirstTokens(ws, rs, rest);
    RedirsRead(t, s, first, more);
    var reds := Redirs(t, s);
    ArgsRead(t, reds.next, ws, 0, later, rest);
    var args := Args(t, reds.next, 0);
    RedTextsMore(t, reds.value, args.value.1);
    TreeWrap(t, Exec(args.value.0), reds.value + args.value.1);
    TreeExec(t, args.value.0);
    assert first + later == rs;
  }

  lemma TreeExec(t: Text, argv: seq<Span>)
    ensures Tree(t, Exec(argv)) == Exec(Texts(t, argv))
  {
  }

  lemma FirstTokens(ws: seq<string>, rs: seq<Red<string>>, rest: seq<Token>)
    requires Stops(rest)
    ensures var first := if ws == [] then rs else [];
      var later := if ws == [] then [] else rs;
      var more := WordToks(ws) + (RedToks(later) + rest);
      && WordToks(ws) + (RedToks(rs) + rest) == RedToks(first) + more
      && Lead(more) !in "<>" && Lead(WordToks(ws) + (RedToks(rs) + rest)) != '('
  {
    var tail := RedToks(rs) + rest;
    if ws == [] {
      assert WordToks(ws) + tail == tail;
      assert WordToks(ws) + (RedToks([]) + rest) == rest;
    } else {
      assert WordToks(ws)[0] == Word(ws[0]);
      assert RedToks([]) + (WordToks(ws) + tail) == WordToks(ws) + tail;
    }
  }

  lemma {:induction false} PipeRead(t: Text, s: nat, c: Cmd<string>, rest: seq<Token>)
    requires s <= |t| && Legal(c) && Lex(t, s) == PipeToks(c) + rest
    requires Stops(rest) && Lead(rest) != '|'
    ensures var r := PipeOf(t, s);
      r.Done? && Tree(t, r.value) == c && Lex(t, r.next) == rest
    decreases c, Rank(c, 2)
  {
    hide Lex, Skip, GetToken, ExecOf;
    if c.Pipe? {
      var more := [Sym('|')] + (PipeToks(c.right) + rest);
      Assoc(ItemToks(c.left), [Sym('|')] + PipeToks(c.right), rest);
      Assoc([Sym('|')], PipeToks(c.right), rest);
      ItemRead(t, s, c.left, more);
      var left := ExecOf(t, s);
      PeekHead(t, left.next, "|");
      Taken(t, left.next, Sym('|'), PipeToks(c.right) + rest);
      PipeRead(t, GetToken(t, left.next).next, c.right, rest);
    } else {
      ItemRead(t, s, c, rest);
      var left := ExecOf(t, s);
      PeekHead(t, left.next, "|");
      Head(t, left.next);
    }
  }

  // After c, the loop over & stands at s' with the tree of c.
  lemma {:induction false} BackRead(t: Text, s: nat, c: Cmd<string>, rest: seq<Token>)
      returns (s': nat, c': Cmd<Span>)
    requires s <= |t| && Legal(c) && Lex(t, s) == BackToks(c) + rest
    requires Stops(rest) && Lead(rest) != '|'
    ensures s' <= |t| && Spanned(t, c') && Tree(t, c') == c && Lex(t, s') == rest
    ensures var r := PipeOf(t, s);
      r.Done? && Backs(t, r.next, r.value) == Backs(t, s', c')
    decreases c, Rank(c, 1)
  {
    hide Lex, Skip, GetToken, PipeOf;
    if c.Back? {
      Assoc(BackToks(c.cmd), [Sym('&')], rest);
      s', c' := BackRead(t, s, c.cmd, [Sym('&')] + rest);
      PeekHead(t, s', "&");
      Taken(t, s', Sym('&'), rest);
      s', c' := GetToken(t, s').next, Back(c');
    } else {
      PipeRead(t, s, c, rest);
      s', c' := PipeOf(t, s).next, PipeOf(t, s).value;
    }
  }

  lemma {:induction false} LineRead(t: Text, s: nat, c: Cmd<string>, rest: seq<Token>)
    requires s <= |t| && Legal(c) && Lex(t, s) == LineToks(c) + rest
    requires rest == [] || Lead(rest) == ')'
    ensures var r := LineOf(t, s);
      r.Done? && Tree(t, r.value) == c && Lex(t, r.next) == rest
    decreases c, Rank(c, 0)
  {
    hide Lex, Skip, GetToken, PipeOf;
    var follow := if c.List? then [Sym(';')] + (LineToks(c.right) + rest) else rest;
    var head := if c.List? then c.left else c;
    if c.List? {
      Assoc(BackToks(c.left), [Sym(';')] + LineToks(c.right), rest);
      Assoc([Sym(';')], LineToks(c.right), rest);
    }
    var s', c' := BackRead(t, s, head, follow);
    PeekHead(t, s', "&");
    Head(t, s');
    var left := Done(c', Skip(t, s'));
    PeekHead(t, left.next, ";");
    if c.List? {
      Taken(t, left.next, Sym(';'), LineToks(c.right) + rest);
      LineRead(t, GetToken(t, left.next).next, c.right, rest);
    }
  }

  /** Every text whose tokens are those of a legal tree parses to that tree,
      whatever its blanks. */
  lemma RoundTrip(t: Text, c: Cmd<string>)
    requires Legal(c) && Lex(t, 0) == LineToks(c)
    ensures CmdOf(t).Done? && Tree(t, CmdOf(t).value) == c
  {
    hide Lex, Skip, GetToken, LineOf;
    assert LineToks(c) + [] == LineToks(c);
    LineRead(t, 0, c, []);
    var line := LineOf(t, 0);
    Head(t, line.next);
  }

  // ---- a tree written out with blanks ----

  function Chars(k: Token): string {
    match k
    case Word(w) => w
    case Sym(c) => if c == '+' then ">>" else [c]
  }

  predicate LegalToken(k: Token) {
    match k
    case Word(w) => WordText(w)
    case Sym(c) => c == '+' || Symbol(c)
  }

  predicate LegalTokens(ks: seq<Token>) {
    forall i :: 0 <= i < |ks| ==> LegalToken(ks[i])
  }

  predicate Blanks(g: string) {
    forall i :: 0 <= i < |g| ==> Blank(g[i])
  }

  // Tokens that would run together if no blank stood between them.
  predicate Joined(a: Token, b: Token) {
    (a.Word? && b.Word?) || (a == Sym('>') && b.Sym? && (b.kind == '>' || b.kind == '+'))
  }

  // The tokens with the gaps before, between and after them.
  function Layout(ks: seq<Token>, gaps: seq<string>): string
    requires |gaps| == |ks| + 1
  {
    gaps[0] + if ks == [] then "" else Chars(ks[0]) + Layout(ks[1..], gaps[1..])
  }

  predicate Apart(ks: seq<Token>, gaps: seq<string>)
    requires |gaps| == |ks| + 1
  {
    && (forall i :: 0 <= i < |gaps| ==> Blanks(gaps[i]))
    && (forall i :: 0 < i < |ks| && Joined(ks[i - 1], ks[i]) ==> gaps[i] != "")
  }

  lemma {:induction false} SkipIs(t: Text, s: nat, n: nat)
    requires s + n <= |t| && Blanks(t[s..s + n]) && !Blank(At(t, s + n))
    ensures Skip(t, s) == s + n
    decreases n
  {
    if n > 0 {
      assert t[s..s + n][0] == t[s] && t[s..s + n][1..] == t[s + 1..s + 1 + (n - 1)];
      SkipIs(t, s + 1, n - 1);
    }
  }

  lemma {:induction false} WordEndIs(t: Text, s: nat, n: nat)
    requires s + n <= |t| && (forall i :: s <= i < s + n ==> WordChar(t[i])) && !WordChar(At(t, s + n))
    ensures WordEnd(t, s) == s + n
    decreases n
  {
    if n > 0 { WordEndIs(t, s + 1, n - 1); }
  }

  // The first gap and the first token, and what is laid out behind them.
  lemma LayoutCut(t: Text, s: nat, ks: seq<Token>, gaps: seq<string>)
    requires |gaps| == |ks| + 1 && s <= |t| && t[s..] == Layout(ks, gaps)
    ensures s + |gaps[0]| <= |t| && t[s..s + |gaps[0]|] == gaps[0]
    ensures ks == [] ==> s + |gaps[0]| == |t|
    ensures ks != [] ==> var q := s + |gaps[0]|; var e := q + |Chars(ks[0])|;
      e <= |t| && t[q..e] == Chars(ks[0]) && t[e..] == Layout(ks[1..], gaps[1..])
  {
    hide Layout, Chars;
    LayoutParts(ks, gaps);
    if ks == [] {
      Cut(t, s, gaps[0], "");
    } else {
      var tail := Layout(ks[1..], gaps[1..]);
      Cut(t, s, gaps[0], Chars(ks[0]) + tail);
      Cut(t, s + |gaps[0]|, Chars(ks[0]), tail);
    }
  }

  // The first character of laid out tokens is blank, begins the first token, or
  // is missing.
  lemma LayoutHead(t: Text, s: nat, ks: seq<Token>, gaps: seq<string>)
    requires |gaps| == |ks| + 1 && LegalTokens(ks) && Apart(ks, gaps)
    requires s <= |t| && t[s..] == Layout(ks, gaps)
    ensures if gaps[0] != "" then s < |t| && Blank(At(t, s))
            else if ks == [] then s == |t|
            else s < |t| && At(t, s) == Chars(ks[0])[0]
  {
    hide Layout, Joined, Blank, Symbol;
    LayoutCut(t, s, ks, gaps);
    if gaps[0] != "" {
      assert t[s] == t[s..s + |gaps[0]|][0];
      assert Blanks(gaps[0]);
    } else if ks != [] {
      assert LegalToken(ks[0]);
      assert t[s] == t[s..s + |Chars(ks[0])|][0];
    }
  }

  lemma LayoutParts(ks: seq<Token>, gaps: seq<string>)
    requires |gaps| == |ks| + 1
    ensures Layout(ks, gaps) == gaps[0] + if ks == [] then "" else Chars(ks[0]) + Layout(ks[1..], gaps[1..])
  {
  }

  lemma Cut(t: string, s: nat, a: string, rest: string)
    requires s <= |t| && t[s..] == a + rest
    ensures s + |a| <= |t| && t[s..s + |a|] == a && t[s + |a|..] == rest
    ensures a != "" ==> t[s] == a[0]
  {
    assert |t| - s == |a| + |rest|;
    assert t[s..s + |a|] == t[s..][..|a|];
    assert t[s + |a|..] == t[s..][|a|..];
    if a != "" {
      assert t[s] == t[s..][0];
    }
  }

  lemma ApartTail(ks: seq<Token>, gaps: seq<string>)
    requires |gaps| == |ks| + 1 && ks != [] && LegalTokens(ks) && Apart(ks, gaps)
    ensures LegalTokens(ks[1..]) && Apart(ks[1..], gaps[1..])
    ensures Blanks(gaps[0]) && Blanks(gaps[1]) && LegalToken(ks[0])
    ensures |ks| > 1 ==> LegalToken(ks[1]) && (Joined(ks[0], ks[1]) ==> gaps[1] != "")
  {
    var ks', gaps' := ks[1..], gaps[1..];
    forall i | 0 <= i < |gaps'|
      ensures Blanks(gaps'[i])
    {
      assert gaps'[i] == gaps[i + 1];
    }
    forall i | 0 < i < |ks'| && Joined(ks'[i - 1], ks'[i])
      ensures gaps'[i] != ""
    {
      assert Joined(ks[i + 1 - 1], ks[i + 1]);
    }
  }

  /** Tokens laid out with enough blanks are lexed back. */
  lemma {:induction false} LexLayout(t: Text, s: nat, ks: seq<Token>, gaps: seq<string>)
    requires |gaps| == |ks| + 1 && LegalTokens(ks) && Apart(ks, gaps)
    requires s <= |t| && t[s..] == Layout(ks, gaps)
    ensures Lex(t, s) == ks
    decreases |ks|
  {
    hide Layout, Lex, Skip, GetToken, WordEnd, Apart, LegalTokens;
    LayoutHead(t, s, ks, gaps);
    LayoutCut(t, s, ks, gaps);
    var q := s + |gaps[0]|;
    if ks == [] {
      assert Blanks(gaps[0]) by { BlankGap(ks, gaps); }
      SkipIs(t, s, |gaps[0]|);
      Head(t, s);
    } else {
      var e := q + |Chars(ks[0])|;
      ApartTail(ks, gaps);
      FirstRead(t, s, q, e, ks, gaps);
      LexLayout(t, e, ks[1..], gaps[1..]);
      LexStep(t, s, e, ks[0]);
      assert ks == [ks[0]] + ks[1..];
    }
  }

  lemma LexStep(t: Text, s: nat, e: nat, k: Token)
    requires s <= |t| && e <= |t|
    requires var g := GetToken(t, s);
      g.kind != NUL && TokenOf(t, g) == k && g.next == Skip(t, e)
    ensures Lex(t, s) == [k] + Lex(t, e)
  {
    hide Skip, GetToken, Lex;
    Head(t, s);
    Head(t, e);
  }

  // The first token's characters are read as that token.
  lemma FirstRead(t: Text, s: nat, q: nat, e: nat, ks: seq<Token>, gaps: seq<string>)
    requires |gaps| == |ks| + 1 && ks != [] && LegalTokens(ks) && Apart(ks, gaps)
    requires s <= q < e <= |t| && q == s + |gaps[0]| && t[s..q] == gaps[0] && t[q..e] == Chars(ks[0])
    requires t[e..] == Layout(ks[1..], gaps[1..])
    ensures var g := GetToken(t, s);
      g.kind != NUL && TokenOf(t, g) == ks[0] && g.next == Skip(t, e)
  {
    ApartTail(ks, gaps);
    hide Layout, Lex, Skip, GetToken, WordEnd, Apart, LegalTokens;
    assert t[q] == t[q..e][0] == Chars(ks[0])[0];
    SkipIs(t, s, |gaps[0]|);
    NotProlonged(t, e, ks, gaps);
    OneToken(t, s, q, e, ks[0]);
  }

  // Where the first token ends stands nothing that would prolong it.
  lemma NotProlonged(t: Text, e: nat, ks: seq<Token>, gaps: seq<string>)
    requires |gaps| == |ks| + 1 && ks != [] && LegalTokens(ks) && Apart(ks, gaps)
    requires e <= |t| && t[e..] == Layout(ks[1..], gaps[1..])
    ensures ks[0].Word? ==> !WordChar(At(t, e))
    ensures ks[0] == Sym('>') ==> At(t, e) != '>'
  {
    ApartTail(ks, gaps);
    LayoutHead(t, e, ks[1..], gaps[1..]);
    hide Layout, LegalTokens, Apart;
  }

  lemma BlankGap(ks: seq<Token>, gaps: seq<string>)
    requires |gaps| == |ks| + 1 && Apart(ks, gaps)
    ensures Blanks(gaps[0])
  {
  }

  // The token at q ends at e when what stands there does not prolong it.
  lemma OneToken(t: Text, s: nat, q: nat, e: nat, k: Token)
    requires s <= q < e <= |t| && Skip(t, s) == q && t[q..e] == Chars(k) && LegalToken(k)
    requires k.Word? ==> !WordChar(At(t, e))
    requires k == Sym('>') ==> At(t, e) != '>'
    ensures var g := GetToken(t, s);
      g.kind != NUL && TokenOf(t, g) == k && g.next == Skip(t, e)
  {
    hide Skip, WordEnd;
    assert forall i :: q <= i < e ==> t[i] == t[q..e][i - q];
    if k.Word? {
      WordEndIs(t, q, e - q);
    } else if k.kind == '+' {
      assert t[q] == '>' && t[q + 1] == '>';
    } else {
      assert t[q] == k.kind && e == q + 1;
    }
  }

  lemma RedTokLegal(c: Cmd<string>)
    requires Legal(c)
    ensures c.Redir? ==> LegalTokens(RedTok(Red(c.file, c.mode, c.fd)))
  {
  }

  lemma SymbolsLegal()
    ensures forall c :: c in "<>|;&()" ==> LegalToken(Sym(c))
  {
  }

  lemma {:induction false} WordToksLegal(ws: seq<string>)
    requires forall i :: 0 <= i < |ws| ==> WordText(ws[i])
    ensures LegalTokens(WordToks(ws))
  {
    if ws != [] { WordToksLegal(ws[1..]); }
  }

  // The tokens of a legal tree are tokens; level k is that of Own.
  lemma {:induction false} ToksLegal(c: Cmd<string>, k: nat)
    requires Legal(c) && k < 4
    ensures k == 0 ==> LegalTokens(LineToks(c))
    ensures k == 1 ==> LegalTokens(BackToks(c))
    ensures k == 2 ==> LegalTokens(PipeToks(c))
    ensures k == 3 ==> LegalTokens(ItemToks(c))
    decreases c, Rank(c, k)
  {
    hide WordText, Symbol, LegalToken;
    SymbolsLegal();
    RedTokLegal(c);
    if Own(c) != k {
      ToksLegal(c, (k + 1) % 4);
    } else if c.List? {
      ToksLegal(c.left, 1);
      ToksLegal(c.right, 0);
    } else if c.Back? {
      ToksLegal(c.cmd, 1);
    } else if c.Pipe? {
      ToksLegal(c.left, 3);
      ToksLegal(c.right, 2);
    } else if c.Redir? {
      ToksLegal(c.cmd, 3);
    } else {
      WordToksLegal(c.argv);
    }
  }

  /** A legal tree printed with any blanks that keep its tokens apart parses to
      that tree. */
  lemma PrintedParses(c: Cmd<string>, gaps: seq<string>, t: Text)
    requires Legal(c) && |gaps| == |LineToks(c)| + 1 && Apart(LineToks(c), gaps)
    requires t == Layout(LineToks(c), gaps)
    ensures CmdOf(t).Done? && Tree(t, CmdOf(t).value) == c
  {
    hide CmdOf, Lex, Layout;
    ToksLegal(c, 0);
    assert t[0..] == t;
    LexLayout(t, 0, LineToks(c), gaps);
    RoundTrip(t, c);
  }

  // ---- every parsed tree is legal ----

  predicate LegalFiles(rs: seq<Red<string>>) {
    forall i :: 0 <= i < |rs| ==> WordText(rs[i].file) && LegalRed(rs[i])
  }

  predicate LegalWords(ws: seq<string>) {
    forall i :: 0 <= i < |ws| ==> WordText(ws[i])
  }

  lemma SpanText(t: Text, w: Span)
    requires WordSpan(t, w)
    ensures WordText(Str(t, w))
  {
  }

  lemma {:induction false} RedirsLegal(t: Text, s: nat)
    requires s <= |t| && Redirs(t, s).Done?
    ensures LegalFiles(RedTexts(t, Redirs(t, s).value))
    decreases |t| - s
  {
    hide Skip, GetToken, LegalFiles;
    if Peek(t, s, "<>") {
      var f := GetToken(t, GetToken(t, s).next);
      RedirsLegal(t, f.next);
      RedirsStep(t, s);
      SpanText(t, f.span);
      MoreFiles(Red(Str(t, f.span), RedOf(GetToken(t, s).kind, f.span).mode, RedOf(GetToken(t, s).kind, f.span).fd),
                RedTexts(t, Redirs(t, f.next).value));
    } else {
      assert LegalFiles([]) by { NoFiles(); }
    }
  }

  lemma NoFiles()
    ensures LegalFiles([])
  {
  }

  lemma MoreFiles(r: Red<string>, rs: seq<Red<string>>)
    requires WordText(r.file) && LegalRed(r) && LegalFiles(rs)
    ensures LegalFiles([r] + rs)
  {
  }

  lemma {:induction false} ArgsLegal(t: Text, s: nat, argc: nat)
    requires s <= |t| && Args(t, s, argc).Done? && argc < MAXARGS
    ensures var v := Args(t, s, argc).value;
      && LegalWords(Texts(t, v.0)) && LegalFiles(RedTexts(t, v.1))
      && argc + |Texts(t, v.0)| < MAXARGS
    decreases |t| - s
  {
    hide Skip, GetToken, Redirs, RedTexts, LegalFiles, Args, Texts, LegalWords, WordText;
    ArgsMore(t, s, argc);
    var tok := GetToken(t, s);
    if Peek(t, s, "|)&;") || tok.kind == NUL {
      NoFiles();
      NoReds(t);
      NoWords(t);
    } else {
      var reds := Redirs(t, tok.next);
      RedirsLegal(t, tok.next);
      ArgsLegal(t, reds.next, argc + 1);
      ArgsStep(t, s, argc);
      SpanText(t, tok.span);
      var tail := Args(t, reds.next, argc + 1).value;
      MoreWords(Str(t, tok.span), Texts(t, tail.0));
      RedTextsMore(t, reds.value, tail.1);
      BothFiles(RedTexts(t, reds.value), RedTexts(t, tail.1));
    }
  }

  lemma ArgsMore(t: Text, s: nat, argc: nat)
    requires s <= |t| && Args(t, s, argc).Done?
    ensures var tok := GetToken(t, s);
      if Peek(t, s, "|)&;") || tok.kind == NUL then Args(t, s, argc).value == ([], [])
      else
        && tok.kind == 'a' && argc + 1 < MAXARGS && Redirs(t, tok.next).Done?
        && Args(t, Redirs(t, tok.next).next, argc + 1).Done? && s < Redirs(t, tok.next).next
  {
    hide Skip, GetToken, Redirs;
  }

  lemma NoWords(t: Text)
    ensures Texts(t, []) == [] && LegalWords([])
  {
  }

  lemma MoreWords(w: string, ws: seq<string>)
    requires WordText(w) && LegalWords(ws)
    ensures LegalWords([w] + ws)
  {
  }

  lemma NoReds(t: Text)
    ensures RedTexts(t, []) == []
  {
  }

  lemma BothFiles(a: seq<Red<string>>, b: seq<Red<string>>)
    requires LegalFiles(a) && LegalFiles(b)
    ensures LegalFiles(a + b)
  {
  }

  lemma {:induction false} WrapLegal(t: Text, c: Cmd<Span>, rs: seq<Red<Span>>)
    requires Legal(Tree(t, c)) && LegalFiles(RedTexts(t, rs))
    ensures Legal(Tree(t, Wrap(c, rs)))
    decreases |rs|
  {
    if rs != [] {
      var front, r := rs[..|rs| - 1], rs[|rs| - 1];
      assert rs == front + [r];
      RedTextsMore(t, front, [r]);
      var a, b := RedTexts(t, front), RedTexts(t, [r]);
      assert forall i :: 0 <= i < |a| ==> a[i] == (a + b)[i];
      assert b[0] == (a + b)[|a|] == Red(Str(t, r.file), r.mode, r.fd);
      WrapLegal(t, c, front);
    }
  }

  // Level 0 is a simple or parenthesised command, 1 a pipe, 2 a line.
  lemma {:induction false} LevelLegal(t: Text, s: nat, k: nat)
    requires s <= |t| && k < 3
    ensures k == 0 && ExecOf(t, s).Done? ==> Legal(Tree(t, ExecOf(t, s).value))
    ensures k == 1 && PipeOf(t, s).Done? ==> Legal(Tree(t, PipeOf(t, s).value))
    ensures k == 2 && LineOf(t, s).Done? ==> Legal(Tree(t, LineOf(t, s).value))
    decreases |t| - s, k
  {
    hide Skip, GetToken, Redirs, Args, Wrap, Backs;
    if k == 0 {
      if Peek(t, s, "(") {
        LevelLegal(t, GetToken(t, s).next, 2);
        var line := LineOf(t, GetToken(t, s).next);
        if ExecOf(t, s).Done? {
          RedirsLegal(t, GetToken(t, line.next).next);
          WrapLegal(t, line.value, Redirs(t, GetToken(t, line.next).next).value);
        }
      } else if ExecOf(t, s).Done? {
        SimpleLegal(t, s);
      }
    } else if k == 1 {
      LevelLegal(t, s, 0);
      var left := ExecOf(t, s);
      if left.Done? && Peek(t, left.next, "|") {
        LevelLegal(t, GetToken(t, left.next).next, 1);
      }
    } else {
      LevelLegal(t, s, 1);
      var pipe := PipeOf(t, s);
      if pipe.Done? {
        BacksLegal(t, pipe.next, pipe.value);
        var left := Backs(t, pipe.next, pipe.value);
        if Peek(t, left.next, ";") {
          LevelLegal(t, GetToken(t, left.next).next, 2);
        }
      }
    }
  }

  lemma SimpleLegal(t: Text, s: nat)
    requires s <= |t| && !Peek(t, s, "(") && ExecOf(t, s).Done?
    ensures Legal(Tree(t, ExecOf(t, s).value))
  {
    hide Skip, GetToken, Redirs, Args, Wrap, RedTexts, LegalFiles;
    var reds := Redirs(t, s);
    var args := Args(t, reds.next, 0);
    RedirsLegal(t, s);
    ArgsLegal(t, reds.next, 0);
    RedTextsMore(t, reds.value, args.value.1);
    BothFiles(RedTexts(t, reds.value), RedTexts(t, args.value.1));
    TreeExec(t, args.value.0);
    WrapLegal(t, Exec(args.value.0), reds.value + args.value.1);
  }

  lemma {:induction false} BacksLegal(t: Text, s: nat, c: Cmd<Span>)
    requires s <= |t| && Spanned(t, c) && Legal(Tree(t, c))
    ensures Legal(Tree(t, Backs(t, s, c).value))
    decreases |t| - s
  {
    hide Skip, GetToken;
    if Peek(t, s, "&") { BacksLegal(t, GetToken(t, s).next, Back(c)); }
  }

  /** What the parser accepts is a legal tree; so printing a parsed line and
      parsing the result gives the tree of the line again. */
  lemma ParsedLegal(t: Text)
    requires CmdOf(t).Done?
    ensures Legal(Tree(t, CmdOf(t).value))
  {
    hide LineOf;
    LevelLegal(t, 0, 2);
  }
}
