/** Printing commands with every part in parentheses, and parsing them back. */
module ShellPrint {
  import opened Shell

  type Tree = Cmd<string>

  // ---------------------------------------------------------------------------
  // Trees, their printing, and the text of a parsed command

  ghost predicate Word(w: string) {
    w != [] && forall i :: 0 <= i < |w| ==> WordChar(w[i])
  }

  /** Words are free of blanks and symbols, and a command has at most nine of them. */
  ghost predicate Printable(t: Tree) {
    match t
    case Exec(argv) => |argv| < MAXARGS && forall i :: 0 <= i < |argv| ==> Word(argv[i])
    case Redir(c, f, _) => Printable(c) && Word(f)
    case Pipe(l, r) => Printable(l) && Printable(r)
    case List(l, r) => Printable(l) && Printable(r)
    case Back(c) => Printable(c)
  }

  function Join(ws: seq<string>): string {
    if ws == [] then [] else if |ws| == 1 then ws[0] else ws[0] + [' '] + Join(ws[1..])
  }

  function Print(t: Tree): string
    decreases t, 0
  {
    match t
    case Exec(argv) => Join(argv)
    case Redir(c, f, m) => Paren(c) + [if m.Reading? then '<' else '>'] + f
    case Pipe(l, r) => Paren(l) + ['|'] + Paren(r)
    case List(l, r) => Paren(l) + [';'] + Paren(r)
    case Back(c) => Paren(c) + ['&']
  }

  function Paren(t: Tree): string
    decreases t, 1
  {
    ['('] + Print(t) + [')']
  }

  function Text(s: string, w: Span): string {
    if w.q <= w.eq <= |s| then s[w.q..w.eq] else []
  }

  function Texts(s: string, ws: seq<Span>): (r: seq<string>)
    ensures |r| == |ws| && forall i :: 0 <= i < |r| ==> r[i] == Text(s, ws[i])
  {
    seq(|ws|, i requires 0 <= i < |ws| => Text(s, ws[i]))
  }

  function TreeOf(s: string, cmd: Cmd<Span>): Tree {
    match cmd
    case Exec(argv) => Exec(Texts(s, argv))
    case Redir(c, f, m) => Redir(TreeOf(s, c), Text(s, f), m)
    case Pipe(l, r) => Pipe(TreeOf(s, l), TreeOf(s, r))
    case List(l, r) => List(TreeOf(s, l), TreeOf(s, r))
    case Back(c) => Back(TreeOf(s, c))
  }

  // ---------------------------------------------------------------------------
  // Text at a position of the line

  ghost predicate Here(s: string, p: nat, x: string) {
    p + |x| <= |s| && forall i :: p <= i < p + |x| ==> s[i] == x[i - p]
  }

  lemma HereSplit(s: string, p: nat, a: string, b: string)
    requires Here(s, p, a + b)
    ensures Here(s, p, a) && Here(s, p + |a|, b)
  {}

  lemma HereChar(s: string, p: nat, c: char)
    requires Here(s, p, [c])
    ensures At(s, p) == c && p < |s|
  {}

  lemma HereText(s: string, p: nat, x: string)
    requires Here(s, p, x)
    ensures Text(s, Span(p, p + |x|)) == x
  {}

  lemma NoBlankHere(s: string, p: nat)
    requires p <= |s| && !Blank(At(s, p))
    ensures SkipBlanks(s, p) == p
  {}

  /** What may follow a whole line of the grammar: its end or a parenthesis. */
  ghost predicate Stop(s: string, p: nat) {
    p <= |s| && (p == |s| || s[p] == ')')
  }

  // ---------------------------------------------------------------------------
  // Tokens of printed text

  lemma {:induction false} WordEndIs(s: string, p: nat, e: nat)
    requires p <= e <= |s| && (forall i :: p <= i < e ==> WordChar(s[i])) && (e < |s| ==> Blank(s[e]) || Symbol(s[e]))
    ensures WordEnd(s, p) == e
    decreases e - p
  {}

  lemma WordToken(s: string, p: nat, w: string)
    requires Here(s, p, w) && Word(w) && (p + |w| < |s| ==> Blank(s[p + |w|]) || Symbol(s[p + |w|]))
    ensures GetToken(s, p) == Token('a', Span(p, p + |w|), SkipBlanks(s, p + |w|))
    ensures Text(s, Span(p, p + |w|)) == w
    ensures SkipBlanks(s, p) == p && WordChar(At(s, p))
  {
    forall i | p <= i < p + |w| ensures WordChar(s[i]) {
      assert s[i] == w[i - p];
    }
    NoBlankHere(s, p);
    WordEndIs(s, p, p + |w|);
    HereText(s, p, w);
  }

  lemma SymbolToken(s: string, p: nat, c: char)
    requires Here(s, p, [c]) && Symbol(c) && (c == '>' ==> At(s, p + 1) != '>')
    ensures SkipBlanks(s, p) == p && GetToken(s, p).tok == c && GetToken(s, p).next == SkipBlanks(s, p + 1)
  {}

  // ---------------------------------------------------------------------------
  // Simple commands

  /** One word of a simple command, with no redirection after it. */
  lemma ArgsStep(s: string, p: nat, n: nat, w: string, q: nat)
    requires Line(s) && Here(s, p, w) && Word(w) && (p + |w| < |s| ==> Blank(s[p + |w|]) || Symbol(s[p + |w|]))
    requires q == SkipBlanks(s, p + |w|) && At(s, q) != '<' && At(s, q) != '>' && n + 1 < MAXARGS
    ensures var more := ParseArgs(s, q, n + 1);
            ParseArgs(s, p, n) == if more.Panic? then Panic
                else Ok(Args([Span(p, p + |w|)] + more.value.argv, more.value.redirs, more.value.pos))
  {
    WordToken(s, p, w);
    NoBlankHere(s, q);
    assert !Peek(s, p, "|)&;") && !Peek(s, q, "<>");
    assert ParseRedirs(s, q) == Ok(Redirects([], q));
    var more := ParseArgs(s, q, n + 1);
    if more.Ok? {
      assert [] + more.value.redirs == more.value.redirs;
    }
  }

  lemma ArgsEnd(s: string, p: nat, n: nat)
    requires Line(s) && Stop(s, p)
    ensures ParseArgs(s, p, n) == Ok(Args([], [], p))
  {}

  lemma TextsCons(s: string, w: Span, ws: seq<Span>)
    ensures Texts(s, [w] + ws) == [Text(s, w)] + Texts(s, ws)
  {}

  /** A word and what the parser makes of the text after it. */
  lemma ArgsMore(w: string, s: string, p: nat, n: nat, q: nat, more: Args)
    requires Line(s) && Here(s, p, w) && Word(w) && (p + |w| < |s| ==> Blank(s[p + |w|]) || Symbol(s[p + |w|]))
    requires q == SkipBlanks(s, p + |w|) && At(s, q) != '<' && At(s, q) != '>' && n + 1 < MAXARGS
    requires ParseArgs(s, q, n + 1) == Ok(more)
    ensures var r := ParseArgs(s, p, n);
            r.Ok? && r.value.redirs == more.redirs && r.value.pos == more.pos &&
                Texts(s, r.value.argv) == [w] + Texts(s, more.argv)
  {
    hide ParseArgs, Here, Texts;
    ArgsStep(s, p, n, w, q);
    HereText(s, p, w);
    TextsCons(s, Span(p, p + |w|), more.argv);
  }

  lemma JoinShort(ws: seq<string>)
    requires |ws| < 2
    ensures Join(ws) == if ws == [] then [] else ws[0]
  {}

  /** Two or more printed words: the first, a blank, and the others. */
  lemma JoinSplit(ws: seq<string>, s: string, p: nat)
    requires |ws| >= 2 && Here(s, p, Join(ws)) && forall i :: 0 <= i < |ws| ==> Word(ws[i])
    ensures var q := p + |ws[0]|;
            && Here(s, p, ws[0]) && Here(s, q + 1, Join(ws[1..])) && |Join(ws)| == |ws[0]| + 1 + |Join(ws[1..])|
            && q < |s| && s[q] == ' ' && SkipBlanks(s, q) == q + 1 && WordChar(At(s, q + 1))
  {}

  lemma {:induction false} ArgsParse(ws: seq<string>, s: string, p: nat, n: nat)
    requires Line(s) && Here(s, p, Join(ws)) && Stop(s, p + |Join(ws)|)
    requires n + |ws| < MAXARGS && forall i :: 0 <= i < |ws| ==> Word(ws[i])
    ensures var r := ParseArgs(s, p, n);
            r.Ok? && r.value.redirs == [] && r.value.pos == p + |Join(ws)| && Texts(s, r.value.argv) == ws
    decreases |ws|
  {
    hide ParseArgs, Here, SkipBlanks, Word, Join;
    if ws == [] {
      JoinShort(ws);
      ArgsEnd(s, p, n);
    } else if |ws| == 1 {
      var e := p + |ws[0]|;
      JoinShort(ws);
      NoBlankHere(s, e);
      ArgsEnd(s, e, n + 1);
      ArgsMore(ws[0], s, p, n, e, Args([], [], e));
    } else {
      var q := p + |ws[0]| + 1;
      JoinSplit(ws, s, p);
      ArgsParse(ws[1..], s, q, n + 1);
      ArgsMore(ws[0], s, p, n, q, ParseArgs(s, q, n + 1).value);
      assert ws == [ws[0]] + ws[1..];
    }
  }

  /** Printed words start with a word character. */
  lemma JoinStart(ws: seq<string>, s: string, p: nat)
    requires ws != [] && Here(s, p, Join(ws)) && forall i :: 0 <= i < |ws| ==> Word(ws[i])
    ensures WordChar(At(s, p)) && SkipBlanks(s, p) == p
  {}

  lemma ExecParses(ws: seq<string>, s: string, p: nat)
    requires Line(s) && Here(s, p, Join(ws)) && Stop(s, p + |Join(ws)|)
    requires |ws| < MAXARGS && forall i :: 0 <= i < |ws| ==> Word(ws[i])
    ensures var r := ParseExec(s, p);
            r.Ok? && r.value.pos == p + |Join(ws)| && TreeOf(s, r.value.cmd) == Exec(ws)
  {
    if ws == [] {
      NoBlankHere(s, p);
    } else {
      JoinStart(ws, s, p);
    }
    ArgsParse(ws, s, p, 0);
  }

  // ---------------------------------------------------------------------------
  // From one level of the grammar to the next

  lemma StopIsPlain(s: string, e: nat, toks: string)
    requires Stop(s, e) && ')' !in toks
    ensures SkipBlanks(s, e) == e && !Peek(s, e, toks)
  {}

  /** A command followed by the end of the line, or of the block, is the whole line. */
  lemma LineOfExec(s: string, p: nat, c: Cmd<Span>, e: nat)
    requires Line(s) && p <= |s| && ParseExec(s, p) == Ok(Parsed(c, e)) && Stop(s, e)
    ensures ParsePipe(s, p) == Ok(Parsed(c, e)) && ParseLine(s, p) == Ok(Parsed(c, e))
  {
    hide ParseExec;
    StopIsPlain(s, e, "|");
    StopIsPlain(s, e, "&");
    StopIsPlain(s, e, ";");
    assert ParsePipe(s, p) == Ok(Parsed(c, e));
  }

  lemma LineOfPipe(s: string, p: nat, l: Cmd<Span>, m: nat, r: Cmd<Span>, e: nat)
    requires Line(s) && p <= |s| && ParseExec(s, p) == Ok(Parsed(l, m)) && Here(s, m, ['|'])
    requires !Blank(At(s, m + 1)) && ParsePipe(s, m + 1) == Ok(Parsed(r, e)) && Stop(s, e)
    ensures ParseLine(s, p) == Ok(Parsed(Pipe(l, r), e))
  {
    hide ParseExec;
    HereChar(s, m, '|');
    SymbolToken(s, m, '|');
    NoBlankHere(s, m + 1);
    StopIsPlain(s, e, "&");
    StopIsPlain(s, e, ";");
    assert ParsePipe(s, p) == Ok(Parsed(Pipe(l, r), e));
  }

  lemma LineOfList(s: string, p: nat, l: Cmd<Span>, m: nat, r: Cmd<Span>, e: nat)
    requires Line(s) && p <= |s| && ParseExec(s, p) == Ok(Parsed(l, m)) && Here(s, m, [';'])
    requires !Blank(At(s, m + 1)) && ParseLine(s, m + 1) == Ok(Parsed(r, e))
    ensures ParseLine(s, p) == Ok(Parsed(List(l, r), e))
  {
    hide ParseExec;
    HereChar(s, m, ';');
    SymbolToken(s, m, ';');
    NoBlankHere(s, m + 1);
    assert ParsePipe(s, p) == Ok(Parsed(l, m));
    assert ParseBacks(s, l, m) == Parsed(l, m);
  }

  lemma LineOfBack(s: string, p: nat, c: Cmd<Span>, m: nat)
    requires Line(s) && p <= |s| && ParseExec(s, p) == Ok(Parsed(c, m)) && Here(s, m, ['&']) && Stop(s, m + 1)
    ensures ParseLine(s, p) == Ok(Parsed(Back(c), m + 1))
  {
    hide ParseExec;
    HereChar(s, m, '&');
    SymbolToken(s, m, '&');
    StopIsPlain(s, m + 1, "&");
    StopIsPlain(s, m + 1, ";");
    assert ParsePipe(s, p) == Ok(Parsed(c, m));
    assert ParseBacks(s, Back(c), m + 1) == Parsed(Back(c), m + 1);
    assert ParseBacks(s, c, m) == Parsed(Back(c), m + 1);
  }

  /** The inside of a block parses to c and stops at its parenthesis. */
  ghost predicate Inside(s: string, p: nat, c: Cmd<Span>, m: nat) {
    Line(s) && Here(s, p, ['(']) && !Blank(At(s, p + 1)) && ParseLine(s, p + 1) == Ok(Parsed(c, m)) && Here(s, m, [')'])
  }

  lemma ExecOfBlock(s: string, p: nat, c: Cmd<Span>, m: nat, list: seq<Redirect>, e: nat)
    requires Inside(s, p, c, m) && !Blank(At(s, m + 1)) && ParseRedirs(s, m + 1) == Ok(Redirects(list, e))
    ensures ParseExec(s, p) == Ok(Parsed(Wrap(c, Pairs(list)), e))
  {
    hide ParseLine, ParseRedirs, Wrap, Pairs, WordEnd;
    HereChar(s, p, '(');
    HereChar(s, m, ')');
    SymbolToken(s, p, '(');
    SymbolToken(s, m, ')');
    NoBlankHere(s, p + 1);
    NoBlankHere(s, m + 1);
    assert ParseBlock(s, p) == Ok(Parsed(Wrap(c, Pairs(list)), e));
  }

  lemma ExecOfPlain(s: string, p: nat, c: Cmd<Span>, m: nat)
    requires Inside(s, p, c, m) && !Blank(At(s, m + 1)) && At(s, m + 1) != '<' && At(s, m + 1) != '>'
    ensures ParseExec(s, p) == Ok(Parsed(c, m + 1))
  {
    hide ParseLine, ParseExec;
    HereChar(s, m, ')');
    NoBlankHere(s, m + 1);
    assert ParseRedirs(s, m + 1) == Ok(Redirects([], m + 1));
    ExecOfBlock(s, p, c, m, [], m + 1);
  }

  lemma OneRedirect(s: string, p: nat, mode: Mode, f: string)
    requires Line(s) && Word(f) && Here(s, p, [if mode.Reading? then '<' else '>'] + f) && Stop(s, p + 1 + |f|)
    ensures ParseRedirs(s, p) == Ok(Redirects([Redirect(Span(p + 1, p + 1 + |f|), mode)], p + 1 + |f|))
    ensures Text(s, Span(p + 1, p + 1 + |f|)) == f
  {
    var sym, e := if mode.Reading? then '<' else '>', p + 1 + |f|;
    HereSplit(s, p, [sym], f);
    HereChar(s, p, sym);
    WordToken(s, p + 1, f);
    SymbolToken(s, p, sym);
    NoBlankHere(s, e);
    assert ParseRedirs(s, e) == Ok(Redirects([], e));
    assert Peek(s, p, "<>") && GetToken(s, p).next == p + 1;
    var one := [Redirect(Span(p + 1, e), mode)];
    assert one + [] == one;
  }

  lemma ExecOfRedir(s: string, p: nat, c: Cmd<Span>, m: nat, mode: Mode, f: string)
    requires Inside(s, p, c, m) && Word(f) && Here(s, m + 1, [if mode.Reading? then '<' else '>'] + f) &&
             Stop(s, m + 2 + |f|)
    ensures ParseExec(s, p) == Ok(Parsed(Redir(c, Span(m + 2, m + 2 + |f|), mode), m + 2 + |f|))
    ensures Text(s, Span(m + 2, m + 2 + |f|)) == f
  {
    hide ParseLine, ParseRedirs, ParseExec;
    var sym, w := if mode.Reading? then '<' else '>', Span(m + 2, m + 2 + |f|);
    HereSplit(s, m + 1, [sym], f);
    HereChar(s, m, ')');
    HereChar(s, m + 1, sym);
    OneRedirect(s, m + 1, mode, f);
    ExecOfBlock(s, p, c, m, [Redirect(w, mode)], m + 2 + |f|);
    assert Pairs([Redirect(w, mode)]) == [(w, mode)];
  }

  // ---------------------------------------------------------------------------
  // The round trip

  /** A tree printed at p and followed by the end of a line or block parses to itself. */
  lemma {:induction false} LineParses(t: Tree, s: string, p: nat)
    requires Printable(t) && Line(s) && Here(s, p, Print(t)) && Stop(s, p + |Print(t)|)
    ensures var r := ParseLine(s, p);
            r.Ok? && r.value.pos == p + |Print(t)| && TreeOf(s, r.value.cmd) == t
    decreases t, 0
  {
    hide ParseExec, ParsePipe, ParseLine;
    match t
    case Exec(argv) =>
      ExecParses(argv, s, p);
      var r := ParseExec(s, p).value;
      LineOfExec(s, p, r.cmd, r.pos);
    case Redir(c, f, mode) => RedirParses(t, s, p);
    case Pipe(l, r) => PairParses(t, s, p, l, r, '|');
    case List(l, r) => PairParses(t, s, p, l, r, ';');
    case Back(c) => BackParses(t, s, p);
  }

  /** A parenthesised tree at p: its inside parses, and its last character is at the result. */
  lemma {:induction false} InsideParses(t: Tree, s: string, p: nat) returns (c: Cmd<Span>, m: nat)
    requires Printable(t) && Line(s) && Here(s, p, Paren(t))
    ensures Inside(s, p, c, m) && m + 1 == p + |Paren(t)| && TreeOf(s, c) == t
    decreases t, 1
  {
    hide ParseExec, ParsePipe, ParseLine, Print, Here;
    HereSplit(s, p, ['('] + Print(t), [')']);
    HereSplit(s, p, ['('], Print(t));
    m := p + 1 + |Print(t)|;
    HereChar(s, m, ')');
    LineParses(t, s, p + 1);
    c := ParseLine(s, p + 1).value.cmd;
    PrintStart(t, s, p + 1);
  }

  lemma {:induction false} RedirParses(t: Tree, s: string, p: nat)
    requires t.Redir? && Printable(t) && Line(s) && Here(s, p, Print(t)) && Stop(s, p + |Print(t)|)
    ensures var r := ParseLine(s, p);
            r.Ok? && r.value.pos == p + |Print(t)| && TreeOf(s, r.value.cmd) == t
    decreases t.cmd, 2
  {
    hide ParseExec, ParsePipe, ParseLine, Here, Paren;
    var sym := [if t.mode.Reading? then '<' else '>'];
    assert Print(t) == Paren(t.cmd) + (sym + t.file);
    HereSplit(s, p, Paren(t.cmd), sym + t.file);
    var c, m := InsideParses(t.cmd, s, p);
    ExecOfRedir(s, p, c, m, t.mode, t.file);
    LineOfExec(s, p, Redir(c, Span(m + 2, m + 2 + |t.file|), t.mode), m + 2 + |t.file|);
  }

  lemma {:induction false} BackParses(t: Tree, s: string, p: nat)
    requires t.Back? && Printable(t) && Line(s) && Here(s, p, Print(t)) && Stop(s, p + |Print(t)|)
    ensures var r := ParseLine(s, p);
            r.Ok? && r.value.pos == p + |Print(t)| && TreeOf(s, r.value.cmd) == t
    decreases t.cmd, 2
  {
    hide ParseExec, ParsePipe, ParseLine, Here, Paren;
    HereSplit(s, p, Paren(t.cmd), ['&']);
    var c, m := InsideParses(t.cmd, s, p);
    HereChar(s, m + 1, '&');
    ExecOfPlain(s, p, c, m);
    LineOfBack(s, p, c, m + 1);
  }

  lemma PairSplit(t: Tree, s: string, p: nat, l: Tree, r: Tree, sym: char)
    requires (t == Pipe(l, r) && sym == '|') || (t == List(l, r) && sym == ';')
    requires Here(s, p, Print(t))
    ensures var m := p + |Paren(l)|;
            && Here(s, p, Paren(l)) && Here(s, m, [sym]) && Here(s, m + 1, Paren(r)) &&
                 p + |Print(t)| == m + 1 + |Paren(r)|
            && At(s, m) == sym && At(s, m + 1) == '('
  {
    hide Here, Paren;
    var m := p + |Paren(l)|;
    HereSplit(s, p, Paren(l) + [sym], Paren(r));
    HereSplit(s, p, Paren(l), [sym]);
    HereChar(s, m, sym);
    ParenStart(r, s, m + 1);
  }

  lemma ParenStart(t: Tree, s: string, p: nat)
    requires Here(s, p, Paren(t))
    ensures At(s, p) == '('
  {}

  lemma {:induction false} PairParses(t: Tree, s: string, p: nat, l: Tree, r: Tree, sym: char)
    requires (t == Pipe(l, r) && sym == '|') || (t == List(l, r) && sym == ';')
    requires Printable(t) && Line(s) && Here(s, p, Print(t)) && Stop(s, p + |Print(t)|)
    ensures var r := ParseLine(s, p);
            r.Ok? && r.value.pos == p + |Print(t)| && TreeOf(s, r.value.cmd) == t
    decreases t, -1
  {
    hide ParseExec, ParsePipe, ParseLine, Here, Paren, Print;
    PairSplit(t, s, p, l, r, sym);
    var a, m := InsideParses(l, s, p);
    var b, k := InsideParses(r, s, m + 2);
    PairOfBlocks(s, p, a, m, b, k, sym);
  }

  lemma PairOfBlocks(s: string, p: nat, a: Cmd<Span>, m: nat, b: Cmd<Span>, k: nat, sym: char)
    requires Inside(s, p, a, m) && Here(s, m + 1, [sym]) && Inside(s, m + 2, b, k) && Stop(s, k + 1) &&
             (sym == '|' || sym == ';')
    ensures ParseLine(s, p) == Ok(Parsed(if sym == '|' then Pipe(a, b) else List(a, b), k + 1))
  {
    hide ParseExec, ParsePipe, ParseLine, Here;
    HereChar(s, m + 1, sym);
    HereChar(s, m + 2, '(');
    ExecOfPlain(s, p, a, m);
    ExecOfPlain(s, m + 2, b, k);
    LineOfExec(s, m + 2, b, k + 1);
    if sym == '|' {
      LineOfPipe(s, p, a, m + 1, b, k + 1);
    } else {
      LineOfList(s, p, a, m + 1, b, k + 1);
    }
  }

  /** What is printed inside parentheses never starts with a blank. */
  lemma PrintStart(t: Tree, s: string, p: nat)
    requires Printable(t) && Here(s, p, Print(t)) && Here(s, p + |Print(t)|, [')'])
    ensures !Blank(At(s, p))
  {
    HereChar(s, p + |Print(t)|, ')');
    match t
    case Exec(argv) => if argv != [] { JoinStart(argv, s, p); }
    case Redir(c, f, mode) => assert Print(t)[0] == '(';
    case Pipe(l, r) => assert Print(t)[0] == '(';
    case List(l, r) => assert Print(t)[0] == '(';
    case Back(c) => assert Print(t)[0] == '(';
  }

  lemma JoinIsLine(ws: seq<string>)
    requires forall i :: 0 <= i < |ws| ==> Word(ws[i])
    ensures Line(Join(ws))
  {}

  lemma {:induction false} PrintIsLine(t: Tree)
    requires Printable(t)
    ensures Line(Print(t))
  {
    match t
    case Exec(argv) => JoinIsLine(argv);
    case Redir(c, f, mode) => PrintIsLine(c);
    case Pipe(l, r) => PrintIsLine(l); PrintIsLine(r);
    case List(l, r) => PrintIsLine(l); PrintIsLine(r);
    case Back(c) => PrintIsLine(c);
  }

  lemma {:induction false} WordsArePrintable(s: string, cmd: Cmd<Span>)
    requires Words(s, cmd)
    ensures Printable(TreeOf(s, cmd))
  {
    match cmd
    case Exec(argv) =>
      forall i | 0 <= i < |argv| ensures Word(Texts(s, argv)[i]) { SpanText(s, argv[i]); }
    case Redir(c, f, mode) => WordsArePrintable(s, c); SpanText(s, f);
    case Pipe(l, r) => WordsArePrintable(s, l); WordsArePrintable(s, r);
    case List(l, r) => WordsArePrintable(s, l); WordsArePrintable(s, r);
    case Back(c) => WordsArePrintable(s, c);
  }

  lemma SpanText(s: string, w: Span)
    requires IsWord(s, w)
    ensures Word(Text(s, w))
  {}

  ghost predicate ParsesTo(s: string, t: Tree) {
    Line(s) && ParseCmd(s).Ok? && TreeOf(s, ParseCmd(s).value) == t
  }

  /** The printing of a tree parses back to the tree exactly when its words are words of
      the language and no command has more than nine of them. */
  lemma RoundTrip(t: Tree)
    ensures ParsesTo(Print(t), t) <==> Printable(t)
  {
    hide ParseLine, Print;
    var s := Print(t);
    if Printable(t) {
      PrintIsLine(t);
      LineParses(t, s, 0);
      NoBlankHere(s, |s|);
    }
    if ParsesTo(s, t) {
      WordsArePrintable(s, ParseCmd(s).value);
    }
  }

  /** Printing what a line parses to, and parsing that, changes nothing. */
  lemma ParseIsStable(s: string)
    requires Line(s) && ParseCmd(s).Ok?
    ensures ParsesTo(Print(TreeOf(s, ParseCmd(s).value)), TreeOf(s, ParseCmd(s).value))
  {
    hide ParseCmd, Print;
    WordsArePrintable(s, ParseCmd(s).value);
    RoundTrip(TreeOf(s, ParseCmd(s).value));
  }
}
