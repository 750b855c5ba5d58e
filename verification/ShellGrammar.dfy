/** The language of the shell as a grammar over tokens, and the parser's agreement with it: a
    line is accepted with a tree exactly when it is the token sequence of some phrase of the
    grammar with that meaning. */
module ShellGrammar {
  import opened Shell
  import opened ShellPrint

  // ---------------------------------------------------------------------------
  // Token sequences

  /** A word, or a symbol, with '+' for >>. */
  datatype Tok = W(text: string) | S(c: char)

  function TokOf(s: string, t: Token): Tok {
    if t.tok == 'a' then W(Text(s, t.span)) else S(t.tok)
  }

  /** The tokens of the line from p on. */
  function Lex(s: string, p: nat): (r: seq<Tok>)
    requires p <= |s| && Line(s)
    decreases |s| - p
  {
    var t := GetToken(s, p);
    if t.tok == '\0' then [] else [TokOf(s, t)] + Lex(s, t.next)
  }

  /** What a look ahead sees: the character the first token starts with, 'a' for a word. */
  function Head(ts: seq<Tok>): char {
    if ts == [] then '\0' else if ts[0].W? then 'a' else if ts[0].c == '+' then '>' else ts[0].c
  }

  lemma SkipTwice(s: string, p: nat)
    requires p <= |s|
    ensures SkipBlanks(s, SkipBlanks(s, p)) == SkipBlanks(s, p) && GetToken(s, SkipBlanks(s, p)) == GetToken(s, p)
  {}

  lemma LexSkip(s: string, p: nat)
    requires p <= |s| && Line(s)
    ensures Lex(s, SkipBlanks(s, p)) == Lex(s, p)
  {
    SkipTwice(s, p);
  }

  /** The first token, as gettoken finds it from the blanks before it on. */
  lemma LexFirst(s: string, p: nat)
    requires p <= |s| && Line(s)
    ensures var t := GetToken(s, SkipBlanks(s, p));
            && (t.tok == '\0' <==> Lex(s, p) == [])
            && (t.tok != '\0' ==> Lex(s, p) == [TokOf(s, t)] + Lex(s, t.next))
            && (t.tok == '\0' ==> Lex(s, t.next) == [])
            && (t.tok == 'a' <==> Head(Lex(s, p)) == 'a')
  {
    SkipTwice(s, p);
    var t := GetToken(s, p);
    if t.tok == '\0' {
      SkipTwice(s, t.next);
    }
  }

  lemma PeekLex(s: string, p: nat, toks: string)
    requires p <= |s| && Line(s) && 'a' !in toks && '\0' !in toks && forall c :: c in toks ==> Symbol(c)
    ensures Peek(s, p, toks) <==> Head(Lex(s, p)) in toks
  {
    SkipTwice(s, p);
    var q := SkipBlanks(s, p);
    var t := GetToken(s, q);
    assert t.tok == '\0' <==> At(s, q) == '\0';
  }

  lemma LexEnd(s: string, p: nat)
    requires p <= |s| && Line(s)
    ensures Lex(s, p) == [] <==> SkipBlanks(s, p) == |s|
  {
    SkipTwice(s, p);
  }

  // ---------------------------------------------------------------------------
  // The grammar

  datatype Redirection = Redirection(sign: char, file: string)

  datatype Arg = Arg(word: string, redirs: seq<Redirection>)

  /** Words with redirections before, among and after them, or a block. */
  datatype Unit = Simple(first: seq<Redirection>, args: seq<Arg>) | Block(line: Phrase, redirs: seq<Redirection>)

  datatype Pipeline = One(unit: Unit) | Into(unit: Unit, rest: Pipeline)

  /** Pipelines with ampersands after them, separated by semicolons. */
  datatype Phrase = Last(pipe: Pipeline, backs: nat) | Then(pipe: Pipeline, backs: nat, rest: Phrase)

  predicate GoodSign(r: Redirection) {
    r.sign == '<' || r.sign == '>' || r.sign == '+'
  }

  predicate GoodSigns(rs: seq<Redirection>) {
    forall i :: 0 <= i < |rs| ==> GoodSign(rs[i])
  }

  /** At most nine words to a command. */
  predicate FitsUnit(u: Unit) {
    match u
    case Simple(first, args) =>
      GoodSigns(first) && |args| < MAXARGS && forall i :: 0 <= i < |args| ==> GoodSigns(args[i].redirs)
    case Block(line, redirs) => Fits(line) && GoodSigns(redirs)
  }

  predicate FitsPipe(p: Pipeline) {
    match p
    case One(u) => FitsUnit(u)
    case Into(u, rest) => FitsUnit(u) && FitsPipe(rest)
  }

  predicate Fits(c: Phrase) {
    match c
    case Last(p, _) => FitsPipe(p)
    case Then(p, _, rest) => FitsPipe(p) && Fits(rest)
  }

  // ---------------------------------------------------------------------------
  // Its token sequences

  function YieldRedirs(rs: seq<Redirection>): seq<Tok> {
    if rs == [] then [] else [S(rs[0].sign), W(rs[0].file)] + YieldRedirs(rs[1..])
  }

  function YieldArgs(args: seq<Arg>): seq<Tok> {
    if args == [] then [] else [W(args[0].word)] + YieldRedirs(args[0].redirs) + YieldArgs(args[1..])
  }

  function YieldUnit(u: Unit): seq<Tok> {
    match u
    case Simple(first, args) => YieldRedirs(first) + YieldArgs(args)
    case Block(line, redirs) => [S('(')] + Yield(line) + [S(')')] + YieldRedirs(redirs)
  }

  function YieldPipe(p: Pipeline): seq<Tok> {
    match p
    case One(u) => YieldUnit(u)
    case Into(u, rest) => YieldUnit(u) + [S('|')] + YieldPipe(rest)
  }

  function Amps(n: nat): seq<Tok> {
    if n == 0 then [] else [S('&')] + Amps(n - 1)
  }

  function Yield(c: Phrase): seq<Tok> {
    match c
    case Last(p, n) => YieldPipe(p) + Amps(n)
    case Then(p, n, rest) => YieldPipe(p) + Amps(n) + [S(';')] + Yield(rest)
  }

  // ---------------------------------------------------------------------------
  // Its meaning

  function ModeOf(r: Redirection): Mode {
    if r.sign == '<' then Reading else Writing
  }

  /** The last redirection is the outermost. */
  function Around(t: Tree, rs: seq<Redirection>): Tree {
    if rs == [] then t
    else var r := rs[|rs| - 1]; Redir(Around(t, rs[..|rs| - 1]), r.file, ModeOf(r))
  }

  function WordsOf(args: seq<Arg>): seq<string> {
    if args == [] then [] else [args[0].word] + WordsOf(args[1..])
  }

  function RedirsOf(args: seq<Arg>): seq<Redirection> {
    if args == [] then [] else args[0].redirs + RedirsOf(args[1..])
  }

  function MeaningUnit(u: Unit): Tree {
    match u
    case Simple(first, args) => Around(Exec(WordsOf(args)), first + RedirsOf(args))
    case Block(line, redirs) => Around(Meaning(line), redirs)
  }

  function MeaningPipe(p: Pipeline): Tree {
    match p
    case One(u) => MeaningUnit(u)
    case Into(u, rest) => Pipe(MeaningUnit(u), MeaningPipe(rest))
  }

  function Backs(t: Tree, n: nat): Tree {
    if n == 0 then t else Back(Backs(t, n - 1))
  }

  function Meaning(c: Phrase): Tree {
    match c
    case Last(p, n) => Backs(MeaningPipe(p), n)
    case Then(p, n, rest) => List(Backs(MeaningPipe(p), n), Meaning(rest))
  }

  // ---------------------------------------------------------------------------
  // Redirections

  /** The parser's list of redirections is that of the phrase. */
  ghost predicate Same(s: string, list: seq<Redirect>, rs: seq<Redirection>) {
    && |list| == |rs| && GoodSigns(rs)
    && forall i :: 0 <= i < |rs| ==> Text(s, list[i].file) == rs[i].file && list[i].mode == ModeOf(rs[i])
  }

  lemma SameJoin(s: string, a: seq<Redirect>, b: seq<Redirect>, x: seq<Redirection>, y: seq<Redirection>)
    requires Same(s, a, x) && Same(s, b, y)
    ensures Same(s, a + b, x + y)
  {}

  lemma {:induction false} AroundFront(t: Tree, rs: seq<Redirection>)
    requires rs != []
    ensures Around(t, rs) == Around(Redir(t, rs[0].file, ModeOf(rs[0])), rs[1..])
    decreases |rs|
  {
    if |rs| > 1 {
      var n := |rs| - 1;
      AroundFront(t, rs[..n]);
      assert rs[1..][..n - 1] == rs[..n][1..];
    }
  }

  /** Wrap puts the last redirection outermost. */
  lemma {:induction false} WrapIs(s: string, cmd: Cmd<Span>, list: seq<Redirect>, rs: seq<Redirection>)
    requires Same(s, list, rs)
    ensures TreeOf(s, Wrap(cmd, Pairs(list))) == Around(TreeOf(s, cmd), rs)
    decreases |list|
  {
    if list != [] {
      AroundFront(TreeOf(s, cmd), rs);
      assert Pairs(list)[1..] == Pairs(list[1..]);
      WrapIs(s, Redir(cmd, list[0].file, list[0].mode), list[1..], rs[1..]);
    }
  }

  /** One redirection at p, and what parseredirs makes of it. */
  lemma RedirStep(s: string, p: nat)
    requires p <= |s| && Line(s) && (Head(Lex(s, p)) == '<' || Head(Lex(s, p)) == '>')
    ensures var ts := Lex(s, p);
            var t := GetToken(s, SkipBlanks(s, p));
            var f := GetToken(s, t.next);
            && ts[0] == S(t.tok) && (t.tok == '<' || t.tok == '>' || t.tok == '+') && t.next <= |s| && f.next <= |s|
            && (Head(ts[1..]) != 'a' ==> ParseRedirs(s, p).Panic?)
            && (Head(ts[1..]) == 'a' ==>
                  && ts == [S(t.tok), W(Text(s, f.span))] + Lex(s, f.next)
                  && var more := ParseRedirs(s, f.next);
                     var one := Redirect(f.span, if t.tok == '<' then Reading else Writing);
                     ParseRedirs(s, p) == if more.Panic? then Panic
                         else Ok(Redirects([one] + more.value.list, more.value.pos)))
  {
    hide GetToken, SkipBlanks, Lex;
    PeekLex(s, p, "<>");
    LexFirst(s, p);
    var t := GetToken(s, SkipBlanks(s, p));
    LexFirst(s, t.next);
    SkipTwice(s, t.next);
    assert Lex(s, p)[1..] == Lex(s, t.next);
  }

  lemma RedirsEnd(s: string, p: nat)
    requires p <= |s| && Line(s) && Head(Lex(s, p)) != '<' && Head(Lex(s, p)) != '>'
    ensures ParseRedirs(s, p) == Ok(Redirects([], SkipBlanks(s, p))) && Lex(s, SkipBlanks(s, p)) == Lex(s, p)
  {
    PeekLex(s, p, "<>");
    LexSkip(s, p);
  }

  lemma NoneSame(s: string)
    ensures Same(s, [], [])
  {}

  lemma SameCons(s: string, one: Redirect, r: Redirection, list: seq<Redirect>, rs: seq<Redirection>)
    requires Same(s, list, rs) && GoodSign(r) && Text(s, one.file) == r.file && one.mode == ModeOf(r)
    ensures Same(s, [one] + list, [r] + rs)
  {}

  lemma YieldNone()
    ensures YieldRedirs([]) == []
  {}

  lemma YieldMore(r: Redirection, rs: seq<Redirection>)
    ensures YieldRedirs([r] + rs) == [S(r.sign), W(r.file)] + YieldRedirs(rs)
  {
    assert ([r] + rs)[1..] == rs;
  }

  lemma {:induction false} RedirsSound(s: string, p: nat) returns (rs: seq<Redirection>)
    requires p <= |s| && Line(s) && ParseRedirs(s, p).Ok?
    ensures var r := ParseRedirs(s, p).value;
            && Same(s, r.list, rs) && Lex(s, p) == YieldRedirs(rs) + Lex(s, r.pos)
            && Head(Lex(s, r.pos)) != '<' && Head(Lex(s, r.pos)) != '>'
    decreases |s| - p
  {
    hide ParseRedirs, Lex, GetToken, SkipBlanks, Same, YieldRedirs;
    rs := [];
    if Head(Lex(s, p)) == '<' || Head(Lex(s, p)) == '>' {
      RedirStep(s, p);
      var t := GetToken(s, SkipBlanks(s, p));
      var f := GetToken(s, t.next);
      var more := RedirsSound(s, f.next);
      var r := Redirection(t.tok, Text(s, f.span));
      YieldMore(r, more);
      SameCons(s, Redirect(f.span, ModeOf(r)), r, ParseRedirs(s, f.next).value.list, more);
      rs := [r] + more;
    } else {
      NoneSame(s);
      YieldNone();
      RedirsEnd(s, p);
    }
  }

  lemma {:induction false} RedirsComplete(s: string, p: nat, rs: seq<Redirection>, rest: seq<Tok>)
    requires p <= |s| && Line(s) && GoodSigns(rs) && Lex(s, p) == YieldRedirs(rs) + rest
    requires Head(rest) != '<' && Head(rest) != '>'
    ensures var r := ParseRedirs(s, p); r.Ok? && Same(s, r.value.list, rs) && Lex(s, r.value.pos) == rest
    decreases |rs|
  {
    hide ParseRedirs, Lex, GetToken, SkipBlanks, Same, YieldRedirs;
    if rs == [] {
      NoneSame(s);
      YieldNone();
      RedirsEnd(s, p);
    } else {
      assert GoodSign(rs[0]);
      assert rs == [rs[0]] + rs[1..];
      YieldMore(rs[0], rs[1..]);
      assert Lex(s, p) == [S(rs[0].sign), W(rs[0].file)] + (YieldRedirs(rs[1..]) + rest);
      RedirStep(s, p);
      var t := GetToken(s, SkipBlanks(s, p));
      var f := GetToken(s, t.next);
      assert Lex(s, f.next) == Lex(s, p)[2..];
      RedirsComplete(s, f.next, rs[1..], rest);
      SameCons(s, Redirect(f.span, ModeOf(rs[0])), rs[0], ParseRedirs(s, f.next).value.list, rs[1..]);
    }
  }

  // ---------------------------------------------------------------------------
  // Simple commands

  /** What may follow a unit of a pipeline. */
  predicate AfterUnit(ts: seq<Tok>) {
    Head(ts) in {'\0', '|', ')', '&', ';'}
  }

  /** One turn of parseexec's loop. */
  lemma ArgsTurn(s: string, p: nat, n: nat)
    requires p <= |s| && Line(s)
    ensures var ts := Lex(s, p);
            var r := ParseArgs(s, p, n);
            && (AfterUnit(ts) ==> r.Ok? && r.value.argv == [] && r.value.redirs == [] && Lex(s, r.value.pos) == ts)
            && (!AfterUnit(ts) && (Head(ts) != 'a' || n + 1 >= MAXARGS) ==> r.Panic?)
            && (Head(ts) == 'a' && n + 1 < MAXARGS ==>
                  var t := GetToken(s, SkipBlanks(s, p));
                  && p < t.next <= |s| && ts == [W(Text(s, t.span))] + Lex(s, t.next)
                  && (match ParseRedirs(s, t.next)
                      case Panic => r.Panic?
                      case Ok(here) =>
                        (match ParseArgs(s, here.pos, n + 1)
                         case Panic => r.Panic?
                         case Ok(more) => r == Ok(Args([t.span] + more.argv, here.list + more.redirs, more.pos)))))
  {
    hide GetToken, SkipBlanks, ParseRedirs, Lex;
    PeekLex(s, p, "|)&;");
    LexFirst(s, p);
    LexSkip(s, p);
  }

  lemma ArgsCons(a: Arg, args: seq<Arg>)
    ensures YieldArgs([a] + args) == [W(a.word)] + YieldRedirs(a.redirs) + YieldArgs(args)
    ensures WordsOf([a] + args) == [a.word] + WordsOf(args) && RedirsOf([a] + args) == a.redirs + RedirsOf(args)
  {
    assert ([a] + args)[1..] == args;
  }

  lemma {:induction false} ArgsSound(s: string, p: nat, n: nat) returns (args: seq<Arg>)
    requires p <= |s| && Line(s) && ParseArgs(s, p, n).Ok? && n < MAXARGS
    ensures var r := ParseArgs(s, p, n).value;
            && Lex(s, p) == YieldArgs(args) + Lex(s, r.pos) && AfterUnit(Lex(s, r.pos))
            && Texts(s, r.argv) == WordsOf(args) && Same(s, r.redirs, RedirsOf(args))
    ensures n + |args| < MAXARGS && forall i :: 0 <= i < |args| ==> GoodSigns(args[i].redirs)
    decreases |s| - p
  {
    hide ParseArgs, ParseRedirs, Lex, GetToken, SkipBlanks, Same, YieldRedirs, GoodSigns;
    ArgsTurn(s, p, n);
    args := [];
    if AfterUnit(Lex(s, p)) {
      NoneSame(s);
    } else {
      var t := GetToken(s, SkipBlanks(s, p));
      var here := ParseRedirs(s, t.next).value;
      var rs := RedirsSound(s, t.next);
      var more := ArgsSound(s, here.pos, n + 1);
      var a := Arg(Text(s, t.span), rs);
      ArgsCons(a, more);
      SignsOf(s, here.list, rs);
      var rest := ParseArgs(s, here.pos, n + 1).value;
      SameJoin(s, here.list, rest.redirs, rs, RedirsOf(more));
      TextsCons(s, t.span, rest.argv);
      args := [a] + more;
    }
  }

  lemma SignsOf(s: string, list: seq<Redirect>, rs: seq<Redirection>)
    requires Same(s, list, rs)
    ensures GoodSigns(rs)
  {}

  lemma {:induction false} ArgsComplete(s: string, p: nat, n: nat, args: seq<Arg>, rest: seq<Tok>)
    requires p <= |s| && Line(s) && Lex(s, p) == YieldArgs(args) + rest && AfterUnit(rest)
    requires n + |args| < MAXARGS && forall i :: 0 <= i < |args| ==> GoodSigns(args[i].redirs)
    ensures var r := ParseArgs(s, p, n);
            && r.Ok? && Lex(s, r.value.pos) == rest
            && Texts(s, r.value.argv) == WordsOf(args) && Same(s, r.value.redirs, RedirsOf(args))
    decreases |args|
  {
    hide ParseArgs, ParseRedirs, Lex, GetToken, SkipBlanks, Same, YieldRedirs, GoodSigns;
    ArgsTurn(s, p, n);
    if args == [] {
      NoneSame(s);
    } else {
      var a, more := args[0], args[1..];
      var ts := YieldArgs(more) + rest;
      assert Lex(s, p) == [W(a.word)] + (YieldRedirs(a.redirs) + ts);
      var t := GetToken(s, SkipBlanks(s, p));
      assert Lex(s, t.next) == Lex(s, p)[1..];
      RedirsComplete(s, t.next, a.redirs, ts);
      var here := ParseRedirs(s, t.next).value;
      ArgsComplete(s, here.pos, n + 1, more, rest);
      var r := ParseArgs(s, here.pos, n + 1).value;
      SameJoin(s, here.list, r.redirs, a.redirs, RedirsOf(more));
      TextsCons(s, t.span, r.argv);
    }
  }

  // ---------------------------------------------------------------------------
  // Units

  lemma SimpleTurn(s: string, p: nat)
    requires p <= |s| && Line(s) && Head(Lex(s, p)) != '('
    ensures var q := SkipBlanks(s, p);
            && p <= q <= |s| && Lex(s, q) == Lex(s, p)
            && (match ParseRedirs(s, q)
                case Panic => ParseExec(s, p).Panic?
                case Ok(first) =>
                  (match ParseArgs(s, first.pos, 0)
                   case Panic => ParseExec(s, p).Panic?
                   case Ok(args) =>
                     ParseExec(s, p) == Ok(Parsed(Wrap(Exec(args.argv), Pairs(first.list + args.redirs)), args.pos))))
  {
    hide GetToken, ParseRedirs, ParseArgs, Lex;
    PeekLex(s, p, "(");
    LexSkip(s, p);
  }

  lemma BlockTurn(s: string, p: nat)
    requires p <= |s| && Line(s) && Head(Lex(s, p)) == '('
    ensures var ts := Lex(s, p);
            var q := GetToken(s, SkipBlanks(s, p)).next;
            && p < q <= |s| && ts == [S('(')] + Lex(s, q)
            && (match ParseLine(s, q)
                case Panic => ParseExec(s, p).Panic?
                case Ok(line) =>
                  var us := Lex(s, line.pos);
                  && (Head(us) != ')' ==> ParseExec(s, p).Panic?)
                  && (Head(us) == ')' ==>
                        var m := GetToken(s, SkipBlanks(s, line.pos)).next;
                        && m <= |s| && us == [S(')')] + Lex(s, m)
                        && (match ParseRedirs(s, m)
                            case Panic => ParseExec(s, p).Panic?
                            case Ok(after) =>
                              ParseExec(s, p) == Ok(Parsed(Wrap(line.cmd, Pairs(after.list)), after.pos)))))
  {
    hide GetToken, ParseRedirs, ParseArgs, Lex, ParseLine;
    PeekLex(s, p, "(");
    LexFirst(s, p);
    LexSkip(s, p);
    var b := SkipBlanks(s, p);
    PeekLex(s, b, "(");
    SkipTwice(s, p);
    var q := GetToken(s, b).next;
    var r := ParseLine(s, q);
    if r.Ok? {
      PeekLex(s, r.value.pos, ")");
      LexFirst(s, r.value.pos);
    }
  }

  // ---------------------------------------------------------------------------
  // Pipelines and lines

  predicate AfterPipe(ts: seq<Tok>) {
    Head(ts) in {'\0', ')', '&', ';'}
  }

  predicate AfterLine(ts: seq<Tok>) {
    Head(ts) in {'\0', ')'}
  }

  lemma PipeTurn(s: string, p: nat)
    requires p <= |s| && Line(s)
    ensures match ParseExec(s, p)
            case Panic => ParsePipe(s, p).Panic?
            case Ok(left) =>
              var ts := Lex(s, left.pos);
              && (Head(ts) != '|' ==>
                    ParsePipe(s, p) == Ok(Parsed(left.cmd, SkipBlanks(s, left.pos))) &&
                        Lex(s, SkipBlanks(s, left.pos)) == ts)
              && (Head(ts) == '|' ==>
                    var q := GetToken(s, SkipBlanks(s, left.pos)).next;
                    && p < q <= |s| && ts == [S('|')] + Lex(s, q)
                    && (match ParsePipe(s, q)
                        case Panic => ParsePipe(s, p).Panic?
                        case Ok(right) => ParsePipe(s, p) == Ok(Parsed(Pipe(left.cmd, right.cmd), right.pos))))
  {
    hide GetToken, ParseExec, Lex;
    var r := ParseExec(s, p);
    if r.Ok? {
      PeekLex(s, r.value.pos, "|");
      LexFirst(s, r.value.pos);
      LexSkip(s, r.value.pos);
    }
  }

  /** The loop over ampersands, backwards. */
  lemma {:induction false} BacksSound(s: string, cmd: Cmd<Span>, p: nat) returns (n: nat)
    requires p <= |s| && Line(s)
    ensures var r := ParseBacks(s, cmd, p);
            && Lex(s, p) == Amps(n) + Lex(s, r.pos) && Head(Lex(s, r.pos)) != '&'
            && TreeOf(s, r.cmd) == Backs(TreeOf(s, cmd), n)
    decreases |s| - p
  {
    hide GetToken, Lex;
    PeekLex(s, p, "&");
    LexFirst(s, p);
    LexSkip(s, p);
    n := 0;
    if Head(Lex(s, p)) == '&' {
      var q := GetToken(s, SkipBlanks(s, p)).next;
      n := BacksSound(s, Back(cmd), q);
      BackInside(TreeOf(s, cmd), n);
      n := n + 1;
    }
  }

  lemma {:induction false} BackInside(t: Tree, n: nat)
    ensures Backs(Back(t), n) == Back(Backs(t, n))
  {
    if n > 0 {
      BackInside(t, n - 1);
    }
  }

  lemma {:induction false} BacksComplete(s: string, cmd: Cmd<Span>, p: nat, n: nat, rest: seq<Tok>)
    requires p <= |s| && Line(s) && Lex(s, p) == Amps(n) + rest && Head(rest) != '&'
    ensures var r := ParseBacks(s, cmd, p); Lex(s, r.pos) == rest && TreeOf(s, r.cmd) == Backs(TreeOf(s, cmd), n)
    decreases n
  {
    hide GetToken, Lex;
    PeekLex(s, p, "&");
    LexFirst(s, p);
    LexSkip(s, p);
    if n > 0 {
      var q := GetToken(s, SkipBlanks(s, p)).next;
      assert Lex(s, p) == [S('&')] + (Amps(n - 1) + rest);
      assert Lex(s, q) == Lex(s, p)[1..];
      BacksComplete(s, Back(cmd), q, n - 1, rest);
      BackInside(TreeOf(s, cmd), n - 1);
    }
  }

  lemma LineTurn(s: string, p: nat)
    requires p <= |s| && Line(s)
    ensures match ParsePipe(s, p)
            case Panic => ParseLine(s, p).Panic?
            case Ok(first) =>
              var left := ParseBacks(s, first.cmd, first.pos);
              var ts := Lex(s, left.pos);
              && (Head(ts) != ';' ==>
                    ParseLine(s, p) == Ok(Parsed(left.cmd, SkipBlanks(s, left.pos))) &&
                        Lex(s, SkipBlanks(s, left.pos)) == ts)
              && (Head(ts) == ';' ==>
                    var q := GetToken(s, SkipBlanks(s, left.pos)).next;
                    && p < q <= |s| && ts == [S(';')] + Lex(s, q)
                    && (match ParseLine(s, q)
                        case Panic => ParseLine(s, p).Panic?
                        case Ok(right) => ParseLine(s, p) == Ok(Parsed(List(left.cmd, right.cmd), right.pos))))
  {
    hide GetToken, ParsePipe, ParseBacks, Lex;
    var r := ParsePipe(s, p);
    if r.Ok? {
      var left := ParseBacks(s, r.value.cmd, r.value.pos);
      PeekLex(s, left.pos, ";");
      LexFirst(s, left.pos);
      LexSkip(s, left.pos);
    }
  }

  // ---------------------------------------------------------------------------
  // What is parsed is a phrase

  lemma SimpleSound(s: string, p: nat) returns (u: Unit)
    requires p <= |s| && Line(s) && ParseExec(s, p).Ok? && Head(Lex(s, p)) != '('
    ensures var r := ParseExec(s, p).value;
            FitsUnit(u) && Lex(s, p) == YieldUnit(u) + Lex(s, r.pos) && TreeOf(s, r.cmd) == MeaningUnit(u)
  {
    hide ParseExec, ParseArgs, ParseRedirs, Lex, GetToken, SkipBlanks, Same, YieldRedirs, YieldArgs, GoodSigns, Wrap;
    SimpleTurn(s, p);
    var q := SkipBlanks(s, p);
    var rs := RedirsSound(s, q);
    var first := ParseRedirs(s, q).value;
    var args := ArgsSound(s, first.pos, 0);
    var r := ParseArgs(s, first.pos, 0).value;
    SameJoin(s, first.list, r.redirs, rs, RedirsOf(args));
    WrapIs(s, Exec(r.argv), first.list + r.redirs, rs + RedirsOf(args));
    SignsOf(s, first.list, rs);
    u := Simple(rs, args);
  }

  lemma {:induction false} UnitSound(s: string, p: nat) returns (u: Unit)
    requires p <= |s| && Line(s) && ParseExec(s, p).Ok?
    ensures var r := ParseExec(s, p).value;
            FitsUnit(u) && Lex(s, p) == YieldUnit(u) + Lex(s, r.pos) && TreeOf(s, r.cmd) == MeaningUnit(u)
    decreases |s| - p, 1
  {
    hide ParseExec, ParseLine, ParseRedirs, Lex, GetToken, SkipBlanks, Same, YieldRedirs, GoodSigns, Wrap;
    if Head(Lex(s, p)) != '(' {
      u := SimpleSound(s, p);
      return;
    }
    BlockTurn(s, p);
    var q := GetToken(s, SkipBlanks(s, p)).next;
    var line := ParseLine(s, q).value;
    var c := LineSound(s, q);
    var m := GetToken(s, SkipBlanks(s, line.pos)).next;
    var rs := RedirsSound(s, m);
    var after := ParseRedirs(s, m).value;
    WrapIs(s, line.cmd, after.list, rs);
    SignsOf(s, after.list, rs);
    u := Block(c, rs);
    Regroup([S('(')], Yield(c), [S(')')], YieldRedirs(rs), Lex(s, after.pos));
  }

  lemma Regroup(a: seq<Tok>, b: seq<Tok>, c: seq<Tok>, d: seq<Tok>, e: seq<Tok>)
    ensures a + (b + (c + (d + e))) == a + b + c + d + e
  {}

  lemma {:induction false} PipeSound(s: string, p: nat) returns (c: Pipeline)
    requires p <= |s| && Line(s) && ParsePipe(s, p).Ok?
    ensures var r := ParsePipe(s, p).value;
            FitsPipe(c) && Lex(s, p) == YieldPipe(c) + Lex(s, r.pos) && TreeOf(s, r.cmd) == MeaningPipe(c)
    decreases |s| - p, 2
  {
    hide ParseExec, ParsePipe, Lex, GetToken, SkipBlanks, YieldUnit, MeaningUnit, FitsUnit;
    PipeTurn(s, p);
    var u := UnitSound(s, p);
    var left := ParseExec(s, p).value;
    c := One(u);
    if Head(Lex(s, left.pos)) == '|' {
      var rest := PipeSound(s, GetToken(s, SkipBlanks(s, left.pos)).next);
      c := Into(u, rest);
    }
  }

  lemma {:induction false} LineSound(s: string, p: nat) returns (c: Phrase)
    requires p <= |s| && Line(s) && ParseLine(s, p).Ok?
    ensures var r := ParseLine(s, p).value;
            Fits(c) && Lex(s, p) == Yield(c) + Lex(s, r.pos) && TreeOf(s, r.cmd) == Meaning(c)
    decreases |s| - p, 3
  {
    hide ParsePipe, ParseBacks, ParseLine, Lex, GetToken, SkipBlanks, YieldPipe, MeaningPipe, FitsPipe, Amps, Backs;
    LineTurn(s, p);
    var pipe := PipeSound(s, p);
    var first := ParsePipe(s, p).value;
    var n := BacksSound(s, first.cmd, first.pos);
    var left := ParseBacks(s, first.cmd, first.pos);
    var end := Lex(s, ParseLine(s, p).value.pos);
    if Head(Lex(s, left.pos)) == ';' {
      var rest := LineSound(s, GetToken(s, SkipBlanks(s, left.pos)).next);
      c := Then(pipe, n, rest);
      Regroup(YieldPipe(pipe), Amps(n), [S(';')], Yield(rest), end);
    } else {
      c := Last(pipe, n);
      assert YieldPipe(pipe) + (Amps(n) + end) == YieldPipe(pipe) + Amps(n) + end;
    }
  }

  // ---------------------------------------------------------------------------
  // Every phrase is parsed

  lemma {:induction false} UnitComplete(u: Unit, s: string, p: nat, rest: seq<Tok>)
    requires p <= |s| && Line(s) && FitsUnit(u) && Lex(s, p) == YieldUnit(u) + rest && AfterUnit(rest)
    ensures var r := ParseExec(s, p);
            r.Ok? && Lex(s, r.value.pos) == rest && TreeOf(s, r.value.cmd) == MeaningUnit(u)
    decreases u, 1
  {
    hide ParseExec, ParseLine, ParseArgs, ParseRedirs, Lex, GetToken, SkipBlanks, Same, YieldRedirs, GoodSigns, Wrap;
    match u
    case Block(c, rs) =>
      var ts := [S(')')] + YieldRedirs(rs) + rest;
      assert Lex(s, p) == [S('(')] + (Yield(c) + ts);
      BlockTurn(s, p);
      var q := GetToken(s, SkipBlanks(s, p)).next;
      assert Lex(s, q) == Lex(s, p)[1..];
      LineComplete(c, s, q, ts);
      var line := ParseLine(s, q).value;
      var m := GetToken(s, SkipBlanks(s, line.pos)).next;
      assert ts == [S(')')] + (YieldRedirs(rs) + rest);
      assert Lex(s, m) == ts[1..];
      RedirsComplete(s, m, rs, rest);
      WrapIs(s, line.cmd, ParseRedirs(s, m).value.list, rs);
    case Simple(rs, args) =>
      SimpleHead(rs, args, rest);
      assert Lex(s, p) == YieldRedirs(rs) + (YieldArgs(args) + rest);
      SimpleTurn(s, p);
      var q := SkipBlanks(s, p);
      RedirsComplete(s, q, rs, YieldArgs(args) + rest);
      var first := ParseRedirs(s, q).value;
      ArgsComplete(s, first.pos, 0, args, rest);
      var r := ParseArgs(s, first.pos, 0).value;
      SameJoin(s, first.list, r.redirs, rs, RedirsOf(args));
      WrapIs(s, Exec(r.argv), first.list + r.redirs, rs + RedirsOf(args));
  }

  lemma SimpleHead(rs: seq<Redirection>, args: seq<Arg>, rest: seq<Tok>)
    requires GoodSigns(rs) && AfterUnit(rest)
    ensures var ts := YieldArgs(args) + rest; Head(ts) != '<' && Head(ts) != '>' && Head(ts) != '('
    ensures Head(YieldRedirs(rs) + YieldArgs(args) + rest) != '('
  {
    if args == [] {
      assert YieldArgs(args) + rest == rest;
    }
    if rs == [] {
      assert YieldRedirs(rs) + YieldArgs(args) + rest == YieldArgs(args) + rest;
    } else {
      assert GoodSign(rs[0]);
    }
  }

  lemma {:induction false} PipeComplete(c: Pipeline, s: string, p: nat, rest: seq<Tok>)
    requires p <= |s| && Line(s) && FitsPipe(c) && Lex(s, p) == YieldPipe(c) + rest && AfterPipe(rest)
    ensures var r := ParsePipe(s, p);
            r.Ok? && Lex(s, r.value.pos) == rest && TreeOf(s, r.value.cmd) == MeaningPipe(c)
    decreases c, 2
  {
    hide ParseExec, ParsePipe, Lex, GetToken, SkipBlanks, YieldUnit, MeaningUnit, FitsUnit;
    PipeTurn(s, p);
    match c
    case One(u) => UnitComplete(u, s, p, rest);
    case Into(u, more) =>
      var ts := [S('|')] + (YieldPipe(more) + rest);
      assert Lex(s, p) == YieldUnit(u) + ts;
      UnitComplete(u, s, p, ts);
      var q := GetToken(s, SkipBlanks(s, ParseExec(s, p).value.pos)).next;
      assert Lex(s, q) == ts[1..];
      PipeComplete(more, s, q, rest);
  }

  lemma AmpsHead(n: nat, rest: seq<Tok>)
    requires AfterPipe(rest)
    ensures AfterPipe(Amps(n) + rest)
  {
    if n == 0 {
      assert Amps(n) + rest == rest;
    }
  }

  lemma {:induction false} LineComplete(c: Phrase, s: string, p: nat, rest: seq<Tok>)
    requires p <= |s| && Line(s) && Fits(c) && Lex(s, p) == Yield(c) + rest && AfterLine(rest)
    ensures var r := ParseLine(s, p);
            r.Ok? && Lex(s, r.value.pos) == rest && TreeOf(s, r.value.cmd) == Meaning(c)
    decreases c, 3
  {
    hide ParsePipe, ParseBacks, ParseLine, Lex, GetToken, SkipBlanks, YieldPipe, MeaningPipe, FitsPipe, Amps;
    LineTurn(s, p);
    var ts := match c { case Last(_, _) => rest case Then(_, _, more) => [S(';')] + (Yield(more) + rest) };
    assert Lex(s, p) == YieldPipe(c.pipe) + (Amps(c.backs) + ts);
    AmpsHead(c.backs, ts);
    PipeComplete(c.pipe, s, p, Amps(c.backs) + ts);
    var first := ParsePipe(s, p).value;
    BacksComplete(s, first.cmd, first.pos, c.backs, ts);
    if c.Then? {
      var q := GetToken(s, SkipBlanks(s, ParseBacks(s, first.cmd, first.pos).pos)).next;
      assert Lex(s, q) == ts[1..];
      LineComplete(c.rest, s, q, rest);
    }
  }

  // ---------------------------------------------------------------------------
  // The language

  /** The line is the phrase c, and means t. */
  ghost predicate Derives(s: string, c: Phrase, t: Tree) {
    Line(s) && Fits(c) && Lex(s, 0) == Yield(c) && Meaning(c) == t
  }

  /** The parser accepts a line with a tree if and only if the line is a phrase of the grammar
      with that meaning. */
  lemma ParserIsGrammar(s: string, t: Tree)
    ensures ParsesTo(s, t) <==> exists c :: Derives(s, c, t)
  {
    hide ParseLine, Lex, SkipBlanks, Yield, Meaning, Fits;
    if ParsesTo(s, t) {
      var line := ParseLine(s, 0).value;
      var c := LineSound(s, 0);
      LexEnd(s, line.pos);
      assert Lex(s, 0) == Yield(c) + [];
      assert Derives(s, c, t);
    }
    if c :| Derives(s, c, t) {
      assert Lex(s, 0) == Yield(c) + [];
      LineComplete(c, s, 0, []);
      LexEnd(s, ParseLine(s, 0).value.pos);
    }
  }

  // ---------------------------------------------------------------------------
  // Spelling

  /** A word of the language, or a symbol. */
  ghost predicate GoodTok(t: Tok) {
    match t
    case W(w) => Word(w)
    case S(c) => Symbol(c) || c == '+'
  }

  function SpellTok(t: Tok): string {
    match t
    case W(w) => w
    case S(c) => if c == '+' then ">>" else [c]
  }

  /** The tokens with a blank after each. */
  function Spell(ts: seq<Tok>): string {
    if ts == [] then [] else SpellTok(ts[0]) + [' '] + Spell(ts[1..])
  }

  lemma SymbolSpelled(c: char, s: string, p: nat)
    requires Line(s) && (Symbol(c) || c == '+') && Here(s, p, SpellTok(S(c)) + [' '])
    ensures var k := GetToken(s, p); k.tok == c && k.next == SkipBlanks(s, p + |SpellTok(S(c))|)
  {
    var x := SpellTok(S(c)) + [' '];
    assert s[p] == x[0] && s[p + 1] == x[1];
    NoBlankHere(s, p);
  }

  lemma TokSpelled(t: Tok, s: string, p: nat)
    requires Line(s) && GoodTok(t) && Here(s, p, SpellTok(t) + [' '])
    ensures var k := GetToken(s, p); k.tok != '\0' && TokOf(s, k) == t && k.next == SkipBlanks(s, p + |SpellTok(t)| + 1)
  {
    hide GetToken, SkipBlanks, Here, Symbol, WordEnd;
    HereSplit(s, p, SpellTok(t), [' ']);
    HereChar(s, p + |SpellTok(t)|, ' ');
    OneBlank(s, p + |SpellTok(t)|);
    match t
    case W(w) => WordToken(s, p, w);
    case S(c) => SymbolSpelled(c, s, p); NotWord(c);
  }

  lemma OneBlank(s: string, p: nat)
    requires p < |s| && s[p] == ' '
    ensures SkipBlanks(s, p) == SkipBlanks(s, p + 1) && Blank(s[p])
  {}

  lemma NotWord(c: char)
    requires Symbol(c) || c == '+'
    ensures c != 'a' && c != '\0'
  {}

  /** Spelled tokens are lexed as themselves. */
  lemma {:induction false} LexSpell(ts: seq<Tok>, s: string, p: nat)
    requires Line(s) && (forall i :: 0 <= i < |ts| ==> GoodTok(ts[i])) && Here(s, p, Spell(ts)) &&
             p + |Spell(ts)| == |s|
    ensures Lex(s, p) == ts
    decreases |ts|
  {
    hide GetToken, SpellTok, Here, SkipBlanks, GoodTok;
    if ts == [] {
      LexEnd(s, p);
    } else {
      var x := SpellTok(ts[0]) + [' '];
      HereSplit(s, p, x, Spell(ts[1..]));
      TokSpelled(ts[0], s, p);
      LexSpell(ts[1..], s, p + |x|);
      LexSkip(s, p + |x|);
      assert ts == [ts[0]] + ts[1..];
    }
  }

  lemma {:induction false} SpellIsLine(ts: seq<Tok>)
    requires forall i :: 0 <= i < |ts| ==> GoodTok(ts[i])
    ensures Line(Spell(ts))
  {
    if ts != [] {
      SpellIsLine(ts[1..]);
      assert Line(SpellTok(ts[0]));
    }
  }

  /** Any phrase whose words are words parses to its meaning, with the last redirection of a
      command outermost, and every & and ; where it stands. */
  lemma PhraseParses(c: Phrase)
    requires Fits(c) && forall i :: 0 <= i < |Yield(c)| ==> GoodTok(Yield(c)[i])
    ensures ParsesTo(Spell(Yield(c)), Meaning(c))
  {
    hide Spell, Yield, Meaning, Fits, Lex;
    var s := Spell(Yield(c));
    SpellIsLine(Yield(c));
    LexSpell(Yield(c), s, 0);
    assert Derives(s, c, Meaning(c));
    ParserIsGrammar(s, Meaning(c));
  }
}
