/** The parser as the shell runs it: one cursor over the line, advanced by loops. */
module ShellParser {
  import opened Shell

  const WHITESPACE: string := " \t\r\n\U{000B}"
  const SYMBOLS: string := "<|>&;()"

  /** What the recursive grammar gives when a prefix of the redirections is already read. */
  function After(acc: seq<Redirect>, r: Result<Redirects>): Result<Redirects> {
    match r
    case Panic => Panic
    case Ok(m) => Ok(Redirects(acc + m.list, m.pos))
  }

  /** And the same for the words and redirections of a simple command. */
  function AfterArgs(argv: seq<Span>, redirs: seq<Redirect>, r: Result<Args>): Result<Args> {
    match r
    case Panic => Panic
    case Ok(m) => Ok(Args(argv + m.argv, redirs + m.redirs, m.pos))
  }

  lemma SkipTwice(s: string, p: nat)
    requires p <= |s|
    ensures SkipBlanks(s, SkipBlanks(s, p)) == SkipBlanks(s, p)
  {}

  lemma RedirsSkip(s: string, p: nat)
    requires Line(s) && p <= |s|
    ensures ParseRedirs(s, SkipBlanks(s, p)) == ParseRedirs(s, p)
  {}

  lemma ArgsSkip(s: string, p: nat, n: nat)
    requires Line(s) && p <= |s|
    ensures ParseArgs(s, SkipBlanks(s, p), n) == ParseArgs(s, p, n)
  {}

  lemma BacksSkip(s: string, cmd: Cmd<Span>, p: nat)
    requires Line(s) && p <= |s|
    ensures ParseBacks(s, cmd, SkipBlanks(s, p)) == ParseBacks(s, cmd, p)
  {}

  lemma RedirsStep(s: string, p: nat, acc: seq<Redirect>)
    requires Line(s) && p <= |s| && Peek(s, p, "<>") && SkipBlanks(s, p) == p
    ensures var t := GetToken(s, p); var f := GetToken(s, t.next);
            After(acc, ParseRedirs(s, p)) ==
              if f.tok != 'a' then Panic
              else After(acc + [Redirect(f.span, if t.tok == '<' then Reading else Writing)], ParseRedirs(s, f.next))
  {
    hide GetToken;
    var t := GetToken(s, p);
    var f := GetToken(s, t.next);
    var more := ParseRedirs(s, f.next);
    if f.tok == 'a' && more.Ok? {
      var one := [Redirect(f.span, if t.tok == '<' then Reading else Writing)];
      assert acc + (one + more.value.list) == (acc + one) + more.value.list;
    }
  }

  lemma ArgsUnfold(s: string, p: nat, n: nat, here: Redirects)
    requires Line(s) && p <= |s| && !Peek(s, p, "|)&;") && SkipBlanks(s, p) == p
    requires GetToken(s, p).tok == 'a' && ParseRedirs(s, GetToken(s, p).next) == Ok(here) && n + 1 < MAXARGS
    ensures ParseArgs(s, p, n) == AfterArgs([GetToken(s, p).span], here.list, ParseArgs(s, here.pos, n + 1))
  {}

  lemma AfterTwice(argv: seq<Span>, redirs: seq<Redirect>, w: Span, here: seq<Redirect>, r: Result<Args>)
    ensures AfterArgs(argv, redirs, AfterArgs([w], here, r)) == AfterArgs(argv + [w], redirs + here, r)
  {
    if r.Ok? {
      assert argv + ([w] + r.value.argv) == (argv + [w]) + r.value.argv;
      assert redirs + (here + r.value.redirs) == (redirs + here) + r.value.redirs;
    }
  }

  lemma ArgsStep(s: string, p: nat, argv: seq<Span>, redirs: seq<Redirect>, here: Redirects)
    requires Line(s) && p <= |s| && !Peek(s, p, "|)&;") && SkipBlanks(s, p) == p
    requires GetToken(s, p).tok == 'a' && ParseRedirs(s, GetToken(s, p).next) == Ok(here) && |argv| + 1 < MAXARGS
    ensures AfterArgs(argv, redirs, ParseArgs(s, p, |argv|)) ==
            AfterArgs(argv + [GetToken(s, p).span], redirs + here.list, ParseArgs(s, here.pos, |argv| + 1))
  {
    hide GetToken, ParseRedirs, ParseArgs, Peek, AfterArgs;
    ArgsUnfold(s, p, |argv|, here);
    AfterTwice(argv, redirs, GetToken(s, p).span, here.list, ParseArgs(s, here.pos, |argv| + 1));
  }

  /** When the loop over words stops, and when it panics. */
  lemma ArgsStops(s: string, p: nat, n: nat)
    requires Line(s) && p <= |s| && SkipBlanks(s, p) == p
    ensures var t, r := GetToken(s, p), ParseArgs(s, p, n);
            && (Peek(s, p, "|)&;") ==> r == Ok(Args([], [], p)))
            && (!Peek(s, p, "|)&;") ==>
                  && (t.tok == '\0' ==> r == Ok(Args([], [], t.next)))
                  && (t.tok != '\0' && (t.tok != 'a' || n + 1 >= MAXARGS) ==> r == Panic)
                  && (t.tok == 'a' && ParseRedirs(s, t.next) == Panic ==> r == Panic))
  {}

  lemma AfterNothing(r: Result<Redirects>)
    ensures After([], r) == r
  {
    if r.Ok? {
      assert [] + r.value.list == r.value.list;
    }
  }

  lemma AfterEnd(argv: seq<Span>, redirs: seq<Redirect>, p: nat)
    ensures AfterArgs(argv, redirs, Ok(Args([], [], p))) == Ok(Args(argv, redirs, p))
    ensures After(redirs, Ok(Redirects([], p))) == Ok(Redirects(redirs, p))
  {
    assert argv + [] == argv && redirs + [] == redirs;
  }

  /** A simple command, through the running form of its loop. */
  lemma ExecUnfold(s: string, p: nat)
    requires Line(s) && p <= |s| && !Peek(s, p, "(")
    ensures ParseExec(s, p) == match ParseRedirs(s, SkipBlanks(s, p))
              case Panic => Panic
              case Ok(first) =>
                match AfterArgs([], first.list, ParseArgs(s, first.pos, 0))
                case Panic => Panic
                case Ok(a) => Ok(Parsed(Wrap(Exec(a.argv), Pairs(a.redirs)), a.pos))
  {
    hide ParseRedirs, ParseArgs, Wrap, Pairs, Peek;
    var first := ParseRedirs(s, SkipBlanks(s, p));
    if first.Ok? {
      var args := ParseArgs(s, first.value.pos, 0);
      if args.Ok? {
        assert [] + args.value.argv == args.value.argv;
      }
    }
  }

  class Cursor {
    const s: string
    var pos: nat

    ghost predicate Valid() reads this {
      pos <= |s| && Line(s)
    }

    constructor (line: string)
      requires Line(line)
      ensures Valid() && s == line && pos == 0
    {
      s := line;
      pos := 0;
    }

    method SkipSpace()
      requires Valid()
      modifies this
      ensures Valid() && pos == SkipBlanks(s, old(pos))
    {
      while pos < |s| && s[pos] in WHITESPACE
        invariant Valid() && SkipBlanks(s, pos) == SkipBlanks(s, old(pos))
        decreases |s| - pos
      {
        pos := pos + 1;
      }
    }

    /** gettoken. */
    method Next() returns (tok: char, span: Span)
      requires Valid()
      modifies this
      ensures Valid() && GetToken(s, old(pos)) == Token(tok, span, pos)
    {
      hide Line;
      SkipSpace();
      var q := pos;
      tok := At(s, pos);
      if tok == '\0' {
      } else if tok in ['|', '(', ')', ';', '&', '<'] {
        pos := pos + 1;
      } else if tok == '>' {
        pos := pos + 1;
        if At(s, pos) == '>' {
          tok := '+';
          pos := pos + 1;
        }
      } else {
        tok := 'a';
        while pos < |s| && s[pos] !in WHITESPACE && s[pos] !in SYMBOLS
          invariant Valid() && WordEnd(s, pos) == WordEnd(s, q)
          decreases |s| - pos
        {
          pos := pos + 1;
        }
      }
      span := Span(q, pos);
      SkipSpace();
    }

    /** peek. */
    method Sees(toks: string) returns (b: bool)
      requires Valid()
      modifies this
      ensures Valid() && pos == SkipBlanks(s, old(pos)) && SkipBlanks(s, pos) == pos
      ensures b == Peek(s, old(pos), toks) == Peek(s, pos, toks)
    {
      SkipSpace();
      SkipTwice(s, old(pos));
      b := At(s, pos) != '\0' && At(s, pos) in toks;
    }

    /** parseredirs: the redirections that follow, after those in acc. */
    method Redirections(acc: seq<Redirect>) returns (r: Result<seq<Redirect>>)
      requires Valid()
      modifies this
      ensures Valid()
      ensures After(acc, ParseRedirs(s, old(pos))) == if r.Ok? then Ok(Redirects(r.value, pos)) else Panic
    {
      var list := acc;
      var more := Sees("<>");
      RedirsSkip(s, old(pos));
      while more
        invariant Valid() && SkipBlanks(s, pos) == pos && more == Peek(s, pos, "<>")
        invariant After(acc, ParseRedirs(s, old(pos))) == After(list, ParseRedirs(s, pos))
        decreases |s| - pos
      {
        RedirsStep(s, pos, list);
        var tok, _ := Next();
        var ftok, file := Next();
        if ftok != 'a' {
          return Panic;
        }
        list := list + [Redirect(file, if tok == '<' then Reading else Writing)];
        RedirsSkip(s, pos);
        more := Sees("<>");
      }
      AfterEnd([], list, pos);
      return Ok(list);
    }

    /** parseexec. The redirections wrap the command while its words are still being
        filled in, so the words and the redirections are collected side by side. */
    method Exec() returns (r: Result<Cmd<Span>>)
      requires Valid()
      modifies this
      ensures Valid()
      ensures ParseExec(s, old(pos)) == if r.Ok? then Ok(Parsed(r.value, pos)) else Panic
      decreases |s| - pos, 1
    {
      hide ParseArgs, ParseRedirs, ParseBlock, Wrap, Pairs, Peek;
      var block := Sees("(");
      if block {
        r := Block();
        return;
      }
      ExecUnfold(s, old(pos));
      AfterNothing(ParseRedirs(s, pos));
      var first := Redirections([]);
      if first.Panic? {
        return Panic;
      }
      r := Arguments(first.value);
    }

    /** The loop of parseexec. */
    method Arguments(first: seq<Redirect>) returns (r: Result<Cmd<Span>>)
      requires Valid()
      modifies this
      ensures Valid()
      ensures match AfterArgs([], first, ParseArgs(s, old(pos), 0))
              case Panic => r.Panic?
              case Ok(a) => r == Ok(Wrap(Cmd.Exec(a.argv), Pairs(a.redirs))) && pos == a.pos
    {
      hide ParseArgs, ParseRedirs, Wrap, Pairs, Peek, SkipBlanks, GetToken;
      var argv: seq<Span>, redirs := [], first;
      var done := Sees("|)&;");
      ArgsSkip(s, old(pos), 0);
      while !done
        invariant Valid() && SkipBlanks(s, pos) == pos && done == Peek(s, pos, "|)&;") && |argv| < MAXARGS
        invariant AfterArgs([], first, ParseArgs(s, old(pos), 0)) == AfterArgs(argv, redirs, ParseArgs(s, pos, |argv|))
        decreases |s| - pos
      {
        ghost var p := pos;
        ArgsStops(s, pos, |argv|);
        var tok, span := Next();
        if tok == '\0' {
          AfterEnd(argv, redirs, pos);
          return Ok(Wrap(Cmd.Exec(argv), Pairs(redirs)));
        }
        if tok != 'a' {
          return Panic;
        }
        if |argv| + 1 >= MAXARGS {
          return Panic;
        }
        AfterNothing(ParseRedirs(s, pos));
        var more := Redirections([]);
        if more.Panic? {
          return Panic;
        }
        ArgsStep(s, p, argv, redirs, Redirects(more.value, pos));
        argv, redirs := argv + [span], redirs + more.value;
        ArgsSkip(s, pos, |argv|);
        done := Sees("|)&;");
      }
      ArgsStops(s, pos, |argv|);
      AfterEnd(argv, redirs, pos);
      return Ok(Wrap(Cmd.Exec(argv), Pairs(redirs)));
    }

    /** parseblock. */
    method Block() returns (r: Result<Cmd<Span>>)
      requires Valid()
      modifies this
      ensures Valid()
      ensures ParseBlock(s, old(pos)) == if r.Ok? then Ok(Parsed(r.value, pos)) else Panic
      decreases |s| - pos, 0
    {
      hide ParseRedirs, ParseLine, Wrap, Pairs, WordEnd;
      var open := Sees("(");
      if !open {
        return Panic;
      }
      var _, _ := Next();
      var line := Sequence();
      if line.Panic? {
        return Panic;
      }
      var close := Sees(")");
      if !close {
        return Panic;
      }
      var _, _ := Next();
      AfterNothing(ParseRedirs(s, pos));
      var redirs := Redirections([]);
      if redirs.Panic? {
        return Panic;
      }
      return Ok(Wrap(line.value, Pairs(redirs.value)));
    }

    /** parsepipe. */
    method Pipeline() returns (r: Result<Cmd<Span>>)
      requires Valid()
      modifies this
      ensures Valid()
      ensures ParsePipe(s, old(pos)) == if r.Ok? then Ok(Parsed(r.value, pos)) else Panic
      decreases |s| - pos, 2
    {
      r := Exec();
      if r.Panic? {
        return;
      }
      var bar := Sees("|");
      if bar {
        var _, _ := Next();
        var right := Pipeline();
        r := if right.Panic? then Panic else Ok(Pipe(r.value, right.value));
      }
    }

    /** parseline. */
    method Sequence() returns (r: Result<Cmd<Span>>)
      requires Valid()
      modifies this
      ensures Valid()
      ensures ParseLine(s, old(pos)) == if r.Ok? then Ok(Parsed(r.value, pos)) else Panic
      decreases |s| - pos, 3
    {
      r := Pipeline();
      if r.Panic? {
        return;
      }
      var cmd := Backs(r.value);
      r := Ok(cmd);
      var semi := Sees(";");
      if semi {
        var _, _ := Next();
        var right := Sequence();
        r := if right.Panic? then Panic else Ok(List(cmd, right.value));
      }
    }

    /** The loop of parseline. */
    method Backs(first: Cmd<Span>) returns (cmd: Cmd<Span>)
      requires Valid()
      modifies this
      ensures Valid() && ParseBacks(s, first, old(pos)) == Parsed(cmd, pos)
    {
      cmd := first;
      BacksSkip(s, first, pos);
      var back := Sees("&");
      while back
        invariant Valid() && SkipBlanks(s, pos) == pos && back == Peek(s, pos, "&")
        invariant ParseBacks(s, first, old(pos)) == ParseBacks(s, cmd, pos)
        decreases |s| - pos
      {
        var _, _ := Next();
        cmd := Back(cmd);
        BacksSkip(s, cmd, pos);
        back := Sees("&");
      }
    }
  }

  /** parsecmd: parses the C string in buf and ends its words in place. After a successful
      parse every argument and file name is the C string at its first character. */
  method ParseCommand(line: string, buf: array<char>) returns (r: Result<Cmd<Span>>)
    requires Line(line) && buf.Length == |line| + 1 && forall i :: 0 <= i < buf.Length ==> buf[i] == At(line, i)
    modifies buf
    ensures r == ParseCmd(line)
    ensures r.Panic? ==> buf[..] == old(buf[..])
    ensures r.Ok? ==> forall w :: HasSpan(r.value, w) ==> IsWord(line, w) && CString(buf[..], w.q) == line[w.q..w.eq]
  {
    var cursor := new Cursor(line);
    r := cursor.Sequence();
    if r.Panic? {
      return;
    }
    var _ := cursor.Sees("");
    if cursor.pos != |line| {
      return Panic;
    }
    forall w | HasSpan(r.value, w) ensures IsWord(line, w) {
      SpanIsWord(line, r.value, w);
    }
    NulTerminate(r.value, buf);
    forall w | HasSpan(r.value, w) ensures CString(buf[..], w.q) == line[w.q..w.eq] {
      WordsReadBack(line, r.value, buf[..], w);
    }
  }
}
