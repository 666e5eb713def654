/** The parsing functions of user/sh.c: a cursor moves over the text, and argument vectors are filled in place. */
module ShellCode {
  import opened Common
  import opened Shell
  import ShellGrammar

  /** The token code gettoken returns; zero stands for the end of the line. */
  function Code(t: Tok): char {
    match t
    case Word(_) => 'a'
    case Bar => '|'
    case LPar => '('
    case RPar => ')'
    case Semi => ';'
    case Amp => '&'
    case To(In) => '<'
    case To(Out) => '>'
    case To(Append) => '+'
  }

  /** The tokens from position `i` on. */
  function From(s: string, i: nat): seq<Tok>
    requires i <= |s|
  {
    Lex(s[i..])
  }

  lemma {:induction false} FromSpace(s: string, i: nat)
    requires i < |s| && IsSpace(s[i])
    ensures From(s, i) == From(s, i + 1)
  {
    assert s[i..][1..] == s[i + 1..];
  }

  lemma {:induction false} FromToken(s: string, i: nat, t: Tok, n: nat)
    requires i < |s| && !IsSpace(s[i]) && FirstToken(s[i..]) == (t, n)
    ensures i + n <= |s| && From(s, i) == [t] + From(s, i + n)
  {
    assert s[i..][n..] == s[i + n..];
  }

  method SkipSpace(s: string, i: nat) returns (j: nat)
    requires i <= |s|
    ensures i <= j <= |s| && From(s, j) == From(s, i) && (j < |s| ==> !IsSpace(s[j]))
  {
    hide From;
    j := i;
    while j < |s| && IsSpace(s[j])
      invariant i <= j <= |s| && From(s, j) == From(s, i)
    {
      FromSpace(s, j);
      j := j + 1;
    }
  }

  /** The loop of gettoken over the characters of a word. */
  method SkipWord(s: string, i: nat) returns (j: nat)
    requires i < |s|
    ensures i <= j <= |s| && j - i == WordLength(s[i..])
  {
    j := i;
    while j < |s| && !IsSpace(s[j]) && !IsSymbol(s[j])
      invariant i <= j <= |s| && WordLength(s[i..]) == j - i + WordLength(s[j..])
    {
      assert s[j..][1..] == s[j + 1..];
      j := j + 1;
    }
  }

  /** gettoken: the code and the extent of the next token; the cursor moves past it. */
  method GetToken(s: string, i: nat) returns (tok: char, q: nat, eq: nat, j: nat)
    requires i <= |s| && '\0' !in s
    ensures i <= j <= |s| && q <= eq <= |s|
    ensures From(s, i) == [] ==> tok == '\0' && From(s, j) == []
    ensures From(s, i) != [] ==> tok == Code(From(s, i)[0]) && From(s, j) == From(s, i)[1..]
    ensures From(s, i) != [] && tok == 'a' ==> From(s, i)[0] == Word(s[q..eq])
  {
    var k := SkipSpace(s, i);
    q := k;
    if k == |s| {
      return '\0', q, k, k;
    }
    tok := s[k];
    var e := k;
    if s[k] in "|();&<" {
      e := k + 1;
    } else if s[k] == '>' {
      e := k + 1;
      if e < |s| && s[e] == '>' {
        tok, e := '+', e + 1;
      }
    } else {
      tok := 'a';
      e := SkipWord(s, k);
    }
    TokenIs(s, k, tok, e);
    eq := e;
    hide From, Code;
    j := SkipSpace(s, e);
  }

  /** What gettoken has found is the next token. */
  lemma {:induction false} TokenIs(s: string, k: nat, tok: char, e: nat)
    requires k < e <= |s| && !IsSpace(s[k])
    requires s[k] in "|();&<" ==> tok == s[k] && e == k + 1
    requires s[k] == '>' ==> if k + 1 < |s| && s[k + 1] == '>' then tok == '+' && e == k + 2
        else tok == '>' && e == k + 1
    requires s[k] !in "|();&<>" ==> tok == 'a' && e - k == WordLength(s[k..])
    ensures From(s, k) != [] && tok == Code(From(s, k)[0]) && From(s, e) == From(s, k)[1..]
    ensures tok == 'a' ==> From(s, k)[0] == Word(s[k..e])
  {
    var (t, n) := FirstToken(s[k..]);
    FromToken(s, k, t, n);
    hide From, Lex, WordLength;
    assert s[k..][..e - k] == s[k..e];
  }

  /** The character a token that is not a word starts with. */
  function Sym(t: Tok): char {
    if t == To(Append) then '>' else Code(t)
  }

  ghost predicate Starts(toks: seq<Tok>, chars: string) {
    toks != [] && Sym(toks[0]) in chars
  }

  lemma {:induction false} HeadIs(s: string, k: nat, chars: string)
    requires k < |s| && !IsSpace(s[k]) && forall c :: c in chars ==> IsSymbol(c)
    ensures Starts(From(s, k), chars) <==> s[k] in chars
  {
    var (t, n) := FirstToken(s[k..]);
    FromToken(s, k, t, n);
    hide From, Lex, WordLength;
  }

  /** peek: whether the next token starts with one of the characters; the cursor moves to it. */
  method Peek(s: string, i: nat, chars: string) returns (b: bool, j: nat)
    requires i <= |s| && forall c :: c in chars ==> IsSymbol(c)
    ensures i <= j <= |s| && From(s, j) == From(s, i)
    ensures b <==> Starts(From(s, i), chars)
    ensures j < |s| ==> !IsSpace(s[j])
  {
    j := SkipSpace(s, i);
    if j < |s| {
      HeadIs(s, j, chars);
      hide From, Starts;
      b := s[j] in chars;
    } else {
      assert s[j..] == [];
      b := false;
    }
  }

  lemma {:induction false} Symbols()
    ensures forall c :: c in "|)&;" ==> IsSymbol(c)
    ensures forall c :: c in "<>" ==> IsSymbol(c)
    ensures forall c :: c in "(" ==> IsSymbol(c)
    ensures forall c :: c in ")" ==> IsSymbol(c)
    ensures forall c :: c in "&" ==> IsSymbol(c)
    ensures forall c :: c in ";" ==> IsSymbol(c)
    ensures forall c :: c in "|" ==> IsSymbol(c)
  {
  }

  lemma {:induction false} Kinds(toks: seq<Tok>)
    ensures Starts(toks, "|)&;") <==> toks != [] && EndsArgs(toks[0])
    ensures Starts(toks, "<>") <==> toks != [] && toks[0].To?
    ensures Starts(toks, "(") <==> toks != [] && toks[0].LPar?
    ensures Starts(toks, ")") <==> toks != [] && toks[0].RPar?
    ensures Starts(toks, "&") <==> toks != [] && toks[0].Amp?
    ensures Starts(toks, ";") <==> toks != [] && toks[0].Semi?
    ensures Starts(toks, "|") <==> toks != [] && toks[0].Bar?
  {
  }

  /** What the redirections still to come add to those already read. */
  ghost predicate RedirsSoFar(toks: seq<Tok>, list: seq<(string, Mode)>, rest: seq<Tok>) {
    match ParseRedirs(rest)
    case NoFile => ParseRedirs(toks).NoFile?
    case Redirs(more, after) => ParseRedirs(toks) == Redirs(list + more, after)
  }

  lemma {:induction false} RedirsTurn(toks: seq<Tok>, list: seq<(string, Mode)>, rest: seq<Tok>)
    requires RedirsSoFar(toks, list, rest) && |rest| >= 2 && rest[0].To? && rest[1].Word?
    ensures RedirsSoFar(toks, list + [(rest[1].w, rest[0].mode)], rest[2..])
  {
    var r := (rest[1].w, rest[0].mode);
    assert rest == [To(r.1), Word(r.0)] + rest[2..];
    RedirStep(r, rest, rest[2..]);
    hide ParseRedirs;
    var now := ParseRedirs(rest[2..]);
    if now.Redirs? {
      assert list + ([r] + now.list) == (list + [r]) + now.list;
    }
  }

  /** The mode for the code of a redirection token. */
  function ModeOf(tok: char): Mode {
    if tok == '<' then In else if tok == '>' then Out else Append
  }

  /** The outcome of reading redirections round `c` is that of the parser on the tokens from where it started. */
  ghost predicate RedirsRead(p: Redirs, c: Cmd, s: string, r: Result, j: nat)
    requires j <= |s|
  {
    match p
    case NoFile => r == Fail(MissingFile)
    case Redirs(list, rest) => r == Parse(Wrap(c, list)) && From(s, j) == rest
  }

  /** parseredirs. */
  method ReadRedirs(c: Cmd, s: string, i: nat) returns (r: Result, j: nat)
    requires i <= |s| && '\0' !in s
    ensures i <= j <= |s| && RedirsRead(ParseRedirs(From(s, i)), c, s, r, j)
  {
    var cmd := c;
    Symbols();
    ghost var list: seq<(string, Mode)> := [];
    ghost var toks := From(s, i);
    RedirsStart(toks);
    hide From, Wrap, Starts, RedirsSoFar, ParseRedirs;
    assert cmd == Wrap(c, list) by {
      WrapNone(c);
    }
    var more;
    more, j := Peek(s, i, "<>");
    Kinds(From(s, j));
    while more
      invariant i <= j <= |s| && cmd == Wrap(c, list) && RedirsSoFar(toks, list, From(s, j))
      invariant more <==> From(s, j) != [] && From(s, j)[0].To?
      decreases |From(s, j)|
    {
      ghost var rest := From(s, j);
      var tok, q, eq, k := GetToken(s, j);
      var t2;
      t2, q, eq, k := GetToken(s, k);
      if t2 != 'a' {
        NoWord(toks, list, rest);
        return Fail(MissingFile), k;
      }
      assert rest[1] == Word(s[q..eq]) && ModeOf(tok) == rest[0].mode;
      RedirsTurn(toks, list, rest);
      WrapMore(c, list, (s[q..eq], ModeOf(tok)));
      cmd := Redir(cmd, s[q..eq], ModeOf(tok));
      list := list + [(s[q..eq], ModeOf(tok))];
      assert rest[1..][1..] == rest[2..];
      more, j := Peek(s, k, "<>");
      Kinds(From(s, j));
    }
    RedirsEnd(toks, list, From(s, j));
    return Parse(cmd), j;
  }

  lemma {:induction false} RedirsStart(toks: seq<Tok>)
    ensures RedirsSoFar(toks, [], toks)
  {
    if ParseRedirs(toks).Redirs? {
      assert [] + ParseRedirs(toks).list == ParseRedirs(toks).list;
    }
  }

  lemma {:induction false} RedirsEnd(toks: seq<Tok>, list: seq<(string, Mode)>, rest: seq<Tok>)
    requires RedirsSoFar(toks, list, rest) && (rest == [] || !rest[0].To?)
    ensures ParseRedirs(toks) == Redirs(list, rest)
  {
    NoRedirs(rest);
    hide ParseRedirs;
    assert list + [] == list;
  }

  lemma {:induction false} NoWord(toks: seq<Tok>, list: seq<(string, Mode)>, rest: seq<Tok>)
    requires RedirsSoFar(toks, list, rest) && rest != [] && rest[0].To? && (|rest| < 2 || !rest[1].Word?)
    ensures ParseRedirs(toks).NoFile?
  {
  }

  lemma {:induction false} WrapNone(c: Cmd)
    ensures Wrap(c, []) == c
  {
  }

  /** The arguments go into the command that the redirections are round. */
  function Fill(c: Cmd, args: seq<string>): Cmd {
    if c.Redir? then Redir(Fill(c.cmd, args), c.file, c.mode) else Exec(args)
  }

  lemma {:induction false} Filled(c: Cmd, list: seq<(string, Mode)>, args: seq<string>)
    ensures Fill(Wrap(c, list), args) == Wrap(Fill(c, args), list)
    decreases |list|
  {
    if list != [] {
      Filled(Redir(c, list[0].0, list[0].1), list[1..], args);
    }
  }

  lemma {:induction false} WrapAll(c: Cmd, a: seq<(string, Mode)>, b: seq<(string, Mode)>)
    ensures Wrap(Wrap(c, a), b) == Wrap(c, a + b)
    decreases |a|
  {
    if a == [] {
      assert a + b == b;
    } else {
      WrapAll(Redir(c, a[0].0, a[0].1), a[1..], b);
      assert (a + b)[1..] == a[1..] + b;
    }
  }

  /** What the arguments still to come add to those already read. */
  ghost predicate ArgsSoFar(toks: seq<Tok>, args: seq<string>, list: seq<(string, Mode)>, rest: seq<Tok>) {
    match ParseArgs(|args|, rest)
    case Bad(e) => ParseArgs(0, toks) == Bad(e)
    case Simple(more, redirs, after) => ParseArgs(0, toks) == Simple(args + more, list + redirs, after)
  }

  lemma {:induction false} ArgsStart(toks: seq<Tok>)
    ensures ArgsSoFar(toks, [], [], toks)
  {
    var r := ParseArgs(0, toks);
    if r.Simple? {
      assert [] + r.args == r.args && [] + r.redirs == r.redirs;
    }
  }

  lemma {:induction false} ArgsTurn(toks: seq<Tok>, args: seq<string>, list: seq<(string, Mode)>, rest: seq<Tok>)
    requires ArgsSoFar(toks, args, list, rest) && rest != [] && rest[0].Word?
    ensures |args| + 1 >= MAXARGS ==> ParseArgs(0, toks) == Bad(TooManyArgs)
    ensures |args| + 1 < MAXARGS && ParseRedirs(rest[1..]).NoFile? ==> ParseArgs(0, toks) == Bad(MissingFile)
    ensures |args| + 1 < MAXARGS && ParseRedirs(rest[1..]).Redirs? ==>
      ArgsSoFar(toks, args + [rest[0].w], list + ParseRedirs(rest[1..]).list, ParseRedirs(rest[1..]).rest)
  {
    if |args| + 1 < MAXARGS && ParseRedirs(rest[1..]).Redirs? {
      var r := ParseRedirs(rest[1..]);
      var now := ParseArgs(|args| + 1, r.rest);
      hide ParseRedirs;
      if now.Simple? {
        assert args + ([rest[0].w] + now.args) == (args + [rest[0].w]) + now.args;
        assert list + (r.list + now.redirs) == (list + r.list) + now.redirs;
      }
    }
  }

  lemma {:induction false} ArgsEnd(toks: seq<Tok>, args: seq<string>, list: seq<(string, Mode)>, rest: seq<Tok>)
    requires ArgsSoFar(toks, args, list, rest) && AfterArgs(rest)
    ensures ParseArgs(0, toks) == Simple(args, list, rest)
  {
    NoArgs(|args|, rest);
    hide ParseArgs;
    assert args + [] == args && list + [] == list;
  }

  lemma {:induction false} ArgsBad(toks: seq<Tok>, args: seq<string>, list: seq<(string, Mode)>, rest: seq<Tok>)
    requires ArgsSoFar(toks, args, list, rest) && rest != [] && !EndsArgs(rest[0]) && !rest[0].Word?
    ensures ParseArgs(0, toks) == Bad(Syntax)
  {
  }

  /** The first `n` entries of an argument vector. */
  ghost predicate Holds(argv: array<Option<string>>, args: seq<string>)
    reads argv
  {
    |args| <= argv.Length && forall k :: 0 <= k < |args| ==> argv[k] == Some(args[k])
  }

  /** The arguments up to the first null pointer. */
  method Collect(argv: array<Option<string>>, ghost args: seq<string>) returns (r: seq<string>)
    requires Holds(argv, args) && |args| < argv.Length && argv[|args|].None?
    ensures r == args
  {
    r := [];
    while argv[|r|].Some?
      invariant |r| <= |args| && r == args[..|r|]
      decreases |args| - |r|
    {
      r := r + [argv[|r|].value];
    }
  }

  /** The outcome of a parsing method is that of the parser on the tokens from where it started. */
  ghost predicate Agrees(p: Parsed, s: string, r: Result, j: nat)
    requires j <= |s|
  {
    match p
    case Err(e) => r == Fail(e)
    case Ok(c, rest) => r == Parse(c) && From(s, j) == rest
  }

  lemma {:induction false} SimpleIs(toks: seq<Tok>)
    ensures ParseSimple(toks) ==
      var l := ParseRedirs(toks);
      if l.NoFile? then Err(MissingFile)
      else
        var a := ParseArgs(0, l.rest);
        if a.Bad? then Err(a.error) else Ok(Wrap(Exec(a.args), l.list + a.redirs), a.rest)
  {
    hide ParseRedirs, ParseArgs;
  }

  /** parseexec without a block: the argument vector is filled in place, and never overrun. */
  method ReadSimple(s: string, i: nat) returns (r: Result, j: nat)
    requires i <= |s| && '\0' !in s
    ensures i <= j <= |s| && Agrees(ParseSimple(From(s, i)), s, r, j)
  {
    hide From, Wrap, Starts, ParseRedirs, ParseArgs, ParseSimple, ArgsSoFar, Fill;
    Symbols();
    SimpleIs(From(s, i));
    var argv := new Option<string>[MAXARGS](_ => None);
    var argc := 0;
    r, j := ReadRedirs(Exec([]), s, i);
    if r.Fail? {
      return;
    }
    ghost var first, toks := ParseRedirs(From(s, i)).list, From(s, j);
    ghost var args: seq<string>, list: seq<(string, Mode)> := [], [];
    ArgsStart(toks);
    assert first + list == first;
    var ret := r.cmd;
    while true
      invariant i <= j <= |s| && argv.Length == MAXARGS && fresh(argv) && argc == |args| < MAXARGS && Holds(argv, args)
      invariant ret == Wrap(Exec([]), first + list) && ArgsSoFar(toks, args, list, From(s, j))
      decreases |From(s, j)|
    {
      var stop;
      stop, j := Peek(s, j, "|)&;");
      ghost var rest := From(s, j);
      Kinds(rest);
      if stop {
        break;
      }
      var tok, q, eq, k := GetToken(s, j);
      NoZero();
      if tok == '\0' {
        break;
      }
      if tok != 'a' {
        ArgsBad(toks, args, list, rest);
        return Fail(Syntax), j;
      }
      argv[argc] := Some(s[q..eq]);
      argc := argc + 1;
      ArgsTurn(toks, args, list, rest);
      if argc >= MAXARGS {
        return Fail(TooManyArgs), j;
      }
      args := args + [s[q..eq]];
      r, j := ReadRedirs(ret, s, k);
      if r.Fail? {
        return;
      }
      ret := r.cmd;
      ghost var added := ParseRedirs(rest[1..]).list;
      WrapAll(Exec([]), first + list, added);
      assert (first + list) + added == first + (list + added);
      list := list + added;
    }
    argv[argc] := None;
    ArgsEnd(toks, args, list, From(s, j));
    Filled(Exec([]), first + list, args);
    FillExec(args);
    var words := Collect(argv, args);
    return Parse(Fill(ret, words)), j;
  }

  lemma {:induction false} FillExec(args: seq<string>)
    ensures Fill(Exec([]), args) == Exec(args)
  {
  }

  lemma {:induction false} NoZero()
    ensures forall t :: Code(t) != '\0'
  {
  }

  /** parseexec. */
  method ReadExec(s: string, i: nat) returns (r: Result, j: nat)
    requires i <= |s| && '\0' !in s
    ensures i <= j <= |s| && Agrees(ParseExec(From(s, i)), s, r, j)
    decreases |From(s, i)|, 1
  {
    hide From, Wrap, Starts, ParseLine, ParseRedirs, ParseSimple, Agrees;
    Symbols();
    var block, k := Peek(s, i, "(");
    Kinds(From(s, k));
    if block {
      r, j := ReadBlock(s, k);
    } else {
      r, j := ReadSimple(s, k);
    }
  }

  lemma {:induction false} BlockIs(toks: seq<Tok>)
    requires toks != [] && toks[0].LPar?
    ensures ParseLine(toks[1..]).Err? ==> ParseBlock(toks) == ParseLine(toks[1..])
    ensures ParseLine(toks[1..]).Ok? ==>
      var rest := ParseLine(toks[1..]).rest;
      if rest == [] || !rest[0].RPar? then ParseBlock(toks) == Err(MissingParen)
      else
        var l := ParseRedirs(rest[1..]);
        ParseBlock(toks) == if l.NoFile? then Err(MissingFile) else Ok(Wrap(ParseLine(toks[1..]).cmd, l.list), l.rest)
  {
    hide ParseLine, ParseRedirs;
  }

  /** parseblock. */
  method ReadBlock(s: string, i: nat) returns (r: Result, j: nat)
    requires i <= |s| && '\0' !in s && From(s, i) != [] && From(s, i)[0].LPar?
    ensures i <= j <= |s| && Agrees(ParseBlock(From(s, i)), s, r, j)
    decreases |From(s, i)|, 0
  {
    hide From, Wrap, Starts, ParseLine, ParseBlock, ParseRedirs;
    Symbols();
    BlockIs(From(s, i));
    var _, _, _, k := GetToken(s, i);
    r, j := ReadLine(s, k);
    if r.Fail? {
      return;
    }
    var close;
    close, j := Peek(s, j, ")");
    Kinds(From(s, j));
    if !close {
      return Fail(MissingParen), j;
    }
    var _, _, _, e := GetToken(s, j);
    r, j := ReadRedirs(r.cmd, s, e);
  }

  lemma {:induction false} PipeIs(toks: seq<Tok>)
    ensures var e := ParseExec(toks);
      if e.Err? then ParsePipe(toks) == e
      else if e.rest == [] || !e.rest[0].Bar? then ParsePipe(toks) == e
      else if ParsePipe(e.rest[1..]).Err? then ParsePipe(toks) == ParsePipe(e.rest[1..])
      else ParsePipe(toks) == Ok(Pipe(e.cmd, ParsePipe(e.rest[1..]).cmd), ParsePipe(e.rest[1..]).rest)
  {
    hide ParseExec;
  }

  /** parsepipe. */
  method ReadPipe(s: string, i: nat) returns (r: Result, j: nat)
    requires i <= |s| && '\0' !in s
    ensures i <= j <= |s| && Agrees(ParsePipe(From(s, i)), s, r, j)
    decreases |From(s, i)|, 2
  {
    hide From, Wrap, Starts, ParseExec, ParsePipe;
    Symbols();
    PipeIs(From(s, i));
    r, j := ReadExec(s, i);
    if r.Fail? {
      return;
    }
    var cmd, bar := r.cmd, false;
    bar, j := Peek(s, j, "|");
    Kinds(From(s, j));
    if bar {
      ExecShorter(From(s, i));
      var _, _, _, k := GetToken(s, j);
      r, j := ReadPipe(s, k);
      if r.Fail? {
        return;
      }
      r := Parse(Pipe(cmd, r.cmd));
    }
  }

  lemma {:induction false} ExecShorter(toks: seq<Tok>)
    ensures ParseExec(toks).Ok? ==> |ParseExec(toks).rest| <= |toks|
  {
  }

  lemma {:induction false} LineIs(toks: seq<Tok>)
    ensures var p := ParsePipe(toks);
      if p.Err? then ParseLine(toks) == p
      else
        var b := ParseBacks(p.cmd, p.rest);
        if b.rest == [] || !b.rest[0].Semi? then ParseLine(toks) == b
        else if ParseLine(b.rest[1..]).Err? then ParseLine(toks) == ParseLine(b.rest[1..])
        else ParseLine(toks) == Ok(List(b.cmd, ParseLine(b.rest[1..]).cmd), ParseLine(b.rest[1..]).rest)
  {
    hide ParsePipe, ParseBacks;
  }

  lemma {:induction false} BacksAre(c: Cmd, toks: seq<Tok>)
    ensures ParseBacks(c, toks) == if toks != [] && toks[0].Amp? then ParseBacks(Back(c), toks[1..]) else Ok(c, toks)
    ensures ParsePipe(toks).Ok? ==> |ParsePipe(toks).rest| <= |toks|
    ensures |ParseBacks(c, toks).rest| <= |toks|
  {
  }

  /** The loop of parseline over the ampersands. */
  method ReadBacks(c: Cmd, s: string, i: nat) returns (cmd: Cmd, j: nat)
    requires i <= |s| && '\0' !in s
    ensures i <= j <= |s| && ParseBacks(c, From(s, i)) == Ok(cmd, From(s, j))
  {
    hide From, Starts, ParseBacks;
    Symbols();
    var more;
    cmd := c;
    more, j := Peek(s, i, "&");
    Kinds(From(s, j));
    while more
      invariant i <= j <= |s| && ParseBacks(c, From(s, i)) == ParseBacks(cmd, From(s, j))
      invariant more <==> From(s, j) != [] && From(s, j)[0].Amp?
      decreases |From(s, j)|
    {
      BacksAre(cmd, From(s, j));
      var _, _, _, k := GetToken(s, j);
      cmd := Back(cmd);
      more, j := Peek(s, k, "&");
      Kinds(From(s, j));
    }
    BacksAre(cmd, From(s, j));
  }

  /** parseline. */
  method ReadLine(s: string, i: nat) returns (r: Result, j: nat)
    requires i <= |s| && '\0' !in s
    ensures i <= j <= |s| && Agrees(ParseLine(From(s, i)), s, r, j)
    decreases |From(s, i)|, 3
  {
    hide From, Wrap, Starts, ParsePipe, ParseBacks, ParseLine;
    Symbols();
    LineIs(From(s, i));
    r, j := ReadPipe(s, i);
    if r.Fail? {
      return;
    }
    BacksAre(r.cmd, From(s, i));
    BacksAre(r.cmd, From(s, j));
    var cmd, semi;
    cmd, j := ReadBacks(r.cmd, s, j);
    semi, j := Peek(s, j, ";");
    Kinds(From(s, j));
    if semi {
      var _, _, _, k := GetToken(s, j);
      r, j := ReadLine(s, k);
      if r.Fail? {
        return;
      }
      r := Parse(List(cmd, r.cmd));
    } else {
      r := Parse(cmd);
    }
  }

  /**
   parsecmd: on every text it ends with a command exactly if the whole text is a line that means it,
   and otherwise with an error that says what is wrong.
   */
  method ReadCmd(s: string) returns (r: Result)
    requires '\0' !in s
    ensures r == ParseCmd(Lex(s))
    ensures forall c :: r == Parse(c) <==> ShellGrammar.Reads(s, c)
    ensures r.Fail? ==> ShellGrammar.Wrong(Lex(s), r.error)
    ensures r == Fail(Leftovers) <==> ShellGrammar.Wrong(Lex(s), Leftovers)
  {
    hide ShellGrammar.Reads, ShellGrammar.Wrong;
    ShellGrammar.ReadIff(s);
    assert s[0..] == s;
    var j;
    r, j := ReadLine(s, 0);
    if r.Fail? {
      return;
    }
    j := SkipSpace(s, j);
    EndOfText(s, j);
    if j != |s| {
      return Fail(Leftovers);
    }
  }

  lemma {:induction false} EndOfText(s: string, j: nat)
    requires j <= |s| && (j < |s| ==> !IsSpace(s[j]))
    ensures From(s, j) == [] <==> j == |s|
  {
  }
}
