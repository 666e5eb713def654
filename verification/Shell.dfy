/**
 * The grammar of user/sh.c: tokens, a recursive-descent parser on token sequences, a printer that uses parentheses
 * only where they are needed, and the round trip between them.
 */
module Shell {

  const MAXARGS := 10

  datatype Mode = In | Out | Append

  datatype Cmd =
    | Exec(args: seq<string>)
    | Redir(cmd: Cmd, file: string, mode: Mode)
    | Pipe(left: Cmd, right: Cmd)
    | List(left: Cmd, right: Cmd)
    | Back(cmd: Cmd)

  datatype Tok = Word(w: string) | Bar | LPar | RPar | Semi | Amp | To(mode: Mode)

  datatype Error = MissingFile | Syntax | MissingParen | TooManyArgs | Leftovers

  datatype Parsed = Ok(cmd: Cmd, rest: seq<Tok>) | Err(error: Error)

  datatype Redirs = Redirs(list: seq<(string, Mode)>, rest: seq<Tok>) | NoFile

  datatype Simple = Simple(args: seq<string>, redirs: seq<(string, Mode)>, rest: seq<Tok>) | Bad(error: Error)

  // ---------------------------------------------------------------- parsing

  /** Redirections go round a command, the first one innermost. */
  function Wrap(c: Cmd, list: seq<(string, Mode)>): Cmd
    decreases |list|
  {
    if list == [] then c else Wrap(Redir(c, list[0].0, list[0].1), list[1..])
  }

  function ParseRedirs(toks: seq<Tok>): (r: Redirs)
    ensures r.Redirs? ==> |r.rest| <= |toks| && (r.rest != [] ==> !r.rest[0].To?)
  {
    if toks == [] || !toks[0].To? then Redirs([], toks)
    else if |toks| < 2 || !toks[1].Word? then NoFile
    else
      match ParseRedirs(toks[2..])
      case NoFile => NoFile
      case Redirs(list, rest) => Redirs([(toks[1].w, toks[0].mode)] + list, rest)
  }

  predicate EndsArgs(t: Tok) { t.Bar? || t.RPar? || t.Amp? || t.Semi? }

  /** The arguments of a command that has `n` of them already. */
  function ParseArgs(n: nat, toks: seq<Tok>): (r: Simple)
    ensures r.Simple? ==> |r.rest| <= |toks|
    decreases |toks|
  {
    if toks == [] || EndsArgs(toks[0]) then Simple([], [], toks)
    else if !toks[0].Word? then Bad(Syntax)
    else if n + 1 >= MAXARGS then Bad(TooManyArgs)
    else
      match ParseRedirs(toks[1..])
      case NoFile => Bad(MissingFile)
      case Redirs(list, rest) =>
        match ParseArgs(n + 1, rest)
        case Bad(e) => Bad(e)
        case Simple(args, more, rest') => Simple([toks[0].w] + args, list + more, rest')
  }

  function ParseSimple(toks: seq<Tok>): (r: Parsed)
    ensures r.Ok? ==> |r.rest| <= |toks|
  {
    match ParseRedirs(toks)
    case NoFile => Err(MissingFile)
    case Redirs(list, rest) =>
      match ParseArgs(0, rest)
      case Bad(e) => Err(e)
      case Simple(args, more, rest') => Ok(Wrap(Exec(args), list + more), rest')
  }

  function ParseExec(toks: seq<Tok>): (r: Parsed)
    ensures r.Ok? ==> |r.rest| <= |toks|
    decreases |toks|, 1
  {
    if toks != [] && toks[0].LPar? then ParseBlock(toks) else ParseSimple(toks)
  }

  function ParseBlock(toks: seq<Tok>): (r: Parsed)
    requires toks != [] && toks[0].LPar?
    ensures r.Ok? ==> |r.rest| <= |toks|
    decreases |toks|, 0
  {
    match ParseLine(toks[1..])
    case Err(e) => Err(e)
    case Ok(c, rest) =>
      if rest == [] || !rest[0].RPar? then Err(MissingParen)
      else
        match ParseRedirs(rest[1..])
        case NoFile => Err(MissingFile)
        case Redirs(list, rest') => Ok(Wrap(c, list), rest')
  }

  function ParsePipe(toks: seq<Tok>): (r: Parsed)
    ensures r.Ok? ==> |r.rest| <= |toks|
    decreases |toks|, 2
  {
    match ParseExec(toks)
    case Err(e) => Err(e)
    case Ok(c, rest) =>
      if rest != [] && rest[0].Bar? then
        match ParsePipe(rest[1..])
        case Err(e) => Err(e)
        case Ok(d, rest') => Ok(Pipe(c, d), rest')
      else Ok(c, rest)
  }

  function ParseBacks(c: Cmd, toks: seq<Tok>): (r: Parsed)
    ensures r.Ok? && |r.rest| <= |toks| && (r.rest != [] ==> !r.rest[0].Amp?)
    decreases |toks|
  {
    if toks != [] && toks[0].Amp? then ParseBacks(Back(c), toks[1..]) else Ok(c, toks)
  }

  function ParseLine(toks: seq<Tok>): (r: Parsed)
    ensures r.Ok? ==> |r.rest| <= |toks|
    decreases |toks|, 3
  {
    match ParsePipe(toks)
    case Err(e) => Err(e)
    case Ok(c, rest) =>
      var b := ParseBacks(c, rest);
      if b.rest != [] && b.rest[0].Semi? then
        match ParseLine(b.rest[1..])
        case Err(e) => Err(e)
        case Ok(d, rest') => Ok(List(b.cmd, d), rest')
      else b
  }

  datatype Result = Parse(cmd: Cmd) | Fail(error: Error)

  /** parsecmd: the whole line is one command, or there is an error. */
  function ParseCmd(toks: seq<Tok>): Result {
    match ParseLine(toks)
    case Err(e) => Fail(e)
    case Ok(c, rest) => if rest == [] then Parse(c) else Fail(Leftovers)
  }

  // ---------------------------------------------------------------- what the parser produces

  predicate IsSpace(c: char) { c in " \t\r\n\U{000B}" }

  predicate IsSymbol(c: char) { c in "<|>&;()" }

  predicate GoodWord(w: string) {
    w != [] && forall c :: c in w ==> !IsSpace(c) && !IsSymbol(c) && c != '\0'
  }

  predicate GoodWords(ws: seq<string>) {
    forall w :: w in ws ==> GoodWord(w)
  }

  /** The commands the grammar can produce: words as the lexer makes them, and fewer than MAXARGS arguments. */
  predicate WellFormed(c: Cmd) {
    match c
    case Exec(args) => |args| < MAXARGS && GoodWords(args)
    case Redir(d, file, _) => GoodWord(file) && WellFormed(d)
    case Pipe(l, r) => WellFormed(l) && WellFormed(r)
    case List(l, r) => WellFormed(l) && WellFormed(r)
    case Back(d) => WellFormed(d)
  }

  predicate GoodToks(toks: seq<Tok>) {
    forall t :: t in toks && t.Word? ==> GoodWord(t.w)
  }

  predicate GoodRedirs(list: seq<(string, Mode)>) {
    forall r :: r in list ==> GoodWord(r.0)
  }

  lemma {:induction false} WrapWellFormed(c: Cmd, list: seq<(string, Mode)>)
    requires WellFormed(c) && GoodRedirs(list)
    ensures WellFormed(Wrap(c, list))
    decreases |list|
  {
    if list != [] {
      WrapWellFormed(Redir(c, list[0].0, list[0].1), list[1..]);
    }
  }

  lemma {:induction false} RedirsWellFormed(toks: seq<Tok>)
    requires GoodToks(toks)
    ensures ParseRedirs(toks).Redirs? ==> GoodRedirs(ParseRedirs(toks).list) && GoodToks(ParseRedirs(toks).rest)
    decreases |toks|
  {
    if |toks| >= 2 && toks[0].To? && toks[1].Word? {
      assert toks[1] in toks;
      RedirsWellFormed(toks[2..]);
    }
  }

  lemma {:induction false} ArgsWellFormed(n: nat, toks: seq<Tok>)
    requires GoodToks(toks)
    ensures var r := ParseArgs(n, toks);
      r.Simple? ==> (n < MAXARGS ==>
          n + |r.args| < MAXARGS) && GoodWords(r.args) && GoodRedirs(r.redirs) && GoodToks(r.rest)
    decreases |toks|
  {
    if toks != [] && toks[0].Word? && n + 1 < MAXARGS {
      assert toks[0] in toks;
      RedirsWellFormed(toks[1..]);
      if ParseRedirs(toks[1..]).Redirs? {
        ArgsWellFormed(n + 1, ParseRedirs(toks[1..]).rest);
      }
    }
  }

  ghost predicate GoodParse(r: Parsed) {
    r.Ok? ==> WellFormed(r.cmd) && GoodToks(r.rest)
  }

  lemma {:induction false} SimpleWellFormed(toks: seq<Tok>)
    requires GoodToks(toks)
    ensures GoodParse(ParseSimple(toks))
  {
    RedirsWellFormed(toks);
    if ParseRedirs(toks).Redirs? {
      var list, rest := ParseRedirs(toks).list, ParseRedirs(toks).rest;
      ArgsWellFormed(0, rest);
      var s := ParseArgs(0, rest);
      if s.Simple? {
        WrapWellFormed(Exec(s.args), list + s.redirs);
      }
    }
  }

  lemma {:induction false} BacksWellFormed(c: Cmd, toks: seq<Tok>)
    requires WellFormed(c) && GoodToks(toks)
    ensures GoodParse(ParseBacks(c, toks))
    decreases |toks|
  {
    if toks != [] && toks[0].Amp? {
      BacksWellFormed(Back(c), toks[1..]);
    }
  }

  lemma {:induction false} ExecWellFormed(toks: seq<Tok>)
    requires GoodToks(toks)
    ensures GoodParse(ParseExec(toks))
    decreases |toks|, 0
  {
    if toks != [] && toks[0].LPar? {
      LineWellFormed(toks[1..]);
      var l := ParseLine(toks[1..]);
      if l.Ok? && l.rest != [] && l.rest[0].RPar? {
        RedirsWellFormed(l.rest[1..]);
        var r := ParseRedirs(l.rest[1..]);
        if r.Redirs? {
          WrapWellFormed(l.cmd, r.list);
        }
      }
    } else {
      SimpleWellFormed(toks);
    }
  }

  lemma {:induction false} PipeWellFormed(toks: seq<Tok>)
    requires GoodToks(toks)
    ensures GoodParse(ParsePipe(toks))
    decreases |toks|, 1
  {
    ExecWellFormed(toks);
    var e := ParseExec(toks);
    if e.Ok? && e.rest != [] && e.rest[0].Bar? {
      PipeWellFormed(e.rest[1..]);
    }
  }

  /** Every parsed command is well formed; in particular no argument vector is overrun. */
  lemma {:induction false} LineWellFormed(toks: seq<Tok>)
    requires GoodToks(toks)
    ensures GoodParse(ParseLine(toks))
    decreases |toks|, 2
  {
    PipeWellFormed(toks);
    var p := ParsePipe(toks);
    if p.Ok? {
      BacksWellFormed(p.cmd, p.rest);
      var b := ParseBacks(p.cmd, p.rest);
      if b.rest != [] && b.rest[0].Semi? {
        LineWellFormed(b.rest[1..]);
      }
    }
  }

  // ---------------------------------------------------------------- printing

  function Size(c: Cmd): nat {
    match c
    case Exec(_) => 1
    case Redir(d, _, _) => 1 + Size(d)
    case Pipe(l, r) => 1 + Size(l) + Size(r)
    case List(l, r) => 1 + Size(l) + Size(r)
    case Back(d) => 1 + Size(d)
  }

  /** The command inside all redirections. */
  function Core(c: Cmd): (d: Cmd)
    ensures !d.Redir? && Size(d) <= Size(c) && (c.Redir? ==> Size(d) < Size(c))
  {
    if c.Redir? then Core(c.cmd) else c
  }

  /** The redirections of a command, innermost first. */
  function Around(c: Cmd): seq<(string, Mode)> {
    if c.Redir? then Around(c.cmd) + [(c.file, c.mode)] else []
  }

  function RedirToks(list: seq<(string, Mode)>): seq<Tok> {
    if list == [] then [] else [To(list[0].1), Word(list[0].0)] + RedirToks(list[1..])
  }

  function WordToks(args: seq<string>): seq<Tok> {
    if args == [] then [] else [Word(args[0])] + WordToks(args[1..])
  }

  /** The printing functions call each other on the same command, in an order that depends on its kind. */
  function Rank(line: nat, c: Cmd): nat {
    var top := match c case List(_, _) => 0 case Back(_) => 1 case Pipe(_, _) => 2 case _ => 3;
    (line + top) % 4
  }

  function PrintExec(c: Cmd): seq<Tok>
    decreases Size(c), Rank(1, c)
  {
    var d := Core(c);
    (if d.Exec? then WordToks(d.args) else [LPar] + PrintLine(d) + [RPar]) + RedirToks(Around(c))
  }

  function PrintPipe(c: Cmd): seq<Tok>
    decreases Size(c), Rank(2, c)
  {
    if c.Pipe? then PrintExec(c.left) + [Bar] + PrintPipe(c.right) else PrintExec(c)
  }

  function PrintBack(c: Cmd): seq<Tok>
    decreases Size(c), Rank(3, c)
  {
    if c.Back? then PrintBack(c.cmd) + [Amp] else PrintPipe(c)
  }

  function PrintLine(c: Cmd): seq<Tok>
    decreases Size(c), Rank(0, c)
  {
    if c.List? then PrintBack(c.left) + [Semi] + PrintLine(c.right) else PrintBack(c)
  }

  // ---------------------------------------------------------------- round trip

  lemma {:induction false} WrapMore(c: Cmd, list: seq<(string, Mode)>, x: (string, Mode))
    ensures Wrap(c, list + [x]) == Redir(Wrap(c, list), x.0, x.1)
    decreases |list|
  {
    if list == [] {
      assert Wrap(c, [x]) == Wrap(Redir(c, x.0, x.1), [x][1..]);
    } else {
      assert (list + [x])[1..] == list[1..] + [x];
      WrapMore(Redir(c, list[0].0, list[0].1), list[1..], x);
    }
  }

  lemma {:induction false} Unwrapped(c: Cmd)
    ensures Wrap(Core(c), Around(c)) == c
  {
    if c.Redir? {
      Unwrapped(c.cmd);
      WrapMore(Core(c.cmd), Around(c.cmd), (c.file, c.mode));
    }
  }

  lemma {:induction false} PartsWellFormed(c: Cmd)
    requires WellFormed(c)
    ensures WellFormed(Core(c)) && GoodRedirs(Around(c))
  {
    if c.Redir? {
      PartsWellFormed(c.cmd);
    }
  }

  lemma {:induction false} RedirStep(r: (string, Mode), toks: seq<Tok>, rest: seq<Tok>)
    requires toks == [To(r.1), Word(r.0)] + rest
    ensures ParseRedirs(toks) == if ParseRedirs(rest).NoFile? then NoFile
                                 else Redirs([r] + ParseRedirs(rest).list, ParseRedirs(rest).rest)
  {
    assert toks[2..] == rest;
  }

  lemma {:induction false} RedirsRound(list: seq<(string, Mode)>, k: seq<Tok>)
    requires k == [] || !k[0].To?
    ensures ParseRedirs(RedirToks(list) + k) == Redirs(list, k)
    decreases |list|
  {
    if list == [] {
      assert RedirToks(list) + k == k;
    } else {
      var rest := RedirToks(list[1..]) + k;
      assert RedirToks(list) + k == [To(list[0].1), Word(list[0].0)] + rest;
      assert [list[0]] + list[1..] == list;
      RedirsRound(list[1..], k);
      hide ParseRedirs, RedirToks;
      RedirStep(list[0], RedirToks(list) + k, rest);
    }
  }

  ghost predicate AfterArgs(k: seq<Tok>) { k == [] || EndsArgs(k[0]) }

  ghost predicate AfterPipe(k: seq<Tok>) { k == [] || k[0].RPar? || k[0].Amp? || k[0].Semi? }

  ghost predicate AfterLine(k: seq<Tok>) { k == [] || k[0].RPar? }

  lemma {:induction false} ArgStep(n: nat, w: string, toks: seq<Tok>, rest: seq<Tok>, list: seq<(string, Mode)>,
      k: seq<Tok>)
    requires toks == [Word(w)] + rest && n + 1 < MAXARGS && ParseRedirs(rest) == Redirs(list, k)
    requires ParseArgs(n + 1, k).Simple?
    ensures var s := ParseArgs(n + 1, k);
      ParseArgs(n, toks) == Simple([w] + s.args, list + s.redirs, s.rest)
  {
    hide ParseRedirs;
    assert toks[1..] == rest;
  }

  lemma {:induction false} NoRedirs(toks: seq<Tok>)
    requires toks == [] || !toks[0].To?
    ensures ParseRedirs(toks) == Redirs([], toks)
  {
  }

  lemma {:induction false} NoArgs(n: nat, k: seq<Tok>)
    requires AfterArgs(k)
    ensures ParseArgs(n, k) == Simple([], [], k)
  {
  }

  lemma {:induction false} ArgsSplit(args: seq<string>, list: seq<(string, Mode)>, k: seq<Tok>)
    requires args != []
    ensures WordToks(args) + RedirToks(list) + k == [Word(args[0])] + (WordToks(args[1..]) + RedirToks(list) + k)
  {
  }

  lemma {:induction false} ArgsRound(n: nat, args: seq<string>, list: seq<(string, Mode)>, k: seq<Tok>)
    requires args != [] && n + |args| < MAXARGS && AfterArgs(k)
    ensures ParseArgs(n, WordToks(args) + RedirToks(list) + k) == Simple(args, list, k)
    decreases |args|
  {
    hide ParseArgs, ParseRedirs, RedirToks;
    var toks, rest := WordToks(args) + RedirToks(list) + k, WordToks(args[1..]) + RedirToks(list) + k;
    ArgsSplit(args, list, k);
    assert [args[0]] + args[1..] == args;
    if |args| == 1 {
      assert rest == RedirToks(list) + k;
      RedirsRound(list, k);
      NoArgs(n + 1, k);
      ArgStep(n, args[0], toks, rest, list, k);
      assert [args[0]] + [] == args && list + [] == list;
    } else {
      assert rest != [] && rest[0] == Word(args[1]);
      NoRedirs(rest);
      ArgsRound(n + 1, args[1..], list, k);
      ArgStep(n, args[0], toks, rest, [], rest);
      assert [] + list == list;
    }
  }

  lemma {:induction false} SimpleRound(args: seq<string>, list: seq<(string, Mode)>, k: seq<Tok>)
    requires |args| < MAXARGS && AfterArgs(k)
    ensures ParseSimple(WordToks(args) + RedirToks(list) + k) == Ok(Wrap(Exec(args), list), k)
  {
    var toks := WordToks(args) + RedirToks(list) + k;
    if args == [] {
      assert toks == RedirToks(list) + k;
      RedirsRound(list, k);
      assert list + [] == list;
    } else {
      assert ParseRedirs(toks) == Redirs([], toks);
      ArgsRound(0, args, list, k);
      assert [] + list == list;
    }
  }

  lemma {:induction false} BlockStep(d: Cmd, toks: seq<Tok>, inner: seq<Tok>, after: seq<Tok>, list: seq<(string,
      Mode)>, k: seq<Tok>)
    requires toks == [LPar] + inner && ParseLine(inner) == Ok(d, [RPar] + after)
    requires ParseRedirs(after) == Redirs(list, k)
    ensures ParseExec(toks) == Ok(Wrap(d, list), k)
  {
    hide ParseRedirs, ParseLine;
    assert toks[1..] == inner && ([RPar] + after)[1..] == after;
  }

  lemma {:induction false} BlockToks(c: Cmd, k: seq<Tok>)
    requires !Core(c).Exec?
    ensures PrintExec(c) + k == [LPar] + (PrintLine(Core(c)) + ([RPar] + (RedirToks(Around(c)) + k)))
  {
    hide PrintLine, RedirToks, Around;
  }

  lemma {:induction false} SimpleToks(c: Cmd, k: seq<Tok>)
    requires Core(c).Exec?
    ensures var toks := PrintExec(c) + k;
      toks == WordToks(Core(c).args) + RedirToks(Around(c)) + k && (AfterArgs(k) ==>
          ParseExec(toks) == ParseSimple(toks))
  {
  }

  lemma {:induction false} ExecRound(c: Cmd, k: seq<Tok>)
    requires WellFormed(c) && AfterArgs(k)
    ensures ParseExec(PrintExec(c) + k) == Ok(c, k)
    decreases Size(c), Rank(1, c)
  {
    var d, list := Core(c), Around(c);
    Unwrapped(c);
    PartsWellFormed(c);
    hide ParseExec, PrintExec, ParseSimple, ParseLine, PrintLine, ParseRedirs, RedirToks, Around, Wrap;
    if d.Exec? {
      SimpleToks(c, k);
      SimpleRound(d.args, list, k);
    } else {
      var after := RedirToks(list) + k;
      BlockToks(c, k);
      LineRound(d, [RPar] + after);
      RedirsRound(list, k);
      BlockStep(d, PrintExec(c) + k, PrintLine(d) + ([RPar] + after), after, list, k);
    }
  }

  lemma {:induction false} PipeStep(toks: seq<Tok>, c: Cmd, rest: seq<Tok>)
    requires ParseExec(toks) == Ok(c, rest)
    ensures rest == [] || !rest[0].Bar? ==> ParsePipe(toks) == Ok(c, rest)
    ensures rest != [] && rest[0].Bar? && ParsePipe(rest[1..]).Ok? ==>
      ParsePipe(toks) == Ok(Pipe(c, ParsePipe(rest[1..]).cmd), ParsePipe(rest[1..]).rest)
  {
    hide ParseExec;
  }

  lemma {:induction false} PipeRound(c: Cmd, k: seq<Tok>)
    requires WellFormed(c) && AfterPipe(k)
    ensures ParsePipe(PrintPipe(c) + k) == Ok(c, k)
    decreases Size(c), Rank(2, c)
  {
    hide ParseExec, ParsePipe, PrintExec;
    if c.Pipe? {
      var after := [Bar] + (PrintPipe(c.right) + k);
      assert PrintPipe(c) + k == PrintExec(c.left) + after;
      ExecRound(c.left, after);
      assert after[1..] == PrintPipe(c.right) + k;
      PipeRound(c.right, k);
      PipeStep(PrintPipe(c) + k, c.left, after);
    } else {
      ExecRound(c, k);
      PipeStep(PrintPipe(c) + k, c, k);
    }
  }

  /** The command under all its ampersands. */
  function Front(c: Cmd): (d: Cmd)
    ensures !d.Back? && Size(d) <= Size(c) && (c.Back? ==> Size(d) < Size(c))
  {
    if c.Back? then Front(c.cmd) else c
  }

  function Amps(c: Cmd): seq<Tok> {
    if c.Back? then Amps(c.cmd) + [Amp] else []
  }

  lemma {:induction false} BackParts(c: Cmd)
    requires WellFormed(c)
    ensures PrintBack(c) == PrintPipe(Front(c)) + Amps(c) && WellFormed(Front(c))
    ensures Amps(c) == [] || Amps(c)[0].Amp?
  {
    if c.Back? {
      BackParts(c.cmd);
    }
  }

  lemma {:induction false} BacksRound(c: Cmd, k: seq<Tok>)
    ensures ParseBacks(Front(c), Amps(c) + k) == ParseBacks(c, k)
  {
    if c.Back? {
      assert Amps(c) + k == Amps(c.cmd) + ([Amp] + k);
      BacksRound(c.cmd, [Amp] + k);
      assert ([Amp] + k)[1..] == k;
    } else {
      assert Amps(c) + k == k;
    }
  }

  lemma {:induction false} LineStep(toks: seq<Tok>, c: Cmd, rest: seq<Tok>, b: Cmd, k: seq<Tok>)
    requires ParsePipe(toks) == Ok(c, rest) && ParseBacks(c, rest) == Ok(b, k)
    ensures k == [] || !k[0].Semi? ==> ParseLine(toks) == Ok(b, k)
    ensures k != [] && k[0].Semi? && ParseLine(k[1..]).Ok? ==>
      ParseLine(toks) == Ok(List(b, ParseLine(k[1..]).cmd), ParseLine(k[1..]).rest)
  {
    hide ParsePipe, ParseBacks;
  }

  lemma {:induction false} LineToks(c: Cmd, k: seq<Tok>)
    requires WellFormed(c)
    ensures var b := if c.List? then c.left else c;
      var after := if c.List? then [Semi] + (PrintLine(c.right) + k) else k;
      && WellFormed(Front(b)) && PrintLine(c) + k == PrintPipe(Front(b)) + (Amps(b) + after)
      && (AfterLine(k) ==> AfterPipe(Amps(b) + after))
  {
    var b := if c.List? then c.left else c;
    BackParts(b);
    hide PrintPipe, PrintBack, Amps, Front;
  }

  lemma {:induction false} LineRound(c: Cmd, k: seq<Tok>)
    requires WellFormed(c) && AfterLine(k)
    ensures ParseLine(PrintLine(c) + k) == Ok(c, k)
    decreases Size(c), Rank(0, c)
  {
    var b := if c.List? then c.left else c;
    var after := if c.List? then [Semi] + (PrintLine(c.right) + k) else k;
    LineToks(c, k);
    BacksRound(b, after);
    assert ParseBacks(b, after) == Ok(b, after);
    hide ParsePipe, ParseBacks, ParseLine, PrintPipe, PrintLine, Amps;
    PipeRound(Front(b), Amps(b) + after);
    LineStep(PrintLine(c) + k, Front(b), Amps(b) + after, b, after);
    if c.List? {
      assert after[1..] == PrintLine(c.right) + k;
      LineRound(c.right, k);
    }
  }

  /** Every command of the grammar is printed and read back. */
  lemma {:induction false} RoundTrip(c: Cmd)
    requires WellFormed(c)
    ensures ParseCmd(PrintLine(c)) == Parse(c)
  {
    LineRound(c, []);
    assert PrintLine(c) + [] == PrintLine(c);
  }

  /** What any line of tokens parses to is printed and read back. */
  lemma {:induction false} ParsedRoundTrip(toks: seq<Tok>)
    requires GoodToks(toks) && ParseCmd(toks).Parse?
    ensures WellFormed(ParseCmd(toks).cmd) && ParseCmd(PrintLine(ParseCmd(toks).cmd)) == ParseCmd(toks)
  {
    LineWellFormed(toks);
    RoundTrip(ParseCmd(toks).cmd);
  }

  // ---------------------------------------------------------------- text

  /** The length of the word a text starts with. */
  function WordLength(s: string): (n: nat)
    ensures n <= |s| && (forall i :: 0 <= i < n ==> !IsSpace(s[i]) && !IsSymbol(s[i]))
    ensures n < |s| ==> IsSpace(s[n]) || IsSymbol(s[n])
  {
    if s == [] || IsSpace(s[0]) || IsSymbol(s[0]) then 0 else 1 + WordLength(s[1..])
  }

  /** The token a text starts with, and its length. */
  function FirstToken(s: string): (r: (Tok, nat))
    requires s != [] && !IsSpace(s[0])
    ensures 0 < r.1 <= |s|
  {
    if s[0] == '|' then (Bar, 1)
    else if s[0] == '(' then (LPar, 1)
    else if s[0] == ')' then (RPar, 1)
    else if s[0] == ';' then (Semi, 1)
    else if s[0] == '&' then (Amp, 1)
    else if s[0] == '<' then (To(In), 1)
    else if s[0] == '>' then if |s| > 1 && s[1] == '>' then (To(Append), 2) else (To(Out), 1)
    else (Word(s[..WordLength(s)]), WordLength(s))
  }

  function Lex(s: string): seq<Tok>
    decreases |s|
  {
    if s == [] then []
    else if IsSpace(s[0]) then Lex(s[1..])
    else var (t, n) := FirstToken(s); [t] + Lex(s[n..])
  }

  function TokText(t: Tok): string {
    match t
    case Word(w) => w
    case Bar => "|"
    case LPar => "("
    case RPar => ")"
    case Semi => ";"
    case Amp => "&"
    case To(In) => "<"
    case To(Out) => ">"
    case To(Append) => ">>"
  }

  function Text(toks: seq<Tok>): string {
    if toks == [] then [] else TokText(toks[0]) + " " + Text(toks[1..])
  }

  lemma {:induction false} WordLengthIs(s: string, n: nat)
    requires n < |s| && (IsSpace(s[n]) || IsSymbol(s[n])) && forall i :: 0 <= i < n ==>
        !IsSpace(s[i]) && !IsSymbol(s[i])
    ensures WordLength(s) == n
  {
  }

  lemma {:induction false} WordText(w: string, s: string, rest: string)
    requires GoodWord(w) && s == w + " " + rest
    ensures s != [] && !IsSpace(s[0]) && !IsSymbol(s[0]) && WordLength(s) == |w| && s[..|w|] == w
    ensures s[|w|..] == " " + rest
  {
    forall i | 0 <= i < |w| ensures !IsSpace(s[i]) && !IsSymbol(s[i]) {
      assert s[i] == w[i] && w[i] in w;
    }
    assert s[|w|] == ' ' && IsSpace(' ');
    hide IsSpace, IsSymbol, GoodWord;
    WordLengthIs(s, |w|);
  }

  lemma {:induction false} SymbolText(t: Tok, s: string, rest: string)
    requires !t.Word? && s == TokText(t) + " " + rest
    ensures s != [] && !IsSpace(s[0]) && FirstToken(s) == (t, |TokText(t)|) && s[|TokText(t)|..] == " " + rest
  {
    hide WordLength;
    assert s[|TokText(t)|] == ' ';
  }

  lemma {:induction false} FirstTokenText(t: Tok, rest: string)
    requires t.Word? ==> GoodWord(t.w)
    ensures var s := TokText(t) + " " + rest;
      s != [] && !IsSpace(s[0]) && FirstToken(s) == (t, |TokText(t)|) && s[|TokText(t)|..] == " " + rest
  {
    var s := TokText(t) + " " + rest;
    if t.Word? {
      WordText(t.w, s, rest);
      hide IsSpace, WordLength, GoodWord;
    } else {
      SymbolText(t, s, rest);
    }
  }

  /** The text of good tokens is read back as those tokens. */
  lemma {:induction false} LexText(toks: seq<Tok>)
    requires GoodToks(toks)
    ensures Lex(Text(toks)) == toks
  {
    if toks != [] {
      var t, rest := toks[0], Text(toks[1..]);
      FirstTokenText(t, rest);
      LexText(toks[1..]);
      hide FirstToken, TokText;
      assert (" " + rest)[1..] == rest;
      assert Lex(" " + rest) == Lex(rest);
      assert [t] + toks[1..] == toks;
    }
  }

  lemma {:induction false} LexGood(s: string)
    requires '\0' !in s
    ensures GoodToks(Lex(s))
    decreases |s|
  {
    if s != [] && IsSpace(s[0]) {
      LexGood(s[1..]);
    } else if s != [] {
      var (t, n) := FirstToken(s);
      LexGood(s[n..]);
      if t.Word? {
        assert n > 0 && forall i :: 0 <= i < n ==> s[i] in s;
      }
    }
  }

  lemma {:induction false} RedirToksGood(list: seq<(string, Mode)>)
    requires GoodRedirs(list)
    ensures GoodToks(RedirToks(list))
  {
    if list != [] {
      assert list[0] in list;
      RedirToksGood(list[1..]);
    }
  }

  lemma {:induction false} WordToksGood(args: seq<string>)
    requires GoodWords(args)
    ensures GoodToks(WordToks(args))
  {
    if args != [] {
      assert args[0] in args;
      WordToksGood(args[1..]);
    }
  }

  lemma {:induction false} JoinGood(a: seq<Tok>, t: Tok, b: seq<Tok>)
    requires GoodToks(a) && GoodToks(b) && !t.Word?
    ensures GoodToks(a + b) && GoodToks(a + [t]) && GoodToks([t] + a) && GoodToks(a + [t] + b)
  {
  }

  lemma {:induction false} ExecGood(c: Cmd)
    requires WellFormed(c)
    ensures GoodToks(PrintExec(c))
    decreases Size(c), Rank(1, c)
  {
    var d := Core(c);
    PartsWellFormed(c);
    RedirToksGood(Around(c));
    if d.Exec? {
      WordToksGood(d.args);
      JoinGood(WordToks(d.args), Bar, RedirToks(Around(c)));
    } else {
      LineGood(d);
      JoinGood(PrintLine(d), LPar, []);
      JoinGood([LPar] + PrintLine(d), RPar, RedirToks(Around(c)));
    }
  }

  lemma {:induction false} PipeGood(c: Cmd)
    requires WellFormed(c)
    ensures GoodToks(PrintPipe(c))
    decreases Size(c), Rank(2, c)
  {
    if c.Pipe? {
      ExecGood(c.left);
      PipeGood(c.right);
      JoinGood(PrintExec(c.left), Bar, PrintPipe(c.right));
    } else {
      ExecGood(c);
    }
  }

  lemma {:induction false} BackGood(c: Cmd)
    requires WellFormed(c)
    ensures GoodToks(PrintBack(c))
    decreases Size(c), Rank(3, c)
  {
    if c.Back? {
      BackGood(c.cmd);
      JoinGood(PrintBack(c.cmd), Amp, []);
    } else {
      PipeGood(c);
    }
  }

  lemma {:induction false} LineGood(c: Cmd)
    requires WellFormed(c)
    ensures GoodToks(PrintLine(c))
    decreases Size(c), Rank(0, c)
  {
    if c.List? {
      BackGood(c.left);
      LineGood(c.right);
      JoinGood(PrintBack(c.left), Semi, PrintLine(c.right));
    } else {
      BackGood(c);
    }
  }

  /** The text of every command of the grammar is read back as that command. */
  lemma {:induction false} TextRoundTrip(c: Cmd)
    requires WellFormed(c)
    ensures ParseCmd(Lex(Text(PrintLine(c)))) == Parse(c)
  {
    LineGood(c);
    LexText(PrintLine(c));
    RoundTrip(c);
  }

  /** Whatever a text parses to is printed and read back. */
  lemma {:induction false} ReadTwice(s: string)
    requires '\0' !in s && ParseCmd(Lex(s)).Parse?
    ensures var c := ParseCmd(Lex(s)).cmd;
      WellFormed(c) && ParseCmd(Lex(Text(PrintLine(c)))) == Parse(c)
  {
    LexGood(s);
    ParsedRoundTrip(Lex(s));
    TextRoundTrip(ParseCmd(Lex(s)).cmd);
  }
}
