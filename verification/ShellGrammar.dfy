/**
 The grammar of the shell as trees: what a tree is written as, and which command it means.
 The parser accepts a line exactly if the whole of it is written by a tree, and says of
 every other line what is wrong with it.
 */
module ShellGrammar {
  import opened Shell

  type Redirections = seq<(string, Mode)>

  /** A word of a command, and the redirections that follow it. */
  datatype Arg = Arg(word: string, redirs: Redirections)

  datatype ExecTree = Words(lead: Redirections, args: seq<Arg>) | Group(line: LineTree, redirs: Redirections)

  datatype PipeTree = Single(exec: ExecTree) | Piped(exec: ExecTree, rest: PipeTree)

  /** `amps` ampersands follow a pipe, then nothing more or a semicolon and a line. */
  datatype LineTree = Final(pipe: PipeTree, amps: nat) | Then(pipe: PipeTree, amps: nat, rest: LineTree)

  // ---------------------------------------------------------------- how trees are written

  function ArgToks(args: seq<Arg>): seq<Tok> {
    if args == [] then [] else [Word(args[0].word)] + RedirToks(args[0].redirs) + ArgToks(args[1..])
  }

  function AmpToks(n: nat): seq<Tok> { if n == 0 then [] else [Amp] + AmpToks(n - 1) }

  function ExecToks(t: ExecTree): seq<Tok> {
    match t
    case Words(lead, args) => RedirToks(lead) + ArgToks(args)
    case Group(line, redirs) => [LPar] + LineToks(line) + [RPar] + RedirToks(redirs)
  }

  function PipeToks(t: PipeTree): seq<Tok> {
    match t
    case Single(e) => ExecToks(e)
    case Piped(e, rest) => ExecToks(e) + [Bar] + PipeToks(rest)
  }

  function LineToks(t: LineTree): seq<Tok> {
    match t
    case Final(p, n) => PipeToks(p) + AmpToks(n)
    case Then(p, n, rest) => PipeToks(p) + AmpToks(n) + [Semi] + LineToks(rest)
  }

  // ---------------------------------------------------------------- what trees mean

  function ArgWords(args: seq<Arg>): seq<string> {
    if args == [] then [] else [args[0].word] + ArgWords(args[1..])
  }

  function ArgRedirs(args: seq<Arg>): Redirections {
    if args == [] then [] else args[0].redirs + ArgRedirs(args[1..])
  }

  function InBack(c: Cmd, n: nat): Cmd
    decreases n
  {
    if n == 0 then c else InBack(Back(c), n - 1)
  }

  function ExecMeans(t: ExecTree): Cmd {
    match t
    case Words(lead, args) => Wrap(Exec(ArgWords(args)), lead + ArgRedirs(args))
    case Group(line, redirs) => Wrap(LineMeans(line), redirs)
  }

  function PipeMeans(t: PipeTree): Cmd {
    match t
    case Single(e) => ExecMeans(e)
    case Piped(e, rest) => Pipe(ExecMeans(e), PipeMeans(rest))
  }

  function LineMeans(t: LineTree): Cmd {
    match t
    case Final(p, n) => InBack(PipeMeans(p), n)
    case Then(p, n, rest) => List(InBack(PipeMeans(p), n), LineMeans(rest))
  }

  // ---------------------------------------------------------------- which trees are allowed

  /** A command has fewer than MAXARGS words. */
  predicate ExecLegal(t: ExecTree) {
    match t
    case Words(_, args) => |args| < MAXARGS
    case Group(line, _) => LineLegal(line)
  }

  predicate PipeLegal(t: PipeTree) {
    match t
    case Single(e) => ExecLegal(e)
    case Piped(e, rest) => ExecLegal(e) && PipeLegal(rest)
  }

  predicate LineLegal(t: LineTree) {
    match t
    case Final(p, _) => PipeLegal(p)
    case Then(p, _, rest) => PipeLegal(p) && LineLegal(rest)
  }

  /** The whole of `toks` is a line that means `c`. */
  ghost predicate Derives(toks: seq<Tok>, c: Cmd) {
    exists t :: LineLegal(t) && LineToks(t) == toks && LineMeans(t) == c
  }

  /** What follows a tree does not belong to it. */
  predicate ExecClosed(t: ExecTree, k: seq<Tok>) {
    k == [] || (if t.Words? then EndsArgs(k[0]) else !k[0].To?)
  }

  predicate PipeClosed(t: PipeTree, k: seq<Tok>) {
    match t
    case Single(e) => ExecClosed(e, k) && (k == [] || !k[0].Bar?)
    case Piped(_, rest) => PipeClosed(rest, k)
  }

  predicate LineClosed(t: LineTree, k: seq<Tok>) {
    match t
    case Final(p, n) => (k == [] || (!k[0].Amp? && !k[0].Semi?)) && (n == 0 ==> PipeClosed(p, k))
    case Then(_, _, rest) => LineClosed(rest, k)
  }

  /** `toks` starts with a line that `k` does not continue. */
  ghost predicate StartsWith(toks: seq<Tok>, t: LineTree, k: seq<Tok>) {
    LineLegal(t) && toks == LineToks(t) + k && LineClosed(t, k)
  }

  // ---------------------------------------------------------------- what is parsed is a tree

  lemma {:induction false} RedirsSound(toks: seq<Tok>)
    requires ParseRedirs(toks).Redirs?
    ensures RedirToks(ParseRedirs(toks).list) + ParseRedirs(toks).rest == toks
    decreases |toks|
  {
    var r := ParseRedirs(toks);
    if r.list == [] {
      assert RedirToks([]) + toks == toks;
    } else {
      RedirsSound(toks[2..]);
      var q := ParseRedirs(toks[2..]);
      assert r.list[1..] == q.list;
      assert toks == [toks[0], toks[1]] + toks[2..];
    }
  }

  /** What a parse of arguments is made of. */
  lemma {:induction false} ArgsParts(n: nat, toks: seq<Tok>)
    requires ParseArgs(n, toks).Simple? && toks != [] && !EndsArgs(toks[0])
    ensures toks[0].Word? && n + 1 < MAXARGS && ParseRedirs(toks[1..]).Redirs?
    ensures var p := ParseRedirs(toks[1..]); var r := ParseArgs(n + 1, p.rest);
      && |p.rest| < |toks| && r.Simple?
      && ParseArgs(n, toks) == Simple([toks[0].w] + r.args, p.list + r.redirs, r.rest)
  {
    hide ParseRedirs;
  }

  lemma {:induction false} ArgsCons(a: Arg, more: seq<Arg>, k: seq<Tok>)
    ensures ArgToks([a] + more) + k == [Word(a.word)] + (RedirToks(a.redirs) + (ArgToks(more) + k))
    ensures ArgWords([a] + more) == [a.word] + ArgWords(more) && ArgRedirs([a] + more) == a.redirs + ArgRedirs(more)
  {
    hide RedirToks;
    assert ([a] + more)[1..] == more;
  }

  lemma {:induction false} ArgsSound(n: nat, toks: seq<Tok>) returns (args: seq<Arg>)
    requires ParseArgs(n, toks).Simple? && n < MAXARGS
    ensures var r := ParseArgs(n, toks);
      && ArgToks(args) + r.rest == toks && ArgWords(args) == r.args && ArgRedirs(args) == r.redirs
      && n + |args| < MAXARGS && AfterArgs(r.rest)
    decreases |toks|
  {
    if AfterArgs(toks) {
      args := [];
      NoArgs(n, toks);
      assert ArgToks([]) + toks == toks;
    } else {
      hide ParseArgs, ParseRedirs, RedirToks, ArgToks, ArgWords, ArgRedirs;
      ArgsParts(n, toks);
      var p := ParseRedirs(toks[1..]);
      RedirsSound(toks[1..]);
      var more := ArgsSound(n + 1, p.rest);
      args := [Arg(toks[0].w, p.list)] + more;
      ArgsCons(Arg(toks[0].w, p.list), more, ParseArgs(n, toks).rest);
      assert toks == [toks[0]] + toks[1..];
    }
  }

  lemma {:induction false} SimpleSound(toks: seq<Tok>) returns (t: ExecTree)
    requires ParseSimple(toks).Ok?
    ensures var r := ParseSimple(toks);
      ExecLegal(t) && ExecMeans(t) == r.cmd && ExecToks(t) + r.rest == toks && ExecClosed(t, r.rest)
  {
    hide ParseArgs, ParseRedirs;
    RedirsSound(toks);
    var p := ParseRedirs(toks);
    var args := ArgsSound(0, p.rest);
    t := Words(p.list, args);
    var rest := ParseArgs(0, p.rest).rest;
    assert RedirToks(p.list) + ArgToks(args) + rest == RedirToks(p.list) + (ArgToks(args) + rest);
  }

  lemma {:induction false} ExecSound(toks: seq<Tok>) returns (t: ExecTree)
    requires ParseExec(toks).Ok?
    ensures var r := ParseExec(toks);
      ExecLegal(t) && ExecMeans(t) == r.cmd && ExecToks(t) + r.rest == toks && ExecClosed(t, r.rest)
    decreases |toks|, 0
  {
    hide ParseSimple, ParseLine, ParseRedirs;
    if toks != [] && toks[0].LPar? {
      var line := LineSound(toks[1..]);
      var l := ParseLine(toks[1..]);
      var r := ParseRedirs(l.rest[1..]);
      RedirsSound(l.rest[1..]);
      t := Group(line, r.list);
      GroupToks(toks, line, l.rest, r.list, r.rest);
    } else {
      t := SimpleSound(toks);
    }
  }

  lemma {:induction false} GroupToks(toks: seq<Tok>, line: LineTree, after: seq<Tok>, list: Redirections, k: seq<Tok>)
    requires toks != [] && toks[0] == LPar && toks[1..] == LineToks(line) + after
    requires after != [] && after[0] == RPar && after[1..] == RedirToks(list) + k
    ensures toks == ExecToks(Group(line, list)) + k
    ensures toks == [LPar] + (LineToks(line) + ([RPar] + (RedirToks(list) + k)))
  {
    hide LineToks, RedirToks;
    assert toks == [LPar] + toks[1..] && after == [RPar] + after[1..];
  }

  lemma {:induction false} PipeSound(toks: seq<Tok>) returns (t: PipeTree)
    requires ParsePipe(toks).Ok?
    ensures var r := ParsePipe(toks);
      PipeLegal(t) && PipeMeans(t) == r.cmd && PipeToks(t) + r.rest == toks && PipeClosed(t, r.rest)
    decreases |toks|, 1
  {
    hide ParseExec, ExecToks, ExecMeans, ExecLegal, ExecClosed;
    var e := ExecSound(toks);
    var x := ParseExec(toks);
    if x.rest != [] && x.rest[0].Bar? {
      ShorterExec(toks);
      var rest := PipeSound(x.rest[1..]);
      t := Piped(e, rest);
      var k := ParsePipe(x.rest[1..]).rest;
      assert x.rest == [Bar] + x.rest[1..];
      assert PipeToks(t) + k == ExecToks(e) + ([Bar] + (PipeToks(rest) + k));
    } else {
      t := Single(e);
    }
  }

  lemma {:induction false} ShorterExec(toks: seq<Tok>)
    requires ParseExec(toks).Ok?
    ensures |ParseExec(toks).rest| <= |toks|
  {
  }

  lemma {:induction false} BacksTurn(c: Cmd, toks: seq<Tok>)
    ensures ParseBacks(c, toks) == if toks != [] && toks[0].Amp? then ParseBacks(Back(c), toks[1..]) else Ok(c, toks)
  {
  }

  lemma {:induction false} AmpsMore(n: nat, k: seq<Tok>)
    ensures AmpToks(0) + k == k && AmpToks(n + 1) + k == [Amp] + (AmpToks(n) + k)
  {
  }

  lemma {:induction false} BacksSound(c: Cmd, toks: seq<Tok>) returns (n: nat)
    ensures var r := ParseBacks(c, toks);
      r.cmd == InBack(c, n) && AmpToks(n) + r.rest == toks && (n == 0 ==> r.rest == toks)
    decreases |toks|
  {
    hide ParseBacks, AmpToks;
    BacksTurn(c, toks);
    var k := ParseBacks(c, toks).rest;
    if toks != [] && toks[0].Amp? {
      var m := BacksSound(Back(c), toks[1..]);
      n := m + 1;
      AmpsMore(m, k);
      assert toks == [Amp] + toks[1..];
    } else {
      n := 0;
      AmpsMore(0, k);
    }
  }

  /** What a parse of a line is made of. */
  lemma {:induction false} LineParts(toks: seq<Tok>)
    requires ParseLine(toks).Ok?
    ensures ParsePipe(toks).Ok?
    ensures var x := ParsePipe(toks); var b := ParseBacks(x.cmd, x.rest);
      && |b.rest| <= |toks| && (b.rest == [] || !b.rest[0].Amp?)
      && if b.rest != [] && b.rest[0].Semi? then
           ParseLine(b.rest[1..]).Ok?
             && ParseLine(toks) == Ok(List(b.cmd, ParseLine(b.rest[1..]).cmd), ParseLine(b.rest[1..]).rest)
         else ParseLine(toks) == Ok(b.cmd, b.rest)
  {
    hide ParsePipe, ParseBacks;
  }

  lemma {:induction false} LineJoin(p: PipeTree, n: nat, toks: seq<Tok>, rest: seq<Tok>, after: seq<Tok>)
    requires toks == PipeToks(p) + rest && rest == AmpToks(n) + after
    ensures toks == LineToks(Final(p, n)) + after
    ensures forall t, k :: after == [Semi] + (LineToks(t) + k) ==> toks == LineToks(Then(p, n, t)) + k
  {
    hide PipeToks, AmpToks;
    forall t, k | after == [Semi] + (LineToks(t) + k) ensures toks == LineToks(Then(p, n, t)) + k {
      assert LineToks(Then(p, n, t)) == PipeToks(p) + AmpToks(n) + [Semi] + LineToks(t);
    }
  }

  lemma {:induction false} LineSound(toks: seq<Tok>) returns (t: LineTree)
    requires ParseLine(toks).Ok?
    ensures var r := ParseLine(toks);
      LineLegal(t) && LineMeans(t) == r.cmd && toks == LineToks(t) + r.rest && LineClosed(t, r.rest)
    decreases |toks|, 2
  {
    hide ParsePipe, ParseLine, PipeToks, PipeMeans, PipeLegal, PipeClosed, ParseBacks, AmpToks, InBack, LineToks;
    LineParts(toks);
    var p := PipeSound(toks);
    var x := ParsePipe(toks);
    var n := BacksSound(x.cmd, x.rest);
    var b := ParseBacks(x.cmd, x.rest);
    LineJoin(p, n, toks, x.rest, b.rest);
    if b.rest != [] && b.rest[0].Semi? {
      var rest := LineSound(b.rest[1..]);
      assert b.rest == [Semi] + b.rest[1..];
      t := Then(p, n, rest);
    } else {
      t := Final(p, n);
    }
  }

  // ---------------------------------------------------------------- every tree is parsed

  /** Arguments start with a word. */
  lemma {:induction false} ArgsStart(args: seq<Arg>, k: seq<Tok>)
    requires AfterArgs(k)
    ensures var toks := ArgToks(args) + k; toks == [] || (!toks[0].To? && !toks[0].LPar?)
  {
  }

  lemma {:induction false} ArgsComplete(n: nat, args: seq<Arg>, k: seq<Tok>)
    requires n + |args| < MAXARGS && AfterArgs(k)
    ensures ParseArgs(n, ArgToks(args) + k) == Simple(ArgWords(args), ArgRedirs(args), k)
    decreases |args|
  {
    if args == [] {
      assert ArgToks(args) + k == k;
      NoArgs(n, k);
    } else {
      hide ParseArgs, ParseRedirs, RedirToks, ArgToks, ArgWords, ArgRedirs, AfterArgs;
      var a, more := args[0], args[1..];
      assert args == [a] + more;
      var after := ArgToks(more) + k;
      ArgsCons(a, more, k);
      ArgsStart(more, k);
      RedirsRound(a.redirs, after);
      ArgsComplete(n + 1, more, k);
      ArgStep(n, a.word, ArgToks(args) + k, RedirToks(a.redirs) + after, a.redirs, after);
    }
  }

  lemma {:induction false} WordsComplete(lead: Redirections, args: seq<Arg>, k: seq<Tok>)
    requires |args| < MAXARGS && AfterArgs(k)
    ensures ParseExec(ExecToks(Words(lead, args)) + k) == Ok(ExecMeans(Words(lead, args)), k)
  {
    hide ParseArgs, ParseRedirs, RedirToks, ArgToks;
    var after := ArgToks(args) + k;
    var toks := ExecToks(Words(lead, args)) + k;
    assert toks == RedirToks(lead) + after;
    ArgsStart(args, k);
    RedirsRound(lead, after);
    ArgsComplete(0, args, k);
    NotGroup(lead, after);
  }

  lemma {:induction false} NotGroup(lead: Redirections, after: seq<Tok>)
    requires after == [] || !after[0].LPar?
    ensures var toks := RedirToks(lead) + after; toks == [] || !toks[0].LPar?
  {
  }

  lemma {:induction false} ExecComplete(t: ExecTree, k: seq<Tok>)
    requires ExecLegal(t) && ExecClosed(t, k)
    ensures ParseExec(ExecToks(t) + k) == Ok(ExecMeans(t), k)
    decreases t, 0
  {
    match t
    case Words(lead, args) => WordsComplete(lead, args, k);
    case Group(line, list) =>
      hide ParseExec, ParseLine, ParseRedirs, RedirToks, Wrap;
      var toks := ExecToks(t) + k;
      var after := RedirToks(list) + k;
      assert toks == [LPar] + (LineToks(line) + ([RPar] + after));
      ClosedByParen(line, [RPar] + after);
      LineComplete(line, [RPar] + after);
      RedirsRound(list, k);
      BlockStep(LineMeans(line), toks, LineToks(line) + ([RPar] + after), after, list, k);
  }

  lemma {:induction false} ClosedByParen(t: LineTree, k: seq<Tok>)
    requires k == [] || k[0].RPar?
    ensures LineClosed(t, k)
  {
    match t
    case Final(p, _) => PipeClosedByParen(p, k);
    case Then(_, _, rest) => ClosedByParen(rest, k);
  }

  lemma {:induction false} PipeClosedByParen(t: PipeTree, k: seq<Tok>)
    requires k == [] || k[0].RPar?
    ensures PipeClosed(t, k)
  {
    if t.Piped? {
      PipeClosedByParen(t.rest, k);
    }
  }

  lemma {:induction false} PipeComplete(t: PipeTree, k: seq<Tok>)
    requires PipeLegal(t) && PipeClosed(t, k)
    ensures ParsePipe(PipeToks(t) + k) == Ok(PipeMeans(t), k)
    decreases t, 1
  {
    hide ParseExec, ParsePipe, ExecToks, ExecMeans, ExecLegal;
    match t
    case Single(e) =>
      ExecComplete(e, k);
      PipeStep(PipeToks(t) + k, ExecMeans(e), k);
    case Piped(e, rest) =>
      var after := [Bar] + (PipeToks(rest) + k);
      assert PipeToks(t) + k == ExecToks(e) + after;
      assert after[1..] == PipeToks(rest) + k;
      ExecComplete(e, after);
      PipeComplete(rest, k);
      PipeStep(PipeToks(t) + k, ExecMeans(e), after);
  }

  lemma {:induction false} BacksComplete(c: Cmd, n: nat, k: seq<Tok>)
    requires k == [] || !k[0].Amp?
    ensures ParseBacks(c, AmpToks(n) + k) == Ok(InBack(c, n), k)
    decreases n
  {
    if n == 0 {
      assert AmpToks(n) + k == k;
    } else {
      BacksComplete(Back(c), n - 1, k);
      assert (AmpToks(n) + k)[1..] == AmpToks(n - 1) + k;
    }
  }

  /** A pipe ends before an ampersand, a semicolon, or what closes it. */
  lemma {:induction false} PipeEnds(t: PipeTree, n: nat, k: seq<Tok>)
    requires (k != [] && k[0].Semi?) || (n == 0 ==> PipeClosed(t, k))
    ensures PipeClosed(t, AmpToks(n) + k)
    decreases t
  {
    if n == 0 {
      assert AmpToks(n) + k == k;
    }
    if t.Piped? {
      PipeEnds(t.rest, n, k);
    }
  }

  lemma {:induction false} LineComplete(t: LineTree, k: seq<Tok>)
    requires LineLegal(t) && LineClosed(t, k)
    ensures ParseLine(LineToks(t) + k) == Ok(LineMeans(t), k)
    decreases t, 2
  {
    hide ParsePipe, ParseBacks, ParseLine, PipeToks, PipeMeans, PipeLegal, PipeClosed;
    var p, n := t.pipe, t.amps;
    var after := if t.Final? then k else [Semi] + (LineToks(t.rest) + k);
    assert LineToks(t) + k == PipeToks(p) + (AmpToks(n) + after);
    PipeEnds(p, n, after);
    PipeComplete(p, AmpToks(n) + after);
    BacksComplete(PipeMeans(p), n, after);
    LineStep(LineToks(t) + k, PipeMeans(p), AmpToks(n) + after, InBack(PipeMeans(p), n), after);
    if t.Then? {
      assert after[1..] == LineToks(t.rest) + k;
      LineComplete(t.rest, k);
    }
  }

  /** The parser stops after a line that what follows does not continue, and nowhere else. */
  lemma {:induction false} LineIff(toks: seq<Tok>, c: Cmd, k: seq<Tok>)
    ensures ParseLine(toks) == Ok(c, k) <==> exists t :: StartsWith(toks, t, k) && LineMeans(t) == c
  {
    hide ParseLine, LineToks, LineMeans, LineLegal, LineClosed;
    if ParseLine(toks) == Ok(c, k) {
      var t := LineSound(toks);
      assert StartsWith(toks, t, k);
    }
    forall t | StartsWith(toks, t, k) ensures ParseLine(toks) == Ok(LineMeans(t), k) {
      LineComplete(t, k);
    }
  }

  /** A line is accepted, with a command, exactly if the whole of it derives that command. */
  lemma {:induction false} Accepts(toks: seq<Tok>, c: Cmd)
    ensures ParseCmd(toks) == Parse(c) <==> Derives(toks, c)
  {
    hide ParseLine, LineToks, LineMeans, LineLegal, LineClosed;
    LineIff(toks, c, []);
    forall t ensures LineToks(t) + [] == LineToks(t) && LineClosed(t, []) {
      ClosedByParen(t, []);
    }
    if Derives(toks, c) {
      var t :| LineLegal(t) && LineToks(t) == toks && LineMeans(t) == c;
      assert StartsWith(toks, t, []);
    }
  }

  // ---------------------------------------------------------------- what is wrong with the other lines

  /** A redirection without a file name. */
  ghost predicate NoName(toks: seq<Tok>) {
    exists k: nat :: k < |toks| && toks[k].To? && (k + 1 == |toks| || !toks[k + 1].Word?)
  }

  /** A parenthesis opens after a word. */
  ghost predicate ParenAfterWord(toks: seq<Tok>) {
    exists k: nat :: 0 < k < |toks| && toks[k].LPar? && toks[k - 1].Word?
  }

  ghost predicate WordsAt(toks: seq<Tok>, k: nat, args: seq<Arg>) {
    k <= |toks| && ArgToks(args) <= toks[k..]
  }

  /** MAXARGS words with nothing but redirections between them. */
  ghost predicate ManyWords(toks: seq<Tok>) {
    exists k: nat, args :: |args| == MAXARGS && WordsAt(toks, k, args)
  }

  ghost predicate OpenAt(toks: seq<Tok>, k: nat, t: LineTree, after: seq<Tok>) {
    k < |toks| && toks[k].LPar? && StartsWith(toks[k + 1..], t, after)
  }

  /** A parenthesis opens, a line follows, and then something else than the parenthesis that closes it. */
  ghost predicate NotClosed(toks: seq<Tok>) {
    exists k: nat, t: LineTree, after: seq<Tok> :: OpenAt(toks, k, t, after) && (after == [] || !after[0].RPar?)
  }

  /** After a line that cannot be continued there is more. */
  ghost predicate More(toks: seq<Tok>) {
    exists t, after :: StartsWith(toks, t, after) && after != []
  }

  ghost predicate Wrong(toks: seq<Tok>, e: Error) {
    match e
    case MissingFile => NoName(toks)
    case Syntax => ParenAfterWord(toks)
    case TooManyArgs => ManyWords(toks)
    case MissingParen => NotClosed(toks)
    case Leftovers => More(toks)
  }

  /** What is wrong in the tail of a line is wrong in the line. */
  lemma {:induction false} WrongTail(toks: seq<Tok>, m: nat, e: Error)
    requires m <= |toks| && Wrong(toks[m..], e) && e != Leftovers
    ensures Wrong(toks, e)
  {
    hide StartsWith, ArgToks;
    var tail := toks[m..];
    match e
    case MissingFile =>
      var k: nat :| k < |tail| && tail[k].To? && (k + 1 == |tail| || !tail[k + 1].Word?);
      assert toks[m + k] == tail[k];
      assert m + k < |toks| && toks[m + k].To? && (m + k + 1 == |toks| || !toks[m + k + 1].Word?);
    case Syntax =>
      var k: nat :| 0 < k < |tail| && tail[k].LPar? && tail[k - 1].Word?;
      assert toks[m + k] == tail[k] && toks[m + k - 1] == tail[k - 1];
    case TooManyArgs =>
      var k: nat, args :| |args| == MAXARGS && WordsAt(tail, k, args);
      assert tail[k..] == toks[m + k..];
      assert WordsAt(toks, m + k, args);
    case MissingParen =>
      var k: nat, t: LineTree, after: seq<Tok> :| OpenAt(tail, k, t, after) && (after == [] || !after[0].RPar?);
      assert tail[k + 1..] == toks[m + k + 1..];
      assert OpenAt(toks, m + k, t, after);
  }

  lemma {:induction false} RedirsWrong(toks: seq<Tok>)
    requires ParseRedirs(toks).NoFile?
    ensures Wrong(toks, MissingFile)
    decreases |toks|
  {
    if |toks| >= 2 && toks[1].Word? {
      RedirsWrong(toks[2..]);
      WrongTail(toks, 2, MissingFile);
    } else {
      assert toks[0].To? && (0 + 1 == |toks| || !toks[0 + 1].Word?);
    }
  }

  /** Redirections end with a word. */
  lemma {:induction false} RedirsEndWord(list: Redirections)
    ensures list != [] ==> |RedirToks(list)| >= 2 && RedirToks(list)[|RedirToks(list)| - 1].Word?
    decreases |list|
  {
    if |list| > 1 {
      RedirsEndWord(list[1..]);
    }
  }

  /** Arguments that do not parse after `n` others. */
  ghost predicate ArgsFault(n: nat, toks: seq<Tok>, e: Error) {
    match e
    case Syntax => (toks != [] && toks[0].LPar?) || Wrong(toks, Syntax)
    case TooManyArgs => exists args :: n + |args| == MAXARGS && WordsAt(toks, 0, args)
    case MissingFile => Wrong(toks, MissingFile)
    case _ => false
  }

  lemma {:induction false} ArgsWrong(n: nat, toks: seq<Tok>)
    requires ParseArgs(n, toks).Bad? && n < MAXARGS && (toks == [] || !toks[0].To?)
    ensures ArgsFault(n, toks, ParseArgs(n, toks).error)
    decreases |toks|
  {
    hide Wrong, WordsAt;
    if toks[0].Word? {
      if n + 1 >= MAXARGS {
        OneWord(toks);
      } else {
        var p := ParseRedirs(toks[1..]);
        if p.NoFile? {
          RedirsWrong(toks[1..]);
          WrongTail(toks, 1, MissingFile);
        } else {
          RedirsSound(toks[1..]);
          ArgsWrong(n + 1, p.rest);
          FaultAfter(n, toks, p.list, p.rest, ParseArgs(n, toks).error);
        }
      }
    }
  }

  lemma {:induction false} OneWord(toks: seq<Tok>)
    requires toks != [] && toks[0].Word?
    ensures WordsAt(toks, 0, [Arg(toks[0].w, [])])
  {
    var a := Arg(toks[0].w, []);
    assert [a][1..] == [];
    assert ArgToks([a]) == [toks[0]] + [] + [];
    assert toks[0..] == toks;
  }

  /** A fault in the arguments after the first one. */
  lemma {:induction false} FaultAfter(n: nat, toks: seq<Tok>, list: Redirections, rest: seq<Tok>, e: Error)
    requires toks != [] && toks[0].Word? && toks[1..] == RedirToks(list) + rest && n + 1 < MAXARGS
    requires ArgsFault(n + 1, rest, e)
    ensures ArgsFault(n, toks, e)
  {
    hide Wrong, RedirToks;
    var m := |toks| - |rest|;
    assert toks[m..] == rest && 0 < m;
    RedirsEndWord(list);
    if e.TooManyArgs? {
      var args :| n + 1 + |args| == MAXARGS && WordsAt(rest, 0, args);
      MoreWords(toks, list, rest, args);
      assert n + |[Arg(toks[0].w, list)] + args| == MAXARGS;
    } else if e.Syntax? && rest != [] && rest[0].LPar? {
      WordBefore(toks, list, rest);
    } else {
      WrongTail(toks, m, e);
    }
  }

  lemma {:induction false} WordBefore(toks: seq<Tok>, list: Redirections, rest: seq<Tok>)
    requires toks != [] && toks[0].Word? && toks[1..] == RedirToks(list) + rest && rest != [] && rest[0].LPar?
    ensures Wrong(toks, Syntax)
  {
    hide RedirToks;
    RedirsEndWord(list);
    var k := |toks| - |rest|;
    assert toks == [toks[0]] + toks[1..];
    if list == [] {
      NoRedirToks();
    }
    var last := RedirToks(list);
    assert toks[k] == rest[0] && toks[k - 1] == if list == [] then toks[0] else last[|last| - 1];
  }

  lemma {:induction false} NoRedirToks()
    ensures RedirToks([]) == []
  {
  }

  lemma {:induction false} MoreWords(toks: seq<Tok>, list: Redirections, rest: seq<Tok>, args: seq<Arg>)
    requires toks != [] && toks[0].Word? && toks[1..] == RedirToks(list) + rest && WordsAt(rest, 0, args)
    ensures WordsAt(toks, 0, [Arg(toks[0].w, list)] + args)
  {
    hide RedirToks, ArgToks;
    ArgsCons(Arg(toks[0].w, list), args, []);
    var k := rest[|ArgToks(args)|..];
    assert rest[0..] == rest && rest == ArgToks(args) + k;
    ArgsCons(Arg(toks[0].w, list), args, k);
    assert toks[0..] == toks == [toks[0]] + toks[1..];
  }

  lemma {:induction false} SimpleWrong(toks: seq<Tok>)
    requires ParseSimple(toks).Err? && (toks == [] || !toks[0].LPar?)
    ensures Wrong(toks, ParseSimple(toks).error) && !ParseSimple(toks).error.Leftovers?
  {
    hide ParseRedirs, ParseArgs, Wrong;
    var p := ParseRedirs(toks);
    if p.NoFile? {
      RedirsWrong(toks);
    } else {
      RedirsSound(toks);
      var e := ParseArgs(0, p.rest).error;
      ArgsWrong(0, p.rest);
      FaultFirst(toks, p.list, p.rest, e);
    }
  }

  lemma {:induction false} FaultFirst(toks: seq<Tok>, list: Redirections, rest: seq<Tok>, e: Error)
    requires toks == RedirToks(list) + rest && ArgsFault(0, rest, e) && (toks == [] || !toks[0].LPar?)
    ensures Wrong(toks, e) && !e.Leftovers?
  {
    hide RedirToks;
    var m := |toks| - |rest|;
    assert toks[m..] == rest;
    if e.TooManyArgs? {
      var args :| 0 + |args| == MAXARGS && WordsAt(rest, 0, args);
      assert rest[0..] == toks[m..];
      assert WordsAt(toks, m, args);
    } else if e.Syntax? && rest != [] && rest[0].LPar? {
      RedirsEndWord(list);
      if list == [] {
        NoRedirToks();
      }
      assert toks[m] == rest[0] && toks[m - 1].Word?;
    } else {
      WrongTail(toks, m, e);
    }
  }

  lemma {:induction false} ExecWrong(toks: seq<Tok>)
    requires ParseExec(toks).Err?
    ensures Wrong(toks, ParseExec(toks).error) && !ParseExec(toks).error.Leftovers?
    decreases |toks|, 0
  {
    hide ParseSimple, ParseLine, ParseRedirs, Wrong;
    if toks != [] && toks[0].LPar? {
      var l := ParseLine(toks[1..]);
      if l.Err? {
        LineWrong(toks[1..]);
        WrongTail(toks, 1, l.error);
      } else if l.rest == [] || !l.rest[0].RPar? {
        var t := LineSound(toks[1..]);
        OpenWrong(toks, t, l.rest);
      } else {
        RedirsWrong(l.rest[1..]);
        LineShorter(toks[1..]);
        var m := |toks| - |l.rest| + 1;
        assert toks[m..] == l.rest[1..];
        WrongTail(toks, m, MissingFile);
      }
    } else {
      SimpleWrong(toks);
    }
  }

  lemma {:induction false} LineShorter(toks: seq<Tok>)
    requires ParseLine(toks).Ok?
    ensures |ParseLine(toks).rest| <= |toks| && ParseLine(toks).rest == toks[|toks| - |ParseLine(toks).rest|..]
  {
    hide ParseLine, LineToks, LineMeans, LineLegal, LineClosed;
    var t := LineSound(toks);
  }

  lemma {:induction false} OpenWrong(toks: seq<Tok>, t: LineTree, after: seq<Tok>)
    requires toks != [] && toks[0].LPar? && LineLegal(t) && toks[1..] == LineToks(t) + after && LineClosed(t, after)
    requires after == [] || !after[0].RPar?
    ensures Wrong(toks, MissingParen)
  {
    hide LineToks, LineLegal, LineClosed;
    assert toks[0 + 1..] == toks[1..];
    assert OpenAt(toks, 0, t, after);
  }

  lemma {:induction false} PipeWrong(toks: seq<Tok>)
    requires ParsePipe(toks).Err?
    ensures Wrong(toks, ParsePipe(toks).error) && !ParsePipe(toks).error.Leftovers?
    decreases |toks|, 1
  {
    hide ParseExec, Wrong, ExecToks, ExecMeans, ExecLegal, ExecClosed;
    var x := ParseExec(toks);
    if x.Err? {
      ExecWrong(toks);
    } else {
      var e := ExecSound(toks);
      var m := |toks| - |x.rest| + 1;
      assert toks[m..] == x.rest[1..];
      PipeWrong(x.rest[1..]);
      WrongTail(toks, m, ParsePipe(toks).error);
    }
  }

  lemma {:induction false} LineWrong(toks: seq<Tok>)
    requires ParseLine(toks).Err?
    ensures Wrong(toks, ParseLine(toks).error) && !ParseLine(toks).error.Leftovers?
    decreases |toks|, 2
  {
    hide ParsePipe, ParseBacks, Wrong, PipeToks, PipeMeans, PipeLegal, PipeClosed, AmpToks, InBack;
    var x := ParsePipe(toks);
    if x.Err? {
      PipeWrong(toks);
    } else {
      var p := PipeSound(toks);
      var n := BacksSound(x.cmd, x.rest);
      var b := ParseBacks(x.cmd, x.rest);
      var m := |toks| - |b.rest| + 1;
      assert toks == PipeToks(p) + AmpToks(n) + b.rest;
      assert toks[m..] == b.rest[1..];
      LineWrong(b.rest[1..]);
      WrongTail(toks, m, ParseLine(toks).error);
    }
  }

  /**
   A line is rejected exactly if it derives no command, and the error says what is wrong. It is
   rejected for what is left over exactly if it starts with a line that cannot be continued.
   */
  lemma {:induction false} Rejects(toks: seq<Tok>)
    ensures ParseCmd(toks).Fail? <==> !exists c :: Derives(toks, c)
    ensures ParseCmd(toks).Fail? ==> Wrong(toks, ParseCmd(toks).error)
    ensures ParseCmd(toks) == Fail(Leftovers) <==> Wrong(toks, Leftovers)
  {
    hide ParseLine, Derives, StartsWith, LineMeans;
    if ParseCmd(toks).Parse? {
      Accepts(toks, ParseCmd(toks).cmd);
    } else {
      forall c ensures !Derives(toks, c) {
        Accepts(toks, c);
      }
    }
    var l := ParseLine(toks);
    if l.Err? {
      LineWrong(toks);
    } else {
      LineIff(toks, l.cmd, l.rest);
    }
    forall t, after | StartsWith(toks, t, after) ensures ParseLine(toks) == Ok(LineMeans(t), after) {
      LineIff(toks, LineMeans(t), after);
    }
  }

  // ---------------------------------------------------------------- how tokens are written

  /** A text: the tokens in order, with a gap before each of them and one at the end. */
  function Spelled(gaps: seq<string>, toks: seq<Tok>): string
    requires |gaps| == |toks| + 1
    decreases |toks|
  {
    if toks == [] then gaps[0] else gaps[0] + (TokText(toks[0]) + Spelled(gaps[1..], toks[1..]))
  }

  predicate AllSpace(gap: string) { forall i :: 0 <= i < |gap| ==> IsSpace(gap[i]) }

  predicate Plain(w: string) { w != [] && forall i :: 0 <= i < |w| ==> !IsSpace(w[i]) && !IsSymbol(w[i]) }

  /** Written without a gap, the two would be read as one token or as others. */
  predicate Sticks(t: Tok, u: Tok) {
    (t.Word? && u.Word?) || (t == To(Out) && (u == To(Out) || u == To(Append)))
  }

  /** Gaps are white space, words have none and no symbols, and tokens that would stick together have a gap. */
  predicate Clear(gaps: seq<string>, toks: seq<Tok>) {
    && |gaps| == |toks| + 1 && (forall i :: 0 <= i < |gaps| ==> AllSpace(gaps[i]))
    && (forall i :: 0 <= i < |toks| && toks[i].Word? ==> Plain(toks[i].w))
    && (forall i :: 0 < i < |toks| && gaps[i] == [] ==> !Sticks(toks[i - 1], toks[i]))
  }

  ghost predicate Writes(s: string, toks: seq<Tok>) {
    exists gaps :: |gaps| == |toks| + 1 && Clear(gaps, toks) && Spelled(gaps, toks) == s
  }

  /** The rest of a text does not continue its first token. */
  predicate Breaks(t: Tok, rest: string) {
    && (t.Word? && rest != [] ==> IsSpace(rest[0]) || IsSymbol(rest[0]))
    && (t == To(Out) && rest != [] ==> rest[0] != '>')
  }

  lemma {:induction false} LexSkip(gap: string, s: string)
    requires AllSpace(gap)
    ensures Lex(gap + s) == Lex(s)
    decreases |gap|
  {
    if gap == [] {
      assert gap + s == s;
    } else {
      assert (gap + s)[1..] == gap[1..] + s;
      LexSkip(gap[1..], s);
    }
  }

  lemma {:induction false} LongestWord(w: string, rest: string)
    requires Plain(w) && (rest != [] ==> IsSpace(rest[0]) || IsSymbol(rest[0]))
    ensures WordLength(w + rest) == |w|
    decreases |w|
  {
    hide IsSpace, IsSymbol;
    var s := w + rest;
    if |w| == 1 {
      assert s[1..] == rest;
    } else {
      assert s[1..] == w[1..] + rest;
      LongestWord(w[1..], rest);
    }
  }

  lemma {:induction false} TokenText(t: Tok, rest: string)
    requires (t.Word? ==> Plain(t.w)) && Breaks(t, rest)
    ensures var s := TokText(t) + rest;
      s != [] && !IsSpace(s[0]) && FirstToken(s) == (t, |TokText(t)|) && s[|TokText(t)|..] == rest
  {
    hide WordLength;
    var s := TokText(t) + rest;
    if t.Word? {
      LongestWord(t.w, rest);
      assert s[0] == t.w[0] && !IsSymbol(s[0]);
      assert s[..|t.w|] == t.w;
    }
  }

  lemma {:induction false} LexToken(t: Tok, rest: string)
    requires (t.Word? ==> Plain(t.w)) && Breaks(t, rest)
    ensures Lex(TokText(t) + rest) == [t] + Lex(rest)
  {
    TokenText(t, rest);
    hide FirstToken, TokText, Breaks, Plain, IsSpace;
  }

  /** What a text starts with. */
  lemma {:induction false} SpelledStart(t: Tok, gaps: seq<string>, toks: seq<Tok>)
    requires Clear(gaps, toks) && (toks != [] && gaps[0] == [] ==> !Sticks(t, toks[0]))
    ensures Breaks(t, Spelled(gaps, toks))
  {
    var s := Spelled(gaps, toks);
    if gaps[0] != [] {
      assert s[0] == gaps[0][0];
    } else if toks != [] {
      assert s == TokText(toks[0]) + Spelled(gaps[1..], toks[1..]);
      assert s[0] == TokText(toks[0])[0];
    }
  }

  lemma {:induction false} ClearTail(gaps: seq<string>, toks: seq<Tok>)
    requires Clear(gaps, toks) && toks != []
    ensures Clear(gaps[1..], toks[1..]) && AllSpace(gaps[0]) && (toks[0].Word? ==> Plain(toks[0].w))
    ensures |toks| > 1 && gaps[1] == [] ==> !Sticks(toks[0], toks[1])
  {
    hide AllSpace, Plain, Sticks;
    var g, q := gaps[1..], toks[1..];
    forall i | 0 < i < |q| && g[i] == [] ensures !Sticks(q[i - 1], q[i]) {
      assert g[i] == gaps[i + 1] && q[i - 1] == toks[i + 1 - 1] && q[i] == toks[i + 1];
    }
  }

  lemma {:induction false} LexComplete(gaps: seq<string>, toks: seq<Tok>)
    requires Clear(gaps, toks)
    ensures Lex(Spelled(gaps, toks)) == toks
    decreases |toks|
  {
    if toks == [] {
      LexSkip(gaps[0], []);
      assert gaps[0] + [] == gaps[0];
    } else {
      hide Lex, TokText, Breaks, AllSpace, Plain, Sticks, Clear;
      ClearTail(gaps, toks);
      ClearSizes(gaps, toks);
      var rest := Spelled(gaps[1..], toks[1..]);
      SpelledStart(toks[0], gaps[1..], toks[1..]);
      LexSkip(gaps[0], TokText(toks[0]) + rest);
      LexToken(toks[0], rest);
      LexComplete(gaps[1..], toks[1..]);
    }
  }

  lemma {:induction false} ClearSizes(gaps: seq<string>, toks: seq<Tok>)
    requires Clear(gaps, toks)
    ensures |gaps| == |toks| + 1
  {
  }

  /** The first token of a text is clear of what follows. */
  lemma {:induction false} FirstClear(s: string)
    requires s != [] && !IsSpace(s[0])
    ensures var (t, n) := FirstToken(s);
      s == TokText(t) + s[n..] && (t.Word? ==> Plain(t.w)) && Breaks(t, s[n..])
  {
    hide IsSpace;
    var (t, n) := FirstToken(s);
    assert s == s[..n] + s[n..];
  }

  /** A text that breaks off a token starts with a gap or with a token that does not stick to it. */
  lemma {:induction false} NotSticky(t: Tok, gaps: seq<string>, toks: seq<Tok>)
    requires Clear(gaps, toks) && Breaks(t, Spelled(gaps, toks)) && toks != [] && gaps[0] == []
    ensures !Sticks(t, toks[0])
  {
    var s := Spelled(gaps, toks);
    assert s == TokText(toks[0]) + Spelled(gaps[1..], toks[1..]);
    assert s[0] == TokText(toks[0])[0];
  }

  lemma {:induction false} ClearMore(t: Tok, gaps: seq<string>, toks: seq<Tok>)
    requires Clear(gaps, toks) && (t.Word? ==> Plain(t.w)) && (toks != [] && gaps[0] == [] ==> !Sticks(t, toks[0]))
    ensures Clear([[]] + gaps, [t] + toks) && Spelled([[]] + gaps, [t] + toks) == TokText(t) + Spelled(gaps, toks)
  {
    hide Plain, Sticks, TokText;
    var g, q := [[]] + gaps, [t] + toks;
    assert g[1..] == gaps && q[1..] == toks;
    forall i | 0 <= i < |g| ensures AllSpace(g[i]) {
      if i > 0 {
        assert g[i] == gaps[i - 1];
      }
    }
    forall i | 0 < i < |q| && g[i] == [] ensures !Sticks(q[i - 1], q[i]) {
      if i > 1 {
        assert g[i] == gaps[i - 1] && q[i - 1] == toks[i - 1 - 1] && q[i] == toks[i - 1];
      }
    }
    assert [] + (TokText(t) + Spelled(gaps, toks)) == TokText(t) + Spelled(gaps, toks);
  }

  lemma {:induction false} WiderGap(c: char, gaps: seq<string>, toks: seq<Tok>)
    requires Clear(gaps, toks) && IsSpace(c)
    ensures Clear(gaps[0 := [c] + gaps[0]], toks)
    ensures Spelled(gaps[0 := [c] + gaps[0]], toks) == [c] + Spelled(gaps, toks)
  {
    hide Plain, Sticks, TokText, IsSpace;
    var g := gaps[0 := [c] + gaps[0]];
    assert g[1..] == gaps[1..];
    forall i | 0 <= i < |g| ensures AllSpace(g[i]) {
      assert AllSpace(gaps[i]);
    }
    if toks != [] {
      assert [c] + gaps[0] + (TokText(toks[0]) + Spelled(gaps[1..], toks[1..])) ==
             [c] + (gaps[0] + (TokText(toks[0]) + Spelled(gaps[1..], toks[1..])));
    }
  }

  lemma {:induction false} LexSound(s: string) returns (gaps: seq<string>)
    ensures Clear(gaps, Lex(s)) && Spelled(gaps, Lex(s)) == s
    decreases |s|
  {
    if s == [] {
      gaps := [[]];
    } else if IsSpace(s[0]) {
      hide Clear, Spelled, IsSpace;
      var g := LexSound(s[1..]);
      ClearSizes(g, Lex(s));
      gaps := g[0 := [s[0]] + g[0]];
      WiderGap(s[0], g, Lex(s));
      assert s == [s[0]] + s[1..];
    } else {
      hide Clear, Spelled, IsSpace, FirstToken, TokText, Plain, Breaks, Sticks;
      var (t, n) := FirstToken(s);
      FirstClear(s);
      var g := LexSound(s[n..]);
      ClearSizes(g, Lex(s[n..]));
      if Lex(s[n..]) != [] && g[0] == [] {
        NotSticky(t, g, Lex(s[n..]));
      }
      ClearMore(t, g, Lex(s[n..]));
      gaps := [[]] + g;
    }
  }

  /** A text is read as exactly the tokens it is written with. */
  lemma {:induction false} LexIff(s: string, toks: seq<Tok>)
    ensures Lex(s) == toks <==> Writes(s, toks)
  {
    hide Lex, Clear, Spelled;
    if Lex(s) == toks {
      var gaps := LexSound(s);
      ClearSizes(gaps, toks);
    }
    forall gaps | |gaps| == |toks| + 1 && Clear(gaps, toks) && Spelled(gaps, toks) == s ensures Lex(s) == toks {
      LexComplete(gaps, toks);
    }
  }

  /** The text is a line that means `c`. */
  ghost predicate Reads(s: string, c: Cmd) {
    exists toks :: Writes(s, toks) && Derives(toks, c)
  }

  /** What is read from a text: a command exactly if the text is a line that means it, or else what is wrong. */
  lemma {:induction false} ReadIff(s: string)
    ensures forall c :: ParseCmd(Lex(s)) == Parse(c) <==> Reads(s, c)
    ensures ParseCmd(Lex(s)).Fail? ==> Wrong(Lex(s), ParseCmd(Lex(s)).error)
    ensures ParseCmd(Lex(s)) == Fail(Leftovers) <==> Wrong(Lex(s), Leftovers)
  {
    hide Lex, ParseCmd, Writes, Derives, Wrong;
    Rejects(Lex(s));
    LexIff(s, Lex(s));
    forall c ensures ParseCmd(Lex(s)) == Parse(c) <==> Reads(s, c) {
      Accepts(Lex(s), c);
      forall toks | Writes(s, toks) ensures toks == Lex(s) {
        LexIff(s, toks);
      }
    }
  }
}
