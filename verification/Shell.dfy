/**
 The shell's parser, user/sh.c: gettoken and peek over the input, and the recursive descent of
 parsecmd. The input is a C string, so that it has no zero byte. Tokens do not depend on the
 context, so the grammar is first written over the list of tokens that repeated calls of gettoken
 give; the parser as it runs, over a cursor in the input, is then proved to parse the same.
 */
module Shell {
  import opened Common

  const MAXARGS: nat := 10

  predicate Space(c: char) {
    c == ' ' || c == '\t' || c == '\r' || c == '\n' || c == '\U{000b}'
  }

  predicate Symbol(c: char) {
    c == '<' || c == '|' || c == '>' || c == '&' || c == ';' || c == '(' || c == ')'
  }

  predicate Plain(c: char) {
    !Space(c) && !Symbol(c) && c != '\0'
  }

  /** Greater is `>`, Append is `>>`. */
  datatype Token = Word(text: string) | Less | Greater | Append | Bar | Amp | Semi | Open | Close

  // Tokens.

  function SkipSpace(s: string): (r: string)
    ensures |r| <= |s|
  {
    if s != [] && Space(s[0]) then SkipSpace(s[1..]) else s
  }

  /** The longest prefix of s without space or symbol. */
  function WordOf(s: string): (w: string)
    ensures |w| <= |s| && w == s[..|w|]
  {
    if s != [] && !Space(s[0]) && !Symbol(s[0]) then [s[0]] + WordOf(s[1..]) else []
  }

  /** The token at the start of s, which does not start with space, and its length. */
  function TokenAt(s: string): (t: (Token, nat))
    requires s != [] && !Space(s[0])
    ensures 0 < t.1 <= |s|
  {
    match s[0]
    case '|' => (Bar, 1)
    case '(' => (Open, 1)
    case ')' => (Close, 1)
    case ';' => (Semi, 1)
    case '&' => (Amp, 1)
    case '<' => (Less, 1)
    case '>' => if |s| > 1 && s[1] == '>' then (Append, 2) else (Greater, 1)
    case _ => (Word(WordOf(s)), |WordOf(s)|)
  }

  /** gettoken's answer and the rest of the input. */
  function GetToken(s: string): (t: (Option<Token>, string))
    ensures |t.1| <= |s| && (t.0.Some? ==> |t.1| < |s|)
  {
    var s1 := SkipSpace(s);
    SkipSpaceStops(s);
    if s1 == [] then (None, []) else (Some(TokenAt(s1).0), SkipSpace(s1[TokenAt(s1).1..]))
  }

  lemma {:induction false} SkipSpaceStops(s: string)
    ensures SkipSpace(s) == [] || !Space(SkipSpace(s)[0])
  {
    if s != [] && Space(s[0]) {
      SkipSpaceStops(s[1..]);
    }
  }

  function Lex(s: string): seq<Token>
    decreases |s|
  {
    var t := GetToken(s);
    if t.0.None? then [] else [t.0.value] + Lex(t.1)
  }

  /** gettoken as it runs: a cursor that moves over the input. */
  method RunGetToken(s: string, pos: nat) returns (tok: Option<Token>, next: nat)
    requires pos <= |s|
    ensures pos <= next <= |s| && GetToken(s[pos..]) == (tok, s[next..])
  {
    hide TokenAt, SkipSpace;
    SkipSpaceStops(s[pos..]);
    next := SkipFrom(s, pos);
    tok := None;
    if next < |s| {
      var q := next;
      var t, eq := RunTokenAt(s, q);
      tok := Some(t);
      assert s[q..][eq - q..] == s[eq..];
      next := SkipFrom(s, eq);
    }
  }

  /** The switch of gettoken. */
  method RunTokenAt(s: string, q: nat) returns (tok: Token, eq: nat)
    requires q < |s| && !Space(s[q])
    ensures q < eq <= |s| && TokenAt(s[q..]) == (tok, eq - q)
  {
    hide WordOf;
    eq := q + 1;
    match s[q] {
      case '|' => tok := Bar;
      case '(' => tok := Open;
      case ')' => tok := Close;
      case ';' => tok := Semi;
      case '&' => tok := Amp;
      case '<' => tok := Less;
      case '>' =>
        tok := Greater;
        if eq < |s| && s[eq] == '>' {
          tok, eq := Append, eq + 1;
        }
      case _ =>
        eq := WordEnd(s, q);
        tok := Word(s[q..eq]);
        assert TokenAt(s[q..]).1 == |WordOf(s[q..])| == eq - q;
    }
  }

  /** The loops over whitespace in gettoken and peek. */
  method SkipFrom(s: string, pos: nat) returns (i: nat)
    requires pos <= |s|
    ensures pos <= i <= |s| && SkipSpace(s[pos..]) == s[i..]
  {
    i := pos;
    while i < |s| && Space(s[i])
      invariant pos <= i <= |s| && SkipSpace(s[pos..]) == SkipSpace(s[i..])
    {
      assert s[i..][1..] == s[i + 1..];
      i := i + 1;
    }
  }

  method WordEnd(s: string, pos: nat) returns (i: nat)
    requires pos <= |s|
    ensures pos <= i <= |s| && WordOf(s[pos..]) == s[pos..i]
  {
    hide WordOf;
    i := pos;
    while i < |s| && !Space(s[i]) && !Symbol(s[i])
      invariant pos <= i <= |s| && forall k | pos <= k < i :: !Space(s[k]) && !Symbol(s[k])
    {
      i := i + 1;
    }
    WordIs(s[pos..], i - pos);
    assert s[pos..][..i - pos] == s[pos..i];
  }

  lemma {:induction false} WordIs(s: string, n: nat)
    requires n <= |s| && (forall k | 0 <= k < n :: !Space(s[k]) && !Symbol(s[k]))
    requires n < |s| ==> Space(s[n]) || Symbol(s[n])
    ensures WordOf(s) == s[..n]
  {
    if n > 0 {
      WordIs(s[1..], n - 1);
    }
  }

  // Trees.

  datatype Mode = In | Out | OutAppend

  datatype Cmd =
    | Exec(argv: seq<string>)
    | Redir(cmd: Cmd, mode: Mode, file: string)
    | Pipe(left: Cmd, right: Cmd)
    | List(left: Cmd, right: Cmd)
    | Back(cmd: Cmd)

  /** A tree and the tokens left, or a panic. */
  datatype Parsed = Ok(cmd: Cmd, rest: seq<Token>) | Panic

  datatype Redirs = Redirs(list: seq<(Mode, string)>, rest: seq<Token>) | RedirPanic

  function ModeOf(t: Token): Option<Mode> {
    match t
    case Less => Some(In)
    case Greater => Some(Out)
    case Append => Some(OutAppend)
    case _ => None
  }

  /** peek for any of the given tokens. */
  predicate Peek(ts: seq<Token>, wanted: set<Token>) {
    ts != [] && ts[0] in wanted
  }

  /** parseredirs: the redirections at the start of ts, in order. */
  function ParseRedirs(ts: seq<Token>): (r: Redirs)
    ensures r.Redirs? ==> |r.rest| <= |ts|
  {
    if ts == [] || ModeOf(ts[0]).None? then Redirs([], ts)
    else if |ts| < 2 || !ts[1].Word? then RedirPanic
    else
      match ParseRedirs(ts[2..])
      case RedirPanic => RedirPanic
      case Redirs(list, rest) => Redirs([(ModeOf(ts[0]).value, ts[1].text)] + list, rest)
  }

  function Wrap(c: Cmd, list: seq<(Mode, string)>): Cmd
    decreases |list|
  {
    if list == [] then c else Wrap(Redir(c, list[0].0, list[0].1), list[1..])
  }

  const EXEC_STOPS := {Bar, Close, Amp, Semi}

  /** The loop of parseexec: the words go to the innermost command, redirections wrap it. */
  function ParseArgs(ts: seq<Token>, argv: seq<string>, list: seq<(Mode, string)>): (r: Parsed)
    ensures r.Ok? ==> |r.rest| <= |ts|
    decreases |ts|
  {
    if ts == [] || Peek(ts, EXEC_STOPS) then Ok(Wrap(Exec(argv), list), ts)
    else if !ts[0].Word? || |argv| + 1 >= MAXARGS then Panic
    else
      match ParseRedirs(ts[1..])
      case RedirPanic => Panic
      case Redirs(more, rest) => ParseArgs(rest, argv + [ts[0].text], list + more)
  }

  function ParseExec(ts: seq<Token>): (r: Parsed)
    ensures r.Ok? ==> |r.rest| <= |ts|
    decreases |ts|, 0
  {
    if Peek(ts, {Open}) then ParseBlock(ts)
    else
      match ParseRedirs(ts)
      case RedirPanic => Panic
      case Redirs(list, rest) => ParseArgs(rest, [], list)
  }

  function ParseBlock(ts: seq<Token>): (r: Parsed)
    requires Peek(ts, {Open})
    ensures r.Ok? ==> |r.rest| <= |ts|
    decreases |ts| - 1, 9
  {
    match ParseLine(ts[1..])
    case Panic => Panic
    case Ok(c, rest) =>
      if !Peek(rest, {Close}) then Panic
      else
        match ParseRedirs(rest[1..])
        case RedirPanic => Panic
        case Redirs(list, rest') => Ok(Wrap(c, list), rest')
  }

  function ParsePipe(ts: seq<Token>): (r: Parsed)
    ensures r.Ok? ==> |r.rest| <= |ts|
    decreases |ts|, 1
  {
    match ParseExec(ts)
    case Panic => Panic
    case Ok(c, rest) =>
      if !Peek(rest, {Bar}) then Ok(c, rest)
      else
        match ParsePipe(rest[1..])
        case Panic => Panic
        case Ok(d, rest') => Ok(Pipe(c, d), rest')
  }

  /** The loop over & in parseline. */
  function ParseAmps(c: Cmd, ts: seq<Token>): (r: (Cmd, seq<Token>))
    ensures |r.1| <= |ts|
    decreases |ts|
  {
    if Peek(ts, {Amp}) then ParseAmps(Back(c), ts[1..]) else (c, ts)
  }

  function ParseLine(ts: seq<Token>): (r: Parsed)
    ensures r.Ok? ==> |r.rest| <= |ts|
    decreases |ts|, 2
  {
    match ParsePipe(ts)
    case Panic => Panic
    case Ok(c, rest) =>
      var (d, rest1) := ParseAmps(c, rest);
      if !Peek(rest1, {Semi}) then Ok(d, rest1)
      else
        match ParseLine(rest1[1..])
        case Panic => Panic
        case Ok(e, rest2) => Ok(List(d, e), rest2)
  }

  /** parsecmd: the whole input or a panic. */
  function ParseCmd(s: string): Option<Cmd> {
    match ParseLine(Lex(s))
    case Panic => None
    case Ok(c, rest) => if rest == [] then Some(c) else None
  }

  // A printer: one form for each level of the grammar, with parentheses where the tree needs them.

  /** A redirection chain: what it is wrapped around, and the redirections from the inside out. */
  function Core(c: Cmd): Cmd {
    if c.Redir? then Core(c.cmd) else c
  }

  function Chain(c: Cmd): seq<(Mode, string)> {
    if c.Redir? then Chain(c.cmd) + [(c.mode, c.file)] else []
  }

  function TokenFor(m: Mode): Token {
    match m
    case In => Less
    case Out => Greater
    case OutAppend => Append
  }

  function PrintRedirs(list: seq<(Mode, string)>): seq<Token> {
    if list == [] then [] else [TokenFor(list[0].0), Word(list[0].1)] + PrintRedirs(list[1..])
  }

  function PrintWords(argv: seq<string>): seq<Token> {
    if argv == [] then [] else [Word(argv[0])] + PrintWords(argv[1..])
  }

  lemma CoreSmaller(c: Cmd)
    ensures Core(c) == c || Core(c) < c
    ensures !Core(c).Redir?
  {
  }

  function PrintExec(c: Cmd): seq<Token>
    decreases c, 0
  {
    CoreSmaller(c);
    (if Core(c).Exec? then PrintWords(Core(c).argv)
     else [Open] + (match Core(c)
                    case Pipe(l, r) => PrintExec(l) + [Bar] + PrintPipe(r)
                    case List(l, r) => PrintAmps(l) + [Semi] + PrintLine(r)
                    case Back(d) => PrintAmps(d) + [Amp]
                    case _ => []) + [Close])
    + PrintRedirs(Chain(c))
  }

  function PrintPipe(c: Cmd): seq<Token>
    decreases c, 1
  {
    if c.Pipe? then PrintExec(c.left) + [Bar] + PrintPipe(c.right) else PrintExec(c)
  }

  function PrintAmps(c: Cmd): seq<Token>
    decreases c, 2
  {
    if c.Back? then PrintAmps(c.cmd) + [Amp] else PrintPipe(c)
  }

  function PrintLine(c: Cmd): seq<Token>
    decreases c, 3
  {
    if c.List? then PrintAmps(c.left) + [Semi] + PrintLine(c.right) else PrintAmps(c)
  }

  /** At most nine words in each exec command. */
  predicate FewArgs(c: Cmd) {
    match c
    case Exec(argv) => |argv| < MAXARGS
    case Redir(d, _, _) => FewArgs(d)
    case Pipe(l, r) => FewArgs(l) && FewArgs(r)
    case List(l, r) => FewArgs(l) && FewArgs(r)
    case Back(d) => FewArgs(d)
  }

  // What may follow, at each level.

  predicate ExecEnd(ts: seq<Token>) {
    ts == [] || ts[0] in EXEC_STOPS
  }

  predicate PipeEnd(ts: seq<Token>) {
    ExecEnd(ts) && !Peek(ts, {Bar})
  }

  predicate LineEnd(ts: seq<Token>) {
    PipeEnd(ts) && !Peek(ts, {Amp, Semi})
  }

  lemma RedirsStep(m: Mode, file: string, ts: seq<Token>)
    ensures ParseRedirs([TokenFor(m), Word(file)] + ts) ==
      match ParseRedirs(ts)
      case RedirPanic => RedirPanic
      case Redirs(list, rest) => Redirs([(m, file)] + list, rest)
  {
    var all := [TokenFor(m), Word(file)] + ts;
    assert all[0] == TokenFor(m) && all[1] == Word(file) && all[2..] == ts;
  }

  lemma RedirsNone(ts: seq<Token>)
    requires ts == [] || ModeOf(ts[0]).None?
    ensures ParseRedirs(ts) == Redirs([], ts)
  {
  }

  lemma {:induction false} RedirsOk(list: seq<(Mode, string)>, rest: seq<Token>)
    requires rest == [] || ModeOf(rest[0]).None?
    ensures ParseRedirs(PrintRedirs(list) + rest) == Redirs(list, rest)
  {
    hide ParseRedirs;
    if list == [] {
      RedirsNone(rest);
      assert PrintRedirs(list) + rest == rest;
    } else {
      RedirsOk(list[1..], rest);
      RedirsStep(list[0].0, list[0].1, PrintRedirs(list[1..]) + rest);
      assert PrintRedirs(list) + rest == [TokenFor(list[0].0), Word(list[0].1)] + (PrintRedirs(list[1..]) + rest);
      assert [(list[0].0, list[0].1)] + list[1..] == list;
    }
  }

  lemma ArgsStep(w: string, ts: seq<Token>, argv: seq<string>, list: seq<(Mode, string)>, more: seq<(Mode, string)>,
      rest: seq<Token>)
    requires ParseRedirs(ts) == Redirs(more, rest) && |argv| + 1 < MAXARGS
    ensures ParseArgs([Word(w)] + ts, argv, list) == ParseArgs(rest, argv + [w], list + more)
  {
    var all := [Word(w)] + ts;
    assert all[0] == Word(w) && all[1..] == ts;
  }

  lemma {:induction false} WordsOk(words: seq<string>, argv: seq<string>, list: seq<(Mode, string)>, rest: seq<Token>)
    requires words != [] && |argv| + |words| < MAXARGS && ExecEnd(rest)
    ensures ParseArgs(PrintWords(words) + (PrintRedirs(list) + rest), argv, []) == Ok(Wrap(Exec(argv + words), list),
        rest)
  {
    hide ParseRedirs, PrintRedirs;
    var none: seq<(Mode, string)> := [];
    var after := PrintRedirs(list) + rest;
    var next := PrintWords(words[1..]) + after;
    assert PrintWords(words) + after == [Word(words[0])] + next;
    assert argv + words == argv + [words[0]] + words[1..];
    if |words| == 1 {
      assert next == after && words[1..] == [];
      RedirsOk(list, rest);
      ArgsStep(words[0], next, argv, none, list, rest);
      assert none + list == list && argv + [words[0]] == argv + words;
    } else {
      NoRedirs(words[1..], after);
      ArgsStep(words[0], next, argv, none, none, next);
      assert none + none == none;
      WordsOk(words[1..], argv + [words[0]], list, rest);
    }
  }

  lemma NoRedirs(words: seq<string>, after: seq<Token>)
    requires words != []
    ensures var ts := PrintWords(words) + after;
      ts != [] && ts[0] == Word(words[0]) && ParseRedirs(ts) == Redirs([], ts)
  {
  }

  lemma {:induction false} WrapConcat(c: Cmd, a: seq<(Mode, string)>, b: seq<(Mode, string)>)
    ensures Wrap(c, a + b) == Wrap(Wrap(c, a), b)
    decreases |a|
  {
    if a == [] {
      assert a + b == b;
    } else {
      assert (a + b)[1..] == a[1..] + b;
      WrapConcat(Redir(c, a[0].0, a[0].1), a[1..], b);
    }
  }

  lemma {:induction false} WrapChain(c: Cmd)
    ensures Wrap(Core(c), Chain(c)) == c && (FewArgs(c) ==> FewArgs(Core(c)))
  {
    if c.Redir? {
      WrapChain(c.cmd);
      WrapConcat(Core(c), Chain(c.cmd), [(c.mode, c.file)]);
      assert Wrap(c.cmd, [(c.mode, c.file)]) == Redir(c.cmd, c.mode, c.file);
    }
  }

  /** A simple command. */
  lemma SimpleOk(c: Cmd, rest: seq<Token>)
    requires FewArgs(c) && ExecEnd(rest) && Core(c).Exec?
    ensures ParseExec(PrintExec(c) + rest) == Ok(c, rest)
  {
    hide ParseRedirs, PrintRedirs, ParseArgs, Wrap, Core, Chain, FewArgs;
    var argv, list := Core(c).argv, Chain(c);
    var after := PrintRedirs(list) + rest;
    WrapChain(c);
    FewCore(c);
    assert PrintExec(c) + rest == PrintWords(argv) + after;
    if argv == [] {
      assert PrintWords(argv) + after == after;
      RedirsOk(list, rest);
      NoArgs(list, rest);
      assert Exec(argv) == Exec([]) == Core(c);
    } else {
      NoRedirs(argv, after);
      WordsOk(argv, [], list, rest);
      assert [] + argv == argv;
    }
  }

  lemma FewCore(c: Cmd)
    requires FewArgs(c) && Core(c).Exec?
    ensures |Core(c).argv| < MAXARGS
  {
    WrapChain(c);
  }

  lemma NoArgs(list: seq<(Mode, string)>, rest: seq<Token>)
    requires ExecEnd(rest)
    ensures ParseArgs(rest, [], list) == Ok(Wrap(Exec([]), list), rest)
    ensures !Peek(PrintRedirs(list) + rest, {Open})
  {
  }

  /** The order of the proof. Exec is level 0, then pipe, back and line; each form is printed at its own
      level, and at the others through the one below, or through parentheses at level 0. */
  function Rank(c: Cmd, level: nat): nat {
    (level + 4 - if c.Pipe? then 1 else if c.Back? then 2 else if c.List? then 3 else 0) % 4
  }

  lemma {:induction false} ExecOk(c: Cmd, rest: seq<Token>)
    requires FewArgs(c) && ExecEnd(rest)
    ensures ParseExec(PrintExec(c) + rest) == Ok(c, rest)
    decreases c, Rank(c, 0)
  {
    CoreSmaller(c);
    if Core(c).Exec? {
      SimpleOk(c, rest);
    } else {
      WrapChain(c);
      var after := [Close] + (PrintRedirs(Chain(c)) + rest);
      LineOk(Core(c), after);
      RedirsOk(Chain(c), rest);
      BlockPrinted(c, rest);
      assert after[1..] == PrintRedirs(Chain(c)) + rest;
    }
  }

  lemma BlockPrinted(c: Cmd, rest: seq<Token>)
    requires !Core(c).Exec?
    ensures PrintExec(c) + rest == [Open] + (PrintLine(Core(c)) + ([Close] + (PrintRedirs(Chain(c)) + rest)))
  {
    CoreSmaller(c);
    hide PrintRedirs, Chain;
    LinePrinted(Core(c));
  }

  lemma LinePrinted(c: Cmd)
    requires !c.Exec? && !c.Redir?
    ensures PrintLine(c) == match c
      case Pipe(l, r) => PrintExec(l) + [Bar] + PrintPipe(r)
      case List(l, r) => PrintAmps(l) + [Semi] + PrintLine(r)
      case Back(d) => PrintAmps(d) + [Amp]
      case _ => []
  {
    if c.Pipe? {
      assert PrintLine(c) == PrintAmps(c) == PrintPipe(c);
    }
  }

  lemma {:induction false} PipeOk(c: Cmd, rest: seq<Token>)
    requires FewArgs(c) && PipeEnd(rest)
    ensures ParsePipe(PrintPipe(c) + rest) == Ok(c, rest)
    decreases c, Rank(c, 1)
  {
    hide ParseExec, PrintExec;
    if c.Pipe? {
      var after := [Bar] + (PrintPipe(c.right) + rest);
      ExecOk(c.left, after);
      PipeOk(c.right, rest);
      assert PrintPipe(c) + rest == PrintExec(c.left) + after && after[1..] == PrintPipe(c.right) + rest;
    } else {
      ExecOk(c, rest);
    }
  }

  /** parseline up to the semicolon. */
  function ParseBack(ts: seq<Token>): Parsed {
    match ParsePipe(ts)
    case Panic => Panic
    case Ok(c, rest) => var (d, rest1) := ParseAmps(c, rest); Ok(d, rest1)
  }

  lemma {:induction false} AmpsOk(c: Cmd, rest: seq<Token>)
    requires FewArgs(c) && PipeEnd(rest)
    ensures var (d, rest1) := ParseAmps(c, rest); ParseBack(PrintAmps(c) + rest) == Ok(d, rest1)
    decreases c, Rank(c, 2)
  {
    if c.Back? {
      AmpsOk(c.cmd, [Amp] + rest);
      assert PrintAmps(c) + rest == PrintAmps(c.cmd) + ([Amp] + rest) && ([Amp] + rest)[1..] == rest;
    } else {
      PipeOk(c, rest);
    }
  }

  lemma {:induction false} LineOk(c: Cmd, rest: seq<Token>)
    requires FewArgs(c) && LineEnd(rest)
    ensures ParseLine(PrintLine(c) + rest) == Ok(c, rest)
    decreases c, Rank(c, 3)
  {
    if c.List? {
      var after := [Semi] + (PrintLine(c.right) + rest);
      AmpsOk(c.left, after);
      LineOk(c.right, rest);
      assert PrintLine(c) + rest == PrintAmps(c.left) + after && after[1..] == PrintLine(c.right) + rest;
    } else {
      AmpsOk(c, rest);
    }
  }

  // Printing to characters.

  predicate PlainWord(w: string) {
    w != [] && forall i | 0 <= i < |w| :: Plain(w[i])
  }

  predicate PlainTokens(ts: seq<Token>) {
    forall i | 0 <= i < |ts| && ts[i].Word? :: PlainWord(ts[i].text)
  }

  function Text(t: Token): string {
    match t
    case Word(w) => w
    case Less => "<"
    case Greater => ">"
    case Append => ">>"
    case Bar => "|"
    case Amp => "&"
    case Semi => ";"
    case Open => "("
    case Close => ")"
  }

  // Layouts: how tokens may stand in the text.

  /** The characters of whitespace[]. */
  predicate Blank(g: string) {
    forall i | 0 <= i < |g| :: g[i] == ' ' || g[i] == '\t' || g[i] == '\r' || g[i] == '\n' || g[i] == '\U{000b}'
  }

  /** Without space between them the two would be read otherwise. */
  predicate Joins(t: Token, u: Token) {
    (t.Word? && u.Word?) || (t == Greater && (u == Greater || u == Append))
  }

  /** Any space before, between and after the tokens, also none, except between two that would join. */
  predicate Parted(ts: seq<Token>, gaps: seq<string>) {
    && |gaps| == |ts| + 1
    && (forall k | 0 <= k < |gaps| :: Blank(gaps[k]))
    && forall k | 0 < k < |ts| && Joins(ts[k - 1], ts[k]) :: gaps[k] != []
  }

  function Laid(ts: seq<Token>, gaps: seq<string>): string
    requires |gaps| == |ts| + 1
    decreases |ts|
  {
    if ts == [] then gaps[0] else gaps[0] + (Text(ts[0]) + Laid(ts[1..], gaps[1..]))
  }

  /** What follows a token in the text does not continue it. */
  predicate Ends(t: Token, s: string) {
    && (t.Word? && s != [] ==> Space(s[0]) || Symbol(s[0]))
    && (t == Greater && s != [] ==> s[0] != '>')
  }

  lemma TextAt(t: Token, s: string)
    requires (t.Word? ==> PlainWord(t.text)) && Ends(t, s)
    ensures var u := Text(t) + s; u != [] && !Space(u[0]) && TokenAt(u) == (t, |Text(t)|) && u[|Text(t)|..] == s
  {
    var u := Text(t) + s;
    if t.Word? {
      hide WordOf;
      WordIs(u, |t.text|);
      assert u[..|t.text|] == t.text;
      assert u[0] == t.text[0] && Plain(u[0]);
    } else {
      assert u[0] == Text(t)[0] && (t == Append ==> u[1] == '>');
      assert t == Greater && s != [] ==> u[1] == s[0];
    }
  }

  lemma {:induction false} SkipBlank(g: string, s: string)
    requires Blank(g)
    ensures SkipSpace(g + s) == SkipSpace(s)
  {
    if g == [] {
      assert g + s == s;
    } else {
      SkipBlank(g[1..], s);
      assert (g + s)[1..] == g[1..] + s;
    }
  }

  /** gettoken finds a token behind any space. */
  lemma TokenOk(g: string, t: Token, s: string)
    requires Blank(g) && (t.Word? ==> PlainWord(t.text)) && Ends(t, s)
    ensures GetToken(g + (Text(t) + s)) == (Some(t), SkipSpace(s))
  {
    hide TokenAt;
    SkipBlank(g, Text(t) + s);
    TextAt(t, s);
    assert SkipSpace(Text(t) + s) == Text(t) + s;
  }

  /** The rest of a layout does not continue the token before it. */
  lemma LaidEnds(t: Token, ts: seq<Token>, gaps: seq<string>)
    requires PlainTokens(ts) && Parted([t] + ts, [[]] + gaps)
    ensures |gaps| == |ts| + 1 && Ends(t, Laid(ts, gaps))
  {
    var s := Laid(ts, gaps);
    assert ([[]] + gaps)[1] == gaps[0];
    if gaps[0] != [] {
      assert s[0] == gaps[0][0];
    } else if ts != [] {
      assert ([t] + ts)[0] == t && ([t] + ts)[1] == ts[0];
      assert s[0] == Text(ts[0])[0];
    }
  }

  /** Every layout of a token list lexes to the list. */
  lemma {:induction false} LexLaid(ts: seq<Token>, gaps: seq<string>)
    requires PlainTokens(ts) && Parted(ts, gaps)
    ensures Lex(Laid(ts, gaps)) == ts
    decreases |ts|
  {
    hide GetToken, SkipSpace;
    if ts == [] {
      BlankIsEmpty(gaps[0]);
    } else {
      var rest := Laid(ts[1..], gaps[1..]);
      PartedTail(ts, gaps);
      LaidEnds(ts[0], ts[1..], gaps[1..]);
      TokenOk(gaps[0], ts[0], rest);
      LexSkips(rest);
      LexLaid(ts[1..], gaps[1..]);
    }
  }

  lemma PartedTail(ts: seq<Token>, gaps: seq<string>)
    requires ts != [] && PlainTokens(ts) && Parted(ts, gaps)
    ensures PlainTokens(ts[1..]) && Parted(ts[1..], gaps[1..]) && Parted([ts[0]] + ts[1..], [[]] + gaps[1..])
  {
    assert [ts[0]] + ts[1..] == ts;
  }

  lemma BlankIsEmpty(g: string)
    requires Blank(g)
    ensures GetToken(g).0 == None
  {
    SkipBlank(g, []);
    assert g + [] == g;
  }

  /** And every text is a layout of the tokens that it lexes to. */
  lemma {:induction false} LexParts(s: string) returns (gaps: seq<string>)
    requires '\0' !in s
    ensures PlainTokens(Lex(s)) && Parted(Lex(s), gaps) && Laid(Lex(s), gaps) == s
    decreases |s|
  {
    hide TokenAt, SkipSpace;
    var g := SkipPrefix(s);
    var s1 := SkipSpace(s);
    SkipSpaceStops(s);
    LexOne(s);
    if s1 == [] {
      assert g + s1 == g;
      gaps := [g];
    } else {
      var t, n := TokenAt(s1).0, TokenAt(s1).1;
      var s2 := s1[n..];
      TokenText(s1);
      assert forall c | c in s1 :: c in s;
      LexSkips(s2);
      var more := LexParts(s2);
      gaps := [g] + more;
      assert Lex(s) == [t] + Lex(s2);
      PartedMore(g, t, Lex(s2), more);
      assert gaps[1..] == more && Lex(s)[1..] == Lex(s2);
      assert s == g + (Text(t) + s2);
    }
  }

  lemma PartedMore(g: string, t: Token, ts: seq<Token>, gaps: seq<string>)
    requires Blank(g) && PlainTokens(ts) && Parted(ts, gaps) && Ends(t, Laid(ts, gaps))
    requires t.Word? ==> PlainWord(t.text)
    ensures PlainTokens([t] + ts) && Parted([t] + ts, [g] + gaps)
  {
    if ts != [] && gaps[0] == [] {
      assert Laid(ts, gaps)[0] == Text(ts[0])[0];
    }
  }

  lemma {:induction false} SkipPrefix(s: string) returns (g: string)
    ensures Blank(g) && s == g + SkipSpace(s)
  {
    g := [];
    if s != [] && Space(s[0]) {
      var h := SkipPrefix(s[1..]);
      g := [s[0]] + h;
    }
  }

  /** The token at the start of a text is there in full. */
  lemma TokenText(s: string)
    requires s != [] && !Space(s[0]) && '\0' !in s
    ensures var (t, n) := TokenAt(s);
      n <= |s| && s == Text(t) + s[n..] && (t.Word? ==> PlainWord(t.text)) && Ends(t, s[n..])
  {
    var (t, n) := TokenAt(s);
    if t.Word? {
      WordMaximal(s);
    }
    assert s == s[..n] + s[n..] && s[..n] == Text(t);
  }

  lemma {:induction false} WordMaximal(s: string)
    ensures var w := WordOf(s);
      && |w| <= |s| && w == s[..|w|] && (forall k | 0 <= k < |w| :: !Space(w[k]) && !Symbol(w[k]))
      && (|w| < |s| ==> Space(s[|w|]) || Symbol(s[|w|]))
  {
    if s != [] && !Space(s[0]) && !Symbol(s[0]) {
      WordMaximal(s[1..]);
    }
  }

  lemma {:induction false} SkipTwice(s: string)
    ensures SkipSpace(SkipSpace(s)) == SkipSpace(s)
  {
    if s != [] && Space(s[0]) {
      SkipTwice(s[1..]);
    }
  }

  lemma LexSkips(s: string)
    ensures Lex(SkipSpace(s)) == Lex(s)
  {
    SkipTwice(s);
  }

  /** Words and file names without space or symbol, at least one character and at most nine words. */
  predicate Printable(c: Cmd) {
    match c
    case Exec(argv) => |argv| < MAXARGS && forall i | 0 <= i < |argv| :: PlainWord(argv[i])
    case Redir(d, _, f) => PlainWord(f) && Printable(d)
    case Pipe(l, r) => Printable(l) && Printable(r)
    case List(l, r) => Printable(l) && Printable(r)
    case Back(d) => Printable(d)
  }

  /** Parsing the printed form of any printable tree, in any layout, gives the tree. */
  lemma ParsePrint(c: Cmd, gaps: seq<string>)
    requires Printable(c) && Parted(PrintLine(c), gaps)
    ensures ParseCmd(Laid(PrintLine(c), gaps)) == Some(c)
  {
    PrintedPlain(c);
    LexLaid(PrintLine(c), gaps);
    LineOk(c, []);
    assert PrintLine(c) + [] == PrintLine(c);
  }

  lemma {:induction false} PrintedPlain(c: Cmd)
    requires Printable(c)
    ensures FewArgs(c) && PlainTokens(PrintLine(c))
    decreases c, 3
  {
    AmpsPlain(c);
    if c.List? {
      AmpsPlain(c.left);
      PrintedPlain(c.right);
    }
  }

  lemma {:induction false} AmpsPlain(c: Cmd)
    requires Printable(c)
    ensures FewArgs(c) && PlainTokens(PrintAmps(c))
    decreases c, 2
  {
    PipePlain(c);
    if c.Back? {
      AmpsPlain(c.cmd);
    }
  }

  lemma {:induction false} PipePlain(c: Cmd)
    requires Printable(c)
    ensures FewArgs(c) && PlainTokens(PrintPipe(c))
    decreases c, 1
  {
    ExecPlain(c);
    if c.Pipe? {
      ExecPlain(c.left);
      PipePlain(c.right);
    }
  }

  lemma {:induction false} ExecPlain(c: Cmd)
    requires Printable(c)
    ensures FewArgs(c) && PlainTokens(PrintExec(c))
    decreases c, 0
  {
    CoreSmaller(c);
    ChainPlain(c);
    RedirsPlain(Chain(c));
    match Core(c)
    case Exec(argv) => WordsPlain(argv);
    case Pipe(l, r) =>
      ExecPlain(l);
      PipePlain(r);
    case List(l, r) =>
      AmpsPlain(l);
      PrintedPlain(r);
    case Back(d) => AmpsPlain(d);
    case Redir(_, _, _) =>
  }

  ghost predicate PlainList(list: seq<(Mode, string)>) {
    forall i | 0 <= i < |list| :: PlainWord(list[i].1)
  }

  lemma {:induction false} ChainPlain(c: Cmd)
    requires Printable(c)
    ensures Printable(Core(c)) && PlainList(Chain(c)) && (FewArgs(Core(c)) ==> FewArgs(c))
  {
    if c.Redir? {
      ChainPlain(c.cmd);
    }
  }

  lemma {:induction false} RedirsPlain(list: seq<(Mode, string)>)
    requires PlainList(list)
    ensures PlainTokens(PrintRedirs(list))
  {
    if list != [] {
      RedirsPlain(list[1..]);
    }
  }

  lemma {:induction false} WordsPlain(argv: seq<string>)
    requires forall i | 0 <= i < |argv| :: PlainWord(argv[i])
    ensures PlainTokens(PrintWords(argv))
  {
    if argv != [] {
      WordsPlain(argv[1..]);
    }
  }

  // The parser as it runs, over a cursor.

  /** The character that peek looks for. */
  function Sign(t: Token): char {
    match t
    case Word(_) => 'a'
    case Less => '<'
    case Greater => '>'
    case Append => '>'
    case Bar => '|'
    case Amp => '&'
    case Semi => ';'
    case Open => '('
    case Close => ')'
  }

  predicate Starts(ts: seq<Token>, toks: string) {
    ts != [] && Sign(ts[0]) in toks
  }

  /** The parse that a run agrees with: a panic, or the tree and the tokens after the cursor. */
  ghost predicate Agrees(r: Option<Cmd>, ts: seq<Token>, p: Parsed) {
    match p
    case Panic => r.None?
    case Ok(c, rest) => r == Some(c) && ts == rest
  }

  lemma LexOne(s: string)
    ensures GetToken(s).0.None? ==> Lex(s) == []
    ensures GetToken(s).0.Some? ==> Lex(s) == [GetToken(s).0.value] + Lex(GetToken(s).1)
  {
  }

  lemma FirstToken(s: string)
    requires s != [] ==> !Space(s[0])
    ensures if s == [] then Lex(s) == [] else Lex(s) != [] && Lex(s)[0] == TokenAt(s).0
  {
    hide TokenAt;
    LexOne(s);
    assert SkipSpace(s) == s;
  }

  lemma SignOf(s: string)
    requires s != [] && !Space(s[0])
    ensures Sign(TokenAt(s).0) == if Symbol(s[0]) then s[0] else 'a'
  {
    hide WordOf;
  }

  /** A symbol at the cursor is the sign of the next token. */
  lemma SignAt(s: string, toks: string)
    requires (s != [] ==> !Space(s[0])) && forall c | c in toks :: Symbol(c)
    ensures Starts(Lex(s), toks) <==> s != [] && s[0] in toks
    ensures Lex(s) == [] <==> s == []
  {
    hide Lex, TokenAt, Sign;
    FirstToken(s);
    if s != [] {
      SignOf(s);
    }
  }

  class Cursor {
    const s: string
    var pos: nat

    constructor (s: string)
      ensures this.s == s && pos == 0
    {
      this.s, pos := s, 0;
    }

    /** The tokens not yet read. */
    ghost function Rest(): seq<Token>
      requires pos <= |s|
      reads this
    {
      Lex(s[pos..])
    }

    /** peek: skips space, and tells whether one of the symbols is next. */
    method Sees(toks: string) returns (r: bool)
      requires pos <= |s| && forall c | c in toks :: Symbol(c)
      modifies this
      ensures old(pos) <= pos <= |s| && Rest() == old(Rest()) && (r <==> Starts(Rest(), toks))
      ensures pos < |s| <==> Rest() != []
    {
      hide Starts, Lex;
      var i := SkipFrom(s, pos);
      SkipSpaceStops(s[pos..]);
      LexSkips(s[pos..]);
      pos := i;
      SignAt(s[i..], toks);
      r := pos < |s| && s[pos] in toks;
    }

    /** gettoken, moving the cursor past the token. */
    method Take() returns (tok: Option<Token>)
      requires pos <= |s|
      modifies this
      ensures old(pos) <= pos <= |s| && (tok.Some? ==> pos > old(pos))
      ensures if old(Rest()) == [] then tok.None? && Rest() == []
        else tok == Some(old(Rest())[0]) && Rest() == old(Rest())[1..]
    {
      hide Lex, GetToken;
      LexOne(s[pos..]);
      var next;
      tok, next := RunGetToken(s, pos);
      ghost var before := s[pos..];
      Shorter(before);
      LexOne(s[next..]);
      pos := next;
    }

    /** parseredirs: the redirections wrap the command one by one. */
    method RunRedirs(cmd: Cmd) returns (r: Option<Cmd>)
      requires pos <= |s|
      modifies this
      ensures old(pos) <= pos <= |s|
      ensures match ParseRedirs(old(Rest())) case RedirPanic => r.None? case Redirs(list, rest) =>
        r == Some(Wrap(cmd, list)) && Rest() == rest
    {
      hide Lex, ParseRedirs, Wrap;
      ghost var ts, list := Rest(), [];
      r := Some(cmd);
      RedirsMore(ts, [], cmd);
      assert [] + list == list;
      var more := Sees("<>");
      while more
        invariant old(pos) <= pos <= |s| && r.Some? && r.value == Wrap(cmd, list) && (more <==> Starts(Rest(), "<>"))
        invariant ParseRedirs(ts) == After(list, ParseRedirs(Rest()))
        decreases |s| - pos
      {
        ghost var rest := Rest();
        RedirsMore(rest, list, cmd);
        var tok := Take();
        var file := Take();
        if file.None? || !file.value.Word? {
          return None;
        }
        var m := ModeOf(tok.value).value;
        AfterAfter(list, [(m, file.value.text)], ParseRedirs(Rest()));
        WrapMore(cmd, list, m, file.value.text);
        r, list := Some(Redir(r.value, m, file.value.text)), list + [(m, file.value.text)];
        more := Sees("<>");
      }
      RedirsMore(Rest(), list, cmd);
    }

    /** parseexec. The words go into the innermost node, which the redirections wrap. */
    method RunExec() returns (r: Option<Cmd>)
      requires pos <= |s|
      modifies this
      ensures old(pos) <= pos <= |s| && Agrees(r, Rest(), ParseExec(old(Rest())))
      decreases |s| - pos, 1
    {
      hide Lex, ParseRedirs, ParseArgs, ParseBlock, Wrap, Starts, Peek;
      ghost var ts := Rest();
      ExecBegins(ts);
      var block := Sees("(");
      if block {
        r := RunBlock();
        return;
      }
      r := RunRedirs(Exec([]));
      if r.None? {
        return;
      }
      var argv := [];
      ghost var list := ParseRedirs(ts).list;
      assert [] + list == list;
      var stop := Sees("|)&;");
      while !stop
        invariant old(pos) <= pos <= |s| && r == Some(Wrap(Exec(argv), list))
        invariant ParseExec(ts) == ParseArgs(Rest(), argv, list)
        invariant stop ==> Rest() == [] || Starts(Rest(), "|)&;")
        invariant !stop ==> !Starts(Rest(), "|)&;")
        decreases !stop, |s| - pos
      {
        ghost var rest := Rest();
        ArgsMore(rest, argv, list);
        var tok := Take();
        if tok.None? {
          stop := true;
        } else {
          if !tok.value.Word? || |argv| + 1 >= MAXARGS {
            return None;
          }
          argv := argv + [tok.value.text];
          WithArgsWrap(argv[..|argv| - 1], list, argv);
          r := RunRedirs(WithArgs(r.value, argv));
          if r.None? {
            return;
          }
          WrapConcat(Exec(argv), list, ParseRedirs(rest[1..]).list);
          list := list + ParseRedirs(rest[1..]).list;
          stop := Sees("|)&;");
        }
      }
      ArgsMore(Rest(), argv, list);
    }

    /** parseblock */
    method RunBlock() returns (r: Option<Cmd>)
      requires pos <= |s| && Starts(Rest(), "(")
      modifies this
      ensures old(pos) <= pos <= |s| && Agrees(r, Rest(), ParseBlock(old(Rest())))
      decreases |s| - pos, 0
    {
      hide Lex, ParseRedirs, ParseLine, Wrap;
      ghost var ts := Rest();
      var open := Sees("(");
      if !open {
        return None;
      }
      var tok := Take();
      r := RunLine();
      if r.None? {
        return;
      }
      var close := Sees(")");
      if !close {
        return None;
      }
      tok := Take();
      r := RunRedirs(r.value);
    }

    /** parsepipe */
    method RunPipe() returns (r: Option<Cmd>)
      requires pos <= |s|
      modifies this
      ensures old(pos) <= pos <= |s| && Agrees(r, Rest(), ParsePipe(old(Rest())))
      decreases |s| - pos, 2
    {
      hide Lex, ParseExec;
      r := RunExec();
      if r.None? {
        return;
      }
      var bar := Sees("|");
      if bar {
        var tok := Take();
        var right := RunPipe();
        if right.None? {
          return None;
        }
        r := Some(Pipe(r.value, right.value));
      }
    }

    /** parseline */
    method RunLine() returns (r: Option<Cmd>)
      requires pos <= |s|
      modifies this
      ensures old(pos) <= pos <= |s| && Agrees(r, Rest(), ParseLine(old(Rest())))
      decreases |s| - pos, 3
    {
      hide Lex, ParsePipe;
      r := RunPipe();
      if r.None? {
        return;
      }
      ghost var c, rest := r.value, Rest();
      var amp := Sees("&");
      while amp
        invariant old(pos) <= pos <= |s| && r.Some? && ParseAmps(c, rest) == ParseAmps(r.value, Rest())
        invariant amp <==> Starts(Rest(), "&")
        decreases |s| - pos
      {
        var tok := Take();
        r := Some(Back(r.value));
        amp := Sees("&");
      }
      var semi := Sees(";");
      if semi {
        var tok := Take();
        var right := RunLine();
        if right.None? {
          return None;
        }
        r := Some(List(r.value, right.value));
      }
    }

    /** parsecmd, on the whole input. */
    method RunCmd() returns (r: Option<Cmd>)
      requires pos == 0
      modifies this
      ensures r == ParseCmd(s)
    {
      hide Lex, ParseLine;
      assert s[0..] == s;
      r := RunLine();
      if r.Some? {
        var any := Sees("");
        if pos != |s| {
          r := None;
        }
      }
    }
  }

  /** The innermost node gets its words, wherever the redirections have put it. */
  function WithArgs(c: Cmd, argv: seq<string>): Cmd {
    if c.Redir? then Redir(WithArgs(c.cmd, argv), c.mode, c.file) else Exec(argv)
  }

  lemma {:induction false} WithArgsChain(c: Cmd, list: seq<(Mode, string)>, argv: seq<string>)
    ensures WithArgs(Wrap(c, list), argv) == Wrap(WithArgs(c, argv), list)
    decreases |list|
  {
    if list != [] {
      WithArgsChain(Redir(c, list[0].0, list[0].1), list[1..], argv);
    }
  }

  lemma WithArgsWrap(before: seq<string>, list: seq<(Mode, string)>, argv: seq<string>)
    ensures WithArgs(Wrap(Exec(before), list), argv) == Wrap(Exec(argv), list)
  {
    WithArgsChain(Exec(before), list, argv);
  }

  /** parseexec after redirections: they join the list and the words go on. */
  function Onwards(p: Redirs, argv: seq<string>, list: seq<(Mode, string)>): Parsed {
    match p
    case RedirPanic => Panic
    case Redirs(more, rest) => ParseArgs(rest, argv, list + more)
  }

  lemma ExecBegins(ts: seq<Token>)
    ensures Starts(ts, "(") <==> Peek(ts, {Open})
    ensures Starts(ts, "(") ==> ParseExec(ts) == ParseBlock(ts)
    ensures !Starts(ts, "(") ==> ParseExec(ts) == Onwards(ParseRedirs(ts), [], [])
  {
    var p := ParseRedirs(ts);
    assert p.Redirs? ==> [] + p.list == p.list;
  }

  /** One round of parseexec, and its end. */
  lemma ArgsMore(ts: seq<Token>, argv: seq<string>, list: seq<(Mode, string)>)
    ensures ts == [] || Starts(ts, "|)&;") ==> ParseArgs(ts, argv, list) == Ok(Wrap(Exec(argv), list), ts)
    ensures ts != [] && !Starts(ts, "|)&;") && (!ts[0].Word? || |argv| + 1 >= MAXARGS) ==>
      ParseArgs(ts, argv, list) == Panic
    ensures ts != [] && !Starts(ts, "|)&;") && ts[0].Word? && |argv| + 1 < MAXARGS
      ==> ParseArgs(ts, argv, list) == Onwards(ParseRedirs(ts[1..]), argv + [ts[0].text], list)
  {
    hide ParseRedirs, Wrap;
    assert Starts(ts, "|)&;") <==> Peek(ts, EXEC_STOPS);
  }

  /** The redirections found so far, and then those of p. */
  ghost function After(list: seq<(Mode, string)>, p: Redirs): Redirs {
    match p
    case RedirPanic => RedirPanic
    case Redirs(more, rest) => Redirs(list + more, rest)
  }

  lemma AfterAfter(a: seq<(Mode, string)>, b: seq<(Mode, string)>, p: Redirs)
    ensures After(a, After(b, p)) == After(a + b, p)
  {
    if p.Redirs? {
      assert a + (b + p.list) == (a + b) + p.list;
    }
  }

  /** One round of parseredirs, and its end. */
  lemma RedirsMore(ts: seq<Token>, list: seq<(Mode, string)>, cmd: Cmd)
    ensures Starts(ts, "<>") <==> ts != [] && ModeOf(ts[0]).Some?
    ensures !Starts(ts, "<>") ==> ParseRedirs(ts) == Redirs([], ts) && After(list, ParseRedirs(ts)) == Redirs(list, ts)
    ensures Starts(ts, "<>") && (|ts| < 2 || !ts[1].Word?) ==> After(list, ParseRedirs(ts)) == RedirPanic
    ensures Starts(ts, "<>") && |ts| >= 2 && ts[1].Word? ==>
      ParseRedirs(ts) == After([(ModeOf(ts[0]).value, ts[1].text)], ParseRedirs(ts[1..][1..]))
    ensures After([], ParseRedirs(ts)) == ParseRedirs(ts) && Wrap(cmd, []) == cmd
  {
    if |ts| >= 2 {
      assert ts[1..][1..] == ts[2..];
    }
  }

  lemma {:induction false} WrapMore(c: Cmd, list: seq<(Mode, string)>, m: Mode, file: string)
    ensures Wrap(c, list + [(m, file)]) == Redir(Wrap(c, list), m, file)
    decreases |list|
  {
    if list == [] {
      assert list + [(m, file)] == [(m, file)];
      assert Wrap(Redir(c, m, file), []) == Redir(c, m, file);
    } else {
      WrapMore(Redir(c, list[0].0, list[0].1), list[1..], m, file);
      assert (list + [(m, file)])[1..] == list[1..] + [(m, file)];
    }
  }

  lemma Shorter(s: string)
    ensures GetToken(s).0.Some? ==> |GetToken(s).1| < |s|
    ensures GetToken(s).0.None? ==> GetToken(s).1 == [] && GetToken([]).0.None?
  {
  }
}
