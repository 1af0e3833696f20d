/**
 The shell's language as a grammar: what a command line may look like, and which tree each line stands for. The
 parser of user/sh.c accepts exactly the lines of the grammar, in any layout, and gives each its tree.
 */
module ShellGrammar {
  import opened Common
  import opened Shell

  /** A word, or a redirection, which may stand before, between and after the words. */
  datatype Item = Arg(word: string) | Red(mode: Mode, file: string)

  datatype ExecForm = Simple(items: seq<Item>) | Paren(line: LineForm, redirs: seq<Item>)

  datatype PipeForm = One(first: ExecForm) | Piped(first: ExecForm, more: PipeForm)

  /** A pipeline, & any number of times, and perhaps ; and another line. */
  datatype LineForm = Line(pipe: PipeForm, amps: nat) | Lines(pipe: PipeForm, amps: nat, more: LineForm)

  // How a form is written.

  function ModeToken(m: Mode): Token {
    match m
    case In => Less
    case Out => Greater
    case OutAppend => Append
  }

  function ItemsText(items: seq<Item>): seq<Token> {
    if items == [] then []
    else
      (match items[0]
       case Arg(w) => [Word(w)]
       case Red(m, f) => [ModeToken(m), Word(f)]) + ItemsText(items[1..])
  }

  function AmpsText(n: nat): seq<Token> {
    if n == 0 then [] else [Amp] + AmpsText(n - 1)
  }

  function ExecText(e: ExecForm): seq<Token>
    decreases e
  {
    match e
    case Simple(items) => ItemsText(items)
    case Paren(line, redirs) => [Open] + LineText(line) + [Close] + ItemsText(redirs)
  }

  function PipeText(p: PipeForm): seq<Token>
    decreases p
  {
    match p
    case One(e) => ExecText(e)
    case Piped(e, more) => ExecText(e) + [Bar] + PipeText(more)
  }

  function LineText(l: LineForm): seq<Token>
    decreases l
  {
    match l
    case Line(p, n) => PipeText(p) + AmpsText(n)
    case Lines(p, n, more) => PipeText(p) + AmpsText(n) + [Semi] + LineText(more)
  }

  // What it stands for.

  function Words(items: seq<Item>): seq<string> {
    if items == [] then []
    else if items[0].Arg? then [items[0].word] + Words(items[1..])
    else Words(items[1..])
  }

  /** The redirections of a command, the first one innermost. */
  function Redirected(c: Cmd, items: seq<Item>): Cmd
    decreases |items|
  {
    if items == [] then c
    else if items[0].Red? then Redirected(Redir(c, items[0].mode, items[0].file), items[1..])
    else Redirected(c, items[1..])
  }

  function Backs(c: Cmd, n: nat): Cmd
    decreases n
  {
    if n == 0 then c else Backs(Back(c), n - 1)
  }

  function ExecTree(e: ExecForm): Cmd
    decreases e
  {
    match e
    case Simple(items) => Redirected(Exec(Words(items)), items)
    case Paren(line, redirs) => Redirected(LineTree(line), redirs)
  }

  function PipeTree(p: PipeForm): Cmd
    decreases p
  {
    match p
    case One(e) => ExecTree(e)
    case Piped(e, more) => Pipe(ExecTree(e), PipeTree(more))
  }

  function LineTree(l: LineForm): Cmd
    decreases l
  {
    match l
    case Line(p, n) => Backs(PipeTree(p), n)
    case Lines(p, n, more) => List(Backs(PipeTree(p), n), LineTree(more))
  }

  // At most nine words a command, and no words behind parentheses.

  predicate AllRed(items: seq<Item>) {
    forall i | 0 <= i < |items| :: items[i].Red?
  }

  predicate ExecFits(e: ExecForm)
    decreases e
  {
    match e
    case Simple(items) => |Words(items)| < MAXARGS
    case Paren(line, redirs) => LineFits(line) && AllRed(redirs)
  }

  predicate PipeFits(p: PipeForm)
    decreases p
  {
    match p
    case One(e) => ExecFits(e)
    case Piped(e, more) => ExecFits(e) && PipeFits(more)
  }

  predicate LineFits(l: LineForm)
    decreases l
  {
    match l
    case Line(p, _) => PipeFits(p)
    case Lines(p, _, more) => PipeFits(p) && LineFits(more)
  }

  // The parser accepts every form.

  /** The redirections among the items, as the parser collects them. */
  function Reds(items: seq<Item>): seq<(Mode, string)> {
    if items == [] then []
    else if items[0].Red? then [(items[0].mode, items[0].file)] + Reds(items[1..])
    else Reds(items[1..])
  }

  lemma {:induction false} RedirectedIs(c: Cmd, items: seq<Item>)
    ensures Redirected(c, items) == Wrap(c, Reds(items))
    decreases |items|
  {
    if items != [] {
      RedirectedIs(if items[0].Red? then Redir(c, items[0].mode, items[0].file) else c, items[1..]);
    }
  }

  lemma RedStep(m: Mode, f: string, ts: seq<Token>)
    ensures ParseRedirs([ModeToken(m), Word(f)] + ts) == After([(m, f)], ParseRedirs(ts))
  {
    var all := [ModeToken(m), Word(f)] + ts;
    assert all[0] == ModeToken(m) && all[1] == Word(f) && all[2..] == ts;
  }

  lemma OnwardsAfter(x: (Mode, string), p: Redirs, argv: seq<string>, list: seq<(Mode, string)>)
    ensures Onwards(After([x], p), argv, list) == Onwards(p, argv, list + [x])
  {
    if p.Redirs? {
      assert list + ([x] + p.list) == (list + [x]) + p.list;
    }
  }

  lemma NoItems()
    ensures ItemsText([]) == [] && Words([]) == [] && Reds([]) == []
  {
  }

  lemma MoreWords(w: string, more: seq<Item>)
    ensures ItemsText([Arg(w)] + more) == [Word(w)] + ItemsText(more)
    ensures Words([Arg(w)] + more) == [w] + Words(more) && Reds([Arg(w)] + more) == Reds(more)
  {
    assert ([Arg(w)] + more)[1..] == more;
  }

  lemma MoreReds(m: Mode, f: string, more: seq<Item>)
    ensures ItemsText([Red(m, f)] + more) == [ModeToken(m), Word(f)] + ItemsText(more)
    ensures Words([Red(m, f)] + more) == Words(more) && Reds([Red(m, f)] + more) == [(m, f)] + Reds(more)
  {
    assert ([Red(m, f)] + more)[1..] == more;
  }

  lemma {:induction false} ItemsAccepted(items: seq<Item>, argv: seq<string>, list: seq<(Mode, string)>,
      rest: seq<Token>)
    requires |argv| + |Words(items)| < MAXARGS && ExecEnd(rest)
    ensures Onwards(ParseRedirs(ItemsText(items) + rest), argv, list) ==
      Ok(Wrap(Exec(argv + Words(items)), list + Reds(items)), rest)
    decreases |items|
  {
    hide ParseRedirs, ParseArgs, Wrap, ModeToken, ItemsText, Words, Reds;
    var ts := ItemsText(items) + rest;
    if items == [] {
      NoItems();
      assert ts == rest && argv + [] == argv && list + [] == list;
      RedirsNone(rest);
      NoMoreArgs(rest, argv, list);
    } else {
      var tail := ItemsText(items[1..]) + rest;
      assert items == [items[0]] + items[1..];
      match items[0]
      case Red(m, f) =>
        MoreReds(m, f, items[1..]);
        assert ts == [ModeToken(m), Word(f)] + tail;
        RedStep(m, f, tail);
        OnwardsAfter((m, f), ParseRedirs(tail), argv, list);
        ItemsAccepted(items[1..], argv, list + [(m, f)], rest);
        assert list + [(m, f)] + Reds(items[1..]) == list + Reds(items);
      case Arg(w) =>
        MoreWords(w, items[1..]);
        assert ts == [Word(w)] + tail && ts[1..] == tail;
        RedirsNone(ts);
        ArgsMore(ts, argv, list);
        assert list + [] == list;
        ItemsAccepted(items[1..], argv + [w], list, rest);
        assert argv + [w] + Words(items[1..]) == argv + Words(items);
    }
  }

  lemma NoMoreArgs(rest: seq<Token>, argv: seq<string>, list: seq<(Mode, string)>)
    requires ExecEnd(rest)
    ensures ParseArgs(rest, argv, list) == Ok(Wrap(Exec(argv), list), rest)
  {
    hide Wrap;
  }

  lemma {:induction false} RedsAccepted(items: seq<Item>, rest: seq<Token>)
    requires AllRed(items) && (rest == [] || ModeOf(rest[0]).None?)
    ensures ParseRedirs(ItemsText(items) + rest) == Redirs(Reds(items), rest)
    decreases |items|
  {
    hide ParseRedirs, ModeToken;
    if items == [] {
      assert ItemsText(items) + rest == rest;
      RedirsNone(rest);
    } else {
      var tail := ItemsText(items[1..]) + rest;
      assert ItemsText(items) + rest == [ModeToken(items[0].mode), Word(items[0].file)] + tail;
      RedStep(items[0].mode, items[0].file, tail);
      RedsAccepted(items[1..], rest);
    }
  }

  lemma {:induction false} AmpsAccepted(c: Cmd, n: nat, rest: seq<Token>)
    requires !Peek(rest, {Amp})
    ensures ParseAmps(c, AmpsText(n) + rest) == (Backs(c, n), rest)
    decreases n
  {
    var ts := AmpsText(n) + rest;
    if n == 0 {
      assert ts == rest;
    } else {
      assert ts[0] == Amp && ts[1..] == AmpsText(n - 1) + rest;
      AmpsAccepted(Back(c), n - 1, rest);
    }
  }

  lemma {:induction false} ExecAccepted(e: ExecForm, rest: seq<Token>)
    requires ExecFits(e) && ExecEnd(rest)
    ensures ParseExec(ExecText(e) + rest) == Ok(ExecTree(e), rest)
    decreases e
  {
    hide ParseRedirs, ParseArgs, Wrap, ParseLine, LineText, ItemsText, Redirected, LineTree;
    var ts := ExecText(e) + rest;
    match e
    case Simple(items) =>
      RedirectedIs(Exec(Words(items)), items);
      NotOpen(items, rest);
      ExecBegins(ts);
      ItemsAccepted(items, [], [], rest);
      assert [] + Words(items) == Words(items) && [] + Reds(items) == Reds(items);
    case Paren(line, redirs) =>
      RedirectedIs(LineTree(line), redirs);
      var after := [Close] + (ItemsText(redirs) + rest);
      assert ts == [Open] + (LineText(line) + after) && ts[1..] == LineText(line) + after;
      LineAccepted(line, after);
      RedsAccepted(redirs, rest);
      assert after[0] == Close && after[1..] == ItemsText(redirs) + rest;
  }

  lemma NotOpen(items: seq<Item>, rest: seq<Token>)
    requires ExecEnd(rest)
    ensures !Starts(ItemsText(items) + rest, "(")
  {
    if items != [] {
      assert (ItemsText(items) + rest)[0] == ItemsText(items)[0];
    } else {
      assert ItemsText(items) + rest == rest;
    }
  }

  lemma {:induction false} PipeAccepted(p: PipeForm, rest: seq<Token>)
    requires PipeFits(p) && PipeEnd(rest)
    ensures ParsePipe(PipeText(p) + rest) == Ok(PipeTree(p), rest)
    decreases p
  {
    hide ParseExec, ExecText, ExecTree;
    match p
    case One(e) => ExecAccepted(e, rest);
    case Piped(e, more) =>
      var after := [Bar] + (PipeText(more) + rest);
      ExecAccepted(e, after);
      PipeAccepted(more, rest);
      assert PipeText(p) + rest == ExecText(e) + after && after[1..] == PipeText(more) + rest;
  }

  lemma {:induction false} LineAccepted(l: LineForm, rest: seq<Token>)
    requires LineFits(l) && LineEnd(rest)
    ensures ParseLine(LineText(l) + rest) == Ok(LineTree(l), rest)
    decreases l
  {
    hide ParsePipe, PipeText, PipeTree;
    match l
    case Line(p, n) =>
      AmpsEnd(n, rest);
      PipeAccepted(p, AmpsText(n) + rest);
      AmpsAccepted(PipeTree(p), n, rest);
      assert LineText(l) + rest == PipeText(p) + (AmpsText(n) + rest);
    case Lines(p, n, more) =>
      var after := [Semi] + (LineText(more) + rest);
      AmpsEnd(n, after);
      PipeAccepted(p, AmpsText(n) + after);
      AmpsAccepted(PipeTree(p), n, after);
      LineAccepted(more, rest);
      assert LineText(l) + rest == PipeText(p) + (AmpsText(n) + after) && after[1..] == LineText(more) + rest;
  }

  lemma AmpsEnd(n: nat, rest: seq<Token>)
    requires PipeEnd(rest)
    ensures PipeEnd(AmpsText(n) + rest)
  {
    if n == 0 {
      assert AmpsText(n) + rest == rest;
    } else {
      assert (AmpsText(n) + rest)[0] == Amp;
    }
  }

  // And nothing else.

  lemma {:induction false} ItemsFound(ts: seq<Token>, argv: seq<string>, list: seq<(Mode, string)>, c: Cmd,
      rest: seq<Token>) returns (items: seq<Item>)
    requires |argv| < MAXARGS && Onwards(ParseRedirs(ts), argv, list) == Ok(c, rest)
    ensures ts == ItemsText(items) + rest && |argv| + |Words(items)| < MAXARGS
    ensures c == Wrap(Exec(argv + Words(items)), list + Reds(items))
    decreases |ts|
  {
    hide Wrap, ParseArgs, ParseRedirs, ItemsText, Words, Reds;
    RedirsMore(ts, [], c);
    if Starts(ts, "<>") {
      var m, f := ModeOf(ts[0]).value, ts[1].text;
      OnwardsAfter((m, f), ParseRedirs(ts[1..][1..]), argv, list);
      var more := ItemsFound(ts[1..][1..], argv, list + [(m, f)], c, rest);
      items := [Red(m, f)] + more;
      MoreReds(m, f, more);
      assert ts == [ts[0], ts[1]] + ts[1..][1..];
      assert list + [(m, f)] + Reds(more) == list + Reds(items);
    } else {
      assert list + [] == list;
      ArgsMore(ts, argv, list);
      if ts == [] || Starts(ts, "|)&;") {
        items := [];
        NoItems();
        assert ItemsText([]) + rest == rest && argv + [] == argv;
      } else {
        var w := ts[0].text;
        var more := ItemsFound(ts[1..], argv + [w], list, c, rest);
        items := [Arg(w)] + more;
        MoreWords(w, more);
        assert ts == [ts[0]] + ts[1..];
        assert argv + [w] + Words(more) == argv + Words(items);
      }
    }
  }

  lemma {:induction false} RedsFound(ts: seq<Token>) returns (items: seq<Item>)
    requires ParseRedirs(ts).Redirs?
    ensures AllRed(items) && ts == ItemsText(items) + ParseRedirs(ts).rest && Reds(items) == ParseRedirs(ts).list
    decreases |ts|
  {
    hide ItemsText, Reds, Words, ParseRedirs;
    RedirsMore(ts, [], Exec([]));
    if Starts(ts, "<>") {
      var m, f, tail := ModeOf(ts[0]).value, ts[1].text, ts[1..][1..];
      var more := RedsFound(tail);
      items := [Red(m, f)] + more;
      MoreReds(m, f, more);
      assert ts == [ts[0], ts[1]] + tail;
    } else {
      items := [];
      NoItems();
      assert ItemsText([]) + ts == ts;
    }
  }

  lemma {:induction false} AmpsFound(c: Cmd, ts: seq<Token>) returns (n: nat)
    ensures var (d, rest) := ParseAmps(c, ts); d == Backs(c, n) && ts == AmpsText(n) + rest
    decreases |ts|
  {
    n := 0;
    if Peek(ts, {Amp}) {
      var m := AmpsFound(Back(c), ts[1..]);
      n := m + 1;
      assert ts == [Amp] + ts[1..];
    } else {
      assert AmpsText(0) + ts == ts;
    }
  }

  lemma {:induction false} ExecFound(ts: seq<Token>) returns (e: ExecForm)
    requires ParseExec(ts).Ok?
    ensures ExecFits(e) && ts == ExecText(e) + ParseExec(ts).rest && ExecTree(e) == ParseExec(ts).cmd
    decreases |ts|, 0
  {
    hide ParseRedirs, ParseArgs, Wrap, ParseLine, LineText, ItemsText, Redirected, LineTree, LineFits;
    var c, rest := ParseExec(ts).cmd, ParseExec(ts).rest;
    ExecBegins(ts);
    if Starts(ts, "(") {
      var inner := ParseLine(ts[1..]);
      var line := LineFound(ts[1..]);
      var redirs := RedsFound(inner.rest[1..]);
      e := Paren(line, redirs);
      RedirectedIs(LineTree(line), redirs);
      assert ts == [Open] + ts[1..] && inner.rest == [Close] + inner.rest[1..];
      assert ts == ExecText(e) + rest;
    } else {
      var items := ItemsFound(ts, [], [], c, rest);
      e := Simple(items);
      RedirectedIs(Exec(Words(items)), items);
      assert [] + Words(items) == Words(items) && [] + Reds(items) == Reds(items);
    }
  }

  lemma {:induction false} PipeFound(ts: seq<Token>) returns (p: PipeForm)
    requires ParsePipe(ts).Ok?
    ensures PipeFits(p) && ts == PipeText(p) + ParsePipe(ts).rest && PipeTree(p) == ParsePipe(ts).cmd
    decreases |ts|, 1
  {
    hide ParseExec, ExecText, ExecTree, ExecFits;
    var e := ExecFound(ts);
    var rest := ParseExec(ts).rest;
    p := One(e);
    if Peek(rest, {Bar}) {
      var more := PipeFound(rest[1..]);
      p := Piped(e, more);
      assert rest == [Bar] + rest[1..];
      assert ts == PipeText(p) + ParsePipe(ts).rest;
    }
  }

  lemma {:induction false} LineFound(ts: seq<Token>) returns (l: LineForm)
    requires ParseLine(ts).Ok?
    ensures LineFits(l) && ts == LineText(l) + ParseLine(ts).rest && LineTree(l) == ParseLine(ts).cmd
    decreases |ts|, 2
  {
    hide ParsePipe, PipeText, PipeTree, PipeFits, AmpsText, Backs, ParseAmps;
    var p := PipeFound(ts);
    var c, rest := ParsePipe(ts).cmd, ParsePipe(ts).rest;
    var n := AmpsFound(c, rest);
    var rest1 := ParseAmps(c, rest).1;
    l := Line(p, n);
    if Peek(rest1, {Semi}) {
      var more := LineFound(rest1[1..]);
      l := Lines(p, n, more);
      assert rest1 == [Semi] + rest1[1..];
      Regroup(PipeText(p), AmpsText(n), LineText(more), ParseLine(rest1[1..]).rest);
    } else {
      assert PipeText(p) + (AmpsText(n) + rest1) == (PipeText(p) + AmpsText(n)) + rest1;
    }
  }

  lemma Regroup(a: seq<Token>, b: seq<Token>, c: seq<Token>, d: seq<Token>)
    ensures a + (b + ([Semi] + (c + d))) == (a + b + [Semi] + c) + d
  {
  }

  // On the text.

  /** How each token is written. */
  lemma Spelling(m: Mode)
    ensures Text(ModeToken(m)) == match m case In => "<" case Out => ">" case OutAppend => ">>"
    ensures Text(Bar) == "|" && Text(Amp) == "&" && Text(Semi) == ";" && Text(Open) == "(" && Text(Close) == ")"
  {
  }

  /** s is a layout of a line of the grammar with plain words that stands for c. */
  ghost predicate Writes(s: string, c: Cmd) {
    exists l, gaps :: WritesAs(s, c, l, gaps)
  }

  predicate WritesAs(s: string, c: Cmd, l: LineForm, gaps: seq<string>) {
    && LineFits(l) && LineTree(l) == c && PlainTokens(LineText(l))
    && Parted(LineText(l), gaps) && s == Laid(LineText(l), gaps)
  }

  /** The parser gives a tree exactly for the texts that write it, and panics on all others. */
  lemma ParsesExactly(s: string, c: Cmd)
    requires '\0' !in s
    ensures ParseCmd(s) == Some(c) <==> Writes(s, c)
  {
    hide ParseLine, LineText, LineTree, LineFits, Lex, Laid, Parted, PlainTokens;
    if ParseCmd(s) == Some(c) {
      var gaps := LexParts(s);
      var l := LineFound(Lex(s));
      assert LineText(l) + [] == LineText(l);
      assert WritesAs(s, c, l, gaps);
    }
    if Writes(s, c) {
      var l, gaps :| WritesAs(s, c, l, gaps);
      LexLaid(LineText(l), gaps);
      LineAccepted(l, []);
      assert LineText(l) + [] == LineText(l);
    }
  }
}
