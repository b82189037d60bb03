/** Tokens of a command line: where they are in the text, and what they read as. */
module ShellLex {
  import opened ShellGrammar

  /** A word as the pointers to its first character and to the one after its last. */
  datatype Span = Span(start: nat, end: nat)

  const NUL: char := '\0'

  predicate White(c: char) { c in [' ', '\t', '\r', '\n', 11 as char] }
  predicate Symbol(c: char) { c in "<|>&;()" }
  predicate WordChar(c: char) { !White(c) && !Symbol(c) && c != NUL }

  predicate Clean(text: string) { forall i :: 0 <= i < |text| ==> text[i] != NUL }

  function SkipWhite(text: string, i: nat): (j: nat)
    requires i <= |text|
    ensures i <= j <= |text| && (j < |text| ==> !White(text[j]))
    ensures forall k :: i <= k < j ==> White(text[k])
    decreases |text| - i
  {
    if i < |text| && White(text[i]) then SkipWhite(text, i + 1) else i
  }

  function WordEnd(text: string, i: nat): (j: nat)
    requires i <= |text|
    ensures i <= j <= |text| && (j < |text| ==> White(text[j]) || Symbol(text[j]))
    ensures forall k :: i <= k < j ==> !White(text[k]) && !Symbol(text[k])
    decreases |text| - i
  {
    if i < |text| && !White(text[i]) && !Symbol(text[i]) then WordEnd(text, i + 1) else i
  }

  /** The tokens of the text from position `i` on. */
  function Lex(text: string, i: nat): Toks<Span>
    requires i <= |text|
    decreases |text| - i
  {
    var j := SkipWhite(text, i);
    if j == |text| then End
    else if text[j] == '>' && j + 1 < |text| && text[j + 1] == '>' then Link(Append, Lex(text, j + 2))
    else if Symbol(text[j]) then Link(Sym(text[j]), Lex(text, j + 1))
    else Link(Word(Span(j, WordEnd(text, j))), Lex(text, WordEnd(text, j)))
  }

  /** The span is a maximal word of the text. */
  predicate IsWord(text: string, w: Span) {
    && w.start < w.end <= |text|
    && (forall k :: w.start <= k < w.end ==> WordChar(text[k]))
    && (w.end < |text| ==> !WordChar(text[w.end]))
  }

  // ----- Where white space does not matter -----

  lemma {:induction false} SkipTwice(text: string, i: nat, j: nat)
    requires i <= |text| && i <= j <= SkipWhite(text, i)
    ensures j <= |text| && SkipWhite(text, j) == SkipWhite(text, i)
    decreases j - i
  {
    if i < j {
      SkipTwice(text, i + 1, j);
    }
  }

  lemma LexSkips(text: string, i: nat, j: nat)
    requires i <= |text| && i <= j <= SkipWhite(text, i)
    ensures j <= |text| && Lex(text, j) == Lex(text, i)
  {
    SkipTwice(text, i, j);
  }

  /** The first token from `i` on. */
  lemma LexStep(text: string, i: nat)
    requires i <= |text| && Clean(text)
    ensures var j := SkipWhite(text, i);
            if j == |text| then Lex(text, i).End?
            else if text[j] == '>' && j + 1 < |text| && text[j + 1] == '>' then
              Lex(text, i) == Link(Append, Lex(text, j + 2))
            else if Symbol(text[j]) then Lex(text, i) == Link(Sym(text[j]), Lex(text, j + 1))
            else
              var w := Span(j, WordEnd(text, j));
              IsWord(text, w) && Lex(text, i) == Link(Word(w), Lex(text, w.end))
  {
  }

  // ----- Reading spans as strings -----

  function Read(text: string, w: Span): string {
    if w.start <= w.end <= |text| then text[w.start..w.end] else ""
  }

  function ReadTok(text: string, t: Tok<Span>): Tok<string> {
    match t case Sym(c) => Sym(c) case Append => Append case Word(w) => Word(Read(text, w))
  }

  function ReadToks(text: string, ts: Toks<Span>): Toks<string> {
    if ts.End? then End else Link(ReadTok(text, ts.head), ReadToks(text, ts.tail))
  }

  function ReadRedirs(text: string, rs: Redirects<Span>): Redirects<string> {
    if rs.End? then End else Link(Redirect(rs.head.op, Read(text, rs.head.file)), ReadRedirs(text, rs.tail))
  }

  function ReadArgs(text: string, args: Args<Span>): Args<string> {
    if args.End? then End
    else Link(Arg(Read(text, args.head.w), ReadRedirs(text, args.head.redirs)), ReadArgs(text, args.tail))
  }

  function ReadItem(text: string, item: Item<Span>): Item<string> {
    match item
    case Simple(pre, args) => Simple(ReadRedirs(text, pre), ReadArgs(text, args))
    case Block(line, redirs) => Block(ReadLine(text, line), ReadRedirs(text, redirs))
  }

  function ReadPipe(text: string, p: Pipeline<Span>): Pipeline<string> {
    match p
    case Single(item) => Single(ReadItem(text, item))
    case Through(item, rest) => Through(ReadItem(text, item), ReadPipe(text, rest))
  }

  function ReadLine(text: string, l: Line<Span>): Line<string> {
    match l
    case Final(pipe, backs) => Final(ReadPipe(text, pipe), backs)
    case Then(pipe, backs, rest) => Then(ReadPipe(text, pipe), backs, ReadLine(text, rest))
  }

  function ReadWords(text: string, ws: seq<Span>): (r: seq<string>)
    ensures |r| == |ws| && forall i :: 0 <= i < |ws| ==> r[i] == Read(text, ws[i])
  {
    if ws == [] then [] else [Read(text, ws[0])] + ReadWords(text, ws[1..])
  }

  function ReadCmd(text: string, c: Cmd<Span>): Cmd<string> {
    match c
    case Exec(argv) => Exec(ReadWords(text, argv))
    case Redir(d, file, out) => Redir(ReadCmd(text, d), Read(text, file), out)
    case Pipe(l, r) => Pipe(ReadCmd(text, l), ReadCmd(text, r))
    case List(l, r) => List(ReadCmd(text, l), ReadCmd(text, r))
    case Back(d) => Back(ReadCmd(text, d))
  }

  // ----- Parsing commutes with reading -----

  lemma {:induction false} RedirsRead(text: string, ts: Toks<Span>)
    ensures var r := ParseRedirs(ts);
            ParseRedirs(ReadToks(text, ts)) ==
            if r.Fail? then Fail(r.error) else Done(ReadRedirs(text, r.value), ReadToks(text, r.rest))
  {
    if AtRedir(ts) && ts.tail.Link? && ts.tail.head.Word? {
      RedirsRead(text, ts.tail.tail);
    }
  }

  lemma {:induction false} ArgsRead(text: string, ts: Toks<Span>, argc: nat)
    ensures var r := ParseArgs(ts, argc);
            ParseArgs(ReadToks(text, ts), argc) ==
            if r.Fail? then Fail(r.error) else Done(ReadArgs(text, r.value), ReadToks(text, r.rest))
    decreases Size(ts)
  {
    if !AtStop(ts) && ts.head.Word? && argc + 1 < MAXARGS {
      RedirsRead(text, ts.tail);
      if ParseRedirs(ts.tail).Done? {
        ArgsRead(text, ParseRedirs(ts.tail).rest, argc + 1);
      }
    }
  }

  lemma {:induction false} ItemRead(text: string, ts: Toks<Span>)
    ensures var r := ParseItem(ts);
            ParseItem(ReadToks(text, ts)) ==
            if r.Fail? then Fail(r.error) else Done(ReadItem(text, r.value), ReadToks(text, r.rest))
    decreases Size(ts), 0
  {
    if At(ts, '(') {
      LineRead(text, ts.tail);
      var m := ParseLine(ts.tail);
      if m.Done? && At(m.rest, ')') {
        RedirsRead(text, m.rest.tail);
      }
    } else {
      RedirsRead(text, ts);
      if ParseRedirs(ts).Done? {
        ArgsRead(text, ParseRedirs(ts).rest, 0);
      }
    }
  }

  lemma {:induction false} PipeRead(text: string, ts: Toks<Span>)
    ensures var r := ParsePipe(ts);
            ParsePipe(ReadToks(text, ts)) ==
            if r.Fail? then Fail(r.error) else Done(ReadPipe(text, r.value), ReadToks(text, r.rest))
    decreases Size(ts), 1
  {
    ItemRead(text, ts);
    var m := ParseItem(ts);
    if m.Done? && At(m.rest, '|') {
      PipeRead(text, m.rest.tail);
    }
  }

  lemma {:induction false} BacksRead(text: string, ts: Toks<Span>)
    ensures ParseBacks(ReadToks(text, ts)) == (ParseBacks(ts).0, ReadToks(text, ParseBacks(ts).1))
  {
    if At(ts, '&') {
      BacksRead(text, ts.tail);
    }
  }

  lemma {:induction false} LineRead(text: string, ts: Toks<Span>)
    ensures var r := ParseLine(ts);
            ParseLine(ReadToks(text, ts)) ==
            if r.Fail? then Fail(r.error) else Done(ReadLine(text, r.value), ReadToks(text, r.rest))
    decreases Size(ts), 2
  {
    PipeRead(text, ts);
    var m := ParsePipe(ts);
    if m.Done? {
      BacksRead(text, m.rest);
      var more := ParseBacks(m.rest).1;
      if At(more, ';') {
        LineRead(text, more.tail);
      }
    }
  }

  // ----- Trees commute with reading -----

  lemma {:induction false} WrapRead(text: string, c: Cmd<Span>, rs: Redirects<Span>)
    ensures ReadCmd(text, Wrap(c, rs)) == Wrap(ReadCmd(text, c), ReadRedirs(text, rs))
    decreases rs
  {
    if rs.Link? {
      WrapRead(text, Redir(c, rs.head.file, rs.head.op != Input), rs.tail);
    }
  }

  lemma {:induction false} WrapArgsRead(text: string, c: Cmd<Span>, args: Args<Span>)
    ensures ReadCmd(text, WrapArgs(c, args)) == WrapArgs(ReadCmd(text, c), ReadArgs(text, args))
    decreases args
  {
    if args.Link? {
      WrapRead(text, c, args.head.redirs);
      WrapArgsRead(text, Wrap(c, args.head.redirs), args.tail);
    }
  }

  lemma {:induction false} WordsRead(text: string, args: Args<Span>)
    ensures ReadWords(text, Words(args)) == Words(ReadArgs(text, args))
  {
    if args.Link? {
      WordsRead(text, args.tail);
    }
  }

  lemma {:induction false} ItemTreeRead(text: string, item: Item<Span>)
    ensures ReadCmd(text, ItemTree(item)) == ItemTree(ReadItem(text, item))
  {
    match item
    case Simple(pre, args) =>
      WordsRead(text, args);
      WrapRead(text, Exec(Words(args)), pre);
      WrapArgsRead(text, Wrap(Exec(Words(args)), pre), args);
    case Block(line, redirs) =>
      LineTreeRead(text, line);
      WrapRead(text, LineTree(line), redirs);
  }

  lemma {:induction false} PipeTreeRead(text: string, p: Pipeline<Span>)
    ensures ReadCmd(text, PipeTree(p)) == PipeTree(ReadPipe(text, p))
  {
    ItemTreeRead(text, p.item);
    if p.Through? {
      PipeTreeRead(text, p.rest);
    }
  }

  lemma {:induction false} BacksTreeRead(text: string, c: Cmd<Span>, k: nat)
    ensures ReadCmd(text, Backs(c, k)) == Backs(ReadCmd(text, c), k)
    decreases k
  {
    if k != 0 {
      BacksTreeRead(text, Back(c), k - 1);
    }
  }

  lemma {:induction false} LineTreeRead(text: string, l: Line<Span>)
    ensures ReadCmd(text, LineTree(l)) == LineTree(ReadLine(text, l))
  {
    PipeTreeRead(text, l.pipe);
    BacksTreeRead(text, PipeTree(l.pipe), l.backs);
    if l.Then? {
      LineTreeRead(text, l.rest);
    }
  }

  // ----- Writing tokens as text -----

  function WriteTok(t: Tok<string>): string {
    match t case Sym(c) => [c] case Append => ">>" case Word(w) => w
  }

  /** The tokens separated by blanks. */
  function Write(ts: Toks<string>): string {
    if ts.End? then "" else WriteTok(ts.head) + " " + Write(ts.tail)
  }

  predicate WritableWord(w: string) { w != "" && forall i :: 0 <= i < |w| ==> WordChar(w[i]) }

  predicate Writable(ts: Toks<string>) {
    ts.Link? ==>
      && (ts.head.Sym? ==> Symbol(ts.head.c))
      && (ts.head.Word? ==> WritableWord(ts.head.w))
      && Writable(ts.tail)
  }

  lemma {:induction false} WriteClean(ts: Toks<string>)
    requires Writable(ts)
    ensures Clean(Write(ts))
  {
    if ts.Link? {
      WriteClean(ts.tail);
    }
  }

  lemma {:induction false} WordEndAt(text: string, i: nat, j: nat)
    requires i <= j < |text| && White(text[j])
    requires forall k :: i <= k < j ==> WordChar(text[k])
    ensures WordEnd(text, i) == j
    decreases j - i
  {
    if i < j {
      WordEndAt(text, i + 1, j);
    }
  }

  lemma LexWord(text: string, i: nat, j: nat)
    requires i < j < |text| && White(text[j])
    requires forall k :: i <= k < j ==> WordChar(text[k])
    ensures Lex(text, i) == Link(Word(Span(i, j)), Lex(text, j))
  {
    WordEndAt(text, i, j);
    assert WordChar(text[i]);
    assert SkipWhite(text, i) == i;
  }

  lemma LexSymbol(text: string, i: nat)
    requires i + 1 < |text| && Symbol(text[i]) && text[i + 1] == ' '
    ensures Lex(text, i) == Link(Sym(text[i]), Lex(text, i + 1))
  {
    assert SkipWhite(text, i) == i;
  }

  lemma LexAppend(text: string, i: nat)
    requires i + 1 < |text| && text[i] == '>' && text[i + 1] == '>'
    ensures Lex(text, i) == Link(Append, Lex(text, i + 2))
  {
    assert SkipWhite(text, i) == i;
  }

  /** One token of the text, and where the next may start. */
  lemma LexOne(text: string, i: nat, t: Tok<string>)
    requires i + |WriteTok(t)| < |text| && text[i..i + |WriteTok(t)|] == WriteTok(t)
    requires text[i + |WriteTok(t)|] == ' '
    requires (t.Sym? ==> Symbol(t.c)) && (t.Word? ==> WritableWord(t.w))
    ensures Lex(text, i).Link? && ReadTok(text, Lex(text, i).head) == t
    ensures Lex(text, i).tail == Lex(text, i + |WriteTok(t)| + 1)
  {
    hide Lex, Symbol, White, WordChar;
    var n := |WriteTok(t)|;
    assert text[i] == text[i..i + n][0];
    match t {
      case Sym(_) => LexSymbol(text, i);
      case Append =>
        assert text[i + 1] == text[i..i + n][1];
        LexAppend(text, i);
      case Word(w) =>
        forall k | i <= k < i + n ensures WordChar(text[k]) {
          assert text[k] == text[i..i + n][k - i];
        }
        assert White(text[i + n]) by { BlankIsWhite(); }
        LexWord(text, i, i + n);
    }
    BlankIsWhite();
    LexSkips(text, i + n, i + n + 1);
  }

  lemma BlankIsWhite()
    ensures White(' ')
  {
  }

  lemma LexEmpty(text: string)
    ensures Lex(text, |text|).End?
  {
  }

  /** Reading the tokens of the written text gives the tokens back. */
  lemma {:induction false} LexWrite(pre: string, ts: Toks<string>)
    requires Writable(ts)
    ensures ReadToks(pre + Write(ts), Lex(pre + Write(ts), |pre|)) == ts
    decreases ts
  {
    hide Lex, WriteTok, ReadTok, Symbol, WritableWord;
    var text := pre + Write(ts);
    if ts.Link? {
      var w := WriteTok(ts.head);
      assert text == (pre + w + " ") + Write(ts.tail);
      assert text[|pre|..|pre| + |w|] == w && text[|pre| + |w|] == ' ';
      LexOne(text, |pre|, ts.head);
      LexWrite(pre + w + " ", ts.tail);
    } else {
      LexEmpty(text);
    }
  }

  // ----- The text of a command -----

  predicate WritableCmd(c: Cmd<string>) {
    match c
    case Exec(argv) => forall i :: 0 <= i < |argv| ==> WritableWord(argv[i])
    case Redir(d, file, _) => WritableCmd(d) && WritableWord(file)
    case Pipe(l, r) => WritableCmd(l) && WritableCmd(r)
    case List(l, r) => WritableCmd(l) && WritableCmd(r)
    case Back(d) => WritableCmd(d)
  }

  lemma {:induction false} PlainArgsWritable(argv: seq<string>, rest: Toks<string>)
    requires (forall i :: 0 <= i < |argv| ==> WritableWord(argv[i])) && Writable(rest)
    ensures Writable(SpellArgs(PlainArgs(argv), rest))
  {
    if argv != [] {
      PlainArgsWritable(argv[1..], rest);
    }
  }

  lemma AmpersandWritable(rest: Toks<string>)
    requires Writable(rest)
    ensures Writable(Ampersands(1, rest))
  {
    assert Ampersands(1, rest) == Link(Sym('&'), rest);
  }

  lemma {:induction false} ItemWritable(c: Cmd<string>, rest: Toks<string>)
    requires WritableCmd(c) && Writable(rest)
    ensures Writable(SpellItem(CanonItem(c), rest))
    decreases c, 0
  {
    var close := Link(Sym(')'), rest);
    match c
    case Exec(argv) => PlainArgsWritable(argv, rest);
    case Redir(d, file, out) =>
      var r := Link(Redirect(if out then Output else Input, file), End);
      assert Writable(SpellRedirs(r, rest));
      LineWritable(d, Link(Sym(')'), SpellRedirs(r, rest)));
    case Pipe(l, r) =>
      PipeWritable(r, close);
      ItemWritable(l, Link(Sym('|'), SpellPipe(CanonPipe(r), close)));
      assert SpellPipe(CanonPipe(c), close) == SpellItem(CanonItem(l), Link(Sym('|'), SpellPipe(CanonPipe(r), close)));
    case List(l, r) =>
      LineWritable(r, close);
      ItemWritable(l, Link(Sym(';'), SpellLine(CanonLine(r), close)));
      assert SpellLine(CanonLine(c), close) == SpellItem(CanonItem(l), Link(Sym(';'), SpellLine(CanonLine(r), close)));
    case Back(d) =>
      AmpersandWritable(close);
      ItemWritable(d, Ampersands(1, close));
      assert SpellLine(CanonLine(c), close) == SpellItem(CanonItem(d), Ampersands(1, close));
  }

  lemma {:induction false} PipeWritable(c: Cmd<string>, rest: Toks<string>)
    requires WritableCmd(c) && Writable(rest)
    ensures Writable(SpellPipe(CanonPipe(c), rest))
    decreases c, 1
  {
    if c.Pipe? {
      PipeWritable(c.right, rest);
      ItemWritable(c.left, Link(Sym('|'), SpellPipe(CanonPipe(c.right), rest)));
    } else {
      ItemWritable(c, rest);
    }
  }

  lemma {:induction false} LineWritable(c: Cmd<string>, rest: Toks<string>)
    requires WritableCmd(c) && Writable(rest)
    ensures Writable(SpellLine(CanonLine(c), rest))
    decreases c, 2
  {
    match c
    case List(l, r) =>
      LineWritable(r, rest);
      ItemWritable(l, Link(Sym(';'), SpellLine(CanonLine(r), rest)));
    case Back(d) => AmpersandWritable(rest); ItemWritable(d, Ampersands(1, rest));
    case _ => PipeWritable(c, rest);
  }

  /** A command as text. */
  function Render(c: Cmd<string>): string { Write(SpellLine(CanonLine(c), End)) }

  /** The text of any command parses, and its tree reads as the command. */
  lemma RenderParses(c: Cmd<string>)
    requires TreeOk(c) && WritableCmd(c)
    ensures Clean(Render(c))
    ensures var r := ParseAll(Lex(Render(c), 0));
            r.Done? && ReadCmd(Render(c), LineTree(r.value)) == c
  {
    hide Lex, Writable, SpellLine, CanonLine, ParseLine, LineTree, ReadCmd, ReadLine, Write;
    var text, ts := Render(c), SpellLine(CanonLine(c), End);
    LineWritable(c, End);
    WriteClean(ts);
    LexWrite("", ts);
    assert "" + Write(ts) == text;
    TreeRoundTrip(c);
    LineRead(text, Lex(text, 0));
    var r := ParseLine(Lex(text, 0));
    LineTreeRead(text, r.value);
  }
}
