/** The shell's command language: its grammar, its recursive-descent parser on tokens, and the proof
    that the parser accepts exactly the language and inverts its spelling. */
module ShellGrammar {

  datatype Chain<T> = End | Link(head: T, tail: Chain<T>)

  // ----- Tokens, syntax and command trees.  `W` is how a word is represented. -----

  datatype Tok<W> = Sym(c: char) | Append | Word(w: W)
  type Toks<W> = Chain<Tok<W>>

  datatype Op = Input | Output | OutputAppend
  datatype Redirect<W> = Redirect(op: Op, file: W)
  type Redirects<W> = Chain<Redirect<W>>
  datatype Arg<W> = Arg(w: W, redirs: Redirects<W>)
  type Args<W> = Chain<Arg<W>>
  datatype Item<W> = Simple(pre: Redirects<W>, args: Args<W>) | Block(line: Line<W>, redirs: Redirects<W>)
  datatype Pipeline<W> = Single(item: Item<W>) | Through(item: Item<W>, rest: Pipeline<W>)
  datatype Line<W> = Final(pipe: Pipeline<W>, backs: nat) | Then(pipe: Pipeline<W>, backs: nat, rest: Line<W>)

  /** struct cmd.  `out` is the mode and descriptor of a redirection: O_RDONLY on 0, or
      O_WRONLY|O_CREATE on 1; the code gives `>` and `>>` the same one. */
  datatype Cmd<W> =
    | Exec(argv: seq<W>)
    | Redir(cmd: Cmd<W>, file: W, out: bool)
    | Pipe(left: Cmd<W>, right: Cmd<W>)
    | List(left: Cmd<W>, right: Cmd<W>)
    | Back(cmd: Cmd<W>)

  const MAXARGS := 10

  datatype Error = MissingFile | MissingParen | Syntax | TooManyArgs | Leftovers
  datatype Parse<W, T> = Fail(error: Error) | Done(value: T, rest: Toks<W>)

  function Size<T>(xs: Chain<T>): nat {
    if xs.End? then 0 else 1 + Size(xs.tail)
  }

  // ----- Spelling, in front of the tokens `rest` -----

  function OpTok<W>(op: Op): Tok<W> {
    match op case Input => Sym('<') case Output => Sym('>') case OutputAppend => Append
  }

  function SpellRedirs<W>(rs: Redirects<W>, rest: Toks<W>): Toks<W> {
    match rs
    case End => rest
    case Link(r, more) => Link(OpTok(r.op), Link(Word(r.file), SpellRedirs(more, rest)))
  }

  function SpellArgs<W>(args: Args<W>, rest: Toks<W>): Toks<W> {
    match args
    case End => rest
    case Link(a, more) => Link(Word(a.w), SpellRedirs(a.redirs, SpellArgs(more, rest)))
  }

  function SpellItem<W>(item: Item<W>, rest: Toks<W>): Toks<W> {
    match item
    case Simple(pre, args) => SpellRedirs(pre, SpellArgs(args, rest))
    case Block(line, redirs) => Link(Sym('('), SpellLine(line, Link(Sym(')'), SpellRedirs(redirs, rest))))
  }

  function SpellPipe<W>(p: Pipeline<W>, rest: Toks<W>): Toks<W> {
    match p
    case Single(item) => SpellItem(item, rest)
    case Through(item, more) => SpellItem(item, Link(Sym('|'), SpellPipe(more, rest)))
  }

  function Ampersands<W>(k: nat, rest: Toks<W>): Toks<W> {
    if k == 0 then rest else Link(Sym('&'), Ampersands(k - 1, rest))
  }

  function SpellLine<W>(l: Line<W>, rest: Toks<W>): Toks<W> {
    match l
    case Final(pipe, backs) => SpellPipe(pipe, Ampersands(backs, rest))
    case Then(pipe, backs, more) => SpellPipe(pipe, Ampersands(backs, Link(Sym(';'), SpellLine(more, rest))))
  }

  // ----- The tree a spelling stands for -----

  function Wrap<W>(c: Cmd<W>, rs: Redirects<W>): Cmd<W>
    decreases rs
  {
    match rs
    case End => c
    case Link(r, more) => Wrap(Redir(c, r.file, r.op != Input), more)
  }

  function Words<W>(args: Args<W>): seq<W> {
    if args.End? then [] else [args.head.w] + Words(args.tail)
  }

  /** The redirections that follow some argument, applied in order. */
  function WrapArgs<W>(c: Cmd<W>, args: Args<W>): Cmd<W>
    decreases args
  {
    if args.End? then c else WrapArgs(Wrap(c, args.head.redirs), args.tail)
  }

  function ItemTree<W>(item: Item<W>): Cmd<W> {
    match item
    case Simple(pre, args) => WrapArgs(Wrap(Exec(Words(args)), pre), args)
    case Block(line, redirs) => Wrap(LineTree(line), redirs)
  }

  function PipeTree<W>(p: Pipeline<W>): Cmd<W> {
    match p
    case Single(item) => ItemTree(item)
    case Through(item, rest) => Pipe(ItemTree(item), PipeTree(rest))
  }

  function Backs<W>(c: Cmd<W>, k: nat): Cmd<W>
    decreases k
  {
    if k == 0 then c else Backs(Back(c), k - 1)
  }

  function LineTree<W>(l: Line<W>): Cmd<W> {
    match l
    case Final(pipe, backs) => Backs(PipeTree(pipe), backs)
    case Then(pipe, backs, rest) => List(Backs(PipeTree(pipe), backs), LineTree(rest))
  }

  /** Fewer than MAXARGS words in each simple command. */
  predicate ItemOk<W>(item: Item<W>) {
    match item
    case Simple(_, args) => Size(args) < MAXARGS
    case Block(line, _) => LineOk(line)
  }

  predicate PipeOk<W>(p: Pipeline<W>) {
    ItemOk(p.item) && (p.Through? ==> PipeOk(p.rest))
  }

  predicate LineOk<W>(l: Line<W>) {
    PipeOk(l.pipe) && (l.Then? ==> LineOk(l.rest))
  }

  // ----- The parser -----

  predicate At<W>(ts: Toks<W>, c: char) { ts.Link? && ts.head == Sym(c) }

  predicate AtRedir<W>(ts: Toks<W>) { At(ts, '<') || At(ts, '>') || (ts.Link? && ts.head.Append?) }

  predicate AtStop<W>(ts: Toks<W>) { ts.End? || At(ts, '|') || At(ts, ')') || At(ts, '&') || At(ts, ';') }

  function OpOf<W>(t: Tok<W>): Op {
    match t case Sym(c) => if c == '<' then Input else Output case _ => OutputAppend
  }

  function ParseRedirs<W>(ts: Toks<W>): (r: Parse<W, Redirects<W>>)
    ensures r.Done? ==> Size(r.rest) <= Size(ts)
  {
    if !AtRedir(ts) then Done(End, ts)
    else if ts.tail.End? || !ts.tail.head.Word? then Fail(MissingFile)
    else
      match ParseRedirs(ts.tail.tail)
      case Fail(e) => Fail(e)
      case Done(rs, rest) => Done(Link(Redirect(OpOf(ts.head), ts.tail.head.w), rs), rest)
  }

  function ParseArgs<W>(ts: Toks<W>, argc: nat): (r: Parse<W, Args<W>>)
    ensures r.Done? ==> Size(r.rest) <= Size(ts)
    decreases Size(ts)
  {
    if AtStop(ts) then Done(End, ts)
    else if !ts.head.Word? then Fail(Syntax)
    else if argc + 1 >= MAXARGS then Fail(TooManyArgs)
    else
      match ParseRedirs(ts.tail)
      case Fail(e) => Fail(e)
      case Done(rs, more) =>
        match ParseArgs(more, argc + 1)
        case Fail(e) => Fail(e)
        case Done(args, rest) => Done(Link(Arg(ts.head.w, rs), args), rest)
  }

  function ParseItem<W>(ts: Toks<W>): (r: Parse<W, Item<W>>)
    ensures r.Done? ==> Size(r.rest) <= Size(ts)
    decreases Size(ts), 0
  {
    if At(ts, '(') then
      match ParseLine(ts.tail)
      case Fail(e) => Fail(e)
      case Done(line, more) =>
        if !At(more, ')') then Fail(MissingParen)
        else
          match ParseRedirs(more.tail)
          case Fail(e) => Fail(e)
          case Done(rs, rest) => Done(Block(line, rs), rest)
    else
      match ParseRedirs(ts)
      case Fail(e) => Fail(e)
      case Done(pre, more) =>
        match ParseArgs(more, 0)
        case Fail(e) => Fail(e)
        case Done(args, rest) => Done(Simple(pre, args), rest)
  }

  function ParsePipe<W>(ts: Toks<W>): (r: Parse<W, Pipeline<W>>)
    ensures r.Done? ==> Size(r.rest) <= Size(ts)
    decreases Size(ts), 1
  {
    match ParseItem(ts)
    case Fail(e) => Fail(e)
    case Done(item, more) =>
      if !At(more, '|') then Done(Single(item), more)
      else
        match ParsePipe(more.tail)
        case Fail(e) => Fail(e)
        case Done(p, rest) => Done(Through(item, p), rest)
  }

  function ParseBacks<W>(ts: Toks<W>): (r: (nat, Toks<W>))
    ensures Size(r.1) <= Size(ts)
  {
    if At(ts, '&') then var (k, rest) := ParseBacks(ts.tail); (k + 1, rest) else (0, ts)
  }

  function ParseLine<W>(ts: Toks<W>): (r: Parse<W, Line<W>>)
    ensures r.Done? ==> Size(r.rest) <= Size(ts)
    decreases Size(ts), 2
  {
    match ParsePipe(ts)
    case Fail(e) => Fail(e)
    case Done(p, after) =>
      var (k, more) := ParseBacks(after);
      if !At(more, ';') then Done(Final(p, k), more)
      else
        match ParseLine(more.tail)
        case Fail(e) => Fail(e)
        case Done(l, rest) => Done(Then(p, k, l), rest)
  }

  /** parsecmd on tokens. */
  function ParseAll<W>(ts: Toks<W>): Parse<W, Line<W>> {
    match ParseLine(ts)
    case Fail(e) => Fail(e)
    case Done(l, rest) => if rest.End? then Done(l, rest) else Fail(Leftovers)
  }

  // ----- What the parser accepts is spelled by what it returns -----

  lemma {:induction false} RedirsSound<W>(ts: Toks<W>)
    requires ParseRedirs(ts).Done?
    ensures SpellRedirs(ParseRedirs(ts).value, ParseRedirs(ts).rest) == ts
  {
    if AtRedir(ts) {
      RedirsSound(ts.tail.tail);
    }
  }

  lemma {:induction false} ArgsSound<W>(ts: Toks<W>, argc: nat)
    requires ParseArgs(ts, argc).Done? && argc < MAXARGS
    ensures var r := ParseArgs(ts, argc); SpellArgs(r.value, r.rest) == ts && Size(r.value) + argc < MAXARGS
    decreases Size(ts)
  {
    if !AtStop(ts) {
      RedirsSound(ts.tail);
      ArgsSound(ParseRedirs(ts.tail).rest, argc + 1);
    }
  }

  lemma {:induction false} ItemSound<W>(ts: Toks<W>)
    requires ParseItem(ts).Done?
    ensures var r := ParseItem(ts); SpellItem(r.value, r.rest) == ts && ItemOk(r.value)
    decreases Size(ts), 0
  {
    if At(ts, '(') {
      LineSound(ts.tail);
      RedirsSound(ParseLine(ts.tail).rest.tail);
    } else {
      RedirsSound(ts);
      ArgsSound(ParseRedirs(ts).rest, 0);
    }
  }

  lemma {:induction false} PipeSound<W>(ts: Toks<W>)
    requires ParsePipe(ts).Done?
    ensures var r := ParsePipe(ts); SpellPipe(r.value, r.rest) == ts && PipeOk(r.value)
    decreases Size(ts), 1
  {
    ItemSound(ts);
    var more := ParseItem(ts).rest;
    if At(more, '|') {
      PipeSound(more.tail);
    }
  }

  lemma {:induction false} BacksSound<W>(ts: Toks<W>)
    ensures ts == Ampersands(ParseBacks(ts).0, ParseBacks(ts).1)
  {
    if At(ts, '&') {
      BacksSound(ts.tail);
    }
  }

  lemma {:induction false} LineSound<W>(ts: Toks<W>)
    requires ParseLine(ts).Done?
    ensures var r := ParseLine(ts); SpellLine(r.value, r.rest) == ts && LineOk(r.value)
    decreases Size(ts), 2
  {
    PipeSound(ts);
    var after := ParsePipe(ts).rest;
    BacksSound(after);
    var more := ParseBacks(after).1;
    if At(more, ';') {
      LineSound(more.tail);
    }
  }

  // ----- Every spelling is parsed back -----

  lemma {:induction false} RedirsComplete<W>(rs: Redirects<W>, rest: Toks<W>)
    requires !AtRedir(rest)
    ensures ParseRedirs(SpellRedirs(rs, rest)) == Done(rs, rest)
  {
    if rs.Link? {
      RedirsComplete(rs.tail, rest);
    }
  }

  lemma {:induction false} ArgsComplete<W>(args: Args<W>, argc: nat, rest: Toks<W>)
    requires Size(args) + argc < MAXARGS && AtStop(rest)
    ensures ParseArgs(SpellArgs(args, rest), argc) == Done(args, rest)
    decreases args
  {
    if args.Link? {
      ArgsComplete(args.tail, argc + 1, rest);
      RedirsComplete(args.head.redirs, SpellArgs(args.tail, rest));
    }
  }

  lemma {:induction false} ItemComplete<W>(item: Item<W>, rest: Toks<W>)
    requires ItemOk(item) && AtStop(rest)
    ensures ParseItem(SpellItem(item, rest)) == Done(item, rest)
    decreases item
  {
    match item
    case Simple(pre, args) =>
      ArgsComplete(args, 0, rest);
      RedirsComplete(pre, SpellArgs(args, rest));
    case Block(line, redirs) =>
      LineComplete(line, Link(Sym(')'), SpellRedirs(redirs, rest)));
      RedirsComplete(redirs, rest);
  }

  lemma {:induction false} PipeComplete<W>(p: Pipeline<W>, rest: Toks<W>)
    requires PipeOk(p) && AtStop(rest) && !At(rest, '|')
    ensures ParsePipe(SpellPipe(p, rest)) == Done(p, rest)
    decreases p
  {
    match p
    case Single(item) => ItemComplete(item, rest);
    case Through(item, more) =>
      PipeComplete(more, rest);
      ItemComplete(item, Link(Sym('|'), SpellPipe(more, rest)));
  }

  lemma {:induction false} BacksComplete<W>(k: nat, rest: Toks<W>)
    requires !At(rest, '&')
    ensures ParseBacks(Ampersands(k, rest)) == (k, rest)
  {
    if k != 0 {
      BacksComplete(k - 1, rest);
    }
  }

  lemma {:induction false} LineComplete<W>(l: Line<W>, rest: Toks<W>)
    requires LineOk(l) && (At(rest, ')') || rest.End?)
    ensures ParseLine(SpellLine(l, rest)) == Done(l, rest)
    decreases l
  {
    match l
    case Final(pipe, backs) =>
      BacksComplete(backs, rest);
      PipeComplete(pipe, Ampersands(backs, rest));
    case Then(pipe, backs, next) =>
      LineComplete(next, rest);
      var more := Link(Sym(';'), SpellLine(next, rest));
      BacksComplete(backs, more);
      PipeComplete(pipe, Ampersands(backs, more));
  }

  /** The parser returns `l` exactly on the spelling of `l`: the language is unambiguous and nothing
      else is accepted. */
  lemma ParsesExactly<W>(ts: Toks<W>, l: Line<W>)
    ensures ParseAll(ts) == Done(l, End) <==> ts == SpellLine(l, End) && LineOk(l)
  {
    if LineOk(l) {
      LineComplete(l, End);
    }
    if ParseLine(ts).Done? {
      LineSound(ts);
    }
  }

  // ----- Every tree has a spelling -----

  predicate TreeOk<W>(c: Cmd<W>) {
    match c
    case Exec(argv) => |argv| < MAXARGS
    case Redir(d, _, _) => TreeOk(d)
    case Pipe(l, r) => TreeOk(l) && TreeOk(r)
    case List(l, r) => TreeOk(l) && TreeOk(r)
    case Back(d) => TreeOk(d)
  }

  function PlainArgs<W>(argv: seq<W>): Args<W> {
    if argv == [] then End else Link(Arg(argv[0], End), PlainArgs(argv[1..]))
  }

  /** A simple command as its words, anything else in parentheses. */
  function CanonItem<W>(c: Cmd<W>): Item<W>
    decreases c, 0
  {
    match c
    case Exec(argv) => Simple(End, PlainArgs(argv))
    case Redir(d, file, out) => Block(CanonLine(d), Link(Redirect(if out then Output else Input, file), End))
    case Pipe(l, r) => Block(Final(Through(CanonItem(l), CanonPipe(r)), 0), End)
    case List(l, r) => Block(Then(Single(CanonItem(l)), 0, CanonLine(r)), End)
    case Back(d) => Block(Final(Single(CanonItem(d)), 1), End)
  }

  function CanonPipe<W>(c: Cmd<W>): Pipeline<W>
    decreases c, 1
  {
    if c.Pipe? then Through(CanonItem(c.left), CanonPipe(c.right)) else Single(CanonItem(c))
  }

  function CanonLine<W>(c: Cmd<W>): Line<W>
    decreases c, 2
  {
    match c
    case List(l, r) => Then(Single(CanonItem(l)), 0, CanonLine(r))
    case Back(d) => Final(Single(CanonItem(d)), 1)
    case _ => Final(CanonPipe(c), 0)
  }

  lemma {:induction false} PlainArgsTree<W>(argv: seq<W>, c: Cmd<W>)
    ensures Words(PlainArgs(argv)) == argv && WrapArgs(c, PlainArgs(argv)) == c && Size(PlainArgs(argv)) == |argv|
  {
    if argv != [] {
      PlainArgsTree(argv[1..], c);
    }
  }

  lemma {:induction false} CanonTree<W>(c: Cmd<W>)
    requires TreeOk(c)
    ensures ItemTree(CanonItem(c)) == c && ItemOk(CanonItem(c))
    ensures PipeTree(CanonPipe(c)) == c && PipeOk(CanonPipe(c))
    ensures LineTree(CanonLine(c)) == c && LineOk(CanonLine(c))
  {
    match c
    case Exec(argv) => PlainArgsTree(argv, c);
    case Redir(d, _, _) => CanonTree(d); assert Wrap(d, CanonItem(c).redirs) == c;
    case Pipe(l, r) =>
      CanonTree(l);
      CanonTree(r);
      assert PipeTree(CanonPipe(c)) == c && LineTree(Final(CanonPipe(c), 0)) == c;
    case List(l, r) =>
      CanonTree(l);
      CanonTree(r);
      assert LineTree(CanonLine(c)) == c && LineOk(CanonLine(c));
    case Back(d) =>
      CanonTree(d);
      assert Backs(d, 1) == Back(d);
      assert LineTree(CanonLine(c)) == c;
  }

  /** Parsing the spelling of any command tree gives the tree back. */
  lemma TreeRoundTrip<W>(c: Cmd<W>)
    requires TreeOk(c)
    ensures ParseAll(SpellLine(CanonLine(c), End)) == Done(CanonLine(c), End) && LineTree(CanonLine(c)) == c
  {
    CanonTree(c);
    ParsesExactly(SpellLine(CanonLine(c), End), CanonLine(c));
  }
}
