/** What the tree of a command line is, stated on its tokens: one law for each way of making a longer line
    out of shorter ones.  Together they determine the tree of every line that is accepted. */
module ShellLaws {
  import opened ShellGrammar

  function Cat<W>(a: Toks<W>, b: Toks<W>): Toks<W> {
    if a.End? then b else Link(a.head, Cat(a.tail, b))
  }

  function One<T>(x: T): Chain<T> { Link(x, End) }

  /** The tokens are a command line. */
  predicate IsLine<W>(ts: Toks<W>) { ParseAll(ts).Done? }

  /** One without `;` outside parentheses. */
  predicate IsPart<W>(ts: Toks<W>) { IsLine(ts) && ParseAll(ts).value.Final? }

  /** One without `&` as well. */
  predicate IsPipe<W>(ts: Toks<W>) { IsPart(ts) && ParseAll(ts).value.backs == 0 }

  /** One command of a pipeline. */
  predicate IsItem<W>(ts: Toks<W>) { IsPipe(ts) && ParseAll(ts).value.pipe.Single? }

  /** One that is not in parentheses. */
  predicate IsSimple<W>(ts: Toks<W>) { IsItem(ts) && ParseAll(ts).value.pipe.item.Simple? }

  /** The tree that the shell makes of them. */
  function Tree<W>(ts: Toks<W>): Cmd<W>
    requires IsLine(ts)
  {
    LineTree(ParseAll(ts).value)
  }

  /** The tokens and the tree of a line. */
  lemma LineIs<W>(l: Line<W>, ts: Toks<W>)
    requires LineOk(l) && ts == SpellLine(l, End)
    ensures ParseAll(ts) == Done(l, End)
  {
    ParsesExactly(ts, l);
  }

  lemma Spelled<W>(ts: Toks<W>)
    requires IsLine(ts)
    ensures ts == SpellLine(ParseAll(ts).value, End) && LineOk(ParseAll(ts).value)
  {
    ParsesExactly(ts, ParseAll(ts).value);
  }

  /** A line of one pipeline without `&`, and of one command. */
  lemma PipeLine<W>(p: Pipeline<W>)
    ensures var l := Final(p, 0);
            SpellLine(l, End) == SpellPipe(p, End) && LineTree(l) == PipeTree(p) && (LineOk(l) <==> PipeOk(p))
  {
    assert Ampersands<W>(0, End) == End;
    assert Backs(PipeTree(p), 0) == PipeTree(p);
  }

  lemma ItemLine<W>(item: Item<W>)
    ensures var l := Final(Single(item), 0);
            SpellLine(l, End) == SpellItem(item, End) && LineTree(l) == ItemTree(item) && (LineOk(l) <==> ItemOk(item))
  {
    PipeLine(Single(item));
  }

  // ----- Tokens behind a spelling -----

  lemma {:induction false} CatRedirs<W>(rs: Redirects<W>, rest: Toks<W>, b: Toks<W>)
    ensures Cat(SpellRedirs(rs, rest), b) == SpellRedirs(rs, Cat(rest, b))
  {
    if rs.Link? {
      CatRedirs(rs.tail, rest, b);
    }
  }

  lemma {:induction false} CatArgs<W>(args: Args<W>, rest: Toks<W>, b: Toks<W>)
    ensures Cat(SpellArgs(args, rest), b) == SpellArgs(args, Cat(rest, b))
  {
    if args.Link? {
      CatArgs(args.tail, rest, b);
      CatRedirs(args.head.redirs, SpellArgs(args.tail, rest), b);
    }
  }

  lemma {:induction false} CatItem<W>(item: Item<W>, rest: Toks<W>, b: Toks<W>)
    ensures Cat(SpellItem(item, rest), b) == SpellItem(item, Cat(rest, b))
    decreases item
  {
    match item
    case Simple(pre, args) =>
      CatRedirs(pre, SpellArgs(args, rest), b);
      CatArgs(args, rest, b);
    case Block(line, redirs) =>
      CatLine(line, Link(Sym(')'), SpellRedirs(redirs, rest)), b);
      CatRedirs(redirs, rest, b);
  }

  lemma {:induction false} CatPipe<W>(p: Pipeline<W>, rest: Toks<W>, b: Toks<W>)
    ensures Cat(SpellPipe(p, rest), b) == SpellPipe(p, Cat(rest, b))
    decreases p
  {
    match p
    case Single(item) => CatItem(item, rest, b);
    case Through(item, more) =>
      CatItem(item, Link(Sym('|'), SpellPipe(more, rest)), b);
      CatPipe(more, rest, b);
  }

  lemma {:induction false} CatBacks<W>(k: nat, rest: Toks<W>, b: Toks<W>)
    ensures Cat(Ampersands(k, rest), b) == Ampersands(k, Cat(rest, b))
  {
    if k != 0 {
      CatBacks(k - 1, rest, b);
    }
  }

  lemma {:induction false} CatLine<W>(l: Line<W>, rest: Toks<W>, b: Toks<W>)
    ensures Cat(SpellLine(l, rest), b) == SpellLine(l, Cat(rest, b))
    decreases l
  {
    match l
    case Final(pipe, backs) =>
      CatPipe(pipe, Ampersands(backs, rest), b);
      CatBacks(backs, rest, b);
    case Then(pipe, backs, more) =>
      CatPipe(pipe, Ampersands(backs, Link(Sym(';'), SpellLine(more, rest))), b);
      CatBacks(backs, Link(Sym(';'), SpellLine(more, rest)), b);
      CatLine(more, rest, b);
  }

  // ----- Redirections -----

  function Snoc<T>(xs: Chain<T>, x: T): Chain<T> {
    if xs.End? then One(x) else Link(xs.head, Snoc(xs.tail, x))
  }

  lemma {:induction false} SnocRedir<W>(rs: Redirects<W>, r: Redirect<W>, rest: Toks<W>, c: Cmd<W>)
    ensures SpellRedirs(Snoc(rs, r), rest) == SpellRedirs(rs, Link(OpTok(r.op), Link(Word(r.file), rest)))
    ensures Wrap(c, Snoc(rs, r)) == Redir(Wrap(c, rs), r.file, r.op != Input)
    decreases rs
  {
    if rs.Link? {
      SnocRedir(rs.tail, r, rest, Redir(c, rs.head.file, rs.head.op != Input));
    } else {
      assert Wrap(c, One(r)) == Wrap(Redir(c, r.file, r.op != Input), End);
    }
  }

  /** A redirection behind the last word. */
  function ArgsRedir<W>(args: Args<W>, r: Redirect<W>): Args<W>
    requires args.Link?
  {
    if args.tail.End? then One(Arg(args.head.w, Snoc(args.head.redirs, r)))
    else Link(args.head, ArgsRedir(args.tail, r))
  }

  lemma {:induction false} ArgsRedirIs<W>(args: Args<W>, r: Redirect<W>, rest: Toks<W>, c: Cmd<W>)
    requires args.Link?
    ensures SpellArgs(ArgsRedir(args, r), rest) == SpellArgs(args, Link(OpTok(r.op), Link(Word(r.file), rest)))
    ensures WrapArgs(c, ArgsRedir(args, r)) == Redir(WrapArgs(c, args), r.file, r.op != Input)
    ensures Words(ArgsRedir(args, r)) == Words(args) && Size(ArgsRedir(args, r)) == Size(args)
    decreases args
  {
    if args.tail.End? {
      SnocRedir(args.head.redirs, r, rest, c);
    } else {
      ArgsRedirIs(args.tail, r, rest, Wrap(c, args.head.redirs));
    }
  }

  function ItemRedir<W>(item: Item<W>, r: Redirect<W>): Item<W> {
    match item
    case Simple(pre, args) => if args.End? then Simple(Snoc(pre, r), End) else Simple(pre, ArgsRedir(args, r))
    case Block(line, redirs) => Block(line, Snoc(redirs, r))
  }

  lemma ItemRedirIs<W>(item: Item<W>, r: Redirect<W>, rest: Toks<W>)
    ensures SpellItem(ItemRedir(item, r), rest) == SpellItem(item, Link(OpTok(r.op), Link(Word(r.file), rest)))
    ensures ItemTree(ItemRedir(item, r)) == Redir(ItemTree(item), r.file, r.op != Input)
    ensures ItemOk(ItemRedir(item, r)) == ItemOk(item) && (ItemRedir(item, r).Simple? <==> item.Simple?)
  {
    match item
    case Simple(pre, args) =>
      SnocRedir(pre, r, rest, Exec([]));
      if args.Link? {
        ArgsRedirIs(args, r, rest, Wrap(Exec(Words(args)), pre));
      }
    case Block(line, redirs) => SnocRedir(redirs, r, rest, LineTree(line));
  }

  /** A redirection behind a command goes around it: of several in a row none is lost, and the last is
      outermost.  Only `<` is for input. */
  lemma RedirLaw<W>(ts: Toks<W>, op: Tok<W>, file: W)
    requires IsItem(ts) && (op == Sym('<') || op == Sym('>') || op == Append)
    ensures var all := Cat(ts, Link(op, One(Word(file))));
            && IsItem(all) && (IsSimple(all) <==> IsSimple(ts))
            && Tree(all) == Redir(Tree(ts), file, op != Sym('<'))
  {
    Spelled(ts);
    var item, b := ParseAll(ts).value.pipe.item, Link(op, One(Word(file)));
    var r := Redirect(OpOf(op), file);
    ItemLine(item);
    ItemLine(ItemRedir(item, r));
    CatItem(item, End, b);
    ItemRedirIs(item, r, End);
    LineIs(Final(Single(ItemRedir(item, r)), 0), Cat(ts, b));
  }

  // ----- Words -----

  /** A word at the end of the command inside the redirections. */
  function AddWord<W>(c: Cmd<W>, w: W): Cmd<W> {
    match c
    case Exec(argv) => Exec(argv + [w])
    case Redir(d, file, out) => Redir(AddWord(d, w), file, out)
    case _ => c
  }

  lemma {:induction false} WrapWord<W>(c: Cmd<W>, rs: Redirects<W>, w: W)
    ensures AddWord(Wrap(c, rs), w) == Wrap(AddWord(c, w), rs)
    decreases rs
  {
    if rs.Link? {
      WrapWord(Redir(c, rs.head.file, rs.head.op != Input), rs.tail, w);
    }
  }

  lemma {:induction false} SnocWord<W>(args: Args<W>, w: W, rest: Toks<W>, c: Cmd<W>)
    ensures SpellArgs(Snoc(args, Arg(w, End)), rest) == SpellArgs(args, Link(Word(w), rest))
    ensures Words(Snoc(args, Arg(w, End))) == Words(args) + [w] && Size(Snoc(args, Arg(w, End))) == Size(args) + 1
    ensures WrapArgs(AddWord(c, w), Snoc(args, Arg(w, End))) == AddWord(WrapArgs(c, args), w)
    decreases args
  {
    var more := Snoc(args, Arg(w, End));
    if args.Link? {
      SnocWord(args.tail, w, rest, Wrap(c, args.head.redirs));
      WrapWord(c, args.head.redirs, w);
    } else {
      assert SpellRedirs(End, SpellArgs(End, rest)) == rest;
      assert Words(more) == [w] + Words(more.tail);
      assert WrapArgs(AddWord(c, w), more) == WrapArgs(Wrap(AddWord(c, w), End), End);
    }
  }

  /** How many words the command inside the redirections has. */
  function WordCount<W>(c: Cmd<W>): nat {
    match c
    case Exec(argv) => |argv|
    case Redir(d, _, _) => WordCount(d)
    case _ => 0
  }

  lemma {:induction false} WrapCount<W>(c: Cmd<W>, rs: Redirects<W>)
    ensures WordCount(Wrap(c, rs)) == WordCount(c)
    decreases rs
  {
    if rs.Link? {
      WrapCount(Redir(c, rs.head.file, rs.head.op != Input), rs.tail);
    }
  }

  lemma {:induction false} ArgsCount<W>(c: Cmd<W>, args: Args<W>)
    ensures WordCount(WrapArgs(c, args)) == WordCount(c) && |Words(args)| == Size(args)
    decreases args
  {
    if args.Link? {
      WrapCount(c, args.head.redirs);
      ArgsCount(Wrap(c, args.head.redirs), args.tail);
    }
  }

  lemma WordItem<W>(pre: Redirects<W>, args: Args<W>, w: W)
    ensures var item, more := Simple(pre, args), Simple(pre, Snoc(args, Arg(w, End)));
            && SpellItem(more, End) == SpellItem(item, One(Word(w))) && ItemTree(more) == AddWord(ItemTree(item), w)
            && WordCount(ItemTree(item)) == Size(args) && Size(more.args) == Size(args) + 1
  {
    var c := Exec(Words(args));
    WrapCount(c, pre);
    ArgsCount(Wrap(c, pre), args);
    SnocWord(args, w, End, Wrap(c, pre));
    WrapWord(c, pre, w);
  }

  lemma TenthWord<W>(pre: Redirects<W>, args: Args<W>, w: W)
    requires Size(args) + 1 == MAXARGS
    ensures ParseAll(SpellItem(Simple(pre, args), One(Word(w)))) == Fail(TooManyArgs)
  {
    NoTenth(args, 0, w);
    RedirsComplete(pre, SpellArgs(args, One(Word(w))));
    var ts := SpellItem(Simple(pre, args), One(Word(w)));
    assert !At(ts, '(');
    assert ParseItem(ts) == Fail(TooManyArgs);
    assert ParsePipe(ts) == Fail(TooManyArgs);
  }

  /** A word behind a command without parentheses becomes its last argument, wherever its redirections
      stand; there may be nine. */
  lemma WordLaw<W>(ts: Toks<W>, w: W)
    requires IsSimple(ts)
    ensures var all := Cat(ts, One(Word(w)));
            if WordCount(Tree(ts)) + 1 < MAXARGS then IsSimple(all) && Tree(all) == AddWord(Tree(ts), w)
            else ParseAll(all) == Fail(TooManyArgs)
  {
    hide SpellItem, ItemTree, AddWord, WordCount, SpellLine, LineTree;
    Spelled(ts);
    var item := ParseAll(ts).value.pipe.item;
    var more := Simple(item.pre, Snoc(item.args, Arg(w, End)));
    ItemLine(item);
    CatItem(item, End, One(Word(w)));
    WordItem(item.pre, item.args, w);
    if Size(item.args) + 1 < MAXARGS {
      ItemLine(more);
      LineIs(Final(Single(more), 0), Cat(ts, One(Word(w))));
    } else {
      TenthWord(item.pre, item.args, w);
    }
  }

  lemma {:induction false} NoTenth<W>(args: Args<W>, argc: nat, w: W)
    requires Size(args) + argc + 1 == MAXARGS
    ensures ParseArgs(SpellArgs(args, One(Word(w))), argc) == Fail(TooManyArgs)
    decreases args
  {
    if args.Link? {
      NoTenth(args.tail, argc + 1, w);
      RedirsComplete(args.head.redirs, SpellArgs(args.tail, One(Word(w))));
    }
  }

  /** Nothing at all is a command without words. */
  lemma EmptyLaw<W>()
    ensures IsSimple<W>(End) && Tree<W>(End) == Exec([])
  {
    ItemLine<W>(Simple(End, End));
    LineIs<W>(Final(Single(Simple(End, End)), 0), End);
  }

  // ----- Parentheses, pipes, `&` and `;` -----

  /** Parentheses make a command of a line and do not show in the tree. */
  lemma BlockLaw<W>(ts: Toks<W>)
    requires IsLine(ts)
    ensures var all := Link(Sym('('), Cat(ts, One(Sym(')'))));
            IsItem(all) && !IsSimple(all) && Tree(all) == Tree(ts)
  {
    Spelled(ts);
    var l := ParseAll(ts).value;
    CatLine(l, End, One(Sym(')')));
    ItemLine(Block(l, End));
    assert SpellRedirs<W>(End, End) == End && Wrap(LineTree(l), End) == LineTree(l);
    LineIs(Final(Single(Block(l, End)), 0), Link(Sym('('), Cat(ts, One(Sym(')')))));
  }

  lemma PipeLaw<W>(a: Toks<W>, b: Toks<W>)
    requires IsItem(a) && IsPipe(b)
    ensures var all := Cat(a, Link(Sym('|'), b));
            IsPipe(all) && !IsItem(all) && Tree(all) == Pipe(Tree(a), Tree(b))
  {
    Spelled(a);
    Spelled(b);
    var item, p := ParseAll(a).value.pipe.item, ParseAll(b).value.pipe;
    ItemLine(item);
    PipeLine(p);
    PipeLine(Through(item, p));
    CatItem(item, End, Link(Sym('|'), b));
    LineIs(Final(Through(item, p), 0), Cat(a, Link(Sym('|'), b)));
  }

  lemma {:induction false} BacksMore<W>(c: Cmd<W>, k: nat, rest: Toks<W>)
    ensures Backs(c, k + 1) == Back(Backs(c, k))
    ensures Ampersands(k, Link(Sym('&'), rest)) == Ampersands(k + 1, rest)
    decreases k
  {
    if k > 0 {
      BacksMore(Back(c), k - 1, rest);
    } else {
      assert Backs(c, 1) == Backs(Back(c), 0);
      assert Ampersands(1, rest) == Link(Sym('&'), Ampersands(0, rest));
    }
  }

  /** Each `&` puts what is before it, up to the last `;`, in the background. */
  lemma BackLaw<W>(ts: Toks<W>)
    requires IsPart(ts)
    ensures var all := Cat(ts, One(Sym('&')));
            IsPart(all) && !IsPipe(all) && Tree(all) == Back(Tree(ts))
  {
    Spelled(ts);
    var l := ParseAll(ts).value;
    CatPipe(l.pipe, Ampersands(l.backs, End), One(Sym('&')));
    CatBacks<W>(l.backs, End, One(Sym('&')));
    BacksMore(PipeTree(l.pipe), l.backs, End);
    LineIs(Final(l.pipe, l.backs + 1), Cat(ts, One(Sym('&'))));
  }

  lemma ListLaw<W>(a: Toks<W>, b: Toks<W>)
    requires IsPart(a) && IsLine(b)
    ensures var all := Cat(a, Link(Sym(';'), b));
            IsLine(all) && !IsPart(all) && Tree(all) == List(Tree(a), Tree(b))
  {
    Spelled(a);
    Spelled(b);
    var l := ParseAll(a).value;
    CatPipe(l.pipe, Ampersands(l.backs, End), Link(Sym(';'), b));
    CatBacks(l.backs, End, Link(Sym(';'), b));
    LineIs(Then(l.pipe, l.backs, ParseAll(b).value), Cat(a, Link(Sym(';'), b)));
  }
}
