/** The shell's parser as written: a cursor that every parse function advances over the line, and the
    pass that ends each word with a NUL in place. */
module ShellCode {
  import opened ShellLex
  import opened ShellLaws
  import opened ShellTokens
  import opened G = ShellGrammar

  datatype Outcome = Panic(error: Error) | Parsed(cmd: Cmd<Span>)

  /** The method's outcome is what the parser on tokens gives, and the cursor is at its rest. */
  predicate Agrees(r: Outcome, spec: Parse<Span, Cmd<Span>>, ahead: Toks<Span>) {
    match spec
    case Fail(e) => r == Panic(e)
    case Done(c, rest) => r == Parsed(c) && ahead == rest
  }

  function RedirsFrom(c: Cmd<Span>, ts: Toks<Span>): Parse<Span, Cmd<Span>> {
    match ParseRedirs(ts) case Fail(e) => Fail(e) case Done(rs, rest) => Done(Wrap(c, rs), rest)
  }

  function ItemFrom(ts: Toks<Span>): Parse<Span, Cmd<Span>> {
    match ParseItem(ts) case Fail(e) => Fail(e) case Done(item, rest) => Done(ItemTree(item), rest)
  }

  function PipeFrom(ts: Toks<Span>): Parse<Span, Cmd<Span>> {
    match ParsePipe(ts) case Fail(e) => Fail(e) case Done(p, rest) => Done(PipeTree(p), rest)
  }

  function LineFrom(ts: Toks<Span>): Parse<Span, Cmd<Span>> {
    match ParseLine(ts) case Fail(e) => Fail(e) case Done(l, rest) => Done(LineTree(l), rest)
  }

  // ----- The exec node under a chain of redirections -----

  predicate Chained(c: Cmd<Span>) {
    c.Exec? || (c.Redir? && Chained(c.cmd))
  }

  function Argv(c: Cmd<Span>): seq<Span>
    requires Chained(c)
  {
    if c.Exec? then c.argv else Argv(c.cmd)
  }

  function SetArgv(c: Cmd<Span>, ws: seq<Span>): (d: Cmd<Span>)
    requires Chained(c)
    ensures Chained(d) && Argv(d) == ws
  {
    if c.Exec? then Exec(ws) else Redir(SetArgv(c.cmd, ws), c.file, c.out)
  }

  lemma {:induction false} SetTwice(c: Cmd<Span>, v: seq<Span>, ws: seq<Span>)
    requires Chained(c)
    ensures SetArgv(SetArgv(c, v), ws) == SetArgv(c, ws) && SetArgv(c, Argv(c)) == c
  {
    if c.Redir? {
      SetTwice(c.cmd, v, ws);
    }
  }

  lemma {:induction false} WrapArgv(c: Cmd<Span>, rs: Redirects<Span>, ws: seq<Span>)
    requires Chained(c)
    ensures Chained(Wrap(c, rs)) && Argv(Wrap(c, rs)) == Argv(c)
    ensures SetArgv(Wrap(c, rs), ws) == Wrap(SetArgv(c, ws), rs)
    decreases rs
  {
    if rs.Link? {
      WrapArgv(Redir(c, rs.head.file, rs.head.op != Input), rs.tail, ws);
    }
  }

  /** What is left to do for a simple command: store the words ahead in its exec node and wrap it in
      the redirections ahead. */
  function ArgsFrom(c: Cmd<Span>, argc: nat, ts: Toks<Span>): Parse<Span, Cmd<Span>>
    requires Chained(c)
  {
    match ParseArgs(ts, argc)
    case Fail(e) => Fail(e)
    case Done(args, rest) => Done(WrapArgs(SetArgv(c, Argv(c) + Words(args)), args), rest)
  }

  /** Storing a word and wrapping its redirections now, or with the rest. */
  lemma ArgsTree(c: Cmd<Span>, w: Span, rs: Redirects<Span>, args: Args<Span>)
    requires Chained(c)
    ensures var c2 := Wrap(SetArgv(c, Argv(c) + [w]), rs); var all := Link(Arg(w, rs), args);
            && Chained(c2)
            && WrapArgs(SetArgv(c, Argv(c) + Words(all)), all) == WrapArgs(SetArgv(c2, Argv(c2) + Words(args)), args)
  {
    hide Chained, Argv, SetArgv, Wrap;
    var c1 := SetArgv(c, Argv(c) + [w]);
    var ws := Argv(c) + ([w] + Words(args));
    WrapArgv(c1, rs, ws);
    SetTwice(c, Argv(c) + [w], ws);
    assert ws == Argv(Wrap(c1, rs)) + Words(args);
    assert Words(Link(Arg(w, rs), args)) == [w] + Words(args);
  }

  /** One word and the redirections after it. */
  lemma ArgsStep(c: Cmd<Span>, argc: nat, ts: Toks<Span>)
    requires Chained(c) && !AtStop(ts) && ts.head.Word? && argc + 1 < MAXARGS
    ensures var c1 := SetArgv(c, Argv(c) + [ts.head.w]);
            match RedirsFrom(c1, ts.tail)
            case Fail(e) => ArgsFrom(c, argc, ts) == Fail(e)
            case Done(c2, more) => Chained(c2) && ArgsFrom(c, argc, ts) == ArgsFrom(c2, argc + 1, more)
  {
    hide Chained, Argv, SetArgv, Wrap, WrapArgs, Words, ParseRedirs;
    var m := ParseRedirs(ts.tail);
    if m.Done? {
      var r := ParseArgs(m.rest, argc + 1);
      if r.Done? {
        ArgsTree(c, ts.head.w, m.value, r.value);
      } else {
        ArgsTree(c, ts.head.w, m.value, End);
      }
    }
  }

  lemma ArgsFail(c: Cmd<Span>, argc: nat, ts: Toks<Span>)
    requires Chained(c) && !AtStop(ts) && argc < MAXARGS
    ensures !ts.head.Word? ==> ArgsFrom(c, argc, ts) == Fail(Syntax)
    ensures ts.head.Word? && argc + 1 == MAXARGS ==> ArgsFrom(c, argc, ts) == Fail(TooManyArgs)
  {
  }

  lemma ArgsStop(c: Cmd<Span>, argc: nat, ts: Toks<Span>)
    requires Chained(c) && AtStop(ts)
    ensures ArgsFrom(c, argc, ts) == Done(c, ts)
  {
    SetTwice(c, [], []);
    assert Argv(c) + [] == Argv(c);
  }

  lemma ArgsStart(ts: Toks<Span>)
    requires !At(ts, '(')
    ensures match RedirsFrom(Exec([]), ts)
            case Fail(e) => ItemFrom(ts) == Fail(e)
            case Done(c, more) => Chained(c) && ItemFrom(ts) == ArgsFrom(c, 0, more)
  {
    var m := ParseRedirs(ts);
    if m.Done? {
      WrapArgv(Exec([]), m.value, []);
      var r := ParseArgs(m.rest, 0);
      if r.Done? {
        WrapArgv(Exec([]), m.value, Words(r.value));
        assert [] + Words(r.value) == Words(r.value);
      }
    }
  }

  // ----- The words of a command -----

  predicate WordsOk(text: string, c: Cmd<Span>) {
    match c
    case Exec(argv) => forall i :: 0 <= i < |argv| ==> IsWord(text, argv[i])
    case Redir(d, file, _) => WordsOk(text, d) && IsWord(text, file)
    case Pipe(l, r) => WordsOk(text, l) && WordsOk(text, r)
    case List(l, r) => WordsOk(text, l) && WordsOk(text, r)
    case Back(d) => WordsOk(text, d)
  }

  lemma NodeOk(text: string, c: Cmd<Span>)
    ensures c.Back? && WordsOk(text, c.cmd) ==> WordsOk(text, c)
    ensures c.List? && WordsOk(text, c.left) && WordsOk(text, c.right) ==> WordsOk(text, c)
  {
  }

  lemma EmptyExecOk(text: string)
    ensures WordsOk(text, Exec([])) && Chained(Exec([]))
  {
  }

  lemma {:induction false} SetArgvOk(text: string, c: Cmd<Span>, w: Span)
    requires Chained(c) && WordsOk(text, c) && IsWord(text, w)
    ensures WordsOk(text, SetArgv(c, Argv(c) + [w]))
  {
    if c.Redir? {
      SetArgvOk(text, c.cmd, w);
    }
  }

  /** Where nulterminate writes. */
  function Ends(c: Cmd<Span>): set<nat> {
    match c
    case Exec(argv) => set i | 0 <= i < |argv| :: argv[i].end
    case Redir(d, file, _) => Ends(d) + {file.end}
    case Pipe(l, r) => Ends(l) + Ends(r)
    case List(l, r) => Ends(l) + Ends(r)
    case Back(d) => Ends(d)
  }

  lemma {:induction false} EndsOk(text: string, c: Cmd<Span>)
    requires WordsOk(text, c)
    ensures forall k :: k in Ends(c) ==> k <= |text| && (k < |text| ==> !WordChar(text[k]))
  {
    match c
    case Exec(_) =>
    case Redir(d, _, _) => EndsOk(text, d);
    case Pipe(l, r) => EndsOk(text, l); EndsOk(text, r);
    case List(l, r) => EndsOk(text, l); EndsOk(text, r);
    case Back(d) => EndsOk(text, d);
  }

  // ----- C strings -----

  /** The characters from `i` up to the first NUL. */
  function CString(b: seq<char>, i: nat): string
    decreases |b| - i
  {
    if i < |b| && b[i] != NUL then [b[i]] + CString(b, i + 1) else ""
  }

  function CStrings(b: seq<char>, ws: seq<Span>): (r: seq<string>)
    ensures |r| == |ws| && forall i :: 0 <= i < |ws| ==> r[i] == CString(b, ws[i].start)
  {
    if ws == [] then [] else [CString(b, ws[0].start)] + CStrings(b, ws[1..])
  }

  /** The command with every word read as the C string at its pointer. */
  function CCmd(b: seq<char>, c: Cmd<Span>): Cmd<string> {
    match c
    case Exec(argv) => Exec(CStrings(b, argv))
    case Redir(d, file, out) => Redir(CCmd(b, d), CString(b, file.start), out)
    case Pipe(l, r) => Pipe(CCmd(b, l), CCmd(b, r))
    case List(l, r) => List(CCmd(b, l), CCmd(b, r))
    case Back(d) => Back(CCmd(b, d))
  }

  lemma {:induction false} CStringIs(b: seq<char>, i: nat, j: nat)
    requires i <= j < |b| && b[j] == NUL && (forall k :: i <= k < j ==> b[k] != NUL)
    ensures CString(b, i) == b[i..j]
    decreases j - i
  {
    if i < j {
      CStringIs(b, i + 1, j);
      assert b[i..j] == [b[i]] + b[i + 1..j];
    }
  }

  /** The buffer after nulterminate: NUL at the given places and the text elsewhere. */
  predicate Cut(text: string, ends: set<nat>, b: seq<char>) {
    |b| > |text| &&
    forall k :: 0 <= k < |b| ==>
      (k in ends ==> b[k] == NUL) && (k < |text| && k !in ends ==> b[k] == text[k])
  }

  lemma WordReads(text: string, ends: set<nat>, b: seq<char>, w: Span)
    requires Cut(text, ends, b) && IsWord(text, w) && w.end in ends
    requires forall k :: k in ends ==> k <= |text| && (k < |text| ==> !WordChar(text[k]))
    ensures CString(b, w.start) == Read(text, w)
  {
    forall k | w.start <= k < w.end ensures b[k] == text[k] && b[k] != NUL {
      assert WordChar(text[k]);
    }
    CStringIs(b, w.start, w.end);
    assert b[w.start..w.end] == text[w.start..w.end];
  }

  /** No write of nulterminate lands inside a word, so every word reads back whole. */
  lemma {:induction false} CmdReads(text: string, ends: set<nat>, b: seq<char>, c: Cmd<Span>)
    requires Cut(text, ends, b) && WordsOk(text, c) && Ends(c) <= ends
    requires forall k :: k in ends ==> k <= |text| && (k < |text| ==> !WordChar(text[k]))
    ensures CCmd(b, c) == ReadCmd(text, c)
  {
    match c
    case Exec(argv) =>
      forall i | 0 <= i < |argv| ensures CString(b, argv[i].start) == Read(text, argv[i]) {
        assert argv[i].end in Ends(c);
        WordReads(text, ends, b, argv[i]);
      }
      assert CStrings(b, argv) == ReadWords(text, argv);
    case Redir(d, file, _) => CmdReads(text, ends, b, d); WordReads(text, ends, b, file);
    case Pipe(l, r) => CmdReads(text, ends, b, l); CmdReads(text, ends, b, r);
    case List(l, r) => CmdReads(text, ends, b, l); CmdReads(text, ends, b, r);
    case Back(d) => CmdReads(text, ends, b, d);
  }

  // ----- The code -----

  /** The value gettoken returns. */
  function Code(t: Tok<Span>): char {
    match t case Sym(c) => c case Append => '+' case Word(_) => 'a'
  }

  /** peek's answer: the next token starts with a character of `toks`. */
  predicate StartsIn(ts: Toks<Span>, toks: string) {
    ts.Link? && (match ts.head case Sym(c) => c in toks case Append => '>' in toks case Word(_) => false)
  }

  class Parser {
    const buf: array<char>
    const es: nat
    ghost const text: string
    var ps: nat

    ghost predicate Valid()
      reads this, buf
    {
      es < buf.Length && buf[..es] == text && Clean(text) && buf[es] == NUL && ps <= es
    }

    ghost function Ahead(): Toks<Span>
      requires ps <= |text|
      reads this
    {
      Lex(text, ps)
    }

    constructor (buf: array<char>, es: nat)
      requires es < buf.Length && buf[es] == NUL && Clean(buf[..es])
      ensures Valid() && ps == 0 && this.buf == buf && this.es == es && text == buf[..es]
    {
      this.buf := buf;
      this.es := es;
      this.text := buf[..es];
      ps := 0;
    }

    method SkipBlanks(from: nat) returns (s: nat)
      requires Valid() && from <= es
      ensures s == SkipWhite(text, from)
    {
      s := from;
      while s < es && White(buf[s])
        invariant from <= s <= es && SkipWhite(text, s) == SkipWhite(text, from)
        decreases es - s
      {
        assert buf[s] == buf[..es][s];
        s := s + 1;
      }
      assert s < es ==> buf[s] == buf[..es][s];
    }

    method SkipWord(from: nat) returns (s: nat)
      requires Valid() && from <= es
      ensures s == WordEnd(text, from)
    {
      s := from;
      while s < es && !White(buf[s]) && !Symbol(buf[s])
        invariant from <= s <= es && WordEnd(text, s) == WordEnd(text, from)
        decreases es - s
      {
        assert buf[s] == buf[..es][s];
        s := s + 1;
      }
      assert s < es ==> buf[s] == buf[..es][s];
    }

    method GetToken() returns (ret: char, q: nat, eq: nat)
      requires Valid()
      modifies this`ps
      ensures Valid()
      ensures old(Ahead()).End? ==> ret == NUL && Ahead().End?
      ensures old(Ahead()).Link? ==>
                var t := old(Ahead()).head;
                Ahead() == old(Ahead()).tail && ret == Code(t) && (t.Sym? ==> Symbol(t.c)) &&
                (t.Word? ==> t.w == Span(q, eq) && IsWord(text, t.w))
    {
      hide Lex, SkipWhite, WordEnd, IsWord;
      LexStep(text, ps);
      LexEmpty(text);
      var s := SkipBlanks(ps);
      assert s < es ==> buf[s] == text[s];
      q := s;
      ret := buf[s];
      if buf[s] == NUL {
      } else if buf[s] == '>' {
        s := s + 1;
        assert s < es ==> buf[s] == text[s];
        if buf[s] == '>' {
          ret := '+';
          s := s + 1;
        }
      } else if Symbol(buf[s]) {
        s := s + 1;
      } else {
        ret := 'a';
        s := SkipWord(s);
      }
      eq := s;
      LexSkips(text, s, SkipWhite(text, s));
      ps := SkipBlanks(s);
    }

    method Peek(toks: string) returns (b: bool)
      requires Valid() && forall i :: 0 <= i < |toks| ==> Symbol(toks[i])
      modifies this`ps
      ensures Valid() && ps == SkipWhite(text, old(ps)) && Ahead() == old(Ahead())
      ensures b == StartsIn(Ahead(), toks)
    {
      LexSkips(text, ps, SkipWhite(text, ps));
      ps := SkipBlanks(ps);
      assert ps < es ==> buf[ps] == text[ps];
      SkipTwice(text, old(ps), ps);
      b := buf[ps] != NUL && buf[ps] in toks;
    }

    method Redirections(c: Cmd<Span>) returns (r: Outcome)
      requires Valid() && WordsOk(text, c)
      modifies this`ps
      ensures Valid() && Agrees(r, RedirsFrom(c, old(Ahead())), Ahead()) && Size(Ahead()) <= Size(old(Ahead()))
      ensures r.Parsed? ==> WordsOk(text, r.cmd)
    {
      hide Lex, SkipWhite, Clean, IsWord;
      var cmd := c;
      var more := Peek("<>");
      while more
        invariant Valid() && more == AtRedir(Ahead()) && WordsOk(text, cmd) && Size(Ahead()) <= Size(old(Ahead()))
        invariant RedirsFrom(cmd, Ahead()) == RedirsFrom(c, old(Ahead()))
        decreases Size(Ahead()), more
      {
        var tok, _, _ := GetToken();
        var a, q, eq := GetToken();
        if a != 'a' {
          return Panic(MissingFile);
        }
        cmd := Redir(cmd, Span(q, eq), tok != '<');
        more := Peek("<>");
      }
      r := Parsed(cmd);
    }

    method Block() returns (r: Outcome)
      requires Valid() && At(Ahead(), '(')
      modifies this`ps
      ensures Valid() && Agrees(r, ItemFrom(old(Ahead())), Ahead())
      ensures r.Parsed? ==> WordsOk(text, r.cmd)
      decreases Size(Ahead()), 0
    {
      hide Lex, SkipWhite, Clean, IsWord, ParseRedirs, ParseLine, Wrap;
      var b := Peek("(");
      var _, _, _ := GetToken();
      r := CommandLine();
      if r.Panic? {
        return;
      }
      b := Peek(")");
      if !b {
        return Panic(MissingParen);
      }
      var _, _, _ := GetToken();
      r := Redirections(r.cmd);
    }

    /** The loop of parseexec. */
    method Arguments(c: Cmd<Span>) returns (r: Outcome)
      requires Valid() && Chained(c) && WordsOk(text, c)
      modifies this`ps
      ensures Valid() && Agrees(r, ArgsFrom(c, 0, old(Ahead())), Ahead())
      ensures r.Parsed? ==> WordsOk(text, r.cmd)
    {
      hide Lex, SkipWhite, Clean, IsWord, ParseRedirs, ParseArgs, RedirsFrom, ArgsFrom, SetArgv, Argv, Chained, WordsOk;
      var ret, argc := c, 0;
      var stop := Peek("|)&;");
      while !stop
        invariant Valid() && Chained(ret) && WordsOk(text, ret) && argc < MAXARGS
        invariant stop ==> AtStop(Ahead())
        invariant !stop ==> Ahead().End? || !AtStop(Ahead())
        invariant ArgsFrom(ret, argc, Ahead()) == ArgsFrom(c, 0, old(Ahead()))
        decreases Size(Ahead()), !stop
      {
        ghost var ts := Ahead();
        var tok, q, eq := GetToken();
        if tok == NUL {
          break;
        }
        ArgsFail(ret, argc, ts);
        if tok != 'a' {
          return Panic(Syntax);
        }
        SetArgvOk(text, ret, Span(q, eq));
        var d := SetArgv(ret, Argv(ret) + [Span(q, eq)]);
        argc := argc + 1;
        if argc >= MAXARGS {
          return Panic(TooManyArgs);
        }
        ArgsStep(ret, argc - 1, ts);
        r := Redirections(d);
        if r.Panic? {
          return;
        }
        ret := r.cmd;
        stop := Peek("|)&;");
      }
      ArgsStop(ret, argc, Ahead());
      r := Parsed(ret);
    }

    method Command() returns (r: Outcome)
      requires Valid()
      modifies this`ps
      ensures Valid() && Agrees(r, ItemFrom(old(Ahead())), Ahead())
      ensures r.Parsed? ==> WordsOk(text, r.cmd)
      decreases Size(Ahead()), 1
    {
      hide Lex, SkipWhite, Clean, IsWord, ParseItem, RedirsFrom, ItemFrom, ArgsFrom, Chained, WordsOk;
      var b := Peek("(");
      if b {
        r := Block();
        return;
      }
      ArgsStart(Ahead());
      EmptyExecOk(text);
      r := Redirections(Exec([]));
      if r.Parsed? {
        r := Arguments(r.cmd);
      }
    }

    method Pipes() returns (r: Outcome)
      requires Valid()
      modifies this`ps
      ensures Valid() && Agrees(r, PipeFrom(old(Ahead())), Ahead())
      ensures r.Parsed? ==> WordsOk(text, r.cmd)
      decreases Size(Ahead()), 2
    {
      hide Lex, SkipWhite, Clean, IsWord, ParseItem, ItemTree;
      r := Command();
      if r.Panic? {
        return;
      }
      var left := r.cmd;
      var b := Peek("|");
      if b {
        var _, _, _ := GetToken();
        r := Pipes();
        if r.Panic? {
          return;
        }
        r := Parsed(Pipe(left, r.cmd));
      }
    }

    method CommandLine() returns (r: Outcome)
      requires Valid()
      modifies this`ps
      ensures Valid() && Agrees(r, LineFrom(old(Ahead())), Ahead())
      ensures r.Parsed? ==> WordsOk(text, r.cmd)
      decreases Size(Ahead()), 3
    {
      hide Lex, SkipWhite, Clean, IsWord, ParsePipe, PipeTree, WordsOk;
      r := Pipes();
      if r.Panic? {
        return;
      }
      var cmd := r.cmd;
      ghost var after := Ahead();
      var b := Peek("&");
      while b
        invariant Valid() && b == At(Ahead(), '&') && WordsOk(text, cmd)
        invariant ParseBacks(Ahead()).1 == ParseBacks(after).1 && Size(Ahead()) <= Size(after)
        invariant Backs(cmd, ParseBacks(Ahead()).0) == Backs(r.cmd, ParseBacks(after).0)
        decreases Size(Ahead()), b
      {
        var _, _, _ := GetToken();
        cmd := Back(cmd);
        assert WordsOk(text, cmd) by { NodeOk(text, cmd); }
        b := Peek("&");
      }
      b := Peek(";");
      if b {
        var _, _, _ := GetToken();
        r := CommandLine();
        if r.Panic? {
          return;
        }
        cmd := List(cmd, r.cmd);
        NodeOk(text, cmd);
      }
      r := Parsed(cmd);
    }

    method NulTerminate(c: Cmd<Span>)
      requires forall k :: k in Ends(c) ==> k < buf.Length
      modifies buf
      ensures forall k :: 0 <= k < buf.Length ==> buf[k] == if k in Ends(c) then NUL else old(buf[k])
    {
      match c {
        case Exec(argv) =>
          var i := 0;
          while i < |argv|
            invariant 0 <= i <= |argv|
            invariant forall k :: 0 <= k < buf.Length ==>
                        buf[k] == if exists j :: 0 <= j < i && argv[j].end == k then NUL else old(buf[k])
          {
            assert argv[i].end in Ends(c);
            buf[argv[i].end] := NUL;
            i := i + 1;
          }
        case Redir(d, file, _) =>
          assert Ends(d) <= Ends(c) && file.end in Ends(c);
          NulTerminate(d);
          buf[file.end] := NUL;
        case Pipe(l, r) =>
          assert Ends(l) <= Ends(c) && Ends(r) <= Ends(c);
          NulTerminate(l);
          NulTerminate(r);
        case List(l, r) =>
          assert Ends(l) <= Ends(c) && Ends(r) <= Ends(c);
          NulTerminate(l);
          NulTerminate(r);
        case Back(d) =>
          assert Ends(d) == Ends(c);
          NulTerminate(d);
      }
    }
  }

  method StrLen(buf: array<char>) returns (n: nat)
    requires NUL in buf[..]
    ensures n < buf.Length && buf[n] == NUL && Clean(buf[..n])
  {
    n := 0;
    while buf[n] != NUL
      invariant n < buf.Length && Clean(buf[..n]) && NUL in buf[n..]
      decreases buf.Length - n
    {
      assert buf[n..] == [buf[n]] + buf[n + 1..];
      n := n + 1;
    }
  }

  /** The text before the first NUL. */
  function LineText(b: seq<char>): string { CString(b, 0) }

  /** parsecmd: a panic exactly where the line is no command, and otherwise its tree, in which every word
      is now a C string: read so, it is the tree of the text's tokens.  In particular the text of any command
      gives it back. */
  method ParseCmd(buf: array<char>) returns (r: Outcome)
    requires NUL in buf[..]
    modifies buf
    ensures match ParseAll(Lex(LineText(old(buf[..])), 0))
            case Fail(e) => r == Panic(e) && buf[..] == old(buf[..])
            case Done(l, _) =>
              r == Parsed(LineTree(l)) && CCmd(buf[..], r.cmd) == ReadCmd(LineText(old(buf[..])), r.cmd)
    ensures var ts := Tokens(LineText(old(buf[..])));
            if IsLine(ts) then r.Parsed? && CCmd(buf[..], r.cmd) == Tree(ts) else r == Panic(ParseAll(ts).error)
    ensures forall c :: TreeOk(c) && WritableCmd(c) && LineText(old(buf[..])) == Render(c) ==>
              r.Parsed? && CCmd(buf[..], r.cmd) == c
  {
    var n := StrLen(buf);
    ghost var text := buf[..n];
    CStringIs(buf[..], 0, n);
    assert LineText(buf[..]) == text;
    var p := new Parser(buf, n);
    r := p.CommandLine();
    assert buf[..] == old(buf[..]);
    forall c | TreeOk(c) && WritableCmd(c) && text == Render(c)
      ensures ParseAll(Lex(text, 0)).Done? && ReadCmd(text, LineTree(ParseAll(Lex(text, 0)).value)) == c
    {
      RenderParses(c);
    }
    TextTree(text);
    if r.Panic? {
      return;
    }
    var _ := p.Peek("");
    if p.ps != p.es {
      return Panic(Leftovers);
    }
    EndsOk(text, r.cmd);
    p.NulTerminate(r.cmd);
    CmdReads(text, Ends(r.cmd), buf[..], r.cmd);
  }
}
