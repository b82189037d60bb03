/** What the tokens of a text are, stated on the text: one law for each way a text can begin.  Together they
    determine the tokens of every text. */
module ShellTokens {
  import opened ShellGrammar
  import opened ShellLex
  import opened ShellLaws

  function Tokens(text: string): Toks<string> { ReadToks(text, Lex(text, 0)) }

  // ----- Tokens do not depend on what is before them -----

  lemma {:induction false} SkipBehind(p: string, t: string, i: nat)
    requires i <= |t|
    ensures SkipWhite(p + t, |p| + i) == |p| + SkipWhite(t, i)
    decreases |t| - i
  {
    if i < |t| {
      assert (p + t)[|p| + i] == t[i];
      if White(t[i]) {
        SkipBehind(p, t, i + 1);
      }
    }
  }

  lemma {:induction false} EndBehind(p: string, t: string, i: nat)
    requires i <= |t|
    ensures WordEnd(p + t, |p| + i) == |p| + WordEnd(t, i)
    decreases |t| - i
  {
    if i < |t| {
      assert (p + t)[|p| + i] == t[i];
      if !White(t[i]) && !Symbol(t[i]) {
        EndBehind(p, t, i + 1);
      }
    }
  }

  lemma SliceBehind(p: string, t: string, i: nat, j: nat)
    requires i <= j <= |t|
    ensures (p + t)[|p| + i..|p| + j] == t[i..j]
  {
  }

  lemma LexIs(text: string, i: nat)
    requires i <= |text|
    ensures var j := SkipWhite(text, i);
            Lex(text, i) ==
            if j == |text| then End
            else if text[j] == '>' && j + 1 < |text| && text[j + 1] == '>' then Link(Append, Lex(text, j + 2))
            else if Symbol(text[j]) then Link(Sym(text[j]), Lex(text, j + 1))
            else Link(Word(Span(j, WordEnd(text, j))), Lex(text, WordEnd(text, j)))
  {
  }

  lemma NotEmpty(text: string, j: nat)
    requires j < |text| && !White(text[j]) && !Symbol(text[j])
    ensures j < WordEnd(text, j)
  {
  }

  lemma {:induction false} LexBehind(p: string, t: string, i: nat)
    requires i <= |t|
    ensures ReadToks(p + t, Lex(p + t, |p| + i)) == ReadToks(t, Lex(t, i))
    decreases |t| - i
  {
    hide White, Symbol, Lex, SkipWhite, WordEnd;
    var all, j := p + t, SkipWhite(t, i);
    SkipBehind(p, t, i);
    LexIs(t, i);
    LexIs(all, |p| + i);
    if j < |t| {
      assert all[|p| + j] == t[j] && (j + 1 < |t| ==> all[|p| + j + 1] == t[j + 1]);
      if t[j] == '>' && j + 1 < |t| && t[j + 1] == '>' {
        LexBehind(p, t, j + 2);
      } else if Symbol(t[j]) {
        LexBehind(p, t, j + 1);
      } else {
        var e := WordEnd(t, j);
        NotEmpty(t, j);
        EndBehind(p, t, j);
        SliceBehind(p, t, j, e);
        LexBehind(p, t, e);
      }
    }
  }

  // ----- The laws -----

  lemma EmptyText()
    ensures Tokens("") == End
  {
  }

  /** Blank, tab, return, newline and vertical tab do not count. */
  lemma WhiteLaw(c: char, t: string)
    requires c == ' ' || c == '\t' || c == '\r' || c == '\n' || c == 11 as char
    ensures Tokens([c] + t) == Tokens(t)
  {
    hide Lex;
    var all := [c] + t;
    assert SkipWhite(all, 0) == SkipWhite(all, 1);
    LexSkips(all, 0, 1);
    LexBehind([c], t, 0);
  }

  predicate IsSymbol(c: char) { c == '<' || c == '|' || c == '>' || c == '&' || c == ';' || c == '(' || c == ')' }

  /** A symbol is a token, also without a blank behind it. */
  lemma SymbolLaw(c: char, t: string)
    requires IsSymbol(c) && !(c == '>' && t != "" && t[0] == '>')
    ensures Tokens([c] + t) == Link(Sym(c), Tokens(t))
  {
    var all := [c] + t;
    assert SkipWhite(all, 0) == 0;
    assert t != "" ==> all[1] == t[0];
    assert Lex(all, 0) == Link(Sym(c), Lex(all, 1));
    LexBehind([c], t, 0);
  }

  lemma AppendLaw(t: string)
    ensures Tokens(">>" + t) == Link(Append, Tokens(t))
  {
    var all := ">>" + t;
    LexAppend(all, 0);
    LexBehind(">>", t, 0);
  }

  predicate InWord(c: char) {
    !IsSymbol(c) && c != ' ' && c != '\t' && c != '\r' && c != '\n' && c != 11 as char
  }

  lemma {:induction false} WholeWord(w: string, t: string, i: nat)
    requires i <= |w| && (forall k :: 0 <= k < |w| ==> InWord(w[k])) && (t == "" || !InWord(t[0]))
    ensures WordEnd(w + t, i) == |w|
    decreases |w| - i
  {
    if i < |w| {
      assert (w + t)[i] == w[i];
      WholeWord(w, t, i + 1);
    } else if t != "" {
      assert (w + t)[i] == t[0];
    }
  }

  /** Everything else, up to the next of these characters, is one word. */
  lemma TextLaw(w: string, t: string)
    requires w != "" && (forall k :: 0 <= k < |w| ==> InWord(w[k])) && (t == "" || !InWord(t[0]))
    ensures Tokens(w + t) == Link(Word(w), Tokens(t))
  {
    var all := w + t;
    WholeWord(w, t, 0);
    assert all[0] == w[0] && SkipWhite(all, 0) == 0;
    assert all[0..|w|] == w;
    assert Lex(all, 0) == Link(Word(Span(0, |w|)), Lex(all, |w|));
    LexBehind(w, t, 0);
  }

  // ----- The tree of a text -----

  /** Whether the text is a command line, and its tree, depend only on its tokens. */
  lemma TextTree(text: string)
    ensures IsLine(Lex(text, 0)) <==> IsLine(Tokens(text))
    ensures IsLine(Lex(text, 0)) ==> ReadCmd(text, Tree(Lex(text, 0))) == Tree(Tokens(text))
    ensures !IsLine(Lex(text, 0)) ==> ParseAll(Tokens(text)) == Fail(ParseAll(Lex(text, 0)).error)
  {
    hide Lex, ParseLine, LineTree, ReadCmd, ReadLine;
    var ts := Lex(text, 0);
    LineRead(text, ts);
    var r := ParseLine(ts);
    if r.Done? {
      LineTreeRead(text, r.value);
    }
  }
}
