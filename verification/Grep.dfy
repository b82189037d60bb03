/** grep's matcher, against what its regular expressions mean. */
module Grep {

  // ----- Meaning -----

  datatype Atom = One(c: char) | Star(c: char)

  /** What follows an optional `^`: atoms, and whether a final `$` demands the end of the text. */
  datatype Pattern = Pattern(atoms: seq<Atom>, end: bool)

  /** `c*` repeats `c`, a `$` that is all there is left stands for the end, anything else for itself. */
  function PatternOf(re: string): Pattern {
    if re == "" then Pattern([], false)
    else if |re| >= 2 && re[1] == '*' then
      var p := PatternOf(re[2..]);
      p.(atoms := [Star(re[0])] + p.atoms)
    else if re == "$" then Pattern([], true)
    else
      var p := PatternOf(re[1..]);
      p.(atoms := [One(re[0])] + p.atoms)
  }

  predicate Fits(c: char, x: char) { c == '.' || c == x }

  ghost predicate AllFit(c: char, text: string, i: nat, j: nat) {
    i <= j <= |text| && forall m :: i <= m < j ==> Fits(c, text[m])
  }

  /** The atoms describe exactly the characters from `i` up to `k`. */
  ghost predicate Spans(atoms: seq<Atom>, text: string, i: nat, k: nat)
    decreases |atoms|
  {
    i <= k <= |text| &&
    if atoms == [] then i == k
    else
      match atoms[0]
      case One(c) => i < k && Fits(c, text[i]) && Spans(atoms[1..], text, i + 1, k)
      case Star(c) => exists j: nat :: AllFit(c, text, i, j) && Spans(atoms[1..], text, j, k)
  }

  /** The pattern describes some stretch of the text that starts at `i`. */
  ghost predicate HoldsAt(p: Pattern, text: string, i: nat) {
    exists k: nat :: Spans(p.atoms, text, i, k) && (p.end ==> k == |text|)
  }

  /** The text contains what the expression describes, at its start if the expression begins with `^`. */
  ghost predicate Describes(re: string, text: string) {
    if re != "" && re[0] == '^' then HoldsAt(PatternOf(re[1..]), text, 0)
    else exists i: nat :: i <= |text| && HoldsAt(PatternOf(re), text, i)
  }

  // ----- One atom at a time -----

  lemma HoldsNothing(p: Pattern, text: string, i: nat)
    requires p.atoms == [] && i <= |text|
    ensures HoldsAt(p, text, i) <==> (p.end ==> i == |text|)
  {
    assert Spans([], text, i, i);
  }

  lemma HoldsOne(p: Pattern, c: char, text: string, i: nat)
    requires i <= |text|
    ensures HoldsAt(p.(atoms := [One(c)] + p.atoms), text, i) <==>
            i < |text| && Fits(c, text[i]) && HoldsAt(p, text, i + 1)
  {
    var q := p.(atoms := [One(c)] + p.atoms);
    assert q.atoms[1..] == p.atoms;
    if HoldsAt(q, text, i) {
      var k: nat :| Spans(q.atoms, text, i, k) && (q.end ==> k == |text|);
      assert Spans(p.atoms, text, i + 1, k);
    }
    if i < |text| && Fits(c, text[i]) && HoldsAt(p, text, i + 1) {
      var k: nat :| Spans(p.atoms, text, i + 1, k) && (p.end ==> k == |text|);
      assert Spans(q.atoms, text, i, k);
    }
  }

  lemma HoldsStar(p: Pattern, c: char, text: string, i: nat)
    requires i <= |text|
    ensures HoldsAt(p.(atoms := [Star(c)] + p.atoms), text, i) <==>
            exists j: nat :: AllFit(c, text, i, j) && HoldsAt(p, text, j)
  {
    var q := p.(atoms := [Star(c)] + p.atoms);
    assert q.atoms[1..] == p.atoms;
    if HoldsAt(q, text, i) {
      var k: nat :| Spans(q.atoms, text, i, k) && (q.end ==> k == |text|);
      var j: nat :| AllFit(c, text, i, j) && Spans(p.atoms, text, j, k);
      assert HoldsAt(p, text, j);
    }
    if exists j: nat :: AllFit(c, text, i, j) && HoldsAt(p, text, j) {
      var j: nat :| AllFit(c, text, i, j) && HoldsAt(p, text, j);
      var k: nat :| Spans(p.atoms, text, j, k) && (p.end ==> k == |text|);
      assert Spans(q.atoms, text, i, k);
    }
  }

  // ----- What expressions mean, in terms of the text -----

  predicate Plain(w: string) { forall i :: 0 <= i < |w| ==> w[i] !in "*$^" }

  /** `s` is the word `w`, any character standing where `w` has a dot. */
  predicate Like(w: string, s: string) {
    |s| == |w| && forall i :: 0 <= i < |w| ==> w[i] == '.' || s[i] == w[i]
  }

  predicate LikeAt(w: string, text: string, i: nat) {
    i + |w| <= |text| && Like(w, text[i..i + |w|])
  }

  predicate AllOf(c: char, text: string, i: nat, j: nat) {
    i <= j <= |text| && forall m :: i <= m < j ==> c == '.' || text[m] == c
  }

  lemma LikeStep(w: string, text: string, i: nat)
    requires w != ""
    ensures LikeAt(w, text, i) <==> i < |text| && (w[0] == '.' || text[i] == w[0]) && LikeAt(w[1..], text, i + 1)
  {
    if i + |w| <= |text| {
      var s := text[i..i + |w|];
      assert s[1..] == text[i + 1..i + 1 + |w[1..]|];
      assert LikeAt(w[1..], text, i + 1) <==> Like(w[1..], s[1..]);
    }
  }

  lemma LikeNothing(text: string, i: nat)
    requires i <= |text|
    ensures LikeAt("", text, i)
  {
  }

  /** A word and then another expression. */
  lemma {:induction false} WordThen(w: string, re: string, text: string, i: nat)
    requires Plain(w) && i <= |text| && (re != "" ==> re[0] != '*')
    ensures HoldsAt(PatternOf(w + re), text, i) <==> LikeAt(w, text, i) && HoldsAt(PatternOf(re), text, i + |w|)
    decreases |w|
  {
    hide HoldsAt, LikeAt;
    if w == "" {
      assert w + re == re;
      LikeNothing(text, i);
    } else {
      var all := w + re;
      assert all[1..] == w[1..] + re;
      HoldsOne(PatternOf(w[1..] + re), w[0], text, i);
      LikeStep(w, text, i);
      if i < |text| {
        WordThen(w[1..], re, text, i + 1);
      }
    }
  }

  lemma EndAt(text: string, i: nat)
    requires i <= |text|
    ensures HoldsAt(PatternOf(""), text, i)
    ensures HoldsAt(PatternOf("$"), text, i) <==> i == |text|
  {
    HoldsNothing(PatternOf(""), text, i);
    HoldsNothing(PatternOf("$"), text, i);
  }

  /** A word is found exactly where it occurs: anywhere, at the start after `^`, at the end before `$`. */
  lemma WordLaw(w: string, text: string)
    requires Plain(w)
    ensures Describes(w, text) <==> exists i: nat :: LikeAt(w, text, i)
    ensures Describes("^" + w, text) <==> LikeAt(w, text, 0)
    ensures Describes(w + "$", text) <==> |w| <= |text| && LikeAt(w, text, |text| - |w|)
    ensures Describes("^" + w + "$", text) <==> Like(w, text)
  {
    hide HoldsAt, PatternOf;
    assert w + "" == w && ("^" + w)[1..] == w && ("^" + w + "$")[1..] == w + "$";
    assert |w| == |text| ==> text[0..|w|] == text;
    forall i: nat | i <= |text|
      ensures HoldsAt(PatternOf(w), text, i) <==> LikeAt(w, text, i)
      ensures HoldsAt(PatternOf(w + "$"), text, i) <==> LikeAt(w, text, i) && i + |w| == |text|
    {
      WordThen(w, "", text, i);
      WordThen(w, "$", text, i);
      if LikeAt(w, text, i) { EndAt(text, i + |w|); }
    }
  }

  /** A word at the end. */
  lemma WordEnds(v: string, text: string, j: nat)
    requires Plain(v) && j <= |text|
    ensures HoldsAt(PatternOf(v + "$"), text, j) <==> Like(v, text[j..])
  {
    hide HoldsAt, PatternOf;
    WordThen(v, "$", text, j);
    if LikeAt(v, text, j) { EndAt(text, j + |v|); }
    assert j + |v| == |text| ==> text[j..j + |v|] == text[j..];
  }

  lemma StarHere(c: char, re: string, text: string, i: nat)
    requires i <= |text|
    ensures HoldsAt(PatternOf([c, '*'] + re), text, i) <==>
            exists j: nat :: AllOf(c, text, i, j) && HoldsAt(PatternOf(re), text, j)
  {
    hide HoldsAt;
    assert ([c, '*'] + re)[2..] == re;
    HoldsStar(PatternOf(re), c, text, i);
    forall j: nat ensures AllFit(c, text, i, j) <==> AllOf(c, text, i, j) {}
  }

  /** `c*` between two words stands for any number of `c`. */
  lemma StarLaw(w: string, c: char, v: string, text: string)
    requires Plain(w) && Plain(v) && c != '*'
    ensures Describes("^" + w + [c, '*'] + v + "$", text) <==>
            exists j: nat :: LikeAt(w, text, 0) && AllOf(c, text, |w|, j) && Like(v, text[j..])
  {
    hide HoldsAt, PatternOf, Like;
    var rest := v + "$";
    var all := "^" + w + [c, '*'] + v + "$";
    assert all[1..] == w + ([c, '*'] + rest);
    WordThen(w, [c, '*'] + rest, text, 0);
    if LikeAt(w, text, 0) {
      StarHere(c, rest, text, |w|);
    }
    forall j: nat | j <= |text| ensures HoldsAt(PatternOf(rest), text, j) <==> Like(v, text[j..]) {
      WordEnds(v, text, j);
    }
  }

  // ----- The code -----

  /** matchhere: the expression at the start of the text from `i` on. */
  method MatchHere(re: string, text: string, i: nat) returns (m: bool)
    requires i <= |text|
    ensures m <==> HoldsAt(PatternOf(re), text, i)
    decreases |re|, 0
  {
    hide HoldsAt;
    if re == "" {
      HoldsNothing(PatternOf(re), text, i);
      return true;
    }
    if |re| >= 2 && re[1] == '*' {
      m := MatchStar(re[0], re[2..], text, i);
      HoldsStar(PatternOf(re[2..]), re[0], text, i);
      return;
    }
    if re == "$" {
      HoldsNothing(PatternOf(re), text, i);
      return i == |text|;
    }
    HoldsOne(PatternOf(re[1..]), re[0], text, i);
    if i < |text| && (re[0] == '.' || re[0] == text[i]) {
      m := MatchHere(re[1..], text, i + 1);
      return;
    }
    m := false;
  }

  /** matchstar: some number of `c`, then the expression. */
  method MatchStar(c: char, re: string, text: string, i: nat) returns (m: bool)
    requires i <= |text|
    ensures m <==> exists j: nat :: AllFit(c, text, i, j) && HoldsAt(PatternOf(re), text, j)
    decreases |re|, 1
  {
    hide HoldsAt;
    var j := i;
    while true
      invariant i <= j <= |text| && AllFit(c, text, i, j)
      invariant forall k: nat :: i <= k < j ==> !HoldsAt(PatternOf(re), text, k)
      decreases |text| - j
    {
      m := MatchHere(re, text, j);
      if m {
        return;
      }
      if j == |text| || !(text[j] == c || c == '.') {
        return;
      }
      j := j + 1;
    }
  }

  /** match: anywhere, or at the start after `^`. */
  method Match(re: string, text: string) returns (m: bool)
    ensures m <==> Describes(re, text)
  {
    hide HoldsAt;
    if re != "" && re[0] == '^' {
      m := MatchHere(re[1..], text, 0);
      return;
    }
    var i := 0;
    while true
      invariant i <= |text| && forall k: nat :: k < i ==> !HoldsAt(PatternOf(re), text, k)
      decreases |text| - i
    {
      m := MatchHere(re, text, i);
      if m {
        return;
      }
      if i == |text| {
        return;
      }
      i := i + 1;
    }
  }
}
