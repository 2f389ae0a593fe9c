/**
 * The derivation builder of main.py (generate_derivation_tree).  The chart
 * parser it calls is replaced by a deterministic builder for the fixed
 * grammar; its result is specified by validity and yield, and the grammar is
 * shown to be unambiguous, so the builder returns the only derivation.
 */
module Derivation {
  import opened Wrappers
  import opened Grammar

  /** `list(input_string)`: one single-character token per character, in order. */
  function Tokenize(s: string): (tokens: seq<string>)
    ensures |tokens| == |s|
    ensures forall i :: 0 <= i < |s| ==> tokens[i] == [s[i]]
  {
    if s == [] then [] else [[s[0]]] + Tokenize(s[1..])
  }

  /** The concatenation of a token sequence. */
  function Join(tokens: seq<string>): string
  {
    if tokens == [] then [] else tokens[0] + Join(tokens[1..])
  }

  /** Joining the tokens gives back the input string. */
  lemma {:induction false} JoinTokenize(s: string)
    ensures Join(Tokenize(s)) == s
  {
    if s != [] {
      JoinTokenize(s[1..]);
      assert Tokenize(s)[1..] == Tokenize(s[1..]);
    }
  }

  /** Every token belongs to the letter class of run nonterminal `x`. */
  predicate AllOf(tokens: seq<string>, x: Nonterminal)
  {
    forall i :: 0 <= i < |tokens| ==> Category(tokens[i]) == Some(x)
  }

  /** The length of the longest prefix of `tokens` in the letter class of `x`. */
  function RunLength(tokens: seq<string>, x: Nonterminal): (n: nat)
    ensures n <= |tokens| && AllOf(tokens[..n], x)
    ensures n < |tokens| ==> Category(tokens[n]) != Some(x)
  {
    if tokens != [] && Category(tokens[0]) == Some(x) then 1 + RunLength(tokens[1..], x) else 0
  }

  /** The right-recursive derivation of a run: x -> tok x, ..., x -> tok. */
  function Run(x: Nonterminal, tokens: seq<string>): Tree
    requires tokens != []
    decreases |tokens|
  {
    if |tokens| == 1 then Node(x, [Leaf(tokens[0])])
    else Node(x, [Leaf(tokens[0]), Run(x, tokens[1..])])
  }

  /** The start node's child for run `x`: absent when the run is empty. */
  function Segment(x: Nonterminal, tokens: seq<string>): seq<Tree>
  {
    if tokens == [] then [] else [Run(x, tokens)]
  }

  /** The start node's children for the three runs, in the order A, B, C. */
  function Segments(la: seq<string>, lb: seq<string>, lc: seq<string>): seq<Tree>
  {
    Segment(A, la) + Segment(B, lb) + Segment(C, lc)
  }

  /**
   * The deterministic builder: split the tokens into a maximal A run, then a
   * maximal B run, then a maximal C run; there is a derivation only when the
   * three runs cover every token and at least one is present.
   */
  function Parse(tokens: seq<string>): (r: Option<Tree>)
    ensures tokens == [] ==> r == None
    ensures r.Some? ==> r.value.Node? && r.value.nt == S && |r.value.children| <= 3
  {
    var na := RunLength(tokens, A);
    var nb := na + RunLength(tokens[na..], B);
    var nc := nb + RunLength(tokens[nb..], C);
    if tokens == [] || nc < |tokens| then None
    else Some(Node(S, Segments(tokens[..na], tokens[na..nb], tokens[nb..])))
  }

  /** Non-empty strings over a, A, b, B, c, C whose letter classes never go backwards. */
  predicate InLanguage(tokens: seq<string>)
  {
    && tokens != []
    && (forall i :: 0 <= i < |tokens| ==> Category(tokens[i]).Some?)
    && (forall i, j :: 0 <= i < j < |tokens| ==>
          Rank(Category(tokens[i]).value) <= Rank(Category(tokens[j]).value))
  }

  /** The leaves of a concatenation of sibling lists are the concatenation of their leaves. */
  lemma {:induction false} LeavesOfAppend(xs: seq<Tree>, ys: seq<Tree>)
    ensures LeavesOf(xs + ys) == LeavesOf(xs) + LeavesOf(ys)
    decreases |ys|
  {
    if ys != [] {
      var zs := xs + ys;
      assert zs[..|zs| - 1] == xs + ys[..|ys| - 1];
      LeavesOfAppend(xs, ys[..|ys| - 1]);
    } else {
      assert xs + ys == xs;
    }
  }

  /** The leaves of one or two siblings. */
  lemma LeavesOfSmall(u: Tree, w: Tree)
    ensures LeavesOf([u]) == Leaves(u)
    ensures LeavesOf([u, w]) == Leaves(u) + Leaves(w)
  {
    LeavesOfAppend([], [u]);
    LeavesOfAppend([u], [w]);
    assert [u, w] == [u] + [w];
  }

  /** A run tree is a valid derivation from `x` whose leaves are the run. */
  lemma {:induction false} RunSound(x: Nonterminal, tokens: seq<string>)
    requires x != S && tokens != [] && AllOf(tokens, x)
    ensures Valid(Run(x, tokens)) && Leaves(Run(x, tokens)) == tokens
    decreases |tokens|
  {
    var t := Run(x, tokens);
    LicensedRun(x, t.children);
    if |tokens| > 1 {
      var rest := tokens[1..];
      RunSound(x, rest);
      LeavesOfSmall(Leaf(tokens[0]), Run(x, rest));
    } else {
      LeavesOfSmall(Leaf(tokens[0]), Leaf(tokens[0]));
    }
  }

  /** Every valid tree rooted at a run nonterminal is the run tree of its leaves. */
  lemma {:induction false} RunCanonical(t: Tree)
    requires t.Node? && t.nt != S && Valid(t)
    ensures Leaves(t) != [] && AllOf(Leaves(t), t.nt) && t == Run(t.nt, Leaves(t))
  {
    var cs := t.children;
    LicensedRun(t.nt, cs);
    if |cs| == 1 {
      LeavesOfSmall(cs[0], cs[0]);
    } else {
      assert Valid(cs[1]);
      RunCanonical(cs[1]);
      LeavesOfSmall(cs[0], cs[1]);
      assert cs == [cs[0], cs[1]];
      var l := Leaves(t);
      assert l[1..] == Leaves(cs[1]);
    }
  }

  /** The children built for three runs form one of the start symbol's alternatives. */
  lemma SegmentsShape(la: seq<string>, lb: seq<string>, lc: seq<string>)
    requires la + lb + lc != []
    ensures StartShape(Segments(la, lb, lc))
  {
    if la != [] && lb != [] && lc != [] {
    } else if la != [] && lb != [] {
    } else if la != [] && lc != [] {
    } else if lb != [] && lc != [] {
    } else {
    }
  }

  /** The start node's children for three runs are valid and spell the runs. */
  lemma SegmentsSound(la: seq<string>, lb: seq<string>, lc: seq<string>)
    requires AllOf(la, A) && AllOf(lb, B) && AllOf(lc, C) && la + lb + lc != []
    ensures IsDerivation(Node(S, Segments(la, lb, lc)))
    ensures LeavesOf(Segments(la, lb, lc)) == la + lb + lc
  {
    var sa, sb, sc := Segment(A, la), Segment(B, lb), Segment(C, lc);
    SegmentSound(A, la);
    SegmentSound(B, lb);
    SegmentSound(C, lc);
    LeavesOfAppend(sa, sb);
    LeavesOfAppend(sa + sb, sc);
    AllValidAppend(sa, sb);
    AllValidAppend(sa + sb, sc);
    SegmentsShape(la, lb, lc);
    LicensedStart(Segments(la, lb, lc));
  }

  /** Every tree of the sibling list is valid. */
  predicate AllValid(cs: seq<Tree>)
  {
    forall i :: 0 <= i < |cs| ==> Valid(cs[i])
  }

  lemma AllValidAppend(xs: seq<Tree>, ys: seq<Tree>)
    requires AllValid(xs) && AllValid(ys)
    ensures AllValid(xs + ys)
  {
    forall i | 0 <= i < |xs + ys|
      ensures Valid((xs + ys)[i])
    {
      if i < |xs| {
        assert (xs + ys)[i] == xs[i];
      } else {
        assert (xs + ys)[i] == ys[i - |xs|];
      }
    }
  }

  /** A segment is empty or one valid run tree, and its leaves are the run. */
  lemma SegmentSound(x: Nonterminal, l: seq<string>)
    requires x != S && AllOf(l, x)
    ensures LeavesOf(Segment(x, l)) == l
    ensures AllValid(Segment(x, l))
  {
    if l != [] {
      RunSound(x, l);
      LeavesOfSmall(Run(x, l), Run(x, l));
    }
  }

  /** A maximal run is found exactly when what follows it is not of its class. */
  lemma RunLengthOf(u: seq<string>, v: seq<string>, x: Nonterminal)
    requires AllOf(u, x) && (v == [] || Category(v[0]) != Some(x))
    ensures RunLength(u + v, x) == |u|
  {
    var w := u + v;
    var n := RunLength(w, x);
    assert forall i :: 0 <= i < |u| ==> w[i] == u[i];
    assert |u| < |w| ==> w[|u|] == v[0];
    assert forall i :: 0 <= i < n ==> w[..n][i] == w[i];
  }

  /** The builder finds the three runs of a string built from them. */
  lemma ParseSegments(la: seq<string>, lb: seq<string>, lc: seq<string>)
    requires AllOf(la, A) && AllOf(lb, B) && AllOf(lc, C) && la + lb + lc != []
    ensures Parse(la + lb + lc) == Some(Node(S, Segments(la, lb, lc)))
  {
    var tokens := la + lb + lc;
    assert tokens == la + (lb + lc);
    RunLengthOf(la, lb + lc, A);
    assert tokens[|la|..] == lb + lc;
    RunLengthOf(lb, lc, B);
    assert tokens[|la| + |lb|..] == lc;
    RunLengthOf(lc, [], C);
    assert lc + [] == lc;
    assert tokens[..|la|] == la;
    assert tokens[|la|..|la| + |lb|] == lb;
  }

  /** Soundness: a built tree is a derivation of exactly the given tokens. */
  lemma ParseSound(tokens: seq<string>)
    requires Parse(tokens).Some?
    ensures IsDerivation(Parse(tokens).value) && Leaves(Parse(tokens).value) == tokens
  {
    var na := RunLength(tokens, A);
    var nb := na + RunLength(tokens[na..], B);
    var la, lb, lc := tokens[..na], tokens[na..nb], tokens[nb..];
    assert tokens[na..][..nb - na] == lb;
    assert AllOf(lc, C) by {
      assert tokens[nb..][..|lc|] == lc;
    }
    assert la + lb + lc == tokens;
    SegmentsSound(la, lb, lc);
  }

  /** Completeness and canonicity: every derivation is the one the builder returns for its leaves. */
  lemma ParseComplete(t: Tree)
    requires IsDerivation(t)
    ensures Parse(Leaves(t)) == Some(t)
  {
    var cs := t.children;
    LicensedStart(cs);
    RankAtLeastIndex(cs, |cs| - 1);
    forall i | 0 <= i < |cs|
      ensures Leaves(cs[i]) != [] && AllOf(Leaves(cs[i]), cs[i].nt) && cs[i] == Run(cs[i].nt, Leaves(cs[i]))
    {
      assert Valid(cs[i]);
      RunCanonical(cs[i]);
    }
    var la := if cs[0].nt == A then Leaves(cs[0]) else [];
    var lb := if cs[0].nt == B then Leaves(cs[0])
              else if |cs| > 1 && cs[1].nt == B then Leaves(cs[1]) else [];
    var lc := if cs[|cs| - 1].nt == C then Leaves(cs[|cs| - 1]) else [];
    assert cs == Segments(la, lb, lc) by {
      if |cs| == 3 {
      } else if |cs| == 2 {
      } else {
      }
    }
    SegmentsSound(la, lb, lc);
    ParseSegments(la, lb, lc);
    assert Leaves(t) == la + lb + lc;
  }

  /** The grammar is unambiguous: two derivations with the same leaves are the same tree. */
  lemma DerivationUnique(t1: Tree, t2: Tree)
    requires IsDerivation(t1) && IsDerivation(t2) && Leaves(t1) == Leaves(t2)
    ensures t1 == t2
  {
    ParseComplete(t1);
    ParseComplete(t2);
  }

  /** Some derivation from the start symbol has exactly these leaves. */
  ghost predicate Derivable(tokens: seq<string>)
  {
    exists t :: IsDerivation(t) && Leaves(t) == tokens
  }

  /** The builder returns None exactly when no derivation of the tokens exists. */
  lemma ParseNoneIffUnderivable(tokens: seq<string>)
    ensures Parse(tokens).Some? <==> Derivable(tokens)
  {
    if Parse(tokens).Some? {
      ParseSound(tokens);
    }
    if Derivable(tokens) {
      var t :| IsDerivation(t) && Leaves(t) == tokens;
      ParseComplete(t);
    }
  }

  /** The letter class of each token of a built derivation, by position. */
  lemma ParseRanks(tokens: seq<string>)
    requires Parse(tokens).Some?
    ensures forall i :: 0 <= i < |tokens| ==> Category(tokens[i]).Some?
    ensures forall i, j :: 0 <= i < j < |tokens| ==>
      Rank(Category(tokens[i]).value) <= Rank(Category(tokens[j]).value)
  {
    var na := RunLength(tokens, A);
    var nb := na + RunLength(tokens[na..], B);
    forall i | 0 <= i < |tokens|
      ensures Category(tokens[i]) == Some(if i < na then A else if i < nb then B else C)
    {
      if i < na {
        assert tokens[..na][i] == tokens[i];
      } else if i < nb {
        assert tokens[na..][..nb - na][i - na] == tokens[i];
      } else {
        assert tokens[nb..][..|tokens| - nb][i - nb] == tokens[i];
      }
    }
  }

  /** A string the builder cannot split into A, B and C runs breaks the class order or leaves the alphabet. */
  lemma InLanguageParses(tokens: seq<string>)
    requires InLanguage(tokens)
    ensures Parse(tokens).Some?
  {
    var na := RunLength(tokens, A);
    var nb := na + RunLength(tokens[na..], B);
    var rest := tokens[nb..];
    if nb < |tokens| {
      assert tokens[na..][nb - na] == tokens[nb];
      LateTokensAreC(tokens, na, nb);
      assert forall i :: 0 <= i < |rest| ==> rest[i] == tokens[nb + i];
    }
    RunLengthOf(rest, [], C);
    assert rest + [] == rest;
  }

  /**
   * In an ordered string, once a token outside class A is followed (at or
   * after it) by a token outside class B, every token from the latter on is of class C.
   */
  lemma LateTokensAreC(tokens: seq<string>, na: nat, nb: nat)
    requires InLanguage(tokens) && na <= nb < |tokens|
    requires Category(tokens[na]) != Some(A) && Category(tokens[nb]) != Some(B)
    ensures forall i :: nb <= i < |tokens| ==> Category(tokens[i]) == Some(C)
  {
    RanksFrom(tokens, na, 1);
    RanksFrom(tokens, nb, 2);
    forall i | nb <= i < |tokens|
      ensures Category(tokens[i]) == Some(C)
    {
      var c := Category(tokens[i]);
      assert c.Some? && c != Some(S) && Rank(c.value) >= 2;
    }
  }

  /** In an ordered string, every token from position `p` on has at least the rank of the class at `p`. */
  lemma RanksFrom(tokens: seq<string>, p: nat, r: nat)
    requires InLanguage(tokens) && p < |tokens| && Rank(Category(tokens[p]).value) >= r
    ensures forall i :: p <= i < |tokens| ==> Rank(Category(tokens[i]).value) >= r
  {
  }

  /**
   * The language of the grammar: a token sequence has a derivation exactly when
   * it is non-empty, every token is one of a, A, b, B, c, C, and no token of a
   * later class (b before a, c before a or b) comes before one of an earlier class.
   */
  lemma DerivableIffInLanguage(tokens: seq<string>)
    ensures Derivable(tokens) <==> InLanguage(tokens)
  {
    ParseNoneIffUnderivable(tokens);
    if Parse(tokens).Some? {
      ParseRanks(tokens);
    }
    if InLanguage(tokens) {
      InLanguageParses(tokens);
    }
  }

  /**
   * generate_derivation_tree: the empty string gives the bare start node without
   * consulting the grammar; any other input is split into one token per
   * character and gives its derivation, which is the only one, or None when it
   * has none.
   */
  function GenerateDerivationTree(input: string): (r: Option<Tree>)
    ensures input == "" ==> r == Some(Node(S, []))
    ensures input != "" ==> (r.Some? <==> Derivable(Tokenize(input)))
    ensures input != "" && r.Some? ==>
      IsDerivation(r.value) && Leaves(r.value) == Tokenize(input) && Join(Leaves(r.value)) == input
    ensures input != "" && r.Some? ==>
      forall t :: IsDerivation(t) && Leaves(t) == Tokenize(input) ==> t == r.value
  {
    if input == "" then Some(Node(S, []))
    else
      var tokens := Tokenize(input);
      ParseNoneIffUnderivable(tokens);
      JoinTokenize(input);
      if Parse(tokens).Some? then
        ParseSound(tokens);
        UniqueDerivationOf(Parse(tokens).value, tokens);
        Parse(tokens)
      else Parse(tokens)
  }

  lemma UniqueDerivationOf(t: Tree, tokens: seq<string>)
    requires IsDerivation(t) && Leaves(t) == tokens
    ensures forall u :: IsDerivation(u) && Leaves(u) == tokens ==> u == t
  {
    forall u | IsDerivation(u) && Leaves(u) == tokens
      ensures u == t
    {
      DerivationUnique(u, t);
    }
  }

  /**
   * The placeholder returned for the empty string is not a derivation: the
   * grammar derives no empty string, since every start alternative has a run.
   */
  lemma EmptyPlaceholderNotDerivable()
    ensures !IsDerivation(Node(S, []))
    ensures !Derivable([])
  {
    LicensedStart([]);
    DerivableIffInLanguage([]);
  }

  /** What the builder as written produces: a tree, None, or the parser's ValueError. */
  datatype Outcome = Derived(tree: Tree) | NoDerivation | CoverageError(missing: seq<string>)

  /** The tokens that are no terminal of the grammar, in input order. */
  function Uncovered(tokens: seq<string>): (missing: seq<string>)
    ensures forall tok :: tok in missing <==> tok in tokens && !IsTerminal(tok)
  {
    if tokens == [] then []
    else (if IsTerminal(tokens[0]) then [] else [tokens[0]]) + Uncovered(tokens[1..])
  }

  /** Some token is uncovered exactly when some character is outside a, A, b, B, c, C. */
  lemma UncoveredIffForeign(s: string)
    ensures Uncovered(Tokenize(s)) != [] <==> exists i :: 0 <= i < |s| && Category([s[i]]).None?
  {
    var tokens := Tokenize(s);
    var missing := Uncovered(tokens);
    if missing != [] {
      assert missing[0] in missing;
      var i :| 0 <= i < |tokens| && tokens[i] == missing[0];
      TerminalIffCategory(tokens[i]);
    }
    if exists i :: 0 <= i < |s| && Category([s[i]]).None? {
      var i :| 0 <= i < |s| && Category([s[i]]).None?;
      TerminalIffCategory(tokens[i]);
      assert tokens[i] in tokens;
      assert tokens[i] in missing;
    }
  }

  /**
   * generate_derivation_tree as written: before any parsing, the chart parser
   * checks that every token is a terminal of the grammar and raises ValueError
   * listing the ones that are not, so a character outside a, A, b, B, c, C never
   * reaches the `if not trees: return None` branch.
   */
  function GenerateAsWritten(input: string): (r: Outcome)
    ensures r.CoverageError? <==> exists i :: 0 <= i < |input| && Category([input[i]]).None?
  {
    if input == "" then Derived(Node(S, []))
    else
      var tokens := Tokenize(input);
      var missing := Uncovered(tokens);
      UncoveredIffForeign(input);
      if missing != [] then CoverageError(missing)
      else match Parse(tokens)
        case Some(t) => Derived(t)
        case None => NoDerivation
  }

  /**
   * The builder as written and the corrected builder agree on every input
   * except those with a character outside the grammar, where the one raises
   * and the other returns None.
   */
  lemma AsWrittenDiffersOnlyOnUncovered(input: string)
    ensures GenerateAsWritten(input).CoverageError? ==> GenerateDerivationTree(input).None?
    ensures GenerateAsWritten(input).Derived? ==>
      GenerateDerivationTree(input) == Some(GenerateAsWritten(input).tree)
    ensures GenerateAsWritten(input).NoDerivation? <==>
      !GenerateAsWritten(input).CoverageError? && GenerateDerivationTree(input).None?
  {
    if GenerateAsWritten(input).CoverageError? {
      var i :| 0 <= i < |input| && Category([input[i]]).None?;
      var tokens := Tokenize(input);
      DerivableIffInLanguage(tokens);
      assert !InLanguage(tokens) by {
        assert Category(tokens[i]).None?;
      }
    }
  }

  /** "x": the builder as written raises on the token; the corrected builder returns None. */
  lemma UncoveredInputRaises()
    ensures GenerateAsWritten("x") == CoverageError(["x"])
    ensures GenerateDerivationTree("x") == None
  {
    assert Tokenize("x") == ["x"];
    assert !IsTerminal("x") by {
      TerminalIffCategory("x");
    }
    assert Uncovered(["x"]) == ["x"] by {
      assert ["x"][1..] == [];
    }
    AsWrittenDiffersOnlyOnUncovered("x");
  }
}
