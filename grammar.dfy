/**
 * The fixed context-free grammar of main.py and the derivation trees over it.
 *
 *   S -> A B C | A B | A C | B C | A | B | C
 *   A -> 'a' A | 'A' A | 'a' | 'A'
 *   B -> 'b' B | 'B' B | 'b' | 'B'
 *   C -> 'c' C | 'C' C | 'c' | 'C'
 */
module Grammar {
  import opened Wrappers

  datatype Nonterminal = S | A | B | C

  /** The printed name of a nonterminal, as a tree label shows it. */
  function Name(x: Nonterminal): string
  {
    match x
    case S => "S"
    case A => "A"
    case B => "B"
    case C => "C"
  }

  /** A grammar symbol: a nonterminal or a quoted terminal token. */
  datatype Symbol = NT(nt: Nonterminal) | T(tok: string)

  /**
   * The right-hand sides of `x`'s productions, in the order the grammar lists
   * them: seven for S and four for each run nonterminal.
   */
  function Alternatives(x: Nonterminal): (r: seq<seq<Symbol>>)
    ensures |r| == if x == S then 7 else 4
  {
    match x
    case S => [[NT(A), NT(B), NT(C)], [NT(A), NT(B)], [NT(A), NT(C)], [NT(B), NT(C)],
               [NT(A)], [NT(B)], [NT(C)]]
    case A => [[T("a"), NT(A)], [T("A"), NT(A)], [T("a")], [T("A")]]
    case B => [[T("b"), NT(B)], [T("B"), NT(B)], [T("b")], [T("B")]]
    case C => [[T("c"), NT(C)], [T("C"), NT(C)], [T("c")], [T("C")]]
  }

  /**
   * A derivation tree: an internal node with a nonterminal label and ordered
   * children, or a leaf holding one input token.
   */
  datatype Tree = Node(nt: Nonterminal, children: seq<Tree>) | Leaf(tok: string)

  /** The grammar symbol a subtree stands for in its parent's production. */
  function SymbolOf(t: Tree): Symbol
  {
    match t
    case Node(x, _) => NT(x)
    case Leaf(tok) => T(tok)
  }

  /** The children spell out the right-hand side `rhs`, symbol by symbol. */
  predicate Matches(cs: seq<Tree>, rhs: seq<Symbol>)
  {
    |cs| == |rhs| && forall i :: 0 <= i < |cs| ==> SymbolOf(cs[i]) == rhs[i]
  }

  /** Some production of `x` licenses a node labelled `x` with children `cs`. */
  predicate Licensed(x: Nonterminal, cs: seq<Tree>)
  {
    exists rhs :: rhs in Alternatives(x) && Matches(cs, rhs)
  }

  /**
   * Every internal node of `t` is licensed by one production; so a valid
   * internal node has one to three children.
   */
  predicate Valid(t: Tree)
    ensures Valid(t) && t.Node? ==> 1 <= |t.children| <= 3
  {
    match t
    case Leaf(_) => true
    case Node(x, cs) => Licensed(x, cs) && forall i :: 0 <= i < |cs| ==> Valid(cs[i])
  }

  /** A complete derivation: a valid tree rooted at the start symbol. */
  predicate IsDerivation(t: Tree)
  {
    t.Node? && t.nt == S && Valid(t)
  }

  /** The tokens at the leaves of `t`, read left to right; a valid tree has at least one. */
  function Leaves(t: Tree): (r: seq<string>)
    ensures Valid(t) ==> r != []
    decreases t, 1
  {
    match t
    case Leaf(tok) => [tok]
    case Node(_, cs) => LeavesOf(cs)
  }

  function LeavesOf(cs: seq<Tree>): (r: seq<string>)
    ensures cs != [] && Valid(cs[|cs| - 1]) ==> r != []
    decreases cs, 0
  {
    if cs == [] then [] else LeavesOf(cs[..|cs| - 1]) + Leaves(cs[|cs| - 1])
  }

  /** The run nonterminal (A, B or C) whose one-token production derives `tok`. */
  function Category(tok: string): (c: Option<Nonterminal>)
    ensures c != Some(S)
  {
    if |tok| != 1 then None
    else match tok[0]
      case 'a' => Some(A)
      case 'A' => Some(A)
      case 'b' => Some(B)
      case 'B' => Some(B)
      case 'c' => Some(C)
      case 'C' => Some(C)
      case _ => None
  }

  /** Position of a run nonterminal in the start symbol's alternatives. */
  function Rank(x: Nonterminal): nat
  {
    match x
    case S => 3
    case A => 0
    case B => 1
    case C => 2
  }

  /** `tok` occurs as a terminal somewhere in the grammar. */
  predicate IsTerminal(tok: string)
  {
    exists x, rhs, i :: rhs in Alternatives(x) && 0 <= i < |rhs| && rhs[i] == T(tok)
  }

  /** Category agrees with the one-token productions of the grammar. */
  lemma CategoryIsUnitProduction(tok: string, x: Nonterminal)
    ensures Category(tok) == Some(x) <==> [T(tok)] in Alternatives(x)
  {
    if [T(tok)] in Alternatives(x) {
      RunProduction(x, [T(tok)]);
    }
    if Category(tok) == Some(x) {
      assert tok == [tok[0]];
      assert Alternatives(x)[UnitIndex(tok[0])] == [T(tok)];
    }
  }

  /** The grammar's terminals are exactly the tokens Category classifies. */
  lemma TerminalIffCategory(tok: string)
    ensures IsTerminal(tok) <==> Category(tok).Some?
  {
    if IsTerminal(tok) {
      TerminalCategorised(tok);
    }
    if Category(tok).Some? {
      CategorisedTerminal(tok);
    }
  }

  lemma TerminalCategorised(tok: string)
    requires IsTerminal(tok)
    ensures Category(tok).Some?
  {
    var x: Nonterminal, rhs: seq<Symbol>, i: int :| rhs in Alternatives(x) && 0 <= i < |rhs| && rhs[i] == T(tok);
    if x == S {
      StartProduction(rhs);
      assert false;
    } else {
      RunProduction(x, rhs);
      assert i == 0;
      assert rhs[0].tok == tok;
    }
  }

  lemma CategorisedTerminal(tok: string)
    requires Category(tok).Some?
    ensures IsTerminal(tok)
  {
    assert tok == [tok[0]];
    var x := Category(tok).value;
    assert Alternatives(x)[UnitIndex(tok[0])][0] == T(tok);
  }

  /** Index in its nonterminal's alternatives of the one-token production for letter `ch`. */
  function UnitIndex(ch: char): nat
  {
    if ch == 'a' || ch == 'b' || ch == 'c' then 2 else 3
  }

  /**
   * A run node (A, B or C): one token of its letter class, optionally followed
   * by a node of the same run.
   */
  predicate RunShape(x: Nonterminal, cs: seq<Tree>)
  {
    && (|cs| == 1 || (|cs| == 2 && cs[1].Node? && cs[1].nt == x))
    && cs[0].Leaf? && Category(cs[0].tok) == Some(x)
  }

  /**
   * A start node: one or more run nodes whose nonterminals appear in the
   * order A, B, C, each at most once.
   */
  predicate StartShape(cs: seq<Tree>)
  {
    && 1 <= |cs|
    && (forall i :: 0 <= i < |cs| ==> cs[i].Node? && cs[i].nt != S)
    && (forall i, j :: 0 <= i < j < |cs| ==> Rank(cs[i].nt) < Rank(cs[j].nt))
  }

  /** Every production of a run nonterminal has a run shape. */
  lemma RunProduction(x: Nonterminal, rhs: seq<Symbol>)
    requires x != S && rhs in Alternatives(x)
    ensures |rhs| == 1 || (|rhs| == 2 && rhs[1] == NT(x))
    ensures rhs[0].T? && Category(rhs[0].tok) == Some(x)
  {
  }

  /** Every production of the start symbol lists run nonterminals in rank order. */
  lemma StartProduction(rhs: seq<Symbol>)
    requires rhs in Alternatives(S)
    ensures 1 <= |rhs|
    ensures forall i :: 0 <= i < |rhs| ==> rhs[i].NT? && rhs[i].nt != S
    ensures forall i, j :: 0 <= i < j < |rhs| ==> Rank(rhs[i].nt) < Rank(rhs[j].nt)
  {
  }

  /** The productions of A, B and C are exactly the run shapes. */
  lemma {:induction false} LicensedRun(x: Nonterminal, cs: seq<Tree>)
    requires x != S
    ensures Licensed(x, cs) <==> RunShape(x, cs)
  {
    if Licensed(x, cs) {
      var rhs: seq<Symbol> :| rhs in Alternatives(x) && Matches(cs, rhs);
      RunProduction(x, rhs);
      assert SymbolOf(cs[0]) == rhs[0];
      assert |cs| == 2 ==> SymbolOf(cs[1]) == rhs[1];
    }
    if RunShape(x, cs) {
      var tok := cs[0].tok;
      assert tok == [tok[0]];
      var k := if |cs| == 1 then UnitIndex(tok[0]) else UnitIndex(tok[0]) - 2;
      assert Matches(cs, Alternatives(x)[k]);
    }
  }

  /** The start symbol's productions are exactly the start shapes. */
  lemma {:induction false} LicensedStart(cs: seq<Tree>)
    ensures Licensed(S, cs) <==> StartShape(cs)
  {
    if Licensed(S, cs) {
      var rhs: seq<Symbol> :| rhs in Alternatives(S) && Matches(cs, rhs);
      StartProduction(rhs);
      forall i | 0 <= i < |cs|
        ensures cs[i].Node? && cs[i].nt == rhs[i].nt
      {
        assert SymbolOf(cs[i]) == rhs[i];
      }
    }
    if StartShape(cs) {
      RankAtLeastIndex(cs, |cs| - 1);
      var rhs := Alternatives(S)[StartIndex(cs)];
      forall i | 0 <= i < |cs|
        ensures SymbolOf(cs[i]) == rhs[i]
      {
      }
      assert rhs in Alternatives(S) && Matches(cs, rhs);
    }
  }

  /** Ranks strictly increase along a start shape, so the i-th child has rank at least i. */
  lemma RankAtLeastIndex(cs: seq<Tree>, i: nat)
    requires StartShape(cs) && i < |cs|
    ensures Rank(cs[i].nt) >= i
  {
    if i > 0 {
      RankAtLeastIndex(cs, i - 1);
    }
  }

  /** Index in the start symbol's alternatives of the one whose symbols are the labels of `cs`. */
  function StartIndex(cs: seq<Tree>): nat
    requires StartShape(cs) && |cs| <= 3
  {
    if |cs| == 3 then 0
    else if |cs| == 2 then (if cs[0].nt == A then (if cs[1].nt == B then 1 else 2) else 3)
    else (if cs[0].nt == A then 4 else if cs[0].nt == B then 5 else 6)
  }
}
