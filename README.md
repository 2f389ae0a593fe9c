# cfg_visualizer: the derivation builder and the tree-to-graph walk

cfg_visualizer (`main.py`) reads a string and builds its derivation tree under a
fixed context-free grammar:

    S -> A B C | A B | A C | B C | A | B | C
    A -> 'a' A | 'A' A | 'a' | 'A'      (B and C likewise, with b/B and c/C)

It then turns the tree into a graphviz `Digraph`, with one node statement per
tree node or leaf and one edge statement per parent-to-child link, and renders
that graph to a PNG file.

This project models that core in Dafny. It has four modules:

- `Wrappers` (`wrappers.dfy`): `Option`, the model of Python's `None`.
- `Grammar` (`grammar.dfy`):
  - the productions, listed per nonterminal in source order;
  - derivation trees (`Node(nt, children)` / `Leaf(tok)`);
  - `Valid`: every internal node is licensed by one production;
  - `Leaves`: the yield of a tree;
  - a characterisation of each nonterminal's productions.
- `Derivation` (`derivation.dfy`):
  - `generate_derivation_tree`: the empty-string shortcut and the tokenisation into one-character tokens;
  - a deterministic builder that stands in for nltk's chart parser. It is proved sound, complete and canonical. The grammar is proved unambiguous, so `trees[0]` is the only derivation.
  - the language of the grammar;
  - the builder as written, which raises on foreign characters (see Findings).
- `Graph` (`graph.dfy`):
  - `Digraph` as a class whose methods append node and edge statements;
  - `add_nodes`, as a recursive method plus the method for its `for child in node` loop, proved against specification functions (`Decls`, `Edges`);
  - `tree_to_graphviz` and the None guard of `render_tree_to_image`;
  - the shape of the model's node and edge statements, whose node ids are
    positions in the pre-order:
    - one node statement per node and per leaf, the k-th with id k and the label of the k-th subtree in pre-order;
    - edge statements = node statements − 1;
    - no edge statement enters id 0, the root;
    - the j-th edge statement enters id j + 1 and leaves the id of the position
      whose i-th child slot, for some i, is position j + 1.

  These are statements about ids that are positions. The source's ids come from
  Python's `id()`, which may give equal leaf strings one id (see Left out), so
  the graph the source actually draws can merge such leaves.

## Model

| member | source | states |
|---|---|---|
| Grammar.Alternatives | main.py:9-12 | the right-hand sides of a nonterminal, in the order listed: seven for S, four for each of A, B, C; their shapes are stated by `Grammar.StartProduction` and `Grammar.RunProduction` |
| Grammar.Valid | main.py:9-12 | a tree is a derivation when every internal node is licensed by a production; a licensed node has one to three children (`Grammar.LicensedRun` and `Grammar.LicensedStart` give the node shapes) |
| Grammar.Leaves | main.py:9-12 | the yield of a tree; a derivation yields at least one token, since no production is empty |
| Grammar.Category | main.py:10-12 | the letter class of a token: A for a/A, B for b/B, C for c/C; never the start symbol |
| Grammar.CategoryIsUnitProduction | main.py:10-12 | a token is in class x exactly when `x -> tok` is a production of the grammar |
| Grammar.TerminalIffCategory | main.py:9-12 | the terminals of the grammar are exactly the six letters a, A, b, B, c, C |
| Grammar.RunProduction | main.py:10-12 | every production of A, B or C is one token of its class, optionally followed by the same nonterminal |
| Grammar.StartProduction | main.py:9 | every production of S lists one to three run nonterminals, in the order A, B, C, none repeated |
| Grammar.LicensedRun | main.py:10-12 | a node for A, B or C is licensed by a production if and only if it has the run shape (both directions) |
| Grammar.LicensedStart | main.py:9 | a node for S is licensed if and only if its children are one or more run nodes in strictly increasing A, B, C order (both directions) |
| Grammar.RankAtLeastIndex | main.py:9 | in a start node the i-th child's class ranks at least i, so a start node has at most three children |
| Derivation.Tokenize | main.py:19 | `list(input_string)`: one token per character, in order, each the one-character string of that character |
| Derivation.JoinTokenize | main.py:19 | joining the tokens gives back the input |
| Derivation.RunLength | main.py:10-12 | the builder's run length is the maximal prefix of one letter class: all of that prefix is in the class, and the next token (if any) is not |
| Derivation.RunSound | main.py:10-12 | the right-recursive run tree for a non-empty run of one class is valid and its leaves are the run |
| Derivation.RunCanonical | main.py:10-12 | every valid tree rooted at A, B or C is the run tree of its own leaves, all of which are in its class |
| Derivation.SegmentsShape | main.py:9 | the start node built from up to three runs has one of the seven shapes of S |
| Derivation.SegmentsSound | main.py:9-12 | the start node built from runs of A, B and C letters (not all empty) is a derivation whose leaves are those runs concatenated |
| Derivation.ParseSegments | main.py:20 | the builder splits a concatenation of an A run, a B run and a C run into exactly those runs |
| Derivation.Parse | main.py:18-25 | the builder standing in for `parser.parse` and `trees[0]`: no tree for no tokens; a tree is an S node with at most three children. `Derivation.ParseSound`, `Derivation.ParseComplete` and `Derivation.ParseNoneIffUnderivable` state what it returns |
| Derivation.ParseSound | main.py:20-25 | a tree the builder returns is a derivation from S whose leaves are the input tokens |
| Derivation.ParseComplete | main.py:20-25 | for every derivation from S, the builder returns exactly that tree on its leaves |
| Derivation.DerivationUnique | main.py:25 | the grammar is unambiguous: two derivations from S with the same leaves are equal, so `trees[0]` is the only tree |
| Derivation.ParseNoneIffUnderivable | main.py:20-23 | the builder returns None exactly when no derivation of the tokens exists |
| Derivation.ParseRanks | main.py:9-12 | every token of a built derivation is one of the six letters, and the classes never go back (no b/B before a/A, no c/C before a/A or b/B) |
| Derivation.InLanguageParses | main.py:9-12 | conversely, every non-empty token sequence over the six letters with classes in order is built into a tree |
| Derivation.DerivableIffInLanguage | main.py:9-12 | the language of the grammar: a derivation exists exactly when the tokens are non-empty, all among a, A, b, B, c, C, and in class order |
| Derivation.GenerateDerivationTree | main.py:15-25 | "" gives `Tree('S', [])`; other input gives a tree exactly when the tokens have a derivation; that tree is valid, spells the input, and is the only derivation with those leaves |
| Derivation.EmptyPlaceholderNotDerivable | main.py:16-17 | the tree returned for "" is not a derivation; the grammar derives no empty string |
| Derivation.Uncovered | main.py:20 | the tokens the grammar does not cover are exactly the input tokens that are no terminal of the grammar |
| Derivation.UncoveredIffForeign | main.py:19-20 | some token is uncovered exactly when some character is outside a, A, b, B, c, C |
| Derivation.GenerateAsWritten | main.py:15-25 | the function as written raises the coverage error exactly when some character is outside the six letters |
| Derivation.AsWrittenDiffersOnlyOnUncovered | main.py:15-25 | the as-written and corrected builders agree except on foreign characters, where the first raises and the second returns None |
| Derivation.UncoveredInputRaises | main.py:18-23 | on "x" the function as written raises listing "x", where the corrected builder returns None |
| Graph.Digraph.constructor | main.py:30 | a new Digraph holds no node and no edge statements |
| Graph.Digraph.AddNode | main.py:36 | `dot.node(id, label)` appends one node statement and leaves the edges alone |
| Graph.Digraph.AddEdge | main.py:39 | `dot.edge(tail, head)` appends one edge statement and leaves the nodes alone |
| Graph.Label | main.py:35 | `node.label()` for a tree node, a one-letter nonterminal name; the token itself for a leaf. `Graph.DeclsArePreorder` places each label on its node statement |
| Graph.Preorder | main.py:41-43 | the pre-order of a tree has one entry per node and leaf, starting with the tree itself |
| Graph.Decls | main.py:33-43 | the walk declares one node per tree node and per leaf |
| Graph.Below | main.py:38-43 | the walk emits one edge fewer than there are nodes below and including the subtree's root |
| Graph.LinksCount | main.py:38-43 | a tree has exactly one parent-to-child link fewer than it has nodes and leaves |
| Graph.SizeSplits | main.py:33-36 | the number of node statements is the number of internal nodes plus the number of leaves |
| Graph.DeclsArePreorder | main.py:34-43 | the k-th node statement declares the k-th subtree in pre-order, labelled with its nonterminal name or its token |
| Graph.BelowLinks | main.py:38-43 | the j-th edge below a node enters the node declared (j+1)-th and leaves an earlier position p of the subtree's pre-order, where position j + 1 is the i-th child slot of p: it lies `SizeOf` of the first i children past p and holds p's i-th child |
| Graph.EdgesOfLinks | main.py:38-43 | the j-th edge for a child list enters the j-th node declared for it, and leaves either the common parent, when position j starts the i-th child, or an earlier position of the list's pre-order of which position j is the i-th child slot |
| Graph.BelowLastLinks | main.py:41-43 | the edges below the last child keep their child slots, shifted by the size of the children before it |
| Graph.EdgesEnterChildren | main.py:33-45 | for a whole tree, the j-th edge statement enters id j + 1 (never the root) and leaves an earlier id of which position j + 1 is a child slot |
| Graph.WalkShape | main.py:33-45 | for a whole tree: node statements = internal nodes + leaves, the k-th with id k and the label of the k-th subtree in pre-order; edges = links = nodes − 1; the j-th edge statement enters id j + 1 (never the root) from an earlier id of which position j + 1 is a child slot |
| Graph.AddNodes | main.py:33-43 | add_nodes appends exactly the node statements and the edge statements the specification functions give for the subtree |
| Graph.AddChildren | main.py:41-43 | the child loop appends the statements for the children in stored order, each child under the given parent |
| Graph.TreeToGraphviz | main.py:27-46 | None gives None; a tree gives a fresh Digraph holding the whole walk's statements |
| Graph.RenderTreeToImage | main.py:48-53 | the file name, by default "derivation_tree.png", is returned either way; nothing is rendered for None; otherwise the rendered graph is the walk's statements |

## Left out

- nltk's chart parser (main.py:18, 20) is not modelled step by step. A deterministic builder for this grammar takes its place. The builder's result is pinned down by validity, yield and uniqueness, so it is the only tree the chart parser could return first.
- Graphviz layout, the `rankdir` attribute and PNG writing (main.py:31, 52) are left out. The Digraph is modelled only as its node and edge statements. `Graph.RenderTreeToImage` returns the statements it would hand to the renderer, in place of writing a file.
- The unused `PIL` import (main.py:5) is not modelled.
- The flet user interface (main.py:56-122) is not modelled. This includes the grammar text it displays, which differs from the real grammar. One behaviour there: its `if tree:` tests an nltk `Tree`, which is a list. So the tree returned for "" is falsy, and the interface reports "no valid derivation" for the empty string even though `generate_derivation_tree` returns a tree.
- Node ids: the source names nodes by `id(...)`. The model gives each declared node a fresh id, its position among the node statements. In CPython, equal one-character leaf strings may share an `id()`, and the source then draws them as one node. The model makes no claim about the source's ids being distinct.
- `if parent:` (main.py:38) tests the truth value of the parent `Tree`. The parent always has the child being visited, so the test is true exactly when a parent was passed. The model tests for `Some`.
- The `for child in node` loop of add_nodes (main.py:42-43) is a method of its own, `Graph.AddChildren`, and `add_nodes`'s recursion goes through it. Each call appends what the inline loop would.

## Findings

| source | as written | input that shows it | evidently intended | confidence | as-written member | corrected member |
|---|---|---|---|---|---|---|
| main.py:18-23 | `parser.parse(input_tokens)` first checks that the grammar covers every token, and raises ValueError for a character outside a, A, b, B, c, C | "x" (any input with such a character) | return None, as `if not trees: return None` does for other strings without a derivation | medium; not executed; depends on nltk's coverage check | Derivation.GenerateAsWritten, Derivation.UncoveredInputRaises | Derivation.GenerateDerivationTree |

The as-written builder differs from the corrected one only on such inputs, as `Derivation.AsWrittenDiffersOnlyOnUncovered` shows. The rest of the model uses the corrected builder, which returns None whenever no derivation exists.
