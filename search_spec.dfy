/**
 * Reference definitions of what the depth-first searches of the command tree return.
 * Each function walks a parent's children in declaration order: the head child's
 * contribution comes first, then that of the remaining siblings.
 */
module SearchSpec {
  import opened Wrappers
  import opened Nodes

  /** A child matches a component when the component equals its key or one of its aliases. */
  predicate NodeMatches(comparison: KeyComparison, node: Node, component: string)
  {
    comparison(component, node.key)
    || exists i :: 0 <= i < |node.aliases| && comparison(component, node.aliases[i])
  }

  /** The splitter's next component exists and matches the node. */
  predicate SplitMatches(comparison: KeyComparison, node: Node, e: SplitEnumerator)
  {
    e.consumed < |e.items| && NodeMatches(comparison, node, e.items[e.consumed])
  }

  /** The tokenizer's next token exists, is a plain value, and matches the node. */
  predicate TokenMatches(comparison: KeyComparison, node: Node, e: TokenizingEnumerator)
  {
    e.consumed < |e.items|
    && e.items[e.consumed].tokenType == Value
    && NodeMatches(comparison, node, e.items[e.consumed].value)
  }

  /**
   * The commands found below `children` for a pre-split path: each child's contribution in
   * declaration order, and nothing at all for an empty path.
   */
  function ListSearch(comparison: KeyComparison, children: seq<Node>, path: seq<string>): seq<Node>
    decreases children
  {
    if |path| == 0 || children == [] then []
    else ChildSearch(comparison, children[0], path) + ListSearch(comparison, children[1..], path)
  }

  /** One child's contribution: a matching command itself, a matching group searched with the rest of the path. */
  function ChildSearch(comparison: KeyComparison, child: Node, path: seq<string>): seq<Node>
    requires 0 < |path|
    decreases child
  {
    if !NodeMatches(comparison, child, path[0]) then []
    else if child.Command? then [child]
    else ListSearch(comparison, child.children, path[1..])
  }

  /**
   * The split-string search as the source runs it: a matched group advances the loop's own
   * enumerator, so the siblings examined after that group see the following component.
   */
  function SplitSearchAsWritten(comparison: KeyComparison, children: seq<Node>, e: SplitEnumerator): (found: seq<Node>)
    ensures forall n :: n in found ==> n.Command?
    decreases children
  {
    if children == [] then []
    else
      var child := children[0];
      if !SplitMatches(comparison, child, e) then SplitSearchAsWritten(comparison, children[1..], e)
      else if child.Command? then [child] + SplitSearchAsWritten(comparison, children[1..], e)
      else
        var advanced := e.MoveNext().1;
        SplitSearchAsWritten(comparison, child.children, advanced)
          + SplitSearchAsWritten(comparison, children[1..], advanced)
  }

  /** The split-string search with a matched group searched on an advanced copy. */
  function SplitSearch(comparison: KeyComparison, children: seq<Node>, e: SplitEnumerator): (found: seq<Node>)
    ensures forall n :: n in found ==> n.Command?
    decreases children
  {
    if children == [] then []
    else
      var child := children[0];
      if !SplitMatches(comparison, child, e) then SplitSearch(comparison, children[1..], e)
      else if child.Command? then [child] + SplitSearch(comparison, children[1..], e)
      else
        SplitSearch(comparison, child.children, e.MoveNext().1)
          + SplitSearch(comparison, children[1..], e)
  }

  /** What a binder is given for the tokenized search: the command and the enumerator state. */
  type TokenBinder<B> = (Node, TokenizingEnumerator) -> Option<B>

  /** The named-parameter binder: the command and the named parameters of the call. */
  type NamedBinder<B> = (Node, NamedParameters) -> Option<B>

  /** The tokenized search as the source runs it (same enumerator sharing as the split form). */
  function TokenSearchAsWritten<B>(comparison: KeyComparison, bind: TokenBinder<B>, children: seq<Node>, e: TokenizingEnumerator): seq<B>
    decreases children
  {
    if children == [] then []
    else
      var child := children[0];
      if !TokenMatches(comparison, child, e) then TokenSearchAsWritten(comparison, bind, children[1..], e)
      else if child.Command? then
        (match bind(child, e) case Some(b) => [b] case None => [])
          + TokenSearchAsWritten(comparison, bind, children[1..], e)
      else
        var advanced := e.MoveNext().1;
        TokenSearchAsWritten(comparison, bind, child.children, advanced)
          + TokenSearchAsWritten(comparison, bind, children[1..], advanced)
  }

  /** The tokenized search with a matched group searched on an advanced copy. */
  function TokenSearch<B>(comparison: KeyComparison, bind: TokenBinder<B>, children: seq<Node>, e: TokenizingEnumerator): seq<B>
    decreases children
  {
    if children == [] then []
    else
      var child := children[0];
      if !TokenMatches(comparison, child, e) then TokenSearch(comparison, bind, children[1..], e)
      else if child.Command? then
        (match bind(child, e) case Some(b) => [b] case None => [])
          + TokenSearch(comparison, bind, children[1..], e)
      else
        TokenSearch(comparison, bind, child.children, e.MoveNext().1)
          + TokenSearch(comparison, bind, children[1..], e)
  }

  /**
   * The commands the tokenized search reaches before binding, each with the enumerator
   * state its binder would be given.
   */
  function TokenCandidates(comparison: KeyComparison, children: seq<Node>, e: TokenizingEnumerator): (found: seq<(Node, TokenizingEnumerator)>)
    ensures forall c :: c in found ==> c.0.Command?
    decreases children
  {
    if children == [] then []
    else
      var child := children[0];
      if !TokenMatches(comparison, child, e) then TokenCandidates(comparison, children[1..], e)
      else if child.Command? then [(child, e)] + TokenCandidates(comparison, children[1..], e)
      else
        TokenCandidates(comparison, child.children, e.MoveNext().1)
          + TokenCandidates(comparison, children[1..], e)
  }

  function CandidateNodes(candidates: seq<(Node, TokenizingEnumerator)>): (nodes: seq<Node>)
    ensures |nodes| == |candidates|
    ensures forall i :: 0 <= i < |nodes| ==> nodes[i] == candidates[i].0
  {
    if candidates == [] then [] else [candidates[0].0] + CandidateNodes(candidates[1..])
  }

  /** The leading run of plain value tokens, as text: the only part a tree path can match. */
  function ValuePrefix(tokens: seq<Token>): (path: seq<string>)
    ensures |path| <= |tokens|
    ensures forall i :: 0 <= i < |path| ==> tokens[i].tokenType == Value && path[i] == tokens[i].value
  {
    if tokens == [] || tokens[0].tokenType != Value then []
    else [tokens[0].value] + ValuePrefix(tokens[1..])
  }

  /** Applies `f` to each element in order and keeps the successful results. */
  function FilterMap<X, B>(f: X -> Option<B>, xs: seq<X>): seq<B>
  {
    if xs == [] then []
    else (match f(xs[0]) case Some(b) => [b] case None => []) + FilterMap(f, xs[1..])
  }

  /** The binder applied to each candidate with the enumerator state it was reached with. */
  function BindCandidates<B>(bind: TokenBinder<B>, candidates: seq<(Node, TokenizingEnumerator)>): seq<B>
  {
    FilterMap((c: (Node, TokenizingEnumerator)) => bind(c.0, c.1), candidates)
  }

  /** The named-parameter entry points' pipeline: bind every match, keep the successes. */
  function BindNamed<B>(bind: NamedBinder<B>, namedParameters: NamedParameters, commands: seq<Node>): seq<B>
  {
    FilterMap((c: Node) => bind(c, namedParameters), commands)
  }
}
