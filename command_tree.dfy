/**
 * The search engine of the command tree: the match tests and the depth-first searches, run
 * step by step over a parent's children with local result lists, as the source does, and
 * each proved equal to its reference definition in SearchSpec.
 */
module CommandTree {
  import opened Wrappers
  import opened Nodes
  import opened SearchSpec
  import SearchProperties

  /** Compares the component with the key, then with each alias in declaration order. */
  method IsNodeMatch(comparison: KeyComparison, node: Node, component: string) returns (matched: bool)
    ensures matched == NodeMatches(comparison, node, component)
  {
    if comparison(component, node.key) {
      return true;
    }
    var i := 0;
    while i < |node.aliases|
      invariant 0 <= i <= |node.aliases|
      invariant forall j :: 0 <= j < i ==> !comparison(component, node.aliases[j])
    {
      if comparison(component, node.aliases[i]) {
        return true;
      }
      i := i + 1;
    }
    return false;
  }

  /** Advances its own copy of the splitter and compares the component it reaches. */
  method IsNodeMatchSplit(comparison: KeyComparison, node: Node, enumerator: SplitEnumerator) returns (matched: bool)
    ensures matched <==> enumerator.consumed < |enumerator.items|
                         && NodeMatches(comparison, node, enumerator.items[enumerator.consumed])
  {
    var (ok, copy) := enumerator.MoveNext();
    if !ok {
      return false;
    }
    matched := IsNodeMatch(comparison, node, copy.Current());
  }

  /** Advances its own copy of the tokenizer; only a plain value token can match. */
  method IsNodeMatchToken(comparison: KeyComparison, node: Node, tokenizer: TokenizingEnumerator) returns (matched: bool)
    ensures matched <==> tokenizer.consumed < |tokenizer.items|
                         && tokenizer.items[tokenizer.consumed].tokenType == Value
                         && NodeMatches(comparison, node, tokenizer.items[tokenizer.consumed].value)
  {
    var (ok, copy) := tokenizer.MoveNext();
    if !ok {
      return false;
    }
    if copy.Current().tokenType != Value {
      return false;
    }
    matched := IsNodeMatch(comparison, node, copy.Current().value);
  }

  /** Depth-first search of a parent's children for a pre-split command path. */
  method DepthFirstPath(comparison: KeyComparison, children: seq<Node>, path: seq<string>) returns (found: seq<Node>)
    ensures found == ListSearch(comparison, children, path)
    decreases children
  {
    if |path| < 1 {
      return [];
    }
    found := [];
    var i := 0;
    while i < |children|
      invariant 0 <= i <= |children|
      invariant found == ListSearch(comparison, children[..i], path)
    {
      var child := children[i];
      SearchProperties.ListSearchAppend(comparison, children[..i], child, path);
      assert children[..i + 1] == children[..i] + [child];
      var matched := IsNodeMatch(comparison, child, path[0]);
      if matched {
        match child {
          case Command(_, _, _) =>
            found := found + [child];
          case Group(_, _, nested) =>
            var nestedResults := DepthFirstPath(comparison, nested, path[1..]);
            found := found + nestedResults;
        }
      }
      i := i + 1;
    }
    assert children[..i] == children;
  }

  /**
   * Depth-first search driven by the splitter, as written: a matched group moves the
   * loop's enumerator forward, and it stays there for the remaining siblings.
   */
  method DepthFirstSplitAsWritten(comparison: KeyComparison, children: seq<Node>, enumerator: SplitEnumerator) returns (found: seq<Node>)
    ensures found == SplitSearchAsWritten(comparison, children, enumerator)
    decreases children
  {
    var e := enumerator;
    found := [];
    var i := 0;
    while i < |children|
      invariant 0 <= i <= |children|
      invariant found + SplitSearchAsWritten(comparison, children[i..], e)
                == SplitSearchAsWritten(comparison, children, enumerator)
    {
      var child := children[i];
      assert children[i..][0] == child && children[i..][1..] == children[i + 1..];
      ghost var before, current := found, e;
      ghost var piece: seq<Node> := [];
      var matched := IsNodeMatchSplit(comparison, child, e);
      if matched {
        match child {
          case Command(_, _, _) =>
            found := found + [child];
            piece := [child];
          case Group(_, _, nested) =>
            var (ok, next) := e.MoveNext();
            if !ok {
              // No more components: unreachable, since the copy in IsNodeMatchSplit just advanced.
              assert false;
              return found;
            }
            e := next;
            var nestedResults := DepthFirstSplitAsWritten(comparison, nested, e);
            found := found + nestedResults;
            piece := nestedResults;
        }
      }
      assert SplitSearchAsWritten(comparison, children[i..], current) == piece + SplitSearchAsWritten(comparison, children[i + 1..], e);
      SearchProperties.Regroup(before, piece, SplitSearchAsWritten(comparison, children[i + 1..], e));
      i := i + 1;
    }
  }

  /** Depth-first search driven by the splitter, recursing into a matched group on an advanced copy. */
  method DepthFirstSplit(comparison: KeyComparison, children: seq<Node>, enumerator: SplitEnumerator) returns (found: seq<Node>)
    ensures found == SplitSearch(comparison, children, enumerator)
    decreases children
  {
    found := [];
    var i := 0;
    while i < |children|
      invariant 0 <= i <= |children|
      invariant found + SplitSearch(comparison, children[i..], enumerator)
                == SplitSearch(comparison, children, enumerator)
    {
      var child := children[i];
      assert children[i..][0] == child && children[i..][1..] == children[i + 1..];
      ghost var before := found;
      ghost var piece: seq<Node> := [];
      var matched := IsNodeMatchSplit(comparison, child, enumerator);
      if matched {
        match child {
          case Command(_, _, _) =>
            found := found + [child];
            piece := [child];
          case Group(_, _, nested) =>
            var (ok, next) := enumerator.MoveNext();
            if !ok {
              assert false;
              return found;
            }
            var nestedResults := DepthFirstSplit(comparison, nested, next);
            found := found + nestedResults;
            piece := nestedResults;
        }
      }
      assert SplitSearch(comparison, children[i..], enumerator) == piece + SplitSearch(comparison, children[i + 1..], enumerator);
      SearchProperties.Regroup(before, piece, SplitSearch(comparison, children[i + 1..], enumerator));
      i := i + 1;
    }
  }

  /**
   * Depth-first search driven by the tokenizer, as written: each matched command is bound
   * with the loop's tokenizer state and dropped when binding fails; a matched group moves
   * the loop's tokenizer forward for the remaining siblings.
   */
  method DepthFirstTokensAsWritten<B>(comparison: KeyComparison, bind: TokenBinder<B>, children: seq<Node>, tokenizer: TokenizingEnumerator)
    returns (bound: seq<B>)
    ensures bound == TokenSearchAsWritten(comparison, bind, children, tokenizer)
    decreases children
  {
    var e := tokenizer;
    bound := [];
    var i := 0;
    while i < |children|
      invariant 0 <= i <= |children|
      invariant bound + TokenSearchAsWritten(comparison, bind, children[i..], e)
                == TokenSearchAsWritten(comparison, bind, children, tokenizer)
    {
      var child := children[i];
      assert children[i..][0] == child && children[i..][1..] == children[i + 1..];
      ghost var before, current := bound, e;
      ghost var piece: seq<B> := [];
      var matched := IsNodeMatchToken(comparison, child, e);
      if matched {
        match child {
          case Command(_, _, _) =>
            var shape := bind(child, e);
            if shape.Some? {
              bound := bound + [shape.value];
              piece := [shape.value];
            }
          case Group(_, _, nested) =>
            var (ok, next) := e.MoveNext();
            if !ok {
              assert false;
              return bound;
            }
            e := next;
            var nestedResults := DepthFirstTokensAsWritten(comparison, bind, nested, e);
            bound := bound + nestedResults;
            piece := nestedResults;
        }
      }
      assert TokenSearchAsWritten(comparison, bind, children[i..], current) == piece + TokenSearchAsWritten(comparison, bind, children[i + 1..], e);
      SearchProperties.Regroup(before, piece, TokenSearchAsWritten(comparison, bind, children[i + 1..], e));
      i := i + 1;
    }
  }

  /** Depth-first search driven by the tokenizer, recursing into a matched group on an advanced copy. */
  method DepthFirstTokens<B>(comparison: KeyComparison, bind: TokenBinder<B>, children: seq<Node>, tokenizer: TokenizingEnumerator)
    returns (bound: seq<B>)
    ensures bound == TokenSearch(comparison, bind, children, tokenizer)
    decreases children
  {
    bound := [];
    var i := 0;
    while i < |children|
      invariant 0 <= i <= |children|
      invariant bound + TokenSearch(comparison, bind, children[i..], tokenizer)
                == TokenSearch(comparison, bind, children, tokenizer)
    {
      var child := children[i];
      assert children[i..][0] == child && children[i..][1..] == children[i + 1..];
      ghost var before := bound;
      ghost var piece: seq<B> := [];
      var matched := IsNodeMatchToken(comparison, child, tokenizer);
      if matched {
        match child {
          case Command(_, _, _) =>
            var shape := bind(child, tokenizer);
            if shape.Some? {
              bound := bound + [shape.value];
              piece := [shape.value];
            }
          case Group(_, _, nested) =>
            var (ok, next) := tokenizer.MoveNext();
            if !ok {
              assert false;
              return bound;
            }
            var nestedResults := DepthFirstTokens(comparison, bind, nested, next);
            bound := bound + nestedResults;
            piece := nestedResults;
        }
      }
      assert TokenSearch(comparison, bind, children[i..], tokenizer) == piece + TokenSearch(comparison, bind, children[i + 1..], tokenizer);
      SearchProperties.Regroup(before, piece, TokenSearch(comparison, bind, children[i + 1..], tokenizer));
      i := i + 1;
    }
  }

  /**
   * Search(commandString): tokenizes the raw command string (the tokens are given here) and
   * searches from the root. The result is every command reached through the leading value
   * tokens whose bind succeeds, in depth-first declaration order; each binder is handed the
   * tokenizer stepped over the command's group path, sitting on the command's own name.
   */
  method Search<B>(comparison: KeyComparison, bind: TokenBinder<B>, tree: Tree, tokens: seq<Token>)
    returns (bound: seq<B>)
    ensures bound == BindCandidates(bind, TokenCandidates(comparison, tree.root.children, Cursor(tokens, 0)))
    ensures |bound| <= |TokenCandidates(comparison, tree.root.children, Cursor(tokens, 0))|
    ensures CandidateNodes(TokenCandidates(comparison, tree.root.children, Cursor(tokens, 0)))
            == ListSearch(comparison, tree.root.children, ValuePrefix(tokens))
    ensures forall candidate :: candidate in TokenCandidates(comparison, tree.root.children, Cursor(tokens, 0)) ==>
      candidate.1.items == tokens && TokenMatches(comparison, candidate.0, candidate.1)
      && exists route :: SearchProperties.IsRoute(comparison, tree.root.children, ValuePrefix(tokens), route)
                         && route[|route| - 1] == candidate.0 && |route| == candidate.1.consumed + 1
  {
    var tokenizer := Cursor(tokens, 0);
    bound := DepthFirstTokens(comparison, bind, tree.root.children, tokenizer);
    SearchProperties.TokenSearchBindsCandidates(comparison, bind, tree.root.children, tokenizer);
    SearchProperties.TokenSearchBoundedByCandidates(comparison, bind, tree.root.children, tokenizer);
    assert tokens[0..] == tokens;
    SearchProperties.TokenCandidatesFollowValuePrefix(comparison, tree.root.children, tokenizer);
    forall candidate | candidate in TokenCandidates(comparison, tree.root.children, tokenizer)
      ensures candidate.1.items == tokens && TokenMatches(comparison, candidate.0, candidate.1)
      ensures exists route :: SearchProperties.IsRoute(comparison, tree.root.children, ValuePrefix(tokens), route)
                              && route[|route| - 1] == candidate.0 && |route| == candidate.1.consumed + 1
    {
      SearchProperties.TokenCandidateStates(comparison, tree.root.children, tokenizer, candidate.0, candidate.1);
    }
  }

  /**
   * Search(commandNameString, namedParameters): splits the command name (the components are
   * given here), finds the commands on that path and keeps those that bind to the named
   * parameters. Splitting first gives the same commands as the pre-split path form.
   */
  method SearchByName<B>(comparison: KeyComparison, bind: NamedBinder<B>, tree: Tree,
                         components: seq<string>, namedParameters: NamedParameters)
    returns (bound: seq<B>)
    ensures bound == BindNamed(bind, namedParameters, ListSearch(comparison, tree.root.children, components))
    ensures forall b :: b in bound <==>
      exists c :: c in ListSearch(comparison, tree.root.children, components) && bind(c, namedParameters) == Some(b)
  {
    var enumerator := Cursor(components, 0);
    var matchingNodes := DepthFirstSplit(comparison, tree.root.children, enumerator);
    assert components[0..] == components;
    SearchProperties.SplitSearchIsListSearch(comparison, tree.root.children, enumerator);
    bound := BindNamed(bind, namedParameters, matchingNodes);
    forall b ensures b in bound <==> exists c :: c in matchingNodes && bind(c, namedParameters) == Some(b) {
      SearchProperties.NamedBindingFilters(bind, namedParameters, matchingNodes, b);
    }
  }

  /**
   * Search(commandPath, namedParameters): finds the commands on the pre-split path and keeps,
   * in order, those that bind to the named parameters.
   */
  method SearchByPath<B>(comparison: KeyComparison, bind: NamedBinder<B>, tree: Tree,
                         commandPath: seq<string>, namedParameters: NamedParameters)
    returns (bound: seq<B>)
    ensures bound == BindNamed(bind, namedParameters, ListSearch(comparison, tree.root.children, commandPath))
    ensures |bound| <= |ListSearch(comparison, tree.root.children, commandPath)|
    ensures forall b :: b in bound <==>
      exists c :: c in ListSearch(comparison, tree.root.children, commandPath) && bind(c, namedParameters) == Some(b)
  {
    var matchingNodes := DepthFirstPath(comparison, tree.root.children, commandPath);
    bound := BindNamed(bind, namedParameters, matchingNodes);
    SearchProperties.NamedBindingCount(bind, namedParameters, matchingNodes);
    forall b ensures b in bound <==> exists c :: c in matchingNodes && bind(c, namedParameters) == Some(b) {
      SearchProperties.NamedBindingFilters(bind, namedParameters, matchingNodes, b);
    }
  }
}
