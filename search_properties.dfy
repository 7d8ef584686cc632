/**
 * What the searches promise: the list search returns exactly the commands at the end of a
 * matching route, in depth-first declaration order; the split and tokenized searches are
 * the list search over their components; binding only filters the candidates.
 */
module SearchProperties {
  import opened Wrappers
  import opened Nodes
  import opened SearchSpec

  // ---------------------------------------------------------------------------------------
  // Matching

  /** Under ordinal comparison a component matches exactly its node's key and aliases. */
  lemma OrdinalMatchIsKeyOrAlias(node: Node, component: string)
    ensures NodeMatches(Ordinal, node, component) <==> component == node.key || component in node.aliases
  {
  }

  /**
   * Once a node matched, stepping the same enumerator state succeeds and lands on the
   * matched component: the "no more tokens" exits after a group match are never taken.
   */
  lemma MatchedGroupCanAdvance(comparison: KeyComparison, node: Node, e: SplitEnumerator, t: TokenizingEnumerator)
    ensures SplitMatches(comparison, node, e) ==>
      e.MoveNext().0 && NodeMatches(comparison, node, e.MoveNext().1.Current())
    ensures TokenMatches(comparison, node, t) ==>
      t.MoveNext().0 && t.MoveNext().1.Current().tokenType == Value
      && NodeMatches(comparison, node, t.MoveNext().1.Current().value)
  {
  }

  /**
   * Regroups a loop's results so far, one child's contribution and the rest of the search:
   * stated once here, the loops of the enumerator-driven searches verify at a stable cost.
   */
  lemma Regroup<T>(a: seq<T>, b: seq<T>, c: seq<T>)
    ensures (a + b) + c == a + (b + c)
  {
  }

  // ---------------------------------------------------------------------------------------
  // The list-path search

  /**
   * A route for `path` below `roots`: a chain of groups, each a child of the one before,
   * ending in a command, with the j-th node matching the j-th component. The route may be
   * shorter than the path.
   */
  predicate ParentOf(parent: Node, child: Node)
  {
    parent.Group? && child in parent.children
  }

  ghost predicate IsRoute(comparison: KeyComparison, roots: seq<Node>, path: seq<string>, route: seq<Node>)
  {
    0 < |route| <= |path|
    && route[0] in roots
    && (forall j :: 0 <= j < |route| - 1 ==> ParentOf(route[j], route[j + 1]))
    && route[|route| - 1].Command?
    && (forall j :: 0 <= j < |route| ==> NodeMatches(comparison, route[j], path[j]))
  }

  /** The list search returns command nodes only: a group is never a result. */
  lemma {:induction false} ListSearchFindsOnlyCommands(comparison: KeyComparison, roots: seq<Node>, path: seq<string>)
    ensures forall n :: n in ListSearch(comparison, roots, path) ==> n.Command?
    decreases roots
  {
    if |path| > 0 && roots != [] {
      var child := roots[0];
      ListSearchFindsOnlyCommands(comparison, roots[1..], path);
      if child.Group? {
        ListSearchFindsOnlyCommands(comparison, child.children, path[1..]);
      }
    }
  }

  lemma {:induction false} ListSearchComplete(comparison: KeyComparison, roots: seq<Node>, path: seq<string>, route: seq<Node>)
    requires IsRoute(comparison, roots, path, route)
    ensures route[|route| - 1] in ListSearch(comparison, roots, path)
    decreases roots
  {
    var child := roots[0];
    if route[0] == child {
      if |route| > 1 {
        assert ParentOf(route[0], route[1]);
        var rest := route[1..];
        forall j | 0 <= j < |rest| - 1
          ensures ParentOf(rest[j], rest[j + 1])
        {
          assert rest[j] == route[j + 1] && rest[j + 1] == route[j + 2];
        }
        forall j | 0 <= j < |rest|
          ensures NodeMatches(comparison, rest[j], path[1..][j])
        {
          assert rest[j] == route[j + 1];
        }
        assert IsRoute(comparison, child.children, path[1..], rest);
        ListSearchComplete(comparison, child.children, path[1..], rest);
      }
    } else {
      assert route[0] in roots[1..];
      ListSearchComplete(comparison, roots[1..], path, route);
    }
  }

  /** A route below a matched group, with the group put in front, is a route from the group's siblings. */
  lemma RouteThroughGroup(comparison: KeyComparison, roots: seq<Node>, path: seq<string>, rest: seq<Node>)
    requires 0 < |path| && 0 < |roots| && roots[0].Group?
    requires NodeMatches(comparison, roots[0], path[0])
    requires IsRoute(comparison, roots[0].children, path[1..], rest)
    ensures IsRoute(comparison, roots, path, [roots[0]] + rest)
  {
    var route := [roots[0]] + rest;
    forall j | 0 <= j < |route| - 1
      ensures ParentOf(route[j], route[j + 1])
    {
      if j > 0 {
        assert route[j] == rest[j - 1] && route[j + 1] == rest[j];
      }
    }
    forall j | 0 <= j < |route|
      ensures NodeMatches(comparison, route[j], path[j])
    {
      if j > 0 {
        assert route[j] == rest[j - 1] && path[j] == path[1..][j - 1];
      }
    }
  }

  /** A route from the later siblings is a route from the whole list. */
  lemma RouteFromLaterSibling(comparison: KeyComparison, roots: seq<Node>, path: seq<string>, route: seq<Node>)
    requires 0 < |roots| && IsRoute(comparison, roots[1..], path, route)
    ensures IsRoute(comparison, roots, path, route)
  {
  }

  lemma {:induction false} ListSearchSound(comparison: KeyComparison, roots: seq<Node>, path: seq<string>, command: Node)
    requires command in ListSearch(comparison, roots, path)
    ensures exists route :: IsRoute(comparison, roots, path, route) && route[|route| - 1] == command
    decreases roots
  {
    var child := roots[0];
    if command in ChildSearch(comparison, child, path) {
      if child.Command? {
        var route := [child];
        assert IsRoute(comparison, roots, path, route);
      } else {
        ListSearchSound(comparison, child.children, path[1..], command);
        var rest :| IsRoute(comparison, child.children, path[1..], rest) && rest[|rest| - 1] == command;
        RouteThroughGroup(comparison, roots, path, rest);
      }
    } else {
      ListSearchSound(comparison, roots[1..], path, command);
      var route :| IsRoute(comparison, roots[1..], path, route) && route[|route| - 1] == command;
      RouteFromLaterSibling(comparison, roots, path, route);
    }
  }

  /** The list search is sound and complete: a command is found exactly when a route leads to it. */
  lemma ListSearchFindsExactlyRoutes(comparison: KeyComparison, roots: seq<Node>, path: seq<string>, command: Node)
    ensures command in ListSearch(comparison, roots, path)
            <==> exists route :: IsRoute(comparison, roots, path, route) && route[|route| - 1] == command
  {
    if command in ListSearch(comparison, roots, path) {
      ListSearchSound(comparison, roots, path, command);
    }
    if exists route :: IsRoute(comparison, roots, path, route) && route[|route| - 1] == command {
      var route :| IsRoute(comparison, roots, path, route) && route[|route| - 1] == command;
      ListSearchComplete(comparison, roots, path, route);
    }
  }

  /** With no path components nothing is found. */
  lemma EmptyPathFindsNothing(comparison: KeyComparison, roots: seq<Node>)
    ensures ListSearch(comparison, roots, []) == []
  {
  }

  /** Sibling lists contribute their results in order: the search distributes over concatenation. */
  lemma {:induction false} ListSearchConcat(comparison: KeyComparison, a: seq<Node>, b: seq<Node>, path: seq<string>)
    ensures ListSearch(comparison, a + b, path) == ListSearch(comparison, a, path) + ListSearch(comparison, b, path)
    decreases a
  {
    if a == [] {
      assert a + b == b;
    } else if |path| > 0 {
      assert (a + b)[0] == a[0];
      assert (a + b)[1..] == a[1..] + b;
      ListSearchConcat(comparison, a[1..], b, path);
    }
  }

  /** Examining one more child appends that child's contribution. */
  lemma ListSearchAppend(comparison: KeyComparison, children: seq<Node>, child: Node, path: seq<string>)
    requires 0 < |path|
    ensures ListSearch(comparison, children + [child], path)
            == ListSearch(comparison, children, path) + ChildSearch(comparison, child, path)
  {
    ListSearchConcat(comparison, children, [child], path);
    assert ListSearch(comparison, [child], path) == ChildSearch(comparison, child, path) + ListSearch(comparison, [], path);
  }

  lemma ListSearchAround(comparison: KeyComparison, children: seq<Node>, i: nat, path: seq<string>)
    requires i < |children|
    ensures ListSearch(comparison, children, path)
            == ListSearch(comparison, children[..i], path)
               + ListSearch(comparison, [children[i]], path)
               + ListSearch(comparison, children[i + 1..], path)
  {
    assert children == children[..i] + ([children[i]] + children[i + 1..]);
    ListSearchConcat(comparison, children[..i], [children[i]] + children[i + 1..], path);
    ListSearchConcat(comparison, [children[i]], children[i + 1..], path);
  }

  /**
   * A matching command is returned in its own place among its siblings' results, whatever
   * components remain after the one it matched.
   */
  lemma CommandFoundWithPathRemaining(comparison: KeyComparison, children: seq<Node>, i: nat, path: seq<string>)
    requires i < |children| && 0 < |path|
    requires children[i].Command? && NodeMatches(comparison, children[i], path[0])
    ensures ListSearch(comparison, children, path)
            == ListSearch(comparison, children[..i], path) + [children[i]] + ListSearch(comparison, children[i + 1..], path)
  {
    ListSearchAround(comparison, children, i, path);
  }

  /** A matched group's results, searched with the rest of the path, are spliced in at its place. */
  lemma GroupResultsSplicedInPlace(comparison: KeyComparison, children: seq<Node>, i: nat, path: seq<string>)
    requires i < |children| && 0 < |path|
    requires children[i].Group? && NodeMatches(comparison, children[i], path[0])
    ensures ListSearch(comparison, children, path)
            == ListSearch(comparison, children[..i], path)
               + ListSearch(comparison, children[i].children, path[1..])
               + ListSearch(comparison, children[i + 1..], path)
  {
    ListSearchAround(comparison, children, i, path);
  }

  /** A child that does not match the first component contributes nothing. */
  lemma UnmatchedChildContributesNothing(comparison: KeyComparison, children: seq<Node>, i: nat, path: seq<string>)
    requires i < |children| && 0 < |path|
    requires !NodeMatches(comparison, children[i], path[0])
    ensures ListSearch(comparison, children, path)
            == ListSearch(comparison, children[..i], path) + ListSearch(comparison, children[i + 1..], path)
  {
    ListSearchAround(comparison, children, i, path);
  }

  /** A group matched by the last component has nothing left to match below it. */
  lemma GroupOnLastComponentContributesNothing(comparison: KeyComparison, children: seq<Node>, i: nat, path: seq<string>)
    requires i < |children| && |path| == 1
    requires children[i].Group? && NodeMatches(comparison, children[i], path[0])
    ensures ListSearch(comparison, children, path)
            == ListSearch(comparison, children[..i], path) + ListSearch(comparison, children[i + 1..], path)
  {
    ListSearchAround(comparison, children, i, path);
    assert [children[i]][1..] == [];
    assert |path[1..]| == 0;
    assert ChildSearch(comparison, children[i], path) == [];
  }

  // ---------------------------------------------------------------------------------------
  // The split-string search

  /** Searching through the splitter is searching the list of components it has left. */
  lemma {:induction false} SplitSearchIsListSearch(comparison: KeyComparison, children: seq<Node>, e: SplitEnumerator)
    requires e.Valid()
    ensures SplitSearch(comparison, children, e) == ListSearch(comparison, children, e.items[e.consumed..])
    decreases children
  {
    if children != [] {
      var child := children[0];
      var path := e.items[e.consumed..];
      SplitSearchIsListSearch(comparison, children[1..], e);
      if e.consumed < |e.items| {
        assert path[0] == e.items[e.consumed];
        if SplitMatches(comparison, child, e) && child.Group? {
          var next := e.MoveNext().1;
          assert next.items[next.consumed..] == path[1..];
          SplitSearchIsListSearch(comparison, child.children, next);
        }
      }
    }
  }

  // ---------------------------------------------------------------------------------------
  // The tokenized search

  /** The tokenized search binds each candidate in turn and keeps the successes, in order. */
  lemma {:induction false} TokenSearchBindsCandidates<B>(comparison: KeyComparison, bind: TokenBinder<B>, children: seq<Node>, e: TokenizingEnumerator)
    ensures TokenSearch(comparison, bind, children, e) == BindCandidates(bind, TokenCandidates(comparison, children, e))
    decreases children
  {
    var f := (c: (Node, TokenizingEnumerator)) => bind(c.0, c.1);
    if children != [] {
      var child := children[0];
      TokenSearchBindsCandidates(comparison, bind, children[1..], e);
      if TokenMatches(comparison, child, e) {
        if child.Command? {
          FilterMapConcat(f, [(child, e)], TokenCandidates(comparison, children[1..], e));
        } else {
          TokenSearchBindsCandidates(comparison, bind, child.children, e.MoveNext().1);
          FilterMapConcat(f, TokenCandidates(comparison, child.children, e.MoveNext().1), TokenCandidates(comparison, children[1..], e));
        }
      }
    }
  }

  /** A failed bind only drops its own candidate, so there are never more results than candidates. */
  lemma TokenSearchBoundedByCandidates<B>(comparison: KeyComparison, bind: TokenBinder<B>, children: seq<Node>, e: TokenizingEnumerator)
    ensures |TokenSearch(comparison, bind, children, e)| <= |TokenCandidates(comparison, children, e)|
  {
    TokenSearchBindsCandidates(comparison, bind, children, e);
    FilterMapLength((c: (Node, TokenizingEnumerator)) => bind(c.0, c.1), TokenCandidates(comparison, children, e));
  }

  lemma CandidateNodesConcat(a: seq<(Node, TokenizingEnumerator)>, b: seq<(Node, TokenizingEnumerator)>)
    ensures CandidateNodes(a + b) == CandidateNodes(a) + CandidateNodes(b)
  {
    var l, r := CandidateNodes(a + b), CandidateNodes(a) + CandidateNodes(b);
    forall i | 0 <= i < |l| ensures l[i] == r[i] {
      if i < |a| { assert (a + b)[i] == a[i]; } else { assert (a + b)[i] == b[i - |a|]; }
    }
  }

  /**
   * The candidates of the tokenized search are the list search over the leading run of
   * value tokens: a long or short option token ends the path.
   */
  lemma {:induction false} TokenCandidatesFollowValuePrefix(comparison: KeyComparison, children: seq<Node>, e: TokenizingEnumerator)
    requires e.Valid()
    ensures CandidateNodes(TokenCandidates(comparison, children, e))
            == ListSearch(comparison, children, ValuePrefix(e.items[e.consumed..]))
    decreases children
  {
    if children != [] {
      var child := children[0];
      var rest := e.items[e.consumed..];
      var path := ValuePrefix(rest);
      TokenCandidatesFollowValuePrefix(comparison, children[1..], e);
      if TokenMatches(comparison, child, e) {
        assert rest[0] == e.items[e.consumed];
        assert path == [rest[0].value] + ValuePrefix(rest[1..]);
        if child.Command? {
          CandidateNodesConcat([(child, e)], TokenCandidates(comparison, children[1..], e));
        } else {
          var next := e.MoveNext().1;
          assert next.items[next.consumed..] == rest[1..];
          TokenCandidatesFollowValuePrefix(comparison, child.children, next);
          CandidateNodesConcat(TokenCandidates(comparison, child.children, next), TokenCandidates(comparison, children[1..], e));
        }
      } else if e.consumed < |e.items| && rest[0].tokenType == Value {
        assert rest[0] == e.items[e.consumed];
        assert path[0] == rest[0].value;
      }
    }
  }

  /**
   * The state each tokenized candidate is bound with: the whole token sequence, stepped up to
   * the command's own name token, which is a value token matching the command. The tokens
   * consumed before it are exactly the groups of a route to the command, one per token, so
   * the binder sees the command's parameters right after its group path.
   */
  lemma TokenCandidateStates(comparison: KeyComparison, children: seq<Node>, e: TokenizingEnumerator,
                             command: Node, state: TokenizingEnumerator)
    requires e.Valid()
    requires (command, state) in TokenCandidates(comparison, children, e)
    ensures state.items == e.items && e.consumed <= state.consumed
    ensures TokenMatches(comparison, command, state)
    ensures exists route :: IsRoute(comparison, children, ValuePrefix(e.items[e.consumed..]), route)
                            && route[|route| - 1] == command && |route| == state.consumed - e.consumed + 1
  {
    CandidateStateSteps(comparison, children, e, command, state);
    var route := CandidateStateRoute(comparison, children, e, command, state);
  }

  /** A candidate's state is a later state of the same tokenizer, sitting on a matching value token. */
  lemma {:induction false} CandidateStateSteps(comparison: KeyComparison, children: seq<Node>, e: TokenizingEnumerator,
                                               command: Node, state: TokenizingEnumerator)
    requires (command, state) in TokenCandidates(comparison, children, e)
    ensures state.items == e.items && e.consumed <= state.consumed
    ensures TokenMatches(comparison, command, state)
    decreases children
  {
    var child := children[0];
    var tail := TokenCandidates(comparison, children[1..], e);
    if (command, state) in tail {
      CandidateStateSteps(comparison, children[1..], e, command, state);
    } else if TokenMatches(comparison, child, e) && child.Group? {
      CandidateStateSteps(comparison, child.children, e.MoveNext().1, command, state);
    }
  }

  /** The tokens a candidate's state has stepped over spell a route to the candidate. */
  lemma {:induction false} CandidateStateRoute(comparison: KeyComparison, children: seq<Node>, e: TokenizingEnumerator,
                                               command: Node, state: TokenizingEnumerator)
    returns (route: seq<Node>)
    requires e.Valid()
    requires (command, state) in TokenCandidates(comparison, children, e)
    ensures IsRoute(comparison, children, ValuePrefix(e.items[e.consumed..]), route)
    ensures route[|route| - 1] == command && |route| == state.consumed - e.consumed + 1
    decreases children
  {
    var child := children[0];
    if (command, state) in TokenCandidates(comparison, children[1..], e) {
      route := CandidateStateRoute(comparison, children[1..], e, command, state);
      RouteFromLaterSibling(comparison, children, ValuePrefix(e.items[e.consumed..]), route);
    } else if child.Command? {
      MatchedTokenStartsPath(comparison, child, e);
      route := [child];
    } else {
      var next := e.MoveNext().1;
      var inner := CandidateStateRoute(comparison, child.children, next, command, state);
      CandidateStateSteps(comparison, child.children, next, command, state);
      route := RouteThroughMatchedGroup(comparison, children, e, inner);
    }
  }

  /** A route below the group the next token matched, with the group put in front. */
  lemma RouteThroughMatchedGroup(comparison: KeyComparison, children: seq<Node>, e: TokenizingEnumerator, inner: seq<Node>)
    returns (route: seq<Node>)
    requires 0 < |children| && children[0].Group? && TokenMatches(comparison, children[0], e)
    requires IsRoute(comparison, children[0].children, ValuePrefix(e.MoveNext().1.items[e.MoveNext().1.consumed..]), inner)
    ensures IsRoute(comparison, children, ValuePrefix(e.items[e.consumed..]), route)
    ensures route == [children[0]] + inner && route[|route| - 1] == inner[|inner| - 1]
  {
    MatchedTokenStartsPath(comparison, children[0], e);
    RouteThroughGroup(comparison, children, ValuePrefix(e.items[e.consumed..]), inner);
    route := [children[0]] + inner;
  }

  /** A node matched by the next token matches the first component of the value path, whose rest is the stepped tokenizer's. */
  lemma MatchedTokenStartsPath(comparison: KeyComparison, node: Node, e: TokenizingEnumerator)
    requires TokenMatches(comparison, node, e)
    ensures 0 < |ValuePrefix(e.items[e.consumed..])|
    ensures NodeMatches(comparison, node, ValuePrefix(e.items[e.consumed..])[0])
    ensures ValuePrefix(e.items[e.consumed..])[1..] == ValuePrefix(e.MoveNext().1.items[e.MoveNext().1.consumed..])
  {
    var rest := e.items[e.consumed..];
    assert rest[0] == e.items[e.consumed];
    assert rest[1..] == e.items[e.consumed + 1..];
  }

  /** An exhausted tokenizer, or a long or short option token next, matches no node at all. */
  lemma {:induction false} NoValueTokenFindsNothing<B>(comparison: KeyComparison, bind: TokenBinder<B>, children: seq<Node>, e: TokenizingEnumerator)
    requires e.consumed >= |e.items| || e.items[e.consumed].tokenType != Value
    ensures TokenSearch(comparison, bind, children, e) == []
    ensures TokenSearchAsWritten(comparison, bind, children, e) == []
    decreases children
  {
    if children != [] {
      NoValueTokenFindsNothing(comparison, bind, children[1..], e);
    }
  }

  // ---------------------------------------------------------------------------------------
  // Binding as a filter

  lemma {:induction false} FilterMapConcat<X, B>(f: X -> Option<B>, a: seq<X>, b: seq<X>)
    ensures FilterMap(f, a + b) == FilterMap(f, a) + FilterMap(f, b)
    decreases a
  {
    if a == [] {
      assert a + b == b;
    } else {
      assert (a + b)[0] == a[0];
      assert (a + b)[1..] == a[1..] + b;
      FilterMapConcat(f, a[1..], b);
    }
  }

  lemma {:induction false} FilterMapLength<X, B>(f: X -> Option<B>, xs: seq<X>)
    ensures |FilterMap(f, xs)| <= |xs|
    ensures (forall i :: 0 <= i < |xs| ==> f(xs[i]).Some?) ==> |FilterMap(f, xs)| == |xs|
    decreases xs
  {
    if xs != [] {
      FilterMapLength(f, xs[1..]);
      if forall i :: 0 <= i < |xs| ==> f(xs[i]).Some? {
        assert forall i :: 0 <= i < |xs[1..]| ==> f(xs[1..][i]) == f(xs[i + 1]);
      }
    }
  }

  lemma {:induction false} FilterMapMembership<X, B>(f: X -> Option<B>, xs: seq<X>, b: B)
    ensures b in FilterMap(f, xs) <==> exists i :: 0 <= i < |xs| && f(xs[i]) == Some(b)
    decreases xs
  {
    if xs != [] {
      FilterMapMembership(f, xs[1..], b);
      if exists i :: 0 <= i < |xs[1..]| && f(xs[1..][i]) == Some(b) {
        var i :| 0 <= i < |xs[1..]| && f(xs[1..][i]) == Some(b);
        assert f(xs[i + 1]) == Some(b);
      }
      if exists i :: 0 <= i < |xs| && f(xs[i]) == Some(b) {
        var i :| 0 <= i < |xs| && f(xs[i]) == Some(b);
        if i > 0 {
          assert f(xs[1..][i - 1]) == Some(b);
        }
      }
    }
  }

  /** The named-parameter pipeline keeps exactly the matches whose bind succeeds. */
  lemma NamedBindingFilters<B>(bind: NamedBinder<B>, namedParameters: NamedParameters, commands: seq<Node>, b: B)
    ensures b in BindNamed(bind, namedParameters, commands)
            <==> exists i :: 0 <= i < |commands| && bind(commands[i], namedParameters) == Some(b)
  {
    FilterMapMembership((c: Node) => bind(c, namedParameters), commands, b);
  }

  /** Never more results than matches, and all of them when every bind succeeds. */
  lemma NamedBindingCount<B>(bind: NamedBinder<B>, namedParameters: NamedParameters, commands: seq<Node>)
    ensures |BindNamed(bind, namedParameters, commands)| <= |commands|
    ensures (forall i :: 0 <= i < |commands| ==> bind(commands[i], namedParameters).Some?)
            ==> |BindNamed(bind, namedParameters, commands)| == |commands|
  {
    FilterMapLength((c: Node) => bind(c, namedParameters), commands);
  }

  /** Results of consecutive runs of matches stay consecutive and in order. */
  lemma NamedBindingKeepsOrder<B>(bind: NamedBinder<B>, namedParameters: NamedParameters, a: seq<Node>, b: seq<Node>)
    ensures BindNamed(bind, namedParameters, a + b)
            == BindNamed(bind, namedParameters, a) + BindNamed(bind, namedParameters, b)
  {
    FilterMapConcat((c: Node) => bind(c, namedParameters), a, b);
  }
}
