# Remora.Commands command-tree search, in Dafny

This project models the search engine of Remora.Commands' `CommandTree`. The tree is an
immutable hierarchy of group and command nodes. Each node has a key and aliases. A search
walks the tree depth-first. At each level it compares one input component with each child's
key and aliases, in declaration order. A matching command is a candidate. A matching group is
searched with the next component. Sibling commands may share a key, so one path can yield
several candidates. The engine has three entry points:

- a raw command string, tokenized. Only plain value tokens match. Each candidate is bound
  against the tokenizer state, and a failed bind drops only that candidate;
- a command-name string, split on separators, followed by binding to named parameters;
- a pre-split command path, followed by the same named-parameter binding.

Modules:

- `Nodes` (`nodes.dfy`): the tree (`Node`, `RootNode`, and `Tree`, the state of a
  `CommandTree`), tokens, and `Cursor`. `Cursor` is the value-type enumerator that the
  splitter and the tokenizer are; `Cursor.Valid` says it never steps past its last item. The key
  comparison is a function parameter; `Ordinal` is string equality.
- `SearchSpec` (`search_spec.dfy`): reference definitions of each search's result.
  `ListSearch` is the recursive list-path search. `SplitSearch` and `TokenSearch` are the
  enumerator-driven searches; their `AsWritten` variants share the loop's enumerator the way
  the source does. `TokenCandidates` gives the commands reached before binding, and
  `FilterMap` is binding as a filter.
- `CommandTree` (`command_tree.dfy`): the source's methods as loops over a parent's children,
  with local result lists. Each is proved equal to its reference definition. It also holds the
  three public entry points.
- `SearchProperties` (`search_properties.dfy`): soundness and completeness of the list
  search against routes. Also declaration-order splicing, the split search equal to the list
  search, the tokenized search as "bind each candidate", and the named-parameter pipeline as an
  order-preserving filter.
- `SearchExamples` (`search_examples.dfy`): the repository's `"a c d"` and `"a d c"` tests,
  overload resolution by binding, and the counterexamples of the finding below.

The closed `Node` variant makes the source's "unknown node type" exceptions impossible, so
they have no counterpart.

The three search forms are meant to be equivalent. The code is not equivalent on one
point: a matched group advances the loop's own enumerator in the split and tokenized forms.
The model follows the code in the `AsWritten` members and records the difference under
"## Findings".

## Model

| member | source | states |
|---|---|---|
| `CommandTree.IsNodeMatch` | Remora.Commands/Trees/CommandTree.cs:392-408 | true exactly when the component equals the node's key or one of its aliases under the configured comparison |
| `CommandTree.IsNodeMatchSplit` | Remora.Commands/Trees/CommandTree.cs:327-348 | true exactly when the splitter has a next component and that component matches the node; an exhausted splitter never matches |
| `CommandTree.IsNodeMatchToken` | Remora.Commands/Trees/CommandTree.cs:357-383 | true exactly when the tokenizer has a next token, it is a Value token, and its text matches the node; option tokens and exhaustion never match |
| `CommandTree.DepthFirstPath` | Remora.Commands/Trees/CommandTree.cs:154-200 | the loop collects exactly `ListSearch` of the children and path |
| `CommandTree.DepthFirstSplitAsWritten` | Remora.Commands/Trees/CommandTree.cs:209-257 | the loop, with a matched group advancing the loop's enumerator, collects exactly `SplitSearchAsWritten` |
| `CommandTree.DepthFirstSplit` | Remora.Commands/Trees/CommandTree.cs:209-257 | with the group searched on an advanced copy, the loop collects exactly `SplitSearch` |
| `CommandTree.DepthFirstTokensAsWritten` | Remora.Commands/Trees/CommandTree.cs:266-318 | the loop binds each matched command with the loop's tokenizer state, drops failed binds, and collects exactly `TokenSearchAsWritten` |
| `CommandTree.DepthFirstTokens` | Remora.Commands/Trees/CommandTree.cs:266-318 | with the group searched on an advanced copy, the loop collects exactly `TokenSearch` |
| `CommandTree.Search` | Remora.Commands/Trees/CommandTree.cs:60-72 | results are the successful binds of the candidates, in order. There are never more results than candidates. The candidates' commands are the list search over the leading run of value tokens. Each candidate is bound with the tokenizer stepped over the groups of a route to it, one token per group, and sitting on a value token that matches the command |
| `CommandTree.SearchByName` | Remora.Commands/Trees/CommandTree.cs:84-111 | results are the path-matched commands of the split components whose named bind succeeds, in order. These are the same as for the pre-split path form. A value is returned exactly when some matched command binds to it |
| `CommandTree.SearchByPath` | Remora.Commands/Trees/CommandTree.cs:122-145 | results are the path-matched commands whose named bind succeeds, in order. There are never more results than matches. A value is returned exactly when some matched command binds to it |
| `SearchProperties.ListSearchFindsOnlyCommands` | Remora.Commands/Trees/CommandTree.cs:154-200 | every node the list search returns is a command node |
| `SearchSpec.SplitSearchAsWritten` | Remora.Commands/Trees/CommandTree.cs:209-257 | every node the split search as written returns is a command node |
| `SearchSpec.SplitSearch` | Remora.Commands/Trees/CommandTree.cs:209-257 | every node the corrected split search returns is a command node |
| `SearchSpec.TokenCandidates` | Remora.Commands/Trees/CommandTree.cs:274-305 | every candidate the tokenized traversal reaches is a command node |
| `SearchProperties.OrdinalMatchIsKeyOrAlias` | Remora.Commands/Trees/CommandTree.cs:392-408 | under ordinal comparison a node matches exactly its key and the members of its aliases |
| `SearchProperties.MatchedGroupCanAdvance` | Remora.Commands/Trees/CommandTree.cs:295-300 | after a match, stepping the same enumerator state succeeds and lands on the matched component or value token. So the "no more tokens" early returns are never taken |
| `SearchProperties.ListSearchComplete` | Remora.Commands/Trees/CommandTree.cs:167-187 | the command at the end of every route for the path is returned |
| `SearchProperties.ListSearchSound` | Remora.Commands/Trees/CommandTree.cs:167-187 | every returned command ends some route for the path |
| `SearchProperties.ListSearchFindsExactlyRoutes` | Remora.Commands/Trees/CommandTree.cs:167-187 | a command is returned exactly when, for some k ≤ the path length, a chain of groups and then the command matches the first k components level by level |
| `SearchProperties.EmptyPathFindsNothing` | Remora.Commands/Trees/CommandTree.cs:161-164 | an empty path returns no commands |
| `SearchProperties.ListSearchConcat` | Remora.Commands/Trees/CommandTree.cs:167-199 | the search over concatenated sibling lists is the first list's results followed by the second's |
| `SearchProperties.CommandFoundWithPathRemaining` | Remora.Commands/Trees/CommandTree.cs:176-180 | a command matching the first component is returned at its own position among its siblings' results, however many components remain |
| `SearchProperties.GroupResultsSplicedInPlace` | Remora.Commands/Trees/CommandTree.cs:181-186 | a matched group's results, searched with the rest of the path, are spliced in at the group's position among its siblings |
| `SearchProperties.UnmatchedChildContributesNothing` | Remora.Commands/Trees/CommandTree.cs:169-172 | a child that does not match the first component contributes no results |
| `SearchProperties.GroupOnLastComponentContributesNothing` | Remora.Commands/Trees/CommandTree.cs:181-186 | a group matched by the last component contributes nothing |
| `SearchProperties.SplitSearchIsListSearch` | Remora.Commands/Trees/CommandTree.cs:218-244 | the corrected split search returns exactly the list search over the components the splitter has left |
| `SearchProperties.TokenSearchBindsCandidates` | Remora.Commands/Trees/CommandTree.cs:283-291 | the tokenized search's results are each candidate's successful bind, in candidate order. A failed bind drops only its own candidate |
| `SearchProperties.TokenSearchBoundedByCandidates` | Remora.Commands/Trees/CommandTree.cs:283-291 | the number of bound results never exceeds the number of path-matched candidates |
| `SearchProperties.TokenCandidatesFollowValuePrefix` | Remora.Commands/Trees/CommandTree.cs:274-305 | the commands the tokenized search reaches are exactly the list search over the text of the leading run of value tokens |
| `SearchProperties.TokenCandidateStates` | Remora.Commands/Trees/CommandTree.cs:274-305 | the state a candidate's binder receives holds the same tokens, has stepped no fewer than the start, and sits on a value token matching the command. The tokens it stepped over are exactly one per group of a route from the children to the command |
| `SearchProperties.NoValueTokenFindsNothing` | Remora.Commands/Trees/CommandTree.cs:359-367 | with the tokenizer exhausted or an option token next, both tokenized searches return nothing |
| `SearchProperties.NamedBindingFilters` | Remora.Commands/Trees/CommandTree.cs:98-108 | a value is in the named-parameter results exactly when some matched command binds to it |
| `SearchProperties.NamedBindingCount` | Remora.Commands/Trees/CommandTree.cs:132-142 | never more named-parameter results than matched commands, and as many when every bind succeeds |
| `SearchProperties.NamedBindingKeepsOrder` | Remora.Commands/Trees/CommandTree.cs:132-142 | binding distributes over concatenation of the matches, so the results keep the matches' order |
| `SearchExamples.NestedPathFound` | Tests/Remora.Commands.Tests/Trees/CommandTreeTests.Raw.Basic.cs:42-51 | `"a c d"` finds command `d` under groups `a` and `c`, both as written and corrected |
| `SearchExamples.ReorderedPathNotFound` | Tests/Remora.Commands.Tests/Trees/CommandTreeTests.Raw.Basic.cs:57-66 | `"a d c"` finds nothing in the same tree |
| `SearchExamples.OverloadResolvedByBinding` | Remora.Commands/Trees/CommandTree.cs:283-291 | two sibling commands share a key. Each input returns only the one whose shape binds, an input that fits neither returns nothing, and when both bind both are returned in declaration order |
| `SearchExamples.GroupHidesLaterSibling` | Remora.Commands/Trees/CommandTree.cs:295-303 | a command after a same-named matched group is missed as written, and found by the list search and the corrected searches |
| `SearchExamples.GroupShiftsLaterSibling` | Remora.Commands/Trees/CommandTree.cs:234-244 | a command after a matched group is matched against the next component as written, which finds `b` for `"a b"` although `b` is not below `a` |

## Left out

- The tokenizer (quoting, escaping, `--name=value` splitting, short-flag bundling) and the separator splitter are not part of this model. Their output is taken as a given sequence of tokens or components.
- `CommandNode.TryBind` (positional, named, switch and collection binding, type parsing) is not part of this model. It is a binder function parameter. The tokenized binder receives the command and the enumerator state. The named binder receives the command and the named-parameter map; the search options it also receives are folded into it.
- Key comparison modes other than ordinal are not modelled. Comparison is an arbitrary function parameter, with `Ordinal` as the one concrete instance.
- `TokenizerOptions` and `TreeSearchOptions` defaults are not modelled. Their only effect on the search is the comparison and the binder.
- The hidden flag of groups is not modelled, because the search never reads it. The handler reference of a command is modelled as an opaque number, `CommandId`.
- Lazy `IEnumerable` evaluation is not modelled, because the results are computed eagerly as sequences.
- The "unknown node type" exceptions are not modelled, because the closed `Node` variant rules them out.
- The type parsers, the asynchronous parser adapter and the group-information interface are outside the search engine and are not part of this model.
- `CommandTree.Search`: uses the corrected tokenized traversal `DepthFirstTokens`, not the source's shared-enumerator loop. The as-written loop is `DepthFirstTokensAsWritten`.
- `CommandTree.SearchByName`: uses the corrected split traversal `DepthFirstSplit`, not the source's shared-enumerator loop. The as-written loop is `DepthFirstSplitAsWritten`.
- `SearchProperties.SplitSearchIsListSearch`, `SearchProperties.TokenCandidatesFollowValuePrefix` and `SearchProperties.TokenCandidateStates`: each requires `Cursor.Valid`, which every enumerator state the source reaches satisfies. The entry points start at zero consumed items and only step while items remain.

## Findings

The splitter and the tokenizer are value types built over a character span. Each call gets a
copy. `IsNodeMatch` steps its own copy. A matched group then steps the loop's own enumerator
before recursing, and that enumerator stays stepped for the remaining siblings. Those siblings
are compared with the component after the group's. Their binder is also handed the advanced
state.

| source | as written | input that shows it | evidently intended | confidence | as-written member | corrected member |
|---|---|---|---|---|---|---|
| Remora.Commands/Trees/CommandTree.cs:234-244 | a matched group advances the loop's splitter, so later siblings are matched against the next component | root children `[Group "a" [], Command "a"]`, name `"a"`: nothing is found, while the list-path form finds command `a`. Also root children `[Group "a" [], Command "b"]`, name `"a b"`: command `b` is found, although the list-path form finds nothing | the split form returns the same commands as the list-path form over the split components | medium (assumes the enumerator is copied by value, as a span-based struct is); not executed | `CommandTree.DepthFirstSplitAsWritten`, `SearchExamples.GroupHidesLaterSibling` | `CommandTree.DepthFirstSplit`, `SearchProperties.SplitSearchIsListSearch` |
| Remora.Commands/Trees/CommandTree.cs:295-303 | a matched group advances the loop's tokenizer, so later siblings are matched against, and bound from, the next token | root children `[Group "a" [], Command "a"]`, command string `"a"`: nothing is found. Also root children `[Group "a" [], Command "b"]`, string `"a b"`: command `b` is found | the tokenized form reaches the commands the list-path form finds over the leading value tokens | medium (same assumption); not executed | `CommandTree.DepthFirstTokensAsWritten`, `SearchExamples.GroupShiftsLaterSibling` | `CommandTree.DepthFirstTokens`, `SearchProperties.TokenCandidatesFollowValuePrefix` |
