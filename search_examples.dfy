/**
 * Concrete searches over small trees: the nested-group tree of the repository's tests, two
 * sibling commands sharing a key, and the trees on which a group matched earlier in the
 * loop changes what its later siblings are compared with.
 */
module SearchExamples {
  import opened Wrappers
  import opened Nodes
  import opened SearchSpec

  function Values(words: seq<string>): (tokens: seq<Token>)
    ensures |tokens| == |words|
    ensures forall i :: 0 <= i < |words| ==> tokens[i] == Token(Value, words[i])
  {
    if words == [] then [] else [Token(Value, words[0])] + Values(words[1..])
  }

  /** Group "a" holding command "b" and group "c", which holds command "d". */
  function NestedTree(): seq<Node>
  {
    [Group("a", [], [Command("b", [], 0), Group("c", [], [Command("d", [], 1)])])]
  }

  /** Binds a command without parameters: nothing may follow the command's own name. */
  function BindParameterless(command: Node, tokenizer: TokenizingEnumerator): Option<Node>
  {
    if tokenizer.consumed + 1 == |tokenizer.items| then Some(command) else None
  }

  /** "a c d" reaches command "d". */
  lemma NestedPathFound()
    ensures TokenSearch(Ordinal, BindParameterless, NestedTree(), Cursor(Values(["a", "c", "d"]), 0))
            == [Command("d", [], 1)]
    ensures TokenSearchAsWritten(Ordinal, BindParameterless, NestedTree(), Cursor(Values(["a", "c", "d"]), 0))
            == [Command("d", [], 1)]
  {
  }

  /** "a d c" finds nothing: "d" is not a child of "a". */
  lemma ReorderedPathNotFound()
    ensures TokenSearch(Ordinal, BindParameterless, NestedTree(), Cursor(Values(["a", "d", "c"]), 0)) == []
    ensures TokenSearchAsWritten(Ordinal, BindParameterless, NestedTree(), Cursor(Values(["a", "d", "c"]), 0)) == []
  {
  }

  /**
   * Two commands under group "test" share the key "x": id 1 takes no parameter, id 2 takes
   * exactly one positional value.
   */
  function OverloadTree(): seq<Node>
  {
    [Group("test", [], [Command("x", [], 1), Command("x", [], 2)])]
  }

  /** Binds every command, whatever follows its name. */
  function BindAny(command: Node, tokenizer: TokenizingEnumerator): Option<Node>
  {
    Some(command)
  }

  function BindOverloads(command: Node, tokenizer: TokenizingEnumerator): Option<Node>
  {
    var remaining := |tokenizer.items| - tokenizer.consumed - 1;
    if command.Command? && ((command.id == 1 && remaining == 0) || (command.id == 2 && remaining == 1))
    then Some(command) else None
  }

  /**
   * A failed bind drops only its own candidate: each input selects the one shape that fits,
   * and a binder that accepts both shapes returns both, in declaration order.
   */
  lemma OverloadResolvedByBinding()
    ensures TokenSearch(Ordinal, BindOverloads, OverloadTree(), Cursor(Values(["test", "x"]), 0))
            == [Command("x", [], 1)]
    ensures TokenSearch(Ordinal, BindOverloads, OverloadTree(), Cursor(Values(["test", "x", "hello"]), 0))
            == [Command("x", [], 2)]
    ensures TokenSearch(Ordinal, BindOverloads, OverloadTree(), Cursor(Values(["test", "x", "a", "b"]), 0))
            == []
    ensures TokenSearch(Ordinal, BindAny, OverloadTree(), Cursor(Values(["test", "x"]), 0))
            == [Command("x", [], 1), Command("x", [], 2)]
  {
  }

  /**
   * A command after a same-named group is missed by the searches as written: once the group
   * matched "a", the command is compared with a component that does not exist. The list
   * search and the corrected searches find it.
   */
  lemma GroupHidesLaterSibling()
    ensures ListSearch(Ordinal, [Group("a", [], []), Command("a", [], 0)], ["a"]) == [Command("a", [], 0)]
    ensures SplitSearchAsWritten(Ordinal, [Group("a", [], []), Command("a", [], 0)], Cursor(["a"], 0)) == []
    ensures TokenSearchAsWritten(Ordinal, BindAny, [Group("a", [], []), Command("a", [], 0)], Cursor(Values(["a"]), 0)) == []
    ensures SplitSearch(Ordinal, [Group("a", [], []), Command("a", [], 0)], Cursor(["a"], 0)) == [Command("a", [], 0)]
    ensures TokenSearch(Ordinal, BindAny, [Group("a", [], []), Command("a", [], 0)], Cursor(Values(["a"]), 0)) == [Command("a", [], 0)]
  {
  }

  /**
   * A command after a matched group is compared with the component after the group's: the
   * searches as written find "b" for "a b" although "b" is not below "a". The list search
   * and the corrected searches find nothing.
   */
  lemma GroupShiftsLaterSibling()
    ensures ListSearch(Ordinal, [Group("a", [], []), Command("b", [], 0)], ["a", "b"]) == []
    ensures SplitSearchAsWritten(Ordinal, [Group("a", [], []), Command("b", [], 0)], Cursor(["a", "b"], 0)) == [Command("b", [], 0)]
    ensures TokenSearchAsWritten(Ordinal, BindAny, [Group("a", [], []), Command("b", [], 0)], Cursor(Values(["a", "b"]), 0)) == [Command("b", [], 0)]
    ensures SplitSearch(Ordinal, [Group("a", [], []), Command("b", [], 0)], Cursor(["a", "b"], 0)) == []
    ensures TokenSearch(Ordinal, BindAny, [Group("a", [], []), Command("b", [], 0)], Cursor(Values(["a", "b"]), 0)) == []
  {
  }
}
