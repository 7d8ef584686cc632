/**
 * The command tree as the search engine sees it, the lexical tokens it consumes, and the
 * two enumerators (path splitter and tokenizer) that feed it one component at a time.
 */
module Nodes {
  /** The opaque handler reference a command node carries. */
  type CommandId = nat

  /**
   * A child of a parent node. Groups are both children and parents; commands are children
   * only. The variant is closed, so a child that is neither cannot occur.
   */
  datatype Node =
    | Group(key: string, aliases: seq<string>, children: seq<Node>)
    | Command(key: string, aliases: seq<string>, id: CommandId)

  /** The top of the tree: a parent without a key. */
  datatype RootNode = RootNode(children: seq<Node>)

  /** The state of a command tree: the root of the available commands, built once and never changed. */
  datatype Tree = Tree(root: RootNode)

  /**
   * The configured key comparison, applied as `comparison(component, keyOrAlias)`.
   * Ordinal comparison is `Ordinal` below; culture- or case-aware ones are just other values.
   */
  type KeyComparison = (string, string) -> bool

  function Ordinal(component: string, key: string): bool
  {
    component == key
  }

  /** The named parameters handed to the name-path entry points, by parameter name. */
  type NamedParameters = map<string, seq<string>>

  datatype TokenType = Value | LongName | ShortName

  datatype Token = Token(tokenType: TokenType, value: string)

  /**
   * A forward-only enumerator over already-produced items. `consumed` counts the items
   * `MoveNext` has stepped over, so `Current()` is `items[consumed - 1]`. The enumerators of
   * the source are value types: every call receives its own copy, which is what passing this
   * datatype by value expresses.
   */
  datatype Cursor<T> = Cursor(items: seq<T>, consumed: nat)
  {
    /** A state the enumerator can reach: it never steps past its last item. */
    predicate Valid()
    {
      consumed <= |items|
    }

    /** Steps to the next item; at the end it reports false and stays where it is. */
    function MoveNext(): (bool, Cursor<T>)
    {
      if consumed < |items| then (true, this.(consumed := consumed + 1)) else (false, this)
    }

    function Current(): T
      requires 0 < consumed <= |items|
    {
      items[consumed - 1]
    }
  }

  /** The splitter over a command name string, yielding its separator-delimited components. */
  type SplitEnumerator = Cursor<string>

  /** The tokenizer over a raw command string, yielding its tokens. */
  type TokenizingEnumerator = Cursor<Token>
}
