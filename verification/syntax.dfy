/**
 * The slice of the syntax tree that the member-attribute macro looks at:
 * a member declaration's existing attributes, its modifier list, its kind
 * and, for a variable, its pattern bindings with their optional accessor
 * blocks. Parsing source text into these values is the host's job.
 */
module Syntax {

  import opened Wrappers

  /**
   * A declaration modifier, identified by the kind of its name token.
   * The five access-level keywords the macro recognises are told apart;
   * every other modifier (`static`, `mutating`, `final`, `nonisolated`, and
   * also the access keyword `open`, which the macro does not recognise) is
   * `Other` and keeps its spelling. A modifier with a detail, such as `private(set)`, is
   * identified by its name token alone, so it is `Private` here.
   */
  datatype Modifier =
    | Package
    | Internal
    | Public
    | Fileprivate
    | Private
    | Other(keyword: string)
  {
    /** Whether the modifier is one of the five access-level keywords. */
    predicate IsAccessKeyword() {
      !Other?
    }
  }

  /**
   * One pattern binding of a variable declaration (`x: Int = 0`,
   * `y: Int { x + 1 }`); `accessorBlock` is the text of its `{ ... }`
   * accessor block (getter, setter or observers) when it has one.
   */
  datatype Binding = Binding(pattern: string, accessorBlock: Option<string>)

  /** The kinds of member declaration the macro tells apart. */
  datatype DeclKind =
    | Variable(bindings: seq<Binding>)
    | Function(name: string)
    | TypeAlias(name: string)
    | Struct(name: string)
      /** Any other declaration: `enum`, `class`, `init`, `subscript`, ... */
    | OtherDecl(keyword: string)

  /** A member declaration of the annotated type. */
  datatype Member = Member(attributes: seq<string>, modifiers: seq<Modifier>, kind: DeclKind)

  /** Some binding of a variable declaration carries an accessor block. */
  ghost predicate HasAccessor(bindings: seq<Binding>) {
    exists i :: 0 <= i < |bindings| && bindings[i].accessorBlock.Some?
  }

  /**
   * `containsAccessor` of a variable declaration: a first-match scan over
   * its bindings that stops at the first one with an accessor block.
   */
  function ContainsAccessor(bindings: seq<Binding>): (r: bool)
    ensures r <==> HasAccessor(bindings)
  {
    if |bindings| == 0 then false
    else if bindings[0].accessorBlock.Some? then true
    else ContainsAccessor(bindings[1..])
  }

}
