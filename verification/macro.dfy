/**
 * The member-attribute macro `@MakeEverythingInlinable`: for each member of
 * the annotated type it decides which attributes to add, from the member's
 * kind, its modifier list and, for a variable, whether a binding has an
 * accessor block.
 */
module MakeEverythingInlinable {

  import opened Wrappers
  import opened Syntax
  import opened AccessLevels

  /** The attributes the macro can add to a member. */
  datatype AddedAttribute = Inlinable | UsableFromInline | MakeEverythingInliable

  /** Reads an attribute text back; the inverse of `MakeAttributeSyntax`. */
  function ParseAttribute(text: string): (r: Option<AddedAttribute>)
    ensures r.Some? ==> |text| > 1 && text[0] == '@'
  {
    if text == "@inlinable" then Some(Inlinable)
    else if text == "@usableFromInline" then Some(UsableFromInline)
    else if text == "@MakeEverythingInlinable" then Some(MakeEverythingInliable)
    else None
  }

  /** The attribute text spliced onto the member. */
  function MakeAttributeSyntax(a: AddedAttribute): (text: string)
    ensures ParseAttribute(text) == Some(a)
    ensures |text| > 1 && text[0] == '@'
  {
    match a
    case Inlinable => "@inlinable"
    case UsableFromInline => "@usableFromInline"
    case MakeEverythingInliable => "@MakeEverythingInlinable"
  }

  /**
   * The rule for stored properties, type aliases and nested structs: the
   * first access keyword decides; `package` and `internal` give
   * `@usableFromInline`, `public`, `fileprivate` and `private` give nothing,
   * and a list without an access keyword gives `@usableFromInline`.
   */
  function MakeFromStoredPropertyOrType(mods: seq<Modifier>): (r: Option<AddedAttribute>)
    ensures r == None || r == Some(UsableFromInline)
    ensures r == Some(UsableFromInline) <==> Canonicalize(mods) in {InternalLevel, PackageLevel}
  {
    if |mods| == 0 then Some(UsableFromInline)
    else match mods[0]
      case Package => Some(UsableFromInline)
      case Internal => Some(UsableFromInline)
      case Public => None
      case Fileprivate => None
      case Private => None
      case Other(_) => MakeFromStoredPropertyOrType(mods[1..])
  }

  /**
   * The rule for functions and variables with accessors: the first access
   * keyword decides; `package`, `internal` and `public` give `@inlinable`,
   * `fileprivate` and `private` give nothing, and a list without an access
   * keyword gives `@inlinable`.
   */
  function MakeFromFunctionDeclOrAccessors(mods: seq<Modifier>): (r: Option<AddedAttribute>)
    ensures r == None || r == Some(Inlinable)
    ensures r == None <==> Canonicalize(mods) in {PrivateLevel, FileprivateLevel}
  {
    if |mods| == 0 then Some(Inlinable)
    else match mods[0]
      case Package => Some(Inlinable)
      case Internal => Some(Inlinable)
      case Public => Some(Inlinable)
      case Fileprivate => None
      case Private => None
      case Other(_) => MakeFromFunctionDeclOrAccessors(mods[1..])
  }

  /**
   * `resultAttribute` of the expansion: the optional attributes chosen by
   * the member's kind, before the `nil`s are dropped.
   */
  function ResultAttribute(member: Member): (r: seq<Option<AddedAttribute>>)
    ensures |r| <= 2
    ensures |r| == 0 <==> member.kind.OtherDecl?
    ensures Some(MakeEverythingInliable) in r <==> member.kind.Struct?
  {
    match member.kind
    case Variable(bindings) =>
      if ContainsAccessor(bindings) then [MakeFromFunctionDeclOrAccessors(member.modifiers)]
      else [MakeFromStoredPropertyOrType(member.modifiers)]
    case Function(_) => [MakeFromFunctionDeclOrAccessors(member.modifiers)]
    case TypeAlias(_) => [MakeFromStoredPropertyOrType(member.modifiers)]
    case Struct(_) => [Some(MakeEverythingInliable), MakeFromStoredPropertyOrType(member.modifiers)]
    case OtherDecl(_) => []
  }

  /** The `nil`-dropping half of `compactMap`, keeping the order of the rest. */
  function Compact(xs: seq<Option<AddedAttribute>>): (r: seq<AddedAttribute>)
    ensures |r| <= |xs|
    ensures forall x :: x in r <==> Some(x) in xs
    ensures (forall i :: 0 <= i < |xs| ==> xs[i].Some?) ==>
      r == seq(|xs|, i requires 0 <= i < |xs| => xs[i].value)
  {
    if |xs| == 0 then []
    else match xs[0]
      case Some(x) => [x] + Compact(xs[1..])
      case None => Compact(xs[1..])
  }

  /** Dropping the `nil`s of a concatenation: order and multiplicity are kept. */
  lemma {:induction false} CompactAppend(xs: seq<Option<AddedAttribute>>, ys: seq<Option<AddedAttribute>>)
    ensures Compact(xs + ys) == Compact(xs) + Compact(ys)
  {
    if |xs| > 0 {
      assert (xs + ys)[1..] == xs[1..] + ys;
      CompactAppend(xs[1..], ys);
    } else {
      assert xs + ys == ys;
    }
  }

  /** The attributes the macro adds to `member`, in order. */
  function Attributes(member: Member): (r: seq<AddedAttribute>)
    ensures |r| <= 2
  {
    Compact(ResultAttribute(member))
  }

  /**
   * The member-attribute expansion: the texts of the attributes to add to
   * `member`, one per non-`nil` entry of `resultAttribute`.
   */
  function Expansion(member: Member): (r: seq<string>)
    ensures |r| == |Attributes(member)|
    ensures forall i :: 0 <= i < |r| ==> ParseAttribute(r[i]) == Some(Attributes(member)[i])
  {
    var attrs := Attributes(member);
    seq(|attrs|, i requires 0 <= i < |attrs| => MakeAttributeSyntax(attrs[i]))
  }

}
