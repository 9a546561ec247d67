/**
 * What the member-attribute macro promises, stated against a reference
 * policy written in terms of access-level ranks, and proved about the
 * functions of `MakeEverythingInlinable`.
 */
module InliningPolicy {

  import opened Wrappers
  import opened Syntax
  import opened AccessLevels
  import opened MakeEverythingInlinable

  // ----- Reference policy ---------------------------------------------------

  /**
   * Storage-like members (stored properties, type aliases, nested structs)
   * get `@usableFromInline` exactly when they are visible beyond their file
   * but not already public.
   */
  ghost function ClassifyStorageLike(level: AccessLevel): seq<AddedAttribute> {
    if Rank(FileprivateLevel) < Rank(level) < Rank(PublicLevel) then [UsableFromInline] else []
  }

  /**
   * Behaviour-like members (functions, variables with accessors) get
   * `@inlinable` exactly when they are visible beyond their file.
   */
  ghost function ClassifyBehaviorLike(level: AccessLevel): seq<AddedAttribute> {
    if Rank(FileprivateLevel) < Rank(level) then [Inlinable] else []
  }

  /** The classification of one member, by kind, on its canonical level. */
  ghost function ClassifyMember(member: Member): seq<AddedAttribute> {
    var level := Canonicalize(member.modifiers);
    match member.kind
    case Variable(bindings) =>
      if HasAccessor(bindings) then ClassifyBehaviorLike(level) else ClassifyStorageLike(level)
    case Function(_) => ClassifyBehaviorLike(level)
    case TypeAlias(_) => ClassifyStorageLike(level)
    case Struct(_) => [MakeEverythingInliable] + ClassifyStorageLike(level)
    case OtherDecl(_) => []
  }

  // ----- The two modifier scans ----------------------------------------------

  /** The storage-like scan is the rank threshold applied to the canonical level. */
  lemma StorageScanMeetsThreshold(mods: seq<Modifier>)
    ensures Compact([MakeFromStoredPropertyOrType(mods)]) == ClassifyStorageLike(Canonicalize(mods))
  {
  }

  /** The behaviour-like scan is the rank threshold applied to the canonical level. */
  lemma BehaviorScanMeetsThreshold(mods: seq<Modifier>)
    ensures Compact([MakeFromFunctionDeclOrAccessors(mods)]) == ClassifyBehaviorLike(Canonicalize(mods))
  {
  }

  /**
   * The truth table of both scans over the first access keyword, and the
   * `internal` default when there is none.
   */
  lemma FirstAccessKeywordTable(mods: seq<Modifier>)
    ensures NoAccessKeyword(mods) ==>
      MakeFromStoredPropertyOrType(mods) == Some(UsableFromInline)
      && MakeFromFunctionDeclOrAccessors(mods) == Some(Inlinable)
    ensures forall i :: FirstAccessAt(mods, i) ==>
      && (MakeFromStoredPropertyOrType(mods) == Some(UsableFromInline) <==> mods[i] in {Package, Internal})
      && (MakeFromStoredPropertyOrType(mods) == None <==> mods[i] in {Public, Fileprivate, Private})
      && (MakeFromFunctionDeclOrAccessors(mods) == Some(Inlinable) <==> mods[i] in {Package, Internal, Public})
      && (MakeFromFunctionDeclOrAccessors(mods) == None <==> mods[i] in {Fileprivate, Private})
  {
  }

  /**
   * Only the first access keyword matters: whatever follows it, even a
   * disagreeing access keyword, leaves both scans unchanged.
   */
  lemma OnlyFirstAccessKeywordMatters(prefix: seq<Modifier>, k: Modifier, rest: seq<Modifier>)
    requires NoAccessKeyword(prefix) && k.IsAccessKeyword()
    ensures MakeFromStoredPropertyOrType(prefix + [k] + rest) == MakeFromStoredPropertyOrType([k])
    ensures MakeFromFunctionDeclOrAccessors(prefix + [k] + rest) == MakeFromFunctionDeclOrAccessors([k])
  {
    var mods := prefix + [k] + rest;
    assert FirstAccessAt(mods, |prefix|);
    assert FirstAccessAt([k], 0);
  }

  /** Inserting a non-access modifier anywhere changes neither scan. */
  lemma {:induction false} InsertingOtherModifier(mods: seq<Modifier>, k: nat, o: Modifier)
    requires k <= |mods| && !o.IsAccessKeyword()
    ensures MakeFromStoredPropertyOrType(mods[..k] + [o] + mods[k..]) == MakeFromStoredPropertyOrType(mods)
    ensures MakeFromFunctionDeclOrAccessors(mods[..k] + [o] + mods[k..]) == MakeFromFunctionDeclOrAccessors(mods)
  {
    var inserted := mods[..k] + [o] + mods[k..];
    if k == 0 {
      assert inserted[1..] == mods;
    } else {
      assert inserted[0] == mods[0];
      if !mods[0].IsAccessKeyword() {
        var tail := mods[1..];
        InsertingOtherModifier(tail, k - 1, o);
        assert inserted[1..] == tail[..k - 1] + [o] + tail[k - 1..];
      }
    }
  }

  /** The access keywords of a modifier list, in order. */
  function AccessKeywords(mods: seq<Modifier>): (r: seq<Modifier>)
    ensures forall j :: 0 <= j < |r| ==> r[j].IsAccessKeyword()
    ensures NoAccessKeyword(mods) ==> r == []
    ensures forall i :: FirstAccessAt(mods, i) ==> |r| > 0 && r[0] == mods[i]
  {
    if |mods| == 0 then []
    else if mods[0].IsAccessKeyword() then [mods[0]] + AccessKeywords(mods[1..])
    else AccessKeywords(mods[1..])
  }

  /** Removing every non-access modifier changes neither scan. */
  lemma {:induction false} RemovingOtherModifiers(mods: seq<Modifier>)
    ensures MakeFromStoredPropertyOrType(AccessKeywords(mods)) == MakeFromStoredPropertyOrType(mods)
    ensures MakeFromFunctionDeclOrAccessors(AccessKeywords(mods)) == MakeFromFunctionDeclOrAccessors(mods)
  {
    if |mods| > 0 && !mods[0].IsAccessKeyword() {
      RemovingOtherModifiers(mods[1..]);
    }
  }

  /** `package` is treated exactly like `internal` by both scans. */
  lemma {:induction false} PackageActsAsInternal(prefix: seq<Modifier>, rest: seq<Modifier>)
    ensures MakeFromStoredPropertyOrType(prefix + [Package] + rest)
         == MakeFromStoredPropertyOrType(prefix + [Internal] + rest)
    ensures MakeFromFunctionDeclOrAccessors(prefix + [Package] + rest)
         == MakeFromFunctionDeclOrAccessors(prefix + [Internal] + rest)
  {
    if |prefix| > 0 && !prefix[0].IsAccessKeyword() {
      PackageActsAsInternal(prefix[1..], rest);
      assert (prefix + [Package] + rest)[1..] == prefix[1..] + [Package] + rest;
      assert (prefix + [Internal] + rest)[1..] == prefix[1..] + [Internal] + rest;
    }
  }

  /**
   * Whenever the storage-like scan gives `@usableFromInline`, the
   * behaviour-like scan gives `@inlinable`; the two disagree on whether to
   * add anything exactly when the canonical level is `public`.
   */
  lemma ScansDisagreeOnlyOnPublic(mods: seq<Modifier>)
    ensures MakeFromStoredPropertyOrType(mods) == Some(UsableFromInline) ==>
      MakeFromFunctionDeclOrAccessors(mods) == Some(Inlinable)
    ensures MakeFromStoredPropertyOrType(mods).Some? != MakeFromFunctionDeclOrAccessors(mods).Some?
      <==> Canonicalize(mods) == PublicLevel
  {
  }

  // ----- The expansion -------------------------------------------------------

  /** The expansion dispatches on the member's kind as the reference policy says. */
  lemma ExpansionFollowsPolicy(member: Member)
    ensures Attributes(member) == ClassifyMember(member)
  {
    var mods := member.modifiers;
    match member.kind
    case Variable(_) =>
    case Function(_) =>
    case TypeAlias(_) =>
    case Struct(_) =>
      assert ResultAttribute(member)[1..] == [MakeFromStoredPropertyOrType(mods)];
      assert Attributes(member) == [MakeEverythingInliable] + Compact([MakeFromStoredPropertyOrType(mods)]);
    case OtherDecl(_) =>
  }

  /**
   * The shape of every expansion: at most two attributes, at most one of
   * `@inlinable` and `@usableFromInline`, no attribute twice, and the
   * recursive marker first for a nested struct and nowhere else.
   */
  lemma ExpansionShape(member: Member)
    ensures |Attributes(member)| <= 2
    ensures !(Inlinable in Attributes(member) && UsableFromInline in Attributes(member))
    ensures forall i, j :: 0 <= i < j < |Attributes(member)| ==> Attributes(member)[i] != Attributes(member)[j]
    ensures MakeEverythingInliable in Attributes(member) <==> member.kind.Struct?
    ensures member.kind.Struct? ==> |Attributes(member)| >= 1 && Attributes(member)[0] == MakeEverythingInliable
    ensures member.kind.OtherDecl? ==> Attributes(member) == []
  {
  }

  /** The expansion does not look at the member's existing attributes. */
  lemma ExpansionIgnoresExistingAttributes(member: Member, attributes: seq<string>)
    ensures Expansion(member.(attributes := attributes)) == Expansion(member)
  {
  }

  /** The member with the expansion's attributes spliced in front of its own. */
  function ApplyExpansion(member: Member): Member {
    member.(attributes := Expansion(member) + member.attributes)
  }

  /** Expanding a member that carries its own expansion gives the same attributes. */
  lemma ExpansionStableOnOwnOutput(member: Member)
    ensures Expansion(ApplyExpansion(member)) == Expansion(member)
  {
  }

  /**
   * The expansion does not check what a member already carries: a nested
   * struct already marked `@MakeEverythingInlinable` gets the marker again,
   * and splicing the expansion in twice leaves every attribute in twice.
   */
  lemma ReapplyingDuplicatesAttributes()
    ensures Expansion(Member(["@MakeEverythingInlinable"], [], Struct("S")))[0] == "@MakeEverythingInlinable"
    ensures ApplyExpansion(ApplyExpansion(Member([], [], Struct("S")))).attributes
         == ["@MakeEverythingInlinable", "@usableFromInline", "@MakeEverythingInlinable", "@usableFromInline"]
  {
  }

  /**
   * `open` has no case in either scan: an `open` member with no other
   * access keyword gets the `internal` default, so `@usableFromInline` as
   * storage and `@inlinable` as behaviour.
   */
  lemma OpenFallsToInternalDefault(mods: seq<Modifier>, k: nat)
    requires NoAccessKeyword(mods) && k <= |mods|
    ensures MakeFromStoredPropertyOrType(mods[..k] + [Other("open")] + mods[k..]) == Some(UsableFromInline)
    ensures MakeFromFunctionDeclOrAccessors(mods[..k] + [Other("open")] + mods[k..]) == Some(Inlinable)
  {
  }

  /** Different attributes are spelled differently. */
  lemma AttributeSyntaxInjective(a: AddedAttribute, b: AddedAttribute)
    ensures MakeAttributeSyntax(a) == MakeAttributeSyntax(b) ==> a == b
  {
  }

  // ----- Worked examples -----------------------------------------------------

  /**
   * The struct of the expansion test: `private var foo: Int` gets nothing,
   * `var bar: Int` gets `@usableFromInline`, and the computed
   * `public var baz: Int { bar + 1 }` gets `@inlinable`.
   */
  lemma TestStructExpansion()
    ensures Expansion(Member([], [Private], Variable([Binding("foo: Int", None)]))) == []
    ensures Expansion(Member([], [], Variable([Binding("bar: Int", None)]))) == ["@usableFromInline"]
    ensures Expansion(Member([], [Public], Variable([Binding("baz: Int", Some("bar + 1"))])))
         == ["@inlinable"]
  {
  }

  /**
   * A nested struct without access modifier gets the recursive marker
   * followed by `@usableFromInline`, whatever attributes it already has.
   */
  lemma NestedStructExpansion(attributes: seq<string>)
    ensures Expansion(Member(attributes, [], Struct("S"))) == ["@MakeEverythingInlinable", "@usableFromInline"]
  {
  }

}
