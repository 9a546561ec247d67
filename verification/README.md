# MakeEverythingInlinable — a Dafny model of the member-attribute policy

`@MakeEverythingInlinable` is a Swift member-attribute macro. Attached to a
type, it is asked once per member of that type which attributes to add, and
answers from three facts only: the member's kind (variable, function,
typealias, struct, anything else), its modifier list, and, for a variable,
whether any of its bindings has an accessor block. Storage-like members
(stored properties, type aliases, nested structs) get `@usableFromInline`
when their first access keyword is `internal` or `package`, or when they
have none; behaviour-like members (functions, variables with accessors) get
`@inlinable` unless their first access keyword is `fileprivate` or
`private`; a nested struct also gets `@MakeEverythingInlinable`, first,
so that the compiler applies the macro to its members in turn.

The project is five modules, one file each:

- `wrappers.dfy` — `Wrappers`: `Option`, standing for Swift's optionals.
- `syntax.dfy` — `Syntax`: modifiers, bindings, member kinds and members,
  and `containsAccessor`.
- `access_levels.dfy` — `AccessLevels`: access levels, their ranks
  (private < fileprivate < internal = package < public) and the canonical level
  of a modifier list: the first of the five access keywords the macro
  recognises, `internal` by default.
- `macro.dfy` — `MakeEverythingInlinable`: the added attributes and
  their texts, the two first-match modifier scans, the kind dispatch and
  the `compactMap` that drops the `nil`s.
- `policy.dfy` — `InliningPolicy`: a reference policy written with rank
  thresholds, and the lemmas that tie the macro to it.

Deliberate choices:

- The macro emits the `@MakeEverythingInlinable` marker before the
  storage-like attribute (source lines 126-129); `ExpansionShape` proves the
  marker comes first.
- A modifier is identified by its name token, as the code does. So
  `private(set)` counts as `private`: `private(set) var x` gets nothing.
- `package` has its own access level, with the same rank as `internal`.
  `PackageActsAsInternal` proves both scans treat the two keywords alike.
- Swift's sixth access level, `open`, has no case in either scan, so the
  macro skips it like any other modifier: it is `Other("open")` here, and
  the levels above have no `open`. An `open` member with no other access
  keyword falls to the `internal` default, so an `open var` gets
  `@usableFromInline` and an `open func` gets `@inlinable`;
  `OpenFallsToInternalDefault` proves this.
- The expansion ignores the attributes a member already has. Expanding the
  expansion's own output gives the same attributes again, and splicing them
  in a second time duplicates them; a nested struct that already carries
  `@MakeEverythingInlinable`, such as `S` in the client example, gets the
  marker a second time. `ReapplyingDuplicatesAttributes` shows both.

## Model

| member | source | states |
|---|---|---|
| `Syntax.ContainsAccessor` | Sources/MakeEverythingInlinableMacros/MakeEverythingInlinableMacro.swift:28-37 | true exactly when some binding has an accessor block; so an empty binding list gives false |
| `AccessLevels.KeywordLevel` | Sources/MakeEverythingInlinableMacros/MakeEverythingInlinableMacro.swift:72-78 | a modifier names an access level exactly when it is one of package, internal, public, fileprivate, private |
| `AccessLevels.Canonicalize` | Sources/MakeEverythingInlinableMacros/MakeEverythingInlinableMacro.swift:70-85 | the canonical level is the level of the first access keyword, or internal when there is none |
| `AccessLevels.FirstAccessOrNone` | Sources/MakeEverythingInlinableMacros/MakeEverythingInlinableMacro.swift:71-84 | a modifier list either has a first access keyword or has no access keyword at all, never both |
| `MakeEverythingInlinable.MakeAttributeSyntax` | Sources/MakeEverythingInlinableMacros/MakeEverythingInlinableMacro.swift:59-68 | each attribute is written as an `@` text that reads back as that same attribute |
| `MakeEverythingInlinable.MakeFromStoredPropertyOrType` | Sources/MakeEverythingInlinableMacros/MakeEverythingInlinableMacro.swift:70-85 | the storage-like scan gives `usableFromInline` or nothing, and gives `usableFromInline` exactly when the canonical level is internal or package |
| `MakeEverythingInlinable.MakeFromFunctionDeclOrAccessors` | Sources/MakeEverythingInlinableMacros/MakeEverythingInlinableMacro.swift:87-102 | the behaviour-like scan gives `inlinable` or nothing, and gives nothing exactly when the canonical level is private or fileprivate |
| `MakeEverythingInlinable.ResultAttribute` | Sources/MakeEverythingInlinableMacros/MakeEverythingInlinableMacro.swift:113-130 | the optional-attribute list has at most two slots; it is empty exactly for a member of another kind; it holds the marker exactly for a struct |
| `MakeEverythingInlinable.Compact` | Sources/MakeEverythingInlinableMacros/MakeEverythingInlinableMacro.swift:132-132 | dropping the nils keeps exactly the present attributes and never lengthens the list; with no nil, the result is the list of values in the same order |
| `MakeEverythingInlinable.CompactAppend` | Sources/MakeEverythingInlinableMacros/MakeEverythingInlinableMacro.swift:132-132 | dropping the nils of a concatenation concatenates the results, so order and multiplicity are kept |
| `MakeEverythingInlinable.Expansion` | Sources/MakeEverythingInlinableMacros/MakeEverythingInlinableMacro.swift:106-133 | the expansion has one text per added attribute, in order, and each text reads back as its attribute |
| `InliningPolicy.StorageScanMeetsThreshold` | Sources/MakeEverythingInlinableMacros/MakeEverythingInlinableMacro.swift:70-85 | the storage-like scan adds `usableFromInline` exactly when the canonical level ranks above fileprivate and below public |
| `InliningPolicy.BehaviorScanMeetsThreshold` | Sources/MakeEverythingInlinableMacros/MakeEverythingInlinableMacro.swift:87-102 | the behaviour-like scan adds `inlinable` exactly when the canonical level ranks above fileprivate |
| `InliningPolicy.FirstAccessKeywordTable` | Sources/MakeEverythingInlinableMacros/MakeEverythingInlinableMacro.swift:70-102 | truth table: with no access keyword the scans give `usableFromInline` and `inlinable`; otherwise the first keyword decides: package/internal give both, public gives only `inlinable`, fileprivate/private give neither |
| `InliningPolicy.OnlyFirstAccessKeywordMatters` | Sources/MakeEverythingInlinableMacros/MakeEverythingInlinableMacro.swift:70-102 | after non-access modifiers, the first access keyword alone decides both scans, whatever access keywords follow it |
| `InliningPolicy.InsertingOtherModifier` | Sources/MakeEverythingInlinableMacros/MakeEverythingInlinableMacro.swift:70-102 | inserting a non-access modifier at any position changes neither scan |
| `InliningPolicy.RemovingOtherModifiers` | Sources/MakeEverythingInlinableMacros/MakeEverythingInlinableMacro.swift:70-102 | removing every non-access modifier changes neither scan |
| `InliningPolicy.PackageActsAsInternal` | Sources/MakeEverythingInlinableMacros/MakeEverythingInlinableMacro.swift:70-102 | replacing an `internal` by `package` at any position changes neither scan |
| `InliningPolicy.ScansDisagreeOnlyOnPublic` | Sources/MakeEverythingInlinableMacros/MakeEverythingInlinableMacro.swift:70-102 | when the storage-like scan gives `usableFromInline`, the behaviour-like scan gives `inlinable`; they disagree on adding anything exactly when the canonical level is public |
| `InliningPolicy.ExpansionFollowsPolicy` | Sources/MakeEverythingInlinableMacros/MakeEverythingInlinableMacro.swift:113-132 | dispatch by kind: variable with accessor and function follow the behaviour-like rule, variable without accessor and typealias the storage-like rule, struct the marker followed by the storage-like rule, any other kind nothing |
| `InliningPolicy.ExpansionShape` | Sources/MakeEverythingInlinableMacros/MakeEverythingInlinableMacro.swift:113-132 | at most two attributes, never both `inlinable` and `usableFromInline`, no duplicates, the marker present exactly for a struct and then first, nothing for another kind |
| `InliningPolicy.ExpansionIgnoresExistingAttributes` | Sources/MakeEverythingInlinableMacros/MakeEverythingInlinableMacro.swift:106-133 | the expansion does not depend on the member's existing attributes |
| `InliningPolicy.ExpansionStableOnOwnOutput` | Sources/MakeEverythingInlinableMacros/MakeEverythingInlinableMacro.swift:106-133 | expanding a member that already carries its expansion gives the same attributes again |
| `InliningPolicy.ReapplyingDuplicatesAttributes` | Sources/MakeEverythingInlinableMacros/MakeEverythingInlinableMacro.swift:125-132 | a nested struct already carrying the marker gets it again, and splicing the expansion twice leaves every attribute in twice |
| `InliningPolicy.OpenFallsToInternalDefault` | Sources/MakeEverythingInlinableMacros/MakeEverythingInlinableMacro.swift:70-102 | `open` is skipped by both scans: with no other access keyword an `open` member gets `usableFromInline` as storage and `inlinable` as behaviour |
| `InliningPolicy.AttributeSyntaxInjective` | Sources/MakeEverythingInlinableMacros/MakeEverythingInlinableMacro.swift:59-68 | the three attributes are written as three different texts |
| `InliningPolicy.TestStructExpansion` | Tests/MakeEverythingInlinableTests/MakeEverythingInlinableTests.swift:19-45 | `private var foo` gets nothing, `var bar` gets `@usableFromInline`, computed `public var baz` gets `@inlinable` |
| `InliningPolicy.NestedStructExpansion` | Sources/MakeEverythingInlinableMacros/MakeEverythingInlinableMacro.swift:125-129 | a nested struct with no access modifier, such as `S` in the client example, gets `@MakeEverythingInlinable` then `@usableFromInline`, whatever attributes it already has |

## Left out

- `StringifyMacro` (the `#stringify` expression macro): an unrelated demo macro; it only interpolates expression text, which is SwiftSyntax's business.
- The freestanding `expansion` overload that returns an empty list, and the compiler-plugin registration: host plumbing with no logic.
- SwiftSyntax itself: parsing, token kinds, the `HasAccessLevelModifier` conformances and building `AttributeSyntax` values. Members are plain datatypes and attributes are plain strings.
- The recursion into nested structs: the compiler performs it by expanding the emitted `@MakeEverythingInlinable` marker again. The model proves that the marker is emitted and does not model the re-expansion.
- The thrown-error path of `expansion`: the code never throws, so the model is a total function.
- The usage example `Sources/MakeEverythingInlinableClient/main.swift` and the XCTest test case; their expected outputs appear only as the two example lemmas.
