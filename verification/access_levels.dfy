/**
 * The access-level model that the macro's two scans implement: the
 * canonical level of a modifier list is the level of its first
 * access-level keyword, `internal` when it has none; levels are ranked
 * private < fileprivate < internal = package < public. Swift's `open` is
 * not among the keywords the macro recognises, so it has no level here.
 */
module AccessLevels {

  import opened Wrappers
  import opened Syntax

  datatype AccessLevel = PrivateLevel | FileprivateLevel | InternalLevel | PackageLevel | PublicLevel

  /** Visibility rank; `package` ranks with `internal`. */
  function Rank(level: AccessLevel): (r: nat)
    ensures r <= 3
    ensures r == 2 <==> level in {InternalLevel, PackageLevel}
  {
    match level
    case PrivateLevel => 0
    case FileprivateLevel => 1
    case InternalLevel => 2
    case PackageLevel => 2
    case PublicLevel => 3
  }

  /** The level an access-level keyword names; `None` for any other modifier. */
  function KeywordLevel(m: Modifier): (r: Option<AccessLevel>)
    ensures r.Some? <==> m.IsAccessKeyword()
  {
    match m
    case Package => Some(PackageLevel)
    case Internal => Some(InternalLevel)
    case Public => Some(PublicLevel)
    case Fileprivate => Some(FileprivateLevel)
    case Private => Some(PrivateLevel)
    case Other(_) => None
  }

  /** No modifier in `mods` is an access-level keyword. */
  ghost predicate NoAccessKeyword(mods: seq<Modifier>) {
    forall j :: 0 <= j < |mods| ==> !mods[j].IsAccessKeyword()
  }

  /** `mods[i]` is the first access-level keyword of `mods`. */
  ghost predicate FirstAccessAt(mods: seq<Modifier>, i: int) {
    && 0 <= i < |mods|
    && mods[i].IsAccessKeyword()
    && forall j :: 0 <= j < i ==> !mods[j].IsAccessKeyword()
  }

  /** The canonical access level of a modifier list. */
  function Canonicalize(mods: seq<Modifier>): (r: AccessLevel)
    ensures NoAccessKeyword(mods) ==> r == InternalLevel
    ensures forall i :: FirstAccessAt(mods, i) ==> KeywordLevel(mods[i]) == Some(r)
  {
    if |mods| == 0 then InternalLevel
    else match KeywordLevel(mods[0])
      case Some(level) => level
      case None =>
        assert forall i :: FirstAccessAt(mods, i) ==> i > 0 && FirstAccessAt(mods[1..], i - 1);
        Canonicalize(mods[1..])
  }

  /** Every modifier list either has no access keyword or has a first one. */
  lemma {:induction false} FirstAccessOrNone(mods: seq<Modifier>)
    ensures NoAccessKeyword(mods) <==> !exists i :: FirstAccessAt(mods, i)
  {
    if |mods| > 0 {
      if mods[0].IsAccessKeyword() {
        assert FirstAccessAt(mods, 0);
      } else {
        FirstAccessOrNone(mods[1..]);
        if i :| FirstAccessAt(mods[1..], i) {
          assert FirstAccessAt(mods, i + 1);
        } else {
          forall j | 0 <= j < |mods| ensures !mods[j].IsAccessKeyword() {
            if j > 0 {
              assert mods[j] == mods[1..][j - 1];
            }
          }
        }
      }
    }
  }

}
