/**
 * Choosing one `ParameterAttribute` of a property: the representative shown
 * in the flat parameter list, and the one matching a parameter set in a
 * syntax item.
 */
module Variants {
  import opened Wrappers
  import opened Text
  import opened Metadata

  /** A variant that names no set, or the reserved all-sets name. */
  predicate IsAllSets(v: Variant) {
    v.setName == "" || v.setName == AllParameterSets
  }

  /** The set name as the representative search compares it: all-sets counts as "". */
  function SelectionSet(v: Variant): string {
    if IsAllSets(v) then "" else v.setName
  }

  /** The variant belongs to the command's default set (case-insensitively; no default is ""). */
  predicate MatchesDefault(v: Variant, defaultSet: string) {
    Lower(SelectionSet(v)) == Lower(defaultSet)
  }

  /** Index of the first variant in the default set. */
  function FirstDefaultMatch(vs: seq<Variant>, defaultSet: string): (r: Option<nat>)
    ensures r.Some? ==> r.value < |vs| && MatchesDefault(vs[r.value], defaultSet)
    ensures r.Some? ==> forall j :: 0 <= j < r.value ==> !MatchesDefault(vs[j], defaultSet)
    ensures r.None? ==> forall j :: 0 <= j < |vs| ==> !MatchesDefault(vs[j], defaultSet)
  {
    if vs == [] then None
    else if MatchesDefault(vs[0], defaultSet) then Some(0)
    else
      match FirstDefaultMatch(vs[1..], defaultSet)
      case None => None
      case Some(k) => Some(k + 1)
  }

  lemma FirstDefaultMatchAt(vs: seq<Variant>, defaultSet: string, i: nat)
    requires i < |vs| && MatchesDefault(vs[i], defaultSet)
    requires forall j :: 0 <= j < i ==> !MatchesDefault(vs[j], defaultSet)
    ensures FirstDefaultMatch(vs, defaultSet) == Some(i)
  {
  }

  /** Index of the last all-sets variant. */
  function LastAllSets(vs: seq<Variant>): (r: Option<nat>)
    ensures r.Some? ==> r.value < |vs| && IsAllSets(vs[r.value])
    ensures r.Some? ==> forall j :: r.value < j < |vs| ==> !IsAllSets(vs[j])
    ensures r.None? ==> forall j :: 0 <= j < |vs| ==> !IsAllSets(vs[j])
  {
    if vs == [] then None
    else if IsAllSets(vs[|vs| - 1]) then Some(|vs| - 1)
    else LastAllSets(vs[..|vs| - 1])
  }

  /** The last all-sets variant, if any. */
  function LastAllSetsVariant(vs: seq<Variant>): Option<Variant> {
    match LastAllSets(vs)
    case Some(k) => Some(vs[k])
    case None => None
  }

  /**
   * The variant that describes a property in the flat parameter list: the
   * only one; else the first in the default set; else the LAST all-sets
   * variant; else the first.
   */
  function Representative(vs: seq<Variant>, defaultSet: string): (r: Variant)
    requires |vs| >= 1
    ensures r in vs
  {
    if |vs| == 1 then vs[0]
    else
      match FirstDefaultMatch(vs, defaultSet)
      case Some(i) => vs[i]
      case None => LastAllSetsVariant(vs).GetOr(vs[0])
  }

  /** The four-step precedence of the representative, stated on indexes. */
  lemma RepresentativePrecedence(vs: seq<Variant>, defaultSet: string)
    requires |vs| >= 1
    ensures |vs| == 1 ==> Representative(vs, defaultSet) == vs[0]
    ensures |vs| > 1 ==> forall i :: 0 <= i < |vs| && MatchesDefault(vs[i], defaultSet) &&
                                     (forall j :: 0 <= j < i ==> !MatchesDefault(vs[j], defaultSet)) ==>
                                       Representative(vs, defaultSet) == vs[i]
    ensures |vs| > 1 && (forall j :: 0 <= j < |vs| ==> !MatchesDefault(vs[j], defaultSet)) ==>
      forall i :: 0 <= i < |vs| && IsAllSets(vs[i]) && (forall j :: i < j < |vs| ==> !IsAllSets(vs[j])) ==>
        Representative(vs, defaultSet) == vs[i]
    ensures |vs| > 1 && (forall j :: 0 <= j < |vs| ==> !MatchesDefault(vs[j], defaultSet) && !IsAllSets(vs[j])) ==>
      Representative(vs, defaultSet) == vs[0]
  {
  }

  /**
   * The search loop of the flat parameter list: remembers the latest
   * all-sets variant and stops at the first variant of the default set.
   */
  method SelectVariant(pas: seq<Variant>, defaultSetName: string) returns (pa: Variant)
    requires |pas| >= 1
    ensures pa == Representative(pas, defaultSetName)
  {
    if |pas| == 1 {
      return pas[0];
    }
    var found: Option<Variant> := None;
    var defaultPA: Option<Variant> := None;
    var i := 0;
    while i < |pas|
      invariant 0 <= i <= |pas|
      invariant found.None? ==> forall j :: 0 <= j < i ==> !MatchesDefault(pas[j], defaultSetName)
      invariant found.None? ==> defaultPA == LastAllSetsVariant(pas[..i])
      invariant found.Some? ==> FirstDefaultMatch(pas, defaultSetName) == Some(i) && i < |pas| && found.value == pas[i]
    {
      var temp := pas[i];
      var defaultSet := defaultSetName;
      var setName := temp.setName;
      if setName == "" || setName == AllParameterSets {
        setName := "";
        defaultPA := Some(temp);
      }
      assert setName == SelectionSet(temp);
      assert pas[..i + 1][..i] == pas[..i];
      if Lower(setName) != Lower(defaultSet) {
        i := i + 1;
        continue;
      }
      FirstDefaultMatchAt(pas, defaultSetName, i);
      found := Some(temp);
      defaultPA := Some(temp);
      break;
    }
    if found.None? {
      assert pas[..i] == pas;
      if defaultPA.Some? {
        found := defaultPA;
      }
    }
    if found.None? {
      found := Some(pas[0]);
    }
    pa := found.value;
  }

  // ---------------------------------------------------------------- per set

  /** The variant names the parameter set `setName`, ignoring case. */
  predicate InSet(v: Variant, setName: string) {
    EqualsIgnoreCase(v.setName, setName)
  }

  /** Index of the first variant naming the set. */
  function FirstInSet(vs: seq<Variant>, setName: string): (r: Option<nat>)
    ensures r.Some? ==> r.value < |vs| && InSet(vs[r.value], setName)
    ensures r.Some? ==> forall j :: 0 <= j < r.value ==> !InSet(vs[j], setName)
    ensures r.None? ==> forall j :: 0 <= j < |vs| ==> !InSet(vs[j], setName)
  {
    if vs == [] then None
    else if InSet(vs[0], setName) then Some(0)
    else
      match FirstInSet(vs[1..], setName)
      case None => None
      case Some(k) => Some(k + 1)
  }

  /** The variant a syntax item uses for a property, if the property has one in that set. */
  function VariantForSet(vs: seq<Variant>, setName: string): Option<Variant> {
    match FirstInSet(vs, setName)
    case Some(i) => Some(vs[i])
    case None => None
  }

  /** `GetParameterAttribute`: the first variant whose set name equals `setName` ignoring case. */
  method GetParameterAttribute(pas: seq<Variant>, parameterSetName: string) returns (pa: Option<Variant>)
    ensures pa == VariantForSet(pas, parameterSetName)
    ensures pa.None? <==> forall j :: 0 <= j < |pas| ==> !InSet(pas[j], parameterSetName)
    ensures pa.Some? ==> pa.value in pas && InSet(pa.value, parameterSetName)
  {
    pa := None;
    var i := 0;
    while i < |pas|
      invariant 0 <= i <= |pas|
      invariant pa.None? ==> forall j :: 0 <= j < i ==> !InSet(pas[j], parameterSetName)
      invariant pa.Some? ==> pa == VariantForSet(pas, parameterSetName)
    {
      var temp := pas[i];
      if Lower(temp.setName) == Lower(parameterSetName) {
        pa := Some(temp);
        break;
      }
      i := i + 1;
    }
  }
}
