/**
 * The parameter-set resolver and the content of the syntax section: the
 * properties are grouped under the set name of each of their
 * `ParameterAttribute`s, in first-seen order; the reserved all-sets group is
 * split off as a common list when other groups exist; each remaining set
 * becomes one syntax item.
 */
module ParameterSets {
  import opened Wrappers
  import opened Text
  import opened Metadata
  import opened Variants

  /** An insertion-ordered dictionary from set name to the properties in that set. */
  datatype SetTable = SetTable(keys: seq<string>, members: map<string, seq<Property>>)

  ghost predicate Distinct(keys: seq<string>) {
    forall i, j :: 0 <= i < j < |keys| ==> keys[i] != keys[j]
  }

  ghost predicate ValidTable(t: SetTable) {
    && Distinct(t.keys)
    && (forall s :: s in t.members <==> s in t.keys)
  }

  /** One (property, set name) pair per `ParameterAttribute` of `p` in `vs`. */
  function VariantPairs(p: Property, vs: seq<Variant>): (r: seq<(Property, string)>)
    ensures |r| == |vs|
    ensures forall i :: 0 <= i < |vs| ==> r[i] == (p, vs[i].setName)
  {
    seq(|vs|, i requires 0 <= i < |vs| => (p, vs[i].setName))
  }

  /** The pairs of all properties, in declaration order. */
  function Pairs(props: seq<Property>): seq<(Property, string)> {
    if props == [] then []
    else Pairs(props[..|props| - 1]) + VariantPairs(props[|props| - 1], props[|props| - 1].variants)
  }

  /** `if (!ContainsKey(s)) Add(s, new List()); this[s].Add(p);` */
  function Add(t: SetTable, p: Property, s: string): SetTable {
    if s in t.members then SetTable(t.keys, t.members[s := t.members[s] + [p]])
    else SetTable(t.keys + [s], t.members[s := [p]])
  }

  /** The table after adding every pair in order to an empty one. */
  function Group(pairs: seq<(Property, string)>): SetTable {
    if pairs == [] then SetTable([], map[])
    else Add(Group(pairs[..|pairs| - 1]), pairs[|pairs| - 1].0, pairs[|pairs| - 1].1)
  }

  /** Reference definition of one group: the owner of every pair naming `s`, in order. */
  function MembersOf(pairs: seq<(Property, string)>, s: string): seq<Property> {
    if pairs == [] then []
    else MembersOf(pairs[..|pairs| - 1], s) + (if pairs[|pairs| - 1].1 == s then [pairs[|pairs| - 1].0] else [])
  }

  /** Index of the first pair naming `s`; |pairs| when there is none. */
  function FirstOccurrence(pairs: seq<(Property, string)>, s: string): (r: nat)
    ensures r <= |pairs|
    ensures r < |pairs| ==> pairs[r].1 == s
    ensures forall j :: 0 <= j < r ==> pairs[j].1 != s
  {
    if pairs == [] then 0
    else if pairs[0].1 == s then 0
    else 1 + FirstOccurrence(pairs[1..], s)
  }

  lemma {:induction false} FirstOccurrenceSnoc(pre: seq<(Property, string)>, x: (Property, string), s: string)
    ensures FirstOccurrence(pre + [x], s) ==
      if FirstOccurrence(pre, s) < |pre| then FirstOccurrence(pre, s)
      else if x.1 == s then |pre| else |pre| + 1
    decreases |pre|
  {
    if pre == [] {
      assert pre + [x] == [x];
      assert [x][1..] == [];
    } else {
      assert (pre + [x])[1..] == pre[1..] + [x];
      FirstOccurrenceSnoc(pre[1..], x, s);
    }
  }

  lemma {:induction false} MembersOfAbsent(pairs: seq<(Property, string)>, s: string)
    requires FirstOccurrence(pairs, s) == |pairs|
    ensures MembersOf(pairs, s) == []
    decreases |pairs|
  {
    if pairs != [] {
      var pre := pairs[..|pairs| - 1];
      assert pairs == pre + [pairs[|pairs| - 1]];
      FirstOccurrenceSnoc(pre, pairs[|pairs| - 1], s);
      MembersOfAbsent(pre, s);
    }
  }

  /** The keys are distinct and are exactly the set names that occur in `pairs`. */
  lemma {:induction false} GroupKeys(pairs: seq<(Property, string)>)
    ensures ValidTable(Group(pairs))
    ensures forall s :: s in Group(pairs).keys <==> FirstOccurrence(pairs, s) < |pairs|
    decreases |pairs|
  {
    if pairs != [] {
      var pre := pairs[..|pairs| - 1];
      var x := pairs[|pairs| - 1];
      assert pairs == pre + [x];
      GroupKeys(pre);
      forall s ensures FirstOccurrence(pairs, s) < |pairs| <==> FirstOccurrence(pre, s) < |pre| || s == x.1 {
        FirstOccurrenceSnoc(pre, x, s);
      }
    }
  }

  /** Each group lists, in order, the owner of every pair naming its set. */
  lemma {:induction false} GroupMembers(pairs: seq<(Property, string)>)
    ensures forall s :: s in Group(pairs).members ==> Group(pairs).members[s] == MembersOf(pairs, s)
    decreases |pairs|
  {
    if pairs != [] {
      var pre := pairs[..|pairs| - 1];
      var x := pairs[|pairs| - 1];
      GroupMembers(pre);
      GroupKeys(pre);
      var g := Group(pre);
      forall s | s in Group(pairs).members ensures Group(pairs).members[s] == MembersOf(pairs, s) {
        assert MembersOf(pairs, s) == MembersOf(pre, s) + (if x.1 == s then [x.0] else []);
        if s == x.1 && s !in g.members {
          MembersOfAbsent(pre, s);
        }
      }
    }
  }

  /** The keys are listed in the order their set names first occur. */
  ghost predicate FirstSeenOrder(keys: seq<string>, pairs: seq<(Property, string)>) {
    forall i, j :: 0 <= i < j < |keys| ==> FirstOccurrence(pairs, keys[i]) < FirstOccurrence(pairs, keys[j])
  }

  lemma {:induction false} GroupOrder(pairs: seq<(Property, string)>)
    ensures FirstSeenOrder(Group(pairs).keys, pairs)
    decreases |pairs|
  {
    if pairs != [] {
      var pre := pairs[..|pairs| - 1];
      var x := pairs[|pairs| - 1];
      assert pairs == pre + [x];
      GroupOrder(pre);
      GroupOrderStep(pre, x);
    }
  }

  /** Adding one pair keeps the keys in first-seen order. */
  lemma GroupOrderStep(pre: seq<(Property, string)>, x: (Property, string))
    requires FirstSeenOrder(Group(pre).keys, pre)
    ensures FirstSeenOrder(Group(pre + [x]).keys, pre + [x])
  {
    GroupKeys(pre);
    var pairs := pre + [x];
    assert pairs[..|pairs| - 1] == pre;
    var g := Group(pre);
    var keys := Group(pairs).keys;
    assert keys == if x.1 in g.members then g.keys else g.keys + [x.1];
    forall i, j | 0 <= i < j < |keys|
      ensures FirstOccurrence(pairs, keys[i]) < FirstOccurrence(pairs, keys[j])
    {
      OldKeyOccurrence(pre, x, keys[i]);
      if j < |g.keys| {
        OldKeyOccurrence(pre, x, keys[j]);
      } else {
        FirstOccurrenceSnoc(pre, x, x.1);
      }
    }
  }

  /** A set name already seen first occurs where it did before. */
  lemma OldKeyOccurrence(pre: seq<(Property, string)>, x: (Property, string), s: string)
    requires s in Group(pre).keys
    ensures FirstOccurrence(pre + [x], s) == FirstOccurrence(pre, s) < |pre|
  {
    GroupKeys(pre);
    FirstOccurrenceSnoc(pre, x, s);
  }

  /** Removes `k` from the key order (`Dictionary.Remove` keeps the others' order). */
  function RemoveKey(keys: seq<string>, k: string): (r: seq<string>)
    ensures forall s :: s in r <==> s in keys && s != k
  {
    if keys == [] then []
    else RemoveKey(keys[..|keys| - 1], k) + (if keys[|keys| - 1] == k then [] else [keys[|keys| - 1]])
  }

  lemma {:induction false} RemoveKeyPreservesOrder(keys: seq<string>, k: string, pairs: seq<(Property, string)>)
    requires FirstSeenOrder(keys, pairs)
    ensures FirstSeenOrder(RemoveKey(keys, k), pairs)
    decreases |keys|
  {
    if keys != [] {
      var pre := keys[..|keys| - 1];
      var x := keys[|keys| - 1];
      assert forall i :: 0 <= i < |pre| ==> pre[i] == keys[i];
      RemoveKeyPreservesOrder(pre, k, pairs);
      var r' := RemoveKey(pre, k);
      var r := RemoveKey(keys, k);
      assert r == r' + (if x == k then [] else [x]);
      forall i | 0 <= i < |r'| ensures FirstOccurrence(pairs, r'[i]) < FirstOccurrence(pairs, x) {
        assert r'[i] in pre;
        var m :| 0 <= m < |pre| && pre[m] == r'[i];
        assert keys[m] == pre[m];
      }
      forall i, j | 0 <= i < j < |r| ensures FirstOccurrence(pairs, r[i]) < FirstOccurrence(pairs, r[j]) {
        assert r[i] == r'[i];
        if j < |r'| {
          assert r[j] == r'[j];
        } else {
          assert r[j] == x;
        }
      }
    }
  }

  lemma {:induction false} RemoveKeyDistinct(keys: seq<string>, k: string)
    requires Distinct(keys)
    ensures Distinct(RemoveKey(keys, k))
    decreases |keys|
  {
    if keys != [] {
      var pre := keys[..|keys| - 1];
      var x := keys[|keys| - 1];
      assert Distinct(pre) by {
        assert forall i :: 0 <= i < |pre| ==> pre[i] == keys[i];
      }
      RemoveKeyDistinct(pre, k);
      assert x !in pre by {
        assert forall i :: 0 <= i < |pre| ==> pre[i] == keys[i];
      }
      var r' := RemoveKey(pre, k);
      assert RemoveKey(keys, k) == r' + (if x == k then [] else [x]);
    }
  }

  /** The resolved sets: the table to iterate and, when split off, the common all-sets list. */
  datatype Resolved = Resolved(table: SetTable, common: Option<seq<Property>>)

  /** The grouping followed by the split of the all-sets group. */
  function Resolve(props: seq<Property>): (r: Resolved)
    ensures ValidTable(r.table)
  {
    var g := Group(Pairs(props));
    GroupKeys(Pairs(props));
    RemoveKeyDistinct(g.keys, AllParameterSets);
    if |g.keys| > 1 && AllParameterSets in g.members then
      Resolved(SetTable(RemoveKey(g.keys, AllParameterSets), g.members - {AllParameterSets}),
               Some(g.members[AllParameterSets]))
    else Resolved(g, None)
  }

  /**
   * What the resolver promises: the all-sets group is split off exactly when
   * more than one group exists and it is one of them; the remaining sets
   * keep first-seen order; each set lists the owner of every variant naming it.
   */
  lemma ResolveSpec(props: seq<Property>)
    ensures var pairs := Pairs(props); var g := Group(pairs); var r := Resolve(props);
      && ValidTable(r.table)
      && (r.common.Some? <==> |g.keys| > 1 && AllParameterSets in g.keys)
      && (r.common.Some? ==> r.common.value == MembersOf(pairs, AllParameterSets)
                             && AllParameterSets !in r.table.keys
                             && |r.table.keys| == |g.keys| - 1)
      && (r.common.None? ==> r.table == g)
      && (forall s :: s in r.table.keys <==> FirstOccurrence(pairs, s) < |pairs| && (r.common.Some? ==> s != AllParameterSets))
      && (forall s :: s in r.table.members ==> r.table.members[s] == MembersOf(pairs, s))
      && FirstSeenOrder(r.table.keys, pairs)
  {
    var pairs := Pairs(props);
    var g := Group(pairs);
    GroupKeys(pairs);
    GroupMembers(pairs);
    GroupOrder(pairs);
    if |g.keys| > 1 && AllParameterSets in g.members {
      RemoveKeyPreservesOrder(g.keys, AllParameterSets, pairs);
      RemoveKeyDistinct(g.keys, AllParameterSets);
      RemoveKeyLength(g.keys, AllParameterSets);
    }
  }

  lemma RemoveKeyLength(keys: seq<string>, k: string)
    requires Distinct(keys)
    requires k in keys
    ensures |RemoveKey(keys, k)| == |keys| - 1
  {
    var pre := keys[..|keys| - 1];
    if keys[|keys| - 1] == k {
      assert k !in pre;
      RemoveKeyAbsent(pre, k);
    } else {
      assert k in pre;
      RemoveKeyLength(pre, k);
    }
  }

  lemma {:induction false} RemoveKeyAbsent(keys: seq<string>, k: string)
    requires k !in keys
    ensures RemoveKey(keys, k) == keys
    decreases |keys|
  {
    if keys != [] {
      var pre := keys[..|keys| - 1];
      assert keys == pre + [keys[|keys| - 1]];
      RemoveKeyAbsent(pre, k);
    }
  }

  lemma GroupSnoc(before: seq<(Property, string)>, p: Property, v: Variant, vs: seq<Variant>, j: nat)
    requires j < |vs| && vs[j] == v
    ensures Group(before + VariantPairs(p, vs[..j + 1])) == Add(Group(before + VariantPairs(p, vs[..j])), p, v.setName)
  {
    var after := before + VariantPairs(p, vs[..j + 1]);
    assert after == (before + VariantPairs(p, vs[..j])) + [(p, v.setName)];
    assert after[..|after| - 1] == before + VariantPairs(p, vs[..j]);
  }

  lemma PairsSnoc(props: seq<Property>, i: nat)
    requires i < |props|
    ensures Pairs(props[..i + 1]) == Pairs(props[..i]) + VariantPairs(props[i], props[i].variants[..|props[i].variants|])
  {
    assert props[..i + 1][..i] == props[..i];
    assert props[i].variants[..|props[i].variants|] == props[i].variants;
  }

  /** The two steps of the source's `Add`: create the empty list when missing, then append. */
  lemma AddMatches(t0: SetTable, p: Property, s: string, t1: SetTable)
    requires var m := if s in t0.members then t0.members else t0.members[s := []];
      && t1.keys == (if s in t0.members then t0.keys else t0.keys + [s])
      && t1.members == m[s := m[s] + [p]]
    ensures t1 == Add(t0, p, s)
  {
    if s !in t0.members {
      var empty: seq<Property> := [];
      assert empty + [p] == [p];
      assert t0.members[s := empty][s := empty + [p]] == t0.members[s := [p]];
    }
  }

  /** The grouping loops of the syntax writer: a dictionary filled in place. */
  method GroupParameterSets(props: seq<Property>) returns (t: SetTable)
    ensures t == Group(Pairs(props))
  {
    var keys: seq<string> := [];
    var members: map<string, seq<Property>> := map[];
    var i := 0;
    while i < |props|
      invariant 0 <= i <= |props|
      invariant SetTable(keys, members) == Group(Pairs(props[..i]))
    {
      var pi := props[i];
      var pas := pi.variants;
      var j := 0;
      assert Pairs(props[..i]) + VariantPairs(pi, pas[..0]) == Pairs(props[..i]);
      while j < |pas|
        invariant 0 <= j <= |pas|
        invariant SetTable(keys, members) == Group(Pairs(props[..i]) + VariantPairs(pi, pas[..j]))
      {
        var setName := pas[j].setName;
        GroupSnoc(Pairs(props[..i]), pi, pas[j], pas, j);
        ghost var t0 := SetTable(keys, members);
        if setName !in members {
          members := members[setName := []];
          keys := keys + [setName];
        }
        members := members[setName := members[setName] + [pi]];
        AddMatches(t0, pi, setName, SetTable(keys, members));
        j := j + 1;
      }
      PairsSnoc(props, i);
      i := i + 1;
    }
    assert props[..i] == props;
    t := SetTable(keys, members);
  }

  /** Groups the properties, then removes the all-sets entry when other sets exist. */
  method ResolveParameterSets(props: seq<Property>) returns (r: Resolved)
    ensures r == Resolve(props)
  {
    var parameterSets := GroupParameterSets(props);
    var keys, members := parameterSets.keys, parameterSets.members;
    var common: Option<seq<Property>> := None;
    if |keys| > 1 && AllParameterSets in members {
      common := Some(members[AllParameterSets]);
      members := members - {AllParameterSets};
      keys := RemoveKey(keys, AllParameterSets);
    }
    r := Resolved(SetTable(keys, members), common);
  }

  // ---------------------------------------------------------------- syntax items

  /** One parameter of a syntax item: the property and the attribute it is rendered with. */
  datatype SyntaxParam = SyntaxParam(property: Property, variant: Variant)

  /** The set's own parameters: each member with its first variant in the set; others skipped. */
  function SetEntries(members: seq<Property>, setName: string): seq<SyntaxParam> {
    if members == [] then []
    else
      var p := members[|members| - 1];
      SetEntries(members[..|members| - 1], setName) +
        match VariantForSet(p.variants, setName)
        case None => []
        case Some(v) => [SyntaxParam(p, v)]
  }

  /** The common parameters: each with its FIRST variant, whatever its set. */
  function CommonEntries(common: seq<Property>): seq<SyntaxParam> {
    if common == [] then []
    else
      var p := common[|common| - 1];
      CommonEntries(common[..|common| - 1]) +
        if p.variants == [] then [] else [SyntaxParam(p, p.variants[0])]
  }

  /** The parameters of the syntax item for `setName`. */
  function ItemEntries(r: Resolved, setName: string): seq<SyntaxParam>
    requires setName in r.table.members
  {
    SetEntries(r.table.members[setName], setName) + CommonEntries(r.common.GetOr([]))
  }

  /** One entry list per resolved set, in key order. */
  function SyntaxItems(props: seq<Property>): (items: seq<seq<SyntaxParam>>)
    ensures |items| == |Resolve(props).table.keys|
  {
    var r := Resolve(props);
    ResolveSpec(props);
    seq(|r.table.keys|, i requires 0 <= i < |r.table.keys| => ItemEntries(r, r.table.keys[i]))
  }

  /**
   * A set's entries are exactly its members that have a variant in the set,
   * each with the first such variant, in member order and once per
   * occurrence (`idx` maps each entry to the member it comes from).
   */
  lemma SetEntriesSpec(members: seq<Property>, setName: string) returns (idx: seq<nat>)
    ensures var es := SetEntries(members, setName);
      && |es| <= |members|
      && (forall k :: 0 <= k < |es| ==>
            es[k].property in members && InSet(es[k].variant, setName)
            && VariantForSet(es[k].property.variants, setName) == Some(es[k].variant))
      && (forall p :: p in members && VariantForSet(p.variants, setName).Some? ==>
            exists k :: 0 <= k < |es| && es[k].property == p)
    ensures MatchIndices(idx, members, SetEntries(members, setName), setName)
  {
    SetEntriesMembers(members, setName);
    idx := SetEntriesOrder(members, setName);
  }

  lemma {:induction false} SetEntriesMembers(members: seq<Property>, setName: string)
    ensures var es := SetEntries(members, setName);
      && |es| <= |members|
      && (forall k :: 0 <= k < |es| ==>
            es[k].property in members && InSet(es[k].variant, setName)
            && VariantForSet(es[k].property.variants, setName) == Some(es[k].variant))
      && (forall p :: p in members && VariantForSet(p.variants, setName).Some? ==>
            exists k :: 0 <= k < |es| && es[k].property == p)
    decreases |members|
  {
    if members != [] {
      var pre := members[..|members| - 1];
      var p := members[|members| - 1];
      SetEntriesMembers(pre, setName);
      assert members == pre + [p];
      var es := SetEntries(members, setName);
      var es' := SetEntries(pre, setName);
      forall q | q in members && VariantForSet(q.variants, setName).Some?
        ensures exists k :: 0 <= k < |es| && es[k].property == q
      {
        if q in pre {
          var k :| 0 <= k < |es'| && es'[k].property == q;
          assert es[k] == es'[k];
        } else {
          assert q == p;
          assert es[|es| - 1].property == q;
        }
      }
    }
  }

  /**
   * `idx` maps the entries to the members they come from: strictly
   * increasing, so in member order and once per occurrence, and covering
   * exactly the members that have a variant in the set.
   */
  ghost predicate MatchIndices(idx: seq<nat>, members: seq<Property>, es: seq<SyntaxParam>, setName: string) {
    && |idx| == |es|
    && (forall k :: 0 <= k < |idx| ==> idx[k] < |members| && es[k].property == members[idx[k]])
    && (forall k, l :: 0 <= k < l < |idx| ==> idx[k] < idx[l])
    && (forall j :: 0 <= j < |members| ==> (j in idx <==> VariantForSet(members[j].variants, setName).Some?))
  }

  lemma {:induction false} SetEntriesOrder(members: seq<Property>, setName: string) returns (idx: seq<nat>)
    ensures MatchIndices(idx, members, SetEntries(members, setName), setName)
    decreases |members|
  {
    if members == [] {
      idx := [];
    } else {
      var pre := members[..|members| - 1];
      var p := members[|members| - 1];
      var idx' := SetEntriesOrder(pre, setName);
      assert members == pre + [p];
      match VariantForSet(p.variants, setName)
      case None =>
        idx := idx';
        assert SetEntries(members, setName) == SetEntries(pre, setName) + [];
        MatchIndicesSkip(idx', pre, SetEntries(pre, setName), p, setName);
      case Some(v) =>
        idx := idx' + [|pre|];
        assert SetEntries(members, setName) == SetEntries(pre, setName) + [SyntaxParam(p, v)];
        MatchIndicesTake(idx', pre, SetEntries(pre, setName), p, v, setName);
    }
  }

  /** A member without a variant in the set adds no entry. */
  lemma MatchIndicesSkip(idx: seq<nat>, pre: seq<Property>, es: seq<SyntaxParam>, p: Property, setName: string)
    requires MatchIndices(idx, pre, es, setName)
    requires VariantForSet(p.variants, setName).None?
    ensures MatchIndices(idx, pre + [p], es, setName)
  {
    var members := pre + [p];
    assert forall j :: 0 <= j < |pre| ==> members[j] == pre[j];
  }

  /** A member with a variant in the set adds one entry, mapped to its own index. */
  lemma MatchIndicesTake(idx: seq<nat>, pre: seq<Property>, es: seq<SyntaxParam>, p: Property, v: Variant, setName: string)
    requires MatchIndices(idx, pre, es, setName)
    requires VariantForSet(p.variants, setName) == Some(v)
    ensures MatchIndices(idx + [|pre|], pre + [p], es + [SyntaxParam(p, v)], setName)
  {
    var members := pre + [p];
    var idx1 := idx + [|pre|];
    var es1 := es + [SyntaxParam(p, v)];
    assert forall j :: 0 <= j < |pre| ==> members[j] == pre[j];
    assert forall k :: 0 <= k < |idx| ==> idx1[k] == idx[k] && es1[k] == es[k];
    forall j | 0 <= j < |members| ensures j in idx1 <==> VariantForSet(members[j].variants, setName).Some? {
      assert j in idx1 <==> j in idx || j == |pre|;
    }
  }

  /** The common entries render each common property with its first variant, all of them, in order. */
  lemma CommonEntriesSpec(common: seq<Property>)
    ensures var es := CommonEntries(common);
      forall k :: 0 <= k < |es| ==>
        es[k].property in common && es[k].property.variants != [] && es[k].variant == es[k].property.variants[0]
    ensures (forall p :: p in common ==> p.variants != []) ==>
      CommonEntries(common) == seq(|common|, k requires 0 <= k < |common| => SyntaxParam(common[k], common[k].variants[0]))
  {
    CommonEntriesMembers(common);
    if forall p :: p in common ==> p.variants != [] {
      CommonEntriesAll(common);
    }
  }

  lemma {:induction false} CommonEntriesMembers(common: seq<Property>)
    ensures forall k :: 0 <= k < |CommonEntries(common)| ==>
      var e := CommonEntries(common)[k];
      e.property in common && e.property.variants != [] && e.variant == e.property.variants[0]
    decreases |common|
  {
    if common != [] {
      var pre := common[..|common| - 1];
      var p := common[|common| - 1];
      CommonEntriesMembers(pre);
      assert common == pre + [p];
      var es := CommonEntries(common);
      var es' := CommonEntries(pre);
      assert es == es' + if p.variants == [] then [] else [SyntaxParam(p, p.variants[0])];
      forall k | 0 <= k < |es|
        ensures es[k].property in common && es[k].property.variants != [] && es[k].variant == es[k].property.variants[0]
      {
        if k < |es'| {
          assert es[k] == es'[k];
          assert es'[k].property in pre;
        } else {
          assert es[k] == SyntaxParam(p, p.variants[0]);
        }
      }
    }
  }

  lemma {:induction false} CommonEntriesAll(common: seq<Property>)
    requires forall p :: p in common ==> p.variants != []
    ensures CommonEntries(common) == seq(|common|, k requires 0 <= k < |common| => SyntaxParam(common[k], common[k].variants[0]))
    decreases |common|
  {
    if common != [] {
      var pre := common[..|common| - 1];
      var p := common[|common| - 1];
      assert common == pre + [p];
      CommonEntriesAll(pre);
      var want := seq(|common|, k requires 0 <= k < |common| => SyntaxParam(common[k], common[k].variants[0]));
      var want' := seq(|pre|, k requires 0 <= k < |pre| => SyntaxParam(pre[k], pre[k].variants[0]));
      assert want == want' + [SyntaxParam(p, p.variants[0])];
    }
  }

  /** `p` carries a `ParameterAttribute` naming the set `s`. */
  ghost predicate Names(p: Property, s: string) {
    exists v :: v in p.variants && v.setName == s
  }

  /** Every pair comes from one of the owner's own variants. */
  lemma {:induction false} PairsFromVariants(props: seq<Property>)
    ensures forall i :: 0 <= i < |Pairs(props)| ==> Names(Pairs(props)[i].0, Pairs(props)[i].1)
    decreases |props|
  {
    if props != [] {
      PairsFromVariants(props[..|props| - 1]);
      var p := props[|props| - 1];
      var pairs := Pairs(props);
      var pre := Pairs(props[..|props| - 1]);
      var vp := VariantPairs(p, p.variants);
      assert pairs == pre + vp;
      forall i | 0 <= i < |pairs| ensures Names(pairs[i].0, pairs[i].1) {
        if i < |pre| {
          assert pairs[i] == pre[i];
        } else {
          var v := p.variants[i - |pre|];
          assert pairs[i] == (p, v.setName);
          assert v in p.variants;
        }
      }
    }
  }

  /** A group's members each carry a variant naming the group's set. */
  lemma {:induction false} MembersOfNamed(pairs: seq<(Property, string)>, s: string)
    requires forall i :: 0 <= i < |pairs| ==> Names(pairs[i].0, pairs[i].1)
    ensures forall p :: p in MembersOf(pairs, s) ==> Names(p, s)
    decreases |pairs|
  {
    if pairs != [] {
      var pre := pairs[..|pairs| - 1];
      assert forall i :: 0 <= i < |pre| ==> pre[i] == pairs[i];
      MembersOfNamed(pre, s);
    }
  }

  /**
   * The split-off common list holds only properties with an all-sets
   * attribute, so every one of them is rendered, with its first variant, in order.
   */
  lemma CommonEntriesOfResolve(props: seq<Property>)
    requires Resolve(props).common.Some?
    ensures forall p :: p in Resolve(props).common.value ==> Names(p, AllParameterSets)
    ensures forall p :: p in Resolve(props).common.value ==> p.variants != []
    ensures var cm := Resolve(props).common.value;
      CommonEntries(cm) == seq(|cm|, k requires 0 <= k < |cm| => SyntaxParam(cm[k], cm[k].variants[0]))
  {
    ResolveSpec(props);
    PairsFromVariants(props);
    MembersOfNamed(Pairs(props), AllParameterSets);
    var cm := Resolve(props).common.value;
    assert forall p :: p in cm ==> p.variants != [] by {
      forall p | p in cm ensures p.variants != [] {
        var v :| v in p.variants && v.setName == AllParameterSets;
      }
    }
    CommonEntriesSpec(cm);
  }

  /**
   * When the all-sets group is split off, there is one item per other set,
   * and each lists its own set's parameters followed by every common one.
   */
  lemma CommonParametersCloseEveryItem(props: seq<Property>)
    requires Resolve(props).common.Some?
    ensures var r := Resolve(props); var items := SyntaxItems(props);
      && |items| == |Group(Pairs(props)).keys| - 1
      && AllParameterSets !in r.table.keys
      && forall i :: 0 <= i < |items| ==>
           items[i] == SetEntries(r.table.members[r.table.keys[i]], r.table.keys[i]) + CommonEntries(r.common.value)
  {
    ResolveSpec(props);
  }

  // ---------------------------------------------------------------- one set only

  /** The properties that carry at least one `ParameterAttribute`, in declaration order. */
  function WithAttributes(props: seq<Property>): (r: seq<Property>)
    ensures |r| <= |props|
    ensures forall p :: p in r <==> p in props && p.variants != []
  {
    if props == [] then []
    else
      var p := props[|props| - 1];
      assert props == props[..|props| - 1] + [p];
      WithAttributes(props[..|props| - 1]) + if p.variants == [] then [] else [p]
  }

  /** Properties without a `ParameterAttribute` contribute no pair. */
  lemma {:induction false} PairsOfSingleSet(props: seq<Property>, s: string)
    requires forall p :: p in props ==> p.variants == [] || (|p.variants| == 1 && p.variants[0].setName == s)
    ensures var ws := WithAttributes(props);
      Pairs(props) == seq(|ws|, i requires 0 <= i < |ws| => (ws[i], s))
    decreases |props|
  {
    if props != [] {
      var pre := props[..|props| - 1];
      var p := props[|props| - 1];
      PairsOfSingleSet(pre, s);
      var ws' := WithAttributes(pre);
      if p.variants == [] {
        assert WithAttributes(props) == ws' + [];
        assert Pairs(props) == Pairs(pre) + [];
      } else {
        assert p in props;
        assert VariantPairs(p, p.variants) == [(p, s)];
        assert WithAttributes(props) == ws' + [p];
        assert Pairs(props) == Pairs(pre) + [(p, s)];
      }
    }
  }

  lemma {:induction false} GroupOfSingleName(pairs: seq<(Property, string)>, s: string)
    requires |pairs| > 0
    requires forall i :: 0 <= i < |pairs| ==> pairs[i].1 == s
    ensures Group(pairs) == SetTable([s], map[s := seq(|pairs|, i requires 0 <= i < |pairs| => pairs[i].0)])
    decreases |pairs|
  {
    var pre := pairs[..|pairs| - 1];
    var owners := seq(|pairs|, i requires 0 <= i < |pairs| => pairs[i].0);
    if pre != [] {
      GroupOfSingleName(pre, s);
      assert owners == seq(|pre|, i requires 0 <= i < |pre| => pre[i].0) + [pairs[|pairs| - 1].0];
    } else {
      assert owners == [pairs[0].0];
    }
  }

  lemma {:induction false} SetEntriesOfSingleSet(props: seq<Property>, s: string)
    requires forall p :: p in props ==> |p.variants| == 1 && p.variants[0].setName == s
    ensures SetEntries(props, s) == seq(|props|, i requires 0 <= i < |props| => SyntaxParam(props[i], props[i].variants[0]))
    decreases |props|
  {
    if props != [] {
      var p := props[|props| - 1];
      SetEntriesOfSingleSet(props[..|props| - 1], s);
      assert FirstInSet(p.variants, s) == Some(0);
    }
  }

  /**
   * A command whose every parameter belongs to one set gets exactly one
   * syntax item, listing its parameters in declaration order; properties
   * without a `ParameterAttribute` are skipped.
   */
  lemma SingleSetGivesOneItem(props: seq<Property>, s: string)
    requires forall p :: p in props ==> p.variants == [] || (|p.variants| == 1 && p.variants[0].setName == s)
    requires WithAttributes(props) != []
    ensures var ws := WithAttributes(props);
      SyntaxItems(props) == [seq(|ws|, i requires 0 <= i < |ws| => SyntaxParam(ws[i], ws[i].variants[0]))]
  {
    ResolveOfSingleSet(props, s);
    var r := Resolve(props);
    ItemOfSingleSet(r, WithAttributes(props), s);
    assert SyntaxItems(props) == [ItemEntries(r, s)];
  }

  /** The one item lists every member of the one set with its only variant. */
  lemma ItemOfSingleSet(r: Resolved, ws: seq<Property>, s: string)
    requires r == Resolved(SetTable([s], map[s := ws]), None)
    requires forall p :: p in ws ==> |p.variants| == 1 && p.variants[0].setName == s
    ensures ItemEntries(r, s) == seq(|ws|, i requires 0 <= i < |ws| => SyntaxParam(ws[i], ws[i].variants[0]))
  {
    SetEntriesOfSingleSet(ws, s);
    assert ItemEntries(r, s) == SetEntries(ws, s) + [];
    assert SetEntries(ws, s) + [] == SetEntries(ws, s);
  }

  /** With one set only, nothing is split off and the one group holds the attributed properties. */
  lemma ResolveOfSingleSet(props: seq<Property>, s: string)
    requires forall p :: p in props ==> p.variants == [] || (|p.variants| == 1 && p.variants[0].setName == s)
    requires WithAttributes(props) != []
    ensures Resolve(props) == Resolved(SetTable([s], map[s := WithAttributes(props)]), None)
    ensures forall p :: p in WithAttributes(props) ==> |p.variants| == 1 && p.variants[0].setName == s
  {
    var ws := WithAttributes(props);
    PairsOfSingleSet(props, s);
    var pairs := Pairs(props);
    assert |pairs| == |ws|;
    GroupOfOwners(pairs, ws, s);
  }

  lemma GroupOfOwners(pairs: seq<(Property, string)>, ws: seq<Property>, s: string)
    requires |ws| > 0
    requires pairs == seq(|ws|, i requires 0 <= i < |ws| => (ws[i], s))
    ensures Group(pairs) == SetTable([s], map[s := ws])
  {
    GroupOfSingleName(pairs, s);
    assert seq(|pairs|, i requires 0 <= i < |pairs| => pairs[i].0) == ws;
  }

  /** Properties without any `ParameterAttribute` give no pair, hence no syntax item, and none is kept. */
  lemma {:induction false} PairsWithoutAttributes(props: seq<Property>)
    requires forall p :: p in props ==> p.variants == []
    ensures Pairs(props) == []
    ensures WithAttributes(props) == []
    decreases |props|
  {
    if props != [] {
      var pre := props[..|props| - 1];
      assert props == pre + [props[|props| - 1]];
      PairsWithoutAttributes(pre);
    }
  }
}
