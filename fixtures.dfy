/**
 * The sample `Get-Proc` cmdlet as input to the generator: default set `Id`;
 * `Id` is in the sets `Id` and `OneOnly`; `OneOnly` is in `OneOnly`;
 * `DoNothing` names no set and so falls in the all-sets group. A
 * `[Parameter]` attribute with no position has the position `Int32.MinValue`.
 */
module GetProcFixture {
  import opened Wrappers
  import opened Text
  import opened Metadata
  import opened Rendering
  import opened Variants
  import opened ParameterSets
  import opened Xml
  import opened Document

  /** A `[Parameter(ParameterSetName = setName)]` with every other argument at its default. */
  function InSetAttr(setName: string): Variant {
    Variant(setName, false, MinInt32, false, false, "")
  }

  const GetProc: Cmdlet := Cmdlet("Get", "Proc", "Id")

  const IdParam: Property :=
    Property("Id", Plain("Int32", false, None), false, [InSetAttr("Id"), InSetAttr("OneOnly")])

  const OneOnlyParam: Property :=
    Property("OneOnly", Plain("SwitchParameter", false, None), false, [InSetAttr("OneOnly")])

  const DoNothingParam: Property :=
    Property("DoNothing", Plain("SwitchParameter", false, None), false, [InSetAttr(AllParameterSets)])

  const GetProcParams: seq<Property> := [IdParam, OneOnlyParam, DoNothingParam]

  /** One (property, set name) pair per attribute, in declaration order. */
  lemma GetProcPairs()
    ensures Pairs(GetProcParams) ==
      [(IdParam, "Id"), (IdParam, "OneOnly"), (OneOnlyParam, "OneOnly"), (DoNothingParam, AllParameterSets)]
  {
    assert [IdParam][..0] == [];
    assert Pairs([IdParam]) == [(IdParam, "Id"), (IdParam, "OneOnly")];
    assert [IdParam, OneOnlyParam][..1] == [IdParam];
    assert Pairs([IdParam, OneOnlyParam]) == [(IdParam, "Id"), (IdParam, "OneOnly"), (OneOnlyParam, "OneOnly")];
    assert GetProcParams[..2] == [IdParam, OneOnlyParam];
  }

  /** The dictionary the grouping loops build: three sets, in first-seen order. */
  lemma GetProcGroup()
    ensures Group(Pairs(GetProcParams)) == SetTable(["Id", "OneOnly", AllParameterSets],
      map["Id" := [IdParam], "OneOnly" := [IdParam, OneOnlyParam], AllParameterSets := [DoNothingParam]])
  {
    GetProcPairs();
    var p1 := [(IdParam, "Id")];
    var p2 := p1 + [(IdParam, "OneOnly")];
    var p3 := p2 + [(OneOnlyParam, "OneOnly")];
    var p4 := p3 + [(DoNothingParam, AllParameterSets)];
    assert p1[..0] == [] && p2[..1] == p1 && p3[..2] == p2 && p4[..3] == p3;
    assert Group(p1) == SetTable(["Id"], map["Id" := [IdParam]]);
    assert Group(p2) == SetTable(["Id", "OneOnly"], map["Id" := [IdParam], "OneOnly" := [IdParam]]);
    assert [IdParam] + [OneOnlyParam] == [IdParam, OneOnlyParam];
    var members := map["Id" := [IdParam], "OneOnly" := [IdParam, OneOnlyParam]];
    assert map["Id" := [IdParam], "OneOnly" := [IdParam]]["OneOnly" := [IdParam, OneOnlyParam]] == members;
    assert Group(p3) == SetTable(["Id", "OneOnly"], members);
    assert Pairs(GetProcParams) == p4;
    assert Group(p4) == SetTable(["Id", "OneOnly", AllParameterSets], members[AllParameterSets := [DoNothingParam]]);
  }

  /** Grouping finds `Id`, then `OneOnly`, then the all-sets group, which is split off. */
  lemma GetProcResolves()
    ensures var r := Resolve(GetProcParams);
      && r.table.keys == ["Id", "OneOnly"]
      && r.table.members == map["Id" := [IdParam], "OneOnly" := [IdParam, OneOnlyParam]]
      && r.common == Some([DoNothingParam])
  {
    GetProcGroup();
    var keys := ["Id", "OneOnly", AllParameterSets];
    assert RemoveKey(keys, AllParameterSets) == ["Id", "OneOnly"] by {
      assert keys[..2] == ["Id", "OneOnly"];
      assert keys[..2][..1] == ["Id"];
      assert keys[..2][..1][..0] == [];
      assert RemoveKey([], AllParameterSets) == [];
      assert RemoveKey(["Id"], AllParameterSets) == ["Id"];
      assert RemoveKey(["Id", "OneOnly"], AllParameterSets) == ["Id", "OneOnly"];
    }
    var members := map["Id" := [IdParam], "OneOnly" := [IdParam, OneOnlyParam]];
    assert members[AllParameterSets := [DoNothingParam]] - {AllParameterSets} == members;
  }

  /** Each set's entries: `Id` and `OneOnly` matched by their own attributes, case-insensitively. */
  lemma GetProcSetEntries()
    ensures SetEntries([IdParam], "Id") == [SyntaxParam(IdParam, InSetAttr("Id"))]
    ensures SetEntries([IdParam, OneOnlyParam], "OneOnly") ==
      [SyntaxParam(IdParam, InSetAttr("OneOnly")), SyntaxParam(OneOnlyParam, InSetAttr("OneOnly"))]
  {
    var id, oneOnly := InSetAttr("Id"), InSetAttr("OneOnly");
    assert InSet(id, "Id") && InSet(oneOnly, "OneOnly");
    assert !InSet(id, "OneOnly") by {
      assert |Lower("Id")| != |Lower("OneOnly")|;
    }
    assert [id, oneOnly][1..] == [oneOnly];
    assert VariantForSet([id, oneOnly], "Id") == Some(id);
    assert VariantForSet([id, oneOnly], "OneOnly") == Some(oneOnly);
    assert VariantForSet([oneOnly], "OneOnly") == Some(oneOnly);
    assert [IdParam][..0] == [] && [IdParam, OneOnlyParam][..1] == [IdParam];
    assert SetEntries([IdParam], "OneOnly") == [SyntaxParam(IdParam, oneOnly)];
  }

  /** Two syntax items, `Id` then `OneOnly`, each closed by `DoNothing`. */
  lemma GetProcSyntaxItems()
    ensures SyntaxItems(GetProcParams) ==
      [[SyntaxParam(IdParam, InSetAttr("Id")), SyntaxParam(DoNothingParam, InSetAttr(AllParameterSets))],
       [SyntaxParam(IdParam, InSetAttr("OneOnly")), SyntaxParam(OneOnlyParam, InSetAttr("OneOnly")),
        SyntaxParam(DoNothingParam, InSetAttr(AllParameterSets))]]
  {
    GetProcResolves();
    GetProcSetEntries();
    var r := Resolve(GetProcParams);
    var id, oneOnly, all := InSetAttr("Id"), InSetAttr("OneOnly"), InSetAttr(AllParameterSets);
    assert [DoNothingParam][..0] == [];
    var common := [SyntaxParam(DoNothingParam, all)];
    assert CommonEntries([DoNothingParam]) == common;
    var items := SyntaxItems(GetProcParams);
    assert items[0] == ItemEntries(r, "Id") == [SyntaxParam(IdParam, id), SyntaxParam(DoNothingParam, all)];
    assert items[1] == ItemEntries(r, "OneOnly") ==
      [SyntaxParam(IdParam, oneOnly), SyntaxParam(OneOnlyParam, oneOnly), SyntaxParam(DoNothingParam, all)];
    assert |items| == 2 && items == [items[0], items[1]];
  }

  /** In the flat list, `Id` is described by its `Id` attribute, which the default set names, and has no position. */
  lemma GetProcFlatId()
    ensures Representative(IdParam.variants, GetProc.defaultSet) == InSetAttr("Id")
    ensures PositionText(Representative(IdParam.variants, GetProc.defaultSet).position) == "named"
  {
    assert MatchesDefault(InSetAttr("Id"), "Id");
  }

  /** The syntax section of `Get-Proc`: two items, each named `Get-Proc` and each ending with `DoNothing`. */
  lemma GetProcSyntaxSection()
    ensures var kids := SyntaxNode(GetProc, GetProcParams).children;
      && |kids| == 2
      && forall i :: 0 <= i < 2 ==>
           SyntaxItemShape(kids[i], "Get-Proc", [SyntaxParameterNode(SyntaxParam(DoNothingParam, InSetAttr(AllParameterSets)))])
  {
    GetProcResolves();
    SyntaxItemsShape(GetProc, GetProcParams);
    assert [DoNothingParam][..0] == [];
    assert CommonEntries([DoNothingParam]) == [SyntaxParam(DoNothingParam, InSetAttr(AllParameterSets))];
    assert CommonNodes(GetProcParams) == [SyntaxParameterNode(SyntaxParam(DoNothingParam, InSetAttr(AllParameterSets)))];
  }
}
