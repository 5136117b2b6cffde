/**
 * `CmdletHelpGenerator`: the writer-driven generation. Each method makes the
 * same writer calls, in the same order, as its counterpart, and is proved
 * to append exactly the serialisation of the corresponding tree of module
 * Document. The generator's static `_writer` and `_copyright` are passed in
 * as `w` and `copyright`.
 */
module HelpGenerator {
  import opened Wrappers
  import opened Text
  import opened Xml
  import opened Metadata
  import opened Rendering
  import opened Variants
  import opened ParameterSets
  import opened CommentIndex
  import opened Document

  // ---------------------------------------------------------------- event bookkeeping

  lemma SerializeOne(n: Node)
    ensures SerializeAll([n]) == Serialize(n)
  {
    assert [n][..0] == [];
  }

  /** Nothing of `kids` written yet. */
  lemma Begin(e: seq<Event>, kids: seq<Node>)
    ensures e + SerializeAll(kids[..0]) == e
  {
    assert kids[..0] == [];
  }

  /** Writing child `k` after the first `k` extends the written prefix by one child. */
  lemma Step(e: seq<Event>, kids: seq<Node>, k: nat)
    requires k < |kids|
    ensures e + SerializeAll(kids[..k]) + Serialize(kids[k]) == e + SerializeAll(kids[..k + 1])
  {
    SerializeAllSnoc(kids, k);
    Assoc(e, SerializeAll(kids[..k]), Serialize(kids[k]));
  }

  /** Writing one more node after the nodes `ns`. */
  lemma StepAppend(e: seq<Event>, ns: seq<Node>, n: Node)
    ensures e + SerializeAll(ns) + Serialize(n) == e + SerializeAll(ns + [n])
  {
    assert (ns + [n])[..|ns|] == ns;
    Assoc(e, SerializeAll(ns), Serialize(n));
  }

  /** Five sibling nodes written one after the other. */
  lemma Five(e: seq<Event>, a: Node, b: Node, c: Node, d: Node, f: Node)
    ensures e + Serialize(a) + Serialize(b) + Serialize(c) + Serialize(d) + Serialize(f)
         == e + SerializeAll([a, b, c, d, f])
  {
    SerializeOne(a);
    assert [a, b][..1] == [a];
    assert [a, b, c][..2] == [a, b];
    assert [a, b, c, d][..3] == [a, b, c];
    assert [a, b, c, d, f][..4] == [a, b, c, d];
    var sa, sb, sc, sd := Serialize(a), Serialize(b), Serialize(c), Serialize(d);
    assert SerializeAll([a, b]) == sa + sb;
    assert SerializeAll([a, b, c]) == sa + sb + sc;
    assert SerializeAll([a, b, c, d]) == sa + sb + sc + sd;
    assert SerializeAll([a, b, c, d, f]) == sa + sb + sc + sd + Serialize(f);
    Assoc(e, sa, sb);
    Assoc(e, sa + sb, sc);
    Assoc(e, sa + sb + sc, sd);
    Assoc(e, sa + sb + sc + sd, Serialize(f));
  }

  lemma NoAttrs(e: seq<Event>)
    ensures e + AttrEvents([]) == e
  {
    assert AttrEvents([]) == [];
  }

  /** The start tag, the attributes, the children and the end tag make the element. */
  lemma Close(e: seq<Event>, name: Name, attrs: seq<Attr>, kids: seq<Node>)
    ensures e + [StartElement(name)] + AttrEvents(attrs) + SerializeAll(kids[..|kids|]) + [EndElement]
         == e + Serialize(Element(name, attrs, kids))
  {
    assert kids[..|kids|] == kids;
    var start := [StartElement(name)];
    var body := SerializeAll(kids);
    calc {
      e + start + AttrEvents(attrs) + body + [EndElement];
      { Assoc(e + start, AttrEvents(attrs), body); }
      e + start + (AttrEvents(attrs) + body) + [EndElement];
      { Assoc(e, start, AttrEvents(attrs) + body); }
      e + (start + (AttrEvents(attrs) + body)) + [EndElement];
      { Assoc(e, start + (AttrEvents(attrs) + body), [EndElement]); }
      e + (start + (AttrEvents(attrs) + body) + [EndElement]);
      { assert start + (AttrEvents(attrs) + body) == start + AttrEvents(attrs) + body; }
      e + Serialize(Element(name, attrs, kids));
    }
  }

  /** A start tag followed by its attributes, written one `WriteAttributeString` at a time. */
  method WriteStartTag(w: Writer, name: Name, attrs: seq<Attr>)
    modifies w
    ensures w.events == old(w.events) + [StartElement(name)] + AttrEvents(attrs)
  {
    w.WriteStartElement(name);
    ghost var e1 := w.events;
    assert AttrEvents(attrs[..0]) == [];
    for k := 0 to |attrs|
      invariant w.events == e1 + AttrEvents(attrs[..k])
    {
      w.WriteAttributeString(attrs[k].name, attrs[k].value);
      assert AttrEvents(attrs[..k]) + [AttributeString(attrs[k].name, attrs[k].value)] == AttrEvents(attrs[..k + 1]);
      Assoc(e1, AttrEvents(attrs[..k]), [AttributeString(attrs[k].name, attrs[k].value)]);
    }
    assert attrs[..|attrs|] == attrs;
  }

  // ---------------------------------------------------------------- paragraphs and descriptions

  /** `WritePara`. */
  method WritePara(w: Writer, para: string)
    modifies w
    ensures w.events == old(w.events) + SerializeAll(ParaNodes(para))
  {
    ghost var e0 := w.events;
    if para == "" {
      ghost var kids := ParaNodes(para);
      Begin(e0, kids);
      w.WriteElementString(Maml("para"), "");
      Step(e0, kids, 0);
      assert kids[..1] == kids;
      return;
    }
    var paragraphs := SplitLines(para);
    ghost var nodes := ParaLeaves(paragraphs);
    Begin(e0, nodes);
    for i := 0 to |paragraphs|
      invariant w.events == e0 + SerializeAll(nodes[..i])
    {
      w.WriteElementString(Maml("para"), paragraphs[i]);
      Step(e0, nodes, i);
    }
    assert nodes[..|paragraphs|] == nodes;
  }

  /** The empty paragraph and the copyright paragraphs that close a full description. */
  method WriteCopyrightParas(w: Writer, copyright: string)
    modifies w
    ensures w.events == old(w.events) + SerializeAll(ParaNodes("") + ParaNodes(copyright))
  {
    ghost var e0 := w.events;
    WritePara(w, "");
    WritePara(w, copyright);
    SerializeAllAppend(ParaNodes(""), ParaNodes(copyright));
    Assoc(e0, SerializeAll(ParaNodes("")), SerializeAll(ParaNodes(copyright)));
  }

  /** The paragraphs of `WriteDescription`. */
  method WriteDescriptionParas(w: Writer, desc: string, addCopyright: bool, copyright: string)
    modifies w
    ensures w.events == old(w.events) + SerializeAll(DescriptionParas(desc, addCopyright, copyright))
  {
    ghost var e0 := w.events;
    WritePara(w, desc);
    if addCopyright {
      WriteCopyrightParas(w, copyright);
      SerializeAllAppend(ParaNodes(desc), ParaNodes("") + ParaNodes(copyright));
      Assoc(e0, SerializeAll(ParaNodes(desc)), SerializeAll(ParaNodes("") + ParaNodes(copyright)));
    } else {
      assert DescriptionParas(desc, addCopyright, copyright) == ParaNodes(desc) + [] == ParaNodes(desc);
    }
  }

  /** `WriteDescription(string desc, bool addCopyright)`. */
  method WriteDescription(w: Writer, desc: string, addCopyright: bool, copyright: string)
    modifies w
    ensures w.events == old(w.events) + Serialize(DescriptionNode(desc, addCopyright, copyright))
  {
    ghost var e0 := w.events;
    ghost var kids := DescriptionParas(desc, addCopyright, copyright);
    w.WriteStartElement(Maml("description"));
    NoAttrs(w.events);
    ghost var e1 := w.events;
    WriteDescriptionParas(w, desc, addCopyright, copyright);
    assert kids[..|kids|] == kids;
    w.WriteEndElement();
    Close(e0, Maml("description"), [], kids);
  }

  /** `WriteDescription(bool synopsis, bool addCopyright, CommentHelpInfo comment)`. */
  method WriteCommentDescription(w: Writer, synopsis: bool, addCopyright: bool, c: CommentHelp, copyright: string)
    modifies w
    ensures w.events == old(w.events) +
      Serialize(DescriptionNode(if synopsis then c.synopsis else c.description, addCopyright, copyright))
  {
    var desc := c.description;
    if synopsis {
      desc := c.synopsis;
    }
    WriteDescription(w, desc, addCopyright, copyright);
  }

  /** `WriteCopyright`. */
  method WriteCopyright(w: Writer, copyright: string)
    modifies w
    ensures w.events == old(w.events) + Serialize(CopyrightNode(copyright))
  {
    ghost var e0 := w.events;
    ghost var kids := ParaNodes(copyright);
    w.WriteStartElement(Maml("copyright"));
    NoAttrs(w.events);
    WritePara(w, copyright);
    assert kids[..|kids|] == kids;
    w.WriteEndElement();
    Close(e0, Maml("copyright"), [], kids);
  }

  /** `WriteDevType`. */
  method WriteDevType(w: Writer, name: string, description: string)
    modifies w
    ensures w.events == old(w.events) + Serialize(DevTypeNode(name, description))
  {
    ghost var e0 := w.events;
    ghost var kids := DevTypeNode(name, description).children;
    w.WriteStartElement(Dev("type"));
    NoAttrs(w.events);
    ghost var e1 := w.events;
    Begin(e1, kids);
    w.WriteElementString(Maml("name"), name);
    Step(e1, kids, 0);
    w.WriteElementString(Maml("uri"), "");
    Step(e1, kids, 1);
    WriteDescription(w, description, false, "");
    Step(e1, kids, 2);
    w.WriteEndElement();
    Close(e0, Dev("type"), [], kids);
  }

  /** `WriteNotes`. */
  method WriteNotes(w: Writer, c: CommentHelp)
    modifies w
    ensures w.events == old(w.events) + Serialize(NotesNode(c))
  {
    ghost var e0 := w.events;
    ghost var alert := Element(Maml("alert"), [], ParaNodes(c.notes));
    w.WriteStartElement(Maml("alertSet"));
    NoAttrs(w.events);
    ghost var e1 := w.events;
    Begin(e1, [alert]);
    w.WriteStartElement(Maml("alert"));
    NoAttrs(w.events);
    WritePara(w, c.notes);
    assert ParaNodes(c.notes)[..|ParaNodes(c.notes)|] == ParaNodes(c.notes);
    w.WriteEndElement();
    Close(e1 + SerializeAll([alert][..0]), Maml("alert"), [], ParaNodes(c.notes));
    Step(e1, [alert], 0);
    w.WriteEndElement();
    Close(e0, Maml("alertSet"), [], [alert]);
  }

  // ---------------------------------------------------------------- list sections

  /** An element opened and closed at once, with nothing inside. */
  method WriteEmptyElement(w: Writer, name: Name)
    modifies w
    ensures w.events == old(w.events) + Serialize(Element(name, [], []))
  {
    w.WriteStartElement(name);
    w.WriteEndElement();
    assert AttrEvents([]) == [] && SerializeAll([]) == [];
  }

  /** The title of the `i`-th of `count` examples (0-based), numbered from one. */
  method ExampleTitleText(count: nat, i: nat) returns (title: string)
    ensures title == ExampleTitle(count, i)
  {
    title := SingleExampleTitle;
    if count != 1 {
      title := ExamplePrefix + NatToString(i + 1) + ExampleSuffix;
    }
  }

  /** One example of `WriteExamples`. */
  method WriteExample(w: Writer, count: nat, i: nat, ex: string)
    modifies w
    ensures w.events == old(w.events) + Serialize(ExampleNode(count, i, ex))
  {
    ghost var e0 := w.events;
    ghost var kids := ExampleNode(count, i, ex).children;
    w.WriteStartElement(Cmd("example"));
    NoAttrs(w.events);
    ghost var e1 := w.events;
    Begin(e1, kids);
    var title := ExampleTitleText(count, i);
    w.WriteElementString(Maml("title"), title);
    Step(e1, kids, 0);
    w.WriteElementString(Dev("code"), ex);
    Step(e1, kids, 1);
    WriteEmptyElement(w, Dev("remarks"));
    Step(e1, kids, 2);
    w.WriteEndElement();
    Close(e0, Cmd("example"), [], kids);
  }

  /** `WriteExamples`. */
  method WriteExamples(w: Writer, c: CommentHelp)
    modifies w
    ensures w.events == old(w.events) + Serialize(ExamplesNode(c))
  {
    if c.examples.None? || |c.examples.value| == 0 {
      w.WriteElementString(Cmd("examples"), "");
      return;
    }
    var examples := c.examples.value;
    ghost var e0 := w.events;
    ghost var nodes := ExampleNodes(examples);
    w.WriteStartElement(Cmd("examples"));
    NoAttrs(w.events);
    ghost var e1 := w.events;
    Begin(e1, nodes);
    for i := 0 to |examples|
      invariant w.events == e1 + SerializeAll(nodes[..i])
    {
      var ex := examples[i];
      WriteExample(w, |examples|, i, ex);
      Step(e1, nodes, i);
    }
    w.WriteEndElement();
    Close(e0, Cmd("examples"), [], nodes);
  }

  /** One `inputType` or `returnValue` entry: a description wrapped in an element. */
  method WriteDescribed(w: Writer, name: Name, text: string)
    modifies w
    ensures w.events == old(w.events) + Serialize(Element(name, [], [DescriptionNode(text, false, "")]))
  {
    ghost var e0 := w.events;
    ghost var kids := [DescriptionNode(text, false, "")];
    w.WriteStartElement(name);
    NoAttrs(w.events);
    ghost var e1 := w.events;
    Begin(e1, kids);
    WriteDescription(w, text, false, "");
    Step(e1, kids, 0);
    w.WriteEndElement();
    Close(e0, name, [], kids);
  }

  /** `WriteInputs`, with the placeholder written as `command:inputTypes`. */
  method WriteInputs(w: Writer, c: CommentHelp)
    modifies w
    ensures w.events == old(w.events) + Serialize(InputsNode(c))
  {
    if c.inputs.None? || |c.inputs.value| == 0 {
      w.WriteElementString(Cmd("inputTypes"), "");
      return;
    }
    var inputs := c.inputs.value;
    ghost var e0 := w.events;
    ghost var nodes := DescribedNodes(Cmd("inputType"), inputs);
    w.WriteStartElement(Cmd("inputTypes"));
    NoAttrs(w.events);
    ghost var e1 := w.events;
    Begin(e1, nodes);
    for i := 0 to |inputs|
      invariant w.events == e1 + SerializeAll(nodes[..i])
    {
      WriteDescribed(w, Cmd("inputType"), inputs[i]);
      Step(e1, nodes, i);
    }
    w.WriteEndElement();
    Close(e0, Cmd("inputTypes"), [], nodes);
  }

  /**
   * `WriteOutputs`, with the placeholder written as `command:returnValues`.
   * It lists the INPUT descriptions; `ok` is false where iterating null
   * inputs throws, after the start tag has been written.
   */
  method WriteOutputs(w: Writer, c: CommentHelp) returns (ok: bool)
    modifies w
    ensures ok == !OutputsFail(c)
    ensures ok ==> w.events == old(w.events) + Serialize(OutputsNode(c))
  {
    if c.outputs.None? || |c.outputs.value| == 0 {
      w.WriteElementString(Cmd("returnValues"), "");
      return true;
    }
    ghost var e0 := w.events;
    w.WriteStartElement(Cmd("returnValues"));
    if c.inputs.None? {
      return false;
    }
    var inputs := c.inputs.value;
    ghost var nodes := DescribedNodes(Cmd("returnValue"), inputs);
    NoAttrs(w.events);
    ghost var e1 := w.events;
    Begin(e1, nodes);
    for i := 0 to |inputs|
      invariant w.events == e1 + SerializeAll(nodes[..i])
    {
      WriteDescribed(w, Cmd("returnValue"), inputs[i]);
      Step(e1, nodes, i);
    }
    w.WriteEndElement();
    Close(e0, Cmd("returnValues"), [], nodes);
    ok := true;
  }

  /** One link of `WriteRelatedLinks`. */
  method WriteLink(w: Writer, link: string)
    modifies w
    ensures w.events == old(w.events) + Serialize(LinkNodes([link])[0])
  {
    ghost var e0 := w.events;
    ghost var kids := LinkNodes([link])[0].children;
    w.WriteStartElement(Maml("navigationLink"));
    NoAttrs(w.events);
    ghost var e1 := w.events;
    Begin(e1, kids);
    w.WriteElementString(Maml("linkText"), link);
    Step(e1, kids, 0);
    w.WriteElementString(Maml("uri"), "");
    Step(e1, kids, 1);
    w.WriteEndElement();
    Close(e0, Maml("navigationLink"), [], kids);
  }

  /** `WriteRelatedLinks`. */
  method WriteRelatedLinks(w: Writer, c: CommentHelp)
    modifies w
    ensures w.events == old(w.events) + Serialize(LinksNode(c))
  {
    if c.links.None? || |c.links.value| == 0 {
      w.WriteElementString(Maml("relatedLinks"), "");
      return;
    }
    var links := c.links.value;
    ghost var e0 := w.events;
    ghost var nodes := LinkNodes(links);
    w.WriteStartElement(Maml("relatedLinks"));
    NoAttrs(w.events);
    ghost var e1 := w.events;
    Begin(e1, nodes);
    for i := 0 to |links|
      invariant w.events == e1 + SerializeAll(nodes[..i])
    {
      WriteLink(w, links[i]);
      Step(e1, nodes, i);
    }
    w.WriteEndElement();
    Close(e0, Maml("relatedLinks"), [], nodes);
  }

  // ---------------------------------------------------------------- syntax

  /** `WriteParameter`'s `command:parameterValue`: the value type, expanded for nullable and enumeration types. */
  method WriteSyntaxParameterValue(w: Writer, p: Property)
    modifies w
    ensures w.events == old(w.events) + Serialize(SyntaxValueNode(p))
  {
    ghost var e0 := w.events;
    ghost var kids := [Value(SyntaxTypeName(p.propertyType))];
    var required := "true";
    if p.declaredOnPSCmdlet {
      required := "false";
    }
    WriteStartTag(w, Cmd("parameterValue"), [Attr(Local("required"), required)]);
    ghost var e1 := w.events;
    Begin(e1, kids);
    var t := p.propertyType;
    var shown;
    if t.Nullable? {
      var coreType := t.core;
      if coreType.Plain? && coreType.enumNames.Some? {
        shown := Join(coreType.enumNames.value, " | ");
      } else {
        shown := TypeName(coreType);
      }
    } else {
      if t.enumNames.Some? {
        shown := Join(t.enumNames.value, " | ");
      } else {
        shown := TypeName(t);
      }
    }
    assert shown == SyntaxTypeName(t);
    w.WriteValue(shown);
    Step(e1, kids, 0);
    w.WriteEndElement();
    Close(e0, Cmd("parameterValue"), [Attr(Local("required"), required)], kids);
  }

  /** The `position` attribute: "named" for a negative position, else the one-based position. */
  method Position(position: Int32) returns (text: string)
    ensures text == PositionText(position)
  {
    if position < 0 {
      text := "named";
    } else {
      text := IntToString(Increment32(position));
    }
  }

  /** `WriteParameter`: one parameter of a syntax item. */
  method WriteParameter(w: Writer, p: Property, pa: Variant)
    modifies w
    ensures w.events == old(w.events) + Serialize(SyntaxParameterNode(SyntaxParam(p, pa)))
  {
    ghost var node := SyntaxParameterNode(SyntaxParam(p, pa));
    ghost var e0 := w.events;
    var position := Position(pa.position);
    WriteStartTag(w, Cmd("parameter"),
      [Attr(Local("required"), BoolText(pa.mandatory)),
       Attr(Local("parameterSetName"), pa.setName),
       Attr(Local("position"), position)]);
    ghost var e1 := w.events;
    Begin(e1, node.children);
    w.WriteElementString(Maml("name"), p.name);
    Step(e1, node.children, 0);
    WriteSyntaxParameterValue(w, p);
    Step(e1, node.children, 1);
    w.WriteEndElement();
    Close(e0, Cmd("parameter"), node.attrs, node.children);
  }

  lemma ParamNodesSnoc(es: seq<SyntaxParam>, x: SyntaxParam)
    ensures SyntaxParameterNodes(es + [x]) == SyntaxParameterNodes(es) + [SyntaxParameterNode(x)]
  {
    SyntaxParameterNodesAppend(es, [x]);
  }

  /** The set's own parameters of `WriteSyntaxItem`: each member with its first attribute in the set. */
  method WriteSetParameters(w: Writer, members: seq<Property>, parameterSetName: string)
    modifies w
    ensures w.events == old(w.events) + SerializeAll(SyntaxParameterNodes(SetEntries(members, parameterSetName)))
  {
    ghost var e0 := w.events;
    assert members[..0] == [];
    for i := 0 to |members|
      invariant w.events == e0 + SerializeAll(SyntaxParameterNodes(SetEntries(members[..i], parameterSetName)))
    {
      var pi := members[i];
      ghost var before := SetEntries(members[..i], parameterSetName);
      assert members[..i + 1][..i] == members[..i];
      var pa := GetParameterAttribute(pi.variants, parameterSetName);
      if pa.None? {
        assert SetEntries(members[..i + 1], parameterSetName) == before;
        continue;
      }
      WriteParameter(w, pi, pa.value);
      assert SetEntries(members[..i + 1], parameterSetName) == before + [SyntaxParam(pi, pa.value)];
      ParamNodesSnoc(before, SyntaxParam(pi, pa.value));
      StepAppend(e0, SyntaxParameterNodes(before), SyntaxParameterNode(SyntaxParam(pi, pa.value)));
    }
    assert members[..|members|] == members;
  }

  /** The common parameters of `WriteSyntaxItem`: each with its first attribute. */
  method WriteCommonParameters(w: Writer, defaultSet: seq<Property>)
    modifies w
    ensures w.events == old(w.events) + SerializeAll(SyntaxParameterNodes(CommonEntries(defaultSet)))
  {
    ghost var e0 := w.events;
    assert defaultSet[..0] == [];
    for i := 0 to |defaultSet|
      invariant w.events == e0 + SerializeAll(SyntaxParameterNodes(CommonEntries(defaultSet[..i])))
    {
      var pi := defaultSet[i];
      ghost var before := CommonEntries(defaultSet[..i]);
      assert defaultSet[..i + 1][..i] == defaultSet[..i];
      var pas := pi.variants;
      if pas == [] {
        assert CommonEntries(defaultSet[..i + 1]) == before;
        continue;
      }
      WriteParameter(w, pi, pas[0]);
      assert CommonEntries(defaultSet[..i + 1]) == before + [SyntaxParam(pi, pas[0])];
      ParamNodesSnoc(before, SyntaxParam(pi, pas[0]));
      StepAppend(e0, SyntaxParameterNodes(before), SyntaxParameterNode(SyntaxParam(pi, pas[0])));
    }
    assert defaultSet[..|defaultSet|] == defaultSet;
  }

  /** The parameters of one syntax item: the set's own, then the common ones. */
  method WriteItemParameters(w: Writer, members: seq<Property>, parameterSetName: string, defaultSet: Option<seq<Property>>)
    modifies w
    ensures w.events == old(w.events) +
      SerializeAll(SyntaxParameterNodes(SetEntries(members, parameterSetName) + CommonEntries(defaultSet.GetOr([]))))
  {
    ghost var own := SyntaxParameterNodes(SetEntries(members, parameterSetName));
    ghost var common := SyntaxParameterNodes(CommonEntries(defaultSet.GetOr([])));
    ghost var e0 := w.events;
    WriteSetParameters(w, members, parameterSetName);
    if defaultSet.Some? {
      WriteCommonParameters(w, defaultSet.value);
    } else {
      assert CommonEntries(defaultSet.GetOr([])) == [];
    }
    SyntaxParameterNodesAppend(SetEntries(members, parameterSetName), CommonEntries(defaultSet.GetOr([])));
    SerializeAllAppend(own, common);
    Assoc(e0, SerializeAll(own), SerializeAll(common));
  }

  /** `WriteSyntaxItem`. */
  method WriteSyntaxItem(w: Writer, cmd: Cmdlet, members: seq<Property>, parameterSetName: string,
                         defaultSet: Option<seq<Property>>)
    modifies w
    ensures w.events == old(w.events) + Serialize(SyntaxItemNode(CommandName(cmd),
      SetEntries(members, parameterSetName) + CommonEntries(defaultSet.GetOr([]))))
  {
    ghost var entries := SyntaxParameterNodes(SetEntries(members, parameterSetName) + CommonEntries(defaultSet.GetOr([])));
    ghost var name := Leaf(Maml("name"), CommandName(cmd));
    ghost var e0 := w.events;
    w.WriteStartElement(Cmd("syntaxItem"));
    NoAttrs(w.events);
    ghost var e1 := w.events;
    w.WriteElementString(Maml("name"), CommandName(cmd));
    WriteItemParameters(w, members, parameterSetName, defaultSet);
    assert w.events == e1 + Serialize(name) + SerializeAll(entries);
    Assoc(e1, Serialize(name), SerializeAll(entries));
    SerializeAllAppend([name], entries);
    SerializeOne(name);
    assert ([name] + entries)[..|[name] + entries|] == [name] + entries;
    w.WriteEndElement();
    Close(e0, Cmd("syntaxItem"), [], [name] + entries);
  }

  /** `WriteSyntax`: groups the parameters by set, then one syntax item per set. */
  method WriteSyntax(w: Writer, cmd: Cmdlet, props: seq<Property>)
    modifies w
    ensures w.events == old(w.events) + Serialize(SyntaxNode(cmd, props))
  {
    var r := ResolveParameterSets(props);
    ghost var items := SyntaxItems(props);
    ghost var nodes := SyntaxItemNodes(CommandName(cmd), items);
    ghost var e0 := w.events;
    w.WriteStartElement(Cmd("syntax"));
    NoAttrs(w.events);
    ghost var e1 := w.events;
    Begin(e1, nodes);
    for i := 0 to |r.table.keys|
      invariant w.events == e1 + SerializeAll(nodes[..i])
    {
      var parameterSetName := r.table.keys[i];
      assert parameterSetName in r.table.members;
      assert items[i] == ItemEntries(r, parameterSetName);
      WriteSyntaxItem(w, cmd, r.table.members[parameterSetName], parameterSetName, r.common);
      Step(e1, nodes, i);
    }
    w.WriteEndElement();
    Close(e0, Cmd("syntax"), [], nodes);
  }

  // ---------------------------------------------------------------- flat parameter list

  /** The `command:parameterValue` of a flat entry: required flag, variable length and the plain type name. */
  method WriteFlatParameterValue(w: Writer, required: string, variableLength: string, typeName: string)
    modifies w
    ensures w.events == old(w.events) + Serialize(FlatValueNode(required, variableLength, typeName))
  {
    ghost var node := FlatValueNode(required, variableLength, typeName);
    ghost var e0 := w.events;
    WriteStartTag(w, Cmd("parameterValue"), [Attr(Local("required"), required), Attr(Local("variableLength"), variableLength)]);
    ghost var e1 := w.events;
    Begin(e1, node.children);
    w.WriteValue(typeName);
    Step(e1, node.children, 0);
    w.WriteEndElement();
    Close(e0, Cmd("parameterValue"), node.attrs, node.children);
  }

  /** The `pipelineInput` literal, chosen as `GenerateHelp` does. */
  method PipelineInput(pa: Variant) returns (text: string)
    ensures text == PipelineInputText(pa.byValue, pa.byPropertyName)
    ensures ReadPipelineInput(text) == Some((pa.byValue, pa.byPropertyName))
  {
    if !pa.byValue && !pa.byPropertyName {
      text := "false";
    } else if pa.byValue && pa.byPropertyName {
      text := "true (ByValue, ByPropertyName)";
    } else if !pa.byValue && pa.byPropertyName {
      text := "true (ByPropertyName)";
    } else {
      text := "true (ByValue)";
    }
  }

  /** The flat entry's start tag, with the attributes in the order `GenerateHelp` writes them. */
  method WriteFlatParameterStart(w: Writer, p: Property, pa: Variant)
    modifies w
    ensures w.events == old(w.events) + [StartElement(Cmd("parameter"))] + AttrEvents(FlatParameterAttrs(p, pa))
  {
    var supportsWildcard := false;
    var pipelineInput := PipelineInput(pa);
    var position := Position(pa.position);
    var variableLength := IsArray(p.propertyType);
    WriteStartTag(w, Cmd("parameter"),
      [Attr(Local("required"), BoolText(pa.mandatory)),
       Attr(Local("globbing"), BoolText(supportsWildcard)),
       Attr(Local("pipelineInput"), pipelineInput),
       Attr(Local("position"), position),
       Attr(Local("variableLength"), BoolText(variableLength))]);
  }

  /** The help message of a flat entry: the attribute's, else the comment help's entry for the upper-cased name. */
  method ParameterHelp(pa: Variant, c: CommentHelp, name: string) returns (helpMessage: string)
    ensures helpMessage == HelpText(pa.helpMessage, c.parameters, name)
  {
    helpMessage := pa.helpMessage;
    if helpMessage == "" && c.parameters.Some? {
      if Upper(name) in c.parameters.value {
        helpMessage := c.parameters.value[Upper(name)];
      }
    }
  }

  /** The children of a flat entry: name, description, value and type. */
  method WriteFlatParameterChildren(w: Writer, name: string, help: string, required: string, variableLength: string, typeName: string)
    modifies w
    ensures w.events == old(w.events) + SerializeAll(FlatParameterChildren(name, help, required, variableLength, typeName))
  {
    ghost var kids := FlatParameterChildren(name, help, required, variableLength, typeName);
    ghost var e1 := w.events;
    Begin(e1, kids);
    w.WriteElementString(Maml("name"), name);
    Step(e1, kids, 0);
    WriteDescription(w, help, false, "");
    Step(e1, kids, 1);
    WriteFlatParameterValue(w, required, variableLength, typeName);
    Step(e1, kids, 2);
    WriteDevType(w, typeName, "");
    Step(e1, kids, 3);
    assert kids[..4] == kids;
  }

  /** One entry of the flat parameter list (the body of the loop over properties). */
  method WriteFlatParameter(w: Writer, p: Property, pa: Variant, c: CommentHelp)
    modifies w
    ensures w.events == old(w.events) + Serialize(FlatParameterNode(p, pa, c))
  {
    ghost var e0 := w.events;
    WriteFlatParameterStart(w, p, pa);
    var helpMessage := ParameterHelp(pa, c, p.name);
    var variableLength := IsArray(p.propertyType);
    WriteFlatParameterChildren(w, p.name, helpMessage, BoolText(pa.mandatory), BoolText(variableLength), TypeName(p.propertyType));
    w.WriteEndElement();
    ghost var kids := FlatParameterChildren(p.name, helpMessage, BoolText(pa.mandatory), BoolText(variableLength), TypeName(p.propertyType));
    assert kids[..|kids|] == kids;
    Close(e0, Cmd("parameter"), FlatParameterAttrs(p, pa), kids);
  }

  lemma FlatNodesStep(cmd: Cmdlet, props: seq<Property>, i: nat, c: CommentHelp)
    requires i < |props|
    ensures FlatParameterNodes(cmd, props[..i + 1], c) == FlatParameterNodes(cmd, props[..i], c) +
      if props[i].variants == [] then [] else [FlatParameterNode(props[i], Representative(props[i].variants, cmd.defaultSet), c)]
  {
    assert props[..i + 1][..i] == props[..i];
  }

  /** The flat `command:parameters` list: every property with a `ParameterAttribute`, by its representative. */
  method WriteParameters(w: Writer, cmd: Cmdlet, props: seq<Property>, c: CommentHelp)
    modifies w
    ensures w.events == old(w.events) + Serialize(ParametersNode(cmd, props, c))
  {
    ghost var e0 := w.events;
    w.WriteStartElement(Cmd("parameters"));
    NoAttrs(w.events);
    ghost var e1 := w.events;
    assert props[..0] == [];
    for i := 0 to |props|
      invariant w.events == e1 + SerializeAll(FlatParameterNodes(cmd, props[..i], c))
    {
      var pi := props[i];
      ghost var before := FlatParameterNodes(cmd, props[..i], c);
      FlatNodesStep(cmd, props, i, c);
      var pas := pi.variants;
      if pas == [] {
        assert FlatParameterNodes(cmd, props[..i + 1], c) == before;
        continue;
      }
      var pa := SelectVariant(pas, cmd.defaultSet);
      WriteFlatParameter(w, pi, pa, c);
      StepAppend(e1, before, FlatParameterNode(pi, pa, c));
    }
    assert props[..|props|] == props;
    ghost var nodes := FlatParameterNodes(cmd, props, c);
    assert nodes[..|nodes|] == nodes;
    w.WriteEndElement();
    Close(e0, Cmd("parameters"), [], nodes);
  }

  // ---------------------------------------------------------------- command

  /** The `command:details` block. */
  method WriteDetails(w: Writer, cmd: Cmdlet, c: CommentHelp, copyright: string, version: string)
    modifies w
    ensures w.events == old(w.events) + Serialize(DetailsNode(cmd, c, copyright, version))
  {
    ghost var kids := DetailsNode(cmd, c, copyright, version).children;
    ghost var e0 := w.events;
    w.WriteStartElement(Cmd("details"));
    NoAttrs(w.events);
    ghost var e1 := w.events;
    Begin(e1, kids);
    w.WriteElementString(Cmd("name"), CommandName(cmd));
    Step(e1, kids, 0);
    w.WriteElementString(Name("gl", "group", ""), cmd.noun);
    Step(e1, kids, 1);
    WriteCommentDescription(w, true, false, c, copyright);
    Step(e1, kids, 2);
    WriteCopyright(w, copyright);
    Step(e1, kids, 3);
    w.WriteElementString(Cmd("verb"), cmd.verb);
    Step(e1, kids, 4);
    w.WriteElementString(Cmd("noun"), cmd.noun);
    Step(e1, kids, 5);
    w.WriteElementString(Dev("version"), version);
    Step(e1, kids, 6);
    w.WriteEndElement();
    Close(e0, Cmd("details"), [], kids);
  }

  /** The sections from details to inputs, which cannot fail. */
  method WriteLeadingSections(w: Writer, cmd: Cmdlet, props: seq<Property>, c: CommentHelp, copyright: string, version: string)
    modifies w
    ensures w.events == old(w.events) + SerializeAll(LeadingSections(cmd, props, c, copyright, version))
  {
    ghost var e1 := w.events;
    WriteDetails(w, cmd, c, copyright, version);
    WriteCommentDescription(w, false, true, c, copyright);
    WriteSyntax(w, cmd, props);
    WriteParameters(w, cmd, props, c);
    WriteInputs(w, c);
    Five(e1, DetailsNode(cmd, c, copyright, version), DescriptionNode(c.description, true, copyright),
      SyntaxNode(cmd, props), ParametersNode(cmd, props, c), InputsNode(c));
  }

  /** The sections after the return values. */
  method WriteTrailingSections(w: Writer, c: CommentHelp)
    modifies w
    ensures w.events == old(w.events) + SerializeAll(TrailingSections(c))
  {
    ghost var e1 := w.events;
    w.WriteElementString(Cmd("terminatingErrors"), "");
    w.WriteElementString(Cmd("nonTerminatingErrors"), "");
    WriteNotes(w, c);
    WriteExamples(w, c);
    WriteRelatedLinks(w, c);
    Five(e1, Leaf(Cmd("terminatingErrors"), ""), Leaf(Cmd("nonTerminatingErrors"), ""),
      NotesNode(c), ExamplesNode(c), LinksNode(c));
  }

  /** The three pieces of a command's body make its sections. */
  lemma CommandBody(e: seq<Event>, cmd: Cmdlet, props: seq<Property>, c: CommentHelp, copyright: string, version: string)
    requires !OutputsFail(c)
    ensures var kids := CommandSections(cmd, props, c, copyright, version);
      e + SerializeAll(LeadingSections(cmd, props, c, copyright, version)) + Serialize(OutputsNode(c))
        + SerializeAll(TrailingSections(c))
      == e + SerializeAll(kids[..|kids|])
  {
    var leading := LeadingSections(cmd, props, c, copyright, version);
    var trailing := TrailingSections(c);
    var kids := CommandSections(cmd, props, c, copyright, version);
    CommandSectionsSplit(cmd, props, c, copyright, version);
    assert kids[..|kids|] == kids;
    SerializeAllAppend(leading + [OutputsNode(c)], trailing);
    SerializeAllAppend(leading, [OutputsNode(c)]);
    SerializeOne(OutputsNode(c));
    var a := SerializeAll(leading);
    var b := Serialize(OutputsNode(c));
    var d := SerializeAll(trailing);
    Assoc(e, a, b);
    Assoc(e, a + b, d);
  }

  /**
   * One command entry (the body of the loop over exported types). `ok` is
   * false exactly where `WriteOutputs` throws.
   */
  method WriteCommand(w: Writer, cmd: Cmdlet, props: seq<Property>, c: CommentHelp, copyright: string, version: string)
    returns (ok: bool)
    modifies w
    ensures ok == !OutputsFail(c)
    ensures ok ==> w.events == old(w.events) + Serialize(CommandNode(cmd, props, c, copyright, version))
  {
    ghost var e0 := w.events;
    WriteStartTag(w, Name("command", "command", CommandNs),
      [Attr(Xmlns("maml"), MamlNs), Attr(Xmlns("dev"), DevNs), Attr(Xmlns("gl"), GlNs)]);
    ghost var e1 := w.events;
    WriteLeadingSections(w, cmd, props, c, copyright, version);
    ok := WriteOutputs(w, c);
    if !ok {
      return;
    }
    WriteTrailingSections(w, c);
    CommandBody(e1, cmd, props, c, copyright, version);
    w.WriteEndElement();
    Close(e0, Name("command", "command", CommandNs), CommandAttrs, CommandSections(cmd, props, c, copyright, version));
  }

  // ---------------------------------------------------------------- entry point

  /** One exported type (the body of the loop over the assembly's types). */
  method WriteEntry(w: Writer, t: ExportedType, comments: Index, copyright: string, version: string) returns (ok: bool)
    modifies w
    ensures ok == EntryFailure(t, comments).None?
    ensures ok ==> w.events == old(w.events) + SerializeAll(EntryNodes(t, comments, copyright, version))
  {
    if t.cmdlet.None? {
      assert SerializeAll([]) == [];
      return true;
    }
    var ca := t.cmdlet.value;
    var commandName := CommandName(ca);
    var commentHelpInfo := if commandName in comments then comments[commandName] else EmptyComment;
    ok := WriteCommand(w, ca, t.properties, commentHelpInfo, copyright, version);
    if ok {
      SerializeOne(CommandNode(ca, t.properties, commentHelpInfo, copyright, version));
    }
  }

  lemma CommandNodesStep(types: seq<ExportedType>, i: nat, index: Index, copyright: string, version: string)
    requires i < |types| && FirstFailure(types[..i], index).None? && EntryFailure(types[i], index).None?
    ensures FirstFailure(types[..i + 1], index).None?
    ensures CommandNodes(types[..i + 1], index, copyright, version)
         == CommandNodes(types[..i], index, copyright, version) + EntryNodes(types[i], index, copyright, version)
  {
    assert types[..i + 1][..i] == types[..i];
  }

  /** The loop over the exported types: stops at the first command whose `WriteOutputs` throws. */
  method WriteCommands(w: Writer, types: seq<ExportedType>, comments: Index, copyright: string, version: string)
    returns (failed: Option<string>)
    modifies w
    ensures failed == FirstFailure(types, comments)
    ensures failed.None? ==> w.events == old(w.events) + SerializeAll(CommandNodes(types, comments, copyright, version))
  {
    ghost var e := w.events;
    assert types[..0] == [];
    for i := 0 to |types|
      invariant FirstFailure(types[..i], comments).None?
      invariant w.events == e + SerializeAll(CommandNodes(types[..i], comments, copyright, version))
    {
      ghost var before := CommandNodes(types[..i], comments, copyright, version);
      var ok := WriteEntry(w, types[i], comments, copyright, version);
      if !ok {
        assert types[..i + 1][..i] == types[..i];
        FirstFailurePrefix(types, i + 1, comments);
        return EntryFailure(types[i], comments);
      }
      CommandNodesStep(types, i, comments, copyright, version);
      SerializeAllAppend(before, EntryNodes(types[i], comments, copyright, version));
      Assoc(e, SerializeAll(before), SerializeAll(EntryNodes(types[i], comments, copyright, version)));
    }
    assert types[..|types|] == types;
    return None;
  }

  /**
   * `GenerateHelp(Assembly, outputPath, inputFiles)`: indexes the comment
   * help, then writes one command entry per exported cmdlet type. The
   * events are those of the help document, or the run fails as the source
   * does: on a repeated comment file name, or on a command whose comment
   * help has outputs but no inputs.
   */
  method GenerateHelp(asm: Assembly, sources: seq<CommentSource>) returns (r: Result<seq<Event>, HelpError>)
    ensures r == HelpDocument(asm, sources)
  {
    var indexed := BuildCommentIndex(sources);
    if indexed.Failure? {
      return Failure(DuplicateCommentFile(indexed.error));
    }
    var comments := indexed.value;
    var w := new Writer();
    w.WriteStartDocument();
    ghost var e0 := w.events;
    WriteStartTag(w, Local("helpItems"), [Attr(Local("xmlns"), "http://msh"), Attr(Local("schema"), "maml")]);
    var failed := WriteCommands(w, asm.types, comments, asm.copyright, asm.version);
    if failed.Some? {
      assert HelpDocument(asm, sources) == Failure(NullInputs(failed.value));
      return Failure(NullInputs(failed.value));
    }
    ghost var nodes := CommandNodes(asm.types, comments, asm.copyright, asm.version);
    assert nodes[..|nodes|] == nodes;
    w.WriteEndElement();
    Close(e0, Local("helpItems"), HelpItemsAttrs, nodes);
    assert w.events == [StartDocument] + Serialize(HelpItemsNode(asm, comments));
    w.WriteEndDocument();
    r := Success(w.events);
    assert HelpDocument(asm, sources) == Success([StartDocument] + Serialize(HelpItemsNode(asm, comments)) + [EndDocument]);
  }
}
