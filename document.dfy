/**
 * The MAML document as a tree: what each `Write*` helper of the generator
 * writes, per command, in the fixed section order. The writer methods in
 * module HelpGenerator are proved to emit exactly `Serialize` of these trees.
 */
module Document {
  import opened Wrappers
  import opened Text
  import opened Xml
  import opened Metadata
  import opened Rendering
  import opened Variants
  import opened ParameterSets
  import opened CommentIndex

  // ---------------------------------------------------------------- names

  function Cmd(local: string): Name { Name("command", local, "") }
  function Maml(local: string): Name { Name("maml", local, "") }
  function Dev(local: string): Name { Name("dev", local, "") }
  /** An attribute written with `WriteAttributeString(localName, value)`. */
  function Local(local: string): Name { Name("", local, "") }
  function Xmlns(prefix: string): Name { Name("xmlns", prefix, "") }

  const CommandNs: string := "http://schemas.microsoft.com/maml/dev/command/2004/10"
  const MamlNs: string := "http://schemas.microsoft.com/maml/2004/1"
  const DevNs: string := "http://schemas.microsoft.com/maml/dev/2004/10"
  const GlNs: string := "http://schemas.sitecorepowershellextensions.com/maml/gl/2013/02"

  /** The name a node is written under. */
  function NameOf(n: Node): Option<Name> {
    match n
    case Element(name, _, _) => Some(name)
    case Leaf(name, _) => Some(name)
    case Value(_) => None
  }

  /** True for a node with no content: an empty element or an element string with no text. */
  predicate IsEmptyElement(n: Node) {
    (n.Leaf? && n.text == "") || (n.Element? && n.attrs == [] && n.children == [])
  }

  // ---------------------------------------------------------------- paragraphs

  function ParaLeaves(segments: seq<string>): seq<Node> {
    seq(|segments|, i requires 0 <= i < |segments| => Leaf(Maml("para"), segments[i]))
  }

  /** `WritePara`: one empty paragraph for no text, else one paragraph per line. */
  function ParaNodes(text: string): seq<Node> {
    if text == "" then [Leaf(Maml("para"), "")] else ParaLeaves(SplitLines(text))
  }

  /** The texts of a sequence of paragraphs. */
  function ParaTexts(ns: seq<Node>): seq<string>
    requires forall i :: 0 <= i < |ns| ==> ns[i].Leaf?
  {
    seq(|ns|, i requires 0 <= i < |ns| => ns[i].text)
  }

  /**
   * The paragraphs for a text are at least one `maml:para` element each,
   * no paragraph holds a line break, and joining their texts with "\r\n"
   * gives back the text; an empty text gives a single empty paragraph.
   */
  lemma ParaNodesSpec(text: string)
    ensures var ns := ParaNodes(text);
      && |ns| >= 1
      && (forall i :: 0 <= i < |ns| ==> ns[i].Leaf? && ns[i].name == Maml("para") && NoCrLf(ns[i].text))
      && Join(ParaTexts(ns), CrLf) == text
    ensures text == "" ==> ParaNodes(text) == [Leaf(Maml("para"), "")]
  {
    if text != "" {
      JoinSplitLines(text);
      var ns := ParaNodes(text);
      assert ParaTexts(ns) == SplitLines(text);
    }
  }

  // ---------------------------------------------------------------- text blocks

  /** `WriteDescription`: the text's paragraphs, then, with the copyright, an empty paragraph and the copyright's. */
  function DescriptionNode(desc: string, addCopyright: bool, copyright: string): Node {
    Element(Maml("description"), [], DescriptionParas(desc, addCopyright, copyright))
  }

  function DescriptionParas(desc: string, addCopyright: bool, copyright: string): seq<Node> {
    ParaNodes(desc) + (if addCopyright then ParaNodes("") + ParaNodes(copyright) else [])
  }

  /** `WriteCopyright`. */
  function CopyrightNode(copyright: string): Node {
    Element(Maml("copyright"), [], ParaNodes(copyright))
  }

  /** `WriteDevType`. */
  function DevTypeNode(name: string, description: string): Node {
    Element(Dev("type"), [], [Leaf(Maml("name"), name), Leaf(Maml("uri"), ""), DescriptionNode(description, false, "")])
  }

  /** `WriteNotes`. */
  function NotesNode(c: CommentHelp): Node {
    Element(Maml("alertSet"), [], [Element(Maml("alert"), [], ParaNodes(c.notes))])
  }

  // ---------------------------------------------------------------- examples

  const ExamplePrefix: string := "------------------EXAMPLE "
  const ExampleSuffix: string := "-----------------------"
  const SingleExampleTitle: string := "------------------EXAMPLE------------------"

  /** The title of example `i` of `count`. */
  function ExampleTitle(count: nat, i: nat): string {
    if count == 1 then SingleExampleTitle
    else ExamplePrefix + NatToString(i + 1) + ExampleSuffix
  }

  /** Recovers the number from a numbered example title. */
  function ReadExampleNumber(title: string): Option<nat> {
    if |title| > |ExamplePrefix| + |ExampleSuffix|
       && title[..|ExamplePrefix|] == ExamplePrefix
       && title[|title| - |ExampleSuffix|..] == ExampleSuffix
       && IsDigits(title[|ExamplePrefix|..|title| - |ExampleSuffix|])
    then Some(DigitsValue(title[|ExamplePrefix|..|title| - |ExampleSuffix|]))
    else None
  }

  /**
   * A single example carries the fixed banner; among several, example `i`
   * carries a title that reads back as the number i + 1, so no two titles
   * are equal.
   */
  lemma ExampleTitleSpec(count: nat, i: nat)
    ensures count == 1 ==> ExampleTitle(count, i) == SingleExampleTitle
    ensures count != 1 ==> ReadExampleNumber(ExampleTitle(count, i)) == Some(i + 1)
  {
    if count != 1 {
      var digits := NatToString(i + 1);
      var t := ExampleTitle(count, i);
      assert t[..|ExamplePrefix|] == ExamplePrefix;
      assert t[|t| - |ExampleSuffix|..] == ExampleSuffix;
      assert t[|ExamplePrefix|..|t| - |ExampleSuffix|] == digits;
      DigitsValueOfNatToString(i + 1);
    }
  }

  lemma ExampleTitlesDistinct(count: nat, i: nat, j: nat)
    requires count != 1 && i != j
    ensures ExampleTitle(count, i) != ExampleTitle(count, j)
  {
    ExampleTitleSpec(count, i);
    ExampleTitleSpec(count, j);
  }

  function ExampleNode(count: nat, i: nat, code: string): Node {
    Element(Cmd("example"), [],
      [Leaf(Maml("title"), ExampleTitle(count, i)), Leaf(Dev("code"), code), Element(Dev("remarks"), [], [])])
  }

  function ExampleNodes(examples: seq<string>): (ns: seq<Node>)
    ensures |ns| == |examples|
    ensures forall i :: 0 <= i < |examples| ==> ns[i] == ExampleNode(|examples|, i, examples[i])
  {
    seq(|examples|, i requires 0 <= i < |examples| => ExampleNode(|examples|, i, examples[i]))
  }

  /** `WriteExamples`: an empty element for no examples. */
  function ExamplesNode(c: CommentHelp): Node {
    if IsNullOrEmpty(c.examples) then Leaf(Cmd("examples"), "")
    else Element(Cmd("examples"), [], ExampleNodes(c.examples.value))
  }

  /** One `command:example` per example, in order, each titled and holding its code. */
  lemma ExamplesNodeSpec(c: CommentHelp)
    ensures NameOf(ExamplesNode(c)) == Some(Cmd("examples"))
    ensures IsNullOrEmpty(c.examples) <==> IsEmptyElement(ExamplesNode(c))
    ensures !IsNullOrEmpty(c.examples) ==>
      var exs := c.examples.value; var kids := ExamplesNode(c).children;
      && |kids| == |exs|
      && forall i :: 0 <= i < |exs| ==>
           && kids[i].children[0] == Leaf(Maml("title"), ExampleTitle(|exs|, i))
           && kids[i].children[1] == Leaf(Dev("code"), exs[i])
  {
  }

  // ---------------------------------------------------------------- inputs and outputs

  /** One `name` element per text, each holding that text's description (an `inputType` or a `returnValue`). */
  function DescribedNodes(name: Name, texts: seq<string>): (ns: seq<Node>)
    ensures |ns| == |texts|
    ensures forall i :: 0 <= i < |texts| ==> ns[i] == Element(name, [], [DescriptionNode(texts[i], false, "")])
  {
    seq(|texts|, i requires 0 <= i < |texts| => Element(name, [], [DescriptionNode(texts[i], false, "")]))
  }

  /** `WriteInputs` as written: the empty placeholder comes from the three-argument
      `WriteElementString(localName, ns, value)`, so it is an element `command` in namespace "inputTypes". */
  function InputsNodeAsWritten(c: CommentHelp): Node {
    if IsNullOrEmpty(c.inputs) then Leaf(Name("", "command", "inputTypes"), "")
    else Element(Cmd("inputTypes"), [], DescribedNodes(Cmd("inputType"), c.inputs.value))
  }

  /** `WriteInputs` with the placeholder written as `command:inputTypes`, like the other sections'. */
  function InputsNode(c: CommentHelp): Node {
    if IsNullOrEmpty(c.inputs) then Leaf(Cmd("inputTypes"), "")
    else Element(Cmd("inputTypes"), [], DescribedNodes(Cmd("inputType"), c.inputs.value))
  }

  /** As written, a command without inputs gets an element `command` in namespace "inputTypes", not `command:inputTypes`. */
  lemma InputsPlaceholderMisnamed(c: CommentHelp)
    requires IsNullOrEmpty(c.inputs)
    ensures NameOf(InputsNodeAsWritten(c)) != Some(Cmd("inputTypes"))
    ensures NameOf(InputsNodeAsWritten(c)) == Some(Name("", "command", "inputTypes"))
  {
  }

  /** Corrected: the section is always a `command:inputTypes` element, empty exactly when there are no inputs. */
  lemma InputsNodeSpec(c: CommentHelp)
    ensures NameOf(InputsNode(c)) == Some(Cmd("inputTypes"))
    ensures IsNullOrEmpty(c.inputs) <==> IsEmptyElement(InputsNode(c))
    ensures !IsNullOrEmpty(c.inputs) ==> |InputsNode(c).children| == |c.inputs.value|
  {
  }

  /** `WriteOutputs` tests the outputs but iterates the inputs, which throws when they are null. */
  predicate OutputsFail(c: CommentHelp) {
    !IsNullOrEmpty(c.outputs) && c.inputs.None?
  }

  /** `WriteOutputs` as written for the list it iterates; the placeholder as `command:returnValues`. */
  function OutputsNodeAsWritten(c: CommentHelp): Node
    requires !OutputsFail(c)
  {
    if IsNullOrEmpty(c.outputs) then Leaf(Name("", "command", "returnValues"), "")
    else Element(Cmd("returnValues"), [], DescribedNodes(Cmd("returnValue"), c.inputs.value))
  }

  function OutputsNode(c: CommentHelp): Node
    requires !OutputsFail(c)
  {
    if IsNullOrEmpty(c.outputs) then Leaf(Cmd("returnValues"), "")
    else Element(Cmd("returnValues"), [], DescribedNodes(Cmd("returnValue"), c.inputs.value))
  }

  /** As written, a command without outputs gets an element `command` in namespace "returnValues", not `command:returnValues`. */
  lemma OutputsPlaceholderMisnamed(c: CommentHelp)
    requires IsNullOrEmpty(c.outputs)
    ensures NameOf(OutputsNodeAsWritten(c)) != Some(Cmd("returnValues"))
    ensures NameOf(OutputsNodeAsWritten(c)) == Some(Name("", "command", "returnValues"))
  {
  }

  /**
   * The return values section lists one `returnValue` per INPUT description
   * when outputs exist, and is an empty `command:returnValues` otherwise.
   */
  lemma OutputsNodeSpec(c: CommentHelp)
    requires !OutputsFail(c)
    ensures NameOf(OutputsNode(c)) == Some(Cmd("returnValues"))
    ensures IsNullOrEmpty(c.outputs) ==> OutputsNode(c) == Leaf(Cmd("returnValues"), "")
    ensures !IsNullOrEmpty(c.outputs) ==>
      |OutputsNode(c).children| == |c.inputs.value| &&
      forall i :: 0 <= i < |c.inputs.value| ==>
        OutputsNode(c).children[i].children == [DescriptionNode(c.inputs.value[i], false, "")]
  {
    if !IsNullOrEmpty(c.outputs) {
      assert c.inputs.Some?;
    }
  }

  // ---------------------------------------------------------------- links

  function LinkNodes(links: seq<string>): (ns: seq<Node>)
    ensures |ns| == |links|
    ensures forall i :: 0 <= i < |links| ==>
      ns[i] == Element(Maml("navigationLink"), [], [Leaf(Maml("linkText"), links[i]), Leaf(Maml("uri"), "")])
  {
    seq(|links|, i requires 0 <= i < |links| =>
      Element(Maml("navigationLink"), [], [Leaf(Maml("linkText"), links[i]), Leaf(Maml("uri"), "")]))
  }

  /** `WriteRelatedLinks`: an empty element for no links. */
  function LinksNode(c: CommentHelp): Node {
    if IsNullOrEmpty(c.links) then Leaf(Maml("relatedLinks"), "")
    else Element(Maml("relatedLinks"), [], LinkNodes(c.links.value))
  }

  /** The links section is always `maml:relatedLinks`, empty exactly when there are no links, else one link per entry in order. */
  lemma LinksNodeSpec(c: CommentHelp)
    ensures NameOf(LinksNode(c)) == Some(Maml("relatedLinks"))
    ensures IsNullOrEmpty(c.links) <==> IsEmptyElement(LinksNode(c))
    ensures !IsNullOrEmpty(c.links) ==>
      var links := c.links.value; var kids := LinksNode(c).children;
      && |kids| == |links|
      && forall i :: 0 <= i < |links| ==> kids[i].children == [Leaf(Maml("linkText"), links[i]), Leaf(Maml("uri"), "")]
  {
  }

  // ---------------------------------------------------------------- syntax

  /** `WriteParameter`: one parameter of a syntax item. */
  function SyntaxParameterNode(sp: SyntaxParam): Node {
    var p := sp.property;
    var pa := sp.variant;
    Element(Cmd("parameter"),
      [Attr(Local("required"), BoolText(pa.mandatory)),
       Attr(Local("parameterSetName"), pa.setName),
       Attr(Local("position"), PositionText(pa.position))],
      [Leaf(Maml("name"), p.name), SyntaxValueNode(p)])
  }

  /** The `parameterValue` of a syntax entry: optional only for the parameters `PSCmdlet` itself declares. */
  function SyntaxValueNode(p: Property): Node {
    Element(Cmd("parameterValue"),
      [Attr(Local("required"), if p.declaredOnPSCmdlet then "false" else "true")],
      [Value(SyntaxTypeName(p.propertyType))])
  }

  function SyntaxParameterNodes(entries: seq<SyntaxParam>): (ns: seq<Node>)
    ensures |ns| == |entries|
    ensures forall i :: 0 <= i < |entries| ==> ns[i] == SyntaxParameterNode(entries[i])
  {
    seq(|entries|, i requires 0 <= i < |entries| => SyntaxParameterNode(entries[i]))
  }

  /** `WriteSyntaxItem`. */
  function SyntaxItemNode(commandName: string, entries: seq<SyntaxParam>): Node {
    Element(Cmd("syntaxItem"), [], [Leaf(Maml("name"), commandName)] + SyntaxParameterNodes(entries))
  }

  function SyntaxItemNodes(commandName: string, items: seq<seq<SyntaxParam>>): (ns: seq<Node>)
    ensures |ns| == |items|
    ensures forall i :: 0 <= i < |items| ==> ns[i] == SyntaxItemNode(commandName, items[i])
  {
    seq(|items|, i requires 0 <= i < |items| => SyntaxItemNode(commandName, items[i]))
  }

  /** `WriteSyntax`: one syntax item per resolved set. */
  function SyntaxNode(cmd: Cmdlet, props: seq<Property>): Node {
    Element(Cmd("syntax"), [], SyntaxItemNodes(CommandName(cmd), SyntaxItems(props)))
  }

  /** A syntax item starts with the command name and ends with the entries appended last. */
  lemma SyntaxItemTail(commandName: string, own: seq<SyntaxParam>, tail: seq<SyntaxParam>)
    ensures var kids := SyntaxItemNode(commandName, own + tail).children;
      && |kids| == 1 + |own| + |tail|
      && kids[0] == Leaf(Maml("name"), commandName)
      && kids[|kids| - |tail|..] == SyntaxParameterNodes(tail)
  {
    SyntaxParameterNodesAppend(own, tail);
  }

  lemma SyntaxParameterNodesAppend(a: seq<SyntaxParam>, b: seq<SyntaxParam>)
    ensures SyntaxParameterNodes(a + b) == SyntaxParameterNodes(a) + SyntaxParameterNodes(b)
  {
    var l := SyntaxParameterNodes(a + b);
    var r := SyntaxParameterNodes(a) + SyntaxParameterNodes(b);
    forall k | 0 <= k < |l| ensures l[k] == r[k] {
      if k < |a| {
        assert (a + b)[k] == a[k];
      } else {
        assert (a + b)[k] == b[k - |a|];
      }
    }
  }

  /** A `syntaxItem` that starts with the command name and ends with the nodes `tail`. */
  predicate SyntaxItemShape(kid: Node, commandName: string, tail: seq<Node>) {
    && kid.Element?
    && kid.name == Cmd("syntaxItem")
    && 1 + |tail| <= |kid.children|
    && kid.children[0] == Leaf(Maml("name"), commandName)
    && kid.children[|kid.children| - |tail|..] == tail
  }

  /** The nodes of the common parameters, which end every syntax item (none when the all-sets group was not split off). */
  function CommonNodes(props: seq<Property>): seq<Node> {
    SyntaxParameterNodes(CommonEntries(Resolve(props).common.GetOr([])))
  }

  /**
   * The syntax section holds exactly one `syntaxItem` per resolved set, in
   * first-seen order; each starts with the command name, and when the
   * all-sets group was split off it ends with every common parameter, in
   * order, each rendered with its first `ParameterAttribute`.
   */
  lemma SyntaxNodeSpec(cmd: Cmdlet, props: seq<Property>)
    ensures var kids := SyntaxNode(cmd, props).children;
      && |kids| == |Resolve(props).table.keys|
      && forall i :: 0 <= i < |kids| ==> SyntaxItemShape(kids[i], CommandName(cmd), CommonNodes(props))
    ensures Resolve(props).common.None? ==> CommonNodes(props) == []
    ensures Resolve(props).common.Some? ==>
      var cm := Resolve(props).common.value;
      && (forall p :: p in cm ==> p.variants != [])
      && CommonNodes(props) == SyntaxParameterNodes(seq(|cm|, k requires 0 <= k < |cm| => SyntaxParam(cm[k], cm[k].variants[0])))
  {
    SyntaxItemsShape(cmd, props);
    if Resolve(props).common.Some? {
      CommonEntriesOfResolve(props);
    }
  }

  /** Every item of the syntax section starts with the command name and ends with the common nodes. */
  lemma SyntaxItemsShape(cmd: Cmdlet, props: seq<Property>)
    ensures var kids := SyntaxNode(cmd, props).children;
      && |kids| == |Resolve(props).table.keys|
      && forall i :: 0 <= i < |kids| ==> SyntaxItemShape(kids[i], CommandName(cmd), CommonNodes(props))
  {
    var kids := SyntaxNode(cmd, props).children;
    forall i | 0 <= i < |kids| ensures SyntaxItemShape(kids[i], CommandName(cmd), CommonNodes(props)) {
      SyntaxItemAt(cmd, props, i);
    }
  }

  /** The syntax item at position `i` is the one built from the `i`-th resolved set. */
  lemma SyntaxItemAt(cmd: Cmdlet, props: seq<Property>, i: nat)
    requires i < |Resolve(props).table.keys|
    ensures SyntaxItemShape(SyntaxNode(cmd, props).children[i], CommandName(cmd), CommonNodes(props))
  {
    var r := Resolve(props);
    var key := r.table.keys[i];
    assert key in r.table.members;
    var own := SetEntries(r.table.members[key], key);
    var cs := CommonEntries(r.common.GetOr([]));
    assert SyntaxItems(props)[i] == own + cs;
    SyntaxItemTail(CommandName(cmd), own, cs);
  }

  // ---------------------------------------------------------------- flat parameter list

  /** The `parameterValue` element of a flat entry. */
  function FlatValueNode(required: string, variableLength: string, typeName: string): Node {
    Element(Cmd("parameterValue"),
      [Attr(Local("required"), required), Attr(Local("variableLength"), variableLength)],
      [Value(typeName)])
  }

  /** The children of a flat entry, from the values `GenerateHelp` has computed for it. */
  function FlatParameterChildren(name: string, help: string, required: string, variableLength: string, typeName: string): seq<Node> {
    [Leaf(Maml("name"), name),
     DescriptionNode(help, false, ""),
     FlatValueNode(required, variableLength, typeName),
     DevTypeNode(typeName, "")]
  }

  /** The attributes of a flat entry, in the order they are written. */
  function FlatParameterAttrs(p: Property, pa: Variant): seq<Attr> {
    [Attr(Local("required"), BoolText(pa.mandatory)),
     Attr(Local("globbing"), BoolText(false)),
     Attr(Local("pipelineInput"), PipelineInputText(pa.byValue, pa.byPropertyName)),
     Attr(Local("position"), PositionText(pa.position)),
     Attr(Local("variableLength"), BoolText(IsArray(p.propertyType)))]
  }

  /** The lines 133-176 block: one entry of the flat parameter list. */
  function FlatParameterNode(p: Property, pa: Variant, c: CommentHelp): Node {
    Element(Cmd("parameter"), FlatParameterAttrs(p, pa),
      FlatParameterChildren(p.name, HelpText(pa.helpMessage, c.parameters, p.name),
        BoolText(pa.mandatory), BoolText(IsArray(p.propertyType)), TypeName(p.propertyType)))
  }

  /** The flat list: every property with a `ParameterAttribute`, described by its representative. */
  function FlatParameterNodes(cmd: Cmdlet, props: seq<Property>, c: CommentHelp): seq<Node> {
    if props == [] then []
    else
      var p := props[|props| - 1];
      FlatParameterNodes(cmd, props[..|props| - 1], c) +
        if p.variants == [] then []
        else [FlatParameterNode(p, Representative(p.variants, cmd.defaultSet), c)]
  }

  function ParametersNode(cmd: Cmdlet, props: seq<Property>, c: CommentHelp): Node {
    Element(Cmd("parameters"), [], FlatParameterNodes(cmd, props, c))
  }

  /** Value of the first attribute with the given name. */
  function AttrValue(attrs: seq<Attr>, name: Name): Option<string> {
    if attrs == [] then None
    else if attrs[0].name == name then Some(attrs[0].value)
    else AttrValue(attrs[1..], name)
  }

  lemma {:induction false} AttrValueAt(attrs: seq<Attr>, i: nat, name: Name)
    requires i < |attrs| && attrs[i].name == name
    requires forall j :: 0 <= j < i ==> attrs[j].name != name
    ensures AttrValue(attrs, name) == Some(attrs[i].value)
    decreases i
  {
    if i > 0 {
      AttrValueAt(attrs[1..], i - 1, name);
    }
  }

  /** The flat entry's attributes, looked up by name; the pipeline literal reads back as the attribute's pair. */
  lemma FlatAttrsSpec(p: Property, pa: Variant)
    ensures var flat := FlatParameterAttrs(p, pa);
      && AttrValue(flat, Local("required")) == Some(BoolText(pa.mandatory))
      && AttrValue(flat, Local("position")) == Some(PositionText(pa.position))
      && AttrValue(flat, Local("pipelineInput")) == Some(PipelineInputText(pa.byValue, pa.byPropertyName))
      && ReadPipelineInput(PipelineInputText(pa.byValue, pa.byPropertyName)) == Some((pa.byValue, pa.byPropertyName))
  {
    FlatAttrsLookup(BoolText(pa.mandatory), BoolText(false), PipelineInputText(pa.byValue, pa.byPropertyName),
      PositionText(pa.position), BoolText(IsArray(p.propertyType)));
  }

  /** Looking up the flat entry's attributes, for any five attribute values. */
  lemma FlatAttrsLookup(required: string, globbing: string, pipelineInput: string, position: string, variableLength: string)
    ensures var flat := [Attr(Local("required"), required), Attr(Local("globbing"), globbing),
                         Attr(Local("pipelineInput"), pipelineInput), Attr(Local("position"), position),
                         Attr(Local("variableLength"), variableLength)];
      && AttrValue(flat, Local("required")) == Some(required)
      && AttrValue(flat, Local("pipelineInput")) == Some(pipelineInput)
      && AttrValue(flat, Local("position")) == Some(position)
  {
    var flat := [Attr(Local("required"), required), Attr(Local("globbing"), globbing),
                 Attr(Local("pipelineInput"), pipelineInput), Attr(Local("position"), position),
                 Attr(Local("variableLength"), variableLength)];
    AttrValueAt(flat, 0, Local("required"));
    AttrValueAt(flat, 2, Local("pipelineInput"));
    AttrValueAt(flat, 3, Local("position"));
  }

  /**
   * A flat entry and a syntax entry rendered from the same attribute show
   * the same required flag and the same position.
   */
  lemma FlatAgreesWithSyntax(p: Property, pa: Variant)
    ensures var flat := FlatParameterAttrs(p, pa); var syn := SyntaxParameterNode(SyntaxParam(p, pa)).attrs;
      && AttrValue(flat, Local("position")) == AttrValue(syn, Local("position"))
      && AttrValue(flat, Local("required")) == AttrValue(syn, Local("required"))
  {
    FlatAttrsSpec(p, pa);
    SyntaxAttrsLookup(BoolText(pa.mandatory), pa.setName, PositionText(pa.position));
  }

  /** Looking up a syntax entry's attributes, for any three attribute values. */
  lemma SyntaxAttrsLookup(required: string, setName: string, position: string)
    ensures var syn := [Attr(Local("required"), required), Attr(Local("parameterSetName"), setName),
                        Attr(Local("position"), position)];
      && AttrValue(syn, Local("required")) == Some(required)
      && AttrValue(syn, Local("position")) == Some(position)
  {
    var syn := [Attr(Local("required"), required), Attr(Local("parameterSetName"), setName),
                Attr(Local("position"), position)];
    AttrValueAt(syn, 0, Local("required"));
    AttrValueAt(syn, 2, Local("position"));
  }

  /**
   * A flat entry's description paragraphs join back to its help text, and
   * its value is the plain type name.
   */
  lemma FlatChildrenSpec(name: string, help: string, required: string, variableLength: string, typeName: string)
    ensures var kids := FlatParameterChildren(name, help, required, variableLength, typeName);
      && kids[0] == Leaf(Maml("name"), name)
      && Join(ParaTexts(kids[1].children), CrLf) == help
      && kids[2].children == [Value(typeName)]
  {
    ParaNodesSpec(help);
    var kids := FlatParameterChildren(name, help, required, variableLength, typeName);
    assert kids[1] == DescriptionNode(help, false, "");
    assert DescriptionParas(help, false, "") == ParaNodes(help) + [];
    assert kids[1].children == ParaNodes(help);
  }

  /** The flat list shows `Nullable`1` where the syntax shows the enumeration's members. */
  lemma FlatAndSyntaxTypeNamesDiffer(p: Property, pa: Variant, c: CommentHelp, names: seq<string>)
    requires p.propertyType == Nullable(ClrType.Plain("Kind", false, Some(names)))
    ensures FlatParameterNode(p, pa, c).children[2].children == [Value("Nullable`1")]
    ensures SyntaxParameterNode(SyntaxParam(p, pa)).children[1].children == [Value(Join(names, " | "))]
  {
  }

  /**
   * The flat list has exactly one entry per property that carries a
   * `ParameterAttribute`, in order, each rendered from its representative.
   */
  lemma {:induction false} FlatParameterNodesSpec(cmd: Cmdlet, props: seq<Property>, c: CommentHelp)
    ensures var flat := FlatParameterNodes(cmd, props, c); var ps := WithAttributes(props);
      && |flat| == |ps|
      && forall k :: 0 <= k < |ps| ==>
           flat[k] == FlatParameterNode(ps[k], Representative(ps[k].variants, cmd.defaultSet), c)
    decreases |props|
  {
    if props != [] {
      var init := props[..|props| - 1];
      var p := props[|props| - 1];
      FlatParameterNodesSpec(cmd, init, c);
      if p.variants != [] {
        var flat := FlatParameterNodes(cmd, props, c);
        var ps := WithAttributes(props);
        assert ps == WithAttributes(init) + [p];
        forall k | 0 <= k < |ps|
          ensures flat[k] == FlatParameterNode(ps[k], Representative(ps[k].variants, cmd.defaultSet), c)
        {
          if k < |ps| - 1 {
            assert ps[k] == WithAttributes(init)[k];
            assert flat[k] == FlatParameterNodes(cmd, init, c)[k];
          }
        }
      }
    }
  }

  // ---------------------------------------------------------------- command

  /** `command:details`: the synopsis goes in without the copyright, which follows in its own element. */
  function DetailsNode(cmd: Cmdlet, c: CommentHelp, copyright: string, version: string): Node {
    Element(Cmd("details"), [],
      [Leaf(Cmd("name"), CommandName(cmd)),
       Leaf(Name("gl", "group", ""), cmd.noun),
       DescriptionNode(c.synopsis, false, copyright),
       CopyrightNode(copyright),
       Leaf(Cmd("verb"), cmd.verb),
       Leaf(Cmd("noun"), cmd.noun),
       Leaf(Dev("version"), version)])
  }

  const CommandAttrs: seq<Attr> :=
    [Attr(Xmlns("maml"), MamlNs), Attr(Xmlns("dev"), DevNs), Attr(Xmlns("gl"), GlNs)]

  /** The sections of one command, in the order they are written. */
  function CommandSections(cmd: Cmdlet, props: seq<Property>, c: CommentHelp, copyright: string, version: string): seq<Node>
    requires !OutputsFail(c)
  {
    [DetailsNode(cmd, c, copyright, version),
     DescriptionNode(c.description, true, copyright),
     SyntaxNode(cmd, props),
     ParametersNode(cmd, props, c),
     InputsNode(c),
     OutputsNode(c),
     Leaf(Cmd("terminatingErrors"), ""),
     Leaf(Cmd("nonTerminatingErrors"), ""),
     NotesNode(c),
     ExamplesNode(c),
     LinksNode(c)]
  }

  /** The sections before the return values, which do not depend on the outputs check. */
  function LeadingSections(cmd: Cmdlet, props: seq<Property>, c: CommentHelp, copyright: string, version: string): seq<Node> {
    [DetailsNode(cmd, c, copyright, version),
     DescriptionNode(c.description, true, copyright),
     SyntaxNode(cmd, props),
     ParametersNode(cmd, props, c),
     InputsNode(c)]
  }

  /** The sections after the return values. */
  function TrailingSections(c: CommentHelp): seq<Node> {
    [Leaf(Cmd("terminatingErrors"), ""),
     Leaf(Cmd("nonTerminatingErrors"), ""),
     NotesNode(c),
     ExamplesNode(c),
     LinksNode(c)]
  }

  lemma CommandSectionsSplit(cmd: Cmdlet, props: seq<Property>, c: CommentHelp, copyright: string, version: string)
    requires !OutputsFail(c)
    ensures CommandSections(cmd, props, c, copyright, version)
         == LeadingSections(cmd, props, c, copyright, version) + [OutputsNode(c)] + TrailingSections(c)
  {
  }

  function CommandNode(cmd: Cmdlet, props: seq<Property>, c: CommentHelp, copyright: string, version: string): Node
    requires !OutputsFail(c)
  {
    Element(Name("command", "command", CommandNs), CommandAttrs, CommandSections(cmd, props, c, copyright, version))
  }

  const SectionNames: seq<Name> :=
    [Cmd("details"), Maml("description"), Cmd("syntax"), Cmd("parameters"), Cmd("inputTypes"),
     Cmd("returnValues"), Cmd("terminatingErrors"), Cmd("nonTerminatingErrors"), Maml("alertSet"),
     Cmd("examples"), Maml("relatedLinks")]

  /**
   * Whatever the metadata and comment help, a command entry has the same
   * eleven sections in the same order; no section is ever omitted.
   */
  lemma CommandSectionsSpec(cmd: Cmdlet, props: seq<Property>, c: CommentHelp, copyright: string, version: string)
    requires !OutputsFail(c)
    ensures var ss := CommandSections(cmd, props, c, copyright, version);
      && |ss| == |SectionNames|
      && forall i :: 0 <= i < |ss| ==> NameOf(ss[i]) == Some(SectionNames[i])
  {
  }

  /** The synopsis in `command:details` is written without the copyright. */
  lemma DetailsSpec(cmd: Cmdlet, c: CommentHelp, copyright: string, version: string)
    ensures DetailsNode(cmd, c, copyright, version).children[2].children == ParaNodes(c.synopsis)
  {
    assert DescriptionParas(c.synopsis, false, copyright) == ParaNodes(c.synopsis) + [];
  }

  /** The full description is followed by an empty paragraph and the copyright. */
  lemma CommandDescriptionSpec(c: CommentHelp, copyright: string)
    ensures DescriptionNode(c.description, true, copyright).children
         == ParaNodes(c.description) + [Leaf(Maml("para"), "")] + ParaNodes(copyright)
  {
    var d := ParaNodes(c.description);
    var cr := ParaNodes(copyright);
    assert ParaNodes("") == [Leaf(Maml("para"), "")];
    assert DescriptionNode(c.description, true, copyright).children == d + ([Leaf(Maml("para"), "")] + cr);
    assert d + ([Leaf(Maml("para"), "")] + cr) == d + [Leaf(Maml("para"), "")] + cr;
  }

  /**
   * A command none of whose properties carries a `ParameterAttribute` has an
   * empty syntax and an empty parameter list, both present.
   */
  lemma CommandWithoutParameters(cmd: Cmdlet, props: seq<Property>, c: CommentHelp, copyright: string, version: string)
    requires !OutputsFail(c)
    requires forall p :: p in props ==> p.variants == []
    ensures var ss := CommandSections(cmd, props, c, copyright, version);
      ss[2] == Element(Cmd("syntax"), [], []) && ss[3] == Element(Cmd("parameters"), [], [])
  {
    SyntaxWithoutAttributes(cmd, props);
    ParametersWithoutAttributes(cmd, props, c);
  }

  lemma SyntaxWithoutAttributes(cmd: Cmdlet, props: seq<Property>)
    requires forall p :: p in props ==> p.variants == []
    ensures SyntaxNode(cmd, props) == Element(Cmd("syntax"), [], [])
  {
    PairsWithoutAttributes(props);
    assert Resolve(props).table.keys == [];
  }

  lemma ParametersWithoutAttributes(cmd: Cmdlet, props: seq<Property>, c: CommentHelp)
    requires forall p :: p in props ==> p.variants == []
    ensures ParametersNode(cmd, props, c) == Element(Cmd("parameters"), [], [])
  {
    PairsWithoutAttributes(props);
    FlatParameterNodesSpec(cmd, props, c);
  }

  // ---------------------------------------------------------------- document

  datatype HelpError =
    | DuplicateCommentFile(baseName: string)   // `Dictionary.Add` on an existing key
    | NullInputs(commandName: string)           // `WriteOutputs` iterating null inputs

  /** The help record of a type's command. */
  function CommentOf(index: Index, cmd: Cmdlet): CommentHelp {
    CommentFor(index, CommandName(cmd))
  }

  /** The command of one exported type, when its comment help makes `WriteOutputs` throw. */
  function EntryFailure(t: ExportedType, index: Index): Option<string> {
    if t.cmdlet.Some? && OutputsFail(CommentOf(index, t.cmdlet.value)) then Some(CommandName(t.cmdlet.value))
    else None
  }

  /** The first command whose comment help makes `WriteOutputs` throw. */
  function FirstFailure(types: seq<ExportedType>, index: Index): Option<string> {
    if types == [] then None
    else
      match FirstFailure(types[..|types| - 1], index)
      case Some(name) => Some(name)
      case None => EntryFailure(types[|types| - 1], index)
  }

  /** Once a prefix of the types fails, the whole run fails with that command. */
  lemma {:induction false} FirstFailurePrefix(types: seq<ExportedType>, k: nat, index: Index)
    requires k <= |types| && FirstFailure(types[..k], index).Some?
    ensures FirstFailure(types, index) == FirstFailure(types[..k], index)
    decreases |types| - k
  {
    if k < |types| {
      assert types[..k + 1][..k] == types[..k];
      FirstFailurePrefix(types, k + 1, index);
    } else {
      assert types[..k] == types;
    }
  }

  /** The command entry of one exported type: none when it carries no cmdlet attribute. */
  function EntryNodes(t: ExportedType, index: Index, copyright: string, version: string): seq<Node>
    requires EntryFailure(t, index).None?
  {
    if t.cmdlet.None? then []
    else [CommandNode(t.cmdlet.value, t.properties, CommentOf(index, t.cmdlet.value), copyright, version)]
  }

  /** One command entry per exported type that carries a cmdlet attribute, in order. */
  function CommandNodes(types: seq<ExportedType>, index: Index, copyright: string, version: string): seq<Node>
    requires FirstFailure(types, index).None?
  {
    if types == [] then []
    else
      CommandNodes(types[..|types| - 1], index, copyright, version) +
        EntryNodes(types[|types| - 1], index, copyright, version)
  }

  const HelpItemsAttrs: seq<Attr> := [Attr(Local("xmlns"), "http://msh"), Attr(Local("schema"), "maml")]

  function HelpItemsNode(asm: Assembly, index: Index): Node
    requires FirstFailure(asm.types, index).None?
  {
    Element(Local("helpItems"), HelpItemsAttrs, CommandNodes(asm.types, index, asm.copyright, asm.version))
  }

  /** The writer calls of a whole help run, or the error that aborts it before any file is written. */
  function HelpDocument(asm: Assembly, sources: seq<CommentSource>): Result<seq<Event>, HelpError> {
    match IndexOf(sources)
    case Failure(key) => Failure(DuplicateCommentFile(key))
    case Success(index) =>
      match FirstFailure(asm.types, index)
      case Some(name) => Failure(NullInputs(name))
      case None => Success([StartDocument] + Serialize(HelpItemsNode(asm, index)) + [EndDocument])
  }

  /**
   * A successful run writes a well-formed document (every element closed,
   * attributes only in start tags) framed by the start and end of the document.
   */
  lemma HelpDocumentWellFormed(asm: Assembly, sources: seq<CommentSource>)
    ensures var r := HelpDocument(asm, sources);
      r.Success? ==>
        && |r.value| >= 2 && r.value[0] == StartDocument && r.value[|r.value| - 1] == EndDocument
        && WellFormed(r.value[1..|r.value| - 1])
  {
    var r := HelpDocument(asm, sources);
    if r.Success? {
      var index := IndexOf(sources).value;
      var body := Serialize(HelpItemsNode(asm, index));
      SerializeWellFormed(HelpItemsNode(asm, index));
      assert r.value[1..|r.value| - 1] == body;
    }
  }
}
