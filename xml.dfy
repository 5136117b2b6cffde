/**
 * The XML writer the generator drives. The document is described as a tree
 * of `Node`s; `Serialize` lists the writer calls that produce it, and the
 * `Writer` class records the calls it receives as a sequence of events.
 * Indentation, escaping and namespace resolution are the writer library's
 * concern and are not modelled: an event is a call and its arguments.
 */
module Xml {

  /** The (prefix, localName, ns) arguments of a writer call; a null argument is "". */
  datatype Name = Name(prefix: string, local: string, ns: string)

  datatype Attr = Attr(name: Name, value: string)

  datatype Node =
    | Element(name: Name, attrs: seq<Attr>, children: seq<Node>)  // WriteStartElement .. WriteEndElement
    | Leaf(name: Name, text: string)                              // WriteElementString
    | Value(text: string)                                         // WriteValue

  datatype Event =
    | StartDocument
    | EndDocument
    | StartElement(name: Name)
    | AttributeString(name: Name, value: string)
    | ElementString(name: Name, text: string)
    | WriteValue(text: string)
    | EndElement

  function AttrEvents(attrs: seq<Attr>): (es: seq<Event>)
    ensures |es| == |attrs|
    ensures forall i :: 0 <= i < |attrs| ==> es[i] == AttributeString(attrs[i].name, attrs[i].value)
  {
    seq(|attrs|, i requires 0 <= i < |attrs| => AttributeString(attrs[i].name, attrs[i].value))
  }

  /** The writer calls that produce `n`. */
  function Serialize(n: Node): seq<Event>
    decreases n, 1
  {
    match n
    case Element(name, attrs, kids) =>
      [StartElement(name)] + AttrEvents(attrs) + SerializeAll(kids) + [EndElement]
    case Leaf(name, text) => [ElementString(name, text)]
    case Value(text) => [WriteValue(text)]
  }

  /** The writer calls that produce the siblings `ns`, in order. */
  function SerializeAll(ns: seq<Node>): seq<Event>
    decreases ns, 0
  {
    if ns == [] then [] else SerializeAll(ns[..|ns| - 1]) + Serialize(ns[|ns| - 1])
  }

  lemma Assoc(a: seq<Event>, b: seq<Event>, c: seq<Event>)
    ensures a + b + c == a + (b + c)
  {
  }

  lemma {:induction false} SerializeAllAppend(a: seq<Node>, b: seq<Node>)
    ensures SerializeAll(a + b) == SerializeAll(a) + SerializeAll(b)
    decreases |b|
  {
    if b == [] {
      assert a + b == a;
    } else {
      var b' := b[..|b| - 1];
      var last := b[|b| - 1];
      assert (a + b)[..|a + b| - 1] == a + b';
      assert (a + b)[|a + b| - 1] == last;
      assert SerializeAll(a + b) == SerializeAll(a + b') + Serialize(last);
      SerializeAllAppend(a, b');
      Assoc(SerializeAll(a), SerializeAll(b'), Serialize(last));
    }
  }

  lemma SerializeAllSnoc(ns: seq<Node>, i: nat)
    requires i < |ns|
    ensures SerializeAll(ns[..i + 1]) == SerializeAll(ns[..i]) + Serialize(ns[i])
  {
    assert ns[..i + 1][..i] == ns[..i];
  }

  // ---------------------------------------------------------------- well-formedness

  function Delta(e: Event): int {
    match e
    case StartElement(_) => 1
    case EndElement => -1
    case _ => 0
  }

  /** Number of elements left open after the events `es`. */
  function Depth(es: seq<Event>): int {
    if es == [] then 0 else Depth(es[..|es| - 1]) + Delta(es[|es| - 1])
  }

  /** Every end closes an element opened before it, and all are closed at the end. */
  ghost predicate Balanced(es: seq<Event>) {
    Depth(es) == 0 && forall k :: 0 <= k <= |es| ==> Depth(es[..k]) >= 0
  }

  /** Attributes are written only directly after a start tag or another attribute. */
  ghost predicate AttributesInStartTags(es: seq<Event>) {
    forall i :: 0 <= i < |es| && es[i].AttributeString? ==>
      i > 0 && (es[i - 1].StartElement? || es[i - 1].AttributeString?)
  }

  /** The events of a sequence of complete sibling nodes. */
  ghost predicate WellFormed(es: seq<Event>) {
    Balanced(es) && AttributesInStartTags(es) && (|es| > 0 ==> !es[0].AttributeString?)
  }

  lemma {:induction false} DepthAppend(a: seq<Event>, b: seq<Event>)
    ensures Depth(a + b) == Depth(a) + Depth(b)
    decreases |b|
  {
    if b != [] {
      var b' := b[..|b| - 1];
      assert (a + b)[..|a + b| - 1] == a + b';
      assert (a + b)[|a + b| - 1] == b[|b| - 1];
      DepthAppend(a, b');
    } else {
      assert a + b == a;
    }
  }

  lemma DepthAttrs(attrs: seq<Attr>)
    ensures forall k :: 0 <= k <= |attrs| ==> Depth(AttrEvents(attrs)[..k]) == 0
  {
    forall k | 0 <= k <= |attrs| ensures Depth(AttrEvents(attrs)[..k]) == 0 {
      DepthAttrsPrefix(AttrEvents(attrs)[..k]);
    }
  }

  lemma {:induction false} DepthAttrsPrefix(es: seq<Event>)
    requires forall i :: 0 <= i < |es| ==> es[i].AttributeString?
    ensures Depth(es) == 0
    decreases |es|
  {
    if es != [] {
      DepthAttrsPrefix(es[..|es| - 1]);
    }
  }

  lemma WellFormedAppend(a: seq<Event>, b: seq<Event>)
    requires WellFormed(a) && WellFormed(b)
    ensures WellFormed(a + b)
  {
    DepthAppend(a, b);
    forall k | 0 <= k <= |a + b| ensures Depth((a + b)[..k]) >= 0 {
      if k <= |a| {
        assert (a + b)[..k] == a[..k];
      } else {
        assert (a + b)[..k] == a + b[..k - |a|];
        DepthAppend(a, b[..k - |a|]);
      }
    }
    forall i | 0 <= i < |a + b| && (a + b)[i].AttributeString?
      ensures i > 0 && ((a + b)[i - 1].StartElement? || (a + b)[i - 1].AttributeString?)
    {
      if i >= |a| {
        assert (a + b)[i] == b[i - |a|];
        assert i - |a| > 0;
        assert (a + b)[i - 1] == b[i - |a| - 1];
      }
    }
  }

  lemma WellFormedWrap(name: Name, attrs: seq<Attr>, body: seq<Event>)
    requires WellFormed(body)
    ensures WellFormed([StartElement(name)] + AttrEvents(attrs) + body + [EndElement])
  {
    BalancedWrap(name, attrs, body);
    AttributesWrap(name, attrs, body);
  }

  lemma BalancedWrap(name: Name, attrs: seq<Attr>, body: seq<Event>)
    requires Balanced(body)
    ensures Balanced([StartElement(name)] + AttrEvents(attrs) + body + [EndElement])
  {
    var head := [StartElement(name)] + AttrEvents(attrs);
    var es := head + body + [EndElement];
    DepthAttrs(attrs);
    assert AttrEvents(attrs)[..|attrs|] == AttrEvents(attrs);
    DepthAppend([StartElement(name)], AttrEvents(attrs));
    assert Depth(head) == 1;
    forall k | 0 <= k <= |es| ensures Depth(es[..k]) >= 0 {
      if k == 0 {
      } else if k <= |head| {
        assert es[..k] == [StartElement(name)] + AttrEvents(attrs)[..k - 1];
        DepthAppend([StartElement(name)], AttrEvents(attrs)[..k - 1]);
      } else if k <= |head| + |body| {
        assert es[..k] == head + body[..k - |head|];
        DepthAppend(head, body[..k - |head|]);
      } else {
        assert es[..k] == es;
        assert es == (head + body) + [EndElement];
        DepthAppend(head, body);
        DepthAppend(head + body, [EndElement]);
      }
    }
    assert es == (head + body) + [EndElement];
    DepthAppend(head, body);
    DepthAppend(head + body, [EndElement]);
  }

  lemma AttributesWrap(name: Name, attrs: seq<Attr>, body: seq<Event>)
    requires AttributesInStartTags(body) && (|body| > 0 ==> !body[0].AttributeString?)
    ensures AttributesInStartTags([StartElement(name)] + AttrEvents(attrs) + body + [EndElement])
  {
    var head := [StartElement(name)] + AttrEvents(attrs);
    var es := head + body + [EndElement];
    forall i | 0 <= i < |es| && es[i].AttributeString?
      ensures i > 0 && (es[i - 1].StartElement? || es[i - 1].AttributeString?)
    {
      if i < |head| {
        assert i > 0;
        if i > 1 {
          assert es[i - 1] == AttrEvents(attrs)[i - 2];
        }
      } else if i < |head| + |body| {
        assert es[i] == body[i - |head|];
        if i == |head| {
          assert false;
        } else {
          assert es[i - 1] == body[i - |head| - 1];
        }
      }
    }
  }

  /** Serializing any sequence of nodes yields a well-formed event sequence. */
  lemma {:induction false} SerializeWellFormed(n: Node)
    ensures WellFormed(Serialize(n))
    decreases n, 1
  {
    match n
    case Element(name, attrs, kids) =>
      SerializeAllWellFormed(kids);
      WellFormedWrap(name, attrs, SerializeAll(kids));
    case Leaf(_, _) =>
      assert Depth([ElementString(n.name, n.text)]) == Depth([]) + 0;
    case Value(_) =>
      assert Depth([WriteValue(n.text)]) == Depth([]) + 0;
  }

  lemma {:induction false} SerializeAllWellFormed(ns: seq<Node>)
    ensures WellFormed(SerializeAll(ns))
    decreases ns, 0
  {
    if ns != [] {
      SerializeAllWellFormed(ns[..|ns| - 1]);
      SerializeWellFormed(ns[|ns| - 1]);
      WellFormedAppend(SerializeAll(ns[..|ns| - 1]), Serialize(ns[|ns| - 1]));
    }
  }

  // ---------------------------------------------------------------- the writer

  /** An XML writer: the calls it has received, in order. */
  class Writer {
    var events: seq<Event>

    constructor ()
      ensures events == []
    {
      events := [];
    }

    method WriteStartDocument()
      modifies this
      ensures events == old(events) + [StartDocument]
    {
      events := events + [StartDocument];
    }

    method WriteEndDocument()
      modifies this
      ensures events == old(events) + [EndDocument]
    {
      events := events + [EndDocument];
    }

    method WriteStartElement(name: Name)
      modifies this
      ensures events == old(events) + [StartElement(name)]
    {
      events := events + [StartElement(name)];
    }

    method WriteAttributeString(name: Name, value: string)
      modifies this
      ensures events == old(events) + [AttributeString(name, value)]
    {
      events := events + [AttributeString(name, value)];
    }

    method WriteElementString(name: Name, text: string)
      modifies this
      ensures events == old(events) + [ElementString(name, text)]
    {
      events := events + [ElementString(name, text)];
    }

    method WriteValue(text: string)
      modifies this
      ensures events == old(events) + [Event.WriteValue(text)]
    {
      events := events + [Event.WriteValue(text)];
    }

    method WriteEndElement()
      modifies this
      ensures events == old(events) + [EndElement]
    {
      events := events + [EndElement];
    }
  }
}
