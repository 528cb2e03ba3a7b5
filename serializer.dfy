/**
 * The XML writer of a document, as the sequence of events handed to the XML library
 * (`write_xbel_item`, `to_string`), with the fixed text around it. How the library renders
 * events to characters (indentation, escaping) is not part of this model.
 */
module Serializer {
  import opened Wrappers
  import opened Decimal
  import opened XbelTree
  import opened ListAddress
  import opened SeqFacts

  datatype Attr = Attr(key: string, value: string)

  datatype XmlEvent =
    | StartTag(name: string, attrs: seq<Attr>)
    | EndTag(name: string)
    | Text(text: string)
    | Comment(text: string)

  const XML_HEADER: string :=
    "<?xml version=\"1.0\" encoding=\"UTF-8\"?>\n<!DOCTYPE xbel PUBLIC \"+//IDN python.org//DTD XML Bookmark Exchange Language 1.0//EN//XML\" \"http://pyxml.sourceforge.net/topics/dtds/xbel.dtd\">\n"
  const XBEL_START: string := "<xbel version=\"1.0\">\n"
  const XBEL_END: string := "\n</xbel>"
  const HIGHEST_ID_PREFIX: string := "- highestId :"
  const HIGHEST_ID_SUFFIX: string := ":" + " for Floccus bookmark sync browser extension "

  /** The text of the comment that carries the highest id for Floccus. */
  function HighestIdComment(h: nat): string {
    HIGHEST_ID_PREFIX + NatToDecimal(h) + HIGHEST_ID_SUFFIX
  }

  /** The opening events of one item: its tag with attributes, then its title element. */
  function OpenEvents(x: XbelItem): seq<XmlEvent> {
    match x
    case Folder(id, title, _) =>
      [StartTag("folder", [Attr("id", id)]), StartTag("title", []), Text(title.text), EndTag("title")]
    case Bookmark(href, id, title) =>
      [StartTag("bookmark", [Attr("href", href), Attr("id", id)]), StartTag("title", []), Text(title.text), EndTag("title")]
  }

  function TagName(x: XbelItem): string {
    if x.Folder? then "folder" else "bookmark"
  }

  /** The events `write_xbel_item` emits for each item of a list, in order. */
  function ItemsEvents(items: seq<XbelItem>): seq<XmlEvent>
  {
    if items == [] then []
    else
      var x := items[0];
      OpenEvents(x) + (if x.Folder? then ItemsEvents(x.items) else []) + [EndTag(TagName(x))] + ItemsEvents(items[1..])
  }

  lemma {:induction false} ItemsEventsAppend(a: seq<XbelItem>, b: seq<XbelItem>)
    ensures ItemsEvents(a + b) == ItemsEvents(a) + ItemsEvents(b)
  {
    if a == [] {
      assert a + b == b;
    } else {
      assert (a + b)[0] == a[0] && (a + b)[1..] == a[1..] + b;
      ItemsEventsAppend(a[1..], b);
    }
  }

  lemma ItemsEventsSnoc(items: seq<XbelItem>, k: nat)
    requires k < |items|
    ensures ItemsEvents(items[..k + 1]) == ItemsEvents(items[..k]) + ItemsEvents([items[k]])
  {
    assert items[..k + 1] == items[..k] + [items[k]];
    ItemsEventsAppend(items[..k], [items[k]]);
  }

  lemma ItemsEventsSingle(x: XbelItem)
    ensures ItemsEvents([x]) == OpenEvents(x) + (if x.Folder? then ItemsEvents(x.items) else []) + [EndTag(TagName(x))]
  {
    assert [x][1..] == [];
  }

  // ---------------------------------------------------------------- nesting of the events

  /** Runs the events against a stack of open element names; `None` on an unmatched end tag. */
  function Close(events: seq<XmlEvent>, stack: seq<string>): Option<seq<string>>
  {
    if events == [] then Some(stack)
    else match events[0]
      case StartTag(name, _) => Close(events[1..], [name] + stack)
      case EndTag(name) =>
        if stack != [] && stack[0] == name then Close(events[1..], stack[1..]) else None
      case _ => Close(events[1..], stack)
  }

  lemma {:induction false} CloseAppend(a: seq<XmlEvent>, b: seq<XmlEvent>, stack: seq<string>)
    requires Close(a, stack).Some?
    ensures Close(a + b, stack) == Close(b, Close(a, stack).value)
  {
    if a == [] {
      assert a + b == b;
    } else {
      assert (a + b)[0] == a[0] && (a + b)[1..] == a[1..] + b;
      match a[0]
      case StartTag(name, _) => CloseAppend(a[1..], b, [name] + stack);
      case EndTag(name) => CloseAppend(a[1..], b, stack[1..]);
      case Text(_) => CloseAppend(a[1..], b, stack);
      case Comment(_) => CloseAppend(a[1..], b, stack);
    }
  }

  lemma CloseOpen(x: XbelItem, stack: seq<string>)
    ensures Close(OpenEvents(x), stack) == Some([TagName(x)] + stack)
  {
    var open := OpenEvents(x);
    var s1 := [TagName(x)] + stack;
    assert open[1..][1..][1..][1..] == [];
    assert Close(open[1..][1..][1..], ["title"] + s1) == Some(s1);
    assert Close(open[1..][1..], ["title"] + s1) == Some(s1);
    assert Close(open[1..], s1) == Some(s1);
  }

  /** Every start tag of an item stream is closed by a matching end tag, innermost first. */
  lemma {:induction false} ItemsEventsNest(items: seq<XbelItem>, stack: seq<string>)
    ensures Close(ItemsEvents(items), stack) == Some(stack)
  {
    if items != [] {
      var x := items[0];
      var inner: seq<XmlEvent> := if x.Folder? then ItemsEvents(x.items) else [];
      var open := OpenEvents(x);
      var s1 := [TagName(x)] + stack;
      CloseOpen(x, stack);
      if x.Folder? {
        ItemsEventsNest(x.items, s1);
      }
      assert Close(inner, s1) == Some(s1);
      assert Close([EndTag(TagName(x))], s1) == Some(stack);
      ItemsEventsNest(items[1..], stack);
      CloseAppend(open, inner, stack);
      CloseAppend(open + inner, [EndTag(TagName(x))], stack);
      CloseAppend(open + inner + [EndTag(TagName(x))], ItemsEvents(items[1..]), stack);
    }
  }

  // ---------------------------------------------------------------- order of the item tags

  /** The `id` attributes of the item start tags, in stream order. */
  function StartIds(events: seq<XmlEvent>): seq<string>
  {
    if events == [] then []
    else
      var e := events[0];
      (if e.StartTag? && (e.name == "folder" || e.name == "bookmark") && |e.attrs| > 0
       then [e.attrs[|e.attrs| - 1].value] else []) + StartIds(events[1..])
  }

  lemma {:induction false} StartIdsAppend(a: seq<XmlEvent>, b: seq<XmlEvent>)
    ensures StartIds(a + b) == StartIds(a) + StartIds(b)
  {
    if a == [] {
      assert a + b == b;
    } else {
      assert (a + b)[0] == a[0] && (a + b)[1..] == a[1..] + b;
      StartIdsAppend(a[1..], b);
    }
  }

  lemma StartIdsOpen(x: XbelItem)
    ensures StartIds(OpenEvents(x)) == [x.id]
  {
    var open := OpenEvents(x);
    assert open[1..][1..][1..][1..] == [];
    assert StartIds(open[1..][1..][1..]) == [];
    assert StartIds(open[1..]) == [];
  }

  /** The item start tags appear in pre-order: their ids are those of the pre-order walk. */
  lemma {:induction false} StartIdsPreorder(items: seq<XbelItem>)
    ensures StartIds(ItemsEvents(items)) == IdsOf(Preorder(items))
  {
    if items != [] {
      var x := items[0];
      var inner: seq<XmlEvent> := if x.Folder? then ItemsEvents(x.items) else [];
      var sub: seq<XbelItem> := if x.Folder? then Preorder(x.items) else [];
      var open := OpenEvents(x);
      StartIdsOpen(x);
      assert StartIds([EndTag(TagName(x))]) == [];
      if x.Folder? {
        StartIdsPreorder(x.items);
      }
      StartIdsPreorder(items[1..]);
      StartIdsAppend(open, inner);
      StartIdsAppend(open + inner, [EndTag(TagName(x))]);
      StartIdsAppend(open + inner + [EndTag(TagName(x))], ItemsEvents(items[1..]));
      IdsOfAppend([x] + sub, Preorder(items[1..]));
      IdsOfAppend([x], sub);
    }
  }

  // ---------------------------------------------------------------- the highest-id comment

  function TakeUntilColon(s: string): string
  {
    if s == [] || s[0] == ':' then [] else [s[0]] + TakeUntilColon(s[1..])
  }

  /** How a reader of the comment recovers the highest id: the digits between the two colons. */
  function ReadHighestId(comment: string): (r: Option<nat>)
    ensures r.Some? ==> r.value < U64_LIMIT
  {
    if |comment| >= |HIGHEST_ID_PREFIX| && comment[..|HIGHEST_ID_PREFIX|] == HIGHEST_ID_PREFIX
    then ParseU64(TakeUntilColon(comment[|HIGHEST_ID_PREFIX|..]))
    else None
  }

  lemma {:induction false} TakeDigits(d: string, rest: string)
    requires AllDigits(d) && rest != [] && rest[0] == ':'
    ensures TakeUntilColon(d + rest) == d
  {
    if d != [] {
      assert (d + rest)[1..] == d[1..] + rest;
      TakeDigits(d[1..], rest);
      assert d == [d[0]] + d[1..];
    } else {
      assert d + rest == rest;
    }
  }

  /** The comment written for highest id `h` reads back as `h`. */
  lemma HighestIdCommentReads(h: nat)
    requires h < U64_LIMIT
    ensures ReadHighestId(HighestIdComment(h)) == Some(h)
  {
    var c := HighestIdComment(h);
    assert c[..|HIGHEST_ID_PREFIX|] == HIGHEST_ID_PREFIX;
    assert c[|HIGHEST_ID_PREFIX|..] == NatToDecimal(h) + HIGHEST_ID_SUFFIX;
    assert HIGHEST_ID_SUFFIX[0] == ':';
    TakeDigits(NatToDecimal(h), HIGHEST_ID_SUFFIX);
    ParsePrinted(h);
  }

  // ---------------------------------------------------------------- the writer

  /** The event sink of the XML library: events are appended in order. */
  class EventWriter {
    var events: seq<XmlEvent>

    constructor ()
      ensures events == []
    {
      events := [];
    }

    method WriteEvent(e: XmlEvent)
      modifies this
      ensures events == old(events) + [e]
    {
      events := events + [e];
    }
  }

  /** `write_xbel_item`: the item's opening events, its children's events, its end tag. */
  method WriteXbelItem(w: EventWriter, x: XbelItem)
    modifies w
    ensures w.events == old(w.events) + ItemsEvents([x])
    decreases x, 1
  {
    ghost var start := w.events;
    ghost var open := OpenEvents(x);
    ItemsEventsSingle(x);
    match x
    case Folder(id, title, items) =>
      w.WriteEvent(StartTag("folder", [Attr("id", id)]));
      w.WriteEvent(StartTag("title", []));
      w.WriteEvent(Text(title.text));
      w.WriteEvent(EndTag("title"));
      assert w.events == start + open;
      WriteXbelItems(w, items);
      Assoc(start, open, ItemsEvents(items));
      w.WriteEvent(EndTag("folder"));
      Assoc(start, open + ItemsEvents(items), [EndTag("folder")]);
    case Bookmark(href, id, title) =>
      w.WriteEvent(StartTag("bookmark", [Attr("href", href), Attr("id", id)]));
      w.WriteEvent(StartTag("title", []));
      w.WriteEvent(Text(title.text));
      w.WriteEvent(EndTag("title"));
      assert w.events == start + open;
      w.WriteEvent(EndTag("bookmark"));
      AppendNil(open);
      Assoc(start, open, [EndTag("bookmark")]);
  }

  /** `for it in items.iter() { write_xbel_item(writer, it) }`. */
  method WriteXbelItems(w: EventWriter, items: seq<XbelItem>)
    modifies w
    ensures w.events == old(w.events) + ItemsEvents(items)
    decreases items, 0
  {
    ghost var start := w.events;
    var k := 0;
    while k < |items|
      invariant 0 <= k <= |items|
      invariant w.events == start + ItemsEvents(items[..k])
    {
      WriteXbelItem(w, items[k]);
      ItemsEventsSnoc(items, k);
      Assoc(start, ItemsEvents(items[..k]), ItemsEvents([items[k]]));
      k := k + 1;
    }
    assert items[..k] == items;
  }

  /**
   * What `to_string` produces: the fixed header and opening tag, the rendered events (the
   * highest-id comment, a blank text, the items), and the closing tag.
   */
  datatype Serialized = Serialized(header: string, body: seq<XmlEvent>, footer: string)

  /** `to_string`: the writer's events framed by the fixed literals; the document version is not consulted. */
  method WriteDocument(items: seq<XbelItem>) returns (out: Serialized)
    requires IdsValid(items)
    ensures out.header == XML_HEADER + XBEL_START && out.footer == XBEL_END
    ensures out.body == [Comment(HighestIdComment(HighestId(items))), Text("\n\n")] + ItemsEvents(items)
  {
    var w := new EventWriter();
    w.WriteEvent(Comment(HighestIdComment(HighestId(items))));
    w.WriteEvent(Text("\n\n"));
    WriteXbelItems(w, items);
    out := Serialized(XML_HEADER + XBEL_START, w.events, XBEL_END);
  }

  /** The body of a written document: the highest id reads back from its comment, its tags nest, and its item tags follow the pre-order walk. */
  lemma DocumentBody(items: seq<XbelItem>)
    requires IdsValid(items)
    ensures var body := [Comment(HighestIdComment(HighestId(items))), Text("\n\n")] + ItemsEvents(items);
      ReadHighestId(body[0].text) == Some(HighestId(items)) &&
      Close(body, []) == Some([]) &&
      StartIds(body) == IdsOf(Preorder(items))
  {
    var head := [Comment(HighestIdComment(HighestId(items))), Text("\n\n")];
    HighestIdIsMax(items);
    HighestIdCommentReads(HighestId(items));
    assert head[1..][1..] == [];
    assert Close(head[1..], []) == Some([]);
    ItemsEventsNest(items, []);
    CloseAppend(head, ItemsEvents(items), []);
    assert StartIds(head[1..]) == [];
    StartIdsPreorder(items);
    StartIdsAppend(head, ItemsEvents(items));
  }
}
