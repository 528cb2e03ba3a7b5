/**
 * The older document type of the binary (`src/xbel`): the same tree, walks and writer as the
 * crate, but `get_items_mut` returns only the list, `Path` is not implemented, and the header of
 * a serde-produced buffer is spliced in as text by `add_header`.
 */
module XbelLegacy {
  import opened Wrappers
  import opened Decimal
  import opened XbelTree
  import opened ListAddress
  import opened Resolver
  import opened Serializer
  import opened XbelFormat

  /** `xml_header`: the declaration and doctype lines, without a final line break. */
  const LEGACY_XML_HEADER: string :=
    "<?xml version=\"1.0\" encoding=\"UTF-8\"?>\n<!DOCTYPE xbel PUBLIC \"+//IDN python.org//DTD XML Bookmark Exchange Language 1.0//EN//XML\" \"http://pyxml.sourceforge.net/topics/dtds/xbel.dtd\">"

  /** The crate's header is this one followed by a line break. */
  lemma HeadersAgree()
    ensures XML_HEADER == LEGACY_XML_HEADER + "\n"
  {
  }

  /** `<xbel version="V">`, the start tag the serde serializer writes first. */
  function StartTagOf(version: string): string {
    "<xbel version=\"" + version + "\">"
  }

  /**
   * The replacement text: a line break, the start tag, and the line holding the comment
   * `<!--- highestId :N: for Floccus bookmark sync browser extension -->`, whose text is the
   * crate's highest-id comment.
   */
  function NewStartTag(version: string, h: nat): string {
    "\n" + StartTagOf(version) + "\n<!--" + HighestIdComment(h) + "-->\n"
  }

  /** `chars().skip(n)`: the characters after the first `n`, or none. */
  function Skip(s: string, n: nat): (r: string)
    ensures n <= |s| ==> r == s[n..]
    ensures n > |s| ==> r == []
  {
    if n <= |s| then s[n..] else []
  }

  class LegacyXbel {
    var version: string
    var items: seq<XbelItem>

    constructor (items: Option<seq<XbelItem>>)
      ensures version == "1.0"
      ensures this.items == if items.Some? then items.value else []
    {
      version := "1.0";
      this.items := if items.Some? then items.value else [];
    }

    /**
     * `get_items_mut` of the binary: the list holding the address, found by the same walk as the
     * crate's, without the index. A `Path` address is not implemented there and is excluded here.
     */
    method GetItemsMut(path: XbelPath) returns (r: Option<ListAddr>)
      requires !path.Path?
      requires path.Id? ==> IdsValid(items)
      ensures r.Some? <==> Resolve(items, path).Some?
      ensures r.Some? ==> r.value == Resolve(items, path).value.addr && IsListAddr(items, r.value)
    {
      match path
      case Root =>
        return Some([]);
      case Id(n) =>
        var queue: seq<ListAddr> := [[]];
        while queue != []
          invariant AllListAddrs(items, queue)
          invariant IdBfs(items, n, queue) == Resolve(items, path)
          decreases QueueWeight(items, queue)
        {
          var a := queue[0];
          var l := ListAt(items, a);
          IdsValidAt(items, a);
          forall j | 0 <= j < |l| ensures ParseU64(l[j].id).Some? {
            PreorderContainsTop(l, j);
          }
          var found := FindIndex(l, ById(n));
          if found.Some? {
            ResolveIdFirst(items, n);
            return Some(a);
          }
          StepWeight(items, queue);
          queue := PushFolders(queue[1..], a, l);
        }
        return None;
    }

    /**
     * `add_header`: the header, the new start tag with the highest-id comment, then the buffer
     * without its first `|StartTagOf(version)|` characters.
     */
    method AddHeader(buffer: string) returns (out: string)
      requires IdsValid(items)
      ensures out == LEGACY_XML_HEADER + NewStartTag(version, HighestId(items)) + Skip(buffer, |StartTagOf(version)|)
      ensures |out| >= |LEGACY_XML_HEADER| && out[..|LEGACY_XML_HEADER|] == LEGACY_XML_HEADER
      ensures forall rest :: buffer == StartTagOf(version) + rest ==>
        out == LEGACY_XML_HEADER + NewStartTag(version, HighestId(items)) + rest
    {
      var tagLen := |StartTagOf(version)|;
      var h := HighestId(items);
      out := LEGACY_XML_HEADER;
      out := out + NewStartTag(version, h);
      out := out + Skip(buffer, tagLen);
      forall rest | buffer == StartTagOf(version) + rest
        ensures Skip(buffer, tagLen) == rest
      {
        assert buffer[tagLen..] == rest;
      }
    }
  }
}
