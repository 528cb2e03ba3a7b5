/**
 * The bookmark tree of an XBEL document: a closed two-variant sum type, its getters,
 * the pre-order walk every traversal is measured against, the highest id and id minting.
 */
module XbelTree {
  import opened Wrappers
  import opened Decimal

  datatype Title = Title(text: string)

  /** `XbelItem::Folder(Folder { id, title, items })` or `XbelItem::Bookmark(Bookmark { href, id, title })`. */
  datatype XbelItem =
    | Folder(id: string, title: Title, items: seq<XbelItem>)
    | Bookmark(href: string, id: string, title: Title)

  /** The three addressing modes of `XbelPath`. */
  datatype XbelPath = Root | Id(n: nat) | Path(p: string)

  /** `get_url`: a bookmark's href, nothing for a folder. */
  function GetUrl(x: XbelItem): (r: Option<string>)
    ensures r.Some? <==> x.Bookmark?
    ensures r.Some? ==> r.value == x.href
  {
    match x
    case Folder(_, _, _) => None
    case Bookmark(href, _, _) => Some(href)
  }

  /** `Bookmark::new(id, url, title)` wrapped as an item. */
  function MakeBookmark(id: string, url: string, title: string): (r: XbelItem)
    ensures r.Bookmark? && r.id == id && r.href == url && r.title.text == title
  {
    Bookmark(url, id, Title(title))
  }

  /** The items in the order a depth-first walk meets them: a folder, then its subtree, then its next sibling. */
  function Preorder(items: seq<XbelItem>): seq<XbelItem>
  {
    if items == [] then []
    else
      var x := items[0];
      [x] + (if x.Folder? then Preorder(x.items) else []) + Preorder(items[1..])
  }

  lemma {:induction false} PreorderAppend(a: seq<XbelItem>, b: seq<XbelItem>)
    ensures Preorder(a + b) == Preorder(a) + Preorder(b)
  {
    if a != [] {
      assert (a + b)[0] == a[0];
      assert (a + b)[1..] == a[1..] + b;
      PreorderAppend(a[1..], b);
    } else {
      assert a + b == b;
    }
  }

  /** A walk of one item alone: the item, then (for a folder) its subtree. */
  lemma PreorderSingle(x: XbelItem)
    ensures Preorder([x]) == [x] + (if x.Folder? then Preorder(x.items) else [])
  {
    assert [x][1..] == [];
  }

  /** Every top-level item and every item of a folder met by the walk is met by the walk. */
  lemma {:induction false} PreorderContainsTop(items: seq<XbelItem>, i: nat)
    requires i < |items|
    ensures items[i] in Preorder(items)
  {
    if i > 0 {
      PreorderContainsTop(items[1..], i - 1);
    }
  }

  lemma {:induction false} PreorderClosed(items: seq<XbelItem>, x: XbelItem, y: XbelItem)
    requires x in Preorder(items) && x.Folder? && y in Preorder(x.items)
    ensures y in Preorder(items)
  {
    if items != [] {
      var h := items[0];
      if x == h {
      } else if h.Folder? && x in Preorder(h.items) {
        PreorderClosed(h.items, x, y);
      } else {
        PreorderClosed(items[1..], x, y);
      }
    }
  }

  /** Every id found by the walk decodes as a u64, so `parse::<u64>().unwrap()` never panics. */
  ghost predicate IdsValid(items: seq<XbelItem>) {
    forall x :: x in Preorder(items) ==> ParseU64(x.id).Some?
  }

  function IdValue(x: XbelItem): nat
    requires ParseU64(x.id).Some?
  {
    ParseU64(x.id).value
  }

  /** The fold of `get_highest_id`: keep the accumulator unless the next id is larger. */
  function FoldMax(s: seq<XbelItem>, acc: nat): nat
    requires forall x :: x in s ==> ParseU64(x.id).Some?
  {
    if s == [] then acc
    else FoldMax(s[1..], if IdValue(s[0]) > acc then IdValue(s[0]) else acc)
  }

  /** `get_highest_id`: the fold over the flat traversal, starting from 0. */
  function HighestId(items: seq<XbelItem>): nat
    requires IdsValid(items)
  {
    FoldMax(Preorder(items), 0)
  }

  lemma {:induction false} FoldMaxBounds(s: seq<XbelItem>, acc: nat)
    requires forall x :: x in s ==> ParseU64(x.id).Some?
    ensures acc <= FoldMax(s, acc)
    ensures forall x :: x in s ==> IdValue(x) <= FoldMax(s, acc)
    ensures FoldMax(s, acc) == acc || exists x :: x in s && IdValue(x) == FoldMax(s, acc)
  {
    if s != [] {
      var acc' := if IdValue(s[0]) > acc then IdValue(s[0]) else acc;
      FoldMaxBounds(s[1..], acc');
      var r := FoldMax(s, acc);
      if r != acc && r != acc' {
        var x :| x in s[1..] && IdValue(x) == r;
        assert x in s;
      }
    }
  }

  /** The highest id bounds every id of the tree and is one of them, or 0 for an empty tree. */
  lemma HighestIdIsMax(items: seq<XbelItem>)
    requires IdsValid(items)
    ensures forall x :: x in Preorder(items) ==> IdValue(x) <= HighestId(items)
    ensures Preorder(items) == [] ==> HighestId(items) == 0
    ensures HighestId(items) == 0 || exists x :: x in Preorder(items) && IdValue(x) == HighestId(items)
    ensures HighestId(items) < U64_LIMIT
  {
    FoldMaxBounds(Preorder(items), 0);
    if HighestId(items) != 0 {
      var x :| x in Preorder(items) && IdValue(x) == HighestId(items);
    }
  }

  /** An upper bound of every id that is itself an id (or 0) is the highest id. */
  lemma HighestIdUnique(items: seq<XbelItem>, h: nat)
    requires IdsValid(items)
    requires forall x :: x in Preorder(items) ==> IdValue(x) <= h
    requires h == 0 || exists x :: x in Preorder(items) && IdValue(x) == h
    ensures HighestId(items) == h
  {
    HighestIdIsMax(items);
    if HighestId(items) != 0 {
      var y :| y in Preorder(items) && IdValue(y) == HighestId(items);
      assert HighestId(items) <= h;
    }
  }

  /** `Xbel::new_bookmark`: a bookmark whose id is one more than the highest id, in decimal. */
  function NewBookmark(items: seq<XbelItem>, url: string, title: string): (r: XbelItem)
    requires IdsValid(items) && HighestId(items) + 1 < U64_LIMIT
    ensures r.Bookmark? && r.href == url && r.title == Title(title)
    ensures ParseU64(r.id) == Some(HighestId(items) + 1)
  {
    ParsePrinted(HighestId(items) + 1);
    MakeBookmark(NatToDecimal(HighestId(items) + 1), url, title)
  }

  /** The minted id is fresh: no item of the tree carries it. */
  lemma NewBookmarkFresh(items: seq<XbelItem>, url: string, title: string)
    requires IdsValid(items) && HighestId(items) + 1 < U64_LIMIT
    ensures forall x :: x in Preorder(items) ==> x.id != NewBookmark(items, url, title).id
  {
    HighestIdIsMax(items);
    var b := NewBookmark(items, url, title);
    forall x | x in Preorder(items) ensures x.id != b.id {
      assert IdValue(x) <= HighestId(items);
    }
  }
}
