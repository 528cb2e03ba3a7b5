/**
 * The two depth-first walks over a document: `XbelIterator`, which yields every item in pre-order,
 * and `XbelNestingIterator`, which also yields an `End(id)` marker after the contents of each folder.
 * Both keep an `initial` flag and a double-ended queue of pending entries, as the library does.
 */
module Traversal {
  import opened Wrappers
  import opened XbelTree
  import opened Decimal
  import opened SeqFacts

  /** `XbelItemOrEnd`: an item of the walk, or the end of the folder with the given id. */
  datatype ItemOrEnd = Item(item: XbelItem) | End(id: string)

  /** The nesting walk of a list: each item, and for a folder its contents then its `End`. */
  function WithEnds(items: seq<XbelItem>): seq<ItemOrEnd>
  {
    if items == [] then []
    else
      var x := items[0];
      [Item(x)] + (if x.Folder? then WithEnds(x.items) + [End(x.id)] else []) + WithEnds(items[1..])
  }

  lemma {:induction false} WithEndsAppend(a: seq<XbelItem>, b: seq<XbelItem>)
    ensures WithEnds(a + b) == WithEnds(a) + WithEnds(b)
  {
    if a == [] {
      assert a + b == b;
    } else {
      assert (a + b)[0] == a[0] && (a + b)[1..] == a[1..] + b;
      WithEndsAppend(a[1..], b);
    }
  }

  /** `items.iter().map(XbelItemOrEnd::Item)`. */
  function Wrap(items: seq<XbelItem>): (r: seq<ItemOrEnd>)
    ensures |r| == |items| && forall k :: 0 <= k < |r| ==> r[k] == Item(items[k])
  {
    if items == [] then [] else [Item(items[0])] + Wrap(items[1..])
  }

  /** What a queue of the nesting walk still produces: items expand to their walk, markers stay. */
  function Pending(q: seq<ItemOrEnd>): seq<ItemOrEnd>
  {
    if q == [] then []
    else (if q[0].End? then [q[0]] else WithEnds([q[0].item])) + Pending(q[1..])
  }

  lemma {:induction false} PendingAppend(a: seq<ItemOrEnd>, b: seq<ItemOrEnd>)
    ensures Pending(a + b) == Pending(a) + Pending(b)
  {
    if a == [] {
      assert a + b == b;
    } else {
      assert (a + b)[0] == a[0] && (a + b)[1..] == a[1..] + b;
      PendingAppend(a[1..], b);
    }
  }

  lemma {:induction false} PendingWrap(items: seq<XbelItem>)
    ensures Pending(Wrap(items)) == WithEnds(items)
  {
    if items != [] {
      PendingWrap(items[1..]);
      assert Wrap(items)[1..] == Wrap(items[1..]);
      WithEndsAppend([items[0]], items[1..]);
      assert [items[0]] + items[1..] == items;
    }
  }

  /** The flat walk: `Item` entries only, markers dropped. */
  function StripEnds(s: seq<ItemOrEnd>): seq<XbelItem>
  {
    if s == [] then [] else (if s[0].Item? then [s[0].item] else []) + StripEnds(s[1..])
  }

  lemma {:induction false} StripEndsAppend(a: seq<ItemOrEnd>, b: seq<ItemOrEnd>)
    ensures StripEnds(a + b) == StripEnds(a) + StripEnds(b)
  {
    if a == [] {
      assert a + b == b;
    } else {
      assert (a + b)[0] == a[0] && (a + b)[1..] == a[1..] + b;
      StripEndsAppend(a[1..], b);
    }
  }

  /** Deleting the markers from the nesting walk gives exactly the flat walk. */
  lemma {:induction false} StripWithEnds(items: seq<XbelItem>)
    ensures StripEnds(WithEnds(items)) == Preorder(items)
  {
    if items != [] {
      var x := items[0];
      StripWithEnds(items[1..]);
      var inner: seq<ItemOrEnd> := if x.Folder? then WithEnds(x.items) + [End(x.id)] else [];
      StripEndsAppend([Item(x)] + inner, WithEnds(items[1..]));
      StripEndsAppend([Item(x)], inner);
      assert StripEnds([Item(x)]) == [x];
      if x.Folder? {
        StripWithEnds(x.items);
        StripEndsAppend(WithEnds(x.items), [End(x.id)]);
        assert StripEnds([End(x.id)]) == [];
      }
    }
  }

  function CountEnds(s: seq<ItemOrEnd>): nat
  {
    if s == [] then 0 else (if s[0].End? then 1 else 0) + CountEnds(s[1..])
  }

  function CountFolders(s: seq<XbelItem>): nat
  {
    if s == [] then 0 else (if s[0].Folder? then 1 else 0) + CountFolders(s[1..])
  }

  lemma {:induction false} CountEndsAppend(a: seq<ItemOrEnd>, b: seq<ItemOrEnd>)
    ensures CountEnds(a + b) == CountEnds(a) + CountEnds(b)
  {
    if a == [] {
      assert a + b == b;
    } else {
      assert (a + b)[1..] == a[1..] + b;
      CountEndsAppend(a[1..], b);
    }
  }

  lemma {:induction false} CountFoldersAppend(a: seq<XbelItem>, b: seq<XbelItem>)
    ensures CountFolders(a + b) == CountFolders(a) + CountFolders(b)
  {
    if a == [] {
      assert a + b == b;
    } else {
      assert (a + b)[1..] == a[1..] + b;
      CountFoldersAppend(a[1..], b);
    }
  }

  /** The nesting walk yields one `End` per folder of the document. */
  lemma {:induction false} EndsCountFolders(items: seq<XbelItem>)
    ensures CountEnds(WithEnds(items)) == CountFolders(Preorder(items))
  {
    if items != [] {
      var x := items[0];
      EndsCountFolders(items[1..]);
      var inner: seq<ItemOrEnd> := if x.Folder? then WithEnds(x.items) + [End(x.id)] else [];
      var sub: seq<XbelItem> := if x.Folder? then Preorder(x.items) else [];
      CountEndsAppend([Item(x)] + inner, WithEnds(items[1..]));
      CountEndsAppend([Item(x)], inner);
      CountFoldersAppend([x] + sub, Preorder(items[1..]));
      CountFoldersAppend([x], sub);
      assert CountEnds([Item(x)]) == 0;
      if x.Folder? {
        EndsCountFolders(x.items);
        CountEndsAppend(WithEnds(x.items), [End(x.id)]);
        assert CountEnds([End(x.id)]) == 1;
      }
    }
  }

  /** Open folders after a stretch of the nesting walk: folder items entered minus markers seen. */
  function Depth(s: seq<ItemOrEnd>): int
  {
    if s == [] then 0 else Depth(s[..|s| - 1]) + Delta(s[|s| - 1])
  }

  /** How one entry changes the number of open folders. */
  function Delta(e: ItemOrEnd): int
  {
    match e
    case Item(x) => if x.Folder? then 1 else 0
    case End(_) => -1
  }

  lemma {:induction false} DepthAppend(a: seq<ItemOrEnd>, b: seq<ItemOrEnd>)
    ensures Depth(a + b) == Depth(a) + Depth(b)
    decreases |b|
  {
    if b == [] {
      assert a + b == a;
    } else {
      assert (a + b)[..|a + b| - 1] == a + b[..|b| - 1];
      DepthAppend(a, b[..|b| - 1]);
    }
  }

  /** Every prefix has a non-negative depth and the whole has depth zero. */
  ghost predicate Balanced(s: seq<ItemOrEnd>) {
    (forall k :: 0 <= k <= |s| ==> Depth(s[..k]) >= 0) && Depth(s) == 0
  }

  lemma BalancedAppend(a: seq<ItemOrEnd>, b: seq<ItemOrEnd>)
    requires Balanced(a) && Balanced(b)
    ensures Balanced(a + b)
  {
    DepthAppend(a, b);
    forall k | 0 <= k <= |a + b| ensures Depth((a + b)[..k]) >= 0 {
      if k <= |a| {
        assert (a + b)[..k] == a[..k];
      } else {
        assert (a + b)[..k] == a + b[..k - |a|];
        DepthAppend(a, b[..k - |a|]);
      }
    }
  }

  lemma BalancedWrap(x: XbelItem, inner: seq<ItemOrEnd>)
    requires x.Folder? && Balanced(inner)
    ensures Balanced([Item(x)] + inner + [End(x.id)])
  {
    var s := [Item(x)] + inner + [End(x.id)];
    assert Depth([Item(x)]) == 1 by {
      assert [Item(x)][..0] == [];
    }
    DepthAppend([Item(x)], inner);
    DepthAppend([Item(x)] + inner, [End(x.id)]);
    assert Depth([End(x.id)]) == -1 by {
      assert [End(x.id)][..0] == [];
    }
    forall k | 0 <= k <= |s| ensures Depth(s[..k]) >= 0 {
      if k == 0 {
        assert s[..k] == [];
      } else if k <= |inner| + 1 {
        assert s[..k] == [Item(x)] + inner[..k - 1];
        DepthAppend([Item(x)], inner[..k - 1]);
      } else {
        assert s[..k] == s;
      }
    }
  }

  /** The nesting walk never closes a folder that is not open, and closes every folder it opens. */
  lemma {:induction false} WithEndsBalanced(items: seq<XbelItem>)
    ensures Balanced(WithEnds(items))
  {
    if items == [] {
      assert WithEnds(items)[..0] == [];
    } else {
      var x := items[0];
      WithEndsBalanced(items[1..]);
      if x.Folder? {
        WithEndsBalanced(x.items);
        BalancedWrap(x, WithEnds(x.items));
        assert [Item(x)] + (WithEnds(x.items) + [End(x.id)]) == [Item(x)] + WithEnds(x.items) + [End(x.id)];
      } else {
        assert Balanced([Item(x)]) by {
          assert [Item(x)][..0] == [] && [Item(x)][..1] == [Item(x)];
        }
        assert [Item(x)] + [] == [Item(x)];
      }
      BalancedAppend([Item(x)] + (if x.Folder? then WithEnds(x.items) + [End(x.id)] else []), WithEnds(items[1..]));
    }
  }

  /** What the flat walk yields below an item: a folder's subtree, nothing for a bookmark. */
  function Below(x: XbelItem): seq<XbelItem>
  {
    if x.Folder? then Preorder(x.items) else []
  }

  lemma PreorderPop(t: seq<XbelItem>)
    requires t != []
    ensures Preorder(t) != [] && Preorder(t)[0] == t[0]
    ensures Preorder(t)[1..] == Below(t[0]) + Preorder(t[1..])
  {
    var r := Below(t[0]) + Preorder(t[1..]);
    assert Preorder(t) == [t[0]] + Below(t[0]) + Preorder(t[1..]);
    Assoc([t[0]], Below(t[0]), Preorder(t[1..]));
    ConsTail(t[0], r);
  }

  /** What the nesting walk yields after an entry itself: a folder's contents and marker, else nothing. */
  function After(e: ItemOrEnd): seq<ItemOrEnd>
  {
    if e.Item? && e.item.Folder? then WithEnds(e.item.items) + [End(e.item.id)] else []
  }

  lemma WithEndsSingle(x: XbelItem)
    ensures WithEnds([x]) == [Item(x)] + After(Item(x))
  {
    var inner := After(Item(x));
    assert [x][1..] == [];
    assert WithEnds([x]) == [Item(x)] + inner + WithEnds([]);
    AppendNil([Item(x)] + inner);
  }

  lemma PendingHead(q: seq<ItemOrEnd>)
    requires q != []
    ensures Pending(q) == [q[0]] + (After(q[0]) + Pending(q[1..]))
  {
    if q[0].Item? {
      PendingHeadItem(q);
    } else {
      PendingHeadEnd(q);
    }
  }

  lemma PendingHeadItem(q: seq<ItemOrEnd>)
    requires q != [] && q[0].Item?
    ensures Pending(q) == [q[0]] + (After(q[0]) + Pending(q[1..]))
  {
    var x := q[0].item;
    var a := After(q[0]);
    var p := Pending(q[1..]);
    PendingUnfold(q);
    assert Pending(q) == WithEnds([x]) + p;
    WithEndsSingle(x);
    assert WithEnds([x]) == [q[0]] + a;
    Assoc([q[0]], a, p);
  }

  lemma PendingHeadEnd(q: seq<ItemOrEnd>)
    requires q != [] && q[0].End?
    ensures Pending(q) == [q[0]] + (After(q[0]) + Pending(q[1..]))
  {
    PendingUnfold(q);
  }

  lemma PendingUnfold(q: seq<ItemOrEnd>)
    requires q != []
    ensures Pending(q) == (if q[0].End? then [q[0]] else WithEnds([q[0].item])) + Pending(q[1..])
  {
  }

  lemma PendingPop(q: seq<ItemOrEnd>)
    requires q != []
    ensures Pending(q) != [] && Pending(q)[0] == q[0]
    ensures Pending(q)[1..] == After(q[0]) + Pending(q[1..])
  {
    var r := After(q[0]) + Pending(q[1..]);
    PendingHead(q);
    ConsTail(q[0], r);
  }

  lemma WrapFrom(items: seq<XbelItem>, i: nat)
    requires i < |items|
    ensures Wrap(items[i..]) == [Item(items[i])] + Wrap(items[i + 1..])
  {
    assert items[i..][1..] == items[i + 1..];
  }

  /** `XbelIterator`: a pre-order walk over the top-level `items` of a document. */
  class XbelIterator {
    const items: seq<XbelItem>
    var initial: bool
    var toProcess: seq<XbelItem>

    /** The items the walk has still to yield. */
    ghost function Remaining(): seq<XbelItem>
      reads this
    {
      if initial then Preorder(toProcess + items) else Preorder(toProcess)
    }

    constructor (items: seq<XbelItem>)
      ensures this.items == items && initial && toProcess == []
      ensures Remaining() == Preorder(items)
    {
      this.items := items;
      initial := true;
      toProcess := [];
      assert [] + items == items;
    }

    /** Yields the next item of the pre-order walk, or `None` once all have been yielded. */
    method Next() returns (r: Option<XbelItem>)
      modifies this
      ensures !initial
      ensures old(Remaining()) == [] ==> r.None? && Remaining() == []
      ensures old(Remaining()) != [] ==> r == Some(old(Remaining())[0]) && Remaining() == old(Remaining())[1..]
    {
      if initial {
        toProcess := toProcess + items;
        initial := false;
      }
      if toProcess == [] {
        return None;
      }
      ghost var before := Remaining();
      var x := toProcess[0];
      var rest := toProcess[1..];
      PreorderPop(toProcess);
      toProcess := rest;
      if x.Folder? {
        var i := |x.items|;
        while i > 0
          invariant 0 <= i <= |x.items| && !initial
          invariant toProcess == x.items[i..] + rest
        {
          i := i - 1;
          assert x.items[i..] == [x.items[i]] + x.items[i + 1..];
          Assoc([x.items[i]], x.items[i + 1..], rest);
          toProcess := [x.items[i]] + toProcess;
        }
        assert x.items[0..] == x.items;
        PreorderAppend(x.items, rest);
      } else {
        AppendNil(Preorder(rest));
      }
      assert Remaining() == before[1..];
      r := Some(x);
    }
  }

  /** `XbelNestingIterator`: the pre-order walk with an `End(id)` after each folder's contents. */
  class XbelNestingIterator {
    const items: seq<XbelItem>
    var initial: bool
    var toProcess: seq<ItemOrEnd>

    ghost function Remaining(): seq<ItemOrEnd>
      reads this
    {
      if initial then Pending(toProcess + Wrap(items)) else Pending(toProcess)
    }

    constructor (items: seq<XbelItem>)
      ensures this.items == items && initial && toProcess == []
      ensures Remaining() == WithEnds(items)
    {
      this.items := items;
      initial := true;
      toProcess := [];
      assert [] + Wrap(items) == Wrap(items);
      PendingWrap(items);
    }

    method Next() returns (r: Option<ItemOrEnd>)
      modifies this
      ensures !initial
      ensures old(Remaining()) == [] ==> r.None? && Remaining() == []
      ensures old(Remaining()) != [] ==> r == Some(old(Remaining())[0]) && Remaining() == old(Remaining())[1..]
    {
      if initial {
        toProcess := toProcess + Wrap(items);
        initial := false;
      }
      if toProcess == [] {
        return None;
      }
      ghost var before := Remaining();
      var e := toProcess[0];
      var rest := toProcess[1..];
      PendingPop(toProcess);
      toProcess := rest;
      if e.Item? && e.item.Folder? {
        var f := e.item;
        toProcess := [End(f.id)] + toProcess;
        ghost var closing := toProcess;
        var i := |f.items|;
        while i > 0
          invariant 0 <= i <= |f.items| && !initial
          invariant toProcess == Wrap(f.items[i..]) + closing
        {
          i := i - 1;
          WrapFrom(f.items, i);
          Assoc([Item(f.items[i])], Wrap(f.items[i + 1..]), closing);
          toProcess := [Item(f.items[i])] + toProcess;
        }
        assert f.items[0..] == f.items;
        NestingExpand(f, rest);
      } else {
        AppendNil(Pending(rest));
      }
      assert Remaining() == before[1..];
      r := Some(e);
    }
  }

  /** Expanding a folder entry: its wrapped contents then its marker replace it in the queue. */
  lemma NestingExpand(f: XbelItem, rest: seq<ItemOrEnd>)
    requires f.Folder?
    ensures Pending(Wrap(f.items) + ([End(f.id)] + rest)) == After(Item(f)) + Pending(rest)
  {
    var e := [End(f.id)];
    PendingAppend(Wrap(f.items), e + rest);
    PendingAppend(e, rest);
    PendingWrap(f.items);
    PendingUnfold(e);
    assert e[1..] == [];
    AppendNil(e);
    Assoc(WithEnds(f.items), e, Pending(rest));
  }

  /** Driving the flat walk to its end yields exactly the pre-order sequence, then `None`. */
  method CollectItems(items: seq<XbelItem>) returns (out: seq<XbelItem>)
    ensures out == Preorder(items)
  {
    var it := new XbelIterator(items);
    out := [];
    AppendNil(it.Remaining());
    while true
      invariant out + it.Remaining() == Preorder(items)
      decreases |it.Remaining()|
    {
      ghost var before := it.Remaining();
      var r := it.Next();
      if r.None? {
        break;
      }
      HeadTail(before);
      Assoc(out, [r.value], it.Remaining());
      out := out + [r.value];
    }
    AppendNil(out);
  }

  /** Driving the nesting walk to its end yields exactly `WithEnds`, then `None`. */
  method CollectNesting(items: seq<XbelItem>) returns (out: seq<ItemOrEnd>)
    ensures out == WithEnds(items)
  {
    var it := new XbelNestingIterator(items);
    out := [];
    AppendNil(it.Remaining());
    while true
      invariant out + it.Remaining() == WithEnds(items)
      decreases |it.Remaining()|
    {
      ghost var before := it.Remaining();
      var r := it.Next();
      if r.None? {
        break;
      }
      HeadTail(before);
      Assoc(out, [r.value], it.Remaining());
      out := out + [r.value];
    }
    AppendNil(out);
  }

  /** `get_highest_id`: the fold over the flat walk, computed by driving the iterator. */
  method HighestIdByWalk(items: seq<XbelItem>) returns (h: nat)
    requires IdsValid(items)
    ensures h == HighestId(items)
  {
    var it := new XbelIterator(items);
    h := 0;
    while true
      invariant forall x :: x in it.Remaining() ==> ParseU64(x.id).Some?
      invariant FoldMax(it.Remaining(), h) == HighestId(items)
      decreases |it.Remaining()|
    {
      ghost var before := it.Remaining();
      var r := it.Next();
      if r.None? {
        break;
      }
      var id := ParseU64(r.value.id).value;
      assert FoldMax(before, h) == FoldMax(it.Remaining(), if id > h then id else h);
      if id > h {
        h := id;
      }
    }
  }
}
