/**
 * The document of the `floccus-xbel` crate: an `Xbel` holds a version and its top-level items,
 * and `get_items_mut` resolves an address with a breadth-first walk over sibling lists.
 * A `&mut Vec` into the tree is represented by its list address (see `ListAddress`).
 */
module XbelFormat {
  import opened Wrappers
  import opened Decimal
  import opened XbelTree
  import opened ListAddress
  import opened Resolver

  /** `items.iter().enumerate().find_map(..)` over one list; an id probe unwraps every id it reads. */
  method FindIndex(l: seq<XbelItem>, p: Probe) returns (r: Option<nat>)
    requires p.ById? ==> forall j :: 0 <= j < |l| ==> ParseU64(l[j].id).Some?
    ensures r == FirstHit(l, p)
  {
    var j := 0;
    while j < |l|
      invariant 0 <= j <= |l|
      invariant FirstHitFrom(l, p, j) == FirstHit(l, p)
    {
      var hit: bool;
      if p.ById? {
        var id := ParseU64(l[j].id).value;
        hit := id == p.n;
      } else {
        hit := l[j].title.text == p.t;
      }
      assert hit == Hit(l[j], p);
      if hit {
        return Some(j);
      }
      j := j + 1;
    }
    return None;
  }

  /** `for item in items.iter_mut() { if Folder: to_process.push_back(&mut f.items) }`. */
  method PushFolders(queue: seq<ListAddr>, a: ListAddr, l: seq<XbelItem>) returns (out: seq<ListAddr>)
    ensures out == queue + ChildAddrs(a, l, |l|)
  {
    out := queue;
    var j := 0;
    while j < |l|
      invariant 0 <= j <= |l|
      invariant out == queue + ChildAddrs(a, l, j)
    {
      if l[j].Folder? {
        out := out + [a + [j]];
      }
      j := j + 1;
    }
  }

  /** `Xbel`: the version attribute and the top-level items of a bookmark document. */
  class Xbel {
    var version: string
    var items: seq<XbelItem>

    /** `Xbel::new`: version "1.0" and the given items, or none. */
    constructor (items: Option<seq<XbelItem>>)
      ensures version == "1.0"
      ensures this.items == if items.Some? then items.value else []
    {
      version := "1.0";
      this.items := if items.Some? then items.value else [];
    }

    /**
     * `get_items_mut`: the index and the list an address designates. `Root` is `(0, top-level
     * list)`; `Id` and `Path` run the queue walk. Reading ids unwraps their u64 parse.
     */
    method GetItemsMut(path: XbelPath) returns (r: Option<Location>)
      requires path.Id? ==> IdsValid(items)
      ensures r == Resolve(items, path)
    {
      match path
      case Root =>
        return Some(Location(0, []));
      case Id(n) =>
        var queue: seq<ListAddr> := [[]];
        while queue != []
          invariant AllListAddrs(items, queue)
          invariant IdBfs(items, n, queue) == Resolve(items, path)
          decreases QueueWeight(items, queue)
        {
          var a := queue[0];
          var l := ListAt(items, a);
          IdsValidAt(items, a);
          forall j | 0 <= j < |l| ensures ParseU64(l[j].id).Some? {
            PreorderContainsTop(l, j);
          }
          var found := FindIndex(l, ById(n));
          if found.Some? {
            return Some(Location(found.value, a));
          }
          StepWeight(items, queue);
          queue := PushFolders(queue[1..], a, l);
        }
        return None;
      case Path(s) =>
        var segs := Split(s);
        var idx := 0;
        var queue: seq<ListAddr> := [[]];
        while queue != []
          invariant AllListAddrs(items, queue) && idx < |segs|
          invariant PathBfs(items, segs, idx, queue) == Resolve(items, path)
          decreases QueueWeight(items, queue)
        {
          var a := queue[0];
          var l := ListAt(items, a);
          var found := FindIndex(l, ByTitle(segs[idx]));
          if found.Some? {
            if idx == |segs| - 1 {
              return Some(Location(found.value, a));
            } else {
              idx := idx + 1;
            }
          }
          StepWeight(items, queue);
          queue := PushFolders(queue[1..], a, l);
        }
        return None;
    }
  }
}
