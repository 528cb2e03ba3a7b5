/**
 * The edit rules of the command-line tools, between loading `bookmarks.xbel` and writing it back:
 * `bookmark_add`, `bookmark_rm`, the `bookmark_find` filter, `pluralize` and the indentation counter
 * of `bookmark_print`. The two binaries (the `floccus-cli` one over the crate, and the older one)
 * apply the same rules; they differ only in what happens after the write (a git push, or a message).
 */
module BookmarkCli {
  import opened Wrappers
  import opened Decimal
  import opened XbelTree
  import opened ListAddress
  import opened Resolver
  import opened Traversal
  import opened SeqFacts
  import opened XbelFormat
  import CliArgs

  /** `From<&Under> for XbelPath`. */
  function ToXbelPath(u: CliArgs.Under): (p: XbelPath)
    ensures p.Root? <==> u.Root?
    ensures u.Id? ==> p == Id(u.n)
    ensures u.Folder? ==> p == Path(u.s)
  {
    match u
    case Root => Root
    case Id(n, _) => Id(n)
    case Folder(s) => Path(s)
  }

  datatype BookmarkAddError = PushWithoutUrl | XbelPathNotFound(path: XbelPath) | NotaFolder(id: string)
  datatype BookmarkRemoveError = PushWithoutUrl | XbelPathNotFound(path: XbelPath)

  /** A successful edit: the document was written back, and a push was asked for or not. */
  datatype Outcome = Outcome(pushed: bool)

  /** `Vec::insert`: `x` lands at index `i`, later items shift right by one. */
  function VecInsert(l: seq<XbelItem>, i: nat, x: XbelItem): (r: seq<XbelItem>)
    requires i <= |l|
    ensures |r| == |l| + 1 && r[i] == x
    ensures forall k :: 0 <= k < i ==> r[k] == l[k]
    ensures forall k :: i < k < |r| ==> r[k] == l[k - 1]
  {
    l[..i] + [x] + l[i..]
  }

  /** `Vec::remove`: the item at index `i` is gone, later items shift left by one. */
  function VecRemove(l: seq<XbelItem>, i: nat): (r: seq<XbelItem>)
    requires i < |l|
    ensures |r| == |l| - 1
    ensures forall k :: 0 <= k < i ==> r[k] == l[k]
    ensures forall k :: i <= k < |r| ==> r[k] == l[k + 1]
  {
    l[..i] + l[i + 1..]
  }

  /**
   * The tree after adding bookmark `b` where `under` says: at the end of the top level; before
   * or after the item with the id; first or last inside it when it is a folder; last inside the
   * item a path designates when it is a folder. Lists not on the edited one's path are untouched.
   */
  ghost function AddSpec(items: seq<XbelItem>, under: CliArgs.Under, b: XbelItem): Result<seq<XbelItem>, BookmarkAddError>
  {
    var path := ToXbelPath(under);
    ResolveValid(items, path);
    match Resolve(items, path)
    case None => Err(BookmarkAddError.XbelPathNotFound(path))
    case Some(loc) =>
      var a, i, l := loc.addr, loc.index, ListAt(items, loc.addr);
      match under
      case Root => Ok(ReplaceListAt(items, a, l + [b]))
      case Id(n, placement) =>
        ListAtChild(items, a, i);
        (match placement
        case Before => Ok(ReplaceListAt(items, a, VecInsert(l, i, b)))
        case After => Ok(ReplaceListAt(items, a, VecInsert(l, i + 1, b)))
        case InFolderPrepend =>
          if l[i].Folder? then Ok(ReplaceListAt(items, a + [i], VecInsert(l[i].items, 0, b)))
          else Err(NotaFolder(NatToDecimal(n)))
        case InFolderAppend =>
          if l[i].Folder? then Ok(ReplaceListAt(items, a + [i], l[i].items + [b]))
          else Err(NotaFolder(NatToDecimal(n))))
      case Folder(_) =>
        ListAtChild(items, a, i);
        if l[i].Folder? then Ok(ReplaceListAt(items, a + [i], l[i].items + [b]))
        else Err(NotaFolder(l[i].id))
  }

  /** The tree after removing the item an address designates, with its whole subtree. */
  ghost function RemoveSpec(items: seq<XbelItem>, path: XbelPath): Result<seq<XbelItem>, BookmarkRemoveError>
    requires !path.Root?
  {
    ResolveValid(items, path);
    match Resolve(items, path)
    case None => Err(BookmarkRemoveError.XbelPathNotFound(path))
    case Some(loc) => Ok(ReplaceListAt(items, loc.addr, VecRemove(ListAt(items, loc.addr), loc.index)))
  }

  /**
   * `bookmark_add` on a loaded document: a push without a url is refused before anything else,
   * whatever the document holds; the bookmark gets the id after the highest one of the document as loaded; then it is placed
   * as `AddSpec` says, or the error is returned and the document is neither changed nor written.
   */
  method BookmarkAdd(xbel: Xbel, args: CliArgs.AddArgs, repositoryUrl: Option<string>)
    returns (r: Result<Outcome, BookmarkAddError>)
    modifies xbel
    requires !(args.disablePush == Some(false) && repositoryUrl.None?) ==>
      IdsValid(xbel.items) && HighestId(xbel.items) + 1 < U64_LIMIT
    ensures xbel.version == old(xbel.version)
    ensures args.disablePush == Some(false) && repositoryUrl.None? ==>
      r == Err(BookmarkAddError.PushWithoutUrl) && xbel.items == old(xbel.items)
    ensures !(args.disablePush == Some(false) && repositoryUrl.None?) ==>
      var spec := AddSpec(old(xbel.items), args.under, NewBookmark(old(xbel.items), args.url, args.title));
      (spec.Err? ==> r == Err(spec.error) && xbel.items == old(xbel.items)) &&
      (spec.Ok? ==> r == Ok(Outcome(args.disablePush == Some(false))) && xbel.items == spec.value)
  {
    if args.disablePush == Some(false) && repositoryUrl.None? {
      return Err(BookmarkAddError.PushWithoutUrl);
    }
    var b := NewBookmark(xbel.items, args.url, args.title);
    var path := ToXbelPath(args.under);
    var found := xbel.GetItemsMut(path);
    ResolveValid(xbel.items, path);
    if found.None? {
      return Err(BookmarkAddError.XbelPathNotFound(path));
    }
    var a, i := found.value.addr, found.value.index;
    var l := ListAt(xbel.items, a);
    match args.under {
      case Root =>
        xbel.items := ReplaceListAt(xbel.items, a, l + [b]);
      case Id(n, placement) =>
        ListAtChild(xbel.items, a, i);
        match placement {
          case Before =>
            xbel.items := ReplaceListAt(xbel.items, a, VecInsert(l, i, b));
          case After =>
            xbel.items := ReplaceListAt(xbel.items, a, VecInsert(l, i + 1, b));
          case InFolderPrepend =>
            if l[i].Folder? {
              xbel.items := ReplaceListAt(xbel.items, a + [i], VecInsert(l[i].items, 0, b));
            } else {
              return Err(NotaFolder(NatToDecimal(n)));
            }
          case InFolderAppend =>
            if l[i].Folder? {
              xbel.items := ReplaceListAt(xbel.items, a + [i], l[i].items + [b]);
            } else {
              return Err(NotaFolder(NatToDecimal(n)));
            }
        }
      case Folder(_) =>
        ListAtChild(xbel.items, a, i);
        if l[i].Folder? {
          xbel.items := ReplaceListAt(xbel.items, a + [i], l[i].items + [b]);
        } else {
          return Err(NotaFolder(l[i].id));
        }
    }
    return Ok(Outcome(args.disablePush == Some(false)));
  }

  /**
   * `bookmark_rm` on a loaded document: the push check comes first; the address must resolve; a
   * dry run leaves the document as it was, otherwise the item is removed as `RemoveSpec` says.
   * The top-level address is not implemented and is excluded once the push check passes.
   */
  method BookmarkRm(xbel: Xbel, args: CliArgs.RemoveArgs, repositoryUrl: Option<string>)
    returns (r: Result<Outcome, BookmarkRemoveError>)
    modifies xbel
    requires args.under.Root? ==> args.disablePush == Some(false) && repositoryUrl.None?
    requires args.under.Id? && !(args.disablePush == Some(false) && repositoryUrl.None?) ==> IdsValid(xbel.items)
    ensures xbel.version == old(xbel.version)
    ensures args.disablePush == Some(false) && repositoryUrl.None? ==>
      r == Err(BookmarkRemoveError.PushWithoutUrl) && xbel.items == old(xbel.items)
    ensures !(args.disablePush == Some(false) && repositoryUrl.None?) ==>
      var spec := RemoveSpec(old(xbel.items), ToXbelPath(args.under));
      (spec.Err? ==> r == Err(spec.error) && xbel.items == old(xbel.items)) &&
      (spec.Ok? ==> (r == Ok(Outcome(args.disablePush == Some(false))) &&
                     xbel.items == if args.dryRun then old(xbel.items) else spec.value))
  {
    if args.disablePush == Some(false) && repositoryUrl.None? {
      return Err(BookmarkRemoveError.PushWithoutUrl);
    }
    var path := ToXbelPath(args.under);
    var found := xbel.GetItemsMut(path);
    ResolveValid(xbel.items, path);
    if found.None? {
      return Err(BookmarkRemoveError.XbelPathNotFound(path));
    }
    var a, i := found.value.addr, found.value.index;
    if !args.dryRun {
      xbel.items := ReplaceListAt(xbel.items, a, VecRemove(ListAt(xbel.items, a), i));
    }
    return Ok(Outcome(args.disablePush == Some(false)));
  }

  // ----- What an add does to the tree -----

  lemma InsertIdBag(l: seq<XbelItem>, i: nat, b: XbelItem)
    requires i <= |l| && b.Bookmark?
    ensures IdBag(VecInsert(l, i, b)) == IdBag(l) + multiset{b.id}
  {
    assert l == l[..i] + l[i..];
    IdBagAppend(l[..i], l[i..]);
    IdBagSplit(l[..i], b, l[i..]);
  }

  lemma ReplaceAddsOne(items: seq<XbelItem>, a: ListAddr, l: seq<XbelItem>, id: string)
    requires IsListAddr(items, a) && IdBag(l) == IdBag(ListAt(items, a)) + multiset{id}
    ensures IdBag(ReplaceListAt(items, a, l)) == IdBag(items) + multiset{id}
  {
    ReplaceIdBag(items, a, l);
    var r, o, all := IdBag(ReplaceListAt(items, a, l)), IdBag(ListAt(items, a)), IdBag(items);
    assert all + (o + multiset{id}) == (all + multiset{id}) + o;
    BagCancel(r, all + multiset{id}, o);
  }

  /** Inserting a bookmark into one list of the tree adds its id and one item to the walk. */
  lemma InsertAddsOne(items: seq<XbelItem>, a: ListAddr, j: nat, b: XbelItem)
    requires IsListAddr(items, a) && j <= |ListAt(items, a)| && b.Bookmark?
    ensures var t := ReplaceListAt(items, a, VecInsert(ListAt(items, a), j, b));
      IdBag(t) == IdBag(items) + multiset{b.id} && |Preorder(t)| == |Preorder(items)| + 1
  {
    var l := ListAt(items, a);
    var t := ReplaceListAt(items, a, VecInsert(l, j, b));
    InsertIdBag(l, j, b);
    ReplaceAddsOne(items, a, VecInsert(l, j, b), b.id);
    assert |IdBag(t)| == |IdBag(items)| + 1;
  }

  /** A successful add puts exactly one more id in the tree, the new bookmark's, and one more item in the walk. */
  lemma AddSpecCount(items: seq<XbelItem>, under: CliArgs.Under, b: XbelItem)
    requires b.Bookmark?
    ensures var r := AddSpec(items, under, b);
      r.Ok? ==> (IdBag(r.value) == IdBag(items) + multiset{b.id} &&
                 |Preorder(r.value)| == |Preorder(items)| + 1)
  {
    var path := ToXbelPath(under);
    ResolveValid(items, path);
    var r := AddSpec(items, under, b);
    if r.Ok? {
      var loc := Resolve(items, path).value;
      var a, i := loc.addr, loc.index;
      var l := ListAt(items, a);
      assert l + [b] == VecInsert(l, |l|, b);
      match under {
        case Root =>
          InsertAddsOne(items, a, |l|, b);
        case Id(n, placement) =>
          ListAtChild(items, a, i);
          match placement {
            case Before =>
              InsertAddsOne(items, a, i, b);
            case After =>
              InsertAddsOne(items, a, i + 1, b);
            case InFolderPrepend =>
              InsertAddsOne(items, a + [i], 0, b);
            case InFolderAppend =>
              assert l[i].items + [b] == VecInsert(l[i].items, |l[i].items|, b);
              InsertAddsOne(items, a + [i], |l[i].items|, b);
          }
        case Folder(_) =>
          ListAtChild(items, a, i);
          assert l[i].items + [b] == VecInsert(l[i].items, |l[i].items|, b);
          InsertAddsOne(items, a + [i], |l[i].items|, b);
      }
    }
  }

  /**
   * After a successful add every id still parses and the highest id is the new bookmark's, so the
   * next add numbers its bookmark one higher again.
   */
  lemma AddRaisesHighestId(items: seq<XbelItem>, under: CliArgs.Under, url: string, title: string)
    requires IdsValid(items) && HighestId(items) + 1 < U64_LIMIT
    ensures var r := AddSpec(items, under, NewBookmark(items, url, title));
      r.Ok? ==> IdsValid(r.value) && HighestId(r.value) == HighestId(items) + 1
  {
    var b := NewBookmark(items, url, title);
    var h := HighestId(items);
    var r := AddSpec(items, under, b);
    if r.Ok? {
      AddSpecCount(items, under, b);
      HighestIdIsMax(items);
      var t := r.value;
      forall x | x in Preorder(t) ensures ParseU64(x.id).Some? && ParseU64(x.id).value <= h + 1 {
        IdsOfMember(Preorder(t), x.id);
        assert x.id in IdBag(t);
        if x.id != b.id {
          assert x.id in IdBag(items);
          IdsOfMember(Preorder(items), x.id);
          var y :| y in Preorder(items) && y.id == x.id;
          assert IdValue(y) <= h;
        }
      }
      assert b.id in IdBag(t);
      IdsOfMember(Preorder(t), b.id);
      var w :| w in Preorder(t) && w.id == b.id;
      assert IdValue(w) == h + 1;
      HighestIdUnique(t, h + 1);
    }
  }

  /**
   * Where the bookmark lands: before the found item (which moves one down), right after it,
   * first or last inside the found folder (which keeps its id and title), or last in the top level.
   */
  lemma AddPlacesBookmark(items: seq<XbelItem>, under: CliArgs.Under, b: XbelItem)
    requires AddSpec(items, under, b).Ok?
    ensures Resolve(items, ToXbelPath(under)).Some?
    ensures var t, loc := AddSpec(items, under, b).value, Resolve(items, ToXbelPath(under)).value;
      IsListAddr(items, loc.addr) && IsListAddr(t, loc.addr) &&
      var before, after := ListAt(items, loc.addr), ListAt(t, loc.addr);
      match under
      case Root => t == items + [b]
      case Id(_, Before) =>
        loc.index < |before| && loc.index + 1 < |after| &&
        after[loc.index] == b && after[loc.index + 1] == before[loc.index]
      case Id(_, After) =>
        loc.index < |before| && loc.index + 1 < |after| &&
        after[loc.index] == before[loc.index] && after[loc.index + 1] == b
      case Id(_, InFolderPrepend) =>
        IsListAddr(t, loc.addr + [loc.index]) && ListAt(t, loc.addr + [loc.index]) != [] &&
        ListAt(t, loc.addr + [loc.index])[0] == b &&
        loc.index < |before| && loc.index < |after| &&
        after[loc.index].id == before[loc.index].id && after[loc.index].title == before[loc.index].title
      case _ =>
        IsListAddr(t, loc.addr + [loc.index]) && ListAt(t, loc.addr + [loc.index]) != [] &&
        ListAt(t, loc.addr + [loc.index])[|ListAt(t, loc.addr + [loc.index])| - 1] == b &&
        loc.index < |before| && loc.index < |after| &&
        after[loc.index].id == before[loc.index].id && after[loc.index].title == before[loc.index].title
  {
    var path := ToXbelPath(under);
    ResolveValid(items, path);
    var loc := Resolve(items, path).value;
    var a, i, l := loc.addr, loc.index, ListAt(items, loc.addr);
    match under {
      case Root =>
        ReplaceThenRead(items, a, l + [b]);
      case Id(n, placement) =>
        match placement {
          case Before => PlaceAt(items, a, i, b);
          case After => PlaceAt(items, a, i + 1, b);
          case InFolderPrepend =>
            ListAtChild(items, a, i);
            InFolderFacts(items, a, i, VecInsert(l[i].items, 0, b));
          case InFolderAppend =>
            ListAtChild(items, a, i);
            InFolderFacts(items, a, i, l[i].items + [b]);
        }
      case Folder(_) =>
        ListAtChild(items, a, i);
        InFolderFacts(items, a, i, l[i].items + [b]);
    }
  }

  /** Inserting at index `j` of the list at `a`: the bookmark sits at `j`, earlier items stay, later ones shift by one. */
  lemma PlaceAt(items: seq<XbelItem>, a: ListAddr, j: nat, b: XbelItem)
    requires IsListAddr(items, a) && j <= |ListAt(items, a)|
    ensures var l, t := ListAt(items, a), ReplaceListAt(items, a, VecInsert(ListAt(items, a), j, b));
      IsListAddr(t, a) && ListAt(t, a) == VecInsert(l, j, b) &&
      |ListAt(t, a)| == |l| + 1 && ListAt(t, a)[j] == b &&
      (0 < j ==> ListAt(t, a)[j - 1] == l[j - 1]) && (j < |l| ==> ListAt(t, a)[j + 1] == l[j])
  {
    ReplaceThenRead(items, a, VecInsert(ListAt(items, a), j, b));
  }

  /** Replacing the items of the folder at index `i` of the list at `a`. */
  lemma InFolderFacts(items: seq<XbelItem>, a: ListAddr, i: nat, l: seq<XbelItem>)
    requires IsListAddr(items, a + [i])
    ensures IsListAddr(items, a)
    ensures var t := ReplaceListAt(items, a + [i], l);
      IsListAddr(t, a) && IsListAddr(t, a + [i]) && ListAt(t, a + [i]) == l &&
      i < |ListAt(t, a)| && i < |ListAt(items, a)| &&
      ListAt(t, a)[i].id == ListAt(items, a)[i].id && ListAt(t, a)[i].title == ListAt(items, a)[i].title
  {
    assert (a + [i])[..|a|] == a;
    ReplaceThenRead(items, a + [i], l);
    ReplaceKeepsAncestors(items, a + [i], |a|, l);
  }

  /** The `under` forms that put the bookmark inside the item they find. */
  predicate IntoFolder(under: CliArgs.Under) {
    under.Folder? || (under.Id? && (under.placement.InFolderPrepend? || under.placement.InFolderAppend?))
  }

  /**
   * A successful add at the top level, or before or after an item, writes the found list and no
   * other: it gains the bookmark at its end, at the found index, or just after it. Every list off
   * that list's line is as it was.
   */
  lemma AddSpecEditBeside(items: seq<XbelItem>, under: CliArgs.Under, b: XbelItem)
    requires AddSpec(items, under, b).Ok? && !IntoFolder(under)
    ensures Resolve(items, ToXbelPath(under)).Some?
    ensures var t, loc := AddSpec(items, under, b).value, Resolve(items, ToXbelPath(under)).value;
      var a := loc.addr;
      IsListAddr(items, a) && IsListAddr(t, a) &&
      t == ReplaceListAt(items, a, ListAt(t, a)) && KeepsOffLine(items, t, a) &&
      (under.Root? ==> ListAt(t, a) == ListAt(items, a) + [b]) &&
      (under.Id? && under.placement.Before? ==>
         loc.index < |ListAt(items, a)| && ListAt(t, a) == VecInsert(ListAt(items, a), loc.index, b)) &&
      (under.Id? && under.placement.After? ==>
         loc.index < |ListAt(items, a)| && ListAt(t, a) == VecInsert(ListAt(items, a), loc.index + 1, b))
  {
    var path := ToXbelPath(under);
    ResolveValid(items, path);
    var loc := Resolve(items, path).value;
    var a, i, l := loc.addr, loc.index, ListAt(items, loc.addr);
    if under.Root? {
      ReplaceFrame(items, a, l + [b]);
    } else if under.placement.Before? {
      ReplaceFrame(items, a, VecInsert(l, i, b));
    } else {
      ReplaceFrame(items, a, VecInsert(l, i + 1, b));
    }
  }

  /**
   * A successful add inside the found folder writes that folder's items and no other list: they
   * gain the bookmark first (prepend) or last (append, path). Every list off that list's line is
   * as it was.
   */
  lemma AddSpecEditInside(items: seq<XbelItem>, under: CliArgs.Under, b: XbelItem)
    requires AddSpec(items, under, b).Ok? && IntoFolder(under)
    ensures Resolve(items, ToXbelPath(under)).Some?
    ensures var t, loc := AddSpec(items, under, b).value, Resolve(items, ToXbelPath(under)).value;
      var f := loc.addr + [loc.index];
      IsListAddr(items, f) && IsListAddr(t, f) &&
      t == ReplaceListAt(items, f, ListAt(t, f)) && KeepsOffLine(items, t, f) &&
      (under.Id? && under.placement.InFolderPrepend? ==> ListAt(t, f) == [b] + ListAt(items, f)) &&
      (!(under.Id? && under.placement.InFolderPrepend?) ==> ListAt(t, f) == ListAt(items, f) + [b])
  {
    var path := ToXbelPath(under);
    ResolveValid(items, path);
    var loc := Resolve(items, path).value;
    var a, i, l := loc.addr, loc.index, ListAt(items, loc.addr);
    ListAtChild(items, a, i);
    if under.Id? && under.placement.InFolderPrepend? {
      assert VecInsert(l[i].items, 0, b) == [b] + l[i].items;
      ReplaceFrame(items, a + [i], VecInsert(l[i].items, 0, b));
    } else {
      ReplaceFrame(items, a + [i], l[i].items + [b]);
    }
  }

  /**
   * A successful removal writes one list of the tree and no other: the found list loses the item
   * at the found index. Every list off that list's line is as it was.
   */
  lemma RemoveSpecEdit(items: seq<XbelItem>, path: XbelPath)
    requires !path.Root? && RemoveSpec(items, path).Ok?
    ensures Resolve(items, path).Some?
    ensures var t, loc := RemoveSpec(items, path).value, Resolve(items, path).value;
      IsListAddr(items, loc.addr) && loc.index < |ListAt(items, loc.addr)| && IsListAddr(t, loc.addr) &&
      ListAt(t, loc.addr) == VecRemove(ListAt(items, loc.addr), loc.index) &&
      t == ReplaceListAt(items, loc.addr, ListAt(t, loc.addr)) && KeepsOffLine(items, t, loc.addr)
  {
    ResolveValid(items, path);
    var loc := Resolve(items, path).value;
    ReplaceFrame(items, loc.addr, VecRemove(ListAt(items, loc.addr), loc.index));
  }

  /**
   * An add fails exactly when the address does not resolve, or when it asks for a place inside
   * the found item and that item is a bookmark.
   */
  lemma AddSpecFails(items: seq<XbelItem>, under: CliArgs.Under, b: XbelItem)
    ensures Resolve(items, ToXbelPath(under)).None? ==> AddSpec(items, under, b).Err?
    ensures var loc := Resolve(items, ToXbelPath(under));
      loc.Some? && !IntoFolder(under) ==> AddSpec(items, under, b).Ok?
    ensures var loc := Resolve(items, ToXbelPath(under));
      loc.Some? && IntoFolder(under) ==>
        (IsListAddr(items, loc.value.addr) && loc.value.index < |ListAt(items, loc.value.addr)| &&
         (AddSpec(items, under, b).Err? <==> ListAt(items, loc.value.addr)[loc.value.index].Bookmark?))
  {
    ResolveValid(items, ToXbelPath(under));
  }

  // ----- What a remove does to the tree -----

  lemma RemoveIdBag(l: seq<XbelItem>, i: nat)
    requires i < |l|
    ensures IdBag(VecRemove(l, i)) + IdBag([l[i]]) == IdBag(l)
  {
    assert l == l[..i] + [l[i]] + l[i + 1..];
    IdBagAppend(l[..i], [l[i]]);
    IdBagAppend(l[..i] + [l[i]], l[i + 1..]);
    IdBagAppend(l[..i], l[i + 1..]);
  }

  lemma ReplaceRemoves(items: seq<XbelItem>, a: ListAddr, rest: seq<XbelItem>, gone: multiset<string>)
    requires IsListAddr(items, a) && IdBag(rest) + gone == IdBag(ListAt(items, a))
    ensures IdBag(ReplaceListAt(items, a, rest)) + gone == IdBag(items)
  {
    ReplaceIdBag(items, a, rest);
    var t, r, all := IdBag(ReplaceListAt(items, a, rest)), IdBag(rest), IdBag(items);
    assert t + (r + gone) == (t + gone) + r;
    BagCancel(t + gone, all, r);
  }

  /** A removal takes out the designated item and, for a folder, everything inside it; nothing else. */
  lemma RemoveSpecCount(items: seq<XbelItem>, path: XbelPath)
    requires !path.Root?
    ensures var r, loc := RemoveSpec(items, path), Resolve(items, path);
      r.Ok? ==> (loc.Some? && IsListAddr(items, loc.value.addr) && loc.value.index < |ListAt(items, loc.value.addr)| &&
                 var x := ListAt(items, loc.value.addr)[loc.value.index];
                 IdBag(r.value) + IdBag([x]) == IdBag(items) &&
                 |Preorder(r.value)| + |Preorder([x])| == |Preorder(items)|)
  {
    ResolveValid(items, path);
    var r := RemoveSpec(items, path);
    if r.Ok? {
      var loc := Resolve(items, path).value;
      var l := ListAt(items, loc.addr);
      RemoveIdBag(l, loc.index);
      ReplaceRemoves(items, loc.addr, VecRemove(l, loc.index), IdBag([l[loc.index]]));
      assert |IdBag(r.value) + IdBag([l[loc.index]])| == |IdBag(items)|;
    }
  }

  // ----- bookmark_find -----

  /** `str::contains`: `t` occurs in `s` at some offset. */
  function Contains(s: string, t: string): bool
    decreases |s|
  {
    if |t| > |s| then false
    else if s[..|t|] == t then true
    else Contains(s[1..], t)
  }

  predicate OccursAt(s: string, t: string, i: nat) {
    i + |t| <= |s| && s[i..i + |t|] == t
  }

  lemma {:induction false} ContainsIff(s: string, t: string)
    ensures Contains(s, t) <==> exists i: nat :: OccursAt(s, t, i)
    decreases |s|
  {
    if |t| <= |s| && s[..|t|] != t {
      ContainsIff(s[1..], t);
      if Contains(s, t) {
        var i: nat :| OccursAt(s[1..], t, i);
        assert s[i + 1..i + 1 + |t|] == s[1..][i..i + |t|];
        assert OccursAt(s, t, i + 1);
      } else {
        forall i: nat | OccursAt(s, t, i) ensures false {
          assert i > 0;
          assert s[1..][i - 1..i - 1 + |t|] == s[i..i + |t|];
          assert OccursAt(s[1..], t, i - 1);
        }
      }
    } else if |t| <= |s| {
      assert OccursAt(s, t, 0);
    }
  }

  lemma ContainsEmpty(s: string)
    ensures Contains(s, "")
  {
    assert s[..0] == "";
  }

  datatype FindKind = AllKinds | Folders | Bookmarks
  datatype FindWhere = Anywhere | InTitle | InUrl

  /** The folder flag wins over the bookmark flag. */
  function KindOf(args: CliArgs.FindArgs): FindKind {
    if args.folder then Folders else if args.bookmark then Bookmarks else AllKinds
  }

  /** The title flag wins over the url flag. */
  function WhereOf(args: CliArgs.FindArgs): FindWhere {
    if args.title then InTitle else if args.url then InUrl else Anywhere
  }

  predicate FoundInTitle(x: XbelItem, t: string) {
    Contains(x.title.text, t)
  }

  /** A folder has no url; it is searched as the empty string. */
  predicate FoundInUrl(x: XbelItem, t: string) {
    Contains(match GetUrl(x) case Some(u) => u case None => "", t)
  }

  /** The filter closure: the kind test first, then the where test. */
  predicate Keep(args: CliArgs.FindArgs, x: XbelItem) {
    var kind := match KindOf(args)
      case Folders => x.Folder?
      case Bookmarks => x.Bookmark?
      case AllKinds => true;
    kind &&
    match WhereOf(args)
    case InTitle => FoundInTitle(x, args.find)
    case InUrl => FoundInUrl(x, args.find)
    case Anywhere => FoundInTitle(x, args.find) || FoundInUrl(x, args.find)
  }

  function Filter(args: CliArgs.FindArgs, s: seq<XbelItem>): (r: seq<XbelItem>)
    ensures |r| <= |s|
    ensures forall x :: x in r <==> x in s && Keep(args, x)
  {
    if s == [] then []
    else (if Keep(args, s[0]) then [s[0]] else []) + Filter(args, s[1..])
  }

  lemma {:induction false} FilterAppend(args: CliArgs.FindArgs, s: seq<XbelItem>, t: seq<XbelItem>)
    ensures Filter(args, s + t) == Filter(args, s) + Filter(args, t)
  {
    if s == [] {
      assert s + t == t;
    } else {
      assert (s + t)[1..] == s[1..] + t;
      FilterAppend(args, s[1..], t);
    }
  }

  /** `bookmark_find`'s result: the items of the flat walk that the filter keeps, in walk order. */
  function FindItems(args: CliArgs.FindArgs, items: seq<XbelItem>): (r: seq<XbelItem>)
    ensures forall x :: x in r <==> x in Preorder(items) && Keep(args, x)
  {
    Filter(args, Preorder(items))
  }

  /** The result of a search over two stretches of the top level is the two results in order. */
  lemma FindItemsAppend(args: CliArgs.FindArgs, a: seq<XbelItem>, b: seq<XbelItem>)
    ensures FindItems(args, a + b) == FindItems(args, a) + FindItems(args, b)
  {
    PreorderAppend(a, b);
    FilterAppend(args, Preorder(a), Preorder(b));
  }

  /** A url-only search finds a folder exactly when folders are searched for and the needle is empty. */
  lemma FolderUrlSearch(args: CliArgs.FindArgs, x: XbelItem)
    requires x.Folder? && args.url && !args.title
    ensures Keep(args, x) <==> (args.folder || !args.bookmark) && args.find == ""
  {
    ContainsIff("", args.find);
    if args.find == "" {
      ContainsEmpty("");
    }
  }

  /** Searching folders for the empty string finds every folder of the document. */
  lemma {:induction false} FindAllFolders(args: CliArgs.FindArgs, s: seq<XbelItem>)
    requires args.folder && args.find == ""
    ensures |Filter(args, s)| == CountFolders(s)
  {
    if s != [] {
      ContainsEmpty(s[0].title.text);
      FindAllFolders(args, s[1..]);
    }
  }

  /** `pluralize`: the word as it is for a count of 0 or 1, with an `s` appended otherwise. */
  function Pluralize(s: string, count: nat): (r: string)
    ensures count <= 1 ==> r == s
    ensures count > 1 ==> |r| == |s| + 1 && r[..|s|] == s && r[|s|] == 's'
  {
    if count <= 1 then s else s + "s"
  }

  // ----- bookmark_print -----

  /** One more event changes the depth by +1 for a folder, 0 for a bookmark and -1 for an `End`. */
  lemma DepthSnoc(d: seq<ItemOrEnd>, e: ItemOrEnd)
    ensures Depth(d + [e]) == Depth(d) + Delta(e)
  {
    assert (d + [e])[..|d|] == d;
  }

  /** One event of the print loop: the recorded level is the depth so far, and the new depth stays non-negative. */
  lemma IndentStep(w: seq<ItemOrEnd>, done: seq<ItemOrEnd>, rest: seq<ItemOrEnd>, levels: seq<nat>)
    requires Balanced(w) && done + rest == w && rest != [] && |levels| == |done|
    requires forall k :: 0 <= k < |levels| ==> levels[k] == 2 * Depth(w[..k])
    ensures Depth(done) >= 0 && Depth(done + [rest[0]]) == Depth(done) + Delta(rest[0]) >= 0
    ensures (done + [rest[0]]) + rest[1..] == w
    ensures forall k :: 0 <= k < |levels| + 1 ==> (levels + [2 * Depth(done) as nat])[k] == 2 * Depth(w[..k])
  {
    var n := |done|;
    PrefixOfAppend(done, rest);
    assert Depth(w[..n]) >= 0 && Depth(w[..n + 1]) >= 0 by {
      assert n + 1 <= |w|;
    }
    DepthSnoc(done, rest[0]);
    LevelsSnoc(w, levels, 2 * Depth(done) as nat);
  }

  /** Recording the level of the next event keeps every recorded level equal to twice the depth before it. */
  lemma LevelsSnoc(w: seq<ItemOrEnd>, levels: seq<nat>, v: nat)
    requires |levels| < |w| && v == 2 * Depth(w[..|levels|])
    requires forall k :: 0 <= k < |levels| ==> levels[k] == 2 * Depth(w[..k])
    ensures forall k :: 0 <= k < |levels| + 1 ==> (levels + [v])[k] == 2 * Depth(w[..k])
  {
    var next := levels + [v];
    forall k | 0 <= k < |next|
      ensures next[k] == 2 * Depth(w[..k])
    {
      if k < |levels| {
        assert next[k] == levels[k];
      }
    }
  }

  /**
   * The indentation counter of `bookmark_print` over the nesting walk: the value in force at
   * each event (twice the number of open folders), and the final value, which is 0.
   */
  method PrintIndents(items: seq<XbelItem>) returns (levels: seq<nat>, indentSpaces: nat)
    ensures |levels| == |WithEnds(items)|
    ensures forall k :: 0 <= k < |levels| ==> levels[k] == 2 * Depth(WithEnds(items)[..k])
    ensures indentSpaces == 0
  {
    ghost var w := WithEnds(items);
    WithEndsBalanced(items);
    var it := new XbelNestingIterator(items);
    ghost var done: seq<ItemOrEnd> := [];
    indentSpaces := 0;
    levels := [];
    while true
      invariant done + it.Remaining() == w
      invariant |levels| == |done|
      invariant forall k :: 0 <= k < |levels| ==> levels[k] == 2 * Depth(w[..k])
      invariant indentSpaces == 2 * Depth(done)
      decreases |it.Remaining()|
    {
      ghost var rest := it.Remaining();
      var r := it.Next();
      if r.None? {
        break;
      }
      var e := r.value;
      IndentStep(w, done, rest, levels);
      levels := levels + [indentSpaces];
      match e {
        case End(_) =>
          indentSpaces := indentSpaces - 2;
        case Item(x) =>
          if x.Folder? {
            indentSpaces := indentSpaces + 2;
          }
      }
      done := done + [e];
    }
    assert done == w;
  }
}
