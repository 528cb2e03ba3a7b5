/**
 * Where a sibling list lives in the tree. Rust's `get_items_mut` hands out a `&mut Vec<XbelItem>`;
 * here a list is named by its address, the folder indices leading to it from the top-level list,
 * and a mutation through the borrow is `ReplaceListAt` of that one address.
 */
module ListAddress {
  import opened XbelTree

  type ListAddr = seq<nat>

  /** `a` leads through folders only, so it names a sibling list. */
  predicate IsListAddr(items: seq<XbelItem>, a: ListAddr)
  {
    a == [] || (a[0] < |items| && items[a[0]].Folder? && IsListAddr(items[a[0]].items, a[1..]))
  }

  function ListAt(items: seq<XbelItem>, a: ListAddr): seq<XbelItem>
    requires IsListAddr(items, a)
  {
    if a == [] then items else ListAt(items[a[0]].items, a[1..])
  }

  /** The tree with the list at `a` replaced by `l`; the folders on the way keep their id and title. */
  function ReplaceListAt(items: seq<XbelItem>, a: ListAddr, l: seq<XbelItem>): seq<XbelItem>
    requires IsListAddr(items, a)
  {
    if a == [] then l
    else
      var f := items[a[0]];
      items[a[0] := Folder(f.id, f.title, ReplaceListAt(f.items, a[1..], l))]
  }

  /** Stepping into the j-th item of a list is possible exactly when that item is a folder. */
  lemma {:induction false} ListAtChild(items: seq<XbelItem>, a: ListAddr, j: nat)
    requires IsListAddr(items, a)
    ensures IsListAddr(items, a + [j]) <==> j < |ListAt(items, a)| && ListAt(items, a)[j].Folder?
    ensures IsListAddr(items, a + [j]) ==> ListAt(items, a + [j]) == ListAt(items, a)[j].items
  {
    if a != [] {
      assert (a + [j])[0] == a[0] && (a + [j])[1..] == a[1..] + [j];
      ListAtChild(items[a[0]].items, a[1..], j);
    }
  }

  /** Every prefix of a list address is a list address. */
  lemma {:induction false} PrefixIsListAddr(items: seq<XbelItem>, b: ListAddr, k: nat)
    requires IsListAddr(items, b) && k <= |b|
    ensures IsListAddr(items, b[..k])
  {
    if k > 0 {
      assert b[..k][0] == b[0] && b[..k][1..] == b[1..][..k - 1];
      PrefixIsListAddr(items[b[0]].items, b[1..], k - 1);
    }
  }

  /** After a replacement the address still names a list, and that list is the new one. */
  lemma {:induction false} ReplaceThenRead(items: seq<XbelItem>, a: ListAddr, l: seq<XbelItem>)
    requires IsListAddr(items, a)
    ensures IsListAddr(ReplaceListAt(items, a, l), a)
    ensures ListAt(ReplaceListAt(items, a, l), a) == l
  {
    if a != [] {
      ReplaceThenRead(items[a[0]].items, a[1..], l);
    }
  }

  /** Writing back what was read changes nothing. */
  lemma {:induction false} ReadThenReplace(items: seq<XbelItem>, a: ListAddr)
    requires IsListAddr(items, a)
    ensures ReplaceListAt(items, a, ListAt(items, a)) == items
  {
    if a != [] {
      ReadThenReplace(items[a[0]].items, a[1..]);
    }
  }

  predicate IsPrefix(p: ListAddr, b: ListAddr) {
    |p| <= |b| && b[..|p|] == p
  }

  /** Lists whose addresses are not on one line from the root (neither is a prefix of the other) are untouched. */
  lemma {:induction false} ReplaceKeepsOthers(items: seq<XbelItem>, a: ListAddr, b: ListAddr, l: seq<XbelItem>)
    requires IsListAddr(items, a) && IsListAddr(items, b)
    requires !IsPrefix(a, b) && !IsPrefix(b, a)
    ensures IsListAddr(ReplaceListAt(items, a, l), b)
    ensures ListAt(ReplaceListAt(items, a, l), b) == ListAt(items, b)
  {
    assert a != [] && b != [];
    var r := ReplaceListAt(items, a, l);
    if a[0] != b[0] {
      assert r[b[0]] == items[b[0]];
    } else {
      assert !IsPrefix(a[1..], b[1..]) && !IsPrefix(b[1..], a[1..]);
      ReplaceKeepsOthers(items[a[0]].items, a[1..], b[1..], l);
    }
  }

  /** Every list of `items` whose address is not on one line with `a` reads the same in `t`. */
  ghost predicate KeepsOffLine(items: seq<XbelItem>, t: seq<XbelItem>, a: ListAddr) {
    forall c :: IsListAddr(items, c) && !IsPrefix(a, c) && !IsPrefix(c, a) ==>
      IsListAddr(t, c) && ListAt(t, c) == ListAt(items, c)
  }

  /** A replacement writes exactly one list: it reads back as written, and every list off its line is as it was. */
  lemma ReplaceFrame(items: seq<XbelItem>, a: ListAddr, l: seq<XbelItem>)
    requires IsListAddr(items, a)
    ensures var t := ReplaceListAt(items, a, l);
      IsListAddr(t, a) && ListAt(t, a) == l && KeepsOffLine(items, t, a)
  {
    var t := ReplaceListAt(items, a, l);
    ReplaceThenRead(items, a, l);
    forall c | IsListAddr(items, c) && !IsPrefix(a, c) && !IsPrefix(c, a)
      ensures IsListAddr(t, c) && ListAt(t, c) == ListAt(items, c)
    {
      ReplaceKeepsOthers(items, a, c, l);
    }
  }

  /**
   * A list strictly above the replaced one keeps its length and every item but the one the
   * address goes through, which is still a folder with the same id and title.
   */
  lemma {:induction false} ReplaceKeepsAncestors(items: seq<XbelItem>, a: ListAddr, k: nat, l: seq<XbelItem>)
    requires IsListAddr(items, a) && k < |a|
    ensures IsListAddr(items, a[..k]) && IsListAddr(ReplaceListAt(items, a, l), a[..k])
    ensures var before, after := ListAt(items, a[..k]), ListAt(ReplaceListAt(items, a, l), a[..k]);
      |after| == |before| && a[k] < |before| &&
      (forall j :: 0 <= j < |before| && j != a[k] ==> after[j] == before[j]) &&
      after[a[k]].Folder? && after[a[k]].id == before[a[k]].id && after[a[k]].title == before[a[k]].title
  {
    if k == 0 {
      assert a[..0] == [];
    } else {
      assert a[..k] == [a[0]] + a[1..][..k - 1];
      assert a[..k][1..] == a[1..][..k - 1];
      ReplaceKeepsAncestors(items[a[0]].items, a[1..], k - 1, l);
    }
  }

  /** The ids met by a walk, in order. */
  function IdsOf(s: seq<XbelItem>): (r: seq<string>)
    ensures |r| == |s|
  {
    if s == [] then [] else [s[0].id] + IdsOf(s[1..])
  }

  lemma {:induction false} IdsOfAppend(s: seq<XbelItem>, t: seq<XbelItem>)
    ensures IdsOf(s + t) == IdsOf(s) + IdsOf(t)
  {
    if s == [] {
      assert s + t == t;
    } else {
      assert (s + t)[1..] == s[1..] + t;
      IdsOfAppend(s[1..], t);
    }
  }

  lemma {:induction false} IdsOfMember(s: seq<XbelItem>, id: string)
    ensures id in IdsOf(s) <==> exists x :: x in s && x.id == id
  {
    if s != [] {
      IdsOfMember(s[1..], id);
      if id in IdsOf(s[1..]) {
        var x :| x in s[1..] && x.id == id;
        assert x in s;
      }
      if exists x :: x in s && x.id == id {
        var x :| x in s && x.id == id;
        if x != s[0] {
          assert x in s[1..];
        }
      }
    }
  }

  /** The multiset of ids of the whole tree. */
  function IdBag(items: seq<XbelItem>): multiset<string>
  {
    multiset(IdsOf(Preorder(items)))
  }

  lemma IdBagAppend(s: seq<XbelItem>, t: seq<XbelItem>)
    ensures IdBag(s + t) == IdBag(s) + IdBag(t)
  {
    PreorderAppend(s, t);
    IdsOfAppend(Preorder(s), Preorder(t));
  }

  /** The ids of a list split around one of its items. */
  lemma IdBagSplit(before: seq<XbelItem>, x: XbelItem, after: seq<XbelItem>)
    ensures IdBag(before + [x] + after)
      == IdBag(before) + multiset{x.id} + (if x.Folder? then IdBag(x.items) else multiset{}) + IdBag(after)
  {
    IdBagAppend(before + [x], after);
    IdBagAppend(before, [x]);
    PreorderSingle(x);
    if x.Folder? {
      IdsOfAppend([x], Preorder(x.items));
    }
  }

  lemma ReplaceShape(items: seq<XbelItem>, a: ListAddr, l: seq<XbelItem>)
    requires IsListAddr(items, a) && a != []
    ensures var f := items[a[0]];
      items == items[..a[0]] + [f] + items[a[0] + 1..] &&
      ReplaceListAt(items, a, l)
        == items[..a[0]] + [Folder(f.id, f.title, ReplaceListAt(f.items, a[1..], l))] + items[a[0] + 1..]
  {
  }

  lemma BagArith(bb: multiset<string>, ba: multiset<string>, bf: multiset<string>, bi: multiset<string>,
                 bl: multiset<string>, bo: multiset<string>, id: string)
    requires bi + bo == bf + bl
    ensures (bb + multiset{id} + bi + ba) + bo == (bb + multiset{id} + bf + ba) + bl
  {
    forall x ensures ((bb + multiset{id} + bi + ba) + bo)[x] == ((bb + multiset{id} + bf + ba) + bl)[x] {
      assert (bi + bo)[x] == (bf + bl)[x];
    }
  }

  /** Replacing one list trades that list's ids (with its subtrees) for the new list's ids; nothing else moves. */
  lemma {:induction false} ReplaceIdBag(items: seq<XbelItem>, a: ListAddr, l: seq<XbelItem>)
    requires IsListAddr(items, a)
    ensures IdBag(ReplaceListAt(items, a, l)) + IdBag(ListAt(items, a)) == IdBag(items) + IdBag(l)
  {
    if a != [] {
      var j := a[0];
      var f := items[j];
      var inner := ReplaceListAt(f.items, a[1..], l);
      var f' := Folder(f.id, f.title, inner);
      ReplaceIdBag(f.items, a[1..], l);
      ReplaceShape(items, a, l);
      IdBagSplit(items[..j], f, items[j + 1..]);
      IdBagSplit(items[..j], f', items[j + 1..]);
      BagArith(IdBag(items[..j]), IdBag(items[j + 1..]), IdBag(f.items), IdBag(inner), IdBag(l),
               IdBag(ListAt(f.items, a[1..])), f.id);
    }
  }

  /** The number of items of the whole tree changes by the difference of the two lists' subtree sizes. */
  lemma ReplaceSize(items: seq<XbelItem>, a: ListAddr, l: seq<XbelItem>)
    requires IsListAddr(items, a)
    ensures |Preorder(ReplaceListAt(items, a, l))| + |Preorder(ListAt(items, a))| == |Preorder(items)| + |Preorder(l)|
  {
    ReplaceIdBag(items, a, l);
    var r := ReplaceListAt(items, a, l);
    assert |IdBag(r) + IdBag(ListAt(items, a))| == |IdBag(items) + IdBag(l)|;
  }

  /** Every item of every addressed list is met by the walk, and every item the walk meets sits in some addressed list. */
  lemma {:induction false} AddressedInPreorder(items: seq<XbelItem>, a: ListAddr, i: nat)
    requires IsListAddr(items, a) && i < |ListAt(items, a)|
    ensures ListAt(items, a)[i] in Preorder(items)
  {
    if a == [] {
      PreorderContainsTop(items, i);
    } else {
      var f := items[a[0]];
      AddressedInPreorder(f.items, a[1..], i);
      PreorderContainsTop(items, a[0]);
      PreorderClosed(items, f, ListAt(items, a)[i]);
    }
  }

  lemma {:induction false} PreorderAddressed(items: seq<XbelItem>, x: XbelItem)
    requires x in Preorder(items)
    ensures exists a: ListAddr, i: nat :: IsListAddr(items, a) && i < |ListAt(items, a)| && ListAt(items, a)[i] == x
  {
    var h := items[0];
    if x == h {
      assert IsListAddr(items, []) && ListAt(items, [])[0] == x;
    } else if h.Folder? && x in Preorder(h.items) {
      PreorderAddressed(h.items, x);
      var a: ListAddr, i: nat :| IsListAddr(h.items, a) && i < |ListAt(h.items, a)| && ListAt(h.items, a)[i] == x;
      var b: ListAddr := [0] + a;
      assert b[0] == 0 && b[1..] == a;
      assert IsListAddr(items, b) && ListAt(items, b) == ListAt(h.items, a);
    } else {
      assert x in Preorder(items[1..]);
      PreorderAddressed(items[1..], x);
      var a: ListAddr, i: nat :| IsListAddr(items[1..], a) && i < |ListAt(items[1..], a)| && ListAt(items[1..], a)[i] == x;
      if a == [] {
        assert IsListAddr(items, []) && ListAt(items, [])[i + 1] == x;
      } else {
        var b: ListAddr := [a[0] + 1] + a[1..];
        assert b[0] == a[0] + 1 && b[1..] == a[1..];
        assert items[b[0]] == items[1..][a[0]];
        assert IsListAddr(items, b) && ListAt(items, b) == ListAt(items[1..], a);
      }
    }
  }

  /** Validity of ids is inherited by every addressed list. */
  lemma IdsValidAt(items: seq<XbelItem>, a: ListAddr)
    requires IsListAddr(items, a) && IdsValid(items)
    ensures IdsValid(ListAt(items, a))
  {
    forall x | x in Preorder(ListAt(items, a)) ensures x in Preorder(items) {
      PreorderAddressed(ListAt(items, a), x);
      var b: ListAddr, i: nat :| IsListAddr(ListAt(items, a), b) && i < |ListAt(ListAt(items, a), b)| && ListAt(ListAt(items, a), b)[i] == x;
      ListAtConcat(items, a, b);
      AddressedInPreorder(items, a + b, i);
    }
  }

  /** Addresses compose: reading `b` inside the list at `a` reads `a + b` from the root. */
  lemma {:induction false} ListAtConcat(items: seq<XbelItem>, a: ListAddr, b: ListAddr)
    requires IsListAddr(items, a) && IsListAddr(ListAt(items, a), b)
    ensures IsListAddr(items, a + b) && ListAt(items, a + b) == ListAt(ListAt(items, a), b)
  {
    if a == [] {
      assert a + b == b;
    } else {
      assert (a + b)[0] == a[0] && (a + b)[1..] == a[1..] + b;
      ListAtConcat(items[a[0]].items, a[1..], b);
    }
  }
}
