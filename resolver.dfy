/**
 * Address resolution (`Xbel::get_items_mut`) as functions: a breadth-first walk over sibling
 * lists kept in a queue of list addresses, for `Id` and for `Path`, and the properties of what
 * it finds. The walk visits lists in level order, which on addresses is: shorter first, and among
 * addresses of one length, lexicographic order (document order of the folders).
 */
module Resolver {
  import opened Wrappers
  import opened Decimal
  import opened XbelTree
  import opened ListAddress
  import opened SeqFacts

  /** `(item_index, items)`: an index into the list at `addr`. */
  datatype Location = Location(index: nat, addr: ListAddr)

  /** What a visited list is searched for: an id, or one title segment of a path. */
  datatype Probe = ById(n: nat) | ByTitle(t: string)

  predicate Hit(x: XbelItem, p: Probe) {
    match p
    case ById(n) => ParseU64(x.id) == Some(n)
    case ByTitle(t) => x.title.text == t
  }

  /** `items.iter().enumerate().find_map(..)`: the first index of the list that matches. */
  function FirstHit(l: seq<XbelItem>, p: Probe): (r: Option<nat>)
    ensures r.Some? ==> r.value < |l| && Hit(l[r.value], p)
    ensures r.Some? ==> forall j :: 0 <= j < r.value ==> !Hit(l[j], p)
    ensures r.None? ==> forall j :: 0 <= j < |l| ==> !Hit(l[j], p)
  {
    FirstHitFrom(l, p, 0)
  }

  /** The search from index `j` on: the first matching index at or after `j`. */
  function FirstHitFrom(l: seq<XbelItem>, p: Probe, j: nat): (r: Option<nat>)
    requires j <= |l|
    ensures r.Some? ==> j <= r.value < |l| && Hit(l[r.value], p)
    ensures r.Some? ==> forall k :: j <= k < r.value ==> !Hit(l[k], p)
    ensures r.None? ==> forall k :: j <= k < |l| ==> !Hit(l[k], p)
    decreases |l| - j
  {
    if j == |l| then None
    else if Hit(l[j], p) then Some(j)
    else FirstHitFrom(l, p, j + 1)
  }

  // ---------------------------------------------------------------- level order on addresses

  predicate LexLt(a: ListAddr, b: ListAddr)
    requires |a| == |b|
  {
    |a| > 0 && (a[0] < b[0] || (a[0] == b[0] && LexLt(a[1..], b[1..])))
  }

  /** `a` is dequeued before `b` by the breadth-first walk. */
  predicate Before(a: ListAddr, b: ListAddr) {
    |a| < |b| || (|a| == |b| && LexLt(a, b))
  }

  lemma {:induction false} LexIrreflexive(a: ListAddr)
    ensures !LexLt(a, a)
  {
    if |a| > 0 {
      LexIrreflexive(a[1..]);
    }
  }

  lemma {:induction false} LexTransitive(a: ListAddr, b: ListAddr, c: ListAddr)
    requires |a| == |b| == |c| && LexLt(a, b) && LexLt(b, c)
    ensures LexLt(a, c)
  {
    if a[0] == b[0] && b[0] == c[0] {
      LexTransitive(a[1..], b[1..], c[1..]);
    }
  }

  lemma {:induction false} LexExtend(a: ListAddr, b: ListAddr, j: nat, k: nat)
    requires |a| == |b| && LexLt(a, b)
    ensures LexLt(a + [j], b + [k])
  {
    assert (a + [j])[0] == a[0] && (b + [k])[0] == b[0];
    assert (a + [j])[1..] == a[1..] + [j] && (b + [k])[1..] == b[1..] + [k];
    if a[0] == b[0] {
      LexExtend(a[1..], b[1..], j, k);
    }
  }

  lemma {:induction false} LexSiblings(a: ListAddr, j: nat, k: nat)
    requires j < k
    ensures LexLt(a + [j], a + [k])
  {
    if a != [] {
      assert (a + [j])[1..] == a[1..] + [j] && (a + [k])[1..] == a[1..] + [k];
      LexSiblings(a[1..], j, k);
    }
  }

  lemma BeforeIrreflexive(a: ListAddr)
    ensures !Before(a, a)
  {
    LexIrreflexive(a);
  }

  lemma BeforeTransitive(a: ListAddr, b: ListAddr, c: ListAddr)
    requires Before(a, b) && Before(b, c)
    ensures Before(a, c)
  {
    if |a| == |b| == |c| {
      LexTransitive(a, b, c);
    }
  }

  lemma BeforeExtend(a: ListAddr, b: ListAddr, j: nat, k: nat)
    requires Before(a, b)
    ensures Before(a + [j], b + [k])
  {
    if |a| == |b| {
      LexExtend(a, b, j, k);
    }
  }

  /** A list is dequeued before the lists below it. */
  lemma PrefixNotAfter(p: ListAddr, b: ListAddr)
    requires IsPrefix(p, b)
    ensures p == b || Before(p, b)
  {
    if |p| == |b| {
      assert b[..|p|] == b;
    }
  }

  lemma BeforeExcludesNotAfter(a: ListAddr, b: ListAddr)
    requires Before(a, b)
    ensures a != b && !Before(b, a)
  {
    BeforeIrreflexive(a);
    if Before(b, a) {
      BeforeTransitive(a, b, a);
    }
  }

  // ---------------------------------------------------------------- the queue of the walk

  ghost predicate AllListAddrs(root: seq<XbelItem>, queue: seq<ListAddr>) {
    forall k :: 0 <= k < |queue| ==> IsListAddr(root, queue[k])
  }

  /** The `push_back(&mut f.items)` loop over the first `n` items of the list at `a`. */
  function ChildAddrs(a: ListAddr, l: seq<XbelItem>, n: nat): seq<ListAddr>
    requires n <= |l|
  {
    if n == 0 then []
    else ChildAddrs(a, l, n - 1) + (if l[n - 1].Folder? then [a + [n - 1]] else [])
  }

  /** The queued children are exactly the folders of the list, in order. */
  lemma {:induction false} ChildAddrsShape(a: ListAddr, l: seq<XbelItem>, n: nat)
    requires n <= |l|
    ensures forall k :: 0 <= k < |ChildAddrs(a, l, n)| ==>
      var c := ChildAddrs(a, l, n)[k];
      |c| == |a| + 1 && c == a + [c[|a|]] && c[|a|] < n && l[c[|a|]].Folder?
    ensures forall k1, k2 :: 0 <= k1 < k2 < |ChildAddrs(a, l, n)| ==>
      ChildAddrs(a, l, n)[k1][|a|] < ChildAddrs(a, l, n)[k2][|a|]
    ensures forall j :: 0 <= j < n && l[j].Folder? ==> a + [j] in ChildAddrs(a, l, n)
  {
    if n > 0 {
      ChildAddrsShape(a, l, n - 1);
    }
  }

  /** One plus the sizes of the folders' lists, recursively: the work left below a list. */
  function ListWeight(l: seq<XbelItem>): nat
    decreases l, 1
  {
    1 + FoldersWeight(l, |l|)
  }

  function FoldersWeight(l: seq<XbelItem>, n: nat): nat
    requires n <= |l|
    decreases l, 0, n
  {
    if n == 0 then 0
    else FoldersWeight(l, n - 1) + (if l[n - 1].Folder? then ListWeight(l[n - 1].items) else 0)
  }

  ghost function QueueWeight(root: seq<XbelItem>, queue: seq<ListAddr>): nat
    requires AllListAddrs(root, queue)
  {
    if queue == [] then 0 else ListWeight(ListAt(root, queue[0])) + QueueWeight(root, queue[1..])
  }

  lemma {:induction false} QueueWeightAppend(root: seq<XbelItem>, p: seq<ListAddr>, q: seq<ListAddr>)
    requires AllListAddrs(root, p) && AllListAddrs(root, q)
    ensures AllListAddrs(root, p + q)
    ensures QueueWeight(root, p + q) == QueueWeight(root, p) + QueueWeight(root, q)
  {
    if p == [] {
      assert p + q == q;
    } else {
      assert (p + q)[0] == p[0] && (p + q)[1..] == p[1..] + q;
      QueueWeightAppend(root, p[1..], q);
    }
  }

  lemma SingleWeight(root: seq<XbelItem>, c: ListAddr)
    requires IsListAddr(root, c)
    ensures AllListAddrs(root, [c]) && QueueWeight(root, [c]) == ListWeight(ListAt(root, c))
  {
    assert [c][1..] == [];
  }

  lemma WeightSnoc(root: seq<XbelItem>, prev: seq<ListAddr>, c: ListAddr)
    requires AllListAddrs(root, prev) && IsListAddr(root, c)
    ensures AllListAddrs(root, prev + [c])
    ensures QueueWeight(root, prev + [c]) == QueueWeight(root, prev) + ListWeight(ListAt(root, c))
  {
    SingleWeight(root, c);
    QueueWeightAppend(root, prev, [c]);
  }

  lemma {:induction false} ChildAddrsWeight(root: seq<XbelItem>, a: ListAddr, l: seq<XbelItem>, n: nat)
    requires IsListAddr(root, a) && l == ListAt(root, a) && n <= |l|
    ensures AllListAddrs(root, ChildAddrs(a, l, n))
    ensures QueueWeight(root, ChildAddrs(a, l, n)) == FoldersWeight(l, n)
  {
    if n > 0 {
      ChildAddrsWeight(root, a, l, n - 1);
      if l[n - 1].Folder? {
        ChildWeightFolder(root, a, l, n);
      } else {
        ChildWeightOther(root, a, l, n);
      }
    }
  }

  /** The step of `ChildAddrsWeight` at a folder: its list joins the queue and adds its weight. */
  lemma ChildWeightFolder(root: seq<XbelItem>, a: ListAddr, l: seq<XbelItem>, n: nat)
    requires IsListAddr(root, a) && l == ListAt(root, a) && 0 < n <= |l| && l[n - 1].Folder?
    requires AllListAddrs(root, ChildAddrs(a, l, n - 1))
    requires QueueWeight(root, ChildAddrs(a, l, n - 1)) == FoldersWeight(l, n - 1)
    ensures AllListAddrs(root, ChildAddrs(a, l, n))
    ensures QueueWeight(root, ChildAddrs(a, l, n)) == FoldersWeight(l, n)
  {
    ChildAddrsFolder(a, l, n);
    FoldersWeightFolder(l, n);
    FolderListAt(root, a, l, n - 1);
    WeightSnoc(root, ChildAddrs(a, l, n - 1), a + [n - 1]);
  }

  lemma ChildAddrsFolder(a: ListAddr, l: seq<XbelItem>, n: nat)
    requires 0 < n <= |l| && l[n - 1].Folder?
    ensures ChildAddrs(a, l, n) == ChildAddrs(a, l, n - 1) + [a + [n - 1]]
  {
  }

  lemma FoldersWeightFolder(l: seq<XbelItem>, n: nat)
    requires 0 < n <= |l| && l[n - 1].Folder?
    ensures FoldersWeight(l, n) == FoldersWeight(l, n - 1) + ListWeight(l[n - 1].items)
  {
  }

  /** A folder of the list at `a` has its own list at `a + [j]`. */
  lemma FolderListAt(root: seq<XbelItem>, a: ListAddr, l: seq<XbelItem>, j: nat)
    requires IsListAddr(root, a) && l == ListAt(root, a) && j < |l| && l[j].Folder?
    ensures IsListAddr(root, a + [j]) && ListAt(root, a + [j]) == l[j].items
  {
    ListAtChild(root, a, j);
  }

  /** The step of `ChildAddrsWeight` at a bookmark: nothing is queued. */
  lemma ChildWeightOther(root: seq<XbelItem>, a: ListAddr, l: seq<XbelItem>, n: nat)
    requires IsListAddr(root, a) && l == ListAt(root, a) && 0 < n <= |l| && !l[n - 1].Folder?
    requires AllListAddrs(root, ChildAddrs(a, l, n - 1))
    requires QueueWeight(root, ChildAddrs(a, l, n - 1)) == FoldersWeight(l, n - 1)
    ensures AllListAddrs(root, ChildAddrs(a, l, n))
    ensures QueueWeight(root, ChildAddrs(a, l, n)) == FoldersWeight(l, n)
  {
    var prev := ChildAddrs(a, l, n - 1);
    assert ChildAddrs(a, l, n) == prev + [];
    AppendNil(prev);
  }

  /** Dequeuing a list and queueing its folders keeps every entry an address and lowers the work left. */
  lemma StepWeight(root: seq<XbelItem>, queue: seq<ListAddr>)
    requires AllListAddrs(root, queue) && queue != []
    ensures var l := ListAt(root, queue[0]);
      AllListAddrs(root, queue[1..] + ChildAddrs(queue[0], l, |l|)) &&
      QueueWeight(root, queue[1..] + ChildAddrs(queue[0], l, |l|)) < QueueWeight(root, queue)
  {
    var l := ListAt(root, queue[0]);
    ChildAddrsWeight(root, queue[0], l, |l|);
    QueueWeightAppend(root, queue[1..], ChildAddrs(queue[0], l, |l|));
  }

  // ---------------------------------------------------------------- the two searches

  /** The `XbelPath::Id` arm: the first dequeued list holding the id, at the id's first index. */
  ghost function IdBfs(root: seq<XbelItem>, n: nat, queue: seq<ListAddr>): Option<Location>
    requires AllListAddrs(root, queue)
    decreases QueueWeight(root, queue)
  {
    if queue == [] then None
    else
      var l := ListAt(root, queue[0]);
      match FirstHit(l, ById(n))
      case Some(i) => Some(Location(i, queue[0]))
      case None =>
        StepWeight(root, queue);
        IdBfs(root, n, queue[1..] + ChildAddrs(queue[0], l, |l|))
  }

  /**
   * The `XbelPath::Path` arm: each dequeued list is searched for the current segment; a match on
   * the last segment is the answer, a match on an earlier one moves to the next segment. Either way
   * the folders of the whole list are queued, not only the matched one.
   */
  ghost function PathBfs(root: seq<XbelItem>, segs: seq<string>, idx: nat, queue: seq<ListAddr>): Option<Location>
    requires AllListAddrs(root, queue) && idx < |segs|
    decreases QueueWeight(root, queue)
  {
    if queue == [] then None
    else
      var l := ListAt(root, queue[0]);
      var found := FirstHit(l, ByTitle(segs[idx]));
      if found.Some? && idx == |segs| - 1 then Some(Location(found.value, queue[0]))
      else
        StepWeight(root, queue);
        PathBfs(root, segs, if found.Some? then idx + 1 else idx, queue[1..] + ChildAddrs(queue[0], l, |l|))
  }

  /** `s.split('/')`: the pieces between separators, always at least one. */
  function Split(s: string): (r: seq<string>)
    ensures |r| >= 1
  {
    if s == [] then [""]
    else
      var rest := Split(s[1..]);
      if s[0] == '/' then [""] + rest else [[s[0]] + rest[0]] + rest[1..]
  }

  function Join(pieces: seq<string>): string
    requires |pieces| >= 1
  {
    if |pieces| == 1 then pieces[0] else pieces[0] + "/" + Join(pieces[1..])
  }

  /** Splitting loses nothing: joining the pieces back with '/' gives the path, and no piece holds a '/'. */
  lemma {:induction false} SplitJoin(s: string)
    ensures Join(Split(s)) == s
    ensures forall k :: 0 <= k < |Split(s)| ==> '/' !in Split(s)[k]
  {
    if s != [] {
      SplitJoin(s[1..]);
      var rest := Split(s[1..]);
      if s[0] == '/' {
        assert Split(s)[1..] == rest;
        assert s == "/" + s[1..];
      } else {
        var r := Split(s);
        if |rest| == 1 {
          assert s == [s[0]] + s[1..];
        } else {
          assert r[1..] == rest[1..];
          assert s == [s[0]] + s[1..];
        }
      }
    }
  }

  /** `get_items_mut` of the crate: `Root` is `(0, top-level list)`, the others search. */
  ghost function Resolve(root: seq<XbelItem>, path: XbelPath): Option<Location>
  {
    match path
    case Root => Some(Location(0, []))
    case Id(n) => IdBfs(root, n, [[]])
    case Path(s) => PathBfs(root, Split(s), 0, [[]])
  }

  // ---------------------------------------------------------------- what the walk guarantees

  /**
   * The walk's invariant. The queue holds addresses in dequeue order, none reaching past the
   * children of its front; everything already visited comes before everything queued; every
   * list of the tree is visited or lies at or below a queued one.
   */
  ghost predicate Frontier(root: seq<XbelItem>, queue: seq<ListAddr>, visited: set<ListAddr>) {
    AllListAddrs(root, queue)
    && (forall i, j :: 0 <= i < j < |queue| ==> Before(queue[i], queue[j]))
    && (forall i :: 0 <= i < |queue| ==> Before(queue[i], queue[0] + [0]))
    && (forall b, i :: b in visited && 0 <= i < |queue| ==> Before(b, queue[i]))
    && (forall b :: IsListAddr(root, b) ==> b in visited || exists i :: 0 <= i < |queue| && IsPrefix(queue[i], b))
  }

  lemma FrontierStart(root: seq<XbelItem>)
    ensures Frontier(root, [[]], {})
  {
    forall b | IsListAddr(root, b) ensures IsPrefix([[]][0], b) {
    }
  }

  /** The folders of the list at `a`, as queued by one step of the walk. */
  ghost function Kids(root: seq<XbelItem>, a: ListAddr): seq<ListAddr>
    requires IsListAddr(root, a)
  {
    ChildAddrs(a, ListAt(root, a), |ListAt(root, a)|)
  }

  lemma StepSorted(root: seq<XbelItem>, queue: seq<ListAddr>, visited: set<ListAddr>)
    requires Frontier(root, queue, visited) && queue != []
    ensures var q' := queue[1..] + Kids(root, queue[0]);
      forall i, j :: 0 <= i < j < |q'| ==> Before(q'[i], q'[j])
  {
    var a, l := queue[0], ListAt(root, queue[0]);
    var rest, kids := queue[1..], Kids(root, a);
    var q' := rest + kids;
    ChildAddrsShape(a, l, |l|);
    forall i, j | 0 <= i < j < |q'| ensures Before(q'[i], q'[j]) {
      if j < |rest| {
        assert Before(queue[i + 1], queue[j + 1]);
      } else if i >= |rest| {
        var c1, c2 := kids[i - |rest|], kids[j - |rest|];
        LexSiblings(a, c1[|a|], c2[|a|]);
      } else {
        var c := kids[j - |rest|];
        assert Before(queue[i + 1], a + [0]);
        if c[|a|] != 0 {
          LexSiblings(a, 0, c[|a|]);
          BeforeTransitive(queue[i + 1], a + [0], c);
        }
      }
    }
  }

  lemma StepBounded(root: seq<XbelItem>, queue: seq<ListAddr>, visited: set<ListAddr>)
    requires Frontier(root, queue, visited) && queue != []
    ensures var q' := queue[1..] + Kids(root, queue[0]);
      forall i :: 0 <= i < |q'| ==> Before(q'[i], q'[0] + [0])
  {
    var a, l := queue[0], ListAt(root, queue[0]);
    var rest, kids := queue[1..], Kids(root, a);
    var q' := rest + kids;
    ChildAddrsShape(a, l, |l|);
    forall i | 0 <= i < |q'| ensures Before(q'[i], q'[0] + [0]) {
      if rest != [] {
        assert Before(a, rest[0]);
        assert q'[0] == rest[0];
        BeforeExtend(a, rest[0], 0, 0);
        if i < |rest| {
          assert Before(queue[i + 1], a + [0]);
          BeforeTransitive(q'[i], a + [0], rest[0] + [0]);
        } else {
          var c := kids[i - |rest|];
          BeforeExtend(a, rest[0], c[|a|], 0);
        }
      } else {
        assert q'[0] == kids[0] && q'[i] == kids[i];
      }
    }
  }

  lemma StepVisitedFirst(root: seq<XbelItem>, queue: seq<ListAddr>, visited: set<ListAddr>)
    requires Frontier(root, queue, visited) && queue != []
    ensures var q' := queue[1..] + Kids(root, queue[0]);
      forall b, i :: b in visited + {queue[0]} && 0 <= i < |q'| ==> Before(b, q'[i])
  {
    var a, l := queue[0], ListAt(root, queue[0]);
    var rest, kids := queue[1..], Kids(root, a);
    var q' := rest + kids;
    ChildAddrsShape(a, l, |l|);
    forall b, i | b in visited + {a} && 0 <= i < |q'| ensures Before(b, q'[i]) {
      if i < |rest| {
        if b != a {
          assert Before(b, queue[i + 1]);
        } else {
          assert Before(queue[0], queue[i + 1]);
        }
      } else {
        var c := kids[i - |rest|];
        assert Before(a, c);
        if b != a {
          assert Before(b, queue[0]);
          BeforeTransitive(b, a, c);
        }
      }
    }
  }

  /** A list strictly below `a` lies at or below one of the folders queued from `a`. */
  lemma CoveredByKid(root: seq<XbelItem>, a: ListAddr, b: ListAddr)
    requires IsListAddr(root, a) && IsListAddr(root, b) && IsPrefix(a, b) && b != a
    ensures exists k :: 0 <= k < |Kids(root, a)| && IsPrefix(Kids(root, a)[k], b)
  {
    var l := ListAt(root, a);
    var kids := Kids(root, a);
    ChildAddrsShape(a, l, |l|);
    var j := b[|a|];
    PrefixIsListAddr(root, b, |a| + 1);
    assert b[..|a| + 1] == a + [j];
    ListAtChild(root, a, j);
    assert a + [j] in kids;
    var k :| 0 <= k < |kids| && kids[k] == a + [j];
    assert IsPrefix(kids[k], b);
  }

  lemma StepCovers(root: seq<XbelItem>, queue: seq<ListAddr>, visited: set<ListAddr>)
    requires Frontier(root, queue, visited) && queue != []
    ensures var q' := queue[1..] + Kids(root, queue[0]);
      forall b :: IsListAddr(root, b) ==>
        b in visited + {queue[0]} || exists i :: 0 <= i < |q'| && IsPrefix(q'[i], b)
  {
    var a := queue[0];
    var rest, kids := queue[1..], Kids(root, a);
    var q' := rest + kids;
    forall b | IsListAddr(root, b) ensures b in visited + {a} || exists i :: 0 <= i < |q'| && IsPrefix(q'[i], b) {
      if b !in visited {
        var i :| 0 <= i < |queue| && IsPrefix(queue[i], b);
        if i > 0 {
          assert q'[i - 1] == queue[i];
        } else if b != a {
          CoveredByKid(root, a, b);
          var k :| 0 <= k < |kids| && IsPrefix(kids[k], b);
          assert q'[|rest| + k] == kids[k];
        }
      }
    }
  }

  lemma FrontierStep(root: seq<XbelItem>, queue: seq<ListAddr>, visited: set<ListAddr>)
    requires Frontier(root, queue, visited) && queue != []
    ensures Frontier(root, queue[1..] + Kids(root, queue[0]), visited + {queue[0]})
  {
    StepWeight(root, queue);
    StepSorted(root, queue, visited);
    StepBounded(root, queue, visited);
    StepVisitedFirst(root, queue, visited);
    StepCovers(root, queue, visited);
  }

  /** A list of the tree dequeued before the front of the queue has already been visited. */
  lemma FrontierBeforeFront(root: seq<XbelItem>, queue: seq<ListAddr>, visited: set<ListAddr>, b: ListAddr)
    requires Frontier(root, queue, visited) && queue != []
    requires IsListAddr(root, b) && Before(b, queue[0])
    ensures b in visited
  {
    if b !in visited {
      var i :| 0 <= i < |queue| && IsPrefix(queue[i], b);
      PrefixNotAfter(queue[i], b);
      BeforeExcludesNotAfter(b, queue[0]);
      if i > 0 {
        assert Before(queue[0], queue[i]);
        if queue[i] != b {
          BeforeTransitive(queue[0], queue[i], b);
        }
      }
      assert false;
    }
  }

  ghost predicate NoHitIn(root: seq<XbelItem>, b: ListAddr, p: Probe)
    requires IsListAddr(root, b)
  {
    forall j :: 0 <= j < |ListAt(root, b)| ==> !Hit(ListAt(root, b)[j], p)
  }

  lemma {:induction false} IdBfsFinds(root: seq<XbelItem>, n: nat, queue: seq<ListAddr>, visited: set<ListAddr>)
    requires Frontier(root, queue, visited)
    requires forall b :: b in visited && IsListAddr(root, b) ==> NoHitIn(root, b, ById(n))
    ensures IdBfs(root, n, queue).Some? ==>
      var loc := IdBfs(root, n, queue).value;
      IsListAddr(root, loc.addr) && (forall b :: IsListAddr(root, b) && Before(b, loc.addr) ==> NoHitIn(root, b, ById(n)))
    ensures IdBfs(root, n, queue).None? ==> forall b :: IsListAddr(root, b) ==> NoHitIn(root, b, ById(n))
    decreases QueueWeight(root, queue)
  {
    if queue == [] {
      forall b | IsListAddr(root, b) ensures NoHitIn(root, b, ById(n)) {
        assert b in visited;
      }
    } else {
      var a, l := queue[0], ListAt(root, queue[0]);
      if FirstHit(l, ById(n)).Some? {
        forall b | IsListAddr(root, b) && Before(b, a) ensures NoHitIn(root, b, ById(n)) {
          FrontierBeforeFront(root, queue, visited, b);
        }
      } else {
        FrontierStep(root, queue, visited);
        StepWeight(root, queue);
        IdBfsFinds(root, n, queue[1..] + ChildAddrs(a, l, |l|), visited + {a});
      }
    }
  }

  /**
   * `Id(n)` resolves to `(i, L)` with `L[i]` carrying id `n`, `i` the first such index of `L`,
   * and no list dequeued before `L` (level order) holding the id.
   */
  lemma ResolveIdFirst(root: seq<XbelItem>, n: nat)
    ensures var r := Resolve(root, Id(n));
      r.Some? ==> (
        IsListAddr(root, r.value.addr) && r.value.index < |ListAt(root, r.value.addr)| &&
        ParseU64(ListAt(root, r.value.addr)[r.value.index].id) == Some(n) &&
        (forall j :: 0 <= j < r.value.index ==> ParseU64(ListAt(root, r.value.addr)[j].id) != Some(n)) &&
        (forall b :: IsListAddr(root, b) && Before(b, r.value.addr) ==> NoHitIn(root, b, ById(n))))
  {
    FrontierStart(root);
    IdBfsFinds(root, n, [[]], {});
    IdBfsLocates(root, n, [[]]);
  }

  lemma {:induction false} IdBfsLocates(root: seq<XbelItem>, n: nat, queue: seq<ListAddr>)
    requires AllListAddrs(root, queue)
    ensures var r := IdBfs(root, n, queue);
      r.Some? ==> (IsListAddr(root, r.value.addr) && r.value.index < |ListAt(root, r.value.addr)| &&
        ParseU64(ListAt(root, r.value.addr)[r.value.index].id) == Some(n) &&
        (forall j :: 0 <= j < r.value.index ==> ParseU64(ListAt(root, r.value.addr)[j].id) != Some(n)))
    decreases QueueWeight(root, queue)
  {
    if queue != [] {
      var l := ListAt(root, queue[0]);
      if FirstHit(l, ById(n)).None? {
        StepWeight(root, queue);
        IdBfsLocates(root, n, queue[1..] + ChildAddrs(queue[0], l, |l|));
      }
    }
  }

  /** `Id(n)` finds nothing exactly when no item of the tree carries id `n`. */
  lemma ResolveIdNone(root: seq<XbelItem>, n: nat)
    ensures Resolve(root, Id(n)).None? <==> forall x :: x in Preorder(root) ==> ParseU64(x.id) != Some(n)
  {
    FrontierStart(root);
    IdBfsFinds(root, n, [[]], {});
    IdBfsLocates(root, n, [[]]);
    var r := Resolve(root, Id(n));
    if r.None? {
      forall x | x in Preorder(root) ensures ParseU64(x.id) != Some(n) {
        PreorderAddressed(root, x);
        var a: ListAddr, i: nat :| IsListAddr(root, a) && i < |ListAt(root, a)| && ListAt(root, a)[i] == x;
        assert NoHitIn(root, a, ById(n));
        assert !Hit(ListAt(root, a)[i], ById(n));
      }
    } else {
      AddressedInPreorder(root, r.value.addr, r.value.index);
    }
  }

  lemma {:induction false} PathBfsLocates(root: seq<XbelItem>, segs: seq<string>, idx: nat, queue: seq<ListAddr>)
    requires AllListAddrs(root, queue) && idx < |segs|
    ensures var r := PathBfs(root, segs, idx, queue);
      r.Some? ==> (IsListAddr(root, r.value.addr) && r.value.index < |ListAt(root, r.value.addr)| &&
        ListAt(root, r.value.addr)[r.value.index].title.text == segs[|segs| - 1] &&
        (forall j :: 0 <= j < r.value.index ==> ListAt(root, r.value.addr)[j].title.text != segs[|segs| - 1]))
    decreases QueueWeight(root, queue)
  {
    if queue != [] {
      var l := ListAt(root, queue[0]);
      var found := FirstHit(l, ByTitle(segs[idx]));
      if !(found.Some? && idx == |segs| - 1) {
        StepWeight(root, queue);
        PathBfsLocates(root, segs, if found.Some? then idx + 1 else idx, queue[1..] + ChildAddrs(queue[0], l, |l|));
      }
    }
  }

  /**
   * `Path(s)` resolves to `(i, L)` with `L[i]` titled like the last segment of `s` (folder or
   * bookmark alike), `i` the first such index of `L`.
   */
  lemma ResolvePathTitle(root: seq<XbelItem>, s: string)
    ensures var r, segs := Resolve(root, Path(s)), Split(s);
      r.Some? ==> (IsListAddr(root, r.value.addr) && r.value.index < |ListAt(root, r.value.addr)| &&
        ListAt(root, r.value.addr)[r.value.index].title.text == segs[|segs| - 1] &&
        (forall j :: 0 <= j < r.value.index ==> ListAt(root, r.value.addr)[j].title.text != segs[|segs| - 1]))
  {
    PathBfsLocates(root, Split(s), 0, [[]]);
  }

  lemma SplitOneSlash()
    ensures Split("a/b") == ["a", "b"]
  {
    assert "b"[1..] == "" && "/b"[1..] == "b" && "a/b"[1..] == "/b";
    assert Split("") == [""] && [""][1..] == [];
    assert ['b'] + "" == "b" && ['a'] + "" == "a";
    assert Split("b") == ["b"];
    assert Split("/b") == ["", "b"];
    assert ["", "b"][1..] == ["b"];
  }

  /**
   * A path's segments are not followed downwards: after `a` matches in the top-level list, `b`
   * is looked up in every list dequeued later, so here it is found inside folder `x`, a sibling
   * of `a`, and not inside `a`.
   */
  lemma PathMatchesOutsideFolder()
    ensures var b := Bookmark("https://example.org", "3", Title("b"));
      var root := [Folder("1", Title("x"), [b]), Folder("2", Title("a"), [])];
      Resolve(root, Path("a/b")) == Some(Location(0, [0])) && ListAt(root, [0])[0] == b
  {
    var b := Bookmark("https://example.org", "3", Title("b"));
    var root := [Folder("1", Title("x"), [b]), Folder("2", Title("a"), [])];
    SplitOneSlash();
    OutsideFolderWalk(root, b);
    assert [0][1..] == [];
  }

  /** The walk of `PathMatchesOutsideFolder`: `a` matches at the top, then `b` matches in the first folder dequeued. */
  lemma OutsideFolderWalk(root: seq<XbelItem>, b: XbelItem)
    requires b == Bookmark("https://example.org", "3", Title("b"))
    requires root == [Folder("1", Title("x"), [b]), Folder("2", Title("a"), [])]
    ensures PathBfs(root, ["a", "b"], 0, [[]]) == Some(Location(0, [0]))
  {
    assert FirstHitFrom(root, ByTitle("a"), 1) == Some(1);
    assert FirstHit(root, ByTitle("a")) == Some(1);
    var top: ListAddr := [];
    assert top + [0] == [0] && top + [1] == [1];
    assert ChildAddrs(top, root, 0) == [];
    assert ChildAddrs(top, root, 1) == [[0]];
    assert ChildAddrs(top, root, 2) == [[0], [1]];
    var q0: seq<ListAddr> := [[]];
    var q1: seq<ListAddr> := [[0], [1]];
    assert q0[1..] + ChildAddrs(top, root, 2) == q1;
    assert [0][1..] == [];
    assert ListAt(root, [0]) == [b];
    assert FirstHit([b], ByTitle("b")) == Some(0);
    assert PathBfs(root, ["a", "b"], 1, q1) == Some(Location(0, [0]));
  }

  /** Whatever resolves designates a list of the tree, and for `Id` and `Path` an item of it. */
  lemma ResolveValid(root: seq<XbelItem>, path: XbelPath)
    ensures var r := Resolve(root, path);
      r.Some? ==> (IsListAddr(root, r.value.addr) && (path.Root? || r.value.index < |ListAt(root, r.value.addr)|))
    ensures path.Root? ==> Resolve(root, path) == Some(Location(0, []))
  {
    match path
    case Root =>
    case Id(n) => ResolveIdFirst(root, n);
    case Path(s) => ResolvePathTitle(root, s);
  }
}
