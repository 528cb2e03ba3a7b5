/**
 * The two documents the crate's tests build on: the empty document and the "bank" document
 * (folder 1 "admin" holding folder 2 "bank" with bookmarks 3 and 4, then bookmark 5), with the
 * hrefs and titles the test document spells out.
 */
module Fixtures {
  import opened Wrappers
  import opened Decimal
  import opened XbelTree
  import opened ListAddress
  import opened Resolver
  import opened Traversal

  function Bank(): seq<XbelItem> {
    [Folder("1", Title("admin"), [
      Folder("2", Title("bank"), [
        Bookmark("https://www.bank1.com/", "3", Title("Bank 1 - Best bank in the world")),
        Bookmark("https://www.bank2.com", "4", Title("Bank 2 because 2 > 1 !#\U{20AC}"))]),
      Bookmark("https://www.bank3.com", "5", Title("My current bank U+1F929 "))])]
  }

  lemma OneDigit(c: char)
    requires IsDigit(c)
    ensures ParseU64([c]) == Some(DigitValue(c))
  {
    assert [c][..0] == [] && AllDigits([c]) && [c][0] != '+';
    assert DigitsValue([c]) == DigitValue(c);
  }

  lemma BankIds()
    ensures ParseU64("1") == Some(1) && ParseU64("2") == Some(2) && ParseU64("3") == Some(3)
    ensures ParseU64("4") == Some(4) && ParseU64("5") == Some(5)
  {
    OneDigit('1');
    OneDigit('2');
    OneDigit('3');
    OneDigit('4');
    OneDigit('5');
  }

  /** The flat walk of the bank document, item by item. */
  lemma BankPreorder()
    ensures var admin := Bank()[0];
      var bank := admin.items[0];
      Preorder(Bank()) == [admin, bank, bank.items[0], bank.items[1], admin.items[1]]
  {
    var admin := Bank()[0];
    var bank := admin.items[0];
    var b3, b4, b5 := bank.items[0], bank.items[1], admin.items[1];
    PreorderSingle(b3);
    PreorderSingle(b4);
    PreorderSingle(b5);
    PreorderAppend([b3], [b4]);
    assert bank.items == [b3] + [b4];
    PreorderSingle(bank);
    PreorderAppend([bank], [b5]);
    assert admin.items == [bank] + [b5];
    PreorderSingle(admin);
  }

  /** The flat walk meets ids 1 to 5 in order; three of the five items are bookmarks. */
  lemma BankWalk()
    ensures IdsOf(Preorder(Bank())) == ["1", "2", "3", "4", "5"]
    ensures |Preorder(Bank())| - CountFolders(Preorder(Bank())) == 3
  {
    BankPreorder();
    var p := Preorder(Bank());
    assert p[1..][1..][1..][1..][1..] == [];
  }

  /** The nesting walk closes folder 2 after bookmark 4 and folder 1 after bookmark 5. */
  lemma BankNesting()
    ensures var admin := Bank()[0];
      var bank := admin.items[0];
      WithEnds(Bank()) == [Item(admin), Item(bank), Item(bank.items[0]), Item(bank.items[1]), End("2"),
                           Item(admin.items[1]), End("1")]
  {
    var admin := Bank()[0];
    var bank := admin.items[0];
    var b3, b4, b5 := bank.items[0], bank.items[1], admin.items[1];
    assert [b3][1..] == [] && [b4][1..] == [] && [b5][1..] == [];
    assert WithEnds([b4]) == [Item(b4)];
    assert WithEnds([b3, b4]) == [Item(b3)] + WithEnds([b4]);
    assert WithEnds([b5]) == [Item(b5)];
    assert [bank, b5][1..] == [b5] && [b3, b4][1..] == [b4];
    assert WithEnds([bank, b5]) == [Item(bank)] + WithEnds([b3, b4]) + [End("2")] + WithEnds([b5]);
    assert Bank()[1..] == [];
  }

  /** `get_highest_id` of the bank document is 5. */
  lemma BankHighestId()
    ensures IdsValid(Bank()) && HighestId(Bank()) == 5
  {
    BankPreorder();
    BankIds();
    var p := Preorder(Bank());
    assert p[0].id == "1" && p[1].id == "2" && p[2].id == "3" && p[3].id == "4" && p[4].id == "5";
    forall x | x in p
      ensures ParseU64(x.id).Some? && ParseU64(x.id).value <= 5
    {
      assert x == p[0] || x == p[1] || x == p[2] || x == p[3] || x == p[4];
    }
    assert IdsValid(Bank());
    assert p[4] in p && IdValue(p[4]) == 5;
    HighestIdUnique(Bank(), 5);
  }

  /** Id 4 is the second entry of folder "bank" and is in neither of the lists above it. */
  lemma BankHits()
    ensures FirstHit(Bank()[0].items[0].items, ById(4)) == Some(1)
    ensures FirstHit(Bank()[0].items, ById(4)) == None
    ensures FirstHit(Bank(), ById(4)) == None
  {
    BankIds();
    var root := Bank();
    var admin := root[0];
    var bank := admin.items[0];
    var p := ById(4);
    assert !Hit(bank.items[0], p) && Hit(bank.items[1], p);
    assert FirstHitFrom(bank.items, p, 1) == Some(1);
    assert !Hit(admin.items[0], p) && !Hit(admin.items[1], p);
    assert FirstHitFrom(admin.items, p, 2) == None;
    assert FirstHitFrom(admin.items, p, 1) == None;
    assert !Hit(admin, p);
    assert FirstHitFrom(root, p, 1) == None;
  }

  /** The queue of the walk over the bank document: the top list, then folder "admin", then folder "bank". */
  lemma BankQueue()
    ensures ChildAddrs([], Bank(), 1) == [[0]]
    ensures ChildAddrs([0], Bank()[0].items, 2) == [[0, 0]]
    ensures ListAt(Bank(), []) == Bank()
    ensures ListAt(Bank(), [0]) == Bank()[0].items
    ensures ListAt(Bank(), [0, 0]) == Bank()[0].items[0].items
  {
    var root := Bank();
    var admin := root[0];
    var top: ListAddr := [];
    assert top + [0] == [0] && [0] + [0] == [0, 0];
    assert ChildAddrs(top, root, 0) == [];
    assert ChildAddrs([0], admin.items, 0) == [];
    assert ChildAddrs([0], admin.items, 1) == [[0, 0]];
    assert [0, 0][1..] == [0] && [0][1..] == [];
  }

  /** `Id(4)` resolves to index 1 of the list of folder "bank", which is reached by entering folders 0 and 0. */
  lemma BankResolveId4()
    ensures Resolve(Bank(), Id(4)) == Some(Location(1, [0, 0]))
  {
    BankHits();
    BankQueue();
    var root := Bank();
    var q0: seq<ListAddr> := [[]];
    var q1: seq<ListAddr> := [[0]];
    var q2: seq<ListAddr> := [[0, 0]];
    assert q0[1..] == [] && q1[1..] == [];
    assert q0[1..] + ChildAddrs([], root, 1) == q1;
    assert q1[1..] + ChildAddrs([0], root[0].items, 2) == q2;
    assert IdBfs(root, 4, q2) == Some(Location(1, [0, 0]));
    assert IdBfs(root, 4, q1) == IdBfs(root, 4, q2);
    assert IdBfs(root, 4, q0) == IdBfs(root, 4, q1);
  }

  /** The empty document: highest id 0, no id resolves, the top level resolves to index 0. */
  lemma EmptyDocument()
    ensures HighestId([]) == 0
    ensures Resolve([], Id(1)).None?
    ensures Resolve([], Root) == Some(Location(0, []))
  {
    ResolveIdNone([], 1);
  }
}
