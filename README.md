# floccus_cli bookmark tree, modelled in Dafny

`floccus_cli` edits a bookmark file in the XBEL format, the format the Floccus browser extension
syncs through a git repository. The file holds a tree. A *folder* has an id, a title and an ordered
list of items. A *bookmark* has an href, an id and a title. Ids are decimal `u64` strings. A new
bookmark takes the id one past the highest id in the document.

This project models the in-memory core of that program and proves properties of the model:

- **The tree** (`XbelTree`): the item types, the pre-order walk `Preorder`, the highest-id fold and
  the minting of a new bookmark.
- **Addresses** (`ListAddress`): a `&mut Vec<XbelItem>` into the tree is represented by the path
  of folder indices leading to that list. `ListAt` reads the list at an address; `ReplaceListAt`
  writes it back. Every edit is then stated as "this list changed, and nothing else".
- **Address resolution** (`Resolver`, `XbelFormat`): `Xbel::get_items_mut` for `Root`, `Id(n)`
  and `Path("a/b")`. The breadth-first walk over sibling lists is a ghost function over a queue of
  list addresses. The `GetItemsMut` method is its loop, proved to compute that function. Lemmas
  about the function state the search order ("first list in level order, first index in it"),
  the absence result, and the title match of a path.
- **Traversals** (`Traversal`): `XbelIterator` and `XbelNestingIterator` as classes with the
  `initial` flag and the `to_process` deque. Their `Next` methods are proved against `Preorder`
  and `WithEnds`. Lemmas cover the `End` markers: removing them gives the flat walk, there is one per
  folder, and they keep the nesting balanced.
- **Serializer** (`Serializer`, `XbelLegacy`): `to_string` / `write_xbel_item` as a stream of XML
  events between the fixed document prefix and suffix, plus the older `add_header` string splice.
  The events are balanced. The start tags come in pre-order. The highest-id comment reads back to
  the highest id.
- **Command line** (`CliArgs`, `BookmarkCli`):
  - the `--under` address syntax (`Under::from_str`);
  - the configuration overlay (`override_cli_with`);
  - the edit rules of `add` and `rm`;
  - the `find` filter, `pluralize`, and the indentation counter of `print`.

Two binaries share the edit rules: `floccus-cli/src/main.rs`, and the older `src/main.rs`. Their
`bookmark_add`, `bookmark_rm`, `bookmark_find`, `pluralize` and print loop are the same code. In
the older one they are `bookmark_add` at src/main.rs:188-263, `bookmark_rm` at :278-348,
`bookmark_find` at :368-455, `pluralize` at :457-462 and `bookmark_print` at :136-171. It prints
"Should git push" instead of pushing. Both are modelled by the `BookmarkCli` members below, whose
`Outcome.pushed` records whether a push follows.

The older library copy `src/xbel/xbel_format.rs` has the same tree, highest-id fold,
`new_bookmark`, iterators (src/xbel/xbel_format.rs:170-179, :253-258, :316-394) and writer
(src/xbel/xbel_format.rs:213-305). These are modelled by the same members as the crate's. It
differs in three places, each modelled in `XbelLegacy`:
- its `get_items_mut` returns only the list;
- its `Path` arm is `unimplemented!()`;
- it has `add_header`.

Where the prose description of the program and the code disagree, the model follows the code. A
`Path` address does not descend into the folder that matched: after a segment matches, the
children of *every* folder in that list join the queue. The next segment may therefore match
outside the matched folder. `Resolver.PathMatchesOutsideFolder` exhibits this.

Files: `wrappers.dfy` (Option, Result), `decimal.dfy`, `xbel_tree.dfy`, `list_address.dfy`,
`resolver.dfy`, `traversal.dfy`, `serializer.dfy`, `xbel_format.dfy`, `xbel_legacy.dfy`,
`cli_args.dfy`, `bookmark_cli.dfy`, `fixtures.dfy`.

## Model

| member | source | states |
|---|---|---|
| XbelTree.GetUrl | floccus-xbel/src/xbel_format.rs:83-88 | a url exactly for bookmarks, and it is the href |
| XbelTree.MakeBookmark | floccus-xbel/src/xbel_format.rs:41-48 | the bookmark carries the given id, href and title |
| XbelTree.PreorderContainsTop | floccus-xbel/src/xbel_format.rs:390-404 | every top-level item is met by the walk |
| XbelTree.PreorderClosed | floccus-xbel/src/xbel_format.rs:397-401 | every item inside a folder met by the walk is met by the walk |
| XbelTree.PreorderAppend | floccus-xbel/src/xbel_format.rs:390-404 | the walk over two stretches of siblings is the two walks in order |
| XbelTree.Preorder | floccus-xbel/src/xbel_format.rs:371-405 | definition of the order `XbelIterator` yields: an item, then the walk of its items when it is a folder, then the walk of its later siblings; its properties are the three `Preorder…` lemmas, and `Traversal.CollectItems` ties it to the iterator |
| XbelTree.FoldMax | floccus-xbel/src/xbel_format.rs:151-158 | definition of the `if id > acc` fold of `get_highest_id` over a walk; `FoldMaxBounds` and `HighestIdIsMax` state what it computes |
| XbelTree.HighestId | floccus-xbel/src/xbel_format.rs:150-160 | definition: the fold from 0 over the pre-order walk; `HighestIdIsMax` and `HighestIdUnique` state that it is the largest id, or 0 |
| XbelTree.HighestIdIsMax | floccus-xbel/src/xbel_format.rs:150-160 | the fold is at least every id, is 0 on an empty tree, equals some id or 0, and fits in u64 |
| XbelTree.HighestIdUnique | floccus-xbel/src/xbel_format.rs:150-160 | any bound on all ids that is 0 or attained is the fold's value |
| XbelTree.NewBookmark | floccus-xbel/src/xbel_format.rs:281-285 | a bookmark with the given href and title whose id parses to highest + 1 |
| XbelTree.NewBookmarkFresh | floccus-xbel/src/xbel_format.rs:281-285 | the minted id is the id of no item of the tree |
| Decimal.NatToDecimal | floccus-xbel/src/xbel_format.rs:284 | `to_string` gives nonempty digits without a leading zero |
| Decimal.ParseU64 | floccus-xbel/src/xbel_format.rs:154 | a parsed value is below 2^64 |
| Decimal.ParsePrinted | floccus-xbel/src/xbel_format.rs:284 | parsing the printed form of a u64 gives it back |
| Decimal.ParseShape | src/cli/cli_args.rs:149 | only an optional `+` followed by digits parses |
| ListAddress.ListAtChild | floccus-xbel/src/xbel_format.rs:183-190 | the address one folder deeper exists iff that item is a folder, and designates its items |
| ListAddress.ReplaceThenRead | floccus-cli/src/main.rs:323-366 | after writing through the resolved list, that list reads back as written |
| ListAddress.ReadThenReplace | floccus-cli/src/main.rs:323-366 | writing the resolved list back unchanged leaves the tree unchanged |
| ListAddress.ReplaceKeepsOthers | floccus-cli/src/main.rs:323-366 | a write through one list leaves every list off its path unchanged |
| ListAddress.ReplaceKeepsAncestors | floccus-cli/src/main.rs:339-352 | the folders on the path keep their id, title and siblings |
| ListAddress.ReplaceFrame | floccus-cli/src/main.rs:323-366 | a write through one list reads back as written, and every list off its line is unchanged |
| ListAddress.ReplaceIdBag | floccus-cli/src/main.rs:323-366 | the ids of the tree change by exactly the ids of the replaced and replacing lists |
| ListAddress.ReplaceSize | floccus-cli/src/main.rs:323-366 | the walk length changes by the difference of the two lists' walks |
| ListAddress.IdsOfMember | floccus-xbel/src/xbel_format.rs:75-80 | an id is listed iff some item has it |
| ListAddress.AddressedInPreorder | floccus-xbel/src/xbel_format.rs:163-233 | an item at an address is met by the walk |
| ListAddress.PreorderAddressed | floccus-xbel/src/xbel_format.rs:163-233 | every item met by the walk sits at some address |
| ListAddress.IdsValidAt | floccus-xbel/src/xbel_format.rs:171 | ids that all parse still all parse in any sub-list |
| Resolver.Resolve | floccus-xbel/src/xbel_format.rs:163-233 | definition of `get_items_mut`: `Root` is `(0, [])`, `Id(n)` the id search and `Path(s)` the segment search, both from the queue holding the top-level list; `ResolveValid`, `ResolveIdFirst`, `ResolveIdNone` and `ResolvePathTitle` state the results |
| Resolver.IdBfs | floccus-xbel/src/xbel_format.rs:166-194 | definition of the `Id` arm's deque loop: pop the front list, return its first index with id n, else push its folders' lists and go on; `None` on an empty queue |
| Resolver.PathBfs | floccus-xbel/src/xbel_format.rs:195-231 | definition of the `Path` arm's deque loop: search the front list for the current segment's title, return on the last segment, else move to the next segment and push the folders of that list |
| Resolver.FirstHit | floccus-xbel/src/xbel_format.rs:170-177 | the first index whose id or title matches, or none when no index matches |
| Resolver.BeforeTransitive | floccus-xbel/src/xbel_format.rs:167-168 | the queue's level order on list addresses is transitive |
| Resolver.BeforeIrreflexive | floccus-xbel/src/xbel_format.rs:167-168 | and irreflexive |
| Resolver.Split | floccus-xbel/src/xbel_format.rs:196 | `split('/')` gives at least one piece |
| Resolver.SplitJoin | floccus-xbel/src/xbel_format.rs:196 | joining the pieces with `/` gives the string back and no piece holds `/` |
| Resolver.FrontierStep | floccus-xbel/src/xbel_format.rs:168-191 | one pop-and-push step keeps the queue sorted in level order and covering every unvisited list |
| Resolver.FrontierBeforeFront | floccus-xbel/src/xbel_format.rs:168-191 | every list earlier in level order than the queue's front has been searched |
| Resolver.ResolveIdFirst | floccus-xbel/src/xbel_format.rs:166-194 | `Id(n)` gives `(i, L)` with `L[i]` of id n, no earlier index of `L` with it, no earlier list in level order with it |
| Resolver.ResolveIdNone | floccus-xbel/src/xbel_format.rs:166-194 | `Id(n)` gives nothing iff no item of the tree has id n |
| Resolver.PathBfsLocates | floccus-xbel/src/xbel_format.rs:199-231 | from any queue and segment counter, a result's item has the last segment as title and is the first such index |
| Resolver.ResolvePathTitle | floccus-xbel/src/xbel_format.rs:195-231 | `Path(s)` gives `(i, L)` with `L[i]` titled as the last segment, folder or bookmark, first such index |
| Resolver.PathMatchesOutsideFolder | floccus-xbel/src/xbel_format.rs:211-227 | "a/b" resolves to a "b" inside a folder other than "a" |
| Resolver.ResolveValid | floccus-xbel/src/xbel_format.rs:163-233 | every result designates a list of the tree and an index inside it; `Root` is `(0, top-level list)`, even when that list is empty |
| XbelFormat.FindIndex | floccus-xbel/src/xbel_format.rs:170-177 | the loop computes the first matching index |
| XbelFormat.PushFolders | floccus-xbel/src/xbel_format.rs:183-190 | the queue gains the addresses of the list's folders, in order |
| XbelFormat.Xbel.constructor | floccus-xbel/src/xbel_format.rs:143-148 | version "1.0" and the given items, or none |
| XbelFormat.Xbel.GetItemsMut | floccus-xbel/src/xbel_format.rs:163-233 | the queue loops compute exactly `Resolve` |
| Traversal.WithEnds | floccus-xbel/src/xbel_format.rs:416-452 | definition of the order `XbelNestingIterator` yields: an item, then for a folder its items' walk and its `End`, then the later siblings; `Traversal.CollectNesting` ties it to the iterator |
| Traversal.Wrap | floccus-xbel/src/xbel_format.rs:436-440 | each top-level item queued as an `Item` in order |
| Traversal.StripWithEnds | floccus-xbel/src/xbel_format.rs:432-452 | dropping the `End` markers of the nesting walk gives the flat walk |
| Traversal.EndsCountFolders | floccus-xbel/src/xbel_format.rs:443-448 | the nesting walk yields one `End` per folder |
| Traversal.WithEndsBalanced | floccus-xbel/src/xbel_format.rs:443-448 | no prefix of the nesting walk closes more folders than it opened, and the whole closes all |
| Traversal.XbelIterator.constructor | floccus-xbel/src/xbel_format.rs:378-384 | a fresh iterator has the whole pre-order walk ahead |
| Traversal.XbelIterator.Next | floccus-xbel/src/xbel_format.rs:390-404 | yields the next item of the pre-order walk, then `None` |
| Traversal.XbelNestingIterator.constructor | floccus-xbel/src/xbel_format.rs:423-429 | a fresh iterator has the whole nesting walk ahead |
| Traversal.XbelNestingIterator.Next | floccus-xbel/src/xbel_format.rs:435-451 | yields the next item or `End` of the nesting walk, then `None` |
| Traversal.CollectItems | floccus-xbel/src/xbel_format.rs:387-405 | draining the flat iterator yields exactly `Preorder` |
| Traversal.CollectNesting | floccus-xbel/src/xbel_format.rs:432-452 | draining the nesting iterator yields exactly `WithEnds` |
| Traversal.HighestIdByWalk | floccus-xbel/src/xbel_format.rs:150-160 | folding over the iterator computes `HighestId` |
| Serializer.HighestIdComment | floccus-xbel/src/xbel_format.rs:245-248 | definition of the comment text `- highestId :N: for Floccus bookmark sync browser extension `; `HighestIdCommentReads` states that it reads back as N |
| Serializer.ItemsEvents | floccus-xbel/src/xbel_format.rs:314-359 | definition of the events `write_xbel_item` writes per item, in sibling order; `ItemsEventsNest` and `StartIdsPreorder` state their nesting and order |
| Serializer.EventWriter.WriteEvent | floccus-xbel/src/xbel_format.rs:249-254 | an event is appended to the writer |
| Serializer.WriteXbelItem | floccus-xbel/src/xbel_format.rs:314-359 | the writer gains the item's events: start tag with attributes, title, children, end tag |
| Serializer.WriteXbelItems | floccus-xbel/src/xbel_format.rs:256-258 | the writer gains the events of the items in order |
| Serializer.ItemsEventsNest | floccus-xbel/src/xbel_format.rs:314-359 | every start tag is closed by the matching end tag, in nesting order |
| Serializer.StartIdsPreorder | floccus-xbel/src/xbel_format.rs:314-359 | the ids on the start tags come in pre-order |
| Serializer.ReadHighestId | floccus-xbel/src/xbel_format.rs:245-248 | reading the number back from a highest-id comment gives a u64 |
| Serializer.HighestIdCommentReads | floccus-xbel/src/xbel_format.rs:245-248 | the comment written for h reads back as h |
| Serializer.WriteDocument | floccus-xbel/src/xbel_format.rs:240-278 | fixed XML header and `<xbel version="1.0">` (whatever the version field), the comment, a blank text, the item events, `</xbel>` |
| Serializer.DocumentBody | floccus-xbel/src/xbel_format.rs:244-258 | the document body's comment reads back as the highest id, its tags balance, its start ids are in pre-order |
| XbelLegacy.StartTagOf | src/xbel/xbel_format.rs:147 | definition of the old start tag `<xbel version="V">` whose length `add_header` skips |
| XbelLegacy.NewStartTag | src/xbel/xbel_format.rs:149-156 | definition of the new start tag text: a line break, the start tag, the highest-id comment line; `AddHeader` states where it goes |
| XbelLegacy.HeadersAgree | src/xbel/xbel_format.rs:141-144 | the older header is the crate's header without its final newline |
| XbelLegacy.Skip | src/xbel/xbel_format.rs:165 | `chars().skip(n)` drops the first n characters, or all of them |
| XbelLegacy.LegacyXbel.constructor | src/xbel/xbel_format.rs:133-139 | version "1.0" and the given items, or none |
| XbelLegacy.LegacyXbel.GetItemsMut | src/xbel/xbel_format.rs:181-210 | `Root` and `Id(n)` give the same list as the crate's resolver, or nothing when it gives nothing |
| XbelLegacy.LegacyXbel.AddHeader | src/xbel/xbel_format.rs:146-168 | header, new start tag with the highest-id comment, then the buffer less its first start-tag-length characters; starts with the header and keeps the text after a leading start tag |
| CliArgs.StripPrefix | src/cli/cli_args.rs:137-146 | a remainder exactly when the text starts with the prefix, and prefix + remainder is the text |
| CliArgs.FromStr | src/cli/cli_args.rs:124-157 | exactly "root" is `Root`; a path keeps the whole original text; ids are u64 |
| CliArgs.SplitPlacement | src/cli/cli_args.rs:136-147 | definition of the prefix chain `after=`, `before=`, `append=`, `prepend=`, else the whole text with append inside; `SplitPlacementOf` and `SplitPlacementBare` state its cases |
| CliArgs.SplitPlacementOf | src/cli/cli_args.rs:128-147 | each prefix selects its own placement and leaves the text after it |
| CliArgs.SplitPlacementBare | src/cli/cli_args.rs:145-147 | text starting with a digit has no prefix and means append inside |
| CliArgs.FromStrId | src/cli/cli_args.rs:149-150 | a prefix and a printed u64, or the bare u64, parse to that id and placement |
| CliArgs.FromStrFolder | src/cli/cli_args.rs:151-153 | a prefix before a non-number gives a path holding the prefix too |
| CliArgs.FromStrSigns | src/cli/cli_args.rs:149-153 | "-5" is a path, "+5" is id 5, leading zeros are accepted |
| CliArgs.Cli.constructor | src/cli/cli_args.rs:15-37 | the parsed command line's fields |
| CliArgs.MergeDisablePush | src/cli/cli_args.rs:71-85 | the configured flag fills an unset `add`/`rm` flag only |
| CliArgs.OverrideCliWith | src/cli/cli_args.rs:59-87 | nothing changes without git; the url fills a missing one; the name replaces the default only; the push flag as merged |
| CliArgs.OverrideKeepsCommandLineFlag | src/cli/cli_args.rs:259-277 | a `--disable-push` on the command line wins over the configured `false` |
| BookmarkCli.ToXbelPath | floccus-cli/src/main.rs:279-287 | root to root, an id to its id (placement dropped), a path to a path |
| BookmarkCli.VecInsert | floccus-cli/src/main.rs:334 | `insert`: the new item at i, earlier items kept, later ones shifted right |
| BookmarkCli.VecRemove | floccus-cli/src/main.rs:433 | `remove`: earlier items kept, later ones shifted left |
| BookmarkCli.BookmarkAdd | floccus-cli/src/main.rs:304-376 | push without url refused first, whatever the document holds, and tree unchanged; otherwise the tree as the placement rules say, or the error with the tree unchanged |
| BookmarkCli.BookmarkRm | floccus-cli/src/main.rs:393-460 | push without url refused first, whatever the document holds; unresolved address is an error; a dry run changes nothing; otherwise the item is removed |
| BookmarkCli.AddSpec | floccus-cli/src/main.rs:319-366 | definition of the tree after an add: resolve the address, then push, insert at i or i+1, or insert first or push last inside a folder, or the not-found or not-a-folder error; the `AddSpec…` lemmas state what it does |
| BookmarkCli.RemoveSpec | floccus-cli/src/main.rs:406-452 | definition of the tree after a removal: resolve the address and remove index i from the found list, or the not-found error; `RemoveSpecCount` and `RemoveSpecEdit` state what it does |
| BookmarkCli.AddSpecEditBeside | floccus-cli/src/main.rs:328-338 | an add at the top level, before or after writes only the found list, which is the old one with the bookmark pushed, inserted at i or at i+1; every list off its line is unchanged |
| BookmarkCli.AddSpecEditInside | floccus-cli/src/main.rs:339-364 | an add inside a folder writes only that folder's items, which are the old ones with the bookmark first (prepend) or last (append, path); every list off its line is unchanged |
| BookmarkCli.AddSpecCount | floccus-cli/src/main.rs:320-366 | a successful add adds exactly the new bookmark's id and one item to the tree |
| BookmarkCli.AddRaisesHighestId | floccus-cli/src/main.rs:320 | after an add all ids still parse and the highest id is the old one + 1 |
| BookmarkCli.AddPlacesBookmark | floccus-cli/src/main.rs:329-366 | Root: at the end of the top level; Before: at i, target one down; After: at i+1; prepend/append/path: first or last inside the target folder, which keeps its id and title |
| BookmarkCli.AddSpecFails | floccus-cli/src/main.rs:321-366 | an add fails iff the address does not resolve or an inside placement finds a bookmark |
| BookmarkCli.RemoveSpecEdit | floccus-cli/src/main.rs:406-452 | a removal writes only the found list, which is the old one without index i; every list off its line is unchanged |
| BookmarkCli.RemoveSpecCount | floccus-cli/src/main.rs:414-452 | a removal takes out exactly the resolved item's id and, for a folder, its subtree's |
| BookmarkCli.Contains | floccus-cli/src/main.rs:507-510 | definition of `str::contains` by trying each offset; `ContainsIff` states it |
| BookmarkCli.KindOf | floccus-cli/src/main.rs:486-492 | definition: the folder flag wins over the bookmark flag, else all kinds |
| BookmarkCli.WhereOf | floccus-cli/src/main.rs:494-500 | definition: the title flag wins over the url flag, else both are searched |
| BookmarkCli.Keep | floccus-cli/src/main.rs:513-531 | definition of the filter closure: the kind test, then the title, url or either test; `Filter`, `FolderUrlSearch` and `FindAllFolders` state its effect |
| BookmarkCli.ContainsIff | floccus-cli/src/main.rs:507-510 | `contains` holds iff the needle occurs at some offset |
| BookmarkCli.ContainsEmpty | floccus-cli/src/main.rs:507-510 | every string contains the empty needle |
| BookmarkCli.Filter | floccus-cli/src/main.rs:513-532 | keeps exactly the items that pass the kind test and then the where test |
| BookmarkCli.FilterAppend | floccus-cli/src/main.rs:513-532 | filtering keeps the walk order |
| BookmarkCli.FindItems | floccus-cli/src/main.rs:511-533 | the found items are exactly the walked items that pass the filter |
| BookmarkCli.FindItemsAppend | floccus-cli/src/main.rs:511-533 | found items come in pre-order |
| BookmarkCli.FolderUrlSearch | floccus-cli/src/main.rs:508-510 | a folder's url is searched as "": a url-only search finds it iff the needle is empty and folders are wanted |
| BookmarkCli.FindAllFolders | floccus-cli/src/main.rs:486-490 | a folder search for "" finds every folder |
| BookmarkCli.Pluralize | floccus-cli/src/main.rs:571-576 | the word for counts 0 and 1, the word + "s" otherwise |
| BookmarkCli.PrintIndents | floccus-cli/src/main.rs:253-273 | the `usize` counter never goes below 0, is twice the open-folder depth at each event, and ends at 0 |
| Fixtures.BankWalk | floccus-xbel/src/xbel_format.rs:576-619 | the bank document walks ids 1 to 5 and has 3 bookmarks |
| Fixtures.BankNesting | floccus-xbel/src/xbel_format.rs:626-665 | its nesting walk ends folder 2 after bookmark 4 and folder 1 after bookmark 5 |
| Fixtures.BankHighestId | floccus-xbel/src/xbel_format.rs:669-674 | its highest id is 5 |
| Fixtures.BankResolveId4 | floccus-xbel/src/xbel_format.rs:701-709 | `Id(4)` gives index 1 in folder "bank" |
| Fixtures.EmptyDocument | floccus-xbel/src/xbel_format.rs:678-692 | the empty document has highest id 0, resolves no id, and resolves `Root` to index 0 |

## Left out

- XML parsing (`try_from_file`, `from_reader`, the serde derives): done by quick_xml and serde, whose code is not part of this model. No round trip through the real parser is claimed.
- The bytes quick_xml writes for an event (indentation from `Writer::new_with_indent`, escaping in `BytesText::new`): the serializer is modelled as an event stream between the fixed literal prefix and suffix.
- File I/O (`try_to_file`, `to_file`, `std::fs`): the edits are modelled on the loaded document. Errors return before the write. `rm` writes the file back even on a dry run (floccus-cli/src/main.rs:455); the model's document is then unchanged.
- git (floccus-cli/src/git/git_command.rs), `setup_repo`, `init_app`, `main`, config-file discovery and tracing: network, process and file-system effects. `Outcome.pushed` only records whether a push follows.
- clap parsing and `parse_cli_and_override`: `override_cli_with` is modelled on plain records.
- The configuration records of `src/cli/config.rs`: transcribed as the `Git` and `FloccusCliConfig` datatypes, which carry only the fields `override_cli_with` reads.
- Printed text: the `println!` lines of print, find and dry run, `Display for XbelPath`, and the "Found N ..." headings. `Pluralize` and the print counter are modelled; the rest is output formatting.
- XbelTree.HighestId: a malformed id makes `parse::<u64>().unwrap()` panic, so the fold requires every id to parse (`IdsValid`). `BookmarkAdd` requires this only once its push check has passed, as the source reads no id before that.
- XbelFormat.Xbel.GetItemsMut: the `Id` search unwraps the ids only of the lists it pops before the hit, and only up to the hit in the last one (floccus-xbel/src/xbel_format.rs:168-177). The model requires every id of the document to parse, so it excludes a document with a malformed id after the hit, such as `[Bookmark "1", Bookmark "x"]` searched for 1, although the source accepts it.
- XbelLegacy.LegacyXbel.GetItemsMut: the same exclusion for the older copy's `Id` search (src/xbel/xbel_format.rs:184-190).
- BookmarkCli.BookmarkRm: the same exclusion, once the push check has passed, for `rm` of an id.
- XbelTree.NewBookmark: `highest_id + 1` overflows at 2^64 - 1. The model requires the highest id to be below that.
- XbelLegacy.LegacyXbel.GetItemsMut: the `Path` arm panics with `unimplemented!()`, so it is excluded by precondition.
- BookmarkCli.BookmarkRm: `rm` at the top level panics with `unimplemented!()` once the push check has passed, so that case is excluded by precondition.
- XbelLegacy.LegacyXbel.AddHeader: the capacity hint `buffer.len() - xbel_start_tag.len()` underflows and panics (in a debug build) on a buffer shorter than the start tag. Capacity is not modelled, so the model accepts any buffer.
- Aliasing of `&mut Vec<XbelItem>`: each mutation is modelled as reading the list at an address, changing it and writing it back with `ReplaceListAt`.
- src/main.rs calls `get_items_mut` expecting an `(index, list)` pair (src/main.rs:208-210), while the older library copy returns only the list. Its edit rules are modelled against the crate's pair-returning resolver.
- floccus-cli/src/cli/cli_args.rs is not part of this model. Its `Under` and `AddArgs` are taken to have the shape of src/cli/cli_args.rs.
- `XbelItem::get_title` and `get_id`: these are field reads (`x.title`, `x.id`) in the model.
- `saturating_add(1)` on the `After` index: the index is below the list length, so it never saturates. It is modelled as `+ 1`.
