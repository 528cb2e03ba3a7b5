/**
 * Command-line records of the binary: the `--under` address syntax parsed by `Under::from_str`,
 * and the overlay of the configuration file onto the parsed command line (`override_cli_with`).
 */
module CliArgs {
  import opened Wrappers
  import opened Decimal

  const CLI_REPOSITORY_NAME_DEFAULT: string := "bookmarks"

  const PLACEMENT_AFTER_PREFIX: string := "after="
  const PLACEMENT_BEFORE_PREFIX: string := "before="
  const PLACEMENT_APPEND_PREFIX: string := "append="
  const PLACEMENT_PREPEND_PREFIX: string := "prepend="

  datatype Placement = Before | After | InFolderPrepend | InFolderAppend

  /** Where to add, or what to remove: the top level, next to or inside an id, or a titled path. */
  datatype Under = Root | Id(n: nat, placement: Placement) | Folder(s: string)

  datatype AddArgs = AddArgs(url: string, title: string, under: Under, disablePush: Option<bool>)
  datatype RemoveArgs = RemoveArgs(under: Under, disablePush: Option<bool>, dryRun: bool)
  datatype FindArgs = FindArgs(title: bool, url: bool, folder: bool, bookmark: bool, find: string)
  datatype Commands = Init | Print | Add(add: AddArgs) | Rm(rm: RemoveArgs) | Find(search: FindArgs)

  /** The `[git]` table of the configuration file. */
  datatype Git = Git(enable: bool, repositoryUrl: Option<string>, repositoryName: Option<string>, disablePush: Option<bool>)
  datatype FloccusCliConfig = FloccusCliConfig(git: Git)

  /** `str::strip_prefix`. */
  function StripPrefix(s: string, p: string): (r: Option<string>)
    ensures r.Some? <==> |p| <= |s| && s[..|p|] == p
    ensures r.Some? ==> s == p + r.value
  {
    if |p| <= |s| && s[..|p|] == p then Some(s[|p|..]) else None
  }

  /** The text after the placement prefix, and the placement it selects (none: append inside). */
  function SplitPlacement(s: string): (string, Placement)
  {
    if StripPrefix(s, PLACEMENT_AFTER_PREFIX).Some? then (StripPrefix(s, PLACEMENT_AFTER_PREFIX).value, After)
    else if StripPrefix(s, PLACEMENT_BEFORE_PREFIX).Some? then (StripPrefix(s, PLACEMENT_BEFORE_PREFIX).value, Before)
    else if StripPrefix(s, PLACEMENT_APPEND_PREFIX).Some? then (StripPrefix(s, PLACEMENT_APPEND_PREFIX).value, InFolderAppend)
    else if StripPrefix(s, PLACEMENT_PREPEND_PREFIX).Some? then (StripPrefix(s, PLACEMENT_PREPEND_PREFIX).value, InFolderPrepend)
    else (s, InFolderAppend)
  }

  /**
   * `Under::from_str`: exactly "root" is the top level; otherwise an id after an optional placement
   * prefix, or else the whole original text as a path. It never fails.
   */
  function FromStr(s: string): (u: Under)
    ensures u.Root? <==> s == "root"
    ensures u.Folder? ==> u.s == s
    ensures u.Id? ==> u.n < U64_LIMIT
  {
    if s == "root" then Root
    else
      var (rem, placement) := SplitPlacement(s);
      match ParseU64(rem)
      case Some(n) => Id(n, placement)
      case None => Folder(s)
  }

  /** The prefix that selects each placement. */
  function PlacementPrefix(p: Placement): string {
    match p
    case After => PLACEMENT_AFTER_PREFIX
    case Before => PLACEMENT_BEFORE_PREFIX
    case InFolderAppend => PLACEMENT_APPEND_PREFIX
    case InFolderPrepend => PLACEMENT_PREPEND_PREFIX
  }

  lemma DigitsHaveNoPrefix(d: string, p: string)
    requires |d| > 0 && IsDigit(d[0]) && |p| > 0 && !IsDigit(p[0])
    ensures StripPrefix(d, p).None?
  {
  }

  /** Each prefix selects its own placement: the prefixes differ within their first two characters. */
  lemma SplitPlacementOf(p: Placement, rem: string)
    ensures SplitPlacement(PlacementPrefix(p) + rem) == (rem, p)
  {
    var s := PlacementPrefix(p) + rem;
    assert s[..|PlacementPrefix(p)|] == PlacementPrefix(p);
    assert s[|PlacementPrefix(p)|..] == rem;
    assert s[0] == PlacementPrefix(p)[0] && s[1] == PlacementPrefix(p)[1];
  }

  lemma SplitPlacementBare(d: string)
    requires |d| > 0 && IsDigit(d[0])
    ensures SplitPlacement(d) == (d, InFolderAppend)
  {
    DigitsHaveNoPrefix(d, PLACEMENT_AFTER_PREFIX);
    DigitsHaveNoPrefix(d, PLACEMENT_BEFORE_PREFIX);
    DigitsHaveNoPrefix(d, PLACEMENT_APPEND_PREFIX);
    DigitsHaveNoPrefix(d, PLACEMENT_PREPEND_PREFIX);
  }

  /** An id printed after any placement prefix, or bare, parses back to that id and placement. */
  lemma FromStrId(n: nat, p: Placement)
    requires n < U64_LIMIT
    ensures FromStr(PlacementPrefix(p) + NatToDecimal(n)) == Id(n, p)
    ensures FromStr(NatToDecimal(n)) == Id(n, InFolderAppend)
  {
    var d := NatToDecimal(n);
    ParsePrinted(n);
    SplitPlacementOf(p, d);
    SplitPlacementBare(d);
    var s := PlacementPrefix(p) + d;
    assert s != "root" by {
      assert |s| > 4 ==> s[4] == PlacementPrefix(p)[4];
    }
    assert d != "root" by {
      assert IsDigit(d[0]);
    }
  }

  /** Text that is not an id after its prefix stays a path, prefix included. */
  lemma FromStrFolder()
    ensures FromStr("after=news") == Folder("after=news")
    ensures FromStr("after=") == Folder("after=")
  {
    SplitPlacementOf(After, "news");
    assert PLACEMENT_AFTER_PREFIX + "news" == "after=news";
    assert ParseU64("news").None? by {
      assert !IsDigit('n');
    }
    SplitPlacementOf(After, "");
    assert PLACEMENT_AFTER_PREFIX + "" == "after=";
  }

  /** A sign is not a placement: "-5" stays a path, "+5" is id 5. Leading zeros are accepted. */
  lemma FromStrSigns()
    ensures FromStr("-5") == Folder("-5")
    ensures FromStr("+5") == Id(5, InFolderAppend)
    ensures FromStr("prepend=007") == Id(7, InFolderPrepend)
  {
    assert SplitPlacement("-5") == ("-5", InFolderAppend);
    assert ParseU64("-5").None? by {
      assert !IsDigit('-');
    }
    assert SplitPlacement("+5") == ("+5", InFolderAppend);
    assert "+5"[1..] == "5" && DigitsValue("5") == 5 by {
      assert "5"[..0] == [];
    }
    SplitPlacementOf(InFolderPrepend, "007");
    assert PLACEMENT_PREPEND_PREFIX + "007" == "prepend=007";
    assert DigitsValue("007") == 7 by {
      assert "007"[..2] == "00" && "00"[..1] == "0" && "0"[..0] == [];
    }
  }

  /** The parsed command line: repository folder, url and local name, and the subcommand. */
  class Cli {
    var repositoryFolder: Option<string>
    var repositoryUrl: Option<string>
    var repositoryName: string
    var command: Commands

    constructor (repositoryFolder: Option<string>, repositoryUrl: Option<string>, repositoryName: string, command: Commands)
      ensures this.repositoryFolder == repositoryFolder && this.repositoryUrl == repositoryUrl
      ensures this.repositoryName == repositoryName && this.command == command
    {
      this.repositoryFolder := repositoryFolder;
      this.repositoryUrl := repositoryUrl;
      this.repositoryName := repositoryName;
      this.command := command;
    }
  }

  /** The configured `disable_push` fills an unset flag of `add` or `rm`; any other command is left as is. */
  function MergeDisablePush(command: Commands, configured: Option<bool>): (r: Commands)
    ensures r.Add? == command.Add? && r.Rm? == command.Rm?
    ensures command.Add? ==> r.add == command.add.(disablePush := if command.add.disablePush.None? then configured else command.add.disablePush)
    ensures command.Rm? ==> r.rm == command.rm.(disablePush := if command.rm.disablePush.None? then configured else command.rm.disablePush)
    ensures !command.Add? && !command.Rm? ==> r == command
  {
    if configured.None? then command
    else match command
      case Add(a) => if a.disablePush.None? then Add(a.(disablePush := configured)) else command
      case Rm(a) => if a.disablePush.None? then Rm(a.(disablePush := configured)) else command
      case _ => command
  }

  /**
   * `override_cli_with`: with git enabled in the configuration, the url is taken from it when the
   * command line has none, the name when the command line kept the default, and `disable_push`
   * when the command line left it unset. With git disabled nothing changes.
   */
  method OverrideCliWith(cli: Cli, config: FloccusCliConfig)
    modifies cli
    ensures unchanged(cli`repositoryFolder)
    ensures !config.git.enable ==> unchanged(cli)
    ensures config.git.enable ==> (cli.repositoryUrl ==
      if old(cli.repositoryUrl).None? then config.git.repositoryUrl else old(cli.repositoryUrl))
    ensures config.git.enable ==> (cli.repositoryName ==
      if old(cli.repositoryName) == CLI_REPOSITORY_NAME_DEFAULT && config.git.repositoryName.Some?
      then config.git.repositoryName.value else old(cli.repositoryName))
    ensures config.git.enable ==> cli.command == MergeDisablePush(old(cli.command), config.git.disablePush)
  {
    if config.git.enable {
      if cli.repositoryUrl.None? {
        cli.repositoryUrl := config.git.repositoryUrl;
      }
      if cli.repositoryName == CLI_REPOSITORY_NAME_DEFAULT && config.git.repositoryName.Some? {
        cli.repositoryName := config.git.repositoryName.value;
      }
      if config.git.disablePush.Some? {
        match cli.command {
          case Add(addArgs) =>
            if addArgs.disablePush.None? {
              cli.command := Add(addArgs.(disablePush := config.git.disablePush));
            }
          case Rm(rmArgs) =>
            if rmArgs.disablePush.None? {
              cli.command := Rm(rmArgs.(disablePush := config.git.disablePush));
            }
          case _ =>
        }
      }
    }
  }

  /**
   * `rm -i 5 --disable-push` with a configuration that enables git and sets `disable_push = false`:
   * the flag given on the command line wins.
   */
  method OverrideKeepsCommandLineFlag() returns (disablePush: Option<bool>)
    ensures disablePush == Some(true)
  {
    var rm := RemoveArgs(FromStr("5"), Some(true), false);
    var cli := new Cli(None, None, CLI_REPOSITORY_NAME_DEFAULT, Rm(rm));
    var config := FloccusCliConfig(Git(true, Some("https://github.com/sydhds/floccus_test.git"), Some("bookmarks"), Some(false)));
    OverrideCliWith(cli, config);
    disablePush := cli.command.rm.disablePush;
  }
}
