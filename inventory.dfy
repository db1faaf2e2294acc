/** The inventory: which games, players and season tables are already stored. */
module Inventory {
  import opened Wrappers
  import opened DirectoryTree

  datatype Phase = RegularSeason | Playoffs
  datatype Rate = PerGame | PerPossession

  /** Folder names of the storage layout. */
  function PhaseName(phase: Phase): string {
    match phase
    case RegularSeason => "REGULAR_SEASON"
    case Playoffs => "PLAYOFFS"
  }

  function RateName(rate: Rate): string {
    match rate
    case PerGame => "PER_GAME"
    case PerPossession => "PER_POSSESSION"
  }

  function PhaseOf(playoffs: bool): Phase {
    if playoffs then Playoffs else RegularSeason
  }

  /** The seven leaves of the inventory document. Each is the set that `x in leaf` tests. */
  datatype Inventory = Inventory(
    gameRegular: set<string>,
    gamePlayoffs: set<string>,
    player: set<string>,
    perGameRegular: set<string>,
    perGamePlayoffs: set<string>,
    perPossessionRegular: set<string>,
    perPossessionPlayoffs: set<string>)
  {
    /** `inventory["GAME"][phase]`. */
    function Game(phase: Phase): set<string> {
      match phase
      case RegularSeason => gameRegular
      case Playoffs => gamePlayoffs
    }

    /** `inventory["SEASON"][rate][phase]`. */
    function Season(rate: Rate, phase: Phase): set<string> {
      match (rate, phase)
      case (PerGame, RegularSeason) => perGameRegular
      case (PerGame, Playoffs) => perGamePlayoffs
      case (PerPossession, RegularSeason) => perPossessionRegular
      case (PerPossession, Playoffs) => perPossessionPlayoffs
    }
  }

  function GamePath(phase: Phase): seq<string> { ["GAME", PhaseName(phase)] }
  function PlayerPath(): seq<string> { ["PLAYER"] }
  function SeasonPath(rate: Rate, phase: Phase): seq<string> { ["SEASON", RateName(rate), PhaseName(phase)] }

  /** The names stored at `path` in the loaded inventory document. */
  function Leaf(t: Tree, path: seq<string>): Result<set<string>, Exception> {
    match LookupPath(t, path)
    case Success(s) => Success(Entries(s))
    case Failure(e) => Failure(e)
  }

  /** Reading the seven leaves out of the document `build_directory_tree` produced; a missing
      key is a KeyError and a level that collapsed to a list is a TypeError. */
  function FromTree(t: Tree): Result<Inventory, Exception> {
    var gameRegular :- Leaf(t, GamePath(RegularSeason));
    var gamePlayoffs :- Leaf(t, GamePath(Playoffs));
    var player :- Leaf(t, PlayerPath());
    var perGameRegular :- Leaf(t, SeasonPath(PerGame, RegularSeason));
    var perGamePlayoffs :- Leaf(t, SeasonPath(PerGame, Playoffs));
    var perPossessionRegular :- Leaf(t, SeasonPath(PerPossession, RegularSeason));
    var perPossessionPlayoffs :- Leaf(t, SeasonPath(PerPossession, Playoffs));
    Success(Inventory(gameRegular, gamePlayoffs, player,
                      perGameRegular, perGamePlayoffs, perPossessionRegular, perPossessionPlayoffs))
  }

  /** `leaf` is exactly the set of subdirectory names of the folder at `path` under `root`. */
  ghost predicate Records(root: Node, path: seq<string>, leaf: set<string>)
    requires root.Dir? && WellFormed(root)
  {
    FolderAt(root, path).Some? && leaf == DirNames(FolderAt(root, path).value)
  }

  /** Each field of a successfully read inventory is the leaf at its path. */
  lemma FromTreeLeaves(t: Tree)
    requires FromTree(t).Success?
    ensures forall phase :: Leaf(t, GamePath(phase)) == Success(FromTree(t).value.Game(phase))
    ensures Leaf(t, PlayerPath()) == Success(FromTree(t).value.player)
    ensures forall rate, phase :: Leaf(t, SeasonPath(rate, phase)) == Success(FromTree(t).value.Season(rate, phase))
  {
    var inv := FromTree(t).value;
    forall phase ensures Leaf(t, GamePath(phase)) == Success(inv.Game(phase)) {
      if phase == RegularSeason { assert Leaf(t, GamePath(phase)).Success?; }
    }
  }

  lemma LeafRecords(root: Node, path: seq<string>)
    requires root.Dir? && WellFormed(root)
    requires Leaf(Build(root), path).Success?
    ensures Records(root, path, Leaf(Build(root), path).value)
  {
    LookupFindsFolder(root, path);
  }

  /** An inventory read back from the directory tree records, in every leaf, exactly the folders
      stored at that place in the storage layout. */
  lemma FromTreeRecordsFolders(root: Node)
    requires root.Dir? && WellFormed(root)
    requires FromTree(Build(root)).Success?
    ensures forall phase :: Records(root, GamePath(phase), FromTree(Build(root)).value.Game(phase))
    ensures Records(root, PlayerPath(), FromTree(Build(root)).value.player)
    ensures forall rate, phase ::
      Records(root, SeasonPath(rate, phase), FromTree(Build(root)).value.Season(rate, phase))
  {
    var t := Build(root);
    FromTreeLeaves(t);
    forall phase ensures Records(root, GamePath(phase), FromTree(t).value.Game(phase)) {
      LeafRecords(root, GamePath(phase));
    }
    LeafRecords(root, PlayerPath());
    forall rate, phase ensures Records(root, SeasonPath(rate, phase), FromTree(t).value.Season(rate, phase)) {
      LeafRecords(root, SeasonPath(rate, phase));
    }
  }

  /** The collapse rule hides the schema: when `SEASON/PER_GAME` holds only empty folders (no
      per-game season table stored yet in either phase), `inventory["SEASON"]["PER_GAME"]` is a list,
      so the lookup `inventory["SEASON"]["PER_GAME"][season_grain]` that `get_season_list` and the
      per-game comprehensions make raises `TypeError`. */
  lemma EmptyPerGameFoldersTypeError(root: Node, phase: Phase)
    requires root.Dir? && WellFormed(root)
    requires FolderAt(root, ["SEASON", "PER_GAME"]).Some?
    requires forall c :: c in Subdirs(FolderAt(root, ["SEASON", "PER_GAME"]).value.children) ==> Subdirs(c.children) == []
    ensures Leaf(Build(root), SeasonPath(PerGame, phase)).Failure?
    ensures Leaf(Build(root), SeasonPath(PerGame, phase)).error.kind == TypeError
  {
    CollapseRule(FolderAt(root, ["SEASON", "PER_GAME"]).value);
    assert SeasonPath(PerGame, phase) == ["SEASON", "PER_GAME"] + [PhaseName(phase)];
    LookupBelowListFails(root, ["SEASON", "PER_GAME"], PhaseName(phase));
  }
}
