/** `get_data_to_pull` of src/nba_data_pull/inventory/create_inventory.py: the same manifest as the
    local copy, after which every empty season list is replaced by the current season's key. The
    game maps and player IDs come from a `process_seasons` this model does not see, so they are
    parameters. */
module S3CreateInventory {
  import opened Seqs
  import opened Dicts
  import opened Seasons
  import opened Inventory
  import InventoryUtils
  import opened Manifest

  /** `if not l: l = [key]`. */
  function Fallback(l: seq<string>, key: string): seq<string> {
    if l == [] then [key] else l
  }

  /** The four `if not ...` reassignments applied to the season section. */
  function FillEmpty(lists: SeasonLists, key: string): SeasonLists {
    SeasonLists(
      Fallback(lists.perGameRegular, key),
      Fallback(lists.perGamePlayoffs, key),
      Fallback(lists.perPossessionRegular, key),
      Fallback(lists.perPossessionPlayoffs, key))
  }

  /** The manifest the command uploads. */
  function Plan(earliest: int, today: Date, inv: Inventory, gamesRegular: Dict<seq<string>>,
                gamesPlayoffs: Dict<seq<string>>, playersRegular: seq<string>): Manifest
  {
    var m := Assemble(ExpectedKeys(earliest, SeasonYear(today)), inv, gamesRegular, gamesPlayoffs, playersRegular);
    m.(season := FillEmpty(m.season, CurrentSeasonKey(today)))
  }

  /** The dict is built, then patched in place one season list at a time. */
  method GetDataToPull(earliest: int, today: Date, inv: Inventory, gamesRegular: Dict<seq<string>>,
                       gamesPlayoffs: Dict<seq<string>>, playersRegular: seq<string>) returns (m: Manifest)
    ensures m == Plan(earliest, today, inv, gamesRegular, gamesPlayoffs, playersRegular)
  {
    m := Assemble(ExpectedKeys(earliest, SeasonYear(today)), inv, gamesRegular, gamesPlayoffs, playersRegular);
    var current := CurrentSeasonKey(today);
    if m.season.perGameRegular == [] {
      m := m.(season := m.season.(perGameRegular := [current]));
    }
    if m.season.perGamePlayoffs == [] {
      m := m.(season := m.season.(perGamePlayoffs := [current]));
    }
    if m.season.perPossessionRegular == [] {
      m := m.(season := m.season.(perPossessionRegular := [current]));
    }
    if m.season.perPossessionPlayoffs == [] {
      m := m.(season := m.season.(perPossessionPlayoffs := [current]));
    }
  }

  /** Each uploaded season list is the keys of the years its own leaf lacks, in ascending order, or
      the current season's key alone when that leaf lacks none; so no uploaded list is empty. */
  lemma PlanSeasonLists(earliest: int, today: Date, inv: Inventory, gamesRegular: Dict<seq<string>>,
                        gamesPlayoffs: Dict<seq<string>>, playersRegular: seq<string>, rate: Rate, phase: Phase)
    ensures var l := Plan(earliest, today, inv, gamesRegular, gamesPlayoffs, playersRegular).season.Get(rate, phase);
      var ys := InventoryUtils.MissingYears(earliest, SeasonYear(today), inv.Season(rate, phase));
      l == if ys == [] then [CurrentSeasonKey(today)] else SeasonKeys(ys)
    ensures Plan(earliest, today, inv, gamesRegular, gamesPlayoffs, playersRegular).season.Get(rate, phase) != []
  {
    AssembleSeasonYears(earliest, SeasonYear(today), inv, gamesRegular, gamesPlayoffs, playersRegular, rate, phase);
  }

  /** The substitution leaves a non-empty list as the comprehension built it. */
  lemma PlanKeepsNonEmpty(earliest: int, today: Date, inv: Inventory, gamesRegular: Dict<seq<string>>,
                          gamesPlayoffs: Dict<seq<string>>, playersRegular: seq<string>, rate: Rate, phase: Phase)
    requires Assemble(ExpectedKeys(earliest, SeasonYear(today)), inv, gamesRegular, gamesPlayoffs, playersRegular)
               .season.Get(rate, phase) != []
    ensures Plan(earliest, today, inv, gamesRegular, gamesPlayoffs, playersRegular).season.Get(rate, phase)
         == Assemble(ExpectedKeys(earliest, SeasonYear(today)), inv, gamesRegular, gamesPlayoffs, playersRegular)
              .season.Get(rate, phase)
  {
  }

  /** A leaf already holding every expected key yields the current season's key alone. */
  lemma PlanCompleteLeaf(earliest: int, today: Date, inv: Inventory, gamesRegular: Dict<seq<string>>,
                         gamesPlayoffs: Dict<seq<string>>, playersRegular: seq<string>, rate: Rate, phase: Phase)
    requires forall k :: k in ExpectedKeys(earliest, SeasonYear(today)) ==> k in inv.Season(rate, phase)
    ensures Plan(earliest, today, inv, gamesRegular, gamesPlayoffs, playersRegular).season.Get(rate, phase)
         == [CurrentSeasonKey(today)]
  {
    AssembleSeasonContents(ExpectedKeys(earliest, SeasonYear(today)), inv, gamesRegular, gamesPlayoffs,
                           playersRegular, rate, phase);
  }

  /** Starting after the current season leaves nothing expected: all four lists become the current
      season's key alone, whatever the inventory holds. */
  lemma PlanLateStart(earliest: int, today: Date, inv: Inventory, gamesRegular: Dict<seq<string>>,
                      gamesPlayoffs: Dict<seq<string>>, playersRegular: seq<string>)
    requires earliest > SeasonYear(today)
    ensures var s := Plan(earliest, today, inv, gamesRegular, gamesPlayoffs, playersRegular).season;
      var current := [CurrentSeasonKey(today)];
      && s.perGameRegular == current && s.perGamePlayoffs == current
      && s.perPossessionRegular == current && s.perPossessionPlayoffs == current
  {
    assert ExpectedKeys(earliest, SeasonYear(today)) == [];
  }

  /** The substitution touches the season section only: the player list keeps the regular-season IDs
      the player leaf lacks, and the game maps pass through unfiltered. */
  lemma PlanPlayersAndGames(earliest: int, today: Date, inv: Inventory, gamesRegular: Dict<seq<string>>,
                            gamesPlayoffs: Dict<seq<string>>, playersRegular: seq<string>)
    ensures var m := Plan(earliest, today, inv, gamesRegular, gamesPlayoffs, playersRegular);
      && (forall x :: x in m.player <==> x in playersRegular && x !in inv.player)
      && m.Game(RegularSeason) == gamesRegular && m.Game(Playoffs) == gamesPlayoffs
  {
    AssemblePlayersAndGames(ExpectedKeys(earliest, SeasonYear(today)), inv, gamesRegular, gamesPlayoffs, playersRegular);
  }
}
