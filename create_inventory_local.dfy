/** `get_data_to_pull` of src/inventory/create_inventory.py: the manifest built from the local
    `get_season_list` and `process_seasons`, written without any empty-list substitution. */
module LocalCreateInventory {
  import opened Wrappers
  import opened Seqs
  import opened Dicts
  import opened Seasons
  import opened Inventory
  import opened InventoryUtils
  import opened Manifest

  /** The two season lists, the two `process_seasons` calls and the dict literal, in source order;
      the first call that raises decides the outcome. */
  function Plan(earliest: int, today: Date, inv: Inventory,
                roster: (string, bool) -> Result<seq<PlayerGame>, Exception>): Result<Manifest, Exception>
  {
    var seasonsRegular :- GetSeasonList(earliest, today, inv, false);
    var seasonsPlayoffs :- GetSeasonList(earliest, today, inv, true);
    var regular :- ProcessSeasonsSpec(seasonsRegular, false, roster);
    var playoffs :- ProcessSeasonsSpec(seasonsPlayoffs, true, roster);
    Success(Assemble(ExpectedKeys(earliest, SeasonYear(today)), inv, regular.gameIds, playoffs.gameIds, regular.playerIds))
  }

  /** The command completes exactly when neither per-game leaf already holds every expected season
      and every season fetch of both phases succeeds. */
  lemma PlanSucceeds(earliest: int, today: Date, inv: Inventory,
                     roster: (string, bool) -> Result<seq<PlayerGame>, Exception>)
    ensures var a, b := GetSeasonList(earliest, today, inv, false), GetSeasonList(earliest, today, inv, true);
      Plan(earliest, today, inv, roster).Success? <==>
        && a.Success? && b.Success?
        && (forall i :: 0 <= i < |a.value| ==> roster(a.value[i], false).Success?)
        && (forall i :: 0 <= i < |b.value| ==> roster(b.value[i], true).Success?)
  {
    var a, b := GetSeasonList(earliest, today, inv, false), GetSeasonList(earliest, today, inv, true);
    if a.Success? && b.Success? {
      ProcessSeasonsSucceeds(a.value, false, roster);
      ProcessSeasonsSucceeds(b.value, true, roster);
    }
  }

  /** A per-game leaf holding every expected season makes `get_season_list` raise, so the command
      fails with that `TypeError` before anything is fetched or written. */
  lemma PlanRaisesOnCompletePerGameLeaf(earliest: int, today: Date, inv: Inventory,
                                        roster: (string, bool) -> Result<seq<PlayerGame>, Exception>, phase: Phase)
    requires forall k :: k in ExpectedKeys(earliest, SeasonYear(today)) ==> k in inv.Season(PerGame, phase)
    ensures Plan(earliest, today, inv, roster) == Failure(ListPlusInt)
  {
    assert PhaseOf(phase == Playoffs) == phase;
  }

  /** No substitution: every written season list holds the keys of exactly the years its own leaf
      lacks, in ascending order, so a fully inventoried per-possession grain is written as `[]`. */
  lemma PlanSeasonLists(earliest: int, today: Date, inv: Inventory,
                        roster: (string, bool) -> Result<seq<PlayerGame>, Exception>, rate: Rate, phase: Phase)
    ensures var r := Plan(earliest, today, inv, roster);
      r.Success? ==>
        r.value.season.Get(rate, phase) == SeasonKeys(MissingYears(earliest, SeasonYear(today), inv.Season(rate, phase)))
    ensures var r := Plan(earliest, today, inv, roster);
      r.Success? ==>
        (r.value.season.Get(rate, phase) == [] <==>
          forall k :: k in ExpectedKeys(earliest, SeasonYear(today)) ==> k in inv.Season(rate, phase))
  {
    var r := Plan(earliest, today, inv, roster);
    if r.Success? {
      var expected := ExpectedKeys(earliest, SeasonYear(today));
      var m := r.value;
      PlanParts(earliest, today, inv, roster, RegularSeason);
      AssembleSeasonYears(earliest, SeasonYear(today), inv, m.gameRegular, m.gamePlayoffs, m.player, rate, phase);
      AssembleSeasonContents(expected, inv, m.gameRegular, m.gamePlayoffs, m.player, rate, phase);
    }
  }

  /** In a completed run the per-game lists are never empty: `get_season_list` would have raised. */
  lemma PlanPerGameNonEmpty(earliest: int, today: Date, inv: Inventory,
                            roster: (string, bool) -> Result<seq<PlayerGame>, Exception>, phase: Phase)
    ensures var r := Plan(earliest, today, inv, roster);
      r.Success? ==> r.value.season.Get(PerGame, phase) != []
  {
    var r := Plan(earliest, today, inv, roster);
    if r.Success? {
      assert PhaseOf(phase == Playoffs) == phase;
      PlanSeasonLists(earliest, today, inv, roster, PerGame, phase);
    }
  }

  /** What a completed run writes, call by call: the season lists of the expected keys, and for each
      phase the game map `process_seasons` returned on that phase's season list. */
  lemma PlanParts(earliest: int, today: Date, inv: Inventory,
                  roster: (string, bool) -> Result<seq<PlayerGame>, Exception>, phase: Phase)
    ensures var r := Plan(earliest, today, inv, roster);
      var a := GetSeasonList(earliest, today, inv, phase == Playoffs);
      r.Success? ==>
        && r.value.season == MissingSeasons(ExpectedKeys(earliest, SeasonYear(today)), inv)
        && a.Success?
        && ProcessSeasonsSpec(a.value, phase == Playoffs, roster).Success?
        && r.value.Game(phase) == ProcessSeasonsSpec(a.value, phase == Playoffs, roster).value.gameIds
  {
  }

  /** The game section is keyed by exactly the four-digit years whose per-game key is missing, each
      holding the unique game IDs fetched for that year, for both phases. */
  lemma PlanGames(earliest: int, today: Date, inv: Inventory,
                  roster: (string, bool) -> Result<seq<PlayerGame>, Exception>, phase: Phase)
    requires 1000 <= earliest && SeasonYear(today) <= 9999
    ensures var r := Plan(earliest, today, inv, roster);
      var years := YearStrings(MissingYears(earliest, SeasonYear(today), inv.Season(PerGame, phase)));
      r.Success? ==>
        && DistinctKeys(r.value.Game(phase))
        && Keys(r.value.Game(phase)) == SeasonSet(years)
        && (forall i :: 0 <= i < |years| ==>
              roster(years[i], phase == Playoffs).Success? &&
              Get(r.value.Game(phase), years[i]) == Some(Unique(GameColumn(roster(years[i], phase == Playoffs).value))))
  {
    var playoffs := phase == Playoffs;
    assert PhaseOf(playoffs) == phase;
    PlanParts(earliest, today, inv, roster, phase);
    GetSeasonListYears(earliest, today, inv, playoffs);
    var a := GetSeasonList(earliest, today, inv, playoffs);
    if a.Success? {
      ProcessSeasonsGames(a.value, playoffs, roster);
    }
  }

  /** The player list holds exactly the regular-season player IDs fetched that the player leaf
      lacks; playoff rosters contribute nothing. */
  lemma PlanPlayers(earliest: int, today: Date, inv: Inventory,
                    roster: (string, bool) -> Result<seq<PlayerGame>, Exception>)
    ensures var r := Plan(earliest, today, inv, roster);
      var a := GetSeasonList(earliest, today, inv, false);
      r.Success? ==>
        && a.Success?
        && forall x :: x in r.value.player <==>
             x !in inv.player &&
             exists i :: 0 <= i < |a.value| && roster(a.value[i], false).Success? &&
               x in PlayerColumn(roster(a.value[i], false).value)
  {
    var r := Plan(earliest, today, inv, roster);
    if r.Success? {
      var seasons := GetSeasonList(earliest, today, inv, false).value;
      var regular := ProcessSeasonsSpec(seasons, false, roster).value;
      ProcessSeasonsPlayers(seasons, false, roster);
      AssemblePlayersAndGames(ExpectedKeys(earliest, SeasonYear(today)), inv, r.value.gameRegular,
                              r.value.gamePlayoffs, regular.playerIds);
    }
  }
}
