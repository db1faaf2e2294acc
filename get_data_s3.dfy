/** `get_game_data` and `get_season_data` of src/nba_data_pull/data_pull/get_data.py: the S3 fetch
    commands. Construction and saving both sit inside the `try`. The game loops log every failure and
    go on; the season loops' handler writes into a key of the log that does not exist yet, so their
    first failure aborts the command with a `KeyError`. */
module S3GetData {
  import opened Wrappers
  import opened Seqs
  import opened Dicts
  import opened Seasons
  import opened Inventory
  import opened Manifest
  import opened Ingestion
  import opened SeasonFetch

  /** `if not season_year: season_year = str(SeasonYear.default)`: a missing or empty argument means
      the current season year. */
  function SeasonYearArg(arg: Option<string>, today: Date): (y: string)
    ensures arg.Some? && arg.value != "" ==> y == arg.value
    ensures (arg.None? || arg.value == "") && SeasonYear(today) >= 0 ==> ParseNat(y) == SeasonYear(today)
  {
    if arg.None? || arg.value == "" then
      ParseNatToString(if SeasonYear(today) >= 0 then SeasonYear(today) else 0);
      IntToString(SeasonYear(today))
    else arg.value
  }

  /** `[g for g in listed[season_year] if g not in inventoried]`: `KeyError` when the manifest lists
      no games for that season year. */
  function GamesToPull(listed: Dict<seq<string>>, seasonYear: string, inventoried: set<string>): (r: Result<seq<string>, Exception>)
    ensures r.Failure? <==> seasonYear !in Keys(listed)
    ensures r.Failure? ==> r.error == MissingKey(seasonYear)
    ensures r.Success? ==>
      && |r.value| <= |Get(listed, seasonYear).value|
      && (forall g :: g in r.value <==> g in Get(listed, seasonYear).value && g !in inventoried)
      && r.value == Without(Get(listed, seasonYear).value, inventoried)
  {
    match Get(listed, seasonYear)
    case None => Failure(MissingKey(seasonYear))
    case Some(ids) => Success(Without(ids, inventoried))
  }

  /** One phase's game loop: nothing skipped, every failure logged under the phase. */
  function GameLoop(ids: seq<string>, phase: Phase): Loop<GameRequest> {
    Loop(PhaseKey(phase), ids, (id: string) => false, (id: string) => GameRequest(id, phase), CatchAll)
  }

  /** `get_game_data`: both to-pull lists are computed before any game is fetched. */
  function GetGameData(m: Manifest, inv: Inventory, arg: Option<string>, today: Date,
                       ingest: GameRequest -> Ingest): Run<GameRequest>
  {
    var y := SeasonYearArg(arg, today);
    match GamesToPull(m.gameRegular, y, inv.Game(RegularSeason))
    case Failure(e) => Run([], [], Some(e))
    case Success(regular) =>
      match GamesToPull(m.gamePlayoffs, y, inv.Game(Playoffs))
      case Failure(e) => Run([], [], Some(e))
      case Success(playoffs) => Passes(GameLoops(regular, playoffs), ingest)
  }

  /** The two game loops, regular season first. */
  function GameLoops(regular: seq<string>, playoffs: seq<string>): (loops: seq<Loop<GameRequest>>)
    ensures |loops| == 2 && loops[0] == GameLoop(regular, RegularSeason) && loops[1] == GameLoop(playoffs, Playoffs)
  {
    [GameLoop(regular, RegularSeason), GameLoop(playoffs, Playoffs)]
  }

  /** The to-pull list of a phase. */
  function ToPull(m: Manifest, inv: Inventory, y: string, phase: Phase): Result<seq<string>, Exception> {
    GamesToPull(m.Game(phase), y, inv.Game(phase))
  }

  /** The command either stops on the first missing season year or runs both loops. */
  lemma GameDataCases(m: Manifest, inv: Inventory, arg: Option<string>, today: Date, ingest: GameRequest -> Ingest)
    ensures var r, y := GetGameData(m, inv, arg, today, ingest), SeasonYearArg(arg, today);
      var reg, po := ToPull(m, inv, y, RegularSeason), ToPull(m, inv, y, Playoffs);
      r == if reg.Failure? then Run([], [], Some(reg.error))
           else if po.Failure? then Run([], [], Some(po.error))
           else Passes(GameLoops(reg.value, po.value), ingest)
  {
  }

  /** A phase's loop requests exactly that phase's listed IDs, and never raises. */
  lemma GameLoopCalls(ids: seq<string>, phase: Phase, ingest: GameRequest -> Ingest, q: GameRequest)
    ensures var p := PassOf(GameLoop(ids, phase), ingest);
      p.raised.None? && (q in p.calls <==> q.phase == phase && q.gameId in ids)
  {
    var l := GameLoop(ids, phase);
    PassCatchAllCompletes(l.ids, l.skip, l.request, ingest);
    PassCalls(l.ids, l.skip, l.request, l.policy, ingest);
    RequestsMembers(l.ids, l.skip, l.request, q);
    if q.phase == phase && q.gameId in ids {
      var i :| 0 <= i < |ids| && ids[i] == q.gameId;
      assert l.request(l.ids[i]) == q;
    }
  }

  /** Both game loops run to the end and request exactly their own lists' IDs. */
  lemma GameLoopsCalls(regular: seq<string>, playoffs: seq<string>, ingest: GameRequest -> Ingest, q: GameRequest)
    ensures var r := Passes(GameLoops(regular, playoffs), ingest);
      r.raised.None? && (q in r.calls <==> q.gameId in (if q.phase == RegularSeason then regular else playoffs))
  {
    var loops := GameLoops(regular, playoffs);
    GameLoopCalls(regular, RegularSeason, ingest, q);
    GameLoopCalls(playoffs, Playoffs, ingest, q);
    PassesCompletes(loops, ingest);
    AllCallsMembers(loops, ingest, q);
  }

  /** Each phase's sub-log is its own loop's log. */
  lemma GameLoopsLog(regular: seq<string>, playoffs: seq<string>, ingest: GameRequest -> Ingest, phase: Phase)
    ensures var r := Passes(GameLoops(regular, playoffs), ingest);
      Get(r.log, PhaseKey(phase)) == Some(PassOf(GameLoop(if phase == RegularSeason then regular else playoffs, phase), ingest).log)
  {
    var loops := GameLoops(regular, playoffs);
    GameLoopCalls(regular, RegularSeason, ingest, GameRequest("", phase));
    GameLoopCalls(playoffs, Playoffs, ingest, GameRequest("", phase));
    PassesCompletes(loops, ingest);
    PassesLog(loops, ingest, if phase == RegularSeason then 0 else 1);
  }

  /** The command completes exactly when the manifest lists games for the season year in both
      phases; otherwise it raises `KeyError(season_year)` before fetching anything. */
  lemma GameCompletesRule(m: Manifest, inv: Inventory, arg: Option<string>, today: Date, ingest: GameRequest -> Ingest)
    ensures var r, y := GetGameData(m, inv, arg, today, ingest), SeasonYearArg(arg, today);
      && (r.raised.None? <==> y in Keys(m.gameRegular) && y in Keys(m.gamePlayoffs))
      && (r.raised.Some? ==> r.raised.value == MissingKey(y) && r.calls == [])
  {
    var y := SeasonYearArg(arg, today);
    GameDataCases(m, inv, arg, today, ingest);
    var reg, po := ToPull(m, inv, y, RegularSeason), ToPull(m, inv, y, Playoffs);
    if reg.Success? && po.Success? {
      GameLoopsCalls(reg.value, po.value, ingest, GameRequest("", RegularSeason));
    }
  }

  /** A completed run has requested exactly the games listed for the season year that the
      inventory's game leaf of their phase lacks. */
  lemma GameRequestsRule(m: Manifest, inv: Inventory, arg: Option<string>, today: Date,
                         ingest: GameRequest -> Ingest, q: GameRequest)
    ensures var r, y := GetGameData(m, inv, arg, today, ingest), SeasonYearArg(arg, today);
      r.raised.None? ==>
        && Get(m.Game(q.phase), y).Some?
        && (q in r.calls <==> q.gameId in Get(m.Game(q.phase), y).value && q.gameId !in inv.Game(q.phase))
  {
    var y := SeasonYearArg(arg, today);
    GameDataCases(m, inv, arg, today, ingest);
    var reg, po := ToPull(m, inv, y, RegularSeason), ToPull(m, inv, y, Playoffs);
    if reg.Success? && po.Success? {
      GameLoopsCalls(reg.value, po.value, ingest, q);
      assert ToPull(m, inv, y, q.phase).Success?;
    }
  }

  /** In a completed run `error_log[phase]` holds, once each, exactly the games to pull whose ingest
      raised, in construction or in saving, each with its exception; every other game was fetched. */
  lemma GameLogRule(m: Manifest, inv: Inventory, arg: Option<string>, today: Date,
                    ingest: GameRequest -> Ingest, phase: Phase)
    ensures var r, y := GetGameData(m, inv, arg, today, ingest), SeasonYearArg(arg, today);
      r.raised.None? ==>
        && ToPull(m, inv, y, phase).Success?
        && Get(r.log, PhaseKey(phase)).Some?
        && var log, toPull := Get(r.log, PhaseKey(phase)).value, ToPull(m, inv, y, phase).value;
           && DistinctKeys(log)
           && (forall g :: g in Keys(log) <==> g in toPull && !ingest(GameRequest(g, phase)).Ingested?)
           && (forall g :: g in Keys(log) ==> Get(log, g) == Some(ingest(GameRequest(g, phase)).error))
  {
    var y := SeasonYearArg(arg, today);
    GameDataCases(m, inv, arg, today, ingest);
    var reg, po := ToPull(m, inv, y, RegularSeason), ToPull(m, inv, y, Playoffs);
    if reg.Success? && po.Success? {
      GameLoopsLog(reg.value, po.value, ingest, phase);
      var l := GameLoop(if phase == RegularSeason then reg.value else po.value, phase);
      PassCatchAllCompletes(l.ids, l.skip, l.request, ingest);
      PassLog(l.ids, l.skip, l.request, l.policy, ingest);
    }
  }

  /** Every grain checks its own phase's game IDs for the season's year. */
  function Allowed(m: Manifest): (Phase, string) -> bool {
    (phase: Phase, year: string) => Truthy(m.Game(phase), year)
  }

  function Policies(): (Rate, Phase) -> Policy {
    (rate: Rate, phase: Phase) => CatchAllFailingRecord(GrainKey(rate, phase))
  }

  /** `get_season_data`: the four `save_season_data` calls. */
  function GetSeasonData(m: Manifest, ingest: SeasonRequest -> Ingest): Run<SeasonRequest> {
    Passes(SeasonLoops(m, Allowed(m), Policies()), ingest)
  }

  /** A completed run has built `SeasonIngest(season_id[0:4], ...)` for exactly the listed season IDs
      whose year has game IDs in the manifest for the grain's own phase. */
  lemma SeasonRequestsRule(m: Manifest, ingest: SeasonRequest -> Ingest, q: SeasonRequest)
    ensures var r := GetSeasonData(m, ingest);
      r.raised.None? ==> (q in r.calls <==> Listed(m, q) && Truthy(m.Game(q.phase), q.seasonYear))
  {
    SeasonLoopsRequests(m, Allowed(m), Policies(), ingest, q);
  }

  /** The command completes exactly when every season it does not skip ingests without an error. */
  lemma SeasonAbortRule(m: Manifest, ingest: SeasonRequest -> Ingest)
    ensures GetSeasonData(m, ingest).raised.None? <==>
      forall q :: Listed(m, q) && Truthy(m.Game(q.phase), q.seasonYear) ==> ingest(q).Ingested?
  {
    SeasonLoopsComplete(m, Allowed(m), Policies(), ingest);
  }

  /** A grain under the failing handler raises only `KeyError` naming its own key, and logs
      nothing. */
  lemma GrainFails(m: Manifest, ingest: SeasonRequest -> Ingest, rate: Rate, phase: Phase)
    ensures var p := PassOf(SeasonLoop(m, Allowed(m), Policies(), rate, phase), ingest);
      p.log == [] && (p.raised.Some? ==> p.raised.value == MissingKey(GrainKey(rate, phase)))
  {
    var l := SeasonLoop(m, Allowed(m), Policies(), rate, phase);
    PassFailingRecord(l.ids, l.skip, l.request, GrainKey(rate, phase), ingest);
  }

  /** No failure is ever logged: a run that completes writes four empty sub-logs. */
  lemma SeasonLogRule(m: Manifest, ingest: SeasonRequest -> Ingest, rate: Rate, phase: Phase)
    ensures var r := GetSeasonData(m, ingest);
      r.raised.None? ==> Get(r.log, GrainKey(rate, phase)) == Some([])
  {
    SeasonLoopsLog(m, Allowed(m), Policies(), ingest, rate, phase);
    GrainFails(m, ingest, rate, phase);
  }

  /** A run that does not complete raises `KeyError` naming the key of the grain that failed. */
  lemma SeasonRaisedRule(m: Manifest, ingest: SeasonRequest -> Ingest)
    ensures var r := GetSeasonData(m, ingest);
      r.raised.Some? ==> exists rate: Rate, phase: Phase :: r.raised.value == MissingKey(GrainKey(rate, phase))
  {
    var loops := SeasonLoops(m, Allowed(m), Policies());
    PassesRaisedFrom(loops, ingest);
    var r := GetSeasonData(m, ingest);
    if r.raised.Some? {
      var i :| 0 <= i < |loops| && PassOf(loops[i], ingest).raised == r.raised;
      if i == 0 {
        GrainFails(m, ingest, PerGame, RegularSeason);
      } else if i == 1 {
        GrainFails(m, ingest, PerGame, Playoffs);
      } else if i == 2 {
        GrainFails(m, ingest, PerPossession, RegularSeason);
      } else {
        GrainFails(m, ingest, PerPossession, Playoffs);
      }
    }
  }
}
