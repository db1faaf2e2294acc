/** `get_season_data` and `get_game_data` of src/data_pull/get_data.py: the local fetch commands.
    Only the constructor of each ingest object sits inside the `try`, so a construction failure is
    logged and the loop moves on, while a failure while saving aborts the command. */
module LocalGetData {
  import opened Wrappers
  import opened Dicts
  import opened Seasons
  import opened Inventory
  import opened Manifest
  import opened Ingestion
  import opened SeasonFetch

  /** Only the two playoff grains look for playoff game IDs of the season's year. */
  function Allowed(m: Manifest): (Phase, string) -> bool {
    (phase: Phase, year: string) => phase == RegularSeason || Truthy(m.gamePlayoffs, year)
  }

  function Policies(): (Rate, Phase) -> Policy {
    (rate: Rate, phase: Phase) => CatchConstruct
  }

  /** `get_season_data`: the four grain loops over the manifest's season lists. */
  function GetSeasonData(m: Manifest, ingest: SeasonRequest -> Ingest): Run<SeasonRequest> {
    Passes(SeasonLoops(m, Allowed(m), Policies()), ingest)
  }

  /** A completed run has built `SeasonIngest(season_id[0:4], ...)` for every listed season ID of
      every grain, except that a playoff season is skipped when the manifest has no playoff game IDs
      for its year; regular-season seasons are never checked. */
  lemma SeasonRequestsRule(m: Manifest, ingest: SeasonRequest -> Ingest, q: SeasonRequest)
    ensures var r := GetSeasonData(m, ingest);
      r.raised.None? ==>
        (q in r.calls <==> Listed(m, q) && (q.phase == Playoffs ==> Truthy(m.gamePlayoffs, q.seasonYear)))
  {
    SeasonLoopsRequests(m, Allowed(m), Policies(), ingest, q);
  }

  /** The command aborts exactly when saving raises for some season it does not skip. */
  lemma SeasonAbortRule(m: Manifest, ingest: SeasonRequest -> Ingest)
    ensures GetSeasonData(m, ingest).raised.None? <==>
      forall q :: Listed(m, q) && (q.phase == Playoffs ==> Truthy(m.gamePlayoffs, q.seasonYear)) ==> !ingest(q).SaveRaised?
  {
    SeasonLoopsComplete(m, Allowed(m), Policies(), ingest);
  }

  /** In a completed run `error_log[grain]` holds, once each, exactly the season IDs of that grain
      whose `SeasonIngest` construction raised, each with its exception. */
  lemma SeasonLogRule(m: Manifest, ingest: SeasonRequest -> Ingest, rate: Rate, phase: Phase)
    ensures var r := GetSeasonData(m, ingest);
      var ids := m.season.Get(rate, phase);
      r.raised.None? ==>
        && Get(r.log, GrainKey(rate, phase)).Some?
        && var log := Get(r.log, GrainKey(rate, phase)).value;
           && DistinctKeys(log)
           && (forall id :: id in Keys(log) <==>
                 id in ids && Allowed(m)(phase, Prefix4(id)) &&
                 ingest(SeasonRequest(Prefix4(id), rate, phase)).ConstructRaised?)
           && (forall id :: id in Keys(log) ==> Get(log, id) == Some(ingest(SeasonRequest(Prefix4(id), rate, phase)).error))
  {
    var l := SeasonLoop(m, Allowed(m), Policies(), rate, phase);
    SeasonLoopsLog(m, Allowed(m), Policies(), ingest, rate, phase);
    SeasonLoopsGrainCompletes(m, Allowed(m), Policies(), ingest, rate, phase);
    PassLog(l.ids, l.skip, l.request, l.policy, ingest);
  }

  /** Entry counts of the game folders under the two save folders, as the command finds them. */
  datatype Folders = Folders(regular: map<string, nat>, playoffs: map<string, nat>) {
    function At(phase: Phase): map<string, nat> {
      if phase == RegularSeason then regular else playoffs
    }
  }

  /** A game is skipped when its folder exists and holds more than one entry. */
  predicate AlreadyFetched(fs: Folders, phase: Phase, id: string) {
    id in fs.At(phase) && fs.At(phase)[id] > 1
  }

  /** The inner loop over one season's game IDs; its errors go to `error_log[phase]`, which the outer
      loop resets before each season. */
  function GameLoop(ids: seq<string>, phase: Phase, fs: Folders): Loop<GameRequest> {
    Loop(PhaseKey(phase), ids, (id: string) => AlreadyFetched(fs, phase, id), (id: string) => GameRequest(id, phase), CatchConstruct)
  }

  /** One inner loop per `(season, game_ids)` of the phase's game map, in dict order. */
  function GameLoops(games: Dict<seq<string>>, phase: Phase, fs: Folders): (ls: seq<Loop<GameRequest>>)
    ensures |ls| == |games| && forall i :: 0 <= i < |games| ==> ls[i] == GameLoop(games[i].1, phase, fs)
  {
    seq(|games|, i requires 0 <= i < |games| => GameLoop(games[i].1, phase, fs))
  }

  /** Every regular-season season, then every playoff season. */
  function AllGameLoops(m: Manifest, fs: Folders): seq<Loop<GameRequest>> {
    GameLoops(m.gameRegular, RegularSeason, fs) + GameLoops(m.gamePlayoffs, Playoffs, fs)
  }

  /** `get_game_data`. */
  function GetGameData(m: Manifest, fs: Folders, ingest: GameRequest -> Ingest): Run<GameRequest> {
    Passes(AllGameLoops(m, fs), ingest)
  }

  /** A game ID is listed for some season of its phase. */
  predicate GameListed(m: Manifest, q: GameRequest) {
    exists i :: 0 <= i < |m.Game(q.phase)| && q.gameId in m.Game(q.phase)[i].1
  }

  lemma GameLoopRequests(ids: seq<string>, phase: Phase, fs: Folders, ingest: GameRequest -> Ingest, q: GameRequest)
    ensures var p := PassOf(GameLoop(ids, phase, fs), ingest);
      p.raised.None? ==> (q in p.calls <==> q.phase == phase && q.gameId in ids && !AlreadyFetched(fs, phase, q.gameId))
  {
    var l := GameLoop(ids, phase, fs);
    PassCalls(l.ids, l.skip, l.request, l.policy, ingest);
    RequestsMembers(l.ids, l.skip, l.request, q);
    if q.phase == phase && q.gameId in ids && !AlreadyFetched(fs, phase, q.gameId) {
      var i :| 0 <= i < |ids| && ids[i] == q.gameId;
      assert !l.skip(ids[i]) && l.request(ids[i]) == q;
    }
  }

  /** The inner loop at position `i` of the command serves season `k` of one phase. */
  lemma GameLoopAt(m: Manifest, fs: Folders, i: int) returns (phase: Phase, k: int)
    requires 0 <= i < |AllGameLoops(m, fs)|
    ensures 0 <= k < |m.Game(phase)| && AllGameLoops(m, fs)[i] == GameLoop(m.Game(phase)[k].1, phase, fs)
  {
    var n := |m.gameRegular|;
    if i < n {
      phase, k := RegularSeason, i;
    } else {
      phase, k := Playoffs, i - n;
    }
  }

  /** Whatever an inner loop requested is listed and not already fetched. */
  lemma GameCallListed(m: Manifest, fs: Folders, ingest: GameRequest -> Ingest, q: GameRequest, i: int)
    requires 0 <= i < |AllGameLoops(m, fs)|
    requires PassOf(AllGameLoops(m, fs)[i], ingest).raised.None?
    requires q in PassOf(AllGameLoops(m, fs)[i], ingest).calls
    ensures GameListed(m, q) && !AlreadyFetched(fs, q.phase, q.gameId)
  {
    var phase, k := GameLoopAt(m, fs, i);
    GameLoopRequests(m.Game(phase)[k].1, phase, fs, ingest, q);
  }

  /** A listed game not yet fetched is requested by the inner loop of its season. */
  lemma GameListedCalled(m: Manifest, fs: Folders, ingest: GameRequest -> Ingest, q: GameRequest)
    requires GetGameData(m, fs, ingest).raised.None?
    requires GameListed(m, q) && !AlreadyFetched(fs, q.phase, q.gameId)
    ensures exists i :: 0 <= i < |AllGameLoops(m, fs)| && q in PassOf(AllGameLoops(m, fs)[i], ingest).calls
  {
    var loops := AllGameLoops(m, fs);
    var k :| 0 <= k < |m.Game(q.phase)| && q.gameId in m.Game(q.phase)[k].1;
    var i := if q.phase == RegularSeason then k else |m.gameRegular| + k;
    assert loops[i] == GameLoop(m.Game(q.phase)[k].1, q.phase, fs);
    PassesCompletes(loops, ingest);
    GameLoopRequests(m.Game(q.phase)[k].1, q.phase, fs, ingest, q);
  }

  /** A completed run has requested exactly the listed games whose folder is missing or holds at
      most one entry. */
  lemma GameRequestsRule(m: Manifest, fs: Folders, ingest: GameRequest -> Ingest, q: GameRequest)
    ensures var r := GetGameData(m, fs, ingest);
      r.raised.None? ==> (q in r.calls <==> GameListed(m, q) && !AlreadyFetched(fs, q.phase, q.gameId))
  {
    var loops := AllGameLoops(m, fs);
    if Passes(loops, ingest).raised.None? {
      PassesCompletes(loops, ingest);
      AllCallsMembers(loops, ingest, q);
      if q in Passes(loops, ingest).calls {
        var i :| 0 <= i < |loops| && q in PassOf(loops[i], ingest).calls;
        GameCallListed(m, fs, ingest, q, i);
      }
      if GameListed(m, q) && !AlreadyFetched(fs, q.phase, q.gameId) {
        GameListedCalled(m, fs, ingest, q);
      }
    }
  }

  /** In a completed run `error_log[phase]` exists exactly when the phase lists some season. */
  lemma GameLogKeys(m: Manifest, fs: Folders, ingest: GameRequest -> Ingest, phase: Phase)
    ensures var r := GetGameData(m, fs, ingest);
      r.raised.None? ==> (PhaseKey(phase) in Keys(r.log) <==> m.Game(phase) != [])
  {
    var reg := GameLoops(m.gameRegular, RegularSeason, fs);
    var loops := AllGameLoops(m, fs);
    PassesLogKeys(loops, ingest, PhaseKey(phase));
    assert forall i :: 0 <= i < |loops| ==> loops[i].key == PhaseKey(if i < |reg| then RegularSeason else Playoffs);
    if m.Game(phase) != [] {
      var i := if phase == RegularSeason then 0 else |reg|;
      assert loops[i].key == PhaseKey(phase);
    }
  }

  /** ... and then holds the log of the inner loop of the LAST season only: the errors of every
      earlier season of that phase are discarded. */
  lemma GameLogRule(m: Manifest, fs: Folders, ingest: GameRequest -> Ingest, phase: Phase)
    requires m.Game(phase) != []
    ensures var r := GetGameData(m, fs, ingest);
      var games := m.Game(phase);
      r.raised.None? ==>
        && PassOf(GameLoop(games[|games| - 1].1, phase, fs), ingest).raised.None?
        && Get(r.log, PhaseKey(phase)) == Some(PassOf(GameLoop(games[|games| - 1].1, phase, fs), ingest).log)
  {
    var reg := GameLoops(m.gameRegular, RegularSeason, fs);
    var loops := AllGameLoops(m, fs);
    var games := m.Game(phase);
    var i := if phase == RegularSeason then |reg| - 1 else |loops| - 1;
    assert loops[i] == GameLoop(games[|games| - 1].1, phase, fs);
    PassesCompletes(loops, ingest);
    PassesLog(loops, ingest, i);
  }

  /** One season's inner log holds, once each, exactly its games that were not skipped and whose
      `GameIngest` construction raised, each with its exception. */
  lemma GameLoopLog(ids: seq<string>, phase: Phase, fs: Folders, ingest: GameRequest -> Ingest)
    ensures var p := PassOf(GameLoop(ids, phase, fs), ingest);
      p.raised.None? ==>
        && DistinctKeys(p.log)
        && (forall id :: id in Keys(p.log) <==>
              id in ids && !AlreadyFetched(fs, phase, id) && ingest(GameRequest(id, phase)).ConstructRaised?)
        && (forall id :: id in Keys(p.log) ==> Get(p.log, id) == Some(ingest(GameRequest(id, phase)).error))
  {
    var l := GameLoop(ids, phase, fs);
    PassLog(l.ids, l.skip, l.request, l.policy, ingest);
  }

  /** Two regular-season seasons, the first holding a game whose construction fails: the log written
      for `regular_season` is empty, so that failure is lost. */
  lemma GameLogLosesEarlierSeason()
    ensures var m := Manifest([("2022", ["g1"]), ("2023", ["g2"])], [], [], SeasonLists([], [], [], []));
      var ingest := (q: GameRequest) => if q.gameId == "g1" then ConstructRaised(Exception(ValueError, "g1")) else Ingested;
      var r := GetGameData(m, Folders(map[], map[]), ingest);
      && r.raised.None?
      && r.calls == [GameRequest("g1", RegularSeason), GameRequest("g2", RegularSeason)]
      && Get(r.log, "regular_season") == Some([])
  {
    var m := Manifest([("2022", ["g1"]), ("2023", ["g2"])], [], [], SeasonLists([], [], [], []));
    var fs := Folders(map[], map[]);
    var ingest := (q: GameRequest) => if q.gameId == "g1" then ConstructRaised(Exception(ValueError, "g1")) else Ingested;
    var loops := AllGameLoops(m, fs);
    var l1, l2 := GameLoop(["g1"], RegularSeason, fs), GameLoop(["g2"], RegularSeason, fs);
    assert loops == [l1, l2];
    var p1 := PassOf(l1, ingest);
    assert p1 == PassResult([GameRequest("g1", RegularSeason)], [("g1", Exception(ValueError, "g1"))], None) by {
      assert ["g1"][..0] == [];
    }
    var p2 := PassOf(l2, ingest);
    assert p2 == PassResult([GameRequest("g2", RegularSeason)], [], None) by {
      assert ["g2"][..0] == [];
    }
    assert loops[..1] == [l1] && [l1][..0] == [];
    PassesLast([l1], ingest);
    PassesLast(loops, ingest);
  }
}
