/** What the fetch commands hand to the ingest oracle, and the four season-grain loops that both
    `get_season_data` commands run over a manifest: one loop per rate and phase, each over the season
    IDs of its own list, each passing `season_id[0:4]` as the season year. The copies differ only in
    which seasons they let through and in their exception policy, so both are parameters here. */
module SeasonFetch {
  import opened Wrappers
  import opened Dicts
  import opened Seasons
  import opened Inventory
  import opened Manifest
  import opened Ingestion

  /** `SeasonIngest(season_year=..., save_folder=..., playoffs=..., permode=...)`: the save folder,
      `playoffs` and `permode` are all fixed by the grain. */
  datatype SeasonRequest = SeasonRequest(seasonYear: string, rate: Rate, phase: Phase)

  /** `GameIngest(game_id=..., save_folder=...)`: the save folder is fixed by the phase. */
  datatype GameRequest = GameRequest(gameId: string, phase: Phase)

  /** The error-log key of a season grain. */
  function GrainKey(rate: Rate, phase: Phase): string {
    match (rate, phase)
    case (PerGame, RegularSeason) => "regular_season_pergame"
    case (PerGame, Playoffs) => "playoffs_pergame"
    case (PerPossession, RegularSeason) => "regular_season_perpossession"
    case (PerPossession, Playoffs) => "playoffs_perpossession"
  }

  /** The error-log key of a game phase. */
  function PhaseKey(phase: Phase): string {
    if phase == RegularSeason then "regular_season" else "playoffs"
  }

  /** The loop of one grain: a season ID is skipped unless `allowed(phase, season_id[0:4])`. */
  function SeasonLoop(m: Manifest, allowed: (Phase, string) -> bool, policy: (Rate, Phase) -> Policy,
                      rate: Rate, phase: Phase): Loop<SeasonRequest>
  {
    Loop(GrainKey(rate, phase), m.season.Get(rate, phase),
         (id: string) => !allowed(phase, Prefix4(id)),
         (id: string) => SeasonRequest(Prefix4(id), rate, phase),
         policy(rate, phase))
  }

  /** The four grains in command order. */
  function SeasonLoops(m: Manifest, allowed: (Phase, string) -> bool, policy: (Rate, Phase) -> Policy): seq<Loop<SeasonRequest>> {
    [SeasonLoop(m, allowed, policy, PerGame, RegularSeason),
     SeasonLoop(m, allowed, policy, PerGame, Playoffs),
     SeasonLoop(m, allowed, policy, PerPossession, RegularSeason),
     SeasonLoop(m, allowed, policy, PerPossession, Playoffs)]
  }

  /** A request whose season year is the first four characters of some ID in its grain's list. */
  predicate Listed(m: Manifest, q: SeasonRequest) {
    exists i :: 0 <= i < |m.season.Get(q.rate, q.phase)| && Prefix4(m.season.Get(q.rate, q.phase)[i]) == q.seasonYear
  }

  /** A listed request the skip rule lets through. */
  predicate Wanted(m: Manifest, allowed: (Phase, string) -> bool, q: SeasonRequest) {
    Listed(m, q) && allowed(q.phase, q.seasonYear)
  }

  /** One grain's loop requests what its list and skip rule give, and nothing of other grains. */
  lemma SeasonLoopRequests(m: Manifest, allowed: (Phase, string) -> bool, policy: (Rate, Phase) -> Policy,
                           rate: Rate, phase: Phase, ingest: SeasonRequest -> Ingest, q: SeasonRequest)
    ensures var p := PassOf(SeasonLoop(m, allowed, policy, rate, phase), ingest);
      p.raised.None? ==> (q in p.calls <==> q.rate == rate && q.phase == phase && Wanted(m, allowed, q))
  {
    var l := SeasonLoop(m, allowed, policy, rate, phase);
    PassCalls(l.ids, l.skip, l.request, l.policy, ingest);
    RequestsMembers(l.ids, l.skip, l.request, q);
    if q.rate == rate && q.phase == phase && Wanted(m, allowed, q) {
      var i :| 0 <= i < |l.ids| && Prefix4(l.ids[i]) == q.seasonYear;
      assert !l.skip(l.ids[i]) && l.request(l.ids[i]) == q;
    }
  }

  /** One grain's loop raises exactly when the attempt on one of its wanted requests escapes. */
  lemma SeasonLoopRaises(m: Manifest, allowed: (Phase, string) -> bool, policy: (Rate, Phase) -> Policy,
                         rate: Rate, phase: Phase, ingest: SeasonRequest -> Ingest)
    ensures PassOf(SeasonLoop(m, allowed, policy, rate, phase), ingest).raised.Some? <==>
      exists q: SeasonRequest :: q.rate == rate && q.phase == phase && Wanted(m, allowed, q) && Handle(policy(rate, phase), ingest(q)).Raise?
  {
    var l := SeasonLoop(m, allowed, policy, rate, phase);
    PassCalls(l.ids, l.skip, l.request, l.policy, ingest);
    if exists i :: 0 <= i < |l.ids| && Escapes(l.ids[i], l.skip, l.request, l.policy, ingest) {
      var i :| 0 <= i < |l.ids| && Escapes(l.ids[i], l.skip, l.request, l.policy, ingest);
      var q := l.request(l.ids[i]);
      assert Listed(m, q);
    }
    if exists q: SeasonRequest :: q.rate == rate && q.phase == phase && Wanted(m, allowed, q) && Handle(policy(rate, phase), ingest(q)).Raise? {
      var q: SeasonRequest :| q.rate == rate && q.phase == phase && Wanted(m, allowed, q) && Handle(policy(rate, phase), ingest(q)).Raise?;
      var i :| 0 <= i < |l.ids| && Prefix4(l.ids[i]) == q.seasonYear;
      assert l.request(l.ids[i]) == q;
      assert Escapes(l.ids[i], l.skip, l.request, l.policy, ingest);
    }
  }

  /** Which of the four loops serves a grain. */
  lemma GrainLoop(m: Manifest, allowed: (Phase, string) -> bool, policy: (Rate, Phase) -> Policy, rate: Rate, phase: Phase)
    returns (i: int)
    ensures 0 <= i < 4 && SeasonLoops(m, allowed, policy)[i] == SeasonLoop(m, allowed, policy, rate, phase)
    ensures forall j :: 0 <= j < 4 && j != i ==> SeasonLoops(m, allowed, policy)[j].key != GrainKey(rate, phase)
  {
    i := match (rate, phase)
      case (PerGame, RegularSeason) => 0
      case (PerGame, Playoffs) => 1
      case (PerPossession, RegularSeason) => 2
      case (PerPossession, Playoffs) => 3;
  }

  /** A completed season command has requested exactly the wanted requests of all four grains. */
  lemma SeasonLoopsRequests(m: Manifest, allowed: (Phase, string) -> bool, policy: (Rate, Phase) -> Policy,
                            ingest: SeasonRequest -> Ingest, q: SeasonRequest)
    ensures var r := Passes(SeasonLoops(m, allowed, policy), ingest);
      r.raised.None? ==> (q in r.calls <==> Wanted(m, allowed, q))
  {
    var loops := SeasonLoops(m, allowed, policy);
    PassesCompletes(loops, ingest);
    AllCallsMembers(loops, ingest, q);
    if Passes(loops, ingest).raised.None? {
      SeasonLoopRequests(m, allowed, policy, PerGame, RegularSeason, ingest, q);
      SeasonLoopRequests(m, allowed, policy, PerGame, Playoffs, ingest, q);
      SeasonLoopRequests(m, allowed, policy, PerPossession, RegularSeason, ingest, q);
      SeasonLoopRequests(m, allowed, policy, PerPossession, Playoffs, ingest, q);
      if Wanted(m, allowed, q) {
        var i := GrainLoop(m, allowed, policy, q.rate, q.phase);
        assert q in PassOf(loops[i], ingest).calls;
      }
    }
  }

  /** The season command completes exactly when no wanted request's exception escapes its loop. */
  lemma SeasonLoopsComplete(m: Manifest, allowed: (Phase, string) -> bool, policy: (Rate, Phase) -> Policy,
                            ingest: SeasonRequest -> Ingest)
    ensures Passes(SeasonLoops(m, allowed, policy), ingest).raised.None? <==>
      forall q :: Wanted(m, allowed, q) ==> !Handle(policy(q.rate, q.phase), ingest(q)).Raise?
  {
    var loops := SeasonLoops(m, allowed, policy);
    PassesCompletes(loops, ingest);
    SeasonLoopRaises(m, allowed, policy, PerGame, RegularSeason, ingest);
    SeasonLoopRaises(m, allowed, policy, PerGame, Playoffs, ingest);
    SeasonLoopRaises(m, allowed, policy, PerPossession, RegularSeason, ingest);
    SeasonLoopRaises(m, allowed, policy, PerPossession, Playoffs, ingest);
    if Passes(loops, ingest).raised.None? {
      forall q | Wanted(m, allowed, q) ensures !Handle(policy(q.rate, q.phase), ingest(q)).Raise? {
        var i := GrainLoop(m, allowed, policy, q.rate, q.phase);
        assert PassOf(loops[i], ingest).raised.None?;
      }
    }
  }

  /** In a completed season command each grain's key holds that grain's loop log. */
  lemma SeasonLoopsLog(m: Manifest, allowed: (Phase, string) -> bool, policy: (Rate, Phase) -> Policy,
                       ingest: SeasonRequest -> Ingest, rate: Rate, phase: Phase)
    ensures var r := Passes(SeasonLoops(m, allowed, policy), ingest);
      r.raised.None? ==> Get(r.log, GrainKey(rate, phase)) == Some(PassOf(SeasonLoop(m, allowed, policy, rate, phase), ingest).log)
  {
    var i := GrainLoop(m, allowed, policy, rate, phase);
    PassesLog(SeasonLoops(m, allowed, policy), ingest, i);
  }

  /** In a completed season command every grain's loop completed. */
  lemma SeasonLoopsGrainCompletes(m: Manifest, allowed: (Phase, string) -> bool, policy: (Rate, Phase) -> Policy,
                                  ingest: SeasonRequest -> Ingest, rate: Rate, phase: Phase)
    ensures Passes(SeasonLoops(m, allowed, policy), ingest).raised.None? ==>
      PassOf(SeasonLoop(m, allowed, policy, rate, phase), ingest).raised.None?
  {
    var i := GrainLoop(m, allowed, policy, rate, phase);
    PassesCompletes(SeasonLoops(m, allowed, policy), ingest);
  }
}
