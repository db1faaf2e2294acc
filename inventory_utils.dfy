/** `get_season_list` and `process_seasons`: which seasons still lack per-game tables, and what the
    remote season listing says those seasons contain. */
module InventoryUtils {
  import opened Wrappers
  import opened Seqs
  import opened Dicts
  import opened Seasons
  import opened Inventory

  /** `[s[0:4] for s in keys]`. */
  function YearPrefixes(keys: seq<string>): (r: seq<string>)
    ensures |r| == |keys|
    ensures forall i :: 0 <= i < |keys| ==> r[i] == Prefix4(keys[i])
  {
    seq(|keys|, i requires 0 <= i < |keys| => Prefix4(keys[i]))
  }

  /** `[str(y) for y in years]`. */
  function YearStrings(years: seq<int>): (r: seq<string>)
    ensures |r| == |years|
    ensures forall i :: 0 <= i < |years| ==> r[i] == IntToString(years[i])
  {
    seq(|years|, i requires 0 <= i < |years| => IntToString(years[i]))
  }

  /** What `seasons + 1` raises when `seasons` is a list. */
  const ListPlusInt := Exception(TypeError, "can only concatenate list (not \"int\") to list")

  /** `get_season_list`: the year prefixes of the expected season keys missing from the per-game
      leaf of the chosen phase. When nothing is missing, the fallback on line 63 evaluates
      `seasons + 1` on a list, so the call raises instead of returning. */
  function GetSeasonList(earliest: int, today: Date, inv: Inventory, playoffs: bool): (r: Result<seq<string>, Exception>)
    ensures r.Failure? <==>
      forall k :: k in ExpectedKeys(earliest, SeasonYear(today)) ==> k in inv.Season(PerGame, PhaseOf(playoffs))
    ensures r.Failure? ==> r.error == ListPlusInt
    ensures r.Success? ==> 1 <= |r.value| <= |ExpectedKeys(earliest, SeasonYear(today))|
  {
    var expected := ExpectedKeys(earliest, SeasonYear(today));
    var leaf := inv.Season(PerGame, PhaseOf(playoffs));
    WithoutExtremes(expected, leaf);
    var seasons := YearPrefixes(Without(expected, leaf));
    if seasons == [] then Failure(ListPlusInt) else Success(seasons)
  }

  /** The years from `lo` through `hi` whose season key is not in `leaf`, in ascending order. */
  function MissingYears(lo: int, hi: int, leaf: set<string>): (ys: seq<int>)
    ensures forall i :: 0 <= i < |ys| ==> lo <= ys[i] <= hi
    decreases if hi < lo then 0 else hi - lo + 1
  {
    if hi < lo then []
    else MissingYears(lo, hi - 1, leaf) + (if SeasonKey(hi) in leaf then [] else [hi])
  }

  predicate Ascending(ys: seq<int>) {
    forall i, j :: 0 <= i < j < |ys| ==> ys[i] < ys[j]
  }

  /** A year is listed exactly when it is in range and its key is missing; the list ascends. */
  lemma {:induction false} MissingYearsContents(lo: int, hi: int, leaf: set<string>)
    ensures forall y :: y in MissingYears(lo, hi, leaf) <==> lo <= y <= hi && SeasonKey(y) !in leaf
    ensures Ascending(MissingYears(lo, hi, leaf))
    decreases if hi < lo then 0 else hi - lo + 1
  {
    if lo <= hi {
      MissingYearsContents(lo, hi - 1, leaf);
      var front := MissingYears(lo, hi - 1, leaf);
      var ys := MissingYears(lo, hi, leaf);
      if SeasonKey(hi) !in leaf {
        assert ys == front + [hi];
        forall i, j | 0 <= i < j < |ys| ensures ys[i] < ys[j] {
          assert ys[i] == front[i];
          if j < |front| {
            assert ys[j] == front[j];
            assert front[i] < front[j];
          } else {
            assert ys[j] == hi;
            assert front[i] <= hi - 1;
          }
        }
      }
    }
  }

  lemma YearPrefixesConcat(a: seq<string>, b: seq<string>)
    ensures YearPrefixes(a + b) == YearPrefixes(a) + YearPrefixes(b)
  {
  }

  lemma YearStringsConcat(a: seq<int>, b: seq<int>)
    ensures YearStrings(a + b) == YearStrings(a) + YearStrings(b)
  {
  }

  /** The contribution of year `hi` on both sides of `PrefixesOfMissing`. */
  lemma PrefixOfLastYear(hi: int, leaf: set<string>)
    requires 1000 <= hi <= 9999
    ensures YearPrefixes(if SeasonKey(hi) in leaf then [] else [SeasonKey(hi)])
         == YearStrings(if SeasonKey(hi) in leaf then [] else [hi])
  {
    SeasonKeyShape(hi);
  }

  lemma {:induction false} PrefixesOfMissing(lo: int, hi: int, leaf: set<string>)
    requires 1000 <= lo && hi <= 9999
    ensures YearPrefixes(Without(ExpectedKeys(lo, hi), leaf)) == YearStrings(MissingYears(lo, hi, leaf))
    decreases if hi < lo then 0 else hi - lo + 1
  {
    if lo <= hi {
      var front := ExpectedKeys(lo, hi - 1);
      var tail := if SeasonKey(hi) in leaf then [] else [SeasonKey(hi)];
      var ys := MissingYears(lo, hi - 1, leaf);
      var yt := if SeasonKey(hi) in leaf then [] else [hi];
      calc {
        YearPrefixes(Without(ExpectedKeys(lo, hi), leaf));
        { ExpectedKeysSnoc(lo, hi); WithoutConcat(front, [SeasonKey(hi)], leaf); assert Without([SeasonKey(hi)], leaf) == tail; }
        YearPrefixes(Without(front, leaf) + tail);
        { YearPrefixesConcat(Without(front, leaf), tail); }
        YearPrefixes(Without(front, leaf)) + YearPrefixes(tail);
        { PrefixesOfMissing(lo, hi - 1, leaf); PrefixOfLastYear(hi, leaf); }
        YearStrings(ys) + YearStrings(yt);
        { YearStringsConcat(ys, yt); }
        YearStrings(MissingYears(lo, hi, leaf));
      }
    }
  }

  /** Over four-digit years, a successful `get_season_list` returns `str(y)` for exactly the years
      `y` from `earliest` through the current season year whose key is not yet in the per-game leaf,
      in ascending order; it raises exactly when there is no such year. */
  lemma GetSeasonListYears(earliest: int, today: Date, inv: Inventory, playoffs: bool)
    requires 1000 <= earliest && SeasonYear(today) <= 9999
    ensures var ys := MissingYears(earliest, SeasonYear(today), inv.Season(PerGame, PhaseOf(playoffs)));
      GetSeasonList(earliest, today, inv, playoffs) == if ys == [] then Failure(ListPlusInt) else Success(YearStrings(ys))
  {
    PrefixesOfMissing(earliest, SeasonYear(today), inv.Season(PerGame, PhaseOf(playoffs)));
  }

  /** Only the per-game leaf of the chosen phase is consulted, never a per-possession leaf. */
  lemma GetSeasonListReadsPerGameLeaf(earliest: int, today: Date, a: Inventory, b: Inventory, playoffs: bool)
    requires a.Season(PerGame, PhaseOf(playoffs)) == b.Season(PerGame, PhaseOf(playoffs))
    ensures GetSeasonList(earliest, today, a, playoffs) == GetSeasonList(earliest, today, b, playoffs)
  {
  }

  // ---------------------------------------------------------------- process_seasons

  /** One row of the remote season listing: a player's appearance in a game. */
  datatype PlayerGame = PlayerGame(gameId: string, playerId: nat)

  /** `df["GAME_ID"]`. */
  function GameColumn(rows: seq<PlayerGame>): (r: seq<string>)
    ensures |r| == |rows|
    ensures forall i :: 0 <= i < |rows| ==> r[i] == rows[i].gameId
  {
    seq(|rows|, i requires 0 <= i < |rows| => rows[i].gameId)
  }

  /** `df["PLAYER_ID"].astype(str)`. */
  function PlayerColumn(rows: seq<PlayerGame>): (r: seq<string>)
    ensures |r| == |rows|
    ensures forall i :: 0 <= i < |rows| ==> ParseNat(r[i]) == rows[i].playerId
  {
    ParseNatToStringAll(rows);
    seq(|rows|, i requires 0 <= i < |rows| => NatToString(rows[i].playerId))
  }

  /** Each row's player ID reads back from its rendering. */
  lemma ParseNatToStringAll(rows: seq<PlayerGame>)
    ensures forall i :: 0 <= i < |rows| ==> ParseNat(NatToString(rows[i].playerId)) == rows[i].playerId
  {
    forall i | 0 <= i < |rows| ensures ParseNat(NatToString(rows[i].playerId)) == rows[i].playerId {
      ParseNatToString(rows[i].playerId);
    }
  }

  /** What `process_seasons` returns: game IDs per season and the concatenated player IDs. */
  datatype Discovered = Discovered(gameIds: Dict<seq<string>>, playerIds: seq<string>)

  /** The listings of `seasons`, fetched in order; the remote call is not guarded, so the first
      one that raises ends the pass. */
  function FetchListings(seasons: seq<string>, playoffs: bool,
                         roster: (string, bool) -> Result<seq<PlayerGame>, Exception>): (r: Result<seq<seq<PlayerGame>>, Exception>)
    ensures r.Success? ==> |r.value| == |seasons|
    decreases |seasons|
  {
    if seasons == [] then Success([])
    else
      var prev :- FetchListings(seasons[..|seasons| - 1], playoffs, roster);
      var rows :- roster(seasons[|seasons| - 1], playoffs);
      Success(prev + [rows])
  }

  /** One pass of the loop body: `game_ids[season]` set to the distinct game IDs of the rows,
      `player_ids` extended by their distinct player IDs as strings. */
  function Absorb(found: Discovered, season: string, rows: seq<PlayerGame>): Discovered {
    Discovered(Put(found.gameIds, season, Unique(GameColumn(rows))), found.playerIds + Unique(PlayerColumn(rows)))
  }

  /** The loop body adds `season` to the keys of the game dict, without repeating a key. */
  lemma AbsorbKeys(found: Discovered, season: string, rows: seq<PlayerGame>)
    ensures Keys(Absorb(found, season, rows).gameIds) == Keys(found.gameIds) + {season}
    ensures DistinctKeys(found.gameIds) ==> DistinctKeys(Absorb(found, season, rows).gameIds)
  {
    PutKeys(found.gameIds, season, Unique(GameColumn(rows)));
    if DistinctKeys(found.gameIds) {
      PutDistinct(found.gameIds, season, Unique(GameColumn(rows)));
    }
  }

  /** The loop body's effect on one key of the game dict. */
  lemma AbsorbGet(found: Discovered, season: string, rows: seq<PlayerGame>, k: string)
    ensures Get(Absorb(found, season, rows).gameIds, k)
         == if k == season then Some(Unique(GameColumn(rows))) else Get(found.gameIds, k)
  {
    PutGet(found.gameIds, season, Unique(GameColumn(rows)), k);
  }

  /** The loop body's effect on the player list: the old list stays as a prefix, and what follows
      holds the listing's player IDs, each once. */
  lemma AbsorbPlayer(found: Discovered, season: string, rows: seq<PlayerGame>, x: string)
    ensures found.playerIds <= Absorb(found, season, rows).playerIds
    ensures var added := Absorb(found, season, rows).playerIds[|found.playerIds|..];
      NoDuplicates(added) && (forall y :: y in added <==> y in PlayerColumn(rows))
    ensures x in Absorb(found, season, rows).playerIds <==> x in found.playerIds || x in PlayerColumn(rows)
  {
    UniqueMembers(PlayerColumn(rows));
    UniqueNoDuplicates(PlayerColumn(rows));
    var r := Absorb(found, season, rows).playerIds;
    assert r[|found.playerIds|..] == Unique(PlayerColumn(rows));
  }

  /** What the loop body accumulates from the fetched listings, season by season. */
  function Accumulate(seasons: seq<string>, listings: seq<seq<PlayerGame>>): Discovered
    requires |listings| == |seasons|
    decreases |seasons|
  {
    if seasons == [] then Discovered([], [])
    else
      Absorb(Accumulate(seasons[..|seasons| - 1], listings[..|listings| - 1]),
             seasons[|seasons| - 1], listings[|listings| - 1])
  }

  /** What `process_seasons(seasons, playoffs)` returns or raises. */
  function ProcessSeasonsSpec(seasons: seq<string>, playoffs: bool,
                              roster: (string, bool) -> Result<seq<PlayerGame>, Exception>): Result<Discovered, Exception>
  {
    var listings :- FetchListings(seasons, playoffs, roster);
    Success(Accumulate(seasons, listings))
  }

  lemma {:induction false} FetchFailureSticks(seasons: seq<string>, n: nat, playoffs: bool,
                             roster: (string, bool) -> Result<seq<PlayerGame>, Exception>)
    requires n <= |seasons|
    requires FetchListings(seasons[..n], playoffs, roster).Failure?
    ensures FetchListings(seasons, playoffs, roster) == FetchListings(seasons[..n], playoffs, roster)
    decreases |seasons| - n
  {
    if n < |seasons| {
      var longer := seasons[..n + 1];
      assert longer[..|longer| - 1] == seasons[..n];
      if n + 1 == |seasons| {
        assert longer == seasons;
      } else {
        FetchFailureSticks(seasons, n + 1, playoffs, roster);
      }
    } else {
      assert seasons[..n] == seasons;
    }
  }

  /** One iteration of the loop in `process_seasons` whose listing was fetched: the fetch. */
  lemma FetchStep(seasons: seq<string>, i: int, playoffs: bool,
                  roster: (string, bool) -> Result<seq<PlayerGame>, Exception>, listings: seq<seq<PlayerGame>>)
    requires 0 <= i < |seasons|
    requires FetchListings(seasons[..i], playoffs, roster) == Success(listings)
    requires roster(seasons[i], playoffs).Success?
    ensures FetchListings(seasons[..i + 1], playoffs, roster) == Success(listings + [roster(seasons[i], playoffs).value])
  {
    assert seasons[..i + 1][..i] == seasons[..i];
    assert seasons[..i + 1][i] == seasons[i];
  }

  /** One iteration of the loop in `process_seasons` whose listing was fetched: the update. */
  lemma AccumulateStep(seasons: seq<string>, i: int, listings: seq<seq<PlayerGame>>, rows: seq<PlayerGame>)
    requires 0 <= i < |seasons| && |listings| == i
    ensures Accumulate(seasons[..i + 1], listings + [rows]) == Absorb(Accumulate(seasons[..i], listings), seasons[i], rows)
  {
    var s, l := seasons[..i + 1], listings + [rows];
    assert s[..|s| - 1] == seasons[..i] && s[|s| - 1] == seasons[i];
    assert l[..|l| - 1] == listings && l[|l| - 1] == rows;
  }

  /** An iteration whose listing raises ends `process_seasons` with that exception. */
  lemma ProcessSeasonsLoopRaises(seasons: seq<string>, i: int, playoffs: bool,
                                 roster: (string, bool) -> Result<seq<PlayerGame>, Exception>)
    requires 0 <= i < |seasons|
    requires FetchListings(seasons[..i], playoffs, roster).Success?
    requires roster(seasons[i], playoffs).Failure?
    ensures ProcessSeasonsSpec(seasons, playoffs, roster) == Failure(roster(seasons[i], playoffs).error)
  {
    assert seasons[..i + 1][..i] == seasons[..i];
    assert seasons[..i + 1][i] == seasons[i];
    FetchFailureSticks(seasons, i + 1, playoffs, roster);
  }

  /** `process_seasons`: a for-loop filling the `game_ids` dict and extending `player_ids`. */
  method ProcessSeasons(seasons: seq<string>, playoffs: bool,
                        roster: (string, bool) -> Result<seq<PlayerGame>, Exception>)
    returns (r: Result<Discovered, Exception>)
    ensures r == ProcessSeasonsSpec(seasons, playoffs, roster)
  {
    var gameIds: Dict<seq<string>> := [];
    var playerIds: seq<string> := [];
    ghost var listings: seq<seq<PlayerGame>> := [];
    for i := 0 to |seasons|
      invariant |listings| == i
      invariant FetchListings(seasons[..i], playoffs, roster) == Success(listings)
      invariant Accumulate(seasons[..i], listings) == Discovered(gameIds, playerIds)
    {
      var season := seasons[i];
      var df := roster(season, playoffs);
      if df.Failure? {
        ProcessSeasonsLoopRaises(seasons, i, playoffs, roster);
        return Failure(df.error);
      }
      FetchStep(seasons, i, playoffs, roster, listings);
      AccumulateStep(seasons, i, listings, df.value);
      gameIds := Put(gameIds, season, Unique(GameColumn(df.value)));
      playerIds := playerIds + Unique(PlayerColumn(df.value));
      listings := listings + [df.value];
    }
    assert seasons[..|seasons|] == seasons;
    return Success(Discovered(gameIds, playerIds));
  }

  /** A pass that succeeds fetched every listing, and holds what each fetch returned. */
  lemma {:induction false} FetchedEveryListing(seasons: seq<string>, playoffs: bool,
                              roster: (string, bool) -> Result<seq<PlayerGame>, Exception>, i: int)
    requires FetchListings(seasons, playoffs, roster).Success?
    requires 0 <= i < |seasons|
    ensures roster(seasons[i], playoffs) == Success(FetchListings(seasons, playoffs, roster).value[i])
    decreases |seasons|
  {
    var front := seasons[..|seasons| - 1];
    var prev := FetchListings(front, playoffs, roster);
    assert prev.Success?;
    if i < |front| {
      assert front[i] == seasons[i];
      FetchedEveryListing(front, playoffs, roster, i);
      assert FetchListings(seasons, playoffs, roster).value[i] == prev.value[i];
    }
  }

  /** When every listing can be fetched, the pass succeeds. */
  lemma {:induction false} EveryListingFetched(seasons: seq<string>, playoffs: bool,
                              roster: (string, bool) -> Result<seq<PlayerGame>, Exception>)
    requires forall i :: 0 <= i < |seasons| ==> roster(seasons[i], playoffs).Success?
    ensures FetchListings(seasons, playoffs, roster).Success?
    decreases |seasons|
  {
    if seasons != [] {
      var front := seasons[..|seasons| - 1];
      forall i | 0 <= i < |front| ensures roster(front[i], playoffs).Success? {
        assert front[i] == seasons[i];
      }
      EveryListingFetched(front, playoffs, roster);
    }
  }

  /** `process_seasons` returns exactly when every season's listing can be fetched. */
  lemma ProcessSeasonsSucceeds(seasons: seq<string>, playoffs: bool,
                               roster: (string, bool) -> Result<seq<PlayerGame>, Exception>)
    ensures ProcessSeasonsSpec(seasons, playoffs, roster).Success? <==>
      forall i :: 0 <= i < |seasons| ==> roster(seasons[i], playoffs).Success?
  {
    if FetchListings(seasons, playoffs, roster).Success? {
      forall i | 0 <= i < |seasons| ensures roster(seasons[i], playoffs).Success? {
        FetchedEveryListing(seasons, playoffs, roster, i);
      }
    }
    if forall i :: 0 <= i < |seasons| ==> roster(seasons[i], playoffs).Success? {
      EveryListingFetched(seasons, playoffs, roster);
    }
  }

  /** When `process_seasons` raises, it raises what some season's listing raised. */
  lemma {:induction false} ProcessSeasonsRaises(seasons: seq<string>, playoffs: bool,
                               roster: (string, bool) -> Result<seq<PlayerGame>, Exception>)
    ensures var r := ProcessSeasonsSpec(seasons, playoffs, roster);
      r.Failure? ==> exists i :: 0 <= i < |seasons| && roster(seasons[i], playoffs) == Failure(r.error)
    decreases |seasons|
  {
    if seasons != [] {
      var front := seasons[..|seasons| - 1];
      var last := |seasons| - 1;
      var r := FetchListings(seasons, playoffs, roster);
      if FetchListings(front, playoffs, roster).Failure? {
        ProcessSeasonsRaises(front, playoffs, roster);
        var i :| 0 <= i < |front| && roster(front[i], playoffs) == Failure(r.error);
        assert front[i] == seasons[i];
      } else if r.Failure? {
        assert roster(seasons[last], playoffs) == Failure(r.error);
      }
    }
  }

  /** The set of seasons a collection of season names covers. */
  function SeasonSet(seasons: seq<string>): (r: set<string>)
    ensures forall x :: x in r <==> x in seasons
  {
    set i | 0 <= i < |seasons| :: seasons[i]
  }

  lemma SeasonSetSnoc(seasons: seq<string>)
    requires seasons != []
    ensures SeasonSet(seasons) == SeasonSet(seasons[..|seasons| - 1]) + {seasons[|seasons| - 1]}
  {
    assert seasons == seasons[..|seasons| - 1] + [seasons[|seasons| - 1]];
  }

  /** The game dict gets one key per season, each once. */
  lemma {:induction false} AccumulateGameKeys(seasons: seq<string>, listings: seq<seq<PlayerGame>>)
    requires |listings| == |seasons|
    ensures var games := Accumulate(seasons, listings).gameIds;
      DistinctKeys(games) && Keys(games) == SeasonSet(seasons)
    decreases |seasons|
  {
    if seasons != [] {
      AccumulateGameKeys(seasons[..|seasons| - 1], listings[..|listings| - 1]);
      AbsorbKeys(Accumulate(seasons[..|seasons| - 1], listings[..|listings| - 1]), seasons[|seasons| - 1], listings[|listings| - 1]);
      SeasonSetSnoc(seasons);
    }
  }

  /** Equal seasons carry equal listings, as they do when each listing is a fetch of its season. */
  predicate Consistent(seasons: seq<string>, listings: seq<seq<PlayerGame>>)
    requires |listings| == |seasons|
  {
    forall j, k :: 0 <= j < k < |seasons| && seasons[j] == seasons[k] ==> listings[j] == listings[k]
  }

  lemma ConsistentPrefix(seasons: seq<string>, listings: seq<seq<PlayerGame>>, n: int)
    requires |listings| == |seasons| && 0 <= n <= |seasons|
    requires Consistent(seasons, listings)
    ensures Consistent(seasons[..n], listings[..n])
  {
    forall j, k | 0 <= j < k < n && seasons[..n][j] == seasons[..n][k] ensures listings[..n][j] == listings[..n][k] {
      assert seasons[..n][j] == seasons[j] && seasons[..n][k] == seasons[k];
    }
  }

  /** Where the same season is listed twice with the same rows, either occurrence gives the value
      stored under it. */
  lemma {:induction false} AccumulateGameAt(seasons: seq<string>, listings: seq<seq<PlayerGame>>, i: int)
    requires |listings| == |seasons| && Consistent(seasons, listings)
    requires 0 <= i < |seasons|
    ensures Get(Accumulate(seasons, listings).gameIds, seasons[i]) == Some(Unique(GameColumn(listings[i])))
    decreases |seasons|
  {
    var n := |seasons| - 1;
    var front, rest := seasons[..n], listings[..n];
    AbsorbGet(Accumulate(front, rest), seasons[n], listings[n], seasons[i]);
    if seasons[i] != seasons[n] {
      assert front[i] == seasons[i] && rest[i] == listings[i];
      ConsistentPrefix(seasons, listings, n);
      AccumulateGameAt(front, rest, i);
    } else if i < n {
      assert listings[i] == listings[n];
    }
  }

  /** Some listing holds `x` iff one before the last does or the last one does. */
  lemma SomeListingHolds(listings: seq<seq<PlayerGame>>, x: string)
    requires listings != []
    ensures var n := |listings| - 1;
      (exists i :: 0 <= i < |listings| && x in PlayerColumn(listings[i])) <==>
      (exists i :: 0 <= i < n && x in PlayerColumn(listings[..n][i])) || x in PlayerColumn(listings[n])
  {
    var n := |listings| - 1;
    if exists i :: 0 <= i < |listings| && x in PlayerColumn(listings[i]) {
      var i :| 0 <= i < |listings| && x in PlayerColumn(listings[i]);
      if i < n {
        assert listings[..n][i] == listings[i];
      } else {
        assert i == n;
      }
    }
  }

  /** The player list holds exactly the player IDs of the listings. */
  lemma {:induction false} AccumulatePlayer(seasons: seq<string>, listings: seq<seq<PlayerGame>>, x: string)
    requires |listings| == |seasons|
    ensures x in Accumulate(seasons, listings).playerIds <==>
      exists i :: 0 <= i < |listings| && x in PlayerColumn(listings[i])
    decreases |seasons|
  {
    if seasons != [] {
      var n := |seasons| - 1;
      AccumulatePlayer(seasons[..n], listings[..n], x);
      AbsorbPlayer(Accumulate(seasons[..n], listings[..n]), seasons[n], listings[n], x);
      SomeListingHolds(listings, x);
    }
  }

  /** On success the game dict has one key per listed season, holding that season's distinct game
      IDs (a second occurrence of a season overwrites it with the same value). */
  lemma ProcessSeasonsGames(seasons: seq<string>, playoffs: bool,
                            roster: (string, bool) -> Result<seq<PlayerGame>, Exception>)
    ensures var r := ProcessSeasonsSpec(seasons, playoffs, roster);
      r.Success? ==>
        && DistinctKeys(r.value.gameIds)
        && Keys(r.value.gameIds) == SeasonSet(seasons)
        && (forall i :: 0 <= i < |seasons| ==>
              roster(seasons[i], playoffs).Success? &&
              Get(r.value.gameIds, seasons[i]) == Some(Unique(GameColumn(roster(seasons[i], playoffs).value))))
  {
    var fetched := FetchListings(seasons, playoffs, roster);
    if fetched.Success? {
      var listings := fetched.value;
      AccumulateGameKeys(seasons, listings);
      forall i | 0 <= i < |seasons| ensures roster(seasons[i], playoffs) == Success(listings[i]) {
        FetchedEveryListing(seasons, playoffs, roster, i);
      }
      assert Consistent(seasons, listings);
      forall i | 0 <= i < |seasons|
        ensures Get(Accumulate(seasons, listings).gameIds, seasons[i]) == Some(Unique(GameColumn(listings[i])))
      {
        AccumulateGameAt(seasons, listings, i);
      }
    }
  }

  /** On success the player list holds exactly the player IDs, as strings, of every listed season. */
  lemma ProcessSeasonsPlayers(seasons: seq<string>, playoffs: bool,
                              roster: (string, bool) -> Result<seq<PlayerGame>, Exception>)
    ensures var r := ProcessSeasonsSpec(seasons, playoffs, roster);
      r.Success? ==>
        forall x :: x in r.value.playerIds <==>
          exists i :: 0 <= i < |seasons| && roster(seasons[i], playoffs).Success? &&
            x in PlayerColumn(roster(seasons[i], playoffs).value)
  {
    var fetched := FetchListings(seasons, playoffs, roster);
    if fetched.Success? {
      var listings := fetched.value;
      forall i | 0 <= i < |seasons| ensures roster(seasons[i], playoffs) == Success(listings[i]) {
        FetchedEveryListing(seasons, playoffs, roster, i);
      }
      forall x {
        AccumulatePlayer(seasons, listings, x);
      }
    }
  }
}
