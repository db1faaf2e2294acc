/** The `data_to_pull` document that both copies of `get_data_to_pull` build: the game IDs found per
    season, the player IDs still to fetch, and for every season grain the season keys still missing. */
module Manifest {
  import opened Seqs
  import opened Dicts
  import opened Seasons
  import opened Inventory
  import InventoryUtils

  /** `data_to_pull["season"]`: one list of season keys per rate and phase. */
  datatype SeasonLists = SeasonLists(
    perGameRegular: seq<string>,
    perGamePlayoffs: seq<string>,
    perPossessionRegular: seq<string>,
    perPossessionPlayoffs: seq<string>)
  {
    /** `data_to_pull["season"][per_game|per_possession][regular_season|playoffs]`. */
    function Get(rate: Rate, phase: Phase): seq<string> {
      match (rate, phase)
      case (PerGame, RegularSeason) => perGameRegular
      case (PerGame, Playoffs) => perGamePlayoffs
      case (PerPossession, RegularSeason) => perPossessionRegular
      case (PerPossession, Playoffs) => perPossessionPlayoffs
    }
  }

  /** The whole document: `game` (season -> game IDs, per phase), `player` and `season`. */
  datatype Manifest = Manifest(
    gameRegular: Dict<seq<string>>,
    gamePlayoffs: Dict<seq<string>>,
    player: seq<string>,
    season: SeasonLists)
  {
    /** `data_to_pull["game"][regular_season|playoffs]`. */
    function Game(phase: Phase): Dict<seq<string>> {
      if phase == RegularSeason then gameRegular else gamePlayoffs
    }
  }

  /** The four season-grain comprehensions: each list keeps the expected keys its own leaf lacks. */
  function MissingSeasons(expected: seq<string>, inv: Inventory): SeasonLists {
    SeasonLists(
      Without(expected, inv.Season(PerGame, RegularSeason)),
      Without(expected, inv.Season(PerGame, Playoffs)),
      Without(expected, inv.Season(PerPossession, RegularSeason)),
      Without(expected, inv.Season(PerPossession, Playoffs)))
  }

  /** The dict literal both copies write: the game maps from `process_seasons` as they are, the
      regular-season player IDs not yet inventoried, and the missing season keys. */
  function Assemble(expected: seq<string>, inv: Inventory, gamesRegular: Dict<seq<string>>,
                    gamesPlayoffs: Dict<seq<string>>, playersRegular: seq<string>): Manifest
  {
    Manifest(gamesRegular, gamesPlayoffs, Without(playersRegular, inv.player), MissingSeasons(expected, inv))
  }

  /** The season keys of a list of years, in the same order. */
  function SeasonKeys(years: seq<int>): (ks: seq<string>)
    ensures |ks| == |years|
    ensures forall i :: 0 <= i < |years| ==> ks[i] == SeasonKey(years[i])
  {
    seq(|years|, i requires 0 <= i < |years| => SeasonKey(years[i]))
  }

  lemma SeasonKeysConcat(a: seq<int>, b: seq<int>)
    ensures SeasonKeys(a + b) == SeasonKeys(a) + SeasonKeys(b)
  {
  }

  /** Filtering the expected keys of `lo..hi` by a leaf gives the keys of the missing years, in
      ascending year order: the filter keeps the order of the range. */
  lemma {:induction false} MissingKeys(lo: int, hi: int, leaf: set<string>)
    ensures Without(ExpectedKeys(lo, hi), leaf) == SeasonKeys(InventoryUtils.MissingYears(lo, hi, leaf))
    decreases if hi < lo then 0 else hi - lo + 1
  {
    if lo <= hi {
      var front := ExpectedKeys(lo, hi - 1);
      var ys := InventoryUtils.MissingYears(lo, hi - 1, leaf);
      var yt := if SeasonKey(hi) in leaf then [] else [hi];
      var tail := if SeasonKey(hi) in leaf then [] else [SeasonKey(hi)];
      calc {
        Without(ExpectedKeys(lo, hi), leaf);
        { ExpectedKeysSnoc(lo, hi); WithoutConcat(front, [SeasonKey(hi)], leaf); assert Without([SeasonKey(hi)], leaf) == tail; }
        Without(front, leaf) + tail;
        { MissingKeys(lo, hi - 1, leaf); }
        SeasonKeys(ys) + tail;
        { assert SeasonKeys(yt) == tail; }
        SeasonKeys(ys) + SeasonKeys(yt);
        { SeasonKeysConcat(ys, yt); }
        SeasonKeys(InventoryUtils.MissingYears(lo, hi, leaf));
      }
    }
  }

  /** Over a year range, each of the four season lists holds the keys of exactly the years whose key
      its own leaf (rate and phase alike) lacks, in ascending year order. */
  lemma AssembleSeasonYears(lo: int, hi: int, inv: Inventory, gamesRegular: Dict<seq<string>>,
                            gamesPlayoffs: Dict<seq<string>>, playersRegular: seq<string>, rate: Rate, phase: Phase)
    ensures var m := Assemble(ExpectedKeys(lo, hi), inv, gamesRegular, gamesPlayoffs, playersRegular);
      m.season.Get(rate, phase) == SeasonKeys(InventoryUtils.MissingYears(lo, hi, inv.Season(rate, phase)))
  {
    MissingKeys(lo, hi, inv.Season(rate, phase));
  }

  /** A season list holds an expected key exactly when the matching leaf lacks it, and it is empty
      exactly when that leaf already holds every expected key. */
  lemma AssembleSeasonContents(expected: seq<string>, inv: Inventory, gamesRegular: Dict<seq<string>>,
                               gamesPlayoffs: Dict<seq<string>>, playersRegular: seq<string>, rate: Rate, phase: Phase)
    ensures var l := Assemble(expected, inv, gamesRegular, gamesPlayoffs, playersRegular).season.Get(rate, phase);
      forall k :: k in l <==> k in expected && k !in inv.Season(rate, phase)
    ensures var l := Assemble(expected, inv, gamesRegular, gamesPlayoffs, playersRegular).season.Get(rate, phase);
      l == [] <==> forall i :: 0 <= i < |expected| ==> expected[i] in inv.Season(rate, phase)
  {
    WithoutExtremes(expected, inv.Season(rate, phase));
  }

  /** A season list depends on its own leaf only: per-possession lists never consult a per-game
      leaf, and the other way round. */
  lemma AssembleReadsOwnLeaf(expected: seq<string>, a: Inventory, b: Inventory, gamesRegular: Dict<seq<string>>,
                             gamesPlayoffs: Dict<seq<string>>, playersRegular: seq<string>, rate: Rate, phase: Phase)
    requires a.Season(rate, phase) == b.Season(rate, phase)
    ensures Assemble(expected, a, gamesRegular, gamesPlayoffs, playersRegular).season.Get(rate, phase)
         == Assemble(expected, b, gamesRegular, gamesPlayoffs, playersRegular).season.Get(rate, phase)
  {
  }

  /** The player list keeps the regular-season IDs not in the player leaf; the game maps are those
      handed in, unfiltered. */
  lemma AssemblePlayersAndGames(expected: seq<string>, inv: Inventory, gamesRegular: Dict<seq<string>>,
                                gamesPlayoffs: Dict<seq<string>>, playersRegular: seq<string>)
    ensures var m := Assemble(expected, inv, gamesRegular, gamesPlayoffs, playersRegular);
      && (forall x :: x in m.player <==> x in playersRegular && x !in inv.player)
      && |m.player| <= |playersRegular|
      && m.Game(RegularSeason) == gamesRegular && m.Game(Playoffs) == gamesPlayoffs
  {
  }

  /** The player list keeps the order of the listings: the IDs of two stretches of listings give
      their own lists one after the other, and IDs none of which is inventoried pass through as they
      are, repeats included. */
  lemma AssemblePlayersOrder(expected: seq<string>, inv: Inventory, gamesRegular: Dict<seq<string>>,
                             gamesPlayoffs: Dict<seq<string>>, a: seq<string>, b: seq<string>)
    ensures Assemble(expected, inv, gamesRegular, gamesPlayoffs, a + b).player
         == Assemble(expected, inv, gamesRegular, gamesPlayoffs, a).player
          + Assemble(expected, inv, gamesRegular, gamesPlayoffs, b).player
    ensures (forall i :: 0 <= i < |a| ==> a[i] !in inv.player) ==>
      Assemble(expected, inv, gamesRegular, gamesPlayoffs, a).player == a
  {
    WithoutConcat(a, b, inv.player);
    WithoutExtremes(a, inv.player);
  }
}
