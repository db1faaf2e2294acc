# nba_data_pull: inventory reconciliation and fetch planning, in Dafny

nba_data_pull keeps a store of NBA statistics: game tables per game ID, player tables per player ID, and
season tables per season, rate (per game or per 100 possessions) and phase (regular season or playoffs).
The project models the part of the pipeline that decides what is still missing:

- **Inventory.** `build_directory_tree` folds the storage folders into the inventory document. It uses a
  collapse rule: a folder whose subfolders are all leaves becomes the list of their names.
- **Season arithmetic.** The current season year comes from the date. The season key of year `Y` is `str(Y)`
  followed by the last two characters of `str(Y + 1)`.
- **The manifest (`data_to_pull`).** Both copies of `get_data_to_pull` build it from the inventory. Each
  copy calls `get_season_list` and `process_seasons`:
  - `get_season_list` picks the years whose per-game key is missing.
  - `process_seasons` asks the remote season listing for each such year's games and players.
- **The fetch commands.** Both copies of `get_data.py` walk the manifest. They skip some IDs, build one
  ingest object per remaining ID, and turn each failure into an error-log entry or an abort.

Modules, in dependency order:

- `Wrappers`: `Option`, `Result`, Python exceptions.
- `Seqs`: order-preserving filters and `unique()`.
- `Dicts`: a Python dict as an insertion-ordered association list.
- `Seasons`: the current season year, decimal strings, season keys and the expected key range.
- `DirectoryTree`: `build_directory_tree`, and lookups in its result.
- `Inventory`: the seven leaves of the inventory, and how they are read out of the tree.
- `InventoryUtils`: `get_season_list`, and `process_seasons` as a loop.
- `Manifest`: the dict literal both copies of `get_data_to_pull` share.
- `LocalCreateInventory` and `S3CreateInventory`: the two `get_data_to_pull` commands.
- `Ingestion`: the loop shape every fetch command shares, with its three exception policies.
- `SeasonFetch`: the four season-grain loops.
- `LocalGetData` and `S3GetData`: the two pairs of fetch commands.

"Local" names the copies under `src/inventory` and `src/data_pull`. "S3" names the copies under
`src/nba_data_pull`.

Calls the model cannot see are function parameters:

- the remote season listing (`roster`);
- the ingest objects' construction and saving (`ingest`);
- today's date, a `Date` value.

The file system seen by the local game command is a snapshot: a map from folder name to entry count.
Methods (`InventoryUtils.ProcessSeasons`, `S3CreateInventory.GetDataToPull`, `Ingestion.RunPass`,
`Ingestion.RunPasses`) carry the source's loops and in-place updates. Each is proved equal to the function
that the lemmas are about.

Behaviours of the code that a reader might not expect, each pinned by a member:

- **Roster failures abort.** `process_seasons` (src/inventory/inventory_utils.py:34-37) calls the remote
  listing with no `try` around it, so the first failing listing aborts the whole command
  (`InventoryUtils.ProcessSeasonsLoopRaises`).
- **Empty-list substitution in one copy only.** The S3 `get_data_to_pull`
  (src/nba_data_pull/inventory/create_inventory.py:199-217) replaces an empty season list with the
  current season key (`S3CreateInventory.PlanSeasonLists`). The local copy writes `[]`
  (`LocalCreateInventory.PlanSeasonLists`). The local `get_season_list` also raises instead of returning
  when nothing is missing.
- **The fallback's error.** Line 63 of src/inventory/inventory_utils.py computes `seasons + 1` on a
  list, which is a `TypeError` (`InventoryUtils.ListPlusInt`).
- **Players from the regular season only.** The docstring of `process_seasons`
  (src/inventory/inventory_utils.py:20-29) promises the player IDs "from all seasons". But both copies
  of `get_data_to_pull` keep only the regular-season call's player IDs, and the playoff call's are
  dropped (`Manifest.AssemblePlayersAndGames`).
- **Ordered lists.** The code builds ordered lists that may repeat IDs across seasons. The model keeps
  their order (`Manifest.AssemblePlayersOrder`, `InventoryUtils.AbsorbPlayer`).
- **Key shape.** The f-string at src/inventory/inventory_utils.py:56 gives a six-character key only for
  four-digit years, and the model proves the shape there (`Seasons.SeasonKeyShape`).

## Model

| member | source | states |
|---|---|---|
| Seasons.SeasonYearCovers | src/inventory/inventory_utils.py:10-16 | season `y` is the current one exactly from October of `y` through September of `y + 1` (month at most 9 gives the previous year) |
| Seasons.SeasonYearMonotonic | src/nba_data_pull/data_pull/get_data.py:21-27 | the current season year never decreases as the date advances |
| Seasons.ParseNatToString | src/nba_data_pull/data_pull/get_data.py:229-231 | reading back the decimal rendering of a non-negative year gives the year |
| Seasons.LastTwoDigits | src/inventory/inventory_utils.py:56 | for a number of two digits or more, `str(n)[-2:]` is its tens digit followed by its units digit |
| Seasons.SeasonKeyShape | src/inventory/inventory_utils.py:56 | for a four-digit year the key has six characters; its first four are `str(Y)` and parse back to `Y`; the last two are the zero-padded last two digits of `Y + 1` |
| Seasons.SeasonKeyExamples | src/inventory/inventory_utils.py:56 | 2009 gives "200910", 1999 gives "199900" and 2020 gives "202021" |
| Seasons.SeasonKeyInjective | src/inventory/inventory_utils.py:56 | distinct four-digit years have distinct keys |
| Seasons.ExpectedKeys | src/inventory/create_inventory.py:92-95 | the expected list has one key per year of the inclusive range, and none when the range is empty |
| Seasons.ExpectedKeysSnoc | src/nba_data_pull/inventory/create_inventory.py:141-144 | the expected list ascends by year: the range with one more year gains that year's key at the end |
| Seasons.ExpectedKeyYear | src/inventory/inventory_utils.py:51-56 | the `i`-th expected key parses back to year `earliest + i` |
| Seasons.ExpectedKeysDistinct | src/inventory/inventory_utils.py:51-56 | over four-digit years the expected list holds no key twice |
| DirectoryTree.Subdirs | src/inventory/inventory_utils.py:70 | keeps exactly the directory entries |
| DirectoryTree.Build | src/inventory/inventory_utils.py:68-84 | the entries of the result are exactly the subdirectory names; the result is the empty list exactly when there is no subdirectory |
| DirectoryTree.CollapseRule | src/inventory/inventory_utils.py:77-84 | the result is a list exactly when every subdirectory is a leaf, and then it lists their names in order; otherwise it is a mapping keyed by exactly the subdirectory names, each mapped to that subdirectory's tree |
| DirectoryTree.CollapseShape | src/inventory/inventory_utils.py:79-82 | the list half of the collapse rule |
| DirectoryTree.CollapseMapping | src/inventory/inventory_utils.py:77-84 | the mapping half: keys and values |
| DirectoryTree.CollapseMappingValues | src/inventory/inventory_utils.py:77 | each subdirectory's name maps to its own recursive tree |
| DirectoryTree.FilesIgnored | src/inventory/inventory_utils.py:70 | plain files never change the result |
| DirectoryTree.AllLeavesFlatten | src/inventory/inventory_utils.py:79-82 | a folder of leaf folders gives the list of their names |
| DirectoryTree.LeafFoldersGiveFlatList | src/inventory/inventory_utils.py:79-82 | `PLAYER/{1,2,3}` gives the flat list of the three names |
| DirectoryTree.FindDir | src/inventory/inventory_utils.py:77 | finds a subdirectory of the given name exactly when there is one |
| DirectoryTree.LookupFindsFolder | src/inventory/inventory_utils.py:60 | a successful `tree[a][b]...` lookup finds the tree of the folder at that path, whose entries are that folder's subdirectory names |
| DirectoryTree.LookupPrefix | src/inventory/create_inventory.py:126 | a successful nested lookup passes through successful shorter lookups |
| Inventory.FromTreeLeaves | src/inventory/create_inventory.py:116-146 | each field of an inventory read from the tree is the leaf at its `GAME`, `PLAYER` or `SEASON` path |
| Inventory.LeafRecords | src/inventory/inventory_utils.py:68-84 | a leaf read from the built tree is exactly the set of subfolder names at that path |
| Inventory.FromTreeRecordsFolders | src/inventory/create_inventory.py:53-70 | an inventory built from the folders records, in every leaf, exactly the folders stored there |
| Inventory.EmptyPerGameFoldersTypeError | src/inventory/inventory_utils.py:57-61 | when `SEASON/PER_GAME` holds only empty folders, the collapse rule (lines 79-82) turns `inventory["SEASON"]["PER_GAME"]` into a list, so reading `inventory["SEASON"]["PER_GAME"][season_grain]` raises `TypeError` for either phase |
| InventoryUtils.GetSeasonList | src/inventory/inventory_utils.py:47-65 | raises exactly when the per-game leaf of the chosen phase holds every expected key, and then with the `TypeError` of `seasons + 1`; otherwise returns between one and as many entries as there are expected keys |
| InventoryUtils.MissingYearsContents | src/inventory/inventory_utils.py:51-61 | a year is missing exactly when it is in range and its key is not in the leaf; the missing years ascend |
| InventoryUtils.PrefixesOfMissing | src/inventory/inventory_utils.py:56-61 | for four-digit years the year prefixes of the missing keys are `str(y)` of the missing years, in order |
| InventoryUtils.GetSeasonListYears | src/inventory/inventory_utils.py:47-65 | for four-digit years the result is `str(y)` for exactly the years whose per-game key is missing, ascending, or the `TypeError` when none is |
| InventoryUtils.GetSeasonListReadsPerGameLeaf | src/inventory/inventory_utils.py:49-54 | only the per-game leaf of the chosen phase is consulted |
| InventoryUtils.PlayerColumn | src/inventory/inventory_utils.py:39 | `df["PLAYER_ID"].astype(str)` has one entry per row, and each entry reads back as that row's player ID |
| InventoryUtils.FetchListings | src/inventory/inventory_utils.py:34-37 | a successful pass holds one listing per season |
| InventoryUtils.AbsorbKeys | src/inventory/inventory_utils.py:38 | the loop body adds the season to the game dict's keys and never repeats a key |
| InventoryUtils.AbsorbGet | src/inventory/inventory_utils.py:38 | the loop body stores the season's unique game IDs under it and leaves every other key alone |
| InventoryUtils.AbsorbPlayer | src/inventory/inventory_utils.py:39 | the loop body keeps the old player list as a prefix and appends the listing's player IDs without repeats; an ID is in the new list exactly when it was in the old one or in the listing |
| InventoryUtils.ProcessSeasonsLoopRaises | src/inventory/inventory_utils.py:34-37 | the first failing season listing ends `process_seasons` with its exception |
| InventoryUtils.ProcessSeasons | src/inventory/inventory_utils.py:19-44 | the loop computes what the specification function gives, returning or raising alike |
| InventoryUtils.ProcessSeasonsSucceeds | src/inventory/inventory_utils.py:34-41 | returns exactly when every season's listing can be fetched |
| InventoryUtils.ProcessSeasonsRaises | src/inventory/inventory_utils.py:36-37 | when it raises, it raises what some season's listing raised |
| InventoryUtils.AccumulateGameKeys | src/inventory/inventory_utils.py:30-38 | the game dict has exactly one key per distinct season, each once |
| InventoryUtils.AccumulateGameAt | src/inventory/inventory_utils.py:38 | each season maps to the unique game IDs of its listing |
| InventoryUtils.AccumulatePlayer | src/inventory/inventory_utils.py:31-39 | the player list holds exactly the player IDs of all listings |
| InventoryUtils.ProcessSeasonsGames | src/inventory/inventory_utils.py:30-44 | on success the game dict is keyed by exactly the seasons, each once, each holding the unique game IDs fetched for it |
| InventoryUtils.ProcessSeasonsPlayers | src/inventory/inventory_utils.py:31-44 | on success the player list holds exactly the player IDs of every season's listing |
| Manifest.MissingKeys | src/inventory/create_inventory.py:121-147 | filtering the expected keys by a leaf gives the keys of exactly the missing years, in ascending order |
| Manifest.AssembleSeasonYears | src/inventory/create_inventory.py:121-147 | each of the four season lists is the keys of the years its own leaf lacks, ascending |
| Manifest.AssembleSeasonContents | src/nba_data_pull/inventory/create_inventory.py:170-196 | a season list holds an expected key exactly when the matching leaf lacks it, and is empty exactly when that leaf holds every expected key |
| Manifest.AssembleReadsOwnLeaf | src/inventory/create_inventory.py:122-146 | a per-possession list never consults a per-game leaf, nor the other way round |
| Manifest.AssemblePlayersAndGames | src/inventory/create_inventory.py:111-120 | an ID is in the player list exactly when it is a regular-season ID not in the player leaf, and the list is never longer than the IDs it filters; the game maps pass through unfiltered |
| Manifest.AssemblePlayersOrder | src/inventory/create_inventory.py:116-120 | the player list keeps the IDs' order: filtering two stretches of IDs one after the other gives their lists one after the other, and IDs none of which is inventoried pass through unchanged, repeats included |
| LocalCreateInventory.PlanSucceeds | src/inventory/create_inventory.py:97-109 | the command completes exactly when both `get_season_list` calls return and every roster fetch of both phases succeeds |
| LocalCreateInventory.PlanRaisesOnCompletePerGameLeaf | src/inventory/create_inventory.py:97-98 | a per-game leaf holding every expected key makes the command fail with the `TypeError` |
| LocalCreateInventory.PlanSeasonLists | src/inventory/create_inventory.py:111-152 | no substitution: each written season list is the keys of the years its leaf lacks, and it is `[]` exactly when the leaf is complete |
| LocalCreateInventory.PlanPerGameNonEmpty | src/inventory/create_inventory.py:97-133 | in a completed run the per-game lists are never empty |
| LocalCreateInventory.PlanParts | src/inventory/create_inventory.py:97-115 | a completed run writes the missing season lists and, per phase, the game map of `process_seasons` on that phase's season list |
| LocalCreateInventory.PlanGames | src/inventory/create_inventory.py:101-115 | the game section is keyed by exactly the years whose per-game key is missing, each once, each holding the unique game IDs fetched for it |
| LocalCreateInventory.PlanPlayers | src/inventory/create_inventory.py:101-120 | the player list holds exactly the fetched regular-season player IDs not in the player leaf |
| S3CreateInventory.GetDataToPull | src/nba_data_pull/inventory/create_inventory.py:199-217 | the four in-place reassignments produce the planned manifest |
| S3CreateInventory.PlanSeasonLists | src/nba_data_pull/inventory/create_inventory.py:170-217 | each uploaded season list is the keys of the years its leaf lacks, or the current season's key alone when it lacks none; so it is never empty |
| S3CreateInventory.PlanKeepsNonEmpty | src/nba_data_pull/inventory/create_inventory.py:199-217 | a non-empty list passes the substitution unchanged |
| S3CreateInventory.PlanCompleteLeaf | src/nba_data_pull/inventory/create_inventory.py:199-203 | a leaf holding every expected key yields `[current season key]` |
| S3CreateInventory.PlanLateStart | src/nba_data_pull/inventory/create_inventory.py:141-144 | an earliest year after the current season year makes all four lists `[current season key]` |
| S3CreateInventory.PlanPlayersAndGames | src/nba_data_pull/inventory/create_inventory.py:150-169 | the substitution leaves the player list (regular-season IDs not in the player leaf) and the unfiltered game maps alone |
| Ingestion.Handle | src/data_pull/get_data.py:95-109 | nothing happens exactly when the ingest succeeds. Constructor-only guard: construction errors are logged and saving errors propagate. Full guard: everything is logged. Failing handler: nothing is logged and only `KeyError(key)` propagates |
| Ingestion.RunPass | src/nba_data_pull/data_pull/get_data.py:153-175 | the `for`/`continue` loop computes the pass function |
| Ingestion.RequestsMembers | src/nba_data_pull/data_pull/get_data.py:155-158 | an ID gets a request exactly when the skip rule lets it through |
| Ingestion.PassRequests | src/data_pull/get_data.py:94-109 | a finished loop requested every ID not skipped, in order; an aborted one, a prefix of those |
| Ingestion.PassRaises | src/data_pull/get_data.py:94-109 | a loop aborts exactly when some attempt's exception escapes |
| Ingestion.PassCalls | src/data_pull/get_data.py:94-109 | the two lemmas above together |
| Ingestion.PassRaisesFirst | src/data_pull/get_data.py:94-109 | an aborted loop raised the exception of the first attempt that escapes |
| Ingestion.PassLog | src/data_pull/get_data.py:102-105 | a finished loop's log holds each ID once: exactly the recorded ones, each with its exception |
| Ingestion.PassCatchAllCompletes | src/nba_data_pull/data_pull/get_data.py:278-289 | a loop guarding construction and saving never aborts |
| Ingestion.PassFailingRecord | src/nba_data_pull/data_pull/get_data.py:153-171 | under the failing handler a loop logs nothing and aborts only with `KeyError(key)` |
| Ingestion.RunPasses | src/nba_data_pull/data_pull/get_data.py:177-198 | the sequence of loops computes the command function |
| Ingestion.PassesCompletes | src/nba_data_pull/data_pull/get_data.py:177-198 | a command completes exactly when each loop does, having made all loops' requests in order |
| Ingestion.AllCallsMembers | src/data_pull/get_data.py:226-274 | a request was made by the command exactly when one of its loops made it |
| Ingestion.PassesLog | src/data_pull/get_data.py:227-228 | after a completed command, a key holds the log of the last loop having it |
| Ingestion.PassesLogKeys | src/data_pull/get_data.py:226-254 | the completed command's log keys are exactly its loops' keys |
| Ingestion.PassesRaisedFrom | src/nba_data_pull/data_pull/get_data.py:177-198 | an aborted command raised the exception of one of its loops |
| SeasonFetch.SeasonLoopRequests | src/nba_data_pull/data_pull/get_data.py:155-165 | a grain's loop requests `season_id[0:4]` of exactly its listed IDs that are let through, and nothing of other grains |
| SeasonFetch.SeasonLoopRaises | src/nba_data_pull/data_pull/get_data.py:155-171 | a grain's loop aborts exactly when the attempt of one wanted request escapes |
| SeasonFetch.SeasonLoopsRequests | src/nba_data_pull/data_pull/get_data.py:177-198 | a completed season command requested exactly the wanted requests of all four grains |
| SeasonFetch.SeasonLoopsComplete | src/data_pull/get_data.py:92-190 | a season command completes exactly when no wanted request's exception escapes |
| SeasonFetch.SeasonLoopsLog | src/data_pull/get_data.py:93-190 | each grain key holds its own loop's log |
| LocalGetData.SeasonRequestsRule | src/data_pull/get_data.py:94-190 | every listed season ID of every grain is requested, except playoff seasons with no playoff game IDs for their year; regular-season grains are never checked |
| LocalGetData.SeasonAbortRule | src/data_pull/get_data.py:94-190 | the command aborts exactly when saving raises for some season it does not skip |
| LocalGetData.SeasonLogRule | src/data_pull/get_data.py:102-105 | `error_log[grain]` holds, once each, exactly the season IDs whose construction raised, each with its exception |
| LocalGetData.GameLoopRequests | src/data_pull/get_data.py:230-238 | an inner loop requests exactly its games whose folder is missing or holds at most one entry |
| LocalGetData.GameRequestsRule | src/data_pull/get_data.py:226-274 | a completed run requested exactly the listed games not already fetched |
| LocalGetData.GameLogKeys | src/data_pull/get_data.py:226-254 | `error_log[phase]` exists exactly when the phase lists some season |
| LocalGetData.GameLogRule | src/data_pull/get_data.py:227-228 | `error_log[phase]` holds the log of the last season's inner loop only |
| LocalGetData.GameLoopLog | src/data_pull/get_data.py:239-248 | an inner log holds, once each, exactly the unskipped games whose construction raised, each with its exception |
| LocalGetData.GameLogLosesEarlierSeason | src/data_pull/get_data.py:226-248 | two seasons, the first with a failing game: the written `regular_season` log is empty |
| S3GetData.SeasonYearArg | src/nba_data_pull/data_pull/get_data.py:225-231 | a given non-empty argument is used as is; otherwise the string reads back as the current season year |
| S3GetData.GamesToPull | src/nba_data_pull/data_pull/get_data.py:257-266 | `KeyError(season_year)` exactly when the manifest lists no games for that year; otherwise exactly the listed games not inventoried, in the manifest's order, never more than listed |
| S3GetData.GameLoopCalls | src/nba_data_pull/data_pull/get_data.py:275-306 | a phase's loop never aborts and requests exactly that phase's to-pull games |
| S3GetData.GameCompletesRule | src/nba_data_pull/data_pull/get_data.py:248-266 | the command completes exactly when both phases list the season year; otherwise it raises `KeyError(season_year)` before any request |
| S3GetData.GameRequestsRule | src/nba_data_pull/data_pull/get_data.py:253-306 | a completed run requested exactly the games listed for the year that the phase's inventory leaf lacks |
| S3GetData.GameLogRule | src/nba_data_pull/data_pull/get_data.py:275-306 | `error_log[phase]` holds, once each, exactly the to-pull games whose ingest raised, each with its exception |
| S3GetData.SeasonRequestsRule | src/nba_data_pull/data_pull/get_data.py:155-198 | a completed run requested exactly the listed seasons whose year has game IDs for the grain's own phase |
| S3GetData.SeasonAbortRule | src/nba_data_pull/data_pull/get_data.py:159-171 | the command completes exactly when every season not skipped ingests without error |
| S3GetData.GrainFails | src/nba_data_pull/data_pull/get_data.py:153-171 | a grain's loop logs nothing and aborts only with `KeyError` of its own key |
| S3GetData.SeasonLogRule | src/nba_data_pull/data_pull/get_data.py:177-198 | a completed run writes an empty log for every grain |
| S3GetData.SeasonRaisedRule | src/nba_data_pull/data_pull/get_data.py:168-170 | an aborted run raised `KeyError` naming a grain key |

## Left out

- I/O is not modelled. This covers YAML reading and writing, S3 access (`boto3`, `load_yaml_s3`, `put_object`), file paths, `typer` argument parsing, `loguru` logging, `rich`/`tqdm` progress and `sleep`.
- The error log is never serialised. When a command aborts, Python writes no log at all. The model's partial log then means nothing.
- `datetime.now()` and `date.today()` are replaced by a `Date` parameter.
- The `SeasonIngest`, `GameIngest` and `PlayerIngest` classes (src/nba_data_pull/data_pull/dataingest.py) call a foreign stats client. Their construction and saving are the `ingest` oracle.
- `Season(...).get_player_games()` is a remote call. It is the `roster` oracle.
- `get_player_data` in both `get_data.py` copies is not modelled, because the core is season and game selection. It is the same loop shape, under a guard that catches `ValueError` only.
- The `copy_previous_meta` and `create_inventory` commands of both `create_inventory.py` copies are storage plumbing. Only the `build_directory_tree` they call is modelled.
- `update_s3_inventory` and `InventoryMeta` are not part of this model.
- The S3 `get_data_to_pull` imports `get_season_list`, `process_seasons` and `SeasonYear` from src/nba_data_pull/inventory/inventory_utils.py. That file is not part of this model.
  - `S3CreateInventory.Plan` therefore takes the game maps and the regular-season player IDs as parameters.
  - Its current season year is assumed to follow the same rule as the local one.
- src/data_pull/get_data_to_pull.py and scripts/upload_local.py are not modelled. The first repeats the ingest loops with no selection rule; the second is upload code.
- The local game command writes game folders as it goes. Those writes are not fed back into the folder snapshot. Folder names are chosen inside the foreign client, and a game ID appears under one season only.
- Inventory leaves are evaluated eagerly. Python reads a leaf such as `inventory["SEASON"]["PER_GAME"]["PLAYOFFS"]` only when a comprehension tests a key against it. The model decodes the inventory once (`Inventory.FromTree`). So a missing leaf behind an empty expected range is not modelled.
- Inventory.FromTree: also demands the two `GAME` leaves, which no local command reads. A local store whose `GAME` folders are all empty collapses `inventory["GAME"]` into a list; Python plans it fine, but `FromTree` fails on it.
- LocalCreateInventory.Plan takes an already-decoded inventory. The `TypeError` that a collapsed `SEASON/PER_GAME` level raises in the lookups of inventory_utils.py line 60 and create_inventory.py line 126 is stated on the tree (`Inventory.EmptyPerGameFoldersTypeError`), not on the plan.
- Missing manifest sections are not modelled. A missing `game`, `season` or phase section makes `.get(...)` return `None` and the next call fail with `AttributeError`; the model assumes the manifest has every section.
- YAML values are assumed to be strings. YAML may load a season or game ID as an integer, which the model does not represent.
- Exception chaining is not modelled. When the S3 season handler raises `KeyError`, Python chains it to the original exception; the model keeps the `KeyError` only.
- Lists tested with `in` are sets in the model. Only membership is ever asked of them.
- InventoryUtils.GetSeasonListYears: stated for four-digit years only (1000 through 9999). Only there is a key's first four characters the year itself.
- LocalCreateInventory.PlanGames: stated for four-digit years only, for the same reason.
- S3GetData.SeasonYearArg: says nothing about the rendering of a negative current season year.
