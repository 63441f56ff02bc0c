# Team roster and battle setup rules of the iCAN Pokémon backend

This project models the rules buried in the Flask route handlers of a
Pokémon team-building web application. Each one is a validator or an update
of a list or a table:

- **Draft team** (`backend/app/teams.py`). `add_pokemon` keeps a list of
  species names in the session: at most six, no duplicates. `update_team`
  collects the six form slots, deletes the team's member rows, and inserts
  one row per name that resolves to a pokedex entry. The member id is the
  list index + 1.
- **Team members** (`backend/app/user_poke_team_members.py`).
  - `add_user_team_member` accepts exactly four distinct moves and at most
    six members per team. The new member's id is the member count + 1, its
    HP is the species' base HP, and every move starts at full PP.
  - `update_team_member` replaces the four moves of every matching row.
  - `delete_team_member` removes the matching rows.
  - Every check happens before the single write.
- **Team creation** (`backend/app/user_teams.py`). `create_team` checks the
  name (present, at most 30 characters) and the login. It numbers the new
  team one above the largest team id in use and inserts it as active.
- **Row reshaping** (`backend/app/main.py`, `backend/app/battle.py`).
  - `load_teams` groups the joined team/member rows by team id, in
    first-appearance order.
  - `load_badges` turns gym badge titles into badge records.
  - `start_battle` finds the active team of the fixed debug user and
    partitions the battle-state rows into a player side and an opponent
    side, the last row winning. It then gives each side a four-entry move
    list.

## How the model is organised

- **State.** The database tables are the `seq` fields of the class
  `Tables.Database`. The Flask session is the class `Tables.Session`.
  Handlers that write are methods with `modifies` clauses. Each method's
  `ensures` ties the new table to a specification function of the old one.
- **Reference data.** Species base HP, move max PP and the pokedex names
  are the value `Tables.Catalog`. Rows returned by a query the model does
  not evaluate are parameters, and so is the `get_battle_state` stored
  procedure.
- **Python semantics.**
  - `if not x` is written out: None and 0 are falsy for ids, None and ""
    for strings.
  - `'username' in session` tests only that the key is present.
  - `str.strip()` uses Python's full whitespace set.
  - An `int(form[...])` that raises, a missing dictionary key, and a
    `None + 1` all become the handler's 500 answer.
  - SQL `UPDATE` and `DELETE` act on every matching row. `fetchone()`
    without `ORDER BY` is read as the first match in table order.

## Model

| member | source | states |
|---|---|---|
| Common.StripFacts | backend/app/teams.py:86 | `strip()` yields a slice of the input with only whitespace outside it. The slice neither starts nor ends with whitespace, and it is empty exactly when the input is all whitespace. |
| Common.SetSize | backend/app/user_poke_team_members.py:174 | `len(set(s))` is at most `len(s)`, and equal to it exactly when no element occurs twice. |
| Tables.FindByNameFirst | backend/app/teams.py:98-107 | The lookup of a name, ignoring ASCII case, gives None exactly when no entry matches. Otherwise it gives the pokedex id of the first matching entry in table order. |
| Tables.WithoutTeamRows | backend/app/teams.py:94-95 | Deleting a team's rows leaves that team with no rows and every other team with the rows it had, in order. |
| DraftTeam.Added | backend/app/teams.py:67-72 | A missing or empty value changes nothing. The list grows by one exactly when the value is non-empty, the list has fewer than six names and the value is new. An add appends at the end and keeps the earlier names. A duplicate-free list of at most six stays so. |
| DraftTeam.AddPokemon | backend/app/teams.py:65-73 | The session draft becomes the old draft after one add. |
| DraftTeam.AddedAllKeepsDraftValid | backend/app/teams.py:68-72 | Any run of adds keeps a well-formed draft well-formed, and the names already there stay at the front. |
| DraftTeam.CollectSlots | backend/app/teams.py:84-88 | The collected names are the stripped, non-empty values of slots pokemon0..pokemon5, in slot order. |
| DraftTeam.CollectedNamesClean | backend/app/teams.py:84-88 | The collected list has at most six names; none is empty or has whitespace at either end. |
| DraftTeam.SavedRows | backend/app/teams.py:104-111 | In each saved row, member id i + 1 holds the first case-insensitive pokedex match of name i. The row has no HP and no moves, and member ids strictly increase. |
| DraftTeam.SavedRowsComplete | backend/app/teams.py:104-111 | Every name that resolves is saved under member id index + 1. Unresolved names leave gaps. |
| DraftTeam.SaveReplacesTeamRows | backend/app/teams.py:93-111 | After a save, the team's rows are exactly the saved rows, and every other team's rows are unchanged. |
| DraftTeam.SaveMembers | backend/app/teams.py:93-112 | The member table becomes the old table without the team's rows, followed by the saved rows. |
| DraftTeam.UpdateTeam | backend/app/teams.py:77-121 | Without a truthy team id in the session, neither the session nor the table changes. Otherwise the team's rows are replaced, and the session draft becomes the collected list, unresolved names included. |
| TeamMembers.MoveIds | backend/app/user_poke_team_members.py:171 | The four move ids in field order, or None exactly when one of fields move_1_id..move_4_id is missing. |
| TeamMembers.SetOfFourIff | backend/app/user_poke_team_members.py:173-175 | For four ids, the set-size check passes exactly when the ids are pairwise distinct. |
| TeamMembers.FirstUnknown | backend/app/user_poke_team_members.py:196-201 | None exactly when every move is known. Otherwise it names the first unknown move in list order. |
| TeamMembers.LookupPps | backend/app/user_poke_team_members.py:195-202 | On success, each move's max PP, in order. Otherwise the first move id not found. |
| TeamMembers.AddPlan | backend/app/user_poke_team_members.py:168-225 | The insert happens exactly when all of these hold: the form parses, the moves are distinct, the team has fewer than six rows, and the species and all four moves are known. The row then has member id count + 1, the species' base HP, and slot i holding move i at its max PP. Each error is reported exactly when its check is the first to fail: bad form, repeated moves, full team, unknown species (naming the form's species), unknown move (naming the first unknown one). |
| TeamMembers.AddMember | backend/app/user_poke_team_members.py:164-236 | On success, appends the planned row, then answers with the ending: the 500 of the missing import as written, or the redirect to the member list with the import added (see Findings). On any error, answers 400 or 500 naming the error, and leaves the table unchanged. |
| TeamMembers.UpdatePlan | backend/app/user_poke_team_members.py:313-331 | The update goes ahead exactly when the form parses, the moves are distinct and all four are known. The new slots hold the moves at full PP. A bad form, repeated moves and an unknown move are each reported exactly when that check is the first to fail, and an unknown move is the first one in list order. |
| TeamMembers.UpdatedRows | backend/app/user_poke_team_members.py:334-349 | Every row matching (team id, member id) gets the new slots and keeps its ids, pokedex id and HP. Every other row is unchanged. |
| TeamMembers.UpdateMember | backend/app/user_poke_team_members.py:309-360 | On success, the matching rows get the new moves, then the answer is the ending: the 500 as written, or the redirect with the import added (see Findings). On any error, no row changes and the answer names the error. |
| TeamMembers.DeletedRows | backend/app/user_poke_team_members.py:248-251 | Exactly the targeted rows go and every other row stays, copy for copy: the kept rows are the table's multiset minus the targeted rows. A missing field (SQL NULL) removes nothing. |
| TeamMembers.DeletedRowsByTeam | backend/app/user_poke_team_members.py:248-251 | The delete keeps the order of what stays. Every team it does not name keeps exactly its rows. The named team keeps its rows with other member ids, in their order. |
| TeamMembers.DeleteMember | backend/app/user_poke_team_members.py:239-261 | The member table loses exactly the targeted rows, and the answer is the ending: the 500 as written, or the redirect with the import added (see Findings). |
| TeamMembers.WrittenWritesThenFail | backend/app/user_poke_team_members.py:226-232 | As written, every add or update that passes its checks answers 500 after its write is committed, because `redirect` is never imported. The same holds for every delete. |
| TeamMembers.RedirectsIffWritten | backend/app/user_poke_team_members.py:228 | With the import added, an add or an update answers the redirect exactly when its write happens, and a delete always does. |
| TeamMembers.DeleteThenAddRepeatsId | backend/app/user_poke_team_members.py:181-186 | After deleting member 1 of a two-member team, the next add gets member id 2, which the remaining member already holds. |
| UserTeams.MaxTeamId | backend/app/user_teams.py:126-127 | `MAX(user_team_id)` is None exactly on an empty table. Otherwise it is an id in use that no other id exceeds. |
| UserTeams.CreatePlan | backend/app/user_teams.py:110-135 | A team is created exactly when all of these hold: the name is present and non-empty, it has at most 30 characters, the user is logged in, and some team exists. The row then has the session user, the given name, active = true, and an id above every id in use and one above an existing id. The first failing check names the error, the empty table included. |
| Routing.WrittenEndpointsUndefined | backend/app/auth.py:6 | Neither `auth.login` nor the dotless `get_all_teams` is an endpoint of any blueprint, so `url_for` raises for both. |
| UserTeams.RedirectTo | backend/app/user_teams.py:139-143 | `redirect(url_for(e))` redirects exactly when some blueprint of the package defines the endpoint `e` (`Routing.Builds`). Otherwise it answers 500. |
| UserTeams.WrittenCreateFailsAfterInsert | backend/app/user_teams.py:139-143 | As written, every successful creation answers 500 after the insert, because no blueprint defines the endpoint `get_all_teams`. |
| UserTeams.CreateRedirectsIffCreated | backend/app/user_teams.py:139 | With the blueprint-qualified endpoint, the answer is the redirect exactly when a team is created. |
| UserTeams.CreateTeam | backend/app/user_teams.py:102-143 | On success, appends the planned row. On error, leaves the table unchanged and answers 400, 401 or 500. |
| UserTeams.CreateKeepsIdsUnique | backend/app/user_teams.py:126-135 | If team ids were unique, they stay unique after a creation. |
| UserTeams.SuccessiveCreatesIncrease | backend/app/user_teams.py:126-128 | Two successive creations hand out strictly increasing team ids. |
| Pages.TeamIds | backend/app/main.py:190-201 | The team ids of the rows, each once: every row's id is listed, and every listed id is some row's. |
| Pages.FirstName | backend/app/main.py:196-201 | A team's name is the name on its first row. It is None exactly when the team has no row. |
| Pages.GroupTeams | backend/app/main.py:189-205 | The loop's output is the reference grouping: one view per team id in first-appearance order, with the first row's team name and the pokedex names of all the team's rows in order. |
| Pages.GroupedTeamsOnce | backend/app/main.py:196-201 | The grouping lists each team once, and only teams that have rows. |
| Pages.GroupedNonEmpty | backend/app/main.py:196-202 | Every listed team has at least one entry. A team whose only joined row carries a NULL pokedex name, the LEFT JOIN row of a team without members, lists exactly `[None]`. |
| Pages.GroupedCoversRows | backend/app/main.py:191-202 | Every row's pokedex name is listed under its own team. |
| Pages.TeamIdsFirstAppearance | backend/app/main.py:196-205 | For two teams listed in that order, a row of the first comes before every row of the second. |
| Pages.ToLogin | backend/app/main.py:153 | `redirect(url_for(e))` outside any `try` redirects to `e` exactly when some blueprint defines it. Otherwise Flask answers 500. |
| Pages.LoadTeams | backend/app/main.py:147-207 | With the login endpoint corrected (see Findings): without a username key, redirects to `login.login` and groups nothing. Otherwise shows the grouping of the rows. |
| Pages.GymBadges | backend/app/main.py:309-315 | One badge per gym title, in order. Each has that name, an empty description and the image badge.png. |
| Pages.EarnedTitles | backend/app/main.py:331-332 | The earned list is the earned titles, in order. |
| Pages.LoadBadges | backend/app/main.py:275-338 | With the login endpoint corrected (see Findings): without a username key, redirects to `login.login`. Otherwise shows the gym badges and the earned titles. |
| Pages.BadgesHomeContents | backend/app/main.py:309-332 | With a username, the badges page has one record per gym title, named after it, with an empty description and badge.png, and the earned titles in order. |
| Pages.WrittenLoginFails | backend/app/main.py:152-153 | As written, both pages answer 500 exactly when the session has no username, because no blueprint is named `auth`. |
| Pages.LoginRedirectsIffNoUsername | backend/app/main.py:280-281 | With `login.login`, both pages redirect to login exactly when the session has no username. |
| Battle.ActiveTeamOf | backend/app/battle.py:17-22 | None exactly when the user has no active team. Otherwise the id of the user's first active team in table order. |
| Battle.SideOf | backend/app/battle.py:39-42 | A row goes to the player exactly when its party_type is 'USER'. Every other value goes to the opponent. |
| Battle.Partitioned | backend/app/battle.py:36-42 | The partition fails (KeyError) exactly when some row has no party_type. |
| Battle.PartitionedSides | backend/app/battle.py:37-42 | A side is present exactly when some row goes to it. It then holds the last such row. |
| Battle.Partition | backend/app/battle.py:36-42 | The loop computes the partition, failing on the first row without party_type. |
| Battle.WithMoves | backend/app/battle.py:46-51 | Adds a "moves" list of four entries, where entry n copies move_n+1's name, current PP and max PP. Every other column is kept. Fails exactly when one of the twelve columns is missing. |
| Battle.WithAllMoves | backend/app/battle.py:45-51 | Every side gets its move list, with the keys unchanged. Fails exactly when some side lacks a move column. |
| Battle.AttachMoves | backend/app/battle.py:45-51 | The loop over the sides computes the move lists of all sides. |
| Battle.StartBattle | backend/app/battle.py:10-57 | Without an active team for user 1, answers 400 whatever the procedure would return, and status 400 means exactly that. Status 200 means an active team whose rows build the page. Otherwise calls the procedure with (team id, gym id) and shows its partitioned rows with move lists, or answers 500 when a lookup fails. |
| Battle.BattleStateSides | backend/app/battle.py:36-51 | The page has at most the two sides. A side is present exactly when a row goes to it; it is that side's last row, with a four-entry move list and the party_type that put it there. |
| Battle.BattleStateDefined | backend/app/battle.py:36-57 | The page is built exactly when every row has a party_type and every kept side has all twelve move columns. |

## Left out

- Combat (damage, type matchups, fainting, switching, victory). None of it is in these handlers. `start_battle` hands battle setup to the
  `get_battle_state` stored procedure, which is not part of this model. `backend/app/battles.py` draws a random outcome.
- The SQL queries are not evaluated. The joined rows of `load_teams`, the badge titles of `load_badges` and the procedure's rows are inputs. This leaves out:
  - the `LIKE '%username%'` filter of `load_teams`, which also matches other users whose names contain the username;
  - the `DISTINCT`/`GROUP BY` of the earned-badge query;
  - the name searches.
- The database driver interface is assumed. Each row access is read the way its handler intends. Where a handler indexes rows by column name, the model reads by name, as a dictionary cursor would. In `create_team`, the `MAX(user_team_id)` value is read by position from the default cursor opened at `backend/app/user_teams.py:123` (`fetchone()[0]` at line 127), and the model reads it so. Several handlers call `cursor(cursor_class=...)`. With the pymysql connection made in `backend/app/db.py`, those calls would raise and answer 500.
- Connections and transactions are not modelled: opening and closing connections, commit, isolation levels, and exceptions raised by the database mid-handler. For example, a failure inside `update_team` after its DELETE is committed by nobody, and the exception propagates.
- Tables.FindByNameFirst: folds case for ASCII letters only, while Python's `lower()` and MySQL's `LOWER()` fold all of Unicode. The MySQL collation rules for comparing strings (trailing spaces, accents) are not modelled either.
- TeamMembers.AddPlan: parsing form text with `int()` is not modelled. A form field is None when missing or not an integer, and then the handler answers 500.
- TeamMembers.DeletedRows: the delete handler passes the form text unparsed and MySQL converts it. The model takes the fields as integers, or None when missing, which matches no row.
- DraftTeam.AddPokemon: the redirect that `add_pokemon` and `update_team` always answer with is not modelled. Both methods return nothing.
- Pages.LoadTeams: template rendering (`render_template`), `jsonify` and the text of error messages are not modelled. Answers are datatypes that carry the status and which error occurred.
- The debug `print` calls are left out.
- Blueprint registration is not modelled. The app factory in `backend/app/__init__.py` registers only the `pokedex`, `user_teams` and `user_poke_team_members` blueprints, so the handlers of `teams.py`, `main.py` and `battle.py` cannot be reached as the app is built. Registering the `teams` blueprint of `teams.py` beside that of `user_teams.py` would also clash, since both are named 'teams'. The model treats every blueprint as registered: `Routing.Endpoints` holds the endpoints of all of them except the unimportable `user_teams-old1.py`, and the handlers are modelled as if reachable.
- Routes outside this model:
  - `save_team_name` and the search page `create_team` of `backend/app/teams.py`;
  - `edit_team_member` and the read-only views of `backend/app/user_poke_team_members.py`, `backend/app/user_teams.py`, `backend/app/pokedex.py` and `backend/app/gym.py`;
  - the profile, home and battle pages of `backend/app/main.py`, whose statistics are SQL aggregates;
  - `backend/app/auth.py`, `backend/app/battles_summary.py` and `backend/app/user_teams-old1.py`.

## Findings

| source | as written | input that shows it | evidently intended | confidence | as-written member | corrected member |
|---|---|---|---|---|---|---|
| backend/app/user_teams.py:139 | `url_for('get_all_teams')` names the view without its blueprint. The app registers it only as `teams.get_all_teams`, so `url_for` raises after the insert is committed, and the `except` answers 500. | Any valid creation, e.g. name "Aces", logged-in user 1, existing team id 4. Team 5 is inserted and the answer is 500. | A redirect to the teams list (`teams.get_all_teams`, or `.get_all_teams`). | high in reasoning, not executed | UserTeams.WrittenCreateFailsAfterInsert | UserTeams.CreateRedirectsIffCreated |
| backend/app/user_poke_team_members.py:228 | Neither `redirect` nor `url_for` is imported anywhere in the module (its imports are lines 1-4 and 95), but `add_user_team_member`, `delete_team_member` (line 254) and `update_team_member` (line 353) call `redirect(url_for(...))` after committing. The NameError is caught and answered with 500. | Any valid add, e.g. team 1 with one member, species 25 and moves 1, 2, 3, 4 all known. The row is inserted and the answer is 500. | A redirect to the member list, with `redirect` and `url_for` imported from flask. | high in reasoning, not executed | TeamMembers.WrittenWritesThenFail | TeamMembers.RedirectsIffWritten |
| backend/app/main.py:153 | `url_for('auth.login')` in `load_teams` (and in `load_badges`, line 281) names a blueprint that does not exist: `backend/app/auth.py` names its blueprint 'login'. The BuildError is raised outside any `try`, so Flask answers 500. | A visit to either page with an empty session. | A redirect to the login view, `login.login`. | high in reasoning, not executed | Pages.WrittenLoginFails | Pages.LoginRedirectsIffNoUsername |

`UserTeams.CreateTeam` uses the corrected endpoint. `TeamMembers.AddMember`, `UpdateMember` and `DeleteMember` take the ending as a parameter: `AsWritten` gives the 500 after the commit, `WithImport` the redirect. `Pages.LoadTeams` and `Pages.LoadBadges` use `login.login`. `url_for` is modelled by `Routing.Builds`, over the endpoints defined by the package's blueprints. The `user_teams` blueprint of `backend/app/user_teams-old1.py` is not among them, since nothing imports that file and its hyphenated name cannot appear in an import statement.
