/** The row reshaping of backend/app/main.py: `load_teams` groups the joined
    (team, member) rows of a user by team id, and `load_badges` turns the gym
    badge titles into badge records. Both send a visitor without a username
    in the session to the login page. */
module Pages {
  import opened Common
  import opened Tables
  import opened Routing

  /** A row of the `load_teams` query: user_team_id, team_name and the member's
      pokedex name. The LEFT JOINs give a team without members one row whose
      pokedex name is NULL. */
  datatype JoinedRow = JoinedRow(teamId: int, teamName: string, pokedexName: Option<string>)

  /** One entry of `teams_data`: the dict with keys team_id, team_name and
      pokemons. */
  datatype TeamView = TeamView(teamId: int, teamName: string, pokemons: seq<Option<string>>)

  /** The team ids of `rows`, each once, in order of first appearance: the keys
      of `teams_map` in insertion order. */
  function TeamIds(rows: seq<JoinedRow>): (r: seq<int>)
    ensures forall a, b :: 0 <= a < b < |r| ==> r[a] != r[b]
    ensures forall k :: 0 <= k < |rows| ==> rows[k].teamId in r
    ensures forall a :: 0 <= a < |r| ==> exists k :: 0 <= k < |rows| && rows[k].teamId == r[a]
  {
    if rows == [] then []
    else
      var prefix, last := rows[..|rows| - 1], rows[|rows| - 1];
      var p := TeamIds(prefix);
      assert forall k :: 0 <= k < |prefix| ==> prefix[k] == rows[k];
      if last.teamId in p then p else p + [last.teamId]
  }

  /** The team name on the first row of team `id`: the name its `teams_map`
      entry is created with. */
  function FirstName(rows: seq<JoinedRow>, id: int): (r: Option<string>)
    ensures r.Some? <==> exists k :: 0 <= k < |rows| && rows[k].teamId == id
    ensures r.Some? ==> exists k :: 0 <= k < |rows| && rows[k].teamId == id && rows[k].teamName == r.value
                                  && forall j :: 0 <= j < k ==> rows[j].teamId != id
  {
    if rows == [] then None
    else
      var prefix, last := rows[..|rows| - 1], rows[|rows| - 1];
      assert forall k :: 0 <= k < |prefix| ==> prefix[k] == rows[k];
      match FirstName(prefix, id)
      case Some(name) => Some(name)
      case None => if last.teamId == id then Some(last.teamName) else None
  }

  /** The rows of team `id`, in order. */
  function RowsOfTeam(rows: seq<JoinedRow>, id: int): seq<JoinedRow> {
    Filter(rows, (row: JoinedRow) => row.teamId == id)
  }

  /** The pokedex names on the rows of team `id`, in row order, NULL included. */
  function PokemonsOf(rows: seq<JoinedRow>, id: int): seq<Option<string>> {
    var own := RowsOfTeam(rows, id);
    seq(|own|, k requires 0 <= k < |own| => own[k].pokedexName)
  }

  /** The reference grouping: one view per team id in first-appearance order,
      with the team name of its first row and the pokedex names of all its
      rows. */
  function Grouped(rows: seq<JoinedRow>): (r: seq<TeamView>)
    ensures |r| == |TeamIds(rows)|
  {
    var ids := TeamIds(rows);
    seq(|ids|, k requires 0 <= k < |ids| =>
      assert ids[k] in ids;
      TeamView(ids[k], FirstName(rows, ids[k]).value, PokemonsOf(rows, ids[k])))
  }

  /** One more row appends its team id if the id is new. */
  lemma TeamIdsStep(rows: seq<JoinedRow>, i: int)
    requires 0 <= i < |rows|
    ensures TeamIds(rows[..i + 1])
            == if rows[i].teamId in TeamIds(rows[..i]) then TeamIds(rows[..i]) else TeamIds(rows[..i]) + [rows[i].teamId]
  {
    assert rows[..i + 1][..i] == rows[..i];
  }

  /** One more row gives team `id` this row's name only if it had none. */
  lemma FirstNameStep(rows: seq<JoinedRow>, i: int, id: int)
    requires 0 <= i < |rows|
    ensures FirstName(rows[..i + 1], id)
            == if FirstName(rows[..i], id).Some? then FirstName(rows[..i], id)
               else if rows[i].teamId == id then Some(rows[i].teamName) else None
  {
    assert rows[..i + 1][..i] == rows[..i];
  }

  /** One more row adds its pokedex name to its own team's list only. */
  lemma PokemonsStep(rows: seq<JoinedRow>, i: int, id: int)
    requires 0 <= i < |rows|
    ensures PokemonsOf(rows[..i + 1], id)
            == PokemonsOf(rows[..i], id) + if rows[i].teamId == id then [rows[i].pokedexName] else []
  {
    assert rows[..i + 1][..i] == rows[..i];
    assert RowsOfTeam(rows[..i + 1], id) == RowsOfTeam(rows[..i], id) + if rows[i].teamId == id then [rows[i]] else [];
  }

  /** A team id that does not occur has no name and no pokedex names. */
  lemma AbsentTeam(rows: seq<JoinedRow>, id: int)
    requires id !in TeamIds(rows)
    ensures FirstName(rows, id).None? && PokemonsOf(rows, id) == []
  {
    assert forall k :: 0 <= k < |rows| ==> rows[k].teamId != id;
    assert forall x :: x in rows ==> x.teamId != id;
  }

  /** `view` is team `id`'s entry for the rows `done`: the team has a row,
      and the view carries its first name and all its pokedex names. */
  ghost predicate EntryOf(done: seq<JoinedRow>, id: int, view: TeamView) {
    FirstName(done, id).Some? && view == TeamView(id, FirstName(done, id).value, PokemonsOf(done, id))
  }

  /** The state of the grouping loop once the rows `done` are absorbed:
      `teams_map` is kept as its keys in insertion order, which are the team
      ids of `done`, and a map from each key to that team's view of `done`. */
  ghost predicate Absorbed(done: seq<JoinedRow>, order: seq<int>, teamsMap: map<int, TeamView>) {
    && order == TeamIds(done)
    && (forall id :: id in teamsMap <==> id in order)
    && forall id :: id in teamsMap ==> EntryOf(done, id, teamsMap[id])
  }

  /** A row extends the entry of a team already seen: its own team's list
      grows by its pokedex name, every other entry stays. */
  lemma EntryStep(rows: seq<JoinedRow>, i: int, id: int, before: TeamView)
    requires 0 <= i < |rows| && EntryOf(rows[..i], id, before)
    ensures EntryOf(rows[..i + 1], id,
                    if rows[i].teamId == id then before.(pokemons := before.pokemons + [rows[i].pokedexName]) else before)
  {
    FirstNameStep(rows, i, id);
    PokemonsStep(rows, i, id);
  }

  /** The first row of a team opens its entry with that row's name. */
  lemma EntryNew(rows: seq<JoinedRow>, i: int)
    requires 0 <= i < |rows| && rows[i].teamId !in TeamIds(rows[..i])
    ensures EntryOf(rows[..i + 1], rows[i].teamId, TeamView(rows[i].teamId, rows[i].teamName, [rows[i].pokedexName]))
  {
    AbsentTeam(rows[..i], rows[i].teamId);
    FirstNameStep(rows, i, rows[i].teamId);
    PokemonsStep(rows, i, rows[i].teamId);
  }

  /** The loop's map once row `row`'s team has an entry: a new team gets
      one with this row's name and no pokedex names yet. */
  function Opened(teamsMap: map<int, TeamView>, row: JoinedRow): (r: map<int, TeamView>)
    ensures row.teamId in r
  {
    if row.teamId in teamsMap then teamsMap else teamsMap[row.teamId := TeamView(row.teamId, row.teamName, [])]
  }

  /** The loop's map after absorbing row `row`: the row's pokedex name is
      appended to its team's entry, opened first if it had none. */
  function AbsorbRow(teamsMap: map<int, TeamView>, row: JoinedRow): map<int, TeamView> {
    var withEntry := Opened(teamsMap, row);
    withEntry[row.teamId := withEntry[row.teamId].(pokemons := withEntry[row.teamId].pokemons + [row.pokedexName])]
  }

  /** The loop's key order after absorbing a row of team `id`. */
  function AbsorbOrder(order: seq<int>, teamsMap: map<int, TeamView>, id: int): seq<int> {
    if id in teamsMap then order else order + [id]
  }

  /** One iteration of the grouping loop keeps the loop state. */
  lemma AbsorbStep(rows: seq<JoinedRow>, i: int, order: seq<int>, teamsMap: map<int, TeamView>)
    requires 0 <= i < |rows| && Absorbed(rows[..i], order, teamsMap)
    ensures Absorbed(rows[..i + 1], AbsorbOrder(order, teamsMap, rows[i].teamId), AbsorbRow(teamsMap, rows[i]))
  {
    TeamIdsStep(rows, i);
    AbsorbKeys(order, teamsMap, rows[i]);
    AbsorbEntries(rows, i, teamsMap);
  }

  /** The keys after a row are the key order after it. */
  lemma AbsorbKeys(order: seq<int>, teamsMap: map<int, TeamView>, row: JoinedRow)
    requires forall id :: id in teamsMap <==> id in order
    ensures forall id :: id in AbsorbRow(teamsMap, row) <==> id in AbsorbOrder(order, teamsMap, row.teamId)
  {
    var map', order' := AbsorbRow(teamsMap, row), AbsorbOrder(order, teamsMap, row.teamId);
    forall id ensures id in map' <==> id in order' {
      assert id in order' <==> id in order || id == row.teamId;
      assert id in map' <==> id in teamsMap || id == row.teamId;
    }
  }

  /** Every entry after a row is its team's view of the rows so far. */
  lemma AbsorbEntries(rows: seq<JoinedRow>, i: int, teamsMap: map<int, TeamView>)
    requires 0 <= i < |rows|
    requires forall id :: id in teamsMap ==> EntryOf(rows[..i], id, teamsMap[id])
    requires rows[i].teamId !in teamsMap ==> rows[i].teamId !in TeamIds(rows[..i])
    ensures var map' := AbsorbRow(teamsMap, rows[i]);
      forall id :: id in map' ==> EntryOf(rows[..i + 1], id, map'[id])
  {
    var row, map' := rows[i], AbsorbRow(teamsMap, rows[i]);
    forall id | id in map' ensures EntryOf(rows[..i + 1], id, map'[id]) {
      if id == row.teamId && row.teamId !in teamsMap {
        EntryNew(rows, i);
      } else {
        EntryStep(rows, i, id, teamsMap[id]);
      }
    }
  }

  /** Once every row is absorbed, the entries in key order are the grouping. */
  lemma AbsorbedAll(rows: seq<JoinedRow>, order: seq<int>, teamsMap: map<int, TeamView>)
    requires Absorbed(rows, order, teamsMap)
    ensures forall k :: 0 <= k < |order| ==> order[k] in teamsMap
    ensures seq(|order|, k requires 0 <= k < |order| && order[k] in teamsMap => teamsMap[order[k]]) == Grouped(rows)
  {
  }

  /** The grouping loop of `load_teams`: `teams_map` is kept as the list of
      keys in insertion order and a map from key to entry, and the result is
      the entries in key order, as `list(teams_map.values())` gives them. */
  method GroupTeams(rows: seq<JoinedRow>) returns (teams: seq<TeamView>)
    ensures teams == Grouped(rows)
  {
    var order: seq<int> := [];
    var teamsMap: map<int, TeamView> := map[];
    for i := 0 to |rows|
      invariant Absorbed(rows[..i], order, teamsMap)
    {
      var record := rows[i];
      AbsorbStep(rows, i, order, teamsMap);
      ghost var before := teamsMap;
      if record.teamId !in teamsMap {
        teamsMap := teamsMap[record.teamId := TeamView(record.teamId, record.teamName, [])];
        order := order + [record.teamId];
      }
      assert teamsMap == Opened(before, record);
      var entry := teamsMap[record.teamId];
      teamsMap := teamsMap[record.teamId := entry.(pokemons := entry.pokemons + [record.pokedexName])];
    }
    assert rows[..|rows|] == rows;
    AbsorbedAll(rows, order, teamsMap);
    teams := seq(|order|, k requires 0 <= k < |order| && order[k] in teamsMap => teamsMap[order[k]]);
  }

  /** The grouping lists each team once, and only teams that have rows. */
  lemma GroupedTeamsOnce(rows: seq<JoinedRow>)
    ensures var g := Grouped(rows);
      && (forall a, b :: 0 <= a < b < |g| ==> g[a].teamId != g[b].teamId)
      && (forall a :: 0 <= a < |g| ==> exists k :: 0 <= k < |rows| && rows[k].teamId == g[a].teamId)
  {
    var g, ids := Grouped(rows), TeamIds(rows);
    assert forall a :: 0 <= a < |g| ==> g[a].teamId == ids[a];
  }

  /** Every listed team shows at least one entry: a team without members
      shows the single NULL name of its LEFT JOIN row. */
  lemma GroupedNonEmpty(rows: seq<JoinedRow>)
    ensures forall a :: 0 <= a < |Grouped(rows)| ==> Grouped(rows)[a].pokemons != []
    ensures forall a :: 0 <= a < |Grouped(rows)| ==>
              var own := RowsOfTeam(rows, Grouped(rows)[a].teamId);
              |own| == 1 && own[0].pokedexName.None? ==> Grouped(rows)[a].pokemons == [None]
  {
    var g, ids := Grouped(rows), TeamIds(rows);
    forall a | 0 <= a < |g| ensures g[a].pokemons != [] {
      var k :| 0 <= k < |rows| && rows[k].teamId == ids[a];
      assert rows[k] in RowsOfTeam(rows, ids[a]);
    }
  }

  /** Every row is shown: its pokedex name is listed under its own team. */
  lemma GroupedCoversRows(rows: seq<JoinedRow>, k: int)
    requires 0 <= k < |rows|
    ensures exists a :: 0 <= a < |Grouped(rows)| && Grouped(rows)[a].teamId == rows[k].teamId
                        && rows[k].pokedexName in Grouped(rows)[a].pokemons
  {
    var g, ids, id := Grouped(rows), TeamIds(rows), rows[k].teamId;
    assert id in ids;
    var a :| 0 <= a < |ids| && ids[a] == id;
    var own := RowsOfTeam(rows, id);
    assert rows[k] in own;
    var m :| 0 <= m < |own| && own[m] == rows[k];
    assert g[a].pokemons[m] == rows[k].pokedexName;
  }

  /** Teams are listed in order of first appearance: for two teams listed in
      that order, a row of the first comes before every row of the second. */
  lemma {:induction false} TeamIdsFirstAppearance(rows: seq<JoinedRow>, a: int, b: int)
    requires 0 <= a < b < |TeamIds(rows)|
    ensures SeenBefore(rows, TeamIds(rows)[a], TeamIds(rows)[b])
  {
    var prefix, last := rows[..|rows| - 1], rows[|rows| - 1];
    var p := TeamIds(prefix);
    TeamIdsLast(rows);
    if b < |p| {
      TeamIdsFirstAppearance(prefix, a, b);
      SeenBeforeExtend(rows, p[a], p[b]);
    } else {
      SeenBeforeNew(rows, prefix, p[a], p);
    }
  }

  /** The last row appends its team id exactly when the id is new. */
  lemma TeamIdsLast(rows: seq<JoinedRow>)
    requires rows != []
    ensures var p, last := TeamIds(rows[..|rows| - 1]), rows[|rows| - 1].teamId;
      TeamIds(rows) == if last in p then p else p + [last]
  {
  }

  /** Some row of team `x` comes before every row of team `y`. */
  predicate SeenBefore(rows: seq<JoinedRow>, x: int, y: int) {
    exists i :: 0 <= i < |rows| && rows[i].teamId == x && forall j :: 0 <= j <= i ==> rows[j].teamId != y
  }

  /** A row more keeps an order already seen. */
  lemma SeenBeforeExtend(rows: seq<JoinedRow>, x: int, y: int)
    requires rows != [] && SeenBefore(rows[..|rows| - 1], x, y)
    ensures SeenBefore(rows, x, y)
  {
    var prefix := rows[..|rows| - 1];
    var i :| 0 <= i < |prefix| && prefix[i].teamId == x && forall j :: 0 <= j <= i ==> prefix[j].teamId != y;
    assert forall j :: 0 <= j <= i ==> rows[j] == prefix[j];
  }

  /** When team `y` first shows up in the last row, every team of the earlier
      rows was seen before it. */
  lemma SeenBeforeNew(rows: seq<JoinedRow>, prefix: seq<JoinedRow>, x: int, ids: seq<int>)
    requires rows != [] && prefix == rows[..|rows| - 1]
    requires forall k :: 0 <= k < |prefix| ==> prefix[k].teamId in ids
    requires rows[|rows| - 1].teamId !in ids
    requires exists k :: 0 <= k < |prefix| && prefix[k].teamId == x
    ensures SeenBefore(rows, x, rows[|rows| - 1].teamId)
  {
    var i :| 0 <= i < |prefix| && prefix[i].teamId == x;
    assert rows[i] == prefix[i];
    forall j | 0 <= j <= i ensures rows[j].teamId != rows[|rows| - 1].teamId {
      assert rows[j] == prefix[j];
    }
  }

  /** The endpoint both pages send a visitor without a username to, as
      written: no blueprint is named 'auth'. */
  const WrittenLoginEndpoint := "auth.login"

  /** The login view of backend/app/auth.py, whose blueprint is named
      'login'. */
  const LoginEndpoint := "login.login"

  /** The answer to a visitor without a username: the redirect, or the 500
      Flask gives for the BuildError that `url_for` raises outside any `try`. */
  datatype LoginAnswer = LoginRedirect(endpoint: string) | InternalError

  /** `redirect(url_for(endpoint))` outside any `try`. */
  function ToLogin(endpoint: string): (r: LoginAnswer)
    ensures r.LoginRedirect? <==> Builds(endpoint)
    ensures r.LoginRedirect? ==> r.endpoint == endpoint
  {
    if Builds(endpoint) then LoginRedirect(endpoint) else InternalError
  }

  /** The answer of the teams page: the login answer, or the grouped teams. */
  datatype TeamsPage = TeamsLogin(answer: LoginAnswer) | TeamsHome(teams: seq<TeamView>)

  /** `load_teams` on the rows its query returns, when a visitor without a
      username is sent to `loginEndpoint`. */
  function TeamsAnswer(username: Option<string>, rows: seq<JoinedRow>, loginEndpoint: string): TeamsPage {
    if username.None? then TeamsLogin(ToLogin(loginEndpoint)) else TeamsHome(Grouped(rows))
  }

  /** `load_teams` with the login endpoint corrected: without a username key
      in the session it redirects to login and groups nothing; otherwise it
      shows the grouped teams. */
  method LoadTeams(session: Session, rows: seq<JoinedRow>) returns (page: TeamsPage)
    ensures page == TeamsAnswer(session.username, rows, LoginEndpoint)
  {
    if session.username.None? {
      return TeamsLogin(ToLogin(LoginEndpoint));
    }
    var teams := GroupTeams(rows);
    page := TeamsHome(teams);
  }

  /** A badge record of `all_gym_badges`: name, description, image_filename. */
  datatype Badge = Badge(name: string, description: string, imageFilename: string)

  /** The image every badge record names. */
  const BadgeImage := "badge.png"

  /** The gym loop of `load_badges`: one record per gym badge title, in query
      order, with an empty description and the shared image. */
  method GymBadges(titles: seq<string>) returns (badges: seq<Badge>)
    ensures |badges| == |titles|
    ensures forall k :: 0 <= k < |titles| ==> badges[k] == Badge(titles[k], "", BadgeImage)
  {
    badges := [];
    for i := 0 to |titles|
      invariant |badges| == i
      invariant forall k :: 0 <= k < i ==> badges[k] == Badge(titles[k], "", BadgeImage)
    {
      badges := badges + [Badge(titles[i], "", BadgeImage)];
    }
  }

  /** The earned loop of `load_badges`: the earned titles, in query order. */
  method EarnedTitles(titles: seq<string>) returns (earned: seq<string>)
    ensures earned == titles
  {
    earned := [];
    for i := 0 to |titles|
      invariant earned == titles[..i]
    {
      earned := earned + [titles[i]];
    }
    assert titles[..|titles|] == titles;
  }

  /** The answer of the badges page: the login answer, or the badge
      records and the earned titles. */
  datatype BadgesPage = BadgesLogin(answer: LoginAnswer) | BadgesHome(allBadges: seq<Badge>, earned: seq<string>)

  /** One badge record per gym title, in order. */
  function BadgeRecords(gymTitles: seq<string>): (r: seq<Badge>)
    ensures |r| == |gymTitles|
  {
    seq(|gymTitles|, k requires 0 <= k < |gymTitles| => Badge(gymTitles[k], "", BadgeImage))
  }

  /** `load_badges` on the titles its two queries return, when a visitor
      without a username is sent to `loginEndpoint`. */
  function BadgesAnswer(username: Option<string>, gymTitles: seq<string>, earnedTitles: seq<string>,
                        loginEndpoint: string): BadgesPage {
    if username.None? then BadgesLogin(ToLogin(loginEndpoint))
    else BadgesHome(BadgeRecords(gymTitles), earnedTitles)
  }

  /** `load_badges` with the login endpoint corrected, given the gym badge
      titles and the user's earned titles its two queries return. */
  method LoadBadges(session: Session, gymTitles: seq<string>, earnedTitles: seq<string>) returns (page: BadgesPage)
    ensures page == BadgesAnswer(session.username, gymTitles, earnedTitles, LoginEndpoint)
  {
    if session.username.None? {
      return BadgesLogin(ToLogin(LoginEndpoint));
    }
    var allBadges := GymBadges(gymTitles);
    var earned := EarnedTitles(earnedTitles);
    page := BadgesHome(allBadges, earned);
  }

  /** For a visitor with a username, the badges page lists one record per gym
      title, named after it, with an empty description and the shared image,
      and the earned titles in order. */
  lemma BadgesHomeContents(username: Option<string>, gymTitles: seq<string>, earnedTitles: seq<string>, e: string)
    requires username.Some?
    ensures var page := BadgesAnswer(username, gymTitles, earnedTitles, e);
      && page.BadgesHome? && |page.allBadges| == |gymTitles| && page.earned == earnedTitles
      && forall k :: 0 <= k < |gymTitles| ==> page.allBadges[k] == Badge(gymTitles[k], "", BadgeImage)
  {
  }

  /** As written, every visitor without a username gets a 500 from either
      page instead of the login page: "auth.login" names no endpoint. */
  lemma WrittenLoginFails(username: Option<string>, rows: seq<JoinedRow>, gymTitles: seq<string>, earnedTitles: seq<string>)
    ensures TeamsAnswer(username, rows, WrittenLoginEndpoint) == TeamsLogin(InternalError) <==> username.None?
    ensures BadgesAnswer(username, gymTitles, earnedTitles, WrittenLoginEndpoint) == BadgesLogin(InternalError)
            <==> username.None?
  {
    WrittenEndpointsUndefined();
  }

  /** With the login view's own endpoint, either page redirects to login
      exactly when the session has no username. */
  lemma LoginRedirectsIffNoUsername(username: Option<string>, rows: seq<JoinedRow>, gymTitles: seq<string>, earnedTitles: seq<string>)
    ensures TeamsAnswer(username, rows, LoginEndpoint) == TeamsLogin(LoginRedirect(LoginEndpoint)) <==> username.None?
    ensures BadgesAnswer(username, gymTitles, earnedTitles, LoginEndpoint) == BadgesLogin(LoginRedirect(LoginEndpoint))
            <==> username.None?
  {
    assert Builds(LoginEndpoint);
  }
}
