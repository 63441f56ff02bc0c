/** Team creation in backend/app/user_teams.py (`create_team`): the name and
    login checks, the next team id taken as the largest id in use plus one,
    the new team inserted as active, and the redirect that follows. */
module UserTeams {
  import opened Common
  import opened Tables
  import opened Routing

  /** The longest team name `create_team` accepts. */
  const MaxNameLength := 30

  /** The endpoint the success path names, as written. */
  const WrittenListEndpoint := "get_all_teams"

  /** The teams list view the success path means to redirect to. */
  const ListEndpoint := "teams.get_all_teams"

  datatype CreateError =
    | NameRequired                      // "Team name is required"
    | NameTooLong                       // "Team name must be 30 characters or fewer"
    | NotLoggedIn                       // "User not logged in"
    | NoTeamsYet                        // MAX(...) is NULL and `None + 1` raises
    | UnknownEndpoint(endpoint: string) // `url_for` raises for an unregistered endpoint

  function Status(e: CreateError): int {
    match e
    case NameRequired => 400
    case NameTooLong => 400
    case NotLoggedIn => 401
    case NoTeamsYet => 500
    case UnknownEndpoint(_) => 500
  }

  datatype Response = Redirect(endpoint: string) | JsonError(status: int, error: CreateError)

  /** `SELECT MAX(user_team_id) FROM user_teams`: the largest team id of any
      user, or None (SQL NULL) when the table is empty. */
  function MaxTeamId(teams: seq<TeamRow>): (r: Option<int>)
    ensures r.None? <==> teams == []
    ensures r.Some? ==> (forall row :: row in teams ==> row.teamId <= r.value)
                        && exists row :: row in teams && row.teamId == r.value
  {
    if teams == [] then None
    else
      var prefix, last := teams[..|teams| - 1], teams[|teams| - 1];
      assert teams == prefix + [last];
      match MaxTeamId(prefix)
      case None =>
        assert prefix == [];
        Some(last.teamId)
      case Some(m) => Some(if last.teamId > m then last.teamId else m)
  }

  /** The outcome of `create_team` before its write: the row it inserts, or
      the error it answers with. The checks run in the handler's order: name
      present and non-empty, name length, login, then an existing team to
      number from. The new row belongs to the session user, carries the given
      name, is active, and has an id one above the largest id in use. */
  function CreatePlan(teams: seq<TeamRow>, userId: Option<int>, teamName: Option<string>): (r: Result<TeamRow, CreateError>)
    ensures r.Ok? <==> StrTruthy(teamName) && |teamName.value| <= MaxNameLength && IntTruthy(userId) && teams != []
    ensures r.Ok? ==>
              && r.value.userId == userId.value && r.value.active && r.value.name == teamName.value
              && (forall row :: row in teams ==> row.teamId < r.value.teamId)
              && exists row :: row in teams && row.teamId + 1 == r.value.teamId
    ensures r == Err(NameRequired) <==> !StrTruthy(teamName)
    ensures r == Err(NameTooLong) <==> StrTruthy(teamName) && |teamName.value| > MaxNameLength
    ensures r == Err(NotLoggedIn) <==> StrTruthy(teamName) && |teamName.value| <= MaxNameLength && !IntTruthy(userId)
    ensures r == Err(NoTeamsYet) <==>
              StrTruthy(teamName) && |teamName.value| <= MaxNameLength && IntTruthy(userId) && teams == []
  {
    if !StrTruthy(teamName) then Err(NameRequired)
    else if |teamName.value| > MaxNameLength then Err(NameTooLong)
    else if !IntTruthy(userId) then Err(NotLoggedIn)
    else match MaxTeamId(teams)
      case None => Err(NoTeamsYet)
      case Some(maxId) => Ok(TeamRow(userId.value, maxId + 1, true, teamName.value))
  }

  /** `redirect(url_for(endpoint))`: a redirect when the endpoint is
      registered; otherwise `url_for` raises and the handler's `except`
      answers 500. */
  function RedirectTo(endpoint: string): (r: Response)
    ensures r.Redirect? <==> Builds(endpoint)
    ensures r.Redirect? ==> r.endpoint == endpoint
    ensures r.JsonError? ==> r.status == 500
  {
    if Builds(endpoint) then Redirect(endpoint)
    else JsonError(Status(UnknownEndpoint(endpoint)), UnknownEndpoint(endpoint))
  }

  /** The answer of `create_team` for a plan, after any insert, when the
      success path redirects to `endpoint`. */
  function CreateResponse(plan: Result<TeamRow, CreateError>, endpoint: string): Response {
    match plan
    case Err(e) => JsonError(Status(e), e)
    case Ok(_) => RedirectTo(endpoint)
  }

  /** As written, every successful creation commits the new team and then
      answers 500, because the endpoint name lacks its blueprint prefix. */
  lemma WrittenCreateFailsAfterInsert(teams: seq<TeamRow>, userId: Option<int>, teamName: Option<string>)
    requires CreatePlan(teams, userId, teamName).Ok?
    ensures CreateResponse(CreatePlan(teams, userId, teamName), WrittenListEndpoint)
            == JsonError(500, UnknownEndpoint("get_all_teams"))
  {
    WrittenEndpointsUndefined();
  }

  /** With the blueprint-qualified endpoint, a request is answered with a
      redirect to the teams list exactly when it creates a team. */
  lemma CreateRedirectsIffCreated(teams: seq<TeamRow>, userId: Option<int>, teamName: Option<string>)
    ensures CreateResponse(CreatePlan(teams, userId, teamName), ListEndpoint) == Redirect(ListEndpoint)
            <==> CreatePlan(teams, userId, teamName).Ok?
  {
    assert Builds(ListEndpoint);
  }

  /** `create_team`: inserts the row CreatePlan computes, or answers with its
      error and leaves the table as it was. The session's user id is read,
      not changed. */
  method CreateTeam(db: Database, session: Session, teamName: Option<string>) returns (resp: Response)
    modifies db`teams
    ensures var plan := CreatePlan(old(db.teams), session.userId, teamName);
      && (plan.Ok? ==> db.teams == old(db.teams) + [plan.value])
      && (plan.Err? ==> db.teams == old(db.teams))
      && resp == CreateResponse(plan, ListEndpoint)
  {
    if !StrTruthy(teamName) {
      return JsonError(Status(NameRequired), NameRequired);
    }
    if |teamName.value| > MaxNameLength {
      return JsonError(Status(NameTooLong), NameTooLong);
    }
    var userId := session.userId;
    if !IntTruthy(userId) {
      return JsonError(Status(NotLoggedIn), NotLoggedIn);
    }
    var maxId := MaxTeamId(db.teams);
    if maxId.None? {
      return JsonError(Status(NoTeamsYet), NoTeamsYet);
    }
    var newTeamId := maxId.value + 1;
    db.teams := db.teams + [TeamRow(userId.value, newTeamId, true, teamName.value)];
    resp := RedirectTo(ListEndpoint);
  }

  /** No two teams share an id. */
  predicate UniqueTeamIds(teams: seq<TeamRow>) {
    forall i, j :: 0 <= i < j < |teams| ==> teams[i].teamId != teams[j].teamId
  }

  /** Creating a team keeps team ids unique. */
  lemma CreateKeepsIdsUnique(teams: seq<TeamRow>, userId: Option<int>, teamName: Option<string>)
    requires UniqueTeamIds(teams)
    requires CreatePlan(teams, userId, teamName).Ok?
    ensures UniqueTeamIds(teams + [CreatePlan(teams, userId, teamName).value])
  {
    var row := CreatePlan(teams, userId, teamName).value;
    var after := teams + [row];
    forall i, j | 0 <= i < j < |after| ensures after[i].teamId != after[j].teamId {
      if j == |teams| {
        assert after[i] in teams;
      }
    }
  }

  /** Team ids handed out by successive creations strictly increase. */
  lemma SuccessiveCreatesIncrease(teams: seq<TeamRow>, u1: Option<int>, n1: Option<string>, u2: Option<int>, n2: Option<string>)
    requires CreatePlan(teams, u1, n1).Ok?
    requires CreatePlan(teams + [CreatePlan(teams, u1, n1).value], u2, n2).Ok?
    ensures CreatePlan(teams, u1, n1).value.teamId
            < CreatePlan(teams + [CreatePlan(teams, u1, n1).value], u2, n2).value.teamId
  {
    var first := CreatePlan(teams, u1, n1).value;
    assert first in teams + [first];
  }
}
