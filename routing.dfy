/** Flask's `url_for` over the endpoints that the importable blueprints of
    backend/app define: an endpoint is the blueprint's name, a dot and the
    view function's name, and Flask's own "static". Every such blueprint is
    taken as registered. The 'user_teams' blueprint of user_teams-old1.py is
    left out: nothing imports that file, and its hyphenated name cannot
    appear in an import statement. */
module Routing {

  /** The endpoints of the blueprints in auth.py ('login'), battle.py
      ('battle'), battles.py and battles_summary.py ('battles'), gym.py
      ('gym'), main.py ('home'), pokedex.py ('pokedex'), teams.py and
      user_teams.py ('teams') and user_poke_team_members.py. */
  const Endpoints: set<string> := {
    "static",
    "login.login",
    "battle.start_battle", "battle.get_user_team",
    "battles.start_battle", "battles.get_battle_summary",
    "gym.select_gym_leader",
    "home.root", "home.load_homepage", "home.load_profile",
    "home.load_teams", "home.load_battle", "home.load_badges",
    "pokedex.get_all_pokemon",
    "teams.create_team", "teams.add_pokemon", "teams.update_team", "teams.save_team_name",
    "teams.get_all_teams", "teams.get_single_team",
    "user_poke_team_members.get_all_user_poke_team_members",
    "user_poke_team_members.get_one_team_member",
    "user_poke_team_members.search_user_team_members",
    "user_poke_team_members.get_available_moves",
    "user_poke_team_members.add_user_team_member",
    "user_poke_team_members.delete_team_member",
    "user_poke_team_members.edit_team_member",
    "user_poke_team_members.update_team_member"
  }

  /** `url_for(endpoint)` builds a URL; for any other name it raises
      BuildError. */
  predicate Builds(endpoint: string) {
    endpoint in Endpoints
  }

  /** "auth.login" and the dotless "get_all_teams" name no endpoint: no
      blueprint is named 'auth', and every view of a blueprint is reached
      through its blueprint's name. */
  lemma WrittenEndpointsUndefined()
    ensures !Builds("auth.login") && !Builds("get_all_teams")
  {
    // No endpoint has the length of either name.
    assert forall e :: e in Endpoints ==> |e| != |"auth.login"| && |e| != |"get_all_teams"|;
  }
}
