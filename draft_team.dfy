/** The draft team of backend/app/teams.py: a list of species names kept in the
    session while a team is being built (`add_pokemon`), and saving a submitted
    list of up to six names as the team's member rows (`update_team`). */
module DraftTeam {
  import opened Common
  import opened Tables

  /** The largest team the draft list accepts. */
  const MaxTeamSize := 6

  /** A well-formed draft: at most six names and no name twice. */
  predicate DraftValid(team: seq<string>) {
    |team| <= MaxTeamSize && forall i, j :: 0 <= i < j < |team| ==> team[i] != team[j]
  }

  /** The draft after one `add_pokemon` request whose form value is `pokemon`
      (None when the form has no 'add_pokemon' field). */
  function Added(team: seq<string>, pokemon: Option<string>): (r: seq<string>)
    ensures !StrTruthy(pokemon) ==> r == team
    ensures |r| == |team| + 1 <==> StrTruthy(pokemon) && |team| < MaxTeamSize && pokemon.value !in team
    ensures |r| == |team| + 1 ==> r[..|team|] == team && r[|team|] == pokemon.value
    ensures |r| != |team| + 1 ==> r == team
    ensures DraftValid(team) ==> DraftValid(r)
  {
    if StrTruthy(pokemon) && |team| < MaxTeamSize && pokemon.value !in team
    then team + [pokemon.value]
    else team
  }

  /** The draft after a run of `add_pokemon` requests, in order. */
  function AddedAll(team: seq<string>, requests: seq<Option<string>>): seq<string>
    decreases |requests|
  {
    if requests == [] then team else AddedAll(Added(team, requests[0]), requests[1..])
  }

  /** However many adds arrive, a well-formed draft stays well-formed, and the
      names it already held stay at the front in their order. */
  lemma {:induction false} AddedAllKeepsDraftValid(team: seq<string>, requests: seq<Option<string>>)
    requires DraftValid(team)
    ensures DraftValid(AddedAll(team, requests))
    ensures |team| <= |AddedAll(team, requests)| && AddedAll(team, requests)[..|team|] == team
    decreases |requests|
  {
    if requests != [] {
      var next := Added(team, requests[0]);
      AddedAllKeepsDraftValid(next, requests[1..]);
      assert next[..|team|] == team;
      var r := AddedAll(next, requests[1..]);
      assert r[..|team|] == r[..|next|][..|team|];
    }
  }

  /** `add_pokemon`: appends the submitted name to the session draft when the
      value is present and non-empty, the draft has fewer than six names and
      does not hold it yet; otherwise the draft is left as it was. */
  method AddPokemon(session: Session, pokemon: Option<string>)
    modifies session`team
    ensures session.team == Added(old(session.team), pokemon)
  {
    if StrTruthy(pokemon) {
      var team := session.team;
      if |team| < MaxTeamSize && pokemon.value !in team {
        team := team + [pokemon.value];
        session.team := team;
      }
    }
  }

  /** The form fields `update_team` reads, slot by slot. */
  const SlotKeys: seq<string> := ["pokemon0", "pokemon1", "pokemon2", "pokemon3", "pokemon4", "pokemon5"]

  /** `request.form.get(key, '')`. */
  function FormGet(form: map<string, string>, key: string): string {
    if key in form then form[key] else ""
  }

  /** The six slot values, each stripped of surrounding whitespace. */
  function SlotValues(form: map<string, string>): seq<string> {
    seq(|SlotKeys|, i requires 0 <= i < |SlotKeys| => Strip(FormGet(form, SlotKeys[i])))
  }

  /** The non-empty values, in order. */
  function NonBlank(values: seq<string>): seq<string> {
    Filter(values, (v: string) => v != "")
  }

  /** One more value extends the non-empty values by it, if it is non-empty. */
  lemma NonBlankStep(values: seq<string>, i: int)
    requires 0 <= i < |values|
    ensures NonBlank(values[..i + 1]) == NonBlank(values[..i]) + (if values[i] != "" then [values[i]] else [])
  {
    assert values[..i + 1][..i] == values[..i];
  }

  /** The slot loop of `update_team`: the stripped, non-empty values of slots
      pokemon0..pokemon5, in slot order. */
  method CollectSlots(form: map<string, string>) returns (names: seq<string>)
    ensures names == NonBlank(SlotValues(form))
  {
    ghost var values := SlotValues(form);
    names := [];
    for i := 0 to |SlotKeys|
      invariant names == NonBlank(values[..i])
    {
      var v := Strip(FormGet(form, SlotKeys[i]));
      NonBlankStep(values, i);
      if v != "" {
        names := names + [v];
      }
    }
    assert values[..|SlotKeys|] == values;
  }

  /** The collected list holds at most six names, none of them empty and none
      with whitespace at either end. */
  lemma CollectedNamesClean(form: map<string, string>)
    ensures var names := NonBlank(SlotValues(form));
      && |names| <= MaxTeamSize
      && forall i :: 0 <= i < |names| ==>
           names[i] != "" && !IsSpace(names[i][0]) && !IsSpace(names[i][|names[i]| - 1])
  {
    var values := SlotValues(form);
    var names := NonBlank(values);
    forall i | 0 <= i < |names|
      ensures names[i] != "" && !IsSpace(names[i][0]) && !IsSpace(names[i][|names[i]| - 1])
    {
      assert names[i] in values;
      var j :| 0 <= j < |values| && values[j] == names[i];
      StripFacts(FormGet(form, SlotKeys[j]));
    }
  }

  /** The member rows a save inserts for `names`: the name at list index i, if
      it resolves to a pokedex id, becomes member i + 1 with that id and no HP
      or moves; a name that does not resolve is skipped, leaving a gap. */
  function SavedRows(teamId: int, names: seq<string>, catalog: Catalog): (r: seq<MemberRow>)
    ensures |r| <= |names|
    ensures forall row :: row in r ==>
              && row.teamId == teamId
              && 1 <= row.memberId <= |names|
              && FindByName(catalog.names, names[row.memberId - 1]) == Some(row.pokedexId)
              && row.currentHp == None && row.slots == EmptySlots
    ensures forall a, b :: 0 <= a < b < |r| ==> r[a].memberId < r[b].memberId
  {
    if names == [] then []
    else
      var n := |names|;
      var prefix := SavedRows(teamId, names[..n - 1], catalog);
      assert forall row :: row in prefix ==> names[..n - 1][row.memberId - 1] == names[row.memberId - 1];
      match FindByName(catalog.names, names[n - 1])
      case Some(p) => prefix + [MemberRow(teamId, n, p, None, EmptySlots)]
      case None => prefix
  }

  /** Saving one more name adds its row, if it resolves, after the others. */
  lemma SavedRowsStep(teamId: int, names: seq<string>, catalog: Catalog, i: int)
    requires 0 <= i < |names|
    ensures SavedRows(teamId, names[..i + 1], catalog)
            == SavedRows(teamId, names[..i], catalog)
               + match FindByName(catalog.names, names[i])
                 case Some(p) => [MemberRow(teamId, i + 1, p, None, EmptySlots)]
                 case None => []
  {
    assert names[..i + 1][..i] == names[..i];
  }

  /** Every name that resolves is saved, as member index + 1. */
  lemma {:induction false} SavedRowsComplete(teamId: int, names: seq<string>, catalog: Catalog, i: int)
    requires 0 <= i < |names| && FindByName(catalog.names, names[i]).Some?
    ensures MemberRow(teamId, i + 1, FindByName(catalog.names, names[i]).value, None, EmptySlots)
            in SavedRows(teamId, names, catalog)
  {
    var n := |names|;
    if i < n - 1 {
      SavedRowsComplete(teamId, names[..n - 1], catalog, i);
      assert names[..n - 1][i] == names[i];
    }
  }

  /** A save replaces the team's member rows: afterwards the team's rows are
      exactly the saved ones and every other team keeps the rows it had. */
  lemma SaveReplacesTeamRows(rows: seq<MemberRow>, teamId: int, names: seq<string>, catalog: Catalog, other: int)
    ensures RowsOf(WithoutTeam(rows, teamId) + SavedRows(teamId, names, catalog), teamId)
            == SavedRows(teamId, names, catalog)
    ensures other != teamId ==>
              RowsOf(WithoutTeam(rows, teamId) + SavedRows(teamId, names, catalog), other)
              == RowsOf(rows, other)
  {
    var saved := SavedRows(teamId, names, catalog);
    RowsOfAppend(WithoutTeam(rows, teamId), saved, teamId);
    RowsOfAppend(WithoutTeam(rows, teamId), saved, other);
    WithoutTeamRows(rows, teamId, other);
    RowsOfSingleTeam(saved, teamId, other);
  }

  /** Steps 1 and 2 of `update_team`: delete every member row of the team,
      then insert a row for each name that resolves, as SavedRows says. */
  method SaveMembers(db: Database, teamId: int, names: seq<string>, catalog: Catalog)
    modifies db`members
    ensures db.members == WithoutTeam(old(db.members), teamId) + SavedRows(teamId, names, catalog)
  {
    var rows := WithoutTeam(db.members, teamId);
    ghost var base := rows;
    var idx := 0;
    while idx < |names|
      invariant 0 <= idx <= |names|
      invariant rows == base + SavedRows(teamId, names[..idx], catalog)
    {
      var found := FindByName(catalog.names, names[idx]);
      SavedRowsStep(teamId, names, catalog, idx);
      if found.Some? {
        rows := rows + [MemberRow(teamId, idx + 1, found.value, None, EmptySlots)];
      }
      idx := idx + 1;
    }
    assert names[..|names|] == names;
    db.members := rows;
  }

  /** `update_team`: without a team id in the session nothing changes.
      Otherwise the slot names are collected, the team's member rows are
      replaced by SaveMembers, and the session draft becomes the collected
      list, unresolved names included. */
  method UpdateTeam(session: Session, db: Database, form: map<string, string>, catalog: Catalog)
    modifies session`team, db`members
    ensures !IntTruthy(session.userTeamId) ==>
              session.team == old(session.team) && db.members == old(db.members)
    ensures IntTruthy(session.userTeamId) ==>
              && session.team == NonBlank(SlotValues(form))
              && db.members == WithoutTeam(old(db.members), session.userTeamId.value)
                               + SavedRows(session.userTeamId.value, session.team, catalog)
  {
    if !IntTruthy(session.userTeamId) {
      return;
    }
    var teamId := session.userTeamId.value;
    var names := CollectSlots(form);
    SaveMembers(db, teamId, names, catalog);
    session.team := names;
  }
}
