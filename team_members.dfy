/** The member-row handlers of backend/app/user_poke_team_members.py: adding a
    member with four moves (`add_user_team_member`), replacing a member's moves
    (`update_team_member`) and deleting a member (`delete_team_member`). Every
    check and lookup happens before the one write to the table. */
module TeamMembers {
  import opened Common
  import opened Tables

  /** The most members `add_user_team_member` lets a team have. */
  const MaxMembers := 6

  /** The form of `add_user_team_member`. A field is None when it is missing or
      not an integer; `moveFields` maps i to the integer in field move_i_id. */
  datatype AddForm = AddForm(teamId: Option<int>, pokedexId: Option<int>, moveFields: map<int, int>)

  /** The form of `update_team_member`, read the same way. */
  datatype UpdateForm = UpdateForm(teamId: Option<int>, memberId: Option<int>, moveFields: map<int, int>)

  /** Why a request is answered with an error instead of a redirect. */
  datatype MemberError =
    | BadForm                          // `int(form[...])` raised
    | MovesNotDistinct                 // "All 4 moves must be different"
    | TeamFull                         // "Team already has 6 Pokémon"
    | UnknownSpecies(pokedexId: int)   // "Pokedex ID ... not found"
    | UnknownMove(moveId: int)         // "Move ID ... not found"
    | RedirectUndefined                // NameError: `redirect` is not imported

  /** The HTTP status of each error: an exception is caught and answered with
      500, every explicit check with 400. */
  function Status(e: MemberError): int {
    if e.BadForm? || e.RedirectUndefined? then 500 else 400
  }

  datatype Response = RedirectToList | JsonError(status: int, error: MemberError)

  /** How the three write handlers end after their commit. As written, the
      module imports neither `redirect` nor `url_for`, so the call raises
      NameError and the `except` answers 500; with the import added, the
      answer is the redirect to the member list. */
  datatype Ending = AsWritten | WithImport

  /** The answer once the write is committed. */
  function SuccessAnswer(ending: Ending): Response {
    match ending
    case AsWritten => JsonError(Status(RedirectUndefined), RedirectUndefined)
    case WithImport => RedirectToList
  }

  /** The answer of a handler whose plan is `plan`: its error, or the ending
      after the write. */
  function Answer<T>(plan: Result<T, MemberError>, ending: Ending): Response {
    match plan
    case Err(e) => JsonError(Status(e), e)
    case Ok(_) => SuccessAnswer(ending)
  }

  /** `[int(form[f'move_{i}_id']) for i in range(1, 5)]`: the four move ids in
      field order, or None when one of the four fields is missing. */
  function MoveIds(fields: map<int, int>): (r: Option<seq<int>>)
    ensures r.Some? <==> forall i :: 1 <= i <= 4 ==> i in fields
    ensures r.Some? ==> |r.value| == 4 && forall i :: 0 <= i < 4 ==> r.value[i] == fields[i + 1]
  {
    if 1 in fields && 2 in fields && 3 in fields && 4 in fields
    then Some([fields[1], fields[2], fields[3], fields[4]])
    else None
  }

  /** The add form parses: both ids and all four move fields are integers. */
  predicate AddParses(form: AddForm) {
    form.teamId.Some? && form.pokedexId.Some? && MoveIds(form.moveFields).Some?
  }

  /** The update form parses: both ids and all four move fields are integers. */
  predicate UpdateParses(form: UpdateForm) {
    form.teamId.Some? && form.memberId.Some? && MoveIds(form.moveFields).Some?
  }

  /** `len(set(move_ids)) == 4`. */
  predicate SetOfFour(ids: seq<int>) {
    |set m | m in ids| == 4
  }

  predicate PairwiseDistinct(ids: seq<int>) {
    forall i, j :: 0 <= i < j < |ids| ==> ids[i] != ids[j]
  }

  /** For four ids, the set-size check accepts exactly the lists with no id
      twice. */
  lemma SetOfFourIff(ids: seq<int>)
    requires |ids| == 4
    ensures SetOfFour(ids) <==> PairwiseDistinct(ids)
  {
    SetSize(ids);
  }

  /** The first move id in list order that has no row in the moves table. */
  function FirstUnknown(ids: seq<int>, maxPp: map<int, int>): (r: Option<int>)
    ensures r.None? <==> forall k :: 0 <= k < |ids| ==> ids[k] in maxPp
    ensures r.Some? ==> exists k :: 0 <= k < |ids| && ids[k] == r.value && ids[k] !in maxPp
                                 && forall j :: 0 <= j < k ==> ids[j] in maxPp
  {
    if ids == [] then None
    else if ids[0] !in maxPp then Some(ids[0])
    else
      var r := FirstUnknown(ids[1..], maxPp);
      assert forall k :: 1 <= k < |ids| ==> ids[k] == ids[1..][k - 1];
      r
  }

  /** The move that FirstUnknown names is pinned down by its position. */
  lemma {:induction false} FirstUnknownAt(ids: seq<int>, maxPp: map<int, int>, i: int)
    requires 0 <= i < |ids| && ids[i] !in maxPp
    requires forall k :: 0 <= k < i ==> ids[k] in maxPp
    ensures FirstUnknown(ids, maxPp) == Some(ids[i])
  {
    if i > 0 {
      FirstUnknownAt(ids[1..], maxPp, i - 1);
    }
  }

  /** The `pp_values` loop: the max PP of each move, in order, or the first
      move id that is not found. */
  method LookupPps(moveIds: seq<int>, maxPp: map<int, int>) returns (r: Result<seq<int>, int>)
    ensures r.Ok? <==> FirstUnknown(moveIds, maxPp).None?
    ensures r.Ok? ==> |r.value| == |moveIds| && forall i :: 0 <= i < |moveIds| ==> r.value[i] == maxPp[moveIds[i]]
    ensures r.Err? ==> FirstUnknown(moveIds, maxPp) == Some(r.error)
  {
    var ppValues := [];
    for i := 0 to |moveIds|
      invariant |ppValues| == i
      invariant forall k :: 0 <= k < i ==> moveIds[k] in maxPp && ppValues[k] == maxPp[moveIds[k]]
    {
      var moveId := moveIds[i];
      if moveId !in maxPp {
        FirstUnknownAt(moveIds, maxPp, i);
        return Err(moveId);
      }
      ppValues := ppValues + [maxPp[moveId]];
    }
    return Ok(ppValues);
  }

  /** Every slot filled: slot i + 1 holds `ids[i]` at that move's full PP. */
  function FullSlots(ids: seq<int>, maxPp: map<int, int>): seq<Option<MoveSlot>>
    requires forall k :: 0 <= k < |ids| ==> ids[k] in maxPp
  {
    seq(|ids|, i requires 0 <= i < |ids| => Some(MoveSlot(ids[i], maxPp[ids[i]])))
  }

  /** The outcome of `add_user_team_member` on table `rows`: the row it
      inserts, or the error it answers with before any write. Checks run in
      the handler's order (form, distinct moves, team size, species, moves);
      the new member id is the team's current row count + 1, its HP is the
      species' base HP and slot i holds the i-th move at full PP. */
  function AddPlan(rows: seq<MemberRow>, form: AddForm, catalog: Catalog): (r: Result<MemberRow, MemberError>)
    ensures r.Ok? <==>
              && form.teamId.Some? && form.pokedexId.Some? && MoveIds(form.moveFields).Some?
              && PairwiseDistinct(MoveIds(form.moveFields).value)
              && CountOf(rows, form.teamId.value) < MaxMembers
              && form.pokedexId.value in catalog.baseHp
              && forall i :: 1 <= i <= 4 ==> form.moveFields[i] in catalog.maxPp
    ensures r.Ok? ==>
              && r.value.teamId == form.teamId.value
              && r.value.memberId == CountOf(rows, form.teamId.value) + 1
              && r.value.pokedexId == form.pokedexId.value
              && r.value.currentHp == Some(catalog.baseHp[form.pokedexId.value])
              && |r.value.slots| == 4
              && forall i :: 1 <= i <= 4 ==>
                   r.value.slots[i - 1] == Some(MoveSlot(form.moveFields[i], catalog.maxPp[form.moveFields[i]]))
    ensures r == Err(BadForm) <==> !AddParses(form)
    ensures r == Err(MovesNotDistinct) <==> AddParses(form) && !PairwiseDistinct(MoveIds(form.moveFields).value)
    ensures r == Err(TeamFull) <==>
              && AddParses(form) && PairwiseDistinct(MoveIds(form.moveFields).value)
              && CountOf(rows, form.teamId.value) >= MaxMembers
    ensures r.Err? && r.error.UnknownSpecies? <==>
              && AddParses(form) && PairwiseDistinct(MoveIds(form.moveFields).value)
              && CountOf(rows, form.teamId.value) < MaxMembers
              && form.pokedexId.value !in catalog.baseHp
    ensures r.Err? && r.error.UnknownSpecies? ==> r.error.pokedexId == form.pokedexId.value
    ensures r.Err? && r.error.UnknownMove? <==>
              && AddParses(form) && PairwiseDistinct(MoveIds(form.moveFields).value)
              && CountOf(rows, form.teamId.value) < MaxMembers
              && form.pokedexId.value in catalog.baseHp
              && FirstUnknown(MoveIds(form.moveFields).value, catalog.maxPp).Some?
    ensures r.Err? && r.error.UnknownMove? ==>
              FirstUnknown(MoveIds(form.moveFields).value, catalog.maxPp) == Some(r.error.moveId)
    ensures r.Err? ==> !r.error.RedirectUndefined?
  {
    if form.teamId.None? || form.pokedexId.None? then Err(BadForm)
    else match MoveIds(form.moveFields)
      case None => Err(BadForm)
      case Some(moveIds) =>
        SetOfFourIff(moveIds);
        var teamId, pokedexId := form.teamId.value, form.pokedexId.value;
        if !SetOfFour(moveIds) then Err(MovesNotDistinct)
        else if CountOf(rows, teamId) >= MaxMembers then Err(TeamFull)
        else if pokedexId !in catalog.baseHp then Err(UnknownSpecies(pokedexId))
        else match FirstUnknown(moveIds, catalog.maxPp)
          case Some(m) => Err(UnknownMove(m))
          case None =>
            assert forall i :: 1 <= i <= 4 ==> form.moveFields[i] == moveIds[i - 1];
            Ok(MemberRow(teamId, CountOf(rows, teamId) + 1, pokedexId,
                         Some(catalog.baseHp[pokedexId]), FullSlots(moveIds, catalog.maxPp)))
  }

  /** `add_user_team_member`, ending as `ending` says: appends the row
      AddPlan computes and then answers with the ending (the 500 as written,
      the redirect with the import), or answers with its error and leaves the
      table as it was. */
  method AddMember(db: Database, form: AddForm, catalog: Catalog, ending: Ending) returns (resp: Response)
    modifies db`members
    ensures var plan := AddPlan(old(db.members), form, catalog);
      && (plan.Ok? ==> db.members == old(db.members) + [plan.value])
      && (plan.Err? ==> db.members == old(db.members))
      && resp == Answer(plan, ending)
  {
    ghost var plan := AddPlan(db.members, form, catalog);
    if form.teamId.None? || form.pokedexId.None? {
      assert plan == Err(BadForm);
      return JsonError(Status(BadForm), BadForm);
    }
    var teamId, pokedexId := form.teamId.value, form.pokedexId.value;
    var parsed := MoveIds(form.moveFields);
    if parsed.None? {
      assert plan == Err(BadForm);
      return JsonError(Status(BadForm), BadForm);
    }
    var moveIds := parsed.value;
    if |set m | m in moveIds| != 4 {
      assert plan == Err(MovesNotDistinct);
      return JsonError(Status(MovesNotDistinct), MovesNotDistinct);
    }
    var count := CountOf(db.members, teamId);
    if count >= MaxMembers {
      assert plan == Err(TeamFull);
      return JsonError(Status(TeamFull), TeamFull);
    }
    var newMemberId := count + 1;
    if pokedexId !in catalog.baseHp {
      assert plan == Err(UnknownSpecies(pokedexId));
      return JsonError(Status(UnknownSpecies(pokedexId)), UnknownSpecies(pokedexId));
    }
    var currentHp := catalog.baseHp[pokedexId];
    var ppValues := LookupPps(moveIds, catalog.maxPp);
    if ppValues.Err? {
      assert plan == Err(UnknownMove(ppValues.error));
      return JsonError(Status(UnknownMove(ppValues.error)), UnknownMove(ppValues.error));
    }
    var pps := ppValues.value;
    var slots := [Some(MoveSlot(moveIds[0], pps[0])), Some(MoveSlot(moveIds[1], pps[1])),
                  Some(MoveSlot(moveIds[2], pps[2])), Some(MoveSlot(moveIds[3], pps[3]))];
    assert slots == FullSlots(moveIds, catalog.maxPp);
    assert plan == Ok(MemberRow(teamId, newMemberId, pokedexId, Some(currentHp), slots));
    db.members := db.members + [MemberRow(teamId, newMemberId, pokedexId, Some(currentHp), slots)];
    resp := SuccessAnswer(ending);
  }

  /** The outcome of `update_team_member` before it writes: the four new move
      slots at full PP, or the error it answers with. The member's existence
      is not checked. */
  function UpdatePlan(form: UpdateForm, catalog: Catalog): (r: Result<seq<Option<MoveSlot>>, MemberError>)
    ensures r.Ok? <==>
              && form.teamId.Some? && form.memberId.Some? && MoveIds(form.moveFields).Some?
              && PairwiseDistinct(MoveIds(form.moveFields).value)
              && forall i :: 1 <= i <= 4 ==> form.moveFields[i] in catalog.maxPp
    ensures r.Ok? ==>
              && |r.value| == 4
              && forall i :: 1 <= i <= 4 ==>
                   r.value[i - 1] == Some(MoveSlot(form.moveFields[i], catalog.maxPp[form.moveFields[i]]))
    ensures r == Err(BadForm) <==> !UpdateParses(form)
    ensures r == Err(MovesNotDistinct) <==> UpdateParses(form) && !PairwiseDistinct(MoveIds(form.moveFields).value)
    ensures r.Err? && r.error.UnknownMove? <==>
              && UpdateParses(form) && PairwiseDistinct(MoveIds(form.moveFields).value)
              && FirstUnknown(MoveIds(form.moveFields).value, catalog.maxPp).Some?
    ensures r.Err? && r.error.UnknownMove? ==>
              FirstUnknown(MoveIds(form.moveFields).value, catalog.maxPp) == Some(r.error.moveId)
    ensures r.Err? ==> r.error.BadForm? || r.error.MovesNotDistinct? || r.error.UnknownMove?
  {
    if form.teamId.None? || form.memberId.None? then Err(BadForm)
    else match MoveIds(form.moveFields)
      case None => Err(BadForm)
      case Some(moveIds) =>
        SetOfFourIff(moveIds);
        if !SetOfFour(moveIds) then Err(MovesNotDistinct)
        else match FirstUnknown(moveIds, catalog.maxPp)
          case Some(m) => Err(UnknownMove(m))
          case None =>
            assert forall i :: 1 <= i <= 4 ==> form.moveFields[i] == moveIds[i - 1];
            Ok(FullSlots(moveIds, catalog.maxPp))
  }

  predicate IsMember(row: MemberRow, teamId: int, memberId: int) {
    row.teamId == teamId && row.memberId == memberId
  }

  /** `UPDATE user_poke_team_members SET move_i_id, move_i_current_pp ...
      WHERE user_team_id = teamId AND user_team_member_id = memberId`: every
      matching row gets the new slots and keeps its other columns; every other
      row is unchanged. */
  function UpdatedRows(rows: seq<MemberRow>, teamId: int, memberId: int, slots: seq<Option<MoveSlot>>): (r: seq<MemberRow>)
    ensures |r| == |rows|
    ensures forall i :: 0 <= i < |rows| ==>
              && r[i].teamId == rows[i].teamId && r[i].memberId == rows[i].memberId
              && r[i].pokedexId == rows[i].pokedexId && r[i].currentHp == rows[i].currentHp
              && r[i].slots == (if IsMember(rows[i], teamId, memberId) then slots else rows[i].slots)
  {
    seq(|rows|, i requires 0 <= i < |rows| =>
      if IsMember(rows[i], teamId, memberId) then rows[i].(slots := slots) else rows[i])
  }

  /** `update_team_member`, ending as `ending` says: on success every row
      of the member gets the new moves at full PP and the answer is the
      ending; on any error no row changes. */
  method UpdateMember(db: Database, form: UpdateForm, catalog: Catalog, ending: Ending) returns (resp: Response)
    modifies db`members
    ensures var plan := UpdatePlan(form, catalog);
      && (plan.Ok? ==> db.members == UpdatedRows(old(db.members), form.teamId.value, form.memberId.value, plan.value))
      && (plan.Err? ==> db.members == old(db.members))
      && resp == Answer(plan, ending)
  {
    if form.teamId.None? || form.memberId.None? {
      return JsonError(Status(BadForm), BadForm);
    }
    var teamId, memberId := form.teamId.value, form.memberId.value;
    var parsed := MoveIds(form.moveFields);
    if parsed.None? {
      return JsonError(Status(BadForm), BadForm);
    }
    var moveIds := parsed.value;
    if |set m | m in moveIds| != 4 {
      return JsonError(Status(MovesNotDistinct), MovesNotDistinct);
    }
    var ppValues := LookupPps(moveIds, catalog.maxPp);
    if ppValues.Err? {
      return JsonError(Status(UnknownMove(ppValues.error)), UnknownMove(ppValues.error));
    }
    var pps := ppValues.value;
    var slots := [Some(MoveSlot(moveIds[0], pps[0])), Some(MoveSlot(moveIds[1], pps[1])),
                  Some(MoveSlot(moveIds[2], pps[2])), Some(MoveSlot(moveIds[3], pps[3]))];
    assert slots == FullSlots(moveIds, catalog.maxPp);
    db.members := UpdatedRows(db.members, teamId, memberId, slots);
    resp := SuccessAnswer(ending);
  }

  /** A row the DELETE names. A missing form field is bound as SQL NULL, and
      `= NULL` matches no row. */
  predicate Targeted(row: MemberRow, teamId: Option<int>, memberId: Option<int>) {
    teamId.Some? && memberId.Some? && IsMember(row, teamId.value, memberId.value)
  }

  /** `DELETE FROM user_poke_team_members WHERE user_team_id = teamId AND
      user_team_member_id = memberId`: exactly the targeted rows go, every
      other row stays, in order; with a missing field nothing goes. */
  function DeletedRows(rows: seq<MemberRow>, teamId: Option<int>, memberId: Option<int>): (r: seq<MemberRow>)
    ensures forall row :: row in r ==> row in rows && !Targeted(row, teamId, memberId)
    ensures forall row :: row in rows && !Targeted(row, teamId, memberId) ==> row in r
    ensures |r| + |Filter(rows, (row: MemberRow) => Targeted(row, teamId, memberId))| == |rows|
    ensures multiset(r) == multiset(rows) - multiset(Filter(rows, (row: MemberRow) => Targeted(row, teamId, memberId)))
    ensures teamId.None? || memberId.None? ==> r == rows
  {
    var keep := (row: MemberRow) => !Targeted(row, teamId, memberId);
    var drop := (row: MemberRow) => Targeted(row, teamId, memberId);
    FilterSplit(rows, keep, drop);
    FilterMultiset(rows, keep, drop);
    FilterAllOrNone(rows, keep);
    Filter(rows, keep)
  }

  /** The DELETE keeps the order of what stays: every team it does not name
      keeps its rows exactly, and the named team keeps its rows of other
      member ids in the order they had. */
  lemma DeletedRowsByTeam(rows: seq<MemberRow>, teamId: Option<int>, memberId: Option<int>, team: int)
    ensures teamId.None? || memberId.None? || team != teamId.value ==>
              RowsOf(DeletedRows(rows, teamId, memberId), team) == RowsOf(rows, team)
    ensures teamId.Some? && memberId.Some? && team == teamId.value ==>
              RowsOf(DeletedRows(rows, teamId, memberId), team)
              == Filter(RowsOf(rows, team), (row: MemberRow) => row.memberId != memberId.value)
  {
    var keep := (row: MemberRow) => !Targeted(row, teamId, memberId);
    var ofTeam := (row: MemberRow) => OfTeam(row, team);
    FilterCommute(rows, keep, ofTeam);
    var teamRows := Filter(rows, ofTeam);
    if teamId.None? || memberId.None? || team != teamId.value {
      FilterAllOrNone(teamRows, keep);
    } else {
      FilterAgree(teamRows, keep, (row: MemberRow) => row.memberId != memberId.value);
    }
  }

  /** `delete_team_member`, ending as `ending` says: the targeted rows go
      and the answer is the ending. */
  method DeleteMember(db: Database, teamId: Option<int>, memberId: Option<int>, ending: Ending) returns (resp: Response)
    modifies db`members
    ensures resp == SuccessAnswer(ending)
    ensures db.members == DeletedRows(old(db.members), teamId, memberId)
  {
    db.members := DeletedRows(db.members, teamId, memberId);
    resp := SuccessAnswer(ending);
  }

  /** As written, none of the three handlers ever redirects: an add or an
      update that writes its row, and every delete, is answered with the 500
      of the NameError after the commit, and every other request with its
      own error. */
  lemma WrittenWritesThenFail(rows: seq<MemberRow>, addForm: AddForm, updateForm: UpdateForm, catalog: Catalog)
    ensures AddPlan(rows, addForm, catalog).Ok? ==>
              Answer(AddPlan(rows, addForm, catalog), AsWritten) == JsonError(500, RedirectUndefined)
    ensures UpdatePlan(updateForm, catalog).Ok? ==>
              Answer(UpdatePlan(updateForm, catalog), AsWritten) == JsonError(500, RedirectUndefined)
    ensures SuccessAnswer(AsWritten) == JsonError(500, RedirectUndefined)
    ensures Answer(AddPlan(rows, addForm, catalog), AsWritten).JsonError?
            && Answer(UpdatePlan(updateForm, catalog), AsWritten).JsonError?
  {
  }

  /** With the import added, an add or an update is answered with the
      redirect exactly when it writes, and every delete redirects. */
  lemma RedirectsIffWritten(rows: seq<MemberRow>, addForm: AddForm, updateForm: UpdateForm, catalog: Catalog)
    ensures Answer(AddPlan(rows, addForm, catalog), WithImport) == RedirectToList
            <==> AddPlan(rows, addForm, catalog).Ok?
    ensures Answer(UpdatePlan(updateForm, catalog), WithImport) == RedirectToList
            <==> UpdatePlan(updateForm, catalog).Ok?
    ensures SuccessAnswer(WithImport) == RedirectToList
  {
  }

  /** Member ids come from the row count, not from the ids in use: once a
      member that is not the last has been deleted, the next add reuses the
      id of a member that is still on the team. */
  lemma DeleteThenAddRepeatsId()
    ensures
      var rows := [MemberRow(1, 1, 25, Some(35), EmptySlots), MemberRow(1, 2, 4, Some(39), EmptySlots)];
      var after := DeletedRows(rows, Some(1), Some(1));
      var catalog := Catalog(map[7 := 44], map[10 := 35, 11 := 25, 12 := 30, 13 := 40], []);
      var plan := AddPlan(after, AddForm(Some(1), Some(7), map[1 := 10, 2 := 11, 3 := 12, 4 := 13]), catalog);
      && after == [MemberRow(1, 2, 4, Some(39), EmptySlots)]
      && plan.Ok? && plan.value.teamId == 1 && plan.value.memberId == 2
  {
    DeleteFirstOfTwo();
    AddBesideMemberTwo();
  }

  /** The second step of DeleteThenAddRepeatsId: with member 2 the team's
      only row, the next add is numbered 2. */
  lemma AddBesideMemberTwo()
    ensures var plan := AddPlan([MemberRow(1, 2, 4, Some(39), EmptySlots)],
                                AddForm(Some(1), Some(7), map[1 := 10, 2 := 11, 3 := 12, 4 := 13]),
                                Catalog(map[7 := 44], map[10 := 35, 11 := 25, 12 := 30, 13 := 40], []));
      plan.Ok? && plan.value.teamId == 1 && plan.value.memberId == 2
  {
    var kept := MemberRow(1, 2, 4, Some(39), EmptySlots);
    assert [kept][..0] == [];
    assert RowsOf([kept], 1) == [kept];
    assert MoveIds(map[1 := 10, 2 := 11, 3 := 12, 4 := 13]) == Some([10, 11, 12, 13]);
    assert PairwiseDistinct([10, 11, 12, 13]);
  }

  /** The first step of DeleteThenAddRepeatsId: deleting member 1 of the
      two-member team leaves member 2 alone. */
  lemma DeleteFirstOfTwo()
    ensures DeletedRows([MemberRow(1, 1, 25, Some(35), EmptySlots), MemberRow(1, 2, 4, Some(39), EmptySlots)], Some(1), Some(1))
            == [MemberRow(1, 2, 4, Some(39), EmptySlots)]
  {
    var rows := [MemberRow(1, 1, 25, Some(35), EmptySlots), MemberRow(1, 2, 4, Some(39), EmptySlots)];
    var keep := (row: MemberRow) => !Targeted(row, Some(1), Some(1));
    assert rows[..1] == [rows[0]];
    assert Filter(rows[..1], keep) == [] by {
      assert rows[..1][..0] == [];
    }
  }
}
