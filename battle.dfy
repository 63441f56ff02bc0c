/** Battle setup in backend/app/battle.py (`start_battle`): find the active
    team, fetch the battle-state rows from the `get_battle_state` stored
    procedure, keep one row per side by party_type, and give each side a list
    of its four moves. The stored procedure is not part of this model; its
    rows are an input. */
module Battle {
  import opened Common
  import opened Tables

  /** The user id `start_battle` queries with, fixed in place of the
      session's. */
  const DebugUserId := 1

  /** A column value of a battle-state row, or the move list the handler
      stores under "moves". */
  datatype Value = Null | Int(i: int) | Str(s: string) | Moves(entries: seq<MoveEntry>)

  /** One element of a side's "moves" list: move_name, current_pp, max_pp. */
  datatype MoveEntry = MoveEntry(moveName: Value, currentPp: Value, maxPp: Value)

  /** A row of the stored procedure's result, read by column name. */
  type Row = map<string, Value>

  const PartyType := "party_type"
  const PlayerKey := "player_pokemon"
  const OpponentKey := "opponent_pokemon"
  const MovesKey := "moves"

  /** `SELECT user_team_id FROM user_teams WHERE user_id = userId AND
      is_active = TRUE` with `fetchone()`: the first active team of the user
      in table order. */
  function ActiveTeamOf(teams: seq<TeamRow>, userId: int): (r: Option<int>)
    ensures r.None? <==> forall k :: 0 <= k < |teams| ==> !(teams[k].userId == userId && teams[k].active)
    ensures r.Some? ==> exists k :: 0 <= k < |teams| && teams[k].userId == userId && teams[k].active
                                  && teams[k].teamId == r.value
                                  && forall j :: 0 <= j < k ==> !(teams[j].userId == userId && teams[j].active)
  {
    if teams == [] then None
    else if teams[0].userId == userId && teams[0].active then Some(teams[0].teamId)
    else
      var r := ActiveTeamOf(teams[1..], userId);
      assert forall k :: 1 <= k < |teams| ==> teams[k] == teams[1..][k - 1];
      r
  }

  /** The side a row with a party_type goes to: a 'USER' row to the player,
      a row with any other value, NULL included, to the opponent. */
  function SideOf(row: Row): (key: string)
    requires PartyType in row
    ensures key == PlayerKey <==> row[PartyType] == Str("USER")
    ensures key == PlayerKey || key == OpponentKey
  {
    if row[PartyType] == Str("USER") then PlayerKey else OpponentKey
  }

  /** The row has a party_type and it sends the row to side `key`. */
  predicate OnSide(row: Row, key: string) {
    PartyType in row && SideOf(row) == key
  }

  /** The partition loop of `start_battle` as a fold: None when some row has
      no party_type column (its lookup raises), otherwise each row in turn
      overwrites the entry of its side. */
  function Partitioned(rows: seq<Row>): (r: Option<map<string, Row>>)
    ensures r.None? <==> exists k :: 0 <= k < |rows| && PartyType !in rows[k]
  {
    if rows == [] then Some(map[])
    else
      var prefix, row := rows[..|rows| - 1], rows[|rows| - 1];
      assert forall k :: 0 <= k < |prefix| ==> prefix[k] == rows[k];
      match Partitioned(prefix)
      case None => None
      case Some(state) =>
        if PartyType !in row then None
        else Some(state[SideOf(row) := row])
  }

  /** What the partition keeps: a side is present exactly when some row goes
      to it, and then it holds the last such row. */
  lemma PartitionedSides(rows: seq<Row>, key: string)
    requires Partitioned(rows).Some?
    ensures key in Partitioned(rows).value <==> exists k :: 0 <= k < |rows| && OnSide(rows[k], key)
    ensures key in Partitioned(rows).value ==>
              exists k :: 0 <= k < |rows| && rows[k] == Partitioned(rows).value[key] && OnSide(rows[k], key)
                          && forall j :: k < j < |rows| ==> !OnSide(rows[j], key)
  {
    PartitionedHas(rows, key);
    if key in Partitioned(rows).value {
      PartitionedLast(rows, key);
    }
  }

  /** A side is present in the partition exactly when some row goes to it. */
  lemma {:induction false} PartitionedHas(rows: seq<Row>, key: string)
    requires Partitioned(rows).Some?
    ensures key in Partitioned(rows).value <==> exists k :: 0 <= k < |rows| && OnSide(rows[k], key)
  {
    if rows != [] {
      var prefix, row := rows[..|rows| - 1], rows[|rows| - 1];
      assert forall k :: 0 <= k < |prefix| ==> prefix[k] == rows[k];
      PartitionedHas(prefix, key);
      var state := Partitioned(prefix).value;
      assert Partitioned(rows).value == state[SideOf(row) := row];
      if SideOf(row) == key {
        assert OnSide(rows[|rows| - 1], key);
      } else {
        assert !OnSide(rows[|rows| - 1], key);
        assert key in Partitioned(rows).value <==> key in state;
      }
    }
  }

  /** A side present in the partition holds the last row that goes to it. */
  lemma {:induction false} PartitionedLast(rows: seq<Row>, key: string)
    requires Partitioned(rows).Some? && key in Partitioned(rows).value
    ensures LastOnSide(rows, key, Partitioned(rows).value[key])
  {
    var prefix, row := rows[..|rows| - 1], rows[|rows| - 1];
    var state := Partitioned(prefix).value;
    assert Partitioned(rows).value == state[SideOf(row) := row];
    if SideOf(row) == key {
      LastOnSideNew(rows, key);
    } else {
      PartitionedLast(prefix, key);
      LastOnSideKeep(rows, key, state[key]);
    }
  }

  /** `v` is the last row of `rows` that goes to side `key`. */
  predicate LastOnSide(rows: seq<Row>, key: string, v: Row) {
    exists k :: 0 <= k < |rows| && rows[k] == v && OnSide(rows[k], key)
                && forall j :: k < j < |rows| ==> !OnSide(rows[j], key)
  }

  /** A last row that goes to side `key` is that side's last row. */
  lemma LastOnSideNew(rows: seq<Row>, key: string)
    requires rows != [] && OnSide(rows[|rows| - 1], key)
    ensures LastOnSide(rows, key, rows[|rows| - 1])
  {
    var k := |rows| - 1;
    assert rows[k] == rows[|rows| - 1] && OnSide(rows[k], key);
  }

  /** A last row that goes elsewhere keeps the side's last row. */
  lemma LastOnSideKeep(rows: seq<Row>, key: string, v: Row)
    requires rows != [] && LastOnSide(rows[..|rows| - 1], key, v) && !OnSide(rows[|rows| - 1], key)
    ensures LastOnSide(rows, key, v)
  {
    var prefix := rows[..|rows| - 1];
    var k :| 0 <= k < |prefix| && prefix[k] == v && OnSide(prefix[k], key)
             && forall j :: k < j < |prefix| ==> !OnSide(prefix[j], key);
    assert rows[k] == prefix[k];
    forall j | k < j < |rows| ensures !OnSide(rows[j], key) {
      if j < |prefix| {
        assert rows[j] == prefix[j];
      }
    }
  }

  /** One more row extends the fold as one iteration of the loop does. */
  lemma PartitionedStep(rows: seq<Row>, i: int)
    requires 0 <= i < |rows|
    ensures Partitioned(rows[..i + 1])
            == match Partitioned(rows[..i])
               case None => None
               case Some(state) =>
                 if PartyType !in rows[i] then None
                 else Some(state[SideOf(rows[i]) := rows[i]])
  {
    assert rows[..i + 1][..i] == rows[..i];
  }

  /** The partition loop of `start_battle`; None stands for the KeyError of a
      row without party_type. */
  method Partition(rows: seq<Row>) returns (r: Option<map<string, Row>>)
    ensures r == Partitioned(rows)
  {
    var battleState: map<string, Row> := map[];
    for i := 0 to |rows|
      invariant Partitioned(rows[..i]) == Some(battleState)
    {
      var row := rows[i];
      PartitionedStep(rows, i);
      if PartyType !in row {
        PartitionedNone(rows, i + 1);
        return None;
      }
      if row[PartyType] == Str("USER") {
        battleState := battleState[PlayerKey := row];
      } else {
        battleState := battleState[OpponentKey := row];
      }
    }
    assert rows[..|rows|] == rows;
    return Some(battleState);
  }

  /** Once a prefix has failed, the whole fold fails. */
  lemma PartitionedNone(rows: seq<Row>, i: int)
    requires 0 <= i <= |rows| && Partitioned(rows[..i]).None?
    ensures Partitioned(rows).None?
  {
    var k :| 0 <= k < i && PartyType !in rows[..i][k];
    assert rows[k] == rows[..i][k];
  }

  /** The column names of move slot n + 1 (n in 0..3). */
  function SlotName(n: int): string
    requires 0 <= n < 4
  {
    ["move_1", "move_2", "move_3", "move_4"][n]
  }

  function NameKey(n: int): string requires 0 <= n < 4 { SlotName(n) + "_name" }
  function CurrentPpKey(n: int): string requires 0 <= n < 4 { SlotName(n) + "_current_pp" }
  function MaxPpKey(n: int): string requires 0 <= n < 4 { SlotName(n) + "_max_pp" }

  /** The twelve move columns the move list reads are all present. */
  predicate HasMoveColumns(row: Row) {
    forall n :: 0 <= n < 4 ==> NameKey(n) in row && CurrentPpKey(n) in row && MaxPpKey(n) in row
  }

  /** `party['moves'] = [...]`: the side's row with a "moves" entry listing its
      four move slots in order; None when a move column is missing (its lookup
      raises). Every other column is kept as it was. */
  function WithMoves(row: Row): (r: Option<Row>)
    ensures r.Some? <==> HasMoveColumns(row)
    ensures r.Some? ==> r.value.Keys == row.Keys + {MovesKey}
    ensures r.Some? ==> forall key :: key in row && key != MovesKey ==> r.value[key] == row[key]
    ensures r.Some? ==> r.value[MovesKey].Moves? && |r.value[MovesKey].entries| == 4
    ensures r.Some? ==> forall n :: 0 <= n < 4 ==>
              r.value[MovesKey].entries[n] == MoveEntry(row[NameKey(n)], row[CurrentPpKey(n)], row[MaxPpKey(n)])
  {
    if HasMoveColumns(row) then
      Some(row[MovesKey := Moves(seq(4, n requires 0 <= n < 4 =>
        MoveEntry(row[NameKey(n)], row[CurrentPpKey(n)], row[MaxPpKey(n)])))])
    else None
  }

  /** Every side of `state` given its move list, or None when some side lacks
      a move column. */
  function WithAllMoves(state: map<string, Row>): (r: Option<map<string, Row>>)
    ensures r.Some? <==> forall key :: key in state ==> HasMoveColumns(state[key])
    ensures r.Some? ==> r.value.Keys == state.Keys
                        && forall key :: key in state ==> WithMoves(state[key]) == Some(r.value[key])
  {
    if forall key :: key in state ==> HasMoveColumns(state[key])
    then Some(map key | key in state :: WithMoves(state[key]).value)
    else None
  }

  /** The move-list loop of `start_battle`, one side at a time. */
  method AttachMoves(state: map<string, Row>) returns (r: Option<map<string, Row>>)
    ensures r == WithAllMoves(state)
  {
    var done: map<string, Row> := state;
    var remaining := state.Keys;
    while remaining != {}
      invariant remaining <= state.Keys && done.Keys == state.Keys
      invariant forall key :: key in state && key !in remaining ==>
                  HasMoveColumns(state[key]) && WithMoves(state[key]) == Some(done[key])
      invariant forall key :: key in remaining ==> done[key] == state[key]
      decreases remaining
    {
      var key :| key in remaining;
      var party := WithMoves(done[key]);
      if party.None? {
        return None;
      }
      done := done[key := party.value];
      remaining := remaining - {key};
    }
    assert done == map key | key in state :: WithMoves(state[key]).value;
    return Some(done);
  }

  /** What the template receives, when nothing raises. */
  function BattleState(rows: seq<Row>): Option<map<string, Row>> {
    match Partitioned(rows)
    case None => None
    case Some(state) => WithAllMoves(state)
  }

  /** The answer of `start_battle`: the battle page with its state, the 400
      "no active team" text, or the 500 text for any exception. */
  datatype BattleResponse = BattlePage(state: map<string, Row>) | NoActiveTeam | ServerError

  /** The HTTP status of each answer. */
  function Status(resp: BattleResponse): int {
    match resp
    case BattlePage(_) => 200
    case NoActiveTeam => 400
    case ServerError => 500
  }

  /** `start_battle(gym_id)`. `getBattleState` stands for the stored
      procedure, called with the active team's id and the gym id. */
  method StartBattle(db: Database, gymId: int, getBattleState: (int, int) -> seq<Row>) returns (resp: BattleResponse)
    ensures ActiveTeamOf(db.teams, DebugUserId).None? ==> resp == NoActiveTeam
    ensures ActiveTeamOf(db.teams, DebugUserId).Some? ==>
              var rows := getBattleState(ActiveTeamOf(db.teams, DebugUserId).value, gymId);
              resp == match BattleState(rows) case Some(state) => BattlePage(state) case None => ServerError
    ensures Status(resp) == 200 <==>
              ActiveTeamOf(db.teams, DebugUserId).Some? &&
              BattleState(getBattleState(ActiveTeamOf(db.teams, DebugUserId).value, gymId)).Some?
    ensures Status(resp) == 400 <==> ActiveTeamOf(db.teams, DebugUserId).None?
  {
    var activeTeam := ActiveTeamOf(db.teams, DebugUserId);
    if activeTeam.None? {
      return NoActiveTeam;
    }
    var results := getBattleState(activeTeam.value, gymId);
    var battleState := Partition(results);
    if battleState.None? {
      return ServerError;
    }
    var withMoves := AttachMoves(battleState.value);
    if withMoves.None? {
      return ServerError;
    }
    resp := BattlePage(withMoves.value);
  }

  /** What the battle page shows: at most the two sides; a side is present
      exactly when some row goes to it, and it is the last such row with its
      columns kept, a four-entry move list added, and the party_type that put
      it there. */
  lemma BattleStateSides(rows: seq<Row>, key: string)
    requires BattleState(rows).Some?
    ensures var state := BattleState(rows).value;
      && (key in state <==> exists k :: 0 <= k < |rows| && OnSide(rows[k], key))
      && (key in state ==>
            && (key == PlayerKey || key == OpponentKey)
            && state[key][MovesKey].Moves? && |state[key][MovesKey].entries| == 4
            && PartyType in state[key]
            && (key == PlayerKey <==> state[key][PartyType] == Str("USER"))
            && exists k :: 0 <= k < |rows| && OnSide(rows[k], key)
                           && (forall j :: k < j < |rows| ==> !OnSide(rows[j], key))
                           && WithMoves(rows[k]) == Some(state[key]))
  {
    var parts: map<string, Row> := Partitioned(rows).value;
    var state: map<string, Row> := BattleState(rows).value;
    PartitionedSides(rows, key);
    if key in state {
      assert WithMoves(parts[key]) == Some(state[key]);
      assert PartyType != MovesKey;
      var k :| 0 <= k < |rows| && rows[k] == parts[key] && OnSide(rows[k], key)
               && forall j :: k < j < |rows| ==> !OnSide(rows[j], key);
      assert state[key][PartyType] == rows[k][PartyType];
    }
  }

  /** The battle page is built exactly when every row has a party_type and
      every side kept has all twelve move columns; otherwise the answer is
      the 500 text. */
  lemma BattleStateDefined(rows: seq<Row>)
    ensures BattleState(rows).Some? <==>
              && (forall k :: 0 <= k < |rows| ==> PartyType in rows[k])
              && forall key :: key in Partitioned(rows).value ==> HasMoveColumns(Partitioned(rows).value[key])
  {
    if Partitioned(rows).Some? {
      assert BattleState(rows) == WithAllMoves(Partitioned(rows).value);
    }
  }
}
