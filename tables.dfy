/** The database tables and the Flask session that the route handlers read and
    write, held in memory, with the reference data they look up. */
module Tables {
  import opened Common

  /** An occupied move slot of a team member: the columns move_i_id and
      move_i_current_pp. */
  datatype MoveSlot = MoveSlot(moveId: int, currentPp: int)

  /** A row of user_poke_team_members. Columns an INSERT leaves unset are None:
      saving a drafted team writes only the team id, member id and pokedex id. */
  datatype MemberRow = MemberRow(teamId: int, memberId: int, pokedexId: int,
                                 currentHp: Option<int>, slots: seq<Option<MoveSlot>>)

  /** A row of user_teams. */
  datatype TeamRow = TeamRow(userId: int, teamId: int, active: bool, name: string)

  /** A (name, pokedex_id) pair of pokedex_entries, in table order. */
  datatype NameEntry = NameEntry(name: string, pokedexId: int)

  /** Read-only reference data: pokedex_entries.hp by pokedex_id, moves.pp
      by move_id, and the names of pokedex_entries. */
  datatype Catalog = Catalog(baseHp: map<int, int>, maxPp: map<int, int>, names: seq<NameEntry>)

  /** The four move slots of a member row inserted without moves. */
  const EmptySlots: seq<Option<MoveSlot>> := [None, None, None, None]

  /** The tables user_teams and user_poke_team_members, in row order. */
  class Database {
    var teams: seq<TeamRow>
    var members: seq<MemberRow>
  }

  /** The Flask session keys the handlers use. A missing 'team' key reads as
      the empty list, as `session.get('team', [])` does. */
  class Session {
    var userId: Option<int>
    var username: Option<string>
    var userTeamId: Option<int>
    var team: seq<string>
  }

  /** `LOWER(name) = q.lower()`: the entry's name equals `q` ignoring ASCII
      case. */
  predicate NameMatches(entry: NameEntry, q: string) {
    Lower(entry.name) == Lower(q)
  }

  /** `SELECT pokedex_id FROM pokedex_entries WHERE LOWER(name) = q.lower()
      LIMIT 1`: the first entry whose name matches `q`. */
  function FindByName(names: seq<NameEntry>, q: string): Option<int> {
    if names == [] then None
    else if NameMatches(names[0], q) then Some(names[0].pokedexId)
    else FindByName(names[1..], q)
  }

  /** The lookup finds nothing exactly when no entry matches, and otherwise
      the pokedex id of the first matching entry in table order. */
  lemma {:induction false} FindByNameFirst(names: seq<NameEntry>, q: string)
    ensures FindByName(names, q).None? <==> forall k :: 0 <= k < |names| ==> !NameMatches(names[k], q)
    ensures FindByName(names, q).Some? ==>
              exists k :: 0 <= k < |names| && NameMatches(names[k], q)
                          && names[k].pokedexId == FindByName(names, q).value
                          && forall j :: 0 <= j < k ==> !NameMatches(names[j], q)
  {
    if names != [] && !NameMatches(names[0], q) {
      FindByNameFirst(names[1..], q);
      assert forall k :: 1 <= k < |names| ==> names[k] == names[1..][k - 1];
      if FindByName(names, q).Some? {
        var k :| 0 <= k < |names| - 1 && NameMatches(names[1..][k], q)
                 && names[1..][k].pokedexId == FindByName(names, q).value
                 && forall j :: 0 <= j < k ==> !NameMatches(names[1..][j], q);
        assert names[k + 1] == names[1..][k];
      }
    }
  }

  predicate OfTeam(row: MemberRow, teamId: int) {
    row.teamId == teamId
  }

  /** `WHERE user_team_id = teamId`. */
  function RowsOf(rows: seq<MemberRow>, teamId: int): seq<MemberRow> {
    Filter(rows, (row: MemberRow) => OfTeam(row, teamId))
  }

  /** `DELETE FROM user_poke_team_members WHERE user_team_id = teamId`. */
  function WithoutTeam(rows: seq<MemberRow>, teamId: int): seq<MemberRow> {
    Filter(rows, (row: MemberRow) => !OfTeam(row, teamId))
  }

  /** `SELECT COUNT(*) ... WHERE user_team_id = teamId`. */
  function CountOf(rows: seq<MemberRow>, teamId: int): nat {
    |RowsOf(rows, teamId)|
  }

  /** Deleting one team's rows leaves that team with none and every other
      team with exactly the rows it had, in the same order. */
  lemma {:induction false} WithoutTeamRows(rows: seq<MemberRow>, teamId: int, other: int)
    ensures RowsOf(WithoutTeam(rows, teamId), teamId) == []
    ensures other != teamId ==> RowsOf(WithoutTeam(rows, teamId), other) == RowsOf(rows, other)
  {
    if rows != [] {
      var p := rows[..|rows| - 1];
      WithoutTeamRows(p, teamId, other);
      var last := rows[|rows| - 1];
      if !OfTeam(last, teamId) {
        FilterAppend(WithoutTeam(p, teamId), [last], (row: MemberRow) => OfTeam(row, teamId));
        FilterAppend(WithoutTeam(p, teamId), [last], (row: MemberRow) => OfTeam(row, other));
      }
    }
  }

  /** Rows that all belong to one team are all that team's rows and none of
      any other team's. */
  lemma RowsOfSingleTeam(rows: seq<MemberRow>, teamId: int, other: int)
    requires forall row :: row in rows ==> row.teamId == teamId
    ensures RowsOf(rows, teamId) == rows
    ensures other != teamId ==> RowsOf(rows, other) == []
  {
    FilterAllOrNone(rows, (row: MemberRow) => OfTeam(row, teamId));
    FilterAllOrNone(rows, (row: MemberRow) => OfTeam(row, other));
  }

  /** A team's rows in a concatenation of two tables. */
  lemma RowsOfAppend(a: seq<MemberRow>, b: seq<MemberRow>, teamId: int)
    ensures RowsOf(a + b, teamId) == RowsOf(a, teamId) + RowsOf(b, teamId)
  {
    FilterAppend(a, b, (row: MemberRow) => OfTeam(row, teamId));
  }
}
