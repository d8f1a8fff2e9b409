/**
 * The teams extractor (`team_membership.py`): one row per Tempo team and one
 * row per team membership, or neither table when a fetch returns None.
 * `tempo.teams()` and `tempo.team_membership(id)` are inputs: what each call
 * returns (None or a list) or raises is given as `teams` and
 * `membershipsOf(id)`.
 */
module TeamMembership {
  import opened Outcomes
  import opened Records
  import opened Rows

  const TeamsTable: string := "teams"
  const TeamMembershipsTable: string := "team_membership"

  const ColTeamId: string := "team_id"
  const ColUserId: string := "account_id"
  const ColId: string := "id"
  const ColLeadId: string := "team_lead_id"
  const ColTeamName: string := "team_name"

  /** `table_column_definitions()`, reduced to column names and primary-key flags. */
  function TableColumnDefinitions(): map<string, map<string, ColumnDefinition>> {
    map[
      TeamMembershipsTable := map[ColTeamId := ColumnDefinition(true), ColUserId := ColumnDefinition(true)],
      TeamsTable := map[ColId := ColumnDefinition(true), ColLeadId := ColumnDefinition(false), ColTeamName := ColumnDefinition(false)]
    ]
  }

  /** A membership is identified by the pair (team, account); a team by its id alone. */
  lemma PrimaryKeys()
    ensures TableColumnDefinitions().Keys == {TeamsTable, TeamMembershipsTable}
    ensures PrimaryKey(TableColumnDefinitions()[TeamMembershipsTable]) == {ColTeamId, ColUserId}
    ensures PrimaryKey(TableColumnDefinitions()[TeamsTable]) == {ColId}
  {
  }

  /** `_transform_team(team)`: a row with exactly the columns of the teams table. */
  function TransformTeam(team: Team): (row: Row)
    ensures row.Keys == TableColumnDefinitions()[TeamsTable].Keys
  {
    map[ColId := IntV(team.id), ColTeamName := StrV(team.name), ColLeadId := StrV(team.leadAccountId)]
  }

  /** Reads a team back from a row of the teams table. */
  function TeamFromRow(row: Row): Option<Team> {
    if ColId in row && row[ColId].IntV? && ColTeamName in row && row[ColTeamName].StrV? && ColLeadId in row && row[ColLeadId].StrV?
    then Some(Team(row[ColId].i, row[ColTeamName].s, row[ColLeadId].s))
    else None
  }

  /** The teams row copies `id`, `name` and `lead.accountId` unchanged. */
  lemma TeamRowRoundTrip(team: Team)
    ensures TeamFromRow(TransformTeam(team)) == Some(team)
  {
  }

  /** `_transform_team_membership(membership)`: a row with exactly the columns of the membership table. */
  function TransformTeamMembership(membership: Membership): (row: Row)
    ensures row.Keys == TableColumnDefinitions()[TeamMembershipsTable].Keys
  {
    map[ColTeamId := IntV(membership.teamId), ColUserId := StrV(membership.memberAccountId)]
  }

  /** Reads a membership back from a row of the membership table. */
  function MembershipFromRow(row: Row): Option<Membership> {
    if ColTeamId in row && row[ColTeamId].IntV? && ColUserId in row && row[ColUserId].StrV?
    then Some(Membership(row[ColTeamId].i, row[ColUserId].s))
    else None
  }

  /** The membership row copies `team.id` and `member.accountId` unchanged. */
  lemma MembershipRowRoundTrip(membership: Membership)
    ensures MembershipFromRow(TransformTeamMembership(membership)) == Some(membership)
  {
  }

  /** The teams table: one row per team, in team order. */
  function TeamRows(teams: seq<Team>): (rows: seq<Row>)
    ensures |rows| == |teams| && forall i :: 0 <= i < |teams| ==> rows[i] == TransformTeam(teams[i])
  {
    seq(|teams|, i requires 0 <= i < |teams| => TransformTeam(teams[i]))
  }

  /** The rows of one team's memberships, in order. */
  function MembershipTableRows(memberships: seq<Membership>): (rows: seq<Row>)
    ensures |rows| == |memberships| && forall i :: 0 <= i < |memberships| ==> rows[i] == TransformTeamMembership(memberships[i])
  {
    seq(|memberships|, i requires 0 <= i < |memberships| => TransformTeamMembership(memberships[i]))
  }

  /**
   * The membership table: every team's memberships, team after team. The
   * first fetch that returns no list ends it: its exception propagates, and
   * a None discards the rows gathered so far.
   */
  function MembershipRows(teams: seq<Team>, membershipsOf: int -> Outcome<Option<seq<Membership>>>): Outcome<Option<seq<Row>>> {
    if teams == [] then Done(Some([]))
    else
      var n := |teams| - 1;
      match MembershipRows(teams[..n], membershipsOf)
      case Raised(e) => Raised(e)
      case Done(None) => Done(None)
      case Done(Some(rows)) =>
        match membershipsOf(teams[n].id)
        case Raised(e) => Raised(e)
        case Done(None) => Done(None)
        case Done(Some(memberships)) => Done(Some(rows + MembershipTableRows(memberships)))
  }

  /** What `run()` returns: `{teams: ..., team_membership: ...}`. */
  datatype Tables = Tables(teams: Option<seq<Row>>, teamMembership: Option<seq<Row>>)

  /** `run()`: both tables, both None, or the exception of a client call. */
  function TeamTables(teams: Outcome<Option<seq<Team>>>, membershipsOf: int -> Outcome<Option<seq<Membership>>>): Outcome<Tables> {
    match teams
    case Raised(e) => Raised(e)
    case Done(None) => Done(Tables(None, None))
    case Done(Some(ts)) =>
      match MembershipRows(ts, membershipsOf)
      case Raised(e) => Raised(e)
      case Done(None) => Done(Tables(None, None))
      case Done(Some(rows)) => Done(Tables(Some(TeamRows(ts)), Some(rows)))
  }

  /** `run()` as the loop the source runs, with its early returns. */
  method Run(teams: Outcome<Option<seq<Team>>>, membershipsOf: int -> Outcome<Option<seq<Membership>>>) returns (r: Outcome<Tables>)
    ensures r == TeamTables(teams, membershipsOf)
  {
    var teamData := [];
    var membershipData := [];
    if teams.Raised? {
      return Raised(teams.error);
    }
    if teams.value.None? {
      return Done(Tables(None, None));
    }
    var ts := teams.value.value;
    var i := 0;
    while i < |ts|
      invariant i <= |ts|
      invariant teamData == TeamRows(ts[..i])
      invariant MembershipRows(ts[..i], membershipsOf) == Done(Some(membershipData))
    {
      assert ts[..i + 1][..i] == ts[..i];
      teamData := teamData + [TransformTeam(ts[i])];
      var memberships := membershipsOf(ts[i].id);
      if memberships.Raised? {
        MembershipRowsStops(ts, i + 1, membershipsOf);
        return Raised(memberships.error);
      }
      if memberships.value.None? {
        MembershipRowsStops(ts, i + 1, membershipsOf);
        return Done(Tables(None, None));
      }
      var ms := memberships.value.value;
      ghost var before := membershipData;
      var j := 0;
      while j < |ms|
        invariant j <= |ms|
        invariant |membershipData| == |before| + j && membershipData[..|before|] == before
        invariant forall m :: 0 <= m < j ==> membershipData[|before| + m] == TransformTeamMembership(ms[m])
      {
        membershipData := membershipData + [TransformTeamMembership(ms[j])];
        j := j + 1;
      }
      assert membershipData == before + MembershipTableRows(ms);
      i := i + 1;
    }
    assert ts[..i] == ts;
    return Done(Tables(Some(teamData), Some(membershipData)));
  }

  /** Once a fetch returns no list, later teams change nothing: the table stays what that fetch made it. */
  lemma {:induction false} MembershipRowsStops(teams: seq<Team>, j: nat, membershipsOf: int -> Outcome<Option<seq<Membership>>>)
    requires j <= |teams| && !Fetched(MembershipRows(teams[..j], membershipsOf))
    ensures MembershipRows(teams, membershipsOf) == MembershipRows(teams[..j], membershipsOf)
    decreases |teams| - j
  {
    if j == |teams| {
      assert teams[..j] == teams;
    } else {
      assert teams[..j + 1][..j] == teams[..j];
      MembershipRowsStops(teams, j + 1, membershipsOf);
    }
  }

  /** The membership table is a list exactly when every team's membership fetch returned a list. */
  lemma {:induction false} MembershipRowsFetched(teams: seq<Team>, membershipsOf: int -> Outcome<Option<seq<Membership>>>)
    ensures Fetched(MembershipRows(teams, membershipsOf)) <==> forall i :: 0 <= i < |teams| ==> Fetched(membershipsOf(teams[i].id))
    decreases |teams|
  {
    if teams != [] {
      var n := |teams| - 1;
      MembershipRowsFetched(teams[..n], membershipsOf);
      if forall i :: 0 <= i < |teams| ==> Fetched(membershipsOf(teams[i].id)) {
        forall i | 0 <= i < n
          ensures Fetched(membershipsOf(teams[..n][i].id))
        {
          assert teams[..n][i] == teams[i];
        }
      }
      if forall i :: 0 <= i < n ==> Fetched(membershipsOf(teams[..n][i].id)) {
        forall i | 0 <= i < n
          ensures Fetched(membershipsOf(teams[i].id))
        {
          assert teams[..n][i] == teams[i];
        }
      }
    }
  }

  /**
   * When team i's fetch is the first that returns no list, the table is what
   * that fetch makes it: its exception, or None with every earlier row
   * discarded.
   */
  lemma MembershipRowsFirstUnfetched(teams: seq<Team>, membershipsOf: int -> Outcome<Option<seq<Membership>>>, i: nat)
    requires i < |teams| && !Fetched(membershipsOf(teams[i].id))
    requires forall j :: 0 <= j < i ==> Fetched(membershipsOf(teams[j].id))
    ensures MembershipRows(teams, membershipsOf) == Unfetched(membershipsOf(teams[i].id))
  {
    var prefix := teams[..i];
    forall j | 0 <= j < i
      ensures Fetched(membershipsOf(prefix[j].id))
    {
      assert prefix[j] == teams[j];
    }
    MembershipRowsFetched(prefix, membershipsOf);
    assert teams[..i + 1][..i] == prefix;
    MembershipRowsStops(teams, i + 1, membershipsOf);
  }

  /** The membership table has one row per membership of every team. */
  lemma {:induction false} MembershipRowsCount(teams: seq<Team>, membershipsOf: int -> Outcome<Option<seq<Membership>>>)
    requires Fetched(MembershipRows(teams, membershipsOf))
    ensures |MembershipRows(teams, membershipsOf).value.value| == TotalMemberships(teams, membershipsOf)
    decreases |teams|
  {
    if teams != [] {
      MembershipRowsCount(teams[..|teams| - 1], membershipsOf);
    }
  }

  /** The number of memberships over all teams whose fetch returned a list. */
  function TotalMemberships(teams: seq<Team>, membershipsOf: int -> Outcome<Option<seq<Membership>>>): nat {
    if teams == [] then 0
    else
      var n := |teams| - 1;
      TotalMemberships(teams[..n], membershipsOf) + match membershipsOf(teams[n].id) { case Done(Some(ms)) => |ms| case _ => 0 }
  }

  /**
   * An exception of `tempo.teams()` propagates, and a None from it gives two
   * None tables. Otherwise the tables are present together or absent
   * together; they are present exactly when every membership fetch returned
   * a list, and then the teams table has one row per team, in team order.
   */
  lemma TeamTablesAllOrNothing(teams: Outcome<Option<seq<Team>>>, membershipsOf: int -> Outcome<Option<seq<Membership>>>)
    ensures teams.Raised? ==> TeamTables(teams, membershipsOf) == Raised(teams.error)
    ensures teams == Done(None) ==> TeamTables(teams, membershipsOf) == Done(Tables(None, None))
    ensures var r := TeamTables(teams, membershipsOf);
      r.Done? ==> (r.value.teams.None? <==> r.value.teamMembership.None?)
    ensures Fetched(teams) ==>
      var r := TeamTables(teams, membershipsOf);
      && (r.Done? && r.value.teams.Some? <==> forall i :: 0 <= i < |teams.value.value| ==> Fetched(membershipsOf(teams.value.value[i].id)))
      && (r.Done? && r.value.teams.Some? ==> r.value.teams.value == TeamRows(teams.value.value))
  {
    if Fetched(teams) {
      MembershipRowsFetched(teams.value.value, membershipsOf);
    }
  }
}
