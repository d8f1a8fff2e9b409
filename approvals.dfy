/**
 * The approvals extractor (`approvals.py`): it picks the id of the team named
 * "A830_04 IT Resource Pool" and asks for that team's timesheet approvals
 * from the date of `since`. The two client calls are inputs: what
 * `tempo.teams()` returns or raises is `teams`, and what the approvals call
 * returns or raises is `timesheetApprovals(call)`, for the call described by
 * `ApprovalsCall`. Its answer is discarded, and `run` returns None unless one
 * of the calls raises.
 */
module Approvals {
  import opened Outcomes
  import opened Records
  import opened Rows
  import opened Dates
  import Tempo

  const ColId: string := "id"
  const ColFrom: string := "from"
  const ColTo: string := "to"
  const ColUser: string := "account_id"
  const ColStatus: string := "status"

  /** The name of the team whose approvals are extracted. */
  const ItrpTeamName: string := "A830_04 IT Resource Pool"

  /** `column_definitions()`, reduced to column names and primary-key flags. */
  function ColumnDefinitions(): map<string, ColumnDefinition> {
    map[
      ColId := ColumnDefinition(true),
      ColFrom := ColumnDefinition(false),
      ColTo := ColumnDefinition(false),
      ColUser := ColumnDefinition(false),
      ColStatus := ColumnDefinition(false)
    ]
  }

  /** Five columns, and `id` alone is the primary key. */
  lemma ApprovalColumns()
    ensures |ColumnDefinitions().Keys| == 5
    ensures PrimaryKey(ColumnDefinitions()) == {ColId}
  {
  }

  /** `team_timesheet_approvals(team_id, date_from)`, the one call `run` makes. */
  datatype ApprovalsCall = ApprovalsCall(teamId: int, dateFrom: string)

  /** The id of the last team called `name`, or None when no team has that name. */
  function LastNamed(teams: seq<Team>, name: string): Option<int> {
    if teams == [] then None
    else
      var n := |teams| - 1;
      if teams[n].name == name then Some(teams[n].id) else LastNamed(teams[..n], name)
  }

  /** Team i is called `name` and no later team is. */
  predicate IsLastNamed(teams: seq<Team>, name: string, i: int) {
    && 0 <= i < |teams|
    && teams[i].name == name
    && forall j :: i < j < |teams| ==> teams[j].name != name
  }

  /**
   * The call `run(since)` makes, if any: the selected team, from the date of
   * `since`. There is none when `tempo.teams()` raises or returns None.
   */
  function SelectedCall(since: DateTime, teams: Outcome<Option<seq<Team>>>): Option<ApprovalsCall>
    requires ValidDateTime(since)
  {
    match teams
    case Raised(_) => None
    case Done(None) => None
    case Done(Some(ts)) =>
      match LastNamed(ts, ItrpTeamName)
      case None => None
      case Some(id) => Some(ApprovalsCall(id, IsoDate(since)))
  }

  /**
   * What `run(since)` returns: the exception of `tempo.teams()` or of the
   * approvals call, and None otherwise; the approvals are discarded.
   */
  function RunResult(since: DateTime, teams: Outcome<Option<seq<Team>>>,
                     timesheetApprovals: ApprovalsCall -> Outcome<seq<Tempo.ApprovalOut>>): Outcome<Option<seq<Row>>>
    requires ValidDateTime(since)
  {
    match teams
    case Raised(e) => Raised(e)
    case Done(_) =>
      match SelectedCall(since, teams)
      case None => Done(None)
      case Some(call) =>
        match timesheetApprovals(call)
        case Raised(e) => Raised(e)
        case Done(_) => Done(None)
  }

  /**
   * `run(since)`: the loop that overwrites the selected id on every match,
   * the call it then makes, and the result. `teams` is what `tempo.teams()`
   * returns or raises, and `timesheetApprovals(call)` what
   * `tempo.team_timesheet_approvals` returns or raises for `call`.
   */
  method Run(since: DateTime, teams: Outcome<Option<seq<Team>>>,
             timesheetApprovals: ApprovalsCall -> Outcome<seq<Tempo.ApprovalOut>>)
    returns (call: Option<ApprovalsCall>, r: Outcome<Option<seq<Row>>>)
    requires ValidDateTime(since)
    ensures call == SelectedCall(since, teams)
    ensures r == RunResult(since, teams, timesheetApprovals)
  {
    if teams.Raised? {
      return None, Raised(teams.error);
    }
    if teams.value.None? {
      return None, Done(None);
    }
    var allTeams := teams.value.value;
    var itrpTeamId: Option<int> := None;
    var i := 0;
    while i < |allTeams|
      invariant i <= |allTeams|
      invariant itrpTeamId == LastNamed(allTeams[..i], ItrpTeamName)
    {
      assert allTeams[..i + 1][..i] == allTeams[..i];
      if allTeams[i].name == ItrpTeamName {
        itrpTeamId := Some(allTeams[i].id);
      }
      i := i + 1;
    }
    assert allTeams[..i] == allTeams;
    if itrpTeamId.None? {
      return None, Done(None);
    }
    call := Some(ApprovalsCall(itrpTeamId.value, IsoDate(since)));
    var periodApprovals := timesheetApprovals(call.value);
    if periodApprovals.Raised? {
      return call, Raised(periodApprovals.error);
    }
    r := Done(None);
  }

  /**
   * `run` never returns rows: it returns None unless `tempo.teams()` or the
   * approvals call it makes raises, and then it raises that exception.
   */
  lemma RunResultCases(since: DateTime, teams: Outcome<Option<seq<Team>>>,
                       timesheetApprovals: ApprovalsCall -> Outcome<seq<Tempo.ApprovalOut>>)
    requires ValidDateTime(since)
    ensures !Fetched(RunResult(since, teams, timesheetApprovals))
    ensures RunResult(since, teams, timesheetApprovals).Raised? <==>
      teams.Raised? || (SelectedCall(since, teams).Some? && timesheetApprovals(SelectedCall(since, teams).value).Raised?)
    ensures teams.Raised? ==> RunResult(since, teams, timesheetApprovals) == Raised(teams.error)
  {
  }

  /**
   * The selected id belongs to the last team with the name, since the loop
   * has no break; there is none exactly when no team has the name.
   */
  lemma {:induction false} LastNamedIff(teams: seq<Team>, name: string, id: int)
    ensures LastNamed(teams, name) == Some(id) <==> exists i :: IsLastNamed(teams, name, i) && teams[i].id == id
    ensures LastNamed(teams, name).None? <==> forall i :: 0 <= i < |teams| ==> teams[i].name != name
    decreases |teams|
  {
    if teams != [] {
      var n := |teams| - 1;
      LastNamedIff(teams[..n], name, id);
      if teams[n].name == name {
        assert IsLastNamed(teams, name, n);
        forall i | IsLastNamed(teams, name, i)
          ensures i == n
        {
        }
      } else {
        forall i | 0 <= i < n
          ensures IsLastNamed(teams[..n], name, i) <==> IsLastNamed(teams, name, i)
        {
          assert teams[..n][i] == teams[i];
          if IsLastNamed(teams[..n], name, i) {
            forall j | i < j < |teams|
              ensures teams[j].name != name
            {
              if j < n {
                assert teams[..n][j] == teams[j];
              }
            }
          }
          if IsLastNamed(teams, name, i) {
            forall j | i < j < n
              ensures teams[..n][j].name != name
            {
              assert teams[..n][j] == teams[j];
            }
          }
        }
        if LastNamed(teams, name).None? {
          forall i | 0 <= i < |teams|
            ensures teams[i].name != name
          {
            if i < n {
              assert teams[..n][i] == teams[i];
            }
          }
        }
        if forall i :: 0 <= i < |teams| ==> teams[i].name != name {
          forall i | 0 <= i < n
            ensures teams[..n][i].name != name
          {
            assert teams[..n][i] == teams[i];
          }
        }
      }
    }
  }

  /**
   * `run` makes no call when `tempo.teams()` is None or no team has the name;
   * otherwise it makes exactly one, for the last team with the name, with the
   * `yyyy-mm-dd` date of `since`.
   */
  lemma SelectedCallCases(since: DateTime, teams: Outcome<Option<seq<Team>>>)
    requires ValidDateTime(since)
    ensures !Fetched(teams) ==> SelectedCall(since, teams).None?
    ensures Fetched(teams) ==>
      (SelectedCall(since, teams).None? <==> forall i :: 0 <= i < |teams.value.value| ==> teams.value.value[i].name != ItrpTeamName)
    ensures SelectedCall(since, teams).Some? ==>
      && Fetched(teams)
      && (exists i :: IsLastNamed(teams.value.value, ItrpTeamName, i) && teams.value.value[i].id == SelectedCall(since, teams).value.teamId)
      && ParseIsoDate(SelectedCall(since, teams).value.dateFrom) == (since.year, since.month, since.day)
  {
    if Fetched(teams) {
      var id := LastNamed(teams.value.value, ItrpTeamName);
      LastNamedIff(teams.value.value, ItrpTeamName, if id.Some? then id.value else 0);
      IsoDateRoundTrip(since);
    }
  }
}
