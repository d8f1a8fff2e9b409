/**
 * The worklogs extractor (`worklogs.py`): every worklog updated since a
 * date, each flattened into a row of the worklogs table.
 */
module Worklogs {
  import opened Outcomes
  import opened Records
  import opened Rows
  import opened Transport
  import opened Paging
  import opened Dates
  import Tempo

  const ColId: string := "tempo_id"
  const ColIssueId: string := "issue_id"
  const ColAuthorAccountId: string := "author_account_id"
  const ColStartDateTimeUtc: string := "start_date_time_utc"
  const ColTimeSpentSeconds: string := "time_spent_seconds"
  const ColCreated: string := "created"
  const ColUpdated: string := "updated"

  /** `column_definitions()`, reduced to column names and primary-key flags. */
  function ColumnDefinitions(): map<string, ColumnDefinition> {
    map[
      ColId := ColumnDefinition(true),
      ColIssueId := ColumnDefinition(false),
      ColAuthorAccountId := ColumnDefinition(false),
      ColStartDateTimeUtc := ColumnDefinition(false),
      ColTimeSpentSeconds := ColumnDefinition(false),
      ColCreated := ColumnDefinition(false),
      ColUpdated := ColumnDefinition(false)
    ]
  }

  /** Seven columns, under the seven names above. */
  lemma WorklogColumns()
    ensures ColumnDefinitions().Keys
         == {ColId, ColIssueId, ColAuthorAccountId, ColStartDateTimeUtc, ColTimeSpentSeconds, ColCreated, ColUpdated}
    ensures |ColumnDefinitions().Keys| == 7
  {
  }

  /** `tempo_id` alone is the primary key. */
  lemma WorklogPrimaryKey()
    ensures PrimaryKey(ColumnDefinitions()) == {ColId}
  {
  }

  /** `run.map_worklog_to_table(original_wl)`: a row with exactly the columns of the table. */
  function MapWorklogToTable(worklog: Worklog): (row: Row)
    ensures row.Keys == ColumnDefinitions().Keys
  {
    map[
      ColId := IntV(worklog.tempoWorklogId),
      ColIssueId := IntV(worklog.issueId),
      ColAuthorAccountId := StrV(worklog.authorAccountId),
      ColTimeSpentSeconds := IntV(worklog.timeSpentSeconds),
      ColStartDateTimeUtc := StrV(worklog.startDateTimeUtc),
      ColCreated := StrV(worklog.createdAt),
      ColUpdated := StrV(worklog.updatedAt)
    ]
  }

  /** Reads a worklog back from a row of the table. */
  function WorklogFromRow(row: Row): Option<Worklog> {
    if && ColId in row && row[ColId].IntV?
       && ColIssueId in row && row[ColIssueId].IntV?
       && ColAuthorAccountId in row && row[ColAuthorAccountId].StrV?
       && ColTimeSpentSeconds in row && row[ColTimeSpentSeconds].IntV?
       && ColStartDateTimeUtc in row && row[ColStartDateTimeUtc].StrV?
       && ColCreated in row && row[ColCreated].StrV?
       && ColUpdated in row && row[ColUpdated].StrV?
    then Some(Worklog(row[ColId].i, row[ColIssueId].i, row[ColAuthorAccountId].s, row[ColTimeSpentSeconds].i,
                      row[ColStartDateTimeUtc].s, row[ColCreated].s, row[ColUpdated].s))
    else None
  }

  /** Every field of the row is its source field, unchanged: the worklog can be read back. */
  lemma WorklogRowRoundTrip(worklog: Worklog)
    ensures WorklogFromRow(MapWorklogToTable(worklog)) == Some(worklog)
  {
  }

  /** `run(since)`: the worklogs updated from `str(since.date())`, as rows. */
  method Run(since: DateTime, replies: seq<Request -> Reply<Page<Worklog>>>) returns (r: Outcome<seq<Row>>)
    requires ValidDateTime(since)
    ensures r == CollectMap(Walk(Tempo.WorklogsRequest(IsoDate(since)), replies, 0), MapWorklogToTable)
  {
    r := Tempo.WorklogsUpdatedFrom(IsoDate(since), MapWorklogToTable, replies);
  }

  /**
   * The fetch is sent with the date of `since` and nothing of its time, and
   * a finished fetch yields one row per worklog on its pages, in page order.
   */
  lemma RunRows(since: DateTime, replies: seq<Request -> Reply<Page<Worklog>>>, pages: seq<Page<Worklog>>)
    requires ValidDateTime(since)
    requires Walk(Tempo.WorklogsRequest(IsoDate(since)), replies, 0) == Done(pages)
    ensures var rows := CollectMap(Walk(Tempo.WorklogsRequest(IsoDate(since)), replies, 0), MapWorklogToTable);
      && rows.Done?
      && |rows.value| == |Flatten(pages)| == Count(pages)
      && forall i :: 0 <= i < |Flatten(pages)| ==> WorklogFromRow(rows.value[i]) == Some(Flatten(pages)[i])
    ensures ParseIsoDate(Tempo.WorklogsRequest(IsoDate(since)).payload.updatedFrom) == (since.year, since.month, since.day)
  {
    FlatMapIsMap(pages, MapWorklogToTable);
    FlattenCount(pages);
    forall i | 0 <= i < |Flatten(pages)|
      ensures WorklogFromRow(MapAll(Flatten(pages), MapWorklogToTable)[i]) == Some(Flatten(pages)[i])
    {
      WorklogRowRoundTrip(Flatten(pages)[i]);
    }
    IsoDateRoundTrip(since);
  }
}
