# Tempo extractor: paging, accumulation and row shaping

This project models the extractor that copies data out of Tempo (the
time-tracking add-on for Jira) and out of Jira itself into tables.

- **Cursor paging (`src/tempo.py`).** Each listing fetches a first page and then
  follows `metadata.next` until there is none. The listings are `teams`,
  `attribute_config`, `_worklogs_from_approval`, `worklogs_updated_from`,
  `tempo_to_jira_worklog_ids` and `jira_to_tempo_worklog_ids`.
  - `Paging.Walk` is the reference definition of the pages such a loop
    fetches.
  - Each listing is a Dafny method with its own `while` loop, proved to return
    what `Walk` fetches: flattened, mapped, or accumulated into a dict.
  - The dict keeps Python's insertion order (`IdDicts`). A key seen again
    overwrites its value and keeps its place.
  - `worklog_attributes`, `transform_data` and `team_timesheet_approvals` are
    loops that reshape records into rows. Only the first page of approvals is
    read, as the code does.
- **Watermark paging (`src/jirac.py`, `worklog_ids`).** Each request's `since`
  is the previous successful page's `until`. A failed continuation is sent
  again with the same `since`.
- **Drivers.**
  - `team_membership.run`, `worklogs.run`, `worklog_author.run` and the team
    selection in `approvals.run`.
  - Their rows are maps from column name to value, so that each row's key set
    can be compared with its table's column definitions.

The server is an oracle. A function that sends requests takes
`replies: seq<Request -> Reply<B>>`, and its k-th request `req` is answered by
`replies[k](req)`. The reply is either no response, or a status with a body
that may fail to decode.

Python exceptions are the `Raised` case of `Outcomes.Outcome`. These include:
- the `_checked_*` assertion on an empty endpoint;
- a missing response;
- a non-2xx status;
- invalid JSON;
- the `KeyError` for an APPROVED status without an actor.

`RepliesExhausted` stands for "the loop would send yet another request". It is
the only way the model bounds a loop the source does not bound.

The drivers take the client calls they make as inputs. Each input is an
`Outcome<Option<...>>` (or an `Outcome`): what the call returns, None
included, or the exception it raises. A raised exception propagates out of
the driver, as in Python.
- `team_membership.run` takes `teams` and `membershipsOf(id)`;
- `worklog_author.run` takes `worklogIds` (the type `Jira.WorklogIds`
  returns), `jiraToTempo(ids)` and `authorOf(id)`;
- `approvals.run` takes `teams` and `timesheetApprovals(call)`.

The drivers' inputs range over every outcome, so they cover both the client
as written and the client with the `params=` keyword corrected (see
Findings). As written, `tempo.teams()` always raises TypeError, so
`team_membership.run` and `approvals.run` raise it too. In the same way,
`worklogs.run` raises it through `worklogs_updated_from`. `Worklogs.Run` calls
the corrected `Tempo.WorklogsUpdatedFrom`, so it describes the corrected
client.

## Differences between the code and its documentation

The model follows the code in each of these.

- **`_parse_next` (src/tempo.py:271-275).** It returns None when `next` is
  absent, and also when `next` is JSON `null`. It strips `len(_base_url)`
  characters without looking at them. A URL shorter than that becomes `""`,
  and `_checked_*` then refuses the empty endpoint.
- **`team_timesheet_approvals` never drops an approval (src/tempo.py:207-215).**
  `_worklogs_from_approval` and `tempo_to_jira_worklog_ids` raise on failure
  and never return None. So the `continue` guards are unreachable, and an
  approval is never skipped. A failure instead ends the whole call with the
  exception (`Tempo.ShapeApprovalsIff`).
- **Dead `None` guards in the drivers.** `tempo.teams()` and
  `tempo.jira_to_tempo_worklog_ids` never return None either: they return a
  list or a dict, or raise. The drivers' `is None` guards are still modelled,
  because each driver input may be None, a value or an exception.
- **`jira_to_tempo_worklog_ids` (src/tempo.py:48-72).** It is keyed by tempo
  worklog id, with the jira id as value, as its `returns` comment says and
  unlike its first docstring line. It therefore builds the same dict as
  `tempo_to_jira_worklog_ids`; only the request differs.
- **`approvals.run` (src/approvals.py:51-64).** It makes one
  `team_timesheet_approvals` call, discards the answer and returns None.
  `Approvals.Run` returns the call it makes and that None.

## Model

| member | source | states |
|---|---|---|
| Transport.Strip | src/tempo.py:274 | `next[len(_base_url):]`: an over-short URL gives `""`; otherwise the URL is its first `len(_base_url)` characters followed by the result |
| Transport.StripIgnoresHost | src/tempo.py:274 | whatever the first `len(_base_url)` characters are, they are dropped and the rest is kept: the prefix is not checked |
| Transport.ParseNext | src/tempo.py:271-275 | None exactly when `metadata` has no URL under `next`; otherwise the stripped URL |
| Transport.ParseNextRoundTrip | src/tempo.py:271-275 | a `next` of `_base_url + path` parses to `path`, the endpoint `_raw_get` appends to `_base_url` again |
| Transport.CheckedCall | src/tempo.py:305-316 | a call returns data only when the endpoint is non-empty and there is a reply |
| Transport.CheckedCallCases | src/tempo.py:334-345 | the call returns the decoded body exactly for a non-empty endpoint with a 2xx reply carrying JSON; otherwise it raises on an empty endpoint, no response, a status outside [200, 300), or invalid JSON |
| Transport.CheckedGetWithKeyword | src/tempo.py:290 | `_checked_get` called with a keyword other than its parameters raises TypeError; with `data=` it is the checked call |
| Transport.ParamsKeywordRaises | src/tempo.py:96 | `_checked_get(..., params=...)` raises TypeError, and the outcome does not depend on the server at all |
| Paging.WalkIff | src/tempo.py:96-103 | a cursor loop ends with `pages` exactly when request i is answered by page i, every page but the last has a parsed `next`, the last has none, and each further request is the first one with the cursor as endpoint and the same payload |
| Paging.FlattenAppend | src/tempo.py:97-101 | results accumulate in page order: the results of earlier pages come first |
| Paging.CountAppend | src/tempo.py:97-101 | the number of results accumulated is the sum of the pages' counts |
| Paging.FlatMapIsMap | src/tempo.py:249-261 | mapping each page's items while accumulating is mapping the concatenated results, one mapped item per result |
| Paging.CollectMapIdentity | src/tempo.py:250-252 | without `modify_result` the items pass through unchanged |
| Tempo.Teams | src/tempo.py:83-103 | with the `params=` call corrected, `teams()` returns the teams of every page in page order, or the first exception a call raises |
| Tempo.ConfigRowFields | src/tempo.py:118-123 | a row copies key, name and type; `attribute_values` is `json.dumps(values)` when `values` is present and `""` exactly when it is absent |
| Tempo.TransformData | src/tempo.py:115-124 | `transform_data` emits one row per result item, in order |
| Tempo.AttributeConfig | src/tempo.py:106-133 | `attribute_config()` returns the transformed rows of every page, in page order |
| Tempo.WorklogRows | src/tempo.py:157-163 | one worklog gives one row per attribute value, tagged with the worklog's id |
| Tempo.WorklogAttributes | src/tempo.py:136-164 | more than 500 ids give None without a request; otherwise the rows of the single answer, worklog by worklog, or the exception the call raises |
| Tempo.AttributeValueRowsCount | src/tempo.py:156-163 | the number of rows is the sum of the attribute-list lengths |
| Tempo.AttributeValueRowsAt | src/tempo.py:156-163 | nested order: attribute j of worklog i is at the offset of the values before worklog i plus j, with worklog i's id and the attribute's key and value |
| Tempo.WorklogsFromApproval | src/tempo.py:223-236 | an approval's worklogs are the results of every page of the walk that starts at the stripped `worklogs.self` |
| Tempo.AppendMapped | src/tempo.py:249-253 | the loop over one page appends every item, mapped, after what was there |
| Tempo.WorklogsUpdatedFrom | src/tempo.py:239-263 | with the `params=` call corrected, `worklogs_updated_from` returns every item of every page, each mapped, in page order, with the query re-sent on each page |
| Tempo.AddPairs | src/tempo.py:37-38 | adding a page's pairs to the dict is setting `tempoWorklogId → jiraWorklogId` for each pair in turn |
| Tempo.TempoToJiraWorklogIds | src/tempo.py:21-45 | the dict of every pair of every page, in page order, with the same body re-sent on every page |
| Tempo.JiraToTempoWorklogIds | src/tempo.py:48-72 | the same accumulation keyed by tempo id, for the jira-to-tempo request |
| Tempo.MappingContents | src/tempo.py:37-43 | the keys of the finished dict are the tempo ids on the pages; a pair not followed by another with the same tempo id gives its key's value; there are at most as many keys as pairs |
| Tempo.CollectTempoIds | src/tempo.py:210-211 | the approval's tempo ids are its worklogs' ids, in fetch order |
| Tempo.ShapeApprovalFields | src/tempo.py:193-218 | period, status key, user and reviewer are copied; `approved_by` is the actor exactly for APPROVED (KeyError without one) and `""` otherwise; `worklogs` is `[]` unless loaded, else the loaded ids |
| Tempo.ShapeOne | src/tempo.py:194-219 | the loop body for one approval builds the record `ShapeApproval` specifies, or raises what it raises |
| Tempo.ShapeApprovalsIff | src/tempo.py:193-220 | the call yields `outs` exactly when there is one record per approval, in order, each shaped from its own approval; the first exception ends it |
| Tempo.ShapeAll | src/tempo.py:193-220 | the loop over the page's approvals yields what `ShapeApprovals` specifies: the records in order, or the first exception |
| Tempo.TeamTimesheetApprovals | src/tempo.py:167-220 | with the `params=` call corrected, `team_timesheet_approvals` sends one request and shapes every approval of that first page, or raises |
| Tempo.MappedValuesDistinct | src/tempo.py:212-216 | with `worklog_source`, when the mapping pages carry each tempo id once, `worklogs` is the jira ids of the pairs in page order |
| Tempo.ParamsKeywordCounterexample | src/tempo.py:96-100 | against a server that answers with one final empty page, the `params=` calls raise while the corrected calls return `[]` |
| IdDicts.Set | src/tempo.py:38 | assignment sets the key's value; an existing key keeps its place, a new key goes last |
| IdDicts.Values | src/tempo.py:216 | `.values()` gives the values in key insertion order |
| IdDicts.Items | src/worklog_author.py:60 | `.items()` gives the (key, value) pairs in insertion order |
| IdDicts.ExtendAppend | src/tempo.py:40-44 | accumulating a further page continues from the dict built so far |
| IdDicts.ExtendKeys | src/tempo.py:37-38 | a key is in the dict exactly when it was there before or some pair carries it |
| IdDicts.ExtendLastWins | src/tempo.py:42-43 | a key repeated later overwrites the earlier value: the last pair with a key gives its value |
| IdDicts.ExtendKeepsOthers | src/tempo.py:42-43 | keys no pair carries keep their values |
| IdDicts.ExtendSize | src/tempo.py:32-45 | the dict grows by at most one key per pair and keeps the order of the keys it had |
| IdDicts.ExtendDistinctOrder | src/tempo.py:37-43 | with distinct tempo ids every pair adds a new key, so the keys are the tempo ids in pair order |
| IdDicts.ExtendDistinct | src/tempo.py:216 | with distinct tempo ids the keys, items and values are the pairs' in order |
| Decimal.ParseShowNat | src/tempo.py:192 | `str(n)` of a non-negative int parses back to n |
| Tempo.ApprovalsEndpointId | src/tempo.py:192 | a non-negative team id written into the approvals endpoint reads back as that id, after the fixed `/timesheet-approvals/team/` prefix |
| Dates.IsoDate | src/worklogs.py:81 | `str(since.date())` is `yyyy-mm-dd`: ten characters, dashes at 4 and 7, digits elsewhere |
| Dates.IsoDateRoundTrip | src/worklogs.py:81 | the date string parses back to the year, month and day of `since` |
| Dates.IsoDateOnlyDate | src/worklogs.py:81 | two times give the same string exactly when they fall on the same date |
| Jira.PageIds | src/jirac.py:63 | the ids of a page are the `worklogId` of each of its values, in order |
| Jira.StopsWithoutWatermark | src/jirac.py:64-65 | with `until` None, only `lastPage` stops the loop |
| Jira.WorklogIds | src/jirac.py:46-77 | `worklog_ids` returns what `UpdatedWorklogIds` specifies: None for a failed first answer, else the ids of every successful page |
| Jira.FirstSuccess | src/jirac.py:66-72 | the first 2xx answer from a given request on, with every earlier one failing, or none |
| Jira.ContinueSkipsFailures | src/jirac.py:66-76 | a failed continuation adds nothing and re-sends the same `since`; the first 2xx answer is the next page and its `until` is the next `since` |
| Jira.UpdatedWorklogIdsNone | src/jirac.py:59-61 | the result is None exactly when the first answer is not 2xx |
| Jira.UpdatedWorklogIdsSinglePage | src/jirac.py:62-65 | a first page that stops the loop is the whole answer, its ids in order |
| TeamMembership.PrimaryKeys | src/team_membership.py:20-55 | two tables; the membership key is (`team_id`, `account_id`), the teams key is `id` alone |
| TeamMembership.TransformTeam | src/team_membership.py:79-84 | a team row has exactly the teams table's columns |
| TeamMembership.TeamRowRoundTrip | src/team_membership.py:79-84 | `id`, `name` and `lead.accountId` are copied unchanged |
| TeamMembership.TransformTeamMembership | src/team_membership.py:87-91 | a membership row has exactly the membership table's columns |
| TeamMembership.MembershipRowRoundTrip | src/team_membership.py:87-91 | `team.id` and `member.accountId` are copied unchanged |
| TeamMembership.TeamRows | src/team_membership.py:65-66 | one row per team, in team order |
| TeamMembership.MembershipTableRows | src/team_membership.py:71-72 | one row per membership of a team, in order |
| TeamMembership.Run | src/team_membership.py:58-76 | `run()` returns what `TeamTables` specifies, for whatever the two client calls return or raise |
| TeamMembership.MembershipRowsStops | src/team_membership.py:66-70 | once a team's fetch returns None or raises, later teams change nothing: the table stays None or that exception |
| TeamMembership.MembershipRowsFetched | src/team_membership.py:65-72 | the membership table is a list exactly when every team's membership fetch returned a list |
| TeamMembership.MembershipRowsFirstUnfetched | src/team_membership.py:68-70 | when team i's fetch is the first not to return a list, the table is None (earlier rows discarded) if it returned None, and its exception if it raised |
| TeamMembership.MembershipRowsCount | src/team_membership.py:71-72 | the membership table has one row per membership of every team |
| TeamMembership.TeamTablesAllOrNothing | src/team_membership.py:58-76 | an exception of `tempo.teams()` propagates (as written, its TypeError); its None gives two None tables; otherwise both tables or neither, both exactly when every membership fetch returned a list, and then one team row per team in order |
| Worklogs.WorklogColumns | src/worklogs.py:19-63 | exactly seven columns, under the seven names the rows use |
| Worklogs.WorklogPrimaryKey | src/worklogs.py:21-26 | `tempo_id` alone is the primary key |
| Worklogs.MapWorklogToTable | src/worklogs.py:70-79 | a worklog row has exactly the columns of the table |
| Worklogs.WorklogRowRoundTrip | src/worklogs.py:71-78 | every field is copied unchanged from its source field |
| Worklogs.Run | src/worklogs.py:66-83 | with the `params=` call corrected, `run(since)` returns the mapped worklogs of every page fetched with the date of `since` |
| Worklogs.RunRows | src/worklogs.py:81 | with the `params=` call corrected, one row per upstream worklog in page order, each reading back as its worklog, and the date sent parses back to `since`'s date |
| WorklogAuthor.AuthorPrimaryKey | src/worklog_author.py:15-29 | `jira_worklog_id` alone is the primary key |
| WorklogAuthor.AuthorRow | src/worklog_author.py:65-68 | a row has exactly the table's columns and holds the jira id and the author |
| WorklogAuthor.Run | src/worklog_author.py:32-71 | `run` returns what `AuthorTable` specifies, for whatever the client calls return or raise |
| WorklogAuthor.AuthorTableCases | src/worklog_author.py:47-69 | None exactly when the jira id fetch, or else the mapping, returns None; an exception exactly when the jira fetch, the mapping or some author lookup raises first |
| WorklogAuthor.AuthorRowsRaisedPersists | src/worklog_author.py:61-62 | an author lookup that raises ends the loop with its exception |
| WorklogAuthor.AuthorRowsDone | src/worklog_author.py:61-69 | the rows are produced exactly when no author lookup raises |
| WorklogAuthor.AuthorRowsAppend | src/worklog_author.py:60-69 | rows follow the mapping's iteration order |
| WorklogAuthor.AuthorRowsBound | src/worklog_author.py:60-69 | at most one row per mapping entry |
| WorklogAuthor.AuthorRowsSound | src/worklog_author.py:60-68 | every row pairs an entry's value (jira id) with the author found for its key (tempo id) |
| WorklogAuthor.AuthorRowsComplete | src/worklog_author.py:60-69 | every entry whose author is found has its row; only entries with no author are skipped |
| Approvals.ApprovalColumns | src/approvals.py:16-48 | five columns, and `id` alone is the primary key |
| Approvals.Run | src/approvals.py:51-64 | `run` makes the call `SelectedCall` specifies and returns what `RunResult` specifies |
| Approvals.RunResultCases | src/approvals.py:51-64 | `run` never returns rows: it returns None, or raises exactly when `tempo.teams()` raises (as written, its TypeError) or the approvals call it makes raises |
| Approvals.LastNamedIff | src/approvals.py:56-59 | the selected id is that of the last team with the name, since the loop has no break; there is none exactly when no team has the name |
| Approvals.SelectedCallCases | src/approvals.py:53-64 | no call when `teams()` raises, returns None, or no team has the name; otherwise one call, for the last such team, with `since`'s `yyyy-mm-dd` date |

## Left out

- The HTTP session and its authorization headers are not modelled: `init`, `_raw_get`, `_raw_post` and the `raw_*_jira` functions. Their answers are the `replies` oracle.
- The `ThreadPoolExecutor` in src/jirac.py is not modelled. It is never used.
- JSON decoding is not modelled: pages are given as decoded records. `json.dumps(values)` is the parameter `dumps`. A Jira answer whose body is not JSON (`resp.json()` raising) is not modelled.
- A `KeyError` from a record without an expected field is not modelled: records are typed. The exception is an APPROVED status without an actor, which the model raises.
- `tempo.team_membership(team_id)` and `tempo.worklog_author(worklog_id)` are single checked GETs. They are not modelled separately; the drivers take what they return or raise as inputs (`membershipsOf`, `authorOf`).
- `_MAX_ITER_COUNT` is defined but never used, so it is not modelled.
- Jira.WorklogIds: if the server never answers a continuation with 2xx, the source loops forever. The model instead raises `RepliesExhausted` when the replies run out.
- Tempo.WorklogsUpdatedFrom: always takes a mapper. A `modify_result` of None is the identity mapper (`Paging.CollectMapIdentity`).
- Dates.IsoDate: `since` is a date-time with fields in range. Day-of-month validity (such as 30 February) is left to Python's `datetime`.
- Tempo.ApprovalsEndpointId: stated for non-negative team ids only. A negative id is rendered with its minus sign, as `str` does, but the digit parser does not read signs back.
- Approvals.Run: the answer of `team_timesheet_approvals` is discarded by the source, so the model returns the call and whether it raised rather than its answer.
- `ColumnDefinition` data types, nullability and descriptions are not modelled. Only key sets and primary-key flags are kept.
- Logging is not modelled.
- src/component.py (orchestration and CSV output), src/configuration.py and src/exceptions.py are not part of this model.

## Findings

| source | as written | input that shows it | evidently intended | confidence | as-written member | corrected member |
|---|---|---|---|---|---|---|
| src/tempo.py:96-100 | `teams()` calls `_checked_get("/teams", params=req)`, but `_checked_get(endpoint, data=None)` has no `params` parameter, so Python raises TypeError before any request | any call of `teams()`, hence of `team_membership.run` and `approvals.run`, e.g. a server answering one final empty page | the query `{offset: 0, limit: 50}` sent with every page request, and the teams of every page returned | high, not executed | Tempo.ParamsKeywordCounterexample | Tempo.Teams |
| src/tempo.py:192 | `team_timesheet_approvals` calls `_checked_get(..., params=req)`: TypeError on every call | any team id and date, e.g. a server answering one final empty page | the query `{from: date_from}` sent, and the approvals of the page shaped | high, not executed | Tempo.ParamsKeywordCounterexample | Tempo.TeamTimesheetApprovals |
| src/tempo.py:248-256 | `worklogs_updated_from` calls `_checked_get(..., params=req)` on its first and later pages: TypeError on every call | any `since`, hence any call of `worklogs.run`, e.g. a server answering one final empty page | the query `{updatedFrom: since, limit: 5000}` sent with every page request, and every item mapped | high, not executed | Tempo.ParamsKeywordCounterexample | Tempo.WorklogsUpdatedFrom |
