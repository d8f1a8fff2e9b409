/**
 * The Tempo client (`tempo.py`): the cursor-paged listings, the two worklog
 * id mappers, the attribute searches and the timesheet approvals. Every
 * listing is a loop that sends a first request, then follows the parsed
 * `next` cursor; each is proved to return what `Paging.Walk` says the loop
 * fetches.
 */
module Tempo {
  import opened Outcomes
  import opened Records
  import opened Transport
  import opened Paging
  import opened IdDicts
  import Decimal

  // ---------------------------------------------------------------- teams

  /** The first request of `teams()`: GET /teams with offset 0 and limit 50. */
  const TeamsRequest: Request := Request(Get, "/teams", OffsetLimit(0, 50))

  /** `teams()`: the teams of every page, in page order. */
  method Teams(replies: seq<Request -> Reply<Page<Team>>>) returns (r: Outcome<seq<Team>>)
    ensures r == Collect(Walk(TeamsRequest, replies, 0))
  {
    var first := TeamsRequest;
    var call := CheckedCall(first, replies, 0);
    if call.Raised? {
      return Raised(call.error);
    }
    var data := call.value;
    var teams := data.results;
    var next := ParseNext(data.metadata);
    var k := 1;
    ghost var pages := [data];
    WalkingStart(first, replies, data);
    while next.Some?
      invariant Walking(first, replies, pages, next, k)
      invariant teams == Flatten(pages)
      decreases |replies| - k
    {
      call := CheckedCall(Follow(first, next.value), replies, k);
      if call.Raised? {
        WalkingRaised(first, replies, pages, next, k, call.error);
        return Raised(call.error);
      }
      data := call.value;
      WalkingAdvance(first, replies, pages, next, k, data);
      FlattenSnoc(pages, data);
      teams := teams + data.results;
      pages := pages + [data];
      next := ParseNext(data.metadata);
      k := k + 1;
    }
    WalkingFinished(first, replies, pages, next, k);
    return Done(teams);
  }

  // ------------------------------------------------------ attribute_config

  /** One row of `attribute_config()`. */
  datatype AttributeConfigRow = AttributeConfigRow(attributeKey: string, attributeName: string, attributeType: string, attributeValues: string)

  const AttributeConfigRequest: Request := Request(Get, "/work-attributes", NoPayload)

  /**
   * The row `transform_data` builds from one configuration item: `values`,
   * when present, as rendered by `dumps` (`json.dumps`), and `""` otherwise.
   */
  function ConfigRow<V>(dumps: V -> string, item: AttributeConfigItem<V>): AttributeConfigRow {
    AttributeConfigRow(item.key, item.name, item.attrType,
      match item.values
      case Some(v) => dumps(v)
      case None => "")
  }

  /** `ConfigRow` with the renderer fixed, as a value to map over pages. */
  function ConfigRowOf<V>(dumps: V -> string): AttributeConfigItem<V> -> AttributeConfigRow {
    item => ConfigRow(dumps, item)
  }

  /**
   * A row copies key, name and type; since a JSON rendering is never empty,
   * `attribute_values` is empty exactly when the item has no `values`.
   */
  lemma ConfigRowFields<V>(dumps: V -> string, item: AttributeConfigItem<V>)
    requires forall v :: dumps(v) != ""
    ensures var row := ConfigRow(dumps, item);
      && row.attributeKey == item.key && row.attributeName == item.name && row.attributeType == item.attrType
      && (row.attributeValues == "" <==> item.values.None?)
      && (item.values.Some? ==> row.attributeValues == dumps(item.values.value))
  {
  }

  /** `transform_data(data)`: one row per result item, in order. */
  method TransformData<V>(dumps: V -> string, items: seq<AttributeConfigItem<V>>) returns (rows: seq<AttributeConfigRow>)
    ensures rows == MapAll(items, ConfigRowOf(dumps))
  {
    rows := [];
    var i := 0;
    while i < |items|
      invariant i <= |items|
      invariant |rows| == i && forall j :: 0 <= j < i ==> rows[j] == ConfigRow(dumps, items[j])
    {
      rows := rows + [ConfigRow(dumps, items[i])];
      i := i + 1;
    }
  }

  /** `attribute_config()`: the transformed rows of every page, in page order. */
  method AttributeConfig<V>(dumps: V -> string, replies: seq<Request -> Reply<Page<AttributeConfigItem<V>>>>)
    returns (r: Outcome<seq<AttributeConfigRow>>)
    ensures r == CollectMap(Walk(AttributeConfigRequest, replies, 0), ConfigRowOf(dumps))
  {
    var first := AttributeConfigRequest;
    var call := CheckedCall(first, replies, 0);
    if call.Raised? {
      return Raised(call.error);
    }
    var data := call.value;
    var result := TransformData(dumps, data.results);
    var next := ParseNext(data.metadata);
    var k := 1;
    ghost var pages := [data];
    WalkingStart(first, replies, data);
    FlatMapSnoc([], data, ConfigRowOf(dumps));
    assert [] + [data] == [data];
    while next.Some?
      invariant Walking(first, replies, pages, next, k)
      invariant result == FlatMap(pages, ConfigRowOf(dumps))
      decreases |replies| - k
    {
      call := CheckedCall(Follow(first, next.value), replies, k);
      if call.Raised? {
        WalkingRaised(first, replies, pages, next, k, call.error);
        return Raised(call.error);
      }
      data := call.value;
      WalkingAdvance(first, replies, pages, next, k, data);
      FlatMapSnoc(pages, data, ConfigRowOf(dumps));
      var rows := TransformData(dumps, data.results);
      result := result + rows;
      pages := pages + [data];
      next := ParseNext(data.metadata);
      k := k + 1;
    }
    WalkingFinished(first, replies, pages, next, k);
    return Done(result);
  }

  // ---------------------------------------------------- worklog_attributes

  /** One row of `worklog_attributes()`. */
  datatype AttributeValueRow = AttributeValueRow(tempoWorklogId: int, attributeKey: string, attributeValue: string)

  /** More ids than this and `worklog_attributes` gives up. */
  const MaxAttributeSearchIds := 500

  function AttributeSearchRequest(ids: seq<int>): Request {
    Request(Post, "/worklogs/work-attribute-values/search", TempoWorklogIds(ids))
  }

  /** The rows of one worklog: one per attribute value, tagged with the worklog id. */
  function WorklogRows(item: WorklogAttributeValues): (rows: seq<AttributeValueRow>)
    ensures |rows| == |item.workAttributeValues|
    ensures forall j :: 0 <= j < |rows| ==>
      rows[j] == AttributeValueRow(item.tempoWorklogId, item.workAttributeValues[j].key, item.workAttributeValues[j].value)
  {
    seq(|item.workAttributeValues|, j requires 0 <= j < |item.workAttributeValues| =>
      AttributeValueRow(item.tempoWorklogId, item.workAttributeValues[j].key, item.workAttributeValues[j].value))
  }

  /** The rows of all worklogs, worklog by worklog. */
  function AttributeValueRows(items: seq<WorklogAttributeValues>): seq<AttributeValueRow> {
    if items == [] then [] else AttributeValueRows(items[..|items| - 1]) + WorklogRows(items[|items| - 1])
  }

  /** The number of attribute values over all worklogs. */
  function TotalAttributeValues(items: seq<WorklogAttributeValues>): nat {
    if items == [] then 0 else TotalAttributeValues(items[..|items| - 1]) + |items[|items| - 1].workAttributeValues|
  }

  /**
   * `worklog_attributes(worklogs)`: None, without a request, for more than 500
   * ids; otherwise one row per (worklog, attribute value) of the single answer.
   */
  method WorklogAttributes(ids: seq<int>, replies: seq<Request -> Reply<seq<WorklogAttributeValues>>>)
    returns (r: Outcome<Option<seq<AttributeValueRow>>>)
    ensures |ids| > MaxAttributeSearchIds ==> r == Done(None)
    ensures |ids| <= MaxAttributeSearchIds ==>
      r == match CheckedCall(AttributeSearchRequest(ids), replies, 0)
           case Raised(e) => Raised(e)
           case Done(items) => Done(Some(AttributeValueRows(items)))
  {
    if |ids| > MaxAttributeSearchIds {
      return Done(None);
    }
    var call := CheckedCall(AttributeSearchRequest(ids), replies, 0);
    if call.Raised? {
      return Raised(call.error);
    }
    var data := call.value;
    var result := [];
    var i := 0;
    while i < |data|
      invariant i <= |data|
      invariant result == AttributeValueRows(data[..i])
    {
      var worklogId := data[i].tempoWorklogId;
      var attributes := data[i].workAttributeValues;
      var j := 0;
      while j < |attributes|
        invariant j <= |attributes|
        invariant result == AttributeValueRows(data[..i]) + WorklogRows(data[i])[..j]
      {
        result := result + [AttributeValueRow(worklogId, attributes[j].key, attributes[j].value)];
        j := j + 1;
      }
      assert data[..i + 1][..i] == data[..i];
      i := i + 1;
    }
    assert data[..i] == data;
    return Done(Some(result));
  }

  /** The answer yields exactly as many rows as there are attribute values. */
  lemma {:induction false} AttributeValueRowsCount(items: seq<WorklogAttributeValues>)
    ensures |AttributeValueRows(items)| == TotalAttributeValues(items)
    decreases |items|
  {
    if items != [] {
      AttributeValueRowsCount(items[..|items| - 1]);
    }
  }

  /**
   * Nested order: attribute j of worklog i is row (values of worklogs before
   * i) + j, and it carries worklog i's id with that attribute's key and value.
   */
  lemma {:induction false} AttributeValueRowsAt(items: seq<WorklogAttributeValues>, i: nat, j: nat)
    requires i < |items| && j < |items[i].workAttributeValues|
    ensures TotalAttributeValues(items[..i]) + j < |AttributeValueRows(items)|
    ensures AttributeValueRows(items)[TotalAttributeValues(items[..i]) + j]
         == AttributeValueRow(items[i].tempoWorklogId, items[i].workAttributeValues[j].key, items[i].workAttributeValues[j].value)
    decreases |items|
  {
    var n := |items| - 1;
    var init := AttributeValueRows(items[..n]);
    var offset := TotalAttributeValues(items[..i]);
    assert AttributeValueRows(items) == init + WorklogRows(items[n]);
    AttributeValueRowsCount(items[..n]);
    if i < n {
      assert items[..n][..i] == items[..i];
      assert items[..n][i] == items[i];
      AttributeValueRowsAt(items[..n], i, j);
      assert AttributeValueRows(items)[offset + j] == init[offset + j];
    } else {
      assert items[..i] == items[..n];
      assert AttributeValueRows(items)[offset + j] == WorklogRows(items[n])[j];
    }
  }

  // ---------------------------------------------- _worklogs_from_approval

  /** The first request for an approval's worklogs: the path of `worklogs.self`. */
  function ApprovalWorklogsRequest(approval: Approval): Request {
    Request(Get, Strip(approval.worklogsSelf), NoPayload)
  }

  /** `_worklogs_from_approval(approval)`: the worklogs of every page, in page order. */
  method WorklogsFromApproval(approval: Approval, replies: seq<Request -> Reply<Page<Worklog>>>) returns (r: Outcome<seq<Worklog>>)
    ensures r == Collect(Walk(ApprovalWorklogsRequest(approval), replies, 0))
  {
    var first := ApprovalWorklogsRequest(approval);
    var call := CheckedCall(first, replies, 0);
    if call.Raised? {
      return Raised(call.error);
    }
    var data := call.value;
    var results := data.results;
    var next := ParseNext(data.metadata);
    var k := 1;
    ghost var pages := [data];
    WalkingStart(first, replies, data);
    while next.Some?
      invariant Walking(first, replies, pages, next, k)
      invariant results == Flatten(pages)
      decreases |replies| - k
    {
      call := CheckedCall(Follow(first, next.value), replies, k);
      if call.Raised? {
        WalkingRaised(first, replies, pages, next, k, call.error);
        return Raised(call.error);
      }
      data := call.value;
      WalkingAdvance(first, replies, pages, next, k, data);
      FlattenSnoc(pages, data);
      results := results + data.results;
      pages := pages + [data];
      next := ParseNext(data.metadata);
      k := k + 1;
    }
    WalkingFinished(first, replies, pages, next, k);
    return Done(results);
  }

  // ------------------------------------------------ worklogs_updated_from

  /** The limit `worklogs_updated_from` asks for. */
  const WorklogsPageLimit := 5000

  function WorklogsRequest(since: string): Request {
    Request(Get, "/worklogs", UpdatedFrom(since, WorklogsPageLimit))
  }

  /** `for item in results: result.append(modify_result(item))` */
  method AppendMapped<T, R>(acc: seq<R>, items: seq<T>, mapper: T -> R) returns (result: seq<R>)
    ensures result == acc + MapAll(items, mapper)
  {
    result := acc;
    var i := 0;
    while i < |items|
      invariant i <= |items|
      invariant |result| == |acc| + i
      invariant result[..|acc|] == acc
      invariant forall j :: 0 <= j < i ==> result[|acc| + j] == mapper(items[j])
    {
      result := result + [mapper(items[i])];
      i := i + 1;
    }
  }

  /** `worklogs_updated_from(since, mapper)`: every worklog of every page, mapped, in page order. */
  method WorklogsUpdatedFrom<T, R>(since: string, mapper: T -> R, replies: seq<Request -> Reply<Page<T>>>) returns (r: Outcome<seq<R>>)
    ensures r == CollectMap(Walk(WorklogsRequest(since), replies, 0), mapper)
  {
    var first := WorklogsRequest(since);
    var call := CheckedCall(first, replies, 0);
    if call.Raised? {
      return Raised(call.error);
    }
    var data := call.value;
    var result := AppendMapped([], data.results, mapper);
    var next := ParseNext(data.metadata);
    var k := 1;
    ghost var pages := [data];
    WalkingStart(first, replies, data);
    FlatMapSnoc([], data, mapper);
    assert [] + [data] == [data];
    while next.Some?
      invariant Walking(first, replies, pages, next, k)
      invariant result == FlatMap(pages, mapper)
      decreases |replies| - k
    {
      call := CheckedCall(Follow(first, next.value), replies, k);
      if call.Raised? {
        WalkingRaised(first, replies, pages, next, k, call.error);
        return Raised(call.error);
      }
      data := call.value;
      WalkingAdvance(first, replies, pages, next, k, data);
      FlatMapSnoc(pages, data, mapper);
      result := AppendMapped(result, data.results, mapper);
      pages := pages + [data];
      next := ParseNext(data.metadata);
      k := k + 1;
    }
    WalkingFinished(first, replies, pages, next, k);
    return Done(result);
  }

  // ------------------------------------------------- worklog id mappers

  function TempoToJiraRequest(tempoIds: seq<int>): Request {
    Request(Post, "/worklogs/tempo-to-jira?limit=500", TempoWorklogIds(tempoIds))
  }

  function JiraToTempoRequest(jiraIds: seq<int>): Request {
    Request(Post, "/worklogs/jira-to-tempo?limit=500", JiraWorklogIds(jiraIds))
  }

  /** The dict a mapper builds from the pages of a walk: every pair of every page, in page order. */
  function MappingOf(walk: Outcome<seq<Page<IdPair>>>): Outcome<IdDict> {
    match walk
    case Done(pages) => Done(Extend(Empty, Flatten(pages)))
    case Raised(e) => Raised(e)
  }

  /** `for map in data['results']: result[map['tempoWorklogId']] = map['jiraWorklogId']` */
  method AddPairs(d: IdDict, pairs: seq<IdPair>) returns (result: IdDict)
    ensures result == Extend(d, pairs)
  {
    result := d;
    var i := 0;
    while i < |pairs|
      invariant i <= |pairs|
      invariant result == Extend(d, pairs[..i])
    {
      assert pairs[..i + 1][..i] == pairs[..i];
      result := Set(result, pairs[i].tempoWorklogId, pairs[i].jiraWorklogId);
      i := i + 1;
    }
    assert pairs[..i] == pairs;
  }

  /** `tempo_to_jira_worklog_ids(ids)`: tempo id to jira id, for every pair of every page. */
  method TempoToJiraWorklogIds(tempoIds: seq<int>, replies: seq<Request -> Reply<Page<IdPair>>>) returns (r: Outcome<IdDict>)
    ensures r == MappingOf(Walk(TempoToJiraRequest(tempoIds), replies, 0))
  {
    var first := TempoToJiraRequest(tempoIds);
    var call := CheckedCall(first, replies, 0);
    if call.Raised? {
      return Raised(call.error);
    }
    var data := call.value;
    var result := AddPairs(Empty, data.results);
    var next := ParseNext(data.metadata);
    var k := 1;
    ghost var pages := [data];
    WalkingStart(first, replies, data);
    FlattenSnoc([], data);
    assert [] + [data] == [data];
    assert Flatten(pages) == data.results;
    while next.Some?
      invariant Walking(first, replies, pages, next, k)
      invariant result == Extend(Empty, Flatten(pages))
      decreases |replies| - k
    {
      call := CheckedCall(Follow(first, next.value), replies, k);
      if call.Raised? {
        WalkingRaised(first, replies, pages, next, k, call.error);
        return Raised(call.error);
      }
      data := call.value;
      WalkingAdvance(first, replies, pages, next, k, data);
      FlattenSnoc(pages, data);
      ExtendAppend(Empty, Flatten(pages), data.results);
      result := AddPairs(result, data.results);
      pages := pages + [data];
      next := ParseNext(data.metadata);
      k := k + 1;
    }
    WalkingFinished(first, replies, pages, next, k);
    return Done(result);
  }

  /**
   * `jira_to_tempo_worklog_ids(ids)`: the same dict as `tempo_to_jira`, keyed by
   * tempo id with the jira id as value, whatever ids were sent.
   */
  method JiraToTempoWorklogIds(jiraIds: seq<int>, replies: seq<Request -> Reply<Page<IdPair>>>) returns (r: Outcome<IdDict>)
    ensures r == MappingOf(Walk(JiraToTempoRequest(jiraIds), replies, 0))
  {
    var first := JiraToTempoRequest(jiraIds);
    var call := CheckedCall(first, replies, 0);
    if call.Raised? {
      return Raised(call.error);
    }
    var data := call.value;
    var result := AddPairs(Empty, data.results);
    var next := ParseNext(data.metadata);
    var k := 1;
    ghost var pages := [data];
    WalkingStart(first, replies, data);
    FlattenSnoc([], data);
    assert [] + [data] == [data];
    assert Flatten(pages) == data.results;
    while next.Some?
      invariant Walking(first, replies, pages, next, k)
      invariant result == Extend(Empty, Flatten(pages))
      decreases |replies| - k
    {
      call := CheckedCall(Follow(first, next.value), replies, k);
      if call.Raised? {
        WalkingRaised(first, replies, pages, next, k, call.error);
        return Raised(call.error);
      }
      data := call.value;
      WalkingAdvance(first, replies, pages, next, k, data);
      FlattenSnoc(pages, data);
      ExtendAppend(Empty, Flatten(pages), data.results);
      result := AddPairs(result, data.results);
      pages := pages + [data];
      next := ParseNext(data.metadata);
      k := k + 1;
    }
    WalkingFinished(first, replies, pages, next, k);
    return Done(result);
  }

  /**
   * The dict of a finished mapper walk: its keys are the tempo ids of the
   * pairs on the pages, each with the jira id of the last pair that carries
   * it, and it has at most one key per pair.
   */
  lemma MappingContents(walk: Outcome<seq<Page<IdPair>>>, pages: seq<Page<IdPair>>, i: nat)
    requires walk == Done(pages)
    requires i < |Flatten(pages)|
    requires forall j :: i < j < |Flatten(pages)| ==> Flatten(pages)[j].tempoWorklogId != Flatten(pages)[i].tempoWorklogId
    ensures MappingOf(walk).Done?
    ensures var d := MappingOf(walk).value;
      && (forall key :: key in d.entries <==> key in TempoIds(Flatten(pages)))
      && Flatten(pages)[i].tempoWorklogId in d.entries
      && d.entries[Flatten(pages)[i].tempoWorklogId] == Flatten(pages)[i].jiraWorklogId
      && |d.order| <= |Flatten(pages)|
  {
    var pairs := Flatten(pages);
    forall key
      ensures key in Extend(Empty, pairs).entries <==> key in TempoIds(pairs)
    {
      ExtendKeys(Empty, pairs, key);
    }
    ExtendLastWins(Empty, pairs, i);
    ExtendSize(Empty, pairs);
  }

  // --------------------------------------------- team_timesheet_approvals

  /** One element of `team_timesheet_approvals()`. */
  datatype ApprovalOut = ApprovalOut(
    period: Period,
    status: string,
    user: string,
    reviewer: Option<string>,
    approvedBy: string,
    worklogs: seq<int>)

  const ApprovedStatus: string := "APPROVED"

  const ApprovalsEndpointPrefix: string := "/timesheet-approvals/team/"

  /** GET /timesheet-approvals/team/{team_id} with `from` as query. */
  function TimesheetApprovalsRequest(teamId: int, dateFrom: string): Request {
    Request(Get, ApprovalsEndpointPrefix + Decimal.Show(teamId), FromDate(dateFrom))
  }

  /** The team id written into the approvals endpoint reads back as that id, for a non-negative id. */
  lemma ApprovalsEndpointId(teamId: int, dateFrom: string)
    requires teamId >= 0
    ensures var e := TimesheetApprovalsRequest(teamId, dateFrom).endpoint;
      |ApprovalsEndpointPrefix| <= |e| && e[..|ApprovalsEndpointPrefix|] == ApprovalsEndpointPrefix
      && Decimal.ParseNat(e[|ApprovalsEndpointPrefix|..]) == teamId
  {
    Decimal.ParseShowNat(teamId);
    var e := TimesheetApprovalsRequest(teamId, dateFrom).endpoint;
    assert e[|ApprovalsEndpointPrefix|..] == Decimal.ShowNat(teamId);
  }

  /** `approved_by`: the actor of an APPROVED status (a KeyError when it has none), and "" for any other status. */
  function ApprovedBy(status: Status): Outcome<string> {
    if status.key == ApprovedStatus then
      match status.actor
      case None => Raised(MissingKey("actor"))
      case Some(actor) => Done(actor)
    else Done("")
  }

  /**
   * The tempo ids of worklogs, in order: the generic `MapAll` with the
   * `tempoWorklogId` field of a worklog (`IdDicts.TempoIds` reads the field of
   * the same name of a mapping pair, a different record).
   */
  function WorklogTempoIds(worklogs: seq<Worklog>): (ids: seq<int>)
    ensures |ids| == |worklogs| && forall i :: 0 <= i < |worklogs| ==> ids[i] == worklogs[i].tempoWorklogId
  {
    MapAll(worklogs, (w: Worklog) => w.tempoWorklogId)
  }

  /** `for worklog in worklogs: tempo_worklog_ids.append(worklog['tempoWorklogId'])` */
  method CollectTempoIds(worklogs: seq<Worklog>) returns (ids: seq<int>)
    ensures ids == WorklogTempoIds(worklogs)
  {
    ids := [];
    var i := 0;
    while i < |worklogs|
      invariant i <= |worklogs|
      invariant |ids| == i && forall j :: 0 <= j < i ==> ids[j] == worklogs[j].tempoWorklogId
    {
      ids := ids + [worklogs[i].tempoWorklogId];
      i := i + 1;
    }
  }

  /**
   * The `worklogs` of a loaded approval: the tempo ids of its worklogs in
   * fetch order, or, with `worklog_source`, the values of their tempo-to-jira
   * mapping.
   */
  function ApprovalWorklogs(approval: Approval, worklogSource: bool,
                            worklogReplies: seq<Request -> Reply<Page<Worklog>>>,
                            mappingReplies: seq<Request -> Reply<Page<IdPair>>>): Outcome<seq<int>> {
    match Collect(Walk(ApprovalWorklogsRequest(approval), worklogReplies, 0))
    case Raised(e) => Raised(e)
    case Done(worklogs) =>
      var ids := WorklogTempoIds(worklogs);
      if worklogSource then MappedValues(ids, mappingReplies) else Done(ids)
  }

  /** `list(tempo_to_jira_worklog_ids(ids).values())` */
  function MappedValues(tempoIds: seq<int>, mappingReplies: seq<Request -> Reply<Page<IdPair>>>): Outcome<seq<int>> {
    match MappingOf(Walk(TempoToJiraRequest(tempoIds), mappingReplies, 0))
    case Raised(e) => Raised(e)
    case Done(mapping) => Done(Values(mapping))
  }

  /** The record `team_timesheet_approvals` builds for one approval, or the exception it raises on the way. */
  function ShapeApproval(approval: Approval, loadWorklogs: bool, worklogSource: bool,
                         worklogReplies: seq<Request -> Reply<Page<Worklog>>>,
                         mappingReplies: seq<Request -> Reply<Page<IdPair>>>): Outcome<ApprovalOut> {
    match ApprovedBy(approval.status)
    case Raised(e) => Raised(e)
    case Done(approvedBy) =>
      var out := ApprovalOut(approval.period, approval.status.key, approval.user, approval.reviewer, approvedBy, []);
      if !loadWorklogs then Done(out)
      else
        match ApprovalWorklogs(approval, worklogSource, worklogReplies, mappingReplies)
        case Raised(e) => Raised(e)
        case Done(worklogs) => Done(out.(worklogs := worklogs))
  }

  /**
   * The fields of a shaped approval: period, status key, user and reviewer
   * copied; `approved_by` the actor exactly for APPROVED (a KeyError if there
   * is none) and "" otherwise; `worklogs` empty unless loaded, and the loaded
   * ids otherwise.
   */
  lemma ShapeApprovalFields(approval: Approval, loadWorklogs: bool, worklogSource: bool,
                            worklogReplies: seq<Request -> Reply<Page<Worklog>>>,
                            mappingReplies: seq<Request -> Reply<Page<IdPair>>>)
    ensures var r := ShapeApproval(approval, loadWorklogs, worklogSource, worklogReplies, mappingReplies);
      && (approval.status.key == ApprovedStatus && approval.status.actor.None? ==> r == Raised(MissingKey("actor")))
      && (r.Done? ==>
            && r.value.period == approval.period
            && r.value.status == approval.status.key
            && r.value.user == approval.user
            && r.value.reviewer == approval.reviewer)
      && (r.Done? && approval.status.key == ApprovedStatus ==>
            approval.status.actor.Some? && r.value.approvedBy == approval.status.actor.value)
      && (r.Done? && approval.status.key != ApprovedStatus ==> r.value.approvedBy == "")
      && (!loadWorklogs ==> r.Done? == ApprovedBy(approval.status).Done? && (r.Done? ==> r.value.worklogs == []))
      && (loadWorklogs && r.Done? ==> ApprovalWorklogs(approval, worklogSource, worklogReplies, mappingReplies) == Done(r.value.worklogs))
  {
  }

  /** The loop body of `team_timesheet_approvals` for one approval. */
  method ShapeOne(approval: Approval, loadWorklogs: bool, worklogSource: bool,
                  worklogReplies: seq<Request -> Reply<Page<Worklog>>>,
                  mappingReplies: seq<Request -> Reply<Page<IdPair>>>) returns (r: Outcome<ApprovalOut>)
    ensures r == ShapeApproval(approval, loadWorklogs, worklogSource, worklogReplies, mappingReplies)
  {
    var approvedBy := "";
    if approval.status.key == ApprovedStatus {
      if approval.status.actor.None? {
        return Raised(MissingKey("actor"));
      }
      approvedBy := approval.status.actor.value;
    }
    var out := ApprovalOut(approval.period, approval.status.key, approval.user, approval.reviewer, approvedBy, []);
    if loadWorklogs {
      var worklogs := WorklogsFromApproval(approval, worklogReplies);
      if worklogs.Raised? {
        return Raised(worklogs.error);
      }
      var tempoIds := CollectTempoIds(worklogs.value);
      if worklogSource {
        var mapping := TempoToJiraWorklogIds(tempoIds, mappingReplies);
        if mapping.Raised? {
          return Raised(mapping.error);
        }
        out := out.(worklogs := Values(mapping.value));
      } else {
        out := out.(worklogs := tempoIds);
      }
    }
    return Done(out);
  }

  /** The i-th element of `s`, or no replies at all past its end. */
  function At<X>(s: seq<seq<X>>, i: nat): seq<X> {
    if i < |s| then s[i] else []
  }

  /** Approval i shaped with the i-th replies for its worklogs and its mapping. */
  function Shaper(loadWorklogs: bool, worklogSource: bool,
                  worklogReplies: seq<seq<Request -> Reply<Page<Worklog>>>>,
                  mappingReplies: seq<seq<Request -> Reply<Page<IdPair>>>>): (nat, Approval) -> Outcome<ApprovalOut> {
    (i: nat, approval: Approval) => ShapeApproval(approval, loadWorklogs, worklogSource, At(worklogReplies, i), At(mappingReplies, i))
  }

  lemma ShaperAt(loadWorklogs: bool, worklogSource: bool,
                 worklogReplies: seq<seq<Request -> Reply<Page<Worklog>>>>,
                 mappingReplies: seq<seq<Request -> Reply<Page<IdPair>>>>, i: nat, approval: Approval)
    ensures Shaper(loadWorklogs, worklogSource, worklogReplies, mappingReplies)(i, approval)
         == ShapeApproval(approval, loadWorklogs, worklogSource, At(worklogReplies, i), At(mappingReplies, i))
  {
  }

  /**
   * The records for `approvals`, in order; approval i fetches its worklogs
   * with `worklogReplies[i]` and maps them with `mappingReplies[i]`. The first
   * exception ends the whole call.
   */
  function ShapeApprovals(approvals: seq<Approval>, loadWorklogs: bool, worklogSource: bool,
                          worklogReplies: seq<seq<Request -> Reply<Page<Worklog>>>>,
                          mappingReplies: seq<seq<Request -> Reply<Page<IdPair>>>>): Outcome<seq<ApprovalOut>> {
    AllDone(approvals, Shaper(loadWorklogs, worklogSource, worklogReplies, mappingReplies))
  }

  /** `team_timesheet_approvals(team_id, date_from, ...)`: the approvals of the first page, shaped. */
  function TimesheetApprovals(teamId: int, dateFrom: string, loadWorklogs: bool, worklogSource: bool,
                              approvalReplies: seq<Request -> Reply<Page<Approval>>>,
                              worklogReplies: seq<seq<Request -> Reply<Page<Worklog>>>>,
                              mappingReplies: seq<seq<Request -> Reply<Page<IdPair>>>>): Outcome<seq<ApprovalOut>> {
    match CheckedCall(TimesheetApprovalsRequest(teamId, dateFrom), approvalReplies, 0)
    case Raised(e) => Raised(e)
    case Done(page) => ShapeApprovals(page.results, loadWorklogs, worklogSource, worklogReplies, mappingReplies)
  }

  /**
   * No approval is dropped: the call returns `outs` exactly when there is one
   * record per approval, in order, each shaped from its own approval and its
   * own replies.
   */
  lemma ShapeApprovalsIff(approvals: seq<Approval>, loadWorklogs: bool, worklogSource: bool,
                          worklogReplies: seq<seq<Request -> Reply<Page<Worklog>>>>,
                          mappingReplies: seq<seq<Request -> Reply<Page<IdPair>>>>,
                          outs: seq<ApprovalOut>)
    ensures ShapeApprovals(approvals, loadWorklogs, worklogSource, worklogReplies, mappingReplies) == Done(outs) <==>
      && |outs| == |approvals|
      && forall i :: 0 <= i < |approvals| ==>
           ShapeApproval(approvals[i], loadWorklogs, worklogSource, At(worklogReplies, i), At(mappingReplies, i)) == Done(outs[i])
  {
    AllDoneIff(approvals, Shaper(loadWorklogs, worklogSource, worklogReplies, mappingReplies), outs);
  }

  /** The loop of `team_timesheet_approvals` over the approvals of the page. */
  method ShapeAll(approvals: seq<Approval>, loadWorklogs: bool, worklogSource: bool,
                  worklogReplies: seq<seq<Request -> Reply<Page<Worklog>>>>,
                  mappingReplies: seq<seq<Request -> Reply<Page<IdPair>>>>)
    returns (r: Outcome<seq<ApprovalOut>>)
    ensures r == ShapeApprovals(approvals, loadWorklogs, worklogSource, worklogReplies, mappingReplies)
  {
    ghost var shaper := Shaper(loadWorklogs, worklogSource, worklogReplies, mappingReplies);
    var results := [];
    var i := 0;
    while i < |approvals|
      invariant i <= |approvals|
      invariant AllDone(approvals[..i], shaper) == Done(results)
    {
      var out := ShapeOne(approvals[i], loadWorklogs, worklogSource, At(worklogReplies, i), At(mappingReplies, i));
      ShaperAt(loadWorklogs, worklogSource, worklogReplies, mappingReplies, i, approvals[i]);
      AllDoneStep(approvals, shaper, i, results);
      if out.Raised? {
        AllDoneRaised(approvals, shaper, i + 1);
        return Raised(out.error);
      }
      results := results + [out.value];
      i := i + 1;
    }
    assert approvals[..i] == approvals;
    return Done(results);
  }

  /** `team_timesheet_approvals`: one request, then the approvals of the page shaped in order. */
  method TeamTimesheetApprovals(teamId: int, dateFrom: string, loadWorklogs: bool, worklogSource: bool,
                                approvalReplies: seq<Request -> Reply<Page<Approval>>>,
                                worklogReplies: seq<seq<Request -> Reply<Page<Worklog>>>>,
                                mappingReplies: seq<seq<Request -> Reply<Page<IdPair>>>>)
    returns (r: Outcome<seq<ApprovalOut>>)
    ensures r == TimesheetApprovals(teamId, dateFrom, loadWorklogs, worklogSource, approvalReplies, worklogReplies, mappingReplies)
  {
    var call := CheckedCall(TimesheetApprovalsRequest(teamId, dateFrom), approvalReplies, 0);
    if call.Raised? {
      return Raised(call.error);
    }
    r := ShapeAll(call.value.results, loadWorklogs, worklogSource, worklogReplies, mappingReplies);
  }

  /**
   * With `worklog_source`, when the mapping pages carry each tempo id once,
   * an approval's `worklogs` are the jira ids of those pairs in page order.
   */
  lemma MappedValuesDistinct(tempoIds: seq<int>, mappingReplies: seq<Request -> Reply<Page<IdPair>>>, pages: seq<Page<IdPair>>)
    requires Walk(TempoToJiraRequest(tempoIds), mappingReplies, 0) == Done(pages)
    requires forall i, j :: 0 <= i < j < |Flatten(pages)| ==> Flatten(pages)[i].tempoWorklogId != Flatten(pages)[j].tempoWorklogId
    ensures MappedValues(tempoIds, mappingReplies) == Done(JiraIds(Flatten(pages)))
  {
    ExtendDistinct(Flatten(pages));
  }

  // ------------------------------------------------ `params=` as written

  /** A server that answers any request with one final page and no results. */
  function OneEmptyPage<T>(): Request -> Reply<Page<T>> {
    (req: Request) => Reply(200, Some(Page([], Metadata(Absent))))
  }

  /**
   * `teams`, `team_timesheet_approvals` and `worklogs_updated_from` pass their
   * query to `_checked_get` as `params=`, a keyword it does not declare: as
   * written each raises TypeError on its first call even against a server
   * that would answer with a final page, which the corrected calls (the
   * query sent as the request's payload) accept.
   */
  lemma ParamsKeywordCounterexample(teamId: int, dateFrom: string, since: string)
    ensures CheckedGetWithKeyword(TeamsRequest, "params", [OneEmptyPage<Team>()], 0) == Raised(UnexpectedKeyword("params"))
    ensures Collect(Walk(TeamsRequest, [OneEmptyPage<Team>()], 0)) == Done([])
    ensures CheckedGetWithKeyword(TimesheetApprovalsRequest(teamId, dateFrom), "params", [OneEmptyPage<Approval>()], 0)
         == Raised(UnexpectedKeyword("params"))
    ensures TimesheetApprovals(teamId, dateFrom, true, false, [OneEmptyPage<Approval>()], [], []) == Done([])
    ensures CheckedGetWithKeyword(WorklogsRequest(since), "params", [OneEmptyPage<Worklog>()], 0) == Raised(UnexpectedKeyword("params"))
    ensures Collect(Walk(WorklogsRequest(since), [OneEmptyPage<Worklog>()], 0)) == Done([])
  {
    ParamsKeywordRaises(TeamsRequest, [OneEmptyPage<Team>()], 0);
    var page: Page<Team> := Page([], Metadata(Absent));
    assert Walk(TeamsRequest, [OneEmptyPage<Team>()], 0) == Done([page]);
    assert Flatten([page]) == [];
    var wpage: Page<Worklog> := Page([], Metadata(Absent));
    assert Walk(WorklogsRequest(since), [OneEmptyPage<Worklog>()], 0) == Done([wpage]);
    assert Flatten([wpage]) == [];
  }
}
