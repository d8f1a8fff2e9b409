/**
 * The records the two upstream services return, once decoded. Keys that the
 * code reads unconditionally are plain fields; keys whose presence it tests
 * (or that it reads only in some cases) are `Option` fields.
 */
module Records {
  import opened Outcomes

  /** A Tempo team: `id`, `name`, `lead.accountId`. */
  datatype Team = Team(id: int, name: string, leadAccountId: string)

  /** A Tempo team membership: `team.id`, `member.accountId`. */
  datatype Membership = Membership(teamId: int, memberAccountId: string)

  /** A Tempo worklog: `tempoWorklogId`, `issue.id`, `author.accountId`, ... */
  datatype Worklog = Worklog(
    tempoWorklogId: int,
    issueId: int,
    authorAccountId: string,
    timeSpentSeconds: int,
    startDateTimeUtc: string,
    createdAt: string,
    updatedAt: string)

  /** One entry of the tempo-to-jira / jira-to-tempo id mapping pages. */
  datatype IdPair = IdPair(tempoWorklogId: int, jiraWorklogId: int)

  /** A work attribute configuration; `values` is present only for some attribute types. */
  datatype AttributeConfigItem<V> = AttributeConfigItem(key: string, name: string, attrType: string, values: Option<V>)

  /** One `{key, value}` of a worklog's `workAttributeValues`. */
  datatype AttributeValue = AttributeValue(key: string, value: string)

  /** One element of the work-attribute-values search answer. */
  datatype WorklogAttributeValues = WorklogAttributeValues(tempoWorklogId: int, workAttributeValues: seq<AttributeValue>)

  /** A timesheet approval period `{from, to}`, passed through as is. */
  datatype Period = Period(from: string, to: string)

  /** `status.key` and, when present, `status.actor.accountId`. */
  datatype Status = Status(key: string, actor: Option<string>)

  /** A timesheet approval: `period`, `status`, `user.accountId`, optional `reviewer.accountId`, `worklogs.self`. */
  datatype Approval = Approval(period: Period, status: Status, user: string, reviewer: Option<string>, worklogsSelf: string)
}
