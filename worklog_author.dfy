/**
 * The worklog-authors extractor (`worklog_author.py`): Jira worklog ids
 * updated since a time, mapped to Tempo worklogs, each paired with its
 * author. The calls it makes are inputs, each given as what the call
 * returns (None or a value) or raises: `worklogIds` for
 * `jirac.worklog_ids(since_mls)` (`Jira.UpdatedWorklogIds`),
 * `jiraToTempo(ids)` for `tempo.jira_to_tempo_worklog_ids(ids)` and
 * `authorOf(id)` for `tempo.worklog_author(id)`.
 */
module WorklogAuthor {
  import opened Outcomes
  import opened Records
  import opened Rows
  import opened IdDicts

  const ColJiraWorklogId: string := "jira_worklog_id"
  const ColAuthorId: string := "account_id"

  /** `column_definitions()`, reduced to column names and primary-key flags. */
  function ColumnDefinitions(): map<string, ColumnDefinition> {
    map[ColJiraWorklogId := ColumnDefinition(true), ColAuthorId := ColumnDefinition(false)]
  }

  /** A row is identified by its jira worklog id. */
  lemma AuthorPrimaryKey()
    ensures PrimaryKey(ColumnDefinitions()) == {ColJiraWorklogId}
  {
  }

  /** `{'jira_worklog_id': jira_id, 'account_id': author}`: exactly the columns of the table. */
  function AuthorRow(jiraId: int, author: string): (row: Row)
    ensures row.Keys == ColumnDefinitions().Keys
    ensures row[ColJiraWorklogId] == IntV(jiraId) && row[ColAuthorId] == StrV(author)
  {
    map[ColJiraWorklogId := IntV(jiraId), ColAuthorId := StrV(author)]
  }

  /**
   * The rows for `mapped.items()`: an entry whose author lookup returns None
   * is skipped, and a lookup that raises ends the loop with its exception.
   */
  function AuthorRows(items: seq<IdPair>, authorOf: int -> Outcome<Option<string>>): Outcome<seq<Row>> {
    if items == [] then Done([])
    else
      var n := |items| - 1;
      match AuthorRows(items[..n], authorOf)
      case Raised(e) => Raised(e)
      case Done(rows) =>
        match authorOf(items[n].tempoWorklogId)
        case Raised(e) => Raised(e)
        case Done(None) => Done(rows)
        case Done(Some(author)) => Done(rows + [AuthorRow(items[n].jiraWorklogId, author)])
  }

  /** `run(since_mls)`: None when either fetch returns None, else the author rows; or the exception of a call. */
  function AuthorTable(worklogIds: Outcome<Option<seq<int>>>, jiraToTempo: seq<int> -> Outcome<Option<IdDict>>,
                       authorOf: int -> Outcome<Option<string>>): Outcome<Option<seq<Row>>> {
    match worklogIds
    case Raised(e) => Raised(e)
    case Done(None) => Done(None)
    case Done(Some(ids)) =>
      match jiraToTempo(ids)
      case Raised(e) => Raised(e)
      case Done(None) => Done(None)
      case Done(Some(mapped)) =>
        match AuthorRows(Items(mapped), authorOf)
        case Raised(e) => Raised(e)
        case Done(rows) => Done(Some(rows))
  }

  /** `run(since_mls)` as the loop the source runs. */
  method Run(worklogIds: Outcome<Option<seq<int>>>, jiraToTempo: seq<int> -> Outcome<Option<IdDict>>,
             authorOf: int -> Outcome<Option<string>>)
    returns (r: Outcome<Option<seq<Row>>>)
    ensures r == AuthorTable(worklogIds, jiraToTempo, authorOf)
  {
    if worklogIds.Raised? {
      return Raised(worklogIds.error);
    }
    if worklogIds.value.None? {
      return Done(None);
    }
    var mapped := jiraToTempo(worklogIds.value.value);
    if mapped.Raised? {
      return Raised(mapped.error);
    }
    if mapped.value.None? {
      return Done(None);
    }
    var items := Items(mapped.value.value);
    var fileOutput := [];
    var i := 0;
    while i < |items|
      invariant i <= |items|
      invariant AuthorRows(items[..i], authorOf) == Done(fileOutput)
    {
      assert items[..i + 1][..i] == items[..i];
      var author := authorOf(items[i].tempoWorklogId);
      if author.Raised? {
        AuthorRowsRaisedPersists(items, i + 1, authorOf);
        return Raised(author.error);
      }
      if author.value.None? {
        i := i + 1;
        continue;
      }
      fileOutput := fileOutput + [AuthorRow(items[i].jiraWorklogId, author.value.value)];
      i := i + 1;
    }
    assert items[..i] == items;
    return Done(Some(fileOutput));
  }

  /** A lookup that raises ends the loop: the later entries change nothing. */
  lemma {:induction false} AuthorRowsRaisedPersists(items: seq<IdPair>, j: nat, authorOf: int -> Outcome<Option<string>>)
    requires j <= |items| && AuthorRows(items[..j], authorOf).Raised?
    ensures AuthorRows(items, authorOf) == AuthorRows(items[..j], authorOf)
    decreases |items| - j
  {
    if j == |items| {
      assert items[..j] == items;
    } else {
      assert items[..j + 1][..j] == items[..j];
      AuthorRowsRaisedPersists(items, j + 1, authorOf);
    }
  }

  /**
   * The result is None exactly when the jira id fetch, or else the mapping,
   * returns None; it is an exception exactly when one of the calls raises
   * before that.
   */
  lemma AuthorTableCases(worklogIds: Outcome<Option<seq<int>>>, jiraToTempo: seq<int> -> Outcome<Option<IdDict>>,
                         authorOf: int -> Outcome<Option<string>>)
    ensures AuthorTable(worklogIds, jiraToTempo, authorOf) == Done(None) <==>
      worklogIds == Done(None) || (Fetched(worklogIds) && jiraToTempo(worklogIds.value.value) == Done(None))
    ensures AuthorTable(worklogIds, jiraToTempo, authorOf).Raised? <==>
      || worklogIds.Raised?
      || (Fetched(worklogIds) && jiraToTempo(worklogIds.value.value).Raised?)
      || (Fetched(worklogIds) && Fetched(jiraToTempo(worklogIds.value.value))
          && exists i :: 0 <= i < |Items(jiraToTempo(worklogIds.value.value).value.value)|
               && authorOf(Items(jiraToTempo(worklogIds.value.value).value.value)[i].tempoWorklogId).Raised?)
  {
    if Fetched(worklogIds) && Fetched(jiraToTempo(worklogIds.value.value)) {
      AuthorRowsDone(Items(jiraToTempo(worklogIds.value.value).value.value), authorOf);
    }
  }

  /** The rows are produced exactly when no author lookup raises. */
  lemma {:induction false} AuthorRowsDone(items: seq<IdPair>, authorOf: int -> Outcome<Option<string>>)
    ensures AuthorRows(items, authorOf).Done? <==> forall i :: 0 <= i < |items| ==> authorOf(items[i].tempoWorklogId).Done?
    decreases |items|
  {
    if items != [] {
      var n := |items| - 1;
      AuthorRowsDone(items[..n], authorOf);
      if forall i :: 0 <= i < |items| ==> authorOf(items[i].tempoWorklogId).Done? {
        forall i | 0 <= i < n
          ensures authorOf(items[..n][i].tempoWorklogId).Done?
        {
          assert items[..n][i] == items[i];
        }
      }
      if forall i :: 0 <= i < n ==> authorOf(items[..n][i].tempoWorklogId).Done? {
        forall i | 0 <= i < n
          ensures authorOf(items[i].tempoWorklogId).Done?
        {
          assert items[..n][i] == items[i];
        }
      }
    }
  }

  /**
   * Rows keep the iteration order: the rows of a split list are the rows of
   * its parts, in order, unless a lookup raises first.
   */
  lemma {:induction false} AuthorRowsAppend(a: seq<IdPair>, b: seq<IdPair>, authorOf: int -> Outcome<Option<string>>)
    ensures AuthorRows(a + b, authorOf) ==
      match AuthorRows(a, authorOf)
      case Raised(e) => Raised(e)
      case Done(ra) =>
        match AuthorRows(b, authorOf)
        case Raised(e) => Raised(e)
        case Done(rb) => Done(ra + rb)
    decreases |b|
  {
    if b == [] {
      assert a + b == a;
      if AuthorRows(a, authorOf).Done? {
        assert AuthorRows(a, authorOf).value + [] == AuthorRows(a, authorOf).value;
      }
    } else {
      var n := |b| - 1;
      assert (a + b)[..|a + b| - 1] == a + b[..n];
      assert (a + b)[|a + b| - 1] == b[n];
      AuthorRowsAppend(a, b[..n], authorOf);
      if AuthorRows(a, authorOf).Done? && AuthorRows(b[..n], authorOf).Done? && Fetched(authorOf(b[n].tempoWorklogId)) {
        var ra, rb := AuthorRows(a, authorOf).value, AuthorRows(b[..n], authorOf).value;
        var row := AuthorRow(b[n].jiraWorklogId, authorOf(b[n].tempoWorklogId).value.value);
        assert (ra + rb) + [row] == ra + (rb + [row]);
      }
    }
  }

  /** At most one row per mapping entry. */
  lemma {:induction false} AuthorRowsBound(items: seq<IdPair>, authorOf: int -> Outcome<Option<string>>)
    requires AuthorRows(items, authorOf).Done?
    ensures |AuthorRows(items, authorOf).value| <= |items|
    decreases |items|
  {
    if items != [] {
      AuthorRowsBound(items[..|items| - 1], authorOf);
    }
  }

  /** Every row pairs an entry's jira id with the author found for that entry's tempo id. */
  lemma {:induction false} AuthorRowsSound(items: seq<IdPair>, authorOf: int -> Outcome<Option<string>>, row: Row)
    requires AuthorRows(items, authorOf).Done? && row in AuthorRows(items, authorOf).value
    ensures exists i ::
      && 0 <= i < |items|
      && Fetched(authorOf(items[i].tempoWorklogId))
      && row == AuthorRow(items[i].jiraWorklogId, authorOf(items[i].tempoWorklogId).value.value)
    decreases |items|
  {
    var n := |items| - 1;
    if row in AuthorRows(items[..n], authorOf).value {
      AuthorRowsSound(items[..n], authorOf, row);
      var i :|
        && 0 <= i < n
        && Fetched(authorOf(items[..n][i].tempoWorklogId))
        && row == AuthorRow(items[..n][i].jiraWorklogId, authorOf(items[..n][i].tempoWorklogId).value.value);
      assert items[..n][i] == items[i];
    } else {
      assert Fetched(authorOf(items[n].tempoWorklogId));
    }
  }

  /** Every entry whose author is found gets its row. */
  lemma {:induction false} AuthorRowsComplete(items: seq<IdPair>, authorOf: int -> Outcome<Option<string>>, i: nat)
    requires AuthorRows(items, authorOf).Done?
    requires i < |items| && Fetched(authorOf(items[i].tempoWorklogId))
    ensures AuthorRow(items[i].jiraWorklogId, authorOf(items[i].tempoWorklogId).value.value) in AuthorRows(items, authorOf).value
    decreases |items|
  {
    var n := |items| - 1;
    if i < n {
      AuthorRowsComplete(items[..n], authorOf, i);
      assert items[..n][i] == items[i];
    }
  }
}
