/**
 * `WorkflowRuntimeDataRepository.search`: the arguments it builds for the
 * database's `search_workflow_data` procedure, and the `LIMIT`/`OFFSET` page it
 * takes of the ids the procedure returns. The procedure itself is a function
 * the search is given.
 */
module Search {
  import opened Wrappers
  import Strings

  /** The `query` part of the search request. */
  datatype SearchQuery = SearchQuery(
    take: int,
    skip: int,
    search: Option<string>,
    entityType: string,
    statuses: seq<string>,
    workflowDefinitionIds: Option<seq<string>>,
    orderBy: string)

  /** The optional `filters`; a `None` assignee entry is the `null` that asks for unassigned records. */
  datatype SearchFilters = SearchFilters(
    caseStatus: Option<seq<string>>,
    assigneeId: Option<seq<Option<string>>>,
    status: Option<seq<string>>)

  /** The ten arguments of `search_workflow_data`, in order; a `None` is bound as NULL. */
  datatype ProcedureCall = ProcedureCall(
    search: Option<string>,
    entityType: string,
    orderColumn: string,
    orderDirection: Option<string>,
    workflowDefinitionIds: seq<string>,
    statuses: seq<string>,
    projectIds: seq<string>,
    assigneeIds: seq<string>,
    caseStatuses: seq<string>,
    includeUnassigned: bool)

  /** The failures PostgreSQL raises for a negative `OFFSET` or `LIMIT`. */
  datatype SearchError = NegativeOffset | NegativeLimit

  /**
   * `assigneeId.filter(id => id !== null)`: the concrete ids, with one fewer
   * entry for every `null`, and an id is kept exactly when it was supplied.
   */
  function NonNullIds(xs: seq<Option<string>>): (r: seq<string>)
    ensures |r| + multiset(xs)[None] == |xs|
    ensures forall x :: x in r <==> Some(x) in xs
  {
    if xs == [] then []
    else
      assert xs == [xs[0]] + xs[1..];
      (if xs[0].Some? then [xs[0].value] else []) + NonNullIds(xs[1..])
  }

  /** Filtering keeps the order of the list: it distributes over concatenation. */
  lemma {:induction false} NonNullIdsAppend(a: seq<Option<string>>, b: seq<Option<string>>)
    ensures NonNullIds(a + b) == NonNullIds(a) + NonNullIds(b)
  {
    if a != [] {
      assert (a + b)[0] == a[0];
      assert (a + b)[1..] == a[1..] + b;
      NonNullIdsAppend(a[1..], b);
    } else {
      assert a + b == b;
    }
  }

  /** A list without `null` passes through unchanged, element by element. */
  lemma {:induction false} NonNullIdsOfConcreteList(xs: seq<Option<string>>)
    requires None !in xs
    ensures |NonNullIds(xs)| == |xs|
    ensures forall i :: 0 <= i < |xs| ==> Some(NonNullIds(xs)[i]) == xs[i]
  {
    if xs != [] {
      assert None !in xs[1..];
      NonNullIdsOfConcreteList(xs[1..]);
      assert NonNullIds(xs) == [xs[0].value] + NonNullIds(xs[1..]);
    }
  }

  /**
   * The assignee partition: the non-null ids of `filters?.assigneeId` (none when
   * the filter is absent), and whether `null` occurs in it.
   */
  function AssigneePartition(filters: Option<SearchFilters>): (r: (seq<string>, bool))
    ensures filters.None? || filters.value.assigneeId.None? ==> r == ([], false)
    ensures filters.Some? && filters.value.assigneeId.Some? ==>
      r.0 == NonNullIds(filters.value.assigneeId.value)
    ensures r.1 <==> filters.Some? && filters.value.assigneeId.Some? && None in filters.value.assigneeId.value
  {
    if filters.Some? && filters.value.assigneeId.Some? then
      var ids := filters.value.assigneeId.value;
      (NonNullIds(ids), None in ids)
    else ([], false)
  }

  /**
   * One `array[...]::text[]` argument: the supplied list, or the empty array
   * when the list is absent or empty.
   */
  function ArrayArgument(xs: Option<seq<string>>): (r: seq<string>)
    ensures xs.None? ==> r == []
    ensures xs.Some? ==> r == xs.value
  {
    if xs.Some? && |xs.value| > 0 then xs.value else []
  }

  /**
   * The arguments of the procedure call. The order column is the text of
   * `orderBy` before its first ':'; the direction is the text between the first
   * ':' and the next one (or the end), and NULL when there is no ':'. Each list
   * argument is the supplied list or empty. The `status` filter is not used.
   */
  function BuildCall(query: SearchQuery, filters: Option<SearchFilters>, projectIds: Option<seq<string>>): (c: ProcedureCall)
    ensures c.search == query.search && c.entityType == query.entityType
    ensures c.orderColumn <= query.orderBy && ':' !in c.orderColumn
    ensures |c.orderColumn| < |query.orderBy| ==> query.orderBy[|c.orderColumn|] == ':'
    ensures c.orderDirection.Some? <==> ':' in query.orderBy
    ensures c.orderDirection.Some? ==>
      var rest := query.orderBy[|c.orderColumn| + 1..];
      c.orderDirection.value <= rest && ':' !in c.orderDirection.value
      && (|c.orderDirection.value| < |rest| ==> rest[|c.orderDirection.value|] == ':')
    ensures c.workflowDefinitionIds == query.workflowDefinitionIds.GetOr([])
    ensures c.statuses == query.statuses
    ensures c.projectIds == projectIds.GetOr([])
    ensures c.caseStatuses == (if filters.Some? then filters.value.caseStatus.GetOr([]) else [])
    ensures (c.assigneeIds, c.includeUnassigned) == AssigneePartition(filters)
  {
    Strings.SplitSegmentCount(query.orderBy, ':');
    var segments := Strings.Split(query.orderBy, ':');
    var orderDirection: Option<string> :=
      if |segments| > 1 then
        Strings.SplitAtFirst(query.orderBy, ':');
        Some(segments[1])
      else None;
    var (assigneeIds, includeUnassigned) := AssigneePartition(filters);
    ProcedureCall(
      query.search,
      query.entityType,
      segments[0],
      orderDirection,
      ArrayArgument(query.workflowDefinitionIds),
      ArrayArgument(Some(query.statuses)),
      ArrayArgument(projectIds),
      assigneeIds,
      ArrayArgument(if filters.Some? then filters.value.caseStatus else None),
      includeUnassigned)
  }

  /** The `status` filter has no effect on the call. */
  lemma StatusFilterIgnored(query: SearchQuery, filters: SearchFilters, status: Option<seq<string>>,
                            projectIds: Option<seq<string>>)
    ensures BuildCall(query, Some(filters), projectIds) == BuildCall(query, Some(filters.(status := status)), projectIds)
  {
  }

  /**
   * `LIMIT take OFFSET skip` over the procedure's ids: fails on a negative
   * offset, then on a negative limit; otherwise the ids from position `skip`
   * on, at most `take` of them, in the procedure's order.
   */
  function Page(ids: seq<string>, take: int, skip: int): (r: Result<seq<string>, SearchError>)
    ensures skip < 0 ==> r == Failure(NegativeOffset)
    ensures 0 <= skip && take < 0 ==> r == Failure(NegativeLimit)
    ensures 0 <= skip && 0 <= take ==> r.Success?
    ensures r.Success? ==> |r.value| == (if |ids| <= skip then 0 else if take < |ids| - skip then take else |ids| - skip)
    ensures r.Success? ==> forall i :: 0 <= i < |r.value| ==> r.value[i] == ids[skip + i]
  {
    if skip < 0 then Failure(NegativeOffset)
    else if take < 0 then Failure(NegativeLimit)
    else if |ids| <= skip then Success([])
    else Success(ids[skip .. if skip + take < |ids| then skip + take else |ids|])
  }

  /** Two consecutive pages together are the page that spans both. */
  lemma PagesConcatenate(ids: seq<string>, skip: nat, first: nat, second: nat)
    ensures Page(ids, first, skip).value + Page(ids, second, skip + first).value
         == Page(ids, first + second, skip).value
  {
    var a, b, c := Page(ids, first, skip).value, Page(ids, second, skip + first).value, Page(ids, first + second, skip).value;
    assert |a| + |b| == |c|;
    forall i | 0 <= i < |c| ensures (a + b)[i] == c[i] {
      if i >= |a| {
        assert (a + b)[i] == b[i - |a|];
      }
    }
  }

  /**
   * `search`: the procedure's ids for the built call, paged. A negative offset
   * fails first, then a negative limit; otherwise the result is as long as the
   * page can be (at most `take` ids), each the procedure's id at `skip + i`.
   */
  function SearchIds(query: SearchQuery, filters: Option<SearchFilters>, projectIds: Option<seq<string>>,
                     searchWorkflowData: ProcedureCall -> seq<string>): (r: Result<seq<string>, SearchError>)
    ensures query.skip < 0 ==> r == Failure(NegativeOffset)
    ensures 0 <= query.skip && query.take < 0 ==> r == Failure(NegativeLimit)
    ensures r.Failure? <==> query.skip < 0 || query.take < 0
    ensures r.Success? ==> var all := searchWorkflowData(BuildCall(query, filters, projectIds));
      |r.value| == (if |all| <= query.skip then 0
                    else if query.take < |all| - query.skip then query.take
                    else |all| - query.skip)
    ensures r.Success? ==> var all := searchWorkflowData(BuildCall(query, filters, projectIds));
      forall i :: 0 <= i < |r.value| ==> query.skip + i < |all| && r.value[i] == all[query.skip + i]
  {
    Page(searchWorkflowData(BuildCall(query, filters, projectIds)), query.take, query.skip)
  }
}
