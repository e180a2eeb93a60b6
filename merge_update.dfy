/**
 * `updateContextById` and `updateRuntimeConfigById`: one raw `UPDATE` that
 * deep-merges a patch into one JSON column of the rows its `WHERE` clause
 * selects, a count of the affected rows, an error when there are none, and
 * otherwise a scoped re-read of the record.
 *
 * The table is a sequence of rows; the database procedure
 * `jsonb_deep_merge_with_options` is a function the repository is given.
 */
module MergeUpdate {
  import opened Wrappers
  import opened JsValues
  import Strings

  /** How the merge procedure combines arrays present in both document and patch. */
  datatype ArrayMergeOption = ById | ByIndex | Concat | Replace

  /** The parameter's default: an omitted option means `by_id`. */
  function EffectiveOption(option: Option<ArrayMergeOption>): (r: ArrayMergeOption)
    ensures option.None? ==> r == ById
    ensures option.Some? ==> r == option.value
  {
    option.GetOr(ById)
  }

  /** A row of the `WorkflowRuntimeData` table; `otherColumns` holds every column the updates do not touch. */
  datatype Row = Row(id: string, projectId: string, context: Value, config: Value, otherColumns: map<string, Value>)

  /** The JSON column an update rewrites. */
  datatype Column = ContextColumn | ConfigColumn

  function ColumnValue(row: Row, column: Column): Value {
    match column
    case ContextColumn => row.context
    case ConfigColumn => row.config
  }

  /** The `projectId` test of a statement's `WHERE` clause. */
  datatype ProjectFilter =
      /** `"projectId" in ($p)` with one bound text parameter; `None` is NULL, which no row satisfies */
    | EqualsParam(param: Option<string>)
      /** `projectId` is one of the listed ids; an absent list admits no row */
    | MemberOf(projectIds: Option<seq<string>>)

  predicate Allows(filter: ProjectFilter, projectId: string) {
    match filter
    case EqualsParam(param) => param == Some(projectId)
    case MemberOf(projectIds) => projectIds.Some? && projectId in projectIds.value
  }

  /**
   * The filter the update statements use: `${projectIds?.join(',')}` binds the
   * comma-joined ids as one text value, so a row passes only when its
   * `projectId` equals that whole string.
   */
  function JoinedFilter(projectIds: Option<seq<string>>): (f: ProjectFilter)
    ensures projectIds.None? ==> forall p :: !Allows(f, p)
    ensures projectIds.Some? && |projectIds.value| == 1 ==>
      forall p :: Allows(f, p) <==> p == projectIds.value[0]
  {
    EqualsParam(if projectIds.Some? then Some(Strings.Join(projectIds.value, ",")) else None)
  }

  /** The row test of the `WHERE` clause: `"id" = $id` and the project filter. */
  predicate Selected(row: Row, id: string, filter: ProjectFilter) {
    row.id == id && Allows(filter, row.projectId)
  }

  /**
   * The `SET` of one row: a selected row gets `column := merge(column, patch, option)`
   * and keeps every other column; any other row is left as it is.
   */
  function RewriteRow(row: Row, id: string, filter: ProjectFilter, column: Column, patch: Value,
                      option: ArrayMergeOption, merge: (Value, Value, ArrayMergeOption) -> Value): (r: Row)
    ensures !Selected(row, id, filter) ==> r == row
    ensures Selected(row, id, filter) ==>
      && r.id == row.id && r.projectId == row.projectId && r.otherColumns == row.otherColumns
      && ColumnValue(r, column) == merge(ColumnValue(row, column), patch, option)
      && (column == ContextColumn ==> r.config == row.config)
      && (column == ConfigColumn ==> r.context == row.context)
  {
    if !Selected(row, id, filter) then row
    else
      var merged := merge(ColumnValue(row, column), patch, option);
      match column
      case ContextColumn => row.(context := merged)
      case ConfigColumn => row.(config := merged)
  }

  /** The table after the `UPDATE`: every row passed through `RewriteRow`. */
  function RewriteRows(rows: seq<Row>, id: string, filter: ProjectFilter, column: Column, patch: Value,
                       option: ArrayMergeOption, merge: (Value, Value, ArrayMergeOption) -> Value): (r: seq<Row>)
    ensures |r| == |rows|
  {
    if rows == [] then []
    else [RewriteRow(rows[0], id, filter, column, patch, option, merge)]
         + RewriteRows(rows[1..], id, filter, column, patch, option, merge)
  }

  /** The number the statement reports: how many rows the `WHERE` clause selects. */
  function AffectedCount(rows: seq<Row>, id: string, filter: ProjectFilter): (n: nat)
    ensures n <= |rows|
  {
    if rows == [] then 0
    else (if Selected(rows[0], id, filter) then 1 else 0) + AffectedCount(rows[1..], id, filter)
  }

  /** `id` is the table's primary key. */
  ghost predicate UniqueIds(rows: seq<Row>) {
    forall i, j :: 0 <= i < j < |rows| ==> rows[i].id != rows[j].id
  }

  datatype Error =
      /** the error `updateContextById` and `updateRuntimeConfigById` throw when no row was updated */
    | NoRowUpdated(id: string)
      /** the failure of the scoped `findById` re-read */
    | NotFound(id: string)

  /**
   * `findById(id, {}, projectIds)`: the first row with that id whose project is
   * one of `projectIds`, or a not-found failure when there is none.
   */
  function ReRead(rows: seq<Row>, id: string, projectIds: Option<seq<string>>): (r: Result<Row, Error>)
    ensures r.Success? ==> r.value in rows && Selected(r.value, id, MemberOf(projectIds))
    ensures r.Failure? ==>
      r == Failure(NotFound(id)) && forall row :: row in rows ==> !Selected(row, id, MemberOf(projectIds))
  {
    if rows == [] then Failure(NotFound(id))
    else if Selected(rows[0], id, MemberOf(projectIds)) then Success(rows[0])
    else ReRead(rows[1..], id, projectIds)
  }

  /** Row `i` of the updated table is row `i` of the old table, rewritten. */
  lemma {:induction false} RewriteRowsAt(rows: seq<Row>, id: string, filter: ProjectFilter, column: Column,
                                         patch: Value, option: ArrayMergeOption,
                                         merge: (Value, Value, ArrayMergeOption) -> Value, i: nat)
    requires i < |rows|
    ensures RewriteRows(rows, id, filter, column, patch, option, merge)[i]
         == RewriteRow(rows[i], id, filter, column, patch, option, merge)
  {
    if i > 0 {
      RewriteRowsAt(rows[1..], id, filter, column, patch, option, merge, i - 1);
    }
  }

  /** The statement affects no row exactly when no row satisfies its `WHERE` clause. */
  lemma {:induction false} AffectedCountZero(rows: seq<Row>, id: string, filter: ProjectFilter)
    ensures AffectedCount(rows, id, filter) == 0 <==> forall row :: row in rows ==> !Selected(row, id, filter)
  {
    if rows != [] {
      AffectedCountZero(rows[1..], id, filter);
      assert rows == [rows[0]] + rows[1..];
    }
  }

  /** When no row is selected the `UPDATE` leaves the table exactly as it was. */
  lemma {:induction false} NoSelectedRowNoChange(rows: seq<Row>, id: string, filter: ProjectFilter, column: Column,
                                                 patch: Value, option: ArrayMergeOption,
                                                 merge: (Value, Value, ArrayMergeOption) -> Value)
    requires AffectedCount(rows, id, filter) == 0
    ensures RewriteRows(rows, id, filter, column, patch, option, merge) == rows
  {
    if rows != [] {
      NoSelectedRowNoChange(rows[1..], id, filter, column, patch, option, merge);
      assert rows == [rows[0]] + rows[1..];
    }
  }

  /** With `id` a primary key, an update by id affects at most one row. */
  lemma {:induction false} AtMostOneAffected(rows: seq<Row>, id: string, filter: ProjectFilter)
    requires UniqueIds(rows)
    ensures AffectedCount(rows, id, filter) <= 1
  {
    if rows != [] {
      assert UniqueIds(rows[1..]) by {
        forall i, j | 0 <= i < j < |rows[1..]| ensures rows[1..][i].id != rows[1..][j].id {
          assert rows[1..][i] == rows[i + 1] && rows[1..][j] == rows[j + 1];
        }
      }
      AtMostOneAffected(rows[1..], id, filter);
      if Selected(rows[0], id, filter) {
        forall row | row in rows[1..] ensures !Selected(row, id, filter) {
          var k :| 0 <= k < |rows[1..]| && rows[1..][k] == row;
          assert rows[k + 1] == row;
        }
        AffectedCountZero(rows[1..], id, filter);
      }
    }
  }

  /** The update never changes an id or a project, so the primary key stays unique. */
  lemma RewriteKeepsKeys(rows: seq<Row>, id: string, filter: ProjectFilter, column: Column, patch: Value,
                         option: ArrayMergeOption, merge: (Value, Value, ArrayMergeOption) -> Value)
    ensures var r := RewriteRows(rows, id, filter, column, patch, option, merge);
            forall i :: 0 <= i < |rows| ==> r[i].id == rows[i].id && r[i].projectId == rows[i].projectId
    ensures UniqueIds(rows) ==> UniqueIds(RewriteRows(rows, id, filter, column, patch, option, merge))
  {
    forall i | 0 <= i < |rows| {
      RewriteRowsAt(rows, id, filter, column, patch, option, merge, i);
    }
  }

  /** In a table with unique ids, the scoped re-read finds the one row carrying the id. */
  lemma {:induction false} ReReadUnique(rows: seq<Row>, id: string, projectIds: Option<seq<string>>, i: nat)
    requires UniqueIds(rows)
    requires i < |rows| && Selected(rows[i], id, MemberOf(projectIds))
    ensures ReRead(rows, id, projectIds) == Success(rows[i])
  {
    if i > 0 {
      assert rows[0].id != rows[i].id;
      assert UniqueIds(rows[1..]) by {
        forall a, b | 0 <= a < b < |rows[1..]| ensures rows[1..][a].id != rows[1..][b].id {
          assert rows[1..][a] == rows[a + 1] && rows[1..][b] == rows[b + 1];
        }
      }
      ReReadUnique(rows[1..], id, projectIds, i - 1);
    }
  }

  /**
   * For a caller with a single project the update returns the row it rewrote:
   * the re-read finds the merged row, with every other column as before.
   */
  lemma SingleProjectUpdateReadsBack(rows: seq<Row>, id: string, project: string, column: Column,
                                     patch: Value, option: ArrayMergeOption,
                                     merge: (Value, Value, ArrayMergeOption) -> Value, i: nat)
    requires UniqueIds(rows)
    requires i < |rows| && rows[i].id == id && rows[i].projectId == project
    ensures var after := RewriteRows(rows, id, JoinedFilter(Some([project])), column, patch, option, merge);
            ReRead(after, id, Some([project]))
              == Success(RewriteRow(rows[i], id, JoinedFilter(Some([project])), column, patch, option, merge))
  {
    var filter := JoinedFilter(Some([project]));
    var after := RewriteRows(rows, id, filter, column, patch, option, merge);
    RewriteKeepsKeys(rows, id, filter, column, patch, option, merge);
    RewriteRowsAt(rows, id, filter, column, patch, option, merge, i);
    ReReadUnique(after, id, Some([project]), i);
  }

  /**
   * With two or more project ids, none of which contains a comma, the joined
   * filter admits no row of any of those projects.
   */
  lemma JoinedFilterRejectsListedProjects(projectIds: seq<string>, project: string)
    requires |projectIds| >= 2
    requires forall p :: p in projectIds ==> ',' !in p
    requires project in projectIds
    ensures !Allows(JoinedFilter(Some(projectIds)), project)
  {
    Strings.JoinHasSeparator(projectIds, ',');
  }

  /**
   * A concrete case: the caller may read row `wf-1` of project `project-a`, yet
   * an update by that caller, authorised for two projects, affects no row.
   */
  lemma MultiProjectUpdateMissesReadableRow()
    ensures var row := Row("wf-1", "project-a", Obj(map[]), Obj(map[]), map[]);
            var projectIds := Some(["project-a", "project-b"]);
            AffectedCount([row], "wf-1", JoinedFilter(projectIds)) == 0
            && ReRead([row], "wf-1", projectIds) == Success(row)
  {
    var row := Row("wf-1", "project-a", Obj(map[]), Obj(map[]), map[]);
    JoinedFilterRejectsListedProjects(["project-a", "project-b"], "project-a");
    assert !Selected(row, "wf-1", JoinedFilter(Some(["project-a", "project-b"])));
  }

  /**
   * The evidently intended project test, the same membership the re-read uses:
   * an update then succeeds exactly when the re-read after it can find the row.
   */
  lemma MembershipUpdateSucceedsIffReadable(rows: seq<Row>, id: string, projectIds: Option<seq<string>>)
    ensures AffectedCount(rows, id, MemberOf(projectIds)) > 0 <==> ReRead(rows, id, projectIds).Success?
  {
    AffectedCountZero(rows, id, MemberOf(projectIds));
  }

  /** For a single project, the statement's joined filter and the membership filter agree. */
  lemma SingleProjectFiltersAgree(project: string, projectId: string)
    ensures Allows(JoinedFilter(Some([project])), projectId) <==> Allows(MemberOf(Some([project])), projectId)
  {
  }

  /**
   * The repository, with the `WorkflowRuntimeData` table as its state and the
   * database's `jsonb_deep_merge_with_options` procedure.
   */
  class WorkflowRuntimeDataRepository {
    var rows: seq<Row>
    const deepMerge: (Value, Value, ArrayMergeOption) -> Value

    ghost predicate Valid()
      reads this
    {
      UniqueIds(rows)
    }

    constructor (initial: seq<Row>, deepMerge: (Value, Value, ArrayMergeOption) -> Value)
      requires UniqueIds(initial)
      ensures Valid()
      ensures rows == initial && this.deepMerge == deepMerge
    {
      rows := initial;
      this.deepMerge := deepMerge;
    }

    /**
     * The shared body of the two updates: run the `UPDATE` on `column`, throw
     * when it affected no row, otherwise return the scoped re-read.
     */
    method UpdateColumnById(column: Column, id: string, patch: Value, option: Option<ArrayMergeOption>,
                            projectIds: Option<seq<string>>) returns (result: Result<Row, Error>)
      requires Valid()
      modifies this
      ensures Valid()
      ensures rows == RewriteRows(old(rows), id, JoinedFilter(projectIds), column, patch,
                                  EffectiveOption(option), deepMerge)
      ensures AffectedCount(old(rows), id, JoinedFilter(projectIds)) <= 1
      ensures AffectedCount(old(rows), id, JoinedFilter(projectIds)) == 0 ==>
        result == Failure(NoRowUpdated(id)) && rows == old(rows)
      ensures AffectedCount(old(rows), id, JoinedFilter(projectIds)) > 0 ==>
        result == ReRead(rows, id, projectIds)
    {
      var filter := JoinedFilter(projectIds);
      var affectedRows := AffectedCount(rows, id, filter);
      AtMostOneAffected(rows, id, filter);
      RewriteKeepsKeys(rows, id, filter, column, patch, EffectiveOption(option), deepMerge);
      if affectedRows == 0 {
        NoSelectedRowNoChange(rows, id, filter, column, patch, EffectiveOption(option), deepMerge);
      }
      rows := RewriteRows(rows, id, filter, column, patch, EffectiveOption(option), deepMerge);
      if affectedRows == 0 {
        return Failure(NoRowUpdated(id));
      }
      result := ReRead(rows, id, projectIds);
    }

    /** `updateRuntimeConfigById`: deep-merge `newConfig` into `config`. */
    method UpdateRuntimeConfigById(id: string, newConfig: Value, option: Option<ArrayMergeOption>,
                                   projectIds: Option<seq<string>>) returns (result: Result<Row, Error>)
      requires Valid()
      modifies this
      ensures Valid()
      ensures rows == RewriteRows(old(rows), id, JoinedFilter(projectIds), ConfigColumn, newConfig,
                                  EffectiveOption(option), deepMerge)
      ensures AffectedCount(old(rows), id, JoinedFilter(projectIds)) <= 1
      ensures forall i :: 0 <= i < |rows| ==>
        rows[i].context == old(rows)[i].context && rows[i].otherColumns == old(rows)[i].otherColumns
      ensures AffectedCount(old(rows), id, JoinedFilter(projectIds)) == 0 ==>
        result == Failure(NoRowUpdated(id)) && rows == old(rows)
      ensures AffectedCount(old(rows), id, JoinedFilter(projectIds)) > 0 ==>
        result == ReRead(rows, id, projectIds)
    {
      ghost var before := rows;
      result := UpdateColumnById(ConfigColumn, id, newConfig, option, projectIds);
      forall i | 0 <= i < |rows|
        ensures rows[i].context == before[i].context && rows[i].otherColumns == before[i].otherColumns
      {
        RewriteRowsAt(before, id, JoinedFilter(projectIds), ConfigColumn, newConfig,
                      EffectiveOption(option), deepMerge, i);
      }
    }

    /** `updateContextById`: deep-merge `newContext` into `context`. */
    method UpdateContextById(id: string, newContext: Value, option: Option<ArrayMergeOption>,
                             projectIds: Option<seq<string>>) returns (result: Result<Row, Error>)
      requires Valid()
      modifies this
      ensures Valid()
      ensures rows == RewriteRows(old(rows), id, JoinedFilter(projectIds), ContextColumn, newContext,
                                  EffectiveOption(option), deepMerge)
      ensures AffectedCount(old(rows), id, JoinedFilter(projectIds)) <= 1
      ensures forall i :: 0 <= i < |rows| ==>
        rows[i].config == old(rows)[i].config && rows[i].otherColumns == old(rows)[i].otherColumns
      ensures AffectedCount(old(rows), id, JoinedFilter(projectIds)) == 0 ==>
        result == Failure(NoRowUpdated(id)) && rows == old(rows)
      ensures AffectedCount(old(rows), id, JoinedFilter(projectIds)) > 0 ==>
        result == ReRead(rows, id, projectIds)
    {
      ghost var before := rows;
      result := UpdateColumnById(ContextColumn, id, newContext, option, projectIds);
      forall i | 0 <= i < |rows|
        ensures rows[i].config == before[i].config && rows[i].otherColumns == before[i].otherColumns
      {
        RewriteRowsAt(before, id, JoinedFilter(projectIds), ContextColumn, newContext,
                      EffectiveOption(option), deepMerge, i);
      }
    }
  }
}
