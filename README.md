# Workflow runtime data repository: create normalisation, JSON merge updates, search arguments

This project models the logic of `WorkflowRuntimeDataRepository`, the persistence layer of the
workflows service. The layer stores workflow runtime records. Each record belongs to one project
(tenant) and carries two JSON documents, `context` and `config`. Three parts of the repository
contain logic of their own; everything else hands query descriptors to the ORM and to the
project-scoping service.

- **Create** (`create.dfy`, with `js_values.dfy`). `create` passes the caller's arguments to the
  ORM with `data.context` rebuilt: the supplied context is spread into a fresh object (a missing
  or `null` context counts as `{}`), and its `documents` entry is replaced by
  `assignIdToDocuments` of the supplied documents. `assignIdToDocuments` is a parameter. JavaScript
  values, optional-chaining reads, `??` and object spread are modelled in `JsValues`. This
  includes the index keys that spreading an array or a string yields.
- **Merge updates** (`merge_update.dfy`). `updateContextById` and `updateRuntimeConfigById` are
  methods of the class `WorkflowRuntimeDataRepository`. Its state is the table, a sequence of
  rows. Each method runs one `UPDATE` that sets the column to
  `jsonb_deep_merge_with_options(column, patch, option)` on every row the `WHERE` clause selects.
  It then throws when no row was affected, or re-reads the record by id. The merge procedure is a
  function the repository is given. An omitted option means `by_id`. The `WHERE` clause binds
  `projectIds?.join(',')` as a single text parameter. A row is therefore selected only when its
  `projectId` equals the whole comma-joined string, and never when the list is absent (NULL).
  The model keeps this behaviour (see Findings).
- **Search** (`search.dfy`, with `strings.dfy`). `search` builds the ten arguments of the
  `search_workflow_data` procedure:
  - it splits `orderBy` on `':'`;
  - it partitions the assignee filter into the non-null ids and an "include unassigned" flag;
  - it turns every optional list into an array argument, empty when the list is absent.

  It then applies `LIMIT take OFFSET skip` to the ids the procedure returns. The procedure is a
  function the search is given. The `status` entry of `filters` is accepted but never used.

## Model

| member | source | states |
|---|---|---|
| `Create.NormalisedContext` | services/workflows-service/src/workflow/workflow-runtime-data.repository.ts:30-33 | the new context is an object; its `documents` entry is `assignIdToDocuments(context?.documents)`; every other key is present iff the supplied context spreads it, with the same value; an object context keeps all its entries but `documents`; a missing or `null` context yields `{documents: …}` only |
| `Create.CreateArgs` | services/workflows-service/src/workflow/workflow-runtime-data.repository.ts:23-36 | the ORM argument has the caller's keys plus `data`, every argument but `data` unchanged; `data` has the supplied data's keys plus `context`, every field but `context` unchanged, and `context` normalised |
| `JsValues.Get` | services/workflows-service/src/workflow/workflow-runtime-data.repository.ts:31-32 | `x?.key` yields an object's own entry under that key, and `undefined` for a missing key or any non-object value (so `context?.documents` of a missing context is `undefined`) |
| `JsValues.Coalesce` | services/workflows-service/src/workflow/workflow-runtime-data.repository.ts:31 | `x ?? {}` replaces `undefined` and `null` by the fallback and keeps every other value |
| `JsValues.Spread` | services/workflows-service/src/workflow/workflow-runtime-data.repository.ts:27-31 | `{...v}` copies an object's entries as they are, yields exactly the index keys for an array or a string (element values by `IndexedEntriesLookup`), and copies nothing from any other value |
| `JsValues.IndexedEntriesLookup` | services/workflows-service/src/workflow/workflow-runtime-data.repository.ts:31 | spreading an array-valued (or string-valued) context copies element i under its index key, each key holding its own element |
| `JsValues.IndexedEntriesKeys` | services/workflows-service/src/workflow/workflow-runtime-data.repository.ts:31 | the keys such a spread produces are exactly the index keys of the elements |
| `JsValues.IndexKeyInjective` | services/workflows-service/src/workflow/workflow-runtime-data.repository.ts:31 | distinct element indices have distinct property keys, so no element of a spread array is overwritten |
| `MergeUpdate.EffectiveOption` | services/workflows-service/src/workflow/workflow-runtime-data.repository.ts:83 | an omitted array-merge option is `by_id`; a supplied one is used as given |
| `MergeUpdate.JoinedFilter` | services/workflows-service/src/workflow/workflow-runtime-data.repository.ts:88-90 | with the project list absent no row passes the project test; with one project id a row passes iff its `projectId` equals that id |
| `MergeUpdate.AffectedCount` | services/workflows-service/src/workflow/workflow-runtime-data.repository.ts:87-88 | the count `$executeRaw` reports never exceeds the table size; `AffectedCountZero` shows it is zero iff no row is selected, and `AtMostOneAffected` that it is at most one with unique ids |
| `MergeUpdate.RewriteRow` | services/workflows-service/src/workflow/workflow-runtime-data.repository.ts:108 | a row the `WHERE` clause does not select is unchanged; a selected row gets the merged column and keeps its id, project, other JSON column and all other columns |
| `MergeUpdate.RewriteRows` | services/workflows-service/src/workflow/workflow-runtime-data.repository.ts:88 | the `UPDATE` keeps the number of rows in the table |
| `MergeUpdate.ReRead` | services/workflows-service/src/workflow/workflow-runtime-data.repository.ts:56-64 | the re-read returns a row of the table with that id whose project is one of the caller's, or fails with not-found exactly when there is none |
| `MergeUpdate.RewriteRowsAt` | services/workflows-service/src/workflow/workflow-runtime-data.repository.ts:108-110 | row i after the `UPDATE` is row i before it, rewritten by the row-level `SET` |
| `MergeUpdate.AffectedCountZero` | services/workflows-service/src/workflow/workflow-runtime-data.repository.ts:93 | the reported count is zero iff no row satisfies the `WHERE` clause |
| `MergeUpdate.NoSelectedRowNoChange` | services/workflows-service/src/workflow/workflow-runtime-data.repository.ts:113-115 | an `UPDATE` that affects no row leaves the table identical, whatever the option and patch |
| `MergeUpdate.AtMostOneAffected` | services/workflows-service/src/workflow/workflow-runtime-data.repository.ts:108-110 | with `id` the primary key, an update by id affects at most one row |
| `MergeUpdate.RewriteKeepsKeys` | services/workflows-service/src/workflow/workflow-runtime-data.repository.ts:108 | the update changes no row's id or project, so ids stay unique |
| `MergeUpdate.ReReadUnique` | services/workflows-service/src/workflow/workflow-runtime-data.repository.ts:117 | in a table with unique ids the scoped re-read returns the one row carrying the id |
| `MergeUpdate.SingleProjectUpdateReadsBack` | services/workflows-service/src/workflow/workflow-runtime-data.repository.ts:106-117 | for a caller with one project, the record returned after a successful update is the row the `UPDATE` rewrote, with the merged column |
| `MergeUpdate.JoinedFilterRejectsListedProjects` | services/workflows-service/src/workflow/workflow-runtime-data.repository.ts:108-110 | with two or more comma-free project ids, the joined filter admits a row of none of those projects |
| `MergeUpdate.MultiProjectUpdateMissesReadableRow` | services/workflows-service/src/workflow/workflow-runtime-data.repository.ts:108-110 | a row the two-project caller can read is not updated: the affected count is zero |
| `MergeUpdate.MembershipUpdateSucceedsIffReadable` | services/workflows-service/src/workflow/workflow-runtime-data.repository.ts:108-117 | with the intended membership test, an update affects a row iff the re-read can find the record |
| `MergeUpdate.SingleProjectFiltersAgree` | services/workflows-service/src/workflow/workflow-runtime-data.repository.ts:108-110 | for a single project id the joined filter and the membership filter admit the same projects |
| `MergeUpdate.WorkflowRuntimeDataRepository.constructor` | services/workflows-service/src/workflow/workflow-runtime-data.repository.ts:17-21 | the repository starts over a table whose ids are unique, with the given merge procedure |
| `MergeUpdate.WorkflowRuntimeDataRepository.UpdateColumnById` | services/workflows-service/src/workflow/workflow-runtime-data.repository.ts:86-97 | the table becomes the rewritten table; at most one row is affected; with none the result is the "no workflowRuntimeData found" error and the table is unchanged; otherwise the result is the scoped re-read of the new table |
| `MergeUpdate.WorkflowRuntimeDataRepository.UpdateRuntimeConfigById` | services/workflows-service/src/workflow/workflow-runtime-data.repository.ts:80-98 | the table becomes the rewritten table with `config` merged on the selected row; at most one row is affected; every row's `context` and other columns are unchanged; with no row affected the result is the "no workflowRuntimeData found" error and the table is unchanged, otherwise the scoped re-read of the new table |
| `MergeUpdate.WorkflowRuntimeDataRepository.UpdateContextById` | services/workflows-service/src/workflow/workflow-runtime-data.repository.ts:100-118 | the table becomes the rewritten table with `context` merged on the selected row; at most one row is affected; every row's `config` and other columns are unchanged; with no row affected the result is the "no workflowRuntimeData found" error and the table is unchanged, otherwise the scoped re-read of the new table |
| `Strings.Join` | services/workflows-service/src/workflow/workflow-runtime-data.repository.ts:88-90 | `join(',')` of no ids is the empty string, of one id is that id, and otherwise starts with the first id followed by the separator; `JoinSplit` and `SplitJoin` make it the inverse of `Split`, and `JoinHasSeparator` puts the comma into any join of two or more ids |
| `Strings.Split` | services/workflows-service/src/workflow/workflow-runtime-data.repository.ts:235 | `split(':')` yields at least one segment, none containing the separator; the first is the text before the first separator |
| `Strings.SplitSegmentCount` | services/workflows-service/src/workflow/workflow-runtime-data.repository.ts:235 | there is one more segment than there are separators, so a second segment (the direction) exists iff `orderBy` holds a ':' |
| `Strings.JoinSplit` | services/workflows-service/src/workflow/workflow-runtime-data.repository.ts:235 | re-joining the segments with the separator gives back the string |
| `Strings.SplitJoin` | services/workflows-service/src/workflow/workflow-runtime-data.repository.ts:235 | splitting a join of separator-free parts gives back the parts |
| `Strings.SplitAtFirst` | services/workflows-service/src/workflow/workflow-runtime-data.repository.ts:235 | the segments after the first are the split of the text after the first separator |
| `Strings.JoinHasSeparator` | services/workflows-service/src/workflow/workflow-runtime-data.repository.ts:88-90 | joining two or more ids puts a comma into the bound parameter |
| `Search.NonNullIds` | services/workflows-service/src/workflow/workflow-runtime-data.repository.ts:238 | the filtered list is shorter by the number of `null`s, and an id occurs in it iff it was supplied |
| `Search.NonNullIdsAppend` | services/workflows-service/src/workflow/workflow-runtime-data.repository.ts:238 | the filter distributes over concatenation, so the ids keep their original order |
| `Search.NonNullIdsOfConcreteList` | services/workflows-service/src/workflow/workflow-runtime-data.repository.ts:238 | a list without `null` passes through element by element |
| `Search.AssigneePartition` | services/workflows-service/src/workflow/workflow-runtime-data.repository.ts:237-240 | the ids are the non-null entries of the assignee filter, or none when it is absent; "include unassigned" holds iff `null` occurs in the filter |
| `Search.ArrayArgument` | services/workflows-service/src/workflow/workflow-runtime-data.repository.ts:246-248 | an array argument is the supplied list, or empty when the list is absent |
| `Search.BuildCall` | services/workflows-service/src/workflow/workflow-runtime-data.repository.ts:235-274 | search term and entity type pass through; the order column is the text before the first ':'; the direction is present iff there is a ':' and is the text up to the next ':'; the definition-id, status, project-id and case-status arrays are the supplied lists or empty; the assignee arguments are the partition |
| `Search.StatusFilterIgnored` | services/workflows-service/src/workflow/workflow-runtime-data.repository.ts:227-231 | the declared `status` filter has no effect on the call |
| `Search.Page` | services/workflows-service/src/workflow/workflow-runtime-data.repository.ts:276 | a negative offset fails, then a negative limit; otherwise the page holds the ids from position `skip`, at most `take` of them, in order |
| `Search.PagesConcatenate` | services/workflows-service/src/workflow/workflow-runtime-data.repository.ts:276 | two consecutive pages together are the page spanning both |
| `Search.SearchIds` | services/workflows-service/src/workflow/workflow-runtime-data.repository.ts:213-280 | a negative `skip` fails with the offset error, then a negative `take` with the limit error, and these are the only failures; otherwise the result holds as many ids as the page can hold (none when `skip` is past the end, else the smaller of `take` and what remains), the i-th being the procedure's id at position `skip + i` |

## Findings

| source | as written | input that shows it | evidently intended | confidence | as-written member | corrected member |
|---|---|---|---|---|---|---|
| services/workflows-service/src/workflow/workflow-runtime-data.repository.ts:88-90 | `"projectId" in (${projectIds?.join(',')})` binds the joined ids as one text value, so the test is equality with `"a,b"` | a caller authorised for `project-a` and `project-b` updates row `wf-1` of `project-a`: no row is affected and the update throws, although the re-read would find the row | `projectId` is one of the caller's project ids, the test the re-read applies | high for the binding (a template value is one parameter); not executed | `MergeUpdate.MultiProjectUpdateMissesReadableRow` | `MergeUpdate.MembershipUpdateSucceedsIffReadable` |
| services/workflows-service/src/workflow/workflow-runtime-data.repository.ts:108-110 | the same clause in `updateContextById` | the same input, updating the context | the same membership test | high for the binding; not executed | `MergeUpdate.JoinedFilterRejectsListedProjects` | `MergeUpdate.MembershipUpdateSucceedsIffReadable` |

The class methods keep the statements' behaviour as written (`JoinedFilter`). The membership filter
`MemberOf` is the intended test. The re-read uses it, and the corrected lemma is proved with it.
For one project id the two tests agree (`SingleProjectFiltersAgree`).

## Left out

- `findMany`, `findOne`, `findById` (other than as the re-read after an update), `count`, `groupBy`, `deleteById`, `findContext`, `getEntityTypeAndId`, `findActiveWorkflowByEntity`, `findLastActive`: they only pass descriptors through the project-scoping service and the ORM. Neither is part of this model.
- `updateById` and `findByIdUnscoped`: single ORM calls with no logic of their own.
- `MergeUpdate.ReRead`: its scoping (the project is one of the listed ids; an absent list admits nothing) is the tenant-scoping contract of the project-scoping service. That service is not part of this model. Prisma's `findFirstOrThrow` is taken to return the first matching row in table order.
- The bodies of `jsonb_deep_merge_with_options`, `search_workflow_data` and `assignIdToDocuments` are not modelled. They are two database procedures and a helper that is not part of this model. Each is a function parameter, so nothing is claimed about the `by_id`, `by_index`, `concat` or `replace` strategies.
- `JSON.stringify(...)::jsonb` is taken as the identity on the patch. Dropping `undefined` entries when a document is serialised is not modelled either.
- `Create.CreateArgs`: the model stops at the argument handed to the ORM's `create`. The insertion, generated ids and column defaults belong to the ORM and the database.
- `JsValues.Value`: numbers are integers, and the insertion order of object keys is not kept (objects are maps).
- `JsValues.Spread`: a string is spread one key per character. JavaScript spreads by UTF-16 code unit, so characters outside the Basic Multilingual Plane are not split into surrogate halves here.
- `JsValues.Get`: it reads only an object's own entries. It is used only with the keys `data`, `context` and `documents`, which no string or array inherits.
- `Search.SearchIds`: `take` and `skip` are integers. A fractional number bound to `LIMIT`/`OFFSET` is not modelled. The procedure's rows are modelled as their ids, which is all that `SELECT id` returns.
- `Search.SearchFilters`: an `undefined` entry in the assignee list (the type allows only strings and `null`) is not modelled.
- Asynchronous execution, connection pooling and the atomicity of the single `UPDATE` are database concurrency concerns, not sequential logic.
- services/workflows-service/src/common/utils/request-project-context.ts: a static getter that reads `this.request` on the class, where no such static field exists. It always yields `undefined` and holds no logic to model.
