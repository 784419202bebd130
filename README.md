# BigQueryTable controller: the reconcile decision

This project models the reconciliation step of a Kubernetes controller that
keeps a BigQuery table in line with a `BigQueryTable` custom resource
(group `mahdi.dev`, version `v1`). For every watch event the controller does
these steps in order:

1. It checks that the event object is an unstructured object.
2. It re-fetches the resource by the object's namespace and name.
3. It reads `spec.project`, `spec.dataset` and `spec.tableName`, with two defaults.
4. It asks BigQuery whether the table exists.
5. It picks exactly one outcome: an error, nothing to do, create the table, or delete it.

The model is pure, as the source is: `reconcile` is a chain of early
returns with no loop.

- `unstructured.dfy` (module `Unstructured`) models the content of an
  unstructured object as nested JSON values. It also models the
  `NestedString` / `GetName` / `GetNamespace` lookups the controller reads
  fields with. They yield `""` when a field is missing or is not a string.
  `NestedString` also returns a found flag and an error, which the
  controller ignores; `GetName` and `GetNamespace` return a bare string.
- `reconcile.dfy` (module `Controller`) models `reconcile` as the function
  `Reconcile`. Every outside call is an input:
  - the `Get` result: `Found(current)`, `NotFound`, or `GetFailed(err)`;
  - the environment, as a map (`os.Getenv` is `""` for an unset variable);
  - the `TableExists` result: `ExistsOk(b)` or `ExistsFailed(err)`;
  - the boolean `desiredExists`.

  `Reconcile` returns a `Run`. A `Run` holds the read-only calls issued, in
  order (`GetCall`, `TableExistsCall`), and the single `Outcome`:
  `Failed(error)`, `NoOp`, `Create(table)` or `Delete(table)`. One outcome
  can never hold both a create and a delete.
- `ReturnValue` gives the Go `error` that `reconcile` returns once the
  outcome is known. For a create or delete, that is whatever `CreateTable`
  or `DeleteTable` returned, unchanged.

The source as written does not compile. The model reads it as follows:

- `table` (cmd/controller/main.go:89-91) is the re-fetched object `current`
  (line 78). So the spec always comes from the fresh read, never from the
  event payload.
- `resourceName` (line 94) is `name`, the event object's `metadata.name`
  (line 73).
- `desiredExists` (line 109) is never defined. It is an uninterpreted
  boolean input, not derived from any other field.
- `apierror.IsNotFound` (line 80) comes from the Google API error package,
  not from Kubernetes' `apierrors`. The model takes it as the intended
  classification of a "resource not found" answer to `Get`, and makes
  NotFound its own input case.

The code has no finalizer handling and no deletion-timestamp handling, and it
does not reject an empty `spec.dataset`: an empty dataset is passed on to
BigQuery as it is. A missing project is the only configuration error, and
the model has no other.

On NotFound the code logs that the BigQuery table should be deleted, but it
returns nil without deleting anything (cmd/controller/main.go:80-82). So a
resource that is removed from the cluster leaves its table behind. The model
keeps this behaviour as `NoOp`, and `NotFoundNeverDeletes` states it. A
Deleted event's object still carries the last spec, but the code reads the
spec only from the re-fetched resource, so on NotFound it has computed no
table triple and deletes nothing.

## Model

| member | source | states |
|---|---|---|
| Unstructured.FieldAppend | cmd/controller/main.go:89-91 | A lookup along a field path is the lookup of its prefix followed by the lookup of the rest, starting from wherever the prefix led (by induction on the prefix) |
| Unstructured.ChildString | cmd/controller/main.go:89-91 | `spec.<key>` is the string `<key>` inside the `spec` object, and "" for every key when `spec` is absent or not an object; in closed form it is the string stored at `[parent][key]` in the maps, or "" when either entry is missing or is not an object or a string |
| Unstructured.GetName | cmd/controller/main.go:73 | The resource name is the string stored at metadata.name, or "" when there is none |
| Unstructured.GetNamespace | cmd/controller/main.go:74 | The resource namespace is the string stored at metadata.namespace, or "" when there is none |
| Controller.Getenv | cmd/controller/main.go:98 | An unset variable reads as ""; a set variable reads as the value the environment holds for it |
| Controller.SpecProject | cmd/controller/main.go:89 | spec.project reads as the string stored at spec.project, or "" when it is missing or not a string |
| Controller.SpecDataset | cmd/controller/main.go:90 | spec.dataset reads as the string stored at spec.dataset, or "" when it is missing or not a string |
| Controller.SpecTableName | cmd/controller/main.go:91 | spec.tableName reads as the string stored at spec.tableName, or "" when it is missing or not a string |
| Controller.ResolveTable | cmd/controller/main.go:89-102 | No table resolves iff both spec.project and GCP_PROJECT_ID are empty. Otherwise: the project is spec.project when set, else the environment value, and never empty; the dataset is spec.dataset unchanged; the table name is spec.tableName when set, else the resource name |
| Controller.Decide | cmd/controller/main.go:109-119 | NoOp iff desired equals actual existence; Create of the given table iff desired and absent; Delete of the same table iff not desired and present; nothing else |
| Controller.Reconcile | cmd/controller/main.go:61-120 | A non-unstructured object gives an error and no calls. Otherwise the first call is the Get of the object's namespace and name. NotFound gives NoOp and a Get error is returned unchanged, both with no other call. A missing project is an error before any existence check. Once the resource is found and its table resolves, the calls are exactly the Get and the existence check of that table; a failed check is returned unchanged, and a successful one gives `Decide`'s outcome, so Create of the resolved table iff desired and absent, Delete of it iff undesired and present, NoOp iff in sync. Conversely a create or delete is chosen only after all calls succeeded, and it targets exactly the checked table |
| Controller.ReturnValue | cmd/controller/main.go:109-119 | reconcile returns nil exactly for NoOp and for a create or delete whose backend call succeeded; it returns a failure's own error, and the backend call's error unchanged otherwise |
| Controller.ReconcileIsIdempotent | cmd/controller/main.go:104-112 | After a successful run whose mutation succeeded, the table's existence equals the desire, and reconciling again with that existence checks the same table and yields NoOp |
| Controller.EventKindIrrelevant | cmd/controller/main.go:76-78 | The event's kind (Added, Modified, Deleted, ...) never changes the run: the kind is only logged |
| Controller.EventPayloadIrrelevant | cmd/controller/main.go:73-91 | Two unstructured event objects with the same name and namespace yield the same run: only the re-fetched resource feeds the decision |
| Controller.SpecProjectWins | cmd/controller/main.go:97-98 | With spec.project set, the resolved table is the same whatever the environment holds, and resolution succeeds |
| Controller.MissingSpecDefaults | cmd/controller/main.go:89-98 | A resource without a spec object, with GCP_PROJECT_ID set, resolves to the environment project, an empty dataset and the resource's name |
| Controller.NotFoundNeverDeletes | cmd/controller/main.go:78-85 | When the Get reports NotFound the run is the Get alone with outcome NoOp, so there is no existence check and no Delete |
| Controller.OrdersScenario | cmd/controller/main.go:73-116 | Resource `orders` with spec `{dataset: sales}`, GCP_PROJECT_ID `p` and the table absent: Get of default/orders, existence check of p.sales.orders, then Create of p.sales.orders |

## Left out

- `main` (cmd/controller/main.go:23-51) is left out. It builds the kubeconfig path and the dynamic client, defines the resource constant, opens the watch, and panics on failure. All of this is process start-up and I/O.
- The event loop (cmd/controller/main.go:53-57) is left out. It is channel-driven I/O. It prints each per-event error and carries on with the next event, so one failed reconcile never stops the loop.
- `fmt.Printf` logging is left out; nothing in the decision depends on it.
- `bigquery.CreateTable` (pkg/bigquery/client.go:9-34) is left out. It opens a client and creates the table with a fixed two-column schema (`id` string, `created_at` timestamp), and holds no decision logic. Its result enters the model only as `ReturnValue`'s `mutationError`.
- `bigquery.TableExists` and `bigquery.DeleteTable` are left out. Their source is not part of this model; the first is an input (`ExistsResult`) and the second is reached only as the `Delete` outcome and its error.
- The `NotFound` classification (`apierror.IsNotFound`) is left out. The model takes it as given: `NotFound` is its own input case, distinct from every other `Get` error.
- The context passed to `Get` is left out. It is `context.Background()` (cmd/controller/main.go:54), which carries no deadline and no cancellation.
- Controller.ReconcileIsIdempotent: the new existence after a mutation (`ExistsAfter`) assumes that a successful `CreateTable` leaves the table present and a successful `DeleteTable` leaves it absent. The model cannot see that backend behaviour.
