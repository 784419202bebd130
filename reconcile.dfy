/**
 * The per-event reconciliation of a BigQueryTable custom resource: from one
 * watch event, the re-fetched resource, the process environment and the
 * table's observed existence, decide which BigQuery mutation, if any, brings
 * the table in line with the resource.
 *
 * Every outside call is an input: the result of the cluster `Get`, the
 * environment, the result of `TableExists`. A `Run` records the read-only
 * calls the controller issues, in order, and the single outcome it reaches:
 * an error, nothing to do, or one mutation (create or delete) of one table.
 */
module Controller {
  import opened Unstructured

  /** The kind a watch event carries; the controller only logs it. */
  datatype EventType = Added | Modified | Deleted | Bookmark | Error

  /** The event's object: either an unstructured object, or some other
      object type, identified by its type name. */
  datatype EventObject = AsUnstructured(content: Content) | OtherType(typeName: string)

  datatype Event = Event(kind: EventType, obj: EventObject)

  /** An error value returned by the cluster API or the BigQuery client. */
  datatype CallError = CallError(message: string)

  /** What the cluster `Get` of the resource returned. */
  datatype GetResult = Found(current: Content) | NotFound | GetFailed(err: CallError)

  /** What `bigquery.TableExists` returned. */
  datatype ExistsResult = ExistsOk(present: bool) | ExistsFailed(err: CallError)

  /** A BigQuery table, addressed by project, dataset and table name. */
  datatype TableRef = TableRef(project: string, dataset: string, tableName: string)

  datatype ReconcileError =
    | UnexpectedObjectType(typeName: string)  // the event object is not unstructured
    | ProjectNotSpecified                     // neither spec.project nor GCP_PROJECT_ID
    | Propagated(err: CallError)              // an outside call's error, returned unchanged

  datatype Outcome = Failed(error: ReconcileError) | NoOp | Create(table: TableRef) | Delete(table: TableRef)
  {
    predicate Mutates() { Create? || Delete? }
  }

  /** The read-only calls reconcile makes before it decides. */
  datatype Query = GetCall(namespace: string, name: string) | TableExistsCall(table: TableRef)

  datatype Run = Run(queries: seq<Query>, outcome: Outcome)

  /** The environment variable holding the fallback project. */
  const ProjectEnvVar := "GCP_PROJECT_ID"

  /** `os.Getenv`: the variable's value when it is set, the empty string
      when it is not. */
  function Getenv(env: map<string, string>, key: string): (value: string)
    ensures key in env ==> value == env[key]
    ensures key !in env ==> value == ""
  {
    if key in env then env[key] else ""
  }

  /** The three spec fields, as `NestedString` reads them. */
  function SpecProject(current: Content): (project: string)
    ensures project == StoredString(current, "spec", "project")
  {
    ChildString(current, "spec", "project");
    NestedString(current, ["spec", "project"])
  }

  function SpecDataset(current: Content): (dataset: string)
    ensures dataset == StoredString(current, "spec", "dataset")
  {
    ChildString(current, "spec", "dataset");
    NestedString(current, ["spec", "dataset"])
  }

  function SpecTableName(current: Content): (tableName: string)
    ensures tableName == StoredString(current, "spec", "tableName")
  {
    ChildString(current, "spec", "tableName");
    NestedString(current, ["spec", "tableName"])
  }

  /** The table the resource asks for, after defaulting: the table name falls
      back to the resource's name and the project to GCP_PROJECT_ID; None
      when no project can be found. The dataset is taken as it is, even
      empty. */
  function ResolveTable(current: Content, name: string, env: map<string, string>): (r: Option<TableRef>)
    ensures r.None? <==> SpecProject(current) == "" && Getenv(env, ProjectEnvVar) == ""
    ensures r.Some? ==> r.value.project != ""
    ensures r.Some? && SpecProject(current) != "" ==> r.value.project == SpecProject(current)
    ensures r.Some? && SpecProject(current) == "" ==> r.value.project == Getenv(env, ProjectEnvVar)
    ensures r.Some? ==> r.value.dataset == SpecDataset(current)
    ensures r.Some? && SpecTableName(current) != "" ==> r.value.tableName == SpecTableName(current)
    ensures r.Some? && SpecTableName(current) == "" ==> r.value.tableName == name
  {
    var tableName := if SpecTableName(current) == "" then name else SpecTableName(current);
    var project := if SpecProject(current) == "" then Getenv(env, ProjectEnvVar) else SpecProject(current);
    if project == "" then None else Some(TableRef(project, SpecDataset(current), tableName))
  }

  /** The three-way comparison of desired and actual existence. */
  function Decide(actualExists: bool, desiredExists: bool, table: TableRef): (o: Outcome)
    ensures o == NoOp <==> desiredExists == actualExists
    ensures o == Create(table) <==> desiredExists && !actualExists
    ensures o == Delete(table) <==> !desiredExists && actualExists
    ensures o.NoOp? || o == Create(table) || o == Delete(table)
  {
    if desiredExists == actualExists then NoOp
    else if desiredExists then Create(table)
    else Delete(table)
  }

  /** One call of reconcile. `get` answers the Get of the event object's
      namespace and name, `existence` answers TableExists of the resolved table;
      each is consulted only if the run gets that far. */
  function Reconcile(event: Event, get: GetResult, env: map<string, string>,
                     existence: ExistsResult, desiredExists: bool): (run: Run)
    // Not an unstructured object: an error, and no call at all.
    ensures event.obj.OtherType? ==>
              run == Run([], Failed(UnexpectedObjectType(event.obj.typeName)))
    // Otherwise the first call is the Get of the object's own identity.
    ensures event.obj.AsUnstructured? ==>
              |run.queries| >= 1 &&
              run.queries[0] == GetCall(GetNamespace(event.obj.content), GetName(event.obj.content))
    // The resource is gone: nothing to do, and nothing more is called.
    ensures event.obj.AsUnstructured? && get.NotFound? ==> run.outcome == NoOp && |run.queries| == 1
    // Any other Get error is returned unchanged, and nothing more is called.
    ensures event.obj.AsUnstructured? && get.GetFailed? ==>
              run.outcome == Failed(Propagated(get.err)) && |run.queries| == 1
    // No project anywhere: an error before the existence check.
    ensures event.obj.AsUnstructured? && get.Found? &&
            SpecProject(get.current) == "" && Getenv(env, ProjectEnvVar) == "" ==>
              run.outcome == Failed(ProjectNotSpecified) && |run.queries| == 1
    // The existence check is made of the resolved table, and only of it
    // (a consequence of the other clauses, stated for the reader).
    ensures forall i :: 0 <= i < |run.queries| && run.queries[i].TableExistsCall? ==>
              i == 1 && event.obj.AsUnstructured? && get.Found? &&
              ResolveTable(get.current, GetName(event.obj.content), env) == Some(run.queries[i].table)
    // A failed existence check is returned unchanged.
    ensures event.obj.AsUnstructured? && get.Found? && existence.ExistsFailed? &&
            ResolveTable(get.current, GetName(event.obj.content), env).Some? ==>
              run.outcome == Failed(Propagated(existence.err))
    // A mutation is chosen only when every call succeeded and existence
    // differs from the desire, and it targets the table that was checked
    // (this clause and the next two follow from the others as well).
    ensures run.outcome.Mutates() ==>
              event.obj.AsUnstructured? && get.Found? && existence.ExistsOk? &&
              existence.present != desiredExists &&
              run.queries == [GetCall(GetNamespace(event.obj.content), GetName(event.obj.content)),
                              TableExistsCall(run.outcome.table)] &&
              ResolveTable(get.current, GetName(event.obj.content), env) == Some(run.outcome.table)
    ensures run.outcome.Create? ==> desiredExists
    ensures run.outcome.Delete? ==> !desiredExists
    // Once the resource is found and its table resolves, that table is
    // checked, and a successful check decides the outcome by `Decide`.
    ensures event.obj.AsUnstructured? && get.Found? ==>
              var t := ResolveTable(get.current, GetName(event.obj.content), env);
              t.Some? ==>
                run.queries == [GetCall(GetNamespace(event.obj.content), GetName(event.obj.content)),
                                TableExistsCall(t.value)] &&
                (existence.ExistsOk? ==> run.outcome == Decide(existence.present, desiredExists, t.value))
    // Once the table is checked and found as desired, nothing is done
    // (a consequence of the clause above and of `Decide`).
    ensures event.obj.AsUnstructured? && get.Found? && existence == ExistsOk(desiredExists) &&
            ResolveTable(get.current, GetName(event.obj.content), env).Some? ==>
              run.outcome == NoOp
  {
    match event.obj
    case OtherType(typeName) => Run([], Failed(UnexpectedObjectType(typeName)))
    case AsUnstructured(obj) =>
      var name := GetName(obj);
      var getCall := GetCall(GetNamespace(obj), name);
      match get
      case NotFound => Run([getCall], NoOp)
      case GetFailed(err) => Run([getCall], Failed(Propagated(err)))
      case Found(current) =>
        match ResolveTable(current, name, env)
        case None => Run([getCall], Failed(ProjectNotSpecified))
        case Some(table) =>
          var queries := [getCall, TableExistsCall(table)];
          match existence
          case ExistsFailed(err) => Run(queries, Failed(Propagated(err)))
          case ExistsOk(actualExists) => Run(queries, Decide(actualExists, desiredExists, table))
  }

  /** What reconcile returns once the outcome is known: nil for NoOp, the
      error for a failure, and for a mutation whatever CreateTable or
      DeleteTable returned (`mutationError`), unchanged. */
  function ReturnValue(outcome: Outcome, mutationError: Option<CallError>): (r: Option<ReconcileError>)
    ensures r.None? <==> outcome.NoOp? || (outcome.Mutates() && mutationError.None?)
    ensures outcome.Failed? ==> r == Some(outcome.error)
    ensures outcome.Mutates() && mutationError.Some? ==> r == Some(Propagated(mutationError.value))
  {
    match outcome
    case Failed(e) => Some(e)
    case NoOp => None
    case _ => if mutationError.Some? then Some(Propagated(mutationError.value)) else None
  }

  /** Whether the table exists after a successful mutation `outcome`,
      starting from `actual`: creating makes it exist, deleting removes it. */
  function ExistsAfter(outcome: Outcome, actual: bool): bool
  {
    match outcome
    case Create(_) => true
    case Delete(_) => false
    case _ => actual
  }

  /** A successful run leaves the table as desired, and reconciling the same
      event again against the same resource, now seeing that table state,
      checks the same table and does nothing. */
  lemma ReconcileIsIdempotent(event: Event, get: GetResult, env: map<string, string>,
                              actual: bool, desiredExists: bool)
    requires !Reconcile(event, get, env, ExistsOk(actual), desiredExists).outcome.Failed?
    ensures var first := Reconcile(event, get, env, ExistsOk(actual), desiredExists);
            var after := ExistsAfter(first.outcome, actual);
            var second := Reconcile(event, get, env, ExistsOk(after), desiredExists);
            (first.outcome.Mutates() || get.Found? ==> after == desiredExists) &&
            second.outcome == NoOp && second.queries == first.queries
  {
  }

  /** The event's kind plays no part in the decision. */
  lemma EventKindIrrelevant(k1: EventType, k2: EventType, obj: EventObject, get: GetResult,
                            env: map<string, string>, existence: ExistsResult, desiredExists: bool)
    ensures Reconcile(Event(k1, obj), get, env, existence, desiredExists)
            == Reconcile(Event(k2, obj), get, env, existence, desiredExists)
  {
  }

  /** Of the event's object only its name and namespace matter: the spec is
      read from the re-fetched resource, never from the event payload. */
  lemma EventPayloadIrrelevant(e1: Event, e2: Event, get: GetResult, env: map<string, string>,
                               existence: ExistsResult, desiredExists: bool)
    requires e1.obj.AsUnstructured? && e2.obj.AsUnstructured?
    requires GetName(e1.obj.content) == GetName(e2.obj.content)
    requires GetNamespace(e1.obj.content) == GetNamespace(e2.obj.content)
    ensures Reconcile(e1, get, env, existence, desiredExists) == Reconcile(e2, get, env, existence, desiredExists)
  {
  }

  /** An explicit spec.project always wins: the environment is then not
      consulted at all. */
  lemma SpecProjectWins(current: Content, name: string, env1: map<string, string>, env2: map<string, string>)
    requires SpecProject(current) != ""
    ensures ResolveTable(current, name, env1) == ResolveTable(current, name, env2)
    ensures ResolveTable(current, name, env1).Some?
  {
  }

  /** A resource without a spec object reads every spec field as empty, so
      it names the table after the resource and takes its project from the
      environment. */
  lemma MissingSpecDefaults(current: Content, name: string, env: map<string, string>)
    requires "spec" !in current || !current["spec"].Object?
    requires Getenv(env, ProjectEnvVar) != ""
    ensures ResolveTable(current, name, env) == Some(TableRef(Getenv(env, ProjectEnvVar), "", name))
  {
  }

  /** A resource `orders` whose spec names only the dataset `sales`, with
      GCP_PROJECT_ID set to `p` and the table absent, is created as
      p.sales.orders after a Get and one existence check. */
  lemma OrdersScenario()
    ensures var event := Event(Added, AsUnstructured(map["metadata" := Object(map["name" := Str("orders"),
                                                                            "namespace" := Str("default")])]));
            var current := map["metadata" := Object(map["name" := Str("orders"), "namespace" := Str("default")]),
                               "spec" := Object(map["dataset" := Str("sales")])];
            Reconcile(event, Found(current), map[ProjectEnvVar := "p"], ExistsOk(false), true)
            == Run([GetCall("default", "orders"), TableExistsCall(TableRef("p", "sales", "orders"))],
                   Create(TableRef("p", "sales", "orders")))
  {
  }

  /** A resource that is gone is never cleaned up here: NotFound ends the
      run with NoOp after the Get, so no existence check and no Delete. */
  lemma NotFoundNeverDeletes(event: Event, env: map<string, string>, existence: ExistsResult, desiredExists: bool)
    requires event.obj.AsUnstructured?
    ensures var run := Reconcile(event, NotFound, env, existence, desiredExists);
            run.outcome == NoOp &&
            run.queries == [GetCall(GetNamespace(event.obj.content), GetName(event.obj.content))]
  {
  }
}
