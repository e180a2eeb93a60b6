/**
 * `WorkflowRuntimeDataRepository.create`: the arguments it hands to the ORM.
 * The caller's arguments pass through except `data.context`, whose `documents`
 * entry is replaced by `assignIdToDocuments` of the supplied documents.
 * `assignIdToDocuments` is a helper whose body is not part of this model: it is
 * a parameter here.
 */
module Create {
  import opened JsValues

  /**
   * `{ ...(context ?? {}), documents: assignIdToDocuments(context?.documents) }`.
   * Every entry of the supplied context other than `documents` is kept as it is;
   * `documents` holds the helper's result; a missing context counts as `{}`.
   */
  function NormalisedContext(context: Value, assignIdToDocuments: Value -> Value): (r: Value)
    ensures r.Obj?
    ensures "documents" in r.fields
    ensures r.fields["documents"] == assignIdToDocuments(Get(context, "documents"))
    ensures forall k :: k != "documents" ==> (k in r.fields <==> k in Spread(context))
    ensures forall k :: k != "documents" && k in r.fields ==> r.fields[k] == Spread(context)[k]
    ensures context.Obj? ==>
      r.fields == context.fields["documents" := assignIdToDocuments(Get(context, "documents"))]
    ensures context.Undefined? || context.Null? ==>
      r == Obj(map["documents" := assignIdToDocuments(Undefined)])
  {
    Obj(Spread(Coalesce(context, Obj(map[])))["documents" := assignIdToDocuments(Get(context, "documents"))])
  }

  /**
   * The argument object `create` passes to the ORM's `create`: every top-level
   * argument but `data` unchanged; `data` an object with every field of the
   * supplied `data` but `context` unchanged, and `context` normalised.
   */
  function CreateArgs(args: map<string, Value>, assignIdToDocuments: Value -> Value): (r: map<string, Value>)
    ensures r.Keys == args.Keys + {"data"}
    ensures forall k :: k in args && k != "data" ==> r[k] == args[k]
    ensures r["data"].Obj?
    ensures r["data"].fields.Keys == Spread(Get(Obj(args), "data")).Keys + {"context"}
    ensures forall k :: k in Spread(Get(Obj(args), "data")) && k != "context" ==>
      r["data"].fields[k] == Spread(Get(Obj(args), "data"))[k]
    ensures r["data"].fields["context"]
      == NormalisedContext(Get(Get(Obj(args), "data"), "context"), assignIdToDocuments)
  {
    var data := Get(Obj(args), "data");
    args["data" := Obj(Spread(data)["context" := NormalisedContext(Get(data, "context"), assignIdToDocuments)])]
  }
}
