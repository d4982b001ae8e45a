/** One GraphQL request from its source to its response (graphql/execute.go, ExecuteWithLimits):
    how the guarantees of the parser, the cycle check, the limits, the coercion of variables and
    the executor add up. */
module Requests {
  import opened Prelude
  import opened GraphqlAst
  import opened GraphqlSyntax
  import opened ParserCompleteness
  import opened Coercion
  import opened ExecutionSpec
  import CostLimits
  import Executor
  import ExecutionProperties
  import FragmentCycles
  import Parser

  datatype Schema = Schema(objects: map<nat, ObjectDef>, query: nat, mutation: Option<nat>, inputs: InputSchema, named: map<string, InType>)

  /** The source of the document, as tokens and as a number of bytes, and what comes with it. */
  datatype Request = Request(src: seq<Token>, lexFails: bool, bytes: nat, operationName: string, variables: Variables, root: GoValue)

  datatype Gate = Gate(maxDocumentBytes: int, maxTokens: int, limits: CostLimits.Limits)

  datatype Refusal = TooLarge | Unparsable | NoSuchOperation | FragmentCycle | OverLimit | NoMutationType | BadVariables

  /** A response without data is a refusal; data that is none is an object nulled by bubbling. */
  datatype Response = Rejected(reason: Refusal) | Executed(data: Option<map<string, Out>>, errs: seq<GqlError>)

  /** Without a name there must be exactly one operation; with one, the first of that name runs. */
  ghost predicate Selects(doc: Document, name: string, i: nat) {
    && i < |doc.operations|
    && (name == "" ==> |doc.operations| == 1)
    && (name != "" ==> doc.operations[i].name == name && forall j | 0 <= j < i :: doc.operations[j].name != name)
  }

  method SelectOperation(doc: Document, name: string) returns (r: Option<Operation>, ghost at: nat)
    ensures r.Some? ==> Selects(doc, name, at) && r.value == doc.operations[at]
    ensures r.None? ==> forall i: nat :: !Selects(doc, name, i)
  {
    at := 0;
    if |doc.operations| == 0 {
      return None, at;
    }
    if name == "" {
      if |doc.operations| != 1 {
        return None, at;
      }
      return Some(doc.operations[0]), 0;
    }
    for i := 0 to |doc.operations|
      invariant forall j | 0 <= j < i :: doc.operations[j].name != name
    {
      if doc.operations[i].name == name {
        return Some(doc.operations[i]), i;
      }
    }
    return None, at;
  }

  function RootOf(schema: Schema, op: Operation): Option<nat> {
    if op.kind == Mutation then schema.mutation else Some(schema.query)
  }

  ghost predicate VariablesCoerce(schema: Schema, op: Operation, raw: Variables) {
    forall def | def in op.variables :: !VariableOutcome(schema.inputs, schema.named, def, raw).Refused?
  }

  /** The document that a request's source stands for, if it is within the caps. */
  ghost predicate Written(req: Request, gate: Gate, ds: seq<CDefinition>) {
    && CostLimits.Within(gate.maxDocumentBytes, req.bytes)
    && !req.lexFails && CostLimits.Within(gate.maxTokens, |req.src|)
    && ProperDefinitions(ds) && Render(ds) == req.src
  }

  /** The operation at index i of doc may run for the request. */
  ghost predicate Runs(schema: Schema, req: Request, gate: Gate, doc: Document, i: nat) {
    && Selects(doc, req.operationName, i)
    && Acyclic(doc)
    && CostLimits.Acceptable(gate.limits, doc)
    && RootOf(schema, doc.operations[i]).Some?
    && VariablesCoerce(schema, doc.operations[i], req.variables)
  }

  ghost function EnvOf(schema: Schema, req: Request, resolve: Resolver, doc: Document, op: Operation): Env {
    Env(schema.objects, schema.inputs, StoredVariables(schema.inputs, schema.named, op.variables, req.variables, |op.variables|), doc, resolve, Abandon)
  }

  /** The selected operation, executed from the root. */
  ghost function Meaning(schema: Schema, req: Request, resolve: Resolver, doc: Document, op: Operation): Completed
    requires Acyclic(doc) && RootOf(schema, op).Some?
  {
    ExecuteSet(EnvOf(schema, req, resolve, doc, op), RootOf(schema, op).value, op.selSet, req.root, [], 0)
  }

  lemma SelectsOne(doc: Document, name: string, i: nat, j: nat)
    requires Selects(doc, name, i) && Selects(doc, name, j)
    ensures i == j
  {
  }

  /** A request is refused before any resolver runs, or the operation it selects is executed with
      the meaning ExecutionSpec gives it. Its text, the schema, the gate and the variables it brings
      decide which; what resolvers answer does not. */
  method ExecuteWithLimits(schema: Schema, resolve: Resolver, req: Request, gate: Gate)
    returns (resp: Response, ghost ds: seq<CDefinition>, ghost at: nat, ghost calls: nat)
    ensures resp.Executed? ==> Written(req, gate, ds) && Runs(schema, req, gate, Mean(ds), at)
    ensures resp.Executed? ==>
              var r := Meaning(schema, req, resolve, Mean(ds), Mean(ds).operations[at]);
              && resp.errs == r.errs && calls == r.calls
              && (if r.bubbled then resp.data == None else resp.data.Some? && r.out == ObjectData(resp.data.value))
    ensures resp.Rejected? ==> calls == 0 && !exists tree, i :: Written(req, gate, tree) && Runs(schema, req, gate, Mean(tree), i)
  {
    ds, at, calls := [], 0, 0;
    if gate.maxDocumentBytes > 0 && req.bytes > gate.maxDocumentBytes {
      return Rejected(TooLarge), ds, at, calls;
    }
    var parsed;
    parsed, ds := Parser.ParseDocumentLimited(req.src, req.lexFails, gate.maxTokens);
    if parsed.Failure? {
      return Rejected(Unparsable), ds, at, calls;
    }
    var doc := parsed.value;
    forall tree | Written(req, gate, tree) ensures tree == ds {
      RenderIsInjective(tree, ds);
    }
    var op;
    op, at := SelectOperation(doc, req.operationName);
    if op.None? {
      return Rejected(NoSuchOperation), ds, at, calls;
    }
    forall i: nat | Selects(doc, req.operationName, i) ensures i == at {
      SelectsOne(doc, req.operationName, i, at);
    }
    var cycle := FragmentCycles.DetectFragmentCycles(doc);
    if cycle.Some? {
      return Rejected(FragmentCycle), ds, at, calls;
    }
    var over := CostLimits.Validate(gate.limits, doc);
    if over.Some? {
      return Rejected(OverLimit), ds, at, calls;
    }
    var root := Some(schema.query);
    if op.value.kind == Mutation {
      root := schema.mutation;
      if root.None? {
        return Rejected(NoMutationType), ds, at, calls;
      }
    }
    var vars := CoerceVariables(schema.inputs, schema.named, op.value.variables, req.variables);
    if vars.Failure? {
      return Rejected(BadVariables), ds, at, calls;
    }
    var ex := new Executor.Walk(Env(schema.objects, schema.inputs, vars.value, doc, resolve, Abandon));
    var data, _ := ex.ExecuteSelectionSet(root.value, op.value.selSet, req.root, []);
    calls := ex.calls;
    return Executed(data, ex.errs), ds, at, calls;
  }

  lemma {:induction false} OneOfAll(doc: Document, ops: seq<Operation>, i: nat)
    requires Acyclic(doc) && i < |ops|
    ensures CostLimits.FieldCount(doc, ops[i].selSet) <= CostLimits.TotalFields(doc, ops)
  {
    if i > 0 {
      OneOfAll(doc, ops[1..], i - 1);
    }
  }

  /** The node limit bounds the work: unless a resolver returns a list, a request that runs calls
      at most maxSelectionNodes resolvers, whatever its fragments repeat. */
  lemma NodeLimitBoundsCalls(schema: Schema, resolve: Resolver, req: Request, gate: Gate, doc: Document, i: nat)
    requires Runs(schema, req, gate, doc, i) && gate.limits.maxSelectionNodes > 0
    requires ExecutionProperties.ListFree(EnvOf(schema, req, resolve, doc, doc.operations[i]))
    ensures Meaning(schema, req, resolve, doc, doc.operations[i]).calls <= gate.limits.maxSelectionNodes
  {
    var op := doc.operations[i];
    var env := EnvOf(schema, req, resolve, doc, op);
    OneOfAll(doc, doc.operations, i);
    ExecutionProperties.ExecuteSetCost(env, RootOf(schema, op).value, op.selSet, req.root, [], 0);
  }

  /** Data that comes back respects the schema's non-null types at every depth, and every null
      that does not is explained by an error; when everything is null an error says so too. */
  lemma DataIsExplained(schema: Schema, resolve: Resolver, req: Request, gate: Gate, doc: Document, i: nat)
    requires Runs(schema, req, gate, doc, i)
    ensures var op := doc.operations[i];
            var r := Meaning(schema, req, resolve, doc, op);
            var env := EnvOf(schema, req, resolve, doc, op);
            var id := RootOf(schema, op).value;
            if r.bubbled then r.errs != []
            else r.out.ObjectData? && ExecutionProperties.ObjectExplained(env, id, Flatten(doc, env.Object(id).name, op.selSet), req.root, r.out, [], ExecutionProperties.Evidence(r.errs, 0, r.calls))
  {
    var op := doc.operations[i];
    var env := EnvOf(schema, req, resolve, doc, op);
    ExecutionProperties.ExecuteSetIsExplained(env, RootOf(schema, op).value, op.selSet, req.root, [], 0);
    ExecutionProperties.ExecuteSetIsHonest(env, RootOf(schema, op).value, op.selSet, req.root, [], 0);
  }
}
