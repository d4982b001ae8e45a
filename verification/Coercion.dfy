/** Input coercion: literals, variables and arguments against the schema (graphql/execute.go). */
module Coercion {
  import opened Prelude
  import opened GraphqlAst

  /** Go's any, as far as coercion and completion tell values apart. */
  datatype GoValue =
    | Nil
    | Int64(n: int)
    | Int(n: int)
    | Int32(n: int)
    | Float64(x: real)
    | Float32(x: real)
    | Str(s: string)
    | Bool(b: bool)
    | Slice(elems: seq<GoValue>)
    | Map(entries: map<string, GoValue>)
    | Stringer(text: string)
    | Other(id: nat)

  datatype InType =
    | NonNull(of: InType)
    | ListOf(of: InType)
    | Scalar(name: string)
    | Enum(name: string)
    | InputObject(name: string)
    | NotInput(name: string)

  datatype ArgDef = ArgDef(typ: InType, default: Option<GoValue>)

  type ArgDefs = map<string, ArgDef>

  /** The text conversions of the standard library, left uninterpreted. */
  datatype Text = Text(parseInt: string -> Option<int>, parseFloat: string -> Option<real>, formatInt: int -> string)

  /** Enum members (with the value a resolver sees, if it is not the name) and input objects. */
  datatype InputSchema = InputSchema(
    enums: map<string, map<string, Option<GoValue>>>,
    inputs: map<string, ArgDefs>,
    text: Text)
  {
    function Members(name: string): map<string, Option<GoValue>> {
      if name in enums then enums[name] else map[]
    }

    function Fields(name: string): ArgDefs {
      if name in inputs then inputs[name] else map[]
    }

    /** The Go value of an enum member, if there is such a member. */
    function EnumMember(name: string, member: string): Option<GoValue> {
      if member !in Members(name) then None
      else
        match Members(name)[member]
        case Some(v) => Some(if v == Nil then Str(member) else v)
        case None => Some(Str(member))
    }
  }

  datatype CoercionError = CoercionError

  type Coerced = Result<GoValue, CoercionError>

  const INT64_MIN := -0x8000_0000_0000_0000
  const INT64_MAX := 0x7fff_ffff_ffff_ffff

  function Truncate(x: real): int {
    if x >= 0.0 then x.Floor else -((-x).Floor)
  }

  function CoerceScalar(text: Text, name: string, val: GoValue): Coerced {
    if val == Nil then Success(Nil)
    else if name == "Int" then
      match val
      case Int(n) => Success(Int64(n))
      case Int32(n) => Success(Int64(n))
      case Int64(n) => Success(Int64(n))
      case Float64(x) =>
        if x == x.Floor as real && INT64_MIN <= x.Floor <= INT64_MAX then Success(Int64(x.Floor)) else Failure(CoercionError)
      case Str(s) => (match text.parseInt(s) case Some(n) => Success(Int64(n)) case None => Failure(CoercionError))
      case _ => Failure(CoercionError)
    else if name == "Float" then
      match val
      case Float64(x) => Success(Float64(x))
      case Float32(x) => Success(Float64(x))
      case Int(n) => Success(Float64(n as real))
      case Int64(n) => Success(Float64(n as real))
      case Str(s) => (match text.parseFloat(s) case Some(x) => Success(Float64(x)) case None => Failure(CoercionError))
      case _ => Failure(CoercionError)
    else if name == "String" then
      match val
      case Str(s) => Success(Str(s))
      case Stringer(s) => Success(Str(s))
      case _ => Failure(CoercionError)
    else if name == "Boolean" then
      match val
      case Bool(b) => Success(Bool(b))
      case _ => Failure(CoercionError)
    else if name == "ID" then
      match val
      case Str(s) => Success(Str(s))
      case Int(n) => Success(Str(text.formatInt(n)))
      case Int64(n) => Success(Str(text.formatInt(n)))
      case Float64(x) => Success(Str(text.formatInt(Truncate(x))))
      case _ => Failure(CoercionError)
    else Success(val)
  }

  /** What becomes of one declared field: left out, stored, or refused. */
  datatype FieldOutcome = Omitted | Stored(value: GoValue) | Refused

  function AbsentField(def: ArgDef): FieldOutcome {
    if def.default.Some? && def.default.value != Nil then Stored(def.default.value)
    else if def.typ.NonNull? then Refused
    else Omitted
  }

  function PresentField(r: Coerced): FieldOutcome {
    if r.Success? then Stored(r.value) else Refused
  }

  /** A runtime value (a variable) against a type. */
  function CoerceRuntime(s: InputSchema, t: InType, val: GoValue): Coerced
    decreases val, 1, t
  {
    match t
    case NonNull(of) => if val == Nil then Failure(CoercionError) else CoerceRuntime(s, of, val)
    case ListOf(of) =>
      if val == Nil then Success(Nil)
      else if val.Slice? then
        var elems :- CoerceRuntimeAll(s, of, val.elems);
        Success(Slice(elems))
      else
        var elem :- CoerceRuntime(s, of, val);
        Success(Slice([elem]))
    case Scalar(name) => CoerceScalar(s.text, name, val)
    case Enum(name) =>
      if !val.Str? then Failure(CoercionError)
      else (match s.EnumMember(name, val.s) case Some(v) => Success(v) case None => Failure(CoercionError))
    case InputObject(name) =>
      if val == Nil then Success(Nil)
      else if !val.Map? then Failure(CoercionError)
      else if (exists k | k in val.entries :: k !in s.Fields(name))
           || (exists k | k in s.Fields(name) :: RuntimeField(s, s.Fields(name)[k], k, val).Refused?) then Failure(CoercionError)
      else Success(Map(map k | k in s.Fields(name) && RuntimeField(s, s.Fields(name)[k], k, val).Stored?
                         :: RuntimeField(s, s.Fields(name)[k], k, val).value))
    case NotInput(_) => Success(val)
  }

  function CoerceRuntimeAll(s: InputSchema, t: InType, vals: seq<GoValue>): Result<seq<GoValue>, CoercionError>
    decreases vals, 1, t
  {
    if vals == [] then Success([])
    else
      var first :- CoerceRuntime(s, t, vals[0]);
      var rest :- CoerceRuntimeAll(s, t, vals[1..]);
      Success([first] + rest)
  }

  function RuntimeField(s: InputSchema, def: ArgDef, k: string, val: GoValue): FieldOutcome
    requires val.Map?
    decreases val, 0
  {
    if k in val.entries then PresentField(CoerceRuntime(s, def.typ, val.entries[k])) else AbsentField(def)
  }

  /** A literal as a plain runtime value: the input of a custom scalar. Variables are nil here. */
  function LiteralRuntime(text: Text, v: Value): GoValue {
    match v
    case NullValue => Nil
    case IntValue(t) => (match text.parseInt(t) case Some(n) => Int64(n) case None => Str(t))
    case FloatValue(t) => (match text.parseFloat(t) case Some(x) => Float64(x) case None => Str(t))
    case StringValue(t) => Str(t)
    case BoolValue(b) => Bool(b)
    case EnumValue(n) => Str(n)
    case VariableValue(_) => Nil
    case ListValue(items) => Slice(seq(|items|, i requires 0 <= i < |items| => LiteralRuntime(text, items[i])))
    case ObjectValue(fields) => Map(map k | k in fields :: LiteralRuntime(text, fields[k]))
  }

  function CoerceScalarLiteral(text: Text, name: string, v: Value): Coerced {
    if name == "Int" then
      match v
      case IntValue(t) => (match text.parseInt(t) case Some(n) => Success(Int64(n)) case None => Failure(CoercionError))
      case _ => Failure(CoercionError)
    else if name == "Float" then
      match v
      case FloatValue(t) => (match text.parseFloat(t) case Some(x) => Success(Float64(x)) case None => Failure(CoercionError))
      case IntValue(t) => (match text.parseFloat(t) case Some(x) => Success(Float64(x)) case None => Failure(CoercionError))
      case _ => Failure(CoercionError)
    else if name == "String" then
      if v.StringValue? then Success(Str(v.text)) else Failure(CoercionError)
    else if name == "Boolean" then
      if v.BoolValue? then Success(Bool(v.b)) else Failure(CoercionError)
    else if name == "ID" then
      match v
      case StringValue(t) => Success(Str(t))
      case IntValue(t) => Success(Str(t))
      case _ => Failure(CoercionError)
    else CoerceScalar(text, name, LiteralRuntime(text, v))
  }

  type Variables = map<string, GoValue>

  /** A literal against a type; a variable reference is coerced again at its use site. */
  function CoerceValue(s: InputSchema, vars: Variables, t: InType, v: Value): Coerced
    decreases v, 1, t
  {
    if t.NonNull? then
      if v.NullValue? then Failure(CoercionError)
      else if v.VariableValue? then
        if v.name !in vars || vars[v.name] == Nil then Failure(CoercionError) else CoerceRuntime(s, t.of, vars[v.name])
      else CoerceValue(s, vars, t.of, v)
    else if v.VariableValue? then
      if v.name !in vars then Failure(CoercionError) else CoerceRuntime(s, t, vars[v.name])
    else if v.NullValue? then Success(Nil)
    else
      match t
      case ListOf(of) =>
        if v.ListValue? then
          var elems :- CoerceValueAll(s, vars, of, v.items);
          Success(Slice(elems))
        else
          // A single value makes a list of one.
          var elem :- CoerceValue(s, vars, of, v);
          Success(Slice([elem]))
      case Scalar(name) => CoerceScalarLiteral(s.text, name, v)
      case Enum(name) =>
        if !v.EnumValue? then Failure(CoercionError)
        else (match s.EnumMember(name, v.name) case Some(g) => Success(g) case None => Failure(CoercionError))
      case InputObject(name) =>
        if !v.ObjectValue? then Failure(CoercionError)
        else if (exists k | k in v.fields :: k !in s.Fields(name))
             || (exists k | k in s.Fields(name) :: LiteralField(s, vars, s.Fields(name)[k], k, v).Refused?) then Failure(CoercionError)
        else Success(Map(map k | k in s.Fields(name) && LiteralField(s, vars, s.Fields(name)[k], k, v).Stored?
                           :: LiteralField(s, vars, s.Fields(name)[k], k, v).value))
      case NotInput(_) => Failure(CoercionError)
  }

  function CoerceValueAll(s: InputSchema, vars: Variables, t: InType, vals: seq<Value>): Result<seq<GoValue>, CoercionError>
    decreases vals, 1, t
  {
    if vals == [] then Success([])
    else
      var first :- CoerceValue(s, vars, t, vals[0]);
      var rest :- CoerceValueAll(s, vars, t, vals[1..]);
      Success([first] + rest)
  }

  function LiteralField(s: InputSchema, vars: Variables, def: ArgDef, k: string, v: Value): FieldOutcome
    requires v.ObjectValue?
    decreases v, 0
  {
    if k in v.fields then PresentField(CoerceValue(s, vars, def.typ, v.fields[k])) else AbsentField(def)
  }

  /** The arguments of one field selection, against their definitions. */
  function CoerceArguments(s: InputSchema, vars: Variables, defs: ArgDefs, raw: map<string, Value>): Result<map<string, GoValue>, CoercionError> {
    var v := ObjectValue(raw);
    if (exists k | k in raw :: k !in defs) || (exists k | k in defs :: LiteralField(s, vars, defs[k], k, v).Refused?) then
      Failure(CoercionError)
    else
      Success(map k | k in defs && LiteralField(s, vars, defs[k], k, v).Stored? :: LiteralField(s, vars, defs[k], k, v).value)
  }

  // ---- What a coerced value is ----

  predicate ScalarKind(name: string, v: GoValue) {
    if name == "Int" then v.Int64?
    else if name == "Float" then v.Float64?
    else if name == "String" || name == "ID" then v.Str?
    else if name == "Boolean" then v.Bool?
    else true
  }

  /** v is a value of type t: no null under NonNull at any depth, lists and objects with members
      of the declared types, every required or defaulted key present, no undeclared key. */
  ghost predicate Inhabits(s: InputSchema, t: InType, v: GoValue)
    decreases v, t
  {
    match t
    case NonNull(of) => v != Nil && Inhabits(s, of, v)
    case ListOf(of) => v == Nil || (v.Slice? && forall i | 0 <= i < |v.elems| :: Inhabits(s, of, v.elems[i]))
    case Scalar(name) => v == Nil || ScalarKind(name, v)
    case Enum(name) => v == Nil || exists member :: s.EnumMember(name, member) == Some(v)
    case InputObject(name) =>
      v == Nil ||
      (v.Map? &&
       (forall k | k in v.entries :: k in s.Fields(name) && Inhabits(s, s.Fields(name)[k].typ, v.entries[k])) &&
       (forall k | k in s.Fields(name) && !AbsentField(s.Fields(name)[k]).Omitted? :: k in v.entries))
    case NotInput(_) => true
  }

  ghost predicate WellTypedDefaults(s: InputSchema) {
    forall name, k | name in s.inputs && k in s.inputs[name] && AbsentField(s.inputs[name][k]).Stored? ::
      Inhabits(s, s.inputs[name][k].typ, s.inputs[name][k].default.value)
  }

  lemma {:induction false} RuntimeResultInhabits(s: InputSchema, t: InType, v: GoValue)
    requires WellTypedDefaults(s)
    ensures CoerceRuntime(s, t, v).Success? ==> Inhabits(s, t, CoerceRuntime(s, t, v).value)
    ensures CoerceRuntime(s, t, v).Success? && v != Nil ==> CoerceRuntime(s, t, v).value != Nil
    decreases v, 1, t
  {
    match t
    case NonNull(of) => RuntimeResultInhabits(s, of, v);
    case ListOf(of) =>
      if v.Slice? {
        RuntimeResultsInhabit(s, of, v.elems);
      } else {
        RuntimeResultInhabits(s, of, v);
      }
    case Scalar(_) =>
    case Enum(_) =>
    case InputObject(name) =>
      if v.Map? && CoerceRuntime(s, t, v).Success? {
        forall k | k in s.Fields(name) && RuntimeField(s, s.Fields(name)[k], k, v).Stored?
          ensures Inhabits(s, s.Fields(name)[k].typ, RuntimeField(s, s.Fields(name)[k], k, v).value)
        {
          if k in v.entries {
            RuntimeResultInhabits(s, s.Fields(name)[k].typ, v.entries[k]);
          }
        }
      }
    case NotInput(_) =>
  }

  lemma {:induction false} RuntimeResultsInhabit(s: InputSchema, t: InType, vs: seq<GoValue>)
    requires WellTypedDefaults(s)
    ensures CoerceRuntimeAll(s, t, vs).Success? ==>
              forall i | 0 <= i < |CoerceRuntimeAll(s, t, vs).value| :: Inhabits(s, t, CoerceRuntimeAll(s, t, vs).value[i])
    decreases vs, 1, t
  {
    if vs != [] {
      RuntimeResultInhabits(s, t, vs[0]);
      RuntimeResultsInhabit(s, t, vs[1..]);
    }
  }

  /** A successfully coerced literal inhabits its type, whatever the variables hold. */
  lemma {:induction false} LiteralResultInhabits(s: InputSchema, vars: Variables, t: InType, v: Value)
    requires WellTypedDefaults(s)
    ensures CoerceValue(s, vars, t, v).Success? ==> Inhabits(s, t, CoerceValue(s, vars, t, v).value)
    ensures CoerceValue(s, vars, t, v).Success? && !v.NullValue? && !v.VariableValue? ==> CoerceValue(s, vars, t, v).value != Nil
    decreases v, 1, t
  {
    if v.VariableValue? {
      if v.name in vars {
        RuntimeResultInhabits(s, t, vars[v.name]);
        if t.NonNull? {
          RuntimeResultInhabits(s, t.of, vars[v.name]);
        }
      }
    } else {
      match t
      case NonNull(of) => LiteralResultInhabits(s, vars, of, v);
      case ListOf(of) =>
        if v.ListValue? {
          LiteralResultsInhabit(s, vars, of, v.items);
        } else {
          LiteralResultInhabits(s, vars, of, v);
        }
      case Scalar(_) =>
      case Enum(_) =>
      case InputObject(name) =>
        if v.ObjectValue? && CoerceValue(s, vars, t, v).Success? {
          forall k | k in s.Fields(name) && LiteralField(s, vars, s.Fields(name)[k], k, v).Stored?
            ensures Inhabits(s, s.Fields(name)[k].typ, LiteralField(s, vars, s.Fields(name)[k], k, v).value)
          {
            if k in v.fields {
              LiteralResultInhabits(s, vars, s.Fields(name)[k].typ, v.fields[k]);
            }
          }
        }
      case NotInput(_) =>
    }
  }

  lemma {:induction false} LiteralResultsInhabit(s: InputSchema, vars: Variables, t: InType, vs: seq<Value>)
    requires WellTypedDefaults(s)
    ensures CoerceValueAll(s, vars, t, vs).Success? ==>
              forall i | 0 <= i < |CoerceValueAll(s, vars, t, vs).value| :: Inhabits(s, t, CoerceValueAll(s, vars, t, vs).value[i])
    decreases vs, 1, t
  {
    if vs != [] {
      LiteralResultInhabits(s, vars, t, vs[0]);
      LiteralResultsInhabit(s, vars, t, vs[1..]);
    }
  }

  /** Coerced arguments hold every required argument, none that is undeclared, and only values
      of the declared types. */
  lemma CoercedArgumentsInhabit(s: InputSchema, vars: Variables, defs: ArgDefs, raw: map<string, Value>)
    requires WellTypedDefaults(s)
    requires forall k | k in defs && AbsentField(defs[k]).Stored? :: Inhabits(s, defs[k].typ, defs[k].default.value)
    ensures CoerceArguments(s, vars, defs, raw).Success? ==>
              var args := CoerceArguments(s, vars, defs, raw).value;
              && (forall k | k in args :: k in defs && Inhabits(s, defs[k].typ, args[k]))
              && (forall k | k in defs && !AbsentField(defs[k]).Omitted? :: k in args)
              && (forall k | k in raw :: k in args)
  {
    var v := ObjectValue(raw);
    if CoerceArguments(s, vars, defs, raw).Success? {
      forall k | k in defs && LiteralField(s, vars, defs[k], k, v).Stored?
        ensures Inhabits(s, defs[k].typ, LiteralField(s, vars, defs[k], k, v).value)
      {
        if k in raw {
          LiteralResultInhabits(s, vars, defs[k].typ, raw[k]);
        }
      }
    }
  }

  // ---- Which values coercion leaves alone ----

  /** v is already in coerced form at t. Unlike Inhabits, a null at an enum is refused. */
  ghost predicate Canonical(s: InputSchema, t: InType, v: GoValue)
    decreases v, t
  {
    match t
    case NonNull(of) => v != Nil && Canonical(s, of, v)
    case ListOf(of) => v == Nil || (v.Slice? && forall i | 0 <= i < |v.elems| :: Canonical(s, of, v.elems[i]))
    case Scalar(name) => v == Nil || ScalarKind(name, v)
    case Enum(name) => v.Str? && s.EnumMember(name, v.s) == Some(v)
    case InputObject(name) =>
      v == Nil ||
      (v.Map? &&
       (forall k | k in v.entries :: k in s.Fields(name) && Canonical(s, s.Fields(name)[k].typ, v.entries[k])) &&
       (forall k | k in s.Fields(name) && !AbsentField(s.Fields(name)[k]).Omitted? :: k in v.entries))
    case NotInput(_) => true
  }

  /** Coercing a value changes nothing exactly when the value is canonical. */
  lemma {:induction false} FixedIffCanonical(s: InputSchema, t: InType, v: GoValue)
    ensures CoerceRuntime(s, t, v) == Success(v) <==> Canonical(s, t, v)
    decreases v, 1, t
  {
    match t
    case NonNull(of) => FixedIffCanonical(s, of, v);
    case ListOf(of) =>
      if v.Slice? {
        AllFixedIffCanonical(s, of, v.elems);
      }
    case Scalar(_) =>
    case Enum(_) =>
    case InputObject(name) =>
      if v.Map? {
        FixedObjectIffCanonical(s, name, v);
      }
    case NotInput(_) =>
  }

  lemma {:induction false} AllFixedIffCanonical(s: InputSchema, t: InType, vs: seq<GoValue>)
    ensures CoerceRuntimeAll(s, t, vs) == Success(vs) <==> forall i | 0 <= i < |vs| :: Canonical(s, t, vs[i])
    decreases vs, 1, t
  {
    if vs != [] {
      FixedIffCanonical(s, t, vs[0]);
      AllFixedIffCanonical(s, t, vs[1..]);
      assert vs == [vs[0]] + vs[1..];
      if CoerceRuntimeAll(s, t, vs) == Success(vs) {
        var first := CoerceRuntime(s, t, vs[0]).value;
        var rest := CoerceRuntimeAll(s, t, vs[1..]).value;
        assert vs == [first] + rest;
        assert vs[0] == first && vs[1..] == rest;
        assert forall i | 1 <= i < |vs| :: vs[i] == vs[1..][i - 1];
      }
    }
  }

  lemma {:induction false} FixedObjectIffCanonical(s: InputSchema, name: string, v: GoValue)
    requires v.Map?
    ensures CoerceRuntime(s, InputObject(name), v) == Success(v) <==> Canonical(s, InputObject(name), v)
    decreases v, 0
  {
    var t := InputObject(name);
    var fields := s.Fields(name);
    forall k | k in v.entries && k in fields
      ensures CoerceRuntime(s, fields[k].typ, v.entries[k]) == Success(v.entries[k]) <==> Canonical(s, fields[k].typ, v.entries[k])
    {
      FixedIffCanonical(s, fields[k].typ, v.entries[k]);
    }
    if CoerceRuntime(s, t, v) == Success(v) {
      forall k | k in v.entries ensures k in fields && Canonical(s, fields[k].typ, v.entries[k]) {
        assert RuntimeField(s, fields[k], k, v) == Stored(v.entries[k]);
      }
      forall k | k in fields && !AbsentField(fields[k]).Omitted? ensures k in v.entries {
        assert !RuntimeField(s, fields[k], k, v).Refused?;
      }
    }
    if Canonical(s, t, v) {
      forall k | k in fields
        ensures RuntimeField(s, fields[k], k, v) == if k in v.entries then Stored(v.entries[k]) else Omitted
      {
      }
      var out := map k | k in fields && RuntimeField(s, fields[k], k, v).Stored? :: RuntimeField(s, fields[k], k, v).value;
      assert out.Keys == v.entries.Keys;
      assert out == v.entries;
      assert CoerceRuntime(s, t, v) == Success(Map(out));
    }
  }

  /** Every enum member that has its own Go value maps to a value which is a member again with
      that same value; and every default is already coerced. */
  ghost predicate StableEnum(s: InputSchema, name: string) {
    forall member | s.EnumMember(name, member).Some? :: Canonical(s, Enum(name), s.EnumMember(name, member).value)
  }

  ghost predicate StableSchema(s: InputSchema) {
    && (forall name :: StableEnum(s, name))
    && (forall name, k | name in s.inputs && k in s.inputs[name] && AbsentField(s.inputs[name][k]).Stored? ::
          Canonical(s, s.inputs[name][k].typ, s.inputs[name][k].default.value))
  }

  lemma {:induction false} RuntimeResultIsCanonical(s: InputSchema, t: InType, v: GoValue)
    requires StableSchema(s)
    ensures CoerceRuntime(s, t, v).Success? ==> Canonical(s, t, CoerceRuntime(s, t, v).value)
    ensures CoerceRuntime(s, t, v).Success? && v != Nil ==> CoerceRuntime(s, t, v).value != Nil
    decreases v, 1, t
  {
    match t
    case NonNull(of) => RuntimeResultIsCanonical(s, of, v);
    case ListOf(of) =>
      if v.Slice? {
        RuntimeResultsAreCanonical(s, of, v.elems);
      } else {
        RuntimeResultIsCanonical(s, of, v);
      }
    case Scalar(_) =>
    case Enum(name) => assert StableEnum(s, name);
    case InputObject(name) =>
      if v.Map? && CoerceRuntime(s, t, v).Success? {
        forall k | k in s.Fields(name) && RuntimeField(s, s.Fields(name)[k], k, v).Stored?
          ensures Canonical(s, s.Fields(name)[k].typ, RuntimeField(s, s.Fields(name)[k], k, v).value)
        {
          if k in v.entries {
            RuntimeResultIsCanonical(s, s.Fields(name)[k].typ, v.entries[k]);
          }
        }
      }
    case NotInput(_) =>
  }

  lemma {:induction false} RuntimeResultsAreCanonical(s: InputSchema, t: InType, vs: seq<GoValue>)
    requires StableSchema(s)
    ensures CoerceRuntimeAll(s, t, vs).Success? ==>
              forall i | 0 <= i < |CoerceRuntimeAll(s, t, vs).value| :: Canonical(s, t, CoerceRuntimeAll(s, t, vs).value[i])
    decreases vs, 1, t
  {
    if vs != [] {
      RuntimeResultIsCanonical(s, t, vs[0]);
      RuntimeResultsAreCanonical(s, t, vs[1..]);
    }
  }

  /** Coercing a variable again at its use site changes nothing. */
  lemma CoerceRuntimeIsIdempotent(s: InputSchema, t: InType, v: GoValue)
    requires StableSchema(s)
    requires CoerceRuntime(s, t, v).Success?
    ensures CoerceRuntime(s, t, CoerceRuntime(s, t, v).value) == CoerceRuntime(s, t, v)
  {
    RuntimeResultIsCanonical(s, t, v);
    FixedIffCanonical(s, t, CoerceRuntime(s, t, v).value);
  }

  ghost predicate Idempotent(s: InputSchema, t: InType) {
    forall v | CoerceRuntime(s, t, v).Success? ::
      CoerceRuntime(s, t, CoerceRuntime(s, t, v).value) == CoerceRuntime(s, t, v)
  }

  /** An enum whose members carry Go values of their own is where idempotence is lost: coercing
      is idempotent at an enum if and only if every member's value is again a member standing
      for itself. */
  lemma EnumIdempotentIffStable(s: InputSchema, name: string)
    ensures Idempotent(s, Enum(name)) <==> StableEnum(s, name)
  {
    var t := Enum(name);
    if Idempotent(s, t) {
      forall member | s.EnumMember(name, member).Some?
        ensures Canonical(s, t, s.EnumMember(name, member).value)
      {
        assert CoerceRuntime(s, t, Str(member)).Success?;
        FixedIffCanonical(s, t, s.EnumMember(name, member).value);
      }
    }
    if StableEnum(s, name) {
      forall v | CoerceRuntime(s, t, v).Success?
        ensures CoerceRuntime(s, t, CoerceRuntime(s, t, v).value) == CoerceRuntime(s, t, v)
      {
        FixedIffCanonical(s, t, CoerceRuntime(s, t, v).value);
      }
    }
  }

  /** No null sits at an enum position of v. */
  ghost predicate NoNullEnum(s: InputSchema, t: InType, v: GoValue)
    decreases v, t
  {
    match t
    case NonNull(of) => NoNullEnum(s, of, v)
    case ListOf(of) => v.Slice? ==> forall i | 0 <= i < |v.elems| :: NoNullEnum(s, of, v.elems[i])
    case Enum(_) => v != Nil
    case InputObject(name) => v.Map? ==> forall k | k in v.entries && k in s.Fields(name) :: NoNullEnum(s, s.Fields(name)[k].typ, v.entries[k])
    case _ => true
  }

  /** A value of a type is re-coerced to itself exactly when no null sits at an enum: a literal
      default may put one there, and then its use site refuses what its declaration accepted. */
  lemma {:induction false} CanonicalIffNoNullEnum(s: InputSchema, t: InType, v: GoValue)
    requires forall name :: StableEnum(s, name)
    requires Inhabits(s, t, v)
    ensures Canonical(s, t, v) <==> NoNullEnum(s, t, v)
    decreases v, t
  {
    match t
    case NonNull(of) => CanonicalIffNoNullEnum(s, of, v);
    case ListOf(of) =>
      if v.Slice? {
        forall i | 0 <= i < |v.elems| ensures Canonical(s, of, v.elems[i]) <==> NoNullEnum(s, of, v.elems[i]) {
          CanonicalIffNoNullEnum(s, of, v.elems[i]);
        }
      }
    case Scalar(_) =>
    case Enum(name) => assert StableEnum(s, name);
    case InputObject(name) =>
      if v.Map? {
        forall k | k in v.entries
          ensures Canonical(s, s.Fields(name)[k].typ, v.entries[k]) <==> NoNullEnum(s, s.Fields(name)[k].typ, v.entries[k])
        {
          CanonicalIffNoNullEnum(s, s.Fields(name)[k].typ, v.entries[k]);
        }
      }
    case NotInput(_) =>
  }

  lemma LiteralReCoercedIffNoNullEnum(s: InputSchema, vars: Variables, t: InType, v: Value)
    requires WellTypedDefaults(s) && forall name :: StableEnum(s, name)
    requires CoerceValue(s, vars, t, v).Success?
    ensures var w := CoerceValue(s, vars, t, v).value;
            CoerceRuntime(s, t, w) == Success(w) <==> NoNullEnum(s, t, w)
  {
    var w := CoerceValue(s, vars, t, v).value;
    LiteralResultInhabits(s, vars, t, v);
    CanonicalIffNoNullEnum(s, t, w);
    FixedIffCanonical(s, t, w);
  }

  /** The failing case: the default [null] of a list of enums is accepted where the variable is
      declared and refused where it is used. */
  lemma NullEnumDefaultIsRefusedAtUse(s: InputSchema, name: string)
    ensures CoerceValue(s, map[], ListOf(Enum(name)), ListValue([NullValue])) == Success(Slice([Nil]))
    ensures CoerceRuntime(s, ListOf(Enum(name)), Slice([Nil])).Failure?
  {
    assert [NullValue][1..] == [] && [Nil][1..] == [];
    assert CoerceValue(s, map[], Enum(name), NullValue) == Success(Nil);
    assert CoerceValueAll(s, map[], Enum(name), []) == Success([]);
    assert CoerceValueAll(s, map[], Enum(name), [NullValue]) == Success([Nil] + []);
    assert [Nil] + [] == [Nil];
    assert CoerceRuntimeAll(s, Enum(name), [Nil]).Failure?;
  }

  // ---- The variables of an operation ----

  function ResolveTypeRef(named: map<string, InType>, tr: TypeRef): Option<InType> {
    match tr
    case NamedRef(name, nonNull) =>
      if name in named then Some(WrapNonNull(nonNull, named[name]))
      else if name in {"Int", "Float", "String", "Boolean", "ID"} then Some(WrapNonNull(nonNull, Scalar(name)))
      else None
    case ListRef(inner, nonNull) =>
      match ResolveTypeRef(named, inner)
      case Some(t) => Some(WrapNonNull(nonNull, ListOf(t)))
      case None => None
  }

  function WrapNonNull(nonNull: bool, t: InType): InType {
    if nonNull then NonNull(t) else t
  }

  /** A default literal is coerced before any variable is known; a null default is no default. */
  function VariableOutcome(s: InputSchema, named: map<string, InType>, def: VariableDef, raw: Variables): FieldOutcome {
    match ResolveTypeRef(named, def.typ)
    case None => Refused
    case Some(t) =>
      if def.name in raw then PresentField(CoerceRuntime(s, t, raw[def.name]))
      else if def.defaultVal != NullValue then PresentField(CoerceValue(s, map[], t, def.defaultVal))
      else if t.NonNull? then Refused
      else Omitted
  }

  /** The variables stored by the definitions before defs[count]; a later definition wins. */
  function StoredVariables(s: InputSchema, named: map<string, InType>, defs: seq<VariableDef>, raw: Variables, count: nat): Variables
    requires count <= |defs|
  {
    if count == 0 then map[]
    else
      var before := StoredVariables(s, named, defs, raw, count - 1);
      match VariableOutcome(s, named, defs[count - 1], raw)
      case Stored(v) => before[defs[count - 1].name := v]
      case _ => before
  }

  method CoerceVariables(s: InputSchema, named: map<string, InType>, defs: seq<VariableDef>, raw: Variables)
    returns (r: Result<Variables, CoercionError>)
    ensures r.Success? <==> forall def | def in defs :: !VariableOutcome(s, named, def, raw).Refused?
    ensures r.Success? ==> r.value == StoredVariables(s, named, defs, raw, |defs|)
  {
    var out: Variables := map[];
    for i := 0 to |defs|
      invariant out == StoredVariables(s, named, defs, raw, i)
      invariant forall k | 0 <= k < i :: !VariableOutcome(s, named, defs[k], raw).Refused?
    {
      var def := defs[i];
      var t := ResolveTypeRef(named, def.typ);
      assert def in defs;
      if t.None? {
        assert VariableOutcome(s, named, def, raw).Refused?;
        return Failure(CoercionError);
      }
      if def.name !in raw {
        if def.defaultVal != NullValue {
          var cv :- CoerceValue(s, map[], t.value, def.defaultVal);
          out := out[def.name := cv];
        } else if t.value.NonNull? {
          return Failure(CoercionError);
        }
      } else {
        var cv :- CoerceRuntime(s, t.value, raw[def.name]);
        out := out[def.name := cv];
      }
    }
    return Success(out);
  }

  /** With distinct names, each variable that is stored inhabits its declared type, and a variable
      of a non-null type is always stored. */
  lemma CoercedVariablesInhabit(s: InputSchema, named: map<string, InType>, defs: seq<VariableDef>, raw: Variables, i: nat)
    requires WellTypedDefaults(s) && i < |defs|
    requires forall k, l | 0 <= k < l < |defs| :: defs[k].name != defs[l].name
    requires forall def | def in defs :: !VariableOutcome(s, named, def, raw).Refused?
    ensures ResolveTypeRef(named, defs[i].typ).Some?
    ensures var t := ResolveTypeRef(named, defs[i].typ).value;
            var out := StoredVariables(s, named, defs, raw, |defs|);
            && (defs[i].name in out ==> Inhabits(s, t, out[defs[i].name]))
            && (t.NonNull? ==> defs[i].name in out && out[defs[i].name] != Nil)
            && (defs[i].name in out <==> defs[i].name in raw || defs[i].defaultVal != NullValue)
  {
    assert defs[i] in defs;
    StoredVariableIsOutcome(s, named, defs, raw, |defs|, i);
    var t := ResolveTypeRef(named, defs[i].typ).value;
    if defs[i].name in raw {
      RuntimeResultInhabits(s, t, raw[defs[i].name]);
    } else if defs[i].defaultVal != NullValue {
      LiteralResultInhabits(s, map[], t, defs[i].defaultVal);
    }
  }

  lemma {:induction false} StoredVariableIsOutcome(s: InputSchema, named: map<string, InType>, defs: seq<VariableDef>, raw: Variables, count: nat, i: nat)
    requires i < |defs| && count <= |defs|
    requires forall k, l | 0 <= k < l < |defs| :: defs[k].name != defs[l].name
    ensures var out := StoredVariables(s, named, defs, raw, count);
            var o := VariableOutcome(s, named, defs[i], raw);
            if i < count && o.Stored? then defs[i].name in out && out[defs[i].name] == o.value else defs[i].name !in out
  {
    if count > 0 {
      StoredVariableIsOutcome(s, named, defs, raw, count - 1, i);
      assert i != count - 1 ==> defs[i].name != defs[count - 1].name;
    }
  }
}
