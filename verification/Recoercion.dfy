/** When a value that was coerced where it was declared is the same after being coerced again where
    it is used (graphql/execute.go, coerceValue and coerceRuntime), told from the literal, the
    variables and the schema alone. */
module Recoercion {
  import opened Prelude
  import opened GraphqlAst
  import opened Coercion

  // ---- Literals ----

  /** No default that gets filled in holds a null at an enum. */
  ghost predicate SafeDefault(s: InputSchema, def: ArgDef) {
    AbsentField(def).Stored? ==> NoNullEnum(s, def.typ, def.default.value)
  }

  /** The value of a variable is without a null at an enum, once defaults are filled in. */
  ghost predicate SafeRuntime(s: InputSchema, t: InType, x: GoValue)
    decreases x, t
  {
    match t
    case NonNull(of) => SafeRuntime(s, of, x)
    case ListOf(of) =>
      if x == Nil then true
      else if x.Slice? then forall i | 0 <= i < |x.elems| :: SafeRuntime(s, of, x.elems[i])
      else SafeRuntime(s, of, x)
    case Enum(_) => x != Nil
    case InputObject(name) =>
      x.Map? ==>
        forall k | k in s.Fields(name) ::
          if k in x.entries then SafeRuntime(s, s.Fields(name)[k].typ, x.entries[k]) else SafeDefault(s, s.Fields(name)[k])
    case _ => true
  }

  /** The literal has no null at an enum, no variable brings one, and no default fills one in. */
  ghost predicate SafeLiteral(s: InputSchema, vars: Variables, t: InType, v: Value)
    decreases v, t
  {
    if v.VariableValue? then v.name in vars ==> SafeRuntime(s, t, vars[v.name])
    else
      match t
      case NonNull(of) => SafeLiteral(s, vars, of, v)
      case ListOf(of) =>
        if v.NullValue? then true
        else if v.ListValue? then forall i | 0 <= i < |v.items| :: SafeLiteral(s, vars, of, v.items[i])
        else SafeLiteral(s, vars, of, v)
      case Enum(_) => !v.NullValue?
      case InputObject(name) =>
        v.ObjectValue? ==>
          forall k | k in s.Fields(name) ::
            if k in v.fields then SafeLiteral(s, vars, s.Fields(name)[k].typ, v.fields[k]) else SafeDefault(s, s.Fields(name)[k])
      case _ => true
  }

  lemma {:induction false} RuntimeSafety(s: InputSchema, t: InType, x: GoValue)
    requires CoerceRuntime(s, t, x).Success?
    ensures NoNullEnum(s, t, CoerceRuntime(s, t, x).value) <==> SafeRuntime(s, t, x)
    decreases x, 1, t
  {
    match t
    case NonNull(of) => RuntimeSafety(s, of, x);
    case ListOf(of) =>
      if x.Slice? {
        RuntimeSafetyAll(s, of, x.elems);
      } else if x != Nil {
        RuntimeSafety(s, of, x);
        assert [CoerceRuntime(s, of, x).value][0] == CoerceRuntime(s, of, x).value;
      }
    case InputObject(name) =>
      if x.Map? {
        var w := CoerceRuntime(s, t, x).value;
        forall k | k in s.Fields(name)
          ensures !RuntimeField(s, s.Fields(name)[k], k, x).Refused?
          ensures k in w.entries && !NoNullEnum(s, s.Fields(name)[k].typ, w.entries[k]) <==>
                  !(if k in x.entries then SafeRuntime(s, s.Fields(name)[k].typ, x.entries[k]) else SafeDefault(s, s.Fields(name)[k]))
        {
          if k in x.entries {
            RuntimeSafety(s, s.Fields(name)[k].typ, x.entries[k]);
          }
        }
      }
    case _ =>
  }

  lemma {:induction false} RuntimeSafetyAll(s: InputSchema, t: InType, xs: seq<GoValue>)
    requires CoerceRuntimeAll(s, t, xs).Success?
    ensures var ws := CoerceRuntimeAll(s, t, xs).value;
            && |ws| == |xs|
            && forall i | 0 <= i < |xs| :: NoNullEnum(s, t, ws[i]) <==> SafeRuntime(s, t, xs[i])
    decreases xs, 1, t
  {
    if xs != [] {
      RuntimeSafety(s, t, xs[0]);
      RuntimeSafetyAll(s, t, xs[1..]);
    }
  }

  lemma {:induction false} LiteralSafety(s: InputSchema, vars: Variables, t: InType, v: Value)
    requires CoerceValue(s, vars, t, v).Success?
    ensures NoNullEnum(s, t, CoerceValue(s, vars, t, v).value) <==> SafeLiteral(s, vars, t, v)
    decreases v, 1, t
  {
    if v.VariableValue? {
      RuntimeSafety(s, if t.NonNull? then t.of else t, vars[v.name]);
    } else if t.NonNull? {
      LiteralSafety(s, vars, t.of, v);
    } else if !v.NullValue? {
      match t
      case ListOf(of) =>
        if v.ListValue? {
          LiteralSafetyAll(s, vars, of, v.items);
        } else {
          LiteralSafety(s, vars, of, v);
          assert [CoerceValue(s, vars, of, v).value][0] == CoerceValue(s, vars, of, v).value;
        }
      case InputObject(name) =>
        var w := CoerceValue(s, vars, t, v).value;
        forall k | k in s.Fields(name)
          ensures !LiteralField(s, vars, s.Fields(name)[k], k, v).Refused?
          ensures k in w.entries && !NoNullEnum(s, s.Fields(name)[k].typ, w.entries[k]) <==>
                  !(if k in v.fields then SafeLiteral(s, vars, s.Fields(name)[k].typ, v.fields[k]) else SafeDefault(s, s.Fields(name)[k]))
        {
          if k in v.fields {
            LiteralSafety(s, vars, s.Fields(name)[k].typ, v.fields[k]);
          }
        }
      case _ =>
    }
  }

  lemma {:induction false} LiteralSafetyAll(s: InputSchema, vars: Variables, t: InType, vs: seq<Value>)
    requires CoerceValueAll(s, vars, t, vs).Success?
    ensures var ws := CoerceValueAll(s, vars, t, vs).value;
            && |ws| == |vs|
            && forall i | 0 <= i < |vs| :: NoNullEnum(s, t, ws[i]) <==> SafeLiteral(s, vars, t, vs[i])
    decreases vs, 1, t
  {
    if vs != [] {
      LiteralSafety(s, vars, t, vs[0]);
      LiteralSafetyAll(s, vars, t, vs[1..]);
    }
  }

  /** A literal that is accepted where it is declared comes through its use site unchanged if and
      only if it has no null at an enum, no variable brings one, and no default fills one in. */
  lemma LiteralSurvivesIffSafe(s: InputSchema, vars: Variables, t: InType, v: Value)
    requires WellTypedDefaults(s) && forall name :: StableEnum(s, name)
    requires CoerceValue(s, vars, t, v).Success?
    ensures var w := CoerceValue(s, vars, t, v).value;
            CoerceRuntime(s, t, w) == Success(w) <==> SafeLiteral(s, vars, t, v)
  {
    LiteralReCoercedIffNoNullEnum(s, vars, t, v);
    LiteralSafety(s, vars, t, v);
  }

  // ---- Variables ----

  predicate Fixed(s: InputSchema, t: InType, v: GoValue) {
    CoerceRuntime(s, t, v) == Success(v)
  }

  lemma {:induction false} NonNilStays(s: InputSchema, t: InType, v: GoValue)
    requires v != Nil && CoerceRuntime(s, t, v).Success?
    ensures CoerceRuntime(s, t, v).value != Nil
    decreases t
  {
    if t.NonNull? {
      NonNilStays(s, t.of, v);
    }
  }

  lemma {:induction false} NilIsFixed(s: InputSchema, t: InType)
    requires CoerceRuntime(s, t, Nil).Success?
    ensures Fixed(s, t, Nil)
    decreases t
  {
  }

  /** Non-null layers do not bear on idempotence. */
  lemma NonNullIdempotentIff(s: InputSchema, of: InType)
    ensures Idempotent(s, NonNull(of)) <==> Idempotent(s, of)
  {
    if Idempotent(s, of) {
      forall v | CoerceRuntime(s, NonNull(of), v).Success? ensures Fixed(s, NonNull(of), CoerceRuntime(s, NonNull(of), v).value) {
        NonNilStays(s, of, v);
      }
    }
    if Idempotent(s, NonNull(of)) {
      forall v | CoerceRuntime(s, of, v).Success? ensures Fixed(s, of, CoerceRuntime(s, of, v).value) {
        if v == Nil {
          NilIsFixed(s, of);
        } else {
          NonNilStays(s, of, v);
          assert CoerceRuntime(s, NonNull(of), v) == CoerceRuntime(s, of, v);
        }
      }
    }
  }

  lemma {:induction false} AllFixed(s: InputSchema, t: InType, vs: seq<GoValue>)
    requires Idempotent(s, t) && CoerceRuntimeAll(s, t, vs).Success?
    ensures CoerceRuntimeAll(s, t, CoerceRuntimeAll(s, t, vs).value) == CoerceRuntimeAll(s, t, vs)
  {
    if vs != [] {
      AllFixed(s, t, vs[1..]);
      var first, rest := CoerceRuntime(s, t, vs[0]).value, CoerceRuntimeAll(s, t, vs[1..]).value;
      assert ([first] + rest)[0] == first && ([first] + rest)[1..] == rest;
    }
  }

  lemma CoerceSingle(s: InputSchema, t: InType, v: GoValue)
    requires CoerceRuntime(s, t, v).Success?
    ensures CoerceRuntime(s, ListOf(t), Slice([v])) == Success(Slice([CoerceRuntime(s, t, v).value]))
  {
    assert [v][1..] == [] && [v][0] == v;
    assert CoerceRuntimeAll(s, t, []) == Success([]);
    assert CoerceRuntimeAll(s, t, [v]) == Success([CoerceRuntime(s, t, v).value] + []);
    assert [CoerceRuntime(s, t, v).value] + [] == [CoerceRuntime(s, t, v).value];
  }

  /** Neither do list layers. */
  lemma ListIdempotentIff(s: InputSchema, of: InType)
    ensures Idempotent(s, ListOf(of)) <==> Idempotent(s, of)
  {
    if Idempotent(s, of) {
      forall v | CoerceRuntime(s, ListOf(of), v).Success? ensures Fixed(s, ListOf(of), CoerceRuntime(s, ListOf(of), v).value) {
        if v.Slice? {
          AllFixed(s, of, v.elems);
        } else if v != Nil {
          var w := CoerceRuntime(s, of, v).value;
          assert Fixed(s, of, w);
          CoerceSingle(s, of, w);
        }
      }
    }
    if Idempotent(s, ListOf(of)) {
      forall v | CoerceRuntime(s, of, v).Success? ensures Fixed(s, of, CoerceRuntime(s, of, v).value) {
        var w := CoerceRuntime(s, of, v).value;
        CoerceSingle(s, of, v);
        assert Fixed(s, ListOf(of), Slice([w]));
        SingleFixed(s, of, w);
      }
    }
  }

  lemma SingleFixed(s: InputSchema, of: InType, w: GoValue)
    requires Fixed(s, ListOf(of), Slice([w]))
    ensures Fixed(s, of, w)
  {
    assert [w][1..] == [] && [w][0] == w;
    assert CoerceRuntimeAll(s, of, [w]).Success?;
    var first := CoerceRuntime(s, of, w).value;
    CoerceSingle(s, of, w);
    assert [first][0] == first;
  }

  /** Some object coerces at the type. */
  ghost predicate Fillable(s: InputSchema, name: string) {
    exists m :: CoerceRuntime(s, InputObject(name), Map(m)).Success?
  }

  /** Coercing is idempotent at an input object that anything coerces at if and only if it is at the
      type of every field, and every default that can be filled in comes through unchanged. */
  lemma ObjectIdempotentIff(s: InputSchema, name: string)
    requires Fillable(s, name)
    ensures Idempotent(s, InputObject(name)) <==>
            forall k | k in s.Fields(name) ::
              && Idempotent(s, s.Fields(name)[k].typ)
              && (AbsentField(s.Fields(name)[k]).Stored? ==> Fixed(s, s.Fields(name)[k].typ, s.Fields(name)[k].default.value))
  {
    var t := InputObject(name);
    if Idempotent(s, t) {
      var m :| CoerceRuntime(s, t, Map(m)).Success?;
      forall k | k in s.Fields(name)
        ensures Idempotent(s, s.Fields(name)[k].typ)
        ensures AbsentField(s.Fields(name)[k]).Stored? ==> Fixed(s, s.Fields(name)[k].typ, s.Fields(name)[k].default.value)
      {
        forall v | CoerceRuntime(s, s.Fields(name)[k].typ, v).Success?
          ensures Fixed(s, s.Fields(name)[k].typ, CoerceRuntime(s, s.Fields(name)[k].typ, v).value)
        {
          FieldPut(s, name, m, k, v);
          FieldIsFixed(s, name, m[k := v], k, CoerceRuntime(s, s.Fields(name)[k].typ, v).value);
        }
        if AbsentField(s.Fields(name)[k]).Stored? {
          FieldTaken(s, name, m, k);
          FieldIsFixed(s, name, m - {k}, k, s.Fields(name)[k].default.value);
        }
      }
    }
    if forall k | k in s.Fields(name) ::
         && Idempotent(s, s.Fields(name)[k].typ)
         && (AbsentField(s.Fields(name)[k]).Stored? ==> Fixed(s, s.Fields(name)[k].typ, s.Fields(name)[k].default.value)) {
      forall v | CoerceRuntime(s, t, v).Success? ensures Fixed(s, t, CoerceRuntime(s, t, v).value) {
        if v != Nil {
          forall k | k in s.Fields(name) && k in v.entries
            ensures CoerceRuntime(s, s.Fields(name)[k].typ, v.entries[k]).Success?
            ensures Fixed(s, s.Fields(name)[k].typ, CoerceRuntime(s, s.Fields(name)[k].typ, v.entries[k]).value)
          {
            assert !RuntimeField(s, s.Fields(name)[k], k, v).Refused?;
          }
          ObjectIsFixed(s, name, v.entries);
        }
      }
    }
  }

  lemma FieldPut(s: InputSchema, name: string, m: map<string, GoValue>, k: string, v: GoValue)
    requires CoerceRuntime(s, InputObject(name), Map(m)).Success? && k in s.Fields(name)
    requires CoerceRuntime(s, s.Fields(name)[k].typ, v).Success?
    ensures CoerceRuntime(s, InputObject(name), Map(m[k := v])).Success?
    ensures RuntimeField(s, s.Fields(name)[k], k, Map(m[k := v])) == Stored(CoerceRuntime(s, s.Fields(name)[k].typ, v).value)
  {
    forall j | j in s.Fields(name) ensures !RuntimeField(s, s.Fields(name)[j], j, Map(m[k := v])).Refused? {
      assert !RuntimeField(s, s.Fields(name)[j], j, Map(m)).Refused?;
    }
  }

  lemma FieldTaken(s: InputSchema, name: string, m: map<string, GoValue>, k: string)
    requires CoerceRuntime(s, InputObject(name), Map(m)).Success? && k in s.Fields(name) && AbsentField(s.Fields(name)[k]).Stored?
    ensures CoerceRuntime(s, InputObject(name), Map(m - {k})).Success?
    ensures RuntimeField(s, s.Fields(name)[k], k, Map(m - {k})) == AbsentField(s.Fields(name)[k])
  {
    forall j | j in s.Fields(name) ensures !RuntimeField(s, s.Fields(name)[j], j, Map(m - {k})).Refused? {
      assert !RuntimeField(s, s.Fields(name)[j], j, Map(m)).Refused?;
    }
  }

  lemma FieldIsFixed(s: InputSchema, name: string, m: map<string, GoValue>, k: string, w: GoValue)
    requires CoerceRuntime(s, InputObject(name), Map(m)).Success? && k in s.Fields(name)
    requires RuntimeField(s, s.Fields(name)[k], k, Map(m)) == Stored(w)
    requires Fixed(s, InputObject(name), CoerceRuntime(s, InputObject(name), Map(m)).value)
    ensures Fixed(s, s.Fields(name)[k].typ, w)
  {
    var r := CoerceRuntime(s, InputObject(name), Map(m)).value;
    assert k in r.entries && r.entries[k] == w;
    assert RuntimeField(s, s.Fields(name)[k], k, r) == Stored(r.entries[k]);
  }

  lemma ObjectIsFixed(s: InputSchema, name: string, m: map<string, GoValue>)
    requires CoerceRuntime(s, InputObject(name), Map(m)).Success?
    requires forall k | k in s.Fields(name) && k in m ::
               && CoerceRuntime(s, s.Fields(name)[k].typ, m[k]).Success?
               && Fixed(s, s.Fields(name)[k].typ, CoerceRuntime(s, s.Fields(name)[k].typ, m[k]).value)
    requires forall k | k in s.Fields(name) && k !in m && AbsentField(s.Fields(name)[k]).Stored? ::
               Fixed(s, s.Fields(name)[k].typ, s.Fields(name)[k].default.value)
    ensures Fixed(s, InputObject(name), CoerceRuntime(s, InputObject(name), Map(m)).value)
  {
    var r, fields := CoerceRuntime(s, InputObject(name), Map(m)).value, s.Fields(name);
    forall k | k in fields ensures RuntimeField(s, fields[k], k, r) == if k in r.entries then Stored(r.entries[k]) else Omitted {
      assert !RuntimeField(s, fields[k], k, Map(m)).Refused?;
      if k in m {
        assert Fixed(s, fields[k].typ, CoerceRuntime(s, fields[k].typ, m[k]).value);
      }
    }
    var out := map k | k in fields && RuntimeField(s, fields[k], k, r).Stored? :: RuntimeField(s, fields[k], k, r).value;
    assert out.Keys == r.entries.Keys;
    assert out == r.entries;
  }

  // ---- The exact condition, recursive types included ----

  /** The type u lies within t, at most depth layers and fields down. Fields count only of objects
      that anything coerces at. */
  ghost predicate Within(s: InputSchema, t: InType, u: InType, depth: nat)
    decreases depth
  {
    t == u ||
    (depth > 0 &&
     match t
     case NonNull(of) => Within(s, of, u, depth - 1)
     case ListOf(of) => Within(s, of, u, depth - 1)
     case InputObject(name) => Fillable(s, name) && exists k :: k in s.Fields(name) && Within(s, s.Fields(name)[k].typ, u, depth - 1)
     case _ => false)
  }

  /** Every enum within t has members that stand for themselves, and every default that can be
      filled in within t comes through unchanged. */
  ghost predicate Stable(s: InputSchema, t: InType) {
    && (forall name, depth: nat | Within(s, t, Enum(name), depth) :: StableEnum(s, name))
    && (forall name, depth: nat, k | Within(s, t, InputObject(name), depth) && Fillable(s, name) && k in s.Fields(name) && AbsentField(s.Fields(name)[k]).Stored? ::
          Fixed(s, s.Fields(name)[k].typ, s.Fields(name)[k].default.value))
  }

  lemma {:induction false} IdempotentWithin(s: InputSchema, t: InType, u: InType, depth: nat)
    requires Idempotent(s, t) && Within(s, t, u, depth)
    ensures Idempotent(s, u)
    decreases depth
  {
    if t != u {
      match t
      case NonNull(of) =>
        NonNullIdempotentIff(s, of);
        IdempotentWithin(s, of, u, depth - 1);
      case ListOf(of) =>
        ListIdempotentIff(s, of);
        IdempotentWithin(s, of, u, depth - 1);
      case InputObject(name) =>
        ObjectIdempotentIff(s, name);
        var k :| k in s.Fields(name) && Within(s, s.Fields(name)[k].typ, u, depth - 1);
        IdempotentWithin(s, s.Fields(name)[k].typ, u, depth - 1);
      case _ =>
    }
  }

  /** What is directly within a stable type is stable. */
  lemma StableInside(s: InputSchema, t: InType, inner: InType)
    requires Stable(s, t)
    requires forall u, depth: nat | Within(s, inner, u, depth) :: Within(s, t, u, depth + 1)
    ensures Stable(s, inner)
  {
    forall name, depth: nat | Within(s, inner, Enum(name), depth) ensures StableEnum(s, name) {
      assert Within(s, t, Enum(name), depth + 1);
    }
    forall name, depth: nat, k | Within(s, inner, InputObject(name), depth) && Fillable(s, name) && k in s.Fields(name) && AbsentField(s.Fields(name)[k]).Stored?
      ensures Fixed(s, s.Fields(name)[k].typ, s.Fields(name)[k].default.value)
    {
      assert Within(s, t, InputObject(name), depth + 1);
    }
  }

  lemma {:induction false} StableResultIsFixed(s: InputSchema, t: InType, v: GoValue)
    requires Stable(s, t) && CoerceRuntime(s, t, v).Success?
    ensures Fixed(s, t, CoerceRuntime(s, t, v).value)
    decreases v, 1, t
  {
    match t
    case NonNull(of) =>
      StableInside(s, t, of);
      StableResultIsFixed(s, of, v);
      NonNilStays(s, of, v);
    case ListOf(of) =>
      StableInside(s, t, of);
      if v.Slice? {
        StableResultsAreFixed(s, of, v.elems);
      } else if v != Nil {
        StableResultIsFixed(s, of, v);
        CoerceSingle(s, of, CoerceRuntime(s, of, v).value);
      }
    case Enum(name) =>
      assert Within(s, t, t, 0);
      EnumIdempotentIffStable(s, name);
    case InputObject(name) =>
      if v != Nil {
        StableObjectIsFixed(s, name, v);
      }
    case _ =>
  }

  lemma {:induction false} StableObjectIsFixed(s: InputSchema, name: string, v: GoValue)
    requires v.Map? && Stable(s, InputObject(name)) && CoerceRuntime(s, InputObject(name), v).Success?
    ensures Fixed(s, InputObject(name), CoerceRuntime(s, InputObject(name), v).value)
    decreases v, 0
  {
    var t, fields := InputObject(name), s.Fields(name);
    assert CoerceRuntime(s, t, Map(v.entries)).Success?;
    assert Within(s, t, t, 0);
    forall k | k in fields && k in v.entries
      ensures CoerceRuntime(s, fields[k].typ, v.entries[k]).Success?
      ensures Fixed(s, fields[k].typ, CoerceRuntime(s, fields[k].typ, v.entries[k]).value)
    {
      assert !RuntimeField(s, fields[k], k, v).Refused?;
      StableInside(s, t, fields[k].typ);
      StableResultIsFixed(s, fields[k].typ, v.entries[k]);
    }
    ObjectIsFixed(s, name, v.entries);
  }

  lemma {:induction false} StableResultsAreFixed(s: InputSchema, t: InType, vs: seq<GoValue>)
    requires Stable(s, t) && CoerceRuntimeAll(s, t, vs).Success?
    ensures CoerceRuntimeAll(s, t, CoerceRuntimeAll(s, t, vs).value) == CoerceRuntimeAll(s, t, vs)
    decreases vs, 1, t
  {
    if vs != [] {
      StableResultIsFixed(s, t, vs[0]);
      StableResultsAreFixed(s, t, vs[1..]);
      var first, rest := CoerceRuntime(s, t, vs[0]).value, CoerceRuntimeAll(s, t, vs[1..]).value;
      assert ([first] + rest)[0] == first && ([first] + rest)[1..] == rest;
    }
  }

  /** Coercing is idempotent at a type, recursive or not, if and only if the enums within it are
      stable and the defaults that can be filled in within it come through unchanged. */
  lemma IdempotentIffStable(s: InputSchema, t: InType)
    ensures Idempotent(s, t) <==> Stable(s, t)
  {
    if Idempotent(s, t) {
      forall name, depth: nat | Within(s, t, Enum(name), depth) ensures StableEnum(s, name) {
        IdempotentWithin(s, t, Enum(name), depth);
        EnumIdempotentIffStable(s, name);
      }
      forall name, depth: nat, k | Within(s, t, InputObject(name), depth) && Fillable(s, name) && k in s.Fields(name) && AbsentField(s.Fields(name)[k]).Stored?
        ensures Fixed(s, s.Fields(name)[k].typ, s.Fields(name)[k].default.value)
      {
        IdempotentWithin(s, t, InputObject(name), depth);
        ObjectIdempotentIff(s, name);
      }
    }
    if Stable(s, t) {
      forall v | CoerceRuntime(s, t, v).Success? ensures Fixed(s, t, CoerceRuntime(s, t, v).value) {
        StableResultIsFixed(s, t, v);
      }
    }
  }

  /** For the schema as a whole. */
  lemma AlwaysIdempotentIff(s: InputSchema)
    ensures (forall t :: Idempotent(s, t)) <==>
            && (forall name :: StableEnum(s, name))
            && (forall name, k | Fillable(s, name) && k in s.Fields(name) && AbsentField(s.Fields(name)[k]).Stored? ::
                  Fixed(s, s.Fields(name)[k].typ, s.Fields(name)[k].default.value))
  {
    if forall t :: Idempotent(s, t) {
      forall name ensures StableEnum(s, name) {
        EnumIdempotentIffStable(s, name);
      }
      forall name, k | Fillable(s, name) && k in s.Fields(name) && AbsentField(s.Fields(name)[k]).Stored?
        ensures Fixed(s, s.Fields(name)[k].typ, s.Fields(name)[k].default.value)
      {
        ObjectIdempotentIff(s, name);
      }
    }
    forall t ensures Stable(s, t) ==> Idempotent(s, t) {
      IdempotentIffStable(s, t);
    }
  }
}
