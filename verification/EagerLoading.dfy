/** Eager loading of relations (relations/relations.go): one query for a batch of parents, its rows
    distributed by a normalised key, against the plain meaning of loading each parent by itself. */
module EagerLoading {
  import opened Prelude

  // ---- Keys ----

  const MIN_INT64: int := -0x8000_0000_0000_0000
  const MAX_INT64: int := 0x7fff_ffff_ffff_ffff

  type Int64 = i: int | MIN_INT64 <= i <= MAX_INT64 witness 0
  type Uint64 = i: int | 0 <= i <= 0xffff_ffff_ffff_ffff witness 0

  /** A key as a model field or a driver presents it. */
  datatype GoKey =
    | NilPointer
    | Signed(i: Int64)
    | Unsigned(u: Uint64)
    | Floating(f: real)
    | Text(s: string)
    | Bytes(s: string)
    | Other(id: int)   // any other comparable value

  /** The canonical form that keys are compared in. */
  datatype Key = NilKey | IntKey(i: Int64) | UintKey(u: Uint64) | RealKey(f: real) | TextKey(s: string) | OtherKey(id: int)

  const DIGITS := "0123456789"

  function Digits(n: nat): (s: string)
    ensures s != [] && forall c | c in s :: '0' <= c <= '9'
  {
    if n < 10 then [DIGITS[n]] else Digits(n / 10) + [DIGITS[n % 10]]
  }

  /** Decimal formatting: no sign but a minus, no leading zero. */
  function FormatInt(i: int): string {
    if i < 0 then "-" + Digits(-i) else Digits(i)
  }

  function DigitValue(c: char): nat {
    if '0' <= c <= '9' then (c as int) - ('0' as int) else 0
  }

  function ParseDigits(s: string): Option<nat> {
    if s == [] then Some(0)
    else
      var last := s[|s| - 1];
      match ParseDigits(s[..|s| - 1])
      case Some(n) => if '0' <= last <= '9' then Some(10 * n + DigitValue(last)) else None
      case None => None
  }

  /** Parsing in base 10 to 64 bits: an optional sign, then digits, zeros in front included. */
  function ParseInt(s: string): Option<Int64> {
    var digits := if s != [] && (s[0] == '-' || s[0] == '+') then s[1..] else s;
    if digits == [] then None
    else
      match ParseDigits(digits)
      case None => None
      case Some(n) =>
        var i: int := if s[0] == '-' then -(n as int) else n;
        if MIN_INT64 <= i <= MAX_INT64 then Some(i) else None
  }

  lemma {:induction false} ParseDigitsOfDigits(n: nat)
    ensures ParseDigits(Digits(n)) == Some(n)
  {
    var s := Digits(n);
    if n < 10 {
      assert s[..0] == [];
      DigitOf(n);
    } else {
      assert s[..|s| - 1] == Digits(n / 10) && s[|s| - 1] == DIGITS[n % 10];
      ParseDigitsOfDigits(n / 10);
      DigitOf(n % 10);
    }
  }

  lemma DigitOf(d: nat)
    requires d < 10
    ensures '0' <= DIGITS[d] <= '9' && DigitValue(DIGITS[d]) == d
  {
  }

  lemma SignedParse(s: string, n: nat)
    requires s != [] && s[0] == '-' && |s| > 1 && ParseDigits(s[1..]) == Some(n) && MIN_INT64 <= -(n as int)
    ensures ParseInt(s) == Some(-(n as int))
  {
  }

  lemma UnsignedParse(s: string, n: nat)
    requires s != [] && s[0] != '-' && s[0] != '+' && ParseDigits(s) == Some(n) && n <= MAX_INT64
    ensures ParseInt(s) == Some(n)
  {
  }

  lemma ParseOfFormat(i: Int64)
    ensures ParseInt(FormatInt(i)) == Some(i)
  {
    if i < 0 {
      var n: nat := -(i as int);
      ParseDigitsOfDigits(n);
      assert FormatInt(i)[1..] == Digits(n);
      SignedParse(FormatInt(i), n);
    } else {
      ParseDigitsOfDigits(i);
      assert Digits(i)[0] in Digits(i);
      UnsignedParse(FormatInt(i), i);
    }
  }

  /** Only a string that is the decimal form of its own value counts as a number. */
  function NormalizeString(s: string): Key {
    match ParseInt(s)
    case Some(n) => if FormatInt(n) == s then IntKey(n) else TextKey(s)
    case None => TextKey(s)
  }

  function NormalizeKey(k: GoKey): Key {
    match k
    case NilPointer => NilKey
    case Signed(i) => IntKey(i)
    case Unsigned(u) => if u <= MAX_INT64 then IntKey(u) else UintKey(u)
    case Floating(f) => if f == f.Floor as real && MIN_INT64 as real <= f <= MAX_INT64 as real then IntKey(f.Floor) else RealKey(f)
    case Text(s) => NormalizeString(s)
    case Bytes(s) => NormalizeString(s)
    case Other(id) => OtherKey(id)
  }

  /** A string is the same key as an integer exactly when it is that integer's decimal form: "7" is
      7, whatever Go type either comes in, and "007" or "+7" is not. */
  lemma StringMeetsInteger(s: string, i: Int64)
    ensures NormalizeString(s) == IntKey(i) <==> s == FormatInt(i)
  {
    if s == FormatInt(i) {
      ParseOfFormat(i);
    }
  }

  /** Two strings are the same key only if they are the same string. */
  lemma StringsStayApart(s: string, t: string)
    ensures NormalizeString(s) == NormalizeString(t) <==> s == t
  {
  }

  /** The two integer kinds meet on every value both can hold; a larger value stays unsigned. */
  lemma IntegersMeet(i: Int64, u: Uint64)
    ensures NormalizeKey(Signed(i)) == NormalizeKey(Unsigned(u)) <==> i == u
  {
  }

  // ---- Rows and parents ----

  datatype Row = Row(key: GoKey, payload: int)

  /** The key column of each parent; a parent whose type lacks the column is skipped. */
  type Parents = seq<Option<GoKey>>

  function KeyOf(parent: Option<GoKey>): Key {
    match parent case None => NilKey case Some(k) => NormalizeKey(k)
  }

  /** What loading one parent by itself gives: the rows with its key, in row order. */
  function RowsOf(rows: seq<Row>, k: Key): seq<Row> {
    if rows == [] then []
    else
      var last := rows[|rows| - 1];
      RowsOf(rows[..|rows| - 1], k) + (if NormalizeKey(last.key) == k then [last] else [])
  }

  /** The positions of the parents with a key, in order. */
  function PositionsOf(parents: Parents, k: Key): seq<nat> {
    if parents == [] then []
    else
      var n := |parents| - 1;
      PositionsOf(parents[..n], k) + (if KeyOf(parents[n]) == k then [n] else [])
  }

  lemma {:induction false} PositionsHold(parents: Parents, k: Key, p: nat)
    ensures p in PositionsOf(parents, k) <==> p < |parents| && KeyOf(parents[p]) == k
  {
    if parents != [] {
      PositionsHold(parents[..|parents| - 1], k, p);
    }
  }

  ghost predicate Increasing(ps: seq<nat>, bound: nat) {
    && (forall i | 0 <= i < |ps| :: ps[i] < bound)
    && (forall i, j | 0 <= i < j < |ps| :: ps[i] < ps[j])
  }

  lemma IncreasingSnoc(ps: seq<nat>, n: nat)
    requires Increasing(ps, n)
    ensures Increasing(ps, n + 1) && Increasing(ps + [n], n + 1)
  {
  }

  lemma {:induction false} PositionsIncrease(parents: Parents, k: Key)
    ensures Increasing(PositionsOf(parents, k), |parents|)
  {
    if parents != [] {
      var n := |parents| - 1;
      PositionsIncrease(parents[..n], k);
      IncreasingSnoc(PositionsOf(parents[..n], k), n);
      assert PositionsOf(parents[..n], k) + [] == PositionsOf(parents[..n], k);
    }
  }

  lemma PositionsAre(parents: Parents, k: Key)
    ensures var ps := PositionsOf(parents, k);
            && (forall p: nat :: p in ps <==> p < |parents| && KeyOf(parents[p]) == k)
            && (forall i, j | 0 <= i < j < |ps| :: ps[i] != ps[j])
  {
    PositionsIncrease(parents, k);
    forall p: nat ensures p in PositionsOf(parents, k) <==> p < |parents| && KeyOf(parents[p]) == k {
      PositionsHold(parents, k, p);
    }
  }

  /** A query by key list finds at least the rows with the keys asked for, in row order; rows with
      other keys, as a looser equality of the database may add, are allowed. */
  ghost predicate Faithful(fetch: seq<Key> -> seq<Row>, table: seq<Row>) {
    forall keys: seq<Key>, k | k in keys :: RowsOf(fetch(keys), k) == RowsOf(table, k)
  }

  function WhereIn(table: seq<Row>, keys: seq<Key>): seq<Row> {
    if table == [] then []
    else
      var last := table[|table| - 1];
      WhereIn(table[..|table| - 1], keys) + (if NormalizeKey(last.key) in keys then [last] else [])
  }

  lemma {:induction false} WhereInKeeps(table: seq<Row>, keys: seq<Key>, k: Key)
    requires k in keys
    ensures RowsOf(WhereIn(table, keys), k) == RowsOf(table, k)
  {
    if table != [] {
      var last := table[|table| - 1];
      var before := WhereIn(table[..|table| - 1], keys);
      WhereInKeeps(table[..|table| - 1], keys, k);
      if NormalizeKey(last.key) in keys {
        assert (before + [last])[..|before|] == before;
      } else {
        assert before + [] == before;
      }
    }
  }

  /** The query the loaders issue is faithful. */
  lemma WhereInIsFaithful(table: seq<Row>)
    ensures Faithful(keys => WhereIn(table, keys), table)
  {
    forall keys: seq<Key>, k | k in keys ensures RowsOf(WhereIn(table, keys), k) == RowsOf(table, k) {
      WhereInKeeps(table, keys, k);
    }
  }

  // ---- Collecting the keys ----

  /** The distinct non-nil keys, and for each of them all the parents that carry it. */
  ghost predicate Collected(parents: Parents, keys: seq<Key>, lookup: map<Key, seq<nat>>) {
    Distinct(keys) && Lists(keys, lookup) && Groups(parents, lookup)
  }

  ghost predicate Distinct(keys: seq<Key>) {
    forall i, j | 0 <= i < j < |keys| :: keys[i] != keys[j]
  }

  ghost predicate Lists(keys: seq<Key>, lookup: map<Key, seq<nat>>) {
    forall k :: k in keys <==> k in lookup
  }

  ghost predicate Groups(parents: Parents, lookup: map<Key, seq<nat>>) {
    && (forall k :: k in lookup <==> k != NilKey && PositionsOf(parents, k) != [])
    && (forall k | k in lookup :: lookup[k] == PositionsOf(parents, k))
  }

  lemma PositionsSnoc(parents: Parents, parent: Option<GoKey>, k: Key)
    ensures PositionsOf(parents + [parent], k) == PositionsOf(parents, k) + (if KeyOf(parent) == k then [|parents|] else [])
  {
    assert (parents + [parent])[..|parents|] == parents;
  }

  lemma GroupsWithoutNil(parents: Parents, parent: Option<GoKey>, lookup: map<Key, seq<nat>>)
    requires Groups(parents, lookup) && KeyOf(parent) == NilKey
    ensures Groups(parents + [parent], lookup)
  {
    forall k ensures k != NilKey ==> PositionsOf(parents + [parent], k) == PositionsOf(parents, k) {
      PositionsSnoc(parents, parent, k);
      assert PositionsOf(parents, k) + [] == PositionsOf(parents, k);
    }
  }

  function Enrol(lookup: map<Key, seq<nat>>, key: Key, n: nat): map<Key, seq<nat>> {
    lookup[key := (if key in lookup then lookup[key] else []) + [n]]
  }

  lemma GroupsWithOneMore(parents: Parents, parent: Option<GoKey>, lookup: map<Key, seq<nat>>)
    requires Groups(parents, lookup) && KeyOf(parent) != NilKey
    ensures Groups(parents + [parent], Enrol(lookup, KeyOf(parent), |parents|))
  {
    var key := KeyOf(parent);
    var more := Enrol(lookup, key, |parents|);
    forall k ensures k in more <==> k != NilKey && PositionsOf(parents + [parent], k) != []
      ensures k in more ==> more[k] == PositionsOf(parents + [parent], k)
    {
      PositionsSnoc(parents, parent, k);
      assert PositionsOf(parents, k) + [] == PositionsOf(parents, k);
      if k == key && key !in lookup {
        assert PositionsOf(parents, k) == [];
      }
    }
  }

  method CollectParentKeys(parents: Parents) returns (keys: seq<Key>, lookup: map<Key, seq<nat>>)
    ensures Collected(parents, keys, lookup)
  {
    keys, lookup := [], map[];
    var seen: set<Key> := {};
    for n := 0 to |parents|
      invariant forall k :: k in seen <==> k in keys
      invariant Collected(parents[..n], keys, lookup)
    {
      assert parents[..n + 1] == parents[..n] + [parents[n]];
      var key := KeyOf(parents[n]);
      if key == NilKey {
        GroupsWithoutNil(parents[..n], parents[n], lookup);
        continue;
      }
      GroupsWithOneMore(parents[..n], parents[n], lookup);
      if key !in seen {
        seen := seen + {key};
        keys := keys + [key];
      }
      lookup := Enrol(lookup, key, n);
    }
    assert parents[..|parents|] == parents;
  }

  // ---- Distributing the rows ----

  datatype Assignment<T> = Assignment(parent: nat, value: T)

  function Times<T>(trace: seq<Assignment<T>>, parent: nat): nat {
    if trace == [] then 0
    else Times(trace[..|trace| - 1], parent) + (if trace[|trace| - 1].parent == parent then 1 else 0)
  }

  lemma TimesOfSnoc<T>(trace: seq<Assignment<T>>, a: Assignment<T>, parent: nat)
    ensures Times(trace + [a], parent) == Times(trace, parent) + (if a.parent == parent then 1 else 0)
  {
    assert (trace + [a])[..|trace|] == trace;
  }

  /** Every parent with a key in done has been given the rows of its key, once; nobody else has
      been given anything. */
  ghost predicate Served(parents: Parents, rows: seq<Row>, trace: seq<Assignment<seq<Row>>>, done: iset<nat>) {
    && (forall a | a in trace :: a.parent < |parents| && a.value == RowsOf(rows, KeyOf(parents[a.parent])))
    && (forall p: nat :: Times(trace, p) == if p in done then 1 else 0)
  }

  lemma ServeOneMore(parents: Parents, rows: seq<Row>, trace: seq<Assignment<seq<Row>>>, done: iset<nat>, p: nat)
    requires Served(parents, rows, trace, done) && p < |parents| && p !in done
    ensures Served(parents, rows, trace + [Assignment(p, RowsOf(rows, KeyOf(parents[p])))], done + iset{p})
  {
    var a := Assignment(p, RowsOf(rows, KeyOf(parents[p])));
    forall q: nat ensures Times(trace + [a], q) == if q in done + iset{p} then 1 else 0 {
      TimesOfSnoc(trace, a, q);
    }
  }

  /** The bucket of each key of the fetched rows. */
  method Buckets(rows: seq<Row>) returns (buckets: map<Key, seq<Row>>)
    ensures forall k :: k in buckets <==> RowsOf(rows, k) != []
    ensures forall k | k in buckets :: buckets[k] == RowsOf(rows, k)
  {
    buckets := map[];
    for n := 0 to |rows|
      invariant forall k :: k in buckets <==> RowsOf(rows[..n], k) != []
      invariant forall k | k in buckets :: buckets[k] == RowsOf(rows[..n], k)
    {
      assert rows[..n + 1][..n] == rows[..n];
      var key := NormalizeKey(rows[n].key);
      var bucket := if key in buckets then buckets[key] else [];
      buckets := buckets[key := bucket + [rows[n]]];
    }
    assert rows[..|rows|] == rows;
  }

  ghost function Members(group: seq<nat>): iset<nat> {
    iset p | p in group
  }

  lemma MembersSnoc(done: iset<nat>, group: seq<nat>, j: nat)
    requires j < |group|
    ensures done + Members(group[..j + 1]) == done + Members(group[..j]) + iset{group[j]}
  {
  }

  lemma GroupsAdd(parents: Parents, keys: set<Key>, k: Key)
    ensures PositionsWithKeyIn(parents, keys) + Members(PositionsOf(parents, k)) == PositionsWithKeyIn(parents, keys + {k})
    ensures k !in keys ==> PositionsWithKeyIn(parents, keys) !! Members(PositionsOf(parents, k))
  {
    PositionsAre(parents, k);
  }

  lemma AllGroups(parents: Parents, keys: seq<Key>, lookup: map<Key, seq<nat>>, p: nat)
    requires Collected(parents, keys, lookup) && p < |parents|
    ensures p in PositionsWithKeyIn(parents, lookup.Keys) <==> KeyOf(parents[p]) != NilKey
  {
    PositionsAre(parents, KeyOf(parents[p]));
    assert p in PositionsOf(parents, KeyOf(parents[p]));
  }

  ghost function PositionsWithKeyIn(parents: Parents, keys: set<Key>): iset<nat> {
    iset p: nat | p < |parents| && KeyOf(parents[p]) in keys
  }

  /** The assignments to one group of parents. */
  method AssignRows(parents: Parents, ghost rows: seq<Row>, before: seq<Assignment<seq<Row>>>, ghost done: iset<nat>, group: seq<nat>, ghost k: Key, bucket: seq<Row>)
    returns (trace: seq<Assignment<seq<Row>>>)
    requires group == PositionsOf(parents, k) && done !! Members(group) && bucket == RowsOf(rows, k)
    requires Served(parents, rows, before, done)
    ensures Served(parents, rows, trace, done + Members(group))
  {
    trace := before;
    PositionsAre(parents, k);
    assert done + Members(group[..0]) == done;
    for j := 0 to |group|
      invariant Served(parents, rows, trace, done + Members(group[..j]))
    {
      assert group[j] in group;
      ServeOneMore(parents, rows, trace, done + Members(group[..j]), group[j]);
      MembersSnoc(done, group, j);
      trace := trace + [Assignment(group[j], bucket)];
    }
    assert group[..|group|] == group;
  }

  lemma AllServed(parents: Parents, keys: seq<Key>, lookup: map<Key, seq<nat>>, rows: seq<Row>, table: seq<Row>, trace: seq<Assignment<seq<Row>>>)
    requires Collected(parents, keys, lookup) && Served(parents, rows, trace, PositionsWithKeyIn(parents, lookup.Keys))
    requires forall k | k in keys :: RowsOf(rows, k) == RowsOf(table, k)
    ensures forall a | a in trace :: a.parent < |parents| && a.value == RowsOf(table, KeyOf(parents[a.parent]))
    ensures forall p | 0 <= p < |parents| :: Times(trace, p) == if KeyOf(parents[p]) != NilKey then 1 else 0
  {
    forall p | 0 <= p < |parents| ensures Times(trace, p) == if KeyOf(parents[p]) != NilKey then 1 else 0 {
      AllGroups(parents, keys, lookup, p);
    }
    forall a | a in trace ensures a.value == RowsOf(table, KeyOf(parents[a.parent])) {
      PresentIsCounted(trace, a);
    }
  }

  /** HasOne, HasMany, their morph forms and BelongsToMany: the batch gives every parent with a
      non-nil key exactly what loading it alone would, in row order and exactly once, and leaves
      the others alone. */
  method LoadHasOrMorph(parents: Parents, fetch: seq<Key> -> seq<Row>, ghost table: seq<Row>)
    returns (trace: seq<Assignment<seq<Row>>>)
    requires Faithful(fetch, table)
    ensures forall a | a in trace :: a.parent < |parents| && a.value == RowsOf(table, KeyOf(parents[a.parent]))
    ensures forall p | 0 <= p < |parents| :: Times(trace, p) == if KeyOf(parents[p]) != NilKey then 1 else 0
  {
    trace := [];
    var keys, lookup := CollectParentKeys(parents);
    if |keys| == 0 {
      assert lookup.Keys == {};
      AllServed(parents, keys, lookup, [], table, trace);
      return;
    }
    var rows := fetch(keys);
    var buckets := Buckets(rows);
    trace := AssignAll(parents, rows, keys, lookup, buckets);
    AllServed(parents, keys, lookup, rows, table, trace);
  }

  /** The loop over the groups of parents. */
  method AssignAll(parents: Parents, ghost rows: seq<Row>, ghost keys: seq<Key>, lookup: map<Key, seq<nat>>, buckets: map<Key, seq<Row>>)
    returns (trace: seq<Assignment<seq<Row>>>)
    requires Collected(parents, keys, lookup)
    requires forall k :: (if k in buckets then buckets[k] else []) == RowsOf(rows, k)
    ensures Served(parents, rows, trace, PositionsWithKeyIn(parents, lookup.Keys))
  {
    trace := [];
    var todo := lookup.Keys;
    ghost var done: set<Key> := {};
    while todo != {}
      invariant done !! todo && done + todo == lookup.Keys
      invariant Served(parents, rows, trace, PositionsWithKeyIn(parents, done))
      decreases todo
    {
      var k :| k in todo;
      GroupsAdd(parents, done, k);
      var bucket := if k in buckets then buckets[k] else [];
      trace := AssignRows(parents, rows, trace, PositionsWithKeyIn(parents, done), lookup[k], k, bucket);
      todo, done := todo - {k}, done + {k};
    }
    assert done == lookup.Keys;
  }

  lemma {:induction false} PresentIsCounted<T>(trace: seq<Assignment<T>>, a: Assignment<T>)
    requires a in trace
    ensures Times(trace, a.parent) > 0
  {
    var n := |trace| - 1;
    if trace[n] != a {
      assert a in trace[..n];
      PresentIsCounted(trace[..n], a);
    }
  }

  // ---- BelongsTo ----

  function Last(rows: seq<Row>, k: Key): Option<Row> {
    var found := RowsOf(rows, k);
    if found == [] then None else Some(found[|found| - 1])
  }

  /** No two rows carry the same key. */
  ghost predicate UniqueKeys(rows: seq<Row>) {
    forall i, j | 0 <= i < j < |rows| :: NormalizeKey(rows[i].key) != NormalizeKey(rows[j].key)
  }

  lemma {:induction false} NoRowsOfAbsent(rows: seq<Row>, k: Key)
    requires forall i | 0 <= i < |rows| :: NormalizeKey(rows[i].key) != k
    ensures RowsOf(rows, k) == []
  {
    if rows != [] {
      NoRowsOfAbsent(rows[..|rows| - 1], k);
    }
  }

  lemma {:induction false} UniqueKeysGiveOne(rows: seq<Row>, k: Key, i: nat)
    requires UniqueKeys(rows) && i < |rows| && NormalizeKey(rows[i].key) == k
    ensures RowsOf(rows, k) == [rows[i]]
  {
    var n := |rows| - 1;
    if i < n {
      UniqueKeysGiveOne(rows[..n], k, i);
      assert RowsOf(rows[..n], k) + [] == RowsOf(rows[..n], k);
    } else {
      NoRowsOfAbsent(rows[..n], k);
    }
  }

  /** The row kept for each key is the last one fetched with it. */
  method Results(rows: seq<Row>) returns (results: map<Key, Row>)
    ensures forall k :: k in results <==> Last(rows, k).Some?
    ensures forall k | k in results :: Last(rows, k) == Some(results[k])
  {
    results := map[];
    for n := 0 to |rows|
      invariant forall k :: k in results <==> Last(rows[..n], k).Some?
      invariant forall k | k in results :: Last(rows[..n], k) == Some(results[k])
    {
      assert rows[..n + 1][..n] == rows[..n];
      results := results[NormalizeKey(rows[n].key) := rows[n]];
    }
    assert rows[..|rows|] == rows;
  }

  /** The parents up to index n of a group that have an owner are given it, once. */
  ghost predicate Owned(parents: Parents, rows: seq<Row>, trace: seq<Assignment<Row>>, done: iset<nat>) {
    && (forall a | a in trace :: a.parent < |parents| && Last(rows, KeyOf(parents[a.parent])) == Some(a.value))
    && (forall p: nat :: Times(trace, p) == if p in done && p < |parents| && Last(rows, KeyOf(parents[p])).Some? then 1 else 0)
  }

  lemma OwnOneMore(parents: Parents, rows: seq<Row>, trace: seq<Assignment<Row>>, done: iset<nat>, p: nat)
    requires Owned(parents, rows, trace, done) && p < |parents| && p !in done && Last(rows, KeyOf(parents[p])).Some?
    ensures Owned(parents, rows, trace + [Assignment(p, Last(rows, KeyOf(parents[p])).value)], done + iset{p})
  {
    var a := Assignment(p, Last(rows, KeyOf(parents[p])).value);
    forall q: nat ensures Times(trace + [a], q) == if q in done + iset{p} && q < |parents| && Last(rows, KeyOf(parents[q])).Some? then 1 else 0 {
      TimesOfSnoc(trace, a, q);
    }
  }

  method AssignOwner(parents: Parents, ghost rows: seq<Row>, before: seq<Assignment<Row>>, ghost done: iset<nat>, group: seq<nat>, ghost k: Key, owner: Row)
    returns (trace: seq<Assignment<Row>>)
    requires group == PositionsOf(parents, k) && done !! Members(group) && Last(rows, k) == Some(owner)
    requires Owned(parents, rows, before, done)
    ensures Owned(parents, rows, trace, done + Members(group))
  {
    trace := before;
    PositionsAre(parents, k);
    assert done + Members(group[..0]) == done;
    for j := 0 to |group|
      invariant Owned(parents, rows, trace, done + Members(group[..j]))
    {
      assert group[j] in group;
      OwnOneMore(parents, rows, trace, done + Members(group[..j]), group[j]);
      MembersSnoc(done, group, j);
      trace := trace + [Assignment(group[j], owner)];
    }
    assert group[..|group|] == group;
  }

  lemma OwnedOnce(parents: Parents, keys: seq<Key>, lookup: map<Key, seq<nat>>, rows: seq<Row>, table: seq<Row>, trace: seq<Assignment<Row>>, p: nat)
    requires Collected(parents, keys, lookup) && Owned(parents, rows, trace, PositionsWithKeyIn(parents, lookup.Keys)) && p < |parents|
    requires forall k | k in keys :: Last(rows, k) == Last(table, k)
    ensures Times(trace, p) == if KeyOf(parents[p]) != NilKey && Last(table, KeyOf(parents[p])).Some? then 1 else 0
  {
    AllGroups(parents, keys, lookup, p);
  }

  lemma OwnedRightly(parents: Parents, keys: seq<Key>, lookup: map<Key, seq<nat>>, rows: seq<Row>, table: seq<Row>, trace: seq<Assignment<Row>>, a: Assignment<Row>)
    requires Collected(parents, keys, lookup) && Owned(parents, rows, trace, PositionsWithKeyIn(parents, lookup.Keys)) && a in trace
    requires forall k | k in keys :: Last(rows, k) == Last(table, k)
    ensures a.parent < |parents| && Last(table, KeyOf(parents[a.parent])) == Some(a.value)
  {
    PresentIsCounted(trace, a);
  }

  lemma AllOwned(parents: Parents, keys: seq<Key>, lookup: map<Key, seq<nat>>, rows: seq<Row>, table: seq<Row>, trace: seq<Assignment<Row>>)
    requires Collected(parents, keys, lookup) && Owned(parents, rows, trace, PositionsWithKeyIn(parents, lookup.Keys))
    requires forall k | k in keys :: RowsOf(rows, k) == RowsOf(table, k)
    ensures forall a | a in trace :: a.parent < |parents| && Last(table, KeyOf(parents[a.parent])) == Some(a.value)
    ensures forall p | 0 <= p < |parents| ::
              Times(trace, p) == if KeyOf(parents[p]) != NilKey && Last(table, KeyOf(parents[p])).Some? then 1 else 0
  {
    forall k | k in keys ensures Last(rows, k) == Last(table, k) {
    }
    forall p | 0 <= p < |parents| ensures Times(trace, p) == if KeyOf(parents[p]) != NilKey && Last(table, KeyOf(parents[p])).Some? then 1 else 0 {
      OwnedOnce(parents, keys, lookup, rows, table, trace, p);
    }
    forall a | a in trace ensures a.parent < |parents| && Last(table, KeyOf(parents[a.parent])) == Some(a.value) {
      OwnedRightly(parents, keys, lookup, rows, table, trace, a);
    }
  }

  /** BelongsTo: every parent whose key some row carries is given the last such row, exactly once,
      even when many parents share the key; with a unique owner key that is the one row there is. */
  method LoadBelongsTo(parents: Parents, fetch: seq<Key> -> seq<Row>, ghost table: seq<Row>)
    returns (trace: seq<Assignment<Row>>)
    requires Faithful(fetch, table)
    ensures forall a | a in trace :: a.parent < |parents| && Last(table, KeyOf(parents[a.parent])) == Some(a.value)
    ensures forall p | 0 <= p < |parents| ::
              Times(trace, p) == if KeyOf(parents[p]) != NilKey && Last(table, KeyOf(parents[p])).Some? then 1 else 0
  {
    trace := [];
    var keys, lookup := CollectParentKeys(parents);
    if |keys| == 0 {
      assert lookup.Keys == {};
      AllOwned(parents, keys, lookup, [], table, trace);
      return;
    }
    var rows := fetch(keys);
    var results := Results(rows);
    var todo := lookup.Keys;
    ghost var done: set<Key> := {};
    while todo != {}
      invariant done !! todo && done + todo == lookup.Keys
      invariant Owned(parents, rows, trace, PositionsWithKeyIn(parents, done))
      decreases todo
    {
      var k :| k in todo;
      GroupsAdd(parents, done, k);
      if k in results {
        trace := AssignOwner(parents, rows, trace, PositionsWithKeyIn(parents, done), lookup[k], k, results[k]);
      }
      todo, done := todo - {k}, done + {k};
    }
    assert done == lookup.Keys;
    AllOwned(parents, keys, lookup, rows, table, trace);
  }

  lemma UniqueOwner(table: seq<Row>, k: Key, i: nat)
    requires UniqueKeys(table) && i < |table| && NormalizeKey(table[i].key) == k
    ensures Last(table, k) == Some(table[i])
  {
    UniqueKeysGiveOne(table, k, i);
  }
}
