/** The migrator over its record table (migrations/migrator.go, migrations/registry.go): batches,
    names and the order in which migrations were applied. */
module Migrator {
  import opened Prelude
  import opened Ordering

  /** A row of the migrations table. */
  datatype Record = Record(name: string, batch: nat)

  /** The order of the table: by batch, then by name. */
  predicate Earlier(a: Record, b: Record) {
    a.batch < b.batch || (a.batch == b.batch && AtMost(a.name, b.name))
  }

  predicate Later(a: Record, b: Record) {
    Earlier(b, a)
  }

  lemma EarlierIsTotalOrder()
    ensures TotalOrder(Earlier) && TotalOrder(Later)
  {
    AtMostIsTotalOrder();
  }

  /** The rows in the order in which they were inserted: batches never go down, names go up within
      a batch, and no migration is recorded twice. */
  ghost predicate Chronological(records: seq<Record>) {
    records != [] ==>
      var before, last := records[..|records| - 1], records[|records| - 1];
      Chronological(before) && forall r | r in before :: Earlier(r, last) && r.name != last.name
  }

  ghost predicate InOrder(records: seq<Record>) {
    && SortedBy(records, Earlier)
    && (forall i, j | 0 <= i < j < |records| :: records[i].name != records[j].name)
  }

  lemma {:induction false} ChronologicalIsInOrder(records: seq<Record>)
    ensures Chronological(records) <==> InOrder(records)
  {
    if records != [] {
      var before, last := records[..|records| - 1], records[|records| - 1];
      ChronologicalIsInOrder(before);
      if InOrder(records) {
        forall r | r in before ensures Earlier(r, last) && r.name != last.name {
          var i :| 0 <= i < |before| && before[i] == r;
          assert records[i] == r;
        }
        forall i, j | 0 <= i < j < |before| ensures Earlier(before[i], before[j]) && before[i].name != before[j].name {
          assert before[i] == records[i] && before[j] == records[j];
        }
      }
      if Chronological(records) {
        forall i, j | 0 <= i < j < |records| ensures Earlier(records[i], records[j]) && records[i].name != records[j].name {
          assert records[i] == before[i] && before[i] in before;
        }
      }
    }
  }

  lemma {:induction false} ChronologicalPrefix(records: seq<Record>, k: nat)
    requires Chronological(records) && k <= |records|
    ensures Chronological(records[..k])
  {
    if k < |records| {
      ChronologicalPrefix(records[..|records| - 1], k);
      assert records[..|records| - 1][..k] == records[..k];
    } else {
      assert records[..k] == records;
    }
  }

  ghost predicate NamesIncrease(records: seq<Record>) {
    forall i, j | 0 <= i < j < |records| :: Less(records[i].name, records[j].name)
  }

  /** Reading the table by (batch, name) gives the order of application. */
  lemma TableOrderIsChronological(records: seq<Record>)
    requires Chronological(records)
    ensures Sort(records, Earlier) == records
    ensures Sort(records, Later) == Reversed(records)
  {
    EarlierIsTotalOrder();
    ChronologicalIsInOrder(records);
    SortOfSorted(records, Earlier);
    var back := Reversed(records);
    ReversedPermutes(records);
    assert SortedBy(back, Later);
    SortSorts(records, Later);
    SortPermutes(records, Later);
    SortedIsUnique(Sort(records, Later), back, Later);
  }

  function Reversed<T>(s: seq<T>): seq<T> {
    seq(|s|, i requires 0 <= i < |s| => s[|s| - 1 - i])
  }

  lemma ReversedAt<T>(s: seq<T>, target: seq<T>, k: nat)
    requires k < |target| <= |s| && target == Reversed(s)[..|target|]
    ensures target[k] == s[|s| - 1 - k]
  {
  }

  lemma {:induction false} ReversedPermutes<T>(s: seq<T>)
    ensures multiset(Reversed(s)) == multiset(s)
  {
    if s != [] {
      ReversedPermutes(s[..|s| - 1]);
      assert Reversed(s) == [s[|s| - 1]] + Reversed(s[..|s| - 1]);
      assert s == s[..|s| - 1] + [s[|s| - 1]];
    }
  }

  function Recorded(names: seq<string>, batch: nat): seq<Record> {
    seq(|names|, i requires 0 <= i < |names| => Record(names[i], batch))
  }

  function LastBatch(records: seq<Record>): nat {
    if records == [] then 0 else Max(LastBatch(records[..|records| - 1]), records[|records| - 1].batch)
  }

  lemma {:induction false} LastBatchBounds(records: seq<Record>)
    ensures forall r | r in records :: r.batch <= LastBatch(records)
  {
    if records != [] {
      LastBatchBounds(records[..|records| - 1]);
      assert records == records[..|records| - 1] + [records[|records| - 1]];
    }
  }

  /** A new batch goes after everything that is there. */
  lemma {:induction false} BatchExtends(records: seq<Record>, names: seq<string>, batch: nat)
    requires Chronological(records) && batch > LastBatch(records)
    requires forall i, j | 0 <= i < j < |names| :: Less(names[i], names[j])
    requires forall r, n | r in records && n in names :: r.name != n
    ensures Chronological(records + Recorded(names, batch))
    decreases |names|
  {
    var all := records + Recorded(names, batch);
    if names == [] {
      assert all == records;
    } else {
      var n := |names| - 1;
      var before, last := records + Recorded(names[..n], batch), Record(names[n], batch);
      assert forall m | m in names[..n] :: m in names;
      BatchExtends(records, names[..n], batch);
      assert all[..|all| - 1] == before && all[|all| - 1] == last;
      forall r | r in before ensures Earlier(r, last) && r.name != last.name {
        LaterInBatch(records, names, batch, r);
      }
    }
  }

  /** The last of a batch comes after what was there and after the batch so far. */
  lemma LaterInBatch(records: seq<Record>, names: seq<string>, batch: nat, r: Record)
    requires names != [] && batch > LastBatch(records)
    requires forall i, j | 0 <= i < j < |names| :: Less(names[i], names[j])
    requires forall r, n | r in records && n in names :: r.name != n
    requires r in records + Recorded(names[..|names| - 1], batch)
    ensures var last := Record(names[|names| - 1], batch); Earlier(r, last) && r.name != last.name
  {
    var n := |names| - 1;
    LastBatchBounds(records);
    if r in records {
      assert names[n] in names;
    } else {
      var i :| 0 <= i < n && r == Recorded(names[..n], batch)[i];
      LessIsAsymmetric(names[i], names[n]);
    }
  }

  /** With only higher names added, names go up along the whole log. */
  lemma NamesStayIncreasing(records: seq<Record>, names: seq<string>, batch: nat)
    requires NamesIncrease(records)
    requires forall i, j | 0 <= i < j < |names| :: Less(names[i], names[j])
    requires forall r, n | r in records && n in names :: Less(r.name, n)
    ensures NamesIncrease(records + Recorded(names, batch))
  {
    var all := records + Recorded(names, batch);
    forall i, j | 0 <= i < j < |all| ensures Less(all[i].name, all[j].name) {
      if i < |records| <= j {
        assert records[i] in records && names[j - |records|] in names;
      }
    }
  }

  // ---- The registry ----

  datatype Migration = Migration(name: string, id: int)

  class Registry {
    var mig: map<string, Migration>
    var seen: seq<string>

    ghost predicate Valid()
      reads this
    {
      && (forall n :: n in mig <==> n in seen)
      && (forall n | n in mig :: mig[n].name == n && n != "")
      && (forall i, j | 0 <= i < j < |seen| :: seen[i] != seen[j])
    }

    constructor ()
      ensures Valid() && mig == map[]
    {
      mig, seen := map[], [];
    }

    /** Without a name, or with one that is taken, it panics. */
    method Register(m: Migration) returns (ok: bool)
      requires Valid()
      modifies this
      ensures Valid()
      ensures ok <==> m.name != "" && m.name !in old(mig)
      ensures mig == if ok then old(mig)[m.name := m] else old(mig)
    {
      if m.name == "" || m.name in mig {
        return false;
      }
      mig := mig[m.name := m];
      seen := seen + [m.name];
      return true;
    }

    /** Every registered migration once, in the order of their names. */
    method All() returns (all: seq<Migration>)
      requires Valid()
      ensures forall m :: m in all <==> m.name in mig && mig[m.name] == m
      ensures forall i, j | 0 <= i < j < |all| :: Less(all[i].name, all[j].name)
    {
      var names := Sort(seen, AtMost);
      SortedNames(seen);
      all := [];
      for i := 0 to |names|
        invariant |all| == i && forall k | 0 <= k < i :: all[k] == mig[names[k]]
      {
        assert names[i] in names;
        all := all + [mig[names[i]]];
      }
      forall m ensures m in all <==> m.name in mig && mig[m.name] == m {
        if m.name in mig && mig[m.name] == m {
          var k :| 0 <= k < |names| && names[k] == m.name;
          assert all[k] == m;
        }
      }
    }

    method Reset()
      modifies this
      ensures Valid() && mig == map[]
    {
      mig, seen := map[], [];
    }
  }

  lemma SortedNames(seen: seq<string>)
    requires forall i, j | 0 <= i < j < |seen| :: seen[i] != seen[j]
    ensures var names := Sort(seen, AtMost);
            && (forall n :: n in names <==> n in seen)
            && (forall i, j | 0 <= i < j < |names| :: Less(names[i], names[j]))
  {
    var names := Sort(seen, AtMost);
    AtMostIsTotalOrder();
    SortSorts(seen, AtMost);
    SortPermutes(seen, AtMost);
    SortKeepsElements(seen, AtMost);
    DistinctIsOnce(seen);
    OnceIsDistinct(names);
    forall i, j | 0 <= i < j < |names| ensures Less(names[i], names[j]) {
      LessIsTotal(names[i], names[j]);
    }
  }

  lemma {:induction false} DistinctIsOnce<T>(s: seq<T>)
    requires forall i, j | 0 <= i < j < |s| :: s[i] != s[j]
    ensures forall x | x in multiset(s) :: multiset(s)[x] == 1
  {
    if s != [] {
      DistinctIsOnce(s[1..]);
      assert s == [s[0]] + s[1..];
      assert s[0] !in s[1..];
    }
  }

  lemma {:induction false} OnceIsDistinct<T>(s: seq<T>)
    requires forall x | x in multiset(s) :: multiset(s)[x] == 1
    ensures forall i, j | 0 <= i < j < |s| :: s[i] != s[j]
  {
    if s != [] {
      assert s == [s[0]] + s[1..];
      assert multiset(s) == multiset{s[0]} + multiset(s[1..]);
      assert multiset(s)[s[0]] == 1;
      forall x | x in multiset(s[1..]) ensures multiset(s[1..])[x] == 1 {
        assert x in multiset(s);
      }
      OnceIsDistinct(s[1..]);
      assert s[0] !in multiset(s[1..]);
    }
  }

  // ---- The migrator ----

  datatype Error = OutOfOrder(name: string) | UpFailed(name: string) | DownFailed(name: string) | NotRegistered(name: string)

  datatype Options = Options(pretend: bool, allowOutOfOrder: bool)

  /** The number of records in the last batch. */
  function LastBatchSize(records: seq<Record>): nat {
    if records == [] then 0
    else
      var n := |records| - 1;
      if n > 0 && records[n - 1].batch == records[n].batch then 1 + LastBatchSize(records[..n]) else 1
  }

  /** How many records a rollback aims at; zero or fewer steps mean the last batch. */
  function Aim(records: seq<Record>, step: int): nat {
    if step <= 0 then LastBatchSize(records) else if step > |records| then |records| else step
  }

  lemma {:induction false} LastBatchSizeFits(records: seq<Record>)
    ensures LastBatchSize(records) <= |records|
    ensures records != [] ==> LastBatchSize(records) >= 1
  {
    if records != [] {
      LastBatchSizeFits(records[..|records| - 1]);
    }
  }

  /** The last batch is what a run of Up added, whatever was there before. */
  lemma {:induction false} LastBatchIsWhatUpAdded(records: seq<Record>, names: seq<string>, batch: nat)
    requires batch > LastBatch(records) && names != []
    ensures LastBatchSize(records + Recorded(names, batch)) == |names|
    decreases |names|
  {
    var n := |names| - 1;
    var all := records + Recorded(names, batch);
    assert all[..|all| - 1] == records + Recorded(names[..n], batch);
    if n > 0 {
      LastBatchIsWhatUpAdded(records, names[..n], batch);
      assert all[|all| - 2] == Record(names[n - 1], batch);
    } else {
      LastBatchBounds(records);
      assert Recorded(names[..0], batch) == [];
      if |records| > 0 {
        assert all[|all| - 2] == records[|records| - 1] && records[|records| - 1] in records;
      }
    }
  }

  function HighestName(records: seq<Record>): string {
    if records == [] then ""
    else
      var rest := HighestName(records[..|records| - 1]);
      var last := records[|records| - 1].name;
      if Less(rest, last) then last else rest
  }

  lemma {:induction false} HighestNameBounds(records: seq<Record>)
    ensures forall r | r in records :: AtMost(r.name, HighestName(records))
    ensures records != [] ==> exists r :: r in records && r.name == HighestName(records)
  {
    if records != [] {
      var before, last := records[..|records| - 1], records[|records| - 1];
      HighestNameBounds(before);
      AtMostIsTotalOrder();
      assert records == before + [last];
      if !Less(HighestName(before), last.name) && before == [] {
        LessIsTotal("", last.name);
      }
    }
  }

  function Dropped(records: seq<Record>, name: string): seq<Record> {
    if records == [] then []
    else
      var last := records[|records| - 1];
      Dropped(records[..|records| - 1], name) + (if last.name == name then [] else [last])
  }

  lemma {:induction false} DroppedAbsent(records: seq<Record>, name: string)
    requires forall i | 0 <= i < |records| :: records[i].name != name
    ensures Dropped(records, name) == records
  {
    if records != [] {
      var n := |records| - 1;
      DroppedAbsent(records[..n], name);
      assert Dropped(records, name) == records[..n] + [records[n]];
    }
  }

  /** What can be applied: registered, not recorded, in the order of names; with a limit the first
      of these alone. */
  ghost predicate IsPending(pending: seq<string>, registered: set<string>, applied: set<string>, limit: nat) {
    && (forall i, j | 0 <= i < j < |pending| :: Less(pending[i], pending[j]))
    && (forall n | n in pending :: n in registered && n !in applied)
    && (forall n | n in registered && n !in applied && n !in pending :: limit > 0 && |pending| == limit && forall p | p in pending :: Less(p, n))
    && (limit > 0 ==> |pending| <= limit)
  }

  class Migrator {
    const registry: Registry
    const opts: Options
    var records: seq<Record>

    ghost predicate Valid()
      reads this, registry
    {
      registry.Valid() && Chronological(records)
    }

    constructor (registry: Registry, opts: Options)
      requires registry.Valid()
      ensures Valid() && this.registry == registry && this.opts == opts && records == []
    {
      this.registry, this.opts := registry, opts;
      records := [];
    }

    ghost function Applied(): set<string>
      reads this
    {
      set r | r in records :: r.name
    }

    /** What is pending, or the first migration that comes too late. */
    method FindPending(limit: nat) returns (r: Result<seq<string>, Error>)
      requires Valid()
      ensures r.Success? ==>
                && IsPending(r.value, registry.mig.Keys, Applied(), limit)
                && (!opts.allowOutOfOrder ==> forall n | n in r.value :: AtMost(HighestName(records), n))
      ensures r.Failure? ==>
                && !opts.allowOutOfOrder
                && r.error.OutOfOrder? && r.error.name in registry.mig && r.error.name !in Applied() && Less(r.error.name, HighestName(records))
    {
      var all := registry.All();
      var applied := set rec | rec in records :: rec.name;
      var highest := HighestName(records);
      var pending: seq<string> := [];
      ghost var start: seq<string> := [];
      for i := 0 to |all|
        invariant Scanned(all, i, pending, applied)
        invariant limit > 0 ==> |pending| < limit
        invariant !opts.allowOutOfOrder ==> forall n | n in pending :: AtMost(highest, n)
      {
        var name := all[i].name;
        assert all[i] in all;
        OneMorePending(all, i, pending, applied);
        if name in applied {
          continue;
        }
        if !opts.allowOutOfOrder && Less(name, highest) {
          return Failure(OutOfOrder(name));
        }
        pending := pending + [name];
        if limit > 0 && |pending| >= limit {
          PendingStops(all, i, pending, registry.mig, applied, limit);
          return Success(pending);
        }
      }
      PendingIsAll(all, pending, registry.mig, applied, limit);
      return Success(pending);
    }

    /** Applies what is pending as one batch and stops at the first failure. */
    method RunUp(limit: nat, ups: string -> bool) returns (names: seq<string>, err: Option<Error>, ghost pending: seq<string>)
      requires Valid()
      modifies this
      ensures Valid()
      ensures records == if opts.pretend then old(records) else old(records) + Recorded(names, LastBatch(old(records)) + 1)
      ensures !opts.allowOutOfOrder && NamesIncrease(old(records)) ==> NamesIncrease(records)
      ensures err.None? || !err.value.OutOfOrder? ==> IsPending(pending, registry.mig.Keys, old(Applied()), limit) && names <= pending
      ensures forall n | n in names :: ups(n)
      ensures err.None? ==> names == pending
      ensures err.Some? && !err.value.OutOfOrder? ==> |names| < |pending| && err.value == UpFailed(pending[|names|]) && !ups(pending[|names|])
      ensures err.Some? && err.value.OutOfOrder? ==> names == []
    {
      names, pending := [], [];
      assert Recorded([], LastBatch(records) + 1) == [] && records + [] == records;
      var found := FindPending(limit);
      if found.Failure? {
        return names, Some(found.error), pending;
      }
      var todo := found.value;
      pending := todo;
      names, err := ApplyAll(todo, LastBatch(records) + 1, ups);
      RunKept(old(records), todo, |names|, LastBatch(old(records)) + 1, opts.allowOutOfOrder);
    }

    /** The loop of RunUp. */
    method ApplyAll(todo: seq<string>, batch: nat, ups: string -> bool) returns (names: seq<string>, err: Option<Error>)
      modifies this
      ensures |names| <= |todo| && names == todo[..|names|] && forall n | n in names :: ups(n)
      ensures records == if opts.pretend then old(records) else old(records) + Recorded(names, batch)
      ensures if |names| == |todo| then err == None else err == Some(UpFailed(todo[|names|])) && !ups(todo[|names|])
    {
      names := [];
      assert Recorded([], batch) == [] && records + [] == records;
      for i := 0 to |todo|
        invariant names == todo[..i] && forall n | n in names :: ups(n)
        invariant records == if opts.pretend then old(records) else old(records) + Recorded(names, batch)
      {
        if !ups(todo[i]) {
          return names, Some(UpFailed(todo[i]));
        }
        if !opts.pretend {
          records := records + [Record(todo[i], batch)];
        }
        assert Recorded(names + [todo[i]], batch) == Recorded(names, batch) + [Record(todo[i], batch)];
        names := names + [todo[i]];
      }
      return names, None;
    }

    method RevertOne(name: string, downs: string -> bool) returns (ok: bool)
      modifies this
      ensures ok == downs(name)
      ensures records == if ok && !opts.pretend then Dropped(old(records), name) else old(records)
    {
      if !downs(name) {
        return false;
      }
      if !opts.pretend {
        records := Dropped(records, name);
      }
      return true;
    }

    /** Removes a suffix of the log, last record first, and stops at the first failure. */
    method Rollback(step: int, downs: string -> bool) returns (rolled: seq<string>, err: Option<Error>)
      requires Valid()
      modifies this
      ensures Valid() && |rolled| <= Aim(old(records), step) <= |old(records)|
      ensures RolledBack(old(records), rolled, records, opts.pretend)
      ensures err == if |rolled| == Aim(old(records), step) then None else Some(Blame(old(records), |rolled|, registry.mig.Keys))
      ensures err.Some? && err.value.DownFailed? ==> !downs(err.value.name)
    {
      rolled := [];
      LastBatchSizeFits(records);
      NothingRolled(records, opts.pretend);
      TableOrderIsChronological(records);
      var all := Sort(Sort(records, Earlier), Later);
      if |all| == 0 {
        return rolled, None;
      }
      var target := |all|;
      if step <= 0 {
        target := FirstBatch(all);
        FirstBatchIsLast(records);
      } else if step < |all| {
        target := step;
      }
      rolled, err := RevertAll(all[..target], downs);
    }

    /** The loop of Rollback over the records it aims at. */
    method RevertAll(target: seq<Record>, downs: string -> bool) returns (rolled: seq<string>, err: Option<Error>)
      requires Valid() && |target| <= |records| && target == Reversed(records)[..|target|]
      modifies this
      ensures Valid() && |rolled| <= |target|
      ensures RolledBack(old(records), rolled, records, opts.pretend)
      ensures err == if |rolled| == |target| then None else Some(Blame(old(records), |rolled|, registry.mig.Keys))
      ensures err.Some? && err.value.DownFailed? ==> !downs(err.value.name)
    {
      rolled := [];
      ghost var before := records;
      NothingRolled(before, opts.pretend);
      for k := 0 to |target|
        invariant |rolled| == k && RolledBack(before, rolled, records, opts.pretend)
      {
        var next := RevertNext(target, k, downs, before, rolled);
        if next.Fail? {
          RolledIsChronological(before, rolled, records, opts.pretend);
          return rolled, Some(next.error);
        }
        rolled := rolled + [target[k].name];
      }
      RolledIsChronological(before, rolled, records, opts.pretend);
      return rolled, None;
    }

    /** The loop body of Rollback. */
    method RevertNext(target: seq<Record>, k: nat, downs: string -> bool, ghost before: seq<Record>, ghost rolled: seq<string>) returns (r: Outcome<Error>)
      requires Chronological(before) && RolledBack(before, rolled, records, opts.pretend)
      requires |rolled| == k < |target| <= |before| && target == Reversed(before)[..|target|]
      modifies this
      ensures RolledBack(before, if r.Pass? then rolled + [target[k].name] else rolled, records, opts.pretend)
      ensures r.Fail? ==> r.error == Blame(before, k, registry.mig.Keys)
      ensures r.Fail? && r.error.DownFailed? ==> !downs(r.error.name)
    {
      var name := target[k].name;
      RevertStep(before, rolled, records, opts.pretend, target, k, registry.mig.Keys);
      if name !in registry.mig {
        return Fail(NotRegistered(name));
      }
      var ok := RevertOne(name, downs);
      return if ok then Pass else Fail(DownFailed(name));
    }

    method Reset(downs: string -> bool) returns (rolled: seq<string>, err: Option<Error>)
      requires Valid()
      modifies this
      ensures Valid() && RolledBack(old(records), rolled, records, opts.pretend)
      ensures err.None? && !opts.pretend ==> records == []
    {
      LastBatchSizeFits(records);
      rolled, err := Rollback(|records|, downs);
    }

    /** A successful Up that applied something is undone by rolling back one batch. */
    method UpThenRollback(ups: string -> bool, downs: string -> bool) returns (names: seq<string>, upErr: Option<Error>, rolled: seq<string>, downErr: Option<Error>)
      requires Valid() && !opts.pretend && (forall n :: downs(n))
      modifies this
      ensures Valid()
      ensures upErr.None? && names != [] ==> downErr.None? && records == old(records) && rolled == Reversed(names)
    {
      ghost var before, batch, applied, pending := records, LastBatch(records) + 1, Applied(), [];
      names, upErr, pending := RunUp(0, ups);
      rolled, downErr := [], None;
      if upErr.Some? || names == [] {
        return;
      }
      PendingIsRegistered(names, pending, registry.mig.Keys, applied, 0);
      rolled, downErr := RollbackOf(before, names, batch, downs);
    }

    /** Rolling back the batch that ends the log. */
    method RollbackOf(ghost before: seq<Record>, ghost names: seq<string>, ghost batch: nat, downs: string -> bool)
      returns (rolled: seq<string>, downErr: Option<Error>)
      requires Valid() && !opts.pretend && (forall n :: downs(n))
      requires records == before + Recorded(names, batch) && names != [] && batch > LastBatch(before)
      requires forall n | n in names :: n in registry.mig.Keys
      modifies this
      ensures Valid() && downErr.None? && records == before && rolled == Reversed(names)
    {
      ghost var registered := registry.mig.Keys;
      rolled, downErr := Rollback(0, downs);
      UpUndone(before, names, batch, registered, rolled, records, downErr);
    }
  }

  /** The log after a run that applied the first i of todo. */
  lemma RunKept(before: seq<Record>, todo: seq<string>, i: nat, batch: nat, allowOutOfOrder: bool)
    requires Chronological(before) && batch == LastBatch(before) + 1 && i <= |todo|
    requires forall a, b | 0 <= a < b < |todo| :: Less(todo[a], todo[b])
    requires forall n | n in todo :: n !in (set r | r in before :: r.name)
    requires !allowOutOfOrder ==> forall n | n in todo :: AtMost(HighestName(before), n)
    ensures Chronological(before + Recorded(todo[..i], batch))
    ensures !allowOutOfOrder && NamesIncrease(before) ==> NamesIncrease(before + Recorded(todo[..i], batch))
  {
    var names := todo[..i];
    forall r, n | r in before && n in names ensures r.name != n {
      assert n in todo;
      assert r.name in (set q | q in before :: q.name);
    }
    BatchExtends(before, names, batch);
    if !allowOutOfOrder && NamesIncrease(before) {
      HighestNameBounds(before);
      AtMostIsTotalOrder();
      forall r, n | r in before && n in names ensures Less(r.name, n) {
        assert n in todo && r.name != n;
        assert AtMost(r.name, HighestName(before)) && AtMost(HighestName(before), n);
        LessIsTotal(r.name, n);
      }
      NamesStayIncreasing(before, names, batch);
    }
  }

  /** How many records, from the first on, share its batch. */
  function FirstBatchSize(all: seq<Record>): nat
    requires all != []
  {
    if |all| > 1 && all[1].batch == all[0].batch then 1 + FirstBatchSize(all[1..]) else 1
  }

  method FirstBatch(all: seq<Record>) returns (n: nat)
    requires all != []
    ensures n == FirstBatchSize(all) && 1 <= n <= |all|
  {
    var lastBatch := all[0].batch;
    n := 1;
    while n < |all| && all[n].batch == lastBatch
      invariant 1 <= n <= |all| && all[n - 1].batch == lastBatch
      invariant FirstBatchSize(all) == n - 1 + FirstBatchSize(all[n - 1..])
    {
      assert all[n - 1..][1..] == all[n..];
      n := n + 1;
    }
  }

  lemma {:induction false} FirstBatchIsLast(records: seq<Record>)
    requires records != []
    ensures FirstBatchSize(Reversed(records)) == LastBatchSize(records)
    decreases |records|
  {
    var n := |records| - 1;
    if n > 0 {
      assert Reversed(records)[1..] == Reversed(records[..n]);
      FirstBatchIsLast(records[..n]);
    }
  }

  /** The names of the last k records of the log, last first. */
  function RolledNames(records: seq<Record>, k: nat): seq<string>
    requires k <= |records|
  {
    if k == 0 then [] else RolledNames(records, k - 1) + [records[|records| - k].name]
  }

  /** A suffix of the log is gone, or would be, and the names say which, last first. */
  ghost predicate RolledBack(before: seq<Record>, rolled: seq<string>, now: seq<Record>, pretend: bool) {
    var k := |rolled|;
    k <= |before| && rolled == RolledNames(before, k) && now == if pretend then before else before[..|before| - k]
  }

  /** The migration that stopped a rollback after k others. */
  function Blame(before: seq<Record>, k: nat, registered: set<string>): Error
    requires k < |before|
  {
    var name := before[|before| - 1 - k].name;
    if name in registered then DownFailed(name) else NotRegistered(name)
  }

  lemma NothingRolled(before: seq<Record>, pretend: bool)
    ensures RolledBack(before, [], before, pretend)
  {
  }

  lemma RolledIsChronological(before: seq<Record>, rolled: seq<string>, now: seq<Record>, pretend: bool)
    requires Chronological(before) && RolledBack(before, rolled, now, pretend)
    ensures Chronological(now)
    ensures NamesIncrease(before) ==> NamesIncrease(now)
  {
    ChronologicalPrefix(before, |now|);
    assert now == before[..|now|];
  }

  lemma OneMoreRolled(before: seq<Record>, rolled: seq<string>, now: seq<Record>, pretend: bool)
    requires Chronological(before) && RolledBack(before, rolled, now, pretend) && |rolled| < |before|
    ensures var name := before[|before| - 1 - |rolled|].name;
            RolledBack(before, rolled + [name], if pretend then now else Dropped(now, name), pretend)
  {
    var k := |rolled|;
    var name := before[|before| - 1 - k].name;
    DroppedLast(before, |before| - k, name);
  }

  /** What reverting one more of the targets does, and what is to blame if it fails. */
  lemma RevertStep(before: seq<Record>, rolled: seq<string>, now: seq<Record>, pretend: bool, target: seq<Record>, k: nat, registered: set<string>)
    requires Chronological(before) && RolledBack(before, rolled, now, pretend)
    requires |rolled| == k < |target| <= |before| && target == Reversed(before)[..|target|]
    ensures var name := target[k].name;
            && RolledBack(before, rolled + [name], if pretend then now else Dropped(now, name), pretend)
            && Blame(before, k, registered) == if name in registered then DownFailed(name) else NotRegistered(name)
  {
    ReversedAt(before, target, k);
    OneMoreRolled(before, rolled, now, pretend);
  }

  /** Rolling back what one run of Up added: nothing but a failing Down can stop it half-way, and
      the log is then what it was. */
  lemma UpUndone(records: seq<Record>, names: seq<string>, batch: nat, registered: set<string>, rolled: seq<string>, now: seq<Record>, err: Option<Error>)
    requires names != [] && batch > LastBatch(records) && forall n | n in names :: n in registered
    requires var all := records + Recorded(names, batch);
             && |rolled| <= Aim(all, 0) <= |all| && RolledBack(all, rolled, now, false)
             && err == if |rolled| == Aim(all, 0) then None else Some(Blame(all, |rolled|, registered))
    ensures err.Some? ==> err.value.DownFailed?
    ensures err.None? ==> now == records && rolled == Reversed(names)
  {
    LastBatchIsWhatUpAdded(records, names, batch);
    if |rolled| < |names| {
      BatchAt(records, names, batch, |rolled|);
    } else {
      WholeBatchRolled(records, names, batch, rolled, now);
    }
  }

  lemma BatchAt(records: seq<Record>, names: seq<string>, batch: nat, k: nat)
    requires k < |names|
    ensures var all := records + Recorded(names, batch); k < |all| && all[|all| - 1 - k].name in names
  {
    var all := records + Recorded(names, batch);
    assert all[|all| - 1 - k].name == names[|names| - 1 - k];
  }

  lemma WholeBatchRolled(records: seq<Record>, names: seq<string>, batch: nat, rolled: seq<string>, now: seq<Record>)
    requires |rolled| == |names| && RolledBack(records + Recorded(names, batch), rolled, now, false)
    ensures now == records && rolled == Reversed(names)
  {
    assert (records + Recorded(names, batch))[..|records|] == records;
    BatchRolledBack(records, names, batch, |names|);
    assert Reversed(names)[..|names|] == Reversed(names);
  }

  lemma {:induction false} BatchRolledBack(records: seq<Record>, names: seq<string>, batch: nat, k: nat)
    requires k <= |names|
    ensures RolledNames(records + Recorded(names, batch), k) == Reversed(names)[..k]
    decreases k
  {
    if k > 0 {
      BatchRolledBack(records, names, batch, k - 1);
      assert (records + Recorded(names, batch))[|records| + |names| - k].name == names[|names| - k];
      assert Reversed(names)[..k] == Reversed(names)[..k - 1] + [names[|names| - k]];
    }
  }

  lemma DroppedLast(records: seq<Record>, k: nat, name: string)
    requires Chronological(records) && 0 < k <= |records| && records[k - 1].name == name
    ensures Dropped(records[..k], name) == records[..k - 1] && Chronological(records[..k - 1])
  {
    assert records[..k][..k - 1] == records[..k - 1];
    ChronologicalPrefix(records, k);
    ChronologicalPrefix(records, k - 1);
    var gone := records[..k - 1];
    forall i | 0 <= i < k - 1 ensures gone[i].name != name {
      assert gone[i] in records[..k][..k - 1];
    }
    DroppedAbsent(gone, name);
  }

  lemma PendingIsRegistered(names: seq<string>, pending: seq<string>, registered: set<string>, applied: set<string>, limit: nat)
    requires IsPending(pending, registered, applied, limit) && names <= pending
    ensures forall n | n in names :: n in registered
  {
    forall n | n in names ensures n in registered {
      assert n in pending;
    }
  }

  /** The pending names among the first i migrations. */
  ghost predicate Scanned(all: seq<Migration>, i: nat, pending: seq<string>, applied: set<string>) {
    && i <= |all|
    && (forall k | 0 <= k < i :: all[k].name in applied || all[k].name in pending)
    && (forall n | n in pending :: n !in applied && exists k :: 0 <= k < i && all[k].name == n)
    && (forall a, b | 0 <= a < b < |pending| :: Less(pending[a], pending[b]))
  }

  lemma OneMorePending(all: seq<Migration>, i: nat, pending: seq<string>, applied: set<string>)
    requires i < |all| && Scanned(all, i, pending, applied)
    requires forall a, b | 0 <= a < b < |all| :: Less(all[a].name, all[b].name)
    ensures all[i].name !in applied ==> Scanned(all, i + 1, pending + [all[i].name], applied)
    ensures all[i].name in applied ==> Scanned(all, i + 1, pending, applied)
  {
    forall a | 0 <= a < |pending| ensures Less(pending[a], all[i].name) {
      assert pending[a] in pending;
      var k :| 0 <= k < i && all[k].name == pending[a];
    }
    forall n | n in pending ensures exists k :: 0 <= k < i + 1 && all[k].name == n {
      var k :| 0 <= k < i && all[k].name == n;
    }
  }

  lemma PendingIsAll(all: seq<Migration>, pending: seq<string>, mig: map<string, Migration>, applied: set<string>, limit: nat)
    requires Scanned(all, |all|, pending, applied) && (limit > 0 ==> |pending| < limit)
    requires forall m :: m in all <==> m.name in mig && mig[m.name] == m
    requires forall n | n in mig :: mig[n].name == n
    ensures IsPending(pending, mig.Keys, applied, limit)
  {
    forall n | n in mig && n !in applied ensures n in pending {
      assert mig[n] in all;
      var k :| 0 <= k < |all| && all[k] == mig[n];
    }
    forall n | n in pending ensures n in mig {
      var k :| 0 <= k < |all| && all[k].name == n;
      assert all[k] in all;
    }
  }

  lemma PendingStops(all: seq<Migration>, i: nat, pending: seq<string>, mig: map<string, Migration>, applied: set<string>, limit: nat)
    requires i < |all| && pending != [] && pending[|pending| - 1] == all[i].name && |pending| == limit
    requires forall m :: m in all <==> m.name in mig && mig[m.name] == m
    requires forall n | n in mig :: mig[n].name == n
    requires forall a, b | 0 <= a < b < |all| :: Less(all[a].name, all[b].name)
    requires Scanned(all, i + 1, pending, applied)
    ensures IsPending(pending, mig.Keys, applied, limit)
  {
    forall n | n in pending ensures n in mig.Keys {
      var k :| 0 <= k <= i && all[k].name == n;
      assert all[k] in all;
    }
    forall n | n in mig.Keys && n !in applied && n !in pending ensures forall p | p in pending :: Less(p, n) {
      assert mig[n] in all;
      var k :| 0 <= k < |all| && all[k] == mig[n];
      forall p | p in pending ensures Less(p, n) {
        var j :| 0 <= j <= i && all[j].name == p;
      }
    }
  }
}
