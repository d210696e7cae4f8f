// What the commit order of a key's changes shows: creates under If-None-Match
// alternate with deletes, and a write under If-Match directly follows the
// version it names (swap_object in db.rs).
module History {
  import opened Base
  import opened Objects
  import opened Completion
  import opened Store
  import opened Interleaving

  // What the key held after the first `n` changes.
  function After(log: seq<Change>, n: nat, k: ObjKey): Option<Meta>
    requires n <= |log|
  {
    if n == 0 then None else if log[n - 1].key == k then log[n - 1].after else After(log, n - 1, k)
  }

  // Each change found what the key held, and was allowed on it.
  ghost predicate Recorded(log: seq<Change>, i: nat)
    requires i < |log|
  {
    log[i].before == After(log, i, log[i].key) && Allowed(log[i].condition, log[i].before)
  }

  // The log accounts for the objects table.
  ghost predicate Accounts(s: Db) {
    && (forall i | 0 <= i < |s.log| :: Recorded(s.log, i))
    && forall k: ObjKey :: Lookup(s.objects, k) == After(s.log, |s.log|, k)
  }

  lemma {:induction false} AfterPrefix(log: seq<Change>, more: seq<Change>, n: nat, k: ObjKey)
    requires n <= |log|
    ensures After(log + more, n, k) == After(log, n, k)
  {
    if n > 0 {
      AfterPrefix(log, more, n - 1, k);
    }
  }

  // One key changed, and the log says so.
  lemma ChangeAccounted(s: Db, t: Db, c: Change)
    requires Accounts(s) && t.log == s.log + [c]
    requires c.before == Lookup(s.objects, c.key) && Allowed(c.condition, c.before)
    requires forall k: ObjKey :: Lookup(t.objects, k) == if k == c.key then c.after else Lookup(s.objects, k)
    ensures Accounts(t)
  {
    forall i | 0 <= i < |t.log| ensures Recorded(t.log, i) {
      AfterPrefix(s.log, [c], i, t.log[i].key);
      if i < |s.log| {
        assert Recorded(s.log, i) && t.log[i] == s.log[i];
      }
    }
    forall k: ObjKey ensures Lookup(t.objects, k) == After(t.log, |t.log|, k) {
      AfterPrefix(s.log, [c], |s.log|, k);
      assert t.log[|s.log|] == c;
    }
  }

  lemma StepAccounted(s: Db, a: Action, t: Db)
    requires Accounts(s) && Apply(s, a) == Some(t)
    ensures Accounts(t)
  {
    if t.log == s.log {
      SameObjects(s, a, t);
    } else {
      ChangeAccounted(s, t, t.log[|s.log|]);
    }
  }

  lemma SameObjects(s: Db, a: Action, t: Db)
    requires Apply(s, a) == Some(t)
    ensures t.log == s.log ==> t.objects == s.objects
  {
    if a.Put? || a.Complete? || (a.Delete? && a.key in s.objects) {
      assert |t.log| == |s.log| + 1;
    }
  }

  lemma {:induction false} RunAccounted(run: seq<Db>, i: nat)
    requires Run(run) && i < |run|
    ensures Accounts(run[i])
  {
    if i > 0 {
      RunAccounted(run, i - 1);
      assert NextAt(run, i - 1);
      NextAccounted(run[i - 1], run[i]);
    }
  }

  lemma NextAccounted(s: Db, t: Db)
    requires Accounts(s) && (t == s || Step(s, t))
    ensures Accounts(t)
  {
    if t != s {
      var a: Action :| Apply(s, a) == Some(t);
      StepAccounted(s, a, t);
    }
  }

  // What a key holds was put there by its last change.
  lemma {:induction false} LastChange(log: seq<Change>, n: nat, k: ObjKey) returns (i: nat)
    requires n <= |log| && After(log, n, k).Some?
    ensures i < n && log[i].key == k && log[i].after == After(log, n, k)
    ensures forall j | i < j < n :: log[j].key != k
  {
    if log[n - 1].key == k {
      i := n - 1;
    } else {
      i := LastChange(log, n - 1, k);
    }
  }

  // A key emptied after change i was deleted after it.
  lemma {:induction false} DeletedSince(log: seq<Change>, i: nat, n: nat, k: ObjKey) returns (d: nat)
    requires i < n <= |log| && log[i].key == k && log[i].after.Some? && After(log, n, k).None?
    ensures i < d < n && log[d].key == k && log[d].after.None?
  {
    if log[n - 1].key == k {
      d := n - 1;
    } else {
      d := DeletedSince(log, i, n - 1, k);
    }
  }

  // At most one If-None-Match create of a key commits between deletes of it.
  lemma CreatesAlternateWithDeletes(run: seq<Db>, n: nat, i: nat, j: nat)
    requires Run(run) && n < |run| && i < j < |run[n].log|
    requires run[n].log[i].key == run[n].log[j].key && run[n].log[i].after.Some?
    requires run[n].log[j].condition == IfAbsent
    ensures exists d :: i < d < j && run[n].log[d].key == run[n].log[i].key && run[n].log[d].after.None?
  {
    RunAccounted(run, n);
    assert Recorded(run[n].log, j);
    var d := DeletedSince(run[n].log, i, j, run[n].log[i].key);
  }

  // A committed If-Match write directly follows a version with that ETag: no
  // change of the key comes between.
  lemma MatchFollowsItsVersion(run: seq<Db>, n: nat, j: nat)
    requires Run(run) && n < |run| && j < |run[n].log| && run[n].log[j].condition.IfMatch?
    ensures exists i :: 0 <= i < j && MatchedBy(run[n].log, i, j)
  {
    RunAccounted(run, n);
    var log := run[n].log;
    assert Recorded(log, j);
    var i := LastChange(log, j, log[j].key);
    assert MatchedBy(log, i, j);
  }

  // Change i left the version with the ETag that change j names, which j replaced.
  ghost predicate MatchedBy(log: seq<Change>, i: nat, j: nat)
    requires i < j < |log| && log[j].condition.IfMatch?
  {
    && log[i].key == log[j].key && log[i].after.Some? && log[j].before == log[i].after
    && Hex(log[i].after.value.etag) == log[j].condition.want
    && forall m | i < m < j :: log[m].key != log[j].key
  }

  // The ETag decides the digest: had the key's digest changed, the write would
  // have been refused.
  lemma MatchIsOfTheDigest(log: seq<Change>, i: nat, j: nat, etag: seq<Byte>)
    requires i < j < |log| && log[j].condition == IfMatch(Hex(etag)) && MatchedBy(log, i, j)
    ensures log[i].after.value.etag == etag
  {
    HexInjective(log[i].after.value.etag, etag);
  }

  // The same of any interleaving of the statements.
  lemma InterleavedHistory(hash: ObjKey -> int, run: seq<Sys>, n: nat, j: nat)
    requires SysRun(hash, run) && n < |run| && j < |run[n].db.log|
    ensures run[n].db.log[j].condition.IfMatch? ==> exists i :: 0 <= i < j && MatchedBy(run[n].db.log, i, j)
    ensures run[n].db.log[j].condition == IfAbsent ==> forall i | 0 <= i < j ::
      run[n].db.log[i].key == run[n].db.log[j].key && run[n].db.log[i].after.Some? ==>
        exists d :: i < d < j && run[n].db.log[d].key == run[n].db.log[j].key && run[n].db.log[d].after.None?
  {
    InterleavingsAreRuns(hash, run);
    var dbs := Databases(run);
    assert dbs[n] == run[n].db;
    if dbs[n].log[j].condition.IfMatch? {
      MatchFollowsItsVersion(dbs, n, j);
    }
    if dbs[n].log[j].condition == IfAbsent {
      forall i | 0 <= i < j && dbs[n].log[i].key == dbs[n].log[j].key && dbs[n].log[i].after.Some?
        ensures exists d :: i < d < j && dbs[n].log[d].key == dbs[n].log[j].key && dbs[n].log[d].after.None?
      {
        CreatesAlternateWithDeletes(dbs, n, i, j);
      }
    }
  }
}
