// Expiry of stale multipart uploads (expire_uploads in schema.sql): bounded
// calls that drain parts from the front and drop records only when empty.
module Expiry {
  import opened Base
  import opened Store
  import opened StoreInvariant
  import opened Tables

  const MAX_ATTEMPTS: nat := 64
  const MAX_BUDGET: int := 8192

  // The call may touch this upload: stale, and in the bucket asked for.
  predicate Aims(s: Db, u: string, stale: seq<string>, bucket: Option<string>) {
    u in stale && u in s.uploads && (bucket.None? || s.uploads[u].bucket == bucket.value)
  }

  // Rows, parts and uploads may only have gone.
  ghost predicate Shrunk(s: Db, t: Db) {
    && t == s.(chunks := t.chunks, parts := t.parts, uploads := t.uploads)
    && (forall r <- t.chunks :: r in s.chunks && t.chunks[r] == s.chunks[r])
    && (forall id <- t.parts :: id in s.parts && t.parts[id] == s.parts[id])
    && (forall u <- t.uploads :: u in s.uploads && t.uploads[u] == s.uploads[u])
  }

  // From s to t only stale uploads shrank; a part record is gone only with all
  // rows of its file, an upload only with all its parts.
  ghost predicate Expired(s: Db, t: Db, stale: seq<string>, bucket: Option<string>) {
    && Shrunk(s, t)
    && (forall r <- s.chunks :: r in t.chunks || RowExpired(s, r, stale, bucket))
    && (forall id <- s.parts :: id in t.parts || PartExpired(s, t, id, stale, bucket))
    && (forall u <- s.uploads :: u in t.uploads || UploadExpired(s, t, u, stale, bucket))
  }

  ghost predicate RowExpired(s: Db, r: RowId, stale: seq<string>, bucket: Option<string>) {
    exists id <- s.parts :: s.parts[id].file == r.file && Aims(s, id.upload, stale, bucket)
  }

  ghost predicate PartExpired(s: Db, t: Db, id: PartId, stale: seq<string>, bucket: Option<string>)
    requires id in s.parts
  {
    Aims(s, id.upload, stale, bucket) && forall r <- t.chunks :: r.file != s.parts[id].file
  }

  ghost predicate UploadExpired(s: Db, t: Db, u: string, stale: seq<string>, bucket: Option<string>) {
    Aims(s, u, stale, bucket) && forall id <- t.parts :: id.upload != u
  }

  function Size(s: Db): nat { |s.chunks| + |s.parts| + |s.uploads| }

  lemma ExpiredThen(s: Db, t: Db, u: Db, stale: seq<string>, bucket: Option<string>)
    requires Expired(s, t, stale, bucket) && Expired(t, u, stale, bucket)
    ensures Expired(s, u, stale, bucket)
  {
    forall r <- s.chunks | r !in u.chunks ensures RowExpired(s, r, stale, bucket) {
      if r in t.chunks {
        RowThen(s, t, r, stale, bucket);
      }
    }
    forall id <- s.parts | id !in u.parts ensures PartExpired(s, u, id, stale, bucket) {
      if id in t.parts {
        assert PartExpired(t, u, id, stale, bucket);
      } else {
        assert PartExpired(s, t, id, stale, bucket);
      }
    }
    forall v <- s.uploads | v !in u.uploads ensures UploadExpired(s, u, v, stale, bucket) {
      if v in t.uploads {
        assert UploadExpired(t, u, v, stale, bucket);
      } else {
        assert UploadExpired(s, t, v, stale, bucket);
      }
    }
  }

  lemma RowThen(s: Db, t: Db, r: RowId, stale: seq<string>, bucket: Option<string>)
    requires Shrunk(s, t) && RowExpired(t, r, stale, bucket)
    ensures RowExpired(s, r, stale, bucket)
  {
    var id :| id in t.parts && t.parts[id].file == r.file && Aims(t, id.upload, stale, bucket);
    assert s.parts[id].file == r.file && Aims(s, id.upload, stale, bucket);
  }

  // ---- one attempt ----

  // The part and upload records, which stand in the way of expiring the next.
  function Records(s: Db): nat { |s.parts| + |s.uploads| }

  lemma AttemptExpires(s: Db, u: string, limit: nat, stale: seq<string>, bucket: Option<string>)
    requires Aims(s, u, stale, bucket) && limit > 0
    ensures var (t, n) := ExpireAttempt(s, u, limit);
      && Expired(s, t, stale, bucket) && n == |s.chunks| - |t.chunks| && n <= limit && Size(t) < Size(s)
      && (n < limit ==> Records(t) < Records(s))
  {
    var rows := PartRows(s.parts, u);
    PartRowsNumbered(s.parts, u);
    if rows == [] {
      UploadDropped(s, u, stale, bucket);
    } else {
      var id := PartId(u, rows[0].no);
      PartDrained(s, id, limit, stale, bucket);
      var d := Doomed(s.chunks, rows[0].file, limit);
      var v := s.(chunks := s.chunks - d, parts := s.parts - {id});
      if |d| < limit && PartNos(v.parts, u) == {} {
        UploadGoes(s, v, u, stale, bucket);
      }
    }
  }

  lemma UploadDropped(s: Db, u: string, stale: seq<string>, bucket: Option<string>)
    requires Aims(s, u, stale, bucket) && PartRows(s.parts, u) == []
    ensures var t := s.(uploads := s.uploads - {u}); Expired(s, t, stale, bucket) && Size(t) < Size(s) && Records(t) < Records(s)
  {
    PartRowsNumbered(s.parts, u);
    forall id <- s.parts ensures id.upload != u {
      assert id.upload == u ==> id.no in Sorted(PartNos(s.parts, u));
    }
    Removed(s.uploads, u);
  }

  lemma Removed<K, V>(m: map<K, V>, k: K)
    requires k in m
    ensures |m - {k}| == |m| - 1
  {
    assert (m - {k}).Keys == m.Keys - {k};
  }

  lemma PartDrained(s: Db, id: PartId, limit: nat, stale: seq<string>, bucket: Option<string>)
    requires id in s.parts && Aims(s, id.upload, stale, bucket) && limit > 0
    ensures var d := Doomed(s.chunks, s.parts[id].file, limit);
      var t := s.(chunks := s.chunks - d);
      var v := t.(parts := s.parts - {id});
      && |t.chunks| == |s.chunks| - |d| && |d| <= limit
      && (|d| >= limit ==> Expired(s, t, stale, bucket) && Size(t) < Size(s))
      && (|d| < limit ==> Expired(s, v, stale, bucket) && Size(v) < Size(s) && Records(v) < Records(s))
  {
    var d := Doomed(s.chunks, s.parts[id].file, limit);
    DoomedIs(s, s.parts[id].file, limit);
    RowsLost(s.chunks, d);
    Removed(s.parts, id);
    if |d| < limit {
      PartGoes(s, id, d, stale, bucket);
    } else {
      RowsExpired(s, id, d, stale, bucket);
    }
  }

  lemma RowsLost<K, V>(m: map<K, V>, d: set<K>)
    requires forall k <- d :: k in m
    ensures |m - d| == |m| - |d|
  {
    assert (m - d).Keys == m.Keys - d && d <= m.Keys;
  }

  lemma UploadGoes(s: Db, v: Db, u: string, stale: seq<string>, bucket: Option<string>)
    requires Expired(s, v, stale, bucket) && Aims(s, u, stale, bucket) && PartNos(v.parts, u) == {}
    ensures Expired(s, v.(uploads := v.uploads - {u}), stale, bucket)
    ensures |v.uploads - {u}| <= |v.uploads|
  {
    NoParts(v.parts, u);
    if u in v.uploads {
      Removed(v.uploads, u);
    } else {
      assert v.uploads - {u} == v.uploads;
    }
  }

  lemma NoParts(parts: map<PartId, Part>, u: string)
    requires PartNos(parts, u) == {}
    ensures forall id <- parts :: id.upload != u
  {
    forall id <- parts ensures id.upload != u {
      assert id.upload == u ==> id.no in PartNos(parts, u);
    }
  }

  lemma RowsExpired(s: Db, id: PartId, d: set<RowId>, stale: seq<string>, bucket: Option<string>)
    requires id in s.parts && Aims(s, id.upload, stale, bucket) && forall r <- d :: r.file == s.parts[id].file
    ensures Expired(s, s.(chunks := s.chunks - d), stale, bucket)
  {
  }

  lemma PartGoes(s: Db, id: PartId, d: set<RowId>, stale: seq<string>, bucket: Option<string>)
    requires id in s.parts && Aims(s, id.upload, stale, bucket)
    requires forall r <- d :: r.file == s.parts[id].file
    requires forall r <- s.chunks :: r.file == s.parts[id].file ==> r in d
    ensures Expired(s, s.(chunks := s.chunks - d, parts := s.parts - {id}), stale, bucket)
  {
  }

  // ---- the call ----

  predicate Eligible(s: Db, u: string, bucket: Option<string>, locked: set<string>) {
    u in s.uploads && (bucket.None? || s.uploads[u].bucket == bucket.value) && u !in locked
  }

  // The oldest stale upload that nobody has locked; `stale` is oldest first.
  method PickVictim(d: Database, stale: seq<string>, bucket: Option<string>, locked: set<string>)
    returns (v: Option<string>)
    ensures v.None? ==> forall u <- stale :: !Eligible(d.State(), u, bucket, locked)
    ensures v.Some? ==> Eligible(d.State(), v.value, bucket, locked) && exists i ::
      0 <= i < |stale| && stale[i] == v.value && forall j | 0 <= j < i :: !Eligible(d.State(), stale[j], bucket, locked)
  {
    for i := 0 to |stale|
      invariant forall j | 0 <= j < i :: !Eligible(d.State(), stale[j], bucket, locked)
    {
      var u := stale[i];
      if u in d.uploads && (bucket.None? || d.uploads[u].bucket == bucket.value) && u !in locked {
        return Some(u);
      }
    }
    v := None;
  }

  // One pass of the loop at one upload.
  method Attempt(d: Database, victim: string, remaining: nat) returns (removed: nat)
    requires victim in d.uploads
    modifies d`chunks, d`parts, d`uploads
    ensures (d.State(), removed) == ExpireAttempt(old(d.State()), victim, remaining)
  {
    var rows := PartRows(d.parts, victim);
    if rows == [] {
      d.uploads := d.uploads - {victim};
      return 0;
    }
    var doomed := Doomed(d.chunks, rows[0].file, remaining);
    d.chunks := d.chunks - doomed;
    removed := |doomed|;
    if removed < remaining {
      d.parts := d.parts - {PartId(victim, rows[0].no)};
      if PartNos(d.parts, victim) == {} {
        d.uploads := d.uploads - {victim};
      }
    }
  }

  // The states of a call, one attempt apart.
  ghost predicate Attempts(path: seq<Db>) {
    path != [] && forall i | 0 <= i < |path| - 1 :: Advances(path[i], path[i + 1])
  }

  ghost predicate Advances(s: Db, t: Db) { Step(s, t) && Size(t) < Size(s) }

  lemma AttemptsMore(path: seq<Db>, u: string, limit: nat, t: Db, stale: seq<string>, bucket: Option<string>)
    requires Attempts(path) && Aims(path[|path| - 1], u, stale, bucket) && limit > 0
    requires t == ExpireAttempt(path[|path| - 1], u, limit).0
    ensures Attempts(path + [t])
  {
    AttemptAdvances(path[|path| - 1], u, limit, t, stale, bucket);
  }

  lemma AttemptAdvances(s: Db, u: string, limit: nat, t: Db, stale: seq<string>, bucket: Option<string>)
    requires Aims(s, u, stale, bucket) && limit > 0 && t == ExpireAttempt(s, u, limit).0
    ensures Advances(s, t)
  {
    AttemptExpires(s, u, limit, stale, bucket);
    assert Apply(s, Store.Expire(u, limit)) == Some(t);
  }

  // Attempts lead from s to the present state, and have only expired what they may.
  ghost predicate LeadsTo(s: Db, now: Db, path: seq<Db>, stale: seq<string>, bucket: Option<string>) {
    Attempts(path) && path[0] == s && path[|path| - 1] == now && Expired(s, now, stale, bucket)
  }

  lemma LeadsFurther(
    s: Db, now: Db, path: seq<Db>, u: string, limit: nat, t: Db, stale: seq<string>, bucket: Option<string>)
    requires LeadsTo(s, now, path, stale, bucket) && Aims(now, u, stale, bucket) && limit > 0
    requires t == ExpireAttempt(now, u, limit).0
    ensures LeadsTo(s, t, path + [t], stale, bucket)
  {
    AttemptsMore(path, u, limit, t, stale, bucket);
    AttemptExpires(now, u, limit, stale, bucket);
    ExpiredThen(s, now, t, stale, bucket);
  }

  // An attempt gets all of the budget that is left: it used that up, or a record
  // has gone.
  ghost predicate Settles(s: Db, before: Db, after: Db, maxRows: int) {
    Records(after) < Records(before) || |s.chunks| - |after.chunks| == maxRows
  }

  ghost predicate Spends(s: Db, path: seq<Db>, maxRows: int) {
    forall i | 0 <= i < |path| - 1 :: Settles(s, path[i], path[i + 1], maxRows)
  }

  lemma SpendsOn(s: Db, path: seq<Db>, t: Db, maxRows: int)
    requires path != [] && Spends(s, path, maxRows) && Settles(s, path[|path| - 1], t, maxRows)
    ensures Spends(s, path + [t], maxRows)
  {
  }

  method AttemptOn(
    d: Database, victim: string, remaining: nat,
    ghost s: Db, ghost path0: seq<Db>, ghost stale: seq<string>, ghost bucket: Option<string>)
    returns (removed: nat, ghost path: seq<Db>)
    requires LeadsTo(s, d.State(), path0, stale, bucket) && Aims(d.State(), victim, stale, bucket) && remaining > 0
    modifies d`chunks, d`parts, d`uploads
    ensures LeadsTo(s, d.State(), path, stale, bucket) && path == path0 + [d.State()]
    ensures removed < remaining ==> Records(d.State()) < old(Records(d.State()))
    ensures removed <= remaining && removed == |old(d.chunks)| - |d.chunks|
  {
    ghost var t := d.State();
    removed := Attempt(d, victim, remaining);
    AttemptExpires(t, victim, remaining, stale, bucket);
    LeadsFurther(s, t, path0, victim, remaining, d.State(), stale, bucket);
    path := path0 + [d.State()];
  }

  // A call removes at most its budget of rows in at most 64 attempts, each a
  // step that drops a record or uses the budget up. When it stops with budget and attempts to
  // spare, nothing that it may expire is left.
  method ExpireUploads(
    d: Database, stale: seq<string>, graceOk: bool, maxRows: int, bucket: Option<string>, locked: nat -> set<string>)
    returns (r: Option<nat>, ghost path: seq<Db>)
    modifies d`chunks, d`parts, d`uploads
    ensures r.None? <==> !graceOk || maxRows < 1 || maxRows > MAX_BUDGET
    ensures r.None? ==> d.State() == old(d.State())
    ensures LeadsTo(old(d.State()), d.State(), path, stale, bucket) && |path| - 1 <= MAX_ATTEMPTS
    ensures r.Some? ==> Spends(old(d.State()), path, maxRows)
    ensures r.Some? ==> r.value <= maxRows && r.value == |old(d.chunks)| - |d.chunks|
    ensures r.Some? ==> |path| > 1 || forall u <- stale :: !Eligible(old(d.State()), u, bucket, locked(0))
    ensures r.Some? && r.value < maxRows && |path| - 1 < MAX_ATTEMPTS ==>
      exists a: nat :: forall u <- stale :: !Eligible(d.State(), u, bucket, locked(a))
  {
    ghost var s := d.State();
    path := [s];
    ExpiredNone(s, stale, bucket);
    if !graceOk || maxRows < 1 || maxRows > MAX_BUDGET {
      return None, path;
    }
    var removed: nat := 0;
    for attempt := 0 to MAX_ATTEMPTS
      invariant LeadsTo(s, d.State(), path, stale, bucket) && |path| - 1 == attempt
      invariant removed == |s.chunks| - |d.chunks| && removed < maxRows
      invariant Spends(s, path, maxRows)
    {
      var victim := PickVictim(d, stale, bucket, locked(attempt));
      if victim.None? {
        return Some(removed), path;
      }
      var batch;
      ghost var path0 := path;
      batch, path := AttemptOn(d, victim.value, maxRows - removed, s, path, stale, bucket);
      removed := removed + batch;
      SpendsOn(s, path0, d.State(), maxRows);
      if removed == maxRows {
        break;
      }
    }
    r := Some(removed);
  }

  lemma {:induction false} AttemptsShrink(path: seq<Db>)
    requires Attempts(path) && |path| > 1
    ensures Size(path[|path| - 1]) < Size(path[0])
  {
    if |path| > 2 {
      AttemptsShrink(path[..|path| - 1]);
    }
    var i := |path| - 2;
    assert Advances(path[i], path[i + 1]);
  }

  // Calls made until none is left, with nothing locked, remove every stale upload.
  method ExpireAll(d: Database, stale: seq<string>, maxRows: int, bucket: Option<string>)
    requires 1 <= maxRows <= MAX_BUDGET
    modifies d`chunks, d`parts, d`uploads
    ensures Expired(old(d.State()), d.State(), stale, bucket)
    ensures forall u <- stale :: !Aims(d.State(), u, stale, bucket)
  {
    ExpiredNone(d.State(), stale, bucket);
    while exists u <- stale :: u in d.uploads && (bucket.None? || d.uploads[u].bucket == bucket.value)
      invariant Expired(old(d.State()), d.State(), stale, bucket)
      decreases Size(d.State())
    {
      ghost var s := d.State();
      var r;
      ghost var path;
      r, path := ExpireUploads(d, stale, true, maxRows, bucket, _ => {});
      ExpiredThen(old(d.State()), s, d.State(), stale, bucket);
      assert exists u <- stale :: Eligible(s, u, bucket, {});
      AttemptsShrink(path);
    }
  }

  lemma ExpiredNone(s: Db, stale: seq<string>, bucket: Option<string>)
    ensures Expired(s, s, stale, bucket)
  {
  }
}
