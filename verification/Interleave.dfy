// The transactions that change a key, statement by statement and interleaved
// across any number of gateways (swap_object, lock_object_key, reap, delete and
// their callers in db.rs). Each statement reads the committed state; what a
// transaction writes stays its own until it commits. The hash behind the
// advisory lock is any function, so two keys may share a lock.
module Interleaving {
  import opened Base
  import opened Objects
  import opened Completion
  import opened Store
  import opened StoreInvariant
  import opened Versions

  datatype Pc = Begun | Checked | Locked | Looked | Wrote | Reaping

  // A running transaction: what it set out to do, how far it is, the version
  // it read, the rows it deleted, the parts it read.
  datatype Tx = Tx(action: Action, pc: Pc, was: Option<Meta>, doomed: set<RowId>, rows: seq<PartRow>)

  datatype Sys = Sys(db: Db, locks: map<int, nat>, txs: map<nat, Tx>)

  const Idle := Sys(Empty, map[], map[])

  // The steps. All other transactions run at once, as `Other`.
  datatype Event =
    | Begin(tx: nat, action: Action)
    | Check(tx: nat)
    | Lock(tx: nat)
    | Look(tx: nat)
    | Write(tx: nat)
    | Reap(tx: nat)
    | Commit(tx: nat)
    | Abort(tx: nat)
    | Other(action: Action)

  predicate Mutation(a: Action) { a.Put? || a.Complete? || a.Delete? }

  predicate HasLock(pc: Pc) { !pc.Begun? && !pc.Checked? }

  predicate HasRead(pc: Pc) { pc.Looked? || pc.Wrote? || pc.Reaping? }

  function ConditionOf(a: Action): Condition { if a.Put? then a.condition else Unconditional }

  // A Put's open writer; the row locks that checks take.
  predicate Uses(s: Sys, file: nat) {
    exists i <- s.txs :: s.txs[i].action.Put? && s.txs[i].action.file == file
  }

  predicate SharesBucket(s: Sys, name: string) {
    exists i <- s.txs :: s.txs[i].action.Put? && !s.txs[i].pc.Begun? && s.txs[i].action.key.bucket == name
  }

  predicate LocksUpload(s: Sys, upload: string) {
    exists i <- s.txs :: s.txs[i].action.Complete? && !s.txs[i].pc.Begun? && s.txs[i].action.upload == upload
  }

  // Waiting for a lock another transaction holds; SKIP LOCKED passes it by.
  predicate Blocked(s: Sys, a: Action) {
    match a
    case DropWriter(file) => Uses(s, file)
    case PutPart(id, file, _, _) => Uses(s, file) || LocksUpload(s, id.upload)
    case AbortUpload(upload, _) => LocksUpload(s, upload)
    case Expire(upload, _) => LocksUpload(s, upload)
    case DeleteBucket(name) => SharesBucket(s, name)
    case _ => false
  }

  // The listed parts are the recorded ones.
  predicate Valid(db: Db, a: Action)
    requires a.Complete?
  {
    && Lookup(db.uploads, a.upload) == Some(a.key) && a.listed != []
    && SortByNo(a.listed) == AllListed(PartRows(db.parts, a.upload))
  }

  // The transaction ends; its locks go.
  function Ended(s: Sys, tx: nat): Sys {
    s.(locks := map h | h in s.locks && s.locks[h] != tx :: s.locks[h], txs := s.txs - {tx})
  }

  // What a commit makes visible: the transaction's own writes, made from what it read.
  function Visible(db: Db, x: Tx): Db
    requires Mutation(x.action) && (x.action.Complete? ==> x.rows != [])
  {
    match x.action
    case Put(k, file, data, etag, condition) =>
      var m, t := Meta(file, |data|, etag, None, None), Copied(db, file, data);
      t.(objects := t.objects[k := m], chunks := t.chunks - x.doomed,
         log := t.log + [Change(k, condition, x.was, Some(m))])
    case Complete(upload, k, _, etag) =>
      var m := Published(x.rows, etag);
      Cleared(db.(objects := db.objects[k := m], chunks := db.chunks - x.doomed,
                  log := db.log + [Change(k, Unconditional, x.was, Some(m))]), upload)
    case Delete(k) =>
      if x.was.None? then db else
      db.(objects := db.objects - {k}, chunks := db.chunks - x.doomed,
          log := db.log + [Change(k, Unconditional, x.was, None)])
  }

  // One step; None is a step that is not possible now. A failed check rolls back.
  function Next(hash: ObjKey -> int, s: Sys, e: Event): Option<Sys> {
    if e.Begin? then
      if e.tx in s.txs || !Mutation(e.action) then None else
      if e.action.Put? && (e.action.file !in s.db.writing || |e.action.data| > MAX_FILE || Uses(s, e.action.file))
      then None
      else Some(s.(txs := s.txs[e.tx := Tx(e.action, Begun, None, {}, [])]))
    else if e.Other? then
      if Mutation(e.action) || Blocked(s, e.action) then None else
      var t := Apply(s.db, e.action);
      if t.None? then None else Some(s.(db := t.value))
    else if e.tx !in s.txs || !Mutation(s.txs[e.tx].action) then None
    else if e.Abort? then Some(Ended(s, e.tx))
    else OwnStep(hash, s, e)
  }

  function OwnStep(hash: ObjKey -> int, s: Sys, e: Event): Option<Sys>
    requires !e.Begin? && !e.Other? && e.tx in s.txs && Mutation(s.txs[e.tx].action)
  {
    var x := s.txs[e.tx];
    var k := x.action.key;
    match e
    case Check(tx) =>
      if x.pc != Begun || (x.action.Complete? && LocksUpload(s, x.action.upload)) then None else
      if x.action.Put? && k.bucket !in s.db.buckets then Some(Ended(s, tx)) else
      if x.action.Complete? && !Valid(s.db, x.action) then Some(Ended(s, tx)) else
      var rows := if x.action.Complete? then PartRows(s.db.parts, x.action.upload) else [];
      Some(s.(txs := s.txs[tx := x.(pc := Checked, rows := rows)]))
    case Lock(tx) =>
      if x.pc != Checked || hash(k) in s.locks then None else
      Some(s.(locks := s.locks[hash(k) := tx], txs := s.txs[tx := x.(pc := Locked)]))
    case Look(tx) =>
      if x.pc != Locked then None else
      var was := Lookup(s.db.objects, k);
      if !Allowed(ConditionOf(x.action), was) then Some(Ended(s, tx)) else
      Some(s.(txs := s.txs[tx := x.(pc := if x.action.Delete? then Wrote else Looked, was := was)]))
    case Write(tx) =>
      if x.pc != Looked then None else Some(s.(txs := s.txs[tx := x.(pc := Wrote)]))
    case Reap(tx) =>
      if x.pc != Wrote then None else
      Some(s.(txs := s.txs[tx := x.(pc := Reaping, doomed := RowsIn(s.db.chunks, Reaped(x.was)))]))
    case Commit(tx) =>
      if x.pc != Reaping || (x.action.Complete? && x.rows == []) then None else
      Some(Ended(s, tx).(db := Visible(s.db, x)))
    case _ => None
  }

  // ---- what every interleaving keeps ----

  // The tables, as far as a transaction has relied on them, are still as it saw them.
  ghost predicate TxInv(hash: ObjKey -> int, db: Db, locks: map<int, nat>, i: nat, x: Tx) {
    && Mutation(x.action)
    && (HasLock(x.pc) ==> Lookup(locks, hash(x.action.key)) == Some(i))
    && Prepared(db, x)
    && (HasRead(x.pc) ==> x.was == Lookup(db.objects, x.action.key) && Allowed(ConditionOf(x.action), x.was))
    && (x.pc == Reaping ==> x.doomed == RowsIn(db.chunks, Reaped(x.was)))
  }

  ghost predicate Prepared(db: Db, x: Tx) {
    && (x.action.Put? ==>
          && x.action.file in db.writing && |x.action.data| <= MAX_FILE
          && (x.pc != Begun ==> x.action.key.bucket in db.buckets))
    && (x.action.Complete? && x.pc != Begun ==>
          Valid(db, x.action) && x.rows == PartRows(db.parts, x.action.upload))
  }

  // No two transactions share a writer or an upload.
  ghost predicate Apart(txs: map<nat, Tx>) {
    forall i, j | i in txs && j in txs && i != j :: Separate(txs[i], txs[j])
  }

  predicate Separate(x: Tx, y: Tx) {
    && (x.action.Put? && y.action.Put? ==> x.action.file != y.action.file)
    && (x.action.Complete? && y.action.Complete? && x.pc != Begun && y.pc != Begun ==>
          x.action.upload != y.action.upload)
  }

  ghost predicate SysInv(hash: ObjKey -> int, s: Sys) {
    Inv(s.db) && Apart(s.txs) && forall i <- s.txs :: TxInv(hash, s.db, s.locks, i, s.txs[i])
  }

  // ---- a commit is the atomic transaction ----

  lemma ReapedMatches(chunks: map<RowId, seq<Byte>>, files: set<nat>)
    ensures chunks - RowsIn(chunks, files) == WithoutFiles(chunks, files)
  {
  }

  lemma CommitIsAtomic(hash: ObjKey -> int, s: Sys, i: nat)
    requires SysInv(hash, s) && i in s.txs && s.txs[i].pc == Reaping
    requires s.txs[i].action.Complete? ==> s.txs[i].rows != []
    ensures Apply(s.db, s.txs[i].action) == Some(Visible(s.db, s.txs[i]))
  {
    var x := s.txs[i];
    assert TxInv(hash, s.db, s.locks, i, x);
    ReapedMatches(s.db.chunks, Reaped(x.was));
    match x.action
    case Put(k, file, data, _, _) => PutReaps(s.db, k, file, data);
    case Complete(_, _, _, _) =>
    case Delete(_) =>
  }

  lemma PutReaps(db: Db, k: ObjKey, file: nat, data: seq<Byte>)
    requires Inv(db) && file in db.writing
    ensures var dead := Reaped(Lookup(db.objects, k));
      Copied(db, file, data).chunks - RowsIn(db.chunks, dead) == WithoutFiles(Copied(db, file, data).chunks, dead)
  {
    var dead := Reaped(Lookup(db.objects, k));
    FreshFile(db, file);
    OwnedNot(db, k, file);
    var all := db.chunks + FileRows(file, data);
    assert RowsIn(all, dead) == RowsIn(db.chunks, dead);
    ReapedMatches(all, dead);
  }

  lemma OwnedNot(db: Db, k: ObjKey, file: nat)
    requires forall o :: !Owns(db, o, file)
    ensures file !in Reaped(Lookup(db.objects, k))
  {
    assert !Owns(db, OfObject(k), file);
  }

  // ---- what one transaction leaves alone of another ----

  // What `a` must not touch of a running transaction.
  predicate Undisturbed(a: Action, x: Tx) {
    && (x.action.Put? ==>
          && (a.DropWriter? || a.PutPart? || a.Put? ==> a.file != x.action.file)
          && (a.DeleteBucket? && x.pc != Begun ==> a.name != x.action.key.bucket))
    && (x.action.Complete? && x.pc != Begun ==>
          && (a.PutPart? ==> a.id.upload != x.action.upload)
          && (a.AbortUpload? || a.Expire? || a.Complete? ==> a.upload != x.action.upload))
  }

  lemma UploadStays(s: Db, t: Db, a: Action, u: string)
    requires Apply(s, a) == Some(t) && u in s.uploads
    requires a.PutPart? ==> a.id.upload != u
    requires a.AbortUpload? || a.Expire? || a.Complete? ==> a.upload != u
    ensures Lookup(t.uploads, u) == Lookup(s.uploads, u) && PartRows(t.parts, u) == PartRows(s.parts, u)
  {
    if a.Expire? {
      ExpireSpares(s, a.upload, a.limit, u);
    }
    SamePartRows(s.parts, t.parts, u);
  }

  lemma ExpireSpares(s: Db, upload: string, limit: nat, u: string)
    requires upload != u
    ensures var t := ExpireAttempt(s, upload, limit).0;
      Lookup(t.uploads, u) == Lookup(s.uploads, u)
      && forall id: PartId :: id.upload == u ==> Lookup(t.parts, id) == Lookup(s.parts, id)
  {
  }

  lemma SamePartRows(p: map<PartId, Part>, q: map<PartId, Part>, u: string)
    requires forall id: PartId :: id.upload == u ==> Lookup(q, id) == Lookup(p, id)
    ensures PartRows(q, u) == PartRows(p, u)
  {
    forall no: int ensures no in PartNos(p, u) <==> no in PartNos(q, u) {
      assert Lookup(q, PartId(u, no)) == Lookup(p, PartId(u, no));
    }
    assert PartNos(p, u) == PartNos(q, u);
    var nos := Sorted(PartNos(p, u));
    SortedIs(PartNos(p, u));
    forall i | 0 <= i < |nos| ensures PartRows(q, u)[i] == PartRows(p, u)[i] {
      assert nos[i] in PartNos(p, u);
      assert Lookup(q, PartId(u, nos[i])) == Lookup(p, PartId(u, nos[i]));
    }
  }

  lemma PreparedStays(s: Db, t: Db, a: Action, x: Tx)
    requires Apply(s, a) == Some(t) && Mutation(x.action) && Prepared(s, x) && Undisturbed(a, x)
    ensures Prepared(t, x)
  {
    if x.action.Complete? && x.pc != Begun {
      UploadStays(s, t, a, x.action.upload);
    }
  }

  lemma TxStays(hash: ObjKey -> int, s: Db, t: Db, a: Action, was: map<int, nat>, now: map<int, nat>, i: nat, x: Tx)
    requires Inv(s) && Apply(s, a) == Some(t) && TxInv(hash, s, was, i, x) && Undisturbed(a, x)
    requires HasLock(x.pc) ==> Lookup(now, hash(x.action.key)) == Some(i)
    requires HasRead(x.pc) ==> Lookup(t.objects, x.action.key) == Lookup(s.objects, x.action.key)
    ensures TxInv(hash, t, now, i, x)
  {
    PreparedStays(s, t, a, x);
    if HasRead(x.pc) {
      VersionRowsStay(s, t, a, x.action.key);
    }
  }

  // ---- every step keeps the invariant, and is an atomic transaction or none ----

  lemma EndKeepsInv(hash: ObjKey -> int, s: Sys, i: nat)
    requires SysInv(hash, s)
    ensures SysInv(hash, Ended(s, i))
  {
    var t := Ended(s, i);
    forall j <- t.txs ensures TxInv(hash, t.db, t.locks, j, t.txs[j]) {
      assert TxInv(hash, s.db, s.locks, j, s.txs[j]);
    }
  }

  // One transaction moved on, or began; locks were only taken.
  lemma OneMoved(hash: ObjKey -> int, s: Sys, t: Sys, i: nat, y: Tx)
    requires SysInv(hash, s) && t.db == s.db && t.txs == s.txs[i := y]
    requires forall h <- s.locks :: h in t.locks && t.locks[h] == s.locks[h]
    requires TxInv(hash, t.db, t.locks, i, y)
    requires forall j <- s.txs :: j != i ==> Separate(s.txs[j], y)
    ensures SysInv(hash, t)
  {
    forall j <- t.txs ensures TxInv(hash, t.db, t.locks, j, t.txs[j]) {
      if j == i {
        assert t.txs[j] == y;
      } else {
        assert TxInv(hash, s.db, s.locks, j, s.txs[j]);
        LockKept(s.locks, t.locks, hash(s.txs[j].action.key), j);
      }
    }
    ApartMoved(s.txs, i, y);
  }

  lemma LockKept(was: map<int, nat>, now: map<int, nat>, h: int, i: nat)
    requires forall h <- was :: h in now && now[h] == was[h]
    ensures Lookup(was, h) == Some(i) ==> Lookup(now, h) == Some(i)
  {
  }

  lemma ApartMoved(txs: map<nat, Tx>, i: nat, y: Tx)
    requires Apart(txs) && forall j <- txs :: j != i ==> Separate(txs[j], y)
    ensures Apart(txs[i := y])
  {
  }

  lemma BeginKeepsInv(hash: ObjKey -> int, s: Sys, i: nat, a: Action)
    requires SysInv(hash, s) && Next(hash, s, Begin(i, a)).Some?
    ensures SysInv(hash, Next(hash, s, Begin(i, a)).value)
  {
    OneMoved(hash, s, Next(hash, s, Begin(i, a)).value, i, Tx(a, Begun, None, {}, []));
  }

  lemma CheckKeepsInv(hash: ObjKey -> int, s: Sys, i: nat)
    requires SysInv(hash, s) && i in s.txs && OwnStepMakes(hash, s, Check(i))
    ensures SysInv(hash, OwnStep(hash, s, Check(i)).value)
    ensures i !in OwnStep(hash, s, Check(i)).value.txs ==> Apply(s.db, s.txs[i].action).None?
  {
    var x, t := s.txs[i], OwnStep(hash, s, Check(i)).value;
    assert TxInv(hash, s.db, s.locks, i, x);
    if i !in t.txs {
      EndKeepsInv(hash, s, i);
    } else {
      forall j <- s.txs | j != i ensures Separate(s.txs[j], t.txs[i]) {
        assert Separate(s.txs[j], x);
      }
      OneMoved(hash, s, t, i, t.txs[i]);
    }
  }

  predicate OwnStepMakes(hash: ObjKey -> int, s: Sys, e: Event)
    requires !e.Begin? && !e.Other? && e.tx in s.txs
  {
    Mutation(s.txs[e.tx].action) && OwnStep(hash, s, e).Some?
  }

  lemma LookRefuses(hash: ObjKey -> int, s: Sys, i: nat)
    requires i in s.txs && OwnStepMakes(hash, s, Look(i)) && i !in OwnStep(hash, s, Look(i)).value.txs
    ensures Apply(s.db, s.txs[i].action).None?
  {
  }

  lemma LookKeepsInv(hash: ObjKey -> int, s: Sys, i: nat)
    requires SysInv(hash, s) && i in s.txs && OwnStepMakes(hash, s, Look(i))
    ensures SysInv(hash, OwnStep(hash, s, Look(i)).value)
  {
    var x, t := s.txs[i], OwnStep(hash, s, Look(i)).value;
    assert TxInv(hash, s.db, s.locks, i, x);
    if i !in t.txs {
      EndKeepsInv(hash, s, i);
    } else {
      OneMoved(hash, s, t, i, t.txs[i]);
    }
  }

  lemma MoveKeepsInv(hash: ObjKey -> int, s: Sys, e: Event)
    requires SysInv(hash, s) && (e.Lock? || e.Write? || e.Reap?) && e.tx in s.txs && OwnStepMakes(hash, s, e)
    ensures SysInv(hash, OwnStep(hash, s, e).value)
  {
    var t := OwnStep(hash, s, e).value;
    assert TxInv(hash, s.db, s.locks, e.tx, s.txs[e.tx]);
    OneMoved(hash, s, t, e.tx, t.txs[e.tx]);
  }

  lemma CommitKeepsInv(hash: ObjKey -> int, s: Sys, i: nat)
    requires SysInv(hash, s) && i in s.txs && OwnStepMakes(hash, s, Commit(i))
    ensures SysInv(hash, OwnStep(hash, s, Commit(i)).value)
  {
    var x := s.txs[i];
    CommitIsAtomic(hash, s, i);
    EndedKeepsInv(hash, s, i, Visible(s.db, x));
  }

  lemma EndedKeepsInv(hash: ObjKey -> int, s: Sys, i: nat, db: Db)
    requires SysInv(hash, s) && i in s.txs && s.txs[i].pc == Reaping && Apply(s.db, s.txs[i].action) == Some(db)
    ensures SysInv(hash, Ended(s, i).(db := db))
  {
    StepKeepsInv(s.db, s.txs[i].action);
    forall j | j in s.txs && j != i ensures TxInv(hash, db, Ended(s, i).locks, j, s.txs[j]) {
      assert TxInv(hash, s.db, s.locks, i, s.txs[i]) && TxInv(hash, s.db, s.locks, j, s.txs[j]);
      CommitSpares(hash, s, db, i, j);
    }
  }

  // Holders of one advisory lock are one transaction, so the others' keys are other keys.
  lemma CommitSpares(hash: ObjKey -> int, s: Sys, db: Db, i: nat, j: nat)
    requires Inv(s.db) && Apart(s.txs) && i in s.txs && j in s.txs && i != j
    requires TxInv(hash, s.db, s.locks, i, s.txs[i]) && TxInv(hash, s.db, s.locks, j, s.txs[j])
    requires s.txs[i].pc == Reaping && Apply(s.db, s.txs[i].action) == Some(db)
    ensures TxInv(hash, db, Ended(s, i).locks, j, s.txs[j])
  {
    var x, y := s.txs[i], s.txs[j];
    assert Separate(x, y);
    OtherKey(s.db, db, x.action, y.action.key);
    TxStays(hash, s.db, db, x.action, s.locks, Ended(s, i).locks, j, y);
  }

  // A mutation changes one key.
  lemma OtherKey(s: Db, t: Db, a: Action, k: ObjKey)
    requires Mutation(a) && Apply(s, a) == Some(t)
    ensures k != a.key ==> Lookup(t.objects, k) == Lookup(s.objects, k)
  {
  }

  lemma OtherKeepsInv(hash: ObjKey -> int, s: Sys, a: Action)
    requires SysInv(hash, s) && Next(hash, s, Other(a)).Some?
    ensures SysInv(hash, Next(hash, s, Other(a)).value)
  {
    var t := Next(hash, s, Other(a)).value;
    StepKeepsInv(s.db, a);
    KeysStay(s.db, t.db, a);
    forall j <- t.txs ensures TxInv(hash, t.db, t.locks, j, t.txs[j]) {
      assert TxInv(hash, s.db, s.locks, j, s.txs[j]);
      NotDisturbed(s, a, j);
      TxStays(hash, s.db, t.db, a, s.locks, t.locks, j, s.txs[j]);
    }
  }

  lemma KeysStay(s: Db, t: Db, a: Action)
    requires !Mutation(a) && Apply(s, a) == Some(t)
    ensures t.objects == s.objects
  {
  }

  lemma NotDisturbed(s: Sys, a: Action, j: nat)
    requires !Mutation(a) && !Blocked(s, a) && j in s.txs
    ensures Undisturbed(a, s.txs[j])
  {
  }

  // The transaction a step makes visible.
  function Done(s: Sys, e: Event): Option<Action> {
    if e.Other? then Some(e.action)
    else if e.Commit? && e.tx in s.txs then Some(s.txs[e.tx].action)
    else None
  }

  lemma NextKeepsInv(hash: ObjKey -> int, s: Sys, e: Event, t: Sys)
    requires SysInv(hash, s) && Next(hash, s, e) == Some(t)
    ensures SysInv(hash, t)
  {
    match e
    case Begin(i, a) => BeginKeepsInv(hash, s, i, a);
    case Other(a) => OtherKeepsInv(hash, s, a);
    case Abort(i) => EndKeepsInv(hash, s, i);
    case Check(i) => CheckKeepsInv(hash, s, i);
    case Look(i) => LookKeepsInv(hash, s, i);
    case Commit(i) => CommitKeepsInv(hash, s, i);
    case _ => MoveKeepsInv(hash, s, e);
  }

  // Each step of any interleaving leaves the database alone or is exactly one
  // atomic transaction. A commit replaces the very version it read, and a check
  // that rolls back does so only where the atomic transaction would have.
  lemma NextIsAtomic(hash: ObjKey -> int, s: Sys, e: Event, t: Sys)
    requires SysInv(hash, s) && Next(hash, s, e) == Some(t)
    ensures SysInv(hash, t)
    ensures match Done(s, e) { case None => t.db == s.db case Some(a) => Apply(s.db, a) == Some(t.db) }
    ensures e.Commit? ==> s.txs[e.tx].was == Lookup(s.db.objects, s.txs[e.tx].action.key)
    ensures (e.Check? || e.Look?) && e.tx !in t.txs ==> Apply(s.db, s.txs[e.tx].action).None?
  {
    NextKeepsInv(hash, s, e, t);
    match e
    case Check(i) => CheckKeepsInv(hash, s, i);
    case Look(i) => if i !in t.txs { LookRefuses(hash, s, i); }
    case Commit(i) =>
      CommitIsAtomic(hash, s, i);
      assert TxInv(hash, s.db, s.locks, i, s.txs[i]);
    case _ =>
  }

  // ---- runs ----

  ghost predicate NextStep(hash: ObjKey -> int, s: Sys, t: Sys) { exists e :: Next(hash, s, e) == Some(t) }

  ghost predicate SysRun(hash: ObjKey -> int, run: seq<Sys>) {
    && run != [] && run[0] == Idle
    && forall i | 0 <= i < |run| - 1 :: NextStep(hash, run[i], run[i + 1])
  }

  function Databases(run: seq<Sys>): seq<Db> { seq(|run|, i requires 0 <= i < |run| => run[i].db) }

  lemma {:induction false} SysRunKeepsInv(hash: ObjKey -> int, run: seq<Sys>, i: nat)
    requires SysRun(hash, run) && i < |run|
    ensures SysInv(hash, run[i])
  {
    if i == 0 {
      IdleInv(hash);
    } else {
      SysRunKeepsInv(hash, run, i - 1);
      assert NextStep(hash, run[i - 1], run[i - 1 + 1]);
      var e :| Next(hash, run[i - 1], e) == Some(run[i]);
      NextIsAtomic(hash, run[i - 1], e, run[i]);
    }
  }

  lemma IdleInv(hash: ObjKey -> int)
    ensures SysInv(hash, Idle)
  {
    RunKeepsInv([Empty], 0);
  }

  // Whatever the hash and however the statements interleave, the database goes
  // through a run of atomic transactions: all that is proved of those runs
  // holds of it.
  lemma InterleavingsAreRuns(hash: ObjKey -> int, run: seq<Sys>)
    requires SysRun(hash, run)
    ensures Run(Databases(run))
  {
    var dbs := Databases(run);
    forall i | 0 <= i < |dbs| - 1 ensures NextAt(dbs, i) {
      SysRunKeepsInv(hash, run, i);
      assert NextStep(hash, run[i], run[i + 1]);
      var e :| Next(hash, run[i], e) == Some(run[i + 1]);
      NextIsAtomic(hash, run[i], e, run[i + 1]);
    }
  }

  // So at no point of any interleaving is a row stranded or shared.
  lemma NoRowStranded(hash: ObjKey -> int, run: seq<Sys>, n: nat, r: RowId) returns (o: Owner)
    requires SysRun(hash, run) && n < |run| && r in run[n].db.chunks
    ensures Owns(run[n].db, o, r.file) && forall p :: Owns(run[n].db, p, r.file) ==> p == o
  {
    InterleavingsAreRuns(hash, run);
    assert Databases(run)[n] == run[n].db;
    o := EveryRowHasOneOwner(Databases(run), n, r);
  }

  // ---- the transactions of an interleaving ----

  // An interleaving with its steps.
  ghost predicate SysDoes(hash: ObjKey -> int, run: seq<Sys>, events: seq<Event>) {
    && run != [] && run[0] == Idle && |events| == |run| - 1
    && forall i | 0 <= i < |events| :: SysDoesAt(hash, run, events, i)
  }

  ghost predicate SysDoesAt(hash: ObjKey -> int, run: seq<Sys>, events: seq<Event>, i: nat)
    requires i < |events| == |run| - 1
  {
    Next(hash, run[i], events[i]) == Some(run[i + 1])
  }

  // What each step made visible.
  function Transactions(run: seq<Sys>, events: seq<Event>): seq<Option<Action>>
    requires |events| < |run|
  {
    seq(|events|, i requires 0 <= i < |events| => Done(run[i], events[i]))
  }

  lemma SysDoesIsRun(hash: ObjKey -> int, run: seq<Sys>, events: seq<Event>)
    requires SysDoes(hash, run, events)
    ensures SysRun(hash, run)
  {
    forall i | 0 <= i < |run| - 1 ensures NextStep(hash, run[i], run[i + 1]) {
      assert SysDoesAt(hash, run, events, i);
    }
  }

  // Every interleaving is a run of the transactions it committed.
  lemma InterleavingsDo(hash: ObjKey -> int, run: seq<Sys>, events: seq<Event>)
    requires SysDoes(hash, run, events)
    ensures Does(Databases(run), Transactions(run, events))
  {
    SysDoesIsRun(hash, run, events);
    forall i | 0 <= i < |events| ensures DoesAt(Databases(run), Transactions(run, events), i) {
      assert SysDoesAt(hash, run, events, i);
      SysRunKeepsInv(hash, run, i);
      NextIsAtomic(hash, run[i], events[i], run[i + 1]);
    }
  }

  // If at every commit of a Complete the recorded parts were undrained, every
  // object of every interleaving has all its rows.
  lemma CarefulInterleavingsAreWhole(hash: ObjKey -> int, run: seq<Sys>, events: seq<Event>, n: nat, k: ObjKey)
    requires SysDoes(hash, run, events) && n < |run| && k in run[n].db.objects
    requires forall i | 0 <= i < n && Done(run[i], events[i]).Some? ::
      Careful(run[i].db, Done(run[i], events[i]).value)
    ensures WholeObject(run[n].db, run[n].db.objects[k])
  {
    InterleavingsDo(hash, run, events);
    assert Databases(run)[n] == run[n].db;
    CarefulRunsAreWhole(Databases(run), Transactions(run, events), n, k);
  }
}
