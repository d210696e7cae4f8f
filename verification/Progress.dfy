// That interleavings get on: locks end with their transactions, a transaction
// whose locks are free runs from its first statement to its commit, and every
// sequence of atomic transactions comes about statement by statement.
module Progress {
  import opened Base
  import opened Objects
  import opened Completion
  import opened Store
  import opened StoreInvariant
  import opened Versions
  import opened Interleaving

  // ---- advisory locks ----

  // The transaction has taken the lock of its key, which has that hash.
  predicate HoldsLock(hash: ObjKey -> int, s: Sys, i: nat, h: int) {
    && i in s.txs && Mutation(s.txs[i].action)
    && s.txs[i].pc != Begun && s.txs[i].pc != Checked && hash(s.txs[i].action.key) == h
  }

  ghost predicate LocksHeld(hash: ObjKey -> int, s: Sys) { forall h <- s.locks :: HoldsLock(hash, s, s.locks[h], h) }

  lemma NextKeepsLocks(hash: ObjKey -> int, s: Sys, e: Event, t: Sys)
    requires LocksHeld(hash, s) && Next(hash, s, e) == Some(t)
    ensures LocksHeld(hash, t)
  {
    forall h <- t.locks ensures HoldsLock(hash, t, t.locks[h], h) {
      assert h in s.locks ==> HoldsLock(hash, s, s.locks[h], h);
    }
  }

  lemma {:induction false} RunKeepsLocks(hash: ObjKey -> int, run: seq<Sys>, n: nat)
    requires SysRun(hash, run) && n < |run|
    ensures LocksHeld(hash, run[n])
  {
    if n > 0 {
      RunKeepsLocks(hash, run, n - 1);
      assert NextStep(hash, run[n - 1], run[n - 1 + 1]);
      var e :| Next(hash, run[n - 1], e) == Some(run[n]);
      NextKeepsLocks(hash, run[n - 1], e, run[n]);
    }
  }

  // At any point of any interleaving an advisory lock is taken exactly if a
  // running transaction that has locked its key has a key with that hash, and
  // there is only one.
  lemma LockTakenIff(hash: ObjKey -> int, run: seq<Sys>, n: nat, h: int, i: nat)
    requires SysRun(hash, run) && n < |run|
    ensures Lookup(run[n].locks, h) == Some(i) <==> HoldsLock(hash, run[n], i, h)
  {
    RunKeepsLocks(hash, run, n);
    SysRunKeepsInv(hash, run, n);
    if HoldsLock(hash, run[n], i, h) {
      assert TxInv(hash, run[n].db, run[n].locks, i, run[n].txs[i]);
    }
  }

  // A transaction that commits or aborts frees its lock and no other.
  lemma EndFrees(hash: ObjKey -> int, s: Sys, e: Event, t: Sys, h: int)
    requires Next(hash, s, e) == Some(t) && (e.Commit? || e.Abort?)
    ensures e.tx !in t.txs && forall j :: j != e.tx ==> Lookup(t.txs, j) == Lookup(s.txs, j)
    ensures Lookup(t.locks, h) == if Lookup(s.locks, h) == Some(e.tx) then None else Lookup(s.locks, h)
  {
  }

  // Any transaction may abort at any point.
  lemma MayAbort(hash: ObjKey -> int, s: Sys, i: nat)
    requires SysInv(hash, s) && i in s.txs
    ensures Next(hash, s, Abort(i)).Some?
  {
    assert TxInv(hash, s.db, s.locks, i, s.txs[i]);
  }

  // ---- one transaction, statement by statement ----

  // The statements; a Delete reads and writes in one.
  function Statement(a: Action, i: nat, n: nat): Event {
    if n == 0 then Begin(i, a) else if n == 1 then Check(i) else if n == 2 then Lock(i) else if n == 3 then Look(i)
    else if n == 4 then Write(i) else if n == 5 then Interleaving.Reap(i) else Commit(i)
  }

  function Skip(a: Action, n: nat): nat { if a.Delete? && n >= 4 then n + 1 else n }

  function Length(a: Action): nat { if a.Delete? then 6 else 7 }

  function StatementsOf(a: Action, i: nat): seq<Event> {
    seq(Length(a), n requires 0 <= n < Length(a) => Statement(a, i, Skip(a, n)))
  }

  // Nobody has the advisory lock or a row lock that the transaction needs.
  predicate Clear(hash: ObjKey -> int, s: Sys, a: Action)
    requires Mutation(a)
  {
    && hash(a.key) !in s.locks
    && (forall j <- s.txs :: a.Put? && s.txs[j].action.Put? ==> s.txs[j].action.file != a.file)
    && (forall j <- s.txs :: a.Complete? && s.txs[j].action.Complete? && s.txs[j].pc != Begun ==>
          s.txs[j].action.upload != a.upload)
  }

  // The transaction at its statements, and the locks it has.
  function Amid(s: Sys, h: Option<int>, i: nat, x: Tx): Sys {
    s.(locks := if h.Some? then s.locks[h.value := i] else s.locks, txs := s.txs[i := x])
  }

  function RowsFor(db: Db, a: Action): seq<PartRow> {
    if a.Complete? then PartRows(db.parts, a.upload) else []
  }

  lemma Again<K, V>(m: map<K, V>, k: K, v: V, w: V)
    ensures m[k := v][k := w] == m[k := w]
  {
  }

  lemma Begins(hash: ObjKey -> int, s: Sys, i: nat, a: Action, t: Db)
    requires i !in s.txs && Mutation(a) && Clear(hash, s, a) && Apply(s.db, a) == Some(t)
    ensures Next(hash, s, Begin(i, a)) == Some(Amid(s, None, i, Tx(a, Begun, None, {}, [])))
  {
  }

  lemma Checks(hash: ObjKey -> int, s: Sys, i: nat, a: Action, t: Db)
    requires i !in s.txs && Mutation(a) && Clear(hash, s, a) && Apply(s.db, a) == Some(t)
    ensures Next(hash, Amid(s, None, i, Tx(a, Begun, None, {}, [])), Check(i))
         == Some(Amid(s, None, i, Tx(a, Checked, None, {}, RowsFor(s.db, a))))
  {
    var x, y := Tx(a, Begun, None, {}, []), Tx(a, Checked, None, {}, RowsFor(s.db, a));
    Again(s.txs, i, x, y);
    if a.Complete? {
      assert !LocksUpload(Amid(s, None, i, x), a.upload);
    }
  }

  // Taking the lock and reading under it.
  lemma Looks(hash: ObjKey -> int, s: Sys, i: nat, a: Action, t: Db)
    requires i !in s.txs && Mutation(a) && Clear(hash, s, a) && Apply(s.db, a) == Some(t)
    ensures var rows, h, was := RowsFor(s.db, a), hash(a.key), Lookup(s.db.objects, a.key);
      var locked := Amid(s, Some(h), i, Tx(a, Locked, None, {}, rows));
      && Next(hash, Amid(s, None, i, Tx(a, Checked, None, {}, rows)), Lock(i)) == Some(locked)
      && Next(hash, locked, Look(i))
         == Some(Amid(s, Some(h), i, Tx(a, if a.Delete? then Wrote else Looked, was, {}, rows)))
  {
    var rows, was := RowsFor(s.db, a), Lookup(s.db.objects, a.key);
    var y := Tx(a, Locked, None, {}, rows);
    Again(s.txs, i, Tx(a, Checked, None, {}, rows), y);
    Again(s.txs, i, y, Tx(a, if a.Delete? then Wrote else Looked, was, {}, rows));
  }

  lemma Writes(hash: ObjKey -> int, s: Sys, i: nat, a: Action)
    requires Mutation(a) && !a.Delete?
    ensures var rows, h, was := RowsFor(s.db, a), hash(a.key), Lookup(s.db.objects, a.key);
      Next(hash, Amid(s, Some(h), i, Tx(a, Looked, was, {}, rows)), Write(i))
      == Some(Amid(s, Some(h), i, Tx(a, Wrote, was, {}, rows)))
  {
    var rows, was := RowsFor(s.db, a), Lookup(s.db.objects, a.key);
    Again(s.txs, i, Tx(a, Looked, was, {}, rows), Tx(a, Wrote, was, {}, rows));
  }

  // Ready to commit.
  function Ready(s: Sys, h: int, i: nat, a: Action): Sys
    requires Mutation(a)
  {
    var was := Lookup(s.db.objects, a.key);
    Amid(s, Some(h), i, Tx(a, Reaping, was, RowsIn(s.db.chunks, Reaped(was)), RowsFor(s.db, a)))
  }

  lemma Reaps(hash: ObjKey -> int, s: Sys, i: nat, a: Action)
    requires Mutation(a)
    ensures var rows, h, was := RowsFor(s.db, a), hash(a.key), Lookup(s.db.objects, a.key);
      Next(hash, Amid(s, Some(h), i, Tx(a, Wrote, was, {}, rows)), Interleaving.Reap(i)) == Some(Ready(s, h, i, a))
  {
    var rows, was := RowsFor(s.db, a), Lookup(s.db.objects, a.key);
    Again(s.txs, i, Tx(a, Wrote, was, {}, rows), Tx(a, Reaping, was, RowsIn(s.db.chunks, Reaped(was)), rows));
  }

  // The transaction's locks go with it.
  lemma EndsAsBefore(hash: ObjKey -> int, s: Sys, h: int, i: nat, x: Tx)
    requires LocksHeld(hash, s) && i !in s.txs && h !in s.locks
    ensures Ended(Amid(s, Some(h), i, x), i) == s
  {
    forall g <- s.locks ensures s.locks[g] != i {
      assert HoldsLock(hash, s, s.locks[g], g);
    }
    var t := Ended(Amid(s, Some(h), i, x), i);
    assert t.locks == s.locks && t.txs == s.txs;
  }

  lemma CommitsTo(hash: ObjKey -> int, s: Sys, i: nat, a: Action, t: Db)
    requires Inv(s.db) && LocksHeld(hash, s) && i !in s.txs && Mutation(a)
    requires hash(a.key) !in s.locks && Apply(s.db, a) == Some(t)
    requires SysInv(hash, Ready(s, hash(a.key), i, a))
    ensures Next(hash, Ready(s, hash(a.key), i, a), Commit(i)) == Some(s.(db := t))
  {
    var ready := Ready(s, hash(a.key), i, a);
    if a.Complete? {
      CompleteIs(s.db, a.upload, a.key, a.listed, a.etag);
    }
    CommitIsAtomic(hash, ready, i);
    EndsAsBefore(hash, s, hash(a.key), i, ready.txs[i]);
    CommitStep(hash, ready, i);
  }

  lemma CommitStep(hash: ObjKey -> int, s: Sys, i: nat)
    requires i in s.txs && Mutation(s.txs[i].action) && s.txs[i].pc == Reaping
    requires s.txs[i].action.Complete? ==> s.txs[i].rows != []
    ensures Next(hash, s, Commit(i)) == Some(Ended(s, i).(db := Visible(s.db, s.txs[i])))
  {
  }

  // The states that a transaction that nothing holds up goes through.
  function Stage(hash: ObjKey -> int, s: Sys, i: nat, a: Action, t: Db, n: nat): Sys
    requires Mutation(a)
  {
    var rows, h, was := RowsFor(s.db, a), hash(a.key), Lookup(s.db.objects, a.key);
    if n == 0 then s
    else if n == 1 then Amid(s, None, i, Tx(a, Begun, None, {}, []))
    else if n == 2 then Amid(s, None, i, Tx(a, Checked, None, {}, rows))
    else if n == 3 then Amid(s, Some(h), i, Tx(a, Locked, None, {}, rows))
    else if n == 4 then Amid(s, Some(h), i, Tx(a, Looked, was, {}, rows))
    else if n == 5 then Amid(s, Some(h), i, Tx(a, Wrote, was, {}, rows))
    else if n == 6 then Ready(s, h, i, a) else s.(db := t)
  }

  function Stages(hash: ObjKey -> int, s: Sys, i: nat, a: Action, t: Db): seq<Sys>
    requires Mutation(a)
  {
    seq(Length(a) + 1, n requires 0 <= n < Length(a) + 1 => Stage(hash, s, i, a, t, Skip(a, n)))
  }

  lemma StagesKeepInv(hash: ObjKey -> int, s: Sys, i: nat, a: Action, t: Db)
    requires SysInv(hash, s) && i !in s.txs && Mutation(a) && Clear(hash, s, a) && Apply(s.db, a) == Some(t)
    ensures SysInv(hash, Ready(s, hash(a.key), i, a))
  {
    var h, rows, was := hash(a.key), RowsFor(s.db, a), Lookup(s.db.objects, a.key);
    var checked := Amid(s, None, i, Tx(a, Checked, None, {}, rows));
    var looked := Amid(s, Some(h), i, Tx(a, if a.Delete? then Wrote else Looked, was, {}, rows));
    CheckedInv(hash, s, i, a, t, checked);
    LookedInv(hash, s, i, a, t, checked, looked);
    ReadyInv(hash, s, i, a, looked);
  }

  lemma CheckedInv(hash: ObjKey -> int, s: Sys, i: nat, a: Action, t: Db, checked: Sys)
    requires SysInv(hash, s) && i !in s.txs && Mutation(a) && Clear(hash, s, a) && Apply(s.db, a) == Some(t)
    requires checked == Amid(s, None, i, Tx(a, Checked, None, {}, RowsFor(s.db, a)))
    ensures SysInv(hash, checked)
  {
    Begins(hash, s, i, a, t);
    Checks(hash, s, i, a, t);
    var begun := Amid(s, None, i, Tx(a, Begun, None, {}, []));
    NextKeepsInv(hash, s, Begin(i, a), begun);
    NextKeepsInv(hash, begun, Check(i), checked);
  }

  lemma LookedInv(hash: ObjKey -> int, s: Sys, i: nat, a: Action, t: Db, checked: Sys, looked: Sys)
    requires i !in s.txs && Mutation(a) && Clear(hash, s, a) && Apply(s.db, a) == Some(t)
    requires checked == Amid(s, None, i, Tx(a, Checked, None, {}, RowsFor(s.db, a))) && SysInv(hash, checked)
    requires looked == Amid(s, Some(hash(a.key)), i,
      Tx(a, if a.Delete? then Wrote else Looked, Lookup(s.db.objects, a.key), {}, RowsFor(s.db, a)))
    ensures SysInv(hash, looked)
  {
    Looks(hash, s, i, a, t);
    var locked := Amid(s, Some(hash(a.key)), i, Tx(a, Locked, None, {}, RowsFor(s.db, a)));
    NextKeepsInv(hash, checked, Lock(i), locked);
    NextKeepsInv(hash, locked, Look(i), looked);
  }

  lemma ReadyInv(hash: ObjKey -> int, s: Sys, i: nat, a: Action, looked: Sys)
    requires Mutation(a)
    requires looked == Amid(s, Some(hash(a.key)), i,
      Tx(a, if a.Delete? then Wrote else Looked, Lookup(s.db.objects, a.key), {}, RowsFor(s.db, a)))
    requires SysInv(hash, looked)
    ensures SysInv(hash, Ready(s, hash(a.key), i, a))
  {
    var wrote := Amid(s, Some(hash(a.key)), i, Tx(a, Wrote, Lookup(s.db.objects, a.key), {}, RowsFor(s.db, a)));
    if !a.Delete? {
      Writes(hash, s, i, a);
      NextKeepsInv(hash, looked, Write(i), wrote);
    }
    Reaps(hash, s, i, a);
    NextKeepsInv(hash, wrote, Interleaving.Reap(i), Ready(s, hash(a.key), i, a));
  }

  // From a state in which its locks are free, a transaction that may commit
  // gets through all its statements, and leaves the locks as they were.
  lemma CommitsAlone(hash: ObjKey -> int, s: Sys, i: nat, a: Action, t: Db)
    requires SysInv(hash, s) && LocksHeld(hash, s) && i !in s.txs && Mutation(a)
    requires Clear(hash, s, a) && Apply(s.db, a) == Some(t)
    ensures Leads(hash, Stages(hash, s, i, a, t), StatementsOf(a, i))
  {
    var states, events := Stages(hash, s, i, a, t), StatementsOf(a, i);
    forall n | 0 <= n < |events| ensures LeadsAt(hash, states, events, n) {
      StageLeads(hash, s, i, a, t, n);
    }
  }

  lemma StageLeads(hash: ObjKey -> int, s: Sys, i: nat, a: Action, t: Db, n: nat)
    requires SysInv(hash, s) && LocksHeld(hash, s) && i !in s.txs && Mutation(a)
    requires Clear(hash, s, a) && Apply(s.db, a) == Some(t) && n < Length(a)
    ensures Next(hash, Stage(hash, s, i, a, t, Skip(a, n)), Statement(a, i, Skip(a, n)))
         == Some(Stage(hash, s, i, a, t, Skip(a, n + 1)))
  {
    if n < 4 {
      FirstStages(hash, s, i, a, t, n);
    } else if Skip(a, n) == 6 {
      LastStage(hash, s, i, a, t);
    } else {
      MiddleStages(hash, s, i, a, t, Skip(a, n));
    }
  }

  lemma LastStage(hash: ObjKey -> int, s: Sys, i: nat, a: Action, t: Db)
    requires SysInv(hash, s) && LocksHeld(hash, s) && i !in s.txs && Mutation(a)
    requires Clear(hash, s, a) && Apply(s.db, a) == Some(t)
    ensures Next(hash, Stage(hash, s, i, a, t, 6), Statement(a, i, 6)) == Some(Stage(hash, s, i, a, t, 7))
  {
    StagesKeepInv(hash, s, i, a, t);
    CommitsTo(hash, s, i, a, t);
  }

  lemma MiddleStages(hash: ObjKey -> int, s: Sys, i: nat, a: Action, t: Db, n: nat)
    requires Mutation(a) && (n == 5 || (n == 4 && !a.Delete?))
    ensures Next(hash, Stage(hash, s, i, a, t, n), Statement(a, i, n)) == Some(Stage(hash, s, i, a, t, n + 1))
  {
    if n == 4 {
      Writes(hash, s, i, a);
    } else {
      Reaps(hash, s, i, a);
    }
  }

  lemma FirstStages(hash: ObjKey -> int, s: Sys, i: nat, a: Action, t: Db, n: nat)
    requires i !in s.txs && Mutation(a) && Clear(hash, s, a) && Apply(s.db, a) == Some(t) && n < 4
    ensures Next(hash, Stage(hash, s, i, a, t, Skip(a, n)), Statement(a, i, Skip(a, n)))
         == Some(Stage(hash, s, i, a, t, Skip(a, n + 1)))
  {
    if n == 0 {
      Begins(hash, s, i, a, t);
    } else if n == 1 {
      Checks(hash, s, i, a, t);
    } else {
      Looks(hash, s, i, a, t);
    }
  }

  // Each event leads from one state to the next.
  ghost predicate Leads(hash: ObjKey -> int, states: seq<Sys>, events: seq<Event>) {
    |states| == |events| + 1 && forall n | 0 <= n < |events| :: LeadsAt(hash, states, events, n)
  }

  ghost predicate LeadsAt(hash: ObjKey -> int, states: seq<Sys>, events: seq<Event>, n: nat)
    requires n < |events| && |states| == |events| + 1
  {
    Next(hash, states[n], events[n]) == Some(states[n + 1])
  }

  // ---- every run of atomic transactions comes about ----

  // The transactions among the steps, in order.
  function Committed(ts: seq<Option<Action>>): seq<Action> {
    if ts == [] then [] else
    Committed(ts[..|ts| - 1]) + match ts[|ts| - 1] { case Some(a) => [a] case None => [] }
  }

  lemma {:induction false} CommittedAppend(a: seq<Option<Action>>, b: seq<Option<Action>>)
    ensures Committed(a + b) == Committed(a) + Committed(b)
    decreases |b|
  {
    if b == [] {
      assert a + b == a;
    } else {
      CommittedAppend(a, b[..|b| - 1]);
      assert (a + b)[..|a + b| - 1] == a + b[..|b| - 1];
    }
  }

  lemma {:induction false} NoneCommitted(ts: seq<Option<Action>>)
    requires forall i | 0 <= i < |ts| :: ts[i].None?
    ensures Committed(ts) == []
  {
    if ts != [] {
      NoneCommitted(ts[..|ts| - 1]);
    }
  }

  // Only the commit makes anything visible.
  lemma StagesCommit(hash: ObjKey -> int, s: Sys, i: nat, a: Action, t: Db)
    requires Mutation(a)
    ensures |Stages(hash, s, i, a, t)| == |StatementsOf(a, i)| + 1
    ensures Committed(Transactions(Stages(hash, s, i, a, t), StatementsOf(a, i))) == [a]
  {
    var states, events := Stages(hash, s, i, a, t), StatementsOf(a, i);
    var ts, n := Transactions(states, events), |events| - 1;
    forall j | 0 <= j < n ensures ts[..n][j].None? {
      assert events[j] == Statement(a, i, Skip(a, j)) && Skip(a, j) < 6;
    }
    assert states[n] == Ready(s, hash(a.key), i, a) && events[n] == Commit(i);
    NoneCommitted(ts[..n]);
  }

  // A further stretch of an interleaving.
  lemma Continue(
    hash: ObjKey -> int, states: seq<Sys>, events: seq<Event>, more: seq<Sys>, further: seq<Event>)
    requires SysDoes(hash, states, events) && Leads(hash, more, further) && more[0] == states[|states| - 1]
    ensures SysDoes(hash, states + more[1..], events + further)
    ensures Committed(Transactions(states + more[1..], events + further))
         == Committed(Transactions(states, events)) + Committed(Transactions(more, further))
  {
    var all, es := states + more[1..], events + further;
    forall n | 0 <= n < |es| ensures SysDoesAt(hash, all, es, n) {
      ContinueAt(hash, states, events, more, further, n);
    }
    assert Transactions(all, es) == Transactions(states, events) + Transactions(more, further);
    CommittedAppend(Transactions(states, events), Transactions(more, further));
  }

  lemma ContinueAt(
    hash: ObjKey -> int, states: seq<Sys>, events: seq<Event>, more: seq<Sys>, further: seq<Event>, n: nat)
    requires SysDoes(hash, states, events) && Leads(hash, more, further) && more[0] == states[|states| - 1]
    requires n < |events + further|
    ensures SysDoesAt(hash, states + more[1..], events + further, n)
  {
    if n < |events| {
      assert SysDoesAt(hash, states, events, n);
    } else {
      assert LeadsAt(hash, more, further, n - |events|);
    }
  }

  // Every other transaction proceeds at once unless a running one has a row lock
  // that it needs: a Put the writer and, once checked, its bucket; a Complete,
  // once checked, its upload.
  lemma OthersProceed(hash: ObjKey -> int, s: Sys, a: Action, t: Db)
    requires !Mutation(a) && Apply(s.db, a) == Some(t)
    requires forall j <- s.txs :: var x := s.txs[j];
      && (x.action.Put? && (a.DropWriter? || a.PutPart?) ==> a.file != x.action.file)
      && (x.action.Put? && x.pc != Begun && a.DeleteBucket? ==> a.name != x.action.key.bucket)
      && (x.action.Complete? && x.pc != Begun ==>
            && (a.PutPart? ==> a.id.upload != x.action.upload)
            && (a.AbortUpload? || a.Expire? ==> a.upload != x.action.upload))
    ensures Next(hash, s, Other(a)) == Some(s.(db := t))
  {
  }

  function Quiet(db: Db): Sys { Sys(db, map[], map[]) }

  // One atomic transaction, or nothing, from a state in which nothing runs.
  lemma OneTransaction(hash: ObjKey -> int, s: Db, a: Option<Action>, t: Db)
    returns (states: seq<Sys>, events: seq<Event>)
    requires Inv(s) && if a.None? then t == s else Apply(s, a.value) == Some(t)
    ensures Leads(hash, states, events) && states[0] == Quiet(s) && states[|states| - 1] == Quiet(t)
    ensures Committed(Transactions(states, events)) == if a.None? then [] else [a.value]
  {
    if a.None? {
      states, events := [Quiet(s)], [];
    } else if Mutation(a.value) {
      states, events := OneMutation(hash, s, a.value, t);
    } else {
      states, events := OneOther(hash, s, a.value, t);
    }
  }

  lemma OneOther(hash: ObjKey -> int, s: Db, a: Action, t: Db) returns (states: seq<Sys>, events: seq<Event>)
    requires !Mutation(a) && Apply(s, a) == Some(t)
    ensures Leads(hash, states, events) && states[0] == Quiet(s) && states[|states| - 1] == Quiet(t)
    ensures Committed(Transactions(states, events)) == [a]
  {
    states, events := [Quiet(s), Quiet(t)], [Other(a)];
    OthersProceed(hash, Quiet(s), a, t);
    assert LeadsAt(hash, states, events, 0);
    var ts := Transactions(states, events);
    assert ts == [Some(a)] && ts[..0] == [];
  }

  lemma OneMutation(hash: ObjKey -> int, s: Db, a: Action, t: Db) returns (states: seq<Sys>, events: seq<Event>)
    requires Inv(s) && Mutation(a) && Apply(s, a) == Some(t)
    ensures Leads(hash, states, events) && states[0] == Quiet(s) && states[|states| - 1] == Quiet(t)
    ensures Committed(Transactions(states, events)) == [a]
  {
    states, events := Stages(hash, Quiet(s), 0, a, t), StatementsOf(a, 0);
    CommitsAlone(hash, Quiet(s), 0, a, t);
    StagesCommit(hash, Quiet(s), 0, a, t);
  }

  // Whatever the hash: there is an interleaving that commits these transactions
  // in this order, and at[n] is where it has got to run[n] with nothing running.
  lemma {:induction false} EveryRunInterleaves(hash: ObjKey -> int, run: seq<Db>, actions: seq<Option<Action>>, n: nat)
    returns (states: seq<Sys>, events: seq<Event>, at: seq<nat>)
    requires Does(run, actions) && n < |run|
    ensures SysDoes(hash, states, events) && Committed(Transactions(states, events)) == Committed(actions[..n])
    ensures Gets(run, states, at, n)
  {
    if n == 0 {
      states, events, at := [Idle], [], [0];
    } else {
      var before, steps, was := EveryRunInterleaves(hash, run, actions, n - 1);
      var more, further := StepOn(hash, run, actions, n - 1);
      Continue(hash, before, steps, more, further);
      states, events, at := before + more[1..], steps + further, was + [|before| + |more| - 2];
      OneCommitted(actions, n);
      GotTo(run, before, was, more, n);
    }
  }

  // Where the interleaving has got to each state of the run.
  ghost predicate Gets(run: seq<Db>, states: seq<Sys>, at: seq<nat>, n: nat) {
    && n < |run| && |at| == n + 1 && at[n] == |states| - 1
    && (forall i | 0 <= i <= n :: at[i] < |states| && states[at[i]] == Quiet(run[i]))
    && forall i | 0 <= i < n :: at[i] <= at[i + 1]
  }

  lemma GotTo(run: seq<Db>, before: seq<Sys>, was: seq<nat>, more: seq<Sys>, n: nat)
    requires 0 < n < |run| && Gets(run, before, was, n - 1) && more != [] && more[|more| - 1] == Quiet(run[n])
    requires before[|before| - 1] == more[0]
    ensures Gets(run, before + more[1..], was + [|before| + |more| - 2], n)
  {
    var all, at := before + more[1..], was + [|before| + |more| - 2];
    assert all[|all| - 1] == more[|more| - 1];
    forall i | 0 <= i <= n ensures at[i] < |all| && all[at[i]] == Quiet(run[i]) {
      if i < n {
        assert at[i] == was[i];
      }
    }
    forall i | 0 <= i < n ensures at[i] <= at[i + 1] {
      assert at[i] == was[i] && (i + 1 < n ==> at[i + 1] == was[i + 1]);
    }
  }

  lemma StepOn(hash: ObjKey -> int, run: seq<Db>, actions: seq<Option<Action>>, n: nat)
    returns (more: seq<Sys>, further: seq<Event>)
    requires Does(run, actions) && n < |actions|
    ensures Leads(hash, more, further) && more[0] == Quiet(run[n]) && more[|more| - 1] == Quiet(run[n + 1])
    ensures Committed(Transactions(more, further)) == if actions[n].None? then [] else [actions[n].value]
  {
    assert DoesAt(run, actions, n);
    DoesIsRun(run, actions);
    RunKeepsInv(run, n);
    more, further := OneTransaction(hash, run[n], actions[n], run[n + 1]);
  }

  lemma OneCommitted(ts: seq<Option<Action>>, n: nat)
    requires 0 < n <= |ts|
    ensures Committed(ts[..n]) == Committed(ts[..n - 1]) + if ts[n - 1].None? then [] else [ts[n - 1].value]
  {
    assert ts[..n][..n - 1] == ts[..n - 1];
  }
}
