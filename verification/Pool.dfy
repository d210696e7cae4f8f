// The connection pool (pg.rs): a semaphore of `max` slots and a stack of idle
// connections, under any interleaving of the tasks that use it.
module Pooling {
  import opened Base

  type Conn = nat

  // Where a task that has a slot is: between two looks at the stack, opening a
  // connection, using one, closing an evicted one, or about to free its slot.
  datatype Phase = Popping | Opening | Holding(conn: Conn) | Closing(conn: Conn) | Leaving

  // `made` numbers the connections.
  datatype Pool = Pool(max: nat, min: nat, permits: nat, idle: seq<Conn>, tasks: map<nat, Phase>, made: nat)

  datatype Event =
    | Acquire(task: nat)
    | Pop(task: nat, closed: bool)
    | Opened(task: nat, ok: bool)
    | Drop(task: nat, closed: bool, stale: bool)
    | Close(task: nat)
    | Release(task: nat)

  // The warm pool.
  function Warm(max: nat, min: nat): Pool {
    Pool(max, min, max, seq(min, i requires 0 <= i < min => i as Conn), map[], min)
  }

  // The stack after a connection comes back, and the one evicted: the bottom
  // one, if it has been idle too long and there are more than `min`.
  function PutBack(idle: seq<Conn>, c: Conn, min: nat, stale: bool): (seq<Conn>, Option<Conn>) {
    var all := idle + [c];
    if |all| > min && stale then (all[1..], Some(all[0])) else (all, None)
  }

  function Gone(p: Pool, task: nat): Pool {
    p.(permits := p.permits + 1, tasks := p.tasks - {task})
  }

  function At(p: Pool, task: nat, phase: Phase): Pool { p.(tasks := p.tasks[task := phase]) }

  function Next(p: Pool, e: Event): Option<Pool> {
    if e.Acquire? then
      if e.task in p.tasks || p.permits == 0 then None
      else Some(At(p, e.task, Popping).(permits := p.permits - 1))
    else if e.task !in p.tasks then None
    else
      match (e, p.tasks[e.task])
      case (Pop(t, closed), Popping) =>
        if p.idle == [] then Some(At(p, t, Opening)) else
        var n := |p.idle| - 1;
        var q := p.(idle := p.idle[..n]);
        Some(if closed then q else At(q, t, Holding(p.idle[n])))
      case (Opened(t, ok), Opening) =>
        Some(if ok then At(p, t, Holding(p.made)).(made := p.made + 1) else Gone(p, t))
      case (Drop(t, closed, stale), Holding(c)) =>
        if closed then Some(At(p, t, Leaving)) else
        var (idle, out) := PutBack(p.idle, c, p.min, stale);
        Some(At(p, t, if out.Some? then Closing(out.value) else Leaving).(idle := idle))
      case (Close(t), Closing(_)) => Some(At(p, t, Leaving))
      case (Release(t), Leaving) => Some(Gone(p, t))
      case _ => None
  }

  // ---- the bound ----

  predicate Busy(phase: Phase) { phase.Opening? || phase.Holding? || phase.Closing? }

  // Tasks with a connection, or about to have one.
  function BusyTasks(tasks: map<nat, Phase>): set<nat> { set t | t in tasks && Busy(tasks[t]) }

  // Connections open or being opened.
  function Open(p: Pool): nat { |p.idle| + |BusyTasks(p.tasks)| }

  predicate Has(phase: Phase, c: Conn) { (phase.Holding? || phase.Closing?) && phase.conn == c }

  // Where a connection can be.
  datatype Place = InStack(i: nat) | WithTask(t: nat)

  predicate Lies(p: Pool, a: Place, c: Conn) {
    match a
    case InStack(i) => i < |p.idle| && p.idle[i] == c
    case WithTask(t) => t in p.tasks && Has(p.tasks[t], c)
  }

  // No connection is in two places, so no two tasks use the same one.
  ghost predicate Exclusive(p: Pool) {
    && (forall a, c: Conn :: Lies(p, a, c) ==> c < p.made)
    && (forall a, b, c: Conn :: Lies(p, a, c) && Lies(p, b, c) ==> a == b)
  }

  ghost predicate Inv(p: Pool) {
    p.permits + |p.tasks| == p.max && Open(p) <= p.max && Exclusive(p)
  }

  lemma WarmInv(max: nat, min: nat)
    ensures Inv(Warm(max, min)) <==> min <= max
  {
    assert BusyTasks(map[]) == {};
  }

  lemma TaskSet(tasks: map<nat, Phase>, t: nat, phase: Phase)
    ensures |tasks[t := phase]| == |tasks| + if t in tasks then 0 else 1
    ensures |BusyTasks(tasks[t := phase])| == |BusyTasks(tasks) - {t}| + if Busy(phase) then 1 else 0
  {
    var more := tasks[t := phase];
    assert more.Keys == tasks.Keys + {t};
    BusyWith(tasks, t, phase);
  }

  lemma BusyWith(tasks: map<nat, Phase>, t: nat, phase: Phase)
    ensures BusyTasks(tasks[t := phase]) == (BusyTasks(tasks) - {t}) + if Busy(phase) then {t} else {}
  {
  }

  lemma TaskGone(tasks: map<nat, Phase>, t: nat)
    requires t in tasks
    ensures |tasks - {t}| == |tasks| - 1
    ensures BusyTasks(tasks - {t}) == BusyTasks(tasks) - {t}
  {
    assert (tasks - {t}).Keys == tasks.Keys - {t};
  }

  lemma BusyIsTasks(tasks: map<nat, Phase>, t: nat)
    ensures |BusyTasks(tasks)| <= |tasks|
    ensures t in tasks && !Busy(tasks[t]) ==> |BusyTasks(tasks)| < |tasks|
    ensures |BusyTasks(tasks) - {t}| == |BusyTasks(tasks)| - if t in BusyTasks(tasks) then 1 else 0
  {
    assert BusyTasks(tasks) <= tasks.Keys;
    Subset(BusyTasks(tasks), tasks.Keys);
    if t in tasks && !Busy(tasks[t]) {
      Subset(BusyTasks(tasks), tasks.Keys - {t});
    }
    if t !in BusyTasks(tasks) {
      assert BusyTasks(tasks) - {t} == BusyTasks(tasks);
    }
  }

  lemma Subset(a: set<nat>, b: set<nat>)
    requires a <= b
    ensures |a| <= |b|
  {
    assert |b| == |a| + |b - a|;
  }

  // What a step does to its task, the slots and the stack.
  ghost predicate Shape(p: Pool, q: Pool, t: nat) {
    var was, now := t in p.tasks && Busy(p.tasks[t]), t in q.tasks && Busy(q.tasks[t]);
    && (if t in q.tasks then q.tasks == p.tasks[t := q.tasks[t]] else t in p.tasks && q.tasks == p.tasks - {t})
    && q.permits + (if t in q.tasks then 1 else 0) == p.permits + (if t in p.tasks then 1 else 0)
    && (|q.idle| + (if now then 1 else 0) <= |p.idle| + (if was then 1 else 0)
        || (p.idle == [] && q.idle == [] && t in p.tasks && !was && now))
  }

  lemma StepShape(p: Pool, e: Event)
    requires Next(p, e).Some?
    ensures Shape(p, Next(p, e).value, e.task)
    ensures Next(p, e).value.max == p.max && Next(p, e).value.min == p.min
  {
  }

  // Every step keeps the slots accounted for and the bound: a connection is
  // opened only by a task with a slot, when the stack is empty.
  lemma StepKeepsBound(p: Pool, q: Pool, t: nat)
    requires p.permits + |p.tasks| == p.max == q.max && Open(p) <= p.max && Shape(p, q, t)
    ensures q.permits + |q.tasks| == q.max && Open(q) <= q.max
  {
    BusyIsTasks(p.tasks, t);
    if t in q.tasks {
      TaskSet(p.tasks, t, q.tasks[t]);
    } else {
      TaskGone(p.tasks, t);
    }
  }

  // Connections moved: what is at `a` in q was at from(a) in p.
  lemma Moved(p: Pool, q: Pool, from: Place -> Place)
    requires Exclusive(p) && p.made <= q.made
    requires forall a, c: Conn :: Lies(q, a, c) ==> Lies(p, from(a), c)
    requires forall a, b, c: Conn :: Lies(q, a, c) && Lies(q, b, c) && from(a) == from(b) ==> a == b
    ensures Exclusive(q)
  {
  }

  // Every step keeps each connection in one place.
  lemma StepKeepsExclusive(p: Pool, e: Event)
    requires Exclusive(p) && Next(p, e).Some?
    ensures Exclusive(Next(p, e).value)
  {
    var q, t := Next(p, e).value, e.task;
    if e.Pop? && p.idle != [] && !e.closed {
      Moved(p, q, a => if a == WithTask(t) then InStack(|p.idle| - 1) else a);
    } else if e.Drop? && !e.closed {
      var c, n := p.tasks[t].conn, |p.idle|;
      var r := At(p, t, Leaving).(idle := p.idle + [c]);
      Moved(p, r, a => if a == InStack(n) then WithTask(t) else a);
      if n + 1 > p.min && e.stale {
        assert q.tasks == r.tasks[t := Closing(r.idle[0])] && q.idle == r.idle[1..];
        Moved(r, q, a => if a == WithTask(t) then InStack(0) else if a.InStack? then InStack(a.i + 1) else a);
      }
    } else if e.Opened? && e.ok {
      assert forall a, c: Conn :: Lies(q, a, c) ==> if a == WithTask(t) then c == p.made else Lies(p, a, c);
    } else {
      Moved(p, q, a => a);
    }
  }

  // A step takes the idle stack below `min` only by handing a connection out.
  lemma EvictionKeepsMin(p: Pool, e: Event)
    requires Next(p, e).Some? && e.Drop?
    ensures var q := Next(p, e).value;
      (q.tasks[e.task].Closing? ==> |q.idle| >= p.min) && |q.idle| >= |p.idle|
  {
  }

  // What a connection that comes back does, whoever holds it.
  lemma DropIs(p: Pool, t: nat, c: Conn, closed: bool, stale: bool)
    requires t in p.tasks && p.tasks[t] == Holding(c)
    ensures Next(p, Drop(t, closed, stale)).Some?
    ensures var q := Next(p, Drop(t, closed, stale)).value;
      && q.permits == p.permits && t in q.tasks && (q.tasks[t] == Leaving || q.tasks[t].Closing?)
      && (q.tasks[t].Closing? <==> !closed && |p.idle| + 1 > p.min && stale)
      && (closed ==> q.idle == p.idle)
      && (!closed ==> (if q.tasks[t].Closing? then [q.tasks[t].conn] else []) + q.idle == p.idle + [c])
  {
  }

  // Nobody waits for ever: a task gets a slot exactly if one of `max` is free,
  // and a task that has one can always go on to free it, whatever others hold.
  lemma SlotIff(p: Pool, t: nat)
    requires Inv(p) && t !in p.tasks
    ensures Next(p, Acquire(t)).Some? <==> |p.tasks| < p.max
  {
  }

  function ToGo(phase: Phase): nat {
    match phase
    case Popping => 3
    case Opening | Holding(_) => 2
    case Closing(_) => 1
    case Leaving => 0
  }

  lemma {:induction false} Frees(p: Pool, t: nat) returns (run: seq<Pool>)
    requires t in p.tasks
    ensures |run| > 1 && run[0] == p
    ensures forall i | 0 <= i < |run| - 1 :: StepsBy(run[i], run[i + 1], t)
    ensures var q: Pool := run[|run| - 1]; q.tasks == p.tasks - {t} && q.permits == p.permits + 1
    decreases ToGo(p.tasks[t])
  {
    var e := match p.tasks[t]
      case Popping => Pop(t, false)
      case Opening => Opened(t, false)
      case Holding(_) => Drop(t, true, false)
      case Closing(_) => Close(t)
      case Leaving => Release(t);
    var q := Next(p, e).value;
    assert StepsBy(p, q, t);
    run := [p, q];
    if t in q.tasks {
      var rest := Frees(q, t);
      assert q.tasks - {t} == p.tasks - {t} && q.permits == p.permits;
      run := [p] + rest;
    }
  }

  ghost predicate StepsBy(p: Pool, q: Pool, t: nat) { exists e: Event :: e.task == t && Next(p, e) == Some(q) }

  ghost predicate PoolRun(run: seq<Pool>, max: nat, min: nat) {
    && run != [] && run[0] == Warm(max, min)
    && forall i | 0 <= i < |run| - 1 :: Steps(run[i], run[i + 1])
  }

  ghost predicate Steps(p: Pool, q: Pool) { exists e :: Next(p, e) == Some(q) }

  // In every interleaving at most `max` connections are open, idle ones and
  // those being opened included, and no two tasks share one.
  lemma {:induction false} RunKeepsBound(run: seq<Pool>, max: nat, min: nat, i: nat)
    requires PoolRun(run, max, min) && min <= max && i < |run|
    ensures Inv(run[i]) && run[i].max == max && Open(run[i]) <= max
  {
    if i == 0 {
      WarmInv(max, min);
    } else {
      RunKeepsBound(run, max, min, i - 1);
      assert Steps(run[i - 1], run[i - 1 + 1]);
      var e :| Next(run[i - 1], e) == Some(run[i]);
      StepShape(run[i - 1], e);
      StepKeepsBound(run[i - 1], run[i], e.task);
      StepKeepsExclusive(run[i - 1], e);
    }
  }

  // ---- the code between two locks ----

  class IdleStack {
    var idle: seq<Conn>
    const min: nat

    constructor (warm: seq<Conn>, min: nat)
      ensures idle == warm && this.min == min
    {
      idle, this.min := warm, min;
    }

    // get(): the most recently used connection that is not closed; closed ones
    // met on the way are discarded.
    method Take(closed: Conn -> bool) returns (c: Option<Conn>)
      modifies this`idle
      ensures c.None? ==> idle == [] && forall d <- old(idle) :: closed(d)
      ensures c.Some? ==> !closed(c.value) && |idle| < |old(idle)| && idle + [c.value] == old(idle)[..|idle| + 1]
      ensures c.Some? ==> forall i | |idle| < i < |old(idle)| :: closed(old(idle)[i])
    {
      while idle != []
        invariant idle == old(idle)[..|idle|] && |idle| <= |old(idle)|
        invariant forall i | |idle| <= i < |old(idle)| :: closed(old(idle)[i])
        decreases |idle|
      {
        var top := idle[|idle| - 1];
        idle := idle[..|idle| - 1];
        if !closed(top) {
          return Some(top);
        }
      }
      c := None;
    }

    // Dropping a checked-out connection.
    method Return(c: Conn, closed: bool, stale: Conn -> bool) returns (evicted: Option<Conn>)
      modifies this`idle
      ensures closed ==> idle == old(idle) && evicted.None?
      ensures !closed ==>
        (evicted.Some? <==> |old(idle)| + 1 > min && stale(if old(idle) == [] then c else old(idle)[0]))
      ensures !closed ==> (if evicted.Some? then [evicted.value] else []) + idle == old(idle) + [c]
      ensures !closed ==> (idle, evicted) == PutBack(old(idle), c, min, stale((old(idle) + [c])[0]))
    {
      if closed {
        return None;
      }
      idle := idle + [c];
      if |idle| > min && stale(idle[0]) {
        evicted := Some(idle[0]);
        idle := idle[1..];
      } else {
        evicted := None;
      }
    }
  }
}
