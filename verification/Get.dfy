// One GET: at most two attempts, each from the cached metadata or a fresh
// lookup, and the gateway's cache around it (meta, meta_fresh, get_body and
// publish_cache in db.rs).
module Getting {
  import opened Base
  import opened Objects
  import opened Ranges
  import opened Streaming
  import opened Store
  import opened StoreInvariant
  import opened Versions
  import opened Reads
  import MC = MetaCaching

  type Cache = MC.MetaCache<ObjKey, Meta>

  // What other requests of the gateway do to its cache.
  datatype CacheOp = Publish(key: ObjKey, meta: Meta) | Forget(key: ObjKey)

  datatype Request = Request(first: I64, last: I64, suffix: I64)

  // What the world answers during one attempt: the gateway's other cache
  // traffic before it, while a lookup is out and while the body streams; the
  // metadata lookup if one is made; each piece's query.
  datatype Try = Try(
    others: seq<CacheOp>, waiting: seq<CacheOp>, during: seq<CacheOp>,
    found: Option<Meta>, query: Piece -> seq<Event>)

  // The instants of an attempt.
  datatype Times = Times(opens: nat, looks: nat, closes: nat, when: Piece -> nat)

  datatype Reply =
    | NotFound
    | Empty(meta: Meta, start: int, end: int)
    | Body(meta: Meta, start: int, end: int, chunks: seq<seq<Byte>>, ok: bool)
    | Failed

  // Every cached entry was the key's metadata once.
  ghost predicate CacheKept(run: seq<Db>, now: nat, es: seq<(ObjKey, Meta)>)
    requires now < |run|
  {
    forall i | 0 <= i < |es| :: WasLive(run, now, es[i].0, es[i].1)
  }

  // Requests publish what they looked up or committed.
  ghost predicate OpsKept(run: seq<Db>, now: nat, ops: seq<CacheOp>)
    requires now < |run|
  {
    forall op <- ops :: op.Publish? ==> WasLive(run, now, op.key, op.meta)
  }

  ghost predicate Happens(run: seq<Db>, k: ObjKey, try: Try, t: Times) {
    && t.opens <= t.looks <= t.closes < |run|
    && try.found == Lookup(run[t.looks].objects, k)
    && OpsKept(run, t.opens, try.others) && OpsKept(run, t.looks, try.waiting) && OpsKept(run, t.closes, try.during)
    && forall p: Piece :: Happened(run, try, t, p)
  }

  ghost predicate Happened(run: seq<Db>, try: Try, t: Times, p: Piece)
    requires t.closes < |run|
  {
    t.looks <= t.when(p) <= t.closes && Query(run[t.when(p)].chunks, p, try.query(p))
  }

  lemma KeptLater(run: seq<Db>, now: nat, later: nat, es: seq<(ObjKey, Meta)>)
    requires now <= later < |run| && CacheKept(run, now, es)
    ensures CacheKept(run, later, es)
  {
    forall i | 0 <= i < |es| ensures WasLive(run, later, es[i].0, es[i].1) {
      assert WasLive(run, now, es[i].0, es[i].1);
    }
  }

  lemma PutKept(run: seq<Db>, now: nat, es: seq<(ObjKey, Meta)>, cap: nat, k: ObjKey, m: Meta)
    requires now < |run| && CacheKept(run, now, es) && WasLive(run, now, k, m)
    ensures CacheKept(run, now, MC.Put(es, cap, k, m))
  {
    var more := es + [(k, m)];
    forall i | 0 <= i < |more| ensures WasLive(run, now, more[i].0, more[i].1) {
    }
  }

  lemma {:induction false} DropKept(run: seq<Db>, now: nat, es: seq<(ObjKey, Meta)>, k: ObjKey)
    requires now < |run| && CacheKept(run, now, es)
    ensures CacheKept(run, now, MC.Drop(es, k))
  {
    if es != [] {
      DropKept(run, now, es[1..], k);
    }
  }

  lemma {:induction false} FoundKept(run: seq<Db>, now: nat, es: seq<(ObjKey, Meta)>, k: ObjKey)
    requires now < |run| && CacheKept(run, now, es) && MC.Find(es, k).Some?
    ensures WasLive(run, now, k, MC.Find(es, k).value)
  {
    if es[0].0 != k {
      FoundKept(run, now, es[1..], k);
    }
  }

  // ---- the cache after other requests used it ----

  function AfterOp(es: seq<(ObjKey, Meta)>, cap: nat, op: CacheOp): seq<(ObjKey, Meta)> {
    match op
    case Publish(k, m) => MC.Put(es, cap, k, m)
    case Forget(k) => MC.Drop(es, k)
  }

  function AfterOps(es: seq<(ObjKey, Meta)>, cap: nat, ops: seq<CacheOp>): seq<(ObjKey, Meta)> {
    if ops == [] then es else AfterOp(AfterOps(es, cap, ops[..|ops| - 1]), cap, ops[|ops| - 1])
  }

  // The entry that a request finds behind the operations.
  function FoundAfter(es: seq<(ObjKey, Meta)>, cap: nat, ops: seq<CacheOp>, k: ObjKey): Option<Meta> {
    MC.Find(AfterOps(es, cap, ops), k)
  }

  lemma OpKeeps(es: seq<(ObjKey, Meta)>, cap: nat, op: CacheOp, k: ObjKey)
    requires MC.Distinct(MC.Keys(es)) && |es| <= cap
    ensures MC.Distinct(MC.Keys(AfterOp(es, cap, op))) && |AfterOp(es, cap, op)| <= cap
    ensures var now := MC.Find(AfterOp(es, cap, op), k);
      && (now.None? || now == MC.Find(es, k) || op == Publish(k, now.value))
      && (cap > 0 && op.Publish? && op.key == k ==> now == Some(op.meta))
  {
    match op
    case Publish(q, m) =>
      MC.PutKeeps(es, cap, q, m);
      if cap > 0 && q != k {
        MC.PutFinds(es, cap, q, m, k);
      }
    case Forget(q) =>
      MC.DropKeeps(es, q);
      MC.DropFinds(es, q, k);
  }

  // The entry found is the one that was there or one published meanwhile: if
  // nobody publishes the key, it is the one that was there, or gone.
  lemma {:induction false} FoundIs(es: seq<(ObjKey, Meta)>, cap: nat, ops: seq<CacheOp>, k: ObjKey)
    requires MC.Distinct(MC.Keys(es)) && |es| <= cap
    ensures MC.Distinct(MC.Keys(AfterOps(es, cap, ops))) && |AfterOps(es, cap, ops)| <= cap
    ensures var now := FoundAfter(es, cap, ops, k);
      && (now.None? || now == MC.Find(es, k) || Publish(k, now.value) in ops)
      && (cap > 0 && ops != [] && ops[|ops| - 1].Publish? && ops[|ops| - 1].key == k ==>
            now == Some(ops[|ops| - 1].meta))
  {
    if ops != [] {
      var n := |ops| - 1;
      FoundIs(es, cap, ops[..n], k);
      OpKeeps(AfterOps(es, cap, ops[..n]), cap, ops[n], k);
    }
  }

  // Other requests use the cache.
  method Interfere(cache: Cache, ops: seq<CacheOp>, ghost run: seq<Db>, ghost now: nat)
    requires cache.Valid() && now < |run| && CacheKept(run, now, cache.Contents()) && OpsKept(run, now, ops)
    modifies cache`entries, cache`order
    ensures cache.Valid() && CacheKept(run, now, cache.Contents())
    ensures cache.Contents() == AfterOps(old(cache.Contents()), cache.cap, ops)
  {
    for i := 0 to |ops|
      invariant cache.Valid() && CacheKept(run, now, cache.Contents())
      invariant cache.Contents() == AfterOps(old(cache.Contents()), cache.cap, ops[..i])
    {
      assert ops[..i + 1][..i] == ops[..i];
      var op := ops[i];
      match op
      case Publish(k, m) =>
        PutKept(run, now, cache.Contents(), cache.cap, k, m);
        cache.Insert(k, m);
      case Forget(k) =>
        DropKept(run, now, cache.Contents(), k);
        cache.Invalidate(k);
    }
    assert ops[..|ops|] == ops;
  }

  // meta(): the cached entry, else a lookup that refreshes the cache.
  method FindMeta(
    cache: Cache, k: ObjKey, found: Option<Meta>, waiting: seq<CacheOp>,
    ghost run: seq<Db>, ghost opens: nat, ghost looks: nat)
    returns (m: Option<Meta>)
    requires cache.Valid() && opens <= looks < |run| && CacheKept(run, opens, cache.Contents())
    requires found == Lookup(run[looks].objects, k) && OpsKept(run, looks, waiting)
    modifies cache`entries, cache`order
    ensures cache.Valid() && CacheKept(run, looks, cache.Contents())
    ensures m == var cached := MC.Find(old(cache.Contents()), k); if cached.Some? then cached else found
    ensures m.Some? ==> WasLive(run, looks, k, m.value)
    ensures cache.cap > 0 || m.None? ==> MC.Find(cache.Contents(), k) == m
  {
    KeptLater(run, opens, looks, cache.Contents());
    m := cache.Get(k);
    if m.Some? {
      FoundKept(run, looks, cache.Contents(), k);
      return;
    }
    Interfere(cache, waiting, run, looks);
    m := found;
    cache.ContentsKept();
    if m.None? {
      MC.DropFinds(cache.Contents(), k, k);
      DropKept(run, looks, cache.Contents(), k);
      cache.Invalidate(k);
    } else {
      assert Live(run[looks], k, m.value);
      MC.PutKeeps(cache.Contents(), cache.cap, k, m.value);
      PutKept(run, looks, cache.Contents(), cache.cap, k, m.value);
      cache.Insert(k, m.value);
    }
  }

  // ---- what a reply says of the window it was made in ----

  ghost predicate Bounds(m: Meta, req: Request, start: int, end: int) {
    (start, end) == EffRange(m.size, req.first, req.last, req.suffix)
  }

  // The chunks are a prefix of the range of a version that is live in `s`, and
  // without an error all of it, unless the client left.
  ghost predicate Serves(
    s: Db, k: ObjKey, m: Meta, start: int, end: int, chunks: seq<seq<Byte>>, ok: bool, patience: Option<nat>)
  {
    && Live(s, k, m) && Stored(m, s.written) && 0 <= start <= end < m.size == |Bytes(m, s.written)|
    && Flatten(chunks) <= Bytes(m, s.written)[start..end + 1]
    && (ok ==> Left(patience, chunks) || Flatten(chunks) == Bytes(m, s.written)[start..end + 1])
  }

  ghost predicate ServedWithin(
    run: seq<Db>, low: nat, high: nat, k: ObjKey, m: Meta, start: int, end: int,
    chunks: seq<seq<Byte>>, ok: bool, patience: Option<nat>)
  {
    exists j :: low <= j <= high && j < |run| && Serves(run[j], k, m, start, end, chunks, ok, patience)
  }

  ghost predicate Truthful(
    run: seq<Db>, low: nat, high: nat, k: ObjKey, req: Request, patience: Option<nat>, reply: Reply)
    requires low <= high < |run|
  {
    match reply
    case NotFound => exists j :: low <= j <= high && k !in run[j].objects
    case Empty(m, start, end) => Bounds(m, req, start, end) && start > end && WasLive(run, high, k, m)
    case Body(m, start, end, chunks, ok) =>
      && Bounds(m, req, start, end) && chunks != []
      && ServedWithin(run, low, high, k, m, start, end, chunks, ok, patience)
    case Failed => true
  }

  // Nobody changes the key in the window, no query fails and the client stays.
  ghost predicate Calm(run: seq<Db>, low: nat, high: nat, k: ObjKey, try: Try, patience: Option<nat>) {
    && Quiet(run, low, high, k) && patience.None?
    && forall p: Piece :: Fault !in try.query(p)
  }

  // The range is empty for a version that is not.
  ghost predicate OutOfRange(m: Meta, req: Request) {
    var (start, end) := EffRange(m.size, req.first, req.last, req.suffix);
    m.size > 0 && start > end
  }

  // An entry of what the key holds, or no entry.
  ghost predicate Current(s: Db, k: ObjKey, e: Option<Meta>) { e.None? || Live(s, k, e.value) }

  // What an attempt goes by: the entry found, else what the lookup gave.
  function Basis(e: Option<Meta>, found: Option<Meta>): Option<Meta> { if e.Some? then e else found }

  // The first attempt leaves it to the second: it goes by a version that is not
  // empty and for which the range is, or that the key does not hold.
  ghost predicate Retries(s: Db, k: ObjKey, req: Request, e: Option<Meta>) {
    var m := Basis(e, Lookup(s.objects, k));
    m.Some? && m.value.size > 0 && (OutOfRange(m.value, req) || !Live(s, k, m.value))
  }

  // If there is anything to read, the rows are there.
  ghost predicate Readable(s: Db, k: ObjKey, req: Request) {
    k in s.objects ==>
      var m := s.objects[k];
      var (start, end) := EffRange(m.size, req.first, req.last, req.suffix);
      start > end || RowsThere(s, PlanOf(m, start, end))
  }

  // The version was gone when the first piece was asked for.
  ghost predicate Gone(run: seq<Db>, k: ObjKey, m: Meta, ps: seq<Piece>, t: Times) {
    ps != [] && t.when(ps[0]) < |run| && !Live(run[t.when(ps[0])], k, m)
  }

  // The first row did not come, or some row of a range shorter than a chunk
  // while the client stays: nothing can have been sent.
  ghost predicate Interrupted(m: Meta, req: Request, ps: seq<Piece>, try: Try, patience: Option<nat>) {
    var (start, end) := EffRange(m.size, req.first, req.last, req.suffix);
    && ps != []
    && (ps[0].lo !in Nos(try.query(ps[0])) || (patience.None? && end - start + 1 < CHUNK && Incomplete(ps, try)))
  }

  ghost predicate Incomplete(ps: seq<Piece>, try: Try) {
    exists n :: 0 <= n < |ps| && !Whole(ps[n], try.query(ps[n]))
  }

  // The version the key holds in a quiet window, served as asked; an error if
  // rows asked for are missing.
  ghost predicate Expected(s: Db, k: ObjKey, req: Request, reply: Reply) {
    if k !in s.objects then reply == NotFound else
    var m := s.objects[k];
    var (start, end) := EffRange(m.size, req.first, req.last, req.suffix);
    if start > end then reply == Empty(m, start, end)
    else if RowsThere(s, PlanOf(m, start, end)) then
      && reply.Body? && reply == Body(m, start, end, reply.chunks, true)
      && Stored(m, s.written) && 0 <= start <= end < |Bytes(m, s.written)|
      && Flatten(reply.chunks) == Bytes(m, s.written)[start..end + 1]
    else reply == Reply.Failed || (reply.Body? && reply == Body(m, start, end, reply.chunks, false))
  }

  // ---- the streaming phase of an attempt ----

  lemma ServesAt(
    run: seq<Db>, i: nat, j: nat, k: ObjKey, m: Meta, start: int, end: int,
    chunks: seq<seq<Byte>>, ok: bool, patience: Option<nat>)
    requires Run(run) && i <= j < |run| && Live(run[i], k, m) && Live(run[j], k, m)
    requires Serves(run[i], k, m, start, end, chunks, ok, patience)
    ensures Serves(run[j], k, m, start, end, chunks, ok, patience)
  {
    RunRemembers(run, i, j);
    RunKeepsInv(run, j);
    MetaIsStored(run[j], k, m);
    BytesRemembered(Segments(m), run[i].written, run[j].written);
  }

  // Streams into the response; one buffer if the first chunk is all of it.
  method StreamTry(
    m: Meta, start: int, end: int, query: Piece -> seq<Event>, patience: Option<nat>,
    ghost run: seq<Db>, ghost i: nat, ghost k: ObjKey, ghost req: Request, ghost try: Try, ghost t: Times)
    returns (sent: seq<seq<Byte>>, ok: bool)
    requires Run(run) && Happens(run, k, try, t) && query == try.query
    requires i <= t.looks && Live(run[i], k, m) && 0 <= start <= end < m.size
    ensures PlanOf(m, start, end) != []
    ensures sent != [] ==> ServedWithin(run, t.looks, t.closes, k, m, start, end, sent, ok, patience)
    ensures sent == [] && ok ==> patience == Some(0)
    ensures Calm(run, t.looks, t.closes, k, try, patience) && Live(run[t.looks], k, m) ==>
      if RowsThere(run[t.looks], PlanOf(m, start, end)) then
        ok && sent != [] && Serves(run[t.looks], k, m, start, end, sent, ok, patience)
      else !ok && |Flatten(sent)| <= end - start
    ensures Gone(run, k, m, PlanOf(m, start, end), t) ==> sent == [] && !ok
    ensures !ok ==> Passed(patience, sent)
    ensures Bounds(m, req, start, end) && Interrupted(m, req, PlanOf(m, start, end), try, patience) ==>
      sent == [] && !ok
  {
    var ps := PlanOf(m, start, end);
    var answers := seq(|ps|, n requires 0 <= n < |ps| => query(ps[n]));
    ghost var when := seq(|ps|, n requires 0 <= n < |ps| => t.when(ps[n]));
    AllAsked(run, k, try, t, ps, answers, when);
    PlanAnswers(run, i, t.looks, t.closes, k, m, start, end, answers, when);
    sent, ok := StreamSpan(m, start, end, answers, patience, run[i].written);
    assert Serves(run[i], k, m, start, end, sent, ok, patience);
    ShortNotSent(ps, try, answers, sent, end - start + 1, ok, patience);
    if sent != [] && |sent[0]| == end - start + 1 {
      HeadServes(run[i], k, m, start, end, sent, ok, patience);
      sent, ok := [sent[0]], true;
    }
    if sent != [] {
      ServesAt(run, i, when[0], k, m, start, end, sent, ok, patience);
    }
    if Calm(run, t.looks, t.closes, k, try, patience) && Live(run[t.looks], k, m) {
      LiveAnswers(run, t.looks, t.closes, k, m, start, end, answers, when);
      ServesAt(run, i, t.looks, k, m, start, end, sent, ok, patience);
    }
  }

  // Of a range shorter than a chunk nothing is sent before the end.
  lemma ShortNotSent(
    ps: seq<Piece>, try: Try, answers: seq<seq<Event>>, sent: seq<seq<Byte>>, len: int, ok: bool, patience: Option<nat>)
    requires |answers| == |ps| && forall n | 0 <= n < |ps| :: answers[n] == try.query(ps[n])
    requires !ok ==> Passed(patience, sent) && |Flatten(sent)| <= len
    requires patience.None? ==> (ok <==> AllWhole(ps, answers))
    ensures !ok && len < CHUNK ==> sent == []
    ensures patience.None? && Incomplete(ps, try) ==> !ok
  {
    if !ok && sent != [] {
      FlattenHead(sent);
    }
    if Incomplete(ps, try) {
      var n :| 0 <= n < |ps| && !Whole(ps[n], try.query(ps[n]));
      assert !WholeAt(ps, n, answers);
    }
  }

  // A first chunk as long as the range is all of it, whatever came after.
  lemma HeadServes(
    s: Db, k: ObjKey, m: Meta, start: int, end: int, chunks: seq<seq<Byte>>, ok: bool, patience: Option<nat>)
    requires Serves(s, k, m, start, end, chunks, ok, patience) && chunks != [] && |chunks[0]| == end - start + 1
    ensures Serves(s, k, m, start, end, [chunks[0]], true, patience) && |Flatten(chunks)| > end - start
  {
    FlattenHead(chunks);
    FlattenSnoc([], chunks[0]);
    assert [] + [chunks[0]] == [chunks[0]];
  }

  lemma AllAsked(
    run: seq<Db>, k: ObjKey, try: Try, t: Times, ps: seq<Piece>, answers: seq<seq<Event>>, when: seq<nat>)
    requires Happens(run, k, try, t) && |ps| == |answers| == |when|
    requires forall n | 0 <= n < |ps| :: answers[n] == try.query(ps[n]) && when[n] == t.when(ps[n])
    ensures Asked(run, t.looks, t.closes, ps, answers, when)
  {
    forall n | 0 <= n < |ps| ensures AskedAt(run, t.looks, t.closes, ps, answers, when, n) {
      assert Happened(run, try, t, ps[n]);
    }
  }

  // ---- one attempt ----

  lemma QuietPart(run: seq<Db>, low: nat, high: nat, k: ObjKey, i: nat, j: nat)
    requires Quiet(run, low, high, k) && low <= i <= j <= high
    ensures Quiet(run, i, j, k) && Lookup(run[i].objects, k) == Lookup(run[low].objects, k)
  {
  }

  // What an attempt comes to when the cached entry, else the lookup, gave `m`;
  // None is to try again with the entry dropped.
  ghost predicate Replies(
    run: seq<Db>, k: ObjKey, req: Request, attempt: nat, m: Option<Meta>, try: Try, t: Times, patience: Option<nat>,
    reply: Option<Reply>)
    requires t.looks < |run|
  {
    if m.None? then reply == Some(NotFound) else
    var (start, end) := EffRange(m.value.size, req.first, req.last, req.suffix);
    if start > end then reply == if attempt == 0 && m.value.size > 0 then None else Some(Empty(m.value, start, end))
    else Streams(run, k, req, attempt, m.value, PlanOf(m.value, start, end), try, t, patience, reply)
  }

  // The same for a range that is not empty.
  ghost predicate Streams(
    run: seq<Db>, k: ObjKey, req: Request, attempt: nat, m: Meta, ps: seq<Piece>, try: Try, t: Times,
    patience: Option<nat>, reply: Option<Reply>)
    requires t.looks < |run|
  {
    && ps != [] && (reply.Some? ==> reply.value.Body? || reply.value == Reply.Failed)
    && (reply.None? ==> attempt == 0)
    && (Gone(run, k, m, ps, t) || Interrupted(m, req, ps, try, patience) ==>
          reply == if attempt == 0 then None else Some(Reply.Failed))
    && (reply == Some(Reply.Failed) ==> attempt == 1 || patience == Some(0))
    && (reply.Some? && reply.value.Body? && !reply.value.ok ==> Passed(patience, reply.value.chunks))
    && (Calm(run, t.looks, t.closes, k, try, patience) && Live(run[t.looks], k, m) ==>
          if reply.Some? then Expected(run[t.looks], k, req, reply.value) else !RowsThere(run[t.looks], ps))
  }

  // After the cached entry or the lookup gave `m`.
  method Answer(
    cache: Cache, k: ObjKey, req: Request, attempt: nat, m: Meta, during: seq<CacheOp>, query: Piece -> seq<Event>,
    patience: Option<nat>, ghost run: seq<Db>, ghost try: Try, ghost t: Times)
    returns (reply: Option<Reply>)
    requires cache.Valid() && Run(run) && Happens(run, k, try, t) && CacheKept(run, t.looks, cache.Contents())
    requires WasLive(run, t.looks, k, m) && query == try.query && during == try.during && attempt <= 1
    modifies cache`entries, cache`order
    ensures cache.Valid() && CacheKept(run, t.closes, cache.Contents())
    ensures reply.Some? ==> Truthful(run, t.opens, t.closes, k, req, patience, reply.value)
    ensures reply.None? ==> attempt == 0 && MC.Find(cache.Contents(), k).None?
    ensures Replies(run, k, req, attempt, Some(m), try, t, patience, reply)
  {
    KeptLater(run, t.looks, t.closes, cache.Contents());
    ghost var i :| 0 <= i <= t.looks && Live(run[i], k, m);
    var (start, end) := EffRange(m.size, req.first, req.last, req.suffix);
    RepliesWith(run, k, req, attempt, m, try, t, patience);
    if m.size > 0 && (start > end || start >= m.size) && attempt == 0 {
      Withdraw(cache, k, run, t.closes);
      return None;
    }
    var len := Max(end - start + 1, 0);
    if len == 0 {
      return Some(Empty(m, start, end));
    }
    reply := StreamReply(cache, k, req, attempt, m, start, end, during, query, patience, run, i, try, t);
  }

  lemma RepliesWith(
    run: seq<Db>, k: ObjKey, req: Request, attempt: nat, m: Meta, try: Try, t: Times, patience: Option<nat>)
    requires t.looks < |run| && attempt <= 1
    ensures var (start, end) := EffRange(m.size, req.first, req.last, req.suffix);
      if start > end then
        Replies(run, k, req, attempt, Some(m), try, t, patience,
          if attempt == 0 && m.size > 0 then None else Some(Empty(m, start, end)))
      else
        && 0 <= start <= end < m.size
        && forall r ::
             Replies(run, k, req, attempt, Some(m), try, t, patience, r)
             <==> Streams(run, k, req, attempt, m, PlanOf(m, start, end), try, t, patience, r)
  {
  }

  // The streaming part of an attempt.
  method StreamReply(
    cache: Cache, k: ObjKey, req: Request, attempt: nat, m: Meta, start: int, end: int, during: seq<CacheOp>,
    query: Piece -> seq<Event>, patience: Option<nat>,
    ghost run: seq<Db>, ghost i: nat, ghost try: Try, ghost t: Times)
    returns (reply: Option<Reply>)
    requires cache.Valid() && Run(run) && Happens(run, k, try, t) && CacheKept(run, t.closes, cache.Contents())
    requires i <= t.looks && Live(run[i], k, m) && query == try.query && during == try.during && attempt <= 1
    requires Bounds(m, req, start, end) && 0 <= start <= end < m.size
    modifies cache`entries, cache`order
    ensures cache.Valid() && CacheKept(run, t.closes, cache.Contents())
    ensures reply.Some? ==> Truthful(run, t.opens, t.closes, k, req, patience, reply.value)
    ensures reply.None? ==> attempt == 0 && MC.Find(cache.Contents(), k).None?
    ensures Streams(run, k, req, attempt, m, PlanOf(m, start, end), try, t, patience, reply)
  {
    Interfere(cache, during, run, t.closes);
    var sent, ok := StreamTry(m, start, end, query, patience, run, i, k, req, try, t);
    StreamSettles(run, k, req, attempt, try, t, patience, m, start, end, sent, ok);
    if sent != [] {
      return Some(Body(m, start, end, sent, ok));
    }
    if ok {
      return Some(Reply.Failed);
    }
    Withdraw(cache, k, run, t.closes);
    reply := if attempt == 1 then Some(Reply.Failed) else None;
  }

  // meta_invalidate, before trying again.
  method Withdraw(cache: Cache, k: ObjKey, ghost run: seq<Db>, ghost now: nat)
    requires cache.Valid() && now < |run| && CacheKept(run, now, cache.Contents())
    modifies cache`entries, cache`order
    ensures cache.Valid() && CacheKept(run, now, cache.Contents()) && MC.Find(cache.Contents(), k).None?
  {
    DropKept(run, now, cache.Contents(), k);
    MC.DropFinds(cache.Contents(), k, k);
    cache.Invalidate(k);
  }

  // What was sent decides the reply.
  lemma StreamSettles(
    run: seq<Db>, k: ObjKey, req: Request, attempt: nat, try: Try, t: Times, patience: Option<nat>,
    m: Meta, start: int, end: int, sent: seq<seq<Byte>>, ok: bool)
    requires Happens(run, k, try, t) && Bounds(m, req, start, end) && 0 <= start <= end < m.size && attempt <= 1
    requires PlanOf(m, start, end) != [] && (sent == [] && ok ==> patience == Some(0))
    requires Calm(run, t.looks, t.closes, k, try, patience) && Live(run[t.looks], k, m) ==>
      if RowsThere(run[t.looks], PlanOf(m, start, end)) then
        ok && sent != [] && Serves(run[t.looks], k, m, start, end, sent, ok, patience)
      else !ok && |Flatten(sent)| <= end - start
    requires Gone(run, k, m, PlanOf(m, start, end), t) || Interrupted(m, req, PlanOf(m, start, end), try, patience) ==>
      sent == [] && !ok
    requires !ok ==> Passed(patience, sent)
    ensures Streams(run, k, req, attempt, m, PlanOf(m, start, end), try, t, patience,
      if sent != [] then Some(Body(m, start, end, sent, ok))
      else if ok || attempt == 1 then Some(Reply.Failed) else None)
  {
  }

  method TryOnce(
    cache: Cache, k: ObjKey, req: Request, attempt: nat, try: Try, patience: Option<nat>,
    ghost run: seq<Db>, ghost t: Times)
    returns (reply: Option<Reply>)
    requires cache.Valid() && Run(run) && Happens(run, k, try, t) && CacheKept(run, t.opens, cache.Contents())
    requires attempt <= 1
    modifies cache`entries, cache`order
    ensures cache.Valid() && CacheKept(run, t.closes, cache.Contents())
    ensures reply.Some? ==> Truthful(run, t.opens, t.closes, k, req, patience, reply.value)
    ensures reply.None? ==> attempt == 0 && MC.Find(cache.Contents(), k).None?
    ensures var m := Basis(FoundAfter(old(cache.Contents()), cache.cap, try.others, k), try.found);
      Replies(run, k, req, attempt, m, try, t, patience, reply)
  {
    Interfere(cache, try.others, run, t.opens);
    var m := FindMeta(cache, k, try.found, try.waiting, run, t.opens, t.looks);
    if m.None? {
      KeptLater(run, t.looks, t.closes, cache.Contents());
      return Some(NotFound);
    }
    reply := Answer(cache, k, req, attempt, m.value, try.during, try.query, patience, run, try, t);
  }

  lemma Widen(
    run: seq<Db>, low: nat, high: nat, i: nat, j: nat, k: ObjKey, req: Request, patience: Option<nat>, reply: Reply)
    requires low <= i <= j <= high < |run| && Truthful(run, i, j, k, req, patience, reply)
    ensures Truthful(run, low, high, k, req, patience, reply)
  {
  }

  // A version that stays keeps its bytes and rows.
  lemma LiveThroughout(run: seq<Db>, low: nat, j: nat, high: nat, k: ObjKey, m: Meta, start: int, end: int)
    requires Run(run) && Quiet(run, low, high, k) && low <= j <= high && Live(run[low], k, m)
    ensures Live(run[j], k, m) && Stored(m, run[low].written) && Stored(m, run[j].written)
    ensures Bytes(m, run[j].written) == Bytes(m, run[low].written)
    ensures RowsThere(run[j], PlanOf(m, start, end)) <==> RowsThere(run[low], PlanOf(m, start, end))
  {
    forall i | low <= i <= j ensures Live(run[i], k, m) {
      QuietPart(run, low, high, k, i, j);
    }
    RowsThrough(run, low, j, k, m);
    RunKeepsInv(run, low);
    RunKeepsInv(run, j);
    MetaIsStored(run[low], k, m);
    MetaIsStored(run[j], k, m);
    RunRemembers(run, low, j);
    BytesRemembered(Segments(m), run[low].written, run[j].written);
    PiecesStay(run[low], run[j], m, start, end);
  }

  // What is expected at one instant of a quiet window is expected at its start.
  lemma ExpectedThroughout(run: seq<Db>, low: nat, j: nat, high: nat, k: ObjKey, req: Request, reply: Reply)
    requires Run(run) && Quiet(run, low, high, k) && low <= j <= high
    ensures Expected(run[j], k, req, reply) <==> Expected(run[low], k, req, reply)
    ensures Readable(run[j], k, req) <==> Readable(run[low], k, req)
  {
    QuietPart(run, low, high, k, j, j);
    if k in run[low].objects {
      var m := run[low].objects[k];
      var (start, end) := EffRange(m.size, req.first, req.last, req.suffix);
      LiveThroughout(run, low, j, high, k, m, start, end);
    }
  }

  lemma PiecesStay(s: Db, t: Db, m: Meta, start: int, end: int)
    requires RowsIn(t.chunks, FilesOf(m)) == RowsIn(s.chunks, FilesOf(m))
    requires forall i | 0 <= i < |Segments(m)| :: Segments(m)[i].file in FilesOf(m)
    ensures RowsThere(t, PlanOf(m, start, end)) <==> RowsThere(s, PlanOf(m, start, end))
  {
    var ps := PlanOf(m, start, end);
    PlanFiles(Segments(m), start, end, PART_ROWS, FilesOf(m));
    forall n | 0 <= n < |ps| ensures PieceThere(t, ps[n]) <==> PieceThere(s, ps[n]) {
      assert ps[n] in ps;
      SameRows(s, t, FilesOf(m), ps[n]);
    }
  }

  // An attempt in a calm request: if it goes by what the key holds, it answers
  // that as asked; if not, its answer is another, where all rows are there.
  lemma Decides(
    run: seq<Db>, low: nat, high: nat, k: ObjKey, req: Request, attempt: nat, e: Option<Meta>, try: Try, t: Times,
    patience: Option<nat>, reply: Option<Reply>)
    requires Run(run) && Happens(run, k, try, t) && low <= t.opens && t.closes <= high < |run|
    requires Calm(run, low, high, k, try, patience)
    requires Replies(run, k, req, attempt, Basis(e, try.found), try, t, patience, reply)
    ensures reply.Some? && Current(run[low], k, e) ==> Expected(run[low], k, req, reply.value)
    ensures Readable(run[low], k, req) ==> (reply.None? <==> attempt == 0 && Retries(run[low], k, req, e))
    ensures Readable(run[low], k, req) && reply.Some? && !Current(run[low], k, e) ==>
      !Expected(run[low], k, req, reply.value)
  {
    var m := Basis(e, try.found);
    QuietPart(run, low, high, k, t.looks, t.closes);
    if reply.Some? {
      ExpectedThroughout(run, low, t.looks, high, k, req, reply.value);
    }
    if m.Some? {
      var (start, end) := EffRange(m.value.size, req.first, req.last, req.suffix);
      if start <= end {
        if Live(run[low], k, m.value) {
          LiveThroughout(run, low, t.looks, high, k, m.value, start, end);
        } else {
          GoneThroughout(run, low, high, k, m.value, PlanOf(m.value, start, end), try, t);
        }
      }
    }
  }

  lemma GoneThroughout(run: seq<Db>, low: nat, high: nat, k: ObjKey, m: Meta, ps: seq<Piece>, try: Try, t: Times)
    requires Happens(run, k, try, t) && low <= t.opens && t.closes <= high < |run| && ps != []
    requires Quiet(run, low, high, k) && !Live(run[low], k, m)
    ensures Gone(run, k, m, ps, t)
  {
    assert Happened(run, try, t, ps[0]);
  }

  // A GET while others change anything, in the database and in the cache.
  // However stale the entry it finds and however overwrites and deletes fall
  // between the queries: a body is bytes of one version that was live within
  // the request, a prefix of the requested range, and the whole range if it
  // ended without error; NotFound was true within the request.
  //
  // When one retry suffices: if nobody changes the key, no query fails and the
  // client stays, the answer is that of the live version exactly if the entry
  // that decides it is none or of that version. The second attempt's entry
  // decides if the first went by a version that is not empty but for which the
  // range is, or that is gone; others must have published it in between.
  // A second attempt that is calm answers so by itself, however the first failed;
  // an error is left only to the second, and a body cut short only behind whole
  // chunks of it.
  method GetBody(
    cache: Cache, k: ObjKey, req: Request, tries: seq<Try>, patience: Option<nat>,
    ghost run: seq<Db>, ghost times: seq<Times>)
    returns (reply: Reply, ghost retried: bool, ghost again: Option<Meta>)
    requires cache.Valid() && Run(run) && |tries| == |times| == 2
    requires Happens(run, k, tries[0], times[0]) && Happens(run, k, tries[1], times[1])
    requires times[0].closes <= times[1].opens && CacheKept(run, times[0].opens, cache.Contents())
    modifies cache`entries, cache`order
    ensures cache.Valid() && CacheKept(run, times[1].closes, cache.Contents())
    ensures Truthful(run, times[0].opens, times[1].closes, k, req, patience, reply)
    ensures var cached := FoundAfter(old(cache.Contents()), cache.cap, tries[0].others, k);
      && Attempts(run, k, req, tries, times, patience, cached, retried, again, reply)
      && OneRetry(run, k, req, tries, times, patience, cached, retried, again, reply)
    ensures retried ==> FoundAgain(cache.cap, tries[1].others, k, again)
  {
    ghost var cached := FoundAfter(cache.Contents(), cache.cap, tries[0].others, k);
    for attempt := 0 to 2
      invariant attempt <= 1 && cache.Valid() && CacheKept(run, times[attempt].opens, cache.Contents())
      invariant if attempt == 0 then cache.Contents() == old(cache.Contents()) else MC.Find(cache.Contents(), k).None?
      invariant attempt == 1 ==>
        Replies(run, k, req, 0, Basis(cached, tries[0].found), tries[0], times[0], patience, None)
    {
      var r;
      ghost var found;
      r, found := TryWithin(cache, k, req, attempt, tries, patience, run, times, cached);
      KeptLater(run, times[attempt].closes, times[1].closes, cache.Contents());
      if r.Some? {
        return r.value, attempt == 1, found;
      }
      KeptLater(run, times[0].closes, times[1].opens, cache.Contents());
    }
    assert false;
  }

  // One attempt of the two, seen over the whole request.
  method TryWithin(
    cache: Cache, k: ObjKey, req: Request, attempt: nat, tries: seq<Try>, patience: Option<nat>,
    ghost run: seq<Db>, ghost times: seq<Times>, ghost cached: Option<Meta>)
    returns (reply: Option<Reply>, ghost again: Option<Meta>)
    requires cache.Valid() && Run(run) && attempt < |tries| == |times| == 2
    requires Happens(run, k, tries[0], times[0]) && Happens(run, k, tries[1], times[1])
    requires times[0].closes <= times[1].opens && CacheKept(run, times[attempt].opens, cache.Contents())
    requires if attempt == 0 then FoundAfter(cache.Contents(), cache.cap, tries[0].others, k) == cached
      else MC.Find(cache.Contents(), k).None?
           && Replies(run, k, req, 0, Basis(cached, tries[0].found), tries[0], times[0], patience, None)
    modifies cache`entries, cache`order
    ensures cache.Valid() && CacheKept(run, times[attempt].closes, cache.Contents())
    ensures reply.Some? ==> Truthful(run, times[0].opens, times[1].closes, k, req, patience, reply.value)
    ensures reply.Some? ==>
      && Attempts(run, k, req, tries, times, patience, cached, attempt == 1, again, reply.value)
      && OneRetry(run, k, req, tries, times, patience, cached, attempt == 1, again, reply.value)
    ensures attempt == 1 ==> FoundAgain(cache.cap, tries[1].others, k, again)
    ensures reply.None? ==> attempt == 0 && MC.Find(cache.Contents(), k).None?
    ensures reply.None? ==>
      Replies(run, k, req, 0, Basis(cached, tries[0].found), tries[0], times[0], patience, None)
  {
    cache.ContentsKept();
    FoundIs(cache.Contents(), cache.cap, tries[attempt].others, k);
    again := FoundAfter(cache.Contents(), cache.cap, tries[attempt].others, k);
    reply := TryOnce(cache, k, req, attempt, tries[attempt], patience, run, times[attempt]);
    if reply.Some? {
      Concludes(run, k, req, tries, times, patience, cached, attempt == 1, again, reply.value);
    }
  }

  // What each attempt came to; the second made only if the first gave no answer.
  ghost predicate Attempts(
    run: seq<Db>, k: ObjKey, req: Request, tries: seq<Try>, times: seq<Times>, patience: Option<nat>,
    cached: Option<Meta>, retried: bool, again: Option<Meta>, reply: Reply)
    requires |tries| == |times| == 2 && times[0].looks < |run| && times[1].looks < |run|
  {
    && Replies(run, k, req, 0, Basis(cached, tries[0].found), tries[0], times[0], patience,
         if retried then None else Some(reply))
    && (retried ==> Replies(run, k, req, 1, Basis(again, tries[1].found), tries[1], times[1], patience, Some(reply)))
  }

  // An entry found again is one that others published, and the one they
  // published last.
  ghost predicate FoundAgain(cap: nat, ops: seq<CacheOp>, k: ObjKey, again: Option<Meta>) {
    && (again.None? || Publish(k, again.value) in ops)
    && (cap > 0 && ops != [] && ops[|ops| - 1].Publish? && ops[|ops| - 1].key == k ==>
          again == Some(ops[|ops| - 1].meta))
  }

  // The entry that decides.
  ghost function Deciding(s: Db, k: ObjKey, req: Request, cached: Option<Meta>, again: Option<Meta>): Option<Meta> {
    if Retries(s, k, req, cached) then again else cached
  }

  // What the reply is when the first attempt found the entry `cached`.
  ghost predicate OneRetry(
    run: seq<Db>, k: ObjKey, req: Request, tries: seq<Try>, times: seq<Times>, patience: Option<nat>,
    cached: Option<Meta>, retried: bool, again: Option<Meta>, reply: Reply)
    requires |tries| == |times| == 2 && times[0].opens < |run| && times[1].looks < |run|
  {
    var s := run[times[0].opens];
    && NoBody(run[times[1].looks], k, cached, retried, again, reply)
    && (reply.Body? && !reply.ok ==> Passed(patience, reply.chunks))
    && (reply.Failed? ==> retried || patience == Some(0))
    && (retried && times[1].opens < |run| && Calm(run, times[1].opens, times[1].closes, k, tries[1], patience) ==>
          AsFound(run[times[1].opens], k, req, again, reply))
    && (Calm(run, times[0].opens, times[1].closes, k, tries[0], patience)
        && Calm(run, times[0].opens, times[1].closes, k, tries[1], patience) ==>
          AsDecided(s, k, req, cached, retried, again, reply))
  }

  // Served as the live version is, if the entry is current, and only then where
  // all rows are there.
  ghost predicate AsFound(s: Db, k: ObjKey, req: Request, e: Option<Meta>, reply: Reply) {
    && (Current(s, k, e) ==> Expected(s, k, req, reply))
    && (Readable(s, k, req) && !Current(s, k, e) ==> !Expected(s, k, req, reply))
  }

  // An empty range of a version that is not empty is answered by the second
  // attempt only, of the entry it found or else of the version looked up; an
  // empty version is answered as it is.
  ghost predicate NoBody(
    s: Db, k: ObjKey, cached: Option<Meta>, retried: bool, again: Option<Meta>, reply: Reply)
  {
    && (reply.Empty? && reply.meta.size > 0 ==>
          retried && if again.None? then Live(s, k, reply.meta) else reply.meta == again.value)
    && (cached.Some? && cached.value.size == 0 ==> reply.Empty? && reply.meta == cached.value)
  }

  // Served as the live version is, if the entry that decides is current, and
  // only then where all rows are there.
  ghost predicate AsDecided(
    s: Db, k: ObjKey, req: Request, cached: Option<Meta>, retried: bool, again: Option<Meta>, reply: Reply)
  {
    && (Current(s, k, if retried then again else cached) ==> Expected(s, k, req, reply))
    && (Readable(s, k, req) ==>
          && (retried <==> Retries(s, k, req, cached))
          && (Expected(s, k, req, reply) <==> Current(s, k, Deciding(s, k, req, cached, again))))
  }

  lemma Concludes(
    run: seq<Db>, k: ObjKey, req: Request, tries: seq<Try>, times: seq<Times>, patience: Option<nat>,
    cached: Option<Meta>, retried: bool, again: Option<Meta>, reply: Reply)
    requires Run(run) && |tries| == |times| == 2
    requires Happens(run, k, tries[0], times[0]) && Happens(run, k, tries[1], times[1])
    requires times[0].closes <= times[1].opens
    requires Attempts(run, k, req, tries, times, patience, cached, retried, again, reply)
    requires var t := times[if retried then 1 else 0]; Truthful(run, t.opens, t.closes, k, req, patience, reply)
    ensures Truthful(run, times[0].opens, times[1].closes, k, req, patience, reply)
    ensures OneRetry(run, k, req, tries, times, patience, cached, retried, again, reply)
  {
    var low, high := times[0].opens, times[1].closes;
    var t := times[if retried then 1 else 0];
    Widen(run, low, high, t.opens, t.closes, k, req, patience, reply);
    EmptyWays(run, k, req, tries, times, patience, cached, retried, again, reply);
    if retried && Calm(run, times[1].opens, times[1].closes, k, tries[1], patience) {
      Decides(run, times[1].opens, high, k, req, 1, again, tries[1], times[1], patience, Some(reply));
    }
    if Calm(run, low, high, k, tries[0], patience) && Calm(run, low, high, k, tries[1], patience) {
      CalmDecides(run, low, high, k, req, tries, times, patience, cached, retried, again, reply);
    }
  }

  lemma EmptyWays(
    run: seq<Db>, k: ObjKey, req: Request, tries: seq<Try>, times: seq<Times>, patience: Option<nat>,
    cached: Option<Meta>, retried: bool, again: Option<Meta>, reply: Reply)
    requires |tries| == |times| == 2 && times[0].looks < |run| && times[1].looks < |run|
    requires tries[1].found == Lookup(run[times[1].looks].objects, k)
    requires Attempts(run, k, req, tries, times, patience, cached, retried, again, reply)
    ensures NoBody(run[times[1].looks], k, cached, retried, again, reply)
    ensures reply.Body? && !reply.ok ==> Passed(patience, reply.chunks)
    ensures reply.Failed? ==> retried || patience == Some(0)
  {
  }

  lemma CalmDecides(
    run: seq<Db>, low: nat, high: nat, k: ObjKey, req: Request, tries: seq<Try>, times: seq<Times>,
    patience: Option<nat>, cached: Option<Meta>, retried: bool, again: Option<Meta>, reply: Reply)
    requires Run(run) && |tries| == |times| == 2
    requires Happens(run, k, tries[0], times[0]) && Happens(run, k, tries[1], times[1])
    requires low == times[0].opens && times[0].closes <= times[1].opens && high == times[1].closes
    requires Attempts(run, k, req, tries, times, patience, cached, retried, again, reply)
    requires Calm(run, low, high, k, tries[0], patience) && Calm(run, low, high, k, tries[1], patience)
    ensures AsDecided(run[low], k, req, cached, retried, again, reply)
  {
    Decides(run, low, high, k, req, 0, cached, tries[0], times[0], patience, if retried then None else Some(reply));
    if retried {
      Decides(run, low, high, k, req, 1, again, tries[1], times[1], patience, Some(reply));
    }
  }

  // A first attempt that fails before it has sent a chunk is made again, whatever
  // failed it, and if the second is calm its answer is the live version's, unless
  // others published another meanwhile.
  lemma FailureIsRetried(
    run: seq<Db>, k: ObjKey, req: Request, tries: seq<Try>, times: seq<Times>, patience: Option<nat>,
    cached: Option<Meta>, retried: bool, again: Option<Meta>, reply: Reply, m: Meta, start: int, end: int)
    requires Run(run) && |tries| == |times| == 2
    requires Happens(run, k, tries[0], times[0]) && Happens(run, k, tries[1], times[1])
    requires Attempts(run, k, req, tries, times, patience, cached, retried, again, reply)
    requires Basis(cached, tries[0].found) == Some(m) && Bounds(m, req, start, end) && start <= end
    requires Interrupted(m, req, PlanOf(m, start, end), tries[0], patience)
    ensures retried
    ensures Calm(run, times[1].opens, times[1].closes, k, tries[1], patience) ==>
      AsFound(run[times[1].opens], k, req, again, reply)
  {
    if Calm(run, times[1].opens, times[1].closes, k, tries[1], patience) {
      Decides(run, times[1].opens, times[1].closes, k, req, 1, again, tries[1], times[1], patience, Some(reply));
    }
  }

  // What a version that is gone makes of a request.
  ghost function GoneReply(m: Meta, req: Request): Reply {
    var (start, end) := EffRange(m.size, req.first, req.last, req.suffix);
    if start > end then Empty(m, start, end) else Reply.Failed
  }

  // In a quiet request an entry that decides and is not current makes an error,
  // or an empty range of its version.
  lemma StaleAnswers(
    run: seq<Db>, k: ObjKey, req: Request, tries: seq<Try>, times: seq<Times>, patience: Option<nat>,
    cached: Option<Meta>, retried: bool, again: Option<Meta>, reply: Reply)
    requires |tries| == |times| == 2
    requires Happens(run, k, tries[0], times[0]) && Happens(run, k, tries[1], times[1])
    requires times[0].closes <= times[1].opens && Quiet(run, times[0].opens, times[1].closes, k)
    requires Attempts(run, k, req, tries, times, patience, cached, retried, again, reply)
    requires retried <==> Retries(run[times[0].opens], k, req, cached)
    ensures var s := run[times[0].opens]; var e := Deciding(s, k, req, cached, again);
      !Current(s, k, e) ==> reply == GoneReply(e.value, req)
  {
    var low, high := times[0].opens, times[1].closes;
    var e := Deciding(run[low], k, req, cached, again);
    if !Current(run[low], k, e) {
      var i := if retried then 1 else 0;
      var (start, end) := EffRange(e.value.size, req.first, req.last, req.suffix);
      if start <= end {
        GoneThroughout(run, low, high, k, e.value, PlanOf(e.value, start, end), tries[i], times[i]);
      }
    }
  }
}
