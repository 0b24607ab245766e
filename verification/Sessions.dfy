/**
 * The bounded session store: sessions expire by age, and a full store evicts
 * the one whose last access is oldest.
 */
module Sessions {
  import opened Outcomes
  import opened FiniteSets

  datatype Session = Session(username: string, createdAt: int, lastAccess: int)

  type Table = map<string, Session>

  datatype Limits = Limits(maxAge: int, maxSize: int)

  datatype Op =
    | Create(token: string, username: string)
    | Validate(token: string)
    | Delete(token: string)
    | Cleanup

  predicate Expired(s: Session, limits: Limits, now: int) {
    now - s.createdAt > limits.maxAge
  }

  predicate Oldest(t: Table, token: string) {
    token in t && forall u :: u in t ==> t[token].lastAccess <= t[u].lastAccess
  }

  // ---- One operation -----------------------------------------------------------------

  /** A full store gives up an oldest session, if it has any. */
  predicate MadeRoom(t: Table, limits: Limits, u: Table) {
    if |t| >= limits.maxSize && |t| > 0 then exists token :: token in t && Oldest(t, token) && u == t - {token}
    else u == t
  }

  ghost predicate Created(t: Table, limits: Limits, token: string, username: string, now: int, u: Table) {
    exists room :: MadeRoom(t, limits, room) && u == room[token := Session(username, now, now)]
  }

  function Validated(t: Table, limits: Limits, token: string, now: int): Table {
    if token !in t then t
    else if Expired(t[token], limits, now) then t - {token}
    else t[token := t[token].(lastAccess := now)]
  }

  function Cleaned(t: Table, limits: Limits, now: int): Table {
    map token | token in t && !Expired(t[token], limits, now) :: t[token]
  }

  ghost predicate Step(limits: Limits, t: Table, op: Op, now: int, u: Table) {
    match op
    case Create(token, username) => Created(t, limits, token, username, now, u)
    case Validate(token) => u == Validated(t, limits, token, now)
    case Delete(token) => u == t - {token}
    case Cleanup => u == Cleaned(t, limits, now)
  }

  /** The session an operation creates or validates. */
  function Touched(limits: Limits, t: Table, op: Op, now: int): set<string> {
    match op
    case Create(token, _) => {token}
    case Validate(token) => if token in t && !Expired(t[token], limits, now) then {token} else {}
    case _ => {}
  }

  // ---- The bound -------------------------------------------------------------------

  lemma RoomSize(t: Table, limits: Limits, room: Table)
    requires MadeRoom(t, limits, room)
    ensures room.Keys <= t.Keys
    ensures |room| == if |t| >= limits.maxSize && |t| > 0 then |t| - 1 else |t|
  {
    if |t| >= limits.maxSize && |t| > 0 {
      var gone :| gone in t && Oldest(t, gone) && room == t - {gone};
      assert room.Keys == t.Keys - {gone};
      assert |room.Keys| == |room| && |t.Keys| == |t|;
    }
  }

  function Bound(limits: Limits): nat {
    if limits.maxSize >= 1 then limits.maxSize else 1
  }

  lemma CreatedSize(t: Table, limits: Limits, token: string, username: string, now: int, u: Table)
    requires Created(t, limits, token, username, now, u) && |t| <= Bound(limits)
    ensures |u| <= Bound(limits)
  {
    var room :| MadeRoom(t, limits, room) && u == room[token := Session(username, now, now)];
    RoomSize(t, limits, room);
    SubsetSize(u.Keys, room.Keys + {token});
    assert |room.Keys + {token}| <= |room.Keys| + 1;
    assert |room.Keys| == |room| && |u.Keys| == |u|;
  }

  /** Only creation adds a session. */
  lemma UseShrinks(limits: Limits, t: Table, op: Op, now: int, u: Table)
    requires Step(limits, t, op, now, u) && !op.Create?
    ensures u.Keys <= t.Keys && |u| <= |t|
  {
    SubsetSize(u.Keys, t.Keys);
    assert |u.Keys| == |u| && |t.Keys| == |t|;
  }

  // ---- Runs -----------------------------------------------------------------------------

  datatype Event = Event(op: Op, now: int)

  /** The store, the last access of every session ever accessed, and the clock. */
  datatype World = World(table: Table, log: map<string, int>, clock: int)

  function TouchedBy(limits: Limits, w: World, e: Event): set<string> {
    Touched(limits, w.table, e.op, e.now)
  }

  function Logged(log: map<string, int>, touched: set<string>, now: int): map<string, int> {
    map token | token in log.Keys + touched :: if token in touched then now else log[token]
  }

  /** The clock moves strictly forward and no token is issued twice. */
  ghost predicate Happens(limits: Limits, w: World, e: Event, v: World) {
    && Step(limits, w.table, e.op, e.now, v.table)
    && w.clock < e.now == v.clock
    && (e.op.Create? ==> e.op.token !in w.log)
    && v.log == Logged(w.log, TouchedBy(limits, w, e), e.now)
  }

  ghost predicate HappensAt(limits: Limits, ws: seq<World>, es: seq<Event>, k: nat)
    requires k < |es| && |ws| == |es| + 1
  {
    Happens(limits, ws[k], es[k], ws[k + 1])
  }

  /** A run from the empty store. */
  ghost predicate Run(limits: Limits, ws: seq<World>, es: seq<Event>) {
    && |ws| == |es| + 1
    && ws[0].table == map[] && ws[0].log == map[]
    && forall k :: 0 <= k < |es| ==> HappensAt(limits, ws, es, k)
  }

  /** What is stored carries its logged time. */
  ghost predicate Dated(w: World) {
    && w.table.Keys <= w.log.Keys
    && (forall u :: u in w.table ==> w.table[u].lastAccess == w.log[u])
    && (forall u :: u in w.log ==> w.log[u] <= w.clock)
  }

  lemma CreateKeepsDated(limits: Limits, w: World, e: Event, v: World)
    requires Happens(limits, w, e, v) && Dated(w) && e.op.Create?
    ensures Dated(v)
  {
    CreatedHolds(w.table, limits, e.op.token, e.op.username, e.now, v.table);
  }

  /** After a creation the new session is stored, beside sessions that were. */
  lemma CreatedHolds(t: Table, limits: Limits, token: string, username: string, now: int, u: Table)
    requires Created(t, limits, token, username, now, u)
    ensures token in u && u[token] == Session(username, now, now)
    ensures forall x :: x in u && x != token ==> x in t && u[x] == t[x]
  {
    var room :| MadeRoom(t, limits, room) && u == room[token := Session(username, now, now)];
    RoomIsPart(t, limits, room);
  }

  lemma RoomIsPart(t: Table, limits: Limits, room: Table)
    requires MadeRoom(t, limits, room)
    ensures room.Keys <= t.Keys && forall u :: u in room ==> room[u] == t[u]
  {
  }

  /** Everything but creation keeps creation times, and moves the last access of what it touches only. */
  lemma UseMovesLastAccess(limits: Limits, t: Table, op: Op, now: int, u: Table)
    requires Step(limits, t, op, now, u) && !op.Create?
    ensures forall x :: x in u ==>
              && x in t && u[x].createdAt == t[x].createdAt
              && u[x].lastAccess == if x in Touched(limits, t, op, now) then now else t[x].lastAccess
    ensures forall x :: x in t && x !in u ==> op == Delete(x) || Expired(t[x], limits, now)
    ensures Touched(limits, t, op, now) <= u.Keys
  {
  }

  lemma EventKeepsDated(limits: Limits, w: World, e: Event, v: World)
    requires Happens(limits, w, e, v) && Dated(w)
    ensures Dated(v)
  {
    if e.op.Create? {
      CreateKeepsDated(limits, w, e, v);
    } else {
      UseMovesLastAccess(limits, w.table, e.op, e.now, v.table);
    }
  }

  lemma EventKeepsBound(limits: Limits, w: World, e: Event, v: World)
    requires Happens(limits, w, e, v) && |w.table| <= Bound(limits)
    ensures |v.table| <= Bound(limits)
  {
    if e.op.Create? {
      CreatedSize(w.table, limits, e.op.token, e.op.username, e.now, v.table);
    } else {
      UseShrinks(limits, w.table, e.op, e.now, v.table);
    }
  }

  /** In every reachable state the store is within its limit, a limit below one counting as one. */
  lemma {:induction false} RunStaysBounded(limits: Limits, ws: seq<World>, es: seq<Event>, n: nat)
    requires Run(limits, ws, es) && n <= |es|
    ensures |ws[n].table| <= if limits.maxSize >= 1 then limits.maxSize else 1
    ensures Dated(ws[n])
  {
    if n > 0 {
      RunStaysBounded(limits, ws, es, n - 1);
      assert HappensAt(limits, ws, es, n - 1);
      EventKeepsBound(limits, ws[n - 1], es[n - 1], ws[n]);
      EventKeepsDated(limits, ws[n - 1], es[n - 1], ws[n]);
    }
  }

  // ---- A recent session is not evicted ----------------------------------------------

  function Creation(w: World, token: string): Option<int> {
    if token in w.table then Some(w.table[token].createdAt) else None
  }

  /** The sessions accessed at or after a time, but for one. */
  ghost function OthersSince(log: map<string, int>, since: int, token: string): set<string> {
    set u | u in log && since <= log[u] && u != token
  }

  ghost predicate Kept(w: World, token: string, createdAt: int, since: int) {
    token in w.table && w.table[token].createdAt == createdAt && since <= w.table[token].lastAccess
  }

  /** Evicting a session kept since takes a store filled with others accessed since, the new one included. */
  lemma EvictionNeedsOthers(limits: Limits, w: World, e: Event, v: World, token: string, createdAt: int, since: int)
    requires Happens(limits, w, e, v) && Dated(w) && Kept(w, token, createdAt, since) && e.op.Create? && since <= w.clock
    ensures Oldest(w.table, token) ==> |w.table| <= |OthersSince(v.log, since, token)|
  {
    if Oldest(w.table, token) {
      var rest := w.table.Keys - {token};
      forall u | u in rest ensures u in OthersSince(v.log, since, token) {
        assert w.table[token].lastAccess <= w.table[u].lastAccess;
      }
      SubsetSize(rest + {e.op.token}, OthersSince(v.log, since, token));
      assert |rest + {e.op.token}| == |rest| + 1;
      assert |w.table.Keys| == |w.table|;
    }
  }

  lemma CreateKeeps(limits: Limits, w: World, e: Event, v: World, token: string, createdAt: int, since: int)
    requires Happens(limits, w, e, v) && Dated(w) && Kept(w, token, createdAt, since) && e.op.Create?
    requires since <= w.clock && |OthersSince(v.log, since, token)| < limits.maxSize
    ensures Kept(v, token, createdAt, since)
  {
    var s := Session(e.op.username, e.now, e.now);
    var room :| MadeRoom(w.table, limits, room) && v.table == room[e.op.token := s];
    EvictionNeedsOthers(limits, w, e, v, token, createdAt, since);
  }

  lemma EventKeeps(limits: Limits, w: World, e: Event, v: World, token: string, createdAt: int, since: int)
    requires Happens(limits, w, e, v) && Dated(w) && Kept(w, token, createdAt, since)
    requires since <= w.clock && e.now - createdAt <= limits.maxAge && e.op != Delete(token)
    requires |OthersSince(v.log, since, token)| < limits.maxSize
    ensures Kept(v, token, createdAt, since)
  {
    if e.op.Create? {
      CreateKeeps(limits, w, e, v, token, createdAt, since);
    } else {
      UseMovesLastAccess(limits, w.table, e.op, e.now, v.table);
      assert token in v.table;
    }
  }

  /** Sessions accessed since stay accessed since. */
  lemma OthersGrow(limits: Limits, w: World, e: Event, v: World, since: int, token: string)
    requires Happens(limits, w, e, v) && since <= w.clock
    ensures |OthersSince(w.log, since, token)| <= |OthersSince(v.log, since, token)|
  {
    SubsetSize(OthersSince(w.log, since, token), OthersSince(v.log, since, token));
  }

  lemma TouchIsKept(limits: Limits, w: World, e: Event, v: World, token: string)
    requires Happens(limits, w, e, v) && token in TouchedBy(limits, w, e)
    ensures token in v.table && v.table[token].lastAccess == e.now
  {
  }

  lemma {:induction false} ClockRuns(limits: Limits, ws: seq<World>, es: seq<Event>, i: nat, n: nat)
    requires Run(limits, ws, es) && i < n <= |es|
    ensures es[i].now <= ws[n].clock
    decreases n
  {
    assert HappensAt(limits, ws, es, n - 1);
    if i < n - 1 {
      ClockRuns(limits, ws, es, i, n - 1);
    }
  }

  /**
   * A session created or validated by event i is still stored before event n when it
   * has not expired, nobody deleted it, and fewer than maxSize other sessions have
   * been accessed meanwhile.
   */
  lemma {:induction false} RecentSessionIsKept(limits: Limits, ws: seq<World>, es: seq<Event>, token: string, createdAt: int,
                                               i: nat, n: nat)
    requires Run(limits, ws, es) && i < n <= |es|
    requires token in TouchedBy(limits, ws[i], es[i]) && Creation(ws[i + 1], token) == Some(createdAt)
    requires ws[n].clock - createdAt <= limits.maxAge
    requires forall k :: i < k < n ==> es[k].op != Delete(token)
    requires |OthersSince(ws[n].log, es[i].now, token)| < limits.maxSize
    ensures Kept(ws[n], token, createdAt, es[i].now)
    decreases n
  {
    assert HappensAt(limits, ws, es, n - 1);
    if n == i + 1 {
      TouchIsKept(limits, ws[i], es[i], ws[n], token);
    } else {
      ClockRuns(limits, ws, es, i, n - 1);
      OthersGrow(limits, ws[n - 1], es[n - 1], ws[n], es[i].now, token);
      RecentSessionIsKept(limits, ws, es, token, createdAt, i, n - 1);
      RunStaysBounded(limits, ws, es, n - 1);
      EventKeeps(limits, ws[n - 1], es[n - 1], ws[n], token, createdAt, es[i].now);
    }
  }

  /** So the next validation in time succeeds. */
  lemma RecentSessionValidates(limits: Limits, ws: seq<World>, es: seq<Event>, token: string, createdAt: int, i: nat, n: nat, now: int)
    requires Run(limits, ws, es) && i < n <= |es|
    requires token in TouchedBy(limits, ws[i], es[i]) && Creation(ws[i + 1], token) == Some(createdAt)
    requires ws[n].clock <= now && now - createdAt <= limits.maxAge
    requires forall k :: i < k < n ==> es[k].op != Delete(token)
    requires |OthersSince(ws[n].log, es[i].now, token)| < limits.maxSize
    ensures Touched(limits, ws[n].table, Validate(token), now) == {token}
  {
    RecentSessionIsKept(limits, ws, es, token, createdAt, i, n);
  }

  // ---- A session past its age is refused -------------------------------------------

  lemma EventKeepsLog(limits: Limits, w: World, e: Event, v: World)
    requires Happens(limits, w, e, v) && w.table.Keys <= w.log.Keys
    ensures w.log.Keys <= v.log.Keys && (e.op.Create? ==> e.op.token in v.log)
  {
  }

  /** Once a token has been issued, whatever is stored under it was created then, however often it was validated since. */
  lemma {:induction false} CreationTimeStays(limits: Limits, ws: seq<World>, es: seq<Event>, k: nat, n: nat, token: string)
    requires Run(limits, ws, es) && k < n <= |es| && es[k].op.Create? && es[k].op.token == token
    ensures token in ws[n].log
    ensures token in ws[n].table ==> ws[n].table[token].createdAt == es[k].now
    decreases n
  {
    var e := es[n - 1];
    assert HappensAt(limits, ws, es, n - 1);
    RunStaysBounded(limits, ws, es, n - 1);
    EventKeepsLog(limits, ws[n - 1], e, ws[n]);
    if k < n - 1 {
      CreationTimeStays(limits, ws, es, k, n - 1, token);
    }
    if e.op.Create? {
      CreatedHolds(ws[n - 1].table, limits, e.op.token, e.op.username, e.now, ws[n].table);
    } else {
      UseMovesLastAccess(limits, ws[n - 1].table, e.op, e.now, ws[n].table);
    }
  }

  /**
   * In every run a validation accepts a token exactly if it is still stored and no more
   * than maxAge has passed since it was issued. A later one touches nothing, and
   * afterwards the token is not stored.
   */
  lemma ValidatesIffInTime(limits: Limits, ws: seq<World>, es: seq<Event>, k: nat, n: nat, token: string)
    requires Run(limits, ws, es) && k < n < |es| && es[k].op.Create? && es[k].op.token == token && es[n].op == Validate(token)
    ensures TouchedBy(limits, ws[n], es[n]) ==
              if token in ws[n].table && es[n].now - es[k].now <= limits.maxAge then {token} else {}
    ensures es[n].now - es[k].now > limits.maxAge ==> token !in ws[n + 1].table
    ensures es[n].now - es[k].now <= limits.maxAge ==> (token in ws[n + 1].table <==> token in ws[n].table)
  {
    CreationTimeStays(limits, ws, es, k, n, token);
    assert HappensAt(limits, ws, es, n);
  }

  /** In every run a cleanup leaves exactly what was stored and was issued no more than maxAge before. */
  lemma CleanupKeepsIffInTime(limits: Limits, ws: seq<World>, es: seq<Event>, k: nat, n: nat, token: string)
    requires Run(limits, ws, es) && k < n < |es| && es[k].op.Create? && es[k].op.token == token && es[n].op == Cleanup
    ensures token in ws[n + 1].table <==> token in ws[n].table && es[n].now - es[k].now <= limits.maxAge
  {
    CreationTimeStays(limits, ws, es, k, n, token);
    assert HappensAt(limits, ws, es, n);
  }

  // ---- Without removals the store is exactly the most recent sessions ------------

  /** No deletion, and nothing found expired. */
  predicate NothingRemoved(limits: Limits, w: World, e: Event) {
    match e.op
    case Create(_, _) => true
    case Validate(token) => token in w.table ==> !Expired(w.table[token], limits, e.now)
    case Delete(token) => token !in w.table
    case Cleanup => forall token :: token in w.table ==> !Expired(w.table[token], limits, e.now)
  }

  ghost function Newer(log: map<string, int>, token: string): set<string>
    requires token in log
  {
    set u | u in log && log[token] < log[u]
  }

  /** Whatever was accessed no earlier than a stored session is stored. */
  ghost predicate NewestFirst(w: World) {
    forall u, v :: u in w.table && v in w.log && v !in w.table ==> w.log[v] < w.table[u].lastAccess
  }

  /** Nothing was turned away while there was room. */
  ghost predicate FullOrAll(limits: Limits, w: World) {
    |w.table| <= limits.maxSize && (|w.table| < limits.maxSize ==> w.log.Keys <= w.table.Keys)
  }

  lemma CreateKeepsNewest(limits: Limits, w: World, e: Event, v: World)
    requires Dated(w) && NewestFirst(w) && Happens(limits, w, e, v) && e.op.Create? && TimesDiffer(w.table)
    ensures NewestFirst(v)
  {
    var t, s := w.table, Session(e.op.username, e.now, e.now);
    var room :| MadeRoom(t, limits, room) && v.table == room[e.op.token := s];
    RoomIsPart(t, limits, room);
    forall u, x | u in v.table && x in v.log && x !in v.table ensures v.log[x] < v.table[u].lastAccess {
      if u != e.op.token && x in t {
        assert Oldest(t, x);
      }
    }
  }

  /** No two stored sessions were accessed at one time. */
  ghost predicate TimesDiffer(t: Table) {
    forall u, v :: u in t && v in t && t[u].lastAccess == t[v].lastAccess ==> u == v
  }

  lemma EventKeepsTimesApart(limits: Limits, w: World, e: Event, v: World)
    requires Dated(w) && TimesDiffer(w.table) && Happens(limits, w, e, v)
    ensures TimesDiffer(v.table)
  {
    if e.op.Create? {
      CreatedHolds(w.table, limits, e.op.token, e.op.username, e.now, v.table);
    } else {
      UseMovesLastAccess(limits, w.table, e.op, e.now, v.table);
    }
  }

  lemma OneMoreStored(t: Table, token: string, s: Session)
    requires token !in t
    ensures t[token := s].Keys == t.Keys + {token} && |t[token := s]| == |t| + 1
  {
    var u := t[token := s];
    assert u.Keys == t.Keys + {token};
    assert |u.Keys| == |u| && |t.Keys| == |t|;
  }

  lemma CreatedFillsUp(t: Table, limits: Limits, token: string, username: string, now: int, u: Table)
    requires limits.maxSize >= 1 && |t| <= limits.maxSize && token !in t && Created(t, limits, token, username, now, u)
    ensures |u| <= limits.maxSize
    ensures |u| < limits.maxSize ==> |t| < limits.maxSize && u.Keys == t.Keys + {token}
  {
    var room :| MadeRoom(t, limits, room) && u == room[token := Session(username, now, now)];
    RoomSize(t, limits, room);
    OneMoreStored(room, token, Session(username, now, now));
    if |u| < limits.maxSize {
      assert room == t;
    }
  }

  lemma CreateFillsUp(limits: Limits, w: World, e: Event, v: World)
    requires limits.maxSize >= 1 && FullOrAll(limits, w) && Happens(limits, w, e, v) && e.op.Create? && Dated(w)
    ensures FullOrAll(limits, v)
  {
    CreatedFillsUp(w.table, limits, e.op.token, e.op.username, e.now, v.table);
  }

  lemma UseKeepsStored(limits: Limits, t: Table, op: Op, now: int, u: Table)
    requires Step(limits, t, op, now, u) && !op.Create?
    requires forall x :: x in t ==> x in u
    ensures u.Keys == t.Keys && |u| == |t|
  {
    UseMovesLastAccess(limits, t, op, now, u);
    assert u.Keys == t.Keys;
    assert |u.Keys| == |u| && |t.Keys| == |t|;
  }

  lemma UseKeepsKeys(limits: Limits, w: World, e: Event, v: World)
    requires Happens(limits, w, e, v) && !e.op.Create? && NothingRemoved(limits, w, e) && w.table.Keys <= w.log.Keys
    ensures v.table.Keys == w.table.Keys && v.log.Keys == w.log.Keys && |v.table| == |w.table|
    ensures forall x :: x in w.log && x !in w.table ==> v.log[x] == w.log[x]
  {
    UseMovesLastAccess(limits, w.table, e.op, e.now, v.table);
    UseKeepsStored(limits, w.table, e.op, e.now, v.table);
  }

  lemma UseKeepsNewest(limits: Limits, w: World, e: Event, v: World)
    requires Dated(w) && NewestFirst(w) && Happens(limits, w, e, v)
    requires !e.op.Create? && NothingRemoved(limits, w, e)
    ensures NewestFirst(v)
  {
    UseMovesLastAccess(limits, w.table, e.op, e.now, v.table);
    UseKeepsKeys(limits, w, e, v);
    forall u, x | u in v.table && x in v.log && x !in v.table ensures v.log[x] < v.table[u].lastAccess {
      assert u in w.table && x in w.log && x !in w.table;
      assert w.table[u].lastAccess <= v.table[u].lastAccess;
    }
  }

  ghost predicate Recent(limits: Limits, w: World) {
    Dated(w) && NewestFirst(w) && TimesDiffer(w.table) && FullOrAll(limits, w)
  }

  lemma EventKeepsRecent(limits: Limits, w: World, e: Event, v: World)
    requires limits.maxSize >= 1 && Recent(limits, w) && Happens(limits, w, e, v) && NothingRemoved(limits, w, e)
    ensures Recent(limits, v)
  {
    EventKeepsDated(limits, w, e, v);
    EventKeepsTimesApart(limits, w, e, v);
    if e.op.Create? {
      CreateKeepsNewest(limits, w, e, v);
      CreateFillsUp(limits, w, e, v);
    } else {
      UseKeepsNewest(limits, w, e, v);
      UseKeepsKeys(limits, w, e, v);
    }
  }

  lemma {:induction false} RunHoldsNewest(limits: Limits, ws: seq<World>, es: seq<Event>, n: nat)
    requires limits.maxSize >= 1 && Run(limits, ws, es) && n <= |es|
    requires forall k :: 0 <= k < n ==> NothingRemoved(limits, ws[k], es[k])
    ensures Recent(limits, ws[n])
  {
    if n > 0 {
      RunHoldsNewest(limits, ws, es, n - 1);
      assert HappensAt(limits, ws, es, n - 1);
      EventKeepsRecent(limits, ws[n - 1], es[n - 1], ws[n]);
    }
  }

  lemma StoredIffFewNewer(limits: Limits, w: World, token: string)
    requires Dated(w) && NewestFirst(w) && FullOrAll(limits, w) && token in w.log
    ensures token in w.table <==> |Newer(w.log, token)| < limits.maxSize
  {
    var newer := Newer(w.log, token);
    assert |w.table.Keys| == |w.table|;
    if token in w.table {
      forall u | u in newer ensures u in w.table.Keys - {token} {
        assert token in w.table && u in w.log && w.log[token] < w.log[u];
      }
      SubsetSize(newer, w.table.Keys - {token});
    } else {
      SubsetSize(w.table.Keys, newer);
    }
  }

  /** As long as nothing is deleted or expires, a session is stored iff fewer than maxSize others were accessed after it. */
  lemma StoreIsMostRecent(limits: Limits, ws: seq<World>, es: seq<Event>, n: nat, token: string)
    requires limits.maxSize >= 1 && Run(limits, ws, es) && n <= |es|
    requires forall k :: 0 <= k < n ==> NothingRemoved(limits, ws[k], es[k])
    requires token in ws[n].log
    ensures token in ws[n].table <==> |Newer(ws[n].log, token)| < limits.maxSize
  {
    RunHoldsNewest(limits, ws, es, n);
    StoredIffFewNewer(limits, ws[n], token);
  }

  /** The limit is never exceeded exactly when it is at least one: a smaller one still admits a session. */
  lemma LimitHoldsIffPositive(limits: Limits)
    ensures (forall ws: seq<World>, es: seq<Event>, n: nat :: Run(limits, ws, es) && n <= |es| ==> |ws[n].table| <= limits.maxSize)
            <==> limits.maxSize >= 1
  {
    if limits.maxSize >= 1 {
      forall ws: seq<World>, es: seq<Event>, n: nat | Run(limits, ws, es) && n <= |es| ensures |ws[n].table| <= limits.maxSize {
        RunStaysBounded(limits, ws, es, n);
      }
    } else {
      var e := Event(Create("a", "b"), 1);
      var w, v := World(map[], map[], 0), World(map["a" := Session("b", 1, 1)], map["a" := 1], 1);
      assert MadeRoom(w.table, limits, w.table);
      assert Created(w.table, limits, "a", "b", 1, v.table);
      assert HappensAt(limits, [w, v], [e], 0);
      assert Run(limits, [w, v], [e]);
      assert |[w, v][1].table| == 1;
    }
  }

  // ---- The store itself --------------------------------------------------------------

  class SessionStore {
    var sessions: Table
    const limits: Limits

    ghost predicate Valid()
      reads this
    {
      "" !in sessions
    }

    constructor (limits: Limits)
      ensures Valid() && sessions == map[] && this.limits == limits
    {
      this.limits := limits;
      sessions := map[];
    }

    /** The token is the caller's fresh random value. */
    method Create(token: string, username: string, now: int)
      requires Valid() && token != ""
      modifies this
      ensures Valid() && Step(limits, old(sessions), Op.Create(token, username), now, sessions)
      ensures |old(sessions)| < limits.maxSize || old(sessions) == map[] ==>
                sessions == old(sessions)[token := Session(username, now, now)]
      ensures |old(sessions)| >= limits.maxSize && old(sessions) != map[] ==>
                exists gone :: gone in old(sessions)
                  && (forall t :: t in old(sessions) ==> old(sessions)[gone].lastAccess <= old(sessions)[t].lastAccess)
                  && sessions == (old(sessions) - {gone})[token := Session(username, now, now)]
    {
      if |sessions| >= limits.maxSize {
        EvictOldest();
      }
      ghost var room := sessions;
      assert MadeRoom(old(sessions), limits, room);
      sessions := sessions[token := Session(username, now, now)];
    }

    /** Scan every session in some order for the earliest last access. */
    method EvictOldest()
      requires Valid()
      modifies this
      ensures Valid()
      ensures if |old(sessions)| == 0 then sessions == old(sessions)
              else exists gone :: gone in old(sessions) && Oldest(old(sessions), gone) && sessions == old(sessions) - {gone}
    {
      var oldest := "";
      var oldestTime := 0;
      var rest := sessions.Keys;
      while rest != {}
        invariant sessions == old(sessions) && rest <= sessions.Keys
        invariant oldest == "" ==> rest == sessions.Keys
        invariant oldest != "" ==>
                    && oldest in sessions && oldestTime == sessions[oldest].lastAccess
                    && forall u :: u in sessions && u !in rest ==> oldestTime <= sessions[u].lastAccess
        decreases rest
      {
        var token :| token in rest;
        if oldest == "" || sessions[token].lastAccess < oldestTime {
          oldest, oldestTime := token, sessions[token].lastAccess;
        }
        rest := rest - {token};
      }
      if oldest != "" {
        assert Oldest(sessions, oldest);
        sessions := sessions - {oldest};
      } else {
        assert |sessions.Keys| == |sessions|;
      }
    }

    method Validate(token: string, now: int) returns (session: Option<Session>)
      requires Valid()
      modifies this
      ensures Valid() && Step(limits, old(sessions), Op.Validate(token), now, sessions)
      ensures session == if token in Touched(limits, old(sessions), Op.Validate(token), now)
                         then Some(old(sessions)[token].(lastAccess := now)) else None
      ensures session.Some? <==> token in old(sessions) && now - old(sessions)[token].createdAt <= limits.maxAge
      ensures session.Some? ==>
                && session.value == Session(old(sessions)[token].username, old(sessions)[token].createdAt, now)
                && sessions == old(sessions)[token := session.value]
      ensures session.None? ==> sessions == old(sessions) - {token}
    {
      if token !in sessions {
        return None;
      }
      if Expired(sessions[token], limits, now) {
        sessions := sessions - {token};
        return None;
      }
      sessions := sessions[token := sessions[token].(lastAccess := now)];
      return Some(sessions[token]);
    }

    method Delete(token: string)
      requires Valid()
      modifies this
      ensures Valid() && forall now :: Step(limits, old(sessions), Op.Delete(token), now, sessions)
      ensures sessions == old(sessions) - {token}
    {
      sessions := sessions - {token};
    }

    method Cleanup(now: int)
      requires Valid()
      modifies this
      ensures Valid() && Step(limits, old(sessions), Op.Cleanup, now, sessions)
      ensures forall t :: t in sessions <==> t in old(sessions) && now - old(sessions)[t].createdAt <= limits.maxAge
      ensures forall t :: t in sessions ==> sessions[t] == old(sessions)[t]
    {
      ghost var was := sessions;
      var rest := sessions.Keys;
      while rest != {}
        invariant rest <= sessions.Keys
        invariant sessions == map token | token in was && (token in rest || !Expired(was[token], limits, now)) :: was[token]
        decreases rest
      {
        var token :| token in rest;
        if Expired(sessions[token], limits, now) {
          sessions := sessions - {token};
        }
        rest := rest - {token};
      }
      assert sessions == Cleaned(was, limits, now);
    }
  }
}
