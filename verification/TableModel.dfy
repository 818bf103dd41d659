/** What happens to the connection table and its queues, without links, trees and counters: what a step of a run
    does, and what the loops that call handlers do. */
module TableModel {
  import opened Queue
  import opened RbShape
  import opened RbKeys
  import opened Timers

  /** `ngx_connection_t`; `fd` is -1 while the slot is free. */
  class Connection {
    var data: Connection?
    const read: Event
    const write: Event
    var fd: int
    const queue: Link
    var close: bool
    var reusable: bool

    constructor (read: Event, write: Event, queue: Link)
      ensures this.read == read && this.write == write && this.queue == queue && fd == -1 && !reusable
    {
      this.read, this.write, this.queue := read, write, queue;
      data, fd, close, reusable := null, -1, false, false;
    }
  }

  /** What the handler of an event does. */
  datatype Handler = Handler(steps: seq<Step>)

  /** What may happen to the table; `handlers` are the runs of the handlers that the step calls, in the order in
      which they are called; handlers called after them do nothing. */
  datatype Step =
    | Get(s: int, handlers: seq<Handler>)
    | Close(c: Connection)
    | Reusable(c: Connection, reuse: bool)
    | AddTimer(c: Connection, write: bool, timer: Key)
    | DelTimer(c: Connection, write: bool)
    | Post(c: Connection, write: bool, accept: bool)
    | SetData(c: Connection, data: Connection?)
    | Process(accept: bool, handlers: seq<Handler>)
    | ExpireTimers(handlers: seq<Handler>)
    | Tick(now: Key)

  /** The flags of an event; whether it is posted and whether its timer is set the queues and the timers say. */
  datatype Flags = Flags(timedout: bool, cancelable: bool, closed: bool, instance: bool, write: bool)

  /** The table at one moment. The queues are in order, without their heads; `pending` are the nodes of the timers
      in the order in which they expire. The two maps to the objects around a link or a node never change. Where
      timers go that are set while the deadlines are out of order is left open; `places` says it. */
  datatype Table = Table(
    fd: map<Connection, int>,
    data: map<Connection, Connection?>,
    close: map<Connection, bool>,
    free: seq<Connection>,
    reusable: seq<Link>,
    accepts: seq<Link>,
    posts: seq<Link>,
    pending: seq<Node>,
    deadline: KeyMap,
    now: Key,
    flags: map<Event, Flags>,
    connectionOf: map<Link, Connection>,
    timerOf: map<Node, Event>,
    places: seq<nat>)

  function Dropped<T(==)>(s: seq<T>, x: T): seq<T> {
    if s == [] then [] else (if s[0] == x then [] else [s[0]]) + Dropped(s[1..], x)
  }

  /** What is left when `x` has been dropped: all others, in their order. */
  lemma {:induction false} DroppedKeepsOthers<T>(s: seq<T>, x: T)
    ensures forall y :: y in Dropped(s, x) <==> y in s && y != x
  {
    if s != [] {
      DroppedKeepsOthers(s[1..], x);
      assert s == [s[0]] + s[1..];
    }
  }

  lemma {:induction false} DroppedAt<T>(s: seq<T>, k: nat, x: T)
    requires k < |s| && s[k] == x && forall i, j | 0 <= i < j < |s| :: s[i] != s[j]
    ensures Dropped(s, x) == s[..k] + s[k + 1..]
  {
    if k == 0 {
      NothingDropped(s[1..], x);
    } else {
      DroppedAt(s[1..], k - 1, x);
      assert s[..k] == [s[0]] + s[1..][..k - 1];
    }
  }

  lemma {:induction false} NothingDropped<T>(s: seq<T>, x: T)
    requires x !in s
    ensures Dropped(s, x) == s
  {
    if s != [] {
      NothingDropped(s[1..], x);
    }
  }

  // ---------- steps that call no handler ----------

  predicate Open(t: Table, c: Connection) {
    c in t.fd && t.fd[c] != -1
  }

  function First(free: seq<Connection>): Connection? {
    if free == [] then null else free[0]
  }

  function EventOf(c: Connection, write: bool): Event {
    if write then c.write else c.read
  }

  /** The slot and its events are in no queue and have no deadline. */
  function Detached(t: Table, c: Connection): Table {
    t.(reusable := Dropped(t.reusable, c.queue),
       accepts := Dropped(Dropped(t.accepts, c.read.queue), c.write.queue),
       posts := Dropped(Dropped(t.posts, c.read.queue), c.write.queue),
       pending := Dropped(Dropped(t.pending, c.read.timer), c.write.timer),
       deadline := t.deadline - {c.read.timer, c.write.timer},
       flags := Shut(Shut(t.flags, c.read), c.write))
  }

  /** `ngx_close_connection`: that, and then the slot is the first free one. */
  function Closed(t: Table, c: Connection): Table {
    if Open(t, c) then Freed(Detached(t, c), c) else t
  }

  function Freed(t: Table, c: Connection): Table {
    t.(fd := t.fd[c := -1], data := t.data[c := First(t.free)], free := [c] + t.free)
  }

  function Shut(flags: map<Event, Flags>, ev: Event): map<Event, Flags> {
    if ev in flags then flags[ev := flags[ev].(closed := true)] else flags
  }

  /** The slot is taken for the socket `s`; its events are new and have the other instance. */
  function Opened(t: Table, c: Connection, s: int): Table
    requires t.free != []
  {
    t.(fd := t.fd[c := s], data := t.data[c := null], close := t.close[c := false], free := t.free[1..],
       flags := Renewed(t.flags, c))
  }

  function Renewed(flags: map<Event, Flags>, c: Connection): map<Event, Flags> {
    if c.read in flags then
      var instance := !flags[c.read].instance;
      flags[c.read := Flags(false, false, false, instance, false)]
           [c.write := Flags(false, false, false, instance, true)]
    else flags
  }

  function Reused(t: Table, c: Connection, reuse: bool): Table {
    t.(reusable := (if reuse then [c.queue] else []) + Dropped(t.reusable, c.queue))
  }

  function Posted(t: Table, ev: Event, accept: bool): Table {
    if ev.queue in t.accepts || ev.queue in t.posts then t
    else if accept then t.(accepts := t.accepts + [ev.queue])
    else t.(posts := t.posts + [ev.queue])
  }

  function Stopped(t: Table, ev: Event): Table {
    t.(pending := Dropped(t.pending, ev.timer), deadline := t.deadline - {ev.timer})
  }

  /** The time from which on deadlines count as being around `now`: half of the circle has `now` in its middle. */
  function Around(now: Key): Key {
    Minus(now, TWO_TO_THE_63 / 2)
  }

  /** The deadlines are in order, and the new one is within the window as well. */
  ghost predicate Orderly(t: Table, others: seq<Node>, key: Key) {
    Ordered(others, t.deadline, ByTimer, Around(t.now)) && InWindow(ByTimer, Around(t.now), key)
  }

  /** How many of the nodes, which are in order, do not come later than `key`. */
  ghost function NotLater(others: seq<Node>, deadline: KeyMap, key: Key, base: Key): (k: nat)
    ensures k <= |others|
  {
    if others == [] || others[0] !in deadline
       || Rank(ByTimer, base, deadline[others[0]]) > Rank(ByTimer, base, key) then 0
    else 1 + NotLater(others[1..], deadline, key, base)
  }

  /** The event goes behind all that do not come later. */
  ghost function PlaceFor(t: Table, others: seq<Node>, key: Key): (k: nat)
    ensures k <= |others|
  {
    if Orderly(t, others, key) then NotLater(others, t.deadline, key, Around(t.now))
    else if t.places != [] && t.places[0] <= |others| then t.places[0]
    else |others|
  }

  predicate Near(t: Table, ev: Event, key: Key) {
    ev.timer in t.deadline && NgxAbs(Diff(key, t.deadline[ev.timer])) < TIMER_LAZY_DELAY
  }

  /** A deadline near the one asked for stays. */
  ghost function Set(t: Table, ev: Event, timer: Key): Table {
    var key := Plus(t.now, timer);
    if Near(t, ev, key) then t
    else
      var others := Dropped(t.pending, ev.timer);
      var k := PlaceFor(t, others, key);
      t.(pending := others[..k] + [ev.timer] + others[k..], deadline := t.deadline[ev.timer := key],
         places := if Orderly(t, others, key) || t.places == [] then t.places else t.places[1..])
  }

  /** Setting the timer leads from `t` to `t'` and uses the places `used`. */
  ghost predicate SetTo(t: Table, ev: Event, timer: Key, used: seq<nat>, t': Table) {
    forall rest :: Set(t.(places := used + rest), ev, timer) == t'.(places := rest)
  }

  lemma {:induction false} NotLaterIs(a: seq<Node>, b: seq<Node>, deadline: KeyMap, key: Key, base: Key)
    requires NoneAbove(a, key, deadline, ByTimer, base) && AllAbove(b, key, deadline, ByTimer, base)
    ensures NotLater(a + b, deadline, key, base) == |a|
  {
    if a == [] {
      assert a + b == b;
    } else {
      assert (a + b)[1..] == a[1..] + b;
      NotLaterIs(a[1..], b, deadline, key, base);
    }
  }

  lemma OrderedSame(s: seq<Node>, deadline: KeyMap, deadline': KeyMap, base: Key)
    requires Ordered(s, deadline, ByTimer, base)
    requires forall n | n in s && n in deadline :: n in deadline' && deadline'[n] == deadline[n]
    ensures Ordered(s, deadline', ByTimer, base)
  {
  }

  lemma AboveSame(a: seq<Node>, b: seq<Node>, s: seq<Node>, key: Key, deadline: KeyMap, deadline': KeyMap, base: Key)
    requires a + b == s && forall n | n in s && n in deadline :: n in deadline' && deadline'[n] == deadline[n]
    requires NoneAbove(a, key, deadline, ByTimer, base) && AllAbove(b, key, deadline, ByTimer, base)
    ensures NoneAbove(a, key, deadline', ByTimer, base) && AllAbove(b, key, deadline', ByTimer, base)
  {
    assert forall n | n in a :: n in s;
    assert forall n | n in b :: n in s;
  }

  /** A place by the order of the deadlines is the one that `Set` takes; otherwise it is one of the places used. */
  lemma PlaceIs(t: Table, ev: Event, key: Key, others: seq<Node>, k: nat)
    requires others == Dropped(t.pending, ev.timer) && k <= |others|
    requires PlacedByKey(others[..k], ev.timer, others[k..], t.deadline[ev.timer := key], ByTimer, Around(t.now))
    requires Orderly(t, others, key)
    ensures PlaceFor(t, others, key) == k
  {
    hide Around;
    var base := Around(t.now);
    DroppedKeepsOthers(t.pending, ev.timer);
    OrderedSame(others, t.deadline, t.deadline[ev.timer := key], base);
    assert others[..k] + others[k..] == others;
    AboveSame(others[..k], others[k..], others, key, t.deadline[ev.timer := key], t.deadline, base);
    NotLaterIs(others[..k], others[k..], t.deadline, key, base);
  }

  lemma SetLeads(t: Table, ev: Event, timer: Key, others: seq<Node>, k: nat, t': Table)
    requires !Near(t, ev, Plus(t.now, timer)) && others == Dropped(t.pending, ev.timer) && k <= |others|
    requires t' == t.(pending := others[..k] + [ev.timer] + others[k..],
                      deadline := t.deadline[ev.timer := Plus(t.now, timer)])
    requires PlacedByKey(others[..k], ev.timer, others[k..], t'.deadline, ByTimer, Around(t.now))
    ensures SetTo(t, ev, timer, if Orderly(t, others, Plus(t.now, timer)) then [] else [k], t')
  {
    var key := Plus(t.now, timer);
    var used := if Orderly(t, others, key) then [] else [k];
    hide PlacedByKey, Dropped, Around, Plus, Near, PlaceFor, Orderly;
    if Orderly(t, others, key) {
      PlaceIs(t, ev, key, others, k);
    }
    forall rest: seq<nat>
      ensures Set(t.(places := used + rest), ev, timer) == t'.(places := rest)
    {
      assert [] + rest == rest;
      PlaceFrom(t, others, key, k, used, rest);
      NearAnyhow(t, ev, key, used + rest);
    }
  }

  lemma PlaceFrom(t: Table, others: seq<Node>, key: Key, k: nat, used: seq<nat>, rest: seq<nat>)
    requires k <= |others| && used == if Orderly(t, others, key) then [] else [k]
    requires Orderly(t, others, key) ==> PlaceFor(t, others, key) == k
    ensures var t1 := t.(places := used + rest);
            PlaceFor(t1, others, key) == k && (Orderly(t1, others, key) <==> Orderly(t, others, key))
  {
    hide NotLater, Around, Ordered, InWindow;
  }

  lemma NearAnyhow(t: Table, ev: Event, key: Key, places: seq<nat>)
    ensures Near(t.(places := places), ev, key) == Near(t, ev, key)
  {
    hide Diff, NgxAbs;
  }

  lemma NearStays(t: Table, ev: Event, timer: Key)
    requires Near(t, ev, Plus(t.now, timer))
    ensures SetTo(t, ev, timer, [], t)
  {
    assert forall rest: seq<nat> :: [] + rest == rest;
  }

  function Queued(t: Table, accept: bool): seq<Link> {
    if accept then t.accepts else t.posts
  }

  /** The first event leaves the queue. */
  function Dequeued(t: Table, accept: bool): (t': Table)
    requires Queued(t, accept) != []
    ensures |Queued(t', accept)| == |Queued(t, accept)| - 1
  {
    if accept then t.(accepts := t.accepts[1..]) else t.(posts := t.posts[1..])
  }

  /** The first deadline has come. */
  predicate Due(t: Table) {
    && t.pending != [] && t.pending[0] in t.deadline && t.pending[0] in t.timerOf
    && Diff(t.deadline[t.pending[0]], t.now) <= 0
  }

  /** Its event leaves the timers and is marked. */
  function Fired(t: Table): (t': Table)
    requires Due(t)
    ensures |t'.pending| == |t.pending| - 1
  {
    var ev := t.timerOf[t.pending[0]];
    t.(pending := t.pending[1..], deadline := t.deadline - {t.pending[0]},
       flags := Late(t.flags, ev))
  }

  function Late(flags: map<Event, Flags>, ev: Event): map<Event, Flags> {
    if ev in flags then flags[ev := flags[ev].(timedout := true)] else flags
  }

  // ---------- steps that call handlers ----------

  function Rest(handlers: seq<Handler>): seq<Handler> {
    if handlers == [] then [] else handlers[1..]
  }

  /** The next handler is called. */
  ghost function Called(t: Table, handlers: seq<Handler>): Table
    decreases handlers, 0, 0
  {
    if handlers == [] then t else Ran(t, handlers[0].steps)
  }

  ghost function Ran(t: Table, steps: seq<Step>): Table
    decreases steps, 0, 0
  {
    if steps == [] then t else Ran(Did(t, steps[0]), steps[1..])
  }

  /** `ngx_event_process_posted`: each event leaves the queue, and then its handler is called. */
  ghost function Processed(t: Table, accept: bool, handlers: seq<Handler>): Table
    decreases handlers, 1, |Queued(t, accept)|
  {
    if Queued(t, accept) == [] then t
    else Processed(Called(Dequeued(t, accept), handlers), accept, Rest(handlers))
  }

  /** `ngx_event_expire_timers`: each event that is due leaves the timers, and then its handler is called. */
  ghost function Expired(t: Table, handlers: seq<Handler>): Table
    decreases handlers, 1, |t.pending|
  {
    if !Due(t) then t
    else Expired(Called(Fired(t), handlers), Rest(handlers))
  }

  /** How many slots `ngx_drain_connections` asks to close, at most. */
  function DrainCount(reusable: nat): nat {
    var eighth := reusable / 8;
    if eighth > 32 then 32 else if eighth < 1 then 1 else eighth
  }

  /** At least one is drained, at most 32, and otherwise one for every eight reusable slots. */
  lemma OneOfEight(reusable: nat, k: nat)
    ensures k < DrainCount(reusable) <==> k == 0 || (k < 32 && 8 * (k + 1) <= reusable)
  {
  }

  /** `ngx_drain_connections`: the slot that became reusable first is marked, and the handler of its read event is
      called, up to `n` times. */
  ghost function Drained(t: Table, n: nat, handlers: seq<Handler>): Table
    decreases handlers, 1, n
  {
    if n == 0 || t.reusable == [] then t
    else Drained(Called(Marked(t, t.reusable[|t.reusable| - 1]), handlers), n - 1, Rest(handlers))
  }

  /** The slot around the link is marked. */
  function Marked(t: Table, l: Link): Table {
    if l in t.connectionOf then t.(close := t.close[t.connectionOf[l] := true]) else t
  }

  /** `ngx_get_connection`, before a slot is taken. */
  ghost function Ready(t: Table, handlers: seq<Handler>): Table
    decreases handlers, 2, 0
  {
    if t.free == [] then Drained(t, DrainCount(|t.reusable|), handlers) else t
  }

  /** Then the first free slot is taken, if there is one. */
  function Took(t: Table, s: int): Table {
    if t.free == [] then t else Opened(t, t.free[0], s)
  }

  /** One step; a step on a connection that is not open does nothing. */
  ghost function Did(t: Table, step: Step): Table
    decreases step, 0, 0
  {
    match step
    case Get(s, handlers) => if s == -1 then t else Took(Ready(t, handlers), s)
    case Close(c) => Closed(t, c)
    case Reusable(c, reuse) => if Open(t, c) then Reused(t, c, reuse) else t
    case AddTimer(c, write, timer) => if Open(t, c) then Set(t, EventOf(c, write), timer) else t
    case DelTimer(c, write) => if Open(t, c) then Stopped(t, EventOf(c, write)) else t
    case Post(c, write, accept) => if Open(t, c) then Posted(t, EventOf(c, write), accept) else t
    case SetData(c, data) => if Open(t, c) then t.(data := t.data[c := data]) else t
    case Process(accept, handlers) => Processed(t, accept, handlers)
    case ExpireTimers(handlers) => Expired(t, handlers)
    case Tick(now) => t.(now := now)
  }

  // ---------- what that comes to ----------

  /** Handlers that do nothing: the queue is emptied, and that is all. */
  lemma {:induction false} IdleProcess(t: Table, accept: bool)
    ensures Processed(t, accept, []) == if accept then t.(accepts := []) else t.(posts := [])
    decreases |Queued(t, accept)|
  {
    if Queued(t, accept) != [] {
      IdleProcess(Dequeued(t, accept), accept);
    }
  }

  /** The slots that became reusable first are marked, and that is all. */
  lemma {:induction false} IdleDrain(t: Table, n: nat)
    ensures Drained(t, n, []) == t.(close := Drained(t, n, []).close)
    decreases n
  {
    if n > 0 && t.reusable != [] {
      IdleDrain(Marked(t, t.reusable[|t.reusable| - 1]), n - 1);
    }
  }

  /** What is due leaves the timers, and its events are marked. */
  lemma {:induction false} IdleExpire(t: Table)
    ensures var t' := Expired(t, []);
            && !Due(t') && t' == t.(pending := t'.pending, deadline := t'.deadline, flags := t'.flags)
            && |t'.pending| <= |t.pending| && t'.pending == t.pending[|t.pending| - |t'.pending|..]
    decreases |t.pending|
  {
    if Due(t) {
      IdleExpire(Fired(t));
    }
  }

  lemma OneStep(t: Table, step: Step)
    ensures Ran(t, [step]) == Did(t, step)
  {
    assert [step][1..] == [];
    assert Ran(Did(t, step), []) == Did(t, step);
  }

  /** A posted event: its handler runs, although the queue is all that says so. */
  lemma PostedIsHandled(t: Table, accept: bool, c: Connection)
    requires Queued(t, accept) != [] && Open(t, c)
    ensures var t' := Processed(t, accept, [Handler([Close(c)])]); c in t'.fd && t'.fd[c] == -1
  {
    var h, t1 := Handler([Close(c)]), Dequeued(t, accept);
    OneStep(t1, Close(c));
    assert Called(t1, [h]) == Closed(t1, c);
    assert Rest([h]) == [];
    IdleProcess(Closed(t1, c), accept);
  }

  /** So does that of an event that is due. */
  lemma DueIsHandled(t: Table, c: Connection)
    requires Due(t) && Open(t, c)
    ensures var t' := Expired(t, [Handler([Close(c)])]); c in t'.fd && t'.fd[c] == -1
  {
    var h, t1 := Handler([Close(c)]), Fired(t);
    OneStep(t1, Close(c));
    assert Called(t1, [h]) == Closed(t1, c);
    assert Rest([h]) == [];
    IdleExpire(Closed(t1, c));
  }

  lemma FullTableDrains(t: Table, c: Connection)
    requires t.free == [] && t.reusable != []
    requires var l := t.reusable[|t.reusable| - 1]; l in t.connectionOf && t.connectionOf[l] == c
    ensures var ready := Ready(t, [Handler([Close(c)])]);
            ready == Closed(t.(close := t.close[c := true]), c).(close := ready.close)
  {
    hide Closed;
    var h, t1 := Handler([Close(c)]), t.(close := t.close[c := true]);
    var n := DrainCount(|t.reusable|);
    OneStep(t1, Close(c));
    assert Called(t1, [h]) == Closed(t1, c);
    assert Rest([h]) == [];
    IdleDrain(Closed(t1, c), n - 1);
  }

  /** A full table: the slot that became reusable first is asked to close, and if it does it is the one taken. */
  lemma FullTableServes(t: Table, c: Connection, s: int)
    requires t.free == [] && t.reusable != [] && Open(t, c)
    requires var l := t.reusable[|t.reusable| - 1]; l in t.connectionOf && t.connectionOf[l] == c
    ensures var ready := Ready(t, [Handler([Close(c)])]);
            && First(ready.free) == c && Took(ready, s).free == [] && Took(ready, s).fd == t.fd[c := s]
  {
    hide Ready;
    FullTableDrains(t, c);
  }

  /** A full table without reusable slots, or with handlers that do not close any: no slot is taken. */
  lemma FullTableRefuses(t: Table, s: int)
    requires t.free == []
    ensures Took(Ready(t, []), s) == Ready(t, []) && First(Ready(t, []).free) == null
  {
    IdleDrain(t, DrainCount(|t.reusable|));
  }

  lemma {:induction false} DroppedLast(s: seq<Link>, x: Link)
    requires s != [] && s[|s| - 1] != x
    ensures Dropped(s, x) != [] && Dropped(s, x)[|Dropped(s, x)| - 1] == s[|s| - 1]
  {
    if |s| > 1 {
      DroppedLast(s[1..], x);
    }
  }

  /** The slot that is drained next is the one that has been reusable for the longest time. */
  lemma OldestLast(t: Table, c: Connection, reuse: bool)
    requires t.reusable != [] && t.reusable[|t.reusable| - 1] != c.queue
    ensures var s := Reused(t, c, reuse).reusable; s != [] && s[|s| - 1] == t.reusable[|t.reusable| - 1]
  {
    DroppedLast(t.reusable, c.queue);
  }

  /** The event that is handled next is the one that was posted first. */
  lemma OldestFirst(t: Table, ev: Event, accept: bool, queue: bool)
    requires Queued(t, queue) != []
    ensures var s := Queued(Posted(t, ev, accept), queue); s != [] && s[0] == Queued(t, queue)[0]
  {
  }

  // ---------- what the code does, step after step ----------

  /** The step leads from `t` to `t'` and uses the places `used`. */
  ghost predicate DidTo(t: Table, step: Step, used: seq<nat>, t': Table) {
    forall rest :: Did(t.(places := used + rest), step) == t'.(places := rest)
  }

  ghost predicate CalledTo(t: Table, handlers: seq<Handler>, used: seq<nat>, t': Table) {
    forall rest :: Called(t.(places := used + rest), handlers) == t'.(places := rest)
  }

  ghost predicate RanTo(t: Table, steps: seq<Step>, used: seq<nat>, t': Table) {
    forall rest :: Ran(t.(places := used + rest), steps) == t'.(places := rest)
  }

  ghost predicate ProcessedTo(t: Table, accept: bool, handlers: seq<Handler>, used: seq<nat>, t': Table) {
    forall rest :: Processed(t.(places := used + rest), accept, handlers) == t'.(places := rest)
  }

  ghost predicate ExpiredTo(t: Table, handlers: seq<Handler>, used: seq<nat>, t': Table) {
    forall rest :: Expired(t.(places := used + rest), handlers) == t'.(places := rest)
  }

  ghost predicate DrainedTo(t: Table, n: nat, handlers: seq<Handler>, used: seq<nat>, t': Table) {
    forall rest :: Drained(t.(places := used + rest), n, handlers) == t'.(places := rest)
  }

  ghost predicate ReadyTo(t: Table, handlers: seq<Handler>, used: seq<nat>, t': Table) {
    forall rest :: Ready(t.(places := used + rest), handlers) == t'.(places := rest)
  }

  ghost predicate GotTo(t: Table, s: int, handlers: seq<Handler>, used: seq<nat>, t': Table) {
    forall rest :: Took(Ready(t.(places := used + rest), handlers), s) == t'.(places := rest)
  }

  /** The steps from `t0` are those that are left from `t`; `used` are the places used in between. */
  ghost predicate RunsOn(t0: Table, steps0: seq<Step>, used: seq<nat>, t: Table, steps: seq<Step>) {
    forall rest :: Ran(t0.(places := used + rest), steps0) == Ran(t.(places := rest), steps)
  }

  ghost predicate ProcessesOn(t0: Table, accept: bool, handlers0: seq<Handler>, used: seq<nat>, t: Table,
                              handlers: seq<Handler>) {
    forall rest ::
      Processed(t0.(places := used + rest), accept, handlers0) == Processed(t.(places := rest), accept, handlers)
  }

  ghost predicate ExpiresOn(t0: Table, handlers0: seq<Handler>, used: seq<nat>, t: Table, handlers: seq<Handler>) {
    forall rest :: Expired(t0.(places := used + rest), handlers0) == Expired(t.(places := rest), handlers)
  }

  ghost predicate DrainsOn(t0: Table, n0: nat, handlers0: seq<Handler>, used: seq<nat>, t: Table, n: nat,
                           handlers: seq<Handler>) {
    forall rest :: Drained(t0.(places := used + rest), n0, handlers0) == Drained(t.(places := rest), n, handlers)
  }

  lemma Regrouped(a: seq<nat>, b: seq<nat>)
    ensures forall rest: seq<nat> :: (a + b) + rest == a + (b + rest)
  {
  }

  lemma NothingUsed()
    ensures forall rest: seq<nat> :: [] + rest == rest
  {
    forall rest: seq<nat>
      ensures [] + rest == rest
    {
    }
  }

  lemma RunBegins(t: Table, steps: seq<Step>)
    ensures RunsOn(t, steps, [], t, steps)
  {
    NothingUsed();
  }

  lemma RunGoesOn(t0: Table, steps0: seq<Step>, used: seq<nat>, t: Table, steps: seq<Step>, more: seq<nat>, t': Table)
    requires RunsOn(t0, steps0, used, t, steps) && steps != [] && DidTo(t, steps[0], more, t')
    ensures RunsOn(t0, steps0, used + more, t', steps[1..])
  {
    hide Did;
    Regrouped(used, more);
  }

  lemma RunEnds(t0: Table, steps0: seq<Step>, used: seq<nat>, t: Table)
    requires RunsOn(t0, steps0, used, t, [])
    ensures RanTo(t0, steps0, used, t)
  {
  }

  lemma ProcessGoesOn(t0: Table, accept: bool, handlers0: seq<Handler>, used: seq<nat>, t: Table,
                      handlers: seq<Handler>, more: seq<nat>, t': Table)
    requires ProcessesOn(t0, accept, handlers0, used, t, handlers) && Queued(t, accept) != []
    requires CalledTo(Dequeued(t, accept), handlers, more, t')
    ensures ProcessesOn(t0, accept, handlers0, used + more, t', Rest(handlers))
  {
    hide Called;
    Regrouped(used, more);
    forall rest
      ensures Processed(t0.(places := (used + more) + rest), accept, handlers0)
           == Processed(t'.(places := rest), accept, Rest(handlers))
    {
      assert Dequeued(t.(places := more + rest), accept) == Dequeued(t, accept).(places := more + rest);
    }
  }

  lemma ExpireGoesOn(t0: Table, handlers0: seq<Handler>, used: seq<nat>, t: Table, handlers: seq<Handler>,
                     more: seq<nat>, t': Table)
    requires ExpiresOn(t0, handlers0, used, t, handlers) && Due(t) && CalledTo(Fired(t), handlers, more, t')
    ensures ExpiresOn(t0, handlers0, used + more, t', Rest(handlers))
  {
    hide Called;
    Regrouped(used, more);
    forall rest
      ensures Expired(t0.(places := (used + more) + rest), handlers0) == Expired(t'.(places := rest), Rest(handlers))
    {
      assert Fired(t.(places := more + rest)) == Fired(t).(places := more + rest);
    }
  }

  lemma DrainGoesOn(t0: Table, n0: nat, handlers0: seq<Handler>, used: seq<nat>, t: Table, n: nat,
                    handlers: seq<Handler>, more: seq<nat>, t': Table)
    requires DrainsOn(t0, n0, handlers0, used, t, n, handlers) && n > 0 && t.reusable != []
    requires CalledTo(Marked(t, t.reusable[|t.reusable| - 1]), handlers, more, t')
    ensures DrainsOn(t0, n0, handlers0, used + more, t', n - 1, Rest(handlers))
  {
    hide Called, Marked;
    Regrouped(used, more);
    var l := t.reusable[|t.reusable| - 1];
    forall rest
      ensures Drained(t0.(places := (used + more) + rest), n0, handlers0)
           == Drained(t'.(places := rest), n - 1, Rest(handlers))
    {
      MarkedAnyhow(t, l, more + rest);
    }
  }

  lemma DrainBegins(t: Table, n: nat, handlers: seq<Handler>)
    ensures DrainsOn(t, n, handlers, [], t, n, handlers)
  {
    NothingUsed();
  }

  lemma DrainEnds(t0: Table, n0: nat, handlers0: seq<Handler>, used: seq<nat>, t: Table, n: nat, handlers: seq<Handler>)
    requires DrainsOn(t0, n0, handlers0, used, t, n, handlers) && (n == 0 || t.reusable == [])
    ensures DrainedTo(t0, n0, handlers0, used, t)
  {
  }

  lemma ProcessBegins(t: Table, accept: bool, handlers: seq<Handler>)
    ensures ProcessesOn(t, accept, handlers, [], t, handlers)
  {
    NothingUsed();
  }

  lemma ProcessEnds(t0: Table, accept: bool, handlers0: seq<Handler>, used: seq<nat>, t: Table, handlers: seq<Handler>)
    requires ProcessesOn(t0, accept, handlers0, used, t, handlers) && Queued(t, accept) == []
    ensures ProcessedTo(t0, accept, handlers0, used, t)
  {
  }

  lemma ExpireBegins(t: Table, handlers: seq<Handler>)
    ensures ExpiresOn(t, handlers, [], t, handlers)
  {
    NothingUsed();
  }

  lemma ExpireEnds(t0: Table, handlers0: seq<Handler>, used: seq<nat>, t: Table, handlers: seq<Handler>)
    requires ExpiresOn(t0, handlers0, used, t, handlers) && !Due(t)
    ensures ExpiredTo(t0, handlers0, used, t)
  {
  }

  /** A slot is taken at once, or after draining. */
  lemma GetReady(t: Table, handlers: seq<Handler>, used: seq<nat>, m: Table)
    requires if t.free == [] then DrainedTo(t, DrainCount(|t.reusable|), handlers, used, m) else used == [] && m == t
    ensures ReadyTo(t, handlers, used, m)
  {
    NothingUsed();
  }

  lemma GetEnds(t: Table, s: int, handlers: seq<Handler>, used: seq<nat>, m: Table)
    requires ReadyTo(t, handlers, used, m)
    ensures GotTo(t, s, handlers, used, Took(m, s)) && First(m.free) == First(Ready(t.(places := used), handlers).free)
  {
    assert used + [] == used;
    forall rest
      ensures Took(Ready(t.(places := used + rest), handlers), s) == Took(m, s).(places := rest)
    {
      assert Ready(t.(places := used + rest), handlers) == m.(places := rest);
    }
    assert Ready(t.(places := used + []), handlers) == m.(places := []);
  }

  /** The handlers that are left when `i` have been called. */
  function RestFrom(handlers: seq<Handler>, i: nat): seq<Handler> {
    if i <= |handlers| then handlers[i..] else []
  }

  lemma RestIs(handlers: seq<Handler>, i: nat)
    ensures var rest := RestFrom(handlers, i);
            && (rest == [] <==> |handlers| <= i) && (i < |handlers| ==> rest[0] == handlers[i])
            && Rest(rest) == RestFrom(handlers, i + 1) && RestFrom(handlers, 0) == handlers
            && (|handlers| <= i ==> RestFrom(handlers, i + 1) == rest)
  {
  }

  /** A handler that does nothing, or the run of the next one. */
  lemma CallIs(t: Table, handlers: seq<Handler>, used: seq<nat>, t': Table)
    requires if handlers == [] then used == [] && t' == t else RanTo(t, handlers[0].steps, used, t')
    ensures CalledTo(t, handlers, used, t')
  {
    NothingUsed();
  }

  /** The steps that call handlers. */
  lemma GetStep(t: Table, s: int, handlers: seq<Handler>, used: seq<nat>, t': Table)
    requires if s == -1 then used == [] && t' == t else GotTo(t, s, handlers, used, t')
    ensures DidTo(t, Get(s, handlers), used, t')
  {
    NothingUsed();
  }

  lemma ProcessStep(t: Table, accept: bool, handlers: seq<Handler>, used: seq<nat>, t': Table)
    requires ProcessedTo(t, accept, handlers, used, t')
    ensures DidTo(t, Process(accept, handlers), used, t')
  {
  }

  lemma ExpireStep(t: Table, handlers: seq<Handler>, used: seq<nat>, t': Table)
    requires ExpiredTo(t, handlers, used, t')
    ensures DidTo(t, ExpireTimers(handlers), used, t')
  {
  }

  lemma SetStep(t: Table, c: Connection, write: bool, timer: Key, used: seq<nat>, t': Table)
    requires if Open(t, c) then SetTo(t, EventOf(c, write), timer, used, t') else used == [] && t' == t
    ensures DidTo(t, AddTimer(c, write, timer), used, t')
  {
    NothingUsed();
  }

  /** The steps that call no handler and set no timer: they use no places. */
  lemma CloseStep(t: Table, c: Connection, t': Table)
    requires t' == Closed(t, c)
    ensures DidTo(t, Close(c), [], t')
  {
    NothingUsed();
  }

  lemma ReusableStep(t: Table, c: Connection, reuse: bool, t': Table)
    requires t' == if Open(t, c) then Reused(t, c, reuse) else t
    ensures DidTo(t, Reusable(c, reuse), [], t')
  {
    NothingUsed();
  }

  lemma StopStep(t: Table, c: Connection, write: bool, t': Table)
    requires t' == if Open(t, c) then Stopped(t, EventOf(c, write)) else t
    ensures DidTo(t, DelTimer(c, write), [], t')
  {
    NothingUsed();
  }

  lemma PostStep(t: Table, c: Connection, write: bool, accept: bool, t': Table)
    requires t' == if Open(t, c) then Posted(t, EventOf(c, write), accept) else t
    ensures DidTo(t, Post(c, write, accept), [], t')
  {
    hide Posted;
    NothingUsed();
    forall rest: seq<nat>
      ensures Did(t.(places := [] + rest), Post(c, write, accept)) == t'.(places := rest)
    {
      PostedAnyhow(t, EventOf(c, write), accept, rest);
    }
  }

  lemma PostedAnyhow(t: Table, ev: Event, accept: bool, rest: seq<nat>)
    ensures Posted(t.(places := rest), ev, accept) == Posted(t, ev, accept).(places := rest)
  {
    if ev.queue in t.accepts || ev.queue in t.posts {
      assert Posted(t, ev, accept) == t;
    } else if accept {
      assert Posted(t, ev, accept) == t.(accepts := t.accepts + [ev.queue]);
    } else {
      assert Posted(t, ev, accept) == t.(posts := t.posts + [ev.queue]);
    }
  }

  lemma MarkedAnyhow(t: Table, l: Link, rest: seq<nat>)
    ensures Marked(t.(places := rest), l) == Marked(t, l).(places := rest)
  {
  }

  lemma DataStep(t: Table, c: Connection, data: Connection?, t': Table)
    requires t' == if Open(t, c) then t.(data := t.data[c := data]) else t
    ensures DidTo(t, SetData(c, data), [], t')
  {
    NothingUsed();
  }

  lemma TickStep(t: Table, now: Key, t': Table)
    requires t' == t.(now := now)
    ensures DidTo(t, Tick(now), [], t')
  {
    NothingUsed();
  }
}
