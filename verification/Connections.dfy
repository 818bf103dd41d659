/** The connection table of `ngx_connection.c`: every slot is open or free, and what a free slot leaves behind. */
module Connections {
  import opened Queue
  import opened RbShape
  import opened RbKeys
  import opened Timers
  import opened TableModel

  /** The fields `data` of all slots. */
  type Next = map<Connection, Connection?>

  /** The free list, linked through the field `data`. */
  ghost predicate FreeChain(next: Next, head: Connection?, free: seq<Connection>) {
    if free == [] then head == null
    else head == free[0] && free[0] in next && free[0] !in free[1..] && FreeChain(next, next[free[0]], free[1..])
  }

  /** The field of a connection that is not on the list may change. */
  lemma {:induction false} FreeChainKept(next: Next, next': Next, head: Connection?, free: seq<Connection>)
    requires FreeChain(next, head, free)
    requires forall c | c in free && c in next :: c in next' && next'[c] == next[c]
    ensures FreeChain(next', head, free)
  {
    if free != [] {
      FreeChainKept(next, next', next[free[0]], free[1..]);
    }
  }

  /** A queue: its head, and the links behind it. */
  ghost predicate IsQueue(r: seq<Link>, head: Link, members: set<Link>)
    reads head`prev, head`next, members`prev, members`next
  {
    (forall l | l in r :: l == head || l in members) && Ring(r) && r[0] == head
  }

  ghost function PlaceIn(r: seq<Link>, x: Link): (k: nat)
    requires x in r
    ensures k < |r| && r[k] == x
  {
    var k :| 0 <= k < |r| && r[k] == x;
    k
  }

  /** The links of a queue behind its head. */
  ghost function Members(r: seq<Link>): seq<Link> {
    if r == [] then [] else r[1..]
  }

  /** A queue without one of its members, if it has it. */
  ghost function Without(r: seq<Link>, x: Link): seq<Link> {
    if x in r then Removed(r, PlaceIn(r, x)) else r
  }

  lemma WithoutKeepsOthers(r: seq<Link>, x: Link)
    requires NoRepeats(r)
    ensures forall l :: l in Without(r, x) <==> l in r && l != x
  {
    if x in r {
      var k := PlaceIn(r, x);
      forall l | l in r && l != x
        ensures l in Removed(r, k)
      {
        var i := PlaceIn(r, l);
        assert Removed(r, k)[if i < k then i else i - 1] == l;
      }
    }
  }

  /** Among the members, that is dropping the link. */
  lemma MembersWithout(r: seq<Link>, x: Link)
    requires NoRepeats(r) && r != [] && x != r[0]
    ensures Members(Without(r, x)) == Dropped(Members(r), x)
  {
    if x in r {
      var k := PlaceIn(r, x);
      DroppedAt(r[1..], k - 1, x);
      assert Members(Removed(r, k)) == r[1..][..k - 1] + r[1..][k..];
    } else {
      NothingDropped(r[1..], x);
    }
  }

  lemma MoreMembers(r: seq<Link>, x: Link)
    requires r != []
    ensures Members(r + [x]) == Members(r) + [x]
  {
  }

  /** Taking the first member leaves the others. */
  lemma FirstGone(r: seq<Link>, x: Link)
    requires NoRepeats(r) && |r| > 1 && r[1] == x
    ensures Members(r) == [x] + Members(Without(r, x))
  {
    assert PlaceIn(r, x) == 1;
  }

  /** `ngx_queue_remove` of a member. */
  method Unlink(x: Link, ghost r: seq<Link>, ghost head: Link, ghost members: set<Link>)
    requires IsQueue(r, head, members) && x in r && x != head
    modifies r`prev, r`next
    ensures IsQueue(Without(r, x), head, members)
  {
    Remove(x, r, PlaceIn(r, x));
  }

  /** The same, beside another queue. */
  method UnlinkBeside(x: Link, ghost r: seq<Link>, ghost head: Link, ghost s: seq<Link>, ghost head': Link,
                      ghost members: set<Link>)
    requires IsQueue(r, head, members) && IsQueue(s, head', members) && (forall l | l in s :: l !in r)
    requires x in r && x != head
    modifies r`prev, r`next
    ensures IsQueue(Without(r, x), head, members) && IsQueue(s, head', members)
  {
    assert forall i | 0 <= i < |s| :: s[i] !in r;
    Unlink(x, r, head, members);
    assert forall i | 0 <= i < |s| :: s[i].prev == old(s[i].prev) && s[i].next == old(s[i].next);
  }

  /** `ngx_queue_remove` of a member of one of two queues. */
  method UnlinkFromEither(x: Link, ghost r: seq<Link>, ghost head: Link, ghost s: seq<Link>, ghost head': Link,
                          ghost members: set<Link>)
    requires IsQueue(r, head, members) && IsQueue(s, head', members) && (forall l | l in r :: l !in s)
    requires (x in r || x in s) && x != head && x != head'
    modifies head`prev, head`next, head'`prev, head'`next, members`prev, members`next
    ensures IsQueue(Without(r, x), head, members) && IsQueue(Without(s, x), head', members)
  {
    hide Ring;
    ghost var here := x in r;
    UnlinkBeside(x, if here then r else s, if here then head else head', if here then s else r,
                 if here then head' else head, members);
  }

  /** With what that means for the members. */
  method RemoveFromEither(x: Link, ghost r: seq<Link>, ghost head: Link, ghost s: seq<Link>, ghost head': Link,
                          ghost members: set<Link>)
    requires IsQueue(r, head, members) && IsQueue(s, head', members) && (forall l | l in r :: l !in s)
    requires (x in r || x in s) && x != head && x != head'
    modifies head`prev, head`next, head'`prev, head'`next, members`prev, members`next
    ensures IsQueue(Without(r, x), head, members) && IsQueue(Without(s, x), head', members)
    ensures forall l | l in Without(r, x) :: l !in Without(s, x)
    ensures forall l :: l in Without(r, x) || l in Without(s, x) <==> (l in r || l in s) && l != x
  {
    hide Without;
    WithoutFromEither(x, r, s);
    UnlinkFromEither(x, r, head, s, head', members);
  }

  lemma WithoutFromEither(x: Link, r: seq<Link>, s: seq<Link>)
    requires NoRepeats(r) && NoRepeats(s) && forall l | l in r :: l !in s
    ensures forall l | l in Without(r, x) :: l !in Without(s, x)
    ensures forall l :: l in Without(r, x) || l in Without(s, x) <==> (l in r || l in s) && l != x
  {
    WithoutKeepsOthers(r, x);
    WithoutKeepsOthers(s, x);
  }

  /** `ngx_queue_insert_head` of a new member. */
  method LinkFirst(head: Link, x: Link, ghost r: seq<Link>, ghost members: set<Link>)
    requires IsQueue(r, head, members) && x !in r && x in members
    modifies r`prev, r`next, x`prev, x`next
    ensures IsQueue(Inserted(r, 0, x), head, members)
    ensures forall l :: l in Inserted(r, 0, x) <==> l in r || l == x
  {
    InsertAfter(head, x, r, 0);
  }

  /** `ngx_queue_insert_tail` of a new member. */
  method LinkLast(head: Link, x: Link, ghost r: seq<Link>, ghost members: set<Link>)
    requires IsQueue(r, head, members) && x !in r && x in members
    modifies r`prev, r`next, x`prev, x`next
    ensures IsQueue(r + [x], head, members)
  {
    InsertTail(head, x, r);
  }

  /** The same, beside another queue. */
  method LinkLastBeside(head: Link, x: Link, ghost r: seq<Link>, ghost s: seq<Link>, ghost head': Link,
                        ghost members: set<Link>)
    requires IsQueue(r, head, members) && IsQueue(s, head', members) && (forall l | l in r :: l !in s)
    requires x !in r && x !in s && x in members
    modifies head`prev, head`next, members`prev, members`next
    ensures IsQueue(r + [x], head, members) && IsQueue(s, head', members)
  {
    assert forall i | 0 <= i < |s| :: s[i] !in r && s[i] != x;
    LinkLast(head, x, r, members);
    assert forall i | 0 <= i < |s| :: s[i].prev == old(s[i].prev) && s[i].next == old(s[i].next);
  }

  /** `ngx_memzero` of a link that is in neither of two queues. */
  method ClearLink(x: Link, ghost r: seq<Link>, ghost head: Link, ghost s: seq<Link>, ghost head': Link,
                   ghost members: set<Link>)
    requires IsQueue(r, head, members) && IsQueue(s, head', members) && x !in r && x !in s
    modifies x`prev, x`next
    ensures IsQueue(r, head, members) && IsQueue(s, head', members) && x.prev == x.next == null
  {
    x.prev, x.next := null, null;
    assert forall i | 0 <= i < |r| :: r[i].prev == old(r[i].prev) && r[i].next == old(r[i].next);
    assert forall i | 0 <= i < |s| :: s[i].prev == old(s[i].prev) && s[i].next == old(s[i].next);
  }

  /** The first member of a queue, or null. */
  method FirstOf(head: Link, ghost r: seq<Link>, ghost members: set<Link>) returns (q: Link?)
    requires IsQueue(r, head, members)
    ensures if q == null then Members(r) == []
            else Members(r) != [] && q == Members(r)[0] && q in members && q in r && q != head
  {
    if head == head.prev {
      assert |r| == 1;
      return null;
    }
    assert JoinedAt(r, 1);
    return head.next;
  }

  /** The last member of a queue, or null. */
  method LastOf(head: Link, ghost r: seq<Link>, ghost members: set<Link>) returns (q: Link?)
    requires IsQueue(r, head, members)
    ensures if q == null then Members(r) == []
            else Members(r) != [] && q == r[|r| - 1] && q in members && q in r && q != head
  {
    if head == head.prev {
      assert |r| == 1;
      return null;
    }
    return head.prev;
  }

  ghost predicate SlotWired(c: Connection, connectionOf: map<Link, Connection>, slotOf: map<Event, Connection>) {
    && c.queue in connectionOf && connectionOf[c.queue] == c
    && c.read in slotOf && slotOf[c.read] == c && c.write in slotOf && slotOf[c.write] == c
  }

  ghost predicate EventWired(e: Event, timers: Timers, eventOf: map<Link, Event>) {
    timers.Mine(e) && e.queue in eventOf && eventOf[e.queue] == e
  }

  ghost predicate LinkWired(l: Link, slots: set<Connection>, connectionOf: map<Link, Connection>) {
    l in connectionOf && connectionOf[l] in slots && connectionOf[l].queue == l
  }

  ghost predicate EventLinkWired(l: Link, eventOf: map<Link, Event>, slotOf: map<Event, Connection>) {
    l in eventOf && eventOf[l] in slotOf && eventOf[l].queue == l
  }

  /** How the objects belong together; nothing of this ever changes. */
  ghost predicate Wired(slots: set<Connection>, timers: Timers, reusableHead: Link, acceptHead: Link, postedHead: Link,
                        connectionOf: map<Link, Connection>, eventOf: map<Link, Event>,
                        slotOf: map<Event, Connection>) {
    && (forall c {:trigger SlotWired(c, connectionOf, slotOf)} | c in slots :: SlotWired(c, connectionOf, slotOf))
    && (forall e {:trigger EventWired(e, timers, eventOf)} | e in slotOf :: EventWired(e, timers, eventOf))
    && (forall l {:trigger LinkWired(l, slots, connectionOf)} | l in connectionOf :: LinkWired(l, slots, connectionOf))
    && (forall l {:trigger EventLinkWired(l, eventOf, slotOf)} | l in eventOf :: EventLinkWired(l, eventOf, slotOf))
    && {reusableHead, acceptHead, postedHead} !! connectionOf.Keys + eventOf.Keys
    && reusableHead != acceptHead && reusableHead != postedHead && acceptHead != postedHead
    && connectionOf.Keys !! eventOf.Keys
  }

  /** The slots from `i` on are on the free list, in their order, and slot `i - 1` goes before them. */
  lemma FreePrepended(next: Next, next': Next, conns: seq<Connection>, i: nat)
    requires 0 < i <= |conns| && AllDistinct(conns)
    requires FreeChain(next, SlotAt(conns, i), conns[i..]) && conns[i - 1] in next
    requires next' == next[conns[i - 1] := SlotAt(conns, i)]
    ensures FreeChain(next', SlotAt(conns, i - 1), conns[i - 1..])
  {
    var c, rest := conns[i - 1], conns[i..];
    assert conns[i - 1..] == [c] + rest;
    forall d | d in rest
      ensures d != c
    {
      var k :| 0 <= k < |rest| && rest[k] == d;
      assert conns[i + k] == d;
    }
    FreeChainKept(next, next', SlotAt(conns, i), rest);
    assert conns[i - 1..][1..] == rest;
  }

  ghost predicate AllDistinct(conns: seq<Connection>) {
    forall j, k | 0 <= j < k < |conns| :: conns[j] != conns[k]
  }

  lemma NoneFree(next: Next)
    ensures FreeChain(next, null, [])
  {
  }

  ghost function SlotAt(conns: seq<Connection>, i: nat): Connection? {
    if i < |conns| then conns[i] else null
  }

  class Cycle {
    const slots: set<Connection>
    const timers: Timers
    /** The heads of `reusable_connections_queue`, `ngx_posted_accept_events` and `ngx_posted_events`. */
    const reusableHead: Link
    const acceptHead: Link
    const postedHead: Link
    /** Subtracting `offsetof(ngx_connection_t, queue)` and `offsetof(ngx_event_t, queue)`. */
    const connectionOf: map<Link, Connection>
    const eventOf: map<Link, Event>
    /** Whose events they are. */
    ghost const slotOf: map<Event, Connection>

    var freeConnections: Connection?
    var freeConnectionN: int
    var reusableConnectionsN: int

    ghost var free: seq<Connection>
    ghost var reusable: seq<Link>
    ghost var accepts: seq<Link>
    ghost var posts: seq<Link>

    ghost predicate Fixed() {
      Wired(slots, timers, reusableHead, acceptHead, postedHead, connectionOf, eventOf, slotOf)
    }

    ghost function Data(): (next: Next)
      reads slots`data
      ensures next.Keys == slots
    {
      map c | c in slots :: c.data
    }

    ghost predicate FreeOk()
      reads this`freeConnections, this`freeConnectionN, this`free, slots`data
    {
      FreeChain(Data(), freeConnections, free) && freeConnectionN == |free|
    }

    ghost predicate ReusableOk()
      reads this`reusableConnectionsN, this`reusable, reusableHead`prev, reusableHead`next
      reads connectionOf.Keys`prev, connectionOf.Keys`next, slots`reusable
    {
      && IsQueue(reusable, reusableHead, connectionOf.Keys) && reusableConnectionsN == |reusable| - 1
      && forall c | c in slots :: c.reusable <==> c.queue in reusable
    }

    ghost predicate PostedOk()
      reads this`accepts, this`posts, acceptHead`prev, acceptHead`next, postedHead`prev
      reads postedHead`next, eventOf.Keys`prev, eventOf.Keys`next, slotOf.Keys`posted
    {
      && IsQueue(accepts, acceptHead, eventOf.Keys) && IsQueue(posts, postedHead, eventOf.Keys)
      && (forall l | l in accepts :: l !in posts)
      && forall e | e in slotOf :: e.posted <==> e.queue in accepts || e.queue in posts
    }

    /** All links and all nodes that the table's objects embed. */
    ghost function Links(): set<Link> {
      connectionOf.Keys + eventOf.Keys + {reusableHead, acceptHead, postedHead}
    }

    ghost function Nodes(): set<Node> {
      timers.eventOf.Keys + {timers.tree.sentinel}
    }

    /** A slot is free or open. */
    ghost predicate SlotsOk()
      reads this`free, slots`fd
    {
      forall c | c in slots :: c.fd == -1 <==> c in free
    }

    /** The slot and its events are in no queue and no timer tree. */
    ghost predicate Quiet(c: Connection)
      reads c`reusable, c.read`posted, c.read`timerSet, c.write`posted, c.write`timerSet
    {
      !c.reusable && !c.read.posted && !c.read.timerSet && !c.write.posted && !c.write.timerSet
    }

    /** So it is for every free slot. */
    ghost predicate Clean()
      reads slots`fd, slots`reusable, slotOf.Keys`posted, slotOf.Keys`timerSet
    {
      forall c | c in slots :: c.read in slotOf && c.write in slotOf && (c.fd == -1 ==> Quiet(c))
    }

    ghost function Fds(): map<Connection, int>
      reads slots`fd
    {
      map c | c in slots :: c.fd
    }

    ghost function Marks(): map<Connection, bool>
      reads slots`close
    {
      map c | c in slots :: c.close
    }

    /** The keys of the pending nodes. */
    ghost function Deadlines(): KeyMap
      reads timers.tree`repr, timers.tree.repr`key
    {
      timers.tree.Keys() - {timers.tree.sentinel}
    }

    ghost function AllFlags(): map<Event, Flags>
      reads slotOf.Keys`timedout, slotOf.Keys`cancelable, slotOf.Keys`closed, slotOf.Keys`instance, slotOf.Keys`write
    {
      map e | e in slotOf :: Flags(e.timedout, e.cancelable, e.closed, e.instance, e.write)
    }

    /** The table without links, trees and counters. */
    ghost function View(): Table
      reads this`free, this`reusable, this`accepts, this`posts, slots`fd, slots`data, slots`close
      reads slotOf.Keys`timedout, slotOf.Keys`cancelable, slotOf.Keys`closed, slotOf.Keys`instance, slotOf.Keys`write
      reads timers`now, timers.tree`shape, timers.tree`repr, timers.tree.repr`key
    {
      Table(Fds(), Data(), Marks(), free, Members(reusable), Members(accepts), Members(posts),
            timers.tree.Nodes(), Deadlines(), timers.now, AllFlags(), connectionOf, timers.eventOf, [])
    }

    /** The queues and the timers. */
    ghost predicate QueuesOk()
      reads this`reusableConnectionsN, this`reusable, reusableHead`prev, reusableHead`next
      reads connectionOf.Keys`prev, connectionOf.Keys`next, slots`reusable
      reads this`accepts, this`posts, acceptHead`prev, acceptHead`next, postedHead`prev, postedHead`next
      reads eventOf.Keys`prev, eventOf.Keys`next, slotOf.Keys`posted
      reads timers.tree`root, timers.tree`shape, timers.tree`repr, timers.eventOf.Values`timerSet
      reads timers.tree.repr`left, timers.tree.repr`right, timers.tree.repr`parent, timers.tree.repr`red
    {
      Fixed() && ReusableOk() && PostedOk() && timers.Valid()
    }

    ghost predicate Valid()
      reads this, slots`data, slots`fd, slots`reusable, slotOf.Keys`posted, slotOf.Keys`timerSet
      reads reusableHead`prev, reusableHead`next, connectionOf.Keys`prev, connectionOf.Keys`next
      reads acceptHead`prev, acceptHead`next, postedHead`prev, postedHead`next, eventOf.Keys`prev
      reads eventOf.Keys`next
      reads timers.tree`root, timers.tree`shape, timers.tree`repr, timers.eventOf.Values`timerSet
      reads timers.tree.repr`left, timers.tree.repr`right, timers.tree.repr`parent, timers.tree.repr`red
    {
      QueuesOk() && FreeOk() && SlotsOk() && Clean()
    }

    constructor (conns: seq<Connection>, timers: Timers, reusableHead: Link, acceptHead: Link, postedHead: Link,
                 connectionOf: map<Link, Connection>, eventOf: map<Link, Event>, ghost slotOf: map<Event, Connection>)
      ensures slots == (set c | c in conns) && this.timers == timers
      ensures this.reusableHead == reusableHead && this.acceptHead == acceptHead && this.postedHead == postedHead
      ensures this.connectionOf == connectionOf && this.eventOf == eventOf && this.slotOf == slotOf
      ensures reusable == [reusableHead] && accepts == [acceptHead] && posts == [postedHead]
      ensures free == conns && freeConnectionN == |conns| && reusableConnectionsN == 0
    {
      this.slots := set c | c in conns;
      this.timers, this.reusableHead, this.acceptHead, this.postedHead := timers, reusableHead, acceptHead, postedHead;
      this.connectionOf, this.eventOf, this.slotOf := connectionOf, eventOf, slotOf;
      this.reusable, this.accepts, this.posts := [reusableHead], [acceptHead], [postedHead];
      this.free := conns;
      freeConnections, freeConnectionN, reusableConnectionsN := null, |conns|, 0;
    }

    /** Lines 126 to 141 of `ngx_event.c`: all slots become free. */
    method LinkFree(conns: seq<Connection>)
      requires conns != [] && AllDistinct(conns)
      requires slots == (set c | c in conns) && free == conns && freeConnectionN == |conns|
      modifies conns`data, conns`fd, this`freeConnections
      ensures FreeOk() && SlotsOk()
    {
      hide FreeChain;
      freeConnections := LinkAll(conns);
    }

    method LinkAll(conns: seq<Connection>) returns (next: Connection?)
      requires conns != [] && AllDistinct(conns)
      requires slots == (set c | c in conns)
      modifies conns`data, conns`fd
      ensures FreeChain(Data(), next, conns) && forall c | c in slots :: c.fd == -1
    {
      hide FreeChain, AllDistinct;
      var i: nat := |conns|;
      next := null;
      NoneFree(Data());
      assert conns[|conns|..] == [];
      while true
        invariant 0 < i <= |conns| && next == SlotAt(conns, i) && FreeChain(Data(), next, conns[i..])
        invariant forall j {:trigger conns[j].fd} | i <= j < |conns| :: conns[j].fd == -1
        decreases i
      {
        next := LinkSlot(conns[i - 1], next, conns, i);
        i := i - 1;
        if i == 0 {
          break;
        }
      }
      assert conns[0..] == conns;
    }

    /** The body of the loop. */
    method LinkSlot(c: Connection, next: Connection?, ghost conns: seq<Connection>, ghost i: nat)
      returns (next': Connection?)
      requires 0 < i <= |conns| && AllDistinct(conns)
      requires c == conns[i - 1] && c in slots && next == SlotAt(conns, i) && FreeChain(Data(), next, conns[i..])
      modifies c`data, c`fd
      ensures next' == c && c.fd == -1 && FreeChain(Data(), next', conns[i - 1..])
    {
      ghost var before := Data();
      c.data := next;
      c.fd := -1;
      FreePrepended(before, Data(), conns, i);
      return c;
    }

    /** The queues are empty. */
    method InitQueues()
      requires Fixed() && reusable == [reusableHead] && accepts == [acceptHead] && posts == [postedHead]
      requires reusableConnectionsN == 0
      requires (forall c | c in slots :: !c.reusable) && forall e | e in slotOf :: !e.posted
      modifies reusableHead, acceptHead, postedHead
      ensures ReusableOk() && PostedOk()
    {
      Init(reusableHead);
      Init(acceptHead);
      Init(postedHead);
      forall c | c in slots
        ensures c.queue !in reusable
      {
        assert SlotWired(c, connectionOf, slotOf);
      }
      forall e | e in slotOf
        ensures e.queue !in accepts && e.queue !in posts
      {
        assert EventWired(e, timers, eventOf);
      }
    }

    method InitAll()
      requires Fixed() && reusable == [reusableHead] && accepts == [acceptHead] && posts == [postedHead]
      requires reusableConnectionsN == 0
      requires (forall c | c in slots :: !c.reusable) && forall e | e in slotOf :: !e.posted
      requires timers.Valid()
      modifies reusableHead, acceptHead, postedHead
      ensures QueuesOk()
    {
      InitQueues();
      assert timers.Valid();
    }

    /** The table as a worker process starts with it. */
    method Start(conns: seq<Connection>)
      requires conns != [] && AllDistinct(conns)
      requires slots == (set c | c in conns) && free == conns && freeConnectionN == |conns|
      requires Fixed() && reusable == [reusableHead] && accepts == [acceptHead] && posts == [postedHead]
      requires reusableConnectionsN == 0 && (forall c | c in slots :: !c.reusable)
      requires timers.Valid() && forall e | e in slotOf :: !e.posted && !e.timerSet
      modifies conns`data, conns`fd, this`freeConnections, reusableHead, acceptHead, postedHead
      ensures Valid() && free == conns
    {
      hide QueuesOk, FreeOk, SlotsOk, ReusableOk, PostedOk, Timers.Valid;
      InitAll();
      LinkFree(conns);
      AllQuiet();
    }

    lemma AllQuiet()
      requires QueuesOk() && (forall c | c in slots :: !c.reusable)
      requires forall e | e in slotOf :: !e.posted && !e.timerSet
      ensures Clean()
    {
      forall c | c in slots
        ensures c.read in slotOf && c.write in slotOf
      {
        assert SlotWired(c, connectionOf, slotOf);
      }
    }

    /** `ngx_free_connection`, without a table `files` */
    method FreeConnection(c: Connection)
      requires FreeOk() && c in slots && c !in free
      modifies this`freeConnections, this`freeConnectionN, this`free, c`data
      ensures FreeOk() && free == [c] + old(free) && Data() == old(Data())[c := First(old(free))]
    {
      ghost var next := Data();
      c.data := freeConnections;
      freeConnections := c;
      freeConnectionN := freeConnectionN + 1;
      FreeChainKept(next, Data(), c.data, free);
      free := [c] + free;
    }

    /** The first half of `ngx_reusable_connection`. */
    method TakeOutReusable(c: Connection)
      requires ReusableOk() && Fixed() && c in slots
      modifies this`reusable, this`reusableConnectionsN, c`reusable, reusableHead`prev
      modifies reusableHead`next, connectionOf.Keys`prev, connectionOf.Keys`next
      ensures ReusableOk() && !c.reusable && reusable == Without(old(reusable), c.queue)
    {
      assert SlotWired(c, connectionOf, slotOf);
      WithoutKeepsOthers(reusable, c.queue);
      OthersDiffer(c);
      if c.reusable {
        Unlink(c.queue, reusable, reusableHead, connectionOf.Keys);
        reusable := Without(reusable, c.queue);
        reusableConnectionsN := reusableConnectionsN - 1;
      }
      c.reusable := false;
    }

    /** Different slots have different links. */
    lemma OthersDiffer(c: Connection)
      requires Fixed() && c in slots
      ensures forall d | d in slots && d != c :: d.queue != c.queue
    {
      assert SlotWired(c, connectionOf, slotOf);
      forall d | d in slots && d != c
        ensures d.queue != c.queue
      {
        assert SlotWired(d, connectionOf, slotOf);
      }
    }

    /** `ngx_reusable_connection`: the slot leaves the queue, and is its first member again if `reuse` says so. */
    method ReusableConnection(c: Connection, reuse: bool)
      requires ReusableOk() && Fixed() && c in slots
      modifies this`reusable, this`reusableConnectionsN, c`reusable, reusableHead`prev
      modifies reusableHead`next, connectionOf.Keys`prev, connectionOf.Keys`next
      ensures ReusableOk() && c.reusable == reuse
      ensures Members(reusable) == (if reuse then [c.queue] else []) + Members(Without(old(reusable), c.queue))
    {
      TakeOutReusable(c);
      if reuse {
        PutInReusable(c);
      }
    }

    /** The second half of `ngx_reusable_connection`. */
    method PutInReusable(c: Connection)
      requires ReusableOk() && Fixed() && c in slots && !c.reusable
      modifies this`reusable, this`reusableConnectionsN, c`reusable, reusableHead`prev
      modifies reusableHead`next, connectionOf.Keys`prev, connectionOf.Keys`next
      ensures ReusableOk() && c.reusable && Members(reusable) == [c.queue] + Members(old(reusable))
    {
      assert SlotWired(c, connectionOf, slotOf);
      OthersDiffer(c);
      LinkFirst(reusableHead, c.queue, reusable, connectionOf.Keys);
      reusable := Inserted(reusable, 0, c.queue);
      reusableConnectionsN := reusableConnectionsN + 1;
      c.reusable := true;
    }

    /** Different events have different links. */
    lemma OtherEventsDiffer(ev: Event)
      requires Fixed() && ev in slotOf
      ensures ev.queue in eventOf && forall e | e in slotOf && e != ev :: e.queue != ev.queue
    {
      assert EventWired(ev, timers, eventOf);
      forall e | e in slotOf && e != ev
        ensures e.queue != ev.queue
      {
        assert EventWired(e, timers, eventOf);
      }
    }

    method EnqueueAccept(ev: Event)
      requires PostedOk() && Fixed() && ev in slotOf && !ev.posted
      modifies this`accepts, ev`posted, acceptHead`prev, acceptHead`next, eventOf.Keys`prev, eventOf.Keys`next
      ensures PostedOk() && ev.posted && accepts == old(accepts) + [ev.queue]
    {
      OtherEventsDiffer(ev);
      LinkLastBeside(acceptHead, ev.queue, accepts, posts, postedHead, eventOf.Keys);
      accepts := accepts + [ev.queue];
      ev.posted := true;
    }

    method EnqueuePosted(ev: Event)
      requires PostedOk() && Fixed() && ev in slotOf && !ev.posted
      modifies this`posts, ev`posted, postedHead`prev, postedHead`next, eventOf.Keys`prev, eventOf.Keys`next
      ensures PostedOk() && ev.posted && posts == old(posts) + [ev.queue]
    {
      OtherEventsDiffer(ev);
      QueuesDisjoint();
      LinkLastBeside(postedHead, ev.queue, posts, accepts, acceptHead, eventOf.Keys);
      posts := posts + [ev.queue];
      ev.posted := true;
    }

    /** `ngx_post_event`, to the queue of accept events or to that of the others. */
    method PostEvent(ev: Event, accept: bool)
      requires PostedOk() && Fixed() && ev in slotOf
      modifies this`accepts, this`posts, ev`posted, acceptHead`prev, acceptHead`next
      modifies postedHead`prev, postedHead`next, eventOf.Keys`prev, eventOf.Keys`next
      ensures PostedOk() && ev.posted
      ensures accepts == if !old(ev.posted) && accept then old(accepts) + [ev.queue] else old(accepts)
      ensures posts == if !old(ev.posted) && !accept then old(posts) + [ev.queue] else old(posts)
    {
      if !ev.posted {
        if accept {
          EnqueueAccept(ev);
        } else {
          EnqueuePosted(ev);
        }
      }
    }

    lemma QueuesDisjoint()
      requires PostedOk()
      ensures forall l | l in posts :: l !in accepts
    {
    }

    /** `ngx_delete_posted_event` */
    method DeletePostedEvent(ev: Event)
      requires PostedOk() && Fixed() && ev in slotOf && ev.posted
      modifies this`accepts, this`posts, ev`posted, acceptHead`prev, acceptHead`next
      modifies postedHead`prev, postedHead`next, eventOf.Keys`prev, eventOf.Keys`next
      ensures PostedOk() && !ev.posted
      ensures accepts == Without(old(accepts), ev.queue) && posts == Without(old(posts), ev.queue)
    {
      hide IsQueue, Without;
      OtherEventsDiffer(ev);
      RemoveFromEither(ev.queue, accepts, acceptHead, posts, postedHead, eventOf.Keys);
      accepts, posts := Without(accepts, ev.queue), Without(posts, ev.queue);
      ev.posted := false;
    }

    method StopSet(ev: Event)
      requires timers.Valid() && timers.Mine(ev) && ev.timerSet
      modifies timers.tree`root, timers.tree`shape, timers.tree`repr
      modifies timers.tree.repr`left, timers.tree.repr`right, timers.tree.repr`parent, timers.tree.repr`red
      modifies ev.timer`key, ev`timerSet
      ensures timers.Valid() && !ev.timerSet && timers.tree.repr == old(timers.tree.repr) - {ev.timer}
      ensures timers.tree.Nodes() == Dropped(old(timers.tree.Nodes()), ev.timer)
      ensures Deadlines() == old(Deadlines()) - {ev.timer}
    {
      hide Timers.Valid;
      timers.Pending();
      ghost var s := timers.tree.Nodes();
      ghost var k := timers.DelTimer(ev, 0);
      DroppedAt(s, k, ev.timer);
    }

    /** Both timers of a connection are stopped if they are set. */
    method StopTimer(ev: Event)
      requires timers.Valid() && Fixed() && ev in slotOf
      modifies timers.tree`root, timers.tree`shape, timers.tree`repr
      modifies timers.tree.repr`left, timers.tree.repr`right, timers.tree.repr`parent, timers.tree.repr`red
      modifies ev.timer`key, ev`timerSet
      ensures timers.Valid() && !ev.timerSet && timers.tree.repr == old(timers.tree.repr) - {ev.timer}
      ensures timers.tree.Nodes() == Dropped(old(timers.tree.Nodes()), ev.timer)
      ensures Deadlines() == old(Deadlines()) - {ev.timer}
    {
      hide Dropped;
      assert EventWired(ev, timers, eventOf);
      timers.Pending();
      if ev.timerSet {
        StopSet(ev);
      } else {
        NothingDropped(timers.tree.Nodes(), ev.timer);
      }
    }

    method StopTimers(c: Connection)
      requires timers.Valid() && Fixed() && c in slots
      modifies timers.tree`root, timers.tree`shape, timers.tree`repr
      modifies timers.tree.repr`left, timers.tree.repr`right, timers.tree.repr`parent, timers.tree.repr`red
      modifies c.read.timer`key, c.write.timer`key, c.read`timerSet, c.write`timerSet
      ensures timers.Valid() && !c.read.timerSet && !c.write.timerSet
      ensures timers.tree.repr == old(timers.tree.repr) - {c.read.timer, c.write.timer}
      ensures timers.tree.Nodes() == Dropped(Dropped(old(timers.tree.Nodes()), c.read.timer), c.write.timer)
      ensures Deadlines() == old(Deadlines()) - {c.read.timer, c.write.timer}
    {
      hide Timers.Valid, Deadlines, Dropped;
      assert SlotWired(c, connectionOf, slotOf);
      StopTimer(c.read);
      StopTimer(c.write);
    }

    method UnpostEvent(ev: Event)
      requires PostedOk() && Fixed() && ev in slotOf
      modifies this`accepts, this`posts, ev`posted, acceptHead`prev, acceptHead`next
      modifies postedHead`prev, postedHead`next, eventOf.Keys`prev, eventOf.Keys`next
      ensures PostedOk() && !ev.posted
      ensures Members(accepts) == Dropped(Members(old(accepts)), ev.queue)
      ensures Members(posts) == Dropped(Members(old(posts)), ev.queue)
    {
      hide IsQueue;
      PostedMembers(ev);
      if ev.posted {
        DeletePostedEvent(ev);
      }
    }

    method Unpost(c: Connection)
      requires PostedOk() && Fixed() && c in slots
      modifies this`accepts, this`posts, c.read`posted, c.write`posted, acceptHead`prev
      modifies acceptHead`next, postedHead`prev, postedHead`next, eventOf.Keys`prev
      modifies eventOf.Keys`next
      ensures PostedOk() && !c.read.posted && !c.write.posted
      ensures Members(accepts) == Dropped(Dropped(Members(old(accepts)), c.read.queue), c.write.queue)
      ensures Members(posts) == Dropped(Dropped(Members(old(posts)), c.read.queue), c.write.queue)
    {
      assert SlotWired(c, connectionOf, slotOf);
      UnpostEvent(c.read);
      UnpostEvent(c.write);
    }

    method CloseTimers(c: Connection)
      requires QueuesOk() && c in slots
      modifies timers.tree`root, timers.tree`shape, timers.tree`repr
      modifies timers.tree.repr`left, timers.tree.repr`right, timers.tree.repr`parent, timers.tree.repr`red
      modifies c.read.timer`key, c.write.timer`key, c.read`timerSet, c.write`timerSet
      ensures QueuesOk() && !c.read.timerSet && !c.write.timerSet
      ensures timers.tree.Nodes() == Dropped(Dropped(old(timers.tree.Nodes()), c.read.timer), c.write.timer)
      ensures Deadlines() == old(Deadlines()) - {c.read.timer, c.write.timer}
    {
      hide ReusableOk, PostedOk, Deadlines, Dropped, Timers.Valid;
      StopTimers(c);
      assert ReusableOk();
    }

    method ClosePosted(c: Connection)
      requires QueuesOk() && c in slots
      modifies this`accepts, this`posts, c.read`posted, c.write`posted
      modifies acceptHead`prev, acceptHead`next, postedHead`prev, postedHead`next, eventOf.Keys`prev
      modifies eventOf.Keys`next
      ensures QueuesOk() && !c.read.posted && !c.write.posted
      ensures Members(accepts) == Dropped(Dropped(Members(old(accepts)), c.read.queue), c.write.queue)
      ensures Members(posts) == Dropped(Dropped(Members(old(posts)), c.read.queue), c.write.queue)
    {
      hide ReusableOk, PostedOk, Timers.Valid;
      Unpost(c);
      assert timers.Valid();
      assert ReusableOk();
    }

    method SetReusable(c: Connection, reuse: bool)
      requires QueuesOk() && c in slots
      modifies this`reusable, this`reusableConnectionsN, c`reusable
      modifies reusableHead`prev, reusableHead`next, connectionOf.Keys`prev, connectionOf.Keys`next
      ensures QueuesOk() && c.reusable == reuse
      ensures Members(reusable) == (if reuse then [c.queue] else []) + Dropped(Members(old(reusable)), c.queue)
    {
      hide ReusableOk, PostedOk, Timers.Valid;
      ReusableMembers(c);
      ReusableConnection(c, reuse);
      assert timers.Valid();
      assert PostedOk();
    }

    lemma ReusableMembers(c: Connection)
      requires ReusableOk() && Fixed() && c in slots
      ensures Members(Without(reusable, c.queue)) == Dropped(Members(reusable), c.queue)
    {
      assert SlotWired(c, connectionOf, slotOf);
      MembersWithout(reusable, c.queue);
    }

    lemma PostedMembers(ev: Event)
      requires PostedOk() && Fixed() && ev in slotOf
      ensures Members(Without(accepts, ev.queue)) == Dropped(Members(accepts), ev.queue)
      ensures Members(Without(posts, ev.queue)) == Dropped(Members(posts), ev.queue)
      ensures ev.posted <==> ev.queue in Members(accepts) || ev.queue in Members(posts)
    {
      assert EventWired(ev, timers, eventOf);
      MembersWithout(accepts, ev.queue);
      MembersWithout(posts, ev.queue);
      assert accepts == [acceptHead] + Members(accepts) && posts == [postedHead] + Members(posts);
    }

    /** Lines 382 to 414: the events leave the tree and the queues. */
    method DetachEvents(c: Connection)
      requires QueuesOk() && c in slots
      modifies timers.tree`root, timers.tree`shape, timers.tree`repr
      modifies timers.tree.repr`left, timers.tree.repr`right, timers.tree.repr`parent, timers.tree.repr`red
      modifies c.read.timer`key, c.write.timer`key, c.read`timerSet, c.write`timerSet
      modifies this`accepts, this`posts, c.read`posted, c.write`posted
      modifies acceptHead`prev, acceptHead`next, postedHead`prev, postedHead`next, eventOf.Keys`prev
      modifies eventOf.Keys`next
      modifies c.read`closed, c.write`closed
      ensures QueuesOk() && !c.read.timerSet && !c.write.timerSet && !c.read.posted && !c.write.posted
      ensures c.read.closed && c.write.closed
      ensures Members(accepts) == Dropped(Dropped(Members(old(accepts)), c.read.queue), c.write.queue)
      ensures Members(posts) == Dropped(Dropped(Members(old(posts)), c.read.queue), c.write.queue)
      ensures timers.tree.Nodes() == Dropped(Dropped(old(timers.tree.Nodes()), c.read.timer), c.write.timer)
      ensures Deadlines() == old(Deadlines()) - {c.read.timer, c.write.timer}
      ensures AllFlags() == Shut(Shut(old(AllFlags()), c.read), c.write)
    {
      hide QueuesOk, Deadlines, Dropped, AllFlags, Shut;
      CloseTimers(c);
      ClosePosted(c);
      EventsOfSlot(c);
      ShutEvents(c);
    }

    method ShutEvent(ev: Event)
      requires QueuesOk() && ev in slotOf
      modifies ev`closed
      ensures QueuesOk() && ev.closed && AllFlags() == Shut(old(AllFlags()), ev)
    {
      hide QueuesOk;
      ev.closed := true;
    }

    method ShutEvents(c: Connection)
      requires QueuesOk() && c.read in slotOf && c.write in slotOf
      modifies c.read`closed, c.write`closed
      ensures QueuesOk() && c.read.closed && c.write.closed
      ensures AllFlags() == Shut(Shut(old(AllFlags()), c.read), c.write)
    {
      hide QueuesOk, AllFlags, Shut;
      ShutEvent(c.read);
      ShutEvent(c.write);
    }

    /** What `ngx_close_connection` does before it frees the slot. */
    method Detach(c: Connection)
      requires QueuesOk() && c in slots
      modifies timers.tree`root, timers.tree`shape, timers.tree`repr
      modifies timers.tree.repr`left, timers.tree.repr`right, timers.tree.repr`parent, timers.tree.repr`red
      modifies c.read.timer`key, c.write.timer`key, c.read`timerSet, c.write`timerSet
      modifies this`accepts, this`posts, c.read`posted, c.write`posted
      modifies acceptHead`prev, acceptHead`next, postedHead`prev, postedHead`next, eventOf.Keys`prev
      modifies eventOf.Keys`next
      modifies this`reusable, this`reusableConnectionsN, c`reusable
      modifies reusableHead`prev, reusableHead`next, connectionOf.Keys`prev, connectionOf.Keys`next
      modifies c.read`closed, c.write`closed
      ensures QueuesOk() && !c.reusable && Members(reusable) == Dropped(Members(old(reusable)), c.queue)
      ensures !c.read.timerSet && !c.write.timerSet && !c.read.posted && !c.write.posted
      ensures c.read.closed && c.write.closed
      ensures Members(accepts) == Dropped(Dropped(Members(old(accepts)), c.read.queue), c.write.queue)
      ensures Members(posts) == Dropped(Dropped(Members(old(posts)), c.read.queue), c.write.queue)
      ensures timers.tree.Nodes() == Dropped(Dropped(old(timers.tree.Nodes()), c.read.timer), c.write.timer)
      ensures Deadlines() == old(Deadlines()) - {c.read.timer, c.write.timer}
      ensures AllFlags() == Shut(Shut(old(AllFlags()), c.read), c.write)
    {
      hide QueuesOk, Deadlines, Dropped, AllFlags, Shut;
      DetachEvents(c);
      SetReusable(c, false);
    }

    method DetachOpen(c: Connection)
      requires Valid() && c in slots
      modifies timers.tree`root, timers.tree`shape, timers.tree`repr
      modifies timers.tree.repr`left, timers.tree.repr`right, timers.tree.repr`parent, timers.tree.repr`red
      modifies c.read.timer`key, c.write.timer`key, c.read`timerSet, c.write`timerSet
      modifies this`accepts, this`posts, c.read`posted, c.write`posted
      modifies acceptHead`prev, acceptHead`next, postedHead`prev, postedHead`next, eventOf.Keys`prev
      modifies eventOf.Keys`next
      modifies this`reusable, this`reusableConnectionsN, c`reusable
      modifies reusableHead`prev, reusableHead`next, connectionOf.Keys`prev, connectionOf.Keys`next
      modifies c.read`closed, c.write`closed
      ensures Valid() && Quiet(c) && Members(reusable) == Dropped(Members(old(reusable)), c.queue)
      ensures Members(accepts) == Dropped(Dropped(Members(old(accepts)), c.read.queue), c.write.queue)
      ensures Members(posts) == Dropped(Dropped(Members(old(posts)), c.read.queue), c.write.queue)
      ensures timers.tree.Nodes() == Dropped(Dropped(old(timers.tree.Nodes()), c.read.timer), c.write.timer)
      ensures Deadlines() == old(Deadlines()) - {c.read.timer, c.write.timer}
      ensures AllFlags() == Shut(Shut(old(AllFlags()), c.read), c.write)
    {
      hide QueuesOk, FreeOk, SlotsOk, Deadlines, Dropped, AllFlags, Shut;
      Detach(c);
      assert FreeOk() && SlotsOk();
      assert forall d | d in slots :: d.fd == old(d.fd);
      assert forall d | d in slots && old(Quiet(d)) :: Quiet(d);
    }

    method DetachSlot(c: Connection)
      requires Valid() && c in slots
      modifies timers.tree`root, timers.tree`shape, timers.tree`repr
      modifies timers.tree.repr`left, timers.tree.repr`right, timers.tree.repr`parent, timers.tree.repr`red
      modifies c.read.timer`key, c.write.timer`key, c.read`timerSet, c.write`timerSet
      modifies this`accepts, this`posts, c.read`posted, c.write`posted
      modifies acceptHead`prev, acceptHead`next, postedHead`prev, postedHead`next, eventOf.Keys`prev
      modifies eventOf.Keys`next
      modifies this`reusable, this`reusableConnectionsN, c`reusable
      modifies reusableHead`prev, reusableHead`next, connectionOf.Keys`prev, connectionOf.Keys`next
      modifies c.read`closed, c.write`closed
      ensures Valid() && Quiet(c) && c.fd == old(c.fd) && View() == Detached(old(View()), c)
    {
      hide Valid, Quiet, Deadlines, Dropped, AllFlags, Shut, Data, Fds, Marks, Members;
      DetachOpen(c);
      assert Fds() == old(Fds());
      assert Data() == old(Data());
      assert Marks() == old(Marks());
    }

    lemma ClosedIs(t: Table, c: Connection)
      ensures Closed(t, c) == if Open(t, c) then Freed(Detached(t, c), c) else t
    {
    }

    lemma OpenNow(c: Connection)
      ensures Open(View(), c) <==> c in slots && c.fd != -1
    {
    }

    method FreeOpen(c: Connection)
      requires Valid() && Quiet(c) && c in slots && c.fd != -1
      modifies this`freeConnections, this`freeConnectionN, this`free, c`data, c`fd
      ensures Valid() && c.fd == -1 && free == [c] + old(free)
      ensures Data() == old(Data())[c := First(old(free))] && Fds() == old(Fds())[c := -1]
    {
      hide FreeOk, QueuesOk, Clean, Quiet, Data, Fds, First;
      FreeConnection(c);
      SetFd(c, -1);
    }

    method FreeSlot(c: Connection)
      requires Valid() && Quiet(c) && c in slots && c.fd != -1
      modifies this`freeConnections, this`freeConnectionN, this`free, c`data, c`fd
      ensures Valid() && c.fd == -1 && free == [c] + old(free) && View() == Freed(old(View()), c)
    {
      hide Valid, Quiet, Deadlines, AllFlags, Data, Fds, Marks, Members;
      FreeOpen(c);
      assert Marks() == old(Marks());
      assert Deadlines() == old(Deadlines());
      assert AllFlags() == old(AllFlags());
    }

    /** `ngx_close_connection` */
    method CloseConnection(c: Connection)
      requires Valid() && c in slots
      modifies timers.tree`root, timers.tree`shape, timers.tree`repr
      modifies timers.tree.repr`left, timers.tree.repr`right, timers.tree.repr`parent, timers.tree.repr`red
      modifies c.read.timer`key, c.write.timer`key, c.read`timerSet, c.write`timerSet
      modifies this`accepts, this`posts, c.read`posted, c.write`posted
      modifies acceptHead`prev, acceptHead`next, postedHead`prev, postedHead`next, eventOf.Keys`prev
      modifies eventOf.Keys`next
      modifies this`reusable, this`reusableConnectionsN, c`reusable
      modifies reusableHead`prev, reusableHead`next, connectionOf.Keys`prev, connectionOf.Keys`next
      modifies c.read`closed, c.write`closed
      modifies this`freeConnections, this`freeConnectionN, this`free, c`data, c`fd
      ensures Valid() && c.fd == -1
      ensures free == if old(c.fd) == -1 then old(free) else [c] + old(free)
      ensures View() == Closed(old(View()), c)
    {
      hide *;
      OpenNow(c);
      ClosedIs(View(), c);
      if c.fd == -1 {
        return;
      }
      DetachSlot(c);
      FreeSlot(c);
    }

    /** The flags of one event have changed, or those of none. */
    lemma OneFlag(flags: map<Event, Flags>, ev: Event, f: Flags)
      requires flags.Keys == slotOf.Keys && ev in slotOf && AllFlags()[ev] == f
      requires forall e | e in slotOf && e != ev :: AllFlags()[e] == flags[e]
      ensures AllFlags() == flags[ev := f]
    {
    }

    lemma SameFlags(flags: map<Event, Flags>)
      requires flags.Keys == slotOf.Keys && forall e | e in slotOf :: AllFlags()[e] == flags[e]
      ensures AllFlags() == flags
    {
    }

    /** `ngx_memzero` of the flags of an event that is in no queue and no tree. */
    method ClearFlags(ev: Event)
      requires QueuesOk() && ev in slotOf && !ev.posted && !ev.timerSet
      modifies ev`timedout, ev`cancelable, ev`closed, ev`instance, ev`write
      ensures QueuesOk() && !ev.timedout && !ev.closed && !ev.instance && !ev.write && !ev.cancelable
      ensures AllFlags() == old(AllFlags())[ev := Flags(false, false, false, false, false)]
    {
      hide QueuesOk;
      ev.timedout, ev.cancelable, ev.closed, ev.instance, ev.write := false, false, false, false, false;
    }

    /** Of its link. */
    method ClearEventLink(ev: Event)
      requires QueuesOk() && ev in slotOf && !ev.posted && !ev.timerSet
      modifies ev.queue`prev, ev.queue`next
      ensures QueuesOk() && ev.queue.prev == ev.queue.next == null
    {
      assert EventWired(ev, timers, eventOf);
      LinkSets(ev.queue);
      ClearLink(ev.queue, accepts, acceptHead, posts, postedHead, eventOf.Keys);
      assert ReusableOk();
    }

    lemma LinkSets(l: Link)
      requires Fixed() && ReusableOk() && l in eventOf
      ensures l !in connectionOf && l != reusableHead
    {
    }

    /** Of its node. */
    method ClearNode(ev: Event)
      requires QueuesOk() && ev in slotOf && !ev.posted && !ev.timerSet
      modifies ev.timer`key, ev.timer`left, ev.timer`right, ev.timer`parent, ev.timer`red
      ensures QueuesOk() && ev.timer.left == ev.timer.right == ev.timer.parent == null
      ensures ev.timer.key == 0 && !ev.timer.red && Deadlines() == old(Deadlines())
    {
      hide ReusableOk, PostedOk, Wired, Timers.Valid;
      EventOutside(ev);
      ZeroNode(ev.timer);
      assert ReusableOk() && PostedOk();
    }

    method ZeroNode(n: Node)
      requires timers.Valid() && n !in timers.tree.repr
      modifies n`key, n`left, n`right, n`parent, n`red
      ensures timers.Valid() && Deadlines() == old(Deadlines())
      ensures n.left == n.right == n.parent == null && n.key == 0 && !n.red
    {
      hide Deadlines;
      n.key, n.left, n.right, n.parent, n.red := 0, null, null, null, false;
      assert Deadlines() == old(Deadlines());
    }

    lemma EventOutside(ev: Event)
      requires Fixed() && timers.Valid() && ev in slotOf && !ev.timerSet
      ensures ev.timer !in timers.tree.repr
    {
      assert EventWired(ev, timers, eventOf);
    }

    /** Of all of it. */
    method ClearEvent(ev: Event)
      requires QueuesOk() && ev in slotOf && !ev.posted && !ev.timerSet
      modifies ev`timedout, ev`cancelable, ev`closed, ev`instance, ev`write
      modifies ev.queue`prev, ev.queue`next, ev.timer`key, ev.timer`left, ev.timer`right
      modifies ev.timer`parent, ev.timer`red
      ensures QueuesOk() && !ev.timedout && !ev.closed && !ev.instance && !ev.write && !ev.cancelable
      ensures ev.queue.prev == ev.queue.next == null && ev.timer.left == ev.timer.right == ev.timer.parent == null
      ensures ev.timer.key == 0 && !ev.timer.red
      ensures Deadlines() == old(Deadlines())
      ensures AllFlags() == old(AllFlags())[ev := Flags(false, false, false, false, false)]
    {
      hide QueuesOk, Deadlines, AllFlags;
      ClearFlags(ev);
      ClearEventLink(ev);
      ClearNode(ev);
    }

    /** `ngx_memzero` of the link of a connection that is in no queue. */
    method ClearConnectionLink(c: Connection)
      requires QueuesOk() && c in slots && Quiet(c)
      modifies c.queue`prev, c.queue`next
      ensures QueuesOk() && c.queue.prev == c.queue.next == null
    {
      assert SlotWired(c, connectionOf, slotOf);
      assert c.queue !in reusable;
      ClearLink(c.queue, reusable, reusableHead, reusable, reusableHead, connectionOf.Keys);
      assert PostedOk();
    }

    /** The first slot of the free list leaves it. */
    method PopFree() returns (c: Connection)
      requires FreeOk() && freeConnections != null
      modifies this`freeConnections, this`freeConnectionN, this`free
      ensures FreeOk() && old(free) == [c] + free && c !in free && c in slots
    {
      c := freeConnections;
      freeConnections := c.data;
      freeConnectionN := freeConnectionN - 1;
      free := free[1..];
    }

    /** The fields of the slot that matter here: zero, and then `fd`. */
    method OpenSlot(c: Connection, s: int)
      requires QueuesOk() && FreeOk() && Clean() && c in slots && c !in free && Quiet(c) && s != -1
      requires forall d | d in slots && d != c :: d.fd == -1 <==> d in free
      modifies c`data, c`fd, c`close
      ensures Valid() && c.fd == s && !c.close && c.data == null
      ensures Fds() == old(Fds())[c := s] && Data() == old(Data())[c := null] && Marks() == old(Marks())[c := false]
    {
      hide QueuesOk, FreeOk, SlotsOk, Clean, Quiet, Fds, Data, Marks;
      ZeroSlot(c);
      SetFd(c, s);
    }

    method SetFd(c: Connection, s: int)
      requires Clean() && c in slots && Quiet(c) && (s == -1 <==> c in free)
      requires forall d | d in slots && d != c :: d.fd == -1 <==> d in free
      modifies c`fd
      ensures SlotsOk() && Clean() && c.fd == s && Fds() == old(Fds())[c := s]
    {
      c.fd := s;
    }

    method ZeroSlot(c: Connection)
      requires FreeOk() && c in slots && c !in free
      modifies c`data, c`close
      ensures FreeOk() && !c.close && c.data == null
      ensures Data() == old(Data())[c := null] && Marks() == old(Marks())[c := false]
    {
      ghost var next := Data();
      c.data, c.close := null, false;
      FreeChainKept(next, Data(), freeConnections, free);
    }

    /** `ngx_memzero` of both events, whose `instance` then is the opposite of what that of the read event was. */
    method RenewEvents(c: Connection)
      requires QueuesOk() && c in slots && Quiet(c)
      modifies c.read`timedout, c.read`cancelable, c.read`closed, c.read`instance, c.read`write
      modifies c.write`timedout, c.write`cancelable, c.write`closed, c.write`instance, c.write`write
      modifies c.read.queue`prev, c.read.queue`next, c.write.queue`prev, c.write.queue`next
      modifies c.read.timer`key, c.read.timer`left, c.read.timer`right, c.read.timer`parent, c.read.timer`red
      modifies c.write.timer`key, c.write.timer`left, c.write.timer`right, c.write.timer`parent
      modifies c.write.timer`red
      ensures QueuesOk() && c.read.instance == c.write.instance == !old(c.read.instance) && c.write.write
      ensures !c.read.closed && !c.write.closed && !c.read.timedout && !c.write.timedout
      ensures Deadlines() == old(Deadlines()) && AllFlags() == Renewed(old(AllFlags()), c)
    {
      hide QueuesOk, Deadlines, AllFlags;
      EventsOfSlot(c);
      var instance := c.read.instance;
      FlagsOf(c.read);
      ClearEvent(c.read);
      ClearEvent(c.write);
      SetInstance(c, instance);
    }

    method SetEvent(ev: Event, instance: bool)
      requires QueuesOk() && ev in slotOf
      modifies ev`instance
      ensures QueuesOk() && ev.instance == instance
      ensures ev in old(AllFlags()) && AllFlags() == old(AllFlags())[ev := old(AllFlags())[ev].(instance := instance)]
    {
      hide QueuesOk;
      ev.instance := instance;
    }

    method SetWrite(ev: Event)
      requires QueuesOk() && ev in slotOf
      modifies ev`write
      ensures QueuesOk() && ev.write
      ensures ev in old(AllFlags()) && AllFlags() == old(AllFlags())[ev := old(AllFlags())[ev].(write := true)]
    {
      hide QueuesOk;
      ev.write := true;
      OneFlag(old(AllFlags()), ev, old(AllFlags())[ev].(write := true));
    }

    /** The three assignments behind that. */
    method SetInstance(c: Connection, instance: bool)
      requires QueuesOk() && c.read in slotOf && c.write in slotOf
      modifies c.read`instance, c.write`instance, c.write`write
      ensures QueuesOk() && c.read.instance == c.write.instance == !instance && c.write.write
      ensures var flags := old(AllFlags());
              && c.read in flags && c.write in flags
              && AllFlags() == flags[c.read := flags[c.read].(instance := !instance)]
                                    [c.write := flags[c.write].(instance := !instance, write := true)]
    {
      hide QueuesOk, AllFlags;
      FlagsOf(c.read);
      FlagsOf(c.write);
      SetEvent(c.read, !instance);
      SetEvent(c.write, !instance);
      SetWrite(c.write);
    }

    lemma FlagsOf(ev: Event)
      requires ev in slotOf
      ensures ev in AllFlags() && AllFlags()[ev].instance == ev.instance
    {
    }

    lemma EventsOfSlot(c: Connection)
      requires QueuesOk() && c in slots
      ensures c.read in slotOf && c.write in slotOf
    {
      assert SlotWired(c, connectionOf, slotOf);
    }

    /** What belongs to a slot. */
    lemma Owned(c: Connection)
      requires QueuesOk() && c in slots
      ensures c.queue in Links() && c.read in slotOf && c.write in slotOf
      ensures c.read.queue in Links() && c.write.queue in Links() && c.read.timer in Nodes() && c.write.timer in Nodes()
      ensures timers.tree.repr <= Nodes() && timers.Mine(c.read) && timers.Mine(c.write)
    {
      assert SlotWired(c, connectionOf, slotOf);
      assert EventWired(c.read, timers, eventOf) && EventWired(c.write, timers, eventOf);
    }

    method PopRenewed() returns (c: Connection)
      requires Valid() && freeConnections != null
      modifies this`freeConnections, this`freeConnectionN, this`free, slotOf.Keys, Links(), Nodes()
      ensures QueuesOk() && FreeOk() && Clean() && c in slots && c !in free && Quiet(c)
      ensures old(free) == [c] + free && forall d | d in slots && d != c :: d.fd == -1 <==> d in free
      ensures c.read.instance == c.write.instance == !old(c.read.instance) && c.write.write
      ensures !c.read.closed && !c.write.closed && !c.read.timedout && !c.write.timedout
      ensures Deadlines() == old(Deadlines()) && AllFlags() == Renewed(old(AllFlags()), c)
    {
      hide QueuesOk, FreeOk, Clean, Quiet, Links, Nodes, Deadlines, AllFlags, Renewed;
      c := PopFree();
      FreeIsQuiet(c);
      RenewSlot(c);
    }

    method TakeFirst(s: int) returns (c: Connection)
      requires Valid() && freeConnections != null && s != -1
      modifies this`freeConnections, this`freeConnectionN, this`free, slots, slotOf.Keys, Links(), Nodes()
      ensures Valid() && old(free) == [c] + free && c in slots && c.fd == s
      ensures !c.close && c.data == null
      ensures c.read.instance == c.write.instance == !old(c.read.instance) && c.write.write
      ensures !c.read.closed && !c.write.closed && !c.read.timedout && !c.write.timedout
      ensures Fds() == old(Fds())[c := s] && Data() == old(Data())[c := null] && Marks() == old(Marks())[c := false]
      ensures Deadlines() == old(Deadlines()) && AllFlags() == Renewed(old(AllFlags()), c)
    {
      hide Valid, SlotsOk, QueuesOk, FreeOk, Clean, Quiet, Links, Nodes, Fds, Data, Marks, Deadlines, AllFlags, Renewed;
      c := PopRenewed();
      assert Fds() == old(Fds()) && Data() == old(Data()) && Marks() == old(Marks());
      OpenSlot(c, s);
    }

    /** The part of `ngx_get_connection` behind the test for NULL. */
    method TakeSlot(s: int) returns (c: Connection)
      requires Valid() && freeConnections != null && s != -1
      modifies this`freeConnections, this`freeConnectionN, this`free, slots, slotOf.Keys, Links(), Nodes()
      ensures Valid() && old(free) == [c] + free && c in slots && c.fd == s
      ensures !c.close && c.data == null
      ensures c.read.instance == c.write.instance == !old(c.read.instance) && c.write.write
      ensures !c.read.closed && !c.write.closed && !c.read.timedout && !c.write.timedout
      ensures View() == Opened(old(View()), c, s)
    {
      hide Valid, Links, Nodes, Fds, Data, Marks, Deadlines, AllFlags, Renewed, Members;
      c := TakeFirst(s);
    }

    lemma FreeIsQuiet(c: Connection)
      requires Clean() && c in slots && c.fd == -1
      ensures Quiet(c)
    {
    }

    lemma LinksDiffer(c: Connection)
      requires QueuesOk() && c in slots
      ensures c.queue != c.read.queue && c.queue != c.write.queue
    {
      assert SlotWired(c, connectionOf, slotOf);
      assert EventWired(c.read, timers, eventOf) && EventWired(c.write, timers, eventOf);
    }

    /** `ngx_memzero` of the slot's link and of its events. */
    method RenewSlot(c: Connection)
      requires QueuesOk() && FreeOk() && Clean() && c in slots && Quiet(c)
      modifies slotOf.Keys, Links(), Nodes()
      ensures QueuesOk() && FreeOk() && Clean() && Quiet(c)
      ensures c.read.instance == c.write.instance == !old(c.read.instance) && c.write.write
      ensures !c.read.closed && !c.write.closed && !c.read.timedout && !c.write.timedout
      ensures c.queue.prev == c.queue.next == null
      ensures Deadlines() == old(Deadlines()) && AllFlags() == Renewed(old(AllFlags()), c)
    {
      hide *;
      Owned(c);
      LinksDiffer(c);
      ClearConnectionLink(c);
      RenewEvents(c);
    }

    // ---------- what handlers may do ----------

    /** `ngx_reusable_connection` of an open connection. */
    method ReuseOpen(c: Connection, reuse: bool)
      requires Valid() && c in slots && c.fd != -1
      modifies this`reusable, this`reusableConnectionsN, c`reusable
      modifies reusableHead`prev, reusableHead`next, connectionOf.Keys`prev, connectionOf.Keys`next
      ensures Valid()
      ensures Members(reusable) == (if reuse then [c.queue] else []) + Dropped(Members(old(reusable)), c.queue)
    {
      hide QueuesOk, FreeOk, SlotsOk, Dropped, Members;
      SetReusable(c, reuse);
      assert FreeOk() && SlotsOk();
    }

    method TakeReusableStep(c: Connection, reuse: bool)
      requires Valid() && c in slots && c.fd != -1
      modifies this, slots, slotOf.Keys, Links(), Nodes(), timers.tree
      ensures Valid() && View() == Reused(old(View()), c, reuse)
    {
      hide Valid, Dropped, Members, Links, Nodes, Fds, Data, Marks, Deadlines, AllFlags;
      LinksOfTable();
      ReuseOpen(c, reuse);
      assert Fds() == old(Fds()) && Data() == old(Data()) && Marks() == old(Marks());
      assert Deadlines() == old(Deadlines()) && AllFlags() == old(AllFlags());
    }

    lemma LinksOfTable()
      ensures connectionOf.Keys <= Links() && eventOf.Keys <= Links()
      ensures {reusableHead, acceptHead, postedHead} <= Links()
    {
    }

    /** `ngx_event_add_timer` of an event of an open connection. */
    method SetOpen(c: Connection, ev: Event, timer: Key)
      returns (ghost near: bool, ghost k: nat, ghost others: seq<Node>)
      requires Valid() && c in slots && c.fd != -1 && (ev == c.read || ev == c.write)
      modifies slotOf.Keys`timerSet, Nodes()`left, Nodes()`right, Nodes()`parent, Nodes()`red, Nodes()`key
      modifies timers.tree`root, timers.tree`shape, timers.tree`repr
      ensures Valid() && ev.timerSet
      ensures Placed(old(timers.tree.Nodes()), old(Deadlines()), ev, Plus(timers.now, timer), near, k, others)
    {
      hide QueuesOk, FreeOk, SlotsOk, Deadlines, Placed;
      OnlyOwner(c, ev);
      near, k, others := SetTimer(ev, timer);
      assert FreeOk() && SlotsOk();
    }

    method SetInView(c: Connection, ev: Event, timer: Key)
      returns (ghost near: bool, ghost k: nat, ghost others: seq<Node>)
      requires Valid() && c in slots && c.fd != -1 && (ev == c.read || ev == c.write)
      modifies this, slots, slotOf.Keys, Links(), Nodes(), timers.tree
      ensures Valid() && ev.timerSet
      ensures Placed(old(timers.tree.Nodes()), old(Deadlines()), ev, Plus(timers.now, timer), near, k, others)
      ensures View() == old(View()).(pending := timers.tree.Nodes(), deadline := Deadlines())
    {
      hide Valid, Members, Links, Nodes, Fds, Data, Marks, Deadlines, AllFlags, Placed;
      near, k, others := SetOpen(c, ev, timer);
      assert Fds() == old(Fds()) && Data() == old(Data()) && Marks() == old(Marks());
      assert AllFlags() == old(AllFlags());
    }

    method TakeTimerStep(c: Connection, ev: Event, timer: Key) returns (ghost used: seq<nat>)
      requires Valid() && c in slots && c.fd != -1 && (ev == c.read || ev == c.write)
      modifies this, slots, slotOf.Keys, Links(), Nodes(), timers.tree
      ensures Valid() && ev.timerSet && SetTo(old(View()), ev, timer, used, View())
    {
      hide Valid, Dropped, Deadlines, PlacedByKey, SetTo, Orderly;
      ghost var t := View();
      ghost var near, k, others := SetInView(c, ev, timer);
      if near {
        used := [];
        NearStays(t, ev, timer);
      } else {
        used := if Orderly(t, others, Plus(t.now, timer)) then [] else [k];
        SetLeads(t, ev, timer, others, k, View());
      }
    }

    method StartTimer(ev: Event, timer: Key) returns (ghost near: bool, ghost k: nat, ghost others: seq<Node>)
      requires timers.Valid() && Fixed() && ev in slotOf
      modifies slotOf.Keys`timerSet, Nodes()`left, Nodes()`right, Nodes()`parent, Nodes()`red, Nodes()`key
      modifies timers.tree`root, timers.tree`shape, timers.tree`repr
      ensures timers.Valid() && ev.timerSet
      ensures forall e | e in slotOf && e != ev :: e.timerSet == old(e.timerSet)
      ensures Placed(old(timers.tree.Nodes()), old(Deadlines()), ev, Plus(timers.now, timer), near, k, others)
    {
      hide Timers.Valid, Deadlines, PlacedByKey, Dropped;
      assert EventWired(ev, timers, eventOf);
      TimerInside(ev);
      PendingNow(ev);
      ghost var s := timers.tree.Nodes();
      near := timers.Lazy(ev, timer);
      k, others := AddAround(ev, timer);
      if !near {
        LeftIsDropped(s, old(ev.timerSet), ev.timer, others);
        PendingNow(ev);
        PlacedSame(others[..k], ev.timer, others[k..], timers.tree.Keys(), Deadlines(), ByTimer, Around(timers.now));
      }
    }

    /** What setting a timer has done to the pending nodes and their deadlines. */
    ghost predicate Placed(s: seq<Node>, deadline: KeyMap, ev: Event, key: Key, near: bool, k: nat, others: seq<Node>)
      reads timers`now, timers.tree`shape, timers.tree`repr, timers.tree.repr`key
    {
      && (near <==> ev.timer in deadline && NgxAbs(Diff(key, deadline[ev.timer])) < TIMER_LAZY_DELAY)
      && if near then timers.tree.Nodes() == s && Deadlines() == deadline
         else
           && others == Dropped(s, ev.timer) && k <= |others|
           && timers.tree.Nodes() == others[..k] + [ev.timer] + others[k..]
           && Deadlines() == deadline[ev.timer := key]
           && PlacedByKey(others[..k], ev.timer, others[k..], Deadlines(), ByTimer, Around(timers.now))
    }

    method AddAround(ev: Event, timer: Key) returns (ghost k: nat, ghost others: seq<Node>)
      requires timers.Valid() && timers.Mine(ev) && ev.timer in Nodes() && ev in slotOf && timers.tree.repr <= Nodes()
      modifies slotOf.Keys`timerSet, Nodes()`left, Nodes()`right, Nodes()`parent, Nodes()`red, Nodes()`key
      modifies timers.tree`root, timers.tree`shape, timers.tree`repr
      ensures timers.Valid() && ev.timerSet
      ensures forall e | e in slotOf && e != ev :: e.timerSet == old(e.timerSet)
      ensures ev.timer.key == if old(timers.Lazy(ev, timer)) then old(ev.timer.key) else Plus(timers.now, timer)
      ensures Deadlines() == old(Deadlines())[ev.timer := ev.timer.key]
      ensures old(timers.Lazy(ev, timer)) ==> timers.tree.Nodes() == old(timers.tree.Nodes())
      ensures !old(timers.Lazy(ev, timer)) ==>
        && timers.LeftOver(old(timers.tree.Nodes()), old(ev.timerSet), ev.timer, others)
        && k <= |others| && timers.tree.Nodes() == others[..k] + [ev.timer] + others[k..]
        && PlacedByKey(others[..k], ev.timer, others[k..], timers.tree.Keys(), ByTimer, Around(timers.now))
    {
      hide Timers.Valid, PlacedByKey;
      k, others := timers.AddTimer(ev, timer, Around(timers.now));
    }

    /** Which nodes are pending, and with which deadlines. */
    lemma PendingNow(ev: Event)
      requires timers.Valid() && timers.Mine(ev)
      ensures ev.timerSet <==> ev.timer in Deadlines()
      ensures ev.timerSet <==> ev.timer in timers.tree.Nodes()
      ensures ev.timerSet ==> Deadlines()[ev.timer] == ev.timer.key
      ensures forall i, j | 0 <= i < j < |timers.tree.Nodes()| :: timers.tree.Nodes()[i] != timers.tree.Nodes()[j]
      ensures forall n | n in timers.tree.Nodes() ::
        n in Deadlines() && n in timers.tree.Keys() && Deadlines()[n] == timers.tree.Keys()[n]
    {
      timers.Pending();
      InOrderElements(timers.tree.shape);
    }

    lemma LeftIsDropped(s: seq<Node>, isIn: bool, n: Node, others: seq<Node>)
      requires timers.LeftOver(s, isIn, n, others) && (isIn <==> n in s)
      requires forall i, j | 0 <= i < j < |s| :: s[i] != s[j]
      ensures others == Dropped(s, n)
    {
      if isIn {
        var j :| TakenOut(s, j, n, others);
        DroppedAt(s, j, n);
      } else {
        NothingDropped(s, n);
      }
    }

    method SetTimer(ev: Event, timer: Key) returns (ghost near: bool, ghost k: nat, ghost others: seq<Node>)
      requires QueuesOk() && ev in slotOf
      modifies slotOf.Keys`timerSet, Nodes()`left, Nodes()`right, Nodes()`parent, Nodes()`red, Nodes()`key
      modifies timers.tree`root, timers.tree`shape, timers.tree`repr
      ensures QueuesOk() && ev.timerSet
      ensures Placed(old(timers.tree.Nodes()), old(Deadlines()), ev, Plus(timers.now, timer), near, k, others)
      ensures forall e | e in slotOf && e != ev :: e.timerSet == old(e.timerSet)
    {
      hide ReusableOk, PostedOk, Timers.Valid, Wired, Deadlines, Placed;
      near, k, others := StartTimer(ev, timer);
      assert ReusableOk();
      assert PostedOk();
    }

    /** An event belongs to one slot only. */
    lemma OnlyOwner(c: Connection, ev: Event)
      requires QueuesOk() && c in slots && (ev == c.read || ev == c.write)
      ensures ev in slotOf && forall d | d in slots && d != c :: d.read != ev && d.write != ev
    {
      assert SlotWired(c, connectionOf, slotOf);
      forall d | d in slots && d != c
        ensures d.read != ev && d.write != ev
      {
        assert SlotWired(d, connectionOf, slotOf);
      }
    }

    /** `ngx_event_del_timer` of an event of an open connection, if its timer is set. */
    method StopOpen(c: Connection, ev: Event)
      requires Valid() && c in slots && c.fd != -1 && (ev == c.read || ev == c.write)
      modifies slotOf.Keys`timerSet, Nodes()`left, Nodes()`right, Nodes()`parent, Nodes()`red, Nodes()`key
      modifies timers.tree`root, timers.tree`shape, timers.tree`repr
      ensures Valid() && !ev.timerSet
      ensures timers.tree.Nodes() == Dropped(old(timers.tree.Nodes()), ev.timer)
      ensures Deadlines() == old(Deadlines()) - {ev.timer}
    {
      hide QueuesOk, FreeOk, SlotsOk, Dropped, Deadlines;
      OnlyOwner(c, ev);
      UnsetTimer(ev);
      assert FreeOk() && SlotsOk();
    }

    method TakeStopStep(c: Connection, ev: Event)
      requires Valid() && c in slots && c.fd != -1 && (ev == c.read || ev == c.write)
      modifies this, slots, slotOf.Keys, Links(), Nodes(), timers.tree
      ensures Valid() && !ev.timerSet && View() == Stopped(old(View()), ev)
    {
      hide Valid, Dropped, Members, Links, Nodes, Fds, Data, Marks, Deadlines, AllFlags;
      StopOpen(c, ev);
      assert Fds() == old(Fds()) && Data() == old(Data()) && Marks() == old(Marks());
      assert AllFlags() == old(AllFlags());
    }

    method UnsetTimer(ev: Event)
      requires QueuesOk() && ev in slotOf
      modifies slotOf.Keys`timerSet, Nodes()`left, Nodes()`right, Nodes()`parent, Nodes()`red, Nodes()`key
      modifies timers.tree`root, timers.tree`shape, timers.tree`repr
      ensures QueuesOk() && !ev.timerSet
      ensures timers.tree.Nodes() == Dropped(old(timers.tree.Nodes()), ev.timer)
      ensures Deadlines() == old(Deadlines()) - {ev.timer}
      ensures forall e | e in slotOf && e != ev :: e.timerSet == old(e.timerSet)
    {
      hide ReusableOk, PostedOk, Timers.Valid, Dropped, Deadlines;
      TimerInside(ev);
      StopTimer(ev);
      assert ReusableOk();
      assert PostedOk();
    }

    lemma TimerInside(ev: Event)
      requires Fixed() && timers.Valid() && ev in slotOf
      ensures ev.timer in Nodes() && timers.tree.repr <= Nodes()
    {
      assert EventWired(ev, timers, eventOf);
    }

    /** `ngx_post_event` of an event of an open connection. */
    method PostIn(c: Connection, ev: Event, accept: bool)
      requires Valid() && c in slots && c.fd != -1 && (ev == c.read || ev == c.write)
      modifies this`accepts, this`posts, ev`posted
      modifies acceptHead`prev, acceptHead`next, postedHead`prev, postedHead`next, eventOf.Keys`prev
      modifies eventOf.Keys`next
      ensures Valid() && ev.posted
      ensures accepts == if !old(ev.posted) && accept then old(accepts) + [ev.queue] else old(accepts)
      ensures posts == if !old(ev.posted) && !accept then old(posts) + [ev.queue] else old(posts)
    {
      hide QueuesOk, FreeOk, SlotsOk, Clean;
      PostOpen(c, ev, accept);
      assert FreeOk() && SlotsOk();
    }

    method TakePostStep(c: Connection, ev: Event, accept: bool)
      requires Valid() && c in slots && c.fd != -1 && (ev == c.read || ev == c.write)
      modifies this, slots, slotOf.Keys, Links(), Nodes(), timers.tree
      ensures Valid() && ev.posted && View() == Posted(old(View()), ev, accept)
    {
      hide Valid, Members, Links, Nodes, Fds, Data, Marks, Deadlines, AllFlags;
      LinksOfTable();
      PostedNow(c, ev);
      MoreMembers(accepts, ev.queue);
      MoreMembers(posts, ev.queue);
      PostIn(c, ev, accept);
      assert Fds() == old(Fds()) && Data() == old(Data()) && Marks() == old(Marks());
      assert Deadlines() == old(Deadlines()) && AllFlags() == old(AllFlags());
    }

    lemma PostedNow(c: Connection, ev: Event)
      requires Valid() && c in slots && (ev == c.read || ev == c.write)
      ensures accepts != [] && posts != [] && ev in slotOf
      ensures ev.posted <==> ev.queue in Members(accepts) || ev.queue in Members(posts)
    {
      EventsOfSlot(c);
      PostedMembers(ev);
    }

    method PostOpen(c: Connection, ev: Event, accept: bool)
      requires QueuesOk() && Clean() && c in slots && c.fd != -1 && (ev == c.read || ev == c.write)
      modifies this`accepts, this`posts, ev`posted
      modifies acceptHead`prev, acceptHead`next, postedHead`prev, postedHead`next, eventOf.Keys`prev
      modifies eventOf.Keys`next
      ensures QueuesOk() && Clean() && ev.posted
      ensures accepts == if !old(ev.posted) && accept then old(accepts) + [ev.queue] else old(accepts)
      ensures posts == if !old(ev.posted) && !accept then old(posts) + [ev.queue] else old(posts)
    {
      hide QueuesOk;
      OnlyOwner(c, ev);
      SetPosted(ev, accept);
    }

    method SetPosted(ev: Event, accept: bool)
      requires QueuesOk() && ev in slotOf
      modifies this`accepts, this`posts, ev`posted
      modifies acceptHead`prev, acceptHead`next, postedHead`prev, postedHead`next, eventOf.Keys`prev
      modifies eventOf.Keys`next
      ensures QueuesOk() && ev.posted
      ensures accepts == if !old(ev.posted) && accept then old(accepts) + [ev.queue] else old(accepts)
      ensures posts == if !old(ev.posted) && !accept then old(posts) + [ev.queue] else old(posts)
    {
      hide ReusableOk, PostedOk, Timers.Valid;
      PostEvent(ev, accept);
      assert timers.Valid();
      assert ReusableOk();
    }

    /** An open connection uses its field `data` for its own ends. */
    method SetOwnData(c: Connection, data: Connection?)
      requires Valid() && c in slots && c.fd != -1
      modifies c`data
      ensures Valid() && Data() == old(Data())[c := data]
    {
      hide QueuesOk;
      ghost var next := Data();
      c.data := data;
      FreeChainKept(next, Data(), freeConnections, free);
    }

    method TakeDataStep(c: Connection, data: Connection?)
      requires Valid() && c in slots && c.fd != -1
      modifies c`data
      ensures Valid() && View() == old(View()).(data := old(View()).data[c := data])
    {
      hide Valid, Members, Fds, Data, Marks, Deadlines, AllFlags;
      SetOwnData(c, data);
      assert Fds() == old(Fds()) && Marks() == old(Marks());
      assert Deadlines() == old(Deadlines()) && AllFlags() == old(AllFlags());
    }

    method TakeCloseStep(c: Connection)
      requires Valid() && c in slots
      modifies this, slots, slotOf.Keys, Links(), Nodes(), timers.tree
      ensures Valid() && c.fd == -1
      ensures free == if old(c.fd) == -1 then old(free) else [c] + old(free)
      ensures View() == Closed(old(View()), c)
    {
      hide QueuesOk, FreeOk, SlotsOk, Clean;
      Owned(c);
      CloseConnection(c);
    }

    ghost function PostedQueue(accept: bool): seq<Link>
      reads this`accepts, this`posts
    {
      if accept then accepts else posts
    }

    /** What `ngx_event_process_posted` does before it calls a handler: null if the queue is empty. */
    method TakePosted(accept: bool) returns (ev: Event?)
      requires Valid()
      modifies this`accepts, this`posts, slotOf.Keys`posted
      modifies acceptHead`prev, acceptHead`next, postedHead`prev, postedHead`next, eventOf.Keys`prev
      modifies eventOf.Keys`next
      ensures Valid() && (ev == null ==> Members(PostedQueue(accept)) == [])
      ensures ev != null ==> ev in slotOf && !ev.posted
      ensures ev != null ==> Members(old(PostedQueue(accept))) == [ev.queue] + Members(PostedQueue(accept))
      ensures ev == null ==> accepts == old(accepts) && posts == old(posts)
      ensures PostedQueue(!accept) == old(PostedQueue(!accept))
    {
      hide FreeOk, SlotsOk, Clean;
      var q;
      if accept {
        q := FirstOf(acceptHead, accepts, eventOf.Keys);
      } else {
        q := FirstOf(postedHead, posts, eventOf.Keys);
      }
      if q == null {
        return null;
      }
      ev := eventOf[q];
      assert EventLinkWired(q, eventOf, slotOf);
      FirstGone(PostedQueue(accept), q);
      DropPosted(ev);
    }

    method NextPosted(accept: bool) returns (ev: Event?)
      requires Valid()
      modifies this, slots, slotOf.Keys, Links(), Nodes(), timers.tree
      ensures Valid() && (ev == null ==> Members(PostedQueue(accept)) == [])
      ensures ev != null ==> ev in slotOf && !ev.posted
      ensures ev != null ==> Members(old(PostedQueue(accept))) == [ev.queue] + Members(PostedQueue(accept))
      ensures if ev == null then View() == old(View())
              else Queued(old(View()), accept) != [] && View() == Dequeued(old(View()), accept)
    {
      hide Valid, Members, Links, Nodes, Fds, Data, Marks, Deadlines, AllFlags;
      LinksOfTable();
      ev := TakePosted(accept);
      assert Fds() == old(Fds()) && Data() == old(Data()) && Marks() == old(Marks());
      assert Deadlines() == old(Deadlines()) && AllFlags() == old(AllFlags());
    }

    /** The connection that became reusable first, or null; it is open. */
    method LastReusable() returns (c: Connection?)
      requires Valid()
      ensures if c == null then Members(reusable) == []
              else c in slots && c.fd != -1 && Members(reusable) != [] && c.queue == reusable[|reusable| - 1]
    {
      hide FreeOk, SlotsOk;
      var q := LastOf(reusableHead, reusable, connectionOf.Keys);
      if q == null {
        return null;
      }
      assert LinkWired(q, slots, connectionOf);
      return connectionOf[q];
    }

    method DropPosted(ev: Event)
      requires Valid() && ev in slotOf && ev.posted
      modifies this`accepts, this`posts, slotOf.Keys`posted
      modifies acceptHead`prev, acceptHead`next, postedHead`prev, postedHead`next, eventOf.Keys`prev
      modifies eventOf.Keys`next
      ensures Valid() && !ev.posted
      ensures accepts == Without(old(accepts), ev.queue) && posts == Without(old(posts), ev.queue)
    {
      hide QueuesOk, FreeOk, SlotsOk;
      SetUnposted(ev);
      assert FreeOk() && SlotsOk();
    }

    method SetUnposted(ev: Event)
      requires QueuesOk() && ev in slotOf && ev.posted
      modifies this`accepts, this`posts, ev`posted
      modifies acceptHead`prev, acceptHead`next, postedHead`prev, postedHead`next, eventOf.Keys`prev
      modifies eventOf.Keys`next
      ensures QueuesOk() && !ev.posted
      ensures accepts == Without(old(accepts), ev.queue) && posts == Without(old(posts), ev.queue)
    {
      hide ReusableOk, PostedOk, Timers.Valid;
      DeletePostedEvent(ev);
      assert timers.Valid();
      assert ReusableOk();
    }

    /** The event with the first deadline, if that has come. */
    method FirstDue() returns (ev: Event?)
      requires timers.Valid()
      ensures var s, key := timers.tree.Nodes(), timers.tree.Keys();
              if ev == null then s == [] || (s[0] in key && Diff(key[s[0]], timers.now) > 0)
              else s != [] && ev.timer == s[0] && s[0] in key && Diff(key[s[0]], timers.now) <= 0
                   && timers.Mine(ev) && ev.timerSet
    {
      if timers.tree.root == timers.tree.sentinel {
        return null;
      }
      var node := timers.tree.Minimum();
      InOrderElements(timers.tree.shape);
      assert node in NodeSet(timers.tree.shape);
      if Diff(node.key, timers.now) > 0 {
        return null;
      }
      ev := timers.eventOf[node];
    }

    method FireFirst(ev: Event)
      requires timers.Valid() && timers.Mine(ev) && ev.timerSet
      requires timers.tree.Nodes() != [] && ev.timer == timers.tree.Nodes()[0]
      modifies timers.tree`root, timers.tree`shape, timers.tree`repr
      modifies timers.tree.repr`left, timers.tree.repr`right, timers.tree.repr`parent, timers.tree.repr`red
      modifies ev.timer`key, ev`timerSet, ev`timedout
      ensures timers.Valid() && !ev.timerSet && ev.timedout && timers.tree.repr == old(timers.tree.repr) - {ev.timer}
      ensures timers.tree.Nodes() == old(timers.tree.Nodes())[1..] && Deadlines() == old(Deadlines()) - {ev.timer}
    {
      hide Timers.Valid;
      timers.ExpireFirst(ev);
    }

    method FireMarked(ev: Event)
      requires timers.Valid() && timers.Mine(ev) && ev.timerSet
      requires timers.tree.Nodes() != [] && ev.timer == timers.tree.Nodes()[0]
      modifies timers.tree`root, timers.tree`shape, timers.tree`repr
      modifies timers.tree.repr`left, timers.tree.repr`right, timers.tree.repr`parent, timers.tree.repr`red
      modifies ev.timer`key, ev`timerSet, ev`timedout
      ensures timers.Valid() && !ev.timerSet && ev.timedout && timers.tree.repr == old(timers.tree.repr) - {ev.timer}
      ensures timers.tree.Nodes() == old(timers.tree.Nodes())[1..] && Deadlines() == old(Deadlines()) - {ev.timer}
      ensures AllFlags() == Late(old(AllFlags()), ev)
    {
      hide Timers.Valid, Deadlines;
      FireFirst(ev);
      if ev in slotOf {
        OneFlag(old(AllFlags()), ev, old(AllFlags())[ev].(timedout := true));
      } else {
        SameFlags(old(AllFlags()));
      }
    }

    method FireTimer(ev: Event)
      requires QueuesOk() && Clean() && timers.Mine(ev) && ev.timerSet
      requires timers.tree.Nodes() != [] && ev.timer == timers.tree.Nodes()[0]
      modifies timers.tree`root, timers.tree`shape, timers.tree`repr
      modifies timers.tree.repr`left, timers.tree.repr`right, timers.tree.repr`parent, timers.tree.repr`red
      modifies ev.timer`key, ev`timerSet, ev`timedout
      ensures QueuesOk() && Clean() && !ev.timerSet && ev.timedout && AllFlags() == Late(old(AllFlags()), ev)
      ensures timers.tree.Nodes() == old(timers.tree.Nodes())[1..] && Deadlines() == old(Deadlines()) - {ev.timer}
    {
      hide ReusableOk, PostedOk, Wired, Timers.Valid, Deadlines, AllFlags, Late;
      FireMarked(ev);
      assert ReusableOk();
      assert PostedOk();
    }

    /** No deadline has come. */
    ghost predicate NothingDue()
      reads timers`now, timers.tree`shape, timers.tree`repr, timers.tree.repr`key
    {
      var s, key := timers.tree.Nodes(), timers.tree.Keys();
      s == [] || (s[0] in key && Diff(key[s[0]], timers.now) > 0)
    }

    method TakeExpired() returns (ev: Event?)
      requires Valid()
      modifies timers.tree`root, timers.tree`shape, timers.tree`repr
      modifies Nodes()`left, Nodes()`right, Nodes()`parent, Nodes()`red, Nodes()`key
      modifies timers.eventOf.Values`timerSet, timers.eventOf.Values`timedout
      ensures Valid()
      ensures var s, key := old(timers.tree.Nodes()), old(timers.tree.Keys());
              if ev == null then NothingDue() && timers.tree.Nodes() == s
              else s != [] && ev.timer == s[0] && s[0] in key && Diff(key[s[0]], timers.now) <= 0
                   && !ev.timerSet && ev.timedout && timers.tree.Nodes() == s[1..]
      ensures ev == null ==> Deadlines() == old(Deadlines()) && AllFlags() == old(AllFlags())
      ensures ev != null ==> timers.Mine(ev) && Deadlines() == old(Deadlines()) - {ev.timer}
      ensures ev != null ==> AllFlags() == Late(old(AllFlags()), ev)
    {
      hide QueuesOk, FreeOk, SlotsOk, Clean, Timers.Valid, Deadlines, AllFlags;
      TimersOfTable();
      ev := FirstDue();
      if ev != null {
        FireTimer(ev);
      }
    }

    /** What `ngx_event_expire_timers` does before it calls a handler: null if no deadline has come. */
    method NextExpired() returns (ev: Event?)
      requires Valid()
      modifies Nodes(), timers.tree, timers.eventOf.Values
      ensures Valid()
      ensures var s, key := old(timers.tree.Nodes()), old(timers.tree.Keys());
              if ev == null then NothingDue() && timers.tree.Nodes() == s
              else s != [] && ev.timer == s[0] && s[0] in key && Diff(key[s[0]], timers.now) <= 0
                   && !ev.timerSet && ev.timedout && timers.tree.Nodes() == s[1..]
      ensures if ev == null then View() == old(View()) && !Due(View())
              else Due(old(View())) && View() == Fired(old(View()))
    {
      hide Valid, Members, Nodes, Fds, Data, Marks, Deadlines, AllFlags;
      DueNow();
      ev := TakeExpired();
      DueNow();
      assert Fds() == old(Fds()) && Data() == old(Data()) && Marks() == old(Marks());
    }

    /** When a deadline has come. */
    lemma DueNow()
      requires Valid()
      ensures Due(View()) <==> !NothingDue()
      ensures timers.tree.Nodes() != [] ==>
        var n := timers.tree.Nodes()[0];
        n in Deadlines() && n in timers.eventOf && Deadlines()[n] == timers.tree.Keys()[n]
    {
      timers.Pending();
      InOrderElements(timers.tree.shape);
    }

    lemma TimersOfTable()
      requires QueuesOk()
      ensures timers.Valid() && timers.tree.repr <= Nodes()
    {
    }

    /** The slot that `ngx_drain_connections` asks to close next, if there is one. */
    method NextDrained() returns (c: Connection?)
      requires Valid()
      modifies slots`close
      ensures Valid()
      ensures if c == null then old(View()).reusable == [] && View() == old(View())
              else
                && old(View()).reusable != [] && c in slots && c.close && c.fd != -1
                && View() == Marked(old(View()), old(View()).reusable[|old(View()).reusable| - 1])
    {
      hide Valid, Fds, Data, Marks, Deadlines, AllFlags;
      c := LastReusable();
      if c != null {
        OwnLink(c);
        MarkSlot(c);
        assert Fds() == old(Fds()) && Data() == old(Data());
        assert Deadlines() == old(Deadlines()) && AllFlags() == old(AllFlags());
      }
    }

    lemma OwnLink(c: Connection)
      requires Valid() && c in slots
      ensures c.queue in connectionOf && connectionOf[c.queue] == c
    {
      assert SlotWired(c, connectionOf, slotOf);
    }

    method MarkSlot(c: Connection)
      requires Valid() && c in slots
      modifies c`close
      ensures Valid() && c.close && Marks() == old(Marks())[c := true]
    {
      hide Valid;
      c.close := true;
      assert Valid();
    }

    /** `ngx_drain_connections` */
    method Drain(handlers: seq<Handler>) returns (ghost used: seq<nat>)
      requires Valid()
      modifies this, slots, slotOf.Keys, Links(), Nodes(), timers.tree, timers.eventOf.Values, timers`now
      ensures Valid()
      ensures DrainedTo(old(View()), DrainCount(|old(View()).reusable|), handlers, used, View())
      decreases handlers, 2
    {
      hide *;
      var n := CountDrained();
      used := DrainUpTo(n, handlers);
    }

    /** The loop. */
    method DrainUpTo(n: nat, handlers: seq<Handler>) returns (ghost used: seq<nat>)
      requires Valid()
      modifies this, slots, slotOf.Keys, Links(), Nodes(), timers.tree, timers.eventOf.Values, timers`now
      ensures Valid()
      ensures DrainedTo(old(View()), n, handlers, used, View())
      decreases handlers, 1
    {
      hide *;
      ghost var t0, hs, left: nat := View(), handlers, n;
      RestIs(handlers, 0);
      DrainBegins(t0, n, handlers);
      used := [];
      var i := 0;
      while i < n
        invariant Valid() && hs == RestFrom(handlers, i) && left + i == n
        invariant DrainsOn(t0, n, handlers, used, View(), left, hs)
        decreases left
      {
        ghost var t := View();
        var done;
        ghost var more;
        done, more := DrainOne(handlers, i);
        if done {
          break;
        }
        RestIs(handlers, i);
        DrainGoesOn(t0, n, handlers, used, t, left, hs, more, View());
        used, hs, left := used + more, Rest(hs), left - 1;
        i := i + 1;
      }
      DrainEnds(t0, n, handlers, used, View(), left, hs);
    }

    /** The body of the loop, unless the queue is empty. */
    method DrainOne(handlers: seq<Handler>, i: nat) returns (done: bool, ghost more: seq<nat>)
      requires Valid()
      modifies this, slots, slotOf.Keys, Links(), Nodes(), timers.tree, timers.eventOf.Values, timers`now
      ensures Valid() && (done <==> old(View()).reusable == []) && (done ==> View() == old(View()))
      ensures !done ==>
        CalledTo(Marked(old(View()), old(View()).reusable[|old(View()).reusable| - 1]), RestFrom(handlers, i), more,
                 View())
      decreases handlers, 0
    {
      hide *;
      more := [];
      var c := NextDrained();
      if c == null {
        return true, more;
      }
      ghost var m := View();
      if i < |handlers| {
        more := Run(handlers[i]);
      }
      RestIs(handlers, i);
      CallIs(m, RestFrom(handlers, i), more, View());
      done := false;
    }

    /** `ngx_max(ngx_min(32, cycle->reusable_connections_n / 8), 1)` */
    method CountDrained() returns (n: nat)
      requires Valid()
      ensures n == DrainCount(|View().reusable|)
    {
      var eighth := reusableConnectionsN / 8;
      n := if eighth > 32 then 32 else if eighth < 1 then 1 else eighth;
    }

    /** `ngx_get_connection`; `handlers` is what the handlers do that it calls when no slot is free. */
    method GetConnection(s: int, handlers: seq<Handler>) returns (c: Connection?, ghost used: seq<nat>)
      requires Valid() && s != -1
      modifies this, slots, slotOf.Keys, Links(), Nodes(), timers.tree, timers.eventOf.Values, timers`now
      ensures Valid() && (c != null ==> c in slots && c.fd == s && !c.close)
      ensures old(free) != [] ==> c != null && old(free) == [c] + free
      ensures c == null ==> free == []
      ensures GotTo(old(View()), s, handlers, used, View())
      ensures c == First(Ready(old(View()).(places := used), handlers).free)
      decreases handlers, 3
    {
      hide *;
      ghost var t := View();
      FreeInView();
      used := [];
      if freeConnections == null {
        used := Drain(handlers);
      }
      ghost var m := View();
      GetReady(t, handlers, used, m);
      GetEnds(t, s, handlers, used, m);
      FreeInView();
      TookIs(m, s);
      if freeConnections == null {
        return null, used;
      }
      c := TakeSlot(s);
    }

    lemma TookIs(t: Table, s: int)
      ensures Took(t, s) == if t.free == [] then t else Opened(t, t.free[0], s)
      ensures First(t.free) == if t.free == [] then null else t.free[0]
    {
    }

    lemma FreeInView()
      requires Valid()
      ensures View().free == free && View().places == [] && (freeConnections == null <==> free == [])
      ensures freeConnections != null ==> free[0] == freeConnections
    {
    }

    /** `ngx_event_process_posted`: it ends when the queue is empty. */
    method ProcessPosted(accept: bool, handlers: seq<Handler>) returns (ghost used: seq<nat>)
      requires Valid()
      modifies this, slots, slotOf.Keys, Links(), Nodes(), timers.tree, timers.eventOf.Values, timers`now
      ensures Valid() && Members(PostedQueue(accept)) == []
      ensures ProcessedTo(old(View()), accept, handlers, used, View())
      decreases handlers, 0
    {
      hide *;
      var i := 0;
      ghost var t0, hs := View(), handlers;
      RestIs(handlers, 0);
      ProcessBegins(t0, accept, handlers);
      used := [];
      while true
        invariant Valid() && i <= |handlers| && hs == RestFrom(handlers, i)
        invariant ProcessesOn(t0, accept, handlers, used, View(), hs)
        decreases |handlers| - i, |Members(PostedQueue(accept))|
      {
        ghost var t := View();
        var ev := NextPosted(accept);
        if ev == null {
          QueueInView(accept);
          ProcessEnds(t0, accept, handlers, used, t, hs);
          return;
        }
        ghost var more, m := [], View();
        if i < |handlers| {
          more := Run(handlers[i]);
        }
        RestIs(handlers, i);
        CallIs(m, hs, more, View());
        ProcessGoesOn(t0, accept, handlers, used, t, hs, more, View());
        used, hs := used + more, Rest(hs);
        if i < |handlers| {
          i := i + 1;
        }
      }
    }

    lemma QueueInView(accept: bool)
      ensures Queued(View(), accept) == Members(PostedQueue(accept))
    {
    }

    /** `ngx_event_expire_timers`: it ends when no deadline has come that is still pending. */
    method Expire(handlers: seq<Handler>) returns (ghost used: seq<nat>)
      requires Valid()
      modifies this, slots, slotOf.Keys, Links(), Nodes(), timers.tree, timers.eventOf.Values, timers`now
      ensures Valid() && NothingDue()
      ensures ExpiredTo(old(View()), handlers, used, View())
      decreases handlers, 0
    {
      hide *;
      var i := 0;
      ghost var t0, hs := View(), handlers;
      RestIs(handlers, 0);
      ExpireBegins(t0, handlers);
      used := [];
      while true
        invariant Valid() && i <= |handlers| && hs == RestFrom(handlers, i)
        invariant ExpiresOn(t0, handlers, used, View(), hs)
        decreases |handlers| - i, |timers.tree.Nodes()|
      {
        ghost var t := View();
        var ev := NextExpired();
        if ev == null {
          ExpireEnds(t0, handlers, used, t, hs);
          return;
        }
        ghost var more, m := [], View();
        if i < |handlers| {
          more := Run(handlers[i]);
        }
        RestIs(handlers, i);
        CallIs(m, hs, more, View());
        ExpireGoesOn(t0, handlers, used, t, hs, more, View());
        used, hs := used + more, Rest(hs);
        if i < |handlers| {
          i := i + 1;
        }
      }
    }

    /** A step that calls no handler; a step on a connection that is not open is none. */
    method TakePlain(step: Step) returns (ghost used: seq<nat>)
      requires Valid() && !step.Get? && !step.Process? && !step.ExpireTimers?
      modifies this, slots, slotOf.Keys, Links(), Nodes(), timers.tree, timers.eventOf.Values, timers`now
      ensures Valid() && DidTo(old(View()), step, used, View())
    {
      hide *;
      ghost var t := View();
      used := [];
      match step
      case Close(c) =>
        OpenNow(c);
        ClosedIs(t, c);
        if c in slots {
          TakeCloseStep(c);
        }
        CloseStep(t, c, View());
      case Reusable(c, reuse) =>
        OpenNow(c);
        if c in slots && c.fd != -1 {
          TakeReusableStep(c, reuse);
        }
        ReusableStep(t, c, reuse, View());
      case AddTimer(c, write, timer) =>
        OpenNow(c);
        EventIs(c, write);
        if c in slots && c.fd != -1 {
          used := TakeTimerStep(c, if write then c.write else c.read, timer);
        }
        SetStep(t, c, write, timer, used, View());
      case DelTimer(c, write) =>
        OpenNow(c);
        EventIs(c, write);
        if c in slots && c.fd != -1 {
          TakeStopStep(c, if write then c.write else c.read);
        }
        StopStep(t, c, write, View());
      case Post(c, write, accept) =>
        OpenNow(c);
        EventIs(c, write);
        if c in slots && c.fd != -1 {
          TakePostStep(c, if write then c.write else c.read, accept);
        }
        PostStep(t, c, write, accept, View());
      case SetData(c, data) =>
        OpenNow(c);
        if c in slots && c.fd != -1 {
          TakeDataStep(c, data);
        }
        DataStep(t, c, data, View());
      case Tick(now) =>
        SetTime(now);
        TickStep(t, now, View());
    }

    lemma EventIs(c: Connection, write: bool)
      ensures EventOf(c, write) == if write then c.write else c.read
    {
    }

    /** `ngx_time_update`, as far as timers are concerned. */
    method SetTime(now: Key)
      requires Valid()
      modifies timers`now
      ensures Valid() && timers.now == now && View() == old(View()).(now := now)
    {
      hide Valid, Members, Fds, Data, Marks, Deadlines, AllFlags;
      timers.now := now;
      assert Valid() && Fds() == old(Fds()) && Data() == old(Data()) && Marks() == old(Marks());
      assert Deadlines() == old(Deadlines()) && AllFlags() == old(AllFlags());
    }

    /** One step. */
    method Take(step: Step) returns (ghost used: seq<nat>)
      requires Valid()
      modifies this, slots, slotOf.Keys, Links(), Nodes(), timers.tree, timers.eventOf.Values, timers`now
      ensures Valid() && DidTo(old(View()), step, used, View())
      decreases step, 0
    {
      hide *;
      ghost var t := View();
      match step
      case Get(s, handlers) =>
        used := [];
        if s != -1 {
          var c;
          c, used := GetConnection(s, handlers);
        }
        GetStep(t, s, handlers, used, View());
      case Process(accept, handlers) =>
        used := ProcessPosted(accept, handlers);
        ProcessStep(t, accept, handlers, used, View());
      case ExpireTimers(handlers) =>
        used := Expire(handlers);
        ExpireStep(t, handlers, used, View());
      case _ =>
        used := TakePlain(step);
    }

    /** Every run keeps every slot either open or on the free list, and free slots out of all queues; and it does what
        its steps say. */
    method Run(run: Handler) returns (ghost used: seq<nat>)
      requires Valid()
      modifies this, slots, slotOf.Keys, Links(), Nodes(), timers.tree, timers.eventOf.Values, timers`now
      ensures Valid() && RanTo(old(View()), run.steps, used, View())
      decreases run, 0
    {
      hide *;
      ghost var t0, steps := View(), run.steps;
      RunBegins(t0, steps);
      used := [];
      for i := 0 to |run.steps|
        invariant Valid() && steps == run.steps[i..] && RunsOn(t0, run.steps, used, View(), steps)
      {
        ghost var t := View();
        ghost var more := Take(run.steps[i]);
        RunGoesOn(t0, run.steps, used, t, steps, more, View());
        used, steps := used + more, steps[1..];
      }
      RunEnds(t0, run.steps, used, View());
    }

  }

  /** The slots of a table with all that they embed. */
  datatype Parts = Parts(
    conns: seq<Connection>,
    connectionOf: map<Link, Connection>,
    eventOf: map<Link, Event>,
    slotOf: map<Event, Connection>,
    timerOf: map<Node, Event>)

  ghost predicate EventMade(e: Event, parts: Parts) {
    e.timer in parts.timerOf && parts.timerOf[e.timer] == e && e.queue in parts.eventOf && parts.eventOf[e.queue] == e
  }

  ghost predicate SlotsMade(parts: Parts) {
    && AllDistinct(parts.conns)
    && (forall c | c in parts.conns :: SlotWired(c, parts.connectionOf, parts.slotOf))
    && forall l | l in parts.connectionOf :: parts.connectionOf[l] in parts.conns && parts.connectionOf[l].queue == l
  }

  ghost predicate EventsMade(parts: Parts) {
    && (forall e | e in parts.slotOf :: EventMade(e, parts))
    && (forall l | l in parts.eventOf :: parts.eventOf[l] in parts.slotOf && parts.eventOf[l].queue == l)
    && forall n | n in parts.timerOf :: parts.timerOf[n] in parts.slotOf && parts.timerOf[n].timer == n
  }

  ghost predicate Made(parts: Parts) {
    SlotsMade(parts) && EventsMade(parts) && parts.connectionOf.Keys !! parts.eventOf.Keys
  }

  /** Nothing is in a queue or a timer tree. */
  ghost predicate Still(parts: Parts)
    reads parts.conns`reusable, parts.slotOf.Keys`posted, parts.slotOf.Keys`timerSet
  {
    (forall c | c in parts.conns :: !c.reusable) && forall e | e in parts.slotOf :: !e.posted && !e.timerSet
  }

  function Added(parts: Parts, c: Connection): Parts {
    Parts(parts.conns + [c], parts.connectionOf[c.queue := c],
          parts.eventOf[c.read.queue := c.read][c.write.queue := c.write],
          parts.slotOf[c.read := c][c.write := c],
          parts.timerOf[c.read.timer := c.read][c.write.timer := c.write])
  }

  /** A slot with an event each way, none of it used before. */
  ghost predicate Unused(c: Connection, parts: Parts) {
    && c !in parts.conns && c.read != c.write && c.read !in parts.slotOf && c.write !in parts.slotOf
    && {c.queue, c.read.queue, c.write.queue} !! parts.connectionOf.Keys + parts.eventOf.Keys
    && c.queue != c.read.queue && c.queue != c.write.queue && c.read.queue != c.write.queue
    && c.read.timer != c.write.timer && c.read.timer !in parts.timerOf && c.write.timer !in parts.timerOf
  }

  lemma AddedSlots(parts: Parts, c: Connection)
    requires SlotsMade(parts) && Unused(c, parts)
    ensures SlotsMade(Added(parts, c))
  {
    var parts' := Added(parts, c);
    assert SlotWired(c, parts'.connectionOf, parts'.slotOf) && c in parts'.conns;
    forall d | d in parts.conns
      ensures SlotWired(d, parts'.connectionOf, parts'.slotOf)
    {
      assert SlotWired(d, parts.connectionOf, parts.slotOf);
    }
  }

  lemma AddedEvents(parts: Parts, c: Connection)
    requires EventsMade(parts) && Unused(c, parts)
    ensures EventsMade(Added(parts, c))
  {
    var parts' := Added(parts, c);
    assert EventMade(c.read, parts') && EventMade(c.write, parts');
    forall e | e in parts.slotOf
      ensures EventMade(e, parts')
    {
      assert EventMade(e, parts);
    }
  }

  lemma AddedMade(parts: Parts, c: Connection)
    requires Made(parts) && Unused(c, parts)
    ensures Made(Added(parts, c))
  {
    hide SlotsMade, EventsMade;
    AddedSlots(parts, c);
    AddedEvents(parts, c);
  }

  method NewEvent() returns (e: Event)
    ensures fresh(e) && fresh(e.timer) && fresh(e.queue) && !e.posted && !e.timerSet
  {
    var timer := new Node(0);
    var queue := new Link();
    e := new Event(timer, queue);
  }

  method AddSlot(parts: Parts) returns (parts': Parts)
    requires Made(parts) && Still(parts)
    ensures Made(parts') && Still(parts') && |parts'.conns| == |parts.conns| + 1
    ensures parts'.conns[..|parts.conns|] == parts.conns && fresh(parts'.conns[|parts.conns|])
  {
    hide SlotsMade, EventsMade;
    var read := NewEvent();
    var write := NewEvent();
    var queue := new Link();
    var c := new Connection(read, write, queue);
    AddedMade(parts, c);
    parts' := Added(parts, c);
  }

  /** Such slots, with heads and timers of their own, are wired as the table needs it. */
  lemma MadeWired(parts: Parts, slots: set<Connection>, timers: Timers, reusableHead: Link, acceptHead: Link,
                  postedHead: Link)
    requires Made(parts) && slots == (set c | c in parts.conns) && timers.eventOf == parts.timerOf
    requires {reusableHead, acceptHead, postedHead} !! parts.connectionOf.Keys + parts.eventOf.Keys
    requires reusableHead != acceptHead && reusableHead != postedHead && acceptHead != postedHead
    ensures Wired(slots, timers, reusableHead, acceptHead, postedHead, parts.connectionOf, parts.eventOf, parts.slotOf)
  {
  }

  lemma {:induction false} SlotCount(conns: seq<Connection>)
    requires AllDistinct(conns)
    ensures |set c | c in conns| == |conns|
  {
    if conns != [] {
      var init, last := conns[..|conns| - 1], conns[|conns| - 1];
      SlotCount(init);
      assert conns == init + [last];
      assert (set c | c in conns) == (set c | c in init) + {last};
    }
  }

  method MakeParts(n: nat) returns (parts: Parts)
    ensures Made(parts) && Still(parts) && |parts.conns| == n && forall k | 0 <= k < n :: fresh(parts.conns[k])
  {
    parts := Parts([], map[], map[], map[], map[]);
    for i := 0 to n
      invariant Made(parts) && Still(parts) && |parts.conns| == i && forall k | 0 <= k < i :: fresh(parts.conns[k])
    {
      parts := AddSlot(parts);
    }
  }

  method NewTimers(parts: Parts, now: Key) returns (timers: Timers)
    requires Made(parts) && Still(parts)
    ensures fresh(timers) && timers.Valid() && timers.eventOf == parts.timerOf
  {
    var sentinel := new Node(0);
    timers := new Timers(sentinel, parts.timerOf, now);
  }

  /** A table of them that has not been linked yet. */
  method NewCycle(parts: Parts, now: Key) returns (cycle: Cycle)
    requires Made(parts) && Still(parts)
    ensures fresh(cycle) && cycle.slots == (set c | c in parts.conns) && cycle.slotOf == parts.slotOf
    ensures cycle.free == parts.conns && cycle.freeConnectionN == |parts.conns| && cycle.reusableConnectionsN == 0
    ensures cycle.Fixed() && cycle.timers.Valid()
    ensures fresh(cycle.reusableHead) && fresh(cycle.acceptHead) && fresh(cycle.postedHead)
    ensures cycle.reusable == [cycle.reusableHead] && cycle.accepts == [cycle.acceptHead]
    ensures cycle.posts == [cycle.postedHead]
  {
    hide Timers.Valid, Made, Still;
    var reusableHead := new Link();
    var acceptHead := new Link();
    var postedHead := new Link();
    var timers := NewTimers(parts, now);
    cycle := new Cycle(parts.conns, timers, reusableHead, acceptHead, postedHead,
                       parts.connectionOf, parts.eventOf, parts.slotOf);
    MadeWired(parts, cycle.slots, timers, reusableHead, acceptHead, postedHead);
  }

  /** `ngx_event_process_init`: a worker's table of `n` slots, all of them free. */
  method NewTable(n: nat, now: Key) returns (cycle: Cycle)
    requires n > 0
    ensures fresh(cycle) && cycle.Valid() && |cycle.free| == n && |cycle.slots| == n
  {
    hide Wired, Timers.Valid, Cycle.Valid;
    var parts := MakeParts(n);
    cycle := NewCycle(parts, now);
    SlotCount(parts.conns);
    cycle.Start(parts.conns);
  }
}
