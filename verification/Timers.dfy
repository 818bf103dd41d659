/** The event timers of `ngx_event_timer.c` and `ngx_event_timer.h`, kept in a red-black tree. */
module Timers {
  import opened Queue
  import opened RbShape
  import opened RbKeys
  import opened RbTree

  const TIMER_INFINITE: Key := TWO_TO_THE_64 - 1
  const TIMER_LAZY_DELAY: int := 300

  /** `ngx_event_t`, as far as timers and queues are concerned. */
  class Event {
    const timer: Node
    const queue: Link
    var timerSet: bool
    var timedout: bool
    var cancelable: bool
    var posted: bool
    var closed: bool
    var instance: bool
    var write: bool

    constructor (timer: Node, queue: Link)
      ensures this.timer == timer && this.queue == queue && !timerSet && !timedout && !cancelable && !posted
      ensures closed && !instance && !write
    {
      this.timer, this.queue := timer, queue;
      timerSet, timedout, cancelable, posted := false, false, false, false;
      closed, instance, write := true, false, false;
    }
  }

  function Plus(a: Key, b: Key): Key {
    if a + b < TWO_TO_THE_64 then a + b else a + b - TWO_TO_THE_64
  }

  /** Addition on machine words, which subtraction undoes. */
  lemma PlusAdds(a: Key, b: Key)
    ensures Plus(a, b) == (a + b) % TWO_TO_THE_64 && Minus(Plus(a, b), b) == a && Minus(Plus(a, b), a) == b
  {
  }

  /** `ngx_abs` on a signed machine word: the lowest value has no negative and stays as it is. */
  function NgxAbs(x: int): int {
    if x >= 0 then x else if x == -TWO_TO_THE_63 then x else -x
  }

  /** How much later than `b` the time `a` is, read as a signed machine word. */
  function Diff(a: Key, b: Key): int {
    Signed(Minus(a, b))
  }

  /** The difference counts the milliseconds from `b` on or back from it, wherever the clock wraps. */
  lemma DiffCounts(b: Key, d: int)
    requires -TWO_TO_THE_63 <= d < TWO_TO_THE_63
    ensures Diff((b + d) % TWO_TO_THE_64, b) == d
  {
  }

  /** A deadline half the circle away passes the test for small differences. */
  lemma HalfCircleLooksSmall(b: Key)
    ensures NgxAbs(Diff(Plus(b, TWO_TO_THE_63), b)) < TIMER_LAZY_DELAY
    ensures Diff(Plus(b, TWO_TO_THE_63), b) == -TWO_TO_THE_63
  {
  }

  class Timers {
    const tree: Tree
    /** `ngx_current_msec` */
    var now: Key
    /** The events that embed the nodes: subtracting `offsetof(ngx_event_t, timer)`. */
    const eventOf: map<Node, Event>

    /** `ngx_event_timer_init` */
    constructor (sentinel: Node, eventOf: map<Node, Event>, now: Key)
      requires sentinel !in eventOf
      requires forall n | n in eventOf :: eventOf[n].timer == n && !eventOf[n].timerSet
      modifies sentinel`red
      ensures Valid() && tree.Nodes() == [] && this.now == now && this.eventOf == eventOf
    {
      tree := new Tree(sentinel, ByTimer);
      this.eventOf, this.now := eventOf, now;
    }

    ghost predicate Valid()
      reads tree`root, tree`shape, tree`repr, tree.repr`left, tree.repr`right, tree.repr`parent, tree.repr`red
      reads eventOf.Values`timerSet
    {
      && tree.Valid() && tree.insert == ByTimer
      && tree.sentinel !in eventOf
      && tree.repr <= eventOf.Keys + {tree.sentinel}
      && (forall n | n in eventOf :: eventOf[n].timer == n)
      && (forall n | n in eventOf :: eventOf[n].timerSet <==> n in tree.repr)
    }

    ghost predicate Mine(ev: Event) {
      ev.timer in eventOf && eventOf[ev.timer] == ev
    }

    /** Every pending deadline lies within one half of the circle from `base` on, in order. */
    ghost predicate InOrderFrom(base: Key)
      reads tree`shape, tree`repr, tree.repr`key
    {
      Ordered(tree.Nodes(), tree.Keys(), ByTimer, base)
    }

    method DeleteNode(n: Node) returns (ghost k: nat)
      requires tree.Valid() && n in tree.Nodes()
      modifies tree`root, tree`shape, tree`repr
      modifies tree.repr`left, tree.repr`right, tree.repr`parent, tree.repr`red, n`key
      ensures tree.Valid() && tree.repr == old(tree.repr) - {n} && TakenOut(old(tree.Nodes()), k, n, tree.Nodes())
      ensures tree.Keys() == old(tree.Keys()) - {n}
    {
      hide Tree.Valid, TakenOut;
      k := tree.Delete(n);
    }

    method TakeOut(ev: Event) returns (ghost k: nat)
      requires Valid() && Mine(ev) && ev.timerSet
      modifies tree`root, tree`shape, tree`repr
      modifies tree.repr`left, tree.repr`right, tree.repr`parent, tree.repr`red, ev.timer`key, ev`timerSet
      ensures Valid() && !ev.timerSet && tree.repr == old(tree.repr) - {ev.timer}
      ensures TakenOut(old(tree.Nodes()), k, ev.timer, tree.Nodes())
      ensures tree.Keys() == old(tree.Keys()) - {ev.timer}
    {
      hide Tree.Valid;
      Pending();
      k := DeleteNode(ev.timer);
      ev.timerSet := false;
    }

    /** `ngx_event_del_timer` */
    method DelTimer(ev: Event, ghost base: Key) returns (ghost k: nat)
      requires Valid() && Mine(ev) && ev.timerSet
      modifies tree`root, tree`shape, tree`repr
      modifies tree.repr`left, tree.repr`right, tree.repr`parent, tree.repr`red, ev.timer`key, ev`timerSet
      ensures Valid() && !ev.timerSet && tree.repr == old(tree.repr) - {ev.timer}
      ensures TakenOut(old(tree.Nodes()), k, ev.timer, tree.Nodes())
      ensures old(InOrderFrom(base)) ==> InOrderFrom(base)
      ensures tree.Keys() == old(tree.Keys()) - {ev.timer}
    {
      hide TakenOut;
      InOrderElements(tree.shape);
      ghost var s, key := tree.Nodes(), tree.Keys();
      k := TakeOut(ev);
      if Ordered(s, key, ByTimer, base) {
        InOrderElements(tree.shape);
        TakenOutOrdered(s, k, ev.timer, tree.Nodes(), key, tree.Keys(), ByTimer, base);
      }
    }

    /** The second half of `ngx_event_add_timer`: the event is in no tree and gets a new deadline. */
    method StartTimer(ev: Event, key: Key, ghost base: Key) returns (ghost k: nat)
      requires Valid() && Mine(ev) && !ev.timerSet
      modifies tree`root, tree`shape, tree`repr, tree.repr`left, tree.repr`right, tree.repr`parent
      modifies tree.repr`red
      modifies ev.timer`left, ev.timer`right, ev.timer`parent, ev.timer`red, ev.timer`key, ev`timerSet
      ensures Valid() && ev.timerSet && ev.timer.key == key && tree.repr == old(tree.repr) + {ev.timer}
      ensures k <= |old(tree.Nodes())|
      ensures tree.Nodes() == old(tree.Nodes())[..k] + [ev.timer] + old(tree.Nodes())[k..]
      ensures PlacedByKey(old(tree.Nodes())[..k], ev.timer, old(tree.Nodes())[k..], tree.Keys(), ByTimer, base)
      ensures old(InOrderFrom(base)) && InWindow(ByTimer, base, key) ==> InOrderFrom(base)
      ensures tree.Keys() == old(tree.Keys())[ev.timer := ev.timer.key]
    {
      hide Tree.Valid;
      k := tree.InsertKeyed(ev.timer, key, base);
      ev.timerSet := true;
    }

    /** The event has a deadline that is close enough to the new one to be kept. */
    ghost predicate Lazy(ev: Event, timer: Key)
      reads this`now, ev`timerSet, ev.timer`key
    {
      ev.timerSet && NgxAbs(Diff(Plus(now, timer), ev.timer.key)) < TIMER_LAZY_DELAY
    }

    /** `ngx_event_add_timer`; `others` are the pending nodes but for that of the event, in their order. */
    method AddTimer(ev: Event, timer: Key, ghost base: Key) returns (ghost k: nat, ghost others: seq<Node>)
      requires Valid() && Mine(ev)
      modifies tree`root, tree`shape, tree`repr, tree.repr`left, tree.repr`right, tree.repr`parent
      modifies tree.repr`red
      modifies ev.timer`left, ev.timer`right, ev.timer`parent, ev.timer`red, ev.timer`key, ev`timerSet
      ensures Valid() && ev.timerSet && tree.repr == old(tree.repr) + {ev.timer}
      // the event keeps its old deadline and its place, or takes the new one
      ensures ev.timer.key == if old(Lazy(ev, timer)) then old(ev.timer.key) else Plus(now, timer)
      ensures !old(Lazy(ev, timer)) ==> Minus(ev.timer.key, now) == timer
      ensures old(Lazy(ev, timer)) ==> tree.Nodes() == old(tree.Nodes())
      // and with it the place behind all deadlines that are not later
      ensures !old(Lazy(ev, timer)) ==>
        && LeftOver(old(tree.Nodes()), old(ev.timerSet), ev.timer, others)
        && k <= |others| && tree.Nodes() == others[..k] + [ev.timer] + others[k..]
        && PlacedByKey(others[..k], ev.timer, others[k..], tree.Keys(), ByTimer, base)
      // its deadline is within the lazy delay, unless the old one was exactly half the circle away
      ensures -TIMER_LAZY_DELAY < Diff(Plus(now, timer), ev.timer.key) < TIMER_LAZY_DELAY <==>
        !(old(ev.timerSet) && Diff(Plus(now, timer), old(ev.timer.key)) == -TWO_TO_THE_63)
      ensures old(InOrderFrom(base)) && InWindow(ByTimer, base, Plus(now, timer)) ==> InOrderFrom(base)
      ensures tree.Keys() == old(tree.Keys())[ev.timer := ev.timer.key]
    {
      var key := Plus(now, timer);
      k, others := 0, [];
      PlusAdds(now, timer);
      KeepsOrTakes(ev.timerSet, key, ev.timer.key);
      if ev.timerSet {
        var diff := Diff(key, ev.timer.key);
        if NgxAbs(diff) < TIMER_LAZY_DELAY {
          return;
        }
      }
      k, others := SetAnew(ev, key, base);
    }

    /** The rest of it: the event leaves the tree if it is in it, and goes to its new place. */
    method SetAnew(ev: Event, key: Key, ghost base: Key) returns (ghost k: nat, ghost others: seq<Node>)
      requires Valid() && Mine(ev)
      modifies tree`root, tree`shape, tree`repr, tree.repr`left, tree.repr`right, tree.repr`parent
      modifies tree.repr`red
      modifies ev.timer`left, ev.timer`right, ev.timer`parent, ev.timer`red, ev.timer`key, ev`timerSet
      ensures Valid() && ev.timerSet && ev.timer.key == key && tree.repr == old(tree.repr) + {ev.timer}
      ensures LeftOver(old(tree.Nodes()), old(ev.timerSet), ev.timer, others)
      ensures k <= |others| && tree.Nodes() == others[..k] + [ev.timer] + others[k..]
      ensures PlacedByKey(others[..k], ev.timer, others[k..], tree.Keys(), ByTimer, base)
      ensures old(InOrderFrom(base)) && InWindow(ByTimer, base, key) ==> InOrderFrom(base)
      ensures tree.Keys() == old(tree.Keys())[ev.timer := ev.timer.key]
    {
      hide Tree.Valid, PlacedByKey, Ordered;
      if ev.timerSet {
        ghost var _ := DelTimer(ev, base);
      }
      others := tree.Nodes();
      k := StartTimer(ev, key, base);
    }

    /** How far the deadline that is kept or taken is from the one asked for. */
    lemma KeepsOrTakes(isSet: bool, key: Key, oldKey: Key)
      ensures var kept := if isSet && NgxAbs(Diff(key, oldKey)) < TIMER_LAZY_DELAY then oldKey else key;
              -TIMER_LAZY_DELAY < Diff(key, kept) < TIMER_LAZY_DELAY
              <==> !(isSet && Diff(key, oldKey) == -TWO_TO_THE_63)
    {
    }

    /** `s` without `n`, if `n` was in it. */
    ghost predicate LeftOver(s: seq<Node>, isIn: bool, n: Node, s': seq<Node>) {
      if isIn then exists j :: TakenOut(s, j, n, s') else s' == s
    }

    /** The pending nodes come in the order of their deadlines, equal ones in the order in which the deadlines
        were set; all were set before the time `t`. */
    ghost predicate Aged(age: AgeMap, t: nat, base: Key)
      reads tree`shape, tree`repr, tree.repr`key
    {
      && OrderedByAge(tree.Nodes(), tree.Keys(), age, ByTimer, base)
      && forall n | n in tree.Nodes() :: n in age && age[n] < t
    }

    /** Setting a deadline at the time `t`: within a window the event goes behind those with an equal deadline. */
    method AddLast(ev: Event, timer: Key, ghost base: Key, ghost age: AgeMap, ghost t: nat) returns (ghost age': AgeMap)
      requires Valid() && Mine(ev) && Aged(age, t, base) && InWindow(ByTimer, base, Plus(now, timer))
      modifies tree`root, tree`shape, tree`repr, tree.repr`left, tree.repr`right, tree.repr`parent
      modifies tree.repr`red
      modifies ev.timer`left, ev.timer`right, ev.timer`parent, ev.timer`red, ev.timer`key, ev`timerSet
      ensures Valid() && ev.timerSet && Aged(age', t + 1, base)
      ensures age' == if old(Lazy(ev, timer)) then age else age[ev.timer := t]
    {
      hide Tree.Valid, PlacedByKey, LeftOver, OrderedByAge;
      ghost var s, key, wasSet, lazy := tree.Nodes(), tree.Keys(), ev.timerSet, Lazy(ev, timer);
      Pending();
      ghost var k, others;
      k, others := AddTimer(ev, timer, base);
      if lazy {
        age' := age;
        KeysKept(s, key, tree.Keys(), age, base);
      } else {
        age' := age[ev.timer := t];
        LeftOverByAge(s, wasSet, ev.timer, others, key, tree.Keys(), age, base);
        PlacedLast(others, k, ev.timer, tree.Keys(), tree.Keys(), age, t, ByTimer, base);
      }
    }

    /** The nodes of the tree are those of the events that are set, each once. */
    lemma Pending()
      requires Valid()
      ensures forall i, j | 0 <= i < j < |tree.Nodes()| :: tree.Nodes()[i] != tree.Nodes()[j]
      ensures forall n | n in eventOf :: n in tree.Nodes() <==> eventOf[n].timerSet
      ensures forall n | n in tree.Nodes() :: n in eventOf && n in tree.repr
    {
      InOrderElements(tree.shape);
      OrderDistinct(tree.shape);
    }

    lemma KeysKept(s: seq<Node>, key: KeyMap, key': KeyMap, age: AgeMap, base: Key)
      requires OrderedByAge(s, key, age, ByTimer, base)
      requires forall x | x in s :: x in key && x in key' && key'[x] == key[x]
      ensures OrderedByAge(s, key', age, ByTimer, base)
    {
      forall i, j | 0 <= i < j < |s|
        ensures Earlier(s[i], s[j], key', age, ByTimer, base)
      {
        assert Earlier(s[i], s[j], key, age, ByTimer, base);
      }
    }

    lemma LeftOverByAge(s: seq<Node>, isIn: bool, n: Node, s': seq<Node>, key: KeyMap, key': KeyMap, age: AgeMap,
                        base: Key)
      requires OrderedByAge(s, key, age, ByTimer, base) && LeftOver(s, isIn, n, s') && (isIn <==> n in s)
      requires forall i, j | 0 <= i < j < |s| :: s[i] != s[j]
      requires forall x | x in s && x != n :: x in key && x in key' && key'[x] == key[x]
      ensures n !in s' && (forall x | x in s' :: x in s) && OrderedByAge(s', key', age, ByTimer, base)
    {
      if isIn {
        var j :| TakenOut(s, j, n, s');
        assert forall i | 0 <= i < |s'| :: s'[i] == s[if i < j then i else i + 1];
        TakenOutByAge(s, j, n, s', key, key', age, ByTimer, base);
      } else {
        KeysKept(s, key, key', age, base);
      }
    }

    /** `ngx_event_find_timer`: how long to wait for the first deadline of the tree; within a window
        no deadline comes sooner. */
    method FindTimer(ghost base: Key) returns (wait: Key)
      requires Valid()
      ensures tree.Nodes() == [] ==> wait == TIMER_INFINITE
      ensures tree.Nodes() != [] ==>
        var d := Diff(tree.Nodes()[0].key, now); wait == if d > 0 then d else 0
      ensures InOrderFrom(base) && InWindow(ByTimer, base, now) ==>
        forall n | n in tree.Nodes() :: wait == 0 || wait <= Diff(n.key, now)
    {
      if tree.root == tree.sentinel {
        return TIMER_INFINITE;
      }
      var node := tree.Minimum();
      var timer := Diff(node.key, now);
      wait := if timer > 0 then timer else 0;
      if InOrderFrom(base) && InWindow(ByTimer, base, now) {
        InOrderElements(tree.shape);
        SoonestFirst(tree.Nodes(), tree.Keys(), base);
      }
    }

    lemma SoonestFirst(s: seq<Node>, key: KeyMap, base: Key)
      requires s != [] && Ordered(s, key, ByTimer, base) && InWindow(ByTimer, base, now)
      ensures forall n | n in s :: n in key && Diff(key[s[0]], now) <= Diff(key[n], now)
    {
      forall i | 0 <= i < |s|
        ensures Diff(key[s[0]], now) <= Diff(key[s[i]], now)
      {
        LessIsRank(ByTimer, base, key[s[0]], now);
        LessIsRank(ByTimer, base, key[s[i]], now);
      }
    }

    ghost function TimedOut(): set<Node>
      reads eventOf.Values`timedout
    {
      set n | n in eventOf && eventOf[n].timedout
    }

    /** The first event leaves the tree and is marked as timed out. */
    method ExpireFirst(ev: Event)
      requires Valid() && Mine(ev) && ev.timerSet && tree.Nodes() != [] && ev.timer == tree.Nodes()[0]
      modifies tree`root, tree`shape, tree`repr
      modifies tree.repr`left, tree.repr`right, tree.repr`parent, tree.repr`red
      modifies ev.timer`key, ev`timerSet, ev`timedout
      ensures Valid() && tree.Nodes() == old(tree.Nodes())[1..] && tree.repr == old(tree.repr) - {ev.timer}
      ensures tree.Keys() == old(tree.Keys()) - {ev.timer}
      ensures TimedOut() == old(TimedOut()) + {ev.timer} && !ev.timerSet && ev.timedout
    {
      hide TakenOut, Tree.Keys;
      ghost var t := tree.shape;
      ghost var k := DelTimer(ev, 0);
      FirstTakenOut(t, k, tree.Nodes());
      MarkTimedOut(ev);
    }

    method MarkTimedOut(ev: Event)
      requires Valid() && Mine(ev)
      modifies ev`timedout
      ensures Valid() && ev.timedout && TimedOut() == old(TimedOut()) + {ev.timer}
    {
      ev.timedout := true;
    }

    /** The events of the first nodes of `s`. */
    ghost predicate EventsOf(fired: seq<Event>, s: seq<Node>) {
      |fired| <= |s| && forall i | 0 <= i < |fired| :: s[i] in eventOf && fired[i] == eventOf[s[i]]
    }

    /** Where the loop stands: the events of some first nodes of `s` have fired. */
    ghost predicate Expiring(fired: seq<Event>, s: seq<Node>, key: KeyMap, before: set<Node>)
      reads this, tree, tree.repr, eventOf.Values
    {
      && Valid() && EventsOf(fired, s)
      && tree.Nodes() == s[|fired|..]
      && (forall n | n in tree.repr :: n in key && n.key == key[n])
      && DueUpTo(s, key, |fired|)
      && TimedOut() == before + set n | n in s[..|fired|]
    }

    /** One turn of the loop: false if the first deadline is still to come. */
    method ExpireNext(fired: seq<Event>, ghost s: seq<Node>, ghost key: KeyMap, ghost before: set<Node>)
      returns (ok: bool, fired': seq<Event>)
      requires Expiring(fired, s, key, before) && tree.root != tree.sentinel
      modifies tree`root, tree`shape, tree`repr
      modifies tree.repr`left, tree.repr`right, tree.repr`parent, tree.repr`red, tree.repr`key
      modifies eventOf.Values`timerSet, eventOf.Values`timedout
      ensures Expiring(fired', s, key, before) && tree.repr <= old(tree.repr)
      ensures if ok then |fired'| == |fired| + 1 <= |s|
              else fired' == fired && |fired| < |s| && s[|fired|] in key && Diff(key[s[|fired|]], now) > 0
    {
      var node := tree.Minimum();
      InOrderElements(tree.shape);
      assert node in NodeSet(tree.shape);
      if Diff(node.key, now) > 0 {
        return false, fired;
      }
      var ev := eventOf[node];
      Fire(ev, fired, s, key, before);
      return true, fired + [ev];
    }

    method Fire(ev: Event, ghost fired: seq<Event>, ghost s: seq<Node>, ghost key: KeyMap, ghost before: set<Node>)
      requires Expiring(fired, s, key, before) && tree.Nodes() != [] && |fired| < |s| && s[|fired|] == ev.timer
      requires Mine(ev) && ev.timerSet && Diff(ev.timer.key, now) <= 0
      modifies tree`root, tree`shape, tree`repr
      modifies tree.repr`left, tree.repr`right, tree.repr`parent, tree.repr`red, tree.repr`key
      modifies ev`timerSet, ev`timedout
      ensures Expiring(fired + [ev], s, key, before) && tree.repr <= old(tree.repr)
    {
      hide Tree.Valid;
      ExpireFirst(ev);
      assert s[..|fired| + 1] == s[..|fired|] + [ev.timer];
    }

    /** `ngx_event_expire_timers`, with handlers that leave the timers alone: the events fire in the
        order of the tree, up to the first deadline that is still to come; within a window, exactly
        those fire whose deadline has come. */
    method ExpireTimers() returns (fired: seq<Event>)
      requires Valid()
      modifies tree`root, tree`shape, tree`repr
      modifies tree.repr`left, tree.repr`right, tree.repr`parent, tree.repr`red, tree.repr`key
      modifies eventOf.Values`timerSet, eventOf.Values`timedout
      ensures Expiring(fired, old(tree.Nodes()), old(tree.Keys()), old(TimedOut()))
      ensures forall base | old(InOrderFrom(base)) && InWindow(ByTimer, base, now) ::
        ExactlyDue(old(tree.Nodes()), old(tree.Keys()), |fired|)
    {
      fired := [];
      ghost var s, key, before := tree.Nodes(), tree.Keys(), TimedOut();
      while tree.root != tree.sentinel
        invariant Expiring(fired, s, key, before) && tree.repr <= old(tree.repr)
        decreases |s| - |fired|
      {
        var ok;
        ok, fired := ExpireNext(fired, s, key, before);
        if !ok {
          DueAreExact(s, key, |fired|);
          return;
        }
      }
      assert |fired| == |s|;
      DueAreExact(s, key, |fired|);
    }

    /** Of two events that fire, the one with the earlier deadline fires first; of two with equal deadlines,
        the one whose deadline was set first. */
    method ExpireByAge(ghost base: Key, ghost age: AgeMap, ghost t: nat) returns (fired: seq<Event>)
      requires Valid() && Aged(age, t, base)
      modifies tree`root, tree`shape, tree`repr
      modifies tree.repr`left, tree.repr`right, tree.repr`parent, tree.repr`red, tree.repr`key
      modifies eventOf.Values`timerSet, eventOf.Values`timedout
      ensures Expiring(fired, old(tree.Nodes()), old(tree.Keys()), old(TimedOut()))
      ensures forall i, j {:trigger fired[i], fired[j]} | 0 <= i < j < |fired| ::
        Earlier(fired[i].timer, fired[j].timer, old(tree.Keys()), age, ByTimer, base)
    {
      ghost var s, key := tree.Nodes(), tree.Keys();
      fired := ExpireTimers();
      forall i, j {:trigger fired[i], fired[j]} | 0 <= i < j < |fired|
        ensures Earlier(fired[i].timer, fired[j].timer, key, age, ByTimer, base)
      {
        assert Earlier(s[i], s[j], key, age, ByTimer, base);
      }
    }

    /** The first `k` deadlines have come. */
    ghost predicate DueUpTo(s: seq<Node>, key: KeyMap, k: nat)
      reads this`now
    {
      forall i | 0 <= i < k && i < |s| :: s[i] in key && Diff(key[s[i]], now) <= 0
    }

    /** The first `k` deadlines have come, and no other. */
    ghost predicate ExactlyDue(s: seq<Node>, key: KeyMap, k: nat)
      reads this`now
    {
      forall i | 0 <= i < |s| :: s[i] in key && (i < k <==> Diff(key[s[i]], now) <= 0)
    }

    lemma DueAreExact(s: seq<Node>, key: KeyMap, k: nat)
      requires k <= |s| && DueUpTo(s, key, k)
      requires k < |s| ==> s[k] in key && Diff(key[s[k]], now) > 0
      ensures forall base | Ordered(s, key, ByTimer, base) && InWindow(ByTimer, base, now) :: ExactlyDue(s, key, k)
    {
      forall base | Ordered(s, key, ByTimer, base) && InWindow(ByTimer, base, now)
        ensures ExactlyDue(s, key, k)
      {
        forall i | k <= i < |s|
          ensures Diff(key[s[i]], now) > 0
        {
          LessIsRank(ByTimer, base, key[s[k]], now);
          LessIsRank(ByTimer, base, key[s[i]], now);
        }
      }
    }

    /** `ngx_event_no_timers_left`: true stands for NGX_OK. */
    method NoTimersLeft() returns (ok: bool)
      requires Valid()
      ensures ok <==> forall n | n in tree.Nodes() :: n in eventOf && eventOf[n].cancelable
    {
      InOrderElements(tree.shape);
      if tree.root == tree.sentinel {
        return true;
      }
      var node: Node? := tree.Minimum();
      ghost var k := 0;
      while node != null
        invariant k <= |tree.Nodes()|
        invariant node == if k < |tree.Nodes()| then tree.Nodes()[k] else null
        invariant forall i | 0 <= i < k :: tree.Nodes()[i] in eventOf && eventOf[tree.Nodes()[i]].cancelable
        decreases |tree.Nodes()| - k
      {
        assert node in NodeSet(tree.shape);
        var ev := eventOf[node];
        if !ev.cancelable {
          return false;
        }
        node := tree.Next(node, k);
        k := k + 1;
      }
      return true;
    }
  }
}
