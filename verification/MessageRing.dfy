/** The ring of messages that the message process publishes and every worker reads, with the steps of
    all processes interleaved. */
module MessageRing {
  /** `NGX_WEBSOCKET_MESSAGE_N` */
  const N: nat := 1024

  type Text = seq<bv8>

  datatype Record = Record(id: nat, channel: nat, text: Text)

  /** `ngx_messages`, `ngx_message_index` and `ngx_message_id` */
  datatype Ring = Ring(records: seq<Record>, index: nat, nextId: nat)

  /** The publish sequence of `ngx_process_websocket_messages`. */
  function Publish(r: Ring, text: Text): Ring
    requires r.index < |r.records|
  {
    Ring(r.records[r.index := Record(r.nextId, 1, text)],
         if r.index + 1 == N then 0 else r.index + 1,
         r.nextId + 1)
  }

  /** The id in slot `p` when `m` messages have been published: the last of those that went there. */
  function IdAt(m: nat, p: nat): nat
    requires p < N
  {
    if m <= p then 0 else m - (m - 1 - p) % N
  }

  lemma IdAtNext(m: nat, p: nat)
    requires p < N
    ensures IdAt(m + 1, p) == if p == m % N then m + 1 else IdAt(m, p)
  {
    if m > p {
      var q, r := (m - 1 - p) / N, (m - 1 - p) % N;
      assert m - 1 - p == N * q + r;
      if r + 1 == N {
        assert (m - p) % N == 0 by {
          assert m - p == N * (q + 1);
        }
        assert m % N == p by {
          assert m == N * (q + 1) + p;
        }
      } else {
        assert (m - p) % N == r + 1;
        assert m % N != p by {
          assert m == N * (m / N) + m % N;
        }
      }
    }
  }

  /** What a reader finds that has read up to `sent`: something newer exactly if there is something. */
  lemma ReadsNewest(m: nat, sent: nat)
    requires sent <= m
    ensures var id := IdAt(m, sent % N);
            (id > sent <==> m > sent) && id <= m
            && (m > sent ==> id == sent + 1 + N * ((m - 1 - sent) / N))
  {
    var p := sent % N;
    assert sent == N * (sent / N) + p;
    if m > sent {
      var q, r := (m - 1 - sent) / N, (m - 1 - sent) % N;
      assert m - 1 - sent == N * q + r;
      assert (m - 1 - p) % N == r by {
        assert m - 1 - p == N * (q + sent / N) + r;
      }
    } else if m > p {
      assert (m - 1 - p) % N == N - 1 by {
        assert m - 1 - p == N * (sent / N - 1) + N - 1;
      }
    }
  }

  /** `h` are the texts published so far; the message with number `id` is `h[id - 1]`. */
  ghost predicate IsMessage(h: seq<Text>, id: nat, text: Text) {
    1 <= id <= |h| && text == h[id - 1]
  }

  ghost predicate RingOk(r: Ring, h: seq<Text>) {
    && |r.records| == N && r.nextId == |h| + 1 && r.index == |h| % N
    && (forall p | 0 <= p < N :: r.records[p].id == IdAt(|h|, p))
    && (forall p | 0 <= p < N && r.records[p].id > 0 ::
          r.records[p].channel == 1 && IsMessage(h, r.records[p].id, r.records[p].text))
  }

  lemma NextIndex(m: nat)
    ensures (m + 1) % N == if m % N + 1 == N then 0 else m % N + 1
  {
  }

  lemma PublishOk(r: Ring, h: seq<Text>, text: Text)
    requires RingOk(r, h)
    ensures RingOk(Publish(r, text), h + [text])
  {
    hide IdAt;
    var r', h' := Publish(r, text), h + [text];
    NextIndex(|h|);
    forall p | 0 <= p < N
      ensures r'.records[p].id == IdAt(|h'|, p)
    {
      IdAtNext(|h|, p);
    }
    forall p | 0 <= p < N && r'.records[p].id > 0
      ensures IsMessage(h', r'.records[p].id, r'.records[p].text)
    {
      if p != |h| % N {
        assert IsMessage(h, r.records[p].id, r.records[p].text);
      }
    }
  }

  // ---------- a worker ----------

  datatype Delivery = Delivery(id: nat, text: Text)

  /** Between two messages, or in the loop over the connections of the channel. */
  datatype Phase = Idle | Sending(rest: seq<nat>)

  /** `ngx_websocket_message_send` and `ngx_websocket_message_id_sent`; `taken` are the values that the
      latter has had, and `inbox` is what each connection was sent. */
  datatype Worker = Worker(position: nat, idSent: nat, phase: Phase, taken: seq<nat>, inbox: map<nat, seq<Delivery>>)

  function Inbox(w: Worker, c: nat): seq<Delivery> {
    if c in w.inbox then w.inbox[c] else []
  }

  predicate CanBegin(r: Ring, w: Worker) {
    w.phase.Idle? && w.position < |r.records| && r.records[w.position].id > w.idSent
  }

  /** The loop condition held; `connections` are those of the channel, none if the table knows no such channel. */
  function Begin(w: Worker, connections: seq<nat>): Worker {
    w.(phase := Sending(connections))
  }

  predicate CanSend(r: Ring, w: Worker) {
    w.phase.Sending? && w.phase.rest != [] && w.position < |r.records|
  }

  /** `ngx_websocket_message_handler` sends what the record holds now. */
  function Send(r: Ring, w: Worker): Worker
    requires CanSend(r, w)
  {
    var c, m := w.phase.rest[0], r.records[w.position];
    w.(phase := Sending(w.phase.rest[1..]), inbox := w.inbox[c := Inbox(w, c) + [Delivery(m.id, m.text)]])
  }

  predicate CanFinish(r: Ring, w: Worker) {
    w.phase.Sending? && w.phase.rest == [] && w.position < |r.records|
  }

  /** The last two assignments of the loop. */
  function Finish(r: Ring, w: Worker): Worker
    requires CanFinish(r, w)
  {
    var id := r.records[w.position].id;
    w.(idSent := id, position := (w.position + 1) % N, phase := Idle, taken := w.taken + [id])
  }

  // ---------- what every worker keeps ----------

  ghost predicate NoRepeats(s: seq<nat>) {
    forall i, j | 0 <= i < j < |s| :: s[i] != s[j]
  }

  /** Deliveries in increasing order of id, none above `limit`, each with the text of its id. */
  ghost predicate Delivered(h: seq<Text>, d: seq<Delivery>, limit: nat) {
    && (forall i, j | 0 <= i < j < |d| :: d[i].id < d[j].id)
    && (forall i | 0 <= i < |d| :: d[i].id <= limit && IsMessage(h, d[i].id, d[i].text))
  }

  /** How new the messages sent to connection `c` can be. */
  ghost function Limit(r: Ring, w: Worker, c: nat): nat
    requires w.position < |r.records|
  {
    if w.phase.Idle? || c in w.phase.rest then w.idSent else r.records[w.position].id
  }

  /** The values of `ngx_websocket_message_id_sent`: each a multiple of `N` beyond the one after its predecessor. */
  ghost predicate TakenOk(taken: seq<nat>, idSent: nat) {
    && idSent == Before(taken, |taken|)
    && forall i: nat | i < |taken| :: FollowsAt(taken, i)
  }

  function Before(taken: seq<nat>, i: nat): nat
    requires i <= |taken|
  {
    if i == 0 then 0 else taken[i - 1]
  }

  /** A value is its predecessor's, plus one, plus a multiple of `N`. */
  ghost predicate Follows(x: nat, y: nat) {
    y > x && (y - x - 1) % N == 0
  }

  ghost predicate FollowsAt(taken: seq<nat>, i: nat) {
    i < |taken| && Follows(Before(taken, i), taken[i])
  }

  ghost predicate WorkerOk(r: Ring, h: seq<Text>, w: Worker) {
    && RingOk(r, h)
    && w.position == w.idSent % N && w.idSent <= |h|
    && TakenOk(w.taken, w.idSent)
    && (w.phase.Sending? ==> w.idSent < |h| && NoRepeats(w.phase.rest))
    && forall c :: Delivered(h, Inbox(w, c), Limit(r, w, c))
  }

  /** A worker does not notice that messages are published, except that the next one may be newer. */
  lemma PublishKeeps(r: Ring, h: seq<Text>, w: Worker, text: Text)
    requires WorkerOk(r, h, w)
    ensures WorkerOk(Publish(r, text), h + [text], w)
  {
    PublishOk(r, h, text);
    var r', h' := Publish(r, text), h + [text];
    IdAtNext(|h|, w.position);
    forall c
      ensures Delivered(h', Inbox(w, c), Limit(r', w, c))
    {
      assert Delivered(h, Inbox(w, c), Limit(r, w, c));
    }
  }

  /** `id_sent` changes by one plus a multiple of `N`, and by exactly one if the producer is at most `N` ahead. */
  lemma FinishSkips(r: Ring, h: seq<Text>, w: Worker)
    requires WorkerOk(r, h, w) && CanFinish(r, w)
    ensures Finish(r, w).idSent == w.idSent + 1 + N * ((|h| - 1 - w.idSent) / N)
    ensures Finish(r, w).idSent == w.idSent + 1 <==> |h| - w.idSent <= N
  {
    ReadsNewest(|h|, w.idSent);
  }

  lemma BeginKeeps(r: Ring, h: seq<Text>, w: Worker, connections: seq<nat>)
    requires WorkerOk(r, h, w) && CanBegin(r, w) && NoRepeats(connections)
    ensures WorkerOk(r, h, Begin(w, connections))
  {
    ReadsNewest(|h|, w.idSent);
    var w' := Begin(w, connections);
    forall c
      ensures Delivered(h, Inbox(w', c), Limit(r, w', c))
    {
      assert Delivered(h, Inbox(w, c), Limit(r, w, c));
    }
  }

  lemma OneMoreDelivered(h: seq<Text>, d: seq<Delivery>, limit: nat, m: Delivery)
    requires Delivered(h, d, limit) && limit < m.id && IsMessage(h, m.id, m.text)
    ensures Delivered(h, d + [m], m.id)
  {
  }

  lemma SendKeeps(r: Ring, h: seq<Text>, w: Worker)
    requires WorkerOk(r, h, w) && CanSend(r, w)
    ensures WorkerOk(r, h, Send(r, w))
  {
    ReadsNewest(|h|, w.idSent);
    var w', m := Send(r, w), r.records[w.position];
    assert IsMessage(h, m.id, m.text);
    forall c
      ensures Delivered(h, Inbox(w', c), Limit(r, w', c))
    {
      assert Delivered(h, Inbox(w, c), Limit(r, w, c));
      SendDelivers(r, h, w, c);
    }
    HeadGone(w.phase.rest, 0);
  }

  lemma SendDelivers(r: Ring, h: seq<Text>, w: Worker, c: nat)
    requires CanSend(r, w) && NoRepeats(w.phase.rest) && Delivered(h, Inbox(w, c), Limit(r, w, c))
    requires var m := r.records[w.position]; m.id > w.idSent && IsMessage(h, m.id, m.text)
    ensures Delivered(h, Inbox(Send(r, w), c), Limit(r, Send(r, w), c))
  {
    hide Delivered;
    var rest, m := w.phase.rest, r.records[w.position];
    HeadGone(rest, c);
    if c == rest[0] {
      OneMoreDelivered(h, Inbox(w, c), w.idSent, Delivery(m.id, m.text));
    }
  }

  lemma HeadGone(rest: seq<nat>, c: nat)
    requires rest != [] && NoRepeats(rest)
    ensures NoRepeats(rest[1..]) && (c in rest[1..] <==> c in rest && c != rest[0])
  {
    assert rest == [rest[0]] + rest[1..];
  }

  lemma OneMoreTaken(taken: seq<nat>, idSent: nat, id: nat)
    requires TakenOk(taken, idSent) && Follows(idSent, id)
    ensures TakenOk(taken + [id], id)
  {
    var taken' := taken + [id];
    forall i: nat | i < |taken'|
      ensures FollowsAt(taken', i)
    {
      if i < |taken| {
        assert FollowsAt(taken, i);
      }
    }
  }

  lemma FinishKeeps(r: Ring, h: seq<Text>, w: Worker)
    requires WorkerOk(r, h, w) && CanFinish(r, w)
    ensures WorkerOk(r, h, Finish(r, w))
  {
    ReadsNewest(|h|, w.idSent);
    FinishSkips(r, h, w);
    NextSlot(w.idSent, (|h| - 1 - w.idSent) / N);
    var w' := Finish(r, w);
    OneMoreTaken(w.taken, w.idSent, w'.idSent);
    forall c
      ensures Delivered(h, Inbox(w', c), Limit(r, w', c))
    {
      assert Delivered(h, Inbox(w, c), Limit(r, w, c));
    }
  }

  lemma NextSlot(sent: nat, k: nat)
    ensures (sent + 1 + N * k) % N == (sent % N + 1) % N
    ensures Follows(sent, sent + 1 + N * k)
  {
  }

  // ---------- runs ----------

  /** The message process and all workers; `h` is what has been published. */
  datatype System = System(ring: Ring, h: seq<Text>, workers: seq<Worker>)

  /** One step of one process; a step that is not possible changes nothing. */
  datatype Step =
    | Publishing(text: Text)
    | Beginning(worker: nat, connections: seq<nat>)
    | SendingOne(worker: nat)
    | Finishing(worker: nat)

  function Apply(s: System, step: Step): System
    requires s.ring.index < |s.ring.records|
  {
    match step
    case Publishing(text) => s.(ring := Publish(s.ring, text), h := s.h + [text])
    case Beginning(i, connections) =>
      if i < |s.workers| && CanBegin(s.ring, s.workers[i]) then
        s.(workers := s.workers[i := Begin(s.workers[i], connections)])
      else s
    case SendingOne(i) =>
      if i < |s.workers| && CanSend(s.ring, s.workers[i]) then
        s.(workers := s.workers[i := Send(s.ring, s.workers[i])])
      else s
    case Finishing(i) =>
      if i < |s.workers| && CanFinish(s.ring, s.workers[i]) then
        s.(workers := s.workers[i := Finish(s.ring, s.workers[i])])
      else s
  }

  /** A connection is in the queue of its channel once. */
  ghost predicate StepOk(step: Step) {
    step.Beginning? ==> NoRepeats(step.connections)
  }

  ghost predicate SystemOk(s: System) {
    RingOk(s.ring, s.h) && forall i | 0 <= i < |s.workers| :: WorkerOk(s.ring, s.h, s.workers[i])
  }

  /** `ngx_create_shared_memory` and `ngx_websocket_init` in `n` workers. */
  function Start(n: nat): System {
    System(Ring(seq(N, _ => Record(0, 0, [])), 0, 1), [], seq(n, _ => Worker(0, 0, Idle, [], map[])))
  }

  lemma StartOk(n: nat)
    ensures SystemOk(Start(n))
  {
  }

  lemma ApplyOk(s: System, step: Step)
    requires SystemOk(s) && StepOk(step)
    ensures SystemOk(Apply(s, step))
  {
    match step
    case Publishing(text) =>
      PublishOk(s.ring, s.h, text);
      forall i | 0 <= i < |s.workers|
        ensures WorkerOk(Publish(s.ring, text), s.h + [text], s.workers[i])
      {
        PublishKeeps(s.ring, s.h, s.workers[i], text);
      }
    case Beginning(i, connections) =>
      if i < |s.workers| && CanBegin(s.ring, s.workers[i]) {
        BeginKeeps(s.ring, s.h, s.workers[i], connections);
      }
    case SendingOne(i) =>
      if i < |s.workers| && CanSend(s.ring, s.workers[i]) {
        SendKeeps(s.ring, s.h, s.workers[i]);
      }
    case Finishing(i) =>
      if i < |s.workers| && CanFinish(s.ring, s.workers[i]) {
        FinishKeeps(s.ring, s.h, s.workers[i]);
      }
  }

  ghost predicate StepsOk(steps: seq<Step>) {
    forall k | 0 <= k < |steps| :: StepOk(steps[k])
  }

  /** The state after some steps, whatever their order. */
  ghost function RunFrom(s: System, steps: seq<Step>): (s': System)
    requires SystemOk(s) && StepsOk(steps)
    ensures SystemOk(s')
  {
    if steps == [] then s
    else
      var s' := RunFrom(s, steps[..|steps| - 1]);
      ApplyOk(s', steps[|steps| - 1]);
      Apply(s', steps[|steps| - 1])
  }

  lemma OneMoreStep(s: System, steps: seq<Step>, step: Step)
    requires SystemOk(s) && StepsOk(steps) && StepOk(step)
    ensures StepsOk(steps + [step]) && RunFrom(s, steps + [step]) == Apply(RunFrom(s, steps), step)
  {
    assert (steps + [step])[..|steps|] == steps;
  }

  /** The state after the steps of a run of `n` workers from the start. */
  ghost function Run(n: nat, steps: seq<Step>): (s: System)
    requires StepsOk(steps)
    ensures SystemOk(s)
  {
    StartOk(n);
    RunFrom(Start(n), steps)
  }

  lemma {:induction false} TakenIncreases(taken: seq<nat>, idSent: nat, i: nat, j: nat)
    requires TakenOk(taken, idSent) && i < j < |taken|
    ensures taken[i] < taken[j]
    decreases j
  {
    assert FollowsAt(taken, j);
    if i < j - 1 {
      TakenIncreases(taken, idSent, i, j - 1);
    }
  }

  /** The safety of every run, in one statement. */
  lemma RunIsSafe(n: nat, steps: seq<Step>, i: nat)
    requires StepsOk(steps) && i < |Run(n, steps).workers|
    ensures var s := Run(n, steps); var w := s.workers[i];
            && w.position == w.idSent % N && w.idSent <= |s.h|
            && (forall a, b | 0 <= a < b < |w.taken| :: w.taken[a] < w.taken[b])
            && (forall c, a, b | 0 <= a < b < |Inbox(w, c)| :: Inbox(w, c)[a].id < Inbox(w, c)[b].id)
            && (forall c, a | 0 <= a < |Inbox(w, c)| :: IsMessage(s.h, Inbox(w, c)[a].id, Inbox(w, c)[a].text))
  {
    var s := Run(n, steps);
    var w := s.workers[i];
    assert WorkerOk(s.ring, s.h, w);
    forall a, b | 0 <= a < b < |w.taken|
      ensures w.taken[a] < w.taken[b]
    {
      TakenIncreases(w.taken, w.idSent, a, b);
    }
    forall c
      ensures Delivered(s.h, Inbox(w, c), Limit(s.ring, w, c))
    {
    }
  }

  /** The worker is at most `N` messages behind. */
  ghost predicate Close(s: System, i: nat) {
    i < |s.workers| && |s.h| - s.workers[i].idSent <= N
  }

  /** So it is whenever the worker finishes a message. */
  ghost predicate FinishesClose(s: System, steps: seq<Step>, i: nat)
    requires SystemOk(s) && StepsOk(steps)
  {
    steps == [] ||
    (var before, last := steps[..|steps| - 1], steps[|steps| - 1];
     var s' := RunFrom(s, before);
     && FinishesClose(s, before, i)
     && (last == Finishing(i) && i < |s'.workers| && CanFinish(s'.ring, s'.workers[i]) ==> Close(s', i)))
  }

  /** So it is all the time. */
  ghost predicate AlwaysClose(s: System, steps: seq<Step>, i: nat)
    requires SystemOk(s) && StepsOk(steps)
  {
    Close(RunFrom(s, steps), i) && (steps == [] || AlwaysClose(s, steps[..|steps| - 1], i))
  }

  ghost predicate TakenAll(w: Worker) {
    |w.taken| == w.idSent && forall k | 0 <= k < |w.taken| :: w.taken[k] == k + 1
  }

  /** The ids taken are at least as large as their places. */
  lemma {:induction false} TakenCount(taken: seq<nat>, idSent: nat, k: nat)
    requires TakenOk(taken, idSent) && k <= |taken|
    ensures Before(taken, k) >= k && idSent - Before(taken, k) >= |taken| - k
    decreases |taken| - k
  {
    TakenAbove(taken, idSent, k);
    if k < |taken| {
      TakenCount(taken, idSent, k + 1);
      assert FollowsAt(taken, k);
    }
  }

  lemma {:induction false} TakenAbove(taken: seq<nat>, idSent: nat, k: nat)
    requires TakenOk(taken, idSent) && k <= |taken|
    ensures Before(taken, k) >= k
  {
    if k > 0 {
      TakenAbove(taken, idSent, k - 1);
      assert FollowsAt(taken, k - 1);
    }
  }

  /** So the last id tells whether all were taken. */
  lemma TakenAllCounts(w: Worker)
    requires TakenOk(w.taken, w.idSent)
    ensures |w.taken| <= w.idSent && (TakenAll(w) <==> |w.taken| == w.idSent)
  {
    TakenCount(w.taken, w.idSent, 0);
    forall k | 0 <= k < |w.taken| && |w.taken| == w.idSent
      ensures w.taken[k] == k + 1
    {
      TakenCount(w.taken, w.idSent, k + 1);
    }
  }

  lemma FinishTakesAll(r: Ring, h: seq<Text>, w: Worker)
    requires WorkerOk(r, h, w) && CanFinish(r, w)
    ensures TakenAll(Finish(r, w)) <==> TakenAll(w) && |h| - w.idSent <= N
  {
    FinishKeeps(r, h, w);
    FinishSkips(r, h, w);
    TakenAllCounts(w);
    TakenAllCounts(Finish(r, w));
  }

  lemma StepTakesAll(s: System, step: Step, i: nat)
    requires SystemOk(s) && i < |s.workers|
    ensures |Apply(s, step).workers| == |s.workers|
    ensures TakenAll(Apply(s, step).workers[i])
            <==> TakenAll(s.workers[i]) && (step == Finishing(i) && CanFinish(s.ring, s.workers[i]) ==> Close(s, i))
  {
    hide TakenAll;
    if step == Finishing(i) && CanFinish(s.ring, s.workers[i]) {
      FinishTakesAll(s.ring, s.h, s.workers[i]);
    } else {
      SameTaken(s, step, i);
    }
  }

  lemma SameTaken(s: System, step: Step, i: nat)
    requires s.ring.index < |s.ring.records| && i < |s.workers|
    requires !(step == Finishing(i) && CanFinish(s.ring, s.workers[i]))
    ensures |Apply(s, step).workers| == |s.workers|
    ensures TakenAll(Apply(s, step).workers[i]) <==> TakenAll(s.workers[i])
  {
    hide TakenAll;
    var w, w' := s.workers[i], Apply(s, step).workers[i];
    assert w'.taken == w.taken && w'.idSent == w.idSent;
    SameCount(w, w');
  }

  lemma SameCount(w: Worker, w': Worker)
    requires w'.taken == w.taken && w'.idSent == w.idSent
    ensures TakenAll(w') <==> TakenAll(w)
  {
  }

  /** A worker takes every message exactly if it is never more than `N` messages behind when it finishes one. */
  lemma {:induction false} NothingSkipped(s: System, steps: seq<Step>, i: nat)
    requires SystemOk(s) && StepsOk(steps) && i < |s.workers| && TakenAll(s.workers[i])
    ensures |RunFrom(s, steps).workers| == |s.workers|
    ensures TakenAll(RunFrom(s, steps).workers[i]) <==> FinishesClose(s, steps, i)
  {
    hide TakenAll, SystemOk, Apply, Close;
    if steps != [] {
      var before, last := steps[..|steps| - 1], steps[|steps| - 1];
      NothingSkipped(s, before, i);
      StepTakesAll(RunFrom(s, before), last, i);
    }
  }

  /** The messages numbered from `first` to `last`. */
  function Messages(h: seq<Text>, first: nat, last: nat): (d: seq<Delivery>)
    requires 0 < first && last <= |h|
    decreases last
  {
    if last < first then [] else Messages(h, first, last - 1) + [Delivery(last, h[last - 1])]
  }

  lemma {:induction false} MessagesStay(h: seq<Text>, text: Text, first: nat, last: nat)
    requires 0 < first && last <= |h|
    ensures Messages(h + [text], first, last) == Messages(h, first, last)
    decreases last
  {
    if first <= last {
      MessagesStay(h, text, first, last - 1);
    }
  }

  /** The connection is in the channel whenever worker `i` looks. */
  ghost predicate Subscribed(steps: seq<Step>, i: nat, c: nat) {
    forall k | 0 <= k < |steps| && steps[k].Beginning? && steps[k].worker == i :: c in steps[k].connections
  }

  /** How many messages the connection has been sent. */
  ghost function Received(w: Worker, c: nat): nat {
    if w.phase.Idle? || c in w.phase.rest then w.idSent else w.idSent + 1
  }

  /** It has been sent all messages in turn, each with its own text. */
  ghost predicate GotAll(s: System, i: nat, c: nat) {
    && i < |s.workers|
    && Received(s.workers[i], c) <= |s.h|
    && Inbox(s.workers[i], c) == Messages(s.h, 1, Received(s.workers[i], c))
  }

  /** A worker that is close finds the message after the last one it took. */
  lemma FindsNext(r: Ring, h: seq<Text>, sent: nat)
    requires RingOk(r, h) && sent < |h| <= sent + N
    ensures r.records[sent % N].id == sent + 1 && r.records[sent % N].text == h[sent]
  {
    ReadsNewest(|h|, sent);
    assert IsMessage(h, r.records[sent % N].id, r.records[sent % N].text);
  }

  lemma SendingGetsAll(s: System, i: nat, c: nat)
    requires SystemOk(s) && Close(s, i) && GotAll(s, i, c) && CanSend(s.ring, s.workers[i])
    ensures GotAll(Apply(s, SendingOne(i)), i, c)
  {
    hide RingOk, Delivered, TakenOk;
    var w := s.workers[i];
    assert WorkerOk(s.ring, s.h, w);
    FindsNext(s.ring, s.h, w.idSent);
    HeadGone(w.phase.rest, c);
  }

  lemma FinishingGetsAll(s: System, i: nat, c: nat)
    requires SystemOk(s) && Close(s, i) && GotAll(s, i, c) && CanFinish(s.ring, s.workers[i])
    ensures GotAll(Apply(s, Finishing(i)), i, c)
  {
    FinishSkips(s.ring, s.h, s.workers[i]);
  }

  lemma StepGetsAll(s: System, step: Step, i: nat, c: nat)
    requires SystemOk(s) && Close(s, i) && GotAll(s, i, c)
    requires step.Beginning? && step.worker == i ==> c in step.connections
    ensures GotAll(Apply(s, step), i, c)
  {
    match step
    case Publishing(text) => MessagesStay(s.h, text, 1, Received(s.workers[i], c));
    case Beginning(j, connections) =>
    case SendingOne(j) =>
      if i == j && CanSend(s.ring, s.workers[i]) {
        SendingGetsAll(s, i, c);
      }
    case Finishing(j) =>
      if i == j && CanFinish(s.ring, s.workers[i]) {
        FinishingGetsAll(s, i, c);
      }
  }

  /** If a worker is never more than `N` messages behind, every connection that stays in the channel is sent
      every message, in order and with its own text. */
  lemma {:induction false} NothingLost(s: System, steps: seq<Step>, i: nat, c: nat)
    requires SystemOk(s) && StepsOk(steps) && GotAll(s, i, c)
    requires AlwaysClose(s, steps, i) && Subscribed(steps, i, c)
    ensures GotAll(RunFrom(s, steps), i, c)
  {
    if steps != [] {
      var before, last := steps[..|steps| - 1], steps[|steps| - 1];
      NothingLost(s, before, i, c);
      StepGetsAll(RunFrom(s, before), last, i, c);
    }
  }

  /** At the start nothing is missing. */
  lemma StartHasAll(n: nat, i: nat, c: nat)
    requires i < n
    ensures SystemOk(Start(n)) && TakenAll(Start(n).workers[i]) && GotAll(Start(n), i, c)
  {
    StartOk(n);
  }

  // ---------- the loop of a worker, while nothing is published ----------

  /** The loop over the connections of the channel. */
  function SendRest(r: Ring, w: Worker): Worker
    requires w.phase.Sending? && w.position < |r.records|
    decreases |w.phase.rest|
  {
    if w.phase.rest == [] then w else SendRest(r, Send(r, w))
  }

  lemma {:induction false} SendRestSends(r: Ring, h: seq<Text>, w: Worker, c: nat)
    requires WorkerOk(r, h, w) && w.phase.Sending?
    ensures var w', m := SendRest(r, w), r.records[w.position];
            && WorkerOk(r, h, w') && CanFinish(r, w') && w'.idSent == w.idSent && w'.position == w.position
            && Inbox(w', c) == Inbox(w, c) + if c in w.phase.rest then [Delivery(m.id, m.text)] else []
    decreases |w.phase.rest|
  {
    var rest := w.phase.rest;
    if rest != [] {
      SendKeeps(r, h, w);
      SendRestSends(r, h, Send(r, w), c);
      HeadGone(rest, c);
    }
  }

  /** The message that a worker takes next. */
  function First(r: Ring, h: seq<Text>, idSent: nat): (id: nat)
    requires RingOk(r, h)
  {
    r.records[idSent % N].id
  }
}
