/** The code that publishes messages and the code that reads them, on the shared records. */
module MessageProcesses {
  import opened MessageRing

  /** What `ngx_create_shared_memory` sets up. */
  class Shared {
    const records: array<Record>
    const next: array<nat>
    var index: nat
    var nextId: nat

    /** Every record is followed by the next one, and the last by the first. */
    ghost predicate Linked()
      reads next
    {
      records.Length == next.Length == N && forall i | 0 <= i < N :: next[i] == (i + 1) % N
    }

    ghost function View(): Ring
      reads this, records
    {
      Ring(records[..], index, nextId)
    }

    /** `ngx_create_shared_memory` */
    constructor ()
      ensures Linked() && View() == Start(0).ring && fresh(records) && fresh(next)
    {
      records := new Record[N](_ => Record(0, 0, []));
      next := new nat[N](_ => 0);
      index, nextId := 0, 1;
      new;
      var i, m := N, 0;
      while true
        invariant 0 < i <= N && m == i % N
        invariant forall j | i <= j < N :: next[j] == (j + 1) % N
        invariant View() == Start(0).ring
        decreases i
      {
        i := i - 1;
        next[i] := m;

        m := i;
        if i == 0 {
          break;
        }
      }
    }

    /** Lines 310 to 321 of `ngx_process_cycle.c`. */
    method PublishOne(text: Text)
      requires records.Length == N && index < N
      modifies this, records
      ensures View() == Publish(old(View()), text)
    {
      records[index] := Record(nextId, 1, text);

      nextId := nextId + 1;
      index := index + 1;

      if index == N {
        index := 0;
      }
    }
  }

  /** The reading side; `inbox` stands for what the sockets were given. */
  class Reader {
    var position: nat
    var idSent: nat
    var inbox: map<nat, seq<Delivery>>
    ghost var taken: seq<nat>

    /** `ngx_websocket_init` */
    constructor ()
      ensures View(Idle) == Start(1).workers[0]
    {
      position, idSent := 0, 0;
      inbox, taken := map[], [];
    }

    ghost function View(phase: Phase): Worker
      reads this
    {
      Worker(position, idSent, phase, taken, inbox)
    }

    /** The loop over the connections of a channel. */
    method SendToAll(shared: Shared, connections: seq<nat>)
      requires position < shared.records.Length
      modifies this`inbox
      ensures View(Sending([])) == SendRest(shared.View(), old(View(Sending(connections))))
    {
      var i := 0;
      while i < |connections|
        invariant i <= |connections|
        invariant SendRest(shared.View(), View(Sending(connections[i..])))
               == SendRest(shared.View(), old(View(Sending(connections))))
      {
        SendOne(shared, connections[i], connections[i..]);
        assert connections[i..][1..] == connections[i + 1..];
        i := i + 1;
      }
    }

    /** `ngx_websocket_message_handler`, in effect: the socket gets what the record holds now. */
    method SendOne(shared: Shared, c: nat, ghost rest: seq<nat>)
      requires position < shared.records.Length && rest != [] && rest[0] == c
      modifies this`inbox
      ensures View(Sending(rest[1..])) == Send(shared.View(), old(View(Sending(rest))))
    {
      var m := shared.records[position];
      var received := if c in inbox then inbox[c] else [];
      inbox := inbox[c := received + [Delivery(m.id, m.text)]];
    }

    /** The last two assignments of the loop. */
    method Advance(shared: Shared)
      requires shared.Linked() && position < N
      modifies this`position, this`idSent, this`taken
      ensures View(Idle) == Finish(shared.View(), old(View(Sending([]))))
    {
      taken := taken + [shared.records[position].id];
      idSent := shared.records[position].id;
      position := shared.next[position];
    }

    /** One iteration of the loop of `ngx_websocket_process_messages`. */
    method TakeOne(shared: Shared, channels: map<nat, seq<nat>>)
      requires shared.Linked() && position < N
      modifies this
      ensures var channel := shared.records[old(position)].channel;
              View(Idle) == RoundOf(shared.View(), old(View(Idle)),
                                    if channel in channels then channels[channel] else [])
    {
      var channel := shared.records[position].channel;
      SendRestDone(shared.View(), Begin(View(Idle), if channel in channels then channels[channel] else []));
      if channel in channels {
        SendToAll(shared, channels[channel]);
      }
      Advance(shared);
    }

    /** `ngx_websocket_process_messages`, while nothing is published. */
    method ProcessMessages(shared: Shared, channels: map<nat, seq<nat>>, ghost h: seq<Text>)
      requires shared.Linked() && WorkerOk(shared.View(), h, View(Idle))
      requires forall ch | ch in channels :: NoRepeats(channels[ch])
      modifies this
      ensures WorkerOk(shared.View(), h, View(Idle)) && idSent == |h|
      ensures old(idSent) < |h| ==>
        var first := First(shared.View(), h, old(idSent));
        old(idSent) < first && Sent(h, old(View(Idle)), View(Idle), channels, first, |h|)
      ensures old(idSent) == |h| ==> View(Idle) == old(View(Idle))
    {
      ghost var r, w0 := shared.View(), View(Idle);
      ReadsNewest(|h|, idSent);
      ghost var first := First(r, h, idSent);
      while shared.records[position].id > idSent
        invariant WorkerOk(r, h, View(Idle))
        invariant View(Idle) == w0
               || (w0.idSent < first <= idSent && |h| - idSent < N && Sent(h, w0, View(Idle), channels, first, idSent))
        decreases |h| - idSent
      {
        ghost var w := View(Idle);
        StepForward(r, h, w0, w, channels, first);
        TakeOne(shared, channels);
      }
      ReadsNewest(|h|, idSent);
    }
  }

  // ---------- the same loop, while the producer goes on ----------

  /** A run of steps from a start is what the code has done since. */
  ghost predicate IsRun(s: System, steps: seq<Step>, ring: Ring, h: seq<Text>, w: Worker) {
    && SystemOk(s) && StepsOk(steps)
    && RunFrom(s, steps) == System(ring, h, [w])
  }

  /** Where the steps that the code takes may write and read. */
  lemma RunInside(s: System, steps: seq<Step>, ring: Ring, h: seq<Text>, w: Worker)
    requires IsRun(s, steps, ring, h, w)
    ensures |ring.records| == N && ring.index < N && w.position < N
  {
    RunIsOk(s, steps, ring, h, w);
  }

  lemma RunGoesOn(s: System, steps: seq<Step>, ring: Ring, h: seq<Text>, w: Worker, step: Step)
    requires IsRun(s, steps, ring, h, w) && StepOk(step)
    ensures RingOk(ring, h) && WorkerOk(ring, h, w)
    ensures var s' := Apply(System(ring, h, [w]), step);
            |s'.workers| == 1 && IsRun(s, steps + [step], s'.ring, s'.h, s'.workers[0])
  {
    hide RunFrom, WorkerOk, IdAt, Publish, Begin, Send, Finish;
    OneMoreStep(s, steps, step);
    RunIsOk(s, steps, ring, h, w);
    var s' := Apply(System(ring, h, [w]), step);
    assert s'.workers == [s'.workers[0]];
  }

  lemma RunIsOk(s: System, steps: seq<Step>, ring: Ring, h: seq<Text>, w: Worker)
    requires IsRun(s, steps, ring, h, w)
    ensures RingOk(ring, h) && WorkerOk(ring, h, w)
  {
    hide RunFrom, RingOk, WorkerOk;
    assert RunFrom(s, steps).workers[0] == w;
  }

  /** From `before` on, every message is sent to these connections. */
  ghost predicate Begins(steps: seq<Step>, before: seq<Step>, connections: seq<nat>) {
    && before <= steps
    && forall k | |before| <= k < |steps| && steps[k].Beginning? :: steps[k] == Beginning(0, connections)
  }

  /** The connections of the channel of all messages. */
  ghost function Audience(channels: map<nat, seq<nat>>): seq<nat> {
    if 1 in channels then channels[1] else []
  }

  /** A worker and the shared records, with the steps of both processes since the start `from`. */
  class Amid {
    const shared: Shared
    const reader: Reader
    ghost const from: System
    ghost var steps: seq<Step>
    ghost var h: seq<Text>

    constructor (shared: Shared, reader: Reader, ghost h: seq<Text>)
      requires WorkerOk(shared.View(), h, reader.View(Idle)) && shared.Linked()
      ensures this.shared == shared && this.reader == reader && this.h == h && fresh(this)
      ensures from == System(shared.View(), h, [reader.View(Idle)]) && steps == [] && Valid(Idle)
    {
      this.shared, this.reader, this.h, steps := shared, reader, h, [];
      from := System(shared.View(), h, [reader.View(Idle)]);
    }

    ghost predicate Valid(phase: Phase)
      reads this, shared, shared.records, shared.next, reader
    {
      shared.Linked() && IsRun(from, steps, shared.View(), h, reader.View(phase))
    }

    /** Between two statements of the worker the producer publishes some messages. */
    method Meanwhile(texts: seq<Text>, ghost phase: Phase, ghost connections: seq<nat>)
      requires Valid(phase)
      modifies this, shared, shared.records
      ensures Valid(phase) && h == old(h) + texts && Begins(steps, old(steps), connections)
    {
      hide IsRun;
      for i := 0 to |texts|
        invariant Valid(phase) && h == old(h) + texts[..i] && Begins(steps, old(steps), connections)
      {
        RunInside(from, steps, shared.View(), h, reader.View(phase));
        RunGoesOn(from, steps, shared.View(), h, reader.View(phase), Publishing(texts[i]));
        shared.PublishOne(texts[i]);
        steps, h := steps + [Publishing(texts[i])], h + [texts[i]];
      }
    }

    /** What it publishes next, if anything. */
    method Pause(pauses: seq<seq<Text>>, ghost phase: Phase, ghost connections: seq<nat>)
      returns (rest: seq<seq<Text>>)
      requires Valid(phase)
      modifies this, shared, shared.records
      ensures Begins(steps, old(steps), connections)
      ensures Valid(phase) && h + Flat(rest) == old(h) + Flat(pauses)
      ensures |rest| <= |pauses| && (pauses != [] ==> |rest| < |pauses|) && (pauses == [] ==> h == old(h))
    {
      hide IsRun;
      if pauses == [] {
        return [];
      }
      Meanwhile(pauses[0], phase, connections);
      rest := pauses[1..];
    }

    method SendNext(c: nat, ghost left: seq<nat>, ghost connections: seq<nat>)
      requires Valid(Sending(left)) && left != [] && left[0] == c
      modifies this`steps, reader`inbox
      ensures Valid(Sending(left[1..])) && Begins(steps, old(steps), connections)
    {
      hide IsRun, RingOk, WorkerOk;
      RunInside(from, steps, shared.View(), h, reader.View(Sending(left)));
      RunGoesOn(from, steps, shared.View(), h, reader.View(Sending(left)), SendingOne(0));
      reader.SendOne(shared, c, left);
      steps := steps + [SendingOne(0)];
    }

    /** The loop over the connections of a channel. */
    method SendToAll(connections: seq<nat>, pauses: seq<seq<Text>>) returns (rest: seq<seq<Text>>)
      requires Valid(Sending(connections))
      modifies this, shared, shared.records, reader`inbox
      ensures Begins(steps, old(steps), connections)
      ensures Valid(Sending([])) && h + Flat(rest) == old(h) + Flat(pauses)
      ensures |rest| <= |pauses| && (pauses == [] ==> h == old(h))
    {
      hide IsRun;
      rest := pauses;
      var i := 0;
      while i < |connections|
        invariant i <= |connections| && Valid(Sending(connections[i..])) && Begins(steps, old(steps), connections)
        invariant h + Flat(rest) == old(h) + Flat(pauses)
        invariant |rest| <= |pauses| && (pauses == [] ==> h == old(h))
      {
        rest := Pause(rest, Sending(connections[i..]), connections);
        SendNext(connections[i], connections[i..], connections);
        assert connections[i..][1..] == connections[i + 1..];
        i := i + 1;
      }
      assert connections[i..] == [];
    }

    /** What the loop condition found stays true, and the channel is that of all messages. */
    lemma Found(phase: Phase)
      requires Valid(phase)
      ensures RingOk(shared.View(), h) && reader.position == reader.idSent % N && reader.idSent <= |h|
      ensures shared.records[reader.position].id > reader.idSent <==> reader.idSent < |h|
      ensures reader.idSent < |h| ==> shared.records[reader.position].channel == 1
      ensures phase.Sending? ==> reader.idSent < |h|
    {
      RunIsOk(from, steps, shared.View(), h, reader.View(phase));
      ReadsNewest(|h|, reader.idSent);
    }

    /** One iteration of the loop. */
    method TakeOne(channels: map<nat, seq<nat>>, pauses: seq<seq<Text>>) returns (rest: seq<seq<Text>>)
      requires Valid(Idle) && reader.idSent < |h| && forall ch | ch in channels :: NoRepeats(channels[ch])
      modifies this, shared, shared.records, reader
      ensures Valid(Idle) && h + Flat(rest) == old(h) + Flat(pauses) && Begins(steps, old(steps), Audience(channels))
      ensures |rest| <= |pauses| && (pauses != [] ==> |rest| < |pauses|) && (pauses == [] ==> h == old(h))
      ensures reader.idSent > old(reader.idSent)
    {
      hide IsRun, RingOk;
      ghost var connections := Audience(channels);
      Begin(connections);
      rest := Pause(pauses, Sending(connections), connections);
      Found(Sending(connections));
      RunInside(from, steps, shared.View(), h, reader.View(Sending(connections)));
      var channel := shared.records[reader.position].channel;
      if channel in channels {
        rest := SendToAll(channels[channel], rest);
      }
      rest := Pause(rest, Sending([]), connections);
      End(connections);
    }

    /** The loop condition holds. */
    ghost method Begin(connections: seq<nat>)
      requires Valid(Idle) && reader.idSent < |h| && NoRepeats(connections)
      modifies this`steps
      ensures Valid(Sending(connections)) && Begins(steps, old(steps), connections)
    {
      Found(Idle);
      RunGoesOn(from, steps, shared.View(), h, reader.View(Idle), Beginning(0, connections));
      steps := steps + [Beginning(0, connections)];
    }

    /** The last two assignments of the loop. */
    method End(ghost connections: seq<nat>)
      requires Valid(Sending([]))
      modifies this`steps, reader
      ensures Valid(Idle) && reader.idSent > old(reader.idSent) && Begins(steps, old(steps), connections)
    {
      hide IsRun, RingOk, IdAt;
      Found(Sending([]));
      RunInside(from, steps, shared.View(), h, reader.View(Sending([])));
      RunGoesOn(from, steps, shared.View(), h, reader.View(Sending([])), Finishing(0));
      reader.Advance(shared);
      steps := steps + [Finishing(0)];
    }

    /** `ngx_websocket_process_messages`, with anything published between any two of its statements: what it does
        is a run of the steps, each message being sent to the connections of channel 1, and it ends with everything
        read that has been published by then. */
    method ProcessMessages(channels: map<nat, seq<nat>>, pauses: seq<seq<Text>>) returns (rest: seq<seq<Text>>)
      requires Valid(Idle) && forall ch | ch in channels :: NoRepeats(channels[ch])
      modifies this, shared, shared.records, reader
      ensures Valid(Idle) && h + Flat(rest) == old(h) + Flat(pauses) && Begins(steps, old(steps), Audience(channels))
      ensures reader.idSent == |h|
      ensures forall c :: Delivered(h, Inbox(reader.View(Idle), c), |h|)
      ensures forall c | c in Audience(channels) && old(Stayed(c)) && AlwaysClose(from, steps, 0) ::
        Inbox(reader.View(Idle), c) == Messages(h, 1, |h|)
    {
      hide IsRun, RingOk;
      rest := pauses;
      Found(Idle);
      RunInside(from, steps, shared.View(), h, reader.View(Idle));
      while shared.records[reader.position].id > reader.idSent
        invariant Valid(Idle) && h + Flat(rest) == old(h) + Flat(pauses)
        invariant Begins(steps, old(steps), Audience(channels))
        invariant shared.records.Length == N && reader.position < N && reader.idSent <= |h|
        invariant shared.records[reader.position].id > reader.idSent <==> reader.idSent < |h|
        decreases |rest|, |h| - reader.idSent
      {
        rest := TakeOne(channels, rest);
        rest := Pause(rest, Idle, Audience(channels));
        Found(Idle);
        RunInside(from, steps, shared.View(), h, reader.View(Idle));
      }
      RunIsOk(from, steps, shared.View(), h, reader.View(Idle));
      GotEverything(old(steps), Audience(channels));
    }

    /** The connection has been in the channel since the start, and had got everything then. */
    ghost predicate Stayed(c: nat)
      reads this
    {
      Subscribed(steps, 0, c) && GotAll(from, 0, c)
    }

    lemma GotEverything(before: seq<Step>, connections: seq<nat>)
      requires Valid(Idle) && reader.idSent == |h| && Begins(steps, before, connections)
      ensures forall c |
        c in connections && Subscribed(before, 0, c) && GotAll(from, 0, c) && AlwaysClose(from, steps, 0) ::
        Inbox(reader.View(Idle), c) == Messages(h, 1, |h|)
    {
      forall c | c in connections && Subscribed(before, 0, c) && GotAll(from, 0, c) && AlwaysClose(from, steps, 0)
        ensures Inbox(reader.View(Idle), c) == Messages(h, 1, |h|)
      {
        StillSubscribed(steps, before, connections, c);
        NothingLost(from, steps, 0, c);
        assert RunFrom(from, steps).workers[0] == reader.View(Idle);
      }
    }
  }

  lemma StillSubscribed(steps: seq<Step>, before: seq<Step>, connections: seq<nat>, c: nat)
    requires Begins(steps, before, connections) && Subscribed(before, 0, c) && c in connections
    ensures Subscribed(steps, 0, c)
  {
    forall k | 0 <= k < |steps| && steps[k].Beginning? && steps[k].worker == 0
      ensures c in steps[k].connections
    {
      if k < |before| {
        assert before[k] == steps[k];
      }
    }
  }

  /** All that is published, one pause after the other. */
  function Flat(pauses: seq<seq<Text>>): seq<Text> {
    if pauses == [] then [] else pauses[0] + Flat(pauses[1..])
  }

  // ---------- one round of the loop ----------

  ghost function RoundOf(r: Ring, w: Worker, connections: seq<nat>): (w': Worker)
    requires w.position < |r.records|
    ensures w'.phase == Idle
  {
    SendRestDone(r, Begin(w, connections));
    Finish(r, SendRest(r, Begin(w, connections)))
  }

  lemma {:induction false} SendRestDone(r: Ring, w: Worker)
    requires w.phase.Sending? && w.position < |r.records|
    ensures CanFinish(r, SendRest(r, w))
    decreases |w.phase.rest|
  {
    if w.phase.rest != [] {
      SendRestDone(r, Send(r, w));
    }
  }

  lemma RoundKeeps(r: Ring, h: seq<Text>, w: Worker, connections: seq<nat>)
    requires WorkerOk(r, h, w) && CanBegin(r, w) && NoRepeats(connections)
    ensures WorkerOk(r, h, RoundOf(r, w, connections))
  {
    BeginKeeps(r, h, w, connections);
    SendRestSends(r, h, Begin(w, connections), 0);
    FinishKeeps(r, h, SendRest(r, Begin(w, connections)));
  }

  lemma RoundTakes(r: Ring, h: seq<Text>, w: Worker, connections: seq<nat>)
    requires WorkerOk(r, h, w) && CanBegin(r, w) && NoRepeats(connections)
    ensures var w', m := RoundOf(r, w, connections), r.records[w.position];
            w'.idSent == m.id && w.idSent < m.id && m.channel == 1 && IsMessage(h, m.id, m.text)
  {
    BeginKeeps(r, h, w, connections);
    SendRestSends(r, h, Begin(w, connections), 0);
  }

  lemma RoundSends(r: Ring, h: seq<Text>, w: Worker, connections: seq<nat>, c: nat)
    requires WorkerOk(r, h, w) && CanBegin(r, w) && NoRepeats(connections)
    ensures var m := r.records[w.position];
            Inbox(RoundOf(r, w, connections), c)
            == Inbox(w, c) + if c in connections then [Delivery(m.id, m.text)] else []
  {
    hide WorkerOk;
    BeginKeeps(r, h, w, connections);
    SendRestSends(r, h, Begin(w, connections), c);
  }

  /** Every connection of the queue of channel 1 was sent the messages from `first` to `last`, the others nothing. */
  ghost predicate Sent(h: seq<Text>, w: Worker, w': Worker, channels: map<nat, seq<nat>>, first: nat, last: nat)
    requires 0 < first && last <= |h|
  {
    forall c :: Inbox(w', c) == Inbox(w, c) + if 1 in channels && c in channels[1] then Messages(h, first, last) else []
  }

  lemma RoundSent(r: Ring, h: seq<Text>, w: Worker, channels: map<nat, seq<nat>>)
    requires WorkerOk(r, h, w) && CanBegin(r, w) && forall ch | ch in channels :: NoRepeats(channels[ch])
    ensures 0 < r.records[w.position].id <= |h|
    ensures var id := r.records[w.position].id;
            Sent(h, w, RoundOf(r, w, if 1 in channels then channels[1] else []), channels, id, id)
  {
    hide WorkerOk, RoundOf;
    var connections, id := if 1 in channels then channels[1] else [], r.records[w.position].id;
    RoundTakes(r, h, w, connections);
    assert Messages(h, id, id) == [Delivery(id, h[id - 1])];
    forall c
      ensures Inbox(RoundOf(r, w, connections), c)
           == Inbox(w, c) + if 1 in channels && c in channels[1] then Messages(h, id, id) else []
    {
      RoundSends(r, h, w, connections, c);
    }
  }

  lemma SentTwice(h: seq<Text>, w: Worker, w1: Worker, w2: Worker, channels: map<nat, seq<nat>>, first: nat, last: nat)
    requires 0 < first <= last < |h|
    requires Sent(h, w, w1, channels, first, last) && Sent(h, w1, w2, channels, last + 1, last + 1)
    ensures Sent(h, w, w2, channels, first, last + 1)
  {
    assert Messages(h, last + 1, last + 1) == [Delivery(last + 1, h[last])];
    forall c
      ensures Inbox(w2, c)
           == Inbox(w, c) + if 1 in channels && c in channels[1] then Messages(h, first, last + 1) else []
    {
      assert Inbox(w1, c) == Inbox(w, c) + if 1 in channels && c in channels[1] then Messages(h, first, last) else [];
    }
  }

  lemma StepIds(r: Ring, h: seq<Text>, w: Worker, connections: seq<nat>)
    requires WorkerOk(r, h, w) && CanBegin(r, w) && NoRepeats(connections)
    ensures var w' := RoundOf(r, w, connections);
            && w'.idSent == First(r, h, w.idSent) && w.idSent < w'.idSent <= |h| && |h| - w'.idSent < N
            && (|h| - w.idSent < N ==> w'.idSent == w.idSent + 1)
  {
    RoundTakes(r, h, w, connections);
    TakesNewest(|h|, w.idSent);
  }

  /** One more iteration of the loop. */
  lemma StepForward(r: Ring, h: seq<Text>, w0: Worker, w: Worker, channels: map<nat, seq<nat>>, first: nat)
    requires WorkerOk(r, h, w) && CanBegin(r, w) && forall ch | ch in channels :: NoRepeats(channels[ch])
    requires RingOk(r, h) && first == First(r, h, w0.idSent)
    requires w == w0
             || (w0.idSent < first <= w.idSent && |h| - w.idSent < N && Sent(h, w0, w, channels, first, w.idSent))
    ensures r.records[w.position].channel == 1
    ensures var w' := RoundOf(r, w, if 1 in channels then channels[1] else []);
            && WorkerOk(r, h, w') && w.idSent < w'.idSent <= |h| && |h| - w'.idSent < N
            && w0.idSent < first <= w'.idSent && Sent(h, w0, w', channels, first, w'.idSent)
  {
    var connections := if 1 in channels then channels[1] else [];
    RoundKeeps(r, h, w, connections);
    StepIds(r, h, w, connections);
    RoundTakes(r, h, w, connections);
    RoundSent(r, h, w, channels);
    JoinSent(h, w0, w, RoundOf(r, w, connections), channels, first, First(r, h, w.idSent));
  }

  lemma JoinSent(h: seq<Text>, w0: Worker, w: Worker, w': Worker, channels: map<nat, seq<nat>>, first: nat, id: nat)
    requires 0 < id <= |h| && Sent(h, w, w', channels, id, id)
    requires (w == w0 && first == id)
             || (0 < first <= w.idSent && id == w.idSent + 1 && Sent(h, w0, w, channels, first, w.idSent))
    ensures 0 < first <= id && Sent(h, w0, w', channels, first, id)
  {
    hide Sent;
    if !(w == w0 && first == id) {
      SentTwice(h, w0, w, w', channels, first, w.idSent);
    }
  }

  /** After one message a worker is less than `N` behind. */
  lemma TakesNewest(m: nat, sent: nat)
    requires sent < m
    ensures var id := IdAt(m, sent % N); m - id < N && (m - sent < N ==> id == sent + 1)
  {
    ReadsNewest(m, sent);
  }
}
