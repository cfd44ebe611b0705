/** ReadAudioData and WriteAudioData (audio_hal_interface/aidl/client_interface.cc): loops that
    drain or fill a message queue shared with the audio HAL, with a retry budget.  The other
    end of the queue is an environment that moves any number of bytes before each poll. */
module AidlAudioData {
  import opened Words

  type Byte = b: int | -128 <= b < 128

  const TIMEOUT_MS: nat := 10
  const POLL_INTERVAL_MS: nat := 1

  /** Why the loop ended. */
  datatype Stop = Complete | Starved | Fault | NoQueue

  function Least(a: nat, b: nat): nat {
    if a <= b then a else b
  }

  // ----- Reading -----

  /** The read loop between two polls: bytes read so far, the queue, the budget left, and how
      many polls have been made. */
  datatype Reading = Reading(data: seq<Byte>, queue: seq<Byte>, timeout: nat, polls: nat)

  datatype Polled = More(reading: Reading) | Done(reading: Reading, stop: Stop)

  /** What the environment does before each poll: the bytes the producer adds, whether the
      queue then is there and valid, and whether it refuses to be read. */
  datatype Producer = Producer(arrivals: nat -> seq<Byte>, valid: nat -> bool, faults: nat -> bool)

  /** One iteration of the read loop. */
  function PollRead(p: Reading, len: nat, env: Producer): (r: Polled)
    requires |p.data| < len
    ensures r.More? ==> |r.reading.data| < len
    ensures r.More? ==> len - |r.reading.data| + r.reading.timeout < len - |p.data| + p.timeout
  {
    var q := p.queue + env.arrivals(p.polls);
    if !env.valid(p.polls) then Done(Reading(p.data, q, p.timeout, p.polls + 1), NoQueue)
    else if q != [] then
      var n := Least(|q|, len - |p.data|);
      if env.faults(p.polls) then Done(Reading(p.data, q, p.timeout, p.polls + 1), Fault)
      else
        var next := Reading(p.data + q[..n], q[n..], p.timeout, p.polls + 1);
        if |next.data| < len then More(next) else Done(next, Complete)
    else if p.timeout >= POLL_INTERVAL_MS then
      More(Reading(p.data, q, p.timeout - POLL_INTERVAL_MS, p.polls + 1))
    else Done(Reading(p.data, q, p.timeout, p.polls + 1), Starved)
  }

  /** The read loop from here to its end. */
  function DrainFrom(p: Reading, len: nat, env: Producer): (r: Polled)
    requires |p.data| < len
    ensures r.Done?
    decreases len - |p.data| + p.timeout
  {
    var r := PollRead(p, len, env);
    if r.More? then DrainFrom(r.reading, len, env) else r
  }

  function Drain(queue: seq<Byte>, len: nat, env: Producer): (r: Polled)
    requires len > 0
    ensures r.Done?
  {
    DrainFrom(Reading([], queue, TIMEOUT_MS, 0), len, env)
  }

  /** Everything the producer adds before polls first, ..., limit - 1. */
  ghost function Arrived(arrivals: nat -> seq<Byte>, first: nat, limit: nat): seq<Byte>
    requires first <= limit
  {
    if first == limit then [] else Arrived(arrivals, first, limit - 1) + arrivals(limit - 1)
  }

  lemma Split(data: seq<Byte>, q: seq<Byte>, n: nat)
    requires n <= |q|
    ensures data + q == data + q[..n] + q[n..]
  {
    assert q == q[..n] + q[n..];
    assert data + (q[..n] + q[n..]) == data + q[..n] + q[n..];
  }

  lemma Regroup(a: seq<Byte>, b: seq<Byte>, c: seq<Byte>)
    ensures a + b + c == a + (b + c)
  {
  }

  /** One poll takes some bytes from the front of what is queued by then. */
  lemma PollTakes(p: Reading, len: nat, env: Producer) returns (q: seq<Byte>, n: nat)
    requires |p.data| < len
    ensures q == p.queue + env.arrivals(p.polls) && n <= |q| && n <= len - |p.data|
    ensures var r := PollRead(p, len, env);
            && r.reading.data == p.data + q[..n] && r.reading.queue == q[n..]
            && (r.Done? ==> (n == len - |p.data| <==> r.stop.Complete?))
            && r.reading.polls == p.polls + 1 && r.reading.timeout <= p.timeout
  {
    q := p.queue + env.arrivals(p.polls);
    if env.valid(p.polls) && q != [] && !env.faults(p.polls) {
      n := Least(|q|, len - |p.data|);
    } else {
      n := 0;
      assert p.data + q[..0] == p.data && q[0..] == q;
    }
  }

  /** One poll neither loses, duplicates nor reorders bytes. */
  lemma PollConserves(p: Reading, len: nat, env: Producer)
    requires |p.data| < len
    ensures var r := PollRead(p, len, env);
            && |r.reading.data| <= len
            && r.reading.data + r.reading.queue == p.data + p.queue + env.arrivals(p.polls)
            && (r.Done? ==> (|r.reading.data| == len <==> r.stop.Complete?))
            && r.reading.polls == p.polls + 1 && r.reading.timeout <= p.timeout
  {
    var q, n := PollTakes(p, len, env);
    Split(p.data, q, n);
    Regroup(p.data, p.queue, env.arrivals(p.polls));
  }

  /** A poll of a valid queue that does not refuse takes all it can: the request is complete or
      the queue is empty. */
  lemma PollDrains(p: Reading, len: nat, env: Producer)
    requires |p.data| < len && env.valid(p.polls) && !env.faults(p.polls)
    ensures var r := PollRead(p, len, env).reading; |r.data| == len || r.queue == []
  {
  }

  /** Nothing is lost, duplicated or reordered: what was queued, then what arrived, is what
      was read, then what is left.  The result never exceeds the request, and the number of
      polls is bounded by the request plus the budget. */
  lemma {:induction false} DrainConserves(start: seq<Byte>, p: Reading, len: nat, env: Producer)
    requires |p.data| < len && p.data + p.queue == start + Arrived(env.arrivals, 0, p.polls)
    ensures var r := DrainFrom(p, len, env);
            && p.polls < r.reading.polls <= p.polls + (len - |p.data|) + p.timeout + 1
            && r.reading.data + r.reading.queue == start + Arrived(env.arrivals, 0, r.reading.polls)
            && |r.reading.data| <= len && (|r.reading.data| == len <==> r.stop.Complete?)
    decreases len - |p.data| + p.timeout
  {
    var r := PollRead(p, len, env);
    PollConserves(p, len, env);
    assert start + Arrived(env.arrivals, 0, p.polls) + env.arrivals(p.polls)
        == start + Arrived(env.arrivals, 0, p.polls + 1);
    if r.More? {
      DrainConserves(start, r.reading, len, env);
    }
  }

  /** The loop gives up only after it has found the queue empty once more than the budget
      allows, and then it has read everything that had arrived; it stops early only at a
      poll that the queue refused, or where there was no valid queue. */
  lemma {:induction false} StopReasons(p: Reading, len: nat, env: Producer)
    requires |p.data| < len
    ensures var r := DrainFrom(p, len, env);
            && (r.stop.Starved? ==> r.reading.queue == [] && r.reading.polls >= p.polls + p.timeout + 1)
            && (r.stop.Fault? ==> r.reading.polls > 0 && env.faults(r.reading.polls - 1))
            && (r.stop.NoQueue? ==> r.reading.polls > 0 && !env.valid(r.reading.polls - 1))
    decreases len - |p.data| + p.timeout
  {
    var r := PollRead(p, len, env);
    if r.More? {
      StopReasons(r.reading, len, env);
    }
  }

  lemma {:induction false} ArrivedGrows(arrivals: nat -> seq<Byte>, a: nat, b: nat)
    requires a <= b
    ensures |Arrived(arrivals, 0, a)| <= |Arrived(arrivals, 0, b)|
  {
    if a < b {
      ArrivedGrows(arrivals, a, b - 1);
    }
  }

  /** If enough bytes are queued or arrive before the budget of polls is used up, and the
      queue never refuses, the request is served in full. */
  lemma TimelyDataServed(queue: seq<Byte>, len: nat, env: Producer)
    requires len > 0 && forall i :: env.valid(i) && !env.faults(i)
    requires |queue| + |Arrived(env.arrivals, 0, TIMEOUT_MS + 1)| >= len
    ensures Drain(queue, len, env).stop.Complete?
  {
    var p := Reading([], queue, TIMEOUT_MS, 0);
    var r := Drain(queue, len, env);
    assert [] + queue == queue + Arrived(env.arrivals, 0, 0);
    DrainConserves(queue, p, len, env);
    StopReasons(p, len, env);
    if r.stop.Starved? {
      ArrivedGrows(env.arrivals, TIMEOUT_MS + 1, r.reading.polls);
    }
  }

  /** A call of a session: a read, with whether the HAL has a provider and what the environment
      does during it, or
      ResetPresentationPosition, which zeroes the logged count. */
  datatype ReadCall = ReadCall(provider: bool, len: nat, env: Producer) | Reset

  /** `mark` is how much had been returned at the last reset. */
  datatype ReadLog = ReadLog(data: seq<Byte>, queue: seq<Byte>, written: seq<Byte>, logged: nat, mark: nat)

  /** One call: what it adds to the data returned, the queue it leaves, what the producer has
      written by then, and the byte count kept by LogBytesRead. */
  ghost function ReadNext(t: ReadLog, c: ReadCall): ReadLog {
    if c.Reset? then t.(logged := 0, mark := |t.data|)
    else if !c.provider || c.len == 0 then t
    else
      var r := Drain(t.queue, c.len, c.env).reading;
      t.(data := t.data + r.data, queue := r.queue, written := t.written + Arrived(c.env.arrivals, 0, r.polls),
         logged := Wrap(t.logged + |r.data|))
  }

  /** A session of calls on a new queue. */
  ghost function ReadAll(calls: seq<ReadCall>): ReadLog {
    if calls == [] then ReadLog([], [], [], 0, 0)
    else ReadNext(ReadAll(calls[..|calls| - 1]), calls[|calls| - 1])
  }

  /** The data returned is a prefix of what was written, the rest of which is still queued, and
      the logged count is the number of bytes returned since the last reset. */
  ghost predicate Accounted(t: ReadLog) {
    && t.written == t.data + t.queue && t.data <= t.written
    && t.mark <= |t.data| && t.logged == Wrap(|t.data| - t.mark)
  }

  /** Over every session: the concatenation of all reads is a prefix of what was written to
      the queue (the rest is still queued), and the logged count is the number of bytes
      returned since the last reset. */
  lemma {:induction false} ReadsArePrefix(calls: seq<ReadCall>)
    ensures Accounted(ReadAll(calls))
  {
    if calls != [] {
      ReadsArePrefix(calls[..|calls| - 1]);
      ReadAccounted(ReadAll(calls[..|calls| - 1]), calls[|calls| - 1]);
    }
  }

  /** However much was read before a reset, the logged count afterwards is the number of bytes
      returned by the calls that follow it. */
  lemma LoggedSinceReset(before: seq<ReadCall>, calls: seq<ReadCall>)
    requires forall c :: c in calls ==> c.ReadCall?
    ensures var t, u := ReadAll(before), ReadAll(before + [Reset] + calls);
            t.data <= u.data && u.logged == Wrap(|u.data| - |t.data|)
  {
    ReadsArePrefix(before + [Reset] + calls);
    MarkedAtReset(before, calls);
  }

  lemma {:induction false} MarkedAtReset(before: seq<ReadCall>, calls: seq<ReadCall>)
    requires forall c :: c in calls ==> c.ReadCall?
    ensures var t, u := ReadAll(before), ReadAll(before + [Reset] + calls);
            t.data <= u.data && u.mark == |t.data|
    decreases |calls|
  {
    if calls == [] {
      assert before + [Reset] + calls == before + [Reset];
      ReadAllSnoc(before, Reset);
    } else {
      var front, last := calls[..|calls| - 1], calls[|calls| - 1];
      assert last in calls;
      MarkedAtReset(before, front);
      assert before + [Reset] + calls == before + [Reset] + front + [last];
      ReadAllSnoc(before + [Reset] + front, last);
      assert ReadAll(before + [Reset] + front).data <= ReadNext(ReadAll(before + [Reset] + front), last).data;
    }
  }

  lemma ReadAccounted(t: ReadLog, c: ReadCall)
    requires Accounted(t)
    ensures Accounted(ReadNext(t, c))
  {
    if c.ReadCall? && c.provider && c.len > 0 {
      var r := Drain(t.queue, c.len, c.env).reading;
      assert [] + t.queue == t.queue + Arrived(c.env.arrivals, 0, 0);
      DrainConserves(t.queue, Reading([], t.queue, TIMEOUT_MS, 0), c.len, c.env);
      Rejoin(t.data, t.queue, Arrived(c.env.arrivals, 0, r.polls), r.data, r.queue);
      WrapAdd(|t.data| - t.mark, |r.data|);
    }
  }

  lemma ReadAllSnoc(calls: seq<ReadCall>, c: ReadCall)
    ensures ReadAll(calls + [c]) == ReadNext(ReadAll(calls), c) && ReadAll(calls).logged < TWO_TO_64
  {
    assert (calls + [c])[..|calls|] == calls;
    ReadsArePrefix(calls);
  }

  lemma Rejoin(read: seq<Byte>, queue: seq<Byte>, more: seq<Byte>, data: seq<Byte>, left: seq<Byte>)
    requires data + left == queue + more
    ensures read + queue + more == read + data + left
  {
    assert read + queue + more == read + (queue + more);
    assert read + (data + left) == read + data + left;
  }

  // ----- Writing -----

  /** The write loop between two polls: bytes queued so far, the queue, what the consumer has
      taken, the budget left, and how many polls have been made. */
  datatype Writing = Writing(count: nat, queue: seq<Byte>, taken: seq<Byte>, timeout: nat, polls: nat)

  datatype Offered = Again(writing: Writing) | Ended(writing: Writing, stop: Stop)

  /** Before each poll the consumer takes bytes from the front of the queue; the queue then is
      there and valid, or not, and may refuse to be written. */
  datatype Consumer = Consumer(takes: nat -> nat, valid: nat -> bool, faults: nat -> bool)

  /** The consumer's move before a poll. */
  function Consumed(w: Writing, env: Consumer): (r: Writing)
    ensures r.taken + r.queue == w.taken + w.queue && |r.queue| <= |w.queue|
  {
    var t := Least(env.takes(w.polls), |w.queue|);
    assert w.queue == w.queue[..t] + w.queue[t..];
    w.(queue := w.queue[t..], taken := w.taken + w.queue[..t], polls := w.polls + 1)
  }

  /** One iteration of the write loop, on a queue of fixed capacity. */
  function Offer(w: Writing, data: seq<Byte>, capacity: nat, valid: bool, refused: bool): (r: Offered)
    requires w.count < |data| && |w.queue| <= capacity
    ensures |r.writing.queue| <= capacity
    ensures r.Again? ==> r.writing.count < |data|
    ensures r.Again? ==> |data| - r.writing.count + r.writing.timeout < |data| - w.count + w.timeout
  {
    var space := capacity - |w.queue|;
    if !valid then Ended(w, NoQueue)
    else if space > 0 then
      var n := Least(space, |data| - w.count);
      if refused then Ended(w, Fault)
      else
        var next := w.(count := w.count + n, queue := w.queue + data[w.count..w.count + n]);
        if next.count < |data| then Again(next) else Ended(next, Complete)
    else if w.timeout >= POLL_INTERVAL_MS then Again(w.(timeout := w.timeout - POLL_INTERVAL_MS))
    else Ended(w, Starved)
  }

  function PollWrite(w: Writing, data: seq<Byte>, capacity: nat, env: Consumer): (r: Offered)
    requires w.count < |data| && |w.queue| <= capacity
    ensures r.Again? ==> r.writing.count < |data| && |r.writing.queue| <= capacity
    ensures r.Again? ==> |data| - r.writing.count + r.writing.timeout < |data| - w.count + w.timeout
  {
    Offer(Consumed(w, env), data, capacity, env.valid(w.polls), env.faults(w.polls))
  }

  function FillFrom(w: Writing, data: seq<Byte>, capacity: nat, env: Consumer): (r: Offered)
    requires w.count < |data| && |w.queue| <= capacity
    ensures r.Ended?
    decreases |data| - w.count + w.timeout
  {
    var r := PollWrite(w, data, capacity, env);
    if r.Again? then FillFrom(r.writing, data, capacity, env) else r
  }

  lemma OfferConserves(w: Writing, data: seq<Byte>, capacity: nat, valid: bool, refused: bool)
    requires w.count < |data| && |w.queue| <= capacity
    ensures var r := Offer(w, data, capacity, valid, refused);
            && w.count <= r.writing.count <= |data|
            && r.writing.taken + r.writing.queue == w.taken + w.queue + data[w.count..r.writing.count]
            && (r.Ended? ==> (r.writing.count == |data| <==> r.stop.Complete?))
            && (r.Ended? && r.stop.Starved? ==> |r.writing.queue| == capacity)
            && r.writing.polls == w.polls
  {
    var n := Least(capacity - |w.queue|, |data| - w.count);
    assert w.taken + (w.queue + data[w.count..w.count + n]) == w.taken + w.queue + data[w.count..w.count + n];
    assert w.taken + w.queue + data[w.count..w.count] == w.taken + w.queue;
  }

  /** A poll of a valid queue that does not refuse gives all it can: the buffer is written or the
      queue is full. */
  lemma OfferFills(w: Writing, data: seq<Byte>, capacity: nat, env: Consumer)
    requires w.count < |data| && |w.queue| <= capacity && env.valid(w.polls) && !env.faults(w.polls)
    ensures var r := PollWrite(w, data, capacity, env).writing; r.count == |data| || |r.queue| == capacity
  {
  }

  lemma Extend(start: seq<Byte>, data: seq<Byte>, a: nat, b: nat, x: seq<Byte>)
    requires a <= b <= |data| && x == start + data[..a]
    ensures x + data[a..b] == start + data[..b]
  {
    assert data[..a] + data[a..b] == data[..b];
    Regroup(start, data[..a], data[a..b]);
  }

  /** The mirror of DrainConserves: the consumer sees what was queued and then exactly the
      reported prefix of the data, in order; the loop is bounded, and when it gives up the
      queue is full. */
  lemma {:induction false} FillConserves(start: seq<Byte>, w: Writing, data: seq<Byte>, capacity: nat, env: Consumer)
    requires w.count < |data| && |w.queue| <= capacity && w.taken + w.queue == start + data[..w.count]
    ensures var r := FillFrom(w, data, capacity, env);
            && w.polls < r.writing.polls <= w.polls + (|data| - w.count) + w.timeout + 1
            && r.writing.count <= |data| && (r.writing.count == |data| <==> r.stop.Complete?)
            && r.writing.taken + r.writing.queue == start + data[..r.writing.count]
            && |r.writing.queue| <= capacity
            && (r.stop.Starved? ==> |r.writing.queue| == capacity)
    decreases |data| - w.count + w.timeout
  {
    var r := PollWrite(w, data, capacity, env);
    OfferConserves(Consumed(w, env), data, capacity, env.valid(w.polls), env.faults(w.polls));
    Extend(start, data, w.count, r.writing.count, w.taken + w.queue);
    if r.Again? {
      FillConserves(start, r.writing, data, capacity, env);
    }
  }

  /** Polls first, ..., n - 1 before which the consumer takes nothing. */
  ghost function IdlePolls(env: Consumer, n: nat): nat {
    if n == 0 then 0 else IdlePolls(env, n - 1) + if env.takes(n - 1) == 0 then 1 else 0
  }

  lemma {:induction false} IdleGrows(env: Consumer, m: nat, n: nat)
    requires m <= n
    ensures IdlePolls(env, m) <= IdlePolls(env, n)
  {
    if m < n {
      IdleGrows(env, m, n - 1);
    }
  }

  /** The write loop gives up only when it has found the queue full at more polls than the budget
      allows, each after the consumer took nothing; it ends early only at a poll that the queue
      refused, or where there was no valid queue. */
  lemma {:induction false} WriteStops(w: Writing, data: seq<Byte>, capacity: nat, env: Consumer)
    requires w.count < |data| && |w.queue| <= capacity && capacity > 0
    requires w.timeout <= TIMEOUT_MS && TIMEOUT_MS - w.timeout <= IdlePolls(env, w.polls)
    ensures var r := FillFrom(w, data, capacity, env);
            && (r.stop.Starved? ==> IdlePolls(env, r.writing.polls) > TIMEOUT_MS)
            && (r.stop.Fault? ==> r.writing.polls > 0 && env.faults(r.writing.polls - 1))
            && (r.stop.NoQueue? ==> r.writing.polls > 0 && !env.valid(r.writing.polls - 1))
    decreases |data| - w.count + w.timeout
  {
    var r := PollWrite(w, data, capacity, env);
    if r.Again? {
      WriteStops(r.writing, data, capacity, env);
    }
  }

  /** If the consumer takes something before all but ten of the polls, and the queue is there and
      never refuses, the whole buffer is written. */
  lemma TimelySpaceServed(queue: seq<Byte>, taken: seq<Byte>, data: seq<Byte>, capacity: nat, env: Consumer)
    requires data != [] && |queue| <= capacity && capacity > 0 && forall i :: env.valid(i) && !env.faults(i)
    requires IdlePolls(env, |data| + TIMEOUT_MS + 1) <= TIMEOUT_MS
    ensures var r := FillFrom(Writing(0, queue, taken, TIMEOUT_MS, 0), data, capacity, env);
            r.stop.Complete? && r.writing.count == |data|
  {
    var w := Writing(0, queue, taken, TIMEOUT_MS, 0);
    var r := FillFrom(w, data, capacity, env);
    WriteStops(w, data, capacity, env);
    assert taken + queue == taken + queue + data[..0];
    FillConserves(taken + queue, w, data, capacity, env);
    IdleGrows(env, r.writing.polls, |data| + TIMEOUT_MS + 1);
  }

  /** One write of a session: whether the HAL has a provider, the buffer, and what the consumer
      does during the call. */
  datatype WriteCall = WriteCall(provider: bool, data: seq<Byte>, env: Consumer)

  datatype WriteLog = WriteLog(reported: seq<Byte>, queue: seq<Byte>, taken: seq<Byte>)

  /** One call: the prefix reported as written, the queue left, and what the consumer has
      received. */
  ghost function WriteNext(t: WriteLog, c: WriteCall, capacity: nat): (r: WriteLog)
    requires |t.queue| <= capacity
    ensures |r.queue| <= capacity
  {
    if !c.provider || c.data == [] then t
    else
      var w := Writing(0, t.queue, t.taken, TIMEOUT_MS, 0);
      FillConserves(t.taken + t.queue, w, c.data, capacity, c.env);
      var r := FillFrom(w, c.data, capacity, c.env).writing;
      WriteLog(t.reported + c.data[..r.count], r.queue, r.taken)
  }

  /** A session of writes on a new queue. */
  ghost function WriteAll(calls: seq<WriteCall>, capacity: nat): (t: WriteLog)
    ensures |t.queue| <= capacity
  {
    if calls == [] then WriteLog([], [], [])
    else WriteNext(WriteAll(calls[..|calls| - 1], capacity), calls[|calls| - 1], capacity)
  }

  lemma WriteAllSnoc(calls: seq<WriteCall>, c: WriteCall, capacity: nat)
    ensures WriteAll(calls + [c], capacity) == WriteNext(WriteAll(calls, capacity), c, capacity)
  {
    assert (calls + [c])[..|calls|] == calls;
  }

  /** Over every session the consumer receives exactly the bytes reported as written, in
      order; those it has not received yet are still queued. */
  lemma {:induction false} WritesArrive(calls: seq<WriteCall>, capacity: nat)
    ensures var t := WriteAll(calls, capacity);
            t.reported == t.taken + t.queue && t.taken <= t.reported && |t.reported| <= |t.taken| + capacity
  {
    if calls != [] {
      var before, c := WriteAll(calls[..|calls| - 1], capacity), calls[|calls| - 1];
      WritesArrive(calls[..|calls| - 1], capacity);
      if c.provider && c.data != [] {
        var w := Writing(0, before.queue, before.taken, TIMEOUT_MS, 0);
        FillConserves(before.reported, w, c.data, capacity, c.env);
      }
    }
  }

  // ----- The loops as the source runs them -----

  class SinkClient {
    var provider: bool
    var queue: seq<Byte>
    var remoteDelay: nat     // with the next two, fields of the transport
    var totalBytesRead: nat
    var dataPosition: int    // a clock reading
    ghost var written: seq<Byte>
    ghost var returned: seq<Byte>
    ghost var mark: nat
    ghost var history: seq<ReadCall>

    /** The object is in the state that its history of calls leads to. */
    ghost predicate Reached()
      reads this
    {
      ReadAll(history) == Log()
    }

    constructor (provider: bool)
      ensures Reached() && history == [] && this.provider == provider
    {
      this.provider := provider;
      queue, remoteDelay, totalBytesRead, dataPosition := [], 0, 0, 0;
      written, returned, mark, history := [], [], 0, [];
    }

    /** ReadAudioData at clock reading `now`.  The result is the bytes stored into the
        caller's buffer. */
    method ReadAudioData(len: nat, env: Producer, now: int) returns (data: seq<Byte>)
      modifies this`queue, this`totalBytesRead, this`dataPosition
      ensures if provider && len > 0 then
                var r := Drain(old(queue), len, env).reading;
                data == r.data && queue == r.queue
              else data == [] && queue == old(queue)
      ensures totalBytesRead == if data == [] then old(totalBytesRead) else Wrap(old(totalBytesRead) + |data|)
      ensures dataPosition == if data == [] then old(dataPosition) else now
    {
      data := [];
      if !provider {
        return;
      }
      if len == 0 {
        return;
      }
      data := DrainQueue(len, env);
      LogBytesRead(|data|, now);
    }

    method LogBytesRead(bytesRead: nat, now: int)
      modifies this`totalBytesRead, this`dataPosition
      ensures totalBytesRead == if bytesRead == 0 then old(totalBytesRead) else Wrap(old(totalBytesRead) + bytesRead)
      ensures dataPosition == if bytesRead == 0 then old(dataPosition) else now
    {
      if bytesRead != 0 {
        totalBytesRead := Wrap(totalBytesRead + bytesRead);
        dataPosition := now;
      }
    }

    method ResetPresentationPosition()
      modifies this`remoteDelay, this`totalBytesRead, this`dataPosition
      ensures remoteDelay == 0 && totalBytesRead == 0 && dataPosition == 0
    {
      remoteDelay := 0;
      totalBytesRead := 0;
      dataPosition := 0;
    }

    /** The do-while loop. */
    method DrainQueue(len: nat, env: Producer) returns (data: seq<Byte>)
      requires len > 0
      modifies this`queue
      ensures var r := Drain(old(queue), len, env).reading; data == r.data && queue == r.queue
    {
      data := [];
      var timeout: nat := TIMEOUT_MS;
      var polls: nat := 0;
      var more := true;
      while more
        invariant if more then
                    && |data| < len
                    && DrainFrom(Reading(data, queue, timeout, polls), len, env) == Drain(old(queue), len, env)
                  else Drain(old(queue), len, env).reading == Reading(data, queue, timeout, polls)
        decreases more, len - |data| + timeout
      {
        data, timeout, more := PollOnce(data, timeout, polls, len, env);
        polls := polls + 1;
      }
    }

    /** The body of the loop; `more` is false after a break and when the request is complete. */
    method PollOnce(got: seq<Byte>, budget: nat, polls: nat, len: nat, env: Producer)
      returns (data: seq<Byte>, timeout: nat, more: bool)
      requires |got| < len
      modifies this`queue
      ensures var r := PollRead(Reading(got, old(queue), budget, polls), len, env);
              r.reading == Reading(data, queue, timeout, polls + 1) && more == r.More?
    {
      data, timeout, more := got, budget, false;
      queue := queue + env.arrivals(polls);
      if !env.valid(polls) {
        return;
      }
      var avail := |queue|;
      if avail != 0 {
        if avail > len - |data| {
          avail := len - |data|;
        }
        if env.faults(polls) {
          return;
        }
        data := data + queue[..avail];
        queue := queue[avail..];
        more := |data| < len;
      } else if timeout >= POLL_INTERVAL_MS {
        timeout := timeout - POLL_INTERVAL_MS;
        more := true;
      }
    }

    ghost function Log(): ReadLog
      reads this
    {
      ReadLog(returned, queue, written, totalBytesRead, mark)
    }

    /** Any call, on any client reached by calls: what is proved of every session holds of it. */
    method Perform(call: ReadCall, now: int) returns (data: seq<Byte>)
      requires Reached() && (call.ReadCall? ==> call.provider == provider)
      modifies this
      ensures Reached() && history == old(history) + [call] && returned == old(returned) + data
    {
      ReadAllSnoc(history, call);
      data := Dispatch(call, now);
      history := history + [call];
    }

    method Dispatch(call: ReadCall, now: int) returns (data: seq<Byte>)
      requires totalBytesRead < TWO_TO_64 && (call.ReadCall? ==> call.provider == provider)
      modifies this`queue, this`remoteDelay, this`totalBytesRead, this`dataPosition
      modifies this`written, this`returned, this`mark
      ensures Log() == ReadNext(old(Log()), call) && returned == old(returned) + data
    {
      if call.ReadCall? {
        data := Read(call, now);
      } else {
        data := [];
        ResetPresentationPosition();
        mark := |returned|;
      }
    }

    method Read(call: ReadCall, now: int) returns (data: seq<Byte>)
      requires call.ReadCall? && call.provider == provider && totalBytesRead < TWO_TO_64
      modifies this`queue, this`totalBytesRead, this`dataPosition, this`written, this`returned
      ensures Log() == ReadNext(old(Log()), call) && returned == old(returned) + data
    {
      ghost var before := queue;
      data := ReadAudioData(call.len, call.env, now);
      if provider && call.len > 0 {
        written := written + Arrived(call.env.arrivals, 0, Drain(before, call.len, call.env).reading.polls);
      }
      assert data == [] ==> returned + data == returned;
      returned := returned + data;
    }
  }

  class SourceClient {
    var provider: bool
    const capacity: nat
    var queue: seq<Byte>
    ghost var taken: seq<Byte>      // what the consumer has received
    ghost var reported: seq<Byte>
    ghost var history: seq<WriteCall>

    ghost predicate Reached()
      reads this
    {
      WriteAll(history, capacity) == WriteLog(reported, queue, taken)
    }

    constructor (provider: bool, capacity: nat)
      ensures Reached() && history == [] && this.provider == provider && this.capacity == capacity
    {
      this.provider, this.capacity := provider, capacity;
      queue, taken, reported, history := [], [], [], [];
    }

    /** WriteAudioData: how many bytes of the buffer were queued. */
    method WriteAudioData(data: seq<Byte>, env: Consumer) returns (count: nat)
      requires |queue| <= capacity
      modifies this`queue, this`taken
      ensures if provider && data != [] then
                var r := FillFrom(Writing(0, old(queue), old(taken), TIMEOUT_MS, 0), data, capacity, env).writing;
                count == r.count && queue == r.queue && taken == r.taken
              else count == 0 && queue == old(queue) && taken == old(taken)
      ensures |queue| <= capacity
    {
      count := 0;
      if !provider || data == [] {
        return;
      }
      count := FillQueue(data, env);
    }

    /** Whatever the consumer takes before a poll. */
    method ConsumerTakes(n: nat)
      modifies this`queue, this`taken
      ensures var t := Least(n, |old(queue)|);
              queue == old(queue)[t..] && taken == old(taken) + old(queue)[..t]
    {
      var t := Least(n, |queue|);
      taken := taken + queue[..t];
      queue := queue[t..];
    }

    /** The do-while loop. */
    method FillQueue(data: seq<Byte>, env: Consumer) returns (count: nat)
      requires |queue| <= capacity && data != []
      modifies this`queue, this`taken
      ensures var r := FillFrom(Writing(0, old(queue), old(taken), TIMEOUT_MS, 0), data, capacity, env).writing;
              count == r.count && queue == r.queue && taken == r.taken
      ensures |queue| <= capacity
    {
      ghost var start := Writing(0, queue, taken, TIMEOUT_MS, 0);
      count := 0;
      var timeout: nat := TIMEOUT_MS;
      var polls: nat := 0;
      var more := true;
      while more
        invariant |queue| <= capacity
        invariant if more then
                    && count < |data|
                    && FillFrom(Writing(count, queue, taken, timeout, polls), data, capacity, env)
                       == FillFrom(start, data, capacity, env)
                  else FillFrom(start, data, capacity, env).writing == Writing(count, queue, taken, timeout, polls)
        decreases more, |data| - count + timeout
      {
        count, timeout, more := OfferOnce(count, timeout, polls, data, env);
        polls := polls + 1;
      }
    }

    /** The body of the loop. */
    method OfferOnce(done: nat, budget: nat, polls: nat, data: seq<Byte>, env: Consumer)
      returns (count: nat, timeout: nat, more: bool)
      requires |queue| <= capacity && done < |data|
      modifies this`queue, this`taken
      ensures var r := PollWrite(Writing(done, old(queue), old(taken), budget, polls), data, capacity, env);
              r.writing == Writing(count, queue, taken, timeout, polls + 1) && more == r.Again?
      ensures |queue| <= capacity
    {
      count, timeout, more := done, budget, false;
      ConsumerTakes(env.takes(polls));
      if !env.valid(polls) {
        return;
      }
      var avail := capacity - |queue|;
      if avail != 0 {
        if avail > |data| - count {
          avail := |data| - count;
        }
        if env.faults(polls) {
          return;
        }
        queue := queue + data[count..count + avail];
        count := count + avail;
        more := count < |data|;
      } else if timeout >= POLL_INTERVAL_MS {
        timeout := timeout - POLL_INTERVAL_MS;
        more := true;
      }
    }

    /** Any call, on any client reached by calls: what is proved of every session holds of it. */
    method Perform(call: WriteCall) returns (count: nat)
      requires Reached() && call.provider == provider
      modifies this
      ensures Reached() && history == old(history) + [call]
      ensures count <= |call.data| && reported == old(reported) + call.data[..count]
    {
      WriteAllSnoc(history, call, capacity);
      ghost var w := Writing(0, queue, taken, TIMEOUT_MS, 0);
      if provider && call.data != [] {
        FillConserves(taken + queue, w, call.data, capacity, call.env);
      }
      count := WriteAudioData(call.data, call.env);
      reported := reported + call.data[..count];
      history := history + [call];
    }
  }
}
