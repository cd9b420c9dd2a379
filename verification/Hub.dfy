/** Replay-then-live event streams (eventstream/hub.go, logstream/hub.go, execution/stream.go). */
module Hub {
  import opened Machines
  import opened Text

  datatype Record<T> = Record(id: nat, payload: T)

  // A subscriber: its channel, what its reader has taken out, and the ids whose send found it full.
  datatype Sub<T> = Sub(since: int, joined: nat, capacity: nat, buffer: seq<Record<T>>, received: seq<Record<T>>,
                        dropped: set<nat>, active: bool)

  // flight holds the sends, as subscriber and id, that running Append calls have yet to make.
  datatype Stream<T> = Stream(list: seq<T>, subs: map<nat, Sub<T>>, flight: set<(nat, nat)>)

  function EmptyStream<T>(): Stream<T> {
    Stream([], map[], {})
  }

  /***** The atomic steps *****/

  // The records of the list after the first n.
  function Replay<T>(list: seq<T>, n: nat): (r: seq<Record<T>>)
    ensures |r| == if n <= |list| then |list| - n else 0
    ensures forall k :: 0 <= k < |r| ==> r[k] == Record(n + k + 1, list[n + k])
  {
    if n >= |list| then [] else seq(|list| - n, k requires 0 <= k < |list| - n => Record(n + k + 1, list[n + k]))
  }

  function Max(a: int, b: int): int {
    if a < b then b else a
  }

  function Joining<T>(list: seq<T>, since: int): Sub<T> {
    var from := Max(since, 0);
    Sub(since, |list|, Max(|list| - from + 16, 32), Replay(list, from), [], {}, true)
  }

  function Subscribed<T>(s: Stream<T>, sub: nat, since: int): Stream<T> {
    s.(subs := s.subs[sub := Joining(s.list, since)])
  }

  function ActiveSubs<T>(s: Stream<T>): set<nat> {
    set i | i in s.subs && s.subs[i].active
  }

  // The lock section of Append: the list grows and the present subscribers are remembered.
  function Appended<T>(s: Stream<T>, payload: T): Stream<T> {
    s.(list := s.list + [payload],
       flight := s.flight + Sends(ActiveSubs(s), |s.list| + 1))
  }

  function Sends(subs: set<nat>, id: nat): set<(nat, nat)> {
    set i | i in subs :: (i, id)
  }

  // One send of the loop after it: it never blocks, a full channel loses the record.
  function Sent<T>(s: Stream<T>, sub: nat, id: nat): Stream<T> {
    if sub !in s.subs || !(0 < id <= |s.list|) then s else
      var c := s.subs[sub];
      var c' := if |c.buffer| < c.capacity then c.(buffer := c.buffer + [Record(id, s.list[id - 1])])
                else c.(dropped := c.dropped + {id});
      s.(subs := s.subs[sub := c'], flight := s.flight - {(sub, id)})
  }

  function Taken<T>(s: Stream<T>, sub: nat): Stream<T> {
    if sub !in s.subs || s.subs[sub].buffer == [] then s else
      var c := s.subs[sub];
      s.(subs := s.subs[sub := c.(buffer := c.buffer[1..], received := c.received + [c.buffer[0]])])
  }

  function Left<T>(s: Stream<T>, sub: nat): Stream<T> {
    if sub !in s.subs then s else s.(subs := s.subs[sub := s.subs[sub].(active := false)])
  }

  class Hub<T> {
    var streams: map<string, Stream<T>>

    constructor ()
      ensures streams == map[]
    {
      streams := map[];
    }

    method EnsureStream(key: string)
      modifies this
      ensures streams == if key in old(streams) then old(streams) else old(streams)[key := EmptyStream()]
    {
      if key !in streams {
        streams := streams[key := Stream([], map[], {})];
      }
    }

    /** The lock section of Append: the new record and the subscribers it is still to be sent to. */
    method AppendLocked(key: string, payload: T) returns (record: Record<T>, subscribers: set<nat>)
      modifies this
      ensures var s := if key in old(streams) then old(streams)[key] else EmptyStream();
        && streams == old(streams)[key := Appended(s, payload)]
        && record == Record(|s.list| + 1, payload)
        && subscribers == ActiveSubs(s)
    {
      EnsureStream(key);
      var s := streams[key];
      subscribers := ActiveSubs(s);
      record := Record(|s.list| + 1, payload);
      streams := streams[key := s.(
        list := s.list + [payload],
        flight := s.flight + Sends(subscribers, record.id))];
    }

    /** The select of the send loop. */
    method TrySend(key: string, sub: nat, record: Record<T>) returns (sent: bool)
      requires key in streams && sub in streams[key].subs
      requires 0 < record.id <= |streams[key].list| && record.payload == streams[key].list[record.id - 1]
      modifies this
      ensures streams == old(streams)[key := Sent(old(streams)[key], sub, record.id)]
      ensures sent <==> |old(streams)[key].subs[sub].buffer| < old(streams)[key].subs[sub].capacity
    {
      var s := streams[key];
      var c := s.subs[sub];
      sent := |c.buffer| < c.capacity;
      if sent {
        c := c.(buffer := c.buffer + [record]);
      } else {
        c := c.(dropped := c.dropped + {record.id});
      }
      streams := streams[key := s.(subs := s.subs[sub := c], flight := s.flight - {(sub, record.id)})];
    }

    /** Subscribe holds the lock throughout, so each of its sends must find room; it always does. */
    method Subscribe(key: string, since: int, sub: nat) returns (ok: bool)
      requires key in streams ==> sub !in streams[key].subs
      modifies this
      ensures ok <==> key in old(streams)
      ensures !ok ==> streams == old(streams)
      ensures ok ==> streams == old(streams)[key := Subscribed(old(streams)[key], sub, since)]
    {
      if key !in streams {
        return false;
      }
      var s := streams[key];
      var from := if since < 0 then 0 else since;
      var bufferSize := |s.list| - from + 16;
      if bufferSize < 32 {
        bufferSize := 32;
      }
      var buffer: seq<Record<T>> := [];
      for index := 0 to |s.list|
        invariant |buffer| == if from <= index then index - from else 0
        invariant forall k :: 0 <= k < |buffer| ==> buffer[k] == Record(from + k + 1, s.list[from + k])
      {
        if index + 1 <= from {
          continue;
        }
        assert |buffer| < bufferSize;  // the channel has room
        buffer := buffer + [Record(index + 1, s.list[index])];
      }
      assert buffer == Replay(s.list, from);
      streams := streams[key := s.(subs := s.subs[sub := Sub(since, |s.list|, bufferSize, buffer, [], {}, true)])];
      return true;
    }

    /** What the subscription's goroutine does when its context ends. */
    method Unsubscribe(key: string, sub: nat)
      modifies this
      ensures streams == if key in old(streams) then old(streams)[key := Left(old(streams)[key], sub)] else old(streams)
    {
      if key in streams && sub in streams[key].subs {
        var s := streams[key];
        streams := streams[key := s.(subs := s.subs[sub := s.subs[sub].(active := false)])];
      }
    }

    /** logstream's Snapshot */
    method Snapshot(key: string) returns (r: Option<seq<T>>)
      ensures r == if key in streams then Some(streams[key].list) else None
    {
      if key !in streams {
        return None;
      }
      return Some(streams[key].list);
    }
  }

  /***** All interleavings on one stream *****/

  datatype Action<T> =
    | Subscribe(sub: nat, since: int)
    | Append(payload: T)
    | Send(sub: nat, id: nat)
    | Take(sub: nat)
    | Leave(sub: nat)

  predicate Enabled<T>(s: Stream<T>, a: Action<T>) {
    match a
    case Subscribe(sub, _) => sub !in s.subs
    case Send(sub, id) => (sub, id) in s.flight
    case _ => true
  }

  function Next<T>(s: Stream<T>, a: Action<T>): Stream<T> {
    match a
    case Subscribe(sub, since) => Subscribed(s, sub, since)
    case Append(payload) => Appended(s, payload)
    case Send(sub, id) => Sent(s, sub, id)
    case Take(sub) => Taken(s, sub)
    case Leave(sub) => Left(s, sub)
  }

  ghost function Streaming<T>(): Machine<Stream<T>, Action<T>> {
    Machine(Enabled, Next)
  }

  // Where a subscriber's ids begin: after since, or after the end of the list if since lies beyond it.
  function Base<T>(c: Sub<T>): nat {
    if c.since < 0 then 0 else if c.since > c.joined then c.joined else c.since
  }

  function Got<T>(c: Sub<T>): seq<Record<T>> {
    c.received + c.buffer
  }

  // Every id above the base is exactly one of: got, lost to a full channel, or still to be sent.
  ghost predicate Accounts<T>(s: Stream<T>, i: nat, c: Sub<T>) {
    && c.joined <= |s.list| && |c.buffer| <= c.capacity
    && (forall j, k :: 0 <= j < k < |Got(c)| ==> Got(c)[j].id != Got(c)[k].id)
    && (forall k :: 0 <= k < |Got(c)| ==> Genuine(s.list, c, Got(c)[k]))
    && (forall k :: 0 <= k < |Got(c)| ==> Got(c)[k].id !in c.dropped && (i, Got(c)[k].id) !in s.flight)
    && (forall id :: id in c.dropped ==> (i, id) !in s.flight && Base(c) < id <= |s.list|)
    && (c.active ==> forall id: nat :: Base(c) < id <= |s.list| ==>
         id in c.dropped || (i, id) in s.flight || HasId(Got(c), id))
  }

  ghost predicate Genuine<T>(list: seq<T>, c: Sub<T>, r: Record<T>) {
    Base(c) < r.id <= |list| && r.payload == list[r.id - 1]
  }

  ghost predicate HasId<T>(records: seq<Record<T>>, id: nat) {
    exists k :: 0 <= k < |records| && records[k].id == id
  }

  ghost predicate Ok<T>(s: Stream<T>) {
    && (forall i :: i in s.subs ==> Accounts(s, i, s.subs[i]))
    && (forall i, id :: (i, id) in s.flight ==> i in s.subs && s.subs[i].joined < id <= |s.list|)
  }

  lemma AppendKeeps<T>(s: Stream<T>, payload: T)
    requires Ok(s)
    ensures Ok(Appended(s, payload))
  {
    var s' := Appended(s, payload);
    forall i | i in s'.subs
      ensures Accounts(s', i, s'.subs[i])
    {
      assert Accounts(s, i, s.subs[i]);
      forall k | 0 <= k < |Got(s.subs[i])|
        ensures Genuine(s'.list, s.subs[i], Got(s.subs[i])[k])
        ensures (i, Got(s.subs[i])[k].id) !in s'.flight
      {
        assert Genuine(s.list, s.subs[i], Got(s.subs[i])[k]);
      }
    }
  }

  lemma OthersKeep<T>(s: Stream<T>, s': Stream<T>, i: nat)
    requires i in s.subs && Accounts(s, i, s.subs[i]) && s'.list == s.list
    requires forall id :: (i, id) in s'.flight <==> (i, id) in s.flight
    ensures Accounts(s', i, s.subs[i])
  {
  }

  lemma SendKeeps<T>(s: Stream<T>, sub: nat, id: nat)
    requires Ok(s) && (sub, id) in s.flight
    ensures Ok(Sent(s, sub, id))
  {
    var s' := Sent(s, sub, id);
    assert sub in s.subs && s.subs[sub].joined < id <= |s.list|;
    SentIsAccounted(s, sub, id);
    forall i | i in s'.subs
      ensures Accounts(s', i, s'.subs[i])
    {
      if i != sub {
        OthersKeep(s, s', i);
      }
    }
  }

  lemma HasIdAppend<T>(records: seq<Record<T>>, r: Record<T>)
    ensures forall id :: HasId(records + [r], id) <==> HasId(records, id) || id == r.id
  {
    var all := records + [r];
    forall id
      ensures HasId(all, id) <==> HasId(records, id) || id == r.id
    {
      assert all[|records|] == r;
      if HasId(records, id) {
        var k :| 0 <= k < |records| && records[k].id == id;
        assert all[k].id == id;
      }
    }
  }

  lemma SentIsAccounted<T>(s: Stream<T>, sub: nat, id: nat)
    requires sub in s.subs && Accounts(s, sub, s.subs[sub])
    requires (sub, id) in s.flight && s.subs[sub].joined < id <= |s.list|
    ensures Accounts(Sent(s, sub, id), sub, Sent(s, sub, id).subs[sub])
  {
    var s' := Sent(s, sub, id);
    var c, c' := s.subs[sub], s'.subs[sub];
    if |c.buffer| < c.capacity {
      var r := Record(id, s.list[id - 1]);
      assert Got(c') == Got(c) + [r];
      HasIdAppend(Got(c), r);
      assert Genuine(s.list, c, r) && Base(c) <= c.joined;
      forall other: nat | c.active && Base(c) < other <= |s.list|
        ensures other in c'.dropped || (sub, other) in s'.flight || HasId(Got(c'), other)
      {
        assert other in c.dropped || (sub, other) in s.flight || HasId(Got(c), other);
      }
    } else {
      assert Got(c') == Got(c);
    }
  }

  lemma TakeKeeps<T>(s: Stream<T>, sub: nat)
    requires Ok(s)
    ensures Ok(Taken(s, sub))
  {
    var s' := Taken(s, sub);
    if s' != s {
      var c := s.subs[sub];
      assert c.buffer == [c.buffer[0]] + c.buffer[1..];
      assert Got(s'.subs[sub]) == Got(c);
    }
    forall i | i in s'.subs
      ensures Accounts(s', i, s'.subs[i])
    {
      assert Accounts(s, i, s.subs[i]);
    }
  }

  lemma LeaveKeeps<T>(s: Stream<T>, sub: nat)
    requires Ok(s)
    ensures Ok(Left(s, sub))
  {
    forall i | i in s.subs
      ensures Accounts(Left(s, sub), i, Left(s, sub).subs[i])
    {
      assert Accounts(s, i, s.subs[i]);
      assert Got(Left(s, sub).subs[i]) == Got(s.subs[i]);
    }
  }

  function Payloads<T>(records: seq<Record<T>>): (r: seq<T>)
    ensures |r| == |records| && forall k :: 0 <= k < |r| ==> r[k] == records[k].payload
  {
    seq(|records|, k requires 0 <= k < |records| => records[k].payload)
  }

  lemma {:induction false} ListGrows<T>(s: Stream<T>, actions: seq<Action<T>>)
    ensures |s.list| <= |After(Streaming(), s, actions).list| && After(Streaming(), s, actions).list[..|s.list|] == s.list
  {
    if actions != [] {
      ListGrows(s, actions[..|actions| - 1]);
    }
  }

  /** A snapshot, and a subscription at any later time from the snapshot's length on, are the whole stream: nothing is
      missing between them and nothing comes twice. */
  lemma {:induction false} SnapshotThenSubscribe<T>(s: Stream<T>, actions: seq<Action<T>>, sub: nat)
    ensures var later := After(Streaming(), s, actions);
      s.list + Payloads(Subscribed(later, sub, |s.list|).subs[sub].buffer) == later.list
  {
    ListGrows(s, actions);
    ReplayedRest(After(Streaming(), s, actions).list, |s.list|);
  }

  lemma ReplayedRest<T>(list: seq<T>, n: nat)
    requires n <= |list|
    ensures list[..n] + Payloads(Joining(list, n).buffer) == list
  {
    assert Payloads(Replay(list, n)) == list[n..];
    assert list[..n] + list[n..] == list;
  }

  /** The replay never fills the channel: at least 16 slots stay free, whatever since is. */
  lemma ReplayLeavesRoom<T>(list: seq<T>, since: int)
    ensures |Joining(list, since).buffer| + 16 <= Joining(list, since).capacity
    ensures Joining(list, since).capacity == Max(|Joining(list, since).buffer| + 16, 32)
  {
  }

  lemma JoiningIsAccounted<T>(s: Stream<T>, sub: nat, since: int)
    requires forall id :: (sub, id) !in s.flight
    ensures Accounts(Subscribed(s, sub, since), sub, Joining(s.list, since))
  {
    var c := Joining(s.list, since);
    JoiningGot(s.list, since);
    ReplayHasAll(s.list, Base(c), c);
  }

  lemma ReplayHasAll<T>(list: seq<T>, base: nat, c: Sub<T>)
    requires base == Base(c) <= |list|
    ensures forall k :: 0 <= k < |Replay(list, base)| ==> Genuine(list, c, Replay(list, base)[k])
    ensures forall id: nat :: base < id <= |list| ==> HasId(Replay(list, base), id)
  {
    var r := Replay(list, base);
    forall id: nat | base < id <= |list|
      ensures HasId(r, id)
    {
      assert r[id - 1 - base] == Record(id, list[id - 1]);
    }
  }

  lemma JoiningGot<T>(list: seq<T>, since: int)
    ensures Got(Joining(list, since)) == Replay(list, Base(Joining(list, since)))
  {
    assert Got(Joining(list, since)) == Joining(list, since).buffer;
  }

  lemma SubscribeKeeps<T>(s: Stream<T>, sub: nat, since: int)
    requires Ok(s) && sub !in s.subs
    ensures Ok(Subscribed(s, sub, since))
  {
    JoiningIsAccounted(s, sub, since);
    forall i | i in s.subs
      ensures Accounts(Subscribed(s, sub, since), i, s.subs[i])
    {
      OthersKeep(s, Subscribed(s, sub, since), i);
    }
  }

  /** Every interleaving of appends, sends, reads and subscriptions keeps the account of every subscriber. */
  lemma {:induction false} ReachableIsOk<T>(actions: seq<Action<T>>)
    requires Legal(Streaming(), EmptyStream(), actions)
    ensures Ok(After(Streaming(), EmptyStream(), actions))
  {
    if actions != [] {
      var n := |actions| - 1;
      ReachableIsOk(actions[..n]);
      var s := After(Streaming(), EmptyStream<T>(), actions[..n]);
      match actions[n] {
        case Subscribe(sub, since) => SubscribeKeeps(s, sub, since);
        case Append(payload) => AppendKeeps(s, payload);
        case Send(sub, id) => SendKeeps(s, sub, id);
        case Take(sub) => TakeKeeps(s, sub);
        case Leave(sub) => LeaveKeeps(s, sub);
      }
    }
  }

  /** A subscriber never gets an id twice nor a record that is not the list's; and once no send to it is
      outstanding, it has got exactly the ids above since, unless a send found its channel full. */
  lemma DeliveredExactly<T>(actions: seq<Action<T>>, sub: nat)
    requires Legal(Streaming(), EmptyStream(), actions) && sub in After(Streaming(), EmptyStream(), actions).subs
    ensures var s := After(Streaming(), EmptyStream(), actions); var c := s.subs[sub];
      && (forall j, k :: 0 <= j < k < |Got(c)| ==> Got(c)[j].id != Got(c)[k].id)
      && (forall k :: 0 <= k < |Got(c)| ==> Genuine(s.list, c, Got(c)[k]))
      && (0 <= c.since <= c.joined ==> Base(c) == c.since)
      && (c.active && c.dropped == {} && (forall id :: (sub, id) !in s.flight) ==>
           forall id: nat :: HasId(Got(c), id) <==> Base(c) < id <= |s.list|)
  {
    ReachableIsOk(actions);
    var s := After(Streaming(), EmptyStream<T>(), actions);
    assert Accounts(s, sub, s.subs[sub]);
    forall id: nat | HasId(Got(s.subs[sub]), id)
      ensures Base(s.subs[sub]) < id <= |s.list|
    {
      var k :| 0 <= k < |Got(s.subs[sub])| && Got(s.subs[sub])[k].id == id;
      assert Genuine(s.list, s.subs[sub], Got(s.subs[sub])[k]);
    }
  }

  // Nothing after the first n records is on its way to the subscriber, and it has left.
  ghost predicate Gone<T>(s: Stream<T>, sub: nat, n: nat) {
    && sub in s.subs && !s.subs[sub].active
    && (forall id :: (sub, id) in s.flight ==> id <= n)
  }

  /** A subscriber that has left is sent nothing that is appended later. */
  lemma {:induction false} LeftGetsNothingNew<T>(s: Stream<T>, sub: nat, actions: seq<Action<T>>)
    requires Ok(s) && sub in s.subs && Legal(Streaming(), Left(s, sub), actions)
    ensures Gone(After(Streaming(), Left(s, sub), actions), sub, |s.list|)
  {
    if actions != [] {
      LeftGetsNothingNew(s, sub, actions[..|actions| - 1]);
      StaysGone(After(Streaming(), Left(s, sub), actions[..|actions| - 1]), actions[|actions| - 1], sub, |s.list|);
    }
  }

  lemma StaysGone<T>(s: Stream<T>, a: Action<T>, sub: nat, n: nat)
    requires Gone(s, sub, n) && Enabled(s, a)
    ensures Gone(Next(s, a), sub, n)
  {
    if a.Append? {
      assert sub !in ActiveSubs(s);
    }
  }

  /** A since beyond the end of the list is not honoured: the next record arrives although its id is not above it. */
  lemma SinceBeyondTheEnd(since: nat)
    requires since >= 1
    ensures var s := Sent(Appended(Subscribed(EmptyStream<int>(), 0, since), 7), 0, 1);
      s.subs[0].buffer == [Record(1, 7)] && 1 <= since
  {
    assert 0 in ActiveSubs(Subscribed(EmptyStream<int>(), 0, since));
  }
}
