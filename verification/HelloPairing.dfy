/** Pairing the two hello connections of a client into one client connection. */
module HelloPairing {
  import opened Basics

  datatype Kind = Requests | Notifications | Bad
  datatype Hello = Hello(fd: nat, id: nat, kind: Kind)
  datatype Conn = Conn(id: nat, requestFd: int, notificationFd: int)

  // What the accept loop meets: stop or a failed accept, a hello cut short, or a whole hello.
  datatype Event = Stopped | ShortHello | Whole(hello: Hello)

  // ---- Specification on the history of whole hellos ----

  // Position i holds a hello of this client and kind.
  predicate Matches(h: seq<Hello>, i: int, id: nat, kind: Kind)
    requires 0 <= i < |h|
  {
    h[i].id == id && h[i].kind == kind
  }

  // Descriptor of the latest hello of this client and kind at or after `from`, or -1.
  function Latest(h: seq<Hello>, from: nat, id: nat, kind: Kind): (fd: int)
    ensures fd >= -1
    decreases |h|
  {
    if |h| <= from then -1
    else if Matches(h, |h| - 1, id, kind) then h[|h| - 1].fd
    else Latest(h[..|h| - 1], from, id, kind)
  }

  // The position just after the hello that completed the client's previous pairing.
  function LastDone(h: seq<Hello>, id: nat): (d: nat)
    ensures d <= |h|
    decreases |h|
  {
    if h == [] then 0
    else
      var d := LastDone(h[..|h| - 1], id);
      if h[|h| - 1].id == id && Latest(h, d, id, Requests) != -1 && Latest(h, d, id, Notifications) != -1 then |h|
      else d
  }

  // The connection a client has put together since its previous pairing.
  function Pending(h: seq<Hello>, id: nat): Conn {
    Conn(id, Latest(h, LastDone(h, id), id, Requests), Latest(h, LastDone(h, id), id, Notifications))
  }

  // Position i holds the last hello of this client and kind.
  predicate LatestAt(h: seq<Hello>, i: int, id: nat, kind: Kind)
    requires 0 <= i < |h|
  {
    Matches(h, i, id, kind) && forall j :: i < j < |h| ==> !Matches(h, j, id, kind)
  }

  lemma {:induction false} LatestMeans(h: seq<Hello>, from: nat, id: nat, kind: Kind)
    ensures
      var fd := Latest(h, from, id, kind);
      if fd == -1 then forall i :: from <= i < |h| ==> !Matches(h, i, id, kind)
      else exists i :: from <= i < |h| && LatestAt(h, i, id, kind) && h[i].fd == fd
    decreases |h|
  {
    if |h| > from {
      var n := |h| - 1;
      if Matches(h, n, id, kind) {
        assert LatestAt(h, n, id, kind);
      } else {
        LatestMeans(h[..n], from, id, kind);
        assert forall i :: 0 <= i < n ==> (Matches(h[..n], i, id, kind) <==> Matches(h, i, id, kind));
        if Latest(h, from, id, kind) != -1 {
          var i :| from <= i < n && LatestAt(h[..n], i, id, kind) && h[..n][i].fd == Latest(h, from, id, kind);
          assert LatestAt(h, i, id, kind);
        }
      }
    }
  }

  // A hello changes nothing for other clients.
  lemma OtherClient(h: seq<Hello>, e: Hello, id: nat)
    requires e.id != id
    ensures Pending(h + [e], id) == Pending(h, id)
  {
    assert (h + [e])[..|h|] == h;
  }

  // For its own client it replaces one descriptor.
  lemma OwnClient(h: seq<Hello>, e: Hello)
    ensures
      var d := LastDone(h, e.id);
      var requestFd := if e.kind == Requests then e.fd else Latest(h, d, e.id, Requests);
      var notificationFd := if e.kind == Notifications then e.fd else Latest(h, d, e.id, Notifications);
      && Latest(h + [e], d, e.id, Requests) == requestFd
      && Latest(h + [e], d, e.id, Notifications) == notificationFd
      && LastDone(h + [e], e.id) == if requestFd != -1 && notificationFd != -1 then |h| + 1 else d
  {
    assert (h + [e])[..|h|] == h;
  }

  // A client never has both descriptors pending.
  lemma {:induction false} PendingLacksOne(h: seq<Hello>, id: nat)
    ensures Pending(h, id).requestFd == -1 || Pending(h, id).notificationFd == -1
    decreases |h|
  {
    if h != [] {
      var p, e := h[..|h| - 1], h[|h| - 1];
      assert h == p + [e];
      PendingLacksOne(p, id);
      if e.id == id {
        OwnClient(p, e);
      } else {
        OtherClient(p, e, id);
      }
    }
  }

  // The last hello of h completes `conn`: it carries the client's latest two descriptors since its previous pairing.
  predicate Completed(h: seq<Hello>, id: nat, conn: Conn) {
    && h != [] && LastDone(h, id) == |h| && conn.id == id
    && var d := LastDone(h[..|h| - 1], id);
    && conn.requestFd == Latest(h, d, id, Requests) >= 0
    && conn.notificationFd == Latest(h, d, id, Notifications) >= 0
  }

  // None of the hellos at positions from .. to-1 completed a pairing.
  ghost predicate NoneCompleted(h: seq<Hello>, from: nat, to: int) {
    forall i :: from <= i < to && i < |h| ==> !CompletedAt(h, i)
  }

  // The hello at position i completed a pairing.
  predicate CompletedAt(h: seq<Hello>, i: nat)
    requires i < |h|
  {
    LastDone(h[..i + 1], h[i].id) == i + 1
  }

  // Later hellos do not matter.
  lemma CompletedBefore(h: seq<Hello>, e: Hello, i: nat)
    requires i < |h|
    ensures CompletedAt(h + [e], i) <==> CompletedAt(h, i)
  {
    assert (h + [e])[..i + 1] == h[..i + 1];
  }

  lemma CompletedLast(h: seq<Hello>, e: Hello)
    ensures CompletedAt(h + [e], |h|) <==> LastDone(h + [e], e.id) == |h| + 1
  {
    assert (h + [e])[..|h| + 1] == h + [e];
  }

  lemma NoneCompletedStep(h: seq<Hello>, e: Hello, from: nat)
    requires NoneCompleted(h, from, |h|)
    ensures NoneCompleted(h + [e], from, |h|)
    ensures LastDone(h + [e], e.id) != |h| + 1 ==> NoneCompleted(h + [e], from, |h| + 1)
  {
    forall i | from <= i < |h|
      ensures !CompletedAt(h + [e], i)
    {
      CompletedBefore(h, e, i);
    }
    CompletedLast(h, e);
  }

  // ---- The accept loop ----

  class Acceptor {
    var incomplete: map<nat, Conn>
    ghost var history: seq<Hello>

    // Incomplete connections are exactly what their clients have put together so far.
    ghost predicate Valid()
      reads this
    {
      && (forall id :: id in incomplete ==> incomplete[id] == Pending(history, id))
      && (forall id: nat :: id !in incomplete ==> Pending(history, id) == Conn(id, -1, -1))
    }

    constructor ()
      ensures Valid() && history == [] && incomplete == map[]
    {
      incomplete, history := map[], [];
    }

    // Every incomplete connection still lacks a descriptor.
    lemma IncompleteLackOne()
      requires Valid()
      ensures forall id :: id in incomplete ==> incomplete[id].requestFd == -1 || incomplete[id].notificationFd == -1
    {
      forall id | id in incomplete {
        PendingLacksOne(history, id);
      }
    }

    // One round of the loop after a whole hello has been read.
    method Handle(hello: Hello) returns (r: Option<Conn>)
      requires Valid()
      modifies this
      ensures Valid() && history == old(history) + [hello]
      ensures r.Some? <==> LastDone(history, hello.id) == |history|
      ensures r.Some? ==> Completed(history, hello.id, r.value) && hello.id !in incomplete
    {
      ghost var h := history;
      history := history + [hello];
      OwnClient(h, hello);
      assert history[..|history| - 1] == h;
      PendingLacksOne(h, hello.id);
      forall id: nat | id != hello.id {
        OtherClient(h, hello, id);
      }
      if hello.id !in incomplete {
        incomplete := incomplete[hello.id := Conn(hello.id, -1, -1)];
      }
      var client := incomplete[hello.id];
      match hello.kind {
        case Requests => client := client.(requestFd := hello.fd);
        case Notifications => client := client.(notificationFd := hello.fd);
        case Bad => return None;
      }
      incomplete := incomplete[hello.id := client];
      if client.requestFd != -1 && client.notificationFd != -1 {
        incomplete := incomplete - {hello.id};
        return Some(client);
      }
      return None;
    }

    // accept_client: consumes events until a client is complete or the server stops; `used` events are consumed.
    method AcceptClient(events: seq<Event>) returns (r: Option<Conn>, used: nat)
      requires Valid()
      modifies this
      ensures Valid() && used <= |events|
      ensures history == old(history) + Hellos(events[..used])
      ensures r.Some? ==>
        && used > 0 && events[used - 1].Whole?
        && history == old(history) + Hellos(events[..used - 1]) + [events[used - 1].hello]
        && Completed(history, events[used - 1].hello.id, r.value)
      ensures NoneCompleted(history, |old(history)|, if r.Some? then |history| - 1 else |history|)
      ensures r.None? ==> used == |events| || (used > 0 && events[used - 1] == Stopped)
    {
      used := 0;
      while used < |events|
        invariant Valid() && used <= |events| && history == old(history) + Hellos(events[..used])
        invariant NoneCompleted(history, |old(history)|, |history|)
      {
        ghost var h := history;
        var e := events[used];
        HellosExtend(events, used);
        used := used + 1;
        match e {
          case Stopped => return None, used;
          case ShortHello =>
          case Whole(hello) =>
            NoneCompletedStep(h, hello, |old(history)|);
            r := Handle(hello);
            assert history == old(history) + (Hellos(events[..used - 1]) + [hello]);
            if r.Some? {
              return r, used;
            }
        }
      }
      r := None;
    }
  }

  // The whole hellos among the events.
  function Hellos(events: seq<Event>): seq<Hello> {
    if events == [] then []
    else
      var e := events[|events| - 1];
      Hellos(events[..|events| - 1]) + if e.Whole? then [e.hello] else []
  }

  lemma HellosExtend(events: seq<Event>, n: nat)
    requires n < |events|
    ensures Hellos(events[..n + 1]) == Hellos(events[..n]) + if events[n].Whole? then [events[n].hello] else []
  {
    assert events[..n + 1][..n] == events[..n];
  }
}
