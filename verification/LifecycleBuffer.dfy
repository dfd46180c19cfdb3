/**
 Lifecycle events that arrive before anyone listens: the newest 64 are kept.
 */
module LifecycleBuffer {

  const MAX_BUFFERED: nat := 64

  datatype Lifecycle = Lifecycle(pageId: string, sequence: int)

  function Newest<T>(s: seq<T>, n: nat): seq<T> {
    if |s| <= n then s else s[|s| - n..]
  }

  /** What is kept is the end of what came, all of it or `n` long. */
  lemma NewestIsTheEnd<T>(s: seq<T>, n: nat)
    ensures |Newest(s, n)| == if |s| <= n then |s| else n
    ensures exists missed :: s == missed + Newest(s, n)
  {
    var missed := if |s| <= n then [] else s[..|s| - n];
    assert s == missed + Newest(s, n);
  }

  /** Keeping the newest one by one is keeping the newest of all. */
  lemma NewestStep<T>(s: seq<T>, e: T, n: nat)
    requires n > 0
    ensures var longer := Newest(s, n) + [e];
            Newest(s + [e], n) == if |longer| > n then longer[1..] else longer
  {
  }

  function Received(received: map<nat, seq<Lifecycle>>, id: nat): seq<Lifecycle> {
    if id in received then received[id] else []
  }

  /** Subscribers in the order they joined; `received[i]` is everything subscriber `i` was handed. */
  class Buffer {
    const pageId: string
    var subscribers: seq<nat>
    var received: map<nat, seq<Lifecycle>>
    var buffered: seq<Lifecycle>
    /** Every event of this page since there was last a subscriber. */
    ghost var missed: seq<Lifecycle>

    ghost predicate Valid()
      reads this
    {
      && (forall i :: 0 <= i < |subscribers| ==> subscribers[i] in received)
      && (forall i, j :: 0 <= i < j < |subscribers| ==> subscribers[i] != subscribers[j])
      && buffered == Newest(missed, 64)
      && (subscribers != [] ==> missed == [])
    }

    constructor (pageId: string)
      ensures Valid() && this.pageId == pageId && subscribers == [] && missed == [] && received == map[]
    {
      this.pageId := pageId;
      subscribers, received, buffered, missed := [], map[], [], [];
    }

    /** An event reaches every subscriber, or is kept for the first one. */
    method Receive(event: Lifecycle)
      requires Valid()
      modifies this
      ensures Valid() && subscribers == old(subscribers)
      ensures missed == if event.pageId == pageId && subscribers == [] then old(missed) + [event] else old(missed)
      ensures received == map s | s in old(received) ::
                if event.pageId == pageId && s in subscribers then old(received)[s] + [event] else old(received)[s]
    {
      if event.pageId != pageId {
        return;
      }
      if subscribers == [] {
        NewestStep(missed, event, MAX_BUFFERED);
        buffered := buffered + [event];
        missed := missed + [event];
        if |buffered| > MAX_BUFFERED {
          buffered := buffered[1..];
        }
        return;
      }
      for i := 0 to |subscribers|
        invariant subscribers == old(subscribers) && buffered == old(buffered) && missed == old(missed)
        invariant received == map s | s in old(received) ::
                    if s in subscribers[..i] then old(received)[s] + [event] else old(received)[s]
      {
        received := received[subscribers[i] := received[subscribers[i]] + [event]];
      }
    }

    /** Whoever subscribes is handed the newest of what was missed, in order. */
    method Subscribe(id: nat)
      requires Valid()
      modifies this
      ensures Valid() && missed == []
      ensures subscribers == if id in old(subscribers) then old(subscribers) else old(subscribers) + [id]
      ensures received == old(received)[id := Received(old(received), id) + Newest(old(missed), 64)]
    {
      if id !in subscribers {
        subscribers := subscribers + [id];
      }
      received := received[id := Received(received, id) + buffered];
      buffered := [];
      missed := [];
    }

    method Unsubscribe(id: nat)
      requires Valid()
      modifies this
      ensures Valid() && received == old(received) && missed == old(missed)
      ensures id !in subscribers
      ensures forall s :: s != id ==> (s in subscribers <==> s in old(subscribers))
    {
      for i := 0 to |subscribers|
        invariant subscribers == old(subscribers) && received == old(received)
        invariant buffered == old(buffered) && missed == old(missed)
        invariant id !in subscribers[..i]
      {
        if subscribers[i] == id {
          subscribers := subscribers[..i] + subscribers[i + 1..];
          return;
        }
      }
    }
  }
}
