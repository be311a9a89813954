/** bridge/src/queue.rs: the bridge's queue of waiting `document.push` messages. */
module BridgeQueue {
  import opened Protocol
  import opened Debounce

  type PushQueue = Queue<Message>

  datatype QueueResult = Accepted | InvalidPushPayload

  /** The entry a push message becomes when it is queued at time `at`. */
  function EntryOf(m: Message, at: nat): Pending<Message>
    requires m.IsPush()
  {
    Pending(m.payload.uri, m.version, m, at)
  }

  /** What the queue may hold: decodable pushes, each under its own URI with its own version. */
  ghost predicate WellFormed(q: PushQueue) {
    forall u | u in q :: q[u].item.IsPushFor(u) && q[u] == EntryOf(q[u].item, q[u].queuedAt)
  }

  function Items(list: seq<Pending<Message>>): (items: seq<Message>)
    ensures |items| == |list| && forall i | 0 <= i < |list| :: items[i] == list[i].item
  {
    seq(|list|, i requires 0 <= i < |list| => list[i].item)
  }

  class DebounceQueue {
    const window: nat
    var pendingByUri: PushQueue

    ghost predicate Valid()
      reads this
    {
      WellFormed(pendingByUri)
    }

    constructor (debounceMs: nat)
      ensures Valid() && window == debounceMs && pendingByUri == map[]
    {
      window := debounceMs;
      pendingByUri := map[];
    }

    method Enqueue(message: Message, now: nat) returns (r: QueueResult)
      requires Valid()
      modifies this
      ensures Valid()
      ensures r.InvalidPushPayload? <==> message.kind.DocumentPush? && !message.payload.PushBody?
      ensures pendingByUri ==
              if message.IsPush() then Arrive(old(pendingByUri), EntryOf(message, now)) else old(pendingByUri)
    {
      if !message.kind.DocumentPush? {
        return Accepted;
      }
      if !message.payload.PushBody? {
        return InvalidPushPayload;
      }
      var uri := message.payload.uri;
      if uri in pendingByUri {
        if pendingByUri[uri].version <= message.version {
          pendingByUri := pendingByUri[uri := Pending(uri, message.version, message, now)];
        }
      } else {
        pendingByUri := pendingByUri[uri := Pending(uri, message.version, message, now)];
      }
      return Accepted;
    }

    /** Hash-map iteration order is unspecified, so the entries come out in an arbitrary order. */
    method DrainReady(now: nat) returns (ready: seq<Message>, ghost order: seq<Pending<Message>>)
      requires Valid()
      modifies this
      ensures Valid()
      ensures Lists(order, DuePart(old(pendingByUri), now, window)) && ready == Items(order)
      ensures pendingByUri == old(pendingByUri) - DuePart(old(pendingByUri), now, window).Keys
    {
      ready, order := [], [];
      ghost var before := pendingByUri;
      var unvisited := pendingByUri.Keys;
      while unvisited != {}
        invariant unvisited <= before.Keys
        invariant Lists(order, DuePart(before, now, window) - unvisited)
        invariant ready == Items(order)
        invariant pendingByUri == before - (DuePart(before, now, window).Keys - unvisited)
        decreases unvisited
      {
        var u :| u in unvisited;
        assert u in pendingByUri && pendingByUri[u] == before[u];
        assert before[u].uri == u;
        OneVisited(before, DuePart(before, now, window), unvisited, u);
        if Due(pendingByUri[u], now, window) {
          ListsExtend(order, DuePart(before, now, window) - unvisited, before[u]);
          ready, order := ready + [pendingByUri[u].item], order + [pendingByUri[u]];
          pendingByUri := pendingByUri - {u};
        }
        unvisited := unvisited - {u};
      }
      assert DuePart(before, now, window) - {} == DuePart(before, now, window);
    }

    method DrainAll() returns (drained: seq<Message>, ghost order: seq<Pending<Message>>)
      requires Valid()
      modifies this
      ensures Valid()
      ensures Lists(order, old(pendingByUri)) && drained == Items(order)
      ensures pendingByUri == map[]
    {
      drained, order := [], [];
      ghost var before := pendingByUri;
      while pendingByUri != map[]
        invariant pendingByUri.Keys <= before.Keys
        invariant forall u | u in pendingByUri :: pendingByUri[u] == before[u]
        invariant Lists(order, before - pendingByUri.Keys)
        invariant drained == Items(order)
        decreases pendingByUri.Keys
      {
        var u :| u in pendingByUri;
        assert before[u].uri == u;
        ListsExtend(order, before - pendingByUri.Keys, before[u]);
        drained, order := drained + [pendingByUri[u].item], order + [pendingByUri[u]];
        ghost var bigger := (before - pendingByUri.Keys)[u := before[u]];
        pendingByUri := pendingByUri - {u};
        assert bigger == before - pendingByUri.Keys;
      }
      assert before - pendingByUri.Keys == before;
    }

    method DrainForUri(uri: Uri) returns (pending: Option<Message>)
      requires Valid()
      modifies this
      ensures Valid()
      ensures pending ==
              if uri in old(pendingByUri) then Some(old(pendingByUri)[uri].item) else None
      ensures pendingByUri == old(pendingByUri) - {uri}
    {
      if uri in pendingByUri {
        pending := Some(pendingByUri[uri].item);
        pendingByUri := pendingByUri - {uri};
      } else {
        pending := None;
        assert pendingByUri - {uri} == pendingByUri;
      }
    }
  }

  /** Visiting one more key of a map, of which `due` is to be taken out. */
  lemma OneVisited(before: PushQueue, due: PushQueue, unvisited: set<Uri>, u: Uri)
    requires u in unvisited && u in before && forall v | v in due :: v in before && due[v] == before[v]
    ensures due - (unvisited - {u}) == if u in due then (due - unvisited)[u := before[u]] else due - unvisited
    ensures before - (due.Keys - (unvisited - {u}))
         == if u in due then before - (due.Keys - unvisited) - {u} else before - (due.Keys - unvisited)
  {
  }

  lemma ListsExtend<T>(list: seq<Pending<T>>, q: Queue<T>, p: Pending<T>)
    requires Lists(list, q) && p.uri !in q
    ensures Lists(list + [p], q[p.uri := p])
  {
    var longer := list + [p];
    var larger := q[p.uri := p];
    forall u | u in larger
      ensures exists i :: 0 <= i < |longer| && longer[i].uri == u
    {
      if u == p.uri {
        assert longer[|list|].uri == u;
      } else {
        var i :| 0 <= i < |list| && list[i].uri == u;
        assert longer[i].uri == u;
      }
    }
  }
}
