/**
 * The snapshot broadcaster and connection registry of the server: every
 * tick fetches the whole collection in display order and pushes it to each
 * open viewer; a viewer that connects is sent one snapshot of its own.
 */
module Server {
  import opened Strings
  import opened Sequences

  /** A stored detection as the server's schema reads it (lower-case `location`). */
  datatype Detection = Detection(timestamp: int, time: string, date: string, location: string, source: int)

  /** The store's order `{timestamp: -1, location: 1}`: newer first, ties by ascending location. */
  predicate Precedes(a: Detection, b: Detection)
  {
    a.timestamp > b.timestamp || (a.timestamp == b.timestamp && Below(a.location, b.location))
  }

  /** For any two records, the earlier in the list is no older, and on a tie its location sorts no later. */
  predicate Ordered(snapshot: seq<Detection>)
  {
    forall i, j :: 0 <= i < j < |snapshot| ==>
      snapshot[i].timestamp >= snapshot[j].timestamp &&
      (snapshot[i].timestamp == snapshot[j].timestamp ==> Below(snapshot[i].location, snapshot[j].location))
  }

  lemma PrecedesIsTotalPreorder()
    ensures TotalPreorder(Precedes)
  {
    forall a: Detection, b: Detection ensures Precedes(a, b) || Precedes(b, a) {
      BelowTotal(a.location, b.location);
    }
    forall a: Detection, b: Detection, c: Detection | Precedes(a, b) && Precedes(b, c)
      ensures Precedes(a, c)
    {
      if a.timestamp == b.timestamp == c.timestamp {
        BelowTransitive(a.location, b.location, c.location);
      }
    }
  }

  /** The record store: it answers with its records or fails with a reason. */
  datatype Store = Reachable(records: seq<Detection>) | Unreachable(reason: string)

  /** The outcome of `getAllDetectionsSorted`: the ordered snapshot, or the store's error passed on. */
  datatype Fetch = Fetched(snapshot: seq<Detection>) | Failed(reason: string)

  /**
   * `getAllDetectionsSorted`: all records of the store, ordered newest first
   * with ties by location; a store error is re-thrown to the caller.
   */
  function GetAllDetectionsSorted(store: Store): (r: Fetch)
    ensures r.Failed? <==> store.Unreachable?
    ensures r.Failed? ==> r.reason == store.reason
    ensures r.Fetched? ==> multiset(r.snapshot) == multiset(store.records) && Ordered(r.snapshot)
  {
    match store
    case Reachable(records) =>
      PrecedesIsTotalPreorder();
      Fetched(Sort(records, Precedes))
    case Unreachable(reason) => Failed(reason)
  }

  /** The transport states a viewer connection goes through. */
  datatype ReadyState = Connecting | Open | Closing | Closed

  /** A message the server sends: a serialised snapshot, or the error object of the connection handler. */
  datatype Frame = SnapshotFrame(snapshot: seq<Detection>) | ErrorFrame(error: string)

  const FetchError := "Error fetching detections"

  /** A viewer connection: its transport state and the messages sent to it so far. */
  datatype Client = Client(readyState: ReadyState, inbox: seq<Frame>)

  /**
   * The send of one `forEach` step: the connection keeps its state, and it
   * is sent the frame exactly when it is open.
   */
  function Receive(c: Client, f: Frame): (r: Client)
    ensures r.readyState == c.readyState
    ensures c.readyState == Open ==> r.inbox == c.inbox + [f]
    ensures c.readyState != Open ==> r.inbox == c.inbox
  {
    if c.readyState == Open then c.(inbox := c.inbox + [f]) else c
  }

  /**
   * One delivery of `f` over the registry, in its order: the connections
   * stay where they are, and each one is the result of its own send.
   */
  function Deliver(clients: seq<Client>, f: Frame): (r: seq<Client>)
    ensures |r| == |clients|
    ensures forall i :: 0 <= i < |clients| ==> r[i] == Receive(clients[i], f)
  {
    if clients == [] then [] else [Receive(clients[0], f)] + Deliver(clients[1..], f)
  }

  /** The message a new connection is sent first. */
  function InitialFrame(store: Store): (f: Frame)
    ensures f.ErrorFrame? <==> store.Unreachable?
    ensures f.ErrorFrame? ==> f.error == FetchError
    ensures f.SnapshotFrame? ==> Ordered(f.snapshot) && multiset(f.snapshot) == multiset(store.records)
  {
    match GetAllDetectionsSorted(store)
    case Fetched(snapshot) => SnapshotFrame(snapshot)
    case Failed(_) => ErrorFrame(FetchError)
  }

  /** The server's viewer connections, in the order a tick visits them. */
  class Registry {
    var clients: seq<Client>

    constructor ()
      ensures clients == []
    {
      clients := [];
    }

    /**
     * `broadcastDetections`, one tick: on a successful fetch every open
     * connection is sent the snapshot; on a failed one the error is caught
     * and nothing is sent.
     */
    method Broadcast(store: Store)
      modifies this
      ensures GetAllDetectionsSorted(store).Failed? ==> clients == old(clients)
      ensures GetAllDetectionsSorted(store).Fetched? ==>
        clients == Deliver(old(clients), SnapshotFrame(GetAllDetectionsSorted(store).snapshot))
    {
      var fetched := GetAllDetectionsSorted(store);
      if fetched.Fetched? {
        var frame := SnapshotFrame(fetched.snapshot);
        var i := 0;
        while i < |clients|
          invariant 0 <= i <= |clients| == |old(clients)|
          invariant forall k :: 0 <= k < i ==> clients[k] == Receive(old(clients)[k], frame)
          invariant forall k :: i <= k < |clients| ==> clients[k] == old(clients)[k]
        {
          if clients[i].readyState == Open {
            clients := clients[i := clients[i].(inbox := clients[i].inbox + [frame])];
          }
          i := i + 1;
        }
      }
    }

    /** The connection handler: the new connection joins open and is sent exactly one message. */
    method Connect(store: Store)
      modifies this
      ensures clients == old(clients) + [Client(Open, [InitialFrame(store)])]
    {
      var frame: Frame;
      var fetched := GetAllDetectionsSorted(store);
      if fetched.Fetched? {
        frame := SnapshotFrame(fetched.snapshot);
      } else {
        frame := ErrorFrame(FetchError);
      }
      clients := clients + [Client(Open, [frame])];
    }

    /** A close handshake has begun: the connection stays registered but is no longer open. */
    method BeginClose(i: nat)
      requires i < |clients|
      modifies this
      ensures clients == old(clients)[i := old(clients)[i].(readyState := Closing)]
    {
      clients := clients[i := clients[i].(readyState := Closing)];
    }

    /** The connection has closed and leaves the registry. */
    method Disconnect(i: nat)
      requires i < |clients|
      modifies this
      ensures clients == old(clients)[..i] + old(clients)[i + 1..]
    {
      clients := clients[..i] + clients[i + 1..];
    }
  }
}
