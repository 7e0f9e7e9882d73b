// The client's running totals of connected peers and their torrents.
module PeerTotals {
  import opened Sums

  // The server's peers and the torrent count each reported when it joined.
  type Server = map<string, nat>

  // A leaving peer reports the torrent count it has by then.
  datatype PeerEvent = Join(id: string, torrents: nat) | Leave(id: string, torrents: nat)

  datatype Totals = Totals(peers: int, torrents: int)

  predicate Possible(server: Server, e: PeerEvent) {
    match e
    case Join(id, _) => id !in server
    case Leave(id, _) => id in server
  }

  function Serve(server: Server, e: PeerEvent): Server {
    match e
    case Join(id, torrents) => server[id := torrents]
    case Leave(id, _) => server - {id}
  }

  // The 'peer' handler, for a message with the server's new size.
  function OnPeer(t: Totals, size: nat, torrents: nat): Totals {
    Totals(size, if size > t.peers then t.torrents + torrents else t.torrents - torrents)
  }

  // The reply to 'peers': an empty one is only believed by a client that counts
  // one peer.
  function OnSnapshot(t: Totals, size: nat, torrents: nat): Totals {
    if size > 0 || t.peers == 1 then Totals(size, torrents) else t
  }

  ghost predicate InSync(t: Totals, server: Server) {
    t == Totals(|server|, SumOf(server))
  }

  // A snapshot makes the totals right exactly when it is not empty, the client
  // counted one peer, or they were right already.
  lemma SnapshotSyncs(t: Totals, server: Server)
    ensures InSync(OnSnapshot(t, |server|, SumOf(server)), server)
            <==> server != map[] || t.peers == 1 || InSync(t, server)
    ensures server == map[] && t.peers != 1 ==> OnSnapshot(t, |server|, SumOf(server)) == t
  {
    assert |server| == 0 <==> server == map[];
  }

  // A message that does not come in order: however many joins were missed before
  // it, it adds its own torrents; delivered twice, a join takes them off again, and
  // so does every message without a larger peer count.
  lemma MessagesOutOfOrder(t: Totals, size: nat, torrents: nat)
    ensures size > t.peers ==> OnPeer(t, size, torrents) == Totals(size, t.torrents + torrents)
    ensures size > t.peers ==> OnPeer(OnPeer(t, size, torrents), size, torrents) == Totals(size, t.torrents)
    ensures size <= t.peers ==> OnPeer(t, size, torrents) == Totals(size, t.torrents - torrents)
  {
  }

  // How far a leaving peer's report is from what it reported when it joined.
  function DriftOf(server: Server, e: PeerEvent): int
    requires Possible(server, e)
  {
    match e
    case Join(_, _) => 0
    case Leave(id, torrents) => server[id] - torrents
  }

  ghost predicate OffBy(t: Totals, server: Server, drift: int) {
    t.peers == |server| && t.torrents == SumOf(server) + drift
  }

  lemma EventMovesDrift(t: Totals, server: Server, e: PeerEvent, drift: int)
    requires Possible(server, e) && OffBy(t, server, drift)
    ensures OffBy(OnPeer(t, |Serve(server, e)|, e.torrents), Serve(server, e), drift + DriftOf(server, e))
  {
    match e {
      case Join(id, torrents) => SumOfAdds(server, id, torrents);
      case Leave(id, torrents) =>
        SumOfPicks(server, id);
        assert (server - {id}).Keys == server.Keys - {id};
        assert |server| == |server.Keys| && |server - {id}| == |(server - {id}).Keys|;
    }
  }

  ghost predicate PossibleRun(server: Server, events: seq<PeerEvent>)
    decreases |events|
  {
    events == [] || (Possible(server, events[0]) && PossibleRun(Serve(server, events[0]), events[1..]))
  }

  function ServeAll(server: Server, events: seq<PeerEvent>): Server
    decreases |events|
  {
    if events == [] then server else ServeAll(Serve(server, events[0]), events[1..])
  }

  // The client after the messages of these events, in order.
  function FollowAll(t: Totals, server: Server, events: seq<PeerEvent>): Totals
    decreases |events|
  {
    if events == [] then t
    else
      var after := Serve(server, events[0]);
      FollowAll(OnPeer(t, |after|, events[0].torrents), after, events[1..])
  }

  function DriftOfAll(server: Server, events: seq<PeerEvent>): int
    requires PossibleRun(server, events)
    decreases |events|
  {
    if events == [] then 0 else DriftOf(server, events[0]) + DriftOfAll(Serve(server, events[0]), events[1..])
  }

  lemma {:induction false} RunMovesDrift(t: Totals, server: Server, events: seq<PeerEvent>, drift: int)
    requires PossibleRun(server, events) && OffBy(t, server, drift)
    ensures OffBy(FollowAll(t, server, events), ServeAll(server, events), drift + DriftOfAll(server, events))
    decreases |events|
  {
    hide OffBy, OnPeer, DriftOf;
    if events != [] {
      var after := Serve(server, events[0]);
      EventMovesDrift(t, server, events[0], drift);
      RunMovesDrift(OnPeer(t, |after|, events[0].torrents), after, events[1..], drift + DriftOf(server, events[0]));
    }
  }

  // After a snapshot that was believed, any run of joins and leaves keeps the
  // peer count equal to the server's, and the torrent total right exactly when
  // the leaving peers' reports are off by nothing in all.
  lemma TotalsFollowServer(t: Totals, server: Server, events: seq<PeerEvent>)
    requires PossibleRun(server, events) && (server != map[] || t.peers == 1)
    ensures var seen := OnSnapshot(t, |server|, SumOf(server));
            var now := FollowAll(seen, server, events);
            && now.peers == |ServeAll(server, events)|
            && (InSync(now, ServeAll(server, events)) <==> DriftOfAll(server, events) == 0)
  {
    SnapshotSyncs(t, server);
    RunMovesDrift(OnSnapshot(t, |server|, SumOf(server)), server, events, 0);
  }

  // Peers that leave with the count they joined with.
  ghost predicate Steady(server: Server, events: seq<PeerEvent>)
    requires PossibleRun(server, events)
    decreases |events|
  {
    events == [] ||
    ((events[0].Leave? ==> server[events[0].id] == events[0].torrents) && Steady(Serve(server, events[0]), events[1..]))
  }

  lemma {:induction false} SteadyPeersDoNotDrift(server: Server, events: seq<PeerEvent>)
    requires PossibleRun(server, events) && Steady(server, events)
    ensures DriftOfAll(server, events) == 0
    decreases |events|
  {
    if events != [] { SteadyPeersDoNotDrift(Serve(server, events[0]), events[1..]); }
  }

  class PeerPanel {
    var peers: int
    var peersTorrents: int

    function Now(): Totals
      reads this
    {
      Totals(peers, peersTorrents)
    }

    constructor ()
      ensures Now() == Totals(0, 0)
    {
      peers, peersTorrents := 0, 0;
    }

    method PeerMessage(size: nat, torrents: nat)
      modifies this
      ensures Now() == OnPeer(old(Now()), size, torrents)
    {
      if size > peers {
        peersTorrents := peersTorrents + torrents;
      } else {
        peersTorrents := peersTorrents - torrents;
      }
      peers := size;
    }

    method PeersReply(size: nat, torrents: nat)
      modifies this
      ensures Now() == OnSnapshot(old(Now()), size, torrents)
    {
      if size > 0 || peers == 1 {
        peers := size;
        peersTorrents := torrents;
      }
    }
  }
}
