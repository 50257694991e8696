/** The server's global state and its handlers, as in server/server.go: the
    two slices knockSessions and allowedPeers are fields that the handlers
    and the sweep replace in place; the parsed validKnockSequence and the
    flags are fixed at construction. Each handler call and each sweep pass
    is one atomic step, proved equal to the matching step of Protocol. */
module KnockServer {
  import opened Types
  import Parsing
  import Protocol

  class Server {
    const basePort: int
    const knockLength: int
    const accessDuration: int
    const validKnockSequence: seq<int>
    var knockSessions: seq<KnockSession>
    var allowedPeers: seq<AllowedPeer>

    function Cfg(): Protocol.Config
    {
      Protocol.Config(basePort, knockLength, accessDuration, validKnockSequence)
    }

    function State(): Protocol.State
      reads this
    {
      Protocol.State(knockSessions, allowedPeers)
    }

    ghost predicate Valid()
      reads this
    {
      Protocol.Inv(Cfg(), State())
    }

    /** The server as main leaves it before the listeners start: both tables empty. */
    constructor (basePort: int, knockLength: int, accessDuration: int, validKnockSequence: seq<int>)
      ensures Valid() && State() == Protocol.Initial
      ensures Cfg() == Protocol.Config(basePort, knockLength, accessDuration, validKnockSequence)
    {
      this.basePort := basePort;
      this.knockLength := knockLength;
      this.accessDuration := accessDuration;
      this.validKnockSequence := validKnockSequence;
      knockSessions := [];
      allowedPeers := [];
    }

    /** isPeerAllowed: a linear search of allowedPeers, ignoring end. */
    method IsPeerAllowed(peer: IP) returns (allowed: bool)
      ensures allowed <==> exists i :: 0 <= i < |allowedPeers| && allowedPeers[i].ip == peer
    {
      for i := 0 to |allowedPeers|
        invariant forall j :: 0 <= j < i ==> allowedPeers[j].ip != peer
      {
        if allowedPeers[i].ip == peer {
          return true;
        }
      }
      return false;
    }

    /** peerHasKnockSession: the first session with the peer's address; the
        index stands for the pointer the source returns. */
    method PeerHasKnockSession(peer: IP) returns (has: bool, index: nat)
      ensures has <==> exists j :: 0 <= j < |knockSessions| && knockSessions[j].ip == peer
      ensures has ==> index < |knockSessions| && knockSessions[index].ip == peer &&
                      forall j :: 0 <= j < index ==> knockSessions[j].ip != peer
    {
      for i := 0 to |knockSessions|
        invariant forall j :: 0 <= j < i ==> knockSessions[j].ip != peer
      {
        if knockSessions[i].ip == peer {
          return true, i;
        }
      }
      return false, 0;
    }

    /** knockSessionIsComplete: the length check, then a positional comparison. */
    method KnockSessionIsComplete(session: KnockSession) returns (complete: bool)
      ensures complete <==> session.knocks == validKnockSequence
    {
      if |session.knocks| != |validKnockSequence| {
        return false;
      }
      for i := 0 to |session.knocks|
        invariant session.knocks[..i] == validKnockSequence[..i]
      {
        if session.knocks[i] != validKnockSequence[i] {
          return false;
        }
      }
      assert session.knocks == session.knocks[..|session.knocks|];
      return true;
    }

    /** createKnockSessionForPeer: a new session holding one knock, appended
        at the end; its index is returned. */
    method CreateKnockSessionForPeer(peer: IP, port: int) returns (index: nat)
      modifies this
      ensures knockSessions == old(knockSessions) + [KnockSession(peer, [port])]
      ensures index == |old(knockSessions)| && knockSessions[index].ip == peer
      ensures allowedPeers == old(allowedPeers)
    {
      index := |knockSessions|;
      knockSessions := knockSessions + [KnockSession(peer, [port])];
    }

    /** allowPeer at time now. */
    method AllowPeer(peer: IP, now: int)
      modifies this
      ensures allowedPeers == Protocol.Allow(Cfg(), old(allowedPeers), peer, now)
      ensures knockSessions == old(knockSessions)
    {
      var allowed := IsPeerAllowed(peer);
      if allowed {
        return;
      }
      allowedPeers := allowedPeers + [AllowedPeer(peer, now, now + accessDuration)];
    }

    /** The handler of knock listener `position` (port basePort + position)
        for a request from `peer` (None when getPeer fails) at time `now`. */
    method Knock(position: int, peer: Option<IP>, now: int) returns (reply: Protocol.KnockReply)
      requires 1 <= position <= knockLength
      modifies this
      ensures (State(), reply) == Protocol.KnockStep(Cfg(), old(State()), position, peer, now)
      ensures old(Valid()) ==> Valid()
    {
      if Valid() {
        Protocol.KnockPreservesInv(Cfg(), State(), position, peer, now);
      }
      if peer.None? {
        return Protocol.PeerError;
      }
      var p := peer.value;
      var port := basePort + position;
      var allowed := IsPeerAllowed(p);
      if allowed {
        return Protocol.AlreadyAllowed;
      }
      var has, index := PeerHasKnockSession(p);
      if !has {
        index := CreateKnockSessionForPeer(p, port);
        return Protocol.KnockAck;
      }
      Protocol.FindSessionAt(knockSessions, p, index);
      var s := knockSessions[index];
      s := s.(knocks := s.knocks + [port]);
      knockSessions := knockSessions[index := s];
      var complete := KnockSessionIsComplete(s);
      Protocol.CompleteIff(validKnockSequence, s.knocks);
      if !complete {
        return Protocol.KnockAck;
      }
      AllowPeer(p, now);
      return Protocol.Granted;
    }

    /** The base listener's handler: 500 when the peer cannot be
        determined, 200 ("Access granted!") when isPeerAllowed holds, 403
        ("Access denied!") otherwise. */
    method Gate(peer: Option<IP>) returns (status: int)
      ensures status == Protocol.Gate(State(), peer)
      ensures peer.None? <==> status == 500
      ensures peer.Some? ==> (status == 200 <==> exists i :: 0 <= i < |allowedPeers| && allowedPeers[i].ip == peer.value)
      ensures status == 200 || status == 403 || status == 500
      ensures Valid() && status == 200 ==> Protocol.KnocksOf(knockSessions, peer.value) == Some(validKnockSequence)
    {
      if peer.None? {
        return 500;
      }
      var allowed := IsPeerAllowed(peer.value);
      if !allowed {
        return 403;
      }
      return 200;
    }

    /** One tick of the peer manager: walks allowedPeers with an index,
        cutting out each entry whose end is strictly before now and stepping
        the index back so that the entry moved into its place is examined. */
    method Sweep(now: int)
      modifies this
      ensures State() == Protocol.SweepStep(old(State()), now)
      ensures old(Valid()) ==> Valid()
    {
      ghost var original := allowedPeers;
      ghost var k := 0;
      var i := 0;
      assert original[..0] == [] && original[0..] == original;
      while i < |allowedPeers|
        invariant 0 <= i <= |allowedPeers| && 0 <= k <= |original|
        invariant allowedPeers == Protocol.Unexpired(original[..k], now) + original[k..]
        invariant i == |Protocol.Unexpired(original[..k], now)|
        invariant knockSessions == old(knockSessions)
        decreases |allowedPeers| - i
      {
        Protocol.SweepLoopStep(original, k, now, allowedPeers, i);
        if now > allowedPeers[i].end {
          allowedPeers := allowedPeers[..i] + allowedPeers[i + 1..];
          i := i - 1;
        }
        i := i + 1;
        k := k + 1;
      }
      assert original[..k] == original;
      if old(Valid()) {
        Protocol.SweepPreservesInv(Cfg(), old(State()), now);
      }
    }
  }

  /** main up to the point where the listeners start: parse the knock
      sequence flag, refusing to start (log.Fatalf) when it does not parse,
      then create the server with empty tables. */
  method Start(basePort: int, knockLength: int, accessDuration: int, knockSequence: string)
    returns (server: Option<Server>)
    ensures server.Some? <==> Parsing.KnockSequenceOf(knockSequence).Some?
    ensures server.Some? ==>
              fresh(server.value) && server.value.Valid() &&
              server.value.State() == Protocol.Initial &&
              server.value.Cfg() == Protocol.Config(basePort, knockLength, accessDuration,
                                                    Parsing.KnockSequenceOf(knockSequence).value)
  {
    var sequence := Parsing.ParseKnockSequence(knockSequence);
    if sequence.None? {
      return None;
    }
    var s := new Server(basePort, knockLength, accessDuration, sequence.value);
    return Some(s);
  }

  /** The default configuration driven through the class: peer A knocks
      on 8081, 8082 and 8083 at times 0, 1 and 2, the gate opens for it, and
      a sweep at time 303 closes it again. */
  method DefaultScenario() returns (grant: Protocol.KnockReply, during: int, after: int)
    ensures grant == Protocol.Granted && during == 200 && after == 403
  {
    var server := new Server(8080, 3, 300, [8081, 8082, 8083]);
    var a := Some(Protocol.PeerA);
    var reply := server.Knock(1, a, 0);
    reply := server.Knock(2, a, 1);
    grant := server.Knock(3, a, 2);
    Protocol.InOrderScenario();
    during := server.Gate(a);
    ghost var granted := server.State();
    server.Sweep(303);
    Protocol.GrantLifetime(server.Cfg(), granted, 0, 303);
    after := server.Gate(a);
  }
}
