/** The knock and allowlist logic of server/server.go as a pure state machine:
    one function per handler call or sweep pass, each an atomic step on the
    two tables knockSessions and allowedPeers. The class in KnockServer is
    proved to perform exactly these steps. */
module Protocol {
  import opened Types

  /** What the server is started with: the base (gated) port, the number of
      knock listeners, the access duration in clock ticks, and the parsed
      knock sequence. */
  datatype Config = Config(basePort: int, knockLength: int, accessDuration: int, sequence: seq<int>)

  /** knockSessions and allowedPeers, both in insertion order. */
  datatype State = State(sessions: seq<KnockSession>, allowed: seq<AllowedPeer>)

  /** What a knock listener answers: 500 when the peer cannot be determined,
      "You are already allowed access!", "Knock, knock!" or "Access granted!". */
  datatype KnockReply = PeerError | AlreadyAllowed | KnockAck | Granted

  /** Both tables start empty. */
  const Initial: State := State([], [])

  /** The knock listeners are numbered 1..knockLength and listen on
      basePort + position, whatever the configured sequence says. */
  function KnockPort(cfg: Config, position: int): int
  {
    cfg.basePort + position
  }

  predicate Served(cfg: Config, port: int)
  {
    cfg.basePort + 1 <= port <= cfg.basePort + cfg.knockLength
  }

  // ---------------------------------------------------------------------
  // Lookups

  /** isPeerAllowed: some entry carries the peer's address, whatever its end. */
  predicate IsAllowed(allowed: seq<AllowedPeer>, peer: IP)
  {
    exists i :: 0 <= i < |allowed| && allowed[i].ip == peer
  }

  /** peerHasKnockSession: the index of the first session of the peer. */
  function FindSession(sessions: seq<KnockSession>, peer: IP): (r: Option<nat>)
    ensures r.None? <==> forall j :: 0 <= j < |sessions| ==> sessions[j].ip != peer
    ensures r.Some? ==> r.value < |sessions| && sessions[r.value].ip == peer &&
                        forall j :: 0 <= j < r.value ==> sessions[j].ip != peer
  {
    if sessions == [] then None
    else if sessions[0].ip == peer then Some(0)
    else match FindSession(sessions[1..], peer)
      case None => None
      case Some(k) => Some(k + 1)
  }

  /** The knocks recorded for a peer, if it has a session. */
  function KnocksOf(sessions: seq<KnockSession>, peer: IP): Option<seq<int>>
  {
    match FindSession(sessions, peer)
    case None => None
    case Some(k) => Some(sessions[k].knocks)
  }

  /** knockSessionIsComplete: same length as the sequence and equal at every position. */
  predicate Complete(sequence: seq<int>, knocks: seq<int>)
  {
    |knocks| == |sequence| && forall i :: 0 <= i < |knocks| ==> knocks[i] == sequence[i]
  }

  // ---------------------------------------------------------------------
  // Steps

  /** allowPeer: nothing if the peer is already allowed, otherwise a new
      entry from now to now + accessDuration at the end. */
  function Allow(cfg: Config, allowed: seq<AllowedPeer>, peer: IP, now: int): (r: seq<AllowedPeer>)
    ensures IsAllowed(allowed, peer) ==> r == allowed
    ensures !IsAllowed(allowed, peer) ==>
              |r| == |allowed| + 1 && r[..|allowed|] == allowed &&
              r[|allowed|] == AllowedPeer(peer, now, now + cfg.accessDuration)
    ensures UniqueAllowed(allowed) ==> UniqueAllowed(r)
    ensures IsAllowed(r, peer)
  {
    if IsAllowed(allowed, peer) then allowed
    else allowed + [AllowedPeer(peer, now, now + cfg.accessDuration)]
  }

  /** The knock handler of listener `position`, for a request whose peer is
      `peer` (None when getPeer fails), at time `now`. */
  function KnockStep(cfg: Config, st: State, position: int, peer: Option<IP>, now: int): (r: (State, KnockReply))
    requires 1 <= position <= cfg.knockLength
    ensures r.1 == PeerError <==> peer.None?
    ensures r.1 != Granted ==> r.0.allowed == st.allowed
    ensures r.1 == Granted ==> r.0.allowed == st.allowed + [AllowedPeer(peer.value, now, now + cfg.accessDuration)]
    ensures |st.sessions| <= |r.0.sessions| <= |st.sessions| + 1
  {
    if peer.None? then (st, PeerError)
    else
      var p := peer.value;
      var port := KnockPort(cfg, position);
      if IsAllowed(st.allowed, p) then (st, AlreadyAllowed)
      else match FindSession(st.sessions, p)
        case None => (st.(sessions := st.sessions + [KnockSession(p, [port])]), KnockAck)
        case Some(k) =>
          var knocks := st.sessions[k].knocks + [port];
          var sessions := st.sessions[k := st.sessions[k].(knocks := knocks)];
          if !Complete(cfg.sequence, knocks) then (st.(sessions := sessions), KnockAck)
          else (State(sessions, Allow(cfg, st.allowed, p, now)), Granted)
  }

  /** The entries a sweep at `now` keeps: those whose end is not strictly
      before now, in their original order. */
  function Unexpired(allowed: seq<AllowedPeer>, now: int): seq<AllowedPeer>
  {
    if allowed == [] then []
    else
      var last := allowed[|allowed| - 1];
      Unexpired(allowed[..|allowed| - 1], now) + (if now > last.end then [] else [last])
  }

  /** The sweep keeps exactly the entries whose end is not before now. */
  lemma {:induction false} UnexpiredMembers(allowed: seq<AllowedPeer>, now: int)
    ensures |Unexpired(allowed, now)| <= |allowed|
    ensures forall e :: e in Unexpired(allowed, now) <==> e in allowed && !(now > e.end)
    decreases |allowed|
  {
    if allowed != [] {
      var init := allowed[..|allowed| - 1];
      assert allowed == init + [allowed[|allowed| - 1]];
      UnexpiredMembers(init, now);
    }
  }

  /** One pass of the peer manager's ticker loop. */
  function SweepStep(st: State, now: int): (r: State)
    ensures r.sessions == st.sessions && |r.allowed| <= |st.allowed|
  {
    UnexpiredMembers(st.allowed, now);
    st.(allowed := Unexpired(st.allowed, now))
  }

  /** The base listener's status code: 500 when the peer cannot be
      determined, 200 when it is allowed, 403 otherwise. */
  function Gate(st: State, peer: Option<IP>): (status: int)
    ensures peer.None? <==> status == 500
    ensures status == 200 ==> peer.Some? && |st.allowed| >= 1
    ensures status == 200 || status == 403 || status == 500
  {
    if peer.None? then 500 else if IsAllowed(st.allowed, peer.value) then 200 else 403
  }

  // ---------------------------------------------------------------------
  // The invariant every reachable state satisfies

  predicate UniqueSessions(sessions: seq<KnockSession>)
  {
    forall i, j :: 0 <= i < j < |sessions| ==> sessions[i].ip != sessions[j].ip
  }

  predicate UniqueAllowed(allowed: seq<AllowedPeer>)
  {
    forall i, j :: 0 <= i < j < |allowed| ==> allowed[i].ip != allowed[j].ip
  }

  /** At most one session and one allowlist entry per peer; every session
      holds at least one knock, all on served ports; every entry lasts
      exactly accessDuration; and every allowed peer's session holds exactly
      the knock sequence. */
  predicate Inv(cfg: Config, st: State)
  {
    UniqueSessions(st.sessions) && UniqueAllowed(st.allowed) &&
    (forall i :: 0 <= i < |st.sessions| ==> |st.sessions[i].knocks| >= 1) &&
    (forall i, j :: 0 <= i < |st.sessions| && 0 <= j < |st.sessions[i].knocks| ==>
       Served(cfg, st.sessions[i].knocks[j])) &&
    (forall i :: 0 <= i < |st.allowed| ==>
       st.allowed[i].end == st.allowed[i].start + cfg.accessDuration) &&
    (forall i :: 0 <= i < |st.allowed| ==> KnocksOf(st.sessions, st.allowed[i].ip) == Some(cfg.sequence))
  }

  // ---------------------------------------------------------------------
  // Lemmas about the lookups

  /** The first session of a peer is determined by where its address occurs. */
  lemma FindSessionAt(sessions: seq<KnockSession>, peer: IP, k: nat)
    requires k < |sessions| && sessions[k].ip == peer
    requires forall j :: 0 <= j < k ==> sessions[j].ip != peer
    ensures FindSession(sessions, peer) == Some(k)
  {
  }

  /** Appending a session does not move anyone's existing session. */
  lemma FindSessionAppend(sessions: seq<KnockSession>, s: KnockSession, peer: IP)
    ensures FindSession(sessions + [s], peer) ==
              if FindSession(sessions, peer).Some? then FindSession(sessions, peer)
              else if s.ip == peer then Some(|sessions|) else None
  {
    var extended := sessions + [s];
    match FindSession(sessions, peer)
    case Some(k) =>
      assert extended[k] == sessions[k];
      FindSessionAt(extended, peer, k);
    case None =>
      if s.ip == peer {
        FindSessionAt(extended, peer, |sessions|);
      } else {
        assert forall j :: 0 <= j < |extended| ==> extended[j].ip != peer by {
          forall j | 0 <= j < |extended| ensures extended[j].ip != peer {
            if j < |sessions| { assert extended[j] == sessions[j]; }
          }
        }
      }
  }

  /** Changing the knocks of one session moves no one's session. */
  lemma FindSessionUpdate(sessions: seq<KnockSession>, k: nat, knocks: seq<int>, peer: IP)
    requires k < |sessions|
    ensures FindSession(sessions[k := sessions[k].(knocks := knocks)], peer) == FindSession(sessions, peer)
  {
    var updated := sessions[k := sessions[k].(knocks := knocks)];
    assert forall j :: 0 <= j < |sessions| ==> updated[j].ip == sessions[j].ip;
    match FindSession(sessions, peer)
    case Some(m) => FindSessionAt(updated, peer, m);
    case None =>
  }

  // ---------------------------------------------------------------------
  // The knock handler

  /** knockSessionIsComplete is sequence equality. */
  lemma CompleteIff(sequence: seq<int>, knocks: seq<int>)
    ensures Complete(sequence, knocks) <==> knocks == sequence
  {
  }

  /** A knock from an allowed peer changes nothing and says so. */
  lemma KnockWhenAllowed(cfg: Config, st: State, position: int, peer: IP, now: int)
    requires 1 <= position <= cfg.knockLength
    requires IsAllowed(st.allowed, peer)
    ensures KnockStep(cfg, st, position, Some(peer), now) == (st, AlreadyAllowed)
  {
  }

  /** The first knock of a peer that is not allowed appends one session
      holding just that port, and never grants. */
  lemma FirstKnock(cfg: Config, st: State, position: int, peer: IP, now: int)
    requires 1 <= position <= cfg.knockLength
    requires !IsAllowed(st.allowed, peer) && KnocksOf(st.sessions, peer) == None
    ensures KnockStep(cfg, st, position, Some(peer), now) ==
              (State(st.sessions + [KnockSession(peer, [KnockPort(cfg, position)])], st.allowed), KnockAck)
  {
  }

  /** A later knock appends the port to that peer's session alone, and
      grants exactly when the extended knocks are the whole sequence. */
  lemma LaterKnock(cfg: Config, st: State, position: int, peer: IP, now: int, knocks: seq<int>)
    requires 1 <= position <= cfg.knockLength
    requires !IsAllowed(st.allowed, peer) && KnocksOf(st.sessions, peer) == Some(knocks)
    ensures var (st', reply) := KnockStep(cfg, st, position, Some(peer), now);
            var extended := knocks + [KnockPort(cfg, position)];
            |st'.sessions| == |st.sessions| &&
            KnocksOf(st'.sessions, peer) == Some(extended) &&
            (forall i :: 0 <= i < |st.sessions| && st.sessions[i].ip != peer ==> st'.sessions[i] == st.sessions[i]) &&
            (reply == Granted <==> extended == cfg.sequence) &&
            (reply == Granted ==> st'.allowed == st.allowed + [AllowedPeer(peer, now, now + cfg.accessDuration)]) &&
            (reply != Granted ==> reply == KnockAck && st'.allowed == st.allowed)
  {
    var k := FindSession(st.sessions, peer).value;
    var extended := knocks + [KnockPort(cfg, position)];
    FindSessionUpdate(st.sessions, k, extended, peer);
    CompleteIff(cfg.sequence, extended);
  }

  /** Knocks of one peer leave every other peer's session and allowlist
      status as they were, so peers knocking interleaved cannot disturb
      each other. */
  lemma PeerIsolation(cfg: Config, st: State, position: int, peer: Option<IP>, now: int, other: IP)
    requires 1 <= position <= cfg.knockLength
    requires peer != Some(other)
    ensures var st' := KnockStep(cfg, st, position, peer, now).0;
            KnocksOf(st'.sessions, other) == KnocksOf(st.sessions, other) &&
            (IsAllowed(st'.allowed, other) <==> IsAllowed(st.allowed, other))
  {
    if peer.Some? && !IsAllowed(st.allowed, peer.value) {
      var p := peer.value;
      var port := KnockPort(cfg, position);
      match FindSession(st.sessions, p)
      case None =>
        FindSessionAppend(st.sessions, KnockSession(p, [port]), other);
        var extended := st.sessions + [KnockSession(p, [port])];
        if FindSession(st.sessions, other).Some? {
          assert extended[FindSession(st.sessions, other).value] ==
                 st.sessions[FindSession(st.sessions, other).value];
        }
      case Some(k) =>
        var knocks := st.sessions[k].knocks + [port];
        FindSessionUpdate(st.sessions, k, knocks, other);
        var st' := KnockStep(cfg, st, position, peer, now).0;
        assert st'.allowed == st.allowed || st'.allowed == st.allowed + [AllowedPeer(p, now, now + cfg.accessDuration)];
        if IsAllowed(st'.allowed, other) {
          var i :| 0 <= i < |st'.allowed| && st'.allowed[i].ip == other;
          assert i < |st.allowed| && st'.allowed[i] == st.allowed[i];
        }
        if IsAllowed(st.allowed, other) {
          var i :| 0 <= i < |st.allowed| && st.allowed[i].ip == other;
          assert st'.allowed[i] == st.allowed[i];
        }
    }
  }

  /** Sessions are never removed or shortened: a step keeps every session
      at its index, with the same address, and its old knocks as a prefix. */
  lemma SessionsOnlyGrow(cfg: Config, st: State, position: int, peer: Option<IP>, now: int)
    requires 1 <= position <= cfg.knockLength
    ensures var st' := KnockStep(cfg, st, position, peer, now).0;
            |st.sessions| <= |st'.sessions| <= |st.sessions| + 1 &&
            forall i :: 0 <= i < |st.sessions| ==>
              st'.sessions[i].ip == st.sessions[i].ip &&
              st.sessions[i].knocks <= st'.sessions[i].knocks
  {
  }

  /** The knocks of a session can still become the sequence only while they
      are a proper prefix of it. */
  predicate CanComplete(sequence: seq<int>, knocks: seq<int>)
  {
    |knocks| < |sequence| && knocks == sequence[..|knocks|]
  }

  /** A session that is no longer a proper prefix of the sequence (a wrong
      or out-of-order port, or already as long as the sequence) never
      grants again and stays that way: the knocks keep growing. This covers
      a peer whose access expired: its session still holds the whole
      sequence, so that peer is never granted again. */
  lemma StuckSession(cfg: Config, st: State, position: int, peer: IP, now: int, knocks: seq<int>)
    requires 1 <= position <= cfg.knockLength
    requires KnocksOf(st.sessions, peer) == Some(knocks) && !CanComplete(cfg.sequence, knocks)
    ensures var (st', reply) := KnockStep(cfg, st, position, Some(peer), now);
            reply != Granted &&
            exists knocks' :: KnocksOf(st'.sessions, peer) == Some(knocks') && !CanComplete(cfg.sequence, knocks')
  {
    if !IsAllowed(st.allowed, peer) {
      var extended := knocks + [KnockPort(cfg, position)];
      LaterKnock(cfg, st, position, peer, now, knocks);
      assert KnocksOf(KnockStep(cfg, st, position, Some(peer), now).0.sessions, peer) == Some(extended);
    } else {
      assert KnocksOf(KnockStep(cfg, st, position, Some(peer), now).0.sessions, peer) == Some(knocks);
    }
  }

  /** In a reachable state a sequence of one port can never be completed:
      the first knock opens a session without checking it, and every later
      knock makes the session at least two long. */
  lemma GrantNeedsTwoKnocks(cfg: Config, st: State, position: int, peer: Option<IP>, now: int)
    requires Inv(cfg, st) && 1 <= position <= cfg.knockLength
    requires KnockStep(cfg, st, position, peer, now).1 == Granted
    ensures |cfg.sequence| >= 2
  {
  }

  /** The knock handler keeps the invariant. */
  lemma KnockPreservesInv(cfg: Config, st: State, position: int, peer: Option<IP>, now: int)
    requires Inv(cfg, st) && 1 <= position <= cfg.knockLength
    ensures Inv(cfg, KnockStep(cfg, st, position, peer, now).0)
  {
    if peer.Some? && !IsAllowed(st.allowed, peer.value) {
      var p := peer.value;
      var port := KnockPort(cfg, position);
      var st' := KnockStep(cfg, st, position, peer, now).0;
      match FindSession(st.sessions, p)
      case None =>
        var s := KnockSession(p, [port]);
        assert st'.sessions == st.sessions + [s];
        forall i | 0 <= i < |st.allowed|
          ensures KnocksOf(st'.sessions, st.allowed[i].ip) == Some(cfg.sequence)
        {
          var q := st.allowed[i].ip;
          FindSessionAppend(st.sessions, s, q);
          var m := FindSession(st.sessions, q).value;
          assert st'.sessions[m] == st.sessions[m];
        }
      case Some(k) =>
        var knocks := st.sessions[k].knocks + [port];
        assert st'.sessions == st.sessions[k := st.sessions[k].(knocks := knocks)];
        forall q ensures FindSession(st'.sessions, q) == FindSession(st.sessions, q) {
          FindSessionUpdate(st.sessions, k, knocks, q);
        }
        forall i | 0 <= i < |st.allowed|
          ensures KnocksOf(st'.sessions, st.allowed[i].ip) == Some(cfg.sequence)
        {
          var q := st.allowed[i].ip;
          var m := FindSession(st.sessions, q).value;
          assert q != p;
          assert m != k;
        }
        if Complete(cfg.sequence, knocks) {
          CompleteIff(cfg.sequence, knocks);
          assert st'.allowed == st.allowed + [AllowedPeer(p, now, now + cfg.accessDuration)];
          forall i | 0 <= i < |st'.allowed|
            ensures KnocksOf(st'.sessions, st'.allowed[i].ip) == Some(cfg.sequence)
            ensures st'.allowed[i].end == st'.allowed[i].start + cfg.accessDuration
          {
            if i < |st.allowed| { assert st'.allowed[i] == st.allowed[i]; }
          }
        }
    }
  }

  // ---------------------------------------------------------------------
  // The expiry sweep

  /** Sweeping a concatenation sweeps each part in place: the sweep keeps
      the surviving entries in their original order. */
  lemma {:induction false} UnexpiredAppend(a: seq<AllowedPeer>, b: seq<AllowedPeer>, now: int)
    ensures Unexpired(a + b, now) == Unexpired(a, now) + Unexpired(b, now)
    decreases |b|
  {
    if b == [] {
      assert a + b == a;
    } else {
      var init := b[..|b| - 1];
      var last := b[|b| - 1];
      assert (a + b)[..|a + b| - 1] == a + init;
      UnexpiredAppend(a, init, now);
    }
  }

  /** One iteration of the sweep's index loop: with the first k entries
      examined (their survivors occupy the first i places) the entry at
      index i is the k-th original one; cutting it out when it has expired,
      or stepping past it otherwise, examines one more entry. */
  lemma SweepLoopStep(original: seq<AllowedPeer>, k: nat, now: int, peers: seq<AllowedPeer>, i: nat)
    requires k < |original|
    requires peers == Unexpired(original[..k], now) + original[k..]
    requires i == |Unexpired(original[..k], now)|
    ensures i < |peers| && peers[i] == original[k]
    ensures now > original[k].end ==>
              peers[..i] + peers[i + 1..] == Unexpired(original[..k + 1], now) + original[k + 1..] &&
              i == |Unexpired(original[..k + 1], now)|
    ensures !(now > original[k].end) ==>
              peers == Unexpired(original[..k + 1], now) + original[k + 1..] &&
              i + 1 == |Unexpired(original[..k + 1], now)|
  {
    var done := Unexpired(original[..k], now);
    assert original[..k + 1][..k] == original[..k];
    assert original[k..] == [original[k]] + original[k + 1..];
    assert peers[..i] == done && peers[i + 1..] == original[k + 1..];
    assert Unexpired(original[..k + 1], now) == done + (if now > original[k].end then [] else [original[k]]);
  }

  /** Removing expired entries cannot create two entries for one peer. */
  lemma {:induction false} UnexpiredUnique(allowed: seq<AllowedPeer>, now: int)
    requires UniqueAllowed(allowed)
    ensures UniqueAllowed(Unexpired(allowed, now))
    decreases |allowed|
  {
    if allowed != [] {
      var init := allowed[..|allowed| - 1];
      var last := allowed[|allowed| - 1];
      UnexpiredUnique(init, now);
      UnexpiredMembers(init, now);
      var kept := Unexpired(init, now);
      forall e | e in kept ensures e.ip != last.ip {
        var m :| 0 <= m < |init| && init[m] == e;
        assert allowed[m] == e;
      }
    }
  }

  /** The sweep keeps the invariant. */
  lemma SweepPreservesInv(cfg: Config, st: State, now: int)
    requires Inv(cfg, st)
    ensures Inv(cfg, SweepStep(st, now))
  {
    UnexpiredUnique(st.allowed, now);
    UnexpiredMembers(st.allowed, now);
    var kept := Unexpired(st.allowed, now);
    forall i | 0 <= i < |kept|
      ensures kept[i].end == kept[i].start + cfg.accessDuration
      ensures KnocksOf(st.sessions, kept[i].ip) == Some(cfg.sequence)
    {
      assert kept[i] in st.allowed;
    }
  }

  /** After a sweep at `now` a peer is allowed exactly when it had an entry
      whose end is not before now. */
  lemma SweepThenGate(st: State, now: int, peer: IP)
    ensures Gate(SweepStep(st, now), Some(peer)) == 200 <==>
              exists i :: 0 <= i < |st.allowed| && st.allowed[i].ip == peer && now <= st.allowed[i].end
  {
    var kept := Unexpired(st.allowed, now);
    UnexpiredMembers(st.allowed, now);
    if Gate(SweepStep(st, now), Some(peer)) == 200 {
      var j :| 0 <= j < |kept| && kept[j].ip == peer;
      assert kept[j] in st.allowed;
    }
    if exists i :: 0 <= i < |st.allowed| && st.allowed[i].ip == peer && now <= st.allowed[i].end {
      var i :| 0 <= i < |st.allowed| && st.allowed[i].ip == peer && now <= st.allowed[i].end;
      assert st.allowed[i] in kept;
    }
  }

  /** Between sweeps the gate ignores expiry: an entry past its end still
      opens the gate until a sweep removes it. */
  lemma GateIgnoresExpiry(st: State, i: nat, now: int)
    requires i < |st.allowed| && st.allowed[i].end < now
    ensures Gate(st, Some(st.allowed[i].ip)) == 200
    ensures Gate(SweepStep(st, now), Some(st.allowed[i].ip)) == 403 <==>
              forall j :: 0 <= j < |st.allowed| && st.allowed[j].ip == st.allowed[i].ip ==> st.allowed[j].end < now
  {
    SweepThenGate(st, now, st.allowed[i].ip);
  }

  /** A grant made at `start` survives every sweep up to and including
      start + accessDuration and is removed by the first sweep after it. */
  lemma GrantLifetime(cfg: Config, st: State, i: nat, now: int)
    requires Inv(cfg, st) && i < |st.allowed|
    ensures Gate(SweepStep(st, now), Some(st.allowed[i].ip)) == 200 <==>
              now <= st.allowed[i].start + cfg.accessDuration
  {
    var p := st.allowed[i].ip;
    SweepThenGate(st, now, p);
    assert forall j :: 0 <= j < |st.allowed| && st.allowed[j].ip == p ==> j == i;
  }

  // ---------------------------------------------------------------------
  // Runs: any interleaving of handler calls and sweeps

  datatype Event =
    | KnockEvent(position: int, peer: Option<IP>, now: int)
    | SweepEvent(now: int)

  /** Knock events come from one of the knockLength listeners. */
  predicate WellFormed(cfg: Config, events: seq<Event>)
  {
    forall i :: 0 <= i < |events| && events[i].KnockEvent? ==>
      1 <= events[i].position <= cfg.knockLength
  }

  function Apply(cfg: Config, st: State, e: Event): State
    requires e.KnockEvent? ==> 1 <= e.position <= cfg.knockLength
  {
    match e
    case KnockEvent(position, peer, now) => KnockStep(cfg, st, position, peer, now).0
    case SweepEvent(now) => SweepStep(st, now)
  }

  /** The state after the events, in order, each one atomic. */
  function Run(cfg: Config, st: State, events: seq<Event>): State
    requires WellFormed(cfg, events)
    decreases |events|
  {
    if events == [] then st
    else Run(cfg, Apply(cfg, st, events[0]), events[1..])
  }

  /** Every state reachable from the empty tables satisfies the invariant. */
  lemma {:induction false} RunPreservesInv(cfg: Config, st: State, events: seq<Event>)
    requires WellFormed(cfg, events) && Inv(cfg, st)
    ensures Inv(cfg, Run(cfg, st, events))
    decreases |events|
  {
    if events != [] {
      var e := events[0];
      if e.KnockEvent? {
        assert 1 <= e.position <= cfg.knockLength;
        KnockPreservesInv(cfg, st, e.position, e.peer, e.now);
      } else {
        SweepPreservesInv(cfg, st, e.now);
      }
      RunPreservesInv(cfg, Apply(cfg, st, events[0]), events[1..]);
    }
  }

  /** Whatever happened since startup, the gate opens for a peer only if
      its session holds exactly the knock sequence, and only if every port
      of the sequence is one the server listens on. */
  lemma GateOpensOnlyAfterSequence(cfg: Config, events: seq<Event>, peer: IP)
    requires WellFormed(cfg, events)
    requires Gate(Run(cfg, Initial, events), Some(peer)) == 200
    ensures KnocksOf(Run(cfg, Initial, events).sessions, peer) == Some(cfg.sequence)
    ensures forall j :: 0 <= j < |cfg.sequence| ==> Served(cfg, cfg.sequence[j])
  {
    var st := Run(cfg, Initial, events);
    RunPreservesInv(cfg, Initial, events);
    var i :| 0 <= i < |st.allowed| && st.allowed[i].ip == peer;
    var k := FindSession(st.sessions, peer).value;
    assert st.sessions[k].knocks == cfg.sequence;
  }

  /** One peer knocking on the listeners at `positions`, one knock per
      tick from `now` on. */
  function PeerKnocks(positions: seq<int>, peer: IP, now: int): (events: seq<Event>)
    ensures |events| == |positions|
    ensures forall j :: 0 <= j < |positions| ==> events[j] == KnockEvent(positions[j], Some(peer), now + j)
  {
    if positions == [] then []
    else [KnockEvent(positions[0], Some(peer), now)] + PeerKnocks(positions[1..], peer, now + 1)
  }

  /** The listeners at `positions` are served ones and listen, in order,
      on the ports of the sequence from index `from` on. */
  predicate KnocksSequenceFrom(cfg: Config, positions: seq<int>, from: nat)
  {
    from + |positions| == |cfg.sequence| &&
    forall j :: 0 <= j < |positions| ==>
      1 <= positions[j] <= cfg.knockLength && KnockPort(cfg, positions[j]) == cfg.sequence[from + j]
  }

  /** A peer that is not allowed, whose session holds the first k ports of
      the sequence, and that knocks the remaining ports in order, is
      allowed afterwards. */
  lemma {:induction false} ContinueInOrder(cfg: Config, st: State, peer: IP, positions: seq<int>, k: nat, now: int)
    requires 1 <= k && |positions| >= 1 && KnocksSequenceFrom(cfg, positions, k)
    requires !IsAllowed(st.allowed, peer) && KnocksOf(st.sessions, peer) == Some(cfg.sequence[..k])
    ensures WellFormed(cfg, PeerKnocks(positions, peer, now))
    ensures IsAllowed(Run(cfg, st, PeerKnocks(positions, peer, now)).allowed, peer)
    decreases |positions|
  {
    var events := PeerKnocks(positions, peer, now);
    var rest := PeerKnocks(positions[1..], peer, now + 1);
    assert events == [events[0]] + rest;
    assert events[1..] == rest;
    LaterKnock(cfg, st, positions[0], peer, now, cfg.sequence[..k]);
    var (st', reply) := KnockStep(cfg, st, positions[0], Some(peer), now);
    assert cfg.sequence[..k] + [KnockPort(cfg, positions[0])] == cfg.sequence[..k + 1];
    assert Run(cfg, st, events) == Run(cfg, st', rest);
    if |positions| == 1 {
      assert cfg.sequence[..k + 1] == cfg.sequence;
      assert st'.allowed[|st.allowed|].ip == peer;
    } else {
      assert |cfg.sequence[..k + 1]| < |cfg.sequence|;
      assert KnocksSequenceFrom(cfg, positions[1..], k + 1) by {
        forall j | 0 <= j < |positions[1..]|
          ensures KnockPort(cfg, positions[1..][j]) == cfg.sequence[k + 1 + j]
        {
          assert positions[1..][j] == positions[j + 1];
        }
      }
      ContinueInOrder(cfg, st', peer, positions[1..], k + 1, now + 1);
    }
  }

  /** For every configuration: a peer with no session that is not allowed,
      and that knocks the listeners whose ports are the sequence, in
      order, is allowed after the last knock. The sequence must have at
      least two ports (see GrantNeedsTwoKnocks). */
  lemma InOrderGrants(cfg: Config, st: State, peer: IP, positions: seq<int>, now: int)
    requires |cfg.sequence| >= 2 && KnocksSequenceFrom(cfg, positions, 0)
    requires !IsAllowed(st.allowed, peer) && KnocksOf(st.sessions, peer) == None
    ensures WellFormed(cfg, PeerKnocks(positions, peer, now))
    ensures IsAllowed(Run(cfg, st, PeerKnocks(positions, peer, now)).allowed, peer)
  {
    var events := PeerKnocks(positions, peer, now);
    var rest := PeerKnocks(positions[1..], peer, now + 1);
    assert events == [events[0]] + rest;
    assert events[1..] == rest;
    var first := KnockSession(peer, [KnockPort(cfg, positions[0])]);
    var st1 := KnockStep(cfg, st, positions[0], Some(peer), now).0;
    assert st1 == State(st.sessions + [first], st.allowed);
    FindSessionAppend(st.sessions, first, peer);
    assert (st.sessions + [first])[|st.sessions|] == first;
    assert [KnockPort(cfg, positions[0])] == cfg.sequence[..1];
    assert KnocksSequenceFrom(cfg, positions[1..], 1) by {
      forall j | 0 <= j < |positions[1..]|
        ensures KnockPort(cfg, positions[1..][j]) == cfg.sequence[1 + j]
      {
        assert positions[1..][j] == positions[j + 1];
      }
    }
    ContinueInOrder(cfg, st1, peer, positions[1..], 1, now + 1);
    assert Run(cfg, st, events) == Run(cfg, st1, rest);
  }

  /** A peer that is not allowed and whose session can no longer complete
      stays locked out whatever happens afterwards: its own knocks, other
      peers' knocks and sweeps. This covers a peer whose grant was swept
      away, since its session still holds the whole sequence. */
  lemma {:induction false} StuckForever(cfg: Config, st: State, events: seq<Event>, peer: IP, knocks: seq<int>)
    requires WellFormed(cfg, events)
    requires !IsAllowed(st.allowed, peer)
    requires KnocksOf(st.sessions, peer) == Some(knocks) && !CanComplete(cfg.sequence, knocks)
    ensures !IsAllowed(Run(cfg, st, events).allowed, peer)
    decreases |events|
  {
    if events != [] {
      var e := events[0];
      var st' := Apply(cfg, st, e);
      var knocks' := knocks;
      if e.KnockEvent? {
        assert 1 <= e.position <= cfg.knockLength;
        if e.peer == Some(peer) {
          StuckSession(cfg, st, e.position, peer, e.now, knocks);
          LaterKnock(cfg, st, e.position, peer, e.now, knocks);
          knocks' :| KnocksOf(st'.sessions, peer) == Some(knocks') && !CanComplete(cfg.sequence, knocks');
        } else {
          PeerIsolation(cfg, st, e.position, e.peer, e.now, peer);
        }
      } else {
        UnexpiredMembers(st.allowed, e.now);
      }
      assert WellFormed(cfg, events[1..]);
      StuckForever(cfg, st', events[1..], peer, knocks');
    }
  }

  /** A peer whose grant has been swept away is never granted again. */
  lemma ExpiredPeerStaysOut(cfg: Config, st: State, events: seq<Event>, peer: IP)
    requires Inv(cfg, st) && WellFormed(cfg, events)
    requires !IsAllowed(st.allowed, peer) && KnocksOf(st.sessions, peer) == Some(cfg.sequence)
    ensures !IsAllowed(Run(cfg, st, events).allowed, peer)
  {
    StuckForever(cfg, st, events, peer, cfg.sequence);
  }

  // ---------------------------------------------------------------------
  // The scenarios of the default configuration

  const Default: Config := Config(8080, 3, 300, [8081, 8082, 8083])
  /** 10.0.0.1 and 10.0.0.2 in the 16-byte form net.ParseIP yields. */
  const PeerA: IP := [0, 0, 0, 0, 0, 0, 0, 0, 0, 0, 0xff, 0xff, 10, 0, 0, 1]
  const PeerB: IP := [0, 0, 0, 0, 0, 0, 0, 0, 0, 0, 0xff, 0xff, 10, 0, 0, 2]

  /** Peer A knocks 8081, 8082, 8083 in order and is granted; the gate
      stays closed to peer B. */
  lemma InOrderScenario()
    ensures var s1 := KnockStep(Default, Initial, 1, Some(PeerA), 0).0;
            var s2 := KnockStep(Default, s1, 2, Some(PeerA), 1).0;
            var (s3, reply) := KnockStep(Default, s2, 3, Some(PeerA), 2);
            reply == Granted && Gate(s3, Some(PeerA)) == 200 && Gate(s3, Some(PeerB)) == 403 &&
            s3.allowed == [AllowedPeer(PeerA, 2, 302)]
  {
    var s1 := KnockStep(Default, Initial, 1, Some(PeerA), 0).0;
    assert s1 == State([KnockSession(PeerA, [8081])], []);
    FindSessionAt(s1.sessions, PeerA, 0);
    var s2 := KnockStep(Default, s1, 2, Some(PeerA), 1).0;
    assert !Complete(Default.sequence, [8081, 8082]);
    assert [8081] + [KnockPort(Default, 2)] == [8081, 8082];
    assert s2 == State([KnockSession(PeerA, [8081, 8082])], []);
    FindSessionAt(s2.sessions, PeerA, 0);
    assert Complete(Default.sequence, [8081, 8082, 8083]);
    var s3 := KnockStep(Default, s2, 3, Some(PeerA), 2).0;
    assert s3.allowed == [AllowedPeer(PeerA, 2, 302)];
    assert PeerA != PeerB && s3.allowed[0].ip != PeerB;
  }

  /** Peer B knocks 8082, 8081, 8083 and stays locked out. */
  lemma OutOfOrderScenario()
    ensures var s1 := KnockStep(Default, Initial, 2, Some(PeerB), 0).0;
            var s2 := KnockStep(Default, s1, 1, Some(PeerB), 1).0;
            var (s3, reply) := KnockStep(Default, s2, 3, Some(PeerB), 2);
            reply == KnockAck && Gate(s3, Some(PeerB)) == 403
  {
    var s1 := KnockStep(Default, Initial, 2, Some(PeerB), 0).0;
    assert s1 == State([KnockSession(PeerB, [8082])], []);
    FindSessionAt(s1.sessions, PeerB, 0);
    var s2 := KnockStep(Default, s1, 1, Some(PeerB), 1).0;
    assert !Complete(Default.sequence, [8082, 8081]);
    assert [8082] + [KnockPort(Default, 1)] == [8082, 8081];
    assert s2 == State([KnockSession(PeerB, [8082, 8081])], []);
    FindSessionAt(s2.sessions, PeerB, 0);
    assert [8082, 8081] + [KnockPort(Default, 3)] == [8082, 8081, 8083];
    assert Default.sequence[0] != 8082;
  }

  /** Peer A, granted at time 2 for 300 ticks, survives a sweep at 302 and
      is removed by a sweep at 303: the end itself still counts as allowed. */
  lemma ExpiryScenario()
    ensures var st := State([KnockSession(PeerA, [8081, 8082, 8083])], [AllowedPeer(PeerA, 2, 302)]);
            Gate(SweepStep(st, 302), Some(PeerA)) == 200 && Gate(SweepStep(st, 303), Some(PeerA)) == 403
  {
    var entry := AllowedPeer(PeerA, 2, 302);
    assert [entry][..0] == [];
    assert Unexpired([entry], 302) == [entry];
    assert Unexpired([entry], 303) == [];
  }
}
