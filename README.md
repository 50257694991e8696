# Port knocker: the knock and allowlist state machine

This project models the server of a port-knocking access control system
(`server/server.go`). A peer must knock on the knock listeners in the
configured order. After that, the gated base listener answers it with
"Access granted!" until a periodic sweep drops its grant. The model covers
the part of the server with state:

- the global `validKnockSequence`, parsed once from a comma-separated flag;
- `knockSessions`, one record per peer holding the ports it knocked on;
- `allowedPeers`, one record per granted peer with its start and end time;
- the knock handler, the base handler and one pass of the expiry sweep.

Modules:

- `Types`: peer addresses (`IP`, raw bytes) and the `KnockSession` and
  `AllowedPeer` records.
- `Parsing`: `strings.Split`, `strconv.Atoi` and `parseKnockSequence`. The
  parse method fills an array in a loop, as the source does. It is proved
  equal to `KnockSequenceOf`, and the lemmas prove that every non-empty list
  of 64-bit ints written out with commas parses back to exactly that list.
  The empty text is one empty field, which does not parse.
- `Protocol`: the pure state machine. `KnockStep`, `SweepStep` and `Gate`
  are each one atomic handler call or sweep pass over `State(sessions,
  allowed)`. `Inv` is the invariant, and the lemmas state what the source
  promises about each step and about any run of steps.
- `KnockServer`: the class `Server`. Its fields are the two slices that the
  handlers replace in place. Its methods keep the source's loops: linear
  searches, the positional comparison, and the sweep's `append(a[:i],
  a[i+1:]...)` with `i--`. `Knock`, `Gate` and `Sweep` are each proved to
  perform exactly the matching `Protocol` step, and `Knock` and `Sweep` keep
  `Inv`. The helpers are proved against their own contracts: the three
  searches against what they find, `AllowPeer` against `Protocol.Allow`, and
  `CreateKnockSessionForPeer` against the appended session. The two helpers
  that change state keep `Inv` only as parts of a knock, not on their own.

Behaviour of the code worth knowing:

- Sessions are never removed or reset. A peer that is not allowed and whose
  knocks stop being a proper prefix of the sequence is never granted,
  whatever is knocked or swept afterwards (`StuckForever`). A granted
  peer's session still holds the whole sequence after the grant expires, so
  that peer is never granted again while the process lives
  (`ExpiredPeerStaysOut`).
- `isPeerAllowed` ignores the end time. Only the sweep removes entries, and
  it removes only those with `now > end`. So an entry is still honoured at
  exactly `start + accessDuration` (`GrantLifetime`, `GateIgnoresExpiry`).
- The knock sequence is not validated. Duplicate, zero and negative ports
  are accepted (`ParseFormat`).
- Knock listeners listen on `basePort + 1 .. basePort + knockLength`,
  whatever the sequence says. If the sequence names a port outside that
  range, nobody can ever be granted (`GateOpensOnlyAfterSequence`).
- The first knock of a peer opens its session without checking for
  completion. A one-port sequence can therefore never be satisfied
  (`GrantNeedsTwoKnocks`).

Time is an integer clock passed in as `now`. The access duration is an
integer number of the same ticks.

## Model

| member | source | states |
|---|---|---|
| `Parsing.Split` | server/server.go:144 | strings.Split always yields at least one field, so the empty text is one empty field |
| `Parsing.SplitFields` | server/server.go:144 | strings.Split at commas gives one more field than there are commas, and no field contains a comma |
| `Parsing.JoinSplit` | server/server.go:144 | joining the fields of a split with the separator gives back the original flag text |
| `Parsing.SplitJoin` | server/server.go:144 | splitting comma-joined, comma-free fields gives back exactly those fields |
| `Parsing.AtoiItoa` | server/server.go:147 | Atoi reads back every 64-bit int written in decimal, negative ones included |
| `Parsing.Atoi` | server/server.go:147-150 | Atoi only yields values in the 64-bit range and refuses "", "-" and "+" |
| `Parsing.ParseFields` | server/server.go:146-152 | fields parse exactly when every field is an integer; the result has one port per field, in order |
| `Parsing.KnockSequenceOf` | server/server.go:143-153 | a parsed knock sequence has one port per comma-separated field, each in the 64-bit range |
| `Parsing.ParseKnockSequence` | server/server.go:143-153 | the array-filling loop yields the parse of the flag: one port per comma-separated field, in order, or an abort when any field is not an integer |
| `Parsing.ParseFormat` | server/server.go:143-153 | any non-empty list of 64-bit ints, duplicates and non-positive values included, is accepted back exactly |
| `Parsing.EmptyFieldRejected` | server/server.go:147-150 | a flag with an empty field (leading, trailing or doubled comma, or empty text) aborts startup |
| `Protocol.IsAllowed` | server/server.go:215-222 | a peer is allowed when some allowlist entry carries its address, whatever the entry's end |
| `Protocol.Complete` | server/server.go:188-198 | a session is complete when its knocks have the sequence's length and agree with it at every position |
| `Protocol.Allow` | server/server.go:200-213 | allowPeer leaves the list alone for an allowed peer; otherwise it appends one entry ending accessDuration after its start and keeps earlier entries; the peer is allowed afterwards and at most one entry per peer remains |
| `Protocol.KnockStep` | server/server.go:106-140 | one knock handler call: status 500 exactly when the peer is unknown; only a grant changes the allowlist, by appending the peer's entry; at most one session is added |
| `Protocol.Unexpired` | server/server.go:74-80 | the entries a sweep keeps: those whose end is not strictly before now, in their original order |
| `Protocol.SweepStep` | server/server.go:74-80 | a sweep pass leaves the sessions alone and never lengthens the allowlist |
| `Protocol.Gate` | server/server.go:87-103 | the base listener answers 500 exactly when the peer is unknown, 200 only to a known peer when some entry exists, and otherwise 403 |
| `Protocol.FindSession` | server/server.go:170-177 | finds the first session with the peer's address, or reports that none has it |
| `Protocol.FindSessionAppend` | server/server.go:179-186 | appending a session leaves every existing peer's session where it was |
| `Protocol.FindSessionUpdate` | server/server.go:129 | appending a knock to one session changes no peer's session lookup |
| `Protocol.CompleteIff` | server/server.go:188-198 | a session is complete exactly when its knocks equal the sequence: same length, equal at every position |
| `Protocol.KnockWhenAllowed` | server/server.go:116-121 | a knock from an allowed peer changes neither table and answers "already allowed" |
| `Protocol.FirstKnock` | server/server.go:122-128 | the first knock of a peer that is not allowed appends one session holding only that port and never grants |
| `Protocol.LaterKnock` | server/server.go:129-137 | a later knock extends only that peer's session; it grants, appending one entry, exactly when the extended knocks equal the sequence |
| `Protocol.PeerIsolation` | server/server.go:116-137 | a knock from one peer leaves every other peer's session and allowlist status unchanged |
| `Protocol.SessionsOnlyGrow` | server/server.go:122-137 | no session is ever removed, moved or shortened; a knock adds at most one session |
| `Protocol.StuckSession` | server/server.go:129-137 | one more knock by a peer whose session is not a proper prefix of the sequence does not grant, and the session stays that way |
| `Protocol.GrantNeedsTwoKnocks` | server/server.go:122-137 | in a reachable state a grant needs a sequence of at least two ports |
| `Protocol.KnockPreservesInv` | server/server.go:116-137 | the knock handler keeps one session and one entry per peer, served ports only, exact durations, and allowed peers' sessions equal to the sequence |
| `Protocol.UnexpiredMembers` | server/server.go:74-80 | the sweep keeps exactly the entries whose end is not strictly before now |
| `Protocol.UnexpiredAppend` | server/server.go:74-80 | the sweep works entry by entry, so the survivors keep their original order |
| `Protocol.UnexpiredUnique` | server/server.go:74-80 | the sweep keeps at most one entry per peer |
| `Protocol.SweepPreservesInv` | server/server.go:74-80 | a sweep pass keeps the invariant |
| `Protocol.SweepThenGate` | server/server.go:95-102 | after a sweep at now, the gate answers 200 exactly for peers that had an entry ending at or after now |
| `Protocol.GateIgnoresExpiry` | server/server.go:215-222 | an entry past its end still opens the gate until a sweep removes it |
| `Protocol.GrantLifetime` | server/server.go:74-80 | a grant made at start survives every sweep up to and including start + accessDuration and is gone after the first later sweep |
| `Protocol.RunPreservesInv` | server/server.go:106-140 | any interleaving of knock calls and sweep passes keeps the invariant |
| `Protocol.GateOpensOnlyAfterSequence` | server/server.go:95-102 | after any run from empty tables the gate opens for a peer only if its session holds exactly the sequence, and only if every sequence port is a served knock port |
| `Protocol.ContinueInOrder` | server/server.go:106-140 | a peer that is not allowed, whose session holds the first k ports of the sequence and that knocks the rest in order, ends up allowed |
| `Protocol.InOrderGrants` | server/server.go:106-140 | for every configuration with at least two sequence ports that are all served, a fresh peer knocking them in order ends up allowed |
| `Protocol.StuckForever` | server/server.go:106-140 | a peer that is not allowed and whose session cannot complete stays out after any run of knocks and sweeps |
| `Protocol.ExpiredPeerStaysOut` | server/server.go:74-80 | a peer whose grant was swept away is never allowed again, whatever happens afterwards |
| `Protocol.InOrderScenario` | server/server.go:106-140 | with the default flags, knocking 8081, 8082, 8083 in order grants peer A, and the gate stays shut for peer B |
| `Protocol.OutOfOrderScenario` | server/server.go:106-140 | with the default flags, knocking 8082, 8081, 8083 does not grant |
| `Protocol.ExpiryScenario` | server/server.go:74-80 | a grant ending at 302 survives a sweep at 302 and is removed by a sweep at 303 |
| `KnockServer.Server.constructor` | server/server.go:22-24 | the server starts with both tables empty, which satisfies the invariant |
| `KnockServer.Server.IsPeerAllowed` | server/server.go:215-222 | the search answers true exactly when some entry carries the peer's address, whatever its end |
| `KnockServer.Server.PeerHasKnockSession` | server/server.go:170-177 | the search reports a session exactly when one exists, and then returns the first one |
| `KnockServer.Server.KnockSessionIsComplete` | server/server.go:188-198 | the length check and positional loop answer true exactly when the knocks equal the sequence |
| `KnockServer.Server.CreateKnockSessionForPeer` | server/server.go:179-186 | one session holding only the port is appended at the end; nothing else changes |
| `KnockServer.Server.AllowPeer` | server/server.go:200-213 | the allowlist becomes Allow of the old one, and the sessions are untouched |
| `KnockServer.Server.Knock` | server/server.go:109-138 | the handler's new tables and reply are exactly KnockStep of the old tables, and the invariant is kept |
| `KnockServer.Server.Gate` | server/server.go:87-103 | 500 when the peer is unknown; otherwise 200 exactly when the peer has an entry, else 403; in a reachable state a 200 goes only to a peer whose session holds exactly the sequence |
| `KnockServer.Server.Sweep` | server/server.go:74-80 | the in-place removal loop leaves exactly SweepStep of the old tables, and the invariant is kept |
| `KnockServer.Start` | server/server.go:38-59 | startup succeeds exactly when the knock sequence flag parses, giving a server with empty tables and the parsed sequence |
| `KnockServer.DefaultScenario` | server/server.go:95-102 | with the default flags, an in-order knock grants, the gate answers 200, and after a sweep past the end it answers 403 |

## Left out

- `client/client.go`: it only issues HTTP requests in order and checks status codes.
- HTTP plumbing is not modelled: `startHttpServer`, `loggingMiddleware`, `getHostPort` and the graceful-shutdown wiring.
- `getPeer` is not modelled. The peer arrives as an input. `None` stands for a `net.SplitHostPort` failure, which yields status 500. A host that `net.ParseIP` cannot parse (a zoned IPv6 address such as `fe80::1%eth0`) gives nil with no error. Such a peer is served normally, as the identity `[]`, and all such peers share it.
- Concurrency is not modelled: the goroutines, the ticker and context cancellation. The source shares the slices without locks. The model treats each handler call and each sweep pass as one atomic step, so it does not capture interleavings inside a step.
- Wall-clock time is replaced by integer ticks. `allowPeer` reads the clock twice, once for `start` and once for `end`. The sweep reads it once per entry. The model uses one `now` per step, so `end == start + accessDuration` holds exactly.
- Go integer overflow is not modelled: 64-bit wrap-around in `basePort + i`, and saturation of `time.Time.Add`. Integers are unbounded here. `strconv.Atoi`'s 64-bit range check is modelled.
- The difference between Atoi's syntax and range errors is not modelled. Both become `None`.
- `net.IP.Equal` treats the 4-byte and 16-byte forms of an IPv4 address as equal. That is not modelled. Addresses come from `net.ParseIP`, which yields the 16-byte form or nil, and on those values `Equal` is byte equality.
- The session pointer returned by `peerHasKnockSession` is modelled as an index into `knockSessions`. The handler writes the extended session back at that index. Nothing else holds the pointer, so this captures the aliasing.
- Flag parsing, the reply texts and all log output (`logKnockSequence`, `logAllowedPeers`) are not modelled. The flag defaults appear only as `Protocol.Default`.
