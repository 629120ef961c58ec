# Game server core: daily reward rule and WebSocket hub

This project models, in Dafny, the two parts of the game backend that have
rules worth stating:

- **The daily reward** (`handlers/rewards.go`, module `Rewards` in
  `rewards.dfy`). The reward-status query says whether a user may claim today's
  reward and when the next reward comes. Within one request, the claim handler refuses a
  claim made less than 24 hours after the previous one. It resets the streak when more
  than 48 hours have passed. It pays `100 + 10 * streak` coins, increments the
  streak and stamps the claim time. The HTTP handler is reduced to its
  decisions. The user row is an input, `None` when the database lookup fails.
  The clock is one `now` per request, and the success of the save is a boolean
  input. Time is an integer number of nanoseconds since the Unix epoch.
  `ZeroTime` is Go's zero `time.Time` (January 1, year 1, UTC), the value that
  `IsZero` tests for. Go's `int`, 64 bits wide on the 64-bit targets the server is built for (the `Coins` and `RewardStreak` columns
  of `models/user.go`) is the newtype `Int64`. `Add64` and `Mul64` wrap around
  exactly as Go's `+` and `*` do.

- **The WebSocket hub** (`handlers/websocket.go`, module `Hub` in `hub.dfy`).
  `Registry` holds the set of connected clients. Each `Client` holds its
  outbound mailbox (the buffered `send` channel): a queue of at most 256
  payloads with an open/closed flag. `Register`, `Unregister` and `Broadcast`
  are the three cases that the hub's goroutine runs one at a time under its
  mutex, so each is modelled as one atomic step. `WritePump` is the writer's
  drain loop. Go's runtime panics become preconditions. Closing a closed
  channel panics, so `Client.Close` requires an open mailbox. Sending on a
  closed channel panics, so `Client.TrySend` requires one as well. Every call
  site proves its precondition from the registry invariant "every member has an
  open mailbox holding at most 256 payloads". That is the proof that a mailbox
  is closed at most once and never written after its close.

Each client owns its `send` channel, and no two clients share one. The
mailbox's state is therefore kept in the `Client` object itself.

Proved properties, in the system's terms:

- The status query and the claim agree except at one instant. Exactly 24 hours
  after the last reward, the status reports `can_claim = false` (strict
  `After`), yet the claim succeeds (strict `Before`).
- On success the row passed to the save is the old row with `Coins`,
  `RewardStreak` and `LastReward` replaced and every other modelled column
  kept. The reply's `new_balance`, `new_streak` and `next_reward` match that
  in-memory row.
- Broadcast appends to every member with room, and closes and evicts exactly
  the members whose mailbox is full. It never adds a member.
- Unregister removes a member and closes its mailbox, and does nothing to a
  non-member. A second unregister is therefore a no-op.
- The writer puts the buffered payloads on the wire in the order they were
  enqueued. Once the mailbox is closed and drained, it emits a close frame.
- A client that never drains is evicted by a flood of messages.
  `HelloWorld` replays the two-client hello/world scenario with a disconnect.

## Model

| member | source | states |
|---|---|---|
| `Rewards.Wrap64` | models/user.go:15-16 | The result lies in the 64-bit range. It equals the input when the input fits, and is congruent to it modulo 2^64 otherwise (Go's `int` wrap-around). |
| `Rewards.Add64` | handlers/rewards.go:113-117 | Go's `int` addition: exact when the sum fits in 64 bits, congruent to the sum modulo 2^64 otherwise. |
| `Rewards.Mul64` | handlers/rewards.go:112 | Go's `int` multiplication: exact when the product fits in 64 bits, congruent to it modulo 2^64 otherwise. |
| `Rewards.GetDailyReward` | handlers/rewards.go:50-72 | A missing user gives the not-found reply. A zero `LastReward` gives `can_claim = true` with a zero `next_reward`. Otherwise `next_reward = LastReward + 24h`, and `can_claim` holds iff `now` is strictly after it. The streak is echoed. |
| `Rewards.ClaimDailyReward` | handlers/rewards.go:87-135 | Not found iff the lookup failed. Refused, with `next_reward = LastReward + 24h` and nothing saved, iff `LastReward` is non-zero and `now < LastReward + 24h`. The save fails iff the claim passes the refusal test and the store refuses the write. On success, the streak counts as 0 iff `LastReward` is non-zero and `now > LastReward + 48h`. The bonus is 10 times that streak, and the total is 100 plus the bonus, with Go wrap-around. The row passed to the save is the old row with `Coins` increased by the total, the streak incremented and `LastReward = now`; id, username, password and last login are unchanged. The reply echoes the new balance and streak, with `next_reward = now + 24h`. Without overflow: `Coins' = Coins + 100 + 10*streak`, `RewardStreak' = streak + 1`. |
| `Rewards.StatusCanClaimImpliesClaimAccepted` | handlers/rewards.go:60-96 | Whenever the status query says a claim is possible, the claim handler does not refuse it. |
| `Rewards.StatusAndClaimDisagreeExactlyAtOneDay` | handlers/rewards.go:60-96 | The status says "not yet" while the claim is accepted iff `LastReward` is non-zero and `now == LastReward + 24h` exactly. |
| `Rewards.NextRewardIsFirstClaimableInstant` | handlers/rewards.go:63-96 | For a non-zero `LastReward`, the claim is refused iff `now` is before the status query's `next_reward`. |
| `Rewards.StatusAfterClaim` | handlers/rewards.go:118-133 | Runs a claim that the store accepts. The claim is either refused or succeeds, and on success the row passed to the save carries `LastReward = now`. When the store reads that instant back within a microsecond of `now`, the status query reports `next_reward` as the read-back instant plus 24h, which is within a microsecond of the claim reply's `next_reward`. It allows a claim only strictly after that instant, while the claim handler accepts from that instant on. |
| `Hub.TextFrames` | handlers/websocket.go:96-100 | One text frame per payload, in the same order, carrying that payload. |
| `Hub.TextFramesAppend` | handlers/websocket.go:88-105 | The frames for two batches written one after the other are the frames of the first batch followed by those of the second. |
| `Hub.Client.constructor` | handlers/websocket.go:51-56 | A new client carries its user id and name and has an empty, open mailbox. |
| `Hub.Client.TrySend` | handlers/websocket.go:114-116 | A non-blocking send succeeds iff the mailbox holds fewer than 256 payloads, and then appends the payload at the tail. Otherwise the mailbox is unchanged. It requires an open mailbox, because Go panics on a send to a closed channel. |
| `Hub.Client.Close` | handlers/websocket.go:117 | Marks the mailbox closed and keeps its buffered payloads. It requires the mailbox to be open, because Go panics on a double close. |
| `Hub.Client.Receive` | handlers/websocket.go:90-94 | Returns the oldest buffered payload while there is one, even after a close. It reports `ok = false` only on an empty closed mailbox. |
| `Hub.WritePump` | handlers/websocket.go:83-107 | Writes the buffered payloads as text frames in enqueue order. If the mailbox is closed and everything is written, it appends a close frame and stops. That write's error is ignored, so the close frame is best effort and is not limited by the count of accepted text-frame writes. If the mailbox is open and empty, it waits. If a text-frame write fails, it stops, and the payload being written is lost. |
| `Hub.Registry.constructor` | handlers/websocket.go:33 | The registry starts with no members. |
| `Hub.Registry.Register` | handlers/websocket.go:127-130 | Adds exactly the given client to the membership; no mailbox changes. It keeps the invariant that members have open, bounded mailboxes. |
| `Hub.Registry.Unregister` | handlers/websocket.go:132-137 | Removes the client. A member's mailbox is closed, with its contents kept. A non-member is left untouched, so a repeated unregister is a no-op. It keeps the registry invariant. |
| `Hub.Registry.Broadcast` | handlers/websocket.go:109-121 | Every member with fewer than 256 buffered payloads gets the message at its tail and stays open. Every member with a full mailbox is closed, gets nothing, and is evicted. Membership afterwards is the old membership minus the full members. It keeps the registry invariant. |
| `Hub.HandleWebSocket` | handlers/websocket.go:40-63 | When the upgrade succeeds, a fresh client with the caller's id and name and an empty open mailbox is registered. When it fails, no client is created and membership is unchanged. The `/ws` route (main.go:98) is outside the authenticated group (main.go:89-95), so in the running server the id and name are 0 and the empty string. |
| `Hub.SlowConsumerIsEvicted` | handlers/websocket.go:113-118 | Broadcasting more messages than the room left in an undrained member's mailbox evicts that member and closes its mailbox. The mailbox ends up holding its old contents followed by exactly the messages that fit; later broadcasts leave it untouched. Membership never grows. |

## Left out

- `main.go` (environment loading, the database connection, migrations, routing, CORS, server start) is configuration and I/O with no rule to state.
- `GetProfile` (handlers/rewards.go:19-37) only looks a row up and echoes it, so it has no rule to state.
- Database calls (`db.First`, `db.Save`) are inputs. A failed lookup is `None`, and the save's success is a boolean. A failed save yields `SaveFailed`, and the stored row stays as it was.
- The wall clock: the handler reads `time.Now()` separately at handlers/rewards.go:65, 96, 105 and 118. The model uses one reading `now` per request. Readings that differ by nanoseconds across a boundary are not modelled.
- Time arithmetic is on unbounded integers. The range limits of Go's `time.Time`, its monotonic clock reading and its location are not modelled.
- `readPump` (handlers/websocket.go:65-81): its blocking reads are transport I/O. Its effect is one `Broadcast` per received frame, then `Unregister` when a read fails. Both operations are modelled.
- Overlapping reward requests are not modelled. Each claim is one atomic step on the row it read. In the server, `db.First` (handlers/rewards.go:88) and `db.Save` (handlers/rewards.go:120) run in no transaction and under no row lock, and requests run concurrently. Two overlapping claims for one user can both read the old row, both pass the 24-hour test and both be paid a 200 reply, and the later save overwrites the earlier one.
- Concurrency in the hub: goroutines, the unbuffered `register`/`unregister`/`broadcast` channels and the mutex are not modelled. Only the serialized effect of each hub operation is modelled, not their interleavings.
- WebSocket transport: the upgrade handshake (section 4 of RFC 6455), `CheckOrigin`, frame writing through `NextWriter`, the close frame's contents (section 5.5.1 of RFC 6455) and `conn.Close` are foreign library calls. Write failures are the `accepted` count of `WritePump`, and a failed upgrade is the `upgradeSucceeds` input.
- The `Message` struct (handlers/websocket.go:27-30) is never used to encode or decode anything. Payloads are opaque byte sequences.
- JSON replies are modelled as records, not serialized text.
- The `gorm.Model` columns `CreatedAt`, `UpdatedAt` and `DeletedAt` (models/user.go:10) are not modelled. `db.Save` writes the whole row and restamps `UpdatedAt` from its own clock reading, which the model does not capture.
- StatusAfterClaim: the store keeps timestamps to the microsecond. The lemma takes the read-back `LastReward` as any instant within one microsecond of `now`, not the store's exact rounding rule. So the status query's `next_reward` agrees with the claim reply's only to that precision.
- Logging: the `log.Printf` calls (handlers/websocket.go:47, 75) are output only and are not modelled.
