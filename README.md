# Chat room client: reconciliation model

A Dafny model of the client side of a real-time, room-scoped chat. Each
browser keeps an ordered list of chat messages for its room. It sends its
own messages optimistically and reconciles three kinds of events from the
room server into that list:

- `add`: append a new message, or overwrite the entry that already has its
  identifier. Overwriting is how the echo of the client's own message is
  absorbed.
- `update`: overwrite every entry with the identifier. Nothing is appended.
- `all`: a full snapshot that replaces the list.

The model also covers the small deterministic helpers beside it. These are
the colour a user name gets (a rolling hash into a 20-colour palette), the
fixed candidate names `user000` .. `user025`, and the rule that picks the
user name at start-up.

Files:

- `shared.dfy` (module `Shared`): the message and event types, and the
  name list with its decimal formatting (`toString`, `padStart`).
- `reconcile.dfy` (module `Reconcile`): the `onMessage` handler as pure
  functions on `seq<ChatMessage>`, plus the lemmas about the identifiers of
  the view, idempotence, and the collapse of the self-echo.
- `palette.dfy` (module `Palette`): `getUserColor`. It is a method with the
  source's loop, proved against the recursive function `Hash`.
- `client.dfy` (module `Client`): the user-name selection, and a class
  `ChatClient` whose field `messages` is the component's React state. Its
  methods are the send and the receive. It also holds a two-client scenario.

Notes on the model:

- `ChatMessage` and `Message` are datatypes. `Message` has exactly three
  constructors: `Add` and `Update` carry the five message fields, and `All`
  carries a sequence of messages. The role is the datatype `Role`, which has
  only `User` and `Assistant`.
- Timestamps are integers, since `Date.now()` is integral. Strings are
  Dafny strings. The hash walks the UTF-16 code units of the name
  (`CodeUnits`), as `charCodeAt` does.
- Only `hash << 5` is 32-bit arithmetic in the hash step. It applies ToInt32
  to `hash`, shifts, and reads the result back as a signed 32-bit value. The
  addition of the code unit and the subtraction of `hash` are exact. So the
  hash is not a 32-bit value: the step is not a 32-bit wraparound
  recurrence, and only `hash << 5` wraps (`src/client/index.tsx:89`).
  `Palette.HashLowBitsAreWrapped` shows that the hash agrees with the fully
  wrapped recurrence modulo 2^32. `Palette.WrapChangesColor` shows that the
  two still pick different colours for some names.
  `Palette.HashLeavesInt32Range` gives a seven-letter name whose hash lies
  above 2^31 - 1. `Palette.HashIsExactInDoubles` shows that the hash stays
  below 2^53 for names of up to 2^19 characters. Within that bound the
  source's double arithmetic is exact and equals the integer model.
- `Math.random()` is the parameter `random`, a real in [0, 1). `nanoid(8)`
  and `Date.now()` are the parameters `id` and `timestamp` of
  `ChatClient.Submit`. The stored name is an `Option<string>` parameter, and
  the write to storage is the `store` flag of the result.

## Model

| member | source | states |
|---|---|---|
| `Shared.RoleLiteral` | src/shared.ts:5 | a role's wire literal is "user" or "assistant", and it is "user" exactly for `User` |
| `Shared.EntryOf` | src/client/index.tsx:108-114 | the message built from an `add` or `update` event carries the event's id, content, user, role and timestamp |
| `Shared.UpdateOf` | src/shared.ts:18-25 | the `update` event for a message is an `Update` whose fields give back exactly that message |
| `Shared.AddOf` | src/client/index.tsx:205-210 | the `add` event sent for a message is an `Add` whose fields give back exactly that message |
| `Shared.ToDecimal` | src/shared.ts:33 | `i.toString()` is a non-empty string of decimal digits |
| `Shared.PadStart` | src/shared.ts:33 | `padStart(width, pad)` gives a string of length max(width, old length) that ends with the original and is `pad` before it |
| `Shared.Names` | src/shared.ts:32-34 | the name list has exactly 26 entries |
| `Shared.PaddedDecimalIsThreeDigits` | src/shared.ts:33 | for every n < 1000, padding `n.toString()` to 3 with "0" gives the three decimal digits of n |
| `Shared.ThreeDigitsValue` | src/shared.ts:33 | reading the three digits of n back as a decimal number gives n |
| `Shared.NameShape` | src/shared.ts:32-34 | `names[i]` is "user" followed by i in three digits: length 7, prefix "user", and the digits read back as i |
| `Shared.NamesEndpoints` | src/shared.ts:31-34 | `names[0]` is "user000" and `names[25]` is "user025" |
| `Shared.NamesDistinct` | src/shared.ts:32-34 | the 26 names are pairwise distinct |
| `Reconcile.FindIndex` | src/client/index.tsx:103 | `findIndex` by id gives -1 exactly when no entry has the id, and otherwise the first position holding it |
| `Reconcile.FirstIndexDependsOnIds` | src/client/index.tsx:103 | the first position of an id present in a list is unchanged in any longer list that starts with the same ids |
| `Reconcile.ApplyAdd` | src/client/index.tsx:102-132 | `add` of a new id appends the message at the tail, with earlier entries unchanged and in order. `add` of an id already present keeps length and ids, puts the message at the first matching position, and leaves every other entry unchanged |
| `Reconcile.ApplyUpdate` | src/client/index.tsx:133-146 | `update` keeps length and ids and replaces exactly the entries with the id by the new fields. Other entries are unchanged, and an absent id leaves the list identical |
| `Reconcile.Apply` | src/client/index.tsx:100-150 | the handler dispatches an `add` to ApplyAdd and an `update` to ApplyUpdate, and makes the view equal to the snapshot of an `all` |
| `Reconcile.Replay` | src/client/index.tsx:100-150 | successive deliveries, in order. With no `all` among them, the ids shown before are still the first ids, in the same order |
| `Reconcile.SnapshotReplaces` | src/client/index.tsx:147-148 | an `all` event yields exactly its messages, whatever the view held before |
| `Reconcile.IdsAfterEvent` | src/client/index.tsx:102-146 | after `add` or `update` the ids are the old ids, plus the new id at the end exactly when an `add` brings an unknown id |
| `Reconcile.DistinctPreserved` | src/client/index.tsx:102-146 | pairwise distinct ids stay pairwise distinct after any `add` or `update` |
| `Reconcile.UpdateOfAbsentIsNoOp` | src/client/index.tsx:133-146 | an `update` for an id not in the view leaves the view identical and creates no entry |
| `Reconcile.AddIdempotent` | src/client/index.tsx:102-132 | delivering the same `add` twice gives the same view as delivering it once |
| `Reconcile.UpdateIdempotent` | src/client/index.tsx:133-146 | delivering the same `update` twice gives the same view as delivering it once |
| `Reconcile.OnlyAtPreserved` | src/client/index.tsx:102-146 | an id held at exactly one position is still held there, and only there, after any `add` or `update` |
| `Reconcile.OptimisticAppend` | src/client/index.tsx:202 | the optimistic send appends the new message at the tail and leaves the earlier entries as they were |
| `Reconcile.SelfEchoIsIdempotent` | src/client/index.tsx:116-131 | the echoed `add` of a just-appended message with a fresh id leaves the view exactly as the append made it |
| `Reconcile.ReplayKeepsOnlyAt` | src/client/index.tsx:100-146 | any run of `add` and `update` events keeps an id held once at the same position, alone |
| `Reconcile.EchoCollapses` | src/client/index.tsx:103-131 | an optimistic append, then any `add`/`update` events, then the echo, leaves exactly one entry with the id, at the appended position, holding the sent fields |
| `Palette.ToInt32` | src/client/index.tsx:89 | ToInt32 of an integer lies in the signed 32-bit range |
| `Palette.ToInt32IsWrap` | src/client/index.tsx:89 | ToInt32 differs from its argument by a multiple of 2^32, and is the only value in range that does |
| `Palette.ShiftLeft5` | src/client/index.tsx:89 | `hash << 5` lies in the signed 32-bit range |
| `Palette.Step` | src/client/index.tsx:89 | one iteration: the new hash is the code unit plus `hash << 5` minus the old hash, where only the shifted term lies in the signed 32-bit range; from hash 0 the new hash is the code unit |
| `Palette.Utf16` | src/client/index.tsx:88-89 | a character is one UTF-16 code unit exactly when it is below 0x10000. Otherwise it is two units, a high and a low surrogate, that decode back to the character |
| `Palette.CodeUnits` | src/client/index.tsx:88-89 | the code units `charCodeAt` walks are each below 0x10000, and there are between one and two per character |
| `Palette.BasicPlaneCodeUnits` | src/client/index.tsx:88-89 | for a name of characters below 0x10000 the code units are the characters' codes, one per character |
| `Palette.Hash` | src/client/index.tsx:87-90 | the value of `hash` after the loop has consumed the code units; its properties are the lemmas `HashFromTrace`, `HashBound` and `HashLowBitsAreWrapped` |
| `Palette.PaletteIndex` | src/client/index.tsx:93 | `Math.abs(hash) % 20` is a valid palette index, and it is 0 for hash 0 |
| `Palette.UserColor` | src/client/index.tsx:61-95 | the colour of a name is always one of the 20 palette colours |
| `Palette.GetUserColor` | src/client/index.tsx:61-95 | the loop leaves `hash == Hash(code units)`, and the colour returned is the palette entry at `abs(hash) % 20`. It is always one of the 20 palette colours |
| `Palette.HashFromTrace` | src/client/index.tsx:87-90 | a sequence of hash values that starts at 0 and follows the loop step ends in the hash |
| `Palette.HashBound` | src/client/index.tsx:87-90 | each loop step moves the hash by at most 2^32, so after n code units its magnitude is at most n * 2^32 |
| `Palette.HashIsExactInDoubles` | src/client/index.tsx:87-90 | for names of at most 2^19 characters the hash stays below 2^53 in magnitude |
| `Palette.EmptyNameColor` | src/client/index.tsx:63-94 | the empty name hashes to 0 and gets '#e74c3c' |
| `Palette.User007Hash` | src/client/index.tsx:87-90 | "user007" hashes to -147179892 |
| `Palette.User007Color` | src/client/index.tsx:61-95 | "user007" always gets '#d35400' (palette index 12) |
| `Palette.HashLeavesInt32Range` | src/client/index.tsx:89 | "tbwuodt" hashes to 2790363123, above the signed 32-bit range |
| `Palette.EmojiNameColor` | src/client/index.tsx:87-94 | "\U{1F600}a" is walked as the code units 0xD83D, 0xDE00, 97, hashes to 54959966 and gets '#e67e22' (index 6) |
| `Palette.LoneSurrogateColor` | src/client/index.tsx:87-94 | the single code unit 0xD800 hashes to 55296 and gets '#e84393' (index 16) |
| `Palette.WrappedHash` | src/client/index.tsx:87-90 | the hash recurrence with every step wrapped to 32 bits always lies in the signed 32-bit range |
| `Palette.HashLowBitsAreWrapped` | src/client/index.tsx:87-90 | the source's hash and the fully wrapped recurrence agree modulo 2^32, for every sequence of code units |
| `Palette.WrapChangesColor` | src/client/index.tsx:87-94 | for "tbwuodt" the wrapped recurrence gives -1504604173 (index 13) where the source gives index 3 |
| `Client.SelectUsername` | src/client/index.tsx:17-26 | the chosen name is always one of the 26 names. It equals the stored value exactly when that value is one of them. Otherwise it is `names[floor(random * 26)]` and is written back to storage |
| `Client.ChatClient.constructor` | src/client/index.tsx:28-29 | a new component has the selected name and an empty message list |
| `Client.ChatClient.OnMessage` | src/client/index.tsx:100-150 | the new message list is the old one reconciled with the event |
| `Client.ChatClient.Submit` | src/client/index.tsx:195-210 | the list gains the new message (role "user", the component's name) at the tail, and the `add` event sent carries the same id, content, user, role and timestamp |
| `Client.EchoScenario` | src/client/index.tsx:100-131 | the sender of "abc12345" still shows one entry after the echo, and a second client of the room ends with the same single entry, freshly appended |

## Left out

- The room server (log append, duplicate handling, broadcast, per-room serialisation): the server source is not part of this model. So the convergence of each client's view with the server's log is not stated.
- The transport: `usePartySocket`, `socket.send` and `JSON.parse` (src/client/index.tsx:97-101, 205-210). Incoming events are already-decoded `Message` values, and a send is the event `ChatClient.Submit` returns. A malformed payload makes `JSON.parse` throw in the source; that path is not modelled.
- Event types other than the three: `Message` is a closed datatype. The source's final `else` (line 147) is exactly the `All` constructor, and a payload with an unknown `type` is not modelled.
- The stale closure in `onMessage`. The source computes `foundIndex` on the list captured at render time (line 103), but splices it into the list React hands the state updater (lines 120-131). The model uses one list for both, so it does not capture a view that changed between render and update.
- `localStorage`, `Math.random`, `nanoid` and `Date.now` are parameters (see above). The floating-point product `Math.random() * 26` is modelled as an exact real product.
- Palette.GetUserColor: takes a Dafny `string`, which cannot hold an unpaired surrogate. A JS string from `JSON.parse` can (`"\ud800"`), and `charCodeAt` then yields the lone unit. Such names are not inputs of `GetUserColor` or `UserColor`. `Hash` over code units covers them; `LoneSurrogateColor` works the case 0xD800.
- The hash for names longer than 2^19 characters. `Palette.Hash` is exact integer arithmetic; beyond the bound of `HashIsExactInDoubles` the source's doubles could round, and the model does not follow that.
- React rendering, scrolling and the scroll button (src/client/index.tsx:35-58, 153-229), the routing and redirects (lines 233-241), and the `toLocaleString` date formatting (line 167).
