# Pseudoregalia multiplayer: session, registry and packing core

This project models, in Dafny, the sequential core of the Pseudoregalia
multiplayer mod and its server. It proves properties of the model.

- **Client session** (`client.dfy`, module `Client`; source `Client.cpp`). The
  anonymous-namespace globals become the fields of the class `Client.Session`:
  - the `queue_connect` and `queue_disconnect` flags;
  - whether the WebSocket `ws` exists;
  - the zone hash;
  - the optional `id`;
  - the `ghosts` roster;
  - the `spawned_ghosts` set.

  `OnSceneLoad`, `Tick` (its flag handling), `OnClose`, `OnMessage` and
  `GetGhostInfo` are methods that update those fields.

  `HashW` is the FNV-1a loop, proved equal to `WideHash`. `WideHash` is FNV-1a
  over the UTF-16 code units of a name, high byte first, starting from the
  basis `0x911c9dc5` exactly as the code writes it.

  Control messages arrive as an already-parsed JSON value (`json.dfy`, module
  `Json`). In that value, non-negative integers are 64-bit unsigned numbers, and
  `get<uint32_t>()` keeps their low 32 bits (`Ints.TruncateU32`).
- **Server registry** (`server_state.dfy`, module `ServerState`; source
  `state.rs`).
  - `PlayerState` is a value. `PlayerState::update` is the function
    `UpdateState`, which returns the new state and the flag, and the registry
    writes the result back into its map.
  - The class `ServerState.State` holds `players: map<u8, Player>`, capped at
    `MAX_PLAYERS`.
  - The random id in `connect` is a nondeterministic choice of an unused byte.
  - Each player's mpsc channel is the sequence `sent` of the
    `ConnectionUpdate`s queued on it.
- **UDP reply packing** (`udp.dfy`, module `Udp`; source `udp.rs`).
  - `PackStates` is the `handle_packet` loop over a 224-byte array. It copies
    states behind the header, sends when full, resets, and sends the partly
    filled rest at the end.
  - It is proved equal to `Datagrams`, a reference definition that chunks the
    states eleven at a time.
  - The framing, the datagram count and the payload round trip are proved about
    `Datagrams`.
  - A send appends the byte slice to the returned sequence `sent`.
  - `HandlePacket` joins the registry update, the filtered snapshot and the
    packing.

Hash-map and hash-set iteration order is unspecified in both C++ and Rust. Each
loop over a map or set therefore chooses an arbitrary remaining key. It returns
the order it used as a ghost sequence (`order`, `reported`, `dropped`), and its
contract holds for every order.

## Model

| member | source | states |
|---|---|---|
| Client.WideHashAppend | client/PseudoregaliaMultiplayerMod/src/Client.cpp:284-301 | The empty name hashes to 0x911c9dc5; appending one code unit c xors in c>>8 and multiplies by 0x01000193 mod 2^32, then does the same with c&0xFF |
| Client.HashW | client/PseudoregaliaMultiplayerMod/src/Client.cpp:284-301 | The loop's result equals WideHash of the string: FNV-1a with the code's basis over the big-endian bytes of every code unit |
| Client.Fnv1aAppend | client/PseudoregaliaMultiplayerMod/src/Client.cpp:289-299 | Hashing a + b continues from the hash of a (the hash is a left fold over the bytes) |
| Client.FoldByte | client/PseudoregaliaMultiplayerMod/src/Client.cpp:292-298 | One FNV-1a step: xor the byte in, then multiply by 0x01000193 modulo 2^32 (32-bit bit-vector arithmetic) |
| Client.HighByte | client/PseudoregaliaMultiplayerMod/src/Client.cpp:292 | `uint8_t(wc >> 8)`: the top eight bits, which with the low byte recompose the code unit |
| Client.LowByte | client/PseudoregaliaMultiplayerMod/src/Client.cpp:296 | `uint8_t(wc)`: the bottom eight bits, differing from the code unit by a multiple of 256 |
| Client.Utf16BeBytes | client/PseudoregaliaMultiplayerMod/src/Client.cpp:291-296 | A name of n code units yields 2n bytes, the high byte of unit i at 2i and its low byte at 2i+1 |
| Client.Utf16BeBytesAppend | client/PseudoregaliaMultiplayerMod/src/Client.cpp:289-299 | One more code unit appends exactly its high and low byte |
| Client.Fnv1aFirstUnit | client/PseudoregaliaMultiplayerMod/src/Client.cpp:289-299 | Hashing a name folds both bytes of its first unit, then hashes the rest |
| Client.BitCastToI64 | client/PseudoregaliaMultiplayerMod/src/Client.cpp:306 | The signed result is congruent to the unsigned input mod 2^64 and is non-negative exactly when the input's top bit is clear |
| Client.ToUnrealId | client/PseudoregaliaMultiplayerMod/src/Client.cpp:303-307 | A 32-bit id becomes an int64 of the same value |
| Client.Session.constructor | client/PseudoregaliaMultiplayerMod/src/Client.cpp:31-49 | Both flags clear, no socket, no id, empty roster and spawned set |
| Client.Session.OnSceneLoad | client/PseudoregaliaMultiplayerMod/src/Client.cpp:52-65 | spawned_ghosts is emptied and the zone becomes HashW(level); TitleScreen and EndScreen set queue_disconnect and keep queue_connect, any other level sets queue_connect and keeps queue_disconnect |
| Client.IsMenuLevel | client/PseudoregaliaMultiplayerMod/src/Client.cpp:57 | The level is exactly "TitleScreen" or "EndScreen" |
| Client.Session.Schedule | client/PseudoregaliaMultiplayerMod/src/Client.cpp:57-64 | The menu levels set only queue_disconnect; every other level sets only queue_connect |
| Client.Session.ApplyDisconnect | client/PseudoregaliaMultiplayerMod/src/Client.cpp:69-80 | With a disconnect queued and a socket open, the socket closes and id and ghosts are cleared; otherwise they are unchanged; the flag is false afterwards; spawned_ghosts is untouched |
| Client.Session.ApplyConnect | client/PseudoregaliaMultiplayerMod/src/Client.cpp:81-96 | A socket is opened only if a connect is queued and none is open, and stays closed when the attempt fails; the flag is false afterwards; nothing else changes |
| Client.Session.Tick | client/PseudoregaliaMultiplayerMod/src/Client.cpp:67-96 | Both flags are false afterwards; a queued disconnect clears id and ghosts; the socket is open exactly when it was open and not torn down, or a queued attempt succeeded |
| Client.Session.OnClose | client/PseudoregaliaMultiplayerMod/src/Client.cpp:152-156 | Only queue_disconnect changes, to true |
| Json.MessageType | client/PseudoregaliaMultiplayerMod/src/Client.cpp:161-177 | A message has a type exactly when it is an object with a string member `type` |
| Json.UnsignedMember | client/PseudoregaliaMultiplayerMod/src/Client.cpp:190-200 | Present exactly when the message is an object whose member `key` is an unsigned number, which it returns |
| Json.ArrayMember | client/PseudoregaliaMultiplayerMod/src/Client.cpp:202-212 | Present exactly when the message is an object whose member `key` is an array, whose elements it returns |
| Client.LeadingIds | client/PseudoregaliaMultiplayerMod/src/Client.cpp:214-222 | The ids of the elements before the first non-unsigned one, each cut to its low 32 bits; all elements contribute exactly when all are unsigned |
| Client.LeadingIdsStep | client/PseudoregaliaMultiplayerMod/src/Client.cpp:214-222 | Reading one more element extends the ids by it if it is unsigned and otherwise ends them |
| Client.AddDefaults | client/PseudoregaliaMultiplayerMod/src/Client.cpp:223 | `ghosts[k]` for each k: the keys gain exactly the listed ids, existing ghosts are kept, new keys hold the default ghost |
| Client.AddDefaultsSnoc | client/PseudoregaliaMultiplayerMod/src/Client.cpp:214-224 | One more id adds at most that id to the roster |
| Client.Session.AddRoster | client/PseudoregaliaMultiplayerMod/src/Client.cpp:214-224 | Reports whether every element is unsigned; the roster gains a default ghost for each leading unsigned id even when a later element is invalid |
| Client.Session.OnMessage | client/PseudoregaliaMultiplayerMod/src/Client.cpp:158-270 | Malformed or unknown messages change nothing; Connected leaves queue_disconnect set and id unchanged unless id was unset and id and players validate, in which case id is set, queue_disconnect cleared and every listed player is a roster key; PlayerJoined adds a default ghost only for an absent key; PlayerLeft removes exactly that key; neither touches id, the flags or spawned_ghosts |
| Client.Session.ReportDue | client/PseudoregaliaMultiplayerMod/src/Client.cpp:114-124 | Reports exactly the ghosts that are updated and in the current zone, once each with their info, clears their updated flag, adds them to spawned_ghosts, and keeps the roster's keys |
| Client.Session.DropAbsent | client/PseudoregaliaMultiplayerMod/src/Client.cpp:126-137 | Removes from spawned_ghosts exactly the ids with no ghost in the current zone and lists each of them once, as ToUnrealId, in to_remove |
| Client.Session.GetGhostInfo | client/PseudoregaliaMultiplayerMod/src/Client.cpp:112-138 | Both loops together: the reported ghosts as above, the roster's keys unchanged, and afterwards every spawned id has a ghost in the current zone |
| ServerState.FromBeBytes | server/src/state.rs:24 | u32::from_be_bytes, most significant byte first: the number, encoded back big-endian, gives the same four bytes |
| ServerState.ToBeBytesInverse | server/src/state.rs:24 | Every u32 is the big-endian decoding of its own encoding, so decoding reaches every update number |
| ServerState.FromBytes | server/src/state.rs:22-31 | The header is bytes 0..4 and is the big-endian encoding of update_num; the state is bytes 4..24; the id is the first state byte |
| ServerState.NewPlayerState | server/src/state.rs:33-35 | Update number 0 (so not has_updated) and twenty zero bytes |
| ServerState.HasUpdated | server/src/state.rs:46-48 | A state has been updated exactly when its update number is not 0 |
| ServerState.UpdatedStays | server/src/state.rs:37-48 | Once has_updated holds, it holds after any later update, accepted or not |
| ServerState.UpdateState | server/src/state.rs:37-44 | Replaces the state and returns true exactly when the incoming update number is strictly greater; otherwise keeps it; the update number never decreases |
| ServerState.IdsBelow | server/src/state.rs:85-90 | The ids below n, n of them |
| ServerState.FreeIdExists | server/src/state.rs:84-90 | Fewer than 256 taken ids leave a free byte, so the id loop can end |
| ServerState.Notify | server/src/state.rs:98 | `tx.send`: the notice is queued at the end of that player's channel, the state unchanged |
| ServerState.State.constructor | server/src/state.rs:75-77 | An empty registry |
| ServerState.State.Connect | server/src/state.rs:79-105 | None, changing nothing, exactly when 26 players are registered; otherwise a fresh id, one more player, the returned list is the previous keys each once, each previous player is sent exactly one Connected(id), and the new player has a new state and nothing queued; the count stays at most 26 |
| ServerState.State.Disconnect | server/src/state.rs:109-118 | An absent id changes nothing; otherwise exactly that id leaves and every remaining player is sent exactly one Disconnected(id) |
| ServerState.State.Update | server/src/state.rs:122-128 | False with no change for an unknown or stale update; otherwise only that player's state is replaced |
| ServerState.State.FilteredState | server/src/state.rs:132-141 | The bytes of exactly the players other than id that have has_updated, one entry each |
| Udp.PacketFits | server/src/serve/udp.rs:8-10 | MAX_PACKET_LEN is 4 + 11*20 = 224, at most 508 |
| Udp.Concat | server/src/serve/udp.rs:27-33 | The states laid end to end, 20 bytes each |
| Udp.ConcatAppend | server/src/serve/udp.rs:27-33 | Concatenation distributes over appending state lists |
| Udp.DatagramsFramed | server/src/serve/udp.rs:28-44 | ceil(n/11) datagrams, none when n is 0; each is the header followed by 1 to 11 states; all but the last are 224 bytes |
| Udp.DatagramsPayload | server/src/serve/udp.rs:26-39 | Stripping the 4-byte header from each datagram and joining them gives the filtered states in order |
| Udp.DatagramsAppend | server/src/serve/udp.rs:34-38 | Splitting the states after whole datagrams splits the datagrams there |
| Udp.DatagramsSnoc | server/src/serve/udp.rs:34-44 | One to eleven more states after whole datagrams make exactly one more datagram |
| Udp.CopyInto | server/src/serve/udp.rs:25 | copy_from_slice: the bytes before the target range are kept, the range holds the copied bytes, and the bytes after it are kept |
| Udp.AppendState | server/src/serve/udp.rs:30-33 | One more state is copied directly behind the ones already in the buffer |
| Udp.PackOne | server/src/serve/udp.rs:27-39 | One pass of the loop keeps the packing invariant: sent holds the datagrams of whole groups of 11, the buffer holds the header and the current partial group |
| Udp.PackStates | server/src/serve/udp.rs:23-44 | The datagrams sent are exactly Datagrams(header, states) |
| Udp.StatesOf | server/src/state.rs:138 | The state bytes of the listed players, in order |
| Udp.HandlePacket | server/src/serve/udp.rs:13-45 | A refused update sends nothing and changes nothing; otherwise the sender's state is replaced and the other updated players' states go out framed behind the packet's header, in at most 3 datagrams |
| Seqs.NoDupBound | server/src/serve/udp.rs:26 | A repetition-free list drawn from a set is no longer than the set (so at most 25 states are packed) |
| Ints.TruncateU32 | client/PseudoregaliaMultiplayerMod/src/Client.cpp:222 | Keeps the low 32 bits, so a value below 2^32 is unchanged |

## Left out

- Socket I/O and event loops. This covers WebSocket construction, `poll`, `OnOpen` and `OnError` in Client.cpp, UdpSocket.hpp, and serve.rs, tcp.rs and stdin.rs. The socket is a boolean, and whether a connect attempt succeeds is the parameter `connectSucceeds`.
- Client.Session.OnMessage: requires an open socket. The code only runs it from `ws->poll()`, which happens only while `ws` exists.
- JSON text parsing, and the exception `nlohmann::json::parse` throws on malformed text. The model starts from the parsed value. Floating-point JSON numbers carry no value.
- `ToWide`, Logger and all log output. These are formatting and output only.
- `SetPlayerInfo`, `player_info` and the UDP send at Client.cpp:97-100. That send is still a TODO in the code.
- FST_PlayerInfo's memory layout and the host hooks. `PlayerInfo` is stored and handed on unchanged.
- The RNG in `connect` is a nondeterministic choice of an unused id. This allows any id the loop can return.
- The mpsc channels are append-only sequences. A dropped receiver, whose sends are ignored in the code, is not distinguished.
- Iteration order of `unordered_map`, `unordered_set` and `HashMap` is left unspecified. Each loop returns the order it used as a ghost sequence.
- Udp.PackStates: the buffer starts zero-filled in the code. The model leaves its initial contents unspecified, because no unwritten byte is ever sent.
- Udp.HandlePacket: runs `update` and `filtered_state` back to back, with nothing in between. `handle_packet` runs as a spawned task and takes the registry's mutex twice (udp.rs:19 and udp.rs:26), so a `connect`, `disconnect` or other `update` can land between the two locks; the model does not capture that interleaving, and the reply it describes is the one computed from the registry right after this update.
- Udp.HandlePacket: the model takes the id as `u8`, as `state.rs` does, where udp.rs:15 declares it `u32`. The `send_to` error path only logs and is not modelled.
- ServerState.UpdateState: `PlayerState::update` assigns `*self`. The model returns the new value, and `State.Update` writes it back into the map entry.
- main.rs, message.rs, Settings.cpp and dllmain.cpp are not part of this model.

Behaviour of the code worth knowing, all of it modelled as written:

- Ids from JSON are cut to 32 bits (`get<uint32_t>()`) and not range-checked, so a Connected id of 300 is accepted.
- `PlayerJoined` and `PlayerLeft` are applied whether or not `id` is set.
- `PlayerJoined` never replaces an existing ghost.
- A Connected message whose `players` list fails part-way leaves the ghosts it already added, while `id` stays unset.
- `OnSceneLoad` clears `spawned_ghosts` itself.
- The comment at state.rs:5-6 says 26 players keep server updates within one packet. `handle_packet` packs 11 states per datagram, so a reply to one of 26 players can take 3 datagrams (`Udp.HandlePacket`).
