/**
  The client's network session (Client.cpp): the scheduled connect and
  disconnect flags, the WebSocket (reduced to whether one is open), the id
  the server assigned, the roster of ghosts (remote players) and the set of
  ghosts the game currently shows.
 */
module Client {
  import opened Wrappers
  import opened Ints
  import opened Json
  import opened Seqs

  // ---------------------------------------------------------------------------
  // Zone hash: 32-bit FNV-1a over UTF-16 code units, high byte first
  // ---------------------------------------------------------------------------

  /** The starting value of the hash as the client writes it (the standard FNV-1a basis is 0x811c9dc5). */
  const OFFSET_BASIS: bv32 := 0x911c9dc5
  const FNV_PRIME: bv32 := 0x01000193

  /** One FNV-1a step: xor the byte in, then multiply by the prime modulo 2^32. */
  function FoldByte(h: bv32, b: u8): bv32
  {
    (h ^ (b as bv32)) * FNV_PRIME
  }

  /** FNV-1a over a byte string, taking the bytes in order and starting from `h`. */
  function Fnv1a(h: bv32, bytes: seq<u8>): bv32
    decreases |bytes|
  {
    if bytes == [] then h else Fnv1a(FoldByte(h, bytes[0]), bytes[1..])
  }

  /** `uint8_t(wc >> 8)`: the top eight bits of a 16-bit code unit, which the low byte completes. */
  function HighByte(c: u16): (r: u8)
    ensures r * 0x100 + LowByte(c) == c
  {
    c / 0x100
  }

  /** `uint8_t(wc)`: the bottom eight bits of a code unit. */
  function LowByte(c: u16): (r: u8)
    ensures (c - r) % 0x100 == 0
  {
    c % 0x100
  }

  /** The code units of a wide string, each as its high byte followed by its low byte. */
  function Utf16BeBytes(s: seq<u16>): (r: seq<u8>)
    ensures |r| == 2 * |s|
    ensures forall i | 0 <= i < |s| :: r[2 * i] == HighByte(s[i]) && r[2 * i + 1] == LowByte(s[i])
  {
    if s == [] then [] else [HighByte(s[0]), LowByte(s[0])] + Utf16BeBytes(s[1..])
  }

  /** The zone hash of a level name: FNV-1a with the client's basis over its big-endian UTF-16 bytes. */
  function WideHash(s: seq<u16>): bv32
  {
    Fnv1a(OFFSET_BASIS, Utf16BeBytes(s))
  }

  lemma {:induction false} Fnv1aAppend(h: bv32, a: seq<u8>, b: seq<u8>)
    ensures Fnv1a(h, a + b) == Fnv1a(Fnv1a(h, a), b)
    decreases |a|
  {
    if a == [] {
      assert a + b == b;
    } else {
      assert (a + b)[1..] == a[1..] + b;
      Fnv1aAppend(FoldByte(h, a[0]), a[1..], b);
    }
  }

  lemma {:induction false} Utf16BeBytesAppend(s: seq<u16>, c: u16)
    ensures Utf16BeBytes(s + [c]) == Utf16BeBytes(s) + [HighByte(c), LowByte(c)]
    decreases |s|
  {
    if s == [] {
      assert [c][1..] == [];
    } else {
      assert (s + [c])[1..] == s[1..] + [c];
      Utf16BeBytesAppend(s[1..], c);
    }
  }

  /** Hashing two bytes is two folds. */
  lemma Fnv1aPair(h: bv32, a: u8, b: u8)
    ensures Fnv1a(h, [a, b]) == FoldByte(FoldByte(h, a), b)
  {
    var h1 := FoldByte(h, a);
    assert [a, b][1..] == [b] && [b][1..] == [];
    assert Fnv1a(h, [a, b]) == Fnv1a(h1, [b]);
    assert Fnv1a(h1, [b]) == Fnv1a(FoldByte(h1, b), []);
  }

  /** The empty name hashes to the basis; one more code unit folds its high byte, then its low byte. */
  lemma WideHashAppend(s: seq<u16>, c: u16)
    ensures WideHash([]) == 0x911c9dc5
    ensures WideHash(s + [c]) == FoldByte(FoldByte(WideHash(s), HighByte(c)), LowByte(c))
  {
    assert Utf16BeBytes([]) == [];
    Utf16BeBytesAppend(s, c);
    Fnv1aAppend(OFFSET_BASIS, Utf16BeBytes(s), [HighByte(c), LowByte(c)]);
    Fnv1aPair(WideHash(s), HighByte(c), LowByte(c));
  }

  /** Hashing a name folds the bytes of its first code unit and then hashes the rest. */
  lemma Fnv1aFirstUnit(h: bv32, s: seq<u16>)
    requires s != []
    ensures Fnv1a(h, Utf16BeBytes(s)) == Fnv1a(FoldByte(FoldByte(h, HighByte(s[0])), LowByte(s[0])), Utf16BeBytes(s[1..]))
  {
    var rest := Utf16BeBytes(s[1..]);
    var bytes := [HighByte(s[0]), LowByte(s[0])] + rest;
    assert Utf16BeBytes(s) == bytes;
    assert bytes[1..] == [LowByte(s[0])] + rest;
    assert bytes[1..][1..] == rest;
  }

  /** HashW: the hash loop over the code units of `str`. */
  method HashW(str: seq<u16>) returns (result: bv32)
    ensures result == WideHash(str)
  {
    result := OFFSET_BASIS;
    var i := 0;
    while i < |str|
      invariant 0 <= i <= |str|
      invariant Fnv1a(result, Utf16BeBytes(str[i..])) == WideHash(str)
    {
      var wc := str[i];
      ghost var before := result;
      // `result ^= b; result *= prime;` (FoldByte) for each byte, high byte first
      var b1 := HighByte(wc);
      result := FoldByte(result, b1);
      var b2 := LowByte(wc);
      result := FoldByte(result, b2);
      Fnv1aFirstUnit(before, str[i..]);
      assert str[i..][1..] == str[i + 1..];
      i := i + 1;
    }
    assert str[i..] == [];
  }

  // ---------------------------------------------------------------------------
  // Ids handed to the game
  // ---------------------------------------------------------------------------

  /** std::bit_cast from a 64-bit unsigned value to int64_t: the same 64 bits read in two's complement. */
  function BitCastToI64(x: u64): (r: i64)
    ensures (r - x) % 0x1_0000_0000_0000_0000 == 0
    ensures x < 0x8000_0000_0000_0000 <==> r >= 0
  {
    if x < 0x8000_0000_0000_0000 then x else x - 0x1_0000_0000_0000_0000
  }

  /** ToUnrealId: a 32-bit id widened to 64 bits and cast to signed keeps its value. */
  function ToUnrealId(id: u32): (r: i64)
    ensures r == id
  {
    BitCastToI64(id)
  }

  // ---------------------------------------------------------------------------
  // Level names
  // ---------------------------------------------------------------------------

  /** The level names as UTF-16 code units: "Screen", "TitleScreen" and "EndScreen". */
  const SCREEN: seq<u16> := [0x53, 0x63, 0x72, 0x65, 0x65, 0x6e]
  const TITLE_SCREEN: seq<u16> := [0x54, 0x69, 0x74, 0x6c, 0x65] + SCREEN
  const END_SCREEN: seq<u16> := [0x45, 0x6e, 0x64] + SCREEN

  /** The two levels in which the client must not be connected. */
  predicate IsMenuLevel(level: seq<u16>)
  {
    level == TITLE_SCREEN || level == END_SCREEN
  }

  // ---------------------------------------------------------------------------
  // Ghosts
  // ---------------------------------------------------------------------------

  /** The game-side description of a player (FST_PlayerInfo); the core only stores and hands it on. */
  datatype PlayerInfo = PlayerInfo(
    id: seq<u16>,
    zone: seq<u16>,
    location: (i64, i64, i64),
    rotation: (i64, i64, i64),
    scale: (i64, i64, i64))

  const DEFAULT_INFO: PlayerInfo := PlayerInfo([], [], (0, 0, 0), (0, 0, 0), (0, 0, 0))

  datatype Ghost = Ghost(info: PlayerInfo, zone: bv32, updateNum: u32, updated: bool)

  /** The value-initialised ghost that `ghosts[id]` creates for an absent id. */
  const DEFAULT_GHOST: Ghost := Ghost(DEFAULT_INFO, 0, 0, false)

  /** A ghost that GetGhostInfo reports: it has news and is in the current zone. */
  predicate Due(g: Ghost, zone: bv32)
  {
    g.updated && g.zone == zone
  }

  /** `id` has a ghost in `zone`. */
  predicate InZone(ghosts: map<u32, Ghost>, id: u32, zone: bv32)
  {
    id in ghosts && ghosts[id].zone == zone
  }

  function DueIds(ghosts: map<u32, Ghost>, zone: bv32): set<u32>
  {
    set k | k in ghosts && Due(ghosts[k], zone)
  }

  /** A ghost after GetGhostInfo has looked at it: a reported ghost loses its `updated` mark. */
  function Consumed(g: Ghost, zone: bv32): Ghost
  {
    if Due(g, zone) then g.(updated := false) else g
  }

  /**
    The roster after `ghosts[k]` for each k of `ids` in turn: an absent key gets a
    default ghost, a present one keeps its ghost.
   */
  function AddDefaults(ghosts: map<u32, Ghost>, ids: seq<u32>): (r: map<u32, Ghost>)
    ensures r.Keys == ghosts.Keys + set k | k in ids
    ensures forall k | k in ghosts :: r[k] == ghosts[k]
    ensures forall k | k in r && k !in ghosts :: r[k] == DEFAULT_GHOST
    decreases |ids|
  {
    if ids == [] then ghosts
    else
      var prev := ids[..|ids| - 1];
      var g := AddDefaults(ghosts, prev);
      var k := ids[|ids| - 1];
      assert forall x :: x in ids <==> x in prev || x == k;
      if k in g then g else g[k := DEFAULT_GHOST]
  }

  /** One more id extends the roster by that id alone. */
  lemma AddDefaultsSnoc(ghosts: map<u32, Ghost>, ids: seq<u32>, k: u32)
    ensures AddDefaults(ghosts, ids + [k]) ==
              var g := AddDefaults(ghosts, ids); if k in g then g else g[k := DEFAULT_GHOST]
  {
    assert (ids + [k])[..|ids|] == ids;
  }

  predicate AllUnsigned(items: seq<Json>)
  {
    forall i | 0 <= i < |items| :: items[i].JUnsigned?
  }

  /**
    The ids a `players` array contributes before its first non-unsigned
    element, each cast to uint32_t.
   */
  function LeadingIds(items: seq<Json>): (r: seq<u32>)
    ensures |r| <= |items|
    ensures forall i | 0 <= i < |r| :: items[i].JUnsigned? && r[i] == TruncateU32(items[i].n)
    ensures |r| < |items| ==> !items[|r|].JUnsigned?
    ensures |r| == |items| <==> AllUnsigned(items)
  {
    if items == [] || !items[0].JUnsigned? then []
    else [TruncateU32(items[0].n)] + LeadingIds(items[1..])
  }

  /**
    Reading one more element of an all-unsigned prefix: an unsigned element
    extends the ids by its low 32 bits, anything else ends them.
   */
  lemma {:induction false} LeadingIdsStep(items: seq<Json>, i: nat)
    requires i < |items| && AllUnsigned(items[..i])
    ensures items[i].JUnsigned? ==> LeadingIds(items[..i + 1]) == LeadingIds(items[..i]) + [TruncateU32(items[i].n)]
    ensures !items[i].JUnsigned? ==> LeadingIds(items) == LeadingIds(items[..i])
    decreases i
  {
    if i > 0 {
      assert items[1..][..i - 1] == items[..i][1..];
      assert items[1..][..i] == items[..i + 1][1..];
      LeadingIdsStep(items[1..], i - 1);
    } else {
      assert items[..i + 1] == [items[0]];
    }
  }

  /** A Connected message carries an unsigned `id` and an array `players`. */
  predicate ConnectedWellFormed(j: Json)
  {
    UnsignedMember(j, "id").Some? && ArrayMember(j, "players").Some?
  }

  /** A Connected message that establishes the session: none was established, and every field checks out. */
  predicate ConnectedAccepted(current: Option<u32>, j: Json)
  {
    current.None? && ConnectedWellFormed(j) && AllUnsigned(ArrayMember(j, "players").value)
  }

  // ---------------------------------------------------------------------------
  // The session
  // ---------------------------------------------------------------------------

  class Session {
    var queueConnect: bool
    var queueDisconnect: bool
    /** Whether the WebSocket `ws` exists. */
    var socketOpen: bool
    var currentZone: bv32
    /** The id from the Connected message; set means the connection is fully established. */
    var id: Option<u32>
    var ghosts: map<u32, Ghost>
    /** The ids whose ghosts the game has been told to show. */
    var spawnedGhosts: set<u32>

    /** An identity and a roster exist only while a socket is open. */
    ghost predicate Valid()
      reads this
    {
      (id.Some? || ghosts != map[]) ==> socketOpen
    }

    constructor ()
      ensures Valid()
      ensures !queueConnect && !queueDisconnect && !socketOpen
      ensures currentZone == 0 && id == None && ghosts == map[] && spawnedGhosts == {}
    {
      queueConnect, queueDisconnect, socketOpen := false, false, false;
      currentZone := 0;
      id, ghosts, spawnedGhosts := None, map[], {};
    }

    /** OnSceneLoad: forget what was shown, hash the new level, and schedule a disconnect (menus) or a connect. */
    method OnSceneLoad(level: seq<u16>)
      requires Valid()
      modifies this`spawnedGhosts, this`currentZone, this`queueConnect, this`queueDisconnect
      ensures Valid()
      ensures spawnedGhosts == {} && currentZone == WideHash(level)
      ensures IsMenuLevel(level) ==> queueDisconnect && queueConnect == old(queueConnect)
      ensures !IsMenuLevel(level) ==> queueConnect && queueDisconnect == old(queueDisconnect)
    {
      spawnedGhosts := {};
      currentZone := HashW(level);
      Schedule(level);
    }

    /** The flag part of OnSceneLoad: menus schedule a disconnect, every other level a connect. */
    method Schedule(level: seq<u16>)
      modifies this`queueConnect, this`queueDisconnect
      ensures IsMenuLevel(level) ==> queueDisconnect && queueConnect == old(queueConnect)
      ensures !IsMenuLevel(level) ==> queueConnect && queueDisconnect == old(queueDisconnect)
    {
      if level == TITLE_SCREEN || level == END_SCREEN {
        queueDisconnect := true;
      } else {
        queueConnect := true;
      }
    }

    /** The first step of Tick: a scheduled disconnect closes an open socket and forgets identity and roster. */
    method ApplyDisconnect()
      requires Valid()
      modifies this
      ensures Valid()
      ensures !queueDisconnect
      ensures old(queueDisconnect) && old(socketOpen) ==> !socketOpen && id == None && ghosts == map[]
      ensures !(old(queueDisconnect) && old(socketOpen)) ==>
                socketOpen == old(socketOpen) && id == old(id) && ghosts == old(ghosts)
      ensures queueConnect == old(queueConnect) && currentZone == old(currentZone)
      ensures spawnedGhosts == old(spawnedGhosts)
    {
      if queueDisconnect {
        if socketOpen {
          socketOpen := false;
          id := None;
          ghosts := map[];
        }
        queueDisconnect := false;
      }
    }

    /**
      The second step of Tick: a scheduled connect opens a socket when none is
      open; `connectSucceeds` says whether opening it succeeds.
     */
    method ApplyConnect(connectSucceeds: bool)
      requires Valid()
      modifies this
      ensures Valid()
      ensures !queueConnect
      ensures socketOpen == (old(socketOpen) || (old(queueConnect) && connectSucceeds))
      ensures queueDisconnect == old(queueDisconnect) && currentZone == old(currentZone)
      ensures id == old(id) && ghosts == old(ghosts) && spawnedGhosts == old(spawnedGhosts)
    {
      if queueConnect {
        if !socketOpen {
          socketOpen := connectSucceeds;
        }
        queueConnect := false;
      }
    }

    /** Tick: apply the scheduled disconnect, then the scheduled connect. */
    method Tick(connectSucceeds: bool)
      requires Valid()
      modifies this
      ensures Valid()
      ensures !queueDisconnect && !queueConnect
      ensures old(queueDisconnect) ==> id == None && ghosts == map[]
      ensures !old(queueDisconnect) ==> id == old(id) && ghosts == old(ghosts)
      ensures socketOpen == ((old(socketOpen) && !old(queueDisconnect)) || (old(queueConnect) && connectSucceeds))
      ensures currentZone == old(currentZone) && spawnedGhosts == old(spawnedGhosts)
    {
      ApplyDisconnect();
      ApplyConnect(connectSucceeds);
    }

    /** OnClose: the server closed the socket; tear down at the next tick. */
    method OnClose()
      modifies this
      ensures queueDisconnect
      ensures queueConnect == old(queueConnect) && socketOpen == old(socketOpen)
      ensures currentZone == old(currentZone) && id == old(id)
      ensures ghosts == old(ghosts) && spawnedGhosts == old(spawnedGhosts)
    {
      queueDisconnect := true;
    }

    /**
      The loop over a Connected message's `players`: `ghosts[id]` for each
      element up to the first one that is not an unsigned number.
     */
    method AddRoster(items: seq<Json>) returns (complete: bool)
      modifies this`ghosts
      ensures complete == AllUnsigned(items)
      ensures ghosts == AddDefaults(old(ghosts), LeadingIds(items))
    {
      var i := 0;
      var roster := ghosts;
      while i < |items|
        invariant 0 <= i <= |items| && AllUnsigned(items[..i])
        invariant roster == AddDefaults(old(ghosts), LeadingIds(items[..i]))
      {
        LeadingIdsStep(items, i);
        if !items[i].JUnsigned? {
          ghosts := roster;
          return false;
        }
        var playerId := TruncateU32(items[i].n);
        AddDefaultsSnoc(old(ghosts), LeadingIds(items[..i]), playerId);
        if playerId !in roster {
          roster := roster[playerId := DEFAULT_GHOST];
        }
        i := i + 1;
      }
      assert items[..i] == items;
      ghosts := roster;
      return true;
    }

    /** OnMessage: validate a parsed control message and apply it to the identity and the roster. */
    method OnMessage(j: Json)
      requires Valid() && socketOpen
      modifies this
      ensures Valid()
      ensures queueConnect == old(queueConnect) && socketOpen == old(socketOpen)
      ensures currentZone == old(currentZone) && spawnedGhosts == old(spawnedGhosts)
      // not an object, no `type`, a non-string `type`, or an unknown one: nothing changes
      ensures MessageType(j) !in {Some("Connected"), Some("PlayerJoined"), Some("PlayerLeft")} ==>
                queueDisconnect == old(queueDisconnect) && id == old(id) && ghosts == old(ghosts)
      // Connected
      ensures MessageType(j) == Some("Connected") ==>
                && queueDisconnect == !ConnectedAccepted(old(id), j)
                && id == (if ConnectedAccepted(old(id), j) then Some(TruncateU32(UnsignedMember(j, "id").value)) else old(id))
                && ghosts == (if old(id).None? && ConnectedWellFormed(j)
                              then AddDefaults(old(ghosts), LeadingIds(ArrayMember(j, "players").value))
                              else old(ghosts))
      ensures MessageType(j) == Some("Connected") && old(id).Some? ==>
                queueDisconnect && id == old(id) && ghosts == old(ghosts)
      ensures MessageType(j) == Some("Connected") && ConnectedAccepted(old(id), j) ==>
                forall p | p in ArrayMember(j, "players").value :: TruncateU32(p.n) in ghosts
      // PlayerJoined: a default ghost for a new id; an existing ghost is kept
      ensures MessageType(j) == Some("PlayerJoined") ==>
                && queueDisconnect == old(queueDisconnect) && id == old(id)
                && match UnsignedMember(j, "id")
                   case None => ghosts == old(ghosts)
                   case Some(n) =>
                     && ghosts.Keys == old(ghosts).Keys + {TruncateU32(n)}
                     && (forall k | k in old(ghosts) :: ghosts[k] == old(ghosts)[k])
                     && (TruncateU32(n) !in old(ghosts) ==> ghosts[TruncateU32(n)] == DEFAULT_GHOST)
      // PlayerLeft: exactly that id leaves
      ensures MessageType(j) == Some("PlayerLeft") ==>
                && queueDisconnect == old(queueDisconnect) && id == old(id)
                && ghosts == match UnsignedMember(j, "id")
                             case None => old(ghosts)
                             case Some(n) => old(ghosts) - {TruncateU32(n)}
    {
      var tp := MessageType(j);
      if tp.None? {
        return;
      }

      if tp.value == "Connected" {
        // set here in case of an early return
        queueDisconnect := true;
        if id.Some? {
          return;
        }
        var idField := UnsignedMember(j, "id");
        if idField.None? {
          return;
        }
        var players := ArrayMember(j, "players");
        if players.None? {
          return;
        }
        var complete := AddRoster(players.value);
        if !complete {
          return;
        }
        id := Some(TruncateU32(idField.value));
        queueDisconnect := false;
      } else if tp.value == "PlayerJoined" {
        var idField := UnsignedMember(j, "id");
        if idField.None? {
          return;
        }
        var playerId := TruncateU32(idField.value);
        if playerId !in ghosts {
          ghosts := ghosts[playerId := DEFAULT_GHOST];
        }
      } else if tp.value == "PlayerLeft" {
        var idField := UnsignedMember(j, "id");
        if idField.None? {
          return;
        }
        ghosts := ghosts - {TruncateU32(idField.value)};
      }
    }

    /** The first loop of GetGhostInfo: report and mark every ghost with news in the current zone. */
    method ReportDue() returns (ghostInfo: seq<PlayerInfo>, ghost reported: seq<u32>)
      modifies this`ghosts, this`spawnedGhosts
      ensures ghosts.Keys == old(ghosts).Keys
      ensures forall k | k in ghosts :: ghosts[k] == Consumed(old(ghosts)[k], currentZone)
      ensures NoDup(reported) && forall k :: k in reported <==> k in DueIds(old(ghosts), currentZone)
      ensures |ghostInfo| == |reported|
      ensures forall i | 0 <= i < |reported| :: reported[i] in old(ghosts) && ghostInfo[i] == old(ghosts)[reported[i]].info
      ensures spawnedGhosts == old(spawnedGhosts) + DueIds(old(ghosts), currentZone)
    {
      ghostInfo, reported := [], [];
      var zone := currentZone;
      var orig, origShown := ghosts, spawnedGhosts;
      var roster := orig;
      var shown := origShown;
      var pending := roster.Keys;
      while pending != {}
        invariant pending <= roster.Keys && roster.Keys == orig.Keys
        invariant forall k | k in pending :: roster[k] == orig[k]
        invariant forall k | k in roster && k !in pending :: roster[k] == Consumed(orig[k], zone)
        invariant NoDup(reported)
        invariant forall k :: k in reported <==> k in orig && Due(orig[k], zone) && k !in pending
        invariant |ghostInfo| == |reported|
        invariant forall i | 0 <= i < |reported| :: reported[i] in orig && ghostInfo[i] == orig[reported[i]].info
        invariant forall k :: k in shown <==> k in origShown || (k in orig && Due(orig[k], zone) && k !in pending)
        decreases pending
      {
        var k :| k in pending;
        var g := roster[k];
        assert g == orig[k] && k !in reported;
        if g.updated && g.zone == zone {
          ghostInfo := ghostInfo + [g.info];
          shown := shown + {k};
          assert g.(updated := false) == Consumed(g, zone);
          roster := roster[k := g.(updated := false)];
          reported := reported + [k];
        }
        pending := pending - {k};
      }
      ghosts, spawnedGhosts := roster, shown;
    }

    /** The second loop of GetGhostInfo: forget every shown id that has no ghost in the current zone. */
    method DropAbsent() returns (toRemove: seq<i64>, ghost dropped: seq<u32>)
      modifies this`spawnedGhosts
      ensures spawnedGhosts == set k | k in old(spawnedGhosts) && InZone(ghosts, k, currentZone)
      ensures NoDup(dropped)
      ensures forall k :: k in dropped <==> k in old(spawnedGhosts) && !InZone(ghosts, k, currentZone)
      ensures |toRemove| == |dropped| && forall i | 0 <= i < |dropped| :: toRemove[i] == ToUnrealId(dropped[i])
    {
      toRemove, dropped := [], [];
      var zone := currentZone;
      var shown := spawnedGhosts;
      var rest := shown;
      while rest != {}
        invariant rest <= old(spawnedGhosts)
        invariant forall k :: k in shown <==> k in old(spawnedGhosts) && (k in rest || InZone(ghosts, k, zone))
        invariant NoDup(dropped)
        invariant forall k :: k in dropped <==> k in old(spawnedGhosts) && k !in rest && !InZone(ghosts, k, zone)
        invariant |toRemove| == |dropped|
        invariant forall i | 0 <= i < |dropped| :: toRemove[i] == ToUnrealId(dropped[i])
        decreases rest
      {
        var k :| k in rest;
        if k !in ghosts || ghosts[k].zone != zone {
          toRemove := toRemove + [ToUnrealId(k)];
          shown := shown - {k};
          dropped := dropped + [k];
        }
        rest := rest - {k};
      }
      spawnedGhosts := shown;
    }

    /**
      GetGhostInfo: report the ghosts that have news in the current zone (in the
      roster's iteration order, `reported`) and mark them shown, then forget every
      shown id without a ghost in the current zone (in the set's iteration
      order, `dropped`).
     */
    method GetGhostInfo() returns (ghostInfo: seq<PlayerInfo>, toRemove: seq<i64>,
                                   ghost reported: seq<u32>, ghost dropped: seq<u32>)
      requires Valid()
      modifies this
      ensures Valid()
      ensures ghosts.Keys == old(ghosts).Keys
      ensures forall k | k in ghosts :: ghosts[k] == Consumed(old(ghosts)[k], currentZone)
      ensures NoDup(reported) && forall k :: k in reported <==> k in DueIds(old(ghosts), currentZone)
      ensures |ghostInfo| == |reported|
      ensures forall i | 0 <= i < |reported| :: reported[i] in old(ghosts) && ghostInfo[i] == old(ghosts)[reported[i]].info
      ensures spawnedGhosts == set k | k in old(spawnedGhosts) + DueIds(old(ghosts), currentZone) && InZone(ghosts, k, currentZone)
      ensures forall k | k in spawnedGhosts :: k in ghosts && ghosts[k].zone == currentZone
      ensures NoDup(dropped)
      ensures forall k :: k in dropped <==> k in old(spawnedGhosts) && !InZone(ghosts, k, currentZone)
      ensures |toRemove| == |dropped| && forall i | 0 <= i < |dropped| :: toRemove[i] == ToUnrealId(dropped[i])
      ensures queueConnect == old(queueConnect) && queueDisconnect == old(queueDisconnect)
      ensures socketOpen == old(socketOpen) && currentZone == old(currentZone) && id == old(id)
    {
      ghostInfo, reported := ReportDue();
      toRemove, dropped := DropAbsent();
    }
  }
}
