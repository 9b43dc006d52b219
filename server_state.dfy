/**
  The server's shared state (state.rs): the registry of connected players,
  keyed by a one-byte id and capped at MAX_PLAYERS, each with the last state it
  reported and the connection notices queued for it.
 */
module ServerState {
  import opened Wrappers
  import opened Ints
  import opened Seqs

  const MAX_PLAYERS: nat := 26
  /** The header of a client packet: the big-endian update number. */
  const HEADER_LEN: nat := 4
  const STATE_LEN: nat := 20
  const CLIENT_PACKET_LEN: nat := HEADER_LEN + STATE_LEN

  type Header = s: seq<u8> | |s| == HEADER_LEN witness [0, 0, 0, 0]
  type StateBytes = s: seq<u8> | |s| == STATE_LEN witness seq(20, i => 0)
  type ClientPacket = s: seq<u8> | |s| == CLIENT_PACKET_LEN witness seq(24, i => 0)

  // ---------------------------------------------------------------------------
  // Big-endian update numbers
  // ---------------------------------------------------------------------------

  /** u32::to_be_bytes: eight bits at a time, the most significant first. */
  function ToBeBytes(n: u32): Header
  {
    [n / 0x100 / 0x100 / 0x100, n / 0x100 / 0x100 % 0x100, n / 0x100 % 0x100, n % 0x100]
  }

  /** u32::from_be_bytes, the most significant byte first: encoding the number again gives back the bytes. */
  function FromBeBytes(b: Header): (r: u32)
    ensures ToBeBytes(r) == b
  {
    var n := (b[0] as int) * 0x100_0000 + (b[1] as int) * 0x1_0000 + (b[2] as int) * 0x100 + b[3];
    assert n / 0x100 == (b[0] as int) * 0x1_0000 + (b[1] as int) * 0x100 + b[2];
    assert n / 0x100 / 0x100 == (b[0] as int) * 0x100 + b[1];
    n
  }

  lemma ToBeBytesInverse(n: u32)
    ensures FromBeBytes(ToBeBytes(n)) == n
  {
  }

  // ---------------------------------------------------------------------------
  // Player state
  // ---------------------------------------------------------------------------

  /** The last state a player reported: its update number and its 20 state bytes, the first being its id. */
  datatype PlayerState = PlayerState(updateNum: u32, bytes: StateBytes)

  /**
    PlayerState::from_bytes: split a 24-byte client packet into the header, the
    id (the byte right after the header) and the state.
   */
  function FromBytes(packet: ClientPacket): (r: (Header, u8, PlayerState))
    ensures r.0 + r.2.bytes == packet
    ensures ToBeBytes(r.2.updateNum) == r.0
    ensures r.1 == r.2.bytes[0]
  {
    var header: Header := packet[..HEADER_LEN];
    (header, packet[HEADER_LEN], PlayerState(FromBeBytes(header), packet[HEADER_LEN..]))
  }

  /** PlayerState::new: update number 0 and all-zero bytes. */
  function NewPlayerState(): (r: PlayerState)
    ensures !HasUpdated(r)
    ensures forall i | 0 <= i < STATE_LEN :: r.bytes[i] == 0
  {
    PlayerState(0, seq(STATE_LEN, i => 0))
  }

  /** PlayerState::has_updated: some update has been accepted. */
  predicate HasUpdated(s: PlayerState)
  {
    s.updateNum != 0
  }

  /**
    PlayerState::update: `other` replaces `s` exactly when its update number
    is strictly greater; the flag says whether it did.
   */
  function UpdateState(s: PlayerState, other: PlayerState): (r: (PlayerState, bool))
    ensures r.1 <==> other.updateNum > s.updateNum
    ensures r.1 ==> r.0 == other
    ensures !r.1 ==> r.0 == s
    ensures r.0.updateNum >= s.updateNum
  {
    if other.updateNum > s.updateNum then (other, true) else (s, false)
  }

  /** Once a state has been accepted, every later state is one too. */
  lemma UpdatedStays(s: PlayerState, other: PlayerState)
    requires HasUpdated(s)
    ensures HasUpdated(UpdateState(s, other).0)
  {
  }

  // ---------------------------------------------------------------------------
  // The registry
  // ---------------------------------------------------------------------------

  datatype ConnectionUpdate = Connected(id: u8) | Disconnected(id: u8)

  /** A connected player: its state and everything sent on its notification channel so far. */
  datatype Player = Player(state: PlayerState, sent: seq<ConnectionUpdate>)

  /** Player::new: a fresh state and an empty channel. */
  const NEW_PLAYER: Player := Player(NewPlayerState(), [])

  /** `p` with `u` queued on its channel. */
  function Notify(p: Player, u: ConnectionUpdate): Player
  {
    p.(sent := p.sent + [u])
  }

  /** The ids 0 .. n-1. */
  function IdsBelow(n: nat): (r: set<u8>)
    requires n <= 0x100
    ensures |r| == n
    ensures forall b: u8 :: b in r <==> b < n
  {
    if n == 0 then {} else
      var r := IdsBelow(n - 1) + {n - 1};
      assert n - 1 !in IdsBelow(n - 1);
      r
  }

  /** A set of fewer than 256 ids leaves some byte free. */
  lemma {:induction false} FreeIdExists(taken: set<u8>)
    requires |taken| < 0x100
    ensures exists b: u8 :: b !in taken
  {
    var all := IdsBelow(0x100);
    assert |all - taken| > 0;
  }

  class State {
    var players: map<u8, Player>

    /** The registry never holds more than MAX_PLAYERS players. */
    ghost predicate Valid()
      reads this
    {
      |players| <= MAX_PLAYERS
    }

    constructor ()
      ensures Valid() && players == map[]
    {
      players := map[];
    }

    /**
      State::connect: refuse when full; otherwise pick an unused id, tell every
      connected player about it, and register a new player with an empty channel.
      Returns the new id and the ids of the players already connected.
     */
    method Connect() returns (r: Option<(u8, seq<u8>)>)
      requires Valid()
      modifies this
      ensures Valid()
      ensures r.None? <==> |old(players)| == MAX_PLAYERS
      ensures r.None? ==> players == old(players)
      ensures r.Some? ==>
                && r.value.0 !in old(players)
                && players.Keys == old(players).Keys + {r.value.0}
                && |players| == |old(players)| + 1
                && players[r.value.0] == NEW_PLAYER
                && (forall k | k in old(players) :: players[k] == Notify(old(players)[k], Connected(r.value.0)))
                && NoDup(r.value.1)
                && (forall k :: k in r.value.1 <==> k in old(players))
    {
      if |players| == MAX_PLAYERS {
        return None;
      }
      FreeIdExists(players.Keys);
      var id :| id !in players;

      var others: seq<u8> := [];
      var roster := players;
      var pending := roster.Keys;
      while pending != {}
        invariant pending <= roster.Keys && roster.Keys == old(players).Keys
        invariant forall k | k in pending :: roster[k] == old(players)[k]
        invariant forall k | k in roster && k !in pending :: roster[k] == Notify(old(players)[k], Connected(id))
        invariant NoDup(others)
        invariant forall k :: k in others <==> k in old(players) && k !in pending
        decreases pending
      {
        var k :| k in pending;
        others := others + [k];
        roster := roster[k := Notify(roster[k], Connected(id))];
        pending := pending - {k};
      }
      players := roster[id := NEW_PLAYER];
      return Some((id, others));
    }

    /**
      State::disconnect: an unknown id changes nothing; otherwise that player
      leaves and every remaining player is told.
     */
    method Disconnect(id: u8)
      requires Valid()
      modifies this
      ensures Valid()
      ensures id !in old(players) ==> players == old(players)
      ensures id in old(players) ==>
                && players.Keys == old(players).Keys - {id}
                && forall k | k in players :: players[k] == Notify(old(players)[k], Disconnected(id))
    {
      if id !in players {
        return;
      }
      var roster := players - {id};
      var pending := roster.Keys;
      while pending != {}
        invariant pending <= roster.Keys && roster.Keys == old(players).Keys - {id}
        invariant forall k | k in pending :: roster[k] == old(players)[k]
        invariant forall k | k in roster && k !in pending :: roster[k] == Notify(old(players)[k], Disconnected(id))
        decreases pending
      {
        var k :| k in pending;
        roster := roster[k := Notify(roster[k], Disconnected(id))];
        pending := pending - {k};
      }
      players := roster;
    }

    /**
      State::update: hand `ps` to the player's PlayerState::update; an unknown
      id is refused. Only that player's state can change.
     */
    method Update(id: u8, ps: PlayerState) returns (updated: bool)
      requires Valid()
      modifies this
      ensures Valid()
      ensures updated <==> id in old(players) && ps.updateNum > old(players)[id].state.updateNum
      ensures updated ==> players == old(players)[id := old(players)[id].(state := ps)]
      ensures !updated ==> players == old(players)
    {
      if id !in players {
        return false;
      }
      var player := players[id];
      var (next, accepted) := UpdateState(player.state, ps);
      players := players[id := player.(state := next)];
      return accepted;
    }

    /**
      State::filtered_state: the state bytes of every player other than `id`
      that has reported at least once, in the map's iteration order (`order`).
     */
    method FilteredState(id: u8) returns (states: seq<StateBytes>, ghost order: seq<u8>)
      ensures NoDup(order)
      ensures forall k :: k in order <==> k in players && k != id && HasUpdated(players[k].state)
      ensures |states| == |order|
      ensures forall i | 0 <= i < |order| :: order[i] in players && states[i] == players[order[i]].state.bytes
    {
      states, order := [], [];
      var pending := players.Keys;
      while pending != {}
        invariant pending <= players.Keys
        invariant NoDup(order)
        invariant forall k :: k in order <==> k in players && k !in pending && k != id && HasUpdated(players[k].state)
        invariant |states| == |order|
        invariant forall i | 0 <= i < |order| :: order[i] in players && states[i] == players[order[i]].state.bytes
        decreases pending
      {
        var playerId :| playerId in pending;
        pending := pending - {playerId};
        if id == playerId || !HasUpdated(players[playerId].state) {
          continue;
        }
        states := states + [players[playerId].state.bytes];
        order := order + [playerId];
      }
    }
  }
}
