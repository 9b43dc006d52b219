/**
  The server's answer to a player's state packet (udp.rs): after the player's
  state is accepted, the states of the other players are packed, eleven at a
  time, behind the packet's own header into datagrams sent back to the player.
 */
module Udp {
  import opened Ints
  import opened Seqs
  import opened ServerState

  const MAX_STATES_PER_PACKET: nat := 11
  const MAX_PACKET_LEN: nat := HEADER_LEN + MAX_STATES_PER_PACKET * STATE_LEN

  /** A full datagram is 224 bytes, within the 508 bytes a UDP payload can always carry. */
  lemma PacketFits()
    ensures MAX_PACKET_LEN == 224 && MAX_PACKET_LEN <= 508
  {
  }

  // ---------------------------------------------------------------------------
  // What is sent
  // ---------------------------------------------------------------------------

  /** State byte strings laid end to end. */
  function Concat(states: seq<StateBytes>): (r: seq<u8>)
    ensures |r| == STATE_LEN * |states|
  {
    if states == [] then [] else Concat(states[..|states| - 1]) + states[|states| - 1]
  }

  lemma {:induction false} ConcatAppend(a: seq<StateBytes>, b: seq<StateBytes>)
    ensures Concat(a + b) == Concat(a) + Concat(b)
    decreases |b|
  {
    if b == [] {
      assert a + b == a;
    } else {
      var c := b[..|b| - 1];
      assert (a + b)[..|a + b| - 1] == a + c;
      ConcatAppend(a, c);
    }
  }

  /** A well-framed datagram: the header, then between one and MAX_STATES_PER_PACKET states. */
  predicate Framed(header: Header, d: seq<u8>)
  {
    && |d| >= HEADER_LEN
    && d[..HEADER_LEN] == header
    && (|d| - HEADER_LEN) % STATE_LEN == 0
    && 1 <= (|d| - HEADER_LEN) / STATE_LEN <= MAX_STATES_PER_PACKET
  }

  /**
    The datagrams for `states`: as many full ones as there are groups of
    eleven, then one holding the rest, if any.
   */
  function Datagrams(header: Header, states: seq<StateBytes>): seq<seq<u8>>
    decreases |states|
  {
    if states == [] then []
    else if |states| <= MAX_STATES_PER_PACKET then [header + Concat(states)]
    else [header + Concat(states[..MAX_STATES_PER_PACKET])] + Datagrams(header, states[MAX_STATES_PER_PACKET..])
  }

  /**
    Framing: ceil(n / 11) datagrams, each the header followed by one to eleven
    states, all of them full but the last.
   */
  lemma {:induction false} DatagramsFramed(header: Header, states: seq<StateBytes>)
    ensures var r := Datagrams(header, states);
      && |r| == (|states| + MAX_STATES_PER_PACKET - 1) / MAX_STATES_PER_PACKET
      && (forall i | 0 <= i < |r| :: Framed(header, r[i]))
      && (forall i | 0 <= i < |r| - 1 :: |r[i]| == MAX_PACKET_LEN)
    decreases |states|
  {
    if |states| > MAX_STATES_PER_PACKET {
      var rest := states[MAX_STATES_PER_PACKET..];
      DatagramsFramed(header, rest);
      var r := Datagrams(header, states);
      assert r[1..] == Datagrams(header, rest);
    }
  }

  /** The datagrams with their headers stripped, laid end to end. */
  function Payloads(ds: seq<seq<u8>>): seq<u8>
    requires forall i | 0 <= i < |ds| :: |ds[i]| >= HEADER_LEN
  {
    if ds == [] then [] else ds[0][HEADER_LEN..] + Payloads(ds[1..])
  }

  /** Stripping the headers and joining the datagrams gives back the states in order. */
  lemma {:induction false} DatagramsPayload(header: Header, states: seq<StateBytes>)
    ensures forall i | 0 <= i < |Datagrams(header, states)| :: |Datagrams(header, states)[i]| >= HEADER_LEN
    ensures Payloads(Datagrams(header, states)) == Concat(states)
    decreases |states|
  {
    DatagramsFramed(header, states);
    var r := Datagrams(header, states);
    if states == [] {
    } else if |states| <= MAX_STATES_PER_PACKET {
      assert r[1..] == [];
      assert r[0][HEADER_LEN..] == Concat(states);
    } else {
      var first := states[..MAX_STATES_PER_PACKET];
      var rest := states[MAX_STATES_PER_PACKET..];
      assert r[1..] == Datagrams(header, rest);
      assert r[0][HEADER_LEN..] == Concat(first);
      DatagramsPayload(header, rest);
      ConcatAppend(first, rest);
      assert first + rest == states;
    }
  }

  /** Splitting the states after a whole number of full datagrams splits the datagrams there. */
  lemma {:induction false} DatagramsAppend(header: Header, a: seq<StateBytes>, b: seq<StateBytes>)
    requires |a| % MAX_STATES_PER_PACKET == 0
    ensures Datagrams(header, a + b) == Datagrams(header, a) + Datagrams(header, b)
    decreases |a|
  {
    if b == [] {
      assert a + b == a;
    } else if a == [] {
      assert a + b == b;
    } else {
      var rest := a[MAX_STATES_PER_PACKET..];
      assert (a + b)[..MAX_STATES_PER_PACKET] == a[..MAX_STATES_PER_PACKET];
      assert (a + b)[MAX_STATES_PER_PACKET..] == rest + b;
      DatagramsAppend(header, rest, b);
      if |a| == MAX_STATES_PER_PACKET {
        assert a[..MAX_STATES_PER_PACKET] == a && rest == [];
      }
    }
  }

  // ---------------------------------------------------------------------------
  // Packing
  // ---------------------------------------------------------------------------

  /** After whole datagrams, one to eleven more states make one more datagram. */
  lemma DatagramsSnoc(header: Header, done: seq<StateBytes>, group: seq<StateBytes>)
    requires |done| % MAX_STATES_PER_PACKET == 0 && 0 < |group| <= MAX_STATES_PER_PACKET
    ensures Datagrams(header, done + group) == Datagrams(header, done) + [header + Concat(group)]
    ensures |group| == MAX_STATES_PER_PACKET ==> |done + group| % MAX_STATES_PER_PACKET == 0
  {
    DatagramsAppend(header, done, group);
  }

  /** One more state goes to the end. */
  lemma ConcatSnoc(group: seq<StateBytes>, s: StateBytes)
    ensures Concat(group + [s]) == Concat(group) + s
  {
    assert (group + [s])[..|group|] == group;
  }

  /** `copy_from_slice`: overwrite `buf[start..start + |src|]` with `src`. */
  method CopyInto(buf: array<u8>, start: nat, src: seq<u8>)
    requires start + |src| <= buf.Length
    modifies buf
    ensures buf[..start + |src|] == old(buf[..start]) + src
    ensures buf[start + |src|..] == old(buf[start + |src|..])
  {
    for j := 0 to |src|
      invariant forall t | 0 <= t < start :: buf[t] == old(buf[t])
      invariant forall t | start + |src| <= t < buf.Length :: buf[t] == old(buf[t])
      invariant forall t | 0 <= t < j :: buf[start + t] == src[t]
    {
      buf[start + j] := src[j];
    }
  }

  /** Copy one more state behind the `group` of states already in `buf`. */
  method AppendState(buf: array<u8>, header: Header, statesInBuf: nat, ghost group: seq<StateBytes>, s: StateBytes)
    requires statesInBuf == |group| < MAX_STATES_PER_PACKET
    requires buf.Length == MAX_PACKET_LEN
    requires buf[..HEADER_LEN + statesInBuf * STATE_LEN] == header + Concat(group)
    modifies buf
    ensures buf[..HEADER_LEN + (statesInBuf + 1) * STATE_LEN] == header + Concat(group + [s])
  {
    var start := HEADER_LEN + statesInBuf * STATE_LEN;
    CopyInto(buf, start, s);
    ConcatSnoc(group, s);
  }

  /**
    What the packing loop keeps true: `sent` holds the datagrams for the states
    `done`, a whole number of full datagrams, and `buf` holds the header and
    then the `statesInBuf` states of `group`, fewer than a full datagram.
   */
  ghost predicate Packing(buf: array<u8>, header: Header, statesInBuf: nat, sent: seq<seq<u8>>,
                          done: seq<StateBytes>, group: seq<StateBytes>)
    reads buf
  {
    && buf.Length == MAX_PACKET_LEN
    && statesInBuf == |group| < MAX_STATES_PER_PACKET
    && |done| % MAX_STATES_PER_PACKET == 0
    && buf[..HEADER_LEN + statesInBuf * STATE_LEN] == header + Concat(group)
    && sent == Datagrams(header, done)
  }

  /**
    One pass of the packing loop: copy `s` behind the states already in
    `buf`; when that fills the buffer, send it and start again from the front.
   */
  method PackOne(buf: array<u8>, header: Header, statesInBuf: nat, s: StateBytes, sent: seq<seq<u8>>,
                 ghost done: seq<StateBytes>, ghost group: seq<StateBytes>)
    returns (statesInBuf': nat, sent': seq<seq<u8>>, ghost done': seq<StateBytes>, ghost group': seq<StateBytes>)
    requires Packing(buf, header, statesInBuf, sent, done, group)
    modifies buf
    ensures Packing(buf, header, statesInBuf', sent', done', group')
    ensures done' + group' == done + group + [s]
  {
    AppendState(buf, header, statesInBuf, group, s);
    statesInBuf', sent', done', group' := statesInBuf + 1, sent, done, group + [s];
    if statesInBuf' == MAX_STATES_PER_PACKET {
      assert buf[..] == header + Concat(group') by {
        assert buf[..] == buf[..MAX_PACKET_LEN];
      }
      DatagramsSnoc(header, done', group');
      sent' := sent' + [buf[..]];
      done', group' := done' + group', [];
      statesInBuf' := 0;
    }
  }

  /**
    The packing loop of handle_packet: the header goes to the front of a
    MAX_PACKET_LEN buffer once; each state is copied behind the ones already
    there, and a full buffer is sent and refilled from the front; a partly
    filled buffer is sent at the end.
   */
  method PackStates(header: Header, states: seq<StateBytes>) returns (sent: seq<seq<u8>>)
    ensures sent == Datagrams(header, states)
  {
    // zero-filled in handle_packet; only bytes written below are ever sent
    var buf := new u8[MAX_PACKET_LEN];
    var statesInBuf: nat := 0;
    CopyInto(buf, 0, header);
    sent := [];
    ghost var done: seq<StateBytes> := [];   // the states already sent
    ghost var group: seq<StateBytes> := [];  // the states in `buf`
    for i := 0 to |states|
      invariant Packing(buf, header, statesInBuf, sent, done, group)
      invariant done + group == states[..i]
    {
      statesInBuf, sent, done, group := PackOne(buf, header, statesInBuf, states[i], sent, done, group);
      assert states[..i + 1] == states[..i] + [states[i]];
    }
    assert states[..|states|] == states;
    if statesInBuf != 0 {
      var end := HEADER_LEN + statesInBuf * STATE_LEN;
      DatagramsSnoc(header, done, group);
      sent := sent + [buf[..end]];
    } else {
      assert done == states;
    }
  }

  /** The state bytes of the players listed in `order`, in that order. */
  function StatesOf(players: map<u8, Player>, order: seq<u8>): (r: seq<StateBytes>)
    requires forall i | 0 <= i < |order| :: order[i] in players
    ensures |r| == |order|
    ensures forall i | 0 <= i < |order| :: r[i] == players[order[i]].state.bytes
  {
    seq(|order|, i requires 0 <= i < |order| => players[order[i]].state.bytes)
  }

  /**
    handle_packet: update the sender's state; if the update is refused nothing
    is sent, otherwise the other players' filtered states (in the registry's
    iteration order, `order`) are sent back behind the packet's header.
   */
  method HandlePacket(state: State, header: Header, id: u8, ps: PlayerState)
    returns (sent: seq<seq<u8>>, ghost order: seq<u8>)
    requires state.Valid()
    modifies state
    ensures state.Valid()
    ensures !(id in old(state.players) && ps.updateNum > old(state.players)[id].state.updateNum) ==>
              sent == [] && state.players == old(state.players)
    ensures id in old(state.players) && ps.updateNum > old(state.players)[id].state.updateNum ==>
              && state.players == old(state.players)[id := old(state.players)[id].(state := ps)]
              && NoDup(order)
              && (forall k :: k in order <==> k in state.players && k != id && HasUpdated(state.players[k].state))
              && (forall i | 0 <= i < |order| :: order[i] in state.players)
              && sent == Datagrams(header, StatesOf(state.players, order))
              && |sent| <= 3
  {
    var updated := state.Update(id, ps);
    if !updated {
      return [], [];
    }
    var filtered;
    filtered, order := state.FilteredState(id);
    assert filtered == StatesOf(state.players, order);
    sent := PackStates(header, filtered);
    NoDupBound(order, state.players.Keys - {id});
    DatagramsFramed(header, filtered);
  }
}
