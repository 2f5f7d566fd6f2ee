/**
 * The multiplexed poll over many outstanding requests. The helper keeps an
 * identity-keyed hash of the servers; each poll round waits on every socket
 * at once and hands each ready socket's server, found again through the
 * identity of the socket's peer address, to the caller's block.
 *
 * `IO.select` is replaced by an input: `rounds[i]` is the sequence of peer
 * addresses of the sockets that round i reports readable (a round past the
 * end of `rounds` reports none, which is the timeout). The block itself is
 * the caller's; ReadInfo returns the servers it is called with, in call
 * order, which is also the list the source returns.
 */
module Massive {
  import opened ServerConnection
  import opened ServerRecord

  // ---------------------------------------------------------------------------
  // The poll schedule

  function ReadyAt(rounds: seq<seq<Address>>, i: nat): seq<Address> {
    if i < |rounds| then rounds[i] else []
  }

  /** `sockets_completed` before round j: every ready socket of earlier rounds. */
  function Completed(rounds: seq<seq<Address>>, j: nat): nat {
    if j == 0 then 0 else Completed(rounds, j - 1) + |ReadyAt(rounds, j - 1)|
  }

  /** `retries` before round j: the number of empty rounds since the last round
      with a ready socket. */
  function EmptyStreak(rounds: seq<seq<Address>>, j: nat): nat {
    if j == 0 then 0
    else if |ReadyAt(rounds, j - 1)| == 0 then EmptyStreak(rounds, j - 1) + 1
    else 0
  }

  /** Round j polls unless it is skipped by the `break` guard. */
  predicate RoundRuns(n: nat, maxRetries: nat, rounds: seq<seq<Address>>, j: nat) {
    Completed(rounds, j) < n && EmptyStreak(rounds, j) < maxRetries
  }

  /** The round at which the loop, having reached round j, stops. */
  function RoundsFrom(n: nat, maxRetries: nat, rounds: seq<seq<Address>>, j: nat): (k: nat)
    requires j <= n
    decreases n - j
    ensures j <= k <= n
    ensures forall i :: j <= i < k ==> RoundRuns(n, maxRetries, rounds, i)
    ensures k < n ==> !RoundRuns(n, maxRetries, rounds, k)
  {
    if j == n || !RoundRuns(n, maxRetries, rounds, j) then j
    else RoundsFrom(n, maxRetries, rounds, j + 1)
  }

  /** The number of rounds `read_info` polls over n sockets. */
  function RoundsRun(n: nat, maxRetries: nat, rounds: seq<seq<Address>>): nat {
    RoundsFrom(n, maxRetries, rounds, 0)
  }

  /** The ready sockets of the first k rounds, in the order they are handled. */
  function ReadyPeers(rounds: seq<seq<Address>>, k: nat): (ps: seq<Address>)
    ensures |ps| == Completed(rounds, k)
  {
    if k == 0 then [] else ReadyPeers(rounds, k - 1) + ReadyAt(rounds, k - 1)
  }

  /** At most one round per socket; none at all over zero sockets. */
  lemma PollBounded(n: nat, maxRetries: nat, rounds: seq<seq<Address>>)
    ensures RoundsRun(n, maxRetries, rounds) <= n
    ensures n == 0 ==> RoundsRun(n, maxRetries, rounds) == 0 && ReadyPeers(rounds, 0) == []
    ensures maxRetries == 0 ==> RoundsRun(n, maxRetries, rounds) == 0
  {
  }

  /** Once the rounds so far have answered for every socket, no further round
      is polled. */
  lemma PollStopsWhenAllAnswered(n: nat, maxRetries: nat, rounds: seq<seq<Address>>, j: nat)
    requires j <= n && Completed(rounds, j) >= n
    ensures RoundsRun(n, maxRetries, rounds) <= j
  {
    assert !RoundRuns(n, maxRetries, rounds, j);
  }

  /** When the poll stops early, either every socket answered or the last
      `maxRetries` rounds were all empty. */
  lemma {:induction false} PollStopReason(n: nat, maxRetries: nat, rounds: seq<seq<Address>>)
    requires RoundsRun(n, maxRetries, rounds) < n
    ensures var k := RoundsRun(n, maxRetries, rounds);
            Completed(rounds, k) >= n ||
            (k >= maxRetries && forall i :: k - maxRetries <= i < k ==> ReadyAt(rounds, i) == [])
  {
    var k := RoundsRun(n, maxRetries, rounds);
    if Completed(rounds, k) < n {
      EmptyStreakSpan(rounds, k);
    }
  }

  /** The retry counter before round j counts exactly the empty rounds at the
      end: those rounds are empty, and the round before them, if any, had a
      ready socket. */
  lemma {:induction false} EmptyStreakSpan(rounds: seq<seq<Address>>, j: nat)
    ensures EmptyStreak(rounds, j) <= j
    ensures forall i :: j - EmptyStreak(rounds, j) <= i < j ==> ReadyAt(rounds, i) == []
    ensures EmptyStreak(rounds, j) < j ==> ReadyAt(rounds, j - 1 - EmptyStreak(rounds, j)) != []
  {
    if j > 0 && |ReadyAt(rounds, j - 1)| == 0 {
      EmptyStreakSpan(rounds, j - 1);
    }
  }

  lemma {:induction false} SilentRounds(rounds: seq<seq<Address>>, j: nat)
    requires forall i :: 0 <= i < |rounds| ==> rounds[i] == []
    ensures Completed(rounds, j) == 0 && EmptyStreak(rounds, j) == j
  {
    if j > 0 {
      SilentRounds(rounds, j - 1);
    }
  }

  /** If no socket ever answers, exactly min(maxRetries, n) rounds are polled
      and no block is called. */
  lemma PollSilent(n: nat, maxRetries: nat, rounds: seq<seq<Address>>)
    requires forall i :: 0 <= i < |rounds| ==> rounds[i] == []
    ensures RoundsRun(n, maxRetries, rounds) == if maxRetries < n then maxRetries else n
    ensures ReadyPeers(rounds, RoundsRun(n, maxRetries, rounds)) == []
  {
    var k := RoundsRun(n, maxRetries, rounds);
    SilentRounds(rounds, k);
    if k < n {
      assert !RoundRuns(n, maxRetries, rounds, k);
    }
    if k < maxRetries && k < n {
      assert false;
    }
    if maxRetries < k {
      assert RoundRuns(n, maxRetries, rounds, maxRetries);
      SilentRounds(rounds, maxRetries);
      assert false;
    }
  }

  /** The case the browser uses: two retries, nothing answers. */
  lemma PollSilentTwoRetries(n: nat, rounds: seq<seq<Address>>)
    requires forall i :: 0 <= i < |rounds| ==> rounds[i] == []
    ensures RoundsRun(n, 2, rounds) == if n < 2 then n else 2
  {
    PollSilent(n, 2, rounds);
  }

  // ---------------------------------------------------------------------------
  // The identity hash

  /** `calculate_index`: the identity of a new connection to the peer. */
  function CalculateIndex(peer: Address): Identity {
    NewConnection(peer.ip, peer.port).UniqueIndex()
  }

  /** A server's own peer address leads back to its identity. */
  lemma CalculateIndexOfPeer(s: Server)
    ensures CalculateIndex(s.Peer()) == s.UniqueIndex()
  {
  }

  /** `each_with_object({}) { |server, hsh| hsh[server.unique_index] = server }`. */
  function IdentityMap(list: seq<Server>): (m: map<Identity, Server>)
    ensures m.Keys == set i | 0 <= i < |list| :: list[i].UniqueIndex()
    ensures forall k :: k in m ==> m[k].UniqueIndex() == k
  {
    if |list| == 0 then map[]
    else
      var m := IdentityMap(list[..|list| - 1]);
      var s := list[|list| - 1];
      assert forall i :: 0 <= i < |list| - 1 ==> list[..|list| - 1][i] == list[i];
      m[s.UniqueIndex() := s]
  }

  /** Among servers sharing an identity the later one is kept. */
  lemma {:induction false} IdentityMapLaterWins(list: seq<Server>, i: nat)
    requires i < |list|
    requires forall j :: i < j < |list| ==> list[j].UniqueIndex() != list[i].UniqueIndex()
    ensures list[i].UniqueIndex() in IdentityMap(list)
    ensures IdentityMap(list)[list[i].UniqueIndex()] == list[i]
  {
    if i < |list| - 1 {
      IdentityMapLaterWins(list[..|list| - 1], i);
    }
  }

  function Ids(list: seq<Server>): (ids: seq<Identity>)
    ensures |ids| == |list| && forall i :: 0 <= i < |list| ==> ids[i] == list[i].UniqueIndex()
  {
    seq(|list|, i requires 0 <= i < |list| => list[i].UniqueIndex())
  }

  /** The key order of a Ruby hash: each key where it was first inserted. */
  function FirstOccurrences(ids: seq<Identity>): (r: seq<Identity>)
    ensures forall i, j :: 0 <= i < j < |r| ==> r[i] != r[j]
    ensures forall x :: x in r <==> x in ids
  {
    if |ids| == 0 then []
    else
      var r := FirstOccurrences(ids[..|ids| - 1]);
      assert forall x :: x in ids <==> x in ids[..|ids| - 1] || x == ids[|ids| - 1];
      if ids[|ids| - 1] in r then r else r + [ids[|ids| - 1]]
  }

  /** One more server: the hash maps its identity to it, and the key order
      gains that identity unless it was already a key. */
  lemma {:induction false} InsertStep(list: seq<Server>, i: nat)
    requires i < |list|
    ensures IdentityMap(list[..i + 1]) == IdentityMap(list[..i])[list[i].UniqueIndex() := list[i]]
    ensures var r := FirstOccurrences(Ids(list[..i]));
            var id := list[i].UniqueIndex();
            (id in r <==> id in IdentityMap(list[..i])) &&
            FirstOccurrences(Ids(list[..i + 1])) == if id in r then r else r + [id]
  {
    assert list[..i + 1][..i] == list[..i];
    assert Ids(list[..i + 1])[..i] == Ids(list[..i]);
    var id := list[i].UniqueIndex();
    assert id in FirstOccurrences(Ids(list[..i])) <==> id in Ids(list[..i]);
    assert id in Ids(list[..i]) <==> exists k :: 0 <= k < i && list[..i][k].UniqueIndex() == id;
  }

  /** The hash's keys, in order, are exactly its keys. */
  lemma {:induction false} KeysInOrder(list: seq<Server>)
    ensures forall k :: k in FirstOccurrences(Ids(list)) <==> k in IdentityMap(list)
  {
    forall k
      ensures k in FirstOccurrences(Ids(list)) <==> k in IdentityMap(list)
    {
      if k in Ids(list) {
        var i :| 0 <= i < |list| && Ids(list)[i] == k;
        assert list[i].UniqueIndex() == k;
      }
      if k in IdentityMap(list) {
        var i :| 0 <= i < |list| && list[i].UniqueIndex() == k;
        assert Ids(list)[i] == k;
      }
    }
  }

  /** The loop of `initialize`: each server stored under its identity, in list order. */
  method BuildIdentityHash(list: seq<Server>) returns (m: map<Identity, Server>, keys: seq<Identity>)
    ensures m == IdentityMap(list) && keys == FirstOccurrences(Ids(list))
  {
    m := map[];
    keys := [];
    var i := 0;
    while i < |list|
      invariant 0 <= i <= |list|
      invariant m == IdentityMap(list[..i])
      invariant keys == FirstOccurrences(Ids(list[..i]))
    {
      var s := list[i];
      InsertStep(list, i);
      if s.UniqueIndex() !in m {
        keys := keys + [s.UniqueIndex()];
      }
      m := m[s.UniqueIndex() := s];
      i := i + 1;
    }
    assert list[..i] == list;
  }

  class MassiveHelper {
    /** The identity hash: its entries, and its keys in insertion order. */
    const servers: map<Identity, Server>
    const order: seq<Identity>

    ghost predicate Valid() {
      && (forall k :: k in servers ==> servers[k].UniqueIndex() == k)
      && (forall k :: k in order <==> k in servers)
    }

    constructor (list: seq<Server>)
      ensures servers == IdentityMap(list) && order == FirstOccurrences(Ids(list))
      ensures Valid()
    {
      var m, keys := BuildIdentityHash(list);
      KeysInOrder(list);
      servers := m;
      order := keys;
    }

    /** `servers[calculate_index(socket)]`; null is Ruby's nil for an unknown peer. */
    function Lookup(peer: Address): (s: Server?)
      requires Valid()
      ensures s != null ==> s.UniqueIndex() == CalculateIndex(peer)
      ensures s == null <==> CalculateIndex(peer) !in servers
    {
      var id := CalculateIndex(peer);
      if id in servers then servers[id] else null
    }

    /** A server stored under its own identity answers to its peer address. */
    lemma LookupStored(s: Server)
      requires Valid() && s.UniqueIndex() in servers && servers[s.UniqueIndex()] == s
      ensures Lookup(s.Peer()) == s
    {
      CalculateIndexOfPeer(s);
    }

    function Dispatch(peers: seq<Address>): (ss: seq<Server?>)
      requires Valid()
      ensures |ss| == |peers| && forall i :: 0 <= i < |peers| ==> ss[i] == Lookup(peers[i])
    {
      seq(|peers|, i requires 0 <= i < |peers| => Lookup(peers[i]))
    }

    lemma DispatchSnoc(peers: seq<Address>, p: Address)
      requires Valid()
      ensures Dispatch(peers + [p]) == Dispatch(peers) + [Lookup(p)]
    {
    }

    lemma DispatchAppend(a: seq<Address>, b: seq<Address>)
      requires Valid()
      ensures Dispatch(a + b) == Dispatch(a) + Dispatch(b)
    {
    }

    /** The ready sockets of one round, in order: each one's server, found
        through the identity of its peer, is handed to the block. */
    method HandleReady(ready: seq<Address>) returns (handled: seq<Server?>)
      requires Valid()
      ensures handled == Dispatch(ready)
    {
      handled := [];
      var j := 0;
      while j < |ready|
        invariant 0 <= j <= |ready|
        invariant handled == Dispatch(ready[..j])
      {
        var server := Lookup(ready[j]);
        assert ready[..j + 1] == ready[..j] + [ready[j]];
        DispatchSnoc(ready[..j], ready[j]);
        handled := handled + [server];
        j := j + 1;
      }
      assert ready[..j] == ready;
    }

    /** `read_info`: at most one round per socket, a round skipped (ending the
        loop) once every socket completed or `maxRetries` empty rounds ran in a
        row; every ready socket of a polled round calls the block once with its
        server. */
    method ReadInfo(sockets: seq<Address>, maxRetries: nat, rounds: seq<seq<Address>>)
      returns (serversWithInfo: seq<Server?>)
      requires Valid()
      ensures serversWithInfo == Dispatch(ReadyPeers(rounds, RoundsRun(|sockets|, maxRetries, rounds)))
    {
      var n := |sockets|;
      serversWithInfo := [];
      var socketsCompleted := 0;
      var retries := 0;
      var i := 0;
      while i < n
        invariant 0 <= i <= n
        invariant RoundsFrom(n, maxRetries, rounds, i) == RoundsRun(n, maxRetries, rounds)
        invariant socketsCompleted == Completed(rounds, i)
        invariant retries == EmptyStreak(rounds, i)
        invariant serversWithInfo == Dispatch(ReadyPeers(rounds, i))
      {
        if socketsCompleted >= n || retries >= maxRetries {
          break;
        }
        var ready := ReadyAt(rounds, i);
        if |ready| > 0 {
          retries := 0;
          var handled := HandleReady(ready);
          DispatchAppend(ReadyPeers(rounds, i), ready);
          socketsCompleted := socketsCompleted + |handled|;
          serversWithInfo := serversWithInfo + handled;
        } else {
          retries := retries + 1;
        }
        i := i + 1;
      }
    }

    /** `read_info_servers`: polls the sockets of every server in the hash. */
    method ReadInfoServers(maxRetries: nat, rounds: seq<seq<Address>>) returns (serversWithInfo: seq<Server?>)
      requires Valid()
      ensures serversWithInfo == Dispatch(ReadyPeers(rounds, RoundsRun(|order|, maxRetries, rounds)))
    {
      var sockets := seq(|order|, i requires 0 <= i < |order| && order[i] in servers => servers[order[i]].Peer());
      serversWithInfo := ReadInfo(sockets, maxRetries, rounds);
    }

    /** `read_status_servers`: polls the sockets of the given servers; replies
        are still matched through the hash. */
    method ReadStatusServers(list: seq<Server>, maxRetries: nat, rounds: seq<seq<Address>>)
      returns (serversWithInfo: seq<Server?>)
      requires Valid()
      ensures serversWithInfo == Dispatch(ReadyPeers(rounds, RoundsRun(|list|, maxRetries, rounds)))
    {
      var sockets := seq(|list|, i requires 0 <= i < |list| => list[i].Peer());
      serversWithInfo := ReadInfo(sockets, maxRetries, rounds);
    }
  }

  /** A reply from the peer address of a server in the hash reaches that server
      when no later server in the list shares its identity. */
  lemma {:induction false} ReplyReachesSender(list: seq<Server>, i: nat, h: MassiveHelper)
    requires i < |list| && h.Valid() && h.servers == IdentityMap(list)
    requires forall j :: i < j < |list| ==> list[j].UniqueIndex() != list[i].UniqueIndex()
    ensures h.Lookup(list[i].Peer()) == list[i]
  {
    IdentityMapLaterWins(list, i);
    h.LookupStored(list[i]);
  }
}
