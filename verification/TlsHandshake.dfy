/** The handshake driver `tls_pair_create` of backends/openssl_tls.c, with the TLS library
    replaced by a contract: a peer plays a script of flights over a pair of bounded FIFO
    pipes, and each call of `SSL_do_handshake` sends and receives as much as it can. */
module TlsHandshake {
  import opened Prelude

  const MAX_ATTEMPTS: nat := 10000

  /** Abort stands for every error other than wanting to read or write. */
  datatype Action = Send(data: seq<byte>) | Receive(count: nat) | Abort

  datatype Peer = Peer(script: seq<Action>, received: seq<byte>)

  datatype Verdict = Finished | Wants | Broken

  datatype Progress = Progress(peer: Peer, inbox: seq<byte>, outbox: seq<byte>, verdict: Verdict)

  /** One call of SSL_do_handshake. */
  function Advance(p: Peer, inbox: seq<byte>, outbox: seq<byte>, capacity: nat): (r: Progress)
    requires |outbox| <= capacity
    ensures |r.outbox| <= capacity && |r.inbox| <= |inbox|
    ensures r.verdict.Finished? <==> r.peer.script == []
    decreases |p.script|
  {
    if p.script == [] then Progress(p, inbox, outbox, Finished)
    else
      var rest := p.script[1..];
      match p.script[0]
      case Abort => Progress(p, inbox, outbox, Broken)
      case Send(data) =>
        var k := Min(capacity - |outbox|, |data|);
        if k == |data| then Advance(Peer(rest, p.received), inbox, outbox + data, capacity)
        else Progress(Peer([Send(data[k..])] + rest, p.received), inbox, outbox + data[..k], Wants)
      case Receive(count) =>
        var k := Min(|inbox|, count);
        if k == count then Advance(Peer(rest, p.received + inbox[..k]), inbox[k..], outbox, capacity)
        else Progress(Peer([Receive(count - k)] + rest, p.received + inbox[..k]), inbox[k..], outbox, Wants)
  }

  /** Both peers and the two directions of the pipe between them. */
  datatype Net = Net(client: Peer, server: Peer, toServer: seq<byte>, toClient: seq<byte>) {
    predicate Fits(capacity: nat) { |toServer| <= capacity && |toClient| <= capacity }
  }

  datatype Outcome = Outcome(ok: bool, net: Net, rounds: nat)

  /** `handshake_step`: a finished side is left alone. */
  function StepClient(net: Net, finished: bool, capacity: nat): (r: (Net, bool, bool))
    requires net.Fits(capacity)
    ensures r.0.Fits(capacity)
  {
    if finished then (net, true, true)
    else
      var p := Advance(net.client, net.toClient, net.toServer, capacity);
      (Net(p.peer, net.server, p.outbox, p.inbox), p.verdict.Finished?, !p.verdict.Broken?)
  }

  function StepServer(net: Net, finished: bool, capacity: nat): (r: (Net, bool, bool))
    requires net.Fits(capacity)
    ensures r.0.Fits(capacity)
  {
    if finished then (net, true, true)
    else
      var p := Advance(net.server, net.toServer, net.toClient, capacity);
      (Net(net.client, p.peer, p.inbox, p.outbox), p.verdict.Finished?, !p.verdict.Broken?)
  }

  /** The ping-pong loop with `attempts` rounds left. */
  function Drive(net: Net, clientFinished: bool, serverFinished: bool, capacity: nat, attempts: nat): Outcome
    requires net.Fits(capacity)
    decreases attempts
  {
    if attempts == 0 then Outcome(false, net, 0)
    else
      var (net1, c, cOk) := StepClient(net, clientFinished, capacity);
      if !cOk then Outcome(false, net1, 1)
      else
        var (net2, s, sOk) := StepServer(net1, serverFinished, capacity);
        if !sOk then Outcome(false, net2, 1)
        else if c && s then Outcome(true, net2, 1)
        else
          var rest := Drive(net2, c, s, capacity, attempts - 1);
          rest.(rounds := rest.rounds + 1)
  }

  // ----- the imperative driver

  class Pipe {
    const capacity: nat
    var contents: seq<byte>

    constructor (capacity: nat)
      ensures this.capacity == capacity && contents == []
    {
      this.capacity, contents := capacity, [];
    }
  }

  class Ssl {
    const inbox: Pipe
    const outbox: Pipe
    var peer: Peer
    ghost var finished: bool

    constructor (peer: Peer, inbox: Pipe, outbox: Pipe)
      ensures this.peer == peer && this.inbox == inbox && this.outbox == outbox && !finished
    {
      this.peer, this.inbox, this.outbox, finished := peer, inbox, outbox, false;
    }

    /** Not to be called once it has reported that the handshake is over. */
    method DoHandshake() returns (verdict: Verdict)
      requires !finished && inbox != outbox
      requires |outbox.contents| <= outbox.capacity
      modifies this, inbox, outbox
      ensures var p := Advance(old(peer), old(inbox.contents), old(outbox.contents), outbox.capacity);
              && peer == p.peer && inbox.contents == p.inbox && outbox.contents == p.outbox
              && verdict == p.verdict && (finished <==> verdict.Finished?)
    {
      var p := Advance(peer, inbox.contents, outbox.contents, outbox.capacity);
      peer, inbox.contents, outbox.contents, verdict := p.peer, p.inbox, p.outbox, p.verdict;
      finished := verdict.Finished?;
    }
  }

  class TlsPair {
    const client: Ssl
    const server: Ssl

    constructor (client: Peer, server: Peer, capacity: nat)
      ensures Connected(capacity) && fresh(this.client) && fresh(this.server)
      ensures fresh(this.client.inbox) && fresh(this.client.outbox)
      ensures Contents() == Net(client, server, [], [])
      ensures !this.client.finished && !this.server.finished
    {
      var toServer := new Pipe(capacity);
      var toClient := new Pipe(capacity);
      this.client := new Ssl(client, toClient, toServer);
      this.server := new Ssl(server, toServer, toClient);
    }

    ghost predicate Connected(capacity: nat)
      reads this, client, server, client.inbox, client.outbox
    {
      && client != server && client.inbox != client.outbox
      && client.inbox == server.outbox && client.outbox == server.inbox
      && client.inbox.capacity == client.outbox.capacity == capacity
      && Contents().Fits(capacity)
    }

    ghost function Contents(): Net
      reads this, client, server, client.inbox, client.outbox
    {
      Net(client.peer, server.peer, client.outbox.contents, client.inbox.contents)
    }

    /** `handshake_step` for one side, which must be a side of this pair. */
    method HandshakeStep(ssl: Ssl, finished: bool, ghost capacity: nat) returns (ok: bool, finished': bool)
      requires Connected(capacity) && (ssl == client || ssl == server)
      requires finished <==> ssl.finished
      modifies ssl, ssl.inbox, ssl.outbox
      ensures Connected(capacity)
      ensures ssl == client ==>
                (Contents(), finished', ok) == StepClient(old(Contents()), finished, capacity)
      ensures ssl == server ==>
                (Contents(), finished', ok) == StepServer(old(Contents()), finished, capacity)
      ensures finished' <==> ssl.finished
    {
      if finished {
        return true, true;
      }
      var verdict := ssl.DoHandshake();
      return !verdict.Broken?, verdict.Finished?;
    }

    /** The loop of `tls_pair_create` on a new pair. */
    method Handshake(ghost capacity: nat) returns (ok: bool)
      requires Connected(capacity) && !client.finished && !server.finished
      modifies client, server, client.inbox, client.outbox
      ensures Connected(capacity)
      ensures var outcome := Drive(old(Contents()), false, false, capacity, 10000);
              ok == outcome.ok && Contents() == outcome.net
      ensures ok ==> client.finished && server.finished
    {
      hide Advance, StepClient, StepServer;
      var clientFinished, serverFinished, attempts := false, false, 0;
      ghost var outcome := Drive(Contents(), false, false, capacity, MAX_ATTEMPTS);
      while attempts < MAX_ATTEMPTS
        invariant attempts <= MAX_ATTEMPTS && Connected(capacity)
        invariant clientFinished <==> client.finished
        invariant serverFinished <==> server.finished
        invariant var rest := Drive(Contents(), clientFinished, serverFinished, capacity, MAX_ATTEMPTS - attempts);
                  outcome.ok == rest.ok && outcome.net == rest.net
      {
        ok, clientFinished := HandshakeStep(client, clientFinished, capacity);
        if !ok {
          return false;
        }
        ok, serverFinished := HandshakeStep(server, serverFinished, capacity);
        if !ok {
          return false;
        }
        if clientFinished && serverFinished {
          return true;
        }
        attempts := attempts + 1;
      }
      return false;
    }
  }

  /** The contexts of both sides, which pairs are made from; those handed out are counted. */
  class Contexts {
    ghost var pairs: nat

    constructor ()
      ensures pairs == 0
    {
      pairs := 0;
    }
  }

  /** `tls_pair_create`: null unless both sides and their pipes could be made, which
      `available` says, and the handshake succeeds. For peers that exchange flights it succeeds
      if and only if they take no more than 10000 rounds. */
  method PairCreate(contexts: Contexts, client: Peer, server: Peer, capacity: nat, available: bool) returns (pair: TlsPair?)
    modifies contexts
    ensures contexts.pairs == old(contexts.pairs) + if pair == null then 0 else 1
    ensures forall flights :: NonEmpty(flights) && capacity > 0
                              && client == Peer(Script(flights, true), []) && server == Peer(Script(flights, false), []) ==>
              (pair != null <==> available && Rounds(flights, capacity) <= 10000)
    ensures var outcome := Drive(Net(client, server, [], []), false, false, capacity, 10000);
            && (pair != null <==> available && outcome.ok)
            && (pair != null ==>
                && fresh(pair) && fresh(pair.client) && fresh(pair.server)
                && fresh(pair.client.inbox) && fresh(pair.client.outbox)
                && pair.Connected(capacity)
                && pair.Contents() == outcome.net
                && pair.client.finished && pair.server.finished)
  {
    forall flights | NonEmpty(flights) && capacity > 0
      ensures Drive(StartOf(flights), false, false, capacity, 10000).ok <==> Rounds(flights, capacity) <= 10000
    {
      HandshakeSucceedsExactlyWhen(flights, capacity);
    }
    hide Drive, Script;
    if !available {
      return null;
    }
    var p := new TlsPair(client, server, capacity);
    var ok := p.Handshake(capacity);
    if ok {
      pair := p;
      contexts.pairs := contexts.pairs + 1;
    } else {
      pair := null;
    }
  }

  // ----- a pair that is handed out has finished, whatever the peers do

  lemma {:induction false} SuccessMeansFinished(net: Net, c: bool, s: bool, capacity: nat, attempts: nat)
    requires net.Fits(capacity)
    requires c ==> net.client.script == []
    requires s ==> net.server.script == []
    ensures var outcome := Drive(net, c, s, capacity, attempts);
            && outcome.rounds <= attempts
            && (outcome.ok ==> outcome.net.client.script == [] && outcome.net.server.script == [])
    decreases attempts
  {
    if attempts > 0 {
      var (net1, c1, cOk) := StepClient(net, c, capacity);
      var (net2, s1, sOk) := StepServer(net1, s, capacity);
      if cOk && sOk && !(c1 && s1) {
        SuccessMeansFinished(net2, c1, s1, capacity, attempts - 1);
      }
    }
  }

  /** An error other than wanting to read or write ends the driver in the round it occurs, and
      the server is not stepped in a round in which the client breaks. */
  lemma BrokenSideEndsDriver(net: Net, capacity: nat, attempts: nat)
    requires net.Fits(capacity) && attempts > 0 && net.client.script != [] && net.server.script != []
    ensures var outcome := Drive(net, false, false, capacity, attempts);
            && (net.client.script[0] == Abort ==> !outcome.ok && outcome.rounds == 1 && outcome.net == net)
            && (net.server.script[0] == Abort ==> !outcome.ok && outcome.rounds == 1)
  {
  }

  // ----- liveness: peers that play complementary scripts

  /** The scripts of two peers that take turns sending the given flights. */
  function Script(flights: seq<seq<byte>>, mine: bool): seq<Action> {
    if flights == [] then []
    else [if mine then Send(flights[0]) else Receive(|flights[0]|)] + Script(flights[1..], !mine)
  }

  /** The sides alternate: every flight is sent by one of them and awaited by the other. */
  lemma {:induction false} ScriptAt(flights: seq<seq<byte>>, mine: bool, i: nat)
    requires i < |flights|
    ensures |Script(flights, mine)| == |flights|
    ensures Script(flights, mine)[i] == if mine == (i % 2 == 0) then Send(flights[i]) else Receive(|flights[i]|)
  {
    if i > 0 {
      ScriptAt(flights[1..], !mine, i - 1);
      assert (i - 1) % 2 == 0 <==> i % 2 != 0;
    } else if |flights| > 1 {
      ScriptAt(flights[1..], !mine, 0);
    }
  }

  /** The bytes one side sends in a handshake. */
  function Sent(flights: seq<seq<byte>>, mine: bool): seq<byte> {
    if flights == [] then []
    else (if mine then flights[0] else []) + Sent(flights[1..], !mine)
  }

  ghost predicate NonEmpty(flights: seq<seq<byte>>) {
    forall i :: 0 <= i < |flights| ==> |flights[i]| > 0
  }

  /** Number of pipe-fulls in all flights together. */
  function Pieces(flights: seq<seq<byte>>, capacity: nat): nat
    requires capacity > 0
  {
    if flights == [] then 0 else CeilDiv(|flights[0]|, capacity) + Pieces(flights[1..], capacity)
  }

  /** The rounds a handshake takes: one for each pipe-full, except that the first piece of
      a client flight shares its round with the last piece of the server flight before it. */
  function Rounds(flights: seq<seq<byte>>, capacity: nat): int
    requires capacity > 0
  {
    Pieces(flights, capacity) - (|flights| - 1) / 2
  }

  /** The client is about to send the first of `flights`; both pipes are empty. */
  function ClientTurn(flights: seq<seq<byte>>, cr: seq<byte>, sr: seq<byte>): Net {
    Net(Peer(Script(flights, true), cr), Peer(Script(flights, false), sr), [], [])
  }

  /** The server has put `queued` of its flight in the pipe, has `left` to send, and
      `flights` are to follow. */
  function ServerTurn(queued: seq<byte>, left: seq<byte>, flights: seq<seq<byte>>, cr: seq<byte>, sr: seq<byte>): Net {
    Net(Peer([Receive(|queued| + |left|)] + Script(flights, true), cr),
        Peer((if left == [] then [] else [Send(left)]) + Script(flights, false), sr),
        [], queued)
  }

  ghost predicate Delivers(outcome: Outcome, rounds: int, attempts: nat, cr: seq<byte>, sr: seq<byte>) {
    && (outcome.ok <==> rounds <= attempts)
    && (outcome.ok ==>
        && outcome.rounds == rounds
        && outcome.net == Net(Peer([], cr), Peer([], sr), [], []))
  }

  lemma AdvanceSend(data: seq<byte>, rest: seq<Action>, r: seq<byte>, inbox: seq<byte>, outbox: seq<byte>, capacity: nat)
    requires |outbox| <= capacity
    ensures var k := Min(capacity - |outbox|, |data|);
            Advance(Peer([Send(data)] + rest, r), inbox, outbox, capacity) ==
            if k == |data| then Advance(Peer(rest, r), inbox, outbox + data, capacity)
            else Progress(Peer([Send(data[k..])] + rest, r), inbox, outbox + data[..k], Wants)
  {
    assert ([Send(data)] + rest)[1..] == rest;
  }

  lemma AdvanceReceive(count: nat, rest: seq<Action>, r: seq<byte>, inbox: seq<byte>, outbox: seq<byte>, capacity: nat)
    requires |outbox| <= capacity
    ensures var k := Min(|inbox|, count);
            Advance(Peer([Receive(count)] + rest, r), inbox, outbox, capacity) ==
            if k == count then Advance(Peer(rest, r + inbox[..k]), inbox[k..], outbox, capacity)
            else Progress(Peer([Receive(count - k)] + rest, r + inbox[..k]), inbox[k..], outbox, Wants)
  {
    assert ([Receive(count)] + rest)[1..] == rest;
  }

  /** A peer that is done, or is to receive the next flight, does nothing with an empty inbox. */
  lemma PeerWaits(flights: seq<seq<byte>>, r: seq<byte>, outbox: seq<byte>, capacity: nat)
    requires NonEmpty(flights) && |outbox| <= capacity
    ensures Advance(Peer(Script(flights, false), r), [], outbox, capacity)
         == Progress(Peer(Script(flights, false), r), [], outbox, if flights == [] then Finished else Wants)
  {
    if flights != [] {
      AdvanceReceive(|flights[0]|, Script(flights[1..], true), r, [], outbox, capacity);
      assert r + [] == r;
    }
  }

  /** The peer whose turn it is sends all it can of the first flight. */
  lemma PeerSends(flights: seq<seq<byte>>, r: seq<byte>, capacity: nat)
    requires NonEmpty(flights) && flights != []
    ensures var (f, rest) := (flights[0], flights[1..]);
            Advance(Peer(Script(flights, true), r), [], [], capacity) ==
            if |f| <= capacity
            then Progress(Peer(Script(rest, false), r), [], f, if rest == [] then Finished else Wants)
            else Progress(Peer([Send(f[capacity..])] + Script(rest, false), r), [], f[..capacity], Wants)
  {
    hide Advance;
    var f, rest := flights[0], flights[1..];
    AdvanceSend(f, Script(rest, false), r, [], [], capacity);
    assert [] + f == f;
    if |f| <= capacity {
      PeerWaits(rest, r, f, capacity);
    } else {
      assert [] + f[..capacity] == f[..capacity];
    }
  }

  /** A round in which the client has more to send than the pipe holds moves one pipe-full. */
  lemma RoundInsideClientFlight(flights: seq<seq<byte>>, cr: seq<byte>, sr: seq<byte>, capacity: nat)
    requires NonEmpty(flights) && flights != [] && |flights[0]| > capacity > 0
    ensures var (f, rest) := (flights[0], flights[1..]);
            var (net1, c, cOk) := StepClient(ClientTurn(flights, cr, sr), false, capacity);
            var (net2, s, sOk) := StepServer(net1, false, capacity);
            && cOk && sOk && !c && !s
            && net2 == ClientTurn([f[capacity..]] + rest, cr, sr + f[..capacity])
  {
    hide Advance;
    var f, rest := flights[0], flights[1..];
    PeerSends(flights, cr, capacity);
    AdvanceReceive(|f|, Script(rest, true), sr, f[..capacity], [], capacity);
    assert f[..capacity][..capacity] == f[..capacity] && f[..capacity][capacity..] == [];
    assert ([f[capacity..]] + rest)[1..] == rest;
  }

  /** A round in which the client flight fits the pipe ends it, and starts the server flight. */
  lemma RoundEndingClientFlight(flights: seq<seq<byte>>, cr: seq<byte>, sr: seq<byte>, capacity: nat)
    requires NonEmpty(flights) && flights != [] && |flights[0]| <= capacity
    ensures var (f, rest) := (flights[0], flights[1..]);
            var (net1, c, cOk) := StepClient(ClientTurn(flights, cr, sr), false, capacity);
            var (net2, s, sOk) := StepServer(net1, false, capacity);
            && cOk && sOk && (c <==> rest == [])
            && (s <==> |flights| <= 2 && (rest != [] ==> |rest[0]| <= capacity))
            && (rest == [] ==> net2 == Net(Peer([], cr), Peer([], sr + f), [], []))
            && (rest != [] ==>
                var k := Min(capacity, |rest[0]|);
                net2 == ServerTurn(rest[0][..k], rest[0][k..], rest[1..], cr, sr + f))
  {
    hide Advance;
    var f, rest := flights[0], flights[1..];
    PeerSends(flights, cr, capacity);
    AdvanceReceive(|f|, Script(rest, true), sr, f, [], capacity);
    assert f[..|f|] == f && f[|f|..] == [];
    if rest == [] {
      PeerWaits(rest, sr + f, [], capacity);
    } else {
      PeerSends(rest, sr + f, capacity);
      if |rest[0]| <= capacity {
        assert rest[0][..|rest[0]|] == rest[0] && rest[0][|rest[0]|..] == [];
        assert [] + Script(rest[1..], false) == Script(rest[1..], false);
      }
    }
  }

  /** A server with more of its flight to send fills the empty pipe, and moves on if that was all. */
  lemma ServerContinues(left: seq<byte>, flights: seq<seq<byte>>, sr: seq<byte>, capacity: nat)
    requires NonEmpty(flights) && left != []
    ensures var k := Min(capacity, |left|);
            Advance(Peer([Send(left)] + Script(flights, false), sr), [], [], capacity) ==
            Progress(Peer((if left[k..] == [] then [] else [Send(left[k..])]) + Script(flights, false), sr), [],
                     left[..k], if left[k..] == [] && flights == [] then Finished else Wants)
  {
    hide Advance;
    AdvanceSend(left, Script(flights, false), sr, [], [], capacity);
    assert [] + left == left;
    if |left| <= capacity {
      PeerWaits(flights, sr, left, capacity);
      assert left[..|left|] == left && left[|left|..] == [];
      assert [] + Script(flights, false) == Script(flights, false);
    } else {
      assert [] + left[..capacity] == left[..capacity];
    }
  }

  /** A round in which the server still has bytes to send moves one pipe-full. */
  lemma RoundInsideServerFlight(queued: seq<byte>, left: seq<byte>, flights: seq<seq<byte>>,
                                cr: seq<byte>, sr: seq<byte>, capacity: nat)
    requires NonEmpty(flights) && |queued| == capacity > 0 && left != []
    ensures var k := Min(capacity, |left|);
            var (net1, c, cOk) := StepClient(ServerTurn(queued, left, flights, cr, sr), false, capacity);
            var (net2, s, sOk) := StepServer(net1, false, capacity);
            && cOk && sOk && !c && (s <==> |left| <= capacity && flights == [])
            && net2 == ServerTurn(left[..k], left[k..], flights, cr + queued, sr)
  {
    hide Advance;
    AdvanceReceive(|queued| + |left|, Script(flights, true), cr, queued, [], capacity);
    assert queued[..|queued|] == queued && queued[|queued|..] == [];
    ServerContinues(left, flights, sr, capacity);
  }

  /** Once the server has sent its flight, the client reads the rest of it and is in its own turn. */
  lemma ServerFlightSent(queued: seq<byte>, flights: seq<seq<byte>>, cr: seq<byte>, sr: seq<byte>, capacity: nat)
    requires NonEmpty(flights) && |queued| <= capacity
    ensures StepClient(ServerTurn(queued, [], flights, cr, sr), false, capacity)
         == StepClient(ClientTurn(flights, cr + queued, sr), false, capacity)
    ensures flights == [] ==>
              StepClient(ServerTurn(queued, [], flights, cr, sr), false, capacity) == (ClientTurn([], cr + queued, sr), true, true)
  {
    hide Advance;
    AdvanceReceive(|queued|, Script(flights, true), cr, queued, [], capacity);
    assert queued[..|queued|] == queued && queued[|queued|..] == [];
    PeerWaits([], cr + queued, [], capacity);
    assert [] + Script(flights, false) == Script(flights, false);
  }

  function TotalBytes(flights: seq<seq<byte>>): nat {
    if flights == [] then 0 else |flights[0]| + TotalBytes(flights[1..])
  }

  /** What is left of Rounds when the server has n bytes of its flight still to deliver. */
  function ServerRounds(n: nat, flights: seq<seq<byte>>, capacity: nat): int
    requires capacity > 0
  {
    CeilDiv(n, capacity) + if flights == [] then 0 else Rounds(flights, capacity) - 1
  }

  lemma RoundsAfterPiece(flights: seq<seq<byte>>, capacity: nat)
    requires NonEmpty(flights) && flights != [] && |flights[0]| > capacity > 0
    ensures var flights' := [flights[0][capacity..]] + flights[1..];
            && NonEmpty(flights') && flights'[1..] == flights[1..]
            && TotalBytes(flights') == TotalBytes(flights) - capacity
            && Rounds(flights, capacity) == Rounds(flights', capacity) + 1
  {
    var f, rest := flights[0], flights[1..];
    var f' := f[capacity..];
    assert flights == [f] + rest && ([f'] + rest)[1..] == rest && |[f'] + rest| == |flights|;
    assert CeilDiv(|f|, capacity) == 1 + CeilDiv(|f'|, capacity);
    assert NonEmpty([f'] + rest);
    hide *;
    PiecesOfMore(f, rest, capacity);
    PiecesOfMore(f', rest, capacity);
    BytesOfMore(f, rest);
    BytesOfMore(f', rest);
    RoundsFromPieces(flights, [f'] + rest, capacity);
  }

  lemma RoundsFromPieces(flights: seq<seq<byte>>, flights': seq<seq<byte>>, capacity: nat)
    requires capacity > 0 && |flights| == |flights'| && Pieces(flights, capacity) == Pieces(flights', capacity) + 1
    ensures Rounds(flights, capacity) == Rounds(flights', capacity) + 1
  {
  }

  lemma BytesOfMore(f: seq<byte>, rest: seq<seq<byte>>)
    ensures TotalBytes([f] + rest) == |f| + TotalBytes(rest)
  {
    assert ([f] + rest)[1..] == rest;
  }

  lemma RoundsAfterFlight(flights: seq<seq<byte>>, capacity: nat)
    requires NonEmpty(flights) && |flights| >= 2 && |flights[0]| <= capacity
    ensures Rounds(flights, capacity) == 1 + ServerRounds(|flights[1]|, flights[2..], capacity)
    ensures TotalBytes(flights) == |flights[0]| + |flights[1]| + TotalBytes(flights[2..])
  {
    assert flights[1..][0] == flights[1] && flights[1..][1..] == flights[2..];
    assert Pieces(flights, capacity) == 1 + Pieces(flights[1..], capacity);
    assert Pieces(flights[1..], capacity) == CeilDiv(|flights[1]|, capacity) + Pieces(flights[2..], capacity);
    assert |flights| > 2 ==> (|flights[2..]| - 1) / 2 == (|flights| - 1) / 2 - 1;
  }

  lemma SentAfterPiece(flights: seq<seq<byte>>, k: nat, mine: bool)
    requires flights != [] && k <= |flights[0]|
    ensures var flights' := [flights[0][k..]] + flights[1..];
            Sent(flights, mine) == (if mine then flights[0][..k] else []) + Sent(flights', mine)
  {
    var flights' := [flights[0][k..]] + flights[1..];
    assert flights'[1..] == flights[1..];
    assert flights[0] == flights[0][..k] + flights[0][k..];
  }

  lemma {:induction false} FromClientTurn(flights: seq<seq<byte>>, cr: seq<byte>, sr: seq<byte>, capacity: nat, attempts: nat)
    requires NonEmpty(flights) && flights != [] && capacity > 0
    ensures Delivers(Drive(ClientTurn(flights, cr, sr), false, false, capacity, attempts),
                     Rounds(flights, capacity), attempts, cr + Sent(flights, false), sr + Sent(flights, true))
    decreases TotalBytes(flights), 2
  {
    PiecesAreMany(flights, capacity);
    if attempts == 0 {
    } else if |flights[0]| > capacity {
      InsideClientFlight(flights, cr, sr, capacity, attempts);
    } else {
      EndOfClientFlight(flights, cr, sr, capacity, attempts);
    }
  }

  /** A whole round from `net`, with the client not finished yet. */
  ghost predicate RoundLeads(net: Net, s0: bool, capacity: nat, net2: Net, c: bool, s: bool)
    requires net.Fits(capacity)
  {
    var (net1, c1, cOk) := StepClient(net, false, capacity);
    var (n2, s1, sOk) := StepServer(net1, s0, capacity);
    cOk && sOk && c1 == c && s1 == s && n2 == net2
  }

  lemma DriveAfterRound(net: Net, s0: bool, capacity: nat, attempts: nat, net2: Net, c: bool, s: bool,
                        rounds: int, cr: seq<byte>, sr: seq<byte>)
    requires net.Fits(capacity) && net2.Fits(capacity) && attempts > 0
    requires RoundLeads(net, s0, capacity, net2, c, s)
    requires c && s ==> rounds == 1 && net2 == Net(Peer([], cr), Peer([], sr), [], [])
    requires !(c && s) ==> Delivers(Drive(net2, c, s, capacity, attempts - 1), rounds - 1, attempts - 1, cr, sr)
    ensures Delivers(Drive(net, false, s0, capacity, attempts), rounds, attempts, cr, sr)
  {
    hide Advance, StepClient, StepServer;
  }

  lemma {:induction false} InsideClientFlight(flights: seq<seq<byte>>, cr: seq<byte>, sr: seq<byte>, capacity: nat, attempts: nat)
    requires NonEmpty(flights) && flights != [] && |flights[0]| > capacity > 0 && attempts > 0
    ensures Delivers(Drive(ClientTurn(flights, cr, sr), false, false, capacity, attempts),
                     Rounds(flights, capacity), attempts, cr + Sent(flights, false), sr + Sent(flights, true))
    decreases TotalBytes(flights), 1
  {
    var f := flights[0];
    var flights' := [f[capacity..]] + flights[1..];
    RoundInsideClientFlight(flights, cr, sr, capacity);
    assert RoundLeads(ClientTurn(flights, cr, sr), false, capacity, ClientTurn(flights', cr, sr + f[..capacity]), false, false);
    hide *;
    RoundsAfterPiece(flights, capacity);
    SentAfterPiece(flights, capacity, true);
    SentAfterPiece(flights, capacity, false);
    assert [] + Sent(flights', false) == Sent(flights', false);
    assert sr + f[..capacity] + Sent(flights', true) == sr + (f[..capacity] + Sent(flights', true));
    FromClientTurn(flights', cr, sr + f[..capacity], capacity, attempts - 1);
    ClientTurnFits(flights, cr, sr, capacity);
    ClientTurnFits(flights', cr, sr + f[..capacity], capacity);
    DriveAfterRound(ClientTurn(flights, cr, sr), false, capacity, attempts, ClientTurn(flights', cr, sr + f[..capacity]),
                    false, false, Rounds(flights, capacity), cr + Sent(flights, false), sr + Sent(flights, true));
  }

  lemma ServerRoundsAfterPiece(n: nat, flights: seq<seq<byte>>, capacity: nat)
    requires capacity > 0 && n > 0
    ensures ServerRounds(capacity + n, flights, capacity) == 1 + ServerRounds(n, flights, capacity)
  {
  }

  lemma ClientTurnFits(flights: seq<seq<byte>>, cr: seq<byte>, sr: seq<byte>, capacity: nat)
    ensures ClientTurn(flights, cr, sr).Fits(capacity)
  {
  }

  lemma ServerTurnFits(queued: seq<byte>, left: seq<byte>, flights: seq<seq<byte>>, cr: seq<byte>, sr: seq<byte>, capacity: nat)
    requires |queued| <= capacity
    ensures ServerTurn(queued, left, flights, cr, sr).Fits(capacity)
  {
  }

  lemma {:induction false} EndOfClientFlight(flights: seq<seq<byte>>, cr: seq<byte>, sr: seq<byte>, capacity: nat, attempts: nat)
    requires NonEmpty(flights) && flights != [] && |flights[0]| <= capacity && attempts > 0
    ensures Delivers(Drive(ClientTurn(flights, cr, sr), false, false, capacity, attempts),
                     Rounds(flights, capacity), attempts, cr + Sent(flights, false), sr + Sent(flights, true))
    decreases TotalBytes(flights), 1
  {
    var f := flights[0];
    RoundEndingClientFlight(flights, cr, sr, capacity);
    if |flights| == 1 {
      assert flights == [f] && flights[1..] == [];
      ScriptOfOne(f);
      assert cr + [] == cr;
      PiecesOfMore(f, [], capacity);
      assert Pieces([], capacity) == 0 && [f] + [] == [f];
      assert RoundLeads(ClientTurn(flights, cr, sr), false, capacity, Net(Peer([], cr), Peer([], sr + f), [], []), true, true);
      DriveAfterRound(ClientTurn(flights, cr, sr), false, capacity, attempts, Net(Peer([], cr), Peer([], sr + f), [], []),
                      true, true, 1, cr, sr + f);
    } else {
      assert flights[1..][0] == flights[1] && flights[1..][1..] == flights[2..];
      var s, k := flights[1], Min(capacity, |flights[1]|);
      var next := ServerTurn(s[..k], s[k..], flights[2..], cr, sr + f);
      assert RoundLeads(ClientTurn(flights, cr, sr), false, capacity, next, false, s[k..] == [] && flights[2..] == []);
      ServerFlightStarts(flights, cr, sr, capacity, attempts, k);
    }
  }

  lemma {:induction false} ServerFlightStarts(flights: seq<seq<byte>>, cr: seq<byte>, sr: seq<byte>, capacity: nat, attempts: nat, k: nat)
    requires NonEmpty(flights) && |flights| >= 2 && |flights[0]| <= capacity && attempts > 0
    requires k == Min(capacity, |flights[1]|)
    requires ClientTurn(flights, cr, sr).Fits(capacity)
    requires var s := flights[1];
             RoundLeads(ClientTurn(flights, cr, sr), false, capacity,
                        ServerTurn(s[..k], s[k..], flights[2..], cr, sr + flights[0]), false, s[k..] == [] && flights[2..] == [])
    ensures Delivers(Drive(ClientTurn(flights, cr, sr), false, false, capacity, attempts),
                     Rounds(flights, capacity), attempts, cr + Sent(flights, false), sr + Sent(flights, true))
    decreases TotalBytes(flights), 0
  {
    var f, s := flights[0], flights[1];
    RoundsAfterFlight(flights, capacity);
    SentAfterTwo(flights, cr, sr, k);
    assert NonEmpty(flights[2..]);
    assert k > 0 && (s[k..] != [] ==> k == capacity);
    hide *;
    ServerFlightFrom(ClientTurn(flights, cr, sr), s[..k], s[k..], flights[2..], cr, sr + f, capacity, attempts,
                     Rounds(flights, capacity), cr + Sent(flights, false), sr + Sent(flights, true));
  }

  /** A round that puts the first piece of a flight of the server on its way. */
  lemma {:induction false} ServerFlightFrom(start: Net, queued: seq<byte>, left: seq<byte>, flights: seq<seq<byte>>,
                                            cr: seq<byte>, sr: seq<byte>, capacity: nat, attempts: nat,
                                            rounds: int, toClient: seq<byte>, toServer: seq<byte>)
    requires NonEmpty(flights) && 0 < |queued| <= capacity && (left != [] ==> |queued| == capacity) && attempts > 0
    requires start.Fits(capacity) && rounds == 1 + ServerRounds(|queued| + |left|, flights, capacity)
    requires RoundLeads(start, false, capacity, ServerTurn(queued, left, flights, cr, sr), false, left == [] && flights == [])
    requires toClient == cr + (queued + left + Sent(flights, false)) && toServer == sr + Sent(flights, true)
    ensures Delivers(Drive(start, false, false, capacity, attempts), rounds, attempts, toClient, toServer)
    decreases TotalBytes(flights) + |left|, 5
  {
    hide *;
    FromServerTurn(queued, left, flights, cr, sr, capacity, attempts - 1);
    ServerTurnFits(queued, left, flights, cr, sr, capacity);
    DriveAfterRound(start, false, capacity, attempts, ServerTurn(queued, left, flights, cr, sr),
                    false, left == [] && flights == [], rounds, toClient, toServer);
  }

  /** What both sides have received when the first two flights are through and the rest follows. */
  lemma SentAfterTwo(flights: seq<seq<byte>>, cr: seq<byte>, sr: seq<byte>, k: nat)
    requires |flights| >= 2 && k <= |flights[1]|
    ensures sr + flights[0] + Sent(flights[2..], true) == sr + Sent(flights, true)
    ensures cr + (flights[1][..k] + flights[1][k..] + Sent(flights[2..], false)) == cr + Sent(flights, false)
  {
    SentAfterFlight(flights);
    hide Sent;
    assert flights[1][..k] + flights[1][k..] == flights[1];
    assert sr + (flights[0] + Sent(flights[2..], true)) == sr + flights[0] + Sent(flights[2..], true);
  }

  lemma SentAfterFlight(flights: seq<seq<byte>>)
    requires |flights| >= 2
    ensures Sent(flights, true) == flights[0] + Sent(flights[2..], true)
    ensures Sent(flights, false) == flights[1] + Sent(flights[2..], false)
  {
    assert flights[1..][1..] == flights[2..];
    assert Sent(flights[1..], false) == [] + Sent(flights[2..], true);
    assert Sent(flights, false) == [] + Sent(flights[1..], true);
  }

  lemma {:induction false} FromServerTurn(queued: seq<byte>, left: seq<byte>, flights: seq<seq<byte>>,
                                          cr: seq<byte>, sr: seq<byte>, capacity: nat, attempts: nat)
    requires NonEmpty(flights) && 0 < |queued| <= capacity && (left != [] ==> |queued| == capacity)
    ensures Delivers(Drive(ServerTurn(queued, left, flights, cr, sr), false, left == [] && flights == [], capacity, attempts),
                     ServerRounds(|queued| + |left|, flights, capacity), attempts,
                     cr + (queued + left + Sent(flights, false)), sr + Sent(flights, true))
    decreases TotalBytes(flights) + |left|, 4
  {
    PiecesAreMany(flights, capacity);
    if attempts == 0 {
    } else if left != [] {
      var k := Min(capacity, |left|);
      assert left == left[..k] + left[k..];
      InsideServerFlight(queued, left, left[..k], left[k..], flights, cr, sr, capacity, attempts);
    } else {
      EndOfServerFlight(queued, flights, cr, sr, capacity, attempts);
      assert queued + left == queued;
    }
  }

  lemma InsideServerRound(queued: seq<byte>, left: seq<byte>, sending: seq<byte>, rest: seq<byte>, flights: seq<seq<byte>>,
                          cr: seq<byte>, sr: seq<byte>, capacity: nat)
    requires NonEmpty(flights) && |queued| == capacity > 0 && left == sending + rest
    requires 0 < |sending| <= capacity && (rest != [] ==> |sending| == capacity)
    ensures ServerTurn(queued, left, flights, cr, sr).Fits(capacity)
    ensures ServerTurn(sending, rest, flights, cr + queued, sr).Fits(capacity)
    ensures RoundLeads(ServerTurn(queued, left, flights, cr, sr), false, capacity,
                       ServerTurn(sending, rest, flights, cr + queued, sr), false, rest == [] && flights == [])
  {
    hide Advance;
    RoundInsideServerFlight(queued, left, flights, cr, sr, capacity);
    assert |sending| == Min(capacity, |left|);
    assert left[..|sending|] == sending && left[|sending|..] == rest;
  }

  lemma {:induction false} InsideServerFlight(queued: seq<byte>, left: seq<byte>, sending: seq<byte>, rest: seq<byte>,
                                              flights: seq<seq<byte>>, cr: seq<byte>, sr: seq<byte>, capacity: nat, attempts: nat)
    requires NonEmpty(flights) && |queued| == capacity > 0 && left == sending + rest && attempts > 0
    requires 0 < |sending| <= capacity && (rest != [] ==> |sending| == capacity)
    ensures Delivers(Drive(ServerTurn(queued, left, flights, cr, sr), false, false, capacity, attempts),
                     ServerRounds(|queued| + |left|, flights, capacity), attempts,
                     cr + (queued + left + Sent(flights, false)), sr + Sent(flights, true))
    decreases TotalBytes(flights) + |left|, 3
  {
    hide *;
    InsideServerRound(queued, left, sending, rest, flights, cr, sr, capacity);
    ServerRoundsAfterPiece(|left|, flights, capacity);
    FromServerTurn(sending, rest, flights, cr + queued, sr, capacity, attempts - 1);
    MoveBracket(cr, queued, left, Sent(flights, false));
    DriveAfterRound(ServerTurn(queued, left, flights, cr, sr), false, capacity, attempts,
                    ServerTurn(sending, rest, flights, cr + queued, sr), false, rest == [] && flights == [],
                    ServerRounds(|queued| + |left|, flights, capacity),
                    cr + (queued + left + Sent(flights, false)), sr + Sent(flights, true));
  }

  lemma MoveBracket(a: seq<byte>, b: seq<byte>, c: seq<byte>, d: seq<byte>)
    ensures a + b + (c + d) == a + (b + c + d)
  {
  }

  lemma {:induction false} EndOfServerFlight(queued: seq<byte>, flights: seq<seq<byte>>,
                                             cr: seq<byte>, sr: seq<byte>, capacity: nat, attempts: nat)
    requires NonEmpty(flights) && 0 < |queued| <= capacity && attempts > 0
    ensures Delivers(Drive(ServerTurn(queued, [], flights, cr, sr), false, flights == [], capacity, attempts),
                     ServerRounds(|queued|, flights, capacity), attempts,
                     cr + (queued + Sent(flights, false)), sr + Sent(flights, true))
    decreases TotalBytes(flights), 3
  {
    ServerFlightSent(queued, flights, cr, sr, capacity);
    assert cr + (queued + Sent(flights, false)) == cr + queued + Sent(flights, false);
    if flights == [] {
      assert sr + Sent(flights, true) == sr;
    } else {
      FromClientTurn(flights, cr + queued, sr, capacity, attempts);
      DriveFromSameStep(ServerTurn(queued, [], flights, cr, sr), ClientTurn(flights, cr + queued, sr), capacity, attempts);
    }
  }

  lemma DriveFromSameStep(a: Net, b: Net, capacity: nat, attempts: nat)
    requires a.Fits(capacity) && b.Fits(capacity) && attempts > 0
    requires StepClient(a, false, capacity) == StepClient(b, false, capacity)
    ensures Drive(a, false, false, capacity, attempts) == Drive(b, false, false, capacity, attempts)
  {
  }

  lemma {:induction false} PiecesAreMany(flights: seq<seq<byte>>, capacity: nat)
    requires capacity > 0 && NonEmpty(flights)
    ensures Pieces(flights, capacity) >= |flights|
  {
    if flights != [] {
      PiecesAreMany(flights[1..], capacity);
    }
  }

  /** A new pair whose sides are about to exchange the flights, the client first. */
  function StartOf(flights: seq<seq<byte>>): Net {
    Net(Peer(Script(flights, true), []), Peer(Script(flights, false), []), [], [])
  }

  /** The driver never deadlocks. For peers that exchange any flights over pipes of any
      capacity, `tls_pair_create` succeeds if and only if the pipe-fulls the flights make up
      fit its 10000 attempts; it then took exactly that many rounds, every byte sent has been
      received in order, and both pipes are empty. */
  lemma HandshakeSucceedsExactlyWhen(flights: seq<seq<byte>>, capacity: nat)
    requires NonEmpty(flights) && capacity > 0
    ensures var outcome, rounds := Drive(StartOf(flights), false, false, capacity, 10000), Rounds(flights, capacity);
            && (outcome.ok <==> rounds <= 10000)
            && (outcome.ok ==> outcome.rounds == rounds
                               && outcome.net == Net(Peer([], Sent(flights, false)), Peer([], Sent(flights, true)), [], []))
  {
    if flights != [] {
      FromClientTurn(flights, [], [], capacity, MAX_ATTEMPTS);
      assert [] + Sent(flights, false) == Sent(flights, false);
      assert [] + Sent(flights, true) == Sent(flights, true);
    }
  }

  /** The three flights of a TLS 1.3 handshake (section 2 of RFC 8446). */
  lemma Tls13Handshake(hello: seq<byte>, reply: seq<byte>, finish: seq<byte>, capacity: nat)
    requires hello != [] && reply != [] && finish != [] && capacity > 0
    ensures var net := Net(Peer([Send(hello), Receive(|reply|), Send(finish)], []),
                           Peer([Receive(|hello|), Send(reply), Receive(|finish|)], []), [], []);
            var outcome := Drive(net, false, false, capacity, 10000);
            var rounds := CeilDiv(|hello|, capacity) + CeilDiv(|reply|, capacity) + CeilDiv(|finish|, capacity) - 1;
            && (outcome.ok <==> rounds <= 10000)
            && (outcome.ok ==> outcome.rounds == rounds
                               && outcome.net == Net(Peer([], reply), Peer([], hello + finish), [], []))
  {
    var flights := [hello, reply, finish];
    StartOfThree(hello, reply, finish, capacity);
    hide *;
    HandshakeSucceedsExactlyWhen(flights, capacity);
  }

  lemma StartOfThree(a: seq<byte>, b: seq<byte>, c: seq<byte>, capacity: nat)
    requires capacity > 0
    ensures StartOf([a, b, c]) ==
            Net(Peer([Send(a), Receive(|b|), Send(c)], []), Peer([Receive(|a|), Send(b), Receive(|c|)], []), [], [])
    ensures Rounds([a, b, c], capacity) == CeilDiv(|a|, capacity) + CeilDiv(|b|, capacity) + CeilDiv(|c|, capacity) - 1
    ensures a != [] && b != [] && c != [] ==> NonEmpty([a, b, c])
    ensures Sent([a, b, c], true) == a + c && Sent([a, b, c], false) == b
  {
    PiecesOfThree(a, b, c, capacity);
    ScriptOfThree(a, b, c);
    hide Script, Sent, Pieces, CeilDiv;
  }

  lemma ScriptOfThree(a: seq<byte>, b: seq<byte>, c: seq<byte>)
    ensures Script([a, b, c], true) == [Send(a), Receive(|b|), Send(c)]
    ensures Script([a, b, c], false) == [Receive(|a|), Send(b), Receive(|c|)]
    ensures Sent([a, b, c], true) == a + c && Sent([a, b, c], false) == b
  {
    assert [a, b, c] == [a] + ([b] + [c]);
    ScriptOfOne(c);
    ScriptOfMore(b, [c]);
    ScriptOfMore(a, [b] + [c]);
  }

  lemma PiecesOfThree(a: seq<byte>, b: seq<byte>, c: seq<byte>, capacity: nat)
    requires capacity > 0
    ensures Pieces([a, b, c], capacity) == CeilDiv(|a|, capacity) + CeilDiv(|b|, capacity) + CeilDiv(|c|, capacity)
  {
    PiecesOfMore(c, [], capacity);
    PiecesOfMore(b, [c], capacity);
    PiecesOfMore(a, [b, c], capacity);
    assert [a, b, c] == [a] + [b, c] && [b, c] == [b] + [c] && [c] == [c] + [];
  }

  lemma PiecesOfMore(f: seq<byte>, rest: seq<seq<byte>>, capacity: nat)
    requires capacity > 0
    ensures Pieces([f] + rest, capacity) == CeilDiv(|f|, capacity) + Pieces(rest, capacity)
  {
    assert ([f] + rest)[1..] == rest;
  }

  lemma ScriptOfOne(f: seq<byte>)
    ensures Script([f], true) == [Send(f)] && Script([f], false) == [Receive(|f|)]
    ensures Sent([f], true) == f && Sent([f], false) == []
  {
    assert [f][1..] == [];
    assert f + [] == f;
  }

  lemma ScriptOfMore(f: seq<byte>, rest: seq<seq<byte>>)
    ensures Script([f] + rest, true) == [Send(f)] + Script(rest, false)
    ensures Script([f] + rest, false) == [Receive(|f|)] + Script(rest, true)
    ensures Sent([f] + rest, true) == f + Sent(rest, false) && Sent([f] + rest, false) == Sent(rest, true)
  {
    assert ([f] + rest)[1..] == rest;
  }
}
