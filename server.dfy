/**
 * The chat server's registry of connected clients and its fan-out. Each
 * operation runs to completion at once: the goroutines the server starts
 * for broadcasts and sends are taken as having finished when the operation
 * returns, and no order between two broadcasts is promised.
 */
module ChatServer {
  import opened Relay
  import opened Notices

  /** What one read of the next line from a client's connection yields:
      a whole line, delimiter included, or an error (end of stream or a
      broken connection). */
  datatype Read = Line(text: Msg) | Failed

  /** What the other members receive for one read of a client's
      connection: the line read, or, when the read failed, the disconnect
      notice with the given count. */
  function RelayedFor(outcome: Read, count: int): Msg {
    match outcome
    case Line(text) => text
    case Failed => LeaveNotice(count)
  }

  /** What the other members receive for each of a run of reads. */
  function Relayed(outcomes: seq<Read>, count: int): (r: seq<Msg>)
    ensures |r| == |outcomes|
  {
    if outcomes == [] then []
    else Relayed(outcomes[..|outcomes| - 1], count) + [RelayedFor(outcomes[|outcomes| - 1], count)]
  }

  /** One more read adds its relayed message at the end. */
  lemma RelayedStep(outcomes: seq<Read>, n: nat, count: int)
    requires n < |outcomes|
    ensures Relayed(outcomes[..n + 1], count) == Relayed(outcomes[..n], count) + [RelayedFor(outcomes[n], count)]
  {
    assert outcomes[..n + 1][..n] == outcomes[..n];
  }

  /** When the last member leaves, the disconnect notice, whose count is
      then -1, reaches nobody. */
  lemma LastLeaveReachesNobody(outbox: Outbox, remaining: set<Client>, failing: set<Client>)
    requires remaining == {}
    ensures Deliver(outbox, remaining - failing, LeaveNotice(|remaining| - 1)) == outbox
    ensures LeaveNotice(|remaining| - 1) == LeaveNotice(-1)
  {
    assert remaining - failing == {};
    DeliverToNobody(outbox, LeaveNotice(-1));
  }

  /** Who receives what each of a run of reads of c's connection produces:
      the members other than c, less those whose write fails on that read. */
  function Listeners(members: set<Client>, c: Client, failing: seq<set<Client>>): (r: seq<set<Client>>)
    ensures |r| == |failing|
  {
    if failing == [] then []
    else Listeners(members, c, failing[..|failing| - 1]) + [Recipients(members, c) - failing[|failing| - 1]]
  }

  /** One more read adds its recipients at the end. */
  lemma ListenersStep(members: set<Client>, c: Client, failing: seq<set<Client>>, n: nat)
    requires n < |failing|
    ensures Listeners(members, c, failing[..n + 1]) ==
              Listeners(members, c, failing[..n]) + [Recipients(members, c) - failing[n]]
  {
    assert failing[..n + 1][..n] == failing[..n];
  }

  /** The i-th read's message goes to the members other than c whose write
      does not fail on that read. */
  lemma {:induction false} ListenersAt(members: set<Client>, c: Client, failing: seq<set<Client>>, i: nat)
    requires i < |failing|
    ensures Listeners(members, c, failing)[i] == Recipients(members, c) - failing[i]
    decreases |failing|
  {
    if i < |failing| - 1 {
      ListenersAt(members, c, failing[..|failing| - 1], i);
    }
  }

  /** What a recipient of a join or disconnect notice, or the client
      welcomed, reads as the count is the number of members other than
      itself. */
  lemma AnnouncedCounts(members: set<Client>, r: Client)
    requires r in members
    ensures CountIn(JoinHead, NoticeTail, JoinNotice(|members| - 1)) == Some(|Others(members, r)|)
    ensures CountIn(LeaveHead, NoticeTail, LeaveNotice(|members| - 1)) == Some(|Others(members, r)|)
    ensures CountIn(WelcomeHead, WelcomeTail, WelcomeLine(|members| - 1)) == Some(|Others(members, r)|)
  {
    OthersCount(members, r);
    NoticeCountsReadBack(|members| - 1);
  }

  /** The outbox after one client's session: c is sent the greeting when
      the welcome write succeeds, then the i-th relayed message is sent to
      the members other than c whose write does not fail on the i-th read. */
  function Session(outbox: Outbox, c: Client, welcomed: bool, greeting: Msg,
                   members: set<Client>, failing: seq<set<Client>>, relayed: seq<Msg>): Outbox
    requires |failing| == |relayed|
  {
    DeliverAll(Deliver(outbox, if welcomed then {c} else {}, greeting), Listeners(members, c, failing), relayed)
  }

  /** What each client receives over another client's session, whatever
      order the relaying goroutines run in: c only its welcome line, and
      every other client the relayed messages whose writes to it succeed. */
  lemma SessionStreams(outbox: Outbox, c: Client, welcomed: bool, greeting: Msg,
                       members: set<Client>, failing: seq<set<Client>>, relayed: seq<Msg>)
    requires |failing| == |relayed|
    ensures Sent(Session(outbox, c, welcomed, greeting, members, failing, relayed), c) ==
              Sent(outbox, c) + if welcomed then [greeting] else []
    ensures forall r :: r != c ==>
              multiset(Sent(Session(outbox, c, welcomed, greeting, members, failing, relayed), r)) ==
              multiset(Sent(outbox, r)) + multiset(Addressed(r, Listeners(members, c, failing), relayed))
  {
    var to := Listeners(members, c, failing);
    SessionSentTo(outbox, c, welcomed, greeting, members, failing, relayed, c);
    forall i | 0 <= i < |to| ensures c !in to[i] {
      ListenersAt(members, c, failing, i);
    }
    AddressedNone(c, to, relayed);
    forall r | r != c
      ensures multiset(Sent(Session(outbox, c, welcomed, greeting, members, failing, relayed), r)) ==
                multiset(Sent(outbox, r)) + multiset(Addressed(r, to, relayed))
    {
      SessionSentTo(outbox, c, welcomed, greeting, members, failing, relayed, r);
    }
  }

  /** Who receives what over another client's session: a member other than
      c whose writes never fail receives every relayed message; a
      non-member, or a member whose every write fails, receives nothing. */
  lemma SessionReach(outbox: Outbox, c: Client, welcomed: bool, greeting: Msg,
                     members: set<Client>, failing: seq<set<Client>>, relayed: seq<Msg>)
    requires |failing| == |relayed|
    ensures forall r :: r in members && r != c && (forall i :: 0 <= i < |failing| ==> r !in failing[i]) ==>
              multiset(Sent(Session(outbox, c, welcomed, greeting, members, failing, relayed), r)) ==
              multiset(Sent(outbox, r)) + multiset(relayed)
    ensures forall r :: r != c && (r !in members || forall i :: 0 <= i < |failing| ==> r in failing[i]) ==>
              Sent(Session(outbox, c, welcomed, greeting, members, failing, relayed), r) == Sent(outbox, r)
  {
    var to := Listeners(members, c, failing);
    forall r | r in members && r != c && (forall i :: 0 <= i < |failing| ==> r !in failing[i])
      ensures multiset(Sent(Session(outbox, c, welcomed, greeting, members, failing, relayed), r)) ==
                multiset(Sent(outbox, r)) + multiset(relayed)
    {
      SessionSentTo(outbox, c, welcomed, greeting, members, failing, relayed, r);
      forall i | 0 <= i < |to| ensures r in to[i] {
        ListenersAt(members, c, failing, i);
      }
      AddressedEvery(r, to, relayed);
    }
    forall r | r != c && (r !in members || forall i :: 0 <= i < |failing| ==> r in failing[i])
      ensures Sent(Session(outbox, c, welcomed, greeting, members, failing, relayed), r) == Sent(outbox, r)
    {
      SessionSentTo(outbox, c, welcomed, greeting, members, failing, relayed, r);
      forall i | 0 <= i < |to| ensures r !in to[i] {
        ListenersAt(members, c, failing, i);
      }
      AddressedNone(r, to, relayed);
    }
  }

  /** One client's stream after a session: the greeting when it is the
      welcomed client c, then the relayed messages addressed to it. */
  lemma SessionSentTo(outbox: Outbox, c: Client, welcomed: bool, greeting: Msg,
                      members: set<Client>, failing: seq<set<Client>>, relayed: seq<Msg>, r: Client)
    requires |failing| == |relayed|
    ensures Sent(Session(outbox, c, welcomed, greeting, members, failing, relayed), r) ==
              Sent(outbox, r) + (if r == c && welcomed then [greeting] else []) +
              Addressed(r, Listeners(members, c, failing), relayed)
  {
    var greeted: set<Client> := if welcomed then {c} else {};
    DeliverSentTo(outbox, greeted, greeting, r);
    DeliverAllSent(Deliver(outbox, greeted, greeting), Listeners(members, c, failing), relayed, r);
    if !(r == c && welcomed) {
      assert Sent(outbox, r) + [] == Sent(outbox, r);
    }
  }

  class Server {
    const network: string
    const host: string
    const port: string
    /** The registry. The source keeps a map from each client pointer to
        itself, so the set of its keys says everything the map does. */
    var clients: set<Client>
    /** Every message written to each client's connection, oldest first. */
    ghost var outbox: Outbox

    /** The framing invariant: every write the server makes is one line. */
    ghost predicate Valid()
      reads this
    {
      AllLines(outbox)
    }

    /** newServer: a server for the given address with nobody connected. */
    constructor (network: string, host: string, port: string)
      ensures this.network == network && this.host == host && this.port == port
      ensures clients == {} && outbox == map[]
      ensures Valid()
    {
      this.network, this.host, this.port := network, host, port;
      clients := {};
      outbox := map[];
    }

    /** One write of msg to c's connection; written is whether the network
        took it. A failed write is only logged. */
    method SendToClient(msg: Msg, c: Client, written: bool)
      modifies this
      ensures clients == old(clients)
      ensures outbox == if written then Deliver(old(outbox), {c}, msg) else old(outbox)
    {
      if written {
        outbox := Deliver(outbox, {c}, msg);
      }
    }

    /** Writes msg to every member except client (null: to every member).
        The writes to the members in failing fail; the others are not
        affected by that. */
    method Broadcast(msg: Msg, client: Client?, failing: set<Client>)
      requires Valid()
      requires |msg| > 0
      modifies this
      ensures clients == old(clients)
      ensures outbox == Deliver(old(outbox), Recipients(clients, client) - failing, msg)
      ensures IsLine(msg) ==> Valid()
    {
      var pending := clients;
      ghost var done: set<Client> := {};
      while pending != {}
        invariant pending <= clients && clients == old(clients)
        invariant done <= clients
        invariant forall x :: x in clients ==> (x in done <==> x !in pending && x != client && x !in failing)
        invariant outbox == Deliver(old(outbox), done, msg)
        decreases pending
      {
        var c :| c in pending;
        pending := pending - {c};
        if c == client {
          continue;
        }
        if c !in failing {
          DeliverOneMore(old(outbox), done, c, msg);
          done := done + {c};
        }
        SendToClient(msg, c, c !in failing);
      }
      assert done == Recipients(clients, client) - failing;
      if IsLine(msg) {
        DeliverKeepsLines(old(outbox), done, msg);
      }
    }

    /** enqueueClient: registers c, then tells every other member how many
        others each of them now has. */
    method EnqueueClient(c: Client, failing: set<Client>)
      requires Valid()
      modifies this
      ensures clients == old(clients) + {c}
      ensures c in old(clients) ==> clients == old(clients)
      ensures outbox == Deliver(old(outbox), Recipients(clients, c) - failing, JoinNotice(|clients| - 1))
      ensures Sent(outbox, c) == Sent(old(outbox), c)
      ensures Valid()
    {
      clients := clients + {c};
      NoticesAreLines(|clients| - 1);
      Broadcast(JoinNotice(|clients| - 1), c, failing);
    }

    /** handleConnection: wraps a newly accepted connection in a client of
        its own and registers it. */
    method HandleConnection(failing: set<Client>) returns (c: Client)
      requires Valid()
      modifies this
      ensures fresh(c)
      ensures clients == old(clients) + {c} && |clients| == |old(clients)| + 1
      ensures outbox == Deliver(old(outbox), old(clients) - failing, JoinNotice(|old(clients)|))
      ensures Sent(outbox, c) == []
      ensures Valid()
    {
      c := new Client();
      EnqueueClient(c, failing);
      assert Recipients(clients, c) - failing == old(clients) - failing;
    }

    /** The first write of handleClient: the welcome line, telling c how
        many others are here. */
    method Welcome(c: Client, written: bool)
      requires Valid()
      modifies this
      ensures clients == old(clients)
      ensures outbox == Deliver(old(outbox), if written then {c} else {}, WelcomeLine(|clients| - 1))
      ensures Valid()
    {
      NoticesAreLines(|clients| - 1);
      SendToClient(WelcomeLine(|clients| - 1), c, written);
      if written {
        DeliverKeepsLines(old(outbox), {c}, WelcomeLine(|clients| - 1));
      } else {
        DeliverToNobody(old(outbox), WelcomeLine(|clients| - 1));
      }
    }

    /** The error branch of handleClient's read loop: c leaves the registry
        (deleting an absent client leaves it as it is), and every remaining
        member is told how many others it now has. */
    method Disconnect(c: Client, failing: set<Client>)
      requires Valid()
      modifies this
      ensures clients == old(clients) - {c}
      ensures c !in old(clients) ==> clients == old(clients)
      ensures outbox == Deliver(old(outbox), clients - failing, LeaveNotice(|clients| - 1))
      ensures Valid()
    {
      clients := clients - {c};
      NoticesAreLines(|clients| - 1);
      Broadcast(LeaveNotice(|clients| - 1), null, failing);
    }

    /** receiveMessage: relays a line read from c, unchanged, to every
        other member. */
    method ReceiveMessage(msg: Msg, c: Client, failing: set<Client>)
      requires Valid()
      requires |msg| > 0
      modifies this
      ensures clients == old(clients)
      ensures outbox == Deliver(old(outbox), Recipients(clients, c) - failing, msg)
      ensures IsLine(msg) ==> Valid()
    {
      Broadcast(msg, c, failing);
    }

    /** One pass of handleClient's read loop: a line read from c is relayed
        to every other member; a failed read disconnects c, and the
        disconnect notice reaches the members that remain. Either way the
        members other than c, less those whose writes fail, receive
        RelayedFor(outcome, count), count being how many members other
        than c there are, less one. */
    method ReadOnce(c: Client, outcome: Read, failing: set<Client>) returns (stop: bool)
      requires Valid()
      requires outcome.Line? ==> IsLine(outcome.text)
      modifies this
      ensures stop <==> outcome.Failed?
      ensures clients == if stop then old(clients) - {c} else old(clients)
      ensures outbox == Deliver(old(outbox), Recipients(old(clients), c) - failing,
                                RelayedFor(outcome, |old(clients) - {c}| - 1))
      ensures Valid()
    {
      match outcome
      case Failed =>
        Disconnect(c, failing);
        assert clients - failing == Recipients(old(clients), c) - failing;
        stop := true;
      case Line(text) =>
        ReceiveMessage(text, c, failing);
        stop := false;
    }

    /** The read loop of handleClient: reads from c's connection until a
        read fails, relaying every line and finally disconnecting c.
        outcomes are the results of the successive reads and failing[i] the
        members whose write fails for what the i-th read produced; consumed
        is how many reads the loop took. The loop's own state is the run of
        fan-outs of what the reads produced, one after another. */
    method ReadLoop(c: Client, outcomes: seq<Read>, failing: seq<set<Client>>)
      returns (consumed: nat, disconnected: bool)
      requires Valid()
      requires |failing| == |outcomes|
      requires forall i :: 0 <= i < |outcomes| && outcomes[i].Line? ==> IsLine(outcomes[i].text)
      modifies this
      ensures consumed <= |outcomes|
      ensures disconnected <==> 0 < consumed && outcomes[consumed - 1].Failed?
      ensures forall i :: 0 <= i < consumed - 1 ==> outcomes[i].Line?
      ensures !disconnected ==> consumed == |outcomes|
      ensures clients == if disconnected then old(clients) - {c} else old(clients)
      ensures outbox == DeliverAll(old(outbox), Listeners(old(clients), c, failing[..consumed]),
                                   Relayed(outcomes[..consumed], |old(clients) - {c}| - 1))
      ensures Valid()
    {
      ghost var count := |old(clients) - {c}| - 1;
      ghost var to: seq<set<Client>> := [];
      ghost var relayed: seq<Msg> := [];
      consumed, disconnected := 0, false;
      while consumed < |outcomes| && !disconnected
        invariant consumed <= |outcomes|
        invariant disconnected <==> 0 < consumed && outcomes[consumed - 1].Failed?
        invariant forall i :: 0 <= i < consumed - 1 ==> outcomes[i].Line?
        invariant !disconnected ==> forall i :: 0 <= i < consumed ==> outcomes[i].Line?
        invariant clients == if disconnected then old(clients) - {c} else old(clients)
        invariant to == Listeners(old(clients), c, failing[..consumed])
        invariant relayed == Relayed(outcomes[..consumed], count)
        invariant outbox == DeliverAll(old(outbox), to, relayed)
        invariant Valid()
        decreases |outcomes| - consumed
      {
        var outcome := outcomes[consumed];
        assert clients == old(clients);
        ghost var prev := outbox;
        ghost var t := Recipients(clients, c) - failing[consumed];
        ghost var m := RelayedFor(outcome, |clients - {c}| - 1);
        disconnected := ReadOnce(c, outcome, failing[consumed]);
        assert outbox == DeliverAll(old(outbox), to + [t], relayed + [m]) by {
          assert outbox == Deliver(prev, t, m);
          DeliverAllOneMore(old(outbox), to, relayed, t, m);
        }
        assert to + [t] == Listeners(old(clients), c, failing[..consumed + 1]) by {
          ListenersStep(old(clients), c, failing, consumed);
        }
        assert relayed + [m] == Relayed(outcomes[..consumed + 1], count) by {
          RelayedStep(outcomes, consumed, count);
        }
        to, relayed := to + [t], relayed + [m];
        consumed := consumed + 1;
      }
    }

    /** handleClient: welcomes c, then runs the read loop on its
        connection. See SessionStreams for what each client receives. */
    method HandleClient(c: Client, welcomed: bool, outcomes: seq<Read>, failing: seq<set<Client>>)
      returns (consumed: nat, disconnected: bool, ghost afterWelcome: Outbox)
      requires Valid()
      requires |failing| == |outcomes|
      requires forall i :: 0 <= i < |outcomes| && outcomes[i].Line? ==> IsLine(outcomes[i].text)
      modifies this
      ensures consumed <= |outcomes|
      ensures disconnected <==> 0 < consumed && outcomes[consumed - 1].Failed?
      ensures !disconnected ==> consumed == |outcomes|
      ensures clients == if disconnected then old(clients) - {c} else old(clients)
      ensures afterWelcome == Deliver(old(outbox), if welcomed then {c} else {}, WelcomeLine(|old(clients)| - 1))
      ensures outbox == DeliverAll(afterWelcome, Listeners(old(clients), c, failing[..consumed]),
                                   Relayed(outcomes[..consumed], |old(clients) - {c}| - 1))
      ensures Valid()
    {
      Welcome(c, welcomed);
      afterWelcome := outbox;
      consumed, disconnected := ReadLoop(c, outcomes, failing);
    }
  }
}
