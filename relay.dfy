/**
 * The vocabulary of the chat relay: connected clients, the lines written to
 * them, and what one fan-out of a line does to what each client has been sent.
 */
module Relay {

  /** A connected client. The server keys its registry by the client's
      pointer, so an object's identity is the client's identity; the
      connection it wraps is not modelled (what is written to it is kept in
      an Outbox). */
  class Client {
    constructor () {}
  }

  /** One message on the wire, as the characters of its bytes. */
  type Msg = seq<char>

  /** Every message written so far to each client's connection, oldest first. */
  type Outbox = map<Client, seq<Msg>>

  /** A single line of the relay's protocol: non-empty, ending in the
      newline delimiter and holding no other newline. */
  predicate IsLine(m: Msg) {
    |m| > 0 && m[|m| - 1] == '\n' && '\n' !in m[..|m| - 1]
  }

  /** What has been written to x's connection (nothing when x has no entry). */
  function Sent(outbox: Outbox, x: Client): seq<Msg> {
    if x in outbox then outbox[x] else []
  }

  /** Every message of a stream is a single line. */
  predicate LinesOnly(stream: seq<Msg>)
    decreases |stream|
  {
    stream == [] || (LinesOnly(stream[..|stream| - 1]) && IsLine(stream[|stream| - 1]))
  }

  /** Every message in the outbox is a single line. */
  predicate AllLines(outbox: Outbox) {
    forall x {:trigger Sent(outbox, x)} :: x in outbox ==> LinesOnly(Sent(outbox, x))
  }

  /** The members other than r: the count a notice tells r. */
  function Others(members: set<Client>, r: Client): set<Client> {
    members - {r}
  }

  /** The clients a broadcast reaches: every member except the excluded one;
      a null exclusion excludes nobody. */
  function Recipients(members: set<Client>, exclude: Client?): (r: set<Client>)
    ensures r <= members
    ensures forall x :: x in members ==> (x in r <==> x != exclude)
    ensures exclude == null || exclude !in members ==> r == members
    ensures exclude != null && exclude in members ==> |r| == |members| - 1
  {
    if exclude == null then members else members - {exclude}
  }

  /** The outbox after msg has been written once to every client in to. */
  function Deliver(outbox: Outbox, to: set<Client>, msg: Msg): (r: Outbox)
  {
    map x | x in outbox.Keys + to :: if x in to then Sent(outbox, x) + [msg] else outbox[x]
  }

  /** What one fan-out does to each client's stream: a recipient's stream
      gains msg at its end, and every other stream is as it was. */
  lemma DeliverSent(outbox: Outbox, to: set<Client>, msg: Msg)
    ensures forall x :: Sent(Deliver(outbox, to, msg), x) ==
              if x in to then Sent(outbox, x) + [msg] else Sent(outbox, x)
  {
    forall x ensures Sent(Deliver(outbox, to, msg), x) == if x in to then Sent(outbox, x) + [msg] else Sent(outbox, x) {
      DeliverSentTo(outbox, to, msg, x);
    }
  }

  /** DeliverSent for a single client. */
  lemma DeliverSentTo(outbox: Outbox, to: set<Client>, msg: Msg, x: Client)
    ensures Sent(Deliver(outbox, to, msg), x) == if x in to then Sent(outbox, x) + [msg] else Sent(outbox, x)
  {
    if x !in to && x !in outbox {
      assert x !in Deliver(outbox, to, msg);
    }
  }

  /** The outbox after each message of msgs, in order, has been written to
      the clients of the matching set of to: msgs[i] reaches to[i]. */
  function DeliverAll(outbox: Outbox, to: seq<set<Client>>, msgs: seq<Msg>): Outbox
    requires |to| == |msgs|
    decreases |msgs|
  {
    if msgs == [] then outbox
    else Deliver(DeliverAll(outbox, to[..|to| - 1], msgs[..|msgs| - 1]), to[|to| - 1], msgs[|msgs| - 1])
  }

  /** The messages of a run that reach x, in the order of the run. */
  function Addressed(x: Client, to: seq<set<Client>>, msgs: seq<Msg>): (r: seq<Msg>)
    requires |to| == |msgs|
    ensures |r| <= |msgs|
    decreases |msgs|
  {
    if msgs == [] then []
    else Addressed(x, to[..|to| - 1], msgs[..|msgs| - 1]) + if x in to[|to| - 1] then [msgs[|msgs| - 1]] else []
  }

  /** A client reached by every fan-out of a run is addressed the whole run. */
  lemma {:induction false} AddressedEvery(x: Client, to: seq<set<Client>>, msgs: seq<Msg>)
    requires |to| == |msgs|
    requires forall i :: 0 <= i < |to| ==> x in to[i]
    ensures Addressed(x, to, msgs) == msgs
    decreases |msgs|
  {
    if msgs != [] {
      AddressedEvery(x, to[..|to| - 1], msgs[..|msgs| - 1]);
      assert msgs == msgs[..|msgs| - 1] + [msgs[|msgs| - 1]];
    }
  }

  /** A client reached by no fan-out of a run is addressed nothing. */
  lemma {:induction false} AddressedNone(x: Client, to: seq<set<Client>>, msgs: seq<Msg>)
    requires |to| == |msgs|
    requires forall i :: 0 <= i < |to| ==> x !in to[i]
    ensures Addressed(x, to, msgs) == []
    decreases |msgs|
  {
    if msgs != [] {
      AddressedNone(x, to[..|to| - 1], msgs[..|msgs| - 1]);
    }
  }

  /** One more fan-out extends the run. */
  lemma DeliverAllOneMore(outbox: Outbox, to: seq<set<Client>>, msgs: seq<Msg>, t: set<Client>, msg: Msg)
    requires |to| == |msgs|
    ensures DeliverAll(outbox, to + [t], msgs + [msg]) == Deliver(DeliverAll(outbox, to, msgs), t, msg)
  {
    assert (to + [t])[..|to|] == to;
    assert (msgs + [msg])[..|msgs|] == msgs;
  }

  /** What a run of fan-outs does to one client's stream: it gains, at its
      end and in order, exactly the messages of the run that reach it. */
  lemma {:induction false} DeliverAllSent(outbox: Outbox, to: seq<set<Client>>, msgs: seq<Msg>, x: Client)
    requires |to| == |msgs|
    ensures Sent(DeliverAll(outbox, to, msgs), x) == Sent(outbox, x) + Addressed(x, to, msgs)
    decreases |msgs|
  {
    if msgs != [] {
      var init, last := msgs[..|msgs| - 1], msgs[|msgs| - 1];
      var toInit, t := to[..|to| - 1], to[|to| - 1];
      var before := DeliverAll(outbox, toInit, init);
      var gained: seq<Msg> := if x in t then [last] else [];
      assert Sent(DeliverAll(outbox, to, msgs), x) == Sent(before, x) + gained by {
        DeliverSentTo(before, t, last, x);
      }
      assert Addressed(x, to, msgs) == Addressed(x, toInit, init) + gained;
      DeliverAllSent(outbox, toInit, init, x);
      AppendAssoc(Sent(outbox, x), Addressed(x, toInit, init), gained);
    }
  }

  /** Appending to a stream in two steps is appending once. */
  lemma AppendAssoc(a: seq<Msg>, b: seq<Msg>, c: seq<Msg>)
    ensures a + b + c == a + (b + c)
  {
  }

  /** A broadcast that excludes one client reaches exactly the members other
      than that client whose writes succeed; the excluded client, the members
      whose writes fail and everyone outside the registry receive nothing. */
  lemma BroadcastReach(outbox: Outbox, members: set<Client>, exclude: Client?, failing: set<Client>, msg: Msg)
    ensures forall x :: Sent(Deliver(outbox, Recipients(members, exclude) - failing, msg), x) ==
              if x in members && x != exclude && x !in failing then Sent(outbox, x) + [msg] else Sent(outbox, x)
  {
    DeliverSent(outbox, Recipients(members, exclude) - failing, msg);
  }

  /** Writing to nobody changes nothing: the disconnect notice after the last
      client has left reaches no one. */
  lemma DeliverToNobody(outbox: Outbox, msg: Msg)
    ensures Deliver(outbox, {}, msg) == outbox
  {
    var r := Deliver(outbox, {}, msg);
    assert r.Keys == outbox.Keys;
    forall x | x in r ensures r[x] == outbox[x] {
      assert Sent(r, x) == Sent(outbox, x);
    }
  }

  /** Fanning out one recipient at a time adds up to fanning out to all of
      them: the step that the broadcast loop takes. */
  lemma DeliverOneMore(outbox: Outbox, to: set<Client>, c: Client, msg: Msg)
    requires c !in to
    ensures Deliver(Deliver(outbox, to, msg), {c}, msg) == Deliver(outbox, to + {c}, msg)
  {
    var lhs := Deliver(Deliver(outbox, to, msg), {c}, msg);
    var rhs := Deliver(outbox, to + {c}, msg);
    assert lhs.Keys == rhs.Keys;
    forall x | x in lhs ensures lhs[x] == rhs[x] {
      assert Sent(lhs, x) == Sent(rhs, x);
    }
  }

  /** Writes to disjoint sets of clients commute, whatever the two messages:
      the per-recipient sends that a broadcast spawns may run in any order,
      and so may two broadcasts that reach different clients. */
  lemma DeliverDisjointCommute(outbox: Outbox, a: set<Client>, m1: Msg, b: set<Client>, m2: Msg)
    requires a !! b
    ensures Deliver(Deliver(outbox, a, m1), b, m2) == Deliver(Deliver(outbox, b, m2), a, m1)
  {
    var lhs := Deliver(Deliver(outbox, a, m1), b, m2);
    var rhs := Deliver(Deliver(outbox, b, m2), a, m1);
    assert lhs.Keys == rhs.Keys;
    forall x | x in lhs ensures lhs[x] == rhs[x] {
      assert Sent(lhs, x) == Sent(rhs, x);
    }
  }

  /** Writing a line keeps every connection's stream a sequence of lines. */
  lemma DeliverKeepsLines(outbox: Outbox, to: set<Client>, msg: Msg)
    requires AllLines(outbox) && IsLine(msg)
    ensures AllLines(Deliver(outbox, to, msg))
  {
    forall x | x in Deliver(outbox, to, msg) ensures LinesOnly(Sent(Deliver(outbox, to, msg), x)) {
      DeliverSentTo(outbox, to, msg, x);
      if x in to {
        assert (Sent(outbox, x) + [msg])[..|Sent(outbox, x)|] == Sent(outbox, x);
      }
    }
  }

  /** Every member is told the number of members other than itself when the
      count is the membership size less one. */
  lemma {:induction false} OthersCount(members: set<Client>, r: Client)
    requires r in members
    ensures |Others(members, r)| == |members| - 1
  {
    assert members == Others(members, r) + {r};
  }
}
