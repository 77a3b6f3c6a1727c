/**
 * One client session: the handshake that turns the first line into a user, and the
 * events the session hands the coordinator: the join, one message per later line,
 * and one leave when the session ends.
 */
module Session {
  import opened Wrappers
  import opened Messages
  import opened Channels
  import opened Coordinator

  /**
   * The display name the handshake produces. The first read's outcome is not checked:
   * when it fails (None) the name is the empty string and the session goes on anyway.
   */
  function HandshakeName(first: Option<string>): (name: string)
    ensures first.Some? ==> name == first.value
    ensures first.None? ==> name == ""
  {
    first.GetOr("")
  }

  /** The handshake: the user the session registers, with a fresh, empty outbound channel. */
  method Connect(first: Option<string>) returns (u: User)
    ensures fresh(u.output) && u.output.Valid() && u.output.buffer == []
    ensures u.name == HandshakeName(first)
  {
    var output := new Channel();
    u := User(HandshakeName(first), output);
  }

  /** The message events for the lines a user sends, one per line, in order. */
  function LineInputs(name: string, lines: seq<string>): (r: seq<Event>)
    ensures |r| == |lines|
    ensures forall e :: e in r ==> e.Input? && e.msg.username == name
  {
    if lines == [] then [] else [Input(Message(name, lines[0]))] + LineInputs(name, lines[1..])
  }

  /** Every line becomes one message from the user, in the order the lines came. */
  lemma {:induction false} LineInputsAt(name: string, lines: seq<string>)
    ensures |LineInputs(name, lines)| == |lines|
    ensures forall k :: 0 <= k < |lines| ==> LineInputs(name, lines)[k] == Input(Message(name, lines[k]))
  {
    if lines != [] {
      LineInputsAt(name, lines[1..]);
      var rest := LineInputs(name, lines[1..]);
      forall k | 0 <= k < |lines| ensures LineInputs(name, lines)[k] == Input(Message(name, lines[k])) {
        if k > 0 {
          assert LineInputs(name, lines)[k] == rest[k - 1];
        }
      }
    }
  }

  /** Everything a session submits: its join, its lines as messages, then its leave. */
  function SessionTrace(u: User, lines: seq<string>): (r: seq<Event>)
    ensures |r| == |lines| + 2
    ensures r[0] == Join(u) && r[|r| - 1] == Leave(u)
    ensures forall k :: 0 < k < |r| - 1 ==> r[k].Input? && r[k].msg.username == u.name
  {
    [Join(u)] + LineInputs(u.name, lines) + [Leave(u)]
  }

  /**
   * A session's events: exactly one join first, exactly one leave last, and between
   * them one message per line, in order, all under the session's name.
   */
  lemma SessionTraceShape(u: User, lines: seq<string>)
    ensures |SessionTrace(u, lines)| == |lines| + 2
    ensures SessionTrace(u, lines)[0] == Join(u)
    ensures SessionTrace(u, lines)[|lines| + 1] == Leave(u)
    ensures forall k :: 0 <= k < |lines| ==> SessionTrace(u, lines)[k + 1] == Input(Message(u.name, lines[k]))
  {
    LineInputsAt(u.name, lines);
  }

  /**
   * Whatever the registry held before, a session's events leave it as it was with
   * the session's name removed: every other name keeps its entry.
   */
  lemma SessionLeavesNoTrace(reg: Registry, u: User, lines: seq<string>)
    ensures RegistryAfter(reg, SessionTrace(u, lines)) == reg - {u.name}
  {
    var inputs := LineInputs(u.name, lines);
    var trace := SessionTrace(u, lines);
    LineInputsAt(u.name, lines);
    InputsOnly(reg, [Join(u)], inputs, u.name);
    assert trace[..|trace| - 1] == [Join(u)] + inputs;
    assert [Join(u)][..0] == [];
  }

  /**
   * Whatever events came earlier, handling a session's own events afterwards only
   * removes the session's name from the registry those earlier events left.
   */
  lemma SessionAfterAnyHistory(reg: Registry, before: seq<Event>, u: User, lines: seq<string>)
    ensures RegistryAfter(reg, before + SessionTrace(u, lines)) == RegistryAfter(reg, before) - {u.name}
  {
    RegistryAfterAppend(reg, before, SessionTrace(u, lines));
    SessionLeavesNoTrace(RegistryAfter(reg, before), u, lines);
  }

  /** A handshake whose first read fails still joins, under the empty name. */
  lemma FailedHandshakeStillJoins(output: Channel, lines: seq<string>)
    ensures SessionTrace(User(HandshakeName(None), output), lines)[0] == Join(User("", output))
  {
  }

  /** Alice and then bob connect and join a fresh coordinator. */
  method AliceAndBobJoin(bot: string) returns (cs: ChatServer, alice: User, bob: User)
    ensures fresh(cs) && fresh(alice.output) && fresh(bob.output)
    ensures cs.Valid() && cs.users == map["alice" := alice, "bob" := bob]
    ensures alice.name == "alice" && bob.name == "bob"
    ensures alice.output.buffer == [] && bob.output.buffer == []
    ensures cs.pending == [JoinAnnouncement(bot, "alice"), JoinAnnouncement(bot, "bob")]
  {
    cs := new ChatServer(bot);
    alice := Connect(Some("alice"));
    cs.OnJoin(alice);
    assert cs.users == map[][alice.name := alice];
    bob := Connect(Some("bob"));
    assert "bob" != "alice" by { assert "bob"[0] != "alice"[0]; }
    ghost var mid := cs.users;
    cs.OnJoin(bob);
    assert cs.users == mid[bob.name := bob];
  }

  /** The line a session writes for alice's hello, at time `t`. */
  lemma HelloLine(t: string)
    ensures OutboundLine(Message("alice", "hello"), t) == "alice " + t + ": hello\n"
  {
  }

  /**
   * Alice says hello to the room of alice and bob: both channels then hold exactly
   * that message, bob's session receives it first and writes it to bob's client as
   * alice's hello line, and the announcements still wait.
   */
  method AliceSaysHello(bot: string, t: string) returns (aliceBuffer: seq<Message>, bobGot: Option<Message>, line: string, pending: seq<Message>)
    ensures aliceBuffer == [Message("alice", "hello")]
    ensures bobGot == Some(Message("alice", "hello"))
    ensures line == "alice " + t + ": hello\n"
    ensures pending == [JoinAnnouncement(bot, "alice"), JoinAnnouncement(bot, "bob")]
  {
    var cs, alice, bob := AliceAndBobJoin(bot);
    assert cs.users["alice"] == alice && cs.users["bob"] == bob;
    cs.OnInput(Message("alice", "hello"));
    aliceBuffer := alice.output.buffer;
    bobGot := bob.output.Receive();
    HelloLine(t);
    line := OutboundLine(bobGot.value, t);
    pending := cs.pending;
  }
}
