/**
 * The broadcast coordinator: the one owner of the user registry. It handles one event
 * at a time (a join, a leave, or an inbound message), announces joins and leaves
 * through the bot, and fans every inbound message out to every registered user's
 * outbound channel without ever blocking on a full one.
 */
module Coordinator {
  import opened Wrappers
  import opened Messages
  import opened Channels

  /** A connected user: the name it registered and the channel its session drains. */
  datatype User = User(name: string, output: Channel)

  /** The three things the coordinator's loop reacts to. */
  datatype Event = Join(user: User) | Leave(user: User) | Input(msg: Message)

  /** The registry: display name to user. */
  type Registry = map<string, User>

  // ---------------------------------------------------------------------------
  // The registry as a function of the events
  // ---------------------------------------------------------------------------

  /**
   * The registry after one event: a join (re)binds the joiner's name to the joiner, a
   * leave removes the name whichever session sent it, and a message leaves it alone.
   */
  function Register(reg: Registry, e: Event): (r: Registry)
    ensures e.Join? ==> e.user.name in r && r[e.user.name] == e.user
    ensures e.Leave? ==> e.user.name !in r
    ensures e.Input? ==> r == reg
    ensures forall n :: !e.Input? && n != e.user.name ==> (n in r <==> n in reg)
    ensures forall n :: !e.Input? && n != e.user.name && n in r ==> r[n] == reg[n]
  {
    match e
    case Join(u) => reg[u.name := u]
    case Leave(u) => reg - {u.name}
    case Input(_) => reg
  }

  /**
   * The registry after a whole sequence of events, processed in order. Every entry in
   * it was there at the start, or is a user registered under its own name.
   */
  function RegistryAfter(reg: Registry, es: seq<Event>): (r: Registry)
    ensures forall n :: n in r ==> r[n].name == n || (n in reg && r[n] == reg[n])
    decreases |es|
  {
    if es == [] then reg else Register(RegistryAfter(reg, es[..|es| - 1]), es[|es| - 1])
  }

  /**
   * Whether the latest join or leave that names `n` in `es` is a join: Some(true) for
   * a join, Some(false) for a leave, None when no join or leave names `n`.
   */
  function LastMembership(es: seq<Event>, n: string): Option<bool>
    decreases |es|
  {
    if es == [] then None
    else
      var e := es[|es| - 1];
      if !e.Input? && e.user.name == n then Some(e.Join?) else LastMembership(es[..|es| - 1], n)
  }

  /** Appending an event is one more step of Register. */
  lemma RegistryAfterSnoc(reg: Registry, es: seq<Event>, e: Event)
    ensures RegistryAfter(reg, es + [e]) == Register(RegistryAfter(reg, es), e)
  {
    assert (es + [e])[..|es|] == es;
  }

  /** Processing two sequences one after the other is processing their concatenation. */
  lemma {:induction false} RegistryAfterAppend(reg: Registry, a: seq<Event>, b: seq<Event>)
    ensures RegistryAfter(reg, a + b) == RegistryAfter(RegistryAfter(reg, a), b)
    decreases |b|
  {
    if b == [] {
      assert a + b == a;
    } else {
      var b' := b[..|b| - 1];
      assert (a + b)[..|a + b| - 1] == a + b';
      RegistryAfterAppend(reg, a, b');
    }
  }

  /**
   * After any sequence of events a name is registered exactly when the latest join or
   * leave naming it is a join, or, when there is none, when it was registered before.
   */
  lemma {:induction false} RegistryAfterKeys(reg: Registry, es: seq<Event>, n: string)
    ensures n in RegistryAfter(reg, es) <==> LastMembership(es, n).GetOr(n in reg)
    decreases |es|
  {
    if es != [] {
      RegistryAfterKeys(reg, es[..|es| - 1], n);
    }
  }

  /** From an empty registry: the registered names are those whose latest join/leave is a join. */
  lemma RegistryFromEmpty(es: seq<Event>)
    ensures forall n :: n in RegistryAfter(map[], es) <==> LastMembership(es, n) == Some(true)
  {
    forall n ensures n in RegistryAfter(map[], es) <==> LastMembership(es, n) == Some(true) {
      RegistryAfterKeys(map[], es, n);
    }
  }

  /** Messages alone neither change the registry nor count as a join or leave of anyone. */
  lemma {:induction false} InputsOnly(reg: Registry, prefix: seq<Event>, es: seq<Event>, n: string)
    requires forall k :: 0 <= k < |es| ==> es[k].Input?
    ensures RegistryAfter(reg, prefix + es) == RegistryAfter(reg, prefix)
    ensures LastMembership(prefix + es, n) == LastMembership(prefix, n)
    decreases |es|
  {
    if es == [] {
      assert prefix + es == prefix;
    } else {
      var es' := es[..|es| - 1];
      assert (prefix + es)[..|prefix + es| - 1] == prefix + es';
      assert (prefix + es)[|prefix + es| - 1] == es[|es| - 1];
      InputsOnly(reg, prefix, es', n);
    }
  }

  /** A second leave of the same name changes nothing: leaving is idempotent. */
  lemma LeaveTwice(reg: Registry, u: User, v: User)
    requires u.name == v.name
    ensures Register(Register(reg, Leave(u)), Leave(v)) == Register(reg, Leave(u))
  {
  }

  /**
   * A leave goes by name only: when an old session of `name` leaves after a newer
   * session re-registered that name, the newer session is no longer registered.
   */
  lemma StaleLeaveEvictsNewSession(reg: Registry, older: User, newer: User)
    requires older.name == newer.name && older != newer
    ensures newer.name !in RegistryAfter(reg, [Join(older), Join(newer), Leave(older)])
  {
  }

  /** The bot messages an event makes the coordinator post back onto its own input. */
  function Announcements(bot: string, e: Event): (out: seq<Message>)
    ensures |out| == if e.Input? then 0 else 1
    ensures forall a :: a in out ==> a.username == bot
    ensures e.Join? ==> JoinedName(out[0].text) == Some(e.user.name) && LeftName(out[0].text) == None
    ensures e.Leave? ==> LeftName(out[0].text) == Some(e.user.name) && JoinedName(out[0].text) == None
  {
    match e
    case Join(u) => [JoinAnnouncement(bot, u.name)]
    case Leave(u) => [LeaveAnnouncement(bot, u.name)]
    case Input(_) => []
  }

  // ---------------------------------------------------------------------------
  // The coordinator's state and its loop body
  // ---------------------------------------------------------------------------

  class ChatServer {
    /** The bot's display name, from the configuration. */
    const bot: string
    /** The registry, written only by this object's event handlers. */
    var users: Registry
    /** Announcements posted by join and leave and not yet taken as input. */
    var pending: seq<Message>
    /** Every event handled so far, in order. */
    ghost var history: seq<Event>

    /** The channels of the registered users: the only channels a fan-out writes. */
    ghost function Outputs(): set<Channel>
      reads this
    {
      set n | n in users :: users[n].output
    }

    ghost predicate Valid()
      reads this, Outputs()
    {
      && users == RegistryAfter(map[], history)
      && (forall n :: n in users ==> users[n].name == n && users[n].output.Valid())
      && (forall a, b :: a in users && b in users && a != b ==> users[a].output != users[b].output)
    }

    /** What a join demands of its user: a channel within capacity that no other name uses. */
    ghost predicate Joinable(u: User)
      reads this, u.output
    {
      && u.output.Valid()
      && forall n :: n in users && n != u.name ==> users[n].output != u.output
    }

    /** A coordinator with nobody registered and nothing pending. */
    constructor (bot: string)
      ensures Valid()
      ensures this.bot == bot && users == map[] && pending == [] && history == []
    {
      this.bot := bot;
      users := map[];
      pending := [];
      history := [];
    }

    /** A join: register the user under its name, then announce it. */
    method OnJoin(u: User)
      requires Valid() && Joinable(u)
      modifies this
      ensures Valid()
      ensures history == old(history) + [Join(u)]
      ensures users == Register(old(users), Join(u))
      ensures pending == old(pending) + [JoinAnnouncement(bot, u.name)]
    {
      RegistryAfterSnoc(map[], history, Join(u));
      users := users[u.name := u];
      history := history + [Join(u)];
      pending := pending + [JoinAnnouncement(bot, u.name)];
    }

    /** A leave: drop the name from the registry, then announce it. */
    method OnLeave(u: User)
      requires Valid()
      modifies this
      ensures Valid()
      ensures history == old(history) + [Leave(u)]
      ensures users == Register(old(users), Leave(u))
      ensures pending == old(pending) + [LeaveAnnouncement(bot, u.name)]
    {
      RegistryAfterSnoc(map[], history, Leave(u));
      users := users - {u.name};
      history := history + [Leave(u)];
      pending := pending + [LeaveAnnouncement(bot, u.name)];
    }

    /**
     * An inbound message: offer it to every registered user's channel. A user whose
     * channel is full misses it; nobody else is affected and the registry stays as it is.
     */
    method OnInput(m: Message)
      requires Valid()
      modifies this, Outputs()
      ensures Valid()
      ensures history == old(history) + [Input(m)]
      ensures users == old(users) && pending == old(pending)
      ensures forall n :: n in users ==> users[n].output.buffer == Offer(old(users[n].output.buffer), m)
    {
      ghost var outs := Outputs();
      var todo := users.Keys;
      while todo != {}
        invariant todo <= users.Keys
        invariant forall n :: n in users ==> users[n].output.Valid()
        invariant forall n :: n in users ==>
          users[n].output.buffer == if n in todo then old(users[n].output.buffer) else Offer(old(users[n].output.buffer), m)
        modifies outs
        decreases todo
      {
        var n :| n in todo;
        var _ := users[n].output.TrySend(m);
        todo := todo - {n};
      }
      RegistryAfterSnoc(map[], history, Input(m));
      history := history + [Input(m)];
    }

    /** One pass of the loop: handle whichever event arrived. */
    method Step(e: Event)
      requires Valid()
      requires e.Join? ==> Joinable(e.user)
      modifies this, Outputs()
      ensures Valid()
      ensures history == old(history) + [e]
      ensures users == Register(old(users), e)
      ensures pending == old(pending) + Announcements(bot, e)
      ensures e.Input? ==> forall n :: n in users ==>
        users[n].output.buffer == Offer(old(users[n].output.buffer), e.msg)
      ensures !e.Input? ==> unchanged(old(Outputs()))
    {
      match e
      case Join(u) => OnJoin(u);
      case Leave(u) => OnLeave(u);
      case Input(m) => OnInput(m);
    }

    /**
     * The coordinator takes the announcement at position `i` of the pending ones as its
     * next inbound message (announcement tasks race to deliver, so any of them may be
     * next); there is nothing to take when `i` is past the end.
     */
    method DeliverAnnouncement(i: nat) returns (delivered: bool)
      requires Valid()
      modifies this, Outputs()
      ensures Valid()
      ensures delivered <==> i < |old(pending)|
      ensures users == old(users)
      ensures !delivered ==> pending == old(pending) && history == old(history) && unchanged(old(Outputs()))
      ensures delivered ==> pending == old(pending[..i] + pending[i + 1..])
      ensures delivered ==> history == old(history) + [Input(old(pending[i]))]
      ensures delivered ==> forall n :: n in users ==>
        users[n].output.buffer == Offer(old(users[n].output.buffer), old(pending[i]))
    {
      delivered := i < |pending|;
      if delivered {
        var m := pending[i];
        pending := pending[..i] + pending[i + 1..];
        OnInput(m);
      }
    }
  }
}
