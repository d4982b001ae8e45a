/** The realtime hub (realtime/hub.go): the client, channel and roster tables. Every operation is
    one critical section of the hub's mutex, so any interleaving is a run of operations. */
module Hub {
  import opened Prelude

  type Id = nat

  type Name = string

  datatype Member = Member(id: string, info: int)

  datatype ChannelType = Public | Private | Presence

  function ClassifyChannel(name: Name): ChannelType {
    if "private-" <= name then Private else if "presence-" <= name then Presence else Public
  }

  /** The roster is filled for presence channels alone. */
  datatype Channel = Channel(members: set<Id>, roster: map<Id, Member>)

  datatype PresenceEvent = PresenceEvent(channel: Name, joined: bool, client: Id, member: Member)

  type Channels = map<Name, Channel>

  function MembersOf(channels: Channels, name: Name): set<Id> {
    if name in channels then channels[name].members else {}
  }

  function RosterOf(channels: Channels, name: Name): map<Id, Member> {
    if name in channels then channels[name].roster else map[]
  }

  function JoinedBy(joined: map<Id, set<Name>>, id: Id): set<Name> {
    if id in joined then joined[id] else {}
  }

  /** The roster that the recorded joins and leaves of a channel add up to; none if someone joins
      twice or leaves without having joined. */
  function Replay(log: seq<PresenceEvent>, name: Name): Option<map<Id, Member>> {
    if log == [] then Some(map[])
    else
      var e := log[|log| - 1];
      match Replay(log[..|log| - 1], name)
      case None => None
      case Some(roster) =>
        if e.channel != name then Some(roster)
        else if e.joined then (if e.client in roster then None else Some(roster[e.client := e.member]))
        else if e.client in roster && roster[e.client] == e.member then Some(roster - {e.client})
        else None
  }

  /** No stored channel is empty, and rosters list exactly the members of presence channels. */
  ghost predicate Tidy(channels: Channels) {
    forall name | name in channels ::
      && channels[name].members != {}
      && channels[name].roster.Keys == if ClassifyChannel(name) == Presence then channels[name].members else {}
  }

  /** Both sides of a subscription agree. */
  ghost predicate Mutual(channels: Channels, joined: map<Id, set<Name>>) {
    forall id, name :: id in MembersOf(channels, name) <==> name in JoinedBy(joined, id)
  }

  ghost predicate Logged(channels: Channels, log: seq<PresenceEvent>) {
    forall name :: Replay(log, name) == Some(RosterOf(channels, name))
  }

  // ---- Joining and leaving one channel ----

  function Join(channels: Channels, name: Name, id: Id, member: Member): Channels {
    var ch := if name in channels then channels[name] else Channel({}, map[]);
    channels[name := Channel(ch.members + {id}, if ClassifyChannel(name) == Presence then ch.roster[id := member] else ch.roster)]
  }

  /** A channel that loses its last member is dropped. */
  function Leave(channels: Channels, name: Name, id: Id): Channels {
    if name !in channels then channels
    else
      var ch := Channel(channels[name].members - {id}, channels[name].roster - {id});
      if ch.members == {} then channels - {name} else channels[name := ch]
  }

  function JoinLog(log: seq<PresenceEvent>, name: Name, id: Id, member: Member): seq<PresenceEvent> {
    if ClassifyChannel(name) == Presence then log + [PresenceEvent(name, true, id, member)] else log
  }

  function LeaveLog(log: seq<PresenceEvent>, channels: Channels, name: Name, id: Id): seq<PresenceEvent> {
    if name in channels && id in channels[name].roster then log + [PresenceEvent(name, false, id, channels[name].roster[id])] else log
  }

  lemma JoinKeeps(channels: Channels, log: seq<PresenceEvent>, name: Name, id: Id, member: Member)
    requires Tidy(channels) && Logged(channels, log) && id !in MembersOf(channels, name)
    ensures Tidy(Join(channels, name, id, member))
    ensures Logged(Join(channels, name, id, member), JoinLog(log, name, id, member))
    ensures forall n :: MembersOf(Join(channels, name, id, member), n) == if n == name then MembersOf(channels, n) + {id} else MembersOf(channels, n)
  {
    JoinIsTidy(channels, name, id, member);
    forall n ensures Replay(JoinLog(log, name, id, member), n) == Some(RosterOf(Join(channels, name, id, member), n)) {
      assert Replay(log, n) == Some(RosterOf(channels, n));
      ReplayJoin(channels, log, name, id, member, n);
    }
  }

  lemma JoinIsTidy(channels: Channels, name: Name, id: Id, member: Member)
    requires Tidy(channels)
    ensures Tidy(Join(channels, name, id, member))
  {
  }

  lemma ReplayJoin(channels: Channels, log: seq<PresenceEvent>, name: Name, id: Id, member: Member, n: Name)
    requires Tidy(channels) && id !in MembersOf(channels, name) && Replay(log, n) == Some(RosterOf(channels, n))
    ensures Replay(JoinLog(log, name, id, member), n) == Some(RosterOf(Join(channels, name, id, member), n))
  {
    assert id !in RosterOf(channels, name);
    if ClassifyChannel(name) == Presence {
      assert JoinLog(log, name, id, member)[..|log|] == log;
    }
  }

  lemma LeaveKeeps(channels: Channels, log: seq<PresenceEvent>, name: Name, id: Id)
    requires Tidy(channels) && Logged(channels, log)
    ensures Tidy(Leave(channels, name, id))
    ensures Logged(Leave(channels, name, id), LeaveLog(log, channels, name, id))
    ensures forall n :: MembersOf(Leave(channels, name, id), n) == if n == name then MembersOf(channels, n) - {id} else MembersOf(channels, n)
  {
    forall n ensures Replay(LeaveLog(log, channels, name, id), n) == Some(RosterOf(Leave(channels, name, id), n)) {
      assert Replay(log, n) == Some(RosterOf(channels, n));
      ReplayLeave(channels, log, name, id, n);
    }
  }

  lemma ReplayLeave(channels: Channels, log: seq<PresenceEvent>, name: Name, id: Id, n: Name)
    requires Tidy(channels) && Replay(log, n) == Some(RosterOf(channels, n))
    ensures Replay(LeaveLog(log, channels, name, id), n) == Some(RosterOf(Leave(channels, name, id), n))
  {
    var log' := LeaveLog(log, channels, name, id);
    if log' != log {
      assert log'[..|log|] == log;
    }
    if n == name && name in channels && id !in channels[name].roster {
      assert channels[name].roster - {id} == channels[name].roster;
    }
    if n == name && name in channels && channels[name].members - {id} == {} {
      assert channels[name].roster - {id} == map[];
    }
  }

  // ---- Both sides of a subscription change together ----

  lemma MutualJoin(channels: Channels, joined: map<Id, set<Name>>, name: Name, id: Id, channels': Channels)
    requires Mutual(channels, joined)
    requires forall n :: MembersOf(channels', n) == if n == name then MembersOf(channels, n) + {id} else MembersOf(channels, n)
    ensures Mutual(channels', joined[id := JoinedBy(joined, id) + {name}])
  {
    forall i, n ensures i in MembersOf(channels', n) <==> n in JoinedBy(joined[id := JoinedBy(joined, id) + {name}], i) {
      assert i in MembersOf(channels, n) <==> n in JoinedBy(joined, i);
    }
  }

  lemma MutualLeave(channels: Channels, joined: map<Id, set<Name>>, names: set<Name>, id: Id, channels': Channels)
    requires Mutual(channels, joined)
    requires forall n :: MembersOf(channels', n) == if n in names then MembersOf(channels, n) - {id} else MembersOf(channels, n)
    ensures Mutual(channels', joined[id := JoinedBy(joined, id) - names])
  {
    forall i, n ensures i in MembersOf(channels', n) <==> n in JoinedBy(joined[id := JoinedBy(joined, id) - names], i) {
      assert i in MembersOf(channels, n) <==> n in JoinedBy(joined, i);
    }
  }

  function Decimal(n: nat): string {
    if n < 10 then [('0' as int + n) as char] else Decimal(n / 10) + [('0' as int + n % 10) as char]
  }

  /** A member that the Authorizer leaves unnamed goes by its client. */
  function Identity(id: Id, member: Member): Member {
    if member.id == "" then member.(id := "client-" + Decimal(id)) else member
  }

  datatype JoinResult = Joined | Unauthorized | HubClosed

  // ---- The hub as a whole ----

  /** What the mutex guards; joined is the channel set that each client keeps of itself. */
  datatype Tables = Tables(clients: set<Id>, channels: Channels, joined: map<Id, set<Name>>, closed: bool, counter: nat, log: seq<PresenceEvent>)

  const EMPTY := Tables({}, map[], map[], false, 0, [])

  /** What holds whenever the mutex is free: no identity is ahead of the counter, and while the hub
      is open the tables agree with each other and with the log. */
  ghost predicate Inv(s: Tables) {
    && (forall c | c in s.clients || c in s.joined :: c <= s.counter)
    && (if s.closed then s.clients == {} && s.channels == map[]
        else Tidy(s.channels) && Mutual(s.channels, s.joined) && Logged(s.channels, s.log))
  }

  function Added(s: Tables): Tables {
    if s.closed then s
    else s.(counter := s.counter + 1, clients := s.clients + {s.counter + 1}, joined := s.joined[s.counter + 1 := {}])
  }

  /** auth is what the Authorizer said, which is asked before the mutex is taken. */
  function Answer(s: Tables, name: Name, auth: Option<Member>): JoinResult {
    if ClassifyChannel(name) != Public && auth.None? then Unauthorized else if s.closed then HubClosed else Joined
  }

  function Subscribed(s: Tables, id: Id, name: Name, auth: Option<Member>): Tables {
    if Answer(s, name, auth) != Joined || id in MembersOf(s.channels, name) then s
    else
      var member := if ClassifyChannel(name) == Public then Member("", 0) else Identity(id, auth.value);
      s.(channels := Join(s.channels, name, id, member), log := JoinLog(s.log, name, id, member),
         joined := s.joined[id := JoinedBy(s.joined, id) + {name}])
  }

  function Unsubscribed(s: Tables, id: Id, name: Name): Tables {
    if id !in MembersOf(s.channels, name) then s
    else
      s.(channels := Leave(s.channels, name, id), log := LeaveLog(s.log, s.channels, name, id),
         joined := s.joined[id := JoinedBy(s.joined, id) - {name}])
  }

  /** The channels left one after the other. */
  function LeaveAll(channels: Channels, names: seq<Name>, id: Id): Channels {
    if names == [] then channels else Leave(LeaveAll(channels, names[..|names| - 1], id), names[|names| - 1], id)
  }

  /** One leave event for each channel that the client was present in. */
  function Leaves(channels: Channels, names: seq<Name>, id: Id): seq<PresenceEvent> {
    if names == [] then []
    else
      var name := names[|names| - 1];
      Leaves(channels, names[..|names| - 1], id)
      + if id in RosterOf(channels, name) then [PresenceEvent(name, false, id, RosterOf(channels, name)[id])] else []
  }

  /** The names of a set, each once. */
  ghost predicate Lists(order: seq<Name>, names: set<Name>) {
    && (forall n :: n in order <==> n in names)
    && (forall i, j | 0 <= i < j < |order| :: order[i] != order[j])
  }

  function Removed(s: Tables, id: Id, order: seq<Name>): Tables {
    s.(clients := s.clients - {id}, joined := s.joined[id := {}],
       channels := LeaveAll(s.channels, order, id), log := s.log + Leaves(s.channels, order, id))
  }

  function Closed(s: Tables): Tables {
    if s.closed then s else s.(closed := true, clients := {}, channels := map[])
  }

  /** One critical section. A client that disconnects leaves its channels in the order in which its
      set is walked. */
  datatype Operation =
    | Add
    | Subscribe(id: Id, name: Name, auth: Option<Member>)
    | Unsubscribe(id: Id, name: Name)
    | Remove(id: Id, order: seq<Name>)
    | Close

  /** Operations are those of clients that the hub has handed out. */
  ghost predicate Possible(s: Tables, op: Operation) {
    match op
    case Subscribe(id, _, _) => 1 <= id <= s.counter
    case Unsubscribe(id, _) => 1 <= id <= s.counter
    case Remove(id, order) => 1 <= id <= s.counter && Lists(order, JoinedBy(s.joined, id))
    case _ => true
  }

  function Step(s: Tables, op: Operation): Tables {
    match op
    case Add => Added(s)
    case Subscribe(id, name, auth) => Subscribed(s, id, name, auth)
    case Unsubscribe(id, name) => Unsubscribed(s, id, name)
    case Remove(id, order) => Removed(s, id, order)
    case Close => Closed(s)
  }

  lemma AddKeepsInv(s: Tables)
    requires Inv(s)
    ensures Inv(Added(s))
  {
    if !s.closed {
      assert forall c :: JoinedBy(Added(s).joined, c) == JoinedBy(s.joined, c);
    }
  }

  lemma SubscribeKeepsInv(s: Tables, id: Id, name: Name, auth: Option<Member>)
    requires Inv(s) && id <= s.counter
    ensures Inv(Subscribed(s, id, name, auth))
  {
    if Answer(s, name, auth) == Joined && id !in MembersOf(s.channels, name) {
      var member := if ClassifyChannel(name) == Public then Member("", 0) else Identity(id, auth.value);
      JoinKeeps(s.channels, s.log, name, id, member);
      MutualJoin(s.channels, s.joined, name, id, Join(s.channels, name, id, member));
    }
  }

  /** What a Subscribe does to the members and to the log. */
  lemma SubscribeMeans(s: Tables, id: Id, name: Name, auth: Option<Member>)
    requires Inv(s) && Answer(s, name, auth) == Joined
    ensures var s' := Subscribed(s, id, name, auth);
            && (forall n :: MembersOf(s'.channels, n) == MembersOf(s.channels, n) + if n == name then {id} else {})
            && s'.log == if ClassifyChannel(name) == Public || id in MembersOf(s.channels, name) then s.log
                         else JoinLog(s.log, name, id, Identity(id, auth.value))
  {
    if id in MembersOf(s.channels, name) {
      assert forall n :: MembersOf(s.channels, n) == MembersOf(s.channels, n) + if n == name then {id} else {};
    } else {
      var member := if ClassifyChannel(name) == Public then Member("", 0) else Identity(id, auth.value);
      JoinKeeps(s.channels, s.log, name, id, member);
    }
  }

  lemma UnsubscribeKeepsInv(s: Tables, id: Id, name: Name)
    requires Inv(s) && id <= s.counter
    ensures Inv(Unsubscribed(s, id, name))
  {
    if id in MembersOf(s.channels, name) {
      LeaveKeeps(s.channels, s.log, name, id);
      MutualLeave(s.channels, s.joined, {name}, id, Leave(s.channels, name, id));
    }
  }

  /** Leaving channels one by one: what is kept, who is left, and what the others still list. */
  lemma {:induction false} LeaveAllKeeps(channels: Channels, log: seq<PresenceEvent>, names: seq<Name>, id: Id)
    requires Tidy(channels) && Logged(channels, log)
    requires forall i, j | 0 <= i < j < |names| :: names[i] != names[j]
    ensures Tidy(LeaveAll(channels, names, id)) && Logged(LeaveAll(channels, names, id), log + Leaves(channels, names, id))
    ensures forall n :: MembersOf(LeaveAll(channels, names, id), n) == if n in names then MembersOf(channels, n) - {id} else MembersOf(channels, n)
    ensures forall n | n !in names :: RosterOf(LeaveAll(channels, names, id), n) == RosterOf(channels, n)
    decreases |names|
  {
    if names == [] {
      assert log + [] == log;
    } else {
      var before, name := names[..|names| - 1], names[|names| - 1];
      LeaveAllKeeps(channels, log, before, id);
      var mid := LeaveAll(channels, before, id);
      assert name !in before && names == before + [name];
      LeaveKeeps(mid, log + Leaves(channels, before, id), name, id);
      LastLeaveLogged(channels, log, names, id);
      forall n ensures n in names <==> n in before || n == name {
      }
    }
  }

  lemma LastLeaveLogged(channels: Channels, log: seq<PresenceEvent>, names: seq<Name>, id: Id)
    requires names != []
    requires var before, name := names[..|names| - 1], names[|names| - 1];
             RosterOf(LeaveAll(channels, before, id), name) == RosterOf(channels, name)
    ensures var before, name := names[..|names| - 1], names[|names| - 1];
            LeaveLog(log + Leaves(channels, before, id), LeaveAll(channels, before, id), name, id) == log + Leaves(channels, names, id)
  {
  }

  lemma {:induction false} NothingToLeave(names: seq<Name>, id: Id)
    ensures LeaveAll(map[], names, id) == map[] && Leaves(map[], names, id) == []
    decreases |names|
  {
    if names != [] {
      NothingToLeave(names[..|names| - 1], id);
    }
  }

  lemma RemoveKeepsInv(s: Tables, id: Id, order: seq<Name>)
    requires Inv(s) && id <= s.counter && Lists(order, JoinedBy(s.joined, id))
    ensures Inv(Removed(s, id, order))
  {
    if s.closed {
      NothingToLeave(order, id);
    } else {
      LeaveAllKeeps(s.channels, s.log, order, id);
      var names := JoinedBy(s.joined, id);
      assert names - names == {};
      MutualLeave(s.channels, s.joined, names, id, LeaveAll(s.channels, order, id));
    }
  }

  /** A client that is removed is in no channel and on no roster any more. */
  lemma RemovedIsGone(s: Tables, id: Id, order: seq<Name>)
    requires Inv(s) && id <= s.counter && Lists(order, JoinedBy(s.joined, id))
    ensures var s' := Removed(s, id, order);
            forall n :: MembersOf(s'.channels, n) == MembersOf(s.channels, n) - {id} && id !in RosterOf(s'.channels, n)
  {
    RemoveKeepsInv(s, id, order);
    var s' := Removed(s, id, order);
    if s.closed {
      NothingToLeave(order, id);
    } else {
      LeaveAllKeeps(s.channels, s.log, order, id);
      forall n ensures MembersOf(s'.channels, n) == MembersOf(s.channels, n) - {id} && id !in RosterOf(s'.channels, n) {
        assert id in MembersOf(s.channels, n) <==> n in JoinedBy(s.joined, id);
      }
    }
  }

  /** Every operation of a client that the hub has handed out, and every Add and Close. */
  lemma StepKeepsInv(s: Tables, op: Operation)
    requires Inv(s) && Possible(s, op)
    ensures Inv(Step(s, op))
  {
    match op
    case Add => AddKeepsInv(s);
    case Subscribe(id, name, auth) => SubscribeKeepsInv(s, id, name, auth);
    case Unsubscribe(id, name) => UnsubscribeKeepsInv(s, id, name);
    case Remove(id, order) => RemoveKeepsInv(s, id, order);
    case Close =>
  }

  ghost predicate Run(states: seq<Tables>, ops: seq<Operation>) {
    && |states| == |ops| + 1 && states[0] == EMPTY
    && forall i | 0 <= i < |ops| :: Possible(states[i], ops[i]) && states[i + 1] == Step(states[i], ops[i])
  }

  lemma {:induction false} EveryStateHasInv(states: seq<Tables>, ops: seq<Operation>, i: nat)
    requires Run(states, ops) && i < |states|
    ensures Inv(states[i])
  {
    if i > 0 {
      EveryStateHasInv(states, ops, i - 1);
      StepKeepsInv(states[i - 1], ops[i - 1]);
    }
  }

  /** In every run, whatever the order of operations: a client is among a channel's members exactly
      when the channel is in the client's own set; the roster of a presence channel names exactly
      the members, is what the joins and leaves recorded so far add up to, and no stored channel is
      empty. Once closed the hub holds nobody. */
  lemma TablesAgreeInEveryRun(states: seq<Tables>, ops: seq<Operation>, i: nat, id: Id, name: Name)
    requires Run(states, ops) && i < |states|
    ensures var s := states[i];
            if s.closed then s.clients == {} && s.channels == map[]
            else
              && (id in MembersOf(s.channels, name) <==> name in JoinedBy(s.joined, id))
              && RosterOf(s.channels, name).Keys == (if ClassifyChannel(name) == Presence then MembersOf(s.channels, name) else {})
              && Replay(s.log, name) == Some(RosterOf(s.channels, name))
              && (name in s.channels ==> MembersOf(s.channels, name) != {})
  {
    EveryStateHasInv(states, ops, i);
  }

  lemma {:induction false} CounterGrows(states: seq<Tables>, ops: seq<Operation>, i: nat, j: nat)
    requires Run(states, ops) && i <= j < |states|
    ensures states[i].counter <= states[j].counter
    ensures states[i].closed ==> states[j].closed
    decreases j - i
  {
    if i < j {
      CounterGrows(states, ops, i, j - 1);
    }
  }

  /** Over a run no identity is handed out twice, and after Close none is. */
  lemma IdentitiesAreFresh(states: seq<Tables>, ops: seq<Operation>, i: nat, j: nat)
    requires Run(states, ops) && i < j < |ops| && ops[i].Add? && ops[j].Add?
    ensures !states[j].closed ==> states[i + 1].counter < states[j + 1].counter && states[j + 1].counter !in states[j].joined
    ensures states[i].closed ==> states[j + 1] == states[j]
  {
    CounterGrows(states, ops, i + 1, j);
    CounterGrows(states, ops, i, j);
    EveryStateHasInv(states, ops, j);
  }

  class Hub {
    var clients: set<Id>
    var channels: Channels
    var joined: map<Id, set<Name>>
    var closed: bool
    var counter: nat
    ghost var log: seq<PresenceEvent>

    ghost function Now(): Tables
      reads this
    {
      Tables(clients, channels, joined, closed, counter, log)
    }

    /** What holds at every point where the mutex is free. */
    ghost predicate Valid()
      reads this
    {
      Inv(Now())
    }

    constructor ()
      ensures Valid() && Now() == EMPTY
    {
      clients, channels, joined, closed, counter, log := {}, map[], map[], false, 0, [];
    }

    method Add() returns (id: Option<Id>)
      requires Valid()
      modifies this
      ensures Valid() && Now() == Step(old(Now()), Operation.Add)
      ensures id.None? <==> closed
      ensures id.Some? ==> id.value !in old(clients) && id.value !in old(joined) && clients == old(clients) + {id.value}
      ensures id.Some? ==> id.value == counter
      ensures channels == old(channels) && log == old(log) && closed == old(closed)
    {
      AddKeepsInv(Now());
      if closed {
        return None;
      }
      counter := counter + 1;
      clients := clients + {counter};
      joined := joined[counter := {}];
      return Some(counter);
    }

    method Subscribe(id: Id, name: Name, auth: Option<Member>) returns (r: JoinResult)
      requires Valid() && id <= counter
      modifies this
      ensures Valid() && Now() == Step(old(Now()), Operation.Subscribe(id, name, auth))
      ensures closed == old(closed) && clients == old(clients) && counter == old(counter)
      ensures r == if ClassifyChannel(name) != Public && auth.None? then Unauthorized else if closed then HubClosed else Joined
      ensures r != Joined ==> channels == old(channels) && joined == old(joined) && log == old(log)
      ensures r == Joined ==> forall n :: MembersOf(channels, n) == MembersOf(old(channels), n) + if n == name then {id} else {}
      ensures r == Joined ==>
                log == if ClassifyChannel(name) == Public || id in MembersOf(old(channels), name) then old(log)
                       else JoinLog(old(log), name, id, Identity(id, auth.value))
    {
      SubscribeKeepsInv(Now(), id, name, auth);
      if Answer(Now(), name, auth) == Joined {
        SubscribeMeans(Now(), id, name, auth);
      }
      var typ := ClassifyChannel(name);
      if typ != Public && auth.None? {
        return Unauthorized;
      }
      if closed {
        return HubClosed;
      }
      if id in MembersOf(channels, name) {
        return Joined;
      }
      var member := Member("", 0);
      if typ != Public {
        member := Identity(id, auth.value);
      }
      log := JoinLog(log, name, id, member);
      channels := Join(channels, name, id, member);
      joined := joined[id := JoinedBy(joined, id) + {name}];
      return Joined;
    }

    method Unsubscribe(id: Id, name: Name)
      requires Valid() && id <= counter
      modifies this
      ensures Valid() && Now() == Step(old(Now()), Operation.Unsubscribe(id, name))
      ensures closed == old(closed) && clients == old(clients) && counter == old(counter)
      ensures !closed ==> forall n :: MembersOf(channels, n) == MembersOf(old(channels), n) - if n == name then {id} else {}
      ensures !closed ==> log == LeaveLog(old(log), old(channels), name, id)
    {
      UnsubscribeKeepsInv(Now(), id, name);
      if name !in channels {
        return;
      }
      if id !in channels[name].members {
        return;
      }
      if !closed {
        LeaveKeeps(channels, log, name, id);
      }
      log := LeaveLog(log, channels, name, id);
      channels := Leave(channels, name, id);
      joined := joined[id := JoinedBy(joined, id) - {name}];
    }

    /** A client that disconnects leaves every channel of its own set, in some order, with one leave
        event for each channel it was present in. */
    method Remove(id: Id) returns (ghost order: seq<Name>)
      requires Valid() && id <= counter
      modifies this
      ensures Lists(order, JoinedBy(old(joined), id))
      ensures Valid() && Now() == Step(old(Now()), Operation.Remove(id, order))
      ensures closed == old(closed) && clients == old(clients) - {id} && counter == old(counter)
      ensures forall n :: MembersOf(channels, n) == MembersOf(old(channels), n) - {id}
      ensures forall n :: id !in RosterOf(channels, n)
      ensures log == old(log) + Leaves(old(channels), order, id)
    {
      clients := clients - {id};
      var names := JoinedBy(joined, id);
      joined := joined[id := {}];
      order := [];
      while names != {}
        invariant closed == old(closed) && clients == old(clients) - {id} && counter == old(counter)
        invariant joined == old(joined)[id := {}] && log == old(log)
        invariant PartWalked(order, names, JoinedBy(old(joined), id))
        invariant channels == LeaveAll(old(channels), order, id)
        decreases names
      {
        var name :| name in names;
        channels := Leave(channels, name, id);
        OneMoreLeft(order, names, JoinedBy(old(joined), id), name);
        names, order := names - {name}, order + [name];
      }
      log := log + Leaves(old(channels), order, id);
      RemoveKeepsInv(old(Now()), id, order);
      RemovedIsGone(old(Now()), id, order);
    }

    /** The clients a message goes to. */
    method Broadcast(name: Name, except: Option<Id>) returns (r: Option<set<Id>>)
      requires Valid()
      ensures r.None? <==> closed
      ensures r.Some? ==> forall id :: id in r.value <==> name in JoinedBy(joined, id) && Some(id) != except
    {
      if closed {
        return None;
      }
      MembersHaveJoined(channels, joined, name);
      if name !in channels {
        return Some({});
      }
      return Some(set id | id in channels[name].members && Some(id) != except);
    }

    /** Who is there: on a presence channel the identity of every member, as of its join. */
    method PresenceOf(name: Name) returns (r: Option<map<Id, Member>>)
      requires Valid()
      ensures r.Some? <==> name in channels && ClassifyChannel(name) == Presence
      ensures r.Some? ==> r.value.Keys == MembersOf(channels, name) && Replay(log, name) == r
    {
      if name !in channels || ClassifyChannel(name) != Presence {
        return None;
      }
      return Some(channels[name].roster);
    }

    method Close()
      requires Valid()
      modifies this
      ensures Valid() && Now() == Step(old(Now()), Operation.Close)
      ensures closed
      ensures old(closed) ==> channels == old(channels) && clients == old(clients)
      ensures !old(closed) ==> channels == map[] && clients == {}
    {
      if closed {
        return;
      }
      closed := true;
      clients, channels := {}, map[];
    }
  }

  lemma MembersHaveJoined(channels: Channels, joined: map<Id, set<Name>>, name: Name)
    requires Mutual(channels, joined)
    ensures forall id :: name in JoinedBy(joined, id) <==> id in MembersOf(channels, name)
  {
    forall id ensures name in JoinedBy(joined, id) <==> id in MembersOf(channels, name) {
      assert id in MembersOf(channels, name) <==> name in JoinedBy(joined, id);
    }
  }

  /** The names walked so far and those still to come are all the names, each once. */
  ghost predicate PartWalked(order: seq<Name>, names: set<Name>, all: set<Name>) {
    && (forall n :: n in all <==> n in names || n in order)
    && (forall n | n in order :: n !in names)
    && (forall i, j | 0 <= i < j < |order| :: order[i] != order[j])
  }

  lemma OneMoreLeft(order: seq<Name>, names: set<Name>, all: set<Name>, name: Name)
    requires PartWalked(order, names, all) && name in names
    ensures PartWalked(order + [name], names - {name}, all)
    ensures (order + [name])[..|order|] == order
  {
    assert name !in order;
  }
}
