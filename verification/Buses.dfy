/**
 The job's table of buses: for each bus two producers and four consumers of the message queue.
 updateBus keeps the handles whose configuration is unchanged, opens the others, and closes what it
 replaced. deleteBus closes what belonged to the bus, except its two target consumers.

 A handle is numbered in the order of opening. Opening one may fail at any time. `loose` are the
 handles that are open and not in the table.
 */
module Buses {
  import opened Listings
  import opened Maps
  import opened Wrappers

  datatype Kind = RocketMQ | Unsupported

  datatype Topic = Topic(kind: Kind, endpoints: string, topic: string)

  datatype Mode = Concurrently | Orderly

  datatype BusInfo = BusInfo(
    name: string, mode: Mode, source: Topic, sourceDelay: Topic, targetExpDecay: Topic, targetBackoff: Topic)

  datatype Role =
    | DecayProducer | BackoffProducer
    | DecayConsumer | BackoffConsumer | SourceConsumer | DelayConsumer

  predicate IsProducer(role: Role)
  {
    role.DecayProducer? || role.BackoffProducer?
  }

  function TopicOf(b: BusInfo, role: Role): Topic
  {
    match role
    case DecayProducer => b.targetExpDecay
    case BackoffProducer => b.targetBackoff
    case DecayConsumer => b.targetExpDecay
    case BackoffConsumer => b.targetBackoff
    case SourceConsumer => b.source
    case DelayConsumer => b.sourceDelay
  }

  /** What a handle is opened for. Only consumers are opened for a mode. */
  datatype Purpose = Purpose(bus: string, role: Role, topic: Topic, mode: Option<Mode>)

  datatype Handle = Handle(serial: nat, purpose: Purpose)

  datatype Bus = Bus(info: BusInfo, handles: map<Role, Handle>)

  function PurposeOf(b: BusInfo, role: Role): Purpose
  {
    Purpose(b.name, role, TopicOf(b, role), if IsProducer(role) then None else Some(b.mode))
  }

  /** What the six handles of a bus are opened for: the producers for the retry topics, and a consumer
      for each topic, in the mode of the bus. */
  lemma Purposes(b: BusInfo)
    ensures PurposeOf(b, DecayProducer) == Purpose(b.name, DecayProducer, b.targetExpDecay, None)
    ensures PurposeOf(b, BackoffProducer) == Purpose(b.name, BackoffProducer, b.targetBackoff, None)
    ensures PurposeOf(b, DecayConsumer) == Purpose(b.name, DecayConsumer, b.targetExpDecay, Some(b.mode))
    ensures PurposeOf(b, BackoffConsumer) == Purpose(b.name, BackoffConsumer, b.targetBackoff, Some(b.mode))
    ensures PurposeOf(b, SourceConsumer) == Purpose(b.name, SourceConsumer, b.source, Some(b.mode))
    ensures PurposeOf(b, DelayConsumer) == Purpose(b.name, DelayConsumer, b.sourceDelay, Some(b.mode))
  {
  }

  type Table = map<string, Bus>

  // ---------- the books on handles ----------

  ghost predicate InTable(t: Table, h: Handle)
  {
    && h.purpose.bus in t && h.purpose.role in t[h.purpose.bus].handles
    && t[h.purpose.bus].handles[h.purpose.role] == h
  }

  /** The bus has a handle in the role that was opened for its current configuration. */
  ghost predicate Fits(bus: Bus, ever: seq<Handle>, role: Role)
  {
    && role in bus.handles && bus.handles[role].purpose == PurposeOf(bus.info, role)
    && Known(ever, bus.handles[role])
  }

  ghost predicate BusMatched(bus: Bus, name: string, ever: seq<Handle>)
  {
    && bus.info.name == name
    && (forall role {:trigger bus.handles[role]} {:trigger role in bus.handles} {:trigger Fits(bus, ever, role)} ::
          Fits(bus, ever, role))
  }

  ghost predicate Matched(t: Table, ever: seq<Handle>)
  {
    forall name :: name in t ==> BusMatched(t[name], name, ever)
  }

  ghost predicate Known(ever: seq<Handle>, h: Handle)
  {
    h.serial < |ever| && ever[h.serial] == h
  }

  /** Every handle is in the table, or loose, or was closed once. */
  ghost predicate Accounts(t: Table, ever: seq<Handle>, closes: seq<nat>, loose: set<Handle>)
  {
    && |closes| == |ever|
    && (forall n :: 0 <= n < |ever| ==> ever[n].serial == n)
    && (forall h :: h in loose ==> Known(ever, h) && !InTable(t, h))
    && (forall n :: 0 <= n < |ever| ==> closes[n] == if InTable(t, ever[n]) || ever[n] in loose then 0 else 1)
  }

  ghost function Closed(closes: seq<nat>, h: Handle): seq<nat>
    requires h.serial < |closes|
  {
    closes[h.serial := closes[h.serial] + 1]
  }

  lemma ClosingLoose(t: Table, ever: seq<Handle>, closes: seq<nat>, loose: set<Handle>, h: Handle)
    requires Accounts(t, ever, closes, loose) && h in loose
    ensures Accounts(t, ever, Closed(closes, h), loose - {h})
  {
  }

  lemma OpeningLoose(t: Table, ever: seq<Handle>, closes: seq<nat>, loose: set<Handle>, p: Purpose)
    requires Accounts(t, ever, closes, loose) && Matched(t, ever)
    ensures var h := Handle(|ever|, p);
            Accounts(t, ever + [h], closes + [0], loose + {h}) && Matched(t, ever + [h])
  {
  }

  ghost function HandlesOf(t: Table, name: string): set<Handle>
  {
    if name in t then t[name].handles.Values else {}
  }

  /** Storing a bus: the new handles come from the loose ones or from the bus's own, and those of
      its own that it gives up become loose. */
  lemma StoringBus(t: Table, ever: seq<Handle>, closes: seq<nat>, loose: set<Handle>, b: Bus)
    requires Accounts(t, ever, closes, loose) && Matched(t, ever)
    requires forall role :: role in b.handles && b.handles[role].purpose == PurposeOf(b.info, role)
    requires b.handles.Values <= loose + HandlesOf(t, b.info.name)
    ensures Matched(t[b.info.name := b], ever)
    ensures
      Accounts(t[b.info.name := b], ever, closes, loose + HandlesOf(t, b.info.name) - b.handles.Values)
  {
    var name := b.info.name;
    var u := t[name := b];
    forall role
      ensures Fits(b, ever, role)
    {
      var h := b.handles[role];
      assert h in b.handles.Values;
      if h !in loose {
        var r :| r in t[name].handles && t[name].handles[r] == h;
        assert Fits(t[name], ever, r);
      }
    }
    assert BusMatched(b, name, ever);
    forall h: Handle
      ensures InTable(u, h) <==> if h.purpose.bus == name then h in b.handles.Values else InTable(t, h)
    {
      if h in b.handles.Values {
        var role :| role in b.handles && b.handles[role] == h;
      }
    }
    forall h | h in HandlesOf(t, name)
      ensures InTable(t, h) && h.purpose.bus == name && Known(ever, h)
    {
      var role :| role in t[name].handles && t[name].handles[role] == h;
    }
    forall h: Handle | h.purpose.bus == name && InTable(t, h)
      ensures h in HandlesOf(t, name)
    {
    }
  }

  lemma DeletingBus(t: Table, ever: seq<Handle>, closes: seq<nat>, loose: set<Handle>, name: string)
    requires Accounts(t, ever, closes, loose) && Matched(t, ever) && name in t
    ensures Matched(t - {name}, ever) && Accounts(t - {name}, ever, closes, loose + HandlesOf(t, name))
  {
    forall h: Handle
      ensures h in HandlesOf(t, name) <==> InTable(t, h) && h.purpose.bus == name
    {
      if h in HandlesOf(t, name) {
        var role :| role in t[name].handles && t[name].handles[role] == h;
      }
    }
  }

  /** The handles of a bus are its own, one for each role, and open. */
  lemma HandlesDiffer(t: Table, ever: seq<Handle>, closes: seq<nat>, loose: set<Handle>, name: string)
    requires Accounts(t, ever, closes, loose) && Matched(t, ever) && name in t
    ensures forall role :: role in t[name].handles
    ensures forall h :: h in t[name].handles.Values ==> h !in loose && Known(ever, h) && h.purpose.bus == name
    ensures forall role :: t[name].handles[role].purpose.role == role
    ensures
      var hs := t[name].handles;
      loose + hs.Values - (hs.Values - TargetConsumers(t[name])) == loose + {hs[DecayConsumer], hs[BackoffConsumer]}
  {
    var hs := t[name].handles;
    assert BusMatched(t[name], name, ever);
    forall role: Role
      ensures role in hs && hs[role].purpose.role == role && hs[role].purpose.bus == name && hs[role] !in loose
    {
      assert Fits(t[name], ever, role);
      assert InTable(t, hs[role]);
    }
    forall h | h in hs.Values
      ensures h !in loose && Known(ever, h) && h.purpose.bus == name
    {
      var role :| role in hs && hs[role] == h;
      assert Fits(t[name], ever, role);
    }
  }

  /** Of the handles of a bus that is no longer in the table, the two that have become loose are open. */
  lemma OutOfTable(
    t: Table, ever: seq<Handle>, closes: seq<nat>, was: set<Handle>, hs: map<Role, Handle>, name: string)
    requires name !in t && forall role :: role in hs && hs[role].purpose.role == role
    requires forall h :: h in hs.Values ==> h !in was && Known(ever, h) && h.purpose.bus == name
    requires Accounts(t, ever, closes, was + {hs[DecayConsumer], hs[BackoffConsumer]})
    ensures forall role :: hs[role].serial < |closes|
    ensures closes[hs[DecayProducer].serial] == closes[hs[BackoffProducer].serial] == 1
    ensures closes[hs[SourceConsumer].serial] == closes[hs[DelayConsumer].serial] == 1
    ensures closes[hs[DecayConsumer].serial] == closes[hs[BackoffConsumer].serial] == 0
  {
    forall role: Role
      ensures Known(ever, hs[role]) && hs[role].purpose.bus == name && hs[role] !in was
    {
      assert hs[role] in hs.Values;
    }
  }

  // ---------- building the handles of a bus ----------

  /** The configuration of the bus is new in this role, so a handle has to be opened. */
  ghost predicate Needs(t: Table, b: BusInfo, role: Role)
  {
    b.name in t ==> !Keeps(t[b.name].info, b, role)
  }

  predicate Keeps(was: BusInfo, b: BusInfo, role: Role)
  {
    TopicOf(was, role) == TopicOf(b, role) && (IsProducer(role) || was.mode == b.mode)
  }

  /** A handle is kept exactly if its topic and, for a consumer, the mode of the bus are the same. */
  lemma KeepsUnchanged(was: BusInfo, b: BusInfo)
    ensures Keeps(was, b, DecayProducer) <==> was.targetExpDecay == b.targetExpDecay
    ensures Keeps(was, b, BackoffProducer) <==> was.targetBackoff == b.targetBackoff
    ensures Keeps(was, b, DecayConsumer) <==> was.targetExpDecay == b.targetExpDecay && was.mode == b.mode
    ensures Keeps(was, b, BackoffConsumer) <==> was.targetBackoff == b.targetBackoff && was.mode == b.mode
    ensures Keeps(was, b, SourceConsumer) <==> was.source == b.source && was.mode == b.mode
    ensures Keeps(was, b, DelayConsumer) <==> was.sourceDelay == b.sourceDelay && was.mode == b.mode
  {
  }

  ghost predicate CanOpen(b: BusInfo, role: Role, up: Role -> bool)
  {
    TopicOf(b, role).kind == RocketMQ && up(role)
  }

  lemma Openable(b: BusInfo, up: Role -> bool)
    ensures CanOpen(b, DecayProducer, up) <==> b.targetExpDecay.kind == RocketMQ && up(DecayProducer)
    ensures CanOpen(b, BackoffProducer, up) <==> b.targetBackoff.kind == RocketMQ && up(BackoffProducer)
    ensures CanOpen(b, DecayConsumer, up) <==> b.targetExpDecay.kind == RocketMQ && up(DecayConsumer)
    ensures CanOpen(b, BackoffConsumer, up) <==> b.targetBackoff.kind == RocketMQ && up(BackoffConsumer)
    ensures CanOpen(b, SourceConsumer, up) <==> b.source.kind == RocketMQ && up(SourceConsumer)
    ensures CanOpen(b, DelayConsumer, up) <==> b.sourceDelay.kind == RocketMQ && up(DelayConsumer)
  {
  }

  ghost function Since(ever: seq<Handle>, n: nat): set<Handle>
    requires n <= |ever|
  {
    set h | h in ever[n..]
  }

  /** The handles chosen so far: kept ones of the bus, and all that were opened since n. */
  ghost predicate Building(hs: map<Role, Handle>, t: Table, b: BusInfo, ever: seq<Handle>, n: nat)
  {
    && n <= |ever|
    && (forall role :: role in hs ==>
          && hs[role].purpose == PurposeOf(b, role)
          && if Needs(t, b, role) then hs[role] in Since(ever, n)
             else role in t[b.name].handles && hs[role] == t[b.name].handles[role])
    && Since(ever, n) <= hs.Values
  }

  /** The role needs a handle that cannot be opened. */
  ghost predicate Blocked(t: Table, b: BusInfo, up: Role -> bool, role: Role)
  {
    Needs(t, b, role) && !CanOpen(b, role, up)
  }

  /** Where the choice of handles stops: at the first of the roles that is blocked, or at the end. */
  ghost function Stop(t: Table, b: BusInfo, up: Role -> bool, roles: seq<Role>): (k: nat)
    ensures k <= |roles|
    ensures forall i :: 0 <= i < k ==> !Blocked(t, b, up, roles[i])
    ensures k < |roles| ==> Blocked(t, b, up, roles[k])
  {
    if roles == [] || Blocked(t, b, up, roles[0]) then 0 else 1 + Stop(t, b, up, roles[1..])
  }

  /** The handles opened so far, after one for the role if it needs one. */
  ghost function WithNew(t: Table, b: BusInfo, role: Role, ever: seq<Handle>): seq<Handle>
  {
    if Needs(t, b, role) then ever + [Handle(|ever|, PurposeOf(b, role))] else ever
  }

  /** The handles opened so far, after one for each of the first roles that needs one, in this order. */
  ghost function AfterFirst(k: nat, t: Table, b: BusInfo, roles: seq<Role>, ever: seq<Handle>): seq<Handle>
    requires k <= |roles|
  {
    if k == 0 then ever else WithNew(t, b, roles[k - 1], AfterFirst(k - 1, t, b, roles, ever))
  }

  /** Something is opened exactly if one of the roles needs it. */
  lemma {:induction false} OpenedIffNeeded(k: nat, t: Table, b: BusInfo, roles: seq<Role>, ever: seq<Handle>)
    requires k <= |roles|
    ensures ever <= AfterFirst(k, t, b, roles, ever)
    ensures AfterFirst(k, t, b, roles, ever) != ever <==> exists i :: 0 <= i < k && Needs(t, b, roles[i])
  {
    if k != 0 {
      OpenedIffNeeded(k - 1, t, b, roles, ever);
    }
  }

  lemma BuildingKept(hs: map<Role, Handle>, t: Table, b: BusInfo, ever: seq<Handle>, n: nat, role: Role)
    requires Building(hs, t, b, ever, n) && Matched(t, ever) && role !in hs && !Needs(t, b, role)
    ensures role in t[b.name].handles && Building(hs[role := t[b.name].handles[role]], t, b, ever, n)
  {
    assert t[b.name].info.name == b.name;
    ValuesAfterInsert(hs, role, t[b.name].handles[role]);
  }

  lemma BuildingOpened(hs: map<Role, Handle>, t: Table, b: BusInfo, ever: seq<Handle>, n: nat, role: Role, h: Handle)
    requires Building(hs, t, b, ever, n) && role !in hs && Needs(t, b, role) && h.purpose == PurposeOf(b, role)
    ensures Building(hs[role := h], t, b, ever + [h], n)
    ensures Since(ever + [h], n) == Since(ever, n) + {h}
  {
    ValuesAfterInsert(hs, role, h);
    assert (ever + [h])[n..] == ever[n..] + [h];
  }

  /** Once stored, what was opened for the bus is no longer loose, and what it gave up is. */
  lemma BuiltLoose(
    hs: map<Role, Handle>, t: Table, b: BusInfo, ever: seq<Handle>, closes: seq<nat>, n: nat, loose: set<Handle>)
    requires Building(hs, t, b, ever, n) && Accounts(t, ever, closes, loose + Since(ever, n))
    requires forall h :: h in loose ==> h.serial < n
    ensures hs.Values <= loose + Since(ever, n) + HandlesOf(t, b.name)
    ensures loose + Since(ever, n) + HandlesOf(t, b.name) - hs.Values == loose + (HandlesOf(t, b.name) - hs.Values)
  {
    forall h | h in hs.Values
      ensures h in Since(ever, n) || h in HandlesOf(t, b.name)
    {
      var role :| role in hs && hs[role] == h;
    }
    forall role | role in hs
      ensures hs[role] !in loose
    {
      assert hs[role] in Since(ever, n) || InTable(t, hs[role]);
    }
  }

  const ORDER: seq<Role> :=
    [DecayProducer, BackoffProducer, DecayConsumer, BackoffConsumer, SourceConsumer, DelayConsumer]

  lemma InOrder(role: Role)
    ensures role in ORDER
  {
    match role
    case DecayProducer => assert ORDER[0] == role;
    case BackoffProducer => assert ORDER[1] == role;
    case DecayConsumer => assert ORDER[2] == role;
    case BackoffConsumer => assert ORDER[3] == role;
    case SourceConsumer => assert ORDER[4] == role;
    case DelayConsumer => assert ORDER[5] == role;
  }

  lemma NumbersFit(t: Table, ever: seq<Handle>, closes: seq<nat>, loose: set<Handle>)
    requires Accounts(t, ever, closes, loose)
    ensures forall n :: 0 <= n < |ever| ==> ever[n].serial == n
  {
  }

  lemma LooseIsOlder(t: Table, ever: seq<Handle>, closes: seq<nat>, loose: set<Handle>, later: seq<Handle>)
    requires Accounts(t, ever, closes, loose) && ever <= later
    requires forall n :: 0 <= n < |later| ==> later[n].serial == n
    ensures forall h :: h in loose ==> h.serial < |ever|
    ensures loose + Since(later, |ever|) - Since(later, |ever|) == loose
  {
    forall h | h in Since(later, |ever|)
      ensures |ever| <= h.serial
    {
      var i :| 0 <= i < |later[|ever|..]| && later[|ever|..][i] == h;
      assert later[|ever| + i] == h;
    }
  }

  lemma KeptByBuilding(hs: map<Role, Handle>, t: Table, b: BusInfo, ever: seq<Handle>, n: nat)
    requires Building(hs, t, b, ever, n) && forall role :: role in hs
    requires forall i :: 0 <= i < |ever| ==> ever[i].serial == i
    ensures KeptUnchanged(t, t[b.name := Bus(b, hs)], b, n)
  {
    forall role
      ensures KeptAt(t, hs, b, n, role)
    {
      if Needs(t, b, role) {
        var i :| 0 <= i < |ever[n..]| && ever[n..][i] == hs[role];
        assert ever[n + i] == hs[role];
      }
    }
  }

  lemma BlockedIfStopped(t: Table, b: BusInfo, up: Role -> bool)
    ensures Stop(t, b, up, ORDER) == |ORDER| <==> forall role :: Needs(t, b, role) ==> CanOpen(b, role, up)
  {
    if Stop(t, b, up, ORDER) == |ORDER| {
      forall role | Needs(t, b, role)
        ensures CanOpen(b, role, up)
      {
        InOrder(role);
        var i :| 0 <= i < |ORDER| && ORDER[i] == role;
        assert !Blocked(t, b, up, ORDER[i]);
      }
    } else {
      assert Blocked(t, b, up, ORDER[Stop(t, b, up, ORDER)]);
    }
  }

  /** Handles that are opened later are not among the loose ones yet. */
  lemma OpenedIsNew(t: Table, ever: seq<Handle>, closes: seq<nat>, loose: set<Handle>, later: seq<Handle>)
    requires Accounts(t, ever, closes, loose) && ever <= later
    requires forall n :: 0 <= n < |later| ==> later[n].serial == n
    ensures loose + Since(later, |ever|) != loose <==> |ever| < |later|
  {
    if |ever| < |later| {
      var h := later[|ever|];
      assert later[|ever|..][0] == h;
      assert h in Since(later, |ever|) && h !in loose;
    } else {
      assert Since(later, |ever|) == {};
    }
  }

  datatype Books = Books(ever: seq<Handle>, closes: seq<nat>, loose: set<Handle>)

  class Buses {
    var buses: Table
    var serial: nat
    ghost var ever: seq<Handle>
    ghost var closes: seq<nat>
    ghost var loose: set<Handle>

    /** Each bus in the table holds open handles of its own that were opened for its current
        configuration; every other handle is loose or was closed once. */
    ghost predicate Valid()
      reads this
    {
      serial == |ever| && Matched(buses, ever) && Accounts(buses, ever, closes, loose)
    }

    constructor ()
      ensures Valid() && buses == map[] && loose == {}
    {
      buses, serial, ever, closes, loose := map[], 0, [], [], {};
    }

    /** newMQProducer and newMQConsumer */
    method Open(b: BusInfo, role: Role, up: Role -> bool) returns (h: Option<Handle>)
      requires Valid()
      modifies `serial, `ever, `closes, `loose
      ensures Valid()
      ensures h.Some? <==> CanOpen(b, role, up)
      ensures h.Some? ==> h.value == Handle(|old(ever)|, PurposeOf(b, role)) && ever == old(ever) + [h.value]
      ensures h.Some? ==> closes == old(closes) + [0] && loose == old(loose) + {h.value}
      ensures h == None ==> ever == old(ever) && closes == old(closes) && loose == old(loose)
    {
      if TopicOf(b, role).kind != RocketMQ || !up(role) {
        return None;
      }
      OpeningLoose(buses, ever, closes, loose, PurposeOf(b, role));
      var made := Handle(serial, PurposeOf(b, role));
      serial, ever, closes, loose := serial + 1, ever + [made], closes + [0], loose + {made};
      h := Some(made);
    }

    /** Since then nothing but the opening of some handles has happened; they are still loose. */
    ghost predicate OnlyOpened(was: Books)
      reads `ever, `closes, `loose
    {
      && was.ever <= ever && was.closes <= closes
      && loose == was.loose + Since(ever, |was.ever|)
    }

    ghost predicate Choosing(was: Books, b: BusInfo, hs: map<Role, Handle>)
      reads this
    {
      Valid() && OnlyOpened(was) && Building(hs, buses, b, ever, |was.ever|)
    }

    method ChooseNew(b: BusInfo, role: Role, up: Role -> bool, hs: map<Role, Handle>, ghost was: Books)
      returns (ok: bool, all: map<Role, Handle>)
      requires Choosing(was, b, hs) && role !in hs && Needs(buses, b, role)
      modifies `serial, `ever, `closes, `loose
      ensures ok ==> Choosing(was, b, all) && all.Keys == hs.Keys + {role}
      ensures !ok ==> Valid() && OnlyOpened(was) && !CanOpen(b, role, up) && ever == old(ever)
      ensures ok ==> CanOpen(b, role, up) && ever == WithNew(buses, b, role, old(ever))
    {
      var h := Open(b, role, up);
      if h.None? {
        return false, hs;
      }
      BuildingOpened(hs, buses, b, old(ever), |was.ever|, role, h.value);
      all := hs[role := h.value];
      ok := true;
    }

    lemma ChoosingKept(b: BusInfo, role: Role, hs: map<Role, Handle>, was: Books)
      requires Choosing(was, b, hs) && role !in hs && !Needs(buses, b, role)
      ensures role in buses[b.name].handles && Choosing(was, b, hs[role := buses[b.name].handles[role]])
    {
      BuildingKept(hs, buses, b, ever, |was.ever|, role);
    }

    /** The handle of the bus in a role: the one it has, or a new one. */
    method Choose(b: BusInfo, role: Role, up: Role -> bool, hs: map<Role, Handle>, ghost was: Books)
      returns (ok: bool, all: map<Role, Handle>)
      requires Choosing(was, b, hs) && role !in hs
      modifies `serial, `ever, `closes, `loose
      ensures ok ==> Choosing(was, b, all) && all.Keys == hs.Keys + {role}
      ensures !ok ==> Valid() && OnlyOpened(was) && Blocked(buses, b, up, role) && ever == old(ever)
      ensures ok ==> !Blocked(buses, b, up, role)
      ensures ok ==> ever == WithNew(buses, b, role, old(ever))
    {
      hide Valid, OnlyOpened, Building, Choosing, CanOpen;
      if b.name in buses && Keeps(buses[b.name].info, b, role) {
        ChoosingKept(b, role, hs, was);
        return true, hs[role := buses[b.name].handles[role]];
      }
      ok, all := ChooseNew(b, role, up, hs, was);
    }

    /** Chooses the handles in these roles, one after the other, until one cannot be opened. */
    method ChooseEach(b: BusInfo, up: Role -> bool, roles: seq<Role>, ghost was: Books)
      returns (ok: bool, hs: map<Role, Handle>)
      requires Choosing(was, b, map[]) && NoRepeats(roles)
      modifies `serial, `ever, `closes, `loose
      ensures Valid() && OnlyOpened(was)
      ensures ok ==> Choosing(was, b, hs) && forall i :: 0 <= i < |roles| ==> roles[i] in hs
      ensures
        var k := Stop(buses, b, up, roles);
        (ok <==> k == |roles|) && ever == AfterFirst(k, buses, b, roles, old(ever))
    {
      hide Valid, Choosing, OnlyOpened, Blocked, WithNew, Stop;
      ghost var k := Stop(buses, b, up, roles);
      hs := map[];
      for i := 0 to |roles|
        invariant i <= k && Choosing(was, b, hs)
        invariant forall j :: 0 <= j < |roles| ==> (roles[j] in hs <==> j < i)
        invariant ever == AfterFirst(i, buses, b, roles, old(ever))
      {
        ok, hs := Choose(b, roles[i], up, hs, was);
        if !ok {
          return;
        }
      }
      ChoosingIsValid(was, b, hs);
      ok := true;
    }

    lemma ChoosingIsValid(was: Books, b: BusInfo, hs: map<Role, Handle>)
      requires Choosing(was, b, hs)
      ensures Valid() && OnlyOpened(was)
    {
    }

    /** Chooses the handles in all roles. The source spells out the six steps, in this order. */
    method ChooseAll(b: BusInfo, up: Role -> bool, ghost was: Books) returns (ok: bool, hs: map<Role, Handle>)
      requires Choosing(was, b, map[])
      modifies `serial, `ever, `closes, `loose
      ensures Valid() && OnlyOpened(was)
      ensures ok ==> Choosing(was, b, hs) && forall role :: role in hs
      ensures
        var k := Stop(buses, b, up, ORDER);
        (ok <==> k == |ORDER|) && ever == AfterFirst(k, buses, b, ORDER, old(ever))
    {
      hide Valid, Choosing, OnlyOpened, Stop, AfterFirst;
      ok, hs := ChooseEach(b, up, ORDER, was);
      forall role | ok
        ensures role in hs
      {
        InOrder(role);
        var i :| 0 <= i < |ORDER| && ORDER[i] == role;
      }
    }

    /** Closes handles that are out of use, in any order. */
    method CloseAll(hs: set<Handle>)
      requires Valid() && hs <= loose
      modifies `closes, `loose
      ensures Valid() && loose == old(loose) - hs
    {
      var todo := hs;
      while todo != {}
        invariant todo <= hs && Valid() && loose == old(loose) - (hs - todo)
        decreases todo
      {
        var h :| h in todo;
        ClosingLoose(buses, ever, closes, loose, h);
        closes, loose := Closed(closes, h), loose - {h};
        todo := todo - {h};
      }
    }

    /** Stores the bus with its new handles and closes those that it had and does not keep. */
    method Replace(b: BusInfo, hs: map<Role, Handle>, ghost n: nat)
      requires Valid() && Building(hs, buses, b, ever, n) && forall role :: role in hs
      requires Since(ever, n) <= loose && forall h :: h in loose - Since(ever, n) ==> h.serial < n
      modifies `buses, `closes, `loose
      ensures Valid() && buses == old(buses)[b.name := Bus(b, hs)]
      ensures loose == old(loose) - Since(ever, n)
    {
      ghost var loose0 := loose - Since(ever, n);
      assert loose == loose0 + Since(ever, n);
      BuiltLoose(hs, buses, b, ever, closes, n, loose0);
      StoringBus(buses, ever, closes, loose, Bus(b, hs));
      var dropped := if b.name in buses then buses[b.name].handles.Values - hs.Values else {};
      buses := buses[b.name := Bus(b, hs)];
      loose := loose0 + dropped;
      CloseAll(dropped);
    }

    ghost function Now(): Books
      reads `ever, `closes, `loose
    {
      Books(ever, closes, loose)
    }

    /** Adds or updates a bus. It succeeds exactly if all the handles whose configuration is new can
        be opened; then the bus keeps the others, and each handle it gives up is closed. If it fails
        the table is as it was. It has stopped at the first role that was blocked, and what was opened
        for the roles before it stays open with no one to close it: something does exactly if one of
        them needed a handle. */
    method UpdateBus(b: BusInfo, up: Role -> bool) returns (ok: bool)
      requires Valid()
      modifies this
      ensures Valid()
      ensures ok <==> forall role :: Needs(old(buses), b, role) ==> CanOpen(b, role, up)
      ensures ok ==> b.name in buses && buses == old(buses)[b.name := buses[b.name]] && buses[b.name].info == b
      ensures ok ==> loose == old(loose) && Configured(b, buses[b.name].handles)
      ensures ok && b.name in old(buses) ==>
        && (forall role :: role in old(buses)[b.name].handles && role in buses[b.name].handles)
        && KeepsByField(old(buses)[b.name].info, old(buses)[b.name].handles, b, buses[b.name].handles)
        && GivenUpAreClosed(old(buses)[b.name].handles, buses[b.name].handles, closes)
      ensures !ok ==> buses == old(buses) && OnlyOpened(old(Now()))
      ensures
        var roles := [DecayProducer, BackoffProducer, DecayConsumer, BackoffConsumer, SourceConsumer, DelayConsumer];
        var k := Stop(old(buses), b, up, roles);
        && (ok <==> k == |roles|)
        && ever == AfterFirst(k, old(buses), b, roles, old(ever))
        && (!ok ==> (loose != old(loose) <==> exists i :: 0 <= i < k && Needs(old(buses), b, roles[i])))
    {
      hide Valid, Matched, Accounts, Stop, AfterFirst, Needs, CanOpen;
      hide Building, Since, Choosing, OnlyOpened, KeptUnchanged;
      hide Configured, KeepsByField, GivenUpAreClosed;
      ghost var k, was := Stop(buses, b, up, ORDER), Now();
      OpenedIffNeeded(k, buses, b, ORDER, ever);
      BlockedIfStopped(buses, b, up);
      StartChoosing(b);
      var hs;
      ok, hs := ChooseAll(b, up, was);
      WhatIsLoose(old(buses), was);
      if ok {
        ReadyToStore(b, hs, was);
        Replace(b, hs, |was.ever|);
        StoredFits(b.name);
        if b.name in old(buses) {
          KeptIsByField(old(buses), was.ever, buses, b, |was.ever|);
          ReplacedOnce(old(buses), was.ever, was.closes, was.loose, buses, ever, closes, b.name);
        }
      }
    }

    lemma StoredFits(name: string)
      requires Valid() && name in buses
      ensures Configured(buses[name].info, buses[name].handles) && Accounts(buses, ever, closes, loose)
    {
      MatchedIsConfigured(buses, ever, name);
    }

    lemma StartChoosing(b: BusInfo)
      requires Valid()
      ensures Choosing(Now(), b, map[]) && Accounts(buses, ever, closes, loose) && Matched(buses, ever)
    {
      assert Since(ever, |ever|) == {};
    }

    lemma WhatIsLoose(t: Table, was: Books)
      requires Valid() && OnlyOpened(was) && Accounts(t, was.ever, was.closes, was.loose)
      ensures loose - Since(ever, |was.ever|) == was.loose && was.ever <= ever
      ensures loose != was.loose <==> ever != was.ever
    {
      NumbersFit(buses, ever, closes, loose);
      LooseIsOlder(t, was.ever, was.closes, was.loose, ever);
      OpenedIsNew(t, was.ever, was.closes, was.loose, ever);
    }

    lemma ReadyToStore(b: BusInfo, hs: map<Role, Handle>, was: Books)
      requires Choosing(was, b, hs) && Accounts(buses, was.ever, was.closes, was.loose)
      requires forall role :: role in hs
      ensures Building(hs, buses, b, ever, |was.ever|) && Since(ever, |was.ever|) <= loose
      ensures forall h :: h in loose - Since(ever, |was.ever|) ==> h.serial < |was.ever|
      ensures KeptUnchanged(buses, buses[b.name := Bus(b, hs)], b, |was.ever|)
    {
      NumbersFit(buses, ever, closes, loose);
      KeptByBuilding(hs, buses, b, ever, |was.ever|);
      LooseIsOlder(buses, was.ever, was.closes, was.loose, ever);
    }

    /** Deletes a bus. Of its six handles the two producers and the two source consumers are closed, and
        the two target consumers stay open with no one to close them. */
    method DeleteBus(name: string)
      requires Valid()
      modifies this
      ensures Valid() && buses == old(buses) - {name} && ever == old(ever)
      ensures name !in old(buses) ==> loose == old(loose) && closes == old(closes)
      ensures name in old(buses) ==>
        var hs := old(buses)[name].handles;
        && (forall role :: role in hs && hs[role].serial < |closes|)
        && loose == old(loose) + {hs[DecayConsumer], hs[BackoffConsumer]}
        && closes[hs[DecayProducer].serial] == closes[hs[BackoffProducer].serial] == 1
        && closes[hs[SourceConsumer].serial] == closes[hs[DelayConsumer].serial] == 1
        && closes[hs[DecayConsumer].serial] == closes[hs[BackoffConsumer].serial] == 0
    {
      hide Accounts, Matched, TargetConsumers;
      if name !in buses {
        assert buses - {name} == buses;
        return;
      }
      var bus := buses[name];
      HandlesDiffer(buses, ever, closes, loose, name);
      DeletingBus(buses, ever, closes, loose, name);
      ghost var was := loose;
      var closing := bus.handles.Values - TargetConsumers(bus);
      buses := buses - {name};
      loose := loose + bus.handles.Values;
      CloseAll(closing);
      OutOfTable(buses, ever, closes, was, bus.handles, name);
    }

    /** Send goes through an open producer that was opened for the topic it is sent to: the one that
        the retry strategy of the event selects. */
    method Send(name: string, backoff: bool) returns (sent: Option<(Handle, Topic)>)
      requires Valid()
      ensures sent.Some? <==> name in buses
      ensures sent.Some? ==>
        var (h, topic) := sent.value;
        && h.purpose == PurposeOf(buses[name].info, if backoff then BackoffProducer else DecayProducer)
        && h.purpose.topic == topic && h.serial < |closes| && closes[h.serial] == 0
    {
      if name !in buses {
        return None;
      }
      var bus := buses[name];
      if backoff {
        sent := Some((bus.handles[BackoffProducer], bus.info.targetBackoff));
      } else {
        sent := Some((bus.handles[DecayProducer], bus.info.targetExpDecay));
      }
      assert InTable(buses, sent.value.0);
    }
  }

  /** Exactly the roles whose configuration is unchanged keep their handle; others have a new one. */
  ghost predicate KeptUnchanged(t: Table, u: Table, b: BusInfo, n: nat)
    requires b.name in u
  {
    forall role :: KeptAt(t, u[b.name].handles, b, n, role)
  }

  ghost predicate KeptAt(t: Table, hs: map<Role, Handle>, b: BusInfo, n: nat, role: Role)
  {
    && role in hs
    && if Needs(t, b, role) then n <= hs[role].serial
       else role in t[b.name].handles && hs[role] == t[b.name].handles[role]
  }

  /** The six handles of a bus fit its configuration, field by field. */
  ghost predicate Configured(b: BusInfo, hs: map<Role, Handle>)
  {
    && (forall role :: role in hs && hs[role].purpose.bus == b.name && hs[role].purpose.role == role)
    && hs[DecayProducer].purpose.topic == hs[DecayConsumer].purpose.topic == b.targetExpDecay
    && hs[BackoffProducer].purpose.topic == hs[BackoffConsumer].purpose.topic == b.targetBackoff
    && hs[SourceConsumer].purpose.topic == b.source && hs[DelayConsumer].purpose.topic == b.sourceDelay
    && hs[DecayProducer].purpose.mode == hs[BackoffProducer].purpose.mode == None
    && hs[DecayConsumer].purpose.mode == hs[BackoffConsumer].purpose.mode == Some(b.mode)
    && hs[SourceConsumer].purpose.mode == hs[DelayConsumer].purpose.mode == Some(b.mode)
  }

  /** A role has the handle it had exactly if the fields it depends on are the same. */
  ghost predicate KeepsByField(was: BusInfo, had: map<Role, Handle>, b: BusInfo, has: map<Role, Handle>)
    requires forall role :: role in had && role in has
  {
    && (has[DecayProducer] == had[DecayProducer] <==> was.targetExpDecay == b.targetExpDecay)
    && (has[BackoffProducer] == had[BackoffProducer] <==> was.targetBackoff == b.targetBackoff)
    && (has[DecayConsumer] == had[DecayConsumer] <==> was.targetExpDecay == b.targetExpDecay && was.mode == b.mode)
    && (has[BackoffConsumer] == had[BackoffConsumer] <==> was.targetBackoff == b.targetBackoff && was.mode == b.mode)
    && (has[SourceConsumer] == had[SourceConsumer] <==> was.source == b.source && was.mode == b.mode)
    && (has[DelayConsumer] == had[DelayConsumer] <==> was.sourceDelay == b.sourceDelay && was.mode == b.mode)
  }

  lemma MatchedIsConfigured(t: Table, ever: seq<Handle>, name: string)
    requires Matched(t, ever) && name in t
    ensures Configured(t[name].info, t[name].handles)
  {
    Purposes(t[name].info);
    assert BusMatched(t[name], name, ever);
    assert forall role :: Fits(t[name], ever, role);
  }

  /** A handle that a role had was closed once, unless the role still has it. */
  ghost predicate GivenUpAreClosed(had: map<Role, Handle>, has: map<Role, Handle>, closes: seq<nat>)
    requires forall role :: role in had && role in has
  {
    forall role :: had[role].serial < |closes| && closes[had[role].serial] == if has[role] == had[role] then 0 else 1
  }

  lemma ReplacedOnce(
    t: Table, before: seq<Handle>, was: seq<nat>, loose: set<Handle>,
    u: Table, ever: seq<Handle>, closes: seq<nat>, name: string)
    requires Accounts(t, before, was, loose) && Matched(t, before) && name in t
    requires Accounts(u, ever, closes, loose) && name in u && before <= ever
    requires forall role :: role in t[name].handles && role in u[name].handles
    ensures GivenUpAreClosed(t[name].handles, u[name].handles, closes)
  {
    HandlesDiffer(t, before, was, loose, name);
    forall role: Role
      ensures var h := t[name].handles[role];
              h.serial < |closes| && closes[h.serial] == if u[name].handles[role] == h then 0 else 1
    {
      var h := t[name].handles[role];
      assert h in t[name].handles.Values && h.purpose.role == role;
      assert ever[h.serial] == h;
    }
  }

  lemma KeptIsByField(t: Table, ever: seq<Handle>, u: Table, b: BusInfo, n: nat)
    requires Matched(t, ever) && b.name in t && n == |ever| && b.name in u && KeptUnchanged(t, u, b, n)
    ensures forall role :: role in t[b.name].handles && role in u[b.name].handles
    ensures KeepsByField(t[b.name].info, t[b.name].handles, b, u[b.name].handles)
  {
    KeepsUnchanged(t[b.name].info, b);
    assert BusMatched(t[b.name], b.name, ever);
    forall role: Role
      ensures role in t[b.name].handles && role in u[b.name].handles
      ensures u[b.name].handles[role] == t[b.name].handles[role] <==> Keeps(t[b.name].info, b, role)
    {
      assert Fits(t[b.name], ever, role);
      assert KeptAt(t, u[b.name].handles, b, n, role);
    }
  }

  function TargetConsumers(bus: Bus): set<Handle>
  {
    set role | role in bus.handles && (role == DecayConsumer || role == BackoffConsumer) :: bus.handles[role]
  }
}
