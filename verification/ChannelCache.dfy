/** The channel cache shared by all tasks of the agent (src/client/mod.rs). Every `await` on
    one of the client's locks is a point where tasks interleave; between two of them a task
    runs undisturbed, so each such stretch is one step here. */
module ChannelCache {
  import opened Base

  /** A channel remembers the address it was built for and the certificate's generation. */
  datatype Channel = Channel(addr: string, generation: nat)

  datatype Task =
    | GetWaiting                                // awaits the channel lock
    | GetHolding                                // holds it, awaits the SVID
    | GetChecked                                // holds it and the SVID, awaits the target
    | GetBuilding(addr: string, generation: nat)  // holds the channel lock, builds
    | GetDone(channel: Channel)
    | GetFailed
    | RetargetWaiting(addr: string)             // awaits the target lock
    | RetargetClearing(addr: string, index: nat)  // holds it, has set the target, awaits the channel lock
    | RetargetDone(addr: string, index: nat)

  /** The client's fields and locks, the tasks, and the addresses that were the target earlier. */
  datatype Client = Client(
    target: string,
    channel: Option<Channel>,
    lastGeneration: nat,
    svidGeneration: nat,
    channelLock: Option<nat>,
    targetLock: Option<nat>,
    tasks: map<nat, Task>,
    earlier: seq<string>)

  /** Every target so far, the current one last. */
  function Log(c: Client): (r: seq<string>)
    ensures |r| == |c.earlier| + 1
  {
    c.earlier + [c.target]
  }

  datatype Step =
    | StartGet(id: nat)
    | StartRetarget(id: nat, addr: string)
    | Move(id: nat, built: bool)   // a task's next stretch; `built` is what building comes to
    | Rotate(generation: nat)

  function Start(target: string, generation: nat): Client {
    Client(target, None, 0, generation, None, None, map[], [])
  }

  predicate HoldsChannel(t: Task) { t.GetHolding? || t.GetChecked? || t.GetBuilding? }

  predicate Finished(t: Task) { t.GetDone? || t.GetFailed? || t.RetargetDone? }

  /** The rotation check: a newer SVID drops the cached channel. */
  function Checked(c: Client): Client {
    if c.svidGeneration > c.lastGeneration then c.(lastGeneration := c.svidGeneration, channel := None) else c
  }

  /** A task's next stretch, or nothing while the lock it awaits is held. */
  function MoveTask(c: Client, id: nat, built: bool): Option<Client>
    requires id in c.tasks
  {
    match c.tasks[id]
    case GetWaiting =>
      if c.channelLock.None? then Some(c.(channelLock := Some(id), tasks := c.tasks[id := GetHolding])) else None
    case GetHolding =>
      var d := Checked(c);
      if d.channel.Some? then Some(d.(channelLock := None, tasks := d.tasks[id := GetDone(d.channel.value)]))
      else Some(d.(tasks := d.tasks[id := GetChecked]))
    case GetChecked =>
      if c.targetLock.None? then Some(c.(tasks := c.tasks[id := GetBuilding(c.target, c.svidGeneration)])) else None
    case GetBuilding(addr, generation) =>
      if built then
        var channel := Channel(addr, generation);
        Some(c.(channel := Some(channel), channelLock := None, tasks := c.tasks[id := GetDone(channel)]))
      else Some(c.(channelLock := None, tasks := c.tasks[id := GetFailed]))
    case RetargetWaiting(addr) =>
      if c.targetLock.Some? then None
      else if c.target == addr then Some(c.(tasks := c.tasks[id := RetargetDone(addr, |c.earlier|)]))
      else
        var clearing := RetargetClearing(addr, |c.earlier| + 1);
        Some(c.(target := addr, earlier := Log(c), targetLock := Some(id), tasks := c.tasks[id := clearing]))
    case RetargetClearing(addr, index) =>
      if c.channelLock.None? then Some(c.(channel := None, targetLock := None,
        tasks := c.tasks[id := RetargetDone(addr, index)])) else None
    case _ => None
  }

  /** Rotation takes the SVID's write lock, so it waits for a task that holds the SVID. */
  predicate SvidFree(c: Client) { forall id | id in c.tasks :: !c.tasks[id].GetChecked? }

  function Next(c: Client, step: Step): Option<Client> {
    match step
    case StartGet(id) => if id in c.tasks then None else Some(c.(tasks := c.tasks[id := GetWaiting]))
    case StartRetarget(id, addr) => if id in c.tasks then None
      else Some(c.(tasks := c.tasks[id := RetargetWaiting(addr)]))
    case Move(id, built) => if id in c.tasks then MoveTask(c, id, built) else None
    case Rotate(generation) => if SvidFree(c) && generation >= c.svidGeneration
      then Some(c.(svidGeneration := generation)) else None
  }

  // ---------------------------------------------------------------- the invariant

  /** Locks are held by exactly the tasks that are past them. */
  ghost predicate Locks(c: Client) {
    && (forall id | id in c.tasks :: HoldsChannel(c.tasks[id]) <==> c.channelLock == Some(id))
    && (forall id | id in c.tasks :: c.tasks[id].RetargetClearing? <==> c.targetLock == Some(id))
    && (c.channelLock.Some? ==> c.channelLock.value in c.tasks)
    && (c.targetLock.Some? ==> c.targetLock.value in c.tasks)
  }

  /** The last certificate generation seen is current while a task holds the SVID, and is the
      generation of a cached channel and of one being built. */
  ghost predicate Generations(c: Client) {
    && c.lastGeneration <= c.svidGeneration
    && (c.channel.Some? ==> c.channel.value.generation == c.lastGeneration)
    && (forall id | id in c.tasks && c.tasks[id].GetChecked? :: c.lastGeneration == c.svidGeneration && c.channel.None?)
    && (forall id | id in c.tasks && c.tasks[id].GetBuilding? ::
         c.tasks[id].generation == c.lastGeneration && c.channel.None?)
  }

  /** Which target channels are for: the current one, or while a retarget is between setting
      the target and clearing the cache, the one before it. */
  function Served(c: Client): int { if c.targetLock.Some? then |c.earlier| - 1 else |c.earlier| }

  ghost predicate ForServed(c: Client, addr: string) { 0 <= Served(c) && addr == Log(c)[Served(c)] }

  ghost predicate Addresses(c: Client) {
    && 0 <= Served(c)
    && (c.channel.Some? ==> ForServed(c, c.channel.value.addr))
    && (forall id | id in c.tasks && c.tasks[id].GetBuilding? :: ForServed(c, c.tasks[id].addr))
  }

  /** Retargets know the place of their address in the log. */
  ghost predicate Places(c: Client) {
    && (forall id | id in c.tasks && c.tasks[id].RetargetClearing? ::
         c.tasks[id].index == |c.earlier| && c.tasks[id].addr == c.target)
    && (forall id | id in c.tasks && c.tasks[id].RetargetDone? ::
         c.tasks[id].index <= Served(c) && Log(c)[c.tasks[id].index] == c.tasks[id].addr)
  }

  ghost predicate Good(c: Client) { Locks(c) && Generations(c) && Addresses(c) && Places(c) }

  lemma MoveLocks(c: Client, id: nat, built: bool)
    requires Locks(c) && id in c.tasks && MoveTask(c, id, built).Some?
    ensures Locks(MoveTask(c, id, built).value)
  {
  }

  lemma MoveGenerations(c: Client, id: nat, built: bool)
    requires Locks(c) && Generations(c) && id in c.tasks && MoveTask(c, id, built).Some?
    ensures Generations(MoveTask(c, id, built).value)
  {
  }

  lemma MoveAddresses(c: Client, id: nat, built: bool)
    requires Locks(c) && Addresses(c) && Generations(c) && id in c.tasks && MoveTask(c, id, built).Some?
    ensures Addresses(MoveTask(c, id, built).value)
  {
  }

  lemma MovePlaces(c: Client, id: nat, built: bool)
    requires Locks(c) && Addresses(c) && Places(c) && id in c.tasks && MoveTask(c, id, built).Some?
    ensures Places(MoveTask(c, id, built).value)
  {
  }

  lemma OtherStep(c: Client, step: Step)
    requires Good(c) && !step.Move? && Next(c, step).Some?
    ensures Good(Next(c, step).value)
  {
  }

  lemma GoodStep(c: Client, step: Step)
    requires Good(c) && Next(c, step).Some?
    ensures Good(Next(c, step).value)
  {
    hide MoveTask, Locks, Generations, Addresses, Places;
    if step.Move? {
      MoveLocks(c, step.id, step.built);
      MoveGenerations(c, step.id, step.built);
      MoveAddresses(c, step.id, step.built);
      MovePlaces(c, step.id, step.built);
    } else {
      OtherStep(c, step);
    }
  }

  // ---------------------------------------------------------------- runs

  ghost predicate Run(states: seq<Client>, steps: seq<Step>) {
    && |states| == |steps| + 1
    && (forall i | 0 <= i < |steps| :: Next(states[i], steps[i]) == Some(states[i + 1]))
    && exists target, generation :: states[0] == Start(target, generation)
  }

  lemma {:induction false} Reachable(states: seq<Client>, steps: seq<Step>, i: nat)
    requires Run(states, steps) && i < |states|
    ensures Good(states[i])
  {
    hide Good, Next;
    if i == 0 {
      var target, generation :| states[0] == Start(target, generation);
      StartGood(target, generation);
    } else {
      Reachable(states, steps, i - 1);
      assert Next(states[i - 1], steps[i - 1]) == Some(states[i]);
      GoodStep(states[i - 1], steps[i - 1]);
    }
  }

  lemma StartGood(target: string, generation: nat)
    ensures Good(Start(target, generation))
  {
  }

  /** Under any interleaving of any number of tasks and rotations, a cached channel was built
      with the certificate of the last generation seen. */
  lemma CertificateOfCache(states: seq<Client>, steps: seq<Step>, i: nat)
    requires Run(states, steps) && i < |states| && states[i].channel.Some?
    ensures states[i].channel.value.generation == states[i].lastGeneration
  {
    Reachable(states, steps, i);
  }

  /** A channel taken from the cache carries the certificate that is current at that moment. */
  lemma CertificateHandedOut(states: seq<Client>, steps: seq<Step>, i: nat, id: nat)
    requires Run(states, steps) && i < |steps| && id in states[i].tasks && id in states[i + 1].tasks
    requires states[i].tasks[id].GetHolding? && states[i + 1].tasks[id].GetDone?
    ensures states[i + 1].tasks[id].channel.generation == states[i].svidGeneration
  {
    Reachable(states, steps, i);
    assert Next(states[i], steps[i]) == Some(states[i + 1]);
  }

  // ---------------------------------------------------------------- what the cache holds

  /** The step drops what is cached: a `get_channel` sees a newer SVID, or a retarget that has
      changed the target clears it. */
  ghost predicate Drops(c: Client, step: Step) {
    && step.Move? && step.id in c.tasks
    && match c.tasks[step.id]
       case GetHolding => c.svidGeneration > c.lastGeneration
       case RetargetClearing(_, _) => true
       case _ => false
  }

  /** A channel that is built is cached, and nothing but those two steps drops it. The generation
      last seen is brought up to date by the check alone, the target is set by a retarget that
      gets its lock, and the SVID by a rotation. */
  lemma CacheStepIff(c: Client, step: Step)
    requires Good(c) && Next(c, step).Some?
    ensures var d := Next(c, step).value;
            var builds := step.Move? && step.id in c.tasks && c.tasks[step.id].GetBuilding? && step.built;
            && d.channel == (if Drops(c, step) then None
                             else if builds then Some(Channel(c.tasks[step.id].addr, c.tasks[step.id].generation))
                             else c.channel)
            && (c.channel.Some? ==> !builds)
            && d.svidGeneration == (if step.Rotate? then step.generation else c.svidGeneration)
            && var task := if step.Move? && step.id in c.tasks then Some(c.tasks[step.id]) else None;
               && d.lastGeneration == (if task == Some(GetHolding) then c.svidGeneration else c.lastGeneration)
               && d.target == (if task.Some? && task.value.RetargetWaiting? then task.value.addr else c.target)
  {
    hide Addresses, Places;
  }

  /** A `get_channel` that holds the lock hands out the cached channel, without building, exactly
      when there is one and no newer SVID. */
  lemma HandedOutIff(c: Client, id: nat, built: bool)
    requires Good(c) && id in c.tasks && c.tasks[id].GetHolding?
    ensures var d := Next(c, Move(id, built));
            && d.Some? && id in d.value.tasks
            && d.value.tasks[id] == (if c.channel.Some? && c.svidGeneration == c.lastGeneration
                                       then GetDone(c.channel.value) else GetChecked)
  {
    hide Addresses, Places;
  }

  /** Over every run a cached channel stays cached until a step drops it: it is handed out again
      and never built twice. */
  lemma {:induction false} CachedUntilDropped(states: seq<Client>, steps: seq<Step>, i: nat, j: nat)
    requires Run(states, steps) && i <= j <= |steps| && states[i].channel.Some?
    ensures (forall k | i <= k < j :: !Drops(states[k], steps[k])) ==> states[j].channel == states[i].channel
    ensures (exists k | i <= k < j :: Drops(states[k], steps[k])) ==>
              exists k | i <= k < j :: states[k].channel == states[i].channel && states[k + 1].channel.None?
    decreases j
  {
    hide Good, Next, Drops;
    if i < j {
      CachedUntilDropped(states, steps, i, j - 1);
      Reachable(states, steps, j - 1);
      assert Next(states[j - 1], steps[j - 1]) == Some(states[j]);
      CacheStepIff(states[j - 1], steps[j - 1]);
    }
  }

  /** A task that builds ends, if it ends, with a channel for what it read, or with none. */
  ghost predicate Builds(c: Client, id: nat, addr: string, generation: nat) {
    id in c.tasks && c.tasks[id] in {GetBuilding(addr, generation), GetDone(Channel(addr, generation)), GetFailed}
  }

  lemma {:induction false} KeepsBuilding(states: seq<Client>, steps: seq<Step>, i: nat, j: nat, id: nat, addr: string,
                                         generation: nat)
    requires Run(states, steps) && i <= j < |states| && Builds(states[i], id, addr, generation)
    ensures Builds(states[j], id, addr, generation)
    decreases j
  {
    if i < j {
      KeepsBuilding(states, steps, i, j - 1, id, addr, generation);
      assert Next(states[j - 1], steps[j - 1]) == Some(states[j]);
    }
  }

  /** A built channel carries the address and the certificate that were current when the task
      read the target. */
  lemma CertificateBuilt(states: seq<Client>, steps: seq<Step>, i: nat, j: nat, id: nat)
    requires Run(states, steps) && i < j < |states| && id in states[i].tasks && states[i].tasks[id].GetChecked?
    requires id in states[i + 1].tasks && states[i + 1].tasks[id].GetBuilding?
    requires id in states[j].tasks && states[j].tasks[id].GetDone?
    ensures states[j].tasks[id].channel == Channel(states[i].target, states[i].svidGeneration)
  {
    assert Next(states[i], steps[i]) == Some(states[i + 1]);
    assert Builds(states[i + 1], id, states[i].target, states[i].svidGeneration);
    hide Next, Builds;
    KeepsBuilding(states, steps, i + 1, j, id, states[i].target, states[i].svidGeneration);
    BuiltMeans(states[j], id, states[i].target, states[i].svidGeneration);
  }

  lemma BuiltMeans(c: Client, id: nat, addr: string, generation: nat)
    requires Builds(c, id, addr, generation) && c.tasks[id].GetDone?
    ensures c.tasks[id].channel == Channel(addr, generation)
  {
  }

  /** A finished task is not touched again. */
  lemma {:induction false} StaysDone(states: seq<Client>, steps: seq<Step>, i: nat, j: nat, id: nat)
    requires Run(states, steps) && i <= j < |states| && id in states[i].tasks && Finished(states[i].tasks[id])
    ensures id in states[j].tasks && states[j].tasks[id] == states[i].tasks[id]
    decreases j - i
  {
    if i < j {
      StaysDone(states, steps, i, j - 1, id);
      assert Next(states[j - 1], steps[j - 1]) == Some(states[j]);
    }
  }

  ghost predicate FromHereOn(c: Client, k: nat, addr: string) { exists m :: k <= m < |Log(c)| && Log(c)[m] == addr }

  lemma StepHandsOut(c: Client, step: Step, r: nat, id: nat)
    requires Good(c) && Next(c, step).Some? && r in c.tasks && c.tasks[r].RetargetDone?
    requires var d := Next(c, step).value;
             id in d.tasks && d.tasks[id].GetDone? && !(id in c.tasks && c.tasks[id].GetDone?)
    ensures var d := Next(c, step).value; FromHereOn(d, c.tasks[r].index, d.tasks[id].channel.addr)
  {
    hide Log;
    var d := Next(c, step).value;
    assert d.earlier == c.earlier && d.target == c.target && d.tasks[id].channel.addr == Log(c)[Served(c)];
    SameLog(c, d);
  }

  lemma SameLog(c: Client, d: Client)
    requires d.earlier == c.earlier && d.target == c.target
    ensures Log(d) == Log(c)
  {
  }

  lemma LogGrows(c: Client, step: Step, k: nat, addr: string)
    requires Next(c, step).Some? && FromHereOn(c, k, addr)
    ensures FromHereOn(Next(c, step).value, k, addr)
  {
    var m :| k <= m < |Log(c)| && Log(c)[m] == addr;
    assert Log(Next(c, step).value)[m] == addr;
  }

  /** Once a retarget to an address has returned, every `get_channel` that starts later hands
      out a channel for that address or for one that a later retarget set. */
  lemma {:induction false} RetargetTakesHold(states: seq<Client>, steps: seq<Step>, i: nat, j: nat, r: nat, g: nat)
    requires Run(states, steps) && i <= j < |states|
    requires r in states[i].tasks && states[i].tasks[r].RetargetDone? && g !in states[i].tasks
    requires g in states[j].tasks && states[j].tasks[g].GetDone?
    ensures states[i].tasks[r].index < |Log(states[i])| &&
              Log(states[i])[states[i].tasks[r].index] == states[i].tasks[r].addr
    ensures FromHereOn(states[j], states[i].tasks[r].index, states[j].tasks[g].channel.addr)
    decreases j - i
  {
    hide Next, FromHereOn, Good;
    Reachable(states, steps, i);
    SetBy(states[i], r);
    var before := j - 1;
    Reachable(states, steps, before);
    StaysDone(states, steps, i, before, r);
    assert Next(states[before], steps[before]) == Some(states[j]);
    if g in states[before].tasks && states[before].tasks[g].GetDone? {
      RetargetTakesHold(states, steps, i, before, r, g);
      StaysDone(states, steps, before, j, g);
      LogGrows(states[before], steps[before], states[i].tasks[r].index, states[j].tasks[g].channel.addr);
    } else {
      StepHandsOut(states[before], steps[before], r, g);
    }
  }

  lemma SetBy(c: Client, r: nat)
    requires Good(c) && r in c.tasks && c.tasks[r].RetargetDone?
    ensures c.tasks[r].index < |Log(c)| && Log(c)[c.tasks[r].index] == c.tasks[r].addr
  {
  }

  // ---------------------------------------------------------------- when nothing moves

  ghost predicate CanMove(c: Client, id: nat) { id in c.tasks && MoveTask(c, id, true).Some? }

  /** `get_channel` holds the channel lock and awaits the target; a retarget holds the target
      lock and awaits the channel. */
  ghost predicate Crossed(c: Client) {
    && c.channelLock.Some? && c.channelLock.value in c.tasks && c.tasks[c.channelLock.value].GetChecked?
    && c.targetLock.Some? && c.targetLock.value in c.tasks && c.tasks[c.targetLock.value].RetargetClearing?
  }

  /** No task can move exactly when all are finished or those two locks are crossed. */
  lemma StuckIff(c: Client)
    requires Good(c)
    ensures (forall id | id in c.tasks :: !CanMove(c, id)) <==>
              (forall id | id in c.tasks :: Finished(c.tasks[id])) || Crossed(c)
  {
    hide Generations, Addresses, Places;
    if c.channelLock.Some? {
      var g := c.channelLock.value;
      assert c.tasks[g].GetChecked? || CanMove(c, g);
      assert c.tasks[g].GetChecked? && c.targetLock.None? ==> CanMove(c, g);
    } else if c.targetLock.Some? {
      assert CanMove(c, c.targetLock.value);
    } else {
      assert forall id | id in c.tasks && !Finished(c.tasks[id]) :: CanMove(c, id);
    }
  }

  /** The step that crosses the locks: a `get_channel` that finds no channel to hand out while a
      retarget holds the target lock, or a retarget that takes the target lock for a new address
      while a `get_channel` awaits it. */
  ghost predicate Crosses(c: Client, step: Step) {
    && step.Move? && step.id in c.tasks
    && match c.tasks[step.id]
       case GetHolding => c.targetLock.Some? && Checked(c).channel.None?
       case RetargetWaiting(addr) =>
         && c.targetLock.None? && addr != c.target
         && c.channelLock.Some? && c.channelLock.value in c.tasks && c.tasks[c.channelLock.value].GetChecked?
       case _ => false
  }

  lemma CrossingStepIff(c: Client, step: Step)
    requires Good(c) && !Crossed(c) && Next(c, step).Some?
    ensures Crossed(Next(c, step).value) <==> Crosses(c, step)
  {
    hide Generations, Addresses, Places;
  }

  /** Crossed locks stay crossed: from then on no channel is handed out and no retarget ends. */
  lemma CrossedForever(c: Client, step: Step)
    requires Good(c) && Crossed(c) && Next(c, step).Some?
    ensures var d := Next(c, step).value;
            && Crossed(d) && d.channelLock == c.channelLock && d.targetLock == c.targetLock
            && forall id | id in d.tasks && Finished(d.tasks[id]) :: id in c.tasks && d.tasks[id] == c.tasks[id]
  {
    hide Generations, Addresses, Places;
  }

  /** So over every run the locks are crossed at the end exactly when some step crossed them. */
  lemma {:induction false} CrossedIff(states: seq<Client>, steps: seq<Step>)
    requires Run(states, steps)
    ensures Crossed(states[|steps|]) <==> exists i | 0 <= i < |steps| :: Crosses(states[i], steps[i])
  {
    hide Good, Crosses, Crossed, Next;
    if steps == [] {
      Uncrossed(states[0]);
    } else {
      var k := |steps| - 1;
      var s, a := states[..k + 1], steps[..k];
      CrossedIff(s, a);
      Reachable(states, steps, k);
      assert Next(states[k], steps[k]) == Some(states[k + 1]);
      assert forall i | 0 <= i < k :: Crosses(s[i], a[i]) == Crosses(states[i], steps[i]);
      if Crossed(states[k]) {
        CrossedForever(states[k], steps[k]);
      } else {
        CrossingStepIff(states[k], steps[k]);
      }
    }
  }

  lemma Uncrossed(c: Client)
    requires exists target, generation :: c == Start(target, generation)
    ensures !Crossed(c)
  {
  }

  /** And they can be crossed: one `get_channel` on an empty cache and one retarget suffice. */
  lemma CrossingReachable() returns (states: seq<Client>, steps: seq<Step>)
    ensures Run(states, steps) && Crossed(states[|steps|])
  {
    var s0 := Start("a", 1);
    var s1 := Next(s0, StartGet(0)).value;
    var s2 := Next(s1, Move(0, true)).value;
    var s3 := Next(s2, Move(0, true)).value;
    var s4 := Next(s3, StartRetarget(1, "b")).value;
    var s5 := Next(s4, Move(1, true)).value;
    states := [s0, s1, s2, s3, s4, s5];
    steps := [StartGet(0), Move(0, true), Move(0, true), StartRetarget(1, "b"), Move(1, true)];
  }

  // ---------------------------------------------------------------- the client used by one task

  class ControlPlaneClient {
    var currentTarget: string
    var channel: Option<Channel>
    var lastSvidGeneration: nat

    ghost predicate Valid()
      reads this
    {
      channel.Some? ==> channel.value == Channel(currentTarget, lastSvidGeneration)
    }

    constructor (target: string)
      ensures Valid() && currentTarget == target && channel.None? && lastSvidGeneration == 0
    {
      currentTarget, channel, lastSvidGeneration := target, None, 0;
    }

    /** Without other tasks in between: the channel handed out is for the current target and
        the current certificate, and is rebuilt only when there is none or the SVID rotated. */
    method GetChannel(svidGeneration: nat, built: bool) returns (r: Option<Channel>)
      requires Valid() && svidGeneration >= lastSvidGeneration
      modifies this
      ensures Valid() && currentTarget == old(currentTarget) && lastSvidGeneration == svidGeneration
      ensures r == if built || (old(channel).Some? && svidGeneration == old(lastSvidGeneration))
                then Some(Channel(currentTarget, svidGeneration)) else None
      ensures channel == r
    {
      if svidGeneration > lastSvidGeneration {
        lastSvidGeneration := svidGeneration;
        channel := None;
      }
      if channel.Some? { return channel; }
      if !built { return None; }
      channel := Some(Channel(currentTarget, svidGeneration));
      r := channel;
    }

    /** A changed target drops the channel; the same target keeps it. */
    method Retarget(target: string)
      requires Valid()
      modifies this
      ensures Valid() && currentTarget == target && lastSvidGeneration == old(lastSvidGeneration)
      ensures channel == if target == old(currentTarget) then old(channel) else None
    {
      if currentTarget != target {
        currentTarget := target;
        channel := None;
      }
    }
  }
}
