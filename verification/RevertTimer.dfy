/** The revert timer (netcli/internal/manager/manager.go). */
module RevertTimer {
  import opened Basics
  import opened Config

  // A snapshot file, a state file with the process id of the watchdog, watchdog processes, and any number
  // of clients: command lines and the status poll of the web server. None of them takes a lock, so that one
  // step of the model is one access to a file, one signal, or one change of the configuration.

  type Pid = nat

  /** Where a watchdog is in RunRevertWatchdog. */
  datatype Phase =
    | Sleeping
    | Passed
    | Loaded(config: Config)
    | Replaced
    /** It has removed the state file, but not the snapshot yet. */
    | Unlinked

  datatype Goal = ToArm | ToConfirm | ToRevert(config: Config)

  /** What a client is about to do. `arm` says that it goes on to arm a timer. */
  datatype Task =
    | Stopping(goal: Goal)
    | Replacing(config: Config)
    | Clearing(arm: bool)
    | HalfCleared(arm: bool)
    /** About to read the running configuration, and then to save what it read as the snapshot. */
    | Reading
    | Saving(config: Config)
    | Starting
    | Writing(pid: Pid)

  type Client = nat

  /** `used` holds the process ids given out so far. */
  datatype System = System(running: Config, state: Option<Pid>, snapshot: Option<Config>, dogs: map<Pid, Phase>,
                           clients: map<Client, Task>, used: set<Pid>)

  datatype Event =
    | Change(config: Config)
    // the first step of RevertPending, ArmRevert, ConfirmRevert and RevertNow
    | Poll(c: Client)
    | Arm(c: Client)
    | Confirm(c: Client)
    | RevertNow(c: Client)
    // one further step of a client
    | Stop(c: Client)
    | Replace(c: Client, works: bool)
    | ClearState(c: Client)
    | ClearSnapshot(c: Client)
    | Read(c: Client)
    | Save(c: Client)
    | Start(c: Client, pid: Pid)
    | Write(c: Client)
    // one step of a watchdog
    | Fire(dog: Pid)
    | Load(dog: Pid)
    | Restore(dog: Pid, works: bool)
    | RemoveState(dog: Pid)
    | RemoveSnapshot(dog: Pid)

  /** Some client begins an operation. */
  predicate Begins(e: Event) { e.Poll? || e.Arm? || e.Confirm? || e.RevertNow? }

  // ----- the steps

  /** The state file names a process that is alive. */
  predicate Alive(s: System) { s.state.Some? && s.state.value in s.dogs }

  function Go(s: System, c: Client, task: Task): System { s.(clients := s.clients[c := task]) }

  function Done(s: System, c: Client): System { s.(clients := s.clients - {c}) }

  /** RevertPending: a state file that names a dead process is cleared away before anything else. */
  function Check(s: System, c: Client, arm: bool, alive: System, absent: System): System {
    if s.state.None? then absent else if Alive(s) then alive else Go(s, c, Clearing(arm))
  }

  /** stopWatchdog. */
  function Kill(s: System): System { if s.state.None? then s else s.(dogs := s.dogs - {s.state.value}) }

  predicate At(s: System, c: Client, task: Task) { c in s.clients && s.clients[c] == task }

  predicate In(s: System, d: Pid, phase: Phase) { d in s.dogs && s.dogs[d] == phase }

  predicate Enabled(s: System, e: Event) {
    match e
    case Change(_) => true
    case Poll(c) => c !in s.clients
    case Arm(c) => c !in s.clients
    case Confirm(c) => c !in s.clients
    case RevertNow(c) => c !in s.clients
    case Stop(c) => c in s.clients && s.clients[c].Stopping?
    case Replace(c, _) => c in s.clients && s.clients[c].Replacing?
    case ClearState(c) => c in s.clients && s.clients[c].Clearing?
    case ClearSnapshot(c) => c in s.clients && s.clients[c].HalfCleared?
    case Read(c) => At(s, c, Reading)
    case Save(c) => c in s.clients && s.clients[c].Saving?
    case Start(c, pid) => At(s, c, Starting) && pid !in s.used
    case Write(c) => c in s.clients && s.clients[c].Writing?
    case Fire(d) => In(s, d, Sleeping)
    case Load(d) => In(s, d, Passed)
    case Restore(d, _) => d in s.dogs && s.dogs[d].Loaded?
    case RemoveState(d) => In(s, d, Replaced)
    case RemoveSnapshot(d) => In(s, d, Unlinked)
  }

  function Next(s: System, e: Event): System
    requires Enabled(s, e)
  {
    match e
    case Change(config) => s.(running := config)
    case Poll(c) => Check(s, c, false, s, s)
    case Arm(c) => Check(s, c, true, Go(s, c, Stopping(ToArm)), Go(s, c, Reading))
    case Confirm(c) => Check(s, c, false, Go(s, c, Stopping(ToConfirm)), s)
    case RevertNow(c) => if s.snapshot.Some? then Go(s, c, Stopping(ToRevert(s.snapshot.value))) else s
    case Stop(c) =>
      (match s.clients[c].goal
       case ToArm => Go(Kill(s), c, Starting)
       case ToConfirm => Go(Kill(s), c, Clearing(false))
       case ToRevert(config) => Go(Kill(s), c, Replacing(config)))
    case Replace(c, works) => if works then Go(s.(running := s.clients[c].config), c, Clearing(false)) else Done(s, c)
    case ClearState(c) => Go(s.(state := None), c, HalfCleared(s.clients[c].arm))
    case ClearSnapshot(c) =>
      var t := s.(snapshot := None);
      if s.clients[c].arm then Go(t, c, Reading) else Done(t, c)
    case Read(c) => Go(s, c, Saving(s.running))
    case Save(c) => Go(s.(snapshot := Some(s.clients[c].config)), c, Starting)
    case Start(c, pid) => Go(s.(dogs := s.dogs[pid := Sleeping], used := s.used + {pid}), c, Writing(pid))
    case Write(c) => Done(s.(state := Some(s.clients[c].pid)), c)
    // The state file is gone after a confirm, and names another process after a new timer.
    case Fire(d) => if s.state == Some(d) then Set(s, d, Passed) else Gone(s, d)
    case Load(d) => if s.snapshot.Some? then Set(s, d, Loaded(s.snapshot.value)) else Gone(s, d)
    case Restore(d, works) => Set(if works then s.(running := s.dogs[d].config) else s, d, Replaced)
    case RemoveState(d) => Set(s.(state := None), d, Unlinked)
    case RemoveSnapshot(d) => Gone(s.(snapshot := None), d)
  }

  function Set(s: System, d: Pid, phase: Phase): System { s.(dogs := s.dogs[d := phase]) }

  function Gone(s: System, d: Pid): System { s.(dogs := s.dogs - {d}) }

  ghost predicate Run(events: seq<Event>, states: seq<System>) {
    && |states| == |events| + 1
    && forall i :: 0 <= i < |events| ==> Enabled(states[i], events[i]) && states[i + 1] == Next(states[i], events[i])
  }

  predicate Fresh(s: System) {
    s.state.None? && s.snapshot.None? && s.dogs == map[] && s.clients == map[] && s.used == {}
  }

  // ----- process ids, in every interleaving

  /** A process id that is about to be written is new: its watchdog sleeps, or has ended already. A
      watchdog that has removed the state file is not in it. */
  ghost predicate Basic(s: System) {
    && (forall d: Pid :: In(s, d, Unlinked) ==> s.state != Some(d))
    && (forall d :: d in s.dogs ==> d in s.used)
    && (s.state.Some? ==> s.state.value in s.used)
    && (forall c :: c in s.clients && s.clients[c].Writing? ==> NewPid(s, c, s.clients[c].pid))
  }

  ghost predicate NewPid(s: System, c: Client, pid: Pid) {
    && pid in s.used && s.state != Some(pid) && (pid in s.dogs ==> s.dogs[pid].Sleeping?)
    && forall b :: At(s, b, Writing(pid)) ==> b == c
  }

  lemma StepBasic(s: System, e: Event)
    requires Basic(s) && Enabled(s, e)
    ensures Basic(Next(s, e)) && s.used <= Next(s, e).used
  {
    var t := Next(s, e);
    if e.Write? { assert At(s, e.c, Writing(s.clients[e.c].pid)); }
    forall c | c in t.clients && t.clients[c].Writing? ensures NewPid(t, c, t.clients[c].pid) {
      var pid := t.clients[c].pid;
      if c in s.clients && s.clients[c].Writing? { assert NewPid(s, c, pid); }
      forall b | At(t, b, Writing(pid)) ensures b == c {
        assert At(s, b, Writing(pid)) || e.Start?;
        if At(s, b, Writing(pid)) { assert NewPid(s, b, pid); }
      }
    }
  }

  lemma {:induction false} AlwaysBasic(events: seq<Event>, states: seq<System>, i: nat, j: nat)
    requires Run(events, states) && i <= j <= |events| && Basic(states[i])
    ensures Basic(states[j]) && states[i].used <= states[j].used
  {
    if i < j {
      AlwaysBasic(events, states, i, j - 1);
      StepBasic(states[j - 1], events[j - 1]);
    }
  }

  /** The watchdog `d` will not change the configuration any more: it has ended, or has changed it
      already, or sleeps and will find another process in the state file. */
  ghost predicate Mute(s: System, d: Pid) {
    && d in s.used
    && (d in s.dogs ==>
         || s.dogs[d] in {Replaced, Unlinked}
         || (s.dogs[d].Sleeping? && s.state != Some(d) && forall c :: !At(s, c, Writing(d))))
  }

  /** In every interleaving, a watchdog that has been superseded before it woke up stays so. */
  lemma StepMute(s: System, e: Event, d: Pid)
    requires Basic(s) && Mute(s, d) && Enabled(s, e)
    ensures Mute(Next(s, e), d) && !(e.Restore? && e.dog == d)
  {
    if In(s, d, Sleeping) {
      forall c ensures !At(Next(s, e), c, Writing(d)) { assert !At(s, c, Writing(d)); }
      if e.Write? { assert !At(s, e.c, Writing(d)); }
    }
  }

  lemma {:induction false} StaysMute(events: seq<Event>, states: seq<System>, i: nat, j: nat, d: Pid)
    requires Run(events, states) && i <= j < |events| && Basic(states[i]) && Mute(states[i], d)
    ensures Mute(states[j], d) && !(events[j].Restore? && events[j].dog == d)
  {
    if i < j {
      StaysMute(events, states, i, j - 1, d);
      AlwaysBasic(events, states, i, j - 1);
      StepMute(states[j - 1], events[j - 1], d);
    }
    AlwaysBasic(events, states, i, j);
    StepMute(states[j], events[j], d);
  }

  // ----- the snapshot of an armed timer

  /** A timer is armed: its watchdog is in the state file and has not restored anything yet. */
  predicate Armed(s: System) {
    Alive(s) && (s.dogs[s.state.value] in {Sleeping, Passed} || s.dogs[s.state.value].Loaded?)
  }

  predicate Guarded(s: System) { Armed(s) ==> s.snapshot.Some? }

  /** The client will name a watchdog that is alive in the state file. */
  predicate Arming(s: System, c: Client) {
    c in s.clients && match s.clients[c]
                      case Stopping(goal) => goal.ToArm?
                      case Replacing(_) => false
                      case Clearing(arm) => arm
                      case HalfCleared(arm) => arm
                      case Reading => true
                      case Saving(_) => true
                      case Starting => true
                      case Writing(pid) => pid in s.dogs
  }

  /** It will take a snapshot before. */
  predicate Saves(task: Task) { task.Reading? || task.Saving? || task == Clearing(true) || task == HalfCleared(true) }

  /** The client will remove the snapshot, if what it does on the way works. */
  predicate Removing(s: System, c: Client) {
    c in s.clients && match s.clients[c]
                      case Stopping(goal) => !goal.ToArm?
                      case Replacing(_) => true
                      case Clearing(_) => true
                      case HalfCleared(_) => true
                      case _ => false
  }

  /** Past the check of the state file. */
  predicate Awake(s: System, d: Pid) { d in s.dogs && !s.dogs[d].Sleeping? }

  /** A client or a watchdog between its two removals. */
  datatype Process = Cli(c: Client) | Dog(d: Pid)

  predicate Halfway(s: System, p: Process) {
    match p
    case Cli(c) => c in s.clients && s.clients[c].HalfCleared?
    case Dog(d) => In(s, d, Unlinked)
  }

  /** Something stands in the way of the client that is arming. */
  ghost predicate Threatened(s: System, w: Client)
    requires Arming(s, w)
  {
    || Armed(s)
    || (s.snapshot.None? && !Saves(s.clients[w]))
    || (exists c :: c != w && (Arming(s, c) || Removing(s, c)))
    || (exists d :: Awake(s, d))
  }

  /** A timer is armed while some process is between its two removals; or a client is arming while
      another timer is armed, another client is arming or clearing, or a watchdog is awake. */
  ghost predicate Exposed(s: System) {
    || (Armed(s) && (s.snapshot.None? || exists p :: Halfway(s, p)))
    || (exists w :: Arming(s, w) && Threatened(s, w))
  }

  /** By finishing what has begun, some interleaving reaches an armed timer without a snapshot. */
  ghost predicate Leads(s: System) {
    exists events, states :: Run(events, states) && states[0] == s && Finishing(events) && !Guarded(states[|events|])
  }

  predicate Finishing(events: seq<Event>) { forall e :: e in events ==> !Begins(e) }

  // ----- every exposed state leads there

  /** One step and then a run. */
  lemma Prepend(s: System, e: Event, events: seq<Event>, states: seq<System>)
    requires Enabled(s, e) && Run(events, states) && states[0] == Next(s, e)
    ensures Run([e] + events, [s] + states)
  {
    var (more, all) := ([e] + events, [s] + states);
    forall i | 0 <= i < |more| ensures Enabled(all[i], more[i]) && all[i + 1] == Next(all[i], more[i]) {
      if i > 0 { assert Enabled(states[i - 1], events[i - 1]) && states[i] == Next(states[i - 1], events[i - 1]); }
    }
  }

  lemma LeadsNow(s: System)
    requires !Guarded(s)
    ensures Leads(s)
  {
    var (events, states) := ([], [s]);
    assert Run(events, states) && Finishing(events) && !Guarded(states[|events|]);
  }

  lemma LeadsBy(s: System, e: Event)
    requires Enabled(s, e) && !Begins(e) && Leads(Next(s, e))
    ensures Leads(s)
  {
    var events, states :| Run(events, states) && states[0] == Next(s, e) && Finishing(events) && !Guarded(states[|events|]);
    Prepend(s, e, events, states);
    var (more, all) := ([e] + events, [s] + states);
    assert Run(more, all) && Finishing(more) && all[|more|] == states[|events|];
  }

  lemma {:induction false} FreshPid(used: set<Pid>) returns (pid: Pid)
    ensures forall p :: p in used ==> p < pid
  {
    if used == {} { return 0; }
    var p :| p in used;
    var q := FreshPid(used - {p});
    assert used == used - {p} + {p};
    pid := if p < q then q else p + 1;
  }

  /** Armed, and the snapshot is about to go. */
  lemma RemovalLeads(s: System, p: Process)
    requires Basic(s) && Armed(s) && Halfway(s, p)
    ensures Leads(s)
  {
    var e := match p case Cli(c) => ClearSnapshot(c) case Dog(d) => RemoveSnapshot(d);
    LeadsNow(Next(s, e));
    LeadsBy(s, e);
  }

  /** How far the client is from writing the state file. */
  function Distance(task: Task): nat {
    match task
    case Clearing(_) => 6
    case HalfCleared(_) => 5
    case Reading => 4
    case Saving(_) => 3
    case Stopping(_) => 3
    case Starting => 2
    case _ => 1
  }

  /** The next step of a client that is arming, before it writes the state file. */
  lemma ArmingStep(s: System, w: Client) returns (e: Event)
    requires Basic(s) && Arming(s, w) && !s.clients[w].Writing?
    ensures Enabled(s, e) && !Begins(e)
    ensures var t := Next(s, e);
      && Basic(t) && Arming(t, w) && Distance(t.clients[w]) < Distance(s.clients[w])
      && (forall c :: c != w ==> (Arming(s, c) ==> Arming(t, c)) && (c in s.clients ==> c in t.clients && t.clients[c] == s.clients[c]))
      && (forall d :: d in s.dogs && (s.state == Some(d) ==> Saves(s.clients[w])) ==> d in t.dogs && t.dogs[d] == s.dogs[d])
      && (!Saves(s.clients[w]) ==> !Saves(t.clients[w]) && t.snapshot == s.snapshot)
      && (Saves(s.clients[w]) ==> Saves(t.clients[w]) || t.snapshot.Some?)
  {
    var pid := FreshPid(s.used);
    e := match s.clients[w]
      case Stopping(_) => Stop(w)
      case Clearing(_) => ClearState(w)
      case HalfCleared(_) => ClearSnapshot(w)
      case Reading => Read(w)
      case Saving(_) => Save(w)
      case _ => Start(w, pid);
    StepBasic(s, e);
    forall c | c != w && Arming(s, c) ensures Arming(Next(s, e), c) {
      if s.clients[c].Writing? { assert NewPid(s, c, s.clients[c].pid); }
    }
  }

  lemma WriteArms(s: System, w: Client)
    requires Basic(s) && Arming(s, w) && s.clients[w].Writing?
    ensures Enabled(s, Write(w))
    ensures var t := Next(s, Write(w));
      && Basic(t) && Armed(t) && t.dogs == s.dogs && t.snapshot == s.snapshot && (forall c :: c != w && Arming(s, c) ==> Arming(t, c))
      && (forall c :: c != w && c in s.clients ==> c in t.clients && t.clients[c] == s.clients[c])
  {
    StepBasic(s, Write(w));
    assert NewPid(s, w, s.clients[w].pid);
  }

  lemma {:induction false} WriterAndHalfway(s: System, w: Client, p: Process)
    requires Basic(s) && Arming(s, w) && Halfway(s, p) && p != Cli(w)
    ensures Leads(s)
    decreases Distance(s.clients[w])
  {
    if s.clients[w].Writing? {
      WriteArms(s, w);
      RemovalLeads(Next(s, Write(w)), p);
      LeadsBy(s, Write(w));
    } else {
      var e := ArmingStep(s, w);
      WriterAndHalfway(Next(s, e), w, p);
      LeadsBy(s, e);
    }
  }

  /** The next step of a client that is going to remove the snapshot. */
  lemma {:induction false} WriterAndRemover(s: System, w: Client, x: Client)
    requires Basic(s) && Arming(s, w) && Removing(s, x) && x != w
    ensures Leads(s)
    decreases match s.clients[x] case Stopping(_) => 3 case Replacing(_) => 2 case Clearing(_) => 1 case _ => 0
  {
    if s.clients[x].HalfCleared? {
      WriterAndHalfway(s, w, Cli(x));
    } else {
      var e := match s.clients[x]
        case Stopping(_) => Stop(x)
        case Replacing(_) => Replace(x, true)
        case _ => ClearState(x);
      StepBasic(s, e);
      if s.clients[w].Writing? { assert NewPid(s, w, s.clients[w].pid); }
      WriterAndRemover(Next(s, e), w, x);
      LeadsBy(s, e);
    }
  }

  lemma {:induction false} WriterWithoutSnapshot(s: System, w: Client)
    requires Basic(s) && Arming(s, w) && !Saves(s.clients[w]) && s.snapshot.None?
    ensures Leads(s)
    decreases Distance(s.clients[w])
  {
    if s.clients[w].Writing? {
      WriteArms(s, w);
      LeadsNow(Next(s, Write(w)));
      LeadsBy(s, Write(w));
    } else {
      var e := ArmingStep(s, w);
      WriterWithoutSnapshot(Next(s, e), w);
      LeadsBy(s, e);
    }
  }

  function Wakefulness(phase: Phase): nat {
    match phase
    case Sleeping => 4
    case Passed => 3
    case Loaded(_) => 2
    case Replaced => 1
    case Unlinked => 0
  }

  lemma {:induction false} WriterAndAwake(s: System, w: Client, d: Pid)
    requires Basic(s) && Arming(s, w) && Awake(s, d)
    ensures Leads(s)
    decreases Wakefulness(s.dogs[d]), Distance(s.clients[w])
  {
    if s.clients[w].Writing? { assert NewPid(s, w, s.clients[w].pid); }
    if s.dogs[d].Unlinked? {
      WriterAndHalfway(s, w, Dog(d));
    } else if !s.dogs[d].Passed? || s.snapshot.Some? {
      var e := match s.dogs[d]
        case Passed => Load(d)
        case Loaded(_) => Restore(d, true)
        case _ => RemoveState(d);
      StepBasic(s, e);
      WriterAndAwake(Next(s, e), w, d);
      LeadsBy(s, e);
    } else if Saves(s.clients[w]) {
      var e := ArmingStep(s, w);
      WriterAndAwake(Next(s, e), w, d);
      LeadsBy(s, e);
    } else {
      WriterWithoutSnapshot(s, w);
    }
  }

  lemma WriterAndArmed(s: System, w: Client)
    requires Basic(s) && Arming(s, w) && Armed(s)
    ensures Leads(s)
  {
    var d := s.state.value;
    if s.dogs[d].Sleeping? {
      StepBasic(s, Fire(d));
      if s.clients[w].Writing? { assert NewPid(s, w, s.clients[w].pid); }
      WriterAndAwake(Next(s, Fire(d)), w, d);
      LeadsBy(s, Fire(d));
    } else {
      WriterAndAwake(s, w, d);
    }
  }

  lemma {:induction false} TwoWriters(s: System, w: Client, v: Client)
    requires Basic(s) && Arming(s, w) && Arming(s, v) && w != v
    ensures Leads(s)
    decreases Distance(s.clients[w])
  {
    if s.clients[w].Writing? {
      WriteArms(s, w);
      WriterAndArmed(Next(s, Write(w)), v);
      LeadsBy(s, Write(w));
    } else {
      var e := ArmingStep(s, w);
      TwoWriters(Next(s, e), w, v);
      LeadsBy(s, e);
    }
  }

  lemma ExposedLeads(s: System)
    requires Basic(s) && Exposed(s)
    ensures Leads(s)
  {
    if Armed(s) && s.snapshot.None? {
      LeadsNow(s);
    } else if p :| Armed(s) && Halfway(s, p) {
      RemovalLeads(s, p);
    } else {
      var w :| Arming(s, w) && Threatened(s, w);
      if Armed(s) {
        WriterAndArmed(s, w);
      } else if c :| c != w && (Arming(s, c) || Removing(s, c)) {
        if Arming(s, c) { TwoWriters(s, w, c); } else { WriterAndRemover(s, w, c); }
      } else if d :| Awake(s, d) {
        WriterAndAwake(s, w, d);
      } else {
        WriterWithoutSnapshot(s, w);
      }
    }
  }

  // ----- no other state does

  lemma StepUnexposed(s: System, e: Event)
    requires Basic(s) && !Exposed(s) && Enabled(s, e) && !Begins(e)
    ensures !Exposed(Next(s, e))
  {
    var t := Next(s, e);
    UnexposedArmed(s, e);
    forall w | Arming(t, w) ensures !Threatened(t, w) { UnexposedArming(s, e, w); }
  }

  lemma UnexposedArmed(s: System, e: Event)
    requires Basic(s) && !Exposed(s) && Enabled(s, e) && !Begins(e)
    ensures var t := Next(s, e); Armed(t) ==> t.snapshot.Some? && forall p :: !Halfway(t, p)
  {
    var t := Next(s, e);
    if e.Write? && Arming(s, e.c) {
      assert !Threatened(s, e.c);
      forall p ensures !Halfway(t, p) {
        if p.Cli? { assert !Removing(s, p.c) || p.c == e.c; } else { assert !Awake(s, p.d); }
      }
    } else if Armed(s) && Armed(t) {
      forall c ensures !Arming(s, c) {}
      forall p ensures !Halfway(t, p) { assert !Halfway(s, p); }
      assert !Halfway(s, Cli(ClientOf(e, 0))) && !Halfway(s, Dog(DogOf(e)));
    }
  }

  /** The client or the watchdog whose step it is. */
  function ClientOf(e: Event, other: Client): Client {
    match e
    case Stop(c) => c
    case Replace(c, _) => c
    case ClearState(c) => c
    case ClearSnapshot(c) => c
    case Read(c) => c
    case Save(c) => c
    case Start(c, _) => c
    case Write(c) => c
    case _ => other
  }

  function DogOf(e: Event): Pid {
    match e
    case Fire(d) => d
    case Load(d) => d
    case Restore(d, _) => d
    case RemoveState(d) => d
    case RemoveSnapshot(d) => d
    case _ => 0
  }

  lemma UnexposedArming(s: System, e: Event, w: Client)
    requires Basic(s) && !Exposed(s) && Enabled(s, e) && !Begins(e) && Arming(Next(s, e), w)
    ensures !Threatened(Next(s, e), w)
  {
    var t := Next(s, e);
    assert Arming(s, w) && !Threatened(s, w);
    var (c, d) := (ClientOf(e, w), DogOf(e));
    assert c == w || (!Arming(s, c) && !Removing(s, c));
    assert !Awake(s, d);
    forall c | c != w ensures !Arming(t, c) && !Removing(t, c) { assert !Arming(s, c) && !Removing(s, c); }
    forall d ensures !Awake(t, d) { assert !Awake(s, d); }
  }

  /** Exactly the exposed states lead to an armed timer without a snapshot. */
  lemma ExposedExact(s: System)
    requires Basic(s)
    ensures Exposed(s) <==> Leads(s)
  {
    if Exposed(s) { ExposedLeads(s); }
    if Leads(s) {
      var events, states :| Run(events, states) && states[0] == s && Finishing(events) && !Guarded(states[|events|]);
      if !Exposed(s) { StaysUnexposed(events, states, |events|); }
    }
  }

  lemma {:induction false} StaysUnexposed(events: seq<Event>, states: seq<System>, j: nat)
    requires Run(events, states) && Finishing(events) && Basic(states[0]) && !Exposed(states[0]) && j <= |events|
    ensures !Exposed(states[j]) && Guarded(states[j])
  {
    if j > 0 {
      StaysUnexposed(events, states, j - 1);
      AlwaysBasic(events, states, 0, j - 1);
      StepUnexposed(states[j - 1], events[j - 1]);
    }
  }

  // ----- when an operation may begin

  /** Beginning to arm is safe, whatever happens then, exactly when no timer is alive, no other
      client is arming or clearing, and no watchdog is awake. */
  lemma ArmingExact(s: System, c: Client)
    requires Basic(s) && !Exposed(s) && Enabled(s, Arm(c))
    ensures Leads(Next(s, Arm(c))) <==>
      Alive(s) || (exists w :: Arming(s, w) || Removing(s, w)) || exists d :: Awake(s, d)
  {
    var t := Next(s, Arm(c));
    StepBasic(s, Arm(c));
    ExposedExact(t);
    forall w | w != c ensures (Arming(t, w) <==> Arming(s, w)) && (Removing(t, w) <==> Removing(s, w)) {}
    assert Arming(t, c);
    forall d ensures Awake(t, d) <==> Awake(s, d) {}
    if Alive(s) {
      assert Armed(s) || Awake(s, s.state.value);
      assert Threatened(t, c);
    } else if w :| Arming(s, w) || Removing(s, w) {
      assert w != c && Threatened(t, c);
    } else if d :| Awake(s, d) {
      assert Awake(t, d) && Threatened(t, c);
    } else {
      forall p ensures Halfway(t, p) <==> Halfway(s, p) {}
      forall w | Arming(t, w) ensures w == c && !Threatened(t, w) {
        forall d ensures !Awake(t, d) { assert !Awake(s, d); }
      }
    }
  }

  /** Confirming, reverting and polling are safe exactly when they have nothing to clear or no
      client is arming. */
  lemma ClearingExact(s: System, e: Event)
    requires Basic(s) && !Exposed(s) && Enabled(s, e) && (e.Poll? || e.Confirm? || e.RevertNow?)
    ensures Leads(Next(s, e)) <==> e.c in Next(s, e).clients && exists w :: Arming(s, w)
  {
    var t := Next(s, e);
    StepBasic(s, e);
    ExposedExact(t);
    forall w ensures Arming(t, w) <==> Arming(s, w) {}
    forall p ensures Halfway(t, p) <==> Halfway(s, p) {}
    forall d ensures Awake(t, d) <==> Awake(s, d) {}
    if w :| Arming(s, w) && e.c in t.clients {
      assert Removing(t, e.c) && w != e.c && Threatened(t, w);
    } else {
      forall w | Arming(t, w) ensures !Threatened(t, w) {
        assert t == s && !Threatened(s, w);
      }
    }
  }

  // ----- runs in which arming is left alone

  /** The client will write the state file, whether or not its watchdog is still alive. */
  predicate Writes(s: System, c: Client) { Arming(s, c) || (c in s.clients && s.clients[c].Writing?) }

  /** A client is arming while another one arms or clears, or while a watchdog is awake. */
  ghost predicate Crowded(s: System) {
    exists w :: Writes(s, w) && ((exists c :: c != w && (Writes(s, c) || Removing(s, c))) || exists d :: Awake(s, d))
  }

  /** About to take a snapshot. */
  predicate Snaps(s: System, c: Client) { c in s.clients && (s.clients[c].Reading? || s.clients[c].Saving?) }

  /** Past the point where a timer that is alive has been killed. */
  predicate Clears(s: System, c: Client) {
    c in s.clients && (s.clients[c].Replacing? || s.clients[c].Clearing? || s.clients[c].HalfCleared? || Snaps(s, c))
  }

  /** The two files and the processes fit together. */
  ghost predicate Consistent(s: System) {
    && Basic(s)
    && (Alive(s) ==> s.snapshot.Some?)
    && (forall c :: Arming(s, c) && !Saves(s.clients[c]) ==> s.snapshot.Some?)
    && (forall c :: Clears(s, c) ==> !Alive(s))
    && (forall d :: Awake(s, d) ==> if s.dogs[d].Unlinked? then !Alive(s) else s.state == Some(d))
    && (forall d :: Awake(s, d) && s.dogs[d].Loaded? ==> s.snapshot == Some(s.dogs[d].config))
  }

  lemma NotCrowded(s: System, w: Client, c: Client, d: Pid)
    requires !Crowded(s) && Writes(s, w)
    ensures (c != w ==> !Writes(s, c) && !Removing(s, c)) && !Awake(s, d)
  {
  }

  lemma StepConsistent(s: System, e: Event)
    requires Consistent(s) && !Crowded(s) && Enabled(s, e) && !Crowded(Next(s, e))
    ensures Consistent(Next(s, e))
  {
    var t := Next(s, e);
    StepBasic(s, e);
    StepAlive(s, e);
    StepClears(s, e);
    StepAwake(s, e);
  }

  lemma StepAlive(s: System, e: Event)
    requires Consistent(s) && !Crowded(s) && Enabled(s, e) && !Crowded(Next(s, e))
    ensures var t := Next(s, e);
      && (Alive(t) ==> t.snapshot.Some?)
      && (forall c :: Arming(t, c) && !Saves(t.clients[c]) ==> t.snapshot.Some?)
  {
    var t := Next(s, e);
    var (w, d) := (ClientOf(e, 0), DogOf(e));
    assert Clears(s, w) ==> !Alive(s);
    assert Awake(s, d) && s.dogs[d].Unlinked? ==> !Alive(s);
    forall c | Arming(t, c) && !Saves(t.clients[c]) ensures t.snapshot.Some? {
      if Arming(s, c) && !Saves(s.clients[c]) {
        NotCrowded(s, c, w, d);
      }
    }
  }

  lemma StepClears(s: System, e: Event)
    requires Consistent(s) && !Crowded(s) && Enabled(s, e) && !Crowded(Next(s, e))
    ensures var t := Next(s, e); forall c :: Clears(t, c) ==> !Alive(t)
  {
    var t := Next(s, e);
    var (w, d) := (ClientOf(e, 0), DogOf(e));
    assert Clears(s, w) ==> !Alive(s);
    assert Awake(s, d) && s.dogs[d].Unlinked? ==> !Alive(s);
    forall c | Clears(t, c) ensures !Alive(t) {
      assert Clears(s, c) ==> !Alive(s);
      if e.Write? { NotCrowded(s, w, c, d); }
    }
  }

  lemma StepAwake(s: System, e: Event)
    requires Consistent(s) && !Crowded(s) && Enabled(s, e) && !Crowded(Next(s, e))
    ensures var t := Next(s, e);
      && (forall d :: Awake(t, d) ==> if t.dogs[d].Unlinked? then !Alive(t) else t.state == Some(d))
      && (forall d :: Awake(t, d) && t.dogs[d].Loaded? ==> t.snapshot == Some(t.dogs[d].config))
  {
    var t := Next(s, e);
    var (w, x) := (ClientOf(e, 0), DogOf(e));
    assert Clears(s, w) ==> !Alive(s);
    assert Awake(s, x) ==> if s.dogs[x].Unlinked? then !Alive(s) else s.state == Some(x);
    forall d | Awake(t, d)
      ensures if t.dogs[d].Unlinked? then !Alive(t) else t.state == Some(d)
      ensures t.dogs[d].Loaded? ==> t.snapshot == Some(t.dogs[d].config)
    {
      assert Awake(s, d) ==> if s.dogs[d].Unlinked? then !Alive(s) else s.state == Some(d);
      if e.Write? || e.Save? { NotCrowded(s, w, w, d); }
    }
  }

  /** In every interleaving in which arming is left alone, everything fits together. */
  lemma {:induction false} AlwaysConsistent(events: seq<Event>, states: seq<System>, j: nat)
    requires Run(events, states) && Fresh(states[0]) && j <= |events|
    requires forall i :: 0 <= i <= j ==> !Crowded(states[i])
    ensures Consistent(states[j])
  {
    if j > 0 {
      AlwaysConsistent(events, states, j - 1);
      assert states[j] == Next(states[j - 1], events[j - 1]);
      StepConsistent(states[j - 1], events[j - 1]);
    }
  }

  /** Then only the watchdog in the state file changes the configuration, and it brings back the snapshot. */
  lemma OnlyOwnerRestores(s: System, d: Pid, works: bool)
    requires Consistent(s) && Enabled(s, Restore(d, works))
    ensures s.state == Some(d) && s.snapshot == Some(s.dogs[d].config)
  {
    assert Awake(s, d);
  }

  /** Nobody is about to take a snapshot, and nobody can be before it is cleared. */
  ghost predicate Held(s: System) {
    (forall c :: !Snaps(s, c)) && (s.state.Some? || exists p :: Halfway(s, p))
  }

  lemma StepHeld(s: System, e: Event)
    requires Basic(s) && Held(s) && Enabled(s, e) && !Crowded(Next(s, e)) && !e.ClearSnapshot? && !e.RemoveSnapshot?
    ensures Held(Next(s, e)) && Next(s, e).snapshot == s.snapshot
  {
    var t := Next(s, e);
    if p :| s.state.None? && Halfway(s, p) {
      assert Halfway(t, p) || t.state.Some?;
      if e.Arm? {
        assert Halfway(t, p);
        HalfwayCrowds(t, e.c, p);
      }
    } else {
      if e.ClearState? { assert Halfway(t, Cli(e.c)); }
      if e.RemoveState? { assert Halfway(t, Dog(e.dog)); }
    }
    assert !Snaps(s, ClientOf(e, 0));
    forall c ensures !Snaps(t, c) { assert !Snaps(s, c); }
  }

  lemma HalfwayCrowds(t: System, w: Client, p: Process)
    requires Writes(t, w) && Halfway(t, p) && p != Cli(w)
    ensures Crowded(t)
  {
    match p {
      case Cli(c) => assert Removing(t, c);
      case Dog(d) => assert Awake(t, d);
    }
  }

  /** The snapshot of an armed timer stays, however often it is armed again, until it is cleared. */
  lemma {:induction false} SnapshotHeld(events: seq<Event>, states: seq<System>, i: nat, j: nat)
    requires Run(events, states) && i <= j <= |events| && Consistent(states[i]) && Armed(states[i])
    requires forall k :: i <= k <= j ==> !Crowded(states[k])
    requires forall k :: i <= k < j ==> !events[k].ClearSnapshot? && !events[k].RemoveSnapshot?
    ensures states[j].snapshot == states[i].snapshot && Held(states[j])
  {
    if i < j {
      SnapshotHeld(events, states, i, j - 1);
      assert states[j] == Next(states[j - 1], events[j - 1]);
      AlwaysBasic(events, states, i, j - 1);
      StepHeld(states[j - 1], events[j - 1]);
    } else {
      ArmedIsHeld(states[i]);
    }
  }

  lemma ArmedIsHeld(s: System)
    requires Consistent(s) && Armed(s)
    ensures Held(s)
  {
    forall c ensures !Snaps(s, c) { assert Clears(s, c) ==> !Alive(s); }
  }

  /** When a client clears the state file, as a confirm does, no watchdog started before changes the
      configuration ever again, whatever else is going on afterwards. */
  lemma NeverAfterConfirm(events: seq<Event>, states: seq<System>, i: nat, j: nat)
    requires Run(events, states) && Fresh(states[0]) && i < j < |events|
    requires forall k :: 0 <= k <= i ==> !Crowded(states[k])
    requires events[i].ClearState? && events[j].Restore?
    ensures events[j].dog !in states[i].used
  {
    AlwaysConsistent(events, states, i);
    var (s, t, d) := (states[i], states[i + 1], events[j].dog);
    if d in s.used {
      MuteWhenCleared(s, events[i].c, d);
      StepBasic(s, events[i]);
      StaysMute(events, states, i + 1, j, d);
    }
  }

  lemma MuteWhenCleared(s: System, c: Client, d: Pid)
    requires Consistent(s) && !Crowded(s) && Enabled(s, ClearState(c)) && d in s.used
    ensures Mute(Next(s, ClearState(c)), d)
  {
    var t := Next(s, ClearState(c));
    assert Clears(s, c);
    assert Awake(s, d) ==> if s.dogs[d].Unlinked? then !Alive(s) else s.state == Some(d);
    forall b ensures !At(t, b, Writing(d)) {
      if At(s, b, Writing(d)) { NotCrowded(s, b, c, d); }
    }
  }

  // ----- a timer that nobody touches

  /** The watchdog `p` is on its way to restore `c`, and no client is at work. */
  ghost predicate Committed(s: System, p: Pid, c: Config) {
    && Basic(s) && s.clients == map[] && s.state == Some(p) && p in s.dogs && s.snapshot == Some(c)
    && (s.dogs[p] in {Sleeping, Passed} || s.dogs[p] == Loaded(c))
    && (forall d :: d in s.dogs && d != p ==> s.dogs[d].Sleeping?)
  }

  /** Only these operations interfere with it. */
  predicate Hands(e: Event) { e.Arm? || e.Confirm? || e.RevertNow? }

  lemma StepCommitted(s: System, e: Event, p: Pid, c: Config)
    requires Committed(s, p, c) && Enabled(s, e) && !Hands(e)
    ensures (e.Restore? && e.dog == p) || Committed(Next(s, e), p, c)
    ensures e.Restore? ==> e.dog == p && (e.works ==> Next(s, e).running == c)
  {
    StepBasic(s, e);
  }

  /** A timer that nobody confirms, renews or forestalls stays on its way, whatever else happens,
      and the first restoration that works brings back its snapshot. */
  lemma {:induction false} UnconfirmedRestores(events: seq<Event>, states: seq<System>, i: nat, j: nat, p: Pid, c: Config)
    requires Run(events, states) && i <= j < |events| && Committed(states[i], p, c)
    requires forall k :: i <= k <= j ==> !Hands(events[k])
    requires forall k :: i <= k < j ==> !events[k].Restore?
    ensures Committed(states[j], p, c)
    ensures events[j].Restore? ==> events[j].dog == p && (events[j].works ==> states[j + 1].running == c)
  {
    if i < j {
      UnconfirmedRestores(events, states, i, j - 1, p, c);
      StepCommitted(states[j - 1], events[j - 1], p, c);
    }
    StepCommitted(states[j], events[j], p, c);
  }

  /** And it is never stuck: one of its own steps is always possible until it has restored. */
  lemma CommittedProceeds(s: System, p: Pid, c: Config)
    requires Committed(s, p, c)
    ensures if s.dogs[p].Sleeping? then Enabled(s, Fire(p)) && Next(s, Fire(p)).dogs[p].Passed?
            else if s.dogs[p].Passed? then Enabled(s, Load(p)) && Next(s, Load(p)).dogs[p] == Loaded(c)
            else Enabled(s, Restore(p, true)) && Next(s, Restore(p, true)).running == c
  {
  }

  /** All of these steps, if they are possible. */
  function After(s: System, events: seq<Event>): Option<System>
    decreases |events|
  {
    if events == [] then Some(s)
    else if Enabled(s, events[0]) then After(Next(s, events[0]), events[1..])
    else None
  }

  lemma {:induction false} AfterRuns(s: System, events: seq<Event>) returns (states: seq<System>)
    requires After(s, events).Some?
    ensures Run(events, states) && states[0] == s && states[|events|] == After(s, events).value
    decreases |events|
  {
    if events == [] {
      states := [s];
    } else {
      var rest := AfterRuns(Next(s, events[0]), events[1..]);
      states := [s] + rest;
      forall i | 0 <= i < |events| ensures Enabled(states[i], events[i]) && states[i + 1] == Next(states[i], events[i]) {
        if i > 0 { assert events[i] == events[1..][i - 1] && states[i] == rest[i - 1]; }
      }
    }
  }

  lemma AfterStep(s: System, e: Event, rest: seq<Event>)
    ensures After(s, [e] + rest) == if Enabled(s, e) then After(Next(s, e), rest) else None
  {
    assert ([e] + rest)[1..] == rest;
  }

  /** The steps before the watchdog starts. */
  function Preparation(s: System, c: Client): seq<Event> {
    [Arm(c)] + (if Alive(s) then [Stop(c)] else if s.state.Some? then [ClearState(c), ClearSnapshot(c), Read(c), Save(c)] else [Read(c), Save(c)])
  }

  /** They lead to this state. */
  function Prepared(s: System, c: Client): System
    requires Basic(s) && s.clients == map[]
  {
    if Alive(s) then s.(dogs := s.dogs - {s.state.value}, clients := map[c := Starting])
    else s.(state := None, snapshot := Some(s.running), clients := map[c := Starting])
  }

  lemma Prepares(s: System, c: Client, rest: seq<Event>)
    requires Basic(s) && s.clients == map[]
    ensures After(s, Preparation(s, c) + rest) == After(Prepared(s, c), rest)
  {
    if Alive(s) {
      PreparesAlive(s, c, rest);
    } else if s.state.Some? {
      PreparesDead(s, c, rest);
    } else {
      var s1 := Next(s, Arm(c));
      var s2 := Next(s1, Read(c));
      assert Preparation(s, c) + rest == [Arm(c)] + ([Read(c)] + ([Save(c)] + rest));
      AfterStep(s, Arm(c), [Read(c)] + ([Save(c)] + rest));
      AfterStep(s1, Read(c), [Save(c)] + rest);
      AfterStep(s2, Save(c), rest);
      assert Next(s2, Save(c)) == Prepared(s, c);
    }
  }

  lemma PreparesAlive(s: System, c: Client, rest: seq<Event>)
    requires Basic(s) && s.clients == map[] && Alive(s)
    ensures After(s, Preparation(s, c) + rest) == After(Prepared(s, c), rest)
  {
    var s1 := Next(s, Arm(c));
    assert Preparation(s, c) + rest == [Arm(c)] + ([Stop(c)] + rest);
    AfterStep(s, Arm(c), [Stop(c)] + rest);
    AfterStep(s1, Stop(c), rest);
    assert Next(s1, Stop(c)) == Prepared(s, c);
  }

  lemma PreparesDead(s: System, c: Client, rest: seq<Event>)
    requires Basic(s) && s.clients == map[] && !Alive(s) && s.state.Some?
    ensures After(s, Preparation(s, c) + rest) == After(Prepared(s, c), rest)
  {
    var cleared := s.(state := None, snapshot := None, clients := map[c := Reading]);
    var last := [Read(c)] + ([Save(c)] + rest);
    assert Preparation(s, c) + rest == [Arm(c)] + ([ClearState(c)] + ([ClearSnapshot(c)] + last));
    ClearsFirst(s, c, last);
    AfterStep(cleared, Read(c), [Save(c)] + rest);
    AfterStep(Next(cleared, Read(c)), Save(c), rest);
    assert Next(Next(cleared, Read(c)), Save(c)) == Prepared(s, c);
  }

  lemma ClearsFirst(s: System, c: Client, last: seq<Event>)
    requires Basic(s) && s.clients == map[] && !Alive(s) && s.state.Some?
    ensures After(s, [Arm(c)] + ([ClearState(c)] + ([ClearSnapshot(c)] + last))) ==
      After(s.(state := None, snapshot := None, clients := map[c := Reading]), last)
  {
    var s1 := Next(s, Arm(c));
    var s2 := Next(s1, ClearState(c));
    AfterStep(s, Arm(c), [ClearState(c)] + ([ClearSnapshot(c)] + last));
    AfterStep(s1, ClearState(c), [ClearSnapshot(c)] + last);
    AfterStep(s2, ClearSnapshot(c), last);
    assert Next(s2, ClearSnapshot(c)) == s.(state := None, snapshot := None, clients := map[c := Reading]);
  }

  /** Arming alone keeps the snapshot of a timer that is alive and terminates its watchdog; another
      timer takes the running configuration. Either way the new watchdog is on its way to it. */
  lemma ArmAlone(s: System, c: Client, pid: Pid) returns (events: seq<Event>, states: seq<System>)
    requires Consistent(s) && s.clients == map[] && pid !in s.used && forall d :: !Awake(s, d)
    ensures events == Preparation(s, c) + [Start(c, pid), Write(c)] && Run(events, states) && states[0] == s
    ensures var r := states[|events|];
      && r.running == s.running && Committed(r, pid, if Alive(s) then s.snapshot.value else s.running)
      && (Alive(s) ==> s.state.value !in r.dogs)
  {
    events := Preparation(s, c) + [Start(c, pid), Write(c)];
    Prepares(s, c, [Start(c, pid), Write(c)]);
    ArmingEnds(s, Prepared(s, c), c, pid);
    states := AfterRuns(s, events);
  }

  lemma ArmingEnds(s: System, t: System, c: Client, pid: Pid)
    requires Basic(s) && pid !in s.used && At(t, c, Starting) && t.clients.Keys == {c} && t.used == s.used && t.snapshot.Some?
    requires (forall d :: !Awake(s, d)) && t.dogs == s.dogs - (if Alive(s) then {s.state.value} else {})
    ensures var r := After(t, [Start(c, pid), Write(c)]);
      && r.Some? && r.value.running == t.running && Committed(r.value, pid, t.snapshot.value)
      && r.value.dogs == t.dogs[pid := Sleeping]
  {
    var u := Next(t, Start(c, pid));
    var v := Next(u, Write(c));
    assert [Start(c, pid), Write(c)] == [Start(c, pid)] + ([Write(c)] + []);
    AfterStep(t, Start(c, pid), [Write(c)] + []);
    AfterStep(u, Write(c), []);
    assert v.clients == map[];
    forall d | d in v.dogs && d != pid ensures v.dogs[d].Sleeping? { assert !Awake(s, d); }
  }
}
