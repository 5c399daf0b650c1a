/** The session list of init (netbsd/x86/patches/init.c): a doubly linked list of login sessions and a
    database from process ids to them, driven by a state machine whose steps are relations between views
    of the list. */
module InitSessions {
  import opened Basics

  datatype State = SingleUser | Runcom | ReadTtys | MultiUser | CleanTtys | Catatonia | Death

  /** A line of the ttys file. */
  datatype TtyEnt = TtyEnt(name: string, on: bool, getty: Option<string>, window: Option<string>)

  /** What wakes init up: a child that waitpid reports, or a signal that requests a
      transition (or, for any other signal, cancels the request). */
  datatype Event = Child(pid: int) | Signal(transition: Option<State>)

  /** One round of death: nobody left to signal, or the children collected until the alarm. */
  datatype Round = Nobody | Collect(events: seq<Event>, childless: bool)

  /** What the world does while init is in one state. `next` is where single_user and runcom go
      when their shell ends without a request. */
  datatype Input = Input(events: seq<Event>, ttys: seq<TtyEnt>, dbOpens: bool, rounds: seq<Round>, next: State)

  /** A transition that a signal asks for, or a getty that could not be started. */
  predicate Asked(events: seq<Event>, next: Option<State>) { next == Some(State.CleanTtys) || Signal(next) in events }

  /** Where each state leads; without a next state, multi_user is still waiting. */
  predicate CanFollow(state: State, input: Input, next: Option<State>) {
    match state
    case SingleUser => next.Some? && (next == Some(input.next) || Asked(input.events, next))
    case Runcom => next == Some(input.next)
    case ReadTtys => next == Some(if input.dbOpens then State.MultiUser else State.SingleUser)
    case MultiUser => next.None? || Asked(input.events, next)
    case CleanTtys => next == Some(State.MultiUser)
    case Catatonia => next == Some(State.MultiUser)
    case Death => next == Some(State.SingleUser)
  }

  const DEV := "/dev/"

  class Session {
    const device: string
    var index: nat
    var process: int
    var shutdown: bool
    var present: bool
    var getty: Option<string>
    var window: Option<string>
    var prev: Session?
    var next: Session?

    constructor (device: string, index: nat)
      ensures this.device == device && this.index == index && process == 0 && !shutdown && present
      ensures getty == None && window == None && prev == null && next == null
    {
      this.device, this.index, process, shutdown, present := device, index, 0, false, true;
      getty, window, prev, next := None, None, null, null;
    }

    /** setupargv. Command lines without a word cannot be parsed. */
    method SetUpArgs(typ: TtyEnt) returns (ok: bool)
      requires typ.getty.Some?
      modifies this`getty, this`window
      ensures typ.on ==> (ok <==> Startable(typ))
      ensures ok ==> Runs(this, typ) && (typ.window.None? ==> window == old(window))
    {
      getty := Some(typ.getty.value + " " + typ.name);
      if !HasWord(getty.value) {
        getty := None;
        return false;
      }
      if typ.window.Some? {
        window := typ.window;
        if !HasWord(window.value) {
          window := None;
          return false;
        }
      }
      return true;
    }
  }

  /** The line is on, and its commands can be parsed. */
  predicate Startable(typ: TtyEnt) {
    && typ.on && typ.getty.Some? && HasWord(typ.getty.value + " " + typ.name)
    && (typ.window.Some? ==> HasWord(typ.window.value))
  }

  /** The commands of the line. A window system that the line does not mention stays as it was. */
  ghost predicate Runs(s: Session, typ: TtyEnt)
    reads s`getty, s`window
  {
    typ.getty.Some? && s.getty == Some(typ.getty.value + " " + typ.name) && (typ.window.Some? ==> s.window == typ.window)
  }

  /** The numbers of the lines that can be started, from 1 on. */
  function StartableLines(ttys: seq<TtyEnt>): (lines: seq<nat>)
    ensures forall i :: 0 <= i < |lines| ==> 0 < lines[i] <= |ttys|
  {
    if ttys == [] then []
    else StartableLines(ttys[..|ttys| - 1]) + if Startable(ttys[|ttys| - 1]) then [|ttys|] else []
  }

  /** The session that new_session makes for a line. */
  ghost predicate MadeFor(s: Session, index: nat, typ: TtyEnt)
    reads s`index, s`process, s`shutdown, s`present, s`getty, s`window
  {
    && s.device == DEV + typ.name && s.index == index && s.process == 0 && !s.shutdown && s.present
    && Runs(s, typ) && s.window == typ.window
  }

  /** One session for each line that can be started, in order. */
  ghost predicate MadeFromLines(list: seq<Session>, ttys: seq<TtyEnt>)
    reads list`index, list`process, list`shutdown, list`present, list`getty, list`window
  {
    var lines := StartableLines(ttys);
    |list| == |lines| && forall i :: 0 <= i < |list| ==> MadeFor(list[i], lines[i], ttys[lines[i] - 1])
  }

  lemma MadeNext(was: seq<Session>, list: seq<Session>, ttys: seq<TtyEnt>, k: nat)
    requires k < |ttys| && MadeFromLines(was, ttys[..k])
    requires if Startable(ttys[k]) then |list| == |was| + 1 && list[..|was|] == was && MadeFor(list[|was|], k + 1, ttys[k])
             else list == was
    ensures MadeFromLines(list, ttys[..k + 1])
  {
    hide Startable, MadeFor;
    var (before, after) := (StartableLines(ttys[..k]), StartableLines(ttys[..k + 1]));
    assert ttys[..k + 1][..k] == ttys[..k];
    forall i | 0 <= i < |list| ensures MadeFor(list[i], after[i], ttys[..k + 1][after[i] - 1]) {
      if i < |was| {
        assert list[i] == was[i] && after[i] == before[i];
        assert MadeFor(was[i], before[i], ttys[..k][before[i] - 1]);
      }
    }
  }

  lemma NoLines()
    ensures MadeFromLines([], [])
  {
  }

  /** The number of the last line for a device, or 0. */
  function LastLine(ttys: seq<TtyEnt>, device: string): (k: nat)
    ensures k <= |ttys| && (k > 0 ==> DEV + ttys[k - 1].name == device)
    ensures forall j :: k <= j < |ttys| ==> DEV + ttys[j].name != device
  {
    if ttys == [] then 0
    else if DEV + ttys[|ttys| - 1].name == device then |ttys|
    else LastLine(ttys[..|ttys| - 1], device)
  }

  lemma LastLineSnoc(ttys: seq<TtyEnt>, typ: TtyEnt, device: string)
    ensures LastLine(ttys + [typ], device) == if DEV + typ.name == device then |ttys| + 1 else LastLine(ttys, device)
  {
    assert (ttys + [typ])[..|ttys|] == ttys;
  }

  /** The line of that number that can be started. */
  predicate StartableAt(ttys: seq<TtyEnt>, k: nat) { 0 < k <= |ttys| && Startable(ttys[k - 1]) }

  predicate HasWord(s: string) { exists i :: 0 <= i < |s| && s[i] != ' ' && s[i] != '\t' }

  /** No earlier session has the same device: the search of clean_ttys finds this one. */
  ghost predicate First(list: seq<Session>, i: nat)
    requires i < |list|
  {
    forall j :: 0 <= j < i ==> list[j].device != list[i].device
  }

  lemma FirstInPrefix(was: seq<Session>, list: seq<Session>, i: nat)
    requires was <= list && i < |was|
    ensures First(was, i) <==> First(list, i)
  {
    assert forall j :: 0 <= j <= i ==> was[j] == list[j];
  }

  // ----- what the states do, seen from outside

  datatype Entry = Entry(index: nat, process: int, shutdown: bool, getty: Option<string>, window: Option<string>)

  /** The sessions with their entries, those that were freed, and the gettys started and not started so far. */
  datatype View = View(list: seq<Session>, at: map<Session, Entry>, freed: set<Session>, started: seq<Session>, failed: seq<Session>)

  /** The view shows an entry for each session. */
  predicate Shown(v: View) { (forall s :: s in v.list ==> s in v.at) && forall s :: s in v.at ==> s in v.list }

  predicate Requests(e: Event) { e.Signal? && e.transition.Some? }

  function PidsOf(events: seq<Event>): set<int> { set e | e in events && e.Child? :: e.pid }

  /** What has been started, or could not be, since then. */
  function Since(v: seq<Session>, t: seq<Session>): seq<Session>
    requires v <= t
  {
    t[|v|..]
  }

  /** What becomes of one session when these children have been collected: if its process is one of them, it
      is freed when it is flagged, and otherwise gets a new getty, unless that cannot be started. */
  ghost predicate Handled(s: Session, pids: set<int>, v: View, t: View)
    requires s in v.at && Shown(t) && v.started <= t.started && v.failed <= t.failed
  {
    var e := v.at[s];
    if e.process == 0 || e.process !in pids then s in t.list && t.at[s] == e
    else if e.shutdown then s !in t.list && s in t.freed
    else
      && s in t.list && t.at[s] == e.(process := t.at[s].process)
      && (s in Since(v.started, t.started) || s in Since(v.failed, t.failed))
      && (t.at[s].process == 0 ==> s in Since(v.failed, t.failed))
  }

  ghost predicate Restartable(s: Session, pids: set<int>, v: View) {
    s in v.at && !v.at[s].shutdown && v.at[s].process != 0 && v.at[s].process in pids
  }

  /** These children are collected, and nothing else happens. */
  ghost predicate Collects(pids: set<int>, v: View, t: View) {
    && Shown(v) && Shown(t) && v.started <= t.started && v.failed <= t.failed && v.freed <= t.freed
    && Subsequence(t.list, v.list) && (forall s :: s in t.list ==> s in v.list)
    && (forall s :: s in v.list ==> Handled(s, pids, v, t))
    && (forall s :: s in Since(v.started, t.started) ==> Restartable(s, pids, v))
    && (forall s :: s in Since(v.failed, t.failed) ==> Restartable(s, pids, v))
  }

  /** One child: `owner` is the session that it belongs to. */
  ghost predicate CollectsOne(pid: int, owner: Option<Session>, v: View, t: View) {
    && Shown(v) && Shown(t) && v.freed <= t.freed
    && Subsequence(t.list, v.list) && (forall s :: s in t.list ==> s in v.list)
    && (forall s :: s in v.list ==> (owner == Some(s) <==> v.at[s].process == pid && pid != 0))
    && (forall s :: s in v.list && owner != Some(s) ==> s in t.list && t.at[s] == v.at[s])
    && match owner
       case None => t.started == v.started && t.failed == v.failed
       case Some(s) =>
         && s in v.list
         && if v.at[s].shutdown then s !in t.list && s in t.freed && t.started == v.started && t.failed == v.failed
            else
              && s in t.list && t.at[s] == v.at[s].(process := t.at[s].process)
              && (if t.at[s].process == 0 then t.started == v.started && t.failed == v.failed + [s]
                  else t.started == v.started + [s] && t.failed == v.failed)
  }

  /** The same list, or all but one. */
  ghost predicate WithoutOne(was: seq<Session>, list: seq<Session>) {
    list == was || exists i :: 0 <= i < |was| && list == was[..i] + was[i + 1..]
  }

  lemma IsWithout(was: seq<Session>, i: nat)
    ensures WithoutOne(was, was) && (i < |was| ==> WithoutOne(was, was[..i] + was[i + 1..]))
  {
  }

  lemma StillSubsequence(was: seq<Session>, list: seq<Session>, all: seq<Session>)
    requires Subsequence(was, all) && WithoutOne(was, list)
    ensures Subsequence(list, all) && forall s :: s in list ==> s in was
  {
    hide Subsequence;
    if list != was {
      var i: nat :| i < |was| && list == was[..i] + was[i + 1..];
      SubsequenceRemove(was, all, i);
    }
  }

  lemma CollectsNone(v: View)
    requires Shown(v)
    ensures Collects({}, v, v)
  {
    SubsequenceRefl(v.list);
  }

  lemma SinceMore(v: seq<Session>, t: seq<Session>, s: Session)
    requires v <= t
    ensures v <= t + [s] && Since(v, t + [s]) == Since(v, t) + [s]
  {
  }

  /** One more child. */
  lemma CollectsNext(pids: set<int>, pid: int, owner: Option<Session>, v: View, t: View, u: View)
    requires Collects(pids, v, t) && CollectsOne(pid, owner, t, u) && Subsequence(u.list, v.list)
    ensures Collects(pids + {pid}, v, u)
  {
    if owner.Some? {
      SinceMore(v.started, t.started, owner.value);
      SinceMore(v.failed, t.failed, owner.value);
    }
    forall s | s in v.list ensures Handled(s, pids + {pid}, v, u) {
      assert Handled(s, pids, v, t);
    }
  }

  /** Children are collected, and signals noted, until a transition is requested: by the last event seen,
      or because a getty could not be started for the last child. */
  ghost predicate Watched(events: seq<Event>, seen: nat, v: View, t: View, request: Option<State>) {
    && seen <= |events| && Collects(PidsOf(events[..seen]), v, t)
    && (forall i :: 0 <= i < seen - 1 ==> !Requests(events[i]))
    && match request
       case None => seen == |events| && (seen > 0 ==> !Requests(events[seen - 1])) && t.failed == v.failed
       case Some(state) =>
         && seen > 0
         && if events[seen - 1].Signal? then events[seen - 1] == Signal(request) && t.failed == v.failed
            else state.CleanTtys? && |t.failed| == |v.failed| + 1
  }

  /** The sessions without a process, in order. */
  function Idle(list: seq<Session>, at: map<Session, Entry>): seq<Session>
    requires forall s :: s in list ==> s in at
  {
    if list == [] then []
    else
      assert list[|list| - 1] in list;
      Idle(list[..|list| - 1], at) + if at[list[|list| - 1]].process == 0 then [list[|list| - 1]] else []
  }

  /** Every session without a process gets a getty, in order, up to the first one that cannot be started,
      which requests clean_ttys. */
  ghost predicate Opened(v: View, t: View, request: Option<State>) {
    && Shown(v) && Shown(t) && t.list == v.list && t.freed == v.freed
    && v.started <= t.started && v.failed <= t.failed
    && var (idle, woken) := (Idle(v.list, v.at), Since(v.started, t.started));
       && woken <= idle
       && (match request
           case None => woken == idle && t.failed == v.failed
           case Some(state) => state.CleanTtys? && |woken| < |idle| && t.failed == v.failed + [idle[|woken|]])
       && forall s :: s in v.list ==>
            t.at[s] == v.at[s].(process := t.at[s].process) && if s in woken then t.at[s].process > 0 else t.at[s].process == v.at[s].process
  }

  lemma {:induction false} IdleMeans(list: seq<Session>, at: map<Session, Entry>)
    requires forall s :: s in list ==> s in at
    ensures forall s :: s in Idle(list, at) <==> s in list && at[s].process == 0
  {
    if list != [] {
      assert list == list[..|list| - 1] + [list[|list| - 1]];
      IdleMeans(list[..|list| - 1], at);
    }
  }

  lemma {:induction false} IdlePrefix(list: seq<Session>, at: map<Session, Entry>, j: nat)
    requires (forall s :: s in list ==> s in at) && j < |list| && at[list[j]].process == 0
    ensures Idle(list[..j], at) <= Idle(list, at) && |Idle(list[..j], at)| < |Idle(list, at)|
    ensures Idle(list, at)[|Idle(list[..j], at)|] == list[j]
  {
    var n := |list| - 1;
    assert list[n] in list;
    if j < n {
      assert list[..n][..j] == list[..j];
      IdlePrefix(list[..n], at, j);
    }
  }

  /** The `j`-th session could not be started. */
  lemma OpenedPrefix(v: View, t: View, j: nat, request: Option<State>)
    requires Shown(v) && Shown(t) && t.list == v.list && t.freed == v.freed && j < |v.list| && Distinct(v.list)
    requires request == Some(State.CleanTtys) && v.at[v.list[j]].process == 0
    requires t.started == v.started + Idle(v.list[..j], v.at) && t.failed == v.failed + [v.list[j]]
    requires forall s :: s in v.list ==> t.at[s] == v.at[s].(process := t.at[s].process)
    requires forall s :: s in v.list && (v.at[s].process != 0 || s in v.list[j..]) ==> t.at[s].process == v.at[s].process
    requires forall s :: s in v.list[..j] && v.at[s].process == 0 ==> t.at[s].process > 0
    ensures Opened(v, t, request)
  {
    hide Idle, Distinct;
    IdlePrefix(v.list, v.at, j);
    IdleMeans(v.list[..j], v.at);
    assert Since(v.started, t.started) == Idle(v.list[..j], v.at);
    assert v.list == v.list[..j] + v.list[j..];
  }

  lemma NoneIdle(list: seq<Session>, at: map<Session, Entry>)
    requires list == []
    ensures Idle(list, at) == []
  {
  }

  lemma IdleStep(list: seq<Session>, at: map<Session, Entry>, j: nat)
    requires (forall s :: s in list ==> s in at) && j < |list|
    ensures Idle(list[..j + 1], at) == Idle(list[..j], at) + if at[list[j]].process == 0 then [list[j]] else []
  {
    assert list[..j + 1][..j] == list[..j];
  }

  /** Every session has been started. */
  lemma OpenedWhole(v: View, t: View)
    requires Shown(v) && Shown(t) && t.list == v.list && t.freed == v.freed
    requires t.started == v.started + Idle(v.list, v.at) && t.failed == v.failed
    requires forall s :: s in v.list ==> t.at[s] == v.at[s].(process := t.at[s].process)
    requires forall s :: s in v.list ==> if v.at[s].process == 0 then t.at[s].process > 0 else t.at[s].process == v.at[s].process
    ensures Opened(v, t, None)
  {
    IdleMeans(v.list, v.at);
  }

  lemma FlaggedList(v: View)
    ensures Flagged(v).list == v.list
  {
  }

  lemma OpenedList(v: View, t: View, request: Option<State>)
    requires Opened(v, t, request)
    ensures t.list == v.list
  {
  }

  lemma CollectedList(pids: set<int>, v: View, t: View)
    requires Collects(pids, v, t)
    ensures Subsequence(t.list, v.list) && forall s :: s in t.list ==> s in v.list
  {
  }

  lemma WatchedList(events: seq<Event>, seen: nat, v: View, t: View, request: Option<State>)
    requires Watched(events, seen, v, t, request)
    ensures forall s :: s in t.list ==> s in v.list
    ensures request.None? || Asked(events, request)
  {
    hide Collects;
    CollectedList(PidsOf(events[..seen]), v, t);
  }

  /** The events after the last one seen do not matter. */
  lemma WatchedAll(events: seq<Event>, k: nat, v: View, t: View, request: Option<State>)
    requires k <= |events| && Watched(events[..k], k, v, t, request) && (request.Some? || k == |events|)
    ensures Watched(events, k, v, t, request)
  {
    hide Collects;
    assert events[..k][..k] == events[..k];
  }

  lemma MultiUserLeads(input: Input, v: View, mid: View, seen: nat, t: View, next: Option<State>)
    requires WentMultiUser(input.events, v, mid, seen, t, next)
    ensures CanFollow(State.MultiUser, input, next) && Entered(State.MultiUser, input, next, v, mid, t)
  {
    hide Opened, Watched;
    if next.Some? && seen == 0 && t == mid && Opened(v, mid, next) {
      OpenedFails(v, mid, next);
    } else {
      WatchedList(input.events, seen, mid, t, next);
    }
  }

  lemma OpenedFails(v: View, t: View, request: Option<State>)
    requires Opened(v, t, request) && request.Some?
    ensures request == Some(State.CleanTtys)
  {
  }

  /** multi_user. */
  ghost predicate WentMultiUser(events: seq<Event>, v: View, mid: View, seen: nat, t: View, next: Option<State>) {
    || (next.Some? && seen == 0 && t == mid && Opened(v, mid, next))
    || (Opened(v, mid, None) && Watched(events, seen, mid, t, next))
  }

  /** Every session flagged. */
  function Flagged(v: View): View { v.(at := map s | s in v.at :: v.at[s].(shutdown := true)) }

  /** The children that death collects: at most three rounds, until nobody is left. */
  function DeathPids(rounds: seq<Round>, left: nat): set<int> {
    if rounds == [] || left == 0 || rounds[0].Nobody? then {}
    else PidsOf(rounds[0].events) + if rounds[0].childless then {} else DeathPids(rounds[1..], left - 1)
  }

  /** read_ttys. */
  ghost predicate WereRead(ttys: seq<TtyEnt>, v: View, t: View) {
    && t.started == v.started && t.failed == v.failed && (forall s :: s in v.list ==> s in t.freed && s !in t.list)
    && var lines := StartableLines(ttys);
       && Shown(t) && |t.list| == |lines|
       && forall i :: 0 <= i < |lines| ==> var (s, typ) := (t.list[i], ttys[lines[i] - 1]);
            s.device == DEV + typ.name && typ.getty.Some?
            && t.at[s] == Entry(lines[i], 0, false, Some(typ.getty.value + " " + typ.name), typ.window)
  }

  ghost predicate HasSession(list: seq<Session>, device: string) { exists s :: s in list && s.device == device }

  /** clean_ttys: no session is lost, and no process. There is a session for every line that can be started. A
      session is left unflagged exactly if it is the first one for its device and the last line for that device
      can be started, and then has that line's number and commands. */
  ghost predicate WereCleaned(ttys: seq<TtyEnt>, v: View, t: View) {
    && Shown(v) && Shown(t) && v.list <= t.list && t.started == v.started && t.failed == v.failed && v.freed <= t.freed
    && (forall s :: s in v.list ==> t.at[s].process == v.at[s].process)
    && (forall i :: |v.list| <= i < |t.list| ==>
         t.list[i] !in v.list && t.at[t.list[i]].process == 0 && First(t.list, i) && HasLine(ttys, t.list[i].device))
    && (forall k :: 0 <= k < |ttys| && Startable(ttys[k]) ==> HasSession(t.list, DEV + ttys[k].name))
    && (forall i :: 0 <= i < |t.list| ==>
         var (s, k) := (t.list[i], LastLine(ttys, t.list[i].device));
         && (t.at[s].shutdown <==> !(First(t.list, i) && StartableAt(ttys, k)))
         && (!t.at[s].shutdown ==> t.at[s].index == k && HasCommands(t.at[s], ttys[k - 1])))
  }

  /** A session for every line that can be started, and every new one the first for such a line. */
  ghost predicate Added(was: seq<Session>, list: seq<Session>, ttys: seq<TtyEnt>) {
    && was <= list
    && (forall i :: |was| <= i < |list| ==> First(list, i) && HasLine(ttys, list[i].device))
    && (forall k :: 0 <= k < |ttys| && Startable(ttys[k]) ==> HasSession(list, DEV + ttys[k].name))
  }

  /** What one line adds is the first session for its device. */
  ghost predicate AddedFor(typ: TtyEnt, was: seq<Session>, list: seq<Session>) {
    && was <= list
    && forall i :: |was| <= i < |list| ==> Startable(typ) && list[i].device == DEV + typ.name && First(list, i)
  }

  lemma NoneAdded(list: seq<Session>, ttys: seq<TtyEnt>)
    requires ttys == []
    ensures Added(list, list, ttys)
  {
  }

  lemma AddedMore(was: seq<Session>, mid: seq<Session>, list: seq<Session>, ttys: seq<TtyEnt>, typ: TtyEnt)
    requires Added(was, mid, ttys) && AddedFor(typ, mid, list)
    requires Startable(typ) ==> HasSession(list, DEV + typ.name)
    ensures Added(was, list, ttys + [typ])
  {
    hide Startable;
    var more := ttys + [typ];
    forall i | |was| <= i < |list| ensures First(list, i) && HasLine(more, list[i].device) {
      if i < |mid| {
        FirstInPrefix(mid, list, i);
        var k :| 0 <= k < |ttys| && Startable(ttys[k]) && DEV + ttys[k].name == mid[i].device;
        assert more[k] == ttys[k];
      } else {
        assert more[|ttys|] == typ;
      }
    }
    forall k | 0 <= k < |more| && Startable(more[k]) ensures HasSession(list, DEV + more[k].name) {
      if k < |ttys| {
        assert more[k] == ttys[k] && HasSession(mid, DEV + ttys[k].name);
        var s :| s in mid && s.device == DEV + ttys[k].name;
        assert s in list;
      }
    }
  }

  /** Some line for the device can be started. */
  ghost predicate HasLine(ttys: seq<TtyEnt>, device: string) {
    exists k :: 0 <= k < |ttys| && Startable(ttys[k]) && DEV + ttys[k].name == device
  }

  predicate HasCommands(e: Entry, typ: TtyEnt) {
    typ.getty.Some? && e.getty == Some(typ.getty.value + " " + typ.name) && (typ.window.Some? ==> e.window == typ.window)
  }

  /** What one state function does, and where it leads. `mid` is where multi_user has started its gettys. */
  ghost predicate Entered(state: State, input: Input, next: Option<State>, v: View, mid: View, t: View) {
    match state
    case SingleUser =>
      next.Some? && exists seen, request ::
        Watched(input.events, seen, v, t, request) && next == (if request.Some? then request else Some(input.next))
    case Runcom => next == Some(input.next) && Collects(PidsOf(input.events), v, t)
    case ReadTtys =>
      && next == Some(if input.dbOpens then State.MultiUser else State.SingleUser)
      && WereRead(if input.dbOpens then input.ttys else [], v, t)
    case MultiUser => exists seen :: WentMultiUser(input.events, v, mid, seen, t, next)
    case CleanTtys => next == Some(State.MultiUser) && WereCleaned(input.ttys, v, t)
    case Catatonia => next == Some(State.MultiUser) && t == Flagged(v)
    case Death => next == Some(State.SingleUser) && Collects(DeathPids(input.rounds, 3), Flagged(v), t)
  }

  class Init {
    var sessions: Session?
    var db: map<int, Session>
    var requested: Option<State>
    /** The list as a sequence, and the sessions that were given back to the allocator. */
    ghost var list: seq<Session>
    ghost var freed: set<Session>
    /** Every successful start of a getty, and every one that failed. */
    ghost var started: seq<Session>
    ghost var failed: seq<Session>
    /** The sessions with a live process when logins were last blocked, as long as no
        clean_ttys or read_ttys has intervened, and those started since. */
    ghost var doomed: set<Session>
    ghost var revived: set<Session>

    constructor ()
      ensures Valid() && list == [] && started == failed == []
    {
      sessions, db, requested := null, map[], None;
      list, freed, started, failed, doomed, revived := [], {}, [], [], {}, {};
    }

    ghost function Now(): (v: View)
      reads this`list, this`freed, this`started, this`failed, list`index, list`process, list`shutdown, list`getty, list`window
      ensures Shown(v) && v.list == list
    {
      View(list, map s | s in list :: Entry(s.index, s.process, s.shutdown, s.getty, s.window), freed, started, failed)
    }

    /** The list is acyclic, and next and prev are inverse to each other. */
    ghost predicate Linked()
      reads this`sessions, this`list, list`prev, list`next
    {
      && Distinct(list)
      && sessions == (if list == [] then null else list[0])
      && (forall i {:trigger list[i].prev} :: 0 <= i < |list| ==>
           list[i].prev == if i == 0 then null else list[i - 1])
      && (forall i {:trigger list[i].next} :: 0 <= i < |list| ==>
           list[i].next == if i == |list| - 1 then null else list[i + 1])
    }

    /** The database maps exactly the process ids of listed sessions to their owners. */
    ghost predicate Indexed()
      reads this`db, this`list, list`process
    {
      && (forall pid :: pid in db ==> db[pid] in list && db[pid].process == pid && pid > 0)
      && (forall s :: s in list ==> s.process == 0 || (s.process in db && db[s.process] == s))
    }

    /** Sessions that were alive when logins were blocked were never started again. */
    ghost predicate Blocked()
      reads this`list, this`freed, this`doomed, this`revived, list`process, list`shutdown
    {
      && doomed !! revived
      && (forall s :: s in doomed ==> s in list || s in freed)
      && (forall s :: s in doomed && s in list ==> s.shutdown && s.process > 0)
    }

    ghost predicate Valid()
      reads this, list
    {
      Linked() && Indexed() && Blocked() && Apart()
    }

    /** Nothing that was freed can be reached. */
    ghost predicate Apart()
      reads this`list, this`freed
    {
      forall s :: s in freed ==> s !in list
    }

    ghost function Listed(): set<Session>
      reads this
    {
      set s | s in list
    }

    // ----- processes and the database

    /** fork: any process id that no session has, or a failure. */
    method Fork() returns (pid: int)
      ensures pid == -1 || (pid > 0 && pid !in db)
    {
      pid := *;
      if pid <= 0 || pid in db { pid := -1; }
    }

    method StartGetty(s: Session) returns (pid: int)
      modifies this`started, this`failed, this`revived
      ensures pid == -1 || (pid > 0 && pid !in db)
      ensures started == (if pid == -1 then old(started) else old(started) + [s])
      ensures failed == (if pid == -1 then old(failed) + [s] else old(failed))
      ensures revived == (if pid == -1 then old(revived) else old(revived) + {s})
    {
      pid := Fork();
      if pid != -1 { started, revived := started + [s], revived + {s}; } else { failed := failed + [s]; }
    }

    method AddSession(s: Session)
      modifies this`db
      ensures db == old(db)[s.process := s]
    {
      db := db[s.process := s];
    }

    method DelSession(s: Session)
      modifies this`db
      ensures db == old(db) - {s.process}
    {
      db := db - {s.process};
    }

    method FindSession(pid: int) returns (s: Session?)
      ensures s == if pid in db then db[pid] else null
    {
      s := if pid in db then db[pid] else null;
    }

    /** Takes a session that owns no process out of the list and frees it. */
    method Unlink(s: Session, ghost i: nat)
      requires Linked() && i < |list| && list[i] == s
      modifies this`sessions, this`list, this`freed, list`prev, list`next
      ensures Linked() && list == old(list[..i] + list[i + 1..]) && freed == old(freed) + {s}
    {
      assert s.prev == list[i].prev && s.next == list[i].next;
      var sprev, snext := s.prev, s.next;
      if sprev != null { sprev.next := snext; } else { sessions := snext; }
      if snext != null { snext.prev := sprev; }
      ghost var was, left := list, list[..i] + list[i + 1..];
      LeftAt(was, i);
      forall j | 0 <= j < |left|
        ensures left[j].prev == if j == 0 then null else left[j - 1]
        ensures left[j].next == if j == |left| - 1 then null else left[j + 1]
      {
        assert left[j] == was[if j < i then j else j + 1];
        assert j > 0 ==> left[j - 1] == was[if j - 1 < i then j - 1 else j];
        assert j < |left| - 1 ==> left[j + 1] == was[if j + 1 < i then j + 1 else j + 2];
      }
      list, freed := left, freed + {s};
    }

    static lemma LeftAt(was: seq<Session>, i: nat)
      requires i < |was| && Distinct(was)
      ensures var left := was[..i] + was[i + 1..];
        Distinct(left) && forall j :: 0 <= j < |left| ==> left[j] == was[if j < i then j else j + 1]
    {
    }

    /** The session of an exited child leaves the database. */
    method Release(s: Session)
      requires Indexed() && s in list && s.process > 0
      modifies this`db, s`process
      ensures Indexed() && s.process == 0 && db == old(db) - {old(s.process)}
    {
      DelSession(s);
      s.process := 0;
    }

    method Remove(s: Session)
      requires Linked() && Indexed() && Blocked() && Apart() && s in list && s.shutdown && s.process > 0
      modifies this`sessions, this`db, this`list, this`freed, s`process, list`prev, list`next
      ensures Linked() && Indexed() && Blocked() && Apart()
      ensures s !in list && freed == old(freed) + {s} && db == old(db) - {old(s.process)}
      ensures exists i :: 0 <= i < |old(list)| && old(list)[i] == s && list == old(list)[..i] + old(list)[i + 1..]
    {
      ghost var was := list;
      assert Distinct(was);
      ghost var i: nat :| i < |list| && list[i] == s;
      Release(s);
      Unlink(s, i);
    }

    /** Starts a getty for a session without a process; a failure asks for clean_ttys. */
    method Launch(s: Session)
      requires Linked() && Indexed() && Blocked() && Apart() && s in list && s !in doomed && s.process == 0
      modifies this`db, this`requested, this`started, this`failed, this`revived, s`process
      ensures Linked() && Indexed() && Blocked() && Apart()
      ensures if s.process == 0 then
                db == old(db) && started == old(started) && failed == old(failed) + [s] && requested == Some(State.CleanTtys)
              else
                && db == old(db)[s.process := s] && started == old(started) + [s] && failed == old(failed)
                && requested == old(requested)
      ensures s.process >= 0
    {
      hide Linked;
      var child := StartGetty(s);
      if child == -1 {
        // serious trouble
        requested := Some(State.CleanTtys);
        return;
      }
      s.process := child;
      AddSession(s);
    }

    method Respawn(s: Session)
      requires Linked() && Indexed() && Blocked() && Apart() && s in list && !s.shutdown && s.process > 0
      modifies this`db, this`requested, this`started, this`failed, this`revived, s`process
      ensures Linked() && Indexed() && Blocked() && Apart()
      ensures var rest := old(db) - {old(s.process)};
        if s.process == 0 then
          db == rest && started == old(started) && failed == old(failed) + [s] && requested == Some(State.CleanTtys)
        else
          && s.process > 0 && db == rest[s.process := s] && started == old(started) + [s] && failed == old(failed)
          && requested == old(requested)
    {
      hide Linked;
      Release(s);
      Launch(s);
    }

    /** collect_child: a session whose flag is set is removed; any other one gets a new getty. */
    method CollectChild(pid: int)
      requires Valid()
      modifies this`sessions, this`db, this`requested, this`list, this`freed, this`started, this`failed, this`revived
      modifies list`process, list`prev, list`next
      ensures Valid()
      ensures pid !in old(db) ==>
        list == old(list) && db == old(db) && freed == old(freed) && started == old(started) && failed == old(failed)
      ensures old(freed) <= freed
      ensures pid in old(db) ==> var s := old(db[pid]);
        if s.shutdown then
          && s !in list && freed == old(freed) + {s} && db == old(db) - {pid} && started == old(started) && failed == old(failed)
          && exists i :: 0 <= i < |old(list)| && old(list)[i] == s && list == old(list)[..i] + old(list)[i + 1..]
        else
          && list == old(list) && freed == old(freed)
          && (if s.process == 0 then
                && db == old(db) - {pid} && started == old(started) && failed == old(failed) + [s]
                && requested == Some(State.CleanTtys)
              else
                && s.process > 0 && db == (old(db) - {pid})[s.process := s] && started == old(started) + [s]
                && failed == old(failed) && requested == old(requested))
      ensures forall s :: s in old(list) && s.process != old(s.process) ==> pid in old(db) && s == old(db[pid])
      ensures requested in {old(requested), Some(State.CleanTtys)}
      ensures requested == old(requested) || |failed| == |old(failed)| + 1
    {
      hide Linked, Blocked;
      if sessions == null { assert list == [] by { EmptyList(); } return; }
      var s := FindSession(pid);
      if s == null { return; }
      if s.shutdown { Remove(s); } else { Respawn(s); }
    }

    lemma EmptyList()
      requires Linked()
      ensures sessions == null <==> list == []
    {
    }

    // ----- the list as a whole

    method Append(sprev: Session?, s: Session)
      requires Linked() && s !in list && s.next == null && s.prev == null
      requires sprev == if list == [] then null else list[|list| - 1]
      modifies this`sessions, this`list, list`next, s`prev
      ensures Linked() && list == old(list) + [s]
    {
      if sprev == null {
        sessions := s;
      } else {
        sprev.next := s;
        s.prev := sprev;
      }
      list := list + [s];
    }

    /** new_session: appends a session to the list; `sprev` is the last one. */
    method NewSession(sprev: Session?, index: nat, typ: TtyEnt) returns (s: Session?)
      requires Valid() && sprev == if list == [] then null else list[|list| - 1]
      modifies this`sessions, this`list, this`freed, list`next
      ensures Valid() && freed >= old(freed)
      ensures s != null <==> Startable(typ)
      ensures s == null ==> list == old(list)
      ensures s != null ==> fresh(s) && list == old(list) + [s] && MadeFor(s, index, typ)
    {
      hide Linked, HasWord;
      if !typ.on || typ.getty.None? { return null; }
      s := new Session(DEV + typ.name, index);
      var ok := s.SetUpArgs(typ);
      if !ok {
        freed := freed + {s};
        return null;
      }
      Append(sprev, s);
    }

    /** The first loop of read_ttys. */
    method FreeAll()
      requires Valid()
      modifies this`sessions, this`db, this`list, this`freed, this`doomed
      ensures Valid() && list == [] && db == map[] && freed == old(freed) + old(Listed())
    {
      var s := sessions;
      ghost var j := 0;
      while s != null
        invariant Linked() && list == old(list) && 0 <= j <= |list| && s == (if j < |list| then list[j] else null)
        invariant freed == old(freed) + (set r | r in list[..j])
        decreases |list| - j
      {
        assert s.next == list[j].next && list[..j + 1] == list[..j] + [s];
        freed, s, j := freed + {s}, s.next, j + 1;
      }
      assert list[..j] == list;
      sessions, db, list, doomed := null, map[], [], {};
    }

    /** The loop of read_ttys, for one line. */
    method ReadLine(sprev: Session?, ttys: seq<TtyEnt>, k: nat) returns (last: Session?)
      requires Valid() && sprev == (if list == [] then null else list[|list| - 1]) && k < |ttys|
      requires MadeFromLines(list, ttys[..k])
      modifies this`sessions, this`list, this`freed, list`next
      ensures Valid() && last == if list == [] then null else list[|list| - 1]
      ensures MadeFromLines(list, ttys[..k + 1]) && freed >= old(freed)
      ensures forall i :: 0 <= i < |list| ==> list[i] in old(list) || fresh(list[i])
    {
      hide Linked, Indexed, Blocked, Apart, MadeFromLines, MadeFor, Startable;
      var s := NewSession(sprev, k + 1, ttys[k]);
      MadeNext(old(list), list, ttys, k);
      last := if s == null then sprev else s;
    }

    /** read_ttys: forgets every session and makes one for each line that can be started. */
    method ReadTtys(ttys: seq<TtyEnt>, dbOpens: bool) returns (next: State)
      requires Valid()
      modifies this`sessions, this`db, this`list, this`freed, this`doomed
      ensures Valid() && db == map[] && old(Listed()) <= freed && started == old(started)
      ensures next == if dbOpens then State.MultiUser else State.SingleUser
      ensures MadeFromLines(list, if dbOpens then ttys else []) && fresh(list)
      ensures WereRead(if dbOpens then ttys else [], old(Now()), Now())
    {
      hide Linked, Indexed, Blocked, Apart;
      hide MadeFromLines;
      NoLines();
      FreeAll();
      if !dbOpens {
        Reads(old(Now()), []);
        return State.SingleUser;
      }
      var last: Session?, k := null, 0;
      while k < |ttys|
        invariant 0 <= k <= |ttys| && Valid() && db == map[] && last == if list == [] then null else list[|list| - 1]
        invariant freed >= old(Listed()) && MadeFromLines(list, ttys[..k]) && fresh(list)
      {
        last := ReadLine(last, ttys, k);
        k := k + 1;
      }
      assert ttys[..k] == ttys;
      Reads(old(Now()), ttys);
      next := State.MultiUser;
    }

    /** The new sessions, seen from outside. */
    lemma Reads(v: View, ttys: seq<TtyEnt>)
      requires Apart() && MadeFromLines(list, ttys) && started == v.started && failed == v.failed
      requires forall s :: s in v.list ==> s in freed
      ensures WereRead(ttys, v, Now())
    {
      hide Startable;
      forall i | 0 <= i < |list| ensures MadeFor(list[i], StartableLines(ttys)[i], ttys[StartableLines(ttys)[i] - 1]) {}
    }

    /** The session behind a listed one. */
    method Following(s: Session, ghost j: nat) returns (t: Session?)
      requires Linked() && j < |list| && list[j] == s
      ensures t == if j + 1 < |list| then list[j + 1] else null
    {
      t := s.next;
      assert list[j].next == t;
    }

    // ----- the states

    /** The first loop of multi_user: every session without a process gets a getty, whatever its flags. */
    method OpenSessions()
      requires Valid() && requested.None?
      modifies this`db, this`requested, this`started, this`failed, this`revived, list`process
      ensures Valid() && Opened(old(Now()), Now(), requested)
    {
      hide Linked, Indexed, Blocked, Apart, Opened, Idle, Shown;
      ghost var v := Now();
      NoneIdle(list[..0], v.at);
      var s, j := sessions, 0;
      assert Head() by { HeadIsFirst(); }
      while s != null
        invariant Valid() && 0 <= j <= |list| && s == (if j < |list| then list[j] else null) && requested.None?
        invariant SameButProcess(v) && failed == v.failed && started == v.started + Idle(list[..j], v.at)
        invariant forall r :: r in list && (v.at[r].process != 0 || r in list[j..]) ==> r.process == v.at[r].process
        invariant forall r :: r in list[..j] && v.at[r].process == 0 ==> r.process > 0
        decreases |list| - j
      {
        assert s !in list[..j] && s in list[j..] && s !in list[j + 1..] by { Once(j); }
        IdleStep(list, v.at, j);
        if s.process == 0 {
          assert s !in doomed by { NotDoomed(s); }
          Launch(s);
          if s.process == 0 {
            StoppedAt(v, j);
            return;
          }
        }
        assert list[..j + 1] == list[..j] + [s] && list[j..] == [s] + list[j + 1..];
        s := Following(s, j);
        j := j + 1;
      }
      assert list[..j] == list;
      StartedAll(v);
    }

    /** The entries are those of `v`, except for the processes. */
    ghost predicate SameButProcess(v: View)
      reads this`list, list`index, list`shutdown, list`getty, list`window
    {
      && list == v.list && Shown(v)
      && forall s :: s in list ==> Entry(s.index, v.at[s].process, s.shutdown, s.getty, s.window) == v.at[s]
    }

    lemma StartedAll(v: View)
      requires SameButProcess(v) && freed == v.freed && started == v.started + Idle(v.list, v.at) && failed == v.failed
      requires forall s :: s in list ==> if v.at[s].process == 0 then s.process > 0 else s.process == v.at[s].process
      ensures Opened(v, Now(), None)
    {
      OpenedWhole(v, Now());
    }

    lemma StoppedAt(v: View, j: nat)
      requires Linked() && SameButProcess(v) && freed == v.freed && j < |list| && requested == Some(State.CleanTtys)
      requires v.at[list[j]].process == 0 && started == v.started + Idle(list[..j], v.at) && failed == v.failed + [list[j]]
      requires forall s :: s in list && (v.at[s].process != 0 || s in list[j..]) ==> s.process == v.at[s].process
      requires forall s :: s in list[..j] && v.at[s].process == 0 ==> s.process > 0
      ensures Opened(v, Now(), requested)
    {
      hide Linked, Opened;
      assert Distinct(list) by { AllDistinct(); }
      OpenedPrefix(v, Now(), j, requested);
    }

    ghost predicate Head()
      reads this`sessions, this`list
    {
      sessions == if list == [] then null else list[0]
    }

    lemma HeadIsFirst()
      requires Linked()
      ensures Head()
    {
    }

    lemma NotDoomed(s: Session)
      requires Blocked() && s in list && s.process == 0
      ensures s !in doomed
    {
    }

    lemma Once(j: nat)
      requires Linked() && j < |list|
      ensures list[j] !in list[..j] && list[j] in list[j..] && list[j] !in list[j + 1..]
    {
    }

    /** Children are collected, and signals noted, until a transition is requested. */
    method Watch(events: seq<Event>) returns (ghost seen: nat)
      requires Valid() && requested.None?
      modifies this`sessions, this`db, this`requested, this`list, this`freed, this`started, this`failed, this`revived
      modifies list`process, list`prev, list`next
      ensures Valid() && Watched(events, seen, old(Now()), Now(), requested)
    {
      hide Linked, Blocked, Indexed, Apart, Collects;
      ghost var v := Now();
      var k := 0;
      CollectsNone(v);
      assert PidsOf(events[..0]) == {};
      while requested.None? && k < |events|
        invariant Valid() && forall i :: 0 <= i < |list| ==> list[i] in old(list)
        invariant 0 <= k <= |events| && Watched(events[..k], k, v, Now(), requested)
      {
        hide Watched;
        Note(events, k, v);
        k := k + 1;
      }
      seen := k;
      WatchedAll(events, k, v, Now(), requested);
    }

    /** One event. */
    method Note(events: seq<Event>, k: nat, ghost v: View)
      requires Valid() && requested.None? && k < |events| && Watched(events[..k], k, v, Now(), None)
      modifies this`sessions, this`db, this`requested, this`list, this`freed, this`started, this`failed, this`revived
      modifies list`process, list`prev, list`next
      ensures Valid() && Watched(events[..k + 1], k + 1, v, Now(), requested)
      ensures forall s :: s in list ==> s in old(list)
    {
      hide Linked, Blocked, Indexed, Apart, Collects;
      assert events[..k + 1][..k] == events[..k] && events[..k + 1] == events[..k] + [events[k]];
      assert events[..k][..k] == events[..k] && events[..k + 1][..k + 1] == events[..k + 1];
      match events[k] {
        case Child(pid) =>
          assert PidsOf(events[..k + 1]) == PidsOf(events[..k]) + {pid};
          Collect(pid, PidsOf(events[..k]), v);
        case Signal(transition) =>
          assert PidsOf(events[..k + 1]) == PidsOf(events[..k]);
          requested := transition;
      }
    }

    /** collect_child, and what it does seen from outside. */
    method CollectOne(pid: int) returns (ghost owner: Option<Session>)
      requires Valid()
      modifies this`sessions, this`db, this`requested, this`list, this`freed, this`started, this`failed, this`revived
      modifies list`process, list`prev, list`next
      ensures Valid() && CollectsOne(pid, owner, old(Now()), Now()) && WithoutOne(old(list), list)
      ensures if |failed| == |old(failed)| then requested == old(requested) && failed == old(failed)
              else requested == Some(State.CleanTtys) && |failed| == |old(failed)| + 1
    {
      hide Linked, Blocked, CollectsOne, Subsequence, WithoutOne;
      ghost var t := Now();
      owner := if pid in db then Some(db[pid]) else None;
      assert Owns(pid, owner, t) by { Owner(pid); }
      CollectChild(pid);
      assert WithoutOne(t.list, list) by {
        IsWithout(t.list, 0);
        if list != t.list {
          var i: nat :| 0 <= i < |t.list| && t.list[i] == owner.value && list == t.list[..i] + t.list[i + 1..];
          IsWithout(t.list, i);
        }
      }
      OneCollected(pid, owner, t);
    }

    lemma OneCollected(pid: int, owner: Option<Session>, t: View)
      requires Owns(pid, owner, t) && Shown(t) && t.freed <= freed && WithoutOne(t.list, list)
      requires owner.Some? && t.at[owner.value].shutdown ==> owner.value !in list && owner.value in freed
      requires owner.None? || !t.at[owner.value].shutdown ==> list == t.list
      requires forall s :: s in t.list && owner != Some(s) ==> s in list
      requires forall s :: s in t.list ==>
        var e := Entry(s.index, s.process, s.shutdown, s.getty, s.window);
        e == if owner == Some(s) then t.at[s].(process := s.process) else t.at[s]
      requires if owner.Some? && !t.at[owner.value].shutdown && owner.value.process != 0
        then started == t.started + [owner.value] && failed == t.failed
        else started == t.started && failed == t.failed + if owner.Some? && !t.at[owner.value].shutdown then [owner.value] else []
      ensures CollectsOne(pid, owner, t, Now())
    {
      hide Subsequence;
      SubsequenceRefl(t.list);
      StillSubsequence(t.list, list, t.list);
    }

    /** The same, after others since `v`. */
    method Collect(pid: int, ghost pids: set<int>, ghost v: View)
      requires Valid() && Collects(pids, v, Now())
      modifies this`sessions, this`db, this`requested, this`list, this`freed, this`started, this`failed, this`revived
      modifies list`process, list`prev, list`next
      ensures Valid() && Collects(pids + {pid}, v, Now())
      ensures forall s :: s in list ==> s in old(list)
      ensures if |failed| == |old(failed)| then requested == old(requested) && failed == old(failed)
              else requested == Some(State.CleanTtys) && |failed| == |old(failed)| + 1
    {
      hide Linked, Blocked, Indexed, Apart, Collects, CollectsOne, WithoutOne;
      ghost var t := Now();
      ghost var owner := CollectOne(pid);
      CollectedList(pids, v, t);
      StillSubsequence(t.list, list, v.list);
      CollectsNext(pids, pid, owner, v, t, Now());
    }

    /** The session of a process id. */
    ghost predicate Owns(pid: int, owner: Option<Session>, t: View) {
      && (forall s :: s in t.list ==> s in t.at && (owner == Some(s) <==> t.at[s].process == pid && pid != 0))
      && (owner.Some? ==> owner.value in t.list && pid > 0)
    }

    lemma Owner(pid: int)
      requires Indexed()
      ensures Owns(pid, if pid in db then Some(db[pid]) else None, Now())
    {
    }

    /** multi_user. */
    method MultiUser(events: seq<Event>) returns (next: Option<State>, ghost mid: View, ghost seen: nat)
      requires Valid()
      modifies this`sessions, this`db, this`requested, this`list, this`freed, this`started, this`failed, this`revived
      modifies list`process, list`prev, list`next
      ensures Valid() && next == requested && WentMultiUser(events, old(Now()), mid, seen, Now(), next)
      ensures forall s :: s in list ==> s in old(list)
    {
      hide Linked, Blocked, Indexed, Apart, Opened, Watched;
      requested := None;
      // The security level is not part of this model.
      OpenSessions();
      mid, seen := Now(), 0;
      assert list == old(list) by { OpenedList(old(Now()), Now(), requested); }
      if requested.None? { seen := Watch(events); }
      next := requested;
      if mid != Now() || seen != 0 || next.None? { WatchedList(events, seen, mid, Now(), next); }
    }

    /** The loop that death and catatonia share. */
    method BlockAll()
      requires Valid()
      modifies list`shutdown
      ensures Valid() && Now() == Flagged(old(Now()))
    {
      ghost var v := Now();
      var s, j := sessions, 0;
      while s != null
        invariant 0 <= j <= |list| && s == (if j < |list| then list[j] else null)
        invariant forall r :: r in list[..j] ==> r.shutdown
        decreases |list| - j
      {
        s.shutdown := true;
        assert list[..j + 1] == list[..j] + [s];
        s := Following(s, j);
        j := j + 1;
      }
      assert list[..j] == list;
      StillBlocked(v);
      AllFlagged(v);
    }

    lemma StillBlocked(v: View)
      requires list == v.list && Linked() && Indexed() && Apart() && forall s :: s in list ==> s.shutdown
      requires doomed !! revived && (forall s :: s in doomed ==> s in list || s in freed)
      requires forall s :: s in doomed && s in list ==> s.process > 0
      ensures Valid()
    {
    }

    lemma AllFlagged(v: View)
      requires Shown(v) && list == v.list && freed == v.freed && started == v.started && failed == v.failed
      requires forall s :: s in list ==> Entry(s.index, s.process, s.shutdown, s.getty, s.window) == v.at[s].(shutdown := true)
      ensures Now() == Flagged(v)
    {
    }

    /** catatonia: from here on, sessions that have a process are removed instead of restarted. */
    method Catatonia() returns (next: State)
      requires Valid()
      modifies this`doomed, this`revived, list`shutdown
      ensures Valid() && next == State.MultiUser && Now() == Flagged(old(Now()))
      ensures forall s :: s in list && s.process != 0 ==> s in doomed
    {
      hide Linked, Indexed, Blocked, Apart, Flagged;
      BlockAll();
      FlagsShow(old(Now()));
      doomed, revived := set s | s in list && s.process != 0, {};
      assert Blocked() by { AllDoomed(); }
      next := State.MultiUser;
    }

    lemma AllDoomed()
      requires Indexed() && revived == {} && doomed == (set s | s in list && s.process != 0) && forall s :: s in list ==> s.shutdown
      ensures Blocked()
    {
    }

    lemma FlagsShow(v: View)
      requires Shown(v) && Now() == Flagged(v)
      ensures forall s :: s in list ==> s.shutdown
    {
      forall s | s in list ensures s.shutdown { assert Now().at[s].shutdown; }
    }

    /** death: the flagged sessions go as their processes end, and no getty is started. */
    method Death(rounds: seq<Round>) returns (next: State)
      requires Valid()
      modifies this`sessions, this`db, this`requested, this`list, this`freed, this`started, this`failed, this`revived
      modifies list`process, list`prev, list`next, list`shutdown
      ensures Valid() && next == State.SingleUser
      ensures Collects(DeathPids(rounds, 3), Flagged(old(Now())), Now())
    {
      hide Linked, Blocked, Indexed, Apart, Collects, Flagged;
      BlockAll();
      FlaggedList(old(Now()));
      ghost var v := Now();
      CollectsNone(v);
      var k := 0;
      ghost var pids: set<int> := {};
      while k < 3 && k < |rounds|
        invariant Valid() && (forall s :: s in list ==> s in old(list)) && forall i :: 0 <= i < |list| ==> list[i] in old(list)
        invariant 0 <= k <= 3 && k <= |rounds| && Collects(pids, v, Now())
        invariant DeathPids(rounds, 3) == pids + DeathPids(rounds[k..], 3 - k)
      {
        assert rounds[k..][0] == rounds[k] && rounds[k..][1..] == rounds[k + 1..];
        if rounds[k].Nobody? { return State.SingleUser; }
        CollectAll(rounds[k].events, pids, v);
        assert rounds[k].childless ==> DeathPids(rounds[k..], 3 - k) == PidsOf(rounds[k].events);
        pids := pids + PidsOf(rounds[k].events);
        if rounds[k].childless { return State.SingleUser; }
        k := k + 1;
      }
      next := State.SingleUser;
    }

    /** All of these events, whatever is requested meanwhile. */
    method CollectAll(events: seq<Event>, ghost pids: set<int>, ghost v: View)
      requires Valid() && Collects(pids, v, Now())
      modifies this`sessions, this`db, this`requested, this`list, this`freed, this`started, this`failed, this`revived
      modifies list`process, list`prev, list`next
      ensures Valid() && Collects(pids + PidsOf(events), v, Now())
      ensures forall s :: s in list ==> s in old(list)
    {
      hide Linked, Blocked, Indexed, Apart, Collects;
      assert pids + PidsOf(events[..0]) == pids;
      for k := 0 to |events|
        invariant Valid() && Collects(pids + PidsOf(events[..k]), v, Now())
        invariant (forall s :: s in list ==> s in old(list)) && forall i :: 0 <= i < |list| ==> list[i] in old(list)
      {
        assert events[..k + 1] == events[..k] + [events[k]];
        match events[k] {
          case Child(pid) =>
            assert pids + PidsOf(events[..k + 1]) == pids + PidsOf(events[..k]) + {pid};
            Collect(pid, pids + PidsOf(events[..k]), v);
          case Signal(transition) =>
            assert pids + PidsOf(events[..k + 1]) == pids + PidsOf(events[..k]);
            requested := transition;
        }
      }
      assert events[..|events|] == events;
    }

    // ----- clean_ttys

    /** What clean_ttys makes of the sessions that it finds on these lines. */
    ghost predicate Judged(i: nat, ttys: seq<TtyEnt>)
      requires i < |list|
      reads this`list, list`present, list`shutdown, list`index, list`getty, list`window
    {
      var (s, k) := (list[i], LastLine(ttys, list[i].device));
      && (s.present <==> First(list, i) && k > 0)
      && (s.present ==> s.index == k && (s.shutdown <==> !StartableAt(ttys, k)) && (!s.shutdown ==> Runs(s, ttys[k - 1])))
    }

    method ClearPresent()
      requires Linked()
      modifies list`present
      ensures forall s :: s in list ==> !s.present
    {
      var s, j := sessions, 0;
      while s != null
        invariant 0 <= j <= |list| && s == (if j < |list| then list[j] else null)
        invariant forall r :: r in list[..j] ==> !r.present
        decreases |list| - j
      {
        s.present := false;
        assert list[..j + 1] == list[..j] + [s];
        s := Following(s, j);
        j := j + 1;
      }
      assert list[..j] == list;
    }

    /** The search for the session of a line, which stops at the end of the list. */
    method Search(name: string) returns (sprev: Session?, s: Session?, ghost i: nat)
      requires Linked()
      ensures i <= |list| && s == (if i < |list| then list[i] else null)
      ensures s != null ==> s.device == DEV + name
      ensures s == null ==> sprev == if list == [] then null else list[|list| - 1]
      ensures forall j :: 0 <= j < i ==> list[j].device != DEV + name
    {
      sprev, s, i := null, sessions, 0;
      while s != null && s.device != DEV + name
        invariant 0 <= i <= |list| && s == (if i < |list| then list[i] else null)
        invariant sprev == if i == 0 then null else list[i - 1]
        invariant forall j :: 0 <= j < i ==> list[j].device != DEV + name
        decreases |list| - i
      {
        var t := Following(s, i);
        sprev, s, i := s, t, i + 1;
      }
    }

    /** A line whose session exists. The signal to the session's process is not modelled. */
    method Revise(s: Session, index: nat, typ: TtyEnt)
      modifies s`present, s`shutdown, s`index, s`getty, s`window
      ensures s.present && s.index == index && (s.shutdown <==> !Startable(typ)) && (!s.shutdown ==> Runs(s, typ))
    {
      s.present := true;
      if s.index != index { s.index := index; }
      if !typ.on || typ.getty.None? {
        s.shutdown := true;
        return;
      }
      s.shutdown := false;
      var ok := s.SetUpArgs(typ);
      if !ok { s.shutdown := true; }
    }

    /** A line whose device has a session, the `at`-th. */
    method VisitKnown(s: Session, ghost at: nat, index: nat, ghost ttys: seq<TtyEnt>, typ: TtyEnt)
      requires Valid() && doomed == {} && index == |ttys| + 1 && forall i :: 0 <= i < |list| ==> Judged(i, ttys)
      requires at < |list| && s == list[at] && s.device == DEV + typ.name && First(list, at)
      modifies list`present, list`shutdown, list`index, list`getty, list`window
      ensures Valid() && forall i :: 0 <= i < |list| ==> Judged(i, ttys + [typ])
    {
      hide Startable, LastLine, Linked, Indexed, Blocked, Apart, Runs, StartableAt, First;
      assert Distinct(list) by { AllDistinct(); }
      LineAdded(list, at, ttys, typ);
      Revise(s, index, typ);
      assert Blocked() by { NoneDoomed(); }
      forall i | 0 <= i < |list| ensures Judged(i, ttys + [typ]) {
        LineAdded(list, i, ttys, typ);
        assert old(Judged(i, ttys));
      }
    }

    method Visit(index: nat, ghost ttys: seq<TtyEnt>, typ: TtyEnt)
      requires Valid() && doomed == {} && index == |ttys| + 1 && forall i :: 0 <= i < |list| ==> Judged(i, ttys)
      modifies this`sessions, this`list, this`freed, list`next
      modifies list`present, list`shutdown, list`index, list`getty, list`window
      ensures Valid() && old(list) <= list && forall i :: |old(list)| <= i < |list| ==> fresh(list[i]) && list[i].process == 0
      ensures forall i :: 0 <= i < |list| ==> Judged(i, ttys + [typ])
      ensures freed >= old(freed) && AddedFor(typ, old(list), list)
      ensures Startable(typ) ==> HasSession(list, DEV + typ.name)
    {
      hide Startable, LastLine, Linked, Indexed, Blocked, Apart, Runs, StartableAt, First;
      var sprev, s, at := Search(typ.name);
      ghost var was := list;
      if s != null {
        LineAdded(list, at, ttys, typ);
        VisitKnown(s, at, index, ttys, typ);
      } else {
        s := NewSession(sprev, index, typ);
        forall i | 0 <= i < |list| ensures Judged(i, ttys + [typ]) {
          LineAdded(list, i, ttys, typ);
          if i < |was| {
            FirstInPrefix(was, list, i);
            assert list[i] == was[i] && old(Judged(i, ttys));
          }
        }
        if s != null { NewIsFirst(was, list, s); }
      }
    }

    static lemma NewIsFirst(was: seq<Session>, list: seq<Session>, s: Session)
      requires list == was + [s] && forall j :: 0 <= j < |was| ==> was[j].device != s.device
      ensures First(list, |was|) && HasSession(list, s.device)
    {
      assert s in list;
    }

    /** What another line changes: only sessions for its device are judged by it. */
    static lemma LineAdded(list: seq<Session>, i: nat, ttys: seq<TtyEnt>, typ: TtyEnt)
      requires i < |list|
      ensures var k := LastLine(ttys + [typ], list[i].device);
        && (DEV + typ.name == list[i].device ==> k == |ttys| + 1 && (StartableAt(ttys + [typ], k) <==> Startable(typ)))
        && (DEV + typ.name != list[i].device ==>
             && k == LastLine(ttys, list[i].device) && (StartableAt(ttys + [typ], k) <==> StartableAt(ttys, k))
             && (k > 0 ==> (ttys + [typ])[k - 1] == ttys[k - 1]))
      ensures First(list, i) <==> forall j :: 0 <= j < i ==> list[j].device != list[i].device
    {
      hide Startable, LastLine;
      LastLineSnoc(ttys, typ, list[i].device);
    }

    lemma AllDistinct()
      requires Linked()
      ensures Distinct(list)
    {
    }

    lemma NoneDoomed()
      requires doomed == {}
      ensures Blocked()
    {
    }

    method MarkAbsent()
      requires Linked()
      modifies list`shutdown
      ensures forall s :: s in list ==> (s.shutdown <==> !s.present || old(s.shutdown))
    {
      hide Linked;
      assert Head() by { HeadIsFirst(); }
      var s, j := sessions, 0;
      while s != null
        invariant 0 <= j <= |list| && s == (if j < |list| then list[j] else null)
        invariant forall r :: r in list[..j] ==> (r.shutdown <==> !r.present || old(r.shutdown))
        invariant forall r :: r in list[j..] ==> r.shutdown == old(r.shutdown)
        decreases |list| - j
      {
        assert s !in list[..j] && s in list[j..] && s !in list[j + 1..] by { Once(j); }
        assert list[..j + 1] == list[..j] + [s] && list[j..] == [s] + list[j + 1..];
        assert forall r :: r in list[j + 1..] ==> r in list[j..] && r != s;
        assert forall r :: r in list[..j + 1] ==> r in list[..j] || r == s;
        if !s.present { s.shutdown := true; }
        s := Following(s, j);
        j := j + 1;
      }
      assert list[..j] == list;
    }

    /** The loop over the lines of the ttys file. */
    method JudgeAll(ttys: seq<TtyEnt>)
      requires Valid() && doomed == {} && forall s :: s in list ==> !s.present
      modifies this`sessions, this`list, this`freed, list`next
      modifies list`present, list`shutdown, list`index, list`getty, list`window
      ensures Valid() && old(list) <= list
      ensures forall i :: |old(list)| <= i < |list| ==> fresh(list[i]) && list[i].process == 0
      ensures forall i :: 0 <= i < |list| ==> Judged(i, ttys)
      ensures freed >= old(freed) && Added(old(list), list, ttys)
    {
      hide Startable, Linked, Indexed, Blocked, Apart, Runs;
      NoneAdded(list, ttys[..0]);
      for k := 0 to |ttys|
        invariant Valid() && doomed == {} && old(list) <= list
        invariant forall i :: |old(list)| <= i < |list| ==> fresh(list[i]) && list[i].process == 0
        invariant forall i :: 0 <= i < |list| ==> Judged(i, ttys[..k])
        invariant freed >= old(freed) && Added(old(list), list, ttys[..k])
      {
        hide Judged, Added, AddedFor, First, HasSession, HasLine;
        ghost var was := list;
        Visit(k + 1, ttys[..k], ttys[k]);
        assert ttys[..k + 1] == ttys[..k] + [ttys[k]];
        AddedMore(old(list), was, list, ttys[..k], ttys[k]);
      }
      assert ttys[..|ttys|] == ttys;
    }

    /** The loops of clean_ttys: afterwards a session is flagged unless it is the first one for its device
        and the last line for that device can be started. No session is lost. */
    method CleanAll(ttys: seq<TtyEnt>)
      requires Valid()
      modifies this`sessions, this`list, this`freed, this`doomed, list`next
      modifies list`present, list`shutdown, list`index, list`getty, list`window
      ensures Valid() && old(list) <= list && freed >= old(freed) && Added(old(list), list, ttys)
      ensures forall i :: |old(list)| <= i < |list| ==> fresh(list[i]) && list[i].process == 0
      ensures forall i :: 0 <= i < |list| ==> var k := LastLine(ttys, list[i].device);
        && (list[i].shutdown <==> !(First(list, i) && StartableAt(ttys, k)))
        && (!list[i].shutdown ==> list[i].index == k && Runs(list[i], ttys[k - 1]))
    {
      hide Added, Startable, Linked, Indexed, Blocked, Apart, LastLine, First, Runs;
      ClearPresent();
      doomed := {};
      assert Blocked() by { NoneDoomed(); }
      JudgeAll(ttys);
      label judged:
      MarkAbsent();
      assert Blocked() by { NoneDoomed(); }
      forall i | 0 <= i < |list|
        ensures var k := LastLine(ttys, list[i].device);
          && (list[i].shutdown <==> !(First(list, i) && StartableAt(ttys, k)))
          && (!list[i].shutdown ==> list[i].index == k && Runs(list[i], ttys[k - 1]))
      {
        assert old@judged(Judged(i, ttys));
      }
    }

    /** clean_ttys. */
    method CleanTtys(ttys: seq<TtyEnt>) returns (next: State)
      requires Valid()
      modifies this`sessions, this`list, this`freed, this`doomed, list`next
      modifies list`present, list`shutdown, list`index, list`getty, list`window
      ensures Valid() && next == State.MultiUser && WereCleaned(ttys, old(Now()), Now())
      ensures forall i :: 0 <= i < |list| ==> list[i] in old(list) || fresh(list[i])
    {
      hide Startable, Linked, Indexed, Blocked, Apart, LastLine, First, Runs, Added, WereCleaned;
      ghost var v := Now();
      CleanAll(ttys);
      Cleans(v, ttys);
      next := State.MultiUser;
    }

    lemma Cleans(v: View, ttys: seq<TtyEnt>)
      requires Shown(v) && v.list <= list && started == v.started && failed == v.failed && v.freed <= freed
      requires Added(v.list, list, ttys) && forall s :: s in v.list ==> s.process == v.at[s].process
      requires forall i :: |v.list| <= i < |list| ==> list[i] !in v.list && list[i].process == 0
      requires forall i :: 0 <= i < |list| ==> var k := LastLine(ttys, list[i].device);
        && (list[i].shutdown <==> !(First(list, i) && StartableAt(ttys, k)))
        && (!list[i].shutdown ==> list[i].index == k && Runs(list[i], ttys[k - 1]))
      ensures WereCleaned(ttys, v, Now())
    {
      hide Startable, LastLine, First, HasSession, HasLine;
      assert forall i :: 0 <= i < |v.list| ==> v.list[i] == list[i];
    }

    // ----- the machine

    /** single_user: children are collected while its shell runs, until a transition is requested. */
    method SingleUser(events: seq<Event>, shellEnds: State) returns (next: State, ghost seen: nat)
      requires Valid()
      modifies this`sessions, this`db, this`requested, this`list, this`freed, this`started, this`failed, this`revived
      modifies list`process, list`prev, list`next
      ensures Valid() && Watched(events, seen, old(Now()), Now(), requested)
      ensures next == if requested.Some? then requested.value else shellEnds
    {
      hide Linked, Blocked, Indexed, Apart, Watched;
      requested := None;
      seen := Watch(events);
      next := if requested.Some? then requested.value else shellEnds;
    }

    /** runcom waits for its script to end, whatever is requested meanwhile. */
    method Runcom(events: seq<Event>, scriptEnds: State) returns (next: State)
      requires Valid()
      modifies this`sessions, this`db, this`requested, this`list, this`freed, this`started, this`failed, this`revived
      modifies list`process, list`prev, list`next
      ensures Valid() && Collects(PidsOf(events), old(Now()), Now()) && next == scriptEnds
    {
      hide Linked, Blocked, Indexed, Apart, Collects;
      CollectsNone(Now());
      CollectAll(events, {}, Now());
      assert {} + PidsOf(events) == PidsOf(events);
      next := scriptEnds;
    }

    /** One state function; without a next state, multi_user is still waiting. */
    method Enter(state: State, input: Input) returns (next: Option<State>, ghost mid: View)
      requires Valid()
      modifies this, list
      ensures Valid() && CanFollow(state, input, next) && Entered(state, input, next, old(Now()), mid, Now())
      ensures forall i :: 0 <= i < |list| ==> list[i] in old(list) || fresh(list[i])
    {
      hide Linked, Blocked, Indexed, Apart, Collects, Watched, WereRead, WereCleaned, WentMultiUser, Flagged;
      mid := Now();
      ghost var seen;
      var following := State.MultiUser;
      match state {
        case SingleUser =>
          following, seen := SingleUser(input.events, input.next);
          WatchedList(input.events, seen, mid, Now(), requested);
        case Runcom =>
          following := Runcom(input.events, input.next);
          CollectedList(PidsOf(input.events), mid, Now());
        case ReadTtys => following := ReadTtys(input.ttys, input.dbOpens);
        case MultiUser =>
          ghost var v := mid;
          next, mid, seen := MultiUser(input.events);
          MultiUserLeads(input, v, mid, seen, Now(), next);
          return;
        case CleanTtys => following := CleanTtys(input.ttys);
        case Catatonia =>
          following := Catatonia();
        case Death =>
          following := Death(input.rounds);
          FlaggedList(mid);
          CollectedList(DeathPids(input.rounds, 3), Flagged(mid), Now());
      }
      next := Some(following);
    }

    /** transition: whatever happens, the list, the database and the freed sessions stay
        consistent, and no session that was alive when logins were blocked is started again. Every state
        function does what it does, and leads to the next one. */
    method Transition(start: State, inputs: seq<Input>) returns (ghost path: seq<State>, ghost views: seq<View>, ghost mids: seq<View>)
      requires Valid()
      modifies this, list
      ensures Valid()
      ensures 0 < |path| <= |inputs| + 1 && path[0] == start
      ensures |views| == (if |path| <= |inputs| then |path| + 1 else |path|) && |mids| == |views| - 1
      ensures views[0] == old(Now()) && views[|views| - 1] == Now()
      ensures forall i :: 0 <= i < |mids| ==>
        var next := if i + 1 < |path| then Some(path[i + 1]) else None;
        CanFollow(path[i], inputs[i], next) && Entered(path[i], inputs[i], next, views[i], mids[i], views[i + 1])
    {
      hide Linked, Blocked, Indexed, Apart, CanFollow, Entered;
      var state, k := start, 0;
      path, views, mids := [start], [Now()], [];
      while k < |inputs|
        invariant 0 <= k <= |inputs| && |path| == |views| == k + 1 && |mids| == k && path[0] == start && path[k] == state
        invariant Valid() && forall i :: 0 <= i < |list| ==> list[i] in old(list) || fresh(list[i])
        invariant views[0] == old(Now()) && views[k] == Now()
        invariant forall i :: 0 <= i < k ==>
          CanFollow(path[i], inputs[i], Some(path[i + 1])) && Entered(path[i], inputs[i], Some(path[i + 1]), views[i], mids[i], views[i + 1])
      {
        ghost var mid;
        var next;
        next, mid := Enter(state, inputs[k]);
        views, mids := views + [Now()], mids + [mid];
        if next.None? { return; }
        state, k, path := next.value, k + 1, path + [next.value];
      }
    }
  }
}
