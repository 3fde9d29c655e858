/** TM2C as a step relation: application threads running transaction attempts, lock
    services running their receive loops, FIFO channels between them, and the shared
    abort flags and memory.  Every step is one atomic action of one thread. */
module Protocol {
  import opened Locks

  /** `route` is the fixed map from addresses to services. */
  datatype Config = Config(apps: nat, svcs: nat, route: int -> nat)

  ghost predicate ValidConfig(c: Config) {
    forall x: int :: c.route(x) < c.svcs
  }

  /** One word of a write set or one raw read. */
  datatype Access = Access(addr: int, val: int)

  datatype Lock = Lock(addr: int, mode: Mode)

  datatype Msg =
    | Request(addr: int, mode: Mode, prio: nat)
    | RemoveNode(prio: nat)

  datatype AppPc =
    | Idle
    | Running
    | Cleared                                                    // just saw its own flag clear
    | Waiting(addr: int, mode: Mode, reply: Option<Conflict>)    // blocked in an RPC
    | Persisting(next: nat)                                      // storing entry `next` of the write set
    | Releasing(next: nat, committed: bool)                      // in the release loop, at service `next`

  datatype App = App(
    pc: AppPc,
    prio: nat,               // tx_committed or tx_duration: sent with every message
    ws: seq<Access>,         // write set
    seen: seq<Access>,       // raw reads of this attempt and what they returned
    peeked: seq<Access>,     // the same for reads that took no lock
    granted: set<Lock>,      // locks the services said yes to in this attempt
    contacted: seq<nat>,     // nodes_contacted: requests per service, in 16 bits
    sent: seq<nat>)          // history: the same counts without the 16-bit limit

  datatype SvcPc =
    | Ready
    | Evicting(sender: nat, addr: int, mode: Mode, reason: Conflict, todo: set<nat>)
    | Purging(sender: nat, addr: int, mode: Mode, reason: Conflict, todo: set<nat>, victim: nat)
    | PurgingSelf(node: nat)

  datatype Svc = Svc(
    pc: SvcPc,
    holds: set<Hold>,        // the lock table
    prios: seq<nat>,         // cm_metadata_core
    inbox: seq<seq<Msg>>)    // one FIFO channel per application

  /** What a committed attempt read and wrote.  A plain store to private memory takes effect
      at once: it counts as an attempt of its own. */
  datatype Commit = Commit(node: nat, plain: bool, seen: seq<Access>, peeked: seq<Access>, ws: seq<Access>)

  datatype State = State(
    apps: seq<App>,
    flags: seq<Conflict>,
    svcs: seq<Svc>,
    mem: map<int, int>,
    init: map<int, int>,         // history: the memory before the first step
    log: seq<Commit>,            // history: attempts in the order of their successful CAS to PERSISTING
    skipped: set<(nat, nat)>,    // history: (application, service) that the latest release loop with something
                                 // to release passed by in error
    under: map<Hold, nat>)       // history: the priority of the request that a lock was granted to, for locks
                                 // that were not left behind that way

  const CONTACT_LIMIT: nat := 0x1_0000

  function Load(m: map<int, int>, x: int): int { if x in m then m[x] else 0 }

  function Store(m: map<int, int>, ws: seq<Access>): map<int, int> {
    if ws == [] then m else Store(m, ws[..|ws| - 1])[ws[|ws| - 1].addr := ws[|ws| - 1].val]
  }

  /** The memory after running the logged attempts one after the other. */
  function SerialMem(init: map<int, int>, log: seq<Commit>): map<int, int> {
    if log == [] then init else Store(SerialMem(init, log[..|log| - 1]), log[|log| - 1].ws)
  }

  predicate Buffered(ws: seq<Access>, x: int) { exists i | 0 <= i < |ws| :: ws[i].addr == x }

  ghost predicate WellFormed(c: Config, s: State) {
    && |s.apps| == |s.flags| == c.apps
    && |s.svcs| == c.svcs
    && (forall a | 0 <= a < c.apps :: |s.apps[a].contacted| == |s.apps[a].sent| == c.svcs)
    && (forall v | 0 <= v < c.svcs :: |s.svcs[v].prios| == |s.svcs[v].inbox| == c.apps)
    && (forall v, x | 0 <= v < c.svcs && x in s.svcs[v].holds :: x.node < c.apps)
  }

  ghost predicate Init(c: Config, s: State) {
    && WellFormed(c, s)
    && (forall a | 0 <= a < c.apps ::
          s.flags[a] == NoConflict && s.apps[a] == App(Idle, 0, [], [], [], {}, seq(c.svcs, _ => 0), seq(c.svcs, _ => 0)))
    && (forall v | 0 <= v < c.svcs ::
          s.svcs[v] == Svc(Ready, {}, seq(c.apps, _ => 0), seq(c.apps, _ => [])))
    && s.mem == s.init && s.log == [] && s.skipped == {} && s.under == map[]
  }

  datatype Step =
    | TxStart(a: nat)
    | CheckAborted(a: nat)
    | Send(a: nat, addr: int, mode: Mode)
    | Receive(a: nat)
    | RawRead(a: nat, addr: int)
    | Peek(a: nat, addr: int)
    | PlainStore(a: nat, addr: int, val: int)
    | Insert(a: nat, addr: int, val: int)
    | TryPersist(a: nat)
    | PersistEntry(a: nat)
    | Publish(a: nat)
    | Release(a: nat)
    | Finish(a: nat, prio: nat)
    | Serve(v: nat, a: nat)
    | AbortNode(v: nat, victim: nat)
    | DeleteNode(v: nat)
    | Grant(v: nat)
    | DeleteSelf(v: nat)

  predicate IsAppStep(t: Step) {
    !t.Serve? && !t.AbortNode? && !t.DeleteNode? && !t.Grant? && !t.DeleteSelf?
  }

  predicate Refused(pc: AppPc) { pc.Waiting? && pc.reply.Some? && pc.reply.value != NoConflict }

  /** The attempt can still commit. */
  predicate Live(app: App, flag: Conflict) {
    var pc := app.pc;
    pc.Persisting? || ((pc.Running? || pc.Cleared? || (pc.Waiting? && !Refused(pc))) && flag == NoConflict)
  }

  /** `app` was told it has `l`, or the telling is on its way. */
  predicate HasLock(app: App, l: Lock) {
    l in app.granted || (app.pc.Waiting? && app.pc.reply == Some(NoConflict) && l == Lock(app.pc.addr, app.pc.mode))
  }

  /** No attempt that can still commit has a lock on `x`. */
  ghost predicate Private(s: State, x: int)
    requires |s.apps| == |s.flags|
  {
    forall b, m | 0 <= b < |s.apps| && Live(s.apps[b], s.flags[b]) :: !HasLock(s.apps[b], Lock(x, m))
  }

  ghost predicate AppEnabled(c: Config, s: State, t: Step)
    requires WellFormed(c, s) && ValidConfig(c) && IsAppStep(t)
  {
    t.a < c.apps &&
    var app := s.apps[t.a];
    match t
    case TxStart(a) => app.pc.Idle?
    case CheckAborted(a) => app.pc.Running?
    case Send(a, x, m) =>
      // tx_load looks in the write set first
      app.pc.Cleared? && (m == Rd ==> !Buffered(app.ws, x))
    case Receive(a) => app.pc.Waiting? && app.pc.reply.Some?
    case RawRead(a, x) => app.pc.Running? && (Lock(x, Rd) in app.granted || Lock(x, Wr) in app.granted)
    case Peek(a, _) => app.pc.Running? || app.pc.Cleared?
    case PlainStore(a, x, _) => (app.pc.Idle? || app.pc.Running? || app.pc.Cleared?) && Private(s, x)
    case Insert(a, x, _) =>
      // TX_STORE checks the flag first; TX_LOAD_STORE inserts right after taking the lock
      app.pc.Cleared? || (app.pc.Running? && Lock(x, Wr) in app.granted)
    case TryPersist(a) =>
      app.pc.Running? && forall i | 0 <= i < |app.ws| :: Lock(app.ws[i].addr, Wr) in app.granted
    case PersistEntry(a) => app.pc.Persisting? && app.pc.next < |app.ws|
    case Publish(a) => app.pc.Persisting? && app.pc.next >= |app.ws|
    case Release(a) => app.pc.Releasing? && app.pc.next < c.svcs
    case Finish(a, p) =>
      app.pc.Releasing? && app.pc.next >= c.svcs && (if app.pc.committed then p >= app.prio else p == app.prio)
  }

  ghost predicate SvcEnabled(c: Config, s: State, t: Step)
    requires WellFormed(c, s) && !IsAppStep(t)
  {
    t.v < c.svcs &&
    var svc := s.svcs[t.v];
    match t
    case Serve(v, a) => svc.pc.Ready? && a < c.apps && |svc.inbox[a]| > 0
    case AbortNode(v, d) =>
      svc.pc.Evicting? && d < c.apps && d in svc.pc.todo && forall e | e in svc.pc.todo :: d <= e
    case DeleteNode(v) => svc.pc.Purging?
    case Grant(v) => svc.pc.Evicting? && svc.pc.todo == {} && svc.pc.sender < c.apps
    case DeleteSelf(v) => svc.pc.PurgingSelf?
  }

  ghost predicate Enabled(c: Config, s: State, t: Step)
    requires WellFormed(c, s) && ValidConfig(c)
  {
    if IsAppStep(t) then AppEnabled(c, s, t) else SvcEnabled(c, s, t)
  }

  // ------------------------------------------------------------ applications

  function SetApp(s: State, a: nat, app: App): State
    requires a < |s.apps|
  {
    s.(apps := s.apps[a := app])
  }

  function SetPc(s: State, a: nat, pc: AppPc): State
    requires a < |s.apps|
  {
    SetApp(s, a, s.apps[a].(pc := pc))
  }

  function SetFlag(s: State, a: nat, f: Conflict): State
    requires a < |s.flags|
  {
    s.(flags := s.flags[a := f])
  }

  function Post(s: State, v: nat, a: nat, m: Msg): State
    requires v < |s.svcs| && a < |s.svcs[v].inbox|
  {
    s.(svcs := s.svcs[v := s.svcs[v].(inbox := s.svcs[v].inbox[a := s.svcs[v].inbox[a] + [m]])])
  }

  function DoTxStart(s: State, a: nat): State
    requires a < |s.apps| && a < |s.flags|
  {
    SetApp(SetFlag(s, a, NoConflict), a, s.apps[a].(pc := Running, ws := [], seen := [], peeked := [], granted := {}))
  }

  function DoCheckAborted(s: State, a: nat): State
    requires a < |s.apps| && a < |s.flags|
  {
    SetPc(s, a, if s.flags[a] == NoConflict then Cleared else Releasing(0, false))
  }

  /** nodes_contacted is an array of unsigned shorts. */
  function NextCount(n: nat): nat { (n + 1) % CONTACT_LIMIT }

  function DoSend(c: Config, s: State, a: nat, x: int, m: Mode): State
    requires a < |s.apps| && c.route(x) < |s.svcs| && c.route(x) < |s.apps[a].contacted| == |s.apps[a].sent|
    requires a < |s.svcs[c.route(x)].inbox|
  {
    var v := c.route(x);
    var app := s.apps[a];
    Post(SetApp(s, a, app.(pc := Waiting(x, m, None),
                           contacted := app.contacted[v := NextCount(app.contacted[v])],
                           sent := app.sent[v := app.sent[v] + 1])),
         v, a, Request(x, m, app.prio))
  }

  function DoReceive(c: Config, s: State, a: nat): State
    requires a < |s.apps| && s.apps[a].pc.Waiting? && s.apps[a].pc.reply.Some?
    requires c.route(s.apps[a].pc.addr) < |s.apps[a].contacted| == |s.apps[a].sent|
  {
    var app := s.apps[a];
    var v := c.route(app.pc.addr);
    if app.pc.reply.value == NoConflict then
      SetApp(s, a, app.(pc := Running, granted := app.granted + {Lock(app.pc.addr, app.pc.mode)}))
    else
      SetApp(s, a, app.(pc := Releasing(0, false), contacted := app.contacted[v := 0], sent := app.sent[v := 0]))
  }

  function DoRawRead(s: State, a: nat, x: int): State
    requires a < |s.apps|
  {
    SetApp(s, a, s.apps[a].(seen := s.apps[a].seen + [Access(x, Load(s.mem, x))]))
  }

  function DoPeek(s: State, a: nat, x: int): State
    requires a < |s.apps|
  {
    SetApp(s, a, s.apps[a].(peeked := s.apps[a].peeked + [Access(x, Load(s.mem, x))]))
  }

  function DoPlainStore(s: State, a: nat, x: int, val: int): State {
    s.(mem := s.mem[x := val], log := s.log + [Commit(a, true, [], [], [Access(x, val)])])
  }

  function DoInsert(s: State, a: nat, x: int, val: int): State
    requires a < |s.apps|
  {
    SetApp(s, a, s.apps[a].(pc := Running, ws := s.apps[a].ws + [Access(x, val)]))
  }

  function Committing(app: App, a: nat): Commit { Commit(a, false, app.seen, app.peeked, app.ws) }

  function DoTryPersist(s: State, a: nat): State
    requires a < |s.apps| && a < |s.flags|
  {
    if s.flags[a] == NoConflict then
      SetPc(SetFlag(s, a, PersistingWrites), a, Persisting(0))
      .(log := s.log + [Committing(s.apps[a], a)])
    else
      SetPc(s, a, Releasing(0, false))
  }

  function DoPersistEntry(s: State, a: nat): State
    requires a < |s.apps| && s.apps[a].pc.Persisting? && s.apps[a].pc.next < |s.apps[a].ws|
  {
    var e := s.apps[a].ws[s.apps[a].pc.next];
    SetPc(s, a, Persisting(s.apps[a].pc.next + 1)).(mem := s.mem[e.addr := e.val])
  }

  function DoPublish(s: State, a: nat): State
    requires a < |s.apps| && a < |s.flags|
  {
    SetPc(SetFlag(s, a, TxCommitted), a, Releasing(0, true))
  }

  /** One round of the release loop at a service that the counter says was contacted ... */
  function DoSendRelease(s: State, a: nat): State
    requires a < |s.apps| && s.apps[a].pc.Releasing? && s.apps[a].pc.next < |s.svcs|
    requires s.apps[a].pc.next < |s.apps[a].contacted| == |s.apps[a].sent|
    requires a < |s.svcs[s.apps[a].pc.next].inbox|
  {
    var app := s.apps[a];
    var v := app.pc.next;
    Post(SetApp(s, a, app.(pc := Releasing(v + 1, app.pc.committed),
                           contacted := app.contacted[v := 0], sent := app.sent[v := 0])),
         v, a, RemoveNode(app.prio))
    .(skipped := s.skipped - {(a, v)})
  }

  function HoldsOf(h: set<Hold>, node: nat): set<Hold> {
    set x | x in h && x.node == node
  }

  /** ... and at one that it says was not. */
  function DoPassBy(s: State, a: nat): State
    requires a < |s.apps| && s.apps[a].pc.Releasing? && s.apps[a].pc.next < |s.apps[a].sent| == |s.svcs|
  {
    var app := s.apps[a];
    var v := app.pc.next;
    var s' := SetApp(s, a, app.(pc := Releasing(v + 1, app.pc.committed), sent := app.sent[v := 0]));
    if app.sent[v] == 0 then s'
    else s'.(skipped := s.skipped + {(a, v)}, under := s.under - HoldsOf(s.svcs[v].holds, a))
  }

  function DoRelease(s: State, a: nat): State
    requires a < |s.apps| && s.apps[a].pc.Releasing? && s.apps[a].pc.next < |s.svcs|
    requires |s.svcs| == |s.apps[a].contacted| == |s.apps[a].sent|
    requires a < |s.svcs[s.apps[a].pc.next].inbox|
  {
    if s.apps[a].contacted[s.apps[a].pc.next] > 0 then DoSendRelease(s, a) else DoPassBy(s, a)
  }

  function DoFinish(s: State, a: nat, prio: nat): State
    requires a < |s.apps|
  {
    SetApp(s, a, s.apps[a].(pc := Idle, prio := prio))
  }

  // ---------------------------------------------------------------- services

  function SetSvc(s: State, v: nat, svc: Svc): State
    requires v < |s.svcs|
  {
    s.(svcs := s.svcs[v := svc])
  }

  function Reply(s: State, a: nat, r: Conflict): State
    requires a < |s.apps|
  {
    if s.apps[a].pc.Waiting? then SetPc(s, a, s.apps[a].pc.(reply := Some(r))) else s
  }

  /** The service after taking the oldest message of `a` and noting its priority. */
  function Taken(svc: Svc, a: nat): Svc
    requires a < |svc.inbox| == |svc.prios| && |svc.inbox[a]| > 0
  {
    svc.(inbox := svc.inbox[a := svc.inbox[a][1..]], prios := svc.prios[a := svc.inbox[a][0].prio])
  }

  function DoRemoveNode(s: State, v: nat, a: nat): State
    requires v < |s.svcs| && a < |s.svcs[v].inbox| == |s.svcs[v].prios| && |s.svcs[v].inbox[a]| > 0
  {
    var svc := Taken(s.svcs[v], a);
    SetSvc(s, v, svc.(holds := Without(svc.holds, {a})))
  }

  function DoEvict(s: State, v: nat, a: nat): State
    requires v < |s.svcs| && a < |s.svcs[v].inbox| == |s.svcs[v].prios| && |s.svcs[v].inbox[a]| > 0
    requires s.svcs[v].inbox[a][0].Request?
  {
    var svc := Taken(s.svcs[v], a);
    var msg := s.svcs[v].inbox[a][0];
    SetSvc(s, v, svc.(pc := Evicting(a, msg.addr, msg.mode, Reason(svc.holds, a, msg.addr, msg.mode),
                                     Blockers(svc.holds, a, msg.addr, msg.mode))))
  }

  /** The refusal is sent first, the sender's locks go afterwards. */
  function DoRefuse(s: State, v: nat, a: nat): State
    requires v < |s.svcs| && a < |s.svcs[v].inbox| == |s.svcs[v].prios| && |s.svcs[v].inbox[a]| > 0
    requires a < |s.apps| && s.svcs[v].inbox[a][0].Request?
  {
    var svc := Taken(s.svcs[v], a);
    var msg := s.svcs[v].inbox[a][0];
    Reply(SetSvc(s, v, svc.(pc := PurgingSelf(a))), a, Reason(svc.holds, a, msg.addr, msg.mode))
  }

  /** Whether the contention manager lets the request at the head of the channel of `a` through. */
  ghost predicate Admitted(s: State, v: nat, a: nat)
    requires v < |s.svcs| && a < |s.svcs[v].inbox| == |s.svcs[v].prios| && |s.svcs[v].inbox[a]| > 0
    requires s.svcs[v].inbox[a][0].Request?
    requires forall x | x in s.svcs[v].holds :: x.node < |s.svcs[v].prios|
  {
    var msg := s.svcs[v].inbox[a][0];
    Wins(s.svcs[v].holds, Taken(s.svcs[v], a).prios, a, msg.addr, msg.mode)
  }

  ghost function DoServe(s: State, v: nat, a: nat): State
    requires v < |s.svcs| && a < |s.svcs[v].inbox| == |s.svcs[v].prios| && |s.svcs[v].inbox[a]| > 0
    requires a < |s.apps| && forall x | x in s.svcs[v].holds :: x.node < |s.svcs[v].prios|
  {
    if s.svcs[v].inbox[a][0].RemoveNode? then DoRemoveNode(s, v, a)
    else if Admitted(s, v, a) then DoEvict(s, v, a)
    else DoRefuse(s, v, a)
  }

  /** One compare-and-swap of abort_node: spin while the victim is persisting. */
  function DoAbortNode(s: State, v: nat, d: nat): State
    requires v < |s.svcs| && s.svcs[v].pc.Evicting? && d < |s.flags|
  {
    var pc := s.svcs[v].pc;
    if s.flags[d] == PersistingWrites then s
    else
      SetSvc(SetFlag(s, d, if s.flags[d] == NoConflict then pc.reason else s.flags[d]), v,
             s.svcs[v].(pc := Purging(pc.sender, pc.addr, pc.mode, pc.reason, pc.todo - {d}, d)))
  }

  function DoDeleteNode(s: State, v: nat): State
    requires v < |s.svcs| && s.svcs[v].pc.Purging?
  {
    var pc := s.svcs[v].pc;
    SetSvc(s, v, s.svcs[v].(pc := Evicting(pc.sender, pc.addr, pc.mode, pc.reason, pc.todo),
                            holds := Without(s.svcs[v].holds, {pc.victim})))
  }

  function DoGrant(s: State, v: nat): State
    requires v < |s.svcs| && s.svcs[v].pc.Evicting? && s.svcs[v].pc.sender < |s.apps| == |s.svcs[v].prios|
  {
    var pc := s.svcs[v].pc;
    var x := Hold(pc.sender, pc.addr, pc.mode);
    Reply(SetSvc(s, v, s.svcs[v].(pc := Ready, holds := s.svcs[v].holds + {x})), pc.sender, NoConflict)
    .(under := s.under[x := s.svcs[v].prios[pc.sender]])
  }

  function DoDeleteSelf(s: State, v: nat): State
    requires v < |s.svcs| && s.svcs[v].pc.PurgingSelf?
  {
    SetSvc(s, v, s.svcs[v].(pc := Ready, holds := Without(s.svcs[v].holds, {s.svcs[v].pc.node})))
  }

  /** The steps that end an attempt. */
  predicate EndsAttempt(t: Step) { t.TryPersist? || t.PersistEntry? || t.Publish? || t.Release? || t.Finish? }

  function ApplyEnd(c: Config, s: State, t: Step): (s': State)
    requires WellFormed(c, s) && ValidConfig(c) && EndsAttempt(t) && AppEnabled(c, s, t)
    ensures |s'.apps| == |s'.flags| == c.apps && |s'.svcs| == c.svcs && s'.init == s.init
  {
    match t
    case TryPersist(a) => DoTryPersist(s, a)
    case PersistEntry(a) => DoPersistEntry(s, a)
    case Publish(a) => DoPublish(s, a)
    case Release(a) => DoRelease(s, a)
    case Finish(a, p) => DoFinish(s, a, p)
  }

  function ApplyApp(c: Config, s: State, t: Step): (s': State)
    requires WellFormed(c, s) && ValidConfig(c) && IsAppStep(t) && AppEnabled(c, s, t)
    ensures |s'.apps| == |s'.flags| == c.apps && |s'.svcs| == c.svcs && s'.init == s.init
  {
    if EndsAttempt(t) then ApplyEnd(c, s, t) else
    match t
    case TxStart(a) => DoTxStart(s, a)
    case CheckAborted(a) => DoCheckAborted(s, a)
    case Send(a, x, m) => DoSend(c, s, a, x, m)
    case Receive(a) => DoReceive(c, s, a)
    case RawRead(a, x) => DoRawRead(s, a, x)
    case Peek(a, x) => DoPeek(s, a, x)
    case PlainStore(a, x, val) => DoPlainStore(s, a, x, val)
    case Insert(a, x, val) => DoInsert(s, a, x, val)
  }

  ghost function ApplySvc(c: Config, s: State, t: Step): (s': State)
    requires WellFormed(c, s) && !IsAppStep(t) && SvcEnabled(c, s, t)
    ensures |s'.apps| == |s'.flags| == c.apps && |s'.svcs| == c.svcs && s'.init == s.init
  {
    match t
    case Serve(v, a) => DoServe(s, v, a)
    case AbortNode(v, d) => DoAbortNode(s, v, d)
    case DeleteNode(v) => DoDeleteNode(s, v)
    case Grant(v) => DoGrant(s, v)
    case DeleteSelf(v) => DoDeleteSelf(s, v)
  }

  ghost function Apply(c: Config, s: State, t: Step): (s': State)
    requires WellFormed(c, s) && ValidConfig(c) && Enabled(c, s, t)
    ensures |s'.apps| == |s'.flags| == c.apps && |s'.svcs| == c.svcs && s'.init == s.init
  {
    if IsAppStep(t) then ApplyApp(c, s, t) else ApplySvc(c, s, t)
  }

  /** `s'` is the state after step `t` from `s`. */
  ghost predicate Next(c: Config, s: State, t: Step, s': State) {
    WellFormed(c, s) && ValidConfig(c) && Enabled(c, s, t) && s' == Apply(c, s, t)
  }

  /** Step `i` of a run. */
  ghost predicate StepAt(c: Config, states: seq<State>, steps: seq<Step>, i: nat)
    requires i < |steps| && |states| == |steps| + 1
  {
    Next(c, states[i], steps[i], states[i + 1])
  }

  /** The states passed by taking `steps` one after the other. */
  ghost predicate IsTrace(c: Config, states: seq<State>, steps: seq<Step>) {
    |states| == |steps| + 1 && forall i: nat | i < |steps| :: StepAt(c, states, steps, i)
  }

  /** `s` occurs in some run. */
  ghost predicate Reachable(c: Config, s: State) {
    && ValidConfig(c) && WellFormed(c, s)
    && exists states, steps :: IsTrace(c, states, steps) && Init(c, states[0]) && s == states[|steps|]
  }
}
