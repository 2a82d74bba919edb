/** The live-value cache as a protocol: every atomic step of the client's threads and of the
    store around them, in any interleaving (crates/mail-client/src/client.rs, live.rs, act.rs,
    external.rs; crates/mail-store/src/changes.rs).

    A step is one locked section, one atomic operation or one store operation. Every thread has a
    program counter; any thread may play any part, which allows every interleaving of the readers,
    the change thread, the act thread, the clock, the outside watch and the callers, and more. */
module LiveProtocol {
  import opened Options
  import opened LiveEntry

  /** The contents of the database, and the time on the client's clock. */
  type Db(!new)
  type Time(!new)

  datatype Topic =
    | Accounts | Labels | Folders | Summaries | Drafts | Outbox | Views
    | Contacts | Rules | Keys | Templates | Identities | FollowUps | Clock

  type Topics = set<Topic>

  const ALL: Topics := set topic: Topic | true

  predicate Meets(a: Topics, b: Topics) {
    a * b != {}
  }

  /** What the queries of a program are: the topics each names, and what each answers of a database
      at a time. */
  datatype Program = Program(topics: Query -> Topics, answer: (Query, Db, Time) -> Value)

  /** A query that does not name the clock does not read it. */
  ghost predicate Declared(p: Program) {
    forall q, db, t, t' :: Clock !in p.topics(q) ==> p.answer(q, db, t) == p.answer(q, db, t')
  }

  /** A commit that touched `topics` leaves the answer of every query that reads none of them. */
  ghost predicate Leaves(p: Program, before: Db, after: Db, topics: Topics) {
    forall q, t :: !Meets(topics, p.topics(q)) ==> p.answer(q, before, t) == p.answer(q, after, t)
  }

  datatype World = World(db: Db, clock: Time)

  /** One reading: when its clock was taken, when it was begun and what it read of (each a count
      of the world's changes by then), the generation it says, and how it ended. */
  datatype Reading = Reading(nowAt: nat, begun: nat, readAt: nat, asOf: nat, outcome: Outcome)

  /** Who answers for an entry that is queued or being read. */
  datatype Place = Nowhere | InQueue | Hand(thread: nat)

  /** An entry, how many `Live`s hold it, and its history: `begun` is when its current or last
      reading began, `last` its last reading, `shown` every snapshot it has had, `marks` how often
      it was marked stale and `served` how many of those marks came before its reading began. */
  datatype Slot = Slot(
    entry: Entry,
    lives: nat,
    place: Place,
    begun: nat,
    last: Option<Reading>,
    shown: seq<Snapshot>,
    marks: nat,
    served: nat)

  function NewSlot(q: Query, t: nat): Slot {
    Slot(Fresh(q), 1, Hand(t), 0, None, [Loading(None)], 0, 0)
  }

  /** What a thread does once it has put a job in the queue. */
  datatype Then = ToMarking(todo: seq<nat>) | ToLeaving | ToResting

  /** A thread's program counter. `job` is the index of an entry. */
  datatype Pc =
    | Resting
    | Owing(topics: Topics)                               // `invalidate`, before it collects
    | Marking(todo: seq<nat>)                             // `invalidate`, its loop
    | Adding(job: nat, next: Then)                        // `enqueue`, before it counts
    | Pushing(job: nat, next: Then)                       // `enqueue`, counted
    | Taken(job: nat)                                     // a reader, a weak reference in hand
    | Holding(job: nat)                                   // upgraded
    | Clocked(job: nat, nowAt: nat)                       // the clock taken
    | Running(job: nat, nowAt: nat)                       // `run`, first locked section done
    | Dated(job: nat, nowAt: nat, asOf: nat)              // the generation taken
    | Answered(job: nat, reading: Reading)                // the pinned reading made
    | Telling(job: nat, news: bool, again: bool)          // second locked section done
    | Counting(job: nat, again: bool)
    | Finished(job: nat, again: bool)                     // `run` returned
    | Parting                                             // before `busy` is taken down
    | Acting(act: nat, upto: nat)                         // the act thread, its commits so far

  /** Where the store's one writer stands: each commit is first visible, then counted, then sent. */
  datatype Writer =
    | Free
    | Committed(owner: nat, topics: Topics)
    | Published(owner: nat, topics: Topics)

  /** An act applied: the world's changes by its last commit, and its ticket's generation. */
  datatype Acted = Acted(act: nat, upto: nat, generation: nat)

  datatype State = State(
    worlds: seq<World>,       // every world there has been
    touched: seq<Topics>,     // what each change of it touched
    gens: seq<nat>,           // for each generation, the changes made by then
    writer: Writer,
    channel: seq<Topics>,     // commits sent and not heard
    version: nat,             // other processes' commits
    seen: nat,                // the ones looked at
    slots: seq<Slot>,
    queue: seq<nat>,
    busy: int,
    threads: seq<Pc>,
    stopping: bool,
    accepting: bool,          // whether acts are taken
    given: seq<nat>,          // every act taken, in order
    refused: seq<nat>,        // every act not taken, in order
    asked: seq<nat>,          // the ones waiting
    acted: seq<Acted>)        // the ones applied

  predicate Init(s: State) {
    && |s.worlds| == 1 && s.touched == [] && s.gens == [0] && s.writer == Free && s.channel == []
    && s.version == s.seen && s.slots == [] && s.queue == [] && s.busy == 0
    && (forall t :: 0 <= t < |s.threads| ==> s.threads[t] == Resting)
    && !s.stopping && s.accepting && s.given == [] && s.refused == [] && s.asked == [] && s.acted == []
  }

  /** The entries a thread keeps from being dropped. */
  function Strong(pc: Pc): set<nat> {
    match pc
    case Marking(todo) => set j | j in todo
    case Adding(job, next) => {job} + StrongThen(next)
    case Pushing(job, next) => {job} + StrongThen(next)
    case Holding(job) => {job}
    case Clocked(job, _) => {job}
    case Running(job, _) => {job}
    case Dated(job, _, _) => {job}
    case Answered(job, _) => {job}
    case Telling(job, _, _) => {job}
    case Counting(job, _) => {job}
    case Finished(job, _) => {job}
    case _ => {}
  }

  function StrongThen(next: Then): set<nat> {
    match next
    case ToMarking(todo) => set j | j in todo
    case _ => {}
  }

  /** Whether a weak reference to entry `j` can be upgraded. */
  ghost predicate Alive(s: State, j: nat) {
    && j < |s.slots|
    && (s.slots[j].lives > 0 || exists t :: 0 <= t < |s.threads| && j in Strong(s.threads[t]))
  }

  function Continue(next: Then): Pc {
    match next
    case ToMarking(todo) => Marking(todo)
    case ToLeaving => Parting
    case ToResting => Resting
  }

  /** What happens around the client's own work: the store's commits, other processes' commits,
      holders coming and going, acts, and stopping. */
  datatype Around =
    | Commit(owner: nat, topics: Topics, db: Db)
    | Publish
    | Send
    | Foreign(db: Db)
    | LiveFound(j: nat)
    | DropLive(j: nat)
    | Ask(act: nat)
    | ActBegin
    | ActEnd
    | Stop
    | CloseActs

  /** What a thread does that marks and queues: owing an invalidation, `invalidate`, `live` and
      `enqueue`. */
  datatype Marker =
    | Hear
    | Look
    | MoveClock(clock: Time)
    | Invalidate(topics: Topics)
    | Collect(todo: seq<nat>)
    | Mark
    | MarkedAll
    | LiveNew(query: Query)
    | Add
    | Push

  /** What a reader does up to its answer, in order. */
  datatype Reader =
    | Pop
    | Upgrade
    | Gone
    | TakeClock
    | Begin
    | TakeGeneration
    | Read(outcome: Outcome)

  /** What a reader does with its answer. */
  datatype Ender =
    | End
    | Tell
    | Count
    | Requeue
    | Release
    | Sub

  /** `t` is the thread that takes the step, where one of the client's does. */
  datatype Step =
    | Outside(t: nat, around: Around)
    | Marks(t: nat, marker: Marker)
    | Reads(t: nat, reader: Reader)
    | Ends(t: nat, ender: Ender)

  /** What a commit that named `topics` is said to have touched: everything, if it named nothing. */
  function Declares(topics: Topics): Topics {
    if topics == {} then ALL else topics
  }

  /** How many times the world has changed. */
  function Now(s: State): nat {
    |s.touched|
  }

  function Generation(s: State): int {
    |s.gens| - 1
  }

  function SetPc(s: State, t: nat, pc: Pc): State
    requires t < |s.threads|
  {
    s.(threads := s.threads[t := pc])
  }

  function SetSlot(s: State, j: nat, slot: Slot): State
    requires j < |s.slots|
  {
    s.(slots := s.slots[j := slot])
  }

  predicate At(s: State, t: nat) {
    t < |s.threads|
  }

  /** The job a thread has in hand is an entry. */
  predicate AtJob(s: State, t: nat) {
    && t < |s.threads|
    && (s.threads[t].Adding? || s.threads[t].Pushing? || s.threads[t].Taken? || s.threads[t].Holding?
        || s.threads[t].Clocked? || s.threads[t].Running? || s.threads[t].Dated? || s.threads[t].Answered?
        || s.threads[t].Telling? || s.threads[t].Counting? || s.threads[t].Finished?)
    && s.threads[t].job < |s.slots|
  }

  predicate Distinct(jobs: seq<nat>) {
    forall i, k :: 0 <= i < k < |jobs| ==> jobs[i] != jobs[k]
  }

  // ---------- the store

  /** The world changes to `world`, by something that touched `topics`. */
  ghost predicate Changes(s: State, s': State, topics: Topics, world: World) {
    && s'.worlds == s.worlds + [world]
    && s'.touched == s.touched + [topics]
  }

  /** A write under the writer's lock is committed, and from now on every new reading sees it. */
  ghost predicate CommitStep(p: Program, s: State, s': State, t: nat, topics: Topics, db: Db) {
    && |s.worlds| == Now(s) + 1
    && (s.writer.Free? || (s.writer.Committed? && s.writer.owner == t))
    && Leaves(p, s.worlds[Now(s)].db, db, Declares(topics))
    && Changes(s, s', Declares(topics), s.worlds[Now(s)].(db := db))
    && var all := Declares(topics) + (if s.writer.Committed? then s.writer.topics else {});
       var threads := if t < |s.threads| && s.threads[t].Acting?
                      then s.threads[t := s.threads[t].(upto := Now(s) + 1)] else s.threads;
       s' == s.(worlds := s'.worlds, touched := s'.touched, writer := Committed(t, all), threads := threads)
  }

  /** The writer is let go of: the commits made under it are counted as one more generation ... */
  ghost predicate PublishStep(s: State, s': State) {
    && s.writer.Committed?
    && s' == s.(gens := s.gens + [Now(s)], writer := Published(s.writer.owner, s.writer.topics))
  }

  /** ... and then sent to whoever listens. */
  ghost predicate SendStep(s: State, s': State) {
    && s.writer.Published?
    && s' == s.(channel := s.channel + [s.writer.topics], writer := Free)
  }

  /** Another process commits, to the same file. */
  ghost predicate ForeignStep(p: Program, s: State, s': State, db: Db) {
    && |s.worlds| == Now(s) + 1
    && Leaves(p, s.worlds[Now(s)].db, db, ALL)
    && Changes(s, s', ALL, s.worlds[Now(s)].(db := db))
    && s' == s.(worlds := s'.worlds, touched := s'.touched, version := s.version + 1)
  }

  // ---------- what makes a thread owe an invalidation

  /** A commit is heard, and gathered with the ones heard before it. */
  ghost predicate HearStep(s: State, s': State, t: nat) {
    && At(s, t) && (s.threads[t].Resting? || s.threads[t].Owing?) && s.channel != []
    && var more := if s.threads[t].Owing? then s.threads[t].topics else {};
       s' == SetPc(s, t, Owing(more + s.channel[0])).(channel := s.channel[1..])
  }

  /** The outside watch finds that another process has committed. */
  ghost predicate LookStep(s: State, s': State, t: nat) {
    && At(s, t) && s.threads[t].Resting? && s.seen != s.version
    && s' == SetPc(s, t, Owing(ALL)).(seen := s.version)
  }

  /** The client's clock reads otherwise from now on. */
  ghost predicate MoveClockStep(s: State, s': State, t: nat, clock: Time) {
    && |s.worlds| == Now(s) + 1
    && At(s, t) && s.threads[t].Resting?
    && Changes(s, s', {Clock}, s.worlds[Now(s)].(clock := clock))
    && s' == SetPc(s, t, Owing({Clock})).(worlds := s'.worlds, touched := s'.touched)
  }

  /** A caller asks for what reads `topics` to be read again. */
  ghost predicate InvalidateStep(s: State, s': State, t: nat, topics: Topics) {
    && At(s, t) && s.threads[t].Resting?
    && s' == SetPc(s, t, Owing(topics))
  }

  // ---------- `invalidate`

  /** Under the registry's lock: every entry still held that reads any of the topics. */
  ghost predicate CollectStep(p: Program, s: State, s': State, t: nat, todo: seq<nat>) {
    && At(s, t) && s.threads[t].Owing? && Distinct(todo)
    && (forall j: nat :: j in todo <==>
          Alive(s, j) && Meets(s.threads[t].topics, p.topics(s.slots[j].entry.query)))
    && s' == SetPc(s, t, Marking(todo))
  }

  function MarkSlot(slot: Slot, t: nat): Slot {
    slot.(entry := Marked(slot.entry), marks := slot.marks + 1,
          place := if Wanted(slot.entry) then Hand(t) else slot.place)
  }

  ghost predicate MarkStep(s: State, s': State, t: nat) {
    && At(s, t) && s.threads[t].Marking? && s.threads[t].todo != []
    && var job, rest := s.threads[t].todo[0], s.threads[t].todo[1..];
       && job < |s.slots|
       && s' == SetPc(SetSlot(s, job, MarkSlot(s.slots[job], t)), t,
                      if Wanted(s.slots[job].entry) then Adding(job, ToMarking(rest)) else Marking(rest))
  }

  ghost predicate MarkedAllStep(s: State, s': State, t: nat) {
    && At(s, t) && s.threads[t] == Marking([])
    && s' == SetPc(s, t, Resting)
  }

  // ---------- `enqueue`

  ghost predicate AddStep(s: State, s': State, t: nat) {
    && AtJob(s, t) && s.threads[t].Adding?
    && s' == SetPc(s, t, Pushing(s.threads[t].job, s.threads[t].next)).(busy := s.busy + 1)
  }

  ghost predicate PushStep(s: State, s': State, t: nat) {
    && AtJob(s, t) && s.threads[t].Pushing?
    && var job := s.threads[t].job;
       s' == SetPc(SetSlot(s, job, s.slots[job].(place := InQueue)), t, Continue(s.threads[t].next))
             .(queue := s.queue + [job])
  }

  // ---------- a reader

  ghost predicate PopStep(s: State, s': State, t: nat) {
    && At(s, t) && s.threads[t].Resting? && !s.stopping
    && s.queue != [] && s.queue[0] < |s.slots|
    && var job := s.queue[0];
       s' == SetPc(SetSlot(s, job, s.slots[job].(place := Hand(t))), t, Taken(job)).(queue := s.queue[1..])
  }

  ghost predicate UpgradeStep(s: State, s': State, t: nat) {
    && AtJob(s, t) && s.threads[t].Taken? && Alive(s, s.threads[t].job)
    && s' == SetPc(s, t, Holding(s.threads[t].job))
  }

  /** Nobody holds the value any more: it is not read. */
  ghost predicate GoneStep(s: State, s': State, t: nat) {
    && AtJob(s, t) && s.threads[t].Taken? && !Alive(s, s.threads[t].job)
    && var job := s.threads[t].job;
       s' == SetPc(SetSlot(s, job, s.slots[job].(place := Nowhere)), t, Parting)
  }

  /** The clock is taken before `run` is entered. */
  ghost predicate TakeClockStep(s: State, s': State, t: nat) {
    && AtJob(s, t) && s.threads[t].Holding?
    && s' == SetPc(s, t, Clocked(s.threads[t].job, Now(s)))
  }

  function BeginSlot(slot: Slot, now: nat): Slot {
    slot.(entry := Begun(slot.entry), begun := now, served := slot.marks)
  }

  ghost predicate BeginStep(s: State, s': State, t: nat) {
    && AtJob(s, t) && s.threads[t].Clocked?
    && var job := s.threads[t].job;
       s' == SetPc(SetSlot(s, job, BeginSlot(s.slots[job], Now(s))), t, Running(job, s.threads[t].nowAt))
  }

  ghost predicate TakeGenerationStep(s: State, s': State, t: nat) {
    && AtJob(s, t) && s.threads[t].Running? && |s.gens| > 0
    && s' == SetPc(s, t, Dated(s.threads[t].job, s.threads[t].nowAt, Generation(s)))
  }

  /** The pinned reading: the answer of one moment of the database, or a failure at any time. */
  ghost predicate ReadStep(p: Program, s: State, s': State, t: nat, outcome: Outcome) {
    && |s.worlds| == Now(s) + 1
    && AtJob(s, t) && s.threads[t].Dated? && s.threads[t].nowAt < |s.worlds|
    && var pc := s.threads[t];
       && (outcome.Ok? ==>
             outcome.value == p.answer(s.slots[pc.job].entry.query, s.worlds[Now(s)].db, s.worlds[pc.nowAt].clock))
       && s' == SetPc(s, t, Answered(pc.job, Reading(pc.nowAt, s.slots[pc.job].begun, Now(s), pc.asOf, outcome)))
  }

  function EndSlot(slot: Slot, t: nat, r: Reading): Slot {
    var entry := Ended(slot.entry, r.outcome, r.asOf);
    slot.(entry := entry, last := Some(r), shown := slot.shown + [entry.snapshot],
          place := if slot.entry.again then Hand(t) else Nowhere)
  }

  ghost predicate EndStep(s: State, s': State, t: nat) {
    && AtJob(s, t) && s.threads[t].Answered?
    && var job, r := s.threads[t].job, s.threads[t].reading;
       var slot := s.slots[job];
       s' == SetPc(SetSlot(s, job, EndSlot(slot, t, r)), t,
                   Telling(job, News(slot.entry.snapshot, r.outcome), slot.entry.again))
  }

  function TellSlot(slot: Slot, news: bool): Slot {
    slot.(entry := slot.entry.(told := slot.entry.told + (if news then 1 else 0)))
  }

  ghost predicate TellStep(s: State, s': State, t: nat) {
    && AtJob(s, t) && s.threads[t].Telling?
    && var pc := s.threads[t];
       s' == SetPc(SetSlot(s, pc.job, TellSlot(s.slots[pc.job], pc.news)), t, Counting(pc.job, pc.again))
  }

  function CountSlot(slot: Slot): Slot {
    slot.(entry := slot.entry.(read := slot.entry.read + 1))
  }

  ghost predicate CountStep(s: State, s': State, t: nat) {
    && AtJob(s, t) && s.threads[t].Counting?
    && var pc := s.threads[t];
       s' == SetPc(SetSlot(s, pc.job, CountSlot(s.slots[pc.job])), t, Finished(pc.job, pc.again))
  }

  ghost predicate RequeueStep(s: State, s': State, t: nat) {
    && AtJob(s, t) && s.threads[t].Finished? && s.threads[t].again && !s.stopping
    && s' == SetPc(s, t, Adding(s.threads[t].job, ToLeaving))
  }

  ghost predicate ReleaseStep(s: State, s': State, t: nat) {
    && AtJob(s, t) && s.threads[t].Finished? && (!s.threads[t].again || s.stopping)
    && var pc := s.threads[t];
       s' == SetPc(SetSlot(s, pc.job, if pc.again then s.slots[pc.job].(place := Nowhere) else s.slots[pc.job]),
                   t, Parting)
  }

  ghost predicate SubStep(s: State, s': State, t: nat) {
    && At(s, t) && s.threads[t].Parting?
    && s' == SetPc(s, t, Resting).(busy := s.busy - 1)
  }

  // ---------- callers

  /** A query nobody holds is asked for. */
  ghost predicate LiveNewStep(s: State, s': State, t: nat, q: Query) {
    && At(s, t) && s.threads[t].Resting?
    && (forall j: nat :: Alive(s, j) ==> s.slots[j].entry.query != q)
    && s' == SetPc(s, t, Adding(|s.slots|, ToResting)).(slots := s.slots + [NewSlot(q, t)])
  }

  /** A value someone holds is handed over, or a `Live` is cloned. */
  ghost predicate LiveFoundStep(s: State, s': State, j: nat) {
    && Alive(s, j)
    && s' == SetSlot(s, j, s.slots[j].(lives := s.slots[j].lives + 1))
  }

  ghost predicate DropLiveStep(s: State, s': State, j: nat) {
    && j < |s.slots| && s.slots[j].lives > 0
    && s' == SetSlot(s, j, s.slots[j].(lives := s.slots[j].lives - 1))
  }

  // ---------- acts, and stopping

  /** An act is given, `act` the number of its ticket. Once the client is stopping none is taken. */
  ghost predicate AskStep(s: State, s': State, act: nat) {
    && act !in s.given && act !in s.refused
    && s' == if s.accepting then s.(given := s.given + [act], asked := s.asked + [act])
             else s.(refused := s.refused + [act])
  }

  ghost predicate ActBeginStep(s: State, s': State, t: nat) {
    && At(s, t) && s.threads[t].Resting? && s.asked != []
    && (forall u :: 0 <= u < |s.threads| ==> !s.threads[u].Acting?)
    && s' == SetPc(s, t, Acting(s.asked[0], 0)).(asked := s.asked[1..])
  }

  /** The act has run, its own hold of the writer let go of: its ticket says the generation. */
  ghost predicate ActEndStep(s: State, s': State, t: nat) {
    && At(s, t) && s.threads[t].Acting? && |s.gens| > 0
    && (s.writer.Free? || s.writer.owner != t)
    && s' == SetPc(s, t, Resting).(acted := s.acted + [Acted(s.threads[t].act, s.threads[t].upto, Generation(s))])
  }

  ghost predicate StopStep(s: State, s': State) {
    s' == s.(stopping := true)
  }

  ghost predicate CloseActsStep(s: State, s': State) {
    s.stopping && s' == s.(accepting := false)
  }

  ghost predicate OutsideNext(p: Program, s: State, s': State, t: nat, step: Around) {
    match step
    case Commit(owner, topics, db) => CommitStep(p, s, s', owner, topics, db)
    case Publish => PublishStep(s, s')
    case Send => SendStep(s, s')
    case Foreign(db) => ForeignStep(p, s, s', db)
    case LiveFound(j) => LiveFoundStep(s, s', j)
    case DropLive(j) => DropLiveStep(s, s', j)
    case Ask(act) => AskStep(s, s', act)
    case ActBegin => ActBeginStep(s, s', t)
    case ActEnd => ActEndStep(s, s', t)
    case Stop => StopStep(s, s')
    case CloseActs => CloseActsStep(s, s')
  }

  ghost predicate MarksNext(p: Program, s: State, s': State, t: nat, step: Marker) {
    match step
    case Hear => HearStep(s, s', t)
    case Look => LookStep(s, s', t)
    case MoveClock(clock) => MoveClockStep(s, s', t, clock)
    case Invalidate(topics) => InvalidateStep(s, s', t, topics)
    case Collect(todo) => CollectStep(p, s, s', t, todo)
    case Mark => MarkStep(s, s', t)
    case MarkedAll => MarkedAllStep(s, s', t)
    case LiveNew(q) => LiveNewStep(s, s', t, q)
    case Add => AddStep(s, s', t)
    case Push => PushStep(s, s', t)
  }

  ghost predicate ReadsNext(p: Program, s: State, s': State, t: nat, step: Reader) {
    match step
    case Pop => PopStep(s, s', t)
    case Upgrade => UpgradeStep(s, s', t)
    case Gone => GoneStep(s, s', t)
    case TakeClock => TakeClockStep(s, s', t)
    case Begin => BeginStep(s, s', t)
    case TakeGeneration => TakeGenerationStep(s, s', t)
    case Read(outcome) => ReadStep(p, s, s', t, outcome)
  }

  ghost predicate EndsNext(s: State, s': State, t: nat, step: Ender) {
    match step
    case End => EndStep(s, s', t)
    case Tell => TellStep(s, s', t)
    case Count => CountStep(s, s', t)
    case Requeue => RequeueStep(s, s', t)
    case Release => ReleaseStep(s, s', t)
    case Sub => SubStep(s, s', t)
  }

  ghost predicate Next(p: Program, s: State, s': State, step: Step) {
    match step
    case Outside(t, around) => OutsideNext(p, s, s', t, around)
    case Marks(t, marker) => MarksNext(p, s, s', t, marker)
    case Reads(t, reader) => ReadsNext(p, s, s', t, reader)
    case Ends(t, ender) => EndsNext(s, s', t, ender)
  }

  /** A run: states from an initial one, each got from the one before by a step. */
  ghost predicate IsRun(p: Program, run: seq<State>, steps: seq<Step>) {
    && |run| == |steps| + 1
    && Init(run[0])
    && forall i {:trigger steps[i]} :: 0 <= i < |steps| ==> Next(p, run[i], run[i + 1], steps[i])
  }
}
