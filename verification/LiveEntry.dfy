/** One query's value and its three flags, as the lock of an entry guards them
    (crates/mail-client/src/live.rs).

    The functions below say what each locked section does to an entry; the class `LiveEntry` is
    the entry itself, changed in place, each method proved to do what its function says. The
    protocol of `LiveProtocol` is built from the same functions, so what is proved of its runs is
    about these sections and no others. */
module LiveEntry {
  import opened Options

  /** What a caller asks; equal queries share one entry. */
  type Query(==, !new)
  /** What a query answers, compared with `==` to tell news from the same answer again. */
  type Value(==, !new)
  /** Why a reading failed. */
  type Error(==, 0, !new)

  /** How one reading ended. */
  datatype Outcome = Ok(value: Value) | Err(error: Error)

  /** A value as it stands. `asOf` is a count of commits. */
  datatype Snapshot =
    | Loading(last: Option<Value>)
    | Ready(value: Value, asOf: nat)
    | Failed(error: Error, last: Option<Value>)
  {
    /** The answer there is to show, whichever state it is in, if any reading has answered. */
    function Shown(): Option<Value> {
      match this
      case Ready(value, _) => Some(value)
      case Loading(last) => last
      case Failed(_, last) => last
    }
  }

  datatype Entry = Entry(
    query: Query,
    snapshot: Snapshot,
    queued: bool,
    running: bool,
    again: bool,
    told: nat,
    read: nat)

  /** A new entry: nothing to show, and already counted as queued. */
  function Fresh(query: Query): Entry {
    Entry(query, Loading(None), true, false, false, 0, 0)
  }

  /** Whether a mark puts the entry in the queue. */
  predicate Wanted(e: Entry) {
    !e.running && !e.queued
  }

  function Marked(e: Entry): Entry {
    if e.running then e.(again := true) else e.(queued := true)
  }

  function Begun(e: Entry): Entry {
    e.(queued := false, running := true)
  }

  /** What is shown after a reading that ended in `outcome`. */
  function After(shown: Snapshot, outcome: Outcome, asOf: nat): Snapshot {
    match outcome
    case Ok(value) => Ready(value, asOf)
    case Err(error) => Failed(error, shown.Shown())
  }

  /** Whether whoever waits for a change is told of it. */
  predicate News(shown: Snapshot, outcome: Outcome) {
    match outcome
    case Ok(value) => shown.Shown() != Some(value) || shown.Failed?
    case Err(_) => true
  }

  function Ended(e: Entry, outcome: Outcome, asOf: nat): Entry {
    e.(snapshot := After(e.snapshot, outcome, asOf), running := false, again := false, queued := e.queued || e.again)
  }

  /** What two snapshots look like to whoever shows them: the value, and the failure if any. The
      `asOf` is not part of it. */
  predicate LooksSame(a: Snapshot, b: Snapshot) {
    && a.Shown() == b.Shown()
    && (a.Failed? <==> b.Failed?)
    && (a.Failed? ==> a.error == b.error)
  }

  /** A reading that changes what is shown is always news, and an equal answer to a value that was
      read and not failing never is. */
  lemma NewsIsWhatShows(shown: Snapshot, outcome: Outcome, asOf: nat)
    ensures !LooksSame(shown, After(shown, outcome, asOf)) ==> News(shown, outcome)
    ensures shown.Ready? && outcome == Ok(shown.value) ==> !News(shown, outcome)
    ensures News(shown, outcome) && outcome.Ok? ==> !LooksSame(shown, After(shown, outcome, asOf))
  {
  }

  /** The entry, changed in place under its lock. */
  class LiveEntry {
    const query: Query
    var snapshot: Snapshot
    var queued: bool
    var running: bool
    var again: bool
    var told: nat
    var read: nat

    /** The entry's value at this moment. */
    ghost function View(): (e: Entry)
      reads this
    {
      Entry(query, snapshot, queued, running, again, told, read)
    }

    constructor (query: Query)
      ensures View() == Fresh(query)
    {
      this.query := query;
      snapshot := Loading(None);
      queued, running, again := true, false, false;
      told, read := 0, 0;
    }

    /** A mark. Says whether the caller must queue the entry: only one that is idle is. */
    method Stale() returns (enqueue: bool)
      modifies this
      ensures View() == Marked(old(View()))
      ensures enqueue == Wanted(old(View()))
      ensures !(old(queued) && old(running)) ==> !(queued && running)
      ensures queued || (running && again)
      ensures enqueue ==> queued && !old(queued)
    {
      if running {
        again := true;
        return false;
      }
      if queued {
        return false;
      }
      queued := true;
      return true;
    }

    /** The first locked section of a reading. */
    method RunBegin()
      modifies this
      ensures View() == Begun(old(View()))
    {
      queued := false;
      running := true;
    }

    /** The second locked section, with the answer: what is shown from now on, whether that is news, and whether a mark
        came during the reading. */
    method RunEnd(answer: Outcome, asOf: nat) returns (news: bool, requeue: bool)
      modifies this
      ensures View() == Ended(old(View()), answer, asOf)
      ensures news == News(old(snapshot), answer)
      ensures requeue == old(again)
      ensures requeue ==> queued
    {
      running := false;
      var last := snapshot.Shown();
      var next: Snapshot;
      match answer {
        case Ok(value) =>
          if last == Some(value) {
            next, news := Ready(last.value, asOf), snapshot.Failed?;
          } else {
            next, news := Ready(value, asOf), true;
          }
        case Err(error) =>
          next, news := Failed(error, last), true;
      }
      snapshot := next;
      requeue := again;
      again := false;
      if requeue {
        queued := true;
      }
    }

    /** A whole reading on one thread with nobody else about: what an inline client does. It never
        asks to be read again, so the inline client's loop over it turns once. */
    method Run(answer: Outcome, asOf: nat) returns (requeue: bool)
      requires !again
      modifies this
      ensures !requeue
      ensures View() == Ended(Begun(old(View())), answer, asOf).(
                          told := old(told) + (if News(old(snapshot), answer) then 1 else 0),
                          read := old(read) + 1)
      ensures !queued && !running && !again
    {
      RunBegin();
      var news;
      news, requeue := RunEnd(answer, asOf);
      if news {
        told := told + 1;
      }
      read := read + 1;
    }
  }
}
