/** The timer and history records of the application, with the four-valued
    status and the shape of the payload a new timer is created from. */
module Types {

  datatype Option<+T> = None | Some(value: T) {
    function GetOr(default: T): T {
      match this
      case Some(v) => v
      case None => default
    }
  }

  /** The lifecycle state of a timer; serialized as a lower-case string. */
  datatype Status = Idle | Running | Paused | Completed

  /** A live timer. Durations and remaining times are whole seconds;
      timestamps are milliseconds since the epoch. `completedAt` is optional. */
  datatype Timer = Timer(
    id: string,
    name: string,
    duration: int,
    category: string,
    status: Status,
    remainingTime: int,
    halfwayAlert: bool,
    halfwayAlertTriggered: bool,
    createdAt: int,
    completedAt: Option<int>
  )

  /** A record of one completion. `completedAt` is mandatory here; the other
      four fields have the types of the timer fields they are copied from. */
  datatype HistoryEntry = HistoryEntry(
    id: string,
    name: string,
    category: string,
    duration: int,
    completedAt: int
  )

  /** The creation payload: a timer without the five fields the store
      computes (id, status, remainingTime, createdAt, halfwayAlertTriggered). */
  datatype Draft = Draft(
    name: string,
    duration: int,
    category: string,
    halfwayAlert: bool,
    completedAt: Option<int>
  )

  /** The string a status is stored and exported as. */
  function StatusName(s: Status): string {
    match s
    case Idle => "idle"
    case Running => "running"
    case Paused => "paused"
    case Completed => "completed"
  }

  /** Reads a stored status string back; any other string is not a status. */
  function ParseStatus(s: string): (r: Option<Status>)
    ensures r.Some? <==> s in {"idle", "running", "paused", "completed"}
  {
    if s == "idle" then Some(Idle)
    else if s == "running" then Some(Running)
    else if s == "paused" then Some(Paused)
    else if s == "completed" then Some(Completed)
    else None
  }

  /** The status type has exactly four values, with four distinct names, and
      the names read back as the statuses they came from. */
  lemma StatusNamesRoundTrip(s: Status, t: Status)
    ensures ParseStatus(StatusName(s)) == Some(s)
    ensures StatusName(s) == StatusName(t) ==> s == t
    ensures s == Idle || s == Running || s == Paused || s == Completed
  {
  }

  /** The history record of a timer completed at time `now`. */
  function EntryOf(t: Timer, now: int): HistoryEntry {
    HistoryEntry(t.id, t.name, t.category, t.duration, now)
  }

  /** The range invariant every stored timer is meant to keep. */
  predicate InRange(t: Timer) {
    0 <= t.remainingTime <= t.duration
  }

  predicate AllInRange(ts: seq<Timer>) {
    forall i :: 0 <= i < |ts| ==> InRange(ts[i])
  }

  /** No two timers in the list share an id. */
  predicate UniqueIds(ts: seq<Timer>) {
    forall i, j :: 0 <= i < j < |ts| ==> ts[i].id != ts[j].id
  }
}
