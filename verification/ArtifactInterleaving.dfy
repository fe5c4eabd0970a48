/**
 * Writers, updaters, expirers and rolled-back spills sharing one artifact scope. Every process
 * moves one file-system step at a time, every step may fail, and a process may stop anywhere.
 */
module ArtifactInterleaving {
  import opened Prelude
  import opened ArtifactIndex
  import opened Utf8

  /** Where a process is between two steps. */
  datatype Phase =
    | Idle
    | Placing(row: Row, bytes: seq<Byte>)
    | Waiting(w: Work)
    | Holding(w: Work, read: Option<seq<Row>>)
    | Deleting(todo: set<string>)
    | Cleaning(id: string)
    | RollingBack(id: string)

  /** Whether a file was put in place, and whether the writer then went on. */
  datatype Placement = NotPlaced | PlacedButAbandoned | Placed

  datatype Move =
    | StartWrite(row: Row, bytes: seq<Byte>)
    | PlaceFile(outcome: Placement)
    | StartUpdate(id: string, original: Option<nat>, retained: Option<nat>)
    | StartExpiry(ids: set<string>, stamp: Tombstone)
    | StartRollback(id: string)
    | DeleteWritten(ok: bool)
    | Acquire(ok: bool)
    | ReadIndex(ok: bool)
    | WriteIndex(ok: bool, doomed: set<string>)
    | DeleteExpired(id: string, ok: bool)
    | CleanUp(ok: bool)
    | Crash

  /**
   * The directory of one scope and its processes. The last six fields are history: the rows at the
   * start, the sections written since, who was given each id, what bytes it was written with,
   * whose row reached the index, and which ids their writer set out to take back.
   */
  datatype State = State(
    files: map<string, seq<Byte>>,
    rows: seq<Row>,
    lock: Option<nat>,
    procs: map<nat, Phase>,
    start: seq<Row>,
    log: seq<Work>,
    owner: map<string, nat>,
    content: map<string, seq<Byte>>,
    committed: set<string>,
    undone: set<string>)
  {
    function At(p: nat): Phase { if p in procs then procs[p] else Idle }

    function Go(p: nat, phase: Phase): State { this.(procs := procs[p := phase]) }

    /** Leave the critical section, or stop, from any phase. */
    function Leave(p: nat, phase: Phase): State {
      this.(procs := procs[p := phase], lock := if lock == Some(p) then None else lock)
    }
  }

  /** A writer whose section failed still has its file to delete. */
  function Failed(w: Work): Phase { if w.AppendRow? then Cleaning(w.row.id) else Idle }

  function FromIdle(s: State, p: nat, m: Move): Option<State> {
    match m
    case StartWrite(row, bytes) =>
      if row.id in s.owner || row.tombstone.Some? then None
      else Some(s.(procs := s.procs[p := Placing(row, bytes)],
                  owner := s.owner[row.id := p], content := s.content[row.id := bytes]))
    case StartUpdate(id, original, retained) => Some(s.Go(p, Waiting(SetBytes(id, original, retained))))
    case StartExpiry(ids, stamp) => Some(s.Go(p, Waiting(Expire(ids, stamp))))
    case StartRollback(id) =>
      if id in s.owner && s.owner[id] == p && id in s.committed
      then Some(s.(procs := s.procs[p := RollingBack(id)], undone := s.undone + {id})) else None
    case _ => None
  }

  function FromPlacing(s: State, p: nat, row: Row, bytes: seq<Byte>, outcome: Placement): State {
    match outcome
    case NotPlaced => s.Go(p, Idle)
    case PlacedButAbandoned => s.(procs := s.procs[p := Idle], files := s.files[row.id := bytes])
    case Placed => s.(procs := s.procs[p := Waiting(AppendRow(row))], files := s.files[row.id := bytes])
  }

  function TryAcquire(s: State, p: nat, w: Work, ok: bool): Option<State> {
    if !ok then Some(s.Go(p, Failed(w)))
    else if s.lock.Some? then None
    else Some(s.(procs := s.procs[p := Holding(w, None)], lock := Some(p)))
  }

  function TryRead(s: State, p: nat, w: Work, ok: bool): State {
    if ok then s.Go(p, Holding(w, Some(s.rows))) else s.Leave(p, Failed(w))
  }

  /** The end of a section; a written expiry goes on to delete files of rows it read and buried. */
  function TryWrite(s: State, p: nat, w: Work, read: seq<Row>, ok: bool, doomed: set<string>): Option<State> {
    if Written(read, w).None? then Some(s.Leave(p, Idle))
    else if !ok then Some(s.Leave(p, Failed(w)))
    else if w.Expire? && !(doomed <= w.ids * Ids(read)) then None
    else Some(s.(procs := s.procs[p := if w.Expire? then Deleting(doomed) else Idle],
                 lock := None, rows := Written(read, w).value, log := s.log + [w],
                 committed := if w.AppendRow? then s.committed + {w.row.id} else s.committed))
  }

  function DeleteNext(s: State, p: nat, todo: set<string>, id: string, ok: bool): Option<State> {
    if id !in todo then None
    else if !ok then Some(s.Go(p, Idle))
    else Some(s.(procs := s.procs[p := Deleting(todo - {id})], files := s.files - {id}))
  }

  function Remove(s: State, p: nat, id: string, ok: bool, phase: Phase): State {
    s.(procs := s.procs[p := phase], files := if ok then s.files - {id} else s.files)
  }

  /** One step of process p; nothing when the step is not open to it. */
  function Next(s: State, p: nat, m: Move): Option<State> {
    if m.Crash? then Some(s.Leave(p, Idle))
    else
      match s.At(p)
      case Idle => FromIdle(s, p, m)
      case Placing(row, bytes) => if m.PlaceFile? then Some(FromPlacing(s, p, row, bytes, m.outcome)) else None
      case Waiting(w) => if m.Acquire? then TryAcquire(s, p, w, m.ok) else None
      case Holding(w, None) => if m.ReadIndex? then Some(TryRead(s, p, w, m.ok)) else None
      case Holding(w, Some(read)) => if m.WriteIndex? then TryWrite(s, p, w, read, m.ok, m.doomed) else None
      case Deleting(todo) => if m.DeleteExpired? then DeleteNext(s, p, todo, m.id, m.ok) else None
      case Cleaning(id) => if m.CleanUp? then Some(Remove(s, p, id, m.ok, Idle)) else None
      case RollingBack(id) => if m.DeleteWritten? then Some(Remove(s, p, id, m.ok, Waiting(DropRow(id)))) else None
  }

  function Run(s: State, moves: seq<(nat, Move)>): Option<State>
    decreases |moves|
  {
    if moves == [] then Some(s)
    else
      match Next(s, moves[0].0, moves[0].1)
      case None => None
      case Some(t) => Run(t, moves[1..])
  }

  // ---- the invariant

  predicate Live(rows: seq<Row>, id: string) {
    Look(rows, id).Some? && Look(rows, id).value.tombstone.None?
  }

  /** The file of an id holds the bytes it was written with. */
  predicate Stored(s: State, id: string) {
    id in s.files && id in s.content && s.files[id] == s.content[id]
  }

  /** The id of a row on its way to the index belongs to its writer alone. */
  predicate Mine(s: State, p: nat, id: string) {
    id in s.owner && s.owner[id] == p && id !in s.committed
  }

  predicate WorkOk(s: State, p: nat, w: Work) {
    w.AppendRow? ==> Mine(s, p, w.row.id) && w.row.tombstone.None? && Stored(s, w.row.id)
  }

  predicate PhaseOk(s: State, p: nat, phase: Phase) {
    && (phase.Placing? ==> Mine(s, p, phase.row.id) && phase.row.tombstone.None?
                           && phase.row.id in s.content && s.content[phase.row.id] == phase.bytes)
    && (phase.Waiting? ==> WorkOk(s, p, phase.w))
    && (phase.Holding? <==> s.lock == Some(p))
    && (phase.Holding? ==> WorkOk(s, p, phase.w) && (phase.read.Some? ==> phase.read.value == s.rows))
    && (phase.Deleting? ==> phase.todo <= s.committed && forall id | id in phase.todo :: !Live(s.rows, id))
    && (phase.Cleaning? ==> Mine(s, p, phase.id))
    && (phase.RollingBack? ==> phase.id in s.owner && s.owner[phase.id] == p && phase.id in s.undone)
  }

  ghost predicate IndexOk(s: State) {
    && UniqueIds(s.rows)
    && Ids(s.rows) <= s.committed <= s.owner.Keys
    && s.undone <= s.committed
    && s.rows == Replay(s.start, s.log)
  }

  ghost predicate FilesOk(s: State) {
    forall id | Live(s.rows, id) && id !in s.undone :: Stored(s, id)
  }

  ghost predicate ProcsOk(s: State) {
    forall p: nat :: PhaseOk(s, p, s.At(p))
  }

  ghost predicate Valid(s: State) { IndexOk(s) && FilesOk(s) && ProcsOk(s) }

  /** A scope at rest: nobody at work, distinct ids, and a file behind every live row. */
  ghost predicate AtRest(s: State) {
    && UniqueIds(s.rows) && s.lock == None && s.procs == map[] && s.start == s.rows && s.log == []
    && s.committed == s.owner.Keys == Ids(s.rows) && s.undone == {}
    && forall id | Live(s.rows, id) :: Stored(s, id)
  }

  lemma RestIsValid(s: State)
    requires AtRest(s)
    ensures Valid(s)
  {
  }

  // ---- one step

  /** What a step of p leaves alone, as every other process sees it. */
  ghost predicate Frame(s: State, t: State, p: nat) {
    && t.procs == s.procs[p := t.At(p)]
    && (forall id | id in s.owner :: id in t.owner && t.owner[id] == s.owner[id])
    && (forall id | id in s.owner && id in s.content :: id in t.content && t.content[id] == s.content[id])
    && s.committed <= t.committed
    && (forall id | id in t.committed && id !in s.committed :: id in s.owner && s.owner[id] == p)
    && (forall id | id in s.owner && s.owner[id] != p && id !in s.committed && id in s.files ::
          id in t.files && t.files[id] == s.files[id])
    && (forall id | id in s.committed && Live(t.rows, id) :: Live(s.rows, id))
    && s.undone <= t.undone <= s.undone + s.committed
    && (t.lock == s.lock || (s.lock == Some(p) && t.lock == None) || (s.lock == None && t.lock == Some(p)))
    && (s.lock != Some(p) ==> t.rows == s.rows)
  }

  lemma SectionRevivesNothing(rows: seq<Row>, w: Work, id: string)
    requires Fits(rows, w)
    requires w.AppendRow? ==> id != w.row.id
    ensures Live(After(rows, w), id) ==> Live(rows, id)
  {
    hide Look;
    hide After;
    SectionActs(rows, w, id);
  }

  /** The section in hand may be applied to the index as it is now. */
  lemma HeldWorkFits(s: State, p: nat)
    requires Valid(s) && s.At(p).Holding?
    ensures Fits(s.rows, s.At(p).w)
  {
  }

  /** What every step but a write of the index leaves alone. */
  predicate IndexSame(s: State, t: State) {
    t.rows == s.rows && t.log == s.log && t.start == s.start && t.committed == s.committed
  }

  lemma IdleFrames(s: State, p: nat, m: Move)
    requires s.committed <= s.owner.Keys && FromIdle(s, p, m).Some?
    ensures IndexSame(s, FromIdle(s, p, m).value) && Frame(s, FromIdle(s, p, m).value, p)
  {
    hide Live;
  }

  lemma FileFrames(s: State, t: State, p: nat, id: string)
    requires id in s.owner && (s.owner[id] == p || id in s.committed)
    requires t == s.(procs := s.procs[p := t.At(p)], files := t.files)
    requires t.files - {id} == s.files - {id}
    ensures Frame(s, t, p)
  {
    hide Live;
    forall x | x in s.files && x != id
      ensures x in t.files && t.files[x] == s.files[x]
    {
      assert x in s.files - {id};
    }
  }

  lemma LockFrames(s: State, t: State, p: nat)
    requires t == s.(procs := s.procs[p := t.At(p)], lock := t.lock)
    requires t.lock == s.lock || (s.lock == Some(p) && t.lock == None) || (s.lock == None && t.lock == Some(p))
    ensures Frame(s, t, p)
  {
    hide Live;
  }

  /** Steps that leave the index alone. */
  lemma QuietStepFrames(s: State, p: nat, m: Move, t: State)
    requires PhaseOk(s, p, s.At(p)) && s.committed <= s.owner.Keys
    requires Next(s, p, m) == Some(t) && !m.WriteIndex?
    ensures IndexSame(s, t) && Frame(s, t, p)
  {
    hide Frame;
    hide Live;
    hide Written;
    if !m.Crash? && s.At(p).Idle? {
      IdleFrames(s, p, m);
    } else if m.PlaceFile? && s.At(p).Placing? {
      FileFrames(s, t, p, s.At(p).row.id);
    } else if m.DeleteExpired? {
      FileFrames(s, t, p, m.id);
    } else if m.CleanUp? || m.DeleteWritten? {
      FileFrames(s, t, p, s.At(p).id);
    } else {
      LockFrames(s, t, p);
    }
  }

  lemma WriteFrames(s: State, p: nat, w: Work, ok: bool, doomed: set<string>)
    requires Fits(s.rows, w) && (w.AppendRow? ==> Mine(s, p, w.row.id))
    requires s.lock == Some(p) && TryWrite(s, p, w, s.rows, ok, doomed).Some?
    ensures Frame(s, TryWrite(s, p, w, s.rows, ok, doomed).value, p)
  {
    hide Live;
    hide Written;
    hide Fits;
    var t := TryWrite(s, p, w, s.rows, ok, doomed).value;
    forall id | id in s.committed && Live(t.rows, id)
      ensures Live(s.rows, id)
    {
      if t.rows != s.rows { SectionRevivesNothing(s.rows, w, id); }
    }
  }

  lemma StepFrames(s: State, p: nat, m: Move, t: State)
    requires Valid(s) && Next(s, p, m) == Some(t)
    ensures Frame(s, t, p)
  {
    hide Frame;
    hide Replay;
    if m.WriteIndex? {
      HeldWorkFits(s, p);
      WriteFrames(s, p, s.At(p).w, m.ok, m.doomed);
    } else {
      QuietStepFrames(s, p, m, t);
    }
  }

  lemma OthersUntouched(s: State, t: State, p: nat, q: nat)
    requires Frame(s, t, p) && p != q && PhaseOk(s, q, s.At(q)) && s.committed <= s.owner.Keys
    ensures PhaseOk(t, q, t.At(q))
  {
    hide Look;
    hide Live;
  }

  lemma OwnPhaseKept(s: State, p: nat, m: Move, t: State)
    requires PhaseOk(s, p, s.At(p)) && s.committed <= s.owner.Keys
    requires Next(s, p, m) == Some(t) && !m.WriteIndex?
    ensures PhaseOk(t, p, t.At(p))
  {
    hide Live;
    hide Written;
  }

  /** Once an expiry is written, no row whose file it will delete is live. */
  lemma BuriedBeforeDeleted(s: State, p: nat, w: Work, doomed: set<string>)
    requires Fits(s.rows, w) && w.Expire? && Ids(s.rows) <= s.committed
    requires TryWrite(s, p, w, s.rows, true, doomed).Some?
    ensures doomed <= s.committed
    ensures forall id | id in doomed :: !Live(TryWrite(s, p, w, s.rows, true, doomed).value.rows, id)
  {
    hide Look;
    hide Sort;
    var t := TryWrite(s, p, w, s.rows, true, doomed).value;
    assert t.rows == After(s.rows, w);
    forall id | id in doomed
      ensures !Live(t.rows, id)
    {
      SectionActs(s.rows, w, id);
      LookFinds(s.rows, id);
    }
  }

  lemma OwnWriteKept(s: State, p: nat, m: Move, t: State)
    requires PhaseOk(s, p, s.At(p)) && Ids(s.rows) <= s.committed
    requires s.At(p).Holding? && Fits(s.rows, s.At(p).w) && Next(s, p, m) == Some(t) && m.WriteIndex?
    ensures PhaseOk(t, p, t.At(p))
  {
    hide Written;
    hide Live;
    hide Fits;
    if t.At(p).Deleting? { BuriedBeforeDeleted(s, p, s.At(p).w, m.doomed); }
  }

  lemma ProcsKept(s: State, p: nat, m: Move, t: State)
    requires Valid(s) && Next(s, p, m) == Some(t)
    ensures ProcsOk(t)
  {
    StepFrames(s, p, m, t);
    if m.WriteIndex? {
      HeldWorkFits(s, p);
      OwnWriteKept(s, p, m, t);
    } else {
      OwnPhaseKept(s, p, m, t);
    }
    hide PhaseOk;
    hide Next;
    hide Frame;
    forall q: nat
      ensures PhaseOk(t, q, t.At(q))
    {
      if q != p { OthersUntouched(s, t, p, q); }
    }
  }

  lemma ReplayNext(rows: seq<Row>, log: seq<Work>, w: Work)
    ensures Replay(rows, log + [w]) == After(Replay(rows, log), w)
  {
    assert (log + [w])[..|log|] == log;
  }

  lemma WriteKeepsIndex(s: State, p: nat, w: Work, ok: bool, doomed: set<string>)
    requires IndexOk(s) && Fits(s.rows, w) && (w.AppendRow? ==> Mine(s, p, w.row.id))
    requires TryWrite(s, p, w, s.rows, ok, doomed).Some?
    ensures IndexOk(TryWrite(s, p, w, s.rows, ok, doomed).value)
  {
    hide Replay;
    hide Written;
    ReplayNext(s.start, s.log, w);
    SectionIds(s.rows, w);
  }

  lemma IndexKept(s: State, p: nat, m: Move, t: State)
    requires Valid(s) && Next(s, p, m) == Some(t)
    ensures IndexOk(t)
  {
    if m.WriteIndex? {
      HeldWorkFits(s, p);
      assert PhaseOk(s, p, s.At(p));
      hide Replay;
      WriteKeepsIndex(s, p, s.At(p).w, m.ok, m.doomed);
    } else {
      QuietStepFrames(s, p, m, t);
      hide Next;
      hide Replay;
    }
  }

  /** The only files a step removes belong to rows that are not live, or to a rollback by their own writer. */
  lemma StepRemovesSafely(s: State, p: nat, m: Move, t: State, id: string)
    requires PhaseOk(s, p, s.At(p)) && Ids(s.rows) <= s.committed
    requires Next(s, p, m) == Some(t)
    requires Stored(s, id) && !Stored(t, id) && id in s.owner
    ensures !Live(s.rows, id) || (id in s.undone && s.owner[id] == p)
  {
    hide Look;
    hide Written;
    LookFinds(s.rows, id);
  }

  lemma QuietFilesKept(s: State, p: nat, m: Move, t: State)
    requires Valid(s) && Next(s, p, m) == Some(t) && !m.WriteIndex?
    ensures FilesOk(t)
  {
    hide Look;
    hide Replay;
    QuietStepFrames(s, p, m, t);
    assert PhaseOk(s, p, s.At(p));
    hide Next;
    hide PhaseOk;
    hide Stored;
    forall id | Live(t.rows, id) && id !in t.undone
      ensures Stored(t, id)
    {
      LookFinds(s.rows, id);
      if !Stored(t, id) { StepRemovesSafely(s, p, m, t, id); }
    }
  }

  lemma WriteFilesKept(s: State, p: nat, w: Work, ok: bool, doomed: set<string>)
    requires FilesOk(s) && Fits(s.rows, w) && WorkOk(s, p, w)
    requires TryWrite(s, p, w, s.rows, ok, doomed).Some?
    ensures FilesOk(TryWrite(s, p, w, s.rows, ok, doomed).value)
  {
    hide Live;
    hide Written;
    hide Fits;
    var t := TryWrite(s, p, w, s.rows, ok, doomed).value;
    forall id | Live(t.rows, id) && id !in t.undone
      ensures Stored(t, id)
    {
      if t.rows != s.rows && !(w.AppendRow? && w.row.id == id) { SectionRevivesNothing(s.rows, w, id); }
    }
  }

  /** Every step of every process, whether or not what it does succeeds, keeps the invariant. */
  lemma StepKeepsValid(s: State, p: nat, m: Move, t: State)
    requires Valid(s) && Next(s, p, m) == Some(t)
    ensures Valid(t)
  {
    ProcsKept(s, p, m, t);
    IndexKept(s, p, m, t);
    if m.WriteIndex? {
      HeldWorkFits(s, p);
      assert PhaseOk(s, p, s.At(p));
      WriteFilesKept(s, p, s.At(p).w, m.ok, m.doomed);
    } else {
      QuietFilesKept(s, p, m, t);
    }
  }

  lemma {:induction false} RunKeepsValid(s: State, moves: seq<(nat, Move)>)
    requires Valid(s) && Run(s, moves).Some?
    ensures Valid(Run(s, moves).value)
    decreases |moves|
  {
    hide Next;
    hide Valid;
    if moves == [] {
    } else {
      var t := Next(s, moves[0].0, moves[0].1).value;
      StepKeepsValid(s, moves[0].0, moves[0].1, t);
      RunKeepsValid(t, moves[1..]);
    }
  }

  // ---- whole runs

  /** A step that wrote the index: one section, applied to the index as it stood. */
  predicate Commits(s: State, t: State, w: Work) {
    && Fits(s.rows, w) && t.rows == After(s.rows, w) && t.log == s.log + [w]
    && (w.AppendRow? ==> w.row.id !in s.committed && w.row.id in t.committed)
    && (w.DropRow? ==> w.id in s.committed)
  }

  lemma StepKeepsHistory(s: State, p: nat, m: Move, t: State)
    requires Valid(s) && Next(s, p, m) == Some(t)
    ensures t.start == s.start && s.committed <= t.committed
    ensures (t.log == s.log && t.rows == s.rows) || exists w :: Commits(s, t, w)
  {
    hide Replay;
    hide Look;
    hide Sort;
    if m.WriteIndex? {
      HeldWorkFits(s, p);
      assert PhaseOk(s, p, s.At(p));
      if t.log != s.log { assert Commits(s, t, s.At(p).w); }
    } else {
      QuietStepFrames(s, p, m, t);
    }
  }

  ghost predicate Appended(log: seq<Work>, id: string) {
    exists w :: w in log && w.AppendRow? && w.row.id == id
  }

  /** Which ids have a row: those that started with one or were appended, less those dropped. */
  ghost predicate Accounted(s: State, id: string) {
    && (Look(s.rows, id).Some? <==> (Look(s.start, id).Some? || Appended(s.log, id)) && DropRow(id) !in s.log)
    && (DropRow(id) in s.log || Appended(s.log, id) || Look(s.start, id).Some? ==> id in s.committed)
  }

  lemma StepKeepsAccount(s: State, p: nat, m: Move, t: State, id: string)
    requires Valid(s) && Next(s, p, m) == Some(t)
    requires Accounted(s, id)
    ensures Accounted(t, id)
  {
    hide Look;
    hide After;
    hide Valid;
    StepKeepsHistory(s, p, m, t);
    hide Next;
    if t.log != s.log {
      var w :| Commits(s, t, w);
      SectionActs(s.rows, w, id);
      assert w in t.log;
    }
  }

  lemma {:induction false} RunKeepsAccount(s: State, moves: seq<(nat, Move)>, id: string)
    requires Valid(s) && Run(s, moves).Some?
    requires Accounted(s, id)
    ensures Accounted(Run(s, moves).value, id)
    ensures Run(s, moves).value.start == s.start
    decreases |moves|
  {
    hide Next;
    hide Valid;
    hide Accounted;
    if moves == [] {
    } else {
      var t := Next(s, moves[0].0, moves[0].1).value;
      StepKeepsValid(s, moves[0].0, moves[0].1, t);
      StepKeepsHistory(s, moves[0].0, moves[0].1, t);
      StepKeepsAccount(s, moves[0].0, moves[0].1, t, id);
      RunKeepsAccount(t, moves[1..], id);
    }
  }

  /**
   * However the processes interleave, fail and stop: sections exclude each other, and the index is
   * what the written sections make of it one after another in the order they held the lock.
   */
  lemma SectionsAreSerial(s: State, moves: seq<(nat, Move)>, p: nat, q: nat)
    requires AtRest(s) && Run(s, moves).Some?
    ensures var t := Run(s, moves).value;
            && t.rows == Replay(s.rows, t.log)
            && (t.At(p).Holding? && t.At(q).Holding? ==> p == q)
  {
    RestIsValid(s);
    RunKeepsValid(s, moves);
    StartHasRows(s, "");
    RunKeepsAccount(s, moves, "");
    var t := Run(s, moves).value;
    assert PhaseOk(t, p, t.At(p)) && PhaseOk(t, q, t.At(q));
  }

  lemma StartHasRows(s: State, id: string)
    requires AtRest(s)
    ensures Accounted(s, id)
  {
    LookFinds(s.rows, id);
  }

  /** No update is lost and no row appears from nowhere: an id has a row exactly if it should. */
  lemma NothingIsLost(s: State, moves: seq<(nat, Move)>, id: string)
    requires AtRest(s) && Run(s, moves).Some?
    ensures var t := Run(s, moves).value;
            id in Ids(t.rows) <==> (id in Ids(s.rows) || Appended(t.log, id)) && DropRow(id) !in t.log
  {
    RestIsValid(s);
    StartHasRows(s, id);
    RunKeepsAccount(s, moves, id);
    hide Run;
    hide Look;
    LookFinds(Run(s, moves).value.rows, id);
    LookFinds(s.rows, id);
  }

  /** A live row is never seen without the bytes it was written with, unless its writer is taking it back. */
  lemma LiveRowsHaveTheirBytes(s: State, moves: seq<(nat, Move)>, id: string)
    requires AtRest(s) && Run(s, moves).Some?
    ensures var t := Run(s, moves).value;
            Live(t.rows, id) && id !in t.undone ==> Stored(t, id)
  {
    RestIsValid(s);
    RunKeepsValid(s, moves);
  }

  /** A file goes only once its row is durably buried or gone, or its own writer takes the write back. */
  lemma FilesLeaveSafely(s: State, moves: seq<(nat, Move)>, p: nat, m: Move, id: string)
    requires AtRest(s) && Run(s, moves).Some?
    requires Next(Run(s, moves).value, p, m).Some?
    ensures var t := Run(s, moves).value;
            var u := Next(t, p, m).value;
            Stored(t, id) && id in t.owner && !Stored(u, id) && Live(t.rows, id) ==> id in t.undone && t.owner[id] == p
    ensures m.DeleteExpired? ==> !Live(Run(s, moves).value.rows, m.id)
  {
    RestIsValid(s);
    RunKeepsValid(s, moves);
    hide Run;
    var t := Run(s, moves).value;
    var u := Next(t, p, m).value;
    assert PhaseOk(t, p, t.At(p));
    assert m.DeleteExpired? ==> m.id in t.At(p).todo;
    hide Next;
    hide PhaseOk;
    if Stored(t, id) && id in t.owner && !Stored(u, id) { StepRemovesSafely(t, p, m, u, id); }
  }

  /** A process on its way to writing the row of an id, or to cleaning up after failing to. */
  predicate Busy(phase: Phase, id: string) {
    || (phase.Placing? && phase.row.id == id)
    || ((phase.Waiting? || phase.Holding?) && phase.w.AppendRow? && phase.w.row.id == id)
    || (phase.Cleaning? && phase.id == id)
  }

  /** A file that no row names and no process is at work on. */
  ghost predicate Orphan(s: State, id: string, bytes: seq<Byte>) {
    && id in s.owner && id !in s.committed && id in s.files && s.files[id] == bytes
    && forall q: nat :: !Busy(s.At(q), id)
  }

  /** A write that is given up right after its file was placed leaves an orphan. */
  lemma AbandonedWriteLeavesOrphan(s: State, p: nat, row: Row, bytes: seq<Byte>)
    requires AtRest(s) && row.id !in s.owner && row.tombstone == None
    ensures var r := Run(s, [(p, StartWrite(row, bytes)), (p, PlaceFile(PlacedButAbandoned))]);
            && r.Some? && (forall q: nat :: r.value.At(q) == Idle)
            && r.value.rows == s.rows && row.id !in Ids(s.rows) && Orphan(r.value, row.id, bytes)
  {
    var moves: seq<(nat, Move)> := [(p, StartWrite(row, bytes)), (p, PlaceFile(PlacedButAbandoned))];
    assert moves[1..] == [moves[1]] && |moves[1..][1..]| == 0;
    var t := Next(s, p, moves[0].1).value;
    assert Run(s, moves) == Run(t, [moves[1]]) == Next(t, p, moves[1].1);
  }

  lemma StepKeepsOrphan(s: State, p: nat, m: Move, t: State, id: string, bytes: seq<Byte>)
    requires PhaseOk(s, p, s.At(p)) && s.undone <= s.committed
    requires Next(s, p, m) == Some(t) && Orphan(s, id, bytes)
    ensures Orphan(t, id, bytes)
  {
    hide Live;
    hide Written;
    assert !Busy(s.At(p), id);
    assert !Busy(t.At(p), id);
    forall q: nat
      ensures !Busy(t.At(q), id)
    {
      if q != p { assert t.At(q) == s.At(q); }
    }
  }

  /** Nothing the processes do ever removes an orphan. */
  lemma {:induction false} OrphansStayForever(s: State, moves: seq<(nat, Move)>, id: string, bytes: seq<Byte>)
    requires Valid(s) && Run(s, moves).Some?
    requires Orphan(s, id, bytes)
    ensures Orphan(Run(s, moves).value, id, bytes)
    decreases |moves|
  {
    if moves == [] {
    } else {
      var t := Next(s, moves[0].0, moves[0].1).value;
      assert PhaseOk(s, moves[0].0, s.At(moves[0].0));
      StepKeepsValid(s, moves[0].0, moves[0].1, t);
      StepKeepsOrphan(s, moves[0].0, moves[0].1, t, id, bytes);
      OrphansStayForever(t, moves[1..], id, bytes);
    }
  }

  /** A row once buried: it keeps that tombstone or leaves the index, and never comes back. */
  predicate Rests(s: State, id: string, stone: Tombstone) {
    id in s.committed && (Look(s.rows, id).Some? ==> Look(s.rows, id).value.tombstone == Some(stone))
  }

  lemma StepKeepsTombstone(s: State, p: nat, m: Move, t: State, id: string, stone: Tombstone)
    requires Valid(s) && Next(s, p, m) == Some(t)
    requires Rests(s, id, stone)
    ensures Rests(t, id, stone)
  {
    hide Look;
    hide After;
    hide Valid;
    StepKeepsHistory(s, p, m, t);
    hide Next;
    if t.log != s.log {
      var w :| Commits(s, t, w);
      SectionActs(s.rows, w, id);
    }
  }

  lemma {:induction false} TombstonesAreForever(s: State, moves: seq<(nat, Move)>, id: string, stone: Tombstone)
    requires Valid(s) && Run(s, moves).Some?
    requires Rests(s, id, stone)
    ensures Rests(Run(s, moves).value, id, stone)
    decreases |moves|
  {
    hide Next;
    hide Valid;
    hide Rests;
    if moves == [] {
    } else {
      var t := Next(s, moves[0].0, moves[0].1).value;
      StepKeepsValid(s, moves[0].0, moves[0].1, t);
      StepKeepsTombstone(s, moves[0].0, moves[0].1, t, id, stone);
      TombstonesAreForever(t, moves[1..], id, stone);
    }
  }
}
