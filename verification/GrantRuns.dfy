/** The grants API under concurrency (internal/service/grants.go, doc_member_mirror.go): calls whose reads before
    the lock, database transactions and lock operations interleave freely with each other and with docs-backend,
    which registers, unregisters and promotes at any time. */
module GrantRuns {
  import opened Wrappers
  import opened DocMember
  import opened Grants

  datatype AddStage = ReadDoc | Resolve | AwaitRow | Probe | WriteRow | SweepRow | AwaitMeta | WriteMeta

  /** `SweepAfter` remembers whether the document was registered when it was looked up. */
  datatype RemoveStage = ReadDocFirst | Await | ResolveDoc | ProbeRow | DeleteRow | SweepAfter(registered: bool)

  datatype ReconcileStage =
    | AwaitLock
    | ReadMeta
    | ResolveSlug(grants: map<string, MetaEntry>)
    | Loop(grants: map<string, MetaEntry>, todo: set<string>, consumed: set<string>)

  /** A call in progress, or what it ended with. */
  datatype Job =
    | Adding(uid: string, role: string, author: string, stage: AddStage)
    | Removing(uid: string, at: RemoveStage)
    | Reconciling(point: ReconcileStage)
    | Ended(outcome: Outcome)

  datatype System = System(store: Store, lock: Option<nat>, jobs: map<nat, Job>)

  /** Who makes a step: a call, docs-backend, or the deletion of the document. */
  datatype Actor =
    | Call(id: nat, pick: string, fails: bool)
    | Begin(id: nat, job: Job)
    | Register
    | Unregister
    | Promote(uid: string, author: string)
    | Drop

  // ----- the steps of one call

  function Goes(s: System, id: nat, job: Job): System {
    s.(jobs := s.jobs[id := job])
  }

  /** The call ends, and gives back the lock if it holds it. */
  function Ends(s: System, id: nat, outcome: Outcome): System {
    System(s.store, if s.lock == Some(id) then None else s.lock, s.jobs[id := Ended(outcome)])
  }

  /** The call takes the lock, which must be free; a call that cannot take it waits. */
  function Takes(s: System, id: nat, job: Job): System {
    if s.lock == None then System(s.store, Some(id), s.jobs[id := job]) else s
  }

  function AddStep(s: System, id: nat, job: Job): System
    requires job.Adding? && Grantable(job.role)
  {
    var code := RoleCode(job.role).value;
    match job.stage
    case ReadDoc =>
      if s.store.meta.None? then Ends(s, id, NoDoc)
      else if IsCreator(s.store, job.uid) then Ends(s, id, Protected)
      else Goes(s, id, job.(stage := Resolve))
    case Resolve => Goes(s, id, job.(stage := if s.store.registered then AwaitRow else AwaitMeta))
    case AwaitRow => Takes(s, id, job.(stage := Probe))
    case Probe =>
      if IsAdmin(s.store.table, job.uid) then Ends(s, id, Protected)
      else if job.uid in s.store.table.rows && s.store.table.rows[job.uid].role == code
              then Goes(s, id, job.(stage := SweepRow))
      else Goes(s, id, job.(stage := WriteRow))
    case WriteRow =>
      Goes(s.(store := s.store.(table := Upsert(s.store.table, job.uid, code, job.author))), id,
           job.(stage := SweepRow))
    case SweepRow => Ends(s.(store := Sweep(s.store, job.uid)), id, if s.store.meta.None? then NoDoc else Done)
    case AwaitMeta => Takes(s, id, job.(stage := WriteMeta))
    case WriteMeta =>
      if s.store.meta.None? then Ends(s, id, NoDoc)
      else
        Ends(s.(store := s.store.(meta := Some(s.store.meta.value[job.uid := Legacy(job.role, job.author)]))), id, Done)
  }

  function RemoveStep(s: System, id: nat, job: Job): System
    requires job.Removing?
  {
    match job.at
    case ReadDocFirst =>
      if s.store.meta.None? then Ends(s, id, NoDoc)
      else if IsCreator(s.store, job.uid) then Ends(s, id, Protected)
      else Goes(s, id, job.(at := Await))
    case Await => Takes(s, id, job.(at := ResolveDoc))
    case ResolveDoc => Goes(s, id, job.(at := if s.store.registered then ProbeRow else SweepAfter(false)))
    case ProbeRow =>
      if job.uid !in s.store.table.rows then Goes(s, id, job.(at := SweepAfter(true)))
      else if IsAdmin(s.store.table, job.uid) then Ends(s, id, Protected)
      else Goes(s, id, job.(at := DeleteRow))
    case DeleteRow =>
      var (table, deletion) := Delete(s.store.table, job.uid);
      var t := s.(store := s.store.(table := table));
      if deletion == AdminGuard then Ends(t, id, Protected) else Goes(t, id, job.(at := SweepAfter(true)))
    case SweepAfter(_) => Ends(s.(store := Sweep(s.store, job.uid)), id, if s.store.meta.None? then NoDoc else Done)
  }

  /** One entry of the reconciliation's loop; the database refuses the insert when `fails`. */
  function LoopStep(s: System, id: nat, loop: ReconcileStage, uid: string, fails: bool): System
    requires loop.Loop? && uid in loop.todo && uid in loop.grants
  {
    var e, rest := loop.grants[uid], loop.(todo := loop.todo - {uid});
    if Skipped(s.store, uid) || (Restorable(e) && fails) then Goes(s, id, Reconciling(rest))
    else
      var table := if Restorable(e) then InsertIfAbsent(s.store.table, uid, RowFor(e).role, RowFor(e).grantedBy)
          else s.store.table;
      Goes(s.(store := s.store.(table := table)), id, Reconciling(rest.(consumed := loop.consumed + {uid})))
  }

  function ReconcileStep(s: System, id: nat, p: ReconcileStage, pick: string, fails: bool): System {
    match p
    case AwaitLock => Takes(s, id, Reconciling(ReadMeta))
    case ReadMeta =>
      if s.store.meta.None? then Ends(s, id, Done) else Goes(s, id, Reconciling(ResolveSlug(s.store.meta.value)))
    case ResolveSlug(grants) =>
      if s.store.registered then Goes(s, id, Reconciling(Loop(grants, grants.Keys, {}))) else Ends(s, id, Done)
    case Loop(grants, todo, consumed) =>
      if pick in todo && pick in grants then LoopStep(s, id, p, pick, fails)
      else if todo != {} then s
      else if s.store.meta.None? then Ends(s, id, Done)
      else Ends(s.(store := s.store.(meta := Some(s.store.meta.value - consumed))), id, Done)
  }

  /** One step of a call. A database error ends it, except inside the reconciliation's loop. */
  function CallStep(s: System, id: nat, pick: string, fails: bool): System
    requires id in s.jobs
  {
    var job := s.jobs[id];
    match job
    case Ended(_) => s
    case Reconciling(p) => if fails && !(p.Loop? && p.todo != {}) then Ends(s, id, Failed)
      else ReconcileStep(s, id, p, pick, fails)
    case Adding(_, role, _, _) =>
      if !Grantable(role) then Ends(s, id, Invalid) else if fails then Ends(s, id, Failed) else AddStep(s, id, job)
    case Removing(_, _) => if fails then Ends(s, id, Failed) else RemoveStep(s, id, job)
  }

  predicate Fresh(job: Job) {
    match job
    case Adding(uid, role, _, stage) => uid != "" && Grantable(role) && stage == ReadDoc
    case Removing(uid, at) => uid != "" && at == ReadDocFirst
    case Reconciling(point) => point == AwaitLock
    case Ended(outcome) => outcome == Invalid
  }

  /** One step of the whole system. */
  predicate Step(s: System, actor: Actor, t: System) {
    match actor
    case Call(id, pick, fails) => id in s.jobs && t == CallStep(s, id, pick, fails)
    case Begin(id, job) => id !in s.jobs && Fresh(job) && t == Goes(s, id, job)
    case Register => t == s.(store := s.store.(registered := true))
    case Unregister => t == s.(store := s.store.(registered := false))
    case Promote(uid, author) => t == s.(store := s.store.(table := Upsert(s.store.table, uid, ADMIN, author)))
    case Drop => s.lock == None && t == s.(store := s.store.(meta := None))
  }

  /** A run from any document with nothing in progress; actors[i] takes states[i] to states[i + 1]. */
  predicate Run(states: seq<System>, actors: seq<Actor>) {
    && |states| == |actors| + 1 && states[0].lock == None && states[0].jobs == map[]
    && forall i :: 0 <= i < |actors| ==> Step(states[i], actors[i], states[i + 1])
  }

  // ----- what every run keeps

  predicate HoldsLock(job: Job) {
    match job
    case Adding(_, _, _, stage) => stage.Probe? || stage.WriteRow? || stage.SweepRow? || stage.WriteMeta?
    case Removing(_, at) => !at.ReadDocFirst? && !at.Await?
    case Reconciling(p) => !p.AwaitLock?
    case Ended(_) => false
  }

  /** What a call knows at its present stage. */
  predicate Knows(s: System, job: Job) {
    match job
    case Adding(uid, role, _, stage) =>
      && Grantable(role)
      && (stage.WriteRow? && uid in s.store.table.rows ==> s.store.table.rows[uid].role != RoleCode(role).value)
      && (stage.SweepRow? ==> uid in s.store.table.rows &&
                              (s.store.table.rows[uid].role == RoleCode(role).value || IsAdmin(s.store.table, uid)))
    case Removing(_, _) => true
    case Reconciling(p) =>
      (match p
       case AwaitLock => true
       case ReadMeta => true
       case ResolveSlug(grants) => s.store.meta == Some(grants)
       case Loop(grants, todo, consumed) =>
         && s.store.meta == Some(grants) && todo <= grants.Keys && consumed <= grants.Keys
         && forall uid :: uid in consumed && Restorable(grants[uid]) ==> uid in s.store.table.rows)
    case Ended(_) => true
  }

  predicate Inv(s: System) {
    && (forall id :: id in s.jobs ==> (HoldsLock(s.jobs[id]) <==> s.lock == Some(id)))
    && (s.lock.Some? ==> s.lock.value in s.jobs)
    && (forall id :: id in s.jobs ==> Knows(s, s.jobs[id]))
  }

  /** What docs-backend may do to the stores: no row is lost, and none changes or is made but to admin. */
  predicate Harmless(s: Store, t: Store) {
    && t.meta == s.meta
    && (forall uid :: uid in s.table.rows ==> uid in t.table.rows)
    && (forall uid :: uid in t.table.rows ==>
          IsAdmin(t.table, uid) || (uid in s.table.rows && t.table.rows[uid] == s.table.rows[uid]))
  }

  lemma KnowsStill(s: System, t: System, job: Job)
    requires Knows(s, job) && (Harmless(s.store, t.store) || !HoldsLock(job))
    ensures Knows(t, job)
  {
  }

  /** A step of a call changes its own entry only, and takes or gives back the lock for itself only. */
  lemma CallLock(s: System, id: nat, pick: string, fails: bool)
    requires id in s.jobs && (HoldsLock(s.jobs[id]) <==> s.lock == Some(id))
    ensures
      var t := CallStep(s, id, pick, fails);
      && id in t.jobs && (HoldsLock(t.jobs[id]) <==> t.lock == Some(id))
      && t.jobs == s.jobs[id := t.jobs[id]]
      && (t.lock == s.lock || (s.lock == None && t.lock == Some(id)) || (s.lock == Some(id) && t.lock == None))
  {
    assert s.jobs[id := s.jobs[id]] == s.jobs;
    var job := s.jobs[id];
    match job
    case Ended(_) =>
    case Reconciling(p) => ReconcileLock(s, id, p, pick, fails);
    case Adding(_, role, _, _) => if Grantable(role) { AddLock(s, id, job); }
    case Removing(_, _) => RemoveLock(s, id, job);
  }

  /** What CallLock says of a step from `s` to `t`. */
  predicate Locked(s: System, t: System, id: nat) {
    && id in t.jobs && (HoldsLock(t.jobs[id]) <==> t.lock == Some(id))
    && t.jobs == s.jobs[id := t.jobs[id]]
    && (t.lock == s.lock || (s.lock == None && t.lock == Some(id)) || (s.lock == Some(id) && t.lock == None))
  }

  lemma AddLock(s: System, id: nat, job: Job)
    requires id in s.jobs && s.jobs[id] == job && job.Adding? && Grantable(job.role) &&
             (HoldsLock(job) <==> s.lock == Some(id))
    ensures Locked(s, AddStep(s, id, job), id)
  {
    assert s.jobs[id := job] == s.jobs;
  }

  lemma RemoveLock(s: System, id: nat, job: Job)
    requires id in s.jobs && s.jobs[id] == job && job.Removing? && (HoldsLock(job) <==> s.lock == Some(id))
    ensures Locked(s, RemoveStep(s, id, job), id)
  {
    assert s.jobs[id := job] == s.jobs;
  }

  lemma ReconcileLock(s: System, id: nat, p: ReconcileStage, pick: string, fails: bool)
    requires id in s.jobs && s.jobs[id] == Reconciling(p) && (HoldsLock(Reconciling(p)) <==> s.lock == Some(id))
    ensures Locked(s, ReconcileStep(s, id, p, pick, fails), id)
  {
    assert s.jobs[id := s.jobs[id]] == s.jobs;
  }

  /** Only the holder of the lock changes a store. */
  lemma CallStore(s: System, id: nat, pick: string, fails: bool)
    requires id in s.jobs && !HoldsLock(s.jobs[id])
    ensures CallStep(s, id, pick, fails).store == s.store
  {
  }

  lemma LoopKnows(s: System, id: nat, p: ReconcileStage, uid: string, fails: bool)
    requires id in s.jobs && p.Loop? && Knows(s, Reconciling(p)) && uid in p.todo && uid in p.grants
    ensures var t := LoopStep(s, id, p, uid, fails); id in t.jobs && Knows(t, t.jobs[id])
  {
    if Restorable(p.grants[uid]) {
      InsertGrants(s.store.table, uid, RowFor(p.grants[uid]).role, RowFor(p.grants[uid]).grantedBy);
    }
  }

  lemma CallKnows(s: System, id: nat, pick: string, fails: bool)
    requires id in s.jobs && Knows(s, s.jobs[id])
    ensures var t := CallStep(s, id, pick, fails); id in t.jobs && Knows(t, t.jobs[id])
  {
    var job := s.jobs[id];
    if job.Reconciling? && job.point.Loop? && pick in job.point.todo && pick in job.point.grants {
      LoopKnows(s, id, job.point, pick, fails);
    }
  }

  lemma CallKeeps(s: System, id: nat, pick: string, fails: bool)
    requires Inv(s) && id in s.jobs
    ensures Inv(CallStep(s, id, pick, fails))
  {
    var t := CallStep(s, id, pick, fails);
    CallLock(s, id, pick, fails);
    CallKnows(s, id, pick, fails);
    forall i | i in t.jobs
      ensures (HoldsLock(t.jobs[i]) <==> t.lock == Some(i)) && Knows(t, t.jobs[i])
    {
      if i != id {
        assert i in s.jobs && t.jobs[i] == s.jobs[i];
        if HoldsLock(s.jobs[id]) {
          KnowsStill(s, t, s.jobs[i]);
        } else {
          CallStore(s, id, pick, fails);
          KnowsStill(s, t, s.jobs[i]);
        }
      }
    }
  }

  lemma StepKeeps(s: System, actor: Actor, t: System)
    requires Inv(s) && Step(s, actor, t)
    ensures Inv(t)
  {
    match actor
    case Call(id, pick, fails) => CallKeeps(s, id, pick, fails);
    case Begin(id, job) =>
      forall i | i in t.jobs ensures Knows(t, t.jobs[i]) {
        if i != id { KnowsStill(s, t, s.jobs[i]); }
      }
    case _ =>
      forall i | i in t.jobs ensures Knows(t, t.jobs[i]) {
        KnowsStill(s, t, s.jobs[i]);
      }
  }

  lemma {:induction false} RunKeeps(states: seq<System>, actors: seq<Actor>, i: nat)
    requires Run(states, actors) && i < |states|
    ensures Inv(states[i])
  {
    if i > 0 {
      RunKeeps(states, actors, i - 1);
      StepKeeps(states[i - 1], actors[i - 1], states[i]);
    }
  }

  // ----- admin rows and the epoch

  /** A step of a call touches at most one row and no admin row, and raises the epoch once when a row changes. */
  lemma CallTouches(s: System, id: nat, pick: string, fails: bool) returns (uid: string)
    requires id in s.jobs
    ensures DocMember.Grants(s.store.table, CallStep(s, id, pick, fails).store.table, uid)
  {
    var job := s.jobs[id];
    match job
    case Ended(_) => uid := "";
    case Adding(u, role, author, stage) =>
      uid := u;
      if Grantable(role) { UpsertGrants(s.store.table, u, RoleCode(role).value, author); }
    case Removing(u, at) =>
      uid := u;
      DeleteGrants(s.store.table, u);
    case Reconciling(p) =>
      uid := pick;
      if p.Loop? && pick in p.grants && Restorable(p.grants[pick]) {
        InsertGrants(s.store.table, pick, RowFor(p.grants[pick]).role, RowFor(p.grants[pick]).grantedBy);
      }
  }

  /** A grant about to write its row when docs-backend has made the user an admin: the write will change no row. */
  predicate Overtaken(s: System, job: Job) {
    job.Adding? && job.stage.WriteRow? && IsAdmin(s.store.table, job.uid)
  }

  /** In every run: a step of a call raises the epoch exactly when it changes a row or writes for an overtaken grant. */
  lemma EpochIsExact(states: seq<System>, actors: seq<Actor>, i: nat)
    requires Run(states, actors) && i < |actors| && actors[i].Call?
    ensures
      var t, u := states[i].store.table, states[i + 1].store.table;
      && actors[i].id in states[i].jobs && (u.epoch == t.epoch || u.epoch == t.epoch + 1)
      && (u.epoch == t.epoch + 1 <==>
          u.rows != t.rows || (Overtaken(states[i], states[i].jobs[actors[i].id]) && !actors[i].fails))
      && !(u.rows != t.rows && Overtaken(states[i], states[i].jobs[actors[i].id]))
  {
    RunKeeps(states, actors, i);
    assert Step(states[i], actors[i], states[i + 1]);
    var s, t := states[i], states[i].store.table;
    var job := s.jobs[actors[i].id];
    assert Knows(s, job);
    match job
    case Adding(u, role, author, stage) => UpsertGrants(t, u, RoleCode(role).value, author);
    case Removing(u, at) => assert u in t.rows ==> u !in t.rows - {u};
    case _ =>
  }

  /** Once an admin, always one: nobody takes the role away. */
  lemma {:induction false} AdminsStay(states: seq<System>, actors: seq<Actor>, i: nat, j: nat, uid: string)
    requires Run(states, actors) && i <= j < |states| && IsAdmin(states[i].store.table, uid)
    ensures IsAdmin(states[j].store.table, uid)
  {
    if i < j {
      AdminsStay(states, actors, i, j - 1, uid);
      assert Step(states[j - 1], actors[j - 1], states[j]);
      if actors[j - 1].Call? {
        var u := CallTouches(states[j - 1], actors[j - 1].id, actors[j - 1].pick, actors[j - 1].fails);
      }
    }
  }

  /** From state `j` to state `i` the grant of call `id` waits to write its row. */
  predicate Writing(states: seq<System>, j: nat, i: nat, id: nat, job: Job)
    requires j <= i < |states|
  {
    job.Adding? && job.stage.WriteRow? && forall k :: j <= k <= i ==> id in states[k].jobs && states[k].jobs[id] == job
  }

  /** Docs-backend makes the user an admin between the states `j` and `i`. */
  ghost predicate PromotedIn(actors: seq<Actor>, j: nat, i: nat, uid: string)
    requires i <= |actors|
  {
    exists k :: j <= k < i && actors[k].Promote? && actors[k].uid == uid
  }

  /** While a grant waits to write, its user becomes an admin through docs-backend only. */
  lemma {:induction false} OnlyPromoted(states: seq<System>, actors: seq<Actor>, j: nat, i: nat, id: nat, job: Job)
    requires Run(states, actors) && j <= i < |states| && Writing(states, j, i, id, job)
    requires !IsAdmin(states[j].store.table, job.uid)
    ensures IsAdmin(states[i].store.table, job.uid) <==> PromotedIn(actors, j, i, job.uid)
  {
    if j < i {
      OnlyPromoted(states, actors, j, i - 1, id, job);
      var s, t, actor := states[i - 1], states[i], actors[i - 1];
      assert Step(s, actor, t);
      RunKeeps(states, actors, i - 1);
      assert s.jobs[id] == job && t.jobs[id] == job;
      if IsAdmin(s.store.table, job.uid) {
        AdminsStay(states, actors, i - 1, i, job.uid);
      } else if actor.Call? {
        OthersWait(s, actor.id, actor.pick, actor.fails, id, job);
      }
      assert PromotedIn(actors, j, i, job.uid) <==>
             PromotedIn(actors, j, i - 1, job.uid) || (actor.Promote? && actor.uid == job.uid);
    }
  }

  lemma OthersWait(s: System, other: nat, pick: string, fails: bool, id: nat, job: Job)
    requires Inv(s) && other in s.jobs && id in s.jobs && s.jobs[id] == job && job.Adding? && job.stage.WriteRow?
    requires CallStep(s, other, pick, fails).jobs[id] == job
    ensures CallStep(s, other, pick, fails).store == s.store
  {
    assert HoldsLock(job) && s.lock == Some(id);
    if other != id {
      CallStore(s, other, pick, fails);
    }
  }

  /** A grant that found no admin at its probe raises the epoch without changing a row exactly when docs-backend makes
      the user an admin between the probe and the write. */
  lemma OvertakenGrant(states: seq<System>, actors: seq<Actor>, j: nat, i: nat, id: nat, job: Job)
    requires Run(states, actors) && 0 < j <= i < |actors| && Writing(states, j, i, id, job)
    requires actors[j - 1].Call? && actors[j - 1].id == id
    requires id in states[j - 1].jobs && states[j - 1].jobs[id] == job.(stage := Probe)
    requires actors[i].Call? && actors[i].id == id && !actors[i].fails
    ensures
      var t, u := states[i].store.table, states[i + 1].store.table;
      u.epoch == t.epoch + 1 && (u.rows == t.rows <==> PromotedIn(actors, j, i, job.uid))
  {
    assert Step(states[j - 1], actors[j - 1], states[j]) && states[j].jobs[id] == job;
    assert Step(states[i], actors[i], states[i + 1]);
    RunKeeps(states, actors, i);
    assert Knows(states[i], job);
    OnlyPromoted(states, actors, j, i, id, job);
    UpsertGrants(states[i].store.table, job.uid, RoleCode(job.role).value, job.author);
  }

  /** Through any run, an admin row stays as it is unless docs-backend writes that very row. */
  lemma {:induction false} AdminRowsStay(states: seq<System>, actors: seq<Actor>, i: nat, j: nat, uid: string)
    requires Run(states, actors) && i <= j < |states| && IsAdmin(states[i].store.table, uid)
    requires forall k :: i <= k < j ==> !(actors[k].Promote? && actors[k].uid == uid)
    ensures uid in states[j].store.table.rows && states[j].store.table.rows[uid] == states[i].store.table.rows[uid]
  {
    if i < j {
      AdminRowsStay(states, actors, i, j - 1, uid);
      assert Step(states[j - 1], actors[j - 1], states[j]);
      match actors[j - 1] {
        case Call(id, pick, fails) =>
          var u := CallTouches(states[j - 1], id, pick, fails);
        case _ =>
      }
    }
  }

  // ----- revocation

  /** The actor writes a grant for `uid`; a call that has only read so far does not. */
  predicate WritesFor(s: System, actor: Actor, uid: string) {
    match actor
    case Promote(u, _) => u == uid
    case Call(id, _, fails) =>
      && !fails && id in s.jobs && s.jobs[id].Adding? && s.jobs[id].uid == uid
      && (s.jobs[id].stage.WriteRow? || s.jobs[id].stage.WriteMeta?)
    case _ => false
  }

  /** Nobody writes a grant for `uid` between the states `i` and `j`. */
  predicate Quiet(states: seq<System>, actors: seq<Actor>, i: nat, j: nat, uid: string)
    requires |states| == |actors| + 1
  {
    forall k :: i <= k < j && k < |actors| ==> !WritesFor(states[k], actors[k], uid)
  }

  lemma StaysAbsent(s: System, actor: Actor, t: System, uid: string)
    requires Inv(s) && Step(s, actor, t) && !WritesFor(s, actor, uid) && Absent(s.store, uid)
    ensures Absent(t.store, uid)
  {
    if actor.Call? {
      assert Knows(s, s.jobs[actor.id]);
    }
  }

  /** A removal that found the document registered: on its way, and once it has succeeded, nothing is left of the
      grant. */
  predicate Revoking(s: System, id: nat, uid: string) {
    && id in s.jobs
    && match s.jobs[id]
       case Removing(u, at) =>
         && u == uid && (at.ProbeRow? || at.DeleteRow? || (at.SweepAfter? && uid !in s.store.table.rows))
       case Ended(outcome) => outcome == Done ==> Absent(s.store, uid)
       case _ => false
  }

  lemma RevokesOn(s: System, actor: Actor, t: System, id: nat, uid: string)
    requires Inv(s) && Step(s, actor, t) && !WritesFor(s, actor, uid) && Revoking(s, id, uid)
    ensures Revoking(t, id, uid)
  {
    if actor.Call? && actor.id == id {
      DeleteGrants(s.store.table, uid);
    } else {
      RevokesOnOther(s, actor, t, id, uid);
    }
  }

  lemma RevokesOnOther(s: System, actor: Actor, t: System, id: nat, uid: string)
    requires Inv(s) && Step(s, actor, t) && !WritesFor(s, actor, uid) && Revoking(s, id, uid)
    requires actor.Call? ==> actor.id != id
    ensures Revoking(t, id, uid)
  {
    if s.jobs[id].Ended? {
      if s.jobs[id].outcome == Done {
        StaysAbsent(s, actor, t, uid);
      }
    }
    if actor.Call? {
      CallLock(s, actor.id, actor.pick, actor.fails);
      if !HoldsLock(s.jobs[actor.id]) {
        CallStore(s, actor.id, actor.pick, actor.fails);
      }
    }
  }

  lemma RevokesIf(s: System, actor: Actor, t: System, id: nat, uid: string)
    ensures Inv(s) && Step(s, actor, t) && !WritesFor(s, actor, uid) && Revoking(s, id, uid) ==> Revoking(t, id, uid)
  {
    if Inv(s) && Step(s, actor, t) && !WritesFor(s, actor, uid) && Revoking(s, id, uid) {
      RevokesOn(s, actor, t, id, uid);
    }
  }

  lemma RunStep(states: seq<System>, actors: seq<Actor>, k: nat)
    requires Run(states, actors) && k < |actors|
    ensures Step(states[k], actors[k], states[k + 1])
  {
  }

  lemma QuietStep(states: seq<System>, actors: seq<Actor>, i: nat, j: nat, uid: string)
    requires |states| == |actors| + 1 && i < j <= |actors| && Quiet(states, actors, i, j, uid)
    ensures !WritesFor(states[j - 1], actors[j - 1], uid) && Quiet(states, actors, i, j - 1, uid)
  {
  }

  lemma {:induction false} RevokingRun(states: seq<System>, actors: seq<Actor>, i: nat, j: nat, id: nat, uid: string)
    requires Run(states, actors) && i <= j < |states| && Revoking(states[i], id, uid) &&
             Quiet(states, actors, i, j, uid)
    ensures Revoking(states[j], id, uid)
  {
    if i < j {
      RunStep(states, actors, j - 1);
      QuietStep(states, actors, i, j, uid);
      RevokingRun(states, actors, i, j - 1, id, uid);
      RunKeeps(states, actors, j - 1);
      RevokesIf(states[j - 1], actors[j - 1], states[j], id, uid);
    }
  }

  /** Revocation is final: once a removal that found the document registered has ended well, the user has nothing in
      either store and may do nothing, registered or not, in every later state up to the next grant for the user,
      whatever reconciliations, other calls and registrations come between. */
  lemma RevocationIsFinal(states: seq<System>, actors: seq<Actor>, i: nat, j: nat, id: nat, uid: string,
                          registered: bool)
    requires Run(states, actors) && i < j < |states| && actors[i].Call? && actors[i].id == id
    requires id in states[i].jobs && states[i].jobs[id] == Removing(uid, ResolveDoc) && states[i].store.registered
    requires Quiet(states, actors, i, j, uid) && id in states[j].jobs && states[j].jobs[id] == Ended(Done)
    ensures Absent(states[j].store, uid) && MemberCapability(states[j].store.(registered := registered), uid) == NoCap
  {
    assert Step(states[i], actors[i], states[i + 1]);
    RevokingRun(states, actors, i + 1, j, id, uid);
    AbsentMayNothing(states[j].store, uid, registered);
  }

  // ----- granting and reconciling

  /** A grant on a registered document that ends well has its row then, whatever happened before the lock was taken. */
  lemma GrantLands(states: seq<System>, actors: seq<Actor>, i: nat, id: nat)
    requires Run(states, actors) && i < |actors| && actors[i].Call? && actors[i].id == id && !actors[i].fails
    requires id in states[i].jobs && states[i].jobs[id].Adding? && states[i].jobs[id].stage == SweepRow
    ensures
      var Adding(uid, role, _, _) := states[i].jobs[id];
      var t := states[i + 1].store;
      && uid in t.table.rows && Grantable(role)
      && (t.table.rows[uid].role == RoleCode(role).value || t.table.rows[uid].role == ADMIN)
      && (t.meta.Some? ==> uid !in t.meta.value)
  {
    RunKeeps(states, actors, i);
    assert Step(states[i], actors[i], states[i + 1]);
    assert Knows(states[i], states[i].jobs[id]);
  }

  /** No step of a reconciliation loses a valid entry, changes a row that is there, or promotes anybody. */
  lemma ReconcileStepConserves(states: seq<System>, actors: seq<Actor>, i: nat, uid: string)
    requires Run(states, actors) && i < |actors| && actors[i].Call?
    requires actors[i].id in states[i].jobs && states[i].jobs[actors[i].id].Reconciling?
    ensures
      var s, t := states[i].store, states[i + 1].store;
      && (s.meta.Some? && uid in s.meta.value && Restorable(s.meta.value[uid]) ==>
            uid in t.table.rows || (t.meta.Some? && uid in t.meta.value && t.meta.value[uid] == s.meta.value[uid]))
      && (uid in s.table.rows ==> uid in t.table.rows && t.table.rows[uid] == s.table.rows[uid])
      && (uid in t.table.rows && uid !in s.table.rows ==>
            && s.meta.Some? && uid in s.meta.value && Restorable(s.meta.value[uid]) && !Skipped(s, uid)
            && t.table.rows[uid] == RowFor(s.meta.value[uid]) && t.table.rows[uid].role != ADMIN)
  {
    RunKeeps(states, actors, i);
    assert Step(states[i], actors[i], states[i + 1]);
    assert Knows(states[i], states[i].jobs[actors[i].id]);
  }

  // ----- a call on its own

  /** `n` steps of one call with nothing in between. */
  function Alone(s: System, id: nat, n: nat): System
    requires id in s.jobs
    ensures id in Alone(s, id, n).jobs
    decreases n
  {
    if n == 0 then s
    else
      var t := CallStep(s, id, "", false);
      if id in t.jobs then Alone(t, id, n - 1) else s
  }

  lemma AloneNext(s: System, id: nat, n: nat, t: System)
    requires id in s.jobs && n > 0 && t == CallStep(s, id, "", false) && id in t.jobs
    ensures Alone(s, id, n) == Alone(t, id, n - 1)
  {
  }

  lemma {:induction false} AloneEnded(s: System, id: nat, n: nat)
    requires id in s.jobs && s.jobs[id].Ended?
    ensures Alone(s, id, n) == s
  {
    if n > 0 {
      AloneEnded(s, id, n - 1);
    }
  }

  /** A call that holds the lock at its last but two stages. */
  lemma AddLocked(s: System, id: nat, job: Job)
    requires s.lock == None && id in s.jobs && s.jobs[id] == job && job.Adding? && job.stage == AwaitRow &&
             Grantable(job.role)
    ensures
      var t := Alone(s, id, 4);
      var (store, outcome) := AddRow(s.store, job.uid, RoleCode(job.role).value, job.author, NO_FAULTS);
      s.store.meta.Some? ==> t.store == store && t.jobs[id] == Ended(outcome) && t.lock == None
  {
    var s1 := System(s.store, Some(id), s.jobs[id := job.(stage := Probe)]);
    AloneNext(s, id, 4, s1);
    var s2 := CallStep(s1, id, "", false);
    AloneNext(s1, id, 3, s2);
    if s2.jobs[id].Ended? {
      AloneEnded(s2, id, 2);
    } else {
      var s3 := CallStep(s2, id, "", false);
      AloneNext(s2, id, 2, s3);
      if s3.jobs[id].Ended? {
        AloneEnded(s3, id, 1);
      } else {
        var s4 := CallStep(s3, id, "", false);
        AloneNext(s3, id, 1, s4);
        AloneEnded(s4, id, 0);
      }
    }
  }

  lemma AddUnlocked(s: System, id: nat, job: Job)
    requires s.lock == None && id in s.jobs && s.jobs[id] == job && job.Adding? && job.stage == AwaitMeta &&
             Grantable(job.role)
    ensures
      var t := Alone(s, id, 4);
      var (store, outcome) := AddMeta(s.store, job.uid, job.role, job.author, NO_FAULTS);
      t.store == store && t.jobs[id] == Ended(outcome) && t.lock == None
  {
    var s1 := System(s.store, Some(id), s.jobs[id := job.(stage := WriteMeta)]);
    AloneNext(s, id, 4, s1);
    var s2 := CallStep(s1, id, "", false);
    AloneNext(s1, id, 3, s2);
    AloneEnded(s2, id, 2);
  }

  /** Undisturbed, a grant does what its sequential form says. */
  lemma AddAlone(s: System, id: nat, job: Job)
    requires s.lock == None && id in s.jobs && s.jobs[id] == job && job.Adding? && Fresh(job)
    ensures
      var t := Alone(s, id, 6);
      var (store, outcome) := Add(s.store, job.uid, job.role, job.author, NO_FAULTS);
      t.store == store && t.jobs[id] == Ended(outcome) && t.lock == None
  {
    var s1 := CallStep(s, id, "", false);
    AloneNext(s, id, 6, s1);
    if s1.jobs[id].Ended? {
      AloneEnded(s1, id, 5);
    } else {
      var next := job.(stage := if s.store.registered then AwaitRow else AwaitMeta);
      var s2 := s1.(jobs := s1.jobs[id := next]);
      AloneNext(s1, id, 5, s2);
      if s.store.registered {
        AddLocked(s2, id, next);
      } else {
        AddUnlocked(s2, id, next);
      }
    }
  }

  lemma RemoveLocked(s: System, id: nat, uid: string)
    requires s.lock == Some(id) && id in s.jobs && s.jobs[id] == Removing(uid, ResolveDoc) && s.store.meta.Some?
    requires uid != "" && !IsCreator(s.store, uid)
    ensures
      var t := Alone(s, id, 4);
      var (store, outcome) := Remove(s.store, uid, NO_FAULTS);
      t.store == store && t.jobs[id] == Ended(outcome) && t.lock == None
  {
    var s1 := CallStep(s, id, "", false);
    AloneNext(s, id, 4, s1);
    var s2 := CallStep(s1, id, "", false);
    AloneNext(s1, id, 3, s2);
    if s2.jobs[id].Ended? {
      AloneEnded(s2, id, 2);
    } else {
      var s3 := CallStep(s2, id, "", false);
      AloneNext(s2, id, 2, s3);
      if s3.jobs[id].Ended? {
        AloneEnded(s3, id, 1);
      } else {
        var s4 := CallStep(s3, id, "", false);
        AloneNext(s3, id, 1, s4);
        AloneEnded(s4, id, 0);
      }
    }
  }

  /** Undisturbed, a removal does what its sequential form says. */
  lemma RemoveAlone(s: System, id: nat, uid: string)
    requires s.lock == None && id in s.jobs && s.jobs[id] == Removing(uid, ReadDocFirst) && uid != ""
    ensures
      var t := Alone(s, id, 6);
      var (store, outcome) := Remove(s.store, uid, NO_FAULTS);
      t.store == store && t.jobs[id] == Ended(outcome) && t.lock == None
  {
    var s1 := CallStep(s, id, "", false);
    AloneNext(s, id, 6, s1);
    if s1.jobs[id].Ended? {
      AloneEnded(s1, id, 5);
    } else {
      var s2 := System(s.store, Some(id), s1.jobs[id := Removing(uid, ResolveDoc)]);
      AloneNext(s1, id, 5, s2);
      RemoveLocked(s2, id, uid);
    }
  }
}
