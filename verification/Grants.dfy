/** The grants API over its two stores, the legacy meta.grants map and doc_member (internal/service/grants.go). */
module Grants {
  import opened Wrappers
  import opened DocMember

  /** An entry of meta.grants; anything that is not an object with the expected shape is malformed. */
  datatype MetaEntry = Malformed | Legacy(role: string, grantedBy: string)

  /** One document: its metadata's grants (None when there is no such document), its creator ("" for none), whether
      docs-backend has it registered, and its doc_member rows. Rows outlive a registration. */
  datatype Store = Store(meta: Option<map<string, MetaEntry>>, creator: string, registered: bool, table: Table)

  datatype Outcome = Done | Invalid | NoDoc | Protected | Failed

  /** Which writes the databases refuse: that of a row, that of the metadata. */
  datatype Faults = Faults(row: bool, meta: bool)

  const NO_FAULTS := Faults(false, false)

  function RoleCode(role: string): Option<int> {
    if role == "reader" then Some(READER)
    else if role == "commenter" then Some(COMMENTER)
    else if role == "writer" then Some(WRITER)
    else if role == "admin" then Some(ADMIN)
    else None
  }

  function RoleLabel(code: int): string {
    if code == ADMIN then "admin"
    else if code == WRITER then "writer"
    else if code == COMMENTER then "commenter"
    else if code == READER then "reader"
    else ""
  }

  /** A role the grants API may hand out. */
  predicate Grantable(role: string) {
    RoleCode(role).Some? && RoleCode(role).value != ADMIN
  }

  lemma LabelsRoundTrip(role: string)
    ensures RoleCode(role).Some? ==> RoleLabel(RoleCode(role).value) == role
    ensures RoleCode(role) == None <==> role !in {"reader", "commenter", "writer", "admin"}
  {
  }

  predicate IsCreator(s: Store, uid: string) {
    s.creator != "" && s.creator == uid
  }

  function Sweep(s: Store, uid: string): Store {
    match s.meta
    case None => s
    case Some(grants) => s.(meta := Some(grants - {uid}))
  }

  // ----- add and remove

  /** AddGrant on a registered document, under the lock. */
  function AddRow(s: Store, uid: string, code: int, author: string, faults: Faults): (Store, Outcome) {
    if IsAdmin(s.table, uid) then (s, Protected)
    else if uid in s.table.rows && s.table.rows[uid].role == code then
      if faults.meta then (s, Failed) else (Sweep(s, uid), Done)
    else if faults.row then (s, Failed)
    else
      var s1 := s.(table := Upsert(s.table, uid, code, author));
      if faults.meta then (s1, Failed) else (Sweep(s1, uid), Done)
  }

  /** AddGrant on a document that is not registered. */
  function AddMeta(s: Store, uid: string, role: string, author: string, faults: Faults): (Store, Outcome) {
    if s.meta.None? then (s, NoDoc)
    else if faults.meta then (s, Failed)
    else (s.(meta := Some(s.meta.value[uid := Legacy(role, author)])), Done)
  }

  function Add(s: Store, uid: string, role: string, author: string, faults: Faults): (Store, Outcome) {
    if uid == "" || !Grantable(role) then (s, Invalid)
    else if s.meta.None? then (s, NoDoc)
    else if IsCreator(s, uid) then (s, Protected)
    else if s.registered then AddRow(s, uid, RoleCode(role).value, author, faults)
    else AddMeta(s, uid, role, author, faults)
  }

  function Remove(s: Store, uid: string, faults: Faults): (Store, Outcome) {
    if uid == "" then (s, Invalid)
    else if s.meta.None? then (s, NoDoc)
    else if IsCreator(s, uid) then (s, Protected)
    else if s.registered && IsAdmin(s.table, uid) then (s, Protected)
    else if s.registered && uid in s.table.rows && faults.row then (s, Failed)
    else
      var s1 := if s.registered then s.(table := Delete(s.table, uid).0) else s;
      if faults.meta then (s1, Failed) else (Sweep(s1, uid), Done)
  }

  // ----- what a member may do

  datatype Capability = NoCap | Read | Comment | Edit | Manage

  function CapabilityOf(role: int): Capability {
    if role == READER then Read
    else if role == COMMENTER then Comment
    else if role == WRITER then Edit
    else if role == ADMIN then Manage
    else NoCap
  }

  /** The member tier: the row decides for a registered document, the legacy entry for any other. */
  function MemberCapability(s: Store, uid: string): Capability {
    if s.registered then
      if uid in s.table.rows then CapabilityOf(s.table.rows[uid].role) else NoCap
    else
      match s.meta
      case None => NoCap
      case Some(grants) =>
        if uid in grants && grants[uid].Legacy? && Grantable(grants[uid].role)
        then CapabilityOf(RoleCode(grants[uid].role).value) else NoCap
  }

  /** Neither store holds anything for `uid`. */
  predicate Absent(s: Store, uid: string) {
    uid !in s.table.rows && (s.meta.Some? ==> uid !in s.meta.value)
  }

  lemma AbsentMayNothing(s: Store, uid: string, registered: bool)
    requires Absent(s, uid)
    ensures MemberCapability(s.(registered := registered), uid) == NoCap
  {
  }

  /** A grant that was added is what the member then may do. */
  lemma AddGives(s: Store, uid: string, role: string, author: string, faults: Faults)
    requires Add(s, uid, role, author, faults).1 == Done
    ensures Grantable(role) && MemberCapability(Add(s, uid, role, author, faults).0, uid) ==
            CapabilityOf(RoleCode(role).value)
  {
  }

  /** After a successful removal nothing is left of the grant, exactly unless the document is unregistered at
      that time and keeps a row from an earlier registration. */
  lemma RemoveLeaves(s: Store, uid: string, faults: Faults)
    requires Remove(s, uid, faults).1 == Done
    ensures Absent(Remove(s, uid, faults).0, uid) <==> s.registered || uid !in s.table.rows
    ensures MemberCapability(Remove(s, uid, faults).0, uid) == NoCap
  {
  }

  /** ... and that row is worth its old role again once the document is registered anew. */
  lemma RevokedRowReturns(s: Store, uid: string)
    requires Remove(s, uid, NO_FAULTS).1 == Done && !s.registered && uid in s.table.rows
    ensures MemberCapability(Remove(s, uid, NO_FAULTS).0.(registered := true), uid) ==
            CapabilityOf(s.table.rows[uid].role)
  {
  }

  /** What one call of the API may touch: one row, never an admin row, and the epoch exactly when a row changes: the
      call writes only after it has seen another role or none, and no admin. */
  lemma AddTouches(s: Store, uid: string, role: string, author: string, faults: Faults)
    ensures var t := Add(s, uid, role, author, faults).0.table;
            DocMember.Grants(s.table, t, uid) && (t.rows != s.table.rows <==> t.epoch == s.table.epoch + 1)
  {
    if Grantable(role) {
      UpsertGrants(s.table, uid, RoleCode(role).value, author);
    }
  }

  lemma RemoveTouches(s: Store, uid: string, faults: Faults)
    ensures var t := Remove(s, uid, faults).0.table;
            DocMember.Grants(s.table, t, uid) && (t.rows != s.table.rows <==> t.epoch == s.table.epoch + 1)
  {
    DeleteGrants(s.table, uid);
    assert uid in s.table.rows ==> uid !in s.table.rows - {uid};
  }

  // ----- reconciliation

  predicate Skipped(s: Store, uid: string) {
    uid == "" || IsCreator(s, uid)
  }

  predicate Restorable(e: MetaEntry) {
    e.Legacy? && Grantable(e.role)
  }

  function RowFor(e: MetaEntry): Row
    requires Restorable(e)
  {
    Row(RoleCode(e.role).value, if e.grantedBy == "" then "reconcile_afterpublished" else e.grantedBy)
  }

  /** The entries the reconciliation turns into rows; the database refuses those in `fails`. */
  function Inserted(s: Store, grants: map<string, MetaEntry>, fails: set<string>): set<string> {
    set uid | uid in grants && !Skipped(s, uid) && Restorable(grants[uid]) && uid !in fails && uid !in s.table.rows
  }

  /** The entries it clears: invalid ones, and those that have a row. */
  function Consumed(s: Store, grants: map<string, MetaEntry>, fails: set<string>): set<string> {
    set uid | uid in grants && !Skipped(s, uid) && (Restorable(grants[uid]) ==> uid !in fails)
  }

  function RowsFor(grants: map<string, MetaEntry>, uids: set<string>): map<string, Row>
    requires forall uid :: uid in uids ==> uid in grants && Restorable(grants[uid])
  {
    map uid | uid in uids :: RowFor(grants[uid])
  }

  function Reconciled(s: Store, fails: set<string>, clearFails: bool): Store {
    if s.meta.None? || !s.registered then s
    else
      var grants := s.meta.value;
      var added := Inserted(s, grants, fails);
      var table := Table(s.table.rows + RowsFor(grants, added), s.table.epoch + |added|);
      Store(if clearFails then s.meta else Some(grants - Consumed(s, grants, fails)), s.creator, true, table)
  }

  /** No valid entry is lost: each has a row afterwards or is still there; and none without a fault is still there. */
  lemma ReconcileConserves(s: Store, fails: set<string>, clearFails: bool, uid: string)
    requires s.registered && s.meta.Some? && uid in s.meta.value && Restorable(s.meta.value[uid]) && !Skipped(s, uid)
    ensures var t := Reconciled(s, fails, clearFails);
      && (uid in t.table.rows ||
          (uid in fails && t.meta.Some? && uid in t.meta.value && t.meta.value[uid] == s.meta.value[uid]))
      && (uid !in fails && !clearFails ==> t.meta.Some? && uid !in t.meta.value)
  {
  }

  /** No row that was there changes, and a new one repeats a valid entry: nothing is promoted to admin. */
  lemma ReconcileKeepsRows(s: Store, fails: set<string>, clearFails: bool, uid: string)
    ensures var t := Reconciled(s, fails, clearFails).table;
      && (uid in s.table.rows ==> uid in t.rows && t.rows[uid] == s.table.rows[uid])
      && (uid in t.rows && uid !in s.table.rows ==>
            && s.registered && s.meta.Some? && uid in s.meta.value && Restorable(s.meta.value[uid]) && !Skipped(s, uid)
            && t.rows[uid] == RowFor(s.meta.value[uid]) && t.rows[uid].role != ADMIN)
      && t.epoch >= s.table.epoch && (t.epoch == s.table.epoch <==> t.rows == s.table.rows)
  {
    var t := Reconciled(s, fails, clearFails).table;
    if s.registered && s.meta.Some? {
      var added := Inserted(s, s.meta.value, fails);
      if added == {} {
        assert t.rows == s.table.rows;
      } else {
        var v :| v in added;
        assert v in t.rows && v !in s.table.rows;
      }
    }
  }

  /** Once a reconciliation has met no fault, the next one changes nothing, whatever faults it meets. */
  lemma ReconcileSettles(s: Store, fails: set<string>, clearFails: bool)
    ensures
      var t := Reconciled(s, {}, false);
      Reconciled(t, fails, clearFails) == t
  {
    var t := Reconciled(s, {}, false);
    if s.registered && s.meta.Some? {
      var grants := t.meta.value;
      assert Inserted(t, grants, fails) == {} && Consumed(t, grants, fails) == {};
      assert t.table.rows + RowsFor(grants, {}) == t.table.rows;
      assert grants - {} == grants;
    }
  }

  // ----- the service

  class AuthService {
    var meta: Option<map<string, MetaEntry>>
    const creator: string
    var registered: bool
    const mirror: Mirror

    constructor (creator: string, mirror: Mirror)
      ensures this.creator == creator && this.mirror == mirror && meta == Some(map[]) && !registered
    {
      this.creator, this.mirror, meta, registered := creator, mirror, Some(map[]), false;
    }

    function View(): Store
      reads this, mirror
    {
      Store(meta, creator, registered, mirror.View())
    }

    /** removeGrantFromMetaLocked. */
    method SweepMeta(uid: string, fails: bool) returns (ok: bool)
      modifies this
      ensures ok == !fails && View() == if ok then Sweep(old(View()), uid) else old(View())
      ensures registered == old(registered)
    {
      if fails {
        return false;
      }
      if meta.Some? {
        meta := Some(meta.value - {uid});
      }
      return true;
    }

    method AddGrantToDocMember(uid: string, code: int, author: string, faults: Faults) returns (r: Outcome)
      requires code != ADMIN
      modifies this, mirror
      ensures View() == AddRow(old(View()), uid, code, author, faults).0 &&
              r == AddRow(old(View()), uid, code, author, faults).1
    {
      var probed := if uid in mirror.rows then Some(mirror.rows[uid].role) else None;
      if probed == Some(ADMIN) {
        return Protected;
      }
      if probed != Some(code) {
        var written := mirror.UpsertDirectGrant(uid, code, author, faults.row);
        if !written {
          return Failed;
        }
      }
      var swept := SweepMeta(uid, faults.meta);
      return if swept then Done else Failed;
    }

    method AddGrant(uid: string, role: string, author: string, faults: Faults) returns (r: Outcome)
      modifies this, mirror
      ensures View() == Add(old(View()), uid, role, author, faults).0 &&
              r == Add(old(View()), uid, role, author, faults).1
    {
      var code := RoleCode(role);
      if uid == "" || code.None? || code.value == ADMIN {
        return Invalid;
      }
      if meta.None? {
        return NoDoc;
      }
      if creator != "" && creator == uid {
        return Protected;
      }
      if registered {
        r := AddGrantToDocMember(uid, code.value, author, faults);
        return;
      }
      if faults.meta {
        return Failed;
      }
      LabelsRoundTrip(role);
      meta := Some(meta.value[uid := Legacy(RoleLabel(code.value), author)]);
      return Done;
    }

    method RemoveGrant(uid: string, faults: Faults) returns (r: Outcome)
      modifies this, mirror
      ensures View() == Remove(old(View()), uid, faults).0 && r == Remove(old(View()), uid, faults).1
    {
      if uid == "" {
        return Invalid;
      }
      if meta.None? {
        return NoDoc;
      }
      if creator != "" && creator == uid {
        return Protected;
      }
      if registered && uid in mirror.rows {
        if mirror.rows[uid].role == ADMIN {
          return Protected;
        }
        var deletion, ok := mirror.DeleteGrant(uid, faults.row);
        if !ok {
          return Failed;
        }
        if deletion == AdminGuard {
          return Protected;
        }
      }
      var swept := SweepMeta(uid, faults.meta);
      return if swept then Done else Failed;
    }

    /** What the reconciliation does with one entry, and whether it may be cleared. */
    method ReconcileEntry(uid: string, entry: MetaEntry, fails: bool) returns (consume: bool)
      modifies mirror
      ensures consume == (!Skipped(View(), uid) && (Restorable(entry) ==> !fails))
      ensures mirror.View() ==
              if !Skipped(View(), uid) && Restorable(entry) && !fails
              then InsertIfAbsent(old(mirror.View()), uid, RowFor(entry).role, RowFor(entry).grantedBy)
              else old(mirror.View())
    {
      if uid == "" || (creator != "" && uid == creator) {
        return false;
      }
      if entry.Malformed? {
        return true;
      }
      var code := RoleCode(entry.role);
      if code.None? || code.value == ADMIN {
        return true;
      }
      var author := if entry.grantedBy == "" then "reconcile_afterpublished" else entry.grantedBy;
      var inserted, ok := mirror.InsertDirectGrantIfAbsent(uid, code.value, author, fails);
      return ok;
    }

    /** All entries but those in `todo` are dealt with, and of them `consumed` may be cleared. */
    ghost predicate Draining(s: Store, grants: map<string, MetaEntry>, fails: set<string>, todo: set<string>,
                             consumed: set<string>)
      reads this, mirror
    {
      && todo <= grants.Keys && meta == Some(grants) && registered && creator == s.creator
      && mirror.View() == Drained(s, grants, fails, todo)
      && consumed == Consumed(s, grants, fails) - todo
    }

    method ReconcileTurn(ghost s: Store, grants: map<string, MetaEntry>, fails: set<string>, todo: set<string>,
                         consumed: set<string>, uid: string)
      returns (c: set<string>)
      requires Draining(s, grants, fails, todo, consumed) && uid in todo
      modifies mirror
      ensures Draining(s, grants, fails, todo - {uid}, c)
    {
      DrainStep(s, grants, fails, todo, uid);
      var consume := ReconcileEntry(uid, grants[uid], uid in fails);
      c := if consume then consumed + {uid} else consumed;
      OneLess(Consumed(s, grants, fails), todo, consumed, uid);
    }

    /** ReconcileMetaGrantsToDocMember, over the entries in any order; `fails` are the inserts the database refuses. */
    method Reconcile(fails: set<string>, clearFails: bool)
      modifies this, mirror
      ensures View() == Reconciled(old(View()), fails, clearFails)
    {
      if meta.None? || !registered {
        return;
      }
      var grants := meta.value;
      ghost var s := View();
      var todo, consumed := grants.Keys, {};
      DrainStarts(s, grants, fails);
      assert consumed == Consumed(s, grants, fails) - todo;
      while todo != {}
        invariant Draining(s, grants, fails, todo, consumed)
        decreases |todo|
      {
        var uid :| uid in todo;
        consumed := ReconcileTurn(s, grants, fails, todo, consumed, uid);
        todo := todo - {uid};
      }
      DrainEnds(s, grants, fails);
      assert consumed == Consumed(s, grants, fails);
      if !clearFails {
        meta := Some(grants - consumed);
      }
    }
  }

  /** The table once all entries but those in `todo` are dealt with. */
  function Drained(s: Store, grants: map<string, MetaEntry>, fails: set<string>, todo: set<string>): Table {
    var added := Inserted(s, grants, fails) - todo;
    Table(s.table.rows + RowsFor(grants, added), s.table.epoch + |added|)
  }

  lemma DrainStarts(s: Store, grants: map<string, MetaEntry>, fails: set<string>)
    ensures Drained(s, grants, fails, grants.Keys) == s.table
  {
    assert Inserted(s, grants, fails) - grants.Keys == {};
    assert s.table.rows + RowsFor(grants, {}) == s.table.rows;
  }

  lemma OneLess(all: set<string>, todo: set<string>, done: set<string>, uid: string)
    requires uid in todo && done == all - todo
    ensures all - (todo - {uid}) == if uid in all then done + {uid} else done
  {
  }

  /** One more row among those for `added`. */
  lemma RowsGrow(rows: map<string, Row>, grants: map<string, MetaEntry>, added: set<string>, uid: string)
    requires forall v :: v in added ==> v in grants && Restorable(grants[v])
    requires uid in grants && Restorable(grants[uid]) && uid !in added
    ensures rows + RowsFor(grants, added + {uid}) == (rows + RowsFor(grants, added))[uid := RowFor(grants[uid])]
    ensures |added + {uid}| == |added| + 1
  {
  }

  lemma DrainInserts(s: Store, grants: map<string, MetaEntry>, fails: set<string>, todo: set<string>, uid: string)
    requires uid in todo && uid in Inserted(s, grants, fails)
    ensures Drained(s, grants, fails, todo - {uid}) ==
            InsertIfAbsent(Drained(s, grants, fails, todo),
                           uid, RowFor(grants[uid]).role, RowFor(grants[uid]).grantedBy)
  {
    var added := Inserted(s, grants, fails) - todo;
    assert Inserted(s, grants, fails) - (todo - {uid}) == added + {uid};
    RowsGrow(s.table.rows, grants, added, uid);
  }

  lemma DrainPasses(s: Store, grants: map<string, MetaEntry>, fails: set<string>, todo: set<string>, uid: string)
    requires uid !in Inserted(s, grants, fails)
    ensures Drained(s, grants, fails, todo - {uid}) == Drained(s, grants, fails, todo)
    ensures uid in s.table.rows ==> uid in Drained(s, grants, fails, todo).rows
  {
    assert Inserted(s, grants, fails) - (todo - {uid}) == Inserted(s, grants, fails) - todo;
  }

  lemma DrainStep(s: Store, grants: map<string, MetaEntry>, fails: set<string>, todo: set<string>, uid: string)
    requires uid in todo && uid in grants
    ensures
      Drained(s, grants, fails, todo - {uid}) ==
        if !Skipped(s, uid) && Restorable(grants[uid]) && uid !in fails
        then InsertIfAbsent(Drained(s, grants, fails, todo),
                            uid, RowFor(grants[uid]).role, RowFor(grants[uid]).grantedBy)
        else Drained(s, grants, fails, todo)
  {
    if uid in Inserted(s, grants, fails) {
      DrainInserts(s, grants, fails, todo, uid);
    } else {
      DrainPasses(s, grants, fails, todo, uid);
    }
  }

  lemma DrainEnds(s: Store, grants: map<string, MetaEntry>, fails: set<string>)
    ensures s.meta == Some(grants) && s.registered ==>
            Reconciled(s, fails, true) == s.(table := Drained(s, grants, fails, {})) &&
            Reconciled(s, fails, false) ==
            s.(table := Drained(s, grants, fails, {}), meta := Some(grants - Consumed(s, grants, fails)))
  {
    assert Inserted(s, grants, fails) - {} == Inserted(s, grants, fails);
  }
}
