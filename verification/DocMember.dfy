/** The doc_member rows of one document and its permission epoch (internal/service/doc_member_mirror.go). Each
    operation is one database transaction. */
module DocMember {

  const READER := 1
  const WRITER := 2
  const ADMIN := 3
  const COMMENTER := 4

  datatype Row = Row(role: int, grantedBy: string)

  datatype Table = Table(rows: map<string, Row>, epoch: nat)

  predicate IsAdmin(t: Table, uid: string) {
    uid in t.rows && t.rows[uid].role == ADMIN
  }

  /** The row is written, but a lesser role never replaces an admin row; the epoch always rises. */
  function Upsert(t: Table, uid: string, role: int, author: string): Table {
    Table(t.rows[uid := if role != ADMIN && IsAdmin(t, uid) then t.rows[uid] else Row(role, author)], t.epoch + 1)
  }

  function InsertIfAbsent(t: Table, uid: string, role: int, author: string): Table {
    if uid in t.rows then t else Table(t.rows[uid := Row(role, author)], t.epoch + 1)
  }

  datatype Deletion = Deleted | NotThere | AdminGuard

  function Delete(t: Table, uid: string): (Table, Deletion) {
    if uid !in t.rows then (t, NotThere)
    else if t.rows[uid].role == ADMIN then (t, AdminGuard)
    else (Table(t.rows - {uid}, t.epoch + 1), Deleted)
  }

  /** What one operation of the grants API may do to the table: at most one row changes, no admin row does, and
      the epoch rises once when a row changes and never more than once. */
  ghost predicate Grants(t: Table, u: Table, uid: string) {
    && (forall v :: v != uid ==> (v in t.rows <==> v in u.rows) && (v in t.rows ==> u.rows[v] == t.rows[v]))
    && (IsAdmin(t, uid) ==> uid in u.rows && u.rows[uid] == t.rows[uid])
    && (t.rows != u.rows ==> u.epoch == t.epoch + 1)
    && (u.epoch == t.epoch || u.epoch == t.epoch + 1)
  }

  lemma UpsertGrants(t: Table, uid: string, role: int, author: string)
    requires role != ADMIN
    ensures Grants(t, Upsert(t, uid, role, author), uid)
    ensures !IsAdmin(t, uid) ==> Upsert(t, uid, role, author).rows == t.rows[uid := Row(role, author)]
    ensures Upsert(t, uid, role, author).epoch == t.epoch + 1
    ensures Upsert(t, uid, role, author).rows == t.rows <==>
            IsAdmin(t, uid) || (uid in t.rows && t.rows[uid] == Row(role, author))
  {
    var u := Upsert(t, uid, role, author);
    assert u.rows[uid] == if IsAdmin(t, uid) then t.rows[uid] else Row(role, author);
  }

  /** Inserting writes only where there was no row, and only then raises the epoch. */
  lemma InsertGrants(t: Table, uid: string, role: int, author: string)
    ensures var u := InsertIfAbsent(t, uid, role, author); Grants(t, u, uid) && uid in u.rows
    ensures InsertIfAbsent(t, uid, role, author).epoch == t.epoch <==> uid in t.rows
    ensures uid in t.rows ==> InsertIfAbsent(t, uid, role, author) == t
  {
  }

  /** A refused or needless delete leaves rows and epoch alone; any other removes the row. */
  lemma DeleteGrants(t: Table, uid: string)
    ensures Grants(t, Delete(t, uid).0, uid)
    ensures Delete(t, uid).1 == AdminGuard <==> IsAdmin(t, uid)
    ensures Delete(t, uid).1 != Deleted <==> Delete(t, uid).0.epoch == t.epoch
    ensures Delete(t, uid).1 != Deleted ==> Delete(t, uid).0 == t
    ensures Delete(t, uid).1 != AdminGuard <==> uid !in Delete(t, uid).0.rows
  {
  }

  /** An admin row takes the upsert of a lesser role without a change, but not without an epoch. */
  lemma UpsertOverAdmin(t: Table, uid: string, role: int, author: string)
    requires role != ADMIN && IsAdmin(t, uid)
    ensures Upsert(t, uid, role, author) == Table(t.rows, t.epoch + 1)
  {
    assert t.rows[uid := t.rows[uid]] == t.rows;
  }

  /** The table as the program changes it. */
  class Mirror {
    var rows: map<string, Row>
    var epoch: nat

    function View(): Table
      reads this
    {
      Table(rows, epoch)
    }

    constructor ()
      ensures View() == Table(map[], 0)
    {
      rows, epoch := map[], 0;
    }

    /** `fails` says that the database reports an error, which rolls the transaction back. */
    method UpsertDirectGrant(uid: string, role: int, author: string, fails: bool) returns (ok: bool)
      modifies this
      ensures ok == !fails && View() == if ok then Upsert(old(View()), uid, role, author) else old(View())
    {
      if fails {
        return false;
      }
      if role == ADMIN || uid !in rows || rows[uid].role != ADMIN {
        rows := rows[uid := Row(role, author)];
      } else {
        assert rows[uid := rows[uid]] == rows;
      }
      epoch := epoch + 1;
      return true;
    }

    method InsertDirectGrantIfAbsent(uid: string, role: int, author: string, fails: bool)
      returns (inserted: bool, ok: bool)
      modifies this
      ensures ok == !fails && View() == if ok then InsertIfAbsent(old(View()), uid, role, author) else old(View())
      ensures inserted == (ok && uid !in old(rows))
    {
      if fails {
        return false, false;
      }
      if uid in rows {
        return false, true;
      }
      rows := rows[uid := Row(role, author)];
      epoch := epoch + 1;
      return true, true;
    }

    method DeleteGrant(uid: string, fails: bool) returns (r: Deletion, ok: bool)
      modifies this
      ensures ok == !fails && (ok ==> r == Delete(old(View()), uid).1)
      ensures View() == if ok then Delete(old(View()), uid).0 else old(View())
    {
      if fails {
        return NotThere, false;
      }
      if uid in rows && rows[uid].role != ADMIN {
        rows := rows - {uid};
        epoch := epoch + 1;
        return Deleted, true;
      }
      if uid in rows {
        return AdminGuard, true;
      }
      return NotThere, true;
    }
  }
}
