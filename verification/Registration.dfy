/** Publishing one document and confirming its registration (internal/service/doc.go): version numbers, the
    registration state kept in the metadata, and results of docs-backend that arrive late. */
module Registration {
  import opened Wrappers
  import opened StableSort

  datatype RegState = NoState | LocalOnly | Pending | Registered

  /** The metadata of a document: its versions in order, whether a user publishes it, and what is known of its
      registration at docs-backend. */
  datatype Meta = Meta(versions: seq<int>, user: bool, state: RegState, version: int, docId: string)

  /** The stored versions of a document, as they are listed, and its metadata. */
  datatype Doc = Doc(blobs: seq<int>, meta: Option<Meta>)

  /** How a publish went: refused, failed after the blob or after the metadata was written, or done. */
  datatype Outcome = Refused | LostMeta | LostComments | Published(version: int)

  /** Where a publish fails, if it does. */
  datatype Fault = NoFault | MetaFails | CommentsFail

  // ----- version numbers

  /** The greatest listed version, 0 when there is none above. */
  function MaxOf(blobs: seq<int>): (m: int)
    ensures m >= 0 && forall v :: v in blobs ==> v <= m
    ensures m > 0 ==> m in blobs
  {
    if blobs == [] then 0
    else
      var m := MaxOf(blobs[..|blobs| - 1]);
      assert forall v :: v in blobs ==> v in blobs[..|blobs| - 1] || v == blobs[|blobs| - 1];
      if blobs[|blobs| - 1] > m then blobs[|blobs| - 1] else m
  }

  function NextVersion(blobs: seq<int>, explicit: int): int {
    if explicit > 0 then explicit else MaxOf(blobs) + 1
  }

  /** Without an explicit number a publish takes a version nobody has stored: it overwrites nothing. */
  lemma AutoVersionIsNew(blobs: seq<int>, explicit: int)
    requires explicit <= 0
    ensures NextVersion(blobs, explicit) > 0 && NextVersion(blobs, explicit) !in blobs
    ensures forall v :: v in blobs ==> v < NextVersion(blobs, explicit)
  {
  }

  method ResolveVersion(blobs: seq<int>, explicit: int) returns (v: int)
    ensures v == NextVersion(blobs, explicit)
  {
    if explicit > 0 {
      return explicit;
    }
    var maxV := 0;
    for i := 0 to |blobs|
      invariant maxV == MaxOf(blobs[..i])
    {
      assert blobs[..i + 1][..i] == blobs[..i];
      if blobs[i] > maxV {
        maxV := blobs[i];
      }
    }
    assert blobs[..|blobs|] == blobs;
    v := maxV + 1;
  }

  function Key(v: int): int { v }

  function WithVersion(versions: seq<int>, v: int): seq<int> {
    Sort(if v in versions then versions else versions + [v], Key)
  }

  /** The metadata lists its versions in ascending order, the new one among them, none lost and none twice. */
  lemma VersionsAscend(versions: seq<int>, v: int)
    requires forall n :: multiset(versions)[n] <= 1
    ensures Sorted(WithVersion(versions, v), Key) && (forall n :: multiset(WithVersion(versions, v))[n] <= 1)
    ensures forall n :: n in WithVersion(versions, v) <==> n in versions || n == v
  {
    var xs := if v in versions then versions else versions + [v];
    SortSorted(xs, Key);
    SortPermutes(xs, Key);
    assert v !in versions ==> multiset(xs) == multiset(versions) + multiset{v};
    assert forall n :: n in WithVersion(versions, v) <==> n in multiset(WithVersion(versions, v));
    assert forall n :: n in xs <==> n in multiset(xs);
  }

  lemma SortPrefix(s: seq<int>, i: nat)
    requires 0 < i <= |s|
    ensures Sort(s[..i], Key) == Insert(Sort(s[..i - 1], Key), Key, s[i - 1])
  {
    assert s[..i][..i - 1] == s[..i - 1];
  }

  /** `t` is `front` with `x` put in at position `p`, in the first places of an array. */
  lemma InsertedAt(front: seq<int>, x: int, p: nat)
    requires Sorted(front, Key) && p <= |front| && (p > 0 ==> front[p - 1] <= x) && forall k :: p <= k < |front| ==>
             front[k] > x
    ensures Insert(front, Key, x) == front[..p] + [x] + front[p..]
  {
    forall k | 0 <= k < p ensures front[k] <= x {
      assert k < p - 1 ==> Key(front[k]) <= Key(front[p - 1]);
    }
  }

  /** The inner loop of the insertion sort: the element at `i` sinks to its place among those before it. */
  method Sink(v: array<int>, i: nat)
    requires 0 < i < v.Length && Sorted(v[..i], Key)
    modifies v
    ensures v[..i + 1] == Insert(old(v[..i]), Key, old(v[i])) && v[i + 1..] == old(v[i + 1..])
  {
    ghost var front, x, rest := v[..i], v[i], v[i + 1..];
    var j := i;
    while j > 0 && v[j - 1] > v[j]
      invariant 0 <= j <= i && v[..i + 1] == front[..j] + [x] + front[j..] && v[i + 1..] == rest
      invariant forall k :: j <= k < i ==> front[k] > x
    {
      assert v[j - 1] == v[..i + 1][j - 1] == front[j - 1] && v[j] == v[..i + 1][j] == x;
      v[j - 1], v[j] := v[j], v[j - 1];
      j := j - 1;
      assert v[..i + 1] == front[..j] + [x] + front[j..];
    }
    assert j > 0 ==> v[j - 1] == v[..i + 1][j - 1] == front[j - 1] && v[j] == v[..i + 1][j] == x;
    InsertedAt(front, x, j);
  }

  /** One round of the insertion sort. */
  method SortRound(v: array<int>, i: nat, ghost was: seq<int>)
    requires 0 < i < v.Length == |was| && v[..i] == Sort(was[..i], Key) && v[i..] == was[i..]
    modifies v
    ensures v[..i + 1] == Sort(was[..i + 1], Key) && v[i + 1..] == was[i + 1..]
  {
    SortSorted(was[..i], Key);
    SortPrefix(was, i + 1);
    assert v[i] == v[i..][0] == was[i];
    assert v[i + 1..] == v[i..][1..] == was[i + 1..];
    Sink(v, i);
  }

  lemma SortOne(was: seq<int>)
    requires was != []
    ensures Sort(was[..1], Key) == was[..1]
  {
    SortPrefix(was, 1);
    assert was[..0] == [];
  }

  /** sortVersions: the insertion sort, in place. */
  method SortVersions(v: array<int>)
    modifies v
    ensures v[..] == Sort(old(v[..]), Key)
  {
    ghost var was := v[..];
    if v.Length == 0 {
      return;
    }
    SortOne(was);
    var i := 1;
    while i < v.Length
      invariant 1 <= i <= v.Length == |was| && v[..i] == Sort(was[..i], Key) && v[i..] == was[i..]
    {
      SortRound(v, i, was);
      i := i + 1;
    }
    assert was[..i] == was && v[..i] == v[..];
  }

  // ----- the operations, each under the document's lock

  /** restoreMountContext: whose document it is was settled when it was made. */
  predicate Admitted(d: Doc, user: bool) {
    user ==> match d.meta case None => d.blobs == [] case Some(m) => m.user
  }

  predicate PublishesAsUser(d: Doc, user: bool) {
    match d.meta case None => user case Some(m) => m.user
  }

  function MetaOf(d: Doc): Meta {
    match d.meta case None => Meta([], false, NoState, 0, "") case Some(m) => m
  }

  function Upserted(m: Meta, asUser: bool, version: int): Meta {
    var m1 := m.(versions := WithVersion(m.versions, version));
    if asUser then m1.(user := true, state := Pending, version := version) else m1
  }

  function Publish(d: Doc, user: bool, explicit: int, fault: Fault): (Doc, Outcome) {
    if !Admitted(d, user) then (d, Refused)
    else
      var v := NextVersion(d.blobs, explicit);
      var blobs := if v in d.blobs then d.blobs else d.blobs + [v];
      if fault.MetaFails? then (Doc(blobs, d.meta), LostMeta)
      else
        var t := Doc(blobs, Some(Upserted(MetaOf(d), PublishesAsUser(d, user), v)));
        (t, if fault.CommentsFail? then LostComments else Published(v))
  }

  /** A draft creates the metadata of a new document, and settles that a user's is known here only. */
  function SaveDraft(d: Doc, user: bool): Doc {
    if !Admitted(d, user) || d.meta.Some? then d
    else Doc(d.blobs, Some(Meta([], user, if user then LocalOnly else NoState, 0, "")))
  }

  /** setDocsBackendRegistrationState: a successful result counts only while its own version is pending. */
  function Confirm(d: Doc, version: int, docId: string): Doc {
    match d.meta
    case None => d
    case Some(m) =>
      if m.state == Pending && m.version == version then d.(meta := Some(m.(state := Registered, docId := docId)))
         else d
  }

  predicate MayRemove(d: Doc) {
    d.meta.Some? && d.meta.value.user ==> d.meta.value.state == LocalOnly && d.meta.value.docId == ""
  }

  /** RemoveAuthorized, for a caller the provenance admits. */
  function Remove(d: Doc): Doc {
    if MayRemove(d) then Doc([], None) else d
  }

  /** The stores of one document, as the operations change them under its lock. */
  class DocStore {
    var blobs: seq<int>
    var meta: Option<Meta>

    function View(): Doc
      reads this
    {
      Doc(blobs, meta)
    }

    constructor ()
      ensures View() == Doc([], None)
    {
      blobs, meta := [], None;
    }

    method UpsertMeta(asUser: bool, version: int)
      modifies this
      ensures View() == Doc(old(blobs), Some(Upserted(MetaOf(old(View())), asUser, version)))
    {
      var m := if meta.Some? then meta.value else Meta([], false, NoState, 0, "");
      var list := if version in m.versions then m.versions else m.versions + [version];
      var cells := new int[|list|](i requires 0 <= i < |list| => list[i]);
      assert cells[..] == list;
      SortVersions(cells);
      m := m.(versions := cells[..]);
      if asUser {
        m := m.(user := true, state := Pending, version := version);
      }
      meta := Some(m);
    }

    method PublishLocked(user: bool, explicit: int, fault: Fault) returns (r: Outcome)
      modifies this
      ensures View() == Publish(old(View()), user, explicit, fault).0 &&
              r == Publish(old(View()), user, explicit, fault).1
    {
      if user && ((meta.None? && blobs != []) || (meta.Some? && !meta.value.user)) {
        return Refused;
      }
      var asUser := if meta.Some? then meta.value.user else user;
      var v := ResolveVersion(blobs, explicit);
      if v !in blobs {
        blobs := blobs + [v];
      }
      if fault.MetaFails? {
        return LostMeta;
      }
      UpsertMeta(asUser, v);
      return if fault.CommentsFail? then LostComments else Published(v);
    }

    method SaveDraftLocked(user: bool)
      modifies this
      ensures View() == SaveDraft(old(View()), user)
    {
      if meta.None? && !(user && blobs != []) {
        meta := Some(Meta([], user, if user then LocalOnly else NoState, 0, ""));
      }
    }

    method SetRegistered(docId: string, version: int) returns (updated: bool)
      modifies this
      ensures View() == Confirm(old(View()), version, docId)
      ensures updated <==> old(meta).Some? && old(meta).value.state == Pending && old(meta).value.version == version
    {
      if meta.None? || meta.value.state != Pending || meta.value.version != version {
        return false;
      }
      meta := Some(meta.value.(state := Registered, docId := docId));
      return true;
    }

    method RemoveAuthorized() returns (removed: bool)
      modifies this
      ensures removed == MayRemove(old(View())) && View() == Remove(old(View()))
    {
      if meta.Some? && meta.value.user && (meta.value.state != LocalOnly || meta.value.docId != "") {
        return false;
      }
      blobs, meta := [], None;
      return true;
    }
  }

  // ----- runs

  /** The document, the versions that user publishes have committed, in order, and which of these publishes, by their
      place in that order, still await their result. A result names its publish's version only. */
  datatype System = System(doc: Doc, awaited: set<nat>, committed: seq<int>)

  datatype Action =
    | Publishing(user: bool, explicit: int, fault: Fault)
    | Drafting(user: bool)
    | Answer(publish: nat, docId: string, success: bool)
    | Removing

  function Do(s: System, a: Action): System {
    match a
    case Publishing(user, explicit, fault) =>
      var (doc, outcome) := Publish(s.doc, user, explicit, fault);
      if (outcome.Published? || outcome.LostComments?) && PublishesAsUser(s.doc, user) then
        var v := NextVersion(s.doc.blobs, explicit);
        System(doc, if outcome.Published? then s.awaited + {|s.committed|} else s.awaited, s.committed + [v])
      else s.(doc := doc)
    case Drafting(user) => s.(doc := SaveDraft(s.doc, user))
    case Answer(publish, docId, success) =>
      if publish !in s.awaited || publish >= |s.committed| then s
      else
        System(if success then Confirm(s.doc, s.committed[publish], docId) else s.doc, s.awaited - {publish},
               s.committed)
    case Removing => s.(doc := Remove(s.doc))
  }

  function After(actions: seq<Action>): System {
    if actions == [] then System(Doc([], None), {}, []) else Do(After(actions[..|actions| - 1]), actions[|actions| - 1])
  }

  predicate AutoNumbered(actions: seq<Action>) {
    forall i :: 0 <= i < |actions| && actions[i].Publishing? ==> actions[i].explicit <= 0
  }

  /** What holds of the registration once a user publish has committed. */
  predicate Committed(s: System) {
    s.committed != [] ==>
      && s.doc.meta.Some? && s.doc.meta.value.user
      && (s.doc.meta.value.state == Pending || s.doc.meta.value.state == Registered)
      && s.doc.meta.value.version == s.committed[|s.committed| - 1]
  }

  /** Only publishes that have committed await a result. */
  predicate Expected(s: System) {
    forall i :: i in s.awaited ==> i < |s.committed|
  }

  /** ... and, when all versions are numbered automatically, of the numbers. */
  predicate Numbered(s: System) {
    && (forall i :: 0 <= i < |s.committed| ==> s.committed[i] <= MaxOf(s.doc.blobs))
    && (forall i, j :: 0 <= i < j < |s.committed| ==> s.committed[i] < s.committed[j])
  }

  lemma DoCommits(s: System, a: Action)
    requires Committed(s)
    ensures Committed(Do(s, a)) && s.committed <= Do(s, a).committed
    ensures Expected(s) ==> Expected(Do(s, a))
    ensures s.committed != [] ==> !MayRemove(s.doc)
  {
  }

  lemma DoNumbers(s: System, a: Action)
    requires Committed(s) && Numbered(s) && (a.Publishing? ==> a.explicit <= 0)
    ensures Numbered(Do(s, a))
  {
    match a
    case Publishing(user, explicit, fault) =>
      var t, v := Do(s, a), NextVersion(s.doc.blobs, explicit);
      assert t.doc.blobs == s.doc.blobs || t.doc.blobs == s.doc.blobs + [v];
      assert (s.doc.blobs + [v])[..|s.doc.blobs|] == s.doc.blobs;
      assert t.committed == s.committed || t.committed == s.committed + [v];
    case _ =>
      DoCommits(s, a);
  }

  lemma {:induction false} RunCommits(actions: seq<Action>)
    ensures Committed(After(actions)) && Expected(After(actions))
  {
    if actions != [] {
      RunCommits(actions[..|actions| - 1]);
      DoCommits(After(actions[..|actions| - 1]), actions[|actions| - 1]);
    }
  }

  lemma {:induction false} RunNumbers(actions: seq<Action>)
    requires AutoNumbered(actions)
    ensures Numbered(After(actions))
  {
    if actions != [] {
      var front := actions[..|actions| - 1];
      RunNumbers(front);
      RunCommits(front);
      DoNumbers(After(front), actions[|actions| - 1]);
    }
  }

  /** Through every run: once a user publish has committed, the document is never deleted here. */
  lemma CommittedIsNeverRemoved(actions: seq<Action>)
    ensures After(actions).committed != [] ==> Do(After(actions), Removing) == After(actions)
  {
    RunCommits(actions);
  }

  /** `registered` always speaks of the user publish committed last, and with automatic numbers that is the newest. */
  lemma RegisteredIsNewest(actions: seq<Action>)
    requires After(actions).doc.meta.Some? && After(actions).doc.meta.value.state == Registered
    ensures After(actions).committed != []
    ensures After(actions).doc.meta.value.version == After(actions).committed[|After(actions).committed| - 1]
    ensures AutoNumbered(actions) ==>
              forall v :: v in After(actions).committed ==> v <= After(actions).doc.meta.value.version
  {
    RunCommits(actions);
    RegisteredNeedsCommit(actions);
    if AutoNumbered(actions) {
      RunNumbers(actions);
      var c := After(actions).committed;
      forall v | v in c ensures v <= c[|c| - 1] {
        var i :| 0 <= i < |c| && c[i] == v;
      }
    }
  }

  predicate NothingYet(s: System) {
    s.committed == [] ==> s.doc.meta.Some? ==> s.doc.meta.value.state == NoState || s.doc.meta.value.state == LocalOnly
  }

  lemma {:induction false} RegisteredNeedsCommit(actions: seq<Action>)
    ensures NothingYet(After(actions))
  {
    if actions != [] {
      RegisteredNeedsCommit(actions[..|actions| - 1]);
    }
  }

  /** In every run, whatever the numbers: the result of a publish changes the state exactly when a result is pending
      and the publish's version is the one committed last; then it confirms that one, and changes nothing else. */
  lemma ResultConfirms(actions: seq<Action>, publish: nat, docId: string)
    requires publish in After(actions).awaited
    ensures
      var s := After(actions);
      var t := Do(s, Answer(publish, docId, true));
      && publish < |s.committed| && s.doc.meta.Some?
      && (t.doc != s.doc <==>
            s.doc.meta.value.state == Pending && s.committed[publish] == s.committed[|s.committed| - 1])
      && (t.doc != s.doc ==> t.doc == Doc(s.doc.blobs, Some(s.doc.meta.value.(state := Registered, docId := docId))))
  {
    RunCommits(actions);
  }

  /** So with automatic numbers a result confirms its own publish or nothing: a stale one changes nothing. */
  lemma StaleResultIsIgnored(actions: seq<Action>, publish: nat, docId: string)
    requires AutoNumbered(actions) && publish in After(actions).awaited
    ensures
      var s := After(actions);
      var t := Do(s, Answer(publish, docId, true));
      && s.committed != [] && s.doc.meta.Some?
      && (t.doc != s.doc <==> publish == |s.committed| - 1 && s.doc.meta.value.state == Pending)
  {
    ResultConfirms(actions, publish, docId);
    RunNumbers(actions);
  }

  lemma AfterSnoc(actions: seq<Action>, a: Action)
    ensures After(actions + [a]) == Do(After(actions), a)
  {
    assert (actions + [a])[..|actions|] == actions;
  }

  /** The state after user publishes of the versions 1, 2 and 1 again, the last one cut off before its result. */
  lemma RepeatedVersion(s: System, first: Action, second: Action, third: Action) returns (t: System)
    requires s == System(Doc([], None), {}, [])
    requires first == Publishing(true, 1, NoFault) && second == Publishing(true, 2, NoFault)
    requires third == Publishing(true, 1, CommentsFail)
    ensures t == Do(Do(Do(s, first), second), third)
    ensures t.committed == [1, 2, 1] && t.awaited == {0, 1} && t.doc.meta.Some?
    ensures t.doc.meta.value.state == Pending && t.doc.meta.value.version == 1
  {
    var s1 := Do(s, first);
    assert s1.doc.blobs == [1] && s1.committed == [1] && s1.awaited == {0};
    assert s1.doc.meta.Some? && s1.doc.meta.value.user;
    var s2 := Do(s1, second);
    assert s2.doc.blobs == [1, 2] && s2.committed == [1, 2] && s2.awaited == {0, 1};
    assert s2.doc.meta.Some? && s2.doc.meta.value.user;
    t := Do(s2, third);
  }

  lemma LateAnswer(t: System, publish: nat, docId: string)
    requires publish in t.awaited && publish < |t.committed| && t.doc.meta.Some?
    requires t.doc.meta.value.state == Pending && t.doc.meta.value.version == t.committed[publish]
    ensures Do(t, Answer(publish, docId, true)).doc != t.doc
  {
  }

  lemma AfterThree(first: Action, second: Action, third: Action)
    ensures After([first, second, third]) == Do(Do(Do(After([]), first), second), third)
  {
    AfterSnoc([], first);
    AfterSnoc([first], second);
    AfterSnoc([first, second], third);
    assert [] + [first] == [first] && [first] + [second] == [first, second];
    assert [first, second] + [third] == [first, second, third];
  }

  /** An explicit number may repeat one whose result is still to come: the late result of the first publish then
      confirms the third. */
  lemma ExplicitVersionConfusesResults(docId: string) returns (actions: seq<Action>)
    ensures !AutoNumbered(actions)
    ensures
      var s := After(actions);
      && s.committed == [1, 2, 1] && 0 in s.awaited && 2 !in s.awaited
      && Do(s, Answer(0, docId, true)).doc != s.doc
  {
    var first, second := Publishing(true, 1, NoFault), Publishing(true, 2, NoFault);
    var third := Publishing(true, 1, CommentsFail);
    actions := [first, second, third];
    AfterThree(first, second, third);
    var t := RepeatedVersion(After([]), first, second, third);
    LateAnswer(t, 0, docId);
    assert actions[0] == first;
  }
}
