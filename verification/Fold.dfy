/** Folding a comment's log into the snapshot a reader of one version sees (internal/core/fold.go). */
module Fold {
  import opened Wrappers
  import opened CommentTypes
  import EventLog
  import StableSort

  /** The newest state: the largest machine integer. */
  const VERSION_LATEST: int := 0x7FFF_FFFF_FFFF_FFFF

  const AGENT := "odoc-agent"

  predicate IsFiniteVersion(v: int) {
    v >= 0 && v != VERSION_LATEST
  }

  /** The emoji an agent verdict shows, "" when it shows none. */
  function VerdictEmoji(s: AgentStatus): string {
    match s
    case Applied => "\U{2705}"
    case Partial => "\U{1F7E1}"
    case Question => "\U{2753}"
    case _ => ""
  }

  // ----- reactions

  function IndexOf(users: seq<string>, u: string): (i: int)
    ensures -1 <= i < |users|
    ensures i >= 0 ==> users[i] == u && u !in users[..i]
    ensures i < 0 ==> u !in users
  {
    if users == [] then -1
    else if users[0] == u then 0
    else
      var i := IndexOf(users[1..], u);
      if i < 0 then -1 else
        assert users[..i + 1] == [users[0]] + users[1..][..i];
        i + 1
  }

  function Users(r: Reactions, emoji: string): seq<string> {
    if emoji in r then r[emoji] else []
  }

  function ApplyReaction(r: Reactions, emoji: string, actor: string, add: bool): Reactions {
    var users := Users(r, emoji);
    var i := IndexOf(users, actor);
    if add then r[emoji := if i < 0 then users + [actor] else users]
    else
      var left := if i >= 0 then users[..i] + users[i + 1..] else users;
      if left != [] then r[emoji := left] else r - {emoji}
  }

  // ----- one event

  /** The fold's state: the snapshot so far, the replies by id and the running agent verdict. */
  datatype View = View(
    snap: Snapshot,
    replyOrder: seq<string>,
    replyById: map<string, ReplySnapshot>,
    verdict: Option<AgentStatus>)

  function AddReply(v: View, e: Event): View {
    if e.reply.None? || e.reply.value.id == "" then v
    else
      var seed := e.reply.value;
      v.(replyOrder := v.replyOrder + [seed.id],
         replyById := v.replyById[seed.id :=
           ReplySnapshot(seed.id, v.snap.id, seed.author, seed.text, seed.agentStatus, e.at, map[], false)])
  }

  /** Content and status events: they change the snapshot's own fields and the verdict. */
  function ApplyContent(v: View, e: Event): View {
    match e.kind
    case Created => v.(snap := v.snap.(anchor := e.anchor, text := e.text))
    case TextEdited => v.(snap := v.snap.(text := e.text))
    case AnchorChanged =>
      var s := v.snap.(anchor := e.anchor);
      v.(snap := if e.resetStatus == Some(true) then s.(status := Open, appliedIn := None) else s)
    case _ => v
  }

  function ApplyStatus(v: View, e: Event): View {
    match e.kind
    case MarkedApplied =>
      v.(snap := v.snap.(status := AppliedStatus,
                         appliedIn := if e.appliedIn.Some? then e.appliedIn else Some(e.atVersion)),
         verdict := Some(if e.agentStatus.NoVerdict? then Applied else e.agentStatus))
    case MarkedOpen =>
      v.(snap := v.snap.(status := Open, appliedIn := None),
         verdict := if e.agentStatus.NoVerdict? then None else Some(e.agentStatus))
    case Deleted => v.(snap := v.snap.(deleted := true))
    case _ => v
  }

  function ApplyParentReaction(v: View, e: Event): View {
    if (e.kind.ReactionAdded? || e.kind.ReactionRemoved?) && e.emoji != "" && e.actor != ""
    then v.(snap := v.snap.(reactions := ApplyReaction(v.snap.reactions, e.emoji, e.actor, e.kind.ReactionAdded?)))
    else v
  }

  /** The effect of a reply event on the reply it names. */
  function EditedReply(r: ReplySnapshot, e: Event): ReplySnapshot {
    match e.kind
    case ReplyTextEdited => r.(text := e.text)
    case ReplyDeleted => r.(deleted := true)
    case ReplyReactionAdded | ReplyReactionRemoved =>
      if e.emoji == "" || e.actor == "" then r
      else r.(reactions := ApplyReaction(r.reactions, e.emoji, e.actor, e.kind.ReplyReactionAdded?))
    case _ => r
  }

  function ApplyReply(v: View, e: Event): View {
    if e.kind.ReplyAdded? then AddReply(v, e)
    else if e.replyId in v.replyById
    then v.(replyById := v.replyById[e.replyId := EditedReply(v.replyById[e.replyId], e)])
    else v
  }

  function ApplyEvent(v: View, e: Event): View {
    match e.kind
    case Created | TextEdited | AnchorChanged => ApplyContent(v, e)
    case MarkedApplied | MarkedOpen | Deleted => ApplyStatus(v, e)
    case ReactionAdded | ReactionRemoved => ApplyParentReaction(v, e)
    case _ => ApplyReply(v, e)
  }

  // ----- the replay

  function VersionOf(e: Event): int { e.atVersion }

  function Ordered(es: seq<Event>): seq<Event> {
    StableSort.Sort(EventLog.Dedup(es), VersionOf)
  }

  /** The version a read at `v` folds to: a negative version reads the newest state. */
  function ReadVersion(v: int): int {
    if IsFiniteVersion(v) then v else VERSION_LATEST
  }

  predicate Visible(e: Event, at: int) {
    IsFiniteVersion(e.atVersion) && e.atVersion <= at
  }

  function Upto(es: seq<Event>, at: int): seq<Event> {
    if es == [] then []
    else
      var rest := Upto(es[..|es| - 1], at);
      if Visible(es[|es| - 1], at) then rest + [es[|es| - 1]] else rest
  }

  function EmptySnapshot(c: Record): Snapshot {
    Snapshot(c.id, c.author, c.created, c.createdIn, c.createdIn, None, "", Open, None, [], map[], false)
  }

  function Start(c: Record): View {
    View(EmptySnapshot(c), [], map[], None)
  }

  function Run(v: View, es: seq<Event>): View {
    if es == [] then v else ApplyEvent(Run(v, es[..|es| - 1]), es[|es| - 1])
  }

  function Replay(c: Record, at: int): View {
    Run(Start(c), Upto(Ordered(c.events), at))
  }

  /** The live replies in the order they were added. */
  function LiveReplies(order: seq<string>, byId: map<string, ReplySnapshot>): seq<ReplySnapshot> {
    if order == [] then []
    else
      var rest := LiveReplies(order[..|order| - 1], byId);
      var id := order[|order| - 1];
      if id in byId && !byId[id].deleted then rest + [byId[id]] else rest
  }

  function Finalize(v: View): Snapshot {
    var r :=
      if v.verdict.Some? && VerdictEmoji(v.verdict.value) != ""
      then ApplyReaction(v.snap.reactions, VerdictEmoji(v.verdict.value), AGENT, true)
      else v.snap.reactions;
    v.snap.(reactions := r, replies := LiveReplies(v.replyOrder, v.replyById))
  }

  /** What a reader of version `v` sees of a comment, None when the comment did not exist then. */
  function SnapshotAt(c: Record, v: int): Option<Snapshot> {
    if c.events == [] || c.createdIn > ReadVersion(v) then None
    else Some(Finalize(Replay(c, ReadVersion(v))))
  }
}
