/** Values of the comment event-log model (internal/core/types.go). */
module CommentTypes {
  import opened Wrappers

  /** The agent's verdict on a comment; `NoVerdict` is the empty string of the stored form. */
  datatype AgentStatus = NoVerdict | Applied | Partial | Question | OtherVerdict(name: string)

  /** The nearest heading recorded for an element anchor, plus its parked position. */
  datatype Fallback = Fallback(nearestHeading: Option<string>, ratio: Option<real>)

  datatype AnchorKind = TextAnchor | ElementAnchor | LostAnchor | OtherAnchor(name: string)

  /** Where a comment is attached. `fingerprint` is the tag hint; an empty hint is "". */
  datatype Anchor = Anchor(
    kind: AnchorKind,
    text: string,
    contextBefore: string,
    contextAfter: string,
    aid: string,
    selector: string,
    elementLabel: string,
    reason: string,
    fingerprint: Option<string>,
    fallback: Option<Fallback>)

  datatype ReplySeed = ReplySeed(id: string, author: string, text: string, agentStatus: AgentStatus)

  datatype EventKind =
    | Created
    | TextEdited
    | AnchorChanged
    | MarkedApplied
    | MarkedOpen
    | Deleted
    | ReactionAdded
    | ReactionRemoved
    | ReplyAdded
    | ReplyTextEdited
    | ReplyDeleted
    | ReplyReactionAdded
    | ReplyReactionRemoved
    | OtherKind(name: string)

  /** One entry of a comment's append-only log. An event without an id carries eid == "". */
  datatype Event = Event(
    kind: EventKind,
    eid: string,
    atVersion: int,
    at: string,
    anchor: Option<Anchor>,
    resetStatus: Option<bool>,
    text: string,
    appliedIn: Option<int>,
    actor: string,
    agentStatus: AgentStatus,
    emoji: string,
    reply: Option<ReplySeed>,
    replyId: string)

  /** An event of the given kind with every optional member absent. */
  function Blank(kind: EventKind, version: int, at: string): Event {
    Event(kind, "", version, at, None, None, "", None, "", NoVerdict, "", None, "")
  }

  /** The value of a stored comment: stable identity plus its log. */
  datatype Record = Record(id: string, author: string, created: string, createdIn: int, events: seq<Event>)

  type Reactions = map<string, seq<string>>

  datatype ReplySnapshot = ReplySnapshot(
    id: string,
    parentId: string,
    author: string,
    text: string,
    agentStatus: AgentStatus,
    created: string,
    reactions: Reactions,
    deleted: bool)

  datatype Status = Open | AppliedStatus

  datatype Snapshot = Snapshot(
    id: string,
    author: string,
    created: string,
    createdIn: int,
    version: int,
    anchor: Option<Anchor>,
    text: string,
    status: Status,
    appliedIn: Option<int>,
    replies: seq<ReplySnapshot>,
    reactions: Reactions,
    deleted: bool)

  /** A commentable element of one published version, as the stamper reports it. */
  datatype Artifact = Artifact(aid: string, tag: string, heading: Option<string>, legacyAids: seq<string>)
}
