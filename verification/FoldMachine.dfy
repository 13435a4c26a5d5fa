/** The fold as the program runs it: a state changed in place, event by event (internal/core/fold.go). */
module FoldMachine {
  import opened Wrappers
  import opened CommentTypes
  import opened Fold
  import opened CommentStore

  method FindUser(users: seq<string>, u: string) returns (idx: int)
    ensures idx == IndexOf(users, u)
  {
    for i := 0 to |users|
      invariant u !in users[..i]
    {
      if users[i] == u {
        IndexIs(users, u, i);
        return i;
      }
    }
    idx := -1;
  }

  lemma {:induction false} IndexIs(users: seq<string>, u: string, i: nat)
    requires i < |users| && users[i] == u && u !in users[..i]
    ensures IndexOf(users, u) == i
  {
    if users[0] != u {
      assert users[..i] == [users[0]] + users[1..][..i - 1];
      IndexIs(users[1..], u, i - 1);
    }
  }

  method React(reactions: Reactions, emoji: string, actor: string, add: bool) returns (r: Reactions)
    ensures r == ApplyReaction(reactions, emoji, actor, add)
  {
    var users := if emoji in reactions then reactions[emoji] else [];
    var idx := FindUser(users, actor);
    r := reactions;
    if add {
      if idx < 0 {
        users := users + [actor];
      }
      r := r[emoji := users];
    } else {
      if idx >= 0 {
        users := users[..idx] + users[idx + 1..];
      }
      if |users| > 0 {
        r := r[emoji := users];
      } else {
        r := r - {emoji};
      }
    }
  }

  class FoldState {
    var snap: Snapshot
    var replyOrder: seq<string>
    var replyById: map<string, ReplySnapshot>
    var agentVerdict: Option<AgentStatus>

    function Value(): View
      reads this
    {
      View(snap, replyOrder, replyById, agentVerdict)
    }

    constructor (c: Record)
      ensures Value() == Start(c)
    {
      snap := EmptySnapshot(c);
      replyOrder, replyById, agentVerdict := [], map[], None;
    }

    method ApplyContentEvent(e: Event) returns (handled: bool)
      modifies this`snap
      ensures handled <==> e.kind.Created? || e.kind.TextEdited? || e.kind.AnchorChanged?
      ensures Value() == ApplyContent(old(Value()), e)
    {
      match e.kind
      case Created =>
        snap := snap.(anchor := e.anchor, text := e.text);
        handled := true;
      case TextEdited =>
        snap := snap.(text := e.text);
        handled := true;
      case AnchorChanged =>
        snap := snap.(anchor := e.anchor);
        if e.resetStatus.Some? && e.resetStatus.value {
          snap := snap.(status := Open, appliedIn := None);
        }
        handled := true;
      case _ =>
        handled := false;
    }

    method ApplyStatusEvent(e: Event) returns (handled: bool)
      modifies this`snap, this`agentVerdict
      ensures handled <==> e.kind.MarkedApplied? || e.kind.MarkedOpen? || e.kind.Deleted?
      ensures Value() == ApplyStatus(old(Value()), e)
    {
      match e.kind
      case MarkedApplied =>
        var appliedIn := if e.appliedIn.Some? then e.appliedIn else Some(e.atVersion);
        snap := snap.(status := AppliedStatus, appliedIn := appliedIn);
        agentVerdict := Some(if e.agentStatus.NoVerdict? then Applied else e.agentStatus);
        handled := true;
      case MarkedOpen =>
        snap := snap.(status := Open, appliedIn := None);
        agentVerdict := if e.agentStatus.NoVerdict? then None else Some(e.agentStatus);
        handled := true;
      case Deleted =>
        snap := snap.(deleted := true);
        handled := true;
      case _ =>
        handled := false;
    }

    method ApplyParentReactionEvent(e: Event) returns (handled: bool)
      modifies this`snap
      ensures handled <==> (e.kind.ReactionAdded? || e.kind.ReactionRemoved?) && e.emoji != "" && e.actor != ""
      ensures Value() == ApplyParentReaction(old(Value()), e)
    {
      if e.kind.ReactionAdded? && e.emoji != "" && e.actor != "" {
        var r := React(snap.reactions, e.emoji, e.actor, true);
        snap := snap.(reactions := r);
        return true;
      }
      if e.kind.ReactionRemoved? && e.emoji != "" && e.actor != "" {
        var r := React(snap.reactions, e.emoji, e.actor, false);
        snap := snap.(reactions := r);
        return true;
      }
      return false;
    }

    method ApplyReplyEvent(e: Event)
      modifies this`replyOrder, this`replyById
      ensures Value() == ApplyReply(old(Value()), e)
    {
      match e.kind
      case ReplyAdded =>
        if e.reply.Some? && e.reply.value.id != "" {
          var seed := e.reply.value;
          replyOrder := replyOrder + [seed.id];
          replyById := replyById[seed.id :=
            ReplySnapshot(seed.id, snap.id, seed.author, seed.text, seed.agentStatus, e.at, map[], false)];
        }
      case ReplyTextEdited =>
        if e.replyId in replyById {
          replyById := replyById[e.replyId := replyById[e.replyId].(text := e.text)];
        }
      case ReplyDeleted =>
        if e.replyId in replyById {
          replyById := replyById[e.replyId := replyById[e.replyId].(deleted := true)];
        }
      case ReplyReactionAdded | ReplyReactionRemoved =>
        if e.replyId in replyById && e.emoji != "" && e.actor != "" {
          var reply := replyById[e.replyId];
          var r := React(reply.reactions, e.emoji, e.actor, e.kind.ReplyReactionAdded?);
          replyById := replyById[e.replyId := reply.(reactions := r)];
        } else {
          Unchanged(replyById, e.replyId);
        }
      case _ =>
        Unchanged(replyById, e.replyId);
    }

    method ApplyCommentEvent(e: Event)
      modifies this
      ensures Value() == ApplyEvent(old(Value()), e)
    {
      var handled := ApplyContentEvent(e);
      if handled { return; }
      handled := ApplyStatusEvent(e);
      if handled { return; }
      handled := ApplyParentReactionEvent(e);
      if handled { return; }
      ApplyReplyEvent(e);
      if e.kind.ReactionAdded? || e.kind.ReactionRemoved? {
        Unchanged(replyById, e.replyId);
      }
    }

    method Finish() returns (s: Snapshot)
      modifies this`snap
      ensures s == Finalize(old(Value()))
    {
      if agentVerdict.Some? {
        var emoji := VerdictEmoji(agentVerdict.value);
        if emoji != "" {
          var r := React(snap.reactions, emoji, AGENT, true);
          snap := snap.(reactions := r);
        }
      }
      var replies: seq<ReplySnapshot> := [];
      for i := 0 to |replyOrder|
        invariant replies == LiveReplies(replyOrder[..i], replyById)
      {
        assert replyOrder[..i + 1][..i] == replyOrder[..i];
        var id := replyOrder[i];
        if id in replyById && !replyById[id].deleted {
          replies := replies + [replyById[id]];
        }
      }
      assert replyOrder[..|replyOrder|] == replyOrder;
      snap := snap.(replies := replies);
      s := snap;
    }
  }

  /** Writing back what a map holds changes nothing. */
  lemma Unchanged<V>(m: map<string, V>, k: string)
    ensures k in m ==> m[k := m[k]] == m
  {
  }

  /** SnapshotAt as the program runs it: missing ids are filled in, then dedup, stable sort, and the replay of what
      the version can see. */
  method ReadSnapshot(c: Comment, v: int, nonce: nat -> string) returns (s: Option<Snapshot>)
    modifies c`events
    ensures c.Value() == Filled(old(c.Value()), nonce)
    ensures s == SnapshotAt(c.Value(), v)
  {
    var changed := c.BackfillEIDs(nonce);
    if |c.events| == 0 {
      return None;
    }
    var at := v;
    if !IsFiniteVersion(v) {
      at := VERSION_LATEST;
    }
    if c.createdIn > at {
      return None;
    }
    var st := new FoldState(c.Value());
    var deduped := EventLog.DedupEvents(c.events);
    var ordered := StableSort.Sort(deduped, VersionOf);
    ReplayInto(st, ordered, at);
    var snapshot := st.Finish();
    s := Some(snapshot);
  }

  lemma UptoSnoc(v: View, es: seq<Event>, i: nat, at: int)
    requires i < |es|
    ensures Run(v, Upto(es[..i + 1], at)) ==
            if Visible(es[i], at) then ApplyEvent(Run(v, Upto(es[..i], at)), es[i]) else Run(v, Upto(es[..i], at))
  {
    var seen := Upto(es[..i], at);
    assert es[..i + 1][..i] == es[..i];
    assert (seen + [es[i]])[..|seen|] == seen;
  }

  /** The replay loop: every event the version can see is applied in order. */
  method ReplayInto(st: FoldState, ordered: seq<Event>, at: int)
    modifies st
    ensures st.Value() == Run(old(st.Value()), Upto(ordered, at))
  {
    ghost var start := st.Value();
    for i := 0 to |ordered|
      invariant st.Value() == Run(start, Upto(ordered[..i], at))
    {
      UptoSnoc(start, ordered, i, at);
      var e := ordered[i];
      if IsFiniteVersion(e.atVersion) && e.atVersion <= at {
        st.ApplyCommentEvent(e);
      }
    }
    assert ordered[..|ordered|] == ordered;
  }
}
