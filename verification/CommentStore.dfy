/** A stored comment, whose log the operations change in place (internal/core/events.go). */
module CommentStore {
  import opened CommentTypes
  import opened EventLog

  /** The log with every missing id stamped; event `j` draws nonce(j). */
  function Backfilled(es: seq<Event>, nonce: nat -> string): seq<Event> {
    seq(|es|, j requires 0 <= j < |es| => Stamped(es[j], nonce(j)))
  }

  lemma BackfillStamps(es: seq<Event>, nonce: nat -> string)
    ensures AllStamped(Backfilled(es, nonce))
    ensures AllStamped(es) ==> Backfilled(es, nonce) == es
  {
    forall j | 0 <= j < |es| ensures Backfilled(es, nonce)[j].eid != "" {
      EventEIDNonEmpty(es[j], nonce(j));
    }
    if AllStamped(es) {
      forall j | 0 <= j < |es| ensures Backfilled(es, nonce)[j] == es[j] {
        assert es[j].eid != "";
        assert Backfilled(es, nonce)[j] == Stamped(es[j], nonce(j));
      }
      assert Backfilled(es, nonce) == es;
    }
  }

  /** The comment once EnsureEventLog has run. */
  function Filled(c: Record, nonce: nat -> string): Record {
    c.(events := Backfilled(c.events, nonce))
  }

  lemma FilledStays(c: Record, nonce: nat -> string)
    ensures AllStamped(Filled(c, nonce).events)
    ensures AllStamped(c.events) ==> Filled(c, nonce) == c
  {
    BackfillStamps(c.events, nonce);
    assert c.(events := c.events) == c;
  }

  function CompactLog(es: seq<Event>): seq<Event> {
    if |Dedup(es)| != |es| then Dedup(es) else es
  }

  class Comment {
    const id: string
    const author: string
    const created: string
    const createdIn: int
    var events: seq<Event>

    function Value(): Record
      reads this
    {
      Record(id, author, created, createdIn, events)
    }

    constructor (r: Record)
      ensures Value() == r
    {
      id, author, created, createdIn, events := r.id, r.author, r.created, r.createdIn, r.events;
    }

    method AppendEvent(event: Event, nonce: string)
      modifies this`events
      ensures events == old(events) + [Stamped(event, nonce)]
    {
      var e := event;
      if e.eid == "" {
        e := e.(eid := EventEID(e, nonce));
      }
      events := events + [e];
    }

    method BackfillEIDs(nonce: nat -> string) returns (changed: bool)
      modifies this`events
      ensures events == Backfilled(old(events), nonce)
      ensures changed <==> !AllStamped(old(events))
    {
      changed := false;
      ghost var was := events;
      ghost var goal := Backfilled(events, nonce);
      for i := 0 to |events|
        invariant |events| == |was|
        invariant forall j :: 0 <= j < |was| ==> events[j] == if j < i then goal[j] else was[j]
        invariant changed <==> exists j :: 0 <= j < i && was[j].eid == ""
      {
        assert events[i] == was[i] && goal[i] == Stamped(was[i], nonce(i));
        if events[i].eid == "" {
          events := events[i := events[i].(eid := EventEID(events[i], nonce(i)))];
          changed := true;
        }
      }
      assert events == goal;
    }

    /** Collapse the log to its deduped form when that is shorter. */
    method Compact(nonce: nat -> string) returns (changed: bool)
      modifies this`events
      ensures events == CompactLog(Backfilled(old(events), nonce))
      ensures changed <==> |events| < |old(events)|
    {
      changed := BackfillEIDs(nonce);
      changed := false;
      var compacted := DedupEvents(events);
      DedupShrinks(events);
      if |compacted| != |events| {
        events := compacted;
        changed := true;
      }
    }
  }

  lemma {:induction false} DedupShrinks(es: seq<Event>)
    ensures |Dedup(es)| <= |es|
  {
    if es != [] {
      DedupShrinks(es[..|es| - 1]);
    }
  }
}
