/** Comment event-log primitives: event ids, dedup and compaction (internal/core/events.go). */
module EventLog {
  import opened CommentTypes

  function Digit(d: nat): char
    requires d < 10
  {
    "0123456789"[d]
  }

  /** The decimal text of an integer. */
  function Decimal(n: int): string
    decreases n < 0, if n < 0 then -n else n
  {
    if n < 0 then "-" + Decimal(-n)
    else if n < 10 then [Digit(n)]
    else Decimal(n / 10) + [Digit(n % 10)]
  }

  function KindName(k: EventKind): string {
    match k
    case Created => "created"
    case TextEdited => "text_edited"
    case AnchorChanged => "anchor_changed"
    case MarkedApplied => "marked_applied"
    case MarkedOpen => "marked_open"
    case Deleted => "deleted"
    case ReactionAdded => "reaction_added"
    case ReactionRemoved => "reaction_removed"
    case ReplyAdded => "reply_added"
    case ReplyTextEdited => "reply_text_edited"
    case ReplyDeleted => "reply_deleted"
    case ReplyReactionAdded => "reply_reaction_added"
    case ReplyReactionRemoved => "reply_reaction_removed"
    case OtherKind(name) => name
  }

  /** The stable id of an event. `nonce` is the counter-and-clock text a one-shot event draws. */
  function EventEID(e: Event, nonce: string): string {
    match e.kind
    case ReactionAdded | ReactionRemoved => KindName(e.kind) + ":" + e.emoji + ":" + e.actor
    case MarkedApplied | MarkedOpen | Deleted => KindName(e.kind) + ":" + Decimal(e.atVersion)
    case _ => KindName(e.kind) + ":" + e.at + ":" + nonce
  }

  lemma EventEIDNonEmpty(e: Event, nonce: string)
    ensures EventEID(e, nonce) != ""
  {
  }

  /** An event with its id stamped if it had none. */
  function Stamped(e: Event, nonce: string): Event {
    if e.eid == "" then e.(eid := EventEID(e, nonce)) else e
  }

  predicate HasEid(es: seq<Event>, eid: string) {
    exists i :: 0 <= i < |es| && es[i].eid == eid
  }

  predicate AllStamped(es: seq<Event>) {
    forall i :: 0 <= i < |es| ==> es[i].eid != ""
  }

  /** No two events share an id, unless they have none. */
  predicate DistinctEids(es: seq<Event>) {
    forall i, j :: 0 <= i < j < |es| && es[i].eid != "" ==> es[i].eid != es[j].eid
  }

  /** The first position holding `eid`, or the length. */
  function FindEid(es: seq<Event>, eid: string): (i: nat)
    ensures i <= |es|
    ensures i < |es| ==> es[i].eid == eid
    ensures forall j :: 0 <= j < i ==> es[j].eid != eid
  {
    if es == [] then 0
    else
      var front := es[..|es| - 1];
      var i := FindEid(front, eid);
      assert forall j :: 0 <= j < i ==> es[j] == front[j];
      if i < |front| || es[|front|].eid == eid then i else |es|
  }

  /** `d` with `e` recorded: in place of the event with its id, or at the end. */
  function Put(d: seq<Event>, e: Event): seq<Event> {
    var i := FindEid(d, e.eid);
    if e.eid == "" || i == |d| then d + [e] else d[i := e]
  }

  /** The converged log: every id at its first position with its last value. */
  function Dedup(es: seq<Event>): seq<Event> {
    if es == [] then [] else Put(Dedup(es[..|es| - 1]), es[|es| - 1])
  }

  lemma {:induction false} DedupEids(es: seq<Event>)
    ensures forall eid :: HasEid(Dedup(es), eid) <==> HasEid(es, eid)
    ensures DistinctEids(Dedup(es))
  {
    if es != [] {
      var front, e := es[..|es| - 1], es[|es| - 1];
      DedupEids(front);
      PutEids(Dedup(front), e);
      forall eid ensures HasEid(Dedup(es), eid) <==> HasEid(es, eid) {
        assert HasEid(es, eid) <==> HasEid(front, eid) || e.eid == eid by {
          if HasEid(front, eid) {
            var i :| 0 <= i < |front| && front[i].eid == eid;
            assert es[i].eid == eid;
          }
          if e.eid == eid { assert es[|es| - 1].eid == eid; }
          if HasEid(es, eid) && e.eid != eid {
            var i :| 0 <= i < |es| && es[i].eid == eid;
            assert front[i].eid == eid;
          }
        }
        assert HasEid(Put(Dedup(front), e), eid) <==> HasEid(Dedup(front), eid) || e.eid == eid;
      }
    }
  }

  lemma PutEids(d: seq<Event>, e: Event)
    requires DistinctEids(d)
    ensures forall eid :: HasEid(Put(d, e), eid) <==> HasEid(d, eid) || e.eid == eid
    ensures DistinctEids(Put(d, e))
  {
    var r := Put(d, e);
    forall eid ensures HasEid(r, eid) <==> HasEid(d, eid) || e.eid == eid {
      if HasEid(r, eid) {
        var i :| 0 <= i < |r| && r[i].eid == eid;
        assert i < |d| ==> d[i].eid == r[i].eid;
      }
      if HasEid(d, eid) {
        var i :| 0 <= i < |d| && d[i].eid == eid;
        assert r[i].eid == eid;
      }
      if e.eid == eid {
        var i := FindEid(d, e.eid);
        assert if e.eid == "" || i == |d| then r[|d|].eid == eid else r[i].eid == eid;
      }
    }
  }

  lemma DistinctFront(es: seq<Event>)
    requires es != [] && DistinctEids(es)
    ensures DistinctEids(es[..|es| - 1])
    ensures es[|es| - 1].eid != "" ==> FindEid(es[..|es| - 1], es[|es| - 1].eid) == |es| - 1
  {
    var front, e := es[..|es| - 1], es[|es| - 1];
    forall i, j | 0 <= i < j < |front| && front[i].eid != "" ensures front[i].eid != front[j].eid {
      assert front[i] == es[i] && front[j] == es[j];
    }
    var p := FindEid(front, e.eid);
    assert p < |front| ==> es[p] == front[p];
  }

  /** A log without repeated ids is its own dedup. */
  lemma {:induction false} DedupDistinct(es: seq<Event>)
    requires DistinctEids(es)
    ensures Dedup(es) == es
  {
    if es != [] {
      var front, e := es[..|es| - 1], es[|es| - 1];
      DistinctFront(es);
      DedupDistinct(front);
      assert es == front + [e];
    }
  }

  lemma DedupIdempotent(es: seq<Event>)
    ensures Dedup(Dedup(es)) == Dedup(es)
  {
    DedupEids(es);
    DedupDistinct(Dedup(es));
  }

  lemma SnocBehind(p: seq<Event>, b: seq<Event>)
    requires b != []
    ensures p + b == (p + b[..|b| - 1]) + [b[|b| - 1]]
  {
  }

  lemma DedupSnoc(p: seq<Event>, q: seq<Event>, e: Event)
    requires Dedup(p) == Dedup(q)
    ensures Dedup(p + [e]) == Dedup(q + [e])
  {
    assert (p + [e])[..|p|] == p && (q + [e])[..|q|] == q;
  }

  /** Compaction is invisible to any later appends: deduping early never changes the final dedup. */
  lemma {:induction false} CompactionTransparent(a: seq<Event>, b: seq<Event>)
    ensures Dedup(Dedup(a) + b) == Dedup(a + b)
  {
    if b == [] {
      assert Dedup(a) + b == Dedup(a) && a + b == a;
      DedupIdempotent(a);
    } else {
      var front, e := b[..|b| - 1], b[|b| - 1];
      CompactionTransparent(a, front);
      SnocBehind(Dedup(a), b);
      SnocBehind(a, b);
      DedupSnoc(Dedup(a) + front, a + front, e);
    }
  }

  /** Appending an event whose id is new appends it to the converged log. */
  lemma DedupAppendFresh(es: seq<Event>, e: Event)
    requires e.eid == "" || !HasEid(es, e.eid)
    ensures Dedup(es + [e]) == Dedup(es) + [e]
  {
    assert (es + [e])[..|es + [e]| - 1] == es;
    DedupEids(es);
    var i := FindEid(Dedup(es), e.eid);
    if e.eid != "" && i < |Dedup(es)| {
      assert HasEid(Dedup(es), e.eid);
    }
  }

  /** The events of `es` that come first for their id, in order. */
  function Firsts(es: seq<Event>): seq<Event> {
    if es == [] then []
    else
      var front, e := es[..|es| - 1], es[|es| - 1];
      if e.eid == "" || !HasEid(front, e.eid) then Firsts(front) + [e] else Firsts(front)
  }

  /** The last event with id `eid`. */
  function LastWith(es: seq<Event>, eid: string): (e: Event)
    requires HasEid(es, eid)
    ensures e in es && e.eid == eid
  {
    var front, e := es[..|es| - 1], es[|es| - 1];
    if e.eid == eid then e
    else
      assert HasEid(front, eid) by {
        var i :| 0 <= i < |es| && es[i].eid == eid;
        assert front[i].eid == eid;
      }
      LastWith(front, eid)
  }

  lemma {:induction false} FirstsHave(es: seq<Event>, i: nat)
    requires i < |Firsts(es)|
    ensures HasEid(es, Firsts(es)[i].eid)
  {
    var front, e := es[..|es| - 1], es[|es| - 1];
    if i < |Firsts(front)| {
      FirstsHave(front, i);
      var j :| 0 <= j < |front| && front[j].eid == Firsts(es)[i].eid;
      assert es[j].eid == Firsts(es)[i].eid;
    } else {
      assert es[|es| - 1].eid == Firsts(es)[i].eid;
    }
  }

  /** The value dedup emits for the first event `f` of its id. */
  function Latest(es: seq<Event>, f: Event): Event {
    if f.eid != "" && HasEid(es, f.eid) then LastWith(es, f.eid) else f
  }

  lemma LatestGrows(es: seq<Event>, f: Event)
    requires es != [] && HasEid(es[..|es| - 1], f.eid)
    ensures var e := es[|es| - 1];
            Latest(es, f) == if e.eid != "" && f.eid == e.eid then e else Latest(es[..|es| - 1], f)
  {
    var front := es[..|es| - 1];
    var j :| 0 <= j < |front| && front[j].eid == f.eid;
    assert es[j].eid == f.eid;
  }

  /** What the last event does to the converged log: it is appended, or replaces the one event with its id. */
  lemma DedupLast(es: seq<Event>) returns (p: nat)
    requires es != []
    ensures
      var d, e := Dedup(es[..|es| - 1]), es[|es| - 1];
      if e.eid == "" || !HasEid(es[..|es| - 1], e.eid) then Dedup(es) == d + [e]
      else
        && p < |d| && Dedup(es) == d[p := e] && d[p].eid == e.eid
        && forall i :: 0 <= i < |d| && i != p ==> d[i].eid != e.eid
  {
    var d, e := Dedup(es[..|es| - 1]), es[|es| - 1];
    DedupEids(es[..|es| - 1]);
    p := FindEid(d, e.eid);
    assert p < |d| <==> HasEid(d, e.eid);
  }

  /** The two readings of dedup agree: replace in place as events arrive, or emit last values at first positions. */
  lemma {:induction false} DedupIsFirstsLatest(es: seq<Event>)
    ensures Dedup(es) == seq(|Firsts(es)|, i requires 0 <= i < |Firsts(es)| => Latest(es, Firsts(es)[i]))
    ensures forall i :: 0 <= i < |Firsts(es)| ==> Dedup(es)[i].eid == Firsts(es)[i].eid
  {
    if es != [] {
      var front, e := es[..|es| - 1], es[|es| - 1];
      DedupIsFirstsLatest(front);
      var p := DedupLast(es);
      var f := Firsts(front);
      forall i | 0 <= i < |f|
        ensures Latest(es, f[i]) == if e.eid != "" && f[i].eid == e.eid then e else Latest(front, f[i])
      {
        FirstsHave(front, i);
        LatestGrows(es, f[i]);
      }
      if e.eid == "" || !HasEid(front, e.eid) {
        assert es[|es| - 1] == e;
        assert Latest(es, e) == e;
      }
    }
  }

  /** DedupEvents' first pass: the last value of every id. */
  method LastById(events: seq<Event>) returns (last: map<string, Event>)
    ensures forall id :: id in last <==> id != "" && HasEid(events, id)
    ensures forall id :: id in last ==> last[id] == LastWith(events, id)
  {
    last := map[];
    for k := 0 to |events|
      invariant forall id :: id in last <==> id != "" && HasEid(events[..k], id)
      invariant forall id :: id in last ==> last[id] == LastWith(events[..k], id)
    {
      var e := events[k];
      SnocEids(events, k);
      if e.eid != "" {
        last := last[e.eid := e];
      }
    }
    assert events[..|events|] == events;
  }

  /** DedupEvents: one pass records the last value per id, a second emits each id once. */
  method DedupEvents(events: seq<Event>) returns (out: seq<Event>)
    ensures out == Dedup(events)
  {
    var lastByEid := LastById(events);
    out := [];
    var emitted: set<string> := {};
    for k := 0 to |events|
      invariant forall id :: id in emitted <==> id != "" && HasEid(events[..k], id)
      invariant out == seq(|Firsts(events[..k])|,
                           i requires 0 <= i < |Firsts(events[..k])| => Latest(events, Firsts(events[..k])[i]))
    {
      var e := events[k];
      SnocEids(events, k);
      assert HasEid(events, e.eid);
      if e.eid == "" {
        out := out + [e];
      } else if e.eid !in emitted {
        emitted := emitted + {e.eid};
        out := out + [lastByEid[e.eid]];
      }
    }
    assert events[..|events|] == events;
    DedupIsFirstsLatest(events);
  }

  lemma SnocEids(es: seq<Event>, k: nat)
    requires k < |es|
    ensures es[..k + 1][..k] == es[..k] && es[..k + 1][k] == es[k]
    ensures forall id :: HasEid(es[..k + 1], id) <==> HasEid(es[..k], id) || es[k].eid == id
  {
    var a, b := es[..k], es[..k + 1];
    assert b[..k] == a;
    forall id ensures HasEid(b, id) <==> HasEid(a, id) || es[k].eid == id {
      if HasEid(a, id) {
        var i :| 0 <= i < |a| && a[i].eid == id;
        assert b[i].eid == id;
      }
      if es[k].eid == id { assert b[k].eid == id; }
      if HasEid(b, id) && es[k].eid != id {
        var i :| 0 <= i < |b| && b[i].eid == id;
        assert a[i].eid == id;
      }
    }
  }
}
