/** The fixed-window rate limiter (internal/transport/httpx/middleware.go): it forgets windows that are over once it
    holds many, and decides as one that never forgets. */
module RateLimiter {

  datatype Window = Window(count: nat, resetAt: int)

  datatype Request = Request(key: string, at: int)

  type Hits = map<string, Window>

  const CROWDED := 10_000

  // Times are counted in nanoseconds.
  const SECOND := 1_000_000_000

  /** The key's window at a time: the one held, or a new one when there is none or it is over. */
  function Current(h: Hits, key: string, now: int, length: nat): Window {
    if key in h && h[key].resetAt >= now then h[key] else Window(0, now + length)
  }

  /** The windows once a request is counted. */
  function Counted(h: Hits, r: Request, length: nat): Hits {
    var w := Current(h, r.key, r.at, length);
    h[r.key := w.(count := w.count + 1)]
  }

  predicate Allowed(h: Hits, r: Request, length: nat, max: int) {
    max <= 0 || Current(h, r.key, r.at, length).count + 1 <= max
  }

  /** The windows that are not over yet. */
  function Unexpired(h: Hits, now: int): Hits {
    map k | k in h && h[k].resetAt >= now :: h[k]
  }

  /** One request: counted, and when it is allowed and the limiter crowded, windows that are over are dropped. */
  function Step(h: Hits, r: Request, length: nat, max: int): Hits {
    if max <= 0 then h
    else
      var counted := Counted(h, r, length);
      if Allowed(h, r, length, max) && |counted| > CROWDED then Unexpired(counted, r.at) else counted
  }

  class Limiter {
    var hits: Hits
    const length: nat
    const max: int

    constructor (length: nat, max: int)
      ensures this.length == length && this.max == max && hits == map[]
    {
      this.length, this.max, hits := length, max, map[];
    }

    /** allow, with the whole seconds until the window's reset, and one more, for a refused request. */
    method Allow(r: Request) returns (ok: bool, wait: int)
      modifies this
      ensures hits == Step(old(hits), r, length, max) && ok == Allowed(old(hits), r, length, max)
      ensures wait == if ok then 0 else (Current(old(hits), r.key, r.at, length).resetAt - r.at) / SECOND + 1
    {
      if max <= 0 {
        return true, 0;
      }
      var w := if r.key in hits then hits[r.key] else Window(0, r.at + length);
      if w.resetAt < r.at {
        w := Window(0, r.at + length);
      }
      w := w.(count := w.count + 1);
      hits := hits[r.key := w];
      if w.count > max {
        return false, (w.resetAt - r.at) / SECOND + 1;
      }
      if |hits| > CROWDED {
        ghost var all := hits;
        var todo := hits.Keys;
        while todo != {}
          invariant todo <= all.Keys
          invariant hits == map k | k in all && (k in todo || all[k].resetAt >= r.at) :: all[k]
          decreases |todo|
        {
          var k :| k in todo;
          if hits[k].resetAt < r.at {
            hits := hits - {k};
          }
          todo := todo - {k};
        }
        assert hits == Unexpired(all, r.at);
      }
      return true, 0;
    }
  }

  // ----- forgetting makes no difference

  /** The windows of a limiter that never forgets. */
  function Kept(rs: seq<Request>, length: nat): Hits {
    if rs == [] then map[] else Counted(Kept(rs[..|rs| - 1], length), rs[|rs| - 1], length)
  }

  function Held(rs: seq<Request>, length: nat, max: int): Hits {
    if rs == [] then map[] else Step(Held(rs[..|rs| - 1], length, max), rs[|rs| - 1], length, max)
  }

  predicate InOrder(rs: seq<Request>) {
    forall i, j :: 0 <= i < j < |rs| ==> rs[i].at <= rs[j].at
  }

  /** The limiter holds the windows of one that never forgets, but for some that are over. */
  predicate Forgets(g: Hits, h: Hits, now: int) {
    && (forall k :: k in g ==> k in h && g[k] == h[k])
    && (forall k :: k in h && k !in g ==> h[k].resetAt < now)
  }

  lemma SameWindow(g: Hits, h: Hits, key: string, now: int, length: nat)
    requires Forgets(g, h, now)
    ensures Current(g, key, now, length) == Current(h, key, now, length)
  {
  }

  lemma {:induction false} HeldForgets(rs: seq<Request>, length: nat, max: int, now: int)
    requires InOrder(rs) && max > 0 && (rs != [] ==> rs[|rs| - 1].at <= now)
    ensures Forgets(Held(rs, length, max), Kept(rs, length), now)
  {
    if rs != [] {
      var front, r := rs[..|rs| - 1], rs[|rs| - 1];
      HeldForgets(front, length, max, r.at);
      SameWindow(Held(front, length, max), Kept(front, length), r.key, r.at, length);
    }
  }

  /** For clocks that never run back the limiter decides every request as one that never forgets a window. */
  lemma ForgettingIsUnseen(rs: seq<Request>, r: Request, length: nat, max: int)
    requires InOrder(rs + [r])
    ensures Allowed(Held(rs, length, max), r, length, max) == Allowed(Kept(rs, length), r, length, max)
  {
    if max > 0 {
      assert forall i :: 0 <= i < |rs| ==> (rs + [r])[i] == rs[i] && (rs + [r])[|rs|] == r;
      HeldForgets(rs, length, max, r.at);
      SameWindow(Held(rs, length, max), Kept(rs, length), r.key, r.at, length);
    }
  }

  // ----- how many requests get through

  /** How many of the key's requests from `lo` to `hi` are allowed. */
  function Through(rs: seq<Request>, key: string, lo: int, hi: int, length: nat, max: int): nat {
    if rs == [] then 0
    else
      var front, r := rs[..|rs| - 1], rs[|rs| - 1];
      Through(front, key, lo, hi, length, max) +
      if r.key == key && lo <= r.at <= hi && Allowed(Held(front, length, max), r, length, max) then 1 else 0
  }

  function AtMost(n: nat, max: nat): nat {
    if n <= max then n else max
  }

  /** What a window says of the number of requests that got through from `lo` to `hi`: since it began no more than
      it counts, and since one length before that no more than a full window besides. */
  predicate Accounts(w: Window, through: nat, lo: int, hi: int, length: nat, max: nat) {
    var began := w.resetAt - length;
    && (lo >= began ==> through <= AtMost(w.count, max))
    && (lo >= began - length ==> through <= max + AtMost(w.count, max))
    && (hi - lo <= length ==> through <= 2 * max)
  }

  predicate Bounds(rs: seq<Request>, key: string, lo: int, hi: int, length: nat, max: nat) {
    var h, through := Kept(rs, length), Through(rs, key, lo, hi, length, max);
    if key in h then Accounts(h[key], through, lo, hi, length, max) else through == 0
  }

  /** Nothing got through behind the last request. */
  lemma {:induction false} NothingLater(rs: seq<Request>, key: string, lo: int, hi: int, length: nat, max: int)
    requires forall i :: 0 <= i < |rs| && rs[i].key == key ==> rs[i].at < lo
    ensures Through(rs, key, lo, hi, length, max) == 0
  {
    if rs != [] {
      NothingLater(rs[..|rs| - 1], key, lo, hi, length, max);
    }
  }

  /** Every request of the key so far lies in its window or before. */
  lemma {:induction false} WindowCovers(rs: seq<Request>, key: string, length: nat)
    requires InOrder(rs) && key in Kept(rs, length)
    ensures forall i :: 0 <= i < |rs| && rs[i].key == key ==> rs[i].at <= Kept(rs, length)[key].resetAt
  {
    if rs != [] {
      var front, r := rs[..|rs| - 1], rs[|rs| - 1];
      if key in Kept(front, length) {
        WindowCovers(front, key, length);
      } else {
        NoneYet(front, key, length);
      }
    }
  }

  /** A window began no later than now. */
  lemma {:induction false} WindowBegan(rs: seq<Request>, key: string, now: int, length: nat)
    requires InOrder(rs) && key in Kept(rs, length) && (rs != [] ==> rs[|rs| - 1].at <= now)
    ensures Kept(rs, length)[key].resetAt <= now + length
  {
    if rs != [] && key in Kept(rs[..|rs| - 1], length) {
      WindowBegan(rs[..|rs| - 1], key, now, length);
    }
  }

  lemma {:induction false} NoneYet(rs: seq<Request>, key: string, length: nat)
    requires key !in Kept(rs, length)
    ensures forall i :: 0 <= i < |rs| ==> rs[i].key != key
  {
    if rs != [] {
      NoneYet(rs[..|rs| - 1], key, length);
    }
  }

  /** A window that is over gives way to one beginning at `at`, which counts one request. */
  lemma WindowTurns(w: Window, at: int, before: nat, through: nat, lo: int, hi: int, length: nat, max: nat)
    requires w.resetAt < at && max > 0 && Accounts(w, before, lo, hi, length, max)
    requires lo >= at ==> before == 0
    requires before <= through <= before + 1 && (through > before ==> lo <= at <= hi)
    ensures Accounts(Window(1, at + length), through, lo, hi, length, max)
  {
  }

  /** A window that is not over counts one request more. */
  lemma WindowFills(w: Window, before: nat, through: nat, lo: int, hi: int, at: int, length: nat, max: nat)
    requires max > 0 && Accounts(w, before, lo, hi, length, max)
    requires at <= w.resetAt <= at + length && before <= through <= before + 1
    requires through > before ==> lo <= at <= hi && w.count + 1 <= max
    ensures Accounts(w.(count := w.count + 1), through, lo, hi, length, max)
  {
    if through > before && hi - lo <= length {
      assert lo >= w.resetAt - length - length;
    }
  }

  lemma {:induction false} Bounded(rs: seq<Request>, key: string, lo: int, hi: int, length: nat, max: nat)
    requires InOrder(rs) && max > 0
    ensures Bounds(rs, key, lo, hi, length, max)
  {
    if rs != [] {
      var front, r := rs[..|rs| - 1], rs[|rs| - 1];
      Bounded(front, key, lo, hi, length, max);
      assert rs == front + [r];
      ForgettingIsUnseen(front, r, length, max);
      if r.key == key {
        BoundedStep(front, r, lo, hi, length, max);
      }
    }
  }

  lemma BoundedStep(front: seq<Request>, r: Request, lo: int, hi: int, length: nat, max: nat)
    requires InOrder(front + [r]) && max > 0 && Bounds(front, r.key, lo, hi, length, max)
    requires Allowed(Held(front, length, max), r, length, max) == Allowed(Kept(front, length), r, length, max)
    ensures Bounds(front + [r], r.key, lo, hi, length, max)
  {
    var rs, key, h := front + [r], r.key, Kept(front, length);
    assert rs[..|rs| - 1] == front && rs[|rs| - 1] == r;
    assert InOrder(front) by {
      assert forall i :: 0 <= i < |front| ==> front[i] == rs[i];
    }
    var before, through := Through(front, key, lo, hi, length, max), Through(rs, key, lo, hi, length, max);
    if key !in h {
      NoneYet(front, key, length);
      assert Accounts(Window(1, r.at + length), through, lo, hi, length, max);
    } else if h[key].resetAt < r.at {
      WindowCovers(front, key, length);
      if lo >= r.at {
        NothingLater(front, key, lo, hi, length, max);
      }
      WindowTurns(h[key], r.at, before, through, lo, hi, length, max);
    } else {
      WindowBegan(front, key, r.at, length);
      WindowFills(h[key], before, through, lo, hi, r.at, length, max);
    }
  }

  /** In any interval no longer than a window at most twice the allowed number of a key's requests get through. */
  lemma AtMostTwice(rs: seq<Request>, key: string, lo: int, hi: int, length: nat, max: nat)
    requires InOrder(rs) && max > 0 && hi - lo <= length
    ensures Through(rs, key, lo, hi, length, max) <= 2 * max
  {
    Bounded(rs, key, lo, hi, length, max);
  }
}
