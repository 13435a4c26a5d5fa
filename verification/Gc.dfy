/** Collecting assets nothing refers to (internal/service/gc.go): addresses are found in the pages, and an asset goes
    only when no page names it and it is past its grace. */
module Gc {
  import opened Wrappers

  const ADDRESS := 64
  const MAX_SLIDE := 4096

  // ----- the addresses a page names

  predicate IsHex(c: char) {
    '0' <= c <= '9' || 'a' <= c <= 'f'
  }

  datatype Run = Run(lo: nat, hi: nat)

  /** A run of hex digits that is at least an address long and goes on at neither side. */
  predicate IsRun(html: string, r: Run) {
    && r.lo + ADDRESS <= r.hi <= |html|
    && (forall i :: r.lo <= i < r.hi ==> IsHex(html[i]))
    && (r.lo > 0 ==> !IsHex(html[r.lo - 1]))
    && (r.hi < |html| ==> !IsHex(html[r.hi]))
  }

  predicate IsAligned(lo: nat, i: int) {
    (i - lo) % ADDRESS == 0
  }

  /** Where addresses are read in a run: everywhere, but in a long one only at every 64th place and at the end. */
  predicate IsRead(r: Run, i: int) {
    && r.lo <= i <= r.hi - ADDRESS
    && (r.hi - r.lo <= MAX_SLIDE || IsAligned(r.lo, i) || i == r.hi - ADDRESS)
  }

  function AddressAt(html: string, i: nat): string
    requires i + ADDRESS <= |html|
  {
    html[i..i + ADDRESS]
  }

  function RunAddresses(html: string, r: Run): set<string> {
    set i | r.lo <= i <= |html| - ADDRESS && IsRead(r, i) :: AddressAt(html, i)
  }

  function Addresses(html: string): set<string> {
    set lo, hi, w | 0 <= lo <= hi <= |html| && IsRun(html, Run(lo, hi)) && w in RunAddresses(html, Run(lo, hi)) :: w
  }

  /** Pages that could not be found name nothing. */
  function PageAddresses(pages: seq<Option<string>>): set<string> {
    set k, w | 0 <= k < |pages| && pages[k].Some? && w in Addresses(pages[k].value) :: w
  }

  /** Every address inside a run of moderate length is found, wherever in the run it stands. */
  lemma ShortRunsAreRead(html: string, r: Run, i: nat)
    requires IsRun(html, r) && r.hi - r.lo <= MAX_SLIDE && r.lo <= i <= r.hi - ADDRESS
    ensures AddressAt(html, i) in Addresses(html)
  {
    assert IsRead(r, i) && r == Run(r.lo, r.hi);
    assert AddressAt(html, i) in RunAddresses(html, r);
  }

  /** Whatever is found is an address: 64 hex digits of the page. */
  lemma FoundAreAddresses(html: string, w: string)
    requires w in Addresses(html)
    ensures |w| == ADDRESS && (forall c :: c in w ==> IsHex(c))
    ensures exists i :: 0 <= i <= |html| - ADDRESS && w == AddressAt(html, i)
  {
    var lo, hi :| 0 <= lo <= hi <= |html| && IsRun(html, Run(lo, hi)) && w in RunAddresses(html, Run(lo, hi));
    var i :| lo <= i <= hi - ADDRESS && IsRead(Run(lo, hi), i) && w == AddressAt(html, i);
    assert forall k :: 0 <= k < ADDRESS ==> w[k] == html[i + k];
  }

  /** The only run that starts between `i` and the end `j` of its hex digits starts at `i`. */
  lemma RunBetween(html: string, i: nat, j: nat, r: Run)
    requires IsRun(html, r) && i <= r.lo <= j <= |html|
    requires (forall k :: i <= k < j ==> IsHex(html[k])) && (j < |html| ==> !IsHex(html[j]))
    ensures r == Run(i, j)
  {
  }

  /** The matches of the pattern: from the left, each as long as it goes. */
  method FindRuns(html: string) returns (runs: seq<Run>)
    ensures forall r :: r in runs <==> IsRun(html, r)
  {
    runs := [];
    var i := 0;
    while i < |html|
      invariant i > 0 && i - 1 < |html| ==> !IsHex(html[i - 1])
      invariant i <= |html| + 1
      invariant forall r :: r in runs <==> IsRun(html, r) && r.lo < i
      decreases |html| - i
    {
      var j := i;
      while j < |html| && IsHex(html[j])
        invariant i <= j <= |html| && forall k :: i <= k < j ==> IsHex(html[k])
      {
        j := j + 1;
      }
      forall r | IsRun(html, r) && i <= r.lo <= j
        ensures r == Run(i, j)
      {
        RunBetween(html, i, j, r);
      }
      if j - i >= ADDRESS {
        assert IsRun(html, Run(i, j));
        runs := runs + [Run(i, j)];
      }
      i := j + 1;
    }
  }

  class References {
    var shas: set<string>

    constructor ()
      ensures shas == {}
    {
      shas := {};
    }

    method AddEvery(html: string, r: Run)
      requires r.lo <= r.hi <= |html|
      modifies this
      ensures shas == old(shas) + (set k | r.lo <= k <= r.hi - ADDRESS :: AddressAt(html, k))
    {
      var i := r.lo;
      while i + ADDRESS <= r.hi
        invariant r.lo <= i && (i > r.lo ==> i <= r.hi - ADDRESS + 1)
        invariant shas == old(shas) + (set k | r.lo <= k < i :: AddressAt(html, k))
      {
        shas := shas + {AddressAt(html, i)};
        i := i + 1;
      }
    }

    method AddAligned(html: string, r: Run)
      requires r.lo <= r.hi <= |html|
      modifies this
      ensures shas == old(shas) + (set k | r.lo <= k <= r.hi - ADDRESS && IsAligned(r.lo, k) :: AddressAt(html, k))
    {
      var i := r.lo;
      while i + ADDRESS <= r.hi
        invariant r.lo <= i <= r.hi && IsAligned(r.lo, i)
        invariant shas == old(shas) +
                          (set k | r.lo <= k <= r.hi - ADDRESS && k < i && IsAligned(r.lo, k) :: AddressAt(html, k))
      {
        shas := shas + {AddressAt(html, i)};
        NextAligned(r.lo, i);
        i := i + ADDRESS;
      }
    }

    method AddRun(html: string, r: Run)
      requires IsRun(html, r)
      modifies this
      ensures shas == old(shas) + RunAddresses(html, r)
    {
      if r.hi - r.lo <= MAX_SLIDE {
        AddEvery(html, r);
        assert RunAddresses(html, r) == set k | r.lo <= k <= r.hi - ADDRESS :: AddressAt(html, k) by {
          assert forall k :: r.lo <= k <= r.hi - ADDRESS ==> IsRead(r, k);
        }
      } else {
        AddAligned(html, r);
        shas := shas + {AddressAt(html, r.hi - ADDRESS)};
        assert IsRead(r, r.hi - ADDRESS);
      }
    }

    method ScanInto(html: string)
      modifies this
      ensures shas == old(shas) + Addresses(html)
    {
      var runs := FindRuns(html);
      for n := 0 to |runs|
        invariant shas == old(shas) + (set k, w | 0 <= k < n && w in RunAddresses(html, runs[k]) :: w)
      {
        AddRun(html, runs[n]);
      }
      forall w
        ensures w in Addresses(html) <==> exists k :: 0 <= k < |runs| && w in RunAddresses(html, runs[k])
      {
        if w in Addresses(html) {
          var lo, hi :| 0 <= lo <= hi <= |html| && IsRun(html, Run(lo, hi)) && w in RunAddresses(html, Run(lo, hi));
          assert Run(lo, hi) in runs;
        }
        if k :| 0 <= k < |runs| && w in RunAddresses(html, runs[k]) {
          assert runs[k] in runs && runs[k] == Run(runs[k].lo, runs[k].hi);
        }
      }
    }

    /** The published versions and the draft of one document. */
    method ScanPages(pages: seq<Option<string>>)
      modifies this
      ensures shas == old(shas) + PageAddresses(pages)
    {
      for n := 0 to |pages|
        invariant shas == old(shas) + (set k, w | 0 <= k < n && pages[k].Some? && w in Addresses(pages[k].value) :: w)
      {
        if pages[n].Some? {
          ScanInto(pages[n].value);
        }
      }
    }
  }

  lemma NextAligned(lo: nat, i: int)
    requires IsAligned(lo, i)
    ensures IsAligned(lo, i + ADDRESS)
    ensures forall k :: i < k < i + ADDRESS ==> !IsAligned(lo, k)
  {
    forall k | i < k < i + ADDRESS
      ensures !IsAligned(lo, k)
    {
      assert (k - lo) % ADDRESS == k - i;
    }
  }

  /** What the pages of all documents name: those with a row, and those that only hold assets. */
  function AllAddresses(docs: seq<string>, holders: seq<string>, pages: string -> seq<Option<string>>): set<string> {
    set slug, w | slug in docs + holders && w in PageAddresses(pages(slug)) :: w
  }

  method AllReferenced(docs: seq<string>, holders: seq<string>, pages: string -> seq<Option<string>>)
    returns (refs: References)
    ensures fresh(refs) && refs.shas == AllAddresses(docs, holders, pages)
  {
    refs := new References();
    var scanned: set<string> := {};
    for n := 0 to |docs|
      invariant fresh(refs) && scanned == set k | 0 <= k < n :: docs[k]
      invariant refs.shas == set slug, w | slug in scanned && w in PageAddresses(pages(slug)) :: w
    {
      refs.ScanPages(pages(docs[n]));
      scanned := scanned + {docs[n]};
    }
    ghost var listed := scanned;
    for n := 0 to |holders|
      invariant fresh(refs)
      invariant refs.shas == set slug, w |
                               slug in listed + (set k | 0 <= k < n :: holders[k]) &&
                                 w in PageAddresses(pages(slug)) :: w
    {
      if holders[n] !in scanned {
        refs.ScanPages(pages(holders[n]));
      }
    }
    assert listed + (set k | 0 <= k < |holders| :: holders[k]) == set slug | slug in docs + holders;
  }

  // ----- one pass

  /** An asset's record; its time is unknown when it could not be parsed. */
  datatype Asset = Asset(sha: string, created: Option<int>, size: nat)

  datatype Deletion = Deletion(slug: string, sha: string, size: nat)

  /** Which half of a deletion fails, if one does. */
  datatype Fault = NoFault | BlobFails | RecordFails

  /** What a pass is asked for, and the deletions that fail. */
  datatype Pass = Pass(grace: int, now: int, dryRun: bool, faults: (string, string) -> Fault)

  /** The stored bytes and records, by document and address, and the report. */
  datatype State = State(blobs: set<(string, string)>, records: set<(string, string)>, scanned: nat,
                         examined: nat, kept: nat, referenced: nat, deleted: seq<Deletion>)

  predicate PastGrace(a: Asset, p: Pass) {
    a.created.Some? && p.now - a.created.value >= p.grace
  }

  function Delete(s: State, slug: string, a: Asset, p: Pass): State {
    match p.faults(slug, a.sha)
    case BlobFails => s
    case RecordFails => s.(blobs := s.blobs - {(slug, a.sha)})
    case NoFault => s.(blobs := s.blobs - {(slug, a.sha)}, records := s.records - {(slug, a.sha)})
  }

  /** One asset, and whether the pass goes on. */
  function Examine(s: State, slug: string, a: Asset, refs: set<string>, p: Pass): (State, bool) {
    var s := s.(examined := s.examined + 1);
    if a.sha in refs then (s.(kept := s.kept + 1, referenced := s.referenced + 1), true)
    else if !PastGrace(a, p) then (s.(kept := s.kept + 1), true)
    else
      var s' := if p.dryRun then s else Delete(s, slug, a, p);
      if !p.dryRun && p.faults(slug, a.sha) != NoFault then (s', false)
      else (s'.(deleted := s'.deleted + [Deletion(slug, a.sha, a.size)]), true)
  }

  function ExamineAll(s: State, slug: string, assets: seq<Asset>, refs: set<string>, p: Pass): (State, bool) {
    if assets == [] then (s, true)
    else
      var r := ExamineAll(s, slug, assets[..|assets| - 1], refs, p);
      if r.1 then Examine(r.0, slug, assets[|assets| - 1], refs, p) else r
  }

  /** What is seen of a document under its lock. */
  datatype Visit = Visit(slug: string, pages: seq<Option<string>>, assets: seq<Asset>)

  function VisitAll(s: State, visits: seq<Visit>, refs: set<string>, p: Pass): (State, bool) {
    if visits == [] then (s, true)
    else
      var r, v := VisitAll(s, visits[..|visits| - 1], refs, p), visits[|visits| - 1];
      if r.1 then
        ExamineAll(r.0.(scanned := r.0.scanned + 1), v.slug, v.assets, refs + PageAddresses(v.pages), p)
      else r
  }

  class Collector {
    var blobs: set<(string, string)>
    var records: set<(string, string)>
    var scanned: nat
    var examined: nat
    var kept: nat
    var referenced: nat
    var deleted: seq<Deletion>

    constructor (blobs: set<(string, string)>, records: set<(string, string)>)
      ensures View() == State(blobs, records, 0, 0, 0, 0, [])
    {
      this.blobs, this.records, scanned, examined, kept, referenced, deleted := blobs, records, 0, 0, 0, 0, [];
    }

    ghost function View(): State
      reads this
    {
      State(blobs, records, scanned, examined, kept, referenced, deleted)
    }

    method DeleteLocked(slug: string, a: Asset, p: Pass) returns (ok: bool)
      modifies this
      ensures View() == Delete(old(View()), slug, a, p) && ok == (p.faults(slug, a.sha) == NoFault)
    {
      if p.faults(slug, a.sha) == BlobFails {
        return false;
      }
      blobs := blobs - {(slug, a.sha)};
      if p.faults(slug, a.sha) == RecordFails {
        return false;
      }
      records := records - {(slug, a.sha)};
      return true;
    }

    method GcSlug(v: Visit, global: References, p: Pass) returns (ok: bool)
      modifies this
      ensures (View(), ok) == ExamineAll(old(View()), v.slug, v.assets, global.shas + PageAddresses(v.pages), p)
    {
      var own := new References();
      own.ScanPages(v.pages);
      ghost var refs := global.shas + own.shas;
      for n := 0 to |v.assets|
        invariant own.shas == PageAddresses(v.pages) && refs == global.shas + own.shas && fresh(own)
        invariant (View(), true) == ExamineAll(old(View()), v.slug, v.assets[..n], refs, p)
      {
        assert v.assets[..n + 1][..n] == v.assets[..n];
        ghost var was := View();
        var a := v.assets[n];
        examined := examined + 1;
        if a.sha in global.shas || a.sha in own.shas {
          kept, referenced := kept + 1, referenced + 1;
          assert (View(), true) == Examine(was, v.slug, a, refs, p);
          continue;
        }
        if a.created.None? || p.now - a.created.value < p.grace {
          kept := kept + 1;
          assert (View(), true) == Examine(was, v.slug, a, refs, p);
          continue;
        }
        if !p.dryRun {
          var done := DeleteLocked(v.slug, a, p);
          if !done {
            Stopped(old(View()), v.slug, v.assets, n, refs, p);
            return false;
          }
        }
        deleted := deleted + [Deletion(v.slug, a.sha, a.size)];
      }
      assert v.assets[..|v.assets|] == v.assets;
      return true;
    }

    /** GCAssets, behind the scan of all documents. */
    method GcAssets(visits: seq<Visit>, global: References, p: Pass) returns (ok: bool)
      modifies this
      ensures (View(), ok) == VisitAll(old(View()), visits, global.shas, p)
    {
      for n := 0 to |visits|
        invariant (View(), true) == VisitAll(old(View()), visits[..n], global.shas, p)
      {
        assert visits[..n + 1][..n] == visits[..n];
        scanned := scanned + 1;
        ok := GcSlug(visits[n], global, p);
        if !ok {
          StoppedVisit(old(View()), visits, n + 1, global.shas, p);
          return;
        }
      }
      assert visits[..|visits|] == visits;
      return true;
    }
  }

  /** Behind an asset whose deletion failed nothing more is looked at. */
  lemma {:induction false} Stopped(s: State, slug: string, assets: seq<Asset>, n: nat, refs: set<string>, p: Pass)
    requires n < |assets| && !ExamineAll(s, slug, assets[..n + 1], refs, p).1
    ensures ExamineAll(s, slug, assets, refs, p) == ExamineAll(s, slug, assets[..n + 1], refs, p)
  {
    if n + 1 == |assets| {
      assert assets[..n + 1] == assets;
    } else {
      var front := assets[..|assets| - 1];
      assert front[..n + 1] == assets[..n + 1];
      Stopped(s, slug, front, n, refs, p);
    }
  }

  lemma {:induction false} StoppedVisit(s: State, visits: seq<Visit>, n: nat, refs: set<string>, p: Pass)
    requires 0 < n <= |visits| && !VisitAll(s, visits[..n], refs, p).1
    ensures VisitAll(s, visits, refs, p) == VisitAll(s, visits[..n], refs, p)
  {
    if n == |visits| {
      assert visits[..n] == visits;
    } else {
      var front := visits[..|visits| - 1];
      assert front[..n] == visits[..n];
      StoppedVisit(s, front, n, refs, p);
    }
  }

  // ----- what a pass removes

  /** The asset may go: no page names it, as far as was looked, and it is known to be past its grace. */
  predicate Orphan(v: Visit, a: Asset, refs: set<string>, p: Pass) {
    a in v.assets && a.sha !in refs && a.sha !in PageAddresses(v.pages) && PastGrace(a, p)
  }

  ghost predicate MayGo(visits: seq<Visit>, slug: string, sha: string, refs: set<string>, p: Pass) {
    exists v: Visit, a: Asset :: v in visits && v.slug == slug && a.sha == sha && Orphan(v, a, refs, p)
  }

  lemma {:induction false} SlugRemoves(s: State, v: Visit, assets: seq<Asset>, refs: set<string>, p: Pass)
    requires forall a :: a in assets ==> a in v.assets
    ensures var r := ExamineAll(s, v.slug, assets, refs + PageAddresses(v.pages), p).0;
            && r.blobs <= s.blobs && r.records <= s.records &&
               (p.dryRun ==> r.blobs == s.blobs && r.records == s.records)
            && (forall b :: b in s.blobs - r.blobs || b in s.records - r.records ==> MayGo([v], b.0, b.1, refs, p))
            && s.deleted <= r.deleted
            && (forall d :: d in r.deleted[|s.deleted|..] ==> MayGo([v], d.slug, d.sha, refs, p))
  {
    if assets != [] {
      var front, a := assets[..|assets| - 1], assets[|assets| - 1];
      SlugRemoves(s, v, front, refs, p);
      var all := refs + PageAddresses(v.pages);
      var was := ExamineAll(s, v.slug, front, all, p);
      if was.1 && a.sha !in all && PastGrace(a, p) {
        assert Orphan(v, a, refs, p) && v in [v];
        assert MayGo([v], v.slug, a.sha, refs, p);
      }
    }
  }

  lemma MoreVisits(visits: seq<Visit>, v: Visit, slug: string, sha: string, refs: set<string>, p: Pass)
    requires v in visits && MayGo([v], slug, sha, refs, p)
    ensures MayGo(visits, slug, sha, refs, p)
  {
    var u: Visit, a: Asset :| u in [v] && u.slug == slug && a.sha == sha && Orphan(u, a, refs, p);
    assert u == v;
  }

  /** Whatever a pass removes or reports as deleted may go, and a dry run removes nothing. */
  lemma {:induction false} OnlyOrphansGo(s: State, visits: seq<Visit>, refs: set<string>, p: Pass)
    ensures var r := VisitAll(s, visits, refs, p).0;
            && r.blobs <= s.blobs && r.records <= s.records &&
               (p.dryRun ==> r.blobs == s.blobs && r.records == s.records)
            && (forall b :: b in s.blobs - r.blobs || b in s.records - r.records ==> MayGo(visits, b.0, b.1, refs, p))
            && s.deleted <= r.deleted
            && (forall d :: d in r.deleted[|s.deleted|..] ==> MayGo(visits, d.slug, d.sha, refs, p))
  {
    if visits != [] {
      var front, v := visits[..|visits| - 1], visits[|visits| - 1];
      OnlyOrphansGo(s, front, refs, p);
      var was, r := VisitAll(s, front, refs, p), VisitAll(s, visits, refs, p).0;
      if was.1 {
        SlugRemoves(was.0.(scanned := was.0.scanned + 1), v, v.assets, refs, p);
      }
      forall slug, sha | MayGo(front, slug, sha, refs, p)
        ensures MayGo(visits, slug, sha, refs, p)
      {
        var u: Visit, a: Asset :| u in front && u.slug == slug && a.sha == sha && Orphan(u, a, refs, p);
        assert u in visits;
      }
      forall slug, sha | MayGo([v], slug, sha, refs, p)
        ensures MayGo(visits, slug, sha, refs, p)
      {
        MoreVisits(visits, v, slug, sha, refs, p);
      }
    }
  }

  /** An asset some scanned page names inside a run of moderate length is kept, whatever document the page is of;
      so is one that its own document names whenever it is visited. */
  lemma ReferencedIsKept(s: State, visits: seq<Visit>, docs: seq<string>, holders: seq<string>,
                         pages: string -> seq<Option<string>>, p: Pass, slug: string, sha: string)
    requires (slug, sha) in s.blobs
    requires (exists d, k :: d in docs + holders && Names(pages(d), k, sha))
          || (forall v :: v in visits && v.slug == slug ==> exists k :: Names(v.pages, k, sha))
    ensures (slug, sha) in VisitAll(s, visits, AllAddresses(docs, holders, pages), p).0.blobs
  {
    var refs := AllAddresses(docs, holders, pages);
    OnlyOrphansGo(s, visits, refs, p);
    if (slug, sha) !in VisitAll(s, visits, refs, p).0.blobs {
      var v: Visit, a: Asset :| v in visits && v.slug == slug && a.sha == sha && Orphan(v, a, refs, p);
      if d, k :| d in docs + holders && Names(pages(d), k, sha) {
        NamedIsFound(pages(d), k, sha);
      } else {
        var k :| Names(v.pages, k, sha);
        NamedIsFound(v.pages, k, sha);
      }
      assert false;
    }
  }

  /** The k-th page names the address: it stands in a run of hex digits of moderate length. */
  ghost predicate Names(pages: seq<Option<string>>, k: int, sha: string) {
    && 0 <= k < |pages| && pages[k].Some?
    && exists r, i: nat :: IsRun(pages[k].value, r) && r.hi - r.lo <= MAX_SLIDE && r.lo <= i <= r.hi - ADDRESS &&
                           sha == AddressAt(pages[k].value, i)
  }

  lemma NamedIsFound(pages: seq<Option<string>>, k: int, sha: string)
    requires Names(pages, k, sha)
    ensures sha in PageAddresses(pages)
  {
    var html := pages[k].value;
    var r, i: nat :| IsRun(html, r) && r.hi - r.lo <= MAX_SLIDE && r.lo <= i <= r.hi - ADDRESS &&
                     sha == AddressAt(html, i);
    ShortRunsAreRead(html, r, i);
  }

  // ----- the report

  lemma {:induction false} SlugAddsUp(s: State, slug: string, assets: seq<Asset>, refs: set<string>, p: Pass)
    ensures var r := ExamineAll(s, slug, assets, refs, p);
            && |r.0.deleted| >= |s.deleted|
            && r.0.examined - s.examined == r.0.kept - s.kept + |r.0.deleted| - |s.deleted| + (if r.1 then 0 else 1)
            && (r.1 ==> r.0.examined - s.examined == |assets|) && r.0.scanned == s.scanned
  {
    if assets != [] {
      SlugAddsUp(s, slug, assets[..|assets| - 1], refs, p);
    }
  }

  /** A pass that comes to its end has scanned every slug, and has kept or deleted every asset it examined; one that
      stops leaves out the asset whose deletion failed. */
  lemma {:induction false} ReportAddsUp(s: State, visits: seq<Visit>, refs: set<string>, p: Pass)
    ensures var r := VisitAll(s, visits, refs, p);
            && s.scanned <= r.0.scanned <= s.scanned + |visits| && (r.1 ==> r.0.scanned == s.scanned + |visits|)
            && r.0.examined - s.examined == r.0.kept - s.kept + |r.0.deleted| - |s.deleted| + (if r.1 then 0 else 1)
  {
    if visits != [] {
      var front, v := visits[..|visits| - 1], visits[|visits| - 1];
      ReportAddsUp(s, front, refs, p);
      var was := VisitAll(s, front, refs, p);
      if was.1 {
        SlugAddsUp(was.0.(scanned := was.0.scanned + 1), v.slug, v.assets, refs + PageAddresses(v.pages), p);
      }
    }
  }

  lemma {:induction false} SlugTakes(s: State, v: Visit, assets: seq<Asset>, refs: set<string>, p: Pass, a: Asset)
    requires a in assets && assets <= v.assets && Orphan(v, a, refs, p) && !p.dryRun
    requires ExamineAll(s, v.slug, assets, refs + PageAddresses(v.pages), p).1
    ensures var r := ExamineAll(s, v.slug, assets, refs + PageAddresses(v.pages), p).0;
            (v.slug, a.sha) !in r.blobs && (v.slug, a.sha) !in r.records
  {
    var front, last := assets[..|assets| - 1], assets[|assets| - 1];
    if a in front {
      SlugTakes(s, v, front, refs, p, a);
    }
  }

  /** A pass that comes to its end leaves no orphan behind. */
  lemma {:induction false} OrphansAreTaken(s: State, visits: seq<Visit>, refs: set<string>, p: Pass, v: Visit, a: Asset)
    requires v in visits && Orphan(v, a, refs, p) && !p.dryRun && VisitAll(s, visits, refs, p).1
    ensures var r := VisitAll(s, visits, refs, p).0;
            (v.slug, a.sha) !in r.blobs && (v.slug, a.sha) !in r.records
  {
    var front, last := visits[..|visits| - 1], visits[|visits| - 1];
    var was := VisitAll(s, front, refs, p).0;
    was := was.(scanned := was.scanned + 1);
    if v in front {
      OrphansAreTaken(s, front, refs, p, v, a);
      SlugRemoves(was, last, last.assets, refs, p);
    } else {
      SlugTakes(was, v, v.assets, refs, p, a);
    }
  }
}
