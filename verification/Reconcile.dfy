/** Publish-time anchor reconciliation (internal/core/reconcile.go). */
module Reconcile {
  import opened Wrappers
  import opened CommentTypes
  import opened EventLog
  import opened AsciiText
  import opened Fold

  // ----- the aid an anchor targets

  const SELECTOR_OPEN := "[data-odoc-aid=\""
  const SELECTOR_CLOSE := "\"]"

  function SelectorFor(aid: string): string {
    SELECTOR_OPEN + aid + SELECTOR_CLOSE
  }

  /** The length of the run of word characters `s` starts with. */
  function WordRun(s: string): (n: nat)
    ensures n <= |s|
  {
    if s != [] && IsWordChar(s[0]) then 1 + WordRun(s[1..]) else 0
  }

  /** The aid of the first attribute selector in `s`, "" when there is none. */
  function SelectorAid(s: string): string {
    if s == [] then ""
    else if SELECTOR_OPEN <= s then
      var rest := s[|SELECTOR_OPEN|..];
      var n := WordRun(rest);
      if n > 0 && SELECTOR_CLOSE <= rest[n..] then rest[..n] else SelectorAid(s[1..])
    else SelectorAid(s[1..])
  }

  function KnownAid(a: Anchor): string {
    if !a.kind.ElementAnchor? then ""
    else if a.aid != "" then a.aid
    else SelectorAid(a.selector)
  }

  // ----- artifacts by identity

  function WithAid(aids: seq<Artifact>, aid: string): seq<Artifact> {
    if aids == [] then []
    else
      var rest := WithAid(aids[..|aids| - 1], aid);
      if aids[|aids| - 1].aid == aid then rest + [aids[|aids| - 1]] else rest
  }

  /** `x` once for every occurrence of `aid` among `legacy`. */
  function Aliased(x: Artifact, legacy: seq<string>, aid: string): seq<Artifact> {
    if legacy == [] then []
    else
      var rest := Aliased(x, legacy[..|legacy| - 1], aid);
      if legacy[|legacy| - 1] == aid then rest + [x] else rest
  }

  function WithLegacyAid(aids: seq<Artifact>, aid: string): seq<Artifact> {
    if aids == [] then []
    else WithLegacyAid(aids[..|aids| - 1], aid) + Aliased(aids[|aids| - 1], aids[|aids| - 1].legacyAids, aid)
  }

  // ----- choosing a new anchor

  function FingerprintTag(a: Anchor): string {
    if a.fingerprint.Some? then a.fingerprint.value else ""
  }

  function WantedTag(a: Anchor): string {
    if FingerprintTag(a) != "" then FingerprintTag(a)
    else if a.elementLabel != "" then Lower(a.elementLabel)
    else ""
  }

  function WantedHeading(a: Anchor): string {
    if a.fallback.Some? && a.fallback.value.nearestHeading.Some? then a.fallback.value.nearestHeading.value else ""
  }

  predicate TagFits(a: Anchor, x: Artifact) {
    WantedTag(a) == "" || x.tag == WantedTag(a)
  }

  predicate HeadingFits(a: Anchor, x: Artifact) {
    WantedHeading(a) == "" || (x.heading.Some? && EqualFold(x.heading.value, WantedHeading(a)))
  }

  /** The artifacts that fit the anchor's tag, and its heading too when `heading` is set. */
  function Fitting(a: Anchor, aids: seq<Artifact>, heading: bool): seq<Artifact> {
    if aids == [] then []
    else
      var x := aids[|aids| - 1];
      var rest := Fitting(a, aids[..|aids| - 1], heading);
      if TagFits(a, x) && (heading ==> HeadingFits(a, x)) then rest + [x] else rest
  }

  /** The single confident re-bind target, "" when there is none. */
  function RebindAid(a: Anchor, aids: seq<Artifact>): string {
    var matches := Fitting(a, aids, true);
    var tagOnly := Fitting(a, aids, false);
    if |matches| == 1 then matches[0].aid
    else if |matches| == 0 && |tagOnly| == 1 then tagOnly[0].aid
    else ""
  }

  const BARE_ANCHOR := Anchor(ElementAnchor, "", "", "", "", "", "", "", None, None)

  function Lost(a: Anchor, reason: string): Anchor {
    BARE_ANCHOR.(kind := LostAnchor, reason := reason, elementLabel := a.elementLabel,
                 fingerprint := a.fingerprint, fallback := a.fallback)
  }

  function LostUnlessSame(a: Anchor, reason: string): Option<Anchor> {
    if a.kind.LostAnchor? && a.reason == reason then None else Some(Lost(a, reason))
  }

  function NextAnchor(a: Anchor, aids: seq<Artifact>): Option<Anchor> {
    Rebound(a, RebindAid(a, aids))
  }

  /** A re-bind to `aid`, a lost marker when there is none, or no change when already lost. */
  function Rebound(a: Anchor, aid: string): Option<Anchor> {
    if aid != "" then
      var l := if a.elementLabel != "" then a.elementLabel else FingerprintTag(a);
      Some(BARE_ANCHOR.(aid := aid, selector := SelectorFor(aid), elementLabel := if l != "" then l else "element",
                        fingerprint := a.fingerprint, fallback := a.fallback))
    else if a.kind.LostAnchor? then None
    else Some(Lost(a, "no_candidate"))
  }

  predicate MatchesArtifact(a: Anchor, x: Artifact) {
    FingerprintTag(a) != "" ==> x.tag == Lower(FingerprintTag(a))
  }

  /** The pin of an element replacement and the identities it moves; `pinnedAid` is "" without one. */
  datatype Pin = Pin(aid: string, tag: string, migrations: map<string, string>)

  const NO_PIN := Pin("", "", map[])

  /** The artifact a pinned or migrated anchor moves to, when it is the only one and has the pinned tag. */
  predicate Unique(aids: seq<Artifact>, aid: string, tag: string) {
    |WithAid(aids, aid)| == 1 && WithAid(aids, aid)[0].tag == tag
  }

  function Bound(a: Anchor, aid: string, tag: string): Anchor {
    a.(kind := ElementAnchor, aid := aid, selector := SelectorFor(aid), elementLabel := tag, fingerprint := Some(tag))
  }

  function Migrated(a: Anchor, aids: seq<Artifact>, pin: Pin): Option<Anchor> {
    var canonical := if pin.aid in pin.migrations then pin.migrations[pin.aid] else "";
    if !a.kind.ElementAnchor? || canonical == "" || canonical == pin.aid || KnownAid(a) != pin.aid then None
    else if !Unique(aids, canonical, pin.tag) then None
    else Some(Bound(a, canonical, pin.tag))
  }

  function Pinned(a: Anchor, aids: seq<Artifact>, pin: Pin): Option<Anchor> {
    if pin.aid == "" || pin.tag == "" || KnownAid(a) != pin.aid || !Unique(aids, pin.aid, pin.tag) then None
    else Some(a.(aid := pin.aid, selector := SelectorFor(pin.aid), elementLabel := pin.tag,
                 fingerprint := Some(pin.tag)))
  }

  function Canonical(a: Anchor, x: Artifact): Anchor {
    a.(kind := ElementAnchor, aid := x.aid, selector := SelectorFor(x.aid),
       elementLabel := if a.elementLabel == "" then x.tag else a.elementLabel)
  }

  /** The anchor of an aid that names `here` artifacts directly and `legacy` ones as an alias. */
  function Resolved(a: Anchor, here: seq<Artifact>, legacy: seq<Artifact>): Option<Anchor>
    requires here != [] || legacy != []
  {
    if here != [] && legacy != [] then LostUnlessSame(a, "ambiguous_aid")
    else if |here| == 1 && MatchesArtifact(a, here[0]) then None
    else if here != [] then LostUnlessSame(a, if |here| > 1 then "ambiguous_aid" else "fingerprint_mismatch")
    else if |legacy| == 1 && MatchesArtifact(a, legacy[0]) then Some(Canonical(a, legacy[0]))
    else LostUnlessSame(a, if |legacy| > 1 then "ambiguous_aid" else "fingerprint_mismatch")
  }

  /** The anchor reconciliation records for an anchor `a` seen at the published version, None for no change. */
  function NewAnchor(a: Anchor, aids: seq<Artifact>, pin: Pin): Option<Anchor> {
    if !a.kind.ElementAnchor? && !a.kind.LostAnchor? then None
    else if a.kind.LostAnchor? && |pin.migrations| > 0 then None
    else if Migrated(a, aids, pin).Some? then Migrated(a, aids, pin)
    else if Pinned(a, aids, pin).Some? then Pinned(a, aids, pin)
    else
      var aid := KnownAid(a);
      var here, legacy := WithAid(aids, aid), WithLegacyAid(aids, aid);
      if aid != "" && (here != [] || legacy != []) then Resolved(a, here, legacy)
      else NextAnchor(a, aids)
  }

  // ----- one comment

  function ReconcileEvent(a: Anchor, version: int, at: string): Event {
    Blank(AnchorChanged, version, at).(actor := "reconcile", resetStatus := Some(false), anchor := Some(a))
  }

  /** The change reconciliation makes to the anchor a live comment shows at `version`. */
  function Change(c: Record, aids: seq<Artifact>, pin: Pin, version: int): Option<Anchor> {
    match SnapshotAt(c, version)
    case None => None
    case Some(s) => if s.deleted || s.anchor.None? then None else NewAnchor(s.anchor.value, aids, pin)
  }

  function ReconciledEid(at: string, nonce: string): string {
    EventEID(ReconcileEvent(BARE_ANCHOR, 0, at), nonce)
  }

  function Reconciled(c: Record, aids: seq<Artifact>, pin: Pin, version: int, at: string, nonce: string): Record {
    match Change(c, aids, pin, version)
    case None => c
    case Some(b) => c.(events := c.events + [Stamped(ReconcileEvent(b, version, at), nonce)])
  }
}
