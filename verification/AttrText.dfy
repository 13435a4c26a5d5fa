/** Reading and editing the attribute text of one open tag (internal/core/stamp.go). */
module AttrText {
  import opened AsciiText
  import opened TagSyntax

  const AID_NAME := "data-odoc-aid"

  predicate IsSeparator(c: char) {
    IsSpace(c) || c == '/'
  }

  /** The first position from `i` on that is not white space. */
  function SkipSpace(a: string, i: nat): (r: nat)
    requires i <= |a|
    ensures i <= r <= |a|
    ensures forall j :: i <= j < r ==> IsSpace(a[j])
    ensures r < |a| ==> !IsSpace(a[r])
    decreases |a| - i
  {
    if i < |a| && IsSpace(a[i]) then SkipSpace(a, i + 1) else i
  }

  /** The first position from `i` on that is neither white space nor a slash. */
  function SkipSeparators(a: string, i: nat): (r: nat)
    requires i <= |a|
    ensures i <= r <= |a|
    ensures forall j :: i <= j < r ==> IsSeparator(a[j])
    ensures r < |a| ==> !IsSeparator(a[r])
    decreases |a| - i
  {
    if i < |a| && IsSeparator(a[i]) then SkipSeparators(a, i + 1) else i
  }

  /** The end of the name at `i`: white space, a slash, an equals sign or the end. */
  function NameStop(a: string, i: nat): (r: nat)
    requires i <= |a|
    ensures i <= r <= |a|
    ensures forall j :: i <= j < r ==> !IsSeparator(a[j]) && a[j] != '='
    ensures r < |a| ==> IsSeparator(a[r]) || a[r] == '='
    decreases |a| - i
  {
    if i < |a| && !IsSeparator(a[i]) && a[i] != '=' then NameStop(a, i + 1) else i
  }

  /** The end of the unquoted value at `i`: only white space ends it. */
  function SpaceStop(a: string, i: nat): (r: nat)
    requires i <= |a|
    ensures i <= r <= |a|
    ensures forall j :: i <= j < r ==> !IsSpace(a[j])
    ensures r < |a| ==> IsSpace(a[r])
    decreases |a| - i
  {
    if i < |a| && !IsSpace(a[i]) then SpaceStop(a, i + 1) else i
  }

  /** One attribute: its name a[..nameEnd], its value a[valueStart..valueStop] when it has one, and where
      reading goes on. */
  datatype Token = Token(nameEnd: nat, hasValue: bool, valueStart: nat, valueStop: nat, next: nat)

  /** The attribute whose name starts at `i`. */
  function TokenAt(a: string, i: nat): (t: Token)
    requires i < |a| && !IsSeparator(a[i])
    ensures i <= t.nameEnd <= t.next <= |a| && i < t.next
    ensures t.hasValue ==> i < t.valueStart <= t.valueStop <= t.next
  {
    var ne := NameStop(a, i);
    var eq := SkipSpace(a, ne);
    if eq == |a| || a[eq] != '=' then Token(ne, false, eq, eq, eq)
    else
      var v := SkipSpace(a, eq + 1);
      if v < |a| && (a[v] == '"' || a[v] == '\'') then
        var q := CharAt(a, a[v], v + 1);
        Token(ne, true, v + 1, q, if q < |a| then q + 1 else q)
      else
        var stop := SpaceStop(a, v);
        Token(ne, true, v, stop, stop)
  }

  /** The value of the first attribute named `target`. */
  function AttrValue(a: string, target: string, i: nat): Found<string>
    requires i <= |a|
    decreases |a| - i
  {
    var s := SkipSeparators(a, i);
    if s == |a| then Absent
    else
      var t := TokenAt(a, s);
      if Lower(a[s..t.nameEnd]) == target then Found(if t.hasValue then a[t.valueStart..t.valueStop] else "")
      else AttrValue(a, target, t.next)
  }

  // ----- stripping

  predicate IsAidName(name: string) {
    Lower(name) == AID_NAME
  }

  /** The start of the white space that ends at `i`, not before `cursor`. */
  function SpaceStart(a: string, cursor: nat, i: nat): (r: nat)
    requires cursor <= i <= |a|
    ensures cursor <= r <= i
    ensures forall j :: r <= j < i ==> IsSpace(a[j])
    ensures r > cursor ==> !IsSpace(a[r - 1])
  {
    if i > cursor && IsSpace(a[i - 1]) then SpaceStart(a, cursor, i - 1) else i
  }

  /** One turn of the strip loop: nothing left, a position to go on from, or a removed attribute. */
  datatype Turn = Over | Past(next: nat) | Cut(start: nat, stop: nat, next: nat)

  /** What the loop finds at or after `i`; a removed attribute takes the white space in front of it along. */
  function TurnAt(a: string, i: nat, cursor: nat): (r: Turn)
    requires cursor <= i <= |a|
    ensures r.Past? ==> i < r.next <= |a|
    ensures r.Cut? ==> cursor <= r.start < r.stop <= r.next <= |a| && i < r.next
  {
    var s := SkipSeparators(a, i);
    if s == |a| then Over
    else if a[s] == '=' then Past(s + 1)
    else
      var t := TokenAt(a, s);
      if IsAidName(a[s..t.nameEnd]) then Cut(SpaceStart(a, cursor, s), if t.hasValue then t.next else t.nameEnd, t.next)
      else Past(t.next)
  }

  /** The text from `cursor` on without the aid attributes that start at `i` or later. */
  function StripFrom(a: string, i: nat, cursor: nat): string
    requires cursor <= i <= |a|
    decreases |a| - i
  {
    match TurnAt(a, i, cursor)
    case Over => a[cursor..]
    case Past(next) => StripFrom(a, next, cursor)
    case Cut(start, stop, next) => a[cursor..start] + StripFrom(a, next, stop)
  }

  function Strip(a: string): string {
    StripFrom(a, 0, 0)
  }

  // ----- the self-close marker

  datatype SlashState = SBeforeAttr | SAttrName | SAfterAttrName | SBeforeValue | SQuoted(q: char) | SUnquoted
    | SAfterQuoted

  /** The program's reading of one character that is not a terminal slash. */
  function SlashStep(s: SlashState, c: char): SlashState {
    match s
    case SBeforeAttr => if IsSpace(c) then s else SAttrName
    case SAttrName => if IsSpace(c) then SAfterAttrName else if c == '=' then SBeforeValue else s
    case SAfterAttrName => if IsSpace(c) then s else if c == '=' then SBeforeValue else SAttrName
    case SBeforeValue => if IsSpace(c) then s else if c == '"' || c == '\'' then SQuoted(c) else SUnquoted
    case SQuoted(q) => if c == q then SAfterQuoted else s
    case SUnquoted => if IsSpace(c) then SBeforeAttr else s
    case SAfterQuoted => if IsSpace(c) then SBeforeAttr else SAttrName
  }

  function SlashFeed(s: SlashState, p: string): SlashState {
    if p == [] then s else SlashStep(SlashFeed(s, p[..|p| - 1]), p[|p| - 1])
  }

  predicate TakesSlash(s: SlashState) {
    s.SBeforeAttr? || s.SAttrName? || s.SAfterAttrName? || s.SAfterQuoted?
  }

  /** The attribute text ends in a genuine self-close marker. */
  predicate SelfCloses(a: string) {
    a != [] && a[|a| - 1] == '/' && TakesSlash(SlashFeed(SBeforeAttr, a[..|a| - 1]))
  }

  /** terminalSelfCloseSlash: the index of the marker, or -1. */
  method TerminalSelfCloseSlash(attrs: string) returns (r: int)
    ensures r == if SelfCloses(attrs) then |attrs| - 1 else -1
  {
    var state := SBeforeAttr;
    for i := 0 to |attrs|
      invariant state == SlashFeed(SBeforeAttr, attrs[..i])
      invariant i == |attrs| ==> !SelfCloses(attrs)
    {
      assert attrs[..i + 1][..i] == attrs[..i];
      assert i + 1 == |attrs| ==> attrs[..i] == attrs[..|attrs| - 1];
      var ch := attrs[i];
      var terminal := i == |attrs| - 1;
      match state {
        case SBeforeAttr =>
          if IsSpace(ch) { }
          else if ch == '/' && terminal { return i; }
          else { state := SAttrName; }
        case SAttrName =>
          if IsSpace(ch) { state := SAfterAttrName; }
          else if ch == '=' { state := SBeforeValue; }
          else if ch == '/' && terminal { return i; }
        case SAfterAttrName =>
          if IsSpace(ch) { }
          else if ch == '=' { state := SBeforeValue; }
          else if ch == '/' && terminal { return i; }
          else { state := SAttrName; }
        case SBeforeValue =>
          if IsSpace(ch) { }
          else if ch == '"' || ch == '\'' { state := SQuoted(ch); }
          else { state := SUnquoted; }
        case SQuoted(quote) =>
          if ch == quote { state := SAfterQuoted; }
        case SUnquoted =>
          if IsSpace(ch) { state := SBeforeAttr; }
        case SAfterQuoted =>
          if IsSpace(ch) { state := SBeforeAttr; }
          else if ch == '/' && terminal { return i; }
          else { state := SAttrName; }
      }
    }
    assert attrs[..|attrs|] == attrs;
    r := -1;
  }

  // ----- stamping

  /** Where the aid goes: before the self-close marker when it is a real one, and before white space. */
  function InsertAt(a: string, selfClose: bool): (r: nat)
    ensures r <= |a|
  {
    SpaceStart(a, 0, if selfClose && SelfCloses(a) then |a| - 1 else |a|)
  }

  function AidText(aid: string): string {
    " " + AID_NAME + "=\"" + aid + "\""
  }

  function StampAttrs(a: string, aid: string, selfClose: bool): string {
    var p := InsertAt(a, selfClose);
    a[..p] + AidText(aid) + a[p..]
  }

  method StampedOpenTag(name: string, attrs: string, aid: string, trueSelfClose: bool) returns (r: string)
    ensures r == "<" + name + StampAttrs(attrs, aid, trueSelfClose) + ">"
  {
    var insertAt := |attrs|;
    if trueSelfClose {
      var slash := TerminalSelfCloseSlash(attrs);
      if slash >= 0 {
        insertAt := slash;
      }
    }
    while insertAt > 0 && IsSpace(attrs[insertAt - 1])
      invariant 0 <= insertAt <= |attrs|
      invariant SpaceStart(attrs, 0, insertAt) == InsertAt(attrs, trueSelfClose)
    {
      insertAt := insertAt - 1;
    }
    r := "<" + name + attrs[..insertAt] + " data-odoc-aid=\"" + aid + "\"" + attrs[insertAt..] + ">";
    assert " data-odoc-aid=\"" == " " + AID_NAME + "=\"";
    assert r == "<" + name + (attrs[..insertAt] + AidText(aid) + attrs[insertAt..]) + ">";
  }

  /** The value part of the attribute whose name ends at `nameEnd`, as the strip loop reads it. */
  method ReadValue(attrs: string, nameStart: nat, nameEnd: nat) returns (valueEnd: nat, next: nat, canonicalAid: bool)
    requires nameStart < |attrs| && !IsSeparator(attrs[nameStart]) && nameEnd == NameStop(attrs, nameStart)
    ensures
      var t := TokenAt(attrs, nameStart);
      next == t.next && valueEnd == if t.hasValue then t.next else t.nameEnd
  {
    var i := SkipWhile(attrs, nameEnd, false);
    valueEnd := nameEnd;
    canonicalAid := false;
    if i < |attrs| && attrs[i] == '=' {
      i := SkipWhile(attrs, i + 1, false);
      if i < |attrs| && (attrs[i] == '"' || attrs[i] == '\'') {
        var quote := attrs[i];
        var valueStart := i + 1;
        i := IndexByte(attrs, quote, valueStart);
        CharAtIs(attrs, quote, valueStart, i);
        if quote == '"' && i < |attrs| {
          canonicalAid := IsCanonical(attrs[valueStart..i]);
        }
        if i < |attrs| {
          i := i + 1;
        }
      } else {
        i := ScanUnquoted(attrs, i);
      }
      valueEnd := i;
    }
    next := i;
  }

  /** Where the removal of the attribute at `nameStart` starts. The test for a canonical aid never matters:
      where it applies, the white space in front is exactly the one character it would spare. */
  method RemoveStart(attrs: string, cursor: nat, nameStart: nat, canonicalAid: bool) returns (removeStart: nat)
    requires cursor <= nameStart <= |attrs|
    ensures removeStart == SpaceStart(attrs, cursor, nameStart)
  {
    removeStart := nameStart;
    var spaceStart := removeStart;
    while spaceStart > cursor && IsSpace(attrs[spaceStart - 1])
      invariant cursor <= spaceStart <= nameStart
      invariant SpaceStart(attrs, cursor, spaceStart) == SpaceStart(attrs, cursor, nameStart)
    {
      spaceStart := spaceStart - 1;
    }
    if canonicalAid && removeStart - spaceStart == 1 && attrs[spaceStart] == ' ' {
      removeStart := removeStart - 1;
    } else {
      removeStart := spaceStart;
    }
  }

  method StripOne(attrs: string, i: nat, cursor: nat) returns (r: Turn)
    requires cursor <= i < |attrs|
    ensures r == TurnAt(attrs, i, cursor)
  {
    var nameStart := SkipWhile(attrs, i, true);
    if nameStart >= |attrs| {
      return Over;
    }
    var nameEnd := ScanName(attrs, nameStart);
    if nameEnd == nameStart {
      return Past(nameStart + 1);
    }
    var valueEnd, next, canonicalAid := ReadValue(attrs, nameStart, nameEnd);
    if !IsAidName(attrs[nameStart..nameEnd]) {
      return Past(next);
    }
    var removeStart := RemoveStart(attrs, cursor, nameStart, canonicalAid);
    return Cut(removeStart, valueEnd, next);
  }

  method StripAIDAttribute(attrs: string) returns (out: string)
    ensures out == Strip(attrs)
  {
    out := "";
    var cursor, i := 0, 0;
    while i < |attrs|
      invariant 0 <= cursor <= i <= |attrs|
      invariant out + StripFrom(attrs, i, cursor) == Strip(attrs)
    {
      var turn := StripOne(attrs, i, cursor);
      match turn
      case Over =>
        break;
      case Past(next) =>
        i := next;
      case Cut(start, stop, next) =>
        Regroup(out, attrs[cursor..start], StripFrom(attrs, next, stop));
        out, i, cursor := out + attrs[cursor..start], next, stop;
    }
    out := out + attrs[cursor..];
  }

  lemma Regroup(a: string, b: string, c: string)
    ensures a + (b + c) == a + b + c
  {
  }

  predicate IsCanonical(v: string) {
    9 <= |v| <= 12 && forall j :: 0 <= j < |v| ==> '0' <= v[j] <= '9' || 'a' <= v[j] <= 'z'
  }

  /** Past white space, and past slashes too when `slashes` is set. */
  method SkipWhile(a: string, from: nat, slashes: bool) returns (i: nat)
    requires from <= |a|
    ensures i == if slashes then SkipSeparators(a, from) else SkipSpace(a, from)
  {
    i := from;
    while i < |a| && (IsSpace(a[i]) || (slashes && a[i] == '/'))
      invariant from <= i <= |a|
      invariant SkipSeparators(a, from) == SkipSeparators(a, i) || !slashes
      invariant SkipSpace(a, from) == SkipSpace(a, i) || slashes
    {
      i := i + 1;
    }
  }

  method ScanName(a: string, from: nat) returns (i: nat)
    requires from <= |a|
    ensures i == NameStop(a, from)
  {
    i := from;
    while i < |a| && !IsSpace(a[i]) && a[i] != '=' && a[i] != '/'
      invariant from <= i <= |a|
      invariant NameStop(a, from) == NameStop(a, i)
    {
      i := i + 1;
    }
  }

  method ScanUnquoted(a: string, from: nat) returns (i: nat)
    requires from <= |a|
    ensures i == SpaceStop(a, from)
  {
    i := from;
    while i < |a| && !IsSpace(a[i])
      invariant from <= i <= |a|
      invariant SpaceStop(a, from) == SpaceStop(a, i)
    {
      i := i + 1;
    }
  }
}
