/** Where an open tag ends (internal/core/stamp.go, attrAwareOpenTagEnd), against the tokenizer of
    sections 13.2.5.8 and 13.2.5.32 to 13.2.5.40 of the WHATWG HTML Standard. */
module TagMachine {
  import opened AsciiText

  // ----- the standard's machine

  datatype TagState =
    | TagName          // 13.2.5.8
    | BeforeAttrName   // 13.2.5.32
    | AttrName         // 13.2.5.33
    | AfterAttrName    // 13.2.5.34
    | BeforeValue      // 13.2.5.35
    | DoubleQuoted     // 13.2.5.36
    | SingleQuoted     // 13.2.5.37
    | Unquoted         // 13.2.5.38
    | AfterQuoted      // 13.2.5.39
    | SelfClosing      // 13.2.5.40

  datatype Action = Switch(next: TagState) | Reconsume(next: TagState) | EmitTag

  /** One consumption of `c`, as the standard words it. */
  function Act(s: TagState, c: char): Action {
    match s
    case TagName =>
      if IsSpace(c) then Switch(BeforeAttrName)
      else if c == '/' then Switch(SelfClosing)
      else if c == '>' then EmitTag
      else Switch(TagName)
    case BeforeAttrName =>
      if IsSpace(c) then Switch(BeforeAttrName)
      else if c == '/' || c == '>' then Reconsume(AfterAttrName)
      else if c == '=' then Switch(AttrName)
      else Reconsume(AttrName)
    case AttrName =>
      if IsSpace(c) || c == '/' || c == '>' then Reconsume(AfterAttrName)
      else if c == '=' then Switch(BeforeValue)
      else Switch(AttrName)
    case AfterAttrName =>
      if IsSpace(c) then Switch(AfterAttrName)
      else if c == '/' then Switch(SelfClosing)
      else if c == '=' then Switch(BeforeValue)
      else if c == '>' then EmitTag
      else Reconsume(AttrName)
    case BeforeValue =>
      if IsSpace(c) then Switch(BeforeValue)
      else if c == '"' then Switch(DoubleQuoted)
      else if c == '\'' then Switch(SingleQuoted)
      else if c == '>' then EmitTag
      else Reconsume(Unquoted)
    case DoubleQuoted => Switch(if c == '"' then AfterQuoted else DoubleQuoted)
    case SingleQuoted => Switch(if c == '\'' then AfterQuoted else SingleQuoted)
    case Unquoted =>
      if IsSpace(c) then Switch(BeforeAttrName)
      else if c == '>' then EmitTag
      else Switch(Unquoted)
    case AfterQuoted =>
      if IsSpace(c) then Switch(BeforeAttrName)
      else if c == '/' then Switch(SelfClosing)
      else if c == '>' then EmitTag
      else Reconsume(BeforeAttrName)
    case SelfClosing =>
      if c == '>' then EmitTag else Reconsume(BeforeAttrName)
  }

  /** Every reconsumption of `c` lowers this rank, so a character is consumed after finitely many. */
  function Rank(s: TagState, c: char): nat {
    match s
    case SelfClosing | AfterQuoted => 4
    case BeforeAttrName => 3
    case AttrName => if IsSpace(c) || c == '/' || c == '>' then 2 else 1
    case AfterAttrName => if IsSpace(c) || c == '/' || c == '>' then 1 else 2
    case BeforeValue => 1
    case _ => 0
  }

  /** The state after `c`, or the emitted tag with its self-closing flag. */
  datatype Outcome = In(state: TagState) | Emitted(selfClosing: bool)

  function Consume(s: TagState, c: char): (r: Outcome)
    ensures r.Emitted? ==> c == '>'
    decreases Rank(s, c)
  {
    match Act(s, c)
    case Switch(t) => In(t)
    case EmitTag => Emitted(s.SelfClosing?)
    case Reconsume(t) => Consume(t, c)
  }

  /** What consuming `c` comes to once every reconsumption is followed. */
  lemma Direct(s: TagState, c: char)
    ensures Consume(s, c) ==
      if s.DoubleQuoted? then In(if c == '"' then AfterQuoted else DoubleQuoted)
      else if s.SingleQuoted? then In(if c == '\'' then AfterQuoted else SingleQuoted)
      else if c == '>' then Emitted(s.SelfClosing?)
      else if IsSpace(c) then
        In(if s.AttrName? || s.AfterAttrName? then AfterAttrName
           else if s.BeforeValue? then BeforeValue else BeforeAttrName)
      else if s.Unquoted? then In(Unquoted)
      else if s.BeforeValue? then In(if c == '"' then DoubleQuoted else if c == '\'' then SingleQuoted else Unquoted)
      else if c == '/' then In(SelfClosing)
      else if s.TagName? then In(TagName)
      else if c == '=' && (s.AttrName? || s.AfterAttrName?) then In(BeforeValue)
      else In(AttrName)
  {
    assert Consume(AfterAttrName, c) == match Act(AfterAttrName, c)
      case Switch(t) => In(t) case EmitTag => Emitted(false) case Reconsume(t) => Consume(t, c);
    assert Consume(AttrName, c) == match Act(AttrName, c)
      case Switch(t) => In(t) case EmitTag => Emitted(false) case Reconsume(t) => Consume(t, c);
    assert Consume(BeforeAttrName, c) == match Act(BeforeAttrName, c)
      case Switch(t) => In(t) case EmitTag => Emitted(false) case Reconsume(t) => Consume(t, c);
    assert Consume(Unquoted, c) == match Act(Unquoted, c)
      case Switch(t) => In(t) case EmitTag => Emitted(false) case Reconsume(t) => Consume(t, c);
  }

  datatype TagExit = Unterminated | Exit(end: nat, selfClosing: bool)

  /** Reading `t` from position `k` in state `s`: just past the `>` that ends the tag. */
  function Read(t: string, k: nat, s: TagState): (r: TagExit)
    requires k <= |t|
    ensures r.Exit? ==> k < r.end <= |t| && t[r.end - 1] == '>'
    decreases |t| - k
  {
    if k == |t| then Unterminated
    else
      match Consume(s, t[k])
      case Emitted(flag) => Exit(k + 1, flag)
      case In(u) => Read(t, k + 1, u)
  }

  // ----- the program's loop

  datatype LoopState =
    | LTagName | LBeforeAttr | LAttrName | LAfterAttrName | LBeforeValue
    | LQuoted | LUnquoted | LAfterQuoted | LSelfClosing

  /** The standard's state a loop state stands for. */
  function Meaning(s: LoopState, quote: char): TagState {
    match s
    case LTagName => TagName
    case LBeforeAttr => BeforeAttrName
    case LAttrName => AttrName
    case LAfterAttrName => AfterAttrName
    case LBeforeValue => BeforeValue
    case LQuoted => if quote == '"' then DoubleQuoted else SingleQuoted
    case LUnquoted => Unquoted
    case LAfterQuoted => AfterQuoted
    case LSelfClosing => SelfClosing
  }

  /** Behind a slash that does not end the tag the standard reads on as in front of an attribute. */
  lemma Reconsumed(t: string, k: nat)
    requires k < |t| && t[k] != '>'
    ensures Read(t, k, SelfClosing) == Read(t, k, BeforeAttrName)
  {
    Direct(SelfClosing, t[k]);
    Direct(BeforeAttrName, t[k]);
  }

  /** attrAwareOpenTagEnd, whose loop steps back to reconsume, ends the tag where the standard does. */
  method AttrAwareOpenTagEnd(html: string, lt: nat) returns (end: int)
    requires lt < |html|
    ensures match Read(html, lt + 1, TagName) { case Unterminated => end == -1 case Exit(e, _) => end == e }
  {
    ghost var goal := Read(html, lt + 1, TagName);
    var state, quote := LTagName, '"';
    var i := lt + 1;
    while i < |html|
      invariant lt < i <= |html|
      invariant state.LQuoted? ==> quote == '"' || quote == '\''
      invariant Read(html, i, Meaning(state, quote)) == goal
      decreases |html| - i, state.LSelfClosing?
    {
      var ch := html[i];
      Direct(Meaning(state, quote), ch);
      match state {
        case LTagName =>
          if IsSpace(ch) { state := LBeforeAttr; }
          else if ch == '/' { state := LSelfClosing; }
          else if ch == '>' { return i + 1; }
        case LBeforeAttr =>
          if IsSpace(ch) { }
          else if ch == '/' { state := LSelfClosing; }
          else if ch == '>' { return i + 1; }
          else { state := LAttrName; }
        case LAttrName =>
          if IsSpace(ch) { state := LAfterAttrName; }
          else if ch == '/' { state := LSelfClosing; }
          else if ch == '=' { state := LBeforeValue; }
          else if ch == '>' { return i + 1; }
        case LAfterAttrName =>
          if IsSpace(ch) { }
          else if ch == '/' { state := LSelfClosing; }
          else if ch == '=' { state := LBeforeValue; }
          else if ch == '>' { return i + 1; }
          else { state := LAttrName; }
        case LBeforeValue =>
          if IsSpace(ch) { }
          else if ch == '"' || ch == '\'' { quote := ch; state := LQuoted; }
          else if ch == '>' { return i + 1; }
          else { state := LUnquoted; }
        case LQuoted =>
          if ch == quote { state := LAfterQuoted; }
        case LUnquoted =>
          if IsSpace(ch) { state := LBeforeAttr; }
          else if ch == '>' { return i + 1; }
        case LAfterQuoted =>
          if IsSpace(ch) { state := LBeforeAttr; }
          else if ch == '>' { return i + 1; }
          else if ch == '/' { state := LSelfClosing; }
          else { state := LAttrName; }
        case LSelfClosing =>
          if ch == '>' { return i + 1; }
          state := LBeforeAttr;
          Reconsumed(html, i);
          i := i - 1; // reconsume
      }
      i := i + 1;
    }
    end := -1;
  }

  // ----- running over a piece of text

  /** The state after all of `p`, None if a tag is emitted on the way. */
  datatype Fed = Stopped | At(state: TagState)

  function Feed(s: TagState, p: string): Fed
    decreases |p|
  {
    if p == [] then At(s)
    else
      match Consume(s, p[0])
      case Emitted(_) => Stopped
      case In(u) => Feed(u, p[1..])
  }

  lemma {:induction false} FeedConcat(s: TagState, p: string, q: string)
    ensures Feed(s, p + q) == match Feed(s, p) { case Stopped => Stopped case At(u) => Feed(u, q) }
    decreases |p|
  {
    if p == [] {
      assert p + q == q;
    } else {
      assert (p + q)[1..] == p[1..] + q;
      match Consume(s, p[0])
      case Emitted(_) =>
      case In(u) => FeedConcat(u, p[1..], q);
    }
  }

  /** Reading over a piece that emits nothing only moves the machine along. */
  lemma {:induction false} ReadOver(t: string, k: nat, m: nat, s: TagState, u: TagState)
    requires k <= m <= |t| && Feed(s, t[k..m]) == At(u)
    ensures Read(t, k, s) == Read(t, m, u)
    decreases m - k
  {
    if k < m {
      assert t[k..m][0] == t[k] && t[k..m][1..] == t[k + 1..m];
      ReadOver(t, k + 1, m, Consume(s, t[k]).state, u);
    }
  }

  /** Where a tag ends depends only on the text up to there. */
  lemma {:induction false} ReadLocal(t: string, t': string, k: nat, m: nat, s: TagState)
    requires k <= m <= |t| && m <= |t'| && t[..m] == t'[..m]
    requires Read(t, k, s).Exit? && Read(t, k, s).end <= m
    ensures Read(t', k, s) == Read(t, k, s)
    decreases m - k
  {
    assert t[k] == t[..m][k] == t'[..m][k] == t'[k];
    match Consume(s, t[k])
    case Emitted(_) =>
    case In(u) => ReadLocal(t, t', k + 1, m, u);
  }
}
