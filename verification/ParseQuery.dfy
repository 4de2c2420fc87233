/** The query rewriter of prepared statements: markers and placeholders become bind positions. */
module ParseQuery {
  import opened Chars
  import opened Wrappers

  /** Qore values, as far as the rewriter looks at them. */
  datatype Value =
    | Nothing
    | Int(n: int)
    | Text(s: string)
    | Description(inner: Value, size: Value, typ: Value) // a hash with keys "value", "size" and "type"
    | Other(typeName: string)
  {
    function TypeName(): string {
      match this
      case Nothing => "nothing"
      case Int(_) => "integer"
      case Text(_) => "string"
      case Description(_, _, _) => "hash"
      case Other(name) => name
    }
  }

  /** The DBI helpers of the Qore core: the text of a value for "%d" and for "%s" (None: an exception). */
  datatype Core = Core(numeric: Value -> string, text: Value -> Option<string>)

  datatype Placeholder = Placeholder(size: int, typ: string, value: Value)

  datatype Node =
    | ValueNode(value: Value)
    | PlaceholderNode(name: string, placeholder: Option<Placeholder>)

  /** A 64-bit value converted to a 32-bit int. */
  function ToInt32(n: int): (r: int)
    ensures -0x8000_0000 <= r < 0x8000_0000 && (r - n) % 0x1_0000_0000 == 0
  {
    var m := n % 0x1_0000_0000;
    if m < 0x8000_0000 then m else m - 0x1_0000_0000
  }

  /** What a bind argument says about a placeholder; None if the argument is rejected. */
  function Describe(v: Value): Option<Placeholder> {
    match v
    case Nothing => Some(Placeholder(-1, "string", Nothing))
    case Int(n) => Some(Placeholder(ToInt32(n), "string", Nothing))
    case Text(s) => Some(Placeholder(-1, s, Nothing))
    case Other(_) => None
    case Description(inner, size, typ) =>
      var bytes := if inner.Nothing? && size.Int? then ToInt32(size.n) else -1;
      if typ.Nothing? then
        if inner.Nothing? then None else Some(Placeholder(bytes, inner.TypeName(), inner))
      else if typ.Text? then Some(Placeholder(bytes, typ.s, inner))
      else None
  }

  /** Entry `index` of the argument list; Nothing without a list or past its end. */
  function Argument(args: Option<seq<Value>>, index: nat): Value {
    if args.Some? && index < |args.value| then args.value[index] else Nothing
  }

  datatype Mode = Plain | Quoted(quote: char) | LineComment | BlockComment

  /** How a piece of the query text is treated: kept as it is, freed of its backslash, replaced by the text of
      an argument, or turned into a bind position by value or by name (which may reject its argument). */
  datatype Kind = Kept(mode: Mode) | Unescaped | Inserted | ByValue | ByName(accepted: bool)

  /** One piece of the query text: how it reads before and after the rewrite, the bind nodes it makes and the
      positions of the arguments it takes. */
  datatype Segment = Segment(kind: Kind, source: string, target: string, nodes: seq<Node>, args: seq<nat>)

  function Keep(text: string, mode: Mode): Segment {
    Segment(Kept(mode), text, text, [], [])
  }

  function Unescape(text: string): Segment {
    Segment(Unescaped, "\\" + text, text, [], [])
  }

  function Insert(marker: string, arg: nat, text: string): Segment {
    Segment(Inserted, marker, text, [], [arg])
  }

  function BindValue(number: nat, arg: nat, value: Value): Segment {
    Segment(ByValue, "%v", ":" + GeneratedName(number), [ValueNode(value)], [arg])
  }

  function BindName(name: string, arg: nat, placeholder: Option<Placeholder>): Segment {
    Segment(ByName(placeholder.Some?), ":" + name, ":" + name, [PlaceholderNode(name, placeholder)], [arg])
  }

  function GeneratedName(number: nat): string {
    "qdodvrs___" + DecimalText(number)
  }

  datatype Outcome = Complete | BadMarker(c: char) | BadText | BadPlaceholder | Overrun

  /** The rewritten text and the bind nodes found, the pieces they come from, the text after those pieces
      that was not looked at, and why the scan ended. */
  datatype Scan = Scan(text: string, nodes: seq<Node>, segments: seq<Segment>, rest: string, end: Outcome)
  {
    /** The scan of a text that starts with `seg` and continues with the text of this scan. */
    function After(seg: Segment): Scan {
      Scan(seg.target + text, seg.nodes + nodes, [seg] + segments, rest, end)
    }
  }

  predicate IsQuote(c: char) {
    c == '\'' || c == '\"'
  }

  predicate IsNameChar(c: char) {
    IsAlnum(c) || c == '_'
  }

  /** The length of the longest run of name characters at the start of `s`. */
  function NameLength(s: string): (n: nat)
    ensures n <= |s|
    ensures forall i :: 0 <= i < n ==> IsNameChar(s[i])
    ensures n < |s| ==> !IsNameChar(s[n])
  {
    if s == "" || !IsNameChar(s[0]) then 0 else 1 + NameLength(s[1..])
  }

  /** The scanner's state between two pieces: the last character of the rewritten text, the mode, and the
      number of arguments taken and of bind nodes made so far. */
  datatype State = State(prev: Option<char>, mode: Mode, args: nat, nodes: nat)
  {
    function After(seg: Segment, mode': Mode): State {
      State(Last(prev, seg.target), mode', args + |seg.args|, nodes + |seg.nodes|)
    }
  }

  function Last(prev: Option<char>, text: string): Option<char> {
    if text == "" then prev else Some(text[|text| - 1])
  }

  datatype Step = Stop(end: Outcome) | Go(seg: Segment, mode: Mode)

  /** The next piece of the text `s` that is still to be scanned. */
  function NextStep(core: Core, args: Option<seq<Value>>, s: string, st: State): (r: Step)
    ensures r.Go? ==> r.seg.source <= s && r.seg.source != ""
    ensures r == Stop(Overrun) ==> s != ""
  {
    if At(s, 0) == NUL then Stop(Complete)
    else match st.mode
      case Quoted(q) => Go(Keep(s[..1], st.mode), if s[0] == q then Plain else st.mode)
      case LineComment => Go(Keep(s[..1], st.mode), if s[0] in "\n\r" then Plain else LineComment)
      case BlockComment =>
        if s[0] == '*' && At(s, 1) == '/' then Go(Keep(s[..2], BlockComment), Plain)
        else Go(Keep(s[..1], BlockComment), BlockComment)
      case Plain => PlainStep(core, args, s, st)
  }

  function PlainStep(core: Core, args: Option<seq<Value>>, s: string, st: State): (r: Step)
    requires s != "" && s[0] != NUL
    ensures r.Go? ==> r.seg.source <= s && r.seg.source != ""
    ensures r == Stop(Overrun) ==> s != ""
  {
    if s[0] == '-' && At(s, 1) == '-' then Go(Keep(s[..2], LineComment), LineComment)
    else if s[0] == '/' && At(s, 1) == '*' then Go(Keep(s[..2], BlockComment), BlockComment)
    else if s[0] == '%' && !(st.prev.Some? && IsAlnum(st.prev.value)) then MarkerStep(core, args, s, st)
    else if s[0] == ':' then
      if !IsAlpha(At(s, 1)) then Go(Keep(s[..1], Plain), Plain)
      else
        var name := s[1..][..NameLength(s[1..])];
        assert ":" + name == s[..1 + |name|];
        Go(BindName(name, st.args, Describe(Argument(args, st.args))), Plain)
    else if s[0] == '\\' && At(s, 1) in ":%" then
      // the escaped character and the two characters after it are passed over
      if |s| < 4 then Stop(Overrun)
      else Go(Unescape(s[1..4]), if IsQuote(s[3]) then Quoted(s[3]) else Plain)
    else Go(Keep(s[..1], Plain), if IsQuote(s[0]) then Quoted(s[0]) else Plain)
  }

  function MarkerStep(core: Core, args: Option<seq<Value>>, s: string, st: State): (r: Step)
    requires s != "" && s[0] == '%'
    ensures r.Go? ==> r.seg.source <= s && r.seg.source != ""
    ensures r == Stop(Overrun) ==> s != ""
  {
    var v := Argument(args, st.args);
    var c := At(s, 1);
    if c == 'd' then Go(Insert("%d", st.args, core.numeric(v)), Plain)
    else if c == 's' then
      var text := core.text(v);
      if text.None? then Stop(BadText) else Go(Insert("%s", st.args, text.value), Plain)
    else if c != 'v' then Stop(BadMarker(c))
    else if IsAlpha(At(s, 2)) then Stop(BadMarker(At(s, 2)))
    else Go(BindValue(st.nodes, st.args, v), Plain)
  }

  predicate Rejected(seg: Segment) {
    seg.kind == ByName(false)
  }

  /** The one-pass rewrite of `s`. */
  function Run(core: Core, args: Option<seq<Value>>, s: string, st: State): Scan
    decreases |s|
  {
    match NextStep(core, args, s, st)
    case Stop(end) => Scan(if end == Overrun then s[1..] else s, [], [], s, end)
    case Go(seg, mode) =>
      var s' := s[|seg.source|..];
      if Rejected(seg) then Scan(s', [], [], s', BadPlaceholder).After(seg)
      else Run(core, args, s', st.After(seg, mode)).After(seg)
  }

  /** The scan of a whole query by a statement that already has `nodes` bind nodes. */
  function Rewrite(core: Core, args: Option<seq<Value>>, sql: string, nodes: nat): Scan {
    Run(core, args, sql, State(None, Plain, 0, nodes))
  }

  /* ---- The rewrite in place ---- */

  /** The part of the scan `whole` that is still to come after `text` and `nodes` is `next`. */
  ghost predicate Continues(whole: Scan, text: string, nodes: seq<Node>, next: Scan) {
    && whole.text == text + next.text
    && whole.nodes == nodes + next.nodes
    && whole.end == next.end
  }

  lemma Advance(whole: Scan, text: string, nodes: seq<Node>, seg: Segment, next: Scan)
    requires Continues(whole, text, nodes, next.After(seg))
    ensures Continues(whole, text + seg.target, nodes + seg.nodes, next)
  {
    assert text + (seg.target + next.text) == (text + seg.target) + next.text;
    assert nodes + (seg.nodes + next.nodes) == (nodes + seg.nodes) + next.nodes;
  }

  /** After `nodes`, and with the text up to `p` rewritten, scanning on from `p` completes the scan `whole`. */
  ghost predicate Scanning(core: Core, args: Option<seq<Value>>, whole: Scan, text: string, p: nat,
                           nodes: seq<Node>, st: State)
  {
    && p <= |text|
    && st.prev == Last(None, text[..p])
    && Continues(whole, text[..p], nodes, Run(core, args, text[p..], st))
  }

  /** Replacing the next piece by its rewritten form and moving behind it keeps the scan on course. */
  lemma Replaced(core: Core, args: Option<seq<Value>>, whole: Scan, text: string, p: nat, nodes: seq<Node>,
                 st: State, seg: Segment, mode: Mode, text': string, p': nat)
    requires Scanning(core, args, whole, text, p, nodes, st)
    requires NextStep(core, args, text[p..], st) == Go(seg, mode) && !Rejected(seg)
    requires text' == text[..p] + seg.target + text[p + |seg.source|..] && p' == p + |seg.target|
    ensures Scanning(core, args, whole, text', p', nodes + seg.nodes, st.After(seg, mode))
  {
    var next := Run(core, args, text[p..][|seg.source|..], st.After(seg, mode));
    assert Run(core, args, text[p..], st) == next.After(seg);
    Advance(whole, text[..p], nodes, seg, next);
    assert text'[p'..] == text[p..][|seg.source|..];
    assert text'[..p'] == text[..p] + seg.target;
  }

  /** A scan that stops leaves the text from there on as it is. */
  lemma Halted(core: Core, args: Option<seq<Value>>, whole: Scan, text: string, p: nat, nodes: seq<Node>,
               st: State, end: Outcome)
    requires Scanning(core, args, whole, text, p, nodes, st)
    requires NextStep(core, args, text[p..], st) == Stop(end) && end != Overrun
    ensures whole.end == end && whole.text == text && whole.nodes == nodes
  {
    assert text == text[..p] + text[p..];
  }

  lemma Finished(core: Core, args: Option<seq<Value>>, whole: Scan, text: string, p: nat, nodes: seq<Node>,
                 st: State)
    requires Scanning(core, args, whole, text, p, nodes, st) && At(text, p) == NUL
    ensures whole.end == Complete && whole.text == text && whole.nodes == nodes
  {
    Halted(core, args, whole, text, p, nodes, st, Complete);
  }

  lemma HaltedOverrun(core: Core, args: Option<seq<Value>>, whole: Scan, text: string, p: nat, nodes: seq<Node>,
                      st: State)
    requires Scanning(core, args, whole, text, p, nodes, st)
    requires NextStep(core, args, text[p..], st) == Stop(Overrun)
    ensures p < |text|
    ensures whole.end == Overrun && whole.text == text[..p] + text[p + 1..] && whole.nodes == nodes
  {
    assert text[p..][1..] == text[p + 1..];
  }

  lemma NameKept(core: Core, args: Option<seq<Value>>, s: string, st: State, seg: Segment)
    requires NextStep(core, args, s, st) == Go(seg, Plain) && seg.kind.ByName?
    ensures seg.target == seg.source
  {
  }

  lemma HaltedRejected(core: Core, args: Option<seq<Value>>, whole: Scan, text: string, p: nat,
                       nodes: seq<Node>, st: State, seg: Segment)
    requires Scanning(core, args, whole, text, p, nodes, st)
    requires NextStep(core, args, text[p..], st) == Go(seg, Plain) && Rejected(seg)
    ensures whole.end == BadPlaceholder && whole.text == text && whole.nodes == nodes + seg.nodes
  {
    var s := text[p..];
    hide PlainStep;
    assert seg.target == seg.source by {
      NameKept(core, args, s, st, seg);
    }
    assert s == seg.target + s[|seg.source|..];
    assert text == text[..p] + s;
  }

  const LINE_COMMENT := 1
  const BLOCK_COMMENT := 2

  function ModeOf(quote: char, comment: int): Mode {
    if quote != NUL then Quoted(quote)
    else if comment == LINE_COMMENT then LineComment
    else if comment == BLOCK_COMMENT then BlockComment
    else Plain
  }

  /** Where the loop stands: its position, the open quote and comment, and the next argument. */
  datatype Cursor = Cursor(p: nat, quote: char, comment: int, index: nat)

  predicate Legal(cur: Cursor) {
    && (cur.quote == NUL || (cur.comment == 0 && IsQuote(cur.quote)))
    && cur.comment in {0, LINE_COMMENT, BLOCK_COMMENT}
  }

  /** `st` is the state of the one-pass scan where the loop stands at `cur`. */
  ghost predicate Open(text: string, cur: Cursor, st: State) {
    && cur.p <= |text| && Legal(cur)
    && st.prev == Last(None, text[..cur.p])
    && st.mode == ModeOf(cur.quote, cur.comment)
  }

  /** What one turn of the loop at `cur` does to the text: it rewrites the piece `seg`, or it ends the scan. */
  ghost predicate Rewrote(core: Core, args: Option<seq<Value>>, text: string, text': string, cur: Cursor,
                          next: Cursor, end: Outcome, seg: Segment, st: State)
  {
    && cur.p <= |text|
    && var step := NextStep(core, args, text[cur.p..], st);
    match end
    case Complete =>
      && step == Go(seg, ModeOf(next.quote, next.comment)) && !Rejected(seg) && Legal(next)
      && |seg.source| <= |text| - cur.p
      && text' == text[..cur.p] + seg.target + text[cur.p + |seg.source|..]
      && next.p == cur.p + |seg.target|
    case BadPlaceholder => step == Go(seg, Plain) && Rejected(seg) && text' == text
    case Overrun => step == Stop(end) && cur.p < |text| && text' == text[..cur.p] + text[cur.p + 1..] && seg.nodes == []
    case _ => step == Stop(end) && text' == text && seg.nodes == []
  }

  lemma Rewritten(core: Core, args: Option<seq<Value>>, text: string, text': string, cur: Cursor, next: Cursor,
                  seg: Segment, st: State)
    requires cur.p <= |text| && |seg.source| <= |text| - cur.p && Legal(next)
    requires NextStep(core, args, text[cur.p..], st) == Go(seg, ModeOf(next.quote, next.comment)) && !Rejected(seg)
    requires text' == text[..cur.p] + seg.target + text[cur.p + |seg.source|..] && next.p == cur.p + |seg.target|
    ensures Rewrote(core, args, text, text', cur, next, Complete, seg, st)
  {
  }

  lemma Unchanged(core: Core, args: Option<seq<Value>>, text: string, cur: Cursor, next: Cursor, end: Outcome,
                  seg: Segment, st: State)
    requires cur.p <= |text| && end !in {Complete, Overrun, BadPlaceholder} && seg.nodes == []
    requires NextStep(core, args, text[cur.p..], st) == Stop(end)
    ensures Rewrote(core, args, text, text, cur, next, end, seg, st)
  {
  }

  lemma PlaceholderRead(core: Core, args: Option<seq<Value>>, text: string, cur: Cursor, next: Cursor, name: string,
                        st: State)
    requires Open(text, cur, st) && st.mode == Plain && At(text, cur.p) == ':' && IsAlpha(At(text, cur.p + 1))
    requires next.p == cur.p + 1 + |name| && next.quote == NUL && next.comment == 0 && next.p <= |text|
    requires |name| == NameLength(text[cur.p + 1..]) && name == text[cur.p + 1..next.p]
    ensures var d := Describe(Argument(args, st.args));
      Rewrote(core, args, text, text, cur, next, if d.None? then BadPlaceholder else Complete,
              BindName(name, st.args, d), st)
  {
    hide NextStep, NameLength;
    var d := Describe(Argument(args, st.args));
    var s, seg := text[cur.p..], BindName(name, st.args, d);
    assert s[1..] == text[cur.p + 1..] && s[1..][..|name|] == name;
    PlaceholderStep(core, args, s, st, name);
    if d.Some? {
      assert seg.source == text[cur.p..next.p];
      assert text == text[..cur.p] + seg.target + text[cur.p + |seg.source|..];
      hide Describe, Argument;
      Rewritten(core, args, text, text, cur, next, seg, st);
    }
  }

  lemma PlaceholderStep(core: Core, args: Option<seq<Value>>, s: string, st: State, name: string)
    requires st.mode == Plain && At(s, 0) == ':' && IsAlpha(At(s, 1)) && name == s[1..][..NameLength(s[1..])]
    ensures NextStep(core, args, s, st) == Go(BindName(name, st.args, Describe(Argument(args, st.args))), Plain)
  {
  }

  /** Passes over a comment, quoted text or plain text. */
  method SkipText(text: string, cur: Cursor, ghost core: Core, ghost args: Option<seq<Value>>, ghost st: State)
    returns (next: Cursor, ghost seg: Segment)
    requires Open(text, cur, st) && At(text, cur.p) != NUL
    requires st.mode == Plain ==>
      && !(text[cur.p] == '%' && (cur.p == 0 || !IsAlnum(text[cur.p - 1])))
      && !(text[cur.p] == ':' && IsAlpha(At(text, cur.p + 1)))
      && !(text[cur.p] == '\\' && At(text, cur.p + 1) in ":%")
    ensures cur.p < next.p <= |text| && Legal(next) && next.index == cur.index
    ensures seg.kind.Kept? && seg == Keep(text[cur.p..next.p], seg.kind.mode)
    ensures NextStep(core, args, text[cur.p..], st) == Go(seg, ModeOf(next.quote, next.comment))
  {
    var p, quote, comment := cur.p, cur.quote, cur.comment;
    ghost var s := text[p..];
    seg := Keep(s[..1], st.mode);
    if quote == NUL && comment == 0 && text[p] == '-' && At(text, p + 1) == '-' {
      comment := LINE_COMMENT;
      p := p + 2;
      seg := Keep(s[..2], LineComment);
    } else if quote == NUL && comment == 0 && text[p] == '/' && At(text, p + 1) == '*' {
      comment := BLOCK_COMMENT;
      p := p + 2;
      seg := Keep(s[..2], BlockComment);
    } else if comment == LINE_COMMENT {
      if text[p] == '\n' || text[p] == '\r' {
        comment := 0;
      }
      p := p + 1;
    } else if comment == BLOCK_COMMENT {
      if text[p] == '*' && At(text, p + 1) == '/' {
        comment := 0;
        p := p + 2;
        seg := Keep(s[..2], BlockComment);
      } else {
        p := p + 1;
      }
    } else {
      if IsQuote(text[p]) {
        if quote == NUL {
          quote := text[p];
        } else if quote == text[p] {
          quote := NUL;
        }
      }
      p := p + 1;
    }
    assert seg.source == text[cur.p..p];
    next := cur.(p := p, quote := quote, comment := comment);
  }

  /** Reads the name that starts at `p`. */
  method ReadName(text: string, p: nat) returns (p': nat, name: string)
    requires p <= |text|
    ensures p' == p + |name| && p' <= |text| && name == text[p..p']
    ensures |name| == NameLength(text[p..])
  {
    p', name := p, "";
    while IsNameChar(At(text, p'))
      invariant p <= p' <= |text| && name == text[p..p']
      invariant NameLength(text[p..]) == |name| + NameLength(text[p'..])
      decreases |text| - p'
    {
      assert text[p'..][1..] == text[p' + 1..];
      name := name + [text[p']];
      p' := p' + 1;
    }
  }

  /** Each turn of the loop brings the scan to the next state or ends it with the text and nodes of `whole`. */
  lemma Turn(core: Core, args: Option<seq<Value>>, whole: Scan, text: string, text': string, cur: Cursor,
             next: Cursor, end: Outcome, nodes: seq<Node>, seg: Segment, st: State)
    requires Scanning(core, args, whole, text, cur.p, nodes, st)
    requires Rewrote(core, args, text, text', cur, next, end, seg, st)
    ensures end == Complete ==>
      var st' := st.After(seg, ModeOf(next.quote, next.comment));
      Open(text', next, st') && Scanning(core, args, whole, text', next.p, nodes + seg.nodes, st')
    ensures end == Complete ==> next.p <= |text'| && |text'| - next.p < |text| - cur.p
    ensures end != Complete ==> whole.end == end && whole.text == text' && whole.nodes == nodes + seg.nodes
  {
    if end == Complete {
      Replaced(core, args, whole, text, cur.p, nodes, st, seg, ModeOf(next.quote, next.comment), text', next.p);
    } else if end == BadPlaceholder {
      HaltedRejected(core, args, whole, text, cur.p, nodes, st, seg);
    } else if end == Overrun {
      HaltedOverrun(core, args, whole, text, cur.p, nodes, st);
    } else {
      Halted(core, args, whole, text, cur.p, nodes, st, end);
    }
  }

  lemma Started(core: Core, args: Option<seq<Value>>, text: string, count: nat)
    ensures var st := State(None, Plain, 0, count);
      && Open(text, Cursor(0, NUL, 0, 0), st)
      && Scanning(core, args, Rewrite(core, args, text, count), text, 0, [], st)
  {
    assert text[0..] == text;
  }

  class PreparedStatement {
    var str: string
    var nodeList: seq<Node>
    var argsCopy: Option<seq<Value>>

    constructor (sql: string)
      ensures str == sql && nodeList == [] && argsCopy == None
    {
      str, nodeList, argsCopy := sql, [], None;
    }

    /** Replaces `length` characters of the query text. */
    method Replace(offset: nat, length: nat, text: string)
      requires offset + length <= |str|
      modifies this`str
      ensures str == old(str)[..offset] + text + old(str)[offset + length..]
    {
      str := str[..offset] + text + str[offset + length..];
    }

    /** Rewrites the value marker at the cursor. */
    method RewriteMarker(core: Core, args: Option<seq<Value>>, cur: Cursor, ghost st: State)
      returns (p: nat, end: Outcome, ghost seg: Segment)
      requires cur.p <= |str| && st.mode == Plain && st.nodes == |nodeList|
      requires At(str, cur.p) == '%' && !(st.prev.Some? && IsAlnum(st.prev.value))
      requires args.Some? ==> st.args == cur.index
      modifies this`str, this`nodeList
      ensures nodeList == old(nodeList) + seg.nodes
      ensures var step := NextStep(core, args, old(str)[cur.p..], st);
        if end == Complete then
          && step == Go(seg, Plain) && !Rejected(seg)
          && |seg.source| == 2 && cur.p + 2 <= |old(str)| && |seg.args| == 1
          && str == old(str)[..cur.p] + seg.target + old(str)[cur.p + 2..]
          && p == cur.p + |seg.target|
        else
          step == Stop(end) && end !in {Overrun, BadPlaceholder} && str == old(str) && seg.nodes == []
    {
      var offset := cur.p;
      p := cur.p + 1;
      var v := Argument(args, cur.index);
      end, seg := Complete, Keep("", Plain);
      ghost var s := str[offset..];
      if At(str, p) == 'd' {
        var tmp := core.numeric(v);
        Replace(offset, 2, tmp);
        p := offset + |tmp|;
        seg := Insert("%d", st.args, tmp);
      } else if At(str, p) == 's' {
        var tmp := core.text(v);
        if tmp == None {
          end := BadText;
        } else {
          Replace(offset, 2, tmp.value);
          p := offset + |tmp.value|;
          seg := Insert("%s", st.args, tmp.value);
        }
      } else if At(str, p) != 'v' {
        end := BadMarker(At(str, p));
      } else {
        p := p + 1;
        if IsAlpha(At(str, p)) {
          end := BadMarker(At(str, p));
        } else {
          var tmp := ":" + GeneratedName(|nodeList|);
          Replace(offset, 2, tmp);
          p := offset + |tmp|;
          nodeList := nodeList + [ValueNode(v)];
          seg := BindValue(st.nodes, st.args, v);
        }
      }
    }

    /** Reads the placeholder whose colon is at the cursor. */
    method ReadPlaceholder(ghost core: Core, args: Option<seq<Value>>, cur: Cursor, ghost st: State)
      returns (next: Cursor, end: Outcome, ghost seg: Segment)
      requires Open(str, cur, st) && st.mode == Plain
      requires At(str, cur.p) == ':' && IsAlpha(At(str, cur.p + 1))
      requires args.Some? ==> st.args == cur.index
      modifies this`nodeList
      ensures Rewrote(core, args, str, str, cur, next, end, seg, st)
      ensures nodeList == old(nodeList) + seg.nodes
      ensures end == Complete ==> |seg.args| == 1 && next.index == cur.index + 1
    {
      hide NextStep, Rewrote, NameLength;
      var p, name := ReadName(str, cur.p + 1);
      var placeholder := Describe(Argument(args, cur.index));
      nodeList := nodeList + [PlaceholderNode(name, placeholder)];
      next, end := cur.(p := p, index := cur.index + 1), if placeholder == None then BadPlaceholder else Complete;
      seg := BindName(name, st.args, placeholder);
      PlaceholderRead(core, args, str, cur, next, name, st);
    }

    /** Drops the backslash at the cursor and passes over the character behind it and the two after that. */
    method RewriteEscape(ghost core: Core, ghost args: Option<seq<Value>>, cur: Cursor, ghost st: State)
      returns (next: Cursor, end: Outcome, ghost seg: Segment)
      requires Open(str, cur, st) && st.mode == Plain
      requires At(str, cur.p) == '\\' && At(str, cur.p + 1) in ":%"
      modifies this`str
      ensures Rewrote(core, args, old(str), str, cur, next, end, seg, st)
      ensures seg.nodes == [] && seg.args == [] && next.index == cur.index
    {
      next, end, seg := cur, Complete, Keep("", Plain);
      ghost var s := str[cur.p..];
      var p := cur.p;
      Replace(p, 1, "");
      p := p + 2;
      if p >= |str| {
        end := Overrun;
      } else {
        seg := Unescape(s[1..4]);
        assert old(str)[cur.p + 1..] == s[1..4] + s[4..];
        next := cur.(p := p + 1, quote := if IsQuote(str[p]) then str[p] else NUL);
      }
    }

    /** One turn of the loop: rewrites the next piece of the text. */
    method ParsePiece(core: Core, args: Option<seq<Value>>, cur: Cursor, ghost st: State)
      returns (next: Cursor, end: Outcome, ghost seg: Segment)
      requires Open(str, cur, st) && At(str, cur.p) != NUL
      requires st.nodes == |nodeList| && (args.Some? ==> st.args == cur.index)
      modifies this`str, this`nodeList
      ensures Rewrote(core, args, old(str), str, cur, next, end, seg, st)
      ensures nodeList == old(nodeList) + seg.nodes
      ensures end == Complete && args.Some? ==> next.index == cur.index + |seg.args|
    {
      hide NextStep, Rewrote;
      var p: nat, plain := cur.p, cur.quote == NUL && cur.comment == 0;
      end := Complete;
      if plain && str[p] == '%' && (p == 0 || !IsAlnum(str[p - 1])) {
        p, end, seg := RewriteMarker(core, args, cur, st);
        next := cur.(p := p, index := cur.index + 1);
        if end == Complete {
          Rewritten(core, args, old(str), str, cur, next, seg, st);
        } else {
          Unchanged(core, args, str, cur, next, end, seg, st);
        }
      } else if plain && str[p] == ':' && IsAlpha(At(str, p + 1)) {
        next, end, seg := ReadPlaceholder(core, args, cur, st);
      } else if plain && str[p] == '\\' && (At(str, p + 1) == ':' || At(str, p + 1) == '%') {
        next, end, seg := RewriteEscape(core, args, cur, st);
      } else {
        next, seg := SkipText(str, cur, core, args, st);
        assert str == str[..cur.p] + seg.target + str[cur.p + |seg.source|..];
        Rewritten(core, args, str, str, cur, next, seg, st);
      }
    }

    /** Rewrites the query text in place and collects its bind nodes. */
    method Parse(core: Core, args: Option<seq<Value>>, inTransaction: bool) returns (end: Outcome)
      modifies this
      ensures var r := Rewrite(core, args, old(str), |old(nodeList)|);
        end == r.end && str == r.text && nodeList == old(nodeList) + r.nodes
      ensures argsCopy == if args.Some? && !inTransaction && end == Complete then args else old(argsCopy)
    {
      hide Run, NextStep, Rewrite, Rewrote, Scanning, Open, ModeOf;
      var cur := Cursor(0, NUL, 0, 0);
      ghost var st, nodes: seq<Node> := State(None, Plain, 0, |nodeList|), [];
      ghost var whole := Rewrite(core, args, str, |nodeList|);
      end := Complete;
      Started(core, args, str, |nodeList|);
      while end == Complete && At(str, cur.p) != NUL
        invariant end == Complete ==> cur.p <= |str|
        invariant end == Complete ==> Open(str, cur, st) && Scanning(core, args, whole, str, cur.p, nodes, st)
        invariant end == Complete ==> st.nodes == |nodeList| && (args.Some? ==> st.args == cur.index)
        invariant end != Complete ==> whole.end == end && whole.text == str && whole.nodes == nodes
        invariant nodeList == old(nodeList) + nodes && argsCopy == old(argsCopy)
        decreases end == Complete, |str| - cur.p
      {
        ghost var text, at := str, cur;
        ghost var seg;
        cur, end, seg := ParsePiece(core, args, cur, st);
        Turn(core, args, whole, text, str, at, cur, end, nodes, seg, st);
        assert old(nodeList) + (nodes + seg.nodes) == (old(nodeList) + nodes) + seg.nodes;
        nodes, st := nodes + seg.nodes, st.After(seg, ModeOf(cur.quote, cur.comment));
      }
      if end == Complete {
        Finished(core, args, whole, str, cur.p, nodes, st);
        if args.Some? && !inTransaction {
          argsCopy := args;
        }
      }
    }
  }
}
