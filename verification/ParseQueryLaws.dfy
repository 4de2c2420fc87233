/** What the query rewrite guarantees: it loses nothing, numbers arguments and nodes in text order, leaves quoted
    and commented text alone, and its result has exactly one bind position for each node. */
module ParseQueryLaws {
  import opened Chars
  import opened ParseQuery
  import opened Wrappers

  /* ---- The pieces of a query ---- */

  function Sources(segments: seq<Segment>): string {
    if segments == [] then "" else segments[0].source + Sources(segments[1..])
  }

  function Targets(segments: seq<Segment>): string {
    if segments == [] then "" else segments[0].target + Targets(segments[1..])
  }

  function NodesOf(segments: seq<Segment>): seq<Node> {
    if segments == [] then [] else segments[0].nodes + NodesOf(segments[1..])
  }

  function ArgsOf(segments: seq<Segment>): seq<nat> {
    if segments == [] then [] else segments[0].args + ArgsOf(segments[1..])
  }

  /** Kept text and placeholder names do not change, an escape loses its backslash, and only the markers
      "%v", "%d" and "%s" are replaced. */
  predicate Faithful(seg: Segment) {
    match seg.kind
    case Kept(_) => seg.target == seg.source && seg.nodes == [] && seg.args == []
    case Unescaped => seg.source == "\\" + seg.target && seg.nodes == [] && seg.args == []
    case Inserted => seg.source in {"%d", "%s"} && seg.nodes == [] && |seg.args| == 1
    case ByValue => seg.source == "%v" && |seg.nodes| == |seg.args| == 1 && seg.nodes[0].ValueNode?
    case ByName(_) =>
      && seg.target == seg.source && |seg.nodes| == |seg.args| == 1
      && seg.nodes[0].PlaceholderNode? && seg.source == ":" + seg.nodes[0].name
  }

  lemma StepFaithful(core: Core, args: Option<seq<Value>>, s: string, st: State)
    ensures var step := NextStep(core, args, s, st); step.Go? ==> Faithful(step.seg)
  {
  }

  /** What a scan reads first and what it goes on with. */
  lemma Unfold(core: Core, args: Option<seq<Value>>, s: string, st: State)
    returns (seg: Segment, s': string, st': State)
    requires NextStep(core, args, s, st).Go?
    ensures var step := NextStep(core, args, s, st);
      seg == step.seg && s == seg.source + s' && seg.source != "" && st' == st.After(seg, step.mode)
    ensures var r, r' := Run(core, args, s, st), Run(core, args, s', st');
      if Rejected(seg) then
        r.segments == [seg] && r.rest == s' && r.text == seg.target + s' && r.nodes == seg.nodes
        && r.end == BadPlaceholder
      else r == r'.After(seg) && r.segments[0] == seg && r.segments[1..] == r'.segments
  {
    hide NextStep;
    var step := NextStep(core, args, s, st);
    seg, s', st' := step.seg, s[|step.seg.source|..], st.After(step.seg, step.mode);
  }

  /** The pieces and the unscanned rest make up the original text. */
  lemma {:induction false} NothingLost(core: Core, args: Option<seq<Value>>, s: string, st: State)
    ensures Sources(Run(core, args, s, st).segments) + Run(core, args, s, st).rest == s
    decreases |s|
  {
    hide NextStep;
    if NextStep(core, args, s, st).Go? {
      var seg, s', st' := Unfold(core, args, s, st);
      if Rejected(seg) {
        assert Sources([seg]) == seg.source + Sources([]);
      } else {
        NothingLost(core, args, s', st');
        var r' := Run(core, args, s', st');
        assert seg.source + (Sources(r'.segments) + r'.rest) == (seg.source + Sources(r'.segments)) + r'.rest;
      }
    }
  }

  /** Replacing each piece by its new form gives the new text, and the nodes are those of the pieces in order. */
  lemma {:induction false} PiecesReplaced(core: Core, args: Option<seq<Value>>, s: string, st: State)
    requires Run(core, args, s, st).end != Overrun
    ensures var r := Run(core, args, s, st);
      Targets(r.segments) + r.rest == r.text && NodesOf(r.segments) == r.nodes
    decreases |s|
  {
    hide NextStep;
    if NextStep(core, args, s, st).Go? {
      var seg, s', st' := Unfold(core, args, s, st);
      if Rejected(seg) {
        assert Targets([seg]) == seg.target + Targets([]) && NodesOf([seg]) == seg.nodes + NodesOf([]);
      } else {
        PiecesReplaced(core, args, s', st');
        var r' := Run(core, args, s', st');
        assert seg.target + (Targets(r'.segments) + r'.rest) == (seg.target + Targets(r'.segments)) + r'.rest;
      }
    }
  }

  /** Every piece is treated as its kind says. */
  lemma {:induction false} PiecesFaithful(core: Core, args: Option<seq<Value>>, s: string, st: State, i: nat)
    requires i < |Run(core, args, s, st).segments|
    ensures Faithful(Run(core, args, s, st).segments[i])
    decreases |s|
  {
    hide NextStep, Faithful;
    var seg, s', st' := Unfold(core, args, s, st);
    if i == 0 {
      StepFaithful(core, args, s, st);
    } else {
      PiecesFaithful(core, args, s', st', i - 1);
    }
  }

  predicate CountsFrom(taken: seq<nat>, start: nat) {
    forall k :: 0 <= k < |taken| ==> taken[k] == start + k
  }

  /** The k-th argument taken is argument k of the list: arguments are taken once each, in text order. */
  lemma {:induction false} ArgumentsInOrder(core: Core, args: Option<seq<Value>>, s: string, st: State)
    ensures CountsFrom(ArgsOf(Run(core, args, s, st).segments), st.args)
    decreases |s|
  {
    hide NextStep;
    if NextStep(core, args, s, st).Go? {
      var seg, s', st' := Unfold(core, args, s, st);
      StepArguments(core, args, s, st);
      if Rejected(seg) {
        assert ArgsOf([seg]) == seg.args + ArgsOf([]);
      } else {
        ArgumentsInOrder(core, args, s', st');
        var taken, taken' := ArgsOf(Run(core, args, s, st).segments), ArgsOf(Run(core, args, s', st').segments);
        assert taken == seg.args + taken';
        assert forall k :: |seg.args| <= k < |taken| ==> taken[k] == taken'[k - |seg.args|];
      }
    }
  }

  /** A piece that takes an argument is made from that argument, and a value's name carries the node's number. */
  predicate MadeFrom(core: Core, args: Option<seq<Value>>, seg: Segment, arg: nat, number: nat) {
    var v := Argument(args, arg);
    match seg.kind
    case ByValue => seg.target == ":" + GeneratedName(number) && seg.nodes == [ValueNode(v)]
    case ByName(accepted) =>
      && accepted == Describe(v).Some?
      && |seg.nodes| == 1 && seg.nodes[0].PlaceholderNode? && seg.nodes[0].placeholder == Describe(v)
    case Inserted => if seg.source == "%d" then seg.target == core.numeric(v) else core.text(v) == Some(seg.target)
    case _ => true
  }

  lemma StepArguments(core: Core, args: Option<seq<Value>>, s: string, st: State)
    ensures var step := NextStep(core, args, s, st);
      step.Go? ==>
        && (step.seg.args == [] || step.seg.args == [st.args])
        && MadeFrom(core, args, step.seg, st.args, st.nodes)
  {
  }

  /** The i-th piece is made from the argument, and numbered by the count, that the pieces before it leave. */
  lemma {:induction false} PiecesInOrder(core: Core, args: Option<seq<Value>>, s: string, st: State, i: nat)
    requires i < |Run(core, args, s, st).segments|
    ensures var before := Run(core, args, s, st).segments[..i];
      MadeFrom(core, args, Run(core, args, s, st).segments[i],
               st.args + |ArgsOf(before)|, st.nodes + |NodesOf(before)|)
    decreases |s|
  {
    hide NextStep, MadeFrom;
    var seg, s', st' := Unfold(core, args, s, st);
    StepArguments(core, args, s, st);
    if i > 0 {
      PiecesInOrder(core, args, s', st', i - 1);
      var r, r' := Run(core, args, s, st), Run(core, args, s', st');
      assert r.segments[..i][1..] == r'.segments[..i - 1];
    }
  }

  /* ---- Quotes and comments ---- */

  /** The mode of each character of a text as SQL reads it, without any markers: an independent lexer. */
  function Lex(s: string, mode: Mode): (r: seq<Mode>)
    ensures |r| == |s|
  {
    if s == "" then []
    else match mode
      case Quoted(q) => [mode] + Lex(s[1..], if s[0] == q then Plain else mode)
      case LineComment => [mode] + Lex(s[1..], if s[0] in "\n\r" then Plain else mode)
      case BlockComment =>
        if "*/" <= s then [mode, mode] + Lex(s[2..], Plain) else [mode] + Lex(s[1..], mode)
      case Plain =>
        if "--" <= s then [LineComment, LineComment] + Lex(s[2..], LineComment)
        else if "/*" <= s then [BlockComment, BlockComment] + Lex(s[2..], BlockComment)
        else [Plain] + Lex(s[1..], if IsQuote(s[0]) then Quoted(s[0]) else Plain)
  }

  function Repeat(mode: Mode, n: nat): (r: seq<Mode>)
    ensures |r| == n && forall i :: 0 <= i < n ==> r[i] == mode
  {
    seq(n, _ => mode)
  }

  /** The mode in which the rewrite read each character of a piece: all but kept text is plain text. */
  function SegmentModes(seg: Segment): seq<Mode> {
    Repeat(if seg.kind.Kept? then seg.kind.mode else Plain, |seg.source|)
  }

  /** The mode in which the rewrite read each character of the original text. */
  function ModesOf(segments: seq<Segment>): seq<Mode> {
    if segments == [] then [] else SegmentModes(segments[0]) + ModesOf(segments[1..])
  }

  predicate NoEscapes(segments: seq<Segment>) {
    forall i :: 0 <= i < |segments| ==> segments[i].kind != Unescaped
  }

  lemma LexChar(s: string)
    requires s != "" && (IsNameChar(s[0]) || s[0] in ":%")
    ensures Lex(s, Plain) == [Plain] + Lex(s[1..], Plain)
  {
  }

  /** Plain text without quotes and comment openers is read character by character. */
  lemma {:induction false} LexWord(word: string, t: string)
    requires forall i :: 0 <= i < |word| ==> IsNameChar(word[i])
    ensures Lex(word + t, Plain) == Repeat(Plain, |word|) + Lex(t, Plain)
  {
    hide Lex;
    if word == "" {
      assert word + t == t;
    } else {
      LexChar(word + t);
      assert (word + t)[1..] == word[1..] + t;
      LexWord(word[1..], t);
      assert Repeat(Plain, |word|) == [Plain] + Repeat(Plain, |word| - 1);
    }
  }

  /** What it takes for a step to read its characters as the lexer does. */
  ghost predicate ReadsAs(s: string, mode: Mode, seg: Segment, mode': Mode) {
    seg.source <= s && Lex(s, mode) == SegmentModes(seg) + Lex(s[|seg.source|..], mode')
  }

  lemma KeptLex(s: string, mode: Mode, seg: Segment, mode': Mode)
    requires s != "" && seg.kind.Kept? && seg.source in {s[..1], s[..if |s| > 1 then 2 else 1]}
    requires |seg.source| == 1 ==> Lex(s, mode) == [seg.kind.mode] + Lex(s[1..], mode')
    requires |seg.source| == 2 ==> Lex(s, mode) == [seg.kind.mode, seg.kind.mode] + Lex(s[2..], mode')
    ensures ReadsAs(s, mode, seg, mode')
  {
    assert |seg.source| == 1 ==> SegmentModes(seg) == [seg.kind.mode];
    assert |seg.source| == 2 ==> SegmentModes(seg) == [seg.kind.mode, seg.kind.mode];
  }

  lemma WordLex(s: string, seg: Segment)
    requires !seg.kind.Kept? && seg.source <= s && seg.source != "" && seg.source[0] in ":%"
    requires forall i :: 1 <= i < |seg.source| ==> IsNameChar(seg.source[i])
    ensures ReadsAs(s, Plain, seg, Plain)
  {
    hide Lex;
    var word, t := seg.source[1..], s[|seg.source|..];
    LexChar(s);
    assert s[1..] == word + t;
    LexWord(word, t);
    assert SegmentModes(seg) == [Plain] + Repeat(Plain, |word|);
  }

  lemma PlainStepLex(core: Core, args: Option<seq<Value>>, s: string, st: State)
    requires st.mode == Plain && s != "" && s[0] != NUL
    ensures var step := PlainStep(core, args, s, st);
      step.Go? && step.seg.kind != Unescaped ==> ReadsAs(s, Plain, step.seg, step.mode)
  {
    hide ReadsAs;
    var step := PlainStep(core, args, s, st);
    if step.Go? && step.seg.kind.Kept? {
      KeptLex(s, Plain, step.seg, step.mode);
    } else if step.Go? && step.seg.kind != Unescaped {
      hide Lex;
      WordLex(s, step.seg);
    }
  }

  /** One step of the rewrite reads its characters as the lexer does. */
  lemma StepLex(core: Core, args: Option<seq<Value>>, s: string, st: State)
    ensures var step := NextStep(core, args, s, st);
      step.Go? && step.seg.kind != Unescaped ==> ReadsAs(s, st.mode, step.seg, step.mode)
  {
    hide PlainStep, ReadsAs;
    var step := NextStep(core, args, s, st);
    if step.Go? && st.mode == Plain {
      PlainStepLex(core, args, s, st);
    } else if step.Go? {
      KeptLex(s, st.mode, step.seg, step.mode);
    }
  }

  /** Without escapes, the rewrite takes every character it reads for quoted, commented or plain text exactly
      where SQL does, so markers and placeholders are found outside quotes and comments only, and all of the
      quoted and commented text is kept. */
  lemma {:induction false} QuotesAndComments(core: Core, args: Option<seq<Value>>, s: string, st: State)
    requires NoEscapes(Run(core, args, s, st).segments)
    ensures var r := Run(core, args, s, st);
      ModesOf(r.segments) <= Lex(s, st.mode) && |ModesOf(r.segments)| == |Sources(r.segments)|
    decreases |s|
  {
    hide NextStep, Lex;
    if NextStep(core, args, s, st).Go? {
      var seg, s', st' := Unfold(core, args, s, st);
      var r, r' := Run(core, args, s, st), Run(core, args, s', st');
      assert r.segments[0] == seg;
      StepLex(core, args, s, st);
      if Rejected(seg) {
        assert ModesOf([seg]) == SegmentModes(seg) + ModesOf([]) && Sources([seg]) == seg.source + Sources([]);
      } else {
        assert forall i :: 0 <= i < |r'.segments| ==> r'.segments[i] == r.segments[i + 1];
        QuotesAndComments(core, args, s', st');
      }
    }
  }

  /* ---- Scanning the rewritten text again ---- */

  /** The scan read the whole text and found nothing but kept text, "%v" markers and placeholders. */
  ghost predicate Clean(r: Scan) {
    && r.end == Complete && r.rest == ""
    && forall i :: 0 <= i < |r.segments| ==> r.segments[i].kind.Kept? || r.segments[i].kind in {ByValue, ByName(true)}
  }

  /** `found` are placeholders for `nodes`: of the same name, or, for the value node with number k, of a name that
      starts with the generated name for k. */
  ghost predicate Matches(nodes: seq<Node>, found: seq<Node>, number: nat) {
    && |found| == |nodes|
    && forall i :: 0 <= i < |nodes| ==>
      && found[i].PlaceholderNode?
      && (nodes[i].PlaceholderNode? ==> found[i].name == nodes[i].name)
      && (nodes[i].ValueNode? ==> GeneratedName(number + i) <= found[i].name)
  }

  /** The rewrite of a text starts as the text does, or with the colon of a generated name. */
  predicate StartsLike(text: string, s: string) {
    if s == "" then text == "" else text != "" && (text[0] == s[0] || (s[0] == '%' && text[0] == ':'))
  }

  /** A clean scan goes on with a clean scan. */
  lemma CleanStep(core: Core, args: Option<seq<Value>>, s: string, st: State)
    returns (seg: Segment, mode: Mode, s': string, st': State)
    requires Clean(Run(core, args, s, st)) && s != ""
    ensures NextStep(core, args, s, st) == Go(seg, mode) && s == seg.source + s' && st' == st.After(seg, mode)
    ensures seg.source != "" && !Rejected(seg) && Faithful(seg)
    ensures seg.kind.Kept? || seg.kind in {ByValue, ByName(true)}
    ensures Clean(Run(core, args, s', st')) && Run(core, args, s, st) == Run(core, args, s', st').After(seg)
  {
    hide NextStep;
    var r := Run(core, args, s, st);
    assert NextStep(core, args, s, st).Go?;
    seg, s', st' := Unfold(core, args, s, st);
    mode := NextStep(core, args, s, st).mode;
    StepFaithful(core, args, s, st);
    assert r.segments[0] == seg;
    var r' := Run(core, args, s', st');
    assert forall i :: 0 <= i < |r'.segments| ==> r'.segments[i] == r.segments[i + 1];
  }

  lemma RewriteStart(core: Core, args: Option<seq<Value>>, s: string, st: State)
    requires Clean(Run(core, args, s, st))
    ensures StartsLike(Run(core, args, s, st).text, s)
  {
    if s != "" {
      hide NextStep;
      var seg, mode, s', st' := CleanStep(core, args, s, st);
      if seg.kind == ByValue {
        StepArguments(core, args, s, st);
      }
    }
  }

  lemma {:induction false} NameLengthOf(word: string, rest: string)
    requires forall i :: 0 <= i < |word| ==> IsNameChar(word[i])
    ensures NameLength(word + rest) == |word| + NameLength(rest)
  {
    if word == "" {
      assert word + rest == rest;
    } else {
      assert (word + rest)[1..] == word[1..] + rest;
      NameLengthOf(word[1..], rest);
    }
  }

  lemma KeptAgain(core: Core, args: Option<seq<Value>>, again: Core, s: string, st: State, seg: Segment, mode: Mode,
                  rest: string, st2: State)
    requires NextStep(core, args, s, st) == Go(seg, mode) && seg.kind.Kept?
    requires StartsLike(rest, s[|seg.source|..])
    requires st2.prev == st.prev && st2.mode == st.mode
    ensures NextStep(again, None, seg.target + rest, st2) == Go(seg, mode)
  {
    var text := seg.target + rest;
    assert text[..|seg.target|] == seg.target;
    assert text[0] == s[0];
    if |seg.source| == 2 {
      assert text[1] == s[1];
    } else {
      assert At(text, 1) == At(rest, 0) && At(s, 1) == At(s[1..], 0);
    }
  }

  lemma WordStep(core: Core, s: string, st: State)
    requires st.mode == Plain && s != "" && IsNameChar(s[0])
    ensures NextStep(core, None, s, st) == Go(Keep(s[..1], Plain), Plain)
  {
  }

  /** Plain name characters are kept one by one. */
  lemma {:induction false} WordAgain(again: Core, word: string, rest: string, st: State)
    requires st.mode == Plain
    requires forall i :: 0 <= i < |word| ==> IsNameChar(word[i])
    ensures var r, r' := Run(again, None, word + rest, st),
                         Run(again, None, rest, st.(prev := Last(st.prev, word)));
      r.text == word + r'.text && r.nodes == r'.nodes && r.rest == r'.rest && r.end == r'.end
  {
    hide NextStep;
    if word == "" {
      assert word + rest == rest;
    } else {
      var s, seg := word + rest, Keep(word[..1], Plain);
      assert s[..1] == word[..1] && s[1..] == word[1..] + rest;
      WordStep(again, s, st);
      WordAgain(again, word[1..], rest, st.After(seg, Plain));
      assert st.After(seg, Plain).(prev := Last(Last(st.prev, word[..1]), word[1..])) ==
        st.(prev := Last(st.prev, word));
      assert word[..1] + (word[1..] + Run(again, None, rest, st.(prev := Last(st.prev, word))).text)
          == word + Run(again, None, rest, st.(prev := Last(st.prev, word))).text;
    }
  }

  predicate IsName(name: string) {
    name != "" && IsAlpha(name[0]) && forall i :: 0 <= i < |name| ==> IsNameChar(name[i])
  }

  lemma NameStep(core: Core, name: string, rest: string, st: State)
    requires st.mode == Plain && IsName(name)
    requires rest == "" || !IsNameChar(rest[0])
    ensures NextStep(core, None, ":" + name + rest, st) == Go(BindName(name, st.args, Describe(Nothing)), Plain)
  {
    var s := ":" + name + rest;
    assert s[1..] == name + rest;
    NameLengthOf(name, rest);
    assert (name + rest)[..|name|] == name;
  }

  lemma NameFound(core: Core, args: Option<seq<Value>>, s: string, st: State, seg: Segment, mode: Mode)
    requires NextStep(core, args, s, st) == Go(seg, mode) && seg.kind.ByName?
    ensures st.mode == Plain && mode == Plain && IsName(seg.source[1..]) && seg.source == ":" + seg.source[1..]
    ensures seg == BindName(seg.source[1..], st.args, Describe(Argument(args, st.args)))
    ensures At(s, |seg.source|) == NUL || !IsNameChar(At(s, |seg.source|))
  {
    var name := s[1..][..NameLength(s[1..])];
    assert seg == BindName(name, st.args, Describe(Argument(args, st.args)));
    assert name[0] == s[1];
  }

  lemma NameAgain(core: Core, args: Option<seq<Value>>, again: Core, s: string, st: State, seg: Segment, mode: Mode,
                  rest: string, st2: State)
    requires NextStep(core, args, s, st) == Go(seg, mode) && seg.kind.ByName?
    requires |seg.source| <= |s| && StartsLike(rest, s[|seg.source|..])
    requires st2.mode == st.mode
    ensures var step := NextStep(again, None, seg.target + rest, st2);
      && mode == Plain
      && step.Go? && step.mode == Plain && step.seg.kind == ByName(true) && !Rejected(step.seg)
      && step.seg.target == step.seg.source == seg.target && |step.seg.args| == 1
      && Matches(seg.nodes, step.seg.nodes, st.nodes)
  {
    hide NextStep;
    var name := seg.source[1..];
    NameFound(core, args, s, st, seg, mode);
    NameStep(again, name, rest, st2);
  }

  function AfterName(name: string, st: State): State {
    State(Last(None, name), Plain, st.args + 1, st.nodes + 1)
  }

  lemma GeneratedIsName(number: nat)
    ensures IsName(GeneratedName(number))
  {
    var g := GeneratedName(number);
    assert forall i :: 10 <= i < |g| ==> g[i] == DecimalText(number)[i - 10];
  }

  lemma NameRun(core: Core, name: string, rest: string, st: State)
    requires st.mode == Plain && IsName(name)
    requires rest == "" || !IsNameChar(rest[0])
    ensures Run(core, None, ":" + name + rest, st)
         == Run(core, None, rest, AfterName(name, st)).After(BindName(name, st.args, Describe(Nothing)))
  {
    hide NextStep;
    var s, seg := ":" + name + rest, BindName(name, st.args, Describe(Nothing));
    NameStep(core, name, rest, st);
    assert s[|seg.source|..] == rest;
    assert st.After(seg, Plain) == AfterName(name, st);
  }

  lemma Joined(name: string, word: string, rest: string)
    ensures ":" + (name + word) + rest == ":" + name + (word + rest)
  {
  }

  /** A name in front of a text, and the name characters that happen to follow it, read as one name. */
  lemma ValueAgain(again: Core, name: string, rest: string, st2: State)
    requires st2.mode == Plain && IsName(name)
    requires Run(again, None, rest, AfterName(name, st2)).text == rest
    ensures var r, r2 := Run(again, None, rest, AfterName(name, st2)), Run(again, None, ":" + name + rest, st2);
      && r2.text == ":" + name + rest && r2.rest == r.rest && r2.end == r.end
      && |r2.nodes| > 0 && r2.nodes[1..] == r.nodes
      && r2.nodes[0].PlaceholderNode? && r2.nodes[0].name == name + rest[..NameLength(rest)]
  {
    hide Run, NextStep, NameLength;
    var st', w := AfterName(name, st2), NameLength(rest);
    var word, tail := rest[..w], rest[w..];
    assert rest == word + tail;
    WordAgain(again, word, tail, st');
    NameRun(again, name + word, tail, st2);
    Joined(name, word, tail);
    assert AfterName(name + word, st2) == st'.(prev := Last(st'.prev, word));
    var r := Run(again, None, tail, AfterName(name + word, st2));
    Joined(name, word, r.text);
  }

  /** What a second scan is to find in the result of the scan `r`. */
  ghost predicate FoundAgain(r: Scan, r2: Scan, number: nat) {
    r2.text == r.text && r2.rest == "" && r2.end == Complete && Matches(r.nodes, r2.nodes, number)
  }

  lemma FoundAfter(r: Scan, r2: Scan, seg: Segment, seg2: Segment, number: nat)
    requires FoundAgain(r, r2, number + |seg.nodes|) && seg2.target == seg.target
    requires Matches(seg.nodes, seg2.nodes, number)
    ensures FoundAgain(r.After(seg), r2.After(seg2), number)
  {
  }

  lemma ValueStep(core: Core, args: Option<seq<Value>>, s: string, st: State)
    requires NextStep(core, args, s, st).Go? && NextStep(core, args, s, st).seg.kind == ByValue
    ensures var step := NextStep(core, args, s, st);
      && st.mode == Plain && step.mode == Plain && step.seg.target == ":" + GeneratedName(st.nodes)
      && |step.seg.nodes| == 1 && step.seg.nodes[0].ValueNode?
  {
  }

  lemma NothingToScan(core: Core, args: Option<seq<Value>>, st: State)
    ensures Run(core, args, "", st) == Scan("", [], [], "", Complete)
  {
  }

  lemma SkippedRun(core: Core, args: Option<seq<Value>>, s: string, st: State, seg: Segment, mode: Mode)
    requires NextStep(core, args, s, st) == Go(seg, mode) && !Rejected(seg)
    ensures seg.source <= s
    ensures Run(core, args, s, st) == Run(core, args, s[|seg.source|..], st.After(seg, mode)).After(seg)
  {
    hide NextStep;
  }

  /** Kept text and placeholder names are found again as they are. */
  lemma OtherAgain(core: Core, args: Option<seq<Value>>, again: Core, s: string, st: State, seg: Segment, mode: Mode,
                   rest: string, st2: State) returns (seg2: Segment)
    requires NextStep(core, args, s, st) == Go(seg, mode) && (seg.kind.Kept? || seg.kind.ByName?) && Faithful(seg)
    requires |seg.source| <= |s| && StartsLike(rest, s[|seg.source|..])
    requires st2.prev == st.prev && st2.mode == st.mode
    ensures NextStep(again, None, seg.target + rest, st2) == Go(seg2, mode) && !Rejected(seg2)
    ensures seg2.source == seg2.target == seg.target && Matches(seg.nodes, seg2.nodes, st.nodes)
  {
    hide NextStep;
    if seg.kind.Kept? {
      KeptAgain(core, args, again, s, st, seg, mode, rest, st2);
      seg2 := seg;
    } else {
      NameAgain(core, args, again, s, st, seg, mode, rest, st2);
      seg2 := NextStep(again, None, seg.target + rest, st2).seg;
    }
  }

  lemma AfterAgain(st: State, st2: State, seg: Segment, seg2: Segment, mode: Mode)
    requires st2.prev == st.prev && seg2.target == seg.target
    ensures var st', st2' := st.After(seg, mode), st2.After(seg2, mode); st2'.prev == st'.prev && st2'.mode == st'.mode
  {
  }

  lemma AfterValue(st: State, st2: State, seg: Segment, mode: Mode)
    requires mode == Plain && seg.target == ":" + GeneratedName(st.nodes) && |seg.nodes| == 1
    ensures var st', st2' := st.After(seg, mode), AfterName(GeneratedName(st.nodes), st2);
      st2'.prev == st'.prev && st2'.mode == st'.mode && st'.nodes == st.nodes + 1
  {
  }

  /** Scanning the rewritten text again changes nothing, and finds one placeholder for each node, in order. */
  lemma {:induction false} Rescan(core: Core, args: Option<seq<Value>>, again: Core, s: string, st: State, st2: State)
    requires Clean(Run(core, args, s, st))
    requires st2.prev == st.prev && st2.mode == st.mode
    ensures var r := Run(core, args, s, st);
      FoundAgain(r, Run(again, None, r.text, st2), st.nodes)
    decreases |s|
  {
    hide Run, NextStep, Clean, FoundAgain, Matches, StartsLike, AfterName, GeneratedName;
    if s == "" {
      NothingToScan(core, args, st);
      NothingToScan(again, None, st2);
      EmptyFound(st.nodes);
    } else {
      var seg, mode, s', st' := CleanStep(core, args, s, st);
      var r, r' := Run(core, args, s, st), Run(core, args, s', st');
      RewriteStart(core, args, s', st');
      assert s[|seg.source|..] == s' && r.text == seg.target + r'.text;
      if seg.kind == ByValue {
        ValueStep(core, args, s, st);
        AfterValue(st, st2, seg, mode);
        var st2' := AfterName(GeneratedName(st.nodes), st2);
        Rescan(core, args, again, s', st', st2');
        ValueFound(core, again, r', st2, seg, st.nodes);
      } else {
        var seg2 := OtherAgain(core, args, again, s, st, seg, mode, r'.text, st2);
        AfterAgain(st, st2, seg, seg2, mode);
        Rescan(core, args, again, s', st', st2.After(seg2, mode));
        SkippedRun(again, None, r.text, st2, seg2, mode);
        assert r.text[|seg2.source|..] == r'.text;
        FoundAfter(r', Run(again, None, r'.text, st2.After(seg2, mode)), seg, seg2, st.nodes);
      }
    }
  }

  lemma EmptyFound(number: nat)
    ensures FoundAgain(Scan("", [], [], "", Complete), Scan("", [], [], "", Complete), number)
  {
  }

  lemma ValueFound(core: Core, again: Core, r': Scan, st2: State, seg: Segment, number: nat)
    requires seg.target == ":" + GeneratedName(number) && |seg.nodes| == 1 && seg.nodes[0].ValueNode?
    requires st2.mode == Plain
    requires FoundAgain(r', Run(again, None, r'.text, AfterName(GeneratedName(number), st2)), number + 1)
    ensures FoundAgain(r'.After(seg), Run(again, None, seg.target + r'.text, st2), number)
  {
    hide Run, GeneratedName;
    GeneratedIsName(number);
    ValueAgain(again, GeneratedName(number), r'.text, st2);
    var r2 := Run(again, None, seg.target + r'.text, st2);
    var found := Run(again, None, r'.text, AfterName(GeneratedName(number), st2)).nodes;
    assert r2.nodes == [r2.nodes[0]] + found;
  }

  /** A generated name is found again as it is exactly if no name character follows the marker; otherwise the name
      that is found is longer. */
  lemma GeneratedNameAlone(core: Core, args: Option<seq<Value>>, again: Core, s: string, st: State, st2: State)
    requires Clean(Run(core, args, s, st)) && s != "" && NextStep(core, args, s, st).seg.kind == ByValue
    requires st2.prev == st.prev && st2.mode == st.mode
    ensures var found := Run(again, None, Run(core, args, s, st).text, st2).nodes;
      found != [] && found[0].PlaceholderNode? && (found[0].name == GeneratedName(st.nodes) <==> !IsNameChar(At(s, 2)))
  {
    hide NextStep, GeneratedName;
    var seg, mode, s', st' := CleanStep(core, args, s, st);
    ValueStep(core, args, s, st);
    AfterValue(st, st2, seg, mode);
    var name, rest := GeneratedName(st.nodes), Run(core, args, s', st').text;
    RewriteStart(core, args, s', st');
    Rescan(core, args, again, s', st', AfterName(name, st2));
    GeneratedIsName(st.nodes);
    ValueAgain(again, name, rest, st2);
    FirstCharacter(s', rest);
    assert At(s, 2) == At(s', 0) && Run(core, args, s, st).text == seg.target + rest;
  }

  lemma FirstCharacter(s: string, rest: string)
    requires StartsLike(rest, s)
    ensures NameLength(rest) == 0 <==> !IsNameChar(At(s, 0))
  {
  }

  /** Position k in the rewritten query is the k-th bind node: a scan of the result finds exactly one placeholder
      for each node, in node order, and has nothing left to change. */
  lemma BindPositions(core: Core, args: Option<seq<Value>>, sql: string, number: nat)
    requires Clean(Rewrite(core, args, sql, number))
    ensures var r := Rewrite(core, args, sql, number);
      FoundAgain(r, Rewrite(core, None, r.text, number), number)
  {
    var st := State(None, Plain, 0, number);
    Rescan(core, args, core, sql, st, st);
  }

  /** Different nodes have different generated names. */
  lemma GeneratedNamesDiffer(m: nat, n: nat)
    requires GeneratedName(m) == GeneratedName(n)
    ensures m == n
  {
    assert DecimalText(m) == GeneratedName(m)[10..] && DecimalText(n) == GeneratedName(n)[10..];
    DecimalTextInjective(m, n);
  }

  /** An argument describes a placeholder if and only if it is nothing, an integer, a text, or a hash with the name of a
      type or, without one, a value; an integer is the size in bytes, and nothing else but a hash without a value has
      one. */
  lemma Described(v: Value)
    ensures Describe(v) == None <==>
      v.Other? || (v.Description? && !v.typ.Text? && !(v.typ.Nothing? && !v.inner.Nothing?))
    ensures Describe(v).Some? && Describe(v).value.size != -1 ==>
      v.Int? || (v.Description? && v.inner.Nothing? && v.size.Int?)
    ensures v.Int? && -0x8000_0000 <= v.n < 0x8000_0000 ==> Describe(v).Some? && Describe(v).value.size == v.n
    ensures v.Text? ==> Describe(v).Some? && Describe(v).value.typ == v.s
    ensures v.Int? || v.Nothing? ==> Describe(v).Some? && Describe(v).value.typ == "string"
    ensures v.Description? && v.typ.Text? ==> Describe(v).value.typ == v.typ.s
    ensures v.Description? && v.typ.Nothing? && Describe(v).Some? ==> Describe(v).value.typ == v.inner.TypeName()
    ensures v.Description? && Describe(v).Some? ==> Describe(v).value.value == v.inner
  {
  }

  /* ---- Escaped markers ---- */

  predicate StartsWithEscape(s: string) {
    At(s, 0) == '\\' && At(s, 1) in ":%"
  }

  /** In plain text, `c` between `before` and `after` is a character by itself that leaves plain text plain. */
  predicate StandsAlone(before: char, c: char, after: char) {
    && c != NUL && !IsQuote(c)
    && !(c == '-' && after == '-') && !(c == '/' && after == '*')
    && !(c == '%' && !IsAlnum(before)) && !(c == ':' && IsAlpha(after))
    && !(c == '\\' && after in ":%")
  }

  /** The two characters behind an escaped one are kept, and leave the same mode, if they are looked at too. */
  ghost predicate SkipAgrees(core: Core, args: Option<seq<Value>>, s: string, st: State) {
    && |s| >= 4
    && NextStep(core, args, s[2..], st.(prev := Some(s[1]))) == Go(Keep([s[2]], Plain), Plain)
    && NextStep(core, args, s[3..], st.(prev := Some(s[2])))
       == Go(Keep([s[3]], Plain), if IsQuote(s[3]) then Quoted(s[3]) else Plain)
  }

  /** Passing over two characters behind an escaped one is harmless exactly if they are there, the first one
      stands alone and the second one stands alone or is a quote. */
  lemma EscapeSkip(core: Core, args: Option<seq<Value>>, s: string, st: State)
    requires st.mode == Plain && StartsWithEscape(s)
    ensures SkipAgrees(core, args, s, st) <==>
      && |s| >= 4 && StandsAlone(s[1], s[2], s[3])
      && (IsQuote(s[3]) || StandsAlone(s[2], s[3], At(s, 4)))
    ensures NextStep(core, args, s, st) == Stop(Overrun) <==> |s| < 4
  {
    if |s| >= 4 {
      OneAlone(core, args, s[2..], st.(prev := Some(s[1])), s[1]);
      OneAlone(core, args, s[3..], st.(prev := Some(s[2])), s[2]);
      assert At(s[3..], 1) == At(s, 4);
    }
  }

  lemma OneAlone(core: Core, args: Option<seq<Value>>, s: string, st: State, before: char)
    requires s != "" && st.mode == Plain && st.prev == Some(before)
    ensures NextStep(core, args, s, st) == Go(Keep([s[0]], Plain), Plain) <==> StandsAlone(before, s[0], At(s, 1))
    ensures IsQuote(s[0]) ==> NextStep(core, args, s, st) == Go(Keep([s[0]], Plain), Quoted(s[0]))
  {
    assert s[..1] == [s[0]];
  }

  lemma EscapeStep(core: Core, args: Option<seq<Value>>, s: string, st: State)
    requires st.mode == Plain && StartsWithEscape(s) && |s| >= 4
    ensures NextStep(core, args, s, st) == Go(Unescape(s[1..4]), if IsQuote(s[3]) then Quoted(s[3]) else Plain)
  {
  }

  /** Where the skip is harmless, an escaped character is kept and the scan resumes right behind it. */
  lemma EscapeResumes(core: Core, args: Option<seq<Value>>, s: string, st: State)
    requires st.mode == Plain && StartsWithEscape(s) && SkipAgrees(core, args, s, st)
    ensures var r, r' := Run(core, args, s, st), Run(core, args, s[2..], st.(prev := Some(s[1])));
      r.text == [s[1]] + r'.text && r.nodes == r'.nodes && r.end == r'.end && r.rest == r'.rest
  {
    hide NextStep, Run;
    var st2, st3 := st.(prev := Some(s[1])), st.(prev := Some(s[2]));
    var seg, mode := Unescape(s[1..4]), if IsQuote(s[3]) then Quoted(s[3]) else Plain;
    EscapeStep(core, args, s, st);
    SkippedRun(core, args, s, st, seg, mode);
    SkippedRun(core, args, s[2..], st2, Keep([s[2]], Plain), Plain);
    SkippedRun(core, args, s[3..], st3, Keep([s[3]], Plain), mode);
    assert s[2..][1..] == s[3..] && s[3..][1..] == s[4..];
    assert seg.target == [s[1]] + [s[2]] + [s[3]];
  }

  /** A marker in the second place behind an escaped character is not found. */
  lemma EscapeHidesMarker(core: Core)
    ensures var sql := "\\: %v";
      && Rewrite(core, None, sql, 0).nodes == []
      && Run(core, None, sql[2..], State(Some(':'), Plain, 0, 0)).nodes == [ValueNode(Nothing)]
  {
    hide Run, NextStep;
    MarkerPassed(core, State(None, Plain, 0, 0));
    MarkerFound(core, State(Some(':'), Plain, 0, 0));
    assert "\\: %v"[2..] == " %v";
  }

  lemma MarkerPassed(core: Core, st: State)
    requires st.mode == Plain
    ensures Run(core, None, "\\: %v", st).nodes == []
  {
    hide Run;
    var seg := Unescape(": %");
    assert "\\: %v"[1..4] == ": %" && At("\\: %v", 1) == ':';
    EscapeStep(core, None, "\\: %v", st);
    SkippedRun(core, None, "\\: %v", st, seg, Plain);
    assert "\\: %v"[|seg.source|..] == "v" && "v"[1..] == "";
    var st1 := st.After(seg, Plain);
    SkippedRun(core, None, "v", st1, Keep("v", Plain), Plain);
    NothingToScan(core, None, st1.After(Keep("v", Plain), Plain));
  }

  lemma MarkerFound(core: Core, st: State)
    requires st.mode == Plain
    ensures Run(core, None, " %v", st).nodes == [ValueNode(Nothing)]
  {
    hide Run;
    SkippedRun(core, None, " %v", st, Keep(" ", Plain), Plain);
    assert " %v"[1..] == "%v" && "%v"[2..] == "";
    var st1 := st.After(Keep(" ", Plain), Plain);
    var seg := BindValue(st1.nodes, st1.args, Nothing);
    SkippedRun(core, None, "%v", st1, seg, Plain);
    NothingToScan(core, None, st1.After(seg, Plain));
  }
}
