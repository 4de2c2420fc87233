/** When a query is rewritten to its end, and what it becomes: the rewrite of queries without escapes, character by
    character and independent of the steps of the scanner. */
module ParseQueryOutcome {
  import opened Chars
  import opened ParseQuery
  import opened ParseQueryLaws
  import opened Wrappers

  /** The length of the text as a NUL-terminated string. */
  function CLength(s: string): (n: nat)
    ensures n <= |s| && (forall i :: 0 <= i < n ==> s[i] != NUL) && (n < |s| ==> s[n] == NUL)
  {
    if s == "" || s[0] == NUL then 0 else 1 + CLength(s[1..])
  }

  /** The lexer reads the character as plain text. */
  predicate Plainly(sql: string, i: nat) {
    i < |sql| && Lex(sql, Plain)[i] == Plain
  }

  /** No plain backslash stands in front of a colon or a percent sign. */
  predicate EscapeFree(sql: string) {
    forall i :: 0 <= i < CLength(sql) && Plainly(sql, i) && sql[i] == '\\' ==> At(sql, i + 1) !in ":%"
  }

  /** What the characters up to a position become: the text and the bind nodes so far, the number of arguments taken,
      and whether the next character is the second one of a marker. */
  datatype Reading = Reading(text: string, nodes: seq<Node>, taken: nat, inMarker: bool)

  /** A plain percent sign is a marker unless a letter or a digit stands in front of it in the rewritten text. */
  predicate IsMarker(sql: string, r: Reading, i: nat) {
    !r.inMarker && Plainly(sql, i) && sql[i] == '%' && !(r.text != "" && IsAlnum(r.text[|r.text| - 1]))
  }

  /** A plain colon in front of a letter is a placeholder. */
  predicate IsPlaceholder(sql: string, i: nat) {
    Plainly(sql, i) && sql[i] == ':' && IsAlpha(At(sql, i + 1))
  }

  /** The name behind a colon: the longest run of name characters. */
  function NameAt(sql: string, i: nat): string
    requires i < |sql|
  {
    sql[i + 1..][..NameLength(sql[i + 1..])]
  }

  /** What a marker becomes, by the character behind the percent sign. */
  function MarkerText(core: Core, c: char, v: Value, number: nat): string {
    if c == 'd' then core.numeric(v)
    else if c == 's' then
      match core.text(v)
      case None => ""
      case Some(text) => text
    else ":" + GeneratedName(number)
  }

  function Read(core: Core, args: Option<seq<Value>>, sql: string, number: nat, r: Reading, i: nat): Reading
    requires i < |sql|
  {
    var v, c := Argument(args, r.taken), At(sql, i + 1);
    if r.inMarker then r.(inMarker := false)
    else if IsMarker(sql, r, i) then
      Reading(r.text + MarkerText(core, c, v, number + |r.nodes|), r.nodes + if c == 'v' then [ValueNode(v)] else [],
              r.taken + 1, true)
    else if IsPlaceholder(sql, i) then
      Reading(r.text + ":", r.nodes + [PlaceholderNode(NameAt(sql, i), Describe(v))], r.taken + 1, false)
    else r.(text := r.text + [sql[i]])
  }

  /** What the first `i` characters become. */
  function Reads(core: Core, args: Option<seq<Value>>, sql: string, number: nat, i: nat): Reading
    requires i <= |sql|
  {
    if i == 0 then Reading("", [], 0, false)
    else Read(core, args, sql, number, Reads(core, args, sql, number, i - 1), i - 1)
  }

  /** A marker is "%d", a "%s" whose argument has a text, or a "%v" without a letter behind it; and the argument of a
      placeholder describes it. */
  predicate Acceptable(core: Core, args: Option<seq<Value>>, sql: string, r: Reading, i: nat) {
    var v, c := Argument(args, r.taken), At(sql, i + 1);
    && (IsMarker(sql, r, i) ==>
          c == 'd' || (c == 's' && core.text(v).Some?) || (c == 'v' && !IsAlpha(At(sql, i + 2))))
    && (IsPlaceholder(sql, i) ==> Describe(v).Some?)
  }

  /** Why a character is not acceptable. */
  function Reason(sql: string, r: Reading, i: nat): Outcome {
    var c := At(sql, i + 1);
    if IsPlaceholder(sql, i) then BadPlaceholder
    else if c == 's' then BadText
    else BadMarker(if c == 'v' then At(sql, i + 2) else c)
  }

  ghost predicate AllAcceptable(core: Core, args: Option<seq<Value>>, sql: string, number: nat, from: nat, to: nat)
    requires to <= |sql|
  {
    forall i :: from <= i < to ==> Acceptable(core, args, sql, Reads(core, args, sql, number, i), i)
  }

  /** The first character from a position on that is not acceptable. */
  ghost predicate FirstFailure(core: Core, args: Option<seq<Value>>, sql: string, number: nat, from: nat, f: nat)
    requires f < |sql|
  {
    && AllAcceptable(core, args, sql, number, from, f)
    && !Acceptable(core, args, sql, Reads(core, args, sql, number, f), f)
  }

  /** The scan reads the text to its end. */
  ghost predicate Completes(core: Core, args: Option<seq<Value>>, sql: string, number: nat, before: Reading,
                            run: Scan)
  {
    var n := CLength(sql);
    var r := Reads(core, args, sql, number, n);
    run.end == Complete && before.text + run.text == r.text + sql[n..] && before.nodes + run.nodes == r.nodes
  }

  /** The scan ends at a character, and leaves the text from there on as it is. */
  ghost predicate FailsAt(core: Core, args: Option<seq<Value>>, sql: string, number: nat, before: Reading, run: Scan,
                          f: nat)
    requires f < |sql|
  {
    var r := Reads(core, args, sql, number, f);
    && run.end == Reason(sql, r, f) && before.text + run.text == r.text + sql[f..]
    && before.nodes + run.nodes == r.nodes +
         if IsPlaceholder(sql, f) then [PlaceholderNode(NameAt(sql, f), None)] else []
  }

  /** What is to be shown of the scan from a position on. */
  ghost predicate AsRead(core: Core, args: Option<seq<Value>>, sql: string, number: nat, p: nat, before: Reading,
                         run: Scan)
  {
    var n := CLength(sql);
    && (AllAcceptable(core, args, sql, number, p, n) ==> Completes(core, args, sql, number, before, run))
    && forall f :: p <= f < n && FirstFailure(core, args, sql, number, p, f) ==>
         FailsAt(core, args, sql, number, before, run, f)
  }

  /** The scanner stands at a position with what the characters before it have become. */
  ghost predicate Stands(core: Core, args: Option<seq<Value>>, sql: string, number: nat, p: nat, st: State) {
    && p <= CLength(sql) && Lex(sql, Plain)[p..] == Lex(sql[p..], st.mode)
    && var r := Reads(core, args, sql, number, p);
      !r.inMarker && st.prev == Last(None, r.text) && st.args == r.taken && st.nodes == number + |r.nodes|
  }

  /** What a piece has become when the scanner stands behind it. */
  ghost predicate Passed(core: Core, args: Option<seq<Value>>, sql: string, number: nat, p: nat, seg: Segment) {
    var q := p + |seg.source|;
    && q <= CLength(sql) && AllAcceptable(core, args, sql, number, p, q)
    && var r := Reads(core, args, sql, number, p);
      Reads(core, args, sql, number, q)
      == Reading(r.text + seg.target, r.nodes + seg.nodes, r.taken + |seg.args|, false)
  }

  lemma AtShifted(sql: string, p: nat, i: nat)
    requires p <= |sql|
    ensures At(sql[p..], i) == At(sql, p + i)
  {
  }

  /** Where the scanner stands, the first character is plain text if the lexer reads it so in the scanner's mode. */
  lemma PlainHere(sql: string, p: nat, mode: Mode)
    requires p < |sql| && Lex(sql, Plain)[p..] == Lex(sql[p..], mode)
    ensures Plainly(sql, p) <==> Lex(sql[p..], mode)[0] == Plain
  {
    assert Lex(sql, Plain)[p] == Lex(sql, Plain)[p..][0];
  }

  /** A character that starts no marker and no placeholder is kept. */
  lemma OneKept(core: Core, args: Option<seq<Value>>, sql: string, number: nat, p: nat)
    requires p < |sql| && !Reads(core, args, sql, number, p).inMarker
    requires !IsMarker(sql, Reads(core, args, sql, number, p), p) && !IsPlaceholder(sql, p)
    ensures var r := Reads(core, args, sql, number, p);
      && Acceptable(core, args, sql, r, p)
      && Reads(core, args, sql, number, p + 1) == r.(text := r.text + [sql[p]])
  {
    hide Lex;
  }

  /** A piece of kept text is one character, or the two that open or close a comment. */
  lemma KeptText(core: Core, args: Option<seq<Value>>, s: string, st: State, seg: Segment, mode: Mode)
    requires NextStep(core, args, s, st) == Go(seg, mode) && seg.kind.Kept?
    ensures s != "" && seg.target == seg.source && seg.nodes == [] && seg.args == []
    ensures seg.source == s[..1]
      || (|s| > 1 && seg.source == s[..2] && s[1] != NUL && seg.kind.mode in {LineComment, BlockComment})
    ensures seg.kind.mode == Plain ==>
      !(s[0] == '%' && !(st.prev.Some? && IsAlnum(st.prev.value))) && !(s[0] == ':' && IsAlpha(At(s, 1)))
  {
  }

  /** The lexer reads a first character as plain text in plain text only, and the second one of a piece of kept text
      never. */
  lemma KeptShape(core: Core, args: Option<seq<Value>>, s: string, st: State, seg: Segment, mode: Mode)
    requires NextStep(core, args, s, st) == Go(seg, mode) && seg.kind.Kept?
    ensures s != "" && seg.target == seg.source && seg.nodes == [] && seg.args == []
    ensures seg.source == s[..1] || (|s| > 1 && seg.source == s[..2] && s[1] != NUL && Lex(s, st.mode)[1] != Plain)
    ensures Lex(s, st.mode)[0] == Plain ==>
      !(s[0] == '%' && !(st.prev.Some? && IsAlnum(st.prev.value))) && !(s[0] == ':' && IsAlpha(At(s, 1)))
  {
    hide NextStep, Lex;
    KeptText(core, args, s, st, seg, mode);
    StepLex(core, args, s, st);
    assert Lex(s, st.mode)[0] == SegmentModes(seg)[0];
    if |seg.source| == 2 {
      assert Lex(s, st.mode)[1] == SegmentModes(seg)[1];
    }
  }

  lemma KeptHere(core: Core, args: Option<seq<Value>>, sql: string, number: nat, p: nat, st: State, seg: Segment,
                 mode: Mode)
    requires Stands(core, args, sql, number, p, st) && p < CLength(sql)
    requires NextStep(core, args, sql[p..], st) == Go(seg, mode) && seg.kind.Kept?
    ensures !IsMarker(sql, Reads(core, args, sql, number, p), p) && !IsPlaceholder(sql, p)
    ensures seg.target == seg.source && seg.nodes == [] && seg.args == []
    ensures seg.source == [sql[p]]
      || (p + 2 <= CLength(sql) && seg.source == [sql[p]] + [sql[p + 1]] && !Plainly(sql, p + 1))
  {
    hide NextStep, Reads, Lex;
    var s := sql[p..];
    KeptShape(core, args, s, st, seg, mode);
    assert s[0] == sql[p] && At(s, 1) == At(sql, p + 1);
    assert Lex(sql, Plain)[p] == Lex(sql, Plain)[p..][0];
    if |s| > 1 {
      assert s[1] == sql[p + 1] && Lex(sql, Plain)[p + 1] == Lex(sql, Plain)[p..][1];
    }
  }

  lemma NotPlainKept(core: Core, args: Option<seq<Value>>, sql: string, number: nat, p: nat)
    requires p < |sql| && !Reads(core, args, sql, number, p).inMarker && !Plainly(sql, p)
    ensures var r := Reads(core, args, sql, number, p);
      && Acceptable(core, args, sql, r, p)
      && Reads(core, args, sql, number, p + 1) == r.(text := r.text + [sql[p]])
  {
    hide Lex, Plainly, Reads;
    OneKept(core, args, sql, number, p);
  }

  lemma CharactersPassed(core: Core, args: Option<seq<Value>>, sql: string, number: nat, p: nat, seg: Segment)
    requires 1 <= |seg.source| <= 2 && p + |seg.source| <= CLength(sql) && seg.source == sql[p..p + |seg.source|]
    requires seg.target == seg.source && seg.nodes == [] && seg.args == []
      && !Reads(core, args, sql, number, p).inMarker
    requires forall q :: p <= q < p + |seg.source| ==>
      && Acceptable(core, args, sql, Reads(core, args, sql, number, q), q)
      && var r := Reads(core, args, sql, number, q);
        Reads(core, args, sql, number, q + 1) == r.(text := r.text + [sql[q]])
    ensures Passed(core, args, sql, number, p, seg)
  {
    hide Reads, Acceptable, CLength;
    var r := Reads(core, args, sql, number, p);
    if |seg.source| == 2 {
      assert seg.source == [sql[p]] + [sql[p + 1]];
      assert r.text + [sql[p]] + [sql[p + 1]] == r.text + seg.source;
    } else {
      assert seg.source == [sql[p]];
    }
  }

  lemma KeptPassed(core: Core, args: Option<seq<Value>>, sql: string, number: nat, p: nat, st: State, seg: Segment,
                   mode: Mode)
    requires Stands(core, args, sql, number, p, st) && p < CLength(sql)
    requires NextStep(core, args, sql[p..], st) == Go(seg, mode) && seg.kind.Kept?
    ensures Passed(core, args, sql, number, p, seg)
  {
    hide NextStep, Lex, Reads, Acceptable, IsMarker, IsPlaceholder, Plainly, Passed, CLength;
    KeptHere(core, args, sql, number, p, st, seg, mode);
    OneKept(core, args, sql, number, p);
    if |seg.source| == 2 {
      NotPlainKept(core, args, sql, number, p + 1);
    }
    CharactersPassed(core, args, sql, number, p, seg);
  }

  /* ---- Markers ---- */

  lemma MarkerShape(core: Core, args: Option<seq<Value>>, s: string, st: State)
    requires st.mode == Plain && s != "" && s[0] == '%' && !(st.prev.Some? && IsAlnum(st.prev.value))
    ensures Lex(s, Plain)[0] == Plain
    ensures var v, c, step := Argument(args, st.args), At(s, 1), NextStep(core, args, s, st);
      && (step.Go? <==> c == 'd' || (c == 's' && core.text(v).Some?) || (c == 'v' && !IsAlpha(At(s, 2))))
      && (step.Go? ==>
            && step.mode == Plain && step.seg.source == ['%', c] && !step.seg.kind.Kept? && !Rejected(step.seg)
            && |step.seg.args| == 1 && step.seg.target == MarkerText(core, c, v, st.nodes)
            && step.seg.nodes == if c == 'v' then [ValueNode(v)] else [])
      && (step.Stop? ==> step.end == if c == 's' then BadText else BadMarker(if c == 'v' then At(s, 2) else c))
  {
  }

  lemma MarkerHere(core: Core, args: Option<seq<Value>>, sql: string, number: nat, p: nat, st: State)
    requires Stands(core, args, sql, number, p, st) && p < CLength(sql)
    requires st.mode == Plain && sql[p] == '%' && !(st.prev.Some? && IsAlnum(st.prev.value))
    ensures var r, step := Reads(core, args, sql, number, p), NextStep(core, args, sql[p..], st);
      && IsMarker(sql, r, p) && !IsPlaceholder(sql, p)
      && if step.Go? then
           step.mode == Plain && !step.seg.kind.Kept? && !Rejected(step.seg)
             && Passed(core, args, sql, number, p, step.seg)
         else !Acceptable(core, args, sql, r, p) && step.end == Reason(sql, r, p)
  {
    hide NextStep, Reads, Lex, MarkerText, CLength, Argument, Describe;
    var s := sql[p..];
    MarkerShape(core, args, s, st);
    PlainHere(sql, p, st.mode);
    AtShifted(sql, p, 0);
    AtShifted(sql, p, 1);
    AtShifted(sql, p, 2);
    if NextStep(core, args, s, st).Go? {
      MarkerRead(core, args, sql, number, p);
    }
  }

  lemma MarkerRead(core: Core, args: Option<seq<Value>>, sql: string, number: nat, p: nat)
    requires p + 1 < |sql| && IsMarker(sql, Reads(core, args, sql, number, p), p) && sql[p + 1] != ':'
    ensures var r, c := Reads(core, args, sql, number, p), sql[p + 1];
      var v := Argument(args, r.taken);
      && Reads(core, args, sql, number, p + 2) ==
           Reading(r.text + MarkerText(core, c, v, number + |r.nodes|),
                   r.nodes + (if c == 'v' then [ValueNode(v)] else []), r.taken + 1, false)
      && Acceptable(core, args, sql, Reads(core, args, sql, number, p + 1), p + 1)
  {
    hide Lex, MarkerText;
    assert Reads(core, args, sql, number, p + 1).inMarker;
  }

  /* ---- Placeholders ---- */

  lemma NameShape(core: Core, args: Option<seq<Value>>, s: string, st: State)
    requires st.mode == Plain && s != "" && s[0] == ':' && IsAlpha(At(s, 1))
    ensures var v := Argument(args, st.args);
      && Lex(s, Plain)[0] == Plain
      && NextStep(core, args, s, st) == Go(BindName(s[1..][..NameLength(s[1..])], st.args, Describe(v)), Plain)
  {
  }

  /** A colon in front of a name becomes a node. */
  lemma ColonRead(core: Core, args: Option<seq<Value>>, sql: string, number: nat, p: nat)
    requires p < |sql| && !Reads(core, args, sql, number, p).inMarker
    requires !IsMarker(sql, Reads(core, args, sql, number, p), p) && IsPlaceholder(sql, p)
    ensures var r := Reads(core, args, sql, number, p);
      Reads(core, args, sql, number, p + 1) ==
        Reading(r.text + ":", r.nodes + [PlaceholderNode(NameAt(sql, p), Describe(Argument(args, r.taken)))],
                r.taken + 1, false)
  {
    hide Lex, NameAt, IsMarker, IsPlaceholder, Describe, Argument;
  }

  /** The characters of a name are kept. */
  lemma {:induction false} NameRead(core: Core, args: Option<seq<Value>>, sql: string, number: nat, p: nat, i: nat)
    requires p < |sql| && !Reads(core, args, sql, number, p + 1).inMarker && i <= |NameAt(sql, p)|
    ensures var r := Reads(core, args, sql, number, p + 1);
      Reads(core, args, sql, number, p + 1 + i) == r.(text := r.text + NameAt(sql, p)[..i])
    ensures AllAcceptable(core, args, sql, number, p + 1, p + 1 + i)
  {
    hide Lex, Reads, Acceptable;
    var r := Reads(core, args, sql, number, p + 1);
    if i == 0 {
      assert r.text + NameAt(sql, p)[..0] == r.text;
    } else {
      NameRead(core, args, sql, number, p, i - 1);
      var name, q := NameAt(sql, p), p + i;
      NameCharacter(sql, p, i - 1);
      hide NameAt;
      OneKept(core, args, sql, number, q);
      assert r.text + name[..i] == r.text + name[..i - 1] + [sql[q]];
    }
  }

  lemma NameCharacter(sql: string, p: nat, i: nat)
    requires p < |sql| && i < |NameAt(sql, p)|
    ensures p + 1 + i < |sql| && NameAt(sql, p)[i] == sql[p + 1 + i] && IsNameChar(sql[p + 1 + i])
    ensures sql[p + 1 + i] !in "%:"
  {
    hide NameLength;
    assert NameAt(sql, p)[i] == sql[p + 1..][i];
  }

  lemma NamePassed(core: Core, args: Option<seq<Value>>, sql: string, number: nat, p: nat, arg: nat)
    requires p < CLength(sql) && !Reads(core, args, sql, number, p).inMarker
    requires !IsMarker(sql, Reads(core, args, sql, number, p), p) && IsPlaceholder(sql, p)
    ensures var r, name := Reads(core, args, sql, number, p), NameAt(sql, p);
      var d := Describe(Argument(args, r.taken));
      && p + 1 + |name| <= CLength(sql) && sql[p..] == ":" + name + sql[p + 1 + |name|..]
      && if d.Some? then Passed(core, args, sql, number, p, BindName(name, arg, d))
         else !Acceptable(core, args, sql, r, p) && Reason(sql, r, p) == BadPlaceholder
  {
    hide Reads, Lex, IsMarker, Plainly, Describe, Argument, CLength;
    var r, name := Reads(core, args, sql, number, p), NameAt(sql, p);
    ColonRead(core, args, sql, number, p);
    NameRead(core, args, sql, number, p, |name|);
    NameInside(sql, p);
    NameCopied(sql, p);
    hide NameAt;
    assert name[..|name|] == name;
    assert r.text + ":" + name == r.text + (":" + name);
  }

  lemma NameCopied(sql: string, p: nat)
    requires p < |sql| && sql[p] == ':'
    ensures var name := NameAt(sql, p);
      p + 1 + |name| <= |sql| && sql[p..] == ":" + name + sql[p + 1 + |name|..]
  {
    hide NameLength;
    var name := NameAt(sql, p);
    assert name == sql[p + 1..p + 1 + |name|];
  }

  lemma NameHere(core: Core, args: Option<seq<Value>>, sql: string, number: nat, p: nat, st: State)
    requires Stands(core, args, sql, number, p, st) && p < CLength(sql)
    requires st.mode == Plain && sql[p] == ':' && IsAlpha(At(sql, p + 1))
    ensures var r, name := Reads(core, args, sql, number, p), NameAt(sql, p);
      var d := Describe(Argument(args, r.taken));
      var seg := BindName(name, st.args, d);
      && IsPlaceholder(sql, p) && !IsMarker(sql, r, p)
      && NextStep(core, args, sql[p..], st) == Go(seg, Plain)
      && p + 1 + |name| <= CLength(sql) && sql[p..] == seg.source + sql[p + 1 + |name|..]
      && if d.Some? then Passed(core, args, sql, number, p, seg)
         else !Acceptable(core, args, sql, r, p) && Reason(sql, r, p) == BadPlaceholder
  {
    hide NextStep, Reads, Lex, NameLength, Describe, Argument, Passed, Acceptable;
    var s := sql[p..];
    NameShape(core, args, s, st);
    PlainHere(sql, p, st.mode);
    AtShifted(sql, p, 0);
    AtShifted(sql, p, 1);
    assert s[1..] == sql[p + 1..];
    NamePassed(core, args, sql, number, p, st.args);
  }

  lemma NameInside(sql: string, p: nat)
    requires p < CLength(sql)
    ensures p + 1 + |NameAt(sql, p)| <= CLength(sql)
  {
    var n, name := CLength(sql), NameAt(sql, p);
    forall q | p + 1 <= q < p + 1 + |name| ensures q < |sql| && sql[q] != NUL {
      NameCharacter(sql, p, q - p - 1);
    }
  }

  /* ---- The whole scan ---- */

  /** In plain text, what is neither kept nor an escape is a marker or a placeholder. */
  lemma PlainKinds(core: Core, args: Option<seq<Value>>, s: string, st: State)
    requires s != "" && s[0] != NUL
    ensures var step := NextStep(core, args, s, st);
      (step.Go? && step.seg.kind.Kept?)
      || (st.mode == Plain && s[0] == '%' && !(st.prev.Some? && IsAlnum(st.prev.value)))
      || (st.mode == Plain && s[0] == ':' && IsAlpha(At(s, 1)))
      || (st.mode == Plain && s[0] == '\\' && At(s, 1) in ":%" && Lex(s, Plain)[0] == Plain)
  {
  }

  /** The next step passes a piece, or it ends the scan at a character that is not acceptable. */
  lemma StepHere(core: Core, args: Option<seq<Value>>, sql: string, number: nat, p: nat, st: State)
    requires EscapeFree(sql) && Stands(core, args, sql, number, p, st) && p < CLength(sql)
    ensures var r, step := Reads(core, args, sql, number, p), NextStep(core, args, sql[p..], st);
      if step.Go? && !Rejected(step.seg) then Passed(core, args, sql, number, p, step.seg) && step.seg.kind != Unescaped
      else
        && !Acceptable(core, args, sql, r, p) && step != Stop(Overrun)
        && Reason(sql, r, p) == (if step.Go? then BadPlaceholder else step.end) && (IsPlaceholder(sql, p) <==> step.Go?)
        && (step.Go? ==> step.seg == BindName(NameAt(sql, p), st.args, None) && step.seg.source <= sql[p..])
  {
    var s := sql[p..];
    var step := NextStep(core, args, s, st);
    PlainKinds(core, args, s, st);
    PlainHere(sql, p, st.mode);
    AtShifted(sql, p, 0);
    AtShifted(sql, p, 1);
    hide NextStep, Lex, Reads, CLength, NameAt, Passed, Acceptable, Describe, Argument;
    if step.Go? && step.seg.kind.Kept? {
      KeptPassed(core, args, sql, number, p, st, step.seg, step.mode);
    } else if sql[p] == '%' {
      MarkerHere(core, args, sql, number, p, st);
    } else {
      NameHere(core, args, sql, number, p, st);
    }
  }

  /** Behind a piece the scanner stands again. */
  lemma StandsAgain(core: Core, args: Option<seq<Value>>, sql: string, number: nat, p: nat, st: State, seg: Segment,
                    mode: Mode)
    requires Stands(core, args, sql, number, p, st) && NextStep(core, args, sql[p..], st) == Go(seg, mode)
    requires seg.kind != Unescaped && Passed(core, args, sql, number, p, seg)
    ensures Stands(core, args, sql, number, p + |seg.source|, st.After(seg, mode))
    ensures sql[p..][|seg.source|..] == sql[p + |seg.source|..]
  {
    hide NextStep, Lex, Reads, Acceptable;
    StepLex(core, args, sql[p..], st);
    var q := p + |seg.source|;
    assert sql[p..][|seg.source|..] == sql[q..];
    assert Lex(sql, Plain)[q..] == Lex(sql, Plain)[p..][|seg.source|..];
  }

  lemma AtEnd(core: Core, args: Option<seq<Value>>, sql: string, number: nat, st: State)
    requires Stands(core, args, sql, number, CLength(sql), st)
    ensures var n := CLength(sql);
      AsRead(core, args, sql, number, n, Reads(core, args, sql, number, n), Run(core, args, sql[n..], st))
  {
    hide Lex, Reads, Acceptable;
    AtShifted(sql, CLength(sql), 0);
  }

  /** A scan that ends here. */
  lemma EndsHere(core: Core, args: Option<seq<Value>>, sql: string, number: nat, p: nat, st: State)
    requires p < CLength(sql) && Stands(core, args, sql, number, p, st)
    requires var r, step := Reads(core, args, sql, number, p), NextStep(core, args, sql[p..], st);
      && !Acceptable(core, args, sql, r, p) && step != Stop(Overrun) && (step.Go? ==> Rejected(step.seg))
      && Reason(sql, r, p) == (if step.Go? then BadPlaceholder else step.end) && (IsPlaceholder(sql, p) <==> step.Go?)
      && (step.Go? ==> step.seg == BindName(NameAt(sql, p), st.args, None) && step.seg.source <= sql[p..])
    ensures AsRead(core, args, sql, number, p, Reads(core, args, sql, number, p), Run(core, args, sql[p..], st))
  {
    hide NextStep, Lex, Reads, Acceptable, IsPlaceholder, IsMarker, Reason, NameAt;
    var s, step := sql[p..], NextStep(core, args, sql[p..], st);
    if step.Go? {
      assert s == step.seg.source + s[|step.seg.source|..];
    }
    hide Stands;
  }

  /** A piece in front of a scan. */
  lemma PieceBefore(core: Core, args: Option<seq<Value>>, sql: string, number: nat, p: nat, seg: Segment, run: Scan)
    requires Passed(core, args, sql, number, p, seg)
    requires AsRead(core, args, sql, number, p + |seg.source|, Reads(core, args, sql, number, p + |seg.source|), run)
    ensures AsRead(core, args, sql, number, p, Reads(core, args, sql, number, p), run.After(seg))
  {
    hide Reads, Acceptable, Reason, IsPlaceholder, NameAt;
    var r := Reads(core, args, sql, number, p);
    assert r.text + (seg.target + run.text) == (r.text + seg.target) + run.text;
    assert r.nodes + (seg.nodes + run.nodes) == (r.nodes + seg.nodes) + run.nodes;
    var n, q := CLength(sql), p + |seg.source|;
    assert AllAcceptable(core, args, sql, number, p, n) ==> AllAcceptable(core, args, sql, number, q, n);
    forall f | p <= f < n && FirstFailure(core, args, sql, number, p, f)
      ensures q <= f && FirstFailure(core, args, sql, number, q, f)
    {
    }
  }

  lemma {:induction false} Follows(core: Core, args: Option<seq<Value>>, sql: string, number: nat, p: nat, st: State)
    requires EscapeFree(sql) && Stands(core, args, sql, number, p, st)
    ensures AsRead(core, args, sql, number, p, Reads(core, args, sql, number, p), Run(core, args, sql[p..], st))
    decreases |sql| - p
  {
    hide EscapeFree, Reads, NextStep, Acceptable, AsRead, Lex, NameAt, Reason, IsPlaceholder, Passed, Run;
    if p == CLength(sql) {
      AtEnd(core, args, sql, number, st);
    } else {
      StepHere(core, args, sql, number, p, st);
      var step := NextStep(core, args, sql[p..], st);
      if step.Go? && !Rejected(step.seg) {
        var seg, st' := step.seg, st.After(step.seg, step.mode);
        var q := p + |seg.source|;
        StandsAgain(core, args, sql, number, p, st, seg, step.mode);
        SkippedRun(core, args, sql[p..], st, seg, step.mode);
        Follows(core, args, sql, number, q, st');
        PieceBefore(core, args, sql, number, p, seg, Run(core, args, sql[q..], st'));
      } else {
        EndsHere(core, args, sql, number, p, st);
      }
    }
  }

  lemma WholeQuery(core: Core, args: Option<seq<Value>>, sql: string, number: nat)
    requires EscapeFree(sql)
    ensures AsRead(core, args, sql, number, 0, Reading("", [], 0, false), Rewrite(core, args, sql, number))
  {
    hide NextStep, Run, AsRead, Lex;
    assert sql[0..] == sql && Lex(sql, Plain)[0..] == Lex(sql, Plain);
    Follows(core, args, sql, number, 0, State(None, Plain, 0, number));
  }

  /** A query without escapes is rewritten to its end if and only if each plain-text marker is "%d", a "%s" whose
      argument has a text, or a "%v" without a letter behind it, and the argument of each placeholder describes it. */
  lemma CompleteIff(core: Core, args: Option<seq<Value>>, sql: string, number: nat)
    requires EscapeFree(sql)
    ensures Rewrite(core, args, sql, number).end == Complete <==>
      AllAcceptable(core, args, sql, number, 0, CLength(sql))
  {
    hide Run, NextStep, Reads, Rewrite, Lex, Acceptable, Reason, AllAcceptable, FirstFailure, CLength;
    WholeQuery(core, args, sql, number);
    if !AllAcceptable(core, args, sql, number, 0, CLength(sql)) {
      var f := FirstUnacceptable(core, args, sql, number, CLength(sql));
      NeverComplete(core, args, sql, Reads(core, args, sql, number, f), f);
      assert FailsAt(core, args, sql, number, Reading("", [], 0, false), Rewrite(core, args, sql, number), f);
    }
  }

  lemma NeverComplete(core: Core, args: Option<seq<Value>>, sql: string, r: Reading, f: nat)
    ensures Reason(sql, r, f) != Complete
  {
  }

  lemma {:induction false} FirstUnacceptable(core: Core, args: Option<seq<Value>>, sql: string, number: nat, n: nat)
    returns (f: nat)
    requires n <= |sql| && !AllAcceptable(core, args, sql, number, 0, n)
    ensures f < n && FirstFailure(core, args, sql, number, 0, f)
  {
    hide Reads, Acceptable;
    if AllAcceptable(core, args, sql, number, 0, n - 1) {
      f := n - 1;
    } else {
      f := FirstUnacceptable(core, args, sql, number, n - 1);
    }
  }

  /** Then its text and its nodes are what its characters become. */
  lemma RewrittenAs(core: Core, args: Option<seq<Value>>, sql: string, number: nat)
    requires EscapeFree(sql) && Rewrite(core, args, sql, number).end == Complete
    ensures var n, r := CLength(sql), Rewrite(core, args, sql, number);
      r.text == Reads(core, args, sql, number, n).text + sql[n..] && r.nodes == Reads(core, args, sql, number, n).nodes
  {
    hide Run, NextStep, Reads, Rewrite, Lex, AllAcceptable, CLength;
    CompleteIff(core, args, sql, number);
    WholeQuery(core, args, sql, number);
    var r := Rewrite(core, args, sql, number);
    assert Completes(core, args, sql, number, Reading("", [], 0, false), r);
    assert "" + r.text == r.text && [] + r.nodes == r.nodes;
  }

  /** Otherwise the first character that is not acceptable is the outcome, and the text is left as it is from there. */
  lemma EndsAtFirstFailure(core: Core, args: Option<seq<Value>>, sql: string, number: nat, f: nat)
    requires EscapeFree(sql) && f < CLength(sql) && FirstFailure(core, args, sql, number, 0, f)
    ensures var r, before := Rewrite(core, args, sql, number), Reads(core, args, sql, number, f);
      && r.end == Reason(sql, before, f) && r.text == before.text + sql[f..]
      && r.nodes == before.nodes + if IsPlaceholder(sql, f) then [PlaceholderNode(NameAt(sql, f), None)] else []
  {
    hide Run, NextStep, Reads, Rewrite, Lex, Acceptable, Reason, NameAt;
    WholeQuery(core, args, sql, number);
    var r := Rewrite(core, args, sql, number);
    assert "" + r.text == r.text && [] + r.nodes == r.nodes;
  }
}
