/** Per-thread session attributes: truncation of UTF-8 text, and the cache of what a session was told. */
module SessionInfo {
  import opened Wrappers

  type Bytes = seq<bv8>

  const MAX_BYTES: nat := 64
  const ATTRIBUTES: nat := 4 // module, action, client info and client identifier

  /* ---- UTF-8 (sections 3 and 4 of RFC 3629) ---- */

  predicate IsTail(b: bv8) {
    0x80 <= b <= 0xbf
  }

  /** One encoded character. */
  predicate IsChar(c: Bytes) {
    if |c| == 1 then c[0] <= 0x7f
    else if |c| == 2 then 0xc2 <= c[0] <= 0xdf && IsTail(c[1])
    else if |c| == 3 then
      && IsTail(c[1]) && IsTail(c[2])
      && ((c[0] == 0xe0 && 0xa0 <= c[1]) || 0xe1 <= c[0] <= 0xec || (c[0] == 0xed && c[1] <= 0x9f)
         || 0xee <= c[0] <= 0xef)
    else if |c| == 4 then
      && IsTail(c[1]) && IsTail(c[2]) && IsTail(c[3])
      && ((c[0] == 0xf0 && 0x90 <= c[1]) || 0xf1 <= c[0] <= 0xf3 || (c[0] == 0xf4 && c[1] <= 0x8f))
    else false
  }

  predicate AllChars(chars: seq<Bytes>) {
    forall i :: 0 <= i < |chars| ==> IsChar(chars[i])
  }

  function Flatten(chars: seq<Bytes>): Bytes {
    if chars == [] then [] else chars[0] + Flatten(chars[1..])
  }

  /** The test of the code for a continuation byte. */
  predicate Continues(b: bv8) {
    b & 0xc0 == 0x80
  }

  lemma ContinuesIsTail(b: bv8)
    ensures Continues(b) <==> IsTail(b)
  {
  }

  lemma CharShape(c: Bytes)
    requires IsChar(c)
    ensures 1 <= |c| <= 4 && !IsTail(c[0]) && forall i :: 1 <= i < |c| ==> IsTail(c[i])
  {
  }

  /** The last position up to `len` that does not hold a continuation byte. */
  function BackUp(s: Bytes, len: nat): (r: nat)
    requires len < |s|
    ensures r <= len
  {
    if len > 0 && IsTail(s[len]) then BackUp(s, len - 1) else len
  }

  function Truncated(s: Bytes, maxBytes: nat): (r: Bytes)
    ensures r <= s && |r| <= maxBytes
  {
    if |s| <= maxBytes then s else s[..BackUp(s, maxBytes)]
  }

  /** Truncates text to a number of bytes. */
  method TruncateUtf8(s: Bytes, maxBytes: nat) returns (r: Bytes)
    ensures r == Truncated(s, maxBytes)
  {
    if |s| <= maxBytes {
      return s;
    }
    var len: nat := maxBytes;
    while len > 0 && Continues(s[len])
      invariant len < |s| && BackUp(s, len) == BackUp(s, maxBytes)
    {
      ContinuesIsTail(s[len]);
      len := len - 1;
    }
    ContinuesIsTail(s[len]);
    r := s[..len];
  }

  /** How many whole characters fit. */
  function Fit(chars: seq<Bytes>, maxBytes: nat): (k: nat)
    ensures k <= |chars|
  {
    if chars == [] || |chars[0]| > maxBytes then 0 else 1 + Fit(chars[1..], maxBytes - |chars[0]|)
  }

  /** The characters that fit are the longest prefix of whole characters within the limit. */
  lemma {:induction false} FitIsLongest(chars: seq<Bytes>, maxBytes: nat)
    ensures var k := Fit(chars, maxBytes);
      |Flatten(chars[..k])| <= maxBytes && (k < |chars| ==> |Flatten(chars[..k + 1])| > maxBytes)
  {
    if chars != [] && |chars[0]| <= maxBytes {
      var k := Fit(chars[1..], maxBytes - |chars[0]|);
      FitIsLongest(chars[1..], maxBytes - |chars[0]|);
      assert chars[..k + 1][1..] == chars[1..][..k];
      if k + 1 < |chars| {
        assert chars[..k + 2][1..] == chars[1..][..k + 1];
      }
    } else if chars != [] {
      assert chars[..1][0] == chars[0] && chars[..1][1..] == [];
    }
  }

  lemma {:induction false} BackUpBehind(a: Bytes, b: Bytes, n: nat)
    requires n < |b| && !IsTail(b[0])
    ensures BackUp(a + b, |a| + n) == |a| + BackUp(b, n)
  {
    if n > 0 {
      assert (a + b)[|a| + n] == b[n];
      if IsTail(b[n]) {
        BackUpBehind(a, b, n - 1);
      }
    } else {
      assert (a + b)[|a|] == b[0];
    }
  }

  lemma {:induction false} BackUpWithin(c: Bytes, rest: Bytes, n: nat)
    requires IsChar(c) && n < |c|
    ensures BackUp(c + rest, n) == 0
  {
    CharShape(c);
    if n > 0 {
      BackUpWithin(c, rest, n - 1);
    }
  }

  /** Truncation behind a character that fits is truncation of what follows it. */
  lemma TruncatedBehind(c: Bytes, rest: Bytes, maxBytes: nat)
    requires |c| <= maxBytes && (rest != [] ==> !IsTail(rest[0]))
    ensures Truncated(c + rest, maxBytes) == c + Truncated(rest, maxBytes - |c|)
  {
    var m := maxBytes - |c|;
    if |rest| > m {
      BackUpBehind(c, rest, m);
      assert (c + rest)[..|c| + BackUp(rest, m)] == c + rest[..BackUp(rest, m)];
    }
  }

  lemma FirstByte(chars: seq<Bytes>)
    requires AllChars(chars)
    ensures Flatten(chars) != [] ==> !IsTail(Flatten(chars)[0])
  {
    if chars != [] {
      CharShape(chars[0]);
    }
  }

  lemma FlattenPrefix(chars: seq<Bytes>, k: nat)
    requires 0 < |chars| && k < |chars|
    ensures Flatten(chars[..k + 1]) == chars[0] + Flatten(chars[1..][..k])
  {
    assert chars[..k + 1][1..] == chars[1..][..k];
  }

  /** Truncating well-formed text keeps exactly the whole characters that fit, and loses at most three more bytes. */
  lemma {:induction false} TruncatesToWholeCharacters(chars: seq<Bytes>, maxBytes: nat)
    requires AllChars(chars)
    ensures Truncated(Flatten(chars), maxBytes) == Flatten(chars[..Fit(chars, maxBytes)])
    ensures |Flatten(chars)| > maxBytes ==> |Truncated(Flatten(chars), maxBytes)| + 3 >= maxBytes
  {
    if chars == [] {
      assert chars[..0] == [];
    } else {
      var c, rest := chars[0], Flatten(chars[1..]);
      CharShape(c);
      assert Flatten(chars) == c + rest && AllChars(chars[1..]);
      if |c| > maxBytes {
        hide IsChar, IsTail;
        BackUpWithin(c, rest, maxBytes);
        assert chars[..0] == [];
      } else {
        var k := Fit(chars[1..], maxBytes - |c|);
        assert Fit(chars, maxBytes) == 1 + k;
        hide *;
        TruncatesToWholeCharacters(chars[1..], maxBytes - |c|);
        FirstByte(chars[1..]);
        TruncatedBehind(c, rest, maxBytes);
        FlattenPrefix(chars, k);
      }
    }
  }

  /* ---- Setting one attribute ---- */

  /** The conversion of UTF-8 text to the encoding of the connection; None if it raises an exception. */
  type Converter = Bytes -> Option<Bytes>

  /** No text converts to a value that fits; so the loop that drops characters ends. */
  predicate ConvertsNothing(convert: Converter) {
    convert([]).Some? ==> |convert([]).value| <= MAX_BYTES
  }

  /** What is left to send when characters are dropped from the end until the converted text fits. */
  function Fitted(convert: Converter, src: Bytes): Option<Bytes>
    requires ConvertsNothing(convert)
    decreases |src|
  {
    match convert(src)
    case None => None
    case Some(text) =>
      if |text| <= MAX_BYTES then Some(text) else Fitted(convert, Truncated(src, |src| - 1))
  }

  /** The most characters whose conversion is not too long. */
  function Longest(convert: Converter, chars: seq<Bytes>): (k: nat)
    requires ConvertsNothing(convert)
    ensures k <= |chars|
    ensures forall j :: k < j <= |chars| ==> TooLong(convert, Flatten(chars[..j]))
    ensures !TooLong(convert, Flatten(chars[..k]))
  {
    if !TooLong(convert, Flatten(chars)) then
      assert chars[..|chars|] == chars;
      |chars|
    else
      var before := chars[..|chars| - 1];
      assert forall j :: 0 <= j <= |before| ==> before[..j] == chars[..j];
      assert chars[..|chars|] == chars;
      Longest(convert, before)
  }

  predicate TooLong(convert: Converter, src: Bytes) {
    convert(src).Some? && |convert(src).value| > MAX_BYTES
  }

  lemma {:induction false} FitOneLess(chars: seq<Bytes>)
    requires AllChars(chars) && chars != []
    ensures Flatten(chars) != [] && Fit(chars, |Flatten(chars)| - 1) == |chars| - 1
  {
    CharShape(chars[0]);
    if |chars| > 1 {
      FitOneLess(chars[1..]);
    }
  }

  /** Truncating by one byte drops exactly the last character. */
  lemma DropsOneCharacter(chars: seq<Bytes>)
    requires AllChars(chars) && chars != []
    ensures Flatten(chars) != [] && Truncated(Flatten(chars), |Flatten(chars)| - 1) == Flatten(chars[..|chars| - 1])
  {
    hide *;
    FitOneLess(chars);
    TruncatesToWholeCharacters(chars, |Flatten(chars)| - 1);
  }

  /** What is sent is the conversion of the longest prefix of whole characters that fits. */
  lemma {:induction false} SendsLongestPrefix(convert: Converter, chars: seq<Bytes>)
    requires ConvertsNothing(convert) && AllChars(chars)
    ensures Fitted(convert, Flatten(chars)) == convert(Flatten(chars[..Longest(convert, chars)]))
    decreases |chars|
  {
    if TooLong(convert, Flatten(chars)) {
      assert chars != [];
      var before := chars[..|chars| - 1];
      DropsOneCharacter(chars);
      SendsLongestPrefix(convert, before);
      assert before[..Longest(convert, before)] == chars[..Longest(convert, before)];
    } else {
      assert chars[..|chars|] == chars;
    }
  }

  /* ---- The cache ---- */

  /** The values of the attributes for one thread. */
  type Info = seq<Bytes>

  const EMPTY_INFO: Info := [[], [], [], []]

  /** The values for a thread; without information they are empty. */
  function ValuesOf(info: Option<Info>): Info {
    if info.Some? then info.value else EMPTY_INFO
  }

  /** The attributes to set, in order: all of them if the session is not known, or else those that differ. */
  function ToSet(known: bool, sent: Info, info: Info, n: nat): seq<nat>
    requires n <= |sent| == |info|
  {
    if n == 0 then []
    else ToSet(known, sent, info, n - 1) + if known && sent[n - 1] == info[n - 1] then [] else [n - 1]
  }

  /** An attribute is set exactly if the session is not known or has another value, and each one at most once. */
  lemma {:induction false} OnlyChanged(known: bool, sent: Info, info: Info, n: nat)
    requires n <= |sent| == |info|
    ensures forall i: nat :: i in ToSet(known, sent, info, n) <==> i < n && (known ==> sent[i] != info[i])
    ensures Ascending(ToSet(known, sent, info, n))
  {
    if n > 0 {
      OnlyChanged(known, sent, info, n - 1);
      var before := ToSet(known, sent, info, n - 1);
      assert forall i :: 0 <= i < |before| ==> before[i] in before;
    }
  }

  predicate Ascending(s: seq<nat>) {
    forall i, j :: 0 <= i < j < |s| ==> s[i] < s[j]
  }

  class Connection {
    const utf8: bool            // the connection's encoding is UTF-8
    const convert: Converter
    var sessionAttr: Info       // the values that were sent
    var sessionInfoKnown: bool

    var current: Info           // the attributes of the session
    ghost var sets: seq<nat>    // the attributes that were set, one after the other
    ghost var faults: nat       // calls that failed

    constructor (utf8: bool, convert: Converter)
      requires ConvertsNothing(convert)
      ensures Valid() && !sessionInfoKnown
    {
      this.utf8, this.convert := utf8, convert;
      sessionAttr, sessionInfoKnown, current, sets, faults := EMPTY_INFO, false, EMPTY_INFO, [], 0;
    }

    /** The bytes that stand for a value on the session. */
    function Wire(value: Bytes): Option<Bytes>
      requires ConvertsNothing(convert)
    {
      if value == [] || utf8 then Some(value) else Fitted(convert, value)
    }

    /** In UTF-8 a value is sent as it is. In another encoding, an empty value is sent as it is, and any other one as
        the conversion of its first `k` characters: the most of them whose conversion is not too long. */
    lemma WhatIsSent(chars: seq<Bytes>) returns (k: nat)
      requires ConvertsNothing(convert) && AllChars(chars)
      ensures utf8 || chars == [] ==> Wire(Flatten(chars)) == Some(Flatten(chars))
      ensures !utf8 && chars != [] ==>
        && k <= |chars| && Wire(Flatten(chars)) == convert(Flatten(chars[..k]))
        && (forall j :: k < j <= |chars| ==>
              convert(Flatten(chars[..j])).Some? && |convert(Flatten(chars[..j])).value| > MAX_BYTES)
        && (convert(Flatten(chars[..k])).Some? ==> |convert(Flatten(chars[..k])).value| <= MAX_BYTES)
    {
      k := Longest(convert, chars);
      SendsLongestPrefix(convert, chars);
      if chars != [] {
        CharShape(chars[0]);
      }
      assert forall j :: k < j <= |chars| ==> TooLong(convert, Flatten(chars[..j]));
    }

    /** The attributes of a session are those that were sent: all of them if `all`, or else the first ones. */
    predicate Told(sent: Info, session: Info, all: bool, first: nat)
      requires ConvertsNothing(convert)
    {
      && |sent| == |session| == ATTRIBUTES
      && forall i :: 0 <= i < ATTRIBUTES && (all || i < first) ==> Wire(sent[i]) == Some(session[i])
    }

    predicate Valid()
      reads this
    {
      ConvertsNothing(convert) && Told(sessionAttr, current, sessionInfoKnown, 0)
    }

    lemma ToldOneMore(sent: Info, session: Info, all: bool, i: nat, value: Bytes)
      requires ConvertsNothing(convert) && Told(sent, session, all, i) && i < ATTRIBUTES
      ensures Wire(value).Some? ==> Told(sent[i := value], session[i := Wire(value).value], all, i + 1)
      ensures all ==> Told(sent, session, all, i + 1)
      ensures i + 1 == ATTRIBUTES && Told(sent, session, all, i + 1) ==> Told(sent, session, true, 0)
      ensures i + 1 == ATTRIBUTES && Wire(value).Some? ==>
        Told(sent[i := value], session[i := Wire(value).value], true, 0)
    {
    }

    /** A new session has attributes of its own. */
    method Logon()
      requires Valid()
      modifies this`sessionInfoKnown, this`current
      ensures Valid() && !sessionInfoKnown
    {
      sessionInfoKnown := false;
      ForgetSession();
    }

    method ForgetSession()
      requires |current| == ATTRIBUTES
      modifies this`current
      ensures |current| == ATTRIBUTES
    {
      var a: Bytes, b: Bytes, c: Bytes, d: Bytes := *, *, *, *;
      current := [a, b, c, d];
    }

    /** Drops characters from the end of the value until its conversion fits. */
    method ConvertValue(value: Bytes) returns (r: Option<Bytes>)
      requires ConvertsNothing(convert)
      ensures r == Wire(value)
    {
      if value == [] || utf8 {
        return Some(value);
      }
      var src := value;
      r := convert(src);
      while r.Some? && |r.value| > MAX_BYTES
        invariant r == convert(src) && Fitted(convert, src) == Fitted(convert, value)
        decreases |src|
      {
        src := TruncateUtf8(src, |src| - 1);
        r := convert(src);
      }
    }

    /** Sets one attribute; a call that fails may have lost the session. */
    method SetSessionAttr(attr: nat, value: Bytes) returns (ok: bool)
      requires attr < ATTRIBUTES == |current| && ConvertsNothing(convert)
      modifies this`current, this`sets, this`faults
      ensures |current| == ATTRIBUTES && faults >= old(faults)
      ensures !ok ==> faults > old(faults) || Wire(value) == None
      ensures ok ==>
        && Wire(value).Some? && current == old(current)[attr := Wire(value).value]
        && sets == old(sets) + [attr]
    {
      var text := ConvertValue(value);
      ok := *;
      ok := ok && text.Some?;
      if ok {
        current, sets := current[attr := text.value], sets + [attr];
      } else if text.Some? {
        ForgetSession();
        faults := faults + 1;
      }
    }

    /** Makes the attributes of the session those of a thread. */
    method ApplyThreadSessionInfo(info: Option<Info>) returns (ok: bool)
      requires Valid() && (info.Some? ==> |info.value| == ATTRIBUTES)
      modifies this
      ensures Valid() && (ok <==> sessionInfoKnown)
      ensures faults >= old(faults)
      ensures !ok ==> faults > old(faults) || exists i :: 0 <= i < ATTRIBUTES && Wire(ValuesOf(info)[i]) == None
      ensures ok ==> sessionAttr == ValuesOf(info) && Shows(ValuesOf(info), current)
      ensures ok ==> sets == old(sets) + ToSet(old(sessionInfoKnown), old(sessionAttr), sessionAttr, ATTRIBUTES)
    {
      hide Told, Wire, ConvertsNothing, ToSet, Mixed;
      var values := ValuesOf(info);
      ghost var before, done: seq<nat> := sessionAttr, [];
      var i := 0;
      ok := true;
      ToldSizes(sessionAttr, current, sessionInfoKnown);
      NothingSet(sessionInfoKnown, before, values);
      MixedEnds(before, values, before);
      while ok && i < ATTRIBUTES
        invariant i <= ATTRIBUTES == |sessionAttr| == |current|
        invariant ok ==> sessionInfoKnown == old(sessionInfoKnown) && Mixed(sessionAttr, values, before, i)
        invariant ok ==> sets == old(sets) + done && done == ToSet(sessionInfoKnown, before, values, i)
        invariant ok ==>
          && Told(sessionAttr, current, sessionInfoKnown, i)
          && (i == ATTRIBUTES ==> Told(sessionAttr, current, true, 0))
        invariant !ok ==> !sessionInfoKnown && Told(sessionAttr, current, false, 0)
        invariant faults >= old(faults) && (!ok ==> i < ATTRIBUTES && (faults > old(faults) || Wire(values[i]) == None))
        decreases ok, ATTRIBUTES - i
      {
        ToldOneMore(sessionAttr, current, sessionInfoKnown, i, values[i]);
        SetOneMore(sessionInfoKnown, before, values, i);
        MixedOneMore(sessionAttr, values, before, i);
        if sessionInfoKnown && sessionAttr[i] == values[i] {
          i := i + 1;
        } else {
          ok := SetSessionAttr(i, values[i]);
          if ok {
            sessionAttr := sessionAttr[i := values[i]];
            assert (old(sets) + done) + [i] == old(sets) + (done + [i]);
            done, i := done + [i], i + 1;
          } else {
            sessionInfoKnown := false;
            ToldNothing(sessionAttr, current);
          }
        }
      }
      if ok {
        sessionInfoKnown := true;
        MixedEnds(sessionAttr, values, before);
        ToldShows(sessionAttr, current);
      }
    }

    /** The attributes of a session are those that stand for the values. */
    predicate Shows(values: Info, session: Info)
      requires ConvertsNothing(convert)
    {
      |values| == |session| == ATTRIBUTES && forall a :: 0 <= a < ATTRIBUTES ==> Wire(values[a]) == Some(session[a])
    }

    lemma ToldShows(sent: Info, session: Info)
      requires ConvertsNothing(convert) && Told(sent, session, true, 0)
      ensures Shows(sent, session)
    {
    }

    lemma ToldSizes(sent: Info, session: Info, all: bool)
      requires ConvertsNothing(convert) && Told(sent, session, all, 0)
      ensures |sent| == |session| == ATTRIBUTES
    {
    }

    lemma ToldNothing(sent: Info, session: Info)
      requires ConvertsNothing(convert) && |sent| == |session| == ATTRIBUTES
      ensures Told(sent, session, false, 0)
    {
    }
  }

  /** The first values are new, and the others are those from before. */
  predicate Mixed(sent: Info, values: Info, before: Info, i: nat) {
    && |sent| == |values| == |before| == ATTRIBUTES
    && forall j :: 0 <= j < ATTRIBUTES ==> sent[j] == if j < i then values[j] else before[j]
  }

  lemma MixedOneMore(sent: Info, values: Info, before: Info, i: nat)
    requires Mixed(sent, values, before, i) && i < ATTRIBUTES
    ensures sent[i] == before[i] && Mixed(sent[i := values[i]], values, before, i + 1)
    ensures sent[i] == values[i] ==> Mixed(sent, values, before, i + 1)
  {
  }

  lemma MixedEnds(sent: Info, values: Info, before: Info)
    requires |values| == |before| == ATTRIBUTES
    ensures Mixed(before, values, before, 0)
    ensures Mixed(sent, values, before, ATTRIBUTES) ==> sent == values
  {
  }

  lemma NothingSet(known: bool, sent: Info, info: Info)
    requires |sent| == |info|
    ensures ToSet(known, sent, info, 0) == []
  {
  }

  lemma SetOneMore(known: bool, sent: Info, info: Info, n: nat)
    requires n < |sent| == |info|
    ensures ToSet(known, sent, info, n + 1) ==
      ToSet(known, sent, info, n) + if known && sent[n] == info[n] then [] else [n]
  {
  }

  /* ---- Threads ---- */

  /** What a thread gives for an attribute: nothing, text (None if it cannot be converted to UTF-8), or another type. */
  datatype Entry = Missing | Text(utf8: Option<Bytes>) | OtherEntry

  predicate Acceptable(e: Entry) {
    e.Missing? || (e.Text? && e.utf8.Some?)
  }

  function ValueOf(e: Entry): Bytes
    requires Acceptable(e)
  {
    if e.Missing? then [] else Truncated(e.utf8.value, MAX_BYTES)
  }

  /** A thread's text counts with as many of its first characters as fit 64 bytes. */
  lemma WhatIsGiven(chars: seq<Bytes>) returns (k: nat)
    requires AllChars(chars)
    ensures k <= |chars| && ValueOf(Text(Some(Flatten(chars)))) == Flatten(chars[..k])
    ensures |Flatten(chars[..k])| <= 64 && (k < |chars| ==> |Flatten(chars[..k + 1])| > 64)
  {
    k := Fit(chars, MAX_BYTES);
    TruncatesToWholeCharacters(chars, MAX_BYTES);
    FitIsLongest(chars, MAX_BYTES);
  }

  /** Sets the information of a thread; without a value it has none, and an error leaves it as it is. */
  method SetThreadInfo(threads: map<nat, Info>, thread: nat, entries: Option<seq<Entry>>)
    returns (threads': map<nat, Info>, ok: bool)
    requires entries.Some? ==> |entries.value| == ATTRIBUTES
    ensures ok <==> entries.Some? ==> forall i :: 0 <= i < ATTRIBUTES ==> Acceptable(entries.value[i])
    ensures !ok ==> threads' == threads
    ensures ok ==> (thread in threads' <==>
      entries.Some? && exists i :: 0 <= i < ATTRIBUTES && ValueOf(entries.value[i]) != [])
    ensures ok && thread in threads' ==>
      |threads'[thread]| == ATTRIBUTES && forall i :: 0 <= i < ATTRIBUTES ==>
        threads'[thread][i] == ValueOf(entries.value[i])
    ensures forall t :: t != thread ==>
      (t in threads' <==> t in threads) && (t in threads ==> threads'[t] == threads[t])
  {
    var info: Info, empty := [], true;
    if entries.Some? {
      for i := 0 to ATTRIBUTES
        invariant |info| == i && forall j :: 0 <= j < i ==>
          Acceptable(entries.value[j]) && info[j] == ValueOf(entries.value[j])
        invariant empty <==> forall j :: 0 <= j < i ==> info[j] == []
      {
        var e := entries.value[i];
        if !Acceptable(e) {
          return threads, false;
        }
        var value: Bytes := [];
        if e.Text? {
          value := TruncateUtf8(e.utf8.value, MAX_BYTES);
        }
        info, empty := info + [value], empty && value == [];
      }
    }
    threads', ok := if empty then threads - {thread} else threads[thread := info], true;
  }

  datatype Operation = SetInfo(thread: nat, entries: seq<Entry>) | ClearInfo(thread: nat) | LogOn | Apply(thread: nat)

  /** The values that a thread gave last before an operation; empty if it has none. */
  function GivenBefore(operations: seq<Operation>, i: nat, thread: nat): Info
    requires i <= |operations| && WellFormed(operations)
  {
    if i == 0 then EMPTY_INFO
    else
      match operations[i - 1]
      case SetInfo(t, entries) =>
        if t == thread && AllAcceptable(entries) then GivenValues(entries) else GivenBefore(operations, i - 1, thread)
      case ClearInfo(t) => if t == thread then EMPTY_INFO else GivenBefore(operations, i - 1, thread)
      case _ => GivenBefore(operations, i - 1, thread)
  }

  predicate WellFormed(operations: seq<Operation>) {
    forall i :: 0 <= i < |operations| && operations[i].SetInfo? ==> |operations[i].entries| == ATTRIBUTES
  }

  predicate AllAcceptable(entries: seq<Entry>)
    requires |entries| == ATTRIBUTES
  {
    forall i :: 0 <= i < ATTRIBUTES ==> Acceptable(entries[i])
  }

  function GivenValues(entries: seq<Entry>): Info
    requires |entries| == ATTRIBUTES && AllAcceptable(entries)
  {
    seq(ATTRIBUTES, i requires 0 <= i < ATTRIBUTES => ValueOf(entries[i]))
  }

  function InfoOf(threads: map<nat, Info>, thread: nat): Option<Info> {
    if thread in threads then Some(threads[thread]) else None
  }

  lemma InfoSet(threads: map<nat, Info>, thread: nat, entries: seq<Entry>)
    requires |entries| == ATTRIBUTES && AllAcceptable(entries)
    requires thread in threads <==> exists i :: 0 <= i < ATTRIBUTES && ValueOf(entries[i]) != []
    requires thread in threads ==>
      |threads[thread]| == ATTRIBUTES && forall i :: 0 <= i < ATTRIBUTES ==> threads[thread][i] == ValueOf(entries[i])
    ensures ValuesOf(InfoOf(threads, thread)) == GivenValues(entries)
  {
  }

  /** The threads have the values that they gave last. */
  ghost predicate Tracks(threads: map<nat, Info>, operations: seq<Operation>, i: nat)
    requires i <= |operations| && WellFormed(operations)
  {
    forall t :: ValuesOf(InfoOf(threads, t)) == GivenBefore(operations, i, t)
  }

  /** What an operation does to the threads' information keeps it that of GivenBefore(). */
  lemma TracksOn(threads: map<nat, Info>, threads': map<nat, Info>, operations: seq<Operation>, i: nat)
    requires i < |operations| && WellFormed(operations) && Tracks(threads, operations, i)
    requires forall t :: InfoOf(threads', t) == InfoOf(threads, t) || Sets(operations[i], t)
    requires match operations[i]
      case SetInfo(t, entries) =>
        if AllAcceptable(entries) then ValuesOf(InfoOf(threads', t)) == GivenValues(entries) else threads' == threads
      case ClearInfo(t) => t !in threads'
      case _ => true
    ensures Tracks(threads', operations, i + 1)
  {
  }

  lemma TracksNone(operations: seq<Operation>)
    requires WellFormed(operations)
    ensures Tracks(map[], operations, 0)
  {
  }

  lemma TracksThread(threads: map<nat, Info>, operations: seq<Operation>, i: nat, thread: nat)
    requires i <= |operations| && WellFormed(operations) && Tracks(threads, operations, i)
    ensures ValuesOf(InfoOf(threads, thread)) == GivenBefore(operations, i, thread)
  {
  }

  predicate Sets(operation: Operation, thread: nat) {
    (operation.SetInfo? || operation.ClearInfo?) && operation.thread == thread
  }

  /** What an operation came to: an apply shows the attributes of the session behind it, or it failed, with or without
      a failed call. */
  datatype Result = Accepted | Refused | LoggedOn | Shown(session: Info) | NotApplied(fault: bool)

  /** The results that the operation may have: information is refused exactly if a value is not acceptable, and an apply
      shows the values that its thread gave last, unless a call fails or one of them cannot be converted. */
  predicate MayResult(conn: Connection, operations: seq<Operation>, i: nat, r: Result)
    requires i < |operations| && WellFormed(operations) && ConvertsNothing(conn.convert)
  {
    match operations[i]
    case SetInfo(_, entries) => r == if AllAcceptable(entries) then Accepted else Refused
    case ClearInfo(_) => r == Accepted
    case LogOn => r == LoggedOn
    case Apply(thread) =>
      var given := GivenBefore(operations, i, thread);
      match r
      case Shown(session) => conn.Shows(given, session)
      case NotApplied(fault) =>
        fault || (|given| == ATTRIBUTES && exists a :: 0 <= a < ATTRIBUTES && conn.Wire(given[a]) == None)
      case _ => false
  }

  /** How many applies met a failed call. */
  function Faults(results: seq<Result>): nat {
    if results == [] then 0
    else Faults(results[..|results| - 1]) + if results[|results| - 1] == NotApplied(true) then 1 else 0
  }

  /** Over any interleaving of threads and logons, each operation has a result that it may have: an apply that succeeds
      leaves the session with the values that its thread gave last, and with no value of another one, and one that does
      not succeed is accounted for by a failed call or by a value that cannot be converted. */
  method AnyRun(conn: Connection, operations: seq<Operation>) returns (ghost results: seq<Result>)
    requires conn.Valid() && WellFormed(operations)
    modifies conn
    ensures conn.Valid() && |results| == |operations|
    ensures forall i :: 0 <= i < |results| ==> MayResult(conn, operations, i, results[i])
    ensures Faults(results) <= conn.faults - old(conn.faults)
  {
    hide MayResult, Truncated, Tracks, GivenBefore, Acceptable, GivenValues;
    results := [];
    var threads: map<nat, Info> := map[];
    TracksNone(operations);
    for i := 0 to |operations|
      invariant conn.Valid() && |results| == i && forall t :: t in threads ==> |threads[t]| == ATTRIBUTES
      invariant Tracks(threads, operations, i)
      invariant forall k :: 0 <= k < i ==> MayResult(conn, operations, k, results[k])
      invariant Faults(results) <= conn.faults - old(conn.faults)
    {
      ghost var r;
      threads, r := Perform(conn, threads, operations, i);
      assert (results + [r])[..i] == results;
      results := results + [r];
    }
  }

  /** Performs an operation. */
  method Perform(conn: Connection, threads: map<nat, Info>, operations: seq<Operation>, i: nat)
    returns (threads': map<nat, Info>, ghost r: Result)
    requires conn.Valid() && WellFormed(operations) && i < |operations|
    requires (forall t :: t in threads ==> |threads[t]| == ATTRIBUTES) && Tracks(threads, operations, i)
    modifies conn
    ensures conn.Valid() && MayResult(conn, operations, i, r)
    ensures conn.faults >= old(conn.faults) + if r == NotApplied(true) then 1 else 0
    ensures (forall t :: t in threads' ==> |threads'[t]| == ATTRIBUTES) && Tracks(threads', operations, i + 1)
  {
    hide conn.Shows, Truncated, Tracks, GivenBefore, Acceptable, GivenValues, conn.Wire;
    threads' := threads;
    match operations[i] {
      case SetInfo(thread, entries) =>
        var ok;
        threads', ok := SetThreadInfo(threads, thread, Some(entries));
        if ok {
          InfoSet(threads', thread, entries);
        }
        r := if ok then Accepted else Refused;
      case ClearInfo(thread) =>
        var ok;
        threads', ok := SetThreadInfo(threads, thread, None);
        r := Accepted;
      case LogOn =>
        conn.Logon();
        r := LoggedOn;
      case Apply(thread) =>
        ghost var before := conn.faults;
        var ok := conn.ApplyThreadSessionInfo(InfoOf(threads, thread));
        TracksThread(threads, operations, i, thread);
        r := if ok then Shown(conn.current) else NotApplied(conn.faults > before);
    }
    TracksOn(threads, threads', operations, i);
  }
}
