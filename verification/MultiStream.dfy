/** read_multi_stream of send_multi: CHILD elements are picked out of a stream of any length through
    one buffer of fixed size. */
module MultiStream {
  import opened CString
  import opened ChildCheck
  import opened ChildElements
  import opened StreamReading

  const STATE_CRITICAL := 2
  const STATE_UNKNOWN := 3

  // ---------------------------------------------------------------- the loop

  /** The check for a plain message instead of elements. */
  method HasMessage(buffer: array<char>, buflen: nat) returns (message: bool)
    requires buflen < buffer.Length
    ensures message == IsMessage(buffer[..buflen], buffer[buflen] == NUL)
  {
    var i := 0;
    while i < buflen && buffer[i] != NUL && buffer[i] < '\U{80}'
      invariant i <= buflen && Ascii(buffer[..buflen], i)
    {
      i := i + 1;
    }
    message := buffer[i] == NUL && i > 0;
    if !message { NoMessage(buffer[..buflen], buffer[buflen] == NUL, i); }
  }

  lemma NoMessage(data: string, behind: bool, i: nat)
    requires i <= |data| && Ascii(data, i)
    requires i < |data| ==> data[i] == NUL || data[i] >= '\U{80}'
    requires i == 0 || !(if i < |data| then data[i] == NUL else behind)
    ensures !IsMessage(data, behind)
  {
  }

  /** memmove of the rest of the data to the start of the buffer. */
  method ShiftDown(buffer: array<char>, buflen: nat, k: nat)
    requires k <= buflen <= buffer.Length
    modifies buffer
    ensures buffer[..buflen - k] == old(buffer[k..buflen])
  {
    forall i | 0 <= i < buflen - k { buffer[i] := buffer[i + k]; }
  }

  /** fread fills the buffer unless the stream ends. */
  method FillUp(buffer: array<char>, buflen: nat, input: string, pos: nat) returns (bytes_read: nat)
    requires buflen < GM_BUFFERSIZE < buffer.Length && pos <= |input|
    modifies buffer
    ensures pos + bytes_read <= |input| && buflen + bytes_read <= GM_BUFFERSIZE
    ensures bytes_read == 0 <==> pos == |input|
    ensures (buffer[..buflen + bytes_read], input[pos + bytes_read..]) == Filled(old(buffer[..buflen]), input[pos..])
  {
    bytes_read := if |input| - pos < GM_BUFFERSIZE - buflen then |input| - pos else GM_BUFFERSIZE - buflen;
    ghost var data := buffer[..buflen];
    forall i | 0 <= i < bytes_read { buffer[buflen + i] := input[pos + i]; }
    assert buffer[..buflen] == data;
    assert buffer[buflen..buflen + bytes_read] == input[pos..][..bytes_read];
    assert buffer[..buflen + bytes_read] == buffer[..buflen] + buffer[buflen..buflen + bytes_read];
    assert input[pos..][bytes_read..] == input[pos + bytes_read..];
  }

  datatype Chunk = Taken(body: string, valid: bool) | Unclosed | NoTag

  lemma SliceOfBuffer(buffer: array<char>, buflen: nat, a: nat, b: nat)
    requires a <= b <= buflen <= buffer.Length
    ensures buffer[..buflen][a..b] == buffer[a..b]
  {
    var s := buffer[..buflen];
    forall i | 0 <= i < b - a ensures s[a..b][i] == buffer[a..b][i] {
      assert s[a..b][i] == s[a + i];
    }
  }

  /** Cuts the first element out of the buffer and shows it to read_child_check. */
  method TakeElement(buffer: array<char>, buflen: nat) returns (chunk: Chunk, left: nat)
    requires buflen < buffer.Length
    modifies buffer
    ensures var s := old(buffer[..buflen]); var f := First(s);
            if f == None then
              && chunk == (if Find(s, OPEN) < 0 then NoTag else Unclosed)
              && left == buflen && buffer[..] == old(buffer[..])
            else
              && chunk.Taken? && chunk.body == s[f.value.0..f.value.1] && Judged(chunk.body, chunk.valid)
              && left == buflen - f.value.1 - |CLOSE| && buffer[..left] == s[f.value.1 + |CLOSE|..]
  {
    hide Find, Judged;
    ghost var s := buffer[..buflen];
    left := buflen;
    var bufstart := Find(buffer[..buflen], OPEN);
    if bufstart < 0 { return NoTag, left; }
    assert s[bufstart..] == buffer[bufstart..buflen];
    var bufend := Find(buffer[bufstart..buflen], CLOSE);
    if bufend < 0 { return Unclosed, left; }
    TagsApart(s, bufstart, bufend);
    bufend := bufstart + bufend;
    bufstart := bufstart + |OPEN|;
    assert First(s) == Some((bufstart, bufend));
    var body := buffer[bufstart..bufend];
    var k := bufend + |CLOSE|;
    SliceOfBuffer(buffer, buflen, bufstart, bufend);
    SliceOfBuffer(buffer, buflen, k, buflen);
    assert s[k..buflen] == s[k..];
    ghost var before := buffer[..];
    assert before[k..buflen] == s[k..];
    var ok := ReadChildCheck(buffer, bufstart, bufend);
    chunk := Taken(body, ok);
    assert buffer[k..buflen] == before[k..buflen];
    ShiftDown(buffer, buflen, k);
    left := buflen - k;
  }

  /** One look at the buffer. The loop stops at an element without end and, as long as nothing has been
      sent, at a plain message; otherwise data without an element is thrown away. */
  method Look(buffer: array<char>, buflen: nat, count: nat) returns (chunk: Chunk, left: nat, stop: bool)
    requires buflen < buffer.Length
    modifies buffer
    ensures var s := old(buffer[..buflen]); var f := First(s);
            if f.Some? then
              && chunk.Taken? && chunk.body == s[f.value.0..f.value.1] && Judged(chunk.body, chunk.valid) && !stop
              && left == buflen - f.value.1 - |CLOSE| && buffer[..left] == s[f.value.1 + |CLOSE|..]
            else
              && chunk == (if Find(s, OPEN) < 0 then NoTag else Unclosed) && left == 0
              && stop == (chunk == Unclosed || (count == 0 && IsMessage(s, old(buffer[buflen]) == NUL)))
  {
    hide Find, First, Judged, IsMessage;
    chunk, left := TakeElement(buffer, buflen);
    stop := chunk == Unclosed;
    if chunk == NoTag && count == 0 { stop := HasMessage(buffer, buflen); }
    if !chunk.Taken? { left := 0; }
  }

  // ---------------------------------------------------------------- the whole stream

  function Count(flags: seq<bool>): nat {
    if flags == [] then 0 else Count(flags[..|flags| - 1]) + if flags[|flags| - 1] then 1 else 0
  }

  lemma {:induction false} CountZero(flags: seq<bool>)
    ensures Count(flags) == 0 <==> NothingSent(flags, |flags|)
  {
    if flags != [] {
      var n := |flags| - 1;
      CountZero(flags[..n]);
      assert flags == flags[..n] + [flags[n]];
    }
  }

  /** An element becomes a result if read_child_check accepts it and send_result, whose answers are given,
      does not fail. */
  ghost predicate Sent(seen: seq<string>, sent: seq<bool>, answers: nat -> bool) {
    && |sent| == |seen|
    && forall i | 0 <= i < |seen| :: if answers(i) then Judged(seen[i], sent[i]) else !sent[i]
  }

  lemma OneMoreSent(seen: seq<string>, sent: seq<bool>, answers: nat -> bool, body: string, valid: bool)
    requires Sent(seen, sent, answers) && Judged(body, valid)
    ensures Sent(seen + [body], sent + [valid && answers(|seen|)], answers)
  {
    hide Judged;
  }

  /** `w` has come about on the way to `v`. */
  predicate Extends(w: World, v: World) {
    v.broken == w.broken && w.sent <= v.sent && w.behind <= v.behind
  }

  function Prefixed(seen: seq<string>, r: Reading): Reading {
    Reading(seen + r.seen, r.ending)
  }

  /** Before a look: however things go on, the whole reading is what has been seen and the reading of what is
      left. */
  ghost predicate Looking(input: string, w: World, seen: seq<string>, data: string, rest: string)
    requires |data| <= GM_BUFFERSIZE
  {
    forall v | Extends(w, v) ::
      Scan("", input, v, 0, 0) == Prefixed(seen, Scan(data, rest, v, |seen|, |w.behind|))
  }

  /** Before a refill. */
  ghost predicate Refilling(input: string, w: World, seen: seq<string>, data: string, rest: string)
    requires |data| < GM_BUFFERSIZE
  {
    forall v | Extends(w, v) ::
      Scan("", input, v, 0, 0) == Prefixed(seen, GoOn(data, rest, v, |seen|, |w.behind|))
  }

  ghost predicate Ended(input: string, w: World, seen: seq<string>, ending: Ending) {
    Scan("", input, w, 0, 0) == Reading(seen, ending)
  }

  lemma StartLooking(input: string, w: World)
    requires w.behind == []
    ensures Looking(input, w, [], "", input)
  {
    hide Scan;
    forall v | Extends(w, v) ensures Scan("", input, v, 0, 0) == Prefixed([], Scan("", input, v, 0, 0)) {
      var r := Scan("", input, v, 0, 0);
      assert [] + r.seen == r.seen;
    }
  }

  /** What was sent so far, and what was behind the data at the look that has just been made. */
  lemma Known(w: World, z: bool, v: World, k: nat)
    requires Extends(World(w.broken, w.sent, w.behind + [z]), v) && k == |w.sent|
    ensures Extends(w, v) && Behind(v, |w.behind|) == z && NothingSent(v.sent, k) == NothingSent(w.sent, k)
  {
    assert forall i | 0 <= i < k :: v.sent[i] == w.sent[i];
    assert v.behind[|w.behind|] == (w.behind + [z])[|w.behind|];
  }

  lemma ExtendsItself(w: World)
    ensures Extends(w, w)
  {
  }

  lemma LookingAt(input: string, w: World, seen: seq<string>, data: string, rest: string, v: World)
    requires |data| <= GM_BUFFERSIZE && Looking(input, w, seen, data, rest) && Extends(w, v)
    ensures Scan("", input, v, 0, 0) == Prefixed(seen, Scan(data, rest, v, |seen|, |w.behind|))
  {
    hide Scan;
  }

  lemma AfterElement(input: string, w: World, seen: seq<string>, data: string, rest: string, b: bool, z: bool)
    requires |data| <= GM_BUFFERSIZE && Looking(input, w, seen, data, rest) && First(data).Some?
    requires |w.sent| == |seen|
    ensures var f := First(data).value;
            Refilling(input, World(w.broken, w.sent + [b], w.behind + [z]), seen + [data[f.0..f.1]],
                      data[f.1 + |CLOSE|..], rest)
  {
    hide Scan, GoOn, First, Find;
    var f := First(data).value;
    var body, w' := data[f.0..f.1], World(w.broken, w.sent + [b], w.behind + [z]);
    forall v | Extends(w', v)
      ensures Scan("", input, v, 0, 0) ==
              Prefixed(seen + [body], GoOn(data[f.1 + |CLOSE|..], rest, v, |seen + [body]|, |w'.behind|))
    {
      assert Extends(w, v);
      ScanStep(data, rest, v, |seen|, |w.behind|);
      var r := GoOn(data[f.1 + |CLOSE|..], rest, v, |seen| + 1, |w.behind| + 1);
      assert seen + ([body] + r.seen) == (seen + [body]) + r.seen;
    }
  }

  lemma AfterNothing(input: string, w: World, seen: seq<string>, data: string, rest: string, z: bool)
    requires |data| <= GM_BUFFERSIZE && Looking(input, w, seen, data, rest) && |w.sent| == |seen|
    requires First(data) == None && Find(data, OPEN) < 0 && !(NothingSent(w.sent, |seen|) && IsMessage(data, z))
    ensures Refilling(input, World(w.broken, w.sent, w.behind + [z]), seen, "", rest)
  {
    hide Scan, GoOn, First, Find, IsMessage, NothingSent, Behind, Looking, Extends;
    var w' := World(w.broken, w.sent, w.behind + [z]);
    forall v | Extends(w', v)
      ensures Scan("", input, v, 0, 0) == Prefixed(seen, GoOn("", rest, v, |seen|, |w'.behind|))
    {
      Known(w, z, v, |seen|);
      LookingAt(input, w, seen, data, rest, v);
      ScanStep(data, rest, v, |seen|, |w.behind|);
    }
  }

  lemma AfterStop(input: string, w: World, seen: seq<string>, data: string, rest: string, z: bool)
    requires |data| <= GM_BUFFERSIZE && Looking(input, w, seen, data, rest) && |w.sent| == |seen|
    requires First(data) == None
    requires Find(data, OPEN) >= 0 || (NothingSent(w.sent, |seen|) && IsMessage(data, z))
    ensures Ended(input, World(w.broken, w.sent, w.behind + [z]), seen,
                  if Find(data, OPEN) >= 0 then NotClosed else Message)
  {
    hide Scan, GoOn, First, Find, IsMessage, NothingSent, Behind, Looking, Extends;
    var v := World(w.broken, w.sent, w.behind + [z]);
    assert Extends(v, v) by { ExtendsItself(v); }
    Known(w, z, v, |seen|);
    LookingAt(input, w, seen, data, rest, v);
    ScanStep(data, rest, v, |seen|, |w.behind|);
    assert seen + [] == seen;
  }

  lemma AfterRefill(input: string, w: World, seen: seq<string>, data: string, rest: string)
    requires |data| < GM_BUFFERSIZE && Refilling(input, w, seen, data, rest)
    ensures if rest == "" && w.broken then Ended(input, w, seen, ReadError)
            else
              var (data', rest') := Filled(data, rest);
              if data' == "" then Ended(input, w, seen, AtEnd) else Looking(input, w, seen, data', rest')
  {
    hide Scan, GoOn, Filled;
    assert seen + [] == seen;
    forall v | Extends(w, v)
      ensures Scan("", input, v, 0, 0) == Prefixed(seen, GoOn(data, rest, v, |seen|, |w.behind|))
      ensures GoOn(data, rest, v, |seen|, |w.behind|) ==
              if rest == "" && w.broken then Reading([], ReadError)
              else
                var (data', rest') := Filled(data, rest);
                if data' == "" then Reading([], AtEnd) else Scan(data', rest', v, |seen|, |w.behind|)
    {
      GoOnStep(data, rest, v, |seen|, |w.behind|);
    }
    assert Extends(w, w);
  }

  function ResultOf(ending: Ending, count: nat): int {
    match ending
    case AtEnd => count
    case ReadError => -STATE_CRITICAL
    case _ => -STATE_UNKNOWN
  }

  /** One round of the loop: a look at the buffer, then a refill. */
  method Round(buffer: array<char>, buflen: nat, input: string, pos: nat, count: nat, seen: seq<string>, w: World,
               answers: nat -> bool)
    returns (buflen': nat, pos': nat, seen': seq<string>, w': World, ended: Option<Ending>)
    requires buflen <= GM_BUFFERSIZE < buffer.Length && pos <= |input| && count == Count(w.sent)
    requires Looking(input, w, seen, buffer[..buflen], input[pos..]) && Sent(seen, w.sent, answers)
    modifies buffer
    ensures w'.broken == w.broken && Sent(seen', w'.sent, answers)
    ensures ended.Some? ==> Ended(input, w', seen', ended.value) && (ended == Some(Message) ==> Count(w'.sent) == 0)
    ensures ended == None ==>
              && 0 < buflen' <= GM_BUFFERSIZE && pos' <= |input|
              && Looking(input, w', seen', buffer[..buflen'], input[pos'..])
              && |input| - pos' + buflen' <= |input| - pos + buflen - (if buflen > 0 then 1 else 0)
  {
    hide Find, First, Count, Judged, Sent, Looking, Refilling, Ended, IsMessage, NothingSent, Filled;
    ghost var data, rest := buffer[..buflen], input[pos..];
    SentLength(seen, w.sent, answers);
    CountZero(w.sent);
    var behind := buffer[buflen] == NUL;
    var chunk, left, stop := Look(buffer, buflen, count);
    buflen', pos', seen', ended := left, pos, seen, None;
    if stop {
      AfterStop(input, w, seen, data, rest, behind);
      w' := World(w.broken, w.sent, w.behind + [behind]);
      ended := Some(if chunk == Unclosed then NotClosed else Message);
      return;
    }
    if chunk.Taken? {
      var delivered := chunk.valid && answers(|seen|);
      AfterElement(input, w, seen, data, rest, delivered, behind);
      OneMoreSent(seen, w.sent, answers, chunk.body, chunk.valid);
      seen', w' := seen + [chunk.body], World(w.broken, w.sent + [delivered], w.behind + [behind]);
    } else {
      AfterNothing(input, w, seen, data, rest, behind);
      w' := World(w.broken, w.sent, w.behind + [behind]);
      assert buffer[..0] == "";
    }
    AfterRefill(input, w', seen', buffer[..left], rest);
    var bytes_read := FillUp(buffer, left, input, pos);
    if bytes_read == 0 && w.broken { return left, pos, seen', w', Some(ReadError); }
    buflen', pos' := left + bytes_read, pos + bytes_read;
    if buflen' == 0 { ended := Some(AtEnd); }
  }

  lemma SentLength(seen: seq<string>, sent: seq<bool>, answers: nat -> bool)
    requires Sent(seen, sent, answers)
    ensures |sent| == |seen|
  {
  }

  /** read_multi_stream. `broken` says whether the stream ends with a read error instead of its end, `seen`
      which bodies read_child_check is given, `w.sent` which of them become a result. What is read of any
      input is the Scan of it; if every element fits, that is exactly its elements, wherever the refills
      fall. */
  method ReadMultiStream(input: string, broken: bool, answers: nat -> bool)
    returns (result: int, seen: seq<string>, w: World)
    ensures w.broken == broken && Sent(seen, w.sent, answers)
    ensures var r := Scan("", input, w, 0, 0);
            && seen == r.seen && result == ResultOf(r.ending, Count(w.sent))
            && (r.ending == Message ==> Count(w.sent) == 0)
    ensures Fitting(input) ==> seen <= Elements(input) && (seen == Elements(input) || result == -STATE_CRITICAL)
    ensures Fitting(input) ==>
              || result == Count(w.sent)
              || (result == -STATE_CRITICAL && broken)
              || (result == -STATE_UNKNOWN && Count(w.sent) == 0)
  {
    hide Find, First, Elements, Fitting, Count, Judged, Sent, Looking, Scan;
    var buffer := new char[GM_BUFFERSIZE + 1];
    var buflen: nat, pos: nat := 0, 0;
    var ended: Option<Ending> := None;
    seen, w := [], World(broken, [], []);
    assert Sent(seen, w.sent, answers) by { NoneSent(answers); }
    StartLooking(input, w);
    assert buffer[..buflen] == "" && input[pos..] == input;
    while ended == None
      invariant w.broken == broken && Sent(seen, w.sent, answers)
      invariant ended.Some? ==> Ended(input, w, seen, ended.value) && (ended == Some(Message) ==> Count(w.sent) == 0)
      invariant ended == None ==>
        buflen <= GM_BUFFERSIZE && pos <= |input| && Looking(input, w, seen, buffer[..buflen], input[pos..])
      decreases ended == None, |input| - pos + buflen + if buflen == 0 then 1 else 0
    {
      buflen, pos, seen, w, ended := Round(buffer, buflen, input, pos, Count(w.sent), seen, w, answers);
    }
    result := ResultOf(ended.value, Count(w.sent));
    OnlyIfBroken("", input, w, 0, 0);
    if Fitting(input) {
      assert "" + input == input;
      FittingIsRead("", input, w, 0, 0);
    }
  }

  lemma {:induction false} OnlyIfBroken(data: string, rest: string, w: World, k: nat, looks: nat)
    requires |data| <= GM_BUFFERSIZE
    ensures Scan(data, rest, w, k, looks).ending == ReadError ==> w.broken
    decreases |data| + |rest|, if data == "" then 2 else 0
  {
    hide Find, First, Scan, GoOn, NothingSent, IsMessage, Filled;
    ScanStep(data, rest, w, k, looks);
    var f := First(data);
    var (left, n) := if f.Some? then (data[f.value.1 + |CLOSE|..], k + 1) else ("", k);
    if |left| < GM_BUFFERSIZE && !w.broken {
      GoOnStep(left, rest, w, n, looks + 1);
      var (data', rest') := Filled(left, rest);
      assert |data'| + |rest'| == |data' + rest'| == |left + rest|;
      if data' != "" { OnlyIfBroken(data', rest', w, n, looks + 1); }
    }
  }

  lemma NoneSent(answers: nat -> bool)
    ensures Sent([], [], answers)
  {
  }
}
