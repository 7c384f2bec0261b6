/** What read_multi_stream reads of an input of any length, as a function of the input and of what the input
    does not say, and exactly when that is all of its elements. */
module StreamReading {
  import opened CString
  import opened ChildElements

  // ---------------------------------------------------------------- what is read of an input

  /** Plain text up to a NUL instead of elements. The NUL may lie just behind the data. */
  predicate IsMessage(data: string, behind: bool) {
    exists i | 0 < i <= |data| :: Ascii(data, i) && if i < |data| then data[i] == NUL else behind
  }

  predicate Ascii(data: string, n: nat)
    requires n <= |data|
  {
    forall k | 0 <= k < n :: NUL < data[k] < '\U{80}'
  }

  /** The data after a call of fread, and what is still to be read. */
  function Filled(data: string, rest: string): (r: (string, string))
    requires |data| < GM_BUFFERSIZE
    ensures r.0 + r.1 == data + rest && |r.0| <= GM_BUFFERSIZE && |r.1| <= |rest|
    ensures |r.0| == GM_BUFFERSIZE || r.1 == ""
    ensures rest != "" ==> r.0 != ""
  {
    var n := if |rest| < GM_BUFFERSIZE - |data| then |rest| else GM_BUFFERSIZE - |data|;
    assert rest == rest[..n] + rest[n..];
    (data + rest[..n], rest[n..])
  }

  /** What the input does not say: whether it ends with a read error, which elements have become a result,
      and at which looks at the buffer there was a NUL just behind its data. */
  datatype World = World(broken: bool, sent: seq<bool>, behind: seq<bool>)

  datatype Ending = AtEnd | NotClosed | Message | ReadError

  datatype Reading = Reading(seen: seq<string>, ending: Ending)

  predicate NothingSent(sent: seq<bool>, k: nat) {
    forall i | 0 <= i < k && i < |sent| :: !sent[i]
  }

  predicate Behind(w: World, looks: nat) {
    looks < |w.behind| && w.behind[looks]
  }

  /** What is read with `data` in the buffer and `rest` to come, after `k` elements and `looks` looks. */
  function Scan(data: string, rest: string, w: World, k: nat, looks: nat): Reading
    requires |data| <= GM_BUFFERSIZE
    decreases |data| + |rest|, if data == "" then 2 else 0
  {
    var f := First(data);
    if f.Some? then
      var r := GoOn(data[f.value.1 + |CLOSE|..], rest, w, k + 1, looks + 1);
      Reading([data[f.value.0..f.value.1]] + r.seen, r.ending)
    else if Find(data, OPEN) >= 0 then Reading([], NotClosed)
    else if NothingSent(w.sent, k) && IsMessage(data, Behind(w, looks)) then Reading([], Message)
    else GoOn("", rest, w, k, looks + 1)
  }

  function GoOn(data: string, rest: string, w: World, k: nat, looks: nat): Reading
    requires |data| < GM_BUFFERSIZE
    decreases |data| + |rest|, 1
  {
    if rest == "" && w.broken then Reading([], ReadError)
    else
      var (data', rest') := Filled(data, rest);
      assert |data'| + |rest'| == |data' + rest'| == |data + rest|;
      if data' == "" then Reading([], AtEnd) else Scan(data', rest', w, k, looks)
  }

  lemma ScanStep(data: string, rest: string, w: World, k: nat, looks: nat)
    requires |data| <= GM_BUFFERSIZE
    ensures var f := First(data);
            Scan(data, rest, w, k, looks) ==
            if f.Some? then
              var r := GoOn(data[f.value.1 + |CLOSE|..], rest, w, k + 1, looks + 1);
              Reading([data[f.value.0..f.value.1]] + r.seen, r.ending)
            else if Find(data, OPEN) >= 0 then Reading([], NotClosed)
            else if NothingSent(w.sent, k) && IsMessage(data, Behind(w, looks)) then Reading([], Message)
            else GoOn("", rest, w, k, looks + 1)
  {
    hide Find, First, NothingSent, IsMessage, GoOn;
  }

  lemma GoOnStep(data: string, rest: string, w: World, k: nat, looks: nat)
    requires |data| < GM_BUFFERSIZE
    ensures GoOn(data, rest, w, k, looks) ==
            if rest == "" && w.broken then Reading([], ReadError)
            else
              var (data', rest') := Filled(data, rest);
              if data' == "" then Reading([], AtEnd) else Scan(data', rest', w, k, looks)
  {
    hide Scan, Filled;
  }

  // ---------------------------------------------------------------- what is lost

  /** Nothing is lost, refill by refill: data without an opening tag is thrown away only if no element of the
      whole text begins in it, and reading stops only if there is no element left. */
  predicate Lossless(data: string, rest: string, w: World, k: nat, looks: nat)
    requires |data| <= GM_BUFFERSIZE
    decreases |data| + |rest|, if data == "" then 2 else 0
  {
    var f := First(data);
    if f.Some? then LosslessOn(data[f.value.1 + |CLOSE|..], rest, w, k + 1, looks + 1)
    else if Find(data, OPEN) >= 0 then First(data + rest) == None
    else if NothingSent(w.sent, k) && IsMessage(data, Behind(w, looks)) then First(data + rest) == None
    else !BeginsIn(data, rest) && LosslessOn("", rest, w, k, looks + 1)
  }

  predicate LosslessOn(data: string, rest: string, w: World, k: nat, looks: nat)
    requires |data| < GM_BUFFERSIZE
    decreases |data| + |rest|, 1
  {
    if rest == "" && w.broken then First(data) == None
    else
      var (data', rest') := Filled(data, rest);
      assert |data'| + |rest'| == |data' + rest'| == |data + rest|;
      data' == "" || Lossless(data', rest', w, k, looks)
  }

  /** The first element begins in the data and ends behind it. */
  predicate BeginsIn(data: string, rest: string) {
    First(data + rest).Some? && Find(data + rest, OPEN) < |data|
  }

  /** An element that lies in the data is the first of the whole. */
  lemma FirstInPrefix(data: string, rest: string)
    requires First(data).Some?
    ensures First(data + rest) == First(data)
    ensures var e := First(data).value.1 + |CLOSE|; (data + rest)[e..] == data[e..] + rest
  {
    hide Find;
    var s, n := data + rest, |data|;
    assert s[..n] == data;
    FindInPrefix(s, n, OPEN);
    var q := Find(data, OPEN);
    assert s[q..][..n - q] == data[q..];
    FindInPrefix(s[q..], n - q, CLOSE);
  }

  /** Text in front of the first opening tag makes no difference. */
  lemma FrontDropped(s: string, k: nat)
    requires k <= |s| && (Find(s, OPEN) < 0 || k <= Find(s, OPEN))
    ensures Elements(s[k..]) == Elements(s)
  {
    hide Find, Elements;
    ElementsStep(s);
    ElementsStep(s[k..]);
    if Find(s, OPEN) < 0 {
      FindInSuffix(s, k, OPEN);
      FirstNeedsTag(s);
      FirstNeedsTag(s[k..]);
    } else {
      var q := Find(s, OPEN);
      FindShifted(s, k, OPEN);
      assert s[k..][q - k..] == s[q..];
      if First(s).Some? {
        var f := First(s).value;
        assert s[k..][f.0 - k..f.1 - k] == s[f.0..f.1];
        assert s[k..][f.1 - k + |CLOSE|..] == s[f.1 + |CLOSE|..];
      }
    }
  }

  lemma FindShifted(s: string, k: nat, pat: string)
    requires k <= |s| && Find(s, pat) >= k
    ensures Find(s[k..], pat) == Find(s, pat) - k
  {
    hide Find;
    var q := Find(s, pat);
    FindMatches(s, pat);
    assert s[k..][q - k..q - k + |pat|] == s[q..q + |pat|];
    FindIsFirst(s[k..], pat, q - k);
    FindMatches(s[k..], pat);
    var p := Find(s[k..], pat);
    assert s[k + p..k + p + |pat|] == s[k..][p..p + |pat|];
    FindIsFirst(s, pat, k + p);
  }

  /** `a` is what is left of `b` after some loss: fewer elements, or as many and the first not longer. */
  predicate NotMore(a: seq<string>, b: seq<string>) {
    |a| < |b| || (|a| == |b| && (a == [] || |a[0]| <= |b[0]|))
  }

  predicate Less(a: seq<string>, b: seq<string>) {
    |a| < |b| || (|a| == |b| && a != [] && |a[0]| < |b[0]|)
  }

  /** The closing tag of an element whose opening tag is gone. */
  lemma ClosingTag(s: string, k: nat)
    requires First(s).Some? && Find(s, OPEN) < k <= First(s).value.0
    ensures Find(s[k..], CLOSE) == First(s).value.1 - k
  {
    hide Find;
    var q := Find(s, OPEN);
    assert s[q..][k - q..] == s[k..];
    FindShifted(s[q..], k - q, CLOSE);
  }

  /** Without its opening tag, an element is lost, or its body is shortened to the next opening tag in it. */
  lemma ElementLost(s: string, k: nat)
    requires First(s).Some? && Find(s, OPEN) < k <= First(s).value.0
    ensures Less(Elements(s[k..]), Elements(s))
  {
    hide Find, Elements;
    var r, f := s[k..], First(s).value;
    ElementsStep(s);
    ElementsStep(r);
    ClosingTag(s, k);
    var p := Find(r, OPEN);
    if p >= 0 {
      if k + p < f.1 {
        assert r[p..] == s[k + p..];
        FindShifted(r, p, CLOSE);
        assert First(r) == Some((p + |OPEN|, f.1 - k)) by { TagsApart(r, p, f.1 - k - p); }
        assert r[f.1 - k + |CLOSE|..] == s[f.1 + |CLOSE|..];
      } else {
        BehindClose(r, p, f.1 - k);
        FrontDropped(r, f.1 - k + |CLOSE|);
        assert r[f.1 - k + |CLOSE|..] == s[f.1 + |CLOSE|..];
      }
    } else {
      FirstNeedsTag(r);
    }
  }

  /** Tags do not overlap. */
  lemma BehindClose(r: string, p: nat, e: nat)
    requires Find(r, OPEN) == p && Find(r, CLOSE) == e <= p
    ensures e + |CLOSE| <= p
  {
    hide Find;
    FindMatches(r, OPEN);
    FindMatches(r, CLOSE);
    assert r[p] == r[p..p + |OPEN|][0] == '<' && r[p + 1] == r[p..p + |OPEN|][1] == 'C';
    assert r[e + 1] == r[e..e + |CLOSE|][1] == '/';
    forall i | e < i < e + |CLOSE| ensures r[i] != '<' { assert r[i] == r[e..e + |CLOSE|][i - e] == CLOSE[i - e]; }
  }

  /** Data without an opening tag is thrown away: nothing is lost unless an element begins in it. */
  lemma DataDropped(data: string, rest: string)
    requires Find(data, OPEN) < 0
    ensures if BeginsIn(data, rest) then Less(Elements(rest), Elements(data + rest))
            else Elements(rest) == Elements(data + rest)
  {
    hide Find, Elements;
    var s := data + rest;
    assert s[|data|..] == rest && s[..|data|] == data;
    var q := Find(s, OPEN);
    FindInPrefix(s, |data|, OPEN);
    if BeginsIn(data, rest) {
      ElementLost(s, |data|);
    } else if 0 <= q < |data| {
      NoElement(s, |data|);
    } else {
      FrontDropped(s, |data|);
    }
  }

  lemma NeedsClosingTag(s: string)
    requires Find(s, CLOSE) < 0
    ensures Elements(s) == []
  {
    hide Find, Elements;
    ElementsStep(s);
    var q := Find(s, OPEN);
    if q >= 0 { FindInSuffix(s, q, CLOSE); }
  }

  lemma NoElement(s: string, k: nat)
    requires First(s) == None && 0 <= Find(s, OPEN) < k <= |s|
    ensures Elements(s[k..]) == Elements(s) == []
  {
    hide Find, Elements;
    var q := Find(s, OPEN);
    ElementsStep(s);
    assert s[q..][k - q..] == s[k..];
    FindInSuffix(s[q..], k - q, CLOSE);
    NeedsClosingTag(s[k..]);
  }

  /** Reading never finds more than there is. */
  lemma {:induction false} NeverMore(data: string, rest: string, w: World, k: nat, looks: nat)
    requires |data| <= GM_BUFFERSIZE
    ensures NotMore(Scan(data, rest, w, k, looks).seen, Elements(data + rest))
    decreases |data| + |rest|, if data == "" then 2 else 0
  {
    hide Find, First, Elements, Scan, GoOn, NothingSent, IsMessage, BeginsIn;
    ScanStep(data, rest, w, k, looks);
    var f := First(data);
    if f.Some? {
      NeverMoreOn(data[f.value.1 + |CLOSE|..], rest, w, k + 1, looks + 1);
      FirstInPrefix(data, rest);
      ElementsStep(data + rest);
      assert (data + rest)[f.value.0..f.value.1] == data[f.value.0..f.value.1];
    } else if Find(data, OPEN) < 0 && !(NothingSent(w.sent, k) && IsMessage(data, Behind(w, looks))) {
      NeverMoreOn("", rest, w, k, looks + 1);
      assert "" + rest == rest;
      DataDropped(data, rest);
    }
  }

  lemma {:induction false} NeverMoreOn(data: string, rest: string, w: World, k: nat, looks: nat)
    requires |data| < GM_BUFFERSIZE
    ensures NotMore(GoOn(data, rest, w, k, looks).seen, Elements(data + rest))
    decreases |data| + |rest|, 1
  {
    hide Elements, Scan, GoOn, Filled;
    GoOnStep(data, rest, w, k, looks);
    if !(rest == "" && w.broken) {
      var (data', rest') := Filled(data, rest);
      assert |data'| + |rest'| == |data' + rest'| == |data + rest|;
      if data' != "" { NeverMore(data', rest', w, k, looks); }
    }
  }

  /** For every input, exactly its elements are read, in order, if and only if nothing is lost at any refill. */
  lemma {:induction false} ReadsAllExactly(data: string, rest: string, w: World, k: nat, looks: nat)
    requires |data| <= GM_BUFFERSIZE
    ensures Scan(data, rest, w, k, looks).seen == Elements(data + rest) <==> Lossless(data, rest, w, k, looks)
    decreases |data| + |rest|, if data == "" then 2 else 0
  {
    hide Find, First, Elements, Scan, GoOn, NothingSent, IsMessage, BeginsIn, LosslessOn;
    ScanStep(data, rest, w, k, looks);
    ElementsStep(data + rest);
    var f := First(data);
    if f.Some? {
      ReadsAllOn(data[f.value.1 + |CLOSE|..], rest, w, k + 1, looks + 1);
      FirstInPrefix(data, rest);
      assert (data + rest)[f.value.0..f.value.1] == data[f.value.0..f.value.1];
      SameBehind(data[f.value.0..f.value.1], GoOn(data[f.value.1 + |CLOSE|..], rest, w, k + 1, looks + 1).seen,
                 Elements(data[f.value.1 + |CLOSE|..] + rest));
    } else if Find(data, OPEN) < 0 && !(NothingSent(w.sent, k) && IsMessage(data, Behind(w, looks))) {
      ReadsAllOn("", rest, w, k, looks + 1);
      NeverMoreOn("", rest, w, k, looks + 1);
      assert "" + rest == rest;
      DataDropped(data, rest);
    }
  }

  lemma SameBehind(x: string, a: seq<string>, b: seq<string>)
    ensures [x] + a == [x] + b <==> a == b
  {
    assert ([x] + a)[1..] == a && ([x] + b)[1..] == b;
  }

  lemma {:induction false} ReadsAllOn(data: string, rest: string, w: World, k: nat, looks: nat)
    requires |data| < GM_BUFFERSIZE
    ensures GoOn(data, rest, w, k, looks).seen == Elements(data + rest) <==> LosslessOn(data, rest, w, k, looks)
    decreases |data| + |rest|, 1
  {
    hide Find, First, Elements, Scan, GoOn, Filled, Lossless;
    GoOnStep(data, rest, w, k, looks);
    ElementsStep(data);
    if rest == "" && w.broken {
      assert data + rest == data;
    } else {
      var (data', rest') := Filled(data, rest);
      assert |data'| + |rest'| == |data' + rest'| == |data + rest|;
      if data' != "" {
        ReadsAllExactly(data', rest', w, k, looks);
      } else {
        assert data + rest == "";
        NoTagInNothing();
        ElementsStep("");
      }
    }
  }

  /** If every element fits, nothing is lost unless a read error cuts the input short. */
  lemma {:induction false} FittingIsRead(data: string, rest: string, w: World, k: nat, looks: nat)
    requires |data| <= GM_BUFFERSIZE && Fitting(data + rest)
    requires |data| == GM_BUFFERSIZE || rest == "" || data == ""
    ensures var r := Scan(data, rest, w, k, looks);
            && r.seen <= Elements(data + rest) && r.ending != NotClosed
            && (r.seen == Elements(data + rest) || r.ending == ReadError)
    decreases |data| + |rest|, if data == "" then 2 else 0
  {
    hide Find, First, Elements, Scan, GoOn, NothingSent, IsMessage, Fitting;
    var s := data + rest;
    assert s[..|data|] == data;
    ScanStep(data, rest, w, k, looks);
    ElementsStep(s);
    FittingStep(s);
    if data == "" && rest != "" {
      NoTagInNothing();
      NoMessageInNothing(w, looks);
      FittingGoesOn("", rest, w, k, looks + 1);
    } else {
      FirstInBuffer(s, |data|);
      var f := First(data);
      if f.Some? {
        var left := data[f.value.1 + |CLOSE|..];
        FirstInPrefix(data, rest);
        FittingGoesOn(left, rest, w, k + 1, looks + 1);
        assert s[f.value.0..f.value.1] == data[f.value.0..f.value.1];
      } else {
        FindInSuffix(s, |data|, OPEN);
        assert s[|data|..] == rest == "" + rest;
        FirstNeedsTag(rest);
        ElementsStep(rest);
        FittingStep(rest);
        if !(NothingSent(w.sent, k) && IsMessage(data, Behind(w, looks))) {
          FittingGoesOn("", rest, w, k, looks + 1);
        }
      }
    }
  }

  lemma NoMessageInNothing(w: World, looks: nat)
    ensures !IsMessage("", Behind(w, looks))
  {
  }

  lemma {:induction false} FittingGoesOn(data: string, rest: string, w: World, k: nat, looks: nat)
    requires |data| < GM_BUFFERSIZE && Fitting(data + rest)
    ensures var r := GoOn(data, rest, w, k, looks);
            && r.seen <= Elements(data + rest) && r.ending != NotClosed
            && (r.seen == Elements(data + rest) || r.ending == ReadError)
    decreases |data| + |rest|, 1
  {
    hide Find, First, Elements, Scan, GoOn, Filled, Fitting;
    GoOnStep(data, rest, w, k, looks);
    if !(rest == "" && w.broken) {
      var (data', rest') := Filled(data, rest);
      assert |data'| + |rest'| == |data' + rest'| == |data + rest|;
      if data' != "" {
        FittingIsRead(data', rest', w, k, looks);
      } else {
        assert data + rest == "";
        NoTagInNothing();
        ElementsStep("");
      }
    }
  }

  lemma AllFilled(input: string)
    requires |input| <= GM_BUFFERSIZE
    ensures Filled("", input) == (input, "")
  {
    assert "" + input[..|input|] == input && input[|input|..] == "";
  }

  /** A short input without an opening tag is taken for a message if and only if it begins with ASCII text up to a
      NUL, which may lie just behind it. */
  lemma PlainMessage(input: string, w: World)
    requires 0 < |input| <= GM_BUFFERSIZE && Find(input, OPEN) < 0
    ensures Scan("", input, w, 0, 0).ending == Message <==>
            exists i | 0 < i <= |input| ::
              && (forall k | 0 <= k < i :: 0 < input[k] as int < 128)
              && if i < |input| then input[i] == NUL else Behind(w, 1)
  {
    hide Scan, IsMessage, Behind, Find;
    MessageIsScanned(input, w);
    MessageIs(input, Behind(w, 1));
  }

  lemma MessageIs(input: string, behind: bool)
    ensures IsMessage(input, behind) <==>
            exists i | 0 < i <= |input| ::
              (forall k | 0 <= k < i :: 0 < input[k] as int < 128) && if i < |input| then input[i] == NUL else behind
  {
    if IsMessage(input, behind) {
      var i :| 0 < i <= |input| && Ascii(input, i) && if i < |input| then input[i] == NUL else behind;
      assert forall k | 0 <= k < i :: 0 < input[k] as int < 128;
    }
    forall i | 0 < i <= |input| && (forall k | 0 <= k < i :: 0 < input[k] as int < 128)
               && if i < |input| then input[i] == NUL else behind
      ensures IsMessage(input, behind)
    {
      assert Ascii(input, i);
    }
  }

  lemma MessageIsScanned(input: string, w: World)
    requires 0 < |input| <= GM_BUFFERSIZE && Find(input, OPEN) < 0
    ensures Scan("", input, w, 0, 0).ending == Message <==> IsMessage(input, Behind(w, 1))
  {
    hide Find, First, Scan, GoOn, IsMessage, Behind, Filled;
    NoTagInNothing();
    NoMessageInNothing(w, 0);
    FirstNeedsTag(input);
    ScanStep("", input, w, 0, 0);
    GoOnStep("", input, w, 0, 1);
    AllFilled(input);
    AllFilled("");
    ScanStep(input, "", w, 0, 1);
    GoOnStep("", "", w, 0, 2);
  }

  /** An element is lost when the end of a full buffer cuts its opening tag in two, whatever comes behind. */
  lemma ElementCut(it: Item, tail: string, w: World)
    requires Find(it.gap, OPEN) < 0 && Find(it.body, CLOSE) < 0
    requires GM_BUFFERSIZE - |OPEN| < |it.gap| < GM_BUFFERSIZE
    ensures var input := Stream([it], tail);
            && Elements(input) != [] && Elements(input)[0] == it.body
            && Scan("", input, w, 0, 0).seen != Elements(input)
  {
    hide Find, First, Elements, Scan, NothingSent, IsMessage, Lossless, LosslessOn, Filled;
    var input := Stream([it], tail);
    assert Stream([it][1..], tail) == tail;
    assert input == it.gap + OPEN + it.body + CLOSE + tail;
    FirstOfStream(it, tail);
    ElementsStep(input);
    var (data, rest) := (input[..GM_BUFFERSIZE], input[GM_BUFFERSIZE..]);
    assert Filled("", input) == (data, rest) by { FilledFirst(input); }
    FindInPrefix(input, GM_BUFFERSIZE, OPEN);
    FirstNeedsTag(data);
    assert data + rest == input;
    assert !Lossless(data, rest, w, 0, 1) by { LosslessStep(data, rest, w, 0, 1); }
    NoTagInNothing();
    NoMessageInNothing(w, 0);
    LosslessStep("", input, w, 0, 0);
    LosslessOnStep("", input, w, 0, 1);
    ReadsAllExactly("", input, w, 0, 0);
    assert "" + input == input;
  }

  lemma FilledFirst(input: string)
    requires |input| >= GM_BUFFERSIZE
    ensures Filled("", input) == (input[..GM_BUFFERSIZE], input[GM_BUFFERSIZE..])
  {
    assert "" + input[..GM_BUFFERSIZE] == input[..GM_BUFFERSIZE];
  }

  lemma LosslessStep(data: string, rest: string, w: World, k: nat, looks: nat)
    requires |data| <= GM_BUFFERSIZE && First(data) == None && Find(data, OPEN) < 0
    ensures Lossless(data, rest, w, k, looks) <==>
            if NothingSent(w.sent, k) && IsMessage(data, Behind(w, looks)) then First(data + rest) == None
            else !BeginsIn(data, rest) && LosslessOn("", rest, w, k, looks + 1)
  {
    hide Find, First, NothingSent, IsMessage, BeginsIn, LosslessOn;
  }

  lemma LosslessOnStep(data: string, rest: string, w: World, k: nat, looks: nat)
    requires |data| < GM_BUFFERSIZE && rest != ""
    ensures LosslessOn(data, rest, w, k, looks) <==> Lossless(Filled(data, rest).0, Filled(data, rest).1, w, k, looks)
  {
    hide Lossless, Filled;
  }
}
