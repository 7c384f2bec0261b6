/** The CHILD elements of a text, and which of them a buffer of fixed size has room for. */
module ChildElements {
  import opened CString

  const OPEN := "<CHILD>"
  const CLOSE := "</CHILD>"

  // ---------------------------------------------------------------- elements of a whole input

  /** A closing tag does not begin inside the opening tag. */
  lemma TagsApart(s: string, q: nat, e: nat)
    requires Find(s, OPEN) == q && Find(s[q..], CLOSE) == e
    ensures e >= |OPEN|
  {
    hide Find;
    var t := s[q..];
    FindMatches(s, OPEN);
    FindMatches(t, CLOSE);
    assert t[..|OPEN|] == OPEN;
    assert t[e..e + |CLOSE|][0] == '<' && t[e..e + |CLOSE|][1] == '/';
    assert t[e] == '<' && t[e + 1] == '/';
    assert OPEN[1] == 'C' && forall k | 0 < k < |OPEN| :: OPEN[k] != '<';
  }

  /** The bounds of the first element's body. */
  function First(s: string): (r: Option<(nat, nat)>)
    ensures r.Some? ==> |OPEN| <= r.value.0 <= r.value.1 && r.value.1 + |CLOSE| <= |s|
    ensures r.Some? ==> r.value.0 - |OPEN| == Find(s, OPEN)
  {
    var q := Find(s, OPEN);
    if q < 0 then None
    else
      var e := Find(s[q..], CLOSE);
      if e < 0 then None
      else
        TagsApart(s, q, e);
        Some((q + |OPEN|, q + e))
  }

  /** The bodies of the elements of a text, in order. */
  function Elements(s: string): seq<string>
    decreases |s|
  {
    var f := First(s);
    if f == None then []
    else [s[f.value.0..f.value.1]] + Elements(s[f.value.1 + |CLOSE|..])
  }

  /** Every opening tag has a closing tag, and fits into the buffer together with it and with the
      text in front of it. */
  predicate Fitting(s: string)
    decreases |s|
  {
    Find(s, OPEN) < 0 ||
    (First(s).Some? && First(s).value.1 + |CLOSE| <= GM_BUFFERSIZE && Fitting(s[First(s).value.1 + |CLOSE|..]))
  }

  lemma ElementsStep(s: string)
    ensures First(s) == None ==> Elements(s) == []
    ensures First(s).Some? ==>
              Elements(s) == [s[First(s).value.0..First(s).value.1]] + Elements(s[First(s).value.1 + |CLOSE|..])
  {
  }

  lemma FittingStep(s: string)
    ensures Fitting(s) <==> Find(s, OPEN) < 0 ||
                            (First(s).Some? && First(s).value.1 + |CLOSE| <= GM_BUFFERSIZE
                             && Fitting(s[First(s).value.1 + |CLOSE|..]))
  {
  }

  // ---------------------------------------------------------------- a stream put together

  /** Text before an element, and the element's body. */
  datatype Item = Item(gap: string, body: string)

  function Stream(items: seq<Item>, tail: string): string {
    if items == [] then tail
    else items[0].gap + "<CHILD>" + items[0].body + "</CHILD>" + Stream(items[1..], tail)
  }

  function Bodies(items: seq<Item>): seq<string> {
    if items == [] then [] else [items[0].body] + Bodies(items[1..])
  }

  predicate Untagged(items: seq<Item>, tail: string) {
    Find(tail, OPEN) < 0 && forall it | it in items :: Find(it.gap, OPEN) < 0 && Find(it.body, CLOSE) < 0
  }

  predicate Small(it: Item) {
    |it.gap| + |OPEN| + |it.body| + |CLOSE| <= GM_BUFFERSIZE
  }

  /** A tag has one '<', so it is not found across the end of the text in front of it. */
  lemma TagAfter(text: string, tag: string, rest: string)
    requires tag != "" && tag[0] == '<' && '<' !in tag[1..] && Find(text, tag) < 0
    ensures Find(text + tag + rest, tag) == |text|
  {
    hide Find;
    var s := text + tag + rest;
    assert s[|text|..|text| + |tag|] == tag;
    FindIsFirst(s, tag, |text|);
    FindMatches(s, tag);
    var q := Find(s, tag);
    assert s[|text|] == '<';
    forall k | q < k < q + |tag| ensures s[k] != '<' {
      assert tag[1..][k - q - 1] == tag[k - q] == s[q..q + |tag|][k - q];
    }
    if q + |tag| <= |text| {
      assert text[q..q + |tag|] == s[q..q + |tag|];
      FindIsFirst(text, tag, q);
    }
  }

  lemma NoCloseInOpen(body: string)
    requires Find(body, CLOSE) < 0
    ensures Find(OPEN + body, CLOSE) < 0
  {
    hide Find;
    var s := OPEN + body;
    var e := Find(s, CLOSE);
    if e >= 0 {
      FindMatches(s, CLOSE);
      assert s[e..e + |CLOSE|][0] == '<' && s[e..e + |CLOSE|][1] == '/';
      assert s[e] == '<' && s[e + 1] == '/';
      assert OPEN[1] == 'C' && forall k | 0 < k < |OPEN| :: OPEN[k] != '<';
      assert e >= |OPEN|;
      assert body[e - |OPEN|..e - |OPEN| + |CLOSE|] == s[e..e + |CLOSE|];
      FindIsFirst(body, CLOSE, e - |OPEN|);
    }
  }

  lemma FirstOfStream(it: Item, rest: string)
    requires Find(it.gap, OPEN) < 0 && Find(it.body, CLOSE) < 0
    ensures var s := it.gap + OPEN + it.body + CLOSE + rest; var n := |it.gap| + |OPEN|;
            First(s) == Some((n, n + |it.body|))
            && s[n..n + |it.body|] == it.body && s[n + |it.body| + |CLOSE|..] == rest
  {
    hide Find;
    var s := it.gap + OPEN + it.body + CLOSE + rest;
    assert s == it.gap + OPEN + (it.body + CLOSE + rest);
    TagAfter(it.gap, OPEN, it.body + CLOSE + rest);
    var t := s[|it.gap|..];
    assert t == OPEN + it.body + CLOSE + rest;
    NoCloseInOpen(it.body);
    TagAfter(OPEN + it.body, CLOSE, rest);
  }

  /** The elements of such a stream are the bodies it was made of, and it fits if and only if every
      item does. */
  lemma {:induction false} ElementsOfStream(items: seq<Item>, tail: string)
    requires Untagged(items, tail)
    ensures Elements(Stream(items, tail)) == Bodies(items)
    ensures Fitting(Stream(items, tail)) <==> forall it | it in items :: Small(it)
  {
    hide Elements, Fitting, First, Find;
    var s := Stream(items, tail);
    ElementsStep(s);
    FittingStep(s);
    if items == [] {
      FirstNeedsTag(s);
    } else {
      var it := items[0];
      assert it in items;
      FirstOfStream(it, Stream(items[1..], tail));
      ElementsOfStream(items[1..], tail);
      assert items == [it] + items[1..];
    }
  }

  /** A match inside a prefix is the first match of the whole. */
  lemma FindInPrefix(s: string, n: nat, pat: string)
    requires n <= |s|
    ensures Find(s[..n], pat) >= 0 ==> Find(s, pat) == Find(s[..n], pat)
    ensures Find(s, pat) >= 0 && Find(s, pat) + |pat| <= n ==> Find(s[..n], pat) == Find(s, pat)
  {
    hide Find;
    if Find(s, pat) >= 0 && Find(s, pat) + |pat| <= n { FoundInPrefix(s, n, pat); }
    if Find(s[..n], pat) >= 0 {
      var p := Find(s[..n], pat);
      FindMatches(s[..n], pat);
      assert s[..n][p..p + |pat|] == s[p..p + |pat|];
      FindIsFirst(s, pat, p);
      FoundInPrefix(s, n, pat);
    }
  }

  lemma FoundInPrefix(s: string, n: nat, pat: string)
    requires n <= |s| && 0 <= Find(s, pat) <= n - |pat|
    ensures Find(s[..n], pat) == Find(s, pat)
  {
    hide Find;
    var p := Find(s, pat);
    FindMatches(s, pat);
    assert s[..n][p..p + |pat|] == s[p..p + |pat|];
    FindIsFirst(s[..n], pat, p);
    FindMatches(s[..n], pat);
    var q := Find(s[..n], pat);
    assert s[q..q + |pat|] == s[..n][q..q + |pat|];
    FindIsFirst(s, pat, q);
  }

  lemma {:induction false} FindInSuffix(s: string, k: nat, pat: string)
    requires k <= |s| && Find(s, pat) < 0
    ensures Find(s[k..], pat) < 0
  {
    if k == 0 {
      assert s[0..] == s;
    } else {
      assert s[k..] == s[1..][k - 1..];
      FindInSuffix(s[1..], k - 1, pat);
    }
  }

  /** A full buffer, or one that holds all the rest, shows the first element as the whole text does. */
  lemma FirstInBuffer(s: string, n: nat)
    requires Fitting(s) && (n == |s| || GM_BUFFERSIZE <= n <= |s|)
    ensures First(s[..n]) == First(s) && (First(s) == None ==> Find(s, OPEN) < 0 && Find(s[..n], OPEN) < 0)
  {
    hide Find, Fitting;
    FittingStep(s);
    FindInPrefix(s, n, OPEN);
    var q := Find(s, OPEN);
    if q >= 0 {
      assert s[..n][q..] == s[q..][..n - q];
      FindInPrefix(s[q..], n - q, CLOSE);
    }
  }

  lemma NoTagInNothing()
    ensures Find("", OPEN) < 0 && First("") == None
  {
  }

  lemma FirstNeedsTag(s: string)
    requires Find(s, OPEN) < 0
    ensures First(s) == None
  {
  }
}
