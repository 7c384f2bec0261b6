/** read_child_check of send_multi: the attributes of one element are cut out of it in place, put into
    brackets, trimmed and decoded. */
module ChildCheck {
  import opened CString
  import DecodeXml

  // ---------------------------------------------------------------- reading one element

  /** Where the value of an attribute starts and ends in an element. */
  function Attribute(body: string, element: string): (r: Option<(nat, nat)>)
    ensures r.Some? ==> |element| + 2 <= r.value.0 <= r.value.1 && r.value.1 + |element| + 3 <= |body|
  {
    var q := Find(body, "<" + element + ">");
    if q < 0 then None
    else
      var v := q + |element| + 2;
      var w := Find(body[v..], "</" + element + ">");
      if w < 0 then None else Some((v, v + w))
  }

  /** Element names are words. */
  predicate Name(e: string) {
    e != "" && forall i | 0 <= i < |e| :: 'a' <= e[i] <= 'z'
  }

  function OpenTag(e: string): string {
    "<" + e + ">"
  }

  function CloseTag(e: string): string {
    "</" + e + ">"
  }

  ghost predicate SameMatches(s: string, t: string, pat: string) {
    |s| == |t| && forall i: nat :: MatchesAt(s, pat, i) <==> MatchesAt(t, pat, i)
  }

  /** All tags but those of the elements `done` are where they were. */
  ghost predicate Undisturbed(s: string, t: string, done: set<string>) {
    forall e | Name(e) && e !in done :: SameTags(s, t, e)
  }

  ghost predicate SameTags(s: string, t: string, e: string) {
    SameMatches(s, t, OpenTag(e)) && SameMatches(s, t, CloseTag(e))
  }

  lemma SameFind(s: string, t: string, pat: string)
    requires SameMatches(s, t, pat)
    ensures Find(s, pat) == Find(t, pat)
  {
    hide Find;
    if Find(s, pat) >= 0 {
      FindMatches(s, pat);
      FindIsFirst(t, pat, Find(s, pat));
    }
    if Find(t, pat) >= 0 {
      FindMatches(t, pat);
      FindIsFirst(s, pat, Find(t, pat));
    }
  }

  lemma SameMatchesBehind(s: string, t: string, pat: string, k: nat)
    requires SameMatches(s, t, pat) && k <= |s|
    ensures SameMatches(s[k..], t[k..], pat)
  {
    forall i: nat ensures MatchesAt(s[k..], pat, i) <==> MatchesAt(t[k..], pat, i) {
      if k + i + |pat| <= |s| {
        assert s[k..][i..i + |pat|] == s[k + i..k + i + |pat|];
        assert t[k..][i..i + |pat|] == t[k + i..k + i + |pat|];
        assert MatchesAt(s, pat, k + i) <==> MatchesAt(t, pat, k + i);
      }
    }
  }

  lemma SameAttribute(s: string, t: string, e: string)
    requires SameTags(s, t, e)
    ensures Attribute(s, e) == Attribute(t, e)
  {
    hide Find, SameMatches;
    SameFind(s, t, OpenTag(e));
    var q := Find(s, OpenTag(e));
    if q >= 0 {
      SameLength(s, t, OpenTag(e));
      var v := q + |e| + 2;
      SameMatchesBehind(s, t, CloseTag(e), v);
      SameFind(s[v..], t[v..], CloseTag(e));
    }
  }

  lemma SameLength(s: string, t: string, pat: string)
    requires SameMatches(s, t, pat)
    ensures |s| == |t|
  {
  }

  lemma UndisturbedThen(s: string, t: string, u: string, a: set<string>, b: set<string>)
    requires Undisturbed(s, t, a) && Undisturbed(t, u, b)
    ensures Undisturbed(s, u, a + b)
  {
    hide SameTags;
    forall e | Name(e) && e !in a + b ensures SameTags(s, u, e) {
      assert SameTags(s, t, e) && SameTags(t, u, e);
      SameTagsThen(s, t, u, e);
    }
  }

  lemma SameTagsThen(s: string, t: string, u: string, e: string)
    requires SameTags(s, t, e) && SameTags(t, u, e)
    ensures SameTags(s, u, e)
  {
  }

  /** A tag is its own only occurrence: two tags that share a character are the same. */
  predicate Tag(p: string) {
    |p| >= 3 && p[0] == '<' && p[|p| - 1] == '>' && '<' !in p[1..] && '>' !in p[..|p| - 1]
  }

  lemma TagsAreTags(e: string)
    requires Name(e)
    ensures Tag(OpenTag(e)) && Tag(CloseTag(e))
    ensures OpenTag(e)[1] != '/' && CloseTag(e)[1] == '/'
  {
    assert OpenTag(e)[1..] == e + ">" && OpenTag(e)[..|e| + 1] == "<" + e;
    assert CloseTag(e)[1..] == "/" + e + ">" && CloseTag(e)[..|e| + 2] == "</" + e;
  }

  lemma TagsShareNothing(s: string, p: string, i: nat, q: string, j: nat, k: nat)
    requires Tag(p) && Tag(q) && MatchesAt(s, p, i) && MatchesAt(s, q, j)
    requires i <= k < i + |p| && j <= k < j + |q|
    ensures p == q && i == j
  {
    assert forall x | 0 <= x < |p| :: s[i + x] == s[i..i + |p|][x] == p[x];
    assert forall x | 0 <= x < |q| :: s[j + x] == s[j..j + |q|][x] == q[x];
    assert forall x | 0 < x < |p| :: p[x] == p[1..][x - 1];
    assert forall x | 0 < x < |q| :: q[x] == q[1..][x - 1];
    assert forall x | 0 <= x < |p| - 1 :: p[x] == p[..|p| - 1][x];
    assert forall x | 0 <= x < |q| - 1 :: q[x] == q[..|q| - 1][x];
    assert i == j by { assert s[i] == '<' && s[j] == '<' && s[k] == p[k - i] == q[k - j]; }
    assert |p| == |q| by { assert s[i + |p| - 1] == '>' && s[j + |q| - 1] == '>'; }
    assert p == s[i..i + |p|] == q;
  }

  /** Writing characters no tag has into one tag leaves all others where they are. */
  lemma WriteInTag(s: string, t: string, own: string, at: nat, p: string)
    requires Tag(own) && MatchesAt(s, own, at) && Tag(p) && p != own && |s| == |t|
    requires forall i | 0 <= i < |s| && t[i] != s[i] :: at <= i < at + |own| && t[i] !in p
    ensures SameMatches(s, t, p)
  {
    hide Tag;
    forall i: nat ensures MatchesAt(s, p, i) <==> MatchesAt(t, p, i) {
      if MatchesAt(s, p, i) {
        forall k | i <= k < i + |p| ensures t[k] == s[k] {
          if t[k] != s[k] { TagsShareNothing(s, p, i, own, at, k); }
        }
        assert t[i..i + |p|] == s[i..i + |p|];
      }
      if MatchesAt(t, p, i) {
        forall k | i <= k < i + |p| ensures t[k] == s[k] {
          assert t[k] == t[i..i + |p|][k - i] == p[k - i];
        }
        assert t[i..i + |p|] == s[i..i + |p|];
      }
    }
  }

  lemma NamesDiffer(e: string, f: string)
    requires Name(e) && Name(f) && e != f
    ensures OpenTag(f) != OpenTag(e) && CloseTag(f) != CloseTag(e)
    ensures OpenTag(f) != CloseTag(e) && CloseTag(f) != OpenTag(e)
  {
    TagsAreTags(e);
    TagsAreTags(f);
    assert OpenTag(e)[1..|OpenTag(e)| - 1] == e && OpenTag(f)[1..|OpenTag(f)| - 1] == f;
    assert CloseTag(e)[2..|CloseTag(e)| - 1] == e && CloseTag(f)[2..|CloseTag(f)| - 1] == f;
  }

  lemma ClosedAt(s: string, e: string)
    requires Attribute(s, e).Some?
    ensures MatchesAt(s, CloseTag(e), Attribute(s, e).value.1)
    ensures MatchesAt(s, OpenTag(e), Attribute(s, e).value.0 - |OpenTag(e)|)
  {
    hide Find;
    var (v, w) := Attribute(s, e).value;
    FindMatches(s, OpenTag(e));
    FindMatches(s[v..], CloseTag(e));
    assert s[w..w + |CloseTag(e)|] == s[v..][w - v..w - v + |CloseTag(e)|];
  }

  /** Cutting off the closing tag of one attribute leaves all others to be found. */
  lemma CutUndisturbed(s: string, e: string)
    requires Name(e) && Attribute(s, e).Some?
    ensures Undisturbed(s, s[Attribute(s, e).value.1 := NUL], {e})
    ensures s[Attribute(s, e).value.1] == '<' && s[Attribute(s, e).value.1 + 1] == '/'
  {
    hide Find, Tag, SameMatches, Name, Attribute;
    var w := Attribute(s, e).value.1;
    ClosedAt(s, e);
    assert s[w] == s[w..w + |CloseTag(e)|][0] && s[w + 1] == s[w..w + |CloseTag(e)|][1];
    TagsAreTags(e);
    forall f | Name(f) && f !in {e} ensures SameTags(s, s[w := NUL], f) {
      TagsAreTags(f);
      NamesDiffer(e, f);
      NoSpecial(f);
      WriteInTag(s, s[w := NUL], CloseTag(e), w, OpenTag(f));
      WriteInTag(s, s[w := NUL], CloseTag(e), w, CloseTag(f));
    }
  }

  lemma NoSpecial(e: string)
    requires Name(e)
    ensures forall c | c in {NUL, ' ', '[', ']'} :: c !in OpenTag(e) && c !in CloseTag(e)
  {
  }

  lemma NothingDisturbed(s: string, done: set<string>)
    ensures Undisturbed(s, s, done)
  {
  }

  /** Behind each NUL is what is left of a closing tag. */
  ghost predicate OnlyCuts(s: string) {
    forall i | 0 <= i < |s| && s[i] == NUL :: i + 1 < |s| && s[i + 1] == '/'
  }

  lemma WriteBehindCut(s: string, t: string, z: nat, p: string)
    requires Tag(p) && NUL !in p && ']' !in p && |s| == |t| && z + 1 < |s| && s[z] == NUL && s[z + 1] == '/'
    requires t == s[z := ']'][z + 1 := NUL]
    ensures SameMatches(s, t, p)
  {
    forall i: nat ensures MatchesAt(s, p, i) <==> MatchesAt(t, p, i) {
      if MatchesAt(s, p, i) {
        forall k | i <= k < i + |p| ensures t[k] == s[k] {
          assert s[k] == s[i..i + |p|][k - i] == p[k - i];
          assert k > i ==> s[k - 1] == s[i..i + |p|][k - 1 - i] == p[k - 1 - i];
        }
        assert t[i..i + |p|] == s[i..i + |p|];
      }
      if MatchesAt(t, p, i) {
        forall k | i <= k < i + |p| ensures t[k] == s[k] {
          assert t[k] == t[i..i + |p|][k - i] == p[k - i];
        }
        assert t[i..i + |p|] == s[i..i + |p|];
      }
    }
  }

  /** The brackets around the error text overwrite the end of its opening tag and the rest of a closing
      tag. */
  lemma BracketsUndisturbed(s: string, t: string, v: nat, z: nat)
    requires |OpenTag("error")| <= v <= z < |s| && MatchesAt(s, OpenTag("error"), v - |OpenTag("error")|)
    requires s[z] == NUL && OnlyCuts(s)
    requires z + 1 < |s| ==> t == s[v - 2 := ' '][v - 1 := '['][z := ']'][z + 1 := NUL]
    ensures z + 1 < |s| && Undisturbed(s, t, {"error"})
  {
    hide Find, Tag, SameMatches, Name;
    var e := "error";
    assert Name(e) by { NameOfError(); }
    var u := s[v - 2 := ' '][v - 1 := '['];
    TagsAreTags(e);
    forall f | Name(f) && f !in {e} ensures SameTags(s, t, f) {
      TagsAreTags(f);
      NamesDiffer(e, f);
      NoSpecial(f);
      WriteInTag(s, u, OpenTag(e), v - |OpenTag(e)|, OpenTag(f));
      WriteInTag(s, u, OpenTag(e), v - |OpenTag(e)|, CloseTag(f));
      WriteBehindCut(u, t, z, OpenTag(f));
      WriteBehindCut(u, t, z, CloseTag(f));
      SameTagsThen(s, u, t, f);
    }
  }

  lemma NameOfError()
    ensures Name("error")
  {
  }
  /** Nothing outside the offsets lo to hi has changed. */
  ghost predicate Within(before: seq<char>, after: seq<char>, lo: nat, hi: nat) {
    |before| == |after| && forall i | 0 <= i < |before| && (i < lo || hi <= i) :: after[i] == before[i]
  }

  /** Whatever was NUL before still is. */
  ghost predicate NulsKept(before: seq<char>, after: seq<char>) {
    |before| == |after| && forall i | 0 <= i < |before| && before[i] == NUL :: after[i] == NUL
  }

  ghost predicate EndsBefore(s: seq<char>, p: int, hi: nat) {
    0 <= p <= hi <= |s| && exists i :: p <= i < hi && s[i] == NUL
  }

  lemma ThenWithin(s: seq<char>, t: seq<char>, u: seq<char>, lo: nat, hi: nat)
    requires Within(s, t, lo, hi) && Within(t, u, lo, hi)
    ensures Within(s, u, lo, hi)
  {
  }

  lemma ThenKept(s: seq<char>, t: seq<char>, u: seq<char>)
    requires NulsKept(s, t) && NulsKept(t, u)
    ensures NulsKept(s, u)
  {
  }

  lemma StillEnds(s: seq<char>, t: seq<char>, p: int, hi: nat)
    requires NulsKept(s, t)
    ensures EndsBefore(s, p, hi) ==> EndsBefore(t, p, hi)
  {
  }

  /** The element after read_multi_attribute. */
  function CutOut(s: string, e: string): (t: string)
    ensures |t| == |s|
  {
    if Attribute(s, e) == None then s else s[Attribute(s, e).value.1 := NUL]
  }

  /** The element with brackets around the error text at `v`, if there is one. */
  function Bracketed(s: string, v: nat): (t: string)
    requires 2 <= v < |s|
    ensures |t| == |s|
  {
    var z := v + |CStr(s[v..])|;
    if z == v || z + 1 >= |s| then s else s[v - 2 := ' '][v - 1 := '['][z := ']'][z + 1 := NUL]
  }

  /** What reading the attributes `done` does to the rest of an element. */
  ghost predicate Passed(s: string, t: string, done: set<string>) {
    Undisturbed(s, t, done) && (OnlyCuts(s) ==> OnlyCuts(t))
  }

  lemma PassedAttribute(s: string, e: string)
    requires Name(e)
    ensures Passed(s, CutOut(s, e), {e})
  {
    hide Undisturbed, Attribute;
    NothingDisturbed(s, {e});
    if Attribute(s, e).Some? { CutUndisturbed(s, e); }
  }

  lemma PassedThen(s: string, t: string, u: string, a: set<string>, b: set<string>)
    requires Passed(s, t, a) && Passed(t, u, b)
    ensures Passed(s, u, a + b)
  {
    hide Undisturbed, OnlyCuts;
    UndisturbedThen(s, t, u, a, b);
  }

  lemma PassedKeeps(s: string, t: string, done: set<string>, e: string)
    requires Passed(s, t, done) && Name(e) && e !in done
    ensures Attribute(s, e) == Attribute(t, e)
  {
    hide SameTags, Attribute;
    SameAttribute(s, t, e);
  }

  lemma NamesOfElements()
    ensures Name("no") && Name("name") && Name("rc") && Name("runtime") && Name("output") && Name("error")
    ensures Name("performance") && Name("pplugin")
  {
  }

  // ---------------------------------------------------------------- which elements are accepted

  predicate Has(body: string, e: string) {
    Attribute(body, e).Some?
  }

  /** The number, name, return code and run time are there, and it is not the parent check. */
  predicate Identified(body: string) {
    && Has(body, "no")
    && CStr(body[Attribute(body, "no").value.0..Attribute(body, "no").value.1]) != "0"
    && Has(body, "name") && Has(body, "rc") && Has(body, "runtime")
  }

  predicate Told(body: string) {
    Has(body, "output") && Has(body, "error") && (Has(body, "performance") ==> Has(body, "pplugin"))
  }

  /** The same of an element as it is when its texts are read: the error gets its brackets before the
      performance data are looked for. */
  predicate ToldHere(s: string) {
    var t := CutOut(s, "output");
    && Has(s, "output") && Has(t, "error")
    && var u := Bracketed(CutOut(t, "error"), Attribute(t, "error").value.0);
       Has(u, "performance") ==> Has(CutOut(u, "performance"), "pplugin")
  }

  /** Exactly which elements are accepted, whatever is in them. */
  predicate Accepted(body: string) {
    && Identified(body)
    && ToldHere(CutOut(CutOut(CutOut(CutOut(body, "no"), "name"), "rc"), "runtime"))
  }

  // ---------------------------------------------------------------- the methods

  /** read_multi_attribute: -1 is the null pointer. The closing tag is cut off with a NUL at `end`. */
  method ReadMultiAttribute(buf: array<char>, bufstart: nat, bufend: nat, element: string)
    returns (value: int, ghost end: nat)
    requires bufstart <= bufend <= buf.Length
    modifies buf
    ensures Attribute(old(buf[bufstart..bufend]), element) ==
            if value == -1 then None else Some((value - bufstart, end - bufstart))
    ensures value == -1 ==> buf[..] == old(buf[..])
    ensures value != -1 ==> bufstart + |element| + 2 <= value <= end && end + |element| + 3 <= bufend
    ensures value != -1 ==> buf[..] == old(buf[..])[end := NUL] && EndsBefore(buf[..], value, bufend)
    ensures value != -1 ==> buf[value..end] == old(buf[value..end])
    ensures Within(old(buf[..]), buf[..], bufstart, bufend) && NulsKept(old(buf[..]), buf[..])
    ensures Name(element) ==> Passed(old(buf[bufstart..bufend]), buf[bufstart..bufend], {element})
    ensures buf[bufstart..bufend] == CutOut(old(buf[bufstart..bufend]), element)
  {
    hide Find, Passed, Name;
    ghost var body := buf[bufstart..bufend];
    if Name(element) { PassedAttribute(body, element); }
    var start_element := "<" + element + ">";
    var end_element := "</" + element + ">";
    value, end := -1, 0;
    var q := Find(buf[bufstart..bufend], start_element);
    if q < 0 { return; }
    var v := bufstart + q + |start_element|;
    assert buf[v..bufend] == buf[bufstart..bufend][q + |start_element|..];
    var w := Find(buf[v..bufend], end_element);
    if w < 0 { return; }
    value, end := v, v + w;
    buf[v + w] := NUL;
    assert buf[bufstart..bufend] == body[end - bufstart := NUL];
  }

  lemma NulAt(buf: array<char>, p: nat, hi: nat)
    requires EndsBefore(buf[..], p, hi)
    ensures NUL in buf[p..] && p + |CStr(buf[p..])| < hi && buf[p + |CStr(buf[p..])|] == NUL
  {
    var end :| p <= end < hi && buf[end] == NUL;
    assert buf[p..][end - p] == NUL;
    CStrEnd(buf[p..]);
  }

  method EndOf(buf: array<char>, p: nat, ghost hi: nat) returns (z: nat)
    requires EndsBefore(buf[..], p, hi)
    ensures p <= z < hi && buf[p..z] == CStr(buf[p..]) && buf[z] == NUL
  {
    NulAt(buf, p, hi);
    z := StrLen(buf, p);
  }

  /** The brackets around an error text: two characters in front of it and one behind. */
  method BracketError(buf: array<char>, error: nat, ghost hi: nat) returns (text: nat, ghost last: nat)
    requires 2 <= error && EndsBefore(buf[..], error, hi) && hi < buf.Length
    modifies buf
    ensures text == error - 2 && error < last <= hi && Within(old(buf[..]), buf[..], text, last + 1) && buf[last] == NUL
    ensures last == error + |old(CStr(buf[error..]))| + 1 && old(buf[last - 1]) == NUL
    ensures buf[..] == old(buf[..])[error - 2 := ' '][error - 1 := '['][last - 1 := ']'][last := NUL]
    ensures CStr(buf[text..]) == " [" + old(CStr(buf[error..])) + "]"
  {
    hide CStr;
    var z := EndOf(buf, error, hi);
    ghost var e := buf[error..z];
    text := error - 1;
    buf[text] := '[';
    text := text - 1;
    buf[text] := ' ';
    buf[z] := ']';
    buf[z + 1] := NUL;
    assert buf[error..z] == e;
    assert buf[text..z + 1] == " [" + e + "]";
    TextAt(buf, text, z + 1, " [" + e + "]");
    last := z + 1;
  }

  /** decode_xml on a string that ends inside the element. */
  method DecodeWithin(buf: array<char>, p: nat, hi: nat, ghost lo: nat)
    requires lo <= p && EndsBefore(buf[..], p, hi)
    modifies buf
    ensures Within(old(buf[..]), buf[..], lo, hi) && NulsKept(old(buf[..]), buf[..]) && EndsBefore(buf[..], p, hi)
    ensures CStr(buf[p..]) == DecodeXml.Decode(old(CStr(buf[p..])))
  {
    hide CStr, DecodeXml.DecodeFrom;
    ghost var end :| p <= end < hi && buf[end] == NUL;
    NulAt(buf, p, hi);
    ghost var s := CStr(buf[p..]);
    forall i | p <= i < p + |s| ensures buf[i] != NUL {
      assert buf[p..][i - p] == s[i - p];
    }
    DecodeXml.DecodeInPlace(buf, p);
    assert buf[end] == NUL;
  }

  /** The number of the child check; the parent check has number 0. */
  method ReadNumber(buf: array<char>, bufstart: nat, bufend: nat) returns (child: bool)
    requires bufstart <= bufend <= buf.Length
    modifies buf
    ensures Within(old(buf[..]), buf[..], bufstart, bufend)
    ensures Passed(old(buf[bufstart..bufend]), buf[bufstart..bufend], {"no"})
    ensures buf[bufstart..bufend] == CutOut(old(buf[bufstart..bufend]), "no")
    ensures var body := old(buf[bufstart..bufend]); var no := Attribute(body, "no");
            child <==> no.Some? && CStr(body[no.value.0..no.value.1]) != "0"
  {
    hide CStr, Attribute, Within, NulsKept, EndsBefore, Passed, Name, CutOut;
    ghost var body := buf[bufstart..bufend];
    NamesOfElements();
    var no, end := ReadMultiAttribute(buf, bufstart, bufend, "no");
    if no == -1 { return false; }
    ghost var value := body[no - bufstart..end - bufstart];
    Slice(old(buf[..]), bufstart, bufend, no, end);
    assert body == old(buf[..])[bufstart..bufend] && old(buf[no..end]) == old(buf[..])[no..end];
    assert value == buf[no..end] && buf[..][end] == NUL;
    NulAt(buf, no, bufend);
    var z := StrLen(buf, no);
    assert buf[no..] == value + buf[end..];
    CStrUpTo(value, buf[end..]);
    child := buf[no..z] != "0";
  }

  /** The next attribute that must be there. */
  method ReadNext(buf: array<char>, bufstart: nat, bufend: nat, element: string, ghost s0: seq<char>,
                  ghost done: set<string>) returns (found: bool)
    requires bufstart <= bufend <= buf.Length && bufend <= |s0| && Name(element) && element !in done
    requires Within(s0, buf[..], bufstart, bufend) && Passed(s0[bufstart..bufend], buf[bufstart..bufend], done)
    modifies buf
    ensures Within(s0, buf[..], bufstart, bufend)
    ensures Passed(s0[bufstart..bufend], buf[bufstart..bufend], done + {element})
    ensures found <==> Has(s0[bufstart..bufend], element)
    ensures buf[bufstart..bufend] == CutOut(old(buf[bufstart..bufend]), element)
  {
    hide CStr, Attribute, Within, NulsKept, EndsBefore, Passed, Name, CutOut;
    ghost var b, s := buf[..], buf[bufstart..bufend];
    PassedKeeps(s0[bufstart..bufend], s, done, element);
    var value, _ := ReadMultiAttribute(buf, bufstart, bufend, element);
    ThenWithin(s0, b, buf[..], bufstart, bufend);
    PassedThen(s0[bufstart..bufend], s, buf[bufstart..bufend], done, {element});
    found := value != -1;
  }

  /** The first half of read_child_check: the attributes that identify a result. */
  method ReadIdentity(buf: array<char>, bufstart: nat, bufend: nat) returns (ok: bool)
    requires bufstart <= bufend <= buf.Length
    modifies buf
    ensures Within(old(buf[..]), buf[..], bufstart, bufend)
    ensures ok ==> Passed(old(buf[bufstart..bufend]), buf[bufstart..bufend], {"no", "name", "rc", "runtime"})
    ensures ok <==> Identified(old(buf[bufstart..bufend]))
    ensures ok ==> buf[bufstart..bufend] ==
                   CutOut(CutOut(CutOut(CutOut(old(buf[bufstart..bufend]), "no"), "name"), "rc"), "runtime")
  {
    hide CStr, Attribute, Within, NulsKept, EndsBefore, Passed, Name, CutOut;
    NamesOfElements();
    ghost var s0 := buf[..];
    assert s0[bufstart..bufend] == buf[bufstart..bufend];
    ok := ReadNumber(buf, bufstart, bufend);
    if !ok { return; }
    ok := ReadNext(buf, bufstart, bufend, "name", s0, {"no"});
    if !ok { return; }
    ok := ReadNext(buf, bufstart, bufend, "rc", s0, {"no"} + {"name"});
    if !ok { return; }
    ok := ReadNext(buf, bufstart, bufend, "runtime", s0, {"no"} + {"name"} + {"rc"});
    assert {"no"} + {"name"} + {"rc"} + {"runtime"} == {"no", "name", "rc", "runtime"};
  }

  /** Brackets for an error text that ends at `end` at the latest. `p` is a string read before. */
  method AddBrackets(buf: array<char>, ghost bufstart: nat, ghost bufend: nat, error: nat, ghost end: nat, ghost p: nat)
    requires bufstart + |OpenTag("error")| <= error <= end && end + 1 < bufend <= buf.Length && buf[end] == NUL
    requires EndsBefore(buf[..], p, bufend)
    modifies buf
    ensures Within(old(buf[..]), buf[..], bufstart, bufend)
    ensures EndsBefore(buf[..], error - 2, bufend) && EndsBefore(buf[..], p, bufend)
    ensures var s := old(buf[bufstart..bufend]);
            OnlyCuts(s) && MatchesAt(s, OpenTag("error"), error - bufstart - |OpenTag("error")|) ==>
              Undisturbed(s, buf[bufstart..bufend], {"error"})
    ensures old(buf[error]) != NUL ==>
              buf[bufstart..bufend] == Bracketed(old(buf[bufstart..bufend]), error - bufstart)
  {
    hide CStr, Undisturbed, OnlyCuts;
    ghost var before := buf[..];
    assert before[end] == NUL;
    ghost var i :| p <= i < bufend && before[i] == NUL;
    ghost var text, last := BracketError(buf, error, end + 1);
    assert buf[..][last] == NUL && (i > last ==> buf[..][i] == NUL);
    ghost var s := before[bufstart..bufend];
    BracketsWritten(before, buf[..], bufstart, bufend, error, last - 1);
    if OnlyCuts(s) && MatchesAt(s, OpenTag("error"), error - bufstart - |OpenTag("error")|) {
      BracketsInElement(before, buf[..], bufstart, bufend, error, last - 1);
    }
  }

  lemma BracketsWritten(b: seq<char>, c: seq<char>, bufstart: nat, bufend: nat, v: nat, z: nat)
    requires bufstart + 2 <= v <= z && z + 1 < bufend <= |b| && b[z] == NUL && z == v + |CStr(b[v..])|
    requires c == b[v - 2 := ' '][v - 1 := '['][z := ']'][z + 1 := NUL]
    ensures b[v] != NUL ==> c[bufstart..bufend] == Bracketed(b[bufstart..bufend], v - bufstart)
  {
    hide CStr;
    var s, x := b[bufstart..bufend], v - bufstart;
    var front := b[v..bufend];
    assert s[x..] == front && b[v..] == front + b[bufend..];
    assert front[z - v] == NUL;
    CStrPrefix(front, b[bufend..]);
    assert c[bufstart..bufend] == s[x - 2 := ' '][x - 1 := '['][z - bufstart := ']'][z + 1 - bufstart := NUL];
    if z == v { assert b[v] == NUL; }
  }

  /** The error text, in brackets if there is one. `p` is a string read before. */
  method ReadError(buf: array<char>, bufstart: nat, bufend: nat, ghost p: nat) returns (error: int)
    requires bufstart <= bufend <= buf.Length && EndsBefore(buf[..], p, bufend)
    modifies buf
    ensures Within(old(buf[..]), buf[..], bufstart, bufend)
    ensures error != -1 ==> bufstart <= error && EndsBefore(buf[..], error, bufend) && EndsBefore(buf[..], p, bufend)
    ensures error == -1 <==> !Has(old(buf[bufstart..bufend]), "error")
    ensures OnlyCuts(old(buf[bufstart..bufend])) ==>
              Undisturbed(old(buf[bufstart..bufend]), buf[bufstart..bufend], {"error"})
    ensures var s := old(buf[bufstart..bufend]);
            error != -1 ==>
              buf[bufstart..bufend] == Bracketed(CutOut(s, "error"), Attribute(s, "error").value.0)
  {
    hide CStr, Attribute, Name, Undisturbed, OnlyCuts, Within, EndsBefore, NulsKept, CutOut, Bracketed;
    NamesOfElements();
    ghost var b0, s := buf[..], buf[bufstart..bufend];
    ghost var end;
    error, end := ReadMultiAttribute(buf, bufstart, bufend, "error");
    ghost var b1, t := buf[..], buf[bufstart..bufend];
    StillEnds(b0, b1, p, bufend);
    if error == -1 { return; }
    if buf[error] == NUL {
      NoBrackets(t, error - bufstart);
      return;
    }
    assert b1[end] == NUL && t == s[end - bufstart := NUL];
    OpenAt(s, end - bufstart);
    AddBrackets(buf, bufstart, bufend, error, end, p);
    ThenWithin(b0, b1, buf[..], bufstart, bufend);
    error := error - 2;
    if OnlyCuts(s) {
      UndisturbedThen(s, t, buf[bufstart..bufend], {"error"}, {"error"});
      assert {"error"} + {"error"} == {"error"};
    }
  }

  lemma NoBrackets(s: string, v: nat)
    requires 2 <= v < |s| && s[v] == NUL
    ensures Bracketed(s, v) == s
  {
    assert s[v..][0] == NUL;
  }

  /** The opening tag is still there when the closing tag has been cut off. */
  lemma OpenAt(s: string, end: nat)
    requires Has(s, "error") && end == Attribute(s, "error").value.1
    ensures end < |s| && Attribute(s, "error").value.0 >= |OpenTag("error")|
    ensures MatchesAt(s[end := NUL], OpenTag("error"), Attribute(s, "error").value.0 - |OpenTag("error")|)
  {
    hide Find;
    ClosedAt(s, "error");
    var v := Attribute(s, "error").value.0;
    assert s[end := NUL][v - |OpenTag("error")|..v] == s[v - |OpenTag("error")|..v];
  }

  lemma BracketsInElement(b: seq<char>, c: seq<char>, bufstart: nat, bufend: nat, v: nat, z: nat)
    requires bufstart <= bufend <= |b| && bufstart + |OpenTag("error")| <= v <= z < bufend && z + 1 < |b|
    requires MatchesAt(b[bufstart..bufend], OpenTag("error"), v - bufstart - |OpenTag("error")|)
    requires b[z] == NUL && OnlyCuts(b[bufstart..bufend])
    requires c == b[v - 2 := ' '][v - 1 := '['][z := ']'][z + 1 := NUL]
    ensures Undisturbed(b[bufstart..bufend], c[bufstart..bufend], {"error"})
  {
    hide Undisturbed;
    var s, t := b[bufstart..bufend], c[bufstart..bufend];
    var x, y := v - bufstart, z - bufstart;
    assert s[y] == NUL;
    assert y + 1 < |s| ==> t == s[x - 2 := ' '][x - 1 := '['][y := ']'][y + 1 := NUL];
    BracketsUndisturbed(s, t, x, y);
  }

  /** What trim does to the string from `p` to `end` stays inside the element. */
  lemma TrimmedWithin(s: seq<char>, t: seq<char>, p: nat, end: nat, start: nat, hi: nat)
    requires p <= start <= end < hi <= |s| == |t| && s[p..end] == CStr(s[p..]) && t[end] == NUL
    requires forall i | 0 <= i < |s| && (i < p || end <= i) :: t[i] == s[i]
    ensures Within(s, t, p, hi) && NulsKept(s, t) && EndsBefore(t, start, hi)
  {
    forall i | p <= i < end ensures s[i] != NUL { assert s[p..end][i - p] == s[i]; }
  }

  method TrimWithin(buf: array<char>, p: nat, ghost hi: nat) returns (start: nat)
    requires EndsBefore(buf[..], p, hi)
    modifies buf
    ensures p <= start && Within(old(buf[..]), buf[..], p, hi)
    ensures NulsKept(old(buf[..]), buf[..]) && EndsBefore(buf[..], start, hi)
  {
    hide CStr, Trimmed;
    NulAt(buf, p, hi);
    ghost var before, end := buf[..], p + |CStr(buf[p..])|;
    assert before[p..] == buf[p..] && before[p..end] == buf[p..end];
    start := TrimInPlace(buf, p);
    TrimmedWithin(before, buf[..], p, end, start, hi);
  }

  /** Performance data: trimmed, decoded, freed of a leading quote and decoded again. */
  method DecodePerformance(buf: array<char>, bufstart: nat, bufend: nat, performance: nat)
    requires bufstart <= performance && EndsBefore(buf[..], performance, bufend)
    modifies buf
    ensures Within(old(buf[..]), buf[..], bufstart, bufend) && NulsKept(old(buf[..]), buf[..])
  {
    hide CStr, NulsKept, DecodeXml.DecodeFrom, Within;
    ghost var b0 := buf[..];
    var attribute2 := TrimWithin(buf, performance, bufend);
    ghost var b1 := buf[..];
    Widen(b0, b1, performance, bufstart, bufend);
    DecodeWithin(buf, attribute2, bufend, bufstart);
    ghost var b2 := buf[..];
    ThenKept(b0, b1, b2);
    ThenWithin(b0, b1, b2, bufstart, bufend);
    if buf[attribute2] == '\'' { attribute2 := attribute2 + 1; }
    DecodeWithin(buf, attribute2, bufend, bufstart);
    ThenKept(b0, b2, buf[..]);
    ThenWithin(b0, b2, buf[..], bufstart, bufend);
  }

  /** The second half of read_child_check: the texts of the result are decoded where they are. */
  method ReadTexts(buf: array<char>, bufstart: nat, bufend: nat) returns (ok: bool)
    requires bufstart <= bufend <= buf.Length
    modifies buf
    ensures Within(old(buf[..]), buf[..], bufstart, bufend)
    ensures ok ==> Has(old(buf[bufstart..bufend]), "output") && Has(old(buf[bufstart..bufend]), "error")
    ensures OnlyCuts(old(buf[bufstart..bufend])) ==> (ok <==> Told(old(buf[bufstart..bufend])))
    ensures ok <==> ToldHere(old(buf[bufstart..bufend]))
  {
    hide CStr, Attribute, DecodeXml.DecodeFrom, Within, NulsKept, EndsBefore, Passed, Undisturbed, OnlyCuts, Name,
         CutOut, Bracketed;
    NamesOfElements();
    ghost var b0, s0 := buf[..], buf[bufstart..bufend];
    var output, _ := ReadMultiAttribute(buf, bufstart, bufend, "output");
    if output == -1 { return false; }
    ghost var b1, s1 := buf[..], buf[bufstart..bufend];
    PassedKeeps(s0, s1, {"output"}, "error");
    var error := ReadError(buf, bufstart, bufend, output);
    ghost var b2, s2 := buf[..], buf[bufstart..bufend];
    ThenWithin(b0, b1, b2, bufstart, bufend);
    if error == -1 { return false; }
    if OnlyCuts(s0) { TextsUndisturbed(s0, s1, s2); }
    ok := ReadMore(buf, bufstart, bufend, output, error);
    ghost var b3 := buf[..];
    ThenWithin(b0, b2, b3, bufstart, bufend);
    if !ok { return; }
    DecodeWithin(buf, error, bufend, bufstart);
    ghost var b4 := buf[..];
    StillEnds(b3, b4, output, bufend);
    ThenWithin(b0, b3, b4, bufstart, bufend);
    DecodeWithin(buf, output, bufend, bufstart);
    ThenWithin(b0, b4, buf[..], bufstart, bufend);
  }

  lemma TextsUndisturbed(s: string, t: string, u: string)
    requires OnlyCuts(s) && Passed(s, t, {"output"}) && (OnlyCuts(t) ==> Undisturbed(t, u, {"error"}))
    ensures Has(u, "performance") == Has(s, "performance") && Has(u, "pplugin") == Has(s, "pplugin")
  {
    hide SameTags, Attribute, Name, OnlyCuts;
    NamesOfElements();
    UndisturbedThen(s, t, u, {"output"}, {"error"});
    assert "performance" !in {"output"} + {"error"} && "pplugin" !in {"output"} + {"error"};
    SameAttribute(s, u, "performance");
    SameAttribute(s, u, "pplugin");
  }

  /** The performance attributes, if there are any; `p` and `q` are strings read before. */
  method ReadMore(buf: array<char>, bufstart: nat, bufend: nat, ghost p: nat, ghost q: nat) returns (ok: bool)
    requires bufstart <= bufend <= buf.Length
    requires EndsBefore(buf[..], p, bufend) && EndsBefore(buf[..], q, bufend)
    modifies buf
    ensures Within(old(buf[..]), buf[..], bufstart, bufend)
    ensures EndsBefore(buf[..], p, bufend) && EndsBefore(buf[..], q, bufend)
    ensures var body := old(buf[bufstart..bufend]); ok <==> (Has(body, "performance") ==> Has(body, "pplugin"))
    ensures var body := old(buf[bufstart..bufend]);
            ok <==> (Has(body, "performance") ==> Has(CutOut(body, "performance"), "pplugin"))
  {
    hide CStr, Attribute, DecodeXml.DecodeFrom, Within, NulsKept, EndsBefore, Passed, Name, CutOut;
    NamesOfElements();
    ghost var b0, s0 := buf[..], buf[bufstart..bufend];
    var performance, _ := ReadMultiAttribute(buf, bufstart, bufend, "performance");
    ghost var b1 := buf[..];
    PassedKeeps(s0, buf[bufstart..bufend], {"performance"}, "pplugin");
    StillEnds(b0, b1, p, bufend);
    StillEnds(b0, b1, q, bufend);
    if performance == -1 { return true; }
    var pplugin, _ := ReadMultiAttribute(buf, bufstart, bufend, "pplugin");
    ghost var b2 := buf[..];
    StillEnds(b1, b2, p, bufend);
    StillEnds(b1, b2, q, bufend);
    StillEnds(b1, b2, performance, bufend);
    ThenWithin(b0, b1, b2, bufstart, bufend);
    if pplugin == -1 { return false; }
    DecodePerformance(buf, bufstart, bufend, performance);
    ghost var b3 := buf[..];
    StillEnds(b2, b3, pplugin, bufend);
    ThenWithin(b0, b2, b3, bufstart, bufend);
    DecodeWithin(buf, pplugin, bufend, bufstart);
    ThenWithin(b0, b3, buf[..], bufstart, bufend);
    ThenKept(b2, b3, buf[..]);
    StillEnds(b2, buf[..], p, bufend);
    StillEnds(b2, buf[..], q, bufend);
    ok := true;
  }

  lemma Widen(s: seq<char>, t: seq<char>, p: nat, lo: nat, hi: nat)
    requires lo <= p && Within(s, t, p, hi)
    ensures Within(s, t, lo, hi)
  {
  }

  /** read_child_check writes only inside its element. It accepts exactly the elements that have all their
      attributes and are not the parent check. Each attribute that is read is cut out of the element, and the
      error gets its brackets, in place; none of that hides another attribute, unless the element has a NUL of
      its own, which ends the error text early. */
  method ReadChildCheck(buf: array<char>, bufstart: nat, bufend: nat) returns (ok: bool)
    requires bufstart <= bufend <= buf.Length
    modifies buf
    ensures Within(old(buf[..]), buf[..], bufstart, bufend)
    ensures Judged(old(buf[bufstart..bufend]), ok)
  {
    hide Within, Attribute, Passed, OnlyCuts, CStr, CutOut, ToldHere;
    ghost var b0, s0 := buf[..], buf[bufstart..bufend];
    NoCutsYet(s0);
    ok := ReadIdentity(buf, bufstart, bufend);
    ghost var b1, s1 := buf[..], buf[bufstart..bufend];
    if ok {
      ToldKept(s0, s1);
      ok := ReadTexts(buf, bufstart, bufend);
      ThenWithin(b0, b1, buf[..], bufstart, bufend);
    }
  }

  /** What read_child_check says about an element. */
  ghost predicate Judged(body: string, ok: bool) {
    && (ok <==> Accepted(body))
    && (ok ==> Identified(body) && Has(body, "output") && Has(body, "error"))
    && (NUL !in body ==> (ok <==> Identified(body) && Told(body)))
  }

  lemma NoCutsYet(s: string)
    ensures NUL !in s ==> OnlyCuts(s)
  {
  }

  lemma ToldKept(s: string, t: string)
    requires Passed(s, t, {"no", "name", "rc", "runtime"})
    ensures Has(s, "output") == Has(t, "output") && Has(s, "error") == Has(t, "error")
    ensures Told(s) == Told(t) && (OnlyCuts(s) ==> OnlyCuts(t))
  {
    hide Attribute, Undisturbed, OnlyCuts, Name;
    NamesOfElements();
    var done := {"no", "name", "rc", "runtime"};
    PassedKeeps(s, t, done, "output");
    PassedKeeps(s, t, done, "error");
    PassedKeeps(s, t, done, "performance");
    PassedKeeps(s, t, done, "pplugin");
  }
}
