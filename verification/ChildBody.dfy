/** Elements put together from attributes, and what read_child_check finds in them. */
module ChildBody {
  import opened CString
  import opened ChildCheck
  import ChildElements

  /** An attribute with the text in front of it. */
  datatype Attr = Attr(gap: string, name: string, value: string)

  predicate Proper(a: Attr) {
    Name(a.name) && '<' !in a.gap && '<' !in a.value
  }

  function Written(a: Attr): string {
    a.gap + "<" + a.name + ">" + a.value + "</" + a.name + ">"
  }

  function Body(attrs: seq<Attr>): string {
    if attrs == [] then "" else Written(attrs[0]) + Body(attrs[1..])
  }

  /** The value of the first attribute with a name. */
  function FirstValue(attrs: seq<Attr>, e: string): Option<string> {
    if attrs == [] then None else if attrs[0].name == e then Some(attrs[0].value) else FirstValue(attrs[1..], e)
  }

  lemma NoTagIn(text: string, tag: string)
    requires tag != "" && tag[0] == '<' && '<' !in text
    ensures Find(text, tag) < 0
  {
    hide Find;
    if Find(text, tag) >= 0 { FirstOfMatch(text, tag); }
  }

  lemma FirstOfMatch(text: string, tag: string)
    requires tag != "" && Find(text, tag) >= 0
    ensures text[Find(text, tag)] == tag[0]
  {
    hide Find;
    FindMatches(text, tag);
    var q := Find(text, tag);
    assert text[q] == text[q..q + |tag|][0];
  }

  /** Where no match begins in the front part, the search goes on behind it. */
  lemma {:induction false} FindBehind(head: string, rest: string, pat: string)
    requires pat != "" && forall i: nat | i < |head| :: !MatchesAt(head + rest, pat, i)
    ensures Find(head + rest, pat) == if Find(rest, pat) < 0 then -1 else |head| + Find(rest, pat)
  {
    hide Find;
    var s, n := head + rest, |head|;
    assert s[n..|s|] == rest;
    if Find(rest, pat) >= 0 {
      var q := Find(rest, pat);
      FindMatches(rest, pat);
      Slice(s, n, |s|, n + q, n + q + |pat|);
      FindIsFirst(s, pat, n + q);
    }
    if Find(s, pat) >= 0 {
      var p := Find(s, pat);
      FindMatches(s, pat);
      assert p >= n;
      Slice(s, n, |s|, p, p + |pat|);
      FindIsFirst(rest, pat, p - n);
    }
  }

  /** The opening tag of another attribute does not begin in this one. */
  lemma OtherAttribute(a: Attr, rest: string, e: string)
    requires Proper(a) && Name(e) && a.name != e
    ensures forall i: nat | i < |Written(a)| :: !MatchesAt(Written(a) + rest, OpenTag(e), i)
  {
    hide Proper, Name, Written;
    forall i: nat | i < |Written(a)| ensures !MatchesAt(Written(a) + rest, OpenTag(e), i) { TagStart(a, rest, e, i); }
  }

  /** Nor in its own two tags. */
  lemma NotInTag(s: string, own: string, at: nat, tag: string, i: nat)
    requires Tag(own) && Tag(tag) && own != tag && MatchesAt(s, own, at) && at <= i < at + |own|
    ensures !MatchesAt(s, tag, i)
  {
    hide MatchesAt;
    if MatchesAt(s, tag, i) { TagsShareNothing(s, own, at, tag, i, i); }
  }

  lemma TagsOf(a: Attr, rest: string)
    ensures var s := Written(a) + rest;
            && MatchesAt(s, OpenTag(a.name), |a.gap|)
            && MatchesAt(s, CloseTag(a.name), |a.gap| + |OpenTag(a.name)| + |a.value|)
  {
    var s, p := Written(a) + rest, |a.gap|;
    var q := p + |OpenTag(a.name)| + |a.value|;
    assert s[p..p + |OpenTag(a.name)|] == OpenTag(a.name);
    assert s[q..q + |CloseTag(a.name)|] == CloseTag(a.name);
  }

  lemma NotInText(a: Attr, rest: string, tag: string, i: nat)
    requires Proper(a) && tag != "" && tag[0] == '<'
    requires i < |a.gap| || |a.gap| + |OpenTag(a.name)| <= i < |a.gap| + |OpenTag(a.name)| + |a.value|
    ensures !MatchesAt(Written(a) + rest, tag, i)
  {
    var s := Written(a) + rest;
    assert s[i] == if i < |a.gap| then a.gap[i] else a.value[i - |a.gap| - |OpenTag(a.name)|];
    if MatchesAt(s, tag, i) { StartOfMatch(s, tag, i); }
  }

  lemma TagStart(a: Attr, rest: string, e: string, i: nat)
    requires Proper(a) && Name(e) && a.name != e && i < |Written(a)|
    ensures !MatchesAt(Written(a) + rest, OpenTag(e), i)
  {
    hide Tag, MatchesAt, Name;
    var s, p := Written(a) + rest, |a.gap|;
    var q := p + |OpenTag(a.name)| + |a.value|;
    TagsAreTags(a.name);
    TagsAreTags(e);
    NamesDiffer(a.name, e);
    TagsOf(a, rest);
    if p <= i < p + |OpenTag(a.name)| {
      NotInTag(s, OpenTag(a.name), p, OpenTag(e), i);
    } else if q <= i {
      NotInTag(s, CloseTag(a.name), q, OpenTag(e), i);
    } else {
      NotInText(a, rest, OpenTag(e), i);
    }
  }

  lemma StartOfMatch(s: string, pat: string, i: nat)
    requires pat != "" && MatchesAt(s, pat, i)
    ensures s[i] == pat[0]
  {
    assert s[i] == s[i..i + |pat|][0];
  }

  /** An attribute is found where it has been written, with its value. */
  lemma OwnAttribute(a: Attr, rest: string)
    requires Proper(a)
    ensures var s := Written(a) + rest; var r := Attribute(s, a.name);
            r.Some? && s[r.value.0..r.value.1] == a.value
  {
    hide Find;
    var s, o, c := Written(a) + rest, OpenTag(a.name), CloseTag(a.name);
    var v := |a.gap| + |o|;
    NoTagIn(a.gap, o);
    NoTagIn(a.value, c);
    assert o[1..] == a.name + ">" && c[1..] == "/" + a.name + ">";
    assert s == a.gap + o + (a.value + c + rest);
    ChildElements.TagAfter(a.gap, o, a.value + c + rest);
    assert s[v..] == a.value + c + rest;
    ChildElements.TagAfter(a.value, c, rest);
  }

  /** What read_multi_attribute finds in an element put together from attributes. */
  lemma {:induction false} AttributeOfBody(attrs: seq<Attr>, e: string)
    requires Name(e) && forall a | a in attrs :: Proper(a)
    ensures var s := Body(attrs); var r := Attribute(s, e);
            if FirstValue(attrs, e) == None then r == None
            else r.Some? && s[r.value.0..r.value.1] == FirstValue(attrs, e).value
  {
    hide Attribute, Proper, Written;
    if attrs == [] {
      EmptyBody(e);
    } else {
      var a, rest := attrs[0], Body(attrs[1..]);
      assert a in attrs;
      if a.name == e {
        OwnAttribute(a, rest);
      } else {
        AttributeOfBody(attrs[1..], e);
        OtherAttribute(a, rest, e);
        AttributeBehind(Written(a), rest, e);
      }
    }
  }

  lemma EmptyBody(e: string)
    ensures Attribute("", e) == None
  {
  }

  lemma AttributeBehind(head: string, rest: string, e: string)
    requires forall i: nat | i < |head| :: !MatchesAt(head + rest, OpenTag(e), i)
    ensures var r, t := Attribute(head + rest, e), Attribute(rest, e);
            if t == None then r == None
            else r == Some((|head| + t.value.0, |head| + t.value.1))
                 && (head + rest)[r.value.0..r.value.1] == rest[t.value.0..t.value.1]
  {
    hide Find;
    FindBehind(head, rest, OpenTag(e));
    var q := Find(rest, OpenTag(e));
    if q >= 0 {
      var v := q + |e| + 2;
      assert (head + rest)[|head| + v..] == rest[v..];
    }
  }

  lemma {:induction false} NoNulInBody(attrs: seq<Attr>)
    requires forall a | a in attrs :: Proper(a) && NUL !in a.gap && NUL !in a.value
    ensures NUL !in Body(attrs)
  {
    if attrs != [] {
      var a := attrs[0];
      assert a in attrs;
      assert NUL !in a.name by { assert forall i | 0 <= i < |a.name| :: a.name[i] != NUL; }
      NoNulInBody(attrs[1..]);
    }
  }

  lemma {:induction false} FirstValueIn(attrs: seq<Attr>, e: string)
    requires FirstValue(attrs, e).Some?
    ensures exists a | a in attrs :: a.value == FirstValue(attrs, e).value
  {
    if attrs[0].name != e {
      FirstValueIn(attrs[1..], e);
      var a :| a in attrs[1..] && a.value == FirstValue(attrs, e).value;
      assert a in attrs;
    } else {
      assert attrs[0] in attrs;
    }
  }

  /** For every element put together from attributes, whatever texts are between them: what read_child_check
      says, by the names of its attributes. */
  lemma BodyIsJudged(attrs: seq<Attr>, ok: bool)
    requires forall a | a in attrs :: Proper(a) && NUL !in a.gap && NUL !in a.value
    requires Judged(Body(attrs), ok)
    ensures ok <==>
            && FirstValue(attrs, "no") != None && FirstValue(attrs, "no") != Some("0")
            && FirstValue(attrs, "name") != None && FirstValue(attrs, "rc") != None
            && FirstValue(attrs, "runtime") != None
            && FirstValue(attrs, "output") != None && FirstValue(attrs, "error") != None
            && (FirstValue(attrs, "performance") != None ==> FirstValue(attrs, "pplugin") != None)
  {
    hide Attribute, Proper, Body, CStr, Accepted, FirstValue;
    NamesOfElements();
    NoNulInBody(attrs);
    AttributeOfBody(attrs, "no");
    AttributeOfBody(attrs, "name");
    AttributeOfBody(attrs, "rc");
    AttributeOfBody(attrs, "runtime");
    AttributeOfBody(attrs, "output");
    AttributeOfBody(attrs, "error");
    AttributeOfBody(attrs, "performance");
    AttributeOfBody(attrs, "pplugin");
    if FirstValue(attrs, "no").Some? {
      FirstValueIn(attrs, "no");
      NoNulText(FirstValue(attrs, "no").value);
    }
  }

  lemma NoNulText(s: string)
    requires NUL !in s
    ensures CStr(s) == s
  {
    CStrOf(s, [NUL]);
    CStrUpTo(s, [NUL]);
  }
}
