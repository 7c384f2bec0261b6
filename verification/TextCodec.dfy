/** Escaping of plugin output on the worker (gm_escape_newlines) and its undoing in the core
    (replace_str). */
module TextCodec {
  import opened CString

  const BACKSLASH := '\\'
  const NEWLINE := '\n'

  /** What gm_escape_newlines does with one character. */
  function EscapeChar(c: char): string {
    if c == BACKSLASH then "\\\\" else if c == NEWLINE then "\\n" else [c]
  }

  function Escape(s: string): string {
    if s == "" then "" else EscapeChar(s[0]) + Escape(s[1..])
  }

  lemma {:induction false} EscapeConcat(a: string, b: string)
    ensures Escape(a + b) == Escape(a) + Escape(b)
  {
    if a == "" {
      assert a + b == b;
    } else {
      assert (a + b)[1..] == a[1..] + b;
      EscapeConcat(a[1..], b);
    }
  }

  /** At most two characters for one, and no newline or NUL among them. */
  lemma {:induction false} EscapeShape(s: string)
    ensures |s| <= |Escape(s)| <= 2 * |s|
    ensures NEWLINE !in Escape(s)
    ensures NUL !in s ==> NUL !in Escape(s)
  {
    if s != "" { EscapeShape(s[1..]); }
  }

  lemma EscapeNext(s: string, x: nat)
    requires x < |s|
    ensures Escape(s[..x + 1]) == Escape(s[..x]) + EscapeChar(s[x])
  {
    assert s[..x + 1] == s[..x] + [s[x]];
    EscapeConcat(s[..x], [s[x]]);
    assert [s[x]][1..] == "";
  }

  /** gm_escape_newlines: a buffer of twice the length plus one always suffices. */
  method EscapeNewlines(rawbuf: string, trimmed: bool) returns (newbuf: array<char>)
    requires NUL !in rawbuf
    ensures fresh(newbuf)
    ensures CStr(newbuf[..]) == Escape(if trimmed then Trimmed(rawbuf) else rawbuf)
  {
    hide CStr, Escape, Trimmed;
    var tmpbuf := rawbuf;
    if trimmed { tmpbuf := Trim(tmpbuf); }
    newbuf := new char[2 * |tmpbuf| + 1];
    var x, y := 0, 0;
    assert newbuf[..0] == Escape(tmpbuf[..0]) by { EscapeShape(tmpbuf[..0]); }
    while x < |tmpbuf|
      invariant 0 <= x <= |tmpbuf| && 0 <= y <= 2 * x
      invariant newbuf[..y] == Escape(tmpbuf[..x])
    {
      EscapeNext(tmpbuf, x);
      ghost var done := newbuf[..y];
      if tmpbuf[x] == BACKSLASH {
        newbuf[y], newbuf[y + 1] := BACKSLASH, BACKSLASH;
        y := y + 2;
      } else if tmpbuf[x] == NEWLINE {
        newbuf[y], newbuf[y + 1] := BACKSLASH, 'n';
        y := y + 2;
      } else {
        newbuf[y] := tmpbuf[x];
        y := y + 1;
      }
      assert newbuf[..y] == done + EscapeChar(tmpbuf[x]);
      x := x + 1;
    }
    newbuf[y] := NUL;
    assert tmpbuf[..x] == tmpbuf;
    EscapeShape(tmpbuf);
    CStrTo(newbuf[..], y);
    assert newbuf[..][..y] == newbuf[..y];
  }

  // ---------------------------------------------------------------- replace_str

  /** Replaces every occurrence of `old`, leftmost first, without looking into what it has inserted. */
  function Replace(s: string, old_: string, new_: string): string
    requires old_ != ""
    decreases |s|
  {
    if s == "" then ""
    else if old_ <= s then new_ + Replace(s[|old_|..], old_, new_)
    else [s[0]] + Replace(s[1..], old_, new_)
  }

  lemma {:induction false} ReplaceNone(s: string, old_: string, new_: string)
    requires old_ != "" && Find(s, old_) < 0
    ensures Replace(s, old_, new_) == s
  {
    if s != "" { ReplaceNone(s[1..], old_, new_); }
  }

  lemma ReplaceLater(s: string, old_: string, new_: string)
    requires old_ != "" && Find(s, old_) > 0
    ensures s != "" && Find(s[1..], old_) == Find(s, old_) - 1
    ensures Replace(s, old_, new_) == [s[0]] + Replace(s[1..], old_, new_)
  {
  }

  lemma ReplaceHere(s: string, old_: string, new_: string)
    requires old_ != "" && Find(s, old_) == 0
    ensures Replace(s, old_, new_) == new_ + Replace(s[|old_|..], old_, new_)
  {
  }

  /** The text before the first occurrence is copied. */
  lemma {:induction false} ReplaceFirst(s: string, old_: string, new_: string, q: nat)
    requires old_ != "" && Find(s, old_) == q
    ensures Replace(s, old_, new_) == s[..q] + new_ + Replace(s[q + |old_|..], old_, new_)
  {
    hide Replace, Find;
    if q > 0 {
      ReplaceLater(s, old_, new_);
      ReplaceFirst(s[1..], old_, new_, q - 1);
      assert s[1..][q - 1 + |old_|..] == s[q + |old_|..];
      assert s[..q] == [s[0]] + s[1..][..q - 1];
    } else {
      ReplaceHere(s, old_, new_);
      assert s[..0] + new_ == new_;
    }
  }

  lemma {:induction false} ReplaceSameLength(s: string, old_: string, new_: string)
    requires old_ != "" && |old_| == |new_|
    ensures |Replace(s, old_, new_)| == |s|
    decreases |s|
  {
    if s == "" {
    } else if old_ <= s {
      ReplaceSameLength(s[|old_|..], old_, new_);
    } else {
      ReplaceSameLength(s[1..], old_, new_);
    }
  }

  /** The first pass of replace_str: the length of the result. */
  method ReplacedLength(str: string, old_: string, new_: string) returns (retlen: nat)
    requires old_ != ""
    ensures retlen == |Replace(str, old_, new_)|
  {
    hide Find, Replace;
    if |old_| == |new_| {
      ReplaceSameLength(str, old_, new_);
      return |str|;
    }
    var count, p := 0, 0;
    var q := Find(str, old_);
    assert str[0..] == str;
    while q >= 0
      invariant 0 <= p <= |str| && q == Find(str[p..], old_)
      invariant p + count * (|new_| - |old_|) + |Replace(str[p..], old_, new_)| == |Replace(str, old_, new_)|
      decreases |str| - p
    {
      ReplaceFirst(str[p..], old_, new_, q);
      assert str[p..][q + |old_|..] == str[p + q + |old_|..];
      assert (count + 1) * (|new_| - |old_|) == count * (|new_| - |old_|) + (|new_| - |old_|);
      count := count + 1;
      p := p + q + |old_|;
      q := Find(str[p..], old_);
    }
    ReplaceNone(str[p..], old_, new_);
    retlen := p + |str[p..]| + count * (|new_| - |old_|);
  }

  /** replace_str: the second pass fills exactly the space the first one has computed. */
  method ReplaceStr(str: string, old_: string, new_: string) returns (ret: array<char>)
    requires old_ != ""
    ensures fresh(ret)
    ensures ret[..] == Replace(str, old_, new_) + [NUL]
  {
    hide Find, Replace;
    var retlen := ReplacedLength(str, old_, new_);
    ret := new char[retlen + 1];
    ghost var whole := Replace(str, old_, new_);
    var r, p := 0, 0;
    var q := Find(str, old_);
    assert str[0..] == str;
    while q >= 0
      invariant 0 <= p <= |str| && 0 <= r <= retlen && q == Find(str[p..], old_)
      invariant ret[..r] + Replace(str[p..], old_, new_) == whole
      decreases |str| - p
    {
      ghost var done := ret[..r];
      ReplaceFirst(str[p..], old_, new_, q);
      assert str[p..][q + |old_|..] == str[p + q + |old_|..];
      Copy(ret, r, str[p..][..q]);
      r := r + q;
      Copy(ret, r, new_);
      r := r + |new_|;
      assert ret[..r] == done + str[p..][..q] + new_;
      p := p + q + |old_|;
      q := Find(str[p..], old_);
    }
    ReplaceNone(str[p..], old_, new_);
    ghost var done := ret[..r];
    Copy(ret, r, str[p..]);
    ret[retlen] := NUL;
    assert ret[..retlen] == done + str[p..];
  }

  // ---------------------------------------------------------------- there and back

  /** What the core does with the output it receives. */
  function Unescape(s: string): string {
    Replace(s, "\\n", "\n")
  }

  lemma UnescapeEmpty()
    ensures Unescape("") == ""
  {
  }

  lemma UnescapePlain(c: char, s: string)
    requires c != BACKSLASH
    ensures Unescape([c] + s) == [c] + Unescape(s)
  {
    var t := [c] + s;
    assert t[0] == c && t[1..] == s;
  }

  lemma UnescapeNewline(s: string)
    ensures Unescape("\\n" + s) == "\n" + Unescape(s)
  {
    assert ("\\n" + s)[2..] == s;
  }

  lemma UnescapeBackslash(s: string)
    requires s == "" || s[0] != 'n'
    ensures Unescape([BACKSLASH] + s) == [BACKSLASH] + Unescape(s)
  {
    var t := [BACKSLASH] + s;
    assert t[1..] == s && (s != "" ==> t[1] == s[0]);
  }

  lemma EscapeStep(s: string)
    requires s != ""
    ensures Escape(s) == EscapeChar(s[0]) + Escape(s[1..])
    ensures Escape(s) != "" && (Escape(s)[0] == 'n' <==> s[0] == 'n')
  {
  }

  /** A doubled backslash: the second one pairs up with a following n. */
  lemma UnescapeDoubled(x: string)
    requires x == "" || x[0] != 'n'
    ensures Unescape("\\\\" + x) == "\\\\" + Unescape(x)
  {
    hide Unescape;
    assert "\\\\" + x == [BACKSLASH] + ([BACKSLASH] + x);
    UnescapeBackslash([BACKSLASH] + x);
    UnescapeBackslash(x);
    assert "\\\\" + Unescape(x) == [BACKSLASH] + ([BACKSLASH] + Unescape(x));
  }

  lemma UnescapeDoubledN(x: string)
    ensures Unescape("\\\\n" + x) == "\\\n" + Unescape(x)
  {
    hide Unescape;
    assert "\\\\n" + x == [BACKSLASH] + ("\\n" + x);
    UnescapeBackslash("\\n" + x);
    UnescapeNewline(x);
    assert "\\\n" + Unescape(x) == [BACKSLASH] + ("\n" + Unescape(x));
  }

  predicate NFollows(a: string) {
    |a| > 1 && a[1] == 'n'
  }

  /** The text after a leading backslash and what it swallows when it is undone. */
  function Next(a: string): string
    requires a != ""
  {
    if NFollows(a) then a[2..] else a[1..]
  }

  function Swallowed(a: string): string {
    if NFollows(a) then "\\\\n" else "\\\\"
  }

  lemma EscapeBackslash(a: string)
    requires a != "" && a[0] == BACKSLASH
    ensures Escape(a) == Swallowed(a) + Escape(Next(a))
    ensures !NFollows(a) && Escape(Next(a)) != "" ==> Escape(Next(a))[0] != 'n'
  {
    hide Escape;
    EscapeStep(a);
    if |a| > 1 {
      EscapeStep(a[1..]);
      assert a[1..][1..] == a[2..];
      if a[1] == 'n' {
        assert Swallowed(a) == "\\\\" + ['n'];
        Assoc("\\\\", ['n'], Escape(a[2..]));
      }
    } else {
      EscapeShape(a[1..]);
    }
  }

  lemma Assoc(a: string, b: string, c: string)
    ensures a + (b + c) == (a + b) + c
  {
  }

  /** Undoing a leading backslash. */
  lemma UnescapeSwallowed(a: string)
    requires a != "" && a[0] == BACKSLASH
    ensures Unescape(Escape(a)) == (if NFollows(a) then "\\\n" else "\\\\") + Unescape(Escape(Next(a)))
  {
    hide Escape, Unescape;
    EscapeBackslash(a);
    var x := Escape(Next(a));
    if NFollows(a) { UnescapeDoubledN(x); } else { UnescapeDoubled(x); }
  }

  lemma UnescapeOther(a: string)
    requires a != "" && a[0] != BACKSLASH
    ensures Unescape(Escape(a)) == [a[0]] + Unescape(Escape(a[1..]))
  {
    hide Escape, Unescape;
    EscapeStep(a);
    if a[0] == NEWLINE { UnescapeNewline(Escape(a[1..])); } else { UnescapePlain(a[0], Escape(a[1..])); }
  }

  lemma Nothing(a: string)
    ensures a + "" == a
  {
  }

  /** Undoing never makes a text shorter than it was before it was escaped. */
  lemma {:induction false} UnescapeLength(a: string)
    ensures |Unescape(Escape(a))| >= |a|
    decreases |a|
  {
    hide Unescape, Escape;
    if a == "" {
    } else if a[0] == BACKSLASH {
      UnescapeSwallowed(a);
      UnescapeLength(Next(a));
    } else {
      UnescapeOther(a);
      UnescapeLength(a[1..]);
    }
  }

  lemma BackslashIsLost(a: string)
    requires a != "" && a[0] == BACKSLASH
    ensures Unescape(Escape(a)) != a
  {
    hide Unescape, Escape;
    UnescapeSwallowed(a);
    if NFollows(a) {
      assert Unescape(Escape(a))[1] == NEWLINE;
    } else {
      UnescapeLength(Next(a));
    }
  }

  /** The receiver recovers a text exactly if it contains no backslash. */
  lemma {:induction false} EscapeRoundTrip(a: string)
    ensures Unescape(Escape(a)) == a <==> BACKSLASH !in a
  {
    hide Unescape, Escape;
    if a == "" {
      EscapeShape(a);
      UnescapeEmpty();
    } else if a[0] == BACKSLASH {
      BackslashIsLost(a);
    } else {
      UnescapeOther(a);
      EscapeRoundTrip(a[1..]);
      assert a == [a[0]] + a[1..];
    }
  }

  /** The inverse on the other side: a line whose undoing leaves no backslash. */
  lemma {:induction false} EscapeUnescape(s: string)
    requires NEWLINE !in s && BACKSLASH !in Unescape(s)
    ensures Escape(Unescape(s)) == s
    decreases |s|
  {
    hide Unescape, Escape;
    if s == "" {
      UnescapeEmpty();
      EscapeShape("");
    } else if s[0] != BACKSLASH {
      assert s == [s[0]] + s[1..];
      UnescapePlain(s[0], s[1..]);
      EscapeUnescape(s[1..]);
      EscapeStep(Unescape(s));
    } else if NFollows(s) {
      assert s == "\\n" + s[2..];
      UnescapeNewline(s[2..]);
      EscapeUnescape(s[2..]);
      EscapeStep(Unescape(s));
      assert Unescape(s)[1..] == Unescape(s[2..]);
    } else {
      assert s == [BACKSLASH] + s[1..];
      UnescapeBackslash(s[1..]);
      assert false;
    }
  }
}
