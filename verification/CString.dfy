/** C strings: the bytes of a buffer up to its first NUL, and the searches the program makes in them. */
module CString {

  const NUL := '\0'

  /** The size of most buffers. */
  const GM_BUFFERSIZE := 65536
  /** No more of a plugin's output is kept. */
  const GM_MAX_OUTPUT := 10485760

  datatype Option<+T> = None | Some(value: T)

  /** The C string at the start of `s`. */
  function CStr(s: seq<char>): (r: string)
    ensures NUL !in r && r <= s
    ensures |r| < |s| ==> s[|r|] == NUL
  {
    if s == [] || s[0] == NUL then "" else [s[0]] + CStr(s[1..])
  }

  lemma {:induction false} CStrOf(s: string, rest: seq<char>)
    requires NUL !in s && rest != [] && rest[0] == NUL
    ensures CStr(s + rest) == s
  {
    if s != [] {
      assert (s + rest)[1..] == s[1..] + rest;
      CStrOf(s[1..], rest);
    } else {
      assert s + rest == rest;
    }
  }

  /** What is behind a NUL does not matter. */
  lemma {:induction false} CStrPrefix(a: seq<char>, b: seq<char>)
    ensures NUL in a ==> CStr(a + b) == CStr(a)
  {
    if a != [] && a[0] != NUL {
      assert (a + b)[1..] == a[1..] + b;
      CStrPrefix(a[1..], b);
    }
  }

  lemma {:induction false} CStrUpTo(a: seq<char>, b: seq<char>)
    requires b != [] && b[0] == NUL
    ensures CStr(a + b) == CStr(a)
  {
    if a == [] {
      assert a + b == b;
    } else if a[0] != NUL {
      assert (a + b)[1..] == a[1..] + b;
      CStrUpTo(a[1..], b);
    }
  }

  /** A string is determined by where its NUL is. */
  lemma {:induction false} CStrTo(s: seq<char>, n: nat)
    requires n < |s| && s[n] == NUL && NUL !in s[..n]
    ensures CStr(s) == s[..n]
  {
    assert s == s[..n] + s[n..];
    CStrOf(s[..n], s[n..]);
  }

  predicate MatchesAt(s: string, pat: string, i: nat) {
    i + |pat| <= |s| && s[i..i + |pat|] == pat
  }

  /** strstr and memmem: the first place where `pat` occurs in `s`, or -1. */
  function Find(s: string, pat: string): (r: int)
    ensures -1 <= r && (r >= 0 ==> r + |pat| <= |s|)
  {
    if pat <= s then 0
    else if s == "" then -1
    else if Find(s[1..], pat) < 0 then -1
    else Find(s[1..], pat) + 1
  }

  lemma {:induction false} FindMatches(s: string, pat: string)
    requires Find(s, pat) >= 0
    ensures MatchesAt(s, pat, Find(s, pat))
  {
    if !(pat <= s) {
      var r := Find(s[1..], pat);
      FindMatches(s[1..], pat);
      assert s[1..][r..r + |pat|] == s[r + 1..r + 1 + |pat|];
    }
  }

  lemma {:induction false} FindIsFirst(s: string, pat: string, i: nat)
    requires MatchesAt(s, pat, i)
    ensures 0 <= Find(s, pat) <= i
  {
    if i > 0 && !(pat <= s) {
      assert s[1..][i - 1..i - 1 + |pat|] == s[i..i + |pat|];
      FindIsFirst(s[1..], pat, i - 1);
    }
  }

  /** isspace in the C locale */
  predicate IsSpace(c: char) {
    c == ' ' || ('\t' <= c <= '\r')
  }

  function LTrim(s: string): (r: string)
    ensures |r| <= |s| && r == s[|s| - |r|..]
    ensures r != "" ==> !IsSpace(r[0])
  {
    if s != "" && IsSpace(s[0]) then LTrim(s[1..]) else s
  }

  lemma LTrimNothing(s: string)
    requires s != "" && !IsSpace(s[0])
    ensures LTrim(s) == s
  {
  }

  function RTrim(s: string): (r: string)
    ensures |r| <= |s| && r == s[..|r|]
    ensures r != "" ==> !IsSpace(r[|r| - 1])
  {
    if s != "" && IsSpace(s[|s| - 1]) then RTrim(s[..|s| - 1]) else s
  }

  function Trimmed(s: string): (r: string)
    ensures r != "" ==> !IsSpace(r[0]) && !IsSpace(r[|r| - 1])
    ensures forall c | c in r :: c in s
  {
    RTrim(LTrim(s))
  }

  lemma SpaceCharacters(c: char)
    ensures IsSpace(c) <==> c in {' ', '\t', '\n', '\U{0B}', '\U{0C}', '\r'}
  {
  }

  predicate AllSpace(s: string) {
    forall c | c in s :: IsSpace(c)
  }

  /** No space at either end. */
  predicate Tight(s: string) {
    s != "" ==> !IsSpace(s[0]) && !IsSpace(s[|s| - 1])
  }

  lemma {:induction false} LTrimBlank(gap: string, s: string)
    requires AllSpace(gap)
    ensures LTrim(gap + s) == LTrim(s)
  {
    if gap == "" {
      assert gap + s == s;
    } else {
      assert (gap + s)[1..] == gap[1..] + s && gap[0] in gap;
      LTrimBlank(gap[1..], s);
    }
  }

  lemma {:induction false} RTrimBlank(s: string, gap: string)
    requires AllSpace(gap)
    ensures RTrim(s + gap) == RTrim(s)
  {
    if gap == "" {
      assert s + gap == s;
    } else {
      var n := |gap| - 1;
      assert (s + gap)[..|s| + n] == s + gap[..n] && (s + gap)[|s| + n] == gap[n] && gap[n] in gap;
      RTrimBlank(s, gap[..n]);
    }
  }

  lemma RTrimNothing(s: string)
    requires Tight(s)
    ensures LTrim(s) == s && RTrim(s) == s
  {
  }

  /** Trimming takes off the spaces at both ends and keeps everything between them. */
  lemma TrimmedText(g: string, t: string, h: string)
    requires AllSpace(g) && Tight(t) && AllSpace(h)
    ensures Trimmed(g + t + h) == t
  {
    hide LTrim, RTrim;
    assert g + t + h == g + (t + h);
    LTrimBlank(g, t + h);
    if t == "" {
      assert t + h == h + "";
      LTrimBlank(h, "");
    } else {
      LTrimNothing(t + h);
      RTrimBlank(t, h);
    }
    RTrimNothing("");
    RTrimNothing(t);
  }

  lemma {:induction false} LTrimParts(s: string)
    ensures AllSpace(s[..|s| - |LTrim(s)|])
  {
    if s != "" && IsSpace(s[0]) {
      LTrimParts(s[1..]);
      var n := |s[1..]| - |LTrim(s[1..])|;
      assert s[..n + 1] == [s[0]] + s[1..][..n];
    }
  }

  lemma {:induction false} RTrimParts(s: string)
    ensures AllSpace(s[|RTrim(s)|..])
  {
    if s != "" && IsSpace(s[|s| - 1]) {
      var n := |s| - 1;
      RTrimParts(s[..n]);
      var k := |RTrim(s[..n])|;
      assert s[k..] == s[..n][k..] + [s[n]];
    }
  }

  /** Every string is made up of a trimmed text and spaces around it. */
  lemma TrimmedParts(s: string) returns (g: string, h: string)
    ensures AllSpace(g) && AllSpace(h) && Tight(Trimmed(s)) && s == g + Trimmed(s) + h
  {
    hide LTrim, RTrim, AllSpace;
    LTrimParts(s);
    var t := LTrim(s);
    RTrimParts(t);
    g, h := s[..|s| - |t|], t[|RTrim(t)|..];
    assert t == RTrim(t) + h && s == g + t;
  }

  /** More spaces around a string make no difference. */
  lemma TrimmedAround(a: string, s: string, b: string)
    requires AllSpace(a) && AllSpace(b)
    ensures Trimmed(a + s + b) == Trimmed(s)
  {
    hide Trimmed;
    var g, h := TrimmedParts(s);
    assert a + s + b == (a + g) + Trimmed(s) + (h + b);
    TrimmedText(a + g, Trimmed(s), h + b);
  }

  /** ltrim moves the start of the string. */
  method TrimStart(s: string) returns (lo: nat)
    ensures lo <= |s| && s[lo..] == LTrim(s)
  {
    lo := 0;
    while lo < |s| && IsSpace(s[lo])
      invariant lo <= |s| && LTrim(s[lo..]) == LTrim(s)
    {
      assert s[lo..][1..] == s[lo + 1..];
      lo := lo + 1;
    }
  }

  /** rtrim moves the end; it relies on the string having a first character that is no space. */
  method TrimEnd(s: string) returns (hi: nat)
    requires s != "" ==> !IsSpace(s[0])
    ensures hi <= |s| && s[..hi] == RTrim(s)
  {
    hi := |s|;
    if s == "" { return; }
    assert s[..hi] == s;
    while IsSpace(s[hi - 1])
      invariant 0 < hi <= |s| && RTrim(s[..hi]) == RTrim(s)
      decreases hi
    {
      assert s[..hi][..hi - 1] == s[..hi - 1];
      hi := hi - 1;
    }
  }

  method TrimBounds(s: string) returns (lo: nat, hi: nat)
    ensures lo <= hi <= |s| && s[lo..hi] == Trimmed(s)
  {
    hide LTrim, RTrim;
    lo := TrimStart(s);
    hi := TrimEnd(s[lo..]);
    assert s[lo..][..hi] == s[lo..lo + hi];
    hi := lo + hi;
  }

  method Trim(s: string) returns (t: string)
    ensures t == Trimmed(s)
  {
    var lo, hi := TrimBounds(s);
    t := s[lo..hi];
  }

  /** memcpy and strcpy without its NUL */
  method Copy<T>(dst: array<T>, at: nat, src: seq<T>)
    requires at + |src| <= dst.Length
    modifies dst
    ensures dst[..at] == old(dst[..at]) && dst[at..at + |src|] == src
    ensures dst[at + |src|..] == old(dst[at + |src|..])
    ensures dst[..at + |src|] == old(dst[..at]) + src
  {
    forall i | 0 <= i < |src| { dst[at + i] := src[i]; }
    assert dst[..at + |src|] == dst[..at] + dst[at..at + |src|];
  }

  // ---------------------------------------------------------------- strsep

  /** The length of the first token of `s`. */
  function TokenEnd(s: string, delim: char): (n: nat)
    ensures n <= |s| && delim !in s[..n] && (n < |s| ==> s[n] == delim)
  {
    if s == "" || s[0] == delim then 0 else TokenEnd(s[1..], delim) + 1
  }

  function Token(s: string, delim: char): string {
    s[..TokenEnd(s, delim)]
  }

  /** What is left after the first token and its delimiter. */
  function AfterToken(s: string, delim: char): (r: Option<string>)
    ensures r.Some? ==> |r.value| < |s|
  {
    var n := TokenEnd(s, delim);
    if n < |s| then Some(s[n + 1..]) else None
  }

  lemma {:induction false} TokenOf(a: string, delim: char, rest: string)
    requires delim !in a
    ensures TokenEnd(a + [delim] + rest, delim) == |a|
    ensures Token(a + [delim] + rest, delim) == a
    ensures AfterToken(a + [delim] + rest, delim) == Some(rest)
  {
    var s := a + [delim] + rest;
    if a != "" {
      TokenOf(a[1..], delim, rest);
      assert s[1..] == a[1..] + [delim] + rest;
    }
    assert s[..|a|] == a && s[|a| + 1..] == rest;
  }

  lemma {:induction false} TokenWhole(s: string, delim: char)
    requires delim !in s
    ensures Token(s, delim) == s && AfterToken(s, delim) == None
  {
    if s != "" { TokenWhole(s[1..], delim); }
  }

  /** strsep(&p, delim) on the string at offset `p`; -1 is the null pointer. */
  method StrSep(buf: array<char>, p: nat, delim: char) returns (next: int)
    requires p < buf.Length && NUL in buf[p..] && delim != NUL
    modifies buf
    ensures CStr(buf[p..]) == Token(old(CStr(buf[p..])), delim)
    ensures var rest := AfterToken(old(CStr(buf[p..])), delim);
            if rest == None then next == -1
            else p < next <= p + |old(CStr(buf[p..]))| < buf.Length && CStr(buf[next..]) == rest.value
    ensures next >= 0 ==> next == p + |CStr(buf[p..])| + 1 && NUL in buf[next..]
    ensures forall i | 0 <= i < buf.Length && (i < p || p + |old(CStr(buf[p..]))| <= i) :: buf[i] == old(buf[i])
  {
    hide CStr, TokenEnd;
    ghost var s := CStr(buf[p..]);
    ghost var n := TokenEnd(s, delim);
    CStrEnd(buf[p..]);
    var i := p;
    while buf[i] != NUL && buf[i] != delim
      invariant p <= i <= p + n
      decreases p + n - i
    {
      i := i + 1;
    }
    assert i == p + n;
    if buf[i] == NUL {
      next := -1;
      assert s[..n] == s;
    } else {
      ghost var before := buf[p..];
      buf[i] := NUL;
      next := i + 1;
      assert buf[p..] == before[n := NUL];
      assert buf[next..] == before[n + 1..];
      CStrCut(before, n);
    }
  }

  lemma CStrStep(s: seq<char>)
    requires s != []
    ensures CStr(s) == if s[0] == NUL then "" else [s[0]] + CStr(s[1..])
  {
  }

  lemma {:induction false} CStrEnd(s: seq<char>)
    requires NUL in s
    ensures |CStr(s)| < |s| && s[|CStr(s)|] == NUL
  {
    if s[0] != NUL { CStrEnd(s[1..]); }
  }

  lemma CStrCutFirst(s: seq<char>)
    requires NUL in s && CStr(s) != ""
    ensures CStr(s[0 := NUL]) == "" && CStr(s[1..]) == CStr(s)[1..] && NUL in s[1..]
  {
    CStrEnd(s);
  }

  /** Writing a NUL into a string cuts it in two. */
  lemma {:induction false} CStrCut(s: seq<char>, n: nat)
    requires NUL in s && n < |CStr(s)|
    ensures CStr(s[n := NUL]) == CStr(s)[..n]
    ensures CStr(s[n + 1..]) == CStr(s)[n + 1..] && NUL in s[n + 1..]
  {
    hide CStr;
    var c := CStr(s);
    CStrCutFirst(s);
    if n > 0 {
      CStrCut(s[1..], n - 1);
      assert s[n + 1..] == s[1..][n..] && c[n + 1..] == c[1..][n..];
      CutLater(s, n, c);
    }
  }

  lemma CutLater(s: seq<char>, n: nat, c: string)
    requires 0 < n < |c| <= |s| && c == CStr(s) && CStr(s[1..][n - 1 := NUL]) == c[1..][..n - 1]
    ensures CStr(s[n := NUL]) == c[..n]
  {
    hide CStr;
    CStrStep(s);
    CStrStep(s[n := NUL]);
    assert s[n := NUL][1..] == s[1..][n - 1 := NUL];
    assert c[..n] == [c[0]] + c[1..][..n - 1];
  }

  lemma {:induction false} CStrSuffix(s: seq<char>, n: nat)
    requires NUL in s && n <= |CStr(s)|
    ensures CStr(s[n..]) == CStr(s)[n..] && NUL in s[n..]
  {
    hide CStr;
    assert s[0..] == s;
    if n > 0 {
      CStrCutFirst(s);
      CStrSuffix(s[1..], n - 1);
      assert s[n..] == s[1..][n - 1..];
    }
  }

  lemma NulAfter(s: seq<char>)
    requires |CStr(s)| < |s|
    ensures NUL in s
  {
  }

  // ---------------------------------------------------------------- strings inside a buffer

  lemma Slice(s: seq<char>, lo: nat, hi: nat, a: nat, b: nat)
    requires lo <= a <= b <= hi <= |s|
    ensures s[lo..hi][a - lo..b - lo] == s[a..b]
  {
    var t := s[lo..hi];
    forall k | 0 <= k < b - a ensures t[a - lo..b - lo][k] == s[a..b][k] {
      assert t[a - lo + k] == s[a + k];
    }
  }

  lemma TextAt(buf: array<char>, p: nat, z: nat, s: string)
    requires p <= z < buf.Length && buf[p..z] == s && buf[z] == NUL && NUL !in s
    ensures CStr(buf[p..]) == s && NUL in buf[p..]
  {
    assert buf[p..][..z - p] == s && buf[p..][z - p] == NUL;
    CStrTo(buf[p..], z - p);
  }

  method StrLen(buf: array<char>, p: nat) returns (z: nat)
    requires p < buf.Length && NUL in buf[p..]
    ensures z == p + |CStr(buf[p..])| < buf.Length && buf[p..z] == CStr(buf[p..]) && buf[z] == NUL
  {
    hide CStr;
    CStrEnd(buf[p..]);
    z := p;
    while buf[z] != NUL
      invariant p <= z <= p + |CStr(buf[p..])| && NUL !in buf[p..z]
      decreases buf.Length - z
    {
      z := z + 1;
    }
    assert buf[p..][..z - p] == buf[p..z];
    CStrTo(buf[p..], z - p);
  }

  /** trim on a string in a buffer: at most one NUL is written, inside the string. */
  method TrimInPlace(buf: array<char>, p: nat) returns (start: nat)
    requires p < buf.Length && NUL in buf[p..]
    modifies buf
    ensures p <= start <= p + |old(CStr(buf[p..]))| < buf.Length && NUL in buf[start..]
    ensures CStr(buf[start..]) == Trimmed(old(CStr(buf[p..])))
    ensures buf[p + |old(CStr(buf[p..]))|] == NUL
    ensures forall i | 0 <= i < buf.Length && (i < p || p + |old(CStr(buf[p..]))| <= i) :: buf[i] == old(buf[i])
  {
    hide CStr, Trimmed;
    var z := StrLen(buf, p);
    ghost var token, before := CStr(buf[p..]), buf[..];
    assert NUL !in token && token == before[p..z];
    var lo, end := TrimBounds(buf[p..z]);
    start := p + lo;
    ghost var t := token[lo..end];
    if end < z - p { buf[p + end] := NUL; }
    assert before[start..p + end] == t by { Slice(before, p, z, start, p + end); }
    assert forall i | start <= i < p + end :: buf[i] == before[i];
    assert buf[start..p + end] == before[start..p + end];
    TextAt(buf, start, p + end, t);
  }

  /** The key and the value of a line, separated in place. */
  method SplitPair(buf: array<char>, line: nat) returns (key: string, value: Option<string>)
    requires line < buf.Length && NUL in buf[line..]
    modifies buf
    ensures key == Token(old(CStr(buf[line..])), '=') && value == AfterToken(old(CStr(buf[line..])), '=')
    ensures forall i | 0 <= i < buf.Length && (i < line || line + |old(CStr(buf[line..]))| <= i) ::
              buf[i] == old(buf[i])
  {
    hide CStr, TokenEnd;
    var v := StrSep(buf, line, '=');
    key := CStr(buf[line..]);
    value := if v == -1 then None else Some(CStr(buf[v..]));
  }

  /** Cuts the next line off, then its key from its value; `next` is -1 behind the last. */
  method NextLine(buf: array<char>, data: nat) returns (key: string, value: Option<string>, next: int)
    requires data < buf.Length && NUL in buf[data..]
    modifies buf
    ensures var text := old(CStr(buf[data..])); var line := Token(text, '\n'); var rest := AfterToken(text, '\n');
            && key == Token(line, '=') && value == AfterToken(line, '=')
            && (if rest == None then next == -1
                else data < next < buf.Length && NUL in buf[next..] && CStr(buf[next..]) == rest.value)
  {
    hide CStr, TokenEnd, Token, AfterToken;
    next := StrSep(buf, data, '\n');
    if next == -1 {
      NulAfter(buf[data..]);
      key, value := SplitPair(buf, data);
    } else {
      assert buf[data..][next - 1 - data] == NUL;
      ghost var tail := buf[next..];
      key, value := SplitPair(buf, data);
      assert buf[next..] == tail;
    }
  }
}
