/** decode_xml of send_multi: five passes over a buffer, each replacing one XML entity in place. */
module DecodeXml {
  import opened CString

  /** The table dtab, in its order. */
  const PLAIN: string := "><&\'|"

  function Entity(c: char): (e: string)
    requires c in PLAIN
    ensures 4 <= |e| <= 6 && e[0] == '&' && e[|e| - 1] == ';'
  {
    if c == '>' then "&gt;"
    else if c == '<' then "&lt;"
    else if c == '&' then "&amp;"
    else if c == '\'' then "&#039;"
    else "&#124;"
  }

  /** One pass: as long as the entity occurs, its first occurrence is replaced. */
  function Pass(s: string, c: char): string
    requires c in PLAIN
    decreases |s|
  {
    var q := Find(s, Entity(c));
    if q < 0 then s else Pass(s[..q] + [c] + s[q + |Entity(c)|..], c)
  }

  /** The passes from table row `i` on. */
  function DecodeFrom(s: string, i: nat): string
    requires i <= |PLAIN|
    decreases |PLAIN| - i
  {
    if i == |PLAIN| then s else DecodeFrom(Pass(s, PLAIN[i]), i + 1)
  }

  function Decode(s: string): string {
    DecodeFrom(s, 0)
  }

  /** strcpy to a lower address of the same buffer, from front to back. */
  method CopyDown(buf: array<char>, dst: nat, src: nat, ghost t: string)
    requires dst < src < buf.Length && NUL in buf[src..] && t == CStr(buf[src..])
    modifies buf
    ensures src + |t| < buf.Length && buf[dst..dst + |t|] == t && buf[dst + |t|] == NUL
    ensures forall i | 0 <= i < buf.Length && (i < dst || dst + |t| < i) :: buf[i] == old(buf[i])
  {
    hide CStr;
    CStrEnd(buf[src..]);
    var j := 0;
    while buf[src + j] != NUL
      invariant 0 <= j <= |t| && src + |t| < buf.Length
      invariant buf[dst..dst + j] == t[..j]
      invariant forall i | 0 <= i < buf.Length && (i < dst || dst + j <= i) :: buf[i] == old(buf[i])
      decreases |t| - j
    {
      assert old(buf[src..])[j] == t[j];
      buf[dst + j] := buf[src + j];
      j := j + 1;
    }
    assert old(buf[src..])[j] == NUL;
    buf[dst + j] := NUL;
  }

  /** Replaces one occurrence: the character goes to `found`, the rest of the string moves down. */
  method ReplaceAt(buf: array<char>, start: nat, q: nat, c: char)
    requires start < buf.Length && NUL in buf[start..]
    requires c in PLAIN && Find(CStr(buf[start..]), Entity(c)) == q
    modifies buf
    ensures var s := old(CStr(buf[start..])); var n := |Entity(c)|;
            && start + |s| < buf.Length && q + n <= |s|
            && CStr(buf[start..]) == s[..q] + [c] + s[q + n..] && NUL in buf[start..]
            && forall i | 0 <= i < buf.Length && (i < start || start + |s| <= i) :: buf[i] == old(buf[i])
  {
    hide CStr, Find, Entity;
    ghost var s := CStr(buf[start..]);
    var n := |Entity(c)|;
    CStrEnd(buf[start..]);
    CStrSuffix(buf[start..], q + n);
    assert buf[start..][q + n..] == buf[start + q + n..];
    assert buf[start..start + q] == s[..q];
    Splice(buf, start, start + q, start + q + n, c, s[..q], s[q + n..]);
  }

  method Splice(buf: array<char>, start: nat, found: nat, src: nat, c: char, ghost a: string, ghost b: string)
    requires start <= found && found + 1 < src < buf.Length && c != NUL && NUL !in a && NUL !in b
    requires buf[start..found] == a && NUL in buf[src..] && CStr(buf[src..]) == b
    modifies buf
    ensures CStr(buf[start..]) == a + [c] + b && NUL in buf[start..] && src + |b| < buf.Length
    ensures forall i | 0 <= i < buf.Length && (i < start || src + |b| <= i) :: buf[i] == old(buf[i])
  {
    hide CStr;
    buf[found] := c;
    assert buf[src..] == old(buf[src..]);
    CopyDown(buf, found + 1, src, b);
    assert buf[start..found] == a;
    Spliced(buf, start, a, c, found + 1, b);
  }

  lemma Spliced(buf: array<char>, start: nat, a: string, c: char, dst: nat, b: string)
    requires dst == start + |a| + 1 && dst + |b| < buf.Length
    requires buf[start..start + |a|] == a && buf[start + |a|] == c && buf[dst..dst + |b|] == b && buf[dst + |b|] == NUL
    requires NUL !in a && c != NUL && NUL !in b
    ensures CStr(buf[start..]) == a + [c] + b && NUL in buf[start..]
  {
    hide CStr;
    var r := a + [c] + b;
    assert buf[start..dst] == a + [c];
    assert buf[start..dst + |b|] == r;
    assert buf[start..][..|r|] == r && buf[start..][|r|] == NUL;
    CStrTo(buf[start..], |r|);
  }

  /** decode_xml; nothing is written before the string or behind its old end. */
  method DecodeInPlace(buf: array<char>, start: nat)
    requires start < buf.Length && NUL in buf[start..]
    modifies buf
    ensures CStr(buf[start..]) == Decode(old(CStr(buf[start..]))) && NUL in buf[start..]
    ensures |CStr(buf[start..])| <= |old(CStr(buf[start..]))|
    ensures forall i | 0 <= i < buf.Length && (i < start || start + |old(CStr(buf[start..]))| <= i) ::
              buf[i] == old(buf[i])
  {
    hide CStr, Find, Entity, Pass, DecodeFrom;
    ghost var s := CStr(buf[start..]);
    CStrEnd(buf[start..]);
    var i := 0;
    while i < |PLAIN|
      invariant 0 <= i <= |PLAIN|
      invariant NUL in buf[start..] && |CStr(buf[start..])| <= |s|
      invariant DecodeFrom(CStr(buf[start..]), i) == Decode(s)
      invariant forall k | 0 <= k < buf.Length && (k < start || start + |s| <= k) :: buf[k] == old(buf[k])
    {
      var c := PLAIN[i];
      ghost var t := CStr(buf[start..]);
      DecodeStep(t, i);
      var found := Find(CStr(buf[start..]), Entity(c));
      while found >= 0
        invariant NUL in buf[start..] && |CStr(buf[start..])| <= |s|
        invariant found == Find(CStr(buf[start..]), Entity(c)) && found >= -1
        invariant Pass(CStr(buf[start..]), c) == Pass(t, c)
        invariant forall k | 0 <= k < buf.Length && (k < start || start + |s| <= k) :: buf[k] == old(buf[k])
        decreases |CStr(buf[start..])|
      {
        PassStep(CStr(buf[start..]), c);
        ReplaceAt(buf, start, found, c);
        found := Find(CStr(buf[start..]), Entity(c));
      }
      PassStep(CStr(buf[start..]), c);
      i := i + 1;
    }
    DecodeDone(CStr(buf[start..]));
  }

  lemma PassStep(s: string, c: char)
    requires c in PLAIN
    ensures var q := Find(s, Entity(c));
            Pass(s, c) == if q < 0 then s else Pass(s[..q] + [c] + s[q + |Entity(c)|..], c)
  {
    hide Find, Entity;
  }

  lemma DecodeStep(s: string, i: nat)
    requires i < |PLAIN|
    ensures DecodeFrom(s, i) == DecodeFrom(Pass(s, PLAIN[i]), i + 1)
  {
  }

  lemma DecodeDone(s: string)
    ensures DecodeFrom(s, |PLAIN|) == s
  {
  }

  // ---------------------------------------------------------------- no entity is left

  lemma {:induction false} PassRemoves(s: string, c: char)
    requires c in PLAIN
    ensures Find(Pass(s, c), Entity(c)) < 0
    decreases |s|
  {
    hide Find, Entity, Pass;
    PassStep(s, c);
    var q := Find(s, Entity(c));
    if q >= 0 { PassRemoves(s[..q] + [c] + s[q + |Entity(c)|..], c); }
  }

  /** A replacement puts no entity together that does not contain the new character. */
  lemma ReplacementKeeps(s: string, e: string, c: char, q: nat, n: nat)
    requires 0 < n && q + n <= |s| && c !in e && e != "" && Find(s, e) < 0
    ensures Find(s[..q] + [c] + s[q + n..], e) < 0
  {
    hide Find;
    var r := s[..q] + [c] + s[q + n..];
    var p := Find(r, e);
    if p >= 0 {
      FindMatches(r, e);
      assert r[q] == c;
      if p + |e| <= q {
        assert r[p..p + |e|] == s[p..p + |e|];
        FindIsFirst(s, e, p);
      } else if p > q {
        assert r[p..p + |e|] == s[p + n - 1..p + n - 1 + |e|];
        FindIsFirst(s, e, p + n - 1);
      }
    }
  }

  lemma {:induction false} PassKeeps(s: string, c: char, e: string)
    requires c in PLAIN && c !in e && e != "" && Find(s, e) < 0
    ensures Find(Pass(s, c), e) < 0
    decreases |s|
  {
    hide Find, Entity, Pass;
    PassStep(s, c);
    var q, n := Find(s, Entity(c)), |Entity(c)|;
    if q >= 0 {
      ReplacementKeeps(s, e, c, q, n);
      PassKeeps(s[..q] + [c] + s[q + n..], c, e);
    }
  }

  predicate Lacks(s: string, i: nat)
    requires i < |PLAIN|
  {
    Find(s, Entity(PLAIN[i])) < 0
  }

  lemma LastRowsLacking(s: string)
    ensures Lacks(Decode(s), 2) && Lacks(Decode(s), 3) && Lacks(Decode(s), 4)
  {
    hide Find, Pass, DecodeFrom;
    var s1 := Pass(s, PLAIN[0]);
    var s2 := Pass(s1, PLAIN[1]);
    var s3 := Pass(s2, PLAIN[2]);
    var s4 := Pass(s3, PLAIN[3]);
    var s5 := Pass(s4, PLAIN[4]);
    DecodeStep(s, 0);
    DecodeStep(s1, 1);
    DecodeStep(s2, 2);
    DecodeStep(s3, 3);
    DecodeStep(s4, 4);
    DecodeDone(s5);
    PassRemoves(s2, PLAIN[2]);
    PassKeeps(s3, PLAIN[3], Entity(PLAIN[2]));
    PassKeeps(s4, PLAIN[4], Entity(PLAIN[2]));
    PassRemoves(s3, PLAIN[3]);
    PassKeeps(s4, PLAIN[4], Entity(PLAIN[3]));
    PassRemoves(s4, PLAIN[4]);
  }

  /** The text does not contain `e`. */
  ghost predicate Without(s: string, e: string) {
    forall i: nat :: !MatchesAt(s, e, i)
  }

  lemma NotFound(s: string, e: string)
    ensures Find(s, e) < 0 <==> Without(s, e)
  {
    hide Find;
    if Find(s, e) >= 0 { FindMatches(s, e); }
    forall i: nat | MatchesAt(s, e, i) ensures Find(s, e) >= 0 { FindIsFirst(s, e, i); }
  }

  /** What must not be in a text that is decoded from its encoding. */
  ghost predicate WithoutLastRows(s: string) {
    Without(s, "&amp;") && Without(s, "&#039;") && Without(s, "&#124;")
  }

  lemma LastRows(s: string)
    ensures WithoutLastRows(s) <==> Lacks(s, 2) && Lacks(s, 3) && Lacks(s, 4)
  {
    hide Find, Without;
    NotFound(s, "&amp;");
    NotFound(s, "&#039;");
    NotFound(s, "&#124;");
  }

  /** The last three entities of the table never survive decoding. */
  lemma NoEntityLeft(s: string)
    ensures Without(Decode(s), "&amp;") && Without(Decode(s), "&#039;") && Without(Decode(s), "&#124;")
  {
    hide Find, DecodeFrom, Without, Lacks;
    LastRowsLacking(s);
    LastRows(Decode(s));
  }

  // ---------------------------------------------------------------- each of the five entities

  /** The only ampersand of the text is at `n`. */
  predicate OneAmpersandAt(s: string, n: nat) {
    n < |s| && forall i | 0 <= i < |s| :: s[i] == '&' <==> i == n
  }

  lemma MatchHead(s: string, e: string, q: nat)
    requires MatchesAt(s, e, q) && |e| >= 3
    ensures s[q] == e[0] && s[q + 1] == e[1] && s[q + 2] == e[2]
  {
    var t := s[q..q + |e|];
    assert t[0] == s[q] && t[1] == s[q + 1] && t[2] == s[q + 2];
  }

  lemma FoundAtAmpersand(s: string, n: nat, d: char)
    requires OneAmpersandAt(s, n) && d in PLAIN
    ensures Find(s, Entity(d)) == if MatchesAt(s, Entity(d), n) then n else -1
  {
    hide Find, Entity;
    var e := Entity(d);
    if MatchesAt(s, e, n) { FindIsFirst(s, e, n); }
    var q := Find(s, e);
    if q >= 0 {
      FindMatches(s, e);
      MatchHead(s, e, q);
    }
  }

  lemma NothingToDecode(s: string, d: char)
    requires '&' !in s && d in PLAIN
    ensures Pass(s, d) == s
  {
    hide Find, Entity, Pass;
    PassStep(s, d);
    var q := Find(s, Entity(d));
    if q >= 0 {
      FindMatches(s, Entity(d));
      MatchHead(s, Entity(d), q);
    }
  }

  lemma {:induction false} NothingToDecodeFrom(s: string, i: nat)
    requires '&' !in s && i <= |PLAIN|
    ensures DecodeFrom(s, i) == s
    decreases |PLAIN| - i
  {
    hide Pass, DecodeFrom;
    if i < |PLAIN| {
      DecodeStep(s, i);
      NothingToDecode(s, PLAIN[i]);
      NothingToDecodeFrom(s, i + 1);
    } else {
      DecodeDone(s);
    }
  }

  lemma AmpersandOfEntity(a: string, c: char, b: string)
    requires '&' !in a && '&' !in b && c in PLAIN
    ensures OneAmpersandAt(a + Entity(c) + b, |a|)
  {
    hide Entity;
    OneAmpersand(c);
    var s, e := a + Entity(c) + b, Entity(c);
    forall i | 0 <= i < |s| ensures s[i] == '&' <==> i == |a| {
      assert |a| < i < |a| + |e| ==> s[i] == e[1..][i - |a| - 1];
    }
  }

  /** A row does not touch the entity of another character. */
  lemma OtherRow(a: string, c: char, b: string, d: char)
    requires '&' !in a && '&' !in b && c in PLAIN && d in PLAIN && c != d
    ensures Pass(a + Entity(c) + b, d) == a + Entity(c) + b
  {
    hide Find, Entity, Pass;
    var s := a + Entity(c) + b;
    EntitiesDiffer(c, d);
    AmpersandOfEntity(a, c, b);
    FoundAtAmpersand(s, |a|, d);
    PassStep(s, d);
    assert s[|a| + 1] == Entity(c)[1] && s[|a| + 2] == Entity(c)[2];
    if MatchesAt(s, Entity(d), |a|) { MatchHead(s, Entity(d), |a|); }
  }

  /** The row of the character itself. */
  lemma OwnRow(a: string, c: char, b: string)
    requires '&' !in a && '&' !in b && c in PLAIN
    ensures Pass(a + Entity(c) + b, c) == Pass(a + [c] + b, c)
  {
    hide Find, Entity, Pass;
    var s, e := a + Entity(c) + b, Entity(c);
    AmpersandOfEntity(a, c, b);
    assert s[|a|..|a| + |e|] == e;
    FoundAtAmpersand(s, |a|, c);
    PassStep(s, c);
    assert s[..|a|] + [c] + s[|a| + |e|..] == a + [c] + b;
  }

  lemma {:induction false} EntityIsDecoded(a: string, c: char, b: string, i: nat)
    requires '&' !in a && '&' !in b && c != '&' && i <= |PLAIN| && c in PLAIN[i..]
    ensures DecodeFrom(a + Entity(c) + b, i) == a + [c] + b
    decreases |PLAIN| - i
  {
    hide Entity, Pass, DecodeFrom;
    DecodeStep(a + Entity(c) + b, i);
    assert PLAIN[i..] == [PLAIN[i]] + PLAIN[i + 1..];
    if PLAIN[i] == c {
      OwnRow(a, c, b);
      NothingToDecode(a + [c] + b, c);
      NothingToDecodeFrom(a + [c] + b, i + 1);
    } else {
      OtherRow(a, c, b, PLAIN[i]);
      EntityIsDecoded(a, c, b, i + 1);
    }
  }

  /** An ampersand that is decoded may begin another entity. */
  predicate BeginsEntity(b: string) {
    "amp;" <= b || "#039;" <= b || "#124;" <= b
  }

  lemma BareAmpersand(a: string, b: string)
    requires '&' !in a && '&' !in b
    ensures WithoutLastRows(a + "&" + b) <==> !BeginsEntity(b)
  {
    hide Without;
    AfterAmpersand(a, b, '&', "amp;");
    AfterAmpersand(a, b, '\'', "#039;");
    AfterAmpersand(a, b, '|', "#124;");
  }

  lemma AfterAmpersand(a: string, b: string, d: char, e: string)
    requires '&' !in a && '&' !in b && d in PLAIN && Entity(d) == "&" + e
    ensures Without(a + "&" + b, "&" + e) <==> !(e <= b)
  {
    hide Find, Without, Entity;
    var s, n := a + "&" + b, |a| + 1;
    NotFound(s, "&" + e);
    FoundAtAmpersand(s, |a|, d);
    assert s[n..] == b;
    if n + |e| <= |s| {
      assert s[|a|..n + |e|] == "&" + b[..|e|];
      assert ("&" + b[..|e|])[1..] == b[..|e|] && ("&" + e)[1..] == e;
    }
  }

  lemma AmpersandIsDecoded(a: string, b: string)
    requires '&' !in a && '&' !in b
    ensures Decode(a + Entity('&') + b) == a + "&" + b <==> !BeginsEntity(b)
  {
    hide Entity, Pass, DecodeFrom, Lacks, Find, Without;
    var s, t := a + Entity('&') + b, a + "&" + b;
    BareAmpersand(a, b);
    NoEntityLeft(s);
    LastRows(t);
    if !BeginsEntity(b) {
      DecodeStep(s, 0);
      DecodeStep(s, 1);
      OtherRow(a, '&', b, PLAIN[0]);
      OtherRow(a, '&', b, PLAIN[1]);
      DecodeStep(s, 2);
      OwnRow(a, '&', b);
      DecodeStep(t, 3);
      DecodeStep(t, 4);
      DecodeDone(t);
      LackingRow(t, 2);
      LackingRow(t, 3);
      LackingRow(t, 4);
    }
  }

  lemma LackingRow(s: string, i: nat)
    requires i < |PLAIN| && Lacks(s, i)
    ensures Pass(s, PLAIN[i]) == s
  {
    hide Find, Entity;
    PassStep(s, PLAIN[i]);
  }

  /** Each entity in a text without other ampersands is decoded, and nothing else is touched. The ampersand
      is left as such if and only if it does not begin another entity of the last three rows. */
  lemma EntitiesAreDecoded(a: string, b: string)
    requires '&' !in a && '&' !in b
    ensures Decode(a + "&gt;" + b) == a + ">" + b
    ensures Decode(a + "&lt;" + b) == a + "<" + b
    ensures Decode(a + "&#039;" + b) == a + "'" + b
    ensures Decode(a + "&#124;" + b) == a + "|" + b
    ensures Decode(a + "&amp;" + b) == a + "&" + b <==> !("amp;" <= b) && !("#039;" <= b) && !("#124;" <= b)
  {
    hide DecodeFrom;
    assert PLAIN[0..] == PLAIN;
    EntityIsDecoded(a, '>', b, 0);
    EntityIsDecoded(a, '<', b, 0);
    EntityIsDecoded(a, '\'', b, 0);
    EntityIsDecoded(a, '|', b, 0);
    AmpersandIsDecoded(a, b);
  }

  // ---------------------------------------------------------------- decoding undoes encoding

  /** Row `i` and the rows below it are still to be decoded. */
  predicate Encoded(c: char, i: nat) {
    i <= |PLAIN| && c in PLAIN[i..]
  }

  function Token(c: char, i: nat): (t: string)
    ensures t != "" && (t == [c] || t[0] == '&')
  {
    if Encoded(c, i) then Entity(c) else [c]
  }

  /** The text with the characters of row `i` and below encoded; Encode(s, 0) is what an XML writer
      produces. */
  function Encode(s: string, i: nat): string {
    if s == "" then "" else Token(s[0], i) + Encode(s[1..], i)
  }

  lemma {:induction false} EncodeConcat(a: string, b: string, i: nat)
    ensures Encode(a + b, i) == Encode(a, i) + Encode(b, i)
  {
    hide Token;
    if a == "" {
      assert a + b == b;
    } else {
      assert (a + b)[1..] == a[1..] + b;
      EncodeConcat(a[1..], b, i);
    }
  }

  /** Pass `i` on its way: `k` characters of the text are behind it. */
  function Mix(s: string, k: nat, i: nat): string
    requires k <= |s|
  {
    Encode(s[..k], i + 1) + Encode(s[k..], i)
  }

  lemma MixStep(s: string, k: nat, i: nat)
    requires k <= |s| && s != ""
    ensures Mix(s, k, i) ==
            if k > 0 then Token(s[0], i + 1) + Mix(s[1..], k - 1, i) else Token(s[0], i) + Mix(s[1..], 0, i)
    ensures k > 0 ==> |Encode(s[..k], i + 1)| == |Token(s[0], i + 1)| + |Encode(s[1..][..k - 1], i + 1)|
  {
    hide Token;
    if k > 0 {
      assert s[..k][1..] == s[1..][..k - 1] && s[1..][k - 1..] == s[k..];
    } else {
      assert Encode(s[..0], i + 1) == "" && Encode(s[1..][..0], i + 1) == "" && s[0..] == s && s[1..][0..] == s[1..];
    }
  }

  /** Characters that are no part of an entity's start are found where they were in the text. */
  lemma {:induction false} PlainPrefix(e: string, s: string, k: nat, i: nat)
    requires k <= |s| && e <= Mix(s, k, i) && '&' !in e
    ensures e <= s
  {
    hide Token, Encode;
    EmptyMix(i);
    if e != "" {
      MixStep(s, k, i);
      var t := Token(s[0], if k > 0 then i + 1 else i);
      var k' := if k > 0 then k - 1 else 0;
      assert t[0] == e[0] && t == [s[0]];
      assert e[1..] <= Mix(s[1..], k', i);
      PlainPrefix(e[1..], s[1..], k', i);
      assert e == [e[0]] + e[1..];
    }
  }

  lemma EmptyText(i: nat)
    ensures Encode("", i) == ""
  {
  }

  lemma EmptyMix(i: nat)
    ensures Mix("", 0, i) == ""
  {
  }

  lemma EntitiesDiffer(c: char, d: char)
    requires c in PLAIN && d in PLAIN && c != d
    ensures Entity(c)[1] != Entity(d)[1] || Entity(c)[2] != Entity(d)[2]
  {
  }

  lemma OneAmpersand(c: char)
    requires c in PLAIN
    ensures '&' !in Entity(c)[1..]
  {
  }

  /** What pass `i` must not meet in the text itself. From pass 2 on, decoded ampersands lie bare. */
  predicate Safe(s: string, i: nat)
    requires i < |PLAIN|
  {
    i < 2 || Lacks(s, i)
  }

  lemma SafeRest(s: string, i: nat)
    requires i < |PLAIN| && s != "" && Safe(s, i)
    ensures Safe(s[1..], i)
  {
  }

  /** No match begins in the part that pass `i` has left behind. */
  lemma {:induction false} NoEarlyMatch(s: string, k: nat, i: nat, p: nat)
    requires i < |PLAIN| && k <= |s| && Safe(s, i) && MatchesAt(Mix(s, k, i), Entity(PLAIN[i]), p)
    ensures p >= |Encode(s[..k], i + 1)|
    decreases |s|
  {
    hide Encode, Token, Entity, Lacks, Mix;
    if k == 0 {
      assert s[..0] == "";
      EmptyText(i + 1);
    } else {
      MixStep(s, k, i);
      SafeRest(s, i);
      var e, t, m := Entity(PLAIN[i]), Token(s[0], i + 1), Mix(s[1..], k - 1, i);
      if p < |t| {
        NoMatchHere(s, k, i, p);
      } else {
        assert (t + m)[p..p + |e|] == m[p - |t|..p - |t| + |e|];
        NoEarlyMatch(s[1..], k - 1, i, p - |t|);
      }
    }
  }

  lemma NoMatchHere(s: string, k: nat, i: nat, p: nat)
    requires i < |PLAIN| && 0 < k <= |s| && Safe(s, i) && p < |Token(s[0], i + 1)|
    ensures !MatchesAt(Token(s[0], i + 1) + Mix(s[1..], k - 1, i), Entity(PLAIN[i]), p)
  {
    hide Encode, Entity, Lacks, Mix;
    var c, x := PLAIN[i], s[0];
    var m := Mix(s[1..], k - 1, i);
    if Encoded(x, i + 1) {
      NoMatchInEntity(x, c, m, p);
    } else if MatchesAt([x] + m, Entity(c), p) {
      MatchAtStart(x, m, Entity(c));
      if i < 2 { AmpersandRow(i); }
      OneAmpersand(c);
      PlainPrefix(Entity(c)[1..], s[1..], k - 1, i);
      assert Entity(c) <= s;
      FoundAtStart(s, i);
    }
  }

  lemma AmpersandRow(i: nat)
    requires i < 2
    ensures Encoded('&', i + 1)
  {
    assert PLAIN[i + 1..][1 - i] == '&';
  }

  lemma MatchAtStart(x: char, m: string, e: string)
    requires e != "" && MatchesAt([x] + m, e, 0)
    ensures x == e[0] && e[1..] <= m
  {
    assert ([x] + m)[0..|e|][1..] == m[..|e| - 1];
  }

  lemma NoMatchInEntity(x: char, c: char, m: string, p: nat)
    requires x in PLAIN && c in PLAIN && x != c && p < |Entity(x)|
    ensures !MatchesAt(Entity(x) + m, Entity(c), p)
  {
    hide Entity;
    var t, e := Entity(x), Entity(c);
    OneAmpersand(x);
    EntitiesDiffer(x, c);
    if p > 0 {
      assert (t + m)[p] == t[1..][p - 1] != e[0];
    } else {
      assert t[1] == (t + m)[1] && t[2] == (t + m)[2];
    }
  }

  lemma FoundAtStart(s: string, i: nat)
    requires i < |PLAIN| && Entity(PLAIN[i]) <= s
    ensures !Lacks(s, i)
  {
  }

  lemma MixAdvance(s: string, k: nat, i: nat)
    requires i < |PLAIN| && k < |s|
    ensures s[k] != PLAIN[i] ==> Mix(s, k, i) == Mix(s, k + 1, i)
    ensures s[k] == PLAIN[i] ==>
              Mix(s, k, i) == Encode(s[..k], i + 1) + Entity(s[k]) + Encode(s[k + 1..], i)
              && Mix(s, k + 1, i) == Encode(s[..k], i + 1) + [s[k]] + Encode(s[k + 1..], i)
  {
    hide Encode, Entity;
    var a, x, b := s[..k], s[k], s[k + 1..];
    assert s[k..] == [x] + b && s[..k + 1] == a + [x];
    EncodeConcat([x], b, i);
    EncodeConcat(a, [x], i + 1);
    EncodeOne(x, i);
    EncodeOne(x, i + 1);
    SameRow(x, i);
  }

  lemma EncodeOne(x: char, i: nat)
    ensures Encode([x], i) == Token(x, i)
  {
    assert [x][1..] == "";
  }

  lemma SameRow(x: char, i: nat)
    requires i < |PLAIN|
    ensures x != PLAIN[i] ==> Token(x, i) == Token(x, i + 1)
    ensures x == PLAIN[i] ==> Token(x, i) == Entity(x) && Token(x, i + 1) == [x]
  {
    hide Entity;
    assert PLAIN[i..] == [PLAIN[i]] + PLAIN[i + 1..];
  }

  /** Pass `i` decodes row `i` and nothing else. */
  lemma {:induction false} PassDecodesRow(s: string, k: nat, i: nat)
    requires i < |PLAIN| && k <= |s| && Safe(s, i)
    ensures Pass(Mix(s, k, i), PLAIN[i]) == Encode(s, i + 1)
    decreases |s| - k
  {
    hide Encode, Entity, Pass, Find, Mix, Safe;
    var c, m := PLAIN[i], Mix(s, k, i);
    var q, done := Find(m, Entity(c)), Encode(s[..k], i + 1);
    PassStep(m, c);
    if q >= 0 {
      FindMatches(m, Entity(c));
      NoEarlyMatch(s, k, i, q);
    }
    if k == |s| {
      MixEnd(s, i);
      assert s[..k] == s;
    } else {
      MixAdvance(s, k, i);
      PassDecodesRow(s, k + 1, i);
      if s[k] == c {
        var rest := Encode(s[k + 1..], i);
        assert m[|done|..|done| + |Entity(c)|] == Entity(c);
        FindIsFirst(m, Entity(c), |done|);
        assert m[..q] + [c] + m[q + |Entity(c)|..] == done + [c] + rest;
      }
    }
  }

  lemma MixEnd(s: string, i: nat)
    ensures Mix(s, |s|, i) == Encode(s, i + 1)
  {
    assert s[..|s|] == s && s[|s|..] == "";
    EmptyText(i);
  }

  lemma {:induction false} NothingEncoded(s: string)
    ensures Encode(s, |PLAIN|) == s
  {
    if s != "" { NothingEncoded(s[1..]); }
  }

  lemma {:induction false} RowsDecode(s: string, i: nat)
    requires i <= |PLAIN| && forall j | i <= j < |PLAIN| :: Safe(s, j)
    ensures DecodeFrom(Encode(s, i), i) == s
    decreases |PLAIN| - i
  {
    hide Encode, Pass, Safe, DecodeFrom, Mix;
    if i == |PLAIN| {
      NothingEncoded(s);
      DecodeDone(s);
    } else {
      DecodeStep(Encode(s, i), i);
      MixStart(s, i);
      PassDecodesRow(s, 0, i);
      RowsDecode(s, i + 1);
    }
  }

  lemma MixStart(s: string, i: nat)
    ensures Mix(s, 0, i) == Encode(s, i)
  {
    assert s[..0] == "" && s[0..] == s;
    EmptyText(i + 1);
  }

  /** decode_xml undoes the encoding of a text if and only if the text does not itself contain one
      of the last three entities. Raw "&gt;" and "&lt;" survive, because their passes come first. */
  lemma DecodeUndoesEncode(s: string)
    ensures Decode(Encode(s, 0)) == s <==> Without(s, "&amp;") && Without(s, "&#039;") && Without(s, "&#124;")
  {
    hide Encode, DecodeFrom, Lacks, Without;
    NoEntityLeft(Encode(s, 0));
    LastRows(s);
    if Lacks(s, 2) && Lacks(s, 3) && Lacks(s, 4) { RowsDecode(s, 0); }
  }
}
