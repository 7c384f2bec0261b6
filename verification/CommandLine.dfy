/** parse_command_line: a command is cut into arguments in its own buffer. */
module CommandLine {
  import opened CString

  const MAX_CMD_ARGS := 4096

  /** A character, or a backslash with the character behind it. */
  function Width(s: string): (n: nat)
    requires s != ""
    ensures 0 < n <= |s|
  {
    if s[0] == '\\' && |s| > 1 then 2 else 1
  }

  /** A word without quotes, up to the next space: a backslash makes the character behind it ordinary. The
      text, and how many characters it takes. */
  function Bare(s: string): (r: (string, nat))
    ensures |r.0| <= r.1 <= |s| && (r.1 < |s| ==> IsSpace(s[r.1]))
    ensures s != "" && !IsSpace(s[0]) ==> r.1 > 0
  {
    if s == "" || IsSpace(s[0]) then ("", 0)
    else
      var r := Bare(s[Width(s)..]);
      ([s[Width(s) - 1]] + r.0, r.1 + Width(s))
  }

  predicate Quote(c: char) {
    c == '\'' || c == '"'
  }

  /** The next argument. The loops for quoted text end at the quote they start with: the argument is empty, and
      what was quoted is taken for the next ones. */
  function Argument(s: string): (r: (string, nat))
    requires s != "" && !IsSpace(s[0])
    ensures |r.0| <= r.1 && 0 < r.1 <= |s| && (|r.0| < r.1 || r.1 == |s| || IsSpace(s[r.1]))
  {
    if Quote(s[0]) then ("", 1) else Bare(s)
  }

  /** All arguments of a command. */
  function Words(s: string): seq<string>
    decreases |s|
  {
    var t := LTrim(s);
    if t == "" then [] else [Argument(t).0] + Words(t[Argument(t).1..])
  }

  /** A character as it has to be written: a space or a backslash with a backslash in front of it. */
  function Shown(c: char): (t: string)
    ensures t != ""
  {
    if IsSpace(c) || c == '\\' then ['\\', c] else [c]
  }

  function Protected(w: string): (t: string)
    ensures |t| >= |w|
  {
    if w == "" then "" else Shown(w[0]) + Protected(w[1..])
  }

  /** And one in front of a quote it begins with. */
  function Written(w: string): (t: string)
    ensures |t| >= |w|
  {
    (if w != "" && (w[0] == '\'' || w[0] == '"') then "\\" else "") + Protected(w)
  }

  /** Words with at least one space after each. */
  datatype Spaced = Spaced(word: string, gap: string)

  function Text(ws: seq<Spaced>): string {
    if ws == [] then "" else Written(ws[0].word) + ws[0].gap + Text(ws[1..])
  }

  function WordsOf(ws: seq<Spaced>): seq<string> {
    if ws == [] then [] else [ws[0].word] + WordsOf(ws[1..])
  }

  lemma BareBackslash(c: char, s: string)
    ensures Bare(['\\', c] + s) == ([c] + Bare(s).0, Bare(s).1 + 2)
  {
    hide Bare;
    var t := ['\\', c] + s;
    BareStep(t);
    assert t[2..] == s;
  }

  lemma BareShown(c: char, s: string)
    ensures Bare(Shown(c) + s) == ([c] + Bare(s).0, Bare(s).1 + |Shown(c)|)
  {
    hide Bare;
    if IsSpace(c) || c == '\\' {
      BareBackslash(c, s);
    } else {
      BareStep([c] + s);
      assert ([c] + s)[1..] == s;
    }
  }

  lemma {:induction false} BareProtected(w: string, s: string)
    requires s == "" || IsSpace(s[0])
    ensures Bare(Protected(w) + s) == (w, |Protected(w)|)
  {
    hide Bare, Shown;
    if w == "" {
      assert Protected(w) + s == s;
      BareStep(s);
    } else {
      var rest := Protected(w[1..]) + s;
      BareProtected(w[1..], s);
      BareShown(w[0], rest);
      assert Protected(w) + s == Shown(w[0]) + rest;
      assert [w[0]] + w[1..] == w;
    }
  }

  lemma WrittenIs(w: string)
    requires w != ""
    ensures Written(w) == if Quote(w[0]) then ['\\', w[0]] + Protected(w[1..]) else Protected(w)
  {
    hide Protected;
    ProtectedStep(w);
    if Quote(w[0]) { assert "\\" + ([w[0]] + Protected(w[1..])) == ['\\', w[0]] + Protected(w[1..]); }
  }

  lemma ProtectedStep(w: string)
    requires w != ""
    ensures Protected(w) == Shown(w[0]) + Protected(w[1..]) && (Quote(w[0]) ==> Shown(w[0]) == [w[0]])
  {
  }

  lemma BareWritten(w: string, s: string)
    requires w != "" && (s == "" || IsSpace(s[0]))
    ensures Bare(Written(w) + s) == (w, |Written(w)|)
  {
    hide Bare, Protected, Written, Quote;
    WrittenIs(w);
    if Quote(w[0]) {
      var rest := Protected(w[1..]) + s;
      BareProtected(w[1..], s);
      BareBackslash(w[0], rest);
      assert Written(w) + s == ['\\', w[0]] + rest;
      assert [w[0]] + w[1..] == w;
    } else {
      BareProtected(w, s);
    }
  }

  lemma WrittenStart(w: string)
    requires w != ""
    ensures Written(w) != "" && !IsSpace(Written(w)[0]) && !Quote(Written(w)[0])
  {
    if Quote(w[0]) {
      assert Written(w)[0] == '\\';
    } else {
      assert Written(w)[0] == Shown(w[0])[0];
    }
  }

  lemma WordsSkip(gap: string, s: string)
    requires AllSpace(gap)
    ensures Words(gap + s) == Words(s)
  {
    hide Argument, LTrim;
    LTrimBlank(gap, s);
  }

  lemma WordsNext(w: string, s: string)
    requires w != "" && (s == "" || IsSpace(s[0]))
    ensures Words(Written(w) + s) == [w] + Words(s)
  {
    hide Bare, LTrim, Written;
    var t := Written(w) + s;
    BareWritten(w, s);
    WrittenStart(w);
    assert t[0] == Written(w)[0];
    LTrimNothing(t);
    assert t[|Written(w)|..] == s;
  }

  /** Any words, put apart by any spaces, are found again; only the last one may end the text. */
  lemma {:induction false} WordsOfText(gap: string, ws: seq<Spaced>)
    requires AllSpace(gap)
    requires forall i | 0 <= i < |ws| :: ws[i].word != "" && AllSpace(ws[i].gap) && (i < |ws| - 1 ==> ws[i].gap != "")
    ensures Words(gap + Text(ws)) == WordsOf(ws)
    decreases |ws|
  {
    hide Words, Written;
    WordsSkip(gap, Text(ws));
    if ws == [] {
      NoWords();
    } else {
      var w, g, rest := Written(ws[0].word), ws[0].gap, Text(ws[1..]);
      WordsOfText(g, ws[1..]);
      assert Text(ws) == w + (g + rest);
      if g != "" {
        assert g[0] in g && (g + rest)[0] == g[0];
      } else {
        assert ws[1..] == [] && g + rest == "";
      }
      WordsNext(ws[0].word, g + rest);
    }
  }

  /** A word without spaces and backslashes that does not begin with a quote is written as it is. */
  lemma {:induction false} PlainWord(w: string)
    requires forall c | c in w :: !IsSpace(c) && c != '\\'
    ensures Protected(w) == w
    ensures w != "" && !Quote(w[0]) ==> Written(w) == w
  {
    hide Protected, Written;
    if w == "" {
      NothingProtected();
    } else {
      assert w[0] in w && Shown(w[0]) == [w[0]];
      assert forall c | c in w[1..] :: c in w;
      PlainWord(w[1..]);
      ProtectedStep(w);
      WrittenIs(w);
      assert [w[0]] + w[1..] == w;
    }
  }

  lemma NothingProtected()
    ensures Protected("") == ""
  {
  }

  lemma NoWords()
    ensures Words("") == []
  {
  }

  /** A command that begins with a quote: an empty argument comes first, and the quoted text is not kept
      together. */
  lemma QuoteIsAnArgument(q: char, s: string)
    requires q == '\'' || q == '"'
    ensures Words([q] + s) == [""] + Words(s)
  {
    hide Bare, LTrim;
    var t := [q] + s;
    LTrimNothing(t);
    assert t[1..] == s;
  }

  // ---------------------------------------------------------------- the parser

  method SkipSpaces(buf: array<char>, cmd: nat, ghost n: nat) returns (next: nat)
    requires cmd <= n < buf.Length && buf[n] == NUL
    ensures cmd <= next <= n && AllSpace(buf[cmd..next]) && !IsSpace(buf[next])
  {
    next := cmd;
    while IsSpace(buf[next])
      invariant cmd <= next <= n && AllSpace(buf[cmd..next])
      decreases n - next
    {
      assert buf[cmd..next + 1] == buf[cmd..next] + [buf[next]];
      next := next + 1;
    }
  }

  lemma Unread(buf: array<char>, start: seq<char>, s: string, cmd: nat, n: nat, read: nat)
    requires cmd <= read <= n <= buf.Length == |start| && s == start[cmd..n]
    requires forall i | read <= i < n :: buf[i] == start[i]
    ensures buf[read..n] == s[read - cmd..]
  {
    forall i | 0 <= i < n - read ensures buf[read..n][i] == s[read - cmd..][i] {
      assert s[read - cmd..][i] == s[read - cmd + i] == start[read + i];
    }
  }

  /** One character, which may follow a backslash. */
  method CopyChar(buf: array<char>, write: nat, read: nat, ghost n: nat) returns (next: nat)
    requires write <= read < n < buf.Length && buf[n] == NUL && NUL !in buf[read..n]
    modifies buf
    ensures next == read + Width(old(buf[read..n])) <= n
    ensures buf[..] == old(buf[..])[write := old(buf[next - 1])]
  {
    ghost var s := buf[read..n];
    assert s[0] == buf[read] && (read + 1 < n ==> s[1] == buf[read + 1]);
    next := read;
    if buf[next] == '\\' && buf[next + 1] != NUL { next := next + 1; }
    buf[write] := buf[next];
    next := next + 1;
  }

  /** Copies one word down to the write cursor, which is not ahead of the read cursor. */
  method CopyBare(buf: array<char>, parsed_cmd: nat, cmd: nat, ghost n: nat) returns (write: nat, read: nat)
    requires parsed_cmd <= cmd <= n < buf.Length && buf[n] == NUL && NUL !in buf[cmd..n]
    modifies buf
    ensures var (word, k) := Bare(old(buf[cmd..n]));
            read == cmd + k && write == parsed_cmd + |word| && buf[parsed_cmd..write] == word
    ensures forall i | 0 <= i < buf.Length && (i < parsed_cmd || write <= i) :: buf[i] == old(buf[i])
  {
    hide Bare, Copied;
    ghost var s, start := buf[cmd..n], buf[..];
    write, read := parsed_cmd, cmd;
    NothingCopied(s);
    assert buf[parsed_cmd..write] == [];
    while buf[read] != NUL && !IsSpace(buf[read])
      invariant cmd <= read <= n && parsed_cmd <= write <= parsed_cmd + (read - cmd)
      invariant forall i | 0 <= i < buf.Length && (i < parsed_cmd || write <= i) :: buf[i] == old(buf[i])
      invariant Copied(s, read - cmd, buf[parsed_cmd..write])
      decreases n - read
    {
      ghost var done, k := buf[parsed_cmd..write], read - cmd;
      CopiedMore(s, k, done);
      Unread(buf, start, s, cmd, n, read);
      read := CopyChar(buf, write, read, n);
      write := write + 1;
      assert buf[parsed_cmd..write] == done + [s[read - 1 - cmd]];
    }
    if read < n { assert s[read - cmd] == buf[read]; }
    AllCopied(s, read - cmd, buf[parsed_cmd..write]);
  }

  /** `k` characters of the word have been copied as `done`. */
  ghost predicate Copied(s: string, k: nat, done: string) {
    k <= |s| && Bare(s) == (done + Bare(s[k..]).0, k + Bare(s[k..]).1)
  }

  lemma AllCopied(s: string, k: nat, done: string)
    requires Copied(s, k, done) && (k < |s| ==> IsSpace(s[k]))
    ensures Bare(s) == (done, k)
  {
    hide Bare;
    BareStep(s[k..]);
    assert done + "" == done;
  }

  lemma NothingCopied(s: string)
    ensures Copied(s, 0, [])
  {
    hide Bare;
    assert s[0..] == s && [] + Bare(s).0 == Bare(s).0;
  }

  lemma {:induction false} BareStep(s: string)
    ensures Bare(s) ==
            if s == "" || IsSpace(s[0]) then ("", 0)
            else ([s[Width(s) - 1]] + Bare(s[Width(s)..]).0, Bare(s[Width(s)..]).1 + Width(s))
  {
    hide Width;
  }

  lemma CopiedMore(s: string, k: nat, done: string)
    requires Copied(s, k, done) && k < |s| && !IsSpace(s[k])
    ensures var k' := k + Width(s[k..]); k < k' <= |s| && Copied(s, k', done + [s[k' - 1]])
  {
    hide Bare, Width;
    BareStep(s[k..]);
    var k' := k + Width(s[k..]);
    assert s[k..][k' - k..] == s[k'..] && s[k..][k' - k - 1] == s[k' - 1];
    assert done + ([s[k' - 1]] + Bare(s[k'..]).0) == done + [s[k' - 1]] + Bare(s[k'..]).0;
  }

  /** One argument is copied. */
  method CopyWord(buf: array<char>, parsed_cmd: nat, cmd: nat, ghost n: nat) returns (write: nat, read: nat)
    requires parsed_cmd <= cmd < n < buf.Length && buf[n] == NUL && NUL !in buf[cmd..n] && !IsSpace(buf[cmd])
    modifies buf
    ensures var (word, k) := Argument(old(buf[cmd..n]));
            read == cmd + k && write == parsed_cmd + |word| && buf[parsed_cmd..write] == word
    ensures forall i | 0 <= i < buf.Length && (i < parsed_cmd || write <= i) :: buf[i] == old(buf[i])
  {
    hide Bare;
    assert buf[cmd..n][0] == buf[cmd];
    if Quote(buf[cmd]) { return parsed_cmd, cmd + 1; }
    write, read := CopyBare(buf, parsed_cmd, cmd, n);
  }

  /** An argument that is finished: below the write cursor, with its NUL. */
  predicate ArgAt(s: seq<char>, a: int, word: string, limit: nat) {
    0 <= a && a + |word| < limit <= |s| && s[a..a + |word|] == word && s[a + |word|] == NUL
  }

  lemma ArgKept(s: seq<char>, t: seq<char>, a: int, word: string, limit: nat, limit': nat)
    requires ArgAt(s, a, word, limit) && limit <= limit' <= |t| && t[..limit] == s[..limit]
    ensures ArgAt(t, a, word, limit')
  {
    assert s[a..a + |word|] == s[..limit][a..a + |word|];
    assert t[a..a + |word|] == t[..limit][a..a + |word|];
    assert t[..limit][a + |word|] == s[..limit][a + |word|];
  }

  lemma ArgIsCString(s: seq<char>, a: nat, word: string, limit: nat)
    requires ArgAt(s, a, word, limit) && NUL !in word
    ensures CStr(s[a..]) == word
  {
    assert s[a..][..|word|] == word;
    CStrTo(s[a..], |word|);
  }

  predicate ArgsAt(s: seq<char>, argv: seq<int>, words: seq<string>, limit: nat) {
    |argv| <= |words| && forall i | 0 <= i < |argv| :: ArgAt(s, argv[i], words[i], limit)
  }

  lemma ArgOf(s: seq<char>, args: seq<int>, words: seq<string>, limit: nat, i: nat)
    requires ArgsAt(s, args, words, limit) && i < |args| && NUL !in words[i]
    ensures 0 <= args[i] < |s| && CStr(s[args[i]..]) == words[i]
  {
    hide CStr;
    ArgIsCString(s, args[i], words[i], limit);
  }

  lemma AllArgs(buf: array<char>, args: seq<int>, s: string, limit: nat)
    requires NUL !in s && ArgsAt(buf[..], args, Words(s), limit)
    ensures forall i | 0 <= i < |args| :: 0 <= args[i] < buf.Length && CStr(buf[args[i]..]) == Words(s)[i]
  {
    hide ArgsAt, CStr, Words;
    WordsHaveNoNul(s);
    ArgsNotMore(buf[..], args, Words(s), limit);
    forall i | 0 <= i < |args| ensures 0 <= args[i] < buf.Length && CStr(buf[args[i]..]) == Words(s)[i] {
      ArgOf(buf[..], args, Words(s), limit, i);
      assert buf[args[i]..] == buf[..][args[i]..];
    }
  }

  lemma ArgsNotMore(s: seq<char>, args: seq<int>, words: seq<string>, limit: nat)
    requires ArgsAt(s, args, words, limit)
    ensures |args| <= |words|
  {
  }

  lemma NoNulBefore(buf: array<char>, k: nat, n: nat, s: string)
    requires k <= n <= buf.Length && |s| == n && NUL !in s && buf[k..n] == s[k..]
    ensures k < n ==> buf[k] != NUL
  {
    if k < n { assert buf[k..n][0] == s[k..][0]; }
  }

  lemma NoArgs(s: seq<char>, words: seq<string>)
    ensures ArgsAt(s, [], words, 0)
  {
  }

  lemma OneMoreArg(s: seq<char>, t: seq<char>, args: seq<int>, a: int, words: seq<string>, limit: nat, limit': nat)
    requires ArgsAt(s, args, words, limit) && |args| < |words| && ArgAt(t, a, words[|args|], limit')
    requires limit <= limit' <= |t| && limit <= |s| && t[..limit] == s[..limit]
    ensures ArgsAt(t, args + [a], words, limit')
  {
    hide ArgAt;
    forall i | 0 <= i < |args| ensures ArgAt(t, args[i], words[i], limit') {
      ArgKept(s, t, args[i], words[i], limit, limit');
    }
  }

  lemma {:induction false} BareHasNoNul(s: string)
    requires NUL !in s
    ensures NUL !in Bare(s).0
  {
    hide Width;
    if s != "" && !IsSpace(s[0]) { BareHasNoNul(s[Width(s)..]); }
  }

  lemma NextHasNoNul(s: string)
    requires NUL !in s && LTrim(s) != ""
    ensures var t := LTrim(s); NUL !in Argument(t).0 && NUL !in t[Argument(t).1..]
  {
    hide LTrim, Bare;
    var t := LTrim(s);
    assert forall c | c in t :: c in s;
    BareHasNoNul(t);
  }

  lemma WordsStep(s: string)
    ensures var t := LTrim(s);
            Words(s) == if t == "" then [] else [Argument(t).0] + Words(t[Argument(t).1..])
  {
    hide LTrim, Argument;
  }

  lemma {:induction false} WordsHaveNoNul(s: string)
    requires NUL !in s
    ensures forall i | 0 <= i < |Words(s)| :: NUL !in Words(s)[i]
    decreases |s|
  {
    hide LTrim, Argument, Words;
    WordsStep(s);
    var t := LTrim(s);
    if t != "" {
      NextHasNoNul(s);
      WordsHaveNoNul(t[Argument(t).1..]);
    }
  }

  lemma FirstOfWords(s: string, gap: string, rest: string)
    requires s != "" && !IsSpace(s[0]) && AllSpace(gap) && s[Argument(s).1..] == gap + rest
    ensures Words(s) != [] && Words(s)[0] == Argument(s).0 && Words(s)[1..] == Words(rest)
  {
    hide Argument, LTrim;
    LTrimNothing(s);
    var w, more := Argument(s).0, s[Argument(s).1..];
    WordsSkip(gap, rest);
    assert ([w] + Words(more))[1..] == Words(more);
  }

  /** The next word is copied and the spaces behind it are skipped. */
  method NextWord(buf: array<char>, parsed_cmd: nat, cmd: nat, ghost n: nat) returns (write: nat, read: nat)
    requires parsed_cmd <= cmd < n < buf.Length && buf[n] == NUL && NUL !in buf[cmd..n] && !IsSpace(buf[cmd])
    modifies buf
    ensures cmd < read <= n && parsed_cmd <= write && (write < read || write <= read == n) && !IsSpace(buf[read])
    ensures forall i | 0 <= i < buf.Length && (i < parsed_cmd || write <= i) :: buf[i] == old(buf[i])
    ensures var words := Words(old(buf[cmd..n]));
            words != [] && words[1..] == Words(buf[read..n]) && buf[parsed_cmd..write] == words[0]
  {
    hide Words, Argument;
    ghost var s, start := buf[cmd..n], buf[..];
    assert s[0] == buf[cmd];
    var r;
    write, r := CopyWord(buf, parsed_cmd, cmd, n);
    Unread(buf, start, s, cmd, n, r);
    assert r < n ==> buf[r] == s[r - cmd];
    read := SkipSpaces(buf, r, n);
    ghost var gap, rest := buf[r..read], buf[read..n];
    assert buf[r..n] == gap + rest;
    FirstOfWords(s, gap, rest);
  }

  lemma MakeArg(buf: array<char>, a: nat, w: nat, word: string)
    requires a <= w < buf.Length && buf[a..w] == word && buf[w] == NUL
    ensures ArgAt(buf[..], a, word, w + 1)
  {
  }

  /** One argument: the next word and its NUL. */
  method TakeArgument(buf: array<char>, parsed_cmd: nat, cmd: nat, ghost n: nat) returns (write: nat, read: nat)
    requires parsed_cmd <= cmd < n < buf.Length && buf[n] == NUL && NUL !in buf[cmd..n] && !IsSpace(buf[cmd])
    modifies buf
    ensures cmd < read <= n && (write <= read || (read == n && write == n + 1)) && buf[n] == NUL && !IsSpace(buf[read])
    ensures parsed_cmd < write <= buf.Length
    ensures buf[..parsed_cmd] == old(buf[..parsed_cmd]) && buf[read..n] == old(buf[read..n])
    ensures var words := Words(old(buf[cmd..n]));
            words != [] && words[1..] == Words(buf[read..n]) && ArgAt(buf[..], parsed_cmd, words[0], write)
    ensures forall i | n <= i < buf.Length :: buf[i] == old(buf[i])
  {
    hide Words, ArgAt;
    var w;
    w, read := NextWord(buf, parsed_cmd, cmd, n);
    ghost var word, rest := buf[parsed_cmd..w], buf[read..n];
    buf[w] := NUL;
    write := w + 1;
    assert buf[read..n] == rest;
    MakeArg(buf, parsed_cmd, w, word);
  }

  /** parse_command_line: argv gets the arguments of the command, as far as they fit, and a null pointer. */
  method ParseCommandLine(buf: array<char>, argv: array<int>) returns (argc: nat)
    requires NUL in buf[..] && argv.Length == MAX_CMD_ARGS
    modifies buf, argv
    ensures var words := Words(old(CStr(buf[..])));
            && argc == (if |words| < MAX_CMD_ARGS then |words| else MAX_CMD_ARGS - 1)
            && argv[argc] == -1
            && forall i | 0 <= i < argc :: 0 <= argv[i] < buf.Length && CStr(buf[argv[i]..]) == words[i]
    ensures forall i | |old(CStr(buf[..]))| < i < buf.Length :: buf[i] == old(buf[i])
  {
    hide Words, CStr, ArgsAt, ArgAt;
    ghost var s, words := CStr(buf[..]), Words(CStr(buf[..]));
    ghost var n := |s|;
    CStrEnd(buf[..]);
    argc := 0;
    var parsed_cmd: nat := 0;
    var cmd: nat := SkipSpaces(buf, 0, n);
    assert buf[..n] == s;
    assert s == buf[0..cmd] + buf[cmd..n];
    WordsSkip(buf[0..cmd], buf[cmd..n]);
    NoArgs(buf[..], words);
    while buf[cmd] != NUL && argc < MAX_CMD_ARGS - 1
      invariant cmd <= n < buf.Length && buf[n] == NUL && !IsSpace(buf[cmd]) && buf[cmd..n] == s[cmd..]
      invariant 0 <= argc <= MAX_CMD_ARGS - 1 && argc <= |words| && words[argc..] == Words(buf[cmd..n])
      invariant parsed_cmd <= cmd || (cmd == n && parsed_cmd == n + 1)
      invariant ArgsAt(buf[..], argv[..argc], words, parsed_cmd)
      invariant forall i | n < i < buf.Length :: buf[i] == old(buf[i])
      decreases n - cmd
    {
      ghost var was := cmd;
      ghost var before, args := buf[..], argv[..argc];
      argv[argc] := parsed_cmd;
      ghost var start := parsed_cmd;
      parsed_cmd, cmd := TakeArgument(buf, parsed_cmd, cmd, n);
      assert buf[cmd..n] == s[was..][cmd - was..];
      assert words[argc..][1..] == words[argc + 1..];
      assert argv[..argc + 1] == args + [start];
      OneMoreArg(before, buf[..], args, start, words, start, parsed_cmd);
      argc := argc + 1;
    }
    NoNulBefore(buf, cmd, n, s);
    if buf[cmd] == NUL { NoWords(); }
    AllArgs(buf, argv[..argc], s, parsed_cmd);
    argv[argc] := -1;
  }
}
