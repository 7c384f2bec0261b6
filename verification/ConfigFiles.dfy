/** Configuration files: read_config_file and the include branch of parse_args_line call each other
    over an include graph that may be cyclic. */
module ConfigFiles {
  import opened CString
  import ResultMessage

  const MAX_LEVEL := 10
  const PATH_SIZE := 4096

  // ---------------------------------------------------------------- files and lines

  datatype DirEntry = DirEntry(name: string, isDir: bool)

  /** What stat, fopen and opendir find; the lines are what fgets returns. */
  datatype File = Text(lines: seq<string>) | Directory(entries: seq<DirEntry>) | Unreadable

  type FileSystem = map<string, File>

  /** A key with its value, as handed to the table of options. */
  datatype Setting = Setting(key: string, value: Option<string>)

  /** What a line asks for. */
  datatype Meaning = Blank | Apply(setting: Setting) | Refuse(setting: Setting) | Include(path: string)

  function LowerChar(c: char): char {
    if 'A' <= c <= 'Z' then ((c as int) - ('A' as int) + ('a' as int)) as char else c
  }

  function Lower(s: string): (r: string)
    ensures |r| == |s| && forall i | 0 <= i < |s| :: r[i] == LowerChar(s[i])
  {
    if s == "" then "" else [LowerChar(s[0])] + Lower(s[1..])
  }

  lemma LowerLetters(i: nat)
    requires i < 26
    ensures LowerChar("ABCDEFGHIJKLMNOPQRSTUVWXYZ"[i]) == "abcdefghijklmnopqrstuvwxyz"[i]
  {
    assert "ABCDEFGHIJKLMNOPQRSTUVWXYZ"[i] as int == 'A' as int + i;
  }

  function SkipHyphens(s: string): string {
    if s != "" && s[0] == '-' then SkipHyphens(s[1..]) else s
  }

  /** The text of a line without its comment; None for a line that is nothing but comment. */
  function WithoutComment(line: string): Option<string> {
    var n := TokenEnd(line, '#');
    if n == |line| then Some(line) else if n == 0 then None else Some(line[..n])
  }

  // Where the lines are put. trim moves the pointer that the next fgets writes to, and it is never moved
  // back: not over the blanks of an indented line, and not over the newline of an empty one.

  /** How far one line moves the pointer. */
  function Moved(line: string): nat {
    var text := WithoutComment(line);
    if text == None then 0 else |text.value| - |LTrim(text.value)|
  }

  /** Where the line behind these lines is put. */
  function Offset(lines: seq<string>): nat {
    if lines == [] then 0 else Offset(lines[..|lines| - 1]) + Moved(lines[|lines| - 1])
  }

  /** The line has room, with its NUL, in what is left of the allocation. */
  predicate HasRoom(lines: seq<string>, i: nat)
    requires i < |lines|
  {
    Offset(lines[..i]) + |lines[i]| < GM_BUFFERSIZE
  }

  lemma OffsetNext(lines: seq<string>, i: nat)
    requires i < |lines|
    ensures Offset(lines[..i + 1]) == Offset(lines[..i]) + Moved(lines[i])
  {
    assert lines[..i + 1][..i] == lines[..i];
  }

  /** A file of empty lines is read inside the allocation if and only if it has fewer of them than bytes. */
  lemma EmptyLinesRunOut(lines: seq<string>)
    requires forall k | 0 <= k < |lines| :: lines[k] == "\n"
    ensures (forall i | 0 <= i < |lines| :: HasRoom(lines, i)) <==> |lines| < GM_BUFFERSIZE
  {
    hide Offset;
    forall i | 0 <= i < |lines| ensures HasRoom(lines, i) <==> i + 1 < GM_BUFFERSIZE { EmptyLinesMove(lines, i); }
    if |lines| >= GM_BUFFERSIZE { assert !HasRoom(lines, |lines| - 1); }
  }

  lemma {:induction false} EmptyLinesMove(lines: seq<string>, i: nat)
    requires i <= |lines| && forall k | 0 <= k < |lines| :: lines[k] == "\n"
    ensures Offset(lines[..i]) == i
  {
    hide Offset, Moved;
    if i > 0 {
      EmptyLinesMove(lines, i - 1);
      OffsetNext(lines, i - 1);
      EmptyLineMoves();
    } else {
      assert lines[..0] == [];
      NoOffset();
    }
  }

  lemma EmptyLineMoves()
    ensures Moved("\n") == 1
  {
    assert "\n"[1..] == "";
    TokenWhole("\n", '#');
  }

  /** An indented line moves it over its blanks. */
  lemma IndentedLineMoves(g: string, text: string, h: string)
    requires AllSpace(g) && text != "" && Tight(text) && AllSpace(h) && '#' !in text
    ensures Moved(g + text + h) == |g|
  {
    hide LTrim, TokenEnd, IsSpace;
    var line := g + text + h;
    assert '#' !in g && '#' !in h by { HashIsNoSpace(); }
    TokenWhole(line, '#');
    LeftTrimmed(g, text, h);
  }

  lemma CommentLineMoves(comment: string)
    ensures Moved("#" + comment) == 0
  {
  }

  lemma HashIsNoSpace()
    ensures !IsSpace('#')
  {
  }

  lemma LeftTrimmed(g: string, text: string, h: string)
    requires AllSpace(g) && text != "" && Tight(text)
    ensures LTrim(g + text + h) == text + h
  {
    hide LTrim, IsSpace;
    assert g + text + h == g + (text + h);
    LTrimBlank(g, text + h);
    LTrimNothing(text + h);
  }

  /** parse_args_line up to the recursion: return codes outside 0 to 3 are refused. */
  function ArgMeaning(arg: string): Meaning {
    var key := SkipHyphens(Trimmed(Lower(Token(arg, '='))));
    var value := if AfterToken(arg, '=') == None then None else Some(Trimmed(AfterToken(arg, '=').value));
    if value == None then Apply(Setting(key, None))
    else if key == "returncode" || key == "r" then
      if 0 <= ResultMessage.Atoi(value.value) <= 3 then Apply(Setting(key, value)) else Refuse(Setting(key, value))
    else if key == "config" || key == "configfile" || key == "include" then Include(value.value)
    else Apply(Setting(key, value))
  }

  function LineMeaning(line: string): Meaning {
    var text := WithoutComment(line);
    if text == None || Trimmed(text.value) == "" then Blank else ArgMeaning(Trimmed(text.value))
  }

  /** A comment behind a line changes nothing. */
  lemma CommentsAreIgnored(line: string, comment: string)
    requires '#' !in line
    ensures LineMeaning(line + "#" + comment) == LineMeaning(line)
  {
    hide ArgMeaning, TokenEnd;
    TokenOf(line, '#', comment);
    assert line + "#" + comment == line + ['#'] + comment;
    TokenWhole(line, '#');
  }

  /** Spaces around a line, and the newline at its end, change nothing either. */
  lemma SpacesAreIgnored(g: string, line: string, h: string)
    requires AllSpace(g) && AllSpace(h) && '#' !in line
    ensures LineMeaning(g + line + h) == LineMeaning(line)
  {
    hide ArgMeaning, TokenEnd, Trimmed;
    TrimmedAround(g, line, h);
    assert forall c | c in g || c in h :: IsSpace(c);
    TokenWhole(line, '#');
    TokenWhole(g + line + h, '#');
  }

  predicate Hyphens(s: string) {
    forall c | c in s :: c == '-'
  }

  lemma {:induction false} HyphensSkipped(s: string, key: string)
    requires Hyphens(s) && (key == "" || key[0] != '-')
    ensures SkipHyphens(s + key) == key
  {
    if s == "" {
      assert s + key == key;
    } else {
      assert s[0] in s && (s + key)[1..] == s[1..] + key;
      assert forall c | c in s[1..] :: c in s;
      HyphensSkipped(s[1..], key);
    }
  }

  /** The key of a setting, in whatever letters, behind any hyphens and in front of any spaces. */
  lemma KeyIsRead(hyphens: string, key: string, gap: string)
    requires Hyphens(hyphens) && key != "" && Tight(key) && key[0] != '-' && AllSpace(gap)
    ensures SkipHyphens(Trimmed(Lower(hyphens + key + gap))) == Lower(key)
  {
    hide Lower, Trimmed;
    var text := hyphens + Lower(key);
    var whole := hyphens + key + gap;
    assert forall c | c in hyphens :: c == '-';
    assert forall c | c in gap :: IsSpace(c);
    assert Lower(whole) == "" + text + gap by { LowerKeeps(hyphens, key, gap); }
    LowerIsTight(key);
    assert hyphens != "" ==> hyphens[0] in hyphens;
    assert text[0] == if hyphens == "" then Lower(key)[0] else '-';
    TrimmedText("", text, gap);
    HyphensSkipped(hyphens, Lower(key));
  }

  lemma LowerKeeps(hyphens: string, key: string, gap: string)
    requires (forall c | c in hyphens :: c == '-') && forall c | c in gap :: IsSpace(c)
    ensures Lower(hyphens + key + gap) == "" + (hyphens + Lower(key)) + gap
  {
    hide Lower;
    var whole, n := hyphens + key + gap, |hyphens + key|;
    forall i | 0 <= i < |whole| ensures Lower(whole)[i] == (hyphens + Lower(key) + gap)[i] {
      if i < |hyphens| { assert whole[i] in hyphens; }
      if i >= n { assert whole[i] in gap; }
    }
  }

  lemma LowerIsTight(key: string)
    requires key != "" && Tight(key) && key[0] != '-'
    ensures Lower(key) != "" && Tight(Lower(key)) && Lower(key)[0] != '-'
  {
    hide Lower;
  }

  /** What parse_args_line makes of a key and its value. */
  lemma ArgIsRead(name: string, rest: string, key: string, value: string)
    requires '=' !in name && SkipHyphens(Trimmed(Lower(name))) == key && Trimmed(rest) == value
    ensures ArgMeaning(name + "=" + rest) ==
            if key in {"config", "configfile", "include"} then Include(value)
            else if key in {"returncode", "r"} && !(0 <= ResultMessage.Atoi(value) <= 3) then
              Refuse(Setting(key, Some(value)))
            else Apply(Setting(key, Some(value)))
  {
    hide TokenEnd, Trimmed, Lower, SkipHyphens, ResultMessage.Atoi, Token, AfterToken;
    assert name + "=" + rest == name + ['='] + rest;
    TokenOf(name, '=', rest);
  }

  /** A written setting. Exactly three keys include a file, and exactly two check their value. */
  lemma SettingIsRead(hyphens: string, key: string, g: string, h: string, value: string)
    requires Hyphens(hyphens) && key != "" && Tight(key) && key[0] != '-' && '=' !in key && '#' !in key
    requires AllSpace(g) && AllSpace(h) && Tight(value) && '#' !in value
    ensures LineMeaning(hyphens + key + g + "=" + h + value) ==
            var k := Lower(key);
            if k in {"config", "configfile", "include"} then Include(value)
            else if k in {"returncode", "r"} && !(0 <= ResultMessage.Atoi(value) <= 3) then
              Refuse(Setting(k, Some(value)))
            else Apply(Setting(k, Some(value)))
  {
    hide TokenEnd, Trimmed, Lower, SkipHyphens, ResultMessage.Atoi, Tight, ArgMeaning;
    var name := hyphens + key + g;
    var line := name + "=" + h + value;
    assert forall c | c in g || c in h :: IsSpace(c);
    assert forall c | c in hyphens :: c == '-';
    TokenWhole(line, '#');
    LineIsTrimmed(hyphens, key, g, h, value);
    KeyIsRead(hyphens, key, g);
    ValueIsTrimmed(h, value);
    ArgIsRead(name, if value == "" then "" else h + value, Lower(key), value);
  }

  lemma ValueIsTrimmed(h: string, value: string)
    requires AllSpace(h) && Tight(value)
    ensures Trimmed(if value == "" then "" else h + value) == value
  {
    hide Trimmed;
    TrimmedText(if value == "" then "" else h, value, "");
    assert h + value + "" == h + value;
  }

  lemma LineIsTrimmed(hyphens: string, key: string, g: string, h: string, value: string)
    requires Hyphens(hyphens) && key != "" && Tight(key) && AllSpace(h) && Tight(value)
    ensures Trimmed(hyphens + key + g + "=" + h + value) ==
            hyphens + key + g + "=" + if value == "" then "" else h + value
  {
    hide Trimmed;
    var name := hyphens + key + g;
    assert hyphens != "" ==> hyphens[0] in hyphens;
    if value == "" {
      assert name + "=" + h + value == "" + (name + "=") + h;
      TrimmedText("", name + "=", h);
    } else {
      var line := name + "=" + h + value;
      assert line == "" + line + "";
      assert line[|line| - 1] == value[|value| - 1];
      TrimmedText("", line, "");
      assert line == name + "=" + (h + value);
    }
  }

  /** strrchr(name, '.') */
  function Suffix(name: string): string {
    if name == "" then "" else if name[|name| - 1] == '.' then "."
    else if Suffix(name[..|name| - 1]) == "" then "" else Suffix(name[..|name| - 1]) + [name[|name| - 1]]
  }

  predicate Eligible(e: DirEntry) {
    e.name != "." && e.name != ".." && (e.isDir || Suffix(e.name) == ".cfg" || Suffix(e.name) == ".conf")
  }

  function EntryPath(dir: string, e: DirEntry): string {
    var path := dir + "/" + e.name;
    if |path| < PATH_SIZE then path else path[..PATH_SIZE - 1]
  }

  predicate EndsWith(s: string, end: string) {
    |s| >= |end| && s[|s| - |end|..] == end
  }

  lemma {:induction false} SuffixIs(name: string, end: string)
    requires end != "" && '.' !in end[1..] && end[0] == '.'
    ensures Suffix(name) == end <==> EndsWith(name, end)
  {
    if name != "" {
      var n, e := |name| - 1, |end| - 1;
      if e > 0 {
        assert '.' !in end[..e][1..] by { assert forall c | c in end[..e][1..] :: c in end[1..]; }
        SuffixIs(name[..n], end[..e]);
        assert end == end[..e] + [end[e]] && end[e] == end[1..][e - 1];
        if EndsWith(name, end) { EndsShorter(name, end); }
        if EndsWith(name[..n], end[..e]) && name[n] == end[e] { EndsLonger(name, end); }
      } else {
        SuffixHasDot(name[..n]);
      }
    }
  }

  lemma EndsShorter(name: string, end: string)
    requires name != "" && |end| > 1 && EndsWith(name, end)
    ensures EndsWith(name[..|name| - 1], end[..|end| - 1]) && name[|name| - 1] == end[|end| - 1]
  {
    var n, e := |name| - 1, |end| - 1;
    assert name[n - e..][..e] == end[..e] && name[n - e..][e] == end[e];
    assert name[..n][n - e..] == name[n - e..][..e];
  }

  lemma EndsLonger(name: string, end: string)
    requires name != "" && end != "" && name[|name| - 1] == end[|end| - 1]
    requires EndsWith(name[..|name| - 1], end[..|end| - 1])
    ensures EndsWith(name, end)
  {
    var n, e := |name| - 1, |end| - 1;
    assert name[n - e..] == name[..n][n - e..] + [name[n]];
    assert end == end[..e] + [end[e]];
  }

  lemma {:induction false} SuffixHasDot(name: string)
    ensures Suffix(name) == "" || Suffix(name)[0] == '.'
  {
    if name != "" { SuffixHasDot(name[..|name| - 1]); }
  }

  // ---------------------------------------------------------------- what reading does

  /** The settings applied, and whether there was no error. */
  datatype Outcome = Outcome(applied: seq<Setting>, ok: bool)

  function ReadConfig(fs: FileSystem, path: string, level: nat): Outcome
    decreases if level <= MAX_LEVEL then MAX_LEVEL + 1 - level else 0, 1, 0
  {
    if level > MAX_LEVEL || path !in fs || fs[path].Unreadable? then Outcome([], false)
    else if fs[path].Directory? then ReadEntries(fs, path, fs[path].entries, level)
    else ReadLines(fs, fs[path].lines, level)
  }

  /** A directory is read to its end, whatever fails. */
  function ReadEntries(fs: FileSystem, dir: string, entries: seq<DirEntry>, level: nat): Outcome
    requires level <= MAX_LEVEL
    decreases MAX_LEVEL + 1 - level, 0, |entries|
  {
    if entries == [] then Outcome([], true)
    else
      var rest := ReadEntries(fs, dir, entries[1..], level);
      if !Eligible(entries[0]) then rest
      else
        var first := ReadConfig(fs, EntryPath(dir, entries[0]), level + 1);
        Outcome(first.applied + rest.applied, first.ok && rest.ok)
  }

  /** A file is read up to its first error. */
  function ReadLines(fs: FileSystem, lines: seq<string>, level: nat): Outcome
    requires level <= MAX_LEVEL
    decreases MAX_LEVEL + 1 - level, 0, |lines|
  {
    if lines == [] then Outcome([], true)
    else
      var first := Perform(fs, LineMeaning(lines[0]), level);
      if !first.ok then first
      else
        var rest := ReadLines(fs, lines[1..], level);
        Outcome(first.applied + rest.applied, rest.ok)
  }

  /** How many lines of a file are read. */
  function LinesRead(fs: FileSystem, lines: seq<string>, level: nat): (n: nat)
    requires level <= MAX_LEVEL
    ensures n <= |lines|
  {
    if lines == [] then 0
    else 1 + if Perform(fs, LineMeaning(lines[0]), level).ok then LinesRead(fs, lines[1..], level) else 0
  }

  function Perform(fs: FileSystem, m: Meaning, level: nat): Outcome
    requires level <= MAX_LEVEL
    decreases MAX_LEVEL + 1 - level, 0, 0
  {
    match m
    case Blank => Outcome([], true)
    case Apply(s) => Outcome([s], true)
    case Refuse(s) => Outcome([s], false)
    case Include(path) => ReadConfig(fs, path, level + 1)
  }

  // ---------------------------------------------------------------- the include tree

  /** What a configuration consists of, without any reading order or limit: a file or directory and
      what it contains. */
  datatype Tree = Leaf(setting: Setting) | Branch(path: string, children: seq<Tree>)

  predicate TreeOf(fs: FileSystem, path: string, t: Tree)
    decreases t, 0
  {
    && t.Branch? && t.path == path && path in fs
    && match fs[path]
       case Text(lines) => LinesForm(fs, lines, t.children)
       case Directory(entries) => EntriesForm(fs, path, entries, t.children)
       case Unreadable => false
  }

  predicate LinesForm(fs: FileSystem, lines: seq<string>, ts: seq<Tree>)
    decreases ts, |lines|
  {
    if lines == [] then ts == []
    else
      match LineMeaning(lines[0])
      case Blank => LinesForm(fs, lines[1..], ts)
      case Refuse(_) => false
      case Apply(s) => ts != [] && ts[0] == Leaf(s) && LinesForm(fs, lines[1..], ts[1..])
      case Include(path) => ts != [] && TreeOf(fs, path, ts[0]) && LinesForm(fs, lines[1..], ts[1..])
  }

  predicate EntriesForm(fs: FileSystem, dir: string, entries: seq<DirEntry>, ts: seq<Tree>)
    decreases ts, |entries|
  {
    if entries == [] then ts == []
    else if !Eligible(entries[0]) then EntriesForm(fs, dir, entries[1..], ts)
    else ts != [] && TreeOf(fs, EntryPath(dir, entries[0]), ts[0]) && EntriesForm(fs, dir, entries[1..], ts[1..])
  }

  function Height(t: Tree): nat {
    match t
    case Leaf(_) => 0
    case Branch(_, children) => 1 + MaxHeight(children)
  }

  function MaxHeight(ts: seq<Tree>): nat {
    if ts == [] then 0
    else if Height(ts[0]) > MaxHeight(ts[1..]) then Height(ts[0]) else MaxHeight(ts[1..])
  }

  /** The settings of a tree, depth first. */
  function Flatten(t: Tree): seq<Setting> {
    match t
    case Leaf(s) => [s]
    case Branch(_, children) => FlattenAll(children)
  }

  function FlattenAll(ts: seq<Tree>): seq<Setting> {
    if ts == [] then [] else Flatten(ts[0]) + FlattenAll(ts[1..])
  }

  /** Reading finds the tree, if it is not too high. */
  lemma {:induction false} ReadsTree(fs: FileSystem, path: string, t: Tree, level: nat)
    requires TreeOf(fs, path, t) && level + Height(t) <= MAX_LEVEL + 1
    ensures ReadConfig(fs, path, level) == Outcome(Flatten(t), true)
    decreases t, 0
  {
    hide LineMeaning, Eligible, EntryPath;
    if fs[path].Text? {
      ReadsLinesTree(fs, fs[path].lines, t.children, level);
    } else {
      ReadsEntriesTree(fs, path, fs[path].entries, t.children, level);
    }
  }

  lemma {:induction false} ReadsLinesTree(fs: FileSystem, lines: seq<string>, ts: seq<Tree>, level: nat)
    requires LinesForm(fs, lines, ts) && level + MaxHeight(ts) <= MAX_LEVEL
    ensures ReadLines(fs, lines, level) == Outcome(FlattenAll(ts), true)
    decreases ts, |lines|
  {
    hide LineMeaning;
    if lines != [] {
      var m := LineMeaning(lines[0]);
      if m == Blank {
        ReadsLinesTree(fs, lines[1..], ts, level);
      } else {
        if m.Include? { ReadsTree(fs, m.path, ts[0], level + 1); }
        ReadsLinesTree(fs, lines[1..], ts[1..], level);
      }
    }
  }

  lemma {:induction false} ReadsEntriesTree(fs: FileSystem, dir: string, entries: seq<DirEntry>, ts: seq<Tree>,
                                             level: nat)
    requires EntriesForm(fs, dir, entries, ts) && level + MaxHeight(ts) <= MAX_LEVEL
    ensures ReadEntries(fs, dir, entries, level) == Outcome(FlattenAll(ts), true)
    decreases ts, |entries|
  {
    hide Eligible, EntryPath;
    if entries != [] {
      if Eligible(entries[0]) {
        ReadsTree(fs, EntryPath(dir, entries[0]), ts[0], level + 1);
        ReadsEntriesTree(fs, dir, entries[1..], ts[1..], level);
      } else {
        ReadsEntriesTree(fs, dir, entries[1..], ts, level);
      }
    }
  }

  /** Reading without error builds a tree. */
  lemma {:induction false} BuildsTree(fs: FileSystem, path: string, level: nat) returns (t: Tree)
    requires ReadConfig(fs, path, level).ok
    ensures TreeOf(fs, path, t) && level + Height(t) <= MAX_LEVEL + 1
    decreases if level <= MAX_LEVEL then MAX_LEVEL + 1 - level else 0, 1, 0
  {
    hide LineMeaning, Eligible, EntryPath;
    var ts: seq<Tree>;
    if fs[path].Text? {
      ts := BuildsLines(fs, fs[path].lines, level);
    } else {
      ts := BuildsEntries(fs, path, fs[path].entries, level);
    }
    t := Branch(path, ts);
  }

  lemma {:induction false} BuildsLines(fs: FileSystem, lines: seq<string>, level: nat) returns (ts: seq<Tree>)
    requires level <= MAX_LEVEL && ReadLines(fs, lines, level).ok
    ensures LinesForm(fs, lines, ts) && level + MaxHeight(ts) <= MAX_LEVEL
    decreases MAX_LEVEL + 1 - level, 0, |lines|
  {
    hide LineMeaning;
    ts := [];
    if lines != [] {
      var m := LineMeaning(lines[0]);
      var rest := BuildsLines(fs, lines[1..], level);
      if m == Blank {
        ts := rest;
      } else {
        var t: Tree;
        if m.Include? { t := BuildsTree(fs, m.path, level + 1); } else { t := Leaf(m.setting); }
        ts := [t] + rest;
        assert ts[1..] == rest;
      }
    }
  }

  lemma {:induction false} BuildsEntries(fs: FileSystem, dir: string, entries: seq<DirEntry>, level: nat)
    returns (ts: seq<Tree>)
    requires level <= MAX_LEVEL && ReadEntries(fs, dir, entries, level).ok
    ensures EntriesForm(fs, dir, entries, ts) && level + MaxHeight(ts) <= MAX_LEVEL
    decreases MAX_LEVEL + 1 - level, 0, |entries|
  {
    hide Eligible, EntryPath;
    ts := [];
    if entries != [] {
      ts := BuildsEntries(fs, dir, entries[1..], level);
      if Eligible(entries[0]) {
        var t := BuildsTree(fs, EntryPath(dir, entries[0]), level + 1);
        var rest := ts;
        ts := [t] + rest;
        assert ts[1..] == rest;
      }
    }
  }

  /** Loading succeeds if and only if there is an include tree, finite and low enough, and then the
      options applied are its settings, depth first. */
  lemma LoadsExactlyTrees(fs: FileSystem, path: string, level: nat)
    ensures ReadConfig(fs, path, level).ok <==> exists t :: TreeOf(fs, path, t) && level + Height(t) <= 11
    ensures forall t | TreeOf(fs, path, t) && level + Height(t) <= 11 ::
              ReadConfig(fs, path, level).applied == Flatten(t)
  {
    hide ReadConfig, TreeOf, Height, Flatten;
    if ReadConfig(fs, path, level).ok {
      var t := BuildsTree(fs, path, level);
    }
    forall t | TreeOf(fs, path, t) && level + Height(t) <= MAX_LEVEL + 1
      ensures ReadConfig(fs, path, level) == Outcome(Flatten(t), true)
    {
      ReadsTree(fs, path, t, level);
    }
  }

  // ---------------------------------------------------------------- cycles

  predicate Includes(fs: FileSystem, p: string, q: string) {
    && p in fs
    && match fs[p]
       case Text(lines) => exists i | 0 <= i < |lines| :: LineMeaning(lines[i]) == Include(q)
       case Directory(entries) => exists i | 0 <= i < |entries| :: Eligible(entries[i]) && EntryPath(p, entries[i]) == q
       case Unreadable => false
  }

  lemma {:induction false} LineTree(fs: FileSystem, lines: seq<string>, ts: seq<Tree>, i: nat, q: string)
    returns (t: Tree)
    requires LinesForm(fs, lines, ts) && i < |lines| && LineMeaning(lines[i]) == Include(q)
    ensures TreeOf(fs, q, t) && Height(t) <= MaxHeight(ts)
    decreases |lines|
  {
    hide LineMeaning, TreeOf;
    if i == 0 {
      t := ts[0];
    } else if LineMeaning(lines[0]) == Blank {
      t := LineTree(fs, lines[1..], ts, i - 1, q);
    } else {
      t := LineTree(fs, lines[1..], ts[1..], i - 1, q);
    }
  }

  lemma {:induction false} EntryTree(fs: FileSystem, dir: string, entries: seq<DirEntry>, ts: seq<Tree>, i: nat)
    returns (t: Tree)
    requires EntriesForm(fs, dir, entries, ts) && i < |entries| && Eligible(entries[i])
    ensures TreeOf(fs, EntryPath(dir, entries[i]), t) && Height(t) <= MaxHeight(ts)
    decreases |entries|
  {
    hide Eligible, EntryPath, TreeOf;
    if i == 0 {
      t := ts[0];
    } else if !Eligible(entries[0]) {
      t := EntryTree(fs, dir, entries[1..], ts, i - 1);
    } else {
      t := EntryTree(fs, dir, entries[1..], ts[1..], i - 1);
    }
  }

  /** What is included has a lower tree. */
  lemma LowerTree(fs: FileSystem, p: string, q: string, t: Tree) returns (t': Tree)
    requires TreeOf(fs, p, t) && Includes(fs, p, q)
    ensures TreeOf(fs, q, t') && Height(t') < Height(t)
  {
    hide LineMeaning, Eligible, EntryPath, LinesForm, EntriesForm, MaxHeight;
    if fs[p].Text? {
      var lines := fs[p].lines;
      var i :| 0 <= i < |lines| && LineMeaning(lines[i]) == Include(q);
      t' := LineTree(fs, lines, t.children, i, q);
    } else {
      var entries := fs[p].entries;
      var i :| 0 <= i < |entries| && Eligible(entries[i]) && EntryPath(p, entries[i]) == q;
      t' := EntryTree(fs, p, entries, t.children, i);
    }
  }

  ghost predicate Chain(fs: FileSystem, c: seq<string>) {
    c != [] && forall i | 0 <= i < |c| - 1 :: Includes(fs, c[i], c[i + 1])
  }

  lemma {:induction false} TreeAlongChain(fs: FileSystem, c: seq<string>, k: nat, t: Tree) returns (t': Tree)
    requires Chain(fs, c) && k < |c| && TreeOf(fs, c[0], t)
    ensures TreeOf(fs, c[k], t') && Height(t') + k <= Height(t)
  {
    hide TreeOf, Includes, Height;
    t' := t;
    if k > 0 {
      var u := TreeAlongChain(fs, c, k - 1, t);
      assert Includes(fs, c[k - 1], c[k - 1 + 1]);
      t' := LowerTree(fs, c[k - 1], c[k], u);
    }
  }

  lemma {:induction false} NoTreeOnCycle(fs: FileSystem, c: seq<string>, t: Tree)
    requires Chain(fs, c) && |c| > 1 && c[0] == c[|c| - 1]
    ensures !TreeOf(fs, c[0], t)
    decreases Height(t)
  {
    hide TreeOf, Height;
    if TreeOf(fs, c[0], t) {
      var t' := TreeAlongChain(fs, c, |c| - 1, t);
      NoTreeOnCycle(fs, c, t');
    }
  }

  /** A configuration that leads into a cycle of includes is never loaded, at whatever level. */
  lemma CyclesNeverLoad(fs: FileSystem, c: seq<string>, k: nat, level: nat)
    requires Chain(fs, c) && k < |c| - 1 && c[k] == c[|c| - 1]
    ensures !ReadConfig(fs, c[0], level).ok
  {
    hide TreeOf, Height, ReadConfig, Includes;
    if ReadConfig(fs, c[0], level).ok {
      var t := BuildsTree(fs, c[0], level);
      var t' := TreeAlongChain(fs, c, k, t);
      forall i | 0 <= i < |c[k..]| - 1 ensures Includes(fs, c[k..][i], c[k..][i + 1]) {
        assert Includes(fs, c[k + i], c[k + i + 1]);
      }
      NoTreeOnCycle(fs, c[k..], t');
    }
  }

  /** A directory leads to its subdirectories and to the files with one of two suffixes, by their paths. */
  lemma DirectoryIncludes(fs: FileSystem, p: string, q: string)
    requires p in fs && fs[p].Directory? && |q| < PATH_SIZE - 1
    ensures Includes(fs, p, q) <==>
            exists e | e in fs[p].entries ::
              && e.name !in {".", ".."} && q == p + "/" + e.name
              && (e.isDir || EndsWith(e.name, ".cfg") || EndsWith(e.name, ".conf"))
  {
    hide Suffix, EndsWith;
    forall e | e in fs[p].entries
      ensures Suffix(e.name) == ".cfg" <==> EndsWith(e.name, ".cfg")
      ensures Suffix(e.name) == ".conf" <==> EndsWith(e.name, ".conf")
    {
      SuffixIs(e.name, ".cfg");
      SuffixIs(e.name, ".conf");
    }
    if Includes(fs, p, q) {
      var i :| 0 <= i < |fs[p].entries| && Eligible(fs[p].entries[i]) && EntryPath(p, fs[p].entries[i]) == q;
      assert fs[p].entries[i] in fs[p].entries;
    }
  }

  // ---------------------------------------------------------------- errors

  /** A file is read up to its first error and no further. */
  lemma {:induction false} ErrorEndsFile(fs: FileSystem, a: seq<string>, b: seq<string>, level: nat)
    requires level <= MAX_LEVEL
    ensures var r, more := ReadLines(fs, a, level), ReadLines(fs, b, level);
            ReadLines(fs, a + b, level) == if r.ok then Outcome(r.applied + more.applied, more.ok) else r
    decreases |a|
  {
    hide LineMeaning, Perform, ReadLines;
    LinesStep(fs, a, level);
    LinesStep(fs, a + b, level);
    if a == [] {
      assert a + b == b;
    } else {
      assert (a + b)[1..] == a[1..] + b;
      ErrorEndsFile(fs, a[1..], b, level);
    }
  }

  /** A directory is read on behind an error, which is not forgotten. */
  lemma {:induction false} ErrorsInDirectory(fs: FileSystem, dir: string, a: seq<DirEntry>, b: seq<DirEntry>,
                                              level: nat)
    requires level <= MAX_LEVEL
    ensures var r, more := ReadEntries(fs, dir, a, level), ReadEntries(fs, dir, b, level);
            ReadEntries(fs, dir, a + b, level) == Outcome(r.applied + more.applied, r.ok && more.ok)
    decreases |a|
  {
    hide Eligible, EntryPath, ReadConfig, ReadEntries;
    EntriesStep(fs, dir, a, level);
    EntriesStep(fs, dir, a + b, level);
    if a == [] {
      assert a + b == b;
    } else {
      assert (a + b)[1..] == a[1..] + b;
      ErrorsInDirectory(fs, dir, a[1..], b, level);
    }
  }

  // ---------------------------------------------------------------- the functions themselves

  class Config {
    /** The settings applied so far. */
    var applied: seq<Setting>
    /** The levels at which files and directories have been opened. */
    var openedAt: seq<nat>

    constructor ()
      ensures applied == [] && openedAt == []
    {
      applied, openedAt := [], [];
    }

    ghost predicate Shallow()
      reads this`openedAt
    {
      forall l | l in openedAt :: l <= MAX_LEVEL
    }

    /** parse_args_line */
    method ParseArgsLine(fs: FileSystem, m: Meaning, level: nat) returns (ok: bool)
      requires level <= MAX_LEVEL && m != Blank && Shallow()
      modifies this
      ensures Outcome(applied, ok) == Outcome(old(applied) + Perform(fs, m, level).applied, Perform(fs, m, level).ok)
      ensures m.Apply? || m.Refuse? ==> ok == m.Apply? && applied == old(applied) + [m.setting]
      ensures Shallow()
      decreases MAX_LEVEL + 1 - level, 0, 0
    {
      hide ReadConfig, ReadLines, ReadEntries, LineMeaning, Shallow;
      match m {
        case Include(path) => ok := ReadConfigFile(fs, path, level + 1);
        case Apply(s) => applied, ok := applied + [s], true;
        case Refuse(s) => applied, ok := applied + [s], false;
      }
    }

    /** read_config_file */
    method ReadConfigFile(fs: FileSystem, filename: string, level: nat) returns (ok: bool)
      requires Shallow()
      modifies this
      ensures var r := ReadConfig(fs, filename, level); applied == old(applied) + r.applied && ok == r.ok
      ensures level > 10 ==> !ok && applied == old(applied)
      ensures Shallow()
      decreases if level <= MAX_LEVEL then MAX_LEVEL + 1 - level else 0, 1, 0
    {
      if level > MAX_LEVEL { return false; }
      if filename !in fs || fs[filename].Unreadable? { return false; }
      openedAt := openedAt + [level];
      if fs[filename].Directory? {
        ok := ReadDirectory(fs, filename, fs[filename].entries, level);
      } else {
        var inside;
        ok, inside := ReadText(fs, fs[filename].lines, level);
      }
    }

    method ReadDirectory(fs: FileSystem, dir: string, entries: seq<DirEntry>, level: nat) returns (ok: bool)
      requires level <= MAX_LEVEL && Shallow()
      modifies this
      ensures var r := ReadEntries(fs, dir, entries, level); applied == old(applied) + r.applied && ok == r.ok
      ensures Shallow()
      decreases MAX_LEVEL + 1 - level, 0, |entries| + 1
    {
      hide Eligible, EntryPath, ReadEntries, ReadConfig, ReadLines, Perform, LineMeaning, Shallow;
      var errors := 0;
      ghost var all, was := ReadEntries(fs, dir, entries, level), applied;
      ghost var done := [];
      assert entries[0..] == entries;
      for i := 0 to |entries|
        invariant Shallow() && applied == was + done && errors >= 0
        invariant var r := ReadEntries(fs, dir, entries[i..], level);
                  all == Outcome(done + r.applied, errors == 0 && r.ok)
      {
        NextOfEntries(fs, dir, entries, i, level, done);
        if !Eligible(entries[i]) { continue; }
        var read := ReadConfigFile(fs, EntryPath(dir, entries[i]), level + 1);
        if !read { errors := errors + 1; }
        done := done + ReadConfig(fs, EntryPath(dir, entries[i]), level + 1).applied;
      }
      EndOfEntries(fs, dir, entries, level, done);
      ok := errors == 0;
    }

    /** The lines of a file. `inside` says whether fgets has written inside the allocation all the time. */
    method ReadText(fs: FileSystem, lines: seq<string>, level: nat) returns (ok: bool, inside: bool)
      requires level <= MAX_LEVEL && Shallow()
      modifies this
      ensures var r := ReadLines(fs, lines, level); applied == old(applied) + r.applied && ok == r.ok
      ensures inside <==> forall i | 0 <= i < LinesRead(fs, lines, level) :: HasRoom(lines, i)
      ensures Shallow()
      decreases MAX_LEVEL + 1 - level, 0, |lines| + 1
    {
      hide LineMeaning, ReadLines, Perform, ReadConfig, Shallow, After, LinesRead, Moved, Offset;
      ok, inside := true, true;
      var i, line := 0, 0;
      ghost var was, done := applied, [];
      StartOfText(fs, lines, level, was);
      assert lines[..0] == [];
      NoOffset();
      while i < |lines| && ok
        invariant 0 <= i <= |lines| && Shallow() && applied == was + done && line == Offset(lines[..i])
        invariant inside <==> forall k | 0 <= k < i :: HasRoom(lines, k)
        invariant LinesRead(fs, lines, level) == i + if ok then LinesRead(fs, lines[i..], level) else 0
        invariant ReadLines(fs, lines, level) ==
                  if ok then After(done, ReadLines(fs, lines[i..], level)) else Outcome(done, false)
        decreases |lines| - i
      {
        NextOfText(fs, lines, i, level, done);
        OffsetNext(lines, i);
        ghost var more := Perform(fs, LineMeaning(lines[i]), level).applied;
        assert was + (done + more) == was + done + more;
        assert HasRoom(lines, i) <==> line + |lines[i]| < GM_BUFFERSIZE;
        inside := inside && line + |lines[i]| < GM_BUFFERSIZE;
        line := line + Moved(lines[i]);
        ok := ReadLine(fs, lines[i], level);
        done := done + more;
        i := i + 1;
      }
      EndOfText(fs, lines, level, done);
    }

    /** One line; a blank one does nothing. */
    method ReadLine(fs: FileSystem, line: string, level: nat) returns (ok: bool)
      requires level <= MAX_LEVEL && Shallow()
      modifies this
      ensures var r := Perform(fs, LineMeaning(line), level); applied == old(applied) + r.applied && ok == r.ok
      ensures Shallow()
      decreases MAX_LEVEL + 1 - level, 0, 1
    {
      hide LineMeaning, ReadConfig;
      var m := LineMeaning(line);
      if m == Blank {
        assert applied + [] == applied;
        return true;
      }
      ok := ParseArgsLine(fs, m, level);
    }
  }

  lemma NoOffset()
    ensures Offset([]) == 0
  {
  }

  /** What is read after some settings. */
  function After(done: seq<Setting>, rest: Outcome): Outcome {
    Outcome(done + rest.applied, rest.ok)
  }

  lemma StartOfText(fs: FileSystem, lines: seq<string>, level: nat, was: seq<Setting>)
    requires level <= MAX_LEVEL
    ensures ReadLines(fs, lines, level) == After([], ReadLines(fs, lines[0..], level)) && was + [] == was
    ensures lines[0..] == lines
  {
    hide ReadLines;
    assert lines[0..] == lines;
    var r := ReadLines(fs, lines, level);
    assert [] + r.applied == r.applied;
  }

  lemma NextOfText(fs: FileSystem, lines: seq<string>, i: nat, level: nat, done: seq<Setting>)
    requires level <= MAX_LEVEL && i < |lines|
    ensures var r := Perform(fs, LineMeaning(lines[i]), level);
            After(done, ReadLines(fs, lines[i..], level)) ==
            if r.ok then After(done + r.applied, ReadLines(fs, lines[i + 1..], level))
            else Outcome(done + r.applied, false)
    ensures LinesRead(fs, lines[i..], level) ==
            1 + if Perform(fs, LineMeaning(lines[i]), level).ok then LinesRead(fs, lines[i + 1..], level) else 0
  {
    hide ReadLines, Perform, LineMeaning;
    LinesStep(fs, lines[i..], level);
    assert lines[i..][1..] == lines[i + 1..];
    var r, rest := Perform(fs, LineMeaning(lines[i]), level), ReadLines(fs, lines[i + 1..], level);
    assert done + (r.applied + rest.applied) == done + r.applied + rest.applied;
  }

  lemma EndOfText(fs: FileSystem, lines: seq<string>, level: nat, done: seq<Setting>)
    requires level <= MAX_LEVEL
    ensures After(done, ReadLines(fs, lines[|lines|..], level)) == Outcome(done, true)
    ensures LinesRead(fs, lines[|lines|..], level) == 0
  {
    assert lines[|lines|..] == [];
    assert done + [] == done;
  }

  lemma NextOfEntries(fs: FileSystem, dir: string, entries: seq<DirEntry>, i: nat, level: nat, done: seq<Setting>)
    requires level <= MAX_LEVEL && i < |entries|
    ensures var r, rest := ReadEntries(fs, dir, entries[i..], level), ReadEntries(fs, dir, entries[i + 1..], level);
            if !Eligible(entries[i]) then r == rest
            else
              var f := ReadConfig(fs, EntryPath(dir, entries[i]), level + 1);
              r.ok == (f.ok && rest.ok) && done + r.applied == (done + f.applied) + rest.applied
  {
    hide Eligible, EntryPath, ReadEntries, ReadConfig;
    EntriesStep(fs, dir, entries[i..], level);
    assert entries[i..][1..] == entries[i + 1..];
  }

  lemma EndOfEntries(fs: FileSystem, dir: string, entries: seq<DirEntry>, level: nat, done: seq<Setting>)
    requires level <= MAX_LEVEL
    ensures var r := ReadEntries(fs, dir, entries[|entries|..], level); r.ok && done + r.applied == done
  {
    hide Eligible, EntryPath, ReadEntries, ReadConfig;
    EntriesStep(fs, dir, entries[|entries|..], level);
  }

  lemma EntriesStep(fs: FileSystem, dir: string, entries: seq<DirEntry>, level: nat)
    requires level <= MAX_LEVEL
    ensures ReadEntries(fs, dir, entries, level) ==
            if entries == [] then Outcome([], true)
            else
              var rest := ReadEntries(fs, dir, entries[1..], level);
              if !Eligible(entries[0]) then rest
              else
                var first := ReadConfig(fs, EntryPath(dir, entries[0]), level + 1);
                Outcome(first.applied + rest.applied, first.ok && rest.ok)
  {
    hide Eligible, EntryPath, ReadConfig;
  }

  lemma LinesStep(fs: FileSystem, lines: seq<string>, level: nat)
    requires level <= MAX_LEVEL
    ensures ReadLines(fs, lines, level) ==
            if lines == [] then Outcome([], true)
            else
              var first := Perform(fs, LineMeaning(lines[0]), level);
              if !first.ok then first
              else
                var rest := ReadLines(fs, lines[1..], level);
                Outcome(first.applied + rest.applied, rest.ok)
  {
    hide LineMeaning, Perform;
  }
}
