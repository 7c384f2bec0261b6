/** send_result_back, which prints the result of a job, and what get_results makes of it. */
module SendResult {
  import opened CString
  import opened TextCodec
  import opened ResultMessage

  // ---------------------------------------------------------------- the message

  /** The parts of a job that reach the message. Output and error are escaped already; the
      timestamps are what printf has made of them. */
  datatype Job = Job(
    hostName: string, serviceDescription: Option<string>, source: string,
    coreStartTime: string, startTime: string, finishTime: string,
    returnCode: int, exitedOk: int, output: string, error: Option<string>)

  datatype Options = Options(debugResult: bool, showErrorOutput: bool, hostname: string)

  datatype Field = Field(key: string, value: string)

  function Line(f: Field): string {
    f.key + "=" + f.value + "\n"
  }

  function Lines(fs: seq<Field>): string {
    if fs == [] then "" else Line(fs[0]) + Lines(fs[1..])
  }

  /** The lines printed by the one call of snprintf. */
  function Header(job: Job): seq<Field> {
    [Field("host_name", job.hostName), Field("core_start_time", job.coreStartTime),
     Field("start_time", job.startTime), Field("finish_time", job.finishTime),
     Field("return_code", IntText(job.returnCode)), Field("exited_ok", IntText(job.exitedOk)),
     Field("source", job.source)]
  }

  function Service(job: Job): seq<Field> {
    if job.serviceDescription == None then [] else [Field("service_description", job.serviceDescription.value)]
  }

  function Fields(job: Job): seq<Field> {
    Header(job) + Service(job)
  }

  function HasError(job: Job, opt: Options): bool {
    opt.showErrorOutput && job.error.Some? && job.error.value != ""
  }

  function Prefix(opt: Options): string {
    if opt.debugResult then "(" + opt.hostname + ") - " else ""
  }

  function ErrorPart(job: Job, opt: Options): string {
    if !HasError(job, opt) then ""
    else (if job.output != "" then "\\n" else "") + "[" + job.error.value + "] "
  }

  function OutputText(job: Job, opt: Options): string {
    Prefix(opt) + job.output + ErrorPart(job, opt)
  }

  function Cut(s: string, n: nat): (r: string)
    ensures r <= s && |r| <= n
  {
    if |s| <= n then s else s[..n]
  }

  function ResultSize(job: Job): nat {
    |job.output| + GM_BUFFERSIZE
  }

  /** The characters left for the output line. */
  function Room(job: Job): int {
    ResultSize(job) - |Lines(Header(job))| - |Lines(Service(job))|
  }

  /** The text handed to add_job_to_queue. */
  function Message(job: Job, opt: Options): string {
    var header := Cut(Lines(Header(job)), ResultSize(job) - 2);
    var described := Cut(header + Lines(Service(job)), ResultSize(job));
    Cut(described + "output=" + OutputText(job, opt) + "\n\n\n\n", ResultSize(job))
  }

  /** Both buffers have the size of result_size pointers. */
  function BufferSize(job: Job): nat {
    8 * ResultSize(job)
  }

  /** What the strcats put together before it is cut has room in the buffers, with its NUL. */
  predicate BuffersHold(job: Job, opt: Options) {
    var size := 8 * (|job.output| + GM_BUFFERSIZE);
    var header := Cut(Lines(Header(job)), ResultSize(job) - 2);
    var described := header + Lines(Service(job));
    && |described| < size
    && |Cut(described, ResultSize(job))| + |"output="| + |OutputText(job, opt)| + |"\n\n\n\n"| < size
  }

  /** strcat; None once the end of the buffer has been overrun. */
  method StrCat(buffer: Option<string>, text: string, size: nat) returns (r: Option<string>)
    ensures r == if buffer.Some? && |buffer.value| + |text| < size then Some(buffer.value + text) else None
  {
    if buffer == None || |buffer.value| + |text| >= size { return None; }
    r := Some(buffer.value + text);
  }

  /** The service line, as strcat puts it together. */
  method BuildService(description: string, size: nat) returns (temp_buffer2: Option<string>)
    requires size > 0
    ensures var line := Line(Field("service_description", description));
            temp_buffer2 == if |line| < size then Some(line) else None
  {
    assert Line(Field("service_description", description)) == "" + "service_description=" + description + "\n";
    temp_buffer2 := StrCat(Some(""), "service_description=", size);
    temp_buffer2 := StrCat(temp_buffer2, description, size);
    temp_buffer2 := StrCat(temp_buffer2, "\n", size);
  }

  /** The beginning of the output line. */
  method BuildPrefix(opt: Options, size: nat) returns (temp_buffer2: Option<string>)
    requires size > 0
    ensures temp_buffer2 == if 7 + |Prefix(opt)| < size then Some("output=" + Prefix(opt)) else None
  {
    temp_buffer2 := StrCat(Some(""), "output=", size);
    assert "" + "output=" == "output=";
    ghost var whole := "output=" + Prefix(opt);
    if opt.debugResult {
      assert "output=" + "(" + opt.hostname + ") - " == whole;
      temp_buffer2 := StrCat(temp_buffer2, "(", size);
      temp_buffer2 := StrCat(temp_buffer2, opt.hostname, size);
      temp_buffer2 := StrCat(temp_buffer2, ") - ", size);
    } else {
      Nothing("output=");
    }
  }

  method BuildError(job: Job, opt: Options, before: Option<string>, size: nat) returns (temp_buffer2: Option<string>)
    requires before.Some? ==> |before.value| < size
    ensures temp_buffer2 ==
            if before == None || |before.value| + |ErrorPart(job, opt)| >= size then None
            else Some(before.value + ErrorPart(job, opt))
  {
    temp_buffer2 := before;
    if before.Some? { Nothing(before.value); }
    if opt.showErrorOutput && job.error != None && |job.error.value| > 0 {
      if |job.output| > 0 { temp_buffer2 := StrCat(temp_buffer2, "\\n", size); }
      temp_buffer2 := StrCat(temp_buffer2, "[", size);
      temp_buffer2 := StrCat(temp_buffer2, job.error.value, size);
      temp_buffer2 := StrCat(temp_buffer2, "] ", size);
      if temp_buffer2.Some? { assert temp_buffer2.value == before.value + ErrorPart(job, opt); }
    }
  }

  method BuildOutput(job: Job, opt: Options, size: nat) returns (temp_buffer2: Option<string>)
    requires size > 0
    ensures var line := "output=" + OutputText(job, opt) + "\n\n\n";
            temp_buffer2 == if |line| < size then Some(line) else None
  {
    hide Prefix, ErrorPart;
    temp_buffer2 := BuildPrefix(opt, size);
    temp_buffer2 := StrCat(temp_buffer2, job.output, size);
    temp_buffer2 := BuildError(job, opt, temp_buffer2, size);
    if temp_buffer2.Some? { assert temp_buffer2.value == "output=" + OutputText(job, opt); }
    temp_buffer2 := StrCat(temp_buffer2, "\n\n\n", size);
  }

  method Append(a: Option<string>, b: Option<string>, size: nat) returns (r: Option<string>)
    ensures r == if a.Some? && b.Some? && |a.value| + |b.value| < size then Some(a.value + b.value) else None
  {
    if b == None { return None; }
    r := StrCat(a, b.value, size);
  }

  /** The header with the service line, not yet cut. */
  method BuildDescribed(job: Job) returns (temp_buffer1: Option<string>)
    ensures var described := Cut(Lines(Header(job)), ResultSize(job) - 2) + Lines(Service(job));
            temp_buffer1 == if |described| < BufferSize(job) then Some(described) else None
  {
    hide Lines, Header;
    temp_buffer1 := Some(Cut(Lines(Header(job)), ResultSize(job) - 2));
    if job.serviceDescription != None {
      var temp_buffer2 := BuildService(job.serviceDescription.value, BufferSize(job));
      OneLine(Field("service_description", job.serviceDescription.value));
      temp_buffer1 := Append(temp_buffer1, temp_buffer2, BufferSize(job));
    } else {
      NoLines();
      Nothing(temp_buffer1.value);
    }
  }

  /** The two buffers of send_result_back; the text is cut at result_size after each round. There is a
      message if and only if no strcat runs over the end of its buffer. */
  method BuildMessage(job: Job, opt: Options) returns (message: Option<string>)
    ensures message == if BuffersHold(job, opt) then Some(Message(job, opt)) else None
  {
    hide Lines, OutputText, Header, Service;
    var temp_buffer1 := BuildDescribed(job);
    if temp_buffer1 == None { return None; }
    temp_buffer1 := Some(Cut(temp_buffer1.value, ResultSize(job)));
    ghost var described := temp_buffer1.value;
    var temp_buffer2 := BuildOutput(job, opt, BufferSize(job));
    temp_buffer1 := Append(temp_buffer1, temp_buffer2, BufferSize(job));
    temp_buffer1 := StrCat(temp_buffer1, "\n", BufferSize(job));
    if temp_buffer1 == None { return None; }
    assert temp_buffer1.value == described + "output=" + OutputText(job, opt) + "\n\n\n\n";
    message := Some(Cut(temp_buffer1.value, ResultSize(job)));
  }

  lemma OneLine(f: Field)
    ensures Lines([f]) == Line(f)
  {
    assert [f][1..] == [];
    assert Line(f) + "" == Line(f);
  }

  lemma NoLines()
    ensures Lines([]) == ""
  {
  }

  // ---------------------------------------------------------------- reading the lines back

  /** A field that stays one line: it neither stops the reader nor passes for the output. */
  predicate Clean(f: Field) {
    CleanKey(f.key) && '\n' !in f.value
  }

  predicate CleanKey(key: string) {
    key != "" && key[0] != 'o' && '=' !in key && '\n' !in key
  }

  function SetFields(r: Result, fs: seq<Field>): Result
    decreases |fs|
  {
    if fs == [] then r else SetFields(SetField(r, fs[0].key, fs[0].value), fs[1..])
  }

  lemma SplitLine(f: Field, rest: string)
    requires Clean(f)
    ensures Token(Line(f) + rest, '\n') == f.key + "=" + f.value
    ensures AfterToken(Line(f) + rest, '\n') == Some(rest)
  {
    hide TokenEnd, Token, AfterToken;
    var a := f.key + "=" + f.value;
    TokenOf(a, '\n', rest);
    assert Line(f) + rest == a + ['\n'] + rest;
  }

  lemma SplitField(key: string, value: string)
    requires '=' !in key
    ensures Token(key + "=" + value, '=') == key && AfterToken(key + "=" + value, '=') == Some(value)
  {
    hide TokenEnd, Token, AfterToken;
    TokenOf(key, '=', value);
    assert key + "=" + value == key + ['='] + value;
  }

  /** Printed lines are read back field by field. */
  lemma {:induction false} ReadLinesOf(r: Result, fs: seq<Field>, rest: string)
    requires forall f | f in fs :: Clean(f) && f.value != ""
    decreases |fs|
    ensures ReadLines(r, Lines(fs) + rest) == ReadLines(SetFields(r, fs), rest)
  {
    hide ReadLines, Token, AfterToken, SetField;
    if fs == [] {
      assert Lines(fs) + rest == rest;
    } else {
      var f := fs[0];
      var more := Lines(fs[1..]) + rest;
      assert Lines(fs) + rest == Line(f) + more;
      SplitLine(f, more);
      SplitField(f.key, f.value);
      ReadLinesStep(r, Line(f) + more);
      ReadLinesOf(SetField(r, f.key, f.value), fs[1..], rest);
    }
  }

  lemma ReadOutputLine(r: Result, x: string)
    ensures ReadLine(r, "output=" + x) == r.(output := Some(Unescape(x)))
  {
    hide Token, AfterToken, Unescape;
    SplitField("output", x);
    assert "output" + "=" + x == "output=" + x;
    assert "output"[0] != "source"[0];
  }

  /** What may follow the last line: nothing, or what an empty line keeps from being read. */
  predicate NothingMore(z: string) {
    z == "" || z == "\n" || "\n\n" <= z
  }

  /** The last line, whatever follows behind an empty one. */
  lemma ReadLastLine(r: Result, x: string, z: string)
    requires '\n' !in x && NothingMore(z)
    ensures ReadLines(r, "output=" + x + z) == r.(output := Some(Unescape(x)))
  {
    hide ReadLines, TokenEnd, Unescape, ReadLine, SetField;
    var line := "output=" + x;
    var text := line + z;
    ReadLinesStep(r, text);
    ReadOutputLine(r, x);
    if z == "" {
      assert text == line;
      TokenWhole(line, '\n');
    } else {
      TokenOf(line, '\n', z[1..]);
      assert text == line + ['\n'] + z[1..];
      StopAtEmpty(r.(output := Some(Unescape(x))), z[1..]);
    }
  }

  lemma StopAtEmpty(r: Result, z: string)
    requires z == "" || z[0] == '\n'
    ensures ReadLines(r, z) == r
  {
    assert TokenEnd(z, '\n') == 0 && Token(z, '\n') == "";
    assert TokenEnd("", '=') == 0;
  }

  // ---------------------------------------------------------------- field by field

  /** The value of the last line with this key. */
  function LastValue(fs: seq<Field>, key: string): Option<string> {
    if fs == [] then None
    else if fs[|fs| - 1].key == key then Some(fs[|fs| - 1].value)
    else LastValue(fs[..|fs| - 1], key)
  }

  function LastNumber(fs: seq<Field>, key: string, default: int): int {
    var v := LastValue(fs, key);
    if v == None then default else Atoi(v.value)
  }

  lemma {:induction false} SetFieldsAppend(r: Result, fs: seq<Field>, f: Field)
    ensures SetFields(r, fs + [f]) == SetField(SetFields(r, fs), f.key, f.value)
    decreases |fs|
  {
    hide SetField;
    if fs == [] {
      assert fs + [f] == [f] && [f][1..] == [];
    } else {
      assert (fs + [f])[1..] == fs[1..] + [f];
      SetFieldsAppend(SetField(r, fs[0].key, fs[0].value), fs[1..], f);
    }
  }

  lemma LastValueStep(fs: seq<Field>, f: Field, key: string)
    ensures LastValue(fs + [f], key) == if f.key == key then Some(f.value) else LastValue(fs, key)
  {
    assert (fs + [f])[..|fs|] == fs;
  }

  lemma NameIsSet(r: Result, key: string, value: string)
    ensures var r' := SetField(r, key, value);
            && r'.hostName == (if key == "host_name" then Some(value) else r.hostName)
            && r'.serviceDescription == (if key == "service_description" then Some(value) else r.serviceDescription)
            && r'.source == (if key == "source" then Some(value) else r.source)
            && r'.output == r.output
            && r'.active == (r.active && !(key == "type" && value == "passive"))
  {
    hide Atoi;
  }

  lemma TimeIsSet(r: Result, key: string, value: string)
    ensures var r' := SetField(r, key, value);
            && r'.coreStartTime == (if key == "core_start_time" then Some(value) else r.coreStartTime)
            && r'.startTime == (if key == "start_time" then Some(value) else r.startTime)
            && r'.finishTime == (if key == "finish_time" then Some(value) else r.finishTime)
            && r'.latency == (if key == "latency" then Some(value) else r.latency)
  {
    hide Atoi;
  }

  lemma NumberIsSet(r: Result, key: string, value: string)
    ensures var r' := SetField(r, key, value);
            && r'.returnCode == (if key == "return_code" then Atoi(value) else r.returnCode)
            && r'.exitedOk == (if key == "exited_ok" then Atoi(value) else r.exitedOk)
            && r'.earlyTimeout == (if key == "early_timeout" then Atoi(value) else r.earlyTimeout)
            && r'.scheduledCheck == (if key == "scheduled_check" then Atoi(value) else r.scheduledCheck)
  {
    hide Atoi;
  }

  /** The names that lines say. */
  lemma {:induction false} NamesAreRead(fs: seq<Field>)
    ensures var r := SetFields(INITIAL, fs);
            && r.hostName == LastValue(fs, "host_name") && r.source == LastValue(fs, "source")
            && r.serviceDescription == LastValue(fs, "service_description")
            && r.output == None && r.active == (Field("type", "passive") !in fs)
  {
    hide SetFields, SetField, Atoi, LastValue;
    if fs == [] {
      SetNoFields(INITIAL);
      NoValues();
    } else {
      var n := |fs| - 1;
      var f := fs[n];
      NamesAreRead(fs[..n]);
      SetFieldsAppend(INITIAL, fs[..n], f);
      assert fs == fs[..n] + [f];
      LastValueStep(fs[..n], f, "host_name");
      LastValueStep(fs[..n], f, "source");
      LastValueStep(fs[..n], f, "service_description");
      NameIsSet(SetFields(INITIAL, fs[..n]), f.key, f.value);
    }
  }

  /** The times. */
  lemma {:induction false} TimesAreRead(fs: seq<Field>)
    ensures var r := SetFields(INITIAL, fs);
            && r.coreStartTime == LastValue(fs, "core_start_time") && r.startTime == LastValue(fs, "start_time")
            && r.finishTime == LastValue(fs, "finish_time") && r.latency == LastValue(fs, "latency")
  {
    hide SetFields, SetField, Atoi, LastValue;
    if fs == [] {
      SetNoFields(INITIAL);
      NoValues();
    } else {
      var n := |fs| - 1;
      var f := fs[n];
      TimesAreRead(fs[..n]);
      SetFieldsAppend(INITIAL, fs[..n], f);
      assert fs == fs[..n] + [f];
      LastValueStep(fs[..n], f, "core_start_time");
      LastValueStep(fs[..n], f, "start_time");
      LastValueStep(fs[..n], f, "finish_time");
      LastValueStep(fs[..n], f, "latency");
      TimeIsSet(SetFields(INITIAL, fs[..n]), f.key, f.value);
    }
  }

  /** The numbers. */
  lemma {:induction false} NumbersAreRead(fs: seq<Field>)
    ensures var r := SetFields(INITIAL, fs);
            && r.returnCode == LastNumber(fs, "return_code", 0) && r.exitedOk == LastNumber(fs, "exited_ok", 1)
            && r.earlyTimeout == LastNumber(fs, "early_timeout", 0)
            && r.scheduledCheck == LastNumber(fs, "scheduled_check", 1)
  {
    hide SetFields, SetField, Atoi, LastValue;
    if fs == [] {
      SetNoFields(INITIAL);
      NoValues();
    } else {
      var n := |fs| - 1;
      var f := fs[n];
      NumbersAreRead(fs[..n]);
      SetFieldsAppend(INITIAL, fs[..n], f);
      assert fs == fs[..n] + [f];
      LastValueStep(fs[..n], f, "return_code");
      LastValueStep(fs[..n], f, "exited_ok");
      LastValueStep(fs[..n], f, "early_timeout");
      LastValueStep(fs[..n], f, "scheduled_check");
      NumberIsSet(SetFields(INITIAL, fs[..n]), f.key, f.value);
    }
  }

  lemma NoValues()
    ensures forall key :: LastValue([], key) == None
  {
  }

  /** For every message of lines and an output, whatever stands behind an empty line: what the core gets,
      field by field. Of a key that is repeated the last value counts. */
  lemma MessageArrives(fs: seq<Field>, x: string, z: string)
    requires (forall f | f in fs :: Clean(f) && f.value != "") && '\n' !in x && NothingMore(z)
    ensures Receive(Lines(fs) + ("output=" + x + z)) ==
            var host := LastValue(fs, "host_name");
            if host == None then None
            else Some(CheckResult(
              host.value, LastValue(fs, "service_description"),
              if LastValue(fs, "source") == None then Null else Dangling, Unescape(x),
              LastNumber(fs, "return_code", 0), LastNumber(fs, "exited_ok", 1), LastNumber(fs, "early_timeout", 0),
              0, LastNumber(fs, "scheduled_check", 1), Field("type", "passive") !in fs,
              LastValue(fs, "core_start_time"), LastValue(fs, "start_time"), LastValue(fs, "finish_time"),
              LastValue(fs, "latency")))
  {
    hide ReadLines, SetFields, Unescape, LastValue, LastNumber, Clean, Lines;
    ReadLinesOf(INITIAL, fs, "output=" + x + z);
    ReadLastLine(SetFields(INITIAL, fs), x, z);
    NamesAreRead(fs);
    TimesAreRead(fs);
    NumbersAreRead(fs);
  }

  lemma SetNoFields(r: Result)
    ensures SetFields(r, []) == r
  {
  }

  // ---------------------------------------------------------------- what is cut off

  lemma KeepsOutput(r: Result, key: string, value: string)
    ensures SetField(r, key, value).output == r.output
  {
  }

  /** A last line that has lost its end is not taken for the output. */
  lemma CutLine(r: Result, key: string, value: string, n: nat, z: string)
    requires CleanKey(key) && '\n' !in value
    requires n <= |key| + 1 + |value| && |z| <= 2 && '\n' !in z
    ensures ReadLines(r, (key + "=" + value)[..n] + z).output == r.output
  {
    hide ReadLines, SetField, TokenEnd;
    var line := (key + "=" + value)[..n] + z;
    TokenWhole(line, '\n');
    ReadLinesStep(r, line);
    var k := Token(line, '=');
    if n > |key| {
      var rest := (key + "=" + value)[|key| + 1..n] + z;
      assert line == key + "=" + rest;
      SplitField(key, rest);
      assert k == key;
    } else {
      assert (key + "=" + value)[..n] == key[..n];
      assert line == key[..n] + z;
      assert k <= line;
    }
    assert k != "output" by {
      assert "output"[0] == 'o' && |"output"| > 2;
      if n > 0 && k != "" { assert k[0] == line[0] == key[0]; }
    }
    if !Ends(AfterToken(line, '=')) { KeepsOutput(r, k, AfterToken(line, '=').value); }
  }

  /** Lines cut off anywhere, with up to two characters after the cut, contain no output. */
  lemma {:induction false} CutLines(r: Result, fs: seq<Field>, n: nat, z: string)
    requires forall f | f in fs :: Clean(f)
    requires n <= |Lines(fs)| && |z| <= 2 && '\n' !in z
    ensures ReadLines(r, Lines(fs)[..n] + z).output == r.output
    decreases |fs|
  {
    hide ReadLines, TokenEnd, SetField;
    if fs == [] {
      assert Lines(fs)[..n] + z == z;
      CutLine(r, "host", "", 0, z);
      assert ("host" + "=" + "")[..0] + z == z;
    } else {
      var f, more := fs[0], Lines(fs[1..]);
      assert f in fs;
      var a := f.key + "=" + f.value;
      assert Lines(fs) == Line(f) + more && Line(f) == a + "\n";
      if n <= |a| {
        assert Lines(fs)[..n] == a[..n];
        CutLine(r, f.key, f.value, n, z);
      } else {
        var m := n - |a| - 1;
        assert Lines(fs)[..n] + z == Line(f) + (more[..m] + z);
        SplitLine(f, more[..m] + z);
        SplitField(f.key, f.value);
        ReadLinesStep(r, Line(f) + (more[..m] + z));
        KeepsOutput(r, f.key, f.value);
        CutLines(SetField(r, f.key, f.value), fs[1..], m, z);
      }
    }
  }

  /** The output line cut after `n` characters. */
  lemma CutOutput(r: Result, x: string, n: nat)
    requires '\n' !in x && n <= 7 + |x|
    ensures n < 6 ==> ReadLines(r, ("output=" + x)[..n]).output == r.output
    ensures n == 6 ==> ReadLines(r, ("output=" + x)[..n]) == r.(output := Some("(null)"))
    ensures n > 6 ==> ReadLines(r, ("output=" + x)[..n]) == r.(output := Some(Unescape(x[..n - 7])))
  {
    hide ReadLines, SetField, TokenEnd, Unescape;
    var line := ("output=" + x)[..n];
    if n >= 7 {
      assert line == "output=" + x[..n - 7];
      Nothing("output=" + x[..n - 7]);
      ReadLastLine(r, x[..n - 7], "");
    } else {
      assert line == "output="[..n];
      TokenWhole(line, '\n');
      ReadLinesStep(r, line);
      if n == 6 { assert line == "output"; }
      TokenWhole(line, '=');
    }
  }

  // ---------------------------------------------------------------- there and back

  predicate Plain(s: string) {
    s != "" && '\n' !in s
  }

  /** What a job needs for its lines to stay lines. */
  predicate Printable(job: Job, opt: Options) {
    && Plain(job.hostName) && Plain(job.source)
    && Plain(job.coreStartTime) && Plain(job.startTime) && Plain(job.finishTime)
    && (job.serviceDescription.Some? ==> Plain(job.serviceDescription.value))
    && (opt.debugResult ==> '\n' !in opt.hostname && BACKSLASH !in opt.hostname)
  }

  /** The job as execute_safe_command leaves it: output escaped, error trimmed and escaped. */
  function Escaped(job: Job): Job {
    job.(output := Escape(job.output),
         error := if job.error == None then None else Some(Escape(Trimmed(job.error.value))))
  }

  /** The text the core should end up with. */
  function Readable(job: Job, opt: Options): string {
    var e := if job.error == None then "" else Trimmed(job.error.value);
    (if opt.debugResult then "(" + opt.hostname + ") - " else "") + job.output +
    if !opt.showErrorOutput || e == "" then "" else (if job.output != "" then "\n" else "") + "[" + e + "] "
  }

  /** What get_results reads. */
  function Parsed(job: Job, opt: Options): Result {
    INITIAL.(hostName := Some(job.hostName), serviceDescription := job.serviceDescription, source := Some(job.source),
             output := Some(Readable(job, opt)), returnCode := job.returnCode, exitedOk := job.exitedOk,
             coreStartTime := Some(job.coreStartTime), startTime := Some(job.startTime),
             finishTime := Some(job.finishTime))
  }

  /** What the core should get: everything the worker knows but the source. It is not told of a timeout, of a
      latency or of check options. */
  function Delivered(job: Job, opt: Options): CheckResult {
    CheckResult(job.hostName, job.serviceDescription, Dangling, Readable(job, opt), job.returnCode, job.exitedOk,
                0, 0, 1, true, Some(job.coreStartTime), Some(job.startTime), Some(job.finishTime), None)
  }

  /** The message has to stay below result_size up to the end of the output. */
  predicate Fits(job: Job, opt: Options) {
    |Lines(Header(job))| + |Lines(Service(job))| + |"output="| + |OutputText(job, opt)| <= |job.output| + GM_BUFFERSIZE
  }

  lemma {:induction false} EscapePlain(s: string)
    requires '\n' !in s && BACKSLASH !in s
    ensures Escape(s) == s
  {
    if s != "" { EscapePlain(s[1..]); }
  }

  /** The text after output= is the escaped form of the readable text. */
  lemma TextIsEscaped(job: Job, opt: Options)
    requires Printable(job, opt)
    ensures OutputText(Escaped(job), opt) == Escape(Readable(job, opt))
  {
    hide Escape, Trimmed;
    var p, t := Prefix(opt), job.output;
    EscapePlain(p);
    EscapeConcat(p, t);
    EscapeShape(t);
    if job.error.Some? {
      var e := Trimmed(job.error.value);
      EscapeShape(e);
      if opt.showErrorOutput && e != "" {
        ErrorIsEscaped(t, e);
        var tail := (if t != "" then "\n" else "") + "[" + e + "] ";
        assert Readable(job, opt) == p + t + tail;
        EscapeConcat(p + t, tail);
        assert HasError(Escaped(job), opt);
      }
    }
    Nothing(p + t);
    Nothing(p + Escape(t));
  }

  lemma ErrorIsEscaped(t: string, e: string)
    ensures Escape((if t != "" then "\n" else "") + "[" + e + "] ") ==
            (if t != "" then "\\n" else "") + "[" + Escape(e) + "] "
  {
    hide Escape;
    var n := if t != "" then "\n" else "";
    EscapedNewline();
    EscapeShape("");
    EscapePlain("[");
    EscapePlain("] ");
    EscapeConcat(n, "[");
    EscapeConcat(n + "[", e);
    EscapeConcat(n + "[" + e, "] ");
  }

  lemma EscapedNewline()
    ensures Escape("\n") == "\\n"
  {
    assert Escape("\n"[1..]) == "";
  }

  lemma {:induction false} LinesConcat(a: seq<Field>, b: seq<Field>)
    ensures Lines(a + b) == Lines(a) + Lines(b)
  {
    if a == [] {
      assert a + b == b;
    } else {
      assert (a + b)[1..] == a[1..] + b;
      LinesConcat(a[1..], b);
    }
  }

  lemma TimeKeysAreClean()
    ensures CleanKey("core_start_time") && CleanKey("start_time") && CleanKey("finish_time")
  {
  }

  lemma NameKeysAreClean()
    ensures CleanKey("host_name") && CleanKey("service_description") && CleanKey("source")
  {
  }

  lemma StatusKeysAreClean()
    ensures CleanKey("return_code") && CleanKey("exited_ok")
  {
  }

  lemma FieldsAreClean(job: Job, opt: Options)
    requires Printable(job, opt)
    ensures forall f | f in Fields(job) :: Clean(f) && f.value != ""
  {
    hide IntText, CleanKey;
    TimeKeysAreClean();
    NameKeysAreClean();
    StatusKeysAreClean();
    var rc, ok := IntText(job.returnCode), IntText(job.exitedOk);
    assert forall c | c in rc :: Digit(c) || c == '-';
    assert forall c | c in ok :: Digit(c) || c == '-';
  }

  lemma SetFieldsStep(r: Result, f: Field, fs: seq<Field>)
    ensures SetFields(r, [f] + fs) == SetFields(SetField(r, f.key, f.value), fs)
  {
    assert ([f] + fs)[1..] == fs;
  }

  /** All fields but the output end up where they belong. */
  lemma FieldsAreSet(job: Job, active: bool)
    ensures SetFields(INITIAL.(active := active), Fields(job)) ==
            INITIAL.(hostName := Some(job.hostName), serviceDescription := job.serviceDescription,
                     source := Some(job.source), returnCode := job.returnCode, exitedOk := job.exitedOk,
                     coreStartTime := Some(job.coreStartTime), startTime := Some(job.startTime),
                     finishTime := Some(job.finishTime), active := active)
  {
    hide SetFields, IntText, Atoi;
    AtoiOfIntText(job.returnCode);
    AtoiOfIntText(job.exitedOk);
    var start := INITIAL.(active := active);
    var fs, r := Fields(job), start;
    var i := 0;
    while i < 7
      invariant 0 <= i <= 7
      invariant SetFields(start, fs) == SetFields(r, fs[i..])
      invariant r == start.(
        hostName := if i > 0 then Some(job.hostName) else None,
        coreStartTime := if i > 1 then Some(job.coreStartTime) else None,
        startTime := if i > 2 then Some(job.startTime) else None,
        finishTime := if i > 3 then Some(job.finishTime) else None,
        returnCode := if i > 4 then job.returnCode else 0,
        exitedOk := if i > 5 then job.exitedOk else 1,
        source := if i > 6 then Some(job.source) else None)
    {
      assert fs[i..] == [fs[i]] + fs[i + 1..];
      SetFieldsStep(r, fs[i], fs[i + 1..]);
      r := SetField(r, fs[i].key, fs[i].value);
      i := i + 1;
    }
    assert fs[7..] == Service(job);
    if job.serviceDescription == None {
      SetNoFields(r);
    } else {
      var f := Service(job)[0];
      assert Service(job) == [f] + [];
      SetFieldsStep(r, f, []);
      SetNoFields(SetField(r, f.key, f.value));
    }
  }

  /** What is read from all lines of a message, whatever is left of the empty ones at its end. */
  lemma ReadAll(job: Job, opt: Options, active: bool, cut: string)
    requires Printable(job, opt) && NothingMore(cut)
    ensures var sent := Escaped(job);
            ReadLines(INITIAL.(active := active), Lines(Fields(sent)) + ("output=" + OutputText(sent, opt) + cut)) ==
            Parsed(job, opt).(output := Some(Unescape(Escape(Readable(job, opt)))), active := active)
  {
    hide Lines, ReadLines, Escape, Unescape, OutputText, Readable, Header, Service, SetFields, Trimmed;
    var sent := Escaped(job);
    var start, x := INITIAL.(active := active), OutputText(sent, opt);
    FieldsAreClean(job, opt);
    SameFields(job);
    ReadLinesOf(start, Fields(sent), "output=" + x + cut);
    TextIsEscaped(job, opt);
    EscapeShape(Readable(job, opt));
    ReadLastLine(SetFields(start, Fields(sent)), x, cut);
    FieldsAreSet(job, active);
  }

  /** A message that fits arrives whole, and only the backslashes of the texts decide what is read. */
  lemma FittingMessage(job: Job, opt: Options)
    requires Printable(job, opt) && Fits(Escaped(job), opt)
    ensures Receive(Message(Escaped(job), opt)) ==
            Some(Delivered(job, opt).(output := Unescape(Escape(Readable(job, opt)))))
  {
    hide Lines, ReadLines, Escape, Unescape, OutputText, Readable, Header, Service;
    var cut := WholeMessage(job, opt);
    ReadAll(job, opt, true, cut);
  }

  /** What the size limit leaves of the three parts of a message. */
  lemma CutParts(h: string, s: string, o: string, size: nat)
    requires size >= 2 && |o| >= 2
    ensures var m := Cut(Cut(Cut(h, size - 2) + s, size) + o, size);
            m == if |h| > size - 2 then h[..size - 2] + (s + o)[..2]
                 else if |h| + |s| > size then (h + s)[..size]
                 else (h + s) + Cut(o, size - |h| - |s|)
  {
  }

  lemma MessageParts(job: Job, opt: Options)
    ensures var o := "output=" + OutputText(job, opt) + "\n\n\n\n";
            Message(job, opt) ==
            Cut(Cut(Cut(Lines(Header(job)), ResultSize(job) - 2) + Lines(Service(job)), ResultSize(job)) + o,
                ResultSize(job))
  {
    hide Lines, OutputText, Header, Cut;
    var o := "output=" + OutputText(job, opt) + "\n\n\n\n";
    var d := Cut(Cut(Lines(Header(job)), ResultSize(job) - 2) + Lines(Service(job)), ResultSize(job));
    assert d + "output=" + OutputText(job, opt) + "\n\n\n\n" == d + o;
  }

  lemma CutTail(a: string, z: string, n: nat)
    requires |a| <= n
    ensures Cut(a + z, n) == a + Cut(z, n - |a|)
  {
  }

  lemma WholeMessage(job: Job, opt: Options) returns (cut: string)
    requires Fits(Escaped(job), opt)
    ensures var sent := Escaped(job);
            && cut == Cut("\n\n\n\n", Room(sent) - 7 - |OutputText(sent, opt)|)
            && Message(sent, opt) == Lines(Fields(sent)) + ("output=" + OutputText(sent, opt) + cut)
  {
    hide Lines, OutputText, Header, Service, Message, Cut, Escaped;
    var sent := Escaped(job);
    var x := OutputText(sent, opt);
    LinesConcat(Header(sent), Service(sent));
    MessageParts(sent, opt);
    CutParts(Lines(Header(sent)), Lines(Service(sent)), "output=" + x + "\n\n\n\n", ResultSize(sent));
    CutTail("output=" + x, "\n\n\n\n", Room(sent));
    cut := Cut("\n\n\n\n", Room(sent) - 7 - |x|);
  }

  const PASSIVE := "type=passive\n"

  /** With room for one more line, the copy is read like the original, as a passive result. */
  lemma DuplicateIsPassive(job: Job, opt: Options)
    requires Printable(job, opt) && RoomForType(job, opt)
    ensures var sent := Escaped(job);
            Receive(Cut(PASSIVE + Message(sent, opt), ResultSize(sent))) ==
            Some(Delivered(job, opt).(output := Unescape(Escape(Readable(job, opt))), active := false))
  {
    hide Lines, ReadLines, Escape, Unescape, OutputText, Readable, Header, Service, TokenEnd, Message, Cut, Escaped;
    var sent := Escaped(job);
    var whole := WholeMessage(job, opt);
    LinesConcat(Header(sent), Service(sent));
    var lines, x := Lines(Fields(sent)), "output=" + OutputText(sent, opt);
    var cut := Cut(whole, ResultSize(sent) - |PASSIVE + lines + x|);
    assert PASSIVE + (lines + (x + whole)) == (PASSIVE + lines + x) + whole;
    CutTail(PASSIVE + lines + x, whole, ResultSize(sent));
    assert (PASSIVE + lines + x) + cut == PASSIVE + (lines + (x + cut));
    ReadPassive(lines + (x + cut));
    ReadAll(job, opt, false, cut);
  }

  /** The copy for a duplicate server: it is read like the original, as a passive result if that is asked
      for and there is room for one more line. */
  method BuildDuplicate(temp_buffer1: string, dupResultsArePassive: bool, ghost job: Job, ghost opt: Options,
                        result_size: nat) returns (temp_buffer2: string)
    requires temp_buffer1 == Message(Escaped(job), opt) && result_size == ResultSize(Escaped(job))
    ensures |temp_buffer2| <= result_size
    ensures !dupResultsArePassive ==> Receive(temp_buffer2) == Receive(temp_buffer1)
    ensures dupResultsArePassive && Printable(job, opt) && RoomForType(job, opt) ==>
              && Receive(temp_buffer1).Some?
              && Receive(temp_buffer2) == Some(Receive(temp_buffer1).value.(active := false))
  {
    hide Receive, Message, Printable, RoomForType, Escaped, Escape, Unescape, Readable, Parsed, Fits;
    temp_buffer2 := "";
    if dupResultsArePassive { temp_buffer2 := temp_buffer2 + "type=passive\n"; }
    temp_buffer2 := temp_buffer2 + temp_buffer1;
    assert temp_buffer2 == if dupResultsArePassive then PASSIVE + temp_buffer1 else temp_buffer1;
    temp_buffer2 := Cut(temp_buffer2, result_size);
    if dupResultsArePassive && Printable(job, opt) && RoomForType(job, opt) {
      DuplicateIsPassive(job, opt);
      RoomToFit(job, opt);
      FittingMessage(job, opt);
    } else if !dupResultsArePassive {
      MessageFits(Escaped(job), opt);
      Nothing(temp_buffer1);
    }
  }

  lemma MessageFits(job: Job, opt: Options)
    ensures |Message(job, opt)| <= ResultSize(job)
  {
  }

  /** Room for the whole output line behind the line with the type. */
  predicate RoomForType(job: Job, opt: Options) {
    Room(Escaped(job)) >= |PASSIVE| + 7 + |OutputText(Escaped(job), opt)|
  }

  lemma RoomToFit(job: Job, opt: Options)
    requires RoomForType(job, opt)
    ensures Fits(Escaped(job), opt)
  {
    hide Lines, OutputText, Header, Service, Escaped;
  }

  lemma ReadPassive(rest: string)
    ensures ReadLines(INITIAL, PASSIVE + rest) == ReadLines(INITIAL.(active := false), rest)
  {
    hide ReadLines, TokenEnd, Token, AfterToken;
    var f := Field("type", "passive");
    assert PASSIVE == Line(f);
    SplitLine(f, rest);
    SplitField("type", "passive");
    ReadLinesStep(INITIAL, PASSIVE + rest);
  }

  lemma SameFields(job: Job)
    ensures Fields(Escaped(job)) == Fields(job)
  {
  }

  /** A message that fits is also put together inside its buffers. */
  lemma FittingIsHeld(job: Job, opt: Options)
    requires Fits(job, opt) || (Room(job) == 6 && |OutputText(job, opt)| == 6)
    ensures BuffersHold(job, opt)
  {
    hide Lines, OutputText, Header, Service;
  }

  /** Within the size limit, the core gets exactly what the worker has read from the plugin (and a dangling
      source) if and only if no backslash is in it. */
  lemma ResultRoundTrip(job: Job, opt: Options)
    requires Printable(job, opt) && Fits(Escaped(job), opt)
    ensures BuffersHold(Escaped(job), opt)
    ensures Receive(Message(Escaped(job), opt)) == Some(Delivered(job, opt)) <==> BACKSLASH !in Readable(job, opt)
  {
    hide Message, Escape, Unescape, Receive, Readable, Fits, Printable, BuffersHold;
    FittingIsHeld(Escaped(job), opt);
    FittingMessage(job, opt);
    EscapeRoundTrip(Readable(job, opt));
  }

  /** The characters that follow a header cut short. */
  lemma AfterHeader(job: Job, o: string)
    requires "ou" <= o
    ensures '\n' !in (Lines(Service(job)) + o)[..2]
  {
    if job.serviceDescription == None {
      assert Lines(Service(job)) + o == o;
      assert o[..2] == "ou";
    } else {
      var f := Service(job)[0];
      OneLine(f);
      assert (Line(f) + o)[..2] == "se";
    }
  }

  /** A message that has no room for its output line brings no output. */
  lemma NoRoom(job: Job, opt: Options)
    requires Printable(job, opt) && Room(Escaped(job)) < 2
    ensures Receive(Message(Escaped(job), opt)) == None
  {
    hide Lines, ReadLines, OutputText, Header, Service, SetField, Escaped, Message;
    var sent := Escaped(job);
    var size, h, s := ResultSize(sent), Lines(Header(sent)), Lines(Service(sent));
    var o := "output=" + OutputText(sent, opt) + "\n\n\n\n";
    SameFields(job);
    FieldsAreClean(job, opt);
    MessageParts(sent, opt);
    CutParts(h, s, o, size);
    if |h| > size - 2 {
      assert "ou" <= o;
      AfterHeader(sent, o);
      CutLines(INITIAL, Header(sent), size - 2, (s + o)[..2]);
    } else {
      LinesConcat(Header(sent), Service(sent));
      var n := if size < |h + s| then size else |h + s|;
      assert Cut(o, size - n) == "ou"[..size - n];
      CutLines(INITIAL, Fields(sent), n, "ou"[..size - n]);
      Nothing((h + s)[..n]);
      assert (h + s)[..n] + "ou"[..size - n] == Message(sent, opt);
    }
  }

  /** A message with some room brings the beginning of its output line. */
  lemma SomeRoom(job: Job, opt: Options)
    requires Printable(job, opt) && Room(Escaped(job)) >= 2 && !Fits(Escaped(job), opt)
    ensures var m, n, x := Message(Escaped(job), opt), Room(Escaped(job)), Escape(Readable(job, opt));
            && n < 7 + |x|
            && Receive(m) == if n < 6 then None
                             else if n == 6 then Some(Delivered(job, opt).(output := "(null)"))
                             else Some(Delivered(job, opt).(output := Unescape(x[..n - 7])))
  {
    hide Lines, ReadLines, OutputText, Header, Service, SetFields, Message, Escape, Unescape, Readable, Trimmed;
    var sent := Escaped(job);
    var lines, x := Lines(Header(sent)) + Lines(Service(sent)), OutputText(sent, opt);
    var n := Room(sent);
    SameFields(job);
    FieldsAreClean(job, opt);
    MessageParts(sent, opt);
    CutParts(Lines(Header(sent)), Lines(Service(sent)), "output=" + x + "\n\n\n\n", ResultSize(sent));
    TextIsEscaped(job, opt);
    EscapeShape(Readable(job, opt));
    var left := ("output=" + x)[..n];
    assert Message(sent, opt) == lines + left;
    LinesConcat(Header(sent), Service(sent));
    ReadLinesOf(INITIAL, Fields(sent), left);
    FieldsAreSet(job, true);
    CutOutput(SetFields(INITIAL, Fields(sent)), x, n);
  }

  /** The one text that survives losing everything behind the key: strsep then finds no value, and
      get_results stores (null). */
  predicate CutToNull(job: Job, opt: Options) {
    Readable(job, opt) == "(null)" && Room(Escaped(job)) == 6
  }

  lemma NullIsShort(job: Job, opt: Options)
    requires Printable(job, opt) && CutToNull(job, opt)
    ensures |OutputText(Escaped(job), opt)| == 6
  {
    hide Readable, OutputText, Escaped;
    TextIsEscaped(job, opt);
    EscapePlain("(null)");
  }

  /** For texts without a backslash, the size limit alone decides: a message is put together and the result
      arrives as it was if and only if the message fits (or the text is the one get_results makes up). */
  lemma SizeLimitDecides(job: Job, opt: Options)
    requires Printable(job, opt) && BACKSLASH !in Readable(job, opt)
    ensures BuffersHold(Escaped(job), opt) && Receive(Message(Escaped(job), opt)) == Some(Delivered(job, opt)) <==>
            Fits(Escaped(job), opt) || CutToNull(job, opt)
  {
    hide Message, Escape, Unescape, Receive, Readable, Printable, Escaped, Lines, OutputText, Header, Service,
         BuffersHold, CutToNull, Fits;
    if Fits(Escaped(job), opt) {
      ResultRoundTrip(job, opt);
    } else if CutToNull(job, opt) {
      NullIsShort(job, opt);
      NullIsCut(job, opt);
      FittingIsHeld(Escaped(job), opt);
    } else {
      CutDiffers(job, opt);
    }
  }

  lemma NullIsCut(job: Job, opt: Options)
    requires Printable(job, opt) && CutToNull(job, opt) && !Fits(Escaped(job), opt)
    ensures Room(Escaped(job)) == 6 && Receive(Message(Escaped(job), opt)) == Some(Delivered(job, opt))
  {
    hide Message, Escape, Unescape, Receive, Readable, Printable, Escaped, Lines, OutputText, Header, Service;
    SomeRoom(job, opt);
  }

  lemma CutDiffers(job: Job, opt: Options)
    requires Printable(job, opt) && BACKSLASH !in Readable(job, opt)
    requires !Fits(Escaped(job), opt) && !CutToNull(job, opt)
    ensures Receive(Message(Escaped(job), opt)) != Some(Delivered(job, opt))
  {
    hide Message, Escape, Unescape, Receive, Readable, Printable, Escaped, Lines, OutputText, Header, Service;
    var t, n := Readable(job, opt), Room(Escaped(job));
    if n < 2 {
      NoRoom(job, opt);
    } else {
      SomeRoom(job, opt);
      if n >= 7 {
        var v := Escape(t)[..n - 7];
        EscapeShape(t);
        if Unescape(v) == t { EscapeUnescape(v); }
      }
    }
  }

  /** Whatever reaches the core, its source dangles: a message cut off before the source has no output. */
  lemma SourceIsAlwaysLost(job: Job, opt: Options)
    requires Printable(job, opt)
    ensures var m := Message(Escaped(job), opt); Receive(m).Some? ==> Receive(m).value.source == Dangling
  {
    hide Message, Escape, Unescape, Receive, Readable, Printable, Escaped, Fits;
    if Fits(Escaped(job), opt) {
      FittingMessage(job, opt);
    } else if Room(Escaped(job)) < 2 {
      NoRoom(job, opt);
    } else {
      SomeRoom(job, opt);
    }
  }
}
