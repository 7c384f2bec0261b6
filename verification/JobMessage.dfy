/** The text of a check job: printed by the core module, read line by line by get_job on a worker. */
module JobMessage {
  import opened CString
  import opened ResultMessage
  import opened SendResult

  /** The fields of gm_job_t that a job's text can set. Times stay in their printed form. */
  datatype Received = Received(
    jobType: Option<string>, hostName: Option<string>, serviceDescription: Option<string>,
    resultQueue: Option<string>, commandLine: Option<string>, nextCheck: Option<string>, coreTime: Option<string>,
    latency: Option<string>, output: Option<string>, longOutput: Option<string>,
    checkOptions: Option<int>, scheduledCheck: int, timeout: int, validLines: nat)

  /** set_default_job; the times and the check options have no default, their memory is not written. */
  function Default(jobTimeout: int): Received {
    Received(None, None, None, None, None, None, None, None, None, None, None, 1, jobTimeout, 0)
  }

  /** The if-else chain of get_job. */
  function SetJobField(j: Received, key: string, value: string): Received {
    var k := j.(validLines := j.validLines + 1);
    if key == "host_name" then k.(hostName := Some(value))
    else if key == "service_description" then k.(serviceDescription := Some(value))
    else if key == "type" then k.(jobType := Some(value))
    else if key == "result_queue" then k.(resultQueue := Some(value))
    else if key == "check_options" then k.(checkOptions := Some(Atoi(value)))
    else if key == "scheduled_check" then k.(scheduledCheck := Atoi(value))
    else if key == "latency" then k.(latency := Some(value))
    else if key == "next_check" then k.(nextCheck := Some(value))
    else if key == "start_time" then k.(nextCheck := Some(value), coreTime := Some(value))
    else if key == "core_time" then k.(coreTime := Some(value))
    else if key == "timeout" then k.(timeout := Atoi(value))
    else if key == "command_line" then k.(commandLine := Some(value))
    else if key == "plugin_output" then k.(output := Some(value))
    else if key == "long_plugin_output" then k.(longOutput := Some(value))
    else j
  }

  function ReadJobLine(j: Received, line: string): Received {
    var value := AfterToken(line, '=');
    if Ends(value) then j else SetJobField(j, Token(line, '='), value.value)
  }

  function ReadJob(j: Received, text: string): Received
    decreases |text|
  {
    var line, rest := Token(text, '\n'), AfterToken(text, '\n');
    var j' := ReadJobLine(j, line);
    if Ends(AfterToken(line, '=')) || rest == None then j' else ReadJob(j', rest.value)
  }

  lemma ReadJobStep(j: Received, text: string)
    ensures var line, rest := Token(text, '\n'), AfterToken(text, '\n');
            ReadJob(j, text) ==
            if Ends(AfterToken(line, '=')) || rest == None then ReadJobLine(j, line)
            else ReadJob(ReadJobLine(j, line), rest.value)
  {
  }

  /** The loop of get_job. */
  method GetJob(buf: array<char>, jobTimeout: int) returns (job: Received)
    requires NUL in buf[..]
    modifies buf
    ensures job == ReadJob(Default(jobTimeout), old(CStr(buf[..])))
  {
    hide ReadJob, CStr, TokenEnd, SetJobField;
    ghost var result := ReadJob(Default(jobTimeout), CStr(buf[..]));
    assert buf[0..] == buf[..];
    var data, last := 0, false;
    job := Default(jobTimeout);
    while data != -1 && !last
      invariant -1 <= data < buf.Length
      invariant !last && data >= 0 ==> NUL in buf[data..] && ReadJob(job, CStr(buf[data..])) == result
      invariant last || data == -1 ==> job == result
      decreases if data == -1 then 0 else buf.Length - data, !last
    {
      ReadJobStep(job, CStr(buf[data..]));
      var key, value;
      key, value, data := NextLine(buf, data);
      last := value == None || value.value == "";
      if !last { job := SetJobField(job, key, value.value); }
    }
  }

  // ---------------------------------------------------------------- the printed job

  /** What handle_host_check and handle_svc_check print. */
  datatype Check = Check(
    resultQueue: string, targetQueue: string, hostName: string, serviceDescription: Option<string>,
    coreTime: string, timeout: int, commandLine: string)

  function JobType(c: Check): string {
    if c.serviceDescription == None then "host" else "service"
  }

  function ServiceLine(c: Check): seq<Field> {
    if c.serviceDescription == None then [] else [Field("service_description", c.serviceDescription.value)]
  }

  /** All lines but the last. */
  function Head(c: Check): seq<Field> {
    [Field("type", JobType(c)), Field("result_queue", c.resultQueue), Field("target_queue", c.targetQueue),
     Field("host_name", c.hostName)] + ServiceLine(c)
    + [Field("core_time", c.coreTime), Field("timeout", IntText(c.timeout))]
  }

  function Print(c: Check): string {
    Cut(Lines(Head(c)) + ("command_line=" + c.commandLine) + "\n\n\n", GM_MAX_OUTPUT - 2)
  }

  /** What get_job should read; next_check, which send_result_back prints as core_start_time, is never sent. */
  function Expected(c: Check, jobTimeout: int): Received {
    Default(jobTimeout).(jobType := Some(if c.serviceDescription == None then "host" else "service"),
                         resultQueue := Some(c.resultQueue), hostName := Some(c.hostName),
                         serviceDescription := c.serviceDescription, coreTime := Some(c.coreTime), timeout := c.timeout,
                         commandLine := Some(c.commandLine),
                         validLines := if c.serviceDescription == None then 6 else 7)
  }

  predicate Sendable(c: Check) {
    && Plain(c.resultQueue) && Plain(c.targetQueue) && Plain(c.hostName) && Plain(c.coreTime) && Plain(c.commandLine)
    && (c.serviceDescription.Some? ==> Plain(c.serviceDescription.value))
  }

  /** What handle_notifications prints; the output may be missing. */
  datatype Notification = Notification(
    startTime: string, coreTime: string, contact: string, commandLine: string, output: string, longOutput: string)

  function NotificationHead(n: Notification): seq<Field> {
    [Field("type", "notification"), Field("start_time", n.startTime), Field("core_time", n.coreTime),
     Field("contact", n.contact), Field("command_line", n.commandLine), Field("plugin_output", n.output)]
  }

  function PrintNotification(n: Notification): string {
    Cut(Lines(NotificationHead(n)) + ("long_plugin_output=" + n.longOutput) + "\n\n\n", GM_MAX_OUTPUT - 2)
  }

  predicate NotificationSendable(n: Notification) {
    && Plain(n.startTime) && Plain(n.coreTime) && Plain(n.contact) && Plain(n.commandLine)
    && Plain(n.output) && Plain(n.longOutput)
  }

  function SetJobFields(j: Received, fs: seq<Field>): Received
    decreases |fs|
  {
    if fs == [] then j else SetJobFields(SetJobField(j, fs[0].key, fs[0].value), fs[1..])
  }

  lemma {:induction false} ReadJobOf(j: Received, fs: seq<Field>, rest: string)
    requires forall f | f in fs :: Clean(f) && f.value != ""
    ensures ReadJob(j, Lines(fs) + rest) == ReadJob(SetJobFields(j, fs), rest)
    decreases |fs|
  {
    hide ReadJob, Token, AfterToken, SetJobField;
    if fs == [] {
      assert Lines(fs) + rest == rest;
    } else {
      var f := fs[0];
      assert f in fs;
      var more := Lines(fs[1..]) + rest;
      assert Lines(fs) + rest == Line(f) + more;
      SplitLine(f, more);
      SplitField(f.key, f.value);
      ReadJobStep(j, Line(f) + more);
      ReadJobOf(SetJobField(j, f.key, f.value), fs[1..], rest);
    }
  }

  // ---------------------------------------------------------------- field by field

  lemma SetJobFieldsStep(j: Received, f: Field, fs: seq<Field>)
    ensures SetJobFields(j, [f] + fs) == SetJobFields(SetJobField(j, f.key, f.value), fs)
  {
    assert ([f] + fs)[1..] == fs;
  }

  lemma {:induction false} SetJobFieldsAppend(j: Received, fs: seq<Field>, f: Field)
    ensures SetJobFields(j, fs + [f]) == SetJobField(SetJobFields(j, fs), f.key, f.value)
    decreases |fs|
  {
    hide SetJobField;
    if fs == [] {
      assert fs + [f] == [f] && [f][1..] == [];
    } else {
      assert (fs + [f])[1..] == fs[1..] + [f];
      SetJobFieldsAppend(SetJobField(j, fs[0].key, fs[0].value), fs[1..], f);
    }
  }

  /** The value of the last line with one of two keys. */
  function LastOfTwo(fs: seq<Field>, key: string, other: string): Option<string> {
    if fs == [] then None
    else if fs[|fs| - 1].key == key || fs[|fs| - 1].key == other then Some(fs[|fs| - 1].value)
    else LastOfTwo(fs[..|fs| - 1], key, other)
  }

  function Number(v: Option<string>): Option<int> {
    if v == None then None else Some(Atoi(v.value))
  }

  /** The lines that get_job knows. */
  function Known(fs: seq<Field>): nat {
    if fs == [] then 0
    else Known(fs[..|fs| - 1]) +
         if fs[|fs| - 1].key in {"host_name", "service_description", "type", "result_queue", "check_options",
                                 "scheduled_check", "latency", "next_check", "start_time", "core_time", "timeout",
                                 "command_line", "plugin_output", "long_plugin_output"} then 1 else 0
  }

  lemma JobNameIsSet(j: Received, key: string, value: string)
    ensures var k := SetJobField(j, key, value);
            && k.jobType == (if key == "type" then Some(value) else j.jobType)
            && k.hostName == (if key == "host_name" then Some(value) else j.hostName)
            && k.serviceDescription == (if key == "service_description" then Some(value) else j.serviceDescription)
            && k.resultQueue == (if key == "result_queue" then Some(value) else j.resultQueue)
  {
    hide Atoi;
  }

  lemma JobTextIsSet(j: Received, key: string, value: string)
    ensures var k := SetJobField(j, key, value);
            && k.commandLine == (if key == "command_line" then Some(value) else j.commandLine)
            && k.output == (if key == "plugin_output" then Some(value) else j.output)
            && k.longOutput == (if key == "long_plugin_output" then Some(value) else j.longOutput)
  {
    hide Atoi;
  }

  lemma JobTimeIsSet(j: Received, key: string, value: string)
    ensures var k := SetJobField(j, key, value);
            && k.nextCheck == (if key == "next_check" || key == "start_time" then Some(value) else j.nextCheck)
            && k.coreTime == (if key == "core_time" || key == "start_time" then Some(value) else j.coreTime)
            && k.latency == (if key == "latency" then Some(value) else j.latency)
            && k.timeout == (if key == "timeout" then Atoi(value) else j.timeout)
            && k.checkOptions == (if key == "check_options" then Some(Atoi(value)) else j.checkOptions)
            && k.scheduledCheck == (if key == "scheduled_check" then Atoi(value) else j.scheduledCheck)
  {
    hide Atoi;
  }

  lemma JobLineIsCounted(j: Received, fs: seq<Field>, f: Field)
    requires j.validLines == Known(fs)
    ensures SetJobField(j, f.key, f.value).validLines == Known(fs + [f])
  {
    hide Atoi;
    assert (fs + [f])[..|fs|] == fs;
  }

  lemma LastOfTwoStep(fs: seq<Field>, f: Field, key: string, other: string)
    ensures LastOfTwo(fs + [f], key, other) == if f.key == key || f.key == other then Some(f.value)
                                               else LastOfTwo(fs, key, other)
  {
    assert (fs + [f])[..|fs|] == fs;
  }

  /** All that lines say. */
  lemma {:induction false} JobLinesSay(fs: seq<Field>, jobTimeout: int)
    ensures var j := SetJobFields(Default(jobTimeout), fs);
            && j.jobType == LastValue(fs, "type") && j.hostName == LastValue(fs, "host_name")
            && j.serviceDescription == LastValue(fs, "service_description")
            && j.resultQueue == LastValue(fs, "result_queue") && j.commandLine == LastValue(fs, "command_line")
            && j.output == LastValue(fs, "plugin_output") && j.longOutput == LastValue(fs, "long_plugin_output")
            && j.nextCheck == LastOfTwo(fs, "next_check", "start_time")
            && j.coreTime == LastOfTwo(fs, "core_time", "start_time") && j.latency == LastValue(fs, "latency")
            && j.timeout == LastNumber(fs, "timeout", jobTimeout)
            && j.checkOptions == Number(LastValue(fs, "check_options"))
            && j.scheduledCheck == LastNumber(fs, "scheduled_check", 1)
            && j.validLines == Known(fs)
  {
    hide SetJobFields, SetJobField, Atoi, LastValue, LastOfTwo, Known;
    if fs == [] {
      NoJobLines(Default(jobTimeout));
      NoValues();
    } else {
      var n := |fs| - 1;
      var f := fs[n];
      JobLinesSay(fs[..n], jobTimeout);
      SetJobFieldsAppend(Default(jobTimeout), fs[..n], f);
      assert fs == fs[..n] + [f];
      forall key: string ensures LastValue(fs, key) == if f.key == key then Some(f.value) else LastValue(fs[..n], key) {
        LastValueStep(fs[..n], f, key);
      }
      LastOfTwoStep(fs[..n], f, "next_check", "start_time");
      LastOfTwoStep(fs[..n], f, "core_time", "start_time");
      var j := SetJobFields(Default(jobTimeout), fs[..n]);
      JobNameIsSet(j, f.key, f.value);
      JobTextIsSet(j, f.key, f.value);
      JobTimeIsSet(j, f.key, f.value);
      JobLineIsCounted(j, fs[..n], f);
    }
  }

  lemma NoJobLines(j: Received)
    ensures SetJobFields(j, []) == j && Known([]) == 0 && forall k, l :: LastOfTwo([], k, l) == None
  {
  }

  /** For every job of lines, whatever stands behind an empty line: what get_job reads, field by field. Of a key
      that is repeated the last value counts. */
  lemma JobIsRead(fs: seq<Field>, z: string, jobTimeout: int)
    requires (forall f | f in fs :: Clean(f) && f.value != "") && (z == "" || z[0] == '\n')
    ensures ReadJob(Default(jobTimeout), Lines(fs) + z) ==
            Received(LastValue(fs, "type"), LastValue(fs, "host_name"), LastValue(fs, "service_description"),
                     LastValue(fs, "result_queue"), LastValue(fs, "command_line"),
                     LastOfTwo(fs, "next_check", "start_time"), LastOfTwo(fs, "core_time", "start_time"),
                     LastValue(fs, "latency"), LastValue(fs, "plugin_output"), LastValue(fs, "long_plugin_output"),
                     Number(LastValue(fs, "check_options")), LastNumber(fs, "scheduled_check", 1),
                     LastNumber(fs, "timeout", jobTimeout), Known(fs))
  {
    hide ReadJob, SetJobFields, LastValue, LastNumber, LastOfTwo, Clean, Lines, Known;
    ReadJobOf(Default(jobTimeout), fs, z);
    StopJobAtEmpty(SetJobFields(Default(jobTimeout), fs), z);
    JobLinesSay(fs, jobTimeout);
  }

  // ---------------------------------------------------------------- the last line, whole or cut

  /** The keys of the last lines that are printed. */
  predicate LastKey(key: string) {
    key == "command_line" || key == "long_plugin_output"
  }

  lemma LastKeysAreWords(key: string)
    requires LastKey(key)
    ensures '\n' !in key && '=' !in key
  {
  }

  function Stored(j: Received, key: string): Option<string>
    requires LastKey(key)
  {
    if key == "command_line" then j.commandLine else j.longOutput
  }

  /** The last line cut after `n` characters: without its value it says nothing. */
  lemma LineCut(j: Received, key: string, text: string, n: nat)
    requires LastKey(key) && n <= |key| + 1 + |text|
    ensures var line := (key + "=" + text)[..n];
            && (Ends(AfterToken(line, '=')) <==> n <= |key| + 1)
            && ReadJobLine(j, line) == if n <= |key| + 1 then j else SetJobField(j, key, text[..n - |key| - 1])
  {
    hide SetJobField, TokenEnd, LastKey;
    var line := (key + "=" + text)[..n];
    LastKeysAreWords(key);
    if n > |key| {
      assert line == key + "=" + text[..n - |key| - 1];
      SplitField(key, text[..n - |key| - 1]);
    } else {
      assert line == key[..n];
      TokenWhole(line, '=');
    }
  }

  lemma ReadLastJobLine(j: Received, key: string, text: string, n: nat, z: string)
    requires LastKey(key) && '\n' !in text && n <= |key| + 1 + |text|
    requires z <= "\n\n\n" && (n < |key| + 1 + |text| ==> z == "")
    ensures ReadJob(j, (key + "=" + text)[..n] + z) ==
            if n <= |key| + 1 then j else SetJobField(j, key, text[..n - |key| - 1])
  {
    hide ReadJob, SetJobField, TokenEnd, ReadJobLine, LastKey;
    var line := (key + "=" + text)[..n];
    LineCut(j, key, text, n);
    LastKeysAreWords(key);
    assert '\n' !in line by { assert forall c | c in line :: c in key + "=" + text; }
    ReadJobStep(j, line + z);
    if z == "" {
      assert line + z == line;
      TokenWhole(line, '\n');
    } else {
      TokenOf(line, '\n', z[1..]);
      assert line + z == line + ['\n'] + z[1..];
      StopJobAtEmpty(ReadJobLine(j, line), z[1..]);
    }
  }

  lemma StopJobAtEmpty(j: Received, z: string)
    requires z == "" || z[0] == '\n'
    ensures ReadJob(j, z) == j
  {
    assert TokenEnd(z, '\n') == 0 && Token(z, '\n') == "";
    assert TokenEnd("", '=') == 0;
  }

  lemma SetsOther(j: Received, key: string, value: string, last: string)
    requires LastKey(last) && key != last
    ensures Stored(SetJobField(j, key, value), last) == Stored(j, last)
  {
  }

  /** Lines cut off anywhere before the last one do not set what it sets. */
  lemma {:induction false} CutJobLines(j: Received, fs: seq<Field>, n: nat, last: string)
    requires LastKey(last) && forall f | f in fs :: Clean(f) && f.key != last
    requires n <= |Lines(fs)|
    ensures Stored(ReadJob(j, Lines(fs)[..n]), last) == Stored(j, last)
    decreases |fs|
  {
    hide ReadJob, TokenEnd, SetJobField, Stored;
    if fs == [] {
      assert Lines(fs)[..n] == "";
      StopJobAtEmpty(j, "");
    } else {
      var f, more := fs[0], Lines(fs[1..]);
      assert f in fs;
      var a := f.key + "=" + f.value;
      assert Lines(fs) == Line(f) + more && Line(f) == a + "\n";
      if n <= |a| {
        assert Lines(fs)[..n] == a[..n];
        CutJobLine(j, f, n, last);
      } else {
        var m := n - |a| - 1;
        assert Lines(fs)[..n] == Line(f) + more[..m];
        SplitLine(f, more[..m]);
        SplitField(f.key, f.value);
        ReadJobStep(j, Line(f) + more[..m]);
        SetsOther(j, f.key, f.value, last);
        CutJobLines(SetJobField(j, f.key, f.value), fs[1..], m, last);
      }
    }
  }

  lemma CutJobLine(j: Received, f: Field, n: nat, last: string)
    requires LastKey(last) && Clean(f) && f.key != last && n <= |f.key| + 1 + |f.value|
    ensures Stored(ReadJob(j, (f.key + "=" + f.value)[..n]), last) == Stored(j, last)
  {
    hide ReadJob, SetJobField, TokenEnd, Stored;
    var line := (f.key + "=" + f.value)[..n];
    TokenWhole(line, '\n');
    ReadJobStep(j, line);
    if n > |f.key| {
      var rest := f.value[..n - |f.key| - 1];
      assert line == f.key + "=" + rest;
      SplitField(f.key, rest);
      SetsOther(j, f.key, rest, last);
    } else {
      assert line == f.key[..n];
      TokenWhole(line, '=');
    }
  }

  lemma NotStoredYet(j: Received, fs: seq<Field>, last: string)
    requires LastKey(last) && forall f | f in fs :: Clean(f) && f.value != "" && f.key != last
    ensures Stored(SetJobFields(j, fs), last) == Stored(j, last)
  {
    hide ReadJob, Lines, SetJobFields, Stored;
    var h := Lines(fs);
    CutJobLines(j, fs, |h|, last);
    ReadJobOf(j, fs, "");
    StopJobAtEmpty(SetJobFields(j, fs), "");
    assert h + "" == h[..|h|];
  }

  lemma TextDiffers(j: Received, key: string, text: string, n: nat)
    requires LastKey(key) && n < |text|
    ensures Stored(SetJobField(j, key, text[..n]), key) != Some(text)
    ensures Stored(SetJobField(j, key, text), key) == Some(text)
  {
  }

  /** Lines printed into a buffer of limited size are read as printed if and only if the last one fits. */
  lemma LinesArrive(j: Received, fs: seq<Field>, key: string, text: string, limit: nat)
    requires LastKey(key) && Stored(j, key) == None && Plain(text)
    requires forall f | f in fs :: Clean(f) && f.value != "" && f.key != key
    ensures ReadJob(j, Cut(Lines(fs) + (key + "=" + text) + "\n\n\n", limit)) ==
            SetJobFields(j, fs + [Field(key, text)]) <==>
            |Lines(fs)| + |key| + 1 + |text| <= limit
  {
    hide ReadJob, Lines, SetJobFields, SetJobField, Stored, LastKey;
    var h, l := Lines(fs), key + "=" + text;
    var printed := Cut(h + l + "\n\n\n", limit);
    var seen := SetJobFields(j, fs);
    SetJobFieldsAppend(j, fs, Field(key, text));
    TextDiffers(seen, key, text, 0);
    if limit < |h| {
      assert printed == h[..limit];
      CutJobLines(j, fs, limit, key);
    } else {
      var n := if limit - |h| < |l| then limit - |h| else |l|;
      var z := Cut("\n\n\n", limit - |h| - n);
      assert printed == h + (l[..n] + z);
      ReadJobOf(j, fs, l[..n] + z);
      ReadLastJobLine(seen, key, text, n, z);
      assert text[..|text|] == text;
      NotStoredYet(j, fs, key);
      if |key| + 1 < n < |l| { TextDiffers(seen, key, text, n - |key| - 1); }
    }
  }

  // ---------------------------------------------------------------- what is sent arrives

  lemma HeadIsClean(c: Check)
    requires Sendable(c)
    ensures forall f | f in Head(c) :: Clean(f) && f.value != "" && f.key != "command_line"
  {
    hide IntText, CleanKey;
    JobKeysAreClean();
    NameKeysAreClean();
    assert JobType(c) != "" && '\n' !in JobType(c);
    var t := IntText(c.timeout);
    assert forall d | d in t :: Digit(d) || d == '-';
  }

  lemma JobKeysAreClean()
    ensures CleanKey("type") && CleanKey("result_queue") && CleanKey("target_queue")
    ensures CleanKey("core_time") && CleanKey("timeout")
  {
  }

  lemma NotificationKeysAreClean()
    ensures CleanKey("type") && CleanKey("core_time")
    ensures CleanKey("contact") && CleanKey("plugin_output") && CleanKey("command_line")
  {
  }

  lemma {:induction false} SetJobFieldsConcat(j: Received, a: seq<Field>, b: seq<Field>)
    ensures SetJobFields(j, a + b) == SetJobFields(SetJobFields(j, a), b)
    decreases |a|
  {
    hide SetJobField;
    if a == [] {
      assert a + b == b;
    } else {
      assert (a + b)[1..] == a[1..] + b;
      SetJobFieldsConcat(SetJobField(j, a[0].key, a[0].value), a[1..], b);
    }
  }

  lemma TwoJobFields(j: Received, f: Field, g: Field)
    ensures SetJobFields(j, [f]) == SetJobField(j, f.key, f.value)
    ensures SetJobFields(j, [f, g]) == SetJobField(SetJobField(j, f.key, f.value), g.key, g.value)
  {
    hide SetJobField;
    var j' := SetJobField(j, f.key, f.value);
    assert [f] == [f] + [] && [g] == [g] + [] && [f, g] == [f] + [g];
    SetJobFieldsStep(j, f, []);
    SetJobFieldsStep(j, f, [g]);
    SetJobFieldsStep(j', g, []);
  }

  lemma HeadIsSet(c: Check, jobTimeout: int)
    ensures SetJobField(SetJobFields(Default(jobTimeout), Head(c)), "command_line", c.commandLine) ==
            Expected(c, jobTimeout)
  {
    hide SetJobFields, IntText, Atoi;
    AtoiOfIntText(c.timeout);
    var t, q := Field("type", JobType(c)), Field("result_queue", c.resultQueue);
    var g, h := Field("target_queue", c.targetQueue), Field("host_name", c.hostName);
    var k, m := Field("core_time", c.coreTime), Field("timeout", IntText(c.timeout));
    var j0 := Default(jobTimeout);
    assert Head(c) == ([t, q] + [g, h]) + (ServiceLine(c) + [k, m]);
    SetJobFieldsConcat(j0, [t, q] + [g, h], ServiceLine(c) + [k, m]);
    SetJobFieldsConcat(j0, [t, q], [g, h]);
    TwoJobFields(j0, t, q);
    var j2 := SetJobFields(j0, [t, q]);
    TwoJobFields(j2, g, h);
    var j4 := SetJobFields(j2, [g, h]);
    SetJobFieldsConcat(j4, ServiceLine(c), [k, m]);
    if c.serviceDescription == None {
      SetJobFieldsConcat(j4, [], [k, m]);
      assert [] + [k, m] == [k, m];
      assert ServiceLine(c) + [k, m] == [k, m];
      TwoJobFields(j4, k, m);
    } else {
      var s := Field("service_description", c.serviceDescription.value);
      TwoJobFields(j4, s, s);
      TwoJobFields(SetJobFields(j4, [s]), k, m);
    }
  }

  /** A check reaches the worker as the core has printed it, command and all, if and only if the text
      up to the end of the command fits into the core's buffer. */
  lemma JobArrives(c: Check, jobTimeout: int)
    requires Sendable(c)
    ensures ReadJob(Default(jobTimeout), Print(c)) == Expected(c, jobTimeout) <==>
            |Lines(Head(c))| + |"command_line="| + |c.commandLine| <= GM_MAX_OUTPUT - 2
  {
    hide ReadJob, Lines, Head, SetJobFields, SetJobField, IntText;
    HeadIsClean(c);
    HeadIsSet(c, jobTimeout);
    SetJobFieldsAppend(Default(jobTimeout), Head(c), Field("command_line", c.commandLine));
    assert "command_line" + "=" == "command_line=";
    LinesArrive(Default(jobTimeout), Head(c), "command_line", c.commandLine, GM_MAX_OUTPUT - 2);
  }

  function ExpectedNotification(n: Notification, jobTimeout: int): Received {
    Default(jobTimeout).(jobType := Some("notification"), nextCheck := Some(n.startTime), coreTime := Some(n.coreTime),
                         commandLine := Some(n.commandLine), output := Some(n.output),
                         longOutput := Some(n.longOutput), validLines := 6)
  }

  lemma NotificationIsClean(n: Notification)
    requires NotificationSendable(n)
    ensures forall f | f in NotificationHead(n) :: Clean(f) && f.value != "" && f.key != "long_plugin_output"
  {
    hide CleanKey;
    NotificationKeysAreClean();
    TimeKeysAreClean();
  }

  lemma NotificationIsSet(n: Notification, jobTimeout: int)
    ensures SetJobField(SetJobFields(Default(jobTimeout), NotificationHead(n)), "long_plugin_output", n.longOutput) ==
            ExpectedNotification(n, jobTimeout)
  {
    hide SetJobFields, Atoi;
    var t, s := Field("type", "notification"), Field("start_time", n.startTime);
    var k, c := Field("core_time", n.coreTime), Field("contact", n.contact);
    var l, o := Field("command_line", n.commandLine), Field("plugin_output", n.output);
    var j0 := Default(jobTimeout);
    assert NotificationHead(n) == ([t, s] + [k, c]) + [l, o];
    SetJobFieldsConcat(j0, [t, s] + [k, c], [l, o]);
    SetJobFieldsConcat(j0, [t, s], [k, c]);
    TwoJobFields(j0, t, s);
    var j2 := SetJobFields(j0, [t, s]);
    TwoJobFields(j2, k, c);
    TwoJobFields(SetJobFields(j2, [k, c]), l, o);
  }

  /** A notification with all its texts arrives if and only if it fits up to the end of its last text. */
  lemma NotificationArrives(n: Notification, jobTimeout: int)
    requires NotificationSendable(n)
    ensures ReadJob(Default(jobTimeout), PrintNotification(n)) == ExpectedNotification(n, jobTimeout) <==>
            |Lines(NotificationHead(n))| + |"long_plugin_output="| + |n.longOutput| <= GM_MAX_OUTPUT - 2
  {
    hide ReadJob, Lines, NotificationHead, SetJobFields, SetJobField;
    NotificationIsClean(n);
    NotificationIsSet(n, jobTimeout);
    SetJobFieldsAppend(Default(jobTimeout), NotificationHead(n), Field("long_plugin_output", n.longOutput));
    assert "long_plugin_output" + "=" == "long_plugin_output=";
    LinesArrive(Default(jobTimeout), NotificationHead(n), "long_plugin_output", n.longOutput, GM_MAX_OUTPUT - 2);
  }
}
