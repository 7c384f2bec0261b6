/** The text of a check result: written by send_result_back on the worker, read line by line by
    get_results in the core. */
module ResultMessage {
  import opened CString
  import opened TextCodec


  // ---------------------------------------------------------------- numbers

  predicate Digit(c: char) {
    '0' <= c <= '9'
  }

  function DigitText(n: nat): (s: string)
    ensures s != "" && forall c | c in s :: Digit(c)
    ensures s[0] == '0' ==> n == 0 && s == "0"
  {
    (if n < 10 then "" else DigitText(n / 10)) + ["0123456789"[n % 10]]
  }

  /** printf("%i") */
  function IntText(n: int): (s: string)
    ensures s != "" && forall c | c in s :: Digit(c) || c == '-'
    ensures '-' in s <==> n < 0
  {
    if n < 0 then "-" + DigitText(-n) else DigitText(n)
  }

  function DigitValue(c: char): nat
    requires Digit(c)
  {
    (c as int) - ('0' as int)
  }

  function DigitsValue(s: string, acc: nat): nat {
    if s == "" || !Digit(s[0]) then acc else DigitsValue(s[1..], 10 * acc + DigitValue(s[0]))
  }

  /** atoi: leading spaces, a sign, digits up to the first other character. */
  function Atoi(s: string): int {
    var t := LTrim(s);
    if t != "" && t[0] == '-' then 0 - DigitsValue(t[1..], 0)
    else if t != "" && t[0] == '+' then DigitsValue(t[1..], 0)
    else DigitsValue(t, 0)
  }

  lemma {:induction false} DigitsValueConcat(s: string, c: char, acc: nat)
    requires Digit(c) && forall d | d in s :: Digit(d)
    ensures DigitsValue(s + [c], acc) == 10 * DigitsValue(s, acc) + DigitValue(c)
  {
    if s == "" {
      assert (s + [c])[1..] == "";
    } else {
      assert (s + [c])[1..] == s[1..] + [c];
      DigitsValueConcat(s[1..], c, 10 * acc + DigitValue(s[0]));
    }
  }

  lemma {:induction false} DigitsOf(n: nat)
    ensures DigitsValue(DigitText(n), 0) == n
  {
    var c := "0123456789"[n % 10];
    assert DigitValue(c) == n % 10;
    if n >= 10 {
      DigitsOf(n / 10);
      DigitsValueConcat(DigitText(n / 10), c, 0);
    } else {
      assert DigitText(n) == [c];
      assert DigitsValue([c], 0) == DigitsValue([c][1..], DigitValue(c));
    }
  }

  lemma DigitsStart(n: nat)
    ensures LTrim(DigitText(n)) == DigitText(n) && Digit(DigitText(n)[0])
  {
    hide DigitText, LTrim;
    var s := DigitText(n);
    assert Digit(s[0]) by { assert s[0] in s; }
    LTrimNothing(s);
  }

  lemma AtoiOfIntText(n: int)
    ensures Atoi(IntText(n)) == n
  {
    hide DigitsValue, DigitText;
    if n < 0 {
      DigitsOf(-n);
      var s := IntText(n);
      assert s[0] == '-' && s[1..] == DigitText(-n);
      LTrimNothing(s);
    } else {
      DigitsOf(n);
      DigitsStart(n);
    }
  }

  lemma {:induction false} DigitsUpTo(s: string, rest: string, acc: nat)
    requires (forall c | c in s :: Digit(c)) && (rest == "" || !Digit(rest[0]))
    ensures DigitsValue(s + rest, acc) == DigitsValue(s, acc)
  {
    if s == "" {
      assert s + rest == rest;
    } else {
      assert (s + rest)[1..] == s[1..] + rest && s[0] in s;
      assert forall c | c in s[1..] :: c in s;
      DigitsUpTo(s[1..], rest, 10 * acc + DigitValue(s[0]));
    }
  }

  /** A number is read behind spaces, with or without a sign, up to the first character that is no digit. */
  lemma NumberIsRead(g: string, n: nat, rest: string)
    requires AllSpace(g) && (rest == "" || !('0' <= rest[0] <= '9'))
    ensures Atoi(g + DigitText(n) + rest) == n
    ensures Atoi(g + "+" + DigitText(n) + rest) == n
    ensures Atoi(g + "-" + DigitText(n) + rest) == 0 - n
  {
    hide DigitText, DigitsValue, LTrim, Atoi;
    var d := DigitText(n) + rest;
    DigitsOf(n);
    DigitsUpTo(DigitText(n), rest, 0);
    assert DigitText(n)[0] in DigitText(n);
    assert g + DigitText(n) + rest == g + d;
    assert g + "+" + DigitText(n) + rest == g + ("+" + d);
    assert g + "-" + DigitText(n) + rest == g + ("-" + d);
    AtoiBehind(g, d);
    AtoiBehind(g, "+" + d);
    AtoiBehind(g, "-" + d);
    assert ("+" + d)[1..] == d && ("-" + d)[1..] == d;
  }

  lemma AtoiBehind(g: string, t: string)
    requires AllSpace(g) && t != "" && !IsSpace(t[0])
    ensures Atoi(g + t) == if t[0] == '-' then 0 - DigitsValue(t[1..], 0)
                           else if t[0] == '+' then DigitsValue(t[1..], 0) else DigitsValue(t, 0)
  {
    hide DigitsValue, LTrim;
    LTrimBlank(g, t);
    LTrimNothing(t);
  }

  // ---------------------------------------------------------------- reading

  /** The fields of check_result while a message is read. Timestamps stay in their printed form. */
  datatype Result = Result(
    hostName: Option<string>, serviceDescription: Option<string>, source: Option<string>, output: Option<string>,
    returnCode: int, exitedOk: int, earlyTimeout: int, checkOptions: int, scheduledCheck: int, active: bool,
    coreStartTime: Option<string>, startTime: Option<string>, finishTime: Option<string>, latency: Option<string>)

  const INITIAL := Result(None, None, None, None, 0, 1, 0, 0, 1, true, None, None, None, None)

  /** The if-else chain of get_results for a key with a value. */
  function SetField(r: Result, key: string, value: string): Result {
    if key == "host_name" then r.(hostName := Some(value))
    else if key == "service_description" then r.(serviceDescription := Some(value))
    else if key == "source" then r.(source := Some(value))
    else if key == "check_options" then r.(checkOptions := Atoi(value))
    else if key == "scheduled_check" then r.(scheduledCheck := Atoi(value))
    else if key == "type" && value == "passive" then r.(active := false)
    else if key == "exited_ok" then r.(exitedOk := Atoi(value))
    else if key == "early_timeout" then r.(earlyTimeout := Atoi(value))
    else if key == "return_code" then r.(returnCode := Atoi(value))
    else if key == "core_start_time" then r.(coreStartTime := Some(value))
    else if key == "start_time" then r.(startTime := Some(value))
    else if key == "finish_time" then r.(finishTime := Some(value))
    else if key == "latency" then r.(latency := Some(value))
    else r
  }

  function SetOutput(r: Result, key: string, value: Option<string>): Result {
    if key != "output" then r
    else r.(output := Some(if value == None then "(null)" else Unescape(value.value)))
  }

  predicate Ends(value: Option<string>) {
    value == None || value.value == ""
  }

  /** One line; the loop ends at a line without a value. */
  function ReadLine(r: Result, line: string): Result {
    var key, value := Token(line, '='), AfterToken(line, '=');
    var r' := SetOutput(r, key, value);
    if Ends(value) then r' else SetField(r', key, value.value)
  }

  function ReadLines(r: Result, text: string): Result
    decreases |text|
  {
    var line, rest := Token(text, '\n'), AfterToken(text, '\n');
    var r' := ReadLine(r, line);
    if Ends(AfterToken(line, '=')) || rest == None then r' else ReadLines(r', rest.value)
  }

  /** The source is not copied but points into the buffer of get_results, which is freed as soon as the
      result is in the list. */
  datatype Source = Null | Dangling

  /** What the core gets. */
  datatype CheckResult = CheckResult(
    hostName: string, serviceDescription: Option<string>, source: Source, output: string,
    returnCode: int, exitedOk: int, earlyTimeout: int, checkOptions: int, scheduledCheck: int, active: bool,
    coreStartTime: Option<string>, startTime: Option<string>, finishTime: Option<string>, latency: Option<string>)

  /** The end of get_results. The mask for check_options is the logical, not the bitwise, complement of a
      flag, so nothing of them is left. */
  function HandOver(r: Result): CheckResult
    requires r.hostName.Some? && r.output.Some?
  {
    CheckResult(r.hostName.value, r.serviceDescription, if r.source == None then Null else Dangling, r.output.value,
                r.returnCode, r.exitedOk, r.earlyTimeout, 0, r.scheduledCheck, r.active,
                r.coreStartTime, r.startTime, r.finishTime, r.latency)
  }

  /** What reaches the core: results without a host or an output are discarded. */
  function Receive(text: string): Option<CheckResult> {
    var r := ReadLines(INITIAL, text);
    if r.hostName == None || r.output == None then None else Some(HandOver(r))
  }

  /** One of the lines that are read gives a source. */
  predicate NamesSource(text: string)
    decreases |text|
  {
    var line, rest := Token(text, '\n'), AfterToken(text, '\n');
    && !Ends(AfterToken(line, '='))
    && (Token(line, '=') == "source" || (rest.Some? && NamesSource(rest.value)))
  }

  lemma SourceOfLine(r: Result, line: string)
    ensures ReadLine(r, line).source != None <==>
            r.source != None || (!Ends(AfterToken(line, '=')) && Token(line, '=') == "source")
  {
    hide TokenEnd, Unescape, Atoi, Token, AfterToken;
  }

  lemma {:induction false} SourceIsRead(r: Result, text: string)
    ensures ReadLines(r, text).source != None <==> r.source != None || NamesSource(text)
    decreases |text|
  {
    hide TokenEnd, ReadLine, ReadLines, Token;
    var line, rest := Token(text, '\n'), AfterToken(text, '\n');
    ReadLinesStep(r, text);
    SourceOfLine(r, line);
    if !Ends(AfterToken(line, '=')) && rest.Some? { SourceIsRead(ReadLine(r, line), rest.value); }
  }

  /** The core is handed a dangling source if and only if the message names one. */
  lemma SourceDangles(text: string)
    requires Receive(text).Some?
    ensures Receive(text).value.source == Dangling <==> NamesSource(text)
  {
    hide ReadLines, NamesSource;
    SourceIsRead(INITIAL, text);
  }

  /** What get_results stores for an output line. */
  method ReadOutput(value: Option<string>) returns (output: string)
    ensures output == if value == None then "(null)" else Unescape(value.value)
  {
    if value == None { return "(null)"; }
    var tmp_newline := ReplaceStr(value.value, "\\n", "\n");
    output := tmp_newline[..tmp_newline.Length - 1];
    assert tmp_newline[..] == Unescape(value.value) + [NUL];
  }

  /** What get_results does with a line that has been split. */
  method StoreLine(r: Result, ghost line: string, key: string, value: Option<string>) returns (r': Result, last: bool)
    requires key == Token(line, '=') && value == AfterToken(line, '=')
    ensures r' == ReadLine(r, line) && last == Ends(value)
  {
    hide TokenEnd, SetField, Unescape;
    r' := r;
    if key == "output" {
      var output := ReadOutput(value);
      r' := r'.(output := Some(output));
    }
    last := value == None || value.value == "";
    if !last { r' := SetField(r', key, value.value); }
  }

  /** The loop of get_results, which cuts the received buffer into pieces. */
  method GetResults(buf: array<char>) returns (result: Option<CheckResult>)
    requires NUL in buf[..]
    modifies buf
    ensures result == Receive(old(CStr(buf[..])))
  {
    hide ReadLines, CStr, TokenEnd, ReadLine;
    ghost var text := CStr(buf[..]);
    assert buf[0..] == buf[..];
    var chk_result, data, last := INITIAL, 0, false;
    while data != -1 && !last
      invariant -1 <= data < buf.Length
      invariant !last && data >= 0 ==> NUL in buf[data..]
      invariant !last && data >= 0 ==> ReadLines(chk_result, CStr(buf[data..])) == ReadLines(INITIAL, text)
      invariant last || data == -1 ==> chk_result == ReadLines(INITIAL, text)
      decreases if data == -1 then 0 else buf.Length - data, !last
    {
      ReadLinesStep(chk_result, CStr(buf[data..]));
      ghost var line := Token(CStr(buf[data..]), '\n');
      var key, value;
      key, value, data := NextLine(buf, data);
      chk_result, last := StoreLine(chk_result, line, key, value);
    }
    if chk_result.hostName == None || chk_result.output == None { return None; }
    result := Some(HandOver(chk_result));
  }

  lemma ReadLinesStep(r: Result, text: string)
    ensures var line, rest := Token(text, '\n'), AfterToken(text, '\n');
            ReadLines(r, text) ==
            if Ends(AfterToken(line, '=')) || rest == None then ReadLine(r, line)
            else ReadLines(ReadLine(r, line), rest.value)
  {
  }
}
