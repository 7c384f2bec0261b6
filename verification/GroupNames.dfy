/** The lists of group names in the options, as parse_args_line reads them from a comma separated value. */
module GroupNames {
  import opened CString

  const MAX_NAME := 50

  /** What the lists may hold. */
  predicate GroupName(name: string) {
    0 < |name| <= MAX_NAME && ',' !in name && !IsSpace(name[0]) && !IsSpace(name[|name| - 1])
  }

  /** Empty names are skipped, and so are those over the limit. */
  function NamesOf(token: string): seq<string> {
    var name := Trimmed(token);
    if name == "" || |name| > MAX_NAME then [] else [name]
  }

  function Names(value: string): seq<string>
    decreases |value|
  {
    var rest := AfterToken(value, ',');
    NamesOf(Token(value, ',')) + if rest == None then [] else Names(rest.value)
  }

  /** Nothing else ever gets into a list. */
  lemma {:induction false} OnlyGroupNames(value: string, name: string)
    requires name in Names(value)
    ensures GroupName(name)
    decreases |value|
  {
    hide TokenEnd, Trimmed;
    var rest := AfterToken(value, ',');
    if name !in NamesOf(Token(value, ',')) { OnlyGroupNames(rest.value, name); }
  }

  /** One entry of a list as it is written: a text between spaces. */
  datatype Entry = Entry(before: string, name: string, after: string)

  predicate Written(e: Entry) {
    AllSpace(e.before) && AllSpace(e.after) && Tight(e.name) && ',' !in e.name
  }

  function Value(es: seq<Entry>): string
    requires es != []
  {
    var token := es[0].before + es[0].name + es[0].after;
    if |es| == 1 then token else token + "," + Value(es[1..])
  }

  /** The names among the entries. */
  function NamesIn(es: seq<Entry>): seq<string> {
    if es == [] then [] else (if 0 < |es[0].name| <= 50 then [es[0].name] else []) + NamesIn(es[1..])
  }

  lemma NamesOfEntry(e: Entry)
    requires Written(e)
    ensures NamesOf(e.before + e.name + e.after) == if 0 < |e.name| <= 50 then [e.name] else []
    ensures ',' !in e.before + e.name + e.after
  {
    hide Trimmed, Tight;
    TrimmedText(e.before, e.name, e.after);
    assert forall c | c in e.before || c in e.after :: IsSpace(c);
  }

  /** A list written with commas, and with any spaces around its names, is read back, but for what is empty
      or has more than 50 characters. */
  lemma {:induction false} NamesOfValue(es: seq<Entry>)
    requires es != [] && forall e | e in es :: Written(e)
    ensures Names(Value(es)) == NamesIn(es)
  {
    hide TokenEnd, NamesOf, Written;
    var e := es[0];
    var token := e.before + e.name + e.after;
    NamesOfEntry(e);
    if |es| == 1 {
      TokenWhole(token, ',');
    } else {
      NamesOfValue(es[1..]);
      assert Value(es) == token + [','] + Value(es[1..]);
      TokenOf(token, ',', Value(es[1..]));
    }
  }

  /** The trimmed token, copied. */
  method TrimmedName(buf: array<char>, token: nat) returns (name: string)
    requires token < buf.Length && NUL in buf[token..]
    modifies buf
    ensures name == Trimmed(old(CStr(buf[token..])))
    ensures forall i | 0 <= i < buf.Length && (i < token || token + |old(CStr(buf[token..]))| <= i) ::
              buf[i] == old(buf[i])
  {
    hide CStr, Trimmed;
    var start := TrimInPlace(buf, token);
    var end := StrLen(buf, start);
    name := buf[start..end];
  }

  /** Adds the next name, if it is one; `next` is -1 behind the last. */
  method AddName(buf: array<char>, value: nat, list: seq<string>) returns (list': seq<string>, next: int)
    requires value < buf.Length && NUL in buf[value..]
    modifies buf
    ensures list' == list + NamesOf(Token(old(CStr(buf[value..])), ','))
    ensures var rest := AfterToken(old(CStr(buf[value..])), ',');
            if rest == None then next == -1
            else value < next < buf.Length && NUL in buf[next..] && CStr(buf[next..]) == rest.value
  {
    hide CStr, TokenEnd, Trimmed;
    next := StrSep(buf, value, ',');
    ghost var tail := if next == -1 then [] else buf[next..];
    NulAfter(buf[value..]);
    var name := TrimmedName(buf, value);
    assert next != -1 ==> buf[next..] == tail;
    list' := if name == "" || |name| > MAX_NAME then list else list + [name];
  }

  /** The loop for servicegroups and for hostgroups; `start` is -1 for an option without a value. */
  method AddGroupNames(buf: array<char>, start: int, list: seq<string>) returns (list': seq<string>)
    requires start == -1 || (0 <= start < buf.Length && NUL in buf[start..])
    modifies buf
    ensures list' == list + if start == -1 then [] else Names(old(CStr(buf[start..])))
    ensures (forall n | n in list :: GroupName(n)) ==> forall n | n in list' :: GroupName(n)
  {
    hide CStr, TokenEnd, NamesOf, Names, GroupName;
    ghost var all := if start == -1 then [] else Names(CStr(buf[start..]));
    var value := start;
    list' := list;
    while value != -1
      invariant value == -1 || (0 <= value < buf.Length && NUL in buf[value..])
      invariant list' + (if value == -1 then [] else Names(CStr(buf[value..]))) == list + all
      decreases if value == -1 then 0 else buf.Length - value
    {
      NamesStep(CStr(buf[value..]));
      list', value := AddName(buf, value, list');
    }
    forall n | n in all ensures GroupName(n) {
      OnlyGroupNames(old(CStr(buf[start..])), n);
    }
  }

  lemma NamesStep(value: string)
    ensures var rest := AfterToken(value, ',');
            Names(value) == NamesOf(Token(value, ',')) + if rest == None then [] else Names(rest.value)
  {
  }
}
