/** Where a job goes: set_target_queue in the core module, and the queues a worker registers. */
module Routing {
  import opened CString
  import GroupNames
  import Submission

  const GM_SMALLBUFSIZE := 1024

  datatype CustomVariable = CustomVariable(name: string, value: string)

  /** A host or service: its custom variables, and the existing groups it is a member of. */
  datatype Object = Object(customVariables: seq<CustomVariable>, groups: set<string>)

  datatype Options = Options(
    queueCustVar: Option<string>, localServicegroups: seq<string>, localHostgroups: seq<string>,
    servicegroups: seq<string>, hostgroups: seq<string>,
    hosts: bool, services: bool, events: bool, notifications: bool, routeEventhandlerLikeChecks: bool)

  /** The lists are written by parse_args_line only, which lets nothing else in (GroupNames). */
  ghost predicate Parsed(opt: Options) {
    forall n | n in opt.servicegroups || n in opt.hostgroups :: GroupNames.GroupName(n)
  }

  /** snprintf with the size the program gives it */
  function Print(s: string, size: nat): string
    requires size > 0
  {
    if |s| < size then s else s[..size - 1]
  }

  function Target(s: string): string {
    Print(s, GM_SMALLBUFSIZE - 1)
  }

  // ---------------------------------------------------------------- all queues that could be meant

  const LOCAL := ""

  function CustomQueues(vars: seq<CustomVariable>, name: string): seq<string> {
    if vars == [] then []
    else (if vars[0].name == name then [if vars[0].value == "local" then LOCAL else Target(vars[0].value)] else [])
         + CustomQueues(vars[1..], name)
  }

  /** The groups of a list that the object is in. */
  function Matching(list: seq<string>, groups: set<string>): seq<string> {
    if list == [] then []
    else (if list[0] in groups then [list[0]] else []) + Matching(list[1..], groups)
  }

  function Queues(prefix: string, names: seq<string>): seq<string> {
    if names == [] then [] else [Target(prefix + names[0])] + Queues(prefix, names[1..])
  }

  function Locals(names: seq<string>): seq<string> {
    if names == [] then [] else [LOCAL] + Locals(names[1..])
  }

  function GroupsOf(svc: Option<Object>): set<string> {
    if svc == None then {} else svc.value.groups
  }

  function VarsOf(svc: Option<Object>): seq<CustomVariable> {
    if svc == None then [] else svc.value.customVariables
  }

  function FromVariables(opt: Options, hst: Object, svc: Option<Object>): seq<string> {
    if opt.queueCustVar == None then []
    else CustomQueues(VarsOf(svc), opt.queueCustVar.value) + CustomQueues(hst.customVariables, opt.queueCustVar.value)
  }

  function Generic(opt: Options, svc: Option<Object>): seq<string> {
    if svc.Some? && opt.services then ["service"] else if svc == None && opt.hosts then ["host"] else []
  }

  /** Every queue that some rule asks for, in the order of the rules. */
  function Candidates(opt: Options, hst: Object, svc: Option<Object>): seq<string> {
    FromVariables(opt, hst, svc)
    + Locals(Matching(opt.localServicegroups, GroupsOf(svc)))
    + Locals(Matching(opt.localHostgroups, hst.groups))
    + Queues("servicegroup_", Matching(opt.servicegroups, GroupsOf(svc)))
    + Queues("hostgroup_", Matching(opt.hostgroups, hst.groups))
    + Generic(opt, svc)
  }

  /** The first of them; a job without one stays local. */
  function TargetQueue(opt: Options, hst: Object, svc: Option<Object>): string {
    if Candidates(opt, hst, svc) == [] then LOCAL else Candidates(opt, hst, svc)[0]
  }

  // ---------------------------------------------------------------- which of them it is

  predicate FirstNamed(vars: seq<CustomVariable>, name: string, i: nat) {
    i < |vars| && vars[i].name == name && forall k | 0 <= k < i :: vars[k].name != name
  }

  predicate FirstIn(list: seq<string>, groups: set<string>, i: nat) {
    i < |list| && list[i] in groups && forall k | 0 <= k < i :: list[k] !in groups
  }

  predicate Names(vars: seq<CustomVariable>, name: Option<string>) {
    name.Some? && exists v | v in vars :: v.name == name.value
  }

  predicate Member(list: seq<string>, groups: set<string>) {
    exists n | n in list :: n in groups
  }

  /** The name of a queue is cut after 1022 characters. */
  function QueueName(s: string): string {
    if |s| <= 1022 then s else s[..1022]
  }

  /** What the first variable of a name asks for. */
  predicate ByVariable(vars: seq<CustomVariable>, name: string, q: string) {
    exists i | 0 <= i < |vars| ::
      FirstNamed(vars, name, i) && q == if vars[i].value == "local" then "" else QueueName(vars[i].value)
  }

  /** The queue of the first group of a list that the object is in. */
  predicate ByGroup(list: seq<string>, groups: set<string>, prefix: string, q: string) {
    exists i | 0 <= i < |list| :: FirstIn(list, groups, i) && q == QueueName(prefix + list[i])
  }

  /** The rules, one after the other: the variables of the service, those of the host, the groups whose checks stay
      local, the groups with a queue of their own, and the queues for everything else. */
  predicate Chosen(opt: Options, hst: Object, svc: Option<Object>, q: string) {
    if Names(VarsOf(svc), opt.queueCustVar) then ByVariable(VarsOf(svc), opt.queueCustVar.value, q)
    else if Names(hst.customVariables, opt.queueCustVar) then
      ByVariable(hst.customVariables, opt.queueCustVar.value, q)
    else if Member(opt.localServicegroups, GroupsOf(svc)) || Member(opt.localHostgroups, hst.groups) then q == ""
    else if Member(opt.servicegroups, GroupsOf(svc)) then
      ByGroup(opt.servicegroups, GroupsOf(svc), "servicegroup_", q)
    else if Member(opt.hostgroups, hst.groups) then ByGroup(opt.hostgroups, hst.groups, "hostgroup_", q)
    else if svc.Some? then q == (if opt.services then "service" else "")
    else q == (if opt.hosts then "host" else "")
  }

  lemma {:induction false} FirstVariable(vars: seq<CustomVariable>, name: string)
    ensures CustomQueues(vars, name) == [] <==> !Names(vars, Some(name))
    ensures CustomQueues(vars, name) != [] ==> ByVariable(vars, name, CustomQueues(vars, name)[0])
  {
    if vars != [] {
      FirstVariable(vars[1..], name);
      if vars[0].name == name {
        assert vars[0] in vars && FirstNamed(vars, name, 0);
      } else if CustomQueues(vars[1..], name) != [] {
        var q := CustomQueues(vars[1..], name)[0];
        var i :| 0 <= i < |vars[1..]| && FirstNamed(vars[1..], name, i)
                 && q == if vars[1..][i].value == "local" then "" else QueueName(vars[1..][i].value);
        assert FirstNamed(vars, name, i + 1) by {
          forall k | 0 <= k < i + 1 ensures vars[k].name != name { assert k > 0 ==> vars[1..][k - 1] == vars[k]; }
        }
        assert vars[i + 1] in vars && vars[i + 1] == vars[1..][i];
      }
    }
  }

  lemma {:induction false} FirstGroup(list: seq<string>, groups: set<string>, prefix: string)
    ensures Matching(list, groups) == [] <==> !Member(list, groups)
    ensures Matching(list, groups) != [] ==> ByGroup(list, groups, prefix, Target(prefix + Matching(list, groups)[0]))
  {
    if list != [] {
      FirstGroup(list[1..], groups, prefix);
      if list[0] in groups {
        assert list[0] in list && FirstIn(list, groups, 0);
      } else if Matching(list[1..], groups) != [] {
        var q := Target(prefix + Matching(list[1..], groups)[0]);
        var i :| 0 <= i < |list[1..]| && FirstIn(list[1..], groups, i) && q == QueueName(prefix + list[1..][i]);
        assert FirstIn(list, groups, i + 1) by {
          forall k | 0 <= k < i + 1 ensures list[k] !in groups { assert k > 0 ==> list[1..][k - 1] == list[k]; }
        }
        assert list[i + 1] in list && list[i + 1] == list[1..][i];
      }
    }
  }

  /** The first candidate is what the rules say. */
  lemma FirstCandidate(opt: Options, hst: Object, svc: Option<Object>)
    ensures Chosen(opt, hst, svc, TargetQueue(opt, hst, svc))
  {
    hide CustomQueues, Matching, Queues, Locals, ByVariable, ByGroup, Member, Names, Target;
    var service, name := GroupsOf(svc), opt.queueCustVar;
    var a := FromVariables(opt, hst, svc);
    var b := Locals(Matching(opt.localServicegroups, service));
    var c := Locals(Matching(opt.localHostgroups, hst.groups));
    var d := Queues("servicegroup_", Matching(opt.servicegroups, service));
    var e := Queues("hostgroup_", Matching(opt.hostgroups, hst.groups));
    VariablesInOrder(opt, hst, svc);
    FirstOf(a, b); FirstOf(a + b, c); FirstOf(a + b + c, d); FirstOf(a + b + c + d, e);
    FirstOf(a + b + c + d + e, Generic(opt, svc));
    FirstQueue("", Matching(opt.localServicegroups, service));
    FirstQueue("", Matching(opt.localHostgroups, hst.groups));
    FirstQueue("servicegroup_", Matching(opt.servicegroups, service));
    FirstQueue("hostgroup_", Matching(opt.hostgroups, hst.groups));
    FirstGroup(opt.localServicegroups, service, "");
    FirstGroup(opt.localHostgroups, hst.groups, "");
    FirstGroup(opt.servicegroups, service, "servicegroup_");
    FirstGroup(opt.hostgroups, hst.groups, "hostgroup_");
  }

  lemma VariablesInOrder(opt: Options, hst: Object, svc: Option<Object>)
    ensures var a := FromVariables(opt, hst, svc);
            if Names(VarsOf(svc), opt.queueCustVar) then
              a != [] && ByVariable(VarsOf(svc), opt.queueCustVar.value, a[0])
            else if Names(hst.customVariables, opt.queueCustVar) then
              a != [] && ByVariable(hst.customVariables, opt.queueCustVar.value, a[0])
            else a == []
  {
    hide CustomQueues, ByVariable, VarsOf;
    if opt.queueCustVar.Some? {
      var name := opt.queueCustVar.value;
      FirstVariable(VarsOf(svc), name);
      FirstVariable(hst.customVariables, name);
      FirstOf(CustomQueues(VarsOf(svc), name), CustomQueues(hst.customVariables, name));
    }
  }

  // ---------------------------------------------------------------- the loops

  method FindVariable(vars: seq<CustomVariable>, name: string) returns (found: Option<string>)
    ensures found == if CustomQueues(vars, name) == [] then None else Some(CustomQueues(vars, name)[0])
  {
    var i := 0;
    assert vars[0..] == vars;
    while i < |vars|
      invariant 0 <= i <= |vars| && CustomQueues(vars[i..], name) == CustomQueues(vars, name)
    {
      if vars[i].name == name {
        if vars[i].value == "local" { return Some(LOCAL); }
        return Some(Target(vars[i].value));
      }
      assert vars[i..][1..] == vars[i + 1..];
      i := i + 1;
    }
    assert vars[i..] == [];
    found := None;
  }

  method FindGroup(list: seq<string>, groups: set<string>) returns (found: Option<string>)
    ensures found == if Matching(list, groups) == [] then None else Some(Matching(list, groups)[0])
  {
    var x := 0;
    assert list[0..] == list;
    while x < |list|
      invariant 0 <= x <= |list| && Matching(list[x..], groups) == Matching(list, groups)
    {
      if list[x] in groups { return Some(list[x]); }
      assert list[x..][1..] == list[x + 1..];
      x := x + 1;
    }
    assert list[x..] == [];
    found := None;
  }

  lemma FirstOf(a: seq<string>, b: seq<string>)
    ensures a != [] ==> a + b != [] && (a + b)[0] == a[0]
    ensures a == [] ==> a + b == b
  {
  }

  lemma FirstQueue(prefix: string, names: seq<string>)
    ensures Queues(prefix, names) == [] <==> names == []
    ensures names != [] ==> Queues(prefix, names)[0] == Target(prefix + names[0])
    ensures Locals(names) == [] <==> names == []
    ensures names != [] ==> Locals(names)[0] == LOCAL
  {
  }

  lemma {:induction false} MatchingNone(list: seq<string>)
    ensures Matching(list, {}) == []
  {
    if list != [] { MatchingNone(list[1..]); }
  }

  class Module {
    const opt: Options
    var targetQueue: string

    constructor (opt: Options)
      ensures this.opt == opt && targetQueue == ""
    {
      this.opt, this.targetQueue := opt, "";
    }

    /** The search in the custom variables; the service comes first. */
    method SearchVariables(hst: Object, svc: Option<Object>) returns (found: Option<string>)
      ensures found == var qs := FromVariables(opt, hst, svc); if qs == [] then None else Some(qs[0])
    {
      hide CustomQueues;
      found := None;
      if opt.queueCustVar == None { return; }
      var name := opt.queueCustVar.value;
      FirstOf(CustomQueues(VarsOf(svc), name), CustomQueues(hst.customVariables, name));
      if svc.Some? {
        found := FindVariable(svc.value.customVariables, name);
        if found.Some? { return; }
      } else {
        NoVariables(name);
      }
      found := FindVariable(hst.customVariables, name);
    }

    /** set_target_queue */
    method SetTargetQueue(hst: Object, svc: Option<Object>)
      modifies this
      ensures targetQueue == TargetQueue(opt, hst, svc) && Chosen(opt, hst, svc, targetQueue)
    {
      hide FromVariables, Matching, Queues, Locals, Chosen;
      FirstCandidate(opt, hst, svc);
      targetQueue := "";
      ghost var service := GroupsOf(svc);
      ghost var a := FromVariables(opt, hst, svc);
      ghost var b := Locals(Matching(opt.localServicegroups, service));
      ghost var c := Locals(Matching(opt.localHostgroups, hst.groups));
      ghost var d := Queues("servicegroup_", Matching(opt.servicegroups, service));
      ghost var e := Queues("hostgroup_", Matching(opt.hostgroups, hst.groups));
      ghost var f := Generic(opt, svc);
      FirstOf(a, b); FirstOf(a + b, c); FirstOf(a + b + c, d); FirstOf(a + b + c + d, e); FirstOf(a + b + c + d + e, f);
      FirstQueue("", Matching(opt.localServicegroups, service));
      FirstQueue("", Matching(opt.localHostgroups, hst.groups));
      FirstQueue("servicegroup_", Matching(opt.servicegroups, service));
      FirstQueue("hostgroup_", Matching(opt.hostgroups, hst.groups));
      MatchingNone(opt.localServicegroups);
      MatchingNone(opt.servicegroups);
      var found := SearchVariables(hst, svc);
      if found.Some? {
        targetQueue := found.value;
        return;
      }
      if svc.Some? {
        found := FindGroup(opt.localServicegroups, svc.value.groups);
        if found.Some? { return; }
      }
      found := FindGroup(opt.localHostgroups, hst.groups);
      if found.Some? { return; }
      if svc.Some? {
        found := FindGroup(opt.servicegroups, svc.value.groups);
        if found.Some? {
          targetQueue := Target("servicegroup_" + found.value);
          return;
        }
      }
      found := FindGroup(opt.hostgroups, hst.groups);
      if found.Some? {
        targetQueue := Target("hostgroup_" + found.value);
        return;
      }
      if svc.Some? {
        if opt.services { targetQueue := Target("service"); }
      } else {
        if opt.hosts { targetQueue := Target("host"); }
      }
    }

    /** The queue of an event handler, if it is not run locally. */
    method EventhandlerQueue(hst: Object, svc: Option<Object>) returns (remote: bool)
      modifies this
      ensures targetQueue == EventQueue(opt, hst, svc) && remote == (targetQueue != LOCAL)
      ensures remote == (TargetQueue(opt, hst, svc) != "")
      ensures remote ==>
                targetQueue == if opt.routeEventhandlerLikeChecks && TargetQueue(opt, hst, svc) !in {"host", "service"}
                               then TargetQueue(opt, hst, svc) else "eventhandler"
    {
      hide Chosen, TargetQueue;
      SetTargetQueue(hst, svc);
      if targetQueue == "" { return false; }
      if !opt.routeEventhandlerLikeChecks || targetQueue == "host" || targetQueue == "service" {
        targetQueue := Target("eventhandler");
      }
      remote := true;
    }

    method NotificationsQueue(hst: Object, svc: Option<Object>) returns (remote: bool)
      modifies this
      ensures targetQueue == NotificationQueue(opt, hst, svc) && remote == (targetQueue != LOCAL)
      ensures remote == (TargetQueue(opt, hst, svc) != "") && (remote ==> targetQueue == "notification")
    {
      hide Chosen, TargetQueue;
      SetTargetQueue(hst, svc);
      if targetQueue == "" { return false; }
      targetQueue := Target("notification");
      remote := true;
    }
  }

  lemma NoVariables(name: string)
    ensures CustomQueues([], name) == []
  {
  }

  /** Event handlers follow the checks only into a group's queue. */
  function EventQueue(opt: Options, hst: Object, svc: Option<Object>): string {
    var q := TargetQueue(opt, hst, svc);
    if q == LOCAL then LOCAL
    else if !opt.routeEventhandlerLikeChecks || q == "host" || q == "service" then "eventhandler" else q
  }

  function NotificationQueue(opt: Options, hst: Object, svc: Option<Object>): string {
    if TargetQueue(opt, hst, svc) == LOCAL then LOCAL else "notification"
  }

  // ---------------------------------------------------------------- what workers register

  function GroupQueues(prefix: string, names: seq<string>): seq<string> {
    if names == [] then [] else [Print(prefix + names[0], GM_BUFFERSIZE - 1)] + GroupQueues(prefix, names[1..])
  }

  function Registered(opt: Options): seq<string> {
    (if opt.hosts then ["host"] else []) + (if opt.services then ["service"] else [])
    + (if opt.events then ["eventhandler"] else []) + (if opt.notifications then ["notification"] else [])
    + GroupQueues("hostgroup_", opt.hostgroups) + GroupQueues("servicegroup_", opt.servicegroups)
  }

  /** set_worker: one call of worker_add_function after the other. */
  method SetWorker(opt: Options) returns (queues: seq<string>)
    ensures queues == Registered(opt)
  {
    queues := [];
    if opt.hosts { queues := queues + ["host"]; }
    if opt.services { queues := queues + ["service"]; }
    if opt.events { queues := queues + ["eventhandler"]; }
    if opt.notifications { queues := queues + ["notification"]; }
    var groups := AddGroups("hostgroup_", opt.hostgroups);
    queues := queues + groups;
    groups := AddGroups("servicegroup_", opt.servicegroups);
    queues := queues + groups;
  }

  method AddGroups(prefix: string, names: seq<string>) returns (queues: seq<string>)
    ensures queues == GroupQueues(prefix, names)
  {
    queues := [];
    var x := 0;
    assert names[0..] == names;
    while x < |names|
      invariant 0 <= x <= |names| && queues + GroupQueues(prefix, names[x..]) == GroupQueues(prefix, names)
    {
      assert names[x..][1..] == names[x + 1..];
      queues := queues + [Print(prefix + names[x], GM_BUFFERSIZE - 1)];
      x := x + 1;
    }
    assert names[x..] == [];
  }

  /** Exactly the queues that the options enable. */
  lemma RegisteredQueues(opt: Options, q: string)
    requires Parsed(opt)
    ensures q in Registered(opt) <==>
            || (opt.hosts && q == "host") || (opt.services && q == "service")
            || (opt.events && q == "eventhandler") || (opt.notifications && q == "notification")
            || (exists n | n in opt.hostgroups :: q == "hostgroup_" + n)
            || (exists n | n in opt.servicegroups :: q == "servicegroup_" + n)
  {
    hide GroupQueues;
    OneForEach("hostgroup_", opt.hostgroups, q);
    OneForEach("servicegroup_", opt.servicegroups, q);
  }

  lemma {:induction false} OneForEach(prefix: string, names: seq<string>, q: string)
    requires |prefix| <= 13 && forall n | n in names :: GroupNames.GroupName(n)
    ensures q in GroupQueues(prefix, names) <==> exists n | n in names :: q == prefix + n
  {
    if names != [] {
      OneForEach(prefix, names[1..], q);
      assert names[0] in names && names == [names[0]] + names[1..];
      assert Print(prefix + names[0], GM_BUFFERSIZE - 1) == prefix + names[0];
    }
  }

  // ---------------------------------------------------------------- routing is complete

  lemma {:induction false} GroupIsRegistered(prefix: string, names: seq<string>, name: string)
    requires name in names
    ensures Print(prefix + name, GM_BUFFERSIZE - 1) in GroupQueues(prefix, names)
  {
    if names[0] != name { GroupIsRegistered(prefix, names[1..], name); }
  }

  lemma {:induction false} MatchingIsListed(list: seq<string>, groups: set<string>, name: string)
    requires name in Matching(list, groups)
    ensures name in list && name in groups
  {
    if list[0] !in groups || list[0] != name { MatchingIsListed(list[1..], groups, name); }
  }

  /** The queue of a group: its name is never cut off, on neither side. */
  lemma GroupQueueIsRegistered(prefix: string, list: seq<string>, groups: set<string>)
    requires |prefix| <= 13 && forall n | n in list :: GroupNames.GroupName(n)
    requires Matching(list, groups) != []
    ensures var q := Queues(prefix, Matching(list, groups))[0];
            q in GroupQueues(prefix, list) && |q| <= 13 + GroupNames.MAX_NAME
  {
    hide Matching, GroupQueues;
    var name := Matching(list, groups)[0];
    FirstQueue(prefix, Matching(list, groups));
    MatchingIsListed(list, groups, name);
    GroupIsRegistered(prefix, list, name);
  }

  /** Every check that no custom variable sends elsewhere lies in a queue the workers with the same options
      have registered, under a name that libgearman accepts. */
  lemma CheckQueueIsRegistered(opt: Options, hst: Object, svc: Option<Object>)
    requires Parsed(opt)
    ensures var q := TargetQueue(opt, hst, svc);
            q != LOCAL && FromVariables(opt, hst, svc) == [] ==>
              q in Registered(opt) && |q| < Submission.GEARMAN_FUNCTION_MAX_SIZE
  {
    hide Matching, Queues, Locals, GroupQueues, FromVariables;
    var service := GroupsOf(svc);
    var a := FromVariables(opt, hst, svc);
    var b := Locals(Matching(opt.localServicegroups, service));
    var c := Locals(Matching(opt.localHostgroups, hst.groups));
    var d := Queues("servicegroup_", Matching(opt.servicegroups, service));
    var e := Queues("hostgroup_", Matching(opt.hostgroups, hst.groups));
    FirstOf(a, b); FirstOf(b, c); FirstOf(b + c, d); FirstOf(b + c + d, e); FirstOf(b + c + d + e, Generic(opt, svc));
    FirstQueue("", Matching(opt.localServicegroups, service));
    FirstQueue("", Matching(opt.localHostgroups, hst.groups));
    FirstQueue("servicegroup_", Matching(opt.servicegroups, service));
    FirstQueue("hostgroup_", Matching(opt.hostgroups, hst.groups));
    var q := TargetQueue(opt, hst, svc);
    if q != LOCAL && a == [] {
      assert b == [] && c == [];
      if d != [] {
        GroupQueueIsRegistered("servicegroup_", opt.servicegroups, service);
      } else if e != [] {
        GroupQueueIsRegistered("hostgroup_", opt.hostgroups, hst.groups);
      }
    }
  }

  lemma EventQueueIsRegistered(opt: Options, hst: Object, svc: Option<Object>)
    requires Parsed(opt) && opt.events
    ensures var q := EventQueue(opt, hst, svc);
            q != LOCAL && (FromVariables(opt, hst, svc) == [] || !opt.routeEventhandlerLikeChecks) ==>
              q in Registered(opt) && |q| < Submission.GEARMAN_FUNCTION_MAX_SIZE
  {
    hide TargetQueue, FromVariables;
    CheckQueueIsRegistered(opt, hst, svc);
  }

  lemma NotificationQueueIsRegistered(opt: Options, hst: Object, svc: Option<Object>)
    requires opt.notifications
    ensures var q := NotificationQueue(opt, hst, svc); q != LOCAL ==> q in Registered(opt)
  {
    hide TargetQueue;
  }
}
