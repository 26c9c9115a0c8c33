/** Which log streams are wanted, and in which order. */
module Targets {
  import opened Sequences
  import opened Text
  import opened Names

  datatype Task = Task(service: string, allocId: string, name: string)

  datatype Target = Target(task: Task, stream: string)

  function Key(t: Target): string {
    t.task.allocId + "/" + t.task.name + "/" + t.stream
  }

  function ShortId(id: string): string {
    if |id| > 8 then id[..8] else id
  }

  function Label(t: Target): string {
    t.task.service + "/" + t.task.name + " " + t.stream + " (" + ShortId(t.task.allocId) + ")"
  }

  /** The part of a text up to its last slash, and the part after it, are told by the
      text. */
  lemma LastSlash(a: string, s: string, b: string, t: string)
    requires '/' !in s && '/' !in t && a + "/" + s == b + "/" + t
    ensures a == b && s == t
  {
    var x := a + "/" + s;
    assert x[|a|] == '/' && x[|b|] == '/';
    assert forall i :: |a| < i < |x| ==> x[i] == s[i - |a| - 1] && x[i] in s;
    assert forall i :: |b| < i < |x| ==> x[i] == t[i - |b| - 1] && x[i] in t;
    assert a == x[..|a|] && b == x[..|b|] && s == x[|a| + 1..] && t == x[|b| + 1..];
  }

  lemma FirstSlash(a: string, s: string, b: string, t: string)
    requires '/' !in a && '/' !in b && a + "/" + s == b + "/" + t
    ensures a == b && s == t
  {
    var x := a + "/" + s;
    assert x[|a|] == '/' && x[|b|] == '/';
    assert forall i :: 0 <= i < |a| ==> x[i] == a[i] && x[i] in a;
    assert forall i :: 0 <= i < |b| ==> x[i] == b[i] && x[i] in b;
    assert a == x[..|a|] && b == x[..|b|] && s == x[|a| + 1..] && t == x[|b| + 1..];
  }

  /** The stream that a target is: of the same allocation, task and name. */
  predicate SameStream(a: Target, b: Target) {
    a.task.allocId == b.task.allocId && a.task.name == b.task.name && a.stream == b.stream
  }

  /** An allocation and a stream without a slash in their names. */
  predicate Slashless(t: Target) {
    '/' !in t.task.allocId && '/' !in t.stream
  }

  /** Keys tell streams apart, whatever the task's name, if neither the allocation's
      nor the stream's has a slash in it. */
  lemma KeysTellApart(a: Target, b: Target)
    requires Slashless(a) && Slashless(b)
    ensures Key(a) == Key(b) <==> SameStream(a, b)
  {
    if Key(a) == Key(b) {
      assert Key(a) == (a.task.allocId + "/" + a.task.name) + "/" + a.stream;
      LastSlash(a.task.allocId + "/" + a.task.name, a.stream, b.task.allocId + "/" + b.task.name, b.stream);
      FirstSlash(a.task.allocId, a.task.name, b.task.allocId, b.task.name);
    }
  }

  lemma NoRepeatsSnoc<T>(s: seq<T>, x: T)
    requires NoRepeats(s)
    ensures NoRepeats(s + [x]) <==> x !in s
  {
    if x in s {
      var i :| 0 <= i < |s| && s[i] == x;
      assert (s + [x])[i] == (s + [x])[|s|];
    }
  }

  // ----- service lists

  /** The names that come first in the given list, each once, that are in a set. */
  function Firsts(names: seq<string>, within: set<string>, seen: set<string>): seq<string> {
    if names == [] then []
    else if names[0] in within && names[0] !in seen then
      [names[0]] + Firsts(names[1..], within, seen + {names[0]})
    else Firsts(names[1..], within, seen)
  }

  lemma {:induction false} FirstsExact(names: seq<string>, within: set<string>, seen: set<string>)
    ensures forall s :: s in Firsts(names, within, seen) <==> s in names && s in within && s !in seen
    ensures NoRepeats(Firsts(names, within, seen))
  {
    if names != [] {
      if names[0] in within && names[0] !in seen {
        FirstsExact(names[1..], within, seen + {names[0]});
        var rest := Firsts(names[1..], within, seen + {names[0]});
        assert forall i :: 0 <= i < |rest| ==> rest[i] in rest;
      } else {
        FirstsExact(names[1..], within, seen);
      }
    }
  }

  function Members(s: seq<string>): set<string> {
    set x | x in s
  }

  function Filtered(services: seq<string>, allowlist: seq<string>): seq<string> {
    if allowlist == [] then services else Firsts(allowlist, Members(services), {})
  }

  function Prioritized(services: seq<string>, priority: seq<string>): seq<string> {
    if priority == [] then services
    else
      var first := Firsts(priority, Members(services), {});
      first + Only(services, (s: string) => s !in first)
  }

  lemma {:induction false} FirstsSnoc(names: seq<string>, name: string, within: set<string>, seen: set<string>)
    ensures Firsts(names + [name], within, seen) ==
            var before := Firsts(names, within, seen);
            before + if name in within && name !in seen && name !in before then [name] else []
  {
    if names == [] {
      assert [] + [name] == [name] && [name][1..] == [];
    } else {
      assert (names + [name])[1..] == names[1..] + [name];
      if names[0] in within && names[0] !in seen {
        FirstsSnoc(names[1..], name, within, seen + {names[0]});
      } else {
        FirstsSnoc(names[1..], name, within, seen);
      }
    }
  }

  method FilterServices(services: seq<string>, allowlist: seq<string>) returns (filtered: seq<string>)
    ensures filtered == Filtered(services, allowlist)
  {
    if |allowlist| == 0 {
      return services;
    }
    var running: set<string> := set s | s in services;
    var seen: set<string> := {};
    filtered := [];
    for i := 0 to |allowlist|
      invariant filtered == Firsts(allowlist[..i], running, {})
      invariant seen == Members(filtered)
    {
      var service := allowlist[i];
      FirstsSnoc(allowlist[..i], service, running, {});
      assert allowlist[..i + 1] == allowlist[..i] + [service];
      if service in running && service !in seen {
        filtered := filtered + [service];
        seen := seen + {service};
      }
    }
    assert allowlist[..|allowlist|] == allowlist;
  }

  method PrioritizeServices(services: seq<string>, priority: seq<string>) returns (ordered: seq<string>)
    ensures ordered == Prioritized(services, priority)
  {
    if |priority| == 0 {
      return services;
    }
    ordered := FilterServices(services, priority);
    ghost var first := ordered;
    var seen: set<string> := set s | s in ordered;
    var later := (s: string) => s !in first;
    for i := 0 to |services|
      invariant ordered == first + Only(services[..i], later)
    {
      OnlyAppend(services[..i], [services[i]], later);
      OnlyOne(services[i], later);
      assert services[..i + 1] == services[..i] + [services[i]];
      if services[i] !in seen {
        ordered := ordered + [services[i]];
      }
    }
    assert services[..|services|] == services;
  }

  function Trimmed(services: seq<string>): (r: seq<string>)
    ensures |r| == |services|
  {
    seq(|services|, i requires 0 <= i < |services| => TrimSpace(services[i]))
  }

  /** An allowlist as it is kept: names trimmed, none empty, each once. */
  function Cleaned(services: seq<string>): seq<string> {
    Firsts(Trimmed(services), Members(Trimmed(services)) - {""}, {})
  }

  method CleanServiceList(services: seq<string>) returns (cleaned: seq<string>)
    ensures cleaned == Cleaned(services)
  {
    hide TrimSpace;
    ghost var all := Trimmed(services);
    ghost var within := Members(all) - {""};
    cleaned := [];
    var seen: set<string> := {};
    for i := 0 to |services|
      invariant cleaned == Firsts(all[..i], within, {})
      invariant seen == Members(cleaned)
    {
      var service := TrimSpace(services[i]);
      assert all[i] == service && all[i] in all;
      FirstsSnoc(all[..i], service, within, {});
      assert all[..i + 1] == all[..i] + [service];
      if service == "" || service in seen {
        continue;
      }
      seen := seen + {service};
      cleaned := cleaned + [service];
    }
    assert all[..|services|] == all;
  }

  /** The kept allowlist names exactly what the given one names. */
  lemma CleanedExact(services: seq<string>)
    ensures NoRepeats(Cleaned(services)) && InOrderOf(Trimmed(services), Cleaned(services))
    ensures forall s :: s in Cleaned(services) <==> s != "" && exists i :: 0 <= i < |services| && TrimSpace(services[i]) == s
  {
    hide TrimSpace, InOrderOf;
    var all := Trimmed(services);
    FirstsExact(all, Members(all) - {""}, {});
    FirstsInOrder(all, Members(all) - {""}, {});
    forall s ensures s in all <==> exists i :: 0 <= i < |services| && TrimSpace(services[i]) == s {
      if s in all {
        var i :| 0 <= i < |all| && all[i] == s;
        assert TrimSpace(services[i]) == s;
      }
      if i :| 0 <= i < |services| && TrimSpace(services[i]) == s {
        assert all[i] == s;
      }
    }
  }

  /** Filtering keeps exactly the running services the allowlist names, and an
      empty allowlist keeps all. */
  lemma FilteredExact(services: seq<string>, allowlist: seq<string>)
    requires NoRepeats(services)
    ensures NoRepeats(Filtered(services, allowlist))
    ensures forall s :: s in Filtered(services, allowlist) <==> s in services && (allowlist == [] || s in allowlist)
  {
    if allowlist != [] {
      FirstsExact(allowlist, Members(services), {});
    }
  }

  /** Prioritizing loses and adds no service, and puts every service the priority
      list names before every other. */
  lemma PrioritizedExact(services: seq<string>, priority: seq<string>)
    requires NoRepeats(services)
    ensures NoRepeats(Prioritized(services, priority))
    ensures forall s :: s in Prioritized(services, priority) <==> s in services
    ensures var r := Prioritized(services, priority);
            forall i, j :: 0 <= i < |r| && 0 <= j < |r| ==> (r[i] in priority && r[j] !in priority ==> i < j)
  {
    if priority != [] {
      FirstsExact(priority, Members(services), {});
      var first := Firsts(priority, Members(services), {});
      var later := (s: string) => s !in first;
      OnlyMembers(services, later);
      OnlyNoRepeats(services, later);
      var rest := Only(services, later);
      assert forall i :: 0 <= i < |first| ==> first[i] in first;
      assert forall i :: 0 <= i < |rest| ==> rest[i] in rest;
    }
  }

  lemma {:induction false} OnlyNoRepeats<T>(s: seq<T>, p: T -> bool)
    requires NoRepeats(s)
    ensures NoRepeats(Only(s, p))
  {
    if s != [] {
      OnlyNoRepeats(s[1..], p);
      var rest := Only(s[1..], p);
      forall i | 0 <= i < |rest| ensures rest[i] in s[1..] {
        OnlyMember(s[1..], p, i);
      }
    }
  }

  /** Whether one name comes before another for the first time. */
  predicate Before(names: seq<string>, a: string, b: string) {
    exists p | 0 <= p < |names| :: names[p] == a && b !in names[..p + 1]
  }

  lemma BeforeCons(name: string, names: seq<string>, a: string, b: string)
    ensures name == a && b != a ==> Before([name] + names, a, b)
    ensures name != b && Before(names, a, b) ==> Before([name] + names, a, b)
  {
    var all := [name] + names;
    if name == a && b != a {
      assert all[0] == a && all[..0 + 1] == [name];
    }
    if name != b && Before(names, a, b) {
      var p :| 0 <= p < |names| && names[p] == a && b !in names[..p + 1];
      assert all[p + 1] == a && all[..p + 1 + 1] == [name] + names[..p + 1];
    }
  }

  /** A list in which no name comes before one that is before it in another list. */
  predicate InOrderOf(names: seq<string>, r: seq<string>) {
    forall i, j :: 0 <= i < j < |r| ==> Before(names, r[i], r[j])
  }

  lemma NextInOrder(name: string, names: seq<string>, rest: seq<string>)
    requires InOrderOf(names, rest) && name !in rest
    ensures InOrderOf([name] + names, rest) && InOrderOf([name] + names, [name] + rest)
  {
    hide Before;
    forall i, j | 0 <= i < j < |rest| ensures Before([name] + names, rest[i], rest[j]) {
      assert rest[j] in rest;
      BeforeCons(name, names, rest[i], rest[j]);
    }
    forall j | 0 <= j < |rest| ensures Before([name] + names, name, rest[j]) {
      assert rest[j] in rest;
      BeforeCons(name, names, name, rest[j]);
    }
  }

  lemma {:induction false} FirstsInOrder(names: seq<string>, within: set<string>, seen: set<string>)
    ensures InOrderOf(names, Firsts(names, within, seen))
  {
    hide Before, InOrderOf;
    if names == [] {
      NoneInOrder(names);
    } else {
      var next := if names[0] in within && names[0] !in seen then seen + {names[0]} else seen;
      FirstsInOrder(names[1..], within, next);
      FirstsExact(names[1..], within, next);
      assert names == [names[0]] + names[1..];
      NextInOrder(names[0], names[1..], Firsts(names[1..], within, next));
    }
  }

  lemma NoneInOrder(names: seq<string>)
    ensures InOrderOf(names, [])
  {
  }

  lemma {:induction false} OnlyInOrder(names: seq<string>, p: string -> bool)
    requires NoRepeats(names)
    ensures InOrderOf(names, Only(names, p))
  {
    hide Before, InOrderOf;
    if names == [] {
      NoneInOrder(names);
    } else {
      OnlyInOrder(names[1..], p);
      OnlyMembers(names[1..], p);
      assert names == [names[0]] + names[1..] && names[0] !in names[1..];
      NextInOrder(names[0], names[1..], Only(names[1..], p));
      assert [] + Only(names[1..], p) == Only(names[1..], p);
    }
  }

  /** Services come in the order of the allowlist, if there is one. */
  lemma FilteredInOrder(services: seq<string>, allowlist: seq<string>)
    ensures if allowlist == [] then Filtered(services, allowlist) == services
            else InOrderOf(allowlist, Filtered(services, allowlist))
  {
    hide InOrderOf, Firsts;
    FirstsInOrder(allowlist, Members(services), {});
  }

  /** Priority services come first, in the order of the priority list, and then the
      others in the order they were in. */
  lemma PrioritizedInOrder(services: seq<string>, priority: seq<string>) returns (n: nat)
    requires NoRepeats(services)
    ensures var r := Prioritized(services, priority);
            && n <= |r| && InOrderOf(priority, r[..n]) && InOrderOf(services, r[n..])
            && (forall s :: s in r[..n] ==> s in priority) && (forall s :: s in r[n..] ==> s !in priority)
  {
    hide InOrderOf, Firsts, Only;
    if priority == [] {
      n := 0;
      OnlyInOrder(services, (s: string) => true);
      OnlyEvery(services);
      NoneInOrder(priority);
      assert services[..0] == [] && services[0..] == services;
    } else {
      var first := Firsts(priority, Members(services), {});
      var later := (s: string) => s !in first;
      n := |first|;
      FirstsInOrder(priority, Members(services), {});
      FirstsExact(priority, Members(services), {});
      OnlyInOrder(services, later);
      OnlyMembers(services, later);
      var r := first + Only(services, later);
      assert r[..n] == first && r[n..] == Only(services, later);
    }
  }

  lemma {:induction false} OnlyEvery(names: seq<string>)
    ensures Only(names, (s: string) => true) == names
  {
    if names != [] {
      OnlyEvery(names[1..]);
    }
  }

  // ----- services of tasks

  function ServicesOf(tasks: seq<Task>): (r: seq<string>)
    ensures |r| == |tasks|
  {
    seq(|tasks|, i requires 0 <= i < |tasks| => tasks[i].service)
  }

  function ServiceNames(tasks: seq<Task>): seq<string> {
    SortNames(Firsts(ServicesOf(tasks), Members(ServicesOf(tasks)), {}))
  }

  lemma ServiceNamesExact(tasks: seq<Task>)
    ensures InNameOrder(ServiceNames(tasks)) && NoRepeats(ServiceNames(tasks))
    ensures forall s :: s in ServiceNames(tasks) <==> exists t :: t in tasks && t.service == s
  {
    var all := ServicesOf(tasks);
    var names := Firsts(all, Members(all), {});
    FirstsExact(all, Members(all), {});
    SortNamesKeeps(names);
    forall s | s in names ensures exists t :: t in tasks && t.service == s {
      var i :| 0 <= i < |all| && all[i] == s;
      assert tasks[i] in tasks;
    }
    forall t | t in tasks ensures t.service in names {
      var i :| 0 <= i < |tasks| && tasks[i] == t;
      assert all[i] == t.service;
    }
  }

  // ----- tasks by rank

  function RankOf(services: seq<string>, service: string): nat
    requires service in services
  {
    if services[0] == service then 0 else 1 + RankOf(services[1..], service)
  }

  predicate AllRanked(services: seq<string>, tasks: seq<Task>) {
    forall t :: t in tasks ==> t.service in services
  }

  /** Inserting before the first task that ranks no lower. */
  function InsertRanked(services: seq<string>, task: Task, tasks: seq<Task>): (r: seq<Task>)
    requires task.service in services && AllRanked(services, tasks)
    ensures AllRanked(services, r)
  {
    if tasks == [] || RankOf(services, task.service) <= RankOf(services, tasks[0].service) then [task] + tasks
    else [tasks[0]] + InsertRanked(services, task, tasks[1..])
  }

  /** A stable sort by rank. */
  function SortRanked(services: seq<string>, tasks: seq<Task>): (r: seq<Task>)
    requires AllRanked(services, tasks)
    ensures AllRanked(services, r)
  {
    if tasks == [] then [] else InsertRanked(services, tasks[0], SortRanked(services, tasks[1..]))
  }

  function OfService(tasks: seq<Task>, service: string): seq<Task> {
    Only(tasks, (t: Task) => t.service == service)
  }

  /** The tasks of each service in turn, in the order they came. */
  function ByService(services: seq<string>, tasks: seq<Task>): seq<Task> {
    if services == [] then [] else OfService(tasks, services[0]) + ByService(services[1..], tasks)
  }

  lemma {:induction false} ByServiceMembers(services: seq<string>, tasks: seq<Task>)
    ensures forall t :: t in ByService(services, tasks) <==> t in tasks && t.service in services
  {
    if services != [] {
      OnlyMembers(tasks, (t: Task) => t.service == services[0]);
      ByServiceMembers(services[1..], tasks);
    }
  }

  lemma {:induction false} RankAfter(done: seq<string>, rest: seq<string>, service: string)
    requires service in rest && service !in done
    ensures RankOf(done + rest, service) == |done| + RankOf(rest, service)
  {
    if done == [] {
      assert done + rest == rest;
    } else {
      assert (done + rest)[1..] == done[1..] + rest;
      RankAfter(done[1..], rest, service);
    }
  }

  /** Inserting passes over tasks that rank higher. */
  lemma {:induction false} InsertPasses(services: seq<string>, task: Task, a: seq<Task>, b: seq<Task>)
    requires task.service in services && AllRanked(services, a + b) && AllRanked(services, b) && AllRanked(services, a)
    requires forall t :: t in a ==> RankOf(services, t.service) < RankOf(services, task.service)
    ensures InsertRanked(services, task, a + b) == a + InsertRanked(services, task, b)
  {
    if a == [] {
      assert a + b == b;
    } else {
      assert (a + b)[1..] == a[1..] + b;
      InsertPasses(services, task, a[1..], b);
    }
  }

  lemma {:induction false} InsertByService(done: seq<string>, rest: seq<string>, task: Task, tasks: seq<Task>)
    requires NoRepeats(done + rest) && task.service in rest
    ensures AllRanked(done + rest, ByService(rest, tasks))
    ensures InsertRanked(done + rest, task, ByService(rest, tasks)) == ByService(rest, [task] + tasks)
    decreases |rest|
  {
    hide InsertRanked, OfService, RankOf, ByService;
    var all, s := done + rest, rest[0];
    ByServiceStep(rest, tasks);
    ByServiceStep(rest, [task] + tasks);
    ByServiceMembers(rest, tasks);
    NotInDone(done, rest);
    OfServiceCons(task, tasks, s);
    if task.service == s {
      RankAfter(done, rest, s);
      HeadRank(rest);
      ByServiceSkips(rest[1..], task, tasks);
      InsertInFront(all, task, ByService(rest, tasks), |done|, done, rest);
    } else {
      assert done + [s] + rest[1..] == all;
      InsertByService(done + [s], rest[1..], task, tasks);
      OfServiceMembers(tasks, s);
      RankAfter(done, rest, task.service);
      RankAfter(done, rest, s);
      HeadRanksFirst(rest, task.service);
      InsertPasses(all, task, OfService(tasks, s), ByService(rest[1..], tasks));
    }
  }

  lemma HeadRank(services: seq<string>)
    requires services != []
    ensures RankOf(services, services[0]) == 0
  {
  }

  lemma HeadRanksFirst(services: seq<string>, service: string)
    requires service in services && service != services[0]
    ensures RankOf(services, services[0]) == 0 < RankOf(services, service)
  {
  }

  lemma NotInDone(done: seq<string>, rest: seq<string>)
    requires NoRepeats(done + rest)
    ensures forall s :: s in rest ==> s !in done
    ensures rest != [] ==> rest[0] !in rest[1..]
  {
    var all := done + rest;
    forall s | s in rest ensures s !in done {
      var j :| 0 <= j < |rest| && rest[j] == s;
      assert all[|done| + j] == s;
      assert forall i :: 0 <= i < |done| ==> all[i] == done[i];
    }
    if rest != [] {
      assert all[|done|] == rest[0];
      assert forall j :: 0 <= j < |rest| - 1 ==> all[|done| + 1 + j] == rest[1..][j];
    }
  }

  lemma OfServiceCons(task: Task, tasks: seq<Task>, service: string)
    ensures OfService([task] + tasks, service) ==
            (if task.service == service then [task] else []) + OfService(tasks, service)
  {
    OnlyCons(task, tasks, (t: Task) => t.service == service);
  }

  lemma OfServiceMembers(tasks: seq<Task>, service: string)
    ensures forall t :: t in OfService(tasks, service) <==> t in tasks && t.service == service
  {
    OnlyMembers(tasks, (t: Task) => t.service == service);
  }

  lemma {:induction false} ByServiceSkips(services: seq<string>, task: Task, tasks: seq<Task>)
    requires task.service !in services
    ensures ByService(services, [task] + tasks) == ByService(services, tasks)
  {
    hide OfService, ByService;
    if services == [] {
      NoServices([task] + tasks);
      NoServices(tasks);
    } else {
      OfServiceCons(task, tasks, services[0]);
      ByServiceSkips(services[1..], task, tasks);
      ByServiceStep(services, [task] + tasks);
      ByServiceStep(services, tasks);
      assert [] + OfService(tasks, services[0]) == OfService(tasks, services[0]);
    }
  }

  lemma NoServices(tasks: seq<Task>)
    ensures ByService([], tasks) == []
  {
  }

  lemma ByServiceStep(services: seq<string>, tasks: seq<Task>)
    requires services != []
    ensures ByService(services, tasks) == OfService(tasks, services[0]) + ByService(services[1..], tasks)
  {
  }

  lemma InsertInFront(all: seq<string>, task: Task, tasks: seq<Task>, rank: nat, done: seq<string>, rest: seq<string>)
    requires task.service in all && AllRanked(all, tasks) && RankOf(all, task.service) == rank == |done|
    requires all == done + rest && AllRanked(rest, tasks) && forall s :: s in rest ==> s !in done
    ensures InsertRanked(all, task, tasks) == [task] + tasks
  {
    if tasks != [] {
      assert tasks[0] in tasks;
      RankAfter(done, rest, tasks[0].service);
    }
  }

  /** A stable sort by rank puts the tasks of each service in turn, each
      service's in the order they came. */
  lemma {:induction false} SortedByService(services: seq<string>, tasks: seq<Task>)
    requires NoRepeats(services) && AllRanked(services, tasks)
    ensures SortRanked(services, tasks) == ByService(services, tasks)
  {
    hide InsertRanked, ByService;
    if tasks == [] {
      NoTasks(services);
    } else {
      SortedByService(services, tasks[1..]);
      assert [] + services == services && tasks == [tasks[0]] + tasks[1..];
      InsertByService([], services, tasks[0], tasks[1..]);
    }
  }

  lemma {:induction false} NoTasks(services: seq<string>)
    ensures ByService(services, []) == []
  {
    if services != [] {
      NoTasks(services[1..]);
    }
  }

  // ----- targets

  function OfTask(task: Task, streams: seq<string>): (r: seq<Target>)
    ensures |r| == |streams|
  {
    seq(|streams|, i requires 0 <= i < |streams| => Target(task, streams[i]))
  }

  function TargetsFor(tasks: seq<Task>, streams: seq<string>): seq<Target> {
    if tasks == [] then [] else OfTask(tasks[0], streams) + TargetsFor(tasks[1..], streams)
  }

  /** The services to follow, priority services first. */
  function Order(tasks: seq<Task>, allowlist: seq<string>, priority: seq<string>): seq<string> {
    Prioritized(Filtered(ServiceNames(tasks), allowlist), priority)
  }

  /** The targets to follow, priority services first. */
  function Wanted(tasks: seq<Task>, allowlist: seq<string>, priority: seq<string>, streams: seq<string>): seq<Target> {
    TargetsFor(ByService(Order(tasks, allowlist, priority), tasks), streams)
  }

  lemma {:induction false} TargetsSnoc(tasks: seq<Task>, task: Task, streams: seq<string>)
    ensures TargetsFor(tasks + [task], streams) == TargetsFor(tasks, streams) + OfTask(task, streams)
  {
    hide OfTask;
    if tasks == [] {
      assert [] + [task] == [task] && [task][1..] == [];
    } else {
      TargetsSnoc(tasks[1..], task, streams);
      assert (tasks + [task])[1..] == tasks[1..] + [task];
    }
  }

  method TargetsLocked(tasks: seq<Task>, allowlist: seq<string>, priority: seq<string>, streams: seq<string>)
      returns (targets: seq<Target>)
    ensures targets == Wanted(tasks, allowlist, priority, streams)
  {
    hide ByService, OfService, Filtered, Prioritized, ServiceNames, SortRanked, Wanted, Order, TargetsFor;
    var names := ServiceNames(tasks);
    var services := FilterServices(names, allowlist);
    services := PrioritizeServices(services, priority);
    OrderExact(tasks, allowlist, priority);
    OrderIs(tasks, allowlist, priority);
    var allowed := KeepRanked(services, tasks);
    SortedByService(services, allowed);
    ByServiceOfOnly(services, services, tasks);
    allowed := SortRanked(services, allowed);
    targets := [];
    NoTargets(streams);
    for i := 0 to |allowed|
      invariant targets == TargetsFor(allowed[..i], streams)
    {
      TargetsSnoc(allowed[..i], allowed[i], streams);
      assert allowed[..i + 1] == allowed[..i] + [allowed[i]];
      var before := targets;
      for j := 0 to |streams|
        invariant targets == before + OfTask(allowed[i], streams)[..j]
      {
        targets := targets + [Target(allowed[i], streams[j])];
      }
      assert OfTask(allowed[i], streams)[..|streams|] == OfTask(allowed[i], streams);
    }
    assert allowed[..|allowed|] == allowed;
    WantedIs(tasks, allowlist, priority, streams);
  }

  lemma NoTargets(streams: seq<string>)
    ensures TargetsFor([], streams) == []
  {
  }

  lemma OrderIs(tasks: seq<Task>, allowlist: seq<string>, priority: seq<string>)
    ensures Order(tasks, allowlist, priority) == Prioritized(Filtered(ServiceNames(tasks), allowlist), priority)
  {
  }

  lemma WantedIs(tasks: seq<Task>, allowlist: seq<string>, priority: seq<string>, streams: seq<string>)
    ensures Wanted(tasks, allowlist, priority, streams) ==
            TargetsFor(ByService(Order(tasks, allowlist, priority), tasks), streams)
  {
  }

  predicate Ranked(services: seq<string>, task: Task) {
    task.service in services
  }

  method KeepRanked(services: seq<string>, tasks: seq<Task>) returns (allowed: seq<Task>)
    ensures allowed == Only(tasks, (t: Task) => Ranked(services, t))
    ensures AllRanked(services, allowed)
  {
    var ranked := (t: Task) => Ranked(services, t);
    allowed := [];
    for i := 0 to |tasks|
      invariant allowed == Only(tasks[..i], ranked)
      invariant AllRanked(services, allowed)
    {
      OnlyAppend(tasks[..i], [tasks[i]], ranked);
      OnlyOne(tasks[i], ranked);
      assert tasks[..i + 1] == tasks[..i] + [tasks[i]];
      if tasks[i].service in services {
        allowed := allowed + [tasks[i]];
      }
    }
    assert tasks[..|tasks|] == tasks;
  }

  lemma {:induction false} ByServiceOfOnly(services: seq<string>, all: seq<string>, tasks: seq<Task>)
    requires forall s :: s in services ==> s in all
    ensures ByService(services, Only(tasks, (t: Task) => Ranked(all, t))) == ByService(services, tasks)
  {
    hide ByService;
    var kept := Only(tasks, (t: Task) => Ranked(all, t));
    if services == [] {
      NoServices(kept);
      NoServices(tasks);
    } else {
      ByServiceOfOnly(services[1..], all, tasks);
      ByServiceStep(services, kept);
      ByServiceStep(services, tasks);
      OfServiceOfOnly(services[0], all, tasks);
    }
  }

  lemma {:induction false} OfServiceOfOnly(service: string, all: seq<string>, tasks: seq<Task>)
    requires service in all
    ensures OfService(Only(tasks, (t: Task) => Ranked(all, t)), service) == OfService(tasks, service)
  {
    var of := (t: Task) => t.service == service;
    OnlyStronger(tasks, (t: Task) => Ranked(all, t), of);
  }

  lemma {:induction false} OnlyStronger<T>(s: seq<T>, p: T -> bool, q: T -> bool)
    requires forall x :: q(x) ==> p(x)
    ensures Only(Only(s, p), q) == Only(s, q)
  {
    if s != [] {
      OnlyStronger(s[1..], p, q);
      assert q(s[0]) ==> p(s[0]);
      if p(s[0]) {
        OnlyCons(s[0], Only(s[1..], p), q);
      } else {
        assert [] + Only(s[1..], p) == Only(s[1..], p);
        assert [] + Only(s[1..], q) == Only(s[1..], q);
      }
    }
  }

  /** The order names each running service that is allowed once, priority
      services first. */
  lemma OrderExact(tasks: seq<Task>, allowlist: seq<string>, priority: seq<string>)
    ensures var order := Order(tasks, allowlist, priority);
            && NoRepeats(order)
            && (forall s :: s in order <==>
                  (exists t :: t in tasks && t.service == s) && (allowlist == [] || s in allowlist))
            && forall i, j :: 0 <= i < |order| && 0 <= j < |order| ==>
                 (order[i] in priority && order[j] !in priority ==> i < j)
  {
    hide Filtered, Prioritized, ServiceNames;
    ServiceNamesExact(tasks);
    FilteredExact(ServiceNames(tasks), allowlist);
    PrioritizedExact(Filtered(ServiceNames(tasks), allowlist), priority);
  }

  /** Every stream of every running task of an allowed service is a target, and
      nothing else is. */
  lemma WantedExact(tasks: seq<Task>, allowlist: seq<string>, priority: seq<string>, streams: seq<string>)
    ensures forall t :: t in Wanted(tasks, allowlist, priority, streams) <==>
              t.task in tasks && (allowlist == [] || t.task.service in allowlist) && t.stream in streams
  {
    hide Order, ByService;
    var order := Order(tasks, allowlist, priority);
    OrderExact(tasks, allowlist, priority);
    ByServiceMembers(order, tasks);
    TargetsForExact(ByService(order, tasks), streams);
  }

  lemma {:induction false} TargetsForExact(tasks: seq<Task>, streams: seq<string>)
    ensures forall t :: t in TargetsFor(tasks, streams) <==> t.task in tasks && t.stream in streams
  {
    if tasks != [] {
      TargetsForExact(tasks[1..], streams);
      var of := OfTask(tasks[0], streams);
      forall t: Target | t.task == tasks[0] && t.stream in streams ensures t in of {
        var i :| 0 <= i < |streams| && streams[i] == t.stream;
        assert of[i] == t;
      }
    }
  }

  // ----- priority order

  /** No target of an ordinary service comes before one of a priority service. */
  predicate PriorityFirst(targets: seq<Target>, priority: seq<string>) {
    forall i, j :: 0 <= i < j < |targets| ==>
      (targets[j].task.service in priority ==> targets[i].task.service in priority)
  }

  predicate TasksPriorityFirst(tasks: seq<Task>, priority: seq<string>) {
    forall i, j :: 0 <= i < j < |tasks| ==> (tasks[j].service in priority ==> tasks[i].service in priority)
  }

  lemma WantedPriorityFirst(tasks: seq<Task>, allowlist: seq<string>, priority: seq<string>, streams: seq<string>)
    ensures PriorityFirst(Wanted(tasks, allowlist, priority, streams), priority)
  {
    hide Order, ByService;
    var order := Order(tasks, allowlist, priority);
    OrderExact(tasks, allowlist, priority);
    ByServicePriority(order, tasks, priority);
    TargetsPriority(ByService(order, tasks), streams, priority);
  }

  lemma {:induction false} ByServicePriority(services: seq<string>, tasks: seq<Task>, priority: seq<string>)
    requires forall i, j :: 0 <= i < |services| && 0 <= j < |services| ==>
               (services[i] in priority && services[j] !in priority ==> i < j)
    ensures TasksPriorityFirst(ByService(services, tasks), priority)
  {
    hide OfService;
    if services != [] {
      ByServicePriority(services[1..], tasks, priority);
      OfServiceMembers(tasks, services[0]);
      ByServiceMembers(services[1..], tasks);
      var first, rest := OfService(tasks, services[0]), ByService(services[1..], tasks);
      assert forall i :: 0 <= i < |first| ==> first[i] in first;
      assert forall i :: 0 <= i < |rest| ==> rest[i] in rest;
      assert forall s :: s in services[1..] && s in priority ==> services[0] in priority;
    }
  }

  lemma {:induction false} TargetsPriority(tasks: seq<Task>, streams: seq<string>, priority: seq<string>)
    requires TasksPriorityFirst(tasks, priority)
    ensures PriorityFirst(TargetsFor(tasks, streams), priority)
  {
    if tasks != [] {
      TargetsPriority(tasks[1..], streams, priority);
      TargetsForExact(tasks[1..], streams);
      var rest := TargetsFor(tasks[1..], streams);
      assert forall i :: 0 <= i < |rest| ==> rest[i] in rest;
      assert forall t :: t in tasks[1..] && t.service in priority ==> tasks[0].service in priority;
    }
  }
}
