/** Which streams are followed, and which wait for a place. */
module Ingest {
  import opened Sequences
  import opened Targets

  // ----- one reconciliation

  function Keys(targets: seq<Target>): set<string> {
    set t | t in targets :: Key(t)
  }

  /** Followers whose target is still wanted. */
  function Surviving(followers: map<string, Target>, targets: seq<Target>): map<string, Target> {
    map k | k in followers && k in Keys(targets) :: followers[k]
  }

  predicate Full(followers: map<string, Target>, maxStreams: int) {
    maxStreams > 0 && |followers| >= maxStreams
  }

  /** What is followed, newly started and left waiting, in that order. */
  datatype Places = Places(followers: map<string, Target>, started: seq<Target>, waiting: seq<Target>)

  /** Gives a target a place, if it has none and there is one. */
  function Given(p: Places, t: Target, maxStreams: int): Places {
    if Key(t) in p.followers then p
    else if Full(p.followers, maxStreams) then p.(waiting := p.waiting + [t])
    else p.(followers := p.followers[Key(t) := t], started := p.started + [t])
  }

  function GivenAll(p: Places, targets: seq<Target>, maxStreams: int): Places
    decreases |targets|
  {
    if targets == [] then p else GivenAll(Given(p, targets[0], maxStreams), targets[1..], maxStreams)
  }

  function Reconciled(followers: map<string, Target>, targets: seq<Target>, maxStreams: int): Places {
    GivenAll(Places(Surviving(followers, targets), [], []), targets, maxStreams)
  }

  function Labels(targets: seq<Target>): (r: seq<string>)
    ensures |r| == |targets|
  {
    seq(|targets|, i requires 0 <= i < |targets| => Label(targets[i]))
  }

  lemma {:induction false} GivenSnoc(p: Places, targets: seq<Target>, t: Target, maxStreams: int)
    ensures GivenAll(p, targets + [t], maxStreams) == Given(GivenAll(p, targets, maxStreams), t, maxStreams)
    decreases |targets|
  {
    hide Given;
    if targets == [] {
      assert [] + [t] == [t] && [t][1..] == [];
    } else {
      GivenSnoc(Given(p, targets[0], maxStreams), targets[1..], t, maxStreams);
      assert (targets + [t])[1..] == targets[1..] + [t];
    }
  }

  /** What the ingester keeps between discoveries. */
  datatype IngestState = IngestState(
    services: seq<string>, running: seq<string>, failed: bool, followers: map<string, Target>, waiting: seq<string>)

  datatype Listing = Interrupted | Failed | Found(tasks: seq<Task>)

  datatype IngestEvent = Discovers(listing: Listing) | Allows(services: seq<string>)

  /** The targets a discovery asks for. */
  function Asked(priority: seq<string>, streams: seq<string>, s: IngestState, tasks: seq<Task>): seq<Target> {
    Wanted(tasks, s.services, priority, streams)
  }

  function Stepped(enabled: bool, maxStreams: int, priority: seq<string>, streams: seq<string>, s: IngestState,
                   event: IngestEvent): IngestState {
    match event
    case Allows(services) => s.(services := Cleaned(services))
    case Discovers(Interrupted) => s
    case Discovers(Failed) => s.(failed := true)
    case Discovers(Found(tasks)) =>
      var seen := s.(failed := false, running := ServiceNames(tasks));
      if enabled then
        var p := Reconciled(s.followers, Asked(priority, streams, s, tasks), maxStreams);
        seen.(followers := p.followers, waiting := Labels(p.waiting))
      else seen
  }

  function Visible(priority: seq<string>, s: IngestState): seq<string> {
    Prioritized(Filtered(s.running, s.services), priority)
  }

  /** The ingester's settings and what it keeps between discoveries. */
  class Ingester {
    const enabled: bool
    const maxStreams: int
    const priority: seq<string>
    const streams: seq<string>
    var services: seq<string>
    var running: seq<string>
    var failed: bool
    var followers: map<string, Target>
    var waiting: seq<string>

    constructor (enabled: bool, maxStreams: int, priority: seq<string>, streams: seq<string>, services: seq<string>)
      ensures this.enabled == enabled && this.priority == priority && this.services == Cleaned(services)
      ensures this.maxStreams == if maxStreams < 0 then 0 else maxStreams
      ensures this.streams == if streams == [] then ["stderr"] else streams
      ensures followers == map[] && waiting == [] && running == [] && !failed
    {
      var cleaned := CleanServiceList(services);
      this.enabled, this.priority, this.services := enabled, priority, cleaned;
      this.maxStreams := if maxStreams < 0 then 0 else maxStreams;
      this.streams := if streams == [] then ["stderr"] else streams;
      followers, waiting, running, failed := map[], [], [], false;
    }

    method CancelGone(wanted: set<string>) returns (cancelled: set<string>)
      modifies this`followers
      ensures followers == map k | k in old(followers) && k in wanted :: old(followers)[k]
      ensures cancelled == old(followers).Keys - wanted
    {
      cancelled := {};
      var pending := followers.Keys;
      while pending != {}
        invariant pending <= followers.Keys <= old(followers).Keys
        invariant cancelled == old(followers).Keys - followers.Keys
        invariant forall k :: k in followers ==> followers[k] == old(followers)[k] && (k in pending || k in wanted)
        invariant forall k :: k in cancelled ==> k !in wanted
        decreases |pending|
      {
        var key :| key in pending;
        pending := pending - {key};
        if key !in wanted {
          cancelled := cancelled + {key};
          followers := followers - {key};
        }
      }
    }

    /** Brings the followers in line with the targets: those no longer asked for
        give up their places, and free places go to the first targets without
        one. */
    method ReconcileLocked(targets: seq<Target>) returns (cancelled: set<string>, started: seq<Target>)
      modifies this`followers, this`waiting
      ensures var p := Reconciled(old(followers), targets, maxStreams);
              followers == p.followers && waiting == Labels(p.waiting) && started == p.started
      ensures cancelled == old(followers).Keys - Keys(targets)
    {
      var wanted: set<string> := {};
      for i := 0 to |targets|
        invariant wanted == Keys(targets[..i])
      {
        wanted := wanted + {Key(targets[i])};
        assert targets[..i + 1] == targets[..i] + [targets[i]];
      }
      assert targets[..|targets|] == targets;

      cancelled := CancelGone(wanted);
      assert followers == Surviving(old(followers), targets);

      waiting, started := [], [];
      ghost var p := Places(followers, [], []);
      for i := 0 to |targets|
        invariant p == GivenAll(Places(Surviving(old(followers), targets), [], []), targets[..i], maxStreams)
        invariant p.followers == followers && p.started == started && Labels(p.waiting) == waiting
      {
        var t := targets[i];
        GivenSnoc(Places(Surviving(old(followers), targets), [], []), targets[..i], t, maxStreams);
        assert targets[..i + 1] == targets[..i] + [t];
        assert Labels(p.waiting + [t]) == Labels(p.waiting) + [Label(t)];
        p := Given(p, t, maxStreams);
        if Key(t) in followers {
          continue;
        }
        if maxStreams > 0 && |followers| >= maxStreams {
          waiting := waiting + [Label(t)];
          continue;
        }
        followers := followers[Key(t) := t];
        started := started + [t];
      }
      assert targets[..|targets|] == targets;
    }

    function State(): IngestState
      reads this
    {
      IngestState(services, running, failed, followers, waiting)
    }

    /** One discovery: its listing is interrupted, fails, or finds tasks. */
    method Discover(listing: Listing) returns (cancelled: set<string>, started: seq<Target>)
      modifies this`running, this`failed, this`followers, this`waiting
      ensures State() == Stepped(enabled, maxStreams, priority, streams, old(State()), Discovers(listing))
      ensures cancelled == old(followers).Keys - followers.Keys
    {
      hide Wanted, ServiceNames, Surviving, GivenAll, Keys;
      cancelled, started := {}, [];
      match listing {
        case Interrupted =>
          return;
        case Failed =>
          failed := true;
        case Found(tasks) =>
          failed := false;
          running := ServiceNames(tasks);
          if enabled {
            var targets := TargetsLocked(tasks, services, priority, streams);
            GoneAreCancelled(followers, targets, maxStreams);
            cancelled, started := ReconcileLocked(targets);
          }
      }
    }

    /** Replaces the allowlist by the names given, trimmed and each once; followers
        change at the next discovery. */
    method SetServices(services: seq<string>)
      modifies this`services
      ensures State() == Stepped(enabled, maxStreams, priority, streams, old(State()), Allows(services))
    {
      this.services := CleanServiceList(services);
    }

    /** The services that run and are allowed, priority services first. */
    method VisibleServices() returns (visible: seq<string>)
      ensures visible == Visible(priority, State())
    {
      var allowed := FilterServices(running, services);
      visible := PrioritizeServices(allowed, priority);
    }
  }

  // ----- what one reconciliation guarantees

  lemma GoneAreCancelled(followers: map<string, Target>, targets: seq<Target>, maxStreams: int)
    ensures followers.Keys - Keys(targets) == followers.Keys - Reconciled(followers, targets, maxStreams).followers.Keys
  {
    hide GivenAll;
    GivenKeeps(Places(Surviving(followers, targets), [], []), targets, maxStreams);
    GivenWithin(Places(Surviving(followers, targets), [], []), targets, maxStreams);
  }

  predicate Extends(big: map<string, Target>, small: map<string, Target>) {
    forall k :: k in small ==> k in big && big[k] == small[k]
  }

  predicate Capped(followers: map<string, Target>, maxStreams: int) {
    maxStreams > 0 ==> |followers| <= maxStreams
  }

  lemma {:induction false} GivenKeeps(p: Places, targets: seq<Target>, maxStreams: int)
    ensures var q := GivenAll(p, targets, maxStreams);
            && Extends(q.followers, p.followers)
            && (Capped(p.followers, maxStreams) ==> Capped(q.followers, maxStreams))
            && (Full(p.followers, maxStreams) ==> q.followers == p.followers && q.started == p.started)
    decreases |targets|
  {
    if targets != [] {
      GivenKeeps(Given(p, targets[0], maxStreams), targets[1..], maxStreams);
    }
  }

  lemma {:induction false} GivenWithin(p: Places, targets: seq<Target>, maxStreams: int)
    ensures var q := GivenAll(p, targets, maxStreams);
            q.followers.Keys <= p.followers.Keys + Keys(targets)
    decreases |targets|
  {
    if targets != [] {
      GivenWithin(Given(p, targets[0], maxStreams), targets[1..], maxStreams);
      assert Keys(targets) == {Key(targets[0])} + Keys(targets[1..]);
    }
  }

  /** What waits is what got no place, and something waits only when all places
      are taken. */
  lemma {:induction false} GivenWaiting(p: Places, targets: seq<Target>, maxStreams: int)
    ensures var q := GivenAll(p, targets, maxStreams);
            && q.waiting == p.waiting + Only(targets, (t: Target) => Key(t) !in q.followers)
            && (q.waiting != p.waiting ==> Full(q.followers, maxStreams))
    decreases |targets|
  {
    if targets != [] {
      var next := Given(p, targets[0], maxStreams);
      GivenKeeps(p, targets, maxStreams);
      GivenKeeps(next, targets[1..], maxStreams);
      GivenWaiting(next, targets[1..], maxStreams);
    }
  }

  /** How many targets, from the first, are dealt with before one has to wait. */
  function Served(p: Places, targets: seq<Target>, maxStreams: int): (n: nat)
    ensures n <= |targets|
    decreases |targets|
  {
    if targets == [] || (Key(targets[0]) !in p.followers && Full(p.followers, maxStreams)) then 0
    else 1 + Served(Given(p, targets[0], maxStreams), targets[1..], maxStreams)
  }

  /** All targets before the first that waits are followed, and all that are
      started are among them. */
  lemma {:induction false} GivenInOrder(p: Places, targets: seq<Target>, maxStreams: int)
    ensures var q, n := GivenAll(p, targets, maxStreams), Served(p, targets, maxStreams);
            && (forall t :: t in targets[..n] ==> Key(t) in q.followers)
            && p.started <= q.started
            && (forall t :: t in q.started[|p.started|..] ==> t in targets[..n] && Key(t) !in p.followers)
    decreases |targets|
  {
    if targets != [] {
      var next, n := Given(p, targets[0], maxStreams), Served(p, targets, maxStreams);
      GivenKeeps(p, targets, maxStreams);
      GivenKeeps(next, targets[1..], maxStreams);
      if n > 0 {
        GivenInOrder(next, targets[1..], maxStreams);
        assert targets[..n] == [targets[0]] + targets[1..][..n - 1];
      }
    }
  }

  /** The started targets are exactly the new followers, each once. */
  lemma {:induction false} GivenStarted(p: Places, targets: seq<Target>, maxStreams: int)
    requires forall t :: t in p.started ==> Key(t) in p.followers && p.followers[Key(t)] == t
    requires NoRepeats(p.started)
    ensures var q := GivenAll(p, targets, maxStreams);
            && NoRepeats(q.started)
            && (forall t :: t in q.started ==> Key(t) in q.followers && q.followers[Key(t)] == t)
            && p.started <= q.started
            && q.followers.Keys == p.followers.Keys + Keys(q.started)
    decreases |targets|
  {
    hide Given;
    if targets == [] {
      assert Keys(p.started) <= p.followers.Keys;
    } else {
      GivenOne(p, targets[0], maxStreams);
      var next := Given(p, targets[0], maxStreams);
      GivenStarted(next, targets[1..], maxStreams);
      assert Keys(next.started) <= Keys(GivenAll(p, targets, maxStreams).started);
    }
  }

  lemma GivenOne(p: Places, t: Target, maxStreams: int)
    requires forall t :: t in p.started ==> Key(t) in p.followers && p.followers[Key(t)] == t
    requires NoRepeats(p.started)
    ensures var q := Given(p, t, maxStreams);
            && NoRepeats(q.started)
            && (forall t :: t in q.started ==> Key(t) in q.followers && q.followers[Key(t)] == t)
            && q.followers.Keys + Keys(q.started) == p.followers.Keys + Keys(q.started)
            && p.started <= q.started
  {
    var q := Given(p, t, maxStreams);
    if q.started != p.started {
      NoRepeatsSnoc(p.started, t);
      assert t in q.started;
    }
  }

  predicate KeyedRight(followers: map<string, Target>) {
    forall k :: k in followers ==> Key(followers[k]) == k
  }

  /** What a reconciliation does to the followers, whatever they were: it cancels
      none that is still wanted, keeps to the cap, and gives every other place to
      the first targets in order. Those that wait are exactly the wanted targets
      without a follower, and they wait only while all places are taken. */
  lemma ReconcileTheorem(followers: map<string, Target>, targets: seq<Target>, maxStreams: int)
    requires Capped(followers, maxStreams) && KeyedRight(followers)
    ensures var p := Reconciled(followers, targets, maxStreams);
            && Capped(p.followers, maxStreams) && KeyedRight(p.followers)
            && p.followers.Keys <= Keys(targets)
            && Extends(p.followers, Surviving(followers, targets))
            && p.waiting == Only(targets, (t: Target) => Key(t) !in p.followers)
            && (p.waiting != [] ==> maxStreams > 0 && |p.followers| == maxStreams)
    ensures var p := Reconciled(followers, targets, maxStreams);
            && NoRepeats(p.started)
            && Keys(p.started) == p.followers.Keys - Surviving(followers, targets).Keys
            && exists n :: 0 <= n <= |targets| && StartsBefore(p, targets, n)
  {
    hide Given, GivenAll, Surviving, Capped, KeyedRight, StartsBefore;
    var from := Places(Surviving(followers, targets), [], []);
    var p := GivenAll(from, targets, maxStreams);
    SurvivingFits(followers, targets);
    CappedFits(followers, Surviving(followers, targets), maxStreams);
    GivenKeeps(from, targets, maxStreams);
    GivenWithin(from, targets, maxStreams);
    ReconcileWaiting(from, targets, maxStreams);
    ReconcileStarts(from, targets, maxStreams);
  }

  lemma CappedFits(followers: map<string, Target>, s: map<string, Target>, maxStreams: int)
    requires Capped(followers, maxStreams) && |s| <= |followers|
    ensures Capped(s, maxStreams)
  {
  }

  lemma ReconcileWaiting(from: Places, targets: seq<Target>, maxStreams: int)
    requires from.waiting == [] && Capped(from.followers, maxStreams)
    ensures var p := GivenAll(from, targets, maxStreams);
            && p.waiting == Only(targets, (t: Target) => Key(t) !in p.followers)
            && (p.waiting != [] ==> maxStreams > 0 && |p.followers| == maxStreams)
  {
    hide Given, GivenAll;
    var p := GivenAll(from, targets, maxStreams);
    GivenKeeps(from, targets, maxStreams);
    GivenWaiting(from, targets, maxStreams);
    var out := Only(targets, (t: Target) => Key(t) !in p.followers);
    assert [] + out == out;
  }

  lemma ReconcileStarts(from: Places, targets: seq<Target>, maxStreams: int)
    requires from.started == [] && KeyedRight(from.followers) && from.followers.Keys <= Keys(targets)
    ensures var p := GivenAll(from, targets, maxStreams);
            && KeyedRight(p.followers) && NoRepeats(p.started)
            && Keys(p.started) == p.followers.Keys - from.followers.Keys
            && exists n :: 0 <= n <= |targets| && StartsBefore(p, targets, n)
  {
    hide Given, GivenAll, Extends, KeyedRight, Key;
    var p := GivenAll(from, targets, maxStreams);
    GivenKeeps(from, targets, maxStreams);
    GivenStarted(from, targets, maxStreams);
    GivenInOrder(from, targets, maxStreams);
    assert p.started[0..] == p.started;
    StaysKeyed(from.followers, p.followers, p.started);
    StartedAreNew(from.followers, p.followers, p.started);
    assert StartsBefore(p, targets, Served(from, targets, maxStreams));
  }

  lemma StaysKeyed(small: map<string, Target>, big: map<string, Target>, started: seq<Target>)
    requires KeyedRight(small) && Extends(big, small) && big.Keys == small.Keys + Keys(started)
    requires forall t :: t in started ==> Key(t) in big && big[Key(t)] == t
    ensures KeyedRight(big)
  {
    hide Key;
  }

  lemma StartedAreNew(small: map<string, Target>, big: map<string, Target>, started: seq<Target>)
    requires big.Keys == small.Keys + Keys(started) && forall t :: t in started ==> Key(t) !in small
    ensures Keys(started) == big.Keys - small.Keys
  {
    hide Key;
  }

  /** Every target among the first n is followed, and every started one is among
      them: so each started target comes before each that waits. */
  predicate StartsBefore(p: Places, targets: seq<Target>, n: nat)
    requires n <= |targets|
  {
    (forall t :: t in targets[..n] ==> Key(t) in p.followers) && (forall t :: t in p.started ==> t in targets[..n])
  }

  lemma SurvivingFits(followers: map<string, Target>, targets: seq<Target>)
    ensures var s := Surviving(followers, targets);
            && |s| <= |followers| && s.Keys <= followers.Keys && s.Keys <= Keys(targets)
            && (KeyedRight(followers) ==> KeyedRight(s))
  {
    var s := Surviving(followers, targets);
    SubsetSize(s.Keys, followers.Keys);
    assert |s| == |s.Keys| && |followers| == |followers.Keys|;
  }

  lemma {:induction false} SubsetSize(a: set<string>, b: set<string>)
    requires a <= b
    ensures |a| <= |b|
  {
    if a != {} {
      var x :| x in a;
      SubsetSize(a - {x}, b - {x});
    }
  }

  // ----- over a whole run

  /** The settings of an ingester. */
  datatype Settings = Settings(enabled: bool, maxStreams: int, priority: seq<string>, streams: seq<string>)

  function After(c: Settings, s: IngestState, events: seq<IngestEvent>): IngestState
    decreases |events|
  {
    if events == [] then s
    else After(c, Stepped(c.enabled, c.maxStreams, c.priority, c.streams, s, events[0]), events[1..])
  }

  predicate Steady(c: Settings, s: IngestState) {
    Capped(s.followers, c.maxStreams) && KeyedRight(s.followers) && (s.waiting != [] ==> Full(s.followers, c.maxStreams))
  }

  lemma StepKeepsSteady(c: Settings, s: IngestState, event: IngestEvent)
    requires Steady(c, s)
    ensures Steady(c, Stepped(c.enabled, c.maxStreams, c.priority, c.streams, s, event))
  {
    hide Capped, KeyedRight, Reconciled, Asked, ServiceNames;
    if event.Discovers? && event.listing.Found? {
      ReconcileTheorem(s.followers, Asked(c.priority, c.streams, s, event.listing.tasks), c.maxStreams);
    }
  }

  /** In every reachable state the cap holds, each follower follows the target it
      is listed under, and a target waits only while all places are taken. */
  lemma {:induction false} AlwaysSteady(c: Settings, s: IngestState, events: seq<IngestEvent>)
    requires Steady(c, s)
    ensures Steady(c, After(c, s, events))
    decreases |events|
  {
    hide Steady, Stepped;
    if events != [] {
      StepKeepsSteady(c, s, events[0]);
      AlwaysSteady(c, Stepped(c.enabled, c.maxStreams, c.priority, c.streams, s, events[0]), events[1..]);
    }
  }

  /** Every discovery that finds tasks, under the allowlist of its time, wants the
      stream listed under a key. */
  predicate AlwaysWanted(c: Settings, s: IngestState, events: seq<IngestEvent>, key: string)
    decreases |events|
  {
    events == []
    || (&& (events[0].Discovers? && events[0].listing.Found? ==>
              key in Keys(Asked(c.priority, c.streams, s, events[0].listing.tasks)))
        && AlwaysWanted(c, Stepped(c.enabled, c.maxStreams, c.priority, c.streams, s, events[0]), events[1..], key))
  }

  /** A follower that stays wanted stays: no failed or interrupted listing, no
      change of the allowlist and no other target takes its place. */
  lemma {:induction false} WantedFollowerStays(c: Settings, s: IngestState, events: seq<IngestEvent>, key: string)
    requires Steady(c, s) && key in s.followers && AlwaysWanted(c, s, events, key)
    ensures key in After(c, s, events).followers
    ensures After(c, s, events).followers[key] == s.followers[key]
    decreases |events|
  {
    hide Capped, KeyedRight, Reconciled, Asked, ServiceNames;
    if events != [] {
      var next := Stepped(c.enabled, c.maxStreams, c.priority, c.streams, s, events[0]);
      StepKeepsSteady(c, s, events[0]);
      if events[0].Discovers? && events[0].listing.Found? {
        ReconcileTheorem(s.followers, Asked(c.priority, c.streams, s, events[0].listing.tasks), c.maxStreams);
      }
      WantedFollowerStays(c, next, events[1..], key);
    }
  }

  /** After a discovery that finds tasks, every stream of every running task of an
      allowed service is followed or waits, nothing else is, and those of priority
      services come first in line. */
  lemma DiscoveryPartitions(c: Settings, s: IngestState, tasks: seq<Task>)
    requires Steady(c, s) && c.enabled
    ensures var wanted := Asked(c.priority, c.streams, s, tasks);
            var u := Stepped(true, c.maxStreams, c.priority, c.streams, s, Discovers(Found(tasks)));
            && (forall t :: t in wanted <==>
                  t.task in tasks && (s.services == [] || t.task.service in s.services) && t.stream in c.streams)
            && PriorityFirst(wanted, c.priority)
            && u.followers.Keys <= Keys(wanted)
            && u.waiting == Labels(Only(wanted, (t: Target) => Key(t) !in u.followers))
  {
    hide Capped, KeyedRight, Reconciled, ServiceNames, Wanted;
    WantedExact(tasks, s.services, c.priority, c.streams);
    WantedPriorityFirst(tasks, s.services, c.priority, c.streams);
    ReconcileTheorem(s.followers, Asked(c.priority, c.streams, s, tasks), c.maxStreams);
  }

  /** So each wanted stream is followed or listed as waiting, by itself: with slashes
      neither in allocations' names nor in streams', a target has a follower of its
      very stream or its label waits, every follower is of a wanted stream, and no
      two are of the same. */
  lemma EveryStreamHasItsPlace(c: Settings, s: IngestState, tasks: seq<Task>)
    requires Steady(c, s) && c.enabled
    requires forall k :: k in s.followers ==> Slashless(s.followers[k])
    requires forall t :: t in Asked(c.priority, c.streams, s, tasks) ==> Slashless(t)
    ensures var wanted := Asked(c.priority, c.streams, s, tasks);
            var u := Stepped(true, c.maxStreams, c.priority, c.streams, s, Discovers(Found(tasks)));
            && (forall t :: t in wanted ==>
                  (exists k :: k in u.followers && SameStream(u.followers[k], t)) || Label(t) in u.waiting)
            && (forall k :: k in u.followers ==> exists t :: t in wanted && SameStream(u.followers[k], t))
            && (forall k, l :: k in u.followers && l in u.followers && k != l ==>
                  !SameStream(u.followers[k], u.followers[l]))
  {
    hide Capped, Reconciled, Asked, ServiceNames, Key, Label, Slashless, Only, Full;
    var wanted := Asked(c.priority, c.streams, s, tasks);
    var p := Reconciled(s.followers, wanted, c.maxStreams);
    ReconcileTheorem(s.followers, wanted, c.maxStreams);
    FollowersSlashless(s.followers, wanted, c.maxStreams);
    var out := (t: Target) => Key(t) !in p.followers;
    OnlyMembers(wanted, out);
    forall t | t in wanted
      ensures (exists k :: k in p.followers && SameStream(p.followers[k], t)) || Label(t) in Labels(p.waiting)
    {
      if Key(t) in p.followers {
        KeysTellApart(p.followers[Key(t)], t);
      } else {
        var i :| 0 <= i < |p.waiting| && p.waiting[i] == t;
        assert Labels(p.waiting)[i] == Label(t);
      }
    }
    forall k | k in p.followers ensures exists t :: t in wanted && SameStream(p.followers[k], t) {
      assert k in Keys(wanted);
      var t :| t in wanted && Key(t) == k;
      KeysTellApart(p.followers[k], t);
    }
    forall k, l | k in p.followers && l in p.followers && k != l
      ensures !SameStream(p.followers[k], p.followers[l])
    {
      KeysTellApart(p.followers[k], p.followers[l]);
    }
  }

  lemma {:induction false} GivenTargets(p: Places, targets: seq<Target>, maxStreams: int)
    ensures var q := GivenAll(p, targets, maxStreams);
            forall k :: k in q.followers ==> (k in p.followers && q.followers[k] == p.followers[k]) || q.followers[k] in targets
    decreases |targets|
  {
    if targets != [] {
      GivenTargets(Given(p, targets[0], maxStreams), targets[1..], maxStreams);
    }
  }

  lemma FollowersSlashless(followers: map<string, Target>, targets: seq<Target>, maxStreams: int)
    requires forall k :: k in followers ==> Slashless(followers[k])
    requires forall t :: t in targets ==> Slashless(t)
    ensures var p := Reconciled(followers, targets, maxStreams);
            forall k :: k in p.followers ==> Slashless(p.followers[k])
  {
    hide Slashless, Given, GivenAll;
    GivenTargets(Places(Surviving(followers, targets), [], []), targets, maxStreams);
  }

  // ----- the services shown

  /** The tasks of the last listing that found any, if there was one. */
  function LastFound(found: seq<Task>, events: seq<IngestEvent>): seq<Task>
    decreases |events|
  {
    if events == [] then found
    else LastFound(if events[0].Discovers? && events[0].listing.Found? then events[0].listing.tasks else found, events[1..])
  }

  lemma {:induction false} RunningAreFound(c: Settings, s: IngestState, events: seq<IngestEvent>, found: seq<Task>)
    requires s.running == ServiceNames(found)
    ensures After(c, s, events).running == ServiceNames(LastFound(found, events))
    decreases |events|
  {
    hide ServiceNames, Reconciled, Asked;
    if events != [] {
      var next := Stepped(c.enabled, c.maxStreams, c.priority, c.streams, s, events[0]);
      RunningAreFound(c, next, events[1..],
                      if events[0].Discovers? && events[0].listing.Found? then events[0].listing.tasks else found);
    }
  }

  /** After any run from a state with no services, those shown are exactly the
      services of the last listing that are allowed now. */
  lemma VisibleExact(c: Settings, s: IngestState, events: seq<IngestEvent>)
    requires s.running == []
    ensures var u, tasks := After(c, s, events), LastFound([], events);
            var visible := Visible(c.priority, u);
            && NoRepeats(visible)
            && (forall n :: n in visible <==>
                  (exists t :: t in tasks && t.service == n) && (u.services == [] || n in u.services))
            && forall i, j :: 0 <= i < |visible| && 0 <= j < |visible| ==>
                 (visible[i] in c.priority && visible[j] !in c.priority ==> i < j)
  {
    hide After, ServiceNames, Filtered, Prioritized;
    var u, tasks := After(c, s, events), LastFound([], events);
    NoServiceNames();
    RunningAreFound(c, s, events, []);
    ServiceNamesExact(tasks);
    FilteredExact(u.running, u.services);
    PrioritizedExact(Filtered(u.running, u.services), c.priority);
  }

  lemma NoServiceNames()
    ensures ServiceNames([]) == []
  {
  }
}
