/**
 * The rollout half of cloudlift/deployment/deployer.py: picking the essential container,
 * the desired count a deployment starts from, the test for a finished deployment, the
 * service event feed, the deadline-bounded wait, and the table of changed environment
 * variables or secrets.
 *
 * The ECS service is seen through snapshots (what `get_service` returns), and the clock
 * through a sequence of readings, each paired with the snapshot fetched right after it.
 */
module Deployer {
  import opened Wrappers
  import opened Strings
  import opened Errors

  // ---------------------------------------------------------------------------
  // find_essential_container
  // ---------------------------------------------------------------------------

  /** A container definition: its `name`, and its `essential` flag, `None` when the key is absent. */
  datatype ContainerDefinition = ContainerDefinition(name: string, essential: Option<bool>)

  /** Container i is essential and every container before it says it is not. */
  predicate FirstEssential(definitions: seq<ContainerDefinition>, i: nat) {
    && i < |definitions|
    && definitions[i].essential == Some(true)
    && forall j :: 0 <= j < i ==> definitions[j].essential == Some(false)
  }

  /** Container i lacks the `essential` key and every container before it says it is not essential. */
  predicate FirstUnflagged(definitions: seq<ContainerDefinition>, i: nat) {
    && i < |definitions|
    && definitions[i].essential.None?
    && forall j :: 0 <= j < i ==> definitions[j].essential == Some(false)
  }

  /** `find_essential_container(container_definitions)`. */
  function FindEssentialContainer(definitions: seq<ContainerDefinition>): (r: Result<string, Exception>)
    ensures r.Ok? <==> exists i: nat :: FirstEssential(definitions, i)
    ensures r.Ok? ==> exists i: nat :: FirstEssential(definitions, i) && definitions[i].name == r.value
    ensures r == Err(KeyError("essential")) <==> exists i: nat :: FirstUnflagged(definitions, i)
    ensures r == Err(UnrecoverableException("no essential containers found")) <==>
            forall i :: 0 <= i < |definitions| ==> definitions[i].essential == Some(false)
  {
    if definitions == [] then Err(UnrecoverableException("no essential containers found"))
    else match definitions[0].essential
      case None =>
        assert FirstUnflagged(definitions, 0);
        assert forall i: nat :: FirstEssential(definitions, i) ==> i == 0;
        Err(KeyError("essential"))
      case Some(true) =>
        assert FirstEssential(definitions, 0);
        assert forall i: nat :: FirstUnflagged(definitions, i) ==> i == 0;
        Ok(definitions[0].name)
      case Some(false) =>
        var rest := definitions[1..];
        var r := FindEssentialContainer(rest);
        forall i: nat ensures FirstEssential(definitions, i + 1) <==> FirstEssential(rest, i) {
          if i < |rest| {
            assert forall j :: 0 < j <= i ==> rest[j - 1] == definitions[j];
          }
        }
        forall i: nat ensures FirstUnflagged(definitions, i + 1) <==> FirstUnflagged(rest, i) {
          if i < |rest| {
            assert forall j :: 0 < j <= i ==> rest[j - 1] == definitions[j];
          }
        }
        assert !FirstEssential(definitions, 0) && !FirstUnflagged(definitions, 0);
        assert forall i: nat :: FirstEssential(definitions, i) ==> FirstEssential(rest, i - 1);
        assert forall i: nat :: FirstUnflagged(definitions, i) ==> FirstUnflagged(rest, i - 1);
        assert (forall i :: 0 <= i < |definitions| ==> definitions[i].essential == Some(false)) <==>
               (forall i :: 0 <= i < |rest| ==> rest[i].essential == Some(false));
        r
  }

  // ---------------------------------------------------------------------------
  // deploy_task_definition, is_deployed
  // ---------------------------------------------------------------------------

  /** The desired count `deploy_task_definition` sets before deploying. */
  function DesiredCount(current: int): (r: int)
    ensures r != 0
    ensures current != 0 ==> r == current
    ensures current == 0 ==> r == 1
  {
    if current == 0 then 1 else current
  }

  /** A `describe_services` event: its id, its creation time (as a number) and its text. */
  datatype Event = Event(id: string, createdAt: int, message: string)

  /** A snapshot of an ECS service: its deployments, its desired and running counts and its events. */
  datatype Service = Service(deployments: seq<string>, desiredCount: int, runningCount: int, events: seq<Event>)

  /**
   * `is_deployed(service)`: the rollout is over once a single deployment is left and the service
   * runs as many tasks as it desires; a second deployment still listed or a task count that has
   * not caught up means it is not.
   */
  predicate IsDeployed(service: Service): (r: bool)
    ensures r ==> |service.deployments| == 1 && service.runningCount == service.desiredCount
    ensures |service.deployments| != 1 || service.runningCount != service.desiredCount ==> !r
  {
    |service.deployments| == 1 && service.desiredCount == service.runningCount
  }

  // ---------------------------------------------------------------------------
  // fetch_events, fetch_and_print_new_events
  // ---------------------------------------------------------------------------

  predicate SortedByCreation(events: seq<Event>) {
    forall i, j :: 0 <= i < j < |events| ==> events[i].createdAt <= events[j].createdAt
  }

  /** The events created at time t, in the order given. */
  function CreatedAt(events: seq<Event>, t: int): seq<Event>
    decreases |events|
  {
    if events == [] then []
    else (if events[0].createdAt == t then [events[0]] else []) + CreatedAt(events[1..], t)
  }

  /** Puts an event before the first event created no earlier than it. */
  function InsertByCreation(e: Event, events: seq<Event>): (r: seq<Event>)
    decreases |events|
    ensures |r| == |events| + 1
    ensures forall x :: x in r <==> x == e || x in events
    ensures SortedByCreation(events) ==> SortedByCreation(r)
  {
    if events == [] || e.createdAt <= events[0].createdAt then
      assert SortedByCreation(events) ==> forall x :: x in events ==> e.createdAt <= x.createdAt;
      [e] + events
    else
      var first := events[0];
      var rest := InsertByCreation(e, events[1..]);
      assert events == [first] + events[1..];
      assert SortedByCreation(events) ==> forall x :: x in rest ==> first.createdAt <= x.createdAt;
      [first] + rest
  }

  /** Inserting an event adds exactly that event. */
  lemma {:induction false} InsertByCreationPermutes(e: Event, events: seq<Event>)
    decreases |events|
    ensures multiset(InsertByCreation(e, events)) == multiset(events) + multiset{e}
  {
    if events != [] && e.createdAt > events[0].createdAt {
      InsertByCreationPermutes(e, events[1..]);
      assert events == [events[0]] + events[1..];
    }
  }

  /** `sorted(events, key=lambda k: k['createdAt'])`, a stable sort. */
  function SortByCreation(events: seq<Event>): (r: seq<Event>)
    decreases |events|
    ensures |r| == |events|
  {
    if events == [] then [] else InsertByCreation(events[0], SortByCreation(events[1..]))
  }

  /** `fetch_events(service)`: the service's events, oldest first, each kept as often as it occurs. */
  function FetchEvents(service: Service): (r: seq<Event>)
    ensures SortedByCreation(r)
    ensures multiset(r) == multiset(service.events)
  {
    SortByCreationSorted(service.events);
    SortByCreation(service.events)
  }

  /** Sorting orders the events by creation time and keeps every event, as often as it occurs. */
  lemma {:induction false} SortByCreationSorted(events: seq<Event>)
    decreases |events|
    ensures SortedByCreation(SortByCreation(events))
    ensures multiset(SortByCreation(events)) == multiset(events)
  {
    if events != [] {
      SortByCreationSorted(events[1..]);
      InsertByCreationPermutes(events[0], SortByCreation(events[1..]));
      assert events == [events[0]] + events[1..];
    }
  }

  lemma CreatedAtCons(e: Event, events: seq<Event>, t: int)
    ensures CreatedAt([e] + events, t) == (if e.createdAt == t then [e] else []) + CreatedAt(events, t)
  {
    assert ([e] + events)[1..] == events;
  }

  /** An event created after `first` joins the events created at t after `first` does. */
  lemma CreatedAtBehindFirst(e: Event, first: Event, rest: seq<Event>, inserted: seq<Event>, t: int)
    requires e.createdAt > first.createdAt
    requires CreatedAt(inserted, t) == (if e.createdAt == t then [e] else []) + CreatedAt(rest, t)
    ensures CreatedAt([first] + inserted, t) == (if e.createdAt == t then [e] else []) + CreatedAt([first] + rest, t)
  {
    CreatedAtCons(first, inserted, t);
    CreatedAtCons(first, rest, t);
    // e and first cannot both have been created at t
    var before := if first.createdAt == t then [first] else [];
    if e.createdAt == t {
      assert before == [];
      assert CreatedAt([first] + inserted, t) == CreatedAt(inserted, t);
      assert CreatedAt([first] + rest, t) == CreatedAt(rest, t);
    } else {
      assert CreatedAt(inserted, t) == CreatedAt(rest, t);
    }
  }

  /** Inserting an event adds it in front of the events created at the same time. */
  lemma {:induction false} InsertByCreationStable(e: Event, events: seq<Event>, t: int)
    decreases |events|
    ensures CreatedAt(InsertByCreation(e, events), t) ==
            (if e.createdAt == t then [e] else []) + CreatedAt(events, t)
  {
    if events == [] || e.createdAt <= events[0].createdAt {
      CreatedAtCons(e, events, t);
    } else {
      var first, rest := events[0], events[1..];
      assert InsertByCreation(e, events) == [first] + InsertByCreation(e, rest);
      assert [first] + rest == events;
      InsertByCreationStable(e, rest, t);
      CreatedAtBehindFirst(e, first, rest, InsertByCreation(e, rest), t);
    }
  }

  /** Sorting is stable: the events created at any one time keep their relative order. */
  lemma {:induction false} SortByCreationStable(events: seq<Event>, t: int)
    decreases |events|
    ensures CreatedAt(SortByCreation(events), t) == CreatedAt(events, t)
  {
    if events != [] {
      SortByCreationStable(events[1..], t);
      InsertByCreationStable(events[0], SortByCreation(events[1..]), t);
    }
  }

  /** A sorted selection from the tail of a sorted sequence stays sorted with the head put back in front. */
  lemma SortedCons(all: seq<Event>, rest: seq<Event>)
    requires all != []
    requires forall x :: x in rest ==> x in all[1..]
    requires SortedByCreation(all[1..]) ==> SortedByCreation(rest)
    ensures SortedByCreation(all) ==> SortedByCreation(rest) && SortedByCreation([all[0]] + rest)
  {
    if SortedByCreation(all) {
      assert SortedByCreation(all[1..]) by {
        forall i, j | 0 <= i < j < |all| - 1 ensures all[1..][i].createdAt <= all[1..][j].createdAt {
          assert all[1..][i] == all[i + 1] && all[1..][j] == all[j + 1];
        }
      }
      var c := [all[0]] + rest;
      forall i, j | 0 <= i < j < |c| ensures c[i].createdAt <= c[j].createdAt {
        if i == 0 {
          assert c[j] == rest[j - 1];
          assert c[j] in all[1..];
          var k :| 0 <= k < |all| - 1 && all[1..][k] == c[j];
          assert all[k + 1] == c[j];
        } else {
          assert c[i] == rest[i - 1] && c[j] == rest[j - 1];
        }
      }
    }
  }

  /** The events of `all` that are not in `existing`, in the order of `all`. */
  function NewEvents(all: seq<Event>, existing: seq<Event>): (r: seq<Event>)
    decreases |all|
    ensures forall e :: e in r <==> e in all && e !in existing
    ensures SortedByCreation(all) ==> SortedByCreation(r)
  {
    if all == [] then []
    else
      var rest := NewEvents(all[1..], existing);
      assert forall e :: e in all <==> e == all[0] || e in all[1..] by {
        assert all == [all[0]] + all[1..];
      }
      SortedCons(all, rest);
      if all[0] in existing then rest else [all[0]] + rest
  }

  /** The text logged for an event: its message without parentheses, less its first eight characters. */
  function EventLine(message: string): (r: string)
    ensures '(' !in r && ')' !in r
    ensures forall c :: c in r ==> c in message
    ensures '(' !in message && ')' !in message ==> r == if |message| <= 8 then [] else message[8..]
  {
    var withoutOpen := RemoveAll(message, "(");
    var bare := RemoveAll(withoutOpen, ")");
    RemoveAllChar(message, '(');
    RemoveAllChar(withoutOpen, ')');
    if |bare| <= 8 then [] else bare[8..]
  }

  /** What one call of `fetch_and_print_new_events` logs, and the baseline it returns. */
  datatype Fetched = Fetched(lines: seq<string>, baseline: seq<Event>)

  /** `fetch_and_print_new_events(service, existing_events, color)`. */
  function FetchAndPrintNewEvents(service: Service, existing: seq<Event>): (r: Fetched)
    ensures r.baseline == FetchEvents(service)
    ensures var unseen := NewEvents(FetchEvents(service), existing);
            |r.lines| == |unseen| && forall i :: 0 <= i < |unseen| ==> r.lines[i] == EventLine(unseen[i].message)
  {
    var all := FetchEvents(service);
    var unseen := NewEvents(all, existing);
    Fetched(seq(|unseen|, i requires 0 <= i < |unseen| => EventLine(unseen[i].message)), all)
  }

  /**
   * The events logged for a snapshot are in creation order and none was in the baseline; with
   * the baseline the previous call returned, an event already seen is never logged again.
   */
  lemma NewEventsOnce(previous: Service, service: Service, existing: seq<Event>)
    ensures SortedByCreation(NewEvents(FetchEvents(service), existing))
    ensures forall e :: e in NewEvents(FetchEvents(service), existing) ==> e in service.events && e !in existing
    ensures forall e :: e in previous.events ==> e !in NewEvents(FetchEvents(service), FetchAndPrintNewEvents(previous, existing).baseline)
  {
    SortByCreationSorted(service.events);
    SortByCreationSorted(previous.events);
    assert forall e :: e in FetchEvents(service) ==> e in service.events by {
      forall e | e in FetchEvents(service) ensures e in service.events {
        assert e in multiset(FetchEvents(service));
      }
    }
    assert forall e :: e in previous.events ==> e in FetchEvents(previous) by {
      forall e | e in previous.events ensures e in FetchEvents(previous) {
        assert e in multiset(previous.events);
      }
    }
  }

  // ---------------------------------------------------------------------------
  // wait_for_finish, deploy_task_definition
  // ---------------------------------------------------------------------------

  /** A reading of the clock, and the snapshot of the service fetched right after it. */
  datatype Poll = Poll(time: int, service: Service)

  /** Whether the wait saw the deployment finish, and what it logged. */
  datatype Waiting = Waiting(deployed: bool, lines: seq<string>)

  /**
   * The outcome of `wait_for_finish` over the given readings: it stops with success at the first
   * snapshot that is deployed, and with failure at the first reading past the deadline. Readings
   * that run out before either count as the clock passing the deadline.
   */
  function Waited(polls: seq<Poll>, existing: seq<Event>, deadline: int): Waiting
    decreases |polls|
  {
    if polls == [] || polls[0].time > deadline then Waiting(false, [])
    else
      var fetched := FetchAndPrintNewEvents(polls[0].service, existing);
      if IsDeployed(polls[0].service) then Waiting(true, fetched.lines)
      else
        var rest := Waited(polls[1..], fetched.baseline, deadline);
        Waiting(rest.deployed, fetched.lines + rest.lines)
  }

  /** What the wait over all readings logs and decides, given what was logged before reading i. */
  predicate WaitedFrom(polls: seq<Poll>, existing: seq<Event>, deadline: int,
                       i: nat, events: seq<Event>, lines: seq<string>)
    requires i <= |polls|
  {
    var w := Waited(polls[i..], events, deadline);
    Waited(polls, existing, deadline) == Waiting(w.deployed, lines + w.lines)
  }

  /** One pass of the loop of `wait_for_finish`, at reading i, that sees the deployment finish. */
  lemma WaitedDone(polls: seq<Poll>, existing: seq<Event>, deadline: int,
                   i: nat, events: seq<Event>, lines: seq<string>)
    requires i < |polls| && polls[i].time <= deadline && IsDeployed(polls[i].service)
    requires WaitedFrom(polls, existing, deadline, i, events, lines)
    ensures Waited(polls, existing, deadline)
         == Waiting(true, lines + FetchAndPrintNewEvents(polls[i].service, events).lines)
  {
    assert polls[i..][0] == polls[i];
  }

  /** One pass of the loop of `wait_for_finish`, at reading i, that goes on waiting. */
  lemma WaitedNext(polls: seq<Poll>, existing: seq<Event>, deadline: int,
                   i: nat, events: seq<Event>, lines: seq<string>)
    requires i < |polls| && polls[i].time <= deadline && !IsDeployed(polls[i].service)
    requires WaitedFrom(polls, existing, deadline, i, events, lines)
    ensures var fetched := FetchAndPrintNewEvents(polls[i].service, events);
            WaitedFrom(polls, existing, deadline, i + 1, fetched.baseline, lines + fetched.lines)
  {
    var fetched := FetchAndPrintNewEvents(polls[i].service, events);
    assert polls[i..][0] == polls[i] && polls[i..][1..] == polls[i + 1..];
    var rest := Waited(polls[i + 1..], fetched.baseline, deadline);
    assert lines + (fetched.lines + rest.lines) == (lines + fetched.lines) + rest.lines;
  }

  /** `wait_for_finish(action, existing_events, color, deploy_end_time)`. */
  method WaitForFinish(polls: seq<Poll>, existingEvents: seq<Event>, deadline: int) returns (deployed: bool, lines: seq<string>)
    ensures Waiting(deployed, lines) == Waited(polls, existingEvents, deadline)
    ensures polls != [] && polls[0].time > deadline ==> !deployed && lines == []
  {
    var i := 0;
    var events := existingEvents;
    lines := [];
    assert lines + Waited(polls, existingEvents, deadline).lines == Waited(polls, existingEvents, deadline).lines;
    while i < |polls| && polls[i].time <= deadline
      invariant 0 <= i <= |polls|
      invariant WaitedFrom(polls, existingEvents, deadline, i, events, lines)
      decreases |polls| - i
    {
      var service := polls[i].service;
      var fetched := FetchAndPrintNewEvents(service, events);
      if IsDeployed(service) {
        WaitedDone(polls, existingEvents, deadline, i, events, lines);
        return true, lines + fetched.lines;
      }
      WaitedNext(polls, existingEvents, deadline, i, events, lines);
      events := fetched.baseline;
      lines := lines + fetched.lines;
      i := i + 1;
    }
    assert polls[i..] == [] || polls[i..][0].time > deadline;
    assert lines + [] == lines;
    return false, lines;
  }

  /**
   * The wait succeeds exactly when some snapshot is deployed and neither its reading nor any
   * earlier one is past the deadline.
   */
  lemma {:induction false} WaitDeployedIff(polls: seq<Poll>, existing: seq<Event>, deadline: int)
    decreases |polls|
    ensures Waited(polls, existing, deadline).deployed <==>
            exists k :: 0 <= k < |polls| && IsDeployed(polls[k].service) &&
                        forall m :: 0 <= m <= k ==> polls[m].time <= deadline
  {
    if polls != [] && polls[0].time <= deadline && !IsDeployed(polls[0].service) {
      var baseline := FetchAndPrintNewEvents(polls[0].service, existing).baseline;
      WaitDeployedIff(polls[1..], baseline, deadline);
      if Waited(polls, existing, deadline).deployed {
        var k :| 0 <= k < |polls[1..]| && IsDeployed(polls[1..][k].service) &&
                 forall m :: 0 <= m <= k ==> polls[1..][m].time <= deadline;
        assert forall m :: 0 <= m <= k + 1 ==> polls[m].time <= deadline by {
          forall m | 0 <= m <= k + 1 ensures polls[m].time <= deadline {
            if m > 0 { assert polls[m] == polls[1..][m - 1]; }
          }
        }
        assert IsDeployed(polls[k + 1].service);
      } else {
        forall k | 0 <= k < |polls| && IsDeployed(polls[k].service)
          ensures exists m :: 0 <= m <= k && polls[m].time > deadline
        {
          assert k > 0 && polls[k] == polls[1..][k - 1];
          var m :| 0 <= m <= k - 1 && polls[1..][m].time > deadline;
          assert polls[m + 1] == polls[1..][m];
        }
      }
    } else if polls != [] && polls[0].time <= deadline {
      assert IsDeployed(polls[0].service);
    }
  }

  /** The message of the exception a failed deployment or revert raises. */
  function FailureMessage(ecsServiceName: string, actionName: string): string {
    ecsServiceName + " " + actionName + " failed."
  }

  /**
   * `deploy_task_definition` followed by `deploy_and_wait`: the desired count it sets, what the
   * wait logs, and whether it raises. `current` is the service before the deployment, whose events
   * are the baseline; the deadline is `startTime + timeoutSeconds`.
   */
  method DeployTaskDefinition(ecsServiceName: string, actionName: string, current: Service, polls: seq<Poll>,
                              startTime: int, timeoutSeconds: int)
    returns (desiredCount: int, lines: seq<string>, r: Result<(), Exception>)
    ensures desiredCount == DesiredCount(current.desiredCount)
    ensures var w := Waited(polls, FetchEvents(current), startTime + timeoutSeconds);
            lines == w.lines && (r.Ok? <==> w.deployed)
    ensures r.Err? ==> r.error == UnrecoverableException(FailureMessage(ecsServiceName, actionName))
  {
    if current.desiredCount == 0 {
      desiredCount := 1;
    } else {
      desiredCount := current.desiredCount;
    }
    var existingEvents := FetchEvents(current);
    var deadline := startTime + timeoutSeconds;
    var succeeded;
    succeeded, lines := WaitForFinish(polls, existingEvents, deadline);
    ghost var w := Waited(polls, existingEvents, deadline);
    assert succeeded == w.deployed && lines == w.lines;
    if !succeeded {
      return desiredCount, lines, Err(UnrecoverableException(FailureMessage(ecsServiceName, actionName)));
    }
    return desiredCount, lines, Ok(());
  }

  // ---------------------------------------------------------------------------
  // _prepare_diff_table
  // ---------------------------------------------------------------------------

  predicate StrictlySorted(keys: seq<string>) {
    forall i, j :: 0 <= i < j < |keys| ==> Less(keys[i], keys[j])
  }

  lemma LeastUnique(s: set<string>)
    ensures forall m, n :: IsLeast(m, s) && IsLeast(n, s) ==> m == n
  {
    forall m, n | IsLeast(m, s) && IsLeast(n, s) ensures m == n {
      LessEqAntisymmetric(m, n);
    }
  }

  /** `sorted(keys)` for a set of strings. */
  function SortedSet(s: set<string>): (r: seq<string>)
    decreases |s|
    ensures StrictlySorted(r)
    ensures forall k :: k in r <==> k in s
  {
    if s == {} then []
    else
      LeastExists(s);
      LeastUnique(s);
      var m :| IsLeast(m, s);
      var rest := SortedSet(s - {m});
      assert forall k :: k in rest ==> Less(m, k);
      [m] + rest
  }

  /** The tail of a strictly sorted sequence is strictly sorted and holds what follows the head. */
  lemma SortedTail(a: seq<string>)
    requires StrictlySorted(a) && a != []
    ensures StrictlySorted(a[1..])
    ensures forall k :: k in a[1..] <==> k in a && k != a[0]
  {
    forall k | k in a[1..] ensures k in a && k != a[0] {
      var i :| 0 <= i < |a[1..]| && a[1..][i] == k;
      assert Less(a[0], a[i + 1]);
    }
    forall k | k in a && k != a[0] ensures k in a[1..] {
      var i :| 0 <= i < |a| && a[i] == k;
      assert a[1..][i - 1] == k;
    }
  }

  lemma HeadIn(s: seq<string>)
    ensures s == [] || s[0] in s
  {
  }

  /** A set has one strictly sorted listing. */
  lemma {:induction false} SortedUnique(a: seq<string>, b: seq<string>)
    requires StrictlySorted(a) && StrictlySorted(b)
    requires forall k :: k in a <==> k in b
    decreases |a|
    ensures a == b
  {
    if a != [] {
      assert a[0] in a;
      assert b[0] in b;
      assert a[0] == b[0] by {
        if a[0] != b[0] {
          var i :| 0 <= i < |a| && a[i] == b[0];
          var j :| 0 <= j < |b| && b[j] == a[0];
          assert Less(a[0], a[i]) && Less(b[0], b[j]);
          LessEqAntisymmetric(a[0], b[0]);
        }
      }
      SortedTail(a);
      SortedTail(b);
      SortedUnique(a[1..], b[1..]);
      assert a == [a[0]] + a[1..] && b == [b[0]] + b[1..];
    } else {
      HeadIn(b);
    }
  }

  /** `d.get(k, '-')`. */
  function Shown(d: map<string, string>, k: string): string {
    if k in d then d[k] else "-"
  }

  predicate Changed(earlier: map<string, string>, current: map<string, string>, k: string) {
    Shown(earlier, k) != Shown(current, k)
  }

  /** The header row of the table. */
  function DiffHeader(): seq<string> {
    ["{autoyellow}Name{/autoyellow}", "{autoyellow}Old value{/autoyellow}", "{autoyellow}Current value{/autoyellow}"]
  }

  /** The row of a changed key: the key marked in red, its earlier value and its current value. */
  function DiffRow(earlier: map<string, string>, current: map<string, string>, k: string): seq<string> {
    ["{autored}" + k + "{/autored}", Shown(earlier, k), Shown(current, k)]
  }

  /** In a strictly sorted sequence, whatever comes before the last key is less than it. */
  lemma SortedBeforeLast(keys: seq<string>, before: seq<string>)
    requires keys != []
    requires forall k :: k in before ==> k in keys[..|keys| - 1]
    ensures StrictlySorted(keys) ==> forall k :: k in before ==> Less(k, keys[|keys| - 1])
  {
    if StrictlySorted(keys) {
      forall k | k in before ensures Less(k, keys[|keys| - 1]) {
        var i :| 0 <= i < |keys| - 1 && keys[..|keys| - 1][i] == k;
        assert keys[i] == k;
      }
    }
  }

  /** A sorted selection from a sorted sequence stays sorted with the sequence's last key added. */
  lemma SortedSnoc(keys: seq<string>, before: seq<string>)
    requires keys != []
    requires StrictlySorted(keys[..|keys| - 1]) ==> StrictlySorted(before)
    requires StrictlySorted(keys) ==> forall k :: k in before ==> Less(k, keys[|keys| - 1])
    ensures StrictlySorted(keys) ==> StrictlySorted(keys[..|keys| - 1]) && StrictlySorted(before + [keys[|keys| - 1]])
  {
    if StrictlySorted(keys) {
      var c := before + [keys[|keys| - 1]];
      forall i, j | 0 <= i < j < |c| ensures Less(c[i], c[j]) {
        if j == |before| {
          assert c[i] in before;
        } else {
          assert c[i] == before[i] && c[j] == before[j];
        }
      }
    }
  }

  /** The keys, among `keys`, whose values differ, in the order of `keys`. */
  function ChangedKeys(earlier: map<string, string>, current: map<string, string>, keys: seq<string>): (r: seq<string>)
    decreases |keys|
    ensures forall k :: k in r <==> k in keys && Changed(earlier, current, k)
    ensures StrictlySorted(keys) ==> StrictlySorted(r)
  {
    if keys == [] then []
    else
      var init := keys[..|keys| - 1];
      var last := keys[|keys| - 1];
      var before := ChangedKeys(earlier, current, init);
      assert keys == init + [last];
      SortedBeforeLast(keys, before);
      SortedSnoc(keys, before);
      if Changed(earlier, current, last) then before + [last] else before
  }

  function DiffRows(earlier: map<string, string>, current: map<string, string>, keys: seq<string>): seq<seq<string>> {
    seq(|keys|, i requires 0 <= i < |keys| => DiffRow(earlier, current, keys[i]))
  }

  lemma ChangedKeysStep(earlier: map<string, string>, current: map<string, string>, keys: seq<string>, i: nat)
    requires i < |keys|
    ensures ChangedKeys(earlier, current, keys[..i + 1]) ==
            ChangedKeys(earlier, current, keys[..i]) + if Changed(earlier, current, keys[i]) then [keys[i]] else []
  {
    assert keys[..i + 1][..i] == keys[..i];
  }

  lemma DiffRowsSnoc(earlier: map<string, string>, current: map<string, string>, keys: seq<string>, k: string)
    ensures DiffRows(earlier, current, keys + [k]) == DiffRows(earlier, current, keys) + [DiffRow(earlier, current, k)]
  {
  }

  /** What `_prepare_diff_table(diff)` returns for a diff from `earlier` to `current`. */
  function DiffTable(earlier: map<string, string>, current: map<string, string>): seq<seq<string>> {
    [DiffHeader()] + DiffRows(earlier, current, ChangedKeys(earlier, current, SortedSet(earlier.Keys + current.Keys)))
  }

  /** The table built from the first i + 1 keys extends the one built from the first i by key i's row, if it changed. */
  lemma DiffTableStep(earlier: map<string, string>, current: map<string, string>, keys: seq<string>, i: nat)
    requires i < |keys|
    ensures var before := [DiffHeader()] + DiffRows(earlier, current, ChangedKeys(earlier, current, keys[..i]));
            [DiffHeader()] + DiffRows(earlier, current, ChangedKeys(earlier, current, keys[..i + 1])) ==
            if Changed(earlier, current, keys[i]) then before + [DiffRow(earlier, current, keys[i])] else before
  {
    ChangedKeysStep(earlier, current, keys, i);
    DiffRowsSnoc(earlier, current, ChangedKeys(earlier, current, keys[..i]), keys[i]);
  }

  /** `_prepare_diff_table(diff)`. */
  method PrepareDiffTable(earlier: map<string, string>, current: map<string, string>) returns (table: seq<seq<string>>)
    ensures table == DiffTable(earlier, current)
  {
    var keys := SortedSet(earlier.Keys + current.Keys);
    table := [DiffHeader()];
    for i := 0 to |keys|
      invariant table == [DiffHeader()] + DiffRows(earlier, current, ChangedKeys(earlier, current, keys[..i]))
    {
      var envVar := keys[i];
      DiffTableStep(earlier, current, keys, i);
      var oldVal := Shown(earlier, envVar);
      var currentVal := Shown(current, envVar);
      if oldVal != currentVal {
        table := table + [["{autored}" + envVar + "{/autored}", oldVal, currentVal]];
      }
    }
    assert keys[..|keys|] == keys;
  }

  /**
   * The table lists, after its header, one row per key of either map whose shown values differ,
   * in sorted key order.
   */
  lemma DiffTableRows(earlier: map<string, string>, current: map<string, string>)
    ensures var keys := ChangedKeys(earlier, current, SortedSet(earlier.Keys + current.Keys));
            && StrictlySorted(keys)
            && (forall k :: k in keys <==> (k in earlier || k in current) && Changed(earlier, current, k))
            && DiffTable(earlier, current) == [DiffHeader()] + DiffRows(earlier, current, keys)
  {
  }

  /** The table is only the header, which the caller reports as no change, exactly when no key's shown value differs. */
  lemma DiffTableUnchangedIff(earlier: map<string, string>, current: map<string, string>)
    ensures |DiffTable(earlier, current)| == 1 <==> forall k :: Shown(earlier, k) == Shown(current, k)
  {
    var keys := ChangedKeys(earlier, current, SortedSet(earlier.Keys + current.Keys));
    if |DiffTable(earlier, current)| == 1 {
      forall k ensures Shown(earlier, k) == Shown(current, k) {
        assert k !in keys;
      }
    } else {
      assert keys[0] in keys;
    }
  }
}
