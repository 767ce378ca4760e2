/** The job supervisor: child processes started, killed and restarted under a state machine.
    Forks give fresh positive pids; the operating system's side is the set of live children. */
module JobControl {
  import opened Fsm
  import opened Options
  import opened NatSets

  /** A job description; `spec` stands for everything but the name. */
  datatype Job = Job(name: string, spec: string)

  datatype Status = NOT_CREATED | RUNNING | KILLED

  datatype Process = Process(job: Job, childPid: nat, status: Status)

  type ProcessMap = map<nat, Process>

  /** The callbacks of the transition table. */
  datatype Action = Initialise | Registration | RegisterJob | EndRegistration | Start | Kill | Destroy

  /** The transitions registered. */
  function Rows(): seq<Row<Action>> {
    [
      Row("INITIALISE", Transition("CREATED", "INITIALISED", Action.Initialise)),
      Row("REGISTRATION", Transition("CREATED", "REGISTERING", Action.Registration)),
      Row("REGISTERJOB", Transition("REGISTERING", "REGISTERING", Action.RegisterJob)),
      Row("ENDREGISTRATION", Transition("REGISTERING", "INITIALISED", Action.EndRegistration)),
      Row("START", Transition("INITIALISED", "RUNNING", Action.Start)),
      Row("KILL", Transition("RUNNING", "INITIALISED", Action.Kill)),
      Row("DESTROY", Transition("INITIALISED", "CREATED", Action.Destroy))
    ]
  }

  /** Every entry is a running child under its own pid. */
  ghost predicate Entries(m: ProcessMap) {
    forall p :: p in m ==> p > 0 && m[p].childPid == p && m[p].status == RUNNING
  }

  /** Live children that the supervisor has no entry for. */
  ghost function Forgotten(live: set<nat>, m: ProcessMap): set<nat> { live - m.Keys }

  ghost predicate DistinctNames(js: seq<Job>) {
    forall i, j :: 0 <= i < j < |js| ==> js[i].name != js[j].name
  }

  /** m holds exactly one process for each job of js, the one of js[i] under pids[i]. */
  ghost predicate Launched(m: ProcessMap, js: seq<Job>, pids: seq<nat>) {
    && |pids| == |js|
    && (forall i, j :: 0 <= i < j < |pids| ==> pids[i] != pids[j])
    && (forall i :: 0 <= i < |js| ==> pids[i] in m && m[pids[i]] == Process(js[i], pids[i], RUNNING))
    && (forall p :: p in m ==> p in pids)
  }

  /** Pids that forks may give: positive, distinct, neither live nor in the map. */
  ghost predicate FreshPids(pids: seq<nat>, live: set<nat>, m: ProcessMap) {
    && (forall i, j :: 0 <= i < j < |pids| ==> pids[i] != pids[j])
    && (forall i :: 0 <= i < |pids| ==> pids[i] > 0 && pids[i] !in live && pids[i] !in m)
  }

  lemma NothingLaunched(m: ProcessMap, js: seq<Job>, pids: seq<nat>)
    requires m == map[]
    ensures Launched(m, js[..0], pids[..0]) && Entries(m)
  {
  }

  lemma LaunchedPids(m: ProcessMap, js: seq<Job>, pids: seq<nat>)
    requires Launched(m, js, pids)
    ensures m.Keys == set p | p in pids
  {
  }

  lemma LaunchedOneMore(m: ProcessMap, js: seq<Job>, pids: seq<nat>, i: nat)
    requires i < |js| == |pids| && Launched(m, js[..i], pids[..i]) && Entries(m)
    requires forall a, b :: 0 <= a < b < |pids| ==> pids[a] != pids[b]
    requires pids[i] > 0
    ensures pids[i] !in m && pids[i] !in pids[..i] && pids[..i + 1] == pids[..i] + [pids[i]]
    ensures var m' := m[pids[i] := Process(js[i], pids[i], RUNNING)];
            Launched(m', js[..i + 1], pids[..i + 1]) && Entries(m')
  {
  }

  ghost predicate Named(js: seq<Job>, name: string) {
    exists k :: k in js && k.name == name
  }

  /** A job joins the list unless its name is there already. */
  ghost function WithJob(js: seq<Job>, job: Job): seq<Job> {
    if Named(js, job.name) then js else js + [job]
  }

  ghost function FirstOfEachName(jobs: seq<Job>): seq<Job> {
    if jobs == [] then [] else WithJob(FirstOfEachName(jobs[..|jobs| - 1]), jobs[|jobs| - 1])
  }

  lemma NoJobs()
    ensures FirstOfEachName([]) == []
  {
  }

  lemma FewerPids(pids: seq<nat>, n: nat, live: set<nat>, m: ProcessMap)
    requires FreshPids(pids, live, m) && n <= |pids|
    ensures FreshPids(pids[..n], live, m)
  {
  }

  /** js has pairwise distinct names, all the names of jobs, and only descriptions in jobs. */
  ghost predicate OnePerName(js: seq<Job>, jobs: seq<Job>) {
    && |js| <= |jobs| && DistinctNames(js)
    && (forall j :: j in js ==> j in jobs)
    && (forall j :: j in jobs ==> Named(js, j.name))
  }

  lemma EmptyRegistration()
    ensures OnePerName(FirstOfEachName([]), []) && FirstOfEachName([]) == []
  {
  }

  lemma LastJob(jobs: seq<Job>)
    requires jobs != []
    ensures FirstOfEachName(jobs) == WithJob(FirstOfEachName(jobs[..|jobs| - 1]), jobs[|jobs| - 1])
  {
  }

  lemma JoinedJob(js: seq<Job>, jobs: seq<Job>, job: Job)
    requires OnePerName(js, jobs)
    ensures OnePerName(WithJob(js, job), jobs + [job]) && |WithJob(js, job)| <= |js| + 1
  {
  }

  lemma Joins(js: seq<Job>, jobs: seq<Job>, job: Job)
    requires OnePerName(js, jobs)
    ensures WithJob(js, job) == if Named(js, job.name) then js else js + [job]
    ensures !Named(js, job.name) ==> forall m :: 0 <= m < |jobs| ==> jobs[m].name != job.name
  {
  }

  /** The list built by registration: for each name the first description given, in the order
      in which the names came. k: where they stand among jobs. */
  lemma {:induction false} FirstNamesDistinct(jobs: seq<Job>) returns (k: seq<nat>)
    ensures OnePerName(FirstOfEachName(jobs), jobs) && |FirstOfEachName(jobs)| == |k| <= |jobs|
    ensures forall i, j :: 0 <= i < j < |k| ==> k[i] < k[j]
    ensures forall i :: 0 <= i < |k| ==> k[i] < |jobs| && FirstOfEachName(jobs)[i] == jobs[k[i]]
    ensures forall i, m :: 0 <= i < |k| && 0 <= m < k[i] ==> jobs[m].name != jobs[k[i]].name
  {
    hide OnePerName, FirstOfEachName, WithJob, Named;
    if jobs == [] {
      EmptyRegistration();
      k := [];
    } else {
      var init, last := jobs[..|jobs| - 1], jobs[|jobs| - 1];
      k := FirstNamesDistinct(init);
      assert jobs == init + [last];
      LastJob(jobs);
      JoinedJob(FirstOfEachName(init), init, last);
      Joins(FirstOfEachName(init), init, last);
      if !Named(FirstOfEachName(init), last.name) {
        k := k + [|init|];
      }
    }
  }

  ghost function AnyPid(m: ProcessMap): nat
    requires m.Keys != {}
    ensures AnyPid(m) in m
  {
    var p :| p in m; p
  }

  /** The job descriptions of the processes, as a bag. */
  ghost function Bag(m: ProcessMap): multiset<Job>
    decreases m.Keys
  {
    if m.Keys == {} then multiset{} else var p := AnyPid(m); multiset{m[p].job} + Bag(m - {p})
  }

  lemma BagUnfold(m: ProcessMap)
    requires m.Keys != {}
    ensures Bag(m) == multiset{m[AnyPid(m)].job} + Bag(m - {AnyPid(m)})
  {
  }

  lemma {:induction false} BagSplit(m: ProcessMap, p: nat)
    requires p in m
    ensures Bag(m) == multiset{m[p].job} + Bag(m - {p})
    decreases m.Keys
  {
    hide Bag;
    var x := AnyPid(m);
    BagUnfold(m);
    if x != p {
      BagSplit(m - {x}, p);
      BagSplit(m - {p}, x);
      assert m - {x} - {p} == m - {p} - {x};
    }
  }

  lemma BagReplaced(m: ProcessMap, p: nat, q: nat)
    requires p in m && q !in m
    ensures Bag((m - {p})[q := Process(m[p].job, q, RUNNING)]) == Bag(m)
  {
    hide Bag;
    var m' := (m - {p})[q := Process(m[p].job, q, RUNNING)];
    BagSplit(m, p);
    BagSplit(m', q);
    assert m' - {q} == m - {p};
  }

  /** No command has two rows. */
  lemma RowsDiffer(i: nat, j: nat)
    requires i < j < |Rows()|
    ensures Rows()[i].cmd != Rows()[j].cmd
  {
  }

  /** Each row of the table is the one that counts for its command and state. */
  lemma TableRow(i: nat)
    requires i < |Rows()|
    ensures var row := Rows()[i]; FirstRow(Rows(), row.cmd, row.tr.initial) == Some(row.tr)
  {
    hide FirstRow, Rows;
    forall a, b | 0 <= a < b < |Rows()| ensures Rows()[a].cmd != Rows()[b].cmd {
      RowsDiffer(a, b);
    }
    RowCounts(Rows(), i);
  }

  lemma SessionRows()
    ensures FirstRow(Rows(), "INITIALISE", "CREATED") == Some(Transition("CREATED", "INITIALISED", Initialise))
    ensures FirstRow(Rows(), "START", "INITIALISED") == Some(Transition("INITIALISED", "RUNNING", Start))
    ensures FirstRow(Rows(), "KILL", "RUNNING") == Some(Transition("RUNNING", "INITIALISED", Kill))
    ensures FirstRow(Rows(), "DESTROY", "INITIALISED") == Some(Transition("INITIALISED", "CREATED", Destroy))
  {
    hide FirstRow;
    TableRow(0);
    TableRow(4);
    TableRow(5);
    TableRow(6);
  }

  lemma FreshGone(pids: seq<nat>, live: set<nat>, m: ProcessMap)
    requires FreshPids(pids, live, m)
    ensures live + (set p | p in pids) - (set p | p in pids) == live
  {
  }

  class FsmJob {
    const fsm: Machine<Action>
    var jconf: seq<Job>
    var processMap: ProcessMap

    /** The children alive. */
    ghost var live: set<nat>

    /** The invariant that holds whatever signals are sent. */
    ghost predicate Valid()
      reads this, fsm
    {
      && fsm.Valid() && fsm.rows == Rows()
      && Entries(processMap)
      && (fsm.state != "RUNNING" ==> processMap == map[])
    }

    /** No live child is without an entry. */
    ghost predicate Watched()
      reads this
    {
      Forgotten(live, processMap) == {}
    }

    constructor ()
      ensures Valid() && Watched() && fsm.state == "CREATED" && jconf == [] && fresh(fsm)
    {
      var f := NewMachine(Rows());
      fsm, jconf, processMap, live := f, [], map[], {};
    }

    // ----- the operating system

    /** A signal is sent; fatal tells whether it ends the process. */
    ghost method Signal(pid: nat, fatal: bool)
      modifies this`live
      ensures live == if fatal then old(live) - {pid} else old(live)
    {
      if fatal {
        live := live - {pid};
      }
    }

    /** A child ends by itself. */
    ghost method ChildExits(pid: nat)
      requires Valid()
      modifies this`live
      ensures Valid() && live == old(live) - {pid} && (old(Watched()) ==> Watched())
    {
      live := live - {pid};
    }

    // ----- processes

    /** Fork a child for the job (parent side) and enter it under its pid. */
    method StartProcess(job: Job, pid: nat)
      requires pid > 0 && pid !in live && pid !in processMap
      modifies this`live, this`processMap
      ensures processMap == old(processMap)[pid := Process(job, pid, RUNNING)] && live == old(live) + {pid}
    {
      live := live + {pid};
      if pid !in processMap {
        processMap := processMap[pid := Process(job, pid, RUNNING)];
      }
    }

    method KillProcess(pid: nat, fatal: bool)
      requires Entries(processMap)
      modifies this`live, this`processMap
      ensures Entries(processMap) && processMap == old(processMap) - {pid}
      ensures live == if fatal && pid in old(processMap) then old(live) - {pid} else old(live)
      // a live child is forgotten just when its entry goes by a signal that does not end it
      ensures Forgotten(live, processMap)
           == old(Forgotten(live, processMap))
              + if !fatal && pid in old(processMap) && pid in old(live) then {pid} else {}
    {
      if pid in processMap && processMap[pid].status == RUNNING {
        Signal(pid, fatal);
        processMap := processMap - {pid};
      } else {
        assert processMap - {pid} == processMap;
      }
    }

    // ----- callbacks of the state machine

    method InitialiseCallback(config: seq<Job>)
      modifies this`jconf, this`processMap
      ensures jconf == config && processMap == map[]
    {
      processMap := map[];
      jconf := config;
    }

    method RegisterJobCallback(job: Job)
      modifies this`jconf
      ensures jconf == old(WithJob(jconf, job))
    {
      var i := 0;
      while i < |jconf|
        invariant 0 <= i <= |jconf| && jconf == old(jconf)
        invariant forall k :: 0 <= k < i ==> jconf[k].name != job.name
      {
        if jconf[i].name == job.name {
          return;
        }
        i := i + 1;
      }
      jconf := jconf + [job];
    }

    method StartCallback(pids: seq<nat>)
      requires processMap == map[] && |pids| == |jconf| && FreshPids(pids, live, processMap)
      modifies this`live, this`processMap
      ensures Launched(processMap, jconf, pids) && Entries(processMap) && processMap.Keys == set p | p in pids
      ensures live == old(live) + set p | p in pids
    {
      hide Launched, Entries;
      NothingLaunched(processMap, jconf, pids);
      var i := 0;
      while i < |jconf|
        invariant 0 <= i <= |jconf| && jconf == old(jconf)
        invariant Launched(processMap, jconf[..i], pids[..i]) && Entries(processMap)
        invariant live == old(live) + set p | p in pids[..i]
      {
        LaunchedOneMore(processMap, jconf, pids, i);
        StartProcess(jconf[i], pids[i]);
        i := i + 1;
      }
      assert jconf[..|jconf|] == jconf && pids[..|pids|] == pids;
      LaunchedPids(processMap, jconf, pids);
    }

    method KillCallback()
      requires Entries(processMap)
      modifies this`live, this`processMap
      ensures processMap == map[] && live == old(live) - old(processMap.Keys)
    {
      var todo := processMap.Keys;
      while todo != {}
        invariant processMap.Keys == todo && Entries(processMap)
        invariant todo <= old(processMap.Keys)
        invariant live == old(live) - (old(processMap.Keys) - todo)
        decreases todo
      {
        var p :| p in todo;
        KillProcess(p, true);
        todo := todo - {p};
      }
    }

    // ----- transitions

    /** One command to the state machine. job and config stand for the content of its message,
        pids for what the forks of START give. */
    method Command(cmd: string, job: Job, config: seq<Job>, pids: seq<nat>) returns (accepted: bool)
      requires Valid()
      requires cmd == "START" && fsm.state == "INITIALISED" ==> |pids| == |jconf| && FreshPids(pids, live, processMap)
      modifies fsm`state, this`jconf, this`processMap, this`live
      ensures Valid()
      ensures old(Watched()) ==> Watched()
      ensures accepted <==> FirstRow(Rows(), cmd, old(fsm.state)).Some?
      ensures !accepted ==>
          fsm.state == old(fsm.state) && jconf == old(jconf) && processMap == old(processMap) && live == old(live)
      ensures accepted ==> fsm.state == FirstRow(Rows(), cmd, old(fsm.state)).value.final
      ensures accepted ==> match FirstRow(Rows(), cmd, old(fsm.state)).value.callback
        case Initialise => jconf == config && live == old(live)
        case Registration => jconf == [] && live == old(live)
        case RegisterJob => jconf == old(WithJob(jconf, job)) && live == old(live)
        case EndRegistration => jconf == old(jconf) && live == old(live)
        case Start => jconf == old(jconf) && Launched(processMap, jconf, pids) && live == old(live) + set p | p in pids
        case Kill => jconf == old(jconf) && processMap == map[] && live == old(live) - old(processMap.Keys)
        case Destroy => jconf == old(jconf) && live == old(live)
    {
      hide FirstRow, Launched, FreshPids;
      FirstRowIsRow(Rows(), cmd, fsm.state);
      var r := fsm.Find(cmd);
      if r.None? {
        return false;
      }
      var t := r.value;
      match t.callback {
        case Initialise => InitialiseCallback(config);
        case Registration => jconf := [];
        case RegisterJob => RegisterJobCallback(job);
        case EndRegistration =>
        case Start => StartCallback(pids);
        case Kill => KillCallback();
        case Destroy =>
      }
      fsm.SetState(t.final);
      accepted := true;
    }

    // ----- web commands, which do not move the state machine

    /** The entry with the least pid that has this name or this pid; 0 when there is none. */
    method FirstMatch(name: string, pid: nat) returns (p: nat)
      requires Entries(processMap)
      ensures p == 0 ==> forall q :: q in processMap ==> processMap[q].job.name != name && q != pid
      ensures p != 0 ==> p in processMap && (processMap[p].job.name == name || p == pid)
      ensures forall q :: q in processMap && q < p ==> processMap[q].job.name != name && q != pid
    {
      var todo := processMap.Keys;
      while todo != {}
        invariant todo <= processMap.Keys
        invariant forall q, x :: q in processMap && q !in todo && x in todo ==> q < x
        invariant forall q :: q in processMap && q !in todo ==> processMap[q].job.name != name && q != pid
        decreases todo
      {
        p := Least(todo);
        if processMap[p].job.name == name || p == pid {
          return;
        }
        todo := todo - {p};
      }
      p := 0;
    }

    /** KILLJOB, by pid or, without one, by name; target is the pid that is signalled, 0 when
        there is none. */
    method KillJob(name: string, pid: nat, fatal: bool) returns (target: nat)
      requires Valid()
      modifies this`processMap, this`live
      ensures Valid()
      ensures pid != 0 ==> target == pid
      ensures pid == 0 && target == 0 ==>
          name == "NONE" || forall q :: q in old(processMap) ==> old(processMap)[q].job.name != name
      ensures pid == 0 && target != 0 ==>
          && name != "NONE" && target in old(processMap) && old(processMap)[target].job.name == name
          && forall q :: q in old(processMap) && q < target ==> old(processMap)[q].job.name != name
      ensures processMap == old(processMap) - {target}
      ensures live == if fatal && target in old(processMap) then old(live) - {target} else old(live)
      // a live child is forgotten just when its entry goes by a signal that does not end it
      ensures old(Watched()) ==>
          Forgotten(live, processMap) == if fatal then {} else old(live) * (old(processMap.Keys) - processMap.Keys)
    {
      if pid == 0 && name == "NONE" {
        assert processMap - {0} == processMap;
        return 0;
      }
      target := pid;
      if pid == 0 {
        target := FirstMatch(name, 0);
      }
      KillProcess(target, fatal);
    }

    /** RESTARTJOB: the entry found is killed and its job started again under a new pid. */
    method RestartJob(name: string, pid: nat, fatal: bool, newPid: nat) returns (was: nat)
      requires Valid() && newPid > 0 && newPid !in live && newPid !in processMap
      modifies this`processMap, this`live
      ensures Valid()
      ensures old(Watched()) ==>
          Forgotten(live, processMap) == if fatal || was == 0 || was !in old(live) then {} else {was}
      // no entry: none has the name or the pid
      ensures was == 0 ==> processMap == old(processMap) && live == old(live)
      ensures was == 0 ==>
          (pid == 0 && name == "NONE")
          || forall q :: q in old(processMap) ==> old(processMap)[q].job.name != name && q != pid
      // else the first that has either
      ensures was != 0 ==>
          && (pid != 0 || name != "NONE") && was in old(processMap)
          && (old(processMap)[was].job.name == name || was == pid)
          && forall q :: q in old(processMap) && q < was ==> old(processMap)[q].job.name != name && q != pid
      ensures was != 0 ==>
          && processMap == (old(processMap) - {was})[newPid := Process(old(processMap)[was].job, newPid, RUNNING)]
          && newPid in live && (fatal ==> was !in live)
      ensures Bag(processMap) == Bag(old(processMap))
    {
      if pid == 0 && name == "NONE" {
        return 0;
      }
      hide Bag, Means, FirstRow;
      was := FirstMatch(name, pid);
      if was == 0 {
        return;
      }
      BagReplaced(processMap, was, newPid);
      Replace(was, fatal, newPid);
    }

    /** Kill one process and start its job again. */
    method Replace(p: nat, fatal: bool, newPid: nat)
      requires Entries(processMap) && p in processMap && newPid > 0 && newPid !in live && newPid !in processMap
      modifies this`processMap, this`live
      ensures Entries(processMap)
      ensures processMap == (old(processMap) - {p})[newPid := Process(old(processMap)[p].job, newPid, RUNNING)]
      ensures live == (if fatal then old(live) - {p} else old(live)) + {newPid}
    {
      var job := processMap[p].job;
      KillProcess(p, fatal);
      StartProcess(job, newPid);
    }

    /** REGISTERFILE: in INITIALISED only; config is what the file holds for this host. */
    method RegisterFile(given: bool, config: seq<Job>, parsed: bool)
      requires Valid()
      modifies this`processMap, this`jconf
      ensures Valid() && processMap == old(processMap)
      ensures fsm.state != "INITIALISED" ==> jconf == old(jconf)
      ensures fsm.state == "INITIALISED" ==> jconf == if given && parsed then config else []
    {
      if fsm.state != "INITIALISED" {
        return;
      }
      jconf, processMap := [], map[];
      if !given {
        return;
      }
      if parsed {
        jconf := config;
      }
    }

    // ----- whole sessions

    /** INITIALISE, START, KILL, DESTROY: the jobs of the configuration have run, and the
        supervisor is as it began, with no child more. */
    method RunConfigured(config: seq<Job>, pids: seq<nat>) returns (accepted: seq<bool>)
      requires Valid() && fsm.state == "CREATED" && |pids| == |config| && FreshPids(pids, live, processMap)
      modifies fsm`state, this`jconf, this`processMap, this`live
      ensures accepted == [true, true, true, true]
      ensures Valid() && fsm.state == "CREATED" && jconf == config && processMap == map[] && live == old(live)
    {
      hide FirstRow, Means, Rows, Entries;
      SessionRows();
      var none := Job("", "");
      var ok1 := Command("INITIALISE", none, config, []);
      var ok2 := Command("START", none, [], pids);
      LaunchedPids(processMap, jconf, pids);
      hide Launched;
      var ok3 := Command("KILL", none, [], []);
      FreshGone(pids, old(live), old(processMap));
      var ok4 := Command("DESTROY", none, [], []);
      accepted := [ok1, ok2, ok3, ok4];
    }

    /** REGISTRATION, one REGISTERJOB for each of jobs, ENDREGISTRATION, START: exactly one
        process for each distinct name runs, with the first description given for it. */
    method RegisterAndStart(jobs: seq<Job>, pids: seq<nat>) returns (ghost k: seq<nat>)
      requires Valid() && fsm.state == "CREATED" && |pids| >= |jobs| && FreshPids(pids, live, processMap)
      modifies fsm`state, this`jconf, this`processMap, this`live
      ensures Valid() && fsm.state == "RUNNING"
      ensures |jconf| <= |pids| && Launched(processMap, jconf, pids[..|jconf|])
      ensures OnePerName(jconf, jobs) && |jconf| == |k|
      ensures forall i, j :: 0 <= i < j < |k| ==> k[i] < k[j]
      ensures forall i :: 0 <= i < |k| ==> k[i] < |jobs| && jconf[i] == jobs[k[i]]
      ensures forall i, m :: 0 <= i < |k| && 0 <= m < k[i] ==> jobs[m].name != jobs[k[i]].name
    {
      hide FirstRow, Launched, Entries, Means, FreshPids, FirstOfEachName, WithJob, OnePerName;
      TableRow(1);
      TableRow(3);
      TableRow(4);
      var none := Job("", "");
      var ok := Command("REGISTRATION", none, [], []);
      RegisterAll(jobs);
      k := FirstNamesDistinct(jobs);
      ok := Command("ENDREGISTRATION", none, [], []);
      FewerPids(pids, |jconf|, live, processMap);
      ok := Command("START", none, [], pids[..|jconf|]);
    }

    /** One REGISTERJOB for each of jobs. */
    method RegisterAll(jobs: seq<Job>)
      requires Valid() && fsm.state == "REGISTERING" && jconf == []
      modifies fsm`state, this`jconf, this`processMap, this`live
      ensures Valid() && fsm.state == "REGISTERING" && live == old(live)
      ensures jconf == FirstOfEachName(jobs)
    {
      hide FirstRow, Launched, Entries, Means, FreshPids, FirstOfEachName, WithJob;
      TableRow(2);
      NoJobs();
      var i := 0;
      while i < |jobs|
        invariant 0 <= i <= |jobs| && Valid() && fsm.state == "REGISTERING"
        invariant jconf == FirstOfEachName(jobs[..i]) && live == old(live)
      {
        var ok := Command("REGISTERJOB", jobs[i], [], []);
        LastJob(jobs[..i + 1]);
        assert jobs[..i + 1][..i] == jobs[..i];
        i := i + 1;
      }
      assert jobs[..|jobs|] == jobs;
    }
  }
}
