/** The election of the cache maintenance master: any number of processes share one memory
    cell (the master's pid) and one semaphore, and may die between any two steps. */
module MasterElection {
  import opened Options

  type Pid = nat

  /** Where a process is inside `maintenance_handler`; `Creating` is the point in `link_up`
      at which it found no shared memory. */
  datatype Phase =
    | Creating
    | Idle
    | Waiting                  // before sem_wait
    | Locked                   // before the liveness check
    | Found(running: bool)     // after the liveness check
    | Claimed                  // own pid written, flag not yet set
    | Flagged                  // before sem_post
    | Checked                  // master_check has returned
    | Maintaining

  datatype Proc = Proc(live: bool, linked: bool, master: bool, phase: Phase)

  /** `shared` is the pid cell, none while the memory segment does not exist; `free` says that
      the semaphore can be taken. Dead processes stay in `procs`, so their pids are not reused. */
  datatype World = World(shared: Option<Pid>, free: bool, procs: map<Pid, Proc>)

  const INIT := World(None, true, map[])

  datatype Action =
    | LinkProbe(p: Pid) | LinkCreate(p: Pid) | LinkDown(p: Pid) | Crash(p: Pid)
    | Test(p: Pid) | Wait(p: Pid) | Probe(p: Pid) | Claim(p: Pid) | Flag(p: Pid) | Post(p: Pid)
    | Decide(p: Pid) | Finish(p: Pid)

  predicate At(w: World, p: Pid, phase: Phase) {
    p in w.procs && w.procs[p].live && w.procs[p].linked && w.procs[p].phase == phase
  }

  predicate Attached(w: World, p: Pid) {
    p in w.procs && w.procs[p].live && w.procs[p].linked
  }

  predicate Alive(w: World, p: Pid) {
    p in w.procs && w.procs[p].live
  }

  predicate OwnerAlive(w: World) {
    w.shared.Some? && Alive(w, w.shared.value)
  }

  predicate Enabled(w: World, a: Action) {
    match a
    case LinkProbe(p) => p !in w.procs
    case LinkCreate(p) => Alive(w, p) && !w.procs[p].linked && w.procs[p].phase == Creating
    case LinkDown(p) => At(w, p, Idle)
    case Crash(p) => Alive(w, p)
    case Test(p) => At(w, p, Idle)
    case Wait(p) => At(w, p, Waiting) && w.free
    case Probe(p) => At(w, p, Locked)
    case Claim(p) => At(w, p, Found(false))
    case Flag(p) => At(w, p, Claimed)
    case Post(p) => At(w, p, Found(true)) || At(w, p, Flagged)
    case Decide(p) => At(w, p, Checked)
    case Finish(p) => At(w, p, Maintaining)
  }

  function To(w: World, p: Pid, phase: Phase): World
    requires p in w.procs
  {
    w.(procs := w.procs[p := w.procs[p].(phase := phase)])
  }

  function Next(w: World, a: Action): World
    requires Enabled(w, a)
  {
    match a
    case LinkProbe(p) =>
      var clientOrCreator := if w.shared.Some? then Proc(true, true, false, Idle)
                             else Proc(true, false, false, Creating);
      w.(procs := w.procs[p := clientOrCreator])
    case LinkCreate(p) =>
      // IPC_CREAT without IPC_EXCL: an existing segment is simply attached
      World(Some(p), w.free || w.shared.None?, w.procs[p := Proc(true, true, true, Idle)])
    case LinkDown(p) =>
      var t := w.(procs := w.procs[p := w.procs[p].(linked := false)]);
      if exists q | q in t.procs :: Attached(t, q) then t else t.(shared := None, free := true)
    case Crash(p) => w.(procs := w.procs[p := w.procs[p].(live := false)])
    case Test(p) => To(w, p, if w.shared == Some(p) then Checked else Waiting)
    case Wait(p) => To(w, p, Locked).(free := false)
    case Probe(p) => To(w, p, Found(OwnerAlive(w)))
    case Claim(p) => To(w, p, Claimed).(shared := Some(p))
    case Flag(p) => w.(procs := w.procs[p := w.procs[p].(master := true, phase := Flagged)])
    case Post(p) => To(w, p, Checked).(free := true)
    case Decide(p) => To(w, p, if w.procs[p].master then Maintaining else Idle)
    case Finish(p) => To(w, p, Idle)
  }

  // ----- Safety

  predicate Inside(ph: Phase) {
    ph.Locked? || ph.Found? || ph.Claimed? || ph.Flagged?
  }

  ghost predicate Holds(w: World, p: Pid) {
    Attached(w, p) && Inside(w.procs[p].phase)
  }

  ghost predicate Masters(w: World, p: Pid) {
    Attached(w, p) && w.procs[p].master
  }

  /** What is known of one process. */
  ghost predicate ProcOk(w: World, p: Pid) {
    Attached(w, p) ==>
      var x := w.procs[p];
      && w.shared.Some?
      && (x.master ==> w.shared == Some(p))
      && (w.shared == Some(p) && !x.phase.Claimed? ==> x.master)
      && (Inside(x.phase) ==> !w.free)
      && (x.phase == Found(false) ==> !OwnerAlive(w))
      && (x.phase.Claimed? || x.phase.Flagged? ==> w.shared == Some(p))
      && (x.phase.Maintaining? ==> x.master)
      && !x.phase.Creating?
  }

  ghost predicate Inv(w: World) {
    && (forall p | p in w.procs :: ProcOk(w, p))
    && (forall p, q | p in w.procs && q in w.procs && Holds(w, p) && Holds(w, q) :: p == q)
    && (w.shared.Some? ==> w.shared.value in w.procs)
  }

  /** No attached process is master or on the way to become it. */
  ghost predicate Quiet(w: World) {
    forall p | p in w.procs && Attached(w, p) ::
      !w.procs[p].master && w.procs[p].phase != Found(false) && !w.procs[p].phase.Claimed?
  }

  /** At most one live process believes to be master, and only it maintains the cache. */
  lemma AtMostOneMaster(w: World, p: Pid, q: Pid)
    requires Inv(w) && Masters(w, p) && Masters(w, q)
    ensures p == q && w.shared == Some(p)
  {
    assert ProcOk(w, p) && ProcOk(w, q);
  }

  lemma MaintenanceIsExclusive(w: World, p: Pid, q: Pid)
    requires Inv(w) && At(w, p, Maintaining) && At(w, q, Maintaining)
    ensures p == q
  {
    assert ProcOk(w, p) && ProcOk(w, q);
  }

  /** Steps that write neither the pid cell nor take the semaphore. */
  lemma LocalStepKeeps(w: World, a: Action, q: Pid)
    requires Inv(w) && Enabled(w, a) && q in Next(w, a).procs
    requires a.Test? || a.Probe? || a.Flag? || a.Post? || a.Decide? || a.Finish? || a.Crash? || a.LinkProbe?
    ensures ProcOk(Next(w, a), q)
    ensures Holds(Next(w, a), q) ==> q in w.procs && Holds(w, q)
  {
    if q in w.procs {
      assert ProcOk(w, q);
      assert a.p in w.procs ==> ProcOk(w, a.p);
      if q != a.p && Holds(w, q) && a.p in w.procs {
        assert !Holds(w, a.p);
      }
    }
  }

  lemma QuietStepKeeps(w: World, a: Action)
    requires Inv(w) && Enabled(w, a)
    requires a.Test? || a.Probe? || a.Flag? || a.Post? || a.Decide? || a.Finish? || a.Crash? || a.LinkProbe?
    ensures Inv(Next(w, a))
  {
    forall q | q in Next(w, a).procs {
      LocalStepKeeps(w, a, q);
    }
  }

  lemma WaitKeeps(w: World, p: Pid)
    requires Inv(w) && Enabled(w, Wait(p))
    ensures Inv(Next(w, Wait(p)))
  {
    var v := Next(w, Wait(p));
    forall q | q in v.procs ensures ProcOk(v, q) {
      assert ProcOk(w, q);
    }
    forall q | q in w.procs ensures !Holds(w, q) {
      assert ProcOk(w, q);
    }
  }

  lemma ClaimKeeps(w: World, p: Pid)
    requires Inv(w) && Enabled(w, Claim(p))
    ensures Inv(Next(w, Claim(p)))
  {
    var v := Next(w, Claim(p));
    assert ProcOk(w, p);
    forall q | q in v.procs ensures ProcOk(v, q) {
      assert ProcOk(w, q);
      if q != p && Attached(w, q) {
        assert !w.procs[q].master;
        assert !Holds(w, q) by { assert Holds(w, p); }
      }
    }
    forall x, q | x in v.procs && q in v.procs && Holds(v, x) && Holds(v, q) ensures x == q {
      assert Holds(w, x) && Holds(w, q);
    }
  }

  lemma LinkDownKeeps(w: World, p: Pid)
    requires Inv(w) && Enabled(w, LinkDown(p))
    ensures Inv(Next(w, LinkDown(p)))
  {
    var v := Next(w, LinkDown(p));
    var t := w.(procs := w.procs[p := w.procs[p].(linked := false)]);
    forall q | q in v.procs ensures ProcOk(v, q) {
      assert ProcOk(w, q);
      if Attached(v, q) {
        assert Attached(t, q);
      }
    }
    forall x, q | x in v.procs && q in v.procs && Holds(v, x) && Holds(v, q) ensures x == q {
      assert Holds(w, x) && Holds(w, q);
    }
  }

  /** Creating the segment keeps the invariant exactly when nobody else is, or is becoming,
      master. */
  lemma CreateKeepsIffQuiet(w: World, p: Pid)
    requires Inv(w) && Enabled(w, LinkCreate(p))
    ensures Inv(Next(w, LinkCreate(p))) <==> Quiet(w)
  {
    var v := Next(w, LinkCreate(p));
    if Quiet(w) {
      forall q | q in v.procs ensures ProcOk(v, q) {
        assert ProcOk(w, q);
      }
      forall x, q | x in v.procs && q in v.procs && Holds(v, x) && Holds(v, q) ensures x == q {
        assert Holds(w, x) && Holds(w, q);
      }
    } else {
      var q :| q in w.procs && Attached(w, q) &&
               (w.procs[q].master || w.procs[q].phase == Found(false) || w.procs[q].phase.Claimed?);
      assert q != p && v.procs[q] == w.procs[q];
      assert !ProcOk(v, q);
    }
  }

  lemma StepKeeps(w: World, a: Action)
    requires Inv(w) && Enabled(w, a)
    requires a.LinkCreate? ==> Quiet(w)
    ensures Inv(Next(w, a))
  {
    match a {
      case Wait(p) => WaitKeeps(w, p);
      case Claim(p) => ClaimKeeps(w, p);
      case LinkDown(p) => LinkDownKeeps(w, p);
      case LinkCreate(p) => CreateKeepsIffQuiet(w, p);
      case _ => QuietStepKeeps(w, a);
    }
  }

  // ----- Runs

  ghost predicate IsRun(w: World, run: seq<Action>)
    decreases |run|
  {
    run == [] || (Enabled(w, run[0]) && IsRun(Next(w, run[0]), run[1..]))
  }

  ghost function After(w: World, run: seq<Action>): World
    requires IsRun(w, run)
    decreases |run|
  {
    if run == [] then w else After(Next(w, run[0]), run[1..])
  }

  /** No process creates the segment while another is, or is becoming, master. */
  ghost predicate NoRace(w: World, run: seq<Action>)
    requires IsRun(w, run)
    decreases |run|
  {
    run == [] || ((run[0].LinkCreate? ==> Quiet(w)) && NoRace(Next(w, run[0]), run[1..]))
  }

  /** Every state of every interleaving is safe. */
  lemma {:induction false} RunsAreSafe(w: World, run: seq<Action>)
    requires Inv(w) && IsRun(w, run) && NoRace(w, run)
    ensures Inv(After(w, run))
    decreases |run|
  {
    if run != [] {
      StepKeeps(w, run[0]);
      RunsAreSafe(Next(w, run[0]), run[1..]);
    }
  }

  /** Some continuation without another such race ends with two masters. */
  ghost predicate TwoMastersAhead(v: World) {
    exists run: seq<Action>, p: Pid, q: Pid ::
      IsRun(v, run) && NoRace(v, run) && p != q && Masters(After(v, run), p) && Masters(After(v, run), q)
  }

  lemma OneStep(w: World, a: Action)
    requires Enabled(w, a) && !a.LinkCreate?
    ensures IsRun(w, [a]) && NoRace(w, [a]) && After(w, [a]) == Next(w, a)
  {
    var v := Next(w, a);
    assert [a][1..] == [];
    assert IsRun(v, []) && After(v, []) == v;
  }

  /** The other process needs two steps at most to be a second master. */
  lemma SecondMaster(w: World, p: Pid) returns (q: Pid, run: seq<Action>)
    requires Inv(w) && Enabled(w, LinkCreate(p)) && !Quiet(w)
    ensures var v := Next(w, LinkCreate(p));
            && q != p && |run| <= 2 && IsRun(v, run) && NoRace(v, run)
            && Masters(After(v, run), p) && Masters(After(v, run), q)
  {
    var v := Next(w, LinkCreate(p));
    q :| q in w.procs && Attached(w, q) &&
         (w.procs[q].master || w.procs[q].phase == Found(false) || w.procs[q].phase.Claimed?);
    assert q != p && v.procs[q] == w.procs[q] && Masters(v, p);
    if w.procs[q].master {
      run := [];
    } else if w.procs[q].phase.Claimed? {
      run := [Flag(q)];
      OneStep(v, Flag(q));
    } else {
      run := [Claim(q), Flag(q)];
      var u := Next(v, Claim(q));
      assert u.procs[p] == v.procs[p] && At(u, q, Claimed);
      OneStep(u, Flag(q));
      assert run[1..] == [Flag(q)];
    }
  }

  /** The exact price of the non-exclusive create: it can lead to two masters iff another
      process is, or is becoming, master. */
  lemma CreateIsSafeIffQuiet(w: World, p: Pid)
    requires Inv(w) && Enabled(w, LinkCreate(p))
    ensures !TwoMastersAhead(Next(w, LinkCreate(p))) <==> Quiet(w)
  {
    var v := Next(w, LinkCreate(p));
    if Quiet(w) {
      CreateKeepsIffQuiet(w, p);
      forall run: seq<Action>, x: Pid, y: Pid | IsRun(v, run) && NoRace(v, run)
        ensures Masters(After(v, run), x) && Masters(After(v, run), y) ==> x == y
      {
        RunsAreSafe(v, run);
        if Masters(After(v, run), x) && Masters(After(v, run), y) {
          AtMostOneMaster(After(v, run), x, y);
        }
      }
    } else {
      var q, run := SecondMaster(w, p);
    }
  }

  /** `link_up` as one atomic step: probing and creating with nothing in between. */
  ghost predicate AtomicLinkUp(w: World, run: seq<Action>)
    requires IsRun(w, run)
    decreases |run|
  {
    run == [] ||
    if run[0].LinkProbe? && w.shared.None? then
      var v, rest := Next(w, run[0]), run[1..];
      assert IsRun(v, rest);
      rest != [] && rest[0] == LinkCreate(run[0].p) && AtomicLinkUp(Next(v, rest[0]), rest[1..])
    else
      !run[0].LinkCreate? && AtomicLinkUp(Next(w, run[0]), run[1..])
  }

  lemma {:induction false} AtomicLinkUpHasNoRace(w: World, run: seq<Action>)
    requires Inv(w) && IsRun(w, run) && AtomicLinkUp(w, run)
    ensures NoRace(w, run)
    decreases |run|
  {
    if run == [] {
    } else if run[0].LinkProbe? && w.shared.None? {
      var v := Next(w, run[0]);
      StepKeeps(w, run[0]);
      assert Quiet(v) by {
        forall q | q in v.procs ensures !Attached(v, q) {
          assert ProcOk(v, q);
        }
      }
      StepKeeps(v, run[1..][0]);
      AtomicLinkUpHasNoRace(Next(v, run[1..][0]), run[1..][1..]);
    } else {
      StepKeeps(w, run[0]);
      AtomicLinkUpHasNoRace(Next(w, run[0]), run[1..]);
    }
  }

  /** Main result: with an atomic link-up, whatever the interleaving and the crashes, at most
      one live process holds the master flag, and the shared pid is its own. */
  lemma ElectionIsSafe(run: seq<Action>, p: Pid, q: Pid)
    requires IsRun(INIT, run) && AtomicLinkUp(INIT, run)
    ensures var w := After(INIT, run);
            && (Masters(w, p) ==> w.shared == Some(p))
            && (Masters(w, p) && Masters(w, q) ==> p == q)
            && (At(w, p, Maintaining) && At(w, q, Maintaining) ==> p == q)
  {
    AtomicLinkUpHasNoRace(INIT, run);
    RunsAreSafe(INIT, run);
    var w := After(INIT, run);
    if Masters(w, p) { AtMostOneMaster(w, p, p); }
    if Masters(w, p) && Masters(w, q) { AtMostOneMaster(w, p, q); }
    if At(w, p, Maintaining) && At(w, q, Maintaining) { MaintenanceIsExclusive(w, p, q); }
  }

  lemma TwoSteps(w: World, a: Action, b: Action)
    requires Enabled(w, a) && Enabled(Next(w, a), b)
    ensures IsRun(w, [a, b]) && After(w, [a, b]) == Next(Next(w, a), b)
  {
    var w1 := Next(w, a);
    var w2 := Next(w1, b);
    assert [a, b][1..] == [b] && [b][1..] == [];
    assert IsRun(w2, []) && After(w2, []) == w2;
    assert IsRun(w1, [b]) && After(w1, [b]) == w2;
  }

  lemma FourSteps(w: World, a: Action, b: Action, c: Action, d: Action)
    requires Enabled(w, a) && Enabled(Next(w, a), b) && Enabled(Next(Next(w, a), b), c)
    requires Enabled(Next(Next(Next(w, a), b), c), d)
    ensures IsRun(w, [a, b, c, d])
    ensures After(w, [a, b, c, d]) == Next(Next(Next(Next(w, a), b), c), d)
  {
    var w1 := Next(w, a);
    var w2 := Next(w1, b);
    var w3 := Next(w2, c);
    var w4 := Next(w3, d);
    assert [a, b, c, d][1..] == [b, c, d] && [b, c, d][1..] == [c, d] && [c, d][1..] == [d] && [d][1..] == [];
    assert IsRun(w4, []) && After(w4, []) == w4;
    assert IsRun(w3, [d]) && After(w3, [d]) == w4;
    assert IsRun(w2, [c, d]) && After(w2, [c, d]) == w4;
    assert IsRun(w1, [b, c, d]) && After(w1, [b, c, d]) == w4;
  }

  /** Two processes that both find no segment both become master. */
  lemma InterleavedLinkUpElectsTwo()
    ensures var run := [LinkProbe(1), LinkProbe(2), LinkCreate(1), LinkCreate(2)];
            IsRun(INIT, run) && Masters(After(INIT, run), 1) && Masters(After(INIT, run), 2)
  {
    FourSteps(INIT, LinkProbe(1), LinkProbe(2), LinkCreate(1), LinkCreate(2));
  }

  // ----- Takeover

  /** `p` holds the semaphore and will become master: the owner it saw, or will see, is dead. */
  ghost predicate TakingOver(w: World, p: Pid) {
    Attached(w, p) &&
    match w.procs[p].phase
    case Locked => !OwnerAlive(w)
    case Found(running) => !running
    case Claimed => true
    case Flagged => true
    case _ => false
  }

  /** No step of any other process keeps a takeover from going on, and it ends with a master. */
  lemma TakeoverGoesOn(w: World, p: Pid, a: Action)
    requires Inv(w) && TakingOver(w, p) && Enabled(w, a) && a != Crash(p)
    requires a.LinkCreate? ==> Quiet(w) && w.shared.None?
    ensures TakingOver(Next(w, a), p) || (a == Post(p) && Masters(Next(w, a), p))
  {
    assert ProcOk(w, p) && Holds(w, p);
    assert a.p in w.procs ==> ProcOk(w, a.p);
    if a.p != p {
      assert !Holds(w, a.p);
      if a.LinkDown? {
        var t := w.(procs := w.procs[a.p := w.procs[a.p].(linked := false)]);
        assert Attached(t, p);
      }
    }
  }

  /** A live process that takes the semaphore after the master died completes the takeover by
      its own four steps, each of which is enabled. */
  lemma SoloTakeover(w: World, p: Pid)
    requires Inv(w) && At(w, p, Locked) && !OwnerAlive(w)
    ensures var run := [Probe(p), Claim(p), Flag(p), Post(p)];
            IsRun(w, run) && Masters(After(w, run), p) && After(w, run).shared == Some(p)
            && At(After(w, run), p, Checked) && After(w, run).free
  {
    var w1 := Next(w, Probe(p));
    assert At(w1, p, Found(false));
    var w2 := Next(w1, Claim(p));
    assert At(w2, p, Claimed) && w2.shared == Some(p);
    var w3 := Next(w2, Flag(p));
    assert At(w3, p, Flagged) && w3.shared == Some(p) && Masters(w3, p);
    var w4 := Next(w3, Post(p));
    assert Masters(w4, p) && w4.shared == Some(p) && w4.free;
    FourSteps(w, Probe(p), Claim(p), Flag(p), Post(p));
  }

  lemma {:induction false} RunsJoin(w: World, r1: seq<Action>, r2: seq<Action>)
    requires IsRun(w, r1) && IsRun(After(w, r1), r2)
    ensures IsRun(w, r1 + r2) && After(w, r1 + r2) == After(After(w, r1), r2)
    decreases |r1|
  {
    if r1 == [] {
      assert r1 + r2 == r2;
    } else {
      var r := r1 + r2;
      assert r[0] == r1[0] && r[1..] == r1[1..] + r2;
      RunsJoin(Next(w, r1[0]), r1[1..], r2);
    }
  }

  /** A check by a client leads from the timer through the section to maintenance if the
      master is dead: each step is enabled, and the checker ends up as the master at work. */
  lemma DeadMasterIsReplaced(w: World, p: Pid)
    requires Inv(w) && At(w, p, Idle) && w.free && !OwnerAlive(w)
    ensures var run := [Test(p), Wait(p)] + [Probe(p), Claim(p), Flag(p), Post(p)] + [Decide(p)];
            && IsRun(w, run) && Masters(After(w, run), p) && At(After(w, run), p, Maintaining)
            && After(w, run).shared == Some(p) && After(w, run).free
  {
    assert ProcOk(w, p);
    var u := Next(w, Test(p));
    assert At(u, p, Waiting);
    QuietStepKeeps(w, Test(p));
    WaitKeeps(u, p);
    var v := Next(u, Wait(p));
    TwoSteps(w, Test(p), Wait(p));
    SoloTakeover(v, p);
    RunsJoin(w, [Test(p), Wait(p)], [Probe(p), Claim(p), Flag(p), Post(p)]);
    var x := After(v, [Probe(p), Claim(p), Flag(p), Post(p)]);
    OneStep(x, Decide(p));
    RunsJoin(w, [Test(p), Wait(p)] + [Probe(p), Claim(p), Flag(p), Post(p)], [Decide(p)]);
  }

  lemma BackToIdle(w: World, p: Pid)
    requires At(w, p, Idle) && !w.procs[p].master
    ensures Next(To(w, p, Checked), Decide(p)) == w
  {
    assert Next(To(w, p, Checked), Decide(p)).procs == w.procs;
  }

  /** If the master lives, the client's check passes through the section and changes nothing. */
  lemma LiveMasterIsLeftAlone(w: World, p: Pid)
    requires Inv(w) && At(w, p, Idle) && w.free && OwnerAlive(w) && w.shared != Some(p)
    ensures var run := [Test(p), Wait(p), Probe(p), Post(p)] + [Decide(p)];
            IsRun(w, run) && After(w, run) == w
  {
    assert ProcOk(w, p);
    var w1 := Next(w, Test(p));
    assert At(w1, p, Waiting);
    var w2 := Next(w1, Wait(p));
    assert At(w2, p, Locked) && OwnerAlive(w2);
    var w3 := Next(w2, Probe(p));
    assert At(w3, p, Found(true));
    var u := Next(w3, Post(p));
    FourSteps(w, Test(p), Wait(p), Probe(p), Post(p));
    assert u == To(w, p, Checked) && !u.procs[p].master;
    OneStep(u, Decide(p));
    RunsJoin(w, [Test(p), Wait(p), Probe(p), Post(p)], [Decide(p)]);
    BackToIdle(w, p);
  }

  /** The master itself takes no semaphore, and goes on to maintain the cache. */
  lemma MasterChecksWithoutSemaphore(w: World, p: Pid)
    requires Inv(w) && At(w, p, Idle) && w.shared == Some(p)
    ensures var run := [Test(p), Decide(p)];
            && IsRun(w, run) && At(After(w, run), p, Maintaining) && Masters(After(w, run), p)
            && Next(w, Test(p)).free == w.free && After(w, run).free == w.free
            && After(w, run).shared == w.shared
  {
    assert ProcOk(w, p);
    TwoSteps(w, Test(p), Decide(p));
  }

  /** Maintenance ends where the next check begins. */
  lemma MaintenanceEnds(w: World, p: Pid)
    requires At(w, p, Maintaining)
    ensures Enabled(w, Finish(p)) && At(Next(w, Finish(p)), p, Idle)
    ensures Next(w, Finish(p)).shared == w.shared && Next(w, Finish(p)).free == w.free
  {
  }

  // ----- Joining and leaving

  /** Whoever finds the shared memory is a client; whoever does not, and then creates it, is the
      master, with its own pid in it. */
  lemma LinkUpDecides(w: World, p: Pid)
    requires p !in w.procs
    ensures var u := Next(w, LinkProbe(p));
            if w.shared.Some? then
              At(u, p, Idle) && !u.procs[p].master && u.shared == w.shared && u.free == w.free
            else
              && u.shared.None? && !Attached(u, p) && Enabled(u, LinkCreate(p))
              && var v := Next(u, LinkCreate(p));
                 At(v, p, Idle) && Masters(v, p) && v.shared == Some(p) && v.free
  {
  }

  /** Leaving takes the shared memory and the semaphore along iff nobody else is attached; then
      the next one to come is the master, whoever it was before. */
  lemma LastOneRemovesTheLink(w: World, p: Pid)
    requires Inv(w) && At(w, p, Idle)
    ensures var v := Next(w, LinkDown(p));
            && !Attached(v, p)
            && (v.shared.None? <==> forall q | q in w.procs && Attached(w, q) :: q == p)
            && (v.shared.None? ==> v.free)
            && (v.shared.Some? ==> v.shared == w.shared && v.free == w.free)
            && forall q | q in w.procs && q != p :: v.procs[q] == w.procs[q]
  {
    var t := w.(procs := w.procs[p := w.procs[p].(linked := false)]);
    assert ProcOk(w, p);
    assert forall q | q in w.procs && q != p :: Attached(t, q) <==> Attached(w, q);
    if exists q :: q in w.procs && Attached(w, q) && q != p {
      var q :| q in w.procs && Attached(w, q) && q != p;
      assert q in t.procs && Attached(t, q);
    }
  }

  /** A crash leaves the shared memory and the semaphore as they are. */
  lemma CrashLeavesTheLink(w: World, p: Pid)
    requires Alive(w, p)
    ensures var v := Next(w, Crash(p));
            !Alive(v, p) && v.shared == w.shared && v.free == w.free
            && forall q | q in w.procs && q != p :: v.procs[q] == w.procs[q]
  {
  }

  ghost predicate Avoids(run: seq<Action>, a: Action) {
    forall i | 0 <= i < |run| :: run[i] != a
  }

  /** In every interleaving in which `p` survives, its sem_post leaves it as the master. */
  lemma {:induction false} TakeoverInstallsMaster(w: World, p: Pid, run: seq<Action>)
    requires Inv(w) && TakingOver(w, p) && IsRun(w, run) && AtomicLinkUp(w, run)
    requires Avoids(run, Crash(p))
    ensures Avoids(run, Post(p)) ==> TakingOver(After(w, run), p)
    ensures run != [] && run[|run| - 1] == Post(p) && Avoids(run[..|run| - 1], Post(p)) ==>
              Masters(After(w, run), p)
    decreases |run|
  {
    if run != [] {
      var v := Next(w, run[0]);
      assert w.shared.Some? by { assert ProcOk(w, p); }
      assert run[0] != Crash(p);
      StepKeeps(w, run[0]);
      TakeoverGoesOn(w, p, run[0]);
      assert Avoids(run[1..], Crash(p)) by {
        forall i | 0 <= i < |run[1..]| ensures run[1..][i] != Crash(p) { assert run[1..][i] == run[i + 1]; }
      }
      if run[0] != Post(p) {
        TakeoverInstallsMaster(v, p, run[1..]);
        if |run| > 1 {
          assert run[1..][..|run| - 2] == run[..|run| - 1][1..];
        }
      } else {
        assert |run| > 1 ==> run[..|run| - 1][0] == Post(p);
        assert run[1..] == [] ==> After(w, run) == v;
      }
    }
  }

  lemma MasterStaysAStep(w: World, p: Pid, a: Action)
    requires Inv(w) && Masters(w, p) && Enabled(w, a)
    requires a != Crash(p) && a != LinkDown(p) && (a.LinkCreate? ==> Quiet(w))
    ensures Masters(Next(w, a), p)
  {
    assert ProcOk(w, p);
    assert a.p in w.procs ==> ProcOk(w, a.p);
  }

  /** A master is never deposed: it stays master, with its pid in the shared memory, until it
      dies or leaves. */
  lemma {:induction false} MasterStays(w: World, p: Pid, run: seq<Action>)
    requires Inv(w) && Masters(w, p) && IsRun(w, run) && NoRace(w, run)
    requires Avoids(run, Crash(p)) && Avoids(run, LinkDown(p))
    ensures Masters(After(w, run), p) && After(w, run).shared == Some(p)
    decreases |run|
  {
    assert ProcOk(w, p);
    if run != [] {
      var a, rest := run[0], run[1..];
      assert a.p in w.procs ==> ProcOk(w, a.p);
      assert a != Crash(p) && a != LinkDown(p);
      StepKeeps(w, a);
      MasterStaysAStep(w, p, a);
      forall i | 0 <= i < |rest| ensures rest[i] != Crash(p) && rest[i] != LinkDown(p) {
        assert rest[i] == run[i + 1];
      }
      MasterStays(Next(w, a), p, rest);
    }
  }

  // ----- A death inside the section

  /** The semaphore is taken and nobody alive holds it. */
  ghost predicate Orphaned(w: World) {
    !w.free && forall p | p in w.procs :: !Holds(w, p)
  }

  lemma OrphanedStaysAStep(w: World, a: Action)
    requires Inv(w) && Orphaned(w) && Enabled(w, a) && (a.LinkCreate? ==> w.shared.None?)
    ensures var v := Next(w, a);
            v.shared.Some? && w.shared.Some? ==>
              && Orphaned(v) && v.shared == w.shared
              && forall p | p in v.procs && Masters(v, p) :: Masters(w, p)
  {
    var v := Next(w, a);
    forall p | p in v.procs && w.shared.Some? && v.shared.Some? ensures !Holds(v, p) {
      assert p in w.procs ==> !Holds(w, p);
    }
    assert a.p in w.procs ==> !Holds(w, a.p);
  }

  /** The shared memory exists throughout a run. */
  ghost predicate KeepsShared(w: World, run: seq<Action>)
    requires IsRun(w, run)
    decreases |run|
  {
    w.shared.Some? && (run == [] || KeepsShared(Next(w, run[0]), run[1..]))
  }

  /** Such a death blocks every further election for as long as the shared memory exists:
      nobody passes sem_wait, the pid cell never changes and no process becomes master. */
  lemma {:induction false} OrphanedStays(w: World, run: seq<Action>)
    requires Inv(w) && Orphaned(w) && IsRun(w, run) && AtomicLinkUp(w, run) && KeepsShared(w, run)
    ensures var v := After(w, run);
            && Orphaned(v) && v.shared == w.shared
            && forall p | p in v.procs && Masters(v, p) :: Masters(w, p)
    ensures forall i, p | 0 <= i < |run| :: run[i] != Wait(p)
    decreases |run|
  {
    if run != [] {
      var a := run[0];
      StepKeeps(w, a);
      OrphanedStaysAStep(w, a);
      OrphanedStays(Next(w, a), run[1..]);
      assert forall i | 1 <= i < |run| :: run[i] == run[1..][i - 1];
    }
  }

  /** It comes about exactly when the process that dies holds the semaphore. */
  lemma CrashOrphansIffHolding(w: World, p: Pid)
    requires Inv(w) && Enabled(w, Crash(p)) && !Orphaned(w)
    ensures Orphaned(Next(w, Crash(p))) <==> Holds(w, p)
  {
    var v := Next(w, Crash(p));
    if Holds(w, p) {
      assert ProcOk(w, p);
      forall q | q in v.procs ensures !Holds(v, q) {
        if Holds(v, q) { assert Holds(w, q); }
      }
    } else if !w.free {
      var q :| q in w.procs && Holds(w, q);
      assert Holds(v, q);
    }
  }
}
