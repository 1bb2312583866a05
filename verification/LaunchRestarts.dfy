/** What a launch finds on disk after the process has been restarted. */
module LaunchRestarts {
  import opened Options
  import opened LaunchModel
  import opened LaunchRuns
  import opened LaunchHistory

  // ----- what stays on disk -----

  /** Entries may be replaced but not lost, and neither is the marker. */
  predicate DiskGrows(disk: Disk, disk': Disk) {
    (disk.marker ==> disk'.marker) && disk.entries.Keys <= disk'.entries.Keys
  }

  lemma CompileDiskGrows(n: Node, disk: Disk, sig: Signature, active: Option<LaunchKey>, env: Environment)
    ensures DiskGrows(disk, CompileNode(n, disk, sig, active, env).disk)
  {
  }

  /** Recompiling flushes the index and the marker; otherwise only a removal from outside loses the marker. */
  predicate Loses(step: Step) {
    step.Recompile? || step == MarkerFile(false)
  }

  lemma StepDiskGrows(w: World, step: Step)
    requires !Loses(step)
    ensures DiskGrows(w.disk, Apply(w, step).disk)
  {
    match step
    case Call(who, sig, config, resolved, env) =>
      if who < |w.dispatchers| {
        var d := w.dispatchers[who];
        CompileDiskGrows(ChildFor(d, KeyOf(config)), w.disk, sig, Some(KeyOf(config)), env);
        CompileDiskGrows(PinDefault(d.own, KeyOf(config)), w.disk, sig, Some(KeyOf(config)), env);
      }
      hide CompileNode;
    case Compile(who, sig, env) =>
      if who < |w.dispatchers| {
        CompileDiskGrows(w.dispatchers[who].own, w.disk, sig, None, env);
      }
      hide CompileNode;
    case _ =>
  }

  lemma {:induction false} RunDiskGrows(w: World, steps: seq<Step>)
    requires forall s <- steps :: !Loses(s)
    ensures DiskGrows(w.disk, Run(w, steps).disk)
    decreases |steps|
  {
    if steps != [] {
      StepDiskGrows(w, steps[0]);
      RunDiskGrows(Apply(w, steps[0]), steps[1..]);
    }
  }

  // ----- the first launch of a new process -----

  function Restarted(w: World): World {
    Apply(Apply(w, Restart), Create(true))
  }

  /** What the disk holds for a launch: with the marker, the entry of its launch key; without it, a plain
      entry that is not sensitive. */
  function Stored(disk: Disk, sig: Signature, key: LaunchKey): Option<Kernel> {
    var keyed, plain := IndexKey(sig, Keyed(key)), IndexKey(sig, Plain);
    if disk.marker then (if keyed in disk.entries then Some(disk.entries[keyed]) else None)
    else if plain in disk.entries && !disk.entries[plain].sensitive then Some(disk.entries[plain])
    else None
  }

  /** The first launch takes what the disk holds for it, whatever the compiler would do, and only without
      that compiles a kernel under its own key. */
  lemma FirstLaunchExactly(w: World, sig: Signature, config: LaunchConfig, env: Environment)
    ensures var key := KeyOf(config);
      LaunchedBy(Restarted(w), 0, sig, config, None, env) ==
        if Stored(w.disk, sig, key).Some? then Stored(w.disk, sig, key)
        else if env.outcome.Raises? then None
        else Some(Kernel(sig, env.outcome.marks, Some(key), env.outcome.build))
  {
  }

  /** In every run without a recompilation or a removal of the marker, a marked entry is not lost: after a
      restart, the first launch under its key takes the entry of that key, compiled under it if sensitive. */
  lemma StoredSurvivesRestart(w: World, steps: seq<Step>, sig: Signature, config: LaunchConfig, env: Environment)
    requires WorldOk(w) && w.disk.marker && IndexKey(sig, Keyed(KeyOf(config))) in w.disk.entries
    requires forall s <- steps :: !Loses(s)
    ensures var key, disk := KeyOf(config), Run(w, steps).disk;
      var at := IndexKey(sig, Keyed(key));
      && at in disk.entries
      && LaunchedBy(Restarted(Run(w, steps)), 0, sig, config, None, env) == Some(disk.entries[at])
      && (disk.entries[at].sensitive ==> disk.entries[at].compiledUnder == Some(key))
  {
    RunDiskGrows(w, steps);
    RunKeeps(w, steps);
    FirstLaunchExactly(Run(w, steps), sig, config, env);
    var disk, at := Run(w, steps).disk, IndexKey(sig, Keyed(KeyOf(config)));
    assert EntryOk(at, disk.entries[at]);
    hide LaunchedBy, Run, Restarted;
  }

  /** From an empty cache: a sensitive kernel is launched by a first process, and by a second one, on any
      stream, whose compiler can build nothing. */
  lemma SameKernelAfterRestart(sig: Signature, config: LaunchConfig, stream: nat)
    ensures
      var steps := [Create(true), Call(0, sig, config, None, Marks(1)), Restart, Create(true),
                    Call(0, sig, config.(stream := stream), None, Environment(Raises, false))];
      var launch := Launch(Kernel(sig, true, Some(KeyOf(config)), 1), KeyOf(config));
      Run(World(EMPTY_DISK, [], []), steps).launches == [launch, launch]
  {
    var key, second := KeyOf(config), Call(0, sig, config.(stream := stream), None, Environment(Raises, false));
    var first := Call(0, sig, config, None, Marks(1));
    var w0 := World(EMPTY_DISK, [], []);
    var w1 := Apply(w0, Create(true));
    var w2 := Apply(w1, first);
    var w3 := Apply(w2, Restart);
    var w4 := Apply(w3, Create(true));
    FirstSensitiveLaunch(sig, key, 1);
    FirstLaunchExactly(w2, sig, config.(stream := stream), Environment(Raises, false));
    assert w1.dispatchers == [Dispatcher(FreshNode(true), map[])];
    hide CallDispatcher;
    assert w4 == Restarted(w2);
    assert w2.disk.marker && Stored(w2.disk, sig, key) == Some(Kernel(sig, true, Some(key), 1));
    RunUnfolds(w0, Create(true), [first, Restart, Create(true), second]);
    RunUnfolds(w1, first, [Restart, Create(true), second]);
    RunUnfolds(w2, Restart, [Create(true), second]);
    RunUnfolds(w3, Create(true), [second]);
    RunUnfolds(w4, second, []);
  }
}
