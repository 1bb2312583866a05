/** What earlier launches leave in memory: when a later launch reuses a kernel, and what a recompilation
    does not reach. */
module LaunchHistory {
  import opened Options
  import opened LaunchModel
  import opened LaunchRuns

  // ----- later launches -----

  /** Nothing known of the node is lost: overloads, sensitivity and default key. */
  ghost predicate Grows(n: Node, n': Node) {
    && (n.sensitive ==> n'.sensitive && n'.defaultKey == n.defaultKey)
    && n'.specializationKey == n.specializationKey
    && forall s :: s in n.overloads ==> s in n'.overloads && n'.overloads[s] == n.overloads[s]
  }

  ghost predicate DispatcherGrows(d: Dispatcher, d': Dispatcher) {
    Grows(d.own, d'.own) && forall k :: k in d.children ==> k in d'.children && Grows(d.children[k], d'.children[k])
  }

  lemma CompileGrows(n: Node, disk: Disk, sig: Signature, active: Option<LaunchKey>, env: Environment)
    ensures Grows(n, CompileNode(n, disk, sig, active, env).node)
  {
    CompileShape(n, disk, sig, active, env, CompileNode(n, disk, sig, active, env));
    CompileKeepsIdentity(n, disk, sig, active, env);
    hide CompileNode;
  }

  lemma CompileKeepsIdentity(n: Node, disk: Disk, sig: Signature, active: Option<LaunchKey>, env: Environment)
    ensures SameIdentity(n, CompileNode(n, disk, sig, active, env).node)
  {
    var n1 := ConfigureCache(n, disk, active);
    CacheChangesKeepIdentity(n, disk, active, env.markerWritable);
    if n1.cache.Some? {
      var n2 := n1.(cache := Some(AskMarker(n1.cache.value, disk)));
      var (n3, disk3) := KeyAndMark(n2, disk, active, env.markerWritable);
      CacheChangesKeepIdentity(n2, disk, active, env.markerWritable);
      BuildKeepsIdentity(n3, disk3, sig, active, env);
    }
    BuildKeepsIdentity(n1, disk, sig, active, env);
    hide Build, ConfigureCache, KeyAndMark, Lookup, HasMarker, CacheKeyFor, AskMarker;
  }

  lemma CacheChangesKeepIdentity(n: Node, disk: Disk, active: Option<LaunchKey>, writable: bool)
    ensures SameIdentity(n, ConfigureCache(n, disk, active))
    ensures n.cache.Some? ==> SameIdentity(n, KeyAndMark(n, disk, active, writable).0)
  {
  }

  lemma BuildKeepsIdentity(n: Node, disk: Disk, sig: Signature, active: Option<LaunchKey>, env: Environment)
    ensures SameIdentity(n, Build(n, disk, sig, active, env).node)
  {
    if n.cache.Some? {
      CacheChangesKeepIdentity(n, disk, active, env.markerWritable);
    }
    hide KeyAndMark, Save;
  }

  lemma CallNodeGrows(
    n: Node, disk: Disk, sig: Signature, key: LaunchKey, resolved: Option<Signature>, env: Environment)
    requires NodeOk(n)
    ensures Grows(n, CallNode(n, disk, sig, key, resolved, env).node)
  {
    CompileGrows(n, disk, sig, Some(key), env);
    hide CompileNode;
  }

  lemma CallGrows(
    d: Dispatcher, disk: Disk, sig: Signature, key: LaunchKey, resolved: Option<Signature>, env: Environment)
    requires DispatcherOk(d)
    ensures DispatcherGrows(d, CallDispatcher(d, disk, sig, key, resolved, env).dispatcher)
  {
    if Route(d.own, key).Some? {
      CallNodeGrows(ChildFor(d, key), disk, sig, key, resolved, env);
    } else {
      CallNodeGrows(d.own, disk, sig, key, resolved, env);
    }
    hide CallNode;
  }

  /** Only a restart or the dispatcher's own recompilation makes it forget. */
  predicate Forgets(step: Step, i: nat) {
    step.Restart? || (step.Recompile? && step.who == i)
  }

  lemma StepGrows(w: World, step: Step, i: nat)
    requires WorldOk(w) && i < |w.dispatchers| && !Forgets(step, i)
    ensures i < |Apply(w, step).dispatchers| && DispatcherGrows(w.dispatchers[i], Apply(w, step).dispatchers[i])
  {
    match step
    case Call(who, sig, config, resolved, env) =>
      if who < |w.dispatchers| {
        CallGrows(w.dispatchers[who], w.disk, sig, KeyOf(config), resolved, env);
      }
      hide CallDispatcher;
    case Compile(who, sig, env) =>
      if who < |w.dispatchers| {
        CompileGrows(w.dispatchers[who].own, w.disk, sig, None, env);
      }
      hide CompileNode;
    case _ =>
  }

  lemma {:induction false} RunGrows(w: World, steps: seq<Step>, i: nat)
    requires WorldOk(w) && i < |w.dispatchers| && forall s <- steps :: !Forgets(s, i)
    ensures i < |Run(w, steps).dispatchers| && DispatcherGrows(w.dispatchers[i], Run(w, steps).dispatchers[i])
    decreases |steps|
  {
    if steps != [] {
      StepKeeps(w, steps[0]);
      StepGrows(w, steps[0], i);
      RunGrows(Apply(w, steps[0]), steps[1..], i);
      GrowsThrough(w.dispatchers[i], Apply(w, steps[0]).dispatchers[i], Run(w, steps).dispatchers[i]);
    }
  }

  lemma GrowsThrough(a: Dispatcher, b: Dispatcher, c: Dispatcher)
    requires DispatcherGrows(a, b) && DispatcherGrows(b, c)
    ensures DispatcherGrows(a, c)
  {
  }

  /** The node that serves a launch key. */
  function Server(d: Dispatcher, key: LaunchKey): Node {
    if Route(d.own, key).Some? then ChildFor(d, key) else d.own
  }

  lemma HeldKernelIsLaunched(d: Dispatcher, disk: Disk, sig: Signature, key: LaunchKey, held: Signature,
      env: Environment)
    requires held in Server(d, key).overloads
    ensures CallDispatcher(d, disk, sig, key, Some(held), env).launched == Some(Server(d, key).overloads[held])
  {
  }

  /** A launch leaves the kernel it used with the node that served it, and a dispatcher that is sensitive
      by then goes on serving that key with that node. */
  lemma LaunchIsRemembered(
    d: Dispatcher, disk: Disk, sig: Signature, key: LaunchKey, resolved: Option<Signature>, env: Environment)
    requires DispatcherOk(d) && DiskOk(disk)
    requires CallDispatcher(d, disk, sig, key, resolved, env).launched.Some?
    ensures var r := CallDispatcher(d, disk, sig, key, resolved, env);
      var used := Used(Server(d, key), sig, resolved);
      && Route(r.dispatcher.own, key) == Route(d.own, key)
      && used in Server(r.dispatcher, key).overloads
      && r.launched == Some(Server(r.dispatcher, key).overloads[used])
  {
    var n := Server(d, key);
    var r := CallNode(n, disk, sig, key, resolved, env);
    CallNodeRemembers(n, disk, sig, key, resolved, env);
    if Route(d.own, key).None? {
      CallNodePins(n, disk, sig, key, resolved, env, r);
      assert PinDefault(d.own, key) == d.own;
    }
    hide CallNode;
  }

  lemma CallNodeRemembers(
    n: Node, disk: Disk, sig: Signature, key: LaunchKey, resolved: Option<Signature>, env: Environment)
    requires CallNode(n, disk, sig, key, resolved, env).kernel.Some?
    ensures var r := CallNode(n, disk, sig, key, resolved, env);
      var used := Used(n, sig, resolved);
      used in r.node.overloads && r.kernel == Some(r.node.overloads[used])
  {
    CompileShape(n, disk, sig, Some(key), env, CompileNode(n, disk, sig, Some(key), env));
    hide CompileNode;
  }

  /** The step by which dispatcher `who` launches, and what it launched there. */
  function LaunchedBy(
    w: World, who: nat, sig: Signature, config: LaunchConfig, resolved: Option<Signature>, env: Environment)
    : Option<Kernel>
    requires who < |w.dispatchers|
  {
    CallDispatcher(w.dispatchers[who], w.disk, sig, KeyOf(config), resolved, env).launched
  }

  /** In every run in which the dispatcher neither recompiles nor restarts, a later launch of the same
      overload under the same key launches the very same kernel, whatever the compiler would do, as long
      as the same node serves the key; which it does if the dispatcher was sensitive after the first. */
  lemma LaterLaunchReuses(
    w: World, who: nat, sig: Signature, config: LaunchConfig, resolved: Option<Signature>, env: Environment,
    steps: seq<Step>, env': Environment)
    requires WorldOk(w) && who < |w.dispatchers| && forall s <- steps :: !Forgets(s, who)
    requires LaunchedBy(w, who, sig, config, resolved, env).Some?
    ensures var key := KeyOf(config);
      var w1 := Apply(w, Call(who, sig, config, resolved, env));
      var w2 := Run(w1, steps);
      && who < |w1.dispatchers| && who < |w2.dispatchers|
      && (w1.dispatchers[who].own.sensitive ==>
            Route(w2.dispatchers[who].own, key) == Route(w1.dispatchers[who].own, key))
      && (Route(w2.dispatchers[who].own, key) == Route(w1.dispatchers[who].own, key) ==>
            LaunchedBy(w2, who, sig, config, Some(Used(Server(w.dispatchers[who], key), sig, resolved)), env')
            == LaunchedBy(w, who, sig, config, resolved, env))
  {
    var d, key := w.dispatchers[who], KeyOf(config);
    var call := Call(who, sig, config, resolved, env);
    var w1 := Apply(w, call);
    var w2 := Run(w1, steps);
    var used := Used(Server(d, key), sig, resolved);
    LaunchIsRemembered(d, w.disk, sig, key, resolved, env);
    StepKeeps(w, call);
    RunGrows(w1, steps, who);
    var d1, d2 := w1.dispatchers[who], w2.dispatchers[who];
    assert d1 == CallDispatcher(d, w.disk, sig, key, resolved, env).dispatcher;
    ServerGrows(d, w.disk, sig, key, resolved, env, d2);
    hide CallDispatcher;
    if Route(d2.own, key) == Route(d1.own, key) {
      HeldKernelIsLaunched(d2, w2.disk, sig, key, used, env');
    }
  }

  lemma ServerGrows(
    d: Dispatcher, disk: Disk, sig: Signature, key: LaunchKey, resolved: Option<Signature>, env: Environment,
    d2: Dispatcher)
    requires var d1 := CallDispatcher(d, disk, sig, key, resolved, env).dispatcher;
      DispatcherOk(d) && DiskOk(disk) && DispatcherGrows(d1, d2)
      && Route(d1.own, key) == Route(d.own, key)
    ensures var d1 := CallDispatcher(d, disk, sig, key, resolved, env).dispatcher;
      && (d1.own.sensitive ==> Route(d2.own, key) == Route(d1.own, key))
      && (Route(d2.own, key) == Route(d1.own, key) ==> Grows(Server(d1, key), Server(d2, key)))
  {
    var d1 := CallDispatcher(d, disk, sig, key, resolved, env).dispatcher;
    CallKeeps(d, disk, sig, key, resolved, env);
    assert Route(d.own, key).Some? ==> key in d1.children;
    hide CallDispatcher;
  }

  // ----- what recompilation reaches -----

  ghost predicate HeldBy(n: Node, kernel: Kernel) {
    exists s :: s in n.overloads && n.overloads[s] == kernel
  }

  /** The kernels a dispatcher can launch from memory. */
  ghost predicate Held(d: Dispatcher, kernel: Kernel) {
    HeldBy(d.own, kernel) || exists k :: k in d.children && HeldBy(d.children[k], kernel)
  }

  predicate BuiltDuring(kernel: Kernel, envs: seq<Environment>) {
    exists i :: 0 <= i < |envs| && BuildsPlain(envs[i]) && envs[i].outcome.build == kernel.build
  }

  /** These runs of the compiler come after every kernel in memory was built. */
  ghost predicate NewBuilds(d: Dispatcher, envs: seq<Environment>) {
    forall kernel :: Held(d, kernel) ==> !BuiltDuring(kernel, envs)
  }

  predicate NothingInChildren(d: Dispatcher) {
    forall k :: k in d.children ==> d.children[k].overloads == map[]
  }

  function Recompiled(d: Dispatcher, disk: Disk, envs: seq<Environment>): Dispatcher
    requires |envs| == |d.own.order|
  {
    d.(own := RecompileNode(d.own, disk, envs).0)
  }

  lemma OwnIsRebuilt(d: Dispatcher, disk: Disk, envs: seq<Environment>, kernel: Kernel)
    requires Ordered(d.own) && |envs| == |d.own.order|
    requires HeldBy(Recompiled(d, disk, envs).own, kernel)
    ensures BuiltDuring(kernel, envs)
  {
    RecompileIsFresh(d.own, disk, envs);
    var n' := RecompileNode(d.own, disk, envs).0;
    var s :| s in n'.overloads && n'.overloads[s] == kernel;
    var f := Completed(envs);
    var i :| 0 <= i < f && d.own.order[..f][i] == s;
    assert kernel == PlainKernel(s, envs[..f][i]);
  }

  /** After a recompilation, even one cut short, every kernel the dispatcher can launch from memory
      was built by it if and only if no specialization held one. */
  lemma RecompileCoversExactly(d: Dispatcher, disk: Disk, envs: seq<Environment>)
    requires Ordered(d.own) && |envs| == |d.own.order| && NewBuilds(d, envs)
    ensures (forall kernel :: Held(Recompiled(d, disk, envs), kernel) ==> BuiltDuring(kernel, envs))
      <==> NothingInChildren(d)
  {
    var d' := Recompiled(d, disk, envs);
    forall kernel | HeldBy(d'.own, kernel) ensures BuiltDuring(kernel, envs) {
      OwnIsRebuilt(d, disk, envs, kernel);
    }
    if !NothingInChildren(d) {
      var k :| k in d.children && d.children[k].overloads != map[];
      var s :| s in d.children[k].overloads;
      var kernel := d.children[k].overloads[s];
      assert HeldBy(d.children[k], kernel) && HeldBy(d'.children[k], kernel);
      assert Held(d, kernel) && Held(d', kernel);
    }
  }

  /** The disk is no other source: a caching dispatcher leaves only entries built by the recompilation. */
  lemma RecompiledDiskIsFresh(n: Node, disk: Disk, envs: seq<Environment>)
    requires |envs| == |n.order| && n.cache.Some?
    ensures forall at <- RecompileNode(n, disk, envs).1.entries ::
      BuiltDuring(RecompileNode(n, disk, envs).1.entries[at], envs)
  {
    var cleared := n.(overloads := map[], order := [], cache := FlushedCache(n.cache), canCompile := true);
    CompileAllStores(cleared, Disk(map[], false), n.order, envs);
  }

  lemma {:induction false} CompileAllStores(n: Node, disk: Disk, sigs: seq<Signature>, envs: seq<Environment>)
    requires |sigs| == |envs|
    ensures var after := CompileAll(n, disk, sigs, envs).1;
      forall at <- after.entries ::
        (at in disk.entries && disk.entries[at] == after.entries[at]) || BuiltDuring(after.entries[at], envs)
    decreases |sigs|
  {
    if sigs != [] {
      var r := CompileNode(n, disk, sigs[0], None, envs[0]);
      CompileStores(n, disk, sigs[0], envs[0]);
      hide CompileNode;
      if BuildsPlain(envs[0]) {
        assert forall kernel: Kernel :: kernel.build == envs[0].outcome.build ==> BuiltDuring(kernel, envs);
      }
      if r.kernel.Some? {
        CompileAllStores(r.node, r.disk, sigs[1..], envs[1..]);
        var after := CompileAll(r.node, r.disk, sigs[1..], envs[1..]).1;
        forall at <- after.entries | BuiltDuring(after.entries[at], envs[1..])
          ensures BuiltDuring(after.entries[at], envs)
        {
          var i :| 0 <= i < |envs[1..]| && BuildsPlain(envs[1..][i])
            && envs[1..][i].outcome.build == after.entries[at].build;
          assert envs[i + 1] == envs[1..][i];
        }
      }
    }
  }

  lemma CompileStores(n: Node, disk: Disk, sig: Signature, env: Environment)
    ensures var r := CompileNode(n, disk, sig, None, env);
      forall at <- r.disk.entries ::
        || (at in disk.entries && disk.entries[at] == r.disk.entries[at])
        || (BuildsPlain(env) && r.disk.entries[at].build == env.outcome.build)
  {
    var r := CompileNode(n, disk, sig, None, env);
    CompileShape(n, disk, sig, None, env, r);
    if sig !in n.overloads {
      CompiledOrLoaded(n, disk, sig, None, env, r);
    }
    hide CompileNode;
  }

  // ----- at an input -----

  /** A specialization whose only overload is a sensitive kernel of its key. */
  function PinnedChild(sig: Signature, key: LaunchKey, build: nat): Node {
    Node(map[sig := Kernel(sig, true, Some(key), build)], [sig], true, Some(key), Some(key),
         Some(CacheMemory(Keyed(key), Some(true))), true)
  }

  function WithChild(d: Dispatcher, sig: Signature, key: LaunchKey, build: nat): Dispatcher {
    d.(children := d.children[key := PinnedChild(sig, key, build)])
  }

  lemma OtherKeyIsRouted(sig: Signature, key: LaunchKey, other: LaunchKey)
    requires key != other
    ensures var disk := Disk(map[IndexKey(sig, Keyed(key)) := Kernel(sig, true, Some(key), 1)], true);
      var kernel := Kernel(sig, true, Some(other), 2);
      CallDispatcher(Pinned(sig, key, 1), disk, sig, other, None, Marks(2))
      == CallResult(Some(kernel), WithChild(Pinned(sig, key, 1), sig, other, 2),
                    disk.(entries := disk.entries[IndexKey(sig, Keyed(other)) := kernel]))
  {
    assert [] + [sig] == [sig];
  }

  lemma RecompilesOwnOnly(sig: Signature, key: LaunchKey, other: LaunchKey, disk: Disk)
    ensures var d := WithChild(Pinned(sig, key, 1), sig, other, 2);
      Recompiled(d, disk, [Environment(Builds(false, 3), true)]).children == d.children
      && Recompiled(d, disk, [Environment(Builds(false, 3), true)]).own.sensitive
      && Recompiled(d, disk, [Environment(Builds(false, 3), true)]).own.defaultKey == Some(key)
      && Recompiled(d, disk, [Environment(Builds(false, 3), true)]).own.specializationKey == None
  {
    var d := WithChild(Pinned(sig, key, 1), sig, other, 2);
    var cleared := d.own.(overloads := map[], order := [], cache := FlushedCache(d.own.cache), canCompile := true);
    CompileAllKeepsIdentity(cleared, FlushedDisk(d.own.cache, disk), d.own.order,
      [Environment(Builds(false, 3), true)]);
  }

  lemma {:induction false} CompileAllKeepsIdentity(n: Node, disk: Disk, sigs: seq<Signature>, envs: seq<Environment>)
    requires |sigs| == |envs|
    ensures SameIdentity(n, CompileAll(n, disk, sigs, envs).0)
    decreases |sigs|
  {
    if sigs != [] {
      var r := CompileNode(n, disk, sigs[0], None, envs[0]);
      CompileKeepsIdentity(n, disk, sigs[0], None, envs[0]);
      hide CompileNode;
      if r.kernel.Some? {
        CompileAllKeepsIdentity(r.node, r.disk, sigs[1..], envs[1..]);
      }
    }
  }

  /** A kernel outlives the recompilation: built by the second run of the compiler for another launch key,
      it is launched after the recompilation, with a compiler that can build nothing any more. */
  lemma ChildOutlivesRecompile(sig: Signature, config: LaunchConfig, other: LaunchConfig)
    requires KeyOf(config) != KeyOf(other)
    ensures
      var steps := [Create(true), Call(0, sig, config, None, Marks(1)), Call(0, sig, other, None, Marks(2)),
                    Recompile(0, [Environment(Builds(false, 3), true)]),
                    Call(0, sig, other, Some(sig), Environment(Raises, false))];
      Run(World(EMPTY_DISK, [], []), steps).launches
      == [Launch(Kernel(sig, true, Some(KeyOf(config)), 1), KeyOf(config)),
          Launch(Kernel(sig, true, Some(KeyOf(other)), 2), KeyOf(other)),
          Launch(Kernel(sig, true, Some(KeyOf(other)), 2), KeyOf(other))]
  {
    var again := Recompile(0, [Environment(Builds(false, 3), true)]);
    var third := Call(0, sig, other, Some(sig), Environment(Raises, false));
    SensitiveUnderTwoKeys(sig, config, other, [again, third]);
    var first, second := Call(0, sig, config, None, Marks(1)), Call(0, sig, other, None, Marks(2));
    assert [Create(true), first, second, again, third] == [Create(true), first, second] + [again, third];
    var w3 := AfterTwoKeys(sig, KeyOf(config), KeyOf(other));
    var w4 := Apply(w3, again);
    RecompilesOwnOnly(sig, KeyOf(config), KeyOf(other), w3.disk);
    var d4 := w4.dispatchers[0];
    assert d4 == Recompiled(w3.dispatchers[0], w3.disk, [Environment(Builds(false, 3), true)]);
    HeldKernelIsLaunched(d4, w4.disk, sig, KeyOf(other), sig, Environment(Raises, false));
    hide CallDispatcher, RecompileNode;
    RunUnfolds(w3, again, [third]);
    RunUnfolds(w4, third, []);
  }

  /** Two sensitive launches of one signature, each under its own key. */
  function AfterTwoKeys(sig: Signature, key: LaunchKey, other: LaunchKey): World {
    var k1, k2 := Kernel(sig, true, Some(key), 1), Kernel(sig, true, Some(other), 2);
    World(
      Disk(map[IndexKey(sig, Keyed(key)) := k1][IndexKey(sig, Keyed(other)) := k2], true),
      [WithChild(Pinned(sig, key, 1), sig, other, 2)],
      [Launch(k1, key), Launch(k2, other)])
  }

  lemma SensitiveUnderTwoKeys(sig: Signature, config: LaunchConfig, other: LaunchConfig, rest: seq<Step>)
    requires KeyOf(config) != KeyOf(other)
    ensures var first, second := Call(0, sig, config, None, Marks(1)), Call(0, sig, other, None, Marks(2));
      Run(World(EMPTY_DISK, [], []), [Create(true), first, second] + rest)
      == Run(AfterTwoKeys(sig, KeyOf(config), KeyOf(other)), rest)
  {
    var key, key' := KeyOf(config), KeyOf(other);
    var first, second := Call(0, sig, config, None, Marks(1)), Call(0, sig, other, None, Marks(2));
    FirstSensitiveLaunch(sig, key, 1);
    OtherKeyIsRouted(sig, key, key');
    hide CallDispatcher;
    var w0 := World(EMPTY_DISK, [], []);
    var w1 := Apply(w0, Create(true));
    var w2 := Apply(w1, first);
    assert w1.dispatchers == [Dispatcher(FreshNode(true), map[])];
    assert w2.dispatchers == [Pinned(sig, key, 1)];
    assert Apply(w2, second) == AfterTwoKeys(sig, key, key');
    assert [Create(true), first, second] + rest == [Create(true)] + ([first] + ([second] + rest));
    RunUnfolds(w0, Create(true), [first] + ([second] + rest));
    RunUnfolds(w1, first, [second] + rest);
    RunUnfolds(w2, second, rest);
  }

  /** A launch key is not always served by the same node: an insensitive kernel launched by the dispatcher
      itself is compiled anew for the same key once another launch has made the dispatcher sensitive. */
  lemma InsensitiveLaunchCanBeRerouted(s1: Signature, s2: Signature, config: LaunchConfig, other: LaunchConfig)
    requires s1 != s2 && KeyOf(config) != KeyOf(other)
    ensures
      var steps := [Create(true), Call(0, s1, config, None, Environment(Builds(false, 1), true)),
                    Call(0, s2, other, None, Marks(2)),
                    Call(0, s1, config, Some(s1), Environment(Builds(false, 3), true))];
      Run(World(EMPTY_DISK, [], []), steps).launches
      == [Launch(Kernel(s1, false, Some(KeyOf(config)), 1), KeyOf(config)),
          Launch(Kernel(s2, true, Some(KeyOf(other)), 2), KeyOf(other)),
          Launch(Kernel(s1, false, Some(KeyOf(config)), 3), KeyOf(config))]
  {
    var key, key' := KeyOf(config), KeyOf(other);
    var first := Call(0, s1, config, None, Environment(Builds(false, 1), true));
    var second := Call(0, s2, other, None, Marks(2));
    var third := Call(0, s1, config, Some(s1), Environment(Builds(false, 3), true));
    var w0 := World(EMPTY_DISK, [], []);
    var w1 := Apply(w0, Create(true));
    var w2 := Apply(w1, first);
    var w3 := Apply(w2, second);
    assert w1.dispatchers == [Dispatcher(FreshNode(true), map[])];
    PlainThenSensitive(s1, s2, key, key');
    assert w2.dispatchers == [AfterPlain(s1, key)];
    assert w2.disk == PlainDisk(s1, key);
    hide CallDispatcher, RecompileNode;
    RunUnfolds(w0, Create(true), [first, second, third]);
    RunUnfolds(w1, first, [second, third]);
    RunUnfolds(w2, second, [third]);
    RunUnfolds(w3, third, []);
  }

  function AfterPlain(sig: Signature, key: LaunchKey): Dispatcher {
    Dispatcher(
      Node(map[sig := Kernel(sig, false, Some(key), 1)], [sig], false, None, None,
           Some(CacheMemory(Plain, Some(false))), true),
      map[])
  }

  function PlainDisk(sig: Signature, key: LaunchKey): Disk {
    Disk(map[IndexKey(sig, Plain) := Kernel(sig, false, Some(key), 1)], false)
  }

  lemma PlainThenSensitive(s1: Signature, s2: Signature, key: LaunchKey, other: LaunchKey)
    requires s1 != s2 && key != other
    ensures CallDispatcher(Dispatcher(FreshNode(true), map[]), EMPTY_DISK, s1, key, None,
      Environment(Builds(false, 1), true))
      == CallResult(Some(Kernel(s1, false, Some(key), 1)), AfterPlain(s1, key), PlainDisk(s1, key))
    ensures var r := CallDispatcher(AfterPlain(s1, key), PlainDisk(s1, key), s2, other, None, Marks(2));
      && r.launched == Some(Kernel(s2, true, Some(other), 2))
      && CallDispatcher(r.dispatcher, r.disk, s1, key, Some(s1), Environment(Builds(false, 3), true)).launched
        == Some(Kernel(s1, false, Some(key), 3))
  {
    assert [] + [s1] == [s1];
  }
}
