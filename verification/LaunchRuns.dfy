/** What the dispatcher and its disk cache keep over every sequential run. */
module LaunchRuns {
  import opened Options
  import opened LaunchModel

  // ----- invariants -----

  /** A sensitive kernel among the overloads was compiled under the node's default key; a node is
      sensitive exactly when it has a default key; a child's default key is the key it stands for. */
  ghost predicate NodeOk(n: Node) {
    && (n.sensitive <==> n.defaultKey.Some?)
    && (n.specializationKey.Some? ==> n.defaultKey == n.specializationKey)
    && (forall s <- n.overloads :: n.overloads[s].sensitive ==>
      n.sensitive && n.overloads[s].compiledUnder == n.defaultKey)
  }

  ghost predicate DispatcherOk(d: Dispatcher) {
    && NodeOk(d.own)
    && d.own.specializationKey.None?
    && (forall k <- d.children :: NodeOk(d.children[k]) && d.children[k].specializationKey == Some(k))
  }

  /** A sensitive entry sits under the launch key its kernel was compiled for. Nothing is assumed of
      entries under the plain key: they may come from a package without the marker. */
  ghost predicate EntryOk(at: IndexKey, kernel: Kernel) {
    at.cacheKey.Plain? || !kernel.sensitive || (at.cacheKey.Keyed? && kernel.compiledUnder == Some(at.cacheKey.key))
  }

  ghost predicate DiskOk(disk: Disk) {
    forall at <- disk.entries :: EntryOk(at, disk.entries[at])
  }

  /** A node that is asked to work under `active` would accept a sensitive kernel of that key only. */
  ghost predicate Suits(n: Node, active: Option<LaunchKey>) {
    active.Some? && n.sensitive ==> n.defaultKey == active
  }

  /** A sensitive kernel of the node's default key or, before there is one, of the active key. */
  ghost predicate FitFor(n: Node, kernel: Kernel, active: Option<LaunchKey>) {
    if n.sensitive then kernel.compiledUnder == n.defaultKey
    else active.Some? && kernel.compiledUnder == active
  }

  /** The overloads are as in NodeOk, except that the kernel just obtained may be a sensitive kernel of
      the active key that the caller has not accounted for yet. */
  ghost predicate Obtained(n: Node, kernel: Kernel, active: Option<LaunchKey>) {
    && (n.sensitive <==> n.defaultKey.Some?)
    && (n.specializationKey.Some? ==> n.defaultKey == n.specializationKey)
    && (kernel.sensitive ==> FitFor(n, kernel, active))
    && (forall s <- n.overloads :: n.overloads[s] == kernel
          || (n.overloads[s].sensitive ==> n.sensitive && n.overloads[s].compiledUnder == n.defaultKey))
  }

  /** Everything about a node that compiling may not change. */
  ghost predicate SameIdentity(n: Node, n': Node) {
    n'.sensitive == n.sensitive && n'.defaultKey == n.defaultKey && n'.specializationKey == n.specializationKey
    && n'.canCompile == n.canCompile
  }

  lemma {:induction false} BuildKeeps(n: Node, disk: Disk, sig: Signature, active: Option<LaunchKey>, env: Environment)
    requires NodeOk(n) && DiskOk(disk) && Suits(n, active) && sig !in n.overloads
    ensures var r := Build(n, disk, sig, active, env);
      && DiskOk(r.disk) && SameIdentity(n, r.node)
      && if r.kernel.Some? then Obtained(r.node, r.kernel.value, active) else NodeOk(r.node)
  {
  }

  lemma AddingKeeps(n: Node, sig: Signature, kernel: Kernel, active: Option<LaunchKey>)
    requires NodeOk(n)
    requires kernel.sensitive ==> FitFor(n, kernel, active)
    ensures Obtained(AddOverload(n, sig, kernel), kernel, active) && SameIdentity(n, AddOverload(n, sig, kernel))
  {
  }

  /** What a lookup under the configured key finds is fit for this node, unless it is a sensitive entry
      under the plain key, which the missing marker gives away. */
  lemma FoundSuits(n: Node, disk: Disk, sig: Signature, active: Option<LaunchKey>)
    requires NodeOk(n) && DiskOk(disk) && Suits(n, active)
    ensures var n1 := ConfigureCache(n, disk, active);
      var found := Lookup(n1, disk, sig);
      && NodeOk(n1) && SameIdentity(n, n1)
      && (found.Some? && found.value.sensitive && HasMarker(n1.cache.value, disk) ==> FitFor(n, found.value, active))
  {
    var n1 := ConfigureCache(n, disk, active);
    var found := Lookup(n1, disk, sig);
    if found.Some? {
      assert EntryOk(IndexKey(sig, n1.cache.value.key), found.value);
    }
  }

  lemma {:induction false} CompileKeeps(n: Node, disk: Disk, sig: Signature, active: Option<LaunchKey>,
      env: Environment)
    requires NodeOk(n) && DiskOk(disk) && Suits(n, active)
    ensures var r := CompileNode(n, disk, sig, active, env);
      && DiskOk(r.disk) && SameIdentity(n, r.node)
      && if r.kernel.Some? then Obtained(r.node, r.kernel.value, active) else NodeOk(r.node)
  {
    if sig !in n.overloads {
      var n1 := ConfigureCache(n, disk, active);
      var found := Lookup(n1, disk, sig);
      FoundSuits(n, disk, sig, active);
      if found.None? {
        BuildKeeps(n1, disk, sig, active, env);
      } else if !found.value.sensitive {
        AddingKeeps(n1, sig, found.value, active);
      } else {
        var n2 := n1.(cache := Some(AskMarker(n1.cache.value, disk)));
        if HasMarker(n1.cache.value, disk) {
          AddingKeeps(n2.(cache := Some(n2.cache.value.(key := CacheKeyFor(n2, active)))), sig, found.value, active);
        } else {
          var (n3, disk3) := KeyAndMark(n2, disk, active, env.markerWritable);
          BuildKeeps(n3, disk3, sig, active, env);
        }
      }
    }
  }

  // ----- what one compilation adds -----

  /** The overloads and the index gain at most the kernel obtained, the index at the cache's final key. */
  ghost predicate Adds(n: Node, disk: Disk, sig: Signature, r: Result) {
    if r.kernel.None? then
      r.disk.entries == disk.entries && r.node.overloads == n.overloads && r.node.order == n.order
    else
      && r.node.overloads == n.overloads[sig := r.kernel.value]
      && r.node.order == n.order + [sig]
      && (r.disk.entries == disk.entries
          || (r.node.cache.Some?
              && r.disk.entries == disk.entries[IndexKey(sig, r.node.cache.value.key) := r.kernel.value]))
  }

  lemma BuildShape(n: Node, disk: Disk, sig: Signature, active: Option<LaunchKey>, env: Environment, r: Result)
    requires sig !in n.overloads && r == Build(n, disk, sig, active, env)
    ensures Adds(n, disk, sig, r)
  {
  }

  lemma CompileShape(n: Node, disk: Disk, sig: Signature, active: Option<LaunchKey>, env: Environment, r: Result)
    requires r == CompileNode(n, disk, sig, active, env)
    ensures if sig in n.overloads then r == Result(Some(n.overloads[sig]), n, disk) else Adds(n, disk, sig, r)
  {
    if sig !in n.overloads {
      var n1 := ConfigureCache(n, disk, active);
      var found := Lookup(n1, disk, sig);
      if found.None? {
        BuildShape(n1, disk, sig, active, env, r);
      } else if found.value.sensitive && !HasMarker(n1.cache.value, disk) {
        var n2 := n1.(cache := Some(AskMarker(n1.cache.value, disk)));
        var (n3, disk3) := KeyAndMark(n2, disk, active, env.markerWritable);
        BuildShape(n3, disk3, sig, active, env, r);
      }
    }
  }

  lemma {:induction false} CallNodeKeeps(
    n: Node, disk: Disk, sig: Signature, key: LaunchKey, resolved: Option<Signature>, env: Environment)
    requires NodeOk(n) && DiskOk(disk) && Suits(n, Some(key))
    ensures var r := CallNode(n, disk, sig, key, resolved, env);
      && DiskOk(r.disk) && NodeOk(r.node)
      && r.node.specializationKey == n.specializationKey
      && (n.sensitive ==> r.node.defaultKey == n.defaultKey)
      && (r.kernel.Some? && r.kernel.value.sensitive ==> r.kernel.value.compiledUnder == Some(key))
  {
    CompileKeeps(n, disk, sig, Some(key), env);
  }

  // ----- the disk cache -----

  /** A sensitive kernel comes back from the disk exactly when there is one under the key of the active
      launch and the marker is known. (`CompilerRaises` leaves the disk as the only source.) */
  lemma AcceptedFromDiskExactly(n: Node, disk: Disk, sig: Signature, key: LaunchKey, env: Environment)
    requires NodeOk(n) && DiskOk(disk) && Suits(n, Some(key)) && n.cache.Some?
    requires sig !in n.overloads && CompilerRaises(n, Some(key), env)
    ensures var r := CompileNode(n, disk, sig, Some(key), env);
      var at := IndexKey(sig, Keyed(key));
      (r.kernel.Some? && r.kernel.value.sensitive)
      <==> (at in disk.entries && disk.entries[at].sensitive && HasMarker(n.cache.value, disk))
    ensures var r := CompileNode(n, disk, sig, Some(key), env);
      r.kernel.Some? && r.kernel.value.sensitive ==> r.kernel.value == disk.entries[IndexKey(sig, Keyed(key))]
  {
    var n1 := ConfigureCache(n, disk, Some(key));
    assert n1.cache.value.key == Keyed(key) || n1.cache.value.key == Plain;
  }

  /** The compiler ran for this request; a sensitive kernel it built and saved sits in a marked cache. */
  ghost predicate JustCompiled(
    n: Node, disk: Disk, sig: Signature, active: Option<LaunchKey>, env: Environment, r: Result)
  {
    && !CompilerRaises(n, active, env)
    && r.kernel == Some(Kernel(sig, env.outcome.marks, active, env.outcome.build))
    && (env.outcome.marks && r.disk.entries != disk.entries ==>
        r.node.cache.Some? && r.node.cache.value == CacheMemory(CacheKeyFor(n, active), Some(true)))
  }

  lemma BuiltByCompiler(n: Node, disk: Disk, sig: Signature, active: Option<LaunchKey>, env: Environment, r: Result)
    requires r == Build(n, disk, sig, active, env)
    ensures if CompilerRaises(n, active, env) then r.kernel.None? && r.disk == disk
            else JustCompiled(n, disk, sig, active, env, r)
  {
  }

  /** Where a kernel that was not among the overloads comes from: there is none and the index stays as it
      was, it is the index entry at the configured key and the index stays as it was, or it has just been
      compiled under the active key. */
  ghost predicate FromIndexOrCompiler(
    n: Node, disk: Disk, sig: Signature, active: Option<LaunchKey>, env: Environment, r: Result)
  {
    || (r.kernel.None? && r.disk.entries == disk.entries && CompilerRaises(n, active, env))
    || (r.kernel.Some? && r.kernel == Lookup(ConfigureCache(n, disk, active), disk, sig)
        && r.disk.entries == disk.entries)
    || JustCompiled(n, disk, sig, active, env, r)
  }

  lemma CompiledOrLoaded(n: Node, disk: Disk, sig: Signature, active: Option<LaunchKey>, env: Environment, r: Result)
    requires sig !in n.overloads && r == CompileNode(n, disk, sig, active, env)
    ensures FromIndexOrCompiler(n, disk, sig, active, env, r)
  {
    var n1 := ConfigureCache(n, disk, active);
    var found := Lookup(n1, disk, sig);
    if found.None? {
      BuiltByCompiler(n1, disk, sig, active, env, r);
    } else if found.value.sensitive && !HasMarker(n1.cache.value, disk) {
      var n2 := n1.(cache := Some(AskMarker(n1.cache.value, disk)));
      var (n3, disk3) := KeyAndMark(n2, disk, active, env.markerWritable);
      BuiltByCompiler(n3, disk3, sig, active, env, r);
    }
  }

  ghost predicate NewEntry(before: Disk, after: Disk, at: IndexKey) {
    at in after.entries && (at !in before.entries || before.entries[at] != after.entries[at])
  }

  /** Compiling writes at most the entry of the requested signature; a sensitive kernel goes under the
      launch key it was compiled for and never under the plain key, and only when the marker was
      recorded or is remembered. */
  lemma {:induction false} StoredUnderOwnKey(n: Node, disk: Disk, sig: Signature, active: Option<LaunchKey>,
      env: Environment, at: IndexKey)
    requires NodeOk(n) && DiskOk(disk) && Suits(n, active)
    requires NewEntry(disk, CompileNode(n, disk, sig, active, env).disk, at)
    ensures var r := CompileNode(n, disk, sig, active, env);
      var stored := r.disk.entries[at];
      && r.kernel == Some(stored) && at.sig == sig == stored.sig && stored.compiledUnder == active
      && (stored.sensitive ==>
          && at.cacheKey.Keyed? && stored.compiledUnder == Some(at.cacheKey.key)
          && r.node.cache.Some? && r.node.cache.value.flag == Some(true))
  {
    var r := CompileNode(n, disk, sig, active, env);
    CompileShape(n, disk, sig, active, env, r);
    CompiledOrLoaded(n, disk, sig, active, env, r);
  }

  /** When the marker is neither remembered nor writable nor already on disk, a sensitive kernel is built
      without being stored, and the disk cache is given up for good. */
  lemma NotStoredWithoutMarker(n: Node, disk: Disk, sig: Signature, key: LaunchKey, env: Environment)
    requires NodeOk(n) && DiskOk(disk) && Suits(n, Some(key)) && sig !in n.overloads
    requires env.outcome.Builds? && env.outcome.marks && !env.markerWritable && n.canCompile
    requires n.cache.Some? && !HasMarker(n.cache.value, disk)
    ensures var r := CompileNode(n, disk, sig, Some(key), env);
      var cached := Lookup(ConfigureCache(n, disk, Some(key)), disk, sig);
      (cached.None? || cached.value.sensitive) ==>
        r.disk == disk && r.node.cache.None? && r.kernel == Some(Kernel(sig, true, Some(key), env.outcome.build))
  {
  }

  /** Once a sensitive kernel has been stored the marker is on disk, except exactly when the cache object
      remembers a marker that has been removed behind its back. */
  lemma {:induction false} MarkerAfterStore(n: Node, disk: Disk, sig: Signature, active: Option<LaunchKey>,
      env: Environment, at: IndexKey)
    requires NodeOk(n) && DiskOk(disk) && Suits(n, active) && n.cache.Some?
    requires NewEntry(disk, CompileNode(n, disk, sig, active, env).disk, at)
    requires CompileNode(n, disk, sig, active, env).disk.entries[at].sensitive
    ensures CompileNode(n, disk, sig, active, env).disk.marker <==> !(n.cache.value.flag == Some(true) && !disk.marker)
  {
    StoredUnderOwnKey(n, disk, sig, active, env, at);
  }

  // ----- recompilation -----

  ghost predicate Ordered(n: Node) {
    && (forall s :: s in n.order <==> s in n.overloads)
    && (forall i, j :: 0 <= i < j < |n.order| ==> n.order[i] != n.order[j])
  }

  lemma OrderedExtends(n: Node, n': Node, sig: Signature, kernel: Kernel)
    requires Ordered(n) && sig !in n.overloads
    requires n'.overloads == n.overloads[sig := kernel] && n'.order == n.order + [sig]
    ensures Ordered(n')
  {
  }

  lemma CompileKeepsOrder(n: Node, disk: Disk, sig: Signature, active: Option<LaunchKey>, env: Environment)
    requires Ordered(n)
    ensures Ordered(CompileNode(n, disk, sig, active, env).node)
  {
    var r := CompileNode(n, disk, sig, active, env);
    CompileShape(n, disk, sig, active, env, r);
    if r.kernel.Some? && sig !in n.overloads {
      OrderedExtends(n, r.node, sig, r.kernel.value);
    }
  }

  /** No entry of the disk can stand in for one of these signatures. */
  ghost predicate NothingStoredFor(disk: Disk, sigs: seq<Signature>) {
    forall at <- disk.entries :: at.sig !in sigs
  }

  /** The compiler builds an unmarked kernel, as it does outside any launch unless it raises. */
  predicate BuildsPlain(env: Environment) {
    env.outcome.Builds? && !env.outcome.marks
  }

  predicate AllBuildPlain(envs: seq<Environment>) {
    forall i :: 0 <= i < |envs| ==> BuildsPlain(envs[i])
  }

  function PlainKernel(sig: Signature, env: Environment): Kernel
    requires BuildsPlain(env)
  {
    Kernel(sig, false, None, env.outcome.build)
  }

  lemma FreshCompile(n: Node, disk: Disk, sig: Signature, env: Environment)
    requires n.canCompile && sig !in n.overloads && BuildsPlain(env)
    requires forall at <- disk.entries :: at.sig != sig
    ensures var r := CompileNode(n, disk, sig, None, env);
      r.kernel == Some(PlainKernel(sig, env)) && r.node.canCompile && Adds(n, disk, sig, r)
  {
    CompileShape(n, disk, sig, None, env, CompileNode(n, disk, sig, None, env));
  }

  /** Signature `i` now has the kernel of build `i`; other overloads and the order before them are kept. */
  ghost predicate AllFresh(n: Node, sigs: seq<Signature>, envs: seq<Environment>, n': Node)
    requires |sigs| == |envs| && AllBuildPlain(envs)
  {
    && n'.order == n.order + sigs
    && (forall s :: s in n'.overloads <==> s in n.overloads || s in sigs)
    && (forall s :: s in n.overloads && s !in sigs ==> n'.overloads[s] == n.overloads[s])
    && (forall i :: 0 <= i < |sigs| ==> n'.overloads[sigs[i]] == PlainKernel(sigs[i], envs[i]))
  }

  lemma AllFreshExtends(n: Node, n1: Node, sigs: seq<Signature>, envs: seq<Environment>, n': Node)
    requires |sigs| == |envs| && AllBuildPlain(envs)
    requires sigs != [] && sigs[0] !in sigs[1..] && AllFresh(n1, sigs[1..], envs[1..], n')
    requires n1.overloads == n.overloads[sigs[0] := PlainKernel(sigs[0], envs[0])]
    requires n1.order == n.order + [sigs[0]]
    ensures AllFresh(n, sigs, envs, n')
  {
    assert sigs == [sigs[0]] + sigs[1..];
    assert n.order + sigs == n1.order + sigs[1..];
    forall i | 0 <= i < |sigs| ensures n'.overloads[sigs[i]] == PlainKernel(sigs[i], envs[i])
    {
      if i > 0 {
        assert sigs[i] == sigs[1..][i - 1] && envs[i] == envs[1..][i - 1];
      }
    }
  }

  /** How many compilations go through: outside any launch the first that raises or marks ends them. */
  function Completed(envs: seq<Environment>): (f: nat)
    ensures f <= |envs| && AllBuildPlain(envs[..f])
    ensures f < |envs| ==> !BuildsPlain(envs[f])
  {
    if envs == [] || !BuildsPlain(envs[0]) then 0
    else
      var f := 1 + Completed(envs[1..]);
      assert forall i :: 1 <= i < f ==> envs[i] == envs[1..][i - 1];
      f
  }

  lemma FailedCompile(n: Node, disk: Disk, sig: Signature, env: Environment)
    requires sig !in n.overloads && !BuildsPlain(env) && forall at <- disk.entries :: at.sig != sig
    ensures var r := CompileNode(n, disk, sig, None, env);
      r.kernel.None? && r.node.overloads == n.overloads && r.node.order == n.order
  {
    CompileShape(n, disk, sig, None, env, CompileNode(n, disk, sig, None, env));
  }

  lemma {:induction false} CompileAllIsFresh(n: Node, disk: Disk, sigs: seq<Signature>, envs: seq<Environment>)
    requires |sigs| == |envs| && n.canCompile
    requires forall i, j :: 0 <= i < j < |sigs| ==> sigs[i] != sigs[j]
    requires forall s <- sigs :: s !in n.overloads
    requires NothingStoredFor(disk, sigs)
    ensures var f := Completed(envs);
      AllFresh(n, sigs[..f], envs[..f], CompileAll(n, disk, sigs, envs).0)
    decreases |sigs|
  {
    var f := Completed(envs);
    if f == 0 {
      NoneCompleted(n, disk, sigs, envs);
    } else {
      assert sigs[0] in sigs;
      FreshCompile(n, disk, sigs[0], envs[0]);
      var r := CompileNode(n, disk, sigs[0], None, envs[0]);
      RestIsFresh(n, disk, sigs, r);
      assert CompileAll(n, disk, sigs, envs) == CompileAll(r.node, r.disk, sigs[1..], envs[1..]);
      assert sigs[1..][..f - 1] == sigs[..f][1..] && envs[1..][..f - 1] == envs[..f][1..];
      hide CompileNode, CompileAll, AllFresh, NothingStoredFor, BuildsPlain;
      CompileAllIsFresh(r.node, r.disk, sigs[1..], envs[1..]);
      AllFreshExtends(n, r.node, sigs[..f], envs[..f], CompileAll(r.node, r.disk, sigs[1..], envs[1..]).0);
    }
  }

  lemma NoneCompleted(n: Node, disk: Disk, sigs: seq<Signature>, envs: seq<Environment>)
    requires |sigs| == |envs| && Completed(envs) == 0 && NothingStoredFor(disk, sigs)
    requires forall s <- sigs :: s !in n.overloads
    ensures AllFresh(n, sigs[..0], envs[..0], CompileAll(n, disk, sigs, envs).0)
  {
    assert n.order + sigs[..0] == n.order;
    if sigs != [] {
      assert sigs[0] in sigs;
      FailedCompile(n, disk, sigs[0], envs[0]);
    }
    hide CompileNode;
  }

  /** After the first signature the others are as unknown as before. */
  lemma RestIsFresh(n: Node, disk: Disk, sigs: seq<Signature>, r: Result)
    requires sigs != [] && r.kernel.Some? && sigs[0] !in n.overloads && Adds(n, disk, sigs[0], r)
    requires forall i, j :: 0 <= i < j < |sigs| ==> sigs[i] != sigs[j]
    requires forall s <- sigs :: s !in n.overloads
    requires NothingStoredFor(disk, sigs)
    ensures forall i, j :: 0 <= i < j < |sigs[1..]| ==> sigs[1..][i] != sigs[1..][j]
    ensures forall s <- sigs[1..] :: s !in r.node.overloads
    ensures NothingStoredFor(r.disk, sigs[1..])
    ensures forall f :: 0 < f <= |sigs| ==> sigs[0] !in sigs[..f][1..]
  {
    assert forall s <- sigs[1..] :: s in sigs && s != sigs[0];
  }

  /** Overload `i` is the kernel of build `i`. */
  ghost predicate RebuiltInOrder(n: Node, envs: seq<Environment>)
    requires AllBuildPlain(envs)
  {
    |n.order| == |envs| && forall i :: 0 <= i < |envs| ==>
      n.order[i] in n.overloads && n.overloads[n.order[i]] == PlainKernel(n.order[i], envs[i])
  }

  /** Recompilation compiles the signatures of the dispatcher afresh, in the same order, whatever the disk
      held, up to the first that fails; nothing else is left. It asks for no launch configuration, so no
      kernel it builds is sensitive. (With a null cache there is nothing to flush and nothing to load.) */
  lemma RecompileIsFresh(n: Node, disk: Disk, envs: seq<Environment>)
    requires Ordered(n) && |envs| == |n.order|
    ensures var n' := RecompileNode(n, disk, envs).0;
      var f := Completed(envs);
      && n'.order == n.order[..f] && n'.overloads.Keys == (set s | s in n.order[..f])
      && RebuiltInOrder(n', envs[..f])
  {
    var cleared := n.(overloads := map[], order := [], cache := FlushedCache(n.cache), canCompile := true);
    if n.cache.None? {
      CompileAllNoCache(cleared, disk, n.order, envs);
    }
    CompileAllIsFresh(cleared, Disk(map[], false), n.order, envs);
    FreshFromNothing(cleared, n.order[..Completed(envs)], envs[..Completed(envs)],
      CompileAll(cleared, Disk(map[], false), n.order, envs).0);
    hide CompileAll, AllFresh, Ordered, RebuiltInOrder;
  }

  lemma FreshFromNothing(cleared: Node, sigs: seq<Signature>, envs: seq<Environment>, n': Node)
    requires cleared.order == [] && cleared.overloads == map[]
    requires |envs| == |sigs| && AllBuildPlain(envs) && AllFresh(cleared, sigs, envs, n')
    ensures n'.order == sigs && n'.overloads.Keys == (set s | s in sigs) && RebuiltInOrder(n', envs)
  {
    assert [] + sigs == sigs;
  }

  /** Without a cache object the disk has no influence. */
  lemma {:induction false} CompileAllNoCache(n: Node, disk: Disk, sigs: seq<Signature>, envs: seq<Environment>)
    requires |sigs| == |envs| && n.cache.None?
    ensures CompileAll(n, disk, sigs, envs) == (CompileAll(n, Disk(map[], false), sigs, envs).0, disk)
    decreases |sigs|
  {
    if sigs != [] {
      var r := CompileNode(n, disk, sigs[0], None, envs[0]);
      assert r.disk == disk;
      assert CompileNode(n, Disk(map[], false), sigs[0], None, envs[0]) == r.(disk := Disk(map[], false));
      CompileAllNoCache(r.node, disk, sigs[1..], envs[1..]);
    }
  }

  lemma {:induction false} CompileAllKeeps(n: Node, disk: Disk, sigs: seq<Signature>, envs: seq<Environment>)
    requires |sigs| == |envs| && NodeOk(n) && DiskOk(disk)
    ensures var (n', disk') := CompileAll(n, disk, sigs, envs);
      NodeOk(n') && DiskOk(disk') && SameIdentity(n, n')
    decreases |sigs|
  {
    if sigs != [] {
      var r := CompileNode(n, disk, sigs[0], None, envs[0]);
      CompileKeeps(n, disk, sigs[0], None, envs[0]);
      if r.kernel.Some? {
        CompileAllKeeps(r.node, r.disk, sigs[1..], envs[1..]);
      }
    }
  }

  lemma RecompileKeeps(n: Node, disk: Disk, envs: seq<Environment>)
    requires |envs| == |n.order| && NodeOk(n) && DiskOk(disk)
    ensures var (n', disk') := RecompileNode(n, disk, envs);
      NodeOk(n') && DiskOk(disk') && SameIdentity(n, n')
  {
    var cleared := n.(overloads := map[], order := [], cache := FlushedCache(n.cache), canCompile := true);
    CompileAllKeeps(cleared, FlushedDisk(n.cache, disk), n.order, envs);
  }

  // ----- one call -----

  lemma {:induction false} CallKeeps(
    d: Dispatcher, disk: Disk, sig: Signature, key: LaunchKey, resolved: Option<Signature>, env: Environment)
    requires DispatcherOk(d) && DiskOk(disk)
    ensures var r := CallDispatcher(d, disk, sig, key, resolved, env);
      && DispatcherOk(r.dispatcher) && DiskOk(r.disk)
      && (d.own.sensitive ==> r.dispatcher.own.defaultKey == d.own.defaultKey)
      && (r.launched.Some? && r.launched.value.sensitive ==> r.launched.value.compiledUnder == Some(key))
  {
    if Route(d.own, key).Some? {
      CallNodeKeeps(ChildFor(d, key), disk, sig, key, resolved, env);
    } else {
      CallNodeKeeps(d.own, disk, sig, key, resolved, env);
    }
  }

  /** The overload a call ends up launching. */
  function Used(n: Node, sig: Signature, resolved: Option<Signature>): Signature {
    if resolved.Some? && resolved.value in n.overloads then resolved.value else sig
  }

  lemma CallNodeReuses(
    n: Node, disk: Disk, sig: Signature, key: LaunchKey, resolved: Option<Signature>, env: Environment,
    env': Environment, r: Result)
    requires NodeOk(n) && r == CallNode(n, disk, sig, key, resolved, env) && r.kernel.Some?
    ensures CallNode(r.node, r.disk, sig, key, Some(Used(n, sig, resolved)), env') == r
  {
    var first := ResolveKernel(n, disk, sig, key, resolved, env);
    CompileShape(n, disk, sig, Some(key), env, CompileNode(n, disk, sig, Some(key), env));
    assert Used(n, sig, resolved) in first.node.overloads &&
      first.node.overloads[Used(n, sig, resolved)] == first.kernel.value;
    UpdateTwice(first.node, first.kernel.value, key);
  }

  lemma UpdateTwice(n: Node, kernel: Kernel, key: LaunchKey)
    ensures var n' := UpdateSensitivity(n, kernel, key);
      UpdateSensitivity(n', kernel, key) == n' && n'.overloads == n.overloads
  {
  }

  /** Launching again under the same configuration, with the resolver answering with the overload the
      first launch used, launches the same kernel and changes nothing: no second compilation. */
  lemma {:induction false} RepeatedCallReuses(
    d: Dispatcher, disk: Disk, sig: Signature, key: LaunchKey, resolved: Option<Signature>, env: Environment,
    env': Environment)
    requires DispatcherOk(d) && DiskOk(disk)
    requires CallDispatcher(d, disk, sig, key, resolved, env).launched.Some?
    ensures var r := CallDispatcher(d, disk, sig, key, resolved, env);
      var n := if Route(d.own, key).Some? then ChildFor(d, key) else d.own;
      CallDispatcher(r.dispatcher, r.disk, sig, key, Some(Used(n, sig, resolved)), env') == r
  {
    var n := if Route(d.own, key).Some? then ChildFor(d, key) else d.own;
    var r := CallNode(n, disk, sig, key, resolved, env);
    CallNodeReuses(n, disk, sig, key, resolved, env, env', r);
    CallNodeKeeps(n, disk, sig, key, resolved, env);
    if Route(d.own, key).Some? {
      assert d.children[key := r.node][key := r.node] == d.children[key := r.node];
    } else {
      CallNodePins(n, disk, sig, key, resolved, env, r);
      assert Route(r.node, key).None? && PinDefault(r.node, key) == r.node;
    }
  }

  /** After a call that a dispatcher keeps, the dispatcher is insensitive or pinned to the launch key. */
  lemma CallNodePins(
    n: Node, disk: Disk, sig: Signature, key: LaunchKey, resolved: Option<Signature>, env: Environment, r: Result)
    requires NodeOk(n) && DiskOk(disk) && Suits(n, Some(key)) && r == CallNode(n, disk, sig, key, resolved, env)
    ensures r.node.sensitive ==> r.node.defaultKey == Some(key)
  {
    CompileKeeps(n, disk, sig, Some(key), env);
  }

  // ----- whole runs -----

  datatype Launch = Launch(kernel: Kernel, key: LaunchKey)

  /** Several dispatchers, of one or of several processes, over one cache directory, and every launch so
      far. */
  datatype World = World(disk: Disk, dispatchers: seq<Dispatcher>, launches: seq<Launch>)

  /** Besides the dispatcher's own operations: the process restarts, an older package writes an entry
      under the plain key, and something else creates or removes the marker file. */
  datatype Step =
    | Create(caching: bool)
    | Call(who: nat, sig: Signature, config: LaunchConfig, resolved: Option<Signature>, env: Environment)
    | Compile(who: nat, sig: Signature, env: Environment)
    | Recompile(who: nat, envs: seq<Environment>)
    | AllowCompile(who: nat, allowed: bool)
    | EnableCaching(who: nat)
    | Restart
    | PlainEntry(sig: Signature, kernel: Kernel)
    | MarkerFile(present: bool)

  /** A step that does not apply leaves the world alone. */
  function Apply(w: World, step: Step): World {
    match step
    case Create(caching) => w.(dispatchers := w.dispatchers + [Dispatcher(FreshNode(caching), map[])])
    case Restart => w.(dispatchers := [])
    case PlainEntry(sig, kernel) => w.(disk := w.disk.(entries := w.disk.entries[IndexKey(sig, Plain) := kernel]))
    case MarkerFile(present) => w.(disk := w.disk.(marker := present))
    case Call(who, sig, config, resolved, env) =>
      if who >= |w.dispatchers| then w
      else
        var r := CallDispatcher(w.dispatchers[who], w.disk, sig, KeyOf(config), resolved, env);
        World(r.disk, w.dispatchers[who := r.dispatcher],
              if r.launched.None? then w.launches else w.launches + [Launch(r.launched.value, KeyOf(config))])
    case Compile(who, sig, env) =>
      if who >= |w.dispatchers| then w
      else
        var r := CompileNode(w.dispatchers[who].own, w.disk, sig, None, env);
        w.(disk := r.disk, dispatchers := w.dispatchers[who := w.dispatchers[who].(own := r.node)])
    case Recompile(who, envs) =>
      if who >= |w.dispatchers| || |envs| != |w.dispatchers[who].own.order| then w
      else
        var (own, disk) := RecompileNode(w.dispatchers[who].own, w.disk, envs);
        w.(disk := disk, dispatchers := w.dispatchers[who := w.dispatchers[who].(own := own)])
    case AllowCompile(who, allowed) =>
      if who >= |w.dispatchers| then w
      else
        var d := w.dispatchers[who];
        w.(dispatchers := w.dispatchers[who := d.(own := d.own.(canCompile := allowed))])
    case EnableCaching(who) =>
      if who >= |w.dispatchers| then w
      else w.(dispatchers := w.dispatchers[who :=
        w.dispatchers[who].(own := w.dispatchers[who].own.(cache := Some(CacheMemory(Plain, None))))])
  }

  function Run(w: World, steps: seq<Step>): World
    decreases |steps|
  {
    if steps == [] then w else Run(Apply(w, steps[0]), steps[1..])
  }

  ghost predicate Honest(launch: Launch) {
    launch.kernel.sensitive ==> launch.kernel.compiledUnder == Some(launch.key)
  }

  ghost predicate WorldOk(w: World) {
    && DiskOk(w.disk)
    && (forall i :: 0 <= i < |w.dispatchers| ==> DispatcherOk(w.dispatchers[i]))
    && (forall i :: 0 <= i < |w.launches| ==> Honest(w.launches[i]))
  }

  lemma {:induction false} StepKeeps(w: World, step: Step)
    requires WorldOk(w)
    ensures WorldOk(Apply(w, step))
    ensures !step.Restart? ==>
      && |w.dispatchers| <= |Apply(w, step).dispatchers|
      && forall i :: 0 <= i < |w.dispatchers| && w.dispatchers[i].own.sensitive ==>
        Apply(w, step).dispatchers[i].own.defaultKey == w.dispatchers[i].own.defaultKey
  {
    match step
    case Call(who, sig, config, resolved, env) =>
      if who < |w.dispatchers| {
        CallKeeps(w.dispatchers[who], w.disk, sig, KeyOf(config), resolved, env);
      }
    case Compile(who, sig, env) =>
      if who < |w.dispatchers| {
        CompileKeeps(w.dispatchers[who].own, w.disk, sig, None, env);
      }
    case Recompile(who, envs) =>
      if who < |w.dispatchers| && |envs| == |w.dispatchers[who].own.order| {
        RecompileKeeps(w.dispatchers[who].own, w.disk, envs);
      }
    case _ =>
  }

  /** Whatever the disk held under the plain key at the start, after any run every launched sensitive
      kernel was compiled under the launch key it was launched with, every dispatcher keeps the
      invariants, and every sensitive entry outside the plain key sits under its own launch key. */
  lemma {:induction false} EveryLaunchHonest(w: World, steps: seq<Step>)
    requires w.dispatchers == [] && w.launches == []
    requires forall at <- w.disk.entries :: at.cacheKey.Plain?
    ensures WorldOk(Run(w, steps))
  {
    RunKeeps(w, steps);
  }

  lemma {:induction false} RunKeeps(w: World, steps: seq<Step>)
    requires WorldOk(w)
    ensures WorldOk(Run(w, steps))
    decreases |steps|
  {
    if steps != [] {
      StepKeeps(w, steps[0]);
      RunKeeps(Apply(w, steps[0]), steps[1..]);
    }
  }

  /** A dispatcher that has pinned a default key keeps it through every run of its process. */
  lemma {:induction false} DefaultKeyIsPinned(w: World, steps: seq<Step>, i: nat)
    requires WorldOk(w) && i < |w.dispatchers| && w.dispatchers[i].own.sensitive
    requires forall s <- steps :: !s.Restart?
    ensures i < |Run(w, steps).dispatchers|
    ensures Run(w, steps).dispatchers[i].own.defaultKey == w.dispatchers[i].own.defaultKey
    decreases |steps|
  {
    if steps != [] {
      StepKeeps(w, steps[0]);
      var w1 := Apply(w, steps[0]);
      assert DispatcherOk(w.dispatchers[i]) && DispatcherOk(w1.dispatchers[i]);
      DefaultKeyIsPinned(w1, steps[1..], i);
    }
  }

  const EMPTY_DISK := Disk(map[], false)

  /** The compiler builds a marked kernel and the marker file can be written. */
  function Marks(build: nat): Environment {
    Environment(Builds(true, build), true)
  }

  /** A caching dispatcher whose only overload is a sensitive kernel of `key`. */
  function Pinned(sig: Signature, key: LaunchKey, build: nat): Dispatcher {
    Dispatcher(
      Node(map[sig := Kernel(sig, true, Some(key), build)], [sig], true, Some(key), None,
           Some(CacheMemory(Keyed(key), Some(true))), true),
      map[])
  }

  lemma FirstSensitiveLaunch(sig: Signature, key: LaunchKey, build: nat)
    ensures var kernel := Kernel(sig, true, Some(key), build);
      CallDispatcher(Dispatcher(FreshNode(true), map[]), EMPTY_DISK, sig, key, None, Marks(build))
      == CallResult(Some(kernel), Pinned(sig, key, build), Disk(map[IndexKey(sig, Keyed(key)) := kernel], true))
  {
    assert [] + [sig] == [sig];
  }

  lemma StaleFlagStores(sig: Signature, sig': Signature, key: LaunchKey, build: nat, build': nat)
    requires sig != sig'
    ensures CallDispatcher(Pinned(sig, key, build), EMPTY_DISK, sig', key, None, Marks(build')).disk
      == Disk(map[IndexKey(sig', Keyed(key)) := Kernel(sig', true, Some(key), build')], false)
  {
  }

  /** The marker does not always accompany the sensitive entries: a second dispatcher that recompiles
      removes it, the first one still remembers it, and its next kernel is stored without it. */
  lemma MarkerCanBeMissing(config: LaunchConfig, s1: Signature, s2: Signature)
    requires s1 != s2
    ensures
      var first, second := Call(0, s1, config, None, Marks(1)), Call(0, s2, config, None, Marks(2));
      var steps := [Create(true), Create(true), first, Recompile(1, []), second];
      var disk := Run(World(EMPTY_DISK, [], []), steps).disk;
      var at := IndexKey(s2, Keyed(KeyOf(config)));
      at in disk.entries && disk.entries[at].sensitive && !disk.marker
  {
    var key := KeyOf(config);
    var first, second := Call(0, s1, config, None, Marks(1)), Call(0, s2, config, None, Marks(2));
    var flush := Recompile(1, []);
    var blank, pinned := Dispatcher(FreshNode(true), map[]), Pinned(s1, key, 1);
    FirstSensitiveLaunch(s1, key, 1);
    StaleFlagStores(s1, s2, key, 1, 2);
    var w0 := World(EMPTY_DISK, [], []);
    var w1 := Apply(w0, Create(true));
    var w2 := Apply(w1, Create(true));
    var w3 := Apply(w2, first);
    var w4 := Apply(w3, flush);
    assert w2.disk == w0.disk && w2.dispatchers == [blank, blank];
    assert w3.dispatchers == [pinned, blank];
    assert w4.disk == w0.disk && w4.dispatchers[0] == pinned;
    RunUnfolds(w0, Create(true), [Create(true), first, flush, second]);
    RunUnfolds(w1, Create(true), [first, flush, second]);
    RunUnfolds(w2, first, [flush, second]);
    RunUnfolds(w3, flush, [second]);
    RunUnfolds(w4, second, []);
  }

  lemma RunUnfolds(w: World, step: Step, rest: seq<Step>)
    ensures Run(w, [step] + rest) == Run(Apply(w, step), rest)
  {
    assert ([step] + rest)[1..] == rest;
  }
}
