/** The first-error-wins record of a debug kernel: every thread runs the exception helper once, its
    instructions interleave with those of all other threads, and the host resets only the error code
    between launches. */
module ExceptionRecord {
  import opened Options

  datatype Vector = Vector(x: int, y: int, z: int)

  /** Where a thread stands in the helper. `Storing(k)` has won the exchange and written `k` coordinates. */
  datatype Position = Entry | Storing(k: nat) | Finished

  datatype Thread = Thread(tid: Vector, ctaid: Vector, status: int, at: Position)

  /** The error code, the six coordinates (tid x, y, z, then ctaid x, y, z) and the threads. */
  datatype Device = Device(code: int, coordinates: seq<int>, threads: seq<Thread>)

  const RETCODE_OK := 0
  const RETCODE_EXC := -1
  const RETCODE_NONE := -2

  predicate IsOk(status: int) {
    status == RETCODE_OK || status == RETCODE_NONE
  }

  /** The statuses the helper records. */
  predicate Records(status: int) {
    !IsOk(status) && status != RETCODE_EXC
  }

  function Coordinates(t: Thread): seq<int> {
    [t.tid.x, t.tid.y, t.tid.z, t.ctaid.x, t.ctaid.y, t.ctaid.z]
  }

  /** One atomic step of one thread: test the status and exchange the code if it is still zero, or store
      the next coordinate. */
  function ThreadStep(d: Device, i: nat): Device
    requires i < |d.threads| && |d.coordinates| == 6
  {
    var t := d.threads[i];
    match t.at
    case Finished => d
    case Entry =>
      if !Records(t.status) then d.(threads := d.threads[i := t.(at := Finished)])
      else if d.code == 0 then d.(code := t.status, threads := d.threads[i := t.(at := Storing(0))])
      else d.(threads := d.threads[i := t.(at := Finished)])
    case Storing(k) =>
      if k >= 6 then d.(threads := d.threads[i := t.(at := Finished)])
      else d.(coordinates := d.coordinates[k := Coordinates(t)[k]], threads := d.threads[i := t.(at := Storing(k + 1))])
  }

  predicate AllFinished(d: Device) {
    forall i :: 0 <= i < |d.threads| ==> d.threads[i].at.Finished?
  }

  /** A launch resets the code and starts its threads at the entry; the coordinates keep what they held. */
  function Relaunch(d: Device, threads: seq<Thread>): Device {
    Device(0, d.coordinates, seq(|threads|, i requires 0 <= i < |threads| => threads[i].(at := Entry)))
  }

  datatype Step = Run(thread: nat) | Launch(threads: seq<Thread>)

  /** A launch waits for the previous one; a step that does not apply changes nothing. */
  function Apply(d: Device, step: Step): Device
    requires |d.coordinates| == 6
  {
    match step
    case Run(i) => if i < |d.threads| then ThreadStep(d, i) else d
    case Launch(threads) => if AllFinished(d) then Relaunch(d, threads) else d
  }

  const FRESH := Device(0, [0, 0, 0, 0, 0, 0], [])

  function RunAll(steps: seq<Step>): (d: Device)
    ensures |d.coordinates| == 6
  {
    if steps == [] then FRESH else Apply(RunAll(steps[..|steps| - 1]), steps[|steps| - 1])
  }

  // ----- what every interleaving keeps -----

  /** Thread `w` wrote the code and, so far, its own coordinates; no other thread is storing. */
  ghost predicate Winner(d: Device, w: int) {
    && 0 <= w < |d.threads| && |d.coordinates| == 6
    && d.threads[w].status == d.code && Records(d.code)
    && (forall i :: 0 <= i < |d.threads| && i != w ==> !d.threads[i].at.Storing?)
    && match d.threads[w].at
       case Entry => false
       case Storing(k) => k <= 6 && d.coordinates[..k] == Coordinates(d.threads[w])[..k]
       case Finished => d.coordinates == Coordinates(d.threads[w])
  }

  /** No thread has recorded anything. */
  ghost predicate Silent(d: Device) {
    forall i :: 0 <= i < |d.threads| ==>
      !d.threads[i].at.Storing? && (d.threads[i].at.Finished? ==> !Records(d.threads[i].status))
  }

  ghost predicate Consistent(d: Device) {
    |d.coordinates| == 6 && if d.code == 0 then Silent(d) else exists w :: Winner(d, w)
  }

  lemma {:induction false} ThreadStepKeeps(d: Device, i: nat)
    requires Consistent(d) && i < |d.threads|
    ensures Consistent(ThreadStep(d, i))
  {
    var d' := ThreadStep(d, i);
    if d.code != 0 {
      var w :| Winner(d, w);
      if i == w && d.threads[w].at.Storing? {
        var k := d.threads[w].at.k;
        if k < 6 {
          assert d'.coordinates[..k + 1] == d'.coordinates[..k] + [d'.coordinates[k]];
          assert Coordinates(d.threads[w])[..k + 1] == Coordinates(d.threads[w])[..k] + [Coordinates(d.threads[w])[k]];
        } else {
          assert d.coordinates[..6] == d.coordinates && Coordinates(d.threads[w])[..6] == Coordinates(d.threads[w]);
        }
      }
      assert Winner(d', w);
    } else if d'.code != 0 {
      assert Winner(d', i);
    }
  }

  lemma {:induction false} EveryInterleavingConsistent(steps: seq<Step>)
    ensures Consistent(RunAll(steps))
    decreases |steps|
  {
    if steps != [] {
      var before, step := RunAll(steps[..|steps| - 1]), steps[|steps| - 1];
      EveryInterleavingConsistent(steps[..|steps| - 1]);
      if step.Run? && step.thread < |before.threads| {
        ThreadStepKeeps(before, step.thread);
      }
    }
  }

  /** What the host reads after a launch: nothing when the code is zero, else the code and both triples
      in z, y, x order. */
  datatype Report = Report(code: int, tid: seq<int>, ctaid: seq<int>)

  function ReadBack(d: Device): Option<Report>
    requires |d.coordinates| == 6
  {
    var c := d.coordinates;
    if d.code == 0 then None else Some(Report(d.code, [c[2], c[1], c[0]], [c[5], c[4], c[3]]))
  }

  /** The report names this thread: the status it had to record and its own position. */
  predicate ReportOf(t: Thread, r: Report) {
    && Records(t.status) && r.code == t.status
    && r.tid == [t.tid.z, t.tid.y, t.tid.x] && r.ctaid == [t.ctaid.z, t.ctaid.y, t.ctaid.x]
  }

  /** When all threads of the latest launch have finished, in whatever order their steps interleaved and
      whatever earlier launches left behind, the host reports an error exactly when some thread had one to
      record, and the report is that of a single thread: its code and its own coordinates. */
  lemma ReportIsOneThreads(steps: seq<Step>)
    requires AllFinished(RunAll(steps))
    ensures var d := RunAll(steps);
      && (ReadBack(d).None? <==> forall i :: 0 <= i < |d.threads| ==> !Records(d.threads[i].status))
      && (ReadBack(d).Some? ==> exists w :: 0 <= w < |d.threads| && ReportOf(d.threads[w], ReadBack(d).value))
  {
    EveryInterleavingConsistent(steps);
    var d := RunAll(steps);
    if d.code != 0 {
      var w :| Winner(d, w);
      assert ReportOf(d.threads[w], ReadBack(d).value);
    }
  }

  /** Within a launch the code goes from zero to non-zero at most once and then stays; the threads keep
      their identity. */
  lemma {:induction false} FirstErrorStays(steps: seq<Step>, more: seq<Step>)
    requires forall s <- more :: s.Run?
    ensures var d, d' := RunAll(steps), RunAll(steps + more);
      && (d.code != 0 ==> d'.code == d.code)
      && |d'.threads| == |d.threads|
      && forall i :: 0 <= i < |d.threads| ==> d'.threads[i].(at := Entry) == d.threads[i].(at := Entry)
    decreases |more|
  {
    if more == [] {
      assert steps + more == steps;
    } else {
      var n := |more| - 1;
      FirstErrorStays(steps, more[..n]);
      assert (steps + more)[..|steps + more| - 1] == steps + more[..n];
      assert more[n] in more;
    }
  }

  // ----- the threads do finish -----

  function Remaining(t: Thread): nat {
    match t.at
    case Entry => 8
    case Storing(k) => if k >= 6 then 1 else 7 - k
    case Finished => 0
  }

  function TotalRemaining(threads: seq<Thread>): nat {
    if threads == [] then 0 else Remaining(threads[0]) + TotalRemaining(threads[1..])
  }

  lemma {:induction false} ReplacingLowers(threads: seq<Thread>, i: nat, t: Thread)
    requires i < |threads| && Remaining(t) < Remaining(threads[i])
    ensures TotalRemaining(threads[i := t]) < TotalRemaining(threads)
    decreases |threads|
  {
    if i == 0 {
      assert threads[0 := t][1..] == threads[1..];
    } else {
      assert threads[i := t][1..] == threads[1..][i - 1 := t];
      ReplacingLowers(threads[1..], i - 1, t);
    }
  }

  /** No interleaving goes on for ever: every step of an unfinished thread lowers the work left. */
  lemma StepsLowerRemaining(d: Device, i: nat)
    requires |d.coordinates| == 6 && i < |d.threads| && !d.threads[i].at.Finished?
    ensures TotalRemaining(ThreadStep(d, i).threads) < TotalRemaining(d.threads)
  {
    ReplacingLowers(d.threads, i, ThreadStep(d, i).threads[i]);
  }
}
