/**
 * The script runner. Each `RunScript` tracker names a script asset and
 * remembers, in one boolean, whether that script has run. Every tick visits
 * the trackers still pending: a tracker whose asset is loaded, whose bytecode
 * deserializes and whose execution on a fresh VM succeeds is marked executed;
 * any failure leaves it pending, to be tried again on the next tick.
 */
module Runner {
  import opened Wrappers
  import opened Fusabi
  import opened Asset

  /** The identity of a script asset. */
  datatype Handle = Handle(id: nat)

  /** The loaded script assets, which the runner only reads. */
  type Store = map<Handle, FusabiScript>

  /** The value held by a `RunScript` tracker at one moment. */
  datatype Tracker = Tracker(handle: Handle, executed: bool)

  /** What one tick does with one tracker, in the order the checks are made. */
  datatype Attempt =
    | Skipped                   // already executed: not even looked up
    | Unresolved                // the asset is not loaded (yet)
    | ChunkFailed(reason: string) // the bytecode does not deserialize; no VM is created
    | Trapped(trap: string)     // the VM reported an error
    | Ran                       // the script ran to completion

  /** Whether the script behind `h` is loaded, deserializes, and executes without error. */
  predicate RunsCleanly(fx: Capabilities, store: Store, h: Handle) {
    h in store && ToChunk(fx, store[h]).Ok? && fx.execute(ToChunk(fx, store[h]).value).Ok?
  }

  /**
   * The attempt a tick makes for tracker `t`: an executed tracker is skipped;
   * otherwise the asset is looked up, then deserialized, then run, and the
   * first of these that fails is the outcome, carrying its own error.
   */
  function AttemptOf(fx: Capabilities, store: Store, t: Tracker): (r: Attempt)
    ensures r.Skipped? <==> t.executed
    ensures r.Unresolved? <==> !t.executed && t.handle !in store
    ensures r.ChunkFailed? <==> !t.executed && t.handle in store && ToChunk(fx, store[t.handle]).Err?
    ensures r.ChunkFailed? ==> r.reason == ToChunk(fx, store[t.handle]).error
    ensures r.Trapped? ==>
              t.handle in store && ToChunk(fx, store[t.handle]).Ok?
              && fx.execute(ToChunk(fx, store[t.handle]).value) == Err(r.trap)
    ensures r.Ran? <==> !t.executed && RunsCleanly(fx, store, t.handle)
  {
    if t.executed then Skipped
    else if t.handle !in store then Unresolved
    else
      match ToChunk(fx, store[t.handle])
      case Err(e) => ChunkFailed(e)
      case Ok(chunk) =>
        match fx.execute(chunk)
        case Err(e) => Trapped(e)
        case Ok(_) => Ran
  }

  /**
   * One tracker after one tick: the handle is kept, and the flag is set
   * exactly when the tracker was already executed or its script runs cleanly
   * now. An executed tracker is left exactly as it was.
   */
  function Step(fx: Capabilities, store: Store, t: Tracker): (r: Tracker)
    ensures r.handle == t.handle
    ensures r.executed <==> t.executed || RunsCleanly(fx, store, t.handle)
    ensures t.executed ==> r == t
    ensures !t.executed && t.handle !in store ==> r == t
  {
    Tracker(t.handle, t.executed || AttemptOf(fx, store, t).Ran?)
  }

  /**
   * One tick over all trackers, in order. Each tracker's new value depends
   * on its own value and the store alone, never on the other trackers.
   */
  function Tick(fx: Capabilities, store: Store, ts: seq<Tracker>): (r: seq<Tracker>)
    ensures |r| == |ts|
    ensures forall i :: 0 <= i < |ts| ==> r[i] == Step(fx, store, ts[i])
  {
    if ts == [] then [] else [Step(fx, store, ts[0])] + Tick(fx, store, ts[1..])
  }

  /** Ticking a split list is ticking each part: the scan order does not matter. */
  lemma TickSplits(fx: Capabilities, store: Store, a: seq<Tracker>, b: seq<Tracker>)
    ensures Tick(fx, store, a + b) == Tick(fx, store, a) + Tick(fx, store, b)
  {
  }

  /**
   * A second tick against the same store, with the Fusabi crates behaving as
   * they did, changes nothing: success is final and failure repeats.
   */
  lemma TickIdempotent(fx: Capabilities, store: Store, ts: seq<Tracker>)
    ensures Tick(fx, store, Tick(fx, store, ts)) == Tick(fx, store, ts)
  {
  }

  /**
   * When the bytecode does not deserialize the attempt stops there: whatever
   * the VM would do makes no difference, and the tracker stays pending.
   */
  lemma ChunkFailureSkipsVm(fx: Capabilities, store: Store, t: Tracker, execute: Chunk -> Result<Value, string>)
    requires !t.executed && t.handle in store && ToChunk(fx, store[t.handle]).Err?
    ensures AttemptOf(fx, store, t).ChunkFailed?
    ensures Step(fx.(execute := execute), store, t) == Step(fx, store, t) == t
  {
  }

  /**
   * What one tick sees: the loaded assets, and the Fusabi crates as they
   * behave at that moment. Successive ticks may see different stores and,
   * since a script may depend on the host, different capabilities.
   */
  datatype Round = Round(fx: Capabilities, store: Store)

  /** One tracker after each round in turn. */
  function Final(rounds: seq<Round>, t: Tracker): Tracker
    decreases |rounds|
  {
    if rounds == [] then t else Final(rounds[1..], Step(rounds[0].fx, rounds[0].store, t))
  }

  /** All trackers after each round in turn. */
  function TickAll(rounds: seq<Round>, ts: seq<Tracker>): seq<Tracker>
    decreases |rounds|
  {
    if rounds == [] then ts else TickAll(rounds[1..], Tick(rounds[0].fx, rounds[0].store, ts))
  }

  /** How many of those rounds ran the tracker's script to completion. */
  function Successes(rounds: seq<Round>, t: Tracker): nat
    decreases |rounds|
  {
    if rounds == [] then 0
    else
      (if AttemptOf(rounds[0].fx, rounds[0].store, t).Ran? then 1 else 0)
      + Successes(rounds[1..], Step(rounds[0].fx, rounds[0].store, t))
  }

  /** Over many ticks each tracker still evolves on its own. */
  lemma {:induction false} TickAllPointwise(rounds: seq<Round>, ts: seq<Tracker>)
    ensures |TickAll(rounds, ts)| == |ts|
    ensures forall i :: 0 <= i < |ts| ==> TickAll(rounds, ts)[i] == Final(rounds, ts[i])
    decreases |rounds|
  {
    if rounds != [] {
      TickAllPointwise(rounds[1..], Tick(rounds[0].fx, rounds[0].store, ts));
    }
  }

  /** Ticks never touch the handle and never clear the flag. */
  lemma {:induction false} FinalMonotone(rounds: seq<Round>, t: Tracker)
    ensures Final(rounds, t).handle == t.handle
    ensures t.executed ==> Final(rounds, t) == t
    decreases |rounds|
  {
    if rounds != [] {
      FinalMonotone(rounds[1..], Step(rounds[0].fx, rounds[0].store, t));
    }
  }

  /**
   * After any run of ticks a tracker is executed exactly when it was already,
   * or its script ran cleanly in one of the rounds. A script that keeps
   * failing (unloaded, undecodable, or trapping) stays pending throughout.
   */
  lemma {:induction false} ExecutedIffSomeTickRuns(rounds: seq<Round>, t: Tracker)
    ensures Final(rounds, t).executed <==>
              t.executed || exists k :: 0 <= k < |rounds| && RunsCleanly(rounds[k].fx, rounds[k].store, t.handle)
    decreases |rounds|
  {
    if rounds != [] {
      var t' := Step(rounds[0].fx, rounds[0].store, t);
      ExecutedIffSomeTickRuns(rounds[1..], t');
      if exists k :: 0 <= k < |rounds| && RunsCleanly(rounds[k].fx, rounds[k].store, t.handle) {
        var k :| 0 <= k < |rounds| && RunsCleanly(rounds[k].fx, rounds[k].store, t.handle);
        if k > 0 {
          assert RunsCleanly(rounds[1..][k - 1].fx, rounds[1..][k - 1].store, t'.handle);
        }
      }
      if exists k :: 0 <= k < |rounds[1..]| && RunsCleanly(rounds[1..][k].fx, rounds[1..][k].store, t'.handle) {
        var k :| 0 <= k < |rounds[1..]| && RunsCleanly(rounds[1..][k].fx, rounds[1..][k].store, t'.handle);
        assert RunsCleanly(rounds[k + 1].fx, rounds[k + 1].store, t.handle);
      }
    }
  }

  /**
   * A script that loads and deserializes but traps is tried again on every
   * tick and never marked executed: each tick's attempt ends in a trap.
   */
  lemma {:induction false} TrappingScriptRetried(rounds: seq<Round>, t: Tracker)
    requires !t.executed
    requires forall k :: 0 <= k < |rounds| ==>
               t.handle in rounds[k].store && ToChunk(rounds[k].fx, rounds[k].store[t.handle]).Ok?
               && rounds[k].fx.execute(ToChunk(rounds[k].fx, rounds[k].store[t.handle]).value).Err?
    ensures Final(rounds, t) == t
    ensures forall k :: 0 <= k < |rounds| ==>
              AttemptOf(rounds[k].fx, rounds[k].store, Final(rounds[..k], t)).Trapped?
    decreases |rounds|
  {
    if rounds != [] {
      assert Step(rounds[0].fx, rounds[0].store, t) == t;
      TrappingScriptRetried(rounds[1..], t);
      forall k | 0 <= k < |rounds|
        ensures AttemptOf(rounds[k].fx, rounds[k].store, Final(rounds[..k], t)).Trapped?
      {
        if k > 0 {
          assert rounds[..k][1..] == rounds[1..][..k - 1];
          assert Final(rounds[..k], t) == Final(rounds[1..][..k - 1], t);
        }
      }
    }
  }

  /**
   * Each tracker's script completes at most once over any run of ticks: the
   * successes plus the initial flag add up to the final flag. A tracker that
   * starts executed never runs again; one that starts pending ran once exactly
   * when it ends executed.
   */
  lemma {:induction false} AtMostOneSuccess(rounds: seq<Round>, t: Tracker)
    ensures Successes(rounds, t) + (if t.executed then 1 else 0)
            == (if Final(rounds, t).executed then 1 else 0)
    ensures Successes(rounds, t) <= 1
    decreases |rounds|
  {
    if rounds != [] {
      AtMostOneSuccess(rounds[1..], Step(rounds[0].fx, rounds[0].store, t));
    }
  }

  /** `RunScript`: the component that asks for one script to be run. */
  class RunScript {
    var handle: Handle
    var executed: bool

    constructor (handle: Handle, executed: bool)
      ensures this.handle == handle && this.executed == executed
    {
      this.handle := handle;
      this.executed := executed;
    }

    /** The tracker's current value. */
    function View(): Tracker
      reads this
    {
      Tracker(handle, executed)
    }
  }

  /** The values of the trackers, in order. */
  function Snapshot(query: seq<RunScript>): (r: seq<Tracker>)
    reads query
    ensures |r| == |query|
    ensures forall i :: 0 <= i < |query| ==> r[i] == query[i].View()
  {
    if query == [] then [] else [query[0].View()] + Snapshot(query[1..])
  }

  /**
   * `run_scripts`: one tick over the trackers the query yields (each at most
   * once). Only the `executed` flags change, each as `Step` says, so the
   * trackers end as `Tick` of what they were; the store is only read.
   */
  method RunScripts(fx: Capabilities, scripts: Store, query: seq<RunScript>)
    requires forall i, j :: 0 <= i < j < |query| ==> query[i] != query[j]
    modifies query
    ensures forall i :: 0 <= i < |query| ==> query[i].handle == old(query[i].handle)
    ensures forall i :: 0 <= i < |query| ==>
              query[i].executed == (old(query[i].executed) || RunsCleanly(fx, scripts, query[i].handle))
    ensures Snapshot(query) == Tick(fx, scripts, old(Snapshot(query)))
  {
    ghost var before := Snapshot(query);
    for i := 0 to |query|
      invariant forall k :: 0 <= k < |query| ==> query[k].handle == old(query[k].handle)
      invariant forall k :: 0 <= k < i ==>
                  query[k].executed == (old(query[k].executed) || RunsCleanly(fx, scripts, query[k].handle))
      invariant forall k :: i <= k < |query| ==> query[k].executed == old(query[k].executed)
    {
      var runner := query[i];
      if runner.executed {
        continue;
      }
      if runner.handle in scripts {
        var script := scripts[runner.handle];
        match ToChunk(fx, script) {
          case Ok(chunk) =>
            match fx.execute(chunk) {
              case Ok(_) =>
                runner.executed := true;
              case Err(_) =>
            }
          case Err(_) =>
        }
      }
    }
    ghost var after := Snapshot(query);
    ghost var ticked := Tick(fx, scripts, before);
    forall k | 0 <= k < |query| ensures after[k] == ticked[k] {
      assert before[k] == Tracker(old(query[k].handle), old(query[k].executed));
    }
  }
}
