/** Conversely, the direct interpreter does what the call protocol does
    (ps3emu/ppu/PPUThread.cpp:243-294, ps3emu/exports/exports.h:115-151). */
module CallCompleteness {
  import opened Common
  import opened CallProtocol
  import opened CallRefinement

  // ---------------------------------------------------------------- enough fuel is enough

  lemma {:induction false} MoreFuelForGuest<R>(w: World<R>, fuel: nat, nip: nat, lr: nat, r: R, stop: nat,
                                               live: set<nat>, r': R, more: nat)
    requires CallGuest(w, fuel, nip, lr, r, stop, live) == Some(r') && fuel <= more
    ensures CallGuest(w, more, nip, lr, r, stop, live) == Some(r')
    decreases fuel
  {
    if nip != stop {
      if w.host(nip).Some? {
        var f := w.host(nip).value;
        var r1 := GuestUnfoldsHost(w, fuel, nip, lr, r, stop, live, r', f);
        MoreFuelForHost(w, fuel - 1, f(r), live, {}, r1, more - 1);
        MoreFuelForGuest(w, fuel - 1, lr, lr, r1, stop, live, r', more - 1);
      } else {
        var (nip1, lr1, r1) := w.guest(nip, lr, r);
        GuestUnfolds(w, fuel, nip, lr, r, stop, live, r');
        MoreFuelForGuest(w, fuel - 1, nip1, lr1, r1, stop, live, r', more - 1);
      }
    }
  }

  lemma {:induction false} MoreFuelForHost<R>(w: World<R>, fuel: nat, action: Action<R>, live: set<nat>, held: set<nat>,
                                              r': R, more: nat)
    requires CallHost(w, fuel, action, live, held) == Some(r') && fuel <= more
    ensures CallHost(w, more, action, live, held) == Some(r')
    decreases fuel
  {
    if action.Suspended? {
      var stub := w.alloc(live + held);
      var r1 := HostUnfolds(w, fuel, action, live, held, r', stub);
      MoreFuelForGuest(w, fuel - 1, action.va, stub, action.r, stub, live + {stub}, r1, more - 1);
      MoreFuelForHost(w, fuel - 1, action.resume(r1), live, {stub}, r', more - 1);
    }
  }

  // ---------------------------------------------------------------- first returns

  /** A call stub is about to be executed, `depth` calls deep. */
  predicate ThenAt<R>(m: Machine<R>, depth: nat) {
    m.nip in m.stubs && |m.calls| == depth
  }

  ghost function NoThen<R>(depth: nat): Tracked<R> -> bool {
    (c: Tracked<R>) => !ThenAt(c.m, depth)
  }

  ghost predicate Prefix(frames: seq<nat>, longer: seq<nat>) {
    |frames| <= |longer| && longer[..|frames|] == frames
  }

  type Tracker<!R> = Tracked<R> -> Tracked<R>

  ghost predicate IsTrack<R(!new)>(w: World<R>, step: Tracker<R>) {
    forall c: Tracked<R> {:trigger TrackStep(w, c)} :: step(c) == TrackStep(w, c)
  }

  lemma KeepsFrames<R(!new)>(w: World<R>, step: Tracker<R>, c: Tracked<R>)
    requires AllocatesFresh(w) && IsTrack(w, step) && Frames(c.m, c.frames) && ThroughLink()(c)
    ensures Frames(step(c).m, step(c).frames)
  {
    assert step(c) == TrackStep(w, c);
    TrackKeepsFrames(w, c);
  }

  /** Until the innermost call returns, it and the calls around it stay. */
  lemma {:induction false} PrefixKept<R(!new)>(w: World<R>, step: Tracker<R>, c: Tracked<R>, n: nat)
    requires AllocatesFresh(w) && IsTrack(w, step) && Frames(c.m, c.frames)
    requires Holds(ThroughLink(), step, c, n) && Holds(NoThen(|c.frames|), step, c, n)
    ensures var c' := Iterate(step, c, n);
      Frames(c'.m, c'.frames) && Prefix(c.frames, c'.frames)
  {
    if n > 0 {
      PrefixKept(w, step, c, n - 1);
      KeepsFrames(w, step, Iterate(step, c, n - 1));
      PrefixStep(w, step, c.frames, Iterate(step, c, n - 1));
    }
  }

  lemma PrefixStep<R(!new)>(w: World<R>, step: Tracker<R>, frames: seq<nat>, c: Tracked<R>)
    requires IsTrack(w, step) && Frames(c.m, c.frames) && Prefix(frames, c.frames) && NoThen(|frames|)(c)
    ensures Prefix(frames, step(c).frames)
  {
    assert step(c) == TrackStep(w, c);
    if c.m.nip in c.m.stubs && c.frames != [] {
      assert c.frames[..|c.frames| - 1][..|frames|] == c.frames[..|frames|];
    }
  }

  /** If the run is ever less deep, there is a first return of the innermost call. */
  lemma FirstReturn<R(!new)>(w: World<R>, step: Tracker<R>, c: Tracked<R>, n: nat) returns (j: nat)
    requires AllocatesFresh(w) && IsTrack(w, step) && Frames(c.m, c.frames) && Holds(ThroughLink(), step, c, n)
    requires |Iterate(step, c, n).m.calls| < |c.frames|
    ensures j < n && ThenAt(Iterate(step, c, j).m, |c.frames|) && Holds(NoThen(|c.frames|), step, c, j)
  {
    j := FirstFailure(NoThen(|c.frames|), step, c, n);
    if j == n {
      PrefixKept(w, step, c, n);
    }
  }

  // ---------------------------------------------------------------- what the direct interpreter does

  /** The thread when a host function starts or goes on, with its stub if it makes a ps3call. */
  ghost function Start<R>(w: World<R>, action: Action<R>, from: Saved, calls: seq<Saved>, conts: seq<R -> Action<R>>,
                          live: set<nat>, held: set<nat>, frames: seq<nat>): Tracked<R>
  {
    Tracked(After(w, action, from, calls, conts, live, held),
            if action.Suspended? then frames + [w.alloc(live + held)] else frames)
  }

  lemma StartFrames<R(!new)>(w: World<R>, action: Action<R>, from: Saved, calls: seq<Saved>, conts: seq<R -> Action<R>>,
                             live: set<nat>, held: set<nat>, frames: seq<nat>)
    requires AllocatesFresh(w) && FramesOf(calls, conts, live, frames)
    ensures var c := Start(w, action, from, calls, conts, live, held, frames); Frames(c.m, c.frames)
  {
    assert w.alloc(live + held) !in live + held;
    AddFrame(live, frames, w.alloc(live + held));
  }

  lemma HostTrack<R(!new)>(w: World<R>, step: Tracker<R>, c: Tracked<R>, f: R -> Action<R>)
    requires IsTrack(w, step) && c.m.nip !in c.m.stubs && w.host(c.m.nip) == Some(f)
    ensures step(c) == Start(w, f(c.m.r), Saved(c.m.lr, c.m.lr), c.m.calls, c.m.conts, c.m.stubs, {}, c.frames)
  {
    HostTurn(w, c.m, f);
    assert step(c) == TrackStep(w, c);
    assert c.m.stubs + {} == c.m.stubs;
  }

  lemma GuestTrack<R(!new)>(w: World<R>, step: Tracker<R>, c: Tracked<R>)
    requires IsTrack(w, step) && c.m.nip !in c.m.stubs && w.host(c.m.nip).None?
    ensures var (nip, lr, r) := w.guest(c.m.nip, c.m.lr, c.m.r);
      step(c) == Tracked(c.m.(nip := nip, lr := lr, r := r), c.frames)
  {
    assert step(c) == TrackStep(w, c);
  }

  lemma ThenTrack<R(!new)>(w: World<R>, step: Tracker<R>, stub: nat, r: R, from: Saved, resume: R -> Action<R>,
                           calls: seq<Saved>, conts: seq<R -> Action<R>>, live: set<nat>, frames: seq<nat>)
    requires AllocatesFresh(w) && IsTrack(w, step) && stub !in live
    ensures step(Tracked(Machine(stub, stub, r, calls + [from], conts + [resume], live + {stub}), frames + [stub]))
      == Start(w, resume(r), from, calls, conts, live, {stub}, frames)
  {
    ThenTurn(w, stub, r, from, resume, calls, conts, live);
    var c := Tracked(Machine(stub, stub, r, calls + [from], conts + [resume], live + {stub}), frames + [stub]);
    assert step(c) == TrackStep(w, c);
    assert (frames + [stub])[..|frames|] == frames;
    assert (conts + [resume])[|conts|] == resume;
  }

  lemma TopFrame<R>(m: Machine<R>, frames: seq<nat>)
    requires Frames(m, frames) && frames != []
    ensures frames[|frames| - 1] in m.stubs && |frames| == |m.calls|
  {
    var i := |frames| - 1;
    assert 0 <= i < |frames| && frames[i] == frames[|frames| - 1];
  }

  lemma FirstState<R>(w: World<R>, step: Tracker<R>, c: Tracked<R>, n: nat)
    requires Holds(ThroughLink(), step, c, n) && n > 0
    ensures ReturnsThroughLink(c.m, c.frames)
  {
    HoldsAt(ThroughLink(), step, c, n, 0);
    assert Iterate(step, c, 0) == c;
  }

  lemma NotThere<R>(w: World<R>, step: Tracker<R>, c: Tracked<R>, n: nat)
    requires Frames(c.m, c.frames) && c.frames != [] && Holds(NoThen(|c.frames|), step, c, n) && n > 0
    ensures c.m.nip !in c.m.stubs && c.m.nip != c.frames[|c.frames| - 1]
  {
    HoldsAt(NoThen(|c.frames|), step, c, n, 0);
    assert Iterate(step, c, 0) == c;
    TopFrame(c.m, c.frames);
  }

  lemma GuestStops<R>(w: World<R>, m: Machine<R>, stop: nat)
    requires m.nip == stop && m.lr == stop
    ensures CallGuest(w, 1, m.nip, m.lr, m.r, stop, m.stubs) == Some(m.r)
  {}

  lemma FuelForGuest<R>(w: World<R>, m: Machine<R>, stop: nat, r': R, f1: nat)
    requires m.nip !in m.stubs && m.nip != stop && w.host(m.nip).None?
    requires var (nip, lr, r) := w.guest(m.nip, m.lr, m.r);
      CallGuest(w, f1, nip, lr, r, stop, m.stubs) == Some(r')
    ensures CallGuest(w, f1 + 1, m.nip, m.lr, m.r, stop, m.stubs) == Some(r')
  {}

  lemma FuelForBoth<R>(w: World<R>, m: Machine<R>, f: R -> Action<R>, stop: nat, r1: R, r': R, f1: nat, f2: nat)
    returns (fuel: nat)
    requires m.nip !in m.stubs && m.nip != stop && w.host(m.nip) == Some(f)
    requires CallHost(w, f1, f(m.r), m.stubs, {}) == Some(r1)
    requires CallGuest(w, f2, m.lr, m.lr, r1, stop, m.stubs) == Some(r')
    ensures CallGuest(w, fuel, m.nip, m.lr, m.r, stop, m.stubs) == Some(r')
  {
    var most := if f1 > f2 then f1 else f2;
    MoreFuelForHost(w, f1, f(m.r), m.stubs, {}, r1, most);
    MoreFuelForGuest(w, f2, m.lr, m.lr, r1, stop, m.stubs, r', most);
    fuel := most + 1;
  }

  lemma FuelForCall<R>(w: World<R>, action: Action<R>, live: set<nat>, held: set<nat>, stub: nat, r1: R, r': R, f1: nat,
                       f2: nat) returns (fuel: nat)
    requires action.Suspended? && stub == w.alloc(live + held)
    requires CallGuest(w, f1, action.va, stub, action.r, stub, live + {stub}) == Some(r1)
    requires CallHost(w, f2, action.resume(r1), live, {stub}) == Some(r')
    ensures CallHost(w, fuel, action, live, held) == Some(r')
  {
    var most := if f1 > f2 then f1 else f2;
    MoreFuelForGuest(w, f1, action.va, stub, action.r, stub, live + {stub}, r1, most);
    MoreFuelForHost(w, f2, action.resume(r1), live, {stub}, r', most);
    fuel := most + 1;
  }

  /** The run from `c` to `e`, in which the innermost call of `c` returns for the first time at `e`. */
  ghost predicate FirstReturnAt<R>(w: World<R>, step: Tracker<R>, c: Tracked<R>, n: nat, e: Tracked<R>) {
    Frames(c.m, c.frames) && c.frames != [] && Iterate(step, c, n) == e && ThenAt(e.m, |c.frames|) &&
    Holds(ThroughLink(), step, c, n + 1) && Holds(NoThen(|c.frames|), step, c, n)
  }

  lemma LaterReturn<R>(w: World<R>, step: Tracker<R>, c: Tracked<R>, n: nat, e: Tracked<R>, i: nat, c1: Tracked<R>)
    requires FirstReturnAt(w, step, c, n, e) && i <= n && Iterate(step, c, i) == c1
    requires c1.frames == c.frames && Frames(c1.m, c1.frames)
    ensures FirstReturnAt(w, step, c1, n - i, e)
  {
    LaterRun(ThroughLink(), NoThen(|c.frames|), step, c, i, n, n + 1);
  }

  /** The end of a guest function, and what the direct interpreter makes of it. */
  ghost predicate GuestDone<R>(w: World<R>, c: Tracked<R>, e: Tracked<R>, fuel: nat)
    requires c.frames != []
  {
    var stop := c.frames[|c.frames| - 1];
    e == Tracked(c.m.(nip := stop, lr := stop, r := e.m.r), c.frames) &&
    CallGuest(w, fuel, c.m.nip, c.m.lr, c.m.r, stop, c.m.stubs) == Some(e.m.r)
  }

  /** A guest function that gets back to its stub in the protocol, through the link register, is run to
      its end by the direct interpreter, and everything but the registers is as it was at the call. */
  lemma {:induction false} GuestComplete<R(!new)>(w: World<R>, step: Tracker<R>, c: Tracked<R>, n: nat, e: Tracked<R>)
    returns (fuel: nat)
    requires AllocatesFresh(w) && IsTrack(w, step) && FirstReturnAt(w, step, c, n, e)
    ensures GuestDone(w, c, e, fuel)
    decreases n, 1
  {
    FirstState(w, step, c, n + 1);
    if n == 0 {
      assert Iterate(step, c, 0) == c;
      GuestStops(w, c.m, c.m.nip);
      fuel := 1;
    } else {
      NotThere(w, step, c, n);
      if w.host(c.m.nip).Some? {
        fuel := AfterHostCall(w, step, c, n, e, w.host(c.m.nip).value);
      } else {
        fuel := AfterGuestStep(w, step, c, n, e);
      }
    }
  }

  lemma {:induction false} AfterGuestStep<R(!new)>(w: World<R>, step: Tracker<R>, c: Tracked<R>, n: nat, e: Tracked<R>)
    returns (fuel: nat)
    requires AllocatesFresh(w) && IsTrack(w, step) && FirstReturnAt(w, step, c, n, e) && n > 0
    requires c.m.nip !in c.m.stubs && w.host(c.m.nip).None?
    requires c.m.nip != c.frames[|c.frames| - 1]
    ensures GuestDone(w, c, e, fuel)
    decreases n, 0
  {
    var c1 := step(c);
    GuestTrack(w, step, c);
    assert Iterate(step, c, 1) == step(Iterate(step, c, 0));
    LaterReturn(w, step, c, n, e, 1, c1);
    var f1 := GuestComplete(w, step, c1, n - 1, e);
    FuelForGuest(w, c.m, c.frames[|c.frames| - 1], e.m.r, f1);
    fuel := f1 + 1;
  }

  lemma {:induction false} AfterHostCall<R(!new)>(w: World<R>, step: Tracker<R>, c: Tracked<R>, n: nat, e: Tracked<R>,
                                                  f: R -> Action<R>)
    returns (fuel: nat)
    requires AllocatesFresh(w) && IsTrack(w, step) && FirstReturnAt(w, step, c, n, e) && n > 0 && c.m.nip !in c.m.stubs
    requires w.host(c.m.nip) == Some(f) && c.m.nip != c.frames[|c.frames| - 1]
    ensures GuestDone(w, c, e, fuel)
    decreases n, 0
  {
    var c1 := step(c);
    HostTrack(w, step, c, f);
    StepInto(w, step, c, n, e, c1);
    var f1, i, r1 := HostComplete(w, step, f(c.m.r), Saved(c.m.lr, c.m.lr), c.m.calls, c.m.conts, c.m.stubs, {},
                                  c.frames, n - 1, c1);
    var c2 := Tracked(c.m.(nip := c.m.lr, r := r1), c.frames);
    StepBack(w, step, c, n, e, c1, i, c2);
    var f2 := GuestComplete(w, step, c2, n - (1 + i), e);
    fuel := FuelForBoth(w, c.m, f, c.frames[|c.frames| - 1], r1, e.m.r, f1, f2);
  }

  lemma StepInto<R>(w: World<R>, step: Tracker<R>, c: Tracked<R>, n: nat, e: Tracked<R>, c1: Tracked<R>)
    requires FirstReturnAt(w, step, c, n, e) && n > 0 && c1 == step(c)
    ensures Holds(ThroughLink(), step, c1, n - 1) && Iterate(step, c1, n - 1) == e && |e.m.calls| == |c.m.calls|
  {
    assert Iterate(step, c, 1) == step(Iterate(step, c, 0));
    LaterRun(ThroughLink(), NoThen(|c.frames|), step, c, 1, n, n + 1);
    HoldsUpTo(ThroughLink(), step, c1, n, n - 1);
  }

  lemma StepBack<R>(w: World<R>, step: Tracker<R>, c: Tracked<R>, n: nat, e: Tracked<R>, c1: Tracked<R>, i: nat,
                    c2: Tracked<R>)
    requires FirstReturnAt(w, step, c, n, e) && c1 == step(c) && i <= n - 1 && Iterate(step, c1, i) == c2
    requires c2.frames == c.frames && Frames(c2.m, c2.frames)
    ensures FirstReturnAt(w, step, c2, n - (1 + i), e)
  {
    assert Iterate(step, c, 1) == step(Iterate(step, c, 0));
    IterateSum(step, c, 1, i);
    LaterReturn(w, step, c, n, e, 1 + i, c2);
  }

  /** A host function whose call is over in the protocol, at any time before its `n`-th turn, is run to
      its end by the direct interpreter, and its caller finds its NIP, its LR, the stacks and the stubs
      as they were. */
  lemma {:induction false} HostComplete<R(!new)>(w: World<R>, step: Tracker<R>, action: Action<R>, from: Saved,
                                                 calls: seq<Saved>, conts: seq<R -> Action<R>>, live: set<nat>,
                                                 held: set<nat>, frames: seq<nat>, n: nat, c: Tracked<R>)
    returns (fuel: nat, i: nat, r': R)
    requires AllocatesFresh(w) && IsTrack(w, step) && FramesOf(calls, conts, live, frames)
    requires c == Start(w, action, from, calls, conts, live, held, frames)
    requires Holds(ThroughLink(), step, c, n) && |Iterate(step, c, n).m.calls| <= |calls|
    ensures i <= n && CallHost(w, fuel, action, live, held) == Some(r')
    ensures Iterate(step, c, i) == Tracked(Machine(from.ret, from.lr, r', calls, conts, live), frames)
    decreases n, 1
  {
    if action.Finished? {
      fuel, i, r' := 1, 0, action.r;
    } else {
      var stub := w.alloc(live + held);
      var j, f1, r1, c2 := FirstCall(w, step, action, from, calls, conts, live, held, frames, n, c, stub);
      var f2, k;
      f2, k, r' := HostComplete(w, step, action.resume(r1), from, calls, conts, live, {stub}, frames, n - (j + 1), c2);
      fuel := FuelForCall(w, action, live, held, stub, r1, r', f1, f2);
      i := j + 1 + k;
      IterateSum(step, c, j + 1, k);
    }
  }

  /** Up to the end of the first guest function that the host function calls. */
  lemma {:induction false} FirstCall<R(!new)>(w: World<R>, step: Tracker<R>, action: Action<R>, from: Saved,
                                              calls: seq<Saved>, conts: seq<R -> Action<R>>, live: set<nat>,
                                              held: set<nat>, frames: seq<nat>, n: nat, c: Tracked<R>, stub: nat)
    returns (j: nat, f1: nat, r1: R, c2: Tracked<R>)
    requires AllocatesFresh(w) && IsTrack(w, step) && FramesOf(calls, conts, live, frames)
    requires c == Start(w, action, from, calls, conts, live, held, frames)
    requires Holds(ThroughLink(), step, c, n) && |Iterate(step, c, n).m.calls| <= |calls|
    requires action.Suspended? && stub == w.alloc(live + held)
    ensures j < n && CallGuest(w, f1, action.va, stub, action.r, stub, live + {stub}) == Some(r1)
    ensures c2 == Start(w, action.resume(r1), from, calls, conts, live, {stub}, frames) && c2 == Iterate(step, c, j + 1)
    ensures Holds(ThroughLink(), step, c2, n - (j + 1)) && Iterate(step, c2, n - (j + 1)) == Iterate(step, c, n)
    decreases n, 0
  {
    StartFrames(w, action, from, calls, conts, live, held, frames);
    var e;
    j, e := ReturnOf(w, step, c, n, |calls|);
    f1 := GuestComplete(w, step, c, j, e);
    r1 := e.m.r;
    c2 := Start(w, action.resume(r1), from, calls, conts, live, {stub}, frames);
    GoesOn(w, step, c, j, e, n, stub, from, action.resume, calls, conts, live, frames, c2);
  }

  lemma ReturnOf<R(!new)>(w: World<R>, step: Tracker<R>, c: Tracked<R>, n: nat, depth: nat)
    returns (j: nat, e: Tracked<R>)
    requires AllocatesFresh(w) && IsTrack(w, step) && Frames(c.m, c.frames) && |c.frames| == depth + 1
    requires Holds(ThroughLink(), step, c, n)
    requires |Iterate(step, c, n).m.calls| <= depth
    ensures j < n && FirstReturnAt(w, step, c, j, e)
  {
    j := FirstReturn(w, step, c, n);
    e := Iterate(step, c, j);
    HoldsUpTo(ThroughLink(), step, c, n, j + 1);
  }

  lemma GoesOn<R(!new)>(w: World<R>, step: Tracker<R>, c: Tracked<R>, j: nat, e: Tracked<R>, n: nat, stub: nat,
                        from: Saved, resume: R -> Action<R>, calls: seq<Saved>, conts: seq<R -> Action<R>>,
                        live: set<nat>, frames: seq<nat>, c2: Tracked<R>)
    requires AllocatesFresh(w) && IsTrack(w, step) && stub !in live && j < n && Holds(ThroughLink(), step, c, n)
    requires Iterate(step, c, j) == e
    requires e == Tracked(Machine(stub, stub, e.m.r, calls + [from], conts + [resume], live + {stub}), frames + [stub])
    requires c2 == Start(w, resume(e.m.r), from, calls, conts, live, {stub}, frames)
    ensures Iterate(step, c, j + 1) == c2
    ensures Holds(ThroughLink(), step, c2, n - (j + 1))
    ensures Iterate(step, c2, n - (j + 1)) == Iterate(step, c, n)
  {
    ThenTrack(w, step, stub, e.m.r, from, resume, calls, conts, live, frames);
    HoldsFrom(ThroughLink(), step, c, j + 1, n - (j + 1));
    IterateSum(step, c, j + 1, n - (j + 1));
  }

  lemma TrackIsTrack<R(!new)>(w: World<R>)
    ensures IsTrack(w, Track(w))
  {
    forall c: Tracked<R> ensures Track(w)(c) == TrackStep(w, c) {}
  }

  /** When the guest calls a host function and is later no deeper in calls than before, the direct
      interpreter runs the host function to its end, too, with the same result, and the guest was back
      behind the call with its LR in between, with the stacks and the stubs as they were. */
  lemma HostCallReturns<R(!new)>(w: World<R>, m: Machine<R>, frames: seq<nat>, f: R -> Action<R>, n: nat)
    returns (fuel: nat, i: nat, r': R)
    requires AllocatesFresh(w) && Frames(m, frames) && m.nip !in m.stubs && w.host(m.nip) == Some(f)
    requires n > 0 && Holds(ThroughLink(), Track(w), Tracked(m, frames), n)
    requires |Iterate(Track(w), Tracked(m, frames), n).m.calls| <= |m.calls|
    ensures 1 <= i <= n && CallHost(w, fuel, f(m.r), m.stubs, {}) == Some(r')
    ensures Steps(w, m, i) == m.(nip := m.lr, r := r')
  {
    TrackIsTrack(w);
    fuel, i, r' := TrackedReturns(w, Track(w), Tracked(m, frames), f, n);
    HoldsUpTo(ThroughLink(), Track(w), Tracked(m, frames), n, i);
    RunKeepsFrames(w, Tracked(m, frames), i);
  }

  lemma TrackedReturns<R(!new)>(w: World<R>, step: Tracker<R>, c: Tracked<R>, f: R -> Action<R>, n: nat)
    returns (fuel: nat, i: nat, r': R)
    requires AllocatesFresh(w) && IsTrack(w, step) && Frames(c.m, c.frames)
    requires c.m.nip !in c.m.stubs && w.host(c.m.nip) == Some(f)
    requires n > 0 && Holds(ThroughLink(), step, c, n) && |Iterate(step, c, n).m.calls| <= |c.m.calls|
    ensures 1 <= i <= n && CallHost(w, fuel, f(c.m.r), c.m.stubs, {}) == Some(r')
    ensures Iterate(step, c, i) == Tracked(c.m.(nip := c.m.lr, r := r'), c.frames)
  {
    HostTrack(w, step, c, f);
    FirstTurn(step, c, n);
    var k;
    fuel, k, r' := HostComplete(w, step, f(c.m.r), Saved(c.m.lr, c.m.lr), c.m.calls, c.m.conts, c.m.stubs, {}, c.frames,
                                n - 1, step(c));
    i := 1 + k;
    IterateSum(step, c, 1, k);
  }

  lemma FirstTurn<R>(step: Tracker<R>, c: Tracked<R>, n: nat)
    requires n > 0 && Holds(ThroughLink(), step, c, n)
    ensures Iterate(step, c, 1) == step(c)
    ensures Holds(ThroughLink(), step, step(c), n - 1) && Iterate(step, step(c), n - 1) == Iterate(step, c, n)
  {
    assert Iterate(step, c, 1) == step(Iterate(step, c, 0));
    HoldsFrom(ThroughLink(), step, c, 1, n - 1);
    IterateSum(step, c, 1, n - 1);
  }
}
