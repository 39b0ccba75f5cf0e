/** Host functions that call guest functions: suspended coroutines and patched LR and NIP
    (ps3emu/ppu/PPUThread.cpp:243-294, ps3emu/exports/exports.h:115-151,
    ps3emu/exports/ncall.cpp:290-301). */
module CallProtocol {
  import opened Common

  /** What a host function does when it is started or resumed: it returns, or it stores the arguments
      of a guest function in the registers and asks for the function to be called. */
  datatype Action<!R> =
    | Finished(r: R)
    | Suspended(va: nat, r: R, resume: R -> Action<R>)

  /** `ps3call_info_t`. */
  datatype Saved = Saved(ret: nat, lr: nat)

  /** The part of a thread that the protocol is about, and the call stubs that are allocated. */
  datatype Machine<!R> = Machine(
    nip: nat,
    lr: nat,
    r: R,
    calls: seq<Saved>,
    conts: seq<R -> Action<R>>,
    stubs: set<nat>)

  /** The guest and the host, as far as they do not take part in the protocol: one guest instruction,
      the host function an address leads to, and the allocator. */
  datatype World<!R> = World(
    guest: (nat, nat, R) -> (nat, nat, R),
    host: nat -> Option<R -> Action<R>>,
    alloc: set<nat> -> nat)

  ghost predicate AllocatesFresh<R(!new)>(w: World<R>) {
    forall stubs: set<nat> :: w.alloc(stubs) !in stubs
  }

  // ---------------------------------------------------------------- the protocol

  /** A host function runs up to its end or up to its next ps3call: ps3call_impl saves NIP and LR,
      allocates a stub and leaves for the guest function. */
  function RunHost<R>(w: World<R>, m: Machine<R>, action: Action<R>): Machine<R> {
    match action
    case Finished(r) => m.(r := r)
    case Suspended(va, r, _) =>
      var stub := w.alloc(m.stubs);
      m.(nip := va, lr := stub, r := r, calls := m.calls + [Saved(m.nip, m.lr)], stubs := m.stubs + {stub})
  }

  /** `ncall` of a host function, wrapped: a coroutine that is not finished is pushed. */
  function Enter<R>(w: World<R>, m: Machine<R>, f: R -> Action<R>): Machine<R> {
    var action := f(m.r);
    var m' := RunHost(w, m.(nip := m.lr), action);
    if action.Suspended? then m'.(conts := m'.conts + [action.resume]) else m'
  }

  /** `ncall` of ps3call_then. */
  function Then<R>(w: World<R>, m: Machine<R>): Machine<R>
    requires m.calls != [] && m.conts != []
  {
    var stub := m.lr;
    var top := m.calls[|m.calls| - 1];
    var action := m.conts[|m.conts| - 1](m.r);
    var others := m.conts[..|m.conts| - 1];
    var m' := RunHost(w, m.(nip := top.ret, lr := top.lr, calls := m.calls[..|m.calls| - 1]), action);
    m'.(conts := if action.Suspended? then others + [action.resume] else others, stubs := m'.stubs - {stub})
  }

  /** One turn of the dispatch loop; a stub holds an ncall of ps3call_then. Nothing is said of a
      thread that runs into a stub with nothing on its stacks, where the pop is undefined. A stub that
      has been freed still holds the ncall until its memory is used again; here it is guest code like
      any other. */
  function Step<R>(w: World<R>, m: Machine<R>): Machine<R> {
    if m.nip in m.stubs then
      if m.calls != [] && m.conts != [] then Then(w, m) else m
    else
      match w.host(m.nip)
      case Some(f) => Enter(w, m, f)
      case None =>
        var (nip, lr, r) := w.guest(m.nip, m.lr, m.r);
        m.(nip := nip, lr := lr, r := r)
  }

  function Dispatch<R>(w: World<R>): Machine<R> -> Machine<R> {
    (m: Machine<R>) => Step(w, m)
  }

  function Steps<R>(w: World<R>, m: Machine<R>, n: nat): Machine<R> {
    Iterate(Dispatch(w), m, n)
  }

  // ---------------------------------------------------------------- the thread object

  class PPUThread<R(0)> {
    var nip: nat
    var lr: nat
    var r: R
    var ps3calls: seq<Saved>
    var continuations: seq<R -> Action<R>>
    var stubs: set<nat>  // the call stubs of the internal heap

    constructor (nip: nat, lr: nat, r: R)
      ensures Value() == Machine(nip, lr, r, [], [], {})
    {
      this.nip, this.lr, this.r := nip, lr, r;
      ps3calls, continuations, stubs := [], [], {};
    }

    function Value(): Machine<R>
      reads this
    {
      Machine(nip, lr, r, ps3calls, continuations, stubs)
    }

    method Ps3CallImpl(w: World<R>, va: nat)
      modifies this`nip, this`lr, this`ps3calls, this`stubs
      ensures lr == w.alloc(old(stubs)) && nip == va && stubs == old(stubs) + {lr}
      ensures ps3calls == old(ps3calls) + [Saved(old(nip), old(lr))]
    {
      ps3calls := ps3calls + [Saved(nip, lr)];
      var stubVa := w.alloc(stubs);
      stubs := stubs + {stubVa};
      lr := stubVa;
      nip := va;
    }

    /** Control in a coroutine until it hands it back; the result says what is left of it. */
    method Resume(w: World<R>, f: R -> Action<R>) returns (source: Option<R -> Action<R>>)
      modifies this`nip, this`lr, this`r, this`ps3calls, this`stubs
      ensures Value() == RunHost(w, old(Value()), f(old(r))).(conts := old(continuations))
      ensures source == if f(old(r)).Suspended? then Some(f(old(r)).resume) else None
    {
      match f(r)
      case Finished(r') =>
        r := r';
        source := None;
      case Suspended(va, r', resume) =>
        r := r';
        Ps3CallImpl(w, va);
        source := Some(resume);
    }

    /** `ncall`, then `wrap`. */
    method NCall(w: World<R>, f: R -> Action<R>)
      modifies this
      ensures Value() == Enter(w, old(Value()), f)
    {
      nip := lr;
      var source := Resume(w, f);
      if source.Some? {
        continuations := continuations + [source.value];
      }
    }

    /** `ncall`, then `ps3call_then`. The stub is freed last, so that a ps3call on the way cannot be
        given the same address. */
    method Ps3CallThen(w: World<R>)
      requires ps3calls != [] && continuations != []
      modifies this
      ensures Value() == Then(w, old(Value()))
    {
      nip := lr;
      var stubVa := nip;
      var top := ps3calls[|ps3calls| - 1];
      ps3calls := ps3calls[..|ps3calls| - 1];
      lr := top.lr;
      nip := top.ret;
      var cont := Resume(w, continuations[|continuations| - 1]);
      if cont.Some? {
        continuations := continuations[|continuations| - 1 := cont.value];
      } else {
        continuations := continuations[..|continuations| - 1];
      }
      stubs := stubs - {stubVa};
    }
  }

  // ---------------------------------------------------------------- in every reachable state

  /** The stubs of the suspended calls, outermost first. */
  ghost predicate Frames<R>(m: Machine<R>, frames: seq<nat>) {
    FramesOf(m.calls, m.conts, m.stubs, frames)
  }

  ghost predicate FramesOf<R>(calls: seq<Saved>, conts: seq<R -> Action<R>>, stubs: set<nat>, frames: seq<nat>) {
    |frames| == |calls| == |conts| &&
    (forall i, j :: 0 <= i < j < |frames| ==> frames[i] != frames[j]) &&
    stubs == (set i | 0 <= i < |frames| :: frames[i])
  }

  /** Whenever the guest gets to a call stub, it is the one of the innermost call, and it got there
      through the link register. */
  ghost predicate ReturnsThroughLink<R>(m: Machine<R>, frames: seq<nat>) {
    m.nip in m.stubs ==> frames != [] && m.nip == m.lr == frames[|frames| - 1]
  }

  /** The frames after one step. */
  ghost function NextFrames<R>(w: World<R>, m: Machine<R>, frames: seq<nat>): seq<nat> {
    if m.nip in m.stubs && frames != [] && m.conts != [] then
      var rest := frames[..|frames| - 1];
      if m.conts[|m.conts| - 1](m.r).Suspended? then rest + [w.alloc(m.stubs)] else rest
    else if m.nip !in m.stubs && w.host(m.nip).Some? && w.host(m.nip).value(m.r).Suspended? then
      frames + [w.alloc(m.stubs)]
    else frames
  }

  /** Saved calls, suspended coroutines and live stubs stay in lockstep, whatever the guest and the
      host functions do, as long as guest functions return through the link register. */
  lemma StepKeepsFrames<R(!new)>(w: World<R>, m: Machine<R>, frames: seq<nat>)
    requires AllocatesFresh(w) && Frames(m, frames) && ReturnsThroughLink(m, frames)
    ensures Frames(Step(w, m), NextFrames(w, m, frames))
  {
    var stub := w.alloc(m.stubs);
    assert stub !in m.stubs;
    if m.nip in m.stubs {
      var rest := frames[..|frames| - 1];
      assert m.stubs - {m.lr} == (set i | 0 <= i < |rest| :: rest[i]) by {
        RestOfFrames(m.stubs, frames);
      }
      AddFrame(m.stubs - {m.lr}, rest, stub);
    } else {
      AddFrame(m.stubs, frames, stub);
    }
  }

  lemma RestOfFrames(stubs: set<nat>, frames: seq<nat>)
    requires frames != [] && stubs == (set i | 0 <= i < |frames| :: frames[i])
    requires forall i, j :: 0 <= i < j < |frames| ==> frames[i] != frames[j]
    ensures var last := |frames| - 1;
      stubs - {frames[last]} == (set i | 0 <= i < last :: frames[..last][i])
  {
    var last := |frames| - 1;
    forall x: nat ensures x in stubs - {frames[last]} <==> x in (set i | 0 <= i < last :: frames[..last][i]) {
      if x in stubs - {frames[last]} {
        var i :| 0 <= i < |frames| && frames[i] == x;
        assert frames[..last][i] == x;
      }
    }
  }

  lemma AddFrame(stubs: set<nat>, frames: seq<nat>, stub: nat)
    requires stubs == (set i | 0 <= i < |frames| :: frames[i])
    ensures stubs + {stub} == (set i | 0 <= i < |frames| + 1 :: (frames + [stub])[i])
  {
    var longer := frames + [stub];
    forall x: nat ensures x in stubs + {stub} <==> x in (set i | 0 <= i < |frames| + 1 :: longer[i]) {
      if x in stubs {
        var i :| 0 <= i < |frames| && frames[i] == x;
        assert longer[i] == x;
      }
      assert longer[|frames|] == stub;
    }
  }

  /** A thread with the stubs of its suspended calls. */
  datatype Tracked<!R> = Tracked(m: Machine<R>, frames: seq<nat>)

  ghost function TrackStep<R>(w: World<R>, c: Tracked<R>): Tracked<R> {
    Tracked(Step(w, c.m), NextFrames(w, c.m, c.frames))
  }

  ghost function Track<R>(w: World<R>): Tracked<R> -> Tracked<R> {
    (c: Tracked<R>) => TrackStep(w, c)
  }

  ghost function ThroughLink<R>(): Tracked<R> -> bool {
    (c: Tracked<R>) => ReturnsThroughLink(c.m, c.frames)
  }

  lemma TrackKeepsFrames<R(!new)>(w: World<R>, c: Tracked<R>)
    requires AllocatesFresh(w) && Frames(c.m, c.frames) && ThroughLink()(c)
    ensures var c' := Track(w)(c); Frames(c'.m, c'.frames)
  {
    StepKeepsFrames(w, c.m, c.frames);
  }

  /** In every state of every run in which guest functions return through the link register. */
  lemma {:induction false} RunKeepsFrames<R(!new)>(w: World<R>, c: Tracked<R>, n: nat)
    requires AllocatesFresh(w) && Frames(c.m, c.frames) && Holds(ThroughLink(), Track(w), c, n)
    ensures var c' := Iterate(Track(w), c, n);
      c'.m == Steps(w, c.m, n) && Frames(c'.m, c'.frames)
  {
    if n > 0 {
      RunKeepsFrames(w, c, n - 1);
      TrackKeepsFrames(w, Iterate(Track(w), c, n - 1));
    }
  }

  /** Saved calls and suspended coroutines even stay in lockstep whatever the guest does. */
  lemma {:induction false} StacksInLockstep<R>(w: World<R>, m: Machine<R>, n: nat)
    requires |m.calls| == |m.conts|
    ensures |Steps(w, m, n).calls| == |Steps(w, m, n).conts|
  {
    if n > 0 {
      StacksInLockstep(w, m, n - 1);
    }
  }

  /** Only a guest function that returns through the link register has its own stub freed: otherwise
      what the link register points to is freed, and the stub stays. */
  lemma StubIsFreedIff<R(!new)>(w: World<R>, m: Machine<R>)
    requires AllocatesFresh(w) && m.nip in m.stubs && m.calls != [] && m.conts != []
    ensures m.nip !in Step(w, m).stubs <==> m.lr == m.nip
  {
    assert w.alloc(m.stubs) !in m.stubs;
  }

  ghost function Beyond(s: set<nat>): (n: nat)
    ensures forall x :: x in s ==> x < n
  {
    if s == {} then 0
    else
      var x :| x in s;
      var n := Beyond(s - {x});
      assert forall y :: y in s ==> y == x || y in s - {x};
      if x < n then n else x + 1
  }

  /** The guest calls the host function at 100, which calls the guest function at 200, which moves its
      return address out of the link register, puts 8 there and jumps. */
  ghost function Tangled(): World<nat> {
    World((nip: nat, lr: nat, r: nat) =>
            if nip == 0 then (100, 4, r) else if nip == 200 then (lr, 8, r) else (nip, lr, r),
          (va: nat) => if va == 100 then Some((r: nat) => Suspended(200, r, (r': nat) => Finished(r'))) else None,
          (stubs: set<nat>) => if 1000 in stubs then Beyond(stubs) else 1000)
  }

  /** From a fresh thread: the guest gets to its stub at 1000 with another link register, and when the
      call is over and both stacks are empty, the stub is still allocated: nothing will ever free it. */
  lemma StubIsLost()
    ensures AllocatesFresh(Tangled())
    ensures var m := Steps(Tangled(), Machine(0, 0, 0, [], [], {}), 3); m.nip in m.stubs && m.lr != m.nip
    ensures Steps(Tangled(), Machine(0, 0, 0, [], [], {}), 4) == Machine(4, 4, 0, [], [], {1000})
  {
    var w := Tangled();
    forall stubs: set<nat> ensures w.alloc(stubs) !in stubs {}
    var m0: Machine<nat> := Machine(0, 0, 0, [], [], {});
    var m1 := Step(w, m0);
    assert m1 == m0.(nip := 100, lr := 4);
    var m2 := Step(w, m1);
    assert m2.nip == 200 && m2.lr == 1000 && m2.stubs == {1000} && m2.calls == [Saved(4, 4)] && |m2.conts| == 1;
    var m3 := Step(w, m2);
    assert m3 == m2.(nip := 1000, lr := 8);
    var m4 := Step(w, m3);
    assert m4 == Machine(4, 4, 0, [], [], {1000});
    FourSteps(w, m0);
  }

  lemma FourSteps<R>(w: World<R>, m: Machine<R>)
    ensures Steps(w, m, 3) == Step(w, Step(w, Step(w, m)))
    ensures Steps(w, m, 4) == Step(w, Steps(w, m, 3))
  {
    assert Steps(w, m, 0) == m;
    assert Steps(w, m, 1) == Step(w, m);
    assert Steps(w, m, 2) == Step(w, Steps(w, m, 1));
  }
}
