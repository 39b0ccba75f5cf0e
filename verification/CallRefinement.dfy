/** The call protocol against an interpreter that calls itself (ps3emu/ppu/PPUThread.cpp:243-294,
    ps3emu/exports/exports.h:115-151). */
module CallRefinement {
  import opened Common
  import opened CallProtocol

  // ---------------------------------------------------------------- the direct interpreter

  /** A guest function called with the link register at `stop`, until it returns there; `live` are the
      stubs it may not touch. Nothing is returned if it takes too long, or does not return through the
      link register. */
  function CallGuest<R>(w: World<R>, fuel: nat, nip: nat, lr: nat, r: R, stop: nat, live: set<nat>): Option<R>
    decreases fuel
  {
    if fuel == 0 then None
    else if nip == stop then if lr == stop then Some(r) else None
    else if nip in live then None
    else
      match w.host(nip)
      case Some(f) =>
        (match CallHost(w, fuel - 1, f(r), live, {})
         case Some(r') => CallGuest(w, fuel - 1, lr, lr, r', stop, live)
         case None => None)
      case None =>
        var (nip', lr', r') := w.guest(nip, lr, r);
        CallGuest(w, fuel - 1, nip', lr', r', stop, live)
  }

  /** A host function, with every guest function it calls run to its end in place. The stub of the
      previous call is freed only after the next one has been allocated. */
  function CallHost<R>(w: World<R>, fuel: nat, action: Action<R>, live: set<nat>, held: set<nat>): Option<R>
    decreases fuel
  {
    if fuel == 0 then None
    else
      match action
      case Finished(r) => Some(r)
      case Suspended(va, r, resume) =>
        var stub := w.alloc(live + held);
        match CallGuest(w, fuel - 1, va, stub, r, stub, live + {stub})
        case Some(r') => CallHost(w, fuel - 1, resume(r'), live, {stub})
        case None => None
  }

  // ---------------------------------------------------------------- what one turn leaves behind

  /** The thread after a host function that was called with these return addresses and stacks has done
      `action`. */
  function After<R>(w: World<R>, action: Action<R>, from: Saved, calls: seq<Saved>, conts: seq<R -> Action<R>>,
                    live: set<nat>, held: set<nat>): Machine<R>
  {
    match action
    case Finished(r) => Machine(from.ret, from.lr, r, calls, conts, live)
    case Suspended(va, r, resume) =>
      var stub := w.alloc(live + held);
      Machine(va, stub, r, calls + [from], conts + [resume], live + {stub})
  }

  lemma HostTurn<R>(w: World<R>, m: Machine<R>, f: R -> Action<R>)
    requires m.nip !in m.stubs && w.host(m.nip) == Some(f)
    ensures Dispatch(w)(m) == After(w, f(m.r), Saved(m.lr, m.lr), m.calls, m.conts, m.stubs, {})
  {
    assert m.stubs + {} == m.stubs;
  }

  lemma GuestTurn<R>(w: World<R>, m: Machine<R>)
    requires m.nip !in m.stubs && w.host(m.nip).None?
    ensures var (nip, lr, r) := w.guest(m.nip, m.lr, m.r);
      Dispatch(w)(m) == m.(nip := nip, lr := lr, r := r)
  {}

  lemma ThenTurn<R(!new)>(w: World<R>, stub: nat, r: R, from: Saved, resume: R -> Action<R>, calls: seq<Saved>,
                          conts: seq<R -> Action<R>>, live: set<nat>)
    requires AllocatesFresh(w) && stub !in live
    ensures Dispatch(w)(Machine(stub, stub, r, calls + [from], conts + [resume], live + {stub}))
      == After(w, resume(r), from, calls, conts, live, {stub})
  {
    var m := Machine(stub, stub, r, calls + [from], conts + [resume], live + {stub});
    assert w.alloc(m.stubs) !in m.stubs;
    assert m.calls[..|calls|] == calls && m.conts[..|conts|] == conts;
    assert m.stubs + {w.alloc(m.stubs)} - {stub} == live + {w.alloc(m.stubs)};
    assert m.stubs - {stub} == live;
  }

  lemma OneThen<S>(step: S -> S, s: S, mid: S, end: S, n: nat)
    requires step(s) == mid && Iterate(step, mid, n) == end
    ensures Iterate(step, s, 1 + n) == end
  {
    IterateSum(step, s, 1, n);
    assert Iterate(step, s, 0) == s;
    assert Iterate(step, s, 1) == mid;
  }

  lemma Chain<S>(step: S -> S, s: S, mid: S, end: S, a: nat, b: nat)
    requires Iterate(step, s, a) == mid && Iterate(step, mid, b) == end
    ensures Iterate(step, s, a + b) == end
  {
    IterateSum(step, s, a, b);
  }

  // ---------------------------------------------------------------- the protocol does what the interpreter does

  lemma GuestUnfolds<R>(w: World<R>, fuel: nat, nip: nat, lr: nat, r: R, stop: nat, live: set<nat>, r': R)
    requires CallGuest(w, fuel, nip, lr, r, stop, live) == Some(r') && nip != stop
    ensures fuel > 0 && nip !in live
    ensures w.host(nip).None? ==>
      var (nip1, lr1, r1) := w.guest(nip, lr, r);
      CallGuest(w, fuel - 1, nip1, lr1, r1, stop, live) == Some(r')
  {}

  lemma GuestUnfoldsHost<R>(w: World<R>, fuel: nat, nip: nat, lr: nat, r: R, stop: nat, live: set<nat>, r': R,
                            f: R -> Action<R>) returns (r1: R)
    requires CallGuest(w, fuel, nip, lr, r, stop, live) == Some(r') && nip != stop && w.host(nip) == Some(f)
    ensures fuel > 0 && nip !in live && CallHost(w, fuel - 1, f(r), live, {}) == Some(r1)
    ensures CallGuest(w, fuel - 1, lr, lr, r1, stop, live) == Some(r')
  {
    r1 := CallHost(w, fuel - 1, f(r), live, {}).value;
  }

  lemma HostUnfolds<R>(w: World<R>, fuel: nat, action: Action<R>, live: set<nat>, held: set<nat>, r': R, stub: nat)
    returns (r1: R)
    requires CallHost(w, fuel, action, live, held) == Some(r') && action.Suspended? && stub == w.alloc(live + held)
    ensures fuel > 0 && CallGuest(w, fuel - 1, action.va, stub, action.r, stub, live + {stub}) == Some(r1)
    ensures CallHost(w, fuel - 1, action.resume(r1), live, {stub}) == Some(r')
  {
    r1 := CallGuest(w, fuel - 1, action.va, stub, action.r, stub, live + {stub}).value;
  }

  /** A guest function that the direct interpreter runs to its end gets there in the protocol, with
      the stacks and the stubs as they were. */
  lemma {:induction false} GuestRefines<R(!new)>(w: World<R>, fuel: nat, m: Machine<R>, stop: nat, r': R)
    returns (n: nat)
    requires AllocatesFresh(w) && stop in m.stubs
    requires CallGuest(w, fuel, m.nip, m.lr, m.r, stop, m.stubs) == Some(r')
    ensures Steps(w, m, n) == m.(nip := stop, lr := stop, r := r')
    decreases fuel, 1
  {
    if m.nip == stop {
      n := 0;
    } else {
      GuestUnfolds(w, fuel, m.nip, m.lr, m.r, stop, m.stubs, r');
      if w.host(m.nip).Some? {
        n := HostCallRefines(w, fuel, m, stop, r');
      } else {
        GuestTurn(w, m);
        var m1 := Dispatch(w)(m);
        var j := GuestRefines(w, fuel - 1, m1, stop, r');
        OneThen(Dispatch(w), m, m1, m.(nip := stop, lr := stop, r := r'), j);
        n := 1 + j;
      }
    }
  }

  lemma {:induction false} HostCallRefines<R(!new)>(w: World<R>, fuel: nat, m: Machine<R>, stop: nat, r': R)
    returns (n: nat)
    requires AllocatesFresh(w) && stop in m.stubs && m.nip != stop && w.host(m.nip).Some?
    requires CallGuest(w, fuel, m.nip, m.lr, m.r, stop, m.stubs) == Some(r')
    ensures Steps(w, m, n) == m.(nip := stop, lr := stop, r := r')
    decreases fuel, 0
  {
    var f := w.host(m.nip).value;
    var r1 := GuestUnfoldsHost(w, fuel, m.nip, m.lr, m.r, stop, m.stubs, r', f);
    var m1 := m.(nip := m.lr, r := r1);
    var k := HostRefines(w, fuel - 1, f(m.r), Saved(m.lr, m.lr), m.calls, m.conts, m.stubs, {}, r1);
    var j := GuestRefines(w, fuel - 1, m1, stop, r');
    n := AfterTheHost(w, m, f, m1, m.(nip := stop, lr := stop, r := r'), k, j);
  }

  lemma {:induction false} AfterTheHost<R>(w: World<R>, m: Machine<R>, f: R -> Action<R>, m1: Machine<R>,
                                           end: Machine<R>, k: nat, j: nat)
    returns (n: nat)
    requires m.nip !in m.stubs && w.host(m.nip) == Some(f)
    requires Steps(w, After(w, f(m.r), Saved(m.lr, m.lr), m.calls, m.conts, m.stubs, {}), k) == m1
    requires Steps(w, m1, j) == end
    ensures Steps(w, m, n) == end
  {
    HostTurn(w, m, f);
    OneThen(Dispatch(w), m, Dispatch(w)(m), m1, k);
    Chain(Dispatch(w), m, m1, end, 1 + k, j);
    n := 1 + k + j;
  }

  /** A guest function has returned to its stub, and the host function it was called from goes on. */
  lemma {:induction false} AfterTheGuest<R(!new)>(w: World<R>, m: Machine<R>, stub: nat, r1: R, from: Saved,
                                                  resume: R -> Action<R>, calls: seq<Saved>, conts: seq<R -> Action<R>>,
                                                  live: set<nat>, end: Machine<R>, k: nat, j: nat)
    returns (n: nat)
    requires AllocatesFresh(w) && stub !in live
    requires Steps(w, m, k) == Machine(stub, stub, r1, calls + [from], conts + [resume], live + {stub})
    requires Steps(w, After(w, resume(r1), from, calls, conts, live, {stub}), j) == end
    ensures Steps(w, m, n) == end
  {
    var back := Machine(stub, stub, r1, calls + [from], conts + [resume], live + {stub});
    ThenTurn(w, stub, r1, from, resume, calls, conts, live);
    OneThen(Dispatch(w), back, Dispatch(w)(back), end, j);
    Chain(Dispatch(w), m, back, end, k, 1 + j);
    n := k + (1 + j);
  }

  /** Any number of ps3calls, nested to any depth: when the host function is done, its caller goes on
      with its own NIP and LR, and the stacks and the stubs are as they were. */
  lemma {:induction false} HostRefines<R(!new)>(w: World<R>, fuel: nat, action: Action<R>, from: Saved,
                                                calls: seq<Saved>, conts: seq<R -> Action<R>>, live: set<nat>,
                                                held: set<nat>, r': R)
    returns (n: nat)
    requires AllocatesFresh(w) && CallHost(w, fuel, action, live, held) == Some(r')
    ensures Steps(w, After(w, action, from, calls, conts, live, held), n)
      == Machine(from.ret, from.lr, r', calls, conts, live)
    decreases fuel, 0
  {
    if action.Finished? {
      n := 0;
    } else {
      var stub := w.alloc(live + held);
      assert stub !in live + held;
      var r1 := HostUnfolds(w, fuel, action, live, held, r', stub);
      var m := After(w, action, from, calls, conts, live, held);
      var k := GuestRefines(w, fuel - 1, m, stub, r1);
      var j := HostRefines(w, fuel - 1, action.resume(r1), from, calls, conts, live, {stub}, r');
      n := AfterTheGuest(w, m, stub, r1, from, action.resume, calls, conts, live,
                         Machine(from.ret, from.lr, r', calls, conts, live), k, j);
    }
  }

  /** A call of a host function from guest code is one step to its caller: whatever guest functions it
      calls on the way, the guest goes on behind the call with its LR, and nothing is left behind. */
  lemma HostCallIsAtomic<R(!new)>(w: World<R>, m: Machine<R>, f: R -> Action<R>, fuel: nat, r': R)
    returns (n: nat)
    requires AllocatesFresh(w) && m.nip !in m.stubs && w.host(m.nip) == Some(f)
    requires CallHost(w, fuel, f(m.r), m.stubs, {}) == Some(r')
    ensures Steps(w, m, n) == m.(nip := m.lr, r := r')
  {
    HostTurn(w, m, f);
    var k := HostRefines(w, fuel, f(m.r), Saved(m.lr, m.lr), m.calls, m.conts, m.stubs, {}, r');
    OneThen(Dispatch(w), m, Dispatch(w)(m), m.(nip := m.lr, r := r'), k);
    n := 1 + k;
  }
}
