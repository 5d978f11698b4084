/**
 The process-wide address-space guard: any number of guarded blocks register a
 ceiling, the tightest one is applied with setrlimit, and the limits in force
 before the first block come back when the last block leaves.

 Limits are plain integers and RLIM_INFINITY is -1, as in Python's `resource`
 module. The bookkeeping compares them as integers; to the kernel every negative
 soft limit bounds nothing. Entering and leaving run under one lock, so each is a single step of
 the bookkeeping. The lock does not stop other threads from allocating between
 the reading of usage and the setrlimit call: what was read, if anything, is an
 input of its own beside the usage at the call, and so is whether setrlimit
 succeeds.
 */
module AddressSpaceGuard {
  import opened Options

  const RLIM_INFINITY: int := -1

  datatype Limits = Limits(soft: int, hard: int)

  /** The module globals together with what the kernel holds for the process. */
  datatype State = State(
    requests: seq<int>,
    saved: Option<Limits>,
    applied: Option<int>,
    limits: Limits,
    usage: int)

  /** `call` is the setrlimit call the operation attempted, if any. */
  datatype EnterResult = EnterResult(state: State, registered: Option<int>, call: Option<Limits>)
  datatype ExitResult = ExitResult(state: State, call: Option<Limits>)

  /** The order of what limits allow. A negative limit bounds nothing: -1 is
      RLIM_INFINITY, and the kernel reads any other one as a huge unsigned number. */
  predicate AtMost(a: int, b: int) {
    b < 0 || 0 <= a <= b
  }

  function Min(s: seq<int>): (m: int)
    requires s != []
    ensures m in s && forall r | r in s :: m <= r
  {
    if |s| == 1 then s[0]
    else
      var m := Min(s[1..]);
      assert s == [s[0]] + s[1..];
      if s[0] <= m then s[0] else m
  }

  /** Python's list.remove: drops the first occurrence. */
  function Without(s: seq<int>, c: int): (rest: seq<int>)
    requires c in s
    ensures multiset(rest) == multiset(s) - multiset{c}
    ensures forall x | x in rest :: x in s
  {
    assert s == [s[0]] + s[1..];
    if s[0] == c then s[1..] else [s[0]] + Without(s[1..], c)
  }

  function RequestedCeiling(s: State, limit: int, reading: int): int {
    var wanted := reading + limit;
    if s.limits.hard != RLIM_INFINITY && s.limits.hard < wanted then s.limits.hard else wanted
  }

  /** The soft limit the environment imposes, as opposed to one applied here. */
  function BaselineSoft(s: State): int {
    if s.saved.Some? then s.saved.value.soft else s.limits.soft
  }

  /** The usage read plus the limit, cut to the hard limit when that is finite and smaller. */
  predicate IsHeadroom(ceiling: int, limit: int, reading: int, hard: int) {
    && ceiling <= reading + limit && (hard != RLIM_INFINITY ==> ceiling <= hard)
    && (ceiling == reading + limit || (hard != RLIM_INFINITY && ceiling == hard))
  }

  predicate EnvironmentIsTighter(s: State, ceiling: int) {
    BaselineSoft(s) != RLIM_INFINITY && BaselineSoft(s) <= ceiling
  }

  /** `reading` is the usage read on entry, None when it could not be read. */
  function Enter(s: State, limit: int, reading: Option<int>, accepted: bool): EnterResult {
    if reading.None? || EnvironmentIsTighter(s, RequestedCeiling(s, limit, reading.value)) then
      EnterResult(s, None, None)
    else
      var ceiling := RequestedCeiling(s, limit, reading.value);
      var requests := s.requests + [ceiling];
      var target := Min(requests);
      if s.applied == Some(target) then
        EnterResult(s.(requests := requests), Some(ceiling), None)
      else
        var call := Limits(target, s.limits.hard);
        if !accepted then EnterResult(s, None, Some(call))
        else
          var saved := if s.saved.None? then Some(s.limits) else s.saved;
          EnterResult(State(requests, saved, Some(target), call, s.usage), Some(ceiling), Some(call))
  }

  function Exit(s: State, ceiling: int, accepted: bool): ExitResult {
    if ceiling !in s.requests then ExitResult(s, None)
    else
      var left := s.(requests := Without(s.requests, ceiling));
      if left.requests != [] then
        var target := Min(left.requests);
        if s.applied == Some(target) || s.saved.None? then ExitResult(left, None)
        else
          var call := Limits(target, s.saved.value.hard);
          ExitResult(if accepted then left.(applied := Some(target), limits := call) else left, Some(call))
      else if s.saved.None? then ExitResult(left, None)
      else
        ExitResult(if accepted then left.(saved := None, applied := None, limits := s.saved.value) else left, s.saved)
  }

  // ---- The imperative operations, proved to compute Enter and Exit ----

  /** The kernel's side: one resource, whose limits only setrlimit changes. */
  class Kernel {
    var limits: Limits
    var usage: int

    constructor (limits: Limits, usage: int)
      ensures this.limits == limits && this.usage == usage
    {
      this.limits, this.usage := limits, usage;
    }

    method SetRlimit(wanted: Limits, accepted: bool) returns (ok: bool)
      modifies this`limits
      ensures ok == accepted
      ensures limits == if ok then wanted else old(limits)
    {
      if accepted {
        limits := wanted;
      }
      ok := accepted;
    }
  }

  class GuardRegistry {
    const kernel: Kernel
    var requests: seq<int>
    var saved: Option<Limits>
    var applied: Option<int>

    constructor (kernel: Kernel)
      ensures this.kernel == kernel && View() == State([], None, None, kernel.limits, kernel.usage)
    {
      this.kernel := kernel;
      requests, saved, applied := [], None, None;
    }

    ghost function View(): State
      reads this, kernel
    {
      State(requests, saved, applied, kernel.limits, kernel.usage)
    }

    /** `_enter_address_space_guard`. */
    method EnterGuard(limit: int, reading: Option<int>, accepted: bool) returns (registered: Option<int>)
      modifies this, kernel`limits
      ensures View() == Enter(old(View()), limit, reading, accepted).state
      ensures registered == Enter(old(View()), limit, reading, accepted).registered
      ensures
        registered.Some? ==>
          reading.Some? && IsHeadroom(registered.value, limit, reading.value, old(kernel.limits.hard))
    {
      if reading.None? {
        return None;
      }
      ghost var before := View();
      var soft, hard := kernel.limits.soft, kernel.limits.hard;
      var ceiling := reading.value + limit;
      if hard != RLIM_INFINITY && hard < ceiling {
        ceiling := hard;
      }
      var baselineSoft := if saved.Some? then saved.value.soft else soft;
      if baselineSoft != RLIM_INFINITY && baselineSoft <= ceiling {
        return None;
      }
      assert IsHeadroom(ceiling, limit, reading.value, hard);
      assert ceiling == RequestedCeiling(before, limit, reading.value) && !EnvironmentIsTighter(before, ceiling);
      requests := requests + [ceiling];
      var target := Min(requests);
      if applied != Some(target) {
        var ok := kernel.SetRlimit(Limits(target, hard), accepted);
        if !ok {
          requests := requests[..|requests| - 1];
          assert View() == before;
          return None;
        }
        if saved == None {
          saved := Some(Limits(soft, hard));
        }
        applied := Some(target);
      }
      return Some(ceiling);
    }

    /** `_exit_address_space_guard`. */
    method ExitGuard(ceiling: int, accepted: bool)
      modifies this, kernel`limits
      ensures View() == Exit(old(View()), ceiling, accepted).state
    {
      if ceiling !in requests {
        return;
      }
      requests := Without(requests, ceiling);
      if requests != [] {
        var target := Min(requests);
        if applied != Some(target) && saved.Some? {
          var ok := kernel.SetRlimit(Limits(target, saved.value.hard), accepted);
          if ok {
            applied := Some(target);
          }
        }
        return;
      }
      if saved.None? {
        return;
      }
      var restored := kernel.SetRlimit(saved.value, accepted);
      if restored {
        saved, applied := None, None;
      }
    }
  }

  // ---- Interleavings of guarded blocks ----

  /** A block whose guard was registered and which has not left yet. */
  datatype Guard = Guard(id: nat, ceiling: int)

  /** `loosenFailed`: a loosening was refused, and no block has registered or left properly since. */
  datatype World = World(state: State, live: seq<Guard>, nextId: nat, loosenFailed: bool)

  datatype Event =
    | EnterBlock(limit: int, reading: Option<int>, accepted: bool)
    | LeaveBlock(guard: Guard, accepted: bool)
    | UsageBecomes(bytes: int)

  /** Only live guards leave; the kernel lets usage shrink, or grow up to the soft limit. */
  predicate Enabled(w: World, e: Event) {
    match e
    case EnterBlock(_, _, _) => true
    case LeaveBlock(g, _) => g in w.live
    case UsageBecomes(bytes) => 0 <= bytes && (bytes <= w.state.usage || AtMost(bytes, w.state.limits.soft))
  }

  function Remove(live: seq<Guard>, g: Guard): (rest: seq<Guard>)
    ensures forall h :: h in rest ==> h in live
  {
    if live == [] then [] else if live[0] == g then live[1..] else [live[0]] + Remove(live[1..], g)
  }

  /** The setrlimit call a step attempts, if any. */
  function Attempt(w: World, e: Event): Option<Limits> {
    match e
    case EnterBlock(limit, reading, accepted) => Enter(w.state, limit, reading, accepted).call
    case LeaveBlock(g, accepted) => Exit(w.state, g.ceiling, accepted).call
    case UsageBecomes(_) => None
  }

  function Step(w: World, e: Event): World
    requires Enabled(w, e)
  {
    match e
    case EnterBlock(limit, reading, accepted) =>
      var r := Enter(w.state, limit, reading, accepted);
      var live := if r.registered.Some? then w.live + [Guard(w.nextId, r.registered.value)] else w.live;
      World(r.state, live, w.nextId + 1, w.loosenFailed && r.registered.None?)
    case LeaveBlock(g, accepted) =>
      var r := Exit(w.state, g.ceiling, accepted);
      World(r.state, Remove(w.live, g), w.nextId,
            r.call.Some? && !accepted)
    case UsageBecomes(bytes) =>
      w.(state := w.state.(usage := bytes))
  }

  predicate Runnable(w: World, events: seq<Event>)
    decreases |events|
  {
    events == [] || (Enabled(w, events[0]) && Runnable(Step(w, events[0]), events[1..]))
  }

  function Run(w: World, events: seq<Event>): World
    requires Runnable(w, events)
    decreases |events|
  {
    if events == [] then w else Run(Step(w, events[0]), events[1..])
  }

  /** The world before any guard: nothing registered, the environment's limits in force. */
  function Start(original: Limits, usage: int): World {
    World(State([], None, None, original, usage), [], 0, false)
  }

  /** No requested limit is negative, and no usage read is. */
  predicate NonNegativeRequests(events: seq<Event>) {
    forall e | e in events && e.EnterBlock? :: 0 <= e.limit && (e.reading.Some? ==> 0 <= e.reading.value)
  }

  // ---- What every interleaving keeps ----

  function Ceilings(live: seq<Guard>): seq<int> {
    if live == [] then [] else [live[0].ceiling] + Ceilings(live[1..])
  }

  predicate DistinctIds(live: seq<Guard>, bound: nat) {
    && (forall i | 0 <= i < |live| :: live[i].id < bound)
    && (forall i, j | 0 <= i < j < |live| :: live[i].id != live[j].id)
  }

  /** The bookkeeping invariant of the globals and the kernel's limits. */
  ghost predicate StateInv(s: State, original: Limits, loosenFailed: bool) {
    && s.limits.hard == original.hard
    && (s.saved.None? ==> s.requests == [] && s.applied.None? && s.limits == original)
    && (s.saved.Some? ==>
          && s.saved.value == original
          && s.applied == Some(s.limits.soft)
          && (original.soft == RLIM_INFINITY || s.limits.soft < original.soft))
    && (forall r | r in s.requests ::
          && s.limits.soft <= r && (original.soft == RLIM_INFINITY || r < original.soft)
          && (original.hard == RLIM_INFINITY || r <= original.hard))
    && (s.requests != [] && !loosenFailed ==> s.limits.soft == Min(s.requests))
  }

  /** The request list holds exactly the live guards' ceilings, as a multiset. */
  ghost predicate Registered(requests: seq<int>, live: seq<Guard>, nextId: nat) {
    && multiset(requests) == multiset(Ceilings(live))
    && DistinctIds(live, nextId)
  }

  ghost predicate Inv(w: World, original: Limits) {
    && Registered(w.state.requests, w.live, w.nextId)
    && StateInv(w.state, original, w.loosenFailed)
  }

  /** A pair of limits as the kernel reports it. */
  predicate KernelPair(limits: Limits) {
    AtMost(limits.soft, limits.hard) && RLIM_INFINITY <= limits.soft && RLIM_INFINITY <= limits.hard
  }

  /** What holds besides of the limits when no request is negative. */
  ghost predicate LimitInv(s: State) {
    && KernelPair(s.limits)
    && (s.limits.soft < 0 ==> s.requests == [] && s.saved.None?)
    && (forall r | r in s.requests :: 0 <= r && AtMost(r, s.limits.hard))
  }

  /** ... and of usage, as long as no call was made below it. */
  ghost predicate KernelInv(s: State) {
    LimitInv(s) && 0 <= s.usage && AtMost(s.usage, s.limits.soft)
  }

  lemma {:induction false} CeilingsAppend(live: seq<Guard>, g: Guard)
    ensures Ceilings(live + [g]) == Ceilings(live) + [g.ceiling]
  {
    if live == [] {
      assert Ceilings([g]) == [g.ceiling] + Ceilings([]);
    } else {
      CeilingsAppend(live[1..], g);
      assert (live + [g])[1..] == live[1..] + [g];
    }
  }

  lemma {:induction false} CeilingsRemove(live: seq<Guard>, g: Guard)
    requires g in live
    ensures g.ceiling in Ceilings(live)
    ensures multiset(Ceilings(Remove(live, g))) == multiset(Ceilings(live)) - multiset{g.ceiling}
  {
    if live[0] != g {
      var rest := Remove(live[1..], g);
      CeilingsRemove(live[1..], g);
      assert Remove(live, g)[1..] == rest;
      ConsDrops(live[0].ceiling, Ceilings(live[1..]), Ceilings(rest), g.ceiling);
    } else {
      ConsDrops(g.ceiling, Ceilings(live[1..]), [], g.ceiling);
    }
  }

  lemma ConsDrops(a: int, s: seq<int>, rest: seq<int>, c: int)
    ensures c in s && multiset(rest) == multiset(s) - multiset{c} ==>
              multiset([a] + rest) == multiset([a] + s) - multiset{c}
    ensures multiset(s) == multiset([a] + s) - multiset{a}
  {
  }

  lemma CeilingListed(live: seq<Guard>, g: Guard)
    requires g in live
    ensures g.ceiling in Ceilings(live)
  {
    CeilingsRemove(live, g);
  }

  lemma {:induction false} RemoveKeepsDistinct(live: seq<Guard>, g: Guard, bound: nat)
    requires DistinctIds(live, bound)
    ensures DistinctIds(Remove(live, g), bound)
    ensures g !in Remove(live, g)
    ensures forall h | h in live && h != g :: h in Remove(live, g)
  {
    if live != [] {
      assert live == [live[0]] + live[1..];
      if live[0] == g {
        assert forall i | 0 <= i < |live[1..]| :: live[1..][i] == live[i + 1];
      } else {
        assert DistinctIds(live[1..], bound);
        RemoveKeepsDistinct(live[1..], g, bound);
        var rest := Remove(live[1..], g);
        forall i | 0 <= i < |rest|
          ensures rest[i].id != live[0].id
        {
          assert rest[i] in live[1..];
        }
      }
    }
  }

  lemma SameElements(a: seq<int>, b: seq<int>)
    requires multiset(a) == multiset(b)
    ensures forall x :: x in a <==> x in b
  {
    forall x
      ensures x in a <==> x in b
    {
      assert x in a <==> x in multiset(a);
      assert x in b <==> x in multiset(b);
    }
  }

  lemma EnterKeepsStateInv(s: State, limit: int, reading: Option<int>, accepted: bool, original: Limits, failed: bool)
    requires StateInv(s, original, failed)
    ensures
      var r := Enter(s, limit, reading, accepted);
      && StateInv(r.state, original, failed && r.registered.None?)
      && r.state.requests == if r.registered.Some? then s.requests + [r.registered.value] else s.requests
  {
  }

  lemma ExitKeepsStateInv(s: State, ceiling: int, accepted: bool, original: Limits, failed: bool)
    requires StateInv(s, original, failed)
    ensures
      var r := Exit(s, ceiling, accepted);
      && StateInv(r.state, original, if ceiling in s.requests then r.call.Some? && !accepted else failed)
      && r.state.requests == if ceiling in s.requests then Without(s.requests, ceiling) else s.requests
  {
    if ceiling in s.requests {
      var rest := Without(s.requests, ceiling);
      if rest != [] {
        LooserMin(s.requests, rest);
        assert s.saved.Some? && s.limits.soft <= Min(s.requests) <= Min(rest);
        assert Min(rest) in s.requests;
      }
    }
  }

  lemma LooserMin(all: seq<int>, some: seq<int>)
    requires all != [] && some != [] && forall x | x in some :: x in all
    ensures Min(all) <= Min(some)
  {
  }

  lemma EnterKeepsRegistered(requests: seq<int>, live: seq<Guard>, nextId: nat, ceiling: int)
    requires Registered(requests, live, nextId)
    ensures Registered(requests + [ceiling], live + [Guard(nextId, ceiling)], nextId + 1)
  {
    CeilingsAppend(live, Guard(nextId, ceiling));
  }

  lemma LeaveKeepsRegistered(requests: seq<int>, live: seq<Guard>, nextId: nat, g: Guard)
    requires Registered(requests, live, nextId) && g in live
    ensures g.ceiling in requests
    ensures Registered(Without(requests, g.ceiling), Remove(live, g), nextId)
  {
    CeilingsRemove(live, g);
    RemoveKeepsDistinct(live, g, nextId);
    SameElements(requests, Ceilings(live));
  }

  lemma EnterKeepsInv(w: World, e: Event, original: Limits)
    requires e.EnterBlock? && Inv(w, original)
    ensures Inv(Step(w, e), original)
  {
    var w' := Step(w, e);
    EnterKeepsStateInv(w.state, e.limit, e.reading, e.accepted, original, w.loosenFailed);
    assert StateInv(w'.state, original, w'.loosenFailed);
    var r := Enter(w.state, e.limit, e.reading, e.accepted);
    if r.registered.Some? {
      EnterKeepsRegistered(w.state.requests, w.live, w.nextId, r.registered.value);
      assert Registered(w'.state.requests, w'.live, w'.nextId);
    } else {
      assert Registered(w'.state.requests, w'.live, w.nextId);
    }
  }

  lemma LeaveKeepsInv(w: World, e: Event, original: Limits)
    requires e.LeaveBlock? && Enabled(w, e) && Inv(w, original)
    ensures Inv(Step(w, e), original)
  {
    ExitKeepsStateInv(w.state, e.guard.ceiling, e.accepted, original, w.loosenFailed);
    LeaveKeepsRegistered(w.state.requests, w.live, w.nextId, e.guard);
  }

  lemma StepKeepsInv(w: World, e: Event, original: Limits)
    requires Enabled(w, e) && Inv(w, original)
    ensures Inv(Step(w, e), original)
  {
    match e
    case EnterBlock(_, _, _) => EnterKeepsInv(w, e, original);
    case LeaveBlock(_, _) => LeaveKeepsInv(w, e, original);
    case UsageBecomes(_) =>
  }

  lemma {:induction false} RunKeepsInv(w: World, events: seq<Event>, original: Limits)
    requires Runnable(w, events) && Inv(w, original)
    ensures Inv(Run(w, events), original)
    decreases |events|
  {
    if events != [] {
      StepKeepsInv(w, events[0], original);
      RunKeepsInv(Step(w, events[0]), events[1..], original);
    }
  }

  /** A call the kernel and the environment would accept. */
  ghost predicate LegalCall(call: Limits, original: Limits) {
    && AtMost(call.soft, call.hard)
    && AtMost(call.soft, original.soft)
    && call.hard == original.hard
  }

  lemma EnterKeepsLimitInv(
    s: State, limit: int, reading: Option<int>, accepted: bool, original: Limits, failed: bool)
    requires StateInv(s, original, failed) && LimitInv(s)
    requires 0 <= limit && (reading.Some? ==> 0 <= reading.value)
    ensures
      var r := Enter(s, limit, reading, accepted);
      && LimitInv(r.state)
      && (r.call.Some? ==> LegalCall(r.call.value, original))
  {
    if reading.Some? {
      var ceiling := RequestedCeiling(s, limit, reading.value);
      assert 0 <= ceiling && AtMost(ceiling, s.limits.hard);
    }
  }

  lemma ExitKeepsLimitInv(s: State, ceiling: int, accepted: bool, original: Limits, failed: bool)
    requires StateInv(s, original, failed) && LimitInv(s)
    requires KernelPair(original)
    ensures
      var r := Exit(s, ceiling, accepted);
      && LimitInv(r.state)
      && (r.call.Some? ==> LegalCall(r.call.value, original) && AtMost(s.limits.soft, r.call.value.soft))
  {
  }

  lemma StepKeepsLimitInv(w: World, e: Event, original: Limits)
    requires Enabled(w, e) && Inv(w, original) && LimitInv(w.state) && NonNegativeRequests([e])
    requires KernelPair(original)
    ensures LimitInv(Step(w, e).state)
    ensures Attempt(w, e).Some? ==> LegalCall(Attempt(w, e).value, original)
  {
    assert e in [e];
    match e
    case EnterBlock(limit, reading, accepted) =>
      EnterKeepsLimitInv(w.state, limit, reading, accepted, original, w.loosenFailed);
    case LeaveBlock(g, accepted) =>
      ExitKeepsLimitInv(w.state, g.ceiling, accepted, original, w.loosenFailed);
    case UsageBecomes(_) =>
  }

  /** The environment a process starts in: usage within the soft limit, soft within hard. */
  predicate SaneStart(original: Limits, usage: int) {
    0 <= usage && AtMost(usage, original.soft) && KernelPair(original)
  }

  lemma {:induction false} RunKeepsLimitInv(w: World, events: seq<Event>, original: Limits)
    requires Runnable(w, events) && Inv(w, original) && LimitInv(w.state) && NonNegativeRequests(events)
    requires KernelPair(original)
    ensures LimitInv(Run(w, events).state)
    decreases |events|
  {
    if events != [] {
      assert events[0] in events;
      StepKeepsInv(w, events[0], original);
      StepKeepsLimitInv(w, events[0], original);
      RunKeepsLimitInv(Step(w, events[0]), events[1..], original);
    }
  }

  // ---- Calls and current usage ----

  /** Since it was read, usage has grown by at most the requested limit. */
  predicate GrewWithinLimit(s: State, e: Event)
    requires e.EnterBlock? && e.reading.Some?
  {
    s.usage - e.reading.value <= e.limit
  }

  /** A call made on entry is at or above usage at the call exactly when usage
      has grown by at most the requested limit since it was read. */
  lemma EnterRespectsUsageIff(w: World, e: Event, original: Limits)
    requires e.EnterBlock? && Inv(w, original) && KernelInv(w.state) && Attempt(w, e).Some?
    ensures w.state.usage <= Attempt(w, e).value.soft <==> GrewWithinLimit(w.state, e)
    ensures GrewWithinLimit(w.state, e) ==> KernelInv(Step(w, e).state)
  {
    var ceiling := RequestedCeiling(w.state, e.limit, e.reading.value);
    assert ceiling in w.state.requests + [ceiling];
    assert Min(w.state.requests + [ceiling]) in w.state.requests + [ceiling];
  }

  lemma QuietEntryKeepsKernelInv(s: State, limit: int, reading: Option<int>, accepted: bool)
    requires KernelInv(s) && (s.applied.Some? ==> s.saved.Some? && s.applied.value == s.limits.soft)
    requires Enter(s, limit, reading, accepted).call.None?
    ensures KernelInv(Enter(s, limit, reading, accepted).state)
  {
    var r := Enter(s, limit, reading, accepted);
    if r.registered.Some? {
      var ceiling := r.registered.value;
      assert r.state == s.(requests := s.requests + [ceiling]);
      assert ceiling in s.requests + [ceiling];
      assert s.limits.soft <= ceiling;
    }
  }

  lemma ExitKeepsKernelInv(s: State, ceiling: int, accepted: bool, original: Limits, failed: bool)
    requires StateInv(s, original, failed) && KernelInv(s)
    requires KernelPair(original)
    ensures
      var r := Exit(s, ceiling, accepted);
      && KernelInv(r.state)
      && (r.call.Some? ==> AtMost(s.usage, r.call.value.soft))
  {
    ExitKeepsLimitInv(s, ceiling, accepted, original, failed);
    var r := Exit(s, ceiling, accepted);
    assert r.state.usage == s.usage;
    assert r.state.limits == if r.call.Some? && accepted then r.call.value else s.limits;
  }

  lemma OtherStepsKeepKernelInv(w: World, e: Event, original: Limits)
    requires Enabled(w, e) && Inv(w, original) && KernelInv(w.state)
    requires KernelPair(original)
    requires e.EnterBlock? ==> Attempt(w, e).None?
    ensures KernelInv(Step(w, e).state)
    ensures Attempt(w, e).Some? ==> AtMost(w.state.usage, Attempt(w, e).value.soft)
  {
    match e
    case EnterBlock(limit, reading, accepted) =>
      QuietEntryKeepsKernelInv(w.state, limit, reading, accepted);
    case LeaveBlock(g, accepted) =>
      ExitKeepsKernelInv(w.state, g.ceiling, accepted, original, w.loosenFailed);
    case UsageBecomes(_) =>
  }

  /** A call is not below current usage, and on entry it does impose a ceiling. */
  predicate CallFits(w: World, e: Event) {
    Attempt(w, e).Some? ==>
      && AtMost(w.state.usage, Attempt(w, e).value.soft)
      && (e.EnterBlock? ==> 0 <= Attempt(w, e).value.soft)
  }

  predicate EntrySteady(w: World, e: Event) {
    e.EnterBlock? && Attempt(w, e).Some? ==> GrewWithinLimit(w.state, e)
  }

  lemma StepFitsIff(w: World, e: Event, original: Limits)
    requires Enabled(w, e) && Inv(w, original) && KernelInv(w.state)
    requires KernelPair(original)
    ensures CallFits(w, e) <==> EntrySteady(w, e)
    ensures EntrySteady(w, e) ==> KernelInv(Step(w, e).state)
  {
    if e.EnterBlock? && Attempt(w, e).Some? {
      EnterRespectsUsageIff(w, e, original);
    } else {
      OtherStepsKeepKernelInv(w, e, original);
    }
  }

  /** Every setrlimit call of the run, accepted or refused, fits. */
  predicate NeverBelowUsage(w: World, events: seq<Event>)
    requires Runnable(w, events)
    decreases |events|
  {
    events != [] ==> CallFits(w, events[0]) && NeverBelowUsage(Step(w, events[0]), events[1..])
  }

  /** At every entry that calls setrlimit usage has grown by at most the requested limit. */
  predicate Steady(w: World, events: seq<Event>)
    requires Runnable(w, events)
    decreases |events|
  {
    events != [] ==> EntrySteady(w, events[0]) && Steady(Step(w, events[0]), events[1..])
  }

  lemma {:induction false} NeverBelowUsageFrom(w: World, events: seq<Event>, original: Limits)
    requires Runnable(w, events) && Inv(w, original) && KernelInv(w.state)
    requires KernelPair(original)
    ensures NeverBelowUsage(w, events) <==> Steady(w, events)
    decreases |events|
  {
    if events != [] {
      StepFitsIff(w, events[0], original);
      if EntrySteady(w, events[0]) {
        StepKeepsInv(w, events[0], original);
        NeverBelowUsageFrom(Step(w, events[0]), events[1..], original);
      }
    }
  }

  lemma {:induction false} SteadyKeepsKernelInv(w: World, events: seq<Event>, original: Limits)
    requires Runnable(w, events) && Inv(w, original) && KernelInv(w.state) && Steady(w, events)
    requires KernelPair(original)
    ensures KernelInv(Run(w, events).state)
    decreases |events|
  {
    if events != [] {
      StepFitsIff(w, events[0], original);
      StepKeepsInv(w, events[0], original);
      SteadyKeepsKernelInv(Step(w, events[0]), events[1..], original);
    }
  }

  // ---- The promises, over every run from the start ----

  /** The list of requests is exactly what the live guards asked for. No step
      touches the hard limit, and the saved pair is the original one. */
  lemma BookkeepingIsExact(original: Limits, usage: int, events: seq<Event>)
    requires Runnable(Start(original, usage), events)
    ensures
      var w := Run(Start(original, usage), events);
      && multiset(w.state.requests) == multiset(Ceilings(w.live))
      && w.state.limits.hard == original.hard
      && (w.state.saved.Some? ==> w.state.saved.value == original)
      && (w.state.saved.None? ==> w.live == [] && w.state.limits == original)
  {
    var w := Run(Start(original, usage), events);
    RunKeepsInv(Start(original, usage), events, original);
    if w.live != [] {
      assert w.live[0].ceiling in multiset(Ceilings(w.live));
    }
  }

  /** Every live guard's ceiling bounds the process. */
  predicate InForce(w: World) {
    forall g | g in w.live :: 0 <= w.state.limits.soft <= g.ceiling
  }

  predicate AlwaysInForce(w: World, events: seq<Event>)
    requires Runnable(w, events)
    decreases |events|
  {
    InForce(w) && (events != [] ==> AlwaysInForce(Step(w, events[0]), events[1..]))
  }

  predicate Accepted(e: Event) {
    !e.UsageBecomes? && e.accepted
  }

  /** An accepted call whose target bounds nothing, other than the last exit's restore. */
  predicate Unlimits(w: World, e: Event)
    requires Enabled(w, e)
  {
    Accepted(e) && Attempt(w, e).Some? && Attempt(w, e).value.soft < 0 && !(e.LeaveBlock? && w.live == [e.guard])
  }

  predicate NeverUnlimits(w: World, events: seq<Event>)
    requires Runnable(w, events)
    decreases |events|
  {
    events != [] ==> !Unlimits(w, events[0]) && NeverUnlimits(Step(w, events[0]), events[1..])
  }

  /** While something is saved, the soft limit bounds the process. */
  predicate Bounding(s: State) {
    s.saved.Some? ==> 0 <= s.limits.soft
  }

  lemma BoundingIsInForce(w: World, original: Limits)
    requires Inv(w, original)
    ensures Bounding(w.state) ==> InForce(w)
    ensures w.live != [] && w.state.limits.soft < 0 ==> !InForce(w)
  {
    SameElements(w.state.requests, Ceilings(w.live));
    forall g | g in w.live
      ensures g.ceiling in w.state.requests
    {
      CeilingListed(w.live, g);
    }
    if w.live != [] {
      assert w.live[0] in w.live;
    }
  }

  lemma EnterUnlimits(w: World, e: Event, original: Limits)
    requires e.EnterBlock? && Inv(w, original) && Bounding(w.state)
    ensures Unlimits(w, e) ==> Step(w, e).live != [] && Step(w, e).state.limits.soft < 0
    ensures !Unlimits(w, e) ==> Bounding(Step(w, e).state)
  {
  }

  lemma ExitUnlimits(s: State, ceiling: int, accepted: bool, original: Limits, failed: bool)
    requires StateInv(s, original, failed) && Bounding(s) && ceiling in s.requests
    ensures
      var r := Exit(s, ceiling, accepted);
      if r.call.Some? && accepted && r.call.value.soft < 0 && Without(s.requests, ceiling) != []
      then r.state.limits.soft < 0 else Bounding(r.state)
  {
  }

  lemma LeaveUnlimits(w: World, e: Event, original: Limits)
    requires e.LeaveBlock? && Enabled(w, e) && Inv(w, original) && Bounding(w.state)
    ensures Unlimits(w, e) ==> Step(w, e).live != [] && Step(w, e).state.limits.soft < 0
    ensures !Unlimits(w, e) ==> Bounding(Step(w, e).state)
  {
    LeaveKeepsRegistered(w.state.requests, w.live, w.nextId, e.guard);
    LastOneOut(w.state.requests, w.live, e.guard);
    ExitUnlimits(w.state, e.guard.ceiling, e.accepted, original, w.loosenFailed);
  }

  /** The last request goes exactly when the last live guard does. */
  lemma LastOneOut(requests: seq<int>, live: seq<Guard>, g: Guard)
    requires g in live && g.ceiling in requests
    requires multiset(Without(requests, g.ceiling)) == multiset(Ceilings(Remove(live, g)))
    ensures Without(requests, g.ceiling) == [] <==> live == [g]
    ensures Remove(live, g) == [] <==> live == [g]
  {
    var rest, others := Without(requests, g.ceiling), Remove(live, g);
    assert |rest| == |multiset(rest)| == |multiset(Ceilings(others))| == |Ceilings(others)|;
    if live[0] == g {
      assert live == [g] + live[1..];
    }
  }

  lemma StepStaysBounding(w: World, e: Event, original: Limits)
    requires Enabled(w, e) && Inv(w, original) && Bounding(w.state)
    ensures Unlimits(w, e) ==> !InForce(Step(w, e))
    ensures !Unlimits(w, e) ==> Bounding(Step(w, e).state)
  {
    StepKeepsInv(w, e, original);
    BoundingIsInForce(Step(w, e), original);
    match e
    case EnterBlock(_, _, _) => EnterUnlimits(w, e, original);
    case LeaveBlock(_, _) => LeaveUnlimits(w, e, original);
    case UsageBecomes(_) =>
  }

  lemma {:induction false} InForceFrom(w: World, events: seq<Event>, original: Limits)
    requires Runnable(w, events) && Inv(w, original) && Bounding(w.state)
    ensures AlwaysInForce(w, events) <==> NeverUnlimits(w, events)
    ensures NeverUnlimits(w, events) ==> Bounding(Run(w, events).state)
    decreases |events|
  {
    BoundingIsInForce(w, original);
    if events != [] {
      StepStaysBounding(w, events[0], original);
      StepKeepsInv(w, events[0], original);
      if !Unlimits(w, events[0]) {
        InForceFrom(Step(w, events[0]), events[1..], original);
      } else {
        assert !AlwaysInForce(Step(w, events[0]), events[1..]);
      }
    }
  }

  /**
   The ceilings of the live guards are in force at every state of a run if and
   only if no accepted call but a last exit's restore asks for a limit that
   bounds nothing. This holds for every original pair, usage, limit and reading.
   */
  lemma CeilingsStayInForceIff(original: Limits, usage: int, events: seq<Event>)
    requires Runnable(Start(original, usage), events)
    ensures AlwaysInForce(Start(original, usage), events) <==> NeverUnlimits(Start(original, usage), events)
  {
    InForceFrom(Start(original, usage), events, original);
  }

  lemma {:induction false} NonNegativeNeverUnlimits(w: World, events: seq<Event>, original: Limits)
    requires Runnable(w, events) && Inv(w, original) && LimitInv(w.state) && NonNegativeRequests(events)
    requires KernelPair(original)
    ensures NeverUnlimits(w, events)
    decreases |events|
  {
    if events != [] {
      assert events[0] in events;
      StepKeepsInv(w, events[0], original);
      StepKeepsLimitInv(w, events[0], original);
      StepStaysBounding(w, events[0], original);
      BoundingIsInForce(Step(w, events[0]), original);
      NonNegativeNeverUnlimits(Step(w, events[0]), events[1..], original);
    }
  }

  /** Unless the last attempt to loosen was refused, the applied limit is the tightest
      live ceiling. When no call unlimits, in particular when no limit or reading is
      negative, it bounds the process by every live ceiling. */
  lemma TightestCeilingInForce(original: Limits, usage: int, events: seq<Event>)
    requires Runnable(Start(original, usage), events)
    ensures
      var start := Start(original, usage);
      var w := Run(start, events);
      && (w.live != [] && !w.loosenFailed ==> w.state.limits.soft == Min(Ceilings(w.live)))
      && (SaneStart(original, usage) && NonNegativeRequests(events) ==> NeverUnlimits(start, events))
      && (NeverUnlimits(start, events) ==> InForce(w))
  {
    var w := Run(Start(original, usage), events);
    RunKeepsInv(Start(original, usage), events, original);
    InForceFrom(Start(original, usage), events, original);
    BoundingIsInForce(w, original);
    if SaneStart(original, usage) && NonNegativeRequests(events) {
      NonNegativeNeverUnlimits(Start(original, usage), events, original);
    }
    if w.live != [] {
      SameElements(w.state.requests, Ceilings(w.live));
      assert w.live[0].ceiling in Ceilings(w.live);
    }
  }

  // ---- Each block's own headroom, and what every entry and exit does ----

  /** The tightest of a new ceiling and those of the live guards. */
  predicate IsTightest(target: int, ceilings: seq<int>) {
    target in ceilings && forall c | c in ceilings :: target <= c
  }

  /**
   What an entry does in any reachable world. It registers the block with its own
   headroom unless usage is unreadable, the environment's soft limit is already
   as tight, or the setrlimit call it needs is refused; then the tightest live
   ceiling is applied, also if an earlier loosening had been refused. Otherwise
   it changes nothing.
   */
  lemma EntryOutcome(
    original: Limits, usage: int, events: seq<Event>, limit: int, reading: Option<int>, accepted: bool,
    own: int, tightest: int)
    requires Runnable(Start(original, usage), events)
    requires reading.Some? ==> IsHeadroom(own, limit, reading.value, original.hard)
    requires IsTightest(tightest, Ceilings(Run(Start(original, usage), events).live) + [own])
    ensures
      var w := Run(Start(original, usage), events);
      var after := Step(w, EnterBlock(limit, reading, accepted));
      var registers :=
        && reading.Some? && !(original.soft != RLIM_INFINITY && original.soft <= own)
        && (accepted || (w.state.saved.Some? && w.state.limits.soft == tightest));
      if registers
      then after.live == w.live + [Guard(w.nextId, own)] && after.state.limits == Limits(tightest, original.hard)
      else after.live == w.live && after.state == w.state
  {
    var w := Run(Start(original, usage), events);
    RunKeepsInv(Start(original, usage), events, original);
    SameElements(w.state.requests, Ceilings(w.live));
    assert forall c :: c in w.state.requests + [own] <==> c in Ceilings(w.live) + [own];
    EntryEffect(w.state, limit, reading, accepted, own, tightest, original, w.loosenFailed);
  }

  lemma EntryEffect(
    s: State, limit: int, reading: Option<int>, accepted: bool, own: int, tightest: int, original: Limits,
    failed: bool)
    requires StateInv(s, original, failed) && IsTightest(tightest, s.requests + [own])
    requires reading.Some? ==> IsHeadroom(own, limit, reading.value, original.hard)
    ensures
      var r := Enter(s, limit, reading, accepted);
      var registers :=
        && reading.Some? && !(original.soft != RLIM_INFINITY && original.soft <= own)
        && (accepted || (s.saved.Some? && s.limits.soft == tightest));
      if registers then r.registered == Some(own) && r.state.limits == Limits(tightest, original.hard)
      else r.registered.None? && r.state == s
  {
    if reading.Some? {
      assert Min(s.requests + [own]) == tightest;
      assert RequestedCeiling(s, limit, reading.value) == own && BaselineSoft(s) == original.soft;
    }
  }

  /** What an exit does in any reachable world: the tightest ceiling left is applied, or
      the original pair when none is left, unless the call this needs is refused. */
  lemma ExitOutcome(original: Limits, usage: int, events: seq<Event>, g: Guard, accepted: bool)
    requires Runnable(Start(original, usage), events) && g in Run(Start(original, usage), events).live
    ensures
      var w := Run(Start(original, usage), events);
      var after := Step(w, LeaveBlock(g, accepted));
      && after.live == Remove(w.live, g)
      && (accepted && after.live == [] ==> after.state.limits == original)
      && (accepted && after.live != [] ==>
            after.state.limits.hard == original.hard && IsTightest(after.state.limits.soft, Ceilings(after.live)))
      && (!accepted ==> after.state.limits == w.state.limits)
  {
    RunKeepsInv(Start(original, usage), events, original);
    ExitEffect(Run(Start(original, usage), events), g, accepted, original);
  }

  lemma ExitEffect(w: World, g: Guard, accepted: bool, original: Limits)
    requires Inv(w, original) && g in w.live
    ensures
      var rest, limits := Remove(w.live, g), Exit(w.state, g.ceiling, accepted).state.limits;
      && (accepted && rest == [] ==> limits == original)
      && (accepted && rest != [] ==> limits.hard == original.hard && IsTightest(limits.soft, Ceilings(rest)))
      && (!accepted ==> limits == w.state.limits)
  {
    LeaveKeepsRegistered(w.state.requests, w.live, w.nextId, g);
    var left := Without(w.state.requests, g.ceiling);
    LastOneOut(w.state.requests, w.live, g);
    ExitLimits(w.state, g.ceiling, accepted, original, w.loosenFailed);
    SameElements(left, Ceilings(Remove(w.live, g)));
    if left != [] {
      assert Min(left) in left;
    }
  }

  lemma ExitLimits(s: State, ceiling: int, accepted: bool, original: Limits, failed: bool)
    requires StateInv(s, original, failed) && ceiling in s.requests
    ensures
      var rest, limits := Without(s.requests, ceiling), Exit(s, ceiling, accepted).state.limits;
      limits ==
      if !accepted then s.limits else if rest == [] then original else Limits(Min(rest), original.hard)
  {
  }

  /** An exit with a ceiling that nobody registered changes nothing. */
  lemma StrangersLeaveNothing(s: State, ceiling: int, accepted: bool)
    requires ceiling !in s.requests
    ensures Exit(s, ceiling, accepted) == ExitResult(s, None)
  {
  }

  /** The entries of a run; a guard's id is its position among them. */
  function Entries(events: seq<Event>): seq<Event> {
    if events == [] then [] else EntryOf(events[0]) + Entries(events[1..])
  }

  function EntryOf(e: Event): seq<Event> {
    if e.EnterBlock? then [e] else []
  }

  /** The ceiling is the headroom that the guard's own entry asked for. */
  ghost predicate IsOwn(g: Guard, entries: seq<Event>, hard: int) {
    && g.id < |entries| && entries[g.id].EnterBlock? && entries[g.id].reading.Some?
    && IsHeadroom(g.ceiling, entries[g.id].limit, entries[g.id].reading.value, hard)
  }

  lemma StepKeepsOwn(w: World, e: Event, later: seq<Event>, entries: seq<Event>, hard: int)
    requires Enabled(w, e) && w.state.limits.hard == hard
    requires w.nextId <= |entries| && entries[w.nextId..] == EntryOf(e) + later
    requires forall g | g in w.live :: IsOwn(g, entries, hard)
    ensures
      var after := Step(w, e);
      && after.nextId <= |entries| && entries[after.nextId..] == later
      && forall g | g in after.live :: IsOwn(g, entries, hard)
  {
    if e.EnterBlock? {
      assert entries[w.nextId..][0] == e && entries[w.nextId..][1..] == later;
    }
  }

  lemma {:induction false} RunKeepsOwn(w: World, events: seq<Event>, entries: seq<Event>, original: Limits)
    requires Runnable(w, events) && Inv(w, original)
    requires w.nextId <= |entries| && entries[w.nextId..] == Entries(events)
    requires forall g | g in w.live :: IsOwn(g, entries, original.hard)
    ensures forall g | g in Run(w, events).live :: IsOwn(g, entries, original.hard)
    decreases |events|
  {
    if events != [] {
      StepKeepsInv(w, events[0], original);
      StepKeepsOwn(w, events[0], Entries(events[1..]), entries, original.hard);
      RunKeepsOwn(Step(w, events[0]), events[1..], entries, original);
    }
  }

  /**
   While blocks are live and no loosening stands refused, the soft limit is the
   least of what the live blocks themselves asked for: a looser block has its
   own headroom, no less, as soon as the tighter ones have left.
   */
  lemma LooserBlocksGetTheirHeadroom(original: Limits, usage: int, events: seq<Event>)
    requires Runnable(Start(original, usage), events)
    ensures
      var w := Run(Start(original, usage), events);
      && (forall g | g in w.live :: IsOwn(g, Entries(events), original.hard))
      && (w.live != [] && !w.loosenFailed ==>
            && (exists g :: g in w.live && g.ceiling == w.state.limits.soft)
            && (forall g | g in w.live :: w.state.limits.soft <= g.ceiling))
  {
    var w := Run(Start(original, usage), events);
    RunKeepsInv(Start(original, usage), events, original);
    RunKeepsOwn(Start(original, usage), events, Entries(events), original);
    SameElements(w.state.requests, Ceilings(w.live));
    if w.live != [] && !w.loosenFailed {
      assert w.live[0].ceiling in Ceilings(w.live);
      CeilingHasGuard(w.live, w.state.limits.soft);
      forall g | g in w.live
        ensures w.state.limits.soft <= g.ceiling
      {
        CeilingListed(w.live, g);
      }
    }
  }

  lemma {:induction false} CeilingHasGuard(live: seq<Guard>, c: int)
    requires c in Ceilings(live)
    ensures exists g :: g in live && g.ceiling == c
  {
    if live[0].ceiling != c {
      CeilingHasGuard(live[1..], c);
    }
  }

  /** When the one stricter block leaves, the looser one has all of its own headroom. */
  lemma LooserBlockIsReleased(original: Limits, usage: int, events: seq<Event>, strict: Guard, loose: Guard)
    requires Runnable(Start(original, usage), events)
    requires Run(Start(original, usage), events).live == [strict, loose]
    ensures
      var after := Step(Run(Start(original, usage), events), LeaveBlock(strict, true));
      && after.live == [loose] && after.state.limits == Limits(loose.ceiling, original.hard)
      && IsOwn(loose, Entries(events), original.hard)
  {
    LooserBlocksGetTheirHeadroom(original, usage, events);
    ExitOutcome(original, usage, events, strict, true);
    assert [strict, loose][1..] == [loose];
    assert Ceilings([loose]) == [loose.ceiling];
  }

  // ---- Legality of the calls ----

  /** A call is legal exactly when it bounds the process, or nothing did originally;
      none changes the hard limit. After steady entries the next call is at or above
      current usage exactly when it is steady too. */
  lemma CallsStayLegal(original: Limits, usage: int, events: seq<Event>, e: Event)
    requires SaneStart(original, usage) && Runnable(Start(original, usage), events)
    requires Enabled(Run(Start(original, usage), events), e)
    ensures
      var w := Run(Start(original, usage), events);
      && (Attempt(w, e).Some? ==>
            && Attempt(w, e).value.hard == original.hard
            && (LegalCall(Attempt(w, e).value, original) <==>
                0 <= Attempt(w, e).value.soft || original == Limits(RLIM_INFINITY, RLIM_INFINITY))
            && (NonNegativeRequests(events + [e]) ==> LegalCall(Attempt(w, e).value, original)))
      && (Steady(Start(original, usage), events) ==> (CallFits(w, e) <==> EntrySteady(w, e)))
  {
    var w := Run(Start(original, usage), events);
    RunKeepsInv(Start(original, usage), events, original);
    CallIsLegalIff(w, e, original);
    if NonNegativeRequests(events + [e]) {
      assert forall x | x in events :: x in events + [e];
      assert e in events + [e];
      RunKeepsLimitInv(Start(original, usage), events, original);
      StepKeepsLimitInv(w, e, original);
    }
    if Steady(Start(original, usage), events) {
      SteadyKeepsKernelInv(Start(original, usage), events, original);
      StepFitsIff(w, e, original);
    }
  }

  /** The original pair, or a soft limit below the original one and within the hard limit. */
  predicate WithinOriginal(call: Limits, original: Limits) {
    || call == original
    || (&& call.hard == original.hard
        && (original.soft == RLIM_INFINITY || call.soft < original.soft)
        && (original.hard == RLIM_INFINITY || call.soft <= original.hard))
  }

  lemma EnterCall(s: State, limit: int, reading: Option<int>, accepted: bool, original: Limits, failed: bool)
    requires StateInv(s, original, failed)
    ensures
      var call := Enter(s, limit, reading, accepted).call;
      call.Some? ==> WithinOriginal(call.value, original)
  {
    if reading.Some? {
      var requests := s.requests + [RequestedCeiling(s, limit, reading.value)];
      assert Min(requests) in requests;
    }
  }

  lemma ExitCall(s: State, ceiling: int, accepted: bool, original: Limits, failed: bool)
    requires StateInv(s, original, failed)
    ensures
      var call := Exit(s, ceiling, accepted).call;
      call.Some? ==> WithinOriginal(call.value, original)
  {
  }

  lemma CallIsLegalIff(w: World, e: Event, original: Limits)
    requires Enabled(w, e) && Inv(w, original) && KernelPair(original)
    ensures
      Attempt(w, e).Some? ==>
        && Attempt(w, e).value.hard == original.hard
        && (LegalCall(Attempt(w, e).value, original) <==>
            0 <= Attempt(w, e).value.soft || original == Limits(RLIM_INFINITY, RLIM_INFINITY))
  {
    match e
    case EnterBlock(limit, reading, accepted) =>
      EnterCall(w.state, limit, reading, accepted, original, w.loosenFailed);
    case LeaveBlock(g, accepted) =>
      ExitCall(w.state, g.ceiling, accepted, original, w.loosenFailed);
    case UsageBecomes(_) =>
  }

  /**
   No setrlimit call of a run is below current usage, and none on entry is
   unlimited, if and only if at every entry that makes a call usage has grown,
   since it was read, by at most the requested limit. This covers every limit
   and reading, negative ones too.
   */
  lemma CallsRespectUsageIff(original: Limits, usage: int, events: seq<Event>)
    requires SaneStart(original, usage) && Runnable(Start(original, usage), events)
    ensures NeverBelowUsage(Start(original, usage), events) <==> Steady(Start(original, usage), events)
  {
    NeverBelowUsageFrom(Start(original, usage), events, original);
  }

  /** Usage that outgrows the headroom between the reading and the call: the process
      ends up with a soft limit below what it already uses. */
  lemma GrowthAfterReadingUndercuts()
    ensures
      var original := Limits(RLIM_INFINITY, RLIM_INFINITY);
      var events := [UsageBecomes(200), EnterBlock(100, Some(50), true)];
      && Runnable(Start(original, 50), events)
      && Run(Start(original, 50), events).state.limits.soft == 150
      && Run(Start(original, 50), events).state.usage == 200
  {
    var start := Start(Limits(RLIM_INFINITY, RLIM_INFINITY), 50);
    var e0, e1 := UsageBecomes(200), EnterBlock(100, Some(50), true);
    assert [e0, e1][1..] == [e1] && [e1][1..] == [];
    assert [] + [150] == [150] && Step(Step(start, e0), e1).state.requests == [150];
  }

  /** A negative limit can reach RLIM_INFINITY and lift a live guard's ceiling. */
  lemma NegativeLimitLiftsTheCeiling()
    ensures
      var events := [EnterBlock(100, Some(50), true), EnterBlock(-51, Some(50), true)];
      var start := Start(Limits(RLIM_INFINITY, RLIM_INFINITY), 50);
      && Runnable(start, events)
      && Guard(0, 150) in Run(start, events).live
      && Run(start, events).state.limits.soft == RLIM_INFINITY
  {
    var start := Start(Limits(RLIM_INFINITY, RLIM_INFINITY), 50);
    var e0, e1 := EnterBlock(100, Some(50), true), EnterBlock(-51, Some(50), true);
    var w1 := Step(start, e0);
    assert w1.state.requests == [150] && w1.live == [Guard(0, 150)];
    assert Min([150, -1]) == -1;
    var w2 := Step(w1, e1);
    assert w2.state.requests == [150, -1];
    assert Guard(0, 150) in w2.live;
    assert [e0, e1][1..] == [e1] && [e1][1..] == [];
  }

  // ---- A block from entry to exit ----

  lemma {:induction false} GuardStaysLive(w: World, events: seq<Event>, g: Guard, original: Limits)
    requires Runnable(w, events) && Inv(w, original) && g in w.live
    requires forall e | e in events && e.LeaveBlock? :: e.guard != g
    ensures g in Run(w, events).live
    decreases |events|
  {
    if events != [] {
      assert events[0] in events;
      StepKeepsInv(w, events[0], original);
      if events[0].LeaveBlock? {
        RemoveKeepsDistinct(w.live, events[0].guard, w.nextId);
      }
      GuardStaysLive(Step(w, events[0]), events[1..], g, original);
    }
  }

  /** A block that did register, or that the environment already bounds, is within its headroom. */
  lemma BoundAfterEntry(w: World, enter: Event, now: World, original: Limits)
    requires Inv(w, original) && enter.EnterBlock? && enter.reading.Some?
    requires enter.accepted || Attempt(w, enter).None?
    requires Inv(now, original) && Bounding(now.state) && RLIM_INFINITY <= original.soft
    requires
      var ceiling := RequestedCeiling(w.state, enter.limit, enter.reading.value);
      EnvironmentIsTighter(w.state, ceiling) || Guard(w.nextId, ceiling) in now.live
    ensures 0 <= now.state.limits.soft <= enter.reading.value + enter.limit
  {
    var ceiling := RequestedCeiling(w.state, enter.limit, enter.reading.value);
    if !EnvironmentIsTighter(w.state, ceiling) {
      CeilingListed(now.live, Guard(w.nextId, ceiling));
      SameElements(now.state.requests, Ceilings(now.live));
    }
  }

  /** Such a block's guard is live after entry, until its own exit. */
  lemma {:induction false} GuardOutlastsOthers(w: World, enter: Event, during: seq<Event>, original: Limits)
    requires Inv(w, original) && Runnable(w, [enter] + during)
    requires enter.EnterBlock? && enter.reading.Some?
    requires enter.accepted || Attempt(w, enter).None?
    requires !EnvironmentIsTighter(w.state, RequestedCeiling(w.state, enter.limit, enter.reading.value))
    requires forall e | e in during && e.LeaveBlock? :: e.guard.id != w.nextId
    ensures
      var ceiling := RequestedCeiling(w.state, enter.limit, enter.reading.value);
      Guard(w.nextId, ceiling) in Run(w, [enter] + during).live
  {
    assert ([enter] + during)[0] == enter && ([enter] + during)[1..] == during;
    StepKeepsInv(w, enter, original);
    var g := Guard(w.nextId, RequestedCeiling(w.state, enter.limit, enter.reading.value));
    assert Step(w, enter).live == w.live + [g];
    GuardStaysLive(Step(w, enter), during, g, original);
  }

  /**
   From entry until its own exit, whatever other blocks do and whichever of
   their setrlimit calls fail, a block is held within the headroom it asked for
   above its usage as read on entry. This covers a block that registered and one the
   environment's own limit made redundant; only an unreadable usage, a refused
   setrlimit, or a call that unlimits leaves a block unbounded.
   */
  lemma WholeBlockIsBounded(
    original: Limits, usage: int, before: seq<Event>, enter: Event, during: seq<Event>)
    requires Runnable(Start(original, usage), before)
    requires Runnable(Run(Start(original, usage), before), [enter] + during)
    requires KernelPair(original) && NeverUnlimits(Start(original, usage), before)
    requires NeverUnlimits(Run(Start(original, usage), before), [enter] + during)
    requires enter.EnterBlock? && enter.reading.Some?
    requires
      var w := Run(Start(original, usage), before);
      && (enter.accepted || Attempt(w, enter).None?)
      && (forall e | e in during && e.LeaveBlock? :: e.guard.id != w.nextId)
    ensures
      var atEntry := Run(Start(original, usage), before);
      var now := Run(atEntry, [enter] + during);
      0 <= now.state.limits.soft <= enter.reading.value + enter.limit
  {
    var start := Start(original, usage);
    var w := Run(start, before);
    RunKeepsInv(start, before, original);
    InForceFrom(start, before, original);
    RunKeepsInv(w, [enter] + during, original);
    InForceFrom(w, [enter] + during, original);
    if !EnvironmentIsTighter(w.state, RequestedCeiling(w.state, enter.limit, enter.reading.value)) {
      GuardOutlastsOthers(w, enter, during, original);
    }
    BoundAfterEntry(w, enter, Run(w, [enter] + during), original);
  }

  // ---- Restoring, and recovering from a failed restore ----

  /** When the last block leaves, an accepted setrlimit brings back the original pair
      exactly; a refused one changes nothing and keeps the pair for a later attempt. */
  lemma LastExitRestores(original: Limits, usage: int, events: seq<Event>, g: Guard, accepted: bool)
    requires Runnable(Start(original, usage), events)
    requires Run(Start(original, usage), events).live == [g]
    ensures
      var before := Run(Start(original, usage), events);
      var after := Step(before, LeaveBlock(g, accepted));
      && after.live == []
      && after.state.requests == []
      && (accepted ==> after.state.limits == original && after.state.saved.None?)
      && (!accepted ==> after.state.limits == before.state.limits && after.state.saved == Some(original))
  {
    var w := Run(Start(original, usage), events);
    RunKeepsInv(Start(original, usage), events, original);
    LeaveKeepsRegistered(w.state.requests, w.live, w.nextId, g);
    var rest := Without(w.state.requests, g.ceiling);
    assert multiset(rest) == multiset{};
    assert |rest| == |multiset(rest)|;
  }

  lemma {:induction false} RemoveLast(live: seq<Guard>, g: Guard)
    requires g !in live
    ensures Remove(live + [g], g) == live
  {
    if live != [] {
      assert (live + [g])[1..] == live[1..] + [g];
      RemoveLast(live[1..], g);
      assert live == [live[0]] + live[1..];
    }
  }

  lemma MinOfSame(a: seq<int>, b: seq<int>)
    requires a != [] && b != [] && multiset(a) == multiset(b)
    ensures Min(a) == Min(b)
  {
    SameElements(a, b);
  }

  lemma ExitUndoesEnter(s: State, limit: int, reading: int, original: Limits)
    requires StateInv(s, original, false) && (s.requests != [] || s.saved.None?)
    requires Enter(s, limit, Some(reading), true).registered.Some?
    ensures
      var entered := Enter(s, limit, Some(reading), true);
      var after := Exit(entered.state, entered.registered.value, true).state;
      && after.limits == s.limits && after.saved == s.saved && after.applied == s.applied
      && multiset(after.requests) == multiset(s.requests)
  {
    var ceiling := RequestedCeiling(s, limit, reading);
    var entered := Enter(s, limit, Some(reading), true).state;
    EnterKeepsStateInv(s, limit, Some(reading), true, original, false);
    LastRequestGoes(s.requests, ceiling);
    assert entered.requests == s.requests + [ceiling] && entered.saved == Some(original);
    if s.requests == [] {
      ExitRestores(entered, ceiling, original);
    } else {
      ExitLoosens(entered, s.requests, ceiling, original);
    }
  }

  lemma ExitLoosens(s: State, others: seq<int>, ceiling: int, original: Limits)
    requires StateInv(s, original, false) && others != [] && s.requests == others + [ceiling]
    ensures
      var after := Exit(s, ceiling, true).state;
      && after.limits == Limits(Min(others), original.hard) && after.saved == Some(original)
      && after.applied == Some(Min(others)) && multiset(after.requests) == multiset(others)
  {
    LastRequestGoes(others, ceiling);
    var rest, target := Without(s.requests, ceiling), Min(others);
    var after := Exit(s, ceiling, true).state;
    if s.applied == Some(target) {
      assert after == s.(requests := rest);
    } else {
      assert after == s.(requests := rest, applied := Some(target), limits := Limits(target, original.hard));
    }
  }

  lemma LastRequestGoes(requests: seq<int>, ceiling: int)
    ensures
      var rest := Without(requests + [ceiling], ceiling);
      && multiset(rest) == multiset(requests) && (rest == [] <==> requests == [])
      && (requests != [] ==> Min(rest) == Min(requests))
  {
    var rest := Without(requests + [ceiling], ceiling);
    assert multiset(rest) == multiset(requests);
    assert |rest| == |multiset(rest)| && |requests| == |multiset(requests)|;
    if requests != [] {
      MinOfSame(rest, requests);
    }
  }

  lemma ExitRestores(s: State, ceiling: int, original: Limits)
    requires StateInv(s, original, false) && s.requests == [ceiling]
    ensures
      var after := Exit(s, ceiling, true).state;
      after.requests == [] && after.limits == original && after.saved.None? && after.applied.None?
  {
    LastRequestGoes([], ceiling);
    assert [] + [ceiling] == [ceiling];
  }

  /** Unless a refusal left the process capped, one whole block leaves everything as it found it. */
  lemma BlockLeavesNoTrace(w: World, limit: int, reading: int, original: Limits)
    requires Inv(w, original) && !w.loosenFailed && (w.state.requests != [] || w.state.saved.None?)
    requires Enter(w.state, limit, Some(reading), true).registered.Some?
    ensures
      var entered := Step(w, EnterBlock(limit, Some(reading), true));
      var g := Guard(w.nextId, Enter(w.state, limit, Some(reading), true).registered.value);
      && g in entered.live
      && var after := Step(entered, LeaveBlock(g, true));
         && after.live == w.live && multiset(after.state.requests) == multiset(w.state.requests)
         && after.state.limits == w.state.limits && after.state.saved == w.state.saved
         && after.state.applied == w.state.applied && !after.loosenFailed
  {
    ExitUndoesEnter(w.state, limit, reading, original);
    RemoveLast(w.live, Guard(w.nextId, Enter(w.state, limit, Some(reading), true).registered.value));
  }

  /** One further block whose setrlimit calls both succeed. */
  function NextBlock(w: World, limit: int, reading: Option<int>): World {
    var entered := Step(w, EnterBlock(limit, reading, true));
    if |entered.live| == |w.live| then entered
    else Step(entered, LeaveBlock(entered.live[|w.live|], true))
  }

  lemma RegisteringBlockRecovers(w: World, limit: int, reading: int, original: Limits)
    requires Inv(w, original) && w.live == [] && w.state.requests == [] && w.state.saved.Some?
    requires !EnvironmentIsTighter(w.state, RequestedCeiling(w.state, limit, reading))
    ensures NextBlock(w, limit, Some(reading)).state.limits == original
  {
    var ceiling := RequestedCeiling(w.state, limit, reading);
    assert w.state.requests + [ceiling] == [ceiling];
    var entered := Step(w, EnterBlock(limit, Some(reading), true));
    assert entered.live == [Guard(w.nextId, ceiling)];
    assert entered.state.requests == [ceiling] && entered.state.saved == Some(original);
  }

  /**
   After a restore was refused, the next block's exit retries it exactly when
   that block registers a ceiling: usage is readable and the environment's own
   limit is not already as tight. Otherwise the limits stay what they are, and
   unless a call had unlimited the process they are not the original ones.
   */
  lemma NextBlockRecoversIff(original: Limits, usage: int, events: seq<Event>, limit: int, reading: Option<int>)
    requires Runnable(Start(original, usage), events)
    requires
      var w := Run(Start(original, usage), events);
      w.live == [] && w.state.saved.Some?
    ensures
      var w := Run(Start(original, usage), events);
      var registers :=
        reading.Some? && !EnvironmentIsTighter(w.state, RequestedCeiling(w.state, limit, reading.value));
      && NextBlock(w, limit, reading).state.limits == (if registers then original else w.state.limits)
      && (KernelPair(original) && NeverUnlimits(Start(original, usage), events) ==> w.state.limits != original)
  {
    var w := Run(Start(original, usage), events);
    RunKeepsInv(Start(original, usage), events, original);
    InForceFrom(Start(original, usage), events, original);
    assert |w.state.requests| == |multiset(w.state.requests)|;
    if reading.Some? && !EnvironmentIsTighter(w.state, RequestedCeiling(w.state, limit, reading.value)) {
      RegisteringBlockRecovers(w, limit, reading.value, original);
    }
  }

  /** A refused restore followed by a block the environment makes redundant: the
      process keeps the first block's ceiling though no block is live. */
  lemma NextBlockMayNotRecover()
    ensures
      var original := Limits(1000, RLIM_INFINITY);
      var start := Start(original, 100);
      var events := [
        EnterBlock(100, Some(100), true), LeaveBlock(Guard(0, 200), false), EnterBlock(900, Some(100), true)];
      && Runnable(start, events)
      && Run(start, events).live == []
      && Run(start, events).state.limits == Limits(200, RLIM_INFINITY)
  {
    var start := Start(Limits(1000, RLIM_INFINITY), 100);
    var e0, e1 := EnterBlock(100, Some(100), true), LeaveBlock(Guard(0, 200), false);
    var e2 := EnterBlock(900, Some(100), true);
    var w1 := Step(start, e0);
    assert w1.state.requests == [200] && w1.live == [Guard(0, 200)];
    var w2 := Step(w1, e1);
    assert w2.live == [] && w2.state.limits == Limits(200, RLIM_INFINITY);
    var w3 := Step(w2, e2);
    assert w3 == w2.(nextId := 2);
    assert [e0, e1, e2][1..] == [e1, e2] && [e1, e2][1..] == [e2] && [e2][1..] == [];
  }
}
