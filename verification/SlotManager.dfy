/**
 The per-provider counting semaphore (internal/health/health.go): a mutex, counters, and one channel per provider that
 is closed and replaced whenever a waiter may have to look again.

 `Manager` is the guarded state and its critical sections. `System` adds any number of callers; every critical section
 is one step because it runs under the mutex, and steps of different callers interleave freely.
 */
module SlotManager {
  // ----- the guarded state, as a value. Channels are numbered; a closed channel stays closed.

  type Channel = nat

  datatype Slots = Slots(
    provCap: map<string, int>, inFlight: map<string, int>, changed: map<string, Channel>, closed: set<Channel>, made: nat)
  {
    function Cap(p: string): int {
      if p in provCap then provCap[p] else 0
    }

    function InFlight(p: string): int {
      if p in inFlight then inFlight[p] else 0
    }

    predicate Full(p: string) {
      Cap(p) > 0 && InFlight(p) >= Cap(p)
    }

    function WithChannel(p: string): Slots {
      if p in changed then this else this.(changed := changed[p := made], made := made + 1)
    }

    // close(ch), which panics on a closed channel, and its replacement.
    function Notified(p: string): (r: Slots)
      ensures p in r.changed
    {
      var s := WithChannel(p);
      s.(closed := s.closed + {s.changed[p]}, changed := s.changed[p := s.made], made := s.made + 1)
    }

    function Taken(p: string): Slots {
      this.(inFlight := inFlight[p := InFlight(p) + 1])
    }

    function Released(p: string): Slots {
      if InFlight(p) > 0 then this.(inFlight := inFlight[p := InFlight(p) - 1]).Notified(p) else this
    }

    function Capped(p: string, n: int): Slots {
      this.(provCap := provCap[p := n]).Notified(p)
    }

    // Every channel in use was made, is open, and belongs to one provider.
    ghost predicate Valid() {
      && (forall p :: p in changed ==> changed[p] < made && changed[p] !in closed)
      && (forall p, q :: p in changed && q in changed && changed[p] == changed[q] ==> p == q)
      && (forall ch :: ch in closed ==> ch < made)
    }
  }

  datatype Decision = Acquired | Wait(channel: Channel) | Refused

  class Manager {
    var provCap: map<string, int>
    var inFlight: map<string, int>
    var changed: map<string, Channel>
    var closed: set<Channel>
    var made: nat

    constructor ()
      ensures View() == Slots(map[], map[], map[], {}, 0)
    {
      provCap, inFlight, changed, closed, made := map[], map[], map[], {}, 0;
    }

    function View(): Slots
      reads this
    {
      Slots(provCap, inFlight, changed, closed, made)
    }

    method Close(ch: Channel)
      requires ch !in closed
      modifies `closed
      ensures closed == old(closed) + {ch}
    {
      closed := closed + {ch};
    }

    method ChangeChannel(p: string) returns (ch: Channel)
      requires View().Valid()
      modifies `changed, `made
      ensures View() == old(View()).WithChannel(p) && View().Valid()
      ensures p in changed && ch == changed[p]
    {
      if p !in changed {
        changed := changed[p := made];
        made := made + 1;
      }
      ch := changed[p];
    }

    method Notify(p: string)
      requires View().Valid()
      modifies `changed, `made, `closed
      ensures View() == old(View()).Notified(p) && View().Valid()
    {
      var ch := ChangeChannel(p);
      Close(ch);
      changed := changed[p := made];
      made := made + 1;
    }

    method SetProviderCap(p: string, n: int)
      requires View().Valid()
      modifies this
      ensures View() == old(View()).Capped(p, n) && View().Valid()
    {
      provCap := provCap[p := n];
      Notify(p);
    }

    // One turn of the loop in AcquireSlot, up to the point where it blocks or returns.
    method TryAcquire(p: string, contextDone: bool) returns (d: Decision)
      requires View().Valid()
      modifies this
      ensures View().Valid()
      ensures d == Refused <==> contextDone
      ensures contextDone ==> d != Acquired
      ensures !contextDone ==>
        var held := if p in old(inFlight) then old(inFlight)[p] else 0;
        d == Acquired <==> p !in old(provCap) || old(provCap)[p] <= 0 || held < old(provCap)[p]
      ensures d.Wait? ==> View() == old(View()).WithChannel(p) && p in changed && d.channel == changed[p]
      ensures d == Acquired ==> View() == old(View()).Taken(p)
      ensures d == Refused ==> View() == old(View())
    {
      if contextDone {
        return Refused;
      }
      var cap := View().Cap(p);
      if cap <= 0 || View().InFlight(p) < cap {
        inFlight := inFlight[p := View().InFlight(p) + 1];
        return Acquired;
      }
      var ch := ChangeChannel(p);
      d := Wait(ch);
    }

    method ReleaseSlot(p: string)
      requires View().Valid()
      modifies this
      ensures View() == old(View()).Released(p) && View().Valid()
    {
      if View().InFlight(p) > 0 {
        inFlight := inFlight[p := View().InFlight(p) - 1];
        Notify(p);
      }
    }
  }

  // ----- all callers together

  // One call of AcquireSlot. Done: refused, or its slot already released; releasing again does nothing.
  datatype Caller = Idle | Trying(provider: string) | Waiting(provider: string, channel: Channel) | Holding(provider: string) | Done

  datatype System = System(slots: Slots, callers: map<nat, Caller>) {
    function At(t: nat): Caller {
      if t in callers then callers[t] else Idle
    }

    function With(slots': Slots, t: nat, c: Caller): System {
      System(slots', callers[t := c])
    }
  }

  // Enter is the critical section; contextDone is what it finds. Wake is the receive on a closed channel.
  datatype Label =
    | Call(t: nat, provider: string)
    | Enter(t: nat, contextDone: bool)
    | Wake(t: nat)
    | Cancel(t: nat)
    | Release(t: nat)
    | SetCap(provider: string, n: int)

  const INITIAL := System(Slots(map[], map[], map[], {}, 0), map[])

  // A label that is not enabled changes nothing.
  function Step(s: System, l: Label): System {
    match l
    case Call(t, p) => if s.At(t).Idle? then s.With(s.slots, t, Trying(p)) else s
    case Enter(t, contextDone) =>
      if !s.At(t).Trying? then s
      else
        var p := s.At(t).provider;
        if contextDone then s.With(s.slots, t, Done)
        else if !s.slots.Full(p) then s.With(s.slots.Taken(p), t, Holding(p))
        else s.With(s.slots.WithChannel(p), t, Waiting(p, s.slots.WithChannel(p).changed[p]))
    case Wake(t) =>
      if s.At(t).Waiting? && s.At(t).channel in s.slots.closed then s.With(s.slots, t, Trying(s.At(t).provider)) else s
    case Cancel(t) => if s.At(t).Waiting? then s.With(s.slots, t, Done) else s
    case Release(t) => if s.At(t).Holding? then s.With(s.slots.Released(s.At(t).provider), t, Done) else s
    case SetCap(p, n) => System(s.slots.Capped(p, n), s.callers)
  }

  function Run(s: System, labels: seq<Label>): System
    decreases |labels|
  {
    if labels == [] then s else Step(Run(s, labels[..|labels| - 1]), labels[|labels| - 1])
  }

  function Holders(s: System, p: string): set<nat> {
    set t | t in s.callers && s.callers[t] == Holding(p)
  }

  // A wait on this channel is over, or is rightful: the channel is the one the next change closes, and no slot is free.
  ghost predicate Blocks(s: Slots, p: string, ch: Channel) {
    ch in s.closed || (p in s.changed && s.changed[p] == ch && s.Full(p))
  }

  ghost predicate RightlyBlocked(s: System, t: nat) {
    s.At(t).Waiting? ==> Blocks(s.slots, s.At(t).provider, s.At(t).channel)
  }

  ghost predicate Inv(s: System) {
    && s.slots.Valid()
    && (forall p :: s.slots.InFlight(p) == |Holders(s, p)|)
    && (forall t :: RightlyBlocked(s, t))
  }

  // ----- each critical section, for any provider p and channel ch

  lemma TakenKeeps(s: Slots, q: string, p: string, ch: Channel)
    requires s.Valid() && !s.Full(q)
    ensures s.Taken(q).Valid() && (Blocks(s, p, ch) ==> Blocks(s.Taken(q), p, ch))
    ensures s.Taken(q).InFlight(p) == s.InFlight(p) + if p == q then 1 else 0
  {
  }

  lemma WithChannelKeeps(s: Slots, q: string, p: string, ch: Channel)
    requires s.Valid()
    ensures s.WithChannel(q).Valid() && (Blocks(s, p, ch) ==> Blocks(s.WithChannel(q), p, ch))
  {
  }

  lemma NotifiedIsValid(s: Slots, q: string)
    requires s.Valid()
    ensures s.Notified(q).Valid()
  {
    var r, mid := s.Notified(q), s.WithChannel(q);
    assert mid.Valid();
    forall p | p in r.changed && p != q
      ensures p in mid.changed && r.changed[p] == mid.changed[p] != mid.changed[q]
    {
    }
  }

  lemma NotifiedKeeps(s: Slots, q: string, p: string, ch: Channel)
    requires s.Valid()
    ensures p != q && Blocks(s, p, ch) ==> Blocks(s.Notified(q), p, ch)
    ensures ch in s.closed || (q in s.changed && s.changed[q] == ch) ==> ch in s.Notified(q).closed
  {
  }

  lemma ReleasedKeeps(s: Slots, q: string, p: string, ch: Channel)
    requires s.Valid()
    ensures s.Released(q).Valid() && (Blocks(s, p, ch) ==> Blocks(s.Released(q), p, ch))
    ensures s.Released(q).InFlight(p) == s.InFlight(p) - if p == q && s.InFlight(p) > 0 then 1 else 0
  {
    if s.InFlight(q) > 0 {
      NotifiedIsValid(s.(inFlight := s.inFlight[q := s.InFlight(q) - 1]), q);
      NotifiedKeeps(s.(inFlight := s.inFlight[q := s.InFlight(q) - 1]), q, p, ch);
    }
  }

  lemma CappedKeeps(s: Slots, q: string, n: int, p: string, ch: Channel)
    requires s.Valid()
    ensures s.Capped(q, n).Valid() && (Blocks(s, p, ch) ==> Blocks(s.Capped(q, n), p, ch))
    ensures s.Capped(q, n).InFlight(p) == s.InFlight(p)
  {
    NotifiedIsValid(s.(provCap := s.provCap[q := n]), q);
    NotifiedKeeps(s.(provCap := s.provCap[q := n]), q, p, ch);
  }

  // ----- every reachable state

  function Holds(c: Caller, p: string): int {
    if c == Holding(p) then 1 else 0
  }

  lemma HoldersAfter(s: System, slots': Slots, t: nat, c: Caller, p: string)
    ensures |Holders(s.With(slots', t, c), p)| == |Holders(s, p)| - Holds(s.At(t), p) + Holds(c, p)
  {
    var before, after := Holders(s, p), Holders(s.With(slots', t, c), p);
    assert before - {t} == after - {t};
    assert t in before <==> s.At(t) == Holding(p);
    assert t in after <==> c == Holding(p);
    WithoutElement(before, t);
    WithoutElement(after, t);
  }

  lemma WithoutElement(a: set<nat>, t: nat)
    ensures |a - {t}| == |a| - if t in a then 1 else 0
  {
    if t !in a {
      assert a - {t} == a;
    }
  }

  // A step of caller t keeps the invariant when it accounts for t's slot and leaves every waiter rightly blocked.
  lemma MoveKeepsInv(s: System, slots': Slots, t: nat, c: Caller)
    requires Inv(s) && slots'.Valid()
    requires forall p :: slots'.InFlight(p) == s.slots.InFlight(p) - Holds(s.At(t), p) + Holds(c, p)
    requires forall p, ch :: Blocks(s.slots, p, ch) ==> Blocks(slots', p, ch)
    requires c.Waiting? ==> Blocks(slots', c.provider, c.channel)
    ensures Inv(s.With(slots', t, c))
  {
    forall p ensures slots'.InFlight(p) == |Holders(s.With(slots', t, c), p)| {
      HoldersAfter(s, slots', t, c, p);
    }
    forall u ensures RightlyBlocked(s.With(slots', t, c), u) {
      assert RightlyBlocked(s, u);
    }
  }

  lemma EnterKeepsInv(s: System, t: nat)
    requires Inv(s) && s.At(t).Trying?
    ensures Inv(Step(s, Enter(t, false)))
  {
    var q := s.At(t).provider;
    if !s.slots.Full(q) {
      forall p, ch
        ensures s.slots.Taken(q).Valid() && (Blocks(s.slots, p, ch) ==> Blocks(s.slots.Taken(q), p, ch))
        ensures s.slots.Taken(q).InFlight(p) == s.slots.InFlight(p) + if p == q then 1 else 0
      {
        TakenKeeps(s.slots, q, p, ch);
      }
      MoveKeepsInv(s, s.slots.Taken(q), t, Holding(q));
    } else {
      forall p, ch
        ensures s.slots.WithChannel(q).Valid() && (Blocks(s.slots, p, ch) ==> Blocks(s.slots.WithChannel(q), p, ch))
      {
        WithChannelKeeps(s.slots, q, p, ch);
      }
      MoveKeepsInv(s, s.slots.WithChannel(q), t, Waiting(q, s.slots.WithChannel(q).changed[q]));
    }
  }

  lemma ReleaseKeepsInv(s: System, t: nat)
    requires Inv(s) && s.At(t).Holding?
    ensures Inv(Step(s, Release(t)))
  {
    var q := s.At(t).provider;
    assert t in Holders(s, q);
    assert s.slots.InFlight(q) == |Holders(s, q)| > 0;
    forall p, ch
      ensures s.slots.Released(q).Valid() && (Blocks(s.slots, p, ch) ==> Blocks(s.slots.Released(q), p, ch))
      ensures s.slots.Released(q).InFlight(p) == s.slots.InFlight(p) - if p == q then 1 else 0
    {
      ReleasedKeeps(s.slots, q, p, ch);
    }
    MoveKeepsInv(s, s.slots.Released(q), t, Done);
  }

  lemma SlotsKeepInv(s: System, slots': Slots)
    requires Inv(s) && slots'.Valid()
    requires forall p :: slots'.InFlight(p) == s.slots.InFlight(p)
    requires forall p, ch :: Blocks(s.slots, p, ch) ==> Blocks(slots', p, ch)
    ensures Inv(System(slots', s.callers))
  {
    var s' := System(slots', s.callers);
    forall p ensures Holders(s', p) == Holders(s, p) {
    }
    forall u ensures RightlyBlocked(s', u) {
      assert RightlyBlocked(s, u);
    }
  }

  lemma CapKeepsInv(s: System, q: string, n: int)
    requires Inv(s)
    ensures Inv(Step(s, SetCap(q, n)))
  {
    forall p, ch
      ensures s.slots.Capped(q, n).Valid() && (Blocks(s.slots, p, ch) ==> Blocks(s.slots.Capped(q, n), p, ch))
      ensures s.slots.Capped(q, n).InFlight(p) == s.slots.InFlight(p)
    {
      CappedKeeps(s.slots, q, n, p, ch);
    }
    SlotsKeepInv(s, s.slots.Capped(q, n));
  }

  lemma StepKeepsInv(s: System, l: Label)
    requires Inv(s)
    ensures Inv(Step(s, l))
  {
    match l {
      case Call(t, p) => if s.At(t).Idle? { MoveKeepsInv(s, s.slots, t, Trying(p)); }
      case Wake(t) => if s.At(t).Waiting? { MoveKeepsInv(s, s.slots, t, Trying(s.At(t).provider)); }
      case Cancel(t) => if s.At(t).Waiting? { MoveKeepsInv(s, s.slots, t, Done); }
      case Enter(t, contextDone) =>
        if s.At(t).Trying? && contextDone { MoveKeepsInv(s, s.slots, t, Done); }
        if s.At(t).Trying? && !contextDone { EnterKeepsInv(s, t); }
      case Release(t) => if s.At(t).Holding? { ReleaseKeepsInv(s, t); }
      case SetCap(p, n) => CapKeepsInv(s, p, n);
    }
  }

  lemma {:induction false} ReachableIsInv(labels: seq<Label>)
    ensures Inv(Run(INITIAL, labels))
  {
    if labels != [] {
      ReachableIsInv(labels[..|labels| - 1]);
      StepKeepsInv(Run(INITIAL, labels[..|labels| - 1]), labels[|labels| - 1]);
    }
  }

  // In every reachable state no wakeup is lost and every slot is accounted for: a waiter's channel is closed, or it is the
  // one that the next change closes, and as many callers as the provider's cap allows hold a slot.
  lemma NoLostWakeup(labels: seq<Label>)
    ensures Inv(Run(INITIAL, labels))
    ensures var s := Run(INITIAL, labels);
      forall t :: s.At(t).Waiting? && s.At(t).channel !in s.slots.closed ==>
        var p := s.At(t).provider;
        && p in s.slots.changed && s.slots.changed[p] == s.At(t).channel
        && p in s.slots.provCap && |Holders(s, p)| >= s.slots.provCap[p] > 0
  {
    ReachableIsInv(labels);
    var s := Run(INITIAL, labels);
    forall t | s.At(t).Waiting? && s.At(t).channel !in s.slots.closed
      ensures var p := s.At(t).provider;
        && p in s.slots.changed && s.slots.changed[p] == s.At(t).channel
        && p in s.slots.provCap && |Holders(s, p)| >= s.slots.provCap[p] > 0
    {
      assert RightlyBlocked(s, t);
    }
  }

  // A caller that looks gets a slot exactly when the provider has no cap or fewer callers than it allows hold one.
  lemma AcquiresBelowCap(s: System, t: nat)
    requires Inv(s) && s.At(t).Trying?
    ensures var p := s.At(t).provider;
      Step(s, Enter(t, false)).At(t) == Holding(p) <==>
        p !in s.slots.provCap || s.slots.provCap[p] <= 0 || |Holders(s, p)| < s.slots.provCap[p]
  {
    assert s.slots.InFlight(s.At(t).provider) == |Holders(s, s.At(t).provider)|;
  }

  // The labels of callers 0 to n - 1, each coming in and looking once.
  function Arrivals(p: string, n: nat): seq<Label> {
    if n == 0 then [] else Arrivals(p, n - 1) + [Call(n - 1, p), Enter(n - 1, false)]
  }

  lemma Arrives(s: System, p: string, t: nat)
    requires Inv(s) && s.At(t).Idle? && p in s.slots.provCap && |Holders(s, p)| < s.slots.provCap[p]
    ensures var s' := Step(Step(s, Call(t, p)), Enter(t, false));
      && Inv(s') && s'.At(t) == Holding(p) && |Holders(s', p)| == |Holders(s, p)| + 1
      && s'.slots.provCap == s.slots.provCap && forall u :: u != t ==> s'.At(u) == s.At(u)
  {
    var called := Step(s, Call(t, p));
    StepKeepsInv(s, Call(t, p));
    HoldersAfter(s, s.slots, t, Trying(p), p);
    AcquiresBelowCap(called, t);
    StepKeepsInv(called, Enter(t, false));
    HoldersAfter(called, called.slots.Taken(p), t, Holding(p), p);
  }

  // Under a cap of n, n callers and no others all get a slot at once.
  lemma {:induction false} AllAcquire(p: string, n: nat, k: nat)
    requires k <= n && n > 0
    ensures var s := Run(INITIAL, [SetCap(p, n)] + Arrivals(p, k));
      && Inv(s) && p in s.slots.provCap && s.slots.provCap[p] == n && |Holders(s, p)| == k
      && forall t: nat :: s.At(t) == if t < k then Holding(p) else Idle
  {
    if k == 0 {
      assert [SetCap(p, n)] + Arrivals(p, 0) == [SetCap(p, n)];
      StartsEmpty(p, n);
    } else {
      var before := [SetCap(p, n)] + Arrivals(p, k - 1);
      AllAcquire(p, n, k - 1);
      Arrives(Run(INITIAL, before), p, k - 1);
      assert [SetCap(p, n)] + Arrivals(p, k) == before + [Call(k - 1, p)] + [Enter(k - 1, false)];
      RunAppend(before, Call(k - 1, p));
      RunAppend(before + [Call(k - 1, p)], Enter(k - 1, false));
    }
  }

  lemma StartsEmpty(p: string, n: nat)
    ensures var s := Run(INITIAL, [SetCap(p, n)]);
      && Inv(s) && p in s.slots.provCap && s.slots.provCap[p] == n && |Holders(s, p)| == 0
      && forall t: nat :: s.At(t) == Idle
  {
    var none: seq<Label> := [];
    RunAppend(none, SetCap(p, n));
    assert none + [SetCap(p, n)] == [SetCap(p, n)];
    ReachableIsInv([SetCap(p, n)]);
    assert Holders(Run(INITIAL, [SetCap(p, n)]), p) == {};
  }

  lemma RunAppend(labels: seq<Label>, l: Label)
    ensures Run(INITIAL, labels + [l]) == Step(Run(INITIAL, labels), l)
  {
    assert (labels + [l])[..|labels|] == labels;
  }

  // A caller that is blocked has someone to wait for, and whoever of them releases first sets it free.
  lemma BlockedIsReleased(s: System, t: nat, u: nat)
    requires Inv(s) && s.At(t).Waiting? && s.At(t).channel !in s.slots.closed
    ensures Holders(s, s.At(t).provider) != {}
    ensures u in Holders(s, s.At(t).provider) ==> s.At(t).channel in Step(s, Release(u)).slots.closed
    ensures forall n :: s.At(t).channel in Step(s, SetCap(s.At(t).provider, n)).slots.closed
  {
    assert RightlyBlocked(s, t);
    assert s.slots.InFlight(s.At(t).provider) == |Holders(s, s.At(t).provider)|;
  }

  predicate Touches(l: Label, p: string) {
    l.SetCap? && l.provider == p
  }

  lemma StepRespectsCap(s: System, l: Label, p: string)
    requires Inv(s) && s.slots.InFlight(p) <= s.slots.Cap(p) && s.slots.Cap(p) > 0
    requires Touches(l, p) ==> l.n == s.slots.Cap(p)
    ensures Step(s, l).slots.Cap(p) == s.slots.Cap(p) && Step(s, l).slots.InFlight(p) <= s.slots.Cap(p)
  {
    match l {
      case Enter(t, contextDone) =>
        if s.At(t).Trying? && !s.slots.Full(s.At(t).provider) { TakenKeeps(s.slots, s.At(t).provider, p, 0); }
      case Release(t) => if s.At(t).Holding? { ReleasedKeeps(s.slots, s.At(t).provider, p, 0); }
      case SetCap(q, n) => CappedKeeps(s.slots, q, n, p, 0);
      case _ =>
    }
  }

  // While a positive cap stays as it is, the slots in use never exceed it.
  lemma {:induction false} CapIsRespected(s: System, labels: seq<Label>, p: string)
    requires Inv(s) && s.slots.Cap(p) > 0 && s.slots.InFlight(p) <= s.slots.Cap(p)
    requires forall l :: l in labels && Touches(l, p) ==> l.n == s.slots.Cap(p)
    ensures var s' := Run(s, labels);
      Inv(s') && s'.slots.Cap(p) == s.slots.Cap(p) && |Holders(s', p)| == s'.slots.InFlight(p) <= s.slots.Cap(p)
    decreases |labels|
  {
    if labels != [] {
      var before, l := labels[..|labels| - 1], labels[|labels| - 1];
      CapIsRespected(s, before, p);
      StepKeepsInv(Run(s, before), l);
      StepRespectsCap(Run(s, before), l, p);
    }
  }
}
