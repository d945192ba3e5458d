/** `DriverManager` of driver/manager.rs: a fixed table of 32 device-driver descriptors filled
  * in registration order, and the boot phases that bring the registered drivers up one load
  * order at a time, each at most once.
  *
  * A driver is modelled by what the manager asks of it: its `compatible` name, its load order
  * and the answer its `init` gives; a post-init callback by the answer it gives. The calls to
  * `init` and to the callbacks are foreign code, so the model returns them as a sequence of
  * events. The lock around the table is left out, and `probe_devices` only prints. */
module Drivers {
  import opened Wrappers

  const MAX_DRIVERS: nat := 32

  /** `DriverLoadOrder`. */
  datatype LoadOrder = InterruptController | Early | Normal | Manual

  /** A `DeviceDriver`: its name, its load order, and the error its `init` returns, if any. */
  datatype Driver = Driver(compatible: string, loadOrder: LoadOrder, initError: Option<string>)

  /** A `DeviceDriverPostInitCallback`, by the error it returns, if any. */
  datatype Callback = Callback(error: Option<string>)

  /** `DeviceDriverDescriptor`. */
  datatype Descriptor = Descriptor(driver: Driver, postInitCallback: Option<Callback>,
                                   irqNumber: Option<nat>, initComplete: bool)

  /** A call into driver code: `init` of the driver in a slot, or its post-init callback. */
  datatype Event = Init(slot: nat) | PostInit(slot: nat)

  /** `DeviceDriverDescriptor::new`: a descriptor whose driver has not been brought up. */
  function NewDescriptor(driver: Driver, postInitCallback: Option<Callback>, irqNumber: Option<nat>): (d: Descriptor)
    ensures !d.initComplete
    ensures d.driver == driver && d.postInitCallback == postInitCallback && d.irqNumber == irqNumber
  {
    Descriptor(driver, postInitCallback, irqNumber, false)
  }

  /** `for_each`: the descriptors of the occupied slots below `k`, in slot order. */
  function Visited(s: seq<Option<Descriptor>>, k: nat): seq<Descriptor>
    requires k <= |s|
  {
    if k == 0 then []
    else Visited(s, k - 1) + (if s[k - 1].Some? then [s[k - 1].value] else [])
  }

  /** The table `register` builds: the first `n` slots are occupied and no other. */
  predicate FilledUpTo(s: seq<Option<Descriptor>>, n: nat) {
    n <= |s| && forall j :: 0 <= j < |s| ==> (s[j].Some? <==> j < n)
  }

  /** On such a table `for_each` visits the registered descriptors in registration order. */
  lemma {:induction false} VisitedRegistered(s: seq<Option<Descriptor>>, n: nat, k: nat)
    requires FilledUpTo(s, n) && k <= |s|
    ensures |Visited(s, k)| == if k <= n then k else n
    ensures forall m :: 0 <= m < |Visited(s, k)| ==> Visited(s, k)[m] == s[m].value
  {
    if k > 0 {
      VisitedRegistered(s, n, k - 1);
    }
  }

  /** Slot `j` is one `init_devices(order)` brings up: occupied, not brought up yet, and of
    * that load order. */
  predicate Pending(s: seq<Option<Descriptor>>, order: LoadOrder, j: nat)
    requires j < |s|
  {
    s[j].Some? && !s[j].value.initComplete && s[j].value.driver.loadOrder == order
  }

  /** Bringing up a descriptor fails: its `init` returns an error, or else its callback does. */
  predicate Fails(d: Descriptor) {
    d.driver.initError.Some? || (d.postInitCallback.Some? && d.postInitCallback.value.error.Some?)
  }

  /** The calls made to bring up the descriptor in slot `j`: its `init`, then its callback
    * if it has one and `init` succeeded. */
  function BringUp(d: Descriptor, j: nat): seq<Event> {
    [Init(j)] + (if d.driver.initError.None? && d.postInitCallback.Some? then [PostInit(j)] else [])
  }

  /** The calls `init_devices(order)` makes for the slots below `k` when none fails. */
  function Events(s: seq<Option<Descriptor>>, order: LoadOrder, k: nat): seq<Event>
    requires k <= |s|
  {
    if k == 0 then []
    else Events(s, order, k - 1) + (if Pending(s, order, k - 1) then BringUp(s[k - 1].value, k - 1) else [])
  }

  /** Slot `j` as it is once the pending slots below `k` are brought up. */
  function MarkAt(s: seq<Option<Descriptor>>, order: LoadOrder, k: nat, j: nat): Option<Descriptor>
    requires j < |s|
  {
    if j < k && Pending(s, order, j) then Some(s[j].value.(initComplete := true)) else s[j]
  }

  /** The table once the pending slots below `k` are brought up. */
  function Marked(s: seq<Option<Descriptor>>, order: LoadOrder, k: nat): (r: seq<Option<Descriptor>>)
    ensures |r| == |s|
  {
    seq(|s|, j requires 0 <= j < |s| => MarkAt(s, order, k, j))
  }

  /** Slot `f` is where `init_devices(order)` panics: the first pending slot that fails. */
  predicate FirstFailure(s: seq<Option<Descriptor>>, order: LoadOrder, f: nat) {
    f < |s| && Pending(s, order, f) && Fails(s[f].value)
    && forall j :: 0 <= j < f && Pending(s, order, j) ==> !Fails(s[j].value)
  }

  /** What `init_devices(order)` does to the table `before`: it brings up the pending slots in
    * slot order, each by its `init` and then its callback, and marks each one done; it panics
    * at the first one that fails, with the slots before it marked and no later slot called. */
  ghost predicate InitOutcome(before: seq<Option<Descriptor>>, after: seq<Option<Descriptor>>,
                              order: LoadOrder, r: Outcome<()>, events: seq<Event>) {
    (r.Done? <==> forall j :: 0 <= j < |before| && Pending(before, order, j) ==> !Fails(before[j].value))
    && (r.Done? ==> events == Events(before, order, |before|) && after == Marked(before, order, |before|))
    && (r.Panic? ==>
          exists f: nat :: FirstFailure(before, order, f)
            && events == Events(before, order, f) + BringUp(before[f].value, f)
            && after == Marked(before, order, f))
  }

  lemma MarkStep(s: seq<Option<Descriptor>>, order: LoadOrder, i: nat)
    requires i < |s|
    ensures Marked(s, order, i)[i] == s[i]
    ensures Marked(s, order, i + 1) ==
      if Pending(s, order, i) then Marked(s, order, i)[i := Some(s[i].value.(initComplete := true))]
      else Marked(s, order, i)
  {
  }

  /** Marking changes no slot's occupancy, driver or callback. */
  lemma MarkedKeeps(s: seq<Option<Descriptor>>, order: LoadOrder, k: nat)
    ensures forall j :: 0 <= j < |s| ==>
      (Marked(s, order, k)[j].Some? <==> s[j].Some?)
      && (s[j].Some? ==> Marked(s, order, k)[j].value.driver == s[j].value.driver
                         && Marked(s, order, k)[j].value.postInitCallback == s[j].value.postInitCallback)
  {
  }

  /** Every call is for a slot below `k`. */
  lemma {:induction false} EventsBelow(s: seq<Option<Descriptor>>, order: LoadOrder, k: nat)
    requires k <= |s|
    ensures forall a :: 0 <= a < |Events(s, order, k)| ==> Events(s, order, k)[a].slot < k
  {
    if k > 0 {
      EventsBelow(s, order, k - 1);
    }
  }

  /** The `init` of exactly the pending slots is called, and the callback of exactly those
    * pending slots that have one and whose `init` succeeded. */
  lemma {:induction false} EventsAre(s: seq<Option<Descriptor>>, order: LoadOrder, k: nat)
    requires k <= |s|
    ensures forall j: nat :: Init(j) in Events(s, order, k) <==> j < k && Pending(s, order, j)
    ensures forall j: nat :: PostInit(j) in Events(s, order, k) <==>
      j < k && Pending(s, order, j) && s[j].value.driver.initError.None? && s[j].value.postInitCallback.Some?
  {
    if k > 0 {
      EventsAre(s, order, k - 1);
    }
  }

  /** The calls go in slot order, and a callback is called right after the `init` of its own
    * driver. */
  lemma {:induction false} EventsOrdered(s: seq<Option<Descriptor>>, order: LoadOrder, k: nat)
    requires k <= |s|
    ensures forall a, b :: 0 <= a < b < |Events(s, order, k)| ==> Events(s, order, k)[a].slot <= Events(s, order, k)[b].slot
    ensures forall a :: 0 <= a < |Events(s, order, k)| && Events(s, order, k)[a].PostInit? ==>
      a > 0 && Events(s, order, k)[a - 1] == Init(Events(s, order, k)[a].slot)
  {
    if k > 0 {
      EventsOrdered(s, order, k - 1);
      EventsBelow(s, order, k - 1);
      var prev := Events(s, order, k - 1);
      var added := if Pending(s, order, k - 1) then BringUp(s[k - 1].value, k - 1) else [];
      assert Events(s, order, k) == prev + added;
      assert forall a :: 0 <= a < |added| ==> added[a].slot == k - 1;
      assert forall a :: 0 <= a < |added| && added[a].PostInit? ==> a == 1 && added[0] == Init(k - 1);
    }
  }

  /** Tables that agree on which slots are pending for `order`, and on their drivers and
    * callbacks, make the same calls. */
  lemma {:induction false} EventsAgree(s: seq<Option<Descriptor>>, t: seq<Option<Descriptor>>, order: LoadOrder, k: nat)
    requires k <= |s| && k <= |t|
    requires forall j :: 0 <= j < k ==> Pending(s, order, j) == Pending(t, order, j)
    requires forall j :: 0 <= j < k && Pending(s, order, j) && Pending(t, order, j) ==>
      s[j].value.driver == t[j].value.driver && s[j].value.postInitCallback == t[j].value.postInitCallback
    ensures Events(s, order, k) == Events(t, order, k)
  {
    if k > 0 {
      EventsAgree(s, t, order, k - 1);
    }
  }

  /** No slot is pending: no call is made. */
  lemma {:induction false} NothingPending(s: seq<Option<Descriptor>>, order: LoadOrder, k: nat)
    requires k <= |s| && forall j :: 0 <= j < k ==> !Pending(s, order, j)
    ensures Events(s, order, k) == []
  {
    if k > 0 {
      NothingPending(s, order, k - 1);
    }
  }

  /** A phase brings each driver up at most once: once `init_devices(order)` has run through,
    * running it again calls nothing, and the phases of the other load orders make exactly the
    * calls they would have made before it. */
  lemma InitAtMostOnce(s: seq<Option<Descriptor>>, order: LoadOrder, other: LoadOrder)
    requires other != order
    ensures Events(Marked(s, order, |s|), order, |s|) == []
    ensures Events(Marked(s, order, |s|), other, |s|) == Events(s, other, |s|)
  {
    NothingPending(Marked(s, order, |s|), order, |s|);
    EventsAgree(Marked(s, order, |s|), s, other, |s|);
  }

  /** After the three boot phases have run through, the drivers that were registered fresh
    * are all brought up except those loaded manually. */
  lemma BootPhasesBringUp(s: seq<Option<Descriptor>>)
    requires forall j :: 0 <= j < |s| && s[j].Some? ==> !s[j].value.initComplete
    ensures var after := Marked(Marked(Marked(s, InterruptController, |s|), Early, |s|), Normal, |s|);
      |after| == |s|
      && forall j :: 0 <= j < |s| ==>
           (after[j].Some? <==> s[j].Some?)
           && (s[j].Some? ==> (after[j].value.initComplete <==> s[j].value.driver.loadOrder != Manual))
  {
    var s1 := Marked(s, InterruptController, |s|);
    var s2 := Marked(s1, Early, |s|);
    MarkedKeeps(s, InterruptController, |s|);
    MarkedKeeps(s1, Early, |s|);
    MarkedKeeps(s2, Normal, |s|);
  }

  /** The panic at the first failing slot `f`, as `InitOutcome` describes it. */
  lemma InitPanics(s: seq<Option<Descriptor>>, after: seq<Option<Descriptor>>, order: LoadOrder, f: nat,
                   r: Outcome<()>, events: seq<Event>, n: nat)
    requires f < |s| && Pending(s, order, f) && r.Panic? && FilledUpTo(s, n)
    requires forall j :: 0 <= j < f && Pending(s, order, j) ==> !Fails(s[j].value)
    requires after == Marked(s, order, f)
    requires s[f].value.driver.initError.Some? ==> events == Events(s, order, f) + [Init(f)]
    requires s[f].value.driver.initError.None? ==>
      s[f].value.postInitCallback.Some? && s[f].value.postInitCallback.value.error.Some?
      && events == Events(s, order, f) + [Init(f)] + [PostInit(f)]
    ensures InitOutcome(s, after, order, r, events) && FilledUpTo(after, n)
  {
    assert FirstFailure(s, order, f);
    assert events == Events(s, order, f) + BringUp(s[f].value, f);
    MarkedKeeps(s, order, f);
  }

  /** The run through all slots, as `InitOutcome` describes it. */
  lemma InitDone(s: seq<Option<Descriptor>>, after: seq<Option<Descriptor>>, order: LoadOrder,
                 r: Outcome<()>, events: seq<Event>, n: nat)
    requires r.Done? && FilledUpTo(s, n)
    requires forall j :: 0 <= j < |s| && Pending(s, order, j) ==> !Fails(s[j].value)
    requires after == Marked(s, order, |s|) && events == Events(s, order, |s|)
    ensures InitOutcome(s, after, order, r, events) && FilledUpTo(after, n)
  {
    MarkedKeeps(s, order, |s|);
  }

  class DriverManager {
    const descriptors: array<Option<Descriptor>>
    var nextIndex: nat

    ghost predicate Valid()
      reads this, descriptors
    {
      descriptors.Length == MAX_DRIVERS && FilledUpTo(descriptors[..], nextIndex)
    }

    /** `DriverManager::new`: 32 empty slots. */
    constructor ()
      ensures Valid() && fresh(descriptors) && nextIndex == 0
    {
      descriptors := new Option<Descriptor>[MAX_DRIVERS](_ => None);
      nextIndex := 0;
    }

    /** `register`: the descriptor goes to slot `next_index`, which then moves on; with all
      * 32 slots taken the array index is out of bounds and the kernel panics. */
    method Register(descriptor: Descriptor) returns (r: Outcome<()>)
      requires Valid()
      modifies this, descriptors
      ensures Valid()
      ensures r.Panic? <==> old(nextIndex) == MAX_DRIVERS
      ensures r.Panic? ==> nextIndex == old(nextIndex) && descriptors[..] == old(descriptors[..])
      ensures r.Done? ==>
        nextIndex == old(nextIndex) + 1 && descriptors[..] == old(descriptors[..])[old(nextIndex) := Some(descriptor)]
      ensures r.Done? ==> ForEach() == old(ForEach()) + [descriptor]
    {
      if nextIndex >= descriptors.Length {
        return Panic("index out of bounds: the len is 32 but the index is 32");
      }
      ghost var before := descriptors[..];
      VisitedRegistered(before, nextIndex, MAX_DRIVERS);
      descriptors[nextIndex] := Some(descriptor);
      nextIndex := nextIndex + 1;
      VisitedRegistered(descriptors[..], nextIndex, MAX_DRIVERS);
      r := Done(());
    }

    /** `for_each`: the descriptors of the occupied slots, in slot order. */
    ghost function ForEach(): seq<Descriptor>
      reads this, descriptors
      requires Valid()
    {
      Visited(descriptors[..], MAX_DRIVERS)
    }

    /** `enumerate`: one line per registered driver, numbered from 1 in registration order. */
    method Enumerate() returns (lines: seq<(nat, string)>)
      requires Valid()
      ensures |lines| == |ForEach()| == nextIndex
      ensures forall k :: 0 <= k < |lines| ==>
        lines[k] == (k + 1, ForEach()[k].driver.compatible) && lines[k].1 == descriptors[k].value.driver.compatible
    {
      lines := [];
      var i := 1;
      for slot := 0 to MAX_DRIVERS
        invariant i == |lines| + 1 && |lines| == |Visited(descriptors[..], slot)|
        invariant forall k :: 0 <= k < |lines| ==> lines[k] == (k + 1, Visited(descriptors[..], slot)[k].driver.compatible)
      {
        if descriptors[slot].Some? {
          lines := lines + [(i, descriptors[slot].value.driver.compatible)];
          i := i + 1;
        }
      }
      VisitedRegistered(descriptors[..], nextIndex, MAX_DRIVERS);
    }

    /** `init_devices`: through `for_each_mut`, every occupied slot of load order `order` not
      * yet brought up gets its driver's `init` and then its callback called, and is marked
      * done; an error from either is a panic. */
    method InitDevices(order: LoadOrder) returns (r: Outcome<()>, events: seq<Event>)
      requires Valid()
      modifies descriptors
      ensures Valid()
      ensures InitOutcome(old(descriptors[..]), descriptors[..], order, r, events)
    {
      ghost var s := descriptors[..];
      events := [];
      for i := 0 to MAX_DRIVERS
        invariant descriptors[..] == Marked(s, order, i)
        invariant events == Events(s, order, i)
        invariant forall j :: 0 <= j < i && Pending(s, order, j) ==> !Fails(s[j].value)
      {
        MarkStep(s, order, i);
        var slot := descriptors[i];
        if slot.None? || slot.value.initComplete || slot.value.driver.loadOrder != order {
          continue;
        }
        var d := slot.value;
        events := events + [Init(i)];
        if d.driver.initError.Some? {
          r := Panic("Failed to init driver: " + d.driver.compatible + ": " + d.driver.initError.value);
          InitPanics(s, descriptors[..], order, i, r, events, nextIndex);
          return;
        }
        if d.postInitCallback.Some? {
          events := events + [PostInit(i)];
          if d.postInitCallback.value.error.Some? {
            r := Panic("Error during driver post-init callback: " + d.driver.compatible + ": "
                       + d.postInitCallback.value.error.value);
            InitPanics(s, descriptors[..], order, i, r, events, nextIndex);
            return;
          }
        }
        descriptors[i] := Some(d.(initComplete := true));
      }
      r := Done(());
      InitDone(s, descriptors[..], order, r, events, nextIndex);
    }

    /** `init_interrupt_controller`: probing, then the interrupt-controller drivers. */
    method InitInterruptController() returns (r: Outcome<()>, events: seq<Event>)
      requires Valid()
      modifies descriptors
      ensures Valid()
      ensures InitOutcome(old(descriptors[..]), descriptors[..], InterruptController, r, events)
    {
      r, events := InitDevices(InterruptController);
    }

    /** `init_early`: probing, then the early drivers. */
    method InitEarly() returns (r: Outcome<()>, events: seq<Event>)
      requires Valid()
      modifies descriptors
      ensures Valid()
      ensures InitOutcome(old(descriptors[..]), descriptors[..], Early, r, events)
    {
      r, events := InitDevices(Early);
    }

    /** `init_normal`: probing, then the normal drivers. */
    method InitNormal() returns (r: Outcome<()>, events: seq<Event>)
      requires Valid()
      modifies descriptors
      ensures Valid()
      ensures InitOutcome(old(descriptors[..]), descriptors[..], Normal, r, events)
    {
      r, events := InitDevices(Normal);
    }
  }
}
