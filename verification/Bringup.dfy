/** Loading and unloading a driver for `n` devices: a loop of acquisitions that may fail at any point,
    with everything undone on the way out. */
module Bringup {
  import opened Base
  import opened Ledger

  /** struct myauto_dev as far as its resources go: where it lives, and whether it has its node. */
  datatype Device = Device(mem: nat, node: bool)

  /** One device's resources added to a ledger. */
  function Plus(w: Resources, mem: nat, d: Dev, cls: nat): Resources {
    w.(memory := w.memory + {mem}, cdevs := w.cdevs + {(mem, d)}, nodes := w.nodes + {(d, cls)})
  }

  /** The same for a device that may not have its node yet. */
  function PlusDevice(w: Resources, dev: Device, d: Dev, cls: nat): Resources {
    if dev.node then Plus(w, dev.mem, d, cls)
    else w.(memory := w.memory + {dev.mem}, cdevs := w.cdevs + {(dev.mem, d)})
  }

  /** Its teardown: node before cdev before memory. */
  function DropDevice(dev: Device, d: Dev): seq<Call> {
    (if dev.node then [DropNode(d)] else []) + [DelCdev(dev.mem), Free(dev.mem)]
  }

  /** What the driver's own devices need besides their memory. */
  function NoDevices(l: Resources, major: nat, n: nat, cls: nat): Resources {
    l.(regions := l.regions[major := n], classes := l.classes + {cls})
  }

  /** The ledger `l` and, on top of it, the region, the class and devices `lo` to `hi` - 1. */
  function With(l: Resources, major: nat, n: nat, cls: nat, mems: seq<nat>, lo: nat, hi: nat): Resources
    requires hi <= |mems|
  {
    if hi <= lo then NoDevices(l, major, n, cls)
    else Plus(With(l, major, n, cls, mems, lo, hi - 1), mems[hi - 1], Dev(major, hi - 1), cls)
  }

  /** What distinguishes the driver's own resources from everybody else's. */
  ghost predicate Own(l: Resources, major: nat, n: nat, cls: nat, mems: seq<nat>) {
    && Consistent(l)
    && major !in l.regions
    && cls !in l.classes
    && (forall k :: 0 <= k < |mems| ==> mems[k] !in l.memory)
    && (forall j, k :: 0 <= j < k < |mems| ==> mems[j] != mems[k])
    && |mems| <= n
  }

  /** Nothing is registered under `d`. */
  ghost predicate NumberFree(w: Resources, d: Dev) {
    (forall c :: c in w.cdevs ==> c.1 != d) && (forall e :: e in w.nodes ==> e.0 != d)
  }

  /** Nothing is registered in `mem`, and nobody holds it. */
  ghost predicate MemoryFree(w: Resources, mem: nat) {
    mem !in w.memory && forall c :: c in w.cdevs ==> c.0 != mem
  }

  lemma {:induction false} OtherNumbersFree(
    l: Resources, major: nat, n: nat, cls: nat, mems: seq<nat>, lo: nat, hi: nat, k: nat)
    requires Own(l, major, n, cls, mems) && hi <= |mems| && !(lo <= k < hi)
    ensures NumberFree(With(l, major, n, cls, mems, lo, hi), Dev(major, k))
  {
    if lo < hi {
      OtherNumbersFree(l, major, n, cls, mems, lo, hi - 1, k);
    }
  }

  lemma {:induction false} OtherMemoryFree(
    l: Resources, major: nat, n: nat, cls: nat, mems: seq<nat>, lo: nat, hi: nat, k: nat)
    requires Own(l, major, n, cls, mems) && hi <= |mems| && k < |mems| && !(lo <= k < hi)
    ensures MemoryFree(With(l, major, n, cls, mems, lo, hi), mems[k])
  {
    if lo < hi {
      OtherMemoryFree(l, major, n, cls, mems, lo, hi - 1, k);
    }
  }

  /** Every device from `lo` to `hi` - 1 has its memory, its cdev and its node, on top of what was there. */
  lemma {:induction false} AllRegistered(
    l: Resources, major: nat, n: nat, cls: nat, mems: seq<nat>, lo: nat, hi: nat)
    requires hi <= |mems|
    ensures var w := With(l, major, n, cls, mems, lo, hi);
            && w.regions == l.regions[major := n] && w.classes == l.classes + {cls}
            && l.memory <= w.memory && l.cdevs <= w.cdevs && l.nodes <= w.nodes
            && (forall k :: lo <= k < hi ==>
                  mems[k] in w.memory && (mems[k], Dev(major, k)) in w.cdevs && (Dev(major, k), cls) in w.nodes)
  {
    if lo < hi {
      AllRegistered(l, major, n, cls, mems, lo, hi - 1);
    }
  }

  lemma {:induction false} PrefixOnly(
    l: Resources, major: nat, n: nat, cls: nat, mems: seq<nat>, more: seq<nat>, lo: nat, hi: nat)
    requires hi <= |mems| && mems <= more
    ensures With(l, major, n, cls, mems, lo, hi) == With(l, major, n, cls, more, lo, hi)
  {
    if lo < hi {
      PrefixOnly(l, major, n, cls, mems, more, lo, hi - 1);
    }
  }

  lemma {:induction false} OneMoreOwned(l: Resources, major: nat, n: nat, cls: nat, mems: seq<nat>, mem: nat)
    requires Own(l, major, n, cls, mems) && |mems| < n
    requires mem !in l.memory && forall k :: 0 <= k < |mems| ==> mems[k] != mem
    ensures Own(l, major, n, cls, mems + [mem])
    ensures With(l, major, n, cls, mems + [mem], 0, |mems| + 1) ==
            Plus(With(l, major, n, cls, mems, 0, |mems|), mem, Dev(major, |mems|), cls)
  {
    PrefixOnly(l, major, n, cls, mems, mems + [mem], 0, |mems|);
  }

  lemma {:induction false} PlusCommutes(w: Resources, m1: nat, d1: Dev, m2: nat, d2: Dev, cls: nat)
    ensures Plus(Plus(w, m1, d1, cls), m2, d2, cls) == Plus(Plus(w, m2, d2, cls), m1, d1, cls)
  {
  }

  /** The oldest device may as well have been added last. */
  lemma {:induction false} FirstLast(
    l: Resources, major: nat, n: nat, cls: nat, mems: seq<nat>, lo: nat, hi: nat)
    requires lo < hi <= |mems|
    ensures With(l, major, n, cls, mems, lo, hi) ==
            Plus(With(l, major, n, cls, mems, lo + 1, hi), mems[lo], Dev(major, lo), cls)
  {
    if lo + 1 < hi {
      FirstLast(l, major, n, cls, mems, lo, hi - 1);
      PlusCommutes(With(l, major, n, cls, mems, lo + 1, hi - 1),
                   mems[lo], Dev(major, lo), mems[hi - 1], Dev(major, hi - 1), cls);
    }
  }

  /** The teardown of devices 0 to `hi` - 1 in ascending order, each node first, then cdev, then memory. */
  function Teardown(major: nat, mems: seq<nat>, hi: nat): seq<Call>
    requires hi <= |mems|
  {
    if hi == 0 then []
    else
      Teardown(major, mems, hi - 1) + DropDevice(Device(mems[hi - 1], true), Dev(major, hi - 1))
  }

  lemma {:induction false} TeardownMore(log: seq<Call>, major: nat, mems: seq<nat>, i: nat)
    requires i < |mems|
    ensures log + Teardown(major, mems, i) + DropDevice(Device(mems[i], true), Dev(major, i)) ==
            log + Teardown(major, mems, i + 1)
  {
  }

  /** Device by device, node before cdev before memory. */
  lemma {:induction false} TeardownOrder(major: nat, mems: seq<nat>, hi: nat, k: nat)
    requires k < hi <= |mems|
    ensures |Teardown(major, mems, hi)| == 3 * hi
    ensures Teardown(major, mems, hi)[3 * k..3 * k + 3] ==
            [DropNode(Dev(major, k)), DelCdev(mems[k]), Free(mems[k])]
  {
    if k < hi - 1 {
      TeardownOrder(major, mems, hi - 1, k);
      var most := Teardown(major, mems, hi - 1);
      assert Teardown(major, mems, hi)[3 * k..3 * k + 3] == most[3 * k..3 * k + 3];
    } else if hi > 1 {
      TeardownOrder(major, mems, hi - 1, 0);
    }
  }

  class Driver {
    const n: nat
    const kernel: Kernel
    const devices: array<Option<Device>>
    var major: nat
    var cls: Option<nat>

    constructor (kernel: Kernel, n: nat)
      ensures this.kernel == kernel && this.n == n && devices.Length == n && fresh(devices)
    {
      this.kernel, this.n := kernel, n;
      devices := new Option<Device>[n](_ => None);
      major, cls := 0, None;
    }

    /** Devices `lo` to `hi` - 1 are up, the others are absent. */
    ghost predicate Up(mems: seq<nat>, lo: nat, hi: nat)
      reads devices
    {
      && hi <= |mems| <= n == devices.Length
      && forall k :: 0 <= k < n ==> devices[k] == if lo <= k < hi then Some(Device(mems[k], true)) else None
    }

    /** The driver has region and class and devices `lo` to `hi` - 1, and the rest of the ledger is `l`. */
    ghost predicate Holds(l: Resources, mems: seq<nat>, lo: nat, hi: nat)
      reads this, devices, kernel
    {
      && cls.Some?
      && Own(l, major, n, cls.value, mems)
      && lo <= hi && Up(mems, lo, hi)
      && Consistent(kernel.ledger)
      && kernel.ledger == With(l, major, n, cls.value, mems, lo, hi)
    }

    /** What init_device needs for the next device. */
    lemma {:induction false} NextIsFree(l: Resources, mems: seq<nat>)
      requires |mems| < n && Holds(l, mems, 0, |mems|)
      ensures cls.value in kernel.ledger.classes
      ensures Reserved(kernel.ledger, Dev(major, |mems|)) && NumberFree(kernel.ledger, Dev(major, |mems|))
      ensures l.memory <= kernel.ledger.memory
      ensures forall k :: 0 <= k < |mems| ==> mems[k] in kernel.ledger.memory
    {
      OtherNumbersFree(l, major, n, cls.value, mems, 0, |mems|, |mems|);
      AllRegistered(l, major, n, cls.value, mems, 0, |mems|);
    }

    /** The device to be cleaned up next lies on top of a ledger `w` without it. */
    lemma {:induction false} OldestOnTop(l: Resources, mems: seq<nat>, i: nat, upTo: nat) returns (w: Resources)
      requires i < upTo <= |mems| && Holds(l, mems, i, upTo)
      ensures w == With(l, major, n, cls.value, mems, i + 1, upTo)
      ensures kernel.ledger == Plus(w, mems[i], Dev(major, i), cls.value)
      ensures NumberFree(w, Dev(major, i)) && MemoryFree(w, mems[i])
    {
      w := With(l, major, n, cls.value, mems, i + 1, upTo);
      FirstLast(l, major, n, cls.value, mems, i, upTo);
      OtherNumbersFree(l, major, n, cls.value, mems, i + 1, upTo, i);
      OtherMemoryFree(l, major, n, cls.value, mems, i + 1, upTo, i);
    }

    /** init_device: all of one device; or nothing, with the error of the one call that has failed. */
    method InitDevice(index: nat) returns (ret: int, ghost mem: nat)
      requires index < devices.Length && devices[index] == None && cls.Some?
      requires Consistent(kernel.ledger) && cls.value in kernel.ledger.classes
      requires Reserved(kernel.ledger, Dev(major, index)) && NumberFree(kernel.ledger, Dev(major, index))
      modifies kernel, devices
      ensures ret <= 0 && Consistent(kernel.ledger)
      ensures kernel.refused == old(kernel.refused) + if ret < 0 then [ret] else []
      ensures ret < 0 ==> kernel.ledger == old(kernel.ledger) && devices[..] == old(devices[..])
      ensures ret == 0 ==>
                && mem !in old(kernel.ledger.memory)
                && kernel.ledger == Plus(old(kernel.ledger), mem, Dev(major, index), cls.value)
                && devices[..] == old(devices[..])[index := Some(Device(mem, true))]
    {
      var devno := Dev(major, index);
      mem := 0;
      var p := kernel.Kmalloc();
      if p.None? {
        devices[index] := None;
        return -ENOMEM, 0;
      }
      mem := p.value;
      devices[index] := Some(Device(p.value, false));
      ret := kernel.CdevAdd(p.value, devno);
      if ret < 0 {
        kernel.Kfree(p.value);
        devices[index] := None;
        return;
      }
      ret := kernel.DeviceCreate(cls.value, devno);
      if ret < 0 {
        kernel.CdevDel(p.value, devno);
        kernel.Kfree(p.value);
        devices[index] := None;
        return;
      }
      devices[index] := Some(Device(p.value, true));
      ret := 0;
    }

    /** cleanup_device: the node if there is one, then cdev, then memory. */
    method CleanupDevice(index: nat, ghost w: Resources)
      requires index < devices.Length && cls.Some? && Consistent(kernel.ledger)
      requires devices[index].Some? ==>
                 && NumberFree(w, Dev(major, index)) && MemoryFree(w, devices[index].value.mem)
                 && kernel.ledger == PlusDevice(w, devices[index].value, Dev(major, index), cls.value)
      modifies kernel, devices
      ensures Consistent(kernel.ledger)
      ensures kernel.refused == old(kernel.refused)
      ensures devices[..] == old(devices[..])[index := None]
      ensures old(devices[index]).None? ==> kernel.ledger == old(kernel.ledger) && kernel.log == old(kernel.log)
      ensures old(devices[index]).Some? ==>
                && kernel.ledger == w
                && kernel.log == old(kernel.log) + DropDevice(old(devices[index]).value, Dev(major, index))
    {
      if devices[index].Some? {
        var mem := devices[index].value.mem;
        if devices[index].value.node {
          kernel.DeviceDestroy(cls.value, Dev(major, index));
        }
        assert kernel.ledger.nodes == w.nodes;
        kernel.CdevDel(mem, Dev(major, index));
        assert kernel.ledger.cdevs == w.cdevs;
        kernel.Kfree(mem);
        assert kernel.ledger.memory == w.memory;
        devices[index] := None;
      }
    }

    /** One round of cleanup_devices. */
    method CleanupOldest(i: nat, ghost upTo: nat, ghost l: Resources, ghost mems: seq<nat>, ghost log: seq<Call>)
      requires i < upTo <= |mems| && Holds(l, mems, i, upTo)
      requires kernel.log == log + Teardown(major, mems, i)
      modifies kernel, devices
      ensures Holds(l, mems, i + 1, upTo)
      ensures kernel.log == log + Teardown(major, mems, i + 1) && kernel.refused == old(kernel.refused)
    {
      ghost var w := OldestOnTop(l, mems, i, upTo);
      CleanupDevice(i, w);
      TeardownMore(log, major, mems, i);
      assert Up(mems, i + 1, upTo);
    }

    /** cleanup_devices: in ascending order. */
    method CleanupDevices(upTo: nat, ghost l: Resources, ghost mems: seq<nat>)
      requires upTo == |mems| && Holds(l, mems, 0, upTo)
      modifies kernel, devices
      ensures Holds(l, mems, upTo, upTo)
      ensures kernel.log == old(kernel.log) + Teardown(major, mems, upTo) && kernel.refused == old(kernel.refused)
    {
      var i: nat := 0;
      while i < upTo && i < n
        invariant i <= upTo
        invariant Holds(l, mems, i, upTo)
        invariant kernel.log == old(kernel.log) + Teardown(major, mems, i) && kernel.refused == old(kernel.refused)
      {
        CleanupOldest(i, upTo, l, mems, old(kernel.log));
        i := i + 1;
      }
    }

    /** cleanup_class_and_devnum */
    method CleanupClassAndDevnum(ghost l: Resources, ghost mems: seq<nat>)
      requires Holds(l, mems, |mems|, |mems|)
      modifies this, kernel
      ensures kernel.ledger == l && cls == None && major == old(major) && kernel.refused == old(kernel.refused)
      ensures kernel.log == old(kernel.log) + [DropClass(old(cls).value), DropRegion(major)]
    {
      if cls.Some? {
        kernel.ClassDestroy(cls.value);
        cls := None;
      }
      kernel.UnregisterRegion(major);
    }

    /** One round of chardev_init's loop. */
    method InitNext(i: nat, ghost l: Resources, ghost mems: seq<nat>) returns (ret: int, ghost mem: nat)
      requires i == |mems| < n && Holds(l, mems, 0, i)
      modifies kernel, devices
      ensures ret <= 0 && kernel.refused == old(kernel.refused) + if ret < 0 then [ret] else []
      ensures ret < 0 ==> Holds(l, mems, 0, i)
      ensures ret == 0 ==> Holds(l, mems + [mem], 0, i + 1)
    {
      NextIsFree(l, mems);
      ret, mem := InitDevice(i);
      if ret == 0 {
        OneMoreOwned(l, major, n, cls.value, mems, mem);
        assert Up(mems + [mem], 0, i + 1);
      }
    }

    /** The last part of chardev_init: every device; or nothing at all, if and only if a call has failed. */
    method InitDevices(ghost l: Resources) returns (ret: int, ghost mems: seq<nat>)
      requires Holds(l, [], 0, 0)
      modifies this, kernel, devices
      ensures ret <= 0 && kernel.refused == old(kernel.refused) + if ret < 0 then [ret] else []
      ensures ret == 0 ==> |mems| == n && Holds(l, mems, 0, n)
      ensures ret < 0 ==> kernel.ledger == l && forall k :: 0 <= k < n ==> devices[k] == None
    {
      ret, mems := 0, [];
      var i: nat := 0;
      while i < n
        invariant i <= n && i == |mems| && ret == 0
        invariant Holds(l, mems, 0, i) && kernel.refused == old(kernel.refused)
      {
        ghost var mem;
        ret, mem := InitNext(i, l, mems);
        if ret < 0 {
          CleanupDevices(i, l, mems);
          CleanupClassAndDevnum(l, mems);
          return;
        }
        mems := mems + [mem];
        i := i + 1;
      }
    }

    /** chardev_init: returns 0 with every device up if no call fails; otherwise it stops at the first that
        does, and returns its error with the ledger as it was. */
    method Init() returns (ret: int, ghost mems: seq<nat>)
      requires Consistent(kernel.ledger) && devices.Length == n
      modifies this, kernel, devices
      ensures ret <= 0 && kernel.refused == old(kernel.refused) + if ret < 0 then [ret] else []
      ensures ret == 0 ==> |mems| == n && Holds(old(kernel.ledger), mems, 0, n)
      ensures ret < 0 ==> kernel.ledger == old(kernel.ledger) && forall k :: 0 <= k < n ==> devices[k] == None
    {
      ghost var l := kernel.ledger;
      mems := [];
      forall k | 0 <= k < n {
        devices[k] := None;
      }
      ret, major := kernel.AllocRegion(n);
      if ret < 0 {
        return;
      }
      var c;
      ret, c := kernel.ClassCreate();
      if ret < 0 {
        kernel.UnregisterRegion(major);
        return;
      }
      cls := Some(c);
      ret, mems := InitDevices(l);
    }

    /** chardev_exit: everything goes, nodes before their cdevs before their memory, and the class after
        all nodes. */
    method Exit(ghost l: Resources, ghost mems: seq<nat>)
      requires |mems| == n && Holds(l, mems, 0, n)
      modifies this, kernel, devices
      ensures kernel.ledger == l && cls == None && forall k :: 0 <= k < n ==> devices[k] == None
      ensures kernel.refused == old(kernel.refused)
      ensures kernel.log ==
              old(kernel.log) + Teardown(major, mems, n) + [DropClass(old(cls).value), DropRegion(major)]
    {
      CleanupDevices(n, l, mems);
      CleanupClassAndDevnum(l, mems);
    }

    /** Loading and unloading leaves the ledger as it was, whatever fails on the way. */
    method LoadAndUnload() returns (ret: int)
      requires Consistent(kernel.ledger) && devices.Length == n
      modifies this, kernel, devices
      ensures kernel.ledger == old(kernel.ledger)
      ensures ret <= 0 && kernel.refused == old(kernel.refused) + if ret < 0 then [ret] else []
      ensures forall k :: 0 <= k < n ==> devices[k] == None
    {
      ghost var mems;
      ret, mems := Init();
      if ret == 0 {
        Exit(old(kernel.ledger), mems);
      }
    }
  }
}
