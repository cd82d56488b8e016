/** The kernel as a driver's bring-up sees it: a ledger of resources, and primitives that may fail
    whenever they like but change nothing then.  What a primitive demands of its caller is its
    `requires`. */
module Ledger {
  import opened Base

  /** A device number. */
  datatype Dev = Dev(major: nat, minor: nat)

  /** `regions` maps a major number to the count of minors reserved under it, from 0 on; `cdevs` pairs the
      memory of a cdev with its device number, `nodes` a device number with its class. */
  datatype Resources = Resources(
    regions: map<nat, nat>, classes: set<nat>, memory: set<nat>, cdevs: set<(nat, Dev)>, nodes: set<(Dev, nat)>)

  predicate Reserved(l: Resources, d: Dev) {
    d.major in l.regions && d.minor < l.regions[d.major]
  }

  /** What has been done, for questions of order. */
  datatype Call =
    | MakeNode(d: Dev)
    | DropNode(d: Dev)
    | AddCdev(mem: nat)
    | DelCdev(mem: nat)
    | Free(mem: nat)
    | DropClass(cls: nat)
    | DropRegion(major: nat)

  /** Nothing registered outlives what it is registered on. */
  ghost predicate Consistent(l: Resources) {
    && (forall c :: c in l.cdevs ==> c.0 in l.memory && Reserved(l, c.1))
    && (forall d :: d in l.nodes ==> Reserved(l, d.0) && d.1 in l.classes)
  }

  const ENOMEM: int := 12

  class Kernel {
    var ledger: Resources
    var log: seq<Call>
    /** The error numbers of the calls that have failed, one for each. */
    var refused: seq<int>

    constructor (l: Resources)
      requires Consistent(l)
      ensures ledger == l && log == [] && refused == []
    {
      ledger, log, refused := l, [], [];
    }

    /** alloc_chrdev_region: `n` minors from 0 on, under a major number nobody has. */
    method AllocRegion(n: nat) returns (ret: int, major: nat)
      requires Consistent(ledger)
      modifies this
      ensures ret <= 0 && log == old(log) && Consistent(ledger)
      ensures ret < 0 ==> ledger == old(ledger)
      ensures refused == old(refused) + if ret < 0 then [ret] else []
      ensures ret == 0 ==> major !in old(ledger.regions)
                           && ledger == old(ledger).(regions := old(ledger.regions)[major := n])
    {
      major := *;
      ret := *;
      if ret >= 0 && major !in ledger.regions {
        ret := 0;
        ledger := ledger.(regions := ledger.regions[major := n]);
      } else {
        ret := if ret >= 0 then -1 else ret;
        refused := refused + [ret];
      }
    }

    /** unregister_chrdev_region: the region is held, and nothing hangs on it any more. */
    method UnregisterRegion(major: nat)
      requires Consistent(ledger) && major in ledger.regions
      requires forall c :: c in ledger.cdevs ==> c.1.major != major
      requires forall d :: d in ledger.nodes ==> d.0.major != major
      modifies this
      ensures Consistent(ledger) && log == old(log) + [DropRegion(major)] && refused == old(refused)
      ensures ledger == old(ledger).(regions := old(ledger.regions) - {major})
    {
      ledger := ledger.(regions := ledger.regions - {major});
      log := log + [DropRegion(major)];
    }

    /** class_create */
    method ClassCreate() returns (ret: int, cls: nat)
      requires Consistent(ledger)
      modifies this
      ensures ret <= 0 && log == old(log) && Consistent(ledger)
      ensures ret < 0 ==> ledger == old(ledger)
      ensures refused == old(refused) + if ret < 0 then [ret] else []
      ensures ret == 0 ==> cls !in old(ledger.classes)
                           && ledger == old(ledger).(classes := old(ledger.classes) + {cls})
    {
      cls := *;
      ret := *;
      if ret >= 0 && cls !in ledger.classes {
        ret := 0;
        ledger := ledger.(classes := ledger.classes + {cls});
      } else {
        ret := if ret >= 0 then -1 else ret;
        refused := refused + [ret];
      }
    }

    /** class_destroy: the class exists and has no device left. */
    method ClassDestroy(cls: nat)
      requires Consistent(ledger) && cls in ledger.classes
      requires forall d :: d in ledger.nodes ==> d.1 != cls
      modifies this
      ensures Consistent(ledger) && log == old(log) + [DropClass(cls)] && refused == old(refused)
      ensures ledger == old(ledger).(classes := old(ledger.classes) - {cls})
    {
      ledger := ledger.(classes := ledger.classes - {cls});
      log := log + [DropClass(cls)];
    }

    /** kmalloc */
    method Kmalloc() returns (mem: Option<nat>)
      requires Consistent(ledger)
      modifies this
      ensures log == old(log) && Consistent(ledger)
      ensures mem.None? ==> ledger == old(ledger)
      ensures refused == old(refused) + if mem.None? then [-ENOMEM] else []
      ensures mem.Some? ==> mem.value !in old(ledger.memory)
                            && ledger == old(ledger).(memory := old(ledger.memory) + {mem.value})
    {
      var ok: bool, m: nat := *, *;
      if ok && m !in ledger.memory {
        mem := Some(m);
        ledger := ledger.(memory := ledger.memory + {m});
      } else {
        mem := None;
        refused := refused + [-ENOMEM];
      }
    }

    /** kfree: the memory is held, and no cdev in it is registered. */
    method Kfree(mem: nat)
      requires Consistent(ledger) && mem in ledger.memory
      requires forall c :: c in ledger.cdevs ==> c.0 != mem
      modifies this
      ensures Consistent(ledger) && log == old(log) + [Free(mem)] && refused == old(refused)
      ensures ledger == old(ledger).(memory := old(ledger.memory) - {mem})
    {
      ledger := ledger.(memory := ledger.memory - {mem});
      log := log + [Free(mem)];
    }

    /** cdev_add: the structure is live and not yet added, the number is ours and free. */
    method CdevAdd(mem: nat, d: Dev) returns (ret: int)
      requires Consistent(ledger) && mem in ledger.memory && Reserved(ledger, d)
      requires forall c :: c in ledger.cdevs ==> c.0 != mem && c.1 != d
      modifies this
      ensures ret <= 0 && Consistent(ledger)
      ensures ret < 0 ==> ledger == old(ledger) && log == old(log)
      ensures refused == old(refused) + if ret < 0 then [ret] else []
      ensures ret == 0 ==> ledger == old(ledger).(cdevs := old(ledger.cdevs) + {(mem, d)})
                           && log == old(log) + [AddCdev(mem)]
    {
      ret := *;
      if ret >= 0 {
        ret := 0;
        ledger := ledger.(cdevs := ledger.cdevs + {(mem, d)});
        log := log + [AddCdev(mem)];
      } else {
        refused := refused + [ret];
      }
    }

    /** cdev_del: the cdev is registered, and its node is gone. */
    method CdevDel(mem: nat, d: Dev)
      requires Consistent(ledger) && (mem, d) in ledger.cdevs
      requires forall e :: e in ledger.nodes ==> e.0 != d
      modifies this
      ensures Consistent(ledger) && log == old(log) + [DelCdev(mem)] && refused == old(refused)
      ensures ledger == old(ledger).(cdevs := old(ledger.cdevs) - {(mem, d)})
    {
      ledger := ledger.(cdevs := ledger.cdevs - {(mem, d)});
      log := log + [DelCdev(mem)];
    }

    /** device_create: the class is live, the number is ours, and it has no node yet. */
    method DeviceCreate(cls: nat, d: Dev) returns (ret: int)
      requires Consistent(ledger) && cls in ledger.classes && Reserved(ledger, d)
      requires forall e :: e in ledger.nodes ==> e.0 != d
      modifies this
      ensures ret <= 0 && Consistent(ledger)
      ensures ret < 0 ==> ledger == old(ledger) && log == old(log)
      ensures refused == old(refused) + if ret < 0 then [ret] else []
      ensures ret == 0 ==> ledger == old(ledger).(nodes := old(ledger.nodes) + {(d, cls)})
                           && log == old(log) + [MakeNode(d)]
    {
      ret := *;
      if ret >= 0 {
        ret := 0;
        ledger := ledger.(nodes := ledger.nodes + {(d, cls)});
        log := log + [MakeNode(d)];
      } else {
        refused := refused + [ret];
      }
    }

    /** device_destroy: the node exists in that class. */
    method DeviceDestroy(cls: nat, d: Dev)
      requires Consistent(ledger) && (d, cls) in ledger.nodes
      modifies this
      ensures Consistent(ledger) && log == old(log) + [DropNode(d)] && refused == old(refused)
      ensures ledger == old(ledger).(nodes := old(ledger.nodes) - {(d, cls)})
    {
      ledger := ledger.(nodes := ledger.nodes - {(d, cls)});
      log := log + [DropNode(d)];
    }
  }
}
