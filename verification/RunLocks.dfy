/**
 Lock files and their holders as the program's own calls, each tied to the
 steps of `RunProtocol` it performs.
 */
module RunLocks {
  import opened Prelude
  import opened RunNames
  import opened RunProtocol

  /** The part of the protocol's state that is on disk and in the kernel. */
  datatype Disk = Disk(files: map<string, Inode>, locks: map<Inode, Holder>, next: Inode)

  function DiskOf(s: State): Disk {
    Disk(s.files, s.locks, s.next)
  }

  /** What the operating system refuses to do for a call. */
  datatype Trouble = Nothing | OpenRefused | LockRefused

  datatype AcquireError = WouldBlock | Io

  /** The owner's two steps of `acquire`, or the ones an error leaves of them. */
  function Acquired(s: State, id: RunId, trouble: Trouble): State
    requires Enabled(s, Create(id))
  {
    match trouble
    case Nothing => Apply(Apply(s, Create(id)), Lock(id))
    case OpenRefused => Apply(s, AcquireFails(id))
    case LockRefused => Apply(Apply(s, Create(id)), LockError(id))
  }

  /** What `run_liveness` reads off a disk, an error of the operating system included. */
  function Read(d: Disk, id: RunId, trouble: Trouble): Liveness {
    if trouble == OpenRefused || (trouble == LockRefused && LockName(id) in d.files) then Unreadable
    else Reads(d.files, d.locks, id)
  }

  // ----- a probe in the protocol -----

  /** The steps of a probe that nothing interrupts; one that meets an error just goes away. */
  function ProbeSteps(d: Disk, q: ProbeId, id: RunId, trouble: Trouble): seq<Step> {
    if trouble == OpenRefused then []
    else
      [ProbeOpen(q, id)] +
      if LockName(id) !in d.files then []
      else if trouble == LockRefused then [ProbeDie(q)]
      else [ProbeLock(q)] + if d.files[LockName(id)] in d.locks then [] else [ProbeClose(q)]
  }

  predicate CanProbe(s: State, q: ProbeId, id: RunId) {
    q !in s.probes && id in s.rows && id in s.phase
  }

  /** The probe's steps lead from `s` to a state with this disk, and with this reading if there is one. */
  ghost predicate ProbeLeadsTo(s: State, q: ProbeId, id: RunId, trouble: Trouble, liveness: Liveness, d: Disk) {
    var steps := ProbeSteps(DiskOf(s), q, id, trouble);
    && Legal(s, steps)
    && var t := Run(s, steps);
       && DiskOf(t) == d && t.rows == s.rows && t.phase == s.phase
       && t.probes == if liveness == Unreadable then s.probes else s.probes[q := Reading(id, liveness)]
  }

  lemma OpenedProbe(s: State, q: ProbeId, id: RunId)
    requires CanProbe(s, q, id)
    ensures Legal(s, [ProbeOpen(q, id)]) && Run(s, [ProbeOpen(q, id)]) == Apply(s, ProbeOpen(q, id))
  {
    StepsCompose(s, [], ProbeOpen(q, id));
    assert [] + [ProbeOpen(q, id)] == [ProbeOpen(q, id)];
  }

  lemma TriedProbe(s: State, q: ProbeId, id: RunId)
    requires CanProbe(s, q, id) && LockName(id) in s.files
    ensures ProbeLeadsTo(s, q, id, Nothing, Probed(s, id), DiskOf(s))
  {
    OpenedProbe(s, q, id);
    var steps := [ProbeOpen(q, id)] + [ProbeLock(q)];
    StepsCompose(s, [ProbeOpen(q, id)], ProbeLock(q));
    if s.files[LockName(id)] in s.locks {
      assert ProbeSteps(DiskOf(s), q, id, Nothing) == steps;
    } else {
      StepsCompose(s, steps, ProbeClose(q));
      assert ProbeSteps(DiskOf(s), q, id, Nothing) == steps + [ProbeClose(q)];
      assert Run(s, steps + [ProbeClose(q)]).locks == s.locks;
    }
  }

  lemma ProbeIsSteps(s: State, q: ProbeId, id: RunId, trouble: Trouble)
    requires CanProbe(s, q, id)
    ensures ProbeLeadsTo(s, q, id, trouble, Read(DiskOf(s), id, trouble), DiskOf(s))
  {
    OpenedProbe(s, q, id);
    if trouble != OpenRefused {
      if LockName(id) !in s.files {
        assert ProbeSteps(DiskOf(s), q, id, trouble) == [ProbeOpen(q, id)];
      } else if trouble == LockRefused {
        StepsCompose(s, [ProbeOpen(q, id)], ProbeDie(q));
        assert Run(s, ProbeSteps(DiskOf(s), q, id, trouble)).probes == s.probes;
      } else {
        TriedProbe(s, q, id);
      }
    }
  }

  // ----- the directory -----

  /** One `.run-locks` directory, with the kernel's locks on its files. */
  class LockDir {
    var files: map<string, Inode>
    var locks: map<Inode, Holder>
    var next: Inode

    constructor ()
      ensures OnDisk() == DiskOf(Init)
    {
      files, locks, next := map[], map[], 0;
    }

    function OnDisk(): Disk
      reads this
    {
      Disk(files, locks, next)
    }

    method OpenOrCreate(name: string) returns (inode: Inode)
      modifies this
      ensures locks == old(locks)
      ensures name in old(files) ==> inode == old(files)[name] && files == old(files) && next == old(next)
      ensures name !in old(files) ==> inode == old(next) && files == old(files)[name := inode] && next == old(next) + 1
    {
      if name in files {
        inode := files[name];
      } else {
        inode := next;
        files := files[name := inode];
        next := next + 1;
      }
    }

    method TryLock(inode: Inode, holder: Holder) returns (taken: bool)
      modifies this`locks
      ensures taken <==> inode !in old(locks)
      ensures locks == if taken then old(locks)[inode := holder] else old(locks)
    {
      taken := inode !in locks;
      if taken {
        locks := locks[inode := holder];
      }
    }

    /** Closing a file releases the lock taken through it. */
    method Close(inode: Inode, holder: Holder)
      modifies this`locks
      ensures locks == if inode in old(locks) && old(locks)[inode] == holder then old(locks) - {inode} else old(locks)
    {
      if inode in locks && locks[inode] == holder {
        locks := locks - {inode};
      }
    }

    method Remove(name: string)
      modifies this`files
      ensures files == old(files) - {name}
    {
      files := files - {name};
    }

    /**
     `run_liveness`: the lock taken to look is gone again on return, and the
     call is the protocol's probe, run through without interruption.
     */
    method RunLiveness(q: ProbeId, id: RunId, trouble: Trouble) returns (liveness: Liveness)
      modifies this
      ensures liveness == Read(old(OnDisk()), id, trouble)
      ensures OnDisk() == old(OnDisk())
      ensures forall s {:trigger DiskOf(s)} ::
        DiskOf(s) == old(OnDisk()) && CanProbe(s, q, id) ==> ProbeLeadsTo(s, q, id, trouble, liveness, OnDisk())
    {
      forall s | DiskOf(s) == OnDisk() && CanProbe(s, q, id)
        ensures ProbeLeadsTo(s, q, id, trouble, Read(OnDisk(), id, trouble), OnDisk())
      {
        ProbeIsSteps(s, q, id, trouble);
      }
      var name := LockName(id);
      if trouble == OpenRefused {
        return Unreadable;
      }
      if name !in files {
        return NoRecord;
      }
      var inode := files[name];
      if trouble == LockRefused {
        return Unreadable;
      }
      var taken := TryLock(inode, Prober(q));
      if !taken {
        return Held;
      }
      Close(inode, Prober(q));
      assert locks == old(locks);
      return Abandoned;
    }

    /** `discard_run_lock`; a record already gone counts as success, one that cannot be removed stays. */
    method Discard(id: RunId, stuck: bool) returns (ok: bool)
      modifies this`files
      ensures ok <==> !stuck || LockName(id) !in old(files)
      ensures files == if stuck then old(files) else old(files) - {LockName(id)}
    {
      if stuck {
        return LockName(id) !in files;
      }
      Remove(LockName(id));
      return true;
    }
  }

  /** The lock of one open run, held from `Acquire` until it is dropped. */
  class RunLock {
    const id: RunId
    const inode: Inode
    var keepRecord: bool

    constructor (id: RunId, inode: Inode)
      ensures this.id == id && this.inode == inode && !keepRecord
    {
      this.id, this.inode, keepRecord := id, inode, false;
    }

    /**
     The disk afterwards is the one the owner's protocol steps lead to, and a
     lock is returned exactly when those steps end with the owner holding it.
     */
    static method Acquire(dir: LockDir, id: RunId, trouble: Trouble) returns (r: Result<RunLock, AcquireError>)
      modifies dir
      ensures forall s {:trigger DiskOf(s)} ::
        DiskOf(s) == old(dir.OnDisk()) && Enabled(s, Create(id)) ==> Performed(dir, s, id, trouble, r.Ok?)
      ensures r.Ok? ==> fresh(r.value) && r.value.id == id && !r.value.keepRecord
      ensures r.Ok? ==> r.value.Held(dir)
      ensures r == Err(WouldBlock) <==>
        && trouble == Nothing
        && (if LockName(id) in old(dir.files) then old(dir.files)[LockName(id)] else old(dir.next)) in old(dir.locks)
    {
      if trouble == OpenRefused {
        return Err(Io);
      }
      var inode := dir.OpenOrCreate(LockName(id));
      if trouble == LockRefused {
        return Err(Io);
      }
      var taken := dir.TryLock(inode, Owner(id));
      if !taken {
        return Err(WouldBlock);
      }
      var lock := new RunLock(id, inode);
      return Ok(lock);
    }

    static ghost predicate Performed(dir: LockDir, s: State, id: RunId, trouble: Trouble, ok: bool)
      reads dir
    {
      && Enabled(s, Create(id))
      && dir.OnDisk() == DiskOf(Acquired(s, id, trouble))
      && (ok <==> At(Acquired(s, id, trouble), id, Holding))
    }

    predicate HoldsIn(locks: map<Inode, Holder>) {
      inode in locks && locks[inode] == Owner(id)
    }

    /** This lock is held, through the file its run's name leads to. */
    ghost predicate Held(dir: LockDir)
      reads this, dir
    {
      !keepRecord && HoldsIn(dir.locks) && LockName(id) in dir.files && dir.files[LockName(id)] == inode
    }

    /** This lock is the one its owner holds in `s`, and the directory is as in `s`. */
    ghost predicate Represents(dir: LockDir, s: State)
      reads dir
    {
      dir.OnDisk() == DiskOf(s) && At(s, id, Holding) && id in s.inodes && s.inodes[id] == inode
    }

    /**
     Going out of scope: an orderly drop unlinks first and releases second, an
     abandoned one only releases. An unlinking that fails (`stuck`) is ignored, and
     leaves what an abandoned lock leaves.
     */
    method Drop(dir: LockDir, stuck: bool)
      modifies dir
      ensures dir.files == (if keepRecord || stuck then old(dir.files) else old(dir.files) - {LockName(id)})
      ensures dir.next == old(dir.next)
      ensures dir.locks == (if HoldsIn(old(dir.locks)) then old(dir.locks) - {inode} else old(dir.locks))
      ensures forall s {:trigger old(Represents(dir, s))} :: old(Represents(dir, s)) ==>
        dir.OnDisk() == DiskOf(
          if keepRecord || stuck then Apply(s, RunProtocol.Abandon(id)) else Apply(Apply(s, Unlink(id)), Release(id)))
    {
      if !keepRecord && !stuck {
        dir.Remove(LockName(id));
      }
      dir.Close(inode, Owner(id));
    }

    /** Consumes the lock: the record stays on disk, unlocked. */
    method Abandon(dir: LockDir)
      modifies this, dir
      ensures keepRecord
      ensures dir.files == old(dir.files) && dir.next == old(dir.next)
      ensures dir.locks == (if HoldsIn(old(dir.locks)) then old(dir.locks) - {inode} else old(dir.locks))
      ensures forall s {:trigger old(Represents(dir, s))} :: old(Represents(dir, s)) ==>
        dir.OnDisk() == DiskOf(Apply(s, RunProtocol.Abandon(id)))
    {
      keepRecord := true;
      assert forall s {:trigger old(Represents(dir, s))} :: old(Represents(dir, s)) ==> Represents(dir, s);
      Drop(dir, false);
    }
  }
}
