/** `_write_atomic_payload` as one caller runs it, while other publishers move between its system calls. */
module AtomicWrite {
  import opened Wrappers
  import opened Publication

  /** Moves of others do not touch a publisher's own record, nor the file it is writing. */
  lemma {:induction false} OthersLeaveMine(initial: System, trace: seq<Action>, moves: seq<Action>, me: nat)
    requires Initial(initial) && me in initial.publishers
    requires forall i | 0 <= i < |moves| :: moves[i].id != me
    ensures SystemOk(initial, Run(initial, trace)) && SystemOk(initial, Run(initial, trace + moves))
    ensures Mine(Run(initial, trace + moves), me) == Mine(Run(initial, trace), me)
    ensures Mine(Run(initial, trace), me).created ==>
              MyFile(Run(initial, trace + moves), me) == MyFile(Run(initial, trace), me)
  {
    hide Step, Initial, FilesOk, TargetOk, PublisherOk;
    RunKeepsOk(initial, trace);
    RunKeepsOk(initial, trace + moves);
    if moves == [] {
      assert trace + moves == trace;
    } else {
      var last := |moves| - 1;
      OthersLeaveMine(initial, trace, moves[..last], me);
      assert (trace + moves)[..|trace + moves| - 1] == trace + moves[..last];
      OtherLeavesMine(initial, Run(initial, trace + moves[..last]), moves[last], me);
    }
  }

  function Mine(s: System, me: nat): Publisher
    requires me in s.publishers
  {
    s.publishers[me]
  }

  function MyFile(s: System, me: nat): FileData
    requires me in s.publishers && s.publishers[me].inode in s.fs.inodes
  {
    s.fs.inodes[s.publishers[me].inode]
  }

  lemma OtherLeavesMine(initial: System, s: System, action: Action, me: nat)
    requires SystemOk(initial, s) && me in s.publishers && action.id != me
    ensures me in Step(s, action).publishers && Mine(Step(s, action), me) == Mine(s, me)
    ensures Mine(s, me).created ==>
              && Mine(s, me).inode in s.fs.inodes && Mine(s, me).inode in Step(s, action).fs.inodes
              && MyFile(Step(s, action), me) == MyFile(s, me)
  {
    assert PublisherOk(initial, s, s.publishers[me]);
    if action.id in s.publishers {
      assert PublisherOk(initial, s, s.publishers[action.id]);
    }
  }

  lemma {:induction false} RunOfConcat(s: System, a: seq<Action>, b: seq<Action>)
    ensures Run(s, a + b) == Run(Run(s, a), b)
  {
    hide Step;
    if b == [] {
      assert a + b == a;
    } else {
      RunOfConcat(s, a, b[..|b| - 1]);
      assert (a + b)[..|a + b| - 1] == a + b[..|b| - 1];
    }
  }

  lemma RunOfMore(s: System, actions: seq<Action>, action: Action)
    ensures Run(s, actions + [action]) == Step(Run(s, actions), action)
  {
    assert (actions + [action])[..|actions|] == actions;
  }

  lemma NothingMoved(s: System, moves: seq<Action>)
    ensures moves == [] ==> Run(s, moves) == s
  {
  }

  /** The others may move without touching what is mine. */
  lemma OthersReach(initial: System, trace: seq<Action>, moves: seq<Action>, me: nat)
    requires Initial(initial) && me in initial.publishers
    requires forall i | 0 <= i < |moves| :: moves[i].id != me
    ensures Reaches(Run(initial, trace), Run(initial, trace + moves), me)
  {
    hide Run, Initial, FilesOk, TargetOk;
    OthersLeaveMine(initial, trace, moves, me);
    var before := Run(initial, trace + moves);
    assert PublisherOk(initial, before, before.publishers[me]);
  }

  // ----- What can stand in the way

  /**
   One call of `_write_atomic_payload`: whose it is, the staging name and inode it is given, and the actions, and the
   numbers of system calls and of turns of the others, that came before it.
   */
  datatype Attempt = Attempt(me: nat, temp: string, inode: nat, was: seq<Action>, calls: nat, turns: nat)

  predicate StagingTaken(s: System, temp: string, inode: nat)
  {
    temp in s.fs.names || temp == s.target || inode in s.fs.inodes
  }

  /** The action finds its way barred by what is in the file system: its staging name, or a target not to be overwritten. */
  predicate BarredBy(s: System, action: Action, a: Attempt)
  {
    && a.me in s.publishers
    && var p := s.publishers[a.me];
       || (action == CreateStaging(a.me, a.temp, a.inode) && p.stage.Checked? && StagingTaken(s, a.temp, a.inode))
       || (action == CheckTarget(a.me) && p.stage.Start? && !p.force && s.target in s.fs.names)
       || (action == LinkTarget(a.me) && p.stage.Synced? && !p.force && s.target in s.fs.names)
  }

  predicate BarredAt(initial: System, trace: seq<Action>, n: nat, a: Attempt)
    requires n < |trace|
  {
    trace[n].id == a.me && BarredBy(Run(initial, trace[..n]), trace[n], a)
  }

  predicate Barred(initial: System, trace: seq<Action>, a: Attempt)
  {
    exists n | |a.was| <= n < |trace| :: BarredAt(initial, trace, n, a)
  }

  lemma BarredGrows(initial: System, trace: seq<Action>, moves: seq<Action>, action: Action, a: Attempt)
    requires |a.was| <= |trace| && action.id == a.me
    requires forall i | 0 <= i < |moves| :: moves[i].id != a.me
    ensures Barred(initial, trace + moves + [action], a)
            <==> Barred(initial, trace, a) || BarredBy(Run(initial, trace + moves), action, a)
  {
    hide Run, BarredBy;
    var whole := trace + moves + [action];
    assert whole[..|trace + moves|] == trace + moves;
    if n :| |a.was| <= n < |trace| && BarredAt(initial, trace, n, a) {
      assert whole[..n] == trace[..n];
      assert BarredAt(initial, whole, n, a);
    }
    if BarredBy(Run(initial, trace + moves), action, a) {
      assert BarredAt(initial, whole, |trace + moves|, a);
    }
    if n :| |a.was| <= n < |whole| && BarredAt(initial, whole, n, a) {
      if n < |trace| {
        assert whole[..n] == trace[..n];
        assert BarredAt(initial, trace, n, a);
      }
    }
  }

  /** Where a caller's own moves, and nobody else's, take the file system from the start of its call. */
  predicate ByMe(start: System, s: System, me: nat)
    requires me in start.publishers
  {
    && me in s.publishers && s.target == start.target
    && var p, was := s.publishers[me], start.publishers[me];
       && p.force == was.force && p.payload == was.payload
       && (!p.created ==> s.fs == start.fs)
       && (p.stage.Start? || p.stage.Checked? ==> !p.created)
       && (p.stage.Writing? || p.stage.Synced? ==> p.temp != s.target && s.fs.names == start.fs.names[p.temp := p.inode])
       && (p.stage.Linked? ==> s.fs.names == start.fs.names[p.temp := p.inode][s.target := p.inode])
       && (InProgress(p) ==> p.temp !in start.fs.names && p.temp != s.target)
       && (p.stage.Succeeded? ==> s.fs.names == start.fs.names[s.target := p.inode])
  }

  lemma StepByMe(start: System, s: System, action: Action)
    requires action.id in start.publishers && ByMe(start, s, action.id)
    ensures ByMe(start, Step(s, action), action.id)
  {
  }

  lemma {:induction false} RunByMe(start: System, actions: seq<Action>, me: nat)
    requires me in start.publishers && start.publishers[me].stage.Start? && !start.publishers[me].created
    requires forall i | 0 <= i < |actions| :: actions[i].id == me
    ensures ByMe(start, Run(start, actions), me)
  {
    hide Step;
    if actions != [] {
      RunByMe(start, actions[..|actions| - 1], me);
      StepByMe(start, Run(start, actions[..|actions| - 1]), actions[|actions| - 1]);
    }
  }

  /** A call that nobody disturbs, with a staging name of its own, is only ever barred by an existing target. */
  lemma OnlyTargetBars(initial: System, trace: seq<Action>, own: seq<Action>, a: Attempt)
    requires a.was == trace && At(Run(initial, trace), a.me, Start)
    requires !Run(initial, trace).publishers[a.me].created && !StagingTaken(Run(initial, trace), a.temp, a.inode)
    requires forall i | 0 <= i < |own| :: own[i].id == a.me
    ensures var start := Run(initial, trace);
            && ByMe(start, Run(initial, trace + own), a.me)
            && (Barred(initial, trace + own, a) ==> !start.publishers[a.me].force && start.target in start.fs.names)
  {
    hide Run;
    var start, whole := Run(initial, trace), trace + own;
    RunOfConcat(initial, trace, own);
    RunByMe(start, own, a.me);
    if n :| |a.was| <= n < |whole| && BarredAt(initial, whole, n, a) {
      var done := own[..n - |trace|];
      assert whole[..n] == trace + done;
      RunOfConcat(initial, trace, done);
      RunByMe(start, done, a.me);
    }
  }

  /** The file system as one caller meets it: others move before each of its calls, and calls may fail. */
  class Disk {
    ghost const initial: System
    const others: nat -> seq<Action>
    const fails: nat -> bool
    var system: System
    var calls: nat
    var turns: nat
    ghost var trace: seq<Action>

    ghost predicate Valid(me: nat)
      reads this
    {
      && Initial(initial) && me in initial.publishers
      && system == Run(initial, trace) && SystemOk(initial, system)
      && forall k, i | 0 <= i < |others(k)| :: others(k)[i].id != me
    }

    constructor (initial: System, others: nat -> seq<Action>, fails: nat -> bool)
      ensures this.initial == initial && this.others == others && this.fails == fails
      ensures system == initial && trace == [] && calls == 0 && turns == 0
    {
      this.initial := initial;
      this.others := others;
      this.fails := fails;
      system := initial;
      trace := [];
      calls, turns := 0, 0;
    }

    /** The attempt began earlier, and since then only its caller and the others have moved. */
    ghost predicate Since(a: Attempt)
      reads this
    {
      && Valid(a.me)
      && a.was <= trace && a.calls <= calls && a.turns <= turns
      && forall n | |a.was| <= n < |trace| :: trace[n].id == a.me || MovedSince(a.turns, trace[n])
    }

    ghost predicate MovedSince(first: nat, action: Action)
      reads this
    {
      exists k | first <= k < turns :: action in others(k)
    }

    /** The operating system has refused a call since the attempt began. */
    ghost predicate Refused(a: Attempt)
      reads this
    {
      exists k | a.calls <= k < calls :: fails(k)
    }

    /** Something has stood in the way of the attempt. */
    ghost predicate Hindered(a: Attempt)
      reads this
    {
      Refused(a) || Barred(initial, trace, a)
    }

    /** One system call: the others move first, then the call takes effect. */
    method Do(action: Action, ghost a: Attempt)
      requires Since(a) && action.id == a.me
      modifies this`system, this`turns, this`trace
      ensures Since(a)
      ensures exists before :: && Reaches(old(system), before, a.me) && system == Step(before, action)
                               && (Hindered(a) <==> old(Hindered(a)) || BarredBy(before, action, a))
                               && (others(old(turns)) == [] ==> before == old(system))
    {
      hide Run, Step, Barred, BarredBy, Reaches, SystemOk, Initial;
      var before := Run(system, others(turns));
      ghost var moves, was := others(turns), trace;
      RunOfConcat(initial, trace, moves);
      OthersReach(initial, trace, moves, a.me);
      BarredGrows(initial, trace, moves, action, a);
      RunOfMore(initial, trace + moves, action);
      system := Step(before, action);
      trace := trace + moves + [action];
      turns := turns + 1;
      RunKeepsOk(initial, trace);
      NothingMoved(old(system), moves);
      forall n | |a.was| <= n < |trace| ensures trace[n].id == a.me || MovedSince(a.turns, trace[n]) {
        if |was| <= n < |was| + |moves| {
          assert trace[n] in others(turns - 1);
        }
      }
    }

    /** Whether the next call is one that the operating system refuses. */
    method Refuses(ghost a: Attempt) returns (refused: bool)
      requires Since(a)
      modifies this`calls
      ensures Since(a)
      ensures Hindered(a) <==> old(Hindered(a)) || refused
    {
      hide Run, Barred, SystemOk, Initial;
      refused := fails(calls);
      calls := calls + 1;
    }
  }

  /** The staging name is there and leads to the staging file. */
  predicate HasStaging(s: System, me: nat)
    requires me in s.publishers
  {
    Mine(s, me).temp in s.fs.names && s.fs.names[Mine(s, me).temp] == Mine(s, me).inode
  }

  /** The others may have moved from `s` to `before`; what is mine is as it was. */
  predicate Reaches(s: System, before: System, me: nat)
  {
    && me in s.publishers && me in before.publishers && Mine(before, me) == Mine(s, me)
    && before.target == s.target
    && (Mine(s, me).created ==>
          && Mine(s, me).inode in s.fs.inodes && Mine(s, me).inode in before.fs.inodes
          && MyFile(before, me) == MyFile(s, me))
    && (InProgress(Mine(s, me)) ==> HasStaging(before, me) && Mine(s, me).temp != s.target)
  }

  /** The fate of a call: it is over, or it goes on in the given stage. */
  predicate At(s: System, me: nat, stage: Stage)
  {
    me in s.publishers && s.publishers[me].stage == stage
  }

  /** In the stage, with nothing published yet. */
  predicate Before(s: System, me: nat, stage: Stage)
  {
    At(s, me, stage) && !s.publishers[me].published
  }

  /** The staging file gets its name; a name that is taken fails like any other error of the call. */
  method CreateFile(disk: Disk, me: nat, temp: string, inode: nat, ghost a: Attempt)
    requires a.me == me && a.temp == temp && a.inode == inode && disk.Since(a) && !disk.Hindered(a)
    requires Before(disk.system, me, Checked) && !disk.system.publishers[me].created
    modifies disk`system, disk`calls, disk`turns, disk`trace
    ensures disk.Since(a) && (disk.Hindered(a) <==> disk.system.publishers[me].stage.Failed?)
    ensures || (Before(disk.system, me, Failed) && !disk.system.publishers[me].created)
            || (Before(disk.system, me, Writing) && HoldsMine(disk.system, me, 0))
  {
    hide SystemOk, Initial;
    var refused := disk.Refuses(a);
    if refused {
      disk.Do(IoError(me), a);
      return;
    }
    disk.Do(CreateStaging(me, temp, inode), a);
    if disk.system.publishers[me].stage.Checked? {
      disk.Do(IoError(me), a);
    }
  }

  /** The staging file holds the first `count` bytes of the payload. */
  predicate HoldsMine(s: System, me: nat, count: nat)
  {
    && me in s.publishers && Mine(s, me).created && Mine(s, me).inode in s.fs.inodes
    && count <= |Mine(s, me).payload| && MyFile(s, me).bytes == Mine(s, me).payload[..count]
  }

  predicate HoldsAll(s: System, me: nat)
  {
    me in s.publishers && HoldsMine(s, me, |s.publishers[me].payload|)
  }

  /** Written and flushed: an error leaves any part of the payload and goes to the cleanup. */
  method WritePayload(disk: Disk, me: nat, partial: nat, ghost a: Attempt)
    requires a.me == me && disk.Since(a) && !disk.Hindered(a)
    requires Before(disk.system, me, Writing) && HoldsMine(disk.system, me, 0)
    modifies disk`system, disk`calls, disk`turns, disk`trace
    ensures disk.Since(a) && (disk.Hindered(a) <==> disk.system.publishers[me].stage.Cleaning?)
    ensures Before(disk.system, me, Cleaning) || (Before(disk.system, me, Writing) && HoldsAll(disk.system, me))
  {
    hide SystemOk, Initial;
    var refused := disk.Refuses(a);
    if refused {
      disk.Do(WriteSome(me, partial), a);
      disk.Do(IoError(me), a);
    } else {
      disk.Do(WriteSome(me, |disk.system.publishers[me].payload|), a);
    }
  }

  method SyncFile(disk: Disk, me: nat, ghost a: Attempt)
    requires a.me == me && disk.Since(a) && !disk.Hindered(a)
    requires Before(disk.system, me, Writing) && HoldsAll(disk.system, me)
    modifies disk`system, disk`calls, disk`turns, disk`trace
    ensures disk.Since(a) && (disk.Hindered(a) <==> disk.system.publishers[me].stage.Cleaning?)
    ensures Before(disk.system, me, Synced) || Before(disk.system, me, Cleaning)
  {
    hide SystemOk, Initial;
    var refused := disk.Refuses(a);
    if refused {
      disk.Do(IoError(me), a);
    } else {
      disk.Do(SyncStaging(me), a);
    }
  }

  /** Published without being forced; the error is that the staging name could not be unlinked. */
  predicate LinkedOnly(s: System, me: nat, stage: Stage)
  {
    At(s, me, stage) && s.publishers[me].published && !s.publishers[me].force
  }

  /** The publication: a replace when forced, otherwise a link that never overwrites and an unlink. */
  method Publish(disk: Disk, me: nat, ghost a: Attempt) returns (ghost unlinkRefused: bool)
    requires a.me == me && disk.Since(a) && !disk.Hindered(a) && Before(disk.system, me, Synced)
    modifies disk`system, disk`calls, disk`turns, disk`trace
    ensures disk.Since(a) && (disk.Hindered(a) <==> disk.system.publishers[me].stage.Cleaning?)
    ensures || (At(disk.system, me, Succeeded) && Mine(disk.system, me).temp !in disk.system.fs.names)
            || (!unlinkRefused && Before(disk.system, me, Cleaning))
            || (unlinkRefused && LinkedOnly(disk.system, me, Cleaning))
  {
    hide SystemOk, Initial;
    unlinkRefused := false;
    var refused := disk.Refuses(a);
    if refused {
      disk.Do(IoError(me), a);
    } else if disk.system.publishers[me].force {
      disk.Do(ReplaceTarget(me), a);
    } else {
      disk.Do(LinkTarget(me), a);
      if disk.system.publishers[me].stage.Linked? {
        refused := disk.Refuses(a);
        if refused {
          unlinkRefused := true;
          disk.Do(IoError(me), a);
        } else {
          disk.Do(UnlinkStaging(me), a);
        }
      }
    }
  }

  /** The `try` block. */
  method StageAndPublish(disk: Disk, me: nat, temp: string, inode: nat, partial: nat, ghost a: Attempt)
    returns (ghost unlinkRefused: bool)
    requires a.me == me && a.temp == temp && a.inode == inode && disk.Since(a) && !disk.Hindered(a)
    requires Before(disk.system, me, Checked) && !disk.system.publishers[me].created
    modifies disk`system, disk`calls, disk`turns, disk`trace
    ensures disk.Since(a) && (disk.Hindered(a) <==> !At(disk.system, me, Succeeded))
    ensures || (At(disk.system, me, Succeeded) && Mine(disk.system, me).temp !in disk.system.fs.names)
            || (!unlinkRefused && Before(disk.system, me, Failed) && !disk.system.publishers[me].created)
            || (!unlinkRefused && Before(disk.system, me, Cleaning))
            || (unlinkRefused && LinkedOnly(disk.system, me, Cleaning))
  {
    hide SystemOk, Initial, Step, HoldsMine;
    unlinkRefused := false;
    CreateFile(disk, me, temp, inode, a);
    if disk.system.publishers[me].stage.Failed? {
      return;
    }
    WritePayload(disk, me, partial, a);
    if disk.system.publishers[me].stage.Writing? {
      SyncFile(disk, me, a);
    }
    if disk.system.publishers[me].stage.Synced? {
      unlinkRefused := Publish(disk, me, a);
    }
  }

  /** The `finally` block: one attempt to remove the staging name, whose own failure is suppressed. */
  method RemoveStaging(disk: Disk, me: nat, ghost a: Attempt) returns (refused: bool)
    requires a.me == me && disk.Since(a) && disk.Hindered(a) && At(disk.system, me, Cleaning)
    modifies disk`system, disk`calls, disk`turns, disk`trace
    ensures disk.Since(a) && disk.Hindered(a)
    ensures At(disk.system, me, Failed)
    ensures disk.system.publishers[me].published == old(disk.system).publishers[me].published
    ensures disk.system.publishers[me].force == old(disk.system).publishers[me].force
    ensures if refused then HasStaging(disk.system, me) else Mine(disk.system, me).temp !in disk.system.fs.names
  {
    hide SystemOk, Initial;
    refused := disk.Refuses(a);
    disk.Do(Cleanup(me, !refused), a);
  }

  /** This publisher's whole payload was synced and then became the target. */
  predicate Published(s: System, me: nat)
  {
    && me in s.publishers && s.publishers[me].published && s.publishers[me].inode in s.fs.inodes
    && MyFile(s, me) == FileData(s.publishers[me].payload, true)
  }

  lemma PublishedIsSynced(initial: System, s: System, me: nat)
    requires SystemOk(initial, s) && me in s.publishers
    ensures At(s, me, Succeeded) || s.publishers[me].published ==> Published(s, me)
    ensures At(s, me, Start) ==> !s.publishers[me].published && !s.publishers[me].created
  {
    assert PublisherOk(initial, s, s.publishers[me]);
  }

  /** From here on no call is refused, nobody else moves, and the staging name and inode are new. */
  ghost predicate Undisturbed(disk: Disk, a: Attempt)
    reads disk
  {
    && (forall k | k >= a.calls :: !disk.fails(k))
    && (forall k | k >= a.turns :: disk.others(k) == [])
    && !StagingTaken(disk.system, a.temp, a.inode)
  }

  lemma UndisturbedEnds(disk: Disk, a: Attempt)
    requires disk.Since(a)
    requires forall k | k >= a.turns :: disk.others(k) == []
    requires At(Run(disk.initial, a.was), a.me, Start) && !StagingTaken(Run(disk.initial, a.was), a.temp, a.inode)
    ensures var start := Run(disk.initial, a.was);
            && ByMe(start, disk.system, a.me)
            && (Barred(disk.initial, disk.trace, a) ==> !start.publishers[a.me].force && start.target in start.fs.names)
  {
    hide Run;
    RunKeepsOk(disk.initial, a.was);
    PublishedIsSynced(disk.initial, Run(disk.initial, a.was), a.me);
    var own := disk.trace[|a.was|..];
    assert disk.trace == a.was + own;
    OnlyTargetBars(disk.initial, a.was, own, a);
  }

  /**
   `_write_atomic_payload`. It always ends, and the disk has gone through a run of the step machine, whatever
   the others do meanwhile. It returns exactly when nothing was in the way: no call was refused, the staging name and
   inode were new when they were taken, and the target, unless it was to be replaced, was absent at the check and at
   the link. Left alone it returns exactly when it is forced or the target is absent, and the only change of names is
   then the target, which reads as the payload.
   A return means that the payload was synced and published and that no staging name
   is left. An error means that nothing was published, unless the target had been linked and the unlink of the
   staging name was refused; a staging name is left behind exactly when the cleanup's own unlink was refused.
   */
  method WriteAtomicPayload(disk: Disk, me: nat, temp: string, inode: nat, partial: nat)
    returns (ok: bool, ghost unlinkRefused: bool, ghost cleanupRefused: bool)
    requires disk.Valid(me) && At(disk.system, me, Start)
    modifies disk`system, disk`calls, disk`turns, disk`trace
    ensures disk.Valid(me) && disk.system == Run(disk.initial, disk.trace)
    ensures var a := Attempt(me, temp, inode, old(disk.trace), old(disk.calls), old(disk.turns));
            && (ok <==> !disk.Hindered(a))
            && (old(Undisturbed(disk, a)) ==>
                  && (ok <==> Mine(disk.system, me).force || disk.system.target !in old(disk.system).fs.names)
                  && if ok then
                       && TargetData(disk.system) == Some(FileData(Mine(disk.system, me).payload, true))
                       && disk.system.fs.names
                          == old(disk.system).fs.names[disk.system.target := Mine(disk.system, me).inode]
                     else disk.system.fs == old(disk.system).fs)
    ensures ok ==> && At(disk.system, me, Succeeded) && Published(disk.system, me)
                   && Mine(disk.system, me).temp !in disk.system.fs.names
    ensures !ok ==> At(disk.system, me, Failed)
    ensures !ok && unlinkRefused ==> LinkedOnly(disk.system, me, Failed) && Published(disk.system, me)
    ensures !ok && !unlinkRefused ==> Before(disk.system, me, Failed)
    ensures !ok && cleanupRefused ==> HasStaging(disk.system, me)
    ensures !ok && !cleanupRefused ==>
              !disk.system.publishers[me].created || Mine(disk.system, me).temp !in disk.system.fs.names
  {
    hide SystemOk, Initial;
    ok, unlinkRefused, cleanupRefused := false, false, false;
    PublishedIsSynced(disk.initial, disk.system, me);
    ghost var a := Attempt(me, temp, inode, disk.trace, disk.calls, disk.turns);
    ghost var undisturbed := Undisturbed(disk, a);
    disk.Do(CheckTarget(me), a);
    if disk.system.publishers[me].stage.Failed? {
      return;
    }
    unlinkRefused := StageAndPublish(disk, me, temp, inode, partial, a);
    if disk.system.publishers[me].stage.Cleaning? {
      cleanupRefused := RemoveStaging(disk, me, a);
    }
    PublishedIsSynced(disk.initial, disk.system, me);
    ok := disk.system.publishers[me].stage.Succeeded?;
    if undisturbed {
      UndisturbedEnds(disk, a);
    }
  }
}
