/** Atomic publication of a file by any number of interleaved publishers, as a step machine over inodes. */
module Publication {
  import opened Wrappers

  datatype FileData = FileData(bytes: string, synced: bool)

  /** Names lead to inodes; a hard link is a second name for one inode. */
  datatype FileSystem = FileSystem(names: map<string, nat>, inodes: map<nat, FileData>)

  datatype Stage = Start | Checked | Writing | Synced | Linked | Cleaning | Succeeded | Failed

  /** `created` and `published` record that the staging file exists or existed, and that it became the target. */
  datatype Publisher = Publisher(
    force: bool, payload: string, stage: Stage, temp: string, inode: nat, created: bool, published: bool)

  datatype System = System(target: string, fs: FileSystem, publishers: map<nat, Publisher>)

  /** One system call of one publisher. A publisher that crashed is one that takes no further steps. */
  datatype Action =
    | CheckTarget(id: nat)
    | CreateStaging(id: nat, temp: string, inode: nat)
    | WriteSome(id: nat, upTo: nat)
    | SyncStaging(id: nat)
    | ReplaceTarget(id: nat)
    | LinkTarget(id: nat)
    | UnlinkStaging(id: nat)
    | IoError(id: nat)
    | Cleanup(id: nat, removed: bool)

  function With(s: System, id: nat, p: Publisher): System
  {
    s.(publishers := s.publishers[id := p])
  }

  function WithoutName(fs: FileSystem, name: string): FileSystem
  {
    fs.(names := fs.names - {name})
  }

  /** The effect of one system call in `_write_atomic_payload`; a call out of turn does nothing. */
  function Step(s: System, action: Action): System
  {
    if action.id !in s.publishers then s
    else
      var p := s.publishers[action.id];
      match action
      case CheckTarget(id) =>
        if !p.stage.Start? then s
        else With(s, id, p.(stage := if s.target in s.fs.names && !p.force then Failed else Checked))
      case CreateStaging(id, temp, inode) =>
        if !p.stage.Checked? || temp in s.fs.names || temp == s.target || inode in s.fs.inodes then s
        else
          System(s.target,
                 FileSystem(s.fs.names[temp := inode], s.fs.inodes[inode := FileData("", false)]),
                 s.publishers[id := p.(stage := Writing, temp := temp, inode := inode, created := true)])
      case WriteSome(id, upTo) =>
        if !p.stage.Writing? || p.inode !in s.fs.inodes || upTo > |p.payload| || upTo < |s.fs.inodes[p.inode].bytes| then s
        else s.(fs := s.fs.(inodes := s.fs.inodes[p.inode := FileData(p.payload[..upTo], false)]))
      case SyncStaging(id) =>
        if !p.stage.Writing? || p.inode !in s.fs.inodes || s.fs.inodes[p.inode].bytes != p.payload then s
        else
          With(s.(fs := s.fs.(inodes := s.fs.inodes[p.inode := FileData(p.payload, true)])), id, p.(stage := Synced))
      case ReplaceTarget(id) =>
        if !p.stage.Synced? || !p.force || p.temp !in s.fs.names then s
        else
          With(s.(fs := s.fs.(names := (s.fs.names - {p.temp})[s.target := s.fs.names[p.temp]])), id,
               p.(stage := Succeeded, published := true))
      case LinkTarget(id) =>
        if !p.stage.Synced? || p.force || p.temp !in s.fs.names then s
        else if s.target in s.fs.names then With(s, id, p.(stage := Cleaning))
        else
          With(s.(fs := s.fs.(names := s.fs.names[s.target := s.fs.names[p.temp]])), id, p.(stage := Linked, published := true))
      case UnlinkStaging(id) =>
        if !p.stage.Linked? then s
        else With(s.(fs := WithoutName(s.fs, p.temp)), id, p.(stage := Succeeded))
      case IoError(id) =>
        if p.stage.Checked? then With(s, id, p.(stage := Failed))
        else if p.stage.Writing? || p.stage.Synced? || p.stage.Linked? then With(s, id, p.(stage := Cleaning))
        else s
      case Cleanup(id, removed) =>
        if !p.stage.Cleaning? then s
        else With(if removed then s.(fs := WithoutName(s.fs, p.temp)) else s, id, p.(stage := Failed))
  }

  function Run(s: System, actions: seq<Action>): System
  {
    if actions == [] then s else Step(Run(s, actions[..|actions| - 1]), actions[|actions| - 1])
  }

  /** What a reader of the target path sees. */
  function TargetData(s: System): Option<FileData>
  {
    if s.target !in s.fs.names || s.fs.names[s.target] !in s.fs.inodes then None
    else Some(s.fs.inodes[s.fs.names[s.target]])
  }

  /** Any file system whose names all lead somewhere, and publishers that have not begun. */
  predicate Initial(s: System)
  {
    && (forall name | name in s.fs.names :: s.fs.names[name] in s.fs.inodes)
    && forall id | id in s.publishers ::
         s.publishers[id].stage.Start? && !s.publishers[id].created && !s.publishers[id].published
  }

  // ----- The invariant

  predicate InProgress(p: Publisher)
  {
    p.stage.Writing? || p.stage.Synced? || p.stage.Linked? || p.stage.Cleaning?
  }

  /** What one publisher's stage says about its staging file. */
  predicate PublisherOk(initial: System, s: System, p: Publisher)
  {
    && (InProgress(p) ==> p.created && p.temp in s.fs.names && s.fs.names[p.temp] == p.inode && p.temp != s.target)
    && (p.created ==> p.inode in s.fs.inodes && p.inode !in initial.fs.inodes)
    && (p.stage.Writing? ==> !p.published && s.fs.inodes[p.inode].bytes <= p.payload)
    && (p.stage.Start? || p.stage.Checked? || p.stage.Synced? ==> !p.published)
    && (p.stage.Start? || p.stage.Checked? ==> !p.created)
    && (p.stage.Linked? || p.stage.Succeeded? ==> p.published)
    && (p.published ==> p.created)
    && (p.stage.Synced? || p.published ==> s.fs.inodes[p.inode] == FileData(p.payload, true))
  }

  /** The target is what it was, or leads to the staging file of a publisher that published it. */
  predicate TargetOk(initial: System, s: System)
  {
    if s.target !in s.fs.names then s.target !in initial.fs.names
    else
      || (s.target in initial.fs.names && s.fs.names[s.target] == initial.fs.names[s.target])
      || exists id :: id in s.publishers && s.publishers[id].published && s.publishers[id].inode == s.fs.names[s.target]
  }

  predicate FilesOk(initial: System, s: System)
  {
    && (forall name | name in s.fs.names :: s.fs.names[name] in s.fs.inodes)
    && (forall name | name in initial.fs.names :: initial.fs.names[name] in initial.fs.inodes)
    && forall inode | inode in initial.fs.inodes :: inode in s.fs.inodes && s.fs.inodes[inode] == initial.fs.inodes[inode]
  }

  predicate SystemOk(initial: System, s: System)
  {
    && s.target == initial.target && s.publishers.Keys == initial.publishers.Keys
    && FilesOk(initial, s) && TargetOk(initial, s)
    && (forall id | id in s.publishers :: PublisherOk(initial, s, s.publishers[id]))
    && forall a, b | a in s.publishers && b in s.publishers && a != b && s.publishers[a].created && s.publishers[b].created ::
         s.publishers[a].inode != s.publishers[b].inode
  }

  /** Every system call, whether it succeeds or fails, keeps the invariant. */
  lemma StepKeepsOk(initial: System, s: System, action: Action)
    requires SystemOk(initial, s)
    ensures SystemOk(initial, Step(s, action))
  {
    if Step(s, action) != s {
      ActingStaysOk(initial, s, action);
      forall id | id in s.publishers && id != action.id
        ensures PublisherOk(initial, Step(s, action), Step(s, action).publishers[id])
      {
        OtherStaysOk(initial, s, action, id);
      }
      FilesStayOk(initial, s, action);
      TargetStaysOk(initial, s, action);
      InodesStayDistinct(initial, s, action);
    }
  }

  lemma ActingStaysOk(initial: System, s: System, action: Action)
    requires SystemOk(initial, s) && Step(s, action) != s
    ensures PublisherOk(initial, Step(s, action), Step(s, action).publishers[action.id])
  {
    assert PublisherOk(initial, s, s.publishers[action.id]);
  }

  lemma OtherStaysOk(initial: System, s: System, action: Action, id: nat)
    requires SystemOk(initial, s) && Step(s, action) != s && id in s.publishers && id != action.id
    ensures Step(s, action).publishers[id] == s.publishers[id]
    ensures PublisherOk(initial, Step(s, action), Step(s, action).publishers[id])
  {
    assert PublisherOk(initial, s, s.publishers[id]);
    assert PublisherOk(initial, s, s.publishers[action.id]);
  }

  lemma FilesStayOk(initial: System, s: System, action: Action)
    requires SystemOk(initial, s) && Step(s, action) != s
    ensures FilesOk(initial, Step(s, action))
    ensures Step(s, action).target == s.target && Step(s, action).publishers.Keys == s.publishers.Keys
  {
    assert PublisherOk(initial, s, s.publishers[action.id]);
  }

  lemma InodesStayDistinct(initial: System, s: System, action: Action)
    requires SystemOk(initial, s) && Step(s, action) != s
    ensures var s' := Step(s, action);
            forall a, b | a in s'.publishers && b in s'.publishers && a != b
                          && s'.publishers[a].created && s'.publishers[b].created ::
              s'.publishers[a].inode != s'.publishers[b].inode
  {
    if action.CreateStaging? {
      forall id | id in s.publishers && s.publishers[id].created ensures s.publishers[id].inode != action.inode {
        assert PublisherOk(initial, s, s.publishers[id]);
      }
    }
  }

  lemma TargetStaysOk(initial: System, s: System, action: Action)
    requires SystemOk(initial, s) && Step(s, action) != s
    ensures TargetOk(initial, Step(s, action))
  {
    var s', p := Step(s, action), s.publishers[action.id];
    assert PublisherOk(initial, s, p);
    if action.ReplaceTarget? || (action.LinkTarget? && s.target !in s.fs.names) {
      assert s'.publishers[action.id].published && s'.publishers[action.id].inode == s'.fs.names[s.target];
    } else if s.target in s.fs.names && !(s.target in initial.fs.names && s.fs.names[s.target] == initial.fs.names[s.target]) {
      var id :| id in s.publishers && s.publishers[id].published && s.publishers[id].inode == s.fs.names[s.target];
      assert s'.publishers[id].published && s'.publishers[id].inode == s'.fs.names[s.target];
    }
  }

  lemma {:induction false} RunKeepsOk(initial: System, actions: seq<Action>)
    requires Initial(initial)
    ensures SystemOk(initial, Run(initial, actions))
  {
    if actions != [] {
      RunKeepsOk(initial, actions[..|actions| - 1]);
      StepKeepsOk(initial, Run(initial, actions[..|actions| - 1]), actions[|actions| - 1]);
    }
  }

  /**
   Crash safety: at every point of every interleaving, the target reads as it did at the start or as
   the complete, synced payload of one publisher that published it.
   */
  lemma TargetIsNeverTorn(initial: System, actions: seq<Action>)
    requires Initial(initial)
    ensures var s := Run(initial, actions);
            || TargetData(s) == TargetData(initial)
            || exists id :: id in s.publishers && s.publishers[id].published
                            && TargetData(s) == Some(FileData(s.publishers[id].payload, true))
  {
    RunKeepsOk(initial, actions);
    var s := Run(initial, actions);
    if s.target in s.fs.names && !(s.target in initial.fs.names && s.fs.names[s.target] == initial.fs.names[s.target]) {
      var id :| id in s.publishers && s.publishers[id].published && s.publishers[id].inode == s.fs.names[s.target];
      assert PublisherOk(initial, s, s.publishers[id]);
    }
  }

  /** The step that publishes puts exactly the publisher's payload, whole and synced, at the target. */
  lemma PublishingShowsPayload(initial: System, actions: seq<Action>, action: Action)
    requires Initial(initial) && action.id in initial.publishers
    ensures var s, s' := Run(initial, actions), Step(Run(initial, actions), action);
            action.id in s.publishers && action.id in s'.publishers &&
            (s'.publishers[action.id].published && !s.publishers[action.id].published ==>
               TargetData(s') == Some(FileData(s.publishers[action.id].payload, true)))
  {
    RunKeepsOk(initial, actions);
    StepKeepsOk(initial, Run(initial, actions), action);
    assert PublisherOk(initial, Run(initial, actions), Run(initial, actions).publishers[action.id]);
  }

  // ----- Exclusive publishers

  predicate AllExclusive(s: System)
  {
    forall id | id in s.publishers :: !s.publishers[id].force
  }

  /** The target, once there, is the initial file or the one published file. */
  predicate ExclusiveOk(initial: System, s: System)
  {
    && AllExclusive(s)
    && (s.target in initial.fs.names ==>
          s.target in s.fs.names && s.fs.names[s.target] == initial.fs.names[s.target]
          && forall id | id in s.publishers :: !s.publishers[id].published)
    && (forall id | id in s.publishers && s.publishers[id].published ::
          s.target in s.fs.names && s.fs.names[s.target] == s.publishers[id].inode)
  }

  lemma StepKeepsExclusive(initial: System, s: System, action: Action)
    requires SystemOk(initial, s) && ExclusiveOk(initial, s)
    ensures ExclusiveOk(initial, Step(s, action))
    ensures s.target in s.fs.names ==>
              s.target in Step(s, action).fs.names && Step(s, action).fs.names[s.target] == s.fs.names[s.target]
              && TargetData(Step(s, action)) == TargetData(s)
  {
    var s' := Step(s, action);
    if s' != s {
      assert PublisherOk(initial, s, s.publishers[action.id]);
      if s.target in s.fs.names {
        TargetInodeIsQuiet(initial, s, action.id);
      }
    }
  }

  /** No publisher still writes to the file that the target leads to. */
  lemma TargetInodeIsQuiet(initial: System, s: System, id: nat)
    requires SystemOk(initial, s) && s.target in s.fs.names && id in s.publishers
    ensures s.publishers[id].stage.Writing? ==> s.fs.names[s.target] != s.publishers[id].inode
  {
    var p := s.publishers[id];
    assert PublisherOk(initial, s, p);
    if s.target in initial.fs.names && s.fs.names[s.target] == initial.fs.names[s.target] {
      assert p.created ==> p.inode !in initial.fs.inodes;
      assert s.fs.names[s.target] in s.fs.inodes;
    } else {
      var other :| other in s.publishers && s.publishers[other].published && s.publishers[other].inode == s.fs.names[s.target];
      assert PublisherOk(initial, s, s.publishers[other]);
    }
  }

  lemma {:induction false} RunKeepsExclusive(initial: System, actions: seq<Action>)
    requires Initial(initial) && AllExclusive(initial)
    ensures SystemOk(initial, Run(initial, actions)) && ExclusiveOk(initial, Run(initial, actions))
  {
    RunKeepsOk(initial, actions);
    if actions != [] {
      RunKeepsOk(initial, actions[..|actions| - 1]);
      RunKeepsExclusive(initial, actions[..|actions| - 1]);
      StepKeepsExclusive(initial, Run(initial, actions[..|actions| - 1]), actions[|actions| - 1]);
    }
  }

  /** When all publishers are exclusive, a target that exists is never overwritten, however the run goes on. */
  lemma {:induction false} FirstLinkIsKept(initial: System, actions: seq<Action>, more: seq<Action>)
    requires Initial(initial) && AllExclusive(initial)
    requires initial.target in Run(initial, actions).fs.names
    ensures var s, s' := Run(initial, actions), Run(initial, actions + more);
            && initial.target in s'.fs.names && s'.fs.names[initial.target] == s.fs.names[initial.target]
            && TargetData(s') == TargetData(s)
  {
    hide Step, Initial, AllExclusive;
    RunKeepsExclusive(initial, actions);
    if more == [] {
      assert actions + more == actions;
    } else {
      var last := |more| - 1;
      FirstLinkIsKept(initial, actions, more[..last]);
      var whole := actions + more;
      assert whole[..|whole| - 1] == actions + more[..last];
      RunKeepsExclusive(initial, actions + more[..last]);
      StepKeepsExclusive(initial, Run(initial, actions + more[..last]), more[last]);
    }
  }

  /**
   When all publishers are exclusive, at most one returns success; it does so only on a target that was
   absent at the start, and the target then reads as its payload.
   */
  lemma AtMostOneSucceeds(initial: System, actions: seq<Action>, a: nat, b: nat)
    requires Initial(initial) && AllExclusive(initial) && a in initial.publishers && b in initial.publishers
    ensures var s := Run(initial, actions);
            && a in s.publishers && b in s.publishers
            && (s.publishers[a].stage.Succeeded? && s.publishers[b].stage.Succeeded? ==> a == b)
            && (s.publishers[a].stage.Succeeded? ==>
                  initial.target !in initial.fs.names && TargetData(s) == Some(FileData(s.publishers[a].payload, true)))
  {
    RunKeepsExclusive(initial, actions);
    var s := Run(initial, actions);
    assert PublisherOk(initial, s, s.publishers[a]) && PublisherOk(initial, s, s.publishers[b]);
  }

  /** A publisher that succeeded left no staging name behind. */
  lemma SuccessLeavesNoStaging(initial: System, actions: seq<Action>, action: Action)
    requires Initial(initial) && action.id in initial.publishers
    ensures var s, s' := Run(initial, actions), Step(Run(initial, actions), action);
            action.id in s.publishers && action.id in s'.publishers &&
            (s'.publishers[action.id].stage.Succeeded? && !s.publishers[action.id].stage.Succeeded? ==>
               s'.publishers[action.id].temp !in s'.fs.names)
  {
    RunKeepsOk(initial, actions);
    assert PublisherOk(initial, Run(initial, actions), Run(initial, actions).publishers[action.id]);
  }
}
