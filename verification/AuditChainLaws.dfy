/** Whole runs of audit-chain sinks on one file, and what a verified chain proves. */
module AuditChainLaws {
  import opened Wrappers
  import opened JsonValues
  import opened Models
  import opened AuditChain

  // ----- What a verified file contains

  /** Consecutive entries of one stream, each linked to the one before and carrying its own MAC. */
  predicate Chain(c: Codec, key: string, entries: seq<Entry>)
  {
    forall i | 0 <= i < |entries| :: Linked(c, key, entries, i)
  }

  predicate Linked(c: Codec, key: string, entries: seq<Entry>, i: nat)
    requires i < |entries|
  {
    var e := entries[i];
    && e.unsigned.sequence == i + 1
    && e.unsigned.streamId == entries[0].unsigned.streamId
    && e.unsigned.previousMac == HeadOf(entries[..i])
    && e.mac == c.mac(key, e.unsigned)
  }

  lemma ChainOfMore(c: Codec, key: string, entries: seq<Entry>, e: Entry)
    requires Chain(c, key, entries)
    requires e.unsigned.sequence == |entries| + 1 && e.unsigned.previousMac == HeadOf(entries)
    requires entries != [] ==> e.unsigned.streamId == entries[0].unsigned.streamId
    requires e.mac == c.mac(key, e.unsigned)
    ensures Chain(c, key, entries + [e])
  {
    var more := entries + [e];
    forall i | 0 <= i < |more| ensures Linked(c, key, more, i) {
      if i < |entries| {
        assert Linked(c, key, entries, i);
        assert more[..i] == entries[..i];
      } else {
        assert more[..i] == entries;
      }
    }
  }

  lemma ChainPrefix(c: Codec, key: string, entries: seq<Entry>, n: nat)
    requires Chain(c, key, entries) && n <= |entries|
    ensures Chain(c, key, entries[..n])
  {
    forall i | 0 <= i < n ensures Linked(c, key, entries[..n], i) {
      assert Linked(c, key, entries, i);
      assert entries[..n][..i] == entries[..i];
    }
  }

  lemma {:induction false} ReadsAChain(c: Codec, key: string, stream: Option<string>, read: seq<Entry>,
                                       bytesRead: nat, rest: string)
    requires Chain(c, key, read) && ReadAll(c, key, stream, read, bytesRead, rest).Some?
    ensures Chain(c, key, ReadAll(c, key, stream, read, bytesRead, rest).value)
    decreases |rest|
  {
    if rest != [] {
      var line := ReadLine(rest);
      var e := Check(c, key, stream, read, bytesRead, line).value;
      ChainOfMore(c, key, read, e);
      ReadsAChain(c, key, stream, read + [e], bytesRead + |line|, rest[|line|..]);
    }
  }

  /** The entries of a file that verifies. */
  function EntriesOf(c: Codec, key: string, content: string): seq<Entry>
  {
    match ReadAll(c, key, None, [], 0, content)
    case None => []
    case Some(read) => read
  }

  lemma {:induction false} StreamOnlyRestricts(c: Codec, key: string, stream: Option<string>, read: seq<Entry>,
                                               bytesRead: nat, rest: string)
    requires ReadAll(c, key, stream, read, bytesRead, rest).Some?
    ensures ReadAll(c, key, None, read, bytesRead, rest) == ReadAll(c, key, stream, read, bytesRead, rest)
    decreases |rest|
  {
    if rest != [] {
      var line := ReadLine(rest);
      var e := Check(c, key, stream, read, bytesRead, line).value;
      StreamOnlyRestricts(c, key, stream, read + [e], bytesRead + |line|, rest[|line|..]);
    }
  }

  /** A successful verification: a non-empty chain whose length, stream and head are reported. */
  lemma VerifiedMeansChain(c: Codec, key: string, head: Option<string>, stream: Option<string>, content: string)
    requires Verify(c, key, head, stream, content).Some?
    ensures var entries, v := EntriesOf(c, key, content), Verify(c, key, head, stream, content).value;
            && entries != [] && Chain(c, key, entries)
            && v == Verification(entries[0].unsigned.streamId, |entries|, entries[|entries| - 1].mac)
            && (head.Some? ==> v.headMac == head.value)
  {
    StreamOnlyRestricts(c, key, stream, [], 0, content);
    ReadsAChain(c, key, stream, [], 0, content);
  }

  /** Two entries with equal MACs whose authenticated fields differ. */
  predicate Collision(c: Codec, key: string, a: seq<Entry>, b: seq<Entry>)
  {
    exists i, j :: 0 <= i < |a| && 0 <= j < |b| && a[i].unsigned != b[j].unsigned
                   && c.mac(key, a[i].unsigned) == c.mac(key, b[j].unsigned)
  }

  /** Two chains under one key with the same head are the same chain, or exhibit a MAC collision. */
  lemma {:induction false} HeadBindsChain(c: Codec, key: string, a: seq<Entry>, b: seq<Entry>)
    requires Chain(c, key, a) && Chain(c, key, b) && HeadOf(a) == HeadOf(b)
    ensures a == b || Collision(c, key, a, b)
    decreases |a|
  {
    if a != [] && b != [] {
      var m, n := |a| - 1, |b| - 1;
      assert Linked(c, key, a, m) && Linked(c, key, b, n);
      if a[m].unsigned == b[n].unsigned {
        ChainPrefix(c, key, a, m);
        ChainPrefix(c, key, b, n);
        HeadBindsChain(c, key, a[..m], b[..n]);
        if a[..m] == b[..n] {
          assert a == a[..m] + [a[m]] && b == b[..n] + [b[n]];
        } else {
          var i, j :| 0 <= i < m && 0 <= j < n && a[..m][i].unsigned != b[..n][j].unsigned
                      && c.mac(key, a[..m][i].unsigned) == c.mac(key, b[..n][j].unsigned);
          assert a[i].unsigned != b[j].unsigned;
        }
      }
    }
  }

  /**
   An external checkpoint pins the whole history: two files that verify under one key against the
   same expected head hold the same entries in the same order, unless they exhibit a MAC collision.
   */
  lemma CheckpointBindsFile(c: Codec, key: string, head: string, first: string, second: string)
    requires Verify(c, key, Some(head), None, first).Some? && Verify(c, key, Some(head), None, second).Some?
    ensures EntriesOf(c, key, first) == EntriesOf(c, key, second)
            || Collision(c, key, EntriesOf(c, key, first), EntriesOf(c, key, second))
  {
    VerifiedMeansChain(c, key, Some(head), None, first);
    VerifiedMeansChain(c, key, Some(head), None, second);
    HeadBindsChain(c, key, EntriesOf(c, key, first), EntriesOf(c, key, second));
  }

  /** So no shorter history of the same chain verifies against the head of the longer one. */
  lemma RollbackIsDetected(c: Codec, key: string, head: string, whole: string, shortened: string)
    requires Verify(c, key, Some(head), None, whole).Some?
    requires EntriesOf(c, key, shortened) != EntriesOf(c, key, whole)
    requires !Collision(c, key, EntriesOf(c, key, whole), EntriesOf(c, key, shortened))
    ensures Verify(c, key, Some(head), None, shortened).None?
  {
    if Verify(c, key, Some(head), None, shortened).Some? {
      CheckpointBindsFile(c, key, head, whole, shortened);
    }
  }

  // ----- Reading what was appended

  /** Text that ends its last line, or is empty. */
  predicate Complete(text: string)
  {
    text == [] || EndsLine(text)
  }

  lemma {:induction false} TakeLineOfMore(a: string, b: string, limit: nat)
    requires EndsLine(TakeLine(a, limit))
    ensures TakeLine(a + b, limit) == TakeLine(a, limit)
    decreases |a|
  {
    if a[0] != '\n' {
      assert (a + b)[1..] == a[1..] + b;
      assert TakeLine(a, limit) == [a[0]] + TakeLine(a[1..], limit - 1);
      TakeLineOfMore(a[1..], b, limit - 1);
    }
  }

  /** Reading text and then more text is reading the first and continuing with the rest. */
  lemma {:induction false} ReadAllOfMore(c: Codec, key: string, stream: Option<string>, read: seq<Entry>,
                                         bytesRead: nat, a: string, b: string)
    requires ReadAll(c, key, stream, read, bytesRead, a).Some?
    ensures ReadAll(c, key, stream, read, bytesRead, a + b)
         == ReadAll(c, key, stream, ReadAll(c, key, stream, read, bytesRead, a).value, bytesRead + |a|, b)
    decreases |a|
  {
    hide Check, ReadLine;
    if a == [] {
      assert a + b == b;
    } else {
      var line := ReadLine(a);
      var e := Check(c, key, stream, read, bytesRead, line).value;
      var rest := a[|line|..];
      ReadStep(c, key, stream, read, bytesRead, a, e);
      LineOfMore(a, b);
      ReadStep(c, key, stream, read, bytesRead, a + b, e);
      ReadAllOfMore(c, key, stream, read + [e], bytesRead + |line|, rest, b);
    }
  }

  /** A complete first line is read the same when more text follows. */
  lemma LineOfMore(a: string, b: string)
    requires EndsLine(ReadLine(a))
    ensures ReadLine(a + b) == ReadLine(a)
    ensures (a + b)[|ReadLine(a)|..] == a[|ReadLine(a)|..] + b
    ensures a != [] && a + b != []
  {
    TakeLineOfMore(a, b, MAX_AUDIT_CHAIN_ENTRY_BYTES + 2);
  }

  lemma {:induction false} TakeLineOfText(text: string, limit: nat)
    requires '\n' !in text && |text| < limit
    ensures TakeLine(text + "\n", limit) == text + "\n"
    decreases |text|
  {
    if text != [] {
      assert (text + "\n")[1..] == text[1..] + "\n";
      TakeLineOfText(text[1..], limit - 1);
    }
  }

  /** Text whose last line is not ended is never read without an error. */
  lemma {:induction false} TornIsRejected(c: Codec, key: string, stream: Option<string>, read: seq<Entry>,
                                          bytesRead: nat, rest: string)
    requires !Complete(rest)
    ensures ReadAll(c, key, stream, read, bytesRead, rest).None?
    decreases |rest|
  {
    var line := ReadLine(rest);
    if Check(c, key, stream, read, bytesRead, line).Some? {
      var e := Check(c, key, stream, read, bytesRead, line).value;
      assert rest[..|rest|] == rest;
      assert |line| < |rest| && EndsLine(line);
      assert rest[|rest| - 1] == rest[|line|..][|rest| - |line| - 1];
      TornIsRejected(c, key, stream, read + [e], bytesRead + |line|, rest[|line|..]);
    }
  }

  lemma TornNeverVerifies(c: Codec, key: string, head: Option<string>, stream: Option<string>, content: string)
    requires !Complete(content)
    ensures Verify(c, key, head, stream, content).None?
  {
    TornIsRejected(c, key, stream, [], 0, content);
  }

  // ----- One call of an up-to-date sink

  /** The sink's count and head are those of the file, as its own verification finds them. */
  predicate KnowsFile(c: Codec, sink: SinkState, text: string)
  {
    if sink.entryCount == 0 then sink.headMac.None? && text == ""
    else sink.headMac.Some?
         && Verify(c, sink.key, None, Some(sink.streamId), text)
         == Some(Verification(sink.streamId, sink.entryCount, sink.headMac.value))
  }

  predicate ValidIdentity(sink: SinkState)
  {
    ValidKey(sink.key) && IsIdentifier(sink.streamId)
  }

  lemma KnownEntries(c: Codec, sink: SinkState, text: string)
    requires ValidIdentity(sink) && KnowsFile(c, sink, text)
    ensures var all := ReadAll(c, sink.key, Some(sink.streamId), [], 0, text);
            && all.Some? && |all.value| == sink.entryCount && HeadOf(all.value) == sink.headMac
            && (all.value != [] ==> all.value[0].unsigned.streamId == sink.streamId)
  {
  }

  /** The line the sink writes passes every check of the verifier at the end of a file the sink knows. */
  lemma NextLineIsRead(c: Codec, sink: SinkState, read: seq<Entry>, bytesRead: nat, record: AuditRecord)
    requires Lawful(c) && |read| == sink.entryCount && HeadOf(read) == sink.headMac
    requires read != [] ==> read[0].unsigned.streamId == sink.streamId
    requires EntryValid(c, NextEntry(c, sink, record)) && sink.entryCount + 1 <= MAX_AUDIT_CHAIN_ENTRIES
    requires |Line(c, NextEntry(c, sink, record))| <= MAX_AUDIT_CHAIN_ENTRY_BYTES
    requires bytesRead + |Line(c, NextEntry(c, sink, record))| <= MAX_AUDIT_CHAIN_BYTES
    ensures ReadAll(c, sink.key, Some(sink.streamId), read, bytesRead, Line(c, NextEntry(c, sink, record)))
         == Some(read + [NextEntry(c, sink, record)])
  {
    var e := NextEntry(c, sink, record);
    var line := Line(c, e);
    TakeLineOfText(c.render(e), MAX_AUDIT_CHAIN_ENTRY_BYTES + 2);
    assert ReadLine(line) == line;
    assert line[|line|..] == [];
    assert Check(c, sink.key, Some(sink.streamId), read, bytesRead, line) == Some(e);
  }

  /** After its own complete line, whether or not an error followed, the file verifies one entry further. */
  lemma CompleteWriteVerifies(c: Codec, sink: SinkState, content: Option<string>, record: AuditRecord, parentExists: bool)
    requires Lawful(c) && ValidIdentity(sink) && KnowsFile(c, sink, Text(content))
    requires MayAppend(c, sink, content, record, parentExists)
    ensures var e := NextEntry(c, sink, record);
            && Verify(c, sink.key, None, Some(sink.streamId), Text(content) + Line(c, e))
               == Some(Verification(sink.streamId, sink.entryCount + 1, e.mac))
            && ReadAll(c, sink.key, Some(sink.streamId), [], 0, Text(content) + Line(c, e))
               == Some(ReadAll(c, sink.key, Some(sink.streamId), [], 0, Text(content)).value + [e])
  {
    hide Check, ReadLine, EntryValid;
    KnownEntries(c, sink, Text(content));
    var read := ReadAll(c, sink.key, Some(sink.streamId), [], 0, Text(content)).value;
    NextLineIsRead(c, sink, read, |Text(content)|, record);
    ReadAllOfMore(c, sink.key, Some(sink.streamId), [], 0, Text(content), Line(c, NextEntry(c, sink, record)));
  }

  /**
   A successful call appends exactly one entry, for the given record, after those in the file, and
   leaves a file that the verifier accepts with the sink's new count and head.
   */
  lemma SuccessExtendsChain(c: Codec, sink: SinkState, content: Option<string>, record: AuditRecord, io: Io,
                            parentExists: bool)
    requires Lawful(c) && ValidIdentity(sink) && KnowsFile(c, sink, Text(content))
    requires Succeeds(c, sink, content, record, io, parentExists)
    ensures var after, sink' := Appended(c, sink, content, record, io, parentExists), AfterCall(c, sink, content, record, io, parentExists);
            && after.Some?
            && EntriesOf(c, sink.key, after.value) == EntriesOf(c, sink.key, Text(content)) + [NextEntry(c, sink, record)]
            && sink'.entryCount == sink.entryCount + 1
            && sink'.fileState == Stat(after)
            && KnowsFile(c, sink', after.value)
  {
    CompleteWriteVerifies(c, sink, content, record, parentExists);
    KnownEntries(c, sink, Text(content));
    StreamOnlyRestricts(c, sink.key, Some(sink.streamId), [], 0, Text(content));
    StreamOnlyRestricts(c, sink.key, Some(sink.streamId), [], 0, Text(content) + Line(c, NextEntry(c, sink, record)));
  }

  // ----- Runs

  /** One file and the sinks opened on it. */
  datatype System = System(content: Option<string>, sinks: map<nat, SinkState>)

  /** Foreign is an append by something that is not one of the sinks. */
  datatype Event =
    | Open(id: nat, key: string, streamId: string, expectedHead: Option<string>)
    | Call(id: nat, record: AuditRecord, io: Io, parentExists: bool)
    | Foreign(bytes: string)

  function Step(c: Codec, s: System, event: Event): System
  {
    match event
    case Open(id, key, streamId, expectedHead) =>
      var sink := Resume(c, key, streamId, expectedHead, s.content);
      if id in s.sinks || sink.None? then s else s.(sinks := s.sinks[id := sink.value])
    case Call(id, record, io, parentExists) =>
      if id !in s.sinks then s
      else
        System(Appended(c, s.sinks[id], s.content, record, io, parentExists),
               s.sinks[id := AfterCall(c, s.sinks[id], s.content, record, io, parentExists)])
    case Foreign(bytes) => s.(content := Some(Text(s.content) + bytes))
  }

  function Run(c: Codec, s: System, events: seq<Event>): System
  {
    if events == [] then s else Step(c, Run(c, s, events[..|events| - 1]), events[|events| - 1])
  }

  /** What a sink saw of the file is not ahead of the file. */
  predicate SeenBefore(seen: Option<nat>, content: Option<string>)
  {
    seen.Some? ==> content.Some? && seen.value <= |content.value|
  }

  predicate UpToDate(sink: SinkState, content: Option<string>)
  {
    sink.fileState == Stat(content)
  }

  predicate SinkOk(c: Codec, sink: SinkState, content: Option<string>)
  {
    && ValidIdentity(sink)
    && SeenBefore(sink.fileState, content)
    && (UpToDate(sink, content) ==> KnowsFile(c, sink, Text(content)))
  }

  /** The inductive invariant: every sink whose view is current knows the file. */
  predicate SystemOk(c: Codec, s: System)
  {
    forall id | id in s.sinks :: SinkOk(c, s.sinks[id], s.content)
  }

  lemma ResumedSinkIsOk(c: Codec, key: string, streamId: string, expectedHead: Option<string>, content: Option<string>)
    requires Resume(c, key, streamId, expectedHead, content).Some?
    ensures SinkOk(c, Resume(c, key, streamId, expectedHead, content).value, content)
  {
    var sink := Resume(c, key, streamId, expectedHead, content).value;
    if Text(content) != "" {
      VerifiedMeansChain(c, key, expectedHead, Some(streamId), Text(content));
      VerifiedStream(c, key, streamId, Text(content));
    }
  }

  lemma {:induction false} VerifiedStream(c: Codec, key: string, streamId: string, content: string)
    requires ReadAll(c, key, Some(streamId), [], 0, content).Some?
    ensures StreamOf(ReadAll(c, key, Some(streamId), [], 0, content).value) in {None, Some(streamId)}
  {
    if content != [] {
      var line := ReadLine(content);
      var e := Check(c, key, Some(streamId), [], 0, line).value;
      ReadStep(c, key, Some(streamId), [], 0, content, e);
      assert [] + [e] == [e];
      StreamIsKept(c, key, Some(streamId), [e], |line|, content[|line|..]);
    }
  }

  lemma {:induction false} StreamIsKept(c: Codec, key: string, stream: Option<string>, read: seq<Entry>,
                                        bytesRead: nat, rest: string)
    requires read != [] && ReadAll(c, key, stream, read, bytesRead, rest).Some?
    ensures StreamOf(ReadAll(c, key, stream, read, bytesRead, rest).value) == StreamOf(read)
    decreases |rest|
  {
    if rest != [] {
      var line := ReadLine(rest);
      var e := Check(c, key, stream, read, bytesRead, line).value;
      StreamIsKept(c, key, stream, read + [e], bytesRead + |line|, rest[|line|..]);
    }
  }

  /** When the file grows or is created, every sink falls behind and nothing else about it changes. */
  lemma GrowthMakesStale(c: Codec, sink: SinkState, before: Option<string>, after: Option<string>)
    requires SinkOk(c, sink, before)
    requires after == before || (after.Some? && (before.None? || |before.value| < |after.value|))
    ensures SinkOk(c, sink, after)
  {
  }

  lemma AppendedGrows(c: Codec, sink: SinkState, content: Option<string>, record: AuditRecord, io: Io, parentExists: bool)
    ensures var after := Appended(c, sink, content, record, io, parentExists);
            && (after == content || (after.Some? && (content.None? || |content.value| < |after.value|)))
            && Text(content) <= Text(after)
  {
    var line := Line(c, NextEntry(c, sink, record));
    if io.written == 0 {
      assert Text(content) + line[..0] == Text(content);
    }
  }

  /** Every event keeps the invariant: opens, calls however their I/O goes, and foreign appends. */
  lemma StepKeepsSystemOk(c: Codec, s: System, event: Event)
    requires Lawful(c) && SystemOk(c, s)
    ensures SystemOk(c, Step(c, s, event))
  {
    var s' := Step(c, s, event);
    match event
    case Open(id, key, streamId, expectedHead) =>
      if s' != s {
        ResumedSinkIsOk(c, key, streamId, expectedHead, s.content);
      }
    case Call(id, record, io, parentExists) =>
      if id in s.sinks {
        AppendedGrows(c, s.sinks[id], s.content, record, io, parentExists);
        forall other | other in s'.sinks ensures SinkOk(c, s'.sinks[other], s'.content) {
          GrowthMakesStale(c, s.sinks[other], s.content, s'.content);
          if other == id && Succeeds(c, s.sinks[id], s.content, record, io, parentExists) {
            SuccessExtendsChain(c, s.sinks[id], s.content, record, io, parentExists);
          }
        }
      }
    case Foreign(bytes) =>
      assert bytes == [] ==> Text(s.content) + bytes == Text(s.content);
      forall other | other in s'.sinks ensures SinkOk(c, s'.sinks[other], s'.content) {
        GrowthMakesStale(c, s.sinks[other], s.content, s'.content);
      }
  }

  /** The invariant holds throughout every run that starts without sinks, whatever the file held. */
  lemma {:induction false} RunKeepsSystemOk(c: Codec, content: Option<string>, events: seq<Event>)
    requires Lawful(c)
    ensures SystemOk(c, Run(c, System(content, map[]), events))
  {
    if events != [] {
      RunKeepsSystemOk(c, content, events[..|events| - 1]);
      StepKeepsSystemOk(c, Run(c, System(content, map[]), events[..|events| - 1]), events[|events| - 1]);
    }
  }

  /**
   Safety of the protocol: at any point of any run, a call that succeeds appends exactly one entry and
   leaves a file the verifier accepts with that sink's count and head; a call by a sink whose view is
   out of date leaves the file alone and fails.
   */
  lemma CallsAreSafe(c: Codec, content: Option<string>, events: seq<Event>, id: nat, record: AuditRecord, io: Io,
                     parentExists: bool)
    requires Lawful(c)
    requires id in Run(c, System(content, map[]), events).sinks
    ensures var s := Run(c, System(content, map[]), events);
            var s' := Step(c, s, Call(id, record, io, parentExists));
            && (Succeeds(c, s.sinks[id], s.content, record, io, parentExists) ==>
                  && s'.content.Some?
                  && EntriesOf(c, s.sinks[id].key, s'.content.value)
                     == EntriesOf(c, s.sinks[id].key, Text(s.content)) + [NextEntry(c, s.sinks[id], record)]
                  && s'.sinks[id].headMac.Some?
                  && Verify(c, s.sinks[id].key, None, Some(s.sinks[id].streamId), s'.content.value)
                     == Some(Verification(s.sinks[id].streamId, s'.sinks[id].entryCount, s'.sinks[id].headMac.value)))
            && (!UpToDate(s.sinks[id], s.content) ==>
                  s' == s && !Succeeds(c, s.sinks[id], s.content, record, io, parentExists))
  {
    RunKeepsSystemOk(c, content, events);
    var s := Run(c, System(content, map[]), events);
    if Succeeds(c, s.sinks[id], s.content, record, io, parentExists) {
      SuccessExtendsChain(c, s.sinks[id], s.content, record, io, parentExists);
    }
    var s' := Step(c, s, Call(id, record, io, parentExists));
    if !UpToDate(s.sinks[id], s.content) {
      assert s'.sinks == s.sinks;
    }
  }

  predicate NoForeign(events: seq<Event>)
  {
    forall i | 0 <= i < |events| :: !events[i].Foreign?
  }

  /** A torn file stays as it is: no sink is up to date, none can be opened, and no call writes. */
  lemma {:induction false} TornStaysTorn(c: Codec, s: System, events: seq<Event>)
    requires Lawful(c) && SystemOk(c, s) && !Complete(Text(s.content)) && NoForeign(events)
    ensures Run(c, s, events) == s
  {
    if events != [] {
      var last := |events| - 1;
      TornStaysTorn(c, s, events[..last]);
      var event := events[last];
      if event.Open? {
        TornNeverVerifies(c, event.key, event.expectedHead, Some(event.streamId), Text(s.content));
      } else if event.id in s.sinks {
        var sink := s.sinks[event.id];
        TornNeverVerifies(c, sink.key, None, Some(sink.streamId), Text(s.content));
        assert !UpToDate(sink, s.content);
        assert Step(c, s, event).sinks == s.sinks;
      }
    }
  }

  /** A sink that fell behind never writes or succeeds again, however the run goes on. */
  lemma {:induction false} StaleStaysStale(c: Codec, s: System, events: seq<Event>, id: nat)
    requires Lawful(c) && SystemOk(c, s) && id in s.sinks && !UpToDate(s.sinks[id], s.content)
    ensures var s' := Run(c, s, events);
            SystemOk(c, s') && id in s'.sinks && s'.sinks[id] == s.sinks[id] && !UpToDate(s'.sinks[id], s'.content)
            && SeenBefore(Stat(s.content), s'.content)
  {
    if events != [] {
      var last := |events| - 1;
      StaleStaysStale(c, s, events[..last], id);
      var before := Run(c, s, events[..last]);
      StepKeepsSystemOk(c, before, events[last]);
      if events[last].Call? && events[last].id in before.sinks {
        var e := events[last];
        AppendedGrows(c, before.sinks[e.id], before.content, e.record, e.io, e.parentExists);
      }
    }
  }

  // ----- Nothing written is lost

  /** The call puts its whole line in the file, whether or not it then reports an error. */
  predicate WritesLine(c: Codec, sink: SinkState, content: Option<string>, record: AuditRecord, io: Io, parentExists: bool)
  {
    && MayAppend(c, sink, content, record, parentExists)
    && io.didOpen && io.written >= |Line(c, NextEntry(c, sink, record))|
  }

  /** The entries whose lines were completely written during a run, in order. */
  function Log(c: Codec, s: System, events: seq<Event>): seq<Entry>
  {
    if events == [] then []
    else
      var before, last := Run(c, s, events[..|events| - 1]), events[|events| - 1];
      Log(c, s, events[..|events| - 1])
      + if last.Call? && last.id in before.sinks
           && WritesLine(c, before.sinks[last.id], before.content, last.record, last.io, last.parentExists)
        then [NextEntry(c, before.sinks[last.id], last.record)] else []
  }

  /** The file verifies under some key and holds exactly these entries. */
  ghost predicate HoldsEntries(c: Codec, text: string, entries: seq<Entry>)
  {
    exists key :: Verify(c, key, None, None, text).Some? && EntriesOf(c, key, text) == entries
  }

  /** The parsed entries of a file do not depend on the key it verifies under. */
  lemma {:induction false} KeysAgree(c: Codec, k: string, k': string, read: seq<Entry>, bytesRead: nat, rest: string)
    requires ReadAll(c, k, None, read, bytesRead, rest).Some? && ReadAll(c, k', None, read, bytesRead, rest).Some?
    ensures ReadAll(c, k, None, read, bytesRead, rest) == ReadAll(c, k', None, read, bytesRead, rest)
    decreases |rest|
  {
    if rest != [] {
      var line := ReadLine(rest);
      var e := Check(c, k, None, read, bytesRead, line).value;
      KeysAgree(c, k, k', read + [e], bytesRead + |line|, rest[|line|..]);
    }
  }

  /** The joined lines of the entries. */
  function Lines(c: Codec, entries: seq<Entry>): string
  {
    if entries == [] then "" else Lines(c, entries[..|entries| - 1]) + Line(c, entries[|entries| - 1])
  }

  /** The call puts a part of its line in the file, and no more. */
  predicate Tears(c: Codec, sink: SinkState, content: Option<string>, record: AuditRecord, io: Io, parentExists: bool)
  {
    && MayAppend(c, sink, content, record, parentExists)
    && io.didOpen && 0 < io.written < |Line(c, NextEntry(c, sink, record))|
  }

  /** The last partial write of a run: whose line, and how many bytes of it. */
  function TornWrite(c: Codec, s: System, events: seq<Event>): Option<(Entry, nat)>
  {
    if events == [] then None
    else
      var before, last := Run(c, s, events[..|events| - 1]), events[|events| - 1];
      if last.Call? && last.id in before.sinks
         && Tears(c, before.sinks[last.id], before.content, last.record, last.io, last.parentExists)
      then Some((NextEntry(c, before.sinks[last.id], last.record), last.io.written))
      else TornWrite(c, s, events[..|events| - 1])
  }

  predicate IsPartial(c: Codec, torn: Option<(Entry, nat)>)
  {
    torn.Some? ==> 0 < torn.value.1 < |Line(c, torn.value.0)|
  }

  function TornText(c: Codec, torn: Option<(Entry, nat)>): string
    requires IsPartial(c, torn)
  {
    if torn.None? then "" else Line(c, torn.value.0)[..torn.value.1]
  }

  /** The file is the lines of the logged entries, which verify, and then the beginning of the torn line if there is one. */
  ghost predicate FileIs(c: Codec, text: string, log: seq<Entry>, torn: Option<(Entry, nat)>)
  {
    && IsPartial(c, torn)
    && text == Lines(c, log) + TornText(c, torn)
    && (log != [] ==> HoldsEntries(c, Lines(c, log), log))
  }

  lemma TornIsIncomplete(c: Codec, text: string, log: seq<Entry>, torn: Option<(Entry, nat)>)
    requires Lawful(c) && FileIs(c, text, log, torn) && torn.Some?
    ensures !Complete(text)
  {
    var e, n := torn.value.0, torn.value.1;
    var tail := TornText(c, torn);
    assert tail[n - 1] == c.render(e)[n - 1];
    assert text[|text| - 1] == tail[n - 1];
  }

  /** A call that finds a torn file does nothing to it. */
  lemma TornRefuses(c: Codec, sink: SinkState, content: Option<string>, record: AuditRecord, parentExists: bool)
    requires Lawful(c) && SinkOk(c, sink, content) && !Complete(Text(content))
    ensures !MayAppend(c, sink, content, record, parentExists)
  {
    TornNeverVerifies(c, sink.key, None, Some(sink.streamId), Text(content));
  }

  /** A complete write extends both the file and the log by the entry. */
  lemma LoggedWrite(c: Codec, sink: SinkState, content: Option<string>, log: seq<Entry>, record: AuditRecord,
                    parentExists: bool)
    requires Lawful(c) && SinkOk(c, sink, content) && FileIs(c, Text(content), log, None)
    requires MayAppend(c, sink, content, record, parentExists)
    ensures var e := NextEntry(c, sink, record);
            FileIs(c, Text(content) + Line(c, e), log + [e], None)
  {
    var text, e := Text(content), NextEntry(c, sink, record);
    hide Check, ReadLine, EntryValid;
    CompleteWriteVerifies(c, sink, content, record, parentExists);
    KnownEntries(c, sink, text);
    StreamOnlyRestricts(c, sink.key, Some(sink.streamId), [], 0, text);
    StreamOnlyRestricts(c, sink.key, Some(sink.streamId), [], 0, text + Line(c, e));
    assert text == Lines(c, log);
    if log != [] {
      var key :| Verify(c, key, None, None, text).Some? && EntriesOf(c, key, text) == log;
      KeysAgree(c, key, sink.key, [], 0, text);
    }
    assert EntriesOf(c, sink.key, text + Line(c, e)) == log + [e];
    assert Verify(c, sink.key, None, None, text + Line(c, e)).Some?;
    assert (log + [e])[..|log|] == log;
    assert Lines(c, log + [e]) == text + Line(c, e);
    assert HoldsEntries(c, text + Line(c, e), log + [e]);
  }

  /** What one call does to the file: the whole line, a part of it, or nothing. */
  lemma CallWrites(c: Codec, sink: SinkState, content: Option<string>, record: AuditRecord, io: Io, parentExists: bool)
    ensures var line := Line(c, NextEntry(c, sink, record));
            Text(Appended(c, sink, content, record, io, parentExists)) == Text(content) +
              if WritesLine(c, sink, content, record, io, parentExists) then line
              else if Tears(c, sink, content, record, io, parentExists) then line[..io.written] else ""
  {
    var line := Line(c, NextEntry(c, sink, record));
    assert Text(content) + "" == Text(content);
    assert line[..0] == "";
  }

  /**
   Conservation: throughout any run of sinks on a new file, however their writes fail, the file is exactly
   the lines of the completely written entries in the order they were written, and they verify; after them
   there is nothing, or a proper part of one more line, which is then the last thing ever written.
   */
  lemma {:induction false} NothingIsLost(c: Codec, events: seq<Event>)
    requires Lawful(c) && NoForeign(events)
    ensures var start := System(None, map[]);
            FileIs(c, Text(Run(c, start, events).content), Log(c, start, events), TornWrite(c, start, events))
  {
    hide Tears, WritesLine, Appended, AfterCall, Resume, Lawful, SinkOk;
    if events == [] {
      assert FileIs(c, "", [], None);
    } else {
      var start, last := System(None, map[]), events[|events| - 1];
      var prefix := events[..|events| - 1];
      NothingIsLost(c, prefix);
      RunKeepsSystemOk(c, None, prefix);
      var s, log, torn := Run(c, start, prefix), Log(c, start, prefix), TornWrite(c, start, prefix);
      if last.Call? && last.id in s.sinks {
        OneCallIsLogged(c, s.sinks[last.id], s.content, log, torn, last.record, last.io, last.parentExists);
        assert log + [] == log;
      } else {
        assert log + [] == log;
        assert !last.Foreign?;
        assert Step(c, s, last).content == s.content;
      }
    }
  }

  lemma OneCallIsLogged(c: Codec, sink: SinkState, content: Option<string>, log: seq<Entry>, torn: Option<(Entry, nat)>,
                        record: AuditRecord, io: Io, parentExists: bool)
    requires Lawful(c) && SinkOk(c, sink, content) && FileIs(c, Text(content), log, torn)
    ensures var e := NextEntry(c, sink, record);
            FileIs(c, Text(Appended(c, sink, content, record, io, parentExists)),
                   if WritesLine(c, sink, content, record, io, parentExists) then log + [e] else log,
                   if Tears(c, sink, content, record, io, parentExists) then Some((e, io.written)) else torn)
  {
    CallWrites(c, sink, content, record, io, parentExists);
    if torn.Some? {
      TornIsIncomplete(c, Text(content), log, torn);
      TornRefuses(c, sink, content, record, parentExists);
      assert Text(content) + "" == Text(content);
    } else if WritesLine(c, sink, content, record, io, parentExists) {
      LoggedWrite(c, sink, content, log, record, parentExists);
    } else {
      assert Lines(c, log) + "" == Lines(c, log);
      assert Text(content) + "" == Text(content);
    }
  }
}
