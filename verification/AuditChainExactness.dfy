/** Exactly which files the chain verifier accepts, which sinks open on them, and which calls succeed. */
module AuditChainExactness {
  import opened Wrappers
  import opened Models
  import opened AuditChain
  import opened AuditChainLaws

  // ----- The verifier

  /** One non-blank line of bounded length, with its newline at the end and nowhere else. */
  predicate IsLine(line: string)
  {
    && EndsLine(line) && '\n' !in line[..|line| - 1]
    && |line| <= MAX_AUDIT_CHAIN_ENTRY_BYTES && line != "\n" && line != "\r\n"
  }

  function Joined(lines: seq<string>): string
  {
    if lines == [] then "" else lines[0] + Joined(lines[1..])
  }

  /** The text is these lines, and each spells its entry. */
  predicate Spells(c: Codec, text: string, lines: seq<string>, entries: seq<Entry>)
  {
    && text == Joined(lines) && |lines| == |entries|
    && forall i | 0 <= i < |lines| :: IsLine(lines[i]) && c.parse(lines[i]) == Some(entries[i])
  }

  ghost predicate IsFileOf(c: Codec, text: string, entries: seq<Entry>)
  {
    exists lines :: Spells(c, text, lines, entries)
  }

  /** `readline` yields a whole line if there is one within the limit. */
  lemma {:induction false} TakesLine(line: string, more: string, limit: nat)
    requires EndsLine(line) && '\n' !in line[..|line| - 1] && |line| <= limit
    ensures TakeLine(line + more, limit) == line
    decreases |line|
  {
    if |line| == 1 {
      assert line == ['\n'];
    } else {
      assert line[0] == line[..|line| - 1][0];
      assert line[1..][..|line| - 2] == line[..|line| - 1][1..];
      assert (line + more)[1..] == line[1..] + more;
      TakesLine(line[1..], more, limit - 1);
    }
  }

  lemma {:induction false} TakenLineIsLine(rest: string, limit: nat)
    requires EndsLine(TakeLine(rest, limit))
    ensures var line := TakeLine(rest, limit); '\n' !in line[..|line| - 1]
    decreases |rest|
  {
    var line := TakeLine(rest, limit);
    if rest[0] != '\n' {
      TakenLineIsLine(rest[1..], limit - 1);
      var tail := TakeLine(rest[1..], limit - 1);
      assert line[..|line| - 1] == [rest[0]] + tail[..|tail| - 1];
    }
  }

  /** The stream and the bounds that the rest of a file has to meet once some entries are read. */
  predicate Within(stream: Option<string>, all: seq<Entry>, bytes: nat)
  {
    && |all| <= MAX_AUDIT_CHAIN_ENTRIES && bytes <= MAX_AUDIT_CHAIN_BYTES
    && (stream.Some? && all != [] ==> all[0].unsigned.streamId == stream.value)
  }

  /** A checked entry is spelled by its line and continues the chain within the bounds. */
  lemma CheckedContinues(c: Codec, key: string, stream: Option<string>, read: seq<Entry>, bytesRead: nat, line: string, e: Entry)
    requires Chain(c, key, read) && Within(stream, read, bytesRead) && Check(c, key, stream, read, bytesRead, line) == Some(e)
    ensures c.parse(line) == Some(e) && EndsLine(line) && |line| <= MAX_AUDIT_CHAIN_ENTRY_BYTES
    ensures line != "\n" && line != "\r\n"
    ensures Chain(c, key, read + [e]) && Within(stream, read + [e], bytesRead + |line|)
  {
    ChainOfMore(c, key, read, e);
  }

  lemma SpellsNothing(c: Codec)
    ensures Spells(c, "", [], [])
  {
  }

  lemma SpellsMore(c: Codec, line: string, e: Entry, text: string, lines: seq<string>, entries: seq<Entry>)
    requires IsLine(line) && c.parse(line) == Some(e) && Spells(c, text, lines, entries)
    ensures Spells(c, line + text, [line] + lines, [e] + entries)
  {
  }

  /** What is read to the end is a file of a chain, within the bounds. */
  lemma {:induction false} ReadIsFile(c: Codec, key: string, stream: Option<string>, read: seq<Entry>, bytesRead: nat,
                                      rest: string) returns (lines: seq<string>, entries: seq<Entry>)
    requires Chain(c, key, read) && Within(stream, read, bytesRead)
    requires ReadAll(c, key, stream, read, bytesRead, rest).Some?
    ensures ReadAll(c, key, stream, read, bytesRead, rest).value == read + entries
    ensures Spells(c, rest, lines, entries) && Chain(c, key, read + entries)
    ensures Within(stream, read + entries, bytesRead + |rest|)
    decreases |rest|
  {
    hide Check, Spells, Chain, Within;
    if rest == [] {
      lines, entries := [], [];
      SpellsNothing(c);
      assert read + entries == read;
    } else {
      var line := ReadLine(rest);
      var e := Check(c, key, stream, read, bytesRead, line).value;
      ReadStep(c, key, stream, read, bytesRead, rest, e);
      CheckedContinues(c, key, stream, read, bytesRead, line, e);
      TakenLineIsLine(rest, MAX_AUDIT_CHAIN_ENTRY_BYTES + 2);
      var after, later := ReadIsFile(c, key, stream, read + [e], bytesRead + |line|, rest[|line|..]);
      lines, entries := [line] + after, [e] + later;
      SpellsMore(c, line, e, rest[|line|..], after, later);
      assert read + entries == read + [e] + later;
      assert rest == line + rest[|line|..];
    }
  }

  lemma LinkedPassesCheck(c: Codec, key: string, stream: Option<string>, read: seq<Entry>, bytesRead: nat, line: string,
                          e: Entry, all: seq<Entry>)
    requires Chain(c, key, all) && |read| < |all| && all[..|read|] == read && all[|read|] == e
    requires Within(stream, all, bytesRead + |line|) && IsLine(line) && c.parse(line) == Some(e)
    ensures Check(c, key, stream, read, bytesRead, line) == Some(e)
  {
    assert Linked(c, key, all, |read|);
    if read != [] {
      assert all[0] == read[0];
    }
  }

  /** A file of a chain within the bounds is read to the end. */
  lemma {:induction false} FileIsRead(c: Codec, key: string, stream: Option<string>, read: seq<Entry>, bytesRead: nat,
                                      rest: string, lines: seq<string>, entries: seq<Entry>)
    requires Spells(c, rest, lines, entries) && Chain(c, key, read + entries)
    requires Within(stream, read + entries, bytesRead + |rest|)
    ensures ReadAll(c, key, stream, read, bytesRead, rest) == Some(read + entries)
    decreases |lines|
  {
    hide Check, Chain;
    if lines == [] {
      assert read + entries == read;
    } else {
      var line, e := lines[0], entries[0];
      var after := Joined(lines[1..]);
      TakesLine(line, after, MAX_AUDIT_CHAIN_ENTRY_BYTES + 2);
      assert ReadLine(rest) == line && rest[|line|..] == after;
      LinkedPassesCheck(c, key, stream, read, bytesRead, line, e, read + entries);
      assert read + entries == read + [e] + entries[1..];
      FileIsRead(c, key, stream, read + [e], bytesRead + |line|, after, lines[1..], entries[1..]);
    }
  }

  /** The file is the lines of this non-empty chain, within the bounds and of the expected stream and head. */
  ghost predicate AuthenticAs(c: Codec, key: string, head: Option<string>, stream: Option<string>, text: string,
                              entries: seq<Entry>)
  {
    && IsFileOf(c, text, entries) && entries != [] && Chain(c, key, entries) && Within(stream, entries, |text|)
    && (head.Some? ==> entries[|entries| - 1].mac == head.value)
  }

  ghost predicate Authentic(c: Codec, key: string, head: Option<string>, stream: Option<string>, text: string, v: Verification)
  {
    exists entries: seq<Entry> | AuthenticAs(c, key, head, stream, text, entries) ::
      v == Verification(entries[0].unsigned.streamId, |entries|, entries[|entries| - 1].mac)
  }

  /** Reading a whole file yields exactly the entries of the chain it holds. */
  lemma ReadMeansFile(c: Codec, key: string, stream: Option<string>, text: string, entries: seq<Entry>)
    ensures ReadAll(c, key, stream, [], 0, text) == Some(entries)
            <==> IsFileOf(c, text, entries) && Chain(c, key, entries) && Within(stream, entries, |text|)
  {
    hide Chain, Check, ReadAll, Spells;
    ChainOfNone(c, key);
    assert [] + entries == entries;
    if ReadAll(c, key, stream, [], 0, text) == Some(entries) {
      var lines, found := ReadIsFile(c, key, stream, [], 0, text);
      assert [] + found == found;
    }
    if IsFileOf(c, text, entries) && Chain(c, key, entries) && Within(stream, entries, |text|) {
      var lines :| Spells(c, text, lines, entries);
      FileIsRead(c, key, stream, [], 0, text, lines, entries);
    }
  }

  lemma ChainOfNone(c: Codec, key: string)
    ensures Chain(c, key, [])
  {
  }

  /** The verifier accepts exactly the authentic files, and reports their stream, length and head. */
  lemma VerifierIsExact(c: Codec, key: string, head: Option<string>, stream: Option<string>, text: string, v: Verification)
    ensures Verify(c, key, head, stream, text) == Some(v)
            <==> AskedRightly(c, key, head, stream) && Authentic(c, key, head, stream, text, v)
  {
    hide Chain, ReadAll, IsFileOf, Within;
    if ReadAll(c, key, stream, [], 0, text).Some? {
      ReadMeansFile(c, key, stream, text, ReadAll(c, key, stream, [], 0, text).value);
    }
    if Authentic(c, key, head, stream, text, v) {
      var entries: seq<Entry> :| AuthenticAs(c, key, head, stream, text, entries)
                                 && v == Verification(entries[0].unsigned.streamId, |entries|, entries[|entries| - 1].mac);
      ReadMeansFile(c, key, stream, text, entries);
    }
  }

  /** A checkpoint or an expected stream only narrows: it refuses what has another head or another stream. */
  lemma ExpectationsNarrow(c: Codec, key: string, head: Option<string>, stream: Option<string>, text: string, v: Verification)
    requires AskedRightly(c, key, head, stream)
    ensures Verify(c, key, head, stream, text) == Some(v)
            <==> && Verify(c, key, None, None, text) == Some(v)
                 && (head.Some? ==> v.headMac == head.value) && (stream.Some? ==> v.streamId == stream.value)
  {
    VerifierIsExact(c, key, head, stream, text, v);
    VerifierIsExact(c, key, None, None, text, v);
    hide Chain, IsFileOf;
  }

  // ----- Opening a sink

  /**
   Exactly when a sink opens. Given an external head it starts from that head, after as many entries as the
   verifier finds under it: it never opens on an emptied, shortened or replaced file.
   */
  lemma OpenedSinkKnowsFile(c: Codec, key: string, streamId: string, head: Option<string>, content: Option<string>)
    ensures Resume(c, key, streamId, head, content).Some? <==> Opens(c, key, streamId, head, content)
    ensures Resume(c, key, streamId, head, content).Some? ==>
              var sink := Resume(c, key, streamId, head, content).value;
              && sink.key == key && sink.streamId == streamId && UpToDate(sink, content)
              && KnowsFile(c, sink, Text(content))
              && (head.Some? ==>
                    && sink.headMac == head && sink.entryCount >= 1
                    && Verify(c, key, head, Some(streamId), Text(content))
                       == Some(Verification(streamId, sink.entryCount, head.value)))
  {
    if Resume(c, key, streamId, head, content).Some? {
      ResumedSinkIsOk(c, key, streamId, head, content);
      if Text(content) != "" {
        VerifiedMeansChain(c, key, head, Some(streamId), Text(content));
        var v := Verify(c, key, head, Some(streamId), Text(content)).value;
        ExpectationsNarrow(c, key, head, Some(streamId), Text(content), v);
      }
    }
  }

  /** A sink opened under a head continues the entries of any other file accepted under it, or the MAC collides. */
  lemma OpenedSinkContinues(c: Codec, key: string, streamId: string, head: string, content: Option<string>, other: string)
    requires Resume(c, key, streamId, Some(head), content).Some?
    requires Verify(c, key, Some(head), None, other).Some?
    ensures var mine, theirs := EntriesOf(c, key, Text(content)), EntriesOf(c, key, other);
            mine == theirs || Collision(c, key, mine, theirs)
    ensures EntriesOf(c, key, Text(content)) != []
  {
    OpenedSinkKnowsFile(c, key, streamId, Some(head), content);
    var v := Verify(c, key, Some(head), Some(streamId), Text(content)).value;
    ExpectationsNarrow(c, key, Some(head), Some(streamId), Text(content), v);
    ExpectationsNarrow(c, key, Some(head), None, Text(content), v);
    VerifiedMeansChain(c, key, Some(head), None, Text(content));
    CheckpointBindsFile(c, key, head, Text(content), other);
  }

  // ----- Appending

  /**
   Exactly when a call succeeds, for a sink that knows the file it last saw: the directory is there, the
   file is still that file, the record is valid, the write goes through, and the verifier accepts what
   the file becomes. The entry written carries the record that was given.
   */
  lemma CallSucceedsExactly(c: Codec, sink: SinkState, content: Option<string>, record: AuditRecord, io: Io, parentExists: bool)
    requires Lawful(c) && ValidIdentity(sink) && KnowsFile(c, sink, Text(content))
    ensures var e := NextEntry(c, sink, record);
            && e.unsigned.record == record
            && (Succeeds(c, sink, content, record, io, parentExists)
                <==> && parentExists && UpToDate(sink, content) && RecordValid(record)
                     && io.didOpen && io.written >= |Line(c, e)| && !io.failed
                     && Verify(c, sink.key, Some(e.mac), Some(sink.streamId), Text(content) + Line(c, e)).Some?)
  {
    var e := NextEntry(c, sink, record);
    var text := Text(content) + Line(c, e);
    if MayAppend(c, sink, content, record, parentExists) {
      CompleteWriteVerifies(c, sink, content, record, parentExists);
    }
    if Verify(c, sink.key, Some(e.mac), Some(sink.streamId), text).Some? && RecordValid(record) {
      AcceptedIsWithin(c, sink, Text(content), record);
    }
  }

  /** If the extended file is accepted, the entry met the sink's own bounds. */
  lemma AcceptedIsWithin(c: Codec, sink: SinkState, text: string, record: AuditRecord)
    requires Lawful(c) && ValidIdentity(sink) && KnowsFile(c, sink, text) && RecordValid(record)
    requires var e := NextEntry(c, sink, record); Verify(c, sink.key, Some(e.mac), Some(sink.streamId), text + Line(c, e)).Some?
    ensures var e := NextEntry(c, sink, record);
            && sink.entryCount + 1 <= MAX_AUDIT_CHAIN_ENTRIES && EntryValid(c, e)
            && |Line(c, e)| <= MAX_AUDIT_CHAIN_ENTRY_BYTES && |text| + |Line(c, e)| <= MAX_AUDIT_CHAIN_BYTES
  {
    var e := NextEntry(c, sink, record);
    var line := Line(c, e);
    KnownEntries(c, sink, text);
    var read := ReadAll(c, sink.key, Some(sink.streamId), [], 0, text).value;
    ReadAllOfMore(c, sink.key, Some(sink.streamId), [], 0, text, line);
    var first := ReadLine(line);
    var found := Check(c, sink.key, Some(sink.streamId), read, |text|, first).value;
    LastLine(c.render(e));
    HeadIsMac(c, sink, text);
  }

  /** A line read off a one-line text with its newline is all of it. */
  lemma LastLine(line: string)
    requires '\n' !in line && EndsLine(ReadLine(line + "\n"))
    ensures ReadLine(line + "\n") == line + "\n"
  {
    var first := ReadLine(line + "\n");
    assert (line + "\n")[..|first|] == first;
    assert first[|first| - 1] == (line + "\n")[|first| - 1];
  }

  lemma HeadIsMac(c: Codec, sink: SinkState, text: string)
    requires Lawful(c) && ValidIdentity(sink) && KnowsFile(c, sink, text)
    ensures sink.headMac.Some? ==> c.isMac(sink.headMac.value)
    ensures sink.headMac.None? <==> sink.entryCount == 0
  {
    if sink.headMac.Some? {
      VerifiedMeansChain(c, sink.key, None, Some(sink.streamId), text);
      var entries := EntriesOf(c, sink.key, text);
      assert Linked(c, sink.key, entries, |entries| - 1);
    }
  }

  // ----- In a run

  lemma OneMoreEvent(c: Codec, s: System, events: seq<Event>, event: Event)
    ensures Run(c, s, events + [event]) == Step(c, Run(c, s, events), event)
  {
    assert (events + [event])[..|events|] == events;
  }

  /** At any point of any run a new sink opens exactly when the file as it is then lets it, and it then knows the file. */
  lemma OpensInRun(c: Codec, content: Option<string>, events: seq<Event>, id: nat, key: string, streamId: string,
                   head: Option<string>)
    requires id !in Run(c, System(content, map[]), events).sinks
    ensures var s := Run(c, System(content, map[]), events);
            var s' := Run(c, System(content, map[]), events + [Open(id, key, streamId, head)]);
            && (id in s'.sinks <==> Opens(c, key, streamId, head, s.content))
            && s'.content == s.content
            && (id in s'.sinks ==>
                  && s'.sinks[id].key == key && s'.sinks[id].streamId == streamId
                  && UpToDate(s'.sinks[id], s'.content) && KnowsFile(c, s'.sinks[id], Text(s'.content))
                  && (head.Some? ==> s'.sinks[id].headMac == head))
  {
    hide Run, Verify;
    OneMoreEvent(c, System(content, map[]), events, Open(id, key, streamId, head));
    OpenedSinkKnowsFile(c, key, streamId, head, Run(c, System(content, map[]), events).content);
  }

  /**
   At any point of any run a call by a sink that is up to date, in an existing directory, with a valid record and a
   write that goes through, extends the file by its line and the sink by one entry, exactly when the verifier accepts
   the extended file.
   */
  lemma CallsInRun(c: Codec, content: Option<string>, events: seq<Event>, id: nat, record: AuditRecord, io: Io)
    requires Lawful(c) && id in Run(c, System(content, map[]), events).sinks
    requires var s := Run(c, System(content, map[]), events);
             && UpToDate(s.sinks[id], s.content) && RecordValid(record)
             && io.didOpen && !io.failed && io.written >= |Line(c, NextEntry(c, s.sinks[id], record))|
    ensures var s := Run(c, System(content, map[]), events);
            var s' := Run(c, System(content, map[]), events + [Call(id, record, io, true)]);
            var sink, e := s.sinks[id], NextEntry(c, s.sinks[id], record);
            var longer := Text(s.content) + Line(c, e);
            && e.unsigned.record == record
            && id in s'.sinks
            && if Verify(c, sink.key, Some(e.mac), Some(sink.streamId), longer).Some? then
                 && s'.content == Some(longer)
                 && s'.sinks[id] == SinkState(sink.key, sink.streamId, sink.entryCount + 1, Some(e.mac), Some(|longer|))
               else s'.content == s.content && s'.sinks[id] == sink
  {
    RunKeepsSystemOk(c, content, events);
    hide Run, Verify, Lawful, NextEntry, Line, KnowsFile;
    var s := Run(c, System(content, map[]), events);
    assert SinkOk(c, s.sinks[id], s.content);
    OneMoreEvent(c, System(content, map[]), events, Call(id, record, io, true));
    CallSucceedsExactly(c, s.sinks[id], s.content, record, io, true);
  }
}
