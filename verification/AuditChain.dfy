/** The keyed audit chain: its verifier, its single-writer sink, and one call as a value. */
module AuditChain {
  import opened Wrappers
  import opened JsonValues
  import opened Models

  const MAX_AUDIT_CHAIN_ENTRY_BYTES := 262_144
  const MAX_AUDIT_CHAIN_ENTRIES := 1_000_000
  const MAX_AUDIT_CHAIN_BYTES := 1_073_741_824

  const MAX_MATCHED_RULES := 1_000

  /** `AuditRecord`: metadata about one decision, with no input in it. */
  datatype AuditRecord = AuditRecord(
    decisionId: string, evaluatedAt: string, policyId: string, policyVersion: string, policyFingerprint: string,
    outcome: Outcome, matchedRules: seq<string>, warningCount: int)

  /** The checks of `AuditRecord.__post_init__`, but for the formats of id, time stamp and fingerprint. */
  predicate RecordValid(r: AuditRecord)
  {
    && |r.evaluatedAt| <= 64
    && IsIdentifier(r.policyId) && IsIdentifier(r.policyVersion)
    && |r.matchedRules| <= MAX_MATCHED_RULES
    && (forall i | 0 <= i < |r.matchedRules| :: IsIdentifier(r.matchedRules[i]))
    && (forall i, j | 0 <= i < j < |r.matchedRules| :: r.matchedRules[i] != r.matchedRules[j])
    && 0 <= r.warningCount <= 1_000
  }

  /** The authenticated fields of an entry. */
  datatype Unsigned = Unsigned(streamId: string, sequence: int, previousMac: Option<string>, record: AuditRecord)

  datatype Entry = Entry(unsigned: Unsigned, mac: string)

  /**
   What is kept abstract: the keyed MAC and its format, the canonical text of an entry, and the
   parser of one line (without any check that involves other lines or the key).
   */
  datatype Codec = Codec(
    mac: (string, Unsigned) -> string,
    isMac: string -> bool,
    render: Entry -> string,
    parse: string -> Option<Entry>)

  /** The checks of `AuditChainEntry.__post_init__`, given the MAC format. */
  predicate EntryFits(isMac: string -> bool, e: Entry)
  {
    && IsIdentifier(e.unsigned.streamId)
    && 1 <= e.unsigned.sequence <= MAX_AUDIT_CHAIN_ENTRIES
    && (e.unsigned.previousMac.Some? ==> isMac(e.unsigned.previousMac.value))
    && (e.unsigned.sequence == 1 <==> e.unsigned.previousMac.None?)
    && RecordValid(e.unsigned.record)
    && isMac(e.mac)
  }

  predicate EntryValid(c: Codec, e: Entry)
  {
    EntryFits(c.isMac, e)
  }

  /**
   What the rest relies on: a MAC has the MAC format, an entry prints on one non-blank line that
   parses back, and the parser only yields entries that pass their own checks. The source's own
   encoding meets this; see AuditCodec.
   */
  ghost predicate Lawful(c: Codec)
  {
    && (forall key, u :: c.isMac(c.mac(key, u)))
    && (forall e :: |c.render(e)| >= 2 && '\n' !in c.render(e))
    && (forall e :: EntryValid(c, e) ==> c.parse(c.render(e) + "\n") == Some(e))
    && (forall line :: c.parse(line).Some? ==> EntryValid(c, c.parse(line).value))
  }

  predicate ValidKey(key: string)
  {
    32 <= |key| <= 4_096
  }

  function Line(c: Codec, e: Entry): string
  {
    c.render(e) + "\n"
  }

  // ----- Reading

  /** `readline(limit)`: up to and including the next newline, but no more than `limit` bytes. */
  function TakeLine(rest: string, limit: nat): (line: string)
    ensures |line| <= |rest| && line == rest[..|line|]
    ensures rest != [] && limit > 0 ==> line != []
    decreases rest
  {
    if rest == [] || limit == 0 then []
    else if rest[0] == '\n' then ['\n']
    else [rest[0]] + TakeLine(rest[1..], limit - 1)
  }

  /** The bounded `readline` of the verifier. */
  function ReadLine(rest: string): (line: string)
    ensures |line| <= |rest| && line == rest[..|line|]
    ensures rest != [] ==> line != []
  {
    TakeLine(rest, MAX_AUDIT_CHAIN_ENTRY_BYTES + 2)
  }

  predicate EndsLine(text: string)
  {
    text != [] && text[|text| - 1] == '\n'
  }

  /** The head MAC after some entries. */
  function HeadOf(read: seq<Entry>): Option<string>
  {
    if read == [] then None else Some(read[|read| - 1].mac)
  }

  /** The stream that the first entry fixed. */
  function StreamOf(read: seq<Entry>): Option<string>
  {
    if read == [] then None else Some(read[0].unsigned.streamId)
  }

  /** The next entry, if the line passes every check of the read loop. */
  function Check(c: Codec, key: string, expectedStream: Option<string>, read: seq<Entry>, bytesRead: nat,
                 line: string): Option<Entry>
  {
    if bytesRead + |line| > MAX_AUDIT_CHAIN_BYTES then None
    else if |read| + 1 > MAX_AUDIT_CHAIN_ENTRIES then None
    else if |line| > MAX_AUDIT_CHAIN_ENTRY_BYTES then None
    else if !EndsLine(line) then None
    else if line == "\n" || line == "\r\n" then None
    else
      match c.parse(line)
      case None => None
      case Some(e) =>
        if e.unsigned.sequence != |read| + 1 then None
        else if read == [] && expectedStream.Some? && e.unsigned.streamId != expectedStream.value then None
        else if read != [] && e.unsigned.streamId != read[0].unsigned.streamId then None
        else if e.unsigned.previousMac != HeadOf(read) then None
        else if e.mac != c.mac(key, e.unsigned) then None
        else Some(e)
  }

  /** All entries of a file, when reading from `rest` on meets no error. */
  function ReadAll(c: Codec, key: string, expectedStream: Option<string>, read: seq<Entry>, bytesRead: nat,
                   rest: string): Option<seq<Entry>>
    decreases |rest|
  {
    if rest == [] then Some(read)
    else
      var line := ReadLine(rest);
      match Check(c, key, expectedStream, read, bytesRead, line)
      case None => None
      case Some(e) => ReadAll(c, key, expectedStream, read + [e], bytesRead + |line|, rest[|line|..])
  }

  datatype Verification = Verification(streamId: string, entryCount: nat, headMac: string)

  /** `verify_audit_chain` on the bytes of a file; None is AuditChainError. */
  function Verify(c: Codec, key: string, expectedHead: Option<string>, expectedStream: Option<string>,
                  content: string): Option<Verification>
  {
    if !ValidKey(key) then None
    else if expectedHead.Some? && !c.isMac(expectedHead.value) then None
    else if expectedStream.Some? && !IsIdentifier(expectedStream.value) then None
    else
      match ReadAll(c, key, expectedStream, [], 0, content)
      case None => None
      case Some(read) =>
        if read == [] then None
        else if expectedHead.Some? && HeadOf(read) != expectedHead then None
        else Some(Verification(read[0].unsigned.streamId, |read|, HeadOf(read).value))
  }

  /** What the read loop has in hand after some entries. */
  datatype Progress = Progress(entryCount: nat, streamId: Option<string>, previousMac: Option<string>)

  function ProgressOf(read: seq<Entry>): Progress
  {
    Progress(|read|, StreamOf(read), HeadOf(read))
  }

  /** One turn of the read loop, which knows only the counters, the stream and the previous MAC. */
  method ReadEntry(c: Codec, key: string, expectedStream: Option<string>, p: Progress, bytesRead: nat, line: string,
                   ghost read: seq<Entry>)
    returns (r: Option<Entry>)
    requires p == ProgressOf(read)
    ensures r == Check(c, key, expectedStream, read, bytesRead, line)
  {
    if bytesRead + |line| > MAX_AUDIT_CHAIN_BYTES || p.entryCount + 1 > MAX_AUDIT_CHAIN_ENTRIES {
      return None;
    }
    if |line| > MAX_AUDIT_CHAIN_ENTRY_BYTES || !EndsLine(line) || line == "\n" || line == "\r\n" {
      return None;
    }
    var parsed := c.parse(line);
    if parsed.None? || parsed.value.unsigned.sequence != p.entryCount + 1 {
      return None;
    }
    var entry := parsed.value;
    if p.streamId.None? {
      if expectedStream.Some? && entry.unsigned.streamId != expectedStream.value {
        return None;
      }
    } else if entry.unsigned.streamId != p.streamId.value {
      return None;
    }
    if entry.unsigned.previousMac != p.previousMac || entry.mac != c.mac(key, entry.unsigned) {
      return None;
    }
    return Some(entry);
  }

  /** The read loop. */
  method ReadChain(c: Codec, key: string, expectedStream: Option<string>, content: string) returns (r: Option<Progress>)
    ensures r == match ReadAll(c, key, expectedStream, [], 0, content)
                 case None => None
                 case Some(read) => Some(ProgressOf(read))
  {
    hide Check;
    var p := Progress(0, None, None);
    var rest, bytesRead: nat := content, 0;
    ghost var read: seq<Entry> := [];
    ghost var all := ReadAll(c, key, expectedStream, [], 0, content);
    while rest != []
      invariant p == ProgressOf(read) && all == ReadAll(c, key, expectedStream, read, bytesRead, rest)
      decreases |rest|
    {
      var line := ReadLine(rest);
      var entry := ReadEntry(c, key, expectedStream, p, bytesRead, line, read);
      if entry.None? {
        return None;
      }
      ReadStep(c, key, expectedStream, read, bytesRead, rest, entry.value);
      p := Progress(p.entryCount + 1, if p.streamId.None? then Some(entry.value.unsigned.streamId) else p.streamId,
                    Some(entry.value.mac));
      read := read + [entry.value];
      bytesRead, rest := bytesRead + |line|, rest[|line|..];
    }
    return Some(p);
  }

  lemma ReadStep(c: Codec, key: string, expectedStream: Option<string>, read: seq<Entry>, bytesRead: nat,
                 rest: string, e: Entry)
    requires rest != []
    requires Check(c, key, expectedStream, read, bytesRead, ReadLine(rest)) == Some(e)
    ensures var line := ReadLine(rest);
            ReadAll(c, key, expectedStream, read, bytesRead, rest)
            == ReadAll(c, key, expectedStream, read + [e], bytesRead + |line|, rest[|line|..])
    ensures EndsLine(ReadLine(rest))
    ensures HeadOf(read + [e]) == Some(e.mac)
    ensures StreamOf(read + [e]) == if StreamOf(read).None? then Some(e.unsigned.streamId) else StreamOf(read)
  {
  }

  /** `verify_audit_chain`. */
  method VerifyAuditChain(c: Codec, key: string, expectedHead: Option<string>, expectedStream: Option<string>,
                          content: string)
    returns (r: Option<Verification>)
    ensures r == Verify(c, key, expectedHead, expectedStream, content)
  {
    if !ValidKey(key) || (expectedHead.Some? && !c.isMac(expectedHead.value))
       || (expectedStream.Some? && !IsIdentifier(expectedStream.value)) {
      return None;
    }
    var progress := ReadChain(c, key, expectedStream, content);
    if progress.None? || progress.value.entryCount == 0 {
      return None;
    }
    if expectedHead.Some? && progress.value.previousMac != expectedHead {
      return None;
    }
    return Some(Verification(progress.value.streamId.value, progress.value.entryCount, progress.value.previousMac.value));
  }

  // ----- Writing

  /** `stat`: None when there is no file, otherwise its size, which identifies an append-only file's content. */
  function Stat(content: Option<string>): Option<nat>
  {
    match content
    case None => None
    case Some(text) => Some(|text|)
  }

  function Text(content: Option<string>): string
  {
    if content.None? then "" else content.value
  }

  /** How the write went: whether the file opened, how many bytes reached it, and whether an error followed. */
  datatype Io = Io(didOpen: bool, written: nat, failed: bool)

  datatype SinkState = SinkState(key: string, streamId: string, entryCount: nat, headMac: Option<string>, fileState: Option<nat>)

  /** The key, the head and the stream have their formats. */
  predicate AskedRightly(c: Codec, key: string, head: Option<string>, stream: Option<string>)
  {
    ValidKey(key) && (head.Some? ==> c.isMac(head.value)) && (stream.Some? ==> IsIdentifier(stream.value))
  }

  /** A sink opens on nothing, when no head is expected, or on a file that verifies for its stream and the head. */
  predicate Opens(c: Codec, key: string, streamId: string, head: Option<string>, content: Option<string>)
  {
    && AskedRightly(c, key, head, Some(streamId))
    && if Text(content) == "" then head.None? else Verify(c, key, head, Some(streamId), Text(content)).Some?
  }

  /** `_resume`, with the checks of the constructor; None is an error. */
  function Resume(c: Codec, key: string, streamId: string, expectedHead: Option<string>,
                  content: Option<string>): Option<SinkState>
  {
    if !ValidKey(key) || !IsIdentifier(streamId) then None
    else if expectedHead.Some? && !c.isMac(expectedHead.value) then None
    else if Text(content) == "" then
      if expectedHead.Some? then None else Some(SinkState(key, streamId, 0, None, Stat(content)))
    else
      match Verify(c, key, expectedHead, Some(streamId), Text(content))
      case None => None
      case Some(v) => Some(SinkState(key, streamId, v.entryCount, Some(v.headMac), Stat(content)))
  }

  function NextEntry(c: Codec, sink: SinkState, record: AuditRecord): Entry
  {
    var unsigned := Unsigned(sink.streamId, sink.entryCount + 1, sink.headMac, record);
    Entry(unsigned, c.mac(sink.key, unsigned))
  }

  /** Everything the sink checks before it opens the file. */
  predicate MayAppend(c: Codec, sink: SinkState, content: Option<string>, record: AuditRecord, parentExists: bool)
  {
    && parentExists
    && Stat(content) == sink.fileState
    && sink.entryCount + 1 <= MAX_AUDIT_CHAIN_ENTRIES
    && EntryValid(c, NextEntry(c, sink, record))
    && |Line(c, NextEntry(c, sink, record))| <= MAX_AUDIT_CHAIN_ENTRY_BYTES
    && |Text(content)| + |Line(c, NextEntry(c, sink, record))| <= MAX_AUDIT_CHAIN_BYTES
  }

  /** What a call leaves in the file. */
  function Appended(c: Codec, sink: SinkState, content: Option<string>, record: AuditRecord, io: Io,
                    parentExists: bool): Option<string>
  {
    var line := Line(c, NextEntry(c, sink, record));
    if !MayAppend(c, sink, content, record, parentExists) || !io.didOpen then content
    else Some(Text(content) + if io.written < |line| then line[..io.written] else line)
  }

  /** The call returns normally. */
  predicate Succeeds(c: Codec, sink: SinkState, content: Option<string>, record: AuditRecord, io: Io, parentExists: bool)
  {
    && MayAppend(c, sink, content, record, parentExists)
    && io.didOpen && io.written >= |Line(c, NextEntry(c, sink, record))| && !io.failed
  }

  /** The sink after a call: advanced on success, unchanged on any error. */
  function AfterCall(c: Codec, sink: SinkState, content: Option<string>, record: AuditRecord, io: Io,
                     parentExists: bool): SinkState
  {
    if !Succeeds(c, sink, content, record, io, parentExists) then sink
    else
      var entry := NextEntry(c, sink, record);
      sink.(entryCount := sink.entryCount + 1, headMac := Some(entry.mac),
            fileState := Stat(Appended(c, sink, content, record, io, parentExists)))
  }

  class AuditFile {
    var content: Option<string>

    constructor (initial: Option<string>)
      ensures content == initial
    {
      content := initial;
    }
  }

  class HmacAuditChainSink {
    const codec: Codec
    const key: string
    const streamId: string
    var entryCount: nat
    var headMac: Option<string>
    var fileState: Option<nat>

    function State(): SinkState
      reads this
    {
      SinkState(key, streamId, entryCount, headMac, fileState)
    }

    constructor Resumed(c: Codec, state: SinkState)
      ensures State() == state && codec == c
    {
      codec, key, streamId := c, state.key, state.streamId;
      entryCount, headMac, fileState := state.entryCount, state.headMac, state.fileState;
    }

    /** `__init__` and `_resume`: a sink on the verified file, or an error. */
    static method Open(c: Codec, file: AuditFile, key: string, streamId: string, expectedHead: Option<string>)
      returns (sink: HmacAuditChainSink?)
      ensures sink == null <==> Resume(c, key, streamId, expectedHead, file.content).None?
      ensures sink != null ==>
                fresh(sink) && sink.codec == c && Resume(c, key, streamId, expectedHead, file.content) == Some(sink.State())
      ensures sink != null <==> Opens(c, key, streamId, expectedHead, file.content)
      ensures sink != null && expectedHead.Some? ==>
                && sink.headMac == expectedHead && sink.entryCount >= 1
                && var v := Verify(c, key, expectedHead, Some(streamId), Text(file.content));
                   v.Some? && v.value.entryCount == sink.entryCount && Some(v.value.headMac) == expectedHead
    {
      if !ValidKey(key) || !IsIdentifier(streamId) || (expectedHead.Some? && !c.isMac(expectedHead.value)) {
        return null;
      }
      var state := Stat(file.content);
      if state.None? || state.value == 0 {
        if expectedHead.Some? {
          return null;
        }
        sink := new HmacAuditChainSink.Resumed(c, SinkState(key, streamId, 0, None, state));
        return;
      }
      var verified := VerifyAuditChain(c, key, expectedHead, Some(streamId), file.content.value);
      if verified.None? {
        return null;
      }
      sink := new HmacAuditChainSink.Resumed(
        c, SinkState(key, streamId, verified.value.entryCount, Some(verified.value.headMac), state));
    }

    /** `__call__`: append one record. The outcome of each system call is given by `io`. */
    method Call(file: AuditFile, record: AuditRecord, io: Io, parentExists: bool) returns (ok: bool)
      modifies this`entryCount, this`headMac, this`fileState, file`content
      ensures ok == Succeeds(codec, old(State()), old(file.content), record, io, parentExists)
      ensures file.content == Appended(codec, old(State()), old(file.content), record, io, parentExists)
      ensures State() == AfterCall(codec, old(State()), old(file.content), record, io, parentExists)
    {
      if !parentExists {
        return false;
      }
      var currentState := Stat(file.content);
      if currentState != fileState {
        return false;
      }
      var nextSequence := entryCount + 1;
      if nextSequence > MAX_AUDIT_CHAIN_ENTRIES {
        return false;
      }
      var unsigned := Unsigned(streamId, nextSequence, headMac, record);
      var entry := Entry(unsigned, codec.mac(key, unsigned));
      if !EntryValid(codec, entry) {
        return false;
      }
      var payload := codec.render(entry) + "\n";
      if |payload| > MAX_AUDIT_CHAIN_ENTRY_BYTES {
        return false;
      }
      var currentSize := if currentState.None? then 0 else currentState.value;
      if currentSize + |payload| > MAX_AUDIT_CHAIN_BYTES {
        return false;
      }
      if !io.didOpen {
        return false;
      }
      var written := if io.written < |payload| then io.written else |payload|;
      file.content := Some(Text(file.content) + payload[..written]);
      assert payload[..|payload|] == payload;
      if written != |payload| || io.failed {
        return false;
      }
      entryCount := nextSequence;
      headMac := Some(entry.mac);
      fileState := Stat(file.content);
      ok := true;
    }
  }
}
