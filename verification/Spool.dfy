/** The message spool: the file format, writing by temporary file and rename, and what a crash at any
    moment leaves behind. */
module Spool {
  import opened Text
  import opened Session

  const SEP := "\n---MESSAGE---\n"

  /** How envelopes become text.  The encoder is compact: it never writes a raw line feed. */
  datatype Codec = Codec(encode: Envelope -> string, decode: string -> Option<Envelope>)
  {
    ghost predicate Faithful() {
      forall e :: LfFree(encode(e)) && decode(encode(e)) == Some(e)
    }
  }

  datatype SpoolError = NotFound | MissingSeparator | BadEnvelope | Interrupted

  type Parts = Result<(Envelope, string), SpoolError>

  // ---------------------------------------------------------------- the file format

  function Combined(codec: Codec, envelope: Envelope, message: string): string {
    codec.encode(envelope) + SEP + message
  }

  /** Cutting a file at the first separator. */
  function Cut(data: string): Option<(string, string)> {
    match Find(data, SEP)
    case None => None
    case Some(i) => Some((data[..i], data[i + |SEP|..]))
  }

  function ParseFile(codec: Codec, data: string): Parts {
    match Cut(data)
    case None => Err(MissingSeparator)
    case Some(parts) =>
      match codec.decode(parts.0)
      case None => Err(BadEnvelope)
      case Some(e) => Ok((e, parts.1))
  }

  lemma OccursWithin(a: string, b: string, pat: string, j: nat)
    requires j + |pat| <= |a|
    ensures OccursAt(a + b, pat, j) <==> OccursAt(a, pat, j)
  {
    assert (a + b)[j..j + |pat|] == a[j..j + |pat|];
  }

  /** Both parts come back from the file exactly when the separator does not start inside the
      head, however often it occurs in the tail. */
  lemma CutIff(head: string, tail: string)
    ensures Cut(head + SEP + tail) == Some((head, tail))
            <==> forall j :: 0 <= j < |head| ==> !OccursAt(head + SEP, SEP, j)
  {
    var data := head + SEP + tail;
    forall j | 0 <= j <= |head| ensures OccursAt(data, SEP, j) <==> OccursAt(head + SEP, SEP, j) {
      OccursWithin(head + SEP, tail, SEP, j);
    }
    assert OccursAt(head + SEP, SEP, |head|);
    assert data[..|head|] == head && data[|head| + |SEP|..] == tail;
    if forall j :: 0 <= j < |head| ==> !OccursAt(head + SEP, SEP, j) {
      FindAt(data, SEP, |head|);
    } else {
      assert Find(data, SEP).Some? && Find(data, SEP).value < |head|;
    }
  }

  /** A file is cut at the first separator it has; without any it cannot be read. */
  lemma CutIs(data: string)
    ensures Cut(data).None? <==> forall i :: 0 <= i <= |data| ==> !OccursAt(data, SEP, i)
    ensures Cut(data).Some? ==>
              var (head, tail) := Cut(data).value;
              data == head + SEP + tail && forall i :: 0 <= i < |head| ==> !OccursAt(data, SEP, i)
  {
    match Find(data, SEP)
    case None =>
    case Some(i) => assert data == data[..i] + SEP + data[i + |SEP|..];
  }

  /** A file without a separator is told from one whose envelope cannot be read. */
  lemma UnreadableIs(codec: Codec, data: string)
    ensures ParseFile(codec, data) == Err(MissingSeparator) <==> Cut(data).None?
    ensures ParseFile(codec, data) == Err(BadEnvelope) <==> Cut(data).Some? && codec.decode(Cut(data).value.0).None?
  {
  }

  lemma LineBreakStarts(head: string, j: nat)
    requires LfFree(head) && j < |head|
    ensures !OccursAt(head + SEP, SEP, j)
  {
    var s := head + SEP;
    assert s[j] == head[j] && SEP[0] == '\n';
    assert j + |SEP| <= |s| ==> s[j..j + |SEP|][0] == s[j];
  }

  /** Reading a spooled file gives back the envelope and every byte of the message. */
  lemma FileRoundTrip(codec: Codec, envelope: Envelope, message: string)
    requires codec.Faithful()
    ensures ParseFile(codec, Combined(codec, envelope, message)) == Ok((envelope, message))
  {
    var head := codec.encode(envelope);
    forall j | 0 <= j < |head| ensures !OccursAt(head + SEP, SEP, j) { LineBreakStarts(head, j); }
    CutIff(head, message);
  }

  // ---------------------------------------------------------------- the disk

  datatype Path = Temporary(name: string) | Stored(name: string)

  /** A file's content as processes see it, and whether all of it is known to be on the medium. */
  datatype File = File(content: string, synced: bool)

  type Disk = map<Path, File>

  const EXTENSION := ".msg"

  function FileName(queueId: string): string {
    queueId + EXTENSION
  }

  function TmpPath(queueId: string): Path {
    Temporary(FileName(queueId))
  }

  function FinalPath(queueId: string): Path {
    Stored(FileName(queueId))
  }

  lemma FileNameInjective(a: string, b: string)
    requires FileName(a) == FileName(b)
    ensures a == b
  {
    assert a == FileName(a)[..|FileName(a)| - |EXTENSION|];
    assert b == FileName(b)[..|FileName(b)| - |EXTENSION|];
  }

  // ---------------------------------------------------------------- writers, one system call at a time

  datatype Phase = NotStarted | Writing(done: nat) | Synced | Renamed | Failed

  datatype Writer = Writer(queueId: string, data: string, phase: Phase)

  /** A step of writer `who`, a removal, or a failed system call. */
  datatype Action =
    | Create(who: nat)
    | Write(who: nat, count: nat)
    | Sync(who: nat)
    | Rename(who: nat)
    | Fail(who: nat)
    | Remove(queueId: string)

  datatype World = World(disk: Disk, writers: seq<Writer>)

  predicate Enabled(w: World, a: Action) {
    a.Remove? ||
    (a.who < |w.writers|
     && var writer := w.writers[a.who];
        match a
        case Create(_) => writer.phase.NotStarted?
        case Write(_, count) =>
          writer.phase.Writing? && writer.phase.done + count <= |writer.data| && TmpPath(writer.queueId) in w.disk
        case Sync(_) => writer.phase == Writing(|writer.data|) && TmpPath(writer.queueId) in w.disk
        case Rename(_) => writer.phase.Synced? && TmpPath(writer.queueId) in w.disk
        case Fail(_) => !writer.phase.Renamed?)
  }

  function Do(w: World, a: Action): World
    requires Enabled(w, a)
  {
    if a.Remove? then w.(disk := w.disk - {FinalPath(a.queueId)})
    else
      var writer := w.writers[a.who];
      var tmp, final := TmpPath(writer.queueId), FinalPath(writer.queueId);
      match a
      case Create(_) => Moved(w, w.disk[tmp := File("", false)], a.who, Writing(0))
      case Write(_, count) =>
        var from := writer.phase.done;
        var more := w.disk[tmp].content + writer.data[from..from + count];
        Moved(w, w.disk[tmp := File(more, false)], a.who, Writing(from + count))
      case Sync(_) => Moved(w, w.disk[tmp := w.disk[tmp].(synced := true)], a.who, Synced)
      case Rename(_) => Moved(w, (w.disk - {tmp})[final := w.disk[tmp]], a.who, Renamed)
      case Fail(_) => Moved(w, w.disk, a.who, Failed)
  }

  function Moved(w: World, disk: Disk, who: nat, phase: Phase): World
    requires who < |w.writers|
  {
    World(disk, w.writers[who := w.writers[who].(phase := phase)])
  }

  predicate CanDo(w: World, actions: seq<Action>)
    decreases |actions|
  {
    actions != [] ==> Enabled(w, actions[0]) && CanDo(Do(w, actions[0]), actions[1..])
  }

  /** Every state the world passes through, the first included. */
  function History(w: World, actions: seq<Action>): (r: seq<World>)
    requires CanDo(w, actions)
    ensures |r| == |actions| + 1 && r[0] == w
    decreases |actions|
  {
    if actions == [] then [w] else [w] + History(Do(w, actions[0]), actions[1..])
  }

  /** What a crash can leave: for each name, the entry of this or an earlier moment (directories are
      never synced), with its content intact if that was synced and anything at all otherwise. */
  predicate Survives(history: seq<World>, after: Disk) {
    forall p :: p in after ==>
      exists k :: 0 <= k < |history| && p in history[k].disk
                  && (history[k].disk[p].synced ==> after[p].content == history[k].disk[p].content)
  }

  /** A spooled file is the one from the start, or the whole of what some store meant to write. */
  predicate Whole(start: World, p: Path, content: string) {
    || (p in start.disk && start.disk[p].content == content)
    || exists i :: 0 <= i < |start.writers| && p == FinalPath(start.writers[i].queueId) && start.writers[i].data == content
  }

  predicate OnlyWhole(start: World, disk: Disk) {
    forall p :: p in disk && p.Stored? ==> disk[p].synced && Whole(start, p, disk[p].content)
  }

  /** Nothing written yet, and all that is spooled is on the medium. */
  predicate Settled(w: World) {
    && (forall p :: p in w.disk && p.Stored? ==> w.disk[p].synced)
    && (forall i :: 0 <= i < |w.writers| ==> w.writers[i].phase.NotStarted?)
  }

  predicate DistinctWriters(writers: seq<Writer>) {
    forall i, j :: 0 <= i < j < |writers| ==> writers[i].queueId != writers[j].queueId
  }

  /** How far the temporary file of a writer has come. */
  predicate Underway(w: World, i: nat)
    requires i < |w.writers|
  {
    var writer := w.writers[i];
    var tmp := TmpPath(writer.queueId);
    match writer.phase
    case Writing(done) => done <= |writer.data| && tmp in w.disk && w.disk[tmp].content == writer.data[..done]
    case Synced => tmp in w.disk && w.disk[tmp] == File(writer.data, true)
    case _ => true
  }

  predicate SameJobs(start: World, w: World) {
    && |w.writers| == |start.writers|
    && forall i :: 0 <= i < |w.writers| ==>
         w.writers[i].queueId == start.writers[i].queueId && w.writers[i].data == start.writers[i].data
  }

  predicate Safe(start: World, w: World) {
    SameJobs(start, w) && OnlyWhole(start, w.disk) && forall i :: 0 <= i < |w.writers| ==> Underway(w, i)
  }

  /** An action touches no paths but those of its own queue id. */
  lemma OwnPathsOnly(w: World, a: Action, p: Path)
    requires Enabled(w, a)
    requires var id := if a.Remove? then a.queueId else w.writers[a.who].queueId; p != TmpPath(id) && p != FinalPath(id)
    ensures (p in Do(w, a).disk <==> p in w.disk) && (p in w.disk ==> Do(w, a).disk[p] == w.disk[p])
  {
  }

  /** The other writers' temporary files are left alone. */
  lemma OthersUnderway(start: World, w: World, a: Action, i: nat)
    requires Safe(start, w) && Enabled(w, a) && DistinctWriters(w.writers)
    requires i < |w.writers| && (a.Remove? || a.who != i)
    ensures Do(w, a).writers[i] == w.writers[i] && Underway(Do(w, a), i)
  {
    assert Underway(w, i);
    var tmp := TmpPath(w.writers[i].queueId);
    if a.Remove? {
      assert tmp in w.disk ==> tmp in Do(w, a).disk && Do(w, a).disk[tmp] == w.disk[tmp];
    } else {
      if FileName(w.writers[a.who].queueId) == FileName(w.writers[i].queueId) {
        FileNameInjective(w.writers[a.who].queueId, w.writers[i].queueId);
        assert false;
      }
      OwnPathsOnly(w, a, tmp);
    }
  }

  lemma OwnUnderway(start: World, w: World, a: Action)
    requires Safe(start, w) && Enabled(w, a) && !a.Remove?
    ensures Underway(Do(w, a), a.who)
  {
    assert Underway(w, a.who);
    var writer := w.writers[a.who];
    if a.Write? {
      var from := writer.phase.done;
      assert writer.data[..from] + writer.data[from..from + a.count] == writer.data[..from + a.count];
    } else if a.Sync? {
      assert writer.data[..|writer.data|] == writer.data;
    }
  }

  lemma RenameWhole(start: World, w: World, who: nat)
    requires Safe(start, w) && Enabled(w, Rename(who))
    ensures OnlyWhole(start, Do(w, Rename(who)).disk)
  {
    assert Underway(w, who);
    var final := FinalPath(w.writers[who].queueId);
    var disk := Do(w, Rename(who)).disk;
    assert Whole(start, final, disk[final].content) by {
      assert final == FinalPath(start.writers[who].queueId);
    }
  }

  lemma StepWhole(start: World, w: World, a: Action)
    requires Safe(start, w) && Enabled(w, a)
    ensures OnlyWhole(start, Do(w, a).disk)
  {
    if a.Rename? {
      RenameWhole(start, w, a.who);
    } else {
      forall p | p in Do(w, a).disk && p.Stored? ensures p in w.disk && Do(w, a).disk[p] == w.disk[p] {}
    }
  }

  lemma StepSafe(start: World, w: World, a: Action)
    requires Safe(start, w) && Enabled(w, a) && DistinctWriters(w.writers)
    ensures Safe(start, Do(w, a)) && DistinctWriters(Do(w, a).writers)
  {
    var w' := Do(w, a);
    StepWhole(start, w, a);
    forall i | 0 <= i < |w'.writers| ensures Underway(w', i) {
      if a.Remove? || a.who != i { OthersUnderway(start, w, a, i); } else { OwnUnderway(start, w, a); }
    }
  }

  lemma {:induction false} RunSafe(start: World, w: World, actions: seq<Action>, k: nat)
    requires Safe(start, w) && DistinctWriters(w.writers) && CanDo(w, actions) && k <= |actions|
    ensures Safe(start, History(w, actions)[k])
    decreases |actions|
  {
    if k > 0 {
      StepSafe(start, w, actions[0]);
      RunSafe(start, Do(w, actions[0]), actions[1..], k - 1);
    }
  }

  lemma StartSafe(start: World)
    requires Settled(start)
    ensures Safe(start, start)
  {
  }

  /** However the writers interleave, fail and are interrupted by a crash: if their queue ids are
      distinct, no spooled file is ever torn. */
  lemma {:induction false} CrashSafe(start: World, actions: seq<Action>, after: Disk, p: Path)
    requires Settled(start) && DistinctWriters(start.writers) && CanDo(start, actions)
    requires Survives(History(start, actions), after) && p in after && p.Stored?
    ensures Whole(start, p, after[p].content)
  {
    StartSafe(start);
    var history := History(start, actions);
    var k :| 0 <= k < |history| && p in history[k].disk
             && (history[k].disk[p].synced ==> after[p].content == history[k].disk[p].content);
    RunSafe(start, start, actions, k);
  }

  predicate StoreOf(codec: Codec, writer: Writer, envelope: Envelope, message: string) {
    writer.queueId == envelope.id && writer.data == Combined(codec, envelope, message)
  }

  /** So what is read back after a crash is the envelope and message of some store of that id, or what
      had been spooled under it before. */
  lemma {:induction false} CrashReads(codec: Codec, start: World, actions: seq<Action>, after: Disk, queueId: string,
                   envelopes: seq<Envelope>, messages: seq<string>)
    requires codec.Faithful() && |envelopes| == |messages| == |start.writers|
    requires forall i :: 0 <= i < |envelopes| ==> StoreOf(codec, start.writers[i], envelopes[i], messages[i])
    requires Settled(start) && DistinctWriters(start.writers) && CanDo(start, actions)
    requires Survives(History(start, actions), after) && FinalPath(queueId) in after
    ensures var read := ParseFile(codec, after[FinalPath(queueId)].content);
            || (FinalPath(queueId) in start.disk && read == ParseFile(codec, start.disk[FinalPath(queueId)].content))
            || exists i :: 0 <= i < |envelopes| && envelopes[i].id == queueId && read == Ok((envelopes[i], messages[i]))
  {
    var p := FinalPath(queueId);
    CrashSafe(start, actions, after, p);
    if i :| 0 <= i < |start.writers| && p == FinalPath(start.writers[i].queueId) && start.writers[i].data == after[p].content {
      FileNameInjective(queueId, start.writers[i].queueId);
      FileRoundTrip(codec, envelopes[i], messages[i]);
    }
  }

  // ---------------------------------------------------------------- distinct ids are needed

  /** No sequence of actions tears a spooled file. */
  ghost predicate NeverTorn(start: World) {
    forall actions: seq<Action>, k: nat | CanDo(start, actions) && k <= |actions| ::
      OnlyWhole(start, History(start, actions)[k].disk)
  }

  lemma {:induction false} Then(w: World, a: Action, rest: seq<Action>)
    requires Enabled(w, a) && CanDo(Do(w, a), rest)
    ensures CanDo(w, [a] + rest) && History(w, [a] + rest) == [w] + History(Do(w, a), rest)
  {
    assert ([a] + rest)[1..] == rest;
  }

  function Written(start: World, i: nat): World
    requires i < |start.writers|
  {
    var writer := start.writers[i];
    World(start.disk[TmpPath(writer.queueId) := File(writer.data, true)], start.writers[i := writer.(phase := Synced)])
  }

  lemma SyncedIs(start: World, i: nat)
    requires i < |start.writers| && start.writers[i].phase.NotStarted?
    ensures var w1 := Do(start, Create(i));
            var n := |start.writers[i].data|;
            && Enabled(w1, Write(i, n)) && Enabled(Do(w1, Write(i, n)), Sync(i))
            && Do(Do(w1, Write(i, n)), Sync(i)) == Written(start, i)
  {
    var data := start.writers[i].data;
    assert "" + data[0..|data|] == data;
  }

  /** A store that is let alone gets as far as its sync. */
  lemma {:induction false} WritesAndSyncs(start: World, i: nat, rest: seq<Action>)
    requires i < |start.writers| && start.writers[i].phase.NotStarted? && CanDo(Written(start, i), rest)
    ensures var actions := [Create(i)] + ([Write(i, |start.writers[i].data|)] + ([Sync(i)] + rest));
            CanDo(start, actions) && History(start, actions)[3..] == History(Written(start, i), rest)
  {
    var data := start.writers[i].data;
    var w1 := Do(start, Create(i));
    var w2 := Do(w1, Write(i, |data|));
    assert "" + data[0..|data|] == data;
    assert Do(w2, Sync(i)) == Written(start, i) by { SyncedIs(start, i); }
    Then(w2, Sync(i), rest);
    Then(w1, Write(i, |data|), [Sync(i)] + rest);
    Then(start, Create(i), [Write(i, |data|)] + ([Sync(i)] + rest));
  }

  /** While one store has synced and not renamed, another with its id starts anew. */
  lemma SharedIdTears(start: World, i: nat, j: nat) returns (actions: seq<Action>)
    requires Settled(start) && i < |start.writers| && j < |start.writers| && i != j
    requires start.writers[i].queueId == start.writers[j].queueId
    ensures CanDo(start, actions) && |actions| == 5 && !OnlyWhole(start, History(start, actions)[5].disk)
  {
    var w := Written(start, i);
    var w4 := Do(w, Create(j));
    var w5 := Do(w4, Rename(i));
    Then(w4, Rename(i), []);
    Then(w, Create(j), [Rename(i)] + []);
    WritesAndSyncs(start, i, [Create(j)] + ([Rename(i)] + []));
    actions := [Create(i)] + ([Write(i, |start.writers[i].data|)] + ([Sync(i)] + ([Create(j)] + ([Rename(i)] + []))));
    assert History(start, actions)[5] == History(start, actions)[3..][2] == w5;
    assert !w5.disk[FinalPath(start.writers[i].queueId)].synced;
  }

  /** Spooled files are safe from every interleaving if and only if the stores have distinct ids. */
  lemma NeverTornIff(start: World)
    requires Settled(start)
    ensures NeverTorn(start) <==> DistinctWriters(start.writers)
  {
    if DistinctWriters(start.writers) {
      forall actions: seq<Action>, k: nat | CanDo(start, actions) && k <= |actions|
        ensures OnlyWhole(start, History(start, actions)[k].disk)
      {
        StartSafe(start);
        RunSafe(start, start, actions, k);
      }
    } else {
      var i, j :| 0 <= i < j < |start.writers| && start.writers[i].queueId == start.writers[j].queueId;
      var actions := SharedIdTears(start, i, j);
    }
  }

  // ---------------------------------------------------------------- the spool object

  function Read(codec: Codec, disk: Disk, queueId: string): Parts {
    if FinalPath(queueId) in disk then ParseFile(codec, disk[FinalPath(queueId)].content) else Err(NotFound)
  }

  predicate EndsWith(s: string, suffix: string) {
    |suffix| <= |s| && s[|s| - |suffix|..] == suffix
  }

  /** Rust's `trim_end_matches`: the suffix goes as often as it is there. */
  function WithoutExtension(name: string): (r: string)
    ensures !EndsWith(r, EXTENSION)
  {
    if EndsWith(name, EXTENSION) then WithoutExtension(name[..|name| - |EXTENSION|]) else name
  }

  /** The queue ids under which something is spooled. */
  function StoredIds(disk: Disk): set<string> {
    set p | p in disk && p.Stored? && EndsWith(p.name, EXTENSION) :: p.name[..|p.name| - |EXTENSION|]
  }

  function ListedIds(disk: Disk): set<string> {
    set p | p in disk && p.Stored? && EndsWith(p.name, EXTENSION) :: WithoutExtension(p.name)
  }

  lemma OneExtension(name: string)
    requires EndsWith(name, EXTENSION)
    ensures var id := name[..|name| - |EXTENSION|];
            WithoutExtension(name) == id <==> !EndsWith(id, EXTENSION)
  {
    var id := name[..|name| - |EXTENSION|];
    assert WithoutExtension(name) == WithoutExtension(id);
  }

  /** The listing names exactly the spooled messages if and only if no spooled id itself ends in the
      extension. */
  lemma ListingIff(disk: Disk)
    ensures ListedIds(disk) == StoredIds(disk) <==> forall id :: id in StoredIds(disk) ==> !EndsWith(id, EXTENSION)
  {
    if forall id :: id in StoredIds(disk) ==> !EndsWith(id, EXTENSION) {
      forall p | p in disk && p.Stored? && EndsWith(p.name, EXTENSION)
        ensures WithoutExtension(p.name) == p.name[..|p.name| - |EXTENSION|]
      {
        assert p.name[..|p.name| - |EXTENSION|] in StoredIds(disk);
        OneExtension(p.name);
      }
    } else {
      var id :| id in StoredIds(disk) && EndsWith(id, EXTENSION);
      assert id !in ListedIds(disk);
    }
  }

  /** What the system calls of one store leave behind when the first `calls` of them succeed and a
      failing write gets `partial` bytes out. */
  function StoreLeaves(disk: Disk, queueId: string, data: string, calls: nat, partial: nat): Disk
    requires partial <= |data|
  {
    var tmp := TmpPath(queueId);
    if calls == 0 then disk
    else if calls == 1 then disk[tmp := File(data[..partial], false)]
    else if calls == 2 then disk[tmp := File(data, false)]
    else if calls == 3 then disk[tmp := File(data, true)]
    else (disk - {tmp})[FinalPath(queueId) := File(data, true)]
  }

  /** The steps those system calls are. */
  function StoreActions(data: string, calls: nat, partial: nat): seq<Action> {
    if calls == 0 then []
    else if calls == 1 then [Create(0)] + [Write(0, partial)]
    else if calls == 2 then [Create(0)] + [Write(0, |data|)]
    else if calls == 3 then [Create(0)] + ([Write(0, |data|)] + ([Sync(0)] + []))
    else [Create(0)] + ([Write(0, |data|)] + ([Sync(0)] + [Rename(0)]))
  }

  function Alone(disk: Disk, queueId: string, data: string): World {
    World(disk, [Writer(queueId, data, NotStarted)])
  }

  lemma {:induction false} LastOf(w: World, a: Action, rest: seq<Action>)
    requires Enabled(w, a) && CanDo(Do(w, a), rest)
    ensures CanDo(w, [a] + rest)
    ensures History(w, [a] + rest)[|rest| + 1] == History(Do(w, a), rest)[|rest|]
  {
    Then(w, a, rest);
  }

  lemma WritesSome(disk: Disk, queueId: string, data: string, count: nat)
    requires count <= |data|
    ensures var start, actions := Alone(disk, queueId, data), [Create(0)] + [Write(0, count)];
            && CanDo(start, actions)
            && History(start, actions)[2].disk == disk[TmpPath(queueId) := File(data[..count], false)]
  {
    var start := Alone(disk, queueId, data);
    var w1 := Do(start, Create(0));
    var w2 := Do(w1, Write(0, count));
    assert "" + data[0..count] == data[..count];
    LastOf(w1, Write(0, count), []);
    LastOf(start, Create(0), [Write(0, count)]);
    assert [Write(0, count)] + [] == [Write(0, count)];
  }

  lemma {:induction false} WritesAll(disk: Disk, queueId: string, data: string, rest: seq<Action>)
    requires CanDo(Written(Alone(disk, queueId, data), 0), rest)
    ensures var start, actions := Alone(disk, queueId, data), [Create(0)] + ([Write(0, |data|)] + ([Sync(0)] + rest));
            && CanDo(start, actions)
            && History(start, actions)[|actions|] == History(Written(start, 0), rest)[|rest|]
  {
    var start := Alone(disk, queueId, data);
    var actions := [Create(0)] + ([Write(0, |data|)] + ([Sync(0)] + rest));
    WritesAndSyncs(start, 0, rest);
    assert History(start, actions)[3..][|rest|] == History(start, actions)[|actions|];
  }

  /** What a store leaves is the disk its steps lead to, so what holds of every history of steps holds
      of the object's stores. */
  lemma StoreIsSteps(disk: Disk, queueId: string, data: string, calls: nat, partial: nat)
    requires partial <= |data|
    ensures var start, actions := Alone(disk, queueId, data), StoreActions(data, calls, partial);
            && CanDo(start, actions)
            && History(start, actions)[|actions|].disk == StoreLeaves(disk, queueId, data, calls, partial)
  {
    if calls == 1 {
      WritesSome(disk, queueId, data, partial);
    } else if calls == 2 {
      WritesSome(disk, queueId, data, |data|);
      assert data[..|data|] == data;
    } else if calls == 3 {
      WritesAll(disk, queueId, data, []);
    } else if calls > 3 {
      var synced := Written(Alone(disk, queueId, data), 0);
      LastOf(synced, Rename(0), []);
      assert [Rename(0)] + [] == [Rename(0)];
      WritesAll(disk, queueId, data, [Rename(0)]);
    }
  }

  /** An id that ends in the extension, which only a caller of `store` can choose: its message is there,
      but the listing names another, under which nothing can be read. */
  lemma ExtendedIdMisread(codec: Codec, id: string, data: string)
    requires !EndsWith(id, EXTENSION)
    ensures var disk := StoreLeaves(map[], id + EXTENSION, data, 4, 0);
            StoredIds(disk) == {id + EXTENSION} && ListedIds(disk) == {id} && Read(codec, disk, id) == Err(NotFound)
  {
    var name := FileName(id + EXTENSION);
    var disk := StoreLeaves(map[], id + EXTENSION, data, 4, 0);
    assert disk == map[Stored(name) := File(data, true)];
    assert name[..|name| - |EXTENSION|] == id + EXTENSION;
    assert (id + EXTENSION)[..|id|] == id;
    assert WithoutExtension(name) == WithoutExtension(id + EXTENSION) == id;
    if FileName(id) == name { FileNameInjective(id, id + EXTENSION); }
  }

  class DiskSpool {
    const codec: Codec
    var disk: Disk

    constructor (codec: Codec, disk: Disk)
      ensures this.codec == codec && this.disk == disk
    {
      this.codec := codec;
      this.disk := disk;
    }

    method Store(envelope: Envelope, message: string, calls: nat, partial: nat) returns (r: Result<Path, SpoolError>)
      requires partial <= |Combined(codec, envelope, message)|
      modifies this
      ensures disk == StoreLeaves(old(disk), envelope.id, Combined(codec, envelope, message), calls, partial)
      ensures r == if calls < 4 then Err(Interrupted) else Ok(FinalPath(envelope.id))
    {
      var combined := codec.encode(envelope) + SEP + message;
      var tmp, final := TmpPath(envelope.id), FinalPath(envelope.id);
      if calls == 0 { return Err(Interrupted); }
      disk := disk[tmp := File("", false)];
      disk := disk[tmp := File(if calls == 1 then combined[..partial] else combined, false)];
      if calls <= 2 { return Err(Interrupted); }
      disk := disk[tmp := disk[tmp].(synced := true)];
      if calls == 3 { return Err(Interrupted); }
      disk := (disk - {tmp})[final := disk[tmp]];
      r := Ok(final);
    }

    method ReadParts(queueId: string) returns (r: Parts)
      ensures r == Read(codec, disk, queueId)
    {
      if FinalPath(queueId) !in disk {
        return Err(NotFound);
      }
      r := ParseFile(codec, disk[FinalPath(queueId)].content);
    }

    /** Removing what is not there is no error. */
    method Remove(queueId: string)
      modifies this
      ensures disk == old(disk) - {FinalPath(queueId)}
    {
      disk := disk - {FinalPath(queueId)};
    }

    /** The directory is read in no particular order. */
    method ListQueue() returns (ids: seq<string>)
      ensures (set id | id in ids) == ListedIds(disk)
    {
      ids := [];
      var left := disk.Keys;
      while left != {}
        invariant left <= disk.Keys
        invariant forall p :: p in disk && p !in left && p.Stored? && EndsWith(p.name, EXTENSION) ==> WithoutExtension(p.name) in ids
        invariant forall id :: id in ids ==> id in ListedIds(disk)
        decreases left
      {
        var p :| p in left;
        left := left - {p};
        if p.Stored? && EndsWith(p.name, EXTENSION) {
          assert WithoutExtension(p.name) in ListedIds(disk);
          ids := ids + [WithoutExtension(p.name)];
        }
      }
    }
  }

  /** A completed store is read back whole, and every store leaves all other messages, and on failure
      also its own, as they were. */
  lemma StoreThenRead(codec: Codec, disk: Disk, envelope: Envelope, message: string, calls: nat, partial: nat, other: string)
    requires codec.Faithful() && partial <= |Combined(codec, envelope, message)|
    ensures var disk' := StoreLeaves(disk, envelope.id, Combined(codec, envelope, message), calls, partial);
            Read(codec, disk', other)
            == (if calls >= 4 && other == envelope.id then Ok((envelope, message)) else Read(codec, disk, other))
  {
    FileRoundTrip(codec, envelope, message);
    if other != envelope.id && FileName(other) == FileName(envelope.id) {
      FileNameInjective(other, envelope.id);
    }
  }

  /** A completed store leaves its file, whole and known to be on the medium, and nothing else: no temporary
      file of its own, and every other file as it was. */
  lemma CompletedIs(disk: Disk, queueId: string, data: string, calls: nat, p: Path)
    requires calls >= 4
    ensures var after := StoreLeaves(disk, queueId, data, calls, 0);
            if p == FinalPath(queueId) then p in after && after[p] == File(data, true)
            else if p == TmpPath(queueId) then p !in after
            else (p in after <==> p in disk) && (p in disk ==> after[p] == disk[p])
  {
  }

  lemma RemoveThenRead(codec: Codec, disk: Disk, queueId: string, other: string)
    ensures Read(codec, disk - {FinalPath(queueId)}, other)
         == (if other == queueId then Err(NotFound) else Read(codec, disk, other))
  {
    if other != queueId && FileName(other) == FileName(queueId) {
      FileNameInjective(other, queueId);
    }
  }
}
