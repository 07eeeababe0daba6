/** The cursor stores (`storage.go`): the in-memory map, and the directory of files
    written by temporary-file replacement, with crashes between any two steps. */
module CursorStore {
  import opened Messages
  import opened Hex
  import opened CursorNames

  /** The directory: file names to contents. On a case-insensitive file system the
      names are folded; `key` says how a name is looked up. */
  type Files = map<string, seq<byte>>

  /** The JSON codec of the cursor file and the case sensitivity of the file system. */
  datatype Config = Config(encode: string -> seq<byte>, decode: seq<byte> -> Option<string>, folds: bool)

  /** The codec inverts itself on the given cursor. */
  predicate Valid(cfg: Config, cursor: string) {
    cfg.decode(cfg.encode(cursor)) == Some(cursor)
  }

  function Key(cfg: Config, id: seq<byte>): string {
    if cfg.folds then Fold(FileName(id)) else FileName(id)
  }

  lemma KeysDistinct(cfg: Config, a: seq<byte>, b: seq<byte>)
    ensures Key(cfg, a) == Key(cfg, b) ==> a == b
    ensures !IsTemp(Key(cfg, a))
  {
    FileNamesDistinct(a, b);
    NeverTemp(a);
  }

  datatype Error = ContextError | DecodeError | FileError

  datatype Answer = Done | Loaded(cursor: string) | Failed(error: Error)

  /** `LoadBuf` of an uncancelled caller on a readable directory. */
  function Load(cfg: Config, files: Files, id: seq<byte>): Answer {
    if Key(cfg, id) !in files then Loaded("")
    else
      match cfg.decode(files[Key(cfg, id)])
      case Some(cursor) => Loaded(cursor)
      case None => Failed(DecodeError)
  }

  // ----- the two stores answer alike

  datatype Op =
    | SaveOp(id: seq<byte>, cursor: string, cancelled: bool)
    | LoadOp(id: seq<byte>, cancelled: bool)
    | ClearOp(id: seq<byte>, cancelled: bool)

  function MemoryStep(buffers: map<seq<byte>, string>, op: Op): (map<seq<byte>, string>, Answer) {
    if op.cancelled then (buffers, Failed(ContextError))
    else
      match op
      case SaveOp(id, cursor, _) => (buffers[id := cursor], Done)
      case LoadOp(id, _) => (buffers, Loaded(if id in buffers then buffers[id] else ""))
      case ClearOp(id, _) => (buffers - {id}, Done)
  }

  function FileStep(cfg: Config, files: Files, op: Op): (Files, Answer) {
    if op.cancelled then (files, Failed(ContextError))
    else
      match op
      case SaveOp(id, cursor, _) => (files[Key(cfg, id) := cfg.encode(cursor)], Done)
      case LoadOp(id, _) => (files, Load(cfg, files, id))
      case ClearOp(id, _) => (files - {Key(cfg, id)}, Done)
  }

  function MemoryAnswers(buffers: map<seq<byte>, string>, ops: seq<Op>): seq<Answer>
    decreases |ops|
  {
    if ops == [] then []
    else
      var (next, answer) := MemoryStep(buffers, ops[0]);
      [answer] + MemoryAnswers(next, ops[1..])
  }

  function FileAnswers(cfg: Config, files: Files, ops: seq<Op>): seq<Answer>
    decreases |ops|
  {
    if ops == [] then []
    else
      var (next, answer) := FileStep(cfg, files, ops[0]);
      [answer] + FileAnswers(cfg, next, ops[1..])
  }

  /** The directory answers every account as the map does. */
  ghost predicate Agree(cfg: Config, files: Files, buffers: map<seq<byte>, string>) {
    forall id :: Load(cfg, files, id) == Loaded(if id in buffers then buffers[id] else "")
  }

  lemma AgreeStep(cfg: Config, files: Files, buffers: map<seq<byte>, string>, op: Op)
    requires Agree(cfg, files, buffers)
    requires op.SaveOp? ==> Valid(cfg, op.cursor)
    ensures MemoryStep(buffers, op).1 == FileStep(cfg, files, op).1
    ensures Agree(cfg, FileStep(cfg, files, op).0, MemoryStep(buffers, op).0)
  {
    var files', buffers' := FileStep(cfg, files, op).0, MemoryStep(buffers, op).0;
    forall id: seq<byte>
      ensures Load(cfg, files', id) == Loaded(if id in buffers' then buffers'[id] else "")
    {
      KeysDistinct(cfg, id, op.id);
      assert Load(cfg, files, id) == Loaded(if id in buffers then buffers[id] else "");
    }
  }

  /** Over every sequence of operations on any accounts, with any of the calls
      cancelled, the file store answers exactly as the memory store does. */
  lemma {:induction false} StoresAnswerAlike(cfg: Config, files: Files, buffers: map<seq<byte>, string>, ops: seq<Op>)
    requires Agree(cfg, files, buffers)
    requires forall op <- ops :: op.SaveOp? ==> Valid(cfg, op.cursor)
    ensures FileAnswers(cfg, files, ops) == MemoryAnswers(buffers, ops)
    decreases |ops|
  {
    if ops != [] {
      AgreeStep(cfg, files, buffers, ops[0]);
      StoresAnswerAlike(cfg, FileStep(cfg, files, ops[0]).0, MemoryStep(buffers, ops[0]).0, ops[1..]);
    }
  }

  /** A directory with no cursor file agrees with the empty map, whatever else
      lies in it, such as temporary files left over from crashes. */
  lemma FreshDirectory(cfg: Config, files: Files)
    requires forall id :: Key(cfg, id) !in files
    ensures Agree(cfg, files, map[])
  {}

  // ----- what a load returns

  function MemoryAfter(buffers: map<seq<byte>, string>, ops: seq<Op>): map<seq<byte>, string> {
    if ops == [] then buffers else MemoryStep(MemoryAfter(buffers, ops[..|ops| - 1]), ops[|ops| - 1]).0
  }

  function FilesAfter(cfg: Config, files: Files, ops: seq<Op>): Files {
    if ops == [] then files else FileStep(cfg, FilesAfter(cfg, files, ops[..|ops| - 1]), ops[|ops| - 1]).0
  }

  /** The last cursor saved for the account and not cleared since. */
  function LastSaved(ops: seq<Op>, id: seq<byte>): string {
    if ops == [] then ""
    else
      var op := ops[|ops| - 1];
      if op.cancelled || op.LoadOp? || op.id != id then LastSaved(ops[..|ops| - 1], id)
      else if op.SaveOp? then op.cursor
      else ""
  }

  lemma {:induction false} AgreeAfter(cfg: Config, files: Files, ops: seq<Op>)
    requires Agree(cfg, files, map[])
    requires forall op <- ops :: op.SaveOp? ==> Valid(cfg, op.cursor)
    ensures Agree(cfg, FilesAfter(cfg, files, ops), MemoryAfter(map[], ops))
    decreases |ops|
  {
    if ops != [] {
      var before := ops[..|ops| - 1];
      AgreeAfter(cfg, files, before);
      AgreeStep(cfg, FilesAfter(cfg, files, before), MemoryAfter(map[], before), ops[|ops| - 1]);
    }
  }

  lemma {:induction false} MemoryRemembers(ops: seq<Op>, id: seq<byte>)
    ensures MemoryStep(MemoryAfter(map[], ops), LoadOp(id, false)).1 == Loaded(LastSaved(ops, id))
    decreases |ops|
  {
    if ops != [] {
      MemoryRemembers(ops[..|ops| - 1], id);
    }
  }

  /** After any operations on any accounts, a load from either store returns the
      cursor that was last saved for the account and not cleared since. */
  lemma LoadsLastSaved(cfg: Config, files: Files, ops: seq<Op>, id: seq<byte>)
    requires Agree(cfg, files, map[])
    requires forall op <- ops :: op.SaveOp? ==> Valid(cfg, op.cursor)
    ensures MemoryStep(MemoryAfter(map[], ops), LoadOp(id, false)).1 == Loaded(LastSaved(ops, id))
    ensures FileStep(cfg, FilesAfter(cfg, files, ops), LoadOp(id, false)).1 == Loaded(LastSaved(ops, id))
  {
    AgreeAfter(cfg, files, ops);
    MemoryRemembers(ops, id);
  }

  // ----- writePrivateFile, step by step

  datatype WritePc =
    | Opening                          // before os.CreateTemp
    | Filling(tmp: string)             // the temporary file exists
    | Filled(tmp: string)              // written, synced and closed
    | Cleaning(tmp: string, ok: bool)  // the deferred os.Remove
    | Finished(ok: bool)

  datatype WriteAction =
    | CreateTemp(tmp: string)
    | WritePart(n: nat)   // the first n bytes have reached the file
    | Close               // all bytes written, synced, closed
    | Rename
    | Remove(removed: bool)
    | Fail                // any of the steps, or a context check, fails

  predicate WriteEnabled(files: Files, pc: WritePc, data: seq<byte>, a: WriteAction) {
    match a
    case CreateTemp(tmp) => pc.Opening? && IsTemp(tmp) && tmp !in files
    case WritePart(n) => pc.Filling? && n <= |data|
    case Close => pc.Filling?
    case Rename => pc.Filled? && pc.tmp in files
    case Remove(_) => pc.Cleaning?
    case Fail => pc.Opening? || pc.Filling? || pc.Filled?
  }

  function WriteStep(files: Files, pc: WritePc, target: string, data: seq<byte>, a: WriteAction): (Files, WritePc)
    requires WriteEnabled(files, pc, data, a)
  {
    match a
    case CreateTemp(tmp) => (files[tmp := []], Filling(tmp))
    case WritePart(n) => (files[pc.tmp := data[..n]], pc)
    case Close => (files[pc.tmp := data], Filled(pc.tmp))
    case Rename => ((files - {pc.tmp})[target := files[pc.tmp]], Cleaning(pc.tmp, true))
    case Remove(removed) => (if removed then files - {pc.tmp} else files, Finished(pc.ok))
    case Fail => (files, if pc.Opening? then Finished(false) else Cleaning(pc.tmp, false))
  }

  /** The files that are not temporary, which is all that any load looks at. */
  function Lasting(files: Files): Files {
    map f | f in files && !IsTemp(f) :: files[f]
  }

  predicate Replaced(pc: WritePc) {
    (pc.Cleaning? || pc.Finished?) && pc.ok
  }

  /** Between any two steps the lasting files are all old, or the old ones with
      exactly the target replaced by the whole new content. */
  ghost predicate WriteInv(before: Files, files: Files, pc: WritePc, target: string, data: seq<byte>) {
    && Lasting(files) == (if Replaced(pc) then Lasting(before)[target := data] else Lasting(before))
    && (pc.Filling? || pc.Filled? || pc.Cleaning? ==> IsTemp(pc.tmp))
    && (pc.Filled? ==> pc.tmp in files && files[pc.tmp] == data)
    && (pc.Opening? ==> files == before)
  }

  lemma WriteInvStep(before: Files, files: Files, pc: WritePc, target: string, data: seq<byte>, a: WriteAction)
    requires !IsTemp(target) && WriteInv(before, files, pc, target, data) && WriteEnabled(files, pc, data, a)
    ensures var (files', pc') := WriteStep(files, pc, target, data, a); WriteInv(before, files', pc', target, data)
  {}

  /** A run of write steps; a crash is a run that stops before `Finished`. */
  predicate Writes(files: Files, target: string, data: seq<byte>, actions: seq<WriteAction>)
    decreases |actions|, 0
  {
    actions == [] ||
    var before := actions[..|actions| - 1];
    && Writes(files, target, data, before)
    && var (files', pc) := Written(files, target, data, before);
       WriteEnabled(files', pc, data, actions[|actions| - 1])
  }

  function Written(files: Files, target: string, data: seq<byte>, actions: seq<WriteAction>): (Files, WritePc)
    requires Writes(files, target, data, actions)
    decreases |actions|, 1
  {
    if actions == [] then (files, Opening)
    else
      var (files', pc) := Written(files, target, data, actions[..|actions| - 1]);
      WriteStep(files', pc, target, data, actions[|actions| - 1])
  }

  lemma WriteMore(files: Files, target: string, data: seq<byte>, actions: seq<WriteAction>, a: WriteAction)
    requires Writes(files, target, data, actions)
    requires var (files', pc) := Written(files, target, data, actions); WriteEnabled(files', pc, data, a)
    ensures Writes(files, target, data, actions + [a])
    ensures var (files', pc) := Written(files, target, data, actions);
            Written(files, target, data, actions + [a]) == WriteStep(files', pc, target, data, a)
  {
    assert (actions + [a])[..|actions|] == actions;
  }

  lemma {:induction false} WriteInvHolds(files: Files, target: string, data: seq<byte>, actions: seq<WriteAction>)
    requires !IsTemp(target) && Writes(files, target, data, actions)
    ensures var (files', pc) := Written(files, target, data, actions); WriteInv(files, files', pc, target, data)
    decreases |actions|
  {
    if actions != [] {
      var before := actions[..|actions| - 1];
      WriteInvHolds(files, target, data, before);
      var (files', pc) := Written(files, target, data, before);
      WriteInvStep(files, files', pc, target, data, actions[|actions| - 1]);
    }
  }

  lemma SameLasting(cfg: Config, before: Files, files: Files, id: seq<byte>)
    requires Lasting(files) == Lasting(before)
    ensures Load(cfg, files, id) == Load(cfg, before, id)
  {
    KeysDistinct(cfg, id, id);
    var key := Key(cfg, id);
    assert key in files <==> key in Lasting(files);
    assert key in before <==> key in Lasting(before);
  }

  /** A save interrupted by a crash at any point leaves every account's cursor
      wholly old or wholly new, and only the saved account's can be new. */
  lemma CrashLeavesOldOrNew(
    cfg: Config, files: Files, id: seq<byte>, cursor: string, actions: seq<WriteAction>, other: seq<byte>)
    requires Valid(cfg, cursor) && Writes(files, Key(cfg, id), cfg.encode(cursor), actions)
    ensures var (files', pc) := Written(files, Key(cfg, id), cfg.encode(cursor), actions);
            Load(cfg, files', other) ==
            if other == id && Replaced(pc) then Loaded(cursor) else Load(cfg, files, other)
  {
    KeysDistinct(cfg, id, other);
    WriteInvHolds(files, Key(cfg, id), cfg.encode(cursor), actions);
    var (files', pc) := Written(files, Key(cfg, id), cfg.encode(cursor), actions);
    if Replaced(pc) {
      var saved := files[Key(cfg, id) := cfg.encode(cursor)];
      assert Lasting(files') == Lasting(saved);
      SameLasting(cfg, saved, files', other);
    } else {
      SameLasting(cfg, files, files', other);
    }
  }

  // ----- crashed saves among other operations

  /** An operation carried out, or a save that crashed or failed after some steps. */
  datatype Episode =
    | Whole(op: Op)
    | CutOff(id: seq<byte>, cursor: string, writes: seq<WriteAction>)

  predicate Possible(cfg: Config, files: Files, e: Episode) {
    match e
    case Whole(op) => op.SaveOp? ==> Valid(cfg, op.cursor)
    case CutOff(id, cursor, writes) => Valid(cfg, cursor) && Writes(files, Key(cfg, id), cfg.encode(cursor), writes)
  }

  function FileEpisode(cfg: Config, files: Files, e: Episode): (Files, seq<Answer>)
    requires Possible(cfg, files, e)
  {
    match e
    case Whole(op) => var (next, answer) := FileStep(cfg, files, op); (next, [answer])
    case CutOff(id, cursor, writes) => (Written(files, Key(cfg, id), cfg.encode(cursor), writes).0, [])
  }

  /** The map takes a save that was cut off if the rename had been reached. */
  function MemoryEpisode(cfg: Config, files: Files, buffers: map<seq<byte>, string>, e: Episode)
    : (map<seq<byte>, string>, seq<Answer>)
    requires Possible(cfg, files, e)
  {
    match e
    case Whole(op) => var (next, answer) := MemoryStep(buffers, op); (next, [answer])
    case CutOff(id, cursor, writes) =>
      var (_, pc) := Written(files, Key(cfg, id), cfg.encode(cursor), writes);
      (if Replaced(pc) then buffers[id := cursor] else buffers, [])
  }

  lemma EpisodeStep(cfg: Config, files: Files, buffers: map<seq<byte>, string>, e: Episode)
    requires Agree(cfg, files, buffers) && Possible(cfg, files, e)
    ensures FileEpisode(cfg, files, e).1 == MemoryEpisode(cfg, files, buffers, e).1
    ensures Agree(cfg, FileEpisode(cfg, files, e).0, MemoryEpisode(cfg, files, buffers, e).0)
  {
    if e.Whole? {
      AgreeStep(cfg, files, buffers, e.op);
    } else {
      var files', buffers' := FileEpisode(cfg, files, e).0, MemoryEpisode(cfg, files, buffers, e).0;
      forall other: seq<byte>
        ensures Load(cfg, files', other) == Loaded(if other in buffers' then buffers'[other] else "")
      {
        CrashLeavesOldOrNew(cfg, files, e.id, e.cursor, e.writes, other);
        assert Load(cfg, files, other) == Loaded(if other in buffers then buffers[other] else "");
      }
    }
  }

  predicate AllPossible(cfg: Config, files: Files, es: seq<Episode>)
    decreases |es|
  {
    es == [] || (Possible(cfg, files, es[0]) && AllPossible(cfg, FileEpisode(cfg, files, es[0]).0, es[1..]))
  }

  function FileTrace(cfg: Config, files: Files, es: seq<Episode>): seq<Answer>
    requires AllPossible(cfg, files, es)
    decreases |es|
  {
    if es == [] then []
    else
      var (next, answers) := FileEpisode(cfg, files, es[0]);
      answers + FileTrace(cfg, next, es[1..])
  }

  function MemoryTrace(cfg: Config, files: Files, buffers: map<seq<byte>, string>, es: seq<Episode>): seq<Answer>
    requires AllPossible(cfg, files, es)
    decreases |es|
  {
    if es == [] then []
    else
      var (next, answers) := MemoryEpisode(cfg, files, buffers, es[0]);
      answers + MemoryTrace(cfg, FileEpisode(cfg, files, es[0]).0, next, es[1..])
  }

  /** Over every history of operations and of saves cut off at any step, the file
      store answers as a map that took each such save wholly or not at all. */
  lemma {:induction false} TracesAgree(cfg: Config, files: Files, buffers: map<seq<byte>, string>, es: seq<Episode>)
    requires Agree(cfg, files, buffers) && AllPossible(cfg, files, es)
    ensures FileTrace(cfg, files, es) == MemoryTrace(cfg, files, buffers, es)
    decreases |es|
  {
    if es != [] {
      EpisodeStep(cfg, files, buffers, es[0]);
      TracesAgree(cfg, FileEpisode(cfg, files, es[0]).0, MemoryEpisode(cfg, files, buffers, es[0]).0, es[1..]);
    }
  }

  // ----- the stores as objects

  class MemoryBufStorage {
    var buffers: map<seq<byte>, string>

    constructor ()
      ensures buffers == map[]
    {
      buffers := map[];
    }

    /** The cursor that a load finds. */
    function Committed(id: seq<byte>): string
      reads this
    {
      if id in buffers then buffers[id] else ""
    }

    method LoadBuf(cancelled: bool, accountID: seq<byte>) returns (answer: Answer)
      ensures answer == if cancelled then Failed(ContextError) else Loaded(Committed(accountID))
    {
      if cancelled {
        return Failed(ContextError);
      }
      answer := Loaded(if accountID in buffers then buffers[accountID] else "");
    }

    method SaveBuf(cancelled: bool, accountID: seq<byte>, buf: string) returns (answer: Answer)
      modifies this
      ensures (buffers, answer) == MemoryStep(old(buffers), SaveOp(accountID, buf, cancelled))
      ensures forall id :: Committed(id) == if id == accountID && !cancelled then buf else old(Committed(id))
    {
      if cancelled {
        return Failed(ContextError);
      }
      buffers := buffers[accountID := buf];
      answer := Done;
    }

    method ClearBuf(cancelled: bool, accountID: seq<byte>) returns (answer: Answer)
      modifies this
      ensures (buffers, answer) == MemoryStep(old(buffers), ClearOp(accountID, cancelled))
      ensures forall id :: Committed(id) == if id == accountID && !cancelled then "" else old(Committed(id))
    {
      if cancelled {
        return Failed(ContextError);
      }
      buffers := buffers - {accountID};
      answer := Done;
    }

    method Perform(op: Op) returns (answer: Answer)
      modifies this
      ensures (buffers, answer) == MemoryStep(old(buffers), op)
    {
      match op
      case SaveOp(id, cursor, cancelled) => answer := SaveBuf(cancelled, id, cursor);
      case LoadOp(id, cancelled) => answer := LoadBuf(cancelled, id);
      case ClearOp(id, cancelled) => answer := ClearBuf(cancelled, id);
    }
  }

  // ----- the file system

  datatype ReadResult = Missing | Unreadable | Contents(data: seq<byte>)
  datatype RemoveResult = NothingThere | Removed | NotRemoved

  /** The directory, and a count of the operations that it has refused. */
  class Disk {
    var files: Files
    var refusals: nat

    constructor (files: Files)
      ensures this.files == files && refusals == 0
    {
      this.files, refusals := files, 0;
    }

    /** Whether the operation that is coming up is refused. */
    method Refuses() returns (refused: bool)
      modifies this`refusals
      ensures refusals == old(refusals) + if refused then 1 else 0
    {
      refused := *;
      if refused {
        refusals := refusals + 1;
      }
    }

    /** `os.ReadFile` */
    method ReadFile(name: string) returns (r: ReadResult)
      modifies this`refusals
      ensures refusals == old(refusals) + if r.Unreadable? then 1 else 0
      ensures r.Missing? ==> name !in files
      ensures r.Contents? ==> name in files && r.data == files[name]
    {
      var refused := Refuses();
      r := if refused then Unreadable else if name in files then Contents(files[name]) else Missing;
    }

    /** `os.MkdirAll` and `os.CreateTemp` */
    method CreateTempFile() returns (tmp: Option<string>)
      modifies this
      ensures refusals == old(refusals) + if tmp.None? then 1 else 0
      ensures tmp.None? ==> files == old(files)
      ensures tmp.Some? ==> IsTemp(tmp.value) && tmp.value !in old(files) && files == old(files)[tmp.value := []]
    {
      var name: string := *;
      if IsTemp(name) && name !in files {
        files := files[name := []];
        tmp := Some(name);
      } else {
        refusals := refusals + 1;
        tmp := None;
      }
    }

    /** Chmod, write, sync and close of the temporary file; a part of the data may
        have been written when one of them is refused. */
    method Fill(tmp: string, data: seq<byte>) returns (filled: bool, ghost n: nat)
      modifies this
      ensures refusals == old(refusals) + if filled then 0 else 1
      ensures n <= |data| && files == old(files)[tmp := if filled then data else data[..n]]
    {
      var written: nat :| 0 <= written <= |data|;
      n := written;
      var refused := Refuses();
      filled := !refused;
      files := files[tmp := if filled then data else data[..written]];
    }

    /** `os.Rename` */
    method Rename(tmp: string, target: string) returns (renamed: bool)
      requires tmp in files
      modifies this
      ensures refusals == old(refusals) + if renamed then 0 else 1
      ensures files == if renamed then (old(files) - {tmp})[target := old(files)[tmp]] else old(files)
    {
      var refused := Refuses();
      renamed := !refused;
      if renamed {
        files := (files - {tmp})[target := files[tmp]];
      }
    }

    /** `os.Remove` */
    method Remove(name: string) returns (r: RemoveResult)
      modifies this
      ensures refusals == old(refusals) + if r.NotRemoved? then 1 else 0
      ensures files == if r.Removed? then old(files) - {name} else old(files)
      ensures r.NothingThere? ==> name !in old(files)
    {
      var refused := Refuses();
      if refused {
        r := NotRemoved;
      } else if name in files {
        files := files - {name};
        r := Removed;
      } else {
        r := NothingThere;
      }
    }

    /** The deferred `os.Remove`, whose error nobody looks at. */
    method RemoveQuietly(name: string) returns (removed: bool)
      modifies this`files
      ensures files == if removed then old(files) - {name} else old(files)
    {
      removed := *;
      if removed {
        files := files - {name};
      }
    }
  }

  /** The checks of the context that a save makes. */
  const SAVE_CHECKS := 3

  /** The file store. Each operation is told how many checks of the context pass. */
  class FileBufStorage {
    const cfg: Config
    const disk: Disk

    constructor (cfg: Config, disk: Disk)
      ensures this.cfg == cfg && this.disk == disk
    {
      this.cfg, this.disk := cfg, disk;
    }

    /** An uncancelled load of a directory that does not refuse it always answers as
        specified: with the stored cursor, with none, or with a decoding error. */
    method LoadBuf(passes: nat, accountID: seq<byte>) returns (answer: Answer)
      modifies disk`refusals
      ensures passes == 0 ==> answer == Failed(ContextError) && disk.refusals == old(disk.refusals)
      ensures passes > 0 ==>
                answer == if disk.refusals == old(disk.refusals) then Load(cfg, disk.files, accountID) else Failed(FileError)
      ensures old(disk.refusals) <= disk.refusals <= old(disk.refusals) + 1
    {
      if passes == 0 {
        return Failed(ContextError);
      }
      var key := KeyFor(accountID);
      var data := disk.ReadFile(key);
      if data.Missing? {
        return Loaded("");
      }
      if data.Unreadable? {
        return Failed(FileError);
      }
      var stored := cfg.decode(data.data);
      if stored.None? {
        return Failed(DecodeError);
      }
      return Loaded(stored.value);
    }

    method KeyFor(accountID: seq<byte>) returns (key: string)
      ensures key == Key(cfg, accountID)
    {
      key := PathForAccount(accountID);
      if cfg.folds {
        key := Fold(key);
      }
    }

    /** Success replaces exactly this account's file; failure changes no lasting
        file. Either way the directory moved by write steps, all of which
        `CrashLeavesOldOrNew` covers. It succeeds unless the context ends before its
        last check or the directory refuses a step. */
    method SaveBuf(passes: nat, accountID: seq<byte>, buf: string) returns (answer: Answer, ghost actions: seq<WriteAction>)
      modifies disk
      ensures answer == if disk.refusals > old(disk.refusals) then Failed(FileError)
                        else if passes < SAVE_CHECKS then Failed(ContextError) else Done
      ensures old(disk.refusals) <= disk.refusals <= old(disk.refusals) + 1
      ensures passes == 0 ==> disk.files == old(disk.files) && disk.refusals == old(disk.refusals)
      ensures answer == Done ==> disk.files == FileStep(cfg, old(disk.files), SaveOp(accountID, buf, false)).0
      ensures answer != Done ==> Lasting(disk.files) == Lasting(old(disk.files))
      ensures passes > 0 ==>
                && Writes(old(disk.files), Key(cfg, accountID), cfg.encode(buf), actions)
                && Written(old(disk.files), Key(cfg, accountID), cfg.encode(buf), actions)
                   == (disk.files, Finished(answer == Done))
    {
      if passes == 0 {
        return Failed(ContextError), [];
      }
      var key := KeyFor(accountID);
      KeysDistinct(cfg, accountID, accountID);
      answer, actions := WritePrivateFile(passes - 1, key, cfg.encode(buf));
    }

    method WritePrivateFile(passes: nat, path: string, data: seq<byte>)
      returns (answer: Answer, ghost actions: seq<WriteAction>)
      requires !IsTemp(path)
      modifies disk
      ensures answer == if disk.refusals > old(disk.refusals) then Failed(FileError)
                        else if passes < 2 then Failed(ContextError) else Done
      ensures old(disk.refusals) <= disk.refusals <= old(disk.refusals) + 1
      ensures Writes(old(disk.files), path, data, actions)
      ensures Written(old(disk.files), path, data, actions) == (disk.files, Finished(answer == Done))
      ensures answer == Done ==> disk.files == old(disk.files)[path := data]
      ensures answer != Done ==> Lasting(disk.files) == Lasting(old(disk.files))
    {
      actions := [];
      if passes == 0 {
        WriteMore(old(disk.files), path, data, actions, Fail);
        return Failed(ContextError), [Fail];
      }
      var created := disk.CreateTempFile();
      if created.None? {
        WriteMore(old(disk.files), path, data, actions, Fail);
        return Failed(FileError), [Fail];
      }
      var tmp := created.value;
      WriteMore(old(disk.files), path, data, actions, CreateTemp(tmp));
      actions := [CreateTemp(tmp)];
      answer, actions := FillAndRename(passes - 1, tmp, path, data, old(disk.files), actions);
      // The deferred removal of the temporary file; its error is ignored.
      var removed := disk.RemoveQuietly(tmp);
      WriteMore(old(disk.files), path, data, actions, Remove(removed));
      actions := actions + [Remove(removed)];
      WriteInvHolds(old(disk.files), path, data, actions);
    }

    /** From the created temporary file to the deferred removal. */
    method FillAndRename(
      passes: nat, tmp: string, path: string, data: seq<byte>, ghost before: Files, ghost earlier: seq<WriteAction>)
      returns (answer: Answer, ghost actions: seq<WriteAction>)
      requires Writes(before, path, data, earlier)
      requires Written(before, path, data, earlier) == (disk.files, Filling(tmp))
      modifies disk
      ensures answer == if disk.refusals > old(disk.refusals) then Failed(FileError)
                        else if passes < 1 then Failed(ContextError) else Done
      ensures old(disk.refusals) <= disk.refusals <= old(disk.refusals) + 1
      ensures Writes(before, path, data, actions)
      ensures Written(before, path, data, actions) == (disk.files, Cleaning(tmp, answer == Done))
      ensures answer == Done ==> disk.files == (old(disk.files) - {tmp})[path := data]
    {
      actions := earlier;
      var filled;
      ghost var n;
      filled, n := disk.Fill(tmp, data);
      ghost var step := if filled then Close else WritePart(n);
      WriteMore(before, path, data, actions, step);
      actions := actions + [step];
      if !filled {
        WriteMore(before, path, data, actions, Fail);
        return Failed(FileError), actions + [Fail];
      }
      if passes == 0 {
        WriteMore(before, path, data, actions, Fail);
        return Failed(ContextError), actions + [Fail];
      }
      var renamed := disk.Rename(tmp, path);
      step := if renamed then WriteAction.Rename else Fail;
      WriteMore(before, path, data, actions, step);
      return if renamed then Done else Failed(FileError), actions + [step];
    }

    method ClearBuf(passes: nat, accountID: seq<byte>) returns (answer: Answer)
      modifies disk
      ensures passes == 0 ==> answer == Failed(ContextError) && disk.refusals == old(disk.refusals)
      ensures passes > 0 ==> answer == if disk.refusals == old(disk.refusals) then Done else Failed(FileError)
      ensures old(disk.refusals) <= disk.refusals <= old(disk.refusals) + 1
      ensures answer == Done ==> disk.files == FileStep(cfg, old(disk.files), ClearOp(accountID, false)).0
      ensures answer != Done ==> disk.files == old(disk.files)
    {
      if passes == 0 {
        return Failed(ContextError);
      }
      var key := KeyFor(accountID);
      var r := disk.Remove(key);
      return if r.NotRemoved? then Failed(FileError) else Done;
    }

    /** An operation whose context is over from the start, or not at all. */
    method Perform(op: Op) returns (answer: Answer)
      modifies disk
      ensures disk.refusals == old(disk.refusals) ==> (disk.files, answer) == FileStep(cfg, old(disk.files), op)
      ensures disk.refusals > old(disk.refusals) ==>
                answer == Failed(FileError) && Lasting(disk.files) == Lasting(old(disk.files))
      ensures old(disk.refusals) <= disk.refusals <= old(disk.refusals) + 1
    {
      var passes := if op.cancelled then 0 else SAVE_CHECKS;
      match op
      case SaveOp(id, cursor, _) =>
        ghost var writes;
        answer, writes := SaveBuf(passes, id, cursor);
      case LoadOp(id, _) => answer := LoadBuf(passes, id);
      case ClearOp(id, _) => answer := ClearBuf(passes, id);
    }
  }

  lemma AgreeLasting(cfg: Config, before: Files, files: Files, buffers: map<seq<byte>, string>)
    requires Agree(cfg, before, buffers) && Lasting(files) == Lasting(before)
    ensures Agree(cfg, files, buffers)
  {
    forall id: seq<byte>
      ensures Load(cfg, files, id) == Loaded(if id in buffers then buffers[id] else "")
    {
      SameLasting(cfg, before, files, id);
      assert Load(cfg, before, id) == Loaded(if id in buffers then buffers[id] else "");
    }
  }

  /** The same operations on both stores, leaving out of the second exactly what the
      file system refused to the first: every answer of the one is that of the other. */
  method RunBoth(file: FileBufStorage, memory: MemoryBufStorage, ops: seq<Op>) returns (same: bool, left: nat)
    requires Agree(file.cfg, file.disk.files, memory.buffers)
    requires forall op <- ops :: op.SaveOp? ==> Valid(file.cfg, op.cursor)
    modifies file.disk, memory
    ensures same && left == file.disk.refusals - old(file.disk.refusals)
    ensures Agree(file.cfg, file.disk.files, memory.buffers)
    ensures left == 0 ==> memory.buffers == MemoryAfter(old(memory.buffers), ops)
  {
    same, left := true, 0;
    ghost var start := memory.buffers;
    for i := 0 to |ops|
      invariant same && left == file.disk.refusals - old(file.disk.refusals)
      invariant Agree(file.cfg, file.disk.files, memory.buffers)
      invariant left == 0 ==> memory.buffers == MemoryAfter(start, ops[..i])
    {
      ghost var files, buffers, refused := file.disk.files, memory.buffers, file.disk.refusals;
      assert ops[i] in ops && ops[..i + 1][..i] == ops[..i];
      var answer := file.Perform(ops[i]);
      if answer == Failed(FileError) {
        NeverRefused(file.cfg, files, ops[i]);
        AgreeLasting(file.cfg, files, file.disk.files, buffers);
        left := left + 1;
      } else {
        AgreeStep(file.cfg, files, buffers, ops[i]);
        var other := memory.Perform(ops[i]);
        same := same && answer == other;
      }
    }
    assert ops[..|ops|] == ops;
  }

  /** A store whose directory refuses nothing has no such answer to give. */
  lemma NeverRefused(cfg: Config, files: Files, op: Op)
    ensures FileStep(cfg, files, op).1 != Failed(FileError)
  {}
}
