/** internal/handler/xray_config_transaction.go: the durable whole-config transaction.
    An operation owns three files (metadata, candidate, backup) beside the one live config.
    Every file write and every restart may succeed, fail, or be cut off by a crash of the
    agent; a crash loses nothing but the rest of the action, because nothing is kept in
    memory between requests. */
module ConfigTxn {
  import opened Wrappers

  type Content = string
  type OpId = string

  /** The content hash, taken to be free of collisions. */
  datatype Digest = Digest(of: Content)

  function Hash(c: Content): Digest { Digest(c) }

  datatype TxnState = Prepared | Activated | Committed | RolledBack
  datatype Meta = Meta(oldHash: Digest, newHash: Digest, state: TxnState)

  /** The files of one operation. */
  datatype Txn = Txn(meta: Option<Meta>, staged: Option<Content>, backup: Option<Content>)

  const NO_FILES := Txn(None, None, None)

  datatype Disk = Disk(config: Option<Content>, txns: map<OpId, Txn>) {
    function Files(op: OpId): Txn {
      if op in txns then txns[op] else NO_FILES
    }

    /** What reading the live config gives: a missing file reads as no bytes. */
    function Live(): Content {
      config.GetOr([])
    }
  }

  /** A write replaces the file, leaves it as it was and reports an error, or is cut off by
      a crash before it took effect. */
  datatype Fate = Done | Fails | Crashes

  /** What the outside does during one action, step by step. */
  datatype Env = Env(
    testOk: bool, readMeta: bool, readConfig: bool, readStaged: bool, readBackup: bool,
    makeDir: Fate, writeBackup: Fate, writeStaged: Fate,
    writeConfig: Fate, restart: Fate, restoreConfig: Fate, restartAgain: Fate,
    saveMeta: Fate, removeBackup: Fate, removeStaged: Fate, removeDir: Fate)

  /** Nothing goes wrong. */
  const CALM := Env(true, true, true, true, true, Done, Done, Done, Done, Done, Done, Done, Done, Done, Done, Done)

  datatype Reply =
    | Ok(state: TxnState, idempotent: bool)
    | BadRequest | NotFound | Conflict | IoError
    | ActivateFailed(rolledBack: bool)
    | Aborted
    | Crashed

  /** Normalising a submitted config: parsing, de-duplication, validation and printing.
      None stands for a config that is refused. */
  type Normalizer = Content -> Option<Content>

  predicate IsSpace(c: char) {
    c == ' ' || c == '\t' || c == '\n' || c == '\r' || c as int == 11 || c as int == 12
  }

  predicate Blank(c: Content) {
    forall i | 0 <= i < |c| :: IsSpace(c[i])
  }

  // ----- the actions as functions of the disk -----

  /** The metadata as an action sees it: what cannot be read is taken for no transaction. */
  function Known(t: Txn, env: Env): Option<Meta> {
    if env.readMeta then t.meta else None
  }

  function PrepareStep(d: Disk, op: OpId, submitted: Content, expected: Option<Digest>,
                       norm: Normalizer, env: Env): (Disk, Reply)
  {
    var t := d.Files(op);
    if Blank(submitted) then (d, BadRequest)
    else if Known(t, env).Some? then
      var m := t.meta.value;
      if m.newHash == Hash(submitted) && (m.state == Prepared || m.state == Activated)
      then (d, Ok(m.state, true)) else (d, Conflict)
    else if norm(submitted).None? || !env.testOk then (d, BadRequest)
    else if d.config.Some? && !env.readConfig then (d, IoError)
    else if expected.Some? && expected.value != Hash(d.Live()) then (d, Conflict)
    else Stage(d, op, t, norm(submitted).value, env)
  }

  /** The writing half of prepare: directory, backup, candidate, and last the metadata. */
  function Stage(d: Disk, op: OpId, t: Txn, candidate: Content, env: Env): (Disk, Reply) {
    if env.makeDir != Done then (d, Stopped(env.makeDir))
    else if env.writeBackup != Done then (d.(txns := d.txns[op := t]), Stopped(env.writeBackup))
    else
      var t1 := t.(backup := Some(d.Live()));
      if env.writeStaged != Done then (d.(txns := d.txns[op := t1]), Stopped(env.writeStaged))
      else
        var t2 := t1.(staged := Some(candidate));
        if env.saveMeta != Done then (d.(txns := d.txns[op := t2]), Stopped(env.saveMeta))
        else
          var m := Meta(Hash(d.Live()), Hash(candidate), Prepared);
          (d.(txns := d.txns[op := t2.(meta := Some(m))]), Ok(Prepared, false))
  }

  function Stopped(f: Fate): Reply {
    if f == Crashes then Crashed else IoError
  }

  function WithState(d: Disk, op: OpId, s: TxnState): Disk
    requires d.Files(op).meta.Some?
  {
    var t := d.Files(op);
    d.(txns := d.txns[op := t.(meta := Some(t.meta.value.(state := s)))])
  }

  /** Saving the metadata with a new state, the last write of most actions. */
  function Finish(d: Disk, op: OpId, s: TxnState, env: Env): (Disk, Reply)
    requires d.Files(op).meta.Some?
  {
    if env.saveMeta != Done then (d, Stopped(env.saveMeta)) else (WithState(d, op, s), Ok(s, false))
  }

  function ActivateStep(d: Disk, op: OpId, env: Env): (Disk, Reply) {
    var t := d.Files(op);
    if Known(t, env).None? then (d, NotFound)
    else if t.meta.value.state == Activated then (d, Ok(Activated, true))
    else if t.meta.value.state != Prepared then (d, Conflict)
    else if d.config.Some? && !env.readConfig then (d, IoError)
    else if Hash(d.Live()) != t.meta.value.oldHash then (d, Conflict)
    else if t.staged.None? || !env.readStaged || Hash(t.staged.value) != t.meta.value.newHash then (d, Conflict)
    else if env.writeConfig != Done then (d, Stopped(env.writeConfig))
    else
      var d1 := d.(config := t.staged);
      match env.restart
      case Crashes => (d1, Crashed)
      case Fails => UndoActivate(d1, op, env)
      case Done => Finish(d1, op, Activated, env)
  }

  /** The new config would not start: put the backup back and restart again. */
  function UndoActivate(d: Disk, op: OpId, env: Env): (Disk, Reply)
    requires d.Files(op).meta.Some?
  {
    var t := d.Files(op);
    if t.backup.None? || !env.readBackup then UndoFinish(d, op, false, env)
    else match env.restoreConfig
      case Crashes => (d, Crashed)
      case Fails => UndoFinish(d, op, false, env)
      case Done =>
        var d1 := d.(config := t.backup);
        if env.restartAgain == Crashes then (d1, Crashed)
        else UndoFinish(d1, op, env.restartAgain == Done, env)
  }

  function UndoFinish(d: Disk, op: OpId, rolledBack: bool, env: Env): (Disk, Reply)
    requires d.Files(op).meta.Some?
  {
    match env.saveMeta
    case Crashes => (d, Crashed)
    case Fails => (d, ActivateFailed(rolledBack))
    case Done => (WithState(d, op, Prepared), ActivateFailed(rolledBack))
  }

  /** What rollback and commit read: a read error is ignored and reads as no bytes. */
  function LiveOrNothing(d: Disk, env: Env): Content {
    if env.readConfig then d.Live() else []
  }

  function RollbackStep(d: Disk, op: OpId, env: Env): (Disk, Reply) {
    var t := d.Files(op);
    if Known(t, env).None? then (d, NotFound)
    else if t.backup.None? || !env.readBackup || Hash(t.backup.value) != t.meta.value.oldHash then (d, Conflict)
    else if Hash(LiveOrNothing(d, env)) == t.meta.value.oldHash then Finish(d, op, RolledBack, env)
    else if env.writeConfig != Done then (d, Stopped(env.writeConfig))
    else
      var d1 := d.(config := t.backup);
      if env.restart != Done then (d1, Stopped(env.restart)) else Finish(d1, op, RolledBack, env)
  }

  function CommitStep(d: Disk, op: OpId, env: Env): (Disk, Reply) {
    var t := d.Files(op);
    if Known(t, env).None? then (d, NotFound)
    else if t.meta.value.state != Activated && t.meta.value.state != Committed then (d, Conflict)
    else if Hash(LiveOrNothing(d, env)) != t.meta.value.newHash then (d, Conflict)
    else if env.saveMeta != Done then (d, Stopped(env.saveMeta))
    else
      var d1 := WithState(d, op, Committed);
      if env.removeBackup == Crashes then (d1, Crashed)
      else
        var t1 := d1.Files(op);
        var t2 := if env.removeBackup == Done then t1.(backup := None) else t1;
        var d2 := d1.(txns := d1.txns[op := t2]);
        if env.removeStaged == Crashes then (d2, Crashed)
        else
          var t3 := if env.removeStaged == Done then t2.(staged := None) else t2;
          (d1.(txns := d1.txns[op := t3]), Ok(Committed, false))
  }

  function AbortStep(d: Disk, op: OpId, env: Env): (Disk, Reply) {
    var t := d.Files(op);
    if Known(t, env).None? then (d, NotFound)
    else if t.meta.value.state == Activated then (d, Conflict)
    else if env.removeDir != Done then (d, Stopped(env.removeDir))
    else (d.(txns := d.txns - {op}), Aborted)
  }

  // ----- the handler -----

  class Handler {
    const norm: Normalizer
    var config: Option<Content>
    var txns: map<OpId, Txn>

    function Files(): Disk
      reads this
    {
      Disk(config, txns)
    }

    constructor (norm: Normalizer, config: Option<Content>)
      ensures this.norm == norm && Files() == Disk(config, map[])
    {
      this.norm, this.config, this.txns := norm, config, map[];
    }

    method Prepare(op: OpId, submitted: Content, expected: Option<Digest>, env: Env) returns (reply: Reply)
      modifies this
      ensures (Files(), reply) == PrepareStep(old(Files()), op, submitted, expected, norm, env)
      ensures config == old(config)
      ensures reply != Ok(Prepared, false) ==> Files().Files(op).meta == old(Files().Files(op).meta)
    {
      var t := Files().Files(op);
      if Blank(submitted) {
        return BadRequest;
      }
      if Known(t, env).Some? {
        var existing := t.meta.value;
        if existing.newHash == Hash(submitted) && (existing.state == Prepared || existing.state == Activated) {
          return Ok(existing.state, true);
        }
        return Conflict;
      }
      var candidate := norm(submitted);
      if candidate.None? || !env.testOk {
        return BadRequest;
      }
      if config.Some? && !env.readConfig {
        return IoError;
      }
      var current := config.GetOr([]);
      if expected.Some? && expected.value != Hash(current) {
        return Conflict;
      }
      reply := StageFiles(op, candidate.value, env);
    }

    /** The writing half of Prepare. */
    method StageFiles(op: OpId, candidate: Content, env: Env) returns (reply: Reply)
      modifies this`txns
      ensures (Files(), reply) == Stage(old(Files()), op, old(Files().Files(op)), candidate, env)
      ensures reply != Ok(Prepared, false) ==> Files().Files(op).meta == old(Files().Files(op).meta)
    {
      var current := config.GetOr([]);
      if env.makeDir != Done {
        return Stopped(env.makeDir);
      }
      txns := txns[op := Files().Files(op)];
      if env.writeBackup != Done {
        return Stopped(env.writeBackup);
      }
      txns := txns[op := txns[op].(backup := Some(current))];
      assert txns == old(txns)[op := txns[op]];
      if env.writeStaged != Done {
        return Stopped(env.writeStaged);
      }
      txns := txns[op := txns[op].(staged := Some(candidate))];
      assert txns == old(txns)[op := txns[op]];
      if env.saveMeta != Done {
        return Stopped(env.saveMeta);
      }
      var meta := Meta(Hash(current), Hash(candidate), Prepared);
      txns := txns[op := txns[op].(meta := Some(meta))];
      assert txns == old(txns)[op := txns[op]];
      return Ok(Prepared, false);
    }

    method SaveState(op: OpId, s: TxnState)
      requires Files().Files(op).meta.Some?
      modifies this
      ensures Files() == WithState(old(Files()), op, s)
    {
      txns := txns[op := txns[op].(meta := Some(txns[op].meta.value.(state := s)))];
    }

    method Activate(op: OpId, env: Env) returns (reply: Reply)
      modifies this
      ensures (Files(), reply) == ActivateStep(old(Files()), op, env)
      ensures config in {old(config), old(Files().Files(op).staged), old(Files().Files(op).backup)}
      ensures reply == Ok(Activated, false) ==> config == old(Files().Files(op).staged)
    {
      var t := Files().Files(op);
      if Known(t, env).None? {
        return NotFound;
      }
      var meta := t.meta.value;
      if meta.state == Activated {
        return Ok(Activated, true);
      }
      if meta.state != Prepared {
        return Conflict;
      }
      if config.Some? && !env.readConfig {
        return IoError;
      }
      if Hash(config.GetOr([])) != meta.oldHash {
        return Conflict;
      }
      if t.staged.None? || !env.readStaged || Hash(t.staged.value) != meta.newHash {
        return Conflict;
      }
      if env.writeConfig != Done {
        return Stopped(env.writeConfig);
      }
      config := t.staged;
      if env.restart == Crashes {
        return Crashed;
      }
      if env.restart == Fails {
        var rolledBack := false;
        if t.backup.Some? && env.readBackup {
          if env.restoreConfig == Crashes {
            return Crashed;
          }
          if env.restoreConfig == Done {
            config := t.backup;
            if env.restartAgain == Crashes {
              return Crashed;
            }
            rolledBack := env.restartAgain == Done;
          }
        }
        if env.saveMeta == Crashes {
          return Crashed;
        }
        if env.saveMeta == Done {
          SaveState(op, Prepared);
        }
        return ActivateFailed(rolledBack);
      }
      if env.saveMeta != Done {
        return Stopped(env.saveMeta);
      }
      SaveState(op, Activated);
      return Ok(Activated, false);
    }

    method Rollback(op: OpId, env: Env) returns (reply: Reply)
      modifies this
      ensures (Files(), reply) == RollbackStep(old(Files()), op, env)
      ensures config == old(config) || config == old(Files().Files(op).backup)
    {
      var t := Files().Files(op);
      if Known(t, env).None? {
        return NotFound;
      }
      var meta := t.meta.value;
      if t.backup.None? || !env.readBackup || Hash(t.backup.value) != meta.oldHash {
        return Conflict;
      }
      var current := if env.readConfig then config.GetOr([]) else [];
      if Hash(current) != meta.oldHash {
        if env.writeConfig != Done {
          return Stopped(env.writeConfig);
        }
        config := t.backup;
        if env.restart != Done {
          return Stopped(env.restart);
        }
      }
      if env.saveMeta != Done {
        return Stopped(env.saveMeta);
      }
      SaveState(op, RolledBack);
      return Ok(RolledBack, false);
    }

    method Commit(op: OpId, env: Env) returns (reply: Reply)
      modifies this
      ensures (Files(), reply) == CommitStep(old(Files()), op, env)
      ensures config == old(config)
    {
      var t := Files().Files(op);
      if Known(t, env).None? {
        return NotFound;
      }
      var meta := t.meta.value;
      if meta.state != Activated && meta.state != Committed {
        return Conflict;
      }
      var current := if env.readConfig then config.GetOr([]) else [];
      if Hash(current) != meta.newHash {
        return Conflict;
      }
      if env.saveMeta != Done {
        return Stopped(env.saveMeta);
      }
      SaveState(op, Committed);
      ghost var saved := txns;
      if env.removeBackup == Crashes {
        return Crashed;
      }
      if env.removeBackup == Done {
        txns := txns[op := txns[op].(backup := None)];
      }
      assert txns == saved[op := txns[op]];
      if env.removeStaged == Crashes {
        return Crashed;
      }
      if env.removeStaged == Done {
        txns := txns[op := txns[op].(staged := None)];
      }
      assert txns == saved[op := txns[op]];
      return Ok(Committed, false);
    }

    method Abort(op: OpId, env: Env) returns (reply: Reply)
      modifies this
      ensures (Files(), reply) == AbortStep(old(Files()), op, env)
      ensures config == old(config) && (reply != Aborted ==> txns == old(txns))
    {
      var t := Files().Files(op);
      if Known(t, env).None? {
        return NotFound;
      }
      if t.meta.value.state == Activated {
        return Conflict;
      }
      if env.removeDir != Done {
        return Stopped(env.removeDir);
      }
      txns := txns - {op};
      return Aborted;
    }
  }
}
